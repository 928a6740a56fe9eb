/** The fixed-width integers of the C sources as subset types of int, and the option and
    result types shared by the modules. Shifts and masks of the source are written with
    `/` and `%` on non-negative numbers. */
module Bytes {
  type byte = x: int | 0 <= x < 0x100
  type uint16 = x: int | 0 <= x < 0x1_0000
  type uint32 = x: int | 0 <= x < 0x1_0000_0000
  type uint64 = x: int | 0 <= x < 0x1_0000_0000_0000_0000
  type int64 = x: int | -0x8000_0000_0000_0000 <= x < 0x8000_0000_0000_0000

  type bytes = seq<byte>

  datatype Option<+T> = None | Some(value: T)

  datatype Result<+T, +E> = Ok(value: T) | Err(error: E)

  function Min(a: int, b: int): int {
    if a < b then a else b
  }

  function Max(a: int, b: int): int {
    if a > b then a else b
  }

  /** Powers of two, for left shifts. */
  function Pow2(n: nat): (p: nat)
    ensures p >= 1
  {
    if n == 0 then 1 else 2 * Pow2(n - 1)
  }

  lemma Middle<T>(a: seq<T>, m: seq<T>, c: seq<T>)
    ensures (a + m + c)[|a|..|a| + |m|] == m
    ensures (a + m + c)[|a| + |m|..] == c
  {
  }
}
