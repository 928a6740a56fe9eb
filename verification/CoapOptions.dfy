/** The option encoding of er-coap-13.c: delta/length headers with one- and two-byte
    extensions (RFC 7252, section 3.1), minimal-length integer options (RFC 7252,
    section 3.2) and the packed Block option (RFC 7959, section 2.2). */
module CoapOptions {
  import opened Bytes

  const MAX_OPTION_HEADER_LEN := 5

  // ---- option header -------------------------------------------------------------------

  function Nibble(value: nat): (n: byte)
    ensures n < 15
  {
    if value < 13 then value else if value <= 0xFF + 13 then 13 else 14
  }

  /** The bytes that follow the first header byte for a delta or a length. */
  function Extension(value: nat): bytes {
    if value > 268 then [(value - 269) / 256 % 256, (value - 269) % 256]
    else if value > 12 then [value - 13]
    else []
  }

  function Header(delta: nat, length: nat): bytes {
    [Nibble(delta) * 16 + Nibble(length)] + Extension(delta) + Extension(length)
  }

  /** A cursor after reading an extended nibble. */
  datatype Extended = Extended(value: nat, next: nat)

  /** The byte at `pos`. The C parser may read one or two bytes past the end here; its cursor
      is then past the end too and the length check that follows rejects the message
      whatever those bytes were, so any value does. */
  function ByteAt(data: bytes, pos: nat): byte {
    if pos < |data| then data[pos] else 0
  }

  function ReadExtended(data: bytes, nibble: nat, pos: nat): (e: Extended)
    ensures pos <= e.next
  {
    if nibble == 13 then Extended(13 + ByteAt(data, pos), pos + 1)
    else if nibble == 14 then
      Extended(14 + 255 + ByteAt(data, pos) * 256 + ByteAt(data, pos + 1), pos + 2)
    else Extended(nibble, pos)
  }

  /** Reading an extended nibble undoes writing it, for every value a header can carry. */
  lemma ReadExtendedInverse(data: bytes, pos: nat, value: nat)
    requires value <= 269 + 0xFFFF
    requires pos + |Extension(value)| <= |data|
    requires data[pos..pos + |Extension(value)|] == Extension(value)
    ensures ReadExtended(data, Nibble(value), pos) == Extended(value, pos + |Extension(value)|)
  {
    var ext := Extension(value);
    if value > 268 {
      assert data[pos] == data[pos..pos + 2][0] == ext[0];
      assert data[pos + 1] == data[pos..pos + 2][1] == ext[1];
    } else if value > 12 {
      assert data[pos] == data[pos..pos + 1][0] == ext[0];
    }
  }

  /** coap_set_option_header: the loop visits the delta, then the length. */
  method PutOptionHeader(delta: nat, length: nat, buffer: array<byte>, at: nat) returns (written: nat)
    requires at + |Header(delta, length)| <= buffer.Length
    modifies buffer
    ensures written == |Header(delta, length)|
    ensures buffer[..at + written] == old(buffer[..at]) + Header(delta, length)
  {
    buffer[at] := Nibble(delta) * 16 + Nibble(length);
    written := 1;
    ghost var done: bytes := [Nibble(delta) * 16 + Nibble(length)];
    assert buffer[..at + 1] == old(buffer[..at]) + done;
    for k := 0 to 2
      invariant written == |done|
      invariant at + written <= buffer.Length
      invariant done == [Nibble(delta) * 16 + Nibble(length)]
                + (if k > 0 then Extension(delta) else []) + (if k > 1 then Extension(length) else [])
      invariant buffer[..at + written] == old(buffer[..at]) + done
    {
      var x := if k == 0 then delta else length;
      var size := PutExtension(x, buffer, at + written);
      written := written + size;
      done := done + Extension(x);
    }
  }

  /** The body of the loop of coap_set_option_header. */
  method PutExtension(x: nat, buffer: array<byte>, at: nat) returns (size: nat)
    requires at + |Extension(x)| <= buffer.Length
    modifies buffer
    ensures size == |Extension(x)|
    ensures buffer[..at + size] == old(buffer[..at]) + Extension(x)
  {
    ghost var before := buffer[..at];
    size := 0;
    if x > 268 {
      buffer[at] := (x - 269) / 256 % 256;
      buffer[at + 1] := (x - 269) % 256;
      size := 2;
    } else if x > 12 {
      buffer[at] := x - 13;
      size := 1;
    }
    assert buffer[..at + size] == before + Extension(x);
  }

  // ---- integer options -----------------------------------------------------------------

  /** The shortest big-endian form; zero takes no byte. */
  function IntBytes(value: uint32): (b: bytes)
    ensures |b| <= 4
    ensures value < 0x100_0000 ==> |b| <= 3
  {
    (if value >= 0x100_0000 then [value / 0x100_0000] else [])
    + (if value >= 0x1_0000 then [value / 0x1_0000 % 256] else [])
    + (if value >= 0x100 then [value / 0x100 % 256] else [])
    + (if value >= 1 then [value % 256] else [])
  }

  function ParseIntFrom(acc: uint32, b: bytes): uint32
    decreases |b|
  {
    if b == [] then acc else ParseIntFrom((acc * 256 + b[0]) % 0x1_0000_0000, b[1..])
  }

  function ParseInt(b: bytes): uint32 {
    ParseIntFrom(0, b)
  }

  /** coap_parse_int_option. */
  method ParseIntOption(b: bytes) returns (value: uint32)
    ensures value == ParseInt(b)
  {
    value := 0;
    var i := 0;
    while i < |b|
      invariant 0 <= i <= |b|
      invariant ParseIntFrom(value, b[i..]) == ParseInt(b)
    {
      assert b[i..][1..] == b[i + 1..];
      value := (value * 256 + b[i]) % 0x1_0000_0000;
      i := i + 1;
    }
  }

  lemma ParseStep(acc: uint32, first: byte, rest: bytes)
    ensures acc < 0x100_0000 ==> ParseIntFrom(acc, [first] + rest) == ParseIntFrom(acc * 256 + first, rest)
  {
    assert ([first] + rest)[1..] == rest;
  }

  lemma ParseFour(b3: byte, b2: byte, b1: byte, b0: byte)
    ensures ParseIntFrom(b3, [b2] + ([b1] + ([b0] + []))) == ((b3 * 256 + b2) * 256 + b1) * 256 + b0
    ensures ParseIntFrom(b2, [b1] + ([b0] + [])) == (b2 * 256 + b1) * 256 + b0
    ensures ParseIntFrom(b1, [b0] + []) == b1 * 256 + b0
    ensures ParseIntFrom(b0, []) == b0
  {
    ParseStep(b3, b2, [b1] + ([b0] + []));
    ParseStep(b3 * 256 + b2, b1, [b0] + []);
    ParseStep((b3 * 256 + b2) * 256 + b1, b0, []);
    ParseStep(b2, b1, [b0] + []);
    ParseStep(b2 * 256 + b1, b0, []);
    ParseStep(b1, b0, []);
  }

  lemma BytesOfWord(value: uint32)
    ensures var b3, b2, b1, b0 := value / 0x100_0000, value / 0x1_0000 % 256, value / 0x100 % 256, value % 256;
            value == ((b3 * 256 + b2) * 256 + b1) * 256 + b0
  {
    var v1, v2 := value / 0x100, value / 0x1_0000;
    assert v2 == v1 / 0x100;
    assert value / 0x100_0000 == v2 / 0x100;
  }

  /** Every 32-bit value survives the minimal encoding. */
  lemma ParseIntInverse(value: uint32)
    ensures ParseInt(IntBytes(value)) == value
  {
    hide ParseIntFrom;
    var b3, b2, b1, b0 := value / 0x100_0000, value / 0x1_0000 % 256, value / 0x100 % 256, value % 256;
    BytesOfWord(value);
    ParseFour(b3, b2, b1, b0);
    if value >= 0x100_0000 {
      assert IntBytes(value) == [b3] + ([b2] + ([b1] + ([b0] + [])));
      ParseStep(0, b3, [b2] + ([b1] + ([b0] + [])));
    } else if value >= 0x1_0000 {
      assert IntBytes(value) == [b2] + ([b1] + ([b0] + []));
      ParseStep(0, b2, [b1] + ([b0] + []));
    } else if value >= 0x100 {
      assert IntBytes(value) == [b1] + ([b0] + []);
      ParseStep(0, b1, [b0] + []);
    } else if value >= 1 {
      assert IntBytes(value) == [b0] + [];
      ParseStep(0, b0, []);
    } else {
      ParseFour(0, 0, 0, 0);
      assert IntBytes(value) == [];
    }
  }

  // ---- block options -------------------------------------------------------------------

  datatype Block = Block(num: uint32, more: bool, size: uint16)

  /** coap_log_2: the position of the highest set bit, 0 if there is none. */
  function Log2(value: uint16): (e: nat)
    ensures value >= 1 ==> Pow2(e) <= value < 2 * Pow2(e)
    ensures value == 0 ==> e == 0
  {
    if value <= 1 then 0 else 1 + Log2(value / 2)
  }

  /** What coap_set_header_block1 and coap_set_header_block2 accept. */
  predicate SettableBlock(num: uint32, size: uint16) {
    16 <= size <= 2048 && num <= 0xF_FFFF
  }

  predicate PowerSize(size: nat) {
    size == 16 || size == 32 || size == 64 || size == 128 || size == 256 || size == 512
    || size == 1024 || size == 2048
  }

  /** The packed option value: number, more flag, size exponent. */
  function PackBlock(b: Block): (v: uint32)
    requires SettableBlock(b.num, b.size)
    ensures v < 0x100_0000
  {
    Log2Bound(b.size / 16);
    b.num * 16 + (if b.more then 8 else 0) + Log2(b.size / 16)
  }

  function UnpackBlock(v: uint32): Block {
    Block(v / 16, v / 8 % 2 == 1, BlockSize(v))
  }

  function BlockSize(v: uint32): (s: uint16)
    ensures PowerSize(s)
  {
    var e := v % 8;
    Pow2Table(e);
    16 * Pow2(e)
  }

  /** The byte offset coap_parse_message stores beside the block: the number shifted in
      32-bit arithmetic, low four bits cleared. */
  function ParsedOffset(v: uint32): uint32 {
    v / 16 * 16 * Pow2(v % 8) % 0x1_0000_0000
  }

  lemma Pow2Table(e: nat)
    requires e < 8
    ensures Pow2(e) == [1, 2, 4, 8, 16, 32, 64, 128][e]
  {
    assert Pow2(1) == 2 && Pow2(2) == 4 && Pow2(3) == 8;
    assert Pow2(4) == 16 && Pow2(5) == 32 && Pow2(6) == 64 && Pow2(7) == 128;
  }

  lemma Log2Bound(value: uint16)
    requires 1 <= value <= 128
    ensures Log2(value) <= 7
  {
    if value > 1 {
      if Log2(value) >= 8 {
        Pow2Monotone(8, Log2(value));
        assert Pow2(8) == 2 * Pow2(7);
        Pow2Table(7);
      }
    }
  }

  lemma Pow2Monotone(a: nat, b: nat)
    requires a <= b
    ensures Pow2(a) <= Pow2(b)
  {
    if a < b {
      Pow2Monotone(a, b - 1);
    }
  }

  /** The block size that travels: the largest power of two not above the one that was set. */
  function RoundedSize(size: uint16): (s: uint16)
    requires 16 <= size <= 2048
    ensures PowerSize(s) && s <= size < 2 * s
  {
    Log2Bound(size / 16);
    Pow2Table(Log2(size / 16));
    16 * Pow2(Log2(size / 16))
  }

  /** Parsing undoes packing on number and flag; the size comes back rounded down to a
      power of two. */
  lemma UnpackPackBlock(b: Block)
    requires SettableBlock(b.num, b.size)
    ensures UnpackBlock(PackBlock(b)) == b.(size := RoundedSize(b.size))
    ensures PowerSize(b.size) ==> RoundedSize(b.size) == b.size
  {
    Log2Bound(b.size / 16);
    var e := Log2(b.size / 16);
    var v := PackBlock(b);
    PackedFields(b.num, if b.more then 1 else 0, e);
    if PowerSize(b.size) {
      PowerSizesDisjoint(b.size, RoundedSize(b.size));
    }
  }

  lemma PackedFields(num: nat, m: nat, e: nat)
    requires m <= 1 && e <= 7
    ensures var v := num * 16 + m * 8 + e; v % 8 == e && v / 16 == num && v / 8 % 2 == m
  {
    var v := num * 16 + m * 8 + e;
    assert v / 8 == num * 2 + m;
  }

  lemma PowerSizesDisjoint(a: nat, b: nat)
    requires PowerSize(a) && PowerSize(b) && b <= a < 2 * b
    ensures a == b
  {
  }

  /** For every block number a header can carry, the parsed offset is number times size:
      the 32-bit shift loses nothing. */
  lemma ParsedOffsetIsNumTimesSize(v: uint32)
    requires v < 0x100_0000
    ensures ParsedOffset(v) == UnpackBlock(v).num * UnpackBlock(v).size
  {
    var e := v % 8;
    Pow2Table(e);
    var n := v / 16;
    assert n <= 0xF_FFFF;
    assert n * 16 * Pow2(e) == n * (16 * Pow2(e));
    assert 16 * Pow2(e) <= 2048;
    assert n * (16 * Pow2(e)) <= 0xF_FFFF * 2048;
  }
}
