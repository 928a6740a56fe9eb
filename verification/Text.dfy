/** Decimal text of utils.c: integers printed into a buffer and read back. */
module Text {
  import opened Bytes

  const ZERO: byte := 48
  const NINE: byte := 57
  const MINUS: byte := 45
  const UINT64_MAX := 0xFFFF_FFFF_FFFF_FFFF
  const INT64_MIN := -0x8000_0000_0000_0000
  const INT64_MIN_LENGTH := 20
  const INT64_MIN_TEXT: bytes := [MINUS] + [57, 50, 50, 51, 51, 55, 50, 48, 51, 54, 56, 53, 52, 55, 55, 53, 56, 48, 56]

  /** The decimal digits of a number, without leading zeros. */
  function Digits(n: nat): (s: bytes)
    ensures s != [] && AllDigits(s)
  {
    if n < 10 then [ZERO + n] else Digits(n / 10) + [ZERO + n % 10]
  }

  function IntText(n: int): bytes {
    if n < 0 then [MINUS] + Digits(-n) else Digits(n)
  }

  predicate AllDigits(s: bytes) {
    forall i :: 0 <= i < |s| ==> ZERO <= s[i] <= NINE
  }

  /** The number read digit by digit behind one already read. */
  function Fold(acc: nat, s: bytes): (n: nat)
    requires AllDigits(s)
    ensures n >= acc
    decreases |s|
  {
    if s == [] then acc else Fold(acc * 10 + (s[0] - ZERO), s[1..])
  }

  function Value(s: bytes): nat
    requires AllDigits(s)
  {
    Fold(0, s)
  }

  lemma {:induction false} FoldAppend(acc: nat, s: bytes, d: byte)
    requires AllDigits(s) && ZERO <= d <= NINE
    ensures Fold(acc, s + [d]) == Fold(acc, s) * 10 + (d - ZERO)
    decreases |s|
  {
    if s == [] {
      assert (s + [d])[1..] == [];
    } else {
      assert (s + [d])[1..] == s[1..] + [d];
      FoldAppend(acc * 10 + (s[0] - ZERO), s[1..], d);
    }
  }

  /** Printing is exact: the value of the printed digits is the number. */
  lemma {:induction false} ValueOfDigits(n: nat)
    ensures Value(Digits(n)) == n
  {
    if n < 10 {
      assert Fold(0, [ZERO + n]) == Fold(n, [ZERO + n][1..]);
    } else {
      ValueOfDigits(n / 10);
      FoldAppend(0, Digits(n / 10), ZERO + n % 10);
    }
  }

  lemma DigitsAtMost(n: nat, k: nat)
    requires k > 0 && n < Pow10(k)
    ensures |Digits(n)| <= k
  {
    if n >= 10 {
      DigitsAtMost(n / 10, k - 1);
    }
  }

  function Pow10(k: nat): nat {
    if k == 0 then 1 else 10 * Pow10(k - 1)
  }

  // ---- printing ------------------------------------------------------------------------

  /** utils_uintToText into the `length` bytes from `start` on: all digits, or 0. A result shorter
      than the space is terminated. */
  method UIntToText(data: uint64, buffer: array<byte>, start: nat, length: nat) returns (result: nat)
    requires start + length <= buffer.Length
    modifies buffer
    ensures result == if |Digits(data)| <= length then |Digits(data)| else 0
    ensures result > 0 ==> buffer[start..start + result] == Digits(data)
    ensures 0 < result < length ==> buffer[start + result] == 0
    ensures forall i :: 0 <= i < buffer.Length && !(start <= i < start + length) ==> buffer[i] == old(buffer[i])
  {
    if length == 0 {
      return 0;
    }
    var left, index := PrintBackwards(data, buffer, start, length);
    if left > 0 {
      return 0;
    }
    result := length - index;
    if result < length {
      ghost var digits := buffer[start + index..start + length];
      MoveDown(buffer, start, index, result);
      buffer[start + result] := 0;
      assert buffer[start..start + result] == digits;
    }
  }

  /** The loop of utils_uintToText, from the end of the space backwards: the digits that fit, in front
      of them the number that is left. */
  method PrintBackwards(data: nat, buffer: array<byte>, start: nat, length: nat) returns (left: nat, index: nat)
    requires 0 < length && start + length <= buffer.Length
    modifies buffer
    ensures index < length && (left > 0 ==> index == 0)
    ensures Digits(data) == Unprinted(left) + buffer[start + index..start + length]
    ensures forall i :: 0 <= i < buffer.Length && !(start <= i < start + length) ==> buffer[i] == old(buffer[i])
  {
    hide Digits, Unprinted;
    left, index := data, length;
    ghost var done: bytes := [];
    PrintStep(left, done);
    buffer[start + index - 1], done := ZERO + left % 10, [ZERO + left % 10] + done;
    left, index := left / 10, index - 1;
    while index > 0 && left > 0
      invariant 0 <= index < length
      invariant |done| == length - index
      invariant forall i :: start + index <= i < start + length ==> buffer[i] == done[i - (start + index)]
      invariant Digits(data) == Unprinted(left) + done
      invariant forall i :: 0 <= i < buffer.Length && !(start <= i < start + length) ==> buffer[i] == old(buffer[i])
    {
      PrintStep(left, done);
      UnprintedIs(left);
      buffer[start + index - 1], done := ZERO + left % 10, [ZERO + left % 10] + done;
      left, index := left / 10, index - 1;
    }
    assert buffer[start + index..start + length] == done;
  }

  /** The digits that are still to be printed. */
  function Unprinted(left: nat): bytes {
    if left > 0 then Digits(left) else []
  }

  lemma UnprintedIs(left: nat)
    ensures left > 0 ==> Unprinted(left) == Digits(left)
  {
  }

  lemma PrintStep(left: nat, done: bytes)
    ensures Digits(left) + done == Unprinted(left / 10) + ([ZERO + left % 10] + done)
  {
    hide AllDigits;
    var front := Unprinted(left / 10);
    assert Digits(left) == front + [ZERO + left % 10] by {
      if left < 10 { assert front == []; }
    }
    assert front + [ZERO + left % 10] + done == front + ([ZERO + left % 10] + done);
  }

  /** memmove of the `n` bytes at `start + offset` down to `start`. */
  method MoveDown(buffer: array<byte>, start: nat, offset: nat, n: nat)
    requires start + offset + n <= buffer.Length
    modifies buffer
    ensures forall i :: start <= i < start + n ==> buffer[i] == old(buffer[i + offset])
    ensures forall i :: 0 <= i < buffer.Length && !(start <= i < start + n) ==> buffer[i] == old(buffer[i])
  {
    ghost var was := buffer[..];
    for k := 0 to n
      invariant forall i :: start <= i < start + k ==> buffer[i] == was[i + offset]
      invariant forall i :: 0 <= i < buffer.Length && !(start <= i < start + k) ==> buffer[i] == was[i]
    {
      buffer[start + k] := buffer[start + offset + k];
    }
  }

  /** utils_intToText. Only the least integer needs a byte more than its text. */
  method IntToText(data: int64, buffer: array<byte>, start: nat, length: nat) returns (result: nat)
    requires start + length <= buffer.Length
    modifies buffer
    ensures
      var fits := |IntText(data)| <= length && (data == INT64_MIN ==> INT64_MIN_LENGTH < length);
      result == if fits then |IntText(data)| else 0
    ensures result > 0 ==> buffer[start..start + result] == IntText(data)
    ensures forall i :: 0 <= i < buffer.Length && !(start <= i < start + length) ==> buffer[i] == old(buffer[i])
  {
    IntTextOf(data);
    hide Digits, IntText, AllDigits;
    if data < 0 {
      if length == 0 {
        return 0;
      }
      buffer[start] := MINUS;
      if data == INT64_MIN {
        result := MinToText(buffer, start, length);
        return;
      }
      result := UIntToText(-data, buffer, start + 1, length - 1);
      if result != 0 {
        result := result + 1;
        ghost var digits := buffer[start + 1..start + result];
        assert buffer[start..start + result] == [MINUS] + digits;
      }
    } else {
      result := UIntToText(data, buffer, start, length);
    }
  }

  lemma IntTextOf(n: int)
    ensures n < 0 ==> IntText(n) == [MINUS] + Digits(-n) && |IntText(n)| == 1 + |Digits(-n)|
    ensures n >= 0 ==> IntText(n) == Digits(n)
  {
  }

  /** The branch of utils_intToText for the least integer, whose absolute value does not fit. */
  method MinToText(buffer: array<byte>, start: nat, length: nat) returns (result: nat)
    requires start + length <= buffer.Length
    modifies buffer
    ensures |IntText(INT64_MIN)| == INT64_MIN_LENGTH
    ensures result == if INT64_MIN_LENGTH < length then INT64_MIN_LENGTH else 0
    ensures result > 0 ==> buffer[start..start + result] == IntText(INT64_MIN)
    ensures forall i :: 0 <= i < buffer.Length && !(start <= i < start + length) ==> buffer[i] == old(buffer[i])
  {
    IntMinText();
    hide IntText;
    if INT64_MIN_LENGTH >= length {
      return 0;
    }
    CopyText(INT64_MIN_TEXT, buffer, start);
    result := INT64_MIN_LENGTH;
  }

  /** memcpy of a text and its terminator. */
  method CopyText(text: bytes, buffer: array<byte>, start: nat)
    requires start + |text| < buffer.Length
    modifies buffer
    ensures buffer[start..start + |text|] == text && buffer[start + |text|] == 0
    ensures forall i :: 0 <= i < buffer.Length && !(start <= i <= start + |text|) ==> buffer[i] == old(buffer[i])
  {
    for k := 0 to |text|
      invariant forall i :: start <= i < start + k ==> buffer[i] == text[i - start]
      invariant forall i :: 0 <= i < buffer.Length && !(start <= i < start + k) ==> buffer[i] == old(buffer[i])
    {
      buffer[start + k] := text[k];
    }
    buffer[start + |text|] := 0;
  }

  lemma IntMinText8()
    ensures Digits(92233720) == [57, 50, 50, 51, 51, 55, 50, 48]
  {
    assert Digits(92) == [57, 50];
    hide Digits;
    DigitsStep(92, 2);
    assert Digits(922) == [57, 50, 50];
    DigitsStep(922, 3);
    assert Digits(9223) == [57, 50, 50, 51];
    DigitsStep(9223, 3);
    assert Digits(92233) == [57, 50, 50, 51, 51];
    DigitsStep(92233, 7);
    assert Digits(922337) == [57, 50, 50, 51, 51, 55];
    DigitsStep(922337, 2);
    assert Digits(9223372) == [57, 50, 50, 51, 51, 55, 50];
    DigitsStep(9223372, 0);
  }

  lemma IntMinText14()
    ensures Digits(92233720368547) == [57, 50, 50, 51, 51, 55, 50, 48, 51, 54, 56, 53, 52, 55]
  {
    IntMinText8();
    hide Digits;
    DigitsStep(92233720, 3);
    assert Digits(922337203) == [57, 50, 50, 51, 51, 55, 50, 48, 51];
    DigitsStep(922337203, 6);
    assert Digits(9223372036) == [57, 50, 50, 51, 51, 55, 50, 48, 51, 54];
    DigitsStep(9223372036, 8);
    assert Digits(92233720368) == [57, 50, 50, 51, 51, 55, 50, 48, 51, 54, 56];
    DigitsStep(92233720368, 5);
    assert Digits(922337203685) == [57, 50, 50, 51, 51, 55, 50, 48, 51, 54, 56, 53];
    DigitsStep(922337203685, 4);
    assert Digits(9223372036854) == [57, 50, 50, 51, 51, 55, 50, 48, 51, 54, 56, 53, 52];
    DigitsStep(9223372036854, 7);
  }

  lemma IntMinText19()
    ensures Digits(9223372036854775808) == [57, 50, 50, 51, 51, 55, 50, 48, 51, 54, 56, 53, 52, 55, 55, 53, 56, 48, 56]
  {
    IntMinText14();
    hide Digits;
    DigitsStep(92233720368547, 7);
    assert Digits(922337203685477) == [57, 50, 50, 51, 51, 55, 50, 48, 51, 54, 56, 53, 52, 55, 55];
    DigitsStep(922337203685477, 5);
    assert Digits(9223372036854775) == [57, 50, 50, 51, 51, 55, 50, 48, 51, 54, 56, 53, 52, 55, 55, 53];
    DigitsStep(9223372036854775, 8);
    assert Digits(92233720368547758) == [57, 50, 50, 51, 51, 55, 50, 48, 51, 54, 56, 53, 52, 55, 55, 53, 56];
    DigitsStep(92233720368547758, 0);
    assert Digits(922337203685477580) == [57, 50, 50, 51, 51, 55, 50, 48, 51, 54, 56, 53, 52, 55, 55, 53, 56, 48];
    DigitsStep(922337203685477580, 8);
  }

  lemma IntMinText()
    ensures IntText(INT64_MIN) == INT64_MIN_TEXT
  {
    IntMinText19();
  }

  lemma DigitsStep(n: nat, d: nat)
    requires n > 0 && d < 10
    ensures Digits(n * 10 + d) == Digits(n) + [ZERO + d]
  {
  }

  // ---- reading -------------------------------------------------------------------------

  /** The accumulation both readers share: refused when the number so far is above UINT64_MAX / 10,
      otherwise in 64 bits. */
  function Scan(acc: uint64, s: bytes): Option<uint64>
    decreases |s|
  {
    if s == [] then Some(acc)
    else if !(ZERO <= s[0] <= NINE) || acc > UINT64_MAX / 10 then None
    else Scan((acc * 10 + (s[0] - ZERO)) % (UINT64_MAX + 1), s[1..])
  }

  /** utils_textToUInt. */
  function TextToUInt(s: bytes): Option<uint64> {
    if s == [] then None else Scan(0, s)
  }

  /** utils_textToInt. */
  function TextToInt(s: bytes): Option<int64> {
    if s == [] then None
    else
      var negative := s[0] == MINUS;
      match Scan(0, if negative then s[1..] else s)
      case None => None
      case Some(n) =>
        if n > 0x7FFF_FFFF_FFFF_FFFF + (if negative then 1 else 0) then None
        else Some(if negative then 0 - n else n)
  }

  method ReadUInt(buffer: bytes) returns (r: Option<uint64>)
    ensures r == TextToUInt(buffer)
  {
    if |buffer| == 0 {
      return None;
    }
    r := ReadDigits(buffer, 0);
    assert buffer[0..] == buffer;
  }

  /** The loop of both readers. */
  method ReadDigits(buffer: bytes, first: nat) returns (r: Option<uint64>)
    requires first <= |buffer|
    ensures r == Scan(0, buffer[first..])
  {
    var result: uint64 := 0;
    var i := first;
    while i < |buffer|
      invariant first <= i <= |buffer|
      invariant Scan(result, buffer[i..]) == Scan(0, buffer[first..])
    {
      assert buffer[i..][0] == buffer[i] && buffer[i..][1..] == buffer[i + 1..];
      if ZERO <= buffer[i] <= NINE {
        if result > UINT64_MAX / 10 {
          return None;
        }
        result := (result * 10 + (buffer[i] - ZERO)) % (UINT64_MAX + 1);
      } else {
        return None;
      }
      i := i + 1;
    }
    r := Some(result);
  }

  method ReadInt(buffer: bytes) returns (r: Option<int64>)
    ensures r == TextToInt(buffer)
  {
    if |buffer| == 0 {
      return None;
    }
    var sign, i := 1, 0;
    if buffer[0] == MINUS {
      sign, i := -1, 1;
    }
    var result := ReadDigits(buffer, i);
    assert buffer[0..] == buffer;
    if result.None? || result.value > 0x7FFF_FFFF_FFFF_FFFF + (if sign == -1 then 1 else 0) {
      return None;
    }
    var n: int := result.value;
    r := Some(if sign == -1 then -n else n);
  }

  /** Reading is exact as long as the number fits into 64 bits. */
  lemma {:induction false} ScanExact(acc: uint64, s: bytes)
    requires AllDigits(s) && Fold(acc, s) <= UINT64_MAX
    ensures Scan(acc, s) == Some(Fold(acc, s))
    decreases |s|
  {
    if s != [] {
      ScanExact(acc * 10 + (s[0] - ZERO), s[1..]);
    }
  }

  lemma {:induction false} ScanDigitsOnly(acc: uint64, s: bytes)
    requires Scan(acc, s).Some?
    ensures AllDigits(s)
    decreases |s|
  {
    if s != [] {
      ScanDigitsOnly((acc * 10 + (s[0] - ZERO)) % (UINT64_MAX + 1), s[1..]);
      assert forall i :: 0 < i < |s| ==> s[i] == s[1..][i - 1];
    }
  }

  /** utils_textToUInt returns the value of its text exactly for non-empty digits whose value fits
      into 64 bits. */
  lemma ReadsUIntIff(s: bytes)
    ensures (AllDigits(s) && TextToUInt(s) == Some(Value(s))) <==> (s != [] && AllDigits(s) && Value(s) <= UINT64_MAX)
    ensures TextToUInt(s).Some? ==> AllDigits(s)
  {
    if s != [] {
      if Scan(0, s).Some? { ScanDigitsOnly(0, s); }
      if AllDigits(s) && Value(s) <= UINT64_MAX { ScanExact(0, s); }
    }
  }

  /** The digits before each digit have a value that, in 64 bits, leaves room for another one. */
  predicate NeverRefused(s: bytes)
    requires AllDigits(s)
  {
    forall k :: 0 <= k < |s| ==> Value(s[..k]) % (UINT64_MAX + 1) <= UINT64_MAX / 10
  }

  lemma {:induction false} ScanIs(s: bytes)
    requires AllDigits(s)
    ensures Scan(0, s) == if NeverRefused(s) then Some(Value(s) % (UINT64_MAX + 1)) else None
  {
    if s != [] {
      var n := |s| - 1;
      var t, d := s[..n], s[n];
      assert s == t + [d] && s[..n] == t;
      ScanIs(t);
      ScanAppend(0, t, d);
      FoldAppend(0, t, d);
      NextDigit(Value(t), d - ZERO);
      assert forall k :: 0 <= k < n ==> s[..k] == t[..k];
      if NeverRefused(t) {
        var m: uint64 := Value(t) % (UINT64_MAX + 1);
        assert [d][1..] == [];
        assert Scan(m, [d]) == if m > UINT64_MAX / 10 then None else Some((m * 10 + (d - ZERO)) % (UINT64_MAX + 1));
      }
    }
  }

  lemma NextDigit(v: nat, d: nat)
    ensures (v % (UINT64_MAX + 1) * 10 + d) % (UINT64_MAX + 1) == (v * 10 + d) % (UINT64_MAX + 1)
  {
    var m, q := UINT64_MAX + 1, v / (UINT64_MAX + 1);
    var r := v % m * 10 + d;
    assert v * 10 + d == r + m * (q * 10);
    SameRemainder(r, q * 10);
  }

  lemma SameRemainder(r: nat, q: nat)
    ensures (r + (UINT64_MAX + 1) * q) % (UINT64_MAX + 1) == r % (UINT64_MAX + 1)
  {
  }

  /** What utils_textToUInt makes of every text: it is accepted exactly if it consists of digits of which
      none comes behind a value that is too large in 64 bits, and is then read modulo 2^64. */
  lemma ReadsUIntModulo(s: bytes)
    ensures TextToUInt(s) ==
      if s != [] && AllDigits(s) && NeverRefused(s) then Some(Value(s) % (UINT64_MAX + 1)) else None
  {
    if s != [] {
      if AllDigits(s) { ScanIs(s); }
      else if Scan(0, s).Some? { ScanDigitsOnly(0, s); }
    }
  }

  /** What utils_textToInt makes of digits behind an optional sign. */
  lemma ReadsIntModulo(s: bytes, negative: bool)
    requires AllDigits(s) && (negative || s != [])
    ensures
      var m := Value(s) % (UINT64_MAX + 1);
      TextToInt((if negative then [MINUS] else []) + s) ==
        if NeverRefused(s) && m <= 0x7FFF_FFFF_FFFF_FFFF + (if negative then 1 else 0) then Some(if negative then 0 - m else m)
        else None
  {
    var text := (if negative then [MINUS] else []) + s;
    assert text[if negative then 1 else 0..] == s;
    assert !negative ==> text == s;
    ScanIs(s);
  }

  /** Reading goes on behind a number that is small in 64 bits, however large it is. */
  lemma ReadsOn(n: nat, m: uint64, d: nat)
    requires n > 0 && d < 10 && TextToUInt(Digits(n)) == Some(m) && m <= UINT64_MAX / 10
    ensures TextToUInt(Digits(n * 10 + d)) == Some((m * 10 + d) % (UINT64_MAX + 1))
  {
    DigitsStep(n, d);
    ScanAppend(0, Digits(n), ZERO + d);
    assert [ZERO + d][1..] == [];
  }

  /** The 21 digits of ten times 2^64 and 5 are read as 5. */
  lemma TwiceOverflowing()
    ensures TextToUInt(Digits(184467440737095516165)) == Some(5)
  {
    hide Digits, Scan, TextToUInt;
    UIntTextRoundTrip(1844674407370955161);
    ReadsOn(1844674407370955161, 1844674407370955161, 6);
    ReadsOn(18446744073709551616, 0, 5);
  }

  /** There is no end to such texts: 2^64 with any number of zeros behind it is read as 0. */
  lemma {:induction false} OverflowsEndlessly(zeros: nat)
    ensures TextToUInt(Digits(18446744073709551616 * Pow10(zeros))) == Some(0)
  {
    hide Digits, Scan, TextToUInt;
    if zeros == 0 {
      UIntTextRoundTrip(1844674407370955161);
      ReadsOn(1844674407370955161, 1844674407370955161, 6);
    } else {
      OverflowsEndlessly(zeros - 1);
      Positive(zeros - 1);
      ReadsOn(18446744073709551616 * Pow10(zeros - 1), 0, 0);
      assert 18446744073709551616 * Pow10(zeros) == 18446744073709551616 * Pow10(zeros - 1) * 10 + 0;
    }
  }

  lemma {:induction false} Positive(k: nat)
    ensures Pow10(k) > 0
  {
    if k > 0 { Positive(k - 1); }
  }

  /** The first digit that takes a number over UINT64_MAX is refused, except that the four smallest such
      numbers wrap around to 0, 1, 2 and 3 and are read on from there. */
  lemma OverflowIff(s: bytes, d: byte)
    requires s != [] && AllDigits(s) && ZERO <= d <= NINE
    requires Value(s) <= UINT64_MAX < Value(s + [d])
    ensures TextToUInt(s + [d]) ==
      if Value(s + [d]) <= UINT64_MAX + 4 then Some(Value(s + [d]) - (UINT64_MAX + 1)) else None
  {
    FoldAppend(0, s, d);
    ScanExact(0, s);
    ScanAppend(0, s, d);
  }

  lemma {:induction false} ScanAppend(acc: uint64, s: bytes, d: byte)
    requires AllDigits(s) && ZERO <= d <= NINE
    ensures Scan(acc, s + [d]) == match Scan(acc, s) case None => None case Some(n) => Scan(n, [d])
    decreases |s|
  {
    if s == [] {
      assert s + [d] == [d];
    } else {
      assert (s + [d])[1..] == s[1..] + [d];
      if acc <= UINT64_MAX / 10 {
        ScanAppend((acc * 10 + (s[0] - ZERO)) % (UINT64_MAX + 1), s[1..], d);
      }
    }
  }

  /** Every 64-bit integer is read back from its text. */
  lemma IntTextRoundTrip(n: int64)
    ensures TextToInt(IntText(n)) == Some(n)
    ensures n >= 0 ==> TextToUInt(IntText(n)) == Some(n)
  {
    var m := if n < 0 then 0 - n else n;
    ValueOfDigits(m);
    ScanExact(0, Digits(m));
    assert n < 0 ==> IntText(n)[1..] == Digits(m);
  }

  lemma UIntTextRoundTrip(n: uint64)
    ensures TextToUInt(Digits(n)) == Some(n)
  {
    ValueOfDigits(n);
    ScanExact(0, Digits(n));
  }

  /** utils_textToInt returns the signed value of its text exactly if that fits into 64 bits; a lone
      minus sign reads as 0. */
  lemma ReadsIntIff(s: bytes, negative: bool)
    requires AllDigits(s) && (negative || s != [])
    ensures
      var n := if negative then 0 - Value(s) else Value(s);
      TextToInt((if negative then [MINUS] else []) + s) == Some(n) <==> INT64_MIN <= n <= 0x7FFF_FFFF_FFFF_FFFF
  {
    var text := (if negative then [MINUS] else []) + s;
    assert text[if negative then 1 else 0..] == s;
    assert !negative ==> text == s;
    if Value(s) <= UINT64_MAX { ScanExact(0, s); }
  }
}
