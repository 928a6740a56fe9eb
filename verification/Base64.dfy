/** Base64 of utils.c: RFC 4648, section 4. */
module Base64 {
  import opened Bytes

  const PADDING: byte := 61
  const BAD_VALUE: byte := 0xFF

  /** The alphabet, by value. */
  function Letter(v: nat): (c: byte)
    requires v < 64
    ensures c != PADDING && ValueOf(c) == v
  {
    if v < 26 then 65 + v else if v < 52 then 97 + (v - 26) else if v < 62 then 48 + (v - 52)
    else if v == 62 then 43 else 47
  }

  /** prv_base64Value. */
  function ValueOf(c: byte): byte {
    if 65 <= c <= 90 then c - 65 else if 97 <= c <= 122 then c - 97 + 26 else if 48 <= c <= 57 then c - 48 + 52
    else if c == 43 then 62 else if c == 47 then 63 else BAD_VALUE
  }

  /** utils_base64GetSize. */
  function GetSize(n: nat): nat {
    4 * (n / 3) + if n % 3 != 0 then 4 else 0
  }

  /** A number below 64, six bits of the data. */
  type Sextet = x: int | 0 <= x < 64

  function First(a: byte): Sextet {
    a / 4
  }

  function Second(a: byte, b: byte): Sextet {
    a % 4 * 16 + b / 16
  }

  function Third(b: byte, c: byte): Sextet {
    b % 16 * 4 + c / 64
  }

  function Fourth(c: byte): Sextet {
    c % 64
  }

  /** The four characters of one, two or three bytes. */
  function EncodeBlock(s: bytes): (r: bytes)
    requires 1 <= |s| <= 3
    ensures |r| == 4
  {
    [Letter(First(s[0])),
     Letter(Second(s[0], if |s| > 1 then s[1] else 0)),
     if |s| > 1 then Letter(Third(s[1], if |s| > 2 then s[2] else 0)) else PADDING,
     if |s| > 2 then Letter(Fourth(s[2])) else PADDING]
  }

  /** The whole text: blocks of three bytes, the last one padded. */
  function Encoded(s: bytes): (r: bytes)
    ensures |r| == GetSize(|s|)
  {
    if s == [] then [] else if |s| <= 3 then EncodeBlock(s) else EncodeBlock(s[..3]) + Encoded(s[3..])
  }

  /** prv_encodeBlock. */
  method PutBlock(a: byte, b: byte, c: byte, buffer: array<byte>, at: nat)
    requires at + 4 <= buffer.Length
    modifies buffer
    ensures buffer[at..at + 4] == EncodeBlock([a, b, c])
    ensures forall i :: 0 <= i < buffer.Length && !(at <= i < at + 4) ==> buffer[i] == old(buffer[i])
  {
    hide Letter;
    buffer[at] := Letter(First(a));
    buffer[at + 1] := Letter(Second(a, b));
    buffer[at + 2] := Letter(Third(b, c));
    buffer[at + 3] := Letter(Fourth(c));
  }

  /** What is left to encode; the index may have passed the end. */
  function Rest(data: bytes, i: nat): bytes {
    if i < |data| then data[i..] else []
  }

  /** The bytes of the next block. */
  function NextBlock(data: bytes, i: nat): (s: bytes)
    requires i < |data|
    ensures 1 <= |s| <= 3
  {
    data[i..i + Min(3, |data| - i)]
  }

  lemma EncodedStep(done: bytes, data: bytes, i: nat)
    requires i < |data|
    ensures done + Encoded(Rest(data, i)) == (done + EncodeBlock(NextBlock(data, i))) + Encoded(Rest(data, i + 3))
  {
    var rest, block := data[i..], NextBlock(data, i);
    if |rest| <= 3 {
      assert block == rest;
      assert Encoded(rest) == EncodeBlock(rest) + [];
    } else {
      assert rest[..3] == block && rest[3..] == data[i + 3..];
    }
    assert done + (EncodeBlock(block) + Encoded(Rest(data, i + 3))) == (done + EncodeBlock(block)) + Encoded(Rest(data, i + 3));
  }

  /** utils_base64Encode: the whole text and its length, or 0 if the buffer is too small. */
  method Encode(data: bytes, buffer: array<byte>) returns (size: nat)
    modifies buffer
    ensures size == if GetSize(|data|) <= buffer.Length then GetSize(|data|) else 0
    ensures GetSize(|data|) <= buffer.Length ==> buffer[..size] == Encoded(data)
  {
    size := GetSize(|data|);
    if size > buffer.Length {
      return 0;
    }
    var i, r := 0, 0;
    ghost var done: bytes := [];
    assert done + Encoded(Rest(data, 0)) == Encoded(data) && Rest(data, |data|) == [];
    hide Encoded, EncodeBlock, NextBlock, Letter, GetSize;
    while i < |data|
      invariant r == |done| && r <= size && done + Encoded(Rest(data, i)) == Encoded(data)
      invariant buffer[..r] == done
    {
      EncodedStep(done, data, i);
      PutRest(data, i, buffer, r);
      done := done + EncodeBlock(NextBlock(data, i));
      i, r := i + 3, r + 4;
    }
    assert Encoded([]) == [];
  }

  /** The switch of utils_base64Encode over what is left. */
  method PutRest(data: bytes, i: nat, buffer: array<byte>, r: nat)
    requires i < |data| && r + 4 <= buffer.Length
    modifies buffer
    ensures buffer[..r + 4] == old(buffer[..r]) + EncodeBlock(NextBlock(data, i))
  {
    hide Letter;
    ghost var was := buffer[..r];
    var left := |data| - i;
    if left == 1 {
      buffer[r] := Letter(First(data[i]));
      buffer[r + 1] := Letter(data[i] % 4 * 16);
      buffer[r + 2] := PADDING;
      buffer[r + 3] := PADDING;
      assert data[i..i + 1] == [data[i]];
    } else if left == 2 {
      buffer[r] := Letter(First(data[i]));
      buffer[r + 1] := Letter(Second(data[i], data[i + 1]));
      buffer[r + 2] := Letter(data[i + 1] % 16 * 4);
      buffer[r + 3] := PADDING;
      assert data[i..i + 2] == [data[i], data[i + 1]];
    } else {
      PutBlock(data[i], data[i + 1], data[i + 2], buffer, r);
      assert data[i..i + 3] == [data[i], data[i + 1], data[i + 2]];
    }
    assert buffer[..r] == was;
    assert buffer[..r + 4] == was + buffer[r..r + 4];
  }

  // ---- decoding ------------------------------------------------------------------------

  /** utils_base64GetDecodedSize. */
  function GetDecodedSize(s: bytes): nat {
    var size := 3 * (|s| / 4);
    match |s| % 4
    case 0 =>
      if size > 0 && s[|s| - 2] == PADDING then size - 2
      else if size > 0 && s[|s| - 1] == PADDING then size - 1
      else size
    case 2 => size + 1
    case 3 => size + 2
    case _ => size
  }

  /** The bytes of two neighbouring values, in eight bits. */
  function High(v1: Sextet, v2: Sextet): byte {
    v1 * 4 + v2 / 16
  }

  function Middle(v2: Sextet, v3: Sextet): byte {
    v2 * 16 % 0x100 + v3 / 4
  }

  function Low(v3: Sextet, v4: Sextet): byte {
    v3 * 64 % 0x100 + v4
  }

  /** One round of the loop of utils_base64Decode on the characters that are left, with the number of
      bytes still expected; None on error. */
  function DecodeBlock(s: bytes, expected: int): (r: Option<bytes>)
    requires s != []
    ensures r.Some? ==> 1 <= |r.value| <= 3
  {
    if |s| < 2 || ValueOf(s[0]) >= 64 || ValueOf(s[1]) >= 64 then None
    else
      var v1, v2 := ValueOf(s[0]), ValueOf(s[1]);
      if |s| == 2 then Some([High(v1, v2)])
      else if s[2] == PADDING then (if expected == 1 then Some([High(v1, v2)]) else None)
      else
        var v3 := ValueOf(s[2]);
        if v3 >= 64 then None
        else if |s| == 3 then Some([High(v1, v2), Middle(v2, v3)])
        else if s[3] == PADDING then (if expected == 2 then Some([High(v1, v2), Middle(v2, v3)]) else None)
        else if ValueOf(s[3]) >= 64 then None
        else Some([High(v1, v2), Middle(v2, v3), Low(v3, ValueOf(s[3]))])
  }

  /** The bytes of the text, or None on error, with the number of bytes still expected. */
  function Decoded(s: bytes, expected: int): Option<bytes> {
    if s == [] then Some([])
    else match DecodeBlock(s, expected)
      case None => None
      case Some(block) =>
        match Decoded(s[Min(4, |s|)..], expected - |block|)
        case None => None
        case Some(rest) => Some(block + rest)
  }

  /** However the text is malformed, what is decoded has exactly the length that was computed from it
      and checked against the buffer. */
  lemma {:induction false} DecodedSizeExact(s: bytes)
    ensures Decoded(s, GetDecodedSize(s)).Some? ==> |Decoded(s, GetDecodedSize(s)).value| == GetDecodedSize(s)
  {
    hide ValueOf, High, Middle, Low;
    if |s| > 4 {
      SizeOfRest(s);
      DecodedSizeExact(s[4..]);
    } else if s != [] {
      assert s[Min(4, |s|)..] == [];
    }
  }

  lemma SizeOfRest(s: bytes)
    requires |s| > 4
    ensures GetDecodedSize(s) == 3 + GetDecodedSize(s[4..]) && GetDecodedSize(s) >= 3
  {
  }

  /** What is decoded behind some bytes. */
  function After(done: bytes, rest: Option<bytes>): Option<bytes> {
    if rest.None? then None else Some(done + rest.value)
  }

  /** A round takes as many bytes off the expected number as it decodes. */
  lemma {:induction false} RoundOf(done: bytes, data: bytes, i: nat)
    requires i < |data|
    ensures Rest(data, i) != []
    ensures
      var s, rest := Rest(data, i), Rest(data, i + 4);
      var expected := GetDecodedSize(s);
      var block := DecodeBlock(s, expected);
      && (block.None? ==> After(done, Decoded(s, expected)) == None)
      && (block.Some? ==>
            && expected - |block.value| == GetDecodedSize(rest)
            && After(done, Decoded(s, expected)) == After(done + block.value, Decoded(rest, expected - |block.value|)))
  {
    hide ValueOf, High, Middle, Low;
    var s, rest := Rest(data, i), Rest(data, i + 4);
    var expected := GetDecodedSize(s);
    var block := DecodeBlock(s, expected);
    assert s[Min(4, |s|)..] == rest;
    if |s| > 4 { SizeOfRest(s); }
    if block.Some? {
      var more := Decoded(rest, expected - |block.value|);
      if more.Some? { assert done + (block.value + more.value) == (done + block.value) + more.value; }
    }
  }

  /** The body of the loop of utils_base64Decode. Whatever the characters are, what it writes is within
      the computed size. */
  method PutDecoded(data: bytes, i: nat, buffer: array<byte>, b: nat) returns (n: Option<nat>)
    requires i < |data| && b + GetDecodedSize(Rest(data, i)) <= buffer.Length
    modifies buffer
    ensures
      var block := DecodeBlock(Rest(data, i), GetDecodedSize(Rest(data, i)));
      && (n.Some? <==> block.Some?)
      && (n.Some? ==> n.value == |block.value| && b + n.value <= buffer.Length)
      && (n.Some? ==> buffer[..b + n.value] == old(buffer[..b]) + block.value)
  {
    hide ValueOf, High, Middle, Low;
    ghost var rest := data[i..];
    var expected := GetDecodedSize(data[i..]);
    if |data| - i < 2 { return None; }
    assert rest[0] == data[i] && rest[1] == data[i + 1];
    var v1 := ValueOf(data[i]);
    if v1 >= 64 { return None; }
    var v2 := ValueOf(data[i + 1]);
    if v2 >= 64 { return None; }
    buffer[b] := High(v1, v2);
    if i + 2 < |data| {
      assert rest[2] == data[i + 2];
      if data[i + 2] != PADDING {
        var v3 := ValueOf(data[i + 2]);
        if v3 >= 64 { return None; }
        buffer[b + 1] := Middle(v2, v3);
        if i + 3 < |data| {
          assert rest[3] == data[i + 3];
          if data[i + 3] != PADDING {
            var v4 := ValueOf(data[i + 3]);
            if v4 >= 64 { return None; }
            buffer[b + 2] := Low(v3, v4);
            return Some(3);
          } else if 2 != expected {
            return None;
          }
        }
        return Some(2);
      } else if 1 != expected {
        return None;
      }
    }
    n := Some(1);
  }

  /** utils_base64Decode: the decoded bytes and their number, or 0 on any error. */
  method Decode(data: bytes, buffer: array<byte>) returns (size: nat)
    modifies buffer
    ensures
      var bytes := Decoded(data, GetDecodedSize(data));
      if bytes.Some? && |bytes.value| <= buffer.Length then size == |bytes.value| && buffer[..size] == bytes.value
      else size == 0
  {
    var decodedSize := GetDecodedSize(data);
    DecodedSizeExact(data);
    if decodedSize > buffer.Length {
      return 0;
    }
    var ok := DecodeAll(data, buffer);
    size := if ok then decodedSize else 0;
  }

  /** The loop of utils_base64Decode. */
  method DecodeAll(data: bytes, buffer: array<byte>) returns (ok: bool)
    requires GetDecodedSize(data) <= buffer.Length
    modifies buffer
    ensures ok <==> Decoded(data, GetDecodedSize(data)).Some?
    ensures ok ==> buffer[..GetDecodedSize(data)] == Decoded(data, GetDecodedSize(data)).value
  {
    ghost var expected := GetDecodedSize(data);
    ghost var target := Decoded(data, expected);
    var i, b := 0, 0;
    DecodeStart(data, expected);
    hide GetDecodedSize, Decoded, DecodeBlock, After, Rest;
    while i < |data|
      invariant 0 <= b <= expected && b + GetDecodedSize(Rest(data, i)) == expected
      invariant target == After(buffer[..b], Decoded(Rest(data, i), expected - b))
    {
      RoundOf(buffer[..b], data, i);
      var n := PutDecoded(data, i, buffer, b);
      if n.None? {
        return false;
      }
      i, b := i + 4, b + n.value;
    }
    DecodeEnd(buffer[..b], data, i);
    ok := true;
  }

  lemma {:induction false} DecodeStart(data: bytes, expected: int)
    ensures Rest(data, 0) == data && After([], Decoded(data, expected)) == Decoded(data, expected)
  {
    if Decoded(data, expected).Some? { assert [] + Decoded(data, expected).value == Decoded(data, expected).value; }
  }

  lemma DecodeEnd(done: bytes, data: bytes, i: nat)
    requires i >= |data|
    ensures Rest(data, i) == [] && GetDecodedSize([]) == 0 && After(done, Decoded([], 0)) == Some(done)
  {
    assert done + [] == done;
  }

  // ---- the round trip --------------------------------------------------------------------

  lemma HighJoins(a: byte, b: byte)
    ensures High(First(a), Second(a, b)) == a
  {
  }

  lemma MiddleJoins(a: byte, b: byte, c: byte)
    ensures Middle(Second(a, b), Third(b, c)) == b
  {
    var low := b / 16;
    assert (a % 4 * 16 + low) * 16 == a % 4 * 256 + low * 16 && low * 16 < 256;
    assert (a % 4 * 256 + low * 16) % 256 == low * 16;
    assert (b % 16 * 4 + c / 64) / 4 == b % 16;
  }

  lemma LowJoins(b: byte, c: byte)
    ensures Low(Third(b, c), Fourth(c)) == c
  {
    var low := c / 64;
    assert (b % 16 * 4 + low) * 64 == b % 16 * 256 + low * 64 && low * 64 < 256;
    assert (b % 16 * 256 + low * 64) % 256 == low * 64;
  }

  /** A block is decoded to its bytes, provided that its padding comes at the end. */
  lemma BlockRoundTrip(s: bytes, rest: bytes, expected: int)
    requires 1 <= |s| <= 3 && (|s| < 3 ==> expected == |s| && rest == [])
    ensures DecodeBlock(EncodeBlock(s) + rest, expected) == Some(s)
  {
    hide Letter, ValueOf, High, Middle, Low, First, Second, Third, Fourth;
    var b, c := if |s| > 1 then s[1] else 0, if |s| > 2 then s[2] else 0;
    HighJoins(s[0], b);
    MiddleJoins(s[0], b, c);
    LowJoins(b, c);
    assert s == if |s| == 1 then [s[0]] else if |s| == 2 then [s[0], b] else [s[0], b, c];
  }

  lemma {:induction false} DecodedSizeOf(s: bytes)
    ensures GetDecodedSize(Encoded(s)) == |s|
  {
    hide Letter;
    if |s| > 3 {
      DecodedSizeOf(s[3..]);
      var rest := Encoded(s[3..]);
      SizeOfRest(Encoded(s));
      assert Encoded(s)[4..] == rest;
    } else if s != [] {
      NoPadding(s);
    }
  }

  lemma NoPadding(s: bytes)
    requires 1 <= |s| <= 3
    ensures EncodeBlock(s)[2] == PADDING <==> |s| == 1
    ensures EncodeBlock(s)[3] == PADDING <==> |s| <= 2
  {
  }

  lemma {:induction false} DecodesEncoded(s: bytes)
    ensures Decoded(Encoded(s), |s|) == Some(s)
  {
    hide EncodeBlock, DecodeBlock;
    var text := Encoded(s);
    if |s| > 3 {
      BlockRoundTrip(s[..3], Encoded(s[3..]), |s|);
      DecodesEncoded(s[3..]);
      assert text[4..] == Encoded(s[3..]);
      assert s[..3] + s[3..] == s;
    } else if s != [] {
      BlockRoundTrip(s, [], |s|);
      assert EncodeBlock(s) + [] == text && text[4..] == [];
      assert s + [] == s;
    }
  }

  /** utils_base64Decode undoes utils_base64Encode for every byte string, with both lengths as they are
      computed beforehand. */
  lemma RoundTrip(s: bytes)
    ensures |Encoded(s)| == GetSize(|s|)
    ensures GetDecodedSize(Encoded(s)) == |s|
    ensures Decoded(Encoded(s), GetDecodedSize(Encoded(s))) == Some(s)
  {
    DecodedSizeOf(s);
    DecodesEncoded(s);
  }
}
