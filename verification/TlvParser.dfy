/** lwm2m_decode_TLV and tlv_parse of tlv.c, and their round trip with tlv_serialize. */
module TlvParser {
  import opened Bytes
  import opened Tlv

  /** What lwm2m_decode_TLV reports: type bits, id, and where the value is. */
  datatype Decoded = Decoded(kind: byte, id: uint16, dataIndex: nat, dataLen: nat)
  {
    function End(): nat {
      dataIndex + dataLen
    }
  }

  function DecodeLength(b: bytes, first: byte, at: nat): Option<(nat, nat)>
    requires at <= |b|
    ensures DecodeLength(b, first, at).Some? ==> at <= DecodeLength(b, first, at).value.0 <= |b|
  {
    var field := first / 8 % 4;
    if field == 0 then Some((at, first % 8))
    else if |b| < at + field then None
    else if field == 1 then Some((at + 1, b[at]))
    else if field == 2 then Some((at + 2, b[at] as int * 256 + b[at + 1]))
    else Some((at + 3, b[at] as int * 0x1_0000 + b[at + 1] as int * 256 + b[at + 2]))
  }

  /** lwm2m_decode_TLV; None where it returns 0. */
  function Decode(b: bytes): (r: Option<Decoded>)
    ensures r.Some? ==> 2 <= r.value.dataIndex && r.value.End() <= |b|
  {
    if |b| < 2 || (b[0] / 0x20 % 2 == 1 && |b| < 3) then None
    else
      var wide := b[0] / 0x20 % 2 == 1;
      var id := if wide then b[1] as int * 256 + b[2] else b[1];
      var length := DecodeLength(b, b[0], if wide then 3 else 2);
      if length.None? || length.value.0 + length.value.1 > |b| then None
      else Some(Decoded(b[0] / 0x40 * 0x40, id, length.value.0, length.value.1))
  }

  /** The entries found, or the failure that makes tlv_parse return 0. */
  datatype Parsed = Failed | Items(items: seq<Data>)

  function Count(p: Parsed): nat {
    if p.Failed? then 0 else |p.items|
  }

  /** The entry for one record, given what its value parses to. */
  function ToEntry(d: Decoded, value: bytes, sub: Parsed): Option<Data> {
    if d.kind == INSTANCE || d.kind == MULTIPLE then
      if Count(sub) == 0 then None
      else Some(if d.kind == INSTANCE then Instance(d.id, sub.items) else Multiple(d.id, sub.items))
    else Some(Buffer(d.id, value))
  }

  /** tlv_parse: records up to the first position that does not decode; a container in which
      nothing is found makes the whole parse fail. */
  function Parse(b: bytes): Parsed
    decreases |b|
  {
    var d := Decode(b);
    if d.None? then Items([])
    else
      var value := b[d.value.dataIndex..d.value.End()];
      var entry := ToEntry(d.value, value, Parse(value));
      if entry.None? then Failed
      else
        var rest := Parse(b[d.value.End()..]);
        if rest.Failed? then Failed else Items([entry.value] + rest.items)
  }

  lemma ParseStep(d: Decoded, b: bytes)
    requires Decode(b) == Some(d)
    ensures d.End() <= |b| && d.dataIndex <= d.End() && 0 < d.dataIndex
    ensures var value, rest := b[d.dataIndex..d.End()], b[d.End()..];
            var entry := ToEntry(d, value, Parse(value));
            Parse(b) == if entry.None? || Parse(rest).Failed? then Failed else Items([entry.value] + Parse(rest).items)
  {
  }

  lemma ParseEnd(b: bytes)
    requires Decode(b).None?
    ensures Parse(b) == Items([])
  {
  }

  /** The entry for one record of tlv_parse. */
  method ParseEntry(d: Decoded, value: bytes) returns (entry: Option<Data>)
    ensures entry == ToEntry(d, value, Parse(value))
    decreases |value|, 1
  {
    if d.kind == INSTANCE || d.kind == MULTIPLE {
      var count, children := TlvParse(value);
      if count == 0 {
        return None;
      }
      return Some(if d.kind == INSTANCE then Instance(d.id, children) else Multiple(d.id, children));
    }
    entry := Some(Buffer(d.id, value));
  }

  /** tlv_parse. It ends on every buffer. */
  method TlvParse(b: bytes) returns (size: nat, data: seq<Data>)
    ensures size == Count(Parse(b)) == |data|
    ensures Parse(b).Items? ==> data == Parse(b).items
    decreases |b|, 0
  {
    hide Parse, Decode, ToEntry;
    data := [];
    var index: nat := 0;
    assert b[0..] == b;
    var d := Decode(b);
    while d.Some?
      invariant index <= |b| && d == Decode(b[index..])
      invariant Parse(b) == Joined(data, Parse(b[index..]))
      decreases |b| - index
    {
      var cur := b[index..];
      ParseStep(d.value, cur);
      var entry := ParseEntry(d.value, cur[d.value.dataIndex..d.value.End()]);
      if entry.None? {
        return 0, [];
      }
      JoinedStep(data, entry.value, Parse(cur[d.value.End()..]));
      assert cur[d.value.End()..] == b[index + d.value.End()..];
      data := data + [entry.value];
      index := index + d.value.End();
      d := Decode(b[index..]);
    }
    ParseEnd(b[index..]);
    assert data + [] == data;
    size := |data|;
  }

  /** Entries found so far before what the rest parses to. */
  function Joined(found: seq<Data>, rest: Parsed): Parsed {
    if rest.Failed? then Failed else Items(found + rest.items)
  }

  lemma JoinedStep(found: seq<Data>, entry: Data, rest: Parsed)
    ensures Joined(found + [entry], rest) == Joined(found, if rest.Failed? then Failed else Items([entry] + rest.items))
  {
    if rest.Items? {
      assert found + [entry] + rest.items == found + ([entry] + rest.items);
    }
  }

  // ---- the round trip ------------------------------------------------------------------

  /** What a parser can tell of the entries: containers and ids, with leaves as opaque bytes. */
  function Shape(d: Data): Data
    decreases d, 0
  {
    match d
    case Instance(id, children) => Instance(id, Shapes(children))
    case Multiple(id, children) => Multiple(id, Shapes(children))
    case _ => Buffer(d.id, LeafBytes(d))
  }

  function Shapes(ds: seq<Data>): (s: seq<Data>)
    ensures |s| == |ds|
    decreases ds
  {
    if ds == [] then [] else [Shape(ds[0])] + Shapes(ds[1..])
  }

  /** The length bits of the first header byte. */
  function LowBits(n: nat): nat {
    if n <= 7 then n else if n <= 0xFF then 0x08 else if n <= 0xFFFF then 0x10 else 0x18
  }

  lemma FirstByte(kind: byte, wide: nat, low: nat)
    requires kind % 0x40 == 0 && wide <= 1 && low < 0x20
    ensures var b := kind + wide * 0x20 + low;
            b / 0x40 * 0x40 == kind && b / 0x20 % 2 == wide && b / 8 % 4 == low / 8 && b % 8 == low % 8
  {
    var b := kind + wide * 0x20 + low;
    assert kind == kind / 0x40 * 0x40;
    assert b / 0x20 == kind / 0x40 * 2 + wide;
    assert b / 8 == kind / 0x40 * 8 + wide * 4 + low / 8;
  }

  function IdField(id: uint16): bytes {
    if id > 0xFF then [id / 256, id % 256] else [id]
  }

  function LengthField(n: nat): bytes
    requires n <= 0xFF_FFFF
  {
    if n <= 7 then [] else if n <= 0xFF then [n] else if n <= 0xFFFF then [n / 256, n % 256]
    else [n / 0x1_0000, n / 256 % 256, n % 256]
  }

  /** The first header byte: type, width of the id and width of the length. */
  function FirstOf(kind: byte, id: uint16, n: nat): byte
    requires kind % 0x40 == 0
  {
    kind + (if id > 0xFF then 0x20 else 0) + LowBits(n)
  }

  lemma HeaderParts(kind: byte, id: uint16, n: nat)
    requires kind % 0x40 == 0 && n <= 0xFF_FFFF
    ensures Header(kind, id, n) == [FirstOf(kind, id, n)] + IdField(id) + LengthField(n)
  {
  }

  /** The length field after the id is decoded to the length it was made from. */
  lemma DecodeLengthInverse(b: bytes, first: byte, at: nat, n: nat)
    requires n <= 0xFF_FFFF && first / 8 % 4 == LowBits(n) / 8 && first % 8 == LowBits(n) % 8
    requires at + |LengthField(n)| <= |b| && b[at..at + |LengthField(n)|] == LengthField(n)
    ensures DecodeLength(b, first, at) == Some((at + |LengthField(n)|, n))
  {
    var field := LengthField(n);
    if |field| >= 1 { assert b[at] == b[at..at + |field|][0]; }
    if |field| >= 2 { assert b[at + 1] == b[at..at + |field|][1]; }
    if |field| >= 3 {
      assert b[at + 2] == b[at..at + |field|][2];
      assert n == n / 0x1_0000 * 0x1_0000 + n / 256 % 256 * 256 + n % 256;
    }
  }

  /** The first byte and the id are read back. */
  lemma DecodeId(b: bytes, kind: byte, id: uint16, n: nat, rest: bytes)
    requires kind % 0x40 == 0 && b == [FirstOf(kind, id, n)] + IdField(id) + rest
    ensures var at := 1 + |IdField(id)|;
            && |b| >= at == (if b[0] / 0x20 % 2 == 1 then 3 else 2)
            && b[0] / 0x40 * 0x40 == kind
            && id == (if b[0] / 0x20 % 2 == 1 then b[1] as int * 256 + b[2] else b[1])
            && b[0] / 8 % 4 == LowBits(n) / 8 && b[0] % 8 == LowBits(n) % 8
  {
    FirstByte(kind, if id > 0xFF then 1 else 0, LowBits(n));
  }

  /** A header is decoded to the type, id and length it was made from. */
  lemma DecodeHeader(kind: byte, id: uint16, value: bytes, rest: bytes)
    requires kind % 0x40 == 0 && |value| <= 0xFF_FFFF
    ensures var h := Header(kind, id, |value|);
            Decode(h + value + rest) == Some(Decoded(kind, id, |h|, |value|))
  {
    hide DecodeLength, Header, FirstOf, LengthField, IdField, LowBits;
    var h, n := Header(kind, id, |value|), |value|;
    var b := h + value + rest;
    HeaderParts(kind, id, n);
    var front, field := [FirstOf(kind, id, n)] + IdField(id), LengthField(n);
    assert b == front + (field + value + rest);
    DecodeId(b, kind, id, n, field + value + rest);
    assert b == front + field + (value + rest);
    Middle(front, field, value + rest);
    DecodeLengthInverse(b, b[0], |front|, n);
  }

  /** Entries before a tail: what parsing makes of both. */
  function Prepend(ds: seq<Data>, tail: Parsed): Parsed {
    if !NonEmpty(ds) || tail.Failed? then Failed else Items(Shapes(ds) + tail.items)
  }

  lemma EntryParts(inMultiple: bool, ds: seq<Data>, tail: bytes)
    requires Sized(ds) && ds != []
    ensures var d := ds[0];
            Serialize(inMultiple, ds) + tail
            == Header(KindBits(d, inMultiple), d.id, ContentLength(d)) + Content(inMultiple, d) + (Serialize(inMultiple, ds[1..]) + tail)
  {
    hide Header, Content;
    var d := ds[0];
    var e, r := Entry(inMultiple, d), Serialize(inMultiple, ds[1..]);
    assert Serialize(inMultiple, ds) == e + r;
    assert e + r + tail == e + (r + tail);
  }

  /** Parsing serialized entries, whatever follows them: the same containers and ids in the
      same order with leaves as their bytes, or failure exactly when some container is empty. */
  lemma {:induction false} ParseSerialize(inMultiple: bool, ds: seq<Data>, tail: bytes)
    requires Sized(ds) && Supported(ds)
    ensures Parse(Serialize(inMultiple, ds) + tail) == Prepend(ds, Parse(tail))
    decreases ds
  {
    hide Header, LeafBytes, Decode, Parse, Content, ToEntry, KindBits, Prepend, NonEmpty, Shape, HeaderLength;
    if ds == [] {
      assert Serialize(inMultiple, ds) + tail == tail;
      PrependNothing(Parse(tail));
    } else {
      var d := ds[0];
      var h, value, more := Header(KindBits(d, inMultiple), d.id, ContentLength(d)), Content(inMultiple, d), Serialize(inMultiple, ds[1..]) + tail;
      var b := Serialize(inMultiple, ds) + tail;
      EntryParts(inMultiple, ds, tail);
      DecodeHeader(KindBits(d, inMultiple), d.id, value, more);
      var dec := Decoded(KindBits(d, inMultiple), d.id, |h|, |value|);
      Middle(h, value, more);
      ParseStep(dec, b);
      ParseSerialize(inMultiple, ds[1..], tail);
      ContentOf(inMultiple, d);
      if d.Container() {
        ParseSerialize(d.Multiple? || inMultiple, d.children, []);
        NothingInNothing();
      }
      EntryShape(inMultiple, d, dec, value);
      PrependStep(ds, Parse(tail));
    }
  }

  lemma PrependNothing(tail: Parsed)
    ensures Prepend([], tail) == tail
  {
    if tail.Items? {
      assert [] + tail.items == tail.items;
    }
  }

  lemma PrependStep(ds: seq<Data>, tail: Parsed)
    requires ds != []
    ensures Prepend(ds, tail)
            == if !NonEmpty([ds[0]]) || Prepend(ds[1..], tail).Failed? then Failed
               else Items([Shape(ds[0])] + Prepend(ds[1..], tail).items)
  {
    NonEmptyStep(ds);
    if tail.Items? {
      assert [Shape(ds[0])] + (Shapes(ds[1..]) + tail.items) == [Shape(ds[0])] + Shapes(ds[1..]) + tail.items;
    }
  }

  lemma NonEmptyStep(ds: seq<Data>)
    requires ds != []
    ensures NonEmpty(ds) <==> NonEmpty([ds[0]]) && NonEmpty(ds[1..])
  {
    assert [ds[0]][1..] == [];
  }

  lemma ContentOf(inMultiple: bool, d: Data)
    requires d.Container() ==> Sized(d.children)
    ensures Content(inMultiple, d)
            == if d.Container() then Serialize(d.Multiple? || inMultiple, d.children) + [] else LeafBytes(d)
  {
    hide Serialize, LeafBytes;
  }

  lemma NothingInNothing()
    ensures Parse([]) == Items([])
  {
  }

  lemma EntryShape(inMultiple: bool, d: Data, dec: Decoded, value: bytes)
    requires !d.Other? && dec.kind == KindBits(d, inMultiple) && dec.id == d.id
    requires d.Container() ==> Parse(value) == Prepend(d.children, Items([]))
    requires !d.Container() ==> value == LeafBytes(d)
    ensures ToEntry(dec, value, Parse(value)) == if NonEmpty([d]) then Some(Shape(d)) else None
  {
    hide LeafBytes;
    assert [d][1..] == [];
    if d.Container() && NonEmpty(d.children) {
      assert Shapes(d.children) + [] == Shapes(d.children);
    }
  }

  /** The round trip, exactly: a list of entries with values of at most 0xFFFFFF bytes comes
      back with its shape, ids and leaf bytes if and only if no container in it is empty. */
  lemma RoundTripIff(inMultiple: bool, ds: seq<Data>)
    requires Sized(ds) && Supported(ds)
    ensures Parse(Serialize(inMultiple, ds)) == Items(Shapes(ds)) <==> NonEmpty(ds)
    ensures !NonEmpty(ds) ==> Parse(Serialize(inMultiple, ds)) == Failed
  {
    ParseSerialize(inMultiple, ds, []);
    assert Serialize(inMultiple, ds) + [] == Serialize(inMultiple, ds);
    NothingInNothing();
    assert Shapes(ds) + [] == Shapes(ds);
  }

  /** Bytes that do not start a record are passed over in silence at the end of a buffer. */
  lemma TrailingBytesIgnored(inMultiple: bool, ds: seq<Data>, tail: bytes)
    requires Sized(ds) && Supported(ds) && NonEmpty(ds) && Decode(tail).None?
    ensures Parse(Serialize(inMultiple, ds) + tail) == Parse(Serialize(inMultiple, ds))
  {
    ParseSerialize(inMultiple, ds, tail);
    RoundTripIff(inMultiple, ds);
    assert Shapes(ds) + [] == Shapes(ds);
  }

  /** A 64-bit integer written as a resource comes back as opaque bytes that decode to it. */
  lemma IntegerResourceRoundTrip(inMultiple: bool, id: uint16, v: int64)
    ensures Sized([Integer(id, v)]) && Supported([Integer(id, v)])
    ensures var r := Parse(Serialize(inMultiple, [Integer(id, v)]));
            r.Items? && |r.items| == 1 && r.items[0].id == id && r.items[0].Buffer? && DecodeInt(r.items[0].raw) == Some(v)
  {
    var ds := [Integer(id, v)];
    assert ds[1..] == [];
    RoundTripIff(inMultiple, ds);
    assert Shapes(ds) == [Buffer(id, EncodeInt(v))];
    DecodeIntInverse(v);
  }

  lemma UnsignedResourceRoundTrip(inMultiple: bool, id: uint16, v: uint64)
    ensures Sized([Unsigned(id, v)]) && Supported([Unsigned(id, v)])
    ensures var r := Parse(Serialize(inMultiple, [Unsigned(id, v)]));
            r.Items? && |r.items| == 1 && r.items[0].id == id && r.items[0].Buffer? && DecodeUInt(r.items[0].raw) == Some(v)
  {
    var ds := [Unsigned(id, v)];
    assert ds[1..] == [];
    RoundTripIff(inMultiple, ds);
    assert Shapes(ds) == [Buffer(id, EncodeUInt(v))];
    DecodeUIntInverse(v);
  }
}
