/** The OMA TLV format: tlv.c (OMA LwM2M Technical Specification 1.0, section 6.4.3). */
module Tlv {
  import opened Bytes

  /** lwm2m_data_t. `Buffer` stands for strings, opaque values and CoRE links; a float is kept
      as the four or eight bytes prv_encodeFloat makes of it; `Other` is a type that has no TLV
      form. */
  datatype Data =
    | Instance(id: uint16, children: seq<Data>)
    | Multiple(id: uint16, children: seq<Data>)
    | Buffer(id: uint16, raw: bytes)
    | Integer(id: uint16, signed: int64)
    | Unsigned(id: uint16, unsigned: uint64)
    | Float(id: uint16, image: bytes)
    | Boolean(id: uint16, flag: bool)
    | ObjectLink(id: uint16, objectId: uint16, objectInstanceId: uint16)
    | Other(id: uint16)
  {
    predicate Container() {
      Instance? || Multiple?
    }
  }

  const INSTANCE: byte := 0x00
  const RESOURCE_INSTANCE: byte := 0x40
  const MULTIPLE: byte := 0x80
  const RESOURCE: byte := 0xC0

  // ---- integers ------------------------------------------------------------------------

  /** `n` bytes, most significant first. */
  function BigEndian(v: nat, n: nat): (b: bytes)
    ensures |b| == n
  {
    if n == 0 then [] else BigEndian(v / 256, n - 1) + [v % 256]
  }

  function FromBigEndian(b: bytes): nat {
    if b == [] then 0 else FromBigEndian(b[..|b| - 1]) * 256 + b[|b| - 1]
  }

  function Range(n: nat): (p: nat)
    ensures p >= 1
  {
    if n == 0 then 1 else 256 * Range(n - 1)
  }

  lemma {:induction false} FromBigEndianInverse(v: nat, n: nat)
    requires v < Range(n)
    ensures FromBigEndian(BigEndian(v, n)) == v
    decreases n
  {
    if n > 0 {
      var b := BigEndian(v, n);
      assert b[..|b| - 1] == BigEndian(v / 256, n - 1);
      FromBigEndianInverse(v / 256, n - 1);
    }
  }

  lemma RangeTable()
    ensures Range(1) == 0x100 && Range(2) == 0x1_0000 && Range(4) == 0x1_0000_0000 && Range(8) == 0x1_0000_0000_0000_0000
  {
    assert Range(3) == 0x100_0000;
    assert Range(5) == 0x100_0000_0000;
    assert Range(6) == 0x1_0000_0000_0000;
    assert Range(7) == 0x100_0000_0000_0000;
  }

  /** The widths prv_encodeInt and prv_encodeUInt choose. */
  function IntWidth(v: int64): nat {
    if -0x80 <= v <= 0x7F then 1
    else if -0x8000 <= v <= 0x7FFF then 2
    else if -0x8000_0000 <= v <= 0x7FFF_FFFF then 4
    else 8
  }

  function UIntWidth(v: uint64): nat {
    if v <= 0xFF then 1 else if v <= 0xFFFF then 2 else if v <= 0xFFFF_FFFF then 4 else 8
  }

  /** Two's complement of `n` bytes. */
  function TwosComplement(v: int, n: nat): nat {
    if v >= 0 then v else if v + Range(n) >= 0 then v + Range(n) else 0
  }

  /** prv_encodeInt. */
  function EncodeInt(v: int64): bytes {
    BigEndian(TwosComplement(v, IntWidth(v)), IntWidth(v))
  }

  /** prv_encodeUInt. */
  function EncodeUInt(v: uint64): bytes {
    BigEndian(v, UIntWidth(v))
  }

  predicate IntegerWidth(n: nat) {
    n == 1 || n == 2 || n == 4 || n == 8
  }

  /** lwm2m_data_decode_int on opaque bytes: the bytes are a signed number of their width. */
  function DecodeInt(b: bytes): Option<int> {
    if !IntegerWidth(|b|) then None
    else
      var v := FromBigEndian(b);
      Some(if v >= Range(|b|) / 2 then v - Range(|b|) else v)
  }

  /** lwm2m_data_decode_uint on opaque bytes. */
  function DecodeUInt(b: bytes): Option<nat> {
    if !IntegerWidth(|b|) then None else Some(FromBigEndian(b))
  }

  /** Every signed 64-bit integer is recovered from its TLV bytes. */
  lemma DecodeIntInverse(v: int64)
    ensures DecodeInt(EncodeInt(v)) == Some(v)
  {
    RangeTable();
    FromBigEndianInverse(TwosComplement(v, IntWidth(v)), IntWidth(v));
  }

  /** Every unsigned 64-bit integer is recovered from its TLV bytes. */
  lemma DecodeUIntInverse(v: uint64)
    ensures DecodeUInt(EncodeUInt(v)) == Some(v)
  {
    RangeTable();
    FromBigEndianInverse(v, UIntWidth(v));
  }

  /** Decoding an unsigned integer as signed gives it back exactly when its top encoded bit is
      clear: the two encodings are not interchangeable. */
  lemma UnsignedAsSigned(v: uint64)
    ensures DecodeInt(EncodeUInt(v)) == Some(v) <==> v < Range(UIntWidth(v)) / 2
  {
    RangeTable();
    FromBigEndianInverse(v, UIntWidth(v));
  }

  // ---- the encoding --------------------------------------------------------------------

  /** The value bytes of a leaf. */
  function LeafBytes(d: Data): bytes
    requires !d.Container()
  {
    match d
    case Buffer(_, b) => b
    case Integer(_, v) => EncodeInt(v)
    case Unsigned(_, v) => EncodeUInt(v)
    case Float(_, image) => image
    case Boolean(_, b) => [if b then 1 else 0]
    case ObjectLink(_, o, i) => BigEndian(o * 0x1_0000 + i, 4)
    case Other(_) => []
  }

  /** prv_getHeaderLength. */
  function HeaderLength(id: uint16, length: nat): nat {
    2 + (if id > 0xFF then 1 else 0)
    + (if length > 0xFFFF then 3 else if length > 0xFF then 2 else if length > 7 then 1 else 0)
  }

  /** prv_createHeader, for the lengths the format has. */
  function Header(kind: byte, id: uint16, length: nat): (h: bytes)
    requires kind % 0x40 == 0 && length <= 0xFF_FFFF
    ensures |h| == HeaderLength(id, length)
  {
    [kind + (if id > 0xFF then 0x20 else 0)
     + (if length <= 7 then length else if length <= 0xFF then 0x08 else if length <= 0xFFFF then 0x10 else 0x18)]
    + (if id > 0xFF then [id / 256, id % 256] else [id])
    + (if length <= 7 then []
       else if length <= 0xFF then [length]
       else if length <= 0xFFFF then [length / 256, length % 256]
       else [length / 0x1_0000, length / 256 % 256, length % 256])
  }

  /** Length of the value part of an entry, and of a list of entries. */
  function ContentLength(d: Data): nat {
    if d.Container() then TotalLength(d.children) else |LeafBytes(d)|
  }

  function TotalLength(ds: seq<Data>): nat {
    if ds == [] then 0
    else HeaderLength(ds[0].id, ContentLength(ds[0])) + ContentLength(ds[0]) + TotalLength(ds[1..])
  }

  /** Every entry, at every depth, has a TLV form. */
  predicate Supported(ds: seq<Data>) {
    ds == [] || (!ds[0].Other? && (ds[0].Container() ==> Supported(ds[0].children)) && Supported(ds[1..]))
  }

  /** Every value, at every depth, fits the 24-bit length field. */
  predicate Sized(ds: seq<Data>) {
    ds == [] || (ContentLength(ds[0]) <= 0xFF_FFFF && (ds[0].Container() ==> Sized(ds[0].children)) && Sized(ds[1..]))
  }

  /** No container, at any depth, is empty. */
  predicate NonEmpty(ds: seq<Data>) {
    ds == [] || ((ds[0].Container() ==> ds[0].children != [] && NonEmpty(ds[0].children)) && NonEmpty(ds[1..]))
  }

  /** The type bits; only leaves are marked as resource instances. */
  function KindBits(d: Data, inMultiple: bool): (k: byte)
    ensures k % 0x40 == 0
  {
    if d.Instance? then INSTANCE
    else if d.Multiple? then MULTIPLE
    else if inMultiple then RESOURCE_INSTANCE
    else RESOURCE
  }

  /** The value part of an entry. */
  function Content(inMultiple: bool, d: Data): (b: bytes)
    requires d.Container() ==> Sized(d.children)
    ensures |b| == ContentLength(d)
    decreases d, 0
  {
    if d.Container() then Serialize(d.Multiple? || inMultiple, d.children) else LeafBytes(d)
  }

  /** One entry: header and value. */
  function Entry(inMultiple: bool, d: Data): (b: bytes)
    requires ContentLength(d) <= 0xFF_FFFF && (d.Container() ==> Sized(d.children))
    ensures |b| == HeaderLength(d.id, ContentLength(d)) + ContentLength(d)
    decreases d, 1
  {
    Header(KindBits(d, inMultiple), d.id, ContentLength(d)) + Content(inMultiple, d)
  }

  /** tlv_serialize of a supported list. */
  function Serialize(inMultiple: bool, ds: seq<Data>): (b: bytes)
    requires Sized(ds)
    ensures |b| == TotalLength(ds)
    decreases ds
  {
    if ds == [] then [] else Entry(inMultiple, ds[0]) + Serialize(inMultiple, ds[1..])
  }

  /** prv_getLength: -1 when some entry has no TLV form. */
  method GetLength(ds: seq<Data>) returns (length: int)
    ensures length == if Supported(ds) then TotalLength(ds) else -1
    decreases ds
  {
    length := 0;
    var i := 0;
    while i < |ds| && length != -1
      invariant 0 <= i <= |ds|
      invariant length == -1 ==> !Supported(ds)
      invariant length != -1 ==>
                  0 <= length && length + TotalLength(ds[i..]) == TotalLength(ds) && (Supported(ds) <==> Supported(ds[i..]))
      decreases |ds| - i, length != -1
    {
      var cur := ds[i];
      assert ds[i..][0] == cur && ds[i..][1..] == ds[i + 1..];
      if cur.Container() {
        var sub := GetLength(cur.children);
        if sub == -1 {
          length := -1;
        } else {
          length := length + HeaderLength(cur.id, sub) + sub;
        }
      } else if cur.Other? {
        length := -1;
      } else {
        var n := |LeafBytes(cur)|;
        length := length + HeaderLength(cur.id, n) + n;
      }
      i := i + 1;
    }
  }

  /** memcpy of `value` to `at`. */
  method PutBytes(value: bytes, buffer: array<byte>, at: nat)
    requires at + |value| <= buffer.Length
    modifies buffer
    ensures buffer[..at + |value|] == old(buffer[..at]) + value
  {
    ghost var before := buffer[..at];
    for i := 0 to |value|
      invariant buffer[..at + i] == before + value[..i]
    {
      buffer[at + i] := value[i];
      assert value[..i + 1] == value[..i] + [value[i]];
      assert buffer[..at + i + 1] == buffer[..at + i] + [value[i]];
    }
    assert value[..|value|] == value;
  }

  lemma SizedFrom(ds: seq<Data>, i: nat)
    requires i <= |ds| && Sized(ds)
    ensures Sized(ds[i..])
    ensures i < |ds| ==> ContentLength(ds[i]) <= 0xFF_FFFF && (ds[i].Container() ==> Sized(ds[i].children))
  {
    if i > 0 {
      assert ds[1..][i - 1..] == ds[i..];
      SizedFrom(ds[1..], i - 1);
    }
  }

  lemma SupportedFrom(ds: seq<Data>, i: nat)
    requires i <= |ds| && Supported(ds)
    ensures Supported(ds[i..])
    ensures i < |ds| ==> !ds[i].Other? && (ds[i].Container() ==> Supported(ds[i].children))
  {
    if i > 0 {
      assert ds[1..][i - 1..] == ds[i..];
      SupportedFrom(ds[1..], i - 1);
    }
  }

  lemma SerializeStep(inMultiple: bool, ds: seq<Data>, i: nat)
    requires i < |ds| && Sized(ds)
    ensures Sized(ds[i..]) && Sized(ds[i + 1..])
    ensures ContentLength(ds[i]) <= 0xFF_FFFF && (ds[i].Container() ==> Sized(ds[i].children))
    ensures Serialize(inMultiple, ds[i..]) == Entry(inMultiple, ds[i]) + Serialize(inMultiple, ds[i + 1..])
  {
    SizedFrom(ds, i);
    SizedFrom(ds, i + 1);
    assert ds[i..][0] == ds[i] && ds[i..][1..] == ds[i + 1..];
  }

  /** One round of the loop of tlv_serialize: the entry goes to `at`. */
  method PutEntry(inMultiple: bool, d: Data, buffer: array<byte>, at: nat) returns (next: nat)
    requires !d.Other? && ContentLength(d) <= 0xFF_FFFF && (d.Container() ==> Sized(d.children) && Supported(d.children))
    requires at + |Entry(inMultiple, d)| <= buffer.Length
    modifies buffer
    ensures next == at + |Entry(inMultiple, d)|
    ensures buffer[..next] == old(buffer[..at]) + Entry(inMultiple, d)
    decreases d
  {
    hide Header, KindBits, Serialize, LeafBytes, Supported;
    var value: bytes;
    if d.Container() {
      var res, tmp := TlvSerialize(d.Multiple? || inMultiple, d.children);
      value := if res > 0 then tmp[..] else [];
    } else {
      value := LeafBytes(d);
    }
    assert value == Content(inMultiple, d);
    var header := Header(KindBits(d, inMultiple), d.id, |value|);
    PutBytes(header, buffer, at);
    next := at + |header|;
    PutBytes(value, buffer, next);
    next := next + |value|;
  }

  /** tlv_serialize: the buffer has the length computed beforehand and is filled to its last
      byte; -1 when some entry has no TLV form, and no buffer for an empty list. */
  method TlvSerialize(isResourceInstance: bool, ds: seq<Data>) returns (length: int, buffer: array?<byte>)
    requires Sized(ds)
    ensures !Supported(ds) ==> length == -1 && buffer == null
    ensures Supported(ds) ==> length == |Serialize(isResourceInstance, ds)|
    ensures Supported(ds) && length > 0 ==>
              buffer != null && fresh(buffer) && buffer[..] == Serialize(isResourceInstance, ds)
    decreases ds
  {
    hide Entry, Serialize, Supported, Sized, TotalLength, ContentLength, HeaderLength;
    buffer := null;
    length := GetLength(ds);
    if length <= 0 {
      return;
    }
    buffer := new byte[length];
    ghost var total := Serialize(isResourceInstance, ds);
    var index: nat := 0;
    assert ds[0..] == ds;
    for i := 0 to |ds|
      invariant index <= buffer.Length && Sized(ds[i..])
      invariant fresh(buffer) && buffer.Length == length == |total|
      invariant buffer[..index] + Serialize(isResourceInstance, ds[i..]) == total
    {
      SerializeStep(isResourceInstance, ds, i);
      SupportedFrom(ds, i);
      ghost var before, entry, rest := buffer[..index], Entry(isResourceInstance, ds[i]), Serialize(isResourceInstance, ds[i + 1..]);
      assert before + (entry + rest) == before + entry + rest;
      index := PutEntry(isResourceInstance, ds[i], buffer, index);
    }
    assert ds[|ds|..] == [];
    assert Serialize(isResourceInstance, ds[|ds|..]) == [] by { EmptyTail(isResourceInstance); }
    assert buffer[..index] == total;
    assert buffer[..] == buffer[..index];
  }

  lemma EmptyTail(inMultiple: bool)
    ensures Sized([]) && Serialize(inMultiple, []) == []
  {
  }
}
