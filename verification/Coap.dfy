/** CoAP messages: coap_serialize_message, coap_parse_message and coap_serialize_get_size of
    er-coap-13.c (RFC 7252, sections 3 and 3.1). */
module Coap {
  import opened Bytes
  import opened CoapOptions

  const HEADER_LEN := 4
  const TOKEN_LEN := 8
  const ETAG_LEN := 8
  const MAX_ACCEPT_NUM := 2

  const IF_MATCH := 1
  const URI_HOST := 3
  const ETAG := 4
  const IF_NONE_MATCH := 5
  const OBSERVE := 6
  const URI_PORT := 7
  const LOCATION_PATH := 8
  const URI_PATH := 11
  const CONTENT_TYPE := 12
  const MAX_AGE := 14
  const URI_QUERY := 15
  const ACCEPT := 17
  const LOCATION_QUERY := 20
  const BLOCK2 := 23
  const BLOCK1 := 27
  const SIZE := 28
  const PROXY_URI := 35

  /** How an option number's value is stored and sent. `Refused` is Proxy-Uri, which the
      parser always answers with 5.05. */
  datatype Kind = Tag | Text | Empty | Word | Half | List | HalfList | Merged | BlockWise | Refused | Unknown

  function KindOf(number: nat): Kind {
    if number == IF_MATCH || number == ETAG then Tag
    else if number == URI_HOST then Text
    else if number == IF_NONE_MATCH then Empty
    else if number == OBSERVE || number == CONTENT_TYPE || number == MAX_AGE || number == SIZE then Word
    else if number == URI_PORT then Half
    else if number == LOCATION_PATH || number == URI_PATH || number == URI_QUERY then List
    else if number == ACCEPT then HalfList
    else if number == LOCATION_QUERY then Merged
    else if number == BLOCK2 || number == BLOCK1 then BlockWise
    else if number == PROXY_URI then Refused
    else Unknown
  }

  datatype Value =
    | Raw(raw: bytes)
    | Flag
    | Number(number: uint32)
    | Items(items: seq<bytes>)
    | Numbers(numbers: seq<uint16>)
    | BlockOf(block: Block)

  /** The option map: a key is a set bit of the bitmap, its value the field it announces. */
  type Options = map<nat, Value>

  /** A parsed or to-be-sent message; `token` is `Some` when the TOKEN bit is set. */
  datatype Packet = Packet(msgType: nat, code: byte, mid: uint16, token: Option<bytes>, options: Options, payload: bytes)

  datatype ParseError = BadRequest | BadOption | ProxyingNotSupported

  /** What the fixed-size fields of coap_packet_t and their setters allow. */
  predicate Fits(kind: Kind, v: Value) {
    match kind
    case Tag => v.Raw? && |v.raw| <= ETAG_LEN
    case Text => v.Raw?
    case Empty => v.Flag?
    case Word => v.Number?
    case Half => v.Number? && v.number < 0x1_0000
    case List => v.Items? && forall i :: 0 <= i < |v.items| ==> |v.items[i]| <= 255
    case HalfList => v.Numbers? && |v.numbers| <= MAX_ACCEPT_NUM
    case BlockWise => v.BlockOf? && SettableBlock(v.block.num, v.block.size)
    case _ => false
  }

  predicate WellTyped(p: Packet) {
    && p.msgType < 4
    && (p.token.Some? ==> |p.token.value| <= TOKEN_LEN)
    && forall n :: n in p.options ==> Fits(KindOf(n), p.options[n])
  }

  predicate CanonicalValue(v: Value) {
    && v != Items([])
    && v != Numbers([])
    && (v.BlockOf? ==> PowerSize(v.block.size))
  }

  /** The forms a parsed message can have: no list option whose bit is set with nothing in it,
      and block sizes that are powers of two. */
  predicate Canonical(p: Packet) {
    && p.token != Some([])
    && forall n :: n in p.options ==> CanonicalValue(p.options[n])
  }

  // ---- serialization -------------------------------------------------------------------

  /** One COAP_SERIALIZE_* line: the option number, whether its bit is set and the values. */
  datatype Field = Field(number: nat, present: bool, values: seq<bytes>)

  function IntValues(values: seq<uint16>): (r: seq<bytes>)
    ensures |r| == |values| && forall i :: 0 <= i < |r| ==> r[i] == IntBytes(values[i])
  {
    if values == [] then [] else [IntBytes(values[0])] + IntValues(values[1..])
  }

  /** The option values a field is sent as; If-None-Match goes as an integer option of value
      zero, a list as one option per item. */
  function ValuesOf(v: Value): seq<bytes>
    requires v.BlockOf? ==> SettableBlock(v.block.num, v.block.size)
  {
    match v
    case Raw(b) => [b]
    case Flag => [IntBytes(0)]
    case Number(n) => [IntBytes(n)]
    case Items(list) => list
    case Numbers(list) => IntValues(list)
    case BlockOf(b) => [IntBytes(PackBlock(b))]
  }

  /** The option lines in the order the serializer runs them. */
  const ORDER: seq<nat> :=
    [IF_MATCH, URI_HOST, ETAG, IF_NONE_MATCH, OBSERVE, URI_PORT, LOCATION_PATH, URI_PATH,
     CONTENT_TYPE, MAX_AGE, URI_QUERY, ACCEPT, BLOCK2, BLOCK1, SIZE]

  function FieldOf(p: Packet, number: nat): Field
    requires WellTyped(p)
  {
    if number in p.options then Field(number, true, ValuesOf(p.options[number]))
    else Field(number, false, [])
  }

  function Fields(p: Packet): (fs: seq<Field>)
    requires WellTyped(p)
    ensures |fs| == |ORDER|
    ensures forall i :: 0 <= i < |fs| ==> fs[i] == FieldOf(p, ORDER[i])
  {
    seq(|ORDER|, i requires 0 <= i < |ORDER| => FieldOf(p, ORDER[i]))
  }

  /** Every line's number is above `current` and above the numbers before it. */
  ghost predicate Ascending(fs: seq<Field>, current: nat)
    decreases |fs|
  {
    fs == [] || (current <= fs[0].number && Ascending(fs[1..], fs[0].number))
  }

  function EncodeValues(number: nat, current: nat, values: seq<bytes>): bytes
    requires current <= number
    decreases |values|
  {
    if values == [] then []
    else Header(number - current, |values[0]|) + values[0] + EncodeValues(number, number, values[1..])
  }

  function FieldBytes(f: Field, current: nat): bytes
    requires current <= f.number
  {
    if f.present then EncodeValues(f.number, current, f.values) else []
  }

  /** `current_number` after a line: the list options move it even when their list is empty,
      the Accept loop does not. */
  function NumberAfter(f: Field, current: nat): nat {
    if !f.present || (f.number == ACCEPT && f.values == []) then current else f.number
  }

  function EncodeFields(fs: seq<Field>, current: nat): bytes
    requires Ascending(fs, current)
    decreases |fs|
  {
    if fs == [] then []
    else (
      AscendingRest(fs, current);
      FieldBytes(fs[0], current) + EncodeFields(fs[1..], NumberAfter(fs[0], current)))
  }

  lemma AscendingFrom(fs: seq<Field>, low: nat, high: nat)
    requires low <= high && Ascending(fs, high)
    ensures Ascending(fs, low)
  {
  }

  lemma AscendingRest(fs: seq<Field>, current: nat)
    requires fs != [] && Ascending(fs, current)
    ensures Ascending(fs[1..], NumberAfter(fs[0], current))
  {
    AscendingFrom(fs[1..], NumberAfter(fs[0], current), fs[0].number);
  }

  lemma FieldsAscending(p: Packet)
    requires WellTyped(p)
    ensures Ascending(Fields(p), 0)
  {
    var fs := Fields(p);
    AscendingSuffix(fs, 15);
  }

  /** A list whose neighbours ascend is Ascending; established from its end. */
  lemma AscendingSuffix(fs: seq<Field>, n: nat)
    requires n <= |fs|
    requires forall i :: 0 <= i < |fs| - 1 ==> fs[i].number <= fs[i + 1].number
    ensures Ascending(fs[|fs| - n..], if n < |fs| then fs[|fs| - n - 1].number else 0)
  {
    if n > 0 {
      AscendingSuffix(fs, n - 1);
      assert fs[|fs| - n..][1..] == fs[|fs| - (n - 1)..];
    }
  }

  function TokenBytes(p: Packet): bytes {
    if p.token.Some? then p.token.value else []
  }

  function HeaderBytes(p: Packet): (h: bytes)
    requires WellTyped(p)
    ensures |h| == HEADER_LEN
  {
    [0x40 + p.msgType * 0x10 + |TokenBytes(p)|, p.code, p.mid / 256, p.mid % 256]
  }

  function PayloadBytes(p: Packet): bytes {
    if p.payload == [] then [] else [0xFF] + p.payload
  }

  /** The bytes of a message without Location-Query (the packet here carries none when it is
      sent). */
  function Serialize(p: Packet): bytes
    requires WellTyped(p)
  {
    FieldsAscending(p);
    HeaderBytes(p) + TokenBytes(p) + EncodeFields(Fields(p), 0) + PayloadBytes(p)
  }

  // ---- serialization into a buffer -----------------------------------------------------

  /** Line `k` is next: what is written, what the remaining lines add and the tail make up the
      whole message. */
  ghost predicate Pending(written: bytes, fs: seq<Field>, k: nat, current: nat, tail: bytes, total: bytes) {
    && k <= |fs|
    && Ascending(fs[k..], current)
    && written + EncodeFields(fs[k..], current) + tail == total
  }

  lemma PendingStep(written: bytes, fs: seq<Field>, k: nat, current: nat, tail: bytes, total: bytes)
    requires k < |fs| && Pending(written, fs, k, current, tail, total)
    ensures current <= fs[k].number
    ensures |written| + |FieldBytes(fs[k], current)| <= |total|
    ensures Pending(written + FieldBytes(fs[k], current), fs, k + 1, NumberAfter(fs[k], current), tail, total)
  {
    assert fs[k..][1..] == fs[k + 1..];
    AscendingRest(fs[k..], current);
    var w, f, r := written, FieldBytes(fs[k], current), EncodeFields(fs[k + 1..], NumberAfter(fs[k], current));
    assert EncodeFields(fs[k..], current) == f + r;
    assert w + (f + r) + tail == w + f + r + tail;
  }

  /** memcpy of a value to `at`. */
  method PutBytes(value: bytes, buffer: array<byte>, at: nat)
    requires at + |value| <= buffer.Length
    modifies buffer
    ensures buffer[..at + |value|] == old(buffer[..at]) + value
  {
    ghost var before := buffer[..at];
    for i := 0 to |value|
      invariant buffer[..at + i] == before + value[..i]
    {
      buffer[at + i] := value[i];
      assert value[..i + 1] == value[..i] + [value[i]];
      assert buffer[..at + i + 1] == buffer[..at + i] + [value[i]];
    }
    assert value[..|value|] == value;
  }

  /** coap_serialize_array_option without a split character; also the tail of the integer
      options, whose value bytes are computed by IntBytes. */
  method PutValue(number: nat, current: nat, value: bytes, buffer: array<byte>, at: nat) returns (next: nat)
    requires current <= number
    requires at + |Header(number - current, |value|)| + |value| <= buffer.Length
    modifies buffer
    ensures next == at + |Header(number - current, |value|)| + |value|
    ensures buffer[..next] == old(buffer[..at]) + Header(number - current, |value|) + value
  {
    hide Header;
    var w := PutOptionHeader(number - current, |value|, buffer, at);
    PutBytes(value, buffer, at + w);
    next := at + w + |value|;
  }

  /** coap_serialize_multi_option and the Accept loop: one option per list item. */
  method PutValues(number: nat, current: nat, values: seq<bytes>, buffer: array<byte>, at: nat) returns (next: nat)
    requires current <= number
    requires at + |EncodeValues(number, current, values)| <= buffer.Length
    modifies buffer
    ensures next == at + |EncodeValues(number, current, values)|
    ensures buffer[..next] == old(buffer[..at]) + EncodeValues(number, current, values)
  {
    next := at;
    var cur: nat := current;
    ghost var start := buffer[..at];
    ghost var total := EncodeValues(number, current, values);
    for i := 0 to |values|
      invariant cur <= number
      invariant at <= next <= buffer.Length
      invariant buffer[..next] + EncodeValues(number, cur, values[i..]) == start + total
    {
      assert values[i..][1..] == values[i + 1..];
      ghost var h, v, r := Header(number - cur, |values[i]|), values[i], EncodeValues(number, number, values[i + 1..]);
      assert EncodeValues(number, cur, values[i..]) == h + v + r;
      ghost var was := buffer[..next];
      assert was + (h + v + r) == was + h + v + r;
      assert |was + (h + v + r)| == |start + total|;
      next := PutValue(number, cur, values[i], buffer, next);
      cur := number;
    }
    assert values[|values|..] == [];
  }

  /** One COAP_SERIALIZE_* macro. */
  method PutField(ghost fs: seq<Field>, ghost k: nat, f: Field, current: nat, buffer: array<byte>, at: nat,
                  ghost tail: bytes, ghost total: bytes)
    returns (next: nat, number: nat)
    requires k < |fs| && f == fs[k] && at <= buffer.Length
    requires Pending(buffer[..at], fs, k, current, tail, total) && |total| <= buffer.Length
    modifies buffer
    ensures next <= buffer.Length && number == NumberAfter(f, current)
    ensures Pending(buffer[..next], fs, k + 1, number, tail, total)
  {
    PendingStep(buffer[..at], fs, k, current, tail, total);
    next, number := at, current;
    if f.present {
      next := PutValues(f.number, current, f.values, buffer, at);
      if f.number != ACCEPT || f.values != [] {
        number := f.number;
      }
    }
    assert buffer[..next] == old(buffer[..at]) + FieldBytes(f, current);
  }

  /** The fixed header and the token. */
  method PutHeader(p: Packet, buffer: array<byte>) returns (at: nat)
    requires WellTyped(p) && HEADER_LEN + |TokenBytes(p)| <= buffer.Length
    modifies buffer
    ensures at == HEADER_LEN + |TokenBytes(p)|
    ensures buffer[..at] == HeaderBytes(p) + TokenBytes(p)
  {
    var token := TokenBytes(p);
    buffer[0] := 0x40 + p.msgType * 0x10 + |token|;
    buffer[1] := p.code;
    buffer[2] := p.mid / 256;
    buffer[3] := p.mid % 256;
    assert buffer[..4] == HeaderBytes(p);
    PutBytes(token, buffer, HEADER_LEN);
    at := HEADER_LEN + |token|;
  }

  /** The option lines up to Uri-Path. */
  method PutAddressFields(p: Packet, buffer: array<byte>, start: nat, ghost tail: bytes, ghost total: bytes)
    returns (at: nat, number: nat)
    requires WellTyped(p) && start <= buffer.Length
    requires Pending(buffer[..start], Fields(p), 0, 0, tail, total) && |total| <= buffer.Length
    modifies buffer
    ensures at <= buffer.Length
    ensures Pending(buffer[..at], Fields(p), 8, number, tail, total)
  {
    hide Pending, FieldOf, WellTyped;
    ghost var fs := Fields(p);
    at, number := PutField(fs, 0, FieldOf(p, IF_MATCH), 0, buffer, start, tail, total);
    at, number := PutField(fs, 1, FieldOf(p, URI_HOST), number, buffer, at, tail, total);
    at, number := PutField(fs, 2, FieldOf(p, ETAG), number, buffer, at, tail, total);
    at, number := PutField(fs, 3, FieldOf(p, IF_NONE_MATCH), number, buffer, at, tail, total);
    at, number := PutField(fs, 4, FieldOf(p, OBSERVE), number, buffer, at, tail, total);
    at, number := PutField(fs, 5, FieldOf(p, URI_PORT), number, buffer, at, tail, total);
    at, number := PutField(fs, 6, FieldOf(p, LOCATION_PATH), number, buffer, at, tail, total);
    at, number := PutField(fs, 7, FieldOf(p, URI_PATH), number, buffer, at, tail, total);
  }

  /** The option lines after Uri-Path. */
  method PutContentFields(p: Packet, buffer: array<byte>, start: nat, current: nat, ghost tail: bytes, ghost total: bytes)
    returns (at: nat, number: nat)
    requires WellTyped(p) && start <= buffer.Length
    requires Pending(buffer[..start], Fields(p), 8, current, tail, total) && |total| <= buffer.Length
    modifies buffer
    ensures at <= buffer.Length
    ensures Pending(buffer[..at], Fields(p), 15, number, tail, total)
  {
    hide Pending, FieldOf, WellTyped;
    ghost var fs := Fields(p);
    at, number := PutField(fs, 8, FieldOf(p, CONTENT_TYPE), current, buffer, start, tail, total);
    at, number := PutField(fs, 9, FieldOf(p, MAX_AGE), number, buffer, at, tail, total);
    at, number := PutField(fs, 10, FieldOf(p, URI_QUERY), number, buffer, at, tail, total);
    at, number := PutField(fs, 11, FieldOf(p, ACCEPT), number, buffer, at, tail, total);
    at, number := PutField(fs, 12, FieldOf(p, BLOCK2), number, buffer, at, tail, total);
    at, number := PutField(fs, 13, FieldOf(p, BLOCK1), number, buffer, at, tail, total);
    at, number := PutField(fs, 14, FieldOf(p, SIZE), number, buffer, at, tail, total);
  }

  /** coap_serialize_message into a buffer at least as long as the message. */
  method SerializeMessage(p: Packet, buffer: array<byte>) returns (length: nat)
    requires WellTyped(p) && |Serialize(p)| <= buffer.Length
    modifies buffer
    ensures length == |Serialize(p)|
    ensures buffer[..length] == Serialize(p)
  {
    hide Pending, WellTyped, Serialize, HeaderBytes, TokenBytes, PayloadBytes, Fields;
    PendingStart(p);
    ghost var total, tail := Serialize(p), PayloadBytes(p);
    var at := PutHeader(p, buffer);
    var number: nat;
    at, number := PutAddressFields(p, buffer, at, tail, total);
    at, number := PutContentFields(p, buffer, at, number, tail, total);
    PendingEnd(buffer[..at], p, number, tail, total);
    length := PutPayload(p, buffer, at);
  }

  lemma PendingStart(p: Packet)
    requires WellTyped(p)
    ensures Pending(HeaderBytes(p) + TokenBytes(p), Fields(p), 0, 0, PayloadBytes(p), Serialize(p))
    ensures HEADER_LEN + |TokenBytes(p)| <= |Serialize(p)|
  {
    hide FieldOf, WellTyped, EncodeFields;
    FieldsAscending(p);
    assert Fields(p)[0..] == Fields(p);
  }

  lemma PendingEnd(written: bytes, p: Packet, current: nat, tail: bytes, total: bytes)
    requires WellTyped(p) && Pending(written, Fields(p), 15, current, tail, total)
    ensures written + tail == total
  {
    hide FieldOf, WellTyped;
    assert Fields(p)[15..] == [];
    assert written + [] == written;
  }

  /** The payload marker and the payload. */
  method PutPayload(p: Packet, buffer: array<byte>, at: nat) returns (length: nat)
    requires at + |PayloadBytes(p)| <= buffer.Length
    modifies buffer
    ensures length == at + |PayloadBytes(p)|
    ensures buffer[..length] == old(buffer[..at]) + PayloadBytes(p)
  {
    var next := at;
    if |p.payload| > 0 {
      buffer[next] := 0xFF;
      next := next + 1;
      assert buffer[..next] == old(buffer[..at]) + [0xFF];
    }
    PutBytes(p.payload, buffer, next);
    length := next + |p.payload|;
  }
}
