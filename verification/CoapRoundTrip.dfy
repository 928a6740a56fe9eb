/** coap_parse_message undoes coap_serialize_message, and the size coap_serialize_get_size
    announces is enough. */
module CoapRoundTrip {
  import opened Bytes
  import opened CoapOptions
  import opened Coap
  import opened CoapParser

  // ---- reading back encoded options ----------------------------------------------------

  /** Applying the values of one option line in turn. */
  function ApplyValues(options: Options, number: nat, values: seq<bytes>): Result<Options, ParseError>
    decreases |values|
  {
    if values == [] then Ok(options)
    else
      var r := ApplyOption(options, number, values[0]);
      if r.Err? then r else ApplyValues(r.value, number, values[1..])
  }

  function ApplyField(options: Options, f: Field): Result<Options, ParseError> {
    if f.present then ApplyValues(options, f.number, f.values) else Ok(options)
  }

  function ApplyFields(options: Options, fs: seq<Field>): Result<Options, ParseError>
    decreases |fs|
  {
    if fs == [] then Ok(options)
    else
      var r := ApplyField(options, fs[0]);
      if r.Err? then r else ApplyFields(r.value, fs[1..])
  }

  /** `part` stands at `pos` in `data`. */
  ghost predicate At(data: bytes, pos: nat, part: bytes) {
    pos + |part| <= |data| && data[pos..pos + |part|] == part
  }

  lemma AtParts(data: bytes, pos: nat, a: bytes, b: bytes)
    requires At(data, pos, a + b)
    ensures At(data, pos, a) && At(data, pos + |a|, b)
  {
    assert data[pos..pos + |a|] == (a + b)[..|a|];
    assert data[pos + |a|..pos + |a| + |b|] == (a + b)[|a|..];
  }

  /** A header at `pos` is read back as its delta, its length and the position after it. */
  lemma ReadHeader(data: bytes, pos: nat, delta: nat, length: nat)
    requires delta <= 269 && length <= 0xFFFF && At(data, pos, Header(delta, length))
    ensures pos < |data| && data[pos] / 16 != 15
    ensures var d := ReadExtended(data, data[pos] / 16, pos + 1);
            && d.value == delta
            && ReadExtended(data, data[pos] % 16, d.next) == Extended(length, pos + |Header(delta, length)|)
  {
    hide Extension, ReadExtended, Nibble;
    var first := [Nibble(delta) * 16 + Nibble(length)];
    AtParts(data, pos, first, Extension(delta) + Extension(length));
    assert Header(delta, length) == first + (Extension(delta) + Extension(length));
    AtParts(data, pos + 1, Extension(delta), Extension(length));
    assert data[pos] == data[pos..pos + 1][0];
    NibblePair(Nibble(delta), Nibble(length));
    ReadExtendedInverse(data, pos + 1, delta);
    ReadExtendedInverse(data, pos + 1 + |Extension(delta)|, length);
  }

  lemma NibblePair(high: byte, low: byte)
    requires high < 15 && low < 15
    ensures (high * 16 + low) / 16 == high && (high * 16 + low) % 16 == low
  {
  }

  /** One encoded option at `pos` is read back as its number and value. */
  lemma ParseOneOption(data: bytes, pos: nat, current: nat, number: nat, value: bytes, options: Options)
    requires current <= number <= current + 269 && |value| <= 0xFFFF
    requires At(data, pos, Header(number - current, |value|))
    requires At(data, pos + |Header(number - current, |value|)|, value)
    ensures var next := pos + |Header(number - current, |value|)| + |value|;
            var r := ApplyOption(options, number, value);
            ParseOptions(data, pos, current, options)
            == if r.Err? then Err(r.error) else ParseOptions(data, next, number, r.value)
  {
    hide ApplyOption, ReadExtended, Header;
    ReadHeader(data, pos, number - current, |value|);
  }

  /** What parsing makes of a stretch of options: an error, or what follows it. */
  function Continue(r: Result<Options, ParseError>, data: bytes, next: nat, number: nat): Result<Body, ParseError> {
    if r.Err? then Err(r.error) else ParseOptions(data, next, number, r.value)
  }

  lemma EncodeValuesStep(number: nat, current: nat, values: seq<bytes>)
    requires current <= number && values != []
    ensures EncodeValues(number, current, values)
            == Header(number - current, |values[0]|) + (values[0] + EncodeValues(number, number, values[1..]))
  {
  }

  /** The values of one line, encoded at `pos`, are applied one after the other. */
  lemma {:induction false} ParseValues(data: bytes, pos: nat, current: nat, number: nat, values: seq<bytes>, options: Options)
    requires current <= number <= current + 269
    requires forall i :: 0 <= i < |values| ==> |values[i]| <= 0xFFFF
    requires At(data, pos, EncodeValues(number, current, values))
    ensures ParseOptions(data, pos, current, options)
            == Continue(ApplyValues(options, number, values), data, pos + |EncodeValues(number, current, values)|,
                        if values == [] then current else number)
    decreases |values|
  {
    hide ApplyOption, ReadExtended, Header, At, ParseOptions;
    if values == [] {
      assert EncodeValues(number, current, values) == [];
    } else {
      hide EncodeValues;
      var h, v, rest := Header(number - current, |values[0]|), values[0], EncodeValues(number, number, values[1..]);
      EncodeValuesStep(number, current, values);
      AtParts(data, pos, h, v + rest);
      AtParts(data, pos + |h|, v, rest);
      ParseOneOption(data, pos, current, number, v, options);
      var r := ApplyOption(options, number, v);
      if r.Ok? {
        ParseValues(data, pos + |h| + |v|, number, number, values[1..], r.value);
      }
    }
  }

  /** Lines the parser can follow: non-empty where present, value lengths in range. */
  ghost predicate Encodable(f: Field) {
    && f.number <= 269
    && (f.present ==> f.values != [])
    && forall j :: 0 <= j < |f.values| ==> |f.values[j]| <= 0xFFFF
  }

  lemma {:induction false} ParseFields(data: bytes, pos: nat, current: nat, fs: seq<Field>, options: Options) returns (last: nat)
    requires Ascending(fs, current)
    requires forall i :: 0 <= i < |fs| ==> Encodable(fs[i])
    requires At(data, pos, EncodeFields(fs, current))
    ensures ParseOptions(data, pos, current, options)
            == Continue(ApplyFields(options, fs), data, pos + |EncodeFields(fs, current)|, last)
    decreases |fs|
  {
    hide ApplyOption, ReadExtended, Header, At, ParseOptions, EncodeValues, ApplyValues;
    last := current;
    if fs != [] {
      AscendingRest(fs, current);
      var f, number := fs[0], NumberAfter(fs[0], current);
      var a, b := FieldBytes(f, current), EncodeFields(fs[1..], number);
      assert EncodeFields(fs, current) == a + b;
      AtParts(data, pos, a, b);
      if f.present {
        ParseValues(data, pos, current, f.number, f.values, options);
      }
      var r := ApplyField(options, f);
      if r.Ok? {
        last := ParseFields(data, pos + |a|, number, fs[1..], r.value);
      }
    }
  }

  // ---- each line restores its own field ------------------------------------------------

  lemma ApplySingle(options: Options, number: nat, value: bytes)
    ensures ApplyValues(options, number, [value]) == ApplyOption(options, number, value)
  {
    assert [value][1..] == [];
  }

  lemma {:induction false} ApplyItems(options: Options, number: nat, items: seq<bytes>, before: seq<bytes>)
    requires KindOf(number) == List && items != []
    requires Lookup(options, number) == if before == [] then None else Some(Items(before))
    requires forall i :: 0 <= i < |items| ==> |items[i]| <= 255
    ensures ApplyValues(options, number, items) == Ok(options[number := Items(before + items)])
    decreases |items|
  {
    var after := before + [items[0]];
    assert items[0][..|items[0]| % 256] == items[0];
    var next := options[number := Items(after)];
    assert ApplyOption(options, number, items[0]) == Ok(next);
    if |items| > 1 {
      ApplyItems(next, number, items[1..], after);
      assert after + items[1..] == before + items;
      assert next[number := Items(before + items)] == options[number := Items(before + items)];
    } else {
      assert items == [items[0]];
      assert items[1..] == [];
    }
  }

  lemma ApplyNumber(options: Options, number: nat, value: uint16, before: seq<uint16>)
    requires KindOf(number) == HalfList && |before| < MAX_ACCEPT_NUM
    requires Lookup(options, number) == if before == [] then None else Some(Numbers(before))
    ensures ApplyOption(options, number, IntBytes(value)) == Ok(options[number := Numbers(before + [value])])
  {
    ParseIntInverse(value);
  }

  lemma {:induction false} ApplyNumbers(options: Options, number: nat, values: seq<uint16>, before: seq<uint16>)
    requires KindOf(number) == HalfList && values != [] && |before| + |values| <= MAX_ACCEPT_NUM
    requires Lookup(options, number) == if before == [] then None else Some(Numbers(before))
    ensures ApplyValues(options, number, IntValues(values)) == Ok(options[number := Numbers(before + values)])
    decreases |values|
  {
    hide ApplyOption, IntBytes;
    var after := before + [values[0]];
    var next := options[number := Numbers(after)];
    ApplyNumber(options, number, values[0], before);
    if |values| > 1 {
      ApplyNumbers(next, number, values[1..], after);
      assert after + values[1..] == before + values;
      assert next[number := Numbers(before + values)] == options[number := Numbers(before + values)];
    } else {
      assert values == [values[0]] && values[1..] == [];
    }
  }

  /** A line built from a value stores that very value. */
  lemma ApplyLine(options: Options, number: nat, v: Value)
    requires number !in options && Fits(KindOf(number), v) && CanonicalValue(v)
    ensures ApplyValues(options, number, ValuesOf(v)) == Ok(options[number := v])
  {
    match v
    case Raw(b) => ApplySingle(options, number, b);
    case Flag => ApplySingle(options, number, IntBytes(0));
    case Number(n) =>
      ApplySingle(options, number, IntBytes(n));
      ParseIntInverse(n);
    case Items(list) => ApplyItems(options, number, list, []);
      assert [] + list == list;
    case Numbers(list) => ApplyNumbers(options, number, list, []);
      assert [] + list == list;
    case BlockOf(b) =>
      ApplySingle(options, number, IntBytes(PackBlock(b)));
      ParseIntInverse(PackBlock(b));
      UnpackPackBlock(b);
  }

  /** The options among the first `k` lines. */
  ghost function Prefix(options: Options, k: nat): Options
    requires k <= |ORDER|
  {
    map n | n in options && n in ORDER[..k] :: options[n]
  }

  lemma OrderDistinct(i: nat, j: nat)
    requires i < j < |ORDER|
    ensures ORDER[i] < ORDER[j]
  {
  }

  lemma {:induction false} ApplyAllLines(p: Packet, k: nat)
    requires WellTyped(p) && Canonical(p) && k <= |ORDER|
    ensures ApplyFields(Prefix(p.options, k), Fields(p)[k..]) == Ok(Prefix(p.options, |ORDER|))
    decreases |ORDER| - k
  {
    hide ApplyValues, ValuesOf, Fits, CanonicalValue, KindOf;
    var fs := Fields(p);
    if k == |ORDER| {
      assert fs[k..] == [];
    } else {
      var n, now, next := ORDER[k], Prefix(p.options, k), Prefix(p.options, k + 1);
      assert ORDER[..k + 1] == ORDER[..k] + [n];
      forall i | 0 <= i < k ensures ORDER[i] != n { OrderDistinct(i, k); }
      assert n !in ORDER[..k];
      if n in p.options {
        ApplyLine(now, n, p.options[n]);
        assert next == now[n := p.options[n]];
      } else {
        assert next == now;
      }
      assert fs[k..][0] == FieldOf(p, n) && fs[k..][1..] == fs[k + 1..];
      assert ApplyField(now, FieldOf(p, n)) == Ok(next);
      ApplyAllLines(p, k + 1);
    }
  }

  /** Every key a well-typed packet can have is one of the serialized options. */
  lemma KeysOrdered(p: Packet)
    requires WellTyped(p)
    ensures Prefix(p.options, |ORDER|) == p.options
  {
    forall n | n in p.options ensures n in ORDER {
      assert Fits(KindOf(n), p.options[n]);
      KnownInOrder(n);
    }
    assert ORDER[..|ORDER|] == ORDER;
  }

  lemma KnownInOrder(n: nat)
    requires var k := KindOf(n); !k.Refused? && !k.Unknown? && !k.Merged?
    ensures n in ORDER
  {
    assert ORDER[0] == IF_MATCH && ORDER[1] == URI_HOST && ORDER[2] == ETAG && ORDER[3] == IF_NONE_MATCH;
    assert ORDER[4] == OBSERVE && ORDER[5] == URI_PORT && ORDER[6] == LOCATION_PATH && ORDER[7] == URI_PATH;
    assert ORDER[8] == CONTENT_TYPE && ORDER[9] == MAX_AGE && ORDER[10] == URI_QUERY && ORDER[11] == ACCEPT;
    assert ORDER[12] == BLOCK2 && ORDER[13] == BLOCK1 && ORDER[14] == SIZE;
  }

  // ---- the whole message ---------------------------------------------------------------

  lemma FieldEncodable(p: Packet, n: nat)
    requires WellTyped(p) && Canonical(p) && n in ORDER
    requires URI_HOST in p.options ==> |p.options[URI_HOST].raw| <= 0xFFFF
    ensures Encodable(FieldOf(p, n))
  {
    if n in p.options {
      var v := p.options[n];
      assert Fits(KindOf(n), v) && CanonicalValue(v);
    }
  }

  /** The Uri-Host option is part of the message, so it is no longer than the message. */
  lemma HostFits(p: Packet)
    requires WellTyped(p)
    ensures URI_HOST in p.options ==> |p.options[URI_HOST].raw| <= |Serialize(p)|
  {
    if URI_HOST in p.options {
      FieldsAscending(p);
      var fs := Fields(p);
      assert fs[0] == FieldOf(p, IF_MATCH) && fs[1] == FieldOf(p, URI_HOST);
      var n, host := NumberAfter(fs[0], 0), p.options[URI_HOST];
      AscendingRest(fs, 0);
      assert Fits(KindOf(URI_HOST), host);
      assert fs[1..][0] == fs[1];
      assert EncodeFields(fs, 0) == FieldBytes(fs[0], 0) + EncodeFields(fs[1..], n);
      assert FieldBytes(fs[1], n) == EncodeValues(URI_HOST, n, [host.raw]);
      assert |EncodeValues(URI_HOST, n, [host.raw])| >= |host.raw|;
    }
  }

  lemma SerializeReadable(p: Packet)
    requires WellTyped(p) && |Serialize(p)| <= 0xFFFF
    ensures var data := Serialize(p);
            && Readable(data) && data[0] / 64 == 1 && data[0] / 16 % 4 == p.msgType
            && data[1] == p.code && ParseMid(data) == p.mid && TokenLength(data) == |TokenBytes(p)|
            && data[HEADER_LEN..HEADER_LEN + TokenLength(data)] == TokenBytes(p)
  {
    hide EncodeFields, Fields, PayloadBytes;
    var data, h := Serialize(p), HeaderBytes(p);
    FieldsAscending(p);
    var rest := EncodeFields(Fields(p), 0) + PayloadBytes(p);
    assert data == h + (TokenBytes(p) + rest);
    assert data[0] == h[0] && data[1] == h[1] && data[2] == h[2] && data[3] == h[3];
  }

  /** The option loop started after the token finds the packet's options and payload. */
  lemma ParseBody(p: Packet)
    requires WellTyped(p) && Canonical(p) && |Serialize(p)| <= 0xFFFF
    ensures ParseOptions(Serialize(p), HEADER_LEN + |TokenBytes(p)|, 0, map[]) == Ok(Body(p.options, p.payload))
  {
    hide WellTyped, Canonical, EncodeFields, ApplyFields, Prefix, ApplyOption, ReadExtended, HeaderBytes, ParseOptions;
    FieldsAscending(p);
    HostFits(p);
    KeysOrdered(p);
    var fs, data := Fields(p), Serialize(p);
    forall i | 0 <= i < |fs| ensures Encodable(fs[i]) { FieldEncodable(p, ORDER[i]); }
    hide Encodable, FieldOf;
    var ht, e, tail := HeaderBytes(p) + TokenBytes(p), EncodeFields(fs, 0), PayloadBytes(p);
    assert data == ht + (e + tail);
    assert At(data, |ht|, e + tail);
    AtParts(data, |ht|, e, tail);
    var last := ParseFields(data, |ht|, 0, fs, map[]);
    ApplyAllLines(p, 0);
    assert fs[0..] == fs;
    PrefixEmpty(p.options);
    assert data[|ht| + |e|..] == tail;
    ParseTail(data, |ht| + |e|, last, p.options, p.payload);
  }

  /** Parsing undoes serializing: type, code, message id, token, every option and the payload
      of a canonical message come back, with one- and two-byte extensions where the deltas and
      lengths need them. */
  lemma ParseSerialize(p: Packet)
    requires WellTyped(p) && Canonical(p) && |Serialize(p)| <= 0xFFFF
    ensures Readable(Serialize(p))
    ensures Parse(Serialize(p)) == Ok(p)
  {
    hide WellTyped, Canonical, Serialize, ParseOptions;
    SerializeReadable(p);
    ParseBody(p);
    TokenCanonical(p);
  }

  /** After the options come the marker and the payload, or nothing. */
  lemma ParseTail(data: bytes, pos: nat, number: nat, options: Options, payload: bytes)
    requires pos <= |data| && data[pos..] == if payload == [] then [] else [0xFF] + payload
    ensures ParseOptions(data, pos, number, options) == Ok(Body(options, payload))
  {
    if payload != [] {
      assert data[pos] == data[pos..][0] == 0xFF;
      assert data[pos + 1..] == data[pos..][1..] == payload;
    }
  }

  lemma PrefixEmpty(options: Options)
    ensures Prefix(options, 0) == map[]
  {
  }

  lemma TokenCanonical(p: Packet)
    requires Canonical(p)
    ensures p.token == if |TokenBytes(p)| == 0 then None else Some(TokenBytes(p))
  {
  }

  /** A message survives the wire exactly when it is canonical. A list option whose bit is set
      with an empty list, an empty token whose bit is set, or a block size that is not a power
      of two never does. */
  lemma RoundTripIff(p: Packet)
    requires WellTyped(p) && |Serialize(p)| <= 0xFFFF
    ensures Readable(Serialize(p))
    ensures Parse(Serialize(p)) == Ok(p) <==> Canonical(p)
  {
    SerializeReadable(p);
    if Canonical(p) {
      ParseSerialize(p);
    } else {
      ParsedIsCanonical(Serialize(p));
    }
  }
}
