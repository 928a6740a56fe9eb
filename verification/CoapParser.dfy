/** coap_parse_message of er-coap-13.c, and its round trip with coap_serialize_message. */
module CoapParser {
  import opened Bytes
  import opened CoapOptions
  import opened Coap

  const AMPERSAND: byte := 0x26

  // ---- parsing -------------------------------------------------------------------------

  function Truncate(value: bytes, limit: nat): bytes {
    if |value| <= limit then value else value[..limit]
  }

  /** The value stored for an option of a known kind, given what was stored before.
      - Tags are cut to eight bytes; a later one replaces an earlier one.
      - coap_add_multi_option appends, keeping the item's length in one byte.
      - Accept values past the second are dropped.
      - coap_merge_multi_option joins with '&', replacing an empty first part. */
  function Stored(kind: Kind, prior: Option<Value>, value: bytes): Value
    requires !kind.Refused? && !kind.Unknown?
  {
    match kind
    case Tag => Raw(Truncate(value, ETAG_LEN))
    case Text => Raw(value)
    case Empty => Flag
    case Word => Number(ParseInt(value))
    case Half => Number(ParseInt(value) % 0x1_0000)
    case List =>
      var list := if prior.Some? && prior.value.Items? then prior.value.items else [];
      Items(list + [value[..|value| % 256]])
    case HalfList =>
      var list := if prior.Some? && prior.value.Numbers? then prior.value.numbers else [];
      if |list| < MAX_ACCEPT_NUM then Numbers(list + [ParseInt(value) % 0x1_0000]) else Numbers(list)
    case Merged =>
      if prior.Some? && prior.value.Raw? && |prior.value.raw| > 0 then Raw(prior.value.raw + [AMPERSAND] + value)
      else Raw(value)
    case BlockWise => BlockOf(UnpackBlock(ParseInt(value)))
  }

  function Lookup(options: Options, number: nat): Option<Value> {
    if number in options then Some(options[number]) else None
  }

  /** The switch over option numbers: an unknown option is an error when its number is odd. */
  function ApplyOption(options: Options, number: nat, value: bytes): Result<Options, ParseError> {
    var kind := KindOf(number);
    if kind.Refused? then Err(ProxyingNotSupported)
    else if kind.Unknown? then if number % 2 == 1 then Err(BadOption) else Ok(options)
    else Ok(options[number := Stored(kind, Lookup(options, number), value)])
  }

  /** What the option loop leaves: the option map and the payload. */
  datatype Body = Body(options: Options, payload: bytes)

  /** The option loop from `pos`, with the option number reached so far. */
  function ParseOptions(data: bytes, pos: nat, number: nat, options: Options): Result<Body, ParseError>
    decreases |data| - pos
  {
    if pos >= |data| then Ok(Body(options, []))
    else if data[pos] / 16 == 15 then Ok(Body(options, data[pos + 1..]))
    else
      var delta := ReadExtended(data, data[pos] / 16, pos + 1);
      var length := ReadExtended(data, data[pos] % 16, delta.next);
      var end := length.next + length.value;
      if end > |data| then Err(BadRequest)
      else
        var r := ApplyOption(options, number + delta.value, data[length.next..end]);
        if r.Err? then Err(r.error) else ParseOptions(data, end, number + delta.value, r.value)
  }

  function TokenLength(data: bytes): nat
    requires |data| >= HEADER_LEN
  {
    Min(TOKEN_LEN, data[0] % 16)
  }

  /** The parser reads the four header bytes and, for version 1, the token without looking at
      the datagram's length, which is an unsigned 16-bit number. */
  predicate Readable(data: bytes) {
    && HEADER_LEN <= |data| <= 0xFFFF
    && (data[0] / 64 == 1 ==> HEADER_LEN + TokenLength(data) <= |data|)
  }

  function ParseToken(data: bytes): Option<bytes>
    requires Readable(data) && data[0] / 64 == 1
  {
    if TokenLength(data) != 0 then Some(data[HEADER_LEN..HEADER_LEN + TokenLength(data)]) else None
  }

  function ParseMid(data: bytes): uint16
    requires |data| >= HEADER_LEN
  {
    data[2] as int * 256 + data[3]
  }

  function Parse(data: bytes): Result<Packet, ParseError>
    requires Readable(data)
  {
    if data[0] / 64 != 1 then Err(BadRequest)
    else
      var body := ParseOptions(data, HEADER_LEN + TokenLength(data), 0, map[]);
      if body.Err? then Err(body.error)
      else Ok(Packet(data[0] / 16 % 4, data[1], ParseMid(data), ParseToken(data), body.value.options, body.value.payload))
  }

  /** coap_parse_message. */
  method ParseMessage(data: bytes) returns (r: Result<Packet, ParseError>)
    requires Readable(data)
    ensures r == Parse(data)
  {
    if data[0] / 64 != 1 {
      return Err(BadRequest);
    }
    var tokenLen := Min(TOKEN_LEN, data[0] % 16);
    var p := Packet(data[0] / 16 % 4, data[1], data[2] as int * 256 + data[3], None, map[], []);
    if tokenLen != 0 {
      p := p.(token := Some(data[HEADER_LEN..HEADER_LEN + tokenLen]));
    }
    var body := ParseOptionLoop(data, HEADER_LEN + tokenLen);
    if body.Err? {
      return Err(body.error);
    }
    r := Ok(p.(options := body.value.options, payload := body.value.payload));
  }

  /** The option loop of coap_parse_message. */
  method ParseOptionLoop(data: bytes, start: nat) returns (r: Result<Body, ParseError>)
    requires start <= |data|
    ensures r == ParseOptions(data, start, 0, map[])
  {
    hide ApplyOption, ReadExtended;
    var pos, number := start, 0;
    var options: Options := map[];
    while pos < |data|
      invariant pos <= |data| && 0 <= number
      invariant ParseOptions(data, pos, number, options) == ParseOptions(data, start, 0, map[])
      decreases |data| - pos
    {
      if data[pos] / 16 == 15 {
        return Ok(Body(options, data[pos + 1..]));
      }
      var delta := ReadExtended(data, data[pos] / 16, pos + 1);
      var length := ReadExtended(data, data[pos] % 16, delta.next);
      number := number + delta.value;
      var end := length.next + length.value;
      if end > |data| {
        return Err(BadRequest);
      }
      var applied := ApplyOption(options, number, data[length.next..end]);
      if applied.Err? {
        return Err(applied.error);
      }
      options, pos := applied.value, end;
    }
    r := Ok(Body(options, []));
  }

  // ---- every parsed message is canonical -----------------------------------------------

  ghost predicate CanonicalOptions(options: Options) {
    forall n :: n in options ==> CanonicalValue(options[n])
  }

  /** Whatever the datagram, a message that parses has no empty list option and only
      power-of-two block sizes. */
  lemma ParsedIsCanonical(data: bytes)
    requires Readable(data)
    ensures Parse(data).Ok? ==> Canonical(Parse(data).value)
  {
    if data[0] / 64 == 1 {
      ParseOptionsCanonical(data, HEADER_LEN + TokenLength(data), 0, map[]);
    }
  }

  lemma ApplyOptionCanonical(options: Options, number: nat, value: bytes)
    requires CanonicalOptions(options)
    ensures var r := ApplyOption(options, number, value); r.Ok? ==> CanonicalOptions(r.value)
  {
  }

  lemma {:induction false} ParseOptionsCanonical(data: bytes, pos: nat, number: nat, options: Options)
    requires CanonicalOptions(options)
    ensures var r := ParseOptions(data, pos, number, options); r.Ok? ==> CanonicalOptions(r.value.options)
    decreases |data| - pos
  {
    hide ApplyOption, ReadExtended, CanonicalOptions;
    if pos < |data| && data[pos] / 16 != 15 {
      var delta := ReadExtended(data, data[pos] / 16, pos + 1);
      var length := ReadExtended(data, data[pos] % 16, delta.next);
      var end := length.next + length.value;
      if end <= |data| {
        var value := data[length.next..end];
        var r := ApplyOption(options, number + delta.value, value);
        ApplyOptionCanonical(options, number + delta.value, value);
        if r.Ok? {
          ParseOptionsCanonical(data, end, number + delta.value, r.value);
        }
      }
    }
  }
}
