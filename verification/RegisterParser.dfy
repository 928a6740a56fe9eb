/** The registration payload read by registration.c: the server's side of the link format. */
module RegisterParser {
  import opened Bytes
  import opened Text
  import opened RegisterPayload
  import opened SortedList
  import Uri
  import UriPath

  const SPACE: byte := 32
  const EQUALS: byte := 61
  const QUOTE: byte := 34

  /** `ver=`, `rt`, `ct` and the values the parser knows. */
  const VERSION_KEY: bytes := [118, 101, 114, 61]
  const TYPE_KEY: bytes := [114, 116]
  const CONTENT_KEY: bytes := [99, 116]
  const TYPE_VALUE: bytes := [34, 111, 109, 97, 46, 108, 119, 109, 50, 109, 34]
  const JSON_VALUE: bytes := [49, 49, 53, 52, 51]
  const SENML_VALUE: bytes := [49, 49, 48]

  // ---- scanning ------------------------------------------------------------------------

  /** The position of the first such byte, the length if there is none. */
  function FindByte(s: bytes, c: byte): (k: nat)
    ensures k <= |s| && (k < |s| ==> s[k] == c) && forall i :: 0 <= i < k ==> s[i] != c
  {
    if s == [] || s[0] == c then 0 else 1 + FindByte(s[1..], c)
  }

  /** The position of the first byte that is not a space. */
  function Spaces(s: bytes): (k: nat)
    ensures k <= |s| && (k < |s| ==> s[k] != SPACE) && forall i :: 0 <= i < k ==> s[i] == SPACE
  {
    if s == [] || s[0] != SPACE then 0 else 1 + Spaces(s[1..])
  }

  function TrimRight(s: bytes): (r: bytes)
    ensures r <= s && (r != [] ==> r[|r| - 1] != SPACE)
  {
    if s != [] && s[|s| - 1] == SPACE then TrimRight(s[..|s| - 1]) else s
  }

  /** The end of the object id: a slash or the end of the path. */
  function FindIdEnd(s: bytes): nat {
    Min(FindByte(s, SLASH), FindByte(s, GREATER))
  }

  /** The position of the last such byte behind the first position, 0 if there is none. */
  function FindLast(s: bytes, c: byte): (k: nat)
    ensures s != [] ==> k < |s|
    ensures k > 0 ==> k < |s| && s[k] == c
  {
    if |s| <= 1 then 0 else if s[|s| - 1] == c then |s| - 1 else FindLast(s[..|s| - 1], c)
  }

  // ---- one entry -----------------------------------------------------------------------

  datatype Version = Version(major: byte, minor: byte)

  datatype Entry = ObjectEntry(id: uint16, version: Version) | InstanceEntry(id: uint16, instance: uint16)

  function VersionNumber(s: bytes): Option<byte> {
    match TextToUInt(s)
    case None => None
    case Some(v) => if v > 0xFF then None else Some(v)
  }

  /** `ver=major.minor` */
  function ReadNumbers(text: bytes): Option<Version> {
    if |text| < 6 then None
    else
      var dot := 5 + FindByte(text[5..], DOT);
      if dot > |text| - 2 then None
      else
        var major, minor := VersionNumber(text[4..dot]), VersionNumber(text[dot + 1..]);
        if major.Some? && minor.Some? then Some(Version(major.value, minor.value)) else None
  }

  /** The text with a quote after the key and one at the end removed. */
  function Unquoted(a: bytes): bytes
    requires |a| >= 6
  {
    var inner := if a[4] == QUOTE then a[1..] else a;
    if inner[|inner| - 1] == QUOTE then inner[..|inner| - 1] else inner
  }

  /** The version attribute with or without quotes, from its key to its end. */
  function ReadVersion(a: bytes): Option<Version> {
    if |a| < 6 then None else ReadNumbers(Unquoted(a))
  }

  /** The attributes of an entry; all but a version are ignored. */
  function Attributes(d: bytes, v: Version): Option<Version>
    decreases |d|
  {
    var s := d[Spaces(d)..];
    if s == [] then Some(v)
    else
      var k := FindByte(s, SEMICOLON);
      var next := if k < |s| then s[k + 1..] else [];
      if k > 4 && s[..4] == VERSION_KEY then
        if v != Version(0, 0) then None
        else match ReadVersion(s[..k])
          case None => None
          case Some(u) => Attributes(next, u)
      else Attributes(next, v)
  }

  /** What follows the path of an entry. */
  function ReadAttributes(s: bytes): Option<Version> {
    if |s| > 1 && s[0] == SEMICOLON then Attributes(s[1..], Version(0, 0)) else Some(Version(0, 0))
  }

  function AsObject(id: uint16, v: Option<Version>): Option<Entry> {
    match v case None => None case Some(version) => Some(ObjectEntry(id, version))
  }

  /** What follows the slash behind the object id: the instance id, which may be missing. */
  function GetInstance(id: uint16, rest: bytes): Option<Entry> {
    var m := FindByte(rest, GREATER);
    if m == |rest| then None
    else if m == 0 then AsObject(id, ReadAttributes(rest[1..]))
    else match UriPath.Field(rest[..m])
      case None => None
      case Some(instance) =>
        if ReadAttributes(rest[m + 1..]).None? then None else Some(InstanceEntry(id, instance))
  }

  /** prv_getId. */
  function GetId(entry: bytes): Option<Entry> {
    var d := TrimRight(entry);
    if |d| < 2 || d[0] != LESS || d[1] != SLASH then None
    else
      var path := d[2..];
      var k := FindIdEnd(path);
      if k == 0 || k >= |path| then None
      else match UriPath.Field(path[..k])
        case None => None
        case Some(id) =>
          var rest := path[k + 1..];
          if path[k] == SLASH then GetInstance(id, rest) else AsObject(id, ReadAttributes(rest))
  }

  // ---- the link ------------------------------------------------------------------------

  /** One attribute of the link: key, value, and where it ends. */
  datatype Attribute = Attribute(key: bytes, value: bytes, end: nat)

  /** A value up to a semicolon, without spaces around it, and its end. A value of one character is
      refused, an empty one is not. */
  function SplitValue(s: bytes): (r: Option<(bytes, nat)>)
    ensures r.Some? ==> r.value.1 <= |s|
  {
    var rest := s[Spaces(s)..];
    if rest == [] then None
    else
      var n := FindByte(rest, SEMICOLON);
      var value := TrimRight(rest[..n]);
      if |value| == 1 then None else Some((value, Spaces(s) + n))
  }

  /** A key up to an equals sign and a value. */
  function SplitKeyValue(s: bytes): (r: Option<Attribute>)
    ensures r.Some? ==> 0 < r.value.end <= |s|
  {
    var j := FindByte(s, EQUALS);
    if j == 0 || j == |s| then None
    else
      var value := SplitValue(s[j + 1..]);
      if value.None? then None else Some(Attribute(s[..j], value.value.0, j + 1 + value.value.1))
  }

  /** prv_splitLinkAttribute: behind spaces and a semicolon. */
  function SplitAttribute(s: bytes): (r: Option<Attribute>)
    ensures r.Some? ==> 0 < r.value.end <= |s|
  {
    var k := Spaces(s);
    var i := if k < |s| && s[k] == SEMICOLON then k + 1 else k;
    if i == |s| then None
    else match SplitKeyValue(s[i..])
      case None => None
      case Some(a) => Some(a.(end := i + a.end))
  }

  datatype Link = Link(valid: bool, format: Formats)

  /** The attributes of the link: the resource type once, and at most one content format. */
  function LinkAttributes(s: bytes, link: Link): Option<Link>
    decreases |s|
  {
    if s == [] then Some(link)
    else match SplitAttribute(s)
      case None => None
      case Some(a) =>
        if a.key == TYPE_KEY then
          if link.valid || a.value != TYPE_VALUE then None else LinkAttributes(s[a.end..], link.(valid := true))
        else if a.key == CONTENT_KEY then
          if link.format != TlvOnly then None
          else if a.value == JSON_VALUE then LinkAttributes(s[a.end..], link.(format := Json))
          else if a.value == SENML_VALUE then LinkAttributes(s[a.end..], link.(format := SenmlJson))
          else None
        else LinkAttributes(s[a.end..], link)
  }

  /** The format and the alternative path of a registration. */
  datatype Root = Root(format: Formats, altPath: bytes)

  /** prv_parseLinkAttributes. */
  function ParseLink(entry: bytes): Option<Root> {
    var d := TrimRight(entry);
    if |d| < 2 || d[0] != LESS then None
    else
      var s := d[1..];
      var k := FindLast(s, GREATER);
      if k == 0 || k == |s| - 1 || s[k + 1] != SEMICOLON then None
      else match LinkAttributes(s[k + 2..], Link(false, TlvOnly))
        case None => None
        case Some(link) =>
          if !link.valid then None else Some(Root(link.format, s[if s[0] == SLASH then 1 else 0..k]))
  }

  // ---- the list of objects ---------------------------------------------------------------

  /** An object of a registered client. */
  datatype ClientObject = ClientObject(id: uint16, version: Version, instances: seq<uint16>)

  function ObjectIds(objects: seq<ClientObject>): (ids: seq<uint16>)
    ensures |ids| == |objects| && forall i :: 0 <= i < |ids| ==> ids[i] == objects[i].id
  {
    seq(|objects|, i requires 0 <= i < |objects| => objects[i].id)
  }

  /** lwm2m_list_find: the position of an id in a sorted list. */
  function Position(ids: seq<uint16>, id: uint16): (p: Option<nat>)
    ensures p.Some? ==> p.value < |ids| && ids[p.value] == id
  {
    var k := Below(ids, id);
    if k < |ids| && ids[k] == id then Some(k) else None
  }

  /** The list with an object of that id in it. */
  function WithObject(objects: seq<ClientObject>, id: uint16): seq<ClientObject> {
    if Position(ObjectIds(objects), id).Some? then objects
    else Insert(objects, InsertPos(ObjectIds(objects), id), ClientObject(id, Version(0, 0), []))
  }

  function WithInstance(instances: seq<uint16>, id: uint16): seq<uint16> {
    if Position(instances, id).Some? then instances else Insert(instances, InsertPos(instances, id), id)
  }

  /** An entry entered into the list: an object entry sets the version, an instance entry adds the
      instance. */
  function Entered(objects: seq<ClientObject>, e: Entry): seq<ClientObject> {
    var after := WithObject(objects, e.id);
    match Position(ObjectIds(after), e.id)
    case None => after
    case Some(k) =>
      after[k := match e
        case ObjectEntry(_, version) => after[k].(version := version)
        case InstanceEntry(_, instance) => after[k].(instances := WithInstance(after[k].instances, instance))]
  }

  datatype State = State(objects: seq<ClientObject>, root: Option<Root>)

  /** What prv_decodeRegisterPayload does with one entry. */
  function Applied(st: State, entry: bytes): Option<State> {
    match GetId(entry)
    case Some(e) => Some(st.(objects := Entered(st.objects, e)))
    case None =>
      if st.root.Some? then None
      else match ParseLink(entry)
        case None => None
        case Some(root) => Some(st.(root := Some(root)))
  }

  /** The bytes of an entry; its start and its length are kept in 16 bits. */
  function Slice(payload: bytes, from: nat, to: nat): bytes
    requires from <= to <= |payload|
  {
    var start := from % 0x1_0000;
    payload[start..start + (to - start) % 0x1_0000]
  }

  /** The next entry: behind spaces, and up to a comma. */
  function EntryStart(payload: bytes, index: nat): (from: nat)
    requires index <= |payload|
    ensures index <= from <= |payload|
  {
    index + Spaces(payload[index..])
  }

  function EntryEnd(payload: bytes, from: nat): (to: nat)
    requires from <= |payload|
    ensures from <= to <= |payload|
  {
    from + FindByte(payload[from..], COMMA)
  }

  /** The loop of prv_decodeRegisterPayload. */
  function DecodeFrom(payload: bytes, index: nat, st: State): Option<State>
    decreases |payload| + 1 - index
  {
    if index > |payload| then Some(st)
    else
      var from := EntryStart(payload, index);
      if from == |payload| then Some(st)
      else
        var to := EntryEnd(payload, from);
        match Applied(st, Slice(payload, from, to))
        case None => None
        case Some(next) => DecodeFrom(payload, to + 1, next)
  }

  /** One round of the loop. */
  lemma DecodeFromStep(payload: bytes, index: nat, st: State)
    requires index <= |payload|
    ensures
      var from := EntryStart(payload, index);
      if from == |payload| then DecodeFrom(payload, index, st) == Some(st)
      else
        var to := EntryEnd(payload, from);
        var next := Applied(st, Slice(payload, from, to));
        && (next.None? ==> DecodeFrom(payload, index, st) == None)
        && (next.Some? ==> DecodeFrom(payload, index, st) == DecodeFrom(payload, to + 1, next.value))
    ensures DecodeFrom(payload, |payload| + 1, st) == Some(st)
  {
    hide Applied, Slice, EntryStart, EntryEnd;
  }

  datatype Registration = Registration(objects: seq<ClientObject>, format: Formats, altPath: bytes)

  /** prv_decodeRegisterPayload. */
  function Decode(payload: bytes): Option<Registration> {
    match DecodeFrom(payload, 0, State([], None))
    case None => None
    case Some(st) =>
      if st.root.Some? then Some(Registration(st.objects, st.root.value.format, st.root.value.altPath))
      else Some(Registration(st.objects, TlvOnly, []))
  }
}
