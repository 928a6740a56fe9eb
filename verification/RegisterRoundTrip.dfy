/** The registration payload from the client's printer to the server's parser. */
module RegisterRoundTrip {
  import opened Bytes
  import opened Text
  import opened RegisterPayload
  import opened RegisterParser
  import opened SortedList
  import Uri
  import UriPath

  // ---- single entries ------------------------------------------------------------------

  lemma {:induction false} FindBehind(a: bytes, b: bytes, c: byte)
    requires c !in a
    ensures FindByte(a + b, c) == |a| + FindByte(b, c)
  {
    if a == [] {
      assert a + b == b;
    } else {
      assert (a + b)[1..] == a[1..] + b;
      FindBehind(a[1..], b, c);
    }
  }

  lemma FindAtStart(c: byte, rest: bytes)
    ensures FindByte([c] + rest, c) == 0
    ensures FindByte([c], c) == 0
  {
  }

  /** `</id>` */
  function PlainEntry(id: uint16): bytes {
    [LESS, SLASH] + Digits(id) + [GREATER]
  }

  /** `</id>;ver=major.minor` */
  function VersionEntry(id: uint16, v: Version): bytes {
    [LESS, SLASH] + Digits(id) + VERSION_START + Digits(v.major) + [DOT] + Digits(v.minor)
  }

  /** `</id/instance>` */
  function InstanceEntryText(id: uint16, instance: uint16): bytes {
    Template(id) + Digits(instance) + [GREATER]
  }

  lemma DigitsHaveNo(n: nat, c: byte)
    requires c < ZERO || c > NINE
    ensures c !in Digits(n)
  {
    assert AllDigits(Digits(n));
  }

  /** The object id in front of the end of a path or of a slash. */
  lemma IdEnd(id: uint16, rest: bytes)
    requires rest != [] && rest[0] in {SLASH, GREATER}
    ensures FindIdEnd(Digits(id) + rest) == |Digits(id)|
  {
    DigitsHaveNo(id, SLASH);
    DigitsHaveNo(id, GREATER);
    FindBehind(Digits(id), rest, SLASH);
    FindBehind(Digits(id), rest, GREATER);
  }

  /** An entry up to what follows the object id. */
  lemma GetIdOf(id: uint16, c: byte, rest: bytes)
    requires id != Uri.UNSET && c in {SLASH, GREATER} && ([c] + rest)[|rest|] != SPACE
    ensures GetId([LESS, SLASH] + Digits(id) + [c] + rest) ==
      if c == SLASH then GetInstance(id, rest) else AsObject(id, ReadAttributes(rest))
  {
    hide Digits, UriPath.Field, FindByte, GetInstance, ReadAttributes, AsObject;
    var entry := [LESS, SLASH] + Digits(id) + [c] + rest;
    assert entry[|entry| - 1] == ([c] + rest)[|rest|];
    assert TrimRight(entry) == entry;
    var path := Digits(id) + ([c] + rest);
    assert entry[2..] == path;
    IdEnd(id, [c] + rest);
    UriPath.FieldOfDigits(id);
    var k := |Digits(id)|;
    assert path[..k] == Digits(id) && path[k] == c && path[k + 1..] == rest;
  }

  lemma GetIdOfPlain(id: uint16)
    requires id != Uri.UNSET
    ensures GetId(PlainEntry(id)) == Some(ObjectEntry(id, Version(0, 0)))
  {
    hide GetId, Digits;
    GetIdOf(id, GREATER, []);
    assert PlainEntry(id) == [LESS, SLASH] + Digits(id) + [GREATER] + [];
  }

  lemma GetIdOfInstance(id: uint16, instance: uint16)
    requires id != Uri.UNSET && instance != Uri.UNSET
    ensures GetId(InstanceEntryText(id, instance)) == Some(InstanceEntry(id, instance))
  {
    hide GetId, Digits, FindByte, UriPath.Field;
    var rest := Digits(instance) + [GREATER];
    assert ([SLASH] + rest)[|rest|] == GREATER;
    GetIdOf(id, SLASH, rest);
    assert InstanceEntryText(id, instance) == [LESS, SLASH] + Digits(id) + [SLASH] + rest;
    UriPath.FieldOfDigits(instance);
    DigitsHaveNo(instance, GREATER);
    FindBehind(Digits(instance), [GREATER], GREATER);
    FindAtStart(GREATER, []);
    assert rest[..|Digits(instance)|] == Digits(instance) && rest[|Digits(instance)| + 1..] == [];
  }

  lemma GetIdOfVersion(id: uint16, v: Version)
    requires id != Uri.UNSET
    ensures GetId(VersionEntry(id, v)) == Some(ObjectEntry(id, v))
  {
    hide GetId, Digits, Attributes;
    var attribute := VERSION_KEY + Digits(v.major) + [DOT] + Digits(v.minor);
    var rest := [SEMICOLON] + attribute;
    DigitsHaveNo(v.minor, SPACE);
    assert ([GREATER] + rest)[|rest|] == Digits(v.minor)[|Digits(v.minor)| - 1];
    GetIdOf(id, GREATER, rest);
    assert VersionEntry(id, v) == [LESS, SLASH] + Digits(id) + [GREATER] + rest;
    assert rest[1..] == attribute;
    AttributesOfVersion(v);
  }

  lemma AttributesOfVersion(v: Version)
    ensures
      var attribute := VERSION_KEY + Digits(v.major) + [DOT] + Digits(v.minor);
      Attributes(attribute, Version(0, 0)) == Some(v)
  {
    hide Digits, FindByte, ReadVersion;
    var a := VERSION_KEY + Digits(v.major) + [DOT] + Digits(v.minor);
    ReadsVersion(v);
    assert Spaces(a) == 0 && a[0..] == a;
    DigitsHaveNo(v.major, SEMICOLON);
    DigitsHaveNo(v.minor, SEMICOLON);
    assert SEMICOLON !in a;
    assert FindByte(a, SEMICOLON) == |a|;
    assert a[..|a|] == a && a[..4] == VERSION_KEY;
    AttributesStep(a);
  }

  lemma AttributesStep(a: bytes)
    requires |a| > 4 && Spaces(a) == 0 && FindByte(a, SEMICOLON) == |a| && a[..4] == VERSION_KEY
    ensures Attributes(a, Version(0, 0)) == ReadVersion(a)
  {
    hide FindByte, ReadVersion;
    assert a[0..] == a && a[..|a|] == a;
    var u := ReadVersion(a);
    if u.Some? { assert Attributes([], u.value) == Some(u.value); }
  }

  lemma ReadsVersion(v: Version)
    ensures
      var attribute := VERSION_KEY + Digits(v.major) + [DOT] + Digits(v.minor);
      ReadVersion(attribute) == Some(v)
  {
    hide Digits, ReadNumbers;
    var major, minor := Digits(v.major), Digits(v.minor);
    var a := VERSION_KEY + major + [DOT] + minor;
    DigitsHaveNo(v.major, QUOTE);
    DigitsHaveNo(v.minor, QUOTE);
    assert a[4] == major[0] && a[|a| - 1] == minor[|minor| - 1];
    ReadsNumbers(v);
  }

  lemma ReadsNumbers(v: Version)
    ensures ReadNumbers(VERSION_KEY + Digits(v.major) + [DOT] + Digits(v.minor)) == Some(v)
  {
    hide Digits, FindByte, TextToUInt;
    var major, minor := Digits(v.major), Digits(v.minor);
    var a := VERSION_KEY + major + [DOT] + minor;
    DigitsHaveNo(v.major, DOT);
    assert a[5..] == major[1..] + ([DOT] + minor);
    assert DOT !in major[1..];
    FindBehind(major[1..], [DOT] + minor, DOT);
    FindAtStart(DOT, minor);
    assert a[4..4 + |major|] == major && a[4 + |major| + 1..] == minor;
    UIntTextRoundTrip(v.major);
    UIntTextRoundTrip(v.minor);
  }

  // ---- the link ------------------------------------------------------------------------

  lemma {:induction false} FindLastIs(s: bytes, k: nat, c: byte)
    requires 0 < k < |s| && s[k] == c && c !in s[k + 1..]
    ensures FindLast(s, c) == k
  {
    if k < |s| - 1 {
      assert s[|s| - 1] == s[k + 1..][|s| - k - 2];
      assert s[..|s| - 1][k + 1..] == s[k + 1..|s| - 1] <= s[k + 1..];
      FindLastIs(s[..|s| - 1], k, c);
    }
  }

  predicate WellFormed(key: bytes, value: bytes) {
    && key != [] && EQUALS !in key && key[0] != SPACE && key[0] != SEMICOLON
    && |value| >= 2 && SEMICOLON !in value && value[0] != SPACE && value[|value| - 1] != SPACE
  }

  lemma SplitValueIs(key: bytes, value: bytes, rest: bytes)
    requires WellFormed(key, value) && (rest == [] || rest[0] == SEMICOLON)
    ensures SplitValue(value + rest) == Some((value, |value|))
  {
    hide FindByte, Spaces, TrimRight;
    var tail := value + rest;
    FindBehind(value, rest, SEMICOLON);
    FindFirst(rest, SEMICOLON);
    NoSpaces(tail);
    NoSpaces(value);
    assert tail[0..] == tail && tail[..|value|] == value;
  }

  lemma SplitKeyValueIs(key: bytes, value: bytes, rest: bytes)
    requires WellFormed(key, value) && (rest == [] || rest[0] == SEMICOLON)
    ensures SplitKeyValue(key + [EQUALS] + value + rest) == Some(Attribute(key, value, |key| + 1 + |value|))
  {
    hide FindByte, SplitValue;
    var s, tail := key + [EQUALS] + value + rest, value + rest;
    SplitValueIs(key, value, rest);
    assert s == key + ([EQUALS] + tail);
    FindBehind(key, [EQUALS] + tail, EQUALS);
    FindAtStart(EQUALS, tail);
    assert s[..|key|] == key && s[|key| + 1..] == tail;
  }

  lemma NoSpaces(s: bytes)
    requires s != []
    ensures s[0] != SPACE ==> Spaces(s) == 0
    ensures s[|s| - 1] != SPACE ==> TrimRight(s) == s
  {
  }

  /** One well-formed attribute, behind a semicolon or not. */
  lemma SplitIs(separator: bytes, key: bytes, value: bytes, rest: bytes)
    requires separator == [] || separator == [SEMICOLON]
    requires WellFormed(key, value) && (rest == [] || rest[0] == SEMICOLON)
    ensures SplitAttribute(separator + key + [EQUALS] + value + rest) ==
      Some(Attribute(key, value, |separator| + |key| + 1 + |value|))
  {
    hide SplitKeyValue;
    var s, text := separator + key + [EQUALS] + value + rest, key + [EQUALS] + value + rest;
    SplitKeyValueIs(key, value, rest);
    assert s == separator + text && text[0] == key[0];
    assert Spaces(s) == 0;
    assert s[|separator|..] == text;
  }

  lemma FindFirst(s: bytes, c: byte)
    requires s == [] || s[0] == c
    ensures FindByte(s, c) == 0
  {
  }

  /** The entry of the link, without an alternative path. */
  function LinkEntry(f: Formats): bytes {
    [LESS, SLASH, GREATER, SEMICOLON] + RESOURCE_TYPE + ContentType(f)
  }

  lemma StartIsLink(f: Formats)
    ensures StartText([], f) == LinkEntry(f) + [COMMA]
  {
    hide ContentType;
  }

  lemma ContentAttribute(f: Formats)
    ensures LinkAttributes(ContentType(f), Link(true, TlvOnly)) == Some(Link(true, f))
  {
    hide SplitAttribute;
    if f != TlvOnly {
      var value := if f == Json then JSON_VALUE else SENML_VALUE;
      SplitIs([SEMICOLON], CONTENT_KEY, value, []);
      var text := ContentType(f);
      assert [SEMICOLON] + CONTENT_KEY + [EQUALS] + value + [] == text;
      assert text[|text|..] == [];
      assert CONTENT_KEY[0] != TYPE_KEY[0] && |JSON_VALUE| != |SENML_VALUE|;
    }
  }

  lemma LinkAttributesIs(f: Formats)
    ensures LinkAttributes(RESOURCE_TYPE + ContentType(f), Link(false, TlvOnly)) == Some(Link(true, f))
  {
    hide SplitAttribute, ContentType;
    var s := RESOURCE_TYPE + ContentType(f);
    ContentFollows(f);
    SplitIs([], TYPE_KEY, TYPE_VALUE, ContentType(f));
    assert [] + TYPE_KEY + [EQUALS] + TYPE_VALUE == RESOURCE_TYPE;
    assert s[14..] == ContentType(f);
    ContentAttribute(f);
  }

  lemma ContentFollows(f: Formats)
    ensures ContentType(f) == [] || ContentType(f)[0] == SEMICOLON
    ensures GREATER !in ContentType(f) && COMMA !in ContentType(f)
    ensures ContentType(f) != [] ==> ContentType(f)[|ContentType(f)| - 1] != SPACE
  {
  }

  lemma LinkIsNoObject(f: Formats)
    ensures GetId(LinkEntry(f)) == None
  {
    hide FindByte, ContentType;
    var entry := LinkEntry(f);
    ContentFollows(f);
    assert TrimRight(entry) == entry;
    FindFirst(entry[2..], GREATER);
  }

  lemma ParsesLink(f: Formats)
    ensures ParseLink(LinkEntry(f)) == Some(Root(f, []))
  {
    hide LinkAttributes, FindByte, FindLast, ContentType;
    ContentFollows(f);
    var entry, attributes := LinkEntry(f), RESOURCE_TYPE + ContentType(f);
    assert TrimRight(entry) == entry;
    var s := entry[1..];
    assert s == [SLASH, GREATER] + ([SEMICOLON] + attributes);
    hide LinkEntry, TrimRight;
    assert s[2..] == [SEMICOLON] + attributes;
    assert GREATER !in RESOURCE_TYPE && GREATER !in attributes && GREATER !in s[2..];
    FindLastIs(s, 1, GREATER);
    assert s[3..] == attributes && s[1..1] == [];
    LinkAttributesIs(f);
  }

  // ---- entering in ascending order ---------------------------------------------------------

  predicate AllBelow(ids: seq<uint16>, id: uint16) {
    forall i :: 0 <= i < |ids| ==> ids[i] < id
  }

  lemma {:induction false} AppendsAt(ids: seq<uint16>, id: uint16)
    requires AllBelow(ids, id)
    ensures Below(ids, id) == |ids| && InsertPos(ids, id) == |ids| && Position(ids, id) == None
  {
    if ids != [] {
      assert AllBelow(ids[1..], id);
      AppendsAt(ids[1..], id);
    }
  }

  lemma {:induction false} FindsLast(ids: seq<uint16>, id: uint16)
    requires AllBelow(ids, id)
    ensures Position(ids + [id], id) == Some(|ids|)
  {
    if ids == [] {
      assert ids + [id] == [id];
    } else {
      assert (ids + [id])[1..] == ids[1..] + [id];
      FindsLast(ids[1..], id);
    }
  }

  lemma EntersObject(objects: seq<ClientObject>, id: uint16, v: Version)
    requires AllBelow(ObjectIds(objects), id)
    ensures Entered(objects, ObjectEntry(id, v)) == objects + [ClientObject(id, v, [])]
  {
    NewObject(objects, id);
  }

  lemma NewObject(objects: seq<ClientObject>, id: uint16)
    requires AllBelow(ObjectIds(objects), id)
    ensures WithObject(objects, id) == objects + [ClientObject(id, Version(0, 0), [])]
    ensures Position(ObjectIds(WithObject(objects, id)), id) == Some(|objects|)
  {
    AppendsAt(ObjectIds(objects), id);
    var after := objects + [ClientObject(id, Version(0, 0), [])];
    assert Insert(objects, |objects|, ClientObject(id, Version(0, 0), [])) == after;
    assert ObjectIds(after) == ObjectIds(objects) + [id];
    FindsLast(ObjectIds(objects), id);
  }

  /** An instance of an object that is not there yet. */
  lemma EntersFirstInstance(objects: seq<ClientObject>, id: uint16, instance: uint16)
    requires AllBelow(ObjectIds(objects), id)
    ensures Entered(objects, InstanceEntry(id, instance)) == objects + [ClientObject(id, Version(0, 0), [instance])]
  {
    NewObject(objects, id);
    assert WithInstance([], instance) == [instance];
  }

  /** A further instance of the last object. */
  lemma EntersInstance(objects: seq<ClientObject>, last: ClientObject, instance: uint16)
    requires AllBelow(ObjectIds(objects), last.id) && AllBelow(last.instances, instance)
    ensures Entered(objects + [last], InstanceEntry(last.id, instance)) ==
      objects + [last.(instances := last.instances + [instance])]
  {
    assert ObjectIds(objects + [last]) == ObjectIds(objects) + [last.id];
    FindsLast(ObjectIds(objects), last.id);
    AppendsAt(last.instances, instance);
    assert Insert(last.instances, |last.instances|, instance) == last.instances + [instance];
    assert (objects + [last])[|objects| := last.(instances := last.instances + [instance])] ==
      objects + [last.(instances := last.instances + [instance])];
  }

  // ---- entry by entry ----------------------------------------------------------------------

  /** The loop of the parser, on what is left of the payload. */
  function DecodeText(s: bytes, st: State): Option<State>
    decreases |s|
  {
    var t := s[Spaces(s)..];
    if t == [] then Some(st)
    else
      var k := FindByte(t, COMMA);
      match Applied(st, t[..k])
      case None => None
      case Some(next) => if k == |t| then Some(next) else DecodeText(t[k + 1..], next)
  }

  lemma SliceIs(payload: bytes, from: nat, to: nat)
    requires from <= to <= |payload| && from <= 0xFFFF && to - from <= 0xFFFF
    ensures Slice(payload, from, to) == payload[from..to]
  {
  }

  /** No entry starts behind the first 65536 bytes. */
  predicate StartsFit(payload: bytes) {
    forall k :: 0xFFFF <= k < |payload| ==> payload[k] != COMMA
  }

  /** The last entry is no longer than 65535 bytes. */
  ghost predicate LastFits(payload: bytes) {
    |payload| <= 0xFFFF || exists k :: 0 <= k < |payload| && payload[k] == COMMA && |payload| - k <= 0x1_0000
  }

  lemma DecodeTextStep(s: bytes, st: State)
    ensures
      var t := s[Spaces(s)..];
      if t == [] then DecodeText(s, st) == Some(st)
      else
        var k := FindByte(t, COMMA);
        var next := Applied(st, t[..k]);
        && (next.None? ==> DecodeText(s, st) == None)
        && (next.Some? ==> DecodeText(s, st) == if k == |t| then next else DecodeText(t[k + 1..], next.value))
  {
  }

  /** As long as every entry starts within 65536 bytes, positions fit into the 16 bits they are kept in. */
  lemma {:induction false} DecodeFromIs(payload: bytes, index: nat, st: State)
    requires index <= |payload| && SPACE !in payload && StartsFit(payload) && LastFits(payload)
    requires index == 0 || payload[index - 1] == COMMA
    ensures DecodeFrom(payload, index, st) == DecodeText(payload[index..], st)
    decreases |payload| - index
  {
    hide Applied, Slice, DecodeFrom, DecodeText, FindByte, Spaces, StartsFit, LastFits;
    var t := payload[index..];
    Unspaced(payload, index);
    assert t[0..] == t;
    DecodeFromStep(payload, index, st);
    DecodeTextStep(t, st);
    if t != [] {
      var k := FindByte(t, COMMA);
      EntryIs(payload, index, k);
      var next := Applied(st, t[..k]);
      if next.Some? {
        if k < |t| {
          assert t[k + 1..] == payload[index + k + 1..];
          DecodeFromIs(payload, index + k + 1, next.value);
        } else {
          DecodeFromStep(payload, |payload|, next.value);
        }
      }
    }
  }

  lemma Unspaced(payload: bytes, index: nat)
    requires index <= |payload| && SPACE !in payload
    ensures Spaces(payload[index..]) == 0
  {
    assert index < |payload| ==> payload[index] in payload;
  }

  lemma EntryIs(payload: bytes, index: nat, k: nat)
    requires index <= |payload| && StartsFit(payload) && LastFits(payload)
    requires index == 0 || payload[index - 1] == COMMA
    requires k == FindByte(payload[index..], COMMA)
    ensures Slice(payload, index, index + k) == payload[index..][..k]
  {
    var t := payload[index..];
    assert forall i :: 0 <= i < |t| ==> payload[index + i] == t[i];
    forall i | index <= i < index + k ensures payload[i] != COMMA { assert t[i - index] != COMMA; }
    EntryFits(payload, index, k);
    SliceIs(payload, index, index + k);
  }

  lemma EntryFits(payload: bytes, index: nat, k: nat)
    requires index + k <= |payload| && StartsFit(payload) && LastFits(payload)
    requires index + k == |payload| || payload[index + k] == COMMA
    requires forall i :: index <= i < index + k ==> payload[i] != COMMA
    ensures k <= 0xFFFF
  {
  }

  /** An entry as the parser sees it: without commas, and not starting with a space. */
  predicate IsEntry(e: bytes) {
    e != [] && COMMA !in e && e[0] != SPACE
  }

  lemma {:induction false} DecodeEntry(e: bytes, rest: bytes, st: State)
    requires IsEntry(e)
    ensures Applied(st, e).None? ==> DecodeText(e + [COMMA] + rest, st) == None
    ensures Applied(st, e).Some? ==> DecodeText(e + [COMMA] + rest, st) == DecodeText(rest, Applied(st, e).value)
  {
    hide Applied, FindByte;
    var s := e + [COMMA] + rest;
    assert s == e + ([COMMA] + rest) && s[0] == e[0];
    NoSpaces(s);
    assert s[0..] == s;
    FindBehind(e, [COMMA] + rest, COMMA);
    FindAtStart(COMMA, rest);
    assert s[..|e|] == e && s[|e| + 1..] == rest;
  }

  /** Text that ends with a comma behind something else. */
  predicate Ended(s: bytes) {
    |s| >= 2 && s[|s| - 1] == COMMA && s[|s| - 2] != COMMA && s[|s| - 2] != SPACE
  }

  /** The comma at the end makes no difference. */
  lemma {:induction false} LastComma(s: bytes, st: State)
    requires Ended(s)
    ensures DecodeText(s[..|s| - 1], st) == DecodeText(s, st)
    decreases |s|
  {
    hide Applied, FindByte, Spaces, DecodeText, Ended;
    var t := Unended(s);
    var u := s[..|s| - 1];
    DecodeTextStep(u, st);
    DecodeTextStep(s, st);
    var k := FindByte(t, COMMA);
    FindIn(t, COMMA);
    CommaSlices(t, k);
    var next := Applied(st, t[..k]);
    if next.Some? {
      if k < |t| {
        EndedRest(t, k);
        LastComma(t[k + 1..] + [COMMA], next.value);
      } else {
        DecodeNothing(next.value);
      }
    }
  }

  /** What is left of both texts behind their spaces. */
  lemma Unended(s: bytes) returns (t: bytes)
    requires Ended(s)
    ensures |s| >= 2 && t == s[..|s| - 1][Spaces(s[..|s| - 1])..] && s[Spaces(s)..] == t + [COMMA]
    ensures t != [] && t[|t| - 1] != COMMA && t[|t| - 1] != SPACE && |t| < |s|
  {
    hide Spaces;
    SamePrefix(s);
    t := s[..|s| - 1][Spaces(s[..|s| - 1])..];
    assert t[|t| - 1] == s[|s| - 2];
  }

  lemma EndedRest(t: bytes, k: nat)
    requires k < |t| && t[k] == COMMA && t[|t| - 1] != COMMA && t[|t| - 1] != SPACE
    ensures Ended(t[k + 1..] + [COMMA])
  {
    assert k < |t| - 1;
  }

  lemma CommaSlices(t: bytes, k: nat)
    requires k <= |t|
    ensures (t + [COMMA])[..k] == t[..k]
    ensures k == |t| ==> (t + [COMMA])[k + 1..] == []
    ensures k < |t| ==> (t + [COMMA])[k + 1..] == t[k + 1..] + [COMMA] && (t[k + 1..] + [COMMA])[..|t| - k - 1] == t[k + 1..]
  {
  }

  lemma {:induction false} FindIn(t: bytes, c: byte)
    ensures FindByte(t + [c], c) == FindByte(t, c) <= |t|
  {
    if t != [] && t[0] != c {
      assert (t + [c])[1..] == t[1..] + [c];
      FindIn(t[1..], c);
    }
  }

  lemma {:induction false} SamePrefix(s: bytes)
    requires Ended(s)
    ensures Spaces(s[..|s| - 1]) == Spaces(s) < |s| - 1
  {
    var u := s[..|s| - 1];
    if s[0] == SPACE {
      assert s[1..][..|s| - 2] == u[1..];
      SamePrefix(s[1..]);
    }
  }

  // ---- object by object ----------------------------------------------------------------------

  lemma {:induction false} DecodeInstances(objects: seq<ClientObject>, last: ClientObject, instances: seq<uint16>,
                                           rest: bytes, root: Option<Root>)
    requires AllBelow(ObjectIds(objects), last.id) && last.id != Uri.UNSET
    requires Sorted(last.instances + instances) && Uri.UNSET !in instances
    ensures DecodeText(InstancesText(last.id, instances) + rest, State(objects + [last], root)) ==
      DecodeText(rest, State(objects + [last.(instances := last.instances + instances)], root))
    decreases |instances|
  {
    hide DecodeText, InstancesText;
    if instances == [] {
      NoInstances(last.id);
      assert [] + rest == rest && last.instances + instances == last.instances;
    } else {
      var instance, more := instances[0], instances[1..];
      forall i | 0 <= i < |last.instances| ensures last.instances[i] < instance {
        Ordered(last.instances + instances, i, |last.instances|);
      }
      var next := last.(instances := last.instances + [instance]);
      InstancesHead(last.id, instances, rest);
      DecodeInstance(objects, last, instance, InstancesText(last.id, more) + rest, root);
      assert next.instances + more == last.instances + instances;
      DecodeInstances(objects, next, more, rest, root);
    }
  }

  lemma InstancesHead(id: uint16, instances: seq<uint16>, rest: bytes)
    requires instances != []
    ensures InstancesText(id, instances) + rest ==
      InstanceEntryText(id, instances[0]) + [COMMA] + (InstancesText(id, instances[1..]) + rest)
  {
    hide Digits;
    InstanceEntryIs(id, instances[0]);
  }

  lemma DecodeInstance(objects: seq<ClientObject>, last: ClientObject, instance: uint16, rest: bytes, root: Option<Root>)
    requires AllBelow(ObjectIds(objects), last.id) && last.id != Uri.UNSET
    requires AllBelow(last.instances, instance) && instance != Uri.UNSET
    ensures DecodeText(InstanceEntryText(last.id, instance) + [COMMA] + rest, State(objects + [last], root)) ==
      DecodeText(rest, State(objects + [last.(instances := last.instances + [instance])], root))
  {
    hide Digits, Entered, DecodeText, GetId, InstanceEntryText;
    InstanceEntryIs(last.id, instance);
    GetIdOfInstance(last.id, instance);
    EntersInstance(objects, last, instance);
    DecodeEntry(InstanceEntryText(last.id, instance), rest, State(objects + [last], root));
  }

  lemma InstanceEntryIs(id: uint16, instance: uint16)
    ensures Template(id) + Digits(instance) + PATH_END == InstanceEntryText(id, instance) + [COMMA]
    ensures IsEntry(InstanceEntryText(id, instance))
  {
    DigitsHaveNo(id, COMMA);
    DigitsHaveNo(instance, COMMA);
  }

  function ClientOf(o: Object): ClientObject {
    ClientObject(o.id, Version(o.major, o.minor), o.instances)
  }

  predicate ValidIds(o: Object) {
    o.id != Uri.UNSET && Uri.UNSET !in o.instances
  }

  lemma DecodeVersioned(o: Object, rest: bytes, objects: seq<ClientObject>, root: Option<Root>)
    requires Versioned(o) && ValidIds(o) && Sorted(o.instances) && AllBelow(ObjectIds(objects), o.id)
    ensures DecodeText(ObjectText(o) + rest, State(objects, root)) ==
      DecodeText(rest, State(objects + [ClientOf(o)], root))
  {
    hide Digits, Entered, DecodeText, GetId, AllBelow, VersionEntry, InstancesText;
    var v := Version(o.major, o.minor);
    var tail := InstancesText(o.id, o.instances) + rest;
    VersionEntryIs(o);
    GetIdOfVersion(o.id, v);
    EntersObject(objects, o.id, v);
    assert ObjectText(o) + rest == VersionEntry(o.id, v) + [COMMA] + tail;
    DecodeEntry(VersionEntry(o.id, v), tail, State(objects, root));
    assert [] + o.instances == o.instances;
    DecodeInstances(objects, ClientObject(o.id, v, []), o.instances, rest, root);
  }

  lemma DecodePlain(o: Object, rest: bytes, objects: seq<ClientObject>, root: Option<Root>)
    requires !Versioned(o) && o.instances == [] && ValidIds(o) && AllBelow(ObjectIds(objects), o.id)
    ensures DecodeText(ObjectText(o) + rest, State(objects, root)) ==
      DecodeText(rest, State(objects + [ClientOf(o)], root))
  {
    hide Digits, Entered, DecodeText, GetId, AllBelow, PlainEntry, InstancesText;
    PlainEntryIs(o.id);
    NoInstances(o.id);
    GetIdOfPlain(o.id);
    EntersObject(objects, o.id, Version(0, 0));
    assert ObjectText(o) + rest == PlainEntry(o.id) + [COMMA] + rest;
    DecodeEntry(PlainEntry(o.id), rest, State(objects, root));
  }

  lemma DecodeUnversioned(o: Object, rest: bytes, objects: seq<ClientObject>, root: Option<Root>)
    requires !Versioned(o) && o.instances != []
    requires ValidIds(o) && Sorted(o.instances) && AllBelow(ObjectIds(objects), o.id)
    ensures DecodeText(ObjectText(o) + rest, State(objects, root)) ==
      DecodeText(rest, State(objects + [ClientOf(o)], root))
  {
    hide Digits, Entered, DecodeText, GetId, AllBelow, InstanceEntryText, InstancesText;
    var v := Version(0, 0);
    var instance, more := o.instances[0], o.instances[1..];
    var left := InstancesText(o.id, more) + rest;
    InstancesHead(o.id, o.instances, rest);
    InstanceEntryIs(o.id, instance);
    GetIdOfInstance(o.id, instance);
    EntersFirstInstance(objects, o.id, instance);
    assert ObjectText(o) + rest == InstancesText(o.id, o.instances) + rest;
    DecodeEntry(InstanceEntryText(o.id, instance), left, State(objects, root));
    assert [instance] + more == o.instances;
    DecodeInstances(objects, ClientObject(o.id, v, [instance]), more, rest, root);
  }

  lemma DecodeObject(o: Object, rest: bytes, objects: seq<ClientObject>, root: Option<Root>)
    requires ValidIds(o) && Sorted(o.instances) && AllBelow(ObjectIds(objects), o.id)
    ensures DecodeText(ObjectText(o) + rest, State(objects, root)) ==
      DecodeText(rest, State(objects + [ClientOf(o)], root))
  {
    hide DecodeText, ObjectText;
    if Versioned(o) {
      DecodeVersioned(o, rest, objects, root);
    } else if o.instances == [] {
      DecodePlain(o, rest, objects, root);
    } else {
      DecodeUnversioned(o, rest, objects, root);
    }
  }

  lemma VersionEntryIs(o: Object)
    ensures VersionText(o) == VersionEntry(o.id, Version(o.major, o.minor)) + [COMMA]
    ensures IsEntry(VersionEntry(o.id, Version(o.major, o.minor)))
  {
    DigitsHaveNo(o.id, COMMA);
    DigitsHaveNo(o.major, COMMA);
    DigitsHaveNo(o.minor, COMMA);
  }

  lemma PlainEntryIs(id: uint16)
    ensures [LESS, SLASH] + Digits(id) + PATH_END == PlainEntry(id) + [COMMA]
    ensures IsEntry(PlainEntry(id))
  {
    DigitsHaveNo(id, COMMA);
  }

  // ---- the whole payload -----------------------------------------------------------------

  /** What a server should know afterwards: every object but Security, with version and instances. */
  function ClientObjects(objects: seq<Object>): seq<ClientObject> {
    if objects == [] then []
    else (if objects[0].id == SECURITY then [] else [ClientOf(objects[0])]) + ClientObjects(objects[1..])
  }

  /** A list of objects as the client keeps it: sorted by id, with sorted instances. */
  predicate SortedObjects(objects: seq<Object>) {
    && (forall i, j :: 0 <= i < j < |objects| ==> objects[i].id < objects[j].id)
    && (forall i :: 0 <= i < |objects| ==> Sorted(objects[i].instances))
  }

  /** No id but that of the Security object, which is not registered, is the reserved one. */
  predicate ValidObjects(objects: seq<Object>) {
    forall i :: 0 <= i < |objects| && objects[i].id != SECURITY ==> ValidIds(objects[i])
  }

  predicate BelowObjects(known: seq<ClientObject>, objects: seq<Object>) {
    forall i, j :: 0 <= i < |known| && 0 <= j < |objects| ==> known[i].id < objects[j].id
  }

  lemma FirstObject(objects: seq<Object>, known: seq<ClientObject>)
    requires objects != [] && SortedObjects(objects) && ValidObjects(objects) && BelowObjects(known, objects)
    ensures
      var o, more := objects[0], objects[1..];
      && SortedObjects(more) && ValidObjects(more)
      && BelowObjects(known, more) && BelowObjects(known + [ClientOf(o)], more)
      && AllBelow(ObjectIds(known), o.id) && Sorted(o.instances) && (o.id != SECURITY ==> ValidIds(o))
  {
    hide Sorted, ValidIds;
    assert forall i :: 0 <= i < |objects[1..]| ==> objects[1..][i] == objects[i + 1];
  }

  lemma DecodeNothing(st: State)
    ensures DecodeText([], st) == Some(st)
  {
  }

  lemma {:induction false} DecodeObjects(objects: seq<Object>, known: seq<ClientObject>, root: Option<Root>)
    requires SortedObjects(objects) && ValidObjects(objects) && BelowObjects(known, objects)
    ensures DecodeText(ObjectsText(objects), State(known, root)) == Some(State(known + ClientObjects(objects), root))
    decreases |objects|
  {
    hide DecodeText, ObjectText, Sorted, ValidIds, SortedObjects, ValidObjects, BelowObjects, AllBelow;
    if objects == [] {
      assert known + [] == known;
      DecodeNothing(State(known, root));
    } else {
      var o, more := objects[0], objects[1..];
      FirstObject(objects, known);
      if o.id == SECURITY {
        assert [] + ClientObjects(more) == ClientObjects(more) && [] + ObjectsText(more) == ObjectsText(more);
        DecodeObjects(more, known, root);
      } else {
        DecodeObject(o, ObjectsText(more), known, root);
        DecodeObjects(more, known + [ClientOf(o)], root);
        assert known + [ClientOf(o)] + ClientObjects(more) == known + ([ClientOf(o)] + ClientObjects(more));
      }
    }
  }

  lemma EndedBehind(a: bytes, b: bytes)
    requires Ended(b)
    ensures Ended(a + b)
  {
    assert (a + b)[|a + b| - 1] == b[|b| - 1] && (a + b)[|a + b| - 2] == b[|b| - 2];
  }

  lemma {:induction false} InstancesEnded(id: uint16, instances: seq<uint16>)
    requires instances != []
    ensures Ended(InstancesText(id, instances))
  {
    hide Digits;
    if |instances| == 1 {
      NoInstances(id);
      var text := Template(id) + Digits(instances[0]);
      assert InstancesText(id, instances) == text + PATH_END;
      EndedBehind(text, PATH_END);
    } else {
      InstancesEnded(id, instances[1..]);
      EndedBehind(Template(id) + Digits(instances[0]) + PATH_END, InstancesText(id, instances[1..]));
    }
  }

  lemma ObjectEnded(o: Object)
    ensures Ended(ObjectText(o))
  {
    hide Digits;
    if o.instances != [] {
      InstancesEnded(o.id, o.instances);
      EndedBehind(HeadText(o), InstancesText(o.id, o.instances));
    } else {
      NoInstances(o.id);
      assert ObjectText(o) == HeadText(o);
      if Versioned(o) {
        var minor := Digits(o.minor);
        DigitsHaveNo(o.minor, COMMA);
        DigitsHaveNo(o.minor, SPACE);
        assert HeadText(o)[|HeadText(o)| - 2] == minor[|minor| - 1];
      } else {
        EndedBehind([LESS, SLASH] + Digits(o.id), PATH_END);
      }
    }
  }

  lemma {:induction false} ObjectsEnded(objects: seq<Object>)
    ensures ObjectsText(objects) == [] || Ended(ObjectsText(objects))
  {
    hide ObjectText, Ended;
    if objects != [] {
      ObjectsEnded(objects[1..]);
      ObjectEnded(objects[0]);
      var head := if objects[0].id == SECURITY then [] else ObjectText(objects[0]);
      if ObjectsText(objects[1..]) == [] {
        assert head + [] == head;
      } else {
        EndedBehind(head, ObjectsText(objects[1..]));
      }
    }
  }

  lemma PayloadEnded(f: Formats, objects: seq<Object>)
    ensures Ended(PayloadText([], f, objects))
  {
    hide ObjectsText, ContentType;
    StartIsLink(f);
    ObjectsEnded(objects);
    ContentFollows(f);
    var start := StartText([], f);
    assert Ended(start) by {
      assert start[|start| - 2] == LinkEntry(f)[|LinkEntry(f)| - 1];
      assert COMMA !in ContentType(f);
    }
    if ObjectsText(objects) == [] {
      assert start + [] == start;
    } else {
      EndedBehind(start, ObjectsText(objects));
    }
  }

  lemma LinkIsEntry(f: Formats)
    ensures IsEntry(LinkEntry(f))
  {
    hide ContentType;
    ContentFollows(f);
  }

  // ---- the entries of a payload --------------------------------------------------------------

  function EntryText(e: Entry): bytes {
    match e
    case ObjectEntry(id, v) => if v == Version(0, 0) then PlainEntry(id) else VersionEntry(id, v)
    case InstanceEntry(id, instance) => InstanceEntryText(id, instance)
  }

  /** Entries, each with a comma behind it. */
  function Joined(es: seq<Entry>): bytes {
    if es == [] then [] else EntryText(es[0]) + [COMMA] + Joined(es[1..])
  }

  function InstanceEntries(id: uint16, instances: seq<uint16>): (es: seq<Entry>)
    ensures |es| == |instances| && forall i :: 0 <= i < |es| ==> es[i] == InstanceEntry(id, instances[i])
  {
    if instances == [] then [] else [InstanceEntry(id, instances[0])] + InstanceEntries(id, instances[1..])
  }

  function EntriesOf(o: Object): seq<Entry> {
    (if Versioned(o) || o.instances == [] then [ObjectEntry(o.id, Version(o.major, o.minor))] else [])
    + InstanceEntries(o.id, o.instances)
  }

  function AllEntries(objects: seq<Object>): seq<Entry> {
    if objects == [] then []
    else (if objects[0].id == SECURITY then [] else EntriesOf(objects[0])) + AllEntries(objects[1..])
  }

  lemma {:induction false} JoinedAppend(a: seq<Entry>, b: seq<Entry>)
    ensures Joined(a + b) == Joined(a) + Joined(b)
  {
    hide EntryText;
    if a == [] {
      assert a + b == b;
    } else {
      assert (a + b)[1..] == a[1..] + b;
      JoinedAppend(a[1..], b);
    }
  }

  lemma {:induction false} InstancesJoined(id: uint16, instances: seq<uint16>)
    ensures InstancesText(id, instances) == Joined(InstanceEntries(id, instances))
  {
    hide InstanceEntryText, InstancesText;
    if instances == [] {
      NoInstances(id);
    } else {
      InstancesHead(id, instances, []);
      InstancesJoined(id, instances[1..]);
      assert InstanceEntries(id, instances)[1..] == InstanceEntries(id, instances[1..]);
      assert InstancesText(id, instances) + [] == InstancesText(id, instances);
      assert InstancesText(id, instances[1..]) + [] == InstancesText(id, instances[1..]);
    }
  }

  lemma ObjectJoined(o: Object)
    ensures ObjectText(o) == Joined(EntriesOf(o))
  {
    hide PlainEntry, VersionEntry, InstancesText, VersionText;
    InstancesJoined(o.id, o.instances);
    VersionEntryIs(o);
    PlainEntryIs(o.id);
    var es := InstanceEntries(o.id, o.instances);
    if Versioned(o) || o.instances == [] {
      var e := ObjectEntry(o.id, Version(o.major, o.minor));
      JoinedAppend([e], es);
      assert Joined([e]) == EntryText(e) + [COMMA];
    } else {
      assert [] + es == es && HeadText(o) == [];
    }
  }

  lemma {:induction false} ObjectsJoined(objects: seq<Object>)
    ensures ObjectsText(objects) == Joined(AllEntries(objects))
  {
    hide ObjectText, EntriesOf, Joined;
    if objects == [] {
      assert Joined([]) == [] by { NothingJoined(); }
    } else {
      ObjectsJoined(objects[1..]);
      ObjectJoined(objects[0]);
      var more := AllEntries(objects[1..]);
      JoinedAppend(EntriesOf(objects[0]), more);
      assert [] + more == more && [] + Joined(more) == Joined(more);
    }
  }

  lemma NothingJoined()
    ensures Joined([]) == []
  {
  }

  /** The payload is the link and the entries, without the last comma. */
  lemma PayloadIs(f: Formats, objects: seq<Object>)
    ensures PayloadText([], f, objects) == LinkEntry(f) + [COMMA] + Joined(AllEntries(objects))
  {
    hide LinkEntry, Joined, AllEntries, ObjectsText;
    StartIsLink(f);
    ObjectsJoined(objects);
  }

  lemma EntryShape(e: Entry)
    ensures
      var text := EntryText(e);
      && 2 <= |text| <= 30 && text[0] == LESS && LESS !in text[1..] && COMMA !in text && SPACE !in text
    ensures forall j :: 0 < j < |EntryText(e)| ==> EntryText(e)[j] != LESS
  {
    EntryBytes(e);
    assert forall j :: 0 < j < |EntryText(e)| ==> EntryText(e)[j] == EntryText(e)[1..][j - 1];
  }

  lemma EntryBytes(e: Entry)
    ensures
      var text := EntryText(e);
      && 2 <= |text| <= 30 && text[0] == LESS && LESS !in text[1..] && COMMA !in text && SPACE !in text
  {
    hide Digits;
    PlainDigits(e.id);
    Id5(e.id);
    if e.InstanceEntry? {
      Id5(e.instance);
      PlainDigits(e.instance);
    } else {
      Version3(e.version.major);
      Version3(e.version.minor);
      PlainDigits(e.version.major);
      PlainDigits(e.version.minor);
    }
  }

  lemma PlainDigits(n: nat)
    ensures LESS !in Digits(n) && COMMA !in Digits(n) && SPACE !in Digits(n)
  {
    DigitsHaveNo(n, COMMA);
    DigitsHaveNo(n, SPACE);
    DigitsHaveNo(n, LESS);
  }

  lemma LinkShape(f: Formats)
    ensures
      var text := LinkEntry(f);
      && 4 <= |text| <= 30 && text[0] == LESS && text[1] == SLASH && text[2] == GREATER
      && (forall j :: 0 < j < |text| ==> text[j] != LESS) && COMMA !in text && SPACE !in text
  {
    hide ContentType;
    ContentShape(f);
  }

  lemma ContentShape(f: Formats)
    ensures |ContentType(f)| <= 9 && forall j :: 0 <= j < |ContentType(f)| ==> ContentType(f)[j] !in {LESS, COMMA, SPACE}
  {
  }

  lemma {:induction false} JoinedHasNoSpace(es: seq<Entry>)
    ensures SPACE !in Joined(es)
  {
    hide EntryText;
    if es != [] {
      EntryShape(es[0]);
      JoinedHasNoSpace(es[1..]);
    }
  }

  /** The last entry, its comma left out, behind everything before it. */
  lemma LastEntry(f: Formats, objects: seq<Object>) returns (front: bytes)
    requires AllEntries(objects) != []
    ensures
      var es, text := AllEntries(objects), PayloadText([], f, objects);
      && front == LinkEntry(f) + [COMMA] + Joined(es[..|es| - 1])
      && text[..|text| - 1] == front + EntryText(es[|es| - 1])
      && front[|front| - 1] == COMMA
  {
    hide EntryText, LinkEntry, PayloadText, AllEntries;
    PayloadIs(f, objects);
    var es, text := AllEntries(objects), PayloadText([], f, objects);
    var n := |es| - 1;
    var last, before := es[n], Joined(es[..n]);
    assert es == es[..n] + [last];
    JoinedAppend(es[..n], [last]);
    assert Joined([last]) == EntryText(last) + [COMMA];
    front := LinkEntry(f) + [COMMA] + before;
    assert text == front + EntryText(last) + [COMMA];
    if n > 0 {
      assert es[..n] == es[..n - 1] + [es[n - 1]];
      JoinedAppend(es[..n - 1], [es[n - 1]]);
      assert Joined([es[n - 1]]) == EntryText(es[n - 1]) + [COMMA];
      assert before[|before| - 1] == COMMA;
    } else {
      assert es[..0] == [] && before == [];
    }
  }

  /** There are no spaces, and the last entry is short. */
  lemma PayloadShape(f: Formats, objects: seq<Object>)
    ensures |PayloadText([], f, objects)| >= 1
    ensures var text := PayloadText([], f, objects); SPACE !in text && LastFits(text[..|text| - 1])
  {
    hide EntryText, LinkEntry, PayloadText, AllEntries;
    PayloadIs(f, objects);
    LinkShape(f);
    var es, text := AllEntries(objects), PayloadText([], f, objects);
    JoinedHasNoSpace(es);
    if es == [] {
      assert Joined(es) == [];
    } else {
      var front := LastEntry(f, objects);
      EntryShape(es[|es| - 1]);
      var payload := text[..|text| - 1];
      assert payload[|front| - 1] == COMMA;
    }
  }

  /** The server reads back what the client printed, without the comma at the end, as long as every entry
      starts within 65536 bytes. */
  lemma PayloadRoundTrip(f: Formats, objects: seq<Object>)
    requires SortedObjects(objects) && ValidObjects(objects)
    requires var text := PayloadText([], f, objects); StartsFit(text[..|text| - 1])
    ensures
      var text := PayloadText([], f, objects);
      Decode(text[..|text| - 1]) == Some(Registration(ClientObjects(objects), f, []))
  {
    hide DecodeText, DecodeFrom, Applied, ObjectsText, Ended, IsEntry, LinkEntry, StartText, StartsFit, LastFits;
    var text := PayloadText([], f, objects);
    PayloadEnded(f, objects);
    TwoLong(text);
    var payload, st := text[..|text| - 1], State([], None);
    assert payload[0..] == payload;
    PayloadShape(f, objects);
    DecodeFromIs(payload, 0, st);
    LastComma(text, st);
    StartIsLink(f);
    LinkIsEntry(f);
    AppliedLink(f, st);
    DecodeEntry(LinkEntry(f), ObjectsText(objects), st);
    var root := Some(Root(f, []));
    DecodeObjects(objects, [], root);
    assert [] + ClientObjects(objects) == ClientObjects(objects);
  }

  lemma TwoLong(s: bytes)
    requires Ended(s)
    ensures |s| >= 2
  {
  }

  lemma AppliedLink(f: Formats, st: State)
    requires st.root == None
    ensures Applied(st, LinkEntry(f)) == Some(st.(root := Some(Root(f, []))))
  {
    hide GetId, ParseLink, LinkEntry;
    LinkIsNoObject(f);
    ParsesLink(f);
  }

  // ---- the reserved id -------------------------------------------------------------------

  predicate NoReservedId(objects: seq<ClientObject>) {
    forall i :: 0 <= i < |objects| ==> objects[i].id != Uri.UNSET && Uri.UNSET !in objects[i].instances
  }

  lemma WithObjectIsValid(objects: seq<ClientObject>, id: uint16)
    requires NoReservedId(objects) && id != Uri.UNSET
    ensures NoReservedId(WithObject(objects, id))
  {
    hide Position, InsertPos;
    var after := WithObject(objects, id);
    var k := InsertPos(ObjectIds(objects), id);
    if after != objects {
      forall i | 0 <= i < |after| ensures after[i].id != Uri.UNSET && Uri.UNSET !in after[i].instances {
        assert after[i] == if i < k then objects[i] else if i == k then ClientObject(id, Version(0, 0), []) else objects[i - 1];
      }
    }
  }

  lemma WithInstanceIsValid(instances: seq<uint16>, id: uint16)
    requires Uri.UNSET !in instances && id != Uri.UNSET
    ensures Uri.UNSET !in WithInstance(instances, id)
  {
    hide Position, InsertPos;
  }

  lemma EnteredIsValid(objects: seq<ClientObject>, entry: bytes)
    requires NoReservedId(objects) && GetId(entry).Some?
    ensures NoReservedId(Entered(objects, GetId(entry).value))
  {
    GetIdIsValid(entry);
    hide GetId, Position, WithObject, WithInstance;
    var e := GetId(entry).value;
    WithObjectIsValid(objects, e.id);
    var after := WithObject(objects, e.id);
    var p := Position(ObjectIds(after), e.id);
    if p.Some? && e.InstanceEntry? {
      WithInstanceIsValid(after[p.value].instances, e.instance);
    }
  }

  lemma GetIdIsValid(entry: bytes)
    requires GetId(entry).Some?
    ensures GetId(entry).value.id != Uri.UNSET
    ensures GetId(entry).value.InstanceEntry? ==> GetId(entry).value.instance != Uri.UNSET
  {
    hide UriPath.Field, FindByte, ReadAttributes, TrimRight;
  }

  lemma {:induction false} DecodedIsValid(payload: bytes, index: nat, st: State)
    requires index <= |payload| && NoReservedId(st.objects)
    ensures DecodeFrom(payload, index, st).Some? ==> NoReservedId(DecodeFrom(payload, index, st).value.objects)
    decreases |payload| - index
  {
    hide DecodeFrom, Entered, NoReservedId, Slice, EntryStart, EntryEnd, GetId, ParseLink;
    DecodeFromStep(payload, index, st);
    var from := EntryStart(payload, index);
    if from < |payload| {
      var to := EntryEnd(payload, from);
      var entry := Slice(payload, from, to);
      var next := Applied(st, entry);
      if next.Some? {
        if GetId(entry).Some? { EnteredIsValid(st.objects, entry); }
        if to < |payload| {
          DecodedIsValid(payload, to + 1, next.value);
        } else {
          DecodeFromStep(payload, |payload|, next.value);
        }
      }
    }
  }

  lemma {:induction false} ReservedStays(objects: seq<Object>)
    ensures NoReservedId(ClientObjects(objects)) <==> ValidObjects(objects)
  {
    hide NoReservedId;
    if objects == [] {
      EmptyIsValid();
    } else {
      var more := objects[1..];
      ReservedStays(more);
      assert forall i :: 0 <= i < |more| ==> more[i] == objects[i + 1];
      var rest := ClientObjects(more);
      if objects[0].id == SECURITY {
        assert [] + rest == rest;
      } else {
        FirstReserved(ClientOf(objects[0]), rest);
      }
    }
  }

  lemma FirstReserved(o: ClientObject, rest: seq<ClientObject>)
    ensures NoReservedId([o] + rest) <==> o.id != Uri.UNSET && Uri.UNSET !in o.instances && NoReservedId(rest)
  {
    var all := [o] + rest;
    assert all[0] == o && forall i :: 0 <= i < |rest| ==> rest[i] == all[i + 1];
  }

  // ---- entries that are lost ------------------------------------------------------------------

  /** A byte that starts an entry, in entries that are joined, is the start of one of them. */
  lemma {:induction false} FindsEntry(es: seq<Entry>, k: nat) returns (p: nat)
    requires k < |Joined(es)| && Joined(es)[k] == LESS
    ensures p < |es| && |Joined(es[..p])| == k
    ensures Joined(es)[k..] == EntryText(es[p]) + [COMMA] + Joined(es[p + 1..])
  {
    hide EntryText;
    var text := EntryText(es[0]);
    EntryShape(es[0]);
    if k == 0 {
      p := 0;
      assert es[..0] == [];
    } else {
      var j: nat := k - |text| - 1;
      assert Joined(es)[k] == Joined(es[1..])[j];
      var q := FindsEntry(es[1..], j);
      p := q + 1;
      assert es[..p][1..] == es[1..][..q] && es[p + 1..] == es[1..][q + 1..];
      assert Joined(es)[k..] == Joined(es[1..])[j..];
    }
  }

  /** What is found is what the entry names; a version may be cut short. */
  predicate Names(found: Entry, e: Entry) {
    match e
    case ObjectEntry(id, _) => found.ObjectEntry? && found.id == id
    case InstanceEntry(_, _) => found == e
  }

  predicate ValidEntry(e: Entry) {
    e.id != Uri.UNSET && (e.InstanceEntry? ==> e.instance != Uri.UNSET)
  }

  /** Bytes from the start of an entry on, cut off anywhere, are read as that entry or as none. */
  lemma NamesOnly(e: Entry, rest: bytes, u: bytes)
    requires ValidEntry(e) && u <= EntryText(e) + [COMMA] + rest && SPACE !in u
    ensures GetId(u).Some? ==> Names(GetId(u).value, e)
  {
    hide GetId, Digits, EntryText;
    match e {
      case ObjectEntry(id, v) =>
        var tail := ObjectTail(e);
        HeadOnly(id, GREATER, tail + [COMMA] + rest, u);
      case InstanceEntry(id, instance) =>
        var tail := Digits(instance) + [GREATER] + ([COMMA] + rest);
        InstanceTail(id, instance, rest);
        HeadOnly(id, SLASH, tail, u);
        if GetId(u).Some? {
          InstanceOnly(id, instance, [COMMA] + rest, u[3 + |Digits(id)|..]);
        }
    }
  }

  lemma ObjectTail(e: Entry) returns (tail: bytes)
    requires e.ObjectEntry?
    ensures forall rest: bytes ::
      EntryText(e) + [COMMA] + rest == [LESS, SLASH] + Digits(e.id) + [GREATER] + (tail + [COMMA] + rest)
  {
    hide Digits;
    tail := EntryText(e)[3 + |Digits(e.id)|..];
    assert EntryText(e) == [LESS, SLASH] + Digits(e.id) + [GREATER] + tail;
  }

  lemma InstanceTail(id: uint16, instance: uint16, rest: bytes)
    ensures EntryText(InstanceEntry(id, instance)) + [COMMA] + rest ==
      [LESS, SLASH] + Digits(id) + [SLASH] + (Digits(instance) + [GREATER] + ([COMMA] + rest))
  {
    hide Digits;
  }

  lemma HeadOnly(id: uint16, c: byte, tail: bytes, u: bytes)
    requires id != Uri.UNSET && c in {SLASH, GREATER} && u <= [LESS, SLASH] + Digits(id) + [c] + tail && SPACE !in u
    ensures GetId(u).Some? ==>
      var n := 3 + |Digits(id)|;
      && n <= |u| && u[n..] <= tail
      && GetId(u) == if c == SLASH then GetInstance(id, u[n..]) else AsObject(id, ReadAttributes(u[n..]))
  {
    hide Digits, GetInstance, AsObject, ReadAttributes, FindByte, UriPath.Field;
    var d := Digits(id);
    var whole := [LESS, SLASH] + d + [c] + tail;
    var n := 3 + |d|;
    assert TrimRight(u) == u by { if u != [] { assert u[|u| - 1] in u; } }
    if |u| >= n {
      hide GetId, TrimRight;
      var v := u[n..];
      assert u == whole[..|u|] && v == tail[..|v|];
      assert u == [LESS, SLASH] + d + [c] + v;
      assert ([c] + v)[|v|] == u[|u| - 1] && u[|u| - 1] in u;
      GetIdOf(id, c, v);
    } else if |u| > 2 {
      var path := u[2..];
      assert path == d[..|path|];
      DigitsHaveNo(id, SLASH);
      DigitsHaveNo(id, GREATER);
      Absent(path, SLASH);
      Absent(path, GREATER);
    }
  }

  lemma Absent(s: bytes, c: byte)
    requires c !in s
    ensures FindByte(s, c) == |s|
  {
    assert forall i :: 0 <= i < |s| ==> s[i] != c;
  }

  lemma InstanceOnly(id: uint16, instance: uint16, more: bytes, v: bytes)
    requires instance != Uri.UNSET && v <= Digits(instance) + [GREATER] + more
    ensures GetInstance(id, v).Some? ==> GetInstance(id, v).value == InstanceEntry(id, instance)
  {
    hide Digits, UriPath.Field, ReadAttributes, FindByte;
    var d := Digits(instance);
    DigitsHaveNo(instance, GREATER);
    if |v| <= |d| {
      assert v == d[..|v|];
      Absent(v, GREATER);
    } else {
      var w := v[|d| + 1..];
      assert v == d + ([GREATER] + w);
      FindBehind(d, [GREATER] + w, GREATER);
      FindAtStart(GREATER, w);
      UriPath.FieldOfDigits(instance);
      assert v[..|d|] == d;
    }
  }

  /** What an entry adds: its object, or its instance. */
  predicate Has(objects: seq<ClientObject>, x: Entry) {
    match x
    case ObjectEntry(id, _) => exists i :: 0 <= i < |objects| && objects[i].id == id
    case InstanceEntry(id, instance) => exists i :: 0 <= i < |objects| && objects[i].id == id && instance in objects[i].instances
  }

  predicate Gives(e: Entry, x: Entry) {
    match x
    case ObjectEntry(id, _) => e.id == id
    case InstanceEntry(_, _) => e == x
  }

  lemma EnteredHas(objects: seq<ClientObject>, e: Entry, x: Entry)
    requires Has(Entered(objects, e), x) && !Gives(e, x)
    ensures Has(objects, x)
  {
    hide Position, InsertPos;
    var added := WithObject(objects, e.id);
    var after := Entered(objects, e);
    var k := InsertPos(ObjectIds(objects), e.id);
    var p := Position(ObjectIds(added), e.id);
    assert |after| == |added|;
    var i :| 0 <= i < |after| && after[i].id == x.id && (x.InstanceEntry? ==> x.instance in after[i].instances);
    assert after[i].id == added[i].id;
    assert added == objects || added[i] == if i < k then objects[i] else if i == k then ClientObject(e.id, Version(0, 0), []) else objects[i - 1];
    var j := if added == objects || i < k then i else i - 1;
    if x.InstanceEntry? && p == Some(i) && e.InstanceEntry? {
      InstanceStays(added[i].instances, e.instance, x.instance);
    }
    assert added != objects ==> i != k || (x.InstanceEntry? && e.id == x.id);
  }

  lemma InstanceStays(instances: seq<uint16>, id: uint16, x: uint16)
    requires x in WithInstance(instances, id) && x != id
    ensures x in instances
  {
    hide Position, InsertPos;
  }

  /** The entry is not given by any other one. */
  predicate New(e: Entry, x: Entry) {
    match x
    case ObjectEntry(id, _) => e.id != id
    case InstanceEntry(_, _) => e != x
  }

  lemma {:induction false} EntriesAbove(objects: seq<Object>, low: uint16, i: nat)
    requires i < |AllEntries(objects)| && forall j :: 0 <= j < |objects| ==> low < objects[j].id
    ensures low < AllEntries(objects)[i].id
    decreases |objects|
  {
    var o, more := objects[0], objects[1..];
    var here := if o.id == SECURITY then [] else EntriesOf(o);
    if i >= |here| {
      assert forall j :: 0 <= j < |more| ==> more[j] == objects[j + 1];
      EntriesAbove(more, low, i - |here|);
    }
  }

  /** In a sorted list the last entry is new. */
  lemma {:induction false} LastIsNew(objects: seq<Object>, i: nat)
    requires SortedObjects(objects) && i + 1 < |AllEntries(objects)|
    ensures var es := AllEntries(objects); New(es[i], es[|es| - 1])
    decreases |objects|
  {
    hide EntriesOf, Sorted;
    var o, more := objects[0], objects[1..];
    assert forall j :: 0 <= j < |more| ==> more[j] == objects[j + 1];
    var here, es := if o.id == SECURITY then [] else EntriesOf(o), AllEntries(objects);
    var rest := AllEntries(more);
    if i >= |here| {
      LastIsNew(more, i - |here|);
    } else if rest != [] {
      EntriesAbove(more, o.id, |rest| - 1);
      OwnEntry(o, i);
      assert es[|es| - 1] == rest[|rest| - 1];
    } else {
      assert es == here;
      LastOfObject(o, i);
    }
  }

  lemma OwnEntry(o: Object, i: nat)
    requires i < |EntriesOf(o)|
    ensures EntriesOf(o)[i].id == o.id
  {
  }

  lemma LastOfObject(o: Object, i: nat)
    requires Sorted(o.instances) && i + 1 < |EntriesOf(o)|
    ensures var es := EntriesOf(o); New(es[i], es[|es| - 1])
  {
    var n := |o.instances|;
    var head := |EntriesOf(o)| - n;
    if i >= head {
      Ordered(o.instances, i - head, n - 1);
    }
  }

  lemma {:induction false} EntriesValid(objects: seq<Object>, i: nat)
    requires ValidObjects(objects) && i < |AllEntries(objects)|
    ensures ValidEntry(AllEntries(objects)[i])
    decreases |objects|
  {
    var o, more := objects[0], objects[1..];
    assert forall j :: 0 <= j < |more| ==> more[j] == objects[j + 1];
    var here := if o.id == SECURITY then [] else EntriesOf(o);
    if i >= |here| { EntriesValid(more, i - |here|); }
  }

  /** What is registered includes what every entry adds. */
  lemma {:induction false} Expected(objects: seq<Object>, i: nat)
    requires i < |AllEntries(objects)|
    ensures Has(ClientObjects(objects), AllEntries(objects)[i])
    decreases |objects|
  {
    hide EntriesOf, Has;
    var o, more := objects[0], objects[1..];
    var here := if o.id == SECURITY then [] else EntriesOf(o);
    var client := if o.id == SECURITY then [] else [ClientOf(o)];
    if i >= |here| {
      Expected(more, i - |here|);
      HasBehind(client, ClientObjects(more), AllEntries(more)[i - |here|]);
    } else {
      HasOwn(o, ClientObjects(more), i);
    }
  }

  lemma HasBehind(front: seq<ClientObject>, rest: seq<ClientObject>, x: Entry)
    requires Has(rest, x)
    ensures Has(front + rest, x)
  {
    var i :| 0 <= i < |rest| && rest[i].id == x.id && (x.InstanceEntry? ==> x.instance in rest[i].instances);
    assert (front + rest)[|front| + i] == rest[i];
  }

  lemma HasOwn(o: Object, rest: seq<ClientObject>, i: nat)
    requires i < |EntriesOf(o)|
    ensures Has([ClientOf(o)] + rest, EntriesOf(o)[i])
  {
    var x := EntriesOf(o)[i];
    assert x.InstanceEntry? ==> x.instance in o.instances;
    assert ([ClientOf(o)] + rest)[0] == ClientOf(o);
  }

  /** A slice of the payload that starts early enough is never read as the last entry. */
  lemma SliceGives(f: Formats, objects: seq<Object>, from: nat, to: nat)
    requires SortedObjects(objects) && ValidObjects(objects) && AllEntries(objects) != []
    requires |PayloadText([], f, objects)| >= 1
    requires from <= to <= |PayloadText([], f, objects)| - 1
    requires |LinkEntry(f)| + 1 + |Joined(AllEntries(objects)[..|AllEntries(objects)| - 1])| > 0xFFFF
    ensures
      var es, text := AllEntries(objects), PayloadText([], f, objects);
      var u := Slice(text[..|text| - 1], from, to);
      GetId(u).Some? ==> !Gives(GetId(u).value, es[|es| - 1])
  {
    hide GetId, EntryText, LinkEntry, PayloadText, AllEntries, SortedObjects, ValidObjects, Joined;
    PayloadIs(f, objects);
    PayloadShape(f, objects);
    LinkShape(f);
    var es, text := AllEntries(objects), PayloadText([], f, objects);
    var payload, start, length := text[..|text| - 1], from % 0x1_0000, (to - from) % 0x1_0000;
    var u := Slice(payload, from, to);
    assert u == text[start..start + length];
    if u != [] && u[0] == LESS {
      var link := |LinkEntry(f)|;
      if start <= link {
        LinkNamesNothing(f, [COMMA] + Joined(es), u);
      } else {
        var k: nat := start - link - 1;
        assert text[start] == Joined(es)[k];
        var p := FindsEntry(es, k);
        assert text[start..] == Joined(es)[k..];
        assert u == text[start..][..length];
        EntriesValid(objects, p);
        assert SPACE !in u;
        NamesOnly(es[p], Joined(es[p + 1..]), u);
        assert start == link + 1 + k;
        NotLast(es, p);
        LastIsNew(objects, p);
      }
    } else {
      NothingNamed(u);
    }
  }

  lemma NotLast(es: seq<Entry>, p: nat)
    requires p < |es| && |Joined(es[..p])| < |Joined(es[..|es| - 1])|
    ensures p + 1 < |es|
  {
  }

  lemma NothingNamed(u: bytes)
    requires u == [] || u[0] != LESS
    ensures GetId(u) == None
  {
    hide FindByte, UriPath.Field;
  }

  lemma LinkNamesNothing(f: Formats, rest: bytes, u: bytes)
    requires u <= LinkEntry(f) + rest && SPACE !in u
    ensures GetId(u) == None
  {
    hide FindByte, UriPath.Field, LinkEntry;
    LinkShape(f);
    assert TrimRight(u) == u by { if u != [] { assert u[|u| - 1] in u; } }
    if |u| > 2 {
      assert u[2..][0] == GREATER;
      FindFirst(u[2..], GREATER);
    } else if |u| == 2 {
      assert u[2..] == [];
    }
  }

  /** The last entry is never entered, wherever and in whatever state the parser goes on. */
  lemma {:induction false} NeverEntered(f: Formats, objects: seq<Object>, index: nat, st: State)
    requires SortedObjects(objects) && ValidObjects(objects) && AllEntries(objects) != []
    requires |PayloadText([], f, objects)| >= 1
    requires |LinkEntry(f)| + 1 + |Joined(AllEntries(objects)[..|AllEntries(objects)| - 1])| > 0xFFFF
    requires var es := AllEntries(objects); !Has(st.objects, es[|es| - 1])
    ensures
      var es, text := AllEntries(objects), PayloadText([], f, objects);
      var payload := text[..|text| - 1];
      index <= |payload| && DecodeFrom(payload, index, st).Some? ==> !Has(DecodeFrom(payload, index, st).value.objects, es[|es| - 1])
    decreases |PayloadText([], f, objects)| - index
  {
    hide DecodeFrom, Entered, Slice, EntryStart, EntryEnd, GetId, ParseLink, PayloadText, AllEntries, SortedObjects, ValidObjects, Has, Gives, Joined, LinkEntry;
    var es, text := AllEntries(objects), PayloadText([], f, objects);
    var payload, x := text[..|text| - 1], es[|es| - 1];
    if index <= |payload| {
      DecodeFromStep(payload, index, st);
      var from := EntryStart(payload, index);
      if from < |payload| {
        var to := EntryEnd(payload, from);
        var entry := Slice(payload, from, to);
        var next := Applied(st, entry);
        SliceGives(f, objects, from, to);
        if next.Some? {
          if GetId(entry).Some? && Has(next.value.objects, x) { EnteredHas(st.objects, GetId(entry).value, x); }
          if to < |payload| {
            NeverEntered(f, objects, to + 1, next.value);
          } else {
            DecodeFromStep(payload, |payload|, next.value);
          }
        }
      }
    }
  }

  /** When an entry starts behind the first 65536 bytes, the payload is refused or its last entry is lost. */
  lemma LateEntryIsLost(f: Formats, objects: seq<Object>)
    requires SortedObjects(objects) && ValidObjects(objects) && |PayloadText([], f, objects)| >= 1
    requires var text := PayloadText([], f, objects); !StartsFit(text[..|text| - 1])
    ensures
      var es, text := AllEntries(objects), PayloadText([], f, objects);
      var r := Decode(text[..|text| - 1]);
      && es != [] && Has(ClientObjects(objects), es[|es| - 1])
      && (r.Some? ==> !Has(r.value.objects, es[|es| - 1]))
  {
    hide DecodeFrom, PayloadText, AllEntries, ClientObjects, SortedObjects, ValidObjects, Joined, LinkEntry, EntryText;
    var es, text := AllEntries(objects), PayloadText([], f, objects);
    var payload, st := text[..|text| - 1], State([], None);
    PayloadIs(f, objects);
    LinkShape(f);
    if es == [] {
      assert Joined(es) == [] by { NothingJoined(); }
    } else {
      var front := LastEntry(f, objects);
      EntryShape(es[|es| - 1]);
      var k :| 0xFFFF <= k < |payload| && payload[k] == COMMA;
      assert forall j :: |front| <= j < |payload| ==> payload[j] == EntryText(es[|es| - 1])[j - |front|];
      NeverEntered(f, objects, 0, st);
      Expected(objects, |es| - 1);
    }
  }

  /** The server reads back the objects, versions and instances that the client registers exactly if
      none of their ids is the reserved one and every entry starts within 65536 bytes: behind that, the
      16 bits of its position wrap around, and what stands there instead never makes up for the entry. */
  lemma PayloadRoundTripIff(f: Formats, objects: seq<Object>)
    requires SortedObjects(objects)
    ensures |PayloadText([], f, objects)| >= 1
    ensures
      var text := PayloadText([], f, objects);
      var payload := text[..|text| - 1];
      Decode(payload) == Some(Registration(ClientObjects(objects), f, [])) <==>
        ValidObjects(objects) && forall k :: 0xFFFF <= k < |payload| ==> payload[k] != COMMA
  {
    hide DecodeFrom, PayloadText, SortedObjects, ClientObjects, NoReservedId, ValidObjects;
    var text := PayloadText([], f, objects);
    PayloadEnded(f, objects);
    TwoLong(text);
    var payload := text[..|text| - 1];
    ReservedStays(objects);
    assert NoReservedId([]) by { EmptyIsValid(); }
    DecodedIsValid(payload, 0, State([], None));
    if ValidObjects(objects) {
      if StartsFit(payload) { PayloadRoundTrip(f, objects); } else { LateEntryIsLost(f, objects); }
    }
  }

  lemma EmptyIsValid()
    ensures NoReservedId([])
  {
  }
}
