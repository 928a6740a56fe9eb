/** The loops of registration.c that read a registration payload, against the functions of the
    parser. The C code advances pointers; here `data` is what is left. */
module RegisterReader {
  import opened Bytes
  import opened Text
  import opened RegisterPayload
  import opened RegisterParser
  import opened SortedList
  import Uri
  import UriPath

  method Scan(s: bytes, c: byte) returns (k: nat)
    ensures k == FindByte(s, c)
  {
    k := 0;
    while k < |s| && s[k] != c
      invariant k <= |s| && FindByte(s, c) == k + FindByte(s[k..], c)
    {
      assert s[k..][0] == s[k] && s[k..][1..] == s[k + 1..];
      k := k + 1;
    }
    assert k < |s| ==> s[k..][0] == s[k];
  }

  method SkipSpaces(s: bytes) returns (k: nat)
    ensures k == Spaces(s)
  {
    k := 0;
    while k < |s| && s[k] == SPACE
      invariant k <= |s| && Spaces(s) == k + Spaces(s[k..])
    {
      assert s[k..][0] == s[k] && s[k..][1..] == s[k + 1..];
      k := k + 1;
    }
    assert k < |s| ==> s[k..][0] == s[k];
  }

  method TrimEnd(s: bytes) returns (r: bytes)
    ensures r == TrimRight(s)
  {
    var length := |s|;
    assert s[..length] == s;
    while length > 0 && s[length - 1] == SPACE
      invariant length <= |s| && TrimRight(s) == TrimRight(s[..length])
    {
      assert s[..length][..length - 1] == s[..length - 1];
      length := length - 1;
    }
    r := s[..length];
  }

  method ScanBack(s: bytes, c: byte) returns (index: nat)
    requires s != []
    ensures index == FindLast(s, c)
  {
    index := |s| - 1;
    assert s[..|s|] == s;
    while index > 0 && s[index] != c
      invariant index < |s| && FindLast(s, c) == FindLast(s[..index + 1], c)
    {
      assert s[..index + 1][..index] == s[..index] && s[..index + 1][index] == s[index];
      index := index - 1;
    }
    assert s[..index + 1][index] == s[index];
  }

  /** The version attribute of prv_getId, with its quotes. */
  method ParseVersion(a: bytes) returns (v: Option<Version>)
    ensures v == ReadVersion(a)
  {
    hide ReadNumbers;
    if |a| < 6 { return None; }
    var text := a;
    if text[4] == QUOTE {
      text := text[1..];
    }
    if text[|text| - 1] == QUOTE {
      text := text[..|text| - 1];
    }
    v := ParseNumbers(text);
  }

  method ParseNumbers(text: bytes) returns (v: Option<Version>)
    ensures v == ReadNumbers(text)
  {
    hide FindByte, TextToUInt;
    if |text| < 6 { return None; }
    var dot := Scan(text[5..], DOT);
    dot := dot + 5;
    if dot > |text| - 2 { return None; }
    var major := ReadUInt(text[4..dot]);
    if major.None? || major.value > 0xFF { return None; }
    var minor := ReadUInt(text[dot + 1..]);
    if minor.None? || minor.value > 0xFF { return None; }
    v := Some(Version(major.value, minor.value));
  }

  /** The attribute loop of prv_getId. */
  method ParseAttributes(d: bytes) returns (v: Option<Version>)
    ensures v == Attributes(d, Version(0, 0))
  {
    hide FindByte, Spaces, ReadVersion;
    var data, version := d, Version(0, 0);
    while |data| > 0
      invariant Attributes(data, version) == Attributes(d, Version(0, 0))
      decreases |data|
    {
      var spaces := SkipSpaces(data);
      data := data[spaces..];
      if data == [] { break; }
      var limit := Scan(data, SEMICOLON);
      ghost var rest := if limit < |data| then data[limit + 1..] else [];
      if limit > 4 && data[..4] == VERSION_KEY {
        if version != Version(0, 0) { return None; }
        var read := ParseVersion(data[..limit]);
        if read.None? { return None; }
        version := read.value;
      }
      if limit < |data| {
        limit := limit + 1;
      }
      data := data[limit..];
      assert data == rest;
    }
    v := Some(version);
  }

  method ParseRest(s: bytes) returns (v: Option<Version>)
    ensures v == ReadAttributes(s)
  {
    if |s| > 1 && s[0] == SEMICOLON {
      v := ParseAttributes(s[1..]);
    } else {
      v := Some(Version(0, 0));
    }
  }

  /** The part of prv_getId behind the slash that follows the object id. */
  method ParseInstance(id: uint16, data: bytes) returns (e: Option<Entry>)
    ensures e == GetInstance(id, data)
  {
    hide FindByte, ReadAttributes, UriPath.Field;
    var limit := Scan(data, GREATER);
    if limit >= |data| { return None; }
    if limit > 0 {
      var instance := UriPath.ReadField(data[..limit]);
      if instance.None? { return None; }
      var ignored := ParseRest(data[limit + 1..]);
      if ignored.None? { return None; }
      return Some(InstanceEntry(id, instance.value));
    }
    var version := ParseRest(data[1..]);
    if version.None? { return None; }
    e := Some(ObjectEntry(id, version.value));
  }

  /** prv_getId. */
  method ParseEntry(entry: bytes) returns (e: Option<Entry>)
    ensures e == GetId(entry)
  {
    hide FindByte, ReadAttributes, UriPath.Field, TrimRight, GetInstance;
    var data := TrimEnd(entry);
    if |data| < 2 || data[0] != LESS || data[1] != SLASH { return None; }
    data := data[2..];
    var limit := Scan(data, SLASH);
    var end := Scan(data, GREATER);
    if end < limit {
      limit := end;
    }
    if limit == 0 || limit >= |data| { return None; }
    var id := UriPath.ReadField(data[..limit]);
    if id.None? { return None; }
    if data[limit] == SLASH {
      e := ParseInstance(id.value, data[limit + 1..]);
      return;
    }
    var version := ParseRest(data[limit + 1..]);
    if version.None? { return None; }
    e := Some(ObjectEntry(id.value, version.value));
  }

  /** The value of prv_splitLinkAttribute and its end. */
  method ReadValue(s: bytes) returns (v: Option<(bytes, nat)>)
    ensures v == SplitValue(s)
  {
    hide FindByte, Spaces, TrimRight;
    var k := SkipSpaces(s);
    if k == |s| { return None; }
    var rest := s[k..];
    var n := Scan(rest, SEMICOLON);
    var value := TrimEnd(rest[..n]);
    if |value| == 1 { return None; }
    v := Some((value, k + n));
  }

  /** prv_splitLinkAttribute. */
  method Split(s: bytes) returns (a: Option<Attribute>)
    ensures a == SplitAttribute(s)
  {
    hide FindByte, Spaces, SplitValue;
    var i := SkipSpaces(s);
    if i == |s| { return None; }
    if s[i] == SEMICOLON {
      i := i + 1;
    }
    if i == |s| { return None; }
    var rest := s[i..];
    var j := Scan(rest, EQUALS);
    if j == 0 || j == |rest| { return None; }
    var value := ReadValue(rest[j + 1..]);
    if value.None? { return None; }
    a := Some(Attribute(rest[..j], value.value.0, i + (j + 1 + value.value.1)));
  }

  /** prv_parseLinkAttributes. */
  method ParseRoot(entry: bytes) returns (root: Option<Root>)
    ensures root == ParseLink(entry)
  {
    hide SplitAttribute, TrimRight, FindLast;
    var data := TrimEnd(entry);
    if |data| < 2 || data[0] != LESS { return None; }
    data := data[1..];
    var end := ScanBack(data, GREATER);
    if end == 0 || end == |data| - 1 { return None; }
    var start := if data[0] == SLASH then 1 else 0;
    if data[end + 1] != SEMICOLON { return None; }
    var link, left := Link(false, TlvOnly), data[end + 2..];
    ghost var all := LinkAttributes(left, link);
    while left != []
      invariant LinkAttributes(left, link) == all
      decreases |left|
    {
      var a := Split(left);
      if a.None? { return None; }
      if a.value.key == TYPE_KEY {
        if link.valid || a.value.value != TYPE_VALUE { return None; }
        link := link.(valid := true);
      } else if a.value.key == CONTENT_KEY {
        if link.format != TlvOnly { return None; }
        if a.value.value == JSON_VALUE {
          link := link.(format := Json);
        } else if a.value.value == SENML_VALUE {
          link := link.(format := SenmlJson);
        } else {
          return None;
        }
      }
      left := left[a.value.end..];
    }
    if !link.valid { return None; }
    root := Some(Root(link.format, data[start..end]));
  }

  /** The body of the loop of prv_decodeRegisterPayload. */
  method Apply(st: State, entry: bytes) returns (next: Option<State>)
    ensures next == Applied(st, entry)
  {
    hide GetId, ParseLink;
    var e := ParseEntry(entry);
    if e.Some? {
      next := Some(st.(objects := Entered(st.objects, e.value)));
    } else if st.root.None? {
      var root := ParseRoot(entry);
      if root.None? { return None; }
      next := Some(st.(root := root));
    } else {
      next := None;
    }
  }

  /** prv_decodeRegisterPayload. */
  method DecodePayload(payload: bytes) returns (r: Option<Registration>)
    ensures r == Decode(payload)
  {
    hide Spaces, FindByte, Applied, DecodeFrom, Slice;
    var index, st := 0, State([], None);
    ghost var all := DecodeFrom(payload, 0, st);
    while index <= |payload|
      invariant index <= |payload| + 1 && DecodeFrom(payload, index, st) == all
    {
      DecodeFromStep(payload, index, st);
      var spaces := SkipSpaces(payload[index..]);
      var start := index + spaces;
      if start == |payload| { break; }
      var length := Scan(payload[start..], COMMA);
      index := start + length;
      var next := Apply(st, Slice(payload, start, index));
      if next.None? { return None; }
      st := next.value;
      index := index + 1;
    }
    DecodeFromStep(payload, |payload|, st);
    assert all == Some(st);
    r := Some(if st.root.Some? then Registration(st.objects, st.root.value.format, st.root.value.altPath)
              else Registration(st.objects, TlvOnly, []));
  }
}
