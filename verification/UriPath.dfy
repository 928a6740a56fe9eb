/** CoAP path segments: transaction_new builds them from a path, uri_decode reads them. */
module UriPath {
  import opened Bytes
  import opened Text
  import opened Uri

  // ---- building ------------------------------------------------------------------------

  /** A segment for each level from the given one on, up to the first that is not set. */
  function SegmentsFrom(u: Uri, level: nat): seq<bytes>
    requires level <= 4
    decreases 4 - level
  {
    if level == 4 || !IsSet(u, level) then [] else [Digits(Get(u, level))] + SegmentsFrom(u, level + 1)
  }

  /** The path of a request: the alternative path without its slash, then the levels. */
  function PathOf(altPath: Option<bytes>, u: Uri): seq<bytes>
    requires altPath.Some? ==> altPath.value != []
  {
    (if altPath.Some? then [altPath.value[1..]] else []) + SegmentsFrom(u, 0)
  }

  /** A number as a path segment, through the six-byte buffer of transaction_new. */
  method IdSegment(id: uint16) returns (segment: bytes)
    ensures segment == Digits(id)
  {
    var text := new byte[ID_SPACE];
    assert Pow10(5) == 100000 by { assert Pow10(3) == 1000; }
    DigitsAtMost(id, 5);
    var n := IntToText(id, text, 0, ID_SPACE);
    text[n] := 0;
    segment := text[..n];
  }

  /** The path part of transaction_new. An alternative path starts with a slash. */
  method BuildPath(altPath: Option<bytes>, u: Uri) returns (path: seq<bytes>)
    requires altPath.Some? ==> altPath.value != []
    ensures path == PathOf(altPath, u)
  {
    hide Digits;
    path := [];
    if altPath.Some? {
      path := path + [altPath.value[1..]];
    }
    ghost var done := path;
    if u.objectId != UNSET {
      var segment := IdSegment(u.objectId);
      path := path + [segment];
      if u.instanceId != UNSET {
        segment := IdSegment(u.instanceId);
        path := path + [segment];
        if u.resourceId != UNSET {
          segment := IdSegment(u.resourceId);
          path := path + [segment];
          if u.resourceInstanceId != UNSET {
            segment := IdSegment(u.resourceInstanceId);
            path := path + [segment];
          }
        }
      }
    }
    LevelSegments(u);
    assert path == done + SegmentsFrom(u, 0);
  }

  lemma LevelSegments(u: Uri)
    ensures SegmentsFrom(u, 0) ==
      if u.objectId == UNSET then []
      else if u.instanceId == UNSET then [Digits(u.objectId)]
      else if u.resourceId == UNSET then [Digits(u.objectId), Digits(u.instanceId)]
      else if u.resourceInstanceId == UNSET then [Digits(u.objectId), Digits(u.instanceId), Digits(u.resourceId)]
      else [Digits(u.objectId), Digits(u.instanceId), Digits(u.resourceId), Digits(u.resourceInstanceId)]
  {
    hide Digits;
    assert SegmentsFrom(u, 4) == [];
    assert u.resourceInstanceId != UNSET ==> SegmentsFrom(u, 3) == [Digits(u.resourceInstanceId)];
    assert u.resourceId != UNSET ==> SegmentsFrom(u, 2) == [Digits(u.resourceId)] + SegmentsFrom(u, 3);
    assert u.instanceId != UNSET ==> SegmentsFrom(u, 1) == [Digits(u.instanceId)] + SegmentsFrom(u, 2);
  }

  // ---- reading -------------------------------------------------------------------------

  /** The comparison of uri_decode: only as far as the segment goes. */
  predicate AltMatches(segment: bytes, altPath: bytes) {
    forall i :: 0 <= i < |segment| ==> CharAt(altPath, i + 1) == Some(segment[i])
  }

  /** A character of a string, none past its end. */
  function CharAt(s: bytes, i: nat): Option<byte> {
    if i < |s| then Some(s[i]) else None
  }

  function Field(segment: bytes): (id: Option<uint16>)
    ensures id != Some(UNSET)
  {
    match ParseNumber(segment)
    case Malformed => None
    case Numeral(n, _) => if n >= UNSET then None else Some(n)
  }

  /** The levels of a path: an empty segment leaves its level unset, and a level must not be set
      below one that is not. */
  function DecodeFrom(u: Uri, path: seq<bytes>, level: nat): Option<Uri>
    requires level <= 4
    decreases 4 - level
  {
    if path == [] then Some(u)
    else if level == 4 then None
    else if level > 0 && path[0] == [] then DecodeFrom(u, path[1..], level + 1)
    else if level > 0 && !IsSet(u, level - 1) then None
    else match Field(path[0])
      case None => None
      case Some(id) => DecodeFrom(With(u, level, id), path[1..], level + 1)
  }

  function Decoded(kind: RequestType, u: Option<Uri>): (RequestType, Uri) {
    if u.Some? then (kind, u.value) else (Unknown, RESET)
  }

  /** uri_decode. */
  function Decode(altPath: Option<bytes>, path: seq<bytes>, code: byte): (RequestType, Uri) {
    if path != [] && path[0] == REGISTRATION_SEGMENT then
      if |path| == 1 then (Registration, RESET)
      else if |path| > 2 || Field(path[1]).None? then (Unknown, RESET)
      else (Registration, RESET.(objectId := Field(path[1]).value))
    else if path != [] && path[0] == BOOTSTRAP_SEGMENT then
      (if |path| > 1 then Unknown else Bootstrap, RESET)
    else if altPath.Some? && (path == [] || !AltMatches(path[0], altPath.value)) then (Unknown, RESET)
    else
      var rest := if altPath.Some? then path[1..] else path;
      if rest == [] || rest[0] == [] then (if code == DELETE then DeleteAll else DeviceManagement, RESET)
      else Decoded(DeviceManagement, DecodeFrom(RESET, rest, 0))
  }

  /** uri_getNumber with the range check of its callers. */
  method ReadField(segment: bytes) returns (id: Option<uint16>)
    ensures id == Field(segment)
  {
    var number := ReadNumber(segment, 0);
    assert segment[0..] == segment;
    if number.Malformed? || number.value >= UNSET {
      return None;
    }
    id := Some(number.value);
  }

  /** uri_decode: the segments are followed one by one. */
  method DecodePath(altPath: Option<bytes>, path: seq<bytes>, code: byte) returns (kind: RequestType, u: Uri)
    ensures (kind, u) == Decode(altPath, path, code)
  {
    kind, u := DeviceManagement, RESET;
    var i := 0;
    if 0 < |path| && path[0] == REGISTRATION_SEGMENT {
      if |path| == 1 {
        return Registration, RESET;
      }
      var id := ReadField(path[1]);
      if id.None? || |path| > 2 {
        return Unknown, RESET;
      }
      return Registration, RESET.(objectId := id.value);
    }
    if 0 < |path| && path[0] == BOOTSTRAP_SEGMENT {
      return if |path| > 1 then Unknown else Bootstrap, RESET;
    }
    if altPath.Some? {
      if |path| == 0 {
        return Unknown, RESET;
      }
      var matches := CompareAlt(path[0], altPath.value);
      if !matches {
        return Unknown, RESET;
      }
      i := 1;
    }
    if i == |path| || path[i] == [] {
      return if code == DELETE then DeleteAll else DeviceManagement, RESET;
    }
    u := DecodeLevels(path, i);
    kind := if u == RESET then Unknown else DeviceManagement;
    assert path[0..] == path;
  }

  method CompareAlt(segment: bytes, altPath: bytes) returns (matches: bool)
    ensures matches == AltMatches(segment, altPath)
  {
    for i := 0 to |segment|
      invariant forall j :: 0 <= j < i ==> CharAt(altPath, j + 1) == Some(segment[j])
    {
      if CharAt(altPath, i + 1) != Some(segment[i]) {
        return false;
      }
    }
    matches := true;
  }

  /** The levels of uri_decode; the path is reset on error. */
  method DecodeLevels(path: seq<bytes>, start: nat) returns (u: Uri)
    requires start < |path| && path[start] != []
    ensures u == Decoded(DeviceManagement, DecodeFrom(RESET, path[start..], 0)).1
    ensures DecodeFrom(RESET, path[start..], 0).Some? <==> u != RESET
  {
    hide Field, DecodeFrom;
    var i := start;
    u := RESET;
    DecodeAt(path, i, u, 0);
    KeepsObject(u, path[i..], 0);
    var id := ReadField(path[i]);
    if id.None? { return RESET; }
    u, i := u.(objectId := id.value), i + 1;
    KeepsObject(u, path[i..], 1);
    DecodeAt(path, i, u, 1);
    if i == |path| { return; }
    if path[i] != [] {
      id := ReadField(path[i]);
      if id.None? { return RESET; }
      u := u.(instanceId := id.value);
    }
    i := i + 1;
    DecodeAt(path, i, u, 2);
    if i == |path| { return; }
    if path[i] != [] {
      if u.instanceId == UNSET { return RESET; }
      id := ReadField(path[i]);
      if id.None? { return RESET; }
      u := u.(resourceId := id.value);
    }
    i := i + 1;
    DecodeAt(path, i, u, 3);
    if i == |path| { return; }
    if path[i] != [] {
      if u.resourceId == UNSET { return RESET; }
      id := ReadField(path[i]);
      if id.None? { return RESET; }
      u := u.(resourceInstanceId := id.value);
    }
    i := i + 1;
    DecodeAt(path, i, u, 4);
    if i != |path| { u := RESET; }
  }

  /** One level of DecodeFrom, at a position of the whole path. */
  lemma {:induction false} DecodeAt(path: seq<bytes>, i: nat, u: Uri, level: nat)
    requires i <= |path| && level <= 4
    ensures DecodeFrom(u, path[i..], level) ==
      if i == |path| then Some(u)
      else if level == 4 then None
      else if level > 0 && path[i] == [] then DecodeFrom(u, path[i + 1..], level + 1)
      else if level > 0 && !IsSet(u, level - 1) then None
      else match Field(path[i])
        case None => None
        case Some(id) => DecodeFrom(With(u, level, id), path[i + 1..], level + 1)
  {
    if i < |path| { assert path[i..][1..] == path[i + 1..]; }
  }

  lemma {:induction false} KeepsObject(u: Uri, path: seq<bytes>, level: nat)
    requires level <= 4 && (level == 0 ==> path != [])
    requires level > 0 ==> u.objectId != UNSET
    ensures DecodeFrom(u, path, level).Some? ==> DecodeFrom(u, path, level).value.objectId != UNSET
    decreases 4 - level
  {
    if path != [] && level < 4 {
      if level > 0 && path[0] == [] {
        KeepsObject(u, path[1..], level + 1);
      } else if (level > 0 ==> IsSet(u, level - 1)) && Field(path[0]).Some? {
        KeepsObject(With(u, level, Field(path[0]).value), path[1..], level + 1);
      }
    }
  }

  // ---- what they keep ------------------------------------------------------------------

  /** Every path that is accepted, for whatever request, is prefix-closed. */
  lemma DecodedIsPrefixClosed(altPath: Option<bytes>, path: seq<bytes>, code: byte)
    ensures PrefixClosed(Decode(altPath, path, code).1)
  {
    var rest := if altPath.Some? && path != [] then path[1..] else path;
    LevelsArePrefixClosed(RESET, rest, 0);
  }

  predicate UnsetFrom(u: Uri, level: nat)
    requires level <= 4
  {
    && (level <= 0 ==> !IsSet(u, 0)) && (level <= 1 ==> !IsSet(u, 1))
    && (level <= 2 ==> !IsSet(u, 2)) && (level <= 3 ==> !IsSet(u, 3))
  }

  lemma {:induction false} LevelsArePrefixClosed(u: Uri, path: seq<bytes>, level: nat)
    requires level <= 4 && PrefixClosed(u) && UnsetFrom(u, level)
    ensures DecodeFrom(u, path, level).Some? ==> PrefixClosed(DecodeFrom(u, path, level).value)
    decreases 4 - level
  {
    if path != [] && level < 4 {
      if level > 0 && path[0] == [] {
        LevelsArePrefixClosed(u, path[1..], level + 1);
      } else if (level > 0 ==> IsSet(u, level - 1)) && Field(path[0]).Some? {
        LevelsArePrefixClosed(With(u, level, Field(path[0]).value), path[1..], level + 1);
      }
    }
  }

  lemma {:induction false} DecodesSegments(u: Uri, level: nat)
    requires level <= 4 && PrefixClosed(u) && (level > 0 ==> IsSet(u, level - 1))
    ensures DecodeFrom(Truncated(u, level), SegmentsFrom(u, level), level) == Some(u)
    decreases 4 - level
  {
    hide Digits, Field;
    if level < 4 && IsSet(u, level) {
      var segments := SegmentsFrom(u, level);
      FieldOfDigits(Get(u, level));
      assert segments[1..] == SegmentsFrom(u, level + 1);
      assert With(Truncated(u, level), level, Get(u, level)) == Truncated(u, level + 1);
      DecodesSegments(u, level + 1);
    }
  }

  lemma FieldOfDigits(id: uint16)
    requires id != UNSET
    ensures Field(Digits(id)) == Some(id)
  {
    ParsesDigits(id, []);
    assert Digits(id) + [] == Digits(id);
  }

  lemma AltMatchesItself(altPath: bytes)
    requires altPath != []
    ensures AltMatches(altPath[1..], altPath)
  {
  }

  /** uri_decode gives back the path of a request, and so the kind of the request, exactly if the
      alternative path is not one of the reserved first segments. */
  lemma PathRoundTripIff(altPath: Option<bytes>, u: Uri, code: byte)
    requires PrefixClosed(u) && (altPath.Some? ==> altPath.value != [])
    ensures
      var kind := if u.objectId == UNSET && code == DELETE then DeleteAll else DeviceManagement;
      Decode(altPath, PathOf(altPath, u), code) == (kind, u) <==>
        (altPath.Some? ==> altPath.value[1..] != REGISTRATION_SEGMENT && altPath.value[1..] != BOOTSTRAP_SEGMENT)
  {
    hide Digits, Field;
    var path, segments := PathOf(altPath, u), SegmentsFrom(u, 0);
    DecodesSegments(u, 0);
    if altPath.Some? {
      AltMatchesItself(altPath.value);
      assert path[0] == altPath.value[1..] && path[1..] == segments;
    } else {
      assert path == segments;
    }
    if u.objectId != UNSET {
      assert segments[0] == Digits(u.objectId) && AllDigits(segments[0]);
      assert segments[0] != REGISTRATION_SEGMENT && segments[0] != BOOTSTRAP_SEGMENT by {
        assert segments[0][0] <= NINE;
      }
    } else {
      assert segments == [] && u == RESET;
    }
  }

  /** A first segment passes for the alternative path exactly if it is a prefix of it. */
  lemma AltMatchesIff(segment: bytes, altPath: bytes)
    requires altPath != []
    ensures AltMatches(segment, altPath) <==> segment <= altPath[1..]
  {
    if AltMatches(segment, altPath) && segment != [] {
      var last := segment[|segment| - 1];
      assert |segment| < |altPath|;
    }
  }
}
