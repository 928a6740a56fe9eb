/** LwM2M paths of uri.c: their text, their CoAP path segments (as transaction.c builds them), and the
    two parsers. */
module Uri {
  import opened Bytes
  import opened Text

  const SLASH: byte := 47
  const UNSET: uint16 := 0xFFFF
  const ID_SPACE := 6
  const MAX_TEXT := 24

  const REGISTRATION_SEGMENT: bytes := [114, 100]
  const BOOTSTRAP_SEGMENT: bytes := [98, 115]
  const DELETE: byte := 4

  datatype Uri = Uri(objectId: uint16, instanceId: uint16, resourceId: uint16, resourceInstanceId: uint16)

  const RESET := Uri(UNSET, UNSET, UNSET, UNSET)

  datatype RequestType = Unknown | DeviceManagement | Registration | Bootstrap | DeleteAll

  function Get(u: Uri, level: nat): uint16
    requires level < 4
  {
    if level == 0 then u.objectId else if level == 1 then u.instanceId
    else if level == 2 then u.resourceId else u.resourceInstanceId
  }

  function With(u: Uri, level: nat, id: uint16): Uri
    requires level < 4
  {
    if level == 0 then u.(objectId := id) else if level == 1 then u.(instanceId := id)
    else if level == 2 then u.(resourceId := id) else u.(resourceInstanceId := id)
  }

  predicate IsSet(u: Uri, level: nat)
    requires level < 4
  {
    Get(u, level) != UNSET
  }

  /** No level is set below one that is not. */
  predicate PrefixClosed(u: Uri) {
    && (IsSet(u, 1) ==> IsSet(u, 0)) && (IsSet(u, 2) ==> IsSet(u, 1)) && (IsSet(u, 3) ==> IsSet(u, 2))
  }

  // ---- text ----------------------------------------------------------------------------

  /** The text from the given level on, up to the first level that is not set. */
  function PathFrom(u: Uri, level: nat): bytes
    requires level <= 4
    decreases 4 - level
  {
    if level == 4 || !IsSet(u, level) then []
    else [SLASH] + Digits(Get(u, level)) + PathFrom(u, level + 1)
  }

  function UriText(u: Uri): bytes {
    if IsSet(u, 0) then PathFrom(u, 0) else [SLASH]
  }

  lemma {:induction false} PathAtMost(u: Uri, level: nat)
    requires level <= 4
    ensures |PathFrom(u, level)| <= ID_SPACE * (4 - level)
    decreases 4 - level
  {
    if level < 4 {
      assert Pow10(5) == 100000 by { assert Pow10(3) == 1000; }
      DigitsAtMost(Get(u, level), 5);
      PathAtMost(u, level + 1);
    }
  }

  /** The buffer size the callers use is enough for every path. */
  lemma TextFits(u: Uri)
    ensures |UriText(u)| <= MAX_TEXT
  {
    PathAtMost(u, 0);
  }

  /** One more level behind a text. */
  lemma Extended(text: bytes, u: Uri, level: nat)
    requires level < 4
    ensures IsSet(u, level) ==>
      text + PathFrom(u, level) == (text + [SLASH] + Digits(Get(u, level))) + PathFrom(u, level + 1)
    ensures !IsSet(u, level) ==> text + PathFrom(u, level) == text
    ensures text + PathFrom(u, 4) == text
  {
    var id, rest := Digits(Get(u, level)), PathFrom(u, level + 1);
    assert text + ([SLASH] + id + rest) == (text + [SLASH] + id) + rest;
  }

  /** One segment of uri_toString: a slash and the number behind it. */
  method PutId(id: uint16, buffer: array<byte>, head: nat) returns (r: Option<nat>)
    requires head < buffer.Length
    modifies buffer
    ensures r.Some? <==> head + 1 + |Digits(id)| <= buffer.Length
    ensures r.Some? ==> r.value == head + 1 + |Digits(id)| && buffer[..r.value] == old(buffer[..head]) + [SLASH] + Digits(id)
  {
    ghost var was := buffer[..head];
    if head >= buffer.Length - 1 {
      return None;
    }
    buffer[head] := SLASH;
    var n := IntToText(id, buffer, head + 1, buffer.Length - head - 1);
    if n == 0 {
      return None;
    }
    assert buffer[..head + 1] == was + [SLASH];
    assert buffer[..head + 1 + n] == buffer[..head + 1] + buffer[head + 1..head + 1 + n];
    r := Some(head + 1 + n);
  }

  /** uri_toString: the length of the text, or nothing if it does not fit. */
  method ToString(u: Uri, buffer: array<byte>) returns (r: Option<nat>)
    requires buffer.Length >= 1
    modifies buffer
    ensures r.Some? <==> |UriText(u)| <= buffer.Length && buffer.Length >= 2
    ensures r.Some? ==> r.value == |UriText(u)| && buffer[..r.value] == UriText(u)
  {
    hide Digits, AllDigits, PathFrom;
    var head: Option<nat> := Some(0);
    ghost var done: bytes := [];
    Extended([], u, 0);
    if u.objectId != UNSET {
      assert buffer[..0] == [];
      head := PutId(u.objectId, buffer, 0);
      if head.None? { return None; }
      done := buffer[..head.value];
      Extended(done, u, 1);
      if u.instanceId != UNSET {
        if head.value >= buffer.Length - 1 { return None; }
        head := PutId(u.instanceId, buffer, head.value);
        if head.None? { return None; }
        done := buffer[..head.value];
        Extended(done, u, 2);
        if u.resourceId != UNSET {
          if head.value >= buffer.Length - 1 { return None; }
          head := PutId(u.resourceId, buffer, head.value);
          if head.None? { return None; }
          done := buffer[..head.value];
          Extended(done, u, 3);
          if u.resourceInstanceId != UNSET {
            if head.value >= buffer.Length - 1 { return None; }
            head := PutId(u.resourceInstanceId, buffer, head.value);
            if head.None? { return None; }
            done := buffer[..head.value];
            Extended(done, u, 3);
          }
        }
      }
    } else {
      if 0 >= buffer.Length - 1 { return None; }
      buffer[0] := SLASH;
      assert buffer[..1] == [SLASH];
      head := Some(1);
    }
    r := head;
  }

  // ---- numbers -------------------------------------------------------------------------

  /** A number at the start of some bytes and how many of them it takes. */
  datatype Numeral = Malformed | Numeral(value: nat, size: nat)

  /** The loop of prv_parseNumber: digits up to a slash or the end. */
  function ScanNumber(acc: nat, s: bytes): (r: Numeral)
    ensures r.Numeral? ==> r.size <= |s| && (r.size < |s| ==> s[r.size] == SLASH)
    decreases |s|
  {
    if s == [] || s[0] == SLASH then Numeral(acc, 0)
    else if !(ZERO <= s[0] <= NINE) then Malformed
    else match ScanNumber(acc * 10 + (s[0] - ZERO), s[1..])
      case Malformed => Malformed
      case Numeral(n, size) => Numeral(n, size + 1)
  }

  /** prv_parseNumber on the rest of the buffer. */
  function ParseNumber(s: bytes): (r: Numeral)
    ensures r.Numeral? ==> r.size <= |s| && (r.size < |s| ==> s[r.size] == SLASH)
  {
    if s != [] && s[0] == SLASH then Malformed else ScanNumber(0, s)
  }

  /** prv_parseNumber. */
  method ReadNumber(s: bytes, head: nat) returns (r: Numeral)
    requires head <= |s|
    ensures r == ParseNumber(s[head..])
  {
    if head < |s| && s[head] == SLASH {
      return Malformed;
    }
    var result: nat, i := 0, head;
    while i < |s| && s[i] != SLASH
      invariant head <= i <= |s|
      invariant ScanNumber(0, s[head..]) ==
        match ScanNumber(result, s[i..])
        case Malformed => Malformed
        case Numeral(n, size) => Numeral(n, i - head + size)
    {
      assert s[i..][0] == s[i] && s[i..][1..] == s[i + 1..];
      if ZERO <= s[i] <= NINE {
        result := result * 10 + (s[i] - ZERO);
      } else {
        return Malformed;
      }
      i := i + 1;
    }
    assert i < |s| ==> s[i..][0] == s[i];
    r := Numeral(result, i - head);
  }

  /** Printed digits are read back up to the slash or the end behind them. */
  lemma {:induction false} NumberOf(acc: nat, s: bytes, rest: bytes)
    requires AllDigits(s) && (rest == [] || rest[0] == SLASH)
    ensures ScanNumber(acc, s + rest) == Numeral(Fold(acc, s), |s|)
    decreases |s|
  {
    if s == [] {
      assert s + rest == rest;
    } else {
      assert (s + rest)[1..] == s[1..] + rest;
      NumberOf(acc * 10 + (s[0] - ZERO), s[1..], rest);
    }
  }

  lemma ParsesDigits(n: nat, rest: bytes)
    requires rest == [] || rest[0] == SLASH
    ensures ParseNumber(Digits(n) + rest) == Numeral(n, |Digits(n)|)
  {
    NumberOf(0, Digits(n), rest);
    ValueOfDigits(n);
  }

  // ---- lwm2m_stringToUri ------------------------------------------------------------------

  predicate IsSpace(b: byte) {
    b == 32 || 9 <= b <= 13
  }

  function SkipSpace(s: bytes): (k: nat)
    ensures k <= |s|
  {
    if s == [] || !IsSpace(s[0]) then 0 else 1 + SkipSpace(s[1..])
  }

  /** The numbers behind the first slash, from the given level on; a slash may follow each but the
      last level. */
  function ReadIds(u: Uri, s: bytes, level: nat): Option<Uri>
    requires level < 4
    decreases 4 - level
  {
    if s == [] then Some(u)
    else match ParseNumber(s)
      case Malformed => None
      case Numeral(n, size) =>
        if n >= UNSET then None
        else
          var v, rest := With(u, level, n), s[size..];
          if level == 3 then (if rest == [] then Some(v) else None)
          else ReadIds(v, if rest != [] then rest[1..] else rest, level + 1)
  }

  /** lwm2m_stringToUri; it consumes the whole buffer or fails. */
  function StringToUri(s: bytes): Option<Uri> {
    var start := SkipSpace(s);
    if start == |s| || s[start] != SLASH then None
    else ReadIds(RESET, s[start + 1..], 0)
  }

  /** One level of lwm2m_stringToUri: the number, and the slash behind it if there is one. */
  method ReadLevel(s: bytes, head: nat, last: bool) returns (ok: bool, id: uint16, after: nat)
    requires head < |s|
    ensures match ParseNumber(s[head..])
            case Malformed => !ok
            case Numeral(n, size) =>
              && (ok <==> n < UNSET)
              && (ok ==> id == n && after == head + size + if !last && head + size < |s| then 1 else 0)
  {
    var number := ReadNumber(s, head);
    if number.Malformed? || number.value >= UNSET {
      return false, 0, 0;
    }
    ok, id, after := true, number.value, head + number.size;
    if !last && after < |s| && s[after] == SLASH {
      after := after + 1;
    }
  }

  method ParseText(s: bytes) returns (r: Option<Uri>)
    ensures r == StringToUri(s)
  {
    var head := 0;
    while head < |s| && IsSpace(s[head])
      invariant head <= |s| && SkipSpace(s) == head + SkipSpace(s[head..])
    {
      assert s[head..][0] == s[head] && s[head..][1..] == s[head + 1..];
      head := head + 1;
    }
    assert head < |s| ==> s[head..][0] == s[head];
    if head == |s| || s[head] != SLASH {
      return None;
    }
    r := ParseLevels(s, head + 1);
  }

  /** The nested levels of lwm2m_stringToUri. */
  method ParseLevels(s: bytes, start: nat) returns (r: Option<Uri>)
    requires start <= |s|
    ensures r == ReadIds(RESET, s[start..], 0)
  {
    hide ParseNumber, ReadIds;
    var head, u := start, RESET;
    ReadIdsAt(s, head, u, 0);
    if head < |s| {
      var ok, id, after := ReadLevel(s, head, false);
      if !ok { return None; }
      u, head := u.(objectId := id), after;
      ReadIdsAt(s, head, u, 1);
      if head < |s| {
        ok, id, after := ReadLevel(s, head, false);
        if !ok { return None; }
        u, head := u.(instanceId := id), after;
        ReadIdsAt(s, head, u, 2);
        if head < |s| {
          ok, id, after := ReadLevel(s, head, false);
          if !ok { return None; }
          u, head := u.(resourceId := id), after;
          ReadIdsAt(s, head, u, 3);
          if head < |s| {
            ok, id, after := ReadLevel(s, head, true);
            if !ok { return None; }
            u, head := u.(resourceInstanceId := id), after;
          }
          if head != |s| { return None; }
        }
      }
    }
    r := Some(u);
  }

  /** One level of ReadIds, at a position of the whole buffer. */
  lemma {:induction false} ReadIdsAt(s: bytes, head: nat, u: Uri, level: nat)
    requires head <= |s| && level < 4
    ensures ReadIds(u, s[head..], level) ==
      if head == |s| then Some(u)
      else match ParseNumber(s[head..])
        case Malformed => None
        case Numeral(n, size) =>
          if n >= UNSET then None
          else if level == 3 then (if head + size == |s| then Some(With(u, level, n)) else None)
          else
            var after := head + size + if head + size < |s| then 1 else 0;
            ReadIds(With(u, level, n), s[after..], level + 1)
  {
    match ParseNumber(s[head..]) {
      case Malformed =>
      case Numeral(n, size) =>
        assert s[head..][size..] == s[head + size..];
        if head + size < |s| { assert s[head + size..][1..] == s[head + size + 1..]; }
    }
  }

  /** Levels before the given one are set, the others are not. */
  predicate SetUpTo(u: Uri, level: nat)
    requires level <= 4
  {
    && (IsSet(u, 0) <==> 0 < level) && (IsSet(u, 1) <==> 1 < level)
    && (IsSet(u, 2) <==> 2 < level) && (IsSet(u, 3) <==> 3 < level)
  }

  /** Every text that is accepted gives a prefix-closed path. */
  lemma {:induction false} AcceptedIsPrefixClosed(u: Uri, s: bytes, level: nat)
    requires level < 4 && SetUpTo(u, level)
    ensures ReadIds(u, s, level).Some? ==> PrefixClosed(ReadIds(u, s, level).value)
    decreases 4 - level
  {
    if s != [] {
      match ParseNumber(s) {
        case Malformed =>
        case Numeral(n, size) =>
          if n < UNSET && level < 3 {
            var rest := s[size..];
            AcceptedIsPrefixClosed(With(u, level, n), if rest != [] then rest[1..] else rest, level + 1);
          }
      }
    }
  }

  lemma TextIsPrefixClosed(s: bytes)
    ensures StringToUri(s).Some? ==> PrefixClosed(StringToUri(s).value)
  {
    var start := SkipSpace(s);
    if start < |s| { AcceptedIsPrefixClosed(RESET, s[start + 1..], 0); }
  }

  /** The path with the levels of `u` up to the given one. */
  function Truncated(u: Uri, level: nat): Uri
    requires level <= 4
  {
    Uri(if level > 0 then u.objectId else UNSET, if level > 1 then u.instanceId else UNSET,
        if level > 2 then u.resourceId else UNSET, if level > 3 then u.resourceInstanceId else UNSET)
  }

  lemma {:induction false} ReadsText(u: Uri, level: nat)
    requires PrefixClosed(u) && level < 4 && IsSet(u, level)
    ensures ReadIds(Truncated(u, level), PathFrom(u, level)[1..], level) == Some(u)
    decreases 4 - level
  {
    hide Digits, ParseNumber;
    var id := Get(u, level);
    var rest := PathFrom(u, level + 1);
    var text := PathFrom(u, level)[1..];
    assert text == Digits(id) + rest;
    ParsesDigits(id, rest);
    assert text[|Digits(id)|..] == rest;
    assert With(Truncated(u, level), level, id) == Truncated(u, level + 1);
    if level < 3 && IsSet(u, level + 1) {
      ReadsText(u, level + 1);
    } else {
      assert rest == [] && Truncated(u, level + 1) == u;
    }
  }

  /** lwm2m_stringToUri undoes uri_toString exactly for prefix-closed paths. */
  lemma TextRoundTripIff(u: Uri)
    ensures StringToUri(UriText(u)) == Some(u) <==> PrefixClosed(u)
  {
    var text := UriText(u);
    TextIsPrefixClosed(text);
    assert text[0] == SLASH && SkipSpace(text) == 0;
    if PrefixClosed(u) && IsSet(u, 0) {
      ReadsText(u, 0);
    }
  }
}
