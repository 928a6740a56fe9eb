/** The registration payload printed by objects.c: one pass that computes the size of the buffer and
    one that fills it, in the link format of RFC 6690, section 2. */
module RegisterPayload {
  import opened Bytes
  import opened Text

  const LESS: byte := 60
  const GREATER: byte := 62
  const SLASH: byte := 47
  const SEMICOLON: byte := 59
  const COMMA: byte := 44
  const DOT: byte := 46

  /** `>,` */
  const PATH_END: bytes := [GREATER, COMMA]
  /** `>;ver=` */
  const VERSION_START: bytes := [GREATER, SEMICOLON, 118, 101, 114, 61]

  const SECURITY: uint16 := 0
  const OSCORE: uint16 := 21
  const TEMPLATE_SPACE := 10

  /** The resource type and the content formats a client is built with. */
  datatype Formats = TlvOnly | Json | SenmlJson

  /** `rt="oma.lwm2m"` */
  const RESOURCE_TYPE: bytes := [114, 116, 61, 34, 111, 109, 97, 46, 108, 119, 109, 50, 109, 34]

  /** `;ct=11543` or `;ct=110` */
  function ContentType(f: Formats): bytes {
    match f
    case TlvOnly => []
    case Json => [SEMICOLON, 99, 116, 61, 49, 49, 53, 52, 51]
    case SenmlJson => [SEMICOLON, 99, 116, 61, 49, 49, 48]
  }

  /** The end of the path of the link, its attributes and a comma. */
  function ResourceType(f: Formats): bytes {
    [GREATER, SEMICOLON] + RESOURCE_TYPE + ContentType(f) + [COMMA]
  }

  /** An object of the list, with the ids of its instances. */
  datatype Object = Object(id: uint16, major: byte, minor: byte, instances: seq<uint16>)

  predicate Versioned(o: Object) {
    o.major != 0 || o.minor != 0
  }

  // ---- the text ------------------------------------------------------------------------

  /** `</id/` */
  function Template(id: uint16): bytes {
    [LESS, SLASH] + Digits(id) + [SLASH]
  }

  /** `</id/instance>,` for each instance. */
  function InstancesText(id: uint16, instances: seq<uint16>): bytes {
    if instances == [] then []
    else Template(id) + Digits(instances[0]) + PATH_END + InstancesText(id, instances[1..])
  }

  /** `</id>;ver=major.minor,` */
  function VersionText(o: Object): bytes {
    [LESS, SLASH] + Digits(o.id) + VERSION_START + Digits(o.major) + [DOT] + Digits(o.minor) + [COMMA]
  }

  /** The entry for the object itself, if there is one. */
  function HeadText(o: Object): bytes {
    if Versioned(o) then VersionText(o)
    else if o.instances == [] then [LESS, SLASH] + Digits(o.id) + PATH_END
    else []
  }

  function ObjectText(o: Object): bytes {
    HeadText(o) + InstancesText(o.id, o.instances)
  }

  function ObjectsText(objects: seq<Object>): bytes {
    if objects == [] then []
    else (if objects[0].id == SECURITY then [] else ObjectText(objects[0])) + ObjectsText(objects[1..])
  }

  function StartText(altPath: bytes, f: Formats): bytes {
    [LESS] + (if altPath != [] then altPath else [SLASH]) + ResourceType(f)
  }

  /** Everything object_getRegisterPayload prints, with the comma it drops at the end. */
  function PayloadText(altPath: bytes, f: Formats, objects: seq<Object>): bytes {
    StartText(altPath, f) + ObjectsText(objects)
  }

  // ---- the size pass -------------------------------------------------------------------

  /** The objects that the size pass counts. */
  function Counted(objects: seq<Object>): seq<Object> {
    if objects == [] then []
    else (if objects[0].id == OSCORE then [] else [objects[0]]) + Counted(objects[1..])
  }

  lemma Id5(id: uint16)
    ensures |Digits(id)| <= 5
  {
    assert Pow10(5) == 100000 by { assert Pow10(3) == 1000; }
    DigitsAtMost(id, 5);
  }

  lemma Version3(v: byte)
    ensures |Digits(v)| <= 3
  {
    assert Pow10(3) == 1000;
    DigitsAtMost(v, 3);
  }

  /** The instances in the size pass. */
  method InstancesSize(id: uint16, instances: seq<uint16>, start: nat, length: nat, scratch: array<byte>)
    returns (index: nat)
    requires length == |Template(id)| && instances != [] && scratch.Length == TEMPLATE_SPACE
    modifies scratch
    ensures index == start + |InstancesText(id, instances)|
  {
    hide Digits;
    index := start + length;
    ghost var left := instances;
    for i := 0 to |instances|
      invariant left == instances[i..]
      invariant (if i == 0 then start else index) + |InstancesText(id, left)| == start + |InstancesText(id, instances)|
      invariant i == 0 ==> index == start + length
      invariant i > 0 ==> index > start + length
    {
      if index != start + length {
        index := index + length;
      }
      Id5(instances[i]);
      var n := IntToText(instances[i], scratch, 0, TEMPLATE_SPACE);
      index := index + n;
      index := index + |PATH_END|;
      left := left[1..];
    }
  }

  /** object_getRegisterPayloadBufferLength. */
  method BufferLength(altPath: bytes, f: Formats, objects: seq<Object>) returns (size: nat)
    ensures size == |PayloadText(altPath, f, Counted(objects))| + 1
  {
    hide Digits, InstancesText, ObjectText;
    var scratch := new byte[TEMPLATE_SPACE];
    var index: nat := 1;
    if altPath != [] {
      index := index + |altPath|;
    } else {
      index := index + 1;
    }
    index := index + |ResourceType(f)|;
    assert index == |StartText(altPath, f)|;
    ghost var left := objects;
    assert |ObjectsText(Counted([]))| == 0;
    hide ResourceType, StartText, ObjectsText, Counted;
    for i := 0 to |objects|
      invariant left == objects[i..]
      invariant index + |ObjectsText(Counted(left))| == |PayloadText(altPath, f, Counted(objects))|
    {
      CountedStep(left);
      var o := objects[i];
      if o.id != SECURITY && o.id != OSCORE {
        index := ObjectSize(o, index, scratch);
      }
      left := left[1..];
    }
    size := index + 1;
  }

  lemma CountedStep(objects: seq<Object>)
    requires objects != []
    ensures
      var o := objects[0];
      |ObjectsText(Counted(objects))| ==
        (if o.id == SECURITY || o.id == OSCORE then 0 else |ObjectText(o)|) + |ObjectsText(Counted(objects[1..]))|
  {
    if objects[0].id != OSCORE {
      assert Counted(objects)[1..] == Counted(objects[1..]);
    } else {
      assert [] + Counted(objects[1..]) == Counted(objects[1..]);
    }
  }

  /** One object in the size pass. */
  method ObjectSize(o: Object, before: nat, scratch: array<byte>) returns (index: nat)
    requires scratch.Length == TEMPLATE_SPACE
    modifies scratch
    ensures index == before + |ObjectText(o)|
  {
    hide Digits, InstancesText;
    index := before;
    var start := index;
    Id5(o.id);
    var template := PutTemplate(o.id, scratch, 0);
    var length := template.value;
    index := index + length;
    if o.major != 0 || o.minor != 0 {
      index := index - 1;
      index := index + |VERSION_START|;
      Version3(o.major);
      var n := UIntToText(o.major, scratch, 0, TEMPLATE_SPACE);
      index := index + n;
      index := index + 1;
      Version3(o.minor);
      n := UIntToText(o.minor, scratch, 0, TEMPLATE_SPACE);
      index := index + n;
      index := index + 1;
      if o.instances != [] {
        start := index;
        index := index + length;
      }
    } else if o.instances == [] {
      index := index - 1;
      index := index + |PATH_END|;
    }
    if o.instances != [] {
      index := InstancesSize(o.id, o.instances, start, length, scratch);
    } else {
      assert InstancesText(o.id, []) == [] by { NoInstances(o.id); }
    }
  }

  lemma NoInstances(id: uint16)
    ensures InstancesText(id, []) == []
  {
  }

  /** prv_getObjectTemplate into what is left of a buffer. */
  method PutTemplate(id: uint16, buffer: array<byte>, at: nat) returns (r: Option<nat>)
    requires at <= buffer.Length
    modifies buffer
    ensures r.Some? <==> at + |Template(id)| + 1 <= buffer.Length
    ensures r.Some? ==> r.value == |Template(id)| && buffer[..at + r.value] == old(buffer[..at]) + Template(id)
  {
    hide Digits, AllDigits;
    ghost var was := buffer[..at];
    if buffer.Length - at < 5 {
      return None;
    }
    buffer[at] := LESS;
    buffer[at + 1] := SLASH;
    var index := 2;
    assert buffer[..at + index] == was + [LESS, SLASH];
    var n := PutId(id, buffer, at + index);
    if n == 0 {
      return None;
    }
    index := index + n;
    if buffer.Length - at - index < 2 {
      return None;
    }
    ghost var name := buffer[..at + index];
    buffer[at + index] := SLASH;
    assert buffer[..at + index + 1] == name + [SLASH];
    assert was + [LESS, SLASH] + Digits(id) + [SLASH] == was + Template(id);
    r := Some(index + 1);
  }

  // ---- the fill pass -------------------------------------------------------------------

  /** utils_stringCopy into what is left of a buffer, which must have room for a terminator. */
  method StringCopy(text: bytes, buffer: array<byte>, at: nat) returns (r: Option<nat>)
    requires at <= buffer.Length
    modifies buffer
    ensures r.Some? <==> at + |text| < buffer.Length
    ensures r.Some? ==> r.value == |text| && buffer[..at + |text|] == old(buffer[..at]) + text
  {
    ghost var was := buffer[..at];
    var i := 0;
    while i < |text| && at + i < buffer.Length
      invariant i <= |text| && at + i <= buffer.Length
      invariant buffer[..at + i] == was + text[..i]
    {
      buffer[at + i] := text[i];
      assert text[..i + 1] == text[..i] + [text[i]];
      i := i + 1;
    }
    if at + i == buffer.Length {
      return None;
    }
    assert text[..i] == text;
    buffer[at + i] := 0;
    r := Some(i);
  }

  /** A number of a version; nothing is printed if it does not fit, which the caller does not see. */
  method PutNumber(v: byte, buffer: array<byte>, at: nat) returns (n: nat)
    requires at <= buffer.Length
    modifies buffer
    ensures at + n <= buffer.Length
    ensures at + |Digits(v)| <= buffer.Length ==> n == |Digits(v)| && buffer[..at + n] == old(buffer[..at]) + Digits(v)
  {
    hide Digits, AllDigits;
    ghost var was := buffer[..at];
    n := UIntToText(v, buffer, at, buffer.Length - at);
    assert buffer[..at] == was;
    assert buffer[..at + n] == was + buffer[at..at + n];
  }

  /** One character with its bounds check. */
  method PutChar(c: byte, buffer: array<byte>, at: nat) returns (ok: bool)
    requires at <= buffer.Length
    modifies buffer
    ensures ok <==> at < buffer.Length
    ensures ok ==> buffer[..at + 1] == old(buffer[..at]) + [c]
  {
    if at >= buffer.Length {
      return false;
    }
    buffer[at] := c;
    ok := true;
  }

  /** The version entry, behind the `</id` that is already there. */
  method PutVersion(o: Object, buffer: array<byte>, at: nat) returns (r: Option<nat>)
    requires at <= buffer.Length
    modifies buffer
    ensures r.Some? ==> at <= r.value <= buffer.Length
    ensures
      var text := VERSION_START + Digits(o.major) + [DOT] + Digits(o.minor) + [COMMA];
      at + |text| < buffer.Length ==> r == Some(at + |text|) && buffer[..at + |text|] == old(buffer[..at]) + text
  {
    hide Digits, AllDigits;
    ghost var was := buffer[..at];
    ghost var text := VERSION_START + Digits(o.major) + [DOT] + Digits(o.minor) + [COMMA];
    var copied := StringCopy(VERSION_START, buffer, at);
    if copied.None? { return None; }
    var index := at + copied.value;
    var n := PutNumber(o.major, buffer, index);
    index := index + n;
    var ok := PutChar(DOT, buffer, index);
    if !ok { return None; }
    index := index + 1;
    n := PutNumber(o.minor, buffer, index);
    index := index + n;
    ok := PutChar(COMMA, buffer, index);
    if !ok { return None; }
    assert was + VERSION_START + Digits(o.major) + [DOT] + Digits(o.minor) + [COMMA] == was + text;
    r := Some(index + 1);
  }

  /** memcpy within the buffer, to a place behind the source. */
  method CopyWithin(buffer: array<byte>, from: nat, to: nat, n: nat)
    requires from + n <= to && to + n <= buffer.Length
    modifies buffer
    ensures buffer[..to + n] == old(buffer[..to]) + old(buffer[from..from + n])
  {
    ghost var was := buffer[..];
    for k := 0 to n
      invariant forall i :: 0 <= i < to ==> buffer[i] == was[i]
      invariant forall i :: to <= i < to + k ==> buffer[i] == was[i - to + from]
    {
      buffer[to + k] := buffer[from + k];
    }
  }

  /** An id, or 0 if it does not fit. */
  method PutId(id: uint16, buffer: array<byte>, at: nat) returns (n: nat)
    requires at <= buffer.Length
    modifies buffer
    ensures n == if at + |Digits(id)| <= buffer.Length then |Digits(id)| else 0
    ensures n > 0 ==> buffer[..at + n] == old(buffer[..at]) + Digits(id)
  {
    hide Digits, AllDigits;
    ghost var was := buffer[..at];
    n := IntToText(id, buffer, at, buffer.Length - at);
    assert buffer[..at] == was;
    assert buffer[..at + n] == was + buffer[at..at + n];
  }

  /** `</id/instance>,` */
  function InstanceText(id: uint16, instance: uint16): bytes {
    Template(id) + Digits(instance) + PATH_END
  }

  /** The id of an instance and the end of its path. */
  method PutTail(instance: uint16, buffer: array<byte>, at: nat) returns (r: Option<nat>)
    requires at <= buffer.Length
    modifies buffer
    ensures
      var text := Digits(instance) + PATH_END;
      && (r.Some? <==> at + |text| < buffer.Length)
      && (r.Some? ==> r.value == at + |text| && buffer[..r.value] == old(buffer[..at]) + text)
  {
    hide Digits, AllDigits;
    ghost var was := buffer[..at];
    var n := PutId(instance, buffer, at);
    if n == 0 { return None; }
    var copied := StringCopy(PATH_END, buffer, at + n);
    if copied.None? { return None; }
    assert was + Digits(instance) + PATH_END == was + (Digits(instance) + PATH_END);
    r := Some(at + n + copied.value);
  }

  /** One round of the loop over the instances: the template is already there for the first and is
      copied from `start` for the others. */
  method PutInstance(id: uint16, instance: uint16, start: nat, length: nat, buffer: array<byte>, at: nat)
    returns (r: Option<nat>)
    requires start + length <= at <= buffer.Length && length == |Template(id)|
    requires buffer[start..start + length] == Template(id)
    modifies buffer
    ensures r.Some? ==> at < r.value <= buffer.Length && buffer[..at] == old(buffer[..at])
    ensures
      var base := if at == start + length then start else at;
      base + |InstanceText(id, instance)| < buffer.Length ==>
        && r == Some(base + |InstanceText(id, instance)|)
        && buffer[..r.value] == old(buffer[..base]) + InstanceText(id, instance)
  {
    hide Digits, AllDigits, Template;
    var index := at;
    ghost var base := if at == start + length then start else at;
    ghost var before := buffer[..at];
    if index != start + length {
      if buffer.Length - index <= length { return None; }
      CopyWithin(buffer, start, index, length);
      index := index + length;
    }
    assert buffer[..index] == buffer[..base] + Template(id);
    ghost var was := buffer[..base];
    assert buffer[..at] == before;
    r := PutTail(instance, buffer, index);
    if r.Some? {
      assert was + Template(id) + (Digits(instance) + PATH_END) == was + InstanceText(id, instance);
      assert buffer[..at] == buffer[..r.value][..at] == before;
    }
  }

  /** The instances, behind the template of the first. */
  method PutInstances(id: uint16, instances: seq<uint16>, start: nat, length: nat, buffer: array<byte>)
    returns (r: Option<nat>)
    requires start + length <= buffer.Length && length == |Template(id)| && instances != []
    requires buffer[start..start + length] == Template(id)
    modifies buffer
    ensures r.Some? ==> start <= r.value <= buffer.Length
    ensures
      var text := InstancesText(id, instances);
      start + |text| < buffer.Length ==> r == Some(start + |text|) && buffer[..start + |text|] == old(buffer[..start]) + text
  {
    hide Template, InstanceText, InstancesText;
    var index := start + length;
    ghost var done, left := buffer[..start], instances;
    ghost var total := done + InstancesText(id, instances);
    for i := 0 to |instances|
      invariant left == instances[i..] && start + length <= index <= buffer.Length
      invariant i == 0 <==> index == start + length
      invariant buffer[start..start + length] == Template(id)
      invariant |total| < buffer.Length ==>
        && |done| == (if i == 0 then start else index) && buffer[..|done|] == done
        && done + InstancesText(id, left) == total
    {
      InstancesStep(done, id, left);
      ghost var before := buffer[..index];
      InPrefix(buffer, index, start, start + length);
      var put := PutInstance(id, instances[i], start, length, buffer, index);
      if put.None? { return None; }
      InPrefix(buffer, index, start, start + length);
      assert buffer[..index] == before;
      index := put.value;
      done, left := done + InstanceText(id, instances[i]), left[1..];
    }
    InstancesStep(done, id, []);
    r := Some(index);
  }

  lemma InPrefix(buffer: array<byte>, at: nat, from: nat, to: nat)
    requires from <= to <= at <= buffer.Length
    ensures buffer[from..to] == buffer[..at][from..to]
  {
  }

  lemma InstancesStep(done: bytes, id: uint16, instances: seq<uint16>)
    ensures instances == [] ==> done + InstancesText(id, instances) == done
    ensures instances != [] ==>
      && done + InstancesText(id, instances) == (done + InstanceText(id, instances[0])) + InstancesText(id, instances[1..])
      && |done + InstancesText(id, instances)| >= |done| + |InstanceText(id, instances[0])|
  {
    if instances != [] {
      var rest := InstancesText(id, instances[1..]);
      assert done + (InstanceText(id, instances[0]) + rest) == (done + InstanceText(id, instances[0])) + rest;
    }
  }

  /** The entry of the object itself, and the template of its first instance behind it: where they
      meet. */
  method PutHead(o: Object, buffer: array<byte>, at: nat) returns (r: Option<nat>)
    requires at <= buffer.Length
    modifies buffer
    ensures r.Some? ==> at <= r.value <= buffer.Length
    ensures r.Some? && o.instances != [] ==>
      r.value + |Template(o.id)| <= buffer.Length && buffer[r.value..r.value + |Template(o.id)|] == Template(o.id)
    ensures
      var text := HeadText(o);
      at + |text| + (if o.instances != [] then |Template(o.id)| + 1 else 0) < buffer.Length ==>
        r == Some(at + |text|) && buffer[..at + |text|] == old(buffer[..at]) + text
  {
    HeadTexts(o);
    hide Digits, AllDigits, HeadText, Template, VersionText;
    ghost var was := buffer[..at];
    var template := PutTemplate(o.id, buffer, at);
    if template.None? { return None; }
    Seam(buffer, at, was, Template(o.id));
    if o.major != 0 || o.minor != 0 {
      r := PutVersionEntry(o, buffer, at);
      if r.Some? && o.instances != [] {
        ghost var before := buffer[..r.value];
        template := PutTemplate(o.id, buffer, r.value);
        if template.None? { return None; }
        Seam(buffer, r.value, before, Template(o.id));
      }
    } else if o.instances == [] {
      r := PutEnd(o, buffer, at);
    } else {
      r := Some(at);
    }
  }

  lemma HeadTexts(o: Object)
    ensures Versioned(o) ==> HeadText(o) == VersionText(o)
    ensures !Versioned(o) ==> HeadText(o) == if o.instances == [] then [LESS, SLASH] + Digits(o.id) + PATH_END else []
    ensures |HeadText(o)| + (if o.instances != [] then |Template(o.id)| + 1 else 0) >= |Template(o.id)| + 1
  {
  }

  /** What was appended is where it was appended. */
  lemma Seam(buffer: array<byte>, at: nat, before: bytes, text: bytes)
    requires |before| == at && at + |text| <= buffer.Length && buffer[..at + |text|] == before + text
    ensures buffer[..at] == before && buffer[at..at + |text|] == text
  {
    assert buffer[..at] == buffer[..at + |text|][..at];
    assert buffer[at..at + |text|] == buffer[..at + |text|][at..];
  }

  /** The version over the last slash of the template. */
  method PutVersionEntry(o: Object, buffer: array<byte>, at: nat) returns (r: Option<nat>)
    requires at + |Template(o.id)| <= buffer.Length && buffer[at..at + |Template(o.id)|] == Template(o.id)
    modifies buffer
    ensures r.Some? ==> at <= r.value <= buffer.Length
    ensures at + |VersionText(o)| < buffer.Length ==>
      r == Some(at + |VersionText(o)|) && buffer[..at + |VersionText(o)|] == old(buffer[..at]) + VersionText(o)
  {
    hide Digits, AllDigits;
    ghost var was, name := buffer[..at], [LESS, SLASH] + Digits(o.id);
    assert buffer[..at + |name|] == was + name by {
      assert buffer[at..at + |name|] == buffer[at..at + |Template(o.id)|][..|name|];
    }
    r := PutVersion(o, buffer, at + |Template(o.id)| - 1);
    assert was + name + (VERSION_START + Digits(o.major) + [DOT] + Digits(o.minor) + [COMMA]) == was + VersionText(o);
  }

  /** The end of a path over the last slash of the template. */
  method PutEnd(o: Object, buffer: array<byte>, at: nat) returns (r: Option<nat>)
    requires at + |Template(o.id)| <= buffer.Length && buffer[at..at + |Template(o.id)|] == Template(o.id)
    modifies buffer
    ensures r.Some? ==> at <= r.value <= buffer.Length
    ensures
      var text := [LESS, SLASH] + Digits(o.id) + PATH_END;
      at + |text| < buffer.Length ==> r == Some(at + |text|) && buffer[..at + |text|] == old(buffer[..at]) + text
  {
    hide Digits, AllDigits;
    ghost var was, name := buffer[..at], [LESS, SLASH] + Digits(o.id);
    assert buffer[..at + |name|] == was + name by {
      assert buffer[at..at + |name|] == buffer[at..at + |Template(o.id)|][..|name|];
    }
    var index := at + |Template(o.id)| - 1;
    var copied := StringCopy(PATH_END, buffer, index);
    if copied.None? { return None; }
    assert was + name + PATH_END == was + (name + PATH_END);
    r := Some(index + copied.value);
  }

  /** One object of the fill pass. */
  method PutObject(o: Object, buffer: array<byte>, at: nat) returns (r: Option<nat>)
    requires at <= buffer.Length
    modifies buffer
    ensures r.Some? ==> at <= r.value <= buffer.Length
    ensures at + |ObjectText(o)| < buffer.Length ==>
      r == Some(at + |ObjectText(o)|) && buffer[..at + |ObjectText(o)|] == old(buffer[..at]) + ObjectText(o)
  {
    hide Digits, AllDigits, HeadText, Template, InstancesText;
    ghost var was := buffer[..at];
    AtLeastTemplate(o);
    r := PutHead(o, buffer, at);
    if r.None? || o.instances == [] {
      NoInstances(o.id);
      assert HeadText(o) + [] == HeadText(o);
      return;
    }
    r := PutInstances(o.id, o.instances, r.value, |Template(o.id)|, buffer);
    assert was + HeadText(o) + InstancesText(o.id, o.instances) == was + ObjectText(o);
  }

  lemma AtLeastTemplate(o: Object)
    ensures |ObjectText(o)| >= |Template(o.id)| + 1
    ensures o.instances != [] ==> |InstancesText(o.id, o.instances)| >= |Template(o.id)| + 1
  {
  }

  lemma ObjectsStep(done: bytes, objects: seq<Object>)
    ensures objects == [] ==> done + ObjectsText(objects) == done
    ensures objects != [] && objects[0].id == SECURITY ==> ObjectsText(objects) == ObjectsText(objects[1..])
    ensures objects != [] && objects[0].id != SECURITY ==>
      && done + ObjectsText(objects) == (done + ObjectText(objects[0])) + ObjectsText(objects[1..])
      && |done + ObjectsText(objects)| >= |done| + |ObjectText(objects[0])|
  {
    if objects != [] {
      var rest := ObjectsText(objects[1..]);
      assert [] + rest == rest;
      assert done + (ObjectText(objects[0]) + rest) == (done + ObjectText(objects[0])) + rest;
    }
  }

  /** object_getRegisterPayload: its length, or 0 if it does not fit into the buffer. */
  method GetRegisterPayload(altPath: bytes, f: Formats, objects: seq<Object>, buffer: array<byte>) returns (n: nat)
    modifies buffer
    ensures
      var text := PayloadText(altPath, f, objects);
      |text| < buffer.Length ==> n == |text| - 1 && buffer[..n] == text[..n] && buffer[n] == 0
  {
    hide ResourceType, ObjectText, ObjectsText;
    ghost var text := PayloadText(altPath, f, objects);
    var copied := StringCopy([LESS], buffer, 0);
    if copied.None? { return 0; }
    var index := copied.value;
    copied := StringCopy(if altPath != [] then altPath else [SLASH], buffer, index);
    if copied.None? { return 0; }
    index := index + copied.value;
    copied := StringCopy(ResourceType(f), buffer, index);
    if copied.None? { return 0; }
    index := index + copied.value;
    ghost var done, left := StartText(altPath, f), objects;
    assert buffer[..index] == done;
    for i := 0 to |objects|
      invariant left == objects[i..] && 0 < index <= buffer.Length
      invariant |text| < buffer.Length ==> buffer[..index] == done && done + ObjectsText(left) == text
    {
      ObjectsStep(done, left);
      if objects[i].id != SECURITY {
        var put := PutObject(objects[i], buffer, index);
        if put.None? { return 0; }
        index := put.value;
        done := done + ObjectText(objects[i]);
      }
      left := left[1..];
    }
    ObjectsStep(done, []);
    index := index - 1;
    buffer[index] := 0;
    n := index;
  }

  // ---- the two passes together -----------------------------------------------------------

  predicate HasOscore(objects: seq<Object>) {
    exists i :: 0 <= i < |objects| && objects[i].id == OSCORE
  }

  lemma {:induction false} CountedAll(objects: seq<Object>)
    requires !HasOscore(objects)
    ensures Counted(objects) == objects
  {
    if objects != [] {
      assert objects[0].id != OSCORE;
      forall i | 0 <= i < |objects[1..]| ensures objects[1..][i].id != OSCORE { assert objects[i + 1].id != OSCORE; }
      CountedAll(objects[1..]);
      assert [objects[0]] + objects[1..] == objects;
    }
  }

  lemma {:induction false} CountedLess(objects: seq<Object>)
    ensures |ObjectsText(Counted(objects))| <= |ObjectsText(objects)|
    ensures HasOscore(objects) ==> |ObjectsText(Counted(objects))| + 6 <= |ObjectsText(objects)|
  {
    hide Digits, ObjectText;
    if objects != [] {
      CountedLess(objects[1..]);
      CountedStep(objects);
      if objects[0].id == OSCORE { OscoreText(objects[0]); }
      if HasOscore(objects) && objects[0].id != OSCORE {
        var i :| 0 <= i < |objects| && objects[i].id == OSCORE;
        assert objects[1..][i - 1].id == OSCORE;
      }
    }
  }

  lemma OscoreText(o: Object)
    requires o.id == OSCORE
    ensures |ObjectText(o)| >= 6
  {
    AtLeastTemplate(o);
    assert |Digits(21)| == 2;
  }

  /** The computed size exceeds the text by one byte exactly if the list has no OSCORE object, and
      otherwise does not hold it. */
  lemma SizeEnoughIff(altPath: bytes, f: Formats, objects: seq<Object>)
    ensures
      var size := |PayloadText(altPath, f, Counted(objects))| + 1;
      && (!HasOscore(objects) ==> size == |PayloadText(altPath, f, objects)| + 1)
      && (HasOscore(objects) ==> size < |PayloadText(altPath, f, objects)|)
  {
    hide ObjectsText, StartText;
    if HasOscore(objects) { CountedLess(objects); } else { CountedAll(objects); }
  }

  /** prv_register's use of the two passes: without an OSCORE object the payload is complete and two
      bytes shorter than its buffer. */
  method PrintPayload(altPath: bytes, f: Formats, objects: seq<Object>) returns (payload: bytes)
    requires !HasOscore(objects)
    ensures var text := PayloadText(altPath, f, objects); payload == text[..|text| - 1]
  {
    SizeEnoughIff(altPath, f, objects);
    var size := BufferLength(altPath, f, objects);
    var buffer := new byte[size];
    var n := GetRegisterPayload(altPath, f, objects, buffer);
    payload := buffer[..n];
  }
}
