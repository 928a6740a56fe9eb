/** The query of a registration request in registration.c: its length is computed before it is
    printed. */
module RegistrationQuery {
  import opened Bytes
  import opened Text
  import opened RegisterPayload

  const BINDING_UNKNOWN := 1
  const BINDING_U := 2
  const BINDING_T := 4
  const BINDING_S := 8
  const BINDING_N := 16
  const BINDING_Q := 32
  const NUMBER_SPACE := 21

  /** `?lwm2m=1.1&ep=`, `&sms=`, `&b=`, `&Q`, `&lt=` */
  const STARTER: bytes := [63, 108, 119, 109, 50, 109, 61, 49, 46, 49, 38, 101, 112, 61]
  const SMS: bytes := [38, 115, 109, 115, 61]
  const BINDING: bytes := [38, 98, 61]
  const QUEUE: bytes := [38, 81]
  const LIFETIME: bytes := [38, 108, 116, 61]

  predicate Has(binding: byte, flag: nat)
    requires flag > 0
  {
    binding / flag % 2 == 1
  }

  /** Any flag but the unknown and the queue mode one. */
  predicate HasTransport(binding: byte) {
    binding != (if Has(binding, BINDING_UNKNOWN) then BINDING_UNKNOWN else 0)
               + (if Has(binding, BINDING_Q) then BINDING_Q else 0)
  }

  /** What a query says of a server. */
  datatype Query = Query(name: bytes, msisdn: Option<bytes>, binding: byte, lifetime: int64)

  function Flag(binding: byte, flag: nat, letter: byte): bytes
    requires flag > 0
  {
    if Has(binding, flag) then [letter] else []
  }

  function Letters(binding: byte): bytes {
    Flag(binding, BINDING_U, 85) + Flag(binding, BINDING_T, 84) + Flag(binding, BINDING_S, 83) + Flag(binding, BINDING_N, 78)
  }

  function NameText(q: Query): bytes {
    STARTER + q.name + if q.msisdn.Some? then SMS + q.msisdn.value else []
  }

  function BindingText(binding: byte): bytes {
    (if HasTransport(binding) then BINDING + Letters(binding) else []) + (if Has(binding, BINDING_Q) then QUEUE else [])
  }

  function LifetimeText(lifetime: int64): bytes {
    if lifetime != 0 then LIFETIME + IntText(lifetime) else []
  }

  function QueryText(q: Query): bytes {
    NameText(q) + BindingText(q.binding) + LifetimeText(q.lifetime)
  }

  lemma IntFits(n: int64)
    ensures |IntText(n)| < NUMBER_SPACE
  {
    assert Pow10(19) == 10000000000000000000 by {
      assert Pow10(5) == 100000 by { assert Pow10(3) == 1000; }
      assert Pow10(8) == 100000000 by { assert Pow10(6) == 1000000; }
      assert Pow10(12) == 1000000000000 by { assert Pow10(10) == 10000000000; }
      assert Pow10(16) == 10000000000000000 by { assert Pow10(14) == 100000000000000; }
      assert Pow10(18) == 1000000000000000000;
    }
    DigitsAtMost(if n < 0 then 0 - n else n, 19);
  }

  /** The binding part of prv_getRegistrationQueryLength. */
  method BindingLength(binding: byte) returns (length: nat)
    ensures length == |BindingText(binding)|
  {
    hide Has, HasTransport;
    length := 0;
    if HasTransport(binding) {
      length := length + |BINDING|;
      if Has(binding, BINDING_U) { length := length + 1; }
      if Has(binding, BINDING_T) { length := length + 1; }
      if Has(binding, BINDING_S) { length := length + 1; }
      if Has(binding, BINDING_N) { length := length + 1; }
    }
    if Has(binding, BINDING_Q) {
      length := length + |QUEUE|;
    }
  }

  /** prv_getRegistrationQueryLength. */
  method QueryLength(q: Query) returns (length: nat)
    ensures length == |QueryText(q)| + 1
  {
    hide IntText, BindingText;
    var index: nat := |STARTER|;
    index := index + |q.name|;
    if q.msisdn.Some? {
      index := index + |SMS|;
      index := index + |q.msisdn.value|;
    }
    var binding := BindingLength(q.binding);
    index := index + binding;
    if q.lifetime != 0 {
      index := index + |LIFETIME|;
      var scratch := new byte[NUMBER_SPACE];
      IntFits(q.lifetime);
      var n := IntToText(q.lifetime, scratch, 0, NUMBER_SPACE);
      index := index + n;
    }
    length := index + 1;
  }

  /** One letter of the binding, with its bounds check. */
  method PutFlag(binding: byte, flag: nat, letter: byte, buffer: array<byte>, at: nat) returns (r: Option<nat>)
    requires at <= buffer.Length && flag > 0
    modifies buffer
    ensures
      var text := Flag(binding, flag, letter);
      && (r.Some? <==> at + |text| <= buffer.Length)
      && (r.Some? ==> r.value == at + |text| && buffer[..r.value] == old(buffer[..at]) + text)
  {
    if Has(binding, flag) {
      var ok := PutChar(letter, buffer, at);
      return if ok then Some(at + 1) else None;
    }
    r := Some(at);
  }

  /** The letters of the binding. */
  method PutLetters(binding: byte, buffer: array<byte>, at: nat) returns (r: Option<nat>)
    requires at <= buffer.Length
    modifies buffer
    ensures r.Some? <==> at + |Letters(binding)| <= buffer.Length
    ensures r.Some? ==> r.value == at + |Letters(binding)| && buffer[..r.value] == old(buffer[..at]) + Letters(binding)
  {
    hide Flag;
    ghost var was := buffer[..at];
    ghost var u, t := Flag(binding, BINDING_U, 85), Flag(binding, BINDING_T, 84);
    ghost var s, n := Flag(binding, BINDING_S, 83), Flag(binding, BINDING_N, 78);
    var put := PutFlag(binding, BINDING_U, 85, buffer, at);
    if put.None? { return None; }
    put := PutFlag(binding, BINDING_T, 84, buffer, put.value);
    if put.None? { return None; }
    put := PutFlag(binding, BINDING_S, 83, buffer, put.value);
    if put.None? { return None; }
    put := PutFlag(binding, BINDING_N, 78, buffer, put.value);
    assert was + u + t + s + n == was + (u + t + s + n);
    r := put;
  }

  /** The binding part of prv_getRegistrationQuery. */
  method PutBinding(binding: byte, buffer: array<byte>, at: nat) returns (r: Option<nat>)
    requires at <= buffer.Length
    modifies buffer
    ensures r.Some? ==> r.value == at + |BindingText(binding)| <= buffer.Length
    ensures r.Some? ==> buffer[..r.value] == old(buffer[..at]) + BindingText(binding)
    ensures at + |BindingText(binding)| < buffer.Length ==> r.Some?
  {
    hide Has, HasTransport, Letters;
    ghost var was := buffer[..at];
    var index := at;
    ghost var done: bytes := [];
    if HasTransport(binding) {
      var copied := StringCopy(BINDING, buffer, index);
      if copied.None? { return None; }
      var put := PutLetters(binding, buffer, index + copied.value);
      if put.None? { return None; }
      index := put.value;
      done := BINDING + Letters(binding);
      assert was + BINDING + Letters(binding) == was + done;
    }
    assert was + done + [] == was + done;
    if Has(binding, BINDING_Q) {
      var copied := StringCopy(QUEUE, buffer, index);
      if copied.None? { return None; }
      index := index + copied.value;
      assert was + done + QUEUE == was + (done + QUEUE);
    }
    r := Some(index);
  }

  /** The name part of prv_getRegistrationQuery. */
  method PutName(q: Query, buffer: array<byte>) returns (r: Option<nat>)
    modifies buffer
    ensures r.Some? <==> |NameText(q)| < buffer.Length
    ensures r.Some? ==> r.value == |NameText(q)| && buffer[..r.value] == NameText(q)
  {
    var copied := StringCopy(STARTER, buffer, 0);
    if copied.None? { return None; }
    var index := copied.value;
    copied := StringCopy(q.name, buffer, index);
    if copied.None? { return None; }
    index := index + copied.value;
    ghost var done := STARTER + q.name;
    assert buffer[..index] == done;
    if q.msisdn.Some? {
      copied := StringCopy(SMS, buffer, index);
      if copied.None? { return None; }
      index := index + copied.value;
      copied := StringCopy(q.msisdn.value, buffer, index);
      if copied.None? { return None; }
      index := index + copied.value;
      assert done + SMS + q.msisdn.value == done + (SMS + q.msisdn.value);
    }
    assert done + [] == done;
    r := Some(index);
  }

  /** The lifetime part of prv_getRegistrationQuery. */
  method PutLifetime(lifetime: int64, buffer: array<byte>, at: nat) returns (r: Option<nat>)
    requires at <= buffer.Length
    modifies buffer
    ensures r.Some? ==> r.value == at + |LifetimeText(lifetime)| <= buffer.Length
    ensures r.Some? ==> buffer[..r.value] == old(buffer[..at]) + LifetimeText(lifetime)
    ensures at + |LifetimeText(lifetime)| < buffer.Length ==> r.Some?
  {
    hide IntText;
    ghost var was := buffer[..at];
    if lifetime == 0 {
      assert was + [] == was;
      return Some(at);
    }
    var copied := StringCopy(LIFETIME, buffer, at);
    if copied.None? { return None; }
    var index := at + copied.value;
    ghost var before := buffer[..index];
    IntFits(lifetime);
    NotEmpty(lifetime);
    MinLength();
    var n := IntToText(lifetime, buffer, index, buffer.Length - index);
    if n == 0 { return None; }
    assert buffer[..index] == before;
    assert buffer[..index + n] == before + buffer[index..index + n];
    assert was + LIFETIME + IntText(lifetime) == was + (LIFETIME + IntText(lifetime));
    r := Some(index + n);
  }

  lemma NotEmpty(n: int64)
    ensures |IntText(n)| > 0
  {
  }

  lemma MinLength()
    ensures |IntText(INT64_MIN)| == INT64_MIN_LENGTH
  {
    IntMinText();
  }

  /** prv_getRegistrationQuery: the number of bytes with the terminator, 0 if they do not fit. */
  method PrintQuery(q: Query, buffer: array<byte>) returns (n: nat)
    modifies buffer
    ensures n == if |QueryText(q)| < buffer.Length then |QueryText(q)| + 1 else 0
    ensures n > 0 ==> buffer[..n] == QueryText(q) + [0]
  {
    hide NameText, BindingText, LifetimeText;
    var put := PutName(q, buffer);
    if put.None? { return 0; }
    put := PutBinding(q.binding, buffer, put.value);
    if put.None? { return 0; }
    put := PutLifetime(q.lifetime, buffer, put.value);
    if put.None? { return 0; }
    var index := put.value;
    assert buffer[..index] == QueryText(q);
    var ok := PutChar(0, buffer, index);
    n := if ok then index + 1 else 0;
  }

  /** prv_register's use of both: a buffer of the computed length is filled exactly, whatever the
      binding, the lifetime and the name. */
  method RegistrationQueryOf(q: Query) returns (query: bytes)
    ensures query == QueryText(q) + [0]
  {
    hide QueryText;
    var length := QueryLength(q);
    var buffer := new byte[length];
    var n := PrintQuery(q, buffer);
    query := buffer[..n];
  }
}
