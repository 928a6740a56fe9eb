/** The lease of a registration across registration.c and transaction.c: when a client whose caller
    is punctual renews it, and when that renewal is settled. One server, seen by lwm2m_step and
    lwm2m_handle_packet; other servers and transactions only make the returned timeout shorter. */
module Lease {
  import opened Bytes
  import T = Transactions
  import R = Registration
  import Runs = TransactionRuns

  const POST: byte := 2
  /** Seconds from the first transmission to the last possible end: 62 of back-off and 12 after an
      empty acknowledgement. */
  const SETTLED_AFTER := 74
  /** The longest a step lets its caller wait while a renewal is underway. */
  const LONGEST_WAIT := 32

  datatype Event =
    | Renewal(at: int, registration: int)
    | Settled(at: int, registration: int, started: int)

  /** `now` is the time of the last call, `wake` the time by which the last step wants to be called
      again. */
  datatype Client = Client(now: int, wake: int, server: R.Server, update: Option<T.Transaction>, log: seq<Event>)

  datatype Action =
    | Step(now: int, timeout: int, mid: uint16, token: bytes)
    | Receive(m: T.Message, now: int)

  /** The caller is punctual: it calls lwm2m_step no later than the timeout of the last step. The
      server answers the renewal, which has no payload, neither with 4.01 nor block by block. */
  predicate Enabled(c: Client, a: Action) {
    && c.now <= a.now <= c.wake
    && (a.Receive? ==> a.m.code != T.UNAUTHORIZED && !R.Continues(R.Reply(a.m.code, None)))
  }

  /** registration_step for the server: with the transaction that prv_updateRegistration sends. */
  function Renewed(c: Client, now: int, mid: uint16, token: bytes): Client {
    var s := R.StepServer(c.server, now);
    if c.server.status != R.UpdatePending && s.status == R.UpdatePending then
      var t := T.Transaction(mid, 0, POST, Some(token), 0, false, 0, 0, 0, 0, false);
      c.(server := s, update := T.Send(t, now), log := c.log + [Renewal(now, c.server.registration)])
    else c.(server := s)
  }

  function Settle(c: Client, r: R.Reply, now: int): Client
    requires c.update.Some?
  {
    c.(server := R.UpdateReply(c.server, r, now), update := None,
       log := c.log + [Settled(now, c.server.registration, c.update.value.started)])
  }

  /** lwm2m_step: registration_step, then transaction_step. */
  function AfterStep(c: Client, now: int, timeout: int, mid: uint16, token: bytes): Client {
    var left := match R.Wait(c.server, now) case None => timeout case Some(w) => Min(timeout, w);
    var d := Renewed(c, now, mid, token);
    match d.update
    case None => d.(now := now, wake := now + left)
    case Some(t) =>
      var e := if t.due > now then d
               else if T.Send(t, now).Some? then d.(update := T.Send(t, now))
               else Settle(d, R.NoReply, now);
      e.(now := now, wake := now + T.StepTimeout([t], now, left))
  }

  /** lwm2m_handle_packet for a response of the server. With `eager` the caller steps right after
      it, without it only when the timeout is over. */
  function AfterReceive(c: Client, m: T.Message, now: int, eager: bool): Client {
    var d := match c.update
      case None => c
      case Some(t) =>
        (match T.React(t, m, now)
         case Pass => c
         case Keep(u) => c.(update := Some(u))
         case Finish => Settle(c, R.Reply(m.code, None), now));
    d.(now := now, wake := if eager then now else c.wake)
  }

  function Next(c: Client, a: Action, eager: bool): Client {
    match a
    case Step(now, timeout, mid, token) => AfterStep(c, now, timeout, mid, token)
    case Receive(m, now) => AfterReceive(c, m, now, eager)
  }

  function Run(c: Client, run: seq<Action>, eager: bool): Client
    decreases |run|
  {
    if run == [] then c else Run(Next(c, run[0], eager), run[1..], eager)
  }

  predicate Possible(c: Client, run: seq<Action>, eager: bool)
    decreases |run|
  {
    run == [] || (Enabled(c, run[0]) && Possible(Next(c, run[0], eager), run[1..], eager))
  }

  /** Just registered, at the time of the last call, with the next step due as after any answer. */
  predicate JustRegistered(c: Client, eager: bool) {
    && c.server.status == R.Registered && c.server.registration == c.now && c.update == None && c.log == []
    && c.now <= c.wake <= c.now + if eager then 0 else LONGEST_WAIT
  }

  // ---- the invariant -------------------------------------------------------------------

  /** The renewal's transaction: either unheard of and on schedule, or acknowledged. */
  predicate Underway(c: Client, t: T.Transaction) {
    && t.responseTimeout == 0 && 2 <= t.counter <= 6 && (t.heard <==> t.acked)
    && t.started <= c.server.registration + c.server.lifetime - R.MAX_TRANSMIT_WAIT
    && c.wake <= c.now + LONGEST_WAIT
    && if t.acked then
        && t.due <= t.started + SETTLED_AFTER && t.due <= c.now + 12
        && c.wake <= t.started + SETTLED_AFTER
      else
        && t.due == t.started + Runs.BackOff(t.counter - 1)
        && t.started + Runs.BackOff(t.counter - 2) <= c.now
        && c.wake <= t.due
  }

  predicate EventOk(e: Event, lifetime: nat) {
    match e
    case Renewal(at, registration) => at <= registration + lifetime - R.MAX_TRANSMIT_WAIT
    case Settled(at, registration, started) =>
      at <= started + SETTLED_AFTER && at <= registration + lifetime - (R.MAX_TRANSMIT_WAIT - SETTLED_AFTER)
  }

  predicate Inv(c: Client) {
    && (forall e :: e in c.log ==> EventOk(e, c.server.lifetime))
    && match c.server.status
       case Registered =>
         && c.update == None && c.server.registration <= c.now
         && c.wake <= c.server.registration + c.server.lifetime - R.MAX_TRANSMIT_WAIT
       case UpdatePending => c.update.Some? && Underway(c, c.update.value)
       case Failed => c.update == None
       case _ => false
  }

  lemma BackOffs(k: nat)
    requires k <= 5
    ensures Runs.BackOff(k) == [0, 2, 6, 14, 30, 62][k]
  {
    assert Pow2(3) == 8;
    assert Pow2(5) == 2 * (2 * Pow2(3));
  }

  lemma StepTimeoutOfOne(t: T.Transaction, now: int, left: int)
    ensures var after := if t.due > now then Some(t) else T.Send(t, now);
      T.StepTimeout([t], now, left) ==
        if after.None? then 1
        else Min(left, if after.value.due > now then after.value.due - now else 1)
  {
    T.StepHead([t], now, left);
    assert [t][1..] == [];
  }

  lemma SendIs(t: T.Transaction, now: int)
    ensures t.acked ==> T.Send(t, now) == None
    ensures !t.acked && t.counter == 0 ==>
      T.Send(t, now) == Some(t.(due := now + 2, counter := 2, started := now))
    ensures !t.acked && 2 <= t.counter <= 5 ==>
      var gap := Runs.BackOff(t.counter) - Runs.BackOff(t.counter - 1);
      T.Send(t, now) == Some(t.(due := t.due + gap, counter := t.counter + 1))
    ensures !t.acked && t.counter > 5 ==> T.Send(t, now) == None
  {
  }

  /** A step while the renewal waits for an answer: nothing, one more transmission, or the end. */
  lemma WaitKeepsInv(c: Client, a: Action)
    requires Inv(c) && Enabled(c, a) && a.Step? && c.server.status == R.UpdatePending
    ensures Inv(AfterStep(c, a.now, a.timeout, a.mid, a.token))
  {
    hide T.StepTimeout, Runs.BackOff, T.Send;
    var t := c.update.value;
    BackOffs(t.counter - 1);
    BackOffs(t.counter - 2);
    SendIs(t, a.now);
    if t.counter <= 5 { BackOffs(t.counter); }
    StepTimeoutOfOne(t, a.now, a.timeout);
  }

  /** A step while the registration stands: it is renewed just in time. */
  lemma RenewalKeepsInv(c: Client, a: Action)
    requires Inv(c) && Enabled(c, a) && a.Step? && c.server.status == R.Registered
    requires R.MAX_TRANSMIT_WAIT < c.server.lifetime
    ensures Inv(AfterStep(c, a.now, a.timeout, a.mid, a.token))
  {
    hide T.StepTimeout, Runs.BackOff, T.Send;
    BackOffs(0);
    BackOffs(1);
    SendIs(T.Transaction(a.mid, 0, POST, Some(a.token), 0, false, 0, 0, 0, 0, false), a.now);
    var d := Renewed(c, a.now, a.mid, a.token);
    if d.update.Some? {
      StepTimeoutOfOne(d.update.value, a.now, a.timeout);
    }
  }

  /** An answer at any time leaves a registration that the next step still renews in time: if the
      caller steps right away, or if the lease is so long that the running wait ends before. */
  lemma ReceiveKeepsInv(c: Client, a: Action, eager: bool)
    requires Inv(c) && Enabled(c, a) && a.Receive? && R.MAX_TRANSMIT_WAIT < c.server.lifetime
    requires eager || R.MAX_TRANSMIT_WAIT + LONGEST_WAIT <= c.server.lifetime
    ensures Inv(AfterReceive(c, a.m, a.now, eager))
  {
    hide T.StepTimeout, Runs.BackOff, T.Send, T.Finished;
    if c.update.Some? {
      var t := c.update.value;
      BackOffs(t.counter - 1);
      BackOffs(t.counter - 2);
    }
  }

  lemma {:induction false} RunKeepsInv(c: Client, run: seq<Action>, eager: bool)
    requires Inv(c) && Possible(c, run, eager) && R.MAX_TRANSMIT_WAIT < c.server.lifetime
    requires eager || R.MAX_TRANSMIT_WAIT + LONGEST_WAIT <= c.server.lifetime
    ensures Inv(Run(c, run, eager)) && Run(c, run, eager).server.lifetime == c.server.lifetime
    decreases |run|
  {
    hide Underway, EventOk, T.Send, T.React, T.StepTimeout;
    if run != [] {
      var a := run[0];
      if a.Receive? {
        ReceiveKeepsInv(c, a, eager);
      } else if c.server.status == R.Registered {
        RenewalKeepsInv(c, a);
      } else if c.server.status == R.UpdatePending {
        WaitKeepsInv(c, a);
      }
      RunKeepsInv(Next(c, a, eager), run[1..], eager);
    }
  }

  // ---- the theorems ----------------------------------------------------------------------

  /** Lease safety. With a lifetime above 93 seconds and a punctual caller who also steps right after
      every answer, every renewal goes out by the registration plus the lifetime less 93 seconds, and
      it is answered or given up within 74 seconds, at least 19 seconds before the lease ends. While
      one is underway the next step is due no later than that. */
  lemma LeaseSafety(c: Client, run: seq<Action>, eager: bool)
    requires JustRegistered(c, eager) && Possible(c, run, eager) && R.MAX_TRANSMIT_WAIT < c.server.lifetime
    requires eager || R.MAX_TRANSMIT_WAIT + LONGEST_WAIT <= c.server.lifetime
    ensures var d := Run(c, run, eager);
      && (forall e :: e in d.log && e.Renewal? ==> e.at <= e.registration + c.server.lifetime - 93)
      && (forall e :: e in d.log && e.Settled? ==>
            e.at <= e.started + 74 && e.at <= e.registration + c.server.lifetime - 19)
      && (d.server.status == R.Registered ==> d.wake <= d.server.registration + c.server.lifetime - 93)
      && (d.update.Some? ==> d.wake <= d.server.registration + c.server.lifetime - 19)
  {
    RunKeepsInv(c, run, eager);
    var d := Run(c, run, eager);
    forall e | e in d.log ensures EventOk(e, c.server.lifetime) { }
    if d.update.Some? {
      var t := d.update.value;
      BackOffs(t.counter - 1);
    }
  }

  // ---- without a step after an answer ------------------------------------------------------

  lemma Then(c: Client, a: Action, rest: seq<Action>)
    requires Enabled(c, a) && Possible(Next(c, a, false), rest, false)
    ensures Possible(c, [a] + rest, false) && Run(c, [a] + rest, false) == Run(Next(c, a, false), rest, false)
  {
    assert ([a] + rest)[1..] == rest;
  }

  /** The action of a step at that time whose caller has nothing else to do for a long time. */
  function Idle(now: int): Action {
    Step(now, 1000, 0, [1])
  }

  predicate Late(c: Client) {
    exists e :: e in c.log && e.Renewal? && e.at > e.registration + c.server.lifetime - R.MAX_TRANSMIT_WAIT
  }

  /** A retransmission that is sent on time. */
  lemma Resent(c: Client)
    requires c.server.status == R.UpdatePending && c.update.Some? && !c.update.value.acked
    requires 2 <= c.update.value.counter <= 5 && c.update.value.due == c.wake && c.now <= c.wake
    ensures Enabled(c, Idle(c.wake))
    ensures
      var t := c.update.value;
      var due := t.due + Runs.BackOff(t.counter) - Runs.BackOff(t.counter - 1);
      Next(c, Idle(c.wake), false) ==
        c.(now := c.wake, wake := due, update := Some(t.(due := due, counter := t.counter + 1)))
  {
    hide T.Send, T.StepTimeout, Runs.BackOff;
    var t := c.update.value;
    SendIs(t, c.wake);
    StepTimeoutOfOne(t, c.wake, 1000);
    BackOffs(t.counter);
    BackOffs(t.counter - 1);
  }

  /** A registration that is renewed with the last step well before. */
  lemma StepRenews(c: Client)
    requires c.server.status == R.Registered && c.update == None && c.now <= c.wake
    requires R.MAX_TRANSMIT_WAIT < c.server.lifetime
    requires c.server.registration + c.server.lifetime - R.MAX_TRANSMIT_WAIT <= c.wake
    ensures Enabled(c, Idle(c.wake))
    ensures
      var t := T.Transaction(0, 0, POST, Some([1]), 0, false, 2, c.wake + 2, 0, c.wake, false);
      Next(c, Idle(c.wake), false) ==
        c.(now := c.wake, wake := c.wake + 2, update := Some(t), server := c.server.(status := R.UpdatePending),
           log := c.log + [Renewal(c.wake, c.server.registration)])
  {
    hide T.Send, T.StepTimeout;
    var t := T.Transaction(0, 0, POST, Some([1]), 0, false, 0, 0, 0, 0, false);
    SendIs(t, c.wake);
    StepTimeoutOfOne(t.(counter := 2, due := c.wake + 2, started := c.wake), c.wake, 1000);
  }

  lemma Answered(c: Client, t: T.Transaction)
    requires c.server.status == R.UpdatePending && c.update == Some(t) && !t.acked && c.now <= c.wake
    requires t.mid == 0 && t.token == Some([1]) && t.code == POST
    ensures
      var a := Receive(T.Message(T.Ack, R.CHANGED, 0, [1]), c.now);
      && Enabled(c, a)
      && Next(c, a, false) == c.(update := None, server := c.server.(status := R.Registered, registration := c.now),
           log := c.log + [Settled(c.now, c.server.registration, t.started)])
  {
  }

  /** From the renewal to the answer: five transmissions on time, the last one answered at once. */
  lemma FiveSends(c: Client) returns (run: seq<Action>)
    requires c.server.status == R.UpdatePending && c.now + 2 == c.wake
    requires c.update == Some(T.Transaction(0, 0, POST, Some([1]), 0, false, 2, c.now + 2, 0, c.now, false))
    ensures Possible(c, run, false)
    ensures Run(c, run, false) == c.(update := None, now := c.now + 30, wake := c.now + 62,
      server := c.server.(status := R.Registered, registration := c.now + 30),
      log := c.log + [Settled(c.now + 30, c.server.registration, c.now)])
  {
    hide Next, Runs.BackOff, Enabled;
    BackOffs(1);
    BackOffs(2);
    BackOffs(3);
    BackOffs(4);
    BackOffs(5);
    Resent(c);
    var c1 := Next(c, Idle(c.wake), false);
    Resent(c1);
    var c2 := Next(c1, Idle(c1.wake), false);
    Resent(c2);
    var c3 := Next(c2, Idle(c2.wake), false);
    Resent(c3);
    var c4 := Next(c3, Idle(c3.wake), false);
    Answered(c4, c4.update.value);
    var a := Receive(T.Message(T.Ack, R.CHANGED, 0, [1]), c4.now);
    Then(c4, a, []);
    Then(c3, Idle(c3.wake), [a] + []);
    Then(c2, Idle(c2.wake), [Idle(c3.wake)] + ([a] + []));
    Then(c1, Idle(c1.wake), [Idle(c2.wake)] + ([Idle(c3.wake)] + ([a] + [])));
    run := [Idle(c1.wake)] + ([Idle(c2.wake)] + ([Idle(c3.wake)] + ([a] + [])));
    Then(c, Idle(c.wake), run);
    run := [Idle(c.wake)] + run;
  }

  lemma {:induction false} Append(c: Client, run: seq<Action>, rest: seq<Action>)
    requires Possible(c, run, false) && Possible(Run(c, run, false), rest, false)
    ensures Possible(c, run + rest, false) && Run(c, run + rest, false) == Run(Run(c, run, false), rest, false)
    decreases |run|
  {
    hide Next, Enabled;
    if run == [] {
      assert run + rest == rest;
    } else {
      assert (run + rest)[1..] == run[1..] + rest;
      Append(Next(c, run[0], false), run[1..], rest);
    }
  }

  /** With a shorter lease, an answer to the fifth transmission comes while the caller still waits
      for 32 seconds, which is too long for the next renewal. */
  lemma LateRenewal(c: Client) returns (run: seq<Action>)
    requires JustRegistered(c, true)
    requires R.MAX_TRANSMIT_WAIT < c.server.lifetime < R.MAX_TRANSMIT_WAIT + LONGEST_WAIT
    ensures Possible(c, run, false) && Late(Run(c, run, false))
  {
    var lifetime, start := c.server.lifetime, c.now;
    var c1 := Next(c, Idle(start), false);
    assert c1 == c.(wake := start + lifetime - R.MAX_TRANSMIT_WAIT);
    StepRenews(c1);
    var c2 := Next(c1, Idle(c1.wake), false);
    var five := FiveSends(c2);
    var c3 := Run(c2, five, false);
    StepRenews(c3);
    var c4 := Next(c3, Idle(c3.wake), false);
    var e := Renewal(c3.wake, c3.server.registration);
    assert e in c4.log && Late(c4);
    hide Next, Enabled, Late;
    Then(c3, Idle(c3.wake), []);
    Append(c2, five, [Idle(c3.wake)] + []);
    Then(c1, Idle(c1.wake), five + ([Idle(c3.wake)] + []));
    run := [Idle(c1.wake)] + (five + ([Idle(c3.wake)] + []));
    Then(c, Idle(start), run);
    run := [Idle(start)] + run;
  }

  /** For a caller who only keeps to the timeouts, renewals are never late exactly when the lifetime
      is at least 125 seconds. */
  lemma NeverLateIff(c: Client)
    requires JustRegistered(c, true) && R.MAX_TRANSMIT_WAIT < c.server.lifetime
    ensures (forall run :: Possible(c, run, false) ==> !Late(Run(c, run, false)))
      <==> c.server.lifetime >= R.MAX_TRANSMIT_WAIT + LONGEST_WAIT
  {
    hide Enabled, Next;
    if c.server.lifetime >= R.MAX_TRANSMIT_WAIT + LONGEST_WAIT {
      forall run | Possible(c, run, false) ensures !Late(Run(c, run, false)) {
        LeaseSafety(c, run, false);
        RunKeepsInv(c, run, false);
      }
    } else {
      var run := LateRenewal(c);
    }
  }
}
