/** Ordered registrations over every run: none overtakes a lower order, and without blocking
    servers none is forgotten. */
module RegistrationOrder {
  import opened Bytes
  import opened Registration
  import opened RegistrationRuns

  /** A started ordered server has no server of a strictly lower order still waiting. */
  predicate InOrder(servers: seq<Server>) {
    forall i, j :: 0 <= i < |servers| && 0 <= j < |servers| && Ordered(servers[i]) && Ordered(servers[j])
      && servers[i].config.order.value < servers[j].config.order.value && servers[j].status != Deregistered
      ==> servers[i].status != Deregistered
  }

  predicate Ordered(s: Server) {
    s.config.order.Value?
  }

  /** The same servers, with the same ones or fewer still waiting for their first start. */
  predicate NoNewWaiting(was: seq<Server>, after: seq<Server>) {
    && |after| == |was|
    && (forall i :: 0 <= i < |was| ==> after[i].config == was[i].config)
    && (forall i :: 0 <= i < |was| && after[i].status == Deregistered ==> was[i].status == Deregistered)
  }

  /** Servers other than the waiting ones may change freely. */
  lemma SameWaiting(was: seq<Server>, after: seq<Server>)
    requires InOrder(was) && NoNewWaiting(was, after)
    requires forall i :: 0 <= i < |was| && was[i].status == Deregistered ==> after[i].status == Deregistered
    ensures InOrder(after)
  {
  }

  lemma StartKeepsOrder(servers: seq<Server>, restartFailed: bool, now: int)
    requires InOrder(servers) && AllReadable(servers)
    ensures InOrder(Started(servers, restartFailed, now).0)
    ensures NoNewWaiting(servers, Started(servers, restartFailed, now).0)
  {
    var first := StartedIs(servers, restartFailed, now);
    var after := Started(servers, restartFailed, now).0;
    forall i, j | 0 <= i < |after| && 0 <= j < |after| && Ordered(after[i]) && Ordered(after[j])
      && after[i].config.order.value < after[j].config.order.value && after[j].status != Deregistered
      ensures after[i].status != Deregistered
    {
      hide InOrder, AllReadable;
      if after[i].status == Deregistered {
        assert servers[i].status == Deregistered && OrderedCandidate(servers[i], restartFailed);
        if servers[j].status != Deregistered { InOrderAt(servers, i, j); }
      }
    }
  }

  lemma InOrderAt(servers: seq<Server>, i: nat, j: nat)
    requires InOrder(servers) && i < |servers| && j < |servers| && Ordered(servers[i]) && Ordered(servers[j])
    requires servers[i].config.order.value < servers[j].config.order.value && servers[j].status != Deregistered
    ensures servers[i].status != Deregistered
  {
  }

  /** The servers when a sequence of the i-th one has failed: after a start if it hands on, with
      its own new state, and with the blocked ones given up if it blocks them. */
  function Resolved(servers: seq<Server>, i: nat, now: int, t: Server, blocks: bool): seq<Server>
    requires i < |servers|
  {
    var u := if HandsOnFailure(servers[i]) then Started(servers, false, now).0 else servers;
    if blocks then AllBlocked(u[i := t]) else u[i := t]
  }

  lemma SequenceFailureIs(c: Context, i: nat, now: int) returns (t: Server, blocks: bool)
    requires i < |c.servers| && c.servers[i].status == RegPending
    ensures AfterSequenceFailure(c, i, now).servers == Resolved(c.servers, i, now, t, blocks)
    ensures t.config == c.servers[i].config && t.status in {HoldOff, Failed} && (blocks ==> Blocking(t.config))
  {
    hide Started, Pow2;
    NotStarted(c.servers, i, now);
    t := AfterSequenceFailure(c, i, now).servers[i];
    blocks := t.status == Failed && t.config.bootstrap == Value(false) && Blocking(t.config)
      && SequenceLimits(t.config).Some?;
  }

  lemma SequenceFailureKeepsOrder(c: Context, i: nat, now: int)
    requires InOrder(c.servers) && AllReadable(c.servers) && i < |c.servers| && c.servers[i].status == RegPending
    ensures InOrder(AfterSequenceFailure(c, i, now).servers)
    ensures NoNewWaiting(c.servers, AfterSequenceFailure(c, i, now).servers)
  {
    hide InOrder, AfterSequenceFailure, Started, AllReadable;
    var t, blocks := SequenceFailureIs(c, i, now);
    StartKeepsOrder(c.servers, false, now);
    NotStarted(c.servers, i, now);
    var u := if HandsOnFailure(c.servers[i]) then Started(c.servers, false, now).0 else c.servers;
    SameWaiting(u, u[i := t]);
    BlockedInOrder(u[i := t]);
  }

  lemma BlockedInOrder(servers: seq<Server>)
    ensures InOrder(AllBlocked(servers)) && NoNewWaiting(servers, AllBlocked(servers))
  {
    var after := AllBlocked(servers);
    forall i | 0 <= i < |after| && Ordered(after[i]) ensures after[i].status != Deregistered {
      assert after[i] == Blocked(servers[i]);
    }
  }

  /** An attempt that fails before the last of its sequence only changes its own server. */
  lemma AttemptFailureIs(c: Context, i: nat, now: int) returns (t: Server)
    requires i < |c.servers| && c.servers[i].attempt > 0
    ensures t.config == c.servers[i].config && t.status in {HoldOff, Failed}
    ensures t.status == HoldOff ==> t.attempt == c.servers[i].attempt && t.sequence == c.servers[i].sequence
    ensures t.status == Failed ==> c.servers[i].config.attempts.Unreadable? || c.servers[i].config.attemptDelay.Unreadable?
    ensures AfterAttemptFailure(c, i, now) == WithServer(c, i, t) || AfterAttemptFailure(c, i, now) == AfterSequenceFailure(c, i, now)
  {
    hide AfterSequenceFailure;
    var s := c.servers[i];
    t := match AttemptLimits(s.config)
      case None => s.(status := Failed)
      case Some(limits) => s.(registration := now + limits.1 * Pow2(s.attempt - 1), status := HoldOff);
  }

  lemma AnswerKeepsOrder(c: Context, i: nat, r: Reply, now: int)
    requires InOrder(c.servers) && AllReadable(c.servers) && Enabled(c, Answer(i, r, now))
    ensures InOrder(AfterReply(c, i, r, now).servers)
    ensures NoNewWaiting(c.servers, AfterReply(c, i, r, now).servers)
  {
    hide InOrder, AfterSequenceFailure, AfterAttemptFailure, Started;
    var s := c.servers[i];
    if s.status == RegPending {
      var u := WithServer(c, i, s.(registration := now));
      SameWaiting(c.servers, u.servers);
      if Continues(r) {
      } else if r.Reply? && r.code == CREATED {
        var v := u.servers[i := u.servers[i].(status := Registered)];
        SameWaiting(u.servers, v);
        StartKeepsOrder(v, false, now);
      } else {
        var t := AttemptFailureIs(u, i, now);
        SameWaiting(u.servers, u.servers[i := t]);
        SequenceFailureKeepsOrder(u, i, now);
      }
    }
  }

  /** Servers that change neither their configuration nor whether they wait. */
  lemma NextKeepsOrder(c: Context, a: Action)
    requires InOrder(c.servers) && AllReadable(c.servers) && Enabled(c, a)
    ensures InOrder(Next(c, a).servers) && NoNewWaiting(c.servers, Next(c, a).servers)
  {
    hide InOrder;
    match a {
      case Start(now) => StartKeepsOrder(c.servers, true, now);
      case Step(now) => SameWaiting(c.servers, AfterStep(c.servers, now));
      case Answer(i, r, now) => AnswerKeepsOrder(c, i, r, now);
      case AnswerUpdate(i, r, now) => SameWaiting(c.servers, c.servers[i := UpdateReply(c.servers[i], r, now)]);
      case RequestUpdate(_, _) => SameWaiting(c.servers, Next(c, a).servers);
    }
  }

  /** Safety: in every run with readable resources, an ordered server is only ever started once no
      server of a strictly lower order is still waiting, and none that has started waits again. */
  lemma {:induction false} RunKeepsOrder(c: Context, run: seq<Action>)
    requires InOrder(c.servers) && AllReadable(c.servers) && Possible(c, run)
    ensures InOrder(Run(c, run).servers) && NoNewWaiting(c.servers, Run(c, run).servers)
    decreases |run|
  {
    hide InOrder;
    if run != [] {
      NextKeepsOrder(c, run[0]);
      RunKeepsOrder(Next(c, run[0]), run[1..]);
    }
  }

  lemma OrderedSafety(c: Context, run: seq<Action>)
    requires Unstarted(c) && AllReadable(c.servers) && Possible(c, run)
    ensures InOrder(Run(c, run).servers)
  {
    RunKeepsOrder(c, run);
  }

  // ---- handing on ------------------------------------------------------------------------

  predicate Waiting(s: Server) {
    Ordered(s) && s.status == Deregistered
  }

  /** An ordered server in its first sequence of attempts, at whose end the next one is started. */
  predicate First(s: Server) {
    && Ordered(s)
    && ((s.status == HoldOff && (s.sequence == 0 || (s.sequence == 1 && s.attempt > 0)))
        || (s.status == RegPending && s.sequence == 1))
  }

  predicate Underway(servers: seq<Server>) {
    (exists i :: 0 <= i < |servers| && Waiting(servers[i])) ==> exists j :: 0 <= j < |servers| && First(servers[j])
  }

  predicate NonBlocking(servers: seq<Server>) {
    forall i :: 0 <= i < |servers| ==> servers[i].config.blocking != Value(true)
  }

  /** A start hands on to a waiting server, if there is one. */
  lemma StartUnderway(servers: seq<Server>, restartFailed: bool, now: int)
    requires AllReadable(servers)
    ensures Underway(Started(servers, restartFailed, now).0)
  {
    var first := StartedIs(servers, restartFailed, now);
    var after := Started(servers, restartFailed, now).0;
    if i :| 0 <= i < |after| && Waiting(after[i]) {
      assert OrderedCandidate(servers[i], restartFailed);
      assert First(after[first.value]);
    }
  }

  /** A change of one server, or of servers that do not wait, leaves another one underway. */
  lemma StillUnderway(was: seq<Server>, after: seq<Server>)
    requires Underway(was) && NoNewWaiting(was, after)
    requires forall j :: 0 <= j < |was| && First(was[j]) ==> First(after[j])
    ensures Underway(after)
  {
    if i :| 0 <= i < |after| && Waiting(after[i]) {
      assert Waiting(was[i]);
      var j :| 0 <= j < |was| && First(was[j]);
      assert First(after[j]);
    }
  }

  /** Changing one server that does not wait and is not first. */
  lemma OthersUnderway(was: seq<Server>, i: nat, t: Server)
    requires Underway(was) && i < |was| && !First(was[i]) && !(Ordered(t) && t.status == Deregistered)
    ensures Underway(was[i := t])
  {
    var after := was[i := t];
    if k :| 0 <= k < |after| && Waiting(after[k]) {
      assert Waiting(was[k]);
      var j :| 0 <= j < |was| && First(was[j]);
      assert First(after[j]);
    }
  }

  lemma SequenceFailureUnderway(c: Context, i: nat, now: int)
    requires AllReadable(c.servers) && NonBlocking(c.servers) && i < |c.servers| && c.servers[i].status == RegPending
    requires Underway(c.servers) && 1 <= c.servers[i].sequence
    ensures Underway(AfterSequenceFailure(c, i, now).servers)
  {
    hide AfterSequenceFailure, Started;
    var s := c.servers[i];
    assert Readable(s.config) && s.config.blocking != Value(true);
    var t, blocks := SequenceFailureIs(c, i, now);
    hide AllReadable, NonBlocking;
    if HandsOnFailure(s) {
      HandOnUnderway(c.servers, i, now, t);
    } else {
      assert !First(s);
      OthersUnderway(c.servers, i, t);
    }
  }

  lemma HandOnUnderway(servers: seq<Server>, i: nat, now: int, t: Server)
    requires AllReadable(servers) && i < |servers| && servers[i].status == RegPending && t.status in {HoldOff, Failed}
    ensures Underway(Started(servers, false, now).0[i := t])
  {
    hide Started;
    var first := StartedIs(servers, false, now);
    var after := Started(servers, false, now).0[i := t];
    if k :| 0 <= k < |after| && Waiting(after[k]) {
      assert OrderedCandidate(servers[k], false);
      assert Readable(servers[first.value].config);
      assert after[first.value] == Outcome(servers[first.value], false, now, true);
      assert First(after[first.value]);
    }
  }

  lemma AnswerUnderway(c: Context, i: nat, r: Reply, now: int)
    requires AllReadable(c.servers) && NonBlocking(c.servers) && Enabled(c, Answer(i, r, now))
    requires Underway(c.servers) && (c.servers[i].status == RegPending ==> 1 <= c.servers[i].sequence)
    ensures Underway(AfterReply(c, i, r, now).servers)
  {
    hide AfterSequenceFailure, AfterAttemptFailure, Started;
    var s := c.servers[i];
    if s.status == RegPending {
      assert Readable(s.config) && s.config.blocking != Value(true);
      var t := s.(registration := now);
      var u := WithServer(c, i, t);
      StillUnderway(c.servers, u.servers);
      if Continues(r) {
      } else if r.Reply? && r.code == CREATED {
        var v := u.servers[i := t.(status := Registered)];
        StartUnderway(v, false, now);
        if !HandsOnSuccess(t) { OthersUnderway(u.servers, i, v[i]); }
      } else {
        var f := AttemptFailureIs(u, i, now);
        StillUnderway(u.servers, u.servers[i := f]);
        SequenceFailureUnderway(u, i, now);
      }
    }
  }

  lemma NextUnderway(c: Context, a: Action)
    requires AllReadable(c.servers) && NonBlocking(c.servers) && AllRetryOk(c.servers) && Enabled(c, a)
    requires InOrder(c.servers) && Underway(c.servers)
    ensures Underway(Next(c, a).servers)
  {
    hide InOrder, AllReadable, NonBlocking, Times;
    NextKeepsOrder(c, a);
    match a {
      case Start(now) => StartUnderway(c.servers, true, now);
      case Step(now) =>
        forall j | 0 <= j < |c.servers| && First(c.servers[j]) ensures First(AfterStep(c.servers, now)[j]) {
          assert RetryOk(c.servers[j]);
        }
        StillUnderway(c.servers, AfterStep(c.servers, now));
      case Answer(i, r, now) =>
        assert RetryOk(c.servers[i]);
        AnswerUnderway(c, i, r, now);
      case AnswerUpdate(i, r, now) => StillUnderway(c.servers, c.servers[i := UpdateReply(c.servers[i], r, now)]);
      case RequestUpdate(_, _) => StillUnderway(c.servers, Next(c, a).servers);
    }
  }

  lemma {:induction false} RunUnderway(c: Context, run: seq<Action>)
    requires AllReadable(c.servers) && NonBlocking(c.servers) && AllRetryOk(c.servers) && Possible(c, run)
    requires InOrder(c.servers) && Underway(c.servers)
    ensures Underway(Run(c, run).servers)
    decreases |run|
  {
    hide InOrder, Underway, AllRetryOk;
    if run != [] {
      NextUnderway(c, run[0]);
      NextKeepsOrder(c, run[0]);
      NextKeepsRetryOk(c, run[0]);
      RunUnderway(Next(c, run[0]), run[1..]);
    }
  }

  /** Without blocking servers and after the first start, as long as an ordered server still waits
      another one is in its first sequence, which ends within its attempt limit by starting one. */
  lemma NeverStalls(c: Context, now: int, run: seq<Action>)
    requires Unstarted(c) && AllReadable(c.servers) && NonBlocking(c.servers)
    requires Possible(Next(c, Start(now)), run)
    ensures Underway(Run(Next(c, Start(now)), run).servers)
  {
    hide InOrder;
    var d := Next(c, Start(now));
    assert InOrder(c.servers) by { InOrderUnstarted(c); }
    NextKeepsOrder(c, Start(now));
    NextKeepsRetryOk(c, Start(now));
    StartUnderway(c.servers, true, now);
    RunUnderway(d, run);
  }

  lemma InOrderUnstarted(c: Context)
    requires Unstarted(c)
    ensures InOrder(c.servers)
  {
  }

  /** When a server registers while no other one is in its first sequence, the waiting servers are
      handed on to exactly if it is in its first sequence itself or does not block. */
  lemma SuccessHandsOnIff(c: Context, i: nat, r: Reply, now: int, k: nat)
    requires AllReadable(c.servers) && Enabled(c, Answer(i, r, now)) && c.servers[i].status == RegPending
    requires r.Reply? && r.code == CREATED && Ordered(c.servers[i])
    requires forall j :: 0 <= j < |c.servers| && j != i ==> !First(c.servers[j])
    requires k < |c.servers| && Waiting(c.servers[k])
    ensures Underway(AfterReply(c, i, r, now).servers) <==> c.servers[i].sequence == 1 || !Blocking(c.servers[i].config)
  {
    hide Started;
    var s := c.servers[i].(registration := now, status := Registered);
    var u := c.servers[i := s];
    assert c.servers[i := c.servers[i].(registration := now)][i := s] == u;
    StartUnderway(u, false, now);
    assert Readable(s.config);
    if !HandsOnSuccess(s) {
      assert AfterReply(c, i, r, now).servers == u;
      assert Waiting(u[k]);
      forall j | 0 <= j < |u| ensures !First(u[j]) { assert j != i ==> u[j] == c.servers[j]; }
    }
  }

  /** The server of the given order, which takes one attempt in each of two sequences. */
  function TwoSequences(order: nat, blocking: bool): Server {
    Server(Config(Value(order), Value(blocking), Value(false), Missing, Value(1), Missing, Value(2), Value(0)),
           100, Deregistered, 0, 0, 0, 0)
  }

  /** With a blocking server it is therefore otherwise: when that succeeds only in its second
      sequence, the next server waits with nothing left that would start it. */
  lemma BlockingCanStall()
    ensures
      var c := Context([TwoSequences(1, true), TwoSequences(2, false)], false);
      var run := [Start(0), Step(0), Answer(0, NoReply, 0), Step(0), Answer(0, Reply(CREATED, None), 0)];
      && Unstarted(c) && AllReadable(c.servers) && Possible(c, run)
      && !Underway(Run(c, run).servers)
  {
    var s, t := TwoSequences(1, true), TwoSequences(2, false);
    var c := Context([s, t], false);
    StallStart(c);
    var c1 := c.(servers := [s.(status := HoldOff), t]);
    StallFailure(c1);
    var c3 := c.(servers := [s.(status := HoldOff, sequence := 1, sent := 1), t]);
    StallSuccess(c3);
    hide Next, Enabled, TwoSequences, Underway;
    var rest := [Answer(0, NoReply, 0), Step(0), Answer(0, Reply(CREATED, None), 0)];
    assert ([Start(0), Step(0)] + rest)[1..] == [Step(0)] + rest;
    assert ([Step(0)] + rest)[1..] == rest;
    assert [Start(0), Step(0)] + rest == [Start(0), Step(0), Answer(0, NoReply, 0), Step(0), Answer(0, Reply(CREATED, None), 0)];
    assert rest[1..] == [Step(0), Answer(0, Reply(CREATED, None), 0)];
    assert Possible(c3, rest[1..]) && Run(c3, rest[1..]) == Run(c3, [Step(0), Answer(0, Reply(CREATED, None), 0)]);
    var c2 := Next(c1, Step(0));
    assert Possible(c2, rest) && Run(c2, rest) == Run(c3, rest[1..]);
    assert Possible(c1, [Step(0)] + rest) && Run(c1, [Step(0)] + rest) == Run(c2, rest);
  }

  lemma StallStart(c: Context)
    requires c == Context([TwoSequences(1, true), TwoSequences(2, false)], false)
    ensures Unstarted(c) && AllReadable(c.servers) && Enabled(c, Start(0))
    ensures Next(c, Start(0)) == c.(servers := [c.servers[0].(status := HoldOff), c.servers[1]])
  {
    hide Started;
    var first := StartedIs(c.servers, true, 0);
    assert OrderedCandidate(c.servers[0], true) && OrderedCandidate(c.servers[1], true);
    assert first == Some(0);
  }

  lemma StallFailure(c: Context)
    requires c == Context([TwoSequences(1, true).(status := HoldOff), TwoSequences(2, false)], false)
    ensures Enabled(c, Step(0)) && Enabled(Next(c, Step(0)), Answer(0, NoReply, 0))
    ensures Next(Next(c, Step(0)), Answer(0, NoReply, 0)) ==
      c.(servers := [c.servers[0].(sequence := 1, sent := 1), c.servers[1]])
  {
    hide Started;
    var s := c.servers[0].(status := RegPending, attempt := 1, sequence := 1, sent := 1);
    assert Next(c, Step(0)).servers == [s, c.servers[1]];
  }

  lemma StallSuccess(c: Context)
    requires c == Context([TwoSequences(1, true).(status := HoldOff, sequence := 1, sent := 1), TwoSequences(2, false)], false)
    ensures var run := [Step(0), Answer(0, Reply(CREATED, None), 0)];
      Possible(c, run) && !Underway(Run(c, run).servers)
  {
    hide Started;
    var c1 := Next(c, Step(0));
    var s := c.servers[0].(status := RegPending, attempt := 1, sequence := 2, sent := 2);
    assert c1.servers == [s, c.servers[1]];
    var a := Answer(0, Reply(CREATED, None), 0);
    SuccessHandsOnIff(c1, 0, a.r, 0, 1);
    hide AfterReply, Underway;
    assert [Step(0), a][1..] == [a] && [a][1..] == [];
    var c2 := Next(c1, a);
    assert Possible(c2, []) && Run(c2, []) == c2;
    assert Possible(c1, [a]) && Run(c1, [a]) == c2;
  }
}
