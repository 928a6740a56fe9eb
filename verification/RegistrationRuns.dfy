/** What registration.c keeps over every run: the bound on registrations, the order of ordered
    registrations, and the hand-on from one ordered server to the next. */
module RegistrationRuns {
  import opened Bytes
  import opened Registration

  /** Starts are those of lwm2m_step, which also restart failed servers. There are no
      deregistrations and the list of servers and their resources stay as they are. */
  datatype Action =
    | Start(now: int)
    | Step(now: int)
    | Answer(i: nat, r: Reply, now: int)
    | AnswerUpdate(i: nat, r: Reply, now: int)
    | RequestUpdate(i: nat, full: bool)

  predicate Enabled(c: Context, a: Action) {
    match a
    case Answer(i, _, _) => i < |c.servers| && (c.servers[i].status == RegPending ==> c.servers[i].attempt > 0)
    case AnswerUpdate(i, _, _) => i < |c.servers|
    case RequestUpdate(i, _) => i < |c.servers| && c.servers[i].status in {Registered, UpdatePending}
    case _ => true
  }

  function Next(c: Context, a: Action): (d: Context)
    requires Enabled(c, a)
    ensures |d.servers| == |c.servers|
  {
    match a
    case Start(now) => c.(servers := Started(c.servers, true, now).0)
    case Step(now) => c.(servers := AfterStep(c.servers, now))
    case Answer(i, r, now) => AfterReply(c, i, r, now)
    case AnswerUpdate(i, r, now) => WithServer(c, i, UpdateReply(c.servers[i], r, now))
    case RequestUpdate(i, full) =>
      WithServer(c, i, c.servers[i].(status := if full then FullUpdateNeeded else UpdateNeeded))
  }

  predicate Possible(c: Context, run: seq<Action>)
    decreases |run|
  {
    run == [] || (Enabled(c, run[0]) && Possible(Next(c, run[0]), run[1..]))
  }

  function Run(c: Context, run: seq<Action>): (d: Context)
    requires Possible(c, run)
    ensures |d.servers| == |c.servers|
    decreases |run|
  {
    if run == [] then c else Run(Next(c, run[0]), run[1..])
  }

  /** Before the first start. */
  predicate Unstarted(c: Context) {
    forall i :: 0 <= i < |c.servers| ==> c.servers[i].status == Deregistered && c.servers[i].sent == 0
  }

  predicate Readable(c: Config) {
    && !c.order.Unreadable? && !c.blocking.Unreadable? && !c.bootstrap.Unreadable? && !c.initialDelay.Unreadable?
    && !c.attempts.Unreadable? && !c.attemptDelay.Unreadable? && !c.sequences.Unreadable? && !c.sequenceDelay.Unreadable?
  }

  predicate AllReadable(servers: seq<Server>) {
    forall i :: 0 <= i < |servers| ==> Readable(servers[i].config)
  }

  // ---- what a start does -----------------------------------------------------------------

  predicate OrderedCandidate(s: Server, restartFailed: bool) {
    Candidate(s, restartFailed) && s.config.order.Value?
  }

  /** An unordered candidate is started, an ordered one only if it is the chosen one. */
  function Outcome(s: Server, restartFailed: bool, now: int, chosen: bool): Server {
    if !Candidate(s, restartFailed) then s
    else if s.config.order.Value? && !chosen then Reset(s)
    else match Begin(Reset(s), now) case None => Reset(s) case Some(b) => b
  }

  /** `first` is an ordered candidate of the lowest order among the first n servers. */
  predicate IsLowest(servers: seq<Server>, n: nat, restartFailed: bool, first: Option<nat>)
    requires n <= |servers|
  {
    match first
    case None => forall j :: 0 <= j < n ==> !OrderedCandidate(servers[j], restartFailed)
    case Some(k) =>
      && k < n && OrderedCandidate(servers[k], restartFailed)
      && forall j :: 0 <= j < n && OrderedCandidate(servers[j], restartFailed)
          ==> servers[k].config.order.value <= servers[j].config.order.value
  }

  lemma {:induction false} StartLoopIs(was: seq<Server>, servers: seq<Server>, i: nat, restartFailed: bool, now: int, first: Option<nat>)
    requires AllReadable(was) && |servers| == |was| && i <= |was|
    requires forall j :: 0 <= j < |was| ==>
      servers[j] == if j < i then Outcome(was[j], restartFailed, now, false) else was[j]
    requires IsLowest(was, i, restartFailed, first)
    ensures first.Some? ==> servers[first.value].config.order.Value?
    ensures var (after, ok, lowest) := StartLoop(servers, i, restartFailed, now, first);
      && ok && |after| == |was| && IsLowest(was, |was|, restartFailed, lowest)
      && forall j :: 0 <= j < |was| ==> after[j] == Outcome(was[j], restartFailed, now, false)
    decreases |was| - i
  {
    if i < |was| {
      var s := was[i];
      if !Candidate(s, restartFailed) {
        StartLoopIs(was, servers, i + 1, restartFailed, now, first);
      } else if s.config.order.Missing? {
        StartLoopIs(was, servers[i := Begin(Reset(s), now).value], i + 1, restartFailed, now, first);
      } else {
        var order := s.config.order.value;
        var lower := first.None? || order < servers[first.value].config.order.value;
        StartLoopIs(was, servers[i := Reset(s)], i + 1, restartFailed, now, if lower then Some(i) else first);
      }
    }
  }

  /** A start begins every unordered candidate and, of the ordered ones, exactly one with the lowest
      order; it changes nothing else. */
  lemma StartedIs(servers: seq<Server>, restartFailed: bool, now: int) returns (first: Option<nat>)
    requires AllReadable(servers)
    ensures IsLowest(servers, |servers|, restartFailed, first)
    ensures Started(servers, restartFailed, now).1
    ensures forall j :: 0 <= j < |servers| ==>
      Started(servers, restartFailed, now).0[j] == Outcome(servers[j], restartFailed, now, first == Some(j))
  {
    StartLoopIs(servers, servers, 0, restartFailed, now, None);
    first := StartLoop(servers, 0, restartFailed, now, None).2;
  }

  // ---- the bound on registrations -----------------------------------------------------------

  /** Attempts per sequence and sequences, as the failure handlers count them. */
  function AttemptsOf(c: Config): (n: nat)
    ensures 1 <= n <= LIMIT
  {
    match AttemptLimits(c) case None => 1 case Some(l) => Max(1, l.0)
  }

  function SequencesOf(c: Config): (n: nat)
    ensures 1 <= n <= LIMIT
  {
    match SequenceLimits(c) case None => 1 case Some(l) => Max(1, l.0)
  }

  function Times(a: nat, b: nat): nat {
    a * b
  }

  lemma TimesStep(a: nat, b: nat)
    ensures Times(a + 1, b) == Times(a, b) + b
  {
  }

  lemma TimesMonotone(a: nat, b: nat, c: nat)
    requires a <= b
    ensures Times(a, c) <= Times(b, c)
  {
  }

  /** Where a server is in its attempts and sequences, and how many registrations that took. */
  predicate RetryOk(s: Server) {
    var attempts, sequences := AttemptsOf(s.config), SequencesOf(s.config);
    match s.status
    case RegPending =>
      && 1 <= s.attempt <= attempts && 1 <= s.sequence <= sequences
      && s.sent == Times(s.sequence - 1, attempts) + s.attempt
    case HoldOff =>
      if s.attempt == 0 then s.sequence < sequences && s.sent == Times(s.sequence, attempts)
      else
        && s.attempt < attempts && 1 <= s.sequence <= sequences
        && s.sent == Times(s.sequence - 1, attempts) + s.attempt
    case _ => s.sent <= Times(sequences, attempts)
  }

  predicate AllRetryOk(servers: seq<Server>) {
    forall i :: 0 <= i < |servers| ==> RetryOk(servers[i])
  }

  lemma SentWithin(s: Server)
    requires RetryOk(s)
    ensures s.sent <= Times(SequencesOf(s.config), AttemptsOf(s.config))
  {
    hide Times;
    var attempts, sequences := AttemptsOf(s.config), SequencesOf(s.config);
    if s.status == RegPending || (s.status == HoldOff && s.attempt > 0) {
      TimesStep(s.sequence - 1, attempts);
      TimesMonotone(s.sequence, sequences, attempts);
    } else if s.status == HoldOff {
      TimesMonotone(s.sequence, sequences, attempts);
    }
  }

  lemma StepKeepsRetryOk(s: Server, now: int)
    requires RetryOk(s)
    ensures RetryOk(StepServer(s, now))
  {
    hide Times, AttemptsOf, SequencesOf;
    assert AttemptsOf(s.config) <= LIMIT && SequencesOf(s.config) <= LIMIT;
    SentWithin(s);
  }

  lemma {:induction false} StartLoopKeepsRetryOk(servers: seq<Server>, i: nat, restartFailed: bool, now: int, first: Option<nat>)
    requires AllRetryOk(servers) && i <= |servers|
    requires first.Some? ==> first.value < |servers| && servers[first.value].config.order.Value?
    requires first.Some? ==> Begun(servers[first.value])
    ensures var (after, _, last) := StartLoop(servers, i, restartFailed, now, first);
      AllRetryOk(after) && (last.Some? ==> Begun(after[last.value]))
    decreases |servers| - i
  {
    hide RetryOk;
    if i < |servers| && Candidate(servers[i], restartFailed) {
      var s := Reset(servers[i]);
      ResetRetryOk(servers[i], now);
      var next := if s.config.order.Missing? then Begin(s, now) else Some(s);
      if next.Some? && !s.config.order.Unreadable? {
        var lower := s.config.order.Value? &&
          (first.None? || s.config.order.value < servers[first.value].config.order.value);
        StartLoopKeepsRetryOk(servers[i := next.value], i + 1, restartFailed, now, if lower then Some(i) else first);
      }
    } else if i < |servers| {
      StartLoopKeepsRetryOk(servers, i + 1, restartFailed, now, first);
    }
  }

  /** A server as registration_start leaves it, whether started or not. */
  predicate Begun(s: Server) {
    s.attempt == 0 && s.sequence == 0 && s.sent == 0
  }

  lemma ResetRetryOk(s: Server, now: int)
    requires Candidate(s, true)
    ensures RetryOk(Reset(s)) && (Begin(Reset(s), now).Some? ==> RetryOk(Begin(Reset(s), now).value))
  {
  }

  lemma StartKeepsRetryOk(servers: seq<Server>, restartFailed: bool, now: int)
    requires AllRetryOk(servers)
    ensures AllRetryOk(Started(servers, restartFailed, now).0)
  {
    StartLoopKeepsRetryOk(servers, 0, restartFailed, now, None);
  }

  lemma SequenceFailureKeepsRetryOk(c: Context, i: nat, now: int)
    requires AllRetryOk(c.servers) && i < |c.servers| && c.servers[i].status == RegPending
    requires c.servers[i].attempt == AttemptsOf(c.servers[i].config)
    ensures AllRetryOk(AfterSequenceFailure(c, i, now).servers)
  {
    hide Times, AttemptsOf;
    var s := c.servers[i];
    SentWithin(s);
    TimesStep(s.sequence - 1, AttemptsOf(s.config));
    StartKeepsRetryOk(c.servers, false, now);
    NotStarted(c.servers, i, now);
    var u := if HandsOnFailure(s) then Started(c.servers, false, now).0 else c.servers;
    assert AllRetryOk(u) && u[i] == s;
    forall j | 0 <= j < |u| && u[j].status == Deregistered ensures RetryOk(u[j].(status := Failed)) {
      assert RetryOk(u[j]);
    }
  }

  /** After a failed attempt: the next attempt, the next sequence, or the end. */
  lemma FailureKeepsRetryOk(c: Context, i: nat, now: int)
    requires AllRetryOk(c.servers) && i < |c.servers| && c.servers[i].status == RegPending
    ensures AllRetryOk(AfterAttemptFailure(c, i, now).servers)
  {
    hide Times, AfterSequenceFailure;
    var s := c.servers[i];
    SentWithin(s);
    if AttemptLimits(s.config).Some? && s.attempt >= AttemptLimits(s.config).value.0 {
      SequenceFailureKeepsRetryOk(c, i, now);
    }
  }

  /** A start that restarts no failed servers leaves all but the deregistered ones alone. */
  lemma {:induction false} NotStarted(servers: seq<Server>, i: nat, now: int)
    requires i < |servers| && servers[i].status != Deregistered
    ensures Started(servers, false, now).0[i] == servers[i]
  {
    NotStartedLoop(servers, 0, i, now, None);
  }

  lemma {:induction false} NotStartedLoop(servers: seq<Server>, k: nat, i: nat, now: int, first: Option<nat>)
    requires i < |servers| && k <= |servers| && servers[i].status != Deregistered
    requires first.Some? ==> first.value < |servers| && servers[first.value].config.order.Value? && first.value != i
    ensures var (after, _, last) := StartLoop(servers, k, false, now, first); after[i] == servers[i] && last != Some(i)
    decreases |servers| - k
  {
    if k < |servers| {
      var s := Reset(servers[k]);
      if !Candidate(servers[k], false) {
        NotStartedLoop(servers, k + 1, i, now, first);
      } else if s.config.order.Missing? {
        if Begin(s, now).Some? { NotStartedLoop(servers[k := Begin(s, now).value], k + 1, i, now, first); }
      } else if s.config.order.Value? {
        var lower := first.None? || s.config.order.value < servers[first.value].config.order.value;
        NotStartedLoop(servers[k := s], k + 1, i, now, if lower then Some(k) else first);
      }
    }
  }

  lemma AnswerKeepsRetryOk(c: Context, i: nat, r: Reply, now: int)
    requires AllRetryOk(c.servers) && Enabled(c, Answer(i, r, now))
    ensures AllRetryOk(AfterReply(c, i, r, now).servers)
  {
    hide Times;
    var s := c.servers[i];
    if s.status == RegPending {
      SentWithin(s);
      var u := WithServer(c, i, s.(registration := now));
      assert AllRetryOk(u.servers);
      if Continues(r) {
      } else if r.Reply? && r.code == CREATED {
        var v := WithServer(u, i, s.(registration := now, status := Registered));
        assert AllRetryOk(v.servers);
        StartKeepsRetryOk(v.servers, false, now);
      } else {
        FailureKeepsRetryOk(u, i, now);
      }
    }
  }

  lemma NextKeepsRetryOk(c: Context, a: Action)
    requires AllRetryOk(c.servers) && Enabled(c, a)
    ensures AllRetryOk(Next(c, a).servers)
  {
    hide Times, AttemptsOf, SequencesOf;
    match a {
      case Start(now) => StartKeepsRetryOk(c.servers, true, now);
      case Step(now) =>
        forall i | 0 <= i < |c.servers| ensures RetryOk(AfterStep(c.servers, now)[i]) {
          StepKeepsRetryOk(c.servers[i], now);
        }
      case Answer(i, r, now) => AnswerKeepsRetryOk(c, i, r, now);
      case AnswerUpdate(_, _, _) =>
      case RequestUpdate(_, _) =>
    }
  }

  /** The attempt and sequence limits bound the registrations of every server in every run. */
  lemma {:induction false} RunKeepsRetryOk(c: Context, run: seq<Action>)
    requires AllRetryOk(c.servers) && Possible(c, run)
    ensures AllRetryOk(Run(c, run).servers)
    decreases |run|
  {
    hide RetryOk;
    if run != [] {
      NextKeepsRetryOk(c, run[0]);
      RunKeepsRetryOk(Next(c, run[0]), run[1..]);
    }
  }

  lemma RegistrationBound(c: Context, run: seq<Action>, i: nat)
    requires Unstarted(c) && Possible(c, run) && i < |c.servers|
    ensures var s := Run(c, run).servers[i];
      s.sent <= Times(SequencesOf(s.config), AttemptsOf(s.config))
  {
    RunKeepsRetryOk(c, run);
    SentWithin(Run(c, run).servers[i]);
  }

  /** An answer, or none, that counts as a failed attempt. */
  predicate Fails(r: Reply) {
    !Continues(r) && (r.Reply? ==> r.code != CREATED)
  }

  /** A failing server fails for good exactly when all its attempts of all its sequences are used;
      otherwise the next registration is held off, by twice the delay of the attempt before or, at
      the end of a sequence, by the delay between sequences. */
  lemma FailureIff(c: Context, i: nat, r: Reply, now: int)
    requires AllRetryOk(c.servers) && i < |c.servers| && c.servers[i].status == RegPending
    requires Readable(c.servers[i].config) && Fails(r)
    ensures var s, u := c.servers[i], AfterReply(c, i, r, now).servers[i];
      var (attempts, delay) := AttemptLimits(s.config).value;
      && (u.status == Failed <==> s.sent == Times(SequencesOf(s.config), AttemptsOf(s.config)))
      && (u.status != Failed ==>
            var holdOff := if s.attempt < attempts then delay * Pow2(s.attempt - 1) else SequenceLimits(s.config).value.1;
            u.status == HoldOff && u.registration == now + holdOff)
  {
    hide Times, Started;
    var s := c.servers[i];
    var u := c.servers[i := s.(registration := now)];
    assert RetryOk(s);
    var attempts, sequences := AttemptsOf(s.config), SequencesOf(s.config);
    TimesStep(s.sequence - 1, attempts);
    TimesMonotone(s.sequence, sequences, attempts);
    if s.sequence < sequences {
      TimesMonotone(s.sequence + 1, sequences, attempts);
      TimesStep(s.sequence, attempts);
    }
    NotStarted(u, i, now);
  }

  // ---- a server that never succeeds ------------------------------------------------------------

  /** Registrations a server is sent at most. */
  function Tries(c: Config): nat {
    Times(SequencesOf(c), AttemptsOf(c))
  }

  /** The measure: sequences left, then attempts left in the sequence. */
  predicate Advances(before: Server, after: Server) {
    after.sequence > before.sequence || (after.sequence == before.sequence && after.attempt > before.attempt)
  }

  /** Every failed attempt but the last is followed by a registration with a higher sequence number, or with
      the same one and a higher attempt number, both within their limits. */
  lemma FailureAdvances(c: Context, i: nat, r: Reply, now: int)
    requires AllRetryOk(c.servers) && i < |c.servers| && c.servers[i].status == RegPending
    requires Readable(c.servers[i].config) && Fails(r)
    ensures
      var s, u := c.servers[i], AfterReply(c, i, r, now).servers[i];
      && u.config == s.config && u.sent == s.sent && RetryOk(u)
      && (u.status != Failed ==>
            var v := StepServer(u, u.registration);
            && v.status == RegPending && v.sent == s.sent + 1 && Advances(s, v)
            && v.sequence <= SequencesOf(s.config) && v.attempt <= AttemptsOf(s.config))
  {
    hide Times, Started, AttemptsOf, SequencesOf;
    var s := c.servers[i];
    AnswerKeepsRetryOk(c, i, r, now);
    FailureIff(c, i, r, now);
    var u := AfterReply(c, i, r, now).servers[i];
    assert RetryOk(u) && RetryOk(s);
    AfterFailure(c, i, r, now);
    if u.status != Failed { StepKeepsRetryOk(u, u.registration); }
  }

  /** What a failed attempt leaves of the server. */
  lemma AfterFailure(c: Context, i: nat, r: Reply, now: int)
    requires i < |c.servers| && c.servers[i].status == RegPending && c.servers[i].attempt > 0
    requires Readable(c.servers[i].config) && Fails(r)
    ensures
      var s, u := c.servers[i], AfterReply(c, i, r, now).servers[i];
      && u.config == s.config && u.sent == s.sent && u.sequence == s.sequence && u.status in {HoldOff, Failed}
      && (u.status == HoldOff ==> u.attempt == if s.attempt >= AttemptLimits(s.config).value.0 then 0 else s.attempt)
  {
    hide Started;
    var u := WithServer(c, i, c.servers[i].(registration := now));
    NotStarted(u.servers, i, now);
  }

  /** A started server: it waits, or it is being registered, or it has failed for good. */
  predicate Trying(s: Server) {
    && s.status in {HoldOff, RegPending, Failed} && RetryOk(s) && Readable(s.config)
    && (s.status == Failed <==> s.sent == Tries(s.config) && s.status != RegPending)
  }

  /** What a start makes of a server that it begins. */
  lemma BegunTries(s: Server, now: int)
    requires Candidate(s, true) && Readable(s.config)
    ensures var b := Begin(Reset(s), now); b.Some? && Trying(b.value) && b.value.status == HoldOff && b.value.sent == 0
  {
    assert Times(0, AttemptsOf(s.config)) == 0;
    TimesMonotone(1, SequencesOf(s.config), AttemptsOf(s.config));
    assert Times(1, AttemptsOf(s.config)) == AttemptsOf(s.config);
  }

  /** Actions in which no start happens and no registration of the server succeeds. */
  predicate OnlyFails(run: seq<Action>, i: nat) {
    forall k :: 0 <= k < |run| ==> !run[k].Start? && (run[k].Answer? && run[k].i == i ==> Fails(run[k].r))
  }

  /** How many of the answers in a run are failures of the server's registrations. */
  function Failures(c: Context, run: seq<Action>, i: nat): nat
    requires Possible(c, run) && i < |c.servers|
    decreases |run|
  {
    if run == [] then 0
    else
      (if run[0].Answer? && run[0].i == i && c.servers[i].status == RegPending then 1 else 0)
      + Failures(Next(c, run[0]), run[1..], i)
  }

  /** What other servers do leaves a started server alone. */
  lemma OthersLeave(c: Context, a: Action, i: nat)
    requires Enabled(c, a) && i < |c.servers| && c.servers[i].status in {HoldOff, RegPending, Failed} && !a.Start?
    requires !(a.Answer? && a.i == i)
    ensures Next(c, a).servers[i] == if a.Step? then StepServer(c.servers[i], a.now) else c.servers[i]
  {
    hide Started;
    if a.Answer? && c.servers[a.i].status == RegPending {
      AnswerLeaves(c, a.i, a.r, a.now, i);
    }
  }

  lemma AnswerLeaves(c: Context, j: nat, r: Reply, now: int, i: nat)
    requires j < |c.servers| && i < |c.servers| && i != j && c.servers[j].status == RegPending && c.servers[j].attempt > 0
    requires c.servers[i].status != Deregistered
    ensures AfterReply(c, j, r, now).servers[i] == c.servers[i]
  {
    hide Started;
    var s := c.servers[j].(registration := now);
    NotStarted(c.servers[j := s], i, now);
    NotStarted(c.servers[j := s][j := s.(status := Registered)], i, now);
  }

  /** One action keeps a started server trying, and each registration is either answered by a failure or
      still pending. */
  lemma NextTries(c: Context, a: Action, i: nat)
    requires AllRetryOk(c.servers) && Enabled(c, a) && i < |c.servers| && Trying(c.servers[i]) && OnlyFails([a], i)
    ensures
      var s, t := c.servers[i], Next(c, a).servers[i];
      && t.config == s.config && Trying(t)
      && t.sent - (if t.status == RegPending then 1 else 0) ==
          s.sent - (if s.status == RegPending then 1 else 0)
          + (if a.Answer? && a.i == i && s.status == RegPending then 1 else 0)
  {
    hide Times, Started, AfterReply, RetryOk;
    assert !a.Start? && (a.Answer? && a.i == i ==> Fails(a.r)) by { assert [a][0] == a; }
    NextKeepsRetryOk(c, a);
    var s := c.servers[i];
    if a.Answer? && a.i == i {
      if s.status == RegPending {
        FailureIff(c, i, a.r, a.now);
        assert s.attempt > 0;
        AfterFailure(c, i, a.r, a.now);
      } else {
        Unanswered(c, i, a.r, a.now);
      }
    } else {
      OthersLeave(c, a, i);
    }
  }

  lemma Unanswered(c: Context, i: nat, r: Reply, now: int)
    requires i < |c.servers| && c.servers[i].status != RegPending
    ensures AfterReply(c, i, r, now) == c
  {
  }

  /** Whatever else happens: a server of which no registration succeeds is failed for good exactly when max(1,
      attempts) * max(1, sequences) of its registrations have failed, no more are ever sent, and every one but
      the pending one has been answered by a failure. */
  lemma {:induction false} FailedIffAllTried(c: Context, run: seq<Action>, i: nat)
    requires AllRetryOk(c.servers) && Possible(c, run) && i < |c.servers| && OnlyFails(run, i)
    requires Trying(c.servers[i]) && c.servers[i].status == HoldOff && c.servers[i].sent == 0
    ensures
      var s, n := Run(c, run).servers[i], Failures(c, run, i);
      && (s.status == Failed <==> n == Tries(s.config))
      && s.sent == n + (if s.status == RegPending then 1 else 0) && s.sent <= Tries(s.config)
  {
    hide RetryOk, Tries, Times;
    FailuresCounted(c, run, i);
    SentWithinTries(Run(c, run).servers[i]);
  }

  lemma SentWithinTries(s: Server)
    requires Trying(s)
    ensures s.sent <= Tries(s.config)
  {
    SentWithin(s);
  }

  lemma {:induction false} FailuresCounted(c: Context, run: seq<Action>, i: nat)
    requires AllRetryOk(c.servers) && Possible(c, run) && i < |c.servers| && OnlyFails(run, i) && Trying(c.servers[i])
    ensures
      var s, t := c.servers[i], Run(c, run).servers[i];
      && t.config == s.config && Trying(t)
      && t.sent - (if t.status == RegPending then 1 else 0) ==
          s.sent - (if s.status == RegPending then 1 else 0) + Failures(c, run, i)
    decreases |run|
  {
    hide RetryOk, Trying, Next;
    if run != [] {
      assert OnlyFails([run[0]], i) && OnlyFails(run[1..], i);
      NextKeepsRetryOk(c, run[0]);
      NextTries(c, run[0], i);
      FailuresCounted(Next(c, run[0]), run[1..], i);
    }
  }

  /** One round of a server: the client is stepped, and what is pending then is answered. */
  datatype Round = Round(step: int, reply: Reply, answer: int)

  function AfterRound(c: Context, i: nat, round: Round): (d: Context)
    requires i < |c.servers|
    ensures |d.servers| == |c.servers|
  {
    var d := Next(c, Step(round.step));
    if Enabled(d, Answer(i, round.reply, round.answer)) then Next(d, Answer(i, round.reply, round.answer)) else d
  }

  function AfterRounds(c: Context, i: nat, rounds: seq<Round>): (d: Context)
    requires i < |c.servers|
    ensures |d.servers| == |c.servers|
    decreases |rounds|
  {
    if rounds == [] then c else AfterRounds(AfterRound(c, i, rounds[0]), i, rounds[1..])
  }

  /** Every step comes when the server is due, or later, and every answer is a failure. */
  predicate DueRounds(c: Context, i: nat, rounds: seq<Round>)
    requires i < |c.servers|
    decreases |rounds|
  {
    rounds == [] ||
    (&& (c.servers[i].status == HoldOff ==> c.servers[i].registration <= rounds[0].step)
     && Fails(rounds[0].reply)
     && DueRounds(AfterRound(c, i, rounds[0]), i, rounds[1..]))
  }

  /** A started server that is stepped whenever it is due and never succeeds is sent one registration a round,
      and is failed for good after exactly max(1, attempts) * max(1, sequences) of them. */
  lemma FailsAfterAllTries(c: Context, i: nat, rounds: seq<Round>)
    requires AllRetryOk(c.servers) && i < |c.servers| && DueRounds(c, i, rounds)
    requires Trying(c.servers[i]) && c.servers[i].status == HoldOff && c.servers[i].sent == 0
    ensures
      var s := AfterRounds(c, i, rounds).servers[i];
      && s.sent == Min(|rounds|, Tries(s.config))
      && s.status == if |rounds| >= Tries(s.config) then Failed else HoldOff
  {
    hide RetryOk, Tries, Times;
    RoundsTry(c, i, rounds);
  }

  lemma {:induction false} RoundsTry(c: Context, i: nat, rounds: seq<Round>)
    requires AllRetryOk(c.servers) && i < |c.servers| && DueRounds(c, i, rounds)
    requires Trying(c.servers[i]) && c.servers[i].status != RegPending
    ensures
      var s, t := c.servers[i], AfterRounds(c, i, rounds).servers[i];
      && t.config == s.config && t.sent == Min(s.sent + |rounds|, Tries(s.config))
      && t.status == if t.sent == Tries(s.config) then Failed else HoldOff
    decreases |rounds|
  {
    hide RetryOk, Tries, Times, Next, AfterRound;
    SentWithinTries(c.servers[i]);
    if rounds != [] {
      RoundTries(c, i, rounds[0]);
      RoundsTry(AfterRound(c, i, rounds[0]), i, rounds[1..]);
    }
  }

  lemma RoundTries(c: Context, i: nat, round: Round)
    requires AllRetryOk(c.servers) && i < |c.servers| && Trying(c.servers[i]) && c.servers[i].status != RegPending
    requires (c.servers[i].status == HoldOff ==> c.servers[i].registration <= round.step) && Fails(round.reply)
    ensures
      var d := AfterRound(c, i, round);
      var s, t := c.servers[i], d.servers[i];
      && AllRetryOk(d.servers) && Trying(t) && t.status != RegPending && t.config == s.config
      && t.sent == if s.status == Failed then s.sent else s.sent + 1
  {
    hide Tries, Times, AfterReply, AfterStep;
    var step, answer := Step(round.step), Answer(i, round.reply, round.answer);
    var d := Next(c, step);
    NextKeepsRetryOk(c, step);
    NextTries(c, step, i);
    OthersLeave(c, step, i);
    assert RetryOk(d.servers[i]);
    NextKeepsRetryOk(d, answer);
    NextTries(d, answer, i);
    if d.servers[i].status == RegPending {
      AfterFailure(d, i, round.reply, round.answer);
    } else {
      Unanswered(d, i, round.reply, round.answer);
    }
  }
}
