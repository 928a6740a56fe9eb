/** What transaction.c keeps over every run: conservation of transactions and callbacks, distinct
    message ids, and the retransmission schedule. */
module TransactionRuns {
  import opened Bytes
  import opened SortedList
  import opened Transactions

  /** Transmissions of one transaction so far. */
  function Sends(log: seq<Effect>, k: nat): nat {
    if log == [] then 0
    else
      var e := log[|log| - 1];
      Sends(log[..|log| - 1], k) + if e.Transmit? && e.t.serial == k then 1 else 0
  }

  /** Callbacks of one transaction so far. */
  function Calls(log: seq<Effect>, k: nat): nat {
    if log == [] then 0
    else
      var e := log[|log| - 1];
      Calls(log[..|log| - 1], k) + if !e.Transmit? && e.t.serial == k then 1 else 0
  }

  lemma Logged(log: seq<Effect>, e: Effect, k: nat)
    ensures Sends(log + [e], k) == Sends(log, k) + if e.Transmit? && e.t.serial == k then 1 else 0
    ensures Calls(log + [e], k) == Calls(log, k) + if !e.Transmit? && e.t.serial == k then 1 else 0
  {
    assert (log + [e])[..|log|] == log;
  }

  // ---- runs ----------------------------------------------------------------------------

  datatype Action =
    | TakeMid
    | Create(peer: nat, code: byte, token: Option<bytes>, responseTimeout: nat, now: int)
    | Receive(peer: nat, m: Message, now: int)
    | Step(now: int)

  /** A transaction is only created while every live one is at most 65535 allocations old. */
  predicate Enabled(s: State, a: Action) {
    a.Create? ==> forall t :: t in s.list ==> s.allocations - t.serial <= 0xFFFF
  }

  function Next(s: State, a: Action): State {
    match a
    case TakeMid => TakenMid(s)
    case Create(peer, code, token, responseTimeout, now) => AfterCreate(s, peer, code, token, responseTimeout, now)
    case Receive(peer, m, now) => AfterReceive(s, peer, m, now)
    case Step(now) => AfterStep(s, now)
  }

  function Run(s: State, run: seq<Action>): State
    decreases |run|
  {
    if run == [] then s else Run(Next(s, run[0]), run[1..])
  }

  predicate Possible(s: State, run: seq<Action>)
    decreases |run|
  {
    run == [] || (Enabled(s, run[0]) && Possible(Next(s, run[0]), run[1..]))
  }

  function Start(firstMid: uint16): State {
    State([], firstMid, 0, [])
  }

  // ---- the invariant -------------------------------------------------------------------

  /** The id that the k-th allocation handed out. */
  function MidOf(nextMid: uint16, allocations: nat, k: nat): uint16 {
    (nextMid + k - allocations) % 0x1_0000
  }

  /** Seconds from the first transmission to when the k-th one is over: 2 + 4 + ... + 2^k. */
  function BackOff(k: nat): nat {
    RESPONSE_TIMEOUT * (Pow2(k) - 1)
  }

  predicate OnSchedule(t: Transaction) {
    2 <= t.counter <= MAX_RETRANSMIT + 2 && (!t.heard ==> !t.acked && t.due == t.started + BackOff(t.counter - 1))
  }

  predicate LiveOk(s: State, t: Transaction) {
    && t.serial < s.allocations && t.mid == MidOf(s.nextMid, s.allocations, t.serial)
    && OnSchedule(t)
    && Sends(s.log, t.serial) == t.counter - 1
    && Calls(s.log, t.serial) == 0
  }

  predicate Live(s: State, k: nat) {
    exists i :: 0 <= i < |s.list| && s.list[i].serial == k
  }

  /** A transaction that is not in the list was never sent, or has had its one callback. */
  predicate GoneOk(s: State, k: nat) {
    && Sends(s.log, k) <= MAX_RETRANSMIT + 1
    && Calls(s.log, k) == (if Sends(s.log, k) > 0 then 1 else 0)
    && (k >= s.allocations ==> Sends(s.log, k) == 0)
  }

  /** Nothing is re-sent early, and without an answer nothing is given up before 62 seconds. */
  predicate EffectOk(e: Effect) {
    match e
    case Transmit(t, at) => t.counter == 0 || (OnSchedule(t) && t.counter <= MAX_RETRANSMIT + 1 && t.due <= at)
    case GiveUp(t, at) => OnSchedule(t) && t.due <= at && (t.acked || t.counter == MAX_RETRANSMIT + 2)
    case Answer(t, at) => OnSchedule(t)
  }

  ghost predicate Inv(s: State) {
    && Sorted(Mids(s.list))
    && (forall i :: 0 <= i < |s.list| ==> LiveOk(s, s.list[i]))
    && (forall k: nat :: !Live(s, k) ==> GoneOk(s, k))
    && (forall e :: e in s.log ==> EffectOk(e))
  }

  lemma DistinctSerials(s: State, i: nat, j: nat)
    requires Inv(s) && i < |s.list| && j < |s.list| && i != j
    ensures s.list[i].serial != s.list[j].serial
  {
    Ordered(Mids(s.list), i, j);
    Ordered(Mids(s.list), j, i);
    assert s.list[i].mid == Mids(s.list)[i] != Mids(s.list)[j] == s.list[j].mid;
  }

  // ---- every action keeps it -------------------------------------------------------------

  /** One transaction changes in place, with at most one transmission. */
  lemma KeepsInv(s: State, i: nat, t: Transaction, es: seq<Effect>)
    requires Inv(s) && i < |s.list|
    requires t.mid == s.list[i].mid && t.serial == s.list[i].serial && OnSchedule(t)
    requires t.counter == s.list[i].counter + |es| && |es| <= 1
    requires es != [] ==> es[0].Transmit? && es[0].t.serial == t.serial && EffectOk(es[0])
    ensures Inv(s.(list := s.list[i := t], log := s.log + es))
  {
    hide Sorted, OnSchedule, MidOf, EffectOk, Sends, Calls;
    var u := s.(list := s.list[i := t], log := s.log + es);
    assert Mids(u.list) == Mids(s.list);
    forall k: nat ensures Sends(u.log, k) == Sends(s.log, k) + (if es != [] && k == t.serial then 1 else 0)
      ensures Calls(u.log, k) == Calls(s.log, k)
    {
      if es == [] {
        assert u.log == s.log;
      } else {
        assert es == [es[0]];
        Logged(s.log, es[0], k);
      }
    }
    forall j | 0 <= j < |u.list| ensures LiveOk(u, u.list[j]) {
      assert LiveOk(s, s.list[j]);
      if j != i { DistinctSerials(s, i, j); }
    }
    forall k: nat | !Live(u, k) ensures GoneOk(u, k) {
      assert u.list[i].serial != k;
      forall j | 0 <= j < |s.list| ensures s.list[j].serial != k { assert u.list[j].serial != k; }
      assert !Live(s, k);
    }
  }

  /** One transaction leaves, with its callback. */
  lemma DropsInv(s: State, i: nat, e: Effect)
    requires Inv(s) && i < |s.list|
    requires !e.Transmit? && e.t.serial == s.list[i].serial && EffectOk(e)
    ensures Inv(s.(list := Without(s.list, i), log := s.log + [e]))
  {
    hide Sorted, OnSchedule, MidOf, EffectOk, Sends, Calls;
    var u := s.(list := Without(s.list, i), log := s.log + [e]);
    var serial := s.list[i].serial;
    RemoveKeepsSorted(Mids(s.list), i);
    assert Mids(u.list) == Without(Mids(s.list), i);
    forall k: nat ensures Sends(u.log, k) == Sends(s.log, k)
      ensures Calls(u.log, k) == Calls(s.log, k) + if k == serial then 1 else 0
    {
      Logged(s.log, e, k);
    }
    forall j | 0 <= j < |u.list| ensures LiveOk(u, u.list[j]) {
      var j0 := if j < i then j else j + 1;
      assert u.list[j] == s.list[j0] && LiveOk(s, s.list[j0]);
      DistinctSerials(s, i, j0);
    }
    forall k: nat | !Live(u, k) ensures GoneOk(u, k) {
      if k == serial {
        assert LiveOk(s, s.list[i]);
        SendsOfLive(s, i);
      } else {
        forall j | 0 <= j < |s.list| ensures s.list[j].serial != k {
          if j != i { assert u.list[if j < i then j else j - 1] == s.list[j]; }
        }
        assert !Live(s, k);
      }
    }
  }

  lemma SendsOfLive(s: State, i: nat)
    requires i < |s.list| && LiveOk(s, s.list[i])
    ensures 1 <= Sends(s.log, s.list[i].serial) <= MAX_RETRANSMIT + 1
    ensures s.list[i].serial < s.allocations
  {
  }

  lemma SendKeepsInv(s: State, i: nat, now: int)
    requires Inv(s) && i < |s.list| && s.list[i].due <= now
    ensures Inv(AfterSend(s, i, now))
  {
    hide Sorted;
    var t := s.list[i];
    assert LiveOk(s, t);
    SendOk(t, now);
    match Send(t, now) {
      case None => DropsInv(s, i, GiveUp(t, now));
      case Some(u) => KeepsInv(s, i, u, [Transmit(t, now)]);
    }
  }

  /** One retransmission doubles the wait. */
  lemma SendOk(t: Transaction, now: int)
    requires OnSchedule(t) && t.due <= now
    ensures EffectOk(SendEffect(t, now))
    ensures Send(t, now).Some? ==>
      OnSchedule(Send(t, now).value) && Send(t, now).value.counter == t.counter + 1
      && Send(t, now).value.mid == t.mid && Send(t, now).value.serial == t.serial
  {
    assert Pow2(t.counter) == 2 * Pow2(t.counter - 1);
  }

  lemma {:induction false} StepFromKeepsInv(s: State, i: nat, now: int, left: int)
    requires Inv(s) && i <= |s.list|
    ensures Inv(StepFrom(s, i, now, left).0)
    decreases |s.list| - i
  {
    hide Inv, Send;
    if i < |s.list| {
      var due := s.list[i].due <= now;
      var u := if due then AfterSend(s, i, now) else s;
      if due { SendKeepsInv(s, i, now); }
      if due && Send(s.list[i], now).None? {
        StepFromKeepsInv(u, i, now, 1);
      } else {
        StepFromKeepsInv(u, i + 1, now, Min(left, if u.list[i].due > now then u.list[i].due - now else 1));
      }
    }
  }

  lemma ReceiveKeepsInv(s: State, peer: nat, m: Message, now: int)
    requires Inv(s)
    ensures Inv(AfterReceive(s, peer, m, now))
  {
    hide Sorted, Finished;
    match Reacting(s.list, peer, m, now) {
      case None =>
      case Some(k) =>
        var t := s.list[k];
        assert LiveOk(s, t);
        match React(t, m, now) {
          case Pass =>
          case Keep(u) =>
            KeepsInv(s, k, u, []);
            assert s.log + [] == s.log;
          case Finish => DropsInv(s, k, Answer(t, now));
        }
    }
  }

  lemma TakeMidKeepsInv(s: State)
    requires Inv(s)
    ensures Inv(TakenMid(s))
  {
    hide Sorted, OnSchedule;
    var u := TakenMid(s);
    forall k: nat ensures MidOf(u.nextMid, u.allocations, k) == MidOf(s.nextMid, s.allocations, k) { }
    forall i | 0 <= i < |u.list| ensures LiveOk(u, u.list[i]) { assert LiveOk(s, s.list[i]); }
    forall k: nat | !Live(u, k) ensures GoneOk(u, k) { assert !Live(s, k); }
  }

  /** The next message id is unused exactly when no live transaction is a multiple of 65536
      allocations old, in particular when all are at most 65535 old. */
  lemma FreshIff(s: State)
    requires Inv(s)
    ensures s.nextMid !in Mids(s.list) <==> forall t :: t in s.list ==> (s.allocations - t.serial) % 0x1_0000 != 0
    ensures (forall t :: t in s.list ==> s.allocations - t.serial <= 0xFFFF) ==> s.nextMid !in Mids(s.list)
  {
    hide Sorted, OnSchedule;
    forall i | 0 <= i < |s.list|
      ensures Mids(s.list)[i] == s.nextMid <==> (s.allocations - s.list[i].serial) % 0x1_0000 == 0
    {
      assert LiveOk(s, s.list[i]);
      SameMid(s.nextMid, s.allocations - s.list[i].serial);
    }
  }

  lemma SameMid(m: uint16, age: nat)
    ensures (m - age) % 0x1_0000 == m <==> age % 0x1_0000 == 0
  {
  }

  /** Creating a transaction keeps the list strictly sorted exactly when its id is unused. */
  lemma CreateSortedIff(list: seq<Transaction>, t: Transaction)
    requires Sorted(Mids(list))
    ensures Sorted(Mids(Insert(list, InsertPos(Mids(list), t.mid), t))) <==> t.mid !in Mids(list)
  {
    var k := InsertPos(Mids(list), t.mid);
    var after := Insert(list, k, t);
    if i :| 0 <= i < |list| && Mids(list)[i] == t.mid {
      var j := if i < k then i else i + 1;
      assert Mids(after)[j] == t.mid == Mids(after)[k];
      if Sorted(Mids(after)) {
        Ordered(Mids(after), j, k);
        Ordered(Mids(after), k, j);
      }
    } else {
      InsertKeepsSorted(list, t);
    }
  }

  lemma CreateKeepsInv(s: State, a: Action)
    requires Inv(s) && a.Create? && Enabled(s, a)
    ensures Inv(Next(s, a))
  {
    hide Sorted, InsertPos;
    FreshIff(s);
    var t := Fresh(s, a.peer, a.code, a.token, a.responseTimeout);
    SendsFresh(t, a.now);
    var v := Send(t, a.now).value;
    CreateSortedIff(s.list, v);
    TakeMidKeepsInv(s);
    forall i | 0 <= i < |s.list| ensures s.list[i].serial != s.allocations { assert LiveOk(s, s.list[i]); }
    assert !Live(s, s.allocations) && GoneOk(s, s.allocations);
    AddsInv(TakenMid(s), InsertPos(Mids(s.list), t.mid), t, v, a.now, s.allocations);
  }

  lemma AddsInv(s: State, k: nat, t: Transaction, v: Transaction, now: int, serial: nat)
    requires Inv(s) && k <= |s.list| && serial + 1 == s.allocations
    requires t.serial == v.serial == serial && !Live(s, serial) && Sends(s.log, serial) == 0
    requires v.mid == MidOf(s.nextMid, s.allocations, serial) && OnSchedule(v) && v.counter == 2 && t.counter == 0
    requires Sorted(Mids(Insert(s.list, k, v))) && EffectOk(Transmit(t, now))
    ensures Inv(s.(list := Insert(s.list, k, v), log := s.log + [Transmit(t, now)]))
  {
    hide Sorted, OnSchedule, MidOf, Sends, Calls, EffectOk;
    var e := Transmit(t, now);
    var u := s.(list := Insert(s.list, k, v), log := s.log + [e]);
    forall j: nat ensures Sends(u.log, j) == Sends(s.log, j) + (if j == serial then 1 else 0)
      ensures Calls(u.log, j) == Calls(s.log, j)
    {
      Logged(s.log, e, j);
    }
    forall i | 0 <= i < |u.list| ensures LiveOk(u, u.list[i]) {
      if i == k {
        assert u.list[i] == v && GoneOk(s, serial);
      } else {
        var i0 := if i < k then i else i - 1;
        assert u.list[i] == s.list[i0] && LiveOk(s, s.list[i0]);
      }
    }
    forall j: nat | !Live(u, j) ensures GoneOk(u, j) {
      assert u.list[k].serial != j;
      forall i | 0 <= i < |s.list| ensures s.list[i].serial != j { assert u.list[if i < k then i else i + 1] == s.list[i]; }
      assert !Live(s, j);
    }
  }

  lemma NextKeepsInv(s: State, a: Action)
    requires Inv(s) && Enabled(s, a)
    ensures Inv(Next(s, a))
  {
    hide Inv, Enabled;
    match a {
      case TakeMid => TakeMidKeepsInv(s);
      case Create(_, _, _, _, _) => CreateKeepsInv(s, a);
      case Receive(peer, m, now) => ReceiveKeepsInv(s, peer, m, now);
      case Step(now) =>
        StepFromIs(s, now, 1);
        StepFromKeepsInv(s, 0, now, 1);
    }
  }

  lemma {:induction false} RunKeepsInv(s: State, run: seq<Action>)
    requires Inv(s) && Possible(s, run)
    ensures Inv(Run(s, run))
    decreases |run|
  {
    hide Inv, Enabled, Next;
    if run != [] {
      NextKeepsInv(s, run[0]);
      RunKeepsInv(Next(s, run[0]), run[1..]);
    }
  }

  // ---- the theorems ----------------------------------------------------------------------

  lemma StartInv(firstMid: uint16)
    ensures Inv(Start(firstMid))
  {
  }

  /** Conservation: in every run the list stays strictly sorted, no transaction is sent more than
      five times, and one that was sent has had exactly one callback when it is no longer in the
      list and none before. */
  lemma Conservation(firstMid: uint16, run: seq<Action>, k: nat)
    requires Possible(Start(firstMid), run)
    ensures var s := Run(Start(firstMid), run);
      && Sorted(Mids(s.list))
      && Sends(s.log, k) <= 5 && Calls(s.log, k) <= 1
      && (Calls(s.log, k) == 1 <==> Sends(s.log, k) > 0 && !Live(s, k))
      && (Live(s, k) ==> Sends(s.log, k) > 0)
  {
    hide Sorted, Sends, Calls;
    StartInv(firstMid);
    RunKeepsInv(Start(firstMid), run);
    var s := Run(Start(firstMid), run);
    if i :| 0 <= i < |s.list| && s.list[i].serial == k {
      assert LiveOk(s, s.list[i]);
    } else {
      assert GoneOk(s, k);
    }
  }

  /** The schedule: as long as no message has changed a transaction, after k transmissions the
      next is due 2 * (2^k - 1) seconds after the first; none is early, and it is not given up
      before 62 seconds. */
  lemma Schedule(firstMid: uint16, run: seq<Action>)
    requires Possible(Start(firstMid), run)
    ensures var s := Run(Start(firstMid), run);
      && (forall t :: t in s.list && !t.heard ==> t.due == t.started + 2 * (Pow2(Sends(s.log, t.serial)) - 1))
      && (forall e :: e in s.log && e.Transmit? && !e.t.heard ==>
            e.t.counter == 0 || e.at >= e.t.started + 2 * (Pow2(e.t.counter - 1) - 1))
      && (forall e :: e in s.log && e.GiveUp? && !e.t.heard ==> e.at >= e.t.started + 62)
  {
    StartInv(firstMid);
    RunKeepsInv(Start(firstMid), run);
    hide Sends, Calls, Sorted;
    var s := Run(Start(firstMid), run);
    forall t | t in s.list && !t.heard ensures t.due == t.started + 2 * (Pow2(Sends(s.log, t.serial)) - 1) {
      assert LiveOk(s, t);
    }
    assert BackOff(5) == 62 by {
      assert Pow2(3) == 8;
      assert Pow2(5) == 2 * (2 * Pow2(3));
    }
    forall e | e in s.log ensures EffectOk(e) { }
  }

  /** The timeout that transaction_step passes on is at most the time to the next due transaction,
      or one second if that is already due, and never less than a second by itself. */
  lemma {:induction false} TimeoutReachesEveryDue(list: seq<Transaction>, now: int, timeout: int)
    ensures forall t :: t in Stepped(list, now) ==> StepTimeout(list, now, timeout) <= Max(1, t.due - now)
    ensures StepTimeout(list, now, timeout) <= Max(1, timeout)
    ensures timeout >= 1 ==> StepTimeout(list, now, timeout) >= 1
  {
    hide Send;
    StepHead(list, now, timeout);
    if list != [] {
      var after := if list[0].due > now then Some(list[0]) else Send(list[0], now);
      var left := if after.None? then 1 else Min(timeout, if after.value.due > now then after.value.due - now else 1);
      TimeoutReachesEveryDue(list[1..], now, left);
    }
  }

  /** A step before which nothing is overdue leaves nothing that is due, so that a caller who comes
      back within the timeout finds nothing overdue again. */
  lemma {:induction false} PunctualStaysPunctual(list: seq<Transaction>, now: int, timeout: int)
    requires forall t :: t in list ==> OnSchedule(t) && t.due >= now
    ensures forall t :: t in Stepped(list, now) ==> t.due > now && StepTimeout(list, now, timeout) <= t.due - now
  {
    NothingDue(list, now);
    TimeoutReachesEveryDue(list, now, timeout);
  }

  lemma {:induction false} NothingDue(list: seq<Transaction>, now: int)
    requires forall t :: t in list ==> OnSchedule(t) && t.due >= now
    ensures forall t :: t in Stepped(list, now) ==> t.due > now
  {
    StepHead(list, now, 1);
    if list != [] {
      NothingDue(list[1..], now);
      assert list[0] in list;
    }
  }
}
