/** The times of notifications over every run of a punctual client. */
module ObserveRuns {
  import opened Bytes
  import opened Uri
  import opened Observe

  predicate GapsAtLeast(times: seq<int>, d: int) {
    forall k :: 0 < k < |times| ==> times[k] - times[k - 1] >= d
  }

  predicate GapsAtMost(times: seq<int>, d: int) {
    forall k :: 0 < k < |times| ==> times[k] - times[k - 1] <= d
  }

  /** `now` is the time of the last step, `wake` the time by which the next one is due. */
  datatype Client = Client(observed: seq<Observed>, mid: uint16, now: int, wake: int)

  datatype Action =
    | Step(readings: seq<Reading>, now: int, timeout: int)
    | ValueChanged(u: Uri)

  /** Steps are punctual and all reads succeed; the observations stay the same. */
  predicate Enabled(c: Client, a: Action) {
    a.Step? ==>
      && c.now <= a.now <= c.wake
      && |a.readings| == |c.observed| && forall i :: 0 <= i < |a.readings| ==> !a.readings[i].Unreadable?
  }

  function Next(c: Client, a: Action): Client
    requires Enabled(c, a)
  {
    match a
    case Step(readings, now, timeout) =>
      var s := StepObserved(c.observed, readings, now, c.mid, timeout);
      Client(s.list, s.mid, now, now + s.timeout)
    case ValueChanged(u) => c.(observed := Changed(c.observed, u))
  }

  predicate Possible(c: Client, run: seq<Action>)
    decreases |run|
  {
    run == [] || (Enabled(c, run[0]) && Possible(Next(c, run[0]), run[1..]))
  }

  function Run(c: Client, run: seq<Action>): Client
    requires Possible(c, run)
    decreases |run|
  {
    if run == [] then c else Run(Next(c, run[0]), run[1..])
  }

  // ---- what a step does to each watcher ------------------------------------------------------

  predicate Within(list: seq<Observed>, i: nat, j: nat) {
    i < |list| && j < |list[i].watchers|
  }

  lemma {:induction false} TimeoutFalls(watchers: seq<Watcher>, r: Reading, now: int, mid: uint16, timeout: int)
    ensures StepWatchers(watchers, r, now, mid, timeout).timeout <= timeout
  {
    if watchers != [] {
      var w := watchers[0];
      var left := Lower(Lower(timeout, WaitMin(w, r, now)), WaitMax(StepWatcher(w, r, now, mid), r, now));
      TimeoutFalls(watchers[1..], r, now, NextMid(w, r, now, mid), left);
    }
  }

  lemma {:induction false} StepsWatcher(watchers: seq<Watcher>, r: Reading, now: int, mid: uint16, timeout: int, j: nat)
    returns (m: uint16)
    requires j < |watchers|
    ensures
      var s, after := StepWatchers(watchers, r, now, mid, timeout), StepWatcher(watchers[j], r, now, m);
      && s.list[j] == after
      && s.timeout <= Lower(Lower(timeout, WaitMin(watchers[j], r, now)), WaitMax(after, r, now))
  {
    hide StepWatcher, WaitMin, WaitMax, NextMid;
    var w := watchers[0];
    var left := Lower(Lower(timeout, WaitMin(w, r, now)), WaitMax(StepWatcher(w, r, now, mid), r, now));
    if j == 0 {
      m := mid;
      TimeoutFalls(watchers[1..], r, now, NextMid(w, r, now, mid), left);
    } else {
      m := StepsWatcher(watchers[1..], r, now, NextMid(w, r, now, mid), left, j - 1);
    }
  }

  lemma {:induction false} ObservedTimeoutFalls(list: seq<Observed>, readings: seq<Reading>, now: int, mid: uint16, timeout: int)
    requires |readings| == |list|
    ensures StepObserved(list, readings, now, mid, timeout).timeout <= timeout
  {
    hide StepWatchers;
    if list != [] {
      var first := StepWatchers(list[0].watchers, readings[0], now, mid, timeout);
      TimeoutFalls(list[0].watchers, readings[0], now, mid, timeout);
      ObservedTimeoutFalls(list[1..], readings[1..], now, first.mid, first.timeout);
    }
  }

  /** Each watcher is stepped by itself, and the timeout is no later than what it waits for. */
  lemma {:induction false} StepsEach(list: seq<Observed>, readings: seq<Reading>, now: int, mid: uint16, timeout: int,
                                     i: nat, j: nat) returns (m: uint16)
    requires |readings| == |list| && Within(list, i, j)
    ensures
      var s, w, r := StepObserved(list, readings, now, mid, timeout), list[i].watchers[j], readings[i];
      && |s.list[i].watchers| == |list[i].watchers|
      && s.list[i].watchers[j] == StepWatcher(w, r, now, m)
      && s.timeout <= Lower(Lower(timeout, WaitMin(w, r, now)), WaitMax(StepWatcher(w, r, now, m), r, now))
  {
    hide StepWatcher, WaitMin, WaitMax, StepWatchers;
    var first := StepWatchers(list[0].watchers, readings[0], now, mid, timeout);
    if i == 0 {
      m := StepsWatcher(list[0].watchers, readings[0], now, mid, timeout, j);
      ObservedTimeoutFalls(list[1..], readings[1..], now, first.mid, first.timeout);
    } else {
      TimeoutFalls(list[0].watchers, readings[0], now, mid, timeout);
      m := StepsEach(list[1..], readings[1..], now, first.mid, first.timeout, i - 1, j);
    }
  }

  // ---- the invariant -------------------------------------------------------------------

  /** A minimum period that is not above the maximum period, if there is one. */
  predicate Compatible(p: Attributes) {
    p.minPeriod.Some? && (p.maxPeriod.Some? ==> p.minPeriod.value <= p.maxPeriod.value)
  }

  /** The notifications of a watcher so far were neither too early nor too late, and the next step
      comes in time. */
  predicate Timely(w: Watcher, now: int, wake: int) {
    var p := w.Attributes();
    && w.times != [] && w.times[|w.times| - 1] == w.lastTime <= now
    && (Compatible(p) ==> GapsAtLeast(w.times, p.minPeriod.value))
    && (p.maxPeriod.Some? ==> GapsAtMost(w.times, p.maxPeriod.value) && wake <= w.lastTime + p.maxPeriod.value)
  }

  /** An accepted observe request starts a timely watcher, if the next step comes within its maximum
      period. */
  lemma AcceptedIsTimely(w: Watcher, now: int, mid: uint16, r: Reading, wake: int)
    requires w.Attributes().maxPeriod.Some? ==> wake <= now + w.Attributes().maxPeriod.value
    ensures Timely(Accepted(w, now, mid, r), now, wake)
  {
  }

  ghost predicate AllTimely(c: Client) {
    forall i: nat, j: nat :: Within(c.observed, i, j) && c.observed[i].watchers[j].active ==>
      Timely(c.observed[i].watchers[j], c.now, c.wake)
  }

  lemma WatcherStaysTimely(w: Watcher, r: Reading, now: int, mid: uint16, was: int, wake: int, left: int)
    requires w.active && Timely(w, was, wake) && was <= now <= wake && !r.Unreadable?
    requires left <= Lower(left, WaitMax(StepWatcher(w, r, now, mid), r, now))
    ensures Timely(StepWatcher(w, r, now, mid), now, now + left)
  {
    hide MeetsCondition;
    var after := StepWatcher(w, r, now, mid);
    if Notified(w, r, now) {
      assert forall k :: 0 <= k < |w.times| ==> after.times[k] == w.times[k];
    }
  }

  lemma NextStaysTimely(c: Client, a: Action)
    requires AllTimely(c) && Enabled(c, a)
    ensures AllTimely(Next(c, a))
  {
    hide Timely, StepWatcher, WaitMin, WaitMax, StepObserved;
    var d := Next(c, a);
    forall i: nat, j: nat | Within(d.observed, i, j) && d.observed[i].watchers[j].active
      ensures Timely(d.observed[i].watchers[j], d.now, d.wake)
    {
      match a {
        case Step(readings, now, timeout) =>
          StepKeepsCount(c.observed, readings, now, c.mid, timeout, i);
          var m := StepsEach(c.observed, readings, now, c.mid, timeout, i, j);
          var w := c.observed[i].watchers[j];
          StaysActive(w, readings[i], now, m);
          var s := StepObserved(c.observed, readings, now, c.mid, timeout);
          WatcherStaysTimely(w, readings[i], now, m, c.now, c.wake, s.timeout);
        case ValueChanged(u) =>
          var w := c.observed[i].watchers[j];
          assert Timely(w, c.now, c.wake) == Timely(w.(update := true), c.now, c.wake) by { FlagIsNoTime(w, c.now, c.wake); }
      }
    }
  }

  lemma StaysActive(w: Watcher, r: Reading, now: int, mid: uint16)
    ensures StepWatcher(w, r, now, mid).active == w.active
  {
  }

  lemma FlagIsNoTime(w: Watcher, now: int, wake: int)
    ensures Timely(w, now, wake) == Timely(w.(update := true), now, wake)
  {
  }

  lemma {:induction false} StepKeepsCount(list: seq<Observed>, readings: seq<Reading>, now: int, mid: uint16, timeout: int, i: nat)
    requires |readings| == |list| && i < |list|
    ensures |StepObserved(list, readings, now, mid, timeout).list[i].watchers| == |list[i].watchers|
  {
    hide StepWatchers;
    if i > 0 {
      var first := StepWatchers(list[0].watchers, readings[0], now, mid, timeout);
      StepKeepsCount(list[1..], readings[1..], now, first.mid, first.timeout, i - 1);
    }
  }

  lemma {:induction false} RunStaysTimely(c: Client, run: seq<Action>)
    requires AllTimely(c) && Possible(c, run)
    ensures AllTimely(Run(c, run))
    decreases |run|
  {
    hide AllTimely, Next;
    if run != [] {
      NextStaysTimely(c, run[0]);
      RunStaysTimely(Next(c, run[0]), run[1..]);
    }
  }

  /** Consecutive notifications to a watcher are at least its minimum period apart, if that is not
      above the maximum period, and at most its maximum period. */
  lemma NotificationGaps(c: Client, run: seq<Action>, i: nat, j: nat)
    requires AllTimely(c) && Possible(c, run)
    requires Within(Run(c, run).observed, i, j) && Run(c, run).observed[i].watchers[j].active
    ensures
      var w := Run(c, run).observed[i].watchers[j];
      var p := w.Attributes();
      && (p.maxPeriod.Some? ==> GapsAtMost(w.times, p.maxPeriod.value))
      && (Compatible(p) ==> GapsAtLeast(w.times, p.minPeriod.value))
  {
    RunStaysTimely(c, run);
  }

  /** A watcher is never notified before its minimum period is over exactly if that is not above the
      maximum period. */
  lemma NeverEarlyIff(w: Watcher)
    requires w.active && w.Attributes().minPeriod.Some?
    ensures (forall r: Reading, now: int :: now >= w.lastTime && Notified(w, r, now) ==> now >= w.lastTime + w.Attributes().minPeriod.value)
      <==> Compatible(w.Attributes())
  {
    var p := w.Attributes();
    if p.maxPeriod.Some? && p.maxPeriod.value < p.minPeriod.value {
      assert Notified(w, Plain, w.lastTime + p.maxPeriod.value);
    }
  }

  /** A flagged change is not lost: a step notifies the watcher or leaves the flag. Without attributes
      it is notified at once; with a minimum period it is, as soon as that is over, and until then the
      step asks to be called again by its end. */
  lemma ChangeIsKept(c: Client, a: Action, i: nat, j: nat)
    requires Enabled(c, a) && a.Step? && Within(c.observed, i, j)
    requires c.observed[i].watchers[j].active && c.observed[i].watchers[j].update
    ensures Within(Next(c, a).observed, i, j)
    ensures
      var w, d := c.observed[i].watchers[j], Next(c, a);
      var after, p := d.observed[i].watchers[j], w.Attributes();
      && (if after.update then after == w else after.times == w.times + [a.now])
      && (p == NO_ATTRIBUTES ==> !after.update)
      && (p.minPeriod.Some? ==>
            if w.lastTime + p.minPeriod.value <= a.now then !after.update
            else after.update ==> d.wake <= w.lastTime + p.minPeriod.value)
  {
    hide StepObserved, MeetsCondition;
    var m := StepsEach(c.observed, a.readings, a.now, c.mid, a.timeout, i, j);
  }

  /** By that time the watcher is notified of the change that `w` is flagged with: it has been, or it still
      waits and the next step comes early enough. */
  predicate InTime(w: Watcher, v: Watcher, wake: int, deadline: int) {
    if |v.times| > |w.times| then v.times[|w.times|] <= deadline
    else v == w && wake <= deadline
  }

  lemma NextStaysInTime(c: Client, a: Action, i: nat, j: nat, w: Watcher, deadline: int)
    requires Enabled(c, a) && Within(c.observed, i, j) && w.active && w.update && w.Attributes().minPeriod.Some?
    requires w.lastTime + w.Attributes().minPeriod.value <= deadline
    requires InTime(w, c.observed[i].watchers[j], c.wake, deadline)
    ensures Within(Next(c, a).observed, i, j)
    ensures InTime(w, Next(c, a).observed[i].watchers[j], Next(c, a).wake, deadline)
  {
    hide StepObserved, MeetsCondition;
    if a.Step? {
      var m := StepsEach(c.observed, a.readings, a.now, c.mid, a.timeout, i, j);
      if c.observed[i].watchers[j] == w { ChangeIsKept(c, a, i, j); }
    }
  }

  /** In every punctual run with successful reads, a change that a watcher with a minimum period is flagged
      with is notified no later than the end of that period and the time of the step that was due when it was
      flagged, whichever is later. Until then the next step is due by that time. */
  lemma {:induction false} ChangeIsNotifiedInTime(c: Client, run: seq<Action>, i: nat, j: nat)
    requires Possible(c, run) && Within(c.observed, i, j)
    requires c.observed[i].watchers[j].active && c.observed[i].watchers[j].update
    requires c.observed[i].watchers[j].Attributes().minPeriod.Some?
    ensures Within(Run(c, run).observed, i, j)
    ensures
      var w, d := c.observed[i].watchers[j], Run(c, run);
      InTime(w, d.observed[i].watchers[j], d.wake, Max(c.wake, w.lastTime + w.Attributes().minPeriod.value))
  {
    var w := c.observed[i].watchers[j];
    RunStaysInTime(c, run, i, j, w, Max(c.wake, w.lastTime + w.Attributes().minPeriod.value));
  }

  lemma {:induction false} RunStaysInTime(c: Client, run: seq<Action>, i: nat, j: nat, w: Watcher, deadline: int)
    requires Possible(c, run) && Within(c.observed, i, j) && w.active && w.update && w.Attributes().minPeriod.Some?
    requires w.lastTime + w.Attributes().minPeriod.value <= deadline
    requires InTime(w, c.observed[i].watchers[j], c.wake, deadline)
    ensures Within(Run(c, run).observed, i, j)
    ensures InTime(w, Run(c, run).observed[i].watchers[j], Run(c, run).wake, deadline)
    decreases |run|
  {
    hide InTime, Next;
    if run != [] {
      NextStaysInTime(c, run[0], i, j, w, deadline);
      RunStaysInTime(Next(c, run[0]), run[1..], i, j, w, deadline);
    }
  }
}
