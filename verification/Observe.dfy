/** Observations of observe.c on the client: the watchers of each observed path, when they are
    notified, and what the lists keep. Reads succeed or fail as a whole; serializing a value that was
    read succeeds. */
module Observe {
  import opened Bytes
  import opened Uri

  /** The attributes of a watcher that are set; times are in seconds. */
  datatype Attributes = Attributes(
    minPeriod: Option<nat>, maxPeriod: Option<nat>,
    greaterThan: Option<real>, lessThan: Option<real>, step: Option<real>)

  const NO_ATTRIBUTES := Attributes(None, None, None, None, None)

  /** `times` holds the time of the observe request and of every notification since; it is
      bookkeeping. */
  datatype Watcher = Watcher(
    server: nat, active: bool, update: bool, parameters: Option<Attributes>,
    lastTime: int, counter: uint32, lastMid: uint16, lastValue: real, times: seq<int>)
  {
    /** The attributes in effect. */
    function Attributes(): Attributes {
      if parameters.Some? then parameters.value else NO_ATTRIBUTES
    }
  }

  datatype Observed = Observed(uri: Uri, watchers: seq<Watcher>)

  /** What observe_step reads for a path: nothing if the read fails, a number, or something else. */
  datatype Reading = Unreadable | Plain | Numeric(value: real)

  // ---- when a watcher is notified ----------------------------------------------------------

  predicate Crosses(threshold: Option<real>, before: real, after: real) {
    threshold.Some? &&
    ((after < threshold.value && before > threshold.value) || (after > threshold.value && before < threshold.value))
  }

  predicate Moved(step: Option<real>, before: real, after: real) {
    step.Some? && (if after < before then before - after else after - before) >= step.value
  }

  predicate MeetsCondition(p: Attributes, r: Reading, before: real) {
    && r.Numeric?
    && (Crosses(p.lessThan, before, r.value) || Crosses(p.greaterThan, before, r.value) || Moved(p.step, before, r.value))
  }

  /** A flagged change that is to be sent now. */
  predicate ChangeDue(w: Watcher, r: Reading, now: int) {
    w.update &&
    match w.Attributes().minPeriod
    case Some(period) => w.lastTime + period <= now
    case None => w.Attributes() == NO_ATTRIBUTES || MeetsCondition(w.Attributes(), r, w.lastValue)
  }

  predicate PeriodDue(w: Watcher, now: int) {
    w.Attributes().maxPeriod.Some? && w.lastTime + w.Attributes().maxPeriod.value <= now
  }

  predicate Notified(w: Watcher, r: Reading, now: int) {
    w.active && !r.Unreadable? && (ChangeDue(w, r, now) || PeriodDue(w, now))
  }

  /** One watcher in observe_step; the message id is used only for a notification. */
  function StepWatcher(w: Watcher, r: Reading, now: int, mid: uint16): Watcher {
    if !Notified(w, r, now) then w
    else w.(lastTime := now, lastMid := mid, counter := (w.counter + 1) % 0x1_0000_0000, update := false,
            lastValue := if r.Numeric? then r.value else w.lastValue, times := w.times + [now])
  }

  /** The time left to the end of a period that the watcher waits for, if any. */
  function WaitMin(w: Watcher, r: Reading, now: int): Option<int> {
    if w.active && !r.Unreadable? && w.update && w.Attributes().minPeriod.Some? && w.lastTime + w.Attributes().minPeriod.value > now
    then Some(w.lastTime + w.Attributes().minPeriod.value - now)
    else None
  }

  function WaitMax(w: Watcher, r: Reading, now: int): Option<int> {
    if w.active && !r.Unreadable? && w.Attributes().maxPeriod.Some?
    then Some(w.lastTime + w.Attributes().maxPeriod.value - now)
    else None
  }

  function Lower(timeout: int, wait: Option<int>): int {
    match wait case None => timeout case Some(t) => Min(timeout, t)
  }

  function NextMid(w: Watcher, r: Reading, now: int, mid: uint16): uint16 {
    if Notified(w, r, now) then (mid + 1) % 0x1_0000 else mid
  }

  /** The result of a step: the lists, the next message id and the timeout. */
  datatype Stepped<T> = Stepped(list: seq<T>, mid: uint16, timeout: int)

  function StepWatchers(watchers: seq<Watcher>, r: Reading, now: int, mid: uint16, timeout: int): (s: Stepped<Watcher>)
    ensures |s.list| == |watchers|
  {
    if watchers == [] then Stepped([], mid, timeout)
    else
      var w := watchers[0];
      var after := StepWatcher(w, r, now, mid);
      var rest := StepWatchers(watchers[1..], r, now, NextMid(w, r, now, mid),
                               Lower(Lower(timeout, WaitMin(w, r, now)), WaitMax(after, r, now)));
      rest.(list := [after] + rest.list)
  }

  function StepObserved(list: seq<Observed>, readings: seq<Reading>, now: int, mid: uint16, timeout: int)
    : (s: Stepped<Observed>)
    requires |readings| == |list|
    ensures |s.list| == |list|
  {
    if list == [] then Stepped([], mid, timeout)
    else
      var first := StepWatchers(list[0].watchers, readings[0], now, mid, timeout);
      var rest := StepObserved(list[1..], readings[1..], now, first.mid, first.timeout);
      rest.(list := [list[0].(watchers := first.list)] + rest.list)
  }

  // ---- setting attributes --------------------------------------------------------------

  /** The attributes to clear. */
  datatype Clear = Clear(minPeriod: bool, maxPeriod: bool, greaterThan: bool, lessThan: bool, step: bool)

  /** An attribute of a watcher that has parameters: it can be cleared or changed, not added. */
  function Written<T>(current: Option<T>, clear: bool, given: Option<T>): Option<T> {
    if current.None? || clear then None else if given.Some? then given else current
  }

  /** A value for the rule that follows: the given one if there is one. */
  function Latest<T>(current: Option<T>, clear: bool, given: Option<T>): Option<T> {
    if clear then None else if given.Some? then given else current
  }

  /** The rule that "lt" + 2 * "st" is below "gt" where all three are set. */
  predicate Consistent(current: Attributes, given: Attributes, clear: Clear) {
    var lt := Latest(current.lessThan, clear.lessThan, given.lessThan);
    var st := Latest(current.step, clear.step, given.step);
    var gt := Latest(current.greaterThan, clear.greaterThan, given.greaterThan);
    lt.Some? && st.Some? && gt.Some? ==> lt.value + 2.0 * st.value < gt.value
  }

  /** observe_setParameters on the parameters of a watcher: None when it answers 4.00. */
  function SetParameters(current: Option<Attributes>, given: Attributes, clear: Clear): Option<Option<Attributes>> {
    var p := if current.Some? then current.value else NO_ATTRIBUTES;
    if !Consistent(p, given, clear) then None
    else if current.None? then Some(if given != NO_ATTRIBUTES then Some(given) else None)
    else Some(Some(Attributes(
      Written(p.minPeriod, clear.minPeriod, given.minPeriod), Written(p.maxPeriod, clear.maxPeriod, given.maxPeriod),
      Written(p.greaterThan, clear.greaterThan, given.greaterThan), Written(p.lessThan, clear.lessThan, given.lessThan),
      Written(p.step, clear.step, given.step))))
  }

  /** An attribute that is written takes effect exactly if the watcher has no parameters yet, or has this
      attribute set and it is not cleared at the same time: a later write never adds one. */
  predicate Effective<T(==)>(before: Option<T>, clear: bool, given: Option<T>, after: Option<T>, first: bool) {
    given.Some? ==> (after == given <==> first || (before.Some? && !clear))
  }

  lemma {:induction false} WriteTakesEffectIff(current: Option<Attributes>, given: Attributes, clear: Clear)
    requires SetParameters(current, given, clear).Some?
    ensures
      var first := current.None?;
      var p := if first then NO_ATTRIBUTES else current.value;
      var written := SetParameters(current, given, clear).value;
      var after := if written.None? then NO_ATTRIBUTES else written.value;
      && Effective(p.minPeriod, clear.minPeriod, given.minPeriod, after.minPeriod, first)
      && Effective(p.maxPeriod, clear.maxPeriod, given.maxPeriod, after.maxPeriod, first)
      && Effective(p.greaterThan, clear.greaterThan, given.greaterThan, after.greaterThan, first)
      && Effective(p.lessThan, clear.lessThan, given.lessThan, after.lessThan, first)
      && Effective(p.step, clear.step, given.step, after.step, first)
  {
  }

  // ---- the lists -----------------------------------------------------------------------

  /** prv_findObserved: an observed path that agrees with all levels that the given one sets. */
  predicate Agrees(observed: Uri, u: Uri) {
    forall level :: 0 <= level < 4 && IsSet(u, level) ==> Get(observed, level) == Get(u, level)
  }

  function FindObserved(list: seq<Observed>, u: Uri): (k: nat)
    ensures k <= |list|
    ensures k < |list| ==> Agrees(list[k].uri, u)
    ensures forall i :: 0 <= i < k ==> !Agrees(list[i].uri, u)
  {
    if list == [] || Agrees(list[0].uri, u) then 0 else 1 + FindObserved(list[1..], u)
  }

  function FindWatcher(watchers: seq<Watcher>, server: nat): (k: nat)
    ensures k <= |watchers|
    ensures k < |watchers| ==> watchers[k].server == server
    ensures forall i :: 0 <= i < k ==> watchers[i].server != server
  {
    if watchers == [] || watchers[0].server == server then 0 else 1 + FindWatcher(watchers[1..], server)
  }

  function NewWatcher(server: nat): Watcher {
    Watcher(server, false, false, None, 0, 0, 0, 0.0, [])
  }

  /** prv_getWatcher: the list with a watcher of the server for the path in it. */
  function WithWatcher(list: seq<Observed>, u: Uri, server: nat): seq<Observed> {
    var k := FindObserved(list, u);
    if k == |list| then [Observed(u, [NewWatcher(server)])] + list
    else if FindWatcher(list[k].watchers, server) < |list[k].watchers| then list
    else list[k := list[k].(watchers := [NewWatcher(server)] + list[k].watchers)]
  }

  /** Where the watcher of WithWatcher is: the first agreeing path, the first of the server there. */
  function WatcherAt(list: seq<Observed>, u: Uri, server: nat): (p: (nat, nat))
    ensures
      var after := WithWatcher(list, u, server);
      && p.0 < |after| && p.1 < |after[p.0].watchers|
      && Agrees(after[p.0].uri, u) && after[p.0].watchers[p.1].server == server
  {
    var k := FindObserved(list, u);
    if k == |list| then (0, 0)
    else
      var j := FindWatcher(list[k].watchers, server);
      (k, if j < |list[k].watchers| then j else 0)
  }

  /** An accepted observe request: the watcher starts anew. */
  function Accepted(w: Watcher, now: int, mid: uint16, r: Reading): Watcher {
    w.(active := true, lastTime := now, lastMid := mid, counter := (w.counter + 1) % 0x1_0000_0000,
       lastValue := if r.Numeric? then r.value else w.lastValue, times := [now])
  }

  function ReplaceWatcher(list: seq<Observed>, i: nat, j: nat, w: Watcher): seq<Observed>
    requires i < |list| && j < |list[i].watchers|
  {
    list[i := list[i].(watchers := list[i].watchers[j := w])]
  }

  predicate IsWatcher(w: Watcher, mid: uint16, server: nat) {
    w.lastMid == mid && w.server == server
  }

  function FindMid(watchers: seq<Watcher>, mid: uint16, server: nat): (k: nat)
    ensures k <= |watchers|
    ensures k < |watchers| ==> IsWatcher(watchers[k], mid, server)
    ensures forall i :: 0 <= i < k ==> !IsWatcher(watchers[i], mid, server)
  {
    if watchers == [] || IsWatcher(watchers[0], mid, server) then 0 else 1 + FindMid(watchers[1..], mid, server)
  }

  /** observe_cancel: the first such watcher leaves, and the path with its last watcher. */
  function Cancelled(list: seq<Observed>, mid: uint16, server: nat): seq<Observed> {
    if list == [] then []
    else
      var watchers := list[0].watchers;
      var k := FindMid(watchers, mid, server);
      if k == |watchers| then [list[0]] + Cancelled(list[1..], mid, server)
      else if |watchers| == 1 then list[1..]
      else [list[0].(watchers := watchers[..k] + watchers[k + 1..])] + list[1..]
  }

  /** No path is without watchers, as observe_cancel relies on. */
  predicate WellFormed(list: seq<Observed>) {
    forall i :: 0 <= i < |list| ==> list[i].watchers != []
  }

  lemma {:induction false} CancelledKeeps(list: seq<Observed>, mid: uint16, server: nat)
    requires WellFormed(list)
    ensures WellFormed(Cancelled(list, mid, server))
  {
    if list != [] {
      assert forall i :: 0 <= i < |list[1..]| ==> list[1..][i] == list[i + 1];
      CancelledKeeps(list[1..], mid, server);
    }
  }

  lemma CancelledStep(done: seq<Observed>, rest: seq<Observed>, mid: uint16, server: nat)
    ensures rest == [] ==> done + Cancelled(rest, mid, server) == done
    ensures rest != [] ==>
      var watchers := rest[0].watchers;
      var k := FindMid(watchers, mid, server);
      && (k == |watchers| ==>
            done + Cancelled(rest, mid, server) == (done + [rest[0]]) + Cancelled(rest[1..], mid, server)
            && done + rest == (done + [rest[0]]) + rest[1..])
      && (k < |watchers| && |watchers| == 1 ==> Cancelled(rest, mid, server) == rest[1..])
      && (k < |watchers| && |watchers| != 1 ==>
            Cancelled(rest, mid, server) == [rest[0].(watchers := watchers[..k] + watchers[k + 1..])] + rest[1..])
  {
    if rest != [] {
      assert done + ([rest[0]] + Cancelled(rest[1..], mid, server)) == (done + [rest[0]]) + Cancelled(rest[1..], mid, server);
    }
  }

  /** The first path with such a watcher. */
  function CancelPos(list: seq<Observed>, mid: uint16, server: nat): (k: nat)
    ensures k <= |list|
    ensures k < |list| ==> exists w :: w in list[k].watchers && IsWatcher(w, mid, server)
    ensures forall i, w :: 0 <= i < k && w in list[i].watchers ==> !IsWatcher(w, mid, server)
  {
    if list == [] then 0
    else
      var j := FindMid(list[0].watchers, mid, server);
      if j < |list[0].watchers| then
        assert list[0].watchers[j] in list[0].watchers;
        0
      else 1 + CancelPos(list[1..], mid, server)
  }

  /** The list without one watcher, and without its path if that was the only one. */
  function WithoutWatcher(list: seq<Observed>, k: nat, j: nat): seq<Observed>
    requires k < |list| && j < |list[k].watchers|
  {
    var watchers := list[k].watchers;
    list[..k]
    + (if |watchers| == 1 then [] else [list[k].(watchers := watchers[..j] + watchers[j + 1..])])
    + list[k + 1..]
  }

  lemma {:induction false} CancelledIs(list: seq<Observed>, mid: uint16, server: nat)
    ensures
      var k := CancelPos(list, mid, server);
      if k == |list| then Cancelled(list, mid, server) == list
      else
        var j := FindMid(list[k].watchers, mid, server);
        j < |list[k].watchers| && Cancelled(list, mid, server) == WithoutWatcher(list, k, j)
  {
    if list == [] {
    } else if FindMid(list[0].watchers, mid, server) < |list[0].watchers| {
      assert list[..0] == [];
    } else {
      CancelledIs(list[1..], mid, server);
      if CancelPos(list, mid, server) < |list| {
        var k := CancelPos(list[1..], mid, server);
        BehindFirst(list, k, FindMid(list[k + 1].watchers, mid, server));
      }
    }
  }

  lemma Around<T>(first: T, before: seq<T>, changed: seq<T>, behind: seq<T>)
    ensures ([first] + before) + changed + behind == [first] + (before + changed + behind)
  {
  }

  lemma BehindFirst(list: seq<Observed>, k: nat, j: nat)
    requires k + 1 < |list| && j < |list[k + 1].watchers|
    ensures WithoutWatcher(list, k + 1, j) == [list[0]] + WithoutWatcher(list[1..], k, j)
  {
    var rest := list[1..];
    var watchers := list[k + 1].watchers;
    var changed := if |watchers| == 1 then [] else [list[k + 1].(watchers := watchers[..j] + watchers[j + 1..])];
    assert rest[k] == list[k + 1] && list[..k + 1] == [list[0]] + rest[..k] && list[k + 2..] == rest[k + 1..];
    Around(list[0], rest[..k], changed, rest[k + 1..]);
  }

  /** observe_handleRequest for a request to stop: the watcher is looked up by its path, but it is
      removed by the message id of its last notification. */
  function Withdrawn(list: seq<Observed>, u: Uri, server: nat): seq<Observed> {
    var k := FindObserved(list, u);
    if k == |list| then list
    else
      var j := FindWatcher(list[k].watchers, server);
      if j == |list[k].watchers| then list else Cancelled(list, list[k].watchers[j].lastMid, server)
  }

  /** Exactly one watcher of that server leaves. It is the one that was found exactly if no path in front
      has one of the server with the same message id, such as two that were never notified. */
  lemma WithdrawsOwnIff(list: seq<Observed>, u: Uri, server: nat)
    requires FindObserved(list, u) < |list|
    requires FindWatcher(list[FindObserved(list, u)].watchers, server) < |list[FindObserved(list, u)].watchers|
    ensures
      var k := FindObserved(list, u);
      var j := FindWatcher(list[k].watchers, server);
      var mid := list[k].watchers[j].lastMid;
      var p := CancelPos(list, mid, server);
      && p <= k
      && var q := FindMid(list[p].watchers, mid, server);
        && q < |list[p].watchers| && list[p].watchers[q].server == server
        && Withdrawn(list, u, server) == WithoutWatcher(list, p, q)
        && ((p, q) == (k, j) <==> forall i, w :: 0 <= i < k && w in list[i].watchers ==> !IsWatcher(w, mid, server))
  {
    hide Cancelled, WithoutWatcher, FindObserved, FindWatcher, FindMid, CancelPos;
    var k := FindObserved(list, u);
    var watchers := list[k].watchers;
    var j := FindWatcher(watchers, server);
    var mid := watchers[j].lastMid;
    CancelledIs(list, mid, server);
    var p := CancelPos(list, mid, server);
    assert IsWatcher(watchers[j], mid, server) && watchers[j] in watchers;
    var q := FindMid(list[p].watchers, mid, server);
    assert IsWatcher(list[p].watchers[q], mid, server) && list[p].watchers[q] in list[p].watchers;
  }

  /** observe_clear: the paths of an object or of one of its instances. */
  predicate Cleared(observed: Uri, u: Uri) {
    observed.objectId == u.objectId && (u.instanceId == UNSET || observed.instanceId == u.instanceId)
  }

  function WithoutCleared(list: seq<Observed>, u: Uri): seq<Observed> {
    if list == [] then []
    else (if Cleared(list[0].uri, u) then [] else [list[0]]) + WithoutCleared(list[1..], u)
  }

  /** The paths that lwm2m_resource_value_changed flags: one is above the other, or both are equal. */
  predicate Overlaps(observed: Uri, u: Uri) {
    && observed.objectId == u.objectId
    && (u.instanceId == UNSET || observed.instanceId == UNSET || observed.instanceId == u.instanceId)
    && (u.resourceId == UNSET || observed.resourceId == UNSET || observed.resourceId == u.resourceId)
    && (u.resourceInstanceId == UNSET || observed.resourceInstanceId == UNSET
        || observed.resourceInstanceId == u.resourceInstanceId)
  }

  function FlaggedAll(watchers: seq<Watcher>): (r: seq<Watcher>)
    ensures |r| == |watchers|
    ensures forall i :: 0 <= i < |r| ==> r[i] == if watchers[i].active then watchers[i].(update := true) else watchers[i]
  {
    seq(|watchers|, i requires 0 <= i < |watchers| =>
      if watchers[i].active then watchers[i].(update := true) else watchers[i])
  }

  function Changed(list: seq<Observed>, u: Uri): (r: seq<Observed>)
    ensures |r| == |list|
    ensures forall i :: 0 <= i < |r| ==>
      r[i] == if Overlaps(list[i].uri, u) then list[i].(watchers := FlaggedAll(list[i].watchers)) else list[i]
  {
    seq(|list|, i requires 0 <= i < |list| =>
      if Overlaps(list[i].uri, u) then list[i].(watchers := FlaggedAll(list[i].watchers)) else list[i])
  }

  /** The observations of a client. */
  class Observer {
    var observed: seq<Observed>
    var nextMid: uint16

    /** prv_getWatcher: where the watcher is now. */
    method GetWatcher(u: Uri, server: nat) returns (i: nat, j: nat)
      requires WellFormed(observed)
      modifies this`observed
      ensures observed == WithWatcher(old(observed), u, server) && WellFormed(observed)
      ensures (i, j) == WatcherAt(old(observed), u, server)
    {
      i := 0;
      while i < |observed| && !Agrees(observed[i].uri, u)
        invariant i <= |observed| && FindObserved(observed, u) == i + FindObserved(observed[i..], u)
      {
        assert observed[i..][0] == observed[i] && observed[i..][1..] == observed[i + 1..];
        i := i + 1;
      }
      assert i < |observed| ==> observed[i..][0] == observed[i];
      if i == |observed| {
        observed := [Observed(u, [NewWatcher(server)])] + observed;
        return 0, 0;
      }
      var watchers := observed[i].watchers;
      j := 0;
      while j < |watchers| && watchers[j].server != server
        invariant j <= |watchers| && FindWatcher(watchers, server) == j + FindWatcher(watchers[j..], server)
      {
        assert watchers[j..][0] == watchers[j] && watchers[j..][1..] == watchers[j + 1..];
        j := j + 1;
      }
      assert j < |watchers| ==> watchers[j..][0] == watchers[j];
      if j == |watchers| {
        observed := observed[i := observed[i].(watchers := [NewWatcher(server)] + watchers)];
        j := 0;
      }
    }

    /** observe_handleRequest for a registration whose value was read: the number of the Observe option,
        or nothing if it is refused. */
    method HandleObserve(u: Uri, server: nat, tokenLength: nat, mid: uint16, now: int, r: Reading)
      returns (number: Option<uint32>)
      requires WellFormed(observed)
      modifies this`observed
      ensures WellFormed(observed)
      ensures number.None? <==> (!IsSet(u, 1) && IsSet(u, 2)) || tokenLength == 0
      ensures number.None? ==> observed == old(observed)
      ensures number.Some? ==>
        var before := WithWatcher(old(observed), u, server);
        var (i, j) := WatcherAt(old(observed), u, server);
        && number.value == before[i].watchers[j].counter
        && observed == ReplaceWatcher(before, i, j, Accepted(before[i].watchers[j], now, mid, r))
    {
      if (!IsSet(u, 1) && IsSet(u, 2)) || tokenLength == 0 {
        return None;
      }
      var i, j := GetWatcher(u, server);
      var w := observed[i].watchers[j];
      number := Some(w.counter);
      observed := ReplaceWatcher(observed, i, j, Accepted(w, now, mid, r));
    }

    /** observe_handleRequest for a request to stop observing. */
    method HandleWithdrawal(u: Uri, server: nat)
      requires WellFormed(observed)
      modifies this`observed
      ensures observed == Withdrawn(old(observed), u, server) && WellFormed(observed)
    {
      var i := 0;
      while i < |observed| && !Agrees(observed[i].uri, u)
        invariant i <= |observed| && forall k :: 0 <= k < i ==> !Agrees(observed[k].uri, u)
      {
        i := i + 1;
      }
      assert i == FindObserved(observed, u);
      if i < |observed| {
        var watchers := observed[i].watchers;
        var j := 0;
        while j < |watchers| && watchers[j].server != server
          invariant j <= |watchers| && forall k :: 0 <= k < j ==> watchers[k].server != server
        {
          j := j + 1;
        }
        assert j == FindWatcher(watchers, server);
        if j < |watchers| {
          Cancel(watchers[j].lastMid, server);
        }
      }
    }

    /** observe_setParameters for a readable path. A watcher is there afterwards even if the attributes are
        refused. */
    method WriteAttributes(u: Uri, server: nat, given: Attributes, clear: Clear) returns (changed: bool)
      requires WellFormed(observed)
      modifies this`observed
      ensures WellFormed(observed)
      ensures !IsSet(u, 1) && IsSet(u, 2) ==> !changed && observed == old(observed)
      ensures IsSet(u, 1) || !IsSet(u, 2) ==>
        var before := WithWatcher(old(observed), u, server);
        var (i, j) := WatcherAt(old(observed), u, server);
        var p := SetParameters(before[i].watchers[j].parameters, given, clear);
        && (changed <==> p.Some?)
        && observed == if p.None? then before
                       else ReplaceWatcher(before, i, j, before[i].watchers[j].(parameters := p.value))
    {
      if !IsSet(u, 1) && IsSet(u, 2) {
        return false;
      }
      var i, j := GetWatcher(u, server);
      var w := observed[i].watchers[j];
      var p := SetParameters(w.parameters, given, clear);
      changed := p.Some?;
      if changed {
        observed := ReplaceWatcher(observed, i, j, w.(parameters := p.value));
      }
    }

    /** observe_cancel. */
    method Cancel(mid: uint16, server: nat)
      requires WellFormed(observed)
      modifies this`observed
      ensures observed == Cancelled(old(observed), mid, server) && WellFormed(observed)
    {
      CancelledKeeps(observed, mid, server);
      hide FindMid, Cancelled, WellFormed;
      var i := 0;
      ghost var done: seq<Observed>, rest := [], observed;
      assert [] + Cancelled(observed, mid, server) == Cancelled(observed, mid, server);
      while i < |observed|
        invariant |done| == i && observed == done + rest && observed == old(observed)
        invariant Cancelled(observed, mid, server) == done + Cancelled(rest, mid, server)
      {
        CancelledStep(done, rest, mid, server);
        assert observed[i] == rest[0];
        var watchers := observed[i].watchers;
        var k := SearchMid(watchers, mid, server);
        if k < |watchers| {
          assert observed[..i] == done && observed[i + 1..] == rest[1..];
          if |watchers| == 1 {
            observed := observed[..i] + observed[i + 1..];
          } else {
            observed := observed[..i] + ([observed[i].(watchers := watchers[..k] + watchers[k + 1..])] + observed[i + 1..]);
          }
          return;
        }
        done, rest := done + [rest[0]], rest[1..];
        i := i + 1;
      }
      CancelledStep(done, [], mid, server);
    }

    /** The search of observe_cancel among the watchers of one path. */
    static method SearchMid(watchers: seq<Watcher>, mid: uint16, server: nat) returns (k: nat)
      ensures k == FindMid(watchers, mid, server)
    {
      k := 0;
      while k < |watchers| && !IsWatcher(watchers[k], mid, server)
        invariant k <= |watchers| && FindMid(watchers, mid, server) == k + FindMid(watchers[k..], mid, server)
      {
        assert watchers[k..][0] == watchers[k] && watchers[k..][1..] == watchers[k + 1..];
        k := k + 1;
      }
      assert k < |watchers| ==> watchers[k..][0] == watchers[k];
    }

    /** observe_clear. */
    method Clear(u: Uri)
      requires WellFormed(observed)
      modifies this`observed
      ensures observed == WithoutCleared(old(observed), u) && WellFormed(observed)
    {
      var i := 0;
      ghost var left := observed;
      while i < |observed|
        invariant i <= |observed| && observed == observed[..i] + left && WellFormed(observed)
        invariant WithoutCleared(old(observed), u) == observed[..i] + WithoutCleared(left, u)
        decreases |left|
      {
        assert left[0] == observed[i];
        ghost var done := observed[..i];
        if Cleared(observed[i].uri, u) {
          observed := observed[..i] + observed[i + 1..];
          assert observed[..i] == done && observed == done + left[1..];
          assert [] + WithoutCleared(left[1..], u) == WithoutCleared(left[1..], u);
        } else {
          assert observed[..i + 1] == done + [left[0]];
          assert done + ([left[0]] + WithoutCleared(left[1..], u)) == observed[..i + 1] + WithoutCleared(left[1..], u);
          i := i + 1;
        }
        left := left[1..];
      }
    }

    /** lwm2m_resource_value_changed. */
    method ValueChanged(u: Uri)
      modifies this`observed
      ensures observed == Changed(old(observed), u)
    {
      var i := 0;
      ghost var was := observed;
      while i < |observed|
        invariant i <= |observed| == |was|
        invariant forall k :: 0 <= k < |was| ==> observed[k] == if k < i then Changed(was, u)[k] else was[k]
      {
        if Overlaps(observed[i].uri, u) {
          var watchers := observed[i].watchers;
          var j := 0;
          while j < |watchers|
            invariant j <= |watchers| == |was[i].watchers|
            invariant forall k :: 0 <= k < |watchers| ==>
              watchers[k] == if k < j then FlaggedAll(was[i].watchers)[k] else was[i].watchers[k]
          {
            if watchers[j].active {
              watchers := watchers[j := watchers[j].(update := true)];
            }
            j := j + 1;
          }
          assert watchers == FlaggedAll(was[i].watchers);
          observed := observed[i := observed[i].(watchers := watchers)];
        }
        i := i + 1;
      }
    }

    /** observe_step, with what is read for each path. */
    method Step(readings: seq<Reading>, now: int, timeout: int) returns (left: int)
      requires |readings| == |observed|
      modifies this
      ensures
        var s := StepObserved(old(observed), readings, now, old(nextMid), timeout);
        observed == s.list && nextMid == s.mid && left == s.timeout
    {
      hide StepWatchers;
      left := timeout;
      ghost var was := observed;
      ghost var all := StepObserved(was, readings, now, nextMid, timeout);
      assert was[0..] == was && readings[0..] == readings;
      for i := 0 to |observed|
        invariant |observed| == |was| && observed[i..] == was[i..]
        invariant
          var s := StepObserved(was[i..], readings[i..], now, nextMid, left);
          all == s.(list := observed[..i] + s.list)
      {
        ghost var rest := StepObserved(was[i..], readings[i..], now, nextMid, left);
        assert was[i..][0] == observed[i] && was[i..][1..] == was[i + 1..] && readings[i..][1..] == readings[i + 1..];
        ghost var done := observed[..i];
        var watchers, mid, t := StepPath(observed[i].watchers, readings[i], now, nextMid, left);
        observed := observed[i := observed[i].(watchers := watchers)];
        nextMid, left := mid, t;
        assert observed[i + 1..] == was[i + 1..] && observed[..i + 1] == done + [observed[i]];
        assert done + rest.list == observed[..i + 1] + rest.list[1..];
      }
      assert observed[..|observed|] == observed;
    }

    /** The loop of observe_step over the watchers of one path; nothing happens if it was not read. */
    static method StepPath(before: seq<Watcher>, r: Reading, now: int, mid: uint16, timeout: int)
      returns (watchers: seq<Watcher>, next: uint16, left: int)
      ensures Stepped(watchers, next, left) == StepWatchers(before, r, now, mid, timeout)
    {
      watchers, next, left := before, mid, timeout;
      if r.Unreadable? {
        UnreadableSteps(before, now, mid, timeout);
        return;
      }
      hide StepWatchers, StepWatcher, NextMid, Lower, WaitMin, WaitMax;
      ghost var all := StepWatchers(before, r, now, mid, timeout);
      ghost var done: seq<Watcher>, rest := [], before;
      assert [] + all.list == all.list;
      for j := 0 to |before|
        invariant |done| == j && watchers == done + rest && |rest| == |before| - j
        invariant all == Behind(done, StepWatchers(rest, r, now, next, left))
      {
        StepHead(done, rest, r, now, next, left);
        var w, mid2, t := StepOne(watchers[j], r, now, next, left);
        watchers := watchers[j := w];
        done, rest := done + [w], rest[1..];
        next, left := mid2, t;
      }
      StepHead(done, [], r, now, next, left);
    }

    /** The body of the inner loop of observe_step. */
    static method StepOne(before: Watcher, r: Reading, now: int, mid: uint16, timeout: int)
      returns (w: Watcher, next: uint16, left: int)
      requires !r.Unreadable?
      ensures w == StepWatcher(before, r, now, mid) && next == NextMid(before, r, now, mid)
      ensures left == Lower(Lower(timeout, WaitMin(before, r, now)), WaitMax(w, r, now))
    {
      w, next, left := before, mid, timeout;
      if !w.active {
        return;
      }
      var p, notify := w.Attributes(), false;
      if w.update {
        if p == NO_ATTRIBUTES {
          notify := true;
        } else if p.lessThan.Some? || p.greaterThan.Some? || p.step.Some? {
          notify := MeetsCondition(p, r, w.lastValue);
        }
        if p.minPeriod.Some? {
          if w.lastTime + p.minPeriod.value > now {
            left := Min(left, w.lastTime + p.minPeriod.value - now);
            notify := false;
          } else {
            notify := true;
          }
        }
      }
      if !notify && p.maxPeriod.Some? && w.lastTime + p.maxPeriod.value <= now {
        notify := true;
      }
      if notify {
        w := w.(lastTime := now, lastMid := next, counter := (w.counter + 1) % 0x1_0000_0000, update := false,
                times := w.times + [now]);
        next := (next + 1) % 0x1_0000;
        if r.Numeric? {
          w := w.(lastValue := r.value);
        }
      }
      if p.maxPeriod.Some? {
        left := Min(left, w.lastTime + p.maxPeriod.value - now);
      }
    }
  }

  /** The result of a step behind what it has already done. */
  function Behind<T>(done: seq<T>, s: Stepped<T>): Stepped<T> {
    s.(list := done + s.list)
  }

  lemma StepHead(done: seq<Watcher>, watchers: seq<Watcher>, r: Reading, now: int, mid: uint16, timeout: int)
    ensures watchers == [] ==> Behind(done, StepWatchers(watchers, r, now, mid, timeout)) == Stepped(done, mid, timeout)
    ensures watchers != [] ==>
      var w := watchers[0];
      var after := StepWatcher(w, r, now, mid);
      var left := Lower(Lower(timeout, WaitMin(w, r, now)), WaitMax(after, r, now));
      Behind(done, StepWatchers(watchers, r, now, mid, timeout)) ==
        Behind(done + [after], StepWatchers(watchers[1..], r, now, NextMid(w, r, now, mid), left))
  {
    hide StepWatcher, NextMid, Lower, WaitMin, WaitMax;
    if watchers != [] {
      var w := watchers[0];
      var after := StepWatcher(w, r, now, mid);
      var left := Lower(Lower(timeout, WaitMin(w, r, now)), WaitMax(after, r, now));
      var rest := StepWatchers(watchers[1..], r, now, NextMid(w, r, now, mid), left);
      assert done + ([after] + rest.list) == (done + [after]) + rest.list;
    } else {
      assert done + [] == done;
    }
  }

  lemma {:induction false} UnreadableSteps(watchers: seq<Watcher>, now: int, mid: uint16, timeout: int)
    ensures StepWatchers(watchers, Unreadable, now, mid, timeout) == Stepped(watchers, mid, timeout)
  {
    if watchers != [] {
      UnreadableSteps(watchers[1..], now, mid, timeout);
      assert [watchers[0]] + watchers[1..] == watchers;
    }
  }
}
