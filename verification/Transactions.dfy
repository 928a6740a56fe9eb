/** The confirmable exchanges of transaction.c: one list sorted by message id, re-sent with
    exponential back-off, matched against incoming messages. */
module Transactions {
  import opened Bytes
  import opened SortedList

  const RESPONSE_TIMEOUT := 2
  const MAX_RETRANSMIT := 4
  const DELETE_CODE: byte := 4
  const UNAUTHORIZED: byte := 129

  datatype MessageType = Con | Non | Ack | Rst

  /** What transaction_handleResponse reads of a received message; a missing token is empty. */
  datatype Message = Message(kind: MessageType, code: byte, mid: uint16, token: bytes)

  /** A node of the list. `serial`, `started` and `heard` are bookkeeping without a counterpart in
      the C node: which message id allocation it took, when it was first sent, and whether a
      received message has changed it. */
  datatype Transaction = Transaction(
    mid: uint16, peer: nat, code: byte, token: Option<bytes>, responseTimeout: nat,
    acked: bool, counter: nat, due: int,
    serial: nat, started: int, heard: bool)

  /** What leaves the module: a buffer handed to lwm2m_buffer_send, and the callback with a message
      or with NULL. Each carries the transaction as it was at that moment. */
  datatype Effect =
    | Transmit(t: Transaction, at: int)
    | Answer(t: Transaction, at: int)
    | GiveUp(t: Transaction, at: int)

  function Mids(list: seq<Transaction>): (ids: seq<uint16>)
    ensures |ids| == |list| && forall i :: 0 <= i < |ids| ==> ids[i] == list[i].mid
  {
    seq(|list|, i requires 0 <= i < |list| => list[i].mid)
  }

  // ---- one transaction -----------------------------------------------------------------

  /** transaction_send for a message that serializes: None when the transaction is given up. */
  function Send(t: Transaction, now: int): Option<Transaction> {
    if t.acked then None
    else if t.counter == 0 then
      Some(t.(due := now + RESPONSE_TIMEOUT, counter := 2, started := now))
    else if MAX_RETRANSMIT + 1 >= t.counter then
      Some(t.(due := t.due + RESPONSE_TIMEOUT * Pow2(t.counter - 1), counter := t.counter + 1))
    else None
  }

  function SendEffect(t: Transaction, now: int): Effect {
    if Send(t, now).Some? then Transmit(t, now) else GiveUp(t, now)
  }

  /** prv_checkFinished. */
  predicate Finished(t: Transaction, m: Message) {
    t.mid == m.mid &&
    if t.code > DELETE_CODE || t.token.None? then t.acked else t.token.value == m.token
  }

  datatype Reaction = Pass | Keep(t: Transaction) | Finish

  /** One round of the loop of transaction_handleResponse for a transaction with that peer. */
  function React(t: Transaction, m: Message, now: int): Reaction {
    var found := !t.acked && m.kind in {Ack, Rst} && t.mid == m.mid;
    var u := t.(acked := t.acked || found, heard := true);
    var reset := found && m.kind == Rst;
    if reset || Finished(u, m) then
      if !reset && m.code == UNAUTHORIZED && MAX_RETRANSMIT > u.counter then
        Keep(u.(acked := false, due := u.due + RESPONSE_TIMEOUT))
      else Finish
    else if found then
      Keep(u.(due := now + if u.responseTimeout != 0 then u.responseTimeout else RESPONSE_TIMEOUT * u.counter))
    else Pass
  }

  /** A message only ever touches the transaction whose message id it carries: a separate response
      under its own message id goes unnoticed. */
  lemma OtherMidPasses(t: Transaction, m: Message, now: int)
    requires t.mid != m.mid
    ensures React(t, m, now) == Pass
  {
  }

  // ---- the list ------------------------------------------------------------------------

  /** The transaction that reacts, the first with the peer and a reaction. */
  function Reacting(list: seq<Transaction>, peer: nat, m: Message, now: int): (p: Option<nat>)
    ensures p.Some? ==> p.value < |list| && list[p.value].peer == peer && React(list[p.value], m, now) != Pass
    ensures forall i :: 0 <= i < |list| && (p.Some? ==> i < p.value) ==> list[i].peer != peer || React(list[i], m, now) == Pass
  {
    if list == [] then None
    else if list[0].peer == peer && React(list[0], m, now) != Pass then Some(0)
    else match Reacting(list[1..], peer, m, now)
      case None => None
      case Some(k) => Some(k + 1)
  }

  function Stepped(list: seq<Transaction>, now: int): seq<Transaction> {
    if list == [] then []
    else if list[0].due > now then [list[0]] + Stepped(list[1..], now)
    else match Send(list[0], now)
      case None => Stepped(list[1..], now)
      case Some(t) => [t] + Stepped(list[1..], now)
  }

  function StepEffects(list: seq<Transaction>, now: int): seq<Effect> {
    if list == [] then []
    else if list[0].due > now then StepEffects(list[1..], now)
    else [SendEffect(list[0], now)] + StepEffects(list[1..], now)
  }

  /** The timeout transaction_step passes on. */
  function StepTimeout(list: seq<Transaction>, now: int, timeout: int): int {
    if list == [] then timeout
    else
      var after := if list[0].due > now then Some(list[0]) else Send(list[0], now);
      StepTimeout(list[1..], now, match after
        case None => 1
        case Some(t) => Min(timeout, if t.due > now then t.due - now else 1))
  }

  lemma InsertKeepsSorted(list: seq<Transaction>, t: Transaction)
    requires Sorted(Mids(list)) && t.mid !in Mids(list)
    ensures Sorted(Mids(Insert(list, InsertPos(Mids(list), t.mid), t)))
  {
    var k := InsertPos(Mids(list), t.mid);
    AddKeepsSorted(Mids(list), t.mid);
    assert Mids(Insert(list, k, t)) == Insert(Mids(list), k, t.mid);
  }

  lemma SendsFresh(t: Transaction, now: int)
    requires !t.acked && t.counter == 0
    ensures Send(t, now) == Some(t.(due := now + RESPONSE_TIMEOUT, counter := 2, started := now))
  {
  }

  /** One round of transaction_step. */
  lemma StepHead(list: seq<Transaction>, now: int, timeout: int)
    ensures list == [] ==>
      Stepped(list, now) == [] && StepEffects(list, now) == [] && StepTimeout(list, now, timeout) == timeout
    ensures list != [] ==>
      var t := list[0];
      var after := if t.due > now then Some(t) else Send(t, now);
      && Stepped(list, now) == (if after.Some? then [after.value] else []) + Stepped(list[1..], now)
      && StepEffects(list, now) == (if t.due > now then [] else [SendEffect(t, now)]) + StepEffects(list[1..], now)
      && StepTimeout(list, now, timeout) == StepTimeout(list[1..], now,
        if after.None? then 1
        else Min(timeout, if after.value.due > now then after.value.due - now else 1))
  {
  }

  // ---- the module's state --------------------------------------------------------------

  datatype State = State(list: seq<Transaction>, nextMid: uint16, allocations: nat, log: seq<Effect>)

  function TakenMid(s: State): State {
    s.(nextMid := (s.nextMid + 1) % 0x1_0000, allocations := s.allocations + 1)
  }

  /** The transaction of the next message id, before and after its first transmission. */
  function Fresh(s: State, peer: nat, code: byte, token: Option<bytes>, responseTimeout: nat): Transaction {
    Transaction(s.nextMid, peer, code, token, responseTimeout, false, 0, 0, s.allocations, 0, false)
  }

  function AfterCreate(s: State, peer: nat, code: byte, token: Option<bytes>, responseTimeout: nat, now: int): State {
    var t := Fresh(s, peer, code, token, responseTimeout);
    TakenMid(s).(
      list := Insert(s.list, InsertPos(Mids(s.list), t.mid), Send(t, now).value),
      log := s.log + [Transmit(t, now)])
  }

  /** transaction_send for the i-th transaction: it stays, updated, or leaves. */
  function AfterSend(s: State, i: nat, now: int): State
    requires i < |s.list|
  {
    s.(log := s.log + [SendEffect(s.list[i], now)],
       list := match Send(s.list[i], now)
               case None => Without(s.list, i)
               case Some(t) => s.list[i := t])
  }

  /** The loop of transaction_step from the i-th transaction on, with the timeout so far. */
  function StepFrom(s: State, i: nat, now: int, left: int): (State, int)
    requires i <= |s.list|
    decreases |s.list| - i
  {
    if i == |s.list| then (s, left)
    else
      var due := s.list[i].due <= now;
      var u := if due then AfterSend(s, i, now) else s;
      if due && Send(s.list[i], now).None? then StepFrom(u, i, now, 1)
      else
        StepFrom(u, i + 1, now, Min(left, if u.list[i].due > now then u.list[i].due - now else 1))
  }

  lemma StepFromHead(s: State, i: nat, now: int, left: int)
    requires i <= |s.list|
    ensures i == |s.list| ==> StepFrom(s, i, now, left) == (s, left)
    ensures i < |s.list| ==>
      var due := s.list[i].due <= now;
      var u := if due then AfterSend(s, i, now) else s;
      StepFrom(s, i, now, left) ==
        if due && Send(s.list[i], now).None? then StepFrom(u, i, now, 1)
        else StepFrom(u, i + 1, now, Min(left, if u.list[i].due > now then u.list[i].due - now else 1))
  {
  }

  /** What the loop amounts to: every transaction that is due is sent or given up, once, in list
      order, and the others stay as they are. */
  function AfterStep(s: State, now: int): State {
    s.(list := Stepped(s.list, now), log := s.log + StepEffects(s.list, now))
  }

  lemma StepFromIs(s: State, now: int, left: int)
    ensures StepFrom(s, 0, now, left) == (AfterStep(s, now), StepTimeout(s.list, now, left))
  {
    StepSuffix(s, 0, now, left);
    assert s.list[0..] == s.list;
    assert s.list[..0] + Stepped(s.list, now) == Stepped(s.list, now);
  }

  lemma Chained<T>(a: seq<T>, b: seq<T>, c: seq<T>)
    ensures (a + b) + c == a + (b + c)
    ensures a + [] == a && [] + c == c
  {
  }

  lemma {:induction false} StepSuffix(s: State, i: nat, now: int, left: int)
    requires i <= |s.list|
    ensures StepFrom(s, i, now, left) ==
      (s.(list := s.list[..i] + Stepped(s.list[i..], now), log := s.log + StepEffects(s.list[i..], now)),
       StepTimeout(s.list[i..], now, left))
    decreases |s.list| - i
  {
    hide Send, SendEffect, Stepped, StepEffects, StepTimeout;
    var rest := s.list[i..];
    StepHead(rest, now, left);
    if i < |s.list| {
      var t := s.list[i];
      assert rest[0] == t && rest[1..] == s.list[i + 1..];
      var after := if t.due > now then Some(t) else Send(t, now);
      var u := if t.due <= now then AfterSend(s, i, now) else s;
      if after.None? {
        assert u.list[..i] == s.list[..i] && u.list[i..] == rest[1..];
        StepSuffix(u, i, now, 1);
        Chained(s.list[..i], [], Stepped(rest[1..], now));
        Chained(s.log, [SendEffect(t, now)], StepEffects(rest[1..], now));
      } else {
        assert u.list[..i + 1] == s.list[..i] + [after.value] && u.list[i + 1..] == rest[1..];
        StepSuffix(u, i + 1, now, Min(left, if u.list[i].due > now then u.list[i].due - now else 1));
        Chained(s.list[..i], [after.value], Stepped(rest[1..], now));
        Chained(s.log, if t.due > now then [] else [SendEffect(t, now)], StepEffects(rest[1..], now));
      }
    } else {
      assert rest == [] && s.list[..i] == s.list;
      Chained(s.list, [], []);
      Chained(s.log, [], []);
    }
  }

  function AfterReceive(s: State, peer: nat, m: Message, now: int): State {
    match Reacting(s.list, peer, m, now)
    case None => s
    case Some(k) =>
      match React(s.list[k], m, now)
      case Pass => s
      case Keep(t) => s.(list := s.list[k := t])
      case Finish => s.(list := Without(s.list, k), log := s.log + [Answer(s.list[k], now)])
  }

  /** The transaction part of a context, with everything it has sent and reported so far;
      `allocations` only counts. */
  class TransactionList {
    var list: seq<Transaction>
    var nextMid: uint16
    var allocations: nat
    var log: seq<Effect>

    ghost predicate Valid()
      reads this
    {
      Sorted(Mids(list))
    }

    ghost function View(): State
      reads this
    {
      State(list, nextMid, allocations, log)
    }

    /** contextP->nextMID++. */
    method TakeMid() returns (mid: uint16)
      modifies this`nextMid, this`allocations
      ensures mid == old(nextMid)
      ensures View() == TakenMid(old(View()))
    {
      mid := nextMid;
      nextMid := (nextMid + 1) % 0x1_0000;
      allocations := allocations + 1;
    }

    /** transaction_remove, for the i-th transaction. */
    method RemoveAt(i: nat)
      requires Valid() && i < |list|
      modifies this`list
      ensures Valid() && list == Without(old(list), i)
    {
      hide Sorted;
      var pos := RemovePos(Mids(list), list[i].mid);
      RemovePosIff(Mids(list), list[i].mid, i);
      RemoveKeepsSorted(Mids(list), i);
      assert Mids(Without(list, i)) == Without(Mids(list), i);
      list := list[..pos.value] + list[pos.value + 1..];
    }

    /** An assignment to fields of the i-th node. */
    method ReplaceAt(i: nat, t: Transaction)
      requires Valid() && i < |list| && t.mid == list[i].mid
      modifies this`list
      ensures Valid() && list == old(list)[i := t]
    {
      list := list[i := t];
      assert Mids(list) == Mids(old(list));
    }

    /** transaction_send, for the i-th transaction. */
    method SendAt(i: nat, now: int) returns (failed: bool)
      requires i < |list| && (Send(list[i], now).None? ==> Valid())
      modifies this`list, this`log
      ensures old(Valid()) ==> Valid()
      ensures failed <==> old(Send(list[i], now)).None?
      ensures View() == AfterSend(old(View()), i, now)
    {
      var t := list[i];
      if !t.acked {
        var timeout := 0;
        var counter, due, started := t.counter, t.due, t.started;
        if counter == 0 {
          due, counter, started := now + RESPONSE_TIMEOUT, 1, now;
        } else {
          timeout := RESPONSE_TIMEOUT * Pow2(counter - 1);
        }
        if MAX_RETRANSMIT + 1 >= counter {
          log := log + [Transmit(t, now)];
          list := list[i := t.(due := due + timeout, counter := counter + 1, started := started)];
          assert Mids(list) == Mids(old(list));
          return false;
        }
      }
      log := log + [GiveUp(t, now)];
      RemoveAt(i);
      failed := true;
    }

    /** transaction_step. */
    method Step(now: int, timeout: int) returns (left: int)
      requires Valid()
      modifies this`list, this`log
      ensures Valid()
      ensures View() == AfterStep(old(View()), now)
      ensures left == StepTimeout(old(list), now, timeout)
    {
      hide Sorted, Mids, StepTimeout, AfterStep, StepFrom, Send, SendEffect;
      left := timeout;
      var i := 0;
      ghost var s := View();
      StepFromIs(s, now, timeout);
      while i < |list|
        invariant Valid() && i <= |list| && s == View()
        invariant StepFrom(s, i, now, left) == (AfterStep(old(View()), now), StepTimeout(old(list), now, timeout))
        decreases |list| - i
      {
        StepFromHead(s, i, now, left);
        var failed := false;
        if list[i].due <= now {
          failed := SendAt(i, now);
        }
        if !failed {
          left := Min(left, if list[i].due > now then list[i].due - now else 1);
          i := i + 1;
        } else {
          left := 1;
        }
        s := View();
      }
      StepFromHead(s, i, now, left);
    }

    /** transaction_handleResponse. */
    method HandleResponse(peer: nat, m: Message, now: int) returns (handled: bool)
      requires Valid()
      modifies this`list, this`log
      ensures Valid()
      ensures View() == AfterReceive(old(View()), peer, m, now)
      ensures handled <==> Reacting(old(list), peer, m, now).Some?
    {
      hide Sorted, RemovePos, Finished, Mids;
      var i := 0;
      ghost var p := Reacting(list, peer, m, now);
      while i < |list|
        invariant 0 <= i <= |list| && (p.Some? ==> i <= p.value)
      {
        var t := list[i];
        if t.peer == peer {
          var found, reset := false, false;
          var u := t.(heard := true);
          if !t.acked && (m.kind == Ack || m.kind == Rst) && t.mid == m.mid {
            found, reset := true, m.kind == Rst;
            u := u.(acked := true);
          }
          if reset || Finished(u, m) {
            if !reset && m.code == UNAUTHORIZED && MAX_RETRANSMIT > u.counter {
              ReplaceAt(i, u.(acked := false, due := u.due + RESPONSE_TIMEOUT));
              return true;
            }
            log := log + [Answer(t, now)];
            RemoveAt(i);
            return true;
          }
          if found {
            var due := now;
            if u.responseTimeout != 0 {
              due := due + u.responseTimeout;
            } else {
              due := due + RESPONSE_TIMEOUT * u.counter;
            }
            ReplaceAt(i, u.(due := due));
            return true;
          }
        }
        i := i + 1;
      }
      handled := false;
    }

    /** transaction_new with the next message id, LWM2M_LIST_ADD and transaction_send, as every
        caller does them. The list stays sorted if the id is not in use. */
    method Create(peer: nat, code: byte, token: Option<bytes>, responseTimeout: nat, now: int)
      requires Valid()
      modifies this
      ensures old(nextMid !in Mids(list)) ==> Valid()
      ensures View() == AfterCreate(old(View()), peer, code, token, responseTimeout, now)
    {
      hide Sorted, Send, Mids, InsertPos;
      ghost var s := View();
      var mid := TakeMid();
      var t := Transaction(mid, peer, code, token, responseTimeout, false, 0, 0, allocations - 1, 0, false);
      var k := InsertPos(Mids(list), mid);
      if mid !in Mids(list) { InsertKeepsSorted(list, t); }
      list := list[..k] + [t] + list[k..];
      SendsFresh(t, now);
      var failed := SendAt(k, now);
      assert list == Insert(s.list, k, Send(t, now).value);
    }
  }
}
