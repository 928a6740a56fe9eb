/** A Block1 transfer as a protocol: the sender and the receiver of module Block1 joined by a
    network that may delay, repeat, reorder and lose datagrams. */
module Block1Protocol {
  import opened Bytes
  import opened CoapOptions
  import Blocks
  import opened Block1

  /** Message ids are the low 16 bits of an allocation count shared with other exchanges. */
  function MidOf(serial: nat): uint16 {
    serial % 0x1_0000
  }

  /** A datagram with the allocation count its message id was made from. */
  datatype Sent = Sent(request: Request, serial: nat)
  datatype Reply = Reply(ack: Ack, serial: nat)

  /** Both ends, everything sent, and what each end reported to its application. `begun` says whether the
      receiver has accepted block 0 of this transfer; until then `slot` is what earlier writes to the same
      path have left behind. */
  datatype System = System(
    payload: bytes, senderSize: nat, receiverSize: nat,
    live: Option<Transaction>, used: nat, requests: seq<Sent>, callbacks: seq<Code>,
    slot: Option<Blocks.Slot>, begun: bool, replies: seq<Reply>, delivered: seq<bytes>)

  datatype Action =
    | Arrive(request: nat)  // a copy of a request reaches the receiver
    | Earlier(late: Sent)   // a copy of a request of an earlier write to the path reaches it
    | Return(reply: nat)    // a copy of an acknowledgement reaches the sender
    | Traffic               // another exchange uses up a message id
    | Expire                // the sender gives up on its live transaction

  /** The receiver may hold data of an earlier transfer, which it keeps when that is complete. */
  function Start(payload: bytes, senderSize: nat, receiverSize: nat, serial: nat, stale: Option<Blocks.Slot>): System
    requires ValidBlockSize(senderSize)
  {
    var request := FirstRequest(payload, senderSize, MidOf(serial));
    System(payload, senderSize, receiverSize, Some(Transaction(request, payload)), serial + 1,
           [Sent(request, serial)], [], stale, false, [], [])
  }

  /** A block 0 that the receiver accepts. */
  predicate Begins(s: System, i: nat)
    requires i < |s.requests|
  {
    var r := s.requests[i].request;
    |r.slice| <= s.receiverSize && r.block.Some? && r.block.value.num == 0
  }

  /** A copy of an acceptable block 0 that comes after block 1 of this transfer was accepted. */
  predicate LateRestart(s: System, i: nat)
    requires i < |s.requests|
  {
    Begins(s, i) && s.begun && s.slot.Some? && s.slot.value.num > 0
  }

  /** A request from before this transfer that gives the application nothing, and that leaves the data of
      this transfer alone once there are some. */
  predicate Passes(s: System, late: Sent)
    requires Sizes(s)
  {
    && s.requests != [] && late.serial < s.requests[0].serial && late.request.mid == MidOf(late.serial)
    && var r := Receive(s.slot, late.request, s.receiverSize);
      r.delivered.None? && (s.begun ==> r.slot == s.slot)
  }

  /** The network may do anything except bring a late block 0 back, an acknowledgement so old that its
      message id has been reused, or an earlier request that does not pass. */
  predicate Enabled(s: System, a: Action)
    requires Sizes(s)
  {
    match a
    case Arrive(i) => i < |s.requests| && !LateRestart(s, i)
    case Earlier(late) => Passes(s, late)
    case Return(j) => j < |s.replies| && s.used <= s.replies[j].serial + 0x1_0000
    case Traffic => true
    case Expire => s.live.Some?
  }

  predicate Sizes(s: System) {
    ValidBlockSize(s.senderSize) && ValidBlockSize(s.receiverSize)
  }

  /** The sender never meets an acknowledgement it cannot process. */
  predicate Safe(s: System, a: Action) {
    a.Return? && a.reply < |s.replies| && s.live.Some? && s.live.value.request.mid == s.replies[a.reply].ack.mid
    ==> Answerable(s.live.value, s.replies[a.reply].ack)
  }

  function Step(s: System, a: Action): System
    requires Sizes(s) && Enabled(s, a) && Safe(s, a)
  {
    match a
    case Arrive(i) =>
      var r := Receive(s.slot, s.requests[i].request, s.receiverSize);
      s.(slot := r.slot,
         begun := s.begun || Begins(s, i),
         replies := s.replies + [Reply(Ack(s.requests[i].request.mid, r.code, r.block, 0), s.requests[i].serial)],
         delivered := s.delivered + if r.delivered.Some? then [r.delivered.value] else [])
    case Earlier(late) => Overheard(s, late)
    case Return(j) =>
      var ack := s.replies[j].ack;
      if s.live.None? || s.live.value.request.mid != ack.mid then s
      else
        var next := Answered(s.live.value, ack, s.senderSize, MidOf(s.used));
        s.(live := next, callbacks := s.callbacks + [ack.code],
           used := if next.Some? then s.used + 1 else s.used,
           requests := s.requests + if next.Some? then [Sent(next.value.request, s.used)] else [])
    case Traffic => s.(used := s.used + 1)
    case Expire => s.(live := None)
  }

  function Overheard(s: System, late: Sent): System
    requires Sizes(s)
  {
    var r := Receive(s.slot, late.request, s.receiverSize);
    s.(slot := r.slot, replies := s.replies + [Reply(Ack(late.request.mid, r.code, r.block, 0), late.serial)])
  }

  // ---- the shape of a run --------------------------------------------------------------

  /** The block size the transfer ends up using. */
  function Agreed(s: System): nat {
    Min(s.senderSize, s.receiverSize)
  }

  /** The payload travels in one plain request. */
  predicate Plain(s: System) {
    |s.payload| <= Agreed(s)
  }

  /** The first request is refused with 4.13 and the transfer starts over with smaller blocks. */
  predicate Refused(s: System) {
    s.senderSize > s.receiverSize && |s.payload| > s.receiverSize
  }

  function Base(s: System): nat {
    if Refused(s) then 1 else 0
  }

  function Offset(s: System, k: nat): nat {
    BlockStart(k, Agreed(s))
  }

  /** Data of the first `k` blocks. */
  function Data(s: System, k: nat): bytes {
    s.payload[..Min(Offset(s, k), |s.payload|)]
  }

  /** Block numbers fit the option: the payload is at most 2^20 agreed blocks. */
  predicate Fits(s: System) {
    |s.payload| <= 0x10_0000 * Agreed(s)
  }

  /** Blocks of this transfer accepted so far. */
  function Taken(s: System): nat {
    if !s.begun || s.slot.None? then 0 else s.slot.value.num + 1
  }

  /** The i-th request of a block-wise run. */
  ghost predicate RequestShape(s: System, i: nat, r: Request)
    requires Sizes(s)
  {
    if i < Base(s) then r == FirstRequest(s.payload, s.senderSize, r.mid)
    else
      var k := i - Base(s);
      k < 0x10_0000 && Offset(s, k) < |s.payload| && r == BlockRequest(s.payload, k, Agreed(s), r.mid)
  }

  /** The acknowledgement of the i-th request of a block-wise run. */
  ghost predicate ReplyShape(s: System, i: nat, ack: Ack)
    requires Sizes(s)
  {
    if i < Base(s) then
      ack.code == TooLarge413 && ack.block.Some? && ack.block.value.num == 0 && ack.block.value.size == s.receiverSize
    else
      var k := i - Base(s);
      && k < 0x10_0000
      && ack.code == (if Offset(s, k + 1) < |s.payload| then Continue231 else Changed204)
      && ack.block == Some(Block(k, Offset(s, k + 1) < |s.payload|, Agreed(s)))
      && k < Taken(s)
  }

  /** An acknowledgement that answers one of the requests, or an earlier one. */
  ghost predicate Answers(s: System, reply: Reply)
    requires Sizes(s) && s.requests != []
  {
    reply.serial < s.requests[0].serial ||
    exists i :: 0 <= i < |s.requests| && s.requests[i].serial == reply.serial && ReplyShape(s, i, reply.ack)
  }

  /** Common to all runs. */
  ghost predicate Tracked(s: System) {
    && Sizes(s)
    && s.requests != []
    && (forall i :: 0 <= i < |s.requests| ==>
         s.requests[i].serial < s.used && s.requests[i].request.mid == MidOf(s.requests[i].serial))
    && (forall i, j :: 0 <= i < j < |s.requests| ==> s.requests[i].serial < s.requests[j].serial)
    && (forall j :: 0 <= j < |s.replies| ==> s.replies[j].ack.mid == MidOf(s.replies[j].serial))
    && (s.live.Some? ==> s.live.value == Transaction(s.requests[|s.requests| - 1].request, s.payload))
  }

  /** A plain run: one request, delivered whole each time it arrives. */
  ghost predicate PlainRun(s: System) {
    && Tracked(s) && Plain(s)
    && |s.requests| == 1
    && s.requests[0].request.block.None? && s.requests[0].request.slice == s.payload
    && (forall i :: 0 <= i < |s.delivered| ==> s.delivered[i] == s.payload)
    && (forall j :: 0 <= j < |s.replies| && s.replies[j].serial >= s.requests[0].serial ==>
         && s.replies[j].serial == s.requests[0].serial && |s.delivered| > 0
         && s.replies[j].ack == Ack(s.replies[j].ack.mid, Changed204, None, 0))
    && (Changed204 in s.callbacks ==> |s.delivered| > 0)
  }

  /** A block-wise run: at most one block is ahead of what the receiver has. */
  ghost predicate BlockRun(s: System) {
    && Tracked(s) && !Plain(s)
    && (forall i :: 0 <= i < |s.requests| ==> RequestShape(s, i, s.requests[i].request))
    && (forall j :: 0 <= j < |s.replies| ==> Answers(s, s.replies[j]))
    && Taken(s) + Base(s) <= |s.requests| <= Taken(s) + Base(s) + 1
    && (s.begun ==> s.slot.Some? && s.slot.value.buffer == Data(s, Taken(s)))
    && s.delivered == (if Offset(s, Taken(s)) >= |s.payload| then [s.payload] else [])
    && (Changed204 in s.callbacks ==> s.delivered == [s.payload])
  }

  ghost predicate Inv(s: System) {
    PlainRun(s) || BlockRun(s)
  }

  // ---- block arithmetic ----------------------------------------------------------------

  lemma OffsetStep(s: System, k: nat)
    ensures Offset(s, k + 1) == Offset(s, k) + Agreed(s)
    ensures Offset(s, 0) == 0
  {
  }

  lemma {:induction false} OffsetMonotone(s: System, j: nat, k: nat)
    requires j <= k && Sizes(s)
    ensures Offset(s, j) <= Offset(s, k)
    decreases k - j
  {
    if j < k {
      OffsetMonotone(s, j, k - 1);
      OffsetStep(s, k - 1);
    }
  }

  lemma AgreedValid(s: System)
    requires Sizes(s)
    ensures ValidBlockSize(Agreed(s)) && PowerSize(Agreed(s))
  {
  }

  /** Block `k` as it is sent. */
  lemma BlockShape(s: System, k: nat, mid: uint16)
    requires Sizes(s) && k < 0x10_0000 && Offset(s, k) < |s.payload|
    ensures var r := BlockRequest(s.payload, k, Agreed(s), mid);
            && r.block == Some(Block(k, Offset(s, k + 1) < |s.payload|, Agreed(s)))
            && r.mid == mid
            && |r.slice| <= Agreed(s)
            && Data(s, k) + r.slice == Data(s, k + 1)
            && |Data(s, k)| == Offset(s, k)
  {
    AgreedValid(s);
    OffsetStep(s, k);
    var n, start := Agreed(s), Offset(s, k);
    assert s.payload[..start] + s.payload[start..start + Min(n, |s.payload| - start)]
        == s.payload[..start + Min(n, |s.payload| - start)];
  }

  // ---- arrivals ------------------------------------------------------------------------

  /** The system after copy `i` of a request arrived and was answered. */
  function Received(s: System, i: nat, r: Reception): System
    requires i < |s.requests|
  {
    s.(slot := r.slot, begun := s.begun || Begins(s, i),
       replies := s.replies + [Reply(Ack(s.requests[i].request.mid, r.code, r.block, 0), s.requests[i].serial)],
       delivered := s.delivered + if r.delivered.Some? then [r.delivered.value] else [])
  }

  lemma ArriveIsReceived(s: System, i: nat)
    requires Sizes(s) && Enabled(s, Arrive(i)) && Safe(s, Arrive(i))
    ensures Step(s, Arrive(i)) == Received(s, i, Receive(s.slot, s.requests[i].request, s.receiverSize))
  {
  }

  lemma PlainArrives(s: System, i: nat)
    requires PlainRun(s) && i < |s.requests|
    ensures PlainRun(Received(s, i, Receive(s.slot, s.requests[i].request, s.receiverSize)))
  {
    var r := Receive(s.slot, s.requests[i].request, s.receiverSize);
    assert r == Reception(s.slot, Changed204, None, Some(s.payload));
  }

  /** What the receiver makes of the request refused at the start. */
  lemma RefusedReception(s: System, r: Request)
    requires Sizes(s) && Refused(s) && r == FirstRequest(s.payload, s.senderSize, r.mid)
    ensures var x := Receive(s.slot, r, s.receiverSize);
            |r.slice| > s.receiverSize && x.slot == s.slot && x.delivered.None? && x.code == TooLarge413
            && x.block.Some? && x.block.value.num == 0 && x.block.value.size == s.receiverSize
  {
  }

  /** What the receiver makes of block `k` when it has all blocks before it. */
  lemma BlockReception(s: System, k: nat, r: Request)
    requires BlockRun(s) && k < 0x10_0000 && Offset(s, k) < |s.payload| && k <= Taken(s)
    requires r == BlockRequest(s.payload, k, Agreed(s), r.mid)
    requires k == 0 ==> Taken(s) <= 1
    ensures var x := Receive(s.slot, r, s.receiverSize);
            var last := Offset(s, k + 1) >= |s.payload|;
            && x.slot == Some(Blocks.Slot(Data(s, Max(Taken(s), k + 1)), Max(Taken(s), k + 1) - 1))
            && x.code == (if last then Changed204 else Continue231)
            && x.block == Some(Block(k, !last, Agreed(s)))
            && x.delivered == (if last && k == Taken(s) then Some(s.payload) else None)
  {
    hide Data, Offset;
    BlockShape(s, k, r.mid);
    AgreedValid(s);
    var a := ToArrival(r.slice, r.block.value);
    Blocks.ExpectedOffsetExact(a);
    assert a.num * a.size == Offset(s, k) by { OffsetIs(s, k); }
    if k == 0 {
      FirstBlock(s);
      assert Data(s, 0) + r.slice == r.slice;
    }
    LastData(s, k);
  }

  lemma OffsetIs(s: System, k: nat)
    ensures Offset(s, k) == k * Agreed(s)
  {
  }

  /** In a block-wise run block 0 is never the last. */
  lemma FirstBlock(s: System)
    requires Sizes(s) && !Plain(s)
    ensures Data(s, 0) == [] && Offset(s, 1) < |s.payload|
  {
    OffsetStep(s, 0);
  }

  lemma LastData(s: System, k: nat)
    ensures Offset(s, k + 1) >= |s.payload| ==> Data(s, k + 1) == s.payload
  {
  }

  /** What a copy of request `i` changes: the reply has the shape of an answer to it, and the
      slot and the deliveries stay as the run requires. */
  lemma CopyAnswered(s: System, i: nat)
    requires BlockRun(s) && i < |s.requests| && !LateRestart(s, i)
    ensures var t := Received(s, i, Receive(s.slot, s.requests[i].request, s.receiverSize));
            && ReplyShape(t, i, t.replies[|s.replies|].ack)
            && Taken(t) == (if i < Base(s) then Taken(s) else Max(Taken(s), i - Base(s) + 1))
            && (t.begun ==> t.slot.Some? && t.slot.value.buffer == Data(s, Taken(t)))
            && t.delivered == (if Offset(s, Taken(t)) >= |s.payload| then [s.payload] else [])
            && (s.delivered == [s.payload] ==> t.delivered == [s.payload])
  {
    hide Data, Offset, Receive, BlockRequest, FirstRequest;
    var r := s.requests[i].request;
    assert RequestShape(s, i, r);
    var t := Received(s, i, Receive(s.slot, r, s.receiverSize));
    SameGeometry(s, t, i);
    if i < Base(s) {
      RefusedReception(s, r);
    } else {
      var k := i - Base(s);
      BlockShape(s, k, r.mid);
      AgreedValid(s);
      BlockReception(s, k, r);
      TakenGrows(s, k);
    }
  }

  lemma BlockArrives(s: System, i: nat)
    requires BlockRun(s) && i < |s.requests| && !LateRestart(s, i)
    ensures BlockRun(Received(s, i, Receive(s.slot, s.requests[i].request, s.receiverSize)))
  {
    hide Data, Offset, Receive, RequestShape, ReplyShape;
    var x := Receive(s.slot, s.requests[i].request, s.receiverSize);
    var t := Received(s, i, x);
    CopyAnswered(s, i);
    SameGeometry(s, t, i);
    SameGeometry(s, t, Taken(t));
    ShapesKept(s, t);
    assert Answers(t, t.replies[|s.replies|]);
    assert Tracked(t);
  }

  /** If block `k` completes the payload, the blocks before it did not. */
  lemma TakenGrows(s: System, k: nat)
    requires BlockRun(s) && k <= Taken(s) && Offset(s, k) < |s.payload|
    ensures Offset(s, Max(Taken(s), k + 1)) >= |s.payload|
            <==> (Offset(s, Taken(s)) >= |s.payload| || (k == Taken(s) && Offset(s, k + 1) >= |s.payload|))
    ensures k == Taken(s) ==> s.delivered == []
    ensures Offset(s, k + 1) >= |s.payload| && k < Taken(s) ==> Offset(s, Taken(s)) >= |s.payload|
  {
    if k < Taken(s) {
      OffsetMonotone(s, k + 1, Taken(s));
    }
  }

  /** Earlier requests and replies keep their shape when only the receiver moves on. */
  lemma ShapesKept(s: System, t: System)
    requires BlockRun(s) && Taken(s) <= Taken(t)
    requires t == s.(slot := t.slot, begun := t.begun, replies := t.replies, delivered := t.delivered) && s.replies <= t.replies
    ensures forall i :: 0 <= i < |t.requests| ==> RequestShape(t, i, t.requests[i].request)
    ensures forall j :: 0 <= j < |s.replies| ==> Answers(t, t.replies[j])
  {
    hide FirstRequest, BlockRequest, Data, Offset;
    forall i | 0 <= i < |t.requests| ensures RequestShape(t, i, t.requests[i].request) {
      assert RequestShape(s, i, s.requests[i].request);
      SameGeometry(s, t, i);
    }
    forall j | 0 <= j < |s.replies| ensures Answers(t, t.replies[j]) {
      assert t.replies[j] == s.replies[j] && Answers(s, s.replies[j]);
      if s.replies[j].serial >= s.requests[0].serial {
        var i :| 0 <= i < |s.requests| && s.requests[i].serial == s.replies[j].serial && ReplyShape(s, i, s.replies[j].ack);
        SameGeometry(s, t, i);
        assert ReplyShape(t, i, t.replies[j].ack);
      }
    }
  }

  lemma SameGeometry(s: System, t: System, i: nat)
    requires s.payload == t.payload && s.senderSize == t.senderSize && s.receiverSize == t.receiverSize
    ensures Agreed(s) == Agreed(t) && Base(s) == Base(t) && Offset(s, i) == Offset(t, i) && Data(s, i) == Data(t, i)
    ensures i >= Base(s) ==> Offset(s, i - Base(s)) == Offset(t, i - Base(s)) && Offset(s, i - Base(s) + 1) == Offset(t, i - Base(s) + 1)
  {
  }

  // ---- acknowledgements ----------------------------------------------------------------

  /** Within one cycle of message ids, equal ids mean the same allocation. */
  lemma SameMid(a: nat, b: nat, used: nat)
    requires a <= b < used <= a + 0x1_0000 && MidOf(a) == MidOf(b)
    ensures a == b
  {
  }

  /** An acknowledgement the network may still deliver and that matches the live message id
      answers the last request. */
  lemma MatchesLast(s: System, j: nat, i: nat)
    requires Tracked(s) && Enabled(s, Return(j)) && s.live.Some? && s.live.value.request.mid == s.replies[j].ack.mid
    requires i < |s.requests| && s.requests[i].serial == s.replies[j].serial
    ensures i == |s.requests| - 1
  {
    var last := |s.requests| - 1;
    if i < last {
      SameMid(s.requests[i].serial, s.requests[last].serial, s.used);
    }
  }

  /** An acknowledgement of an earlier request that the network may still deliver does not match. */
  lemma EarlierNeverMatches(s: System, j: nat)
    requires Tracked(s) && Enabled(s, Return(j)) && s.live.Some? && s.live.value.request.mid == s.replies[j].ack.mid
    ensures s.replies[j].serial >= s.requests[0].serial
  {
    var last := |s.requests| - 1;
    if s.replies[j].serial < s.requests[0].serial {
      assert s.requests[0].serial <= s.requests[last].serial;
      SameMid(s.replies[j].serial, s.requests[last].serial, s.used);
    }
  }

  /** The system after the live request was answered and `next` was started. */
  function Acknowledged(s: System, code: Code, next: Option<Transaction>): System {
    s.(live := next, callbacks := s.callbacks + [code],
       used := if next.Some? then s.used + 1 else s.used,
       requests := s.requests + if next.Some? then [Sent(next.value.request, s.used)] else [])
  }

  lemma PlainReturns(s: System, j: nat)
    requires PlainRun(s) && Enabled(s, Return(j))
    ensures Safe(s, Return(j)) && PlainRun(Step(s, Return(j)))
  {
    var ack := s.replies[j].ack;
    if s.live.Some? && s.live.value.request.mid == ack.mid {
      EarlierNeverMatches(s, j);
      assert ack.block.None? && ack.code == Changed204;
    }
  }

  /** What the sender does when its last block-wise request is acknowledged. */
  lemma BlockAnswer(s: System, ack: Ack)
    requires BlockRun(s) && NextFits(s) && s.live.Some? && ReplyShape(s, |s.requests| - 1, ack)
    ensures Answerable(s.live.value, ack)
    ensures var k := |s.requests| - Base(s);
            Answered(s.live.value, ack, s.senderSize, MidOf(s.used))
            == if Offset(s, k) >= |s.payload| then None
               else Some(Transaction(BlockRequest(s.payload, k, Agreed(s), MidOf(s.used)), s.payload))
    ensures ack.code == Changed204 ==> s.delivered == [s.payload] && Offset(s, |s.requests| - Base(s)) >= |s.payload|
  {
    hide Data, BlockRequest, Offset, NextBlock, Retry, FirstRequest;
    var last := |s.requests| - 1;
    assert RequestShape(s, last, s.requests[last].request);
    OffsetStep(s, 0);
    if last < Base(s) {
      RefusedAnswer(s, s.requests[last].request, MidOf(s.used));
    } else {
      var k := last - Base(s);
      BlockShape(s, k, s.requests[last].request.mid);
      AgreedValid(s);
      BlockNext(s, k, MidOf(s.used));
      if Offset(s, k + 1) >= |s.payload| {
        OffsetMonotone(s, k + 1, Taken(s));
      }
    }
  }

  /** After 4.13 the transfer starts over at block 0 with the receiver's size. */
  lemma RefusedAnswer(s: System, r: Request, mid: uint16)
    requires Sizes(s) && Refused(s) && r == FirstRequest(s.payload, s.senderSize, r.mid)
    ensures Offset(s, 0) < |s.payload|
    ensures Retry(Transaction(r, s.payload), s.receiverSize, mid)
            == Some(Transaction(BlockRequest(s.payload, 0, Agreed(s), mid), s.payload))
  {
    hide BlockRequest;
    OffsetStep(s, 0);
  }

  /** After block `k` the sender goes on with block `k + 1` of the same size, if there is one. */
  lemma BlockNext(s: System, k: nat, mid: uint16)
    requires Sizes(s) && k < 0x10_0000
    ensures ValidBlockSize(Agreed(s))
    ensures forall r: Request, more: bool :: r.block == Some(Block(k, more, Agreed(s))) ==>
              NextBlock(Transaction(r, s.payload), Agreed(s), mid)
              == if Offset(s, k + 1) >= |s.payload| then None
                 else Some(Transaction(BlockRequest(s.payload, k + 1, Agreed(s), mid), s.payload))
  {
    hide BlockRequest;
    AgreedValid(s);
    assert Agreed(s) / Agreed(s) == 1;
  }

  /** The number after the last block sent fits the option, if it is needed at all. */
  ghost predicate NextFits(s: System)
    requires |s.requests| >= 1
  {
    var k := |s.requests| - Base(s);
    Offset(s, k) < |s.payload| ==> k < 0x10_0000
  }

  /** A block that still has data has a number below 2^20. */
  lemma NumberFits(s: System, k: nat)
    requires Sizes(s) && Fits(s)
    ensures Offset(s, k) < |s.payload| ==> k < 0x10_0000
  {
    if k >= 0x10_0000 {
      OffsetMonotone(s, 0x10_0000, k);
    }
  }

  lemma BlockReturns(s: System, j: nat)
    requires BlockRun(s) && Fits(s) && Enabled(s, Return(j))
    ensures Safe(s, Return(j)) && BlockRun(Step(s, Return(j)))
  {
    hide Data, Offset, Receive, BlockRequest, FirstRequest, Answered, ReplyShape;
    var ack := s.replies[j].ack;
    NumberFits(s, |s.requests| - Base(s));
    if s.live.Some? && s.live.value.request.mid == ack.mid {
      assert Answers(s, s.replies[j]);
      EarlierNeverMatches(s, j);
      var i :| 0 <= i < |s.requests| && s.requests[i].serial == s.replies[j].serial && ReplyShape(s, i, ack);
      MatchesLast(s, j, i);
      BlockAnswer(s, ack);
      var next := Answered(s.live.value, ack, s.senderSize, MidOf(s.used));
      ReplyTaken(s, i, ack);
      AcknowledgedRun(s, ack.code, next);
    }
  }

  /** An acknowledged block has been accepted. */
  lemma ReplyTaken(s: System, i: nat, ack: Ack)
    requires Sizes(s) && ReplyShape(s, i, ack)
    ensures i < Base(s) + Taken(s)
  {
  }

  /** Starting the next block, or none, keeps the run's shape. */
  lemma AcknowledgedRun(s: System, code: Code, next: Option<Transaction>)
    requires BlockRun(s) && |s.requests| <= Base(s) + Taken(s)
    requires next.Some? ==>
               var k := |s.requests| - Base(s);
               k < 0x10_0000 && Offset(s, k) < |s.payload|
               && next.value == Transaction(BlockRequest(s.payload, k, Agreed(s), MidOf(s.used)), s.payload)
    requires code == Changed204 ==> s.delivered == [s.payload]
    ensures BlockRun(Acknowledged(s, code, next))
  {
    hide Data, Offset, BlockRequest, RequestShape, ReplyShape;
    var t := Acknowledged(s, code, next);
    SameGeometry(s, t, Taken(s));
    if next.Some? {
      BlockMid(s, |s.requests| - Base(s), MidOf(s.used));
    }
    forall i | 0 <= i < |t.requests| ensures RequestShape(t, i, t.requests[i].request) {
      if i < |s.requests| {
        assert RequestShape(s, i, s.requests[i].request);
        ShapeFrame(s, t, i, s.requests[i].request, Ack(0, OtherCode, None, 0));
      } else {
        NextShape(s, t, next.value.request);
      }
    }
    forall j | 0 <= j < |t.replies| ensures Answers(t, t.replies[j]) {
      assert Answers(s, s.replies[j]);
      if s.replies[j].serial >= s.requests[0].serial {
        var i :| 0 <= i < |s.requests| && s.requests[i].serial == s.replies[j].serial && ReplyShape(s, i, s.replies[j].ack);
        ShapeFrame(s, t, i, s.requests[i].request, s.replies[j].ack);
        assert t.requests[i] == s.requests[i] && ReplyShape(t, i, t.replies[j].ack);
      }
    }
  }

  lemma BlockMid(s: System, k: nat, mid: uint16)
    requires Sizes(s) && k < 0x10_0000 && Offset(s, k) < |s.payload|
    ensures BlockRequest(s.payload, k, Agreed(s), mid).mid == mid
  {
  }

  lemma NextShape(s: System, t: System, r: Request)
    requires Sizes(s) && t == s.(live := t.live, used := t.used, requests := t.requests, callbacks := t.callbacks)
    requires s.requests != []
    requires var k := |s.requests| - Base(s);
             k < 0x10_0000 && Offset(s, k) < |s.payload| && r == BlockRequest(s.payload, k, Agreed(s), r.mid)
    ensures RequestShape(t, |s.requests|, r)
  {
    hide BlockRequest;
    SameGeometry(s, t, |s.requests|);
  }

  // ---- every step, every run -----------------------------------------------------------

  /** Traffic and Expire leave the transfer's own data alone. */
  lemma OtherSteps(s: System, a: Action)
    requires Inv(s) && Sizes(s) && Enabled(s, a) && (a.Traffic? || a.Expire?)
    ensures Safe(s, a) && Inv(Step(s, a))
  {
    hide Data, Offset, RequestShape, ReplyShape;
    var t := Step(s, a);
    if BlockRun(s) {
      forall i | 0 <= i < |t.requests| ensures RequestShape(t, i, t.requests[i].request) {
        assert RequestShape(s, i, s.requests[i].request);
        ShapeFrame(s, t, i, s.requests[i].request, Ack(0, OtherCode, None, 0));
      }
      forall j | 0 <= j < |t.replies| ensures Answers(t, t.replies[j]) {
        assert Answers(s, s.replies[j]);
        if s.replies[j].serial >= s.requests[0].serial {
          var i :| 0 <= i < |s.requests| && s.requests[i].serial == s.replies[j].serial && ReplyShape(s, i, s.replies[j].ack);
          ShapeFrame(s, t, i, s.requests[i].request, s.replies[j].ack);
          assert ReplyShape(t, i, t.replies[j].ack);
        }
      }
      SameGeometry(s, t, Taken(s));
      assert BlockRun(t);
    }
  }

  lemma ShapeFrame(s: System, t: System, i: nat, r: Request, ack: Ack)
    requires Sizes(s) && t == s.(live := t.live, used := t.used, requests := t.requests, callbacks := t.callbacks)
    ensures RequestShape(s, i, r) <==> RequestShape(t, i, r)
    ensures ReplyShape(s, i, ack) <==> ReplyShape(t, i, ack)
  {
    SameGeometry(s, t, i);
  }

  /** An earlier request that passes may replace what was left behind, but not what this transfer has. */
  lemma EarlierKeepsInv(s: System, late: Sent)
    requires Inv(s) && Sizes(s) && Passes(s, late)
    ensures Inv(Overheard(s, late))
  {
    hide Data, Offset, Receive, RequestShape, ReplyShape;
    var t := Overheard(s, late);
    if BlockRun(s) {
      assert Taken(t) == Taken(s);
      SameGeometry(s, t, Taken(t));
      ShapesKept(s, t);
      assert Answers(t, t.replies[|s.replies|]);
      assert BlockRun(t);
    }
  }

  /** Once this transfer has begun, an earlier request passes exactly if it is too large, or a block that is
      neither another block 0, nor taken for the block that is due, nor a last one from further ahead. */
  lemma PassesIff(s: System, late: Sent)
    requires Sizes(s) && s.begun && s.slot.Some?
    requires s.requests != [] && late.serial < s.requests[0].serial && late.request.mid == MidOf(late.serial)
    ensures
      var r, slot := late.request, s.slot.value;
      Passes(s, late) <==>
        |r.slice| > s.receiverSize ||
        (r.block.Some? &&
         var b := r.block.value;
         if b.num == 0 then slot == Blocks.Slot(r.slice, 0) && b.more
         else if b.num == slot.num + 1 then |slot.buffer| != Blocks.ExpectedOffset(ToArrival(r.slice, b))
         else b.num <= slot.num || b.more)
  {
    if late.request.block.Some? {
      Blocks.ForeignBlockIff(s.slot.value, ToArrival(late.request.slice, late.request.block.value));
    }
  }

  lemma StepKeepsInv(s: System, a: Action)
    requires Inv(s) && Sizes(s) && Fits(s) && Enabled(s, a)
    ensures Safe(s, a) && Inv(Step(s, a)) && Fits(Step(s, a))
  {
    hide PlainRun, BlockRun, Receive, Answered, Fits;
    assert Tracked(s) by { InvTracked(s); }
    match a {
      case Arrive(i) =>
        ArriveIsReceived(s, i);
        if PlainRun(s) { PlainArrives(s, i); } else { BlockArrives(s, i); }
      case Return(j) =>
        if PlainRun(s) { PlainReturns(s, j); } else { BlockReturns(s, j); }
      case Earlier(late) => EarlierKeepsInv(s, late);
      case _ => OtherSteps(s, a);
    }
    StepKeepsSetting(s, a);
    FitsKept(s, Step(s, a));
  }

  lemma InvTracked(s: System)
    requires Inv(s)
    ensures Tracked(s)
  {
  }

  lemma FitsKept(s: System, t: System)
    requires t.payload == s.payload && t.senderSize == s.senderSize && t.receiverSize == s.receiverSize
    ensures Fits(s) <==> Fits(t)
  {
  }

  lemma StartInv(payload: bytes, senderSize: nat, receiverSize: nat, serial: nat, stale: Option<Blocks.Slot>)
    requires ValidBlockSize(senderSize) && ValidBlockSize(receiverSize)
    ensures Inv(Start(payload, senderSize, receiverSize, serial, stale))
  {
    hide SettableBlock;
    var s := Start(payload, senderSize, receiverSize, serial, stale);
    if !Plain(s) {
      OffsetStep(s, 0);
      assert Offset(s, Taken(s)) == 0;
      assert Data(s, 0) == [];
      if !Refused(s) {
        assert SettableBlock(0, senderSize) by { AgreedSettable(senderSize); }
        assert Agreed(s) == senderSize;
        assert RequestShape(s, 0, s.requests[0].request);
      }
    }
  }

  lemma AgreedSettable(size: nat)
    requires ValidBlockSize(size)
    ensures SettableBlock(0, size)
  {
  }

  /** All systems reachable by the actions of a run, each enabled where it is taken. */
  ghost predicate Reaches(s: System, run: seq<Action>, t: System)
    decreases |run|
  {
    if run == [] then s == t
    else Sizes(s) && Enabled(s, run[0]) && Safe(s, run[0]) && Reaches(Step(s, run[0]), run[1..], t)
  }

  lemma {:induction false} RunKeepsInv(s: System, run: seq<Action>, t: System)
    requires Inv(s) && Fits(s) && Reaches(s, run, t)
    ensures Inv(t) && Fits(t) && t.payload == s.payload && Agreed(t) == Agreed(s)
    decreases |run|
  {
    hide Inv, Fits, Answered, Receive;
    if run != [] {
      StepKeepsInv(s, run[0]);
      StepKeepsSetting(s, run[0]);
      RunKeepsInv(Step(s, run[0]), run[1..], t);
    }
  }

  lemma StepKeepsSetting(s: System, a: Action)
    requires Sizes(s) && Enabled(s, a) && Safe(s, a)
    ensures var t := Step(s, a); t.payload == s.payload && t.senderSize == s.senderSize && t.receiverSize == s.receiverSize
  {
    hide Answered, Receive;
  }

  /** End-to-end safety. For every payload of at most 2^20 agreed blocks, every pair of block
      sizes, whatever earlier writes to the path have left behind, and every run of the network -
      copies, losses, reorderings, a restart after 4.13, earlier requests that pass - the application is only ever given the sender's payload, at most once when the transfer
      is block-wise, and a success reported to the sender means it was given. */
  lemma DeliversOnlyThePayload(payload: bytes, senderSize: nat, receiverSize: nat, serial: nat, stale: Option<Blocks.Slot>, run: seq<Action>, t: System)
    requires ValidBlockSize(senderSize) && ValidBlockSize(receiverSize)
    requires |payload| <= 0x10_0000 * Min(senderSize, receiverSize)
    requires Reaches(Start(payload, senderSize, receiverSize, serial, stale), run, t)
    ensures forall i :: 0 <= i < |t.delivered| ==> t.delivered[i] == payload
    ensures |payload| > Min(senderSize, receiverSize) ==> |t.delivered| <= 1
    ensures Changed204 in t.callbacks ==> payload in t.delivered
  {
    StartInv(payload, senderSize, receiverSize, serial, stale);
    RunKeepsInv(Start(payload, senderSize, receiverSize, serial, stale), run, t);
    if Changed204 in t.callbacks {
      assert t.delivered[0] == payload;
    }
  }

  /** No run gets stuck on an acknowledgement the sender cannot process. */
  lemma EveryEnabledStepIsSafe(payload: bytes, senderSize: nat, receiverSize: nat, serial: nat, stale: Option<Blocks.Slot>, run: seq<Action>, t: System, a: Action)
    requires ValidBlockSize(senderSize) && ValidBlockSize(receiverSize)
    requires |payload| <= 0x10_0000 * Min(senderSize, receiverSize)
    requires Reaches(Start(payload, senderSize, receiverSize, serial, stale), run, t)
    requires Sizes(t) && Enabled(t, a)
    ensures Safe(t, a)
  {
    StartInv(payload, senderSize, receiverSize, serial, stale);
    RunKeepsInv(Start(payload, senderSize, receiverSize, serial, stale), run, t);
    StepKeepsInv(t, a);
    InvTracked(t);
  }
}
