/** A Block1 transfer over a network that delivers: how many exchanges it takes, that it ends,
    and exactly which payloads arrive whole. */
module Block1Progress {
  import opened Bytes
  import opened CoapOptions
  import Blocks
  import opened Block1
  import opened Block1Protocol

  /** One exchange: the live request arrives and its acknowledgement returns. */
  function Exchange(s: System): System {
    if s.requests == [] || !Sizes(s) then s
    else
      var a := Arrive(|s.requests| - 1);
      if !Enabled(s, a) || !Safe(s, a) then s
      else
        var t := Step(s, a);
        var b := Return(|t.replies| - 1);
        if Enabled(t, b) && Safe(t, b) then Step(t, b) else t
  }

  function Exchanges(s: System, n: nat): System
    decreases n
  {
    if n == 0 then s else Exchanges(Exchange(s), n - 1)
  }

  lemma {:induction false} ExchangesAdd(s: System, m: nat, n: nat)
    ensures Exchanges(s, m + n) == Exchanges(Exchanges(s, m), n)
    decreases m
  {
    hide Exchange;
    if m > 0 {
      ExchangesAdd(Exchange(s), m - 1, n);
    }
  }

  /** The live request's message id has not been reused. */
  ghost predicate Recent(s: System)
    requires |s.requests| >= 1
  {
    s.used <= s.requests[|s.requests| - 1].serial + 0x1_0000
  }

  /** Block requests sent so far. */
  function Asked(s: System): int {
    |s.requests| - Base(s)
  }

  /** One exchange of a block-wise run. */
  lemma BlockExchange(s: System)
    requires BlockRun(s) && NextFits(s) && s.live.Some? && Recent(s)
    ensures var t := Exchange(s);
            && BlockRun(t) && Recent(t) && SameSetting(s, t)
            && Taken(t) == Asked(s)
            && (if Offset(s, Asked(s)) < |s.payload| then t.live.Some? && Asked(t) == Asked(s) + 1
                else t.live.None? && t.delivered == [s.payload] && Changed204 in t.callbacks)
  {
    hide Data, Offset, ReplyShape, Receive, Answered, BlockRequest, FirstRequest, Exchange, BlockRun, NextFits, LateRestart, LastAck;
    RunFacts(s);
    var i := |s.requests| - 1;
    LastIsNoRestart(s);
    LastReply(s);
    BlockArrives(s, i);
    var t, ack := AfterArrival(s), LastAck(s);
    assert BlockRun(t);
    SameGeometry(s, t, |s.requests|);
    SameGeometry(s, t, Asked(s));
    RunFacts(t);
    NextFitsSame(s, t);
    BlockAnswer(t, ack);
    ExchangeIs(s);
    AcknowledgedRun(t, ack.code, Answered(t.live.value, ack, t.senderSize, MidOf(t.used)));
    SameGeometry(s, Exchange(s), Asked(s));
    CodeOfLast(t, ack);
  }

  lemma RunFacts(s: System)
    requires BlockRun(s)
    ensures Tracked(s) && !Plain(s) && 0 <= Asked(s)
  {
  }

  lemma NextFitsSame(s: System, t: System)
    requires |s.requests| >= 1 && t.requests == s.requests
    requires t.payload == s.payload && t.senderSize == s.senderSize && t.receiverSize == s.receiverSize
    ensures NextFits(s) <==> NextFits(t)
    ensures NextFits(s) <==> (Offset(s, Asked(s)) < |s.payload| ==> Asked(s) < 0x10_0000)
  {
  }

  /** The system after the last request arrived once more, and the acknowledgement of it. */
  function AfterArrival(s: System): System
    requires Sizes(s) && s.requests != []
  {
    Received(s, |s.requests| - 1, Receive(s.slot, s.requests[|s.requests| - 1].request, s.receiverSize))
  }

  function LastAck(s: System): Ack
    requires Sizes(s) && s.requests != []
  {
    var x := Receive(s.slot, s.requests[|s.requests| - 1].request, s.receiverSize);
    Ack(s.requests[|s.requests| - 1].request.mid, x.code, x.block, 0)
  }

  /** An exchange in one formula, when nothing stands in its way. */
  lemma ExchangeIs(s: System)
    requires Tracked(s) && s.live.Some? && Recent(s) && !LateRestart(s, |s.requests| - 1)
    requires Answerable(s.live.value, LastAck(s))
    ensures Exchange(s) == Acknowledged(AfterArrival(s), LastAck(s).code,
                                        Answered(s.live.value, LastAck(s), s.senderSize, MidOf(s.used)))
  {
    hide Receive, Answered, LateRestart;
    ArriveIsReceived(s, |s.requests| - 1);
  }

  ghost predicate SameSetting(s: System, t: System) {
    t.payload == s.payload && t.senderSize == s.senderSize && t.receiverSize == s.receiverSize
  }

  lemma LastIsNoRestart(s: System)
    requires BlockRun(s)
    ensures !LateRestart(s, |s.requests| - 1)
  {
    hide Data, Offset, FirstRequest;
    var i := |s.requests| - 1;
    assert RequestShape(s, i, s.requests[i].request);
    if i < Base(s) {
      RefusedReception(s, s.requests[i].request);
    } else {
      BlockShape(s, i - Base(s), s.requests[i].request.mid);
    }
  }

  /** The reply to the last request has the shape of an answer to it, and everything asked for
      so far has been taken. */
  lemma LastReply(s: System)
    requires BlockRun(s)
    ensures ReplyShape(AfterArrival(s), |s.requests| - 1, LastAck(s)) && Taken(AfterArrival(s)) == Asked(s)
  {
    hide Data, Offset, BlockRequest, FirstRequest, Receive;
    var i := |s.requests| - 1;
    var r := s.requests[i].request;
    assert RequestShape(s, i, r);
    var t := AfterArrival(s);
    SameGeometry(s, t, i);
    if i < Base(s) {
      RefusedReception(s, r);
    } else {
      BlockShape(s, i - Base(s), r.mid);
      BlockReception(s, i - Base(s), r);
    }
  }

  lemma CodeOfLast(s: System, ack: Ack)
    requires Sizes(s) && s.requests != [] && ReplyShape(s, |s.requests| - 1, ack)
    requires !Plain(s)
    ensures Offset(s, Asked(s)) >= |s.payload| ==> ack.code == Changed204
  {
    OffsetStep(s, 0);
  }

  /** `n` exchanges of a block-wise run that still has blocks to send. */
  lemma {:induction false} BlockExchanges(s: System, n: nat)
    requires BlockRun(s) && s.live.Some? && Recent(s)
    requires n > 0 ==> Asked(s) + n - 1 < 0x10_0000 && Offset(s, Asked(s) + n - 1) < |s.payload|
    ensures var t := Exchanges(s, n);
            BlockRun(t) && t.live.Some? && Recent(t) && SameSetting(s, t) && Asked(t) == Asked(s) + n
    decreases n
  {
    hide BlockRun, Exchange, Offset, Recent, NextFits;
    if n > 0 {
      assert Sizes(s) && |s.requests| >= 1 by { RunSizes(s); }
      OffsetMonotone(s, Asked(s), Asked(s) + n - 1);
      assert NextFits(s) by { NextFitsIs(s); }
      BlockExchange(s);
      var t := Exchange(s);
      SameGeometry(s, t, Asked(s) + n - 1);
      BlockExchanges(t, n - 1);
    }
  }

  lemma RunSizes(s: System)
    requires BlockRun(s)
    ensures Sizes(s) && |s.requests| >= 1
  {
  }

  lemma NextFitsIs(s: System)
    requires |s.requests| >= 1 && Asked(s) < 0x10_0000
    ensures NextFits(s)
  {
  }

  /** The number of blocks of a payload. */
  function BlockCount(length: nat, size: nat): nat
    requires size > 0
  {
    (length + size - 1) / size
  }

  lemma BlockCountBounds(s: System)
    requires Sizes(s) && s.payload != []
    ensures var c := BlockCount(|s.payload|, Agreed(s));
            c > 0 && Offset(s, c - 1) < |s.payload| <= Offset(s, c) && (Fits(s) <==> c <= 0x10_0000)
  {
    AgreedValid(s);
    var c, n := BlockCount(|s.payload|, Agreed(s)), Agreed(s);
    assert c * n >= |s.payload| && (c - 1) * n < |s.payload|;
    if c <= 0x10_0000 {
      OffsetMonotone(s, c, 0x10_0000);
    } else {
      OffsetMonotone(s, 0x10_0000, c - 1);
    }
  }

  /** How many exchanges a transfer takes: one for a plain request; one more than the blocks
      when the first request is refused; and when the 20-bit numbers run out, the 2^20 blocks
      and one request without the option. */
  function ExchangesNeeded(payload: bytes, senderSize: nat, receiverSize: nat): nat
    requires ValidBlockSize(senderSize) && ValidBlockSize(receiverSize)
  {
    var size := Min(senderSize, receiverSize);
    var refused := if senderSize > receiverSize && |payload| > receiverSize then 1 else 0;
    if |payload| <= size then 1
    else if |payload| <= 0x10_0000 * size then BlockCount(|payload|, size) + refused
    else 0x10_0000 + refused + 1
  }

  /** When the numbers run out, the next request carries no Block1 option. */
  lemma NumbersRunOut(s: System)
    requires BlockRun(s) && s.live.Some? && Recent(s) && Asked(s) == 0x10_0000 && !Fits(s)
    ensures var t := Exchanges(s, 2);
            && t.live.None? && Changed204 in t.callbacks
            && |t.delivered| == 1 && |t.delivered[0]| <= Agreed(s) && Agreed(s) < |s.payload|
  {
    hide Data, RequestShape, BlockRequest, FirstRequest, ReplyShape, Receive, Exchange, BlockRun, LateRestart, LastAck, AfterArrival, NextBlock;
    RunFacts(s);
    LastIsNoRestart(s);
    LastBlockOfRange(s);
    var t, ack := AfterArrival(s), LastAck(s);
    AgreedValid(s);
    UnnumberedBlock(s, MidOf(s.used));
    ExchangeIs(s);
    var next := Answered(s.live.value, ack, s.senderSize, MidOf(s.used));
    var u := Exchange(s);
    assert u == Acknowledged(t, Continue231, next);
    UnnumberedExchange(u, Agreed(s));
    TwoExchanges(s);
  }

  /** The exchange of block 2^20 - 1, the last number the option can carry. */
  lemma LastBlockOfRange(s: System)
    requires BlockRun(s) && s.live.Some? && Asked(s) == 0x10_0000 && !Fits(s)
    ensures Offset(s, 0x10_0000) < |s.payload|
    ensures LastAck(s) == Ack(s.live.value.request.mid, Continue231, Some(Block(0xF_FFFF, true, Agreed(s))), 0)
    ensures s.live.value.payload == s.payload && s.live.value.request.block == Some(Block(0xF_FFFF, true, Agreed(s)))
    ensures AfterArrival(s) == s.(slot := AfterArrival(s).slot, begun := AfterArrival(s).begun, replies := AfterArrival(s).replies)
    ensures s.delivered == []
  {
    hide Data, RequestShape, BlockRequest, FirstRequest, ReplyShape, Receive;
    var i := |s.requests| - 1;
    var r := s.requests[i].request;
    assert RequestShape(s, i, r);
    BaseBound(s);
    ShapeIs(s, i, r);
    BlockShape(s, 0xF_FFFF, r.mid);
    OverflowBlocks(s);
    BlockReception(s, 0xF_FFFF, r);
  }

  lemma TwoExchanges(s: System)
    ensures Exchanges(s, 2) == Exchange(Exchange(s))
  {
    hide Exchange;
    assert Exchanges(s, 2) == Exchanges(Exchange(s), 1) == Exchanges(Exchange(Exchange(s)), 0);
  }

  lemma BaseBound(s: System)
    ensures 0 <= Base(s) <= 1
  {
  }

  lemma ShapeIs(s: System, i: nat, r: Request)
    requires Sizes(s) && RequestShape(s, i, r) && i >= Base(s)
    ensures i - Base(s) < 0x10_0000 && Offset(s, i - Base(s)) < |s.payload|
    ensures r == BlockRequest(s.payload, i - Base(s), Agreed(s), r.mid)
  {
  }

  /** A payload that does not fit still has data after 2^20 blocks. */
  lemma OverflowBlocks(s: System)
    requires BlockRun(s) && Asked(s) == 0x10_0000 && !Fits(s)
    ensures Offset(s, 0x10_0000) < |s.payload|
    ensures s.delivered == []
  {
    hide RequestShape, ReplyShape;
    OffsetMonotone(s, Taken(s), 0x10_0000);
  }

  /** Block 2^20 is sent without the option. */
  lemma UnnumberedBlock(s: System, mid: uint16)
    requires Sizes(s) && Offset(s, 0x10_0000) < |s.payload|
    ensures PowerSize(Agreed(s))
    ensures forall t: Transaction, more: bool ::
              t.payload == s.payload && t.request.block == Some(Block(0xF_FFFF, more, Agreed(s))) ==>
                var next := NextBlock(t, Agreed(s), mid);
                next.Some? && next.value.request.block.None? && |next.value.request.slice| <= Agreed(s)
                && next.value.request.mid == mid
  {
    AgreedValid(s);
  }

  /** A request without the option is delivered as it is. */
  lemma UnnumberedExchange(u: System, size: nat)
    requires Sizes(u) && u.requests != [] && u.live.Some? && u.delivered == []
    requires var last := u.requests[|u.requests| - 1];
             && u.live.value.request == last.request && last.request.block.None?
             && |last.request.slice| <= size <= u.receiverSize
             && u.used <= last.serial + 0x1_0000
    ensures var t := Exchange(u);
            t.live.None? && Changed204 in t.callbacks && t.delivered == [u.live.value.request.slice]
  {
  }

  /** A plain transfer is over after one exchange. */
  lemma PlainExchange(s: System)
    requires PlainRun(s) && s.live.Some? && Recent(s) && s.delivered == []
    ensures var t := Exchange(s); t.live.None? && t.delivered == [s.payload] && Changed204 in t.callbacks
  {
    UnnumberedExchange(s, Agreed(s));
  }

  /** On a network that delivers, and whatever earlier transfers have left behind, every transfer ends after the exchanges counted above and is
      reported successful. The payload arrives whole exactly when it is at most 2^20 agreed
      blocks; beyond that the application is given a single block instead. */
  lemma DeliveredIff(payload: bytes, senderSize: nat, receiverSize: nat, serial: nat, stale: Option<Blocks.Slot>)
    requires ValidBlockSize(senderSize) && ValidBlockSize(receiverSize)
    ensures var t := Exchanges(Start(payload, senderSize, receiverSize, serial, stale), ExchangesNeeded(payload, senderSize, receiverSize));
            && t.live.None? && Changed204 in t.callbacks
            && (t.delivered == [payload] <==> |payload| <= 0x10_0000 * Min(senderSize, receiverSize))
  {
    hide Exchange, BlockRun, PlainRun, Offset, NextFits;
    var s := Start(payload, senderSize, receiverSize, serial, stale);
    StartRuns(payload, senderSize, receiverSize, serial, stale);
    if Plain(s) {
      PlainExchange(s);
      assert Exchanges(s, 1) == Exchanges(Exchange(s), 0);
    } else {
      BlockCountBounds(s);
      var c := BlockCount(|payload|, Agreed(s));
      if Fits(s) {
        var n: nat := c - Asked(s);
        BlockExchanges(s, n);
        var t := Exchanges(s, n);
        SameGeometry(s, t, c);
        LastExchange(t, c);
        ExchangesAdd(s, n, 1);
        assert Exchanges(t, 1) == Exchanges(Exchange(t), 0);
      } else {
        var n: nat := 0x10_0000 - Asked(s);
        OffsetMonotone(s, 0xF_FFFF, c - 1);
        BlockExchanges(s, n);
        var t := Exchanges(s, n);
        FitsKept(s, t);
        NumbersRunOut(t);
        ExchangesAdd(s, n, 2);
      }
    }
  }

  lemma LastExchange(s: System, c: nat)
    requires BlockRun(s) && s.live.Some? && Recent(s) && Asked(s) == c && |s.payload| <= Offset(s, c)
    ensures var t := Exchange(s); t.live.None? && t.delivered == [s.payload] && Changed204 in t.callbacks
  {
    hide Exchange, Offset;
    BlockExchange(s);
  }

  lemma StartRuns(payload: bytes, senderSize: nat, receiverSize: nat, serial: nat, stale: Option<Blocks.Slot>)
    requires ValidBlockSize(senderSize) && ValidBlockSize(receiverSize)
    ensures var s := Start(payload, senderSize, receiverSize, serial, stale);
            && Sizes(s) && |s.requests| == 1 && s.live.Some? && Recent(s) && s.delivered == []
            && (if Plain(s) then PlainRun(s) else BlockRun(s))
  {
    StartInv(payload, senderSize, receiverSize, serial, stale);
  }
}
