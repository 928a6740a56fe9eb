/** A Block2 transfer as a protocol: a stateless responder with an unchanged payload and the
    requester of module Block2, with stray responses in between. */
module Block2Protocol {
  import opened Bytes
  import opened CoapOptions
  import opened Blocks
  import opened Block1
  import opened Block2

  /** The payload, both block sizes and the requester. */
  datatype System = System(payload: bytes, clientSize: nat, serverSize: nat, q: Requester)

  datatype Action =
    | Reply               // the responder's answer to the live request arrives
    | Stray(r: Response)  // a response with another message id arrives
    | Traffic             // another exchange uses up a message id
    | Expire              // the requester gives up

  function Start(payload: bytes, clientSize: nat, serverSize: nat, mid: uint16): System {
    System(payload, clientSize, serverSize, Requester(Some(Get(mid, None)), (mid + 1) % 0x1_0000, [], []))
  }

  predicate Sizes(s: System) {
    ValidBlockSize(s.clientSize) && ValidBlockSize(s.serverSize)
  }

  /** The answer to the live request makes the requester ask for another block. */
  predicate GoesOn(s: System)
    requires s.q.live.Some?
  {
    if s.q.live.value.block.None? then |s.payload| > Agreed(s)
    else Offset(s, s.q.live.value.block.value.num + 1) < |s.payload|
  }

  /** A stray transfer waits under the next message id, in front of the one that is about to move there. */
  predicate InTheWay(q: Requester)
    requires q.live.Some?
  {
    Shadowed(q.entries, q.live.value.mid, q.nextMid)
  }

  /** The live message id is not handed out a second time, and no stray transfer is in the way of the next one. */
  predicate Enabled(s: System, a: Action) {
    match a
    case Reply => s.q.live.Some? && (GoesOn(s) ==> s.q.live.value.mid != s.q.nextMid && !InTheWay(s.q))
    case Stray(r) =>
      && (s.q.live.Some? ==> r.mid != s.q.live.value.mid)
      && (r.block.Some? ==> r.block.value.num < 0xFFFF_FFFF)
    case Traffic => true
    case Expire => true
  }

  /** Requests the sender can make: packed block options. */
  predicate Askable(s: System) {
    s.q.live.Some? && s.q.live.value.block.Some?
    ==> SettableBlock(s.q.live.value.block.value.num, s.q.live.value.block.value.size)
  }

  function Step(s: System, a: Action): System
    requires Sizes(s) && Enabled(s, a) && Askable(s)
  {
    match a
    case Reply => Answered(s)
    case Stray(r) => s.(q := OnResponse(s.q, r, s.clientSize))
    case Traffic => s.(q := s.q.(nextMid := (s.q.nextMid + 1) % 0x1_0000))
    case Expire => s.(q := s.q.(live := None))
  }

  // ---- the shape of a run --------------------------------------------------------------

  function Agreed(s: System): nat {
    Min(s.clientSize, s.serverSize)
  }

  function Offset(s: System, k: nat): nat {
    BlockStart(k, Agreed(s))
  }

  function Data(s: System, k: nat): bytes {
    s.payload[..Min(Offset(s, k), |s.payload|)]
  }

  predicate Fits(s: System) {
    |s.payload| <= 0x10_0000 * Agreed(s)
  }

  /** The payload fits the responder's blocks but not the requester's: it first comes whole. */
  predicate ComesWhole(s: System) {
    s.clientSize < |s.payload| <= s.serverSize
  }

  /** A complete payload shown to the callback. */
  function Completions(reports: seq<Report>): seq<bytes> {
    if reports == [] then []
    else
      var r := reports[|reports| - 1];
      Completions(reports[..|reports| - 1]) + if r.more then [] else [r.payload]
  }

  /** When block `k` is asked for, blocks 0 to k-1 are waiting under the live message id. */
  ghost predicate Waiting(s: System)
    requires Sizes(s)
  {
    s.q.live.Some? && s.q.live.value.block.Some? ==>
      var b := s.q.live.value.block.value;
      && !b.more && b.size == Agreed(s) && b.num <= 0xF_FFFF && Offset(s, b.num) < |s.payload| && |s.payload| > Agreed(s)
      && (b.num > 0 ==> View(s.q.entries, s.q.live.value.mid) == Some(Slot(Data(s, b.num), b.num - 1)))
  }

  ghost predicate Inv(s: System) {
    && Sizes(s)
    && Waiting(s)
    && (forall i :: 0 <= i < |Completions(s.q.reports)| ==> Completions(s.q.reports)[i] == s.payload)
    && (Fits(s) ==> Counted(s))
  }

  /** How often a whole payload has been shown so far. */
  ghost predicate Counted(s: System) {
    var n := |Completions(s.q.reports)|;
    if s.q.live.None? then n <= (if ComesWhole(s) then 2 else 1)
    else if s.q.live.value.block.None? then n == 0
    else n == if ComesWhole(s) then 1 else 0
  }

  lemma CompletionsAppend(reports: seq<Report>, r: Report)
    ensures Completions(reports + [r]) == Completions(reports) + if r.more then [] else [r.payload]
  {
    var all := reports + [r];
    assert all[..|all| - 1] == reports;
  }

  // ---- block arithmetic ----------------------------------------------------------------

  lemma AgreedValid(s: System)
    requires Sizes(s)
    ensures ValidBlockSize(Agreed(s)) && PowerSize(Agreed(s))
  {
  }

  lemma OffsetStep(s: System, k: nat)
    ensures Offset(s, k + 1) == Offset(s, k) + Agreed(s) && Offset(s, 0) == 0
  {
  }

  lemma {:induction false} OffsetMonotone(s: System, j: nat, k: nat)
    requires j <= k
    ensures Offset(s, j) <= Offset(s, k)
    decreases k - j
  {
    if j < k {
      OffsetMonotone(s, j, k - 1);
      OffsetStep(s, k - 1);
    }
  }

  /** The responder's slice of block `k`. */
  lemma SliceOf(s: System, k: nat, mid: uint16)
    requires Sizes(s) && k <= 0xF_FFFF && Offset(s, k) < |s.payload|
    ensures SettableBlock(k, Agreed(s))
    ensures var r := Respond(s.payload, Get(mid, Some(Block(k, false, Agreed(s)))), s.serverSize);
            && r.mid == mid
            && r.block == Some(Block(k, Offset(s, k + 1) < |s.payload|, Agreed(s)))
            && |r.payload| <= Agreed(s)
            && Data(s, k) + r.payload == Data(s, k + 1)
            && |Data(s, k)| == Offset(s, k)
    ensures Offset(s, k + 1) >= |s.payload| ==> Data(s, k + 1) == s.payload
  {
    AgreedValid(s);
    OffsetStep(s, k);
    var n, start := Agreed(s), Offset(s, k);
    assert s.payload[..start] + s.payload[start..start + Min(n, |s.payload| - start)]
        == s.payload[..start + Min(n, |s.payload| - start)];
  }

  /** What the requester's slot becomes when block `k` comes after blocks 0 to k-1. */
  lemma SlotAfter(s: System, k: nat, mid: uint16)
    requires Sizes(s) && k <= 0xF_FFFF && Offset(s, k) < |s.payload| && |s.payload| > Agreed(s)
    requires k > 0 ==> View(s.q.entries, mid) == Some(Slot(Data(s, k), k - 1))
    ensures SettableBlock(k, Agreed(s))
    ensures var r := Respond(s.payload, Get(mid, Some(Block(k, false, Agreed(s)))), s.serverSize);
            var b := r.block.value;
            HandleSlot(View(s.q.entries, mid), Arrival(r.payload, b.size, b.num, b.more))
            == Blocks.Step(Some(Slot(Data(s, k + 1), k)), if b.more then Continue else Complete(s.payload))
  {
    hide Data, Offset, Respond;
    SliceOf(s, k, mid);
    AgreedValid(s);
    var r := Respond(s.payload, Get(mid, Some(Block(k, false, Agreed(s)))), s.serverSize);
    var b := r.block.value;
    ExpectedOffsetExact(Arrival(r.payload, b.size, b.num, b.more));
    assert b.num * b.size == Offset(s, k) by { OffsetIs(s, k); }
    if k == 0 {
      assert Data(s, 0) + r.payload == r.payload by { FirstBlock(s); }
    }
  }

  lemma OffsetIs(s: System, k: nat)
    ensures Offset(s, k) == k * Agreed(s)
  {
  }

  lemma FirstBlock(s: System)
    ensures Data(s, 0) == []
  {
    OffsetStep(s, 0);
  }

  // ---- the live answer -----------------------------------------------------------------

  /** The system after the answer to the live request. */
  function Answered(s: System): System
    requires Sizes(s) && Askable(s) && s.q.live.Some?
  {
    s.(q := OnResponse(s.q, Respond(s.payload, s.q.live.value, s.serverSize), s.clientSize))
  }

  /** The requester after the answer to its live request: waiting for `next` under the next message id, or
      finished. */
  ghost predicate MovedOn(s: System, t: System, next: Option<Get>, report: Report) {
    && t == s.(q := t.q)
    && t.q.live == next
    && t.q.nextMid == (if next.Some? then (s.q.nextMid + 1) % 0x1_0000 else s.q.nextMid)
    && t.q.reports == s.q.reports + [report]
    && (next.Some? ==> next.value.mid == s.q.nextMid)
  }

  /** What is found under the next message id once the blocks so far have been moved there. */
  ghost predicate Stored(s: System, t: System, slot: Slot)
    requires s.q.live.Some?
  {
    View(t.q.entries, s.q.nextMid) == if InTheWay(s.q) then View(s.q.entries, s.q.nextMid) else Some(slot)
  }

  /** Answer to the first request, or to one sent without the option. */
  lemma FirstReply(s: System)
    requires Inv(s) && s.q.live.Some? && s.q.live.value.block.None? && (GoesOn(s) ==> s.q.live.value.mid != s.q.nextMid)
    ensures var t := Answered(s);
            if |s.payload| <= Agreed(s) then MovedOn(s, t, None, Report(s.payload, false))
            else if s.serverSize > s.clientSize then
              MovedOn(s, t, Some(Get(s.q.nextMid, Some(Block(0, false, s.clientSize)))),
                      if ComesWhole(s) then Report(s.payload, false) else Report(s.payload[..s.serverSize], true))
            else
              && MovedOn(s, t, Some(Get(s.q.nextMid, Some(Block(1, false, s.serverSize)))), Report(Data(s, 1), true))
              && Stored(s, t, Slot(Data(s, 1), 0))
  {
    hide Data, SettableBlock, Counted, Completions, Shadowed, Rekeyed, Updated;
    var q, mid := s.q, s.q.live.value.mid;
    SettableValid(s);
    if |s.payload| > Agreed(s) && s.serverSize <= s.clientSize {
      OffsetStep(s, 0);
      assert Data(s, 1) == s.payload[..s.serverSize] by { FirstData(s); }
      MovesStored(q, mid, Slot(Data(s, 1), 0));
    }
  }

  /** Storing a block and moving the transfer to the next message id. */
  lemma MovesStored(q: Requester, mid: uint16, slot: Slot)
    requires mid != q.nextMid
    ensures View(Rekeyed(Updated(q.entries, mid, Some(slot)), mid, q.nextMid), q.nextMid) ==
      if Shadowed(q.entries, mid, q.nextMid) then View(q.entries, q.nextMid) else Some(slot)
  {
    UpdatedViews(q.entries, mid, Some(slot), q.nextMid);
    ShadowedUpdate(q.entries, mid, slot, q.nextMid);
    MovedView(Updated(q.entries, mid, Some(slot)), mid, q.nextMid);
  }

  lemma SettableValid(s: System)
    requires Sizes(s)
    ensures SettableBlock(0, s.clientSize) && SettableBlock(1, s.serverSize) && SettableBlock(0, Agreed(s))
  {
  }

  lemma FirstData(s: System)
    requires Agreed(s) < |s.payload|
    ensures Data(s, 1) == s.payload[..Agreed(s)]
  {
    OffsetStep(s, 0);
  }

  /** Answer to the request for block `k`. */
  lemma BlockReply(s: System)
    requires Inv(s) && s.q.live.Some? && s.q.live.value.block.Some? && (GoesOn(s) ==> s.q.live.value.mid != s.q.nextMid)
    ensures Askable(s)
    ensures var k := s.q.live.value.block.value.num;
            var t := Answered(s);
            if Offset(s, k + 1) < |s.payload| then
              && Stored(s, t, Slot(Data(s, k + 1), k))
              && exists piece :: MovedOn(s, t, Some(NextGet(s.q.nextMid, k + 1, Agreed(s))), Report(piece, true))
            else MovedOn(s, t, None, Report(s.payload, false))
  {
    hide Data, Offset, Respond, SettableBlock, HandleSlot, Shadowed, Rekeyed, Updated, Removed;
    var q, mid, k := s.q, s.q.live.value.mid, s.q.live.value.block.value.num;
    SlotAfter(s, k, mid);
    SliceOf(s, k, mid);
    AgreedValid(s);
    assert q.live.value == Get(mid, Some(Block(k, false, Agreed(s))));
    var r := Respond(s.payload, q.live.value, s.serverSize);
    if Offset(s, k + 1) < |s.payload| {
      MovesStored(q, mid, Slot(Data(s, k + 1), k));
      assert MovedOn(s, Answered(s), Some(NextGet(q.nextMid, k + 1, Agreed(s))), Report(r.payload, true));
    }
  }

  /** An answer after which a block behind the first is asked for keeps what is needed of the blocks before
      it exactly if no stray transfer is in the way, or one with the very same data. */
  lemma WaitingSurvivesIff(s: System)
    requires Inv(s) && s.q.live.Some? && s.q.live.value.mid != s.q.nextMid
    ensures Askable(s) && Sizes(Answered(s))
    ensures
      var t := Answered(s);
      t.q.live.Some? && t.q.live.value.block.Some? && t.q.live.value.block.value.num > 0 ==>
        var k := t.q.live.value.block.value.num;
        Waiting(t) <==> !InTheWay(s.q) || View(s.q.entries, s.q.nextMid) == Some(Slot(Data(s, k), k - 1))
  {
    hide Data, Offset, Respond, OnResponse, SettableBlock, Counted, Completions, Shadowed;
    AskableIs(s);
    var t := Answered(s);
    AgreedValid(s);
    SameGeometry(s, t);
    if s.q.live.value.block.None? {
      FirstReply(s);
      FirstNext(s);
    } else {
      BlockReply(s);
      NextWaits(s, s.q.live.value.block.value.num + 1);
    }
  }

  lemma ReplyKeepsInv(s: System)
    requires Inv(s) && Enabled(s, Reply)
    ensures Askable(s) && Inv(Step(s, Reply))
  {
    hide Data, Offset, Respond, OnResponse, SettableBlock, Shadowed;
    AskableIs(s);
    if s.q.live.value.block.None? { FirstReplyKeepsInv(s); } else { BlockReplyKeepsInv(s); }
  }

  lemma FirstReplyKeepsInv(s: System)
    requires Inv(s) && Enabled(s, Reply) && Askable(s) && s.q.live.value.block.None?
    ensures Inv(Step(s, Reply))
  {
    hide Data, Offset, Respond, OnResponse, SettableBlock;
    var t := Step(s, Reply);
    FirstReply(s);
    FirstNext(s);
    var report := t.q.reports[|s.q.reports|];
    assert t.q.reports == s.q.reports + [report];
    CompletionsAppend(s.q.reports, report);
    SameGeometry(s, t);
  }

  lemma BlockReplyKeepsInv(s: System)
    requires Inv(s) && Enabled(s, Reply) && Askable(s) && s.q.live.value.block.Some?
    ensures Inv(Step(s, Reply))
  {
    hide Data, Offset, Respond, OnResponse, SettableBlock;
    var t := Step(s, Reply);
    BlockReply(s);
    NextWaits(s, s.q.live.value.block.value.num + 1);
    var report := t.q.reports[|s.q.reports|];
    assert t.q.reports == s.q.reports + [report];
    CompletionsAppend(s.q.reports, report);
    SameGeometry(s, t);
  }

  lemma AskableIs(s: System)
    requires Inv(s)
    ensures Askable(s)
  {
    AgreedValid(s);
  }

  lemma FirstNext(s: System)
    ensures |s.payload| > Agreed(s) ==> Offset(s, 0) < |s.payload| && Offset(s, 1) < |s.payload|
  {
    OffsetStep(s, 0);
  }

  lemma NextWaits(s: System, k: nat)
    requires Sizes(s) && k <= 0x10_0000
    ensures SettableBlock(k, Agreed(s)) <==> k <= 0xF_FFFF
    ensures Fits(s) && Offset(s, k) < |s.payload| ==> k <= 0xF_FFFF
  {
    AgreedValid(s);
  }

  lemma SameGeometry(s: System, t: System)
    requires t == s.(q := t.q)
    ensures Agreed(t) == Agreed(s) && (Fits(t) <==> Fits(s)) && (ComesWhole(t) <==> ComesWhole(s))
    ensures forall k: nat :: Offset(t, k) == Offset(s, k)
    ensures forall k: nat :: Data(t, k) == Data(s, k)
  {
  }

  /** A first block under the message id that is used next but one, while block 1 of three is asked for:
      the transfer is moved there behind it, and block 2 completes the stray block in its place. */
  lemma StrayCompletes(payload: bytes, stray: bytes)
    requires |payload| == 48 && |stray| == 16
    ensures
      var s := Start(payload, 16, 16, 0);
      && Enabled(s, Reply) && Askable(s)
      && var asked, r := Step(s, Reply), Response(2, Content205, Some(Block(0, true, 16)), stray);
        && Enabled(asked, Reply) && Enabled(asked, Stray(r)) && Askable(asked)
        && var met := Step(asked, Stray(r));
          && Askable(met) && met.q.live.Some? && !Enabled(met, Reply)
          && var moved := Answered(met);
            && Askable(moved) && moved.q.live.Some?
            && Answered(moved).q.reports == moved.q.reports + [Report(stray, false)]
  {
    var s := Start(payload, 16, 16, 0);
    var asked := Answered(s);
    var live1, block0 := Get(1, Some(Block(1, false, 16))), Slot(payload[..16], 0);
    assert asked.q == Requester(Some(live1), 2, [Entry(1, block0)], [Report(payload[..16], true)]);
    var r := Response(2, Content205, Some(Block(0, true, 16)), stray);
    var met := s.(q := asked.q.(entries := [Entry(2, Slot(stray, 0)), Entry(1, block0)]));
    assert Step(asked, Stray(r)) == met;
    assert met.q.entries[1..][0] == Entry(1, block0);
    MetAnswers(met, stray);
  }

  lemma MetAnswers(met: System, stray: bytes)
    requires |met.payload| == 48 && met.clientSize == 16 && met.serverSize == 16 && |stray| == 16
    requires met.q.live == Some(Get(1, Some(Block(1, false, 16)))) && met.q.nextMid == 2
    requires met.q.entries == [Entry(2, Slot(stray, 0)), Entry(1, Slot(met.payload[..16], 0))]
    ensures Askable(met) && InTheWay(met.q) && GoesOn(met)
    ensures
      var moved := Answered(met);
      && Askable(moved) && moved.q.live.Some?
      && Answered(moved).q.reports == moved.q.reports + [Report(stray, false)]
  {
    var q, payload := met.q, met.payload;
    assert q.entries[1..][0] == Entry(1, Slot(payload[..16], 0));
    assert Find(q.entries, 1) == 1 && Find(q.entries, 2) == 0;
    var piece := payload[16..32];
    var a := Arrival(piece, 16, 1, true);
    assert ExpectedOffset(a) == 16;
    var both := payload[..16] + piece;
    var stored := [Entry(2, Slot(stray, 0)), Entry(1, Slot(both, 1))];
    assert Respond(payload, q.live.value, 16) == Response(1, Content205, Some(Block(1, true, 16)), piece);
    assert HandleSlot(View(q.entries, 1), a) == Blocks.Step(Some(Slot(both, 1)), Continue);
    assert Updated(q.entries, 1, Some(Slot(both, 1))) == stored;
    assert stored[1..][0] == Entry(1, Slot(both, 1)) && Find(stored, 1) == 1;
    var behind := [Entry(2, Slot(stray, 0)), Entry(2, Slot(both, 1))];
    assert Rekeyed(stored, 1, 2) == behind;
    var moved := Answered(met);
    assert moved.q == Requester(Some(Get(2, Some(Block(2, false, 16)))), 3, behind, q.reports + [Report(piece, true)]);
    assert Respond(payload, moved.q.live.value, 16) == Response(2, Content205, Some(Block(2, false, 16)), payload[32..48]);
    assert View(behind, 2) == Some(Slot(stray, 0));
    assert HandleSlot(View(behind, 2), Arrival(payload[32..48], 16, 2, false)).outcome == Complete(stray);
  }

  // ---- every run -----------------------------------------------------------------------

  /** A response with a foreign message id reports nothing and leaves the live transfer alone. */
  lemma StrayFrame(s: System, r: Response)
    requires Sizes(s) && Enabled(s, Stray(r))
    ensures var t := OnResponse(s.q, r, s.clientSize);
            && t.live == s.q.live && t.reports == s.q.reports
            && (t.live.Some? ==> View(t.entries, t.live.value.mid) == View(s.q.entries, t.live.value.mid))
  {
    hide HandleSlot, Updated, Removed, View, SettableBlock;
    var q := s.q;
    if |r.payload| <= s.clientSize && r.block.Some? {
      var b := r.block.value;
      var a := Arrival(r.payload, b.size, b.num, b.more);
      var step := HandleSlot(View(q.entries, r.mid), a);
      SlotKept(View(q.entries, r.mid), a);
      var other := if q.live.Some? then q.live.value.mid else r.mid;
      UpdatedViews(q.entries, r.mid, step.slot, other);
      RemovedViews(Updated(q.entries, r.mid, step.slot), r.mid, other);
    }
  }

  lemma SlotKept(slot: Option<Slot>, a: Arrival)
    ensures HandleSlot(slot, a).slot.None? ==> slot.None?
  {
  }

  lemma StrayKeepsInv(s: System, r: Response)
    requires Inv(s) && Enabled(s, Stray(r))
    ensures Askable(s) && Inv(Step(s, Stray(r)))
  {
    hide Data, Offset, OnResponse;
    AskableIs(s);
    StrayFrame(s, r);
    SameGeometry(s, Step(s, Stray(r)));
  }

  lemma StepKeepsInv(s: System, a: Action)
    requires Inv(s) && Enabled(s, a)
    ensures Askable(s) && Inv(Step(s, a))
    ensures Step(s, a) == s.(q := Step(s, a).q)
  {
    hide OnResponse, Respond;
    AskableIs(s);
    match a
    case Reply => ReplyKeepsInv(s);
    case Stray(r) => StrayKeepsInv(s, r);
    case Traffic => SameGeometry(s, Step(s, a));
    case Expire => SameGeometry(s, Step(s, a));
  }

  ghost predicate Reaches(s: System, run: seq<Action>, t: System)
    decreases |run|
  {
    if run == [] then s == t
    else Sizes(s) && Enabled(s, run[0]) && Askable(s) && Reaches(Step(s, run[0]), run[1..], t)
  }

  lemma {:induction false} RunKeepsInv(s: System, run: seq<Action>, t: System)
    requires Inv(s) && Reaches(s, run, t)
    ensures Inv(t) && t == s.(q := t.q)
    decreases |run|
  {
    hide Inv, OnResponse, Respond;
    if run != [] {
      StepKeepsInv(s, run[0]);
      RunKeepsInv(Step(s, run[0]), run[1..], t);
    }
  }

  lemma StartInv(payload: bytes, clientSize: nat, serverSize: nat, mid: uint16)
    requires ValidBlockSize(clientSize) && ValidBlockSize(serverSize)
    ensures Inv(Start(payload, clientSize, serverSize, mid))
  {
  }

  /** End-to-end safety. In every run - lost answers, stray and repeated responses, foreign
      traffic - each payload shown to the callback as complete is the responder's payload, for
      every payload and every pair of block sizes. While the numbers last it is shown at most
      once, or twice when it first comes whole but too large. */
  lemma CompletesOnlyWithThePayload(payload: bytes, clientSize: nat, serverSize: nat, mid: uint16, run: seq<Action>, t: System)
    requires ValidBlockSize(clientSize) && ValidBlockSize(serverSize)
    requires Reaches(Start(payload, clientSize, serverSize, mid), run, t)
    ensures forall i :: 0 <= i < |t.q.reports| && !t.q.reports[i].more ==> t.q.reports[i].payload == payload
    ensures |payload| <= 0x10_0000 * Min(clientSize, serverSize) ==>
              |Completions(t.q.reports)| <= if clientSize < |payload| <= serverSize then 2 else 1
  {
    StartInv(payload, clientSize, serverSize, mid);
    RunKeepsInv(Start(payload, clientSize, serverSize, mid), run, t);
    CompleteReports(t.q.reports, payload);
  }

  lemma {:induction false} CompleteReports(reports: seq<Report>, payload: bytes)
    requires forall i :: 0 <= i < |Completions(reports)| ==> Completions(reports)[i] == payload
    ensures forall i :: 0 <= i < |reports| && !reports[i].more ==> reports[i].payload == payload
    decreases |reports|
  {
    if reports != [] {
      var front, last := reports[..|reports| - 1], reports[|reports| - 1];
      var all := Completions(reports);
      forall i | 0 <= i < |Completions(front)| ensures Completions(front)[i] == payload {
        assert all[i] == Completions(front)[i];
      }
      CompleteReports(front, payload);
      if !last.more {
        assert all[|all| - 1] == last.payload;
      }
    }
  }

  // ---- a run that is answered ----------------------------------------------------------

  /** Only the live transfer is stored, and message ids come one after the other. */
  ghost predicate Alone(s: System) {
    s.q.live.Some? ==>
      && Distinct(s.q.entries)
      && s.q.nextMid == (s.q.live.value.mid + 1) % 0x1_0000
      && forall k: uint16 :: k != s.q.live.value.mid ==> View(s.q.entries, k).None?
  }

  lemma AloneIsFresh(s: System)
    requires Inv(s) && Alone(s) && s.q.live.Some?
    ensures Enabled(s, Reply) && Askable(s) && Sizes(s)
  {
    AskableIs(s);
    assert View(s.q.entries, s.q.nextMid).None?;
  }

  /** `n` answers in a row; a finished transfer stays as it is. */
  function Replies(s: System, n: nat): System
    decreases n
  {
    if n == 0 || !Sizes(s) || !Enabled(s, Reply) || !Askable(s) then s else Replies(Step(s, Reply), n - 1)
  }

  /** After an answer no other transfer is stored either. */
  lemma StaysAlone(s: System)
    requires Inv(s) && Alone(s) && s.q.live.Some?
    ensures Askable(s) && Enabled(s, Reply)
    ensures Alone(Step(s, Reply))
  {
    hide Data, Offset, SettableBlock, Counted, Completions;
    AloneIsFresh(s);
    var q, mid, t := s.q, s.q.live.value.mid, Step(s, Reply);
    var r := Respond(s.payload, q.live.value, s.serverSize);
    if t.q.live.Some? {
      LiveMoves(s);
      StaysDistinct(s);
      forall k: uint16 | k != t.q.live.value.mid ensures View(t.q.entries, k).None? { OthersStayEmpty(s, k); }
    }
  }

  lemma StaysDistinct(s: System)
    requires Inv(s) && Alone(s) && s.q.live.Some? && Enabled(s, Reply) && Askable(s)
    ensures Distinct(Step(s, Reply).q.entries)
  {
    hide Data, Offset, SettableBlock, Counted, Completions, Distinct, View, Updated, Rekeyed, Removed;
    var q, mid := s.q, s.q.live.value.mid;
    var r := Respond(s.payload, q.live.value, s.serverSize);
    assert View(q.entries, q.nextMid).None? && Distinct(q.entries);
    if |r.payload| > s.clientSize {
      RekeyedViews(q.entries, mid, q.nextMid, mid);
    } else if r.block.Some? {
      var b := r.block.value;
      var a := Arrival(r.payload, b.size, b.num, b.more);
      var slot := HandleSlot(View(q.entries, mid), a).slot;
      SlotKept(View(q.entries, mid), a);
      UpdatedViews(q.entries, mid, slot, q.nextMid);
      RekeyedViews(Updated(q.entries, mid, slot), mid, q.nextMid, mid);
      RemovedViews(Updated(q.entries, mid, slot), mid, mid);
    }
  }

  lemma OthersStayEmpty(s: System, k: uint16)
    requires Inv(s) && Alone(s) && s.q.live.Some? && Enabled(s, Reply) && Askable(s)
    requires Step(s, Reply).q.live.Some? && k != Step(s, Reply).q.live.value.mid
    ensures View(Step(s, Reply).q.entries, k).None?
  {
    hide Data, Offset, SettableBlock, Counted, Completions;
    AloneIsFresh(s);
    LiveMoves(s);
    var q, mid := s.q, s.q.live.value.mid;
    var r := Respond(s.payload, q.live.value, s.serverSize);
    if |r.payload| > s.clientSize {
      RekeyedViews(q.entries, mid, q.nextMid, k);
    } else if r.block.Some? {
      var b := r.block.value;
      var slot := HandleSlot(View(q.entries, mid), Arrival(r.payload, b.size, b.num, b.more)).slot;
      UpdatedViews(q.entries, mid, slot, k);
      UpdatedViews(q.entries, mid, slot, q.nextMid);
      RekeyedViews(Updated(q.entries, mid, slot), mid, q.nextMid, k);
    }
  }

  /** An answer never leaves the request it answers live. */
  lemma LiveMoves(s: System)
    requires Inv(s) && Enabled(s, Reply) && Askable(s)
    ensures var t := Step(s, Reply);
            t.q.live.Some? ==> t.q.live.value.mid == s.q.nextMid && t.q.nextMid == (s.q.nextMid + 1) % 0x1_0000
  {
    hide Data, Offset, OnResponse, Respond, SettableBlock;
    if s.q.live.value.block.None? {
      FirstReply(s);
    } else {
      BlockReply(s);
    }
  }

  /** The live request asks for block `k`. */
  ghost predicate AsksFor(s: System, k: nat) {
    && s.q.live.Some? && s.q.live.value.block.Some?
    && s.q.live.value.block.value.num == k
  }

  /** One answered block. */
  lemma OneBlock(s: System, k: nat)
    requires Inv(s) && Alone(s) && AsksFor(s, k)
    ensures Enabled(s, Reply) && Askable(s)
    ensures var t := Step(s, Reply);
            && Inv(t) && Alone(t) && t == s.(q := t.q)
            && (if Offset(s, k + 1) >= |s.payload| then
                  t.q.live.None? && Completions(t.q.reports) == Completions(s.q.reports) + [s.payload]
                else if k + 1 <= 0xF_FFFF then AsksFor(t, k + 1)
                else t.q.live.Some? && t.q.live.value.block.None?)
  {
    hide Data, Offset, OnResponse, Respond, SettableBlock;
    AloneIsFresh(s);
    StepKeepsInv(s, Reply);
    StaysAlone(s);
    BlockReply(s);
    NextWaits(s, k + 1);
    var t := Step(s, Reply);
    SameGeometry(s, t);
    CompletionsAppend(s.q.reports, Report(s.payload, false));
  }

  /** From block `k` to the end: `c - k` answers. */
  lemma BlocksToTheEnd(s: System, k: nat, c: nat)
    requires Inv(s) && Alone(s) && AsksFor(s, k) && k < c <= 0x10_0000
    requires Offset(s, c - 1) < |s.payload| <= Offset(s, c)
    ensures var t := Replies(s, c - k);
            t.q.live.None? && Completions(t.q.reports) == Completions(s.q.reports) + [s.payload]
    decreases c - k
  {
    hide Data, Offset, OnResponse, Respond, Inv, Alone;
    AloneIsFresh(s);
    OneBlock(s, k);
    var t := Step(s, Reply);
    SameGeometry(s, t);
    if k + 1 < c {
      OffsetMonotone(s, k + 1, c - 1);
      OneBlockReports(s, k);
      BlocksToTheEnd(t, k + 1, c);
    } else {
      assert Replies(s, 1) == Replies(t, 0);
    }
  }

  /** A block that is not the last completes nothing. */
  lemma OneBlockReports(s: System, k: nat)
    requires Inv(s) && Alone(s) && AsksFor(s, k) && Offset(s, k + 1) < |s.payload|
    ensures Sizes(s) && Enabled(s, Reply) && Askable(s)
    ensures Completions(Step(s, Reply).q.reports) == Completions(s.q.reports)
  {
    hide Data, Offset, OnResponse, Respond, SettableBlock;
    AloneIsFresh(s);
    BlockReply(s);
    var t := Step(s, Reply);
    var report := t.q.reports[|s.q.reports|];
    assert t.q.reports == s.q.reports + [report];
    CompletionsAppend(s.q.reports, report);
  }

  /** The first answer. */
  lemma FirstAnswer(s: System)
    requires Inv(s) && Alone(s) && s.q.live.Some? && s.q.live.value.block.None?
    ensures Enabled(s, Reply) && Askable(s)
    ensures var t := Step(s, Reply);
            && Inv(t) && Alone(t) && t == s.(q := t.q)
            && (if |s.payload| <= Agreed(s) then
                  t.q.live.None? && Completions(t.q.reports) == Completions(s.q.reports) + [s.payload]
                else
                  && AsksFor(t, if s.serverSize > s.clientSize then 0 else 1)
                  && Completions(t.q.reports) == Completions(s.q.reports) + if ComesWhole(s) then [s.payload] else [])
  {
    hide Data, Offset, OnResponse, Respond, SettableBlock;
    AloneIsFresh(s);
    StepKeepsInv(s, Reply);
    StaysAlone(s);
    FirstReply(s);
    var t := Step(s, Reply);
    var report := t.q.reports[|s.q.reports|];
    assert t.q.reports == s.q.reports + [report];
    CompletionsAppend(s.q.reports, report);
  }

  /** A transfer whose numbers run out asks for block 0 again and never ends. */
  lemma {:induction false} NeverEnds(s: System, n: nat)
    requires Inv(s) && Alone(s) && s.q.live.Some? && !Fits(s)
    ensures Replies(s, n).q.live.Some?
    decreases n
  {
    hide Data, Offset, OnResponse, Respond, Inv, Alone;
    if n > 0 {
      AloneIsFresh(s);
      var t := Step(s, Reply);
      if s.q.live.value.block.None? {
        FirstAnswer(s);
        LargePayload(s, 0);
      } else {
        var k := s.q.live.value.block.value.num;
        LiveBlock(s);
        OneBlock(s, k);
        LargePayload(s, k + 1);
      }
      SameGeometry(s, t);
      NeverEnds(t, n - 1);
    }
  }

  lemma LiveBlock(s: System)
    requires Inv(s) && s.q.live.Some? && s.q.live.value.block.Some?
    ensures s.q.live.value.block.value.num <= 0xF_FFFF
  {
  }

  lemma LargePayload(s: System, k: nat)
    requires Sizes(s) && !Fits(s) && k <= 0x10_0000
    ensures Offset(s, k) < |s.payload| && |s.payload| > Agreed(s)
  {
    OffsetMonotone(s, k, 0x10_0000);
  }

  function BlockCount(length: nat, size: nat): nat
    requires size > 0
  {
    (length + size - 1) / size
  }

  lemma BlockCountBounds(s: System)
    requires Sizes(s) && s.payload != []
    ensures var c := BlockCount(|s.payload|, Agreed(s));
            c > 0 && Offset(s, c - 1) < |s.payload| <= Offset(s, c) && (Fits(s) <==> c <= 0x10_0000)
    ensures |s.payload| > Agreed(s) ==> BlockCount(|s.payload|, Agreed(s)) > 1
  {
    AgreedValid(s);
    var c, n := BlockCount(|s.payload|, Agreed(s)), Agreed(s);
    assert c * n >= |s.payload| && (c - 1) * n < |s.payload|;
    if c <= 0x10_0000 {
      OffsetMonotone(s, c, 0x10_0000);
    } else {
      OffsetMonotone(s, 0x10_0000, c - 1);
    }
  }

  /** Answers a transfer takes while the numbers last. */
  function RepliesNeeded(length: nat, clientSize: nat, serverSize: nat): nat
    requires ValidBlockSize(clientSize) && ValidBlockSize(serverSize)
  {
    var size := Min(clientSize, serverSize);
    if length <= size then 1
    else BlockCount(length, size) + if serverSize > clientSize then 1 else 0
  }

  /** When every request is answered, a transfer of at most 2^20 agreed blocks ends with exactly
      the responder's payload, shown a second time only when it first came whole. */
  lemma DeliversThePayload(payload: bytes, clientSize: nat, serverSize: nat, mid: uint16)
    requires ValidBlockSize(clientSize) && ValidBlockSize(serverSize)
    requires |payload| <= 0x10_0000 * Min(clientSize, serverSize)
    ensures var t := Replies(Start(payload, clientSize, serverSize, mid), RepliesNeeded(|payload|, clientSize, serverSize));
            t.q.live.None? && Completions(t.q.reports) == if clientSize < |payload| <= serverSize then [payload, payload] else [payload]
  {
    hide Data, Offset, OnResponse, Respond, Inv, Alone;
    var s := Start(payload, clientSize, serverSize, mid);
    StartAlone(payload, clientSize, serverSize, mid);
    FirstAnswer(s);
    var t := Step(s, Reply);
    SameGeometry(s, t);
    if |payload| <= Agreed(s) {
      assert Replies(s, 1) == Replies(t, 0);
    } else {
      BlockCountBounds(s);
      var c := BlockCount(|payload|, Agreed(s));
      BlocksToTheEnd(t, if serverSize > clientSize then 0 else 1, c);
    }
  }

  lemma StartAlone(payload: bytes, clientSize: nat, serverSize: nat, mid: uint16)
    requires ValidBlockSize(clientSize) && ValidBlockSize(serverSize)
    ensures var s := Start(payload, clientSize, serverSize, mid);
            Inv(s) && Alone(s) && s.q.live.Some? && s.q.live.value.block.None? && Completions(s.q.reports) == []
  {
    StartInv(payload, clientSize, serverSize, mid);
  }

  /** An answered transfer ends exactly when the payload is at most 2^20 agreed blocks. */
  lemma EndsIff(payload: bytes, clientSize: nat, serverSize: nat, mid: uint16)
    requires ValidBlockSize(clientSize) && ValidBlockSize(serverSize)
    ensures (exists n :: Replies(Start(payload, clientSize, serverSize, mid), n).q.live.None?)
            <==> |payload| <= 0x10_0000 * Min(clientSize, serverSize)
  {
    hide OnResponse, Respond, Inv, Alone;
    var s := Start(payload, clientSize, serverSize, mid);
    if Fits(s) {
      DeliversThePayload(payload, clientSize, serverSize, mid);
    } else {
      StartAlone(payload, clientSize, serverSize, mid);
      forall n ensures Replies(s, n).q.live.Some? {
        NeverEnds(s, n);
      }
    }
  }
}
