/** Block1 transfers: the sending side of packet.c with transaction_set_payload, and the Block1
    branch of lwm2m_handle_packet on the receiving side (RFC 7959, sections 2.5 and 2.9). */
module Block1 {
  import opened Bytes
  import opened CoapOptions
  import Blocks

  /** A request of the transfer: message id, Block1 option and the payload it carries. */
  datatype Request = Request(mid: uint16, block: Option<Block>, slice: bytes)

  /** 2.31, 2.04 (the code of an accepted write), 4.08, 4.13 and any other response code. */
  datatype Code = Continue231 | Changed204 | Incomplete408 | TooLarge413 | OtherCode

  /** An acknowledgement without payload; `size` is the Size option, 0 when absent. */
  datatype Ack = Ack(mid: uint16, code: Code, block: Option<Block>, size: uint32)

  /** The live transaction of a transfer: its request and the whole payload. */
  datatype Transaction = Transaction(request: Request, payload: bytes)

  /** lwm2m_set_coap_block_size accepts these. */
  predicate ValidBlockSize(size: nat) {
    size == 16 || size == 32 || size == 64 || size == 128 || size == 256 || size == 512 || size == 1024
  }

  // ---- the sender ----------------------------------------------------------------------

  /** The request transaction_set_payload prepares. */
  function FirstRequest(payload: bytes, local: nat, mid: uint16): Request
    requires ValidBlockSize(local)
  {
    if |payload| > local then Request(mid, Some(Block(0, true, local)), payload[..local])
    else Request(mid, None, payload)
  }

  /** Where block `num` starts. */
  function BlockStart(num: nat, size: nat): nat {
    num * size
  }

  /** Block `num` of the payload. coap_set_header_block1 refuses numbers above 20 bits without
      the sender noticing; the request then goes out without the option. */
  function BlockRequest(payload: bytes, num: nat, size: uint16, mid: uint16): Request
    requires BlockStart(num, size) < |payload| && num < 0x1_0000_0000
  {
    var start := BlockStart(num, size);
    var remaining := |payload| - start;
    Request(mid, if SettableBlock(num, size) then Some(Block(num, remaining > size, size)) else None,
            payload[start..start + Min(size, remaining)])
  }

  /** prv_send_new_block1: nothing when the payload is used up. */
  function NewBlock(payload: bytes, num: nat, size: uint16, mid: uint16): Option<Transaction>
    requires num < 0x1_0000_0000
  {
    if BlockStart(num, size) >= |payload| then None else Some(Transaction(BlockRequest(payload, num, size, mid), payload))
  }

  /** The size prv_send_next_block1 goes on with; the size of an absent option is 0. */
  function NextSize(t: Transaction, size: uint16): uint16 {
    var sent := if t.request.block.Some? then t.request.block.value.size else 0;
    if size > sent || size == 0 then sent else size
  }

  /** prv_send_next_block1: after block 0 the peer may have asked for smaller blocks. */
  function NextBlock(t: Transaction, size: uint16, mid: uint16): Option<Transaction>
    requires t.request.block.Some? && t.request.block.value.size > 0
  {
    var sent := t.request.block.value;
    var s := NextSize(t, size);
    NewBlock(t.payload, if sent.num == 0 then sent.size / s else (sent.num + 1) % 0x1_0000_0000, s, mid)
  }

  /** The size prv_retry_block1 goes on with; none when the peer did not ask for less. */
  function RetrySize(sent: Block, size: uint16): Option<uint16> {
    var s := if size == sent.size && size > 16 then size / 2 else size;
    if s >= sent.size || s == 0 then None else Some(s)
  }

  /** prv_retry_block1. */
  function Retry(t: Transaction, size: uint16, mid: uint16): Option<Transaction> {
    if t.request.block.None? then NewBlock(t.payload, 0, size, mid)
    else
      var s := RetrySize(t.request.block.value, size);
      if s.None? then None else NewBlock(t.payload, t.request.block.value.num, s.value, mid)
  }

  /** The largest block size of the form 16 * 2^n not above `size`, or 16. */
  function FloorSize(size: uint16): (s: uint16)
    ensures s == 16 || s <= size
  {
    if size < 32 then 16 else 2 * FloorSize(size / 2)
  }

  /** prv_change_to_block1: the Size option is cut to 16 bits. */
  function ChangeToBlock1(t: Transaction, size: uint32, local: nat, mid: uint16): Option<Transaction>
    requires ValidBlockSize(local)
  {
    NewBlock(t.payload, 0, Min(FloorSize(size % 0x1_0000), local), mid)
  }

  /** What an acknowledgement of the live request starts. */
  function Answered(t: Transaction, ack: Ack, local: nat, mid: uint16): Option<Transaction>
    requires ValidBlockSize(local) && Answerable(t, ack)
  {
    if ack.block.Some? then
      match ack.code
      case Continue231 => NextBlock(t, ack.block.value.size, mid)
      case Changed204 => NextBlock(t, ack.block.value.size, mid)
      case TooLarge413 => if ack.block.value.num > 0 then None else Retry(t, ack.block.value.size, mid)
      case _ => None
    else if ack.code == TooLarge413 then ChangeToBlock1(t, ack.size, local, mid)
    else None
  }

  /** A success with a Block1 option in answer to a request without one divides by zero in
      prv_send_next_block1; the peer modelled here never sends it. */
  predicate Answerable(t: Transaction, ack: Ack) {
    ack.block.Some? && (ack.code == Continue231 || ack.code == Changed204)
    ==> t.request.block.Some? && t.request.block.value.size > 0
  }

  /** The sending side of one transfer. `sent` lists the datagrams handed to the socket,
      `callbacks` the response codes the transfer's callback has seen. */
  class Sender {
    const local: nat
    var live: Option<Transaction>
    var nextMid: uint16
    var sent: seq<Request>
    var callbacks: seq<Code>

    constructor (local: nat, payload: bytes, mid: uint16)
      requires ValidBlockSize(local)
      ensures this.local == local && live == Some(Transaction(FirstRequest(payload, local, mid), payload))
      ensures nextMid == (mid + 1) % 0x1_0000 && sent == [FirstRequest(payload, local, mid)] && callbacks == []
    {
      this.local := local;
      var request := Request(mid, None, payload);
      if |payload| > local {
        request := Request(mid, Some(Block(0, true, local)), payload[..local]);
      }
      live := Some(Transaction(request, payload));
      nextMid := (mid + 1) % 0x1_0000;
      sent := [request];
      callbacks := [];
    }

    /** What sending `next` (if anything) does; the mid is used up only when it is sent. */
    twostate predicate Sends(next: Option<Transaction>)
      reads this
    {
      && live == next
      && nextMid == (if next.Some? then (old(nextMid) + 1) % 0x1_0000 else old(nextMid))
      && sent == old(sent) + (if next.Some? then [next.value.request] else [])
    }

    /** prv_send_new_block1. */
    method SendNewBlock1(previous: Transaction, num: uint32, size: uint16)
      modifies this`live, this`nextMid, this`sent
      ensures Sends(NewBlock(previous.payload, num, size, old(nextMid)))
    {
      hide SettableBlock, BlockStart;
      var start := BlockStart(num, size);
      if start >= |previous.payload| {
        live := None;
        return;
      }
      var mid := nextMid;
      nextMid := (nextMid + 1) % 0x1_0000;
      var remaining := |previous.payload| - start;
      var block: Option<Block> := None;
      if SettableBlock(num, size) {
        block := Some(Block(num, remaining > size, size));
      }
      var request := Request(mid, block, previous.payload[start..start + Min(size, remaining)]);
      live := Some(Transaction(request, previous.payload));
      sent := sent + [request];
    }

    /** prv_send_next_block1 for the live transaction. */
    method SendNextBlock1(size: uint16)
      requires live.Some? && live.value.request.block.Some? && live.value.request.block.value.size > 0
      modifies this`live, this`nextMid, this`sent
      ensures Sends(NextBlock(old(live).value, size, old(nextMid)))
    {
      var message := live.value.request.block.value;
      var blockSize := size;
      if blockSize > message.size || blockSize == 0 {
        blockSize := message.size;
      }
      var num := if message.num == 0 then message.size / blockSize else (message.num + 1) % 0x1_0000_0000;
      SendNewBlock1(live.value, num, blockSize);
    }

    /** prv_retry_block1 for the live transaction. */
    method RetryBlock1(size: uint16)
      requires live.Some?
      modifies this`live, this`nextMid, this`sent
      ensures Sends(Retry(old(live).value, size, old(nextMid)))
    {
      if live.value.request.block.None? {
        SendNewBlock1(live.value, 0, size);
        return;
      }
      var message := live.value.request.block.value;
      var blockSize := size;
      if blockSize == message.size && blockSize > 16 {
        blockSize := blockSize / 2;
      }
      if blockSize >= message.size || blockSize == 0 {
        live := None;
        return;
      }
      SendNewBlock1(live.value, message.num, blockSize);
    }

    /** prv_change_to_block1 for the live transaction. */
    method ChangeToBlock(size: uint32)
      requires live.Some? && ValidBlockSize(local)
      modifies this`live, this`nextMid, this`sent
      ensures Sends(ChangeToBlock1(old(live).value, size, local, old(nextMid)))
    {
      var blockSize := LoopFloorSize(size % 0x1_0000);
      SendNewBlock1(live.value, 0, Min(blockSize, local));
    }

    /** The acknowledgement branches of lwm2m_handle_packet, then transaction_handleResponse. */
    method HandleAck(ack: Ack)
      requires ValidBlockSize(local)
      requires live.Some? && live.value.request.mid == ack.mid ==> Answerable(live.value, ack)
      modifies this`live, this`nextMid, this`sent, this`callbacks
      ensures old(live).None? || old(live).value.request.mid != ack.mid ==>
                live == old(live) && nextMid == old(nextMid) && sent == old(sent) && callbacks == old(callbacks)
      ensures old(live).Some? && old(live).value.request.mid == ack.mid ==>
                Sends(Answered(old(live).value, ack, local, old(nextMid))) && callbacks == old(callbacks) + [ack.code]
    {
      if live.None? || live.value.request.mid != ack.mid {
        return;
      }
      if ack.block.Some? {
        match ack.code {
          case Continue231 => SendNextBlock1(ack.block.value.size);
          case Changed204 => SendNextBlock1(ack.block.value.size);
          case TooLarge413 =>
            if ack.block.value.num > 0 {
              live := None;
            } else {
              RetryBlock1(ack.block.value.size);
            }
          case _ => live := None;
        }
      } else if ack.code == TooLarge413 {
        ChangeToBlock(ack.size);
      } else {
        live := None;
      }
      callbacks := callbacks + [ack.code];
    }
  }

  /** The loop of prv_change_to_block1. */
  method LoopFloorSize(size: uint16) returns (blockSize: uint16)
    ensures blockSize == FloorSize(size)
  {
    blockSize := 16;
    var n := 1;
    assert Pow2(1) == 2;
    while 16 * Pow2(n) <= size
      invariant n >= 1 && blockSize == 16 * Pow2(n - 1)
      invariant n > 1 ==> blockSize <= size
      decreases size - blockSize
    {
      blockSize := 16 * Pow2(n);
      n := n + 1;
    }
    if n > 1 {
      FloorSizePower(size, n - 1);
    }
  }

  lemma {:induction false} FloorSizePower(size: uint16, k: nat)
    requires 16 * Pow2(k) <= size < 16 * Pow2(k + 1)
    ensures FloorSize(size) == 16 * Pow2(k)
  {
    if k > 0 {
      FloorSizePower(size / 2, k - 1);
    }
  }

  /** A success with a Block1 option makes prv_send_next_block1 divide by zero exactly if it answers a
      request without one, or one whose option has size 0. */
  lemma DividesByZeroIff(t: Transaction, ack: Ack)
    requires ack.block.Some? && (ack.code == Continue231 || ack.code == Changed204)
    requires t.request.block.Some? && t.request.block.value.num > 0 ==> t.request.block.value.size > 0
    ensures !Answerable(t, ack) <==>
      (t.request.block.None? || t.request.block.value.num == 0) && NextSize(t, ack.block.value.size) == 0
  {
  }

  // ---- answers of 4.13 -----------------------------------------------------------------

  /** A block-wise request as the sender makes it: a block of the payload under a packed option. */
  predicate BlockWise(t: Transaction) {
    && t.request.block.Some?
    && var b := t.request.block.value;
      SettableBlock(b.num, b.size) && PowerSize(b.size) && BlockStart(b.num, b.size) < |t.payload|
  }

  /** 4.13, with an option as the parser reads it, if any. */
  predicate Refusal(ack: Ack) {
    ack.code == TooLarge413 && (ack.block.Some? ==> PowerSize(ack.block.value.size))
  }

  /** A retry that the Block1 option of a 4.13 asks for has the same number and a strictly smaller size. */
  lemma RetryShrinks(t: Transaction, size: uint16, mid: uint16)
    requires BlockWise(t) && PowerSize(size) && Retry(t, size, mid).Some?
    ensures var next := Retry(t, size, mid).value;
            && BlockWise(next) && next.payload == t.payload
            && 16 <= next.request.block.value.size < t.request.block.value.size
            && next.request.block.value.num == t.request.block.value.num
  {
    hide FloorSize;
    var sent, s := t.request.block.value, RetrySize(t.request.block.value, size).value;
    assert PowerSize(s) by { HalfSize(sent.size); }
    Shorter(sent.num, s, sent.size);
  }

  lemma HalfSize(size: nat)
    requires PowerSize(size) && size > 16
    ensures PowerSize(size / 2)
  {
  }

  lemma Shorter(num: nat, small: nat, large: nat)
    requires small <= large
    ensures BlockStart(num, small) <= BlockStart(num, large)
  {
  }

  predicate Shrinks(t: Transaction, next: Option<Transaction>)
    requires t.request.block.Some?
  {
    next.Some? && next.value.request.block.Some? && next.value.request.block.value.size < t.request.block.value.size
  }

  /** What a 4.13 makes of a block-wise request. With a Block1 option the size shrinks, unless the option
      asks for more than was sent, nothing smaller is left or the number is not 0: then the transfer ends.
      Without it the transfer starts over at block 0 in any case, and the size shrinks exactly if the Size
      option asks for less. */
  lemma ShrinksIff(t: Transaction, ack: Ack, local: nat, mid: uint16)
    requires BlockWise(t) && Refusal(ack) && ValidBlockSize(local)
    ensures
      var next, sent := Answered(t, ack, local, mid), t.request.block.value;
      && (Shrinks(t, next) <==>
            if ack.block.Some? then ack.block.value.num == 0 && ack.block.value.size <= sent.size && sent.size > 16
            else Min(FloorSize(ack.size % 0x1_0000), local) < sent.size)
      && (ack.block.Some? ==> next.None? || Shrinks(t, next))
      && (ack.block.None? ==> next.Some? && next.value.request.block.Some? && next.value.request.block.value.num == 0)
      && (next.Some? ==> BlockWise(next.value) && next.value.payload == t.payload)
  {
    hide FloorSize;
    if ack.block.Some? {
      if ack.block.value.num == 0 && Retry(t, ack.block.value.size, mid).Some? {
        RetryShrinks(t, ack.block.value.size, mid);
      }
      if ack.block.value.size <= t.request.block.value.size {
        Shorter(t.request.block.value.num, ack.block.value.size, t.request.block.value.size);
      }
      Shorter(t.request.block.value.num, t.request.block.value.size / 2, t.request.block.value.size);
    } else {
      StartsOver(t, ack.size, local, mid);
    }
  }

  lemma StartsOver(t: Transaction, size: uint32, local: nat, mid: uint16)
    requires ValidBlockSize(local) && t.payload != []
    ensures
      var next := ChangeToBlock1(t, size, local, mid);
      && next.Some? && BlockWise(next.value) && next.value.payload == t.payload
      && next.value.request.block.value.num == 0
      && next.value.request.block.value.size == Min(FloorSize(size % 0x1_0000), local)
  {
    FloorIsPower(size % 0x1_0000);
  }

  lemma {:induction false} FloorIsPower(size: uint16)
    ensures FloorSize(size) > 1024 || ValidBlockSize(FloorSize(size))
    ensures 16 <= FloorSize(size)
    decreases size
  {
    if size >= 32 { FloorIsPower(size / 2); }
  }

  /** The live request after a peer has answered one request after the other. */
  function AnsweredAll(t: Transaction, acks: seq<Ack>, local: nat, mid: uint16): Option<Transaction>
    requires ValidBlockSize(local) && forall i :: 0 <= i < |acks| ==> Refusal(acks[i])
    decreases |acks|
  {
    if acks == [] then Some(t)
    else
      assert Refusal(acks[0]);
      match Answered(t, acks[0], local, mid)
      case None => None
      case Some(next) => AnsweredAll(next, acks[1..], local, (mid + 1) % 0x1_0000)
  }

  /** Every answer in turn made the size shrink. */
  predicate AllShrink(t: Transaction, acks: seq<Ack>, local: nat, mid: uint16)
    requires ValidBlockSize(local) && forall i :: 0 <= i < |acks| ==> Refusal(acks[i])
    decreases |acks|
  {
    acks == [] ||
    (t.request.block.Some? && Refusal(acks[0])
     && var next := Answered(t, acks[0], local, mid);
       Shrinks(t, next) && AllShrink(next.value, acks[1..], local, (mid + 1) % 0x1_0000))
  }

  /** Answers that shrink the size one after the other are at most as many as it can be halved, whether they
      carry Block1 or not. */
  lemma {:induction false} ShrinkingIsBounded(t: Transaction, acks: seq<Ack>, local: nat, mid: uint16)
    requires BlockWise(t) && ValidBlockSize(local) && forall i :: 0 <= i < |acks| ==> Refusal(acks[i])
    requires AllShrink(t, acks, local, mid)
    ensures 16 * Pow2(|acks|) <= t.request.block.value.size
    ensures |acks| <= 7
    decreases |acks|
  {
    hide Answered, FloorSize;
    if acks != [] {
      ShrinksIff(t, acks[0], local, mid);
      var next := Answered(t, acks[0], local, mid).value;
      ShrinkingIsBounded(next, acks[1..], local, (mid + 1) % 0x1_0000);
      Halved(next.request.block.value.size, t.request.block.value.size);
    }
    if |acks| > 7 { Pow2Monotone(8, |acks|); assert Pow2(8) == 2 * Pow2(7); Pow2Table(7); }
  }

  lemma Halved(small: nat, large: nat)
    requires PowerSize(small) && PowerSize(large) && small < large
    ensures 2 * small <= large
  {
  }

  /** Eight answers of 4.13 that carry Block1 are always enough to end the transfer. */
  lemma {:induction false} RetriesEnd(t: Transaction, acks: seq<Ack>, local: nat, mid: uint16)
    requires BlockWise(t) && ValidBlockSize(local)
    requires forall i :: 0 <= i < |acks| ==> Refusal(acks[i]) && acks[i].block.Some?
    requires t.request.block.value.size < 16 * Pow2(|acks|)
    ensures AnsweredAll(t, acks, local, mid).None?
    decreases |acks|
  {
    hide Answered;
    ShrinksIff(t, acks[0], local, mid);
    var next := Answered(t, acks[0], local, mid);
    if next.Some? {
      Halved(next.value.request.block.value.size, t.request.block.value.size);
      RetriesEnd(next.value, acks[1..], local, (mid + 1) % 0x1_0000);
    }
  }

  /** A peer that answers the same over and over. */
  function Repeated(ack: Ack, n: nat): (acks: seq<Ack>)
    ensures |acks| == n && forall i :: 0 <= i < n ==> acks[i] == ack
  {
    if n == 0 then [] else [ack] + Repeated(ack, n - 1)
  }

  /** The negotiation with a peer that keeps answering the same 4.13 ends exactly if that carries Block1. */
  lemma NegotiationEndsIff(t: Transaction, ack: Ack, local: nat, mid: uint16)
    requires BlockWise(t) && Refusal(ack) && ValidBlockSize(local)
    ensures (exists n :: AnsweredAll(t, Repeated(ack, n), local, mid).None?) <==> ack.block.Some?
  {
    if ack.block.Some? {
      EndsAfter(t, ack, local, mid, 8);
    } else {
      forall n: nat ensures AnsweredAll(t, Repeated(ack, n), local, mid).Some? { NeverEnds(t, ack, local, mid, n); }
    }
  }

  lemma EndsAfter(t: Transaction, ack: Ack, local: nat, mid: uint16, n: nat)
    requires BlockWise(t) && Refusal(ack) && ack.block.Some? && ValidBlockSize(local) && n >= 8
    ensures AnsweredAll(t, Repeated(ack, n), local, mid).None?
  {
    Pow2Monotone(8, n);
    assert Pow2(8) == 2 * Pow2(7) by { Pow2Table(7); }
    Pow2Table(7);
    RetriesEnd(t, Repeated(ack, n), local, mid);
  }

  lemma {:induction false} NeverEnds(t: Transaction, ack: Ack, local: nat, mid: uint16, n: nat)
    requires BlockWise(t) && Refusal(ack) && ack.block.None? && ValidBlockSize(local)
    ensures AnsweredAll(t, Repeated(ack, n), local, mid).Some?
    decreases n
  {
    hide Answered, FloorSize;
    if n > 0 {
      ShrinksIff(t, ack, local, mid);
      NeverEnds(Answered(t, ack, local, mid).value, ack, local, (mid + 1) % 0x1_0000, n - 1);
      assert Repeated(ack, n)[1..] == Repeated(ack, n - 1);
    }
  }

  /** A 4.13 without Block1 and Size starts the very same block again, and one with a large Size makes a
      transfer of small blocks start over with larger ones. */
  lemma RefusedWithoutBlock1(payload: bytes, mid: uint16, again: uint16)
    requires |payload| > 1024
    ensures
      var t := NewBlock(payload, 0, 16, mid).value;
      Answered(t, Ack(mid, TooLarge413, None, 0), 1024, again) ==
        Some(Transaction(t.request.(mid := again), payload))
    ensures
      var t, next := NewBlock(payload, 5, 16, mid).value, NewBlock(payload, 0, 1024, again).value;
      && Answered(t, Ack(mid, TooLarge413, None, 4096), 1024, again) == Some(next)
      && t.request.block == Some(Block(5, true, 16)) && next.request.block == Some(Block(0, true, 1024))
  {
    assert Pow2(0) == 1;
    FloorSizePower(4096, 8) by { Pow2Table(7); assert Pow2(8) == 2 * Pow2(7) && Pow2(9) == 2 * Pow2(8); }
  }

  // ---- the receiver --------------------------------------------------------------------

  /** What one request does to the receiver: the transfer's slot, the answer, and the payload
      handed to the application, if any. */
  datatype Reception = Reception(slot: Option<Blocks.Slot>, code: Code, block: Option<Block>, delivered: Option<bytes>)

  function ToArrival(slice: bytes, b: Block): Blocks.Arrival {
    Blocks.Arrival(slice, b.size, b.num, b.more)
  }

  /** The request branch of lwm2m_handle_packet for writes the application accepts with 2.04. */
  function Receive(slot: Option<Blocks.Slot>, request: Request, local: nat): Reception
    requires ValidBlockSize(local)
  {
    if |request.slice| > local then
      var b := if request.block.Some? then request.block.value.(size := local) else Block(0, true, local);
      Reception(slot, TooLarge413, Some(b), None)
    else if request.block.Some? then
      var b := request.block.value;
      var step := Blocks.HandleSlot(slot, ToArrival(request.slice, b));
      var answer := Some(b.(size := Min(b.size, local)));
      match step.outcome
      case Complete(payload) => Reception(step.slot, Changed204, answer, Some(payload))
      case Continue => Reception(step.slot, Continue231, answer, None)
      case Retransmission => Reception(step.slot, if b.more then Continue231 else Changed204, answer, None)
      case Incomplete => Reception(step.slot, Incomplete408, answer, None)
    else Reception(slot, Changed204, None, Some(request.slice))
  }

  /** The receiving side for one peer: its block data, and what the application was given, by
      request URI. */
  class Receiver {
    const local: nat
    const blocks: Blocks.BlockList<string>
    var delivered: seq<(string, bytes)>

    constructor (local: nat)
      ensures this.local == local && blocks.entries == [] && delivered == [] && fresh(blocks)
    {
      this.local := local;
      blocks := new Blocks.BlockList<string>();
      delivered := [];
    }

    /** The request branch of lwm2m_handle_packet. */
    method HandleRequest(uri: string, request: Request) returns (ack: Ack)
      requires ValidBlockSize(local) && Blocks.Distinct(blocks.entries)
      modifies this`delivered, blocks
      ensures Blocks.Distinct(blocks.entries)
      ensures var r := Receive(Blocks.View(old(blocks.entries), uri), request, local);
              && Blocks.View(blocks.entries, uri) == r.slot
              && ack == Ack(request.mid, r.code, r.block, 0)
              && delivered == old(delivered) + (if r.delivered.Some? then [(uri, r.delivered.value)] else [])
      ensures forall other :: other != uri ==> Blocks.View(blocks.entries, other) == Blocks.View(old(blocks.entries), other)
    {
      ghost var before := blocks.entries;
      if |request.slice| > local {
        var b := if request.block.Some? then request.block.value.(size := local) else Block(0, true, local);
        return Ack(request.mid, TooLarge413, Some(b), 0);
      }
      if request.block.None? {
        delivered := delivered + [(uri, request.slice)];
        return Ack(request.mid, Changed204, None, 0);
      }
      var b := request.block.value;
      var outcome := blocks.HandleBlock(uri, ToArrival(request.slice, b));
      forall other ensures Blocks.Distinct(blocks.entries)
        && Blocks.View(blocks.entries, uri) == Blocks.HandleSlot(Blocks.View(before, uri), ToArrival(request.slice, b)).slot
        && (other != uri ==> Blocks.View(blocks.entries, other) == Blocks.View(before, other))
      {
        Blocks.UpdatedViews(before, uri, Blocks.HandleSlot(Blocks.View(before, uri), ToArrival(request.slice, b)).slot, other);
      }
      var answer := Some(b.(size := Min(b.size, local)));
      match outcome {
        case Complete(payload) =>
          delivered := delivered + [(uri, payload)];
          ack := Ack(request.mid, Changed204, answer, 0);
        case Continue => ack := Ack(request.mid, Continue231, answer, 0);
        case Retransmission => ack := Ack(request.mid, if b.more then Continue231 else Changed204, answer, 0);
        case Incomplete => ack := Ack(request.mid, Incomplete408, answer, 0);
      }
    }
  }
}
