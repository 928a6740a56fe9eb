/** Block2 transfers: the responding side and the requesting side of lwm2m_handle_packet with
    prv_send_get_block2 and prv_send_get_next_block2 (RFC 7959, section 2.4). */
module Block2 {
  import opened Bytes
  import opened CoapOptions
  import opened Blocks
  import opened Block1

  /** A request for content, perhaps for one block of it. */
  datatype Get = Get(mid: uint16, block: Option<Block>)

  datatype ContentCode = Content205 | BadOption402

  /** The acknowledgement that carries the content, or one block of it. */
  datatype Response = Response(mid: uint16, code: ContentCode, block: Option<Block>, payload: bytes)

  const BLOCK_OUT_OF_SCOPE: bytes := [66, 108, 111, 99, 107, 79, 117, 116, 79, 102, 83, 99, 111, 112, 101]

  // ---- the responder -------------------------------------------------------------------

  /** The answer to a request when the application's payload is `payload`. A block size above
      the local one is reduced while the offset stays the one asked for. */
  function Respond(payload: bytes, get: Get, local: nat): Response
    requires ValidBlockSize(local)
    requires get.block.Some? ==> SettableBlock(get.block.value.num, get.block.value.size)
  {
    if get.block.Some? then
      var offset := BlockStart(get.block.value.num, get.block.value.size);
      var size := Min(get.block.value.size, local);
      if offset >= |payload| then Response(get.mid, BadOption402, None, BLOCK_OUT_OF_SCOPE)
      else
        var remaining := |payload| - offset;
        Response(get.mid, Content205, Some(Block(get.block.value.num, remaining > size, size)),
                 payload[offset..offset + Min(remaining, size)])
    else if |payload| > local then
      Response(get.mid, Content205, Some(Block(0, true, local)), payload[..local])
    else Response(get.mid, Content205, None, payload)
  }

  /** The response branch of lwm2m_handle_packet after the application answered with content;
      the offset comes from the packed option. */
  method HandleGet(payload: bytes, get: Get, local: nat) returns (r: Response)
    requires ValidBlockSize(local)
    requires get.block.Some? ==> SettableBlock(get.block.value.num, get.block.value.size) && PowerSize(get.block.value.size)
    ensures r == Respond(payload, get, local)
  {
    if get.block.Some? {
      var packed := PackBlock(get.block.value);
      UnpackPackBlock(get.block.value);
      ParsedOffsetIsNumTimesSize(packed);
      var num, blockSize, blockOffset := UnpackBlock(packed).num, UnpackBlock(packed).size, ParsedOffset(packed);
      blockSize := Min(blockSize, local);
      if blockOffset >= |payload| {
        return Response(get.mid, BadOption402, None, BLOCK_OUT_OF_SCOPE);
      }
      var more := |payload| - blockOffset > blockSize;
      r := Response(get.mid, Content205, Some(Block(num, more, blockSize)),
                    payload[blockOffset..blockOffset + Min(|payload| - blockOffset, blockSize)]);
    } else if |payload| > local {
      r := Response(get.mid, Content205, Some(Block(0, true, local)), payload[..local]);
    } else {
      r := Response(get.mid, Content205, None, payload);
    }
  }

  // ---- the requester -------------------------------------------------------------------

  /** What the request's callback is shown: a payload, and whether more blocks follow. */
  datatype Report = Report(payload: bytes, more: bool)

  /** The requesting side of one exchange with one peer. */
  datatype Requester = Requester(live: Option<Get>, nextMid: uint16, entries: seq<Entry<uint16>>, reports: seq<Report>)

  function More(r: Response): bool {
    r.block.Some? && r.block.value.more
  }

  /** The next request for a block; a number above 20 bits leaves the option out. */
  function NextGet(mid: uint16, num: nat, size: nat): Get
    requires num < 0x1_0000_0000 && size < 0x1_0000
  {
    Get(mid, if SettableBlock(num, size) then Some(Block(num, false, size)) else None)
  }

  /** prv_send_get_block2: nothing for an unknown message id, nor for block 0 when the request
      was for a block already; otherwise the transfer waits under the new message id. */
  function SendGetBlock(q: Requester, mid: uint16, num: nat, size: nat, local: nat): Requester
    requires num < 0x1_0000_0000 && Min(size, local) < 0x1_0000
  {
    if q.live.None? || q.live.value.mid != mid then q
    else if num == 0 && q.live.value.block.Some? then q.(live := None)
    else
      q.(live := Some(NextGet(q.nextMid, num, Min(size, local))),
         nextMid := (q.nextMid + 1) % 0x1_0000,
         entries := Rekeyed(q.entries, mid, q.nextMid))
  }

  /** transaction_handleResponse shows the response to the callback of its own transaction. */
  function ReportTo(q: Requester, expected: bool, report: Report): Requester {
    if expected then q.(reports := q.reports + [report]) else q
  }

  /** The acknowledgement branches of lwm2m_handle_packet for a request for content. */
  function OnResponse(q: Requester, r: Response, local: nat): Requester
    requires ValidBlockSize(local)
    requires r.block.Some? ==> r.block.value.num < 0xFFFF_FFFF
  {
    var expected := q.live.Some? && q.live.value.mid == r.mid;
    if |r.payload| > local then
      ReportTo(SendGetBlock(q, r.mid, 0, local, local), expected, Report(r.payload, More(r)))
    else if r.block.Some? then
      var b := r.block.value;
      var step := HandleSlot(View(q.entries, r.mid), Arrival(r.payload, b.size, b.num, b.more));
      var stored := q.(entries := Updated(q.entries, r.mid, step.slot));
      match step.outcome
      case Complete(payload) =>
        ReportTo(stored.(entries := Removed(stored.entries, r.mid), live := if expected then None else q.live),
                 expected, Report(payload, b.more))
      case Continue =>
        ReportTo(SendGetBlock(stored, r.mid, b.num + 1, b.size, local), expected, Report(r.payload, b.more))
      case _ => stored
    else ReportTo(q.(live := if expected then None else q.live), expected, Report(r.payload, false))
  }

  /** The requester with its fields updated in place. */
  class Client {
    const local: nat
    const blocks: BlockList<uint16>
    var live: Option<Get>
    var nextMid: uint16
    var reports: seq<Report>

    ghost function State(): Requester
      reads this, blocks
    {
      Requester(live, nextMid, blocks.entries, reports)
    }

    constructor (local: nat, mid: uint16)
      ensures this.local == local && fresh(blocks)
      ensures State() == Requester(Some(Get(mid, None)), (mid + 1) % 0x1_0000, [], [])
    {
      this.local := local;
      blocks := new BlockList<uint16>();
      live := Some(Get(mid, None));
      nextMid := (mid + 1) % 0x1_0000;
      reports := [];
    }

    /** prv_send_get_block2, and prv_send_get_next_block2 with the number already increased. */
    method SendGetBlock2(mid: uint16, num: uint32, size: uint16)
      requires ValidBlockSize(local)
      modifies this`live, this`nextMid, blocks
      ensures State() == SendGetBlock(old(State()), mid, num, size, local)
    {
      if live.None? || live.value.mid != mid {
        return;
      }
      if num == 0 && live.value.block.Some? {
        live := None;
        return;
      }
      var next := nextMid;
      nextMid := (nextMid + 1) % 0x1_0000;
      var blockSize := Min(size, local);
      var block: Option<Block> := None;
      if SettableBlock(num, blockSize) {
        block := Some(Block(num, false, blockSize));
      }
      blocks.SetExpected(mid, next);
      live := Some(Get(next, block));
    }

    /** The acknowledgement branches of lwm2m_handle_packet. */
    method HandleResponse(r: Response)
      requires ValidBlockSize(local)
      requires r.block.Some? ==> r.block.value.num < 0xFFFF_FFFF
      modifies this`live, this`nextMid, this`reports, blocks
      ensures State() == OnResponse(old(State()), r, local)
    {
      var expected := live.Some? && live.value.mid == r.mid;
      var report: Report;
      if |r.payload| > local {
        SendGetBlock2(r.mid, 0, local);
        report := Report(r.payload, r.block.Some? && r.block.value.more);
      } else if r.block.Some? {
        var b := r.block.value;
        var outcome := blocks.HandleBlock(r.mid, Arrival(r.payload, b.size, b.num, b.more));
        match outcome {
          case Complete(payload) =>
            blocks.Delete(r.mid);
            live := if expected then None else live;
            report := Report(payload, b.more);
          case Continue =>
            SendGetBlock2(r.mid, b.num + 1, b.size);
            report := Report(r.payload, b.more);
          case _ => return;
        }
      } else {
        live := if expected then None else live;
        report := Report(r.payload, false);
      }
      if expected {
        reports := reports + [report];
      }
    }
  }
}
