/** Reassembly of block-wise transfers: block.c without LWM2M_RAW_BLOCK1_REQUESTS (RFC 7959,
    sections 2.4 and 2.5). One list holds the transfers of one peer and one block type; its
    key is the request's URI for Block1 and the expected message id for Block2. */
module Blocks {
  import opened Bytes
  import opened CoapOptions

  /** What is kept of one transfer: blockBuffer and blockNum. */
  datatype Slot = Slot(buffer: bytes, num: nat)

  datatype Entry<K> = Entry(key: K, slot: Slot)

  /** One received block: payload, block size, block number and more flag. */
  datatype Arrival = Arrival(payload: bytes, size: uint16, num: uint32, more: bool)

  /** NO_ERROR with the output buffer, 2.31, COAP_RETRANSMISSION and 4.08. */
  datatype Outcome = Complete(payload: bytes) | Continue | Retransmission | Incomplete

  datatype Step = Step(slot: Option<Slot>, outcome: Outcome)

  // ---- one transfer --------------------------------------------------------------------

  function Finish(slot: Slot, more: bool): Step {
    Step(Some(slot), if more then Continue else Complete(slot.buffer))
  }

  /** blockSize * blockNum, a product of 32-bit unsigned numbers. */
  function ExpectedOffset(a: Arrival): nat {
    a.num * a.size % 0x1_0000_0000
  }

  /** prv_coap_block_handler seen from one transfer. */
  function HandleSlot(slot: Option<Slot>, a: Arrival): Step {
    if a.num == 0 then Finish(Slot(a.payload, 0), a.more)
    else if slot.None? then Step(None, Incomplete)
    else if a.num <= slot.value.num then Step(slot, Retransmission)
    else if a.num == slot.value.num + 1 then
      if |slot.value.buffer| != ExpectedOffset(a) then Step(slot, Incomplete)
      else Finish(Slot(slot.value.buffer + a.payload, a.num), a.more)
    else Finish(slot.value, a.more)
  }

  // ---- the list of transfers -----------------------------------------------------------

  function Find<K(==)>(entries: seq<Entry<K>>, key: K): (i: nat)
    ensures i <= |entries|
    ensures i < |entries| ==> entries[i].key == key
    ensures forall j :: 0 <= j < i ==> entries[j].key != key
  {
    if entries == [] then 0
    else if entries[0].key == key then 0
    else 1 + Find(entries[1..], key)
  }

  function View<K(==)>(entries: seq<Entry<K>>, key: K): Option<Slot> {
    var i := Find(entries, key);
    if i < |entries| then Some(entries[i].slot) else None
  }

  /** The list after one transfer's slot changed; a new transfer goes to the head. */
  function Updated<K(==)>(entries: seq<Entry<K>>, key: K, slot: Option<Slot>): seq<Entry<K>> {
    var i := Find(entries, key);
    if slot.None? then entries
    else if i < |entries| then entries[i := Entry(key, slot.value)]
    else [Entry(key, slot.value)] + entries
  }

  ghost predicate Distinct<K>(entries: seq<Entry<K>>) {
    forall i, j :: 0 <= i < j < |entries| ==> entries[i].key != entries[j].key
  }

  lemma FindUnique<K>(entries: seq<Entry<K>>, key: K, i: nat)
    requires i < |entries| && entries[i].key == key && forall j :: 0 <= j < i ==> entries[j].key != key
    ensures Find(entries, key) == i
  {
  }

  lemma FindAbsent<K>(entries: seq<Entry<K>>, key: K)
    requires forall j :: 0 <= j < |entries| ==> entries[j].key != key
    ensures Find(entries, key) == |entries|
  {
  }

  /** Changing one transfer changes that transfer and no other, and keeps keys distinct. */
  lemma {:induction false} UpdatedViews<K>(entries: seq<Entry<K>>, key: K, slot: Option<Slot>, other: K)
    requires slot.None? ==> View(entries, key).None?
    ensures Distinct(entries) ==> Distinct(Updated(entries, key, slot))
    ensures View(Updated(entries, key, slot), key) == slot
    ensures other != key ==> View(Updated(entries, key, slot), other) == View(entries, other)
  {
    var i, j, after := Find(entries, key), Find(entries, other), Updated(entries, key, slot);
    if slot.Some? {
      if i < |entries| {
        FindUnique(after, key, i);
        if other != key {
          if j < |entries| { FindUnique(after, other, j); } else { FindAbsent(after, other); }
        }
      } else {
        FindUnique(after, key, 0);
        if other != key {
          if j < |entries| {
            assert forall k :: 0 < k < |after| ==> after[k] == entries[k - 1];
            FindUnique(after, other, j + 1);
          } else { FindAbsent(after, other); }
        }
      }
    }
  }

  /** The block data of one peer. */
  class BlockList<K(==)> {
    var entries: seq<Entry<K>>

    constructor ()
      ensures entries == []
    {
      entries := [];
    }

    /** find_block_data: the index of the first match, or the length. */
    method FindBlockData(key: K) returns (i: nat)
      ensures i == Find(entries, key)
    {
      i := 0;
      while i < |entries| && entries[i].key != key
        invariant i <= |entries|
        invariant forall j :: 0 <= j < i ==> entries[j].key != key
      {
        i := i + 1;
      }
      if i < |entries| { FindUnique(entries, key, i); } else { FindAbsent(entries, key); }
    }

    /** prv_coap_block_handler. */
    method HandleBlock(key: K, a: Arrival) returns (outcome: Outcome)
      modifies this
      ensures var step := HandleSlot(View(old(entries), key), a);
              entries == Updated(old(entries), key, step.slot) && outcome == step.outcome
    {
      var i := FindBlockData(key);
      if a.num == 0 {
        if i == |entries| {
          entries := [Entry(key, Slot([], 0))] + entries;
          i := 0;
        }
        entries := entries[i := Entry(key, Slot(a.payload, 0))];
      } else {
        if i == |entries| {
          return Incomplete;
        }
        var slot := entries[i].slot;
        if a.num <= slot.num {
          return Retransmission;
        }
        if a.num == slot.num + 1 {
          if |slot.buffer| != ExpectedOffset(a) {
            return Incomplete;
          }
          entries := entries[i := Entry(key, Slot(slot.buffer + a.payload, a.num))];
        }
      }
      outcome := if a.more then Continue else Complete(entries[i].slot.buffer);
    }

    /** prv_block_data_delete. */
    method Delete(key: K)
      modifies this
      ensures entries == Removed(old(entries), key)
    {
      var i := FindBlockData(key);
      if i < |entries| {
        entries := entries[..i] + entries[i + 1..];
      }
    }

    /** coap_block2_set_expected_mid: the transfer waits under another key. */
    method SetExpected(current: K, expected: K)
      modifies this
      ensures entries == Rekeyed(old(entries), current, expected)
    {
      var i := FindBlockData(current);
      if i < |entries| {
        entries := entries[i := entries[i].(key := expected)];
      }
    }
  }

  function Removed<K(==)>(entries: seq<Entry<K>>, key: K): seq<Entry<K>> {
    var i := Find(entries, key);
    if i < |entries| then entries[..i] + entries[i + 1..] else entries
  }

  function Rekeyed<K(==)>(entries: seq<Entry<K>>, current: K, expected: K): seq<Entry<K>> {
    var i := Find(entries, current);
    if i < |entries| then entries[i := entries[i].(key := expected)] else entries
  }

  /** Deleting a transfer removes it and leaves the others. */
  lemma {:induction false} RemovedViews<K>(entries: seq<Entry<K>>, key: K, other: K)
    ensures Distinct(entries) ==> Distinct(Removed(entries, key)) && View(Removed(entries, key), key).None?
    ensures other != key ==> View(Removed(entries, key), other) == View(entries, other)
  {
    var i, j, after := Find(entries, key), Find(entries, other), Removed(entries, key);
    if Distinct(entries) { FindAbsent(after, key); }
    if i < |entries| && other != key {
      if j == |entries| { FindAbsent(after, other); }
      else { FindUnique(after, other, if j < i then j else j - 1); }
    }
  }

  /** A transfer in front of this one, which the search therefore meets first, waits under the other key. */
  predicate Shadowed<K(==)>(entries: seq<Entry<K>>, current: K, other: K) {
    Find(entries, other) < Find(entries, current) < |entries|
  }

  /** A transfer moved to another key is found there exactly if none waits under that key in front of it. */
  lemma {:induction false} MovedView<K>(entries: seq<Entry<K>>, current: K, expected: K)
    requires current != expected && View(entries, current).Some?
    ensures View(Rekeyed(entries, current, expected), expected) ==
      if Shadowed(entries, current, expected) then View(entries, expected) else View(entries, current)
  {
    var i, j, after := Find(entries, current), Find(entries, expected), Rekeyed(entries, current, expected);
    FindUnique(after, expected, if j < i then j else i);
  }

  /** A transfer that changes its data stays where it is, and a new one is in front of all others. */
  lemma {:induction false} ShadowedUpdate<K>(entries: seq<Entry<K>>, key: K, slot: Slot, other: K)
    requires other != key
    ensures Shadowed(Updated(entries, key, Some(slot)), key, other) <==> Shadowed(entries, key, other)
  {
    var i, j, after := Find(entries, key), Find(entries, other), Updated(entries, key, Some(slot));
    if i < |entries| {
      FindUnique(after, key, i);
      if j < |entries| { FindUnique(after, other, j); } else { FindAbsent(after, other); }
    }
  }

  /** A transfer moved to an unused key is found there, and only there. */
  lemma RekeyedViews<K>(entries: seq<Entry<K>>, current: K, expected: K, other: K)
    requires Distinct(entries) && current != expected && View(entries, expected).None?
    ensures var after := Rekeyed(entries, current, expected);
            && Distinct(after) && View(after, current).None? && View(after, expected) == View(entries, current)
            && (other != current && other != expected ==> View(after, other) == View(entries, other))
  {
    var i, j, after := Find(entries, current), Find(entries, other), Rekeyed(entries, current, expected);
    if i < |entries| {
      FindUnique(after, expected, i);
      FindAbsent(after, current);
      if other != current && other != expected {
        if j < |entries| { FindUnique(after, other, j); } else { FindAbsent(after, other); }
      }
    }
  }

  // ---- what the buffer holds after any sequence of arrivals ------------------------------

  /** The slot after a sequence of arrivals for one key. */
  function Run(arrivals: seq<Arrival>): Option<Slot> {
    if arrivals == [] then None
    else HandleSlot(Run(arrivals[..|arrivals| - 1]), arrivals[|arrivals| - 1]).slot
  }

  function Concat(parts: seq<Arrival>): bytes {
    if parts == [] then [] else Concat(parts[..|parts| - 1]) + parts[|parts| - 1].payload
  }

  /** The blocks taken in since the last block 0: each block 0 starts over, and a block is
      taken when it is the next number and starts where the data so far ends. */
  function Accepted(arrivals: seq<Arrival>): seq<Arrival> {
    if arrivals == [] then []
    else
      var before, a := Accepted(arrivals[..|arrivals| - 1]), arrivals[|arrivals| - 1];
      if a.num == 0 then [a]
      else if before != [] && a.num == |before| && |Concat(before)| == ExpectedOffset(a) then before + [a]
      else before
  }

  /** Blocks as the option carries them: 20-bit numbers, sizes up to 2048. */
  ghost predicate OnTheWire(arrivals: seq<Arrival>) {
    forall i :: 0 <= i < |arrivals| ==> arrivals[i].num <= 0xF_FFFF && arrivals[i].size <= 2048
  }

  /** The reassembly invariant: whatever arrives, in whatever order and with whatever gaps,
      the buffer is the concatenation of blocks 0 to blockNum accepted since the last block 0. */
  lemma {:induction false} BufferIsAccepted(arrivals: seq<Arrival>)
    ensures var acc := Accepted(arrivals);
            Run(arrivals) == if acc == [] then None else Some(Slot(Concat(acc), |acc| - 1))
    decreases |arrivals|
  {
    if arrivals != [] {
      var n := |arrivals| - 1;
      BufferIsAccepted(arrivals[..n]);
      var before, a, acc := Accepted(arrivals[..n]), arrivals[n], Accepted(arrivals);
      if a.num == 0 {
        assert acc == [a] && [a][..0] == [];
        assert Concat([a]) == Concat([]) + a.payload == a.payload;
      } else if acc == before + [a] {
        assert acc[..|acc| - 1] == before;
      }
    }
  }

  lemma ConcatPrefix(parts: seq<Arrival>, i: nat)
    requires i < |parts|
    ensures |Concat(parts[..i])| + |parts[i].payload| <= |Concat(parts)|
    ensures Concat(parts)[|Concat(parts[..i])|..|Concat(parts[..i])| + |parts[i].payload|] == parts[i].payload
    decreases |parts|
  {
    var n := |parts| - 1;
    if i < n {
      ConcatPrefix(parts[..n], i);
      assert parts[..n][..i] == parts[..i];
    }
  }

  lemma {:induction false} AcceptedInOrder(arrivals: seq<Arrival>, i: nat)
    requires OnTheWire(arrivals) && i < |Accepted(arrivals)|
    ensures var acc := Accepted(arrivals);
            acc[i].num == i && acc[i].num <= 0xF_FFFF && acc[i].size <= 2048
            && (i > 0 ==> |Concat(acc[..i])| == acc[i].num * acc[i].size)
    decreases |arrivals|
  {
    var n := |arrivals| - 1;
    var before, a, acc := Accepted(arrivals[..n]), arrivals[n], Accepted(arrivals);
    hide Concat, ExpectedOffset;
    if a.num != 0 {
      if i < |before| {
        AcceptedInOrder(arrivals[..n], i);
        assert acc[i] == before[i] && acc[..i] == before[..i];
      } else {
        assert acc == before + [a] && acc[i] == a && acc[..i] == before;
        ExpectedOffsetExact(a);
      }
    }
  }

  lemma MulMonotone(a: nat, b: nat, c: nat)
    requires a <= b
    ensures c * a <= c * b
  {
  }

  /** For the numbers and sizes the option carries, nothing wraps. */
  lemma ExpectedOffsetExact(a: Arrival)
    requires a.size <= 2048 && a.num <= 0xF_FFFF
    ensures ExpectedOffset(a) == a.num * a.size
  {
    MulMonotone(a.size, 2048, a.num);
  }

  ghost predicate StoredAt(buffer: bytes, offset: int, payload: bytes) {
    0 <= offset && offset + |payload| <= |buffer| && buffer[offset..offset + |payload|] == payload
  }

  /** Every accepted block is stored at number times size: its payload can be read back there,
      for every sequence of arrivals. */
  lemma AcceptedAtOffset(arrivals: seq<Arrival>, i: nat)
    requires OnTheWire(arrivals) && i < |Accepted(arrivals)|
    ensures var a := Accepted(arrivals)[i];
            a.num == i && Run(arrivals).Some? && StoredAt(Run(arrivals).value.buffer, a.num * a.size, a.payload)
  {
    BufferIsAccepted(arrivals);
    AcceptedInOrder(arrivals, i);
    ConcatPrefix(Accepted(arrivals), i);
  }

  /** A completion hands over exactly the accepted blocks. The block that triggered it is among
      them exactly when it was block 0 or the next number: a final block that skips ahead is
      dropped and the transfer still completes, without it. */
  lemma CompletionIff(slot: Option<Slot>, a: Arrival)
    requires HandleSlot(slot, a).outcome.Complete?
    ensures var step := HandleSlot(slot, a);
            && step.slot == Some(Slot(step.outcome.payload, step.slot.value.num))
            && (step.slot.value.num == a.num
                <==> (a.num == 0 || (slot.Some? && a.num == slot.value.num + 1)))
            && (step.slot.value.num != a.num ==> step.slot == slot)
  {
  }

  /** The gap case occurs: block 0, then block 2 as the last one. */
  lemma SkippedBlockCompletes(first: bytes, last: bytes)
    requires |first| == 16
    ensures HandleSlot(Run([Arrival(first, 16, 0, true)]), Arrival(last, 16, 2, false)).outcome == Complete(first)
  {
    RunLast([], Arrival(first, 16, 0, true));
  }

  /** A block 0 that comes again discards what was accepted after it; any other block that was
      already accepted changes nothing and is answered as a retransmission. */
  lemma DuplicateEffect(slot: Slot, a: Arrival)
    requires a.num <= slot.num
    ensures var step := HandleSlot(Some(slot), a);
            (step == Step(Some(slot), Retransmission) <==> a.num != 0)
            && (a.num == 0 ==> step.slot == Some(Slot(a.payload, 0)))
  {
  }

  /** Why a late copy of block 0 does harm: after it, the remaining blocks of a three-block
      transfer complete it with the first block alone. */
  lemma LateFirstBlock(first: bytes, second: bytes, third: bytes)
    requires |first| == 16 && |second| == 16
    ensures var b0, b1, b2 := Arrival(first, 16, 0, true), Arrival(second, 16, 1, true), Arrival(third, 16, 2, false);
            && HandleSlot(Run([b0, b1]), b2).outcome == Complete(first + second + third)
            && HandleSlot(Run([b0, b1, b0]), b2).outcome == Complete(first)
  {
    var b0, b1 := Arrival(first, 16, 0, true), Arrival(second, 16, 1, true);
    RunLast([], b0);
    RunLast([b0], b1);
    RunLast([b0, b1], b0);
  }

  /** A block that does not belong to the transfer it reaches leaves its data alone and completes nothing
      exactly if it is the very block 0 already there with more to come, a block below the next one, the
      next one at another offset, or one further ahead with more to come. */
  lemma {:induction false} ForeignBlockIff(slot: Slot, a: Arrival)
    ensures
      var step := HandleSlot(Some(slot), a);
      step.slot == Some(slot) && !step.outcome.Complete? <==>
        if a.num == 0 then slot == Slot(a.payload, 0) && a.more
        else if a.num == slot.num + 1 then |slot.buffer| != ExpectedOffset(a)
        else a.num <= slot.num || a.more
  {
  }

  /** A block 1 left over from an earlier write to the same path is taken for the one that is due: the
      payload then completes with a piece of the earlier one. */
  lemma {:induction false} EarlierBlockMixes(first: bytes, second: bytes, third: bytes, earlier: bytes)
    requires |first| == 16 && |second| == 16 && |earlier| == 16
    ensures
      var b0, b1, b2 := Arrival(first, 16, 0, true), Arrival(second, 16, 1, true), Arrival(third, 16, 2, false);
      HandleSlot(Run([b0, Arrival(earlier, 16, 1, true), b1]), b2).outcome == Complete(first + earlier + third)
  {
    var b0, b1, e1 := Arrival(first, 16, 0, true), Arrival(second, 16, 1, true), Arrival(earlier, 16, 1, true);
    RunLast([], b0);
    RunLast([b0], e1);
    RunLast([b0, e1], b1);
    assert [] + [b0] == [b0] && [b0] + [e1] == [b0, e1] && [b0, e1] + [b1] == [b0, e1, b1];
  }

  lemma RunLast(arrivals: seq<Arrival>, a: Arrival)
    ensures Run(arrivals + [a]) == HandleSlot(Run(arrivals), a).slot
  {
    var all := arrivals + [a];
    assert all[..|all| - 1] == arrivals;
  }
}
