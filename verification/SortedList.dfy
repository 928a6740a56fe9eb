/** The id-sorted linked lists of list.c: heap nodes, with the sequence of nodes as their ghost
    content. */
module SortedList {
  import opened Bytes

  class Node<T> {
    const id: uint16
    const data: T
    var next: Node?<T>

    constructor (id: uint16, data: T)
      ensures this.id == id && this.data == data && next == null
    {
      this.id, this.data, this.next := id, data, null;
    }
  }

  /** The node at a position, null past the end. */
  function At<T>(nodes: seq<Node<T>>, k: nat): Node?<T> {
    if k < |nodes| then nodes[k] else null
  }

  /** `nodes` are the nodes reached from `head`, in order. */
  ghost predicate Chain<T>(head: Node?<T>, nodes: seq<Node<T>>)
    reads nodes
  {
    && head == At(nodes, 0)
    && (forall i :: 0 <= i < |nodes| ==> nodes[i].next == At(nodes, i + 1))
    && (forall i, j :: 0 <= i < j < |nodes| ==> nodes[i] != nodes[j])
  }

  function Ids<T>(nodes: seq<Node<T>>): (ids: seq<uint16>)
    ensures |ids| == |nodes| && forall i :: 0 <= i < |ids| ==> ids[i] == nodes[i].id
  {
    seq(|nodes|, i requires 0 <= i < |nodes| => nodes[i].id)
  }

  /** Strictly ascending, as a list of distinct ids must be. */
  predicate Sorted(ids: seq<uint16>) {
    forall i, j :: 0 <= i < j < |ids| ==> ids[i] < ids[j]
  }

  // ---- adding --------------------------------------------------------------------------

  /** Leading elements below `id`. */
  function Below(ids: seq<uint16>, id: uint16): (k: nat)
    ensures k <= |ids|
    ensures forall i :: 0 <= i < k ==> ids[i] < id
    ensures k < |ids| ==> ids[k] >= id
  {
    if ids == [] || ids[0] >= id then 0 else 1 + Below(ids[1..], id)
  }

  /** Where lwm2m_list_add links a node: behind a head with the same id, otherwise before the
      first element that is not below it. */
  function InsertPos(ids: seq<uint16>, id: uint16): (k: nat)
    ensures k <= |ids|
  {
    if ids == [] || ids[0] > id then 0 else 1 + Below(ids[1..], id)
  }

  function Insert<T>(s: seq<T>, k: nat, x: T): seq<T>
    requires k <= |s|
  {
    s[..k] + [x] + s[k..]
  }

  /** Where the loops of add and remove stop. */
  lemma BelowIs(ids: seq<uint16>, id: uint16, k: nat)
    requires 0 < k <= |ids|
    requires forall i :: 0 < i < k ==> ids[i] < id
    requires k < |ids| ==> ids[k] >= id
    ensures 1 + Below(ids[1..], id) == k
  {
    var rest := ids[1..];
    var n := Below(rest, id);
    assert n < |rest| ==> rest[n] == ids[n + 1];
    assert k - 1 < |rest| ==> rest[k - 1] == ids[k];
  }

  /** A chain behind a node that points to its head. */
  lemma Prepended<T>(head: Node<T>, nodes: seq<Node<T>>, node: Node<T>)
    requires Chain(head, nodes) && node !in nodes && node.next == head
    ensures Chain(node, Insert(nodes, 0, node))
  {
    var after := Insert(nodes, 0, node);
    forall i | 0 <= i < |after| ensures after[i].next == At(after, i + 1) {
      assert i > 0 ==> after[i] == nodes[i - 1];
    }
  }

  /** A chain with one link redirected over a node that points on is the chain with that node in it. */
  lemma Spliced<T>(head: Node<T>, nodes: seq<Node<T>>, k: nat, node: Node<T>)
    requires k < |nodes| && head == nodes[0] && node !in nodes
    requires forall i, j :: 0 <= i < j < |nodes| ==> nodes[i] != nodes[j]
    requires forall i :: 0 <= i < |nodes| && i != k ==> nodes[i].next == At(nodes, i + 1)
    requires nodes[k].next == node && node.next == At(nodes, k + 1)
    ensures Chain(head, Insert(nodes, k + 1, node))
  {
    var after := Insert(nodes, k + 1, node);
    forall i | 0 <= i < |after| ensures after[i].next == At(after, i + 1) {
      if i <= k {
        assert after[i] == nodes[i];
      } else if i > k + 1 {
        assert after[i] == nodes[i - 1];
      }
    }
    forall i, j | 0 <= i < j < |after| ensures after[i] != after[j] {
      assert after[i] == if i <= k then nodes[i] else if i == k + 1 then node else nodes[i - 1];
      assert after[j] == if j <= k then nodes[j] else if j == k + 1 then node else nodes[j - 1];
    }
  }

  /** The loop of lwm2m_list_add and lwm2m_list_remove: to the node behind which `id` belongs. */
  method Walk<T>(head: Node<T>, id: uint16, ghost nodes: seq<Node<T>>) returns (target: Node<T>, ghost k: nat)
    requires Chain(head, nodes)
    ensures k < |nodes| && target == nodes[k] && target.next == At(nodes, k + 1)
    ensures forall i :: 0 < i <= k ==> Ids(nodes)[i] < id
    ensures k + 1 < |nodes| ==> Ids(nodes)[k + 1] >= id
  {
    target, k := head, 0;
    while target.next != null && target.next.id < id
      invariant 0 <= k < |nodes| && target == nodes[k]
      invariant forall i :: 0 < i <= k ==> Ids(nodes)[i] < id
      decreases |nodes| - k
    {
      assert target.next == At(nodes, k + 1);
      target := target.next;
      k := k + 1;
    }
    assert target.next == At(nodes, k + 1);
  }

  /** lwm2m_list_add. The node's own link matters only when the list is empty. */
  method Add<T>(head: Node?<T>, node: Node<T>, ghost nodes: seq<Node<T>>) returns (r: Node?<T>, ghost after: seq<Node<T>>)
    requires Chain(head, nodes) && node !in nodes
    requires head == null ==> node.next == null
    modifies nodes, node
    ensures after == Insert(nodes, InsertPos(Ids(nodes), node.id), node)
    ensures Chain(r, after)
  {
    hide Sorted, Below;
    ghost var ids := Ids(nodes);
    assert nodes != [] ==> ids[0] == head.id;
    if head == null {
      after := [node];
      return node, after;
    }
    if head.id > node.id {
      after := Insert(nodes, 0, node);
      node.next := head;
      Prepended(head, nodes, node);
      return node, after;
    }
    var target, k := Walk(head, node.id, nodes);
    BelowIs(ids, node.id, k + 1);
    after := Insert(nodes, k + 1, node);
    node.next := target.next;
    target.next := node;
    Spliced(head, nodes, k, node);
    r := head;
  }

  /** Adding an id that is not in a sorted list keeps it sorted. */
  lemma AddKeepsSorted(ids: seq<uint16>, id: uint16)
    requires Sorted(ids) && id !in ids
    ensures Sorted(Insert(ids, InsertPos(ids, id), id))
  {
    InsertPosSplits(ids, id);
    var k := InsertPos(ids, id);
    var after := Insert(ids, k, id);
    forall i, j | 0 <= i < j < |after| ensures after[i] < after[j] {
      hide Sorted;
      assert after[i] == if i < k then ids[i] else if i == k then id else ids[i - 1];
      assert after[j] == if j < k then ids[j] else if j == k then id else ids[j - 1];
      Ordered(ids, if i < k then i else i - 1, if j < k then j else j - 1);
    }
  }

  lemma InsertPosSplits(ids: seq<uint16>, id: uint16)
    requires Sorted(ids) && id !in ids
    ensures forall i :: 0 <= i < InsertPos(ids, id) ==> ids[i] < id
    ensures forall i :: InsertPos(ids, id) <= i < |ids| ==> ids[i] > id
  {
    var k := InsertPos(ids, id);
    if k > 0 {
      assert forall i :: 0 < i < k ==> ids[1..][i - 1] == ids[i];
      assert k < |ids| ==> ids[1..][k - 1] == ids[k];
    }
    forall i | k <= i < |ids| ensures ids[i] > id {
      if i > k { Ordered(ids, k, i); }
    }
  }

  lemma Ordered(ids: seq<uint16>, i: int, j: int)
    requires Sorted(ids)
    ensures 0 <= i < j < |ids| ==> ids[i] < ids[j]
  {
  }

  // ---- finding -------------------------------------------------------------------------

  /** lwm2m_list_find: on a sorted list, the node with the id if there is one. */
  method Find<T>(head: Node?<T>, id: uint16, ghost nodes: seq<Node<T>>) returns (r: Node?<T>)
    requires Chain(head, nodes) && Sorted(Ids(nodes))
    ensures r != null ==> r in nodes && r.id == id
    ensures r == null <==> id !in Ids(nodes)
  {
    var cur := head;
    ghost var k := 0;
    while cur != null && cur.id < id
      invariant 0 <= k <= |nodes| && cur == At(nodes, k)
      invariant forall i :: 0 <= i < k ==> nodes[i].id < id
      decreases |nodes| - k
    {
      cur := cur.next;
      k := k + 1;
    }
    assert cur != null ==> Ids(nodes)[k] == cur.id;
    if cur != null && cur.id == id {
      return cur;
    }
    r := null;
  }

  // ---- removing ------------------------------------------------------------------------

  function Without<T>(s: seq<T>, k: nat): seq<T>
    requires k < |s|
  {
    s[..k] + s[k + 1..]
  }

  /** A chain with one link skipping a node is the chain without that node. */
  lemma Unlinked<T>(head: Node<T>, nodes: seq<Node<T>>, k: nat)
    requires k + 1 < |nodes| && head == nodes[0]
    requires forall i, j :: 0 <= i < j < |nodes| ==> nodes[i] != nodes[j]
    requires forall i :: 0 <= i < |nodes| && i != k ==> nodes[i].next == At(nodes, i + 1)
    requires nodes[k].next == At(nodes, k + 2)
    ensures Chain(head, Without(nodes, k + 1))
  {
    var after := Without(nodes, k + 1);
    forall i | 0 <= i < |after| ensures after[i].next == At(after, i + 1) {
      assert after[i] == if i <= k then nodes[i] else nodes[i + 1];
    }
  }

  lemma Beheaded<T>(nodes: seq<Node<T>>)
    requires nodes != [] && Chain(nodes[0], nodes)
    ensures Chain(nodes[0].next, Without(nodes, 0))
  {
    var after := Without(nodes, 0);
    forall i | 0 <= i < |after| ensures after[i].next == At(after, i + 1) {
      assert after[i] == nodes[i + 1];
    }
  }

  /** The position of the node lwm2m_list_remove unlinks. */
  function RemovePos(ids: seq<uint16>, id: uint16): (p: Option<nat>)
    ensures p.Some? ==> p.value < |ids| && ids[p.value] == id
  {
    if ids == [] then None
    else if ids[0] == id then Some(0)
    else
      var k := 1 + Below(ids[1..], id);
      if k < |ids| && ids[k] == id then Some(k) else None
  }

  lemma RemovePosIs(ids: seq<uint16>, id: uint16, k: nat)
    requires 0 < k <= |ids| && ids[0] != id
    requires forall i :: 0 < i < k ==> ids[i] < id
    requires k < |ids| ==> ids[k] >= id
    ensures RemovePos(ids, id) == if k < |ids| && ids[k] == id then Some(k) else None
  {
    BelowIs(ids, id, k);
  }

  /** lwm2m_list_remove. */
  method Remove<T>(head: Node?<T>, id: uint16, ghost nodes: seq<Node<T>>)
    returns (r: Node?<T>, removed: Node?<T>, ghost after: seq<Node<T>>)
    requires Chain(head, nodes)
    modifies nodes
    ensures Chain(r, after)
    ensures match RemovePos(Ids(nodes), id)
            case None => removed == null && after == nodes
            case Some(k) => removed == nodes[k] && after == Without(nodes, k)
  {
    hide Below, Without;
    ghost var ids := Ids(nodes);
    after := nodes;
    if head == null {
      return null, null, after;
    }
    assert ids[0] == head.id;
    if head.id == id {
      after := Without(nodes, 0);
      Beheaded(nodes);
      return head.next, head, after;
    }
    var target, k := Walk(head, id, nodes);
    hide RemovePos;
    RemovePosIs(ids, id, k + 1);
    r := head;
    if target.next != null && target.next.id == id {
      removed := target.next;
      after := Without(nodes, k + 1);
      target.next := target.next.next;
      Unlinked(head, nodes, k);
    } else {
      removed := null;
    }
  }

  /** On a sorted list removal unlinks the one node with the id, and nothing if there is none. */
  lemma RemovePosIff(ids: seq<uint16>, id: uint16, k: nat)
    requires Sorted(ids)
    ensures RemovePos(ids, id) == Some(k) <==> k < |ids| && ids[k] == id
    ensures RemovePos(ids, id) == None <==> id !in ids
  {
    if i :| 0 <= i < |ids| && ids[i] == id {
      forall j | 0 <= j < |ids| && j != i ensures if j < i then ids[j] < id else ids[j] > id {
        Ordered(ids, j, i);
        Ordered(ids, i, j);
      }
      if i > 0 { BelowIs(ids, id, i); }
    }
  }

  /** Removing keeps a sorted list sorted and takes out one id. */
  lemma RemoveKeepsSorted(ids: seq<uint16>, k: nat)
    requires Sorted(ids) && k < |ids|
    ensures Sorted(Without(ids, k)) && ids[k] !in Without(ids, k)
    ensures forall x :: x in ids && x != ids[k] ==> x in Without(ids, k)
  {
    var after := Without(ids, k);
    assert forall i :: 0 <= i < k ==> after[i] == ids[i];
    assert forall i :: k <= i < |after| ==> after[i] == ids[i + 1];
    forall x | x in ids && x != ids[k] ensures x in after {
      var i :| 0 <= i < |ids| && ids[i] == x;
      assert x == if i < k then after[i] else after[i - 1];
    }
  }

  /** Removal undoes insertion. */
  lemma RemoveUndoesInsert<T>(s: seq<T>, k: nat, x: T)
    requires k <= |s|
    ensures Without(Insert(s, k, x), k) == s
  {
  }

  // ---- a new id ------------------------------------------------------------------------

  /** The end of the run 0, 1, 2, ... the list starts with, in 16 bits. */
  function FirstGap(ids: seq<uint16>, id: uint16): uint16
    decreases |ids|
  {
    if ids == [] || ids[0] != id then id else FirstGap(ids[1..], (id + 1) % 0x1_0000)
  }

  /** lwm2m_list_newId. */
  method NewId<T>(head: Node?<T>, ghost nodes: seq<Node<T>>) returns (id: uint16)
    requires Chain(head, nodes)
    ensures id == FirstGap(Ids(nodes), 0)
  {
    id := 0;
    var target := head;
    ghost var k, ids := 0, Ids(nodes);
    assert ids[0..] == ids;
    while target != null && id == target.id
      invariant 0 <= k <= |nodes| && target == At(nodes, k)
      invariant FirstGap(ids[k..], id) == FirstGap(ids, 0)
      decreases |nodes| - k
    {
      assert target.next == At(nodes, k + 1);
      assert ids[k..][0] == target.id && ids[k..][1..] == ids[k + 1..];
      id := (target.id + 1) % 0x1_0000;
      target := target.next;
      k := k + 1;
    }
    assert target != null ==> ids[k..][0] == target.id;
  }

  /** On a sorted list the new id is free exactly when the list does not hold all 65536 ids, and
      then it is the lowest free one. */
  lemma NewIdIsLowestFree(ids: seq<uint16>)
    requires Sorted(ids)
    ensures FirstGap(ids, 0) !in ids <==> |ids| < 0x1_0000
    ensures |ids| < 0x1_0000 ==> forall x: uint16 :: x < FirstGap(ids, 0) ==> x in ids
  {
    assert ids[0..] == ids;
    if |ids| < 0x1_0000 {
      GapFrom(ids, 0);
    } else {
      FullGap(ids, 0);
      IndexBounds(ids, 0);
    }
  }

  lemma {:induction false} FullGap(ids: seq<uint16>, k: nat)
    requires Sorted(ids) && 0x1_0000 <= |ids| && k <= |ids|
    ensures FirstGap(ids[k..], k % 0x1_0000) == 0
    decreases |ids| - k
  {
    hide Sorted;
    var rest := ids[k..];
    IndexBounds(ids, 0);
    if k < |ids| {
      IndexBounds(ids, k);
      assert rest[0] == k && rest[1..] == ids[k + 1..];
      FullGap(ids, k + 1);
    }
  }

  lemma {:induction false} IndexBounds(ids: seq<uint16>, k: nat)
    requires Sorted(ids) && k < |ids|
    ensures k <= ids[k] <= 0x1_0000 - |ids| + k
    decreases |ids| - k
  {
    AtLeastIndex(ids, k);
    if k + 1 < |ids| {
      IndexBounds(ids, k + 1);
      Ordered(ids, k, k + 1);
    }
  }

  lemma {:induction false} GapFrom(ids: seq<uint16>, k: nat)
    requires Sorted(ids) && |ids| < 0x1_0000 && k <= |ids|
    requires forall i :: 0 <= i < k ==> ids[i] == i
    ensures k < 0x1_0000
    ensures var g := FirstGap(ids[k..], k); g !in ids && forall x: uint16 :: x < g ==> x in ids
    decreases |ids| - k
  {
    hide Sorted;
    var rest := ids[k..];
    if k < |ids| && ids[k] == k {
      assert rest[1..] == ids[k + 1..];
      assert FirstGap(rest, k) == FirstGap(rest[1..], k + 1);
      GapFrom(ids, k + 1);
    } else {
      assert FirstGap(rest, k) == k;
      forall x: uint16 | x < k ensures x in ids { assert ids[x] == x; }
      NotAmong(ids, k);
    }
  }

  lemma NotAmong(ids: seq<uint16>, k: nat)
    requires Sorted(ids) && k <= |ids|
    requires forall i :: 0 <= i < k ==> ids[i] == i
    requires k < |ids| ==> ids[k] != k
    ensures forall i :: 0 <= i < |ids| ==> ids[i] != k
  {
    if k < |ids| { AtLeastIndex(ids, k); }
    forall i | 0 <= i < |ids| ensures ids[i] != k {
      if i > k { Ordered(ids, k, i); }
    }
  }

  lemma AtLeastIndex(ids: seq<uint16>, k: nat)
    requires Sorted(ids) && k < |ids|
    ensures ids[k] >= k
  {
    if k > 0 {
      AtLeastIndex(ids, k - 1);
      assert ids[k - 1] < ids[k];
    }
  }
}
