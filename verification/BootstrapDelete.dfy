/** What Bootstrap Delete-All leaves behind. */
module BootstrapDelete {
  import opened Bytes
  import opened SortedList
  import opened Uri
  import Observe
  import opened Bootstrap

  // ---- one object ----------------------------------------------------------------------

  function OwnOnly(instances: seq<uint16>, own: uint16): (r: seq<uint16>)
    ensures forall x :: x in r <==> x == own && own in instances
  {
    if instances == [] then []
    else (if instances[0] == own then [own] else []) + OwnOnly(instances[1..], own)
  }

  lemma {:induction false} OwnOnlyAll(instances: seq<uint16>, own: uint16)
    requires forall i :: 0 <= i < |instances| ==> instances[i] == own
    ensures OwnOnly(instances, own) == instances
  {
    if instances != [] {
      OwnOnlyAll(instances[1..], own);
      assert [own] + instances[1..] == instances;
    }
  }

  lemma {:induction false} OwnOnlyWithout(instances: seq<uint16>, own: uint16, k: nat)
    requires k < |instances| && instances[k] != own
    ensures OwnOnly(Without(instances, k), own) == OwnOnly(instances, own)
  {
    if k == 0 {
      assert Without(instances, 0) == instances[1..];
      assert [] + OwnOnly(instances[1..], own) == OwnOnly(instances[1..], own);
    } else {
      assert Without(instances, k)[1..] == Without(instances[1..], k - 1);
      OwnOnlyWithout(instances[1..], own, k - 1);
    }
  }

  /** The instances that a deletion can take. */
  predicate Removable(o: Object, x: uint16) {
    o.deletable && x !in o.refused
  }

  /** The Security loop succeeds exactly if all other instances can be deleted, and then leaves the
      server's own instance and nothing else. */
  lemma {:induction false} DeleteOthersIff(o: Object, own: uint16, k: nat)
    requires k <= |o.instances| && forall i :: 0 <= i < k ==> o.instances[i] == own
    ensures
      var d := DeleteOthers(o, own, k);
      && (d.code == Deleted <==> forall x :: x in o.instances && x != own ==> Removable(o, x))
      && (d.code == Deleted ==> d.instances == OwnOnly(o.instances, own))
      && (d.code == Deleted ==> forall x :: x in o.instances ==> x in d.instances || x in d.deleted)
    decreases |o.instances|, |o.instances| - k
  {
    if k == |o.instances| {
      OwnOnlyAll(o.instances, own);
    } else if o.instances[k] == own {
      DeleteOthersIff(o, own, k + 1);
    } else {
      var x, rest := o.instances[k], o.(instances := Without(o.instances, k));
      assert x in o.instances;
      if Removable(o, x) {
        DeleteOthersIff(rest, own, 0);
        OwnOnlyWithout(o.instances, own, k);
        SameButOne(o.instances, k);
      }
    }
  }

  lemma SameButOne(instances: seq<uint16>, k: nat)
    requires k < |instances|
    ensures forall x :: x in instances <==> x in Without(instances, k) || x == instances[k]
  {
    forall x | x in instances ensures x in Without(instances, k) || x == instances[k] {
      var i :| 0 <= i < |instances| && instances[i] == x;
      if i < k { assert Without(instances, k)[i] == x; }
      if i > k { assert Without(instances, k)[i - 1] == x; }
    }
  }

  /** Deleting a whole object empties it exactly if none of its instances is refused. */
  lemma {:induction false} DeleteFromIff(instances: seq<uint16>, refused: set<uint16>)
    ensures
      var d := DeleteFrom(instances, refused);
      && (d.code == Deleted <==> forall x :: x in instances ==> x !in refused)
      && (d.code == Deleted <==> d.instances == []) && d.code in {Deleted, Refused}
      && (d.code == Deleted ==> d.deleted == instances)
  {
    if instances != [] {
      DeleteFromIff(instances[1..], refused);
      assert instances == [instances[0]] + instances[1..];
    }
  }

  // ---- observations ----------------------------------------------------------------------

  lemma {:induction false} ClearedOut(list: seq<Observe.Observed>, u: Uri, x: Observe.Observed)
    ensures x in Observe.WithoutCleared(list, u) <==> x in list && !Observe.Cleared(x.uri, u)
  {
    if list != [] {
      ClearedOut(list[1..], u, x);
    }
  }

  /** Whatever is observed afterwards was observed before, and is not in a deleted instance. */
  lemma {:induction false} UnobservedOut(observed: seq<Observe.Observed>, id: uint16, deleted: seq<uint16>, x: Observe.Observed)
    requires x in Unobserved(observed, id, deleted)
    ensures x in observed && !(x.uri.objectId == id && x.uri.instanceId in deleted)
    decreases |deleted|
  {
    if deleted != [] {
      var u := RESET.(objectId := id, instanceId := deleted[0]);
      UnobservedOut(Observe.WithoutCleared(observed, u), id, deleted[1..], x);
      ClearedOut(observed, u, x);
    }
  }

  // ---- all objects ---------------------------------------------------------------------

  /** No callback refuses to delete what Delete-All wants deleted. */
  predicate Succeeding(o: Object, own: uint16) {
    forall x :: x in o.instances && !(o.id == SECURITY && x == own) ==>
      if o.id == SECURITY then Removable(o, x) else o.deletable ==> x !in o.refused
  }

  /** What Delete-All is for: only the own Security instance is left, and static objects. */
  function Emptied(o: Object, own: uint16): Object {
    if o.id == SECURITY then o.(instances := OwnOnly(o.instances, own))
    else if o.deletable then o.(instances := [])
    else o
  }

  /** Every observed instance of the object is still there, if it was. */
  predicate NoneStale(was: Object, now: Object, observed: seq<Observe.Observed>) {
    forall x :: x in observed && x.uri.objectId == was.id && x.uri.instanceId in was.instances ==>
      x.uri.instanceId in now.instances
  }

  /** Both lists with everything tagged but the s-th bootstrap server. */
  function TagLists(bootstrapServers: seq<Server>, servers: seq<Server>, s: nat): (seq<Server>, seq<Server>) {
    (Tagged(bootstrapServers, Some(s)), Tagged(servers, None))
  }

  lemma TagTwice(bootstrapServers: seq<Server>, servers: seq<Server>, s: nat)
    ensures var once := TagLists(bootstrapServers, servers, s); TagLists(once.0, once.1, s) == once
  {
    var once := TagLists(bootstrapServers, servers, s);
    assert Tagged(once.0, Some(s)) == once.0 && Tagged(once.1, None) == once.1;
  }

  lemma AfterObjectIs(c: Context, i: nat, s: nat)
    requires i < |c.objects| && s < |c.bootstrapServers| && Succeeding(c.objects[i], c.bootstrapServers[s].id)
    ensures
      var (d, code) := AfterObject(c, i, s, Deleted);
      var o := c.objects[i];
      && code == Deleted && d.objects == c.objects[i := Emptied(o, c.bootstrapServers[s].id)]
      && (forall x :: x in d.observed ==> x in c.observed)
      && NoneStale(o, d.objects[i], d.observed)
      && (d.bootstrapServers, d.servers) ==
          (if o.id == SECURITY then TagLists(c.bootstrapServers, c.servers, s) else (c.bootstrapServers, c.servers))
      && |d.bootstrapServers| == |c.bootstrapServers| && d.bootstrapServers[s] == c.bootstrapServers[s]
  {
    hide Unobserved, DeleteOthers, DeleteFrom;
    var o, own := c.objects[i], c.bootstrapServers[s].id;
    var deletion := if o.id == SECURITY then DeleteOthers(o, own, 0) else DeleteObject(o);
    if o.id == SECURITY { DeleteOthersIff(o, own, 0); } else { DeleteFromIff(o.instances, o.refused); }
    forall x | x in Unobserved(c.observed, o.id, deletion.deleted)
      ensures x in c.observed && !(x.uri.objectId == o.id && x.uri.instanceId in deletion.deleted)
    {
      UnobservedOut(c.observed, o.id, deletion.deleted, x);
    }
    UnobservedNone(c.observed, o.id);
  }

  predicate HasSecurity(objects: seq<Object>) {
    objects != [] && (objects[0].id == SECURITY || HasSecurity(objects[1..]))
  }

  lemma {:induction false} AfterObjectsIs(c: Context, i: nat, s: nat)
    requires i <= |c.objects| && s < |c.bootstrapServers|
    requires forall j :: i <= j < |c.objects| ==> Succeeding(c.objects[j], c.bootstrapServers[s].id)
    ensures
      var (d, code) := AfterObjects(c, i, s, Deleted);
      var own := c.bootstrapServers[s].id;
      && code == Deleted && |d.objects| == |c.objects|
      && (forall j :: 0 <= j < |c.objects| ==> d.objects[j] == if j < i then c.objects[j] else Emptied(c.objects[j], own))
      && (forall x :: x in d.observed ==> x in c.observed)
      && (forall j :: i <= j < |c.objects| ==> NoneStale(c.objects[j], d.objects[j], d.observed))
      && (d.bootstrapServers, d.servers) ==
          (if HasSecurity(c.objects[i..]) then TagLists(c.bootstrapServers, c.servers, s)
           else (c.bootstrapServers, c.servers))
    decreases |c.objects| - i
  {
    hide AfterObject, TagLists, Emptied, Succeeding, NoneStale;
    if i < |c.objects| {
      AfterObjectIs(c, i, s);
      var next := AfterObject(c, i, s, Deleted).0;
      AfterObjectsIs(next, i + 1, s);
      var d := AfterObjects(next, i + 1, s, Deleted).0;
      StaleShrinks(c.objects[i], next.objects[i], next.observed, d.observed);
      assert c.objects[i..][1..] == c.objects[i + 1..] == next.objects[i + 1..];
      TagTwice(c.bootstrapServers, c.servers, s);
    }
  }

  lemma StaleShrinks(was: Object, now: Object, observed: seq<Observe.Observed>, fewer: seq<Observe.Observed>)
    requires NoneStale(was, now, observed) && forall x :: x in fewer ==> x in observed
    ensures NoneStale(was, now, fewer)
  {
  }

  // ---- the server lists ------------------------------------------------------------------

  lemma {:induction false} KeepsNone(servers: seq<Server>, into: seq<Server>, reset: bool)
    requires forall i :: 0 <= i < |servers| ==> servers[i].dirty
    ensures Kept(servers, into, reset) == into
    decreases |servers|
  {
    if servers != [] {
      assert servers[0].dirty;
      assert forall i :: 0 <= i < |servers[1..]| ==> servers[1..][i] == servers[i + 1];
      KeepsNone(servers[1..], into, reset);
    }
  }

  lemma {:induction false} KeepsOne(servers: seq<Server>, s: nat)
    requires s < |servers| && forall i :: 0 <= i < |servers| ==> (servers[i].dirty <==> i != s)
    ensures Kept(servers, [], true) == [servers[s].(status := Deregistered)]
    decreases |servers|
  {
    hide InsertPos;
    assert forall i :: 0 <= i < |servers[1..]| ==> servers[1..][i] == servers[i + 1];
    if s == 0 {
      var kept := servers[0].(status := Deregistered);
      assert Added([], kept) == [kept];
      KeepsNone(servers[1..], [kept], true);
    } else {
      assert servers[0].dirty;
      KeepsOne(servers[1..], s - 1);
    }
  }

  lemma {:induction false} FindsNone(instances: seq<uint16>, info: map<uint16, Info>, server: Server)
    requires forall i :: 0 <= i < |instances| ==> instances[i] == server.id
    ensures WithServers(instances, info, [server], []) == Some(([server], []))
  {
    if instances != [] {
      assert ServerIds([server])[0] == server.id;
      assert forall i :: 0 <= i < |instances[1..]| ==> instances[1..][i] == instances[i + 1];
      FindsNone(instances[1..], info, server);
    }
  }

  /** A refresh after everything else was tagged, with no other Security instance left. */
  lemma RefreshLeavesOne(instances: seq<uint16>, info: map<uint16, Info>, was: (seq<Server>, seq<Server>), s: nat)
    requires s < |was.0| && !was.0[s].dirty && forall i :: 0 <= i < |instances| ==> instances[i] == was.0[s].id
    ensures
      var lists := TagLists(was.0, was.1, s);
      Refreshed(instances, info, lists.0, lists.1) == Some(([was.0[s].(status := Deregistered)], []))
  {
    hide Kept, WithServers;
    var lists := TagLists(was.0, was.1, s);
    KeepsOne(lists.0, s);
    KeepsNone(lists.1, [], false);
    FindsNone(instances, info, was.0[s].(status := Deregistered));
  }

  // ---- the theorem ---------------------------------------------------------------------

  /** What Delete-All wants deleted can be deleted, and the bootstrap server may ask for it. */
  predicate Deletable(c: Context, s: nat, now: int) {
    && s < |c.bootstrapServers| && Checked(c.bootstrapServers[s], now).1 == NoError && !c.bootstrapServers[s].dirty
    && forall i :: 0 <= i < |c.objects| ==> Succeeding(c.objects[i], c.bootstrapServers[s].id)
  }

  /** After a Delete-All whose deletions succeed, the Security object holds at most the bootstrap
      server's own instance, every other deletable object is empty, the static ones are untouched, and
      no deleted instance is observed any more. */
  lemma DeleteAllEmpties(c: Context, s: nat, now: int)
    requires Deletable(c, s, now)
    ensures
      var (d, code) := AfterDeleteAll(c, s, now);
      var own := c.bootstrapServers[s].id;
      && code == Deleted && |d.objects| == |c.objects|
      && (forall i :: 0 <= i < |c.objects| ==> d.objects[i] == Emptied(c.objects[i], own))
      && (forall i :: 0 <= i < |c.objects| ==> NoneStale(c.objects[i], d.objects[i], d.observed))
  {
    hide AfterObjects, Succeeding, NoneStale, Emptied, HasSecurity, TagLists;
    var e := c.(bootstrapServers := c.bootstrapServers[s := Checked(c.bootstrapServers[s], now).0]);
    CheckedKeeps(c.bootstrapServers[s], now);
    AfterObjectsIs(e, 0, s);
  }

  lemma CheckedKeeps(s: Server, now: int)
    ensures Checked(s, now).0.id == s.id && Checked(s, now).0.dirty == s.dirty
  {
  }

  /** The next refresh then leaves that bootstrap server as the only server. */
  lemma DeleteAllLeavesTheBootstrapServer(c: Context, s: nat, now: int, security: nat, info: map<uint16, Info>)
    requires Deletable(c, s, now) && security < |c.objects| && c.objects[security].id == SECURITY
    ensures |AfterDeleteAll(c, s, now).0.objects| == |c.objects|
    ensures
      var d, own := AfterDeleteAll(c, s, now).0, c.bootstrapServers[s].id;
      exists server: Server :: server.id == own
        && Refreshed(d.objects[security].instances, info, d.bootstrapServers, d.servers) == Some(([server], []))
  {
    hide AfterObjects, Succeeding, NoneStale, HasSecurity, TagLists, Refreshed;
    var server := Checked(c.bootstrapServers[s], now).0;
    var e := c.(bootstrapServers := c.bootstrapServers[s := server]);
    CheckedKeeps(c.bootstrapServers[s], now);
    AfterObjectsIs(e, 0, s);
    assert e.objects[0..] == c.objects;
    SecurityIn(c.objects, security);
    var d := AfterDeleteAll(c, s, now).0;
    var left := d.objects[security].instances;
    assert left == OwnOnly(c.objects[security].instances, server.id);
    forall i | 0 <= i < |left| ensures left[i] == server.id { assert left[i] in left; }
    RefreshLeavesOne(left, info, (e.bootstrapServers, e.servers), s);
    assert server.(status := Deregistered).id == c.bootstrapServers[s].id;
  }

  lemma {:induction false} SecurityIn(objects: seq<Object>, k: nat)
    requires k < |objects| && objects[k].id == SECURITY
    ensures HasSecurity(objects)
  {
    if k > 0 {
      assert objects[1..][k - 1] == objects[k];
      SecurityIn(objects[1..], k - 1);
    }
  }

  /** The code that Delete-All answers is that of its last object alone: when that is not the Security
      object, what the others refuse to delete goes unnoticed. */
  lemma LastObjectDecides(c: Context, s: nat, now: int)
    requires s < |c.bootstrapServers| && Checked(c.bootstrapServers[s], now).1 == NoError
    requires c.objects != [] && c.objects[|c.objects| - 1].id != SECURITY
    ensures
      var last := c.objects[|c.objects| - 1];
      AfterDeleteAll(c, s, now).1 == Deleted <==> (last.deletable ==> forall x :: x in last.instances ==> x !in last.refused)
  {
    hide AfterObjects;
    var e := c.(bootstrapServers := c.bootstrapServers[s := Checked(c.bootstrapServers[s], now).0]);
    LastCode(e, 0, s, Deleted);
  }

  lemma {:induction false} LastCode(c: Context, i: nat, s: nat, code: Code)
    requires i < |c.objects| && s < |c.bootstrapServers| && c.objects[|c.objects| - 1].id != SECURITY
    ensures
      var last := c.objects[|c.objects| - 1];
      AfterObjects(c, i, s, code).1 == Deleted <==> (last.deletable ==> forall x :: x in last.instances ==> x !in last.refused)
    decreases |c.objects| - i
  {
    hide Unobserved, DeleteOthers, DeleteFrom;
    var next, after := AfterObject(c, i, s, code).0, AfterObject(c, i, s, code).1;
    if i + 1 < |c.objects| {
      LastCode(next, i + 1, s, after);
    } else {
      var last := c.objects[i];
      DeleteFromIff(last.instances, last.refused);
      assert AfterObjects(next, i + 1, s, after) == (next, after);
      assert AfterObjects(c, i, s, code).1 == after;
    }
  }
}
