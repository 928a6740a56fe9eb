/** Bootstrap Delete-All of bootstrap.c, object deletion of objects.c and the server lists that
    liblwm2m.c rebuilds afterwards. Delete callbacks refuse some instances and remove the others. */
module Bootstrap {
  import opened Bytes
  import opened SortedList
  import opened Uri
  import Observe

  const SECURITY: uint16 := 0
  const EXCHANGE_LIFETIME := 247

  datatype Code = Deleted | NotFound | NotAllowed | Refused | NoError | Ignore

  /** An object with its instances; without a delete callback it is static. */
  datatype Object = Object(id: uint16, deletable: bool, instances: seq<uint16>, refused: set<uint16>)

  datatype Status =
    | Deregistered | HoldOff | Initiated | Pending | Finishing | Finished | Failing | Failed | Other

  /** A server of either list, by the id of its Security instance. */
  datatype Server = Server(id: uint16, status: Status, registration: int, dirty: bool)

  // ---- deleting ------------------------------------------------------------------------

  /** What a deletion leaves of an object, the last code, and the instances deleted on the way. */
  datatype Deletion = Deletion(instances: seq<uint16>, code: Code, deleted: seq<uint16>)

  /** object_delete for a whole object: its loop takes the head of the list until that is empty or
      refused. */
  function DeleteFrom(instances: seq<uint16>, refused: set<uint16>): Deletion {
    if instances == [] then Deletion([], Deleted, [])
    else if instances[0] in refused then Deletion(instances, Refused, [])
    else
      var rest := DeleteFrom(instances[1..], refused);
      rest.(deleted := [instances[0]] + rest.deleted)
  }

  function DeleteObject(o: Object): Deletion {
    if !o.deletable then Deletion(o.instances, NotAllowed, []) else DeleteFrom(o.instances, o.refused)
  }

  /** object_delete for one instance. */
  function DeleteInstance(o: Object, k: nat): Deletion
    requires k < |o.instances|
  {
    if !o.deletable then Deletion(o.instances, NotAllowed, [])
    else if o.instances[k] in o.refused then Deletion(o.instances, Refused, [])
    else Deletion(Without(o.instances, k), Deleted, [o.instances[k]])
  }

  /** The loop over the Security instances from the k-th on: the server's own one is passed over, and
      after a deletion the loop starts again at the head. */
  function DeleteOthers(o: Object, own: uint16, k: nat): Deletion
    requires k <= |o.instances|
    decreases |o.instances|, |o.instances| - k
  {
    if k == |o.instances| then Deletion(o.instances, Deleted, [])
    else if o.instances[k] == own then DeleteOthers(o, own, k + 1)
    else
      var d := DeleteInstance(o, k);
      if d.code != Deleted then d
      else
        var rest := DeleteOthers(o.(instances := d.instances), own, 0);
        rest.(deleted := d.deleted + rest.deleted)
  }

  /** observe_clear for each deleted instance. */
  function Unobserved(observed: seq<Observe.Observed>, id: uint16, deleted: seq<uint16>): seq<Observe.Observed>
    decreases |deleted|
  {
    if deleted == [] then observed
    else Unobserved(Observe.WithoutCleared(observed, RESET.(objectId := id, instanceId := deleted[0])), id, deleted[1..])
  }

  /** The context, with what a bootstrap server can read of each Security instance. */
  datatype Context = Context(
    objects: seq<Object>, observed: seq<Observe.Observed>, bootstrapServers: seq<Server>, servers: seq<Server>)

  function Tagged(servers: seq<Server>, except: Option<nat>): (r: seq<Server>)
    ensures |r| == |servers|
    ensures forall i :: 0 <= i < |r| ==> r[i] == if except == Some(i) then servers[i] else servers[i].(dirty := true)
  {
    seq(|servers|, i requires 0 <= i < |servers| => if except == Some(i) then servers[i] else servers[i].(dirty := true))
  }

  /** prv_tagAllServer. */
  function TagAll(c: Context, s: nat): Context {
    c.(bootstrapServers := Tagged(c.bootstrapServers, Some(s)), servers := Tagged(c.servers, None))
  }

  /** prv_checkServerStatus. */
  function Checked(s: Server, now: int): (Server, Code) {
    match s.status
    case HoldOff => (s.(status := Pending), NoError)
    case Initiated => (s.(status := Pending), NoError)
    case Deregistered => (s.(registration := now + EXCHANGE_LIFETIME), NoError)
    case Pending => (s.(registration := now + EXCHANGE_LIFETIME), NoError)
    case _ => (s, Ignore)
  }

  /** One object in the loop of bootstrap_handleDeleteAll, with the code of the one before. */
  function AfterObject(c: Context, i: nat, s: nat, code: Code): (Context, Code)
    requires i < |c.objects| && s < |c.bootstrapServers|
  {
    var o := c.objects[i];
    if o.id == SECURITY then
      var d := if code == Deleted then DeleteOthers(o, c.bootstrapServers[s].id, 0) else Deletion(o.instances, code, []);
      var after := c.(objects := c.objects[i := o.(instances := d.instances)], observed := Unobserved(c.observed, o.id, d.deleted));
      (if d.code == Deleted then TagAll(after, s) else after, d.code)
    else
      var d := DeleteObject(o);
      (c.(objects := c.objects[i := o.(instances := d.instances)], observed := Unobserved(c.observed, o.id, d.deleted)),
       if d.code == NotAllowed then Deleted else d.code)
  }

  function AfterObjects(c: Context, i: nat, s: nat, code: Code): (Context, Code)
    requires i <= |c.objects| && s < |c.bootstrapServers|
    decreases |c.objects| - i
  {
    if i == |c.objects| then (c, code)
    else
      var (d, next) := AfterObject(c, i, s, code);
      AfterObjects(d, i + 1, s, next)
  }

  /** bootstrap_handleDeleteAll from the s-th bootstrap server. */
  function AfterDeleteAll(c: Context, s: nat, now: int): (Context, Code)
    requires s < |c.bootstrapServers|
  {
    var (server, code) := Checked(c.bootstrapServers[s], now);
    var d := c.(bootstrapServers := c.bootstrapServers[s := server]);
    if code != NoError then (d, code) else AfterObjects(d, 0, s, Deleted)
  }

  // ---- the server lists ------------------------------------------------------------------

  /** What object_getServers finds out about a Security instance that is in neither list: a bootstrap
      server, a server whose Server instance it finds or not, or a failure. */
  datatype Info = BootstrapInfo | ServerInfo | NoServer | Bad

  function ServerIds(servers: seq<Server>): (ids: seq<uint16>)
    ensures |ids| == |servers| && forall i :: 0 <= i < |ids| ==> ids[i] == servers[i].id
  {
    seq(|servers|, i requires 0 <= i < |servers| => servers[i].id)
  }

  /** LWM2M_LIST_ADD of a server. */
  function Added(servers: seq<Server>, s: Server): seq<Server> {
    Insert(servers, InsertPos(ServerIds(servers), s.id), s)
  }

  /** The servers that are not dirty, added to a new list one by one. */
  function Kept(servers: seq<Server>, into: seq<Server>, reset: bool): seq<Server> {
    if servers == [] then into
    else
      var s := servers[0];
      Kept(servers[1..], if s.dirty then into else Added(into, if reset then s.(status := Deregistered) else s), reset)
  }

  function NewServer(id: uint16): Server {
    Server(id, Deregistered, 0, false)
  }

  /** object_getServers over the Security instances: both lists, or None on failure. */
  function WithServers(instances: seq<uint16>, info: map<uint16, Info>, bootstrapServers: seq<Server>, servers: seq<Server>)
    : Option<(seq<Server>, seq<Server>)>
  {
    if instances == [] then Some((bootstrapServers, servers))
    else
      var id := instances[0];
      if id in ServerIds(bootstrapServers) || id in ServerIds(servers) then
        WithServers(instances[1..], info, bootstrapServers, servers)
      else match if id in info then info[id] else Bad
        case BootstrapInfo => WithServers(instances[1..], info, Added(bootstrapServers, NewServer(id)), servers)
        case ServerInfo => WithServers(instances[1..], info, bootstrapServers, Added(servers, NewServer(id)))
        case NoServer => WithServers(instances[1..], info, bootstrapServers, servers)
        case Bad => None
  }

  /** prv_refreshServerList. */
  function Refreshed(instances: seq<uint16>, info: map<uint16, Info>, bootstrapServers: seq<Server>, servers: seq<Server>)
    : Option<(seq<Server>, seq<Server>)>
  {
    WithServers(instances, info, Kept(bootstrapServers, [], true), Kept(servers, [], false))
  }

  // ---- the loops -----------------------------------------------------------------------

  class Client {
    var objects: seq<Object>
    var observed: seq<Observe.Observed>
    var bootstrapServers: seq<Server>
    var servers: seq<Server>

    ghost function View(): Context
      reads this
    {
      Context(objects, observed, bootstrapServers, servers)
    }

    /** object_delete for one instance of the i-th object. */
    method DeleteInstanceAt(i: nat, k: nat) returns (code: Code)
      requires i < |objects| && k < |objects[i].instances|
      modifies this`objects, this`observed
      ensures
        var o := old(objects[i]);
        var d := DeleteInstance(o, k);
        && code == d.code && objects == old(objects)[i := o.(instances := d.instances)]
        && observed == Unobserved(old(observed), o.id, d.deleted)
    {
      var o := objects[i];
      if !o.deletable {
        return NotAllowed;
      }
      if o.instances[k] in o.refused {
        return Refused;
      }
      objects := objects[i := o.(instances := o.instances[..k] + o.instances[k + 1..])];
      ghost var was := observed;
      observed := Observe.WithoutCleared(observed, RESET.(objectId := o.id, instanceId := o.instances[k]));
      UnobservedOne(was, o.id, o.instances[k]);
      code := Deleted;
    }

    /** object_delete for the whole i-th object. */
    method DeleteWholeObject(i: nat) returns (code: Code)
      requires i < |objects|
      modifies this`objects, this`observed
      ensures
        var o := old(objects[i]);
        var d := DeleteObject(o);
        && code == d.code && objects == old(objects)[i := o.(instances := d.instances)]
        && observed == Unobserved(old(observed), o.id, d.deleted)
    {
      hide Observe.WithoutCleared;
      var o := objects[i];
      if !o.deletable {
        return NotAllowed;
      }
      code := Deleted;
      var left := o.instances;
      ghost var d := DeleteFrom(o.instances, o.refused);
      while left != [] && code == Deleted
        invariant |objects| == |old(objects)| && objects == old(objects)[i := o.(instances := left)]
        invariant code == Deleted ==>
          var rest := DeleteFrom(left, o.refused);
          && rest.instances == d.instances && rest.code == d.code
          && Unobserved(observed, o.id, rest.deleted) == Unobserved(old(observed), o.id, d.deleted)
        invariant code != Deleted ==>
          code == d.code && left == d.instances && observed == Unobserved(old(observed), o.id, d.deleted)
        decreases |left|, if code == Deleted then 1 else 0
      {
        if left[0] in o.refused {
          code := Refused;
        } else {
          var u := RESET.(objectId := o.id, instanceId := left[0]);
          left := left[1..];
          objects := objects[i := o.(instances := left)];
          observed := Observe.WithoutCleared(observed, u);
        }
      }
    }

    /** The loop over the Security instances in bootstrap_handleDeleteAll. */
    method DeleteOtherInstances(i: nat, own: uint16) returns (code: Code)
      requires i < |objects|
      modifies this`objects, this`observed
      ensures
        var o := old(objects[i]);
        var d := DeleteOthers(o, own, 0);
        && code == d.code && objects == old(objects)[i := o.(instances := d.instances)]
        && observed == Unobserved(old(observed), o.id, d.deleted)
    {
      hide Unobserved, Observe.WithoutCleared;
      code := Deleted;
      var k := 0;
      ghost var o := objects[i];
      ghost var d := DeleteOthers(o, own, 0);
      while k < |objects[i].instances| && code == Deleted
        invariant |objects| == |old(objects)| && objects == old(objects)[i := o.(instances := objects[i].instances)]
        invariant k <= |objects[i].instances|
        invariant code == Deleted ==>
          var rest := DeleteOthers(objects[i], own, k);
          && rest.instances == d.instances && rest.code == d.code
          && Unobserved(observed, o.id, rest.deleted) == Unobserved(old(observed), o.id, d.deleted)
        invariant code != Deleted ==>
          code == d.code && objects[i].instances == d.instances && observed == Unobserved(old(observed), o.id, d.deleted)
        decreases |objects[i].instances|, |objects[i].instances| - k, if code == Deleted then 1 else 0
      {
        if objects[i].instances[k] == own {
          k := k + 1;
        } else {
          ghost var was, step := observed, DeleteInstance(objects[i], k);
          ghost var rest := if step.code == Deleted then DeleteOthers(objects[i].(instances := step.instances), own, 0).deleted else [];
          code := DeleteInstanceAt(i, k);
          UnobservedMore(was, o.id, step.deleted, rest);
          if code == Deleted {
            k := 0;
          }
        }
      }
      if code == Deleted { UnobservedNone(observed, o.id); }
    }

    /** prv_tagAllServer. */
    method TagAllServers(s: nat)
      requires s < |bootstrapServers|
      modifies this`bootstrapServers, this`servers
      ensures View() == TagAll(old(View()), s)
    {
      var i := 0;
      while i < |bootstrapServers|
        invariant i <= |bootstrapServers| == |old(bootstrapServers)| && servers == old(servers)
        invariant forall j :: 0 <= j < |bootstrapServers| ==>
          bootstrapServers[j] == if j < i then Tagged(old(bootstrapServers), Some(s))[j] else old(bootstrapServers)[j]
      {
        if i != s {
          bootstrapServers := bootstrapServers[i := bootstrapServers[i].(dirty := true)];
        }
        i := i + 1;
      }
      assert bootstrapServers == Tagged(old(bootstrapServers), Some(s));
      i := 0;
      while i < |servers|
        invariant i <= |servers| == |old(servers)| && bootstrapServers == Tagged(old(bootstrapServers), Some(s))
        invariant forall j :: 0 <= j < |servers| ==> servers[j] == if j < i then Tagged(old(servers), None)[j] else old(servers)[j]
      {
        servers := servers[i := servers[i].(dirty := true)];
        i := i + 1;
      }
      assert servers == Tagged(old(servers), None);
    }

    /** bootstrap_handleDeleteAll. */
    method HandleDeleteAll(s: nat, now: int) returns (code: Code)
      requires s < |bootstrapServers|
      modifies this
      ensures (View(), code) == AfterDeleteAll(old(View()), s, now)
    {
      hide DeleteObject, DeleteOthers, Unobserved, TagAll;
      var (server, checked) := Checked(bootstrapServers[s], now);
      bootstrapServers := bootstrapServers[s := server];
      if checked != NoError {
        return checked;
      }
      code := Deleted;
      ghost var all := AfterObjects(View(), 0, s, Deleted);
      var i := 0;
      while i < |objects|
        invariant i <= |objects| && s < |bootstrapServers|
        invariant AfterObjects(View(), i, s, code) == all
        decreases |objects| - i
      {
        if objects[i].id == SECURITY {
          if code == Deleted {
            code := DeleteOtherInstances(i, bootstrapServers[s].id);
          } else {
            NothingDeleted(View(), i);
          }
          if code == Deleted {
            TagAllKeeps(View(), s);
            TagAllServers(s);
          }
        } else {
          code := DeleteWholeObject(i);
          if code == NotAllowed {
            code := Deleted;
          }
        }
        i := i + 1;
      }
    }

    /** prv_refreshServerList for a context with that Security object. */
    method RefreshServerList(security: nat, info: map<uint16, Info>) returns (ok: bool)
      requires security < |objects|
      modifies this`bootstrapServers, this`servers
      ensures
        var lists := Refreshed(objects[security].instances, info, old(bootstrapServers), old(servers));
        (ok <==> lists.Some?) && (ok ==> (bootstrapServers, servers) == lists.value)
    {
      bootstrapServers := KeepClean(bootstrapServers, true);
      servers := KeepClean(servers, false);
      ok := GetServers(objects[security].instances, info);
    }

    /** The loops of prv_refreshServerList. */
    static method KeepClean(servers: seq<Server>, reset: bool) returns (kept: seq<Server>)
      ensures kept == Kept(servers, [], reset)
    {
      kept := [];
      var left := servers;
      while left != []
        invariant Kept(left, kept, reset) == Kept(servers, [], reset)
        decreases |left|
      {
        var s := left[0];
        left := left[1..];
        if !s.dirty {
          if reset {
            s := s.(status := Deregistered);
          }
          kept := Added(kept, s);
        }
      }
    }

    /** The loop of object_getServers. */
    method GetServers(instances: seq<uint16>, info: map<uint16, Info>) returns (ok: bool)
      modifies this`bootstrapServers, this`servers
      ensures
        var lists := WithServers(instances, info, old(bootstrapServers), old(servers));
        (ok <==> lists.Some?) && (ok ==> (bootstrapServers, servers) == lists.value)
    {
      hide Added, ServerIds;
      var left := instances;
      ghost var all := WithServers(instances, info, bootstrapServers, servers);
      while left != []
        invariant WithServers(left, info, bootstrapServers, servers) == all
        decreases |left|
      {
        var id := left[0];
        if id !in ServerIds(bootstrapServers) && id !in ServerIds(servers) {
          match if id in info then info[id] else Bad {
            case BootstrapInfo => bootstrapServers := Added(bootstrapServers, NewServer(id));
            case ServerInfo => servers := Added(servers, NewServer(id));
            case NoServer =>
            case Bad => return false;
          }
        }
        left := left[1..];
      }
      ok := true;
    }
  }

  lemma UnobservedNone(observed: seq<Observe.Observed>, id: uint16)
    ensures Unobserved(observed, id, []) == observed
  {
  }

  lemma UnobservedOne(observed: seq<Observe.Observed>, id: uint16, instance: uint16)
    ensures Unobserved(observed, id, [instance]) ==
      Observe.WithoutCleared(observed, RESET.(objectId := id, instanceId := instance))
  {
    assert [instance][1..] == [];
  }

  lemma {:induction false} UnobservedMore(observed: seq<Observe.Observed>, id: uint16, a: seq<uint16>, b: seq<uint16>)
    ensures Unobserved(observed, id, a + b) == Unobserved(Unobserved(observed, id, a), id, b)
    decreases |a|
  {
    hide Observe.WithoutCleared;
    if a == [] {
      assert a + b == b;
    } else {
      assert (a + b)[1..] == a[1..] + b;
      UnobservedMore(Observe.WithoutCleared(observed, RESET.(objectId := id, instanceId := a[0])), id, a[1..], b);
    }
  }

  lemma TagAllKeeps(c: Context, s: nat)
    ensures |TagAll(c, s).bootstrapServers| == |c.bootstrapServers|
  {
  }

  lemma NothingDeleted(c: Context, i: nat)
    requires i < |c.objects|
    ensures c.objects[i := c.objects[i].(instances := c.objects[i].instances)] == c.objects
    ensures Unobserved(c.observed, c.objects[i].id, []) == c.observed
  {
  }
}
