/** Client registration of registration.c: attempts and sequences per server, ordered and blocking
    registrations, and the step that sends what is due. The Server object is present and its
    resources are read through `Config`; sending a registration or an update succeeds. */
module Registration {
  import opened Bytes

  const ATTEMPTS := 5
  const ATTEMPT_DELAY := 60
  const SEQUENCES := 1
  const SEQUENCE_DELAY := 86400
  const LIMIT := 254
  const MAX_TRANSMIT_WAIT := 93

  const CREATED: byte := 65
  const CHANGED: byte := 68
  const CONTINUE: byte := 95
  const TOO_LARGE: byte := 141

  datatype Status =
    | Deregistered | HoldOff | RegPending | Registered | UpdateNeeded | FullUpdateNeeded
    | UpdatePending | DeregPending | Failed

  /** One resource of a Server object instance: its value, 4.04, or any other failure. */
  datatype Read<T> = Value(value: T) | Missing | Unreadable

  datatype Config = Config(
    order: Read<nat>, blocking: Read<bool>, bootstrap: Read<bool>, initialDelay: Read<nat>,
    attempts: Read<nat>, attemptDelay: Read<nat>, sequences: Read<nat>, sequenceDelay: Read<nat>)

  /** `sent` counts the registrations sent since the last start; it is bookkeeping. */
  datatype Server = Server(
    config: Config, lifetime: nat, status: Status, registration: int,
    attempt: byte, sequence: byte, sent: nat)

  /** The servers in list order, and whether the context's state was set to
      STATE_BOOTSTRAP_REQUIRED. */
  datatype Context = Context(servers: seq<Server>, bootstrap: bool)

  /** What the registration callback is given: nothing on expiry, otherwise the code and the block
      number of a Block1 option. */
  datatype Reply = NoReply | Reply(code: byte, block1: Option<nat>)

  /** Replies after which the same registration goes on block by block. */
  predicate Continues(r: Reply) {
    r.Reply? && (r.code == CONTINUE || (r.code == TOO_LARGE && (r.block1.None? || r.block1.value == 0)))
  }

  /** prv_getRegistrationAttemptLimit and prv_getRegistrationSequenceLimit: the limit and the delay. */
  function Limits(count: Read<nat>, delay: Read<nat>, defaultCount: nat, defaultDelay: nat): Option<(nat, nat)> {
    if count.Unreadable? || delay.Unreadable? then None
    else
      Some((Min(if count.Value? then count.value else defaultCount, LIMIT),
            if delay.Value? then delay.value else defaultDelay))
  }

  function AttemptLimits(c: Config): Option<(nat, nat)> {
    Limits(c.attempts, c.attemptDelay, ATTEMPTS, ATTEMPT_DELAY)
  }

  function SequenceLimits(c: Config): Option<(nat, nat)> {
    Limits(c.sequences, c.sequenceDelay, SEQUENCES, SEQUENCE_DELAY)
  }

  // ---- starting --------------------------------------------------------------------------

  /** prv_startRegistration. */
  function Begin(s: Server, now: int): Option<Server> {
    if s.config.initialDelay.Unreadable? then None
    else
      var delay := if s.config.initialDelay.Value? then s.config.initialDelay.value else 0;
      Some(s.(registration := now + delay, status := HoldOff))
  }

  predicate Candidate(s: Server, restartFailed: bool) {
    s.status == Deregistered || (restartFailed && s.status == Failed)
  }

  function Reset(s: Server): Server {
    s.(attempt := 0, sequence := 0, sent := 0)
  }

  /** The loop of registration_start from the i-th server on; `first` is the lowest ordered
      candidate so far. */
  function StartLoop(servers: seq<Server>, i: nat, restartFailed: bool, now: int, first: Option<nat>)
    : (r: (seq<Server>, bool, Option<nat>))
    requires i <= |servers|
    requires first.Some? ==> first.value < |servers| && servers[first.value].config.order.Value?
    ensures |r.0| == |servers|
    ensures r.2.Some? ==> r.2.value < |servers|
    decreases |servers| - i
  {
    if i == |servers| then (servers, true, first)
    else if !Candidate(servers[i], restartFailed) then StartLoop(servers, i + 1, restartFailed, now, first)
    else
      var s := Reset(servers[i]);
      match s.config.order
      case Unreadable => (servers[i := s], false, first)
      case Missing =>
        (match Begin(s, now)
         case None => (servers[i := s], false, first)
         case Some(b) => StartLoop(servers[i := b], i + 1, restartFailed, now, first))
      case Value(order) =>
        var lower := first.None? || order < servers[first.value].config.order.value;
        StartLoop(servers[i := s], i + 1, restartFailed, now, if lower then Some(i) else first)
  }

  /** registration_start. */
  function Started(servers: seq<Server>, restartFailed: bool, now: int): (r: (seq<Server>, bool))
    ensures |r.0| == |servers|
  {
    var (after, ok, first) := StartLoop(servers, 0, restartFailed, now, None);
    if first.None? then (after, ok)
    else match Begin(after[first.value], now)
      case None => (after, false)
      case Some(b) => (after[first.value := b], true)
  }

  // ---- replies ---------------------------------------------------------------------------

  /** A sequence of attempts has failed and the blocking registrations behind it are given up. */
  function Blocked(s: Server): Server {
    if s.status == Deregistered && s.config.order.Value? then s.(status := Failed) else s
  }

  function AllBlocked(servers: seq<Server>): (r: seq<Server>)
    ensures |r| == |servers| && forall i :: 0 <= i < |r| ==> r[i] == Blocked(servers[i])
  {
    seq(|servers|, i requires 0 <= i < |servers| => Blocked(servers[i]))
  }

  predicate Blocking(c: Config) {
    c.order.Value? && c.blocking == Value(true)
  }

  /** Whether a failed first sequence, or a success, hands on to the next ordered server. */
  predicate HandsOnFailure(s: Server) {
    s.config.order.Value? && !s.config.blocking.Unreadable? && s.config.blocking != Value(true) && s.sequence == 1
  }

  predicate HandsOnSuccess(s: Server) {
    && s.config.order.Value?
    && (s.sequence == 1 || (!s.config.blocking.Unreadable? && s.config.blocking != Value(true)))
  }

  function WithServer(c: Context, i: nat, s: Server): Context
    requires i < |c.servers|
  {
    c.(servers := c.servers[i := s])
  }

  /** prv_handleRegistrationSequenceFailure. */
  function AfterSequenceFailure(c: Context, i: nat, now: int): (r: Context)
    requires i < |c.servers|
    ensures |r.servers| == |c.servers|
  {
    var u := if HandsOnFailure(c.servers[i]) then c.(servers := Started(c.servers, false, now).0) else c;
    var s := u.servers[i];
    match SequenceLimits(s.config)
    case None => WithServer(u, i, s.(status := Failed))
    case Some(limits) =>
      if s.sequence >= limits.0 then
        var v := WithServer(u, i, s.(status := Failed));
        if s.config.bootstrap != Value(false) then v.(bootstrap := true)
        else if Blocking(c.servers[i].config) then v.(servers := AllBlocked(v.servers))
        else v
      else WithServer(u, i, s.(registration := now + limits.1, status := HoldOff, attempt := 0))
  }

  /** prv_handleRegistrationAttemptFailure. */
  function AfterAttemptFailure(c: Context, i: nat, now: int): (r: Context)
    requires i < |c.servers| && c.servers[i].attempt > 0
    ensures |r.servers| == |c.servers|
  {
    var s := c.servers[i];
    match AttemptLimits(s.config)
    case None => WithServer(c, i, s.(status := Failed))
    case Some(limits) =>
      if s.attempt >= limits.0 then AfterSequenceFailure(c, i, now)
      else WithServer(c, i, s.(registration := now + limits.1 * Pow2(s.attempt - 1), status := HoldOff))
  }

  /** prv_handleRegistrationReply for the i-th server. */
  function AfterReply(c: Context, i: nat, r: Reply, now: int): (d: Context)
    requires i < |c.servers| && (c.servers[i].status == RegPending ==> c.servers[i].attempt > 0)
    ensures |d.servers| == |c.servers|
  {
    if c.servers[i].status != RegPending then c
    else
      var s := c.servers[i].(registration := now);
      var u := WithServer(c, i, s);
      if Continues(r) then u
      else if r.Reply? && r.code == CREATED then
        var v := WithServer(u, i, s.(status := Registered));
        if HandsOnSuccess(s) then v.(servers := Started(v.servers, false, now).0) else v
      else AfterAttemptFailure(u, i, now)
  }

  /** prv_handleRegistrationUpdateReply. */
  function UpdateReply(s: Server, r: Reply, now: int): Server {
    if s.status != UpdatePending then s
    else if Continues(r) then s.(registration := now)
    else s.(registration := now, status := if r.Reply? && r.code == CHANGED then Registered else Failed)
  }

  // ---- the step --------------------------------------------------------------------------

  /** Seconds after a registration at which it is renewed. */
  function NextUpdate(lifetime: nat): nat {
    if MAX_TRANSMIT_WAIT < lifetime then lifetime - MAX_TRANSMIT_WAIT else lifetime / 2
  }

  /** prv_register, the message being sent. */
  function Register(s: Server): Server {
    s.(sequence := (s.sequence + if s.attempt == 0 then 1 else 0) % 0x100,
       attempt := (s.attempt + 1) % 0x100, status := RegPending, sent := s.sent + 1)
  }

  /** One round of the client half of registration_step. */
  function StepServer(s: Server, now: int): Server {
    match s.status
    case HoldOff => if s.registration <= now then Register(s) else s
    case Registered => if s.registration + NextUpdate(s.lifetime) <= now then s.(status := UpdatePending) else s
    case UpdateNeeded => s.(status := UpdatePending)
    case FullUpdateNeeded => s.(status := UpdatePending)
    case _ => s
  }

  /** The time left before the server needs another step, if it waits for a time. */
  function Wait(s: Server, now: int): Option<int> {
    if s.status == HoldOff && s.registration > now then Some(s.registration - now)
    else if s.status == Registered && s.registration + NextUpdate(s.lifetime) > now then
      Some(s.registration + NextUpdate(s.lifetime) - now)
    else None
  }

  function AfterStep(servers: seq<Server>, now: int): (r: seq<Server>)
    ensures |r| == |servers| && forall i :: 0 <= i < |r| ==> r[i] == StepServer(servers[i], now)
  {
    seq(|servers|, i requires 0 <= i < |servers| => StepServer(servers[i], now))
  }

  /** The client part of a context. */
  class Client {
    var servers: seq<Server>
    var bootstrap: bool

    ghost function View(): Context
      reads this
    {
      Context(servers, bootstrap)
    }

    /** registration_start. */
    method Start(restartFailed: bool, now: int) returns (ok: bool)
      modifies this`servers
      ensures (servers, ok) == Started(old(servers), restartFailed, now)
    {
      ok := true;
      var i := 0;
      var first: Option<nat> := None;
      while i < |servers| && ok
        invariant i <= |servers|
        invariant first.Some? ==> first.value < |servers| && servers[first.value].config.order.Value?
        invariant var loop := StartLoop(old(servers), 0, restartFailed, now, None);
          if ok then StartLoop(servers, i, restartFailed, now, first) == loop else loop == (servers, false, first)
        decreases |servers| - i
      {
        ghost var before := servers;
        if servers[i].status == Deregistered || (restartFailed && servers[i].status == Failed) {
          servers := servers[i := servers[i].(attempt := 0, sequence := 0, sent := 0)];
          match servers[i].config.order {
            case Unreadable => ok := false;
            case Value(order) =>
              if first.None? || order < servers[first.value].config.order.value {
                first := Some(i);
              }
            case Missing =>
              ok := StartServer(i, now);
              assert servers == before[i := servers[i]];
          }
        }
        i := i + 1;
      }
      if first.Some? {
        ok := StartServer(first.value, now);
      }
    }

    /** prv_startRegistration. */
    method StartServer(i: nat, now: int) returns (ok: bool)
      requires i < |servers|
      modifies this`servers
      ensures match Begin(old(servers[i]), now)
              case None => !ok && servers == old(servers)
              case Some(b) => ok && servers == old(servers)[i := b]
    {
      var delay := 0;
      match servers[i].config.initialDelay {
        case Unreadable => return false;
        case Missing =>
        case Value(d) => delay := d;
      }
      servers := servers[i := servers[i].(registration := now + delay, status := HoldOff)];
      ok := true;
    }

    /** prv_handleRegistrationSequenceFailure. */
    method HandleSequenceFailure(i: nat, now: int)
      requires i < |servers|
      modifies this
      ensures View() == AfterSequenceFailure(old(View()), i, now)
    {
      var ordered, blocking := false, false;
      if servers[i].config.order.Value? {
        ordered := true;
        if !servers[i].config.blocking.Unreadable? {
          blocking := servers[i].config.blocking == Value(true);
          if !blocking && servers[i].sequence == 1 {
            var _ := Start(false, now);
          }
        }
      }
      var limits := SequenceLimits(servers[i].config);
      if limits.None? {
        servers := servers[i := servers[i].(status := Failed)];
      } else if servers[i].sequence >= limits.value.0 {
        servers := servers[i := servers[i].(status := Failed)];
        if servers[i].config.bootstrap != Value(false) {
          bootstrap := true;
        } else if ordered && blocking {
          FailOrdered();
        }
      } else {
        servers := servers[i := servers[i].(registration := now + limits.value.1, status := HoldOff, attempt := 0)];
      }
    }

    /** The loop of prv_handleRegistrationSequenceFailure over the ordered registrations that have
        not been started. */
    method FailOrdered()
      modifies this`servers
      ensures servers == AllBlocked(old(servers))
    {
      var i := 0;
      while i < |servers|
        invariant i <= |servers| == |old(servers)|
        invariant forall j :: 0 <= j < |servers| ==> servers[j] == if j < i then Blocked(old(servers[j])) else old(servers[j])
      {
        if servers[i].status == Deregistered && servers[i].config.order.Value? {
          servers := servers[i := servers[i].(status := Failed)];
        }
        i := i + 1;
      }
    }

    /** prv_handleRegistrationReply with prv_handleRegistrationAttemptFailure. */
    method HandleReply(i: nat, r: Reply, now: int)
      requires i < |servers| && (servers[i].status == RegPending ==> servers[i].attempt > 0)
      modifies this
      ensures View() == AfterReply(old(View()), i, r, now)
    {
      if servers[i].status == RegPending {
        servers := servers[i := servers[i].(registration := now)];
        if Continues(r) {
          return;
        }
        if r.Reply? && r.code == CREATED {
          servers := servers[i := servers[i].(status := Registered)];
          if HandsOnSuccess(servers[i]) {
            var _ := Start(false, now);
          }
        } else {
          var limits := AttemptLimits(servers[i].config);
          if limits.None? {
            servers := servers[i := servers[i].(status := Failed)];
          } else if servers[i].attempt >= limits.value.0 {
            HandleSequenceFailure(i, now);
          } else {
            var delay := limits.value.1 * Pow2(servers[i].attempt - 1);
            servers := servers[i := servers[i].(registration := now + delay, status := HoldOff)];
          }
        }
      }
    }

    /** registration_step. The timeout comes back no later than any server's next due time. */
    method Step(now: int, timeout: int) returns (left: int)
      modifies this`servers
      ensures servers == AfterStep(old(servers), now)
      ensures left <= timeout
      ensures forall i :: 0 <= i < |servers| && Wait(old(servers[i]), now).Some? ==> left <= Wait(old(servers[i]), now).value
      ensures left == timeout || exists i :: 0 <= i < |servers| && Wait(old(servers[i]), now) == Some(left)
    {
      left := timeout;
      var i := 0;
      while i < |servers|
        invariant i <= |servers| == |old(servers)|
        invariant forall j :: 0 <= j < |servers| ==> servers[j] == if j < i then StepServer(old(servers[j]), now) else old(servers[j])
        invariant left <= timeout
        invariant forall j :: 0 <= j < i && Wait(old(servers[j]), now).Some? ==> left <= Wait(old(servers[j]), now).value
        invariant left == timeout || exists j :: 0 <= j < i && Wait(old(servers[j]), now) == Some(left)
      {
        var s := servers[i];
        match s.status {
          case HoldOff =>
            var interval := s.registration - now;
            if 0 >= interval {
              var sequence: int := s.sequence;
              if 0 == s.attempt {
                sequence := (sequence + 1) % 0x100;
              }
              servers := servers[i := s.(sequence := sequence, attempt := (s.attempt + 1) % 0x100,
                                         status := RegPending, sent := s.sent + 1)];
            } else if interval <= left {
              left := interval;
            }
          case Registered =>
            var nextUpdate := s.lifetime;
            if MAX_TRANSMIT_WAIT < nextUpdate {
              nextUpdate := nextUpdate - MAX_TRANSMIT_WAIT;
            } else {
              nextUpdate := nextUpdate / 2;
            }
            var interval := s.registration + nextUpdate - now;
            if 0 >= interval {
              servers := servers[i := s.(status := UpdatePending)];
            } else if interval < left {
              left := interval;
            }
          case UpdateNeeded => servers := servers[i := s.(status := UpdatePending)];
          case FullUpdateNeeded => servers := servers[i := s.(status := UpdatePending)];
          case _ =>
        }
        i := i + 1;
      }
    }
  }
}
