/**
  The terminal lease registry: shared writers, observers, takeover, promotion, expiry and the
  window of accepted commands. The clock is an argument and lease ids come from a counter.
*/
module Leases {
  import opened Wrappers

  type Id = string

  const MAX_COMMAND_IDS: nat := 1024
  const DEFAULT_LEASE_TTL_MS: int := 15_000

  datatype Mode = Writer | Observer

  /** Unique over the life of the registry. */
  datatype LeaseId = LeaseId(terminal: Id, serial: nat)

  datatype Lease = Lease(
    id: LeaseId, terminal: Id, epoch: Id, generation: nat, principal: Id, connection: Id,
    mode: Mode, acquiredAt: int, expiresAt: int)

  datatype ErrorCode =
    | TerminalNotFound
    | TerminalEpochStale
    | WriterLeaseRequired
    | WriterLeaseStale
    | LeaseNotHeld
    | CommandDuplicate

  datatype Reply =
    | Granted(lease: Lease)
    | Done
    | Listed(leases: seq<Lease>)
    | Refused(code: ErrorCode)

  datatype Request = Request(terminal: Id, epoch: Id, principal: Id, connection: Id, mode: Mode)

  datatype Fence = Fence(terminal: Id, epoch: Id, lease: LeaseId, generation: nat, principal: Id, connection: Id, command: Id)

  /** `writers` and `observers` are in order of insertion, as is `commands`. */
  datatype State = State(
    epoch: Id, generation: nat, primary: Option<LeaseId>,
    writers: seq<Lease>, observers: seq<Lease>, commands: seq<Id>)

  datatype Registry = Registry(terminals: map<Id, State>, nextSerial: nat, ttl: int)

  // ----- lists of leases -----

  function Filter(leases: seq<Lease>, keep: Lease -> bool): seq<Lease> {
    if leases == [] then []
    else if keep(leases[0]) then [leases[0]] + Filter(leases[1..], keep)
    else Filter(leases[1..], keep)
  }

  function Alive(leases: seq<Lease>, now: int): seq<Lease> {
    Filter(leases, (l: Lease) => l.expiresAt > now)
  }

  function Without(leases: seq<Lease>, id: LeaseId): seq<Lease> {
    Filter(leases, (l: Lease) => l.id != id)
  }

  function NotConnected(leases: seq<Lease>, connection: Id): seq<Lease> {
    Filter(leases, (l: Lease) => l.connection != connection)
  }

  function NotHeld(leases: seq<Lease>, principal: Id, connection: Id): seq<Lease> {
    Filter(leases, (l: Lease) => l.principal != principal || l.connection != connection)
  }

  function Find(leases: seq<Lease>, id: LeaseId): (found: Option<Lease>)
    ensures found.Some? ==> found.value in leases && found.value.id == id
    ensures found.None? ==> forall l :: l in leases ==> l.id != id
  {
    if leases == [] then None else if leases[0].id == id then Some(leases[0]) else Find(leases[1..], id)
  }

  function FindHolder(leases: seq<Lease>, principal: Id, connection: Id): (found: Option<Lease>)
    ensures found.Some? ==> found.value in leases && found.value.principal == principal && found.value.connection == connection
    ensures found.None? ==> forall l :: l in leases ==> l.principal != principal || l.connection != connection
  {
    if leases == [] then None
    else if leases[0].principal == principal && leases[0].connection == connection then Some(leases[0])
    else FindHolder(leases[1..], principal, connection)
  }

  function Extended(leases: seq<Lease>, id: LeaseId, expiresAt: int): (extended: seq<Lease>)
    ensures |extended| == |leases|
    ensures forall i :: 0 <= i < |leases| ==>
              extended[i] == if leases[i].id == id then leases[i].(expiresAt := expiresAt) else leases[i]
  {
    seq(|leases|, i requires 0 <= i < |leases| =>
      if leases[i].id == id then leases[i].(expiresAt := expiresAt) else leases[i])
  }

  function First(leases: seq<Lease>): Option<LeaseId> {
    if leases == [] then None else Some(leases[0].id)
  }

  // ----- one terminal -----

  function Purged(s: State, now: int): State {
    var writers := Alive(s.writers, now);
    var primary := if s.primary.Some? && Find(writers, s.primary.value).Some? then s.primary else First(writers);
    s.(writers := writers, primary := primary, observers := Alive(s.observers, now))
  }

  function FindLease(s: State, id: LeaseId): Option<Lease> {
    var writer := Find(s.writers, id);
    if writer.Some? then writer else Find(s.observers, id)
  }

  function Renewed(s: State, id: LeaseId, expiresAt: int): (State, Reply) {
    var lease := FindLease(s, id);
    if lease.None? then (s, Refused(WriterLeaseStale))
    else
      (if Find(s.writers, id).Some? then s.(writers := Extended(s.writers, id, expiresAt))
       else s.(observers := Extended(s.observers, id, expiresAt)),
       Granted(lease.value.(expiresAt := expiresAt)))
  }

  function Issued(s: State, request: Request, serial: nat, now: int, ttl: int): Lease {
    Lease(LeaseId(request.terminal, serial), request.terminal, s.epoch, s.generation, request.principal, request.connection,
          request.mode, now, now + ttl)
  }

  function AcquiredWriter(purged: State, request: Request, serial: nat, now: int, ttl: int): (State, Reply) {
    var existing := FindHolder(purged.writers, request.principal, request.connection);
    if existing.Some? then Renewed(purged, existing.value.id, now + ttl)
    else
      var observer := FindHolder(purged.observers, request.principal, request.connection);
      var s := if observer.Some? then purged.(observers := Without(purged.observers, observer.value.id)) else purged;
      var s := if s.primary.None? then s.(generation := s.generation + 1) else s;
      var lease := Issued(s, request, serial, now, ttl);
      (s.(writers := s.writers + [lease], primary := if s.primary.None? then Some(lease.id) else s.primary), Granted(lease))
  }

  function AcquiredObserver(purged: State, request: Request, serial: nat, now: int, ttl: int): (State, Reply) {
    var existing := FindHolder(purged.observers, request.principal, request.connection);
    if existing.Some? then Renewed(purged, existing.value.id, now + ttl)
    else
      var lease := Issued(purged, request, serial, now, ttl);
      (purged.(observers := purged.observers + [lease]), Granted(lease))
  }

  function Acquired(s: State, request: Request, serial: nat, now: int, ttl: int): (State, Reply) {
    if request.mode.Writer? then AcquiredWriter(Purged(s, now), request, serial, now, ttl)
    else AcquiredObserver(Purged(s, now), request, serial, now, ttl)
  }

  function Reheld(s: State, id: LeaseId, principal: Id, connection: Id, now: int, ttl: int): (State, Reply) {
    var s := Purged(s, now);
    var lease := FindLease(s, id);
    if lease.None? || lease.value.principal != principal || lease.value.connection != connection
    then (s, Refused(WriterLeaseStale))
    else Renewed(s, id, now + ttl)
  }

  /** Release does not purge first. */
  function Released(s: State, id: LeaseId, principal: Id, connection: Id): (State, Reply) {
    var lease := FindLease(s, id);
    if lease.None? then (s, Done)
    else if lease.value.principal != principal || lease.value.connection != connection then (s, Refused(LeaseNotHeld))
    else
      var writers := Without(s.writers, id);
      (s.(writers := writers, primary := if s.primary == Some(id) then First(writers) else s.primary,
          observers := Without(s.observers, id)), Done)
  }

  /** A disconnected last writer is succeeded by the first observer left. */
  function Disconnected(s: State, connection: Id, serial: nat, now: int, ttl: int): State {
    var purged := Purged(s, now);
    var writers, observers := NotConnected(purged.writers, connection), NotConnected(purged.observers, connection);
    var primary := if purged.primary.Some? && Find(writers, purged.primary.value).Some? then purged.primary else First(writers);
    var left := purged.(writers := writers, observers := observers, primary := primary);
    if |writers| < |purged.writers| && writers == [] && observers != [] then
      var s := left.(generation := left.generation + 1, observers := observers[1..]);
      var lease := Issued(s, Request(observers[0].terminal, observers[0].epoch, observers[0].principal, observers[0].connection, Writer),
                          serial, now, ttl);
      s.(primary := Some(lease.id), writers := [lease])
    else left
  }

  /** Takeover does not purge first. */
  function TakenOver(s: State, terminal: Id, principal: Id, connection: Id, serial: nat, now: int, ttl: int): (State, Reply) {
    var s := s.(writers := [], observers := NotHeld(s.observers, principal, connection), generation := s.generation + 1);
    var lease := Issued(s, Request(terminal, s.epoch, principal, connection, Writer), serial, now, ttl);
    (s.(primary := Some(lease.id), writers := [lease]), Granted(lease))
  }

  function Transferred(s: State, terminal: Id, id: LeaseId, principal: Id, connection: Id, toPrincipal: Id, toConnection: Id,
                       serial: nat, now: int, ttl: int): (State, Reply)
  {
    var s := Purged(s, now);
    var writer := Find(s.writers, id);
    if writer.None? then (s, Refused(WriterLeaseStale))
    else if writer.value.principal != principal || writer.value.connection != connection then (s, Refused(LeaseNotHeld))
    else TakenOver(s, terminal, toPrincipal, toConnection, serial, now, ttl)
  }

  function LastCommands(commands: seq<Id>): (last: seq<Id>)
    ensures |last| <= MAX_COMMAND_IDS
  {
    if |commands| > MAX_COMMAND_IDS then commands[|commands| - MAX_COMMAND_IDS..] else commands
  }

  function Authorized(s: State, fence: Fence, now: int, ttl: int): (State, Reply) {
    var s := Purged(s, now);
    var writer := Find(s.writers, fence.lease);
    if writer.None? then
      (s, Refused(if s.primary.Some? || s.writers != [] then WriterLeaseStale else WriterLeaseRequired))
    else if writer.value.epoch != fence.epoch || writer.value.generation != fence.generation
            || writer.value.principal != fence.principal || writer.value.connection != fence.connection
    then (s, Refused(WriterLeaseStale))
    else if fence.command in s.commands then (s, Refused(CommandDuplicate))
    else Renewed(s.(commands := LastCommands(s.commands + [fence.command])), fence.lease, now + ttl)
  }

  // ----- the registry -----

  datatype Op =
    | Register(terminal: Id, epoch: Id)
    | Unregister(terminal: Id, oldEpoch: Option<Id>)
    | Acquire(request: Request)
    | Renew(terminal: Id, epoch: Id, lease: LeaseId, principal: Id, connection: Id)
    | Release(terminal: Id, epoch: Id, lease: LeaseId, principal: Id, connection: Id)
    | ReleaseConnection(connection: Id)
    | Takeover(terminal: Id, epoch: Id, principal: Id, connection: Id)
    | Transfer(terminal: Id, epoch: Id, lease: LeaseId, principal: Id, connection: Id, toPrincipal: Id, toConnection: Id)
    | Authorize(fence: Fence)
    | ReadWriter(terminal: Id)
    | ListLeases(terminal: Id)

  function Put(r: Registry, terminal: Id, outcome: (State, Reply)): (Registry, Reply) {
    (r.(terminals := r.terminals[terminal := outcome.0], nextSerial := r.nextSerial + 1), outcome.1)
  }

  predicate Known(r: Registry, terminal: Id, epoch: Id) {
    terminal in r.terminals && r.terminals[terminal].epoch == epoch
  }

  function Unknown(r: Registry, terminal: Id): (Registry, Reply) {
    (r, Refused(if terminal in r.terminals then TerminalEpochStale else TerminalNotFound))
  }

  function Step(r: Registry, op: Op, now: int): (Registry, Reply) {
    match op
    case Register(terminal, epoch) =>
      if terminal == "" || epoch == "" then (r, Refused(TerminalNotFound))
      else if terminal in r.terminals then
        (r, if r.terminals[terminal].epoch != epoch then Refused(TerminalEpochStale) else Done)
      else (r.(terminals := r.terminals[terminal := State(epoch, 0, None, [], [], [])]), Done)
    case Unregister(terminal, epoch) =>
      (if terminal in r.terminals && (epoch.None? || r.terminals[terminal].epoch == epoch.value)
       then r.(terminals := r.terminals - {terminal}) else r, Done)
    case Acquire(request) =>
      if !Known(r, request.terminal, request.epoch) then Unknown(r, request.terminal)
      else Put(r, request.terminal, Acquired(r.terminals[request.terminal], request, r.nextSerial, now, r.ttl))
    case Renew(terminal, epoch, lease, principal, connection) =>
      if !Known(r, terminal, epoch) then Unknown(r, terminal)
      else Put(r, terminal, Reheld(r.terminals[terminal], lease, principal, connection, now, r.ttl))
    case Release(terminal, epoch, lease, principal, connection) =>
      if !Known(r, terminal, epoch) then Unknown(r, terminal)
      else Put(r, terminal, Released(r.terminals[terminal], lease, principal, connection))
    case ReleaseConnection(connection) =>
      (r.(nextSerial := r.nextSerial + 1,
          terminals := map t | t in r.terminals :: Disconnected(r.terminals[t], connection, r.nextSerial, now, r.ttl)), Done)
    case Takeover(terminal, epoch, principal, connection) =>
      if !Known(r, terminal, epoch) then Unknown(r, terminal)
      else Put(r, terminal, TakenOver(r.terminals[terminal], terminal, principal, connection, r.nextSerial, now, r.ttl))
    case Transfer(terminal, epoch, lease, principal, connection, toPrincipal, toConnection) =>
      if !Known(r, terminal, epoch) then Unknown(r, terminal)
      else Put(r, terminal, Transferred(r.terminals[terminal], terminal, lease, principal, connection, toPrincipal, toConnection,
                                        r.nextSerial, now, r.ttl))
    case Authorize(fence) =>
      if !Known(r, fence.terminal, fence.epoch) then Unknown(r, fence.terminal)
      else Put(r, fence.terminal, Authorized(r.terminals[fence.terminal], fence, now, r.ttl))
    case ReadWriter(terminal) =>
      if terminal !in r.terminals then Unknown(r, terminal)
      else
        var s := Purged(r.terminals[terminal], now);
        Put(r, terminal, (s, Listed(if s.primary.Some? && Find(s.writers, s.primary.value).Some?
                                    then [Find(s.writers, s.primary.value).value] else [])))
    case ListLeases(terminal) =>
      if terminal !in r.terminals then Unknown(r, terminal)
      else
        var s := Purged(r.terminals[terminal], now);
        Put(r, terminal, (s, Listed(s.writers + s.observers)))
  }

  datatype Call = Call(op: Op, now: int)

  function Empty(ttl: int): Registry {
    Registry(map[], 0, ttl)
  }

  function Run(ttl: int, calls: seq<Call>): Registry {
    if calls == [] then Empty(ttl)
    else Step(Run(ttl, calls[..|calls| - 1]), calls[|calls| - 1].op, calls[|calls| - 1].now).0
  }

  /** The reply to the call at `i`. */
  function ReplyAt(ttl: int, calls: seq<Call>, i: nat): Reply
    requires i < |calls|
  {
    Step(Run(ttl, calls[..i]), calls[i].op, calls[i].now).1
  }
}
