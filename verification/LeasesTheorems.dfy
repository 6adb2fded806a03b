/** Runs of the lease registry: the shared-writer invariant, takeover, and the window of accepted commands. */
module LeasesTheorems {
  import opened Wrappers
  import opened Leases
  import opened LeasesProof

  /** The terminal an operation is about, with the epoch it names. */
  function Target(op: Op): Option<(Id, Id)> {
    match op
    case Acquire(request) => Some((request.terminal, request.epoch))
    case Renew(t, e, _, _, _) => Some((t, e))
    case Release(t, e, _, _, _) => Some((t, e))
    case Takeover(t, e, _, _) => Some((t, e))
    case Transfer(t, e, _, _, _, _, _) => Some((t, e))
    case Authorize(fence) => Some((fence.terminal, fence.epoch))
    case _ => None
  }

  /** What an operation with a target does to a known terminal. */
  function Outcome(s: State, op: Op, serial: nat, now: int, ttl: int): (State, Reply)
    requires Target(op).Some?
  {
    match op
    case Acquire(request) => Acquired(s, request, serial, now, ttl)
    case Renew(_, _, lease, principal, connection) => Reheld(s, lease, principal, connection, now, ttl)
    case Release(_, _, lease, principal, connection) => Released(s, lease, principal, connection)
    case Takeover(t, _, principal, connection) => TakenOver(s, t, principal, connection, serial, now, ttl)
    case Transfer(t, _, lease, principal, connection, toPrincipal, toConnection) =>
      Transferred(s, t, lease, principal, connection, toPrincipal, toConnection, serial, now, ttl)
    case Authorize(fence) => Authorized(s, fence, now, ttl)
  }

  lemma TargetedStep(r: Registry, op: Op, now: int)
    requires Target(op).Some?
    ensures var t := Target(op).value.0;
      if Known(r, t, Target(op).value.1)
      then Step(r, op, now) == Put(r, t, Outcome(r.terminals[t], op, r.nextSerial, now, r.ttl))
      else Step(r, op, now) == Unknown(r, t)
  {
    hide Acquired, Reheld, Released, TakenOver, Transferred, Authorized, Put, Unknown;
  }

  lemma OutcomeOk(s: State, op: Op, serial: nat, now: int, ttl: int)
    requires Ok(s, serial) && Target(op).Some?
    ensures Ok(Outcome(s, op, serial, now, ttl).0, serial + 1)
    ensures Outcome(s, op, serial, now, ttl).0.generation >= s.generation
    ensures op.Takeover? ==> Outcome(s, op, serial, now, ttl).0.generation > s.generation
  {
    hide Ok, Acquired, Reheld, Released, TakenOver, Transferred, Authorized;
    match op
    case Acquire(request) => AcquiredOk(s, request, serial, now, ttl);
    case Renew(_, _, lease, principal, connection) =>
      ReheldOk(s, lease, principal, connection, serial, now, ttl);
      OkMore(Reheld(s, lease, principal, connection, now, ttl).0, serial);
    case Release(_, _, lease, principal, connection) =>
      ReleasedOk(s, lease, principal, connection, serial);
      OkMore(Released(s, lease, principal, connection).0, serial);
    case Takeover(t, _, principal, connection) => TakenOverOk(s, t, principal, connection, serial, now, ttl);
    case Transfer(t, _, lease, principal, connection, toPrincipal, toConnection) =>
      TransferredOk(s, t, lease, principal, connection, toPrincipal, toConnection, serial, now, ttl);
    case Authorize(fence) =>
      AuthorizedOk(s, fence, serial, now, ttl);
      OkMore(Authorized(s, fence, now, ttl).0, serial);
  }

  /** After any step, each terminal still registered is sound, and its generation has not fallen. */
  lemma StepOk(r: Registry, op: Op, now: int, t: Id)
    requires t in r.terminals ==> Ok(r.terminals[t], r.nextSerial)
    ensures var next := Step(r, op, now).0;
      && next.nextSerial >= r.nextSerial && next.ttl == r.ttl
      && (t in next.terminals ==> Ok(next.terminals[t], next.nextSerial))
      && (t in r.terminals && t in next.terminals ==>
            next.terminals[t].generation >= r.terminals[t].generation && next.terminals[t].epoch == r.terminals[t].epoch)
  {
    hide Ok, Purged, Disconnected, Outcome;
    if t in r.terminals { OkMore(r.terminals[t], r.nextSerial); }
    if Target(op).Some? {
      var u := Target(op).value.0;
      TargetedStep(r, op, now);
      if Known(r, u, Target(op).value.1) && u == t {
        OutcomeOk(r.terminals[t], op, r.nextSerial, now, r.ttl);
        SameEpoch(r.terminals[t], op, r.nextSerial, now, r.ttl);
      }
    } else {
      UntargetedOk(r, op, now, t);
    }
  }

  lemma UntargetedOk(r: Registry, op: Op, now: int, t: Id)
    requires Target(op).None? && (t in r.terminals ==> Ok(r.terminals[t], r.nextSerial))
    ensures var next := Step(r, op, now).0;
      && next.nextSerial >= r.nextSerial && next.ttl == r.ttl
      && (t in next.terminals ==> Ok(next.terminals[t], next.nextSerial))
      && (t in r.terminals && t in next.terminals ==>
            next.terminals[t].generation >= r.terminals[t].generation && next.terminals[t].epoch == r.terminals[t].epoch)
  {
    hide Ok, Purged, Disconnected, Find;
    if t in r.terminals {
      OkMore(r.terminals[t], r.nextSerial);
      PurgedOk(r.terminals[t], now, r.nextSerial);
      OkMore(Purged(r.terminals[t], now), r.nextSerial);
      if op.ReleaseConnection? {
        DisconnectedOk(r.terminals[t], op.connection, r.nextSerial, now, r.ttl);
        DisconnectedEpoch(r.terminals[t], op.connection, r.nextSerial, now, r.ttl);
      }
    } else if op.Register? {
      NewOk(op.epoch, r.nextSerial);
    }
  }

  lemma NewOk(epoch: Id, serial: nat)
    ensures Ok(State(epoch, 0, None, [], [], []), serial)
  {
  }

  lemma DisconnectedEpoch(s: State, connection: Id, serial: nat, now: int, ttl: int)
    ensures Disconnected(s, connection, serial, now, ttl).epoch == s.epoch
    ensures Disconnected(s, connection, serial, now, ttl).commands == s.commands
  {
    hide Find, Filter;
  }

  lemma SameEpoch(s: State, op: Op, serial: nat, now: int, ttl: int)
    requires Target(op).Some?
    ensures Outcome(s, op, serial, now, ttl).0.epoch == s.epoch
    ensures !op.Authorize? ==> Outcome(s, op, serial, now, ttl).0.commands == s.commands
  {
    hide Find, FindHolder, Filter, Extended, LastCommands;
  }

  lemma {:induction false} RunOk(ttl: int, calls: seq<Call>, t: Id)
    ensures var r := Run(ttl, calls);
      r.ttl == ttl && (t in r.terminals ==> Ok(r.terminals[t], r.nextSerial))
  {
    hide Ok, Step;
    if calls != [] {
      RunOk(ttl, calls[..|calls| - 1], t);
      StepOk(Run(ttl, calls[..|calls| - 1]), calls[|calls| - 1].op, calls[|calls| - 1].now, t);
    }
  }

  /**
    In every reachable state the primary writer is present exactly when there are writers and is one
    of them, all writers hold the current generation, and each principal and connection holds at most
    one writer and at most one observer lease.
  */
  lemma SharedWriters(ttl: int, calls: seq<Call>, t: Id)
    requires t in Run(ttl, calls).terminals
    ensures var s := Run(ttl, calls).terminals[t];
      && (s.primary.Some? <==> s.writers != [])
      && (s.primary.Some? ==> exists w :: w in s.writers && w.id == s.primary.value)
      && (forall w :: w in s.writers ==> w.generation == s.generation && w.epoch == s.epoch)
      && (forall i, j :: 0 <= i < j < |s.writers| ==> !SameHolder(s.writers[i], s.writers[j]) && s.writers[i].id != s.writers[j].id)
      && (forall i, j :: 0 <= i < j < |s.observers| ==>
            !SameHolder(s.observers[i], s.observers[j]) && s.observers[i].id != s.observers[j].id)
  {
    hide Run, Find;
    RunOk(ttl, calls, t);
    var s := Run(ttl, calls).terminals[t];
    if s.primary.Some? {
      var w := Find(s.writers, s.primary.value).value;
      assert w in s.writers && w.id == s.primary.value;
    }
  }

  /** Registered in every state from the `i`th on. */
  ghost predicate StaysRegistered(ttl: int, calls: seq<Call>, i: nat, t: Id) {
    forall k :: i <= k <= |calls| ==> t in Run(ttl, calls[..k]).terminals
  }

  predicate IsTakeover(ttl: int, calls: seq<Call>, k: nat, t: Id)
    requires k < |calls|
  {
    calls[k].op.Takeover? && calls[k].op.terminal == t && ReplyAt(ttl, calls, k).Granted?
  }

  /** The takeovers granted from the `i`th call on. */
  function Takeovers(ttl: int, calls: seq<Call>, i: nat, t: Id): nat
    requires i <= |calls|
  {
    if i == |calls| then 0
    else
      Takeovers(ttl, calls[..|calls| - 1], i, t) + if IsTakeover(ttl, calls, |calls| - 1, t) then 1 else 0
  }

  lemma StepRaises(ttl: int, calls: seq<Call>, t: Id)
    requires calls != []
    requires t in Run(ttl, calls[..|calls| - 1]).terminals && t in Run(ttl, calls).terminals
    ensures var before, after := Run(ttl, calls[..|calls| - 1]).terminals[t], Run(ttl, calls).terminals[t];
      && after.epoch == before.epoch
      && after.generation >= before.generation + if IsTakeover(ttl, calls, |calls| - 1, t) then 1 else 0
  {
    hide Step, Ok, Outcome, Run;
    var init, last := calls[..|calls| - 1], calls[|calls| - 1];
    var r := Run(ttl, init);
    RunStep(ttl, calls);
    RunOk(ttl, init, t);
    StepOk(r, last.op, last.now, t);
    if IsTakeover(ttl, calls, |calls| - 1, t) {
      TargetedStep(r, last.op, last.now);
      OutcomeOk(r.terminals[t], last.op, r.nextSerial, last.now, r.ttl);
    }
  }

  /**
    Between any two states of a run, while a terminal stays registered, its epoch stays and its
    generation never falls: it rises at least by the number of takeovers granted in between.
  */
  lemma {:induction false} GenerationsNeverFall(ttl: int, calls: seq<Call>, i: nat, t: Id)
    requires i <= |calls| && StaysRegistered(ttl, calls, i, t)
    ensures t in Run(ttl, calls[..i]).terminals && t in Run(ttl, calls).terminals
    ensures var before, now := Run(ttl, calls[..i]).terminals[t], Run(ttl, calls).terminals[t];
      now.epoch == before.epoch && now.generation >= before.generation + Takeovers(ttl, calls, i, t)
    decreases |calls|
  {
    hide Run, IsTakeover;
    assert calls[..|calls|] == calls;
    if i < |calls| {
      var init := calls[..|calls| - 1];
      forall k | i <= k <= |init|
        ensures t in Run(ttl, init[..k]).terminals
      {
        assert init[..k] == calls[..k];
      }
      assert init[..i] == calls[..i];
      GenerationsNeverFall(ttl, init, i, t);
      StepRaises(ttl, calls, t);
    }
  }

  // ----- takeover -----

  ghost predicate From(leases: seq<Lease>, floor: nat) {
    forall l :: l in leases ==> l.id.serial >= floor
  }

  lemma FilterFrom(leases: seq<Lease>, keep: Lease -> bool, floor: nat)
    requires From(leases, floor)
    ensures From(Filter(leases, keep), floor)
  {
    FilterMembers(leases, keep);
  }

  lemma ExtendedFrom(leases: seq<Lease>, id: LeaseId, expiresAt: int, floor: nat)
    requires From(leases, floor)
    ensures From(Extended(leases, id, expiresAt), floor)
  {
    var extended := Extended(leases, id, expiresAt);
    forall l | l in extended
      ensures l.id.serial >= floor
    {
      var i :| 0 <= i < |extended| && extended[i] == l;
      assert leases[i] in leases;
    }
  }

  lemma RenewedFrom(s: State, id: LeaseId, expiresAt: int, floor: nat)
    requires From(s.writers, floor)
    ensures From(Renewed(s, id, expiresAt).0.writers, floor)
  {
    hide From, Extended, Find;
    ExtendedFrom(s.writers, id, expiresAt, floor);
  }

  lemma PurgedFrom(s: State, now: int, floor: nat)
    requires From(s.writers, floor)
    ensures From(Purged(s, now).writers, floor)
  {
    hide From, Filter, Find;
    FilterFrom(s.writers, (l: Lease) => l.expiresAt > now, floor);
  }

  lemma OutcomeFrom(s: State, op: Op, serial: nat, now: int, ttl: int, floor: nat)
    requires Target(op).Some? && From(s.writers, floor) && serial >= floor
    ensures From(Outcome(s, op, serial, now, ttl).0.writers, floor)
  {
    hide Renewed, Find, FindHolder, Filter, Purged;
    var purged := Purged(s, now);
    PurgedFrom(s, now, floor);
    match op
    case Acquire(request) =>
      var existing := FindHolder(purged.writers, request.principal, request.connection);
      if existing.Some? { RenewedFrom(purged, existing.value.id, now + ttl, floor); }
      var observing := FindHolder(purged.observers, request.principal, request.connection);
      if observing.Some? { RenewedFrom(purged, observing.value.id, now + ttl, floor); }
    case Renew(_, _, lease, _, _) => RenewedFrom(purged, lease, now + ttl, floor);
    case Release(_, _, lease, _, _) => FilterFrom(s.writers, (l: Lease) => l.id != lease, floor);
    case Takeover(_, _, _, _) =>
    case Transfer(_, _, _, _, _, _, _) =>
    case Authorize(fence) =>
      RenewedFrom(purged.(commands := LastCommands(purged.commands + [fence.command])), fence.lease, now + ttl, floor);
  }

  lemma DisconnectedFrom(s: State, connection: Id, serial: nat, now: int, ttl: int, floor: nat)
    requires From(s.writers, floor) && serial >= floor
    ensures From(Disconnected(s, connection, serial, now, ttl).writers, floor)
  {
    hide Find, Filter, Purged;
    PurgedFrom(s, now, floor);
    FilterFrom(Purged(s, now).writers, (l: Lease) => l.connection != connection, floor);
  }

  lemma StepFrom(r: Registry, op: Op, now: int, t: Id, floor: nat)
    requires r.nextSerial >= floor && (t in r.terminals ==> From(r.terminals[t].writers, floor))
    ensures var next := Step(r, op, now).0;
      next.nextSerial >= floor && (t in next.terminals ==> From(next.terminals[t].writers, floor))
  {
    hide From, Purged, Disconnected, Outcome, Find;
    if Target(op).Some? {
      TargetedStep(r, op, now);
      if t in r.terminals { OutcomeFrom(r.terminals[t], op, r.nextSerial, now, r.ttl, floor); }
    } else if t in r.terminals {
      PurgedFrom(r.terminals[t], now, floor);
      if op.ReleaseConnection? { DisconnectedFrom(r.terminals[t], op.connection, r.nextSerial, now, r.ttl, floor); }
    } else {
      NoneFrom(floor);
    }
  }

  lemma NoneFrom(floor: nat)
    ensures From([], floor)
  {
  }

  predicate TakesOver(op: Op, t: Id) {
    (op.Takeover? && op.terminal == t) || (op.Transfer? && op.terminal == t)
  }

  lemma TakeoverFrom(r: Registry, op: Op, now: int, t: Id)
    requires TakesOver(op, t) && Step(r, op, now).1.Granted?
    ensures t in Step(r, op, now).0.terminals && From(Step(r, op, now).0.terminals[t].writers, r.nextSerial)
    ensures Step(r, op, now).0.nextSerial >= r.nextSerial
  {
    hide Find, Filter, Purged;
  }

  lemma {:induction false} RunFrom(ttl: int, calls: seq<Call>, k: nat, t: Id)
    requires k < |calls| && TakesOver(calls[k].op, t) && ReplyAt(ttl, calls, k).Granted?
    ensures var floor := Run(ttl, calls[..k]).nextSerial; var r := Run(ttl, calls);
      r.nextSerial >= floor && (t in r.terminals ==> From(r.terminals[t].writers, floor))
    decreases |calls|
  {
    hide From, Step;
    var init, last := calls[..|calls| - 1], calls[|calls| - 1];
    if k == |init| {
      TakeoverFrom(Run(ttl, init), last.op, last.now, t);
    } else {
      assert init[..k] == calls[..k];
      RunFrom(ttl, init, k, t);
      StepFrom(Run(ttl, init), last.op, last.now, t, Run(ttl, calls[..k]).nextSerial);
    }
  }

  /** A granted mutation names a live writer, exactly; and only then is one granted. */
  lemma AuthorizedExactly(ttl: int, calls: seq<Call>, fence: Fence, now: int)
    ensures var r := Run(ttl, calls);
      Step(r, Authorize(fence), now).1.Granted? <==>
      && Known(r, fence.terminal, fence.epoch)
      && fence.command !in r.terminals[fence.terminal].commands
      && exists w :: w in r.terminals[fence.terminal].writers && w.id == fence.lease && w.expiresAt > now
           && w.generation == fence.generation && w.principal == fence.principal && w.connection == fence.connection
  {
    hide Run, Ok;
    var r := Run(ttl, calls);
    if Known(r, fence.terminal, fence.epoch) {
      RunOk(ttl, calls, fence.terminal);
      AuthorizedState(r.terminals[fence.terminal], fence, now, r.ttl, r.nextSerial);
    }
  }

  lemma AuthorizedState(s: State, fence: Fence, now: int, ttl: int, serial: nat)
    requires Ok(s, serial) && fence.epoch == s.epoch
    ensures Authorized(s, fence, now, ttl).1.Granted? <==>
            && fence.command !in s.commands
            && exists w :: w in s.writers && w.id == fence.lease && w.expiresAt > now
                 && w.generation == fence.generation && w.principal == fence.principal && w.connection == fence.connection
    ensures Authorized(s, fence, now, ttl).1.Granted? ==> exists w :: w in s.writers && w.id == fence.lease
    ensures Authorized(s, fence, now, ttl).0.commands ==
            if Authorized(s, fence, now, ttl).1.Granted? then LastCommands(s.commands + [fence.command]) else s.commands
  {
    hide Distinct, Below, Filter, LastCommands, Extended, PrimaryIsWriter;
    var keep := (l: Lease) => l.expiresAt > now;
    FilterMembers(s.writers, keep);
    FilterOk(s.writers, keep, s, serial);
    var alive := Alive(s.writers, now);
    var found := Find(alive, fence.lease);
    forall w | w in s.writers && w.id == fence.lease && w.expiresAt > now
      ensures found == Some(w)
    {
      assert w in alive;
      OneId(alive, w, found.value);
    }
  }

  lemma OneId(leases: seq<Lease>, a: Lease, b: Lease)
    requires Distinct(leases) && a in leases && b in leases && a.id == b.id
    ensures a == b
  {
    var i :| 0 <= i < |leases| && leases[i] == a;
    var j :| 0 <= j < |leases| && leases[j] == b;
    if i < j {} else if j < i {}
  }

  lemma OutcomeGranted(s: State, op: Op, serial: nat, now: int, ttl: int)
    requires Ok(s, serial) && Target(op).Some?
    ensures var reply := Outcome(s, op, serial, now, ttl).1; reply.Granted? ==> reply.lease.id.serial < serial + 1
  {
    hide Distinct, Current, PrimaryIsWriter, Filter, Extended, LastCommands, Ok, Purged, Below;
    PurgedOk(s, now, serial);
    var purged := Purged(s, now);
    match op
    case Acquire(request) =>
      var existing := FindHolder(purged.writers, request.principal, request.connection);
      if existing.Some? { LeaseBelow(purged, existing.value.id, serial); }
      var observing := FindHolder(purged.observers, request.principal, request.connection);
      if observing.Some? { LeaseBelow(purged, observing.value.id, serial); }
    case Renew(_, _, lease, _, _) => LeaseBelow(purged, lease, serial);
    case Release(_, _, lease, _, _) =>
    case Takeover(_, _, _, _) =>
    case Transfer(_, _, _, _, _, _, _) =>
    case Authorize(fence) => LeaseBelow(purged, fence.lease, serial);
  }

  lemma LeaseBelow(s: State, id: LeaseId, serial: nat)
    requires Ok(s, serial)
    ensures FindLease(s, id).Some? ==> FindLease(s, id).value.id.serial < serial
  {
    hide Distinct, Current, PrimaryIsWriter;
  }

  lemma {:induction false} SerialsGrow(ttl: int, calls: seq<Call>, i: nat)
    requires i <= |calls|
    ensures Run(ttl, calls[..i]).nextSerial <= Run(ttl, calls).nextSerial
    decreases |calls|
  {
    hide Step, Ok;
    if i < |calls| {
      var init, last := calls[..|calls| - 1], calls[|calls| - 1];
      assert init[..i] == calls[..i];
      SerialsGrow(ttl, init, i);
      RunOk(ttl, init, "");
      StepOk(Run(ttl, init), last.op, last.now, "");
    } else {
      assert calls[..i] == calls;
    }
  }

  lemma GrantedBelow(ttl: int, calls: seq<Call>, i: nat)
    requires i < |calls| && ReplyAt(ttl, calls, i).Granted?
    ensures ReplyAt(ttl, calls, i).lease.id.serial < Run(ttl, calls[..i + 1]).nextSerial
  {
    hide Run, Ok, Outcome, Purged, Disconnected, Find;
    var r, call := Run(ttl, calls[..i]), calls[i];
    assert calls[..i + 1][..i] == calls[..i];
    RunStep(ttl, calls[..i + 1]);
    if Target(call.op).Some? {
      var t := Target(call.op).value.0;
      TargetedStep(r, call.op, call.now);
      RunOk(ttl, calls[..i], t);
      if t in r.terminals { OutcomeGranted(r.terminals[t], call.op, r.nextSerial, call.now, r.ttl); }
    }
  }

  lemma RunStep(ttl: int, calls: seq<Call>)
    requires calls != []
    ensures Run(ttl, calls) == Step(Run(ttl, calls[..|calls| - 1]), calls[|calls| - 1].op, calls[|calls| - 1].now).0
  {
    hide Step;
  }

  /** No lease granted before a takeover or a transfer of its terminal ever authorizes a mutation after it. */
  lemma NoLeaseOutlivesTakeover(ttl: int, calls: seq<Call>, i: nat, k: nat, j: nat)
    requires i < k < j < |calls|
    requires ReplyAt(ttl, calls, i).Granted? && ReplyAt(ttl, calls, k).Granted?
    requires calls[j].op.Authorize? && TakesOver(calls[k].op, calls[j].op.fence.terminal)
    requires calls[j].op.fence.lease == ReplyAt(ttl, calls, i).lease.id
    ensures !ReplyAt(ttl, calls, j).Granted?
  {
    hide Run, Ok, Outcome, Authorized, From;
    var fence, r := calls[j].op.fence, Run(ttl, calls[..j]);
    var t := fence.terminal;
    GrantedBelow(ttl, calls, i);
    assert calls[..k][..i + 1] == calls[..i + 1];
    SerialsGrow(ttl, calls[..k], i + 1);
    assert calls[..j][..k] == calls[..k] && calls[..j][k] == calls[k];
    RunFrom(ttl, calls[..j], k, t);
    TargetedStep(r, calls[j].op, calls[j].now);
    if t in r.terminals && Known(r, t, fence.epoch) {
      RunOk(ttl, calls[..j], t);
      AuthorizedState(r.terminals[t], fence, calls[j].now, r.ttl, r.nextSerial);
      FromBelow(r.terminals[t].writers, Run(ttl, calls[..k]).nextSerial, fence.lease);
      assert Outcome(r.terminals[t], calls[j].op, r.nextSerial, calls[j].now, r.ttl)
          == Authorized(r.terminals[t], fence, calls[j].now, r.ttl) by { OutcomeAuthorize(r.terminals[t], fence, r.nextSerial, calls[j].now, r.ttl); }
    }
  }

  lemma OutcomeAuthorize(s: State, fence: Fence, serial: nat, now: int, ttl: int)
    ensures Outcome(s, Authorize(fence), serial, now, ttl) == Authorized(s, fence, now, ttl)
  {
    hide Authorized;
  }

  lemma FromBelow(leases: seq<Lease>, floor: nat, id: LeaseId)
    requires From(leases, floor) && id.serial < floor
    ensures forall w :: w in leases ==> w.id != id
  {
  }

  // ----- accepted commands -----

  /** The commands accepted for a terminal since it was last registered. */
  function AcceptedCommands(ttl: int, calls: seq<Call>, t: Id): seq<Id> {
    if calls == [] then []
    else
      var init, last := calls[..|calls| - 1], calls[|calls| - 1];
      if last.op.Register? && last.op.terminal == t && t !in Run(ttl, init).terminals then []
      else if last.op.Authorize? && last.op.fence.terminal == t && Step(Run(ttl, init), last.op, last.now).1.Granted?
      then AcceptedCommands(ttl, init, t) + [last.op.fence.command]
      else AcceptedCommands(ttl, init, t)
  }

  /** Any 1025 consecutive commands are distinct. */
  ghost predicate Windowed(commands: seq<Id>) {
    forall i, j :: 0 <= i < j < |commands| && j - i <= MAX_COMMAND_IDS ==> commands[i] != commands[j]
  }

  lemma WindowPush(commands: seq<Id>, command: Id)
    requires Windowed(commands) && command !in LastCommands(commands)
    ensures Windowed(commands + [command])
    ensures LastCommands(commands + [command]) == LastCommands(LastCommands(commands) + [command])
  {
    var n := |commands|;
    forall i | 0 <= i < n && n - i <= MAX_COMMAND_IDS
      ensures commands[i] != command
    {
      var last := LastCommands(commands);
      assert commands[i] == last[i - (n - |last|)];
    }
  }

  lemma StepCommands(r: Registry, op: Op, now: int, t: Id)
    requires t in r.terminals && Ok(r.terminals[t], r.nextSerial)
    ensures var next := Step(r, op, now);
      t in next.0.terminals ==>
        if op.Authorize? && op.fence.terminal == t && next.1.Granted?
        then op.fence.command !in r.terminals[t].commands
             && next.0.terminals[t].commands == LastCommands(r.terminals[t].commands + [op.fence.command])
        else next.0.terminals[t].commands == r.terminals[t].commands
  {
    hide Ok, Purged, Disconnected, Outcome, Find, LastCommands, Authorized;
    var s := r.terminals[t];
    if Target(op).Some? {
      TargetedStep(r, op, now);
      SameEpoch(s, op, r.nextSerial, now, r.ttl);
      if op.Authorize? && Known(r, t, op.fence.epoch) {
        AuthorizedState(s, op.fence, now, r.ttl, r.nextSerial);
        OutcomeAuthorize(s, op.fence, r.nextSerial, now, r.ttl);
      }
    } else {
      PurgedOk(s, now, r.nextSerial);
      if op.ReleaseConnection? { DisconnectedEpoch(s, op.connection, r.nextSerial, now, r.ttl); }
    }
  }

  /** While a terminal is registered, the stored commands are exactly the last 1024 accepted, in order, and any 1025 consecutive ones differ. */
  lemma {:induction false} CommandWindow(ttl: int, calls: seq<Call>, t: Id)
    requires t in Run(ttl, calls).terminals
    ensures var accepted := AcceptedCommands(ttl, calls, t);
      Run(ttl, calls).terminals[t].commands == LastCommands(accepted) && Windowed(accepted)
  {
    hide Step, Ok, LastCommands, Windowed, AcceptedCommands, Run;
    RunNothing(ttl);
    if calls != [] {
      var init, last := calls[..|calls| - 1], calls[|calls| - 1];
      var r := Run(ttl, init);
      RunStep(ttl, calls);
      AcceptedStep(ttl, calls, t);
      RunOk(ttl, init, t);
      if t in r.terminals {
        CommandWindow(ttl, init, t);
        StepCommands(r, last.op, last.now, t);
        var accepted := AcceptedCommands(ttl, init, t);
        if last.op.Authorize? && last.op.fence.command !in LastCommands(accepted) { WindowPush(accepted, last.op.fence.command); }
      } else {
        Registered(r, last.op, last.now, t);
        NoCommands();
      }
    }
  }

  lemma RunNothing(ttl: int)
    ensures Run(ttl, []).terminals == map[]
  {
  }

  lemma NoCommands()
    ensures LastCommands([]) == [] && Windowed([])
  {
  }

  lemma Registered(r: Registry, op: Op, now: int, t: Id)
    requires t !in r.terminals && t in Step(r, op, now).0.terminals
    ensures op.Register? && op.terminal == t && Step(r, op, now).0.terminals[t].commands == []
  {
    hide Purged, Disconnected, Acquired, Reheld, Released, TakenOver, Transferred, Authorized, Find;
  }

  lemma AcceptedStep(ttl: int, calls: seq<Call>, t: Id)
    requires calls != []
    ensures var init, last := calls[..|calls| - 1], calls[|calls| - 1];
      AcceptedCommands(ttl, calls, t) ==
      if last.op.Register? && last.op.terminal == t && t !in Run(ttl, init).terminals then []
      else if last.op.Authorize? && last.op.fence.terminal == t && Step(Run(ttl, init), last.op, last.now).1.Granted?
      then AcceptedCommands(ttl, init, t) + [last.op.fence.command]
      else AcceptedCommands(ttl, init, t)
  {
    hide Step, Run;
  }
}
