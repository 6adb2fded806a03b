/** Whom the terminal's owner lets write: every authorization an owner makes, in every state it reaches. */
module CommandAuthority {
  import opened Wrappers
  import opened Leases
  import opened LeasesProof
  import opened LeasesTheorems
  import opened LeaseEffects
  import opened CommandBatch

  // ----- the owner's registry -----

  /** An owner registers its own terminal once, before any command. */
  predicate Opens(core: Core, ttl: int, now: int) {
    core.registry == Leases.Run(ttl, [Call(Register(core.terminal, core.epoch), now)])
  }

  /** No command registers a terminal. */
  predicate OwnerCommand(c: Timed) {
    c.command.LeaseCommand? ==> !c.command.op.Register? && !c.command.op.Unregister?
  }

  predicate Own(core: Core) {
    && core.registry.terminals.Keys <= {core.terminal}
    && (core.terminal in core.registry.terminals ==> core.registry.terminals[core.terminal].epoch == core.epoch)
  }

  /** The registry is one some run of lease operations reaches, and knows at most the owner's terminal, in its epoch. */
  ghost predicate Reached(core: Core, ttl: int) {
    (exists calls :: core.registry == Leases.Run(ttl, calls)) && Own(core)
  }

  lemma RunMore(ttl: int, calls: seq<Call>, op: Op, now: int)
    ensures Leases.Run(ttl, calls + [Call(op, now)]) == Step(Leases.Run(ttl, calls), op, now).0
  {
    hide Step;
    assert (calls + [Call(op, now)])[..|calls|] == calls;
  }

  lemma StepReached(core: Core, ttl: int, op: Op, now: int)
    requires Reached(core, ttl) && !op.Register?
    ensures Reached(core.(registry := Step(core.registry, op, now).0), ttl)
  {
    hide Leases.Run, Step, LeasesProof.Ok;
    var calls :| core.registry == Leases.Run(ttl, calls);
    RunMore(ttl, calls, op, now);
    RunOk(ttl, calls, core.terminal);
    StepOk(core.registry, op, now, core.terminal);
    NoNewTerminals(core.registry, op, now);
    assert core.registry.ttl == ttl;
  }

  lemma NoNewTerminals(r: Registry, op: Op, now: int)
    requires !op.Register?
    ensures Step(r, op, now).0.terminals.Keys <= r.terminals.Keys
  {
    hide Purged, Disconnected, Acquired, Reheld, Released, TakenOver, Transferred, Authorized, Find;
  }

  lemma OpensReached(core: Core, ttl: int, now: int)
    requires Opens(core, ttl, now)
    ensures Reached(core, ttl)
  {
    RunMore(ttl, [], Register(core.terminal, core.epoch), now);
    assert [] + [Call(Register(core.terminal, core.epoch), now)] == [Call(Register(core.terminal, core.epoch), now)];
  }

  lemma SameCore(core: Core, next: Core, ttl: int)
    requires Reached(core, ttl) && next.registry == core.registry && next.terminal == core.terminal && next.epoch == core.epoch
    ensures Reached(next, ttl)
  {
    hide Leases.Run;
  }

  lemma AuthorizedReached(core: Core, ttl: int, auth: Auth, now: int, later: int)
    requires Reached(core, ttl)
    ensures var next := AuthorizedBy(core, auth, now, later).0;
      Reached(next, ttl) && next == core.(registry := next.registry)
  {
    hide Reached, Step, HeldWriter;
    if auth.fence.Some? {
      StepReached(core, ttl, Authorize(auth.fence.value.(principal := auth.principal, connection := auth.connection)), now);
    } else {
      StepReached(core, ttl, ListLeases(core.terminal), now);
      var listed := core.(registry := Step(core.registry, ListLeases(core.terminal), now).0);
      StepReached(listed, ttl, Acquire(Request(core.terminal, core.epoch, auth.principal, auth.connection, Writer)), later);
    }
  }

  lemma HandleReached(core: Core, ttl: int, c: Timed)
    requires Reached(core, ttl) && OwnerCommand(c)
    ensures var next := Handle(core, c).core; Reached(next, ttl) && next.terminal == core.terminal && next.epoch == core.epoch
  {
    hide Reached, Step, AuthorizedBy;
    var next := Handle(core, c).core;
    match c.command
    case AuthorizeAndWrite(auth, _) => AuthorizedReached(core, ttl, auth, c.now, c.later);
    case AuthorizeAndResize(auth, _, _) =>
      AuthorizedReached(core, ttl, auth, c.now, c.later);
      SameCore(AuthorizedBy(core, auth, c.now, c.later).0, next, ttl);
    case AuthorizeOnly(auth) => AuthorizedReached(core, ttl, auth, c.now, c.later);
    case LeaseCommand(op) => StepReached(core, ttl, op, c.now);
    case AuthorizeAndDispose(auth, _) =>
      AuthorizedReached(core, ttl, auth, c.now, c.later);
      var authorized := AuthorizedBy(core, auth, c.now, c.later).0;
      StepReached(authorized, ttl, Unregister(core.terminal, Some(core.epoch)), c.later);
      SameCore(authorized.(registry := Step(authorized.registry, Unregister(core.terminal, Some(core.epoch)), c.later).0),
               Disposed(authorized, c.later), ttl);
    case Dispose(_) =>
      StepReached(core, ttl, Unregister(core.terminal, Some(core.epoch)), c.now);
      SameCore(core.(registry := Step(core.registry, Unregister(core.terminal, Some(core.epoch)), c.now).0), next, ttl);
    case _ => SameCore(core, next, ttl);
  }

  lemma {:induction false} SerialReached(core: Core, ttl: int, commands: seq<Timed>)
    requires Reached(core, ttl) && forall c :: c in commands ==> OwnerCommand(c)
    ensures var next := Serial(core, commands).core;
      Reached(next, ttl) && next.terminal == core.terminal && next.epoch == core.epoch
    decreases |commands|
  {
    hide Reached, Handle, OwnerCommand;
    if commands != [] {
      assert commands[0] in commands;
      HandleReached(core, ttl, commands[0]);
      forall c | c in commands[1..]
        ensures OwnerCommand(c)
      {
        assert c in commands;
      }
      SerialReached(Handle(core, commands[0]).core, ttl, commands[1..]);
    }
  }

  // ----- who is let in -----

  /** A live writer lease of the owner's terminal that the caller holds. */
  ghost predicate CallersWriter(core: Core, auth: Auth, now: int, w: Lease) {
    && core.terminal in core.registry.terminals && w in core.registry.terminals[core.terminal].writers
    && w.expiresAt > now && w.principal == auth.principal && w.connection == auth.connection
  }

  /** The lease a fence names. */
  ghost predicate Fences(core: Core, fence: Fence, w: Lease) {
    && fence.terminal == core.terminal && fence.epoch == core.epoch
    && w.id == fence.lease && w.generation == fence.generation
  }

  /**
    With a fence, the caller itself must hold the live writer lease the fence names, whoever the fence says
    holds it, and the command must be new. Without one, the terminal need only be registered.
  */
  ghost predicate Allowed(core: Core, auth: Auth, now: int) {
    if auth.fence.Some? then
      && (exists w :: CallersWriter(core, auth, now, w) && Fences(core, auth.fence.value, w))
      && auth.fence.value.command !in core.registry.terminals[core.terminal].commands
    else core.terminal in core.registry.terminals
  }

  lemma FenceExactly(core: Core, ttl: int, auth: Auth, now: int, later: int)
    requires Reached(core, ttl) && auth.fence.Some?
    ensures var reply := AuthorizedBy(core, auth, now, later).1;
      && (reply.Granted? <==> Allowed(core, auth, now))
      && (reply.Granted? ==> exists w :: CallersWriter(core, auth, now, w) && reply.lease == w.(expiresAt := now + ttl))
  {
    hide Leases.Run, Step, Purges, Extends, LastCommands;
    var calls :| core.registry == Leases.Run(ttl, calls);
    var fence := auth.fence.value.(principal := auth.principal, connection := auth.connection);
    AuthorizedExactly(ttl, calls, fence, now);
    if Step(core.registry, Authorize(fence), now).1.Granted? {
      assert fence.terminal in core.registry.terminals.Keys;
      GrantedWasLive(ttl, calls, fence, now);
      var w :| w in core.registry.terminals[fence.terminal].writers && w.id == fence.lease && w.expiresAt > now
               && w.generation == fence.generation && w.principal == fence.principal && w.connection == fence.connection;
      assert CallersWriter(core, auth, now, w) && Fences(core, auth.fence.value, w);
    }
    if Allowed(core, auth, now) {
      var w :| CallersWriter(core, auth, now, w) && Fences(core, auth.fence.value, w);
      assert w in core.registry.terminals[fence.terminal].writers;
    }
  }

  /** The lease a granted authorization returns is the caller's own, prolonged. */
  lemma GrantedWasLive(ttl: int, calls: seq<Call>, fence: Fence, now: int)
    requires Known(Leases.Run(ttl, calls), fence.terminal, fence.epoch)
    requires Step(Leases.Run(ttl, calls), Authorize(fence), now).1.Granted?
    ensures exists w :: w in Leases.Run(ttl, calls).terminals[fence.terminal].writers && w.expiresAt > now && w.id == fence.lease
              && w.principal == fence.principal && w.connection == fence.connection
              && Step(Leases.Run(ttl, calls), Authorize(fence), now).1.lease == w.(expiresAt := now + ttl)
  {
    hide Leases.Run, Purged, LeasesProof.Ok, Homed, LastCommands, Extended;
    RunSound(ttl, calls, fence.terminal);
    var s := Leases.Run(ttl, calls).terminals[fence.terminal];
    PurgedLive(s, now);
    var live := Purged(s, now);
    var w := Find(live.writers, fence.lease).value;
    assert w in live.writers && w in s.writers;
  }

  lemma PurgedLive(s: State, now: int)
    ensures forall l :: l in Purged(s, now).writers <==> l in s.writers && l.expiresAt > now
    ensures forall l :: l in Purged(s, now).observers <==> l in s.observers && l.expiresAt > now
  {
    hide Filter, Find;
    FilterMembers(s.writers, (l: Lease) => l.expiresAt > now);
    FilterMembers(s.observers, (l: Lease) => l.expiresAt > now);
  }

  lemma {:induction false} HeldIsListed(leases: seq<Lease>, principal: Id, connection: Id)
    ensures var held := HeldWriter(leases, principal, connection);
      && (held.Some? ==>
            && held.value in leases && held.value.mode.Writer?
            && held.value.principal == principal && held.value.connection == connection)
      && (held.None? ==> forall l :: l in leases && l.mode.Writer? ==> l.principal != principal || l.connection != connection)
  {
    if leases != [] {
      HeldIsListed(leases[1..], principal, connection);
      assert leases == [leases[0]] + leases[1..];
    }
  }

  /** Without a fence: the caller's own live lease as it is, or else a new one. */
  lemma UnfencedExactly(core: Core, ttl: int, auth: Auth, now: int, later: int)
    requires Reached(core, ttl) && auth.fence.None?
    ensures var reply := AuthorizedBy(core, auth, now, later).1;
      && (reply.Granted? <==> Allowed(core, auth, now))
      && (reply.Granted? ==>
            if exists w :: CallersWriter(core, auth, now, w) then CallersWriter(core, auth, now, reply.lease)
            else
              && reply.lease.id == LeaseId(core.terminal, core.registry.nextSerial + 1)
              && reply.lease.principal == auth.principal && reply.lease.connection == auth.connection
              && reply.lease.expiresAt == later + ttl)
  {
    hide Leases.Run, LeasesProof.Ok, Homed, Purged, AcquiredWriter, HeldWriter;
    var calls :| core.registry == Leases.Run(ttl, calls);
    if core.terminal in core.registry.terminals {
      RunSound(ttl, calls, core.terminal);
      var s := core.registry.terminals[core.terminal];
      PurgedLive(s, now);
      PurgedOk(s, now, core.registry.nextSerial);
      PurgeHomed(s, now, core.terminal);
      var live := Purged(s, now);
      HeldIsListed(live.writers + live.observers, auth.principal, auth.connection);
      ModesTell(live, core.terminal, core.registry.nextSerial);
      if HeldWriter(live.writers + live.observers, auth.principal, auth.connection).None? {
        PurgedLive(live, later);
        OkMore(live, core.registry.nextSerial);
        PurgedOk(live, later, core.registry.nextSerial + 1);
        PurgeHomed(live, later, core.terminal);
        AcquiresNew(Purged(live, later), core.terminal, core.registry.nextSerial + 1, auth.principal, auth.connection, later, ttl);
      }
    }
  }

  lemma ModesTell(s: State, t: Id, serial: nat)
    requires Sound(s, t, serial)
    ensures forall l :: l in s.writers + s.observers && l.mode.Writer? ==> l in s.writers
    ensures forall l :: l in s.writers ==> l in s.writers + s.observers && l.mode.Writer?
  {
    hide Distinct, Below, PrimaryIsWriter;
  }

  lemma AcquiresNew(s: State, t: Id, serial: nat, principal: Id, connection: Id, now: int, ttl: int)
    requires Sound(s, t, serial) && forall l :: l in s.writers ==> l.principal != principal || l.connection != connection
    ensures var next := AcquiredWriter(s, Request(t, s.epoch, principal, connection, Writer), serial, now, ttl);
      next.1.Granted? && next.1.lease.id == LeaseId(t, serial) && next.1.lease.principal == principal
      && next.1.lease.connection == connection && next.1.lease.expiresAt == now + ttl
  {
    hide LeasesProof.Ok, Homed, Selects;
    AcquiredAdmits(s, t, serial, principal, connection, now, ttl);
  }

  /** Whatever is granted is a writer lease of the owner's terminal and epoch, is the caller's, and is in force afterwards. */
  lemma GrantedIsCallers(core: Core, ttl: int, auth: Auth, now: int, later: int)
    requires Reached(core, ttl) && AuthorizedBy(core, auth, now, later).1.Granted?
    ensures var next := AuthorizedBy(core, auth, now, later); var lease := next.1.lease;
      && lease.principal == auth.principal && lease.connection == auth.connection
      && lease.terminal == core.terminal && lease.epoch == core.epoch && lease.mode.Writer?
      && core.terminal in next.0.registry.terminals && lease in next.0.registry.terminals[core.terminal].writers
  {
    hide Reached, Step, Leases.Run, HeldWriter, Allowed, CallersWriter;
    var next := AuthorizedBy(core, auth, now, later);
    if auth.fence.Some? {
      FenceExactly(core, ttl, auth, now, later);
      var w :| CallersWriter(core, auth, now, w) && next.1.lease == w.(expiresAt := now + ttl);
      CallersMeans(core, auth, now, w);
    } else {
      UnfencedExactly(core, ttl, auth, now, later);
      if exists w :: CallersWriter(core, auth, now, w) { CallersMeans(core, auth, now, next.1.lease); }
    }
    InForce(core, ttl, auth, now, later);
  }

  lemma CallersMeans(core: Core, auth: Auth, now: int, w: Lease)
    ensures CallersWriter(core, auth, now, w) ==> w.principal == auth.principal && w.connection == auth.connection
  {
  }

  lemma InForce(core: Core, ttl: int, auth: Auth, now: int, later: int)
    requires Reached(core, ttl) && AuthorizedBy(core, auth, now, later).1.Granted?
    ensures var next := AuthorizedBy(core, auth, now, later);
      && core.terminal in next.0.registry.terminals && next.1.lease in next.0.registry.terminals[core.terminal].writers
      && next.1.lease.terminal == core.terminal && next.1.lease.epoch == core.epoch && next.1.lease.mode.Writer?
  {
    hide Leases.Run, LeasesProof.Ok, Homed, Purged, Own, HeldWriter, Renewed, Reached, AcquiredWriter, Acquired, Authorized;
    var next := AuthorizedBy(core, auth, now, later);
    AuthorizedReached(core, ttl, auth, now, later);
    ReachedSound(core, ttl);
    ReachedSound(next.0, ttl);
    if core.terminal in core.registry.terminals {
      var s := core.registry.terminals[core.terminal];
      if auth.fence.Some? {
        var fence := auth.fence.value.(principal := auth.principal, connection := auth.connection);
        AuthorizedInForce(s, fence, now, ttl);
      } else {
        PurgedSound(s, core.terminal, now, core.registry.nextSerial);
        var live := Purged(s, now);
        HeldIsListed(live.writers + live.observers, auth.principal, auth.connection);
        ModesTell(live, core.terminal, core.registry.nextSerial);
        SoundMore(live, core.terminal, core.registry.nextSerial);
        AcquiredInForce(live, core.terminal, core.registry.nextSerial + 1, auth.principal, auth.connection, later, ttl);
      }
      WritersHome(next.0, ttl);
    }
  }

  lemma PurgedSound(s: State, t: Id, now: int, serial: nat)
    requires Sound(s, t, serial)
    ensures Sound(Purged(s, now), t, serial) && Purged(s, now).epoch == s.epoch
  {
    hide LeasesProof.Ok, Homed, Purged;
    PurgedOk(s, now, serial);
    PurgeHomed(s, now, t);
  }

  lemma SoundMore(s: State, t: Id, serial: nat)
    requires Sound(s, t, serial)
    ensures Sound(s, t, serial + 1)
  {
    hide LeasesProof.Ok, Homed;
    OkMore(s, serial);
  }

  lemma ReachedSound(core: Core, ttl: int)
    requires Reached(core, ttl)
    ensures core.registry.ttl == ttl && core.registry.terminals.Keys <= {core.terminal}
    ensures core.terminal in core.registry.terminals ==>
              Sound(core.registry.terminals[core.terminal], core.terminal, core.registry.nextSerial)
              && core.registry.terminals[core.terminal].epoch == core.epoch
  {
    hide Leases.Run, LeasesProof.Ok, Homed;
    var calls :| core.registry == Leases.Run(ttl, calls);
    RunSound(ttl, calls, core.terminal);
  }

  lemma WritersHome(core: Core, ttl: int)
    requires Reached(core, ttl) && core.terminal in core.registry.terminals
    ensures forall l :: l in core.registry.terminals[core.terminal].writers ==>
              l.terminal == core.terminal && l.epoch == core.epoch && l.mode.Writer?
  {
    hide Reached, Distinct, Below, PrimaryIsWriter;
    ReachedSound(core, ttl);
  }

  lemma AuthorizedInForce(s: State, fence: Fence, now: int, ttl: int)
    requires Authorized(s, fence, now, ttl).1.Granted?
    ensures Authorized(s, fence, now, ttl).1.lease in Authorized(s, fence, now, ttl).0.writers
  {
    hide Purged, LeasesProof.Ok, LastCommands;
    var live := Purged(s, now);
    var w := Find(live.writers, fence.lease).value;
    var i :| 0 <= i < |live.writers| && live.writers[i] == w;
    assert Authorized(s, fence, now, ttl).0.writers[i] == w.(expiresAt := now + ttl);
  }

  lemma AcquiredInForce(s: State, t: Id, serial: nat, principal: Id, connection: Id, now: int, ttl: int)
    requires Sound(s, t, serial)
    ensures var next := Acquired(s, Request(t, s.epoch, principal, connection, Writer), serial, now, ttl);
      next.1.Granted? && next.1.lease in next.0.writers
  {
    hide LeasesProof.Ok, Homed, Purged, AcquiredWriter, Selects;
    PurgedSound(s, t, now, serial);
    var live := Purged(s, now);
    AcquiredAdmits(live, t, serial, principal, connection, now, ttl);
    var next := AcquiredWriter(live, Request(t, s.epoch, principal, connection, Writer), serial, now, ttl);
    if Holds(live.writers, principal, connection) {
      var w :| w in live.writers && w.principal == principal && w.connection == connection && next.1.lease == w.(expiresAt := now + ttl);
      var i :| 0 <= i < |live.writers| && live.writers[i] == w;
      assert next.0.writers[i] == next.1.lease;
    } else {
      assert next.1.lease in next.0.writers;
    }
  }

  // ----- what reaches the pseudo-terminal -----

  /** A write or resize that asks for authorization is carried out exactly when it is allowed; otherwise nothing happens to the terminal. */
  ghost predicate Obeys(core: Core, c: Timed, h: Handled) {
    match c.command
    case AuthorizeAndWrite(auth, data) =>
      && h.trace == (if Allowed(core, auth, c.now) then [Wrote(data)] else [])
      && h.answer.LeaseReply? && (h.answer.reply.Granted? <==> Allowed(core, auth, c.now))
    case AuthorizeAndResize(auth, cols, rows) =>
      && h.trace == (if Allowed(core, auth, c.now) then [Resized(Clamped(cols), Clamped(rows))] else [])
      && h.answer.LeaseReply? && (h.answer.reply.Granted? <==> Allowed(core, auth, c.now))
      && (!Allowed(core, auth, c.now) ==> h.core.cols == core.cols && h.core.rows == core.rows && h.core.ring == core.ring)
    case AuthorizeOnly(auth) =>
      && h.trace == [] && h.goOn && h.answer.LeaseReply? && (h.answer.reply.Granted? <==> Allowed(core, auth, c.now))
    case AuthorizeAndDispose(auth, killed) =>
      && h.trace == []
      && (if Allowed(core, auth, c.now) then
            && h.core.disposed && core.terminal !in h.core.registry.terminals && h.goOn == !killed
            && (if killed then h.answer.LeaseReply? && h.answer.reply.Granted? else h.answer == RuntimeError)
          else h.core.disposed == core.disposed && h.goOn && h.answer.LeaseReply? && !h.answer.reply.Granted?)
    case Dispose(_) => h.core.disposed && core.terminal !in h.core.registry.terminals && !h.goOn && h.trace == []
    case _ => true
  }

  lemma AllowedExactly(core: Core, ttl: int, auth: Auth, now: int, later: int)
    requires Reached(core, ttl)
    ensures AuthorizedBy(core, auth, now, later).1.Granted? <==> Allowed(core, auth, now)
  {
    hide Reached, AuthorizedBy, Allowed;
    if auth.fence.Some? {
      FenceExactly(core, ttl, auth, now, later);
    } else {
      UnfencedExactly(core, ttl, auth, now, later);
    }
  }

  lemma DisposedGone(core: Core, ttl: int, now: int)
    requires Reached(core, ttl)
    ensures var next := Disposed(core, now);
      next.disposed && core.terminal !in next.registry.terminals
  {
    hide Leases.Run;
  }

  lemma HandleObeys(core: Core, ttl: int, c: Timed)
    requires Reached(core, ttl)
    ensures Obeys(core, c, Handle(core, c))
  {
    hide Reached, AuthorizedBy, Allowed, Step;
    match c.command
    case AuthorizeAndWrite(auth, _) =>
      AllowedExactly(core, ttl, auth, c.now, c.later);
    case AuthorizeAndResize(auth, _, _) =>
      AllowedExactly(core, ttl, auth, c.now, c.later);
      AuthorizedReached(core, ttl, auth, c.now, c.later);
    case AuthorizeOnly(auth) => AllowedExactly(core, ttl, auth, c.now, c.later);
    case AuthorizeAndDispose(auth, _) =>
      AllowedExactly(core, ttl, auth, c.now, c.later);
      AuthorizedReached(core, ttl, auth, c.now, c.later);
      DisposedGone(AuthorizedBy(core, auth, c.now, c.later).0, ttl, c.later);
    case Dispose(_) => DisposedGone(core, ttl, c.now);
    case _ =>
  }

  /**
    After any commands an owner has handled, one by one or in batches, the next write or resize reaches
    the pseudo-terminal exactly when its caller is allowed then, and what is granted is the caller's lease.
  */
  lemma OnlyTheAllowedWrite(start: Core, ttl: int, begun: int, commands: seq<Timed>, c: Timed)
    requires Opens(start, ttl, begun) && (forall k :: k in commands ==> OwnerCommand(k))
    ensures var core := Serial(start, commands).core; var h := Handle(core, c);
      && Obeys(core, c, h)
      && (c.command.AuthorizeAndWrite? && h.answer.reply.Granted? ==>
            h.answer.reply.lease.principal == c.command.auth.principal && h.answer.reply.lease.connection == c.command.auth.connection
            && h.answer.reply.lease.terminal == start.terminal && h.answer.reply.lease.mode.Writer?)
  {
    hide Reached, AuthorizedBy, Obeys, Serial, OwnerCommand, Opens;
    OpensReached(start, ttl, begun);
    SerialReached(start, ttl, commands);
    var core := Serial(start, commands).core;
    HandleObeys(core, ttl, c);
    if c.command.AuthorizeAndWrite? && AuthorizedBy(core, c.command.auth, c.now, c.later).1.Granted? {
      GrantedIsCallers(core, ttl, c.command.auth, c.now, c.later);
    }
  }
}
