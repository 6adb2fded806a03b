/**
  What each operation of the lease registry does, in every state a run reaches, told over the leases
  themselves: which are there afterwards, in which order, whose they are, and which is the primary.
*/
module LeaseEffects {
  import opened Wrappers
  import opened Leases
  import opened LeasesProof
  import opened LeasesTheorems

  // ----- saying what is left of a list -----

  /** `after` is exactly the leases of `before` that meet `keep`, in the same order. */
  predicate Selects(after: seq<Lease>, before: seq<Lease>, keep: Lease -> bool)
    decreases |before|
  {
    if before == [] then after == []
    else
      var init, last := before[..|before| - 1], before[|before| - 1];
      if keep(last) then after != [] && after[|after| - 1] == last && Selects(after[..|after| - 1], init, keep)
      else Selects(after, init, keep)
  }

  /** One lease's expiry is moved, and nothing else. */
  predicate Extends(after: seq<Lease>, before: seq<Lease>, id: LeaseId, expiresAt: int) {
    && |after| == |before|
    && forall i :: 0 <= i < |before| ==>
         after[i] == if before[i].id == id then before[i].(expiresAt := expiresAt) else before[i]
  }

  /** The previous primary stays if it is still a writer; else the first writer is primary, if there is one. */
  ghost predicate Succeeds(s: State, previous: Option<LeaseId>) {
    if exists w :: w in s.writers && previous == Some(w.id) then s.primary == previous
    else if s.writers == [] then s.primary.None?
    else s.primary == Some(s.writers[0].id)
  }

  /** `after` is `before` without its expired leases. */
  ghost predicate Purges(after: State, before: State, now: int) {
    && after == before.(writers := after.writers, observers := after.observers, primary := after.primary)
    && Selects(after.writers, before.writers, (l: Lease) => l.expiresAt > now)
    && Selects(after.observers, before.observers, (l: Lease) => l.expiresAt > now)
    && Succeeds(after, before.primary)
  }

  lemma {:induction false} SelectsPush(after: seq<Lease>, before: seq<Lease>, last: Lease, keep: Lease -> bool)
    requires Selects(after, before, keep)
    ensures Selects(if keep(last) then after + [last] else after, before + [last], keep)
  {
    assert (before + [last])[..|before|] == before;
    if keep(last) { assert (after + [last])[..|after|] == after; }
  }

  lemma {:induction false} SelectsFirst(after: seq<Lease>, before: seq<Lease>, first: Lease, keep: Lease -> bool)
    requires Selects(after, before, keep)
    ensures Selects((if keep(first) then [first] else []) + after, [first] + before, keep)
    decreases |before|
  {
    var head := if keep(first) then [first] else [];
    if before == [] {
      assert Selects([], [], keep);
      SelectsPush([], [], first, keep);
      assert [] + [first] == [first] && head + after == head && [first] + before == [first];
    } else {
      var init, last := before[..|before| - 1], before[|before| - 1];
      assert [first] + before == [first] + init + [last];
      if keep(last) {
        SelectsFirst(after[..|after| - 1], init, first, keep);
        SelectsPush(head + after[..|after| - 1], [first] + init, last, keep);
        assert head + after == head + after[..|after| - 1] + [last];
      } else {
        SelectsFirst(after, init, first, keep);
        SelectsPush(head + after, [first] + init, last, keep);
      }
    }
  }

  lemma {:induction false} FilterSelects(leases: seq<Lease>, keep: Lease -> bool)
    ensures Selects(Filter(leases, keep), leases, keep)
  {
    if leases != [] {
      FilterSelects(leases[1..], keep);
      SelectsFirst(Filter(leases[1..], keep), leases[1..], leases[0], keep);
      assert leases == [leases[0]] + leases[1..];
      assert [] + Filter(leases[1..], keep) == Filter(leases[1..], keep);
    }
  }

  lemma {:induction false} SelectsTwice(after: seq<Lease>, middle: seq<Lease>, before: seq<Lease>,
                                        first: Lease -> bool, second: Lease -> bool, both: Lease -> bool)
    requires Selects(middle, before, first) && Selects(after, middle, second)
    requires forall l: Lease :: both(l) == (first(l) && second(l))
    ensures Selects(after, before, both)
    decreases |before|
  {
    if before != [] {
      var init, last := before[..|before| - 1], before[|before| - 1];
      if first(last) {
        if second(last) {
          SelectsTwice(after[..|after| - 1], middle[..|middle| - 1], init, first, second, both);
        } else {
          SelectsTwice(after, middle[..|middle| - 1], init, first, second, both);
        }
      } else {
        SelectsTwice(after, middle, init, first, second, both);
      }
    }
  }

  lemma {:induction false} FilterShorter(leases: seq<Lease>, keep: Lease -> bool)
    ensures |Filter(leases, keep)| <= |leases|
    ensures |Filter(leases, keep)| < |leases| <==> exists l :: l in leases && !keep(l)
  {
    if leases != [] {
      FilterShorter(leases[1..], keep);
      assert leases == [leases[0]] + leases[1..];
      if l :| l in leases && !keep(l) { assert l == leases[0] || l in leases[1..]; }
    }
  }

  // ----- where leases belong -----

  /** Every lease is of this terminal and epoch, observers are observers, and no id is both. */
  ghost predicate Homed(s: State, t: Id) {
    && (forall l :: l in s.writers || l in s.observers ==> l.terminal == t && l.id.terminal == t && l.epoch == s.epoch)
    && (forall l :: l in s.observers ==> l.mode.Observer?)
    && (forall w, o :: w in s.writers && o in s.observers ==> w.id != o.id)
  }

  /** The operation concerns `t`, if it acquires a lease. */
  predicate About(op: Op, t: Id) {
    op.Acquire? ==> op.request.terminal == t
  }

  ghost predicate Sound(s: State, t: Id, serial: nat) {
    Ok(s, serial) && Homed(s, t)
  }

  lemma PurgeHomed(s: State, now: int, t: Id)
    requires Homed(s, t)
    ensures Homed(Purged(s, now), t)
  {
    hide Filter, Find;
    FilterMembers(s.writers, (l: Lease) => l.expiresAt > now);
    FilterMembers(s.observers, (l: Lease) => l.expiresAt > now);
  }

  /** Every lease of `after` is one of `before` but for its expiry. */
  ghost predicate Resembles(after: seq<Lease>, before: seq<Lease>) {
    forall l :: l in after ==>
      exists k :: k in before && k.id == l.id && k.terminal == l.terminal && k.epoch == l.epoch && k.mode == l.mode
  }

  lemma ExtendedResembles(leases: seq<Lease>, id: LeaseId, expiresAt: int)
    ensures Resembles(Extended(leases, id, expiresAt), leases)
  {
    var extended := Extended(leases, id, expiresAt);
    forall l | l in extended
      ensures exists k :: k in leases && k.id == l.id && k.terminal == l.terminal && k.epoch == l.epoch && k.mode == l.mode
    {
      var i :| 0 <= i < |extended| && extended[i] == l;
      assert leases[i] in leases;
    }
  }

  lemma ResemblingHomed(s: State, writers: seq<Lease>, observers: seq<Lease>, t: Id)
    requires Homed(s, t) && Resembles(writers, s.writers) && Resembles(observers, s.observers)
    ensures Homed(s.(writers := writers, observers := observers), t)
  {
  }

  lemma RenewHomed(s: State, id: LeaseId, expiresAt: int, t: Id)
    requires Homed(s, t)
    ensures Homed(Renewed(s, id, expiresAt).0, t)
  {
    hide Extended, Find, Homed, Resembles;
    ExtendedResembles(s.writers, id, expiresAt);
    ExtendedResembles(s.observers, id, expiresAt);
    ItselfResembles(s.writers);
    ItselfResembles(s.observers);
    ResemblingHomed(s, Extended(s.writers, id, expiresAt), s.observers, t);
    ResemblingHomed(s, s.writers, Extended(s.observers, id, expiresAt), t);
  }

  lemma ItselfResembles(leases: seq<Lease>)
    ensures Resembles(leases, leases)
  {
  }

  lemma AcquireHomed(s: State, request: Request, serial: nat, now: int, ttl: int, t: Id)
    requires Sound(s, t, serial) && request.terminal == t
    ensures Homed(Acquired(s, request, serial, now, ttl).0, t)
  {
    hide Distinct, Current, PrimaryIsWriter, Filter, Renewed, Find, Purged;
    var purged := Purged(s, now);
    PurgeHomed(s, now, t);
    PurgedOk(s, now, serial);
    var held := FindHolder(if request.mode.Writer? then purged.writers else purged.observers, request.principal, request.connection);
    if held.Some? {
      RenewHomed(purged, held.value.id, now + ttl, t);
    } else if request.mode.Writer? {
      var observer := FindHolder(purged.observers, request.principal, request.connection);
      if observer.Some? { FilterMembers(purged.observers, (l: Lease) => l.id != observer.value.id); }
    }
  }

  lemma ReleaseHomed(s: State, id: LeaseId, principal: Id, connection: Id, t: Id)
    requires Homed(s, t)
    ensures Homed(Released(s, id, principal, connection).0, t)
  {
    hide Filter, Find;
    FilterMembers(s.writers, (l: Lease) => l.id != id);
    FilterMembers(s.observers, (l: Lease) => l.id != id);
  }

  lemma TakeoverHomed(s: State, principal: Id, connection: Id, serial: nat, now: int, ttl: int, t: Id)
    requires Sound(s, t, serial)
    ensures Homed(TakenOver(s, t, principal, connection, serial, now, ttl).0, t)
  {
    hide Distinct, Current, PrimaryIsWriter, Filter;
    FilterMembers(s.observers, (l: Lease) => l.principal != principal || l.connection != connection);
  }

  lemma DisconnectHomed(s: State, connection: Id, serial: nat, now: int, ttl: int, t: Id)
    requires Sound(s, t, serial)
    ensures Homed(Disconnected(s, connection, serial, now, ttl), t)
  {
    hide Distinct, Current, PrimaryIsWriter, Filter, Find, Purged;
    PurgeHomed(s, now, t);
    PurgedOk(s, now, serial);
    var purged := Purged(s, now);
    var keep := (l: Lease) => l.connection != connection;
    FilterMembers(purged.writers, keep);
    FilterMembers(purged.observers, keep);
    var observers := NotConnected(purged.observers, connection);
    if observers != [] { assert observers[0] in observers; }
  }

  lemma OutcomeHomed(s: State, op: Op, serial: nat, now: int, ttl: int, t: Id)
    requires Sound(s, t, serial) && Target(op).Some? && Target(op).value.0 == t
    ensures Homed(Outcome(s, op, serial, now, ttl).0, t)
  {
    hide Ok, Homed, Purged, Acquired, Renewed, Released, TakenOver, LastCommands;
    PurgeHomed(s, now, t);
    PurgedOk(s, now, serial);
    var purged := Purged(s, now);
    match op
    case Acquire(request) => AcquireHomed(s, request, serial, now, ttl, t);
    case Renew(_, _, lease, _, _) => RenewHomed(purged, lease, now + ttl, t);
    case Release(_, _, lease, principal, connection) => ReleaseHomed(s, lease, principal, connection, t);
    case Takeover(_, _, principal, connection) => TakeoverHomed(s, principal, connection, serial, now, ttl, t);
    case Transfer(_, _, _, _, _, principal, connection) => TakeoverHomed(purged, principal, connection, serial, now, ttl, t);
    case Authorize(fence) =>
      var commanded := purged.(commands := LastCommands(purged.commands + [fence.command]));
      CommandsHomed(purged, commanded.commands, t);
      RenewHomed(commanded, fence.lease, now + ttl, t);
  }

  lemma CommandsHomed(s: State, commands: seq<Id>, t: Id)
    requires Homed(s, t)
    ensures Homed(s.(commands := commands), t)
  {
  }

  lemma StepHomed(r: Registry, op: Op, now: int, t: Id)
    requires t in r.terminals ==> Sound(r.terminals[t], t, r.nextSerial)
    ensures var next := Step(r, op, now).0; t in next.terminals ==> Homed(next.terminals[t], t)
  {
    hide Ok, Homed, Purged, Disconnected, Outcome, Find;
    if Target(op).Some? {
      TargetedStep(r, op, now);
      if Known(r, t, Target(op).value.1) && Target(op).value.0 == t { OutcomeHomed(r.terminals[t], op, r.nextSerial, now, r.ttl, t); }
    } else if t in r.terminals {
      PurgeHomed(r.terminals[t], now, t);
      if op.ReleaseConnection? { DisconnectHomed(r.terminals[t], op.connection, r.nextSerial, now, r.ttl, t); }
    } else if op.Register? {
      NewHomed(op.epoch, t);
    }
  }

  lemma NewHomed(epoch: Id, t: Id)
    ensures Homed(State(epoch, 0, None, [], [], []), t)
  {
  }

  lemma {:induction false} RunSound(ttl: int, calls: seq<Call>, t: Id)
    ensures var r := Run(ttl, calls); r.ttl == ttl && (t in r.terminals ==> Sound(r.terminals[t], t, r.nextSerial))
  {
    hide Ok, Homed, Step;
    RunOk(ttl, calls, t);
    if calls != [] {
      var init, last := calls[..|calls| - 1], calls[|calls| - 1];
      RunSound(ttl, init, t);
      StepHomed(Run(ttl, init), last.op, last.now, t);
    }
  }

  // ----- expiry -----

  lemma PurgedPurges(s: State, now: int)
    ensures Purges(Purged(s, now), s, now)
  {
    hide Filter, Selects;
    FilterSelects(s.writers, (l: Lease) => l.expiresAt > now);
    FilterSelects(s.observers, (l: Lease) => l.expiresAt > now);
    var purged := Purged(s, now);
    if w :| w in purged.writers && s.primary == Some(w.id) {
      assert Find(purged.writers, w.id).Some?;
    }
  }

  lemma FoundIn(leases: seq<Lease>, id: LeaseId)
    ensures Find(leases, id).Some? <==> exists l :: l in leases && l.id == id
  {
  }

  // ----- disconnection -----

  /** A live lease of another connection. */
  function Elsewhere(connection: Id, now: int): Lease -> bool {
    (l: Lease) => l.expiresAt > now && l.connection != connection
  }

  /**
    What is left when connection `c` has gone: nothing of its own, every live lease of the others, in
    order. If that took the last live writer, the first observer left becomes the writer and primary of
    the next generation.
  */
  ghost predicate Leaves(after: State, before: State, t: Id, c: Id, serial: nat, now: int, ttl: int) {
    exists writers: seq<Lease>, observers: seq<Lease> ::
      && Selects(writers, before.writers, Elsewhere(c, now)) && Selects(observers, before.observers, Elsewhere(c, now))
      && if writers == [] && observers != [] && (exists w :: w in before.writers && w.expiresAt > now && w.connection == c) then
           var lease := Lease(LeaseId(t, serial), t, before.epoch, before.generation + 1,
                              observers[0].principal, observers[0].connection, Writer, now, now + ttl);
           after == before.(writers := [lease], observers := observers[1..], primary := Some(lease.id),
                            generation := before.generation + 1)
         else
           && after == before.(writers := writers, observers := observers, primary := after.primary)
           && Succeeds(after, before.primary)
  }

  lemma SelectedElsewhere(leases: seq<Lease>, connection: Id, now: int)
    ensures Selects(NotConnected(Alive(leases, now), connection), leases, Elsewhere(connection, now))
    ensures |NotConnected(Alive(leases, now), connection)| < |Alive(leases, now)|
            <==> exists l :: l in leases && l.expiresAt > now && l.connection == connection
  {
    hide Filter, Selects;
    var live, others := (l: Lease) => l.expiresAt > now, (l: Lease) => l.connection != connection;
    FilterSelects(leases, live);
    FilterSelects(Filter(leases, live), others);
    SelectsTwice(Filter(Filter(leases, live), others), Filter(leases, live), leases, live, others, Elsewhere(connection, now));
    FilterShorter(Filter(leases, live), others);
    FilterMembers(leases, live);
  }

  lemma DisconnectedLeaves(s: State, t: Id, c: Id, serial: nat, now: int, ttl: int)
    requires Homed(s, t) && Distinct(s.writers)
    ensures Leaves(Disconnected(s, c, serial, now, ttl), s, t, c, serial, now, ttl)
    ensures forall l :: l in Disconnected(s, c, serial, now, ttl).writers || l in Disconnected(s, c, serial, now, ttl).observers ==>
              l.connection != c
  {
    hide Filter, Selects, Alive, NotConnected, Distinct;
    SelectedElsewhere(s.writers, c, now);
    SelectedElsewhere(s.observers, c, now);
    var writers, observers := NotConnected(Alive(s.writers, now), c), NotConnected(Alive(s.observers, now), c);
    OthersOnly(s.writers, c, now);
    OthersOnly(s.observers, c, now);
    var purged := Purged(s, now);
    var after := Disconnected(s, c, serial, now, ttl);
    if |writers| < |purged.writers| && writers == [] && observers != [] {
      assert observers[0] in observers;
      assert after.writers == [after.writers[0]];
    } else {
      assert after == s.(writers := writers, observers := observers, primary := after.primary);
      PrimaryPasses(s, c, now);
    }
  }

  lemma OthersOnly(leases: seq<Lease>, c: Id, now: int)
    ensures forall l :: l in NotConnected(Alive(leases, now), c) <==> l in leases && l.expiresAt > now && l.connection != c
  {
    hide Filter;
    FilterMembers(leases, (l: Lease) => l.expiresAt > now);
    FilterMembers(Alive(leases, now), (l: Lease) => l.connection != c);
  }

  lemma PrimaryPasses(s: State, c: Id, now: int)
    requires Distinct(s.writers)
    ensures var purged := Purged(s, now); var writers := NotConnected(purged.writers, c);
      var primary := if purged.primary.Some? && Find(writers, purged.primary.value).Some? then purged.primary else First(writers);
      Succeeds(s.(writers := writers, primary := primary), s.primary)
  {
    hide Filter, Distinct;
    var alive := Alive(s.writers, now);
    var writers := NotConnected(alive, c);
    FilterMembers(alive, (l: Lease) => l.connection != c);
    FilterDistinct(s.writers, (l: Lease) => l.expiresAt > now);
    FirstStays(alive, c);
    if w :| w in writers && s.primary == Some(w.id) {
      assert w in alive;
      assert Find(alive, w.id).Some? && Find(writers, w.id).Some?;
    } else if alive != [] {
      var kept := s.primary.Some? && Find(alive, s.primary.value).Some?;
      if !kept && Find(writers, alive[0].id).Some? {
        OneId(alive, alive[0], Find(writers, alive[0].id).value);
      }
    }
  }

  lemma FirstStays(leases: seq<Lease>, c: Id)
    ensures leases != [] && leases[0].connection != c ==> NotConnected(leases, c) != [] && NotConnected(leases, c)[0] == leases[0]
  {
  }

  /** In every run, a disconnection leaves every terminal as `Leaves` says, and no lease of the connection anywhere. */
  lemma ReleaseConnectionExactly(ttl: int, calls: seq<Call>, c: Id, now: int, t: Id)
    requires t in Run(ttl, calls).terminals
    ensures var r := Run(ttl, calls); var next := Step(r, ReleaseConnection(c), now);
      && next.1 == Done && next.0.terminals.Keys == r.terminals.Keys
      && (forall l :: l in next.0.terminals[t].writers || l in next.0.terminals[t].observers ==> l.connection != c)
      && Leaves(next.0.terminals[t], r.terminals[t], t, c, r.nextSerial, now, ttl)
  {
    hide Run, Disconnected, Leaves, Distinct, Homed;
    RunSound(ttl, calls, t);
    DisconnectedLeaves(Run(ttl, calls).terminals[t], t, c, Run(ttl, calls).nextSerial, now, ttl);
  }

  // ----- release -----

  ghost predicate Names(leases: seq<Lease>, id: LeaseId) {
    exists l :: l in leases && l.id == id
  }

  ghost predicate NamesHeld(leases: seq<Lease>, id: LeaseId, principal: Id, connection: Id) {
    exists l :: l in leases && l.id == id && l.principal == principal && l.connection == connection
  }

  /** Only its holder releases a lease; then it is gone and every other lease, live or not, stays. */
  lemma ReleaseExactly(ttl: int, calls: seq<Call>, t: Id, e: Id, id: LeaseId, principal: Id, connection: Id, now: int)
    requires Known(Run(ttl, calls), t, e)
    ensures var r := Run(ttl, calls); var next := Step(r, Release(t, e, id, principal, connection), now);
      var before, after := r.terminals[t], next.0.terminals[t];
      && next.0.terminals == r.terminals[t := after]
      && if !Names(before.writers + before.observers, id) then after == before && next.1 == Done
         else if !NamesHeld(before.writers + before.observers, id, principal, connection)
         then after == before && next.1 == Refused(LeaseNotHeld)
         else
           && after == before.(writers := after.writers, observers := after.observers, primary := after.primary)
           && Selects(after.writers, before.writers, (l: Lease) => l.id != id)
           && Selects(after.observers, before.observers, (l: Lease) => l.id != id)
           && Succeeds(after, before.primary) && next.1 == Done
  {
    hide Run, Released, Selects, Succeeds, Names, NamesHeld;
    RunSound(ttl, calls, t);
    var r := Run(ttl, calls);
    ReleasedLeases(r.terminals[t], t, id, principal, connection, r.nextSerial);
  }

  lemma ReleasedLeases(s: State, t: Id, id: LeaseId, principal: Id, connection: Id, serial: nat)
    requires Sound(s, t, serial)
    ensures var next := Released(s, id, principal, connection); var after := next.0;
      if !Names(s.writers + s.observers, id) then after == s && next.1 == Done
      else if !NamesHeld(s.writers + s.observers, id, principal, connection) then after == s && next.1 == Refused(LeaseNotHeld)
      else
        && after == s.(writers := after.writers, observers := after.observers, primary := after.primary)
        && Selects(after.writers, s.writers, (l: Lease) => l.id != id)
        && Selects(after.observers, s.observers, (l: Lease) => l.id != id)
        && Succeeds(after, s.primary) && next.1 == Done
  {
    hide Filter, Selects, Distinct, Below, Current;
    var all, keep := s.writers + s.observers, (l: Lease) => l.id != id;
    FilterSelects(s.writers, keep);
    FilterSelects(s.observers, keep);
    FilterMembers(s.writers, keep);
    HolderIsOne(s, t, id, serial);
    var lease := FindLease(s, id);
    if lease.Some? {
      assert lease.value in all;
    } else {
      assert !Names(all, id);
    }
    if s.primary.Some? {
      var primary := Find(s.writers, s.primary.value).value;
      if primary.id != id { assert primary in Without(s.writers, id); }
    }
  }

  lemma HolderIsOne(s: State, t: Id, id: LeaseId, serial: nat)
    requires Sound(s, t, serial)
    ensures forall a, b :: a in s.writers + s.observers && b in s.writers + s.observers && a.id == b.id ==> a == b
  {
    hide Below, Current, PrimaryIsWriter, Distinct;
    forall a, b | a in s.writers + s.observers && b in s.writers + s.observers && a.id == b.id
      ensures a == b
    {
      if a in s.writers && b in s.writers {
        OneId(s.writers, a, b);
      } else if a in s.observers && b in s.observers {
        OneId(s.observers, a, b);
      }
    }
  }

  // ----- takeover and transfer -----

  function NotOf(principal: Id, connection: Id): Lease -> bool {
    (l: Lease) => l.principal != principal || l.connection != connection
  }

  function NewLease(t: Id, serial: nat, epoch: Id, generation: nat, principal: Id, connection: Id, mode: Mode, now: int, ttl: int): Lease {
    Lease(LeaseId(t, serial), t, epoch, generation, principal, connection, mode, now, now + ttl)
  }

  /** The caller holds the only writer lease, of the next generation; only its own observer lease is gone. */
  ghost predicate Replaces(after: State, before: State, lease: Lease) {
    && after == before.(writers := [lease], observers := after.observers, primary := Some(lease.id), generation := before.generation + 1)
    && Selects(after.observers, before.observers, NotOf(lease.principal, lease.connection))
  }

  lemma TakenOverReplaces(s: State, t: Id, principal: Id, connection: Id, serial: nat, now: int, ttl: int)
    ensures var next := TakenOver(s, t, principal, connection, serial, now, ttl);
      var lease := NewLease(t, serial, s.epoch, s.generation + 1, principal, connection, Writer, now, ttl);
      next.1 == Granted(lease) && Replaces(next.0, s, lease)
  {
    hide Filter, Selects;
    FilterSelects(s.observers, (l: Lease) => l.principal != principal || l.connection != connection);
    SelectsSame(NotHeld(s.observers, principal, connection), s.observers,
                (l: Lease) => l.principal != principal || l.connection != connection, NotOf(principal, connection));
  }

  lemma {:induction false} SelectsSame(after: seq<Lease>, before: seq<Lease>, keep: Lease -> bool, also: Lease -> bool)
    requires Selects(after, before, keep) && forall l :: l in before ==> keep(l) == also(l)
    ensures Selects(after, before, also)
    decreases |before|
  {
    if before != [] {
      var init, last := before[..|before| - 1], before[|before| - 1];
      assert last in before;
      SelectsSame(if keep(last) then after[..|after| - 1] else after, init, keep, also);
    }
  }

  lemma TakeoverExactly(ttl: int, calls: seq<Call>, t: Id, e: Id, principal: Id, connection: Id, now: int)
    requires Known(Run(ttl, calls), t, e)
    ensures var r := Run(ttl, calls); var next := Step(r, Takeover(t, e, principal, connection), now);
      var before, after := r.terminals[t], next.0.terminals[t];
      var lease := NewLease(t, r.nextSerial, e, before.generation + 1, principal, connection, Writer, now, ttl);
      && next.0.terminals == r.terminals[t := after] && next.1 == Granted(lease) && Replaces(after, before, lease)
  {
    hide Run, TakenOver, Replaces;
    RunSound(ttl, calls, t);
    var r := Run(ttl, calls);
    TakenOverReplaces(r.terminals[t], t, principal, connection, r.nextSerial, now, r.ttl);
  }

  /** Only the live writer named hands over, and then to the target named. */
  lemma TransferExactly(ttl: int, calls: seq<Call>, t: Id, e: Id, id: LeaseId, principal: Id, connection: Id,
                        toPrincipal: Id, toConnection: Id, now: int)
    requires Known(Run(ttl, calls), t, e)
    ensures var r := Run(ttl, calls);
      var next := Step(r, Transfer(t, e, id, principal, connection, toPrincipal, toConnection), now);
      var before, after := r.terminals[t], next.0.terminals[t];
      && next.0.terminals == r.terminals[t := after]
      && exists live :: Purges(live, before, now)
           && if !Names(live.writers, id) then after == live && next.1 == Refused(WriterLeaseStale)
              else if !NamesHeld(live.writers, id, principal, connection) then after == live && next.1 == Refused(LeaseNotHeld)
              else
                var lease := NewLease(t, r.nextSerial, e, before.generation + 1, toPrincipal, toConnection, Writer, now, ttl);
                next.1 == Granted(lease) && Replaces(after, live, lease)
  {
    hide Run, TakenOver, Replaces, Purged, Purges, Distinct, Below, Current, PrimaryIsWriter, Homed;
    RunSound(ttl, calls, t);
    var r := Run(ttl, calls);
    var s := r.terminals[t];
    PurgedOk(s, now, r.nextSerial);
    PurgedPurges(s, now);
    var live := Purged(s, now);
    TakenOverReplaces(live, t, toPrincipal, toConnection, r.nextSerial, now, r.ttl);
    FoundHeld(live.writers, id, principal, connection);
  }

  lemma FoundHeld(leases: seq<Lease>, id: LeaseId, principal: Id, connection: Id)
    requires Distinct(leases)
    ensures Find(leases, id).Some? <==> Names(leases, id)
    ensures Find(leases, id).Some? && Find(leases, id).value.principal == principal && Find(leases, id).value.connection == connection
            <==> NamesHeld(leases, id, principal, connection)
  {
    hide Distinct;
    forall l | l in leases && l.id == id
      ensures Find(leases, id) == Some(l)
    {
      OneId(leases, l, Find(leases, id).value);
    }
  }

  // ----- acquiring -----

  ghost predicate Holds(leases: seq<Lease>, principal: Id, connection: Id) {
    exists l :: l in leases && l.principal == principal && l.connection == connection
  }

  /** The caller's lease in the list, with its expiry moved. */
  ghost predicate Prolongs(lease: Lease, after: seq<Lease>, before: seq<Lease>, principal: Id, connection: Id, expiresAt: int) {
    && (exists l :: l in before && l.principal == principal && l.connection == connection && lease == l.(expiresAt := expiresAt))
    && Extends(after, before, lease.id, expiresAt)
  }

  /**
    A writer that already has a live lease keeps it, prolonged. Any other caller gets a new one at the end of
    the writers, giving up its observer lease; the first writer opens the next generation and is primary.
  */
  ghost predicate Admits(after: State, live: State, reply: Reply, t: Id, serial: nat, principal: Id, connection: Id, now: int, ttl: int) {
    if Holds(live.writers, principal, connection) then
      && reply.Granted? && after == live.(writers := after.writers)
      && Prolongs(reply.lease, after.writers, live.writers, principal, connection, now + ttl)
    else
      var generation := live.generation + if live.writers == [] then 1 else 0;
      var lease := NewLease(t, serial, live.epoch, generation, principal, connection, Writer, now, ttl);
      && reply == Granted(lease)
      && after == live.(writers := live.writers + [lease], observers := after.observers, generation := generation,
                        primary := if live.writers == [] then Some(lease.id) else live.primary)
      && Selects(after.observers, live.observers, NotOf(principal, connection))
  }

  ghost predicate Watches(after: State, live: State, reply: Reply, t: Id, serial: nat, principal: Id, connection: Id, now: int, ttl: int) {
    if Holds(live.observers, principal, connection) then
      && reply.Granted? && after == live.(observers := after.observers)
      && Prolongs(reply.lease, after.observers, live.observers, principal, connection, now + ttl)
    else
      var lease := NewLease(t, serial, live.epoch, live.generation, principal, connection, Observer, now, ttl);
      reply == Granted(lease) && after == live.(observers := live.observers + [lease])
  }

  lemma HolderFound(leases: seq<Lease>, principal: Id, connection: Id)
    ensures FindHolder(leases, principal, connection).Some? <==> Holds(leases, principal, connection)
  {
  }

  lemma RenewedProlongs(s: State, t: Id, serial: nat, writers: bool, principal: Id, connection: Id, expiresAt: int)
    requires Sound(s, t, serial)
    requires var leases := if writers then s.writers else s.observers; FindHolder(leases, principal, connection).Some?
    ensures var leases := if writers then s.writers else s.observers;
      var next := Renewed(s, FindHolder(leases, principal, connection).value.id, expiresAt);
      var after := if writers then next.0.writers else next.0.observers;
      && next.1.Granted? && next.0 == (if writers then s.(writers := after) else s.(observers := after))
      && Prolongs(next.1.lease, after, leases, principal, connection, expiresAt)
  {
    hide Distinct, Below, Current, PrimaryIsWriter, Extended;
    var leases := if writers then s.writers else s.observers;
    var held := FindHolder(leases, principal, connection).value;
    HolderIsOne(s, t, held.id, serial);
    assert held in s.writers + s.observers;
    FoundIn(s.writers, held.id);
    FoundIn(s.observers, held.id);
    var found := FindLease(s, held.id).value;
    assert found in s.writers + s.observers && found == held;
    if !writers { assert Find(s.writers, held.id).None?; }
  }

  lemma AcquiredAdmits(s: State, t: Id, serial: nat, principal: Id, connection: Id, now: int, ttl: int)
    requires Sound(s, t, serial)
    ensures var next := AcquiredWriter(s, Request(t, s.epoch, principal, connection, Writer), serial, now, ttl);
      Admits(next.0, s, next.1, t, serial, principal, connection, now, ttl)
  {
    hide Distinct, Below, Current, Homed, Selects, Renewed, Filter, Prolongs, Holds;
    HolderFound(s.writers, principal, connection);
    if FindHolder(s.writers, principal, connection).Some? {
      RenewedProlongs(s, t, serial, true, principal, connection, now + ttl);
    } else {
      ObserverGone(s.observers, principal, connection);
      assert s.primary.None? <==> s.writers == [];
      assert [] + [NewLease(t, serial, s.epoch, s.generation + 1, principal, connection, Writer, now, ttl)]
          == [NewLease(t, serial, s.epoch, s.generation + 1, principal, connection, Writer, now, ttl)];
    }
  }

  /** Removing the caller's observer lease by its id removes exactly what the caller holds. */
  lemma ObserverGone(observers: seq<Lease>, principal: Id, connection: Id)
    requires Distinct(observers)
    ensures var found := FindHolder(observers, principal, connection);
      Selects(if found.Some? then Without(observers, found.value.id) else observers, observers, NotOf(principal, connection))
  {
    hide Filter, Selects, Distinct;
    var found := FindHolder(observers, principal, connection);
    if found.Some? {
      var keep := (l: Lease) => l.id != found.value.id;
      FilterSelects(observers, keep);
      forall l | l in observers
        ensures keep(l) == NotOf(principal, connection)(l)
      {
        if l.id == found.value.id { OneId(observers, l, found.value); }
        if SameHolder(l, found.value) { OneHolder(observers, l, found.value); }
      }
      SelectsSame(Without(observers, found.value.id), observers, keep, NotOf(principal, connection));
    } else {
      SelectsAll(observers, NotOf(principal, connection));
    }
  }

  lemma OneHolder(leases: seq<Lease>, a: Lease, b: Lease)
    requires Distinct(leases) && a in leases && b in leases && SameHolder(a, b)
    ensures a == b
  {
    var i :| 0 <= i < |leases| && leases[i] == a;
    var j :| 0 <= j < |leases| && leases[j] == b;
    if i < j {} else if j < i {}
  }

  lemma {:induction false} SelectsAll(leases: seq<Lease>, keep: Lease -> bool)
    requires forall l :: l in leases ==> keep(l)
    ensures Selects(leases, leases, keep)
  {
    if leases != [] {
      assert leases[|leases| - 1] in leases;
      SelectsAll(leases[..|leases| - 1], keep);
    }
  }

  lemma AcquiredWatches(s: State, t: Id, serial: nat, principal: Id, connection: Id, now: int, ttl: int)
    requires Sound(s, t, serial)
    ensures var next := AcquiredObserver(s, Request(t, s.epoch, principal, connection, Observer), serial, now, ttl);
      Watches(next.0, s, next.1, t, serial, principal, connection, now, ttl)
  {
    hide Distinct, Below, Current, Homed, Renewed, Prolongs, Holds;
    HolderFound(s.observers, principal, connection);
    if FindHolder(s.observers, principal, connection).Some? {
      RenewedProlongs(s, t, serial, false, principal, connection, now + ttl);
    }
  }

  /** A known terminal always grants; expired leases are gone first. */
  lemma AcquireExactly(ttl: int, calls: seq<Call>, t: Id, e: Id, principal: Id, connection: Id, mode: Mode, now: int)
    requires Known(Run(ttl, calls), t, e)
    ensures var r := Run(ttl, calls); var next := Step(r, Acquire(Request(t, e, principal, connection, mode)), now);
      var before, after := r.terminals[t], next.0.terminals[t];
      && next.0.terminals == r.terminals[t := after]
      && exists live :: Purges(live, before, now)
           && if mode.Writer? then Admits(after, live, next.1, t, r.nextSerial, principal, connection, now, ttl)
              else Watches(after, live, next.1, t, r.nextSerial, principal, connection, now, ttl)
  {
    hide Run, Purged, Purges, AcquiredWriter, AcquiredObserver, Admits, Watches, Ok, Homed;
    RunSound(ttl, calls, t);
    var r := Run(ttl, calls);
    var s := r.terminals[t];
    PurgedOk(s, now, r.nextSerial);
    PurgeHomed(s, now, t);
    PurgedPurges(s, now);
    var live := Purged(s, now);
    AcquiredAdmits(live, t, r.nextSerial, principal, connection, now, r.ttl);
    AcquiredWatches(live, t, r.nextSerial, principal, connection, now, r.ttl);
  }

  // ----- renewing -----

  /** Only a live lease's holder renews it, and then only its expiry moves. */
  lemma RenewExactly(ttl: int, calls: seq<Call>, t: Id, e: Id, id: LeaseId, principal: Id, connection: Id, now: int)
    requires Known(Run(ttl, calls), t, e)
    ensures var r := Run(ttl, calls); var next := Step(r, Renew(t, e, id, principal, connection), now);
      var before, after := r.terminals[t], next.0.terminals[t];
      && next.0.terminals == r.terminals[t := after]
      && exists live :: Purges(live, before, now)
           && if NamesHeld(live.writers + live.observers, id, principal, connection) then
                && after == live.(writers := after.writers, observers := after.observers)
                && Extends(after.writers, live.writers, id, now + ttl) && Extends(after.observers, live.observers, id, now + ttl)
                && (exists l :: l in live.writers + live.observers && l.id == id && next.1 == Granted(l.(expiresAt := now + ttl)))
              else after == live && next.1 == Refused(WriterLeaseStale)
  {
    hide Run, Purged, Purges, Reheld, Ok, Homed;
    RunSound(ttl, calls, t);
    var r := Run(ttl, calls);
    var s := r.terminals[t];
    PurgedPurges(s, now);
    ReheldLeases(s, t, id, principal, connection, r.nextSerial, now, r.ttl);
    assert Purges(Purged(s, now), s, now);
  }

  lemma ReheldLeases(s: State, t: Id, id: LeaseId, principal: Id, connection: Id, serial: nat, now: int, ttl: int)
    requires Sound(s, t, serial)
    ensures var live, next := Purged(s, now), Reheld(s, id, principal, connection, now, ttl); var after := next.0;
      if NamesHeld(live.writers + live.observers, id, principal, connection) then
        && after == live.(writers := after.writers, observers := after.observers)
        && Extends(after.writers, live.writers, id, now + ttl) && Extends(after.observers, live.observers, id, now + ttl)
        && (exists l :: l in live.writers + live.observers && l.id == id && next.1 == Granted(l.(expiresAt := now + ttl)))
      else after == live && next.1 == Refused(WriterLeaseStale)
  {
    hide Purged, Ok, Extended;
    PurgedOk(s, now, serial);
    PurgeHomed(s, now, t);
    var live := Purged(s, now);
    HolderIsOne(live, t, id, serial);
    FoundIn(live.writers, id);
    FoundIn(live.observers, id);
    var found := FindLease(live, id);
    if found.Some? { assert found.value in live.writers + live.observers; }
  }

  // ----- the rest -----

  /** An authorization that is granted moves the writer's expiry and remembers the command; a refused one only drops expired leases. */
  lemma AuthorizeExactly(ttl: int, calls: seq<Call>, fence: Fence, now: int)
    requires Known(Run(ttl, calls), fence.terminal, fence.epoch)
    ensures var r := Run(ttl, calls); var next := Step(r, Authorize(fence), now);
      var before, after := r.terminals[fence.terminal], next.0.terminals[fence.terminal];
      && next.0.terminals == r.terminals[fence.terminal := after]
      && exists live :: Purges(live, before, now)
           && if exists w :: w in live.writers && w.id == fence.lease && w.generation == fence.generation
                             && w.principal == fence.principal && w.connection == fence.connection then
                if fence.command in before.commands then after == live && next.1 == Refused(CommandDuplicate)
                else
                  && after == live.(writers := after.writers, commands := LastCommands(before.commands + [fence.command]))
                  && Extends(after.writers, live.writers, fence.lease, now + ttl)
                  && (exists w :: w in live.writers && w.id == fence.lease && next.1 == Granted(w.(expiresAt := now + ttl)))
              else
                && after == live
                && next.1 == Refused(if live.writers == [] then WriterLeaseRequired else WriterLeaseStale)
  {
    hide Run, Purged, Purges, Authorized, Ok, Homed, LastCommands;
    RunSound(ttl, calls, fence.terminal);
    var r := Run(ttl, calls);
    var s := r.terminals[fence.terminal];
    PurgedPurges(s, now);
    AuthorizedLeases(s, fence, r.nextSerial, now, r.ttl);
    assert Purges(Purged(s, now), s, now);
  }

  lemma AuthorizedLeases(s: State, fence: Fence, serial: nat, now: int, ttl: int)
    requires Sound(s, fence.terminal, serial) && fence.epoch == s.epoch
    ensures var live, next := Purged(s, now), Authorized(s, fence, now, ttl); var after := next.0;
      if exists w :: w in live.writers && w.id == fence.lease && w.generation == fence.generation
                     && w.principal == fence.principal && w.connection == fence.connection then
        if fence.command in s.commands then after == live && next.1 == Refused(CommandDuplicate)
        else
          && after == live.(writers := after.writers, commands := LastCommands(s.commands + [fence.command]))
          && Extends(after.writers, live.writers, fence.lease, now + ttl)
          && (exists w :: w in live.writers && w.id == fence.lease && next.1 == Granted(w.(expiresAt := now + ttl)))
      else after == live && next.1 == Refused(if live.writers == [] then WriterLeaseRequired else WriterLeaseStale)
  {
    hide Purged, Distinct, Below, Extended, LastCommands;
    PurgedOk(s, now, serial);
    PurgeHomed(s, now, fence.terminal);
    var live := Purged(s, now);
    forall w | w in live.writers && w.id == fence.lease
      ensures Find(live.writers, fence.lease) == Some(w)
    {
      OneId(live.writers, w, Find(live.writers, fence.lease).value);
    }
  }

  /** Listing and reading the primary only drop expired leases, and tell what is left. */
  lemma ListExactly(ttl: int, calls: seq<Call>, t: Id, now: int)
    requires t in Run(ttl, calls).terminals
    ensures var r := Run(ttl, calls); var listed, read := Step(r, ListLeases(t), now), Step(r, ReadWriter(t), now);
      exists live :: Purges(live, r.terminals[t], now)
        && listed.0.terminals == read.0.terminals == r.terminals[t := live]
        && listed.1 == Listed(live.writers + live.observers)
        && (if live.writers == [] then read.1 == Listed([])
            else exists w :: w in live.writers && live.primary == Some(w.id) && read.1 == Listed([w]))
  {
    hide Run, Purged, Purges, Homed, Distinct, Below, Current;
    RunSound(ttl, calls, t);
    var r := Run(ttl, calls);
    PurgedOk(r.terminals[t], now, r.nextSerial);
    PurgedPurges(r.terminals[t], now);
    var live := Purged(r.terminals[t], now);
    if live.primary.Some? { assert Find(live.writers, live.primary.value).value in live.writers; }
  }

  /** An operation about an unknown terminal or a stale epoch changes nothing and says which it was. */
  lemma UnknownRefused(r: Registry, op: Op, now: int)
    requires Target(op).Some? && !Known(r, Target(op).value.0, Target(op).value.1)
    ensures Step(r, op, now) == (r, Refused(if Target(op).value.0 in r.terminals then TerminalEpochStale else TerminalNotFound))
  {
    TargetedStep(r, op, now);
  }

  // ----- registering -----

  /** A terminal registers once, with no leases and generation 0; another epoch's or an empty name is refused; nothing else moves. */
  lemma RegisterExactly(r: Registry, t: Id, e: Id, now: int)
    ensures var next := Step(r, Register(t, e), now);
      && (next.1 == Done <==> t != "" && e != "" && (t in r.terminals ==> r.terminals[t].epoch == e))
      && (next.1 != Done ==> next.1 == Refused(if t == "" || e == "" then TerminalNotFound else TerminalEpochStale))
      && next.0.terminals.Keys == r.terminals.Keys + (if next.1 == Done then {t} else {})
      && (forall other :: other in r.terminals ==> next.0.terminals[other] == r.terminals[other])
      && (next.1 == Done && t !in r.terminals ==>
            var s := next.0.terminals[t];
            s.epoch == e && s.generation == 0 && s.primary.None? && s.writers == [] && s.observers == [] && s.commands == [])
  {
  }

  /** A terminal is forgotten exactly when the epoch named, if any, is its own; the others stay. */
  lemma UnregisterExactly(r: Registry, t: Id, e: Option<Id>, now: int)
    ensures var next := Step(r, Unregister(t, e), now);
      && next.1 == Done
      && (forall other :: other in next.0.terminals <==>
            other in r.terminals && !(other == t && (e.Some? ==> e.value == r.terminals[t].epoch)))
      && (forall other :: other in next.0.terminals ==> next.0.terminals[other] == r.terminals[other])
  {
  }
}
