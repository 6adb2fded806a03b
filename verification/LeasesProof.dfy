/** What every run of the lease registry keeps. */
module LeasesProof {
  import opened Wrappers
  import opened Leases

  predicate SameHolder(a: Lease, b: Lease) {
    a.principal == b.principal && a.connection == b.connection
  }

  /** No two leases share an id, and no principal and connection hold two. */
  ghost predicate Distinct(leases: seq<Lease>) {
    forall i, j :: 0 <= i < j < |leases| ==> leases[i].id != leases[j].id && !SameHolder(leases[i], leases[j])
  }

  ghost predicate Below(leases: seq<Lease>, serial: nat) {
    forall l :: l in leases ==> l.id.serial < serial
  }

  /** Every writer holds the current generation. */
  ghost predicate Current(s: State, writers: seq<Lease>) {
    forall l :: l in writers ==> l.generation == s.generation && l.epoch == s.epoch && l.mode == Writer
  }

  predicate PrimaryIsWriter(s: State) {
    && (s.primary.Some? <==> s.writers != [])
    && (s.primary.Some? ==> Find(s.writers, s.primary.value).Some?)
  }

  ghost predicate Ok(s: State, serial: nat) {
    && Distinct(s.writers) && Distinct(s.observers)
    && Below(s.writers, serial) && Below(s.observers, serial)
    && Current(s, s.writers) && PrimaryIsWriter(s)
  }

  // ----- lists -----

  lemma {:induction false} FilterMembers(leases: seq<Lease>, keep: Lease -> bool)
    ensures forall l :: l in Filter(leases, keep) <==> l in leases && keep(l)
  {
    if leases != [] {
      FilterMembers(leases[1..], keep);
      assert leases == [leases[0]] + leases[1..];
    }
  }

  lemma DistinctCons(head: Lease, rest: seq<Lease>)
    ensures Distinct([head] + rest) <==> Distinct(rest) && forall l :: l in rest ==> l.id != head.id && !SameHolder(head, l)
  {
    var all := [head] + rest;
    if Distinct(all) {
      forall l | l in rest
        ensures l.id != head.id && !SameHolder(head, l)
      {
        var i :| 0 <= i < |rest| && rest[i] == l;
        assert all[0] == head && all[i + 1] == l;
      }
      forall i, j | 0 <= i < j < |rest|
        ensures rest[i].id != rest[j].id && !SameHolder(rest[i], rest[j])
      {
        assert all[i + 1] == rest[i] && all[j + 1] == rest[j];
      }
    }
  }

  lemma {:induction false} FilterDistinct(leases: seq<Lease>, keep: Lease -> bool)
    requires Distinct(leases)
    ensures Distinct(Filter(leases, keep))
  {
    if leases != [] {
      hide Distinct;
      assert leases == [leases[0]] + leases[1..];
      DistinctCons(leases[0], leases[1..]);
      FilterDistinct(leases[1..], keep);
      FilterMembers(leases[1..], keep);
      DistinctCons(leases[0], Filter(leases[1..], keep));
    }
  }

  lemma FilterOk(leases: seq<Lease>, keep: Lease -> bool, s: State, serial: nat)
    ensures Distinct(leases) ==> Distinct(Filter(leases, keep))
    ensures Below(leases, serial) ==> Below(Filter(leases, keep), serial)
    ensures Current(s, leases) ==> Current(s, Filter(leases, keep))
  {
    hide Distinct;
    FilterMembers(leases, keep);
    if Distinct(leases) { FilterDistinct(leases, keep); }
  }

  lemma ExtendedOk(leases: seq<Lease>, id: LeaseId, expiresAt: int, s: State, serial: nat)
    ensures Distinct(leases) ==> Distinct(Extended(leases, id, expiresAt))
    ensures Below(leases, serial) ==> Below(Extended(leases, id, expiresAt), serial)
    ensures Current(s, leases) ==> Current(s, Extended(leases, id, expiresAt))
    ensures forall other :: Find(leases, other).Some? <==> Find(Extended(leases, id, expiresAt), other).Some?
  {
    var extended := Extended(leases, id, expiresAt);
    forall l | l in extended
      ensures exists k :: k in leases && k.id == l.id && k.generation == l.generation && k.epoch == l.epoch && k.mode == l.mode
    {
      var i :| 0 <= i < |extended| && extended[i] == l;
      assert leases[i] in leases;
    }
    forall other
      ensures Find(leases, other).Some? <==> Find(extended, other).Some?
    {
      if l :| l in leases && l.id == other {
        var i :| 0 <= i < |leases| && leases[i] == l;
        assert extended[i] in extended && extended[i].id == other;
      }
    }
  }

  lemma PushOk(leases: seq<Lease>, lease: Lease)
    requires Distinct(leases) && Below(leases, lease.id.serial)
    requires forall l :: l in leases ==> !SameHolder(l, lease)
    ensures Distinct(leases + [lease]) && Below(leases + [lease], lease.id.serial + 1)
    ensures forall id :: Find(leases, id).Some? ==> Find(leases + [lease], id).Some?
    ensures Find(leases + [lease], lease.id).Some?
  {
    assert lease in leases + [lease];
    forall id | Find(leases, id).Some?
      ensures Find(leases + [lease], id).Some?
    {
      assert Find(leases, id).value in leases + [lease];
    }
  }

  lemma FirstIsFound(leases: seq<Lease>)
    ensures leases != [] ==> First(leases).Some? && Find(leases, First(leases).value).Some?
    ensures leases == [] ==> First(leases).None?
  {
  }

  lemma FoundMeansNonEmpty(leases: seq<Lease>, id: LeaseId)
    ensures Find(leases, id).Some? ==> leases != []
  {
  }

  // ----- each operation on one terminal -----

  lemma BelowMore(leases: seq<Lease>, serial: nat)
    requires Below(leases, serial)
    ensures Below(leases, serial + 1)
  {
  }

  lemma OkMore(s: State, serial: nat)
    requires Ok(s, serial)
    ensures Ok(s, serial + 1)
  {
    hide Distinct, Current, PrimaryIsWriter;
    BelowMore(s.writers, serial);
    BelowMore(s.observers, serial);
  }

  lemma PurgedOk(s: State, now: int, serial: nat)
    requires Ok(s, serial)
    ensures Ok(Purged(s, now), serial)
    ensures Purged(s, now).generation == s.generation && Purged(s, now).epoch == s.epoch && Purged(s, now).commands == s.commands
  {
    hide Distinct, Below, Filter;
    var keep := (l: Lease) => l.expiresAt > now;
    FilterOk(s.writers, keep, s, serial);
    FilterOk(s.observers, keep, s, serial);
    var writers := Filter(s.writers, keep);
    FirstIsFound(writers);
    if s.primary.Some? { FoundMeansNonEmpty(writers, s.primary.value); }
  }

  lemma RenewedOk(s: State, id: LeaseId, expiresAt: int, serial: nat)
    requires Ok(s, serial)
    ensures Ok(Renewed(s, id, expiresAt).0, serial)
    ensures Renewed(s, id, expiresAt).0.generation == s.generation
  {
    hide Distinct, Below, Extended;
    ExtendedOk(s.writers, id, expiresAt, s, serial);
    ExtendedOk(s.observers, id, expiresAt, s, serial);
    var next := Renewed(s, id, expiresAt).0;
    assert |Extended(s.writers, id, expiresAt)| == |s.writers|;
  }

  lemma NewLeaseOk(s: State, request: Request, serial: nat, now: int, ttl: int)
    requires Ok(s, serial) && request.mode.Writer? && s.primary.Some?
    requires forall l :: l in s.writers ==> l.principal != request.principal || l.connection != request.connection
    ensures var lease := Issued(s, request, serial, now, ttl); Ok(s.(writers := s.writers + [lease]), serial + 1)
  {
    hide Distinct;
    var lease := Issued(s, request, serial, now, ttl);
    PushOk(s.writers, lease);
    BelowMore(s.observers, serial);
  }

  lemma FirstLeaseOk(s: State, request: Request, serial: nat, now: int, ttl: int)
    requires Distinct(s.observers) && Below(s.observers, serial) && request.mode.Writer?
    ensures var lease := Issued(s, request, serial, now, ttl);
      Ok(s.(writers := [lease], primary := Some(lease.id)), serial + 1)
  {
    hide Distinct;
    var lease := Issued(s, request, serial, now, ttl);
    DistinctCons(lease, []);
    EmptyDistinct();
    assert [lease] + [] == [lease];
    BelowMore(s.observers, serial);
    assert Find([lease], lease.id) == Some(lease);
  }

  lemma EmptyDistinct()
    ensures Distinct([])
  {
  }

  lemma AcquiredOk(s: State, request: Request, serial: nat, now: int, ttl: int)
    requires Ok(s, serial)
    ensures Ok(Acquired(s, request, serial, now, ttl).0, serial + 1)
    ensures Acquired(s, request, serial, now, ttl).0.generation >= s.generation
  {
    hide Ok, Purged;
    PurgedOk(s, now, serial);
    if request.mode.Writer? {
      AcquiredWriterOk(Purged(s, now), request, serial, now, ttl);
    } else {
      AcquiredObserverOk(Purged(s, now), request, serial, now, ttl);
    }
  }

  lemma AcquiredObserverOk(s: State, request: Request, serial: nat, now: int, ttl: int)
    requires Ok(s, serial) && request.mode.Observer?
    ensures Ok(AcquiredObserver(s, request, serial, now, ttl).0, serial + 1)
    ensures AcquiredObserver(s, request, serial, now, ttl).0.generation == s.generation
  {
    hide Distinct, Renewed;
    OkMore(s, serial);
    var existing := FindHolder(s.observers, request.principal, request.connection);
    if existing.Some? {
      RenewedOk(s, existing.value.id, now + ttl, serial + 1);
    } else {
      PushOk(s.observers, Issued(s, request, serial, now, ttl));
    }
  }

  lemma AcquiredWriterOk(s: State, request: Request, serial: nat, now: int, ttl: int)
    requires Ok(s, serial) && request.mode.Writer?
    ensures Ok(AcquiredWriter(s, request, serial, now, ttl).0, serial + 1)
    ensures AcquiredWriter(s, request, serial, now, ttl).0.generation >= s.generation
  {
    hide Distinct, Renewed, Filter;
    var existing := FindHolder(s.writers, request.principal, request.connection);
    if existing.Some? {
      RenewedOk(s, existing.value.id, now + ttl, serial);
      OkMore(Renewed(s, existing.value.id, now + ttl).0, serial);
    } else {
      var observer := FindHolder(s.observers, request.principal, request.connection);
      var left := if observer.Some? then s.(observers := Without(s.observers, observer.value.id)) else s;
      if observer.Some? { FilterOk(s.observers, (l: Lease) => l.id != observer.value.id, s, serial); }
      assert Ok(left, serial);
      if left.primary.None? {
        FirstLeaseOk(left.(generation := left.generation + 1), request, serial, now, ttl);
        assert [] + [Issued(left.(generation := left.generation + 1), request, serial, now, ttl)]
            == [Issued(left.(generation := left.generation + 1), request, serial, now, ttl)];
      } else {
        NewLeaseOk(left, request, serial, now, ttl);
      }
    }
  }

  lemma ReheldOk(s: State, id: LeaseId, principal: Id, connection: Id, serial: nat, now: int, ttl: int)
    requires Ok(s, serial)
    ensures Ok(Reheld(s, id, principal, connection, now, ttl).0, serial)
    ensures Reheld(s, id, principal, connection, now, ttl).0.generation == s.generation
  {
    hide Ok, Purged, Renewed;
    PurgedOk(s, now, serial);
    RenewedOk(Purged(s, now), id, now + ttl, serial);
  }

  lemma ReleasedOk(s: State, id: LeaseId, principal: Id, connection: Id, serial: nat)
    requires Ok(s, serial)
    ensures Ok(Released(s, id, principal, connection).0, serial)
    ensures Released(s, id, principal, connection).0.generation == s.generation
  {
    hide Distinct, Below, Filter;
    var keep := (l: Lease) => l.id != id;
    FilterOk(s.writers, keep, s, serial);
    FilterOk(s.observers, keep, s, serial);
    FilterMembers(s.writers, keep);
    var writers := Without(s.writers, id);
    FirstIsFound(writers);
    if s.primary.Some? && s.primary.value != id {
      var primary := Find(s.writers, s.primary.value).value;
      assert primary in writers;
      FoundMeansNonEmpty(writers, s.primary.value);
    }
  }

  lemma DisconnectedOk(s: State, connection: Id, serial: nat, now: int, ttl: int)
    requires Ok(s, serial)
    ensures Ok(Disconnected(s, connection, serial, now, ttl), serial + 1)
    ensures Disconnected(s, connection, serial, now, ttl).generation >= s.generation
  {
    hide Distinct, Below, Filter, Purged;
    PurgedOk(s, now, serial);
    var purged := Purged(s, now);
    var keep := (l: Lease) => l.connection != connection;
    FilterOk(purged.writers, keep, purged, serial);
    FilterOk(purged.observers, keep, purged, serial);
    var writers, observers := Filter(purged.writers, keep), Filter(purged.observers, keep);
    FirstIsFound(writers);
    if purged.primary.Some? { FoundMeansNonEmpty(writers, purged.primary.value); }
    var primary := if purged.primary.Some? && Find(writers, purged.primary.value).Some? then purged.primary else First(writers);
    var left := purged.(writers := writers, observers := observers, primary := primary);
    assert Ok(left, serial);
    OkMore(left, serial);
    if |writers| < |purged.writers| && writers == [] && observers != [] {
      assert observers == [observers[0]] + observers[1..];
      DistinctCons(observers[0], observers[1..]);
      BelowRest(observers, serial);
      FirstLeaseOk(left.(generation := left.generation + 1, observers := observers[1..]),
                   Request(observers[0].terminal, observers[0].epoch, observers[0].principal, observers[0].connection, Writer),
                   serial, now, ttl);
    }
  }

  lemma BelowRest(leases: seq<Lease>, serial: nat)
    requires Below(leases, serial) && leases != []
    ensures Below(leases[1..], serial)
  {
  }

  lemma TakenOverOk(s: State, terminal: Id, principal: Id, connection: Id, serial: nat, now: int, ttl: int)
    requires Ok(s, serial)
    ensures Ok(TakenOver(s, terminal, principal, connection, serial, now, ttl).0, serial + 1)
    ensures TakenOver(s, terminal, principal, connection, serial, now, ttl).0.generation > s.generation
  {
    hide Distinct, Below, Filter;
    FilterOk(s.observers, (l: Lease) => l.principal != principal || l.connection != connection, s, serial);
    FirstLeaseOk(s.(writers := [], observers := NotHeld(s.observers, principal, connection), generation := s.generation + 1),
                 Request(terminal, s.epoch, principal, connection, Writer), serial, now, ttl);
  }

  lemma TransferredOk(s: State, terminal: Id, id: LeaseId, principal: Id, connection: Id, toPrincipal: Id, toConnection: Id,
                      serial: nat, now: int, ttl: int)
    requires Ok(s, serial)
    ensures var next := Transferred(s, terminal, id, principal, connection, toPrincipal, toConnection, serial, now, ttl).0;
      Ok(next, serial + 1) && next.generation >= s.generation
  {
    hide Ok, Purged, TakenOver;
    PurgedOk(s, now, serial);
    OkMore(Purged(s, now), serial);
    TakenOverOk(Purged(s, now), terminal, toPrincipal, toConnection, serial, now, ttl);
  }

  lemma AuthorizedOk(s: State, fence: Fence, serial: nat, now: int, ttl: int)
    requires Ok(s, serial)
    ensures Ok(Authorized(s, fence, now, ttl).0, serial)
    ensures Authorized(s, fence, now, ttl).0.generation == s.generation
  {
    hide Ok, Purged, Renewed, LastCommands;
    PurgedOk(s, now, serial);
    var purged := Purged(s, now);
    var commands := LastCommands(purged.commands + [fence.command]);
    CommandsOk(purged, commands, serial);
    RenewedOk(purged.(commands := commands), fence.lease, now + ttl, serial);
  }

  lemma CommandsOk(s: State, commands: seq<Id>, serial: nat)
    requires Ok(s, serial)
    ensures Ok(s.(commands := commands), serial)
  {
    hide Distinct, Below;
  }
}
