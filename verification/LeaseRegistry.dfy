/** The lease registry as the runtime holds it: a map of terminals that every method updates. */
module LeaseRegistry {
  import opened Wrappers
  import opened Leases
  import opened LeasesProof

  class TerminalControlRegistry {
    var terminals: map<Id, State>
    var nextSerial: nat
    const ttl: int

    function Contents(): Registry
      reads this
    {
      Registry(terminals, nextSerial, ttl)
    }

    constructor ()
      ensures Contents() == Empty(DEFAULT_LEASE_TTL_MS)
    {
      terminals, nextSerial, ttl := map[], 0, DEFAULT_LEASE_TTL_MS;
    }

    method RegisterTerminal(terminal: Id, epoch: Id, now: int) returns (reply: Reply)
      modifies this
      ensures (Contents(), reply) == Step(old(Contents()), Register(terminal, epoch), now)
    {
      if terminal == "" || epoch == "" {
        return Refused(TerminalNotFound);
      }
      if terminal in terminals {
        return if terminals[terminal].epoch != epoch then Refused(TerminalEpochStale) else Done;
      }
      terminals := terminals[terminal := State(epoch, 0, None, [], [], [])];
      reply := Done;
    }

    method UnregisterTerminal(terminal: Id, epoch: Option<Id>, now: int)
      modifies this
      ensures (Contents(), Done) == Step(old(Contents()), Unregister(terminal, epoch), now)
    {
      if terminal in terminals && (epoch.None? || terminals[terminal].epoch == epoch.value) {
        terminals := terminals - {terminal};
      }
    }

    /** The refusal for an unknown terminal or a stale epoch. */
    function StateForEpoch(terminal: Id, epoch: Id): (refusal: Option<Reply>)
      reads this
      ensures refusal.None? <==> Known(Contents(), terminal, epoch)
      ensures refusal.Some? ==> (Contents(), refusal.value) == Unknown(Contents(), terminal)
    {
      if terminal !in terminals then Some(Refused(TerminalNotFound))
      else if terminals[terminal].epoch != epoch then Some(Refused(TerminalEpochStale))
      else None
    }

    method Store(terminal: Id, s: State)
      modifies this
      ensures terminals == old(terminals)[terminal := s] && nextSerial == old(nextSerial) + 1
    {
      terminals := terminals[terminal := s];
      nextSerial := nextSerial + 1;
    }

    method AcquireLease(request: Request, now: int) returns (reply: Reply)
      modifies this
      ensures (Contents(), reply) == Step(old(Contents()), Acquire(request), now)
    {
      hide Purged, Renewed, Filter, FindHolder;
      var refusal := StateForEpoch(request.terminal, request.epoch);
      if refusal.Some? {
        return refusal.value;
      }
      var s := Purged(terminals[request.terminal], now);
      var existing := FindHolder(if request.mode.Writer? then s.writers else s.observers, request.principal, request.connection);
      if existing.Some? {
        var renewed := Renewed(s, existing.value.id, now + ttl);
        s, reply := renewed.0, renewed.1;
      } else if request.mode.Writer? {
        var observer := FindHolder(s.observers, request.principal, request.connection);
        if observer.Some? {
          s := s.(observers := Without(s.observers, observer.value.id));
        }
        if s.primary.None? {
          s := s.(generation := s.generation + 1);
        }
        var lease := Issued(s, request, nextSerial, now, ttl);
        s := s.(writers := s.writers + [lease]);
        if s.primary.None? {
          s := s.(primary := Some(lease.id));
        }
        reply := Granted(lease);
      } else {
        var lease := Issued(s, request, nextSerial, now, ttl);
        s := s.(observers := s.observers + [lease]);
        reply := Granted(lease);
      }
      Store(request.terminal, s);
    }

    method RenewLease(terminal: Id, epoch: Id, id: LeaseId, principal: Id, connection: Id, now: int) returns (reply: Reply)
      modifies this
      ensures (Contents(), reply) == Step(old(Contents()), Renew(terminal, epoch, id, principal, connection), now)
    {
      hide Purged, Renewed, Find;
      var refusal := StateForEpoch(terminal, epoch);
      if refusal.Some? {
        return refusal.value;
      }
      var s := Purged(terminals[terminal], now);
      var lease := FindLease(s, id);
      if lease.None? || lease.value.principal != principal || lease.value.connection != connection {
        reply := Refused(WriterLeaseStale);
      } else {
        var renewed := Renewed(s, id, now + ttl);
        s, reply := renewed.0, renewed.1;
      }
      Store(terminal, s);
    }

    method ReleaseLease(terminal: Id, epoch: Id, id: LeaseId, principal: Id, connection: Id, now: int) returns (reply: Reply)
      modifies this
      ensures (Contents(), reply) == Step(old(Contents()), Release(terminal, epoch, id, principal, connection), now)
    {
      hide Find, Filter;
      var refusal := StateForEpoch(terminal, epoch);
      if refusal.Some? {
        return refusal.value;
      }
      var s := terminals[terminal];
      var lease := FindLease(s, id);
      reply := Done;
      if lease.Some? && (lease.value.principal != principal || lease.value.connection != connection) {
        reply := Refused(LeaseNotHeld);
      } else if lease.Some? {
        s := s.(writers := Without(s.writers, id));
        if s.primary == Some(id) {
          s := s.(primary := First(s.writers));
        }
        s := s.(observers := Without(s.observers, id));
      }
      Store(terminal, s);
    }

    method ForceTakeover(terminal: Id, epoch: Id, principal: Id, connection: Id, now: int) returns (reply: Reply)
      modifies this
      ensures (Contents(), reply) == Step(old(Contents()), Takeover(terminal, epoch, principal, connection), now)
    {
      hide Filter;
      var refusal := StateForEpoch(terminal, epoch);
      if refusal.Some? {
        return refusal.value;
      }
      var s;
      s, reply := TakeOver(terminals[terminal], terminal, principal, connection, now);
      Store(terminal, s);
    }

    method TakeOver(from: State, terminal: Id, principal: Id, connection: Id, now: int) returns (s: State, reply: Reply)
      ensures (s, reply) == TakenOver(from, terminal, principal, connection, nextSerial, now, ttl)
    {
      hide Filter;
      s := from.(primary := None, writers := []);
      s := s.(observers := NotHeld(s.observers, principal, connection));
      s := s.(generation := s.generation + 1);
      var lease := Issued(s, Request(terminal, s.epoch, principal, connection, Writer), nextSerial, now, ttl);
      s := s.(primary := Some(lease.id));
      s := s.(writers := s.writers + [lease]);
      assert [] + [lease] == [lease];
      reply := Granted(lease);
    }

    method TransferLease(terminal: Id, epoch: Id, id: LeaseId, principal: Id, connection: Id, toPrincipal: Id, toConnection: Id,
                         now: int) returns (reply: Reply)
      modifies this
      ensures (Contents(), reply)
           == Step(old(Contents()), Transfer(terminal, epoch, id, principal, connection, toPrincipal, toConnection), now)
    {
      hide Purged, Find, TakenOver;
      var refusal := StateForEpoch(terminal, epoch);
      if refusal.Some? {
        return refusal.value;
      }
      var s := Purged(terminals[terminal], now);
      var writer := Find(s.writers, id);
      if writer.None? {
        reply := Refused(WriterLeaseStale);
      } else if writer.value.principal != principal || writer.value.connection != connection {
        reply := Refused(LeaseNotHeld);
      } else {
        s, reply := TakeOver(s, terminal, toPrincipal, toConnection, now);
      }
      Store(terminal, s);
    }

    method AuthorizeMutation(fence: Fence, now: int) returns (reply: Reply)
      modifies this
      ensures (Contents(), reply) == Step(old(Contents()), Authorize(fence), now)
    {
      hide Purged, Renewed, Find, LastCommands;
      var refusal := StateForEpoch(fence.terminal, fence.epoch);
      if refusal.Some? {
        return refusal.value;
      }
      var s := Purged(terminals[fence.terminal], now);
      var writer := Find(s.writers, fence.lease);
      if writer.None? {
        reply := Refused(if s.primary.Some? || s.writers != [] then WriterLeaseStale else WriterLeaseRequired);
      } else if writer.value.epoch != fence.epoch || writer.value.generation != fence.generation
                || writer.value.principal != fence.principal || writer.value.connection != fence.connection {
        reply := Refused(WriterLeaseStale);
      } else if fence.command in s.commands {
        reply := Refused(CommandDuplicate);
      } else {
        var commands := DropOldCommands(s.commands + [fence.command]);
        var renewed := Renewed(s.(commands := commands), fence.lease, now + ttl);
        s, reply := renewed.0, renewed.1;
      }
      Store(fence.terminal, s);
    }

    method DropOldCommands(all: seq<Id>) returns (commands: seq<Id>)
      ensures commands == LastCommands(all)
    {
      commands := all;
      ghost var dropped := 0;
      while |commands| > MAX_COMMAND_IDS
        invariant 0 <= dropped <= |all| && commands == all[dropped..]
        invariant dropped > 0 ==> |commands| >= MAX_COMMAND_IDS
        decreases |commands|
      {
        commands := commands[1..];
        dropped := dropped + 1;
      }
    }

    method PrimaryWriter(terminal: Id, now: int) returns (reply: Reply)
      modifies this
      ensures (Contents(), reply) == Step(old(Contents()), ReadWriter(terminal), now)
    {
      hide Purged, Find;
      if terminal !in terminals {
        return Refused(TerminalNotFound);
      }
      var s := Purged(terminals[terminal], now);
      var writer := if s.primary.Some? then Find(s.writers, s.primary.value) else None;
      reply := Listed(if writer.Some? then [writer.value] else []);
      Store(terminal, s);
    }

    method List(terminal: Id, now: int) returns (reply: Reply)
      modifies this
      ensures (Contents(), reply) == Step(old(Contents()), ListLeases(terminal), now)
    {
      hide Purged;
      if terminal !in terminals {
        return Refused(TerminalNotFound);
      }
      var s := Purged(terminals[terminal], now);
      reply := Listed(s.writers + s.observers);
      Store(terminal, s);
    }

    /** Every terminal loses the connection's leases; one whose last writer left promotes its first observer. */
    method ReleaseAll(connection: Id, now: int)
      modifies this
      ensures (Contents(), Done) == Step(old(Contents()), ReleaseConnection(connection), now)
    {
      hide Disconnected;
      terminals := DisconnectEach(terminals, connection, now);
      nextSerial := nextSerial + 1;
    }

    method DisconnectEach(before: map<Id, State>, connection: Id, now: int) returns (after: map<Id, State>)
      ensures after == map t | t in before :: Disconnected(before[t], connection, nextSerial, now, ttl)
    {
      hide Disconnected;
      var left := before.Keys;
      after := map[];
      while left != {}
        invariant left <= before.Keys && after.Keys == before.Keys - left
        invariant forall t :: t in after ==> after[t] == Disconnected(before[t], connection, nextSerial, now, ttl)
        decreases |left|
      {
        var t :| t in left;
        var s := Disconnect(before[t], connection, now);
        after := after[t := s];
        left := left - {t};
      }
    }

    method Disconnect(from: State, connection: Id, now: int) returns (s: State)
      ensures s == Disconnected(from, connection, nextSerial, now, ttl)
    {
      hide Filter, Purged;
      var purged := Purged(from, now);
      s := purged.(writers := NotConnected(purged.writers, connection), observers := NotConnected(purged.observers, connection));
      if s.primary.None? || Find(s.writers, s.primary.value).None? {
        s := s.(primary := First(s.writers));
      }
      if |s.writers| < |purged.writers| && s.writers == [] && s.observers != [] {
        var observer := s.observers[0];
        s := s.(observers := s.observers[1..], generation := s.generation + 1);
        var promoted := Issued(s, Request(observer.terminal, observer.epoch, observer.principal, observer.connection, Writer),
                               nextSerial, now, ttl);
        s := s.(primary := Some(promoted.id), writers := [promoted]);
      }
    }
  }
}
