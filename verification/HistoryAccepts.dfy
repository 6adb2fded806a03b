/** Which records the history accepts, over every run of the append and close protocol. */
module HistoryAccepts {
  import opened Wrappers
  import opened HistoryCodec
  import opened HistoryOwner
  import opened HistoryOwnerProof

  predicate InHand(queue: seq<Append>, id: Id) {
    exists i :: 0 <= i < |queue| && queue[i].id == id
  }

  /** The producer is free, the record has 1 to 64 KiB, no close is pending, and its sequence is new. */
  predicate Admits(s: System, id: Id, record: Record) {
    && !InHand(s.sending, id) && !InHand(s.reserving, id)
    && 1 <= |record.data| <= 64 * 1024
    && id !in s.pendingCloses
    && record.sequence >= 1 && (id in s.accepted ==> s.accepted[id] < record.sequence)
  }

  lemma {:induction false} QueuedNone(queue: seq<Append>, id: Id)
    ensures Queued(queue, id) != [] <==> InHand(queue, id)
  {
    if queue != [] {
      QueuedNone(queue[1..], id);
      if InHand(queue[1..], id) {
        var i :| 0 <= i < |queue[1..]| && queue[1..][i].id == id;
        assert queue[i + 1].id == id;
      }
      if InHand(queue, id) && queue[0].id != id {
        var i :| 0 <= i < |queue| && queue[i].id == id;
        assert queue[1..][i - 1].id == id;
      }
    }
  }

  lemma AcceptingIs(s: System, id: Id, record: Record)
    ensures Accepting(s, id, record) ==
            if Admits(s, id, record)
            then s.(accepted := s.accepted[id := record.sequence], reserving := s.reserving + [Append(id, record)],
                    log := s.log[id := Log(s, id) + [record]])
            else s
  {
    hide Queued, InHand;
    QueuedNone(s.sending, id);
    QueuedNone(s.reserving, id);
    assert Queued(s.sending, id) + Queued(s.reserving, id) == [] <==> Queued(s.sending, id) == [] && Queued(s.reserving, id) == [];
  }

  /** An admitted record is the newest on its way, and every other terminal is as it was; a refused one changes nothing. */
  lemma AcceptExactly(s: System, id: Id, record: Record)
    ensures var next := Step(s, Accept(id, record));
      if Admits(s, id, record) then
        && OnTheWay(next, id) == OnTheWay(s, id) + [record]
        && Log(next, id) == Log(s, id) + [record] && Accepted(next, id) == record.sequence
        && (forall other :: other != id ==> ViewOf(next, other) == ViewOf(s, other))
        && ViewOf(next, id).(log := [], accepted := 0, reserving := []) == ViewOf(s, id).(log := [], accepted := 0, reserving := [])
      else next == s
  {
    hide Queued, InHand, Throughs, Records, Closed;
    AcceptingIs(s, id, record);
    if Admits(s, id, record) {
      var next := Step(s, Accept(id, record));
      QueuedPush(s.reserving, Append(id, record), id);
      forall other | other != id
        ensures ViewOf(next, other) == ViewOf(s, other)
      {
        QueuedPush(s.reserving, Append(id, record), other);
        assert Queued(s.reserving, other) + [] == Queued(s.reserving, other);
        assert Records(next, other) == Records(s, other) && Closed(next, other) == Closed(s, other) by { SameDisk(s, next, other); }
      }
      SameDisk(s, next, id);
      assert OnTheWay(next, id) == OnTheWay(s, id) + [record];
    }
  }

  lemma SameDisk(s: System, next: System, id: Id)
    requires next.disk == s.disk
    ensures Records(next, id) == Records(s, id) && Closed(next, id) == Closed(s, id)
  {
  }

  lemma OnlyAccepting(s: System, e: Event)
    requires !e.Accept?
    ensures Step(s, e).log == s.log
    ensures !e.Read? && !e.OwnerAppend? ==> Step(s, e).accepted == s.accepted
  {
    hide Queued, LastOf, Accepted, Without, Records;
  }

  // ----- the accepted sequence -----

  /** A terminal's accepted sequence is its log's last, or was raised to that of a closed archive already past it. */
  ghost predicate LastAccepted(s: System, id: Id) {
    && LastOf(Log(s, id)) <= Accepted(s, id)
    && (Accepted(s, id) == LastOf(Log(s, id)) || (Closed(s, id) && Accepted(s, id) <= LastOf(Records(s, id))))
  }

  lemma LoadAccepted(s: System, target: Id, id: Id)
    requires Ok(ViewOf(s, id)) && LastAccepted(s, id)
    ensures LastAccepted(Loading(s, target), id)
  {
    hide Ok, Queued, LastOf, Throughs;
    LastOrZero([]);
    if target !in s.loaded && target in s.disk && target == id && !Closed(s, id) {
      OpenUnloaded(ViewOf(s, id));
    }
  }

  lemma OpenUnloaded(v: View)
    requires Ok(v) && v.present && !v.closed && v.loaded.None?
    ensures LastOf(v.records) == v.accepted
  {
    hide Increasing, LastOf;
    AllWritten(v);
  }

  lemma WriteAccepted(s: System, target: Id, record: Record, id: Id)
    requires LastAccepted(s, id) && target in s.loaded
    ensures LastAccepted(Writing(s, target, record), id)
  {
    hide Loading;
    LoadedAlready(s, target);
  }

  lemma AppendIsWriting(s: System)
    ensures Step(s, OwnerAppend) ==
            if s.ingest == [] || s.finalizing.Some? || s.releasing != 0 then s
            else Writing(s.(ingest := s.ingest[1..], releasing := |s.ingest[0].record.data|), s.ingest[0].id, s.ingest[0].record)
  {
    hide Writing;
  }

  lemma AppendAccepted(s: System, id: Id)
    requires Ok(ViewOf(s, id)) && LastAccepted(s, id)
    ensures LastAccepted(Step(s, OwnerAppend), id)
  {
    hide Ok, ViewOf, Step, Writing, Loading, LastAccepted;
    AppendIsWriting(s);
    if s.ingest != [] && s.finalizing.None? && s.releasing == 0 {
      var target, record := s.ingest[0].id, s.ingest[0].record;
      LoadAccepted(s, target, id);
      LoadCommutes(s, target);
      WriteAfterLoad(s.(ingest := s.ingest[1..], releasing := |record.data|), target, record);
      var loaded := Loading(s, target);
      var popped := loaded.(ingest := s.ingest[1..], releasing := |record.data|);
      InLoaded(s, target);
      PoppedAccepted(loaded, popped, id);
      WriteAccepted(popped, target, record, id);
    }
  }

  lemma PoppedAccepted(s: System, popped: System, id: Id)
    requires LastAccepted(s, id) && popped == s.(ingest := popped.ingest, releasing := popped.releasing)
    ensures LastAccepted(popped, id)
  {
  }

  lemma InLoaded(s: System, target: Id)
    ensures target in Loading(s, target).loaded
  {
    hide LastOf;
  }

  lemma StepAccepted(s: System, e: Event, id: Id)
    requires Ok(ViewOf(s, id)) && LastAccepted(s, id)
    ensures LastAccepted(Step(s, e), id)
  {
    hide Step, Ok, ViewOf, LastAccepted;
    if e.Accept? {
      AcceptAccepted(s, e.id, e.record, id);
    } else if e.OwnerAppend? {
      AppendAccepted(s, id);
    } else if e.Read? {
      LoadAccepted(s, e.id, id);
      ReadIsLoading(s, e.id);
    } else {
      OtherAccepted(s, e, id);
    }
  }

  lemma AcceptAccepted(s: System, target: Id, record: Record, id: Id)
    requires LastAccepted(s, id)
    ensures LastAccepted(Step(s, Accept(target, record)), id)
  {
    hide Queued, InHand, Accepting, LastOf;
    AcceptingIs(s, target, record);
    LastPush(Log(s, id), record);
  }

  lemma ReadIsLoading(s: System, target: Id)
    ensures Step(s, Read(target)) == if target in s.disk then Loading(s, target) else s
  {
    hide Loading;
  }

  lemma OtherAccepted(s: System, e: Event, id: Id)
    requires !e.Accept? && !e.OwnerAppend? && !e.Read? && LastAccepted(s, id)
    ensures LastAccepted(Step(s, e), id)
  {
    hide Step, LastOf, Records, Closed;
    OnlyAccepting(s, e);
    ClosedStays(s, e, id);
  }

  lemma LastPush(records: seq<Record>, record: Record)
    ensures LastOf(records + [record]) == record.sequence
  {
  }

  lemma ClosedStays(s: System, e: Event, id: Id)
    requires !e.Accept? && !e.OwnerAppend? && !e.Read?
    ensures Records(Step(s, e), id) == Records(s, id) && (Closed(s, id) ==> Closed(Step(s, e), id))
  {
    hide Queued, LastOf, Accepted, Without;
  }

  /**
    In every run the log gains a record exactly when the record is offered and admitted, and the accepted
    sequence it is admitted against is the log's last, or below that of a closed archive.
  */
  lemma {:induction false} LogIsWhatWasAdmitted(s: System, events: seq<Event>, e: Event, id: Id)
    requires Init(s)
    ensures var now := Run(s, events);
      && Log(Step(now, e), id) == Log(now, id) + (if e.Accept? && e.id == id && Admits(now, id, e.record) then [e.record] else [])
      && (Closed(now, id) || Accepted(now, id) == LastOf(Log(now, id)))
      && LastOf(Log(now, id)) <= Accepted(now, id)
  {
    hide Ok, ViewOf, Step, Init, LastOf, Admits;
    AcceptedInRuns(s, events, id);
    var now := Run(s, events);
    assert Log(now, id) + [] == Log(now, id);
    if e.Accept? {
      LogAccepts(now, e, id);
    } else {
      OnlyAccepting(now, e);
    }
  }

  lemma LogAccepts(s: System, e: Event, id: Id)
    requires e.Accept?
    ensures Log(Step(s, e), id) == Log(s, id) + if e.id == id && Admits(s, id, e.record) then [e.record] else []
  {
    hide Admits;
    AcceptingIs(s, e.id, e.record);
    assert Log(s, id) + [] == Log(s, id);
  }

  lemma {:induction false} AcceptedInRuns(s: System, events: seq<Event>, id: Id)
    requires Init(s)
    ensures LastAccepted(Run(s, events), id)
  {
    hide Ok, ViewOf, Step, Init, LastAccepted;
    if events == [] {
      InitAccepted(s, id);
    } else {
      var init := events[..|events| - 1];
      AcceptedInRuns(s, init, id);
      RunKeeps(s, init, id);
      StepAccepted(Run(s, init), events[|events| - 1], id);
    }
  }

  lemma InitAccepted(s: System, id: Id)
    requires Init(s)
    ensures LastAccepted(s, id)
  {
    NoLast();
  }

  // ----- what a loaded archive already holds is never accepted again -----

  predicate NotAbove(queue: seq<Append>, id: Id, limit: nat) {
    forall i :: 0 <= i < |queue| && queue[i].id == id ==> queue[i].record.sequence <= limit
  }

  /** Every record on its way, and every record of a loaded archive, is at or below the accepted sequence. */
  ghost predicate Behind(s: System, id: Id) {
    && NotAbove(s.ingest, id, Accepted(s, id)) && NotAbove(s.sending, id, Accepted(s, id)) && NotAbove(s.reserving, id, Accepted(s, id))
    && (id in s.loaded ==> LastOf(Records(s, id)) <= Accepted(s, id))
  }

  lemma LoadBehind(s: System, target: Id, id: Id)
    requires Behind(s, id)
    ensures Behind(Loading(s, target), id)
  {
    hide LastOf, NotAbove;
    NoLast();
    HigherLimit(s.ingest, id, Accepted(s, id), Accepted(Loading(s, target), id));
    HigherLimit(s.sending, id, Accepted(s, id), Accepted(Loading(s, target), id));
    HigherLimit(s.reserving, id, Accepted(s, id), Accepted(Loading(s, target), id));
  }

  lemma HigherLimit(queue: seq<Append>, id: Id, low: nat, high: nat)
    requires NotAbove(queue, id, low) && low <= high
    ensures NotAbove(queue, id, high)
  {
  }

  lemma WriteBehind(s: System, target: Id, record: Record, id: Id)
    requires Behind(s, id) && target in s.loaded && (target == id ==> record.sequence <= Accepted(s, id))
    ensures Behind(Writing(s, target, record), id)
  {
    hide Loading, NotAbove;
    LoadedAlready(s, target);
  }

  lemma AppendBehind(s: System, id: Id)
    requires Behind(s, id)
    ensures Behind(Step(s, OwnerAppend), id)
  {
    hide Step, Writing, Loading, Behind;
    AppendIsWriting(s);
    if s.ingest != [] && s.finalizing.None? && s.releasing == 0 {
      var target, record := s.ingest[0].id, s.ingest[0].record;
      LoadBehind(s, target, id);
      LoadCommutes(s, target);
      WriteAfterLoad(s.(ingest := s.ingest[1..], releasing := |record.data|), target, record);
      var loaded := Loading(s, target);
      var popped := loaded.(ingest := s.ingest[1..], releasing := |record.data|);
      InLoaded(s, target);
      LoadedIngest(s, target);
      PoppedBehind(loaded, popped, id);
      WriteBehind(popped, target, record, id);
    }
  }

  lemma LoadedIngest(s: System, target: Id)
    ensures Loading(s, target).ingest == s.ingest
  {
    hide LastOf;
  }

  lemma PoppedBehind(s: System, popped: System, id: Id)
    requires Behind(s, id) && s.ingest != [] && popped == s.(ingest := s.ingest[1..], releasing := popped.releasing)
    ensures Behind(popped, id) && (s.ingest[0].id == id ==> s.ingest[0].record.sequence <= Accepted(popped, id))
  {
    hide LastOf;
  }

  lemma AcceptBehind(s: System, target: Id, record: Record, id: Id)
    requires Behind(s, id)
    ensures Behind(Step(s, Accept(target, record)), id)
  {
    hide InHand, Accepting, LastOf;
    AcceptingIs(s, target, record);
  }

  lemma MovedBehind(s: System, e: Event, id: Id)
    requires Behind(s, id) && (e.Reserve? || e.Send?)
    ensures Behind(Step(s, e), id)
  {
    hide LastOf;
  }

  lemma OtherBehind(s: System, e: Event, id: Id)
    requires Behind(s, id) && !e.Accept? && !e.OwnerAppend? && !e.Read? && !e.Reserve? && !e.Send?
    ensures Behind(Step(s, e), id)
  {
    hide LastOf, NotAbove, Without, Throughs;
  }

  /** So in every run a loaded archive's records are all behind the accepted sequence: none of them is accepted again. */
  lemma {:induction false} LoadedIsBehind(s: System, events: seq<Event>, id: Id)
    requires Init(s)
    ensures Behind(Run(s, events), id)
  {
    hide Step, Init, Behind, Loading;
    if events == [] {
      InitBehind(s, id);
    } else {
      var init, e := events[..|events| - 1], events[|events| - 1];
      var now := Run(s, init);
      LoadedIsBehind(s, init, id);
      if e.Accept? {
        AcceptBehind(now, e.id, e.record, id);
      } else if e.OwnerAppend? {
        AppendBehind(now, id);
      } else if e.Read? {
        ReadIsLoading(now, e.id);
        LoadBehind(now, e.id, id);
      } else if e.Reserve? || e.Send? {
        MovedBehind(now, e, id);
      } else {
        OtherBehind(now, e, id);
      }
    }
  }

  lemma InitBehind(s: System, id: Id)
    requires Init(s)
    ensures Behind(s, id)
  {
  }
}
