/** What every step of the append and close protocol keeps, one terminal at a time. */
module HistoryOwnerProof {
  import opened Wrappers
  import opened HistoryCodec
  import opened HistoryOwner

  /** Everything the system knows about one terminal. */
  datatype View = View(
    present: bool, records: seq<Record>, closed: bool, log: seq<Record>, accepted: nat,
    ingest: seq<Record>, sending: seq<Record>, reserving: seq<Record>,
    loaded: Option<bool>, finalizing: bool, pending: bool,
    closing: Option<Option<nat>>, finalize: seq<nat>, closes: seq<nat>)

  function Throughs(queue: seq<Close>, id: Id): seq<nat> {
    if queue == [] then []
    else (if queue[0].id == id then [queue[0].through] else []) + Throughs(queue[1..], id)
  }

  function ViewOf(s: System, id: Id): View {
    View(id in s.disk, Records(s, id), Closed(s, id), Log(s, id), Accepted(s, id),
         Queued(s.ingest, id), Queued(s.sending, id), Queued(s.reserving, id),
         if id in s.loaded then Some(s.loaded[id]) else None, s.finalizing == Some(id), id in s.pendingCloses,
         if id in s.closing then Some(s.closing[id]) else None, Throughs(s.finalize, id), Throughs(s.closes, id))
  }

  /**
    Until the archive is closed it and the records on the way are exactly what was accepted, every
    close asks for all of it, and an archive is unloaded for closing only when nothing is on the way.
    A reader may load it again meanwhile, and keep a copy that says open.
    A terminal has one outstanding close when it is marked, and none when it is not.
  */
  ghost predicate Ok(v: View) {
    && Increasing(v.log, 0) && LastOf(v.log) <= v.accepted && |v.sending| + |v.reserving| <= 1
    && (v.loaded.Some? ==> v.present && (v.loaded.value ==> v.closed))
    && (v.present && !v.closed && v.loaded.None? ==> v.finalizing)
    && (!v.closed ==> v.log == v.records + v.ingest + v.sending + v.reserving && v.accepted == LastOf(v.log))
    && (v.finalizing && !v.closed ==> v.ingest + v.sending + v.reserving == [])
    && (if v.closing.Some? then 1 else 0) + |v.finalize| + |v.closes| + (if v.finalizing then 1 else 0) == (if v.pending then 1 else 0)
    && (!v.closed ==>
          && (forall i :: 0 <= i < |v.finalize| ==> v.finalize[i] == v.accepted)
          && (forall i :: 0 <= i < |v.closes| ==> v.closes[i] == v.accepted)
          && (v.closing.Some? && v.closing.value.Some? ==> v.closing.value.value == v.accepted))
  }

  ghost predicate Inv(s: System) {
    forall id :: Ok(ViewOf(s, id))
  }

  // ----- queues -----

  lemma QueuedPush(queue: seq<Append>, a: Append, id: Id)
    ensures Queued(queue + [a], id) == Queued(queue, id) + (if a.id == id then [a.record] else [])
  {
    hide Queued;
    QueuedConcat(queue, [a], id);
    QueuedSingle(a, id);
  }

  lemma NothingQueued(id: Id)
    ensures Queued([], id) == []
  {
  }

  lemma QueuedPop(queue: seq<Append>, id: Id)
    requires queue != []
    ensures Queued(queue, id) == (if queue[0].id == id then [queue[0].record] else []) + Queued(queue[1..], id)
  {
  }

  lemma {:induction false} QueuedConcat(a: seq<Append>, b: seq<Append>, id: Id)
    ensures Queued(a + b, id) == Queued(a, id) + Queued(b, id)
  {
    hide Queued;
    NothingQueued(id);
    if a == [] {
      assert a + b == b && [] + Queued(b, id) == Queued(b, id);
    } else {
      QueuedConcat(a[1..], b, id);
      QueuedPop(a, id);
      QueuedPop(a + b, id);
      assert (a + b)[1..] == a[1..] + b && (a + b)[0] == a[0];
      var head := if a[0].id == id then [a[0].record] else [];
      assert head + (Queued(a[1..], id) + Queued(b, id)) == head + Queued(a[1..], id) + Queued(b, id);
    }
  }

  /** Taking one entry out leaves the others' terminals alone, and a terminal with a single entry with none. */
  lemma QueuedWithout(queue: seq<Append>, i: nat, id: Id)
    requires i < |queue|
    ensures queue[i].id != id ==> Queued(Without(queue, i), id) == Queued(queue, id)
    ensures queue[i].id == id && |Queued(queue, id)| <= 1 ==>
              Queued(queue, id) == [queue[i].record] && Queued(Without(queue, i), id) == []
  {
    hide Queued;
    var a, b, c := queue[..i], [queue[i]], queue[i + 1..];
    assert queue == a + (b + c);
    QueuedConcat(a, b + c, id);
    QueuedConcat(b, c, id);
    QueuedConcat(a, c, id);
    QueuedSingle(queue[i], id);
    assert Queued(b, id) == [] ==> Queued(b, id) + Queued(c, id) == Queued(c, id);
  }

  lemma QueuedSingle(a: Append, id: Id)
    ensures Queued([a], id) == if a.id == id then [a.record] else []
  {
    assert Queued([a][1..], id) == [];
  }

  lemma {:induction false} ThroughsConcat(a: seq<Close>, b: seq<Close>, id: Id)
    ensures Throughs(a + b, id) == Throughs(a, id) + Throughs(b, id)
  {
    hide Throughs;
    NoThroughs(id);
    if a == [] {
      assert a + b == b && [] + Throughs(b, id) == Throughs(b, id);
    } else {
      ThroughsConcat(a[1..], b, id);
      ThroughsPop(a, id);
      ThroughsPop(a + b, id);
      assert (a + b)[1..] == a[1..] + b && (a + b)[0] == a[0];
      var head := if a[0].id == id then [a[0].through] else [];
      assert head + (Throughs(a[1..], id) + Throughs(b, id)) == head + Throughs(a[1..], id) + Throughs(b, id);
    }
  }

  lemma NoThroughs(id: Id)
    ensures Throughs([], id) == []
  {
  }

  lemma ThroughsSingle(c: Close, id: Id)
    ensures Throughs([c], id) == if c.id == id then [c.through] else []
  {
    assert Throughs([c][1..], id) == [];
  }

  lemma ThroughsPush(queue: seq<Close>, c: Close, id: Id)
    ensures Throughs(queue + [c], id) == Throughs(queue, id) + (if c.id == id then [c.through] else [])
  {
    hide Throughs;
    ThroughsConcat(queue, [c], id);
    ThroughsSingle(c, id);
  }

  lemma ThroughsPop(queue: seq<Close>, id: Id)
    requires queue != []
    ensures Throughs(queue, id) == (if queue[0].id == id then [queue[0].through] else []) + Throughs(queue[1..], id)
  {
  }

  lemma ThroughsWithout(queue: seq<Close>, i: nat, id: Id)
    requires i < |queue|
    ensures queue[i].id != id ==> Throughs(Without(queue, i), id) == Throughs(queue, id)
    ensures queue[i].id == id && |Throughs(queue, id)| <= 1 ==>
              Throughs(queue, id) == [queue[i].through] && Throughs(Without(queue, i), id) == []
    ensures queue[i].id == id ==> |Throughs(queue, id)| > 0
  {
    hide Throughs;
    var a, b, c := queue[..i], [queue[i]], queue[i + 1..];
    assert queue == a + (b + c);
    ThroughsConcat(a, b + c, id);
    ThroughsConcat(b, c, id);
    ThroughsConcat(a, c, id);
    ThroughsSingle(queue[i], id);
    assert Throughs(b, id) == [] ==> Throughs(b, id) + Throughs(c, id) == Throughs(c, id);
  }

  // ----- each step, seen from one terminal -----

  lemma OkAccept(v: View, record: Record)
    requires Ok(v) && !v.pending && v.sending == [] && v.reserving == [] && record.sequence > v.accepted && ValidData(record.data)
    ensures Ok(v.(accepted := record.sequence, reserving := v.reserving + [record], log := v.log + [record]))
  {
    hide Increasing;
    IncreasingPush(v.log, record);
    assert v.reserving + [record] == [record];
    if !v.closed {
      assert v.records + v.ingest + v.sending + v.reserving + [record] == v.records + v.ingest + v.sending + [record];
    }
  }

  lemma AcceptKeeps(s: System, id: Id, e: Event)
    requires e.Accept? && Ok(ViewOf(s, id))
    ensures Ok(ViewOf(Step(s, e), id))
  {
    hide Ok, Queued, Throughs;
    var next, v := Step(s, e), ViewOf(s, id);
    if next != s {
      QueuedPush(s.reserving, Append(e.id, e.record), id);
      if e.id == id {
        OkAccept(v, e.record);
        assert ViewOf(next, id) == v.(accepted := e.record.sequence, reserving := v.reserving + [e.record], log := v.log + [e.record]);
      } else {
        assert Queued(s.reserving, id) + [] == Queued(s.reserving, id);
        assert ViewOf(next, id) == v;
      }
    }
  }

  lemma OkMove(v: View, record: Record)
    requires Ok(v)
    ensures |v.sending| <= 1 && |v.reserving| <= 1
    ensures v.reserving == [record] ==> v.sending == [] && Ok(v.(sending := v.reserving, reserving := []))
    ensures v.sending == [record] ==> v.reserving == [] && Ok(v.(ingest := v.ingest + v.sending, sending := []))
  {
    hide Increasing, LastOf;
    assert v.records + v.ingest + v.reserving + [] == v.records + v.ingest + [] + v.reserving;
    assert v.ingest + v.reserving + [] == v.ingest + [] + v.reserving;
    assert v.records + (v.ingest + v.sending) + [] + [] == v.records + v.ingest + v.sending + [];
    assert v.ingest + v.sending + [] + [] == v.ingest + v.sending + [];
  }

  lemma ReserveKeeps(s: System, id: Id, i: nat)
    requires Ok(ViewOf(s, id))
    ensures Ok(ViewOf(Step(s, Reserve(i)), id))
  {
    hide Ok, Queued, Throughs, Without, Records, Closed, Log, Accepted;
    var next, v := Step(s, Reserve(i)), ViewOf(s, id);
    SameRecords(s, next, id);
    if next != s {
      OkMove(v, s.reserving[i].record);
      QueuedWithout(s.reserving, i, id);
      QueuedPush(s.sending, s.reserving[i], id);
      if s.reserving[i].id == id {
        assert ViewOf(next, id) == v.(sending := v.reserving, reserving := []);
      } else {
        assert ViewOf(next, id) == v;
      }
    }
  }

  lemma SendKeeps(s: System, id: Id, i: nat)
    requires Ok(ViewOf(s, id))
    ensures Ok(ViewOf(Step(s, Send(i)), id))
  {
    hide Ok, Queued, Throughs, Without, Records, Closed, Log, Accepted;
    var next, v := Step(s, Send(i)), ViewOf(s, id);
    SameRecords(s, next, id);
    if next != s {
      OkMove(v, s.sending[i].record);
      QueuedWithout(s.sending, i, id);
      QueuedPush(s.ingest, s.sending[i], id);
      if s.sending[i].id == id {
        assert ViewOf(next, id) == v.(ingest := v.ingest + v.sending, sending := []);
      } else {
        assert ViewOf(next, id) == v;
      }
    }
  }

  lemma OkCloser(v: View)
    requires Ok(v)
    ensures !v.pending ==> Ok(v.(pending := true, closing := Some(None)))
    ensures v.closing == Some(None) ==> Ok(v.(closing := Some(Some(v.accepted))))
    ensures v.closing.Some? && v.closing.value.Some? ==>
              Ok(v.(finalize := v.finalize + [v.closing.value.value], closing := None)) && Ok(v.(pending := false, closing := None))
  {
    hide Increasing, LastOf;
  }

  lemma MarkKeeps(s: System, id: Id, e: Event)
    requires (e.CloseMark? || e.CloseRead?) && Ok(ViewOf(s, id))
    ensures Ok(ViewOf(Step(s, e), id))
  {
    hide Ok, Queued, Throughs;
    var next, v := Step(s, e), ViewOf(s, id);
    OkCloser(v);
    if next == s || e.id != id {
      assert ViewOf(next, id) == v;
    } else if e.CloseMark? {
      assert ViewOf(next, id) == v.(pending := true, closing := Some(None));
    } else {
      assert ViewOf(next, id) == v.(closing := Some(Some(v.accepted)));
    }
  }

  lemma CloseSendKeeps(s: System, id: Id, target: Id)
    requires Ok(ViewOf(s, id))
    ensures Ok(ViewOf(Step(s, CloseSend(target)), id))
  {
    hide Ok, ViewOf, Throughs;
    var next, v := Step(s, CloseSend(target)), ViewOf(s, id);
    if next != s {
      OkCloser(v);
      ClosingView(s, id);
      if |s.finalize| < FINALIZE_MAX_MESSAGES {
        CloseSent(s, id, target);
      } else {
        CloseGivenUp(s, id, target);
      }
    }
  }

  lemma ClosingView(s: System, id: Id)
    ensures ViewOf(s, id).closing == if id in s.closing then Some(s.closing[id]) else None
  {
  }

  lemma CloseSent(s: System, id: Id, target: Id)
    requires target in s.closing && s.closing[target].Some?
    ensures var v := ViewOf(s, id);
      var next := s.(finalize := s.finalize + [Close(target, s.closing[target].value)], closing := s.closing - {target});
      ViewOf(next, id) == if id == target then v.(finalize := v.finalize + [v.closing.value.value], closing := None) else v
  {
    hide Queued, Throughs, Records, Closed, Log, Accepted;
    var next := s.(finalize := s.finalize + [Close(target, s.closing[target].value)], closing := s.closing - {target});
    ThroughsPush(s.finalize, Close(target, s.closing[target].value), id);
    SameRecords(s, next, id);
  }

  lemma CloseGivenUp(s: System, id: Id, target: Id)
    requires target in s.closing
    ensures var v := ViewOf(s, id);
      var next := s.(pendingCloses := s.pendingCloses - {target}, closing := s.closing - {target});
      ViewOf(next, id) == if id == target then v.(pending := false, closing := None) else v
  {
    hide Queued, Throughs, Records, Closed, Log, Accepted;
    SameRecords(s, s.(pendingCloses := s.pendingCloses - {target}, closing := s.closing - {target}), id);
  }

  lemma SameRecords(s: System, next: System, id: Id)
    requires next.disk == s.disk && next.log == s.log && next.accepted == s.accepted
    ensures Records(next, id) == Records(s, id) && Closed(next, id) == Closed(s, id)
    ensures Log(next, id) == Log(s, id) && Accepted(next, id) == Accepted(s, id)
  {
  }

  lemma OkReceive(v: View)
    requires Ok(v)
    ensures v.finalize != [] ==> Ok(v.(finalize := v.finalize[1..], closes := v.closes + [v.finalize[0]]))
  {
    hide Increasing, LastOf;
  }

  lemma ReceiveKeeps(s: System, id: Id)
    requires Ok(ViewOf(s, id))
    ensures Ok(ViewOf(Step(s, OwnerReceive), id))
  {
    hide Ok, Queued, Throughs, Records, Closed, Log, Accepted;
    var v := ViewOf(s, id);
    if s.finalize != [] {
      ThroughsPop(s.finalize, id);
      ThroughsPush(s.closes, s.finalize[0], id);
      var next := Step(s, OwnerReceive);
      SameRecords(s, next, id);
      OkReceive(v);
      if s.finalize[0].id == id {
        assert v.finalize == [s.finalize[0].through] + Throughs(s.finalize[1..], id);
        assert ViewOf(next, id) == v.(finalize := v.finalize[1..], closes := v.closes + [v.finalize[0]]);
      } else {
        assert ViewOf(next, id) == v;
      }
    }
  }

  /** An open archive whose last written sequence reaches everything accepted has nothing on the way. */
  lemma NothingOnTheWay(v: View, written: nat)
    requires Ok(v) && !v.closed && written >= v.accepted
    requires written == if v.loaded.Some? then LastOf(v.records) else 0
    ensures v.ingest + v.sending + v.reserving == []
  {
    hide Increasing;
    var rest := v.ingest + v.sending + v.reserving;
    assert v.log == v.records + rest;
    if rest != [] {
      assert LastOf(v.log) == LastOf(rest);
      IncreasingSplit(v.records, rest, 0);
      LastIsAbove(rest, LastOf(v.records));
    }
  }

  lemma {:induction false} LastIsAbove(records: seq<Record>, previous: nat)
    requires Increasing(records, previous) && records != []
    ensures LastOf(records) > previous
  {
    if |records| > 1 {
      LastIsAbove(records[1..], records[0].sequence);
    }
  }

  lemma UnloadKeeps(s: System, id: Id, i: nat)
    requires Ok(ViewOf(s, id))
    ensures Ok(ViewOf(Step(s, OwnerUnload(i)), id))
  {
    hide Increasing, Queued, Throughs, LastOf, Without;
    var next, v := Step(s, OwnerUnload(i)), ViewOf(s, id);
    if i < |s.closes| { ThroughsWithout(s.closes, i, id); }
    if next != s {
      if s.closes[i].id == id {
        assert v.closes == [s.closes[i].through];
        if !v.closed {
          assert v.closes[0] == v.accepted;
          NothingOnTheWay(v, Written(s, id));
        }
        assert ViewOf(next, id) == v.(closes := [], finalizing := true, loaded := None);
      } else {
        assert ViewOf(next, id) == v;
      }
    }
  }

  lemma MarkClosedKeeps(s: System, id: Id)
    requires Ok(ViewOf(s, id))
    ensures Ok(ViewOf(Step(s, OwnerMarkClosed), id))
  {
    hide Increasing, Queued, Throughs, LastOf;
    var next, v := Step(s, OwnerMarkClosed), ViewOf(s, id);
    if s.finalizing == Some(id) {
      assert ViewOf(next, id) == v.(finalizing := false, pending := false, closed := v.present);
    } else {
      assert ViewOf(next, id) == v;
    }
  }

  /** A cold load of a written archive raises the accepted sequence only if it is closed; of a missing one, it creates it empty. */
  lemma LoadKeeps(s: System, id: Id, target: Id)
    requires Ok(ViewOf(s, id))
    ensures Ok(ViewOf(Loading(s, target), id))
    ensures Loading(s, target).ingest == s.ingest && target in Loading(s, target).loaded
    ensures Loading(s, target).finalizing == s.finalizing
  {
    hide Increasing, Queued, Throughs, LastOf;
    var next, v := Loading(s, target), ViewOf(s, id);
    LastOrZero([]);
    if target != id {
      assert ViewOf(next, id) == v;
    } else if target !in s.loaded && target !in s.disk {
      assert ViewOf(next, id) == v.(present := true, loaded := Some(false));
    } else if target !in s.loaded {
      if !v.closed { AllWritten(v); }
      assert ViewOf(next, id) == v.(loaded := Some(v.closed), accepted := ViewOf(next, id).accepted);
      assert ViewOf(next, id).accepted >= v.accepted && (!v.closed ==> ViewOf(next, id).accepted == v.accepted);
    }
  }

  lemma AllWritten(v: View)
    requires Ok(v) && v.finalizing && !v.closed
    ensures v.accepted == LastOf(v.records)
  {
    hide Increasing, LastOf;
    assert v.records + v.ingest + v.sending + v.reserving == v.records + (v.ingest + v.sending + v.reserving);
    assert v.records + [] == v.records;
  }

  lemma AppendKeeps(s: System, id: Id)
    requires Ok(ViewOf(s, id))
    ensures Ok(ViewOf(Step(s, OwnerAppend), id))
  {
    if s.ingest != [] && s.finalizing.None? && s.releasing == 0 {
      hide Ok, Queued, Throughs, Loading, Writing, ViewOf;
      var target, record := s.ingest[0].id, s.ingest[0].record;
      LoadKeeps(s, id, target);
      LoadCommutes(s, target);
      WriteAfterLoad(s.(ingest := s.ingest[1..], releasing := |record.data|), target, record);
      var loaded := Loading(s, target);
      var popped := loaded.(ingest := s.ingest[1..], releasing := |record.data|);
      assert Step(s, OwnerAppend) == Writing(popped, target, record);
      ViewPopped(loaded, popped, id);
      if target != id {
        WriteElsewhere(popped, target, id, record);
      } else {
        WriteKeeps(popped, id, ViewOf(loaded, id), record);
      }
    }
  }

  lemma ViewPopped(s: System, popped: System, id: Id)
    requires s.ingest != [] && popped == s.(ingest := s.ingest[1..], releasing := popped.releasing)
    ensures ViewOf(popped, id) == if s.ingest[0].id == id then ViewOf(s, id).(ingest := ViewOf(s, id).ingest[1..]) else ViewOf(s, id)
    ensures s.ingest[0].id == id ==> ViewOf(s, id).ingest != [] && ViewOf(s, id).ingest[0] == s.ingest[0].record
  {
    hide Queued, Throughs;
    QueuedPop(s.ingest, id);
    if s.ingest[0].id == id {
      assert ([s.ingest[0].record] + Queued(s.ingest[1..], id))[1..] == Queued(s.ingest[1..], id);
    }
  }

  lemma WriteAfterLoad(s: System, id: Id, record: Record)
    ensures Writing(Loading(s, id), id, record) == Writing(s, id, record)
  {
  }

  lemma WriteElsewhere(s: System, target: Id, id: Id, record: Record)
    requires target in s.loaded && target != id
    ensures ViewOf(Writing(s, target, record), id) == ViewOf(s, id)
  {
    hide Queued, Throughs;
  }

  lemma LoadCommutes(s: System, target: Id)
    requires s.ingest != []
    ensures var s' := s.(ingest := s.ingest[1..], releasing := |s.ingest[0].record.data|);
      Loading(s', target) == Loading(s, target).(ingest := s.ingest[1..], releasing := |s.ingest[0].record.data|)
  {
  }

  /** The owner's turn at the record in front: written unless the loaded copy says closed or the archive is past it. */
  lemma WriteKeeps(s: System, id: Id, v: View, record: Record)
    requires Ok(v) && v.ingest != [] && v.ingest[0] == record
    requires id in s.loaded && ViewOf(s, id) == v.(ingest := v.ingest[1..])
    ensures Ok(ViewOf(Writing(s, id, record), id))
  {
    hide Queued, Throughs, Ok, Loading, LastOf;
    OkWrite(v, record);
    LoadedAlready(s, id);
    var next := ViewOf(Writing(s, id, record), id);
    if next.records != v.records {
      assert next == v.(ingest := v.ingest[1..], records := v.records + [record]);
    } else {
      assert next == v.(ingest := v.ingest[1..]);
    }
  }

  lemma LoadedAlready(s: System, id: Id)
    requires id in s.loaded
    ensures Loading(s, id) == s
  {
  }

  lemma OkWrite(v: View, record: Record)
    requires Ok(v) && v.ingest != [] && v.ingest[0] == record && v.loaded.Some?
    ensures v.present && (!v.closed ==> !v.loaded.value && record.sequence > LastOf(v.records))
    ensures Ok(v.(ingest := v.ingest[1..], records := v.records + [record]))
    ensures v.closed ==> Ok(v.(ingest := v.ingest[1..]))
  {
    hide Increasing, LastOf;
    if !v.closed {
      var rest := v.ingest[1..] + v.sending + v.reserving;
      Regroup(v.records, record, v.ingest, v.sending, v.reserving);
      IncreasingSplit(v.records, [record] + rest, 0);
      LastOrZero(v.records);
      NextIsAbove(record, rest, LastOf(v.records));
    }
  }

  lemma Regroup(a: seq<Record>, record: Record, ingest: seq<Record>, c: seq<Record>, d: seq<Record>)
    requires ingest != [] && ingest[0] == record
    ensures a + ingest + c + d == a + [record] + ingest[1..] + c + d
    ensures a + ingest + c + d == a + ([record] + (ingest[1..] + c + d))
  {
    assert ingest == [record] + ingest[1..];
  }

  lemma LastOrZero(records: seq<Record>)
    ensures LastOf(records) == if records == [] then 0 else records[|records| - 1].sequence
  {
  }

  lemma NextIsAbove(record: Record, rest: seq<Record>, previous: nat)
    ensures Increasing([record] + rest, previous) ==> record.sequence > previous
  {
  }

  // ----- every step, every run -----

  lemma StepKeeps(s: System, e: Event, id: Id)
    requires Ok(ViewOf(s, id))
    ensures Ok(ViewOf(Step(s, e), id))
  {
    hide Ok, ViewOf, Step;
    match e
    case Accept(_, _) => AcceptKeeps(s, id, e);
    case Reserve(i) => ReserveKeeps(s, id, i);
    case Send(i) => SendKeeps(s, id, i);
    case CloseMark(_) => MarkKeeps(s, id, e);
    case CloseRead(_) => MarkKeeps(s, id, e);
    case CloseSend(target) => CloseSendKeeps(s, id, target);
    case OwnerReceive => ReceiveKeeps(s, id);
    case OwnerUnload(i) => UnloadKeeps(s, id, i);
    case OwnerMarkClosed => MarkClosedKeeps(s, id);
    case OwnerAppend => AppendKeeps(s, id);
    case OwnerRelease => ReleaseKeeps(s, id);
    case Read(target) => ReadKeeps(s, id, target);
  }

  lemma ReleaseKeeps(s: System, id: Id)
    requires Ok(ViewOf(s, id))
    ensures Ok(ViewOf(Step(s, OwnerRelease), id))
  {
    hide Ok, Queued, Throughs;
    assert ViewOf(Step(s, OwnerRelease), id) == ViewOf(s, id);
  }

  lemma ReadKeeps(s: System, id: Id, target: Id)
    requires Ok(ViewOf(s, id))
    ensures Ok(ViewOf(Step(s, Read(target)), id))
  {
    hide Ok, ViewOf, Loading;
    if target in s.disk { LoadKeeps(s, id, target); }
  }

  lemma InitOk(s: System, id: Id)
    requires Init(s)
    ensures Ok(ViewOf(s, id))
  {
  }

  lemma {:induction false} RunKeeps(s: System, events: seq<Event>, id: Id)
    requires Init(s)
    ensures Ok(ViewOf(Run(s, events), id))
  {
    hide Ok, ViewOf, Step, Init;
    if events == [] {
      InitOk(s, id);
    } else {
      RunKeeps(s, events[..|events| - 1], id);
      StepKeeps(Run(s, events[..|events| - 1]), events[|events| - 1], id);
    }
  }

  /** In every run: until its archive is closed, a terminal's accepted records are those written and those on the way, in order. */
  lemma AcceptedIsWrittenOrOnTheWay(s: System, events: seq<Event>, id: Id)
    requires Init(s)
    ensures var now := Run(s, events);
      !Closed(now, id) ==> Log(now, id) == Records(now, id) + OnTheWay(now, id)
  {
    hide Init, Increasing, Run;
    RunKeeps(s, events, id);
    var now := Run(s, events);
    var v := ViewOf(now, id);
    assert v.records + (v.ingest + v.sending + v.reserving) == v.records + v.ingest + v.sending + v.reserving;
  }

  /** Closing an archive finds everything ever accepted for it written, in order. */
  lemma ClosedHasEverythingAccepted(s: System, events: seq<Event>, id: Id)
    requires Init(s)
    requires !Closed(Run(s, events), id) && Closed(Step(Run(s, events), OwnerMarkClosed), id)
    ensures var after := Step(Run(s, events), OwnerMarkClosed);
      Records(after, id) == Log(after, id) && OnTheWay(after, id) == []
  {
    hide Init, Increasing, Run;
    RunKeeps(s, events, id);
    var v := ViewOf(Run(s, events), id);
    assert v.finalizing;
    assert v.records + v.ingest + v.sending + v.reserving == v.records + (v.ingest + v.sending + v.reserving);
    assert v.records + [] == v.records;
  }

  /** A waiting close of an archive that is still open proceeds exactly when none of its records is on the way. */
  lemma OpenCloseProceedsExactly(s: System, events: seq<Event>, i: nat)
    requires Init(s)
    requires var now := Run(s, events);
      i < |now.closes| && now.finalizing.None? && !Closed(now, now.closes[i].id)
    ensures var now := Run(s, events); var id := now.closes[i].id;
      Step(now, OwnerUnload(i)).finalizing == Some(id) <==> OnTheWay(now, id) == []
  {
    hide Init, Increasing, Run, Throughs, Queued, LastOf;
    var now := Run(s, events);
    var id := now.closes[i].id;
    RunKeeps(s, events, id);
    var v := ViewOf(now, id);
    ThroughsWithout(now.closes, i, id);
    assert v.closes == [now.closes[i].through] && v.closes[0] == v.accepted;
    if OnTheWay(now, id) == [] {
      assert v.records + v.ingest + v.sending + v.reserving == v.records + OnTheWay(now, id);
      assert v.records + [] == v.records;
      NoLast();
    } else if Written(now, id) >= v.accepted {
      NothingOnTheWay(v, Written(now, id));
    }
  }

  lemma NoLast()
    ensures LastOf([]) == 0
  {
  }

  // ----- closed archives -----

  /** Steps of producers, closers and the owner's bookkeeping. */
  predicate Plain(e: Event) {
    !e.OwnerUnload? && !e.OwnerMarkClosed? && !e.OwnerAppend? && !e.Read?
  }

  lemma PlainFootprint(s: System, e: Event)
    requires Plain(e)
    ensures Step(s, e).disk == s.disk && Step(s, e).loaded == s.loaded && Step(s, e).finalizing == s.finalizing
  {
    hide Queued, Without, LastOf, Accepted, Accepting, Loading, Writing, Written;
    if e.Accept? { AcceptingFootprint(s, e.id, e.record); }
  }

  lemma AcceptingFootprint(s: System, id: Id, record: Record)
    ensures var next := Accepting(s, id, record);
      next.disk == s.disk && next.loaded == s.loaded && next.finalizing == s.finalizing
  {
    hide Queued, Accepted, Log;
  }

  lemma ClosedAppend(s: System, id: Id)
    requires Closed(s, id)
    ensures Closed(Step(s, OwnerAppend), id)
    ensures Records(Step(s, OwnerAppend), id) ==
            if LateWrite(s, OwnerAppend, id) then Records(s, id) + [s.ingest[0].record] else Records(s, id)
    ensures id in Step(s, OwnerAppend).loaded && !Step(s, OwnerAppend).loaded[id] ==> id in s.loaded && !s.loaded[id]
  {
    hide Queued, LastOf, Accepted;
  }

  lemma ClosedLoad(s: System, e: Event, id: Id)
    requires Closed(s, id) && (e.Read? || e.OwnerUnload? || e.OwnerMarkClosed?)
    ensures Closed(Step(s, e), id) && Records(Step(s, e), id) == Records(s, id)
    ensures id in Step(s, e).loaded && !Step(s, e).loaded[id] ==> id in s.loaded && !s.loaded[id]
  {
    hide Queued, LastOf, Accepted, Without;
  }

  /** One step changes a closed archive exactly when it is a late write, and then adds that one record. */
  lemma ClosedStepChangesExactly(s: System, e: Event, id: Id)
    requires Closed(s, id)
    ensures Closed(Step(s, e), id)
    ensures Records(Step(s, e), id) ==
            if LateWrite(s, e, id) then Records(s, id) + [s.ingest[0].record] else Records(s, id)
    ensures id in Step(s, e).loaded && !Step(s, e).loaded[id] ==> id in s.loaded && !s.loaded[id]
  {
    hide Step;
    if Plain(e) {
      PlainFootprint(s, e);
    } else if e.OwnerAppend? {
      ClosedAppend(s, id);
    } else {
      ClosedLoad(s, e, id);
    }
  }

  /** A closed archive whose loaded copy, if any, says so stays that way, and the same, whatever happens next. */
  lemma SealedStep(s: System, e: Event, id: Id)
    requires Sealed(s, id)
    ensures Sealed(Step(s, e), id) && Step(s, e).disk[id] == s.disk[id]
  {
    hide Step;
    ClosedStepChangesExactly(s, e, id);
  }

  lemma {:induction false} SealedNeverChanges(s: System, events: seq<Event>, id: Id)
    requires Sealed(s, id)
    ensures Sealed(Run(s, events), id) && Run(s, events).disk[id] == s.disk[id]
  {
    hide Step, Sealed;
    if events == [] {
      SealedOnDisk(s, id);
    } else {
      SealedNeverChanges(s, events[..|events| - 1], id);
      SealedStep(Run(s, events[..|events| - 1]), events[|events| - 1], id);
    }
  }

  lemma SealedOnDisk(s: System, id: Id)
    requires Sealed(s, id)
    ensures id in s.disk
  {
  }

  lemma LateWriteHasOne(s: System, e: Event, id: Id)
    requires LateWrite(s, e, id)
    ensures s.ingest != []
  {
  }

  /** The late writes of a run's steps from the `n`th on. */
  function LateWrites(s: System, events: seq<Event>, n: nat, id: Id): seq<Record>
    requires n <= |events|
  {
    if n == |events| then []
    else
      var init := events[..|events| - 1];
      LateWrites(s, init, n, id)
      + (if LateWrite(Run(s, init), events[|events| - 1], id) then [Run(s, init).ingest[0].record] else [])
  }

  /** In every run a closed archive later holds what it held plus its late writes: it is unchanged exactly when there were none. */
  lemma {:induction false} ClosedGainsLateWritesExactly(s: System, events: seq<Event>, n: nat, id: Id)
    requires n <= |events| && Closed(Run(s, events[..n]), id)
    ensures Closed(Run(s, events), id)
    ensures Records(Run(s, events), id) == Records(Run(s, events[..n]), id) + LateWrites(s, events, n, id)
    decreases |events|
  {
    hide Step, LateWrite, Records, Closed;
    if n == |events| {
      assert events[..n] == events;
      assert Records(Run(s, events), id) + [] == Records(Run(s, events), id);
    } else {
      var init, last := events[..|events| - 1], events[|events| - 1];
      assert init[..n] == events[..n];
      ClosedGainsLateWritesExactly(s, init, n, id);
      ClosedStepChangesExactly(Run(s, init), last, id);
      var before, late := Records(Run(s, events[..n]), id), LateWrites(s, init, n, id);
      if LateWrite(Run(s, init), last, id) {
        LateWriteHasOne(Run(s, init), last, id);
        assert before + (late + [Run(s, init).ingest[0].record]) == before + late + [Run(s, init).ingest[0].record];
      } else {
        assert late + [] == late;
      }
    }
  }

  /** No copy of this archive says open while it is closed or being closed. */
  predicate NoStaleCopy(s: System, id: Id) {
    (Closed(s, id) || s.finalizing == Some(id)) && id in s.loaded ==> s.loaded[id]
  }

  lemma NoStaleStep(s: System, e: Event, id: Id)
    requires NoStaleCopy(s, id) && !LateRead(s, e, id) && (id in s.loaded ==> id in s.disk)
    ensures NoStaleCopy(Step(s, e), id)
  {
    hide Step;
    if Closed(s, id) {
      ClosedStepChangesExactly(s, e, id);
      assert NoStaleCopy(Step(s, e), id);
    } else if Plain(e) {
      PlainFootprint(s, e);
    } else {
      OpenOwnerStep(s, e, id);
    }
  }

  lemma OpenOwnerStep(s: System, e: Event, id: Id)
    requires !Closed(s, id) && !Plain(e) && NoStaleCopy(s, id) && !LateRead(s, e, id) && (id in s.loaded ==> id in s.disk)
    ensures NoStaleCopy(Step(s, e), id)
  {
    hide Queued, LastOf, Accepted, Without;
  }

  lemma {:induction false} NoStaleRun(s: System, events: seq<Event>, id: Id)
    requires Init(s) && NoLateRead(s, events, id)
    ensures NoStaleCopy(Run(s, events), id)
  {
    hide Step, Init, LateRead, NoStaleCopy, Ok;
    if events == [] {
      NoCopies(s, id);
    } else {
      var init := events[..|events| - 1];
      NoStaleRun(s, init, id);
      RunKeeps(s, init, id);
      CopiesArePresent(Run(s, init), id);
      NoStaleStep(Run(s, init), events[|events| - 1], id);
    }
  }

  lemma CopiesArePresent(s: System, id: Id)
    requires Ok(ViewOf(s, id))
    ensures id in s.loaded ==> id in s.disk
  {
    hide Queued, Throughs, Increasing;
  }

  lemma NoCopies(s: System, id: Id)
    requires Init(s)
    ensures NoStaleCopy(s, id)
  {
  }

  /** So only a late read of the archive itself lets it change: without one, once closed it is the same in every later state. */
  lemma ClosedNeverChanges(s: System, events: seq<Event>, later: seq<Event>, id: Id)
    requires Init(s) && NoLateRead(s, events, id) && Closed(Run(s, events), id)
    ensures var now := Run(s, events);
      id in Run(now, later).disk && Run(now, later).disk[id] == now.disk[id]
  {
    hide Init, Run, NoLateRead;
    NoStaleRun(s, events, id);
    SealedNeverChanges(Run(s, events), later, id);
  }

  // ----- the ingest budget -----

  predicate Budgeted(s: System) {
    s.used == QueueBytes(s.sending) + QueueBytes(s.ingest) + s.releasing <= INGEST_MAX_BYTES
  }

  lemma {:induction false} BytesConcat(a: seq<Append>, b: seq<Append>)
    ensures QueueBytes(a + b) == QueueBytes(a) + QueueBytes(b)
  {
    if a == [] {
      assert a + b == b;
    } else {
      BytesConcat(a[1..], b);
      assert (a + b)[1..] == a[1..] + b;
    }
  }

  lemma BytesOne(a: Append)
    ensures QueueBytes([a]) == |a.record.data|
  {
    assert QueueBytes([a][1..]) == 0;
  }

  lemma BytesWithout(queue: seq<Append>, i: nat)
    requires i < |queue|
    ensures QueueBytes(queue) == QueueBytes(Without(queue, i)) + |queue[i].record.data|
  {
    hide QueueBytes;
    assert queue == queue[..i] + ([queue[i]] + queue[i + 1..]);
    BytesConcat(queue[..i], [queue[i]] + queue[i + 1..]);
    BytesConcat([queue[i]], queue[i + 1..]);
    BytesConcat(queue[..i], queue[i + 1..]);
    BytesOne(queue[i]);
  }

  lemma LoadingQueues(s: System, id: Id, record: Record)
    ensures var next := Writing(s, id, record);
      next.used == s.used && next.sending == s.sending && next.ingest == s.ingest && next.releasing == s.releasing
    ensures var next := Loading(s, id);
      next.used == s.used && next.sending == s.sending && next.ingest == s.ingest && next.releasing == s.releasing
  {
  }

  lemma StepBudget(s: System, e: Event)
    requires Budgeted(s)
    ensures Budgeted(Step(s, e))
  {
    hide Loading, Writing, QueueBytes, Without, Queued;
    match e
    case Reserve(i) =>
      if i < |s.reserving| {
        BytesConcat(s.sending, [s.reserving[i]]);
        BytesOne(s.reserving[i]);
      }
    case Send(i) =>
      if i < |s.sending| {
        BytesWithout(s.sending, i);
        BytesConcat(s.ingest, [s.sending[i]]);
        BytesOne(s.sending[i]);
      }
    case OwnerAppend =>
      if s.ingest != [] {
        var command := s.ingest[0];
        assert [command] + s.ingest[1..] == s.ingest;
        BytesConcat([command], s.ingest[1..]);
        BytesOne(command);
        LoadingQueues(s.(ingest := s.ingest[1..], releasing := |command.record.data|), command.id, command.record);
      }
    case Read(id) => LoadingQueues(s, id, Record(0, []));
    case _ =>
  }

  /** In every run the reserved bytes are exactly those of the records reserved and not yet written, and within the budget. */
  lemma {:induction false} ReservedIsUnwritten(s: System, events: seq<Event>)
    requires Init(s)
    ensures var now := Run(s, events);
      now.used == QueueBytes(now.sending) + QueueBytes(now.ingest) + now.releasing <= INGEST_MAX_BYTES
  {
    hide Step, QueueBytes, Init;
    if events == [] {
      InitBudget(s);
    } else {
      ReservedIsUnwritten(s, events[..|events| - 1]);
      StepBudget(Run(s, events[..|events| - 1]), events[|events| - 1]);
    }
  }

  lemma InitBudget(s: System)
    requires Init(s)
    ensures Budgeted(s)
  {
  }
}
