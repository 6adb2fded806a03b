/** Nothing accepted is ever stuck: from every state a run reaches, the owner and the producers can finish alone. */
module HistoryProgress {
  import opened Wrappers
  import opened HistoryCodec
  import opened HistoryOwner
  import opened HistoryOwnerProof

  /** A producer goes on with what it has in hand, or the owner takes its next turn; nothing new is asked for. */
  predicate Finishing(e: Event) {
    e.Reserve? || e.Send? || e.OwnerMarkClosed? || e.OwnerAppend? || e.OwnerRelease?
  }

  predicate Done(s: System) {
    s.ingest == [] && s.sending == [] && s.reserving == [] && s.finalizing.None? && s.releasing == 0
  }

  function Left(s: System): nat {
    3 * |s.ingest| + 6 * |s.sending| + 9 * |s.reserving| + (if s.releasing != 0 then 2 else 0) + if s.finalizing.Some? then 1 else 0
  }

  function NextTurn(s: System): Event {
    if s.finalizing.Some? then OwnerMarkClosed
    else if s.releasing != 0 then OwnerRelease
    else if s.ingest != [] then OwnerAppend
    else if s.sending != [] then Send(0)
    else Reserve(0)
  }

  /** No record in a producer's hand is over 64 KiB. */
  predicate HandsSmall(s: System) {
    forall i :: 0 <= i < |s.reserving| ==> |s.reserving[i].record.data| <= MAX_RECORD_BYTES
  }

  lemma WritingHands(s: System, id: Id, record: Record)
    ensures var next := Writing(s, id, record);
      next.reserving == s.reserving && next.sending == s.sending && next.ingest == s.ingest && next.finalizing == s.finalizing
      && next.releasing == s.releasing && next.log == s.log
  {
    hide LastOf;
  }

  lemma StepHands(s: System, e: Event)
    requires HandsSmall(s)
    ensures HandsSmall(Step(s, e))
  {
    hide Queued, Loading, Writing, Log, Accepted, Written;
    match e
    case OwnerAppend =>
      if s.ingest != [] {
        var command := s.ingest[0];
        WritingHands(s.(ingest := s.ingest[1..], releasing := |command.record.data|), command.id, command.record);
      }
    case Read(id) => LoadingHands(s, id);
    case _ =>
  }

  lemma LoadingHands(s: System, id: Id)
    ensures Loading(s, id).reserving == s.reserving
  {
    hide LastOf;
  }

  lemma {:induction false} RunHands(s: System, events: seq<Event>)
    requires Init(s)
    ensures HandsSmall(Run(s, events))
  {
    hide Step, HandsSmall;
    if events == [] {
      InitHands(s);
    } else {
      RunHands(s, events[..|events| - 1]);
      StepHands(Run(s, events[..|events| - 1]), events[|events| - 1]);
    }
  }

  lemma InitHands(s: System)
    requires Init(s)
    ensures HandsSmall(s)
  {
  }

  /** Each turn brings the end nearer and accepts nothing. */
  lemma TurnFinishes(s: System)
    requires !Done(s) && HandsSmall(s) && Budgeted(s)
    ensures var t := Step(s, NextTurn(s)); Finishing(NextTurn(s)) && Left(t) < Left(s) && t.log == s.log
  {
    hide Writing, QueueBytes, LastOf;
    if s.finalizing.None? && s.releasing == 0 {
      if s.ingest != [] {
        var command := s.ingest[0];
        WritingHands(s.(ingest := s.ingest[1..], releasing := |command.record.data|), command.id, command.record);
      } else if s.sending == [] {
        NoBytes();
      }
    }
  }

  lemma NoBytes()
    ensures QueueBytes([]) == 0
  {
  }

  lemma RunMore(s: System, events: seq<Event>, e: Event, rest: seq<Event>)
    ensures Run(s, events + [e]) == Step(Run(s, events), e)
    ensures events + ([e] + rest) == events + [e] + rest
  {
    hide Step;
    assert (events + [e])[..|events|] == events;
  }

  lemma {:induction false} CanFinish(s: System, events: seq<Event>) returns (more: seq<Event>)
    requires Init(s)
    ensures forall i :: 0 <= i < |more| ==> Finishing(more[i])
    ensures Done(Run(s, events + more)) && Run(s, events + more).log == Run(s, events).log
    decreases Left(Run(s, events))
  {
    hide Run, Step, Init, Done, Left, NextTurn, Finishing, HandsSmall;
    var now := Run(s, events);
    if Done(now) {
      more := [];
      assert events + [] == events;
    } else {
      var e := NextTurn(now);
      RunHands(s, events);
      ReservedIsUnwritten(s, events);
      TurnFinishes(now);
      RunMore(s, events, e, []);
      var rest := CanFinish(s, events + [e]);
      RunMore(s, events, e, rest);
      more := [e] + rest;
    }
  }

  /**
    From every state of every run there is a way on, without another append, close or reader, after which every
    open archive holds exactly the records accepted for it, nothing is on its way and no byte stays reserved.
  */
  lemma EverythingCanBeWritten(s: System, events: seq<Event>) returns (more: seq<Event>)
    requires Init(s)
    ensures forall i :: 0 <= i < |more| ==> Finishing(more[i])
    ensures var now, t := Run(s, events), Run(s, events + more);
      && t.used == 0
      && forall id :: OnTheWay(t, id) == [] && Log(t, id) == Log(now, id) && (!Closed(t, id) ==> Records(t, id) == Log(now, id))
  {
    hide Run, Init, Finishing, Closed, Records, QueueBytes;
    more := CanFinish(s, events);
    var t := Run(s, events + more);
    ReservedIsUnwritten(s, events + more);
    NoBytes();
    forall id ensures OnTheWay(t, id) == [] && (!Closed(t, id) ==> Records(t, id) == Log(t, id)) {
      AcceptedIsWrittenOrOnTheWay(s, events + more, id);
      NothingQueued(id);
      assert Records(t, id) + [] == Records(t, id);
    }
  }

  // ----- who waits -----

  /**
    In every run a producer waits for room exactly while its record and the bytes not yet written would exceed
    32 MiB, and for the channel exactly while 1024 records are in it; the owner takes the oldest record exactly
    when it is not closing an archive and has released the record before.
  */
  lemma WaitsExactly(s: System, events: seq<Event>, i: nat)
    requires Init(s)
    ensures var now := Run(s, events);
      && (i < |now.reserving| ==>
            var a, next := now.reserving[i], Step(now, Reserve(i));
            if QueueBytes(now.sending) + QueueBytes(now.ingest) + now.releasing + |a.record.data| <= 32 * 1024 * 1024
            then next.sending == now.sending + [a] && next.reserving == now.reserving[..i] + now.reserving[i + 1..]
            else next == now)
      && (i < |now.sending| ==>
            var a, next := now.sending[i], Step(now, Send(i));
            if |now.ingest| < 1024
            then next.ingest == now.ingest + [a] && next.sending == now.sending[..i] + now.sending[i + 1..]
            else next == now)
      && (var next := Step(now, OwnerAppend);
          if now.ingest != [] && now.finalizing.None? && now.releasing == 0
          then next.ingest == now.ingest[1..] && next.releasing == |now.ingest[0].record.data|
          else next == now)
  {
    hide Run, Init, QueueBytes, Writing;
    ReservedIsUnwritten(s, events);
    var now := Run(s, events);
    if now.ingest != [] {
      var command := now.ingest[0];
      WritingHands(now.(ingest := now.ingest[1..], releasing := |command.record.data|), command.id, command.record);
    }
  }

  /** A closer that knows what to wait for is queued exactly while fewer than 1024 closes are; else it gives up, and appends are accepted again. */
  lemma ClosesExactly(s: System, id: Id)
    requires id in s.closing && s.closing[id].Some?
    ensures var next := Step(s, CloseSend(id));
      && id !in next.closing && next.log == s.log && next.disk == s.disk
      && if |s.finalize| < 1024 then next.finalize == s.finalize + [Close(id, s.closing[id].value)] && next.pendingCloses == s.pendingCloses
         else next.finalize == s.finalize && next.pendingCloses == s.pendingCloses - {id}
  {
  }
}
