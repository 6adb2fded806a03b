/** The owner thread's own loop: draining the close channel, finalizing what is ready, writing the next record. */
module HistoryOwnerLoop {
  import opened Wrappers
  import opened HistoryCodec
  import opened HistoryOwner
  import opened HistoryOwnerProof

  /** The owner's part of the system; producers and closers in mid-call stand still while it works. */
  class Owner {
    var accepted: map<Id, nat>
    var pendingCloses: set<Id>
    var used: nat
    var ingest: seq<Append>
    var finalize: seq<Close>
    var closes: seq<Close>
    var disk: map<Id, Stored>
    var loaded: map<Id, bool>
    ghost var reserving: seq<Append>
    ghost var sending: seq<Append>
    ghost var closing: map<Id, Option<nat>>
    ghost var log: map<Id, seq<Record>>

    ghost function State(): System
      reads this
    {
      System(accepted, pendingCloses, used, reserving, sending, ingest, closing, finalize, closes,
             disk, loaded, None, 0, log)
    }

    constructor (found: map<Id, Stored>)
      ensures State().disk == map id | id in found :: Stored(found[id].records, true)
      ensures Init(State())
    {
      accepted, pendingCloses, used, ingest, finalize, closes := map[], {}, 0, [], [], [];
      disk, loaded := map id | id in found :: Stored(found[id].records, true), map[];
      reserving, sending, closing, log := [], [], map[], map[];
    }

    method StateFor(id: Id)
      modifies `accepted, `disk, `loaded
      ensures State() == Loading(old(State()), id)
      ensures id in loaded && id in old(loaded) ==> disk == old(disk)
    {
      if id in loaded {
        return;
      }
      if id !in disk {
        disk := disk[id := Stored([], false)];
      }
      loaded := loaded[id := disk[id].closed];
      var last := LastOf(disk[id].records);
      if last > 0 {
        var previous := if id in accepted then accepted[id] else 0;
        accepted := accepted[id := if last > previous then last else previous];
      }
      assert old(id in disk) ==> disk == old(disk)[id := disk[id]];
    }

    method AppendOwned(id: Id, record: Record) returns (ok: bool)
      modifies `accepted, `disk, `loaded
      ensures State() == Writing(old(State()), id, record)
    {
      StateFor(id);
      if loaded[id] || id !in disk || record.sequence <= LastOf(disk[id].records) {
        return false;
      }
      disk := disk[id := disk[id].(records := disk[id].records + [record])];
      ok := true;
    }

    /** One ingest command: the record is written or refused, and its bytes leave the budget either way. */
    method TakeCommand()
      requires ingest != []
      modifies this
      ensures State() == Step(Step(old(State()), OwnerAppend), OwnerRelease)
    {
      hide Writing, Loading;
      var command := ingest[0];
      var bytes := |command.record.data|;
      ReleasedWrite(State(), command.id, command.record);
      ingest := ingest[1..];
      var ok := AppendOwned(command.id, command.record);
      used := if bytes <= used then used - bytes else 0;
    }

    method ReceiveCloses()
      modifies `finalize, `closes
      ensures State() == old(State()).(finalize := [], closes := old(closes) + old(finalize))
      ensures State() == Run(old(State()), seq(old(|finalize|), _ => OwnerReceive))
    {
      hide Step, Run;
      ghost var start := State();
      ghost var n := 0;
      RunNone(start);
      assert seq(0, _ => OwnerReceive) == [];
      while finalize != []
        invariant n + |finalize| == |start.finalize| && finalize == start.finalize[n..] && closes == start.closes + start.finalize[..n]
        invariant State() == start.(finalize := finalize, closes := closes)
        invariant State() == Run(start, seq(n, _ => OwnerReceive))
        decreases |finalize|
      {
        RunPush(start, seq(n, _ => OwnerReceive), OwnerReceive);
        assert seq(n, _ => OwnerReceive) + [OwnerReceive] == seq(n + 1, _ => OwnerReceive);
        ReceiveOne(State());
        assert start.finalize[..n] + [start.finalize[n]] == start.finalize[..n + 1];
        closes := closes + [finalize[0]];
        finalize := finalize[1..];
        n := n + 1;
      }
    }

    /** Each close whose terminal is written far enough is finalized; the others wait, in order. */
    method FinalizeReady()
      modifies `pendingCloses, `closes, `disk, `loaded
      ensures State() == FinalizePass(old(State()), 0)
    {
      hide FinalizePass, Step;
      var waiting: seq<Close>, rest := [], closes;
      ghost var start := State();
      assert [] + closes == closes && start.(closes := closes) == start;
      while rest != []
        invariant FinalizePass(State().(closes := waiting + rest), |waiting|) == FinalizePass(start, 0)
        invariant State() == start.(pendingCloses := pendingCloses, closes := closes, disk := disk, loaded := loaded)
        decreases |rest|
      {
        var close := rest[0];
        PassStep(State(), waiting, rest);
        rest := rest[1..];
        var written := WrittenSequence(close.id);
        if written < close.through {
          waiting := waiting + [close];
        } else {
          FinalizeTerminal(close.id);
          pendingCloses := pendingCloses - {close.id};
        }
      }
      PassEnd(State().(closes := waiting));
      assert waiting + [] == waiting;
      closes := waiting;
    }

    method WrittenSequence(id: Id) returns (written: nat)
      ensures written == Written(State(), id)
    {
      written := if id in loaded && id in disk then LastOf(disk[id].records) else 0;
    }

    method FinalizeTerminal(id: Id)
      modifies `disk, `loaded
      ensures loaded == old(loaded) - {id}
      ensures disk == if id in old(disk) then old(disk)[id := old(disk)[id].(closed := true)] else old(disk)
    {
      loaded := loaded - {id};
      if id in disk && !disk[id].closed {
        disk := disk[id := disk[id].(closed := true)];
      }
    }
  }

  lemma ReleasedWrite(s: System, id: Id, record: Record)
    requires s.ingest != [] && s.ingest[0] == Append(id, record) && s.finalizing.None? && s.releasing == 0
    ensures var bytes := |record.data|; var next := Writing(s.(ingest := s.ingest[1..]), id, record);
      Step(Step(s, OwnerAppend), OwnerRelease) == next.(used := if bytes <= next.used then next.used - bytes else 0)
  {
    hide Writing;
    WritingWhileReleasing(s.(ingest := s.ingest[1..]), id, record, |record.data|);
    LoadingQueues(s.(ingest := s.ingest[1..]), id, record);
  }

  lemma WritingWhileReleasing(s: System, id: Id, record: Record, bytes: nat)
    requires s.releasing == 0
    ensures Writing(s.(releasing := bytes), id, record) == Writing(s, id, record).(releasing := bytes)
    ensures Writing(s, id, record).releasing == 0
  {
    LoadingWhileReleasing(s, id, bytes);
    hide Loading;
    var loaded := Loading(s, id);
    var ahead := loaded.(releasing := bytes);
    assert Loading(s.(releasing := bytes), id) == ahead;
    assert ahead.loaded == loaded.loaded && ahead.disk == loaded.disk;
  }

  lemma LoadingWhileReleasing(s: System, id: Id, bytes: nat)
    ensures Loading(s.(releasing := bytes), id) == Loading(s, id).(releasing := bytes)
    ensures Loading(s, id).releasing == s.releasing && id in Loading(s, id).loaded
  {
  }

  lemma RunPush(s: System, events: seq<Event>, e: Event)
    ensures Run(s, events + [e]) == Step(Run(s, events), e)
  {
    assert (events + [e])[..|events|] == events;
  }

  lemma ReceiveOne(s: System)
    requires s.finalize != []
    ensures Step(s, OwnerReceive) == s.(closes := s.closes + [s.finalize[0]], finalize := s.finalize[1..])
  {
  }

  /** One pass over the waiting closes, from the `i`th, as owner steps. */
  function FinalizePass(s: System, i: nat): System
    requires s.finalizing.None? && i <= |s.closes|
    decreases |s.closes| - i
  {
    if i == |s.closes| then s
    else if Written(s, s.closes[i].id) < s.closes[i].through then FinalizePass(s, i + 1)
    else FinalizePass(Step(Step(s, OwnerUnload(i)), OwnerMarkClosed), i)
  }

  lemma PassEnd(s: System)
    requires s.finalizing.None?
    ensures FinalizePass(s, |s.closes|) == s
  {
  }

  lemma PassStep(s: System, waiting: seq<Close>, rest: seq<Close>)
    requires s.finalizing.None? && rest != []
    ensures var id := rest[0].id;
      var here, finalized := s.(closes := waiting + rest),
        s.(closes := waiting + rest[1..], loaded := s.loaded - {id}, pendingCloses := s.pendingCloses - {id},
           disk := if id in s.disk then s.disk[id := s.disk[id].(closed := true)] else s.disk);
      FinalizePass(here, |waiting|) ==
      if Written(s, id) < rest[0].through then FinalizePass(s.(closes := waiting + [rest[0]] + rest[1..]), |waiting| + 1)
      else FinalizePass(finalized, |waiting|)
  {
    hide Step, Written;
    var here := s.(closes := waiting + rest);
    assert waiting + [rest[0]] + rest[1..] == waiting + rest;
    assert Without(waiting + rest, |waiting|) == waiting + rest[1..];
    SameWritten(s, here, rest[0].id);
    if Written(s, rest[0].id) >= rest[0].through { UnloadThenMark(here, |waiting|); }
  }

  lemma SameWritten(s: System, here: System, id: Id)
    requires here == s.(closes := here.closes)
    ensures Written(here, id) == Written(s, id)
  {
  }

  lemma UnloadThenMark(s: System, i: nat)
    requires s.finalizing.None? && i < |s.closes| && Written(s, s.closes[i].id) >= s.closes[i].through
    ensures var id := s.closes[i].id;
      Step(Step(s, OwnerUnload(i)), OwnerMarkClosed) ==
      s.(closes := Without(s.closes, i), loaded := s.loaded - {id}, pendingCloses := s.pendingCloses - {id},
         disk := if id in s.disk then s.disk[id := s.disk[id].(closed := true)] else s.disk)
  {
    hide Written, Without;
  }

  /** A pass is a run of the protocol's own steps, so everything proved of runs holds across it. */
  lemma {:induction false} PassIsRun(s: System, i: nat) returns (events: seq<Event>)
    requires s.finalizing.None? && i <= |s.closes|
    ensures FinalizePass(s, i) == Run(s, events) && forall k :: 0 <= k < |events| ==> !events[k].Read?
    decreases |s.closes| - i
  {
    hide Step, Run, Written;
    if i == |s.closes| {
      events := [];
      RunNone(s);
    } else if Written(s, s.closes[i].id) < s.closes[i].through {
      events := PassIsRun(s, i + 1);
    } else {
      PassCase(s, i);
      var next := Step(Step(s, OwnerUnload(i)), OwnerMarkClosed);
      var rest := PassIsRun(next, i);
      RunTwo(s, OwnerUnload(i), OwnerMarkClosed);
      RunConcat(s, [OwnerUnload(i), OwnerMarkClosed], rest);
      events := [OwnerUnload(i), OwnerMarkClosed] + rest;
    }
  }

  lemma PassCase(s: System, i: nat)
    requires s.finalizing.None? && i < |s.closes| && Written(s, s.closes[i].id) >= s.closes[i].through
    ensures Step(Step(s, OwnerUnload(i)), OwnerMarkClosed).finalizing.None?
    ensures |Step(Step(s, OwnerUnload(i)), OwnerMarkClosed).closes| == |s.closes| - 1
  {
  }

  lemma RunNone(s: System)
    ensures Run(s, []) == s
  {
  }

  lemma RunTwo(s: System, a: Event, b: Event)
    ensures Run(s, [a, b]) == Step(Step(s, a), b)
  {
    RunPush(s, [], a);
    RunPush(s, [a], b);
    assert [] + [a] == [a] && [a] + [b] == [a, b];
  }

  lemma {:induction false} RunConcat(s: System, a: seq<Event>, b: seq<Event>)
    ensures Run(s, a + b) == Run(Run(s, a), b)
  {
    hide Step, Run;
    RunNone(Run(s, a));
    if b == [] {
      assert a + b == a;
    } else {
      var init, last := b[..|b| - 1], b[|b| - 1];
      RunConcat(s, a, init);
      RunPush(s, a + init, last);
      RunPush(Run(s, a), init, last);
      assert a + b == a + init + [last] && b == init + [last];
    }
  }
}
