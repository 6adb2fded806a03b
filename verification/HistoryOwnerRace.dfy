/** What a late reader does: the one way a closed archive can still gain a record. */
module HistoryOwnerRace {
  import opened Wrappers
  import opened HistoryCodec
  import opened HistoryOwner
  import opened HistoryOwnerLoop

  const START := System(map[], {}, 0, [], [], [], map[], [], [], map[], map[], None, 0, map[])

  const TERMINAL: Id := "t"

  function Sample(sequence: u64): Record {
    Record(sequence, [0])
  }

  /** The first record is written and the terminal's close reaches the owner, which unloads the archive. */
  function UntilUnloaded(): seq<Event> {
    [Accept(TERMINAL, Sample(1)), Reserve(0), Send(0), OwnerAppend, OwnerRelease,
     CloseMark(TERMINAL), CloseRead(TERMINAL), CloseSend(TERMINAL), OwnerReceive, OwnerUnload(0)]
  }

  /** A reader loads it before it is marked closed; the producer is not done. */
  function Later(): seq<Event> {
    [Read(TERMINAL), OwnerMarkClosed, Accept(TERMINAL, Sample(2)), Reserve(0), Send(0), OwnerAppend]
  }

  lemma Unloaded()
    ensures Run(START, UntilUnloaded()) ==
            System(map[TERMINAL := 1], {TERMINAL}, 0, [], [], [], map[], [], [],
                   map[TERMINAL := Stored([Sample(1)], false)], map[], Some(TERMINAL), 0, map[TERMINAL := [Sample(1)]])
  {
    hide Run;
    var s1 := Step(START, Accept(TERMINAL, Sample(1)));
    var s2 := Step(s1, Reserve(0));
    var s3 := Step(s2, Send(0));
    var s4 := Step(s3, OwnerAppend);
    var s5 := Step(s4, OwnerRelease);
    FirstRecord(s1, s2, s3, s4, s5);
    RunFive(START, UntilUnloaded()[..5]);
    var closing := UntilUnloaded()[5..];
    assert UntilUnloaded() == UntilUnloaded()[..5] + closing;
    RunConcat(START, UntilUnloaded()[..5], closing);
    RunFive(s5, closing);
    CloseSteps(s5);
  }

  lemma RunFive(s: System, e: seq<Event>)
    requires |e| == 5
    ensures Run(s, e) == Step(Step(Step(Step(Step(s, e[0]), e[1]), e[2]), e[3]), e[4])
  {
    hide Step;
    RunTwo(s, e[0], e[1]);
    RunPush(s, [e[0], e[1]], e[2]);
    RunPush(s, [e[0], e[1], e[2]], e[3]);
    RunPush(s, [e[0], e[1], e[2], e[3]], e[4]);
    assert e == [e[0], e[1], e[2], e[3]] + [e[4]];
    assert [e[0], e[1], e[2]] + [e[3]] == [e[0], e[1], e[2], e[3]] && [e[0], e[1]] + [e[2]] == [e[0], e[1], e[2]];
  }

  /** One append goes all the way: accepted, reserved, sent, and at the owner. */
  lemma AppendArrives(s: System, record: Record)
    requires s.reserving == [] && s.sending == [] && s.ingest == [] && s.used == 0 && s.pendingCloses == {}
    requires |record.data| == 1 && record.sequence > Accepted(s, TERMINAL)
    ensures Step(Step(Step(s, Accept(TERMINAL, record)), Reserve(0)), Send(0))
            == s.(accepted := s.accepted[TERMINAL := record.sequence], used := 1, ingest := [Append(TERMINAL, record)],
                  log := s.log[TERMINAL := Log(s, TERMINAL) + [record]])
  {
    hide Accepted, Log;
    var one := Append(TERMINAL, record);
    var s1 := Step(s, Accept(TERMINAL, record));
    assert s1 == s.(accepted := s.accepted[TERMINAL := record.sequence], reserving := [one],
                    log := s.log[TERMINAL := Log(s, TERMINAL) + [record]]) by {
      assert Queued(s.sending, TERMINAL) + Queued(s.reserving, TERMINAL) == [];
      assert s.reserving + [one] == [one];
    }
    hide Queued;
    var s2 := Step(s1, Reserve(0));
    assert s2 == s1.(used := 1, sending := [one], reserving := []);
    assert Step(s2, Send(0)) == s2.(ingest := [one], sending := []);
  }

  /** The owner writes the record in front to the archive its loaded copy calls open. */
  lemma OwnerWrites(s: System, record: Record, stored: Stored)
    requires s.ingest == [Append(TERMINAL, record)] && s.finalizing.None? && s.releasing == 0
    requires s.loaded == map[TERMINAL := false] && TERMINAL in s.disk && s.disk[TERMINAL] == stored
    requires record.sequence > LastOf(stored.records)
    ensures Step(s, OwnerAppend)
            == s.(ingest := [], releasing := |record.data|,
                  disk := s.disk[TERMINAL := stored.(records := stored.records + [record])])
  {
    hide LastOf;
    assert s.ingest[1..] == [];
  }

  lemma OwnerCreates(s: System, record: Record)
    requires s.ingest == [Append(TERMINAL, record)] && s.finalizing.None? && s.releasing == 0
    requires s.loaded == map[] && s.disk == map[] && record.sequence > 0
    ensures Step(s, OwnerAppend)
            == s.(ingest := [], releasing := |record.data|, loaded := map[TERMINAL := false],
                  disk := map[TERMINAL := Stored([record], false)])
  {
    assert s.ingest[1..] == [] && [] + [record] == [record];
  }

  lemma FirstRecord(s1: System, s2: System, s3: System, s4: System, s5: System)
    requires s1 == Step(START, Accept(TERMINAL, Sample(1))) && s2 == Step(s1, Reserve(0)) && s3 == Step(s2, Send(0))
    requires s4 == Step(s3, OwnerAppend) && s5 == Step(s4, OwnerRelease)
    ensures s5 == System(map[TERMINAL := 1], {}, 0, [], [], [], map[], [], [],
                         map[TERMINAL := Stored([Sample(1)], false)], map[TERMINAL := false], None, 0,
                         map[TERMINAL := [Sample(1)]])
  {
    AppendArrives(START, Sample(1));
    assert Log(START, TERMINAL) + [Sample(1)] == [Sample(1)];
    OwnerCreates(s3, Sample(1));
    assert s4.used == 1 && s4.releasing == 1;
    hide Accepting, Writing, Loading;
  }

  lemma CloseSteps(s: System)
    requires s.pendingCloses == {} && s.closing == map[] && s.finalize == [] && s.closes == [] && s.finalizing.None?
    requires s.accepted == map[TERMINAL := 1] && s.disk == map[TERMINAL := Stored([Sample(1)], false)]
    requires s.loaded == map[TERMINAL := false]
    ensures Step(Step(Step(Step(Step(s, CloseMark(TERMINAL)), CloseRead(TERMINAL)), CloseSend(TERMINAL)), OwnerReceive), OwnerUnload(0))
            == s.(pendingCloses := {TERMINAL}, loaded := map[], finalizing := Some(TERMINAL))
  {
    var s1 := Step(s, CloseMark(TERMINAL));
    assert s1 == s.(pendingCloses := {TERMINAL}, closing := map[TERMINAL := None]);
    var s2 := Step(s1, CloseRead(TERMINAL));
    assert s2 == s1.(closing := map[TERMINAL := Some(1)]);
    var s3 := Step(s2, CloseSend(TERMINAL));
    assert s3 == s2.(closing := map[], finalize := [Close(TERMINAL, 1)]);
    var s4 := Step(s3, OwnerReceive);
    assert s4 == s3.(closes := [Close(TERMINAL, 1)], finalize := []);
  }

  /** The six later steps, from the unloaded archive. */
  lemma AppendedAfterClosing(s: System)
    requires s == System(map[TERMINAL := 1], {TERMINAL}, 0, [], [], [], map[], [], [],
                         map[TERMINAL := Stored([Sample(1)], false)], map[], Some(TERMINAL), 0, map[TERMINAL := [Sample(1)]])
    ensures var closed := Step(Step(s, Read(TERMINAL)), OwnerMarkClosed);
      && Closed(closed, TERMINAL) && Records(closed, TERMINAL) == [Sample(1)]
      && Records(Step(Step(Step(Step(closed, Accept(TERMINAL, Sample(2))), Reserve(0)), Send(0)), OwnerAppend), TERMINAL)
         == [Sample(1), Sample(2)]
  {
    var read := Step(s, Read(TERMINAL));
    assert read == s.(loaded := map[TERMINAL := false]);
    var closed := Step(read, OwnerMarkClosed);
    assert closed == read.(finalizing := None, pendingCloses := {}, disk := map[TERMINAL := Stored([Sample(1)], true)]);
    AppendArrives(closed, Sample(2));
    OwnerWrites(Step(Step(Step(closed, Accept(TERMINAL, Sample(2))), Reserve(0)), Send(0)), Sample(2), Stored([Sample(1)], true));
    assert [Sample(1)] + [Sample(2)] == [Sample(1), Sample(2)];
    hide Step;
  }

  /** With such a reader, the protocol does not keep a closed archive as it was. */
  lemma LateReadBreaksClosed()
    ensures Init(START) && LateRead(Run(START, UntilUnloaded()), Later()[0], TERMINAL)
    ensures var closed := Run(START, UntilUnloaded() + Later()[..2]); var after := Run(START, UntilUnloaded() + Later());
      && Closed(closed, TERMINAL) && Records(closed, TERMINAL) == [Sample(1)]
      && Records(after, TERMINAL) == [Sample(1), Sample(2)]
  {
    hide Step, Run;
    Unloaded();
    var s, later := Run(START, UntilUnloaded()), Later();
    RunConcat(START, UntilUnloaded(), later[..2]);
    RunConcat(START, UntilUnloaded(), later);
    RunTwo(s, Read(TERMINAL), OwnerMarkClosed);
    assert later[..2] == [Read(TERMINAL), OwnerMarkClosed];
    assert later == [Read(TERMINAL)] + later[1..];
    RunConcat(s, [Read(TERMINAL)], later[1..]);
    RunFive(Step(s, Read(TERMINAL)), later[1..]);
    RunPush(s, [], Read(TERMINAL));
    assert [] + [Read(TERMINAL)] == [Read(TERMINAL)];
    RunNone(s);
    AppendedAfterClosing(s);
  }
}
