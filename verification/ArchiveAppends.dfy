/** Which appends a history accepts, when one completes, and that it can always be opened again. */
module ArchiveAppends {
  import opened Wrappers
  import opened Bytes
  import opened HistoryCodec
  import opened ActiveSegment
  import opened ArchiveDisk
  import opened ArchiveCrash
  import opened ArchiveQuota

  /** Everything dropped was followed by something kept: a history is empty only when nothing was ever appended. */
  predicate KeepsSome(a: Archive) {
    a.dropped <= |a.appended| && (a.appended != [] ==> a.dropped < |a.appended|)
  }

  lemma LiveLast(disk: Disk, mem: Memory, whole: seq<Record>, records: seq<Record>)
    requires Live(disk, mem, whole, records)
    ensures LastSequence(mem) == LastOf(records)
  {
    hide Labelled, ActiveHolds, Increasing, After, LastOf;
    LastOfConcat(ReadBlocks(disk.blocks, mem.blocks).value, mem.pending);
  }

  /** The blocks a live archive names are not empty. */
  lemma LiveBlocks(disk: Disk, mem: Memory, whole: seq<Record>, records: seq<Record>)
    requires Live(disk, mem, whole, records) && mem.blocks != []
    ensures records != []
  {
    hide ActiveHolds, Increasing, After, LastOf, ReadBlock;
    assert ReadBlock(disk.blocks, mem.blocks[0]).value != [];
  }

  /** Where a flush that succeeds leaves an empty history, nothing was flushed. */
  lemma FlushKeepsSome(events: seq<Event>)
    requires NoWindow(events) && Run(events).Up? && KeepsSome(Run(events))
    ensures KeepsSome(Step(Run(events), Do(Flush)))
  {
    hide Run, Step, Live, NoWindow, KeepsLongest, BytesIn, ReadBlocks, ValidRecords, Flushing;
    var a, b := Run(events), Step(Run(events), Do(Flush));
    FlushKeepsLongest(events);
    NoWindowMore(events);
    RunKeeps(events + [Do(Flush)]);
    if b != a {
      InvLive(b);
      var whole :| Live(b.disk, b.mem, whole, History(b));
      if Flushing(a.mem) != [] {
        KeptSome(b.mem.blocks, Flushing(a.mem));
        LiveBlocks(b.disk, b.mem, whole, History(b));
      } else {
        NothingToFlush(a.mem);
        RunKeeps(events);
        InvLive(a);
        var before :| Live(a.disk, a.mem, before, History(a));
        LiveEmpty(a.disk, a.mem, before, History(a));
      }
    }
  }

  lemma KeptSome(kept: seq<BlockEntry>, blocks: seq<BlockEntry>)
    requires KeepsLongest(kept, blocks) && blocks != []
    ensures kept != []
  {
  }

  lemma NothingToFlush(mem: Memory)
    requires Flushing(mem) == [] && (mem.pending == [] || ValidRecords(mem.pending))
    ensures mem.blocks == [] && mem.pending == []
  {
    hide ValidRecords;
  }

  lemma LiveEmpty(disk: Disk, mem: Memory, whole: seq<Record>, records: seq<Record>)
    requires Live(disk, mem, whole, records) && mem.blocks == [] && mem.pending == []
    ensures records == []
  {
    hide ActiveHolds, Increasing, After, LastOf;
  }

  lemma AppendDisks(a: Archive, r: Record)
    requires a.Up?
    ensures |Disks(a.disk, a.mem, Append(r))| == if MayAppend(a.mem, r) then |EncodeActive(r)| + 1 else 1
    ensures !MayAppend(a.mem, r) ==> Disks(a.disk, a.mem, Append(r)) == [a.disk] && Finished(a.disk, a.mem, Append(r)) == a.mem
    ensures forall k :: DroppedBy(a, Append(r), k) == a.dropped
    ensures forall k :: AppendedBy(a, Append(r), k) ==
                        if MayAppend(a.mem, r) && k == |EncodeActive(r)| then a.appended + [r] else a.appended
  {
    hide EncodeActive, MayAppend;
  }

  lemma AppendStep(a: Archive, r: Record)
    requires a.Up?
    ensures var b := Step(a, Do(Append(r)));
      && b.Up? && b.dropped == a.dropped
      && b.appended == (if MayAppend(a.mem, r) then a.appended + [r] else a.appended)
      && (!MayAppend(a.mem, r) ==> b == a)
  {
    hide EncodeActive, MayAppend, Disks, DroppedBy, AppendedBy, Finished;
    AppendDisks(a, r);
  }

  lemma AppendCut(a: Archive, r: Record, k: nat)
    requires a.Up?
    ensures var c := Step(a, CrashDuring(Append(r), k));
      && c.dropped == a.dropped
      && c.appended == if MayAppend(a.mem, r) && k >= |EncodeActive(r)| then a.appended + [r] else a.appended
  {
    hide EncodeActive, MayAppend, Disks, DroppedBy, AppendedBy, Finished;
    AppendDisks(a, r);
  }

  lemma FlushAppends(a: Archive)
    requires a.Up?
    ensures Step(a, Do(Flush)).appended == a.appended
    ensures forall k :: var c := Step(a, CrashDuring(Flush, k));
      c.appended == a.appended && (c.dropped == a.dropped || c.dropped == Step(a, Do(Flush)).dropped)
  {
    hide FlushDisks, QuotaDisks, DroppedRecords, FlushedMemory, FlushSucceeds;
  }

  lemma OpenKeeps(a: Archive, e: Event)
    requires e.CrashWhileOpening? || e.Reopen? || a.Down?
    ensures Step(a, e).appended == a.appended && Step(a, e).dropped == a.dropped
  {
    hide OpenDisks, OpenMemory;
  }

  lemma {:induction false} RunKeepsSome(events: seq<Event>)
    requires NoWindow(events)
    ensures KeepsSome(Run(events))
  {
    hide Step, InQuotaWindow;
    if events != [] {
      var init, e := events[..|events| - 1], events[|events| - 1];
      var a := Run(init);
      RunKeepsSome(init);
      if e.CrashWhileOpening? || e.Reopen? || a.Down? {
        OpenKeeps(a, e);
      } else if e.op.Append? {
        AppendStep(a, e.op.record);
        if e.CrashDuring? { AppendCut(a, e.op.record, e.k); }
      } else {
        FlushAppends(a);
        FlushKeepsSome(init);
      }
    }
  }

  /**
    After any run, an append is accepted exactly when its payload has 1 byte to 64 KiB and its sequence is above
    that of the last one ever appended, dropped or not; it has completed exactly when its 16-byte header and
    payload are all written; and a refused one touches neither the files nor the memory.
  */
  lemma AppendExactly(events: seq<Event>, r: Record, k: nat)
    requires NoWindow(events) && Run(events).Up?
    ensures var a := Run(events);
      var accepted := 1 <= |r.data| <= 64 * 1024 && (a.appended == [] || a.appended[|a.appended| - 1].sequence < r.sequence) && r.sequence > 0;
      var b, c := Step(a, Do(Append(r))), Step(a, CrashDuring(Append(r), k));
      && b.Up? && b.dropped == c.dropped == a.dropped
      && b.appended == (if accepted then a.appended + [r] else a.appended)
      && c.appended == (if accepted && k >= 16 + |r.data| then a.appended + [r] else a.appended)
      && (!accepted ==> b == a)
  {
    hide Run, Step, Live, NoWindow, EncodeActive, MayAppend;
    RunKeeps(events);
    RunKeepsSome(events);
    var a := Run(events);
    InvLive(a);
    var whole :| Live(a.disk, a.mem, whole, History(a));
    LiveLast(a.disk, a.mem, whole, History(a));
    LastKept(a);
    AppendStep(a, r);
    AppendCut(a, r, k);
    MayAppendIs(a.mem, r);
  }

  lemma LastKept(a: Archive)
    requires KeepsSome(a)
    ensures LastOf(History(a)) == if a.appended == [] then 0 else a.appended[|a.appended| - 1].sequence
  {
  }

  lemma MayAppendIs(mem: Memory, r: Record)
    ensures MayAppend(mem, r) <==> r.sequence > LastSequence(mem) && 1 <= |r.data| <= 64 * 1024
    ensures ValidData(r.data) ==> |EncodeActive(r)| == 16 + |r.data|
  {
    hide ToBe, Checksum, LastSequence;
  }

  lemma OpenSteps(a: Archive, k: nat)
    ensures var b, c := Step(a, Reopen), Step(a, CrashWhileOpening(k));
      && b.appended == c.appended == a.appended && b.dropped == c.dropped == a.dropped
      && (a.Up? ==> b == c == a) && (a.Down? ==> c.Down? && (OpenMemory(a.disk).Some? ==> b.Up?))
  {
    hide OpenDisks, OpenMemory;
  }

  /**
    Opening always works after a crash, and only then does something: the history is the one it had, and nothing
    is counted as appended or dropped by it, finished or cut short.
  */
  lemma OpensExactly(events: seq<Event>, k: nat)
    requires NoWindow(events)
    ensures var a := Run(events); var b, c := Step(a, Reopen), Step(a, CrashWhileOpening(k));
      && b.Up? && b.appended == c.appended == a.appended && b.dropped == c.dropped == a.dropped
      && (a.Up? ==> b == c == a) && (a.Down? ==> c.Down?)
  {
    hide Run, NoWindow, Live, Step, Sound, OpenDisks, OpenMemory;
    RunKeeps(events);
    var a := Run(events);
    OpenSteps(a, k);
    if a.Down? {
      DownSound(a);
      OpenHolds(a.disk, History(a));
    }
  }

  lemma DownSound(a: Archive)
    requires a.Down? && Inv(a)
    ensures a.dropped <= |a.appended| && Sound(a.disk, History(a))
  {
    hide Sound;
  }
}
