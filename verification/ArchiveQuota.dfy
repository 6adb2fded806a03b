/**
  The per-terminal quota: what a flush keeps and what it may drop, and that its window is real: some run
  reaches it, and every run that reaches the quota can crash inside it.
*/
module ArchiveQuota {
  import opened Wrappers
  import opened Bytes
  import opened HistoryCodec
  import opened ActiveSegment
  import opened ArchiveDisk
  import opened ArchiveCrash

  // ----- what the quota keeps -----

  /** The bytes stored in these blocks. */
  function BytesIn(entries: seq<BlockEntry>): nat {
    if entries == [] then 0 else BytesIn(entries[..|entries| - 1]) + entries[|entries| - 1].storedBytes
  }

  /** The manifest's blocks once everything pending is a block of its own. */
  function Flushing(mem: Memory): seq<BlockEntry> {
    if mem.pending == [] || !ValidRecords(mem.pending) then mem.blocks
    else mem.blocks + [BlockEntry(mem.pending[0].sequence, mem.pending[|mem.pending| - 1].sequence,
                                  DataBytes(mem.pending), |Header(|mem.pending|) + Body(mem.pending)|)]
  }

  /** `kept` is the longest end of `blocks` that is within 256 MiB, or the last block alone. */
  predicate KeepsLongest(kept: seq<BlockEntry>, blocks: seq<BlockEntry>) {
    && |kept| <= |blocks| && kept == blocks[|blocks| - |kept|..]
    && (blocks != [] ==> kept != [])
    && (BytesIn(kept) <= 256 * 1024 * 1024 || |kept| == 1)
    && (|kept| < |blocks| ==> BytesIn(blocks[|blocks| - |kept| - 1..]) > 256 * 1024 * 1024)
  }

  lemma {:induction false} BytesFirst(entries: seq<BlockEntry>)
    requires entries != []
    ensures BytesIn(entries) == entries[0].storedBytes + BytesIn(entries[1..])
    decreases |entries|
  {
    if |entries| > 1 {
      BytesFirst(entries[..|entries| - 1]);
      assert entries[..|entries| - 1][1..] == entries[1..][..|entries| - 2];
    }
  }

  lemma {:induction false} StoredIsBytes(entries: seq<BlockEntry>)
    ensures Stored(entries) == BytesIn(entries)
  {
    if entries != [] {
      BytesFirst(entries);
      StoredIsBytes(entries[1..]);
    }
  }

  lemma {:induction false} TrimKeepsLongest(entries: seq<BlockEntry>)
    ensures KeepsLongest(Trimmed(entries), entries)
    decreases |entries|
  {
    StoredIsBytes(entries);
    if OverQuota(entries) {
      TrimKeepsLongest(entries[1..]);
      var kept := Trimmed(entries[1..]);
      assert entries[1..][|entries| - 1 - |kept|..] == entries[|entries| - |kept|..];
      if |kept| < |entries| - 1 {
        assert entries[1..][|entries| - 1 - |kept| - 1..] == entries[|entries| - |kept| - 1..];
      } else {
        assert entries[|entries| - |kept| - 1..] == entries;
      }
    } else {
      assert entries[0..] == entries;
    }
  }

  lemma FlushedIsFlushing(mem: Memory)
    ensures FlushedMemory(mem).blocks == Flushing(mem)
    ensures FlushSucceeds(mem) ==> FlushedMemory(mem).pending == []
    ensures FlushSucceeds(mem) <==> mem.pending == [] || ValidRecords(mem.pending)
  {
    hide ValidRecords, Body, Header, DataBytes;
  }

  lemma {:induction false} DropsNothing(files: map<Name, seq<byte>>, entries: seq<BlockEntry>)
    requires BytesIn(entries) <= 256 * 1024 * 1024
    ensures DroppedRecords(files, entries) == 0 && Trimmed(entries) == entries
  {
    StoredIsBytes(entries);
  }

  /** In every state a run reaches, the history is exactly what the manifest's blocks and the pending records hold. */
  lemma HistoryIsStored(events: seq<Event>)
    requires NoWindow(events) && Run(events).Up?
    ensures var a := Run(events);
      && a.dropped <= |a.appended| && ReadBlocks(a.disk.blocks, a.mem.blocks).Some?
      && History(a) == ReadBlocks(a.disk.blocks, a.mem.blocks).value + a.mem.pending
  {
    hide Run, NoWindow, Labelled, ActiveHolds, ReadBlocks, Increasing;
    RunKeeps(events);
    var a := Run(events);
    InvLive(a);
    var whole :| Live(a.disk, a.mem, whole, History(a));
  }

  /**
    A flush keeps the longest end of the blocks, the new one included, that is within 256 MiB, or the last
    alone; the history is then exactly those blocks' records; and while they are all within 256 MiB
    nothing is dropped.
  */
  lemma FlushKeepsLongest(events: seq<Event>)
    requires NoWindow(events) && Run(events).Up?
    ensures var a, b := Run(events), Step(Run(events), Do(Flush));
      if a.mem.pending != [] && !ValidRecords(a.mem.pending) then b == a
      else
        && b.Up? && b.appended == a.appended && b.mem.pending == [] && KeepsLongest(b.mem.blocks, Flushing(a.mem))
        && b.dropped <= |b.appended| && ReadBlocks(b.disk.blocks, b.mem.blocks) == Some(b.appended[b.dropped..])
        && (BytesIn(Flushing(a.mem)) <= 256 * 1024 * 1024 ==> b.dropped == a.dropped && b.mem.blocks == Flushing(a.mem))
  {
    hide Run, NoWindow, KeepsLongest, ReadBlocks, DroppedRecords, ValidRecords, FlushSucceeds, Trimmed, Step, History, Flushing,
         FlushDisks, FlushedMemory, BytesIn;
    var a, b := Run(events), Step(Run(events), Do(Flush));
    FlushedIsFlushing(a.mem);
    FlushStep(a);
    if FlushSucceeds(a.mem) {
      TrimKeepsLongest(Flushing(a.mem));
      NoWindowMore(events);
      HistoryIsStored(events + [Do(Flush)]);
      HistoryMeans(b);
      assert ReadBlocks(b.disk.blocks, b.mem.blocks).value + [] == ReadBlocks(b.disk.blocks, b.mem.blocks).value;
      if BytesIn(Flushing(a.mem)) <= 256 * 1024 * 1024 {
        DropsNothing(Last(FlushDisks(a.disk, a.mem)).blocks, Flushing(a.mem));
      }
    }
  }

  lemma HistoryMeans(a: Archive)
    requires a.dropped <= |a.appended|
    ensures History(a) == a.appended[a.dropped..]
  {
  }

  lemma FlushStep(a: Archive)
    requires a.Up?
    ensures var b := Step(a, Do(Flush));
      && b.Up?
      && (if FlushSucceeds(a.mem) then
            && b.mem == TrimmedMemory(FlushedMemory(a.mem)) && b.appended == a.appended
            && b.dropped == a.dropped + DroppedRecords(Last(FlushDisks(a.disk, a.mem)).blocks, FlushedMemory(a.mem).blocks)
          else b == a)
  {
    hide FlushDisks, QuotaDisks, FlushedMemory, DroppedRecords, FlushSucceeds, TrimmedMemory;
  }

  lemma NoWindowMore(events: seq<Event>)
    requires NoWindow(events)
    ensures NoWindow(events + [Do(Flush)]) && Run(events + [Do(Flush)]) == Step(Run(events), Do(Flush))
  {
    hide Step;
    RunPush(events, Do(Flush));
  }

  /** The event flushes an open archive, whether it then crashes or not. */
  predicate Flushes(a: Archive, e: Event) {
    a.Up? && ((e.Do? && e.op.Flush?) || (e.CrashDuring? && e.op.Flush?))
  }

  predicate WithinQuota(a: Archive, e: Event) {
    Flushes(a, e) ==> BytesIn(Flushing(a.mem)) <= 256 * 1024 * 1024
  }

  /** What a step drops is what its operation has dropped where it stops. */
  lemma StepDrops(a: Archive, e: Event)
    ensures if a.Up? && (e.Do? || e.CrashDuring?)
            then exists k :: Step(a, e).dropped == DroppedBy(a, e.op, k)
            else Step(a, e).dropped == a.dropped
  {
    hide DroppedBy, AppendedBy, Disks, OpenDisks, Finished;
    if a.Up? && e.Do? {
      assert Step(a, e).dropped == DroppedBy(a, e.op, |Disks(a.disk, a.mem, e.op)| - 1);
    }
    if a.Up? && e.CrashDuring? {
      assert Step(a, e).dropped == DroppedBy(a, e.op, Reached(Disks(a.disk, a.mem, e.op), e.k));
    }
  }

  lemma OnlyFlushesDrop(a: Archive, op: Op, k: nat)
    requires a.Up?
    requires op.Flush? ==> DroppedRecords(Last(FlushDisks(a.disk, a.mem)).blocks, FlushedMemory(a.mem).blocks) == 0
    ensures DroppedBy(a, op, k) == a.dropped
  {
    hide FlushDisks, QuotaDisks, Disks, DroppedRecords, FlushSucceeds, FlushedMemory;
  }

  lemma StepDropsNothing(a: Archive, e: Event)
    requires WithinQuota(a, e)
    ensures Step(a, e).dropped == a.dropped
  {
    hide Step, DroppedBy, DroppedRecords, FlushDisks, BytesIn, Flushing, FlushedMemory;
    StepDrops(a, e);
    if a.Up? && (e.Do? || e.CrashDuring?) {
      if Flushes(a, e) {
        FlushedIsFlushing(a.mem);
        DropsNothing(Last(FlushDisks(a.disk, a.mem)).blocks, Flushing(a.mem));
      }
      var k :| Step(a, e).dropped == DroppedBy(a, e.op, k);
      OnlyFlushesDrop(a, e.op, k);
    }
  }

  /** A run each of whose flushes finds its blocks within 256 MiB drops nothing. */
  lemma {:induction false} WithinQuotaDropsNothing(events: seq<Event>)
    requires forall k :: 0 <= k < |events| ==> WithinQuota(Run(events[..k]), events[k])
    ensures Run(events).dropped == 0
  {
    hide Step, WithinQuota;
    if events != [] {
      var init, n := events[..|events| - 1], |events| - 1;
      forall k | 0 <= k < |init|
        ensures WithinQuota(Run(init[..k]), init[k])
      {
        assert init[..k] == events[..k] && init[k] == events[k];
      }
      WithinQuotaDropsNothing(init);
      assert events[..n] == init;
      StepDropsNothing(Run(init), events[n]);
    }
  }

  // ----- its window -----

  /** The next flush will drop blocks. */
  predicate AtQuota(a: Archive) {
    a.Up? && FlushSucceeds(a.mem) && Drops(FlushedMemory(a.mem))
  }

  /** Wherever the next flush drops a block, it can be cut right after the first removed file: then the archive cannot be read. */
  lemma QuotaCanLose(events: seq<Event>)
    requires NoWindow(events) && AtQuota(Run(events))
    ensures var a := Run(events); var k := |FlushDisks(a.disk, a.mem)|;
      InQuotaWindow(a, Flush, k) && Readback(Step(a, CrashDuring(Flush, k)).disk) == None
  {
    hide Run, Readback, Disks;
    var a := Run(events);
    var k := |FlushDisks(a.disk, a.mem)|;
    WindowOpens(a);
    CrashReadableExactly(events, Flush, k);
  }

  lemma WindowOpens(a: Archive)
    requires AtQuota(a)
    ensures InQuotaWindow(a, Flush, |FlushDisks(a.disk, a.mem)|)
  {
    hide FlushDisks, FlushedMemory, OverQuota, FlushSucceeds;
    var flushed, mem := Last(FlushDisks(a.disk, a.mem)), FlushedMemory(a.mem);
    RemovesSome(flushed, mem);
    assert |QuotaDisks(flushed, mem)| >= 4;
  }

  lemma RemovesSome(disk: Disk, mem: Memory)
    requires Drops(mem)
    ensures |Removals(disk, mem.blocks)| >= 1
  {
  }

  // ----- a run that reaches it -----

  /** The one-byte record of one round. */
  function Small(n: nat): Record
    requires 0 < n < U64
  {
    Record(n, [0])
  }

  /** Open a new archive, then append and flush one small record at a time. */
  function Filling(n: nat): seq<Event>
    requires n < U64
  {
    if n == 0 then [Reopen] else Filling(n - 1) + [Do(Append(Small(n)))] + [Do(Flush)]
  }

  /** After `n` rounds that dropped nothing: as many blocks, each of at least a byte. */
  predicate Filled(a: Archive, n: nat) {
    && a.Up? && a.mem.pending == [] && |a.mem.blocks| == n && Stored(a.mem.blocks) >= n && LastBlock(a.mem.blocks) == n
    && !OverQuota(a.mem.blocks)
  }

  ghost predicate Reachable() {
    exists events :: NoWindow(events) && AtQuota(Run(events))
  }

  lemma RunPush(events: seq<Event>, e: Event)
    ensures Run(events + [e]) == Step(Run(events), e)
    ensures NoWindow(events + [e]) <==>
            NoWindow(events) && (e.CrashDuring? ==> !InQuotaWindow(Run(events), e.op, e.k))
  {
    hide Step, InQuotaWindow;
    assert (events + [e])[..|events|] == events;
  }

  lemma {:induction false} StoredPush(entries: seq<BlockEntry>, e: BlockEntry)
    ensures Stored(entries + [e]) == Stored(entries) + e.storedBytes
  {
    if entries == [] {
      assert [] + [e] == [e] && Stored([e][1..]) == 0;
    } else {
      assert (entries + [e])[0] == entries[0] && (entries + [e])[1..] == entries[1..] + [e];
      StoredPush(entries[1..], e);
    }
  }

  lemma SmallEncodes(n: nat)
    requires 0 < n < U64
    ensures ValidData(Small(n).data) && EncodeBlock([Small(n)]).Some? && |EncodeBlock([Small(n)]).value| >= 1
  {
    var r := Small(n);
    assert [r][1..] == [];
    assert Increasing([r][1..], r.sequence) && Increasing([r], 0);
  }

  lemma OpensEmpty()
    ensures NoWindow([Reopen]) && Filled(Run([Reopen]), 0)
  {
    hide Scan;
    assert [Reopen][..0] == [];
    assert OpenMemory(EMPTY_DISK) == Some(Memory([], []));
  }

  /** One round: an append that the owner accepts, then its flush. */
  lemma Round(a: Archive, n: nat)
    requires Filled(a, n) && n + 1 < U64
    ensures var b := Step(a, Do(Append(Small(n + 1))));
      AtQuota(b) || Filled(Step(b, Do(Flush)), n + 1)
  {
    hide EncodeBlock, EncodeActive, Disks, OverQuota, DroppedRecords, LastBlock, Stored;
    var r := Small(n + 1);
    SmallEncodes(n + 1);
    var b := Step(a, Do(Append(r)));
    assert b.Up? && b.mem == Memory(a.mem.blocks, [r]) by {
      assert [] + [r] == [r];
    }
    var entry := PendingEntry([r], |EncodeBlock([r]).value|);
    StoredPush(a.mem.blocks, entry);
    LastPush(a.mem.blocks, entry);
    assert FlushedMemory(b.mem) == Memory(a.mem.blocks + [entry], []);
    if !AtQuota(b) {
      var c := Step(b, Do(Flush));
      assert c.mem == FlushedMemory(b.mem);
    }
  }

  lemma LastPush(entries: seq<BlockEntry>, e: BlockEntry)
    ensures LastBlock(entries + [e]) == e.last
  {
  }

  lemma {:induction false} Fills(n: nat)
    requires n < U64
    ensures NoWindow(Filling(n)) && (Filled(Run(Filling(n)), n) || Reachable())
  {
    hide Filled, Step, AtQuota, InQuotaWindow, Run, NoWindow;
    if n == 0 {
      OpensEmpty();
    } else {
      Fills(n - 1);
      var before := Filling(n - 1);
      var appended := before + [Do(Append(Small(n)))];
      RunPush(before, Do(Append(Small(n))));
      RunPush(appended, Do(Flush));
      if Filled(Run(before), n - 1) {
        Round(Run(before), n - 1);
        if AtQuota(Run(appended)) {
          assert NoWindow(appended) && AtQuota(Run(appended));
        }
      }
    }
  }

  lemma NotFilled(a: Archive, n: nat)
    requires n > MAX_TERMINAL_BYTES + 1
    ensures !Filled(a, n)
  {
  }

  /** Some run without a crash in the window comes to the point where its next flush can be cut there. */
  lemma QuotaIsReached()
    ensures exists events :: NoWindow(events) && AtQuota(Run(events))
  {
    hide Run, NoWindow, AtQuota;
    var n := MAX_TERMINAL_BYTES + 2;
    Fills(n);
    if Filled(Run(Filling(n)), n) {
      NotFilled(Run(Filling(n)), n);
    }
  }
}
