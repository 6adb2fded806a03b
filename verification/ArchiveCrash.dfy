/** Crash safety of the archive: what any process finds on disk, whenever the last one died. */
module ArchiveCrash {
  import opened Wrappers
  import opened Bytes
  import opened HistoryCodec
  import opened ActiveSegment
  import opened ArchiveDisk

  // ----- a readable disk -----

  /** The manifest's blocks are present, labelled with their own first and last sequence, and in order. */
  ghost predicate Labelled(files: map<Name, seq<byte>>, entries: seq<BlockEntry>) {
    && (forall i :: 0 <= i < |entries| ==>
          ReadBlock(files, entries[i]).Some? && entries[i].first <= entries[i].last
          && ReadBlock(files, entries[i]).value != [] && ReadBlock(files, entries[i]).value[0].sequence == entries[i].first
          && LastOf(ReadBlock(files, entries[i]).value) == entries[i].last)
    && (forall i, j :: 0 <= i < j < |entries| ==> entries[i].last < entries[j].first)
  }

  /** The active segment holds `whole` records, then bytes that start no further one. */
  ghost predicate ActiveHolds(active: seq<byte>, whole: seq<Record>, tail: seq<byte>) {
    && Increasing(whole, 0)
    && ScanOne(tail, LastOf(whole)).None?
    && (active == ACTIVE_MAGIC + ActiveBody(whole) + tail || (active == [] && whole == [] && tail == []))
  }

  ghost predicate Holds(disk: Disk, whole: seq<Record>, tail: seq<byte>, records: seq<Record>) {
    && Labelled(disk.blocks, Entries(disk))
    && ActiveHolds(disk.active, whole, tail)
    && ReadBlocks(disk.blocks, Entries(disk)).Some?
    && records == ReadBlocks(disk.blocks, Entries(disk)).value + After(whole, LastBlock(Entries(disk)))
    && Increasing(records, 0)
    && LastBlock(Entries(disk)) == LastOf(ReadBlocks(disk.blocks, Entries(disk)).value)
  }

  ghost predicate Sound(disk: Disk, records: seq<Record>) {
    exists whole, tail :: Holds(disk, whole, tail, records)
  }

  /** The live owner's memory agrees with its disk, whose active segment has no torn tail. */
  ghost predicate Live(disk: Disk, mem: Memory, whole: seq<Record>, records: seq<Record>) {
    && Holds(disk, whole, [], records)
    && disk.active != []
    && disk.manifest == Some(mem.blocks)
    && mem.pending == After(whole, LastBlock(mem.blocks))
  }

  // ----- reading blocks -----

  lemma {:induction false} ReadConcat(files: map<Name, seq<byte>>, a: seq<BlockEntry>, b: seq<BlockEntry>)
    ensures ReadBlocks(files, a + b).Some? <==> ReadBlocks(files, a).Some? && ReadBlocks(files, b).Some?
    ensures ReadBlocks(files, a + b).Some? ==>
              ReadBlocks(files, a + b).value == ReadBlocks(files, a).value + ReadBlocks(files, b).value
  {
    hide ReadBlock;
    if a == [] {
      assert a + b == b;
    } else {
      ReadConcat(files, a[1..], b);
      assert (a + b)[1..] == a[1..] + b && (a + b)[0] == a[0];
    }
  }

  lemma ReadOne(files: map<Name, seq<byte>>, e: BlockEntry)
    ensures ReadBlocks(files, [e]) == ReadBlock(files, e)
  {
    assert ReadBlocks(files, [e][1..]) == Some([]);
    if ReadBlock(files, e).Some? {
      assert ReadBlock(files, e).value + [] == ReadBlock(files, e).value;
    }
  }

  /** Files the manifest does not name do not matter. */
  lemma {:induction false} ReadUnnamed(files: map<Name, seq<byte>>, other: map<Name, seq<byte>>, entries: seq<BlockEntry>)
    requires forall i :: 0 <= i < |entries| ==> ReadBlock(other, entries[i]) == ReadBlock(files, entries[i])
    ensures ReadBlocks(other, entries) == ReadBlocks(files, entries)
  {
    if entries != [] {
      assert forall i :: 0 <= i < |entries[1..]| ==> entries[1..][i] == entries[i + 1];
      ReadUnnamed(files, other, entries[1..]);
      assert ReadBlock(other, entries[0]) == ReadBlock(files, entries[0]);
    }
  }

  /** A sound disk reads back as exactly its records. */
  lemma SoundReads(disk: Disk, records: seq<Record>)
    requires Sound(disk, records)
    ensures Readback(disk) == Some(records)
  {
    var whole, tail :| Holds(disk, whole, tail, records);
    hide Labelled, ReadBlocks, Increasing, ScanOne, Scan, ActiveBody;
    ActiveReads(disk.active, whole, tail);
  }

  lemma ActiveReads(active: seq<byte>, whole: seq<Record>, tail: seq<byte>)
    requires ActiveHolds(active, whole, tail)
    ensures active != [] ==>
              && |active| >= 8 && active[..8] == ACTIVE_MAGIC && active[8..] == ActiveBody(whole) + tail
              && Scan(active[8..], 0) == (whole, |ActiveBody(whole)|)
              && active == ACTIVE_MAGIC + ActiveBody(whole) + tail
    ensures active == [] ==> whole == []
    ensures forall last: nat :: ReadPending(active, last) == Some(After(whole, last))
  {
    hide Increasing, ScanOne, Scan, ActiveBody;
    if active != [] {
      assert active[8..] == ActiveBody(whole) + tail;
      ScanBody(whole, tail, 0);
    }
  }

  // ----- appending -----

  lemma {:induction false} AfterSuffix(records: seq<Record>, previous: nat, sequence: nat)
    requires Increasing(records, previous)
    ensures if After(records, sequence) == [] then records == [] || LastOf(records) <= sequence
            else LastOf(After(records, sequence)) == LastOf(records) > sequence && records != []
  {
    if records != [] {
      AfterSuffix(records[1..], records[0].sequence, sequence);
      if |records| > 1 {
        assert LastOf(records[1..]) == LastOf(records);
        LastIsLargest(records, previous);
      }
      if records[0].sequence > sequence {
        AfterSmaller(records[1..], records[0].sequence, sequence);
      }
    }
  }

  /** While a record is being written, and after its last byte, the disk holds what it should. */
  lemma AppendHolds(disk: Disk, mem: Memory, whole: seq<Record>, records: seq<Record>, record: Record, written: nat)
    requires Live(disk, mem, whole, records) && MayAppend(mem, record) && written <= |EncodeActive(record)|
    ensures written < |EncodeActive(record)| ==> Holds(Appended(disk, record, written), whole, EncodeActive(record)[..written], records)
    ensures written == |EncodeActive(record)| ==>
              Live(Appended(disk, record, written), Memory(mem.blocks, mem.pending + [record]), whole + [record], records + [record])
  {
    hide Labelled, ReadBlocks, Increasing, ActiveBody, EncodeActive;
    var last := LastBlock(mem.blocks);
    AfterSuffix(whole, 0, last);
    LastOfConcat(ReadBlocks(disk.blocks, mem.blocks).value, mem.pending);
    assert record.sequence > LastOf(whole) && record.sequence > LastOf(records) && record.sequence > last;
    assert disk.active == ACTIVE_MAGIC + ActiveBody(whole) by {
      assert ACTIVE_MAGIC + ActiveBody(whole) + [] == ACTIVE_MAGIC + ActiveBody(whole);
    }
    if written < |EncodeActive(record)| {
      ScanTorn(record, written, LastOf(whole));
      assert disk.active + EncodeActive(record)[..written] == ACTIVE_MAGIC + ActiveBody(whole) + EncodeActive(record)[..written];
    } else {
      IncreasingPush(whole, record);
      IncreasingPush(records, record);
      AfterConcat(whole, [record], last);
      AfterLater(record, last);
      ActiveConcat(whole, [record]);
      OneActive(record);
      EmptyActive();
      assert EncodeActive(record)[..written] == EncodeActive(record);
      assert disk.active + EncodeActive(record) == ACTIVE_MAGIC + ActiveBody(whole + [record]) + [];
    }
  }

  lemma AfterLater(record: Record, last: nat)
    requires record.sequence > last
    ensures After([record], last) == [record]
  {
  }

  lemma LastOfConcat(a: seq<Record>, b: seq<Record>)
    ensures LastOf(a + b) == if b == [] then LastOf(a) else LastOf(b)
  {
    if b == [] { assert a + b == a; }
  }

  // ----- flushing -----

  lemma FlushLabelled(files: map<Name, seq<byte>>, entries: seq<BlockEntry>, pending: seq<Record>, bytes: seq<byte>)
    requires Labelled(files, entries) && ReadBlocks(files, entries).Some?
    requires EncodeBlock(pending) == Some(bytes) && pending != [] && pending[0].sequence > LastBlock(entries)
    ensures var e := PendingEntry(pending, |bytes|); var added := files[NameOf(e) := bytes];
      && Labelled(added, entries) && Labelled(added, entries + [e])
      && ReadBlocks(added, entries) == ReadBlocks(files, entries)
      && ReadBlocks(added, entries + [e]) == Some(ReadBlocks(files, entries).value + pending)
  {
    hide EncodeBlock, DecodeBlock, Increasing;
    var e := PendingEntry(pending, |bytes|);
    var added := files[NameOf(e) := bytes];
    EncodedValid(pending);
    DecodeEncoded(pending);
    LastIsLargest(pending, 0);
    forall i | 0 <= i < |entries|
      ensures entries[i].last < e.first && ReadBlock(added, entries[i]) == ReadBlock(files, entries[i])
    {
      if i < |entries| - 1 { assert entries[i].last < entries[|entries| - 1].first; }
    }
    ReadUnnamed(files, added, entries);
    ReadConcat(added, entries, [e]);
    ReadOne(added, e);
  }

  lemma EncodedValid(records: seq<Record>)
    ensures EncodeBlock(records).Some? <==> ValidRecords(records)
    ensures ValidRecords(records) ==> records != [] && Increasing(records, 0)
  {
  }

  lemma {:induction false} AfterAbove(records: seq<Record>, previous: nat, sequence: nat)
    requires Increasing(records, previous)
    ensures After(records, sequence) != [] ==> After(records, sequence)[0].sequence > sequence
  {
    if records != [] {
      AfterAbove(records[1..], records[0].sequence, sequence);
    }
  }

  /** Each of the flush's seven disks holds the same records; the last is the live state of the new memory. */
  lemma FlushHolds(disk: Disk, mem: Memory, whole: seq<Record>, records: seq<Record>, k: nat)
    requires Live(disk, mem, whole, records) && k < |FlushDisks(disk, mem)|
    ensures Sound(FlushDisks(disk, mem)[k], records)
    ensures k == |FlushDisks(disk, mem)| - 1 ==>
              Live(FlushDisks(disk, mem)[k], FlushedMemory(mem), if |FlushDisks(disk, mem)| == 1 then whole else [], records)
  {
    var encoded := EncodeBlock(mem.pending);
    if mem.pending == [] || encoded.None? {
      assert Holds(disk, whole, [], records);
    } else {
      hide Labelled, ReadBlocks, Increasing, ActiveBody, EncodeBlock, ScanOne;
      AfterAbove(whole, 0, LastBlock(mem.blocks));
      FlushLabelled(disk.blocks, mem.blocks, mem.pending, encoded.value);
      var e := PendingEntry(mem.pending, |encoded.value|);
      AfterSuffix(whole, 0, LastBlock(mem.blocks));
      AfterNone(whole, 0, e.last);
      LastOfConcat(ReadBlocks(disk.blocks, mem.blocks).value, mem.pending);
      EmptyHolds(e.last);
      FlushStage(disk, mem, whole, records, k);
    }
  }

  lemma EmptyHolds(last: nat)
    ensures ActiveHolds([], [], []) && ActiveHolds(ACTIVE_MAGIC, [], []) && After([], last) == []
  {
    EmptyActive();
    assert ACTIVE_MAGIC + ActiveBody([]) + [] == ACTIVE_MAGIC;
  }

  lemma FlushStage(disk: Disk, mem: Memory, whole: seq<Record>, records: seq<Record>, k: nat)
    requires Live(disk, mem, whole, records) && k < |FlushDisks(disk, mem)|
    requires mem.pending != [] && EncodeBlock(mem.pending).Some?
    requires var bytes := EncodeBlock(mem.pending).value; var e := PendingEntry(mem.pending, |bytes|);
      var added := disk.blocks[NameOf(e) := bytes];
      && Labelled(added, mem.blocks) && Labelled(added, mem.blocks + [e])
      && ReadBlocks(added, mem.blocks) == ReadBlocks(disk.blocks, mem.blocks)
      && ReadBlocks(added, mem.blocks + [e]) == Some(records)
      && After(whole, e.last) == [] && LastOf(records) == e.last
      && ActiveHolds([], [], []) && ActiveHolds(ACTIVE_MAGIC, [], []) && After([], e.last) == []
    ensures Sound(FlushDisks(disk, mem)[k], records)
    ensures k == |FlushDisks(disk, mem)| - 1 ==> Live(FlushDisks(disk, mem)[k], FlushedMemory(mem), [], records)
  {
    hide Labelled, ReadBlocks, Increasing, ActiveHolds, EncodeBlock;
    var d := FlushDisks(disk, mem)[k];
    assert records + [] == records;
    if k <= 4 {
      assert Holds(d, whole, [], records);
    } else {
      assert Holds(d, [], [], records);
    }
  }

  // ----- the quota -----

  lemma {:induction false} RemovalHolds(disk: Disk, entries: seq<BlockEntry>, k: nat)
    requires Labelled(disk.blocks, entries) && ReadBlocks(disk.blocks, entries).Some?
    requires k < |Removals(disk, entries)|
    ensures ReadBlock(Removals(disk, entries)[k].blocks, entries[0]).None?
    decreases |entries|
  {
    hide ReadBlocks;
    if k > 0 {
      var d := disk.(blocks := disk.blocks - {NameOf(entries[0])});
      DropLabelled(disk.blocks, entries);
      RemovedStays(d, entries[1..], k - 1, NameOf(entries[0]));
    }
  }

  lemma {:induction false} RemovedStays(disk: Disk, entries: seq<BlockEntry>, k: nat, name: Name)
    requires name !in disk.blocks && k < |Removals(disk, entries)|
    ensures name !in Removals(disk, entries)[k].blocks
    decreases |entries|
  {
    if k > 0 {
      RemovedStays(disk.(blocks := disk.blocks - {NameOf(entries[0])}), entries[1..], k - 1, name);
    }
  }

  /** Without the oldest block's file, the rest of the manifest still reads as before. */
  lemma DropLabelled(files: map<Name, seq<byte>>, entries: seq<BlockEntry>)
    requires Labelled(files, entries) && entries != [] && ReadBlocks(files, entries).Some?
    ensures var fewer := files - {NameOf(entries[0])};
      && Labelled(fewer, entries[1..])
      && ReadBlocks(fewer, entries[1..]) == ReadBlocks(files, entries[1..])
      && ReadBlocks(files, entries[1..]).Some?
  {
    hide DecodeBlock;
    var fewer, rest := files - {NameOf(entries[0])}, entries[1..];
    assert ReadBlocks(files, rest).Some?;
    forall i | 0 <= i < |rest|
      ensures NameOf(rest[i]) != NameOf(entries[0]) && ReadBlock(fewer, rest[i]) == ReadBlock(files, rest[i])
    {
      assert rest[i] == entries[i + 1];
    }
    ReadUnnamed(files, fewer, rest);
  }

  function DroppedRecords(files: map<Name, seq<byte>>, entries: seq<BlockEntry>): nat
    decreases |entries|
  {
    if OverQuota(entries) && ReadBlock(files, entries[0]).Some?
    then |ReadBlock(files, entries[0]).value| + DroppedRecords(files - {NameOf(entries[0])}, entries[1..])
    else 0
  }

  lemma {:induction false} TrimReads(disk: Disk, entries: seq<BlockEntry>)
    requires Labelled(disk.blocks, entries) && ReadBlocks(disk.blocks, entries).Some?
    ensures var d := Last([disk] + Removals(disk, entries)); var n := DroppedRecords(disk.blocks, entries);
      var all := ReadBlocks(disk.blocks, entries).value;
      && d == disk.(blocks := d.blocks)
      && Labelled(d.blocks, Trimmed(entries)) && n <= |all|
      && ReadBlocks(d.blocks, Trimmed(entries)) == Some(all[n..])
    decreases |entries|
  {
    hide Labelled, Removals, Trimmed, DroppedRecords, OverQuota, ReadBlocks, ReadBlock;
    TrimStep(disk, entries);
    NoRemovals(disk, entries);
    if OverQuota(entries) {
      var next := disk.(blocks := disk.blocks - {NameOf(entries[0])});
      DropLabelled(disk.blocks, entries);
      TrimReads(next, entries[1..]);
      SkipFirst(ReadBlock(disk.blocks, entries[0]).value, ReadBlocks(disk.blocks, entries[1..]).value,
                DroppedRecords(next.blocks, entries[1..]));
    }
  }

  lemma TrimStep(disk: Disk, entries: seq<BlockEntry>)
    requires ReadBlocks(disk.blocks, entries).Some?
    ensures if OverQuota(entries)
      then
        var next := disk.(blocks := disk.blocks - {NameOf(entries[0])});
        && ReadBlock(disk.blocks, entries[0]).Some?
        && Last([disk] + Removals(disk, entries)) == Last([next] + Removals(next, entries[1..]))
        && Trimmed(entries) == Trimmed(entries[1..])
        && DroppedRecords(disk.blocks, entries)
           == |ReadBlock(disk.blocks, entries[0]).value| + DroppedRecords(next.blocks, entries[1..])
        && ReadBlocks(disk.blocks, entries).value
           == ReadBlock(disk.blocks, entries[0]).value + ReadBlocks(disk.blocks, entries[1..]).value
      else
        && Last([disk] + Removals(disk, entries)) == disk && Trimmed(entries) == entries
        && DroppedRecords(disk.blocks, entries) == 0
        && ReadBlocks(disk.blocks, entries).value[0..] == ReadBlocks(disk.blocks, entries).value
  {
    hide ReadBlock;
  }

  lemma SkipFirst(a: seq<Record>, b: seq<Record>, n: nat)
    requires n <= |b|
    ensures (a + b)[|a| + n..] == b[n..]
  {
  }

  lemma SkipConcat(a: seq<Record>, b: seq<Record>, n: nat)
    requires n <= |a|
    ensures (a + b)[n..] == a[n..] + b
  {
  }

  lemma {:induction false} IncreasingSuffix(records: seq<Record>, n: nat, previous: nat)
    requires Increasing(records, previous) && n <= |records|
    ensures Increasing(records[n..], previous)
  {
    if n > 0 {
      IncreasingSuffix(records[1..], n - 1, records[0].sequence);
      assert records[1..][n - 1..] == records[n..];
      IncreasingLower(records[n..], records[0].sequence, previous);
    } else {
      assert records[0..] == records;
    }
  }

  lemma IncreasingLower(records: seq<Record>, high: nat, low: nat)
    requires Increasing(records, high) && low <= high
    ensures Increasing(records, low)
  {
  }

  lemma LastLabelled(files: map<Name, seq<byte>>, entries: seq<BlockEntry>)
    requires Labelled(files, entries) && ReadBlocks(files, entries).Some?
    ensures LastBlock(entries) == LastOf(ReadBlocks(files, entries).value)
  {
    if entries != [] {
      hide DecodeBlock;
      var init, last := entries[..|entries| - 1], entries[|entries| - 1];
      assert entries == init + [last];
      ReadConcat(files, init, [last]);
      ReadOne(files, last);
      LastOfConcat(ReadBlocks(files, init).value, ReadBlock(files, last).value);
    }
  }

  predicate Drops(mem: Memory) {
    OverQuota(mem.blocks)
  }

  function TrimmedMemory(mem: Memory): Memory {
    Memory(Trimmed(mem.blocks), mem.pending)
  }

  /** After the quota, the history is a suffix of what it was; while nothing is dropped, it is what it was. */
  lemma QuotaHolds(disk: Disk, mem: Memory, whole: seq<Record>, records: seq<Record>)
    requires Live(disk, mem, whole, records)
    ensures var n := DroppedRecords(disk.blocks, mem.blocks);
      && n <= |records|
      && Live(Last(QuotaDisks(disk, mem)), TrimmedMemory(mem), whole, records[n..])
  {
    hide Labelled, ReadBlocks, Increasing, ActiveHolds, Removals, Trimmed, DroppedRecords, After, QuotaDisks;
    TrimReads(disk, mem.blocks);
    QuotaEnds(disk, mem);
    SameLast(mem.blocks);
    var d := Last([disk] + Removals(disk, mem.blocks));
    var n := DroppedRecords(disk.blocks, mem.blocks);
    var all := ReadBlocks(disk.blocks, mem.blocks).value;
    SkipConcat(all, mem.pending, n);
    IncreasingSuffix(records, n, 0);
    LastLabelled(d.blocks, Trimmed(mem.blocks));
  }

  lemma QuotaEnds(disk: Disk, mem: Memory)
    ensures Last(QuotaDisks(disk, mem)) ==
            Last([disk] + Removals(disk, mem.blocks)).(manifest := Some(Trimmed(mem.blocks)), manifestTmp := None)
  {
  }

  lemma SameLast(entries: seq<BlockEntry>)
    ensures LastBlock(Trimmed(entries)) == LastBlock(entries)
  {
  }

  /** Between the first removed file and the renamed manifest, the archive cannot be read. */
  lemma QuotaWindow(disk: Disk, mem: Memory, whole: seq<Record>, records: seq<Record>, k: nat)
    requires Live(disk, mem, whole, records) && k < |QuotaDisks(disk, mem)| - 1
    ensures if k > 0 && Drops(mem) then Readback(QuotaDisks(disk, mem)[k]) == None
            else Sound(QuotaDisks(disk, mem)[k], records)
  {
    hide Labelled, Increasing, ActiveHolds, OverQuota, ReadBlock, Readback;
    var removed := Removals(disk, mem.blocks);
    var d := QuotaDisks(disk, mem)[k];
    NoRemovals(disk, mem.blocks);
    if k > 0 && Drops(mem) {
      var j := if k <= |removed| then k - 1 else |removed| - 1;
      RemovalHolds(disk, mem.blocks, j);
      RemovalsKeepRest(disk, mem.blocks, j);
      assert d == removed[j] || d == removed[j].(manifestTmp := Some(Trimmed(mem.blocks)));
      MissingBlock(d, mem.blocks);
    } else {
      assert Holds(d, whole, [], records);
    }
  }

  lemma MissingBlock(disk: Disk, entries: seq<BlockEntry>)
    requires disk.manifest == Some(entries) && entries != [] && ReadBlock(disk.blocks, entries[0]).None?
    ensures Readback(disk) == None
  {
  }

  lemma NoRemovals(disk: Disk, entries: seq<BlockEntry>)
    ensures Removals(disk, entries) == [] <==> !OverQuota(entries)
    ensures OverQuota(entries) ==> entries != []
  {
  }

  lemma {:induction false} RemovalsKeepRest(disk: Disk, entries: seq<BlockEntry>, k: nat)
    requires k < |Removals(disk, entries)|
    ensures Removals(disk, entries)[k].manifest == disk.manifest
    decreases |entries|
  {
    if k > 0 {
      RemovalsKeepRest(disk.(blocks := disk.blocks - {NameOf(entries[0])}), entries[1..], k - 1);
    }
  }

  // ----- opening -----

  /** Each disk an opening passes through holds the same records; the last is live, and opening it again does nothing. */
  lemma OpenHolds(disk: Disk, records: seq<Record>)
    requires Sound(disk, records)
    ensures OpenMemory(disk).Some?
    ensures forall k :: 0 <= k < |OpenDisks(disk)| ==> Sound(OpenDisks(disk)[k], records)
    ensures exists whole :: Live(Last(OpenDisks(disk)), OpenMemory(disk).value, whole, records)
    ensures OpenDisks(Last(OpenDisks(disk))) == [Last(OpenDisks(disk))]
    ensures OpenMemory(Last(OpenDisks(disk))) == OpenMemory(disk)
  {
    var whole, tail :| Holds(disk, whole, tail, records);
    hide Labelled, Increasing, ActiveBody, Scan, ScanOne, ReadBlocks, ActiveHolds, After, OpenDisks;
    ActiveReads(disk.active, whole, tail);
    OpenShape(disk, whole, tail);
    var last := disk.(manifest := Some(Entries(disk)), manifestTmp := if disk.manifest.Some? then disk.manifestTmp else None,
                      active := ACTIVE_MAGIC + ActiveBody(whole));
    assert Live(last, OpenMemory(disk).value, whole, records);
    assert Last(OpenDisks(disk)) == last;
    assert Live(Last(OpenDisks(disk)), OpenMemory(disk).value, whole, records);
    ActiveReads(last.active, whole, []);
    OpenShape(last, whole, []);
    forall k | 0 <= k < |OpenDisks(disk)|
      ensures Sound(OpenDisks(disk)[k], records)
    {
      var d := OpenDisks(disk)[k];
      assert Holds(d, whole, tail, records) || Holds(d, whole, [], records);
    }
  }

  /** An opening changes the manifest only by creating it, and the active file only to end after its whole records. */
  lemma OpenShape(disk: Disk, whole: seq<Record>, tail: seq<byte>)
    requires ActiveHolds(disk.active, whole, tail)
    ensures ActiveHolds(ACTIVE_MAGIC + ActiveBody(whole), whole, [])
    ensures var disks := OpenDisks(disk); var last := disks[|disks| - 1];
      && last == disk.(manifest := Some(Entries(disk)), manifestTmp := if disk.manifest.Some? then disk.manifestTmp else None,
                       active := ACTIVE_MAGIC + ActiveBody(whole))
      && (disk == last ==> disks == [disk])
      && (forall k :: 0 <= k < |disks| ==>
            Entries(disks[k]) == Entries(disk) && disks[k].blocks == disk.blocks
            && (disks[k].active == disk.active || disks[k].active == ACTIVE_MAGIC + ActiveBody(whole)))
  {
    hide Increasing, ActiveBody, Scan, ScanOne, OpenDisks;
    ActiveReads(disk.active, whole, tail);
    ActiveTruncated(whole, tail);
    hide ActiveHolds;
    OpenCases(disk, ACTIVE_MAGIC + ActiveBody(whole));
  }

  lemma OpenCases(disk: Disk, active: seq<byte>)
    requires disk.active == [] ==> active == ACTIVE_MAGIC
    requires disk.active != [] ==>
               |disk.active| >= 8 && disk.active[..8] == ACTIVE_MAGIC && disk.active[..8 + Scan(disk.active[8..], 0).1] == active
    ensures var disks := OpenDisks(disk); var last := disks[|disks| - 1];
      && last == disk.(manifest := Some(Entries(disk)), manifestTmp := if disk.manifest.Some? then disk.manifestTmp else None,
                       active := active)
      && (disk == last ==> disks == [disk])
      && (forall k :: 0 <= k < |disks| ==>
            Entries(disks[k]) == Entries(disk) && disks[k].blocks == disk.blocks
            && (disks[k].active == disk.active || disks[k].active == active))
  {
    hide Scan;
    if disk.active != [] {
      assert disk.active[..|disk.active|] == disk.active;
    }
  }

  lemma ActiveTruncated(whole: seq<Record>, tail: seq<byte>)
    requires Increasing(whole, 0)
    ensures ActiveHolds(ACTIVE_MAGIC + ActiveBody(whole), whole, [])
    ensures (ACTIVE_MAGIC + ActiveBody(whole) + tail)[..8 + |ActiveBody(whole)|] == ACTIVE_MAGIC + ActiveBody(whole)
    ensures ActiveHolds(ACTIVE_MAGIC, [], []) && ActiveBody([]) == []
    ensures Scan((ACTIVE_MAGIC + ActiveBody(whole))[8..], 0) == (whole, |ActiveBody(whole)|)
    ensures (ACTIVE_MAGIC + ActiveBody(whole))[..8] == ACTIVE_MAGIC
  {
    hide Increasing, ActiveBody, Scan, ScanOne;
    EmptyActive();
    EmptyIncreasing();
    assert ACTIVE_MAGIC + ActiveBody(whole) + [] == ACTIVE_MAGIC + ActiveBody(whole);
    assert ACTIVE_MAGIC + ActiveBody([]) + [] == ACTIVE_MAGIC;
    assert (ACTIVE_MAGIC + ActiveBody(whole))[8..] == ActiveBody(whole) + [];
    ScanBody(whole, [], 0);
  }

  lemma EmptyIncreasing()
    ensures Increasing([], 0)
  {
  }

  // ----- runs -----

  datatype Op = Append(record: Record) | Flush

  /** Every disk an operation passes through: a crash leaves one of them. */
  function Disks(disk: Disk, mem: Memory, op: Op): (disks: seq<Disk>)
    ensures |disks| >= 1 && disks[0] == disk
  {
    match op
    case Append(record) =>
      if MayAppend(mem, record) then Appending(disk, record) else [disk]
    case Flush =>
      if FlushSucceeds(mem) then
        FlushDisks(disk, mem) + QuotaDisks(Last(FlushDisks(disk, mem)), FlushedMemory(mem))[1..]
      else [disk]
  }

  function Finished(disk: Disk, mem: Memory, op: Op): Memory {
    match op
    case Append(record) => if MayAppend(mem, record) then Memory(mem.blocks, mem.pending + [record]) else mem
    case Flush => if FlushSucceeds(mem) then TrimmedMemory(FlushedMemory(mem)) else mem
  }

  /** `appended` is every record whose append completed; the quota has dropped the first `dropped` of them. */
  datatype Archive =
    | Up(disk: Disk, mem: Memory, appended: seq<Record>, dropped: nat)
    | Down(disk: Disk, appended: seq<Record>, dropped: nat)

  datatype Event =
    | Do(op: Op)
    | CrashDuring(op: Op, k: nat)
    | CrashWhileOpening(k: nat)
    | Reopen

  function Reached<T>(s: seq<T>, k: nat): nat
    requires s != []
  {
    if k < |s| then k else |s| - 1
  }

  /** An operation that got as far as its disk `k`: what has then been appended, and dropped. */
  function AppendedBy(a: Archive, op: Op, k: nat): seq<Record>
    requires a.Up?
  {
    if op.Append? && MayAppend(a.mem, op.record) && k == |EncodeActive(op.record)| then a.appended + [op.record] else a.appended
  }

  function DroppedBy(a: Archive, op: Op, k: nat): nat
    requires a.Up?
  {
    if op.Flush? && FlushSucceeds(a.mem) && k == |Disks(a.disk, a.mem, op)| - 1
    then a.dropped + DroppedRecords(Last(FlushDisks(a.disk, a.mem)).blocks, FlushedMemory(a.mem).blocks)
    else a.dropped
  }

  function Step(a: Archive, e: Event): Archive {
    match e
    case Do(op) =>
      if a.Down? then a
      else
        var disks := Disks(a.disk, a.mem, op);
        Up(Last(disks), Finished(a.disk, a.mem, op), AppendedBy(a, op, |disks| - 1), DroppedBy(a, op, |disks| - 1))
    case CrashDuring(op, k) =>
      if a.Down? then a
      else
        var disks := Disks(a.disk, a.mem, op);
        var reached := Reached(disks, k);
        Down(disks[reached], AppendedBy(a, op, reached), DroppedBy(a, op, reached))
    case CrashWhileOpening(k) =>
      if a.Up? then a
      else Down(OpenDisks(a.disk)[Reached(OpenDisks(a.disk), k)], a.appended, a.dropped)
    case Reopen =>
      if a.Up? || OpenMemory(a.disk).None? then a
      else Up(Last(OpenDisks(a.disk)), OpenMemory(a.disk).value, a.appended, a.dropped)
  }

  function Run(events: seq<Event>): Archive {
    if events == [] then Down(EMPTY_DISK, [], 0) else Step(Run(events[..|events| - 1]), events[|events| - 1])
  }

  /** A crash after a block file was removed for the quota and before the manifest without it was renamed. */
  predicate InQuotaWindow(a: Archive, op: Op, k: nat) {
    && a.Up? && op.Flush? && FlushSucceeds(a.mem) && Drops(FlushedMemory(a.mem))
    && |FlushDisks(a.disk, a.mem)| <= Reached(Disks(a.disk, a.mem, op), k) < |Disks(a.disk, a.mem, op)| - 1
  }

  predicate NoWindow(events: seq<Event>) {
    events == [] ||
    (NoWindow(events[..|events| - 1]) &&
     var e := events[|events| - 1];
     (e.CrashDuring? ==> !InQuotaWindow(Run(events[..|events| - 1]), e.op, e.k)))
  }

  function History(a: Archive): seq<Record>
    requires a.dropped <= |a.appended|
  {
    a.appended[a.dropped..]
  }

  ghost predicate Inv(a: Archive) {
    && a.dropped <= |a.appended|
    && match a
       case Up(disk, mem, _, _) => exists whole :: Live(disk, mem, whole, History(a))
       case Down(disk, _, _) => Sound(disk, History(a))
  }

  /** Wherever an operation stops, outside the quota's window, the disk holds the history so far. */
  ghost predicate StopsWell(a: Archive, op: Op, k: nat)
    requires a.Up? && k < |Disks(a.disk, a.mem, op)|
  {
    var d, n := Disks(a.disk, a.mem, op)[k], |Disks(a.disk, a.mem, op)| - 1;
    && DroppedBy(a, op, k) <= |AppendedBy(a, op, k)|
    && (if InQuotaWindow(a, op, k) then Readback(d) == None
        else Sound(d, AppendedBy(a, op, k)[DroppedBy(a, op, k)..]))
    && (k == n ==> EndsLive(a, op, AppendedBy(a, op, n)[DroppedBy(a, op, n)..]))
  }

  /** The operation, run to its end, leaves the archive live with these records. */
  ghost predicate EndsLive(a: Archive, op: Op, records: seq<Record>)
    requires a.Up?
  {
    exists whole :: Live(Last(Disks(a.disk, a.mem, op)), Finished(a.disk, a.mem, op), whole, records)
  }

  lemma OpHolds(a: Archive, op: Op, k: nat)
    requires a.Up? && Inv(a) && k < |Disks(a.disk, a.mem, op)|
    ensures StopsWell(a, op, k)
  {
    hide *;
    InvLive(a);
    var whole :| Live(a.disk, a.mem, whole, History(a));
    if op.Append? && MayAppend(a.mem, op.record) {
      AppendStops(a, op.record, whole, k);
    } else if op.Flush? && FlushSucceeds(a.mem) {
      FlushStops(a, whole, k);
    } else {
      IdleStops(a, op, whole, k);
    }
  }

  lemma InvLive(a: Archive)
    requires a.Up? && Inv(a)
    ensures a.dropped <= |a.appended|
    ensures exists whole :: Live(a.disk, a.mem, whole, History(a))
  {
  }

  lemma AppendStops(a: Archive, record: Record, whole: seq<Record>, k: nat)
    requires a.Up? && a.dropped <= |a.appended| && Live(a.disk, a.mem, whole, History(a)) && MayAppend(a.mem, record)
    requires k < |Disks(a.disk, a.mem, Append(record))|
    ensures StopsWell(a, Append(record), k)
  {
    hide Live, Sound, Readback, MayAppend, Finished, InQuotaWindow, EncodeActive;
    assert |Disks(a.disk, a.mem, Append(record))| == |EncodeActive(record)| + 1;
    hide Disks, AppendedBy, DroppedBy;
    AppendOp(a, record, whole, k);
    StopsFrom(a, Append(record), k, whole + [record]);
  }

  lemma FlushStops(a: Archive, whole: seq<Record>, k: nat)
    requires a.Up? && a.dropped <= |a.appended| && Live(a.disk, a.mem, whole, History(a)) && FlushSucceeds(a.mem)
    requires k < |Disks(a.disk, a.mem, Flush)|
    ensures StopsWell(a, Flush, k)
  {
    hide Live, Sound, Readback, Disks, DroppedBy, InQuotaWindow, Finished, FlushSucceeds;
    var left := FlushOp(a, whole, k);
    assert AppendedBy(a, Flush, k) == a.appended;
    StopsFrom(a, Flush, k, left);
  }

  /** `left` witnesses that the operation, if it ran to its end, left the archive live. */
  lemma StopsFrom(a: Archive, op: Op, k: nat, left: seq<Record>)
    requires a.Up? && k < |Disks(a.disk, a.mem, op)| && DroppedBy(a, op, k) <= |AppendedBy(a, op, k)|
    requires var d, records := Disks(a.disk, a.mem, op)[k], AppendedBy(a, op, k)[DroppedBy(a, op, k)..];
      && (if InQuotaWindow(a, op, k) then Readback(d) == None else Sound(d, records))
      && (k == |Disks(a.disk, a.mem, op)| - 1 ==> Live(d, Finished(a.disk, a.mem, op), left, records))
    ensures StopsWell(a, op, k)
  {
    hide Live, Sound, Readback, Disks, DroppedBy, AppendedBy, InQuotaWindow, Finished, EndsLive;
    if k == |Disks(a.disk, a.mem, op)| - 1 {
      EndsFrom(a, op, left, AppendedBy(a, op, k)[DroppedBy(a, op, k)..]);
    }
  }

  lemma EndsFrom(a: Archive, op: Op, left: seq<Record>, records: seq<Record>)
    requires a.Up?
    requires var disks := Disks(a.disk, a.mem, op); Live(disks[|disks| - 1], Finished(a.disk, a.mem, op), left, records)
    ensures EndsLive(a, op, records)
  {
    hide Live, Disks, Finished;
    assert Live(Last(Disks(a.disk, a.mem, op)), Finished(a.disk, a.mem, op), left, records);
  }

  /** A refused append or a failed flush touches nothing. */
  lemma IdleStops(a: Archive, op: Op, whole: seq<Record>, k: nat)
    requires a.Up? && a.dropped <= |a.appended| && Live(a.disk, a.mem, whole, History(a))
    requires !(op.Append? && MayAppend(a.mem, op.record)) && !(op.Flush? && FlushSucceeds(a.mem))
    requires k < |Disks(a.disk, a.mem, op)|
    ensures StopsWell(a, op, k)
  {
    hide Live, Sound, Readback, MayAppend, FlushSucceeds;
    assert Disks(a.disk, a.mem, op) == [a.disk] && Finished(a.disk, a.mem, op) == a.mem;
    assert AppendedBy(a, op, 0)[DroppedBy(a, op, 0)..] == History(a) && !InQuotaWindow(a, op, 0);
    hide Disks, Finished, AppendedBy, DroppedBy, InQuotaWindow;
    LiveSound(a.disk, a.mem, whole, History(a));
    assert k == 0 && |Disks(a.disk, a.mem, op)| - 1 == 0;
    StopsFrom(a, op, k, whole);
  }

  lemma AppendOp(a: Archive, record: Record, whole: seq<Record>, k: nat)
    requires a.Up? && a.dropped <= |a.appended| && Live(a.disk, a.mem, whole, History(a)) && MayAppend(a.mem, record)
    requires k <= |EncodeActive(record)|
    ensures var op := Append(record); var d := Disks(a.disk, a.mem, op)[k];
      && |Disks(a.disk, a.mem, op)| == |EncodeActive(record)| + 1
      && Sound(d, AppendedBy(a, op, k)[a.dropped..])
      && DroppedBy(a, op, k) == a.dropped && !InQuotaWindow(a, op, k)
      && (k == |EncodeActive(record)| ==>
            Live(d, Finished(a.disk, a.mem, op), whole + [record], AppendedBy(a, op, k)[a.dropped..]))
  {
    hide EncodeActive, Holds, MayAppend;
    AppendHolds(a.disk, a.mem, whole, History(a), record, k);
    if k == |EncodeActive(record)| {
      assert (a.appended + [record])[a.dropped..] == History(a) + [record];
      assert Holds(Appended(a.disk, record, k), whole + [record], [], History(a) + [record]);
    } else {
      assert Holds(Appended(a.disk, record, k), whole, EncodeActive(record)[..k], History(a));
    }
  }

  lemma FlushOp(a: Archive, whole: seq<Record>, k: nat) returns (left: seq<Record>)
    requires a.Up? && a.dropped <= |a.appended| && Live(a.disk, a.mem, whole, History(a)) && FlushSucceeds(a.mem)
    requires k < |Disks(a.disk, a.mem, Flush)|
    ensures var d := Disks(a.disk, a.mem, Flush)[k]; var dropped := DroppedBy(a, Flush, k);
      && dropped <= |a.appended|
      && (if InQuotaWindow(a, Flush, k) then Readback(d) == None else Sound(d, a.appended[dropped..]))
      && (k == |Disks(a.disk, a.mem, Flush)| - 1 ==>
            Live(d, Finished(a.disk, a.mem, Flush), left, a.appended[dropped..]))
  {
    hide Live, Readback, OverQuota, DroppedRecords, TrimmedMemory, FlushedMemory, FlushSucceeds, Sound,
         FlushDisks, QuotaDisks, Disks, DroppedBy, InQuotaWindow, Finished;
    var flushing := FlushDisks(a.disk, a.mem);
    var n := |flushing|;
    FlushHolds(a.disk, a.mem, whole, History(a), n - 1);
    var flushed, mem := Last(flushing), FlushedMemory(a.mem);
    left := if n == 1 then whole else [];
    assert Live(flushed, mem, left, History(a));
    FlushStages(a, k);
    if k < n {
      FlushHolds(a.disk, a.mem, whole, History(a), k);
    } else if k < |Disks(a.disk, a.mem, Flush)| - 1 {
      QuotaWindow(flushed, mem, left, History(a), k - n + 1);
    } else {
      LiveManifest(flushed, mem, left, History(a));
      FinishFlush(a, flushed, mem, left, k);
    }
  }

  lemma LiveManifest(disk: Disk, mem: Memory, whole: seq<Record>, records: seq<Record>)
    requires Live(disk, mem, whole, records)
    ensures disk.manifest == Some(mem.blocks)
  {
  }

  lemma FinishFlush(a: Archive, flushed: Disk, mem: Memory, left: seq<Record>, k: nat)
    requires a.Up? && a.dropped <= |a.appended| && FlushSucceeds(a.mem)
    requires flushed == Last(FlushDisks(a.disk, a.mem)) && mem == FlushedMemory(a.mem)
    requires Live(flushed, mem, left, History(a))
    requires k == |Disks(a.disk, a.mem, Flush)| - 1
    ensures var d := Disks(a.disk, a.mem, Flush)[k]; var dropped := DroppedBy(a, Flush, k);
      && dropped <= |a.appended| && Sound(d, a.appended[dropped..])
      && Live(d, Finished(a.disk, a.mem, Flush), left, a.appended[dropped..])
  {
    hide Live, OverQuota, DroppedRecords, TrimmedMemory, FlushedMemory, FlushSucceeds, Sound,
         FlushDisks, QuotaDisks, Disks, DroppedBy, InQuotaWindow, Finished;
    QuotaHolds(flushed, mem, left, History(a));
    var n := DroppedRecords(flushed.blocks, mem.blocks);
    LiveSound(Last(QuotaDisks(flushed, mem)), TrimmedMemory(mem), left, History(a)[n..]);
    FlushStages(a, k);
    assert History(a)[n..] == a.appended[a.dropped + n..];
  }

  /** A flush followed by the quota, disk by disk. */
  lemma FlushStages(a: Archive, k: nat)
    requires a.Up? && FlushSucceeds(a.mem) && k < |Disks(a.disk, a.mem, Flush)|
    ensures var flushing := FlushDisks(a.disk, a.mem); var n := |flushing|;
      var flushed, mem := Last(flushing), FlushedMemory(a.mem);
      var quota := QuotaDisks(flushed, mem);
      && |Disks(a.disk, a.mem, Flush)| == n + |quota| - 1
      && Disks(a.disk, a.mem, Flush)[k] == (if k < n then flushing[k] else quota[k - n + 1])
      && (InQuotaWindow(a, Flush, k) <==> Drops(mem) && n <= k < n + |quota| - 2)
      && DroppedBy(a, Flush, k) == (if k == n + |quota| - 2 then a.dropped + DroppedRecords(flushed.blocks, mem.blocks) else a.dropped)
      && Finished(a.disk, a.mem, Flush) == TrimmedMemory(mem)
  {
    hide FlushDisks, QuotaDisks, FlushedMemory, FlushSucceeds, Drops, DroppedRecords, TrimmedMemory;
  }

  lemma LiveSound(disk: Disk, mem: Memory, whole: seq<Record>, records: seq<Record>)
    requires Live(disk, mem, whole, records)
    ensures Sound(disk, records)
  {
  }

  lemma StepKeeps(a: Archive, e: Event)
    requires Inv(a) && (e.CrashDuring? ==> !InQuotaWindow(a, e.op, e.k))
    ensures Inv(Step(a, e))
  {
    hide Live, Sound, InQuotaWindow, Disks, OpenDisks, AppendedBy, DroppedBy, Finished;
    match e
    case Do(op) =>
      if a.Up? {
        var n := |Disks(a.disk, a.mem, op)| - 1;
        OpHolds(a, op, n);
        var next := Step(a, e);
        var whole :| Live(Last(Disks(a.disk, a.mem, op)), Finished(a.disk, a.mem, op), whole,
                          AppendedBy(a, op, n)[DroppedBy(a, op, n)..]);
        assert Live(next.disk, next.mem, whole, History(next));
      }
    case CrashDuring(op, k) =>
      if a.Up? {
        SameWindow(a, op, k);
        OpHolds(a, op, Reached(Disks(a.disk, a.mem, op), k));
      }
    case CrashWhileOpening(k) => if a.Down? { OpenHolds(a.disk, History(a)); }
    case Reopen =>
      if a.Down? {
        OpenHolds(a.disk, History(a));
        var whole :| Live(Last(OpenDisks(a.disk)), OpenMemory(a.disk).value, whole, History(a));
        var next := Step(a, e);
        assert Live(next.disk, next.mem, whole, History(next));
      }
  }

  lemma SameWindow(a: Archive, op: Op, k: nat)
    requires a.Up?
    ensures InQuotaWindow(a, op, Reached(Disks(a.disk, a.mem, op), k)) <==> InQuotaWindow(a, op, k)
  {
  }

  lemma StartKeeps()
    ensures Inv(Down(EMPTY_DISK, [], 0))
  {
    hide After, Scan, ScanOne;
    EmptyHolds(0);
    EmptyScans();
    assert Holds(EMPTY_DISK, [], [], History(Down(EMPTY_DISK, [], 0)));
  }

  lemma EmptyScans()
    ensures ScanOne([], 0).None? && LastOf([]) == 0
  {
  }

  lemma {:induction false} RunKeeps(events: seq<Event>)
    requires NoWindow(events)
    ensures Inv(Run(events))
  {
    hide Inv, Step, InQuotaWindow;
    if events == [] {
      StartKeeps();
    } else {
      RunKeeps(events[..|events| - 1]);
      StepKeeps(Run(events[..|events| - 1]), events[|events| - 1]);
    }
  }

  /**
    After any run of appends, flushes, crashes and openings, the disk reads back
    every record whose append completed, each once and in order, less the prefix
    the quota dropped; and opening it changes neither the answer nor, twice over, the disk.
  */
  lemma CrashSafe(events: seq<Event>)
    requires NoWindow(events)
    ensures var a := Run(events);
      && a.dropped <= |a.appended|
      && Readback(a.disk) == Some(a.appended[a.dropped..])
      && Readback(Last(OpenDisks(a.disk))) == Readback(a.disk)
      && OpenDisks(Last(OpenDisks(a.disk))) == [Last(OpenDisks(a.disk))]
  {
    hide Live, Sound, Readback, OpenDisks, Run;
    RunKeeps(events);
    var a := Run(events);
    if a.Up? {
      var whole :| Live(a.disk, a.mem, whole, History(a));
      LiveSound(a.disk, a.mem, whole, History(a));
    }
    SoundReads(a.disk, History(a));
    OpenHolds(a.disk, History(a));
    assert Sound(OpenDisks(a.disk)[|OpenDisks(a.disk)| - 1], History(a));
    SoundReads(Last(OpenDisks(a.disk)), History(a));
  }

  /** A crash leaves the archive readable exactly when it does not fall in the quota's window. */
  lemma CrashReadableExactly(events: seq<Event>, op: Op, k: nat)
    requires NoWindow(events) && Run(events).Up?
    ensures Readback(Step(Run(events), CrashDuring(op, k)).disk).Some? <==> !InQuotaWindow(Run(events), op, k)
  {
    hide Live, Sound, Readback, Disks, Run, InQuotaWindow, AppendedBy, DroppedBy;
    RunKeeps(events);
    var a := Run(events);
    var reached := Reached(Disks(a.disk, a.mem, op), k);
    SameWindow(a, op, k);
    OpHolds(a, op, reached);
    if !InQuotaWindow(a, op, k) {
      SoundReads(Disks(a.disk, a.mem, op)[reached], AppendedBy(a, op, reached)[DroppedBy(a, op, reached)..]);
    }
  }
}
