/** The owner's open archive as the program changes it: one file operation at a time, each leaving a disk behind. */
module ArchiveFiles {
  import opened Wrappers
  import opened Bytes
  import opened HistoryCodec
  import opened ActiveSegment
  import opened ArchiveDisk
  import opened ArchiveCrash

  /** The disks left by each byte of one write. */
  function Writing(disk: Disk, bytes: seq<byte>): seq<Disk> {
    seq(|bytes|, i requires 0 <= i < |bytes| => disk.(active := disk.active + bytes[..i + 1]))
  }

  lemma WritingTwice(disk: Disk, a: seq<byte>, b: seq<byte>)
    ensures Writing(disk, a) + Writing(disk.(active := disk.active + a), b) == Writing(disk, a + b)
    ensures disk.active + a + b == disk.active + (a + b)
  {
    var next := disk.(active := disk.active + a);
    forall i | 0 <= i < |b|
      ensures Writing(next, b)[i] == Writing(disk, a + b)[|a| + i]
    {
      assert (a + b)[..|a| + i + 1] == a + b[..i + 1];
      assert disk.active + a + b[..i + 1] == disk.active + (a + b[..i + 1]);
    }
    forall i | 0 <= i < |a|
      ensures Writing(disk, a)[i] == Writing(disk, a + b)[i]
    {
      assert (a + b)[..i + 1] == a[..i + 1];
    }
  }

  lemma WritingRecord(disk: Disk, record: Record)
    ensures [disk] + Writing(disk, EncodeActive(record)) == Appending(disk, record)
    ensures disk.active + EncodeActive(record) == Appended(disk, record, |EncodeActive(record)|).active
  {
    hide EncodeActive;
    var bytes := EncodeActive(record);
    assert disk.active + bytes[..0] == disk.active && bytes[..|bytes|] == bytes;
  }

  lemma FourWrites(disk: Disk, a: seq<byte>, b: seq<byte>, c: seq<byte>, d: seq<byte>)
    ensures var d1 := disk.(active := disk.active + a); var d2 := d1.(active := d1.active + b);
      var d3 := d2.(active := d2.active + c);
      && Writing(disk, a) + Writing(d1, b) + Writing(d2, c) + Writing(d3, d) == Writing(disk, a + b + c + d)
      && d3.active + d == disk.active + (a + b + c + d)
  {
    hide Writing;
    WritingTwice(disk, a, b);
    WritingTwice(disk, a + b, c);
    WritingTwice(disk, a + b + c, d);
  }

  class ArchiveFiles {
    var manifestFile: Option<seq<BlockEntry>>
    var manifestTmp: Option<seq<BlockEntry>>
    var blockFiles: map<Name, seq<byte>>
    var blockTmp: Option<seq<byte>>
    var active: seq<byte>
    var blocks: seq<BlockEntry>
    var pending: seq<Record>
    var pendingBytes: nat
    /** Every disk there has been, the present one last. */
    ghost var trace: seq<Disk>

    function OnDisk(): Disk
      reads this
    {
      Disk(manifestFile, manifestTmp, blockFiles, blockTmp, active)
    }

    function InMemory(): Memory
      reads this
    {
      Memory(blocks, pending)
    }

    ghost predicate Valid()
      reads this
    {
      pendingBytes == DataBytes(pending) && trace != [] && Last(trace) == OnDisk()
    }

    constructor (disk: Disk)
      ensures OnDisk() == disk && InMemory() == Memory([], []) && Valid() && trace == [disk]
    {
      manifestFile, manifestTmp, blockFiles, blockTmp, active :=
        disk.manifest, disk.manifestTmp, disk.blocks, disk.blockTmp, disk.active;
      blocks, pending, pendingBytes := [], [], 0;
      trace := [disk];
    }

    ghost method Mark()
      modifies `trace
      ensures trace == old(trace) + [OnDisk()]
    {
      trace := trace + [OnDisk()];
    }

    /** One `write_all` to the active file: a crash inside it leaves any prefix. */
    method Write(bytes: seq<byte>)
      requires trace != [] && Last(trace) == OnDisk()
      modifies `active, `trace
      ensures OnDisk() == old(OnDisk()).(active := old(active) + bytes)
      ensures trace == old(trace) + Writing(old(OnDisk()), bytes)
      ensures Last(trace) == OnDisk()
    {
      trace := trace + Writing(OnDisk(), bytes);
      active := active + bytes;
      assert bytes == [] ==> old(active) + bytes == old(active);
      assert bytes[..|bytes|] == bytes;
    }

    /** The four writes of one record pass through exactly the disks of the specification's append. */
    method AppendActiveRecord(record: Record)
      requires Valid() && |record.data| < U32
      modifies `active, `trace
      ensures trace == old(trace) + Appending(old(OnDisk()), record)[1..]
      ensures OnDisk() == Appended(old(OnDisk()), record, |EncodeActive(record)|)
      ensures Last(trace) == OnDisk()
    {
      hide ToBe, Checksum, Writing, Appending;
      ghost var disk := OnDisk();
      var sum := Checksum(record.sequence, record.data);
      WritingRecord(disk, record);
      FourWrites(disk, ToBe(record.sequence, 8), ToBe(|record.data|, 4), ToBe(sum, 4), record.data);
      Write(ToBe(record.sequence, 8));
      Write(ToBe(|record.data|, 4));
      Write(ToBe(sum, 4));
      Write(record.data);
      assert ([disk] + Writing(disk, EncodeActive(record)))[1..] == Writing(disk, EncodeActive(record));
    }

    /** The disk passes through exactly the flush's disks; a block that cannot be encoded changes nothing. */
    method FlushState() returns (ok: bool)
      requires Valid()
      modifies this
      ensures Valid() && ok == FlushSucceeds(old(InMemory()))
      ensures trace == old(trace) + FlushDisks(old(OnDisk()), old(InMemory()))[1..]
      ensures InMemory() == FlushedMemory(old(InMemory()))
    {
      hide EncodeBlock, FlushDisks, DataBytes;
      if pending == [] {
        NothingToFlush(OnDisk(), InMemory(), trace);
        return true;
      }
      var encoded := EncodeRecords(pending);
      if encoded.None? {
        NothingToFlush(OnDisk(), InMemory(), trace);
        return false;
      }
      FlushShape(OnDisk(), InMemory(), trace);
      var entry := BlockEntry(pending[0].sequence, pending[|pending| - 1].sequence, pendingBytes, |encoded.value|);
      var manifest := blocks + [entry];
      StoreBlock(entry, encoded.value, manifest);
      blocks, pending, pendingBytes := manifest, [], 0;
      active := [];
      Mark();
      active := ACTIVE_MAGIC;
      Mark();
      ok := true;
      assert DataBytes([]) == 0 by { NoBytes(); }
    }

    /** The block file and then the manifest that names it, each written beside its place and renamed into it. */
    method StoreBlock(entry: BlockEntry, encoded: seq<byte>, manifest: seq<BlockEntry>)
      modifies `blockTmp, `blockFiles, `manifestTmp, `manifestFile, `trace
      ensures OnDisk() == old(OnDisk()).(blocks := old(blockFiles)[NameOf(entry) := encoded], blockTmp := None,
                                         manifest := Some(manifest), manifestTmp := None)
      ensures var d1 := old(OnDisk()).(blockTmp := Some(encoded));
        var d2 := d1.(blocks := d1.blocks[NameOf(entry) := encoded], blockTmp := None);
        var d3 := d2.(manifestTmp := Some(manifest));
        trace == old(trace) + [d1] + [d2] + [d3] + [d3.(manifest := Some(manifest), manifestTmp := None)]
    {
      blockTmp := Some(encoded);
      Mark();
      blockFiles, blockTmp := blockFiles[NameOf(entry) := encoded], None;
      Mark();
      WriteManifest(manifest);
    }

    method WriteManifest(manifest: seq<BlockEntry>)
      modifies `manifestTmp, `manifestFile, `trace
      ensures OnDisk() == old(OnDisk()).(manifest := Some(manifest), manifestTmp := None)
      ensures trace == old(trace) + [old(OnDisk()).(manifestTmp := Some(manifest))]
                     + [old(OnDisk()).(manifest := Some(manifest), manifestTmp := None)]
    {
      manifestTmp := Some(manifest);
      Mark();
      manifestFile, manifestTmp := manifestTmp, None;
      Mark();
    }

    /** Oldest blocks go until the rest fit or one is left; the disk passes through exactly the quota's disks. */
    method EnforceTerminalQuota()
      requires Valid()
      modifies this
      ensures Valid()
      ensures trace == old(trace) + QuotaDisks(old(OnDisk()), old(InMemory()))[1..]
      ensures InMemory() == TrimmedMemory(old(InMemory()))
    {
      hide Removals, Trimmed, QuotaDisks, Stored, DataBytes;
      QuotaShape(OnDisk(), InMemory(), trace);
      var bytes := SumStored(blocks);
      QuotaLoop(bytes);
      WriteManifest(blocks);
    }

    method QuotaLoop(total: nat)
      requires Valid() && total == Stored(blocks)
      modifies `blocks, `blockFiles, `trace
      ensures Valid() && blocks == Trimmed(old(blocks))
      ensures trace == old(trace) + Removals(old(OnDisk()), old(blocks))
    {
      hide Removals, Trimmed, Stored, DataBytes;
      var bytes := total;
      ghost var removed: seq<Disk> := [];
      while bytes > MAX_TERMINAL_BYTES && |blocks| > 1
        invariant Valid() && bytes == Stored(blocks)
        invariant trace == old(trace) + removed
        invariant removed + Removals(OnDisk(), blocks) == Removals(old(OnDisk()), old(blocks))
        invariant Trimmed(blocks) == Trimmed(old(blocks))
        decreases |blocks|
      {
        RemoveStep(OnDisk(), blocks, removed);
        var block := blocks[0];
        blocks := blocks[1..];
        bytes := bytes - block.storedBytes;
        if NameOf(block) in blockFiles {
          blockFiles := blockFiles - {NameOf(block)};
        }
        assert OnDisk() == old(OnDisk()).(blocks := blockFiles);
        Mark();
        removed := removed + [OnDisk()];
      }
      NoMore(OnDisk(), blocks, removed);
    }

    /** A flush and, when it did not fail, the quota: one operation of the crash model. */
    method Flushed() returns (ok: bool)
      requires Valid()
      modifies this
      ensures Valid() && ok == FlushSucceeds(old(InMemory()))
      ensures trace == old(trace) + Disks(old(OnDisk()), old(InMemory()), Flush)[1..]
      ensures InMemory() == Finished(old(OnDisk()), old(InMemory()), Flush)
    {
      hide FlushSucceeds, FlushDisks, QuotaDisks, FlushedMemory, TrimmedMemory, DataBytes;
      FlushThenQuota(OnDisk(), InMemory(), trace);
      ok := FlushState();
      if ok {
        EnforceTerminalQuota();
      }
    }

    /** One record, and a flush once a block's worth is pending. Out-of-order records are refused and leave no trace. */
    method AppendOwned(record: Record, blockBytes: nat) returns (ok: bool)
      requires Valid() && ValidData(record.data)
      modifies this
      ensures Valid()
      ensures var disk, mem := old(OnDisk()), old(InMemory()); var grown := Finished(disk, mem, Append(record));
        var appended := old(trace) + Disks(disk, mem, Append(record))[1..];
        if !MayAppend(mem, record) then !ok && trace == old(trace) && InMemory() == mem
        else if DataBytes(grown.pending) < blockBytes then ok && trace == appended && InMemory() == grown
        else
          && ok == FlushSucceeds(grown)
          && trace == appended + Disks(Last(appended), grown, Flush)[1..]
          && InMemory() == Finished(Last(appended), grown, Flush)
    {
      hide FlushSucceeds, Appending, EncodeActive, DataBytes;
      var last := if pending != [] then pending[|pending| - 1].sequence
                  else if blocks != [] then blocks[|blocks| - 1].last else 0;
      if record.sequence <= last {
        return false;
      }
      assert MayAppend(InMemory(), record);
      DataBytesPush(pending, record);
      assert Disks(OnDisk(), InMemory(), Append(record)) == Appending(OnDisk(), record);
      assert Finished(OnDisk(), InMemory(), Append(record)) == Memory(blocks, pending + [record]);
      hide *;
      AppendActiveRecord(record);
      pendingBytes := pendingBytes + |record.data|;
      pending := pending + [record];
      ok := true;
      if pendingBytes >= blockBytes {
        ok := Flushed();
      }
    }

    /** Opening: create a missing manifest, then give an empty active file its header or cut off a torn tail. */
    method Load() returns (ok: bool)
      requires Valid()
      modifies this
      ensures trace != [] && Last(trace) == OnDisk() && trace == old(trace) + OpenDisks(old(OnDisk()))[1..]
      ensures ok == OpenMemory(old(OnDisk())).Some?
      ensures ok ==> Valid() && InMemory() == OpenMemory(old(OnDisk())).value
    {
      hide Scan, After, DataBytes, OpenDisks;
      OpenShapes(OnDisk(), trace);
      if manifestFile.None? {
        WriteManifest([]);
      }
      var entries := manifestFile.value;
      var blockSequence := if entries == [] then 0 else entries[|entries| - 1].last;
      if active == [] {
        active := ACTIVE_MAGIC;
        Mark();
        blocks, pending := entries, [];
        pendingBytes := SumData(pending);
        return true;
      }
      if |active| < 8 || active[..8] != ACTIVE_MAGIC {
        return false;
      }
      var found, validEnd := ScanActive(active[8..], blockSequence);
      if 8 + validEnd != |active| {
        active := active[..8 + validEnd];
        Mark();
      }
      blocks, pending := entries, found;
      pendingBytes := SumData(pending);
      ok := true;
    }
  }

  lemma OpenShapes(disk: Disk, trace: seq<Disk>)
    ensures var base := disk.(manifest := Some(Entries(disk)), manifestTmp := if disk.manifest.Some? then disk.manifestTmp else None);
      var prefix := if disk.manifest.Some? then trace else trace + [disk.(manifestTmp := Some([]))] + [base];
      var valid := if |disk.active| < 8 then 0 else 8 + Scan(disk.active[8..], 0).1;
      trace + OpenDisks(disk)[1..] ==
        if disk.active == [] then prefix + [base.(active := ACTIVE_MAGIC)]
        else if |disk.active| < 8 || disk.active[..8] != ACTIVE_MAGIC || valid == |disk.active| then prefix
        else prefix + [base.(active := disk.active[..valid])]
  {
    hide Scan;
    var d := OpenDisks(disk);
    if |d| == 1 {
      assert trace + d[1..] == trace;
    } else if |d| == 2 {
      assert d[1..] == [d[1]];
    } else if |d| == 3 {
      assert d[1..] == [d[1]] + [d[2]];
      assert trace + ([d[1]] + [d[2]]) == trace + [d[1]] + [d[2]];
    } else {
      assert d[1..] == [d[1]] + [d[2]] + [d[3]];
      assert trace + ([d[1]] + [d[2]] + [d[3]]) == trace + [d[1]] + [d[2]] + [d[3]];
    }
  }

  method SumData(records: seq<Record>) returns (bytes: nat)
    ensures bytes == DataBytes(records)
  {
    bytes := 0;
    for i := |records| downto 0
      invariant bytes == DataBytes(records[i..])
    {
      assert records[i..][1..] == records[i + 1..];
      bytes := bytes + |records[i].data|;
    }
    assert records[0..] == records;
  }

  lemma FlushThenQuota(disk: Disk, mem: Memory, trace: seq<Disk>)
    ensures Disks(disk, mem, Flush)[1..] ==
            if FlushSucceeds(mem)
            then FlushDisks(disk, mem)[1..] + QuotaDisks(Last(FlushDisks(disk, mem)), FlushedMemory(mem))[1..]
            else []
    ensures FlushSucceeds(mem) || (FlushDisks(disk, mem) == [disk] && FlushedMemory(mem) == mem)
    ensures trace != [] && Last(trace) == disk ==> Last(trace + FlushDisks(disk, mem)[1..]) == Last(FlushDisks(disk, mem))
    ensures trace + [] == trace
  {
    hide EncodeBlock, QuotaDisks;
  }

  lemma RemoveStep(disk: Disk, entries: seq<BlockEntry>, removed: seq<Disk>)
    requires Stored(entries) > MAX_TERMINAL_BYTES && |entries| > 1
    ensures Stored(entries) == entries[0].storedBytes + Stored(entries[1..])
    ensures Trimmed(entries) == Trimmed(entries[1..])
    ensures var next := disk.(blocks := disk.blocks - {NameOf(entries[0])});
      removed + Removals(disk, entries) == removed + [next] + Removals(next, entries[1..])
    ensures NameOf(entries[0]) !in disk.blocks ==> disk.blocks - {NameOf(entries[0])} == disk.blocks
  {
    var next := disk.(blocks := disk.blocks - {NameOf(entries[0])});
    assert Removals(disk, entries) == [next] + Removals(next, entries[1..]);
    hide *;
    assert removed + ([next] + Removals(next, entries[1..])) == removed + [next] + Removals(next, entries[1..]);
  }

  lemma NoMore(disk: Disk, entries: seq<BlockEntry>, removed: seq<Disk>)
    requires !OverQuota(entries)
    ensures removed + Removals(disk, entries) == removed && Trimmed(entries) == entries
  {
  }

  lemma QuotaShape(disk: Disk, mem: Memory, trace: seq<Disk>)
    requires trace != [] && Last(trace) == disk
    ensures var last := Last(trace + Removals(disk, mem.blocks));
      trace + QuotaDisks(disk, mem)[1..]
      == trace + Removals(disk, mem.blocks) + [last.(manifestTmp := Some(Trimmed(mem.blocks)))]
         + [last.(manifest := Some(Trimmed(mem.blocks)), manifestTmp := None)]
  {
    hide Removals, Trimmed;
    var removed := Removals(disk, mem.blocks); var last := Last([disk] + removed);
    var written := last.(manifestTmp := Some(Trimmed(mem.blocks)));
    var renamed := last.(manifest := Some(Trimmed(mem.blocks)), manifestTmp := None);
    assert QuotaDisks(disk, mem) == [disk] + removed + [written, renamed];
    assert Last(trace + removed) == last;
    hide *;
    Regroup(trace, disk, removed, written, renamed);
  }

  lemma Regroup(trace: seq<Disk>, first: Disk, middle: seq<Disk>, a: Disk, b: Disk)
    ensures trace + ([first] + middle + [a, b])[1..] == trace + middle + [a] + [b]
  {
    assert ([first] + middle + [a, b])[1..] == middle + [a, b];
  }

  lemma FlushShape(disk: Disk, mem: Memory, trace: seq<Disk>)
    requires mem.pending != [] && EncodeBlock(mem.pending).Some?
    ensures var bytes := EncodeBlock(mem.pending).value; var entry := PendingEntry(mem.pending, |bytes|);
      var manifest := mem.blocks + [entry];
      var d1 := disk.(blockTmp := Some(bytes));
      var d2 := d1.(blocks := d1.blocks[NameOf(entry) := bytes], blockTmp := None);
      var d3 := d2.(manifestTmp := Some(manifest));
      var d4 := d3.(manifest := Some(manifest), manifestTmp := None);
      trace + FlushDisks(disk, mem)[1..]
      == trace + [d1] + [d2] + [d3] + [d4] + [d4.(active := [])] + [d4.(active := ACTIVE_MAGIC)]
  {
    hide EncodeBlock, DataBytes;
    var d := FlushDisks(disk, mem);
    assert d[1..] == [d[1]] + [d[2]] + [d[3]] + [d[4]] + [d[5]] + [d[6]];
  }

  lemma NothingToFlush(disk: Disk, mem: Memory, trace: seq<Disk>)
    requires mem.pending == [] || EncodeBlock(mem.pending).None?
    ensures trace + FlushDisks(disk, mem)[1..] == trace
  {
  }

  method SumStored(entries: seq<BlockEntry>) returns (bytes: nat)
    ensures bytes == Stored(entries)
  {
    bytes := 0;
    for i := |entries| downto 0
      invariant bytes == Stored(entries[i..])
    {
      assert entries[i..][1..] == entries[i + 1..];
      bytes := bytes + entries[i].storedBytes;
    }
    assert entries[0..] == entries;
  }
}
