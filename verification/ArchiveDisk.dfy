/**
  One terminal's archive directory: the manifest, the block files and the active
  segment, and each operation on it as the list of states the disk passes through.
  Compression is the identity; a rename and the eight-byte header write are atomic.
*/
module ArchiveDisk {
  import opened Wrappers
  import opened Bytes
  import opened HistoryCodec
  import opened ActiveSegment

  datatype BlockEntry = BlockEntry(first: u64, last: u64, uncompressedBytes: nat, storedBytes: nat)

  type Name = (u64, u64)

  function NameOf(e: BlockEntry): Name {
    (e.first, e.last)
  }

  /** `manifest` is the list of blocks in `index.json`; the two `Tmp` fields are files awaiting their rename. */
  datatype Disk = Disk(
    manifest: Option<seq<BlockEntry>>,
    manifestTmp: Option<seq<BlockEntry>>,
    blocks: map<Name, seq<byte>>,
    blockTmp: Option<seq<byte>>,
    active: seq<byte>)

  /** What the owner holds in memory for an open archive. */
  datatype Memory = Memory(blocks: seq<BlockEntry>, pending: seq<Record>)

  const EMPTY_DISK := Disk(None, None, map[], None, [])
  const MAX_TERMINAL_BYTES: nat := 256 * 1024 * 1024

  function Entries(disk: Disk): seq<BlockEntry> {
    if disk.manifest.None? then [] else disk.manifest.value
  }

  function LastBlock(entries: seq<BlockEntry>): nat {
    if entries == [] then 0 else entries[|entries| - 1].last
  }

  function LastSequence(mem: Memory): nat {
    if mem.pending == [] then LastBlock(mem.blocks) else LastOf(mem.pending)
  }

  function DataBytes(records: seq<Record>): nat {
    if records == [] then 0 else |records[0].data| + DataBytes(records[1..])
  }

  lemma NoBytes()
    ensures DataBytes([]) == 0
  {
  }

  lemma {:induction false} DataBytesPush(records: seq<Record>, record: Record)
    ensures DataBytes(records + [record]) == DataBytes(records) + |record.data|
  {
    if records != [] {
      DataBytesPush(records[1..], record);
      assert (records + [record])[1..] == records[1..] + [record];
    } else {
      assert records + [record] == [record] && DataBytes([record][1..]) == 0;
    }
  }

  lemma {:induction false} DataBytesConcat(a: seq<Record>, b: seq<Record>)
    ensures DataBytes(a + b) == DataBytes(a) + DataBytes(b)
  {
    if a == [] {
      assert a + b == b;
    } else {
      DataBytesConcat(a[1..], b);
      assert (a + b)[1..] == a[1..] + b;
    }
  }

  // ----- reading back -----

  function ReadBlock(files: map<Name, seq<byte>>, e: BlockEntry): Option<seq<Record>> {
    if NameOf(e) in files then DecodeBlock(files[NameOf(e)]) else None
  }

  function ReadBlocks(files: map<Name, seq<byte>>, entries: seq<BlockEntry>): Option<seq<Record>> {
    if entries == [] then Some([])
    else
      var first, rest := ReadBlock(files, entries[0]), ReadBlocks(files, entries[1..]);
      if first.None? || rest.None? then None else Some(first.value + rest.value)
  }

  function ReadPending(active: seq<byte>, blockSequence: nat): Option<seq<Record>> {
    if active == [] then Some([])
    else if |active| < 8 || active[..8] != ACTIVE_MAGIC then None
    else Some(After(Scan(active[8..], 0).0, blockSequence))
  }

  /** Every record a process that opens this disk finds, or nothing when it cannot be read. */
  function Readback(disk: Disk): Option<seq<Record>> {
    var flushed := ReadBlocks(disk.blocks, Entries(disk));
    var pending := ReadPending(disk.active, LastBlock(Entries(disk)));
    if flushed.None? || pending.None? then None else Some(flushed.value + pending.value)
  }

  // ----- appending: the disk after each byte -----

  function Appended(disk: Disk, record: Record, written: nat): Disk
    requires written <= |EncodeActive(record)|
  {
    disk.(active := disk.active + EncodeActive(record)[..written])
  }

  /** The disk before the record, and after each of its bytes. */
  function Appending(disk: Disk, record: Record): (disks: seq<Disk>)
    ensures |disks| == |EncodeActive(record)| + 1 && disks[0] == disk
  {
    assert disk.active + EncodeActive(record)[..0] == disk.active;
    seq(|EncodeActive(record)| + 1, i requires 0 <= i <= |EncodeActive(record)| => Appended(disk, record, i))
  }

  predicate MayAppend(mem: Memory, record: Record) {
    record.sequence > LastSequence(mem) && ValidData(record.data)
  }

  // ----- flushing: the disk after each file operation -----

  function PendingEntry(pending: seq<Record>, stored: nat): BlockEntry
    requires pending != []
  {
    BlockEntry(pending[0].sequence, pending[|pending| - 1].sequence, DataBytes(pending), stored)
  }

  /** The flush's six file operations, in order; nothing when there is nothing to flush or encode. */
  function FlushDisks(disk: Disk, mem: Memory): (disks: seq<Disk>)
    ensures |disks| >= 1 && disks[0] == disk
  {
    var encoded := EncodeBlock(mem.pending);
    if mem.pending == [] || encoded.None? then [disk]
    else
      var entry := PendingEntry(mem.pending, |encoded.value|);
      var manifest := mem.blocks + [entry];
      var d1 := disk.(blockTmp := encoded);
      var d2 := d1.(blocks := d1.blocks[NameOf(entry) := encoded.value], blockTmp := None);
      var d3 := d2.(manifestTmp := Some(manifest));
      var d4 := d3.(manifest := Some(manifest), manifestTmp := None);
      var d5 := d4.(active := []);
      var d6 := d5.(active := ACTIVE_MAGIC);
      [disk, d1, d2, d3, d4, d5, d6]
  }

  function FlushedMemory(mem: Memory): Memory {
    var encoded := EncodeBlock(mem.pending);
    if mem.pending == [] || encoded.None? then mem
    else Memory(mem.blocks + [PendingEntry(mem.pending, |encoded.value|)], [])
  }

  /** The quota follows a flush that did not fail. */
  predicate FlushSucceeds(mem: Memory) {
    mem.pending == [] || EncodeBlock(mem.pending).Some?
  }

  // ----- the per-terminal quota -----

  function Stored(entries: seq<BlockEntry>): nat {
    if entries == [] then 0 else entries[0].storedBytes + Stored(entries[1..])
  }

  predicate OverQuota(entries: seq<BlockEntry>) {
    Stored(entries) > MAX_TERMINAL_BYTES && |entries| > 1
  }

  function Trimmed(entries: seq<BlockEntry>): (kept: seq<BlockEntry>)
    ensures |kept| <= |entries| && kept == entries[|entries| - |kept|..]
    ensures entries != [] ==> kept != []
  {
    if OverQuota(entries) then Trimmed(entries[1..]) else entries
  }

  /** The disk after each removed block file: the oldest first. */
  function Removals(disk: Disk, entries: seq<BlockEntry>): seq<Disk>
    decreases |entries|
  {
    if OverQuota(entries) then
      var d := disk.(blocks := disk.blocks - {NameOf(entries[0])});
      [d] + Removals(d, entries[1..])
    else []
  }

  function Last<T>(s: seq<T>): T
    requires s != []
  {
    s[|s| - 1]
  }

  /** Block files go first, then the manifest that no longer names them is written and renamed. */
  function QuotaDisks(disk: Disk, mem: Memory): (disks: seq<Disk>)
    ensures |disks| >= 3 && disks[0] == disk
  {
    var removed := [disk] + Removals(disk, mem.blocks);
    var written := Last(removed).(manifestTmp := Some(Trimmed(mem.blocks)));
    removed + [written, written.(manifest := Some(Trimmed(mem.blocks)), manifestTmp := None)]
  }

  // ----- opening -----

  /** A missing manifest is created; then an empty active file gets its header, or a torn tail is cut off. */
  function OpenDisks(disk: Disk): (disks: seq<Disk>)
    ensures |disks| >= 1 && disks[0] == disk
  {
    var created := if disk.manifest.Some? then [disk]
                   else [disk, disk.(manifestTmp := Some([])), disk.(manifest := Some([]), manifestTmp := None)];
    var d := Last(created);
    if d.active == [] then created + [d.(active := ACTIVE_MAGIC)]
    else if |d.active| < 8 || d.active[..8] != ACTIVE_MAGIC then created
    else
      var valid := 8 + Scan(d.active[8..], 0).1;
      if valid != |d.active| then created + [d.(active := d.active[..valid])] else created
  }

  function OpenMemory(disk: Disk): Option<Memory> {
    var pending := ReadPending(disk.active, LastBlock(Entries(disk)));
    if pending.None? then None else Some(Memory(Entries(disk), pending.value))
  }
}
