/** Reading the stored history a page at a time, forward from the oldest record or backward from the newest. */
module HistoryPaging {
  import opened Wrappers
  import opened Bytes
  import opened HistoryCodec
  import opened ActiveSegment
  import opened ArchiveDisk
  import opened ArchiveCrash

  /** What a request sees: the manifest and pending list copied under the lock, and the block files. */
  datatype Snapshot = Snapshot(files: map<Name, seq<byte>>, blocks: seq<BlockEntry>, pending: seq<Record>)

  datatype Page = Page(chunks: seq<seq<byte>>, firstSequence: nat, lastSequence: nat, nextSequence: nat, complete: bool)

  /** The snapshot holds exactly these records, as a live archive's does. */
  ghost predicate Stored(snap: Snapshot, all: seq<Record>) {
    && Labelled(snap.files, snap.blocks)
    && ReadBlocks(snap.files, snap.blocks).Some?
    && all == ReadBlocks(snap.files, snap.blocks).value + snap.pending
    && Increasing(all, 0)
  }

  lemma LiveIsStored(disk: Disk, mem: Memory, whole: seq<Record>, records: seq<Record>)
    requires Live(disk, mem, whole, records)
    ensures Stored(Snapshot(disk.blocks, mem.blocks, mem.pending), records)
  {
  }

  function PageLimit(requested: Option<nat>, pageBytes: nat): nat
    requires pageBytes >= 1
  {
    var bytes := if requested.None? then pageBytes else requested.value;
    if bytes < 1 then 1 else if bytes > pageBytes then pageBytes else bytes
  }

  function Newest(snap: Snapshot, fallback: nat): nat {
    if snap.pending != [] then LastOf(snap.pending)
    else if snap.blocks != [] then LastBlock(snap.blocks)
    else fallback
  }

  function Payloads(records: seq<Record>): seq<seq<byte>> {
    seq(|records|, i requires 0 <= i < |records| => records[i].data)
  }

  function Upto(records: seq<Record>, sequence: nat): seq<Record> {
    if records == [] then []
    else if records[0].sequence <= sequence then [records[0]] + Upto(records[1..], sequence)
    else Upto(records[1..], sequence)
  }

  // ----- what a page holds -----

  /** How many records fit from the front: always one, then as many as stay within the limit. */
  function Fill(records: seq<Record>, used: nat, limit: nat, started: bool): (n: nat)
    ensures n <= |records|
    ensures !started && records != [] ==> n > 0
  {
    if records == [] || (started && used + |records[0].data| > limit) then 0
    else 1 + Fill(records[1..], used + |records[0].data|, limit, true)
  }

  function FillBack(records: seq<Record>, used: nat, limit: nat, started: bool): (n: nat)
    ensures n <= |records|
    ensures !started && records != [] ==> n > 0
  {
    if records == [] || (started && used + |records[|records| - 1].data| > limit) then 0
    else 1 + FillBack(records[..|records| - 1], used + |records[|records| - 1].data|, limit, true)
  }

  lemma {:induction false} FillBounded(records: seq<Record>, used: nat, limit: nat, started: bool)
    ensures var n := Fill(records, used, limit, started);
      (n <= 1 && !started) || n == 0 || used + DataBytes(records[..n]) <= limit
  {
    var n := Fill(records, used, limit, started);
    if n > 0 {
      FillBounded(records[1..], used + |records[0].data|, limit, true);
      assert records[..n][1..] == records[1..][..n - 1];
      assert records[..1][1..] == [];
    }
  }

  lemma {:induction false} FillBackBounded(records: seq<Record>, used: nat, limit: nat, started: bool)
    ensures var n := FillBack(records, used, limit, started);
      (n <= 1 && !started) || n == 0 || used + DataBytes(records[|records| - n..]) <= limit
  {
    hide DataBytes, FillBack;
    var n := FillBack(records, used, limit, started);
    FillBackStep(records, used, limit, started);
    if n > 0 {
      var init, last := records[..|records| - 1], records[|records| - 1];
      FillBackBounded(init, used + |last.data|, limit, true);
      assert records[|records| - n..] == init[|init| - (n - 1)..] + [last];
      DataBytesPush(init[|init| - (n - 1)..], last);
      if n == 1 {
        assert init[|init|..] == [];
        NoBytes();
      }
    }
  }

  function ForwardPage(records: seq<Record>, after: nat, newest: nat, limit: nat): Page {
    var rest := After(records, after);
    var n := Fill(rest, 0, limit, false);
    var last := if n == 0 then after else rest[n - 1].sequence;
    Page(Payloads(rest[..n]), if n == 0 then 0 else rest[0].sequence, last, last, n == |rest| && last >= newest)
  }

  function Ceiling(snap: Snapshot, before: nat): nat {
    if before == 0 then Newest(snap, 0)
    else if before - 1 <= Newest(snap, 0) then before - 1 else Newest(snap, 0)
  }

  // ----- which blocks are read -----

  function ReadAfter(files: map<Name, seq<byte>>, blocks: seq<BlockEntry>, after: nat): Option<seq<Record>> {
    if blocks == [] then Some([])
    else if blocks[0].last <= after then ReadAfter(files, blocks[1..], after)
    else
      var first, rest := ReadBlock(files, blocks[0]), ReadAfter(files, blocks[1..], after);
      if first.None? || rest.None? then None else Some(first.value + rest.value)
  }

  /** Skipping the blocks that end at or before the cursor loses nothing after it. */
  lemma {:induction false} ReadAfterEnough(files: map<Name, seq<byte>>, blocks: seq<BlockEntry>, after: nat)
    requires Labelled(files, blocks)
    ensures ReadBlocks(files, blocks).Some? && ReadAfter(files, blocks, after).Some?
    ensures After(ReadAfter(files, blocks, after).value, after) == After(ReadBlocks(files, blocks).value, after)
  {
    hide DecodeBlock, After;
    if blocks != [] {
      LabelledRest(files, blocks);
      ReadAfterEnough(files, blocks[1..], after);
      var first := ReadBlock(files, blocks[0]).value;
      BlockIncreasing(files, blocks[0]);
      AfterConcat(first, ReadBlocks(files, blocks[1..]).value, after);
      if blocks[0].last <= after {
        AfterNone(first, 0, after);
      } else {
        AfterConcat(first, ReadAfter(files, blocks[1..], after).value, after);
      }
    }
  }

  lemma LabelledRest(files: map<Name, seq<byte>>, blocks: seq<BlockEntry>)
    requires Labelled(files, blocks) && blocks != []
    ensures Labelled(files, blocks[1..]) && ReadBlock(files, blocks[0]).Some?
    ensures LastOf(ReadBlock(files, blocks[0]).value) == blocks[0].last
  {
    hide ReadBlock, LastOf;
  }

  lemma BlockIncreasing(files: map<Name, seq<byte>>, e: BlockEntry)
    requires ReadBlock(files, e).Some?
    ensures Increasing(ReadBlock(files, e).value, 0)
  {
    hide Increasing, DecodeBlock;
    EncodeDecoded(files[NameOf(e)]);
    EncodedValid(ReadBlock(files, e).value);
  }

  // ----- cutting at a cursor -----

  lemma {:induction false} UptoConcat(a: seq<Record>, b: seq<Record>, sequence: nat)
    ensures Upto(a + b, sequence) == Upto(a, sequence) + Upto(b, sequence)
  {
    hide Upto;
    UptoStep(a, sequence);
    if a == [] {
      assert a + b == b;
      assert [] + Upto(b, sequence) == Upto(b, sequence);
    } else {
      UptoStep(a + b, sequence);
      UptoConcat(a[1..], b, sequence);
      assert (a + b)[1..] == a[1..] + b && (a + b)[0] == a[0];
      JoinThree([a[0]], Upto(a[1..], sequence), Upto(b, sequence));
    }
  }

  lemma UptoStep(records: seq<Record>, sequence: nat)
    ensures Upto(records, sequence) ==
            if records == [] then []
            else if records[0].sequence <= sequence then [records[0]] + Upto(records[1..], sequence)
            else Upto(records[1..], sequence)
  {
  }

  lemma JoinThree(a: seq<Record>, b: seq<Record>, c: seq<Record>)
    ensures a + (b + c) == a + b + c
  {
  }

  lemma {:induction false} UptoAll(records: seq<Record>, previous: nat, sequence: nat)
    requires Increasing(records, previous) && LastOf(records) <= sequence
    ensures Upto(records, sequence) == records
  {
    if records != [] {
      LastIsLargest(records, previous);
      if records[1..] != [] {
        assert LastOf(records[1..]) == LastOf(records);
      }
      UptoAll(records[1..], records[0].sequence, sequence);
    }
  }

  lemma {:induction false} UptoNone(records: seq<Record>, previous: nat, sequence: nat)
    requires Increasing(records, previous) && sequence <= previous
    ensures Upto(records, sequence) == []
  {
    if records != [] {
      UptoNone(records[1..], records[0].sequence, sequence);
    }
  }

  /** A cursor between two records splits the history there. */
  lemma CutAt(a: seq<Record>, b: seq<Record>, cursor: nat)
    requires Increasing(a + b, 0) && LastOf(a) <= cursor && (b != [] ==> b[0].sequence > cursor)
    ensures Upto(a + b, cursor) == a && After(a + b, cursor) == b
  {
    hide After, Upto, Increasing;
    IncreasingSplit(a, b, 0);
    UptoConcat(a, b, cursor);
    AfterConcat(a, b, cursor);
    UptoAll(a, 0, cursor);
    AfterNone(a, 0, cursor);
    if b != [] {
      RaiseFloor(b, LastOf(a), cursor);
      AfterSmaller(b, cursor, cursor);
      UptoNone(b, cursor, cursor);
    } else {
      NothingThere(cursor);
    }
  }

  lemma NothingThere(cursor: nat)
    ensures After([], cursor) == [] && Upto([], cursor) == []
  {
  }

  lemma RaiseFloor(records: seq<Record>, low: nat, high: nat)
    requires Increasing(records, low) && records != [] && records[0].sequence > high
    ensures Increasing(records, high)
  {
  }

  // ----- one page against the whole history -----

  /** The answer to `read_page`; nothing when a block cannot be read. */
  function ReadForward(snap: Snapshot, after: nat, limit: nat): Option<Page> {
    var flushed := ReadAfter(snap.files, snap.blocks, after);
    if flushed.None? then None else Some(ForwardPage(flushed.value + snap.pending, after, Newest(snap, after), limit))
  }

  /** Taking from the end of `records` up to the ceiling, before what is already taken; and whether all of it fitted. */
  function TakeBack(records: seq<Record>, ceiling: nat, limit: nat, taken: seq<Record>): (result: (seq<Record>, bool)) {
    var below := Upto(records, ceiling);
    var n := FillBack(below, DataBytes(taken), limit, taken != []);
    (below[|below| - n..] + taken, n == |below|)
  }

  /** The blocks newest first, each read only while the page still has room. */
  function TakeBlocks(files: map<Name, seq<byte>>, blocks: seq<BlockEntry>, ceiling: nat, limit: nat, taken: seq<Record>)
    : Option<(seq<Record>, bool)>
  {
    if blocks == [] then Some((taken, true))
    else
      var older, newest := blocks[..|blocks| - 1], blocks[|blocks| - 1];
      if newest.first > ceiling then TakeBlocks(files, older, ceiling, limit, taken)
      else
        var block := ReadBlock(files, newest);
        if block.None? then None
        else
          var more := TakeBack(block.value, ceiling, limit, taken);
          if more.1 then TakeBlocks(files, older, ceiling, limit, more.0) else Some(more)
  }

  /** The answer to `read_page_reverse`. */
  function ReadBackward(snap: Snapshot, before: nat, limit: nat): Option<Page> {
    var ceiling := Ceiling(snap, before);
    var pending := TakeBack(snap.pending, ceiling, limit, []);
    var taken := if pending.1 then TakeBlocks(snap.files, snap.blocks, ceiling, limit, pending.0) else Some(pending);
    if taken.None? then None else Some(BackwardPage(taken.value.0, taken.value.1))
  }

  function BackwardPage(page: seq<Record>, complete: bool): Page {
    Page(Payloads(page), if page == [] then 0 else page[0].sequence, LastOf(page), if page == [] then 0 else page[0].sequence, complete)
  }

  /** Taking from the end of a concatenation is taking from its second part, then from its first. */
  lemma {:induction false} FillBackConcat(a: seq<Record>, b: seq<Record>, used: nat, limit: nat, started: bool)
    ensures var n := FillBack(b, used, limit, started);
      FillBack(a + b, used, limit, started) ==
      if n < |b| then n else n + FillBack(a, used + DataBytes(b), limit, started || b != [])
  {
    hide FillBack, DataBytes;
    if b == [] {
      assert a + b == a;
      FillBackStep(b, used, limit, started);
      NoBytes();
    } else {
      var init, last := b[..|b| - 1], b[|b| - 1];
      assert (a + b)[..|a + b| - 1] == a + init && (a + b)[|a + b| - 1] == last;
      assert b == init + [last];
      DataBytesPush(init, last);
      FillBackStep(b, used, limit, started);
      FillBackStep(a + b, used, limit, started);
      if !(started && used + |last.data| > limit) {
        FillBackConcat(a, init, used + |last.data|, limit, true);
      }
    }
  }

  lemma FillBackStep(records: seq<Record>, used: nat, limit: nat, started: bool)
    ensures FillBack(records, used, limit, started) ==
            if records == [] || (started && used + |records[|records| - 1].data| > limit) then 0
            else 1 + FillBack(records[..|records| - 1], used + |records[|records| - 1].data|, limit, true)
  {
    hide DataBytes;
  }

  /** Reading block by block from the newest takes what one pass over the whole history would. */
  lemma {:induction false} TakeBlocksAll(files: map<Name, seq<byte>>, blocks: seq<BlockEntry>, ceiling: nat, limit: nat, taken: seq<Record>)
    requires Labelled(files, blocks) && ReadBlocks(files, blocks).Some?
    ensures TakeBlocks(files, blocks, ceiling, limit, taken) == Some(TakeBack(ReadBlocks(files, blocks).value, ceiling, limit, taken))
  {
    hide DecodeBlock, Upto, TakeBack, ReadBlocks, TakeBlocks, Labelled, ReadBlock;
    TakeBlocksStep(files, blocks, ceiling, limit, taken);
    if blocks != [] {
      var older, newest := blocks[..|blocks| - 1], blocks[|blocks| - 1];
      LabelledInit(files, blocks);
      var block, rest := ReadBlock(files, newest).value, ReadBlocks(files, older).value;
      if newest.first > ceiling {
        BlockIncreasing(files, newest);
        AboveCeiling(rest, block, ceiling, limit, taken);
        TakeBlocksAll(files, older, ceiling, limit, taken);
      } else {
        TakeBackConcat(rest, block, ceiling, limit, taken);
        TakeBlocksAll(files, older, ceiling, limit, TakeBack(block, ceiling, limit, taken).0);
      }
    }
  }

  lemma TakeBlocksStep(files: map<Name, seq<byte>>, blocks: seq<BlockEntry>, ceiling: nat, limit: nat, taken: seq<Record>)
    ensures blocks == [] ==>
              TakeBlocks(files, blocks, ceiling, limit, taken) == Some((taken, true))
              && ReadBlocks(files, blocks) == Some([]) && TakeBack([], ceiling, limit, taken) == (taken, true)
    ensures blocks != [] ==>
              var older, newest := blocks[..|blocks| - 1], blocks[|blocks| - 1];
              var block := ReadBlock(files, newest);
              TakeBlocks(files, blocks, ceiling, limit, taken) ==
              if newest.first > ceiling then TakeBlocks(files, older, ceiling, limit, taken)
              else if block.None? then None
              else
                var more := TakeBack(block.value, ceiling, limit, taken);
                if more.1 then TakeBlocks(files, older, ceiling, limit, more.0) else Some(more)
  {
    hide ReadBlock;
    assert [] + taken == taken;
  }

  lemma LabelledInit(files: map<Name, seq<byte>>, blocks: seq<BlockEntry>)
    requires Labelled(files, blocks) && ReadBlocks(files, blocks).Some? && blocks != []
    ensures var older, newest := blocks[..|blocks| - 1], blocks[|blocks| - 1];
      && Labelled(files, older) && ReadBlocks(files, older).Some? && ReadBlock(files, newest).Some?
      && ReadBlocks(files, blocks).value == ReadBlocks(files, older).value + ReadBlock(files, newest).value
      && ReadBlock(files, newest).value != [] && ReadBlock(files, newest).value[0].sequence == newest.first
  {
    hide ReadBlock, ReadBlocks;
    var older, newest := blocks[..|blocks| - 1], blocks[|blocks| - 1];
    assert blocks == older + [newest];
    ReadConcat(files, older, [newest]);
    ReadOne(files, newest);
  }

  lemma AboveCeiling(a: seq<Record>, b: seq<Record>, ceiling: nat, limit: nat, taken: seq<Record>)
    requires Increasing(b, 0) && b != [] && b[0].sequence > ceiling
    ensures TakeBack(a + b, ceiling, limit, taken) == TakeBack(a, ceiling, limit, taken)
  {
    hide Upto, Increasing, FillBack;
    UptoConcat(a, b, ceiling);
    RaiseFloor(b, 0, ceiling);
    UptoNone(b, ceiling, ceiling);
    assert Upto(a, ceiling) + [] == Upto(a, ceiling);
  }

  lemma TakeBackConcat(a: seq<Record>, b: seq<Record>, ceiling: nat, limit: nat, taken: seq<Record>)
    ensures var more := TakeBack(b, ceiling, limit, taken);
      TakeBack(a + b, ceiling, limit, taken) == if more.1 then TakeBack(a, ceiling, limit, more.0) else more
  {
    hide Upto, FillBack, DataBytes;
    var x, y := Upto(a, ceiling), Upto(b, ceiling);
    UptoConcat(a, b, ceiling);
    FillBackConcat(x, y, DataBytes(taken), limit, taken != []);
    var n := FillBack(y, DataBytes(taken), limit, taken != []);
    if n == |y| {
      DataBytesConcat(y, taken);
      assert y[0..] == y;
      var k := FillBack(x, DataBytes(y + taken), limit, y + taken != []);
      SliceJoin(x, y, taken, |x| - k);
    } else {
      SliceSecond(x, y, |y| - n);
    }
  }

  lemma SliceJoin(x: seq<Record>, y: seq<Record>, z: seq<Record>, i: nat)
    requires i <= |x|
    ensures (x + y)[i..] + z == x[i..] + (y + z)
  {
  }

  lemma SliceSecond(x: seq<Record>, y: seq<Record>, i: nat)
    requires i <= |y|
    ensures (x + y)[|x| + i..] == y[i..]
  {
  }

  lemma NewestIsLast(snap: Snapshot, all: seq<Record>, fallback: nat)
    requires Stored(snap, all)
    ensures Newest(snap, fallback) == if all == [] then fallback else LastOf(all)
  {
    hide ReadBlock, Increasing, ReadBlocks;
    LastLabelled(snap.files, snap.blocks);
    LastOfConcat(ReadBlocks(snap.files, snap.blocks).value, snap.pending);
    if snap.blocks != [] {
      LabelledNonEmpty(snap.files, snap.blocks);
    } else {
      assert ReadBlocks(snap.files, []) == Some([]) by { NoBlocks(snap.files); }
    }
  }

  lemma NoBlocks(files: map<Name, seq<byte>>)
    ensures ReadBlocks(files, []) == Some([])
  {
  }

  lemma LabelledNonEmpty(files: map<Name, seq<byte>>, blocks: seq<BlockEntry>)
    requires Labelled(files, blocks) && blocks != [] && ReadBlocks(files, blocks).Some?
    ensures ReadBlocks(files, blocks).value != []
  {
    hide ReadBlock;
    assert ReadBlock(files, blocks[0]).value != [];
  }

  /** From a cursor at the end of a prefix, a page is the next records that fit; it is the last exactly when all do. */
  lemma ForwardStep(snap: Snapshot, all: seq<Record>, m: nat, limit: nat) returns (n: nat)
    requires Stored(snap, all) && m <= |all|
    ensures m + n <= |all| && (m < |all| ==> n > 0)
    ensures n <= 1 || DataBytes(all[m..m + n]) <= limit
    ensures ReadForward(snap, LastOf(all[..m]), limit) == Some(Page(Payloads(all[m..m + n]),
              if n == 0 then 0 else all[m].sequence, LastOf(all[..m + n]), LastOf(all[..m + n]), m + n == |all|))
  {
    hide Stored, ReadForward, Fill, After, Payloads, Newest, Increasing, ForwardPage, DataBytes, LastOf;
    var cursor := LastOf(all[..m]);
    n := Fill(all[m..], 0, limit, false);
    ForwardSees(snap, all, cursor);
    assert all == all[..m] + all[m..];
    NextAbove(snap, all, m);
    CutAt(all[..m], all[m..], cursor);
    NewestIsLast(snap, all, cursor);
    FillBounded(all[m..], 0, limit, false);
    assert all[m..][..n] == all[m..m + n];
    ForwardPageAt(all, m, if all == [] then cursor else LastOf(all), limit);
  }

  lemma ForwardPageAt(all: seq<Record>, m: nat, newest: nat, limit: nat)
    requires m <= |all| && After(all, LastOf(all[..m])) == all[m..]
    requires newest == if all == [] then LastOf(all[..m]) else LastOf(all)
    ensures var n := Fill(all[m..], 0, limit, false);
      ForwardPage(all, LastOf(all[..m]), newest, limit) ==
      Page(Payloads(all[m..m + n]), if n == 0 then 0 else all[m].sequence, LastOf(all[..m + n]), LastOf(all[..m + n]), m + n == |all|)
  {
    hide After, Fill, Payloads;
    var n := Fill(all[m..], 0, limit, false);
    assert all[m..][..n] == all[m..m + n];
    if n == |all| - m { assert all[..m + n] == all; }
  }

  lemma ForwardSees(snap: Snapshot, all: seq<Record>, cursor: nat)
    requires Stored(snap, all)
    ensures forall limit: nat :: ReadForward(snap, cursor, limit) == Some(ForwardPage(all, cursor, Newest(snap, cursor), limit))
  {
    hide Increasing, Labelled, After, Fill, Newest, ReadBlocks, ReadAfter, Payloads;
    ReadAfterEnough(snap.files, snap.blocks, cursor);
    AfterConcat(ReadBlocks(snap.files, snap.blocks).value, snap.pending, cursor);
    AfterConcat(ReadAfter(snap.files, snap.blocks, cursor).value, snap.pending, cursor);
  }

  lemma NextAbove(snap: Snapshot, all: seq<Record>, m: nat)
    requires Stored(snap, all) && m <= |all|
    ensures Increasing(all, 0)
    ensures m < |all| ==> all[m].sequence > LastOf(all[..m])
  {
    hide Labelled, ReadBlocks;
    assert all == all[..m] + all[m..];
    IncreasingSplit(all[..m], all[m..], 0);
  }

  /** Below a cursor at the start of a suffix, a page is the records just before it that fit. */
  lemma BackwardStep(snap: Snapshot, all: seq<Record>, m: nat, before: nat, limit: nat) returns (n: nat)
    requires Stored(snap, all) && m <= |all|
    requires if m < |all| then before == all[m].sequence else before == 0
    ensures n <= m && (m > 0 ==> n > 0)
    ensures n <= 1 || DataBytes(all[m - n..m]) <= limit
    ensures ReadBackward(snap, before, limit) == Some(Page(Payloads(all[m - n..m]),
              if n == 0 then 0 else all[m - n].sequence, if n == 0 then 0 else all[m - 1].sequence,
              if n == 0 then 0 else all[m - n].sequence, n == m))
  {
    hide Stored, ReadBackward, FillBack, Upto, Payloads, Newest, Increasing, Ceiling, DataBytes, TakeBack;
    var ceiling := Ceiling(snap, before);
    n := FillBack(all[..m], 0, limit, false);
    CeilingBetween(snap, all, m, before);
    assert all == all[..m] + all[m..];
    NextAbove(snap, all, m);
    CutAt(all[..m], all[m..], ceiling);
    BackwardSees(snap, all, before, limit);
    TakeBackBelow(all, m, ceiling, limit);
  }

  lemma TakeBackBelow(all: seq<Record>, m: nat, ceiling: nat, limit: nat)
    requires m <= |all| && Upto(all, ceiling) == all[..m]
    ensures var n := FillBack(all[..m], 0, limit, false);
      && TakeBack(all, ceiling, limit, []) == (all[m - n..m], n == m)
      && (n <= 1 || DataBytes(all[m - n..m]) <= limit)
  {
    hide Upto, FillBack, DataBytes;
    NoBytes();
    FillBackBounded(all[..m], 0, limit, false);
    var n := FillBack(all[..m], 0, limit, false);
    assert all[..m][m - n..] == all[m - n..m] && all[m - n..m] + [] == all[m - n..m];
  }

  lemma BackwardSees(snap: Snapshot, all: seq<Record>, before: nat, limit: nat)
    requires Stored(snap, all)
    ensures var page := TakeBack(all, Ceiling(snap, before), limit, []);
      ReadBackward(snap, before, limit) == Some(BackwardPage(page.0, page.1))
  {
    hide Increasing, Labelled, TakeBack, ReadBlocks, TakeBlocks, Ceiling;
    var flushed := ReadBlocks(snap.files, snap.blocks).value;
    var ceiling := Ceiling(snap, before);
    TakeBackConcat(flushed, snap.pending, ceiling, limit, []);
    TakeBlocksAll(snap.files, snap.blocks, ceiling, limit, TakeBack(snap.pending, ceiling, limit, []).0);
  }

  lemma CeilingBetween(snap: Snapshot, all: seq<Record>, m: nat, before: nat)
    requires Stored(snap, all) && m <= |all|
    requires if m < |all| then before == all[m].sequence else before == 0
    ensures LastOf(all[..m]) <= Ceiling(snap, before)
    ensures m < |all| ==> all[m].sequence > Ceiling(snap, before)
  {
    hide Stored, Newest, Increasing;
    NewestIsLast(snap, all, 0);
    NextAbove(snap, all, m);
    if m < |all| {
      PrefixBelow(all, m);
    } else {
      assert all[..m] == all;
    }
  }

  lemma PrefixBelow(all: seq<Record>, m: nat)
    requires Increasing(all, 0) && m <= |all|
    ensures LastOf(all[..m]) <= LastOf(all)
  {
    assert all == all[..m] + all[m..];
    IncreasingSplit(all[..m], all[m..], 0);
    if m < |all| {
      LastIsLargest(all[m..], LastOf(all[..m]));
      assert LastOf(all[m..]) == LastOf(all);
    } else {
      assert all[..m] == all;
    }
  }

  // ----- page sizes -----

  function TotalBytes(chunks: seq<seq<byte>>): nat {
    if chunks == [] then 0 else |chunks[0]| + TotalBytes(chunks[1..])
  }

  lemma {:induction false} PayloadBytes(records: seq<Record>)
    ensures TotalBytes(Payloads(records)) == DataBytes(records)
  {
    if records != [] {
      PayloadBytes(records[1..]);
      assert Payloads(records)[1..] == Payloads(records[1..]);
    }
  }

  /** Whatever the archive, a page is within the byte limit or is a single record. */
  lemma PagesAreBounded(snap: Snapshot, cursor: nat, requested: Option<nat>, pageBytes: nat)
    requires pageBytes >= 1
    ensures PageLimit(requested, pageBytes) <= pageBytes
    ensures var limit := PageLimit(requested, pageBytes); var page := ReadForward(snap, cursor, limit);
      page.Some? ==> |page.value.chunks| <= 1 || TotalBytes(page.value.chunks) <= limit
    ensures var limit := PageLimit(requested, pageBytes); var page := ReadBackward(snap, cursor, limit);
      page.Some? ==> |page.value.chunks| <= 1 || TotalBytes(page.value.chunks) <= limit
  {
    var limit := PageLimit(requested, pageBytes);
    hide After, Fill, ReadAfter, TakeBack, TakeBlocks, Newest, Ceiling, TotalBytes, DataBytes;
    var forward, backward := ReadForward(snap, cursor, limit), ReadBackward(snap, cursor, limit);
    if forward.Some? {
      var rest := After(ReadAfter(snap.files, snap.blocks, cursor).value + snap.pending, cursor);
      FillBounded(rest, 0, limit, false);
      PayloadBytes(rest[..Fill(rest, 0, limit, false)]);
    }
    if backward.Some? {
      var ceiling := Ceiling(snap, cursor);
      var pending := TakeBack(snap.pending, ceiling, limit, []);
      TakeBackBounded(snap.pending, ceiling, limit, []);
      if pending.1 { TakeBlocksBounded(snap.files, snap.blocks, ceiling, limit, pending.0); }
      var taken := if pending.1 then TakeBlocks(snap.files, snap.blocks, ceiling, limit, pending.0).value else pending;
      PayloadBytes(taken.0);
    }
  }

  lemma TakeBackBounded(records: seq<Record>, ceiling: nat, limit: nat, taken: seq<Record>)
    requires |taken| <= 1 || DataBytes(taken) <= limit
    ensures var page := TakeBack(records, ceiling, limit, taken).0; |page| <= 1 || DataBytes(page) <= limit
  {
    hide Upto, FillBack, DataBytes;
    var below := Upto(records, ceiling);
    var n := FillBack(below, DataBytes(taken), limit, taken != []);
    FillBackBounded(below, DataBytes(taken), limit, taken != []);
    DataBytesConcat(below[|below| - n..], taken);
    assert n == 0 ==> below[|below| - n..] + taken == taken;
    assert DataBytes([]) == 0 by { NoBytes(); }
  }

  lemma {:induction false} TakeBlocksBounded(files: map<Name, seq<byte>>, blocks: seq<BlockEntry>, ceiling: nat, limit: nat, taken: seq<Record>)
    requires (|taken| <= 1 || DataBytes(taken) <= limit) && TakeBlocks(files, blocks, ceiling, limit, taken).Some?
    ensures var page := TakeBlocks(files, blocks, ceiling, limit, taken).value.0; |page| <= 1 || DataBytes(page) <= limit
  {
    hide TakeBack, ReadBlock, DataBytes;
    if blocks != [] {
      var older, newest := blocks[..|blocks| - 1], blocks[|blocks| - 1];
      if newest.first > ceiling {
        TakeBlocksBounded(files, older, ceiling, limit, taken);
      } else {
        var block := ReadBlock(files, newest).value;
        TakeBackBounded(block, ceiling, limit, taken);
        if TakeBack(block, ceiling, limit, taken).1 {
          TakeBlocksBounded(files, older, ceiling, limit, TakeBack(block, ceiling, limit, taken).0);
        }
      }
    }
  }

  // ----- walks -----

  datatype Request = Request(snap: Snapshot, limit: nat)

  datatype Progress = Progress(chunks: seq<seq<byte>>, cursor: nat, complete: bool)

  /** Each request sees the history as it then is: it may have grown, and moved from pending to blocks. */
  ghost predicate Growing(requests: seq<Request>, histories: seq<seq<Record>>) {
    && |requests| == |histories|
    && (forall i :: 0 <= i < |requests| ==> Stored(requests[i].snap, histories[i]))
    && (forall i, j :: 0 <= i < j < |histories| ==> histories[i] <= histories[j])
  }

  /** A client that follows `next_sequence` forward from 0, appending the pages. */
  function ForwardWalk(requests: seq<Request>): Progress {
    if requests == [] then Progress([], 0, false)
    else
      var before, request := ForwardWalk(requests[..|requests| - 1]), requests[|requests| - 1];
      var page := ReadForward(request.snap, before.cursor, request.limit);
      if page.None? then before
      else Progress(before.chunks + page.value.chunks, page.value.nextSequence, page.value.complete)
  }

  /** A client that follows `next_sequence` backward from 0 until complete, prepending the pages. */
  function BackwardWalk(requests: seq<Request>): Progress {
    if requests == [] then Progress([], 0, false)
    else
      var before, request := BackwardWalk(requests[..|requests| - 1]), requests[|requests| - 1];
      if before.complete then before
      else
        var page := ReadBackward(request.snap, before.cursor, request.limit);
        if page.None? then before
        else Progress(page.value.chunks + before.chunks, page.value.nextSequence, page.value.complete)
  }

  lemma PayloadsConcat(all: seq<Record>, i: nat, j: nat, k: nat)
    requires i <= j <= k <= |all|
    ensures Payloads(all[i..j]) + Payloads(all[j..k]) == Payloads(all[i..k])
    ensures |Payloads(all[i..j])| == j - i && |Payloads(all[i..k])| == k - i
  {
  }

  /**
    Walking forward, what has been received is always the front of the history, once and in
    order, up to the cursor; it is all of it exactly when the last page said so; and a page
    that did not say so brought something new.
  */
  lemma {:induction false} ForwardReceivesPrefix(requests: seq<Request>, histories: seq<seq<Record>>)
    requires Growing(requests, histories) && requests != []
    ensures var walk := ForwardWalk(requests); var all := histories[|histories| - 1]; var m := |walk.chunks|;
      && m <= |all| && walk.chunks == Payloads(all[..m]) && walk.cursor == LastOf(all[..m])
      && (walk.complete <==> walk.chunks == Payloads(all))
      && (!walk.complete ==> m > |ForwardWalk(requests[..|requests| - 1]).chunks|)
  {
    hide Stored, ReadForward, Payloads, ForwardWalk;
    var init := |requests| - 1;
    var all, before := histories[init], ForwardWalk(requests[..init]);
    var m := |before.chunks|;
    if init > 0 {
      ForwardReceivesPrefix(requests[..init], histories[..init]);
      assert histories[init - 1] <= all;
      assert m <= |all| && histories[init - 1][..m] == all[..m];
    }
    ForwardWalkStep(requests);
    assert before.chunks == Payloads(all[..m]) && before.cursor == LastOf(all[..m]) by {
      if init == 0 {
        assert requests[..init] == [] && all[..0] == all[0..0];
        PayloadsConcat(all, 0, 0, 0);
      }
    }
    var n := ForwardStep(requests[init].snap, all, m, requests[init].limit);
    PayloadsConcat(all, 0, m, m + n);
    PayloadsConcat(all, 0, |all|, |all|);
    assert all[0..m + n] == all[..m + n] && all[0..m] == all[..m] && all[0..|all|] == all;
  }

  lemma ForwardWalkStep(requests: seq<Request>)
    requires requests != []
    ensures var before, request := ForwardWalk(requests[..|requests| - 1]), requests[|requests| - 1];
      var page := ReadForward(request.snap, before.cursor, request.limit);
      page.Some? ==> ForwardWalk(requests) == Progress(before.chunks + page.value.chunks, page.value.nextSequence, page.value.complete)
    ensures ForwardWalk([]) == Progress([], 0, false)
  {
    hide ReadForward;
  }

  /** Over a history that stands still, the forward walk is over within one request per record and one more. */
  lemma {:induction false} ForwardWalkEnds(requests: seq<Request>, all: seq<Record>)
    requires forall i :: 0 <= i < |requests| ==> Stored(requests[i].snap, all)
    requires |requests| > |all|
    ensures ForwardWalk(requests) == Progress(Payloads(all), LastOf(all), true)
  {
    hide Stored, ReadForward, Payloads, ForwardWalk;
    ForwardProgress(requests, all);
    ForwardReceivesPrefix(requests, seq(|requests|, _ => all));
    PayloadsConcat(all, 0, |all|, |all|);
    assert all[0..|all|] == all && all[..|all|] == all;
  }

  lemma {:induction false} ForwardProgress(requests: seq<Request>, all: seq<Record>)
    requires forall i :: 0 <= i < |requests| ==> Stored(requests[i].snap, all)
    ensures |ForwardWalk(requests).chunks| >= (if |requests| < |all| then |requests| else |all|)
  {
    hide Stored, ReadForward, Payloads, ForwardWalk;
    if requests != [] {
      ForwardProgress(requests[..|requests| - 1], all);
      ForwardReceivesPrefix(requests, seq(|requests|, _ => all));
      PayloadsConcat(all, 0, |all|, |all|);
      assert all[0..|all|] == all;
    }
  }

  /**
    Walking backward from the newest record, what has been received is always the end of the
    history the first request saw, whatever has been appended since; it is all of it exactly
    when the last page said so; and each page before that brought something new.
  */
  lemma {:induction false} BackwardReceivesSuffix(requests: seq<Request>, histories: seq<seq<Record>>)
    requires Growing(requests, histories) && requests != []
    ensures var walk := BackwardWalk(requests); var all := histories[0]; var m := |walk.chunks|;
      && m <= |all| && walk.chunks == Payloads(all[|all| - m..])
      && (walk.complete <==> walk.chunks == Payloads(all))
      && (!walk.complete ==> 0 < m < |all| && walk.cursor == all[|all| - m].sequence && m >= |requests|)
  {
    hide Stored, ReadBackward, Payloads, BackwardWalk;
    var init := |requests| - 1;
    var all, now, before := histories[0], histories[init], BackwardWalk(requests[..init]);
    var m := |before.chunks|;
    BackwardWalkStep(requests);
    AllPayloads(all);
    if init > 0 {
      BackwardReceivesSuffix(requests[..init], histories[..init]);
      assert all <= now;
    }
    if !before.complete {
      var n := BackwardExtends(requests[init], all, now, before);
    }
  }

  lemma AllPayloads(all: seq<Record>)
    ensures |Payloads(all)| == |all| && Payloads(all[|all|..]) == [] && all[0..] == all
  {
  }

  /** One more page puts the records just before the cursor in front of what has been received. */
  lemma BackwardExtends(request: Request, all: seq<Record>, now: seq<Record>, before: Progress) returns (n: nat)
    requires Stored(request.snap, now) && all <= now
    requires var m := |before.chunks|;
      m <= |all| && before.chunks == Payloads(all[|all| - m..])
      && (if m == 0 then all == now && before.cursor == 0 else before.cursor == all[|all| - m].sequence)
    ensures var m := |before.chunks|; var page := ReadBackward(request.snap, before.cursor, request.limit);
      && m + n <= |all| && (m < |all| ==> n > 0) && page.Some? && |page.value.chunks| == n
      && page.value.chunks + before.chunks == Payloads(all[|all| - m - n..])
      && (page.value.complete <==> m + n == |all|)
      && (m + n > 0 && n > 0 ==> page.value.nextSequence == all[|all| - m - n].sequence)
  {
    hide Stored, ReadBackward, Payloads;
    var low := |all| - |before.chunks|;
    n := BackwardStep(request.snap, now, low, before.cursor, request.limit);
    assert now[low - n..low] == all[low - n..low];
    PayloadsConcat(all, low - n, low, |all|);
    assert all[low..|all|] == all[low..] && all[low - n..|all|] == all[low - n..];
  }

  lemma BackwardWalkStep(requests: seq<Request>)
    requires requests != []
    ensures var before, request := BackwardWalk(requests[..|requests| - 1]), requests[|requests| - 1];
      var page := ReadBackward(request.snap, before.cursor, request.limit);
      if before.complete then BackwardWalk(requests) == before
      else page.Some? ==>
        BackwardWalk(requests) == Progress(page.value.chunks + before.chunks, page.value.nextSequence, page.value.complete)
    ensures BackwardWalk([]) == Progress([], 0, false)
  {
    hide ReadBackward;
  }

  /** The backward walk is over within one request per record of the history it started on, and one more. */
  lemma BackwardWalkEnds(requests: seq<Request>, histories: seq<seq<Record>>)
    requires Growing(requests, histories) && requests != [] && |requests| > |histories[0]|
    ensures BackwardWalk(requests).complete && BackwardWalk(requests).chunks == Payloads(histories[0])
  {
    hide Growing, BackwardWalk, Payloads;
    BackwardReceivesSuffix(requests, histories);
  }

  /** End to end: after any run of appends, flushes, crashes and openings, either walk returns what was appended and not dropped. */
  lemma WalksReturnWhatWasAppended(events: seq<Event>, requests: seq<Request>)
    requires NoWindow(events) && Run(events).Up?
    requires var a := Run(events);
      forall i :: 0 <= i < |requests| ==> requests[i].snap == Snapshot(a.disk.blocks, a.mem.blocks, a.mem.pending)
    requires |requests| > |Run(events).appended|
    ensures var a := Run(events);
      && a.dropped <= |a.appended|
      && ForwardWalk(requests).complete && ForwardWalk(requests).chunks == Payloads(a.appended[a.dropped..])
      && BackwardWalk(requests).complete && BackwardWalk(requests).chunks == Payloads(a.appended[a.dropped..])
  {
    hide Live, Stored, ForwardWalk, BackwardWalk, Payloads, Run, NoWindow;
    RunKeeps(events);
    var a := Run(events);
    var whole :| Live(a.disk, a.mem, whole, History(a));
    LiveIsStored(a.disk, a.mem, whole, History(a));
    ForwardWalkEnds(requests, History(a));
    BackwardWalkEnds(requests, seq(|requests|, _ => History(a)));
  }

  // ----- the loops that read a page -----

  method SelectBlocks(snap: Snapshot, after: nat) returns (selected: Option<seq<Record>>)
    ensures selected == ReadAfter(snap.files, snap.blocks, after)
  {
    hide ReadAfter, ReadBlock;
    var records: seq<Record> := [];
    assert snap.blocks[0..] == snap.blocks;
    SelectStart(ReadAfter(snap.files, snap.blocks, after));
    for i := 0 to |snap.blocks|
      invariant ReadAfter(snap.files, snap.blocks, after) == Prepend(records, ReadAfter(snap.files, snap.blocks[i..], after))
    {
      SelectStep(snap.files, snap.blocks[i..], after, records);
      assert snap.blocks[i..][1..] == snap.blocks[i + 1..];
      if snap.blocks[i].last > after {
        var block := DecodeFile(snap.files, snap.blocks[i]);
        if block.None? {
          return None;
        }
        records := records + block.value;
      }
    }
    SelectStep(snap.files, snap.blocks[|snap.blocks|..], after, records);
    selected := Some(records);
  }

  method DecodeFile(files: map<Name, seq<byte>>, e: BlockEntry) returns (records: Option<seq<Record>>)
    ensures records == ReadBlock(files, e)
  {
    if NameOf(e) in files {
      records := DecodeRecords(files[NameOf(e)]);
    } else {
      records := None;
    }
  }

  lemma SelectStart(rest: Option<seq<Record>>)
    ensures Prepend([], rest) == rest
  {
    if rest.Some? { assert [] + rest.value == rest.value; }
  }

  lemma SelectStep(files: map<Name, seq<byte>>, blocks: seq<BlockEntry>, after: nat, records: seq<Record>)
    ensures blocks == [] ==> Prepend(records, ReadAfter(files, blocks, after)) == Some(records)
    ensures blocks != [] ==>
              var block := ReadBlock(files, blocks[0]);
              Prepend(records, ReadAfter(files, blocks, after)) ==
              if blocks[0].last <= after then Prepend(records, ReadAfter(files, blocks[1..], after))
              else if block.None? then None
              else Prepend(records + block.value, ReadAfter(files, blocks[1..], after))
  {
    hide ReadBlock;
    if blocks == [] {
      assert records + [] == records;
    } else {
      var block, rest := ReadBlock(files, blocks[0]), ReadAfter(files, blocks[1..], after);
      if block.Some? && rest.Some? { assert records + (block.value + rest.value) == records + block.value + rest.value; }
    }
  }

  method ReadPage(snap: Snapshot, after: nat, limit: nat) returns (page: Option<Page>)
    ensures page == ReadForward(snap, after, limit)
  {
    hide After, Fill, ReadAfter, Payloads, ForwardPage;
    var newest := Newest(snap, after);
    var flushed := SelectBlocks(snap, after);
    if flushed.None? {
      return None;
    }
    var result := FillPage(flushed.value + snap.pending, after, newest, limit);
    page := Some(result);
  }

  method FillPage(selected: seq<Record>, after: nat, newest: nat, limit: nat) returns (page: Page)
    ensures page == ForwardPage(selected, after, newest, limit)
  {
    hide After, Fill, Payloads, ForwardPage, LastOf;
    var chunks: seq<seq<byte>>, bytes: nat, first: nat, last: nat := [], 0, 0, after;
    ghost var rest, taken: seq<Record> := After(selected, after), [];
    assert selected[0..] == selected && [] + rest == rest;
    PageEmpty();
    for i := 0 to |selected|
      invariant rest == taken + After(selected[i..], after)
      invariant Fill(rest, 0, limit, false) == |taken| + Fill(After(selected[i..], after), bytes, limit, taken != [])
      invariant chunks == Payloads(taken) && |chunks| == |taken|
      invariant first == (if taken == [] then 0 else taken[0].sequence) && (taken != [] ==> first > 0)
      invariant last == (if taken == [] then after else LastOf(taken))
    {
      var record := selected[i];
      assert selected[i..][1..] == selected[i + 1..];
      AfterHead(selected[i..], after);
      if record.sequence <= after {
        continue;
      }
      var size := |record.data|;
      FillStep(record, After(selected[i + 1..], after), bytes, limit, taken != []);
      TakenPush(taken, record, After(selected[i + 1..], after));
      if chunks != [] && bytes + size > limit {
        PageDone(selected, after, newest, limit, taken);
        return Page(chunks, first, last, last, false);
      }
      if first == 0 {
        first := record.sequence;
      }
      taken := taken + [record];
      bytes := bytes + size;
      last := record.sequence;
      chunks := chunks + [record.data];
    }
    AfterHead(selected[|selected|..], after);
    assert taken + [] == taken;
    FillNothing(bytes, limit, taken != []);
    PageDone(selected, after, newest, limit, taken);
    page := Page(chunks, first, last, last, last >= newest);
  }

  lemma PageEmpty()
    ensures Payloads([]) == []
  {
  }

  lemma FillStep(record: Record, rest: seq<Record>, used: nat, limit: nat, started: bool)
    ensures Fill([record] + rest, used, limit, started) ==
            if started && used + |record.data| > limit then 0 else 1 + Fill(rest, used + |record.data|, limit, true)
  {
    hide DataBytes;
    assert ([record] + rest)[1..] == rest;
  }

  lemma FillNothing(used: nat, limit: nat, started: bool)
    ensures Fill([], used, limit, started) == 0
  {
  }

  lemma TakenPush(taken: seq<Record>, record: Record, rest: seq<Record>)
    ensures taken + ([record] + rest) == taken + [record] + rest
    ensures Payloads(taken + [record]) == Payloads(taken) + [record.data]
    ensures LastOf(taken + [record]) == record.sequence && taken + [record] != []
    ensures (taken + [record])[0] == if taken == [] then record else taken[0]
    ensures taken <= taken + ([record] + rest)
  {
  }

  lemma PageDone(selected: seq<Record>, after: nat, newest: nat, limit: nat, taken: seq<Record>)
    requires var rest := After(selected, after);
      taken <= rest && Fill(rest, 0, limit, false) == |taken|
    ensures var last := if taken == [] then after else LastOf(taken);
      ForwardPage(selected, after, newest, limit) ==
      Page(Payloads(taken), if taken == [] then 0 else taken[0].sequence, last, last,
           taken == After(selected, after) && last >= newest)
  {
    hide After, Fill, Payloads;
    var rest := After(selected, after);
    assert rest[..|taken|] == taken;
  }

  method ReadPageReverse(snap: Snapshot, before: nat, limit: nat) returns (page: Option<Page>)
    ensures page == ReadBackward(snap, before, limit)
  {
    hide TakeBack, TakeBlocks, ReadBlock, Payloads, Newest, DataBytes;
    var ceiling := Ceiling(snap, before);
    NoBytes();
    var selected, bytes, complete := TakeRecords(snap.pending, ceiling, limit, [], 0);
    ghost var pending := selected;
    var i := |snap.blocks|;
    assert snap.blocks[..i] == snap.blocks;
    while complete && i > 0
      invariant 0 <= i <= |snap.blocks| && bytes == DataBytes(selected)
      invariant (if complete then TakeBlocks(snap.files, snap.blocks[..i], ceiling, limit, selected) else Some((selected, false)))
             == (if TakeBack(snap.pending, ceiling, limit, []).1
                 then TakeBlocks(snap.files, snap.blocks, ceiling, limit, pending) else Some((pending, false)))
      decreases i
    {
      i := i - 1;
      TakeBlocksStep(snap.files, snap.blocks[..i + 1], ceiling, limit, selected);
      assert snap.blocks[..i + 1][..i] == snap.blocks[..i];
      if snap.blocks[i].first <= ceiling {
        var block := DecodeFile(snap.files, snap.blocks[i]);
        if block.None? {
          return None;
        }
        selected, bytes, complete := TakeRecords(block.value, ceiling, limit, selected, bytes);
      }
    }
    TakeBlocksStep(snap.files, snap.blocks[..i], ceiling, limit, selected);
    page := Some(BackwardPage(selected, complete));
  }

  /** From the end of `records`, skipping those above the ceiling, until one does not fit. */
  method TakeRecords(records: seq<Record>, ceiling: nat, limit: nat, taken: seq<Record>, used: nat)
    returns (selected: seq<Record>, bytes: nat, complete: bool)
    requires used == DataBytes(taken)
    ensures (selected, complete) == TakeBack(records, ceiling, limit, taken)
    ensures bytes == DataBytes(selected)
  {
    hide TakeBack, DataBytes;
    selected, bytes, complete := taken, used, true;
    var i := |records|;
    assert records[..i] == records;
    while i > 0
      invariant 0 <= i <= |records| && bytes == DataBytes(selected)
      invariant TakeBack(records[..i], ceiling, limit, selected) == TakeBack(records, ceiling, limit, taken)
      decreases i
    {
      i := i - 1;
      var record := records[i];
      assert records[..i + 1] == records[..i] + [record];
      TakeBackConcat(records[..i], [record], ceiling, limit, selected);
      TakeOne(record, ceiling, limit, selected);
      if record.sequence > ceiling {
        continue;
      }
      var size := |record.data|;
      if selected != [] && bytes + size > limit {
        return selected, bytes, false;
      }
      DataBytesConcat([record], selected);
      bytes := bytes + size;
      selected := [record] + selected;
    }
    TakeNone(ceiling, limit, selected);
    assert records[..i] == [];
  }

  lemma TakeOne(record: Record, ceiling: nat, limit: nat, taken: seq<Record>)
    ensures TakeBack([record], ceiling, limit, taken) ==
            if record.sequence > ceiling then (taken, true)
            else if taken != [] && DataBytes(taken) + |record.data| > limit then (taken, false)
            else ([record] + taken, true)
    ensures DataBytes([record]) == |record.data|
  {
    hide FillBack, DataBytes, Upto, TakeBack;
    OneRecordOnly(record, ceiling);
    TakeBackIs([record], ceiling, limit, taken);
    assert [] + taken == taken;
    if record.sequence <= ceiling {
      FillBackOne(record, DataBytes(taken), limit, taken != []);
      OneSlice(record);
    } else {
      FillBackStep([], DataBytes(taken), limit, taken != []);
    }
  }

  lemma FillBackOne(record: Record, used: nat, limit: nat, some: bool)
    ensures FillBack([record], used, limit, some) == if some && used + |record.data| > limit then 0 else 1
  {
    hide FillBack, DataBytes;
    FillBackStep([record], used, limit, some);
    FillBackStep([], used + |record.data|, limit, true);
    assert [record][..0] == [];
  }

  lemma OneSlice(record: Record)
    ensures [record][..0] == [] && [record][1..] == [] && [record][0..] == [record]
  {
  }

  lemma TakeBackIs(records: seq<Record>, ceiling: nat, limit: nat, taken: seq<Record>)
    ensures var below := Upto(records, ceiling); var n := FillBack(below, DataBytes(taken), limit, taken != []);
      TakeBack(records, ceiling, limit, taken) == (below[|below| - n..] + taken, n == |below|)
  {
    hide FillBack, DataBytes, Upto;
  }

  lemma OneRecordOnly(record: Record, ceiling: nat)
    ensures Upto([record], ceiling) == if record.sequence <= ceiling then [record] else []
    ensures DataBytes([record]) == |record.data|
  {
    assert [record][1..] == [] && Upto([], ceiling) == [];
  }

  lemma TakeNone(ceiling: nat, limit: nat, taken: seq<Record>)
    ensures TakeBack([], ceiling, limit, taken) == (taken, true)
  {
    assert [] + taken == taken;
  }
}
