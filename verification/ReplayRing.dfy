/** The owner's replay ring and checkpoint, and what an attaching client is given. */
module ReplayRing {
  import opened Wrappers
  import opened Bytes

  const MAX_REPLAY_BYTES: nat := 2 * 1024 * 1024
  const EXITED_REPLAY_BYTES: nat := 256 * 1024
  const CHECKPOINT_BYTES: nat := 512 * 1024
  /** The reader's buffer: no chunk is longer. */
  const READ_BUFFER_BYTES: nat := 64 * 1024

  datatype Chunk = Chunk(sequence: nat, data: seq<byte>)

  /** `checkpoint` is the stored checkpoint's sequence; `recording` is whether the host records checkpoints at all. */
  datatype Ring = Ring(sequence: nat, replay: seq<Chunk>, replayBytes: nat, truncated: bool,
                       checkpoint: Option<nat>, bytesSince: nat, recording: bool)

  datatype Quality = Exact | FromCheckpoint | Degraded

  datatype Attachment = Attachment(quality: Quality, checkpoint: Option<nat>, chunks: seq<seq<byte>>,
                                   replayTruncated: bool, lastSequence: nat)

  function Total(chunks: seq<seq<byte>>): nat {
    if chunks == [] then 0 else |chunks[0]| + Total(chunks[1..])
  }

  // ----- the operations -----

  function Trimmed(ring: Ring, limit: nat): Ring
    decreases |ring.replay|
  {
    if ring.replayBytes > limit && |ring.replay| > 1 then
      var size := |ring.replay[0].data|;
      Trimmed(ring.(replay := ring.replay[1..], truncated := true,
                    replayBytes := if size <= ring.replayBytes then ring.replayBytes - size else 0), limit)
    else ring
  }

  function Checkpointed(ring: Ring): Ring {
    if ring.recording then ring.(checkpoint := Some(ring.sequence), bytesSince := 0) else ring
  }

  function Pushed(ring: Ring, data: seq<byte>): Ring {
    ring.(sequence := ring.sequence + 1, replay := ring.replay + [Chunk(ring.sequence + 1, data)],
          replayBytes := ring.replayBytes + |data|)
  }

  /** One chunk of output; `due` says the checkpoint interval has elapsed. */
  function Emitted(ring: Ring, data: seq<byte>, due: bool): Ring {
    var kept := Trimmed(Pushed(ring, data), MAX_REPLAY_BYTES);
    if !kept.recording then kept
    else
      var counted := kept.(bytesSince := kept.bytesSince + |data|);
      if counted.bytesSince >= CHECKPOINT_BYTES || due then Checkpointed(counted) else counted
  }

  function Exited(ring: Ring): Ring {
    Trimmed(Checkpointed(ring), EXITED_REPLAY_BYTES)
  }

  /** The last chunks that fit in `limit` bytes, and always one. */
  function Tail(chunks: seq<seq<byte>>, limit: nat): seq<seq<byte>> {
    chunks[TailStart(chunks, |chunks|, 0, limit)..]
  }

  function TailStart(chunks: seq<seq<byte>>, start: nat, total: nat, limit: nat): (k: nat)
    requires start <= |chunks|
    ensures k <= start
  {
    if start == 0 || (start < |chunks| && total + |chunks[start - 1]| > limit) then start
    else TailStart(chunks, start - 1, total + |chunks[start - 1]|, limit)
  }

  function Floor(ring: Ring): nat {
    if ring.replay == [] then ring.sequence + 1 else ring.replay[0].sequence
  }

  /** The checkpoint an attach starts from: only for a client that lacks it, and only once the ring has dropped something. */
  function StartCheckpoint(ring: Ring, after: nat): Option<nat> {
    if ring.truncated && ring.checkpoint.Some? && after < ring.checkpoint.value then ring.checkpoint else None
  }

  function Greatest(a: nat, b: nat): nat {
    if a >= b then a else b
  }

  function StartPoint(ring: Ring, after: nat): nat {
    var checkpoint := StartCheckpoint(ring, after);
    if checkpoint.None? then after else Greatest(after, checkpoint.value)
  }

  function After(replay: seq<Chunk>, sequence: nat): seq<seq<byte>> {
    if replay == [] then []
    else (if replay[0].sequence > sequence then [replay[0].data] else []) + After(replay[1..], sequence)
  }

  function Attached(ring: Ring, after: nat, archiveAvailable: bool): Attachment {
    var checkpoint, start := StartCheckpoint(ring, after), StartPoint(ring, after);
    var degraded := ring.truncated && checkpoint.None? && after + 1 < Floor(ring);
    var chunks := After(ring.replay, start);
    Attachment(if checkpoint.Some? then FromCheckpoint else if degraded then Degraded else Exact, checkpoint,
               if archiveAvailable && start < ring.sequence then Tail(chunks, EXITED_REPLAY_BYTES) else chunks,
               ring.truncated && after + 1 < Floor(ring), ring.sequence)
  }

  // ----- runs -----

  datatype Event = Output(data: seq<byte>, due: bool) | Resize | Exit

  function Start(recording: bool): Ring {
    Ring(0, [], 0, false, None, 0, recording)
  }

  function Step(ring: Ring, e: Event): Ring {
    match e
    case Output(data, due) => Emitted(ring, data, due)
    case Resize => Checkpointed(ring)
    case Exit => Exited(ring)
  }

  function Run(recording: bool, events: seq<Event>): Ring {
    if events == [] then Start(recording) else Step(Run(recording, events[..|events| - 1]), events[|events| - 1])
  }

  /** Every chunk ever emitted. */
  function Emissions(events: seq<Event>): seq<seq<byte>> {
    if events == [] then []
    else Emissions(events[..|events| - 1]) + (match events[|events| - 1] case Output(data, _) => [data] case _ => [])
  }

  predicate FromReader(events: seq<Event>) {
    forall i :: 0 <= i < |events| && events[i].Output? ==> |events[i].data| <= READ_BUFFER_BYTES
  }

  // ----- what every run keeps -----

  /** The ring holds the last chunks emitted, and says so. */
  ghost predicate Holds(ring: Ring, all: seq<seq<byte>>) {
    && ring.sequence == |all| && |ring.replay| <= |all|
    && (forall i :: 0 <= i < |ring.replay| ==>
          ring.replay[i] == Chunk(|all| - |ring.replay| + i + 1, all[|all| - |ring.replay| + i]))
    && ring.replayBytes == Total(all[|all| - |ring.replay|..])
    && (ring.truncated <==> |ring.replay| < |all|)
    && (all != [] ==> ring.replay != [])
  }

  function Since(ring: Ring): nat {
    if ring.checkpoint.Some? then ring.checkpoint.value else 0
  }

  /** The bytes after the checkpoint are counted, and everything after it is still in the ring. */
  ghost predicate Covered(ring: Ring, all: seq<seq<byte>>, bound: nat) {
    ring.recording ==>
      && Since(ring) <= |all|
      && ring.bytesSince == Total(all[Since(ring)..]) < bound
      && (|ring.replay| < |all| ==> ring.checkpoint.Some? && |all| - |ring.replay| <= ring.checkpoint.value)
  }

  ghost predicate Inv(ring: Ring, all: seq<seq<byte>>) {
    && Holds(ring, all)
    && Covered(ring, all, CHECKPOINT_BYTES)
    && (!ring.recording ==> ring.checkpoint.None?)
    && ring.replayBytes <= MAX_REPLAY_BYTES
  }

  lemma {:induction false} TotalConcat(a: seq<seq<byte>>, b: seq<seq<byte>>)
    ensures Total(a + b) == Total(a) + Total(b)
  {
    if a == [] {
      assert a + b == b;
    } else {
      TotalConcat(a[1..], b);
      assert (a + b)[1..] == a[1..] + b;
    }
  }

  lemma TotalFrom(all: seq<seq<byte>>, i: nat, j: nat)
    requires i <= j <= |all|
    ensures Total(all[j..]) <= Total(all[i..])
    ensures i < |all| ==> Total(all[i..]) == |all[i]| + Total(all[i + 1..])
  {
    assert all[i..] == all[i..j] + all[j..];
    TotalConcat(all[i..j], all[j..]);
    if i < |all| { assert all[i..][1..] == all[i + 1..]; }
  }

  lemma TotalPush(all: seq<seq<byte>>, data: seq<byte>, i: nat)
    requires i <= |all|
    ensures Total((all + [data])[i..]) == Total(all[i..]) + |data|
  {
    assert (all + [data])[i..] == all[i..] + [data];
    TotalConcat(all[i..], [data]);
    assert Total([data]) == |data| by { assert [data][1..] == []; }
  }

  /** Trimming drops from the front only while the ring is over its limit, so never past what must stay. */
  lemma {:induction false} TrimHolds(ring: Ring, limit: nat, all: seq<seq<byte>>, needed: nat)
    requires Holds(ring, all) && needed <= |all| && |all| - |ring.replay| <= needed
    requires Total(all[needed..]) <= limit
    ensures var kept := Trimmed(ring, limit);
      && Holds(kept, all) && |all| - |kept.replay| <= needed
      && kept == ring.(replay := kept.replay, replayBytes := kept.replayBytes, truncated := kept.truncated)
      && (kept.replayBytes <= limit || |kept.replay| <= 1) && kept.replayBytes <= ring.replayBytes
    decreases |ring.replay|
  {
    hide Total;
    if ring.replayBytes > limit && |ring.replay| > 1 {
      var from := |all| - |ring.replay|;
      TotalFrom(all, from, needed);
      var size := |ring.replay[0].data|;
      assert ring.replay[0].data == all[from];
      if from == needed { assert false; }
      var next := ring.(replay := ring.replay[1..], truncated := true, replayBytes := ring.replayBytes - size);
      assert Holds(next, all);
      TrimHolds(next, limit, all, needed);
    }
  }

  lemma PushHolds(ring: Ring, all: seq<seq<byte>>, data: seq<byte>)
    requires Holds(ring, all)
    ensures Holds(Pushed(ring, data), all + [data])
  {
    hide Total;
    TotalPush(all, data, |all| - |ring.replay|);
  }

  lemma EmitKeeps(ring: Ring, all: seq<seq<byte>>, data: seq<byte>, due: bool)
    requires Inv(ring, all) && |data| <= READ_BUFFER_BYTES
    ensures Inv(Emitted(ring, data, due), all + [data])
  {
    hide Total, Holds, Trimmed;
    var after := all + [data];
    var needed := if ring.recording then Since(ring) else |all|;
    PushHolds(ring, all, data);
    TotalPush(all, data, needed);
    EmptyTotal(all, |all|);
    RingSize(ring, all);
    RingSize(Pushed(ring, data), after);
    TrimHolds(Pushed(ring, data), MAX_REPLAY_BYTES, after, needed);
    var kept := Trimmed(Pushed(ring, data), MAX_REPLAY_BYTES);
    RingSize(kept, after);
    LastAlone(kept, after);
    EmptyTotal(after, |after|);
    HoldsIgnoresCheckpoint(kept, after);
  }

  lemma EmptyTotal(all: seq<seq<byte>>, i: nat)
    requires i == |all|
    ensures Total(all[i..]) == 0
  {
  }

  lemma RingSize(ring: Ring, all: seq<seq<byte>>)
    requires Holds(ring, all)
    ensures ring.sequence == |all| && |ring.replay| <= |all| && (all != [] ==> ring.replay != [])
    ensures ring.truncated <==> |ring.replay| < |all|
  {
  }

  lemma LastAlone(ring: Ring, all: seq<seq<byte>>)
    requires Holds(ring, all) && all != []
    ensures |ring.replay| <= 1 ==> ring.replayBytes == |all[|all| - 1]|
  {
    if |ring.replay| <= 1 {
      var i := |all| - 1;
      assert |ring.replay| == 1 && all[|all| - |ring.replay|..] == [all[i]] && [all[i]][1..] == [];
      assert Total([all[i]]) == |all[i]| + Total([]);
    }
  }

  lemma HoldsIgnoresCheckpoint(ring: Ring, all: seq<seq<byte>>)
    requires Holds(ring, all)
    ensures forall checkpoint, since :: Holds(ring.(checkpoint := checkpoint, bytesSince := since), all)
  {
  }

  lemma CheckpointKeeps(ring: Ring, all: seq<seq<byte>>)
    requires Inv(ring, all)
    ensures Inv(Checkpointed(ring), all)
  {
    hide Total, Holds;
    EmptyTotal(all, |all|);
    RingSize(ring, all);
    HoldsIgnoresCheckpoint(ring, all);
  }

  lemma ExitKeeps(ring: Ring, all: seq<seq<byte>>)
    requires Inv(ring, all)
    ensures Inv(Exited(ring), all)
  {
    hide Total, Holds, Trimmed, Checkpointed;
    CheckpointKeeps(ring, all);
    var ready := Checkpointed(ring);
    CheckpointNow(ring);
    RingSize(ready, all);
    EmptyTotal(all, |all|);
    TrimHolds(ready, EXITED_REPLAY_BYTES, all, |all|);
    RingSize(Trimmed(ready, EXITED_REPLAY_BYTES), all);
  }

  lemma CheckpointNow(ring: Ring)
    ensures ring.recording ==> Checkpointed(ring).checkpoint == Some(ring.sequence)
    ensures Checkpointed(ring).recording == ring.recording && Checkpointed(ring).sequence == ring.sequence
  {
  }

  lemma {:induction false} RunKeeps(recording: bool, events: seq<Event>)
    requires FromReader(events)
    ensures Inv(Run(recording, events), Emissions(events)) && Run(recording, events).recording == recording
  {
    hide Inv, Emitted, Exited, Checkpointed;
    if events == [] {
      StartHolds(recording);
    } else {
      var init, e := events[..|events| - 1], events[|events| - 1];
      RunKeeps(recording, init);
      var ring, all := Run(recording, init), Emissions(init);
      SameRecording(ring, e);
      match e
      case Output(data, due) => EmitKeeps(ring, all, data, due);
      case Resize => CheckpointKeeps(ring, all); assert all + [] == all;
      case Exit => ExitKeeps(ring, all); assert all + [] == all;
    }
  }

  lemma StartHolds(recording: bool)
    ensures Inv(Start(recording), [])
  {
  }

  lemma {:induction false} SameRecording(ring: Ring, e: Event)
    ensures Step(ring, e).recording == ring.recording
  {
    hide Trimmed;
    if e.Output? { TrimSameRecording(Pushed(ring, e.data), MAX_REPLAY_BYTES); }
    if e.Exit? { TrimSameRecording(Checkpointed(ring), EXITED_REPLAY_BYTES); }
  }

  lemma {:induction false} TrimSameRecording(ring: Ring, limit: nat)
    ensures Trimmed(ring, limit).recording == ring.recording
    decreases |ring.replay|
  {
    if ring.replayBytes > limit && |ring.replay| > 1 {
      var size := |ring.replay[0].data|;
      TrimSameRecording(ring.(replay := ring.replay[1..], truncated := true,
                              replayBytes := if size <= ring.replayBytes then ring.replayBytes - size else 0), limit);
    }
  }

  // ----- attaching -----

  function Least(a: nat, b: nat): nat {
    if a <= b then a else b
  }

  /** Filtering the ring by sequence gives what was emitted after it, of what the ring still has. */
  lemma {:induction false} AfterIsSuffix(replay: seq<Chunk>, all: seq<seq<byte>>, from: nat, sequence: nat)
    requires from + |replay| == |all|
    requires forall i :: 0 <= i < |replay| ==> replay[i] == Chunk(from + i + 1, all[from + i])
    ensures After(replay, sequence) == all[Least(if sequence >= from then sequence else from, |all|)..]
    decreases |replay|
  {
    if replay != [] {
      AfterIsSuffix(replay[1..], all, from + 1, sequence);
      assert replay[0].data == all[from];
      if sequence <= from { assert all[from..] == [all[from]] + all[from + 1..]; }
    }
  }

  /**
    What any client is given at any time, with every chunk from the reader. Recording, the answer is
    exact or from a checkpoint, never degraded; not recording, it is degraded exactly when something
    the client lacks has been dropped. Unless degraded, the chunks chosen are exactly those emitted
    after the start point, which is the client's own unless a later checkpoint is given with them;
    with an archive, only their tail is sent.
  */
  lemma AttachIsWhole(recording: bool, events: seq<Event>, after: nat, archiveAvailable: bool)
    requires FromReader(events)
    ensures var ring, all := Run(recording, events), Emissions(events);
      var a, start := Attached(ring, after, archiveAvailable), StartPoint(ring, after);
      && a.lastSequence == |all|
      && (a.quality == Degraded <==> !recording && after < |all| - |ring.replay|)
      && (a.quality == FromCheckpoint <==> a.checkpoint.Some?)
      && (if a.checkpoint.Some? then after < a.checkpoint.value == start <= |all| else start == after)
      && (a.quality != Degraded ==>
            a.chunks == if archiveAvailable && start < |all| then Tail(all[start..], EXITED_REPLAY_BYTES)
                        else all[Least(start, |all|)..])
      && ring.replayBytes <= MAX_REPLAY_BYTES
  {
    hide Emissions, Run, After, Tail, Total, Trimmed;
    RunKeeps(recording, events);
    var ring, all := Run(recording, events), Emissions(events);
    AfterIsSuffix(ring.replay, all, |all| - |ring.replay|, StartPoint(ring, after));
  }

  // ----- the tail cut -----

  lemma {:induction false} TailStartExact(chunks: seq<seq<byte>>, start: nat, total: nat, limit: nat)
    requires start <= |chunks| && total == Total(chunks[start..])
    requires total <= limit || start == |chunks| || |chunks| - start == 1
    ensures var k := TailStart(chunks, start, total, limit);
      && (chunks != [] ==> k < |chunks|)
      && (Total(chunks[k..]) <= limit || |chunks| - k == 1)
      && (k > 0 ==> Total(chunks[k - 1..]) > limit)
  {
    hide Total;
    if start > 0 {
      TotalFrom(chunks, start - 1, start - 1);
      if start == |chunks| { EmptyTotal(chunks, start); }
      if !(start < |chunks| && total + |chunks[start - 1]| > limit) {
        TailStartExact(chunks, start - 1, total + |chunks[start - 1]|, limit);
      }
    } else {
      EmptyTotal(chunks, |chunks|);
    }
  }

  /** The tail is the longest suffix within the limit, or the last chunk alone when even that is over. */
  lemma TailIsLongest(chunks: seq<seq<byte>>, limit: nat)
    ensures exists k: nat :: k <= |chunks| && Tail(chunks, limit) == chunks[k..]
              && (chunks != [] ==> k < |chunks|)
              && (Total(chunks[k..]) <= limit || |chunks| - k == 1)
              && (k > 0 ==> Total(chunks[k - 1..]) > limit)
  {
    hide Total, TailStart;
    EmptyTotal(chunks, |chunks|);
    TailStartExact(chunks, |chunks|, 0, limit);
    var k := TailStart(chunks, |chunks|, 0, limit);
    assert Tail(chunks, limit) == chunks[k..];
  }

  /** So nothing is cut exactly when everything fits, or there is at most one chunk. */
  lemma UncutExactly(chunks: seq<seq<byte>>, limit: nat)
    ensures Tail(chunks, limit) == chunks <==> Total(chunks) <= limit || |chunks| <= 1
  {
    hide Total, TailStart, Tail;
    TailIsLongest(chunks, limit);
    var k: nat :| k <= |chunks| && Tail(chunks, limit) == chunks[k..] && (chunks != [] ==> k < |chunks|)
                  && (Total(chunks[k..]) <= limit || |chunks| - k == 1) && (k > 0 ==> Total(chunks[k - 1..]) > limit);
    if k == 0 {
      assert chunks[k..] == chunks;
    } else {
      TotalFrom(chunks, 0, k - 1);
      assert chunks[0..] == chunks && |chunks[k..]| < |chunks|;
    }
  }

  /** A short run: output that neither fills the ring nor is due for a checkpoint is only added. */
  lemma OnlyPushed(ring: Ring, data: seq<byte>)
    requires ring.recording && ring.replayBytes + |data| <= MAX_REPLAY_BYTES && ring.bytesSince + |data| < CHECKPOINT_BYTES
    ensures Emitted(ring, data, false) == Pushed(ring, data).(bytesSince := ring.bytesSince + |data|)
  {
  }

  const BLOCK: seq<byte> := seq(READ_BUFFER_BYTES, _ => 0)
  const FIVE_BLOCKS: seq<Event> := [Output(BLOCK, false), Output(BLOCK, false), Output(BLOCK, false), Output(BLOCK, false),
                                    Output(BLOCK, false)]

  lemma {:induction false} Blocks(n: nat)
    requires n <= 5
    ensures Emissions(FIVE_BLOCKS[..n]) == seq(n, _ => BLOCK) && Total(seq(n, _ => BLOCK)) == n * READ_BUFFER_BYTES
    ensures var ring := Run(true, FIVE_BLOCKS[..n]);
      && ring.recording && !ring.truncated && ring.sequence == n && ring.checkpoint.None?
      && ring.replayBytes == ring.bytesSince == n * READ_BUFFER_BYTES
  {
    hide Emitted, Total, BLOCK;
    BlockSize();
    if n == 0 {
      NoBytes();
      assert seq(0, _ => BLOCK) == [];
    } else {
      Blocks(n - 1);
      assert FIVE_BLOCKS[..n][..n - 1] == FIVE_BLOCKS[..n - 1];
      OnlyPushed(Run(true, FIVE_BLOCKS[..n - 1]), BLOCK);
      assert seq(n, _ => BLOCK) == seq(n - 1, _ => BLOCK) + [BLOCK];
      TotalPush(seq(n - 1, _ => BLOCK), BLOCK, 0);
      assert seq(n, _ => BLOCK)[0..] == seq(n, _ => BLOCK) && seq(n - 1, _ => BLOCK)[0..] == seq(n - 1, _ => BLOCK);
    }
  }

  lemma BlockSize()
    ensures |BLOCK| == READ_BUFFER_BYTES
  {
  }

  lemma NoBytes()
    ensures Total([]) == 0
  {
  }

  /** With an archive, a client that has nothing and attaches after five full chunks is told "exact" and not sent all of them. */
  lemma ArchiveCutLosesChunks()
    ensures var ring := Run(true, FIVE_BLOCKS); var a := Attached(ring, 0, true);
      a.quality == Exact && StartPoint(ring, 0) == 0 && |Emissions(FIVE_BLOCKS)| == 5 && a.chunks != Emissions(FIVE_BLOCKS)
  {
    hide Run, Emissions, Tail, After, Total, BLOCK;
    BlockSize();
    assert FIVE_BLOCKS[..5] == FIVE_BLOCKS;
    Blocks(5);
    AttachIsWhole(true, FIVE_BLOCKS, 0, true);
    var all := Emissions(FIVE_BLOCKS);
    assert all[0..] == all;
    UncutExactly(all, EXITED_REPLAY_BYTES);
  }

  // ----- the owner's state -----

  class EntryState {
    var sequence: nat
    var replay: seq<Chunk>
    var replayBytes: nat
    var truncated: bool
    var checkpoint: Option<nat>
    var bytesSince: nat
    const recording: bool

    function State(): Ring
      reads this
    {
      Ring(sequence, replay, replayBytes, truncated, checkpoint, bytesSince, recording)
    }

    constructor (recording: bool)
      ensures State() == Start(recording)
    {
      sequence, replay, replayBytes, truncated, checkpoint, bytesSince := 0, [], 0, false, None, 0;
      this.recording := recording;
    }

    method DropOldest(limit: nat)
      modifies `replay, `replayBytes, `truncated
      ensures State() == Trimmed(old(State()), limit)
    {
      while replayBytes > limit && |replay| > 1
        invariant Trimmed(State(), limit) == Trimmed(old(State()), limit)
        decreases |replay|
      {
        var size := |replay[0].data|;
        replay := replay[1..];
        replayBytes := if size <= replayBytes then replayBytes - size else 0;
        truncated := true;
      }
    }

    method StoreCheckpoint()
      modifies `checkpoint, `bytesSince
      ensures State() == Checkpointed(old(State()))
    {
      if recording {
        checkpoint, bytesSince := Some(sequence), 0;
      }
    }

    method ProcessOutput(data: seq<byte>, intervalElapsed: bool)
      modifies this
      ensures State() == Emitted(old(State()), data, intervalElapsed)
    {
      hide Trimmed;
      sequence := sequence + 1;
      replay := replay + [Chunk(sequence, data)];
      replayBytes := replayBytes + |data|;
      assert State() == Pushed(old(State()), data);
      TrimSameRecording(State(), MAX_REPLAY_BYTES);
      DropOldest(MAX_REPLAY_BYTES);
      if recording {
        bytesSince := bytesSince + |data|;
        if bytesSince >= CHECKPOINT_BYTES || intervalElapsed {
          StoreCheckpoint();
        }
      }
    }

    method ObserveExit()
      modifies this
      ensures State() == Exited(old(State()))
    {
      StoreCheckpoint();
      DropOldest(EXITED_REPLAY_BYTES);
    }

    method Attach(after: nat, archiveAvailable: bool) returns (a: Attachment)
      ensures a == Attached(State(), after, archiveAvailable)
    {
      hide After, Tail;
      var floor := if replay == [] then sequence + 1 else replay[0].sequence;
      var start: nat, given: Option<nat> := after, None;
      if checkpoint.Some? && truncated && after < checkpoint.value {
        given := checkpoint;
        start := Greatest(after, checkpoint.value);
      }
      var degraded := truncated && given.None? && after + 1 < floor;
      var chunks := SelectAfter(replay, start);
      if archiveAvailable && start < sequence {
        chunks := BoundedReplayTail(chunks, EXITED_REPLAY_BYTES);
      }
      a := Attachment(if given.Some? then FromCheckpoint else if degraded then Degraded else Exact, given, chunks,
                      truncated && after + 1 < floor, sequence);
    }
  }

  method SelectAfter(replay: seq<Chunk>, sequence: nat) returns (chunks: seq<seq<byte>>)
    ensures chunks == After(replay, sequence)
  {
    hide After;
    chunks := [];
    AfterStep(replay[|replay|..], sequence);
    for i := |replay| downto 0
      invariant chunks == After(replay[i..], sequence)
    {
      AfterStep(replay[i..], sequence);
      assert replay[i..][1..] == replay[i + 1..];
      if replay[i].sequence > sequence {
        chunks := [replay[i].data] + chunks;
      } else {
        assert [] + chunks == chunks;
      }
    }
    assert replay[0..] == replay;
  }

  lemma AfterStep(replay: seq<Chunk>, sequence: nat)
    ensures After(replay, sequence) ==
            if replay == [] then []
            else (if replay[0].sequence > sequence then [replay[0].data] else []) + After(replay[1..], sequence)
  {
  }

  method BoundedReplayTail(chunks: seq<seq<byte>>, maxBytes: nat) returns (tail: seq<seq<byte>>)
    ensures tail == Tail(chunks, maxBytes)
  {
    var total: nat, start: nat := 0, |chunks|;
    var index := |chunks|;
    while index > 0
      invariant start == index <= |chunks|
      invariant TailStart(chunks, |chunks|, 0, maxBytes) == TailStart(chunks, start, total, maxBytes)
    {
      index := index - 1;
      if start < |chunks| && total + |chunks[index]| > maxBytes {
        break;
      }
      start := index;
      total := total + |chunks[index]|;
    }
    tail := chunks[start..];
  }
}
