/** Exactly what the replay ring drops, where its checkpoint stands, and what an attach is given of them. */
module RingContents {
  import opened Wrappers
  import opened Bytes
  import opened ReplayRing

  /** The bytes a step trims the ring to, if it trims it at all. */
  function LimitOf(e: Event): Option<nat> {
    match e
    case Output(_, _) => Some(MAX_REPLAY_BYTES)
    case Resize => None
    case Exit => Some(EXITED_REPLAY_BYTES)
  }

  /** From `low` chunks dropped to `high`: as few as bring the rest within the limit, never the last one. */
  ghost predicate DropsLeast(all: seq<seq<byte>>, low: nat, high: nat, limit: nat) {
    && low <= high <= |all|
    && (high < |all| ==> Total(all[high..]) <= limit || |all| - high == 1)
    && (high > low ==> high < |all| && Total(all[high - 1..]) > limit)
  }

  /** Trimming's next step; `size` is what it takes off the count. */
  lemma DropOne(ring: Ring, limit: nat, all: seq<seq<byte>>) returns (next: Ring)
    requires Holds(ring, all) && ring.replayBytes > limit && |ring.replay| > 1
    ensures Holds(next, all) && |next.replay| == |ring.replay| - 1 && Trimmed(next, limit) == Trimmed(ring, limit)
    ensures next == ring.(replay := next.replay, replayBytes := next.replayBytes, truncated := next.truncated)
    ensures |ring.replay| <= |all| && Total(all[|all| - |ring.replay|..]) == ring.replayBytes
  {
    hide Total;
    var from, size := |all| - |ring.replay|, |ring.replay[0].data|;
    TotalFrom(all, from, from);
    assert ring.replay[0].data == all[from];
    next := ring.(replay := ring.replay[1..], truncated := true, replayBytes := ring.replayBytes - size);
  }

  lemma {:induction false} TrimsLeast(ring: Ring, limit: nat, all: seq<seq<byte>>)
    requires Holds(ring, all)
    ensures var kept := Trimmed(ring, limit);
      Holds(kept, all) && DropsLeast(all, |all| - |ring.replay|, |all| - |kept.replay|, limit)
      && kept == ring.(replay := kept.replay, replayBytes := kept.replayBytes, truncated := kept.truncated)
    decreases |ring.replay|
  {
    hide Total, Holds, Trimmed;
    RingSize(ring, all);
    HeldBytes(ring, all);
    if ring.replayBytes > limit && |ring.replay| > 1 {
      var next := DropOne(ring, limit, all);
      TrimsLeast(next, limit, all);
    } else {
      TrimmedAlready(ring, limit);
    }
  }

  lemma TrimmedAlready(ring: Ring, limit: nat)
    requires !(ring.replayBytes > limit && |ring.replay| > 1)
    ensures Trimmed(ring, limit) == ring
  {
  }

  lemma HeldBytes(ring: Ring, all: seq<seq<byte>>)
    requires Holds(ring, all)
    ensures |ring.replay| <= |all| && Total(all[|all| - |ring.replay|..]) == ring.replayBytes
  {
  }

  lemma EmitDrops(ring: Ring, all: seq<seq<byte>>, data: seq<byte>, due: bool)
    requires Inv(ring, all)
    ensures var next, after := Emitted(ring, data, due), all + [data];
      && |ring.replay| <= |all| && |next.replay| <= |after|
      && DropsLeast(after, |all| - |ring.replay|, |after| - |next.replay|, MAX_REPLAY_BYTES)
      && next.checkpoint == (if ring.recording && (due || Total(after[Least(Since(ring), |after|)..]) >= CHECKPOINT_BYTES)
                             then Some(|after|) else ring.checkpoint)
  {
    hide Total, Trimmed, Holds, DropsLeast;
    PushHolds(ring, all, data);
    TrimsLeast(Pushed(ring, data), MAX_REPLAY_BYTES, all + [data]);
    RingSize(ring, all);
    RingSize(Pushed(ring, data), all + [data]);
    RingSize(Trimmed(Pushed(ring, data), MAX_REPLAY_BYTES), all + [data]);
    if ring.recording { TotalPush(all, data, Since(ring)); }
  }

  lemma ExitDrops(ring: Ring, all: seq<seq<byte>>)
    requires Inv(ring, all)
    ensures var next := Exited(ring);
      && |ring.replay| <= |all| && |next.replay| <= |all|
      && DropsLeast(all, |all| - |ring.replay|, |all| - |next.replay|, EXITED_REPLAY_BYTES)
      && next.checkpoint == if ring.recording then Some(|all|) else ring.checkpoint
  {
    hide Total, Trimmed, Holds, DropsLeast;
    HoldsIgnoresCheckpoint(ring, all);
    TrimsLeast(Checkpointed(ring), EXITED_REPLAY_BYTES, all);
    RingSize(ring, all);
    RingSize(Trimmed(Checkpointed(ring), EXITED_REPLAY_BYTES), all);
  }

  /**
    What each step does to any ring the owner reaches. Output and the exit drop as few chunks as their limit
    needs; nothing else drops any. A checkpoint stands after the last chunk before a resize or the exit, and
    after one that is due or brings the bytes since the last checkpoint to 512 KiB; otherwise it stays.
  */
  lemma {:induction false} StepExactly(recording: bool, events: seq<Event>, e: Event)
    requires FromReader(events + [e])
    ensures var before, all := Run(recording, events), Emissions(events);
      var next, after := Run(recording, events + [e]), Emissions(events + [e]);
      && |before.replay| <= |all| && |next.replay| <= |after|
      && (if LimitOf(e).None? then next.replay == before.replay
          else DropsLeast(after, |all| - |before.replay|, |after| - |next.replay|, LimitOf(e).value))
      && (!recording ==> next.checkpoint.None?)
      && (recording ==>
            next.checkpoint == (if !e.Output? || e.due || Total(after[Least(Since(before), |after|)..]) >= CHECKPOINT_BYTES
                                then Some(|after|) else before.checkpoint))
  {
    hide Inv, Emitted, Exited, DropsLeast, Total;
    var now := events + [e];
    assert now[..|now| - 1] == events;
    ReaderPrefix(events, e);
    RunKeeps(recording, events);
    RunKeeps(recording, now);
    var ring, all := Run(recording, events), Emissions(events);
    NoCheckpoints(Run(recording, now), Emissions(now));
    Sizes(ring, all);
    match e
    case Output(data, due) => EmitDrops(ring, all, data, due);
    case Resize => assert all + [] == all;
    case Exit => ExitDrops(ring, all); assert all + [] == all;
  }

  lemma ReaderPrefix(events: seq<Event>, e: Event)
    requires FromReader(events + [e])
    ensures FromReader(events)
  {
    assert forall i :: 0 <= i < |events| ==> (events + [e])[i] == events[i];
  }

  lemma NoCheckpoints(ring: Ring, all: seq<seq<byte>>)
    requires Inv(ring, all)
    ensures !ring.recording ==> ring.checkpoint.None?
  {
  }

  lemma Sizes(ring: Ring, all: seq<seq<byte>>)
    requires Inv(ring, all)
    ensures ring.sequence == |all| && |ring.replay| <= |all| && (all != [] ==> ring.replay != [])
  {
  }

  /**
    What an attach says and sends, for any cursor and any ring the owner reaches: the checkpoint when something
    was dropped and the checkpoint is news to the client; that the replay is cut exactly when a chunk the client
    lacks was dropped; and every chunk after the start point the ring still has, or their tail.
  */
  lemma AttachExactly(recording: bool, events: seq<Event>, after: nat, archiveAvailable: bool)
    requires FromReader(events)
    ensures var ring, all := Run(recording, events), Emissions(events);
      var a, dropped := Attached(ring, after, archiveAvailable), |all| - |ring.replay|;
      var start := if a.checkpoint.Some? then a.checkpoint.value else after;
      && dropped >= 0
      && a.checkpoint == (if dropped > 0 && ring.checkpoint.Some? && after < ring.checkpoint.value then ring.checkpoint else None)
      && (a.replayTruncated <==> after < dropped)
      && (a.quality == Degraded <==> a.checkpoint.None? && after < dropped)
      && (a.quality == FromCheckpoint <==> a.checkpoint.Some?)
      && a.chunks == (var held := all[Least(Greatest(start, dropped), |all|)..];
                      if archiveAvailable && start < |all| then Tail(held, EXITED_REPLAY_BYTES) else held)
  {
    hide Emissions, Run, After, Tail, Total, Trimmed;
    RunKeeps(recording, events);
    var ring, all := Run(recording, events), Emissions(events);
    AfterIsSuffix(ring.replay, all, |all| - |ring.replay|, StartPoint(ring, after));
  }
}
