/** An attach reply and the live output after it, together: what the owner's ring sends, then what the connection delivers. */
module EndToEnd {
  import opened Bytes
  import opened Frames
  import opened Outbound
  import opened LiveDelivery
  import opened LiveDeliveryTheorems
  import opened AttachReplies
  import ReplayRing

  lemma ChunksStep(s: System, e: Event, id: Id)
    ensures Chunks(s, id) <= Chunks(Step(s, e), id)
  {
    hide Published, Attached, AttachAnswered, Taken, Detached;
  }

  lemma {:induction false} ChunksGrow(settings: Settings, events: seq<Event>, k: nat, id: Id)
    requires k <= |events|
    ensures Chunks(Run(Start(settings), events[..k]), id) <= Chunks(Run(Start(settings), events), id)
    decreases |events|
  {
    hide Step, Chunks;
    if k == |events| {
      assert events[..k] == events;
    } else {
      var init := events[..|events| - 1];
      assert init[..k] == events[..k];
      ChunksGrow(settings, init, k, id);
      ChunksStep(Run(Start(settings), init), events[|events| - 1], id);
    }
  }

  /**
    For every run in which a client reads an attach reply and what follows it, and every owner that had
    emitted what this one had when it answered: unless the reply is degraded, the chunks in the reply
    followed by the live chunks are exactly the owner's chunks after the start point, each once and in
    order, if and only if the reply's archive cut leaves them whole.
  */
  lemma ReplyThenLiveIsWhole(settings: Settings, events: seq<Event>, id: Id,
                             before: seq<OutboundFrame>, reply: OutboundFrame, after: seq<OutboundFrame>, k: nat,
                             recording: bool, owner: seq<ReplayRing.Event>, sent: nat, archiveAvailable: bool)
    requires Run(Start(settings), events).log == before + [reply] + after && Representable(Run(Start(settings), events))
    requires IsReply(reply, id) && reply.payload.message.snapshot.Some? && NoReply(after, id)
    requires SnapshotAt(settings, events, k, id, reply.payload.message.snapshot.value)
    requires ReplayRing.FromReader(owner) && ReplayRing.Emissions(owner) == Chunks(At(settings, events, k), id)
    ensures var ring, all, live := ReplayRing.Run(recording, owner), Chunks(Run(Start(settings), events), id), Payloads(after, id);
      var a, n := ReplayRing.Attached(ring, sent, archiveAvailable), reply.payload.message.snapshot.value;
      var start := ReplayRing.Least(ReplayRing.StartPoint(ring, sent), n);
      && a.lastSequence == n && n + |live| <= |all|
      && (a.quality.Degraded? ==> !recording)
      && (!a.quality.Degraded? ==>
            (a.chunks + live == all[start..n + |live|] <==>
             !archiveAvailable || n - start <= 1 || ReplayRing.Total(all[start..n]) <= ReplayRing.EXITED_REPLAY_BYTES))
  {
    hide Run, Payloads, Representable, Chunks, ReplayRing.Run, ReplayRing.Emissions, ReplayRing.FromReader,
         ReplayRing.Attached, ReplayRing.StartPoint, ReplayRing.Tail, ReplayRing.Total;
    var all, live := Chunks(Run(Start(settings), events), id), Payloads(after, id);
    var n := reply.payload.message.snapshot.value;
    ChunksGrow(settings, events, k, id);
    ClientReadsChunks(settings, events, id, before, reply, after);
    ReplayRing.AttachIsWhole(recording, owner, sent, archiveAvailable);
    var ring, answered := ReplayRing.Run(recording, owner), Chunks(Run(Start(settings), events[..k]), id);
    assert answered == all[..n];
    var a := ReplayRing.Attached(ring, sent, archiveAvailable);
    var start := ReplayRing.Least(ReplayRing.StartPoint(ring, sent), n);
    ContinuesIsSlice(live, all, n);
    if !a.quality.Degraded? {
      var chosen := all[start..n];
      assert chosen == answered[start..];
      ReplayRing.UncutExactly(chosen, ReplayRing.EXITED_REPLAY_BYTES);
      Appended(all, start, n, a.chunks, live);
    }
  }

  lemma ContinuesIsSlice(payloads: seq<seq<byte>>, chunks: seq<seq<byte>>, n: nat)
    requires ContinuesFrom(payloads, chunks, n) && n <= |chunks|
    ensures n + |payloads| <= |chunks| && payloads == chunks[n..n + |payloads|]
  {
    if payloads != [] {
      var last := |payloads| - 1;
      assert payloads[last] in payloads;
      assert n + last < |chunks|;
    }
  }

  lemma Appended(all: seq<seq<byte>>, start: nat, n: nat, chunks: seq<seq<byte>>, live: seq<seq<byte>>)
    requires start <= n && n + |live| <= |all| && live == all[n..n + |live|]
    ensures chunks + live == all[start..n + |live|] <==> chunks == all[start..n]
  {
    var whole := all[start..n + |live|];
    assert whole == all[start..n] + live;
    if chunks + live == whole {
      assert |chunks| == n - start;
      assert chunks == (chunks + live)[..n - start] && all[start..n] == whole[..n - start];
    }
  }
}
