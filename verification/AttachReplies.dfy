/** Where an attach reply's snapshot comes from, and which notices were left over when its attach began. */
module AttachReplies {
  import opened Wrappers
  import opened Bytes
  import opened Frames
  import opened Mailbox
  import opened Outbound
  import opened LiveDelivery
  import opened LiveDeliveryProof
  import opened LiveDeliveryTheorems
  import Wire

  // ----- an attach, from its beginning to its reply -----

  function At(settings: Settings, events: seq<Event>, k: nat): System
    requires k <= |events|
  {
    Run(Start(settings), events[..k])
  }

  /** Step `k` begins an attach of `id` while `count` of its notices are queued. */
  predicate BeginsAt(settings: Settings, events: seq<Event>, k: nat, id: Id, count: nat) {
    && k < |events| && events[k].BeginAttach? && events[k].id == id
    && At(settings, events, k).loop.Idle? && Notices(At(settings, events, k).conn.box.arrivals, id) == count
  }

  /** At step `k` the owner answers an attach of `id`, having emitted `n` chunks. */
  predicate SnapshotAt(settings: Settings, events: seq<Event>, k: nat, id: Id, n: nat) {
    && k < |events| && events[k] == OwnerSnapshot
    && At(settings, events, k).loop == Dispatching(id) && |Chunks(At(settings, events, k), id)| == n
  }

  predicate Attaching(loop: Loop, id: Id) {
    (loop.Dispatching? || loop.Snapped?) && loop.id == id
  }

  /** From step `k` to step `j` the socket loop is busy with one attach of `id`. */
  ghost predicate Busy(settings: Settings, events: seq<Event>, k: nat, j: nat, id: Id) {
    k < j <= |events| && forall i :: k < i <= j ==> Attaching(At(settings, events, i).loop, id)
  }

  /** The attach begun at `k` over `count` notices, with the owner's answer `n` at `m`, is replied to at `j`. */
  ghost predicate AnsweredAt(settings: Settings, events: seq<Event>, k: nat, m: nat, j: nat, id: Id, n: nat, count: nat) {
    && BeginsAt(settings, events, k, id, count) && k < m < j < |events| && SnapshotAt(settings, events, m, id, n)
    && events[j].AttachSucceeds? && Busy(settings, events, k, j, id)
  }

  ghost predicate Begun(settings: Settings, events: seq<Event>, k: nat, id: Id, count: nat) {
    BeginsAt(settings, events, k, id, count) && Busy(settings, events, k, |events|, id)
  }

  ghost predicate Snapshotted(settings: Settings, events: seq<Event>, k: nat, m: nat, id: Id, n: nat, count: nat) {
    Begun(settings, events, k, id, count) && k < m < |events| && SnapshotAt(settings, events, m, id, n)
  }

  // ----- one more step -----

  lemma AtLater(settings: Settings, init: seq<Event>, e: Event, k: nat)
    requires k <= |init|
    ensures At(settings, init + [e], k) == At(settings, init, k)
    ensures At(settings, init, |init|) == Run(Start(settings), init)
    ensures At(settings, init + [e], |init| + 1) == Step(Run(Start(settings), init), e)
  {
    hide Step;
    assert (init + [e])[..k] == init[..k] && init[..|init|] == init;
    assert (init + [e])[..|init| + 1] == init + [e];
  }

  lemma BegunLater(settings: Settings, init: seq<Event>, e: Event, k: nat, id: Id, count: nat)
    requires Begun(settings, init, k, id, count) && Attaching(Step(Run(Start(settings), init), e).loop, id)
    ensures Begun(settings, init + [e], k, id, count)
  {
    hide At, Step, Run, Notices;
    AtLater(settings, init, e, k);
    forall i | k < i <= |init| + 1
      ensures Attaching(At(settings, init + [e], i).loop, id)
    {
      if i <= |init| { AtLater(settings, init, e, i); }
    }
  }

  lemma BegunNow(settings: Settings, init: seq<Event>, e: Event)
    requires e.BeginAttach? && Run(Start(settings), init).loop.Idle?
    ensures Begun(settings, init + [e], |init|, e.id, Notices(Run(Start(settings), init).conn.box.arrivals, e.id))
  {
    hide At, Run, Notices, Attached;
    AtLater(settings, init, e, |init|);
  }

  lemma SnapshottedNow(settings: Settings, init: seq<Event>, k: nat, id: Id, count: nat)
    requires Begun(settings, init, k, id, count) && Run(Start(settings), init).loop == Dispatching(id)
    ensures Snapshotted(settings, init + [OwnerSnapshot], k, |init|, id, |Chunks(Run(Start(settings), init), id)|, count)
  {
    hide At, Run, Notices, Chunks, Begun;
    AtLater(settings, init, OwnerSnapshot, |init|);
    BegunLater(settings, init, OwnerSnapshot, k, id, count);
    BegunBefore(settings, init, k, id, count);
  }

  lemma BegunBefore(settings: Settings, events: seq<Event>, k: nat, id: Id, count: nat)
    requires Begun(settings, events, k, id, count)
    ensures k < |events|
  {
  }

  lemma SnapshottedLater(settings: Settings, init: seq<Event>, e: Event, k: nat, m: nat, id: Id, n: nat, count: nat)
    requires Snapshotted(settings, init, k, m, id, n, count) && Attaching(Step(Run(Start(settings), init), e).loop, id)
    ensures Snapshotted(settings, init + [e], k, m, id, n, count)
  {
    hide At, Run, Step, Chunks, Begun, Attaching;
    AtLater(settings, init, e, m);
    BegunLater(settings, init, e, k, id, count);
  }

  lemma AnsweredNow(settings: Settings, init: seq<Event>, e: Event, k: nat, m: nat, id: Id, n: nat, count: nat)
    requires Snapshotted(settings, init, k, m, id, n, count) && e.AttachSucceeds?
    ensures AnsweredAt(settings, init + [e], k, m, |init|, id, n, count)
  {
    hide At, Run, Step, Chunks, Notices, Attaching;
    AtLater(settings, init, e, k);
    AtLater(settings, init, e, m);
    forall i | k < i <= |init|
      ensures Attaching(At(settings, init + [e], i).loop, id)
    {
      AtLater(settings, init, e, i);
    }
  }

  lemma AnsweredLater(settings: Settings, init: seq<Event>, e: Event, k: nat, m: nat, j: nat, id: Id, n: nat, count: nat)
    requires AnsweredAt(settings, init, k, m, j, id, n, count)
    ensures AnsweredAt(settings, init + [e], k, m, j, id, n, count)
  {
    hide At, Run, Step, Chunks, Notices, Attaching;
    AtLater(settings, init, e, k);
    AtLater(settings, init, e, m);
    forall i | k < i <= j
      ensures Attaching(At(settings, init + [e], i).loop, id)
    {
      AtLater(settings, init, e, i);
    }
  }

  lemma AttachingStep(s: System, e: Event, id: Id)
    requires Attaching(Step(s, e).loop, id)
    ensures Step(s, e).stale == if Attaching(s.loop, id) then s.stale else Notices(s.conn.box.arrivals, id)
    ensures Attaching(s.loop, id) || (e.BeginAttach? && e.id == id && s.loop.Idle?)
    ensures Step(s, e).loop.Snapped? ==>
              s.loop == Step(s, e).loop
              || (e == OwnerSnapshot && s.loop == Dispatching(id) && Step(s, e).loop == Snapped(id, |Chunks(s, id)|))
  {
    hide Published, Attached, AttachAnswered, Taken, Detached, Notices;
  }

  // ----- every run -----

  lemma {:induction false} AttachingHasBegun(settings: Settings, events: seq<Event>, id: Id) returns (k: nat)
    requires Attaching(Run(Start(settings), events).loop, id)
    ensures Begun(settings, events, k, id, Run(Start(settings), events).stale)
  {
    hide Step, Begun, Notices;
    var init, e := events[..|events| - 1], events[|events| - 1];
    assert events == init + [e];
    var s := Run(Start(settings), init);
    AttachingStep(s, e, id);
    if Attaching(s.loop, id) {
      k := AttachingHasBegun(settings, init, id);
      BegunLater(settings, init, e, k, id, s.stale);
    } else {
      k := |init|;
      BegunNow(settings, init, e);
    }
  }

  lemma {:induction false} SnappedHasSnapshot(settings: Settings, events: seq<Event>) returns (k: nat, m: nat)
    requires Run(Start(settings), events).loop.Snapped?
    ensures var s := Run(Start(settings), events); Snapshotted(settings, events, k, m, s.loop.id, s.loop.snapshot, s.stale)
  {
    hide Step, Begun, Snapshotted, Notices;
    var init, e := events[..|events| - 1], events[|events| - 1];
    assert events == init + [e];
    var s, id := Run(Start(settings), init), Run(Start(settings), events).loop.id;
    AttachingStep(s, e, id);
    if s.loop == Step(s, e).loop {
      k, m := SnappedHasSnapshot(settings, init);
      SnapshottedLater(settings, init, e, k, m, id, s.loop.snapshot, s.stale);
    } else {
      k := AttachingHasBegun(settings, init, id);
      m := |init|;
      SnapshottedNow(settings, init, k, id, s.stale);
    }
  }

  /** Replies are committed only where the socket loop answers an attach. */
  lemma ReplyStep(s: System, e: Event, id: Id, f: OutboundFrame)
    requires AllCarry(s) && f in Committed(Step(s, e)) && f !in Committed(s)
    requires IsReply(f, id) && f.payload.message.snapshot.Some?
    ensures e.AttachSucceeds? && s.loop == Snapped(id, f.payload.message.snapshot.value) && f.payload.message.staleFences == s.stale
  {
    hide Carries, Step, Committed;
    if e.WriterTakes? {
      TakenWasQueued(s, id, f);
    } else if e.AttachSucceeds? || e.AttachFails? {
      AnswerCommits(s, e, f);
    } else {
      SameCommitted(s, e);
    }
  }

  lemma TakenWasQueued(s: System, id: Id, f: OutboundFrame)
    requires AllCarry(s) && f in Committed(Step(s, WriterTakes)) && IsReply(f, id)
    ensures f in Committed(s)
  {
    hide Carries;
    var t, box := Step(s, WriterTakes), s.conn.box;
    if f in s.log {
      CommittedMeans(s, f);
    } else if box.priority != [] && t.conn.box != box {
      assert PriorityFrames(box.priority) == [box.priority[0].frame] + PriorityFrames(box.priority[1..]);
    } else if t.conn.box != box {
      FirstIsNoReply(s, id);
    }
  }

  lemma FirstIsNoReply(s: System, id: Id)
    requires AllCarry(s) && s.conn.box.arrivals != []
    ensures !IsReply(s.conn.box.arrivals[0].frame, id)
  {
    hide Carries;
    assert s.conn.box.arrivals[0] in s.conn.box.arrivals;
  }

  lemma CommittedMeans(s: System, f: OutboundFrame)
    ensures f in Committed(s) <==> f in s.log || f in PriorityFrames(s.conn.box.priority)
  {
  }

  lemma AnswerCommits(s: System, e: Event, f: OutboundFrame)
    requires (e.AttachSucceeds? || e.AttachFails?) && f in Committed(Step(s, e)) && f !in Committed(s)
    ensures f.payload.Text? && f.payload.message.AttachReply?
    ensures f.payload.message.snapshot.Some? ==>
              e.AttachSucceeds? && s.loop == Snapped(f.payload.message.id, f.payload.message.snapshot.value)
    ensures f.payload.message.staleFences == s.stale
  {
    hide Without, FitsReliable, Acked, Notices;
    var t := Step(s, e);
    var box := s.conn.box;
    assert t.log == s.log;
    if t.conn.box.priority != box.priority {
      var reply := TextFrame(AttachReply(s.loop.id, if e.AttachSucceeds? then Some(s.loop.snapshot) else None, s.stale), e.size);
      assert t.conn.box.priority == box.priority + [Queued(reply, box.nextOrder)];
      assert PriorityFrames(t.conn.box.priority) == PriorityFrames(box.priority) + [reply];
    }
  }

  lemma SameCommitted(s: System, e: Event)
    requires !e.WriterTakes? && !e.AttachSucceeds? && !e.AttachFails?
    ensures Committed(Step(s, e)) == Committed(s)
  {
    hide FitsReliable, FitsLegacy, Wire.Encoded, Acked, CanReserve, Reserved, Notices;
    assert Step(s, e).log == s.log && Step(s, e).conn.box.priority == s.conn.box.priority;
  }

  lemma CommittedStart(settings: Settings)
    ensures Committed(Start(settings)) == []
  {
  }

  /** In every run, every attach reply the client is sent or will be sent answers one such attach. */
  lemma {:induction false} ReplyIsAnswer(settings: Settings, events: seq<Event>, id: Id, f: OutboundFrame)
    returns (k: nat, m: nat, j: nat)
    requires f in Committed(Run(Start(settings), events)) && IsReply(f, id) && f.payload.message.snapshot.Some?
    ensures AnsweredAt(settings, events, k, m, j, id, f.payload.message.snapshot.value, f.payload.message.staleFences)
  {
    hide Step, AnsweredAt, Snapshotted, Committed, AllCarry, Kept;
    if events == [] {
      CommittedStart(settings);
      assert false;
    }
    var init, e := events[..|events| - 1], events[|events| - 1];
    assert events == init + [e];
    var s := Run(Start(settings), init);
    var n, count := f.payload.message.snapshot.value, f.payload.message.staleFences;
    if f in Committed(s) {
      k, m, j := ReplyIsAnswer(settings, init, id, f);
      AnsweredLater(settings, init, e, k, m, j, id, n, count);
    } else {
      RunKeeps(settings, init);
      ReplyStep(s, e, id, f);
      k, m := SnappedHasSnapshot(settings, init);
      j := |init|;
      AnsweredNow(settings, init, e, k, m, id, n, count);
    }
  }

  /**
    In every run, every attach reply the client is sent answers an attach such that the chunks after the
    reply come first and at most one notice last, exactly when no notice of that terminal was queued as
    the attach began, or no more than one thing followed.
  */
  lemma OutputsFirstExactly(settings: Settings, events: seq<Event>, id: Id,
                            before: seq<OutboundFrame>, reply: OutboundFrame, after: seq<OutboundFrame>)
    requires Run(Start(settings), events).log == before + [reply] + after
    requires IsReply(reply, id) && reply.payload.message.snapshot.Some? && NoReply(after, id)
    ensures exists k: nat, m: nat, j: nat, count: nat ::
              && AnsweredAt(settings, events, k, m, j, id, reply.payload.message.snapshot.value, count)
              && (OutputsFirst(Seen(after, id)) <==> count == 0 || |Seen(after, id)| <= 1)
  {
    hide Run, Seen, OutputsFirst, AnsweredAt;
    var s := Run(Start(settings), events);
    assert s.log[|before|] == reply;
    CommittedMeans(s, reply);
    var k, m, j := ReplyIsAnswer(settings, events, id, reply);
    OutputsFirstByFences(settings, events, id, before, reply, after);
  }
}
