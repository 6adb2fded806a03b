/** Every step of the delivery system keeps its invariant; the stream theorems follow. */
module LiveDeliveryProof {
  import opened Wrappers
  import opened Bytes
  import opened Frames
  import opened Mailbox
  import opened Outbound
  import opened LiveDelivery
  import Wire

  // ----- what publishing one chunk does to the connection -----

  predicate SameShape(c: Conn, d: Conn) {
    && d.attaching == c.attaching && d.stopped == c.stopped
    && d.flow.Keys == c.flow.Keys && d.box.priority == c.box.priority
  }

  predicate Quiet(c: Conn, d: Conn, id: Id) {
    && d.box.arrivals == c.box.arrivals && d.replayRequired == c.replayRequired && d.close == c.close
    && (!Listens(c, id) || |id| >= U16)
  }

  predicate Noticed(c: Conn, d: Conn, id: Id) {
    && Listens(c, id) && d.replayRequired == c.replayRequired + {id} && d.close == c.close
    && |d.box.arrivals| == |c.box.arrivals| + 1
    && var a := d.box.arrivals[|c.box.arrivals|];
      d.box.arrivals == c.box.arrivals + [a] && IsNotice(a.frame, id) && a.lane == Reliable
      && a.frame.terminalId.None? && a.frame.terminalSequence.None?
  }

  predicate Refused(c: Conn, d: Conn, id: Id) {
    && Listens(c, id) && d.replayRequired == c.replayRequired + {id} && d.close.Some?
    && d.box.arrivals == c.box.arrivals
  }

  predicate Queued(c: Conn, d: Conn, chunk: LiveChunk) {
    && Listens(c, chunk.id) && d.replayRequired == c.replayRequired && d.close == c.close
    && |chunk.id| < U16
    && |d.box.arrivals| == |c.box.arrivals| + 1
    && var a := d.box.arrivals[|c.box.arrivals|];
      d.box.arrivals == c.box.arrivals + [a] && a.lane == Legacy
      && a.frame == TerminalOutput(chunk.id, chunk.sequence,
                      Wire.Encoded(chunk.eventSequence, chunk.sequence, chunk.id, chunk.data).value)
  }

  lemma FencedCases(c: Conn, id: Id, acknowledged: nat, size: nat)
    requires Listens(c, id)
    ensures var d := Fenced(c, id, acknowledged, size);
      SameShape(c, d) && (Noticed(c, d, id) || Refused(c, d, id))
  {
    hide FitsReliable;
  }

  lemma PublishedCases(c: Conn, settings: Settings, chunk: LiveChunk)
    ensures var d := Published(c, settings, chunk);
      && SameShape(c, d)
      && (Quiet(c, d, chunk.id) || Noticed(c, d, chunk.id) || Refused(c, d, chunk.id) || Queued(c, d, chunk))
  {
    hide FitsReliable, FitsLegacy, Fenced;
    if Listens(c, chunk.id) {
      var flow := c.flow[chunk.id];
      FencedCases(c, chunk.id, flow.acknowledged, chunk.noticeSize);
      var reserved := c.(flow := c.flow[chunk.id := Reserved(flow, chunk.sequence, |chunk.data|)]);
      FencedCases(reserved, chunk.id, flow.acknowledged, chunk.noticeSize);
    }
  }

  // ----- emitting -----

  function Extended(w: Watch, id: Id, before: seq<Arrival>, after: seq<Arrival>): Watch {
    if |after| == |before| + 1 then Observe(w, id, after[|before|].frame) else w
  }

  predicate Same(s: System, t: System) {
    t.log == s.log && t.loop == s.loop && t.stale == s.stale && t.subscribed == s.subscribed && t.settings == s.settings
  }

  /** The terminal that emitted: whatever the connection did with the chunk, its tail stays accounted for. */
  lemma EmitTail(s: System, e: Event, w: Watch)
    requires e.Emit? && TailKept(s, e.id, w)
    ensures var t := Step(s, e);
      TailKept(t, e.id, Extended(w, e.id, s.conn.box.arrivals, t.conn.box.arrivals))
  {
    hide Published;
    var chunk := LiveChunk(s.eventSequence + 1, e.id, |Chunks(s, e.id)| + 1, e.data, e.noticeSize);
    PublishedCases(s.conn, s.settings, chunk);
  }

  /** Another terminal's output or notice changes nothing here. */
  lemma EmitOther(s: System, e: Event, id: Id, w: Watch)
    requires e.Emit? && e.id != id && TailKept(s, id, w)
    ensures var t := Step(s, e);
      TailKept(t, id, w) && Extended(w, id, s.conn.box.arrivals, t.conn.box.arrivals) == w
  {
    hide Published;
    var chunk := LiveChunk(s.eventSequence + 1, e.id, |Chunks(s, e.id)| + 1, e.data, e.noticeSize);
    PublishedCases(s.conn, s.settings, chunk);
  }

  /** Emitting adds at most one arrival, which no snapshot taken so far covers. */
  lemma EmitAppends(s: System, e: Event)
    requires e.Emit?
    ensures var t := Step(s, e); var a, b := s.conn.box.arrivals, t.conn.box.arrivals;
      && Same(s, t) && SameShape(s.conn, t.conn)
      && (b == a || (|b| == |a| + 1 && b == a + [b[|a|]]
            && !IsReply(b[|a|].frame, e.id)
            && (forall id, n: nat :: b[|a|].lane == Legacy && b[|a|].frame.CoveredBy(id, n) ==>
                  id == e.id && n > |Chunks(s, e.id)|)))
  {
    hide Published;
    var chunk := LiveChunk(s.eventSequence + 1, e.id, |Chunks(s, e.id)| + 1, e.data, e.noticeSize);
    PublishedCases(s.conn, s.settings, chunk);
  }

  lemma EmitNotices(s: System, e: Event, id: Id)
    requires e.Emit? && NoticesKept(s, id)
    ensures NoticesKept(Step(s, e), id)
  {
    hide Published;
    var chunk := LiveChunk(s.eventSequence + 1, e.id, |Chunks(s, e.id)| + 1, e.data, e.noticeSize);
    PublishedCases(s.conn, s.settings, chunk);
    var a, b := s.conn.box.arrivals, Step(s, e).conn.box.arrivals;
    if |b| == |a| + 1 {
      assert b[..|a|] == a;
    }
  }

  lemma WatchAppends(s: System, t: System, id: Id)
    requires t.log == s.log && t.conn.box.priority == s.conn.box.priority
    requires var a, b := s.conn.box.arrivals, t.conn.box.arrivals;
      b == a || (|b| == |a| + 1 && b == a + [b[|a|]])
    ensures WatchOf(t, id) == Extended(WatchOf(s, id), id, s.conn.box.arrivals, t.conn.box.arrivals)
  {
    var a, b := s.conn.box.arrivals, t.conn.box.arrivals;
    if |b| == |a| + 1 {
      hide ObserveAll, Observe, ArrivalFrames;
      FramesPush(a, b[|a|]);
      ObservePush(Silent, id, Committed(s) + ArrivalFrames(a), b[|a|].frame);
      assert Committed(s) + (ArrivalFrames(a) + [b[|a|].frame]) == Committed(s) + ArrivalFrames(a) + [b[|a|].frame];
    }
  }

  lemma PromiseAppends(s: System, t: System, id: Id, n: nat)
    requires t.stale == s.stale
    requires var a, b := s.conn.box.arrivals, t.conn.box.arrivals;
      b == a || (|b| == |a| + 1 && b == a + [b[|a|]] && !(b[|a|].lane == Legacy && b[|a|].frame.CoveredBy(id, n)))
    ensures Promised(t, id, n) == Extended(Promised(s, id, n), id, s.conn.box.arrivals, t.conn.box.arrivals)
  {
    var a, b := s.conn.box.arrivals, t.conn.box.arrivals;
    if |b| == |a| + 1 {
      hide ObserveAll, Observe, ArrivalFrames, Without;
      WithoutPush(a, b[|a|], id, n);
      FramesPush(Without(a, id, n), b[|a|]);
      ObservePush(Live(n + 1, s.stale, false), id, ArrivalFrames(Without(a, id, n)), b[|a|].frame);
    }
  }

  lemma EmitKept(s: System, e: Event, id: Id)
    requires e.Emit? && LoopMatches(s) && Kept(s, id)
    ensures Kept(Step(s, e), id)
  {
    hide ObserveAll, Observe, ArrivalFrames, Without, Published, TailKept, NoticesKept, Extended, WatchOf, Promised;
    var t := Step(s, e);
    EmitAppends(s, e);
    WatchAppends(s, t, id);
    if id !in s.conn.attaching {
      if e.id == id { EmitTail(s, e, WatchOf(s, id)); } else { EmitOther(s, e, id, WatchOf(s, id)); }
    }
    if s.loop == Dispatching(id) {
      EmitNotices(s, e, id);
    }
    if s.loop.Snapped? && s.loop.id == id {
      PromiseAppends(s, t, id, s.loop.snapshot);
      var w := Promised(s, id, s.loop.snapshot);
      if e.id == id { EmitTail(s, e, w); } else { EmitOther(s, e, id, w); }
      ExtendedLive(s, t, e, id, w);
    }
  }

  lemma ExtendedLive(s: System, t: System, e: Event, id: Id, w: Watch)
    requires e.Emit? && t == Step(s, e) && w.Live?
    requires TailKept(t, id, Extended(w, id, s.conn.box.arrivals, t.conn.box.arrivals))
    ensures Extended(w, id, s.conn.box.arrivals, t.conn.box.arrivals).Live?
  {
    hide Published;
    EmitAppends(s, e);
    var chunk := LiveChunk(s.eventSequence + 1, e.id, |Chunks(s, e.id)| + 1, e.data, e.noticeSize);
    PublishedCases(s.conn, s.settings, chunk);
  }

  // ----- steps that only close doors -----

  /** Fewer chunks will be taken, and no fence is lifted or raised. */
  predicate Weaker(s: System, t: System, id: Id) {
    && Chunks(t, id) == Chunks(s, id)
    && (Delivering(t, id) ==> Delivering(s, id))
    && (t.conn.Open() && id in t.conn.flow && id in t.conn.replayRequired ==>
          s.conn.Open() && id in s.conn.flow && id in s.conn.replayRequired)
  }

  lemma WeakerTail(s: System, t: System, id: Id, w: Watch)
    requires Weaker(s, t, id) && TailKept(s, id, w)
    ensures TailKept(t, id, w)
  {
  }

  predicate SameQueue(s: System, t: System) {
    t.log == s.log && t.conn.box.priority == s.conn.box.priority && t.conn.box.arrivals == s.conn.box.arrivals
  }

  lemma WeakerKept(s: System, t: System, id: Id)
    requires Kept(s, id) && Weaker(s, t, id) && SameQueue(s, t) && t.stale == s.stale
    requires t.conn.attaching == s.conn.attaching
    requires t.loop == s.loop || (s.loop.Idle? && t.loop.Left?)
    ensures Kept(t, id)
  {
    hide ObserveAll, TailKept;
    if id !in s.conn.attaching {
      WeakerTail(s, t, id, WatchOf(s, id));
    }
    if s.loop.Snapped? && s.loop.id == id {
      WeakerTail(s, t, id, Promised(s, id, s.loop.snapshot));
    }
  }

  lemma AckKept(s: System, id: Id, x: Id, sequence: nat)
    requires Kept(s, id)
    ensures Kept(s.(conn := Acknowledged(s.conn, x, sequence)), id)
  {
    hide Acked;
    WeakerKept(s, s.(conn := Acknowledged(s.conn, x, sequence)), id);
  }

  lemma DetachKept(s: System, id: Id, x: Id)
    requires Kept(s, id) && s.loop.Idle? && LoopMatches(s)
    ensures Kept(s.(conn := Detached(s.conn, x), subscribed := s.subscribed - {x}), id)
  {
    WeakerKept(s, s.(conn := Detached(s.conn, x), subscribed := s.subscribed - {x}), id);
  }

  lemma OtherKept(s: System, id: Id, size: nat)
    requires Kept(s, id) && s.loop.Idle? && LoopMatches(s)
    ensures Kept(s.(conn := SendReliable(s.conn, TextFrame(Other, size))), id)
  {
    hide ObserveAll, ArrivalFrames, TailKept, FitsReliable;
    var t := s.(conn := SendReliable(s.conn, TextFrame(Other, size)));
    WatchAppends(s, t, id);
    WeakerTail(s, t, id, WatchOf(s, id));
  }

  // ----- attaching -----

  lemma BeginKept(s: System, id: Id, e: Event)
    requires Kept(s, id) && s.loop.Idle? && e.BeginAttach? && LoopMatches(s)
    ensures Kept(Step(s, e), id)
  {
    hide ObserveAll, TailKept;
    if id != e.id {
      WeakerTail(s, Step(s, e), id, WatchOf(s, id));
    }
  }

  lemma SnapshotKept(s: System, id: Id)
    requires Kept(s, id) && s.loop.Dispatching? && AllCarry(s) && LoopMatches(s)
    ensures Kept(Step(s, OwnerSnapshot), id)
  {
    hide ObserveAll, ArrivalFrames, Without;
    var t := Step(s, OwnerSnapshot);
    if s.loop.id == id {
      var n := |Chunks(s, id)|;
      forall i | 0 <= i < |s.conn.box.arrivals|
        ensures Settled(s.conn.box.arrivals[i], id, n)
      {
        assert s.conn.box.arrivals[i] in s.conn.box.arrivals;
        QueuedSettled(s, id, s.conn.box.arrivals[i], n);
      }
      OnlyNotices(id, s.conn.box.arrivals, n, n + 1, s.stale);
      assert Promised(t, id, n) == AfterNotices(n + 1, s.stale, Notices(s.conn.box.arrivals, id));
    } else {
      WeakerTail(s, t, id, WatchOf(s, id));
    }
  }

  lemma PushedCommitted(s: System, t: System, reply: OutboundFrame, order: nat)
    requires t.log == s.log && t.conn.box.priority == s.conn.box.priority + [Mailbox.Queued(reply, order)]
    ensures Committed(t) == Committed(s) + [reply]
  {
    assert PriorityFrames(t.conn.box.priority) == PriorityFrames(s.conn.box.priority) + [reply];
  }

  lemma SucceedKept(s: System, id: Id, size: nat)
    requires Kept(s, id) && s.loop.Snapped? && AllCarry(s) && LoopMatches(s)
    requires AttachFits(s.conn, TextFrame(AttachReply(s.loop.id, Some(s.loop.snapshot), s.stale), size))
    ensures Kept(Step(s, AttachSucceeds(size)), id)
  {
    hide ObserveAll, ArrivalFrames, Without, TailKept, Carries, Acked, FitsReliable, Committed;
    var x, n := s.loop.id, s.loop.snapshot;
    var reply := TextFrame(AttachReply(x, Some(n), s.stale), size);
    var t := Step(s, AttachSucceeds(size));
    PushedCommitted(s, t, reply, s.conn.box.nextOrder);
    var rest := ArrivalFrames(t.conn.box.arrivals);
    ObservePush(Silent, id, Committed(s), reply);
    ObserveConcat(Silent, id, Committed(t), rest);
    if id == x {
      WeakerTail(s, t, id, Promised(s, id, n));
    } else {
      DiscardUnseen(s, ObserveAll(Silent, id, Committed(s)), id, s.conn.box.arrivals, x, n);
      ObserveConcat(Silent, id, Committed(s), ArrivalFrames(s.conn.box.arrivals));
      WeakerTail(s, t, id, WatchOf(s, id));
    }
  }

  lemma {:induction false} SilentStays(s: System, id: Id, a: seq<Arrival>)
    requires forall i :: 0 <= i < |a| ==> !IsReply(a[i].frame, id)
    ensures ObserveAll(Silent, id, ArrivalFrames(a)) == Silent
  {
    if a != [] {
      SilentStays(s, id, a[..|a| - 1]);
      FramesLast(a);
      ObservePush(Silent, id, ArrivalFrames(a[..|a| - 1]), a[|a| - 1].frame);
    }
  }

  lemma FailKept(s: System, id: Id, size: nat)
    requires Kept(s, id) && (s.loop.Dispatching? || s.loop.Snapped?) && AllCarry(s) && LoopMatches(s)
    requires AttachFits(s.conn, TextFrame(AttachReply(s.loop.id, None, s.stale), size))
    ensures Kept(Step(s, AttachFails(size)), id)
  {
    hide ObserveAll, ArrivalFrames, TailKept, FitsReliable, Committed;
    var x := s.loop.id;
    var reply := TextFrame(AttachReply(x, None, s.stale), size);
    var t := Step(s, AttachFails(size));
    PushedCommitted(s, t, reply, s.conn.box.nextOrder);
    var rest := s.conn.box.arrivals;
    ObservePush(Silent, id, Committed(s), reply);
    ObserveConcat(Silent, id, Committed(t), ArrivalFrames(rest));
    if id == x {
      forall i | 0 <= i < |rest| ensures !IsReply(rest[i].frame, id) { assert rest[i] in rest; }
      SilentStays(s, id, rest);
      SilentTail(t, id);
    } else {
      ObserveConcat(Silent, id, Committed(s), ArrivalFrames(rest));
      WeakerTail(s, t, id, WatchOf(s, id));
    }
  }

  lemma SilentTail(s: System, id: Id)
    ensures TailKept(s, id, Silent)
  {
  }

  /** The mailbox refuses the reply: the loop ends and the writer stays fenced off for good. */
  lemma RefusedKept(s: System, id: Id, snapshot: Option<nat>, size: nat)
    requires Kept(s, id) && (s.loop.Dispatching? || s.loop.Snapped?) && LoopMatches(s)
    requires !AttachFits(s.conn, TextFrame(AttachReply(s.loop.id, snapshot, s.stale), size))
    ensures Kept(AnswerStep(s, s.loop.id, snapshot, size), id)
  {
    hide ObserveAll, ArrivalFrames, TailKept, FitsReliable;
    if id !in s.conn.attaching {
      WeakerTail(s, AnswerStep(s, s.loop.id, snapshot, size), id, WatchOf(s, id));
    }
  }

  // ----- the writer -----

  /** Taking the head moves it from the queue to the log: the whole stream is unchanged. */
  lemma TakeKept(s: System, id: Id)
    requires Kept(s, id) && LoopMatches(s)
    ensures Kept(Step(s, WriterTakes), id)
  {
    hide ObserveAll, TailKept;
    var t := Step(s, WriterTakes);
    if s.conn.attaching == {} && Head(s.conn.box).Some? {
      TakeMoves(s);
      WatchUnbroken(s, id);
      UnbrokenPrefix(Silent, id, Committed(t), ArrivalFrames(t.conn.box.arrivals));
      WeakerTail(s, t, id, WatchOf(s, id));
    } else {
      WeakerKept(s, t, id);
    }
  }

  lemma TakeMoves(s: System)
    requires s.conn.attaching == {} && Head(s.conn.box).Some?
    ensures var t := Step(s, WriterTakes);
      Committed(t) + ArrivalFrames(t.conn.box.arrivals) == Committed(s) + ArrivalFrames(s.conn.box.arrivals)
  {
    var t := Step(s, WriterTakes);
    var priority, arrivals := PriorityFrames(s.conn.box.priority), ArrivalFrames(s.conn.box.arrivals);
    if priority != [] {
      assert PriorityFrames(t.conn.box.priority) == priority[1..];
      assert s.log + priority == s.log + [priority[0]] + priority[1..];
    } else {
      assert ArrivalFrames(t.conn.box.arrivals) == arrivals[1..];
      assert s.log + arrivals == s.log + [arrivals[0]] + arrivals[1..];
    }
  }

  lemma WatchUnbroken(s: System, id: Id)
    requires Kept(s, id) && id !in s.conn.attaching
    ensures !WatchOf(s, id).Broken?
  {
  }

  // ----- the invariant holds in every run -----

  lemma StepKept(s: System, e: Event, id: Id)
    requires LoopMatches(s) && AllCarry(s) && Kept(s, id)
    ensures Kept(Step(s, e), id)
  {
    hide Kept, LoopMatches, AllCarry, AttachFits, AttachAnswered, Taken, Offered, Published;
    match e
    case Emit(_, _, _) => EmitKept(s, e, id);
    case BeginAttach(_, _, _) => if s.loop.Idle? { BeginKept(s, id, e); }
    case OwnerSnapshot => if s.loop.Dispatching? { SnapshotKept(s, id); }
    case AttachSucceeds(size) =>
      if s.loop.Snapped? {
        if AttachFits(s.conn, TextFrame(AttachReply(s.loop.id, Some(s.loop.snapshot), s.stale), size)) {
          SucceedKept(s, id, size);
        } else {
          RefusedKept(s, id, Some(s.loop.snapshot), size);
        }
      }
    case AttachFails(size) =>
      if s.loop.Dispatching? || s.loop.Snapped? {
        if AttachFits(s.conn, TextFrame(AttachReply(s.loop.id, None, s.stale), size)) {
          FailKept(s, id, size);
        } else {
          RefusedKept(s, id, None, size);
        }
      }
    case DetachTerminal(x) => if s.loop.Idle? { DetachKept(s, id, x); }
    case Ack(x, sequence) => if s.loop.Idle? { AckKept(s, id, x, sequence); }
    case SendOther(size) => if s.loop.Idle? { OtherKept(s, id, size); }
    case AskClose(_) => if s.loop.Idle? { WeakerKept(s, Step(s, e), id); }
    case LeaveLoop => if s.loop.Idle? { WeakerKept(s, Step(s, e), id); }
    case WriterStops => WeakerKept(s, Step(s, e), id);
    case WriterTakes => TakeKept(s, id);
  }

  lemma StepMatches(s: System, e: Event)
    requires LoopMatches(s)
    ensures LoopMatches(Step(s, e))
  {
    hide FitsReliable, Published, Acked, Discard;
    if e.Emit? {
      EmitAppends(s, e);
    }
  }

  lemma CarriesLater(s: System, t: System, f: OutboundFrame)
    requires Carries(s, f)
    requires forall id :: Chunks(s, id) <= Chunks(t, id)
    ensures Carries(t, f)
  {
    if f.payload.Binary? {
      var id, q := f.terminalId.value, f.terminalSequence.value;
      var event: nat :| IsEncoding(f.payload.data, event, q, id, Chunks(s, id));
      assert IsEncoding(f.payload.data, event, q, id, Chunks(t, id));
    }
  }

  lemma ChunksGrow(s: System, e: Event, id: Id)
    ensures Chunks(s, id) <= Chunks(Step(s, e), id)
  {
    hide AnswerStep, Published, Taken, Offered, SendReliable, Attached;
    if e.AttachSucceeds? || e.AttachFails? {
      AnswerChunks(s, None, e.size);
      if s.loop.Snapped? && e.AttachSucceeds? {
        AnswerChunks(s, Some(s.loop.snapshot), e.size);
      }
    }
  }

  lemma AnswerChunks(s: System, snapshot: Option<nat>, size: nat)
    ensures s.loop.Dispatching? || s.loop.Snapped? ==> AnswerStep(s, s.loop.id, snapshot, size).chunks == s.chunks
  {
  }

  lemma NewArrivalCarries(s: System, e: Event)
    requires e.Emit?
    ensures var t := Step(s, e); var a, b := s.conn.box.arrivals, t.conn.box.arrivals;
      |b| == |a| + 1 ==> QueuedWell(t, b[|a|])
  {
    hide Published;
    var chunk := LiveChunk(s.eventSequence + 1, e.id, |Chunks(s, e.id)| + 1, e.data, e.noticeSize);
    PublishedCases(s.conn, s.settings, chunk);
    var t := Step(s, e);
    if Queued(s.conn, t.conn, chunk) {
      assert IsEncoding(t.conn.box.arrivals[|s.conn.box.arrivals|].frame.payload.data,
                        chunk.eventSequence, chunk.sequence, e.id, Chunks(t, e.id));
    }
  }

  /** What a step can put in the queue or move to the log. */
  lemma StepArrivals(s: System, e: Event, a: Arrival)
    requires a in Step(s, e).conn.box.arrivals
    ensures a in s.conn.box.arrivals
         || (e.Emit? && |Step(s, e).conn.box.arrivals| == |s.conn.box.arrivals| + 1
             && a == Step(s, e).conn.box.arrivals[|s.conn.box.arrivals|])
         || (e.SendOther? && a.lane == Reliable && a.frame == TextFrame(Other, e.size))
  {
    hide FitsReliable, Acked, Published, Without, Head;
    if e.Emit? {
      EmitAppends(s, e);
    } else if e.AttachSucceeds? && s.loop.Snapped? {
      if a in Without(s.conn.box.arrivals, s.loop.id, s.loop.snapshot) {
        WithoutMembers(s.conn.box.arrivals, s.loop.id, s.loop.snapshot, a);
      }
    }
  }

  lemma StepCommitted(s: System, e: Event, f: OutboundFrame)
    requires f in Committed(Step(s, e))
    ensures f in Committed(s)
         || (exists a :: a in s.conn.box.arrivals && a.frame == f)
         || (f.payload.Text? && f.terminalId.None? && f.terminalSequence.None?)
  {
    hide FitsReliable, Acked, Published;
    var t := Step(s, e);
    if e.Emit? {
      EmitAppends(s, e);
    } else if e.AttachSucceeds? && s.loop.Snapped? {
      var reply := TextFrame(AttachReply(s.loop.id, Some(s.loop.snapshot), s.stale), e.size);
      if AttachFits(s.conn, reply) { PushedCommitted(s, t, reply, s.conn.box.nextOrder); }
    } else if e.AttachFails? && (s.loop.Dispatching? || s.loop.Snapped?) {
      var reply := TextFrame(AttachReply(s.loop.id, None, s.stale), e.size);
      if AttachFits(s.conn, reply) { PushedCommitted(s, t, reply, s.conn.box.nextOrder); }
    } else if e.WriterTakes? && s.conn.attaching == {} && Head(s.conn.box).Some? {
      TakeMoves(s);
      assert f in Committed(t) + ArrivalFrames(t.conn.box.arrivals);
      assert f in Committed(s) + ArrivalFrames(s.conn.box.arrivals);
      if f in ArrivalFrames(s.conn.box.arrivals) {
        var i :| 0 <= i < |s.conn.box.arrivals| && ArrivalFrames(s.conn.box.arrivals)[i] == f;
        assert s.conn.box.arrivals[i] in s.conn.box.arrivals;
      }
    }
  }

  lemma StepCarries(s: System, e: Event)
    requires AllCarry(s)
    ensures AllCarry(Step(s, e))
  {
    var t := Step(s, e);
    hide Step, Committed, Carries, Chunks;
    forall id ensures Chunks(s, id) <= Chunks(t, id) { ChunksGrow(s, e, id); }
    forall f | f in Committed(t)
      ensures Carries(t, f)
    {
      StepCommitted(s, e, f);
      if f.payload.Text? && f.terminalId.None? && f.terminalSequence.None? {
        TextCarries(t, f);
      } else {
        CarriesLater(s, t, f);
      }
    }
    forall a | a in t.conn.box.arrivals
      ensures QueuedWell(t, a)
    {
      StepArrivals(s, e, a);
      if a in s.conn.box.arrivals {
        CarriesLater(s, t, a.frame);
      } else if e.Emit? {
        NewArrivalCarries(s, e);
      } else {
        TextCarries(t, a.frame);
      }
    }
  }

  lemma TextCarries(s: System, f: OutboundFrame)
    requires f.payload.Text? && f.terminalId.None? && f.terminalSequence.None?
    ensures Carries(s, f)
  {
  }

  lemma {:induction false} RunKeeps(settings: Settings, events: seq<Event>)
    ensures Inv(Run(Start(settings), events))
  {
    var s := Run(Start(settings), events);
    if events == [] {
      assert Committed(s) == [] && ArrivalFrames(s.conn.box.arrivals) == [];
    } else {
      var before := Run(Start(settings), events[..|events| - 1]);
      RunKeeps(settings, events[..|events| - 1]);
      hide Step, Kept, AllCarry, LoopMatches;
      StepMatches(before, events[|events| - 1]);
      StepCarries(before, events[|events| - 1]);
      forall id ensures Kept(s, id) { StepKept(before, events[|events| - 1], id); }
    }
  }
}
