/**
  What each event of a live delivery run does: which output is queued, when delivery stops, what an
  attach answers, and what the writer hands out. Told from the queue's frames, the limits and the owner's chunks.
*/
module LiveDeliveryEffects {
  import opened Wrappers
  import opened Bytes
  import opened Frames
  import opened Mailbox
  import opened Outbound
  import opened LiveDelivery
  import LiveDeliveryProof
  import FlowWindow
  import Wire

  // ----- the queue as frames -----

  /** Frames of one kind: output or text. */
  function OfKind(frames: seq<OutboundFrame>, output: bool): seq<OutboundFrame> {
    if frames == [] then []
    else (if frames[0].payload.Binary? == output then [frames[0]] else []) + OfKind(frames[1..], output)
  }

  function Load(frames: seq<OutboundFrame>): nat {
    if frames == [] then 0 else frames[0].Size() + Load(frames[1..])
  }

  function Queue(s: System): seq<OutboundFrame> {
    ArrivalFrames(s.conn.box.arrivals)
  }

  function Replies(s: System): seq<OutboundFrame> {
    PriorityFrames(s.conn.box.priority)
  }

  /** Everything the writer will hand out, in order. */
  function Waiting(s: System): seq<OutboundFrame> {
    Replies(s) + Queue(s)
  }

  /** One more text of this size is within 256 texts and 2 MiB of them, the waiting replies included. */
  predicate RoomForText(s: System, size: nat) {
    var texts := Replies(s) + OfKind(Queue(s), false);
    |texts| + 1 <= 256 && Load(texts) + size <= 2 * 1024 * 1024
  }

  /** One more output frame of this size is within 8192 of them and 32 MiB. */
  predicate RoomForOutput(s: System, size: nat) {
    var outputs := OfKind(Queue(s), true);
    |outputs| + 1 <= 8192 && Load(outputs) + size <= 32 * 1024 * 1024
  }

  // ----- the mailbox's measures are the frames' -----

  lemma {:induction false} LoadConcat(a: seq<OutboundFrame>, b: seq<OutboundFrame>)
    ensures Load(a + b) == Load(a) + Load(b)
  {
    if a == [] {
      assert a + b == b;
    } else {
      assert (a + b)[0] == a[0] && (a + b)[1..] == a[1..] + b;
      LoadConcat(a[1..], b);
    }
  }

  lemma {:induction false} OfKindConcat(a: seq<OutboundFrame>, b: seq<OutboundFrame>, output: bool)
    ensures OfKind(a + b, output) == OfKind(a, output) + OfKind(b, output)
  {
    if a == [] {
      assert a + b == b;
    } else {
      assert (a + b)[0] == a[0] && (a + b)[1..] == a[1..] + b;
      OfKindConcat(a[1..], b, output);
    }
  }

  lemma KindOne(f: OutboundFrame, output: bool)
    ensures OfKind([f], output) == (if f.payload.Binary? == output then [f] else []) && Load([f]) == f.Size()
    ensures Load([]) == 0
  {
    assert [f][1..] == [];
  }

  lemma {:induction false} SumIsLoad(queue: seq<Queued>)
    ensures Sum(queue) == Load(PriorityFrames(queue)) && |PriorityFrames(queue)| == |queue|
  {
    if queue != [] {
      var init, last := queue[..|queue| - 1], queue[|queue| - 1];
      SumIsLoad(init);
      assert PriorityFrames(queue) == PriorityFrames(init) + [last.frame];
      LoadConcat(PriorityFrames(init), [last.frame]);
      KindOne(last.frame, true);
    }
  }

  /** In a run, the two lanes in use are the outputs and the texts. */
  lemma {:induction false} LaneIsKind(s: System, a: seq<Arrival>)
    requires forall i :: 0 <= i < |a| ==> QueuedWell(s, a[i])
    ensures PriorityFrames(InLane(a, Legacy)) == OfKind(ArrivalFrames(a), true)
    ensures PriorityFrames(InLane(a, Reliable)) == OfKind(ArrivalFrames(a), false)
  {
    if a != [] {
      hide InLane, OfKind, Carries, Without;
      var init, last := a[..|a| - 1], a[|a| - 1];
      forall i | 0 <= i < |init| ensures QueuedWell(s, init[i]) { assert init[i] == a[i]; }
      LaneIsKind(s, init);
      assert a == init + [last] && QueuedWell(s, last);
      LanePushed(init, last, Legacy, true);
      LanePushed(init, last, Reliable, false);
    } else {
      LanesEmpty();
    }
  }

  lemma LanePushed(init: seq<Arrival>, last: Arrival, lane: Lane, output: bool)
    requires PriorityFrames(InLane(init, lane)) == OfKind(ArrivalFrames(init), output)
    requires last.lane == lane <==> last.frame.payload.Binary? == output
    ensures PriorityFrames(InLane(init + [last], lane)) == OfKind(ArrivalFrames(init + [last]), output)
  {
    hide InLane, OfKind;
    InLanePush(init, last, lane);
    FramesPush(init, last);
    OfKindConcat(ArrivalFrames(init), [last.frame], output);
    KindOne(last.frame, output);
    assert OfKind(ArrivalFrames(init), output) + [] == OfKind(ArrivalFrames(init), output);
    assert PriorityFrames(InLane(init, lane) + [Mailbox.Queued(last.frame, last.order)])
        == PriorityFrames(InLane(init, lane)) + [last.frame];
  }

  lemma LanesEmpty()
    ensures PriorityFrames(InLane([], Legacy)) == OfKind(ArrivalFrames([]), true)
    ensures PriorityFrames(InLane([], Reliable)) == OfKind(ArrivalFrames([]), false)
  {
  }

  lemma FitsExactly(s: System, id: Id, f: OutboundFrame)
    requires AllCarry(s)
    ensures FitsReliable(s.conn.box, DEFAULT_LIMITS, f) <==> RoomForText(s, f.Size())
    ensures FitsLegacy(s.conn.box, DEFAULT_LIMITS, id, f) <==> id != [] && RoomForOutput(s, f.Size())
  {
    hide InLane, Sum, Load, OfKind, Carries, QueuedWell;
    var a := s.conn.box.arrivals;
    forall i | 0 <= i < |a| ensures QueuedWell(s, a[i]) { assert a[i] in a; }
    LaneIsKind(s, a);
    SumIsLoad(InLane(a, Legacy));
    SumIsLoad(InLane(a, Reliable));
    SumIsLoad(s.conn.box.priority);
    LoadConcat(Replies(s), OfKind(Queue(s), false));
  }

  // ----- output -----

  /** The queue has one more frame, and no reply is added. */
  predicate Adds(s: System, t: System, f: OutboundFrame) {
    Queue(t) == Queue(s) + [f] && Replies(t) == Replies(s)
  }

  predicate SameQueue(s: System, t: System) {
    Queue(t) == Queue(s) && Replies(t) == Replies(s)
  }

  /** Delivery of this terminal stops, and the client is told; if even that has no room, the connection closes. */
  predicate Stops(s: System, t: System, id: Id, noticeSize: nat)
    requires id in s.conn.flow
  {
    && !Delivering(t, id)
    && if RoomForText(s, noticeSize)
       then Adds(s, t, TextFrame(ReplayRequired(id, s.conn.flow[id].acknowledged), noticeSize)) && t.conn.close == s.conn.close
       else SameQueue(s, t) && t.conn.close == Some(1013)
  }

  /** The chunk is above what the client acknowledged and its bytes are within the window, where the protocol has one. */
  predicate InWindow(s: System, id: Id, w: FlowWindow.Window, size: nat) {
    s.settings.protocol == 2 ==>
      && w.end <= |Chunks(s, id)| && |Chunks(s, id)| + 1 > w.acknowledged
      && FlowWindow.BytesBetween(Chunks(s, id), FlowWindow.Larger(w.begin, w.acknowledged), w.end) + size <= s.settings.flowLimit
  }

  /** What publishing one chunk of a listening terminal does to the connection. */
  lemma PublishExactly(s: System, t: System, chunk: LiveChunk)
    requires AllCarry(s) && Listens(s.conn, chunk.id) && chunk.id in s.subscribed && t.subscribed == s.subscribed
    requires t.conn == Published(s.conn, s.settings, chunk)
    ensures var bytes := Wire.Encoded(chunk.eventSequence, chunk.sequence, chunk.id, chunk.data);
      if s.settings.protocol == 2 && !CanReserve(s.conn.flow[chunk.id], chunk.sequence, |chunk.data|, s.settings.flowLimit)
      then Stops(s, t, chunk.id, chunk.noticeSize)
      else if bytes.None? then SameQueue(s, t) && Delivering(t, chunk.id)
      else if chunk.id != [] && RoomForOutput(s, |bytes.value|)
      then Adds(s, t, TerminalOutput(chunk.id, chunk.sequence, bytes.value)) && Delivering(t, chunk.id)
      else Stops(s, t, chunk.id, chunk.noticeSize)
  {
    hide FitsReliable, FitsLegacy, Wire.Encoded, CanReserve, Reserved, RoomForText, RoomForOutput, AllCarry;
    var id := chunk.id;
    FitsExactly(s, id, TextFrame(ReplayRequired(id, s.conn.flow[id].acknowledged), chunk.noticeSize));
    var bytes := Wire.Encoded(chunk.eventSequence, chunk.sequence, id, chunk.data);
    if bytes.Some? { FitsExactly(s, id, TerminalOutput(id, chunk.sequence, bytes.value)); }
    QueueAdds(s, t);
  }

  lemma QueueAdds(s: System, t: System)
    ensures forall a: Arrival :: t.conn.box.arrivals == s.conn.box.arrivals + [a] ==> Queue(t) == Queue(s) + [a.frame]
  {
  }

  lemma EmitChunks(s: System, e: Event, other: Id)
    requires e.Emit?
    ensures var t := Step(s, e);
      && Chunks(t, other) == (if other == e.id then Chunks(s, e.id) + [e.data] else Chunks(s, other))
      && t.log == s.log && t.loop == s.loop && t.subscribed == s.subscribed && t.settings == s.settings
      && t.conn == (if Delivering(s, e.id)
                    then Published(s.conn, s.settings, LiveChunk(s.eventSequence + 1, e.id, |Chunks(s, e.id)| + 1, e.data, e.noticeSize))
                    else s.conn)
  {
    hide Published;
    if !Listens(s.conn, e.id) {
      FlowWindow.NotListening(s.conn, s.settings, LiveChunk(s.eventSequence + 1, e.id, |Chunks(s, e.id)| + 1, e.data, e.noticeSize));
    }
  }

  /**
    In any run, a chunk goes to the client exactly when the connection listens to the terminal, the chunk is
    within its window and the queue has room; an id the wire cannot carry is skipped; otherwise delivery
    stops with a notice. Nothing else changes: the chunk is the owner's next, and the frame carries it.
  */
  lemma EmitExactly(settings: Settings, events: seq<Event>, id: Id, data: seq<byte>, noticeSize: nat)
    ensures var s := Run(Start(settings), events); var t := Step(s, Emit(id, data, noticeSize));
      var w, bytes := FlowWindow.WindowOf(settings, events, id), Wire.Encoded(s.eventSequence + 1, |Chunks(s, id)| + 1, id, data);
      && (forall other :: Chunks(t, other) == if other == id then Chunks(s, id) + [data] else Chunks(s, other))
      && t.log == s.log && t.loop == s.loop && t.subscribed == s.subscribed
      && (!Delivering(s, id) ==> t.conn == s.conn)
      && (Delivering(s, id) ==>
            if !InWindow(s, id, w, |data|) then Stops(s, t, id, noticeSize)
            else if |id| >= 65536 then SameQueue(s, t) && Delivering(t, id)
            else if id != [] && RoomForOutput(s, |bytes.value|)
            then Adds(s, t, TerminalOutput(id, |Chunks(s, id)| + 1, bytes.value)) && Delivering(t, id)
            else Stops(s, t, id, noticeSize))
  {
    hide Run, Step, Published, Kept, AllCarry, Stops, Adds, SameQueue, RoomForOutput, FlowWindow.WindowOf, Delivering;
    LiveDeliveryProof.RunKeeps(settings, events);
    var s := Run(Start(settings), events);
    var e := Emit(id, data, noticeSize);
    var t := Step(s, e);
    forall other ensures Chunks(t, other) == if other == id then Chunks(s, id) + [data] else Chunks(s, other) {
      EmitChunks(s, e, other);
    }
    EmitChunks(s, e, id);
    RunSettings(settings, events);
    if Delivering(s, id) {
      DeliveringMeans(s, id);
      if settings.protocol == 2 {
        ReserveMeans(settings, events, id, |data|);
      }
      PublishExactly(s, t, LiveChunk(s.eventSequence + 1, id, |Chunks(s, id)| + 1, data, noticeSize));
    }
  }

  lemma DeliveringMeans(s: System, id: Id)
    requires Delivering(s, id)
    ensures Listens(s.conn, id) && id in s.subscribed && id in s.conn.flow
  {
  }

  lemma {:induction false} RunSettings(settings: Settings, events: seq<Event>)
    ensures Run(Start(settings), events).settings == settings
  {
    hide Step;
    if events != [] {
      RunSettings(settings, events[..|events| - 1]);
      FlowWindow.SameSettings(Run(Start(settings), events[..|events| - 1]), events[|events| - 1]);
    }
  }

  lemma ReserveMeans(settings: Settings, events: seq<Event>, id: Id, size: nat)
    requires settings.protocol == 2 && id in Run(Start(settings), events).conn.flow
    ensures var s := Run(Start(settings), events);
      CanReserve(s.conn.flow[id], |Chunks(s, id)| + 1, size, settings.flowLimit)
      <==> InWindow(s, id, FlowWindow.WindowOf(settings, events, id), size)
  {
    hide Run, FlowWindow.WindowOf, FlowWindow.BytesBetween, FlowWindow.Lists, Chunks;
    FlowWindow.RunMatches(settings, events, id);
  }

  // ----- attaching -----

  /** The frames but the output of `id` up to `through`, in order. */
  function WithoutOutput(frames: seq<OutboundFrame>, id: Id, through: nat): seq<OutboundFrame> {
    if frames == [] then []
    else
      var f := frames[0];
      (if f.payload.Binary? && f.terminalId == Some(id) && f.terminalSequence.Some? && f.terminalSequence.value <= through then []
       else [f]) + WithoutOutput(frames[1..], id, through)
  }

  lemma WithoutOutputStep(f: OutboundFrame, rest: seq<OutboundFrame>, id: Id, through: nat)
    ensures WithoutOutput([f] + rest, id, through) ==
            (if f.payload.Binary? && f.CoveredBy(id, through) then [] else [f]) + WithoutOutput(rest, id, through)
  {
    assert ([f] + rest)[1..] == rest;
  }

  lemma {:induction false} WithoutOutputConcat(a: seq<OutboundFrame>, b: seq<OutboundFrame>, id: Id, through: nat)
    ensures WithoutOutput(a + b, id, through) == WithoutOutput(a, id, through) + WithoutOutput(b, id, through)
  {
    if a == [] {
      assert a + b == b;
    } else {
      hide WithoutOutput;
      assert a + b == [a[0]] + (a[1..] + b) && a == [a[0]] + a[1..];
      WithoutOutputStep(a[0], a[1..] + b, id, through);
      WithoutOutputStep(a[0], a[1..], id, through);
      WithoutOutputConcat(a[1..], b, id, through);
    }
  }

  lemma {:induction false} DiscardsOutput(s: System, a: seq<Arrival>, id: Id, through: nat)
    requires forall i :: 0 <= i < |a| ==> QueuedWell(s, a[i])
    ensures ArrivalFrames(Without(a, id, through)) == WithoutOutput(ArrivalFrames(a), id, through)
  {
    if a == [] {
      assert Without(a, id, through) == [] && ArrivalFrames([]) == [];
    } else {
      hide Without, WithoutOutput, Carries;
      var init, last := a[..|a| - 1], a[|a| - 1];
      forall i | 0 <= i < |init| ensures QueuedWell(s, init[i]) { assert init[i] == a[i]; }
      DiscardsOutput(s, init, id, through);
      assert a == init + [last] && QueuedWell(s, last);
      WithoutPush(init, last, id, through);
      FramesPush(init, last);
      FramesPush(Without(init, id, through), last);
      WithoutOutputConcat(ArrivalFrames(init), [last.frame], id, through);
      OneOutput(last.frame, id, through);
    }
  }

  lemma OneOutput(f: OutboundFrame, id: Id, through: nat)
    ensures WithoutOutput([f], id, through) == if f.payload.Binary? && f.CoveredBy(id, through) then [] else [f]
  {
    assert [f][1..] == [] && WithoutOutput([], id, through) == [];
  }

  /** The reply is next after the replies already waiting, and the connection goes on. */
  predicate Answers(s: System, t: System, reply: OutboundFrame) {
    && Replies(t) == Replies(s) + [reply] && t.conn.attaching == {} && t.loop == Idle && t.log == s.log
    && t.conn.close == s.conn.close && t.conn.stopped == s.conn.stopped
  }

  /** There is no room for the reply: the connection closes and nothing is delivered any more. */
  predicate Gives(s: System, t: System) {
    && SameQueue(s, t) && t.loop == Left && t.conn.close == Some(1013) && t.conn.stopped && t.subscribed == {} && t.log == s.log
  }

  /**
    The owner's answer, in any run: the reply goes ahead of everything but earlier replies, exactly the output
    its snapshot covers leaves the queue, and delivery is as it was; or, without room, the connection closes.
  */
  lemma SucceedsExactly(settings: Settings, events: seq<Event>, size: nat)
    requires Run(Start(settings), events).loop.Snapped?
    ensures var s := Run(Start(settings), events); var t := Step(s, AttachSucceeds(size));
      var id, n := s.loop.id, s.loop.snapshot;
      if RoomForText(s, size) then
        && Answers(s, t, TextFrame(AttachReply(id, Some(n), s.stale), size))
        && Queue(t) == WithoutOutput(Queue(s), id, n)
        && t.subscribed == s.subscribed && (forall other :: Delivering(t, other) <==> Delivering(s, other))
      else Gives(s, t)
  {
    hide Run, RoomForText, Kept, AllCarry, FitsReliable, Without, WithoutOutput, Acked;
    LiveDeliveryProof.RunKeeps(settings, events);
    var s := Run(Start(settings), events);
    assert s.conn.attaching == {s.loop.id};
    var reply := TextFrame(AttachReply(s.loop.id, Some(s.loop.snapshot), s.stale), size);
    FitsExactly(s, s.loop.id, reply);
    RepliesPush(s.conn.box.priority, reply, s.conn.box.nextOrder);
    CarriedQueue(s, s.loop.id, s.loop.snapshot);
  }

  lemma CarriedQueue(s: System, id: Id, through: nat)
    requires AllCarry(s)
    ensures ArrivalFrames(Without(s.conn.box.arrivals, id, through)) == WithoutOutput(Queue(s), id, through)
  {
    hide Carries, QueuedWell;
    var a := s.conn.box.arrivals;
    forall i | 0 <= i < |a| ensures QueuedWell(s, a[i]) { assert a[i] in a; }
    DiscardsOutput(s, a, id, through);
  }

  lemma RepliesPush(queue: seq<Queued>, f: OutboundFrame, order: nat)
    ensures PriorityFrames(queue + [Mailbox.Queued(f, order)]) == PriorityFrames(queue) + [f]
  {
  }

  /** A failed attach is answered the same way, ends the terminal's delivery, and takes nothing out of the queue. */
  lemma FailsExactly(settings: Settings, events: seq<Event>, size: nat)
    requires var s := Run(Start(settings), events); s.loop.Snapped? || s.loop.Dispatching?
    ensures var s := Run(Start(settings), events); var t := Step(s, AttachFails(size));
      var id := s.loop.id;
      if RoomForText(s, size) then
        && Answers(s, t, TextFrame(AttachReply(id, None, s.stale), size))
        && Queue(t) == Queue(s) && t.subscribed == s.subscribed - {id}
        && !Delivering(t, id) && id !in t.conn.flow && id !in t.conn.replayRequired && OthersStay(s, t, id)
      else Gives(s, t)
  {
    hide Run, RoomForText, Kept, AllCarry, FitsReliable;
    LiveDeliveryProof.RunKeeps(settings, events);
    var s := Run(Start(settings), events);
    assert s.conn.attaching == {s.loop.id};
    var reply := TextFrame(AttachReply(s.loop.id, None, s.stale), size);
    FitsExactly(s, s.loop.id, reply);
    RepliesPush(s.conn.box.priority, reply, s.conn.box.nextOrder);
  }

  /** Every other terminal's window, fence and delivery are as they were. */
  ghost predicate OthersStay(s: System, t: System, id: Id) {
    forall other :: other != id ==>
      && (Delivering(t, other) <==> Delivering(s, other))
      && (other in t.conn.flow <==> other in s.conn.flow) && (other in s.conn.flow ==> t.conn.flow[other] == s.conn.flow[other])
      && (other in t.conn.replayRequired <==> other in s.conn.replayRequired)
  }

  /**
    An attach lifts the terminal's fence and starts its delivery, with nothing outstanding, where the caller
    subscribes; it holds the writer back, and leaves the queue and every other terminal alone. A detach ends
    the terminal's delivery and forgets its window and fence.
  */
  lemma AttachAndDetachExactly(s: System, id: Id, acknowledged: nat, raw: bool)
    requires s.loop.Idle?
    ensures var t := Step(s, BeginAttach(id, acknowledged, raw));
      && SameQueue(s, t) && t.loop == Dispatching(id) && t.conn.attaching == s.conn.attaching + {id} && t.log == s.log
      && (Delivering(t, id) <==> s.conn.Open() && (raw || id in s.subscribed))
      && id in t.conn.flow && id !in t.conn.replayRequired
      && t.conn.flow[id].acknowledged == acknowledged && t.conn.flow[id].sent == [] && t.conn.flow[id].unacknowledgedBytes == 0
      && OthersStay(s, t, id)
    ensures var t := Step(s, DetachTerminal(id));
      && SameQueue(s, t) && t.loop == Idle && t.conn.attaching == s.conn.attaching - {id} && t.log == s.log
      && !Delivering(t, id) && id !in t.subscribed && id !in t.conn.flow && id !in t.conn.replayRequired
      && OthersStay(s, t, id)
  {
    hide Notices;
  }

  /** The first reason to close is the one kept; leaving ends every subscription, and neither touches what is queued. */
  lemma CloseExactly(s: System, code: nat)
    requires s.loop.Idle?
    ensures var t := Step(s, AskClose(code));
      SameQueue(s, t) && t.conn.close == (if s.conn.close.Some? then s.conn.close else Some(code))
      && t.conn.stopped == s.conn.stopped && t.subscribed == s.subscribed && t.loop == Idle && t.log == s.log
    ensures var t := Step(s, LeaveLoop);
      SameQueue(s, t) && t.conn.stopped && t.subscribed == {} && t.loop == Left && t.conn.close == s.conn.close && t.log == s.log
  {
  }

  /** An ordinary message joins the queue while the connection is open and has room; without room it closes. */
  lemma SendExactly(settings: Settings, events: seq<Event>, size: nat)
    requires Run(Start(settings), events).loop.Idle?
    ensures var s := Run(Start(settings), events); var t := Step(s, SendOther(size));
      && t.subscribed == s.subscribed && t.loop == s.loop && t.log == s.log
      && (if !s.conn.Open() then t == s
          else if RoomForText(s, size) then Adds(s, t, TextFrame(Other, size)) && t.conn.close == s.conn.close
          else SameQueue(s, t) && t.conn.close == Some(1013))
  {
    hide Run, RoomForText, Kept, AllCarry, FitsReliable;
    LiveDeliveryProof.RunKeeps(settings, events);
    var s := Run(Start(settings), events);
    FitsExactly(s, [], TextFrame(Other, size));
    QueueAdds(s, Step(s, SendOther(size)));
  }

  // ----- the writer -----

  /** The writer hands out the first waiting frame, or closes when none is left to hand out; while an attach is answered, none is. */
  lemma TakesExactly(s: System)
    ensures var t := Step(s, WriterTakes);
      && t.loop == s.loop && t.subscribed == s.subscribed && t.conn.flow == s.conn.flow && t.conn.attaching == s.conn.attaching
      && (if s.conn.attaching == {} && Waiting(s) != []
          then t.log == s.log + [Waiting(s)[0]] && Waiting(t) == Waiting(s)[1..]
               && t.conn.close == s.conn.close && t.conn.stopped == s.conn.stopped
          else t.log == s.log && Waiting(t) == Waiting(s) && t.conn.close == None
               && (t.conn.stopped <==> s.conn.stopped || s.conn.close.Some?))
  {
    var box := s.conn.box;
    if box.priority != [] {
      assert PriorityFrames(box.priority[1..]) == PriorityFrames(box.priority)[1..];
    } else if box.arrivals != [] {
      assert ArrivalFrames(box.arrivals[1..]) == ArrivalFrames(box.arrivals)[1..];
      assert [] + Queue(s) == Queue(s);
    }
  }

  function Takes(k: nat): (events: seq<Event>)
    ensures |events| == k
  {
    seq(k, _ => WriterTakes)
  }

  /**
    Whatever has happened, a writer that is not held back drains the queue: its next turns hand out exactly
    what is waiting, in order, and nothing else.
  */
  lemma {:induction false} WriterDrains(s: System, k: nat)
    requires s.conn.attaching == {} && k <= |Waiting(s)|
    ensures var t := Run(s, Takes(k));
      && t.log == s.log + Waiting(s)[..k] && Waiting(t) == Waiting(s)[k..]
      && t.conn.attaching == {} && t.conn.close == s.conn.close && t.conn.stopped == s.conn.stopped
  {
    hide Waiting, Step;
    if k > 0 {
      WriterDrains(s, k - 1);
      assert Takes(k)[..k - 1] == Takes(k - 1);
      TakesExactly(Run(s, Takes(k - 1)));
    }
  }
}
