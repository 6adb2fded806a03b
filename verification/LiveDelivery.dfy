/**
  Live delivery end to end: the terminal owner, the event hub's subscription, the
  socket loop's attach order, the connection's outbound side, its writer and the
  client. A run is any interleaving of their steps.
*/
module LiveDelivery {
  import opened Wrappers
  import opened Bytes
  import opened Frames
  import opened Mailbox
  import opened Outbound
  import Wire

  /** Where the socket loop is: it handles one command at a time. */
  datatype Loop =
    | Idle
    | Dispatching(id: Id)
    | Snapped(id: Id, snapshot: nat)
    | Left

  /**
    `chunks` is all output each owner has emitted, in order; chunk k has sequence k.
    `log` is every frame the writer has handed out. `stale` counts the replay
    notices that were already queued when the current attach began.
  */
  datatype System = System(
    conn: Conn,
    settings: Settings,
    chunks: map<Id, seq<seq<byte>>>,
    eventSequence: nat,
    subscribed: set<Id>,
    loop: Loop,
    stale: nat,
    log: seq<OutboundFrame>)

  function Chunks(s: System, id: Id): seq<seq<byte>> {
    if id in s.chunks then s.chunks[id] else []
  }

  function Start(settings: Settings): System {
    System(FRESH, settings, map[], 0, {}, Idle, 0, [])
  }

  datatype Event =
    | Emit(id: Id, data: seq<byte>, noticeSize: nat)
    | BeginAttach(id: Id, acknowledged: nat, raw: bool)
    | OwnerSnapshot
    | AttachSucceeds(size: nat)
    | AttachFails(size: nat)
    | DetachTerminal(id: Id)
    | Ack(id: Id, sequence: nat)
    | SendOther(size: nat)
    | AskClose(code: nat)
    | LeaveLoop
    | WriterStops
    | WriterTakes

  function EmitStep(s: System, id: Id, data: seq<byte>, noticeSize: nat): System {
    var chunk := LiveChunk(s.eventSequence + 1, id, |Chunks(s, id)| + 1, data, noticeSize);
    s.(chunks := s.chunks[id := Chunks(s, id) + [data]],
       eventSequence := s.eventSequence + 1,
       conn := if id in s.subscribed then Published(s.conn, s.settings, chunk) else s.conn)
  }

  function BeginAttachStep(s: System, id: Id, acknowledged: nat, raw: bool): System {
    s.(conn := Attached(s.conn, id, acknowledged),
       subscribed := if raw then s.subscribed + {id} else s.subscribed,
       loop := Dispatching(id),
       stale := Notices(s.conn.box.arrivals, id))
  }

  /** The reply is queued, then the loop goes on; when the mailbox refuses it, the loop ends. */
  function AnswerStep(s: System, id: Id, snapshot: Option<nat>, size: nat): System {
    var reply := TextFrame(AttachReply(id, snapshot, s.stale), size);
    var subscribed := if snapshot.None? then s.subscribed - {id} else s.subscribed;
    var answered := AttachAnswered(s.conn, id, snapshot, reply);
    if AttachFits(s.conn, reply) then s.(conn := answered, subscribed := subscribed, loop := Idle)
    else s.(conn := answered.(stopped := true), subscribed := {}, loop := Left)
  }

  /** A step that is not enabled changes nothing. */
  function Step(s: System, e: Event): System {
    match e
    case Emit(id, data, noticeSize) => EmitStep(s, id, data, noticeSize)
    case BeginAttach(id, acknowledged, raw) =>
      if s.loop.Idle? then BeginAttachStep(s, id, acknowledged, raw) else s
    case OwnerSnapshot =>
      if s.loop.Dispatching? then s.(loop := Snapped(s.loop.id, |Chunks(s, s.loop.id)|)) else s
    case AttachSucceeds(size) =>
      if s.loop.Snapped? then AnswerStep(s, s.loop.id, Some(s.loop.snapshot), size) else s
    case AttachFails(size) =>
      if s.loop.Dispatching? || s.loop.Snapped? then AnswerStep(s, s.loop.id, None, size) else s
    case DetachTerminal(id) =>
      if s.loop.Idle? then s.(conn := Detached(s.conn, id), subscribed := s.subscribed - {id}) else s
    case Ack(id, sequence) =>
      if s.loop.Idle? then s.(conn := Acknowledged(s.conn, id, sequence)) else s
    case SendOther(size) =>
      if s.loop.Idle? then s.(conn := SendReliable(s.conn, TextFrame(Other, size))) else s
    case AskClose(code) =>
      if s.loop.Idle? then s.(conn := CloseRequested(s.conn, code)) else s
    case LeaveLoop =>
      if s.loop.Idle? then s.(conn := s.conn.(stopped := true), subscribed := {}, loop := Left) else s
    case WriterStops => s.(conn := s.conn.(stopped := true))
    case WriterTakes =>
      var offered := Offered(s.conn);
      s.(conn := Taken(s.conn),
         log := if offered.Some? && offered.value.Frame? then s.log + [offered.value.frame] else s.log)
  }

  function Run(s: System, events: seq<Event>): System {
    if events == [] then s else Step(Run(s, events[..|events| - 1]), events[|events| - 1])
  }

  // ----- what the client sees of one terminal -----

  predicate IsNotice(frame: OutboundFrame, id: Id) {
    frame.payload.Text? && frame.payload.message.ReplayRequired? && frame.payload.message.id == id
  }

  predicate IsReply(frame: OutboundFrame, id: Id) {
    frame.payload.Text? && frame.payload.message.AttachReply? && frame.payload.message.id == id
  }

  predicate IsOutput(frame: OutboundFrame, id: Id) {
    frame.payload.Binary? && frame.terminalId == Some(id)
  }

  /**
    What has been promised for a terminal: nothing (`Silent`), or after an attach
    reply, `notices` left-over replay notices, then the chunks from `next` on, then
    at most one notice of this attach (`fenced`). Anything else is `Broken`.
  */
  datatype Watch = Silent | Live(next: nat, notices: nat, fenced: bool) | Broken

  function Observe(w: Watch, id: Id, frame: OutboundFrame): Watch {
    if w.Broken? then Broken
    else if IsReply(frame, id) then
      var message := frame.payload.message;
      if message.snapshot.Some? then Live(message.snapshot.value + 1, message.staleFences, false) else Silent
    else if w.Silent? then Silent
    else if IsNotice(frame, id) then
      if w.notices > 0 then w.(notices := w.notices - 1)
      else if !w.fenced then w.(fenced := true)
      else Broken
    else if IsOutput(frame, id) then
      if w.notices == 0 && !w.fenced && frame.terminalSequence == Some(w.next) then w.(next := w.next + 1)
      else Broken
    else w
  }

  function ObserveAll(w: Watch, id: Id, frames: seq<OutboundFrame>): Watch {
    if frames == [] then w
    else Observe(ObserveAll(w, id, frames[..|frames| - 1]), id, frames[|frames| - 1])
  }

  function Notices(arrivals: seq<Arrival>, id: Id): nat {
    if arrivals == [] then 0
    else Notices(arrivals[..|arrivals| - 1], id) + if IsNotice(arrivals[|arrivals| - 1].frame, id) then 1 else 0
  }

  function PriorityFrames(queue: seq<Queued>): (frames: seq<OutboundFrame>)
    ensures |frames| == |queue|
  {
    seq(|queue|, i requires 0 <= i < |queue| => queue[i].frame)
  }

  function ArrivalFrames(arrivals: seq<Arrival>): (frames: seq<OutboundFrame>)
    ensures |frames| == |arrivals|
  {
    seq(|arrivals|, i requires 0 <= i < |arrivals| => arrivals[i].frame)
  }

  /** Everything handed out, then everything the writer will hand out from the priority lane. */
  function Committed(s: System): seq<OutboundFrame> {
    s.log + PriorityFrames(s.conn.box.priority)
  }

  function WatchOf(s: System, id: Id): Watch {
    ObserveAll(Silent, id, Committed(s) + ArrivalFrames(s.conn.box.arrivals))
  }

  // ----- the invariant -----

  /** The hub publishes to this connection and the connection takes what it publishes. */
  predicate Delivering(s: System, id: Id) {
    id in s.subscribed && Listens(s.conn, id)
  }

  /** Nothing is missing from the end of what is queued, or a notice says so. */
  predicate TailKept(s: System, id: Id, w: Watch) {
    match w
    case Broken => false
    case Silent => true
    case Live(next, notices, fenced) =>
      && notices == 0
      && (Delivering(s, id) ==> !fenced && (|id| < U16 ==> next == |Chunks(s, id)| + 1))
      && (s.conn.Open() && id in s.conn.flow && id in s.conn.replayRequired ==> fenced)
  }

  /** What the client will see once the reply with snapshot `n` is queued. */
  function Promised(s: System, id: Id, n: nat): Watch {
    ObserveAll(Live(n + 1, s.stale, false), id, ArrivalFrames(Without(s.conn.box.arrivals, id, n)))
  }

  /** Before the snapshot, only the queued notices matter: the left-over ones and at most one new one. */
  predicate NoticesKept(s: System, id: Id) {
    var notices := Notices(s.conn.box.arrivals, id);
    && s.stale <= notices <= s.stale + 1
    && (Delivering(s, id) ==> notices == s.stale)
    && (s.conn.Open() && id in s.conn.flow && id in s.conn.replayRequired ==> notices == s.stale + 1)
  }

  predicate LoopMatches(s: System) {
    match s.loop
    case Idle => s.conn.attaching == {}
    case Dispatching(id) => s.conn.attaching == {id}
    case Snapped(id, snapshot) => s.conn.attaching == {id} && snapshot <= |Chunks(s, id)|
    case Left => s.conn.stopped && s.subscribed == {}
  }

  /** A frame is a text, or one emitted chunk of one terminal in the wire format. */
  ghost predicate Carries(s: System, f: OutboundFrame) {
    match f.payload
    case Text(_, _) => f.terminalId.None? && f.terminalSequence.None?
    case Binary(data) =>
      && f.terminalId.Some? && f.terminalSequence.Some?
      && |f.terminalId.value| < U16
      && 1 <= f.terminalSequence.value <= |Chunks(s, f.terminalId.value)|
      && exists event: nat ::
           IsEncoding(data, event, f.terminalSequence.value, f.terminalId.value, Chunks(s, f.terminalId.value))
  }

  /** The wire format of chunk `sequence` of `chunks`. */
  predicate IsEncoding(bytes: seq<byte>, event: nat, sequence: nat, id: Id, chunks: seq<seq<byte>>)
    requires 1 <= sequence <= |chunks|
  {
    Wire.Encoded(event, sequence, id, chunks[sequence - 1]) == Some(bytes)
  }

  ghost predicate QueuedWell(s: System, a: Arrival) {
    && Carries(s, a.frame)
    && a.lane == (if a.frame.payload.Binary? then Legacy else Reliable)
    && (a.frame.payload.Text? ==> !a.frame.payload.message.AttachReply?)
  }

  ghost predicate AllCarry(s: System) {
    && (forall f :: f in Committed(s) ==> Carries(s, f))
    && (forall a :: a in s.conn.box.arrivals ==> QueuedWell(s, a))
  }

  ghost predicate Kept(s: System, id: Id) {
    && !ObserveAll(Silent, id, Committed(s)).Broken?
    && (id !in s.conn.attaching ==> TailKept(s, id, WatchOf(s, id)))
    && (s.loop == Dispatching(id) ==> NoticesKept(s, id))
    && (s.loop.Snapped? && s.loop.id == id ==>
          Promised(s, id, s.loop.snapshot).Live? && TailKept(s, id, Promised(s, id, s.loop.snapshot)))
  }

  ghost predicate Inv(s: System) {
    LoopMatches(s) && AllCarry(s) && forall id :: Kept(s, id)
  }

  // ----- observing -----

  lemma {:induction false} ObserveConcat(w: Watch, id: Id, a: seq<OutboundFrame>, b: seq<OutboundFrame>)
    ensures ObserveAll(w, id, a + b) == ObserveAll(ObserveAll(w, id, a), id, b)
  {
    if b == [] {
      assert a + b == a;
    } else {
      assert (a + b)[..|a + b| - 1] == a + b[..|b| - 1];
      ObserveConcat(w, id, a, b[..|b| - 1]);
    }
  }

  lemma ObservePush(w: Watch, id: Id, a: seq<OutboundFrame>, f: OutboundFrame)
    ensures ObserveAll(w, id, a + [f]) == Observe(ObserveAll(w, id, a), id, f)
  {
    assert (a + [f])[..|a|] == a;
  }

  lemma {:induction false} BrokenStays(id: Id, frames: seq<OutboundFrame>)
    ensures ObserveAll(Broken, id, frames) == Broken
  {
    if frames != [] {
      BrokenStays(id, frames[..|frames| - 1]);
    }
  }

  lemma UnbrokenPrefix(w: Watch, id: Id, a: seq<OutboundFrame>, b: seq<OutboundFrame>)
    requires !ObserveAll(w, id, a + b).Broken?
    ensures !ObserveAll(w, id, a).Broken?
  {
    ObserveConcat(w, id, a, b);
    BrokenStays(id, b);
  }

  lemma FramesPush(a: seq<Arrival>, b: Arrival)
    ensures ArrivalFrames(a + [b]) == ArrivalFrames(a) + [b.frame]
  {
  }

  lemma FramesLast(a: seq<Arrival>)
    requires a != []
    ensures ArrivalFrames(a) == ArrivalFrames(a[..|a| - 1]) + [a[|a| - 1].frame]
  {
  }

  /** Discarding another terminal's output leaves what is seen of this one. */
  lemma {:induction false} DiscardUnseen(s: System, w: Watch, id: Id, a: seq<Arrival>, other: Id, n: nat)
    requires id != other && forall x :: x in a ==> QueuedWell(s, x)
    ensures ObserveAll(w, id, ArrivalFrames(Without(a, other, n))) == ObserveAll(w, id, ArrivalFrames(a))
  {
    if a == [] {
      assert Without(a, other, n) == a;
    } else {
      hide ObserveAll, Without, ArrivalFrames, Carries;
      var init, last := a[..|a| - 1], a[|a| - 1];
      assert a == init + [last] && last in a;
      DiscardUnseen(s, w, id, init, other, n);
      WithoutPush(init, last, other, n);
      FramesPush(init, last);
      FramesPush(Without(init, other, n), last);
      ObservePush(w, id, ArrivalFrames(init), last.frame);
      ObservePush(w, id, ArrivalFrames(Without(init, other, n)), last.frame);
    }
  }

  function AfterNotices(start: nat, stale: nat, notices: nat): Watch
    requires notices <= stale + 1
  {
    if notices <= stale then Live(start, stale - notices, false) else Live(start, 0, true)
  }

  /** Output of `id` that a snapshot at `n` covers, or no output of `id` and no attach reply. */
  predicate Settled(a: Arrival, id: Id, n: nat) {
    && !IsReply(a.frame, id)
    && (if IsOutput(a.frame, id) then a.lane == Legacy && a.frame.CoveredBy(id, n) && !IsNotice(a.frame, id)
        else !a.frame.CoveredBy(id, n))
  }

  /** With all its output discarded, only a terminal's notices remain to be seen. */
  lemma {:induction false} OnlyNotices(id: Id, a: seq<Arrival>, n: nat, start: nat, stale: nat)
    requires forall i :: 0 <= i < |a| ==> Settled(a[i], id, n)
    requires Notices(a, id) <= stale + 1
    ensures ObserveAll(Live(start, stale, false), id, ArrivalFrames(Without(a, id, n)))
         == AfterNotices(start, stale, Notices(a, id))
  {
    if a == [] {
      assert Without(a, id, n) == a;
    } else {
      hide ObserveAll, Without, ArrivalFrames, Observe, AfterNotices, IsOutput, IsNotice, IsReply;
      var init, last := a[..|a| - 1], a[|a| - 1];
      assert a == init + [last] && Settled(last, id, n);
      OnlyNotices(id, init, n, start, stale);
      WithoutPush(init, last, id, n);
      FramesPush(Without(init, id, n), last);
      ObservePush(Live(start, stale, false), id, ArrivalFrames(Without(init, id, n)), last.frame);
      if !IsOutput(last.frame, id) {
        ObserveNotice(start, stale, Notices(init, id), id, last.frame);
      }
    }
  }

  lemma ObserveNotice(start: nat, stale: nat, notices: nat, id: Id, f: OutboundFrame)
    requires !IsOutput(f, id) && !IsReply(f, id)
    requires notices + (if IsNotice(f, id) then 1 else 0) <= stale + 1
    ensures Observe(AfterNotices(start, stale, notices), id, f)
         == AfterNotices(start, stale, notices + if IsNotice(f, id) then 1 else 0)
  {
  }

  lemma QueuedSettled(s: System, id: Id, a: Arrival, n: nat)
    requires n >= |Chunks(s, id)| && QueuedWell(s, a)
    ensures Settled(a, id, n)
  {
  }
}
