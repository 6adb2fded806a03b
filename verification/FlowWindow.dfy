/**
  The acknowledgement window of each terminal, told from a run's events and the owner's chunks alone:
  which chunks are outstanding, and that they never exceed the flow limit.
*/
module FlowWindow {
  import opened Wrappers
  import opened Bytes
  import opened Frames
  import opened Mailbox
  import opened Outbound
  import opened LiveDelivery
  import Wire

  /** Chunks `begin + 1` to `end` were reserved since the attach; the client has acknowledged up to `acknowledged`. */
  datatype Window = Window(begin: nat, end: nat, acknowledged: nat)

  function Larger(a: nat, b: nat): nat {
    if a >= b then a else b
  }

  /** The bytes of chunks `low + 1` to `high`. */
  function BytesBetween(chunks: seq<seq<byte>>, low: nat, high: nat): nat
    requires high <= |chunks|
  {
    if high <= low then 0 else BytesBetween(chunks, low, high - 1) + |chunks[high - 1]|
  }

  /** The last chunk that is no longer outstanding. */
  function Settled(w: Window): nat {
    Larger(w.begin, w.acknowledged)
  }

  /**
    The window after each event. An attach opens it where the owner's output then stands, at the
    sequence the client gives; a chunk published to a listening connection extends it if it is above
    what is acknowledged and fits; acknowledgements and the reply's snapshot only move the
    acknowledged sequence up.
  */
  function WindowOf(settings: Settings, events: seq<Event>, id: Id): Window {
    if events == [] then Window(0, 0, 0)
    else
      var init, e := events[..|events| - 1], events[|events| - 1];
      var s, w := Run(Start(settings), init), WindowOf(settings, init, id);
      Moved(s, e, id, w)
  }

  function Moved(s: System, e: Event, id: Id, w: Window): Window {
    var chunks := Chunks(s, id);
    match e
    case BeginAttach(other, acknowledged, _) =>
      if s.loop.Idle? && other == id then Window(|chunks|, |chunks|, acknowledged) else w
    case Emit(other, data, _) =>
      if other == id && Delivering(s, id) && w.end <= |chunks|
         && |chunks| + 1 > w.acknowledged && BytesBetween(chunks, Settled(w), w.end) + |data| <= s.settings.flowLimit
      then w.(end := |chunks| + 1) else w
    case Ack(other, sequence) =>
      if s.loop.Idle? && other == id then w.(acknowledged := Larger(w.acknowledged, sequence)) else w
    case AttachSucceeds(size) =>
      if s.loop.Snapped? && s.loop.id == id && AttachFits(s.conn, TextFrame(AttachReply(id, Some(s.loop.snapshot), s.stale), size))
      then w.(acknowledged := Larger(w.acknowledged, s.loop.snapshot)) else w
    case _ => w
  }

  /** `sent` lists exactly chunks `low + 1` to `high`, in order, each with its length. */
  predicate Lists(sent: seq<(nat, nat)>, chunks: seq<seq<byte>>, low: nat, high: nat) {
    && high <= |chunks|
    && |sent| == (if low < high then high - low else 0)
    && forall i :: 0 <= i < |sent| ==> sent[i] == (low + 1 + i, |chunks[low + i]|)
  }

  ghost predicate Matches(s: System, id: Id, w: Window) {
    && w.begin <= w.end <= |Chunks(s, id)|
    && (Delivering(s, id) ==> w.end == |Chunks(s, id)|)
    && (id in s.conn.flow ==>
          var flow := s.conn.flow[id];
          && flow.acknowledged == w.acknowledged
          && Lists(flow.sent, Chunks(s, id), Settled(w), w.end)
          && flow.unacknowledgedBytes == BytesBetween(Chunks(s, id), Settled(w), w.end) <= s.settings.flowLimit)
  }

  // ----- lists of consecutive chunks -----

  lemma {:induction false} BytesSame(chunks: seq<seq<byte>>, more: seq<seq<byte>>, low: nat, high: nat)
    requires chunks <= more && high <= |chunks|
    ensures BytesBetween(chunks, low, high) == BytesBetween(more, low, high)
    decreases high
  {
    if high > low {
      BytesSame(chunks, more, low, high - 1);
    }
  }

  lemma {:induction false} BytesSplit(chunks: seq<seq<byte>>, low: nat, middle: nat, high: nat)
    requires low <= middle && high <= |chunks|
    ensures BytesBetween(chunks, middle, high) <= BytesBetween(chunks, low, high)
    ensures low < high ==> BytesBetween(chunks, low, high) == |chunks[low]| + BytesBetween(chunks, low + 1, high)
    decreases high
  {
    if high > low {
      BytesSplit(chunks, low, middle, high - 1);
    }
  }

  lemma {:induction false} ListsBytes(sent: seq<(nat, nat)>, chunks: seq<seq<byte>>, low: nat, high: nat)
    requires Lists(sent, chunks, low, high)
    ensures SentBytes(sent) == BytesBetween(chunks, low, high)
    decreases |sent|
  {
    if sent != [] {
      ListsBytes(sent[1..], chunks, low + 1, high);
      BytesSplit(chunks, low, low, high);
    }
  }

  /** Acknowledging drops exactly the sends up to the sequence acknowledged. */
  lemma {:induction false} DropsThrough(sent: seq<(nat, nat)>, chunks: seq<seq<byte>>, low: nat, high: nat, sequence: nat)
    requires Lists(sent, chunks, low, high)
    ensures Lists(Unacknowledged(sent, sequence), chunks, Larger(low, sequence), high)
    decreases |sent|
  {
    if sent != [] && sent[0].0 <= sequence {
      DropsThrough(sent[1..], chunks, low + 1, high, sequence);
    }
  }

  lemma AckMoves(flow: TerminalFlow, chunks: seq<seq<byte>>, w: Window, sequence: nat, limit: nat)
    requires w.begin <= w.end && flow.acknowledged == w.acknowledged && Lists(flow.sent, chunks, Settled(w), w.end)
    requires flow.unacknowledgedBytes == BytesBetween(chunks, Settled(w), w.end) <= limit
    ensures var next, moved := Acked(flow, sequence), w.(acknowledged := Larger(w.acknowledged, sequence));
      && next.acknowledged == moved.acknowledged && Lists(next.sent, chunks, Settled(moved), moved.end)
      && next.unacknowledgedBytes == BytesBetween(chunks, Settled(moved), moved.end) <= limit
  {
    hide Unacknowledged, SentBytes, Lists, BytesBetween;
    if sequence > flow.acknowledged {
      assert w.end <= |chunks| by { ListsWithin(flow.sent, chunks, Settled(w), w.end); }
      var moved := w.(acknowledged := sequence);
      DropsThrough(flow.sent, chunks, Settled(w), w.end, sequence);
      assert Larger(Settled(w), sequence) == Settled(moved);
      ListsBytes(Unacknowledged(flow.sent, sequence), chunks, Settled(moved), w.end);
      BytesSplit(chunks, Settled(w), Settled(moved), w.end);
    }
  }

  lemma ListsWithin(sent: seq<(nat, nat)>, chunks: seq<seq<byte>>, low: nat, high: nat)
    requires Lists(sent, chunks, low, high)
    ensures high <= |chunks|
  {
  }

  lemma ListsLater(sent: seq<(nat, nat)>, chunks: seq<seq<byte>>, more: seq<seq<byte>>, low: nat, high: nat)
    requires Lists(sent, chunks, low, high) && chunks <= more
    ensures Lists(sent, more, low, high)
  {
  }

  /** One more chunk, above everything acknowledged, joins the end. */
  lemma ListsPush(sent: seq<(nat, nat)>, chunks: seq<seq<byte>>, data: seq<byte>, low: nat)
    requires Lists(sent, chunks, low, |chunks|) && low <= |chunks|
    ensures Lists(sent + [(|chunks| + 1, |data|)], chunks + [data], low, |chunks| + 1)
    ensures BytesBetween(chunks + [data], low, |chunks| + 1) == BytesBetween(chunks, low, |chunks|) + |data|
  {
    BytesSame(chunks, chunks + [data], low, |chunks|);
  }

  // ----- steps -----

  /** A step that leaves this terminal's flow, chunks and listening as they were, or forgets them. */
  predicate Untouched(s: System, t: System, id: Id) {
    && Chunks(t, id) == Chunks(s, id) && t.settings == s.settings
    && (Delivering(t, id) ==> Delivering(s, id))
    && (id in t.conn.flow ==> id in s.conn.flow && t.conn.flow[id] == s.conn.flow[id])
  }

  lemma OtherStep(s: System, e: Event, id: Id)
    requires !e.Emit? && !e.AttachSucceeds? && !(e.BeginAttach? && e.id == id) && !(e.Ack? && e.id == id)
    ensures Untouched(s, Step(s, e), id)
  {
    hide FitsReliable, Discard, Notices, Acked;
  }

  lemma OtherEmit(s: System, e: Event, id: Id)
    requires e.Emit? && e.id != id
    ensures Untouched(s, Step(s, e), id)
  {
    hide FitsReliable, FitsLegacy, Wire.Encoded, CanReserve, Reserved;
  }

  lemma UntouchedMatches(s: System, t: System, id: Id, w: Window)
    requires Matches(s, id, w) && Untouched(s, t, id)
    ensures Matches(t, id, w)
  {
    hide Lists, BytesBetween, Chunks;
  }

  /** What publishing does to the flow of the chunk's own terminal. */
  lemma PublishedFlow(c: Conn, settings: Settings, chunk: LiveChunk)
    requires settings.protocol == 2 && Listens(c, chunk.id)
    ensures var flow, next := c.flow[chunk.id], Published(c, settings, chunk);
      && next.flow == (if CanReserve(flow, chunk.sequence, |chunk.data|, settings.flowLimit)
                       then c.flow[chunk.id := Reserved(flow, chunk.sequence, |chunk.data|)] else c.flow)
      && (Listens(next, chunk.id) ==> CanReserve(flow, chunk.sequence, |chunk.data|, settings.flowLimit))
  {
    hide FitsReliable, FitsLegacy, Wire.Encoded, CanReserve, Reserved;
  }

  lemma EmitFlow(s: System, e: Event)
    requires e.Emit? && s.settings.protocol == 2
    ensures var t, chunks := Step(s, e), Chunks(s, e.id);
      && Chunks(t, e.id) == chunks + [e.data] && t.settings == s.settings
      && (if !Delivering(s, e.id) then !Delivering(t, e.id) && t.conn.flow == s.conn.flow
          else
            && Listens(s.conn, e.id)
            && t.conn.flow == (if CanReserve(s.conn.flow[e.id], |chunks| + 1, |e.data|, s.settings.flowLimit)
                               then s.conn.flow[e.id := Reserved(s.conn.flow[e.id], |chunks| + 1, |e.data|)] else s.conn.flow)
            && (Delivering(t, e.id) ==> CanReserve(s.conn.flow[e.id], |chunks| + 1, |e.data|, s.settings.flowLimit)))
  {
    hide CanReserve, Reserved, Published;
    if Delivering(s, e.id) {
      PublishedFlow(s.conn, s.settings, LiveChunk(s.eventSequence + 1, e.id, |Chunks(s, e.id)| + 1, e.data, e.noticeSize));
    } else if e.id in s.subscribed {
      NotListening(s.conn, s.settings, LiveChunk(s.eventSequence + 1, e.id, |Chunks(s, e.id)| + 1, e.data, e.noticeSize));
    }
  }

  lemma NotListening(c: Conn, settings: Settings, chunk: LiveChunk)
    requires !Listens(c, chunk.id)
    ensures Published(c, settings, chunk) == c
  {
  }

  lemma EmitMoves(s: System, e: Event, w: Window)
    requires e.Emit? && s.settings.protocol == 2 && Matches(s, e.id, w)
    ensures Matches(Step(s, e), e.id, Moved(s, e, e.id, w))
  {
    hide Lists, BytesBetween, Step, Chunks;
    EmitFlow(s, e);
    var id, chunks := e.id, Chunks(s, e.id);
    var more := chunks + [e.data];
    BytesSame(chunks, more, Settled(w), w.end);
    if id in s.conn.flow {
      ListsLater(s.conn.flow[id].sent, chunks, more, Settled(w), w.end);
    }
    if Delivering(s, id) {
      var flow := s.conn.flow[id];
      if CanReserve(flow, |chunks| + 1, |e.data|, s.settings.flowLimit) {
        ListsPush(flow.sent, chunks, e.data, Settled(w));
      }
    }
  }

  lemma BeginMoves(s: System, e: Event, w: Window)
    requires e.BeginAttach? && Matches(s, e.id, w)
    ensures Matches(Step(s, e), e.id, Moved(s, e, e.id, w))
  {
    hide Notices;
  }

  lemma AckStepMoves(s: System, e: Event, w: Window)
    requires e.Ack? && Matches(s, e.id, w)
    ensures Matches(Step(s, e), e.id, Moved(s, e, e.id, w))
  {
    hide Lists, BytesBetween, Acked;
    if e.id in s.conn.flow {
      AckMoves(s.conn.flow[e.id], Chunks(s, e.id), w, e.sequence, s.settings.flowLimit);
    }
  }

  lemma SucceedMoves(s: System, e: Event, id: Id, w: Window)
    requires e.AttachSucceeds? && Matches(s, id, w)
    ensures Matches(Step(s, e), id, Moved(s, e, id, w))
  {
    hide Lists, BytesBetween, Acked, Discard, FitsReliable;
    if s.loop.Snapped? && s.loop.id == id && id in s.conn.flow {
      AckMoves(s.conn.flow[id], Chunks(s, id), w, s.loop.snapshot, s.settings.flowLimit);
    }
  }

  lemma StepMoves(s: System, e: Event, id: Id, w: Window)
    requires s.settings.protocol == 2 && Matches(s, id, w)
    ensures Matches(Step(s, e), id, Moved(s, e, id, w)) && Step(s, e).settings == s.settings
  {
    hide Matches, Lists, BytesBetween, Step, Untouched;
    SameSettings(s, e);
    if e.Emit? && e.id == id {
      EmitMoves(s, e, w);
    } else if e.BeginAttach? && e.id == id {
      BeginMoves(s, e, w);
    } else if e.Ack? && e.id == id {
      AckStepMoves(s, e, w);
    } else if e.AttachSucceeds? {
      SucceedMoves(s, e, id, w);
    } else if e.Emit? {
      OtherEmit(s, e, id);
      UntouchedMatches(s, Step(s, e), id, w);
    } else {
      OtherStep(s, e, id);
      UntouchedMatches(s, Step(s, e), id, w);
    }
  }

  lemma SameSettings(s: System, e: Event)
    ensures Step(s, e).settings == s.settings
  {
    hide Published, Attached, AttachAnswered, Taken, Detached, Notices;
  }

  lemma {:induction false} RunMatches(settings: Settings, events: seq<Event>, id: Id)
    requires settings.protocol == 2
    ensures var s := Run(Start(settings), events); s.settings == settings && Matches(s, id, WindowOf(settings, events, id))
  {
    hide Matches, Step, Moved;
    if events == [] {
      StartMatches(settings, id);
    } else {
      var init, e := events[..|events| - 1], events[|events| - 1];
      RunMatches(settings, init, id);
      StepMoves(Run(Start(settings), init), e, id, WindowOf(settings, init, id));
    }
  }

  lemma StartMatches(settings: Settings, id: Id)
    ensures Matches(Start(settings), id, Window(0, 0, 0))
  {
  }

  /**
    In every run that acknowledges, each attached terminal's flow holds exactly the chunks reserved since
    the attach that are above the acknowledged sequence, in order, each with its length; the counter is
    their bytes, and within the flow limit; and while the connection listens nothing the owner has
    emitted since the attach is missing from them.
  */
  lemma OutstandingExactly(settings: Settings, events: seq<Event>, id: Id)
    requires settings.protocol == 2 && id in Run(Start(settings), events).conn.flow
    ensures var s, w := Run(Start(settings), events), WindowOf(settings, events, id);
      var flow, chunks, low := s.conn.flow[id], Chunks(s, id), Larger(w.begin, w.acknowledged);
      && flow.acknowledged == w.acknowledged && w.begin <= w.end <= |chunks|
      && |flow.sent| == (if low < w.end then w.end - low else 0)
      && (forall i :: 0 <= i < |flow.sent| ==> flow.sent[i] == (low + 1 + i, |chunks[low + i]|))
      && flow.unacknowledgedBytes == BytesBetween(chunks, low, w.end) <= settings.flowLimit
      && (Delivering(s, id) ==> w.end == |chunks|)
  {
    hide Run, WindowOf, BytesBetween;
    RunMatches(settings, events, id);
  }
}
