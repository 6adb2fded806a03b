/** The one way a replay notice comes in front of output: it was left over from an earlier attach. */
module LiveDeliveryRace {
  import opened Wrappers
  import opened Bytes
  import opened Frames
  import opened Mailbox
  import opened Outbound
  import opened LiveDelivery
  import opened LiveDeliveryTheorems
  import Wire

  const NAME: Id := [97]

  /** The smallest flow limit the server accepts, and the largest chunk an owner reads. */
  const LEAST_FLOW_LIMIT: nat := 64 * 1024
  const MAX_CHUNK: nat := 64 * 1024

  const SETTINGS := Settings(2, LEAST_FLOW_LIMIT)
  const BLOCK: seq<byte> := seq(MAX_CHUNK, _ => 0)

  /** A whole attach, run while the loop is idle and the mailbox has room, queues its reply and keeps the notices. */
  lemma AttachRun(s: System, id: Id)
    requires s.loop.Idle? && s.conn.attaching == {} && s.conn.Open()
    requires FitsReliable(s.conn.box, DEFAULT_LIMITS, TextFrame(AttachReply(id, None, 0), 1))
    ensures var n := |Chunks(s, id)|;
      Step(Step(Step(s, BeginAttach(id, 0, true)), OwnerSnapshot), AttachSucceeds(1)) ==
      s.(conn := s.conn.(
           box := Discard(PushPriority(s.conn.box, TextFrame(AttachReply(id, Some(n), Notices(s.conn.box.arrivals, id)), 1)), id, n),
           flow := s.conn.flow[id := Acked(NewFlow(0), n)],
           replayRequired := s.conn.replayRequired - {id}),
         subscribed := s.subscribed + {id},
         stale := Notices(s.conn.box.arrivals, id))
  {
    hide Discard, Acked, Notices, InLane, Sum;
    assert s.conn.attaching + {id} - {id} == {};
    assert s.conn.flow[id := NewFlow(0)][id := Acked(NewFlow(0), |Chunks(s, id)|)]
        == s.conn.flow[id := Acked(NewFlow(0), |Chunks(s, id)|)];
  }

  lemma RunPush(s: System, events: seq<Event>, e: Event)
    ensures Run(s, []) == s && Run(s, events + [e]) == Step(Run(s, events), e)
  {
    assert (events + [e])[..|events|] == events;
  }

  lemma {:induction false} RunConcat(s: System, a: seq<Event>, b: seq<Event>)
    ensures Run(s, a + b) == Run(Run(s, a), b)
  {
    if b == [] {
      assert a + b == a;
    } else {
      assert (a + b)[..|a + b| - 1] == a + b[..|b| - 1];
      RunConcat(s, a, b[..|b| - 1]);
    }
  }

  // ----- the run -----

  const ATTACH: seq<Event> := [BeginAttach(NAME, 0, true), OwnerSnapshot, AttachSucceeds(1)]

  /** The client attaches and reads one full chunk without acknowledging it; the next byte overflows its flow. */
  const OVERFLOW: seq<Event> := ATTACH + [WriterTakes, Emit(NAME, BLOCK, 1), WriterTakes, Emit(NAME, [1], 1)]

  /** It attaches again before its notice is sent, one more byte comes, and the writer sends everything. */
  const AGAIN: seq<Event> := ATTACH + [Emit(NAME, [2], 1), WriterTakes, WriterTakes, WriterTakes]

  const FIRST_REPLY := TextFrame(AttachReply(NAME, Some(0), 0), 1)
  const SECOND_REPLY := TextFrame(AttachReply(NAME, Some(2), 1), 1)
  const NOTICE := TextFrame(ReplayRequired(NAME, 0), 1)

  function Output(event: nat, sequence: nat, data: seq<byte>): OutboundFrame {
    TerminalOutput(NAME, sequence, EncodedChunk(event, sequence, data))
  }

  function EncodedChunk(event: nat, sequence: nat, data: seq<byte>): seq<byte> {
    Wire.Encoded(event, sequence, NAME, data).value
  }

  function Quiet(box: Box, flow: TerminalFlow, replayRequired: set<Id>, chunks: seq<seq<byte>>, stale: nat,
                 log: seq<OutboundFrame>): System
  {
    System(Conn(box, map[NAME := flow], replayRequired, {}, None, false), SETTINGS,
           if chunks == [] then map[] else map[NAME := chunks], |chunks|, {NAME}, Idle, stale, log)
  }

  const LEFT_OVER := Arrival(Reliable, [], NOTICE, 2)

  lemma OneArrival(a: Arrival, lane: Lane)
    ensures InLane([a], lane) == if a.lane == lane then [Queued(a.frame, a.order)] else []
  {
    InLanePush([], a, lane);
    assert [] + [a] == [a];
  }

  lemma OneQueued(q: Queued)
    ensures Sum([q]) == q.frame.Size()
  {
    SumPush([], q);
    assert [] + [q] == [q];
  }

  /** What the queue holds when nothing but the left-over notice, if that, is in it. */
  lemma FewMeasures(arrivals: seq<Arrival>)
    requires arrivals == [] || arrivals == [LEFT_OVER]
    ensures |InLane(arrivals, Reliable)| <= 1 && Sum(InLane(arrivals, Reliable)) <= 1 && Sum([]) == 0
    ensures InLane(arrivals, Legacy) == [] && Without(arrivals, NAME, 0) == Without(arrivals, NAME, 2) == arrivals
    ensures Notices(arrivals, NAME) == |arrivals|
  {
    if arrivals == [] {
      EmptyMeasures(arrivals);
    } else {
      hide InLane, Sum, Without, Notices;
      OneArrival(LEFT_OVER, Reliable);
      OneArrival(LEFT_OVER, Legacy);
      OneQueued(Queued(NOTICE, 2));
      EmptyMeasures([]);
      NoticeStays(arrivals);
    }
  }

  lemma NoticeStays(arrivals: seq<Arrival>)
    requires arrivals == [LEFT_OVER]
    ensures Without(arrivals, NAME, 0) == Without(arrivals, NAME, 2) == arrivals && Notices(arrivals, NAME) == 1
  {
    assert arrivals[..0] == [];
    assert Without([], NAME, 0) == [] && Without([], NAME, 2) == [] && Notices([], NAME) == 0;
  }

  lemma QuietAttaches(arrivals: seq<Arrival>, order: nat, flow: TerminalFlow, replayRequired: set<Id>,
                      chunks: seq<seq<byte>>, stale: nat, log: seq<OutboundFrame>)
    requires replayRequired <= {NAME} && (arrivals == [] || arrivals == [LEFT_OVER]) && (|chunks| == 0 || |chunks| == 2)
    ensures var s := Quiet(Box([], arrivals, order), flow, replayRequired, chunks, stale, log);
      var n := |chunks|;
      Step(Step(Step(s, ATTACH[0]), ATTACH[1]), ATTACH[2]) ==
      Quiet(Box([Queued(TextFrame(AttachReply(NAME, Some(n), |arrivals|), 1), order)], arrivals, order + 1),
            TerminalFlow(n, [], 0), {}, chunks, |arrivals|, log)
  {
    hide InLane, Sum, Without, Notices, Step;
    FewMeasures(arrivals);
    var s := Quiet(Box([], arrivals, order), flow, replayRequired, chunks, stale, log);
    AttachRun(s, NAME);
    NewFlowAcked(|chunks|);
    assert {NAME} + {NAME} == {NAME} && replayRequired - {NAME} == {};
    assert map[NAME := flow][NAME := TerminalFlow(|chunks|, [], 0)] == map[NAME := TerminalFlow(|chunks|, [], 0)];
  }

  lemma NewFlowAcked(n: nat)
    ensures Acked(NewFlow(0), n) == TerminalFlow(n, [], 0)
  {
  }

  lemma StartAttaches()
    ensures Step(Step(Step(Start(SETTINGS), ATTACH[0]), ATTACH[1]), ATTACH[2]) ==
            Quiet(Box([Queued(FIRST_REPLY, 0)], [], 1), TerminalFlow(0, [], 0), {}, [], 0, [])
  {
    hide InLane, Sum, Without, Notices, Step;
    FewMeasures([]);
    AttachRun(Start(SETTINGS), NAME);
    NewFlowAcked(0);
    assert {} + {NAME} == {NAME};
  }

  lemma EncodedSize(event: nat, sequence: nat, data: seq<byte>)
    ensures Wire.Encoded(event, sequence, NAME, data) == Some(EncodedChunk(event, sequence, data))
    ensures |EncodedChunk(event, sequence, data)| == 20 + |data|
  {
  }

  /** A chunk the flow has room for is queued behind whatever waits. */
  lemma Queues(priority: seq<Queued>, arrivals: seq<Arrival>, order: nat, acknowledged: nat,
               chunks: seq<seq<byte>>, stale: nat, log: seq<OutboundFrame>, data: seq<byte>)
    requires (arrivals == [] || arrivals == [LEFT_OVER]) && acknowledged <= |chunks| && 0 < |data| <= MAX_CHUNK
    ensures Step(Quiet(Box(priority, arrivals, order), TerminalFlow(acknowledged, [], 0), {}, chunks, stale, log), Emit(NAME, data, 1)) ==
            Quiet(Box(priority, arrivals + [Arrival(Legacy, NAME, Output(|chunks| + 1, |chunks| + 1, data), order)], order + 1),
                  TerminalFlow(acknowledged, [(|chunks| + 1, |data|)], |data|), {}, chunks + [data], stale, log)
  {
    hide InLane, Sum, Wire.Encoded;
    FewMeasures(arrivals);
    EncodedSize(|chunks| + 1, |chunks| + 1, data);
    var s := Quiet(Box(priority, arrivals, order), TerminalFlow(acknowledged, [], 0), {}, chunks, stale, log);
    assert Chunks(s, NAME) == chunks;
    assert [] + [(|chunks| + 1, |data|)] == [(|chunks| + 1, |data|)];
    assert s.chunks[NAME := chunks + [data]] == map[NAME := chunks + [data]];
    assert s.conn.flow[NAME := TerminalFlow(acknowledged, [(|chunks| + 1, |data|)], |data|)]
        == map[NAME := TerminalFlow(acknowledged, [(|chunks| + 1, |data|)], |data|)];
  }

  /** One byte more than the flow has room for queues the notice instead. */
  lemma Overflows(log: seq<OutboundFrame>)
    ensures Step(Quiet(Box([], [], 2), TerminalFlow(0, [(1, MAX_CHUNK)], MAX_CHUNK), {}, [BLOCK], 0, log), Emit(NAME, [1], 1)) ==
            Quiet(Box([], [LEFT_OVER], 3), TerminalFlow(0, [(1, MAX_CHUNK)], MAX_CHUNK), {NAME}, [BLOCK, [1]], 0, log)
  {
    hide InLane, Sum, BLOCK;
    FewMeasures([]);
    assert [BLOCK] + [[1]] == [BLOCK, [1]] && [] + [LEFT_OVER] == [LEFT_OVER];
    var s := Quiet(Box([], [], 2), TerminalFlow(0, [(1, MAX_CHUNK)], MAX_CHUNK), {}, [BLOCK], 0, log);
    assert Chunks(s, NAME) == [BLOCK];
    assert s.chunks[NAME := [BLOCK, [1]]] == map[NAME := [BLOCK, [1]]];
  }

  lemma Takes(box: Box, flow: TerminalFlow, chunks: seq<seq<byte>>, stale: nat, log: seq<OutboundFrame>)
    requires Head(box).Some?
    ensures Step(Quiet(box, flow, {}, chunks, stale, log), WriterTakes) ==
            Quiet(Pop(box), flow, {}, chunks, stale, log + [Head(box).value])
  {
  }

  lemma OverflowRun()
    ensures Run(Start(SETTINGS), OVERFLOW) ==
            Quiet(Box([], [LEFT_OVER], 3), TerminalFlow(0, [(1, MAX_CHUNK)], MAX_CHUNK), {NAME}, [BLOCK, [1]], 0,
                  [FIRST_REPLY, Output(1, 1, BLOCK)])
  {
    hide Step, Run, Quiet, Output, BLOCK;
    var s := Start(SETTINGS);
    SevenSteps(s, WriterTakes, Emit(NAME, BLOCK, 1), WriterTakes, Emit(NAME, [1], 1));
    StartAttaches();
    var s3 := Step(Step(Step(s, ATTACH[0]), ATTACH[1]), ATTACH[2]);
    var none, full := TerminalFlow(0, [], 0), TerminalFlow(0, [(1, MAX_CHUNK)], MAX_CHUNK);
    Takes(Box([Queued(FIRST_REPLY, 0)], [], 1), none, [], 0, []);
    assert [] + [FIRST_REPLY] == [FIRST_REPLY] && Pop(Box([Queued(FIRST_REPLY, 0)], [], 1)) == Box([], [], 1);
    var s4 := Step(s3, WriterTakes);
    assert s4 == Quiet(Box([], [], 1), none, {}, [], 0, [FIRST_REPLY]);
    BlockLength();
    Queues([], [], 1, 0, [], 0, [FIRST_REPLY], BLOCK);
    var out := Arrival(Legacy, NAME, Output(1, 1, BLOCK), 1);
    assert [] + [out] == [out] && [] + [BLOCK] == [BLOCK] && Pop(Box([], [out], 2)) == Box([], [], 2);
    var s5 := Step(s4, Emit(NAME, BLOCK, 1));
    assert s5 == Quiet(Box([], [out], 2), full, {}, [BLOCK], 0, [FIRST_REPLY]);
    Takes(Box([], [out], 2), full, [BLOCK], 0, [FIRST_REPLY]);
    assert [FIRST_REPLY] + [out.frame] == [FIRST_REPLY, out.frame];
    var s6 := Step(s5, WriterTakes);
    assert s6 == Quiet(Box([], [], 2), full, {}, [BLOCK], 0, [FIRST_REPLY, out.frame]);
    Overflows([FIRST_REPLY, out.frame]);
  }

  lemma BlockLength()
    ensures |BLOCK| == MAX_CHUNK
  {
  }

  lemma SevenSteps(s: System, a: Event, b: Event, c: Event, d: Event)
    ensures Run(s, ATTACH + [a, b, c, d])
            == Step(Step(Step(Step(Step(Step(Step(s, ATTACH[0]), ATTACH[1]), ATTACH[2]), a), b), c), d)
  {
    hide Step, Run;
    var e := ATTACH;
    RunPush(s, [], e[0]);
    RunPush(s, [e[0]], e[1]);
    RunPush(s, [e[0], e[1]], e[2]);
    RunPush(s, e, a);
    RunPush(s, e + [a], b);
    RunPush(s, e + [a] + [b], c);
    RunPush(s, e + [a] + [b] + [c], d);
    assert [] + [e[0]] == [e[0]] && [e[0]] + [e[1]] == [e[0], e[1]] && [e[0], e[1]] + [e[2]] == e;
    assert e + [a] + [b] + [c] + [d] == e + [a, b, c, d];
  }

  lemma AgainRun(flow: TerminalFlow, log: seq<OutboundFrame>)
    ensures var s := Quiet(Box([], [LEFT_OVER], 3), flow, {NAME}, [BLOCK, [1]], 0, log);
      Run(s, AGAIN).log == log + [SECOND_REPLY, NOTICE, Output(3, 3, [2])]
  {
    hide Step, Run, Output, BLOCK;
    var s := Quiet(Box([], [LEFT_OVER], 3), flow, {NAME}, [BLOCK, [1]], 0, log);
    SevenSteps(s, Emit(NAME, [2], 1), WriterTakes, WriterTakes, WriterTakes);
    QuietAttaches([LEFT_OVER], 3, flow, {NAME}, [BLOCK, [1]], 0, log);
    var s3 := Step(Step(Step(s, ATTACH[0]), ATTACH[1]), ATTACH[2]);
    assert s3 == Quiet(Box([Queued(SECOND_REPLY, 3)], [LEFT_OVER], 4), TerminalFlow(2, [], 0), {}, [BLOCK, [1]], 1, log);
    Queues([Queued(SECOND_REPLY, 3)], [LEFT_OVER], 4, 2, [BLOCK, [1]], 1, log, [2]);
    var out := Arrival(Legacy, NAME, Output(3, 3, [2]), 4);
    var chunks := [BLOCK, [1]] + [[2]];
    var after := TerminalFlow(2, [(3, 1)], 1);
    assert [LEFT_OVER] + [out] == [LEFT_OVER, out];
    var s4 := Step(s3, Emit(NAME, [2], 1));
    assert s4 == Quiet(Box([Queued(SECOND_REPLY, 3)], [LEFT_OVER, out], 5), after, {}, chunks, 1, log);
    Takes(Box([Queued(SECOND_REPLY, 3)], [LEFT_OVER, out], 5), after, chunks, 1, log);
    assert [Queued(SECOND_REPLY, 3)][1..] == [] && [LEFT_OVER, out][1..] == [out];
    var s5 := Step(s4, WriterTakes);
    assert s5 == Quiet(Box([], [LEFT_OVER, out], 5), after, {}, chunks, 1, log + [SECOND_REPLY]);
    Takes(Box([], [LEFT_OVER, out], 5), after, chunks, 1, log + [SECOND_REPLY]);
    var s6 := Step(s5, WriterTakes);
    assert s6 == Quiet(Box([], [out], 5), after, {}, chunks, 1, log + [SECOND_REPLY] + [NOTICE]);
    Takes(Box([], [out], 5), after, chunks, 1, log + [SECOND_REPLY] + [NOTICE]);
    assert log + [SECOND_REPLY] + [NOTICE] + [out.frame] == log + [SECOND_REPLY, NOTICE, out.frame];
  }

  /**
    At a flow limit the server accepts, a client that attaches again before its notice is sent is
    handed the left-over notice in front of the new output.
  */
  lemma StaleNoticeFirst()
    ensures var log := Run(Start(SETTINGS), OVERFLOW + AGAIN).log;
      && log == [FIRST_REPLY, Output(1, 1, BLOCK), SECOND_REPLY, NOTICE, Output(3, 3, [2])]
      && IsReply(log[2], NAME) && log[2].payload.message.snapshot == Some(2)
      && IsNotice(log[3], NAME) && IsOutput(log[4], NAME) && log[4].terminalSequence == Some(3)
    ensures var after := Run(Start(SETTINGS), OVERFLOW + AGAIN).log[3..];
      NoReply(after, NAME) && !OutputsFirst(Seen(after, NAME))
  {
    hide Step, Run, BLOCK, EncodedChunk;
    RunConcat(Start(SETTINGS), OVERFLOW, AGAIN);
    OverflowRun();
    AgainRun(TerminalFlow(0, [(1, MAX_CHUNK)], MAX_CHUNK), [FIRST_REPLY, Output(1, 1, BLOCK)]);
    var log := Run(Start(SETTINGS), OVERFLOW + AGAIN).log;
    assert log == [FIRST_REPLY, Output(1, 1, BLOCK)] + [SECOND_REPLY, NOTICE, Output(3, 3, [2])];
    assert log == [FIRST_REPLY, Output(1, 1, BLOCK), SECOND_REPLY, NOTICE, Output(3, 3, [2])];
    assert log[3..] == [NOTICE, Output(3, 3, [2])];
    SeenTwo(NOTICE, Output(3, 3, [2]));
    assert !Seen(log[3..], NAME)[0].Output?;
  }

  lemma SeenTwo(a: OutboundFrame, b: OutboundFrame)
    requires IsNotice(a, NAME) && IsOutput(b, NAME) && b.terminalSequence.Some?
    ensures Seen([a, b], NAME) == [Notice, Item.Output(b.terminalSequence.value)]
  {
    assert [a, b][..1] == [a] && [a][..0] == [];
    assert Seen([], NAME) == [];
  }
}
