/**
  One connection's outbound side: the mailbox, the per-terminal acknowledgement
  flow, the attach fence and the replay fence. `Conn` is the state's meaning; the
  class performs each operation on its own fields and its mailbox object.
*/
module Outbound {
  import opened Wrappers
  import opened Bytes
  import opened Frames
  import opened Mailbox
  import Wire

  // ----- acknowledgement flow -----

  datatype TerminalFlow = TerminalFlow(acknowledged: nat, sent: seq<(nat, nat)>, unacknowledgedBytes: nat)

  function SentBytes(sent: seq<(nat, nat)>): nat {
    if sent == [] then 0 else sent[0].1 + SentBytes(sent[1..])
  }

  /** The byte counter is the sum it stands for. */
  ghost predicate Counted(flow: TerminalFlow) {
    flow.unacknowledgedBytes == SentBytes(flow.sent)
  }

  function NewFlow(acknowledged: nat): TerminalFlow {
    TerminalFlow(acknowledged, [], 0)
  }

  predicate CanReserve(flow: TerminalFlow, sequence: nat, bytes: nat, limit: nat) {
    sequence > flow.acknowledged && flow.unacknowledgedBytes + bytes <= limit
  }

  function Reserved(flow: TerminalFlow, sequence: nat, bytes: nat): TerminalFlow {
    flow.(sent := flow.sent + [(sequence, bytes)], unacknowledgedBytes := flow.unacknowledgedBytes + bytes)
  }

  /** The unacknowledged suffix: everything from the first entry after `sequence` on. */
  function Unacknowledged(sent: seq<(nat, nat)>, sequence: nat): seq<(nat, nat)> {
    if sent != [] && sent[0].0 <= sequence then Unacknowledged(sent[1..], sequence) else sent
  }

  function Acked(flow: TerminalFlow, sequence: nat): TerminalFlow {
    if sequence <= flow.acknowledged then flow
    else
      var rest := Unacknowledged(flow.sent, sequence);
      TerminalFlow(sequence, rest, SentBytes(rest))
  }

  lemma {:induction false} SentBytesConcat(a: seq<(nat, nat)>, b: seq<(nat, nat)>)
    ensures SentBytes(a + b) == SentBytes(a) + SentBytes(b)
  {
    if a == [] {
      assert a + b == b;
    } else {
      SentBytesConcat(a[1..], b);
      assert (a + b)[1..] == a[1..] + b;
    }
  }

  lemma ReservedCounted(flow: TerminalFlow, sequence: nat, bytes: nat)
    requires Counted(flow)
    ensures Counted(Reserved(flow, sequence, bytes))
  {
    SentBytesConcat(flow.sent, [(sequence, bytes)]);
  }

  method AcknowledgeFlow(flow: TerminalFlow, sequence: nat) returns (result: TerminalFlow)
    requires Counted(flow)
    ensures result == Acked(flow, sequence) && Counted(result)
  {
    if sequence <= flow.acknowledged {
      return flow;
    }
    var sent, unacknowledgedBytes := flow.sent, flow.unacknowledgedBytes;
    while sent != [] && sent[0].0 <= sequence
      invariant Unacknowledged(sent, sequence) == Unacknowledged(flow.sent, sequence)
      invariant unacknowledgedBytes == SentBytes(sent)
      decreases |sent|
    {
      unacknowledgedBytes := unacknowledgedBytes - sent[0].1;
      sent := sent[1..];
    }
    result := TerminalFlow(sequence, sent, unacknowledgedBytes);
  }

  // ----- the connection's meaning -----

  const OVERFLOW_CODE: nat := 1013

  datatype Conn = Conn(
    box: Box,
    flow: map<Id, TerminalFlow>,
    replayRequired: set<Id>,
    attaching: set<Id>,
    close: Option<nat>,
    stopped: bool)
  {
    predicate Open() {
      !stopped && close.None?
    }
  }

  const FRESH := Conn(EMPTY_BOX, map[], {}, {}, None, false)

  datatype NextOutbound = Frame(frame: OutboundFrame) | Close(code: nat)

  /** One live chunk as the event hub publishes it, with the size its replay notice would have. */
  datatype LiveChunk = LiveChunk(eventSequence: nat, id: Id, sequence: nat, data: seq<byte>, noticeSize: nat)

  datatype Settings = Settings(protocol: nat, flowLimit: nat)

  function PushReliable(c: Conn, frame: OutboundFrame): Conn {
    if FitsReliable(c.box, DEFAULT_LIMITS, frame) then c.(box := Push(c.box, Reliable, [], frame))
    else c.(close := Some(OVERFLOW_CODE))
  }

  function SendReliable(c: Conn, frame: OutboundFrame): Conn {
    if c.Open() then PushReliable(c, frame) else c
  }

  function Attached(c: Conn, id: Id, acknowledged: nat): Conn {
    c.(flow := c.flow[id := NewFlow(acknowledged)],
       replayRequired := c.replayRequired - {id},
       attaching := c.attaching + {id})
  }

  function Forget(c: Conn, id: Id): Conn {
    c.(flow := c.flow - {id}, replayRequired := c.replayRequired - {id})
  }

  function AttachFits(c: Conn, reply: OutboundFrame): bool {
    FitsReliable(c.box, DEFAULT_LIMITS, reply)
  }

  /** The attach reply jumps the queue; what its snapshot covers is discarded; the fence lifts. */
  function AttachAnswered(c: Conn, id: Id, snapshot: Option<nat>, reply: OutboundFrame): Conn {
    if !AttachFits(c, reply) then c.(close := Some(OVERFLOW_CODE))
    else
      var queued := c.(box := PushPriority(c.box, reply), attaching := c.attaching - {id});
      if snapshot.None? then Forget(queued, id)
      else
        queued.(box := Discard(queued.box, id, snapshot.value),
                flow := if id in c.flow then c.flow[id := Acked(c.flow[id], snapshot.value)] else c.flow)
  }

  function Detached(c: Conn, id: Id): Conn {
    Forget(c, id).(attaching := c.attaching - {id})
  }

  function Acknowledged(c: Conn, id: Id, sequence: nat): Conn {
    if id in c.flow then c.(flow := c.flow[id := Acked(c.flow[id], sequence)]) else c
  }

  function CloseRequested(c: Conn, code: nat): Conn {
    if c.close.None? then c.(close := Some(code)) else c
  }

  /** Live delivery stops for `id`; the client is told to attach again. */
  function Fenced(c: Conn, id: Id, acknowledged: nat, noticeSize: nat): Conn {
    PushReliable(c.(replayRequired := c.replayRequired + {id}), TextFrame(ReplayRequired(id, acknowledged), noticeSize))
  }

  predicate Listens(c: Conn, id: Id) {
    c.Open() && id !in c.replayRequired && id in c.flow
  }

  function Published(c: Conn, settings: Settings, chunk: LiveChunk): Conn {
    if !Listens(c, chunk.id) then c
    else
      var flow := c.flow[chunk.id];
      if settings.protocol == 2 && !CanReserve(flow, chunk.sequence, |chunk.data|, settings.flowLimit) then
        Fenced(c, chunk.id, flow.acknowledged, chunk.noticeSize)
      else
        var reserved := if settings.protocol == 2
                        then c.(flow := c.flow[chunk.id := Reserved(flow, chunk.sequence, |chunk.data|)]) else c;
        var encoded := Wire.Encoded(chunk.eventSequence, chunk.sequence, chunk.id, chunk.data);
        if encoded.None? then reserved
        else
          var frame := TerminalOutput(chunk.id, chunk.sequence, encoded.value);
          if FitsLegacy(c.box, DEFAULT_LIMITS, chunk.id, frame)
          then reserved.(box := Push(c.box, Legacy, chunk.id, frame))
          else Fenced(reserved, chunk.id, flow.acknowledged, chunk.noticeSize)
  }

  /** What the writer can take now, if anything; it waits otherwise. */
  function Offered(c: Conn): Option<NextOutbound> {
    if c.attaching == {} && Head(c.box).Some? then Some(Frame(Head(c.box).value))
    else if c.close.Some? then Some(Close(c.close.value))
    else None
  }

  function Taken(c: Conn): Conn {
    if c.attaching == {} && Head(c.box).Some? then c.(box := Pop(c.box))
    else if c.close.Some? then c.(close := None, stopped := true)
    else c
  }

  // ----- the connection itself -----

  class ConnectionOutbound {
    const settings: Settings
    const mailbox: OutboundMailbox
    var flow: map<Id, TerminalFlow>
    var replayRequired: set<Id>
    var attaching: set<Id>
    var close: Option<nat>
    var stopped: bool

    ghost predicate Valid()
      reads this, mailbox
    {
      && mailbox.Valid() && mailbox.limits == DEFAULT_LIMITS
      && (forall id :: id in flow ==> Counted(flow[id]))
    }

    ghost function Now(): Conn
      reads this, mailbox
    {
      Conn(mailbox.box, flow, replayRequired, attaching, close, stopped)
    }

    constructor (settings: Settings)
      ensures Valid() && Now() == FRESH && this.settings == settings && fresh(mailbox)
    {
      hide Represents;
      this.settings := settings;
      var fresh_mailbox := new OutboundMailbox(DEFAULT_LIMITS);
      mailbox := fresh_mailbox;
      flow, replayRequired, attaching, close, stopped := map[], {}, {}, None, false;
    }

    method EnqueueReliableFrame(frame: OutboundFrame) returns (ok: bool)
      requires Valid()
      modifies this, mailbox
      ensures Valid() && Now() == SendReliable(old(Now()), frame)
      ensures ok == (old(Now()).Open() && FitsReliable(old(mailbox.box), DEFAULT_LIMITS, frame))
    {
      hide Represents, FitsReliable;
      if stopped || close.Some? {
        return false;
      }
      var result := mailbox.EnqueueReliable(frame);
      if !result.accepted {
        close := Some(OVERFLOW_CODE);
        return false;
      }
      return true;
    }

    method Attach(id: Id, acknowledged: nat)
      requires Valid()
      modifies this
      ensures Valid() && Now() == Attached(old(Now()), id, acknowledged)
    {
      hide Represents;
      flow := flow[id := NewFlow(acknowledged)];
      replayRequired := replayRequired - {id};
      attaching := attaching + {id};
    }

    method EnqueueAttachResult(id: Id, snapshot: Option<nat>, reply: OutboundFrame) returns (ok: bool)
      requires Valid()
      modifies this, mailbox
      ensures Valid() && Now() == AttachAnswered(old(Now()), id, snapshot, reply)
      ensures ok == AttachFits(old(Now()), reply)
    {
      hide Represents, FitsReliable, Acked, Discard;
      var result := mailbox.EnqueueReliablePriority(reply);
      if !result.accepted {
        close := Some(OVERFLOW_CODE);
        return false;
      }
      if snapshot.Some? {
        mailbox.DiscardTerminalThrough(id, snapshot.value);
        if id in flow {
          var acked := AcknowledgeFlow(flow[id], snapshot.value);
          flow := flow[id := acked];
        }
      } else {
        flow := flow - {id};
        replayRequired := replayRequired - {id};
      }
      attaching := attaching - {id};
      return true;
    }

    method Detach(id: Id)
      requires Valid()
      modifies this
      ensures Valid() && Now() == Detached(old(Now()), id)
    {
      hide Represents;
      flow := flow - {id};
      replayRequired := replayRequired - {id};
      attaching := attaching - {id};
    }

    method Acknowledge(id: Id, sequence: nat)
      requires Valid()
      modifies this
      ensures Valid() && Now() == Acknowledged(old(Now()), id, sequence)
    {
      hide Represents, Acked;
      if id in flow {
        var acked := AcknowledgeFlow(flow[id], sequence);
        flow := flow[id := acked];
      }
    }

    method RequestClose(code: nat)
      requires Valid()
      modifies this
      ensures Valid() && Now() == CloseRequested(old(Now()), code)
    {
      hide Represents;
      if close.None? {
        close := Some(code);
      }
    }

    method Stop()
      requires Valid()
      modifies this
      ensures Valid() && Now() == old(Now()).(stopped := true)
    {
      hide Represents;
      stopped := true;
    }

    method RequireReplay(id: Id, acknowledged: nat, noticeSize: nat)
      requires Valid()
      modifies this, mailbox
      ensures Valid() && Now() == Fenced(old(Now()), id, acknowledged, noticeSize)
    {
      hide Represents, FitsReliable;
      replayRequired := replayRequired + {id};
      var result := mailbox.EnqueueReliable(TextFrame(ReplayRequired(id, acknowledged), noticeSize));
      if !result.accepted {
        close := Some(OVERFLOW_CODE);
      }
    }

    method EnqueueTerminal(chunk: LiveChunk)
      requires Valid()
      modifies this, mailbox
      ensures Valid() && Now() == Published(old(Now()), settings, chunk)
    {
      hide Represents, FitsReliable, FitsLegacy, Fenced, Counted, Push;
      if stopped || close.Some? || chunk.id in replayRequired || chunk.id !in flow {
        return;
      }
      var current := flow[chunk.id];
      if settings.protocol == 2 {
        if !CanReserve(current, chunk.sequence, |chunk.data|, settings.flowLimit) {
          RequireReplay(chunk.id, current.acknowledged, chunk.noticeSize);
          return;
        }
        ReservedCounted(current, chunk.sequence, |chunk.data|);
        flow := flow[chunk.id := Reserved(current, chunk.sequence, |chunk.data|)];
      }
      var encoded := Wire.EncodeTerminalDataFrame(chunk.eventSequence, chunk.sequence, chunk.id, chunk.data);
      if encoded.None? {
        return;
      }
      var result := mailbox.EnqueueLegacy(chunk.id, TerminalOutput(chunk.id, chunk.sequence, encoded.value));
      if !result.accepted {
        RequireReplay(chunk.id, current.acknowledged, chunk.noticeSize);
      }
    }

    /** One pass of the writer's wait loop: nothing means it must wait, or end when `stopped`. */
    method Next() returns (next: Option<NextOutbound>)
      requires Valid()
      modifies this, mailbox
      ensures Valid() && Now() == Taken(old(Now()))
      ensures next == Offered(old(Now()))
    {
      hide Represents;
      if attaching == {} {
        var frame := mailbox.PopNext();
        if frame.Some? {
          return Some(Frame(frame.value));
        }
      }
      if close.Some? {
        next := Some(Close(close.value));
        close, stopped := None, true;
        return;
      }
      return None;
    }
  }
}
