/** What every run of the delivery system promises the client. */
module LiveDeliveryTheorems {
  import opened Wrappers
  import opened Bytes
  import opened Frames
  import opened Mailbox
  import opened Outbound
  import opened LiveDelivery
  import opened LiveDeliveryProof
  import Wire

  // ----- the stream of one terminal, spelled out -----

  datatype Item = Output(sequence: nat) | Notice

  /** The frames of one terminal that carry output or a replay notice, in order. */
  function Seen(frames: seq<OutboundFrame>, id: Id): seq<Item> {
    if frames == [] then []
    else
      var last := frames[|frames| - 1];
      Seen(frames[..|frames| - 1], id) +
      (if IsNotice(last, id) then [Notice]
       else if IsOutput(last, id) && last.terminalSequence.Some? then [Output(last.terminalSequence.value)]
       else [])
  }

  function Notified(count: nat): (items: seq<Item>)
    ensures |items| == count
  {
    seq(count, i => Notice)
  }

  function Outputs(after: nat, count: nat): (items: seq<Item>)
    ensures |items| == count
  {
    seq(count, i requires 0 <= i < count => Output(after + 1 + i))
  }

  /** `stale` left-over notices, chunks `after + 1` to `after + count`, then perhaps a notice. */
  function Shape(stale: nat, after: nat, count: nat, fenced: bool): seq<Item> {
    Notified(stale) + Outputs(after, count) + Notified(if fenced then 1 else 0)
  }

  predicate NoReply(frames: seq<OutboundFrame>, id: Id) {
    forall i :: 0 <= i < |frames| ==> !IsReply(frames[i], id)
  }

  lemma {:induction false} WatchedShape(n: nat, stale: nat, id: Id, frames: seq<OutboundFrame>)
    requires NoReply(frames, id)
    requires ObserveAll(Live(n + 1, stale, false), id, frames).Live?
    ensures var w := ObserveAll(Live(n + 1, stale, false), id, frames);
      && w.notices <= stale && w.next >= n + 1
      && Seen(frames, id) == Shape(stale - w.notices, n, w.next - n - 1, w.fenced)
      && (w.next > n + 1 || w.fenced ==> w.notices == 0)
  {
    if frames != [] {
      var init, last := frames[..|frames| - 1], frames[|frames| - 1];
      assert frames == init + [last];
      UnbrokenPrefix(Live(n + 1, stale, false), id, init, [last]);
      StaysLive(n, stale, id, init);
      WatchedShape(n, stale, id, init);
      ShapeGrows(ObserveAll(Live(n + 1, stale, false), id, init), n, stale, id, last);
    }
  }

  lemma {:induction false} StaysLive(n: nat, stale: nat, id: Id, frames: seq<OutboundFrame>)
    requires NoReply(frames, id) && !ObserveAll(Live(n + 1, stale, false), id, frames).Broken?
    ensures ObserveAll(Live(n + 1, stale, false), id, frames).Live?
  {
    if frames != [] {
      var init, last := frames[..|frames| - 1], frames[|frames| - 1];
      assert frames == init + [last];
      UnbrokenPrefix(Live(n + 1, stale, false), id, init, [last]);
      StaysLive(n, stale, id, init);
    }
  }

  lemma ShapeGrows(w: Watch, n: nat, stale: nat, id: Id, f: OutboundFrame)
    requires w.Live? && w.notices <= stale && w.next >= n + 1
    requires w.next > n + 1 || w.fenced ==> w.notices == 0
    requires !IsReply(f, id) && Observe(w, id, f).Live?
    ensures var v := Observe(w, id, f);
      && v.notices <= stale && v.next >= n + 1
      && (v.next > n + 1 || v.fenced ==> v.notices == 0)
      && Shape(stale - v.notices, n, v.next - n - 1, v.fenced)
         == Shape(stale - w.notices, n, w.next - n - 1, w.fenced) +
            (if IsNotice(f, id) then [Notice]
             else if IsOutput(f, id) && f.terminalSequence.Some? then [Output(f.terminalSequence.value)] else [])
  {
    var v := Observe(w, id, f);
    var m := w.next - n - 1;
    if IsNotice(f, id) && w.notices > 0 {
      assert Notified(stale - v.notices) == Notified(stale - w.notices) + [Notice];
    } else if IsOutput(f, id) && !IsNotice(f, id) {
      assert Outputs(n, m + 1) == Outputs(n, m) + [Output(w.next)];
    }
  }

  /** What may follow an attach reply with snapshot `n` while `stale` notices were left over. */
  ghost predicate IsStream(items: seq<Item>, n: nat, stale: nat) {
    exists notices: nat, count: nat, fenced: bool ::
      notices <= stale && items == Shape(notices, n, count, fenced) && (count > 0 || fenced ==> notices == stale)
  }

  lemma RunUnbroken(settings: Settings, events: seq<Event>, id: Id)
    ensures !ObserveAll(Silent, id, Run(Start(settings), events).log).Broken?
  {
    hide ObserveAll, Run;
    var s := Run(Start(settings), events);
    RunKeeps(settings, events);
    assert Kept(s, id);
    UnbrokenPrefix(Silent, id, s.log, PriorityFrames(s.conn.box.priority));
  }

  lemma ReplyStarts(id: Id, before: seq<OutboundFrame>, reply: OutboundFrame, after: seq<OutboundFrame>)
    requires IsReply(reply, id) && reply.payload.message.snapshot.Some?
    requires !ObserveAll(Silent, id, before + [reply] + after).Broken?
    ensures var n, stale := reply.payload.message.snapshot.value, reply.payload.message.staleFences;
      ObserveAll(Silent, id, before + [reply] + after) == ObserveAll(Live(n + 1, stale, false), id, after)
  {
    hide ObserveAll;
    ObserveConcat(Silent, id, before + [reply], after);
    ObservePush(Silent, id, before, reply);
    UnbrokenPrefix(Silent, id, before + [reply], after);
    UnbrokenPrefix(Silent, id, before, [reply]);
  }

  /**
    In every run, what follows an attach reply with snapshot `n`, up to the next
    attach reply of that terminal, is: left-over notices that were already queued
    when the attach began, then chunks n+1, n+2, ... with no gap, repeat or
    reorder, then at most one notice of this attach and nothing after it.
  */
  lemma LiveStream(settings: Settings, events: seq<Event>, id: Id,
                   before: seq<OutboundFrame>, reply: OutboundFrame, after: seq<OutboundFrame>)
    requires Run(Start(settings), events).log == before + [reply] + after
    requires IsReply(reply, id) && reply.payload.message.snapshot.Some? && NoReply(after, id)
    ensures IsStream(Seen(after, id), reply.payload.message.snapshot.value, reply.payload.message.staleFences)
  {
    hide ObserveAll, Run, Seen, Shape;
    RunUnbroken(settings, events, id);
    ReplyStarts(id, before, reply, after);
    var n, stale := reply.payload.message.snapshot.value, reply.payload.message.staleFences;
    StaysLive(n, stale, id, after);
    WatchedShape(n, stale, id, after);
    var w := ObserveAll(Live(n + 1, stale, false), id, after);
    assert Seen(after, id) == Shape(stale - w.notices, n, w.next - n - 1, w.fenced);
  }

  // ----- when the notices come last -----

  /** No output follows a notice, and there is at most one notice. */
  predicate OutputsFirst(items: seq<Item>) {
    forall i :: 0 <= i < |items| - 1 ==> items[i].Output?
  }

  lemma ShapeOutputsFirst(notices: nat, n: nat, count: nat, fenced: bool)
    ensures OutputsFirst(Shape(notices, n, count, fenced)) <==> notices == 0 || |Shape(notices, n, count, fenced)| <= 1
  {
    var items := Shape(notices, n, count, fenced);
    if notices > 0 && |items| > 1 {
      assert items[0] == Notice;
    }
  }

  lemma OutputsFirstByFences(settings: Settings, events: seq<Event>, id: Id,
                             before: seq<OutboundFrame>, reply: OutboundFrame, after: seq<OutboundFrame>)
    requires Run(Start(settings), events).log == before + [reply] + after
    requires IsReply(reply, id) && reply.payload.message.snapshot.Some? && NoReply(after, id)
    ensures OutputsFirst(Seen(after, id)) <==> reply.payload.message.staleFences == 0 || |Seen(after, id)| <= 1
  {
    hide Run, Seen, Shape, OutputsFirst;
    LiveStream(settings, events, id, before, reply, after);
    var n, stale := reply.payload.message.snapshot.value, reply.payload.message.staleFences;
    var notices: nat, count: nat, fenced: bool :|
      notices <= stale && Seen(after, id) == Shape(notices, n, count, fenced) && (count > 0 || fenced ==> notices == stale);
    ShapeOutputsFirst(notices, n, count, fenced);
    ShapeLength(notices, n, count, fenced);
  }

  lemma ShapeLength(notices: nat, n: nat, count: nat, fenced: bool)
    ensures |Shape(notices, n, count, fenced)| == notices + count + if fenced then 1 else 0
  {
  }

  // ----- what the client decodes -----

  predicate IsFrameOf(f: OutboundFrame, id: Id) {
    f.payload.Binary? && Wire.Decoded(f.payload.data).Some? && Wire.Decoded(f.payload.data).value.id == id
  }

  /** The payloads the client's decoder yields for one terminal, in order. */
  function Payloads(frames: seq<OutboundFrame>, id: Id): seq<seq<byte>> {
    if frames == [] then []
    else
      var last := frames[|frames| - 1];
      Payloads(frames[..|frames| - 1], id) +
      (if IsFrameOf(last, id) then [Wire.Decoded(last.payload.data).value.payload] else [])
  }

  /** Terminal ids are strings, and no owner has emitted more chunks than a u64 counts. */
  predicate Representable(s: System) {
    forall id :: id in s.chunks ==> Wire.ValidUtf8(id) && |s.chunks[id]| < U64
  }

  /** Consecutive chunks, starting after the first `n`. */
  predicate ContinuesFrom(payloads: seq<seq<byte>>, chunks: seq<seq<byte>>, n: nat) {
    forall i :: 0 <= i < |payloads| ==> n + i < |chunks| && payloads[i] == chunks[n + i]
  }

  lemma CarriedDecodes(s: System, f: OutboundFrame)
    requires Carries(s, f) && Representable(s) && f.payload.Binary?
    ensures Wire.Decoded(f.payload.data) ==
            Some(Wire.TerminalFrame(f.terminalId.value, f.terminalSequence.value,
                                    Chunks(s, f.terminalId.value)[f.terminalSequence.value - 1]))
  {
    hide Wire.Encoded, Wire.Decoded, Wire.ValidUtf8;
    var id, q := f.terminalId.value, f.terminalSequence.value;
    var event: nat :| IsEncoding(f.payload.data, event, q, id, Chunks(s, id));
    Wire.DecodeEncoded(event, q, id, Chunks(s, id)[q - 1]);
  }

  lemma {:induction false} SeenPayloads(s: System, n: nat, stale: nat, id: Id, frames: seq<OutboundFrame>)
    requires NoReply(frames, id) && Representable(s)
    requires forall i :: 0 <= i < |frames| ==> Carries(s, frames[i])
    requires ObserveAll(Live(n + 1, stale, false), id, frames).Live?
    ensures |Payloads(frames, id)| + n + 1 == ObserveAll(Live(n + 1, stale, false), id, frames).next
    ensures ContinuesFrom(Payloads(frames, id), Chunks(s, id), n)
  {
    if frames != [] {
      hide Wire.Decoded, Carries, Representable, Observe, IsFrameOf, IsReply, Payloads, ContinuesFrom, ObserveAll;
      var init, last := frames[..|frames| - 1], frames[|frames| - 1];
      assert frames == init + [last];
      UnbrokenPrefix(Live(n + 1, stale, false), id, init, [last]);
      StaysLive(n, stale, id, init);
      SeenPayloads(s, n, stale, id, init);
      ObservePush(Live(n + 1, stale, false), id, init, last);
      OneMorePayload(s, id, ObserveAll(Live(n + 1, stale, false), id, init), last);
      PayloadsPush(init, last, id);
      if IsFrameOf(last, id) {
        ContinuesPush(Payloads(init, id), Chunks(s, id), n);
      }
    }
  }

  lemma PayloadsPush(frames: seq<OutboundFrame>, f: OutboundFrame, id: Id)
    ensures Payloads(frames + [f], id) ==
            if IsFrameOf(f, id) then Payloads(frames, id) + [Wire.Decoded(f.payload.data).value.payload] else Payloads(frames, id)
  {
    assert (frames + [f])[..|frames|] == frames;
  }

  lemma ContinuesPush(payloads: seq<seq<byte>>, chunks: seq<seq<byte>>, n: nat)
    requires ContinuesFrom(payloads, chunks, n) && n + |payloads| < |chunks|
    ensures ContinuesFrom(payloads + [chunks[n + |payloads|]], chunks, n)
  {
  }

  lemma OneMorePayload(s: System, id: Id, w: Watch, f: OutboundFrame)
    requires Carries(s, f) && Representable(s) && !IsReply(f, id) && w.Live? && Observe(w, id, f).Live?
    ensures if IsFrameOf(f, id)
            then Observe(w, id, f).next == w.next + 1 && 1 <= w.next <= |Chunks(s, id)|
              && Wire.Decoded(f.payload.data).value.payload == Chunks(s, id)[w.next - 1]
            else Observe(w, id, f).next == w.next
  {
    hide Wire.Decoded, Representable;
    if f.payload.Binary? {
      CarriedDecodes(s, f);
    }
  }

  /** The client decodes exactly the owner's chunks after the snapshot, byte for byte, as far as it has read. */
  lemma ClientReadsChunks(settings: Settings, events: seq<Event>, id: Id,
                          before: seq<OutboundFrame>, reply: OutboundFrame, after: seq<OutboundFrame>)
    requires Run(Start(settings), events).log == before + [reply] + after
    requires IsReply(reply, id) && reply.payload.message.snapshot.Some? && NoReply(after, id)
    requires Representable(Run(Start(settings), events))
    ensures ContinuesFrom(Payloads(after, id), Chunks(Run(Start(settings), events), id), reply.payload.message.snapshot.value)
  {
    hide ObserveAll, Run, Payloads, Carries, ContinuesFrom, Representable;
    var s := Run(Start(settings), events);
    var n, stale := reply.payload.message.snapshot.value, reply.payload.message.staleFences;
    RunUnbroken(settings, events, id);
    ReplyStarts(id, before, reply, after);
    StaysLive(n, stale, id, after);
    AfterCarries(settings, events, before, reply, after);
    SeenPayloads(s, n, stale, id, after);
  }

  lemma LogCarries(settings: Settings, events: seq<Event>)
    ensures forall i :: 0 <= i < |Run(Start(settings), events).log| ==>
              Carries(Run(Start(settings), events), Run(Start(settings), events).log[i])
  {
    hide Carries, Run, Kept;
    var s := Run(Start(settings), events);
    RunKeeps(settings, events);
    forall i | 0 <= i < |s.log| ensures Carries(s, s.log[i]) {
      assert s.log[i] == Committed(s)[i];
    }
  }

  // ----- nothing is lost silently -----

  /**
    Once the writer has handed out everything queued, a terminal that was attached
    has received every chunk its owner emitted, unless it has also received the
    notice that asks it to attach again.
  */
  lemma NothingLost(settings: Settings, events: seq<Event>, id: Id)
    ensures var s := Run(Start(settings), events); var w := ObserveAll(Silent, id, s.log);
      s.conn.attaching == {} && Head(s.conn.box).None? && w.Live? && s.conn.Open() && id in s.conn.flow ==>
        && w.notices == 0
        && (id in s.conn.replayRequired ==> w.fenced)
        && (id !in s.conn.replayRequired && id in s.subscribed ==>
              !w.fenced && (|id| < U16 ==> w.next == |Chunks(s, id)| + 1))
  {
    hide ObserveAll, Run;
    var s := Run(Start(settings), events);
    RunKeeps(settings, events);
    assert Kept(s, id);
    if s.conn.attaching == {} && Head(s.conn.box).None? {
      assert Committed(s) + ArrivalFrames(s.conn.box.arrivals) == s.log;
    }
  }

  // ----- the client's cursor -----

  /** The sequence the client would attach after, next time. */
  function Cursor(frames: seq<OutboundFrame>, id: Id): nat {
    if frames == [] then 0
    else
      var cursor, last := Cursor(frames[..|frames| - 1], id), frames[|frames| - 1];
      if IsReply(last, id) then
        if last.payload.message.snapshot.Some? then last.payload.message.snapshot.value else cursor
      else if IsOutput(last, id) && last.terminalSequence.Some? && last.terminalSequence.value > cursor then
        last.terminalSequence.value
      else cursor
  }

  lemma {:induction false} CursorFollows(id: Id, frames: seq<OutboundFrame>)
    requires ObserveAll(Silent, id, frames).Live?
    ensures Cursor(frames, id) + 1 == ObserveAll(Silent, id, frames).next
  {
    var init, last := frames[..|frames| - 1], frames[|frames| - 1];
    if !IsReply(last, id) {
      CursorFollows(id, init);
    }
  }

  /** In every run, the client's cursor counts exactly the chunks it holds: attaching again after it skips and repeats nothing. */
  lemma CursorIsLast(settings: Settings, events: seq<Event>, id: Id,
                     before: seq<OutboundFrame>, reply: OutboundFrame, after: seq<OutboundFrame>)
    requires Run(Start(settings), events).log == before + [reply] + after
    requires IsReply(reply, id) && reply.payload.message.snapshot.Some? && NoReply(after, id)
    requires Representable(Run(Start(settings), events))
    ensures Cursor(Run(Start(settings), events).log, id) == reply.payload.message.snapshot.value + |Payloads(after, id)|
  {
    hide ObserveAll, Run, Payloads, Carries, ContinuesFrom, Representable, Cursor;
    var s := Run(Start(settings), events);
    var n, stale := reply.payload.message.snapshot.value, reply.payload.message.staleFences;
    RunUnbroken(settings, events, id);
    ReplyStarts(id, before, reply, after);
    StaysLive(n, stale, id, after);
    AfterCarries(settings, events, before, reply, after);
    SeenPayloads(s, n, stale, id, after);
    CursorFollows(id, s.log);
  }

  lemma AfterCarries(settings: Settings, events: seq<Event>,
                     before: seq<OutboundFrame>, reply: OutboundFrame, after: seq<OutboundFrame>)
    requires Run(Start(settings), events).log == before + [reply] + after
    ensures forall i :: 0 <= i < |after| ==> Carries(Run(Start(settings), events), after[i])
  {
    hide Run, Carries;
    var s := Run(Start(settings), events);
    LogCarries(settings, events);
    forall i | 0 <= i < |after|
      ensures Carries(s, after[i])
    {
      assert s.log[|before| + 1 + i] == after[i];
    }
  }
}
