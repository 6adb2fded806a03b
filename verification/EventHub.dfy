/** The event hub's sequence numbers and its bounded replay history. */
module EventHub {
  import opened Wrappers

  const DEFAULT_EVENT_CAPACITY: nat := 1024
  const DEFAULT_EVENT_BYTES: nat := 16 * 1024 * 1024

  /** `size` is an argument's contribution to the estimate: a string's length, or its JSON text's. */
  datatype Argument = Argument(value: string, size: nat)

  datatype Event = Event(sequence: nat, channel: string, args: seq<Argument>)

  datatype Retained = Retained(event: Event, bytes: nat)

  datatype State = State(sequence: nat, history: seq<Retained>, historyBytes: nat, droppedThrough: nat)

  datatype Limits = Limits(capacity: nat, maxBytes: nat)

  datatype Window = Window(events: seq<Event>, floor: nat, lastSequence: nat, evicted: bool)

  predicate IsEphemeral(channel: string) {
    channel == "terminal:semantic" || channel == "security:device-revoked"
  }

  function ArgumentBytes(args: seq<Argument>): nat {
    if args == [] then 0 else args[0].size + ArgumentBytes(args[1..])
  }

  function EstimateBytes(event: Event): nat {
    64 + |event.channel| + ArgumentBytes(event.args)
  }

  function Greatest(a: nat, b: nat): nat {
    if a >= b then a else b
  }

  // ----- the operations -----

  function Trimmed(s: State, limits: Limits): State
    decreases |s.history|
  {
    if s.history != [] && (|s.history| > limits.capacity || s.historyBytes > limits.maxBytes) then
      var dropped := s.history[0];
      Trimmed(s.(history := s.history[1..],
                 historyBytes := if dropped.bytes <= s.historyBytes then s.historyBytes - dropped.bytes else 0,
                 droppedThrough := Greatest(s.droppedThrough, dropped.event.sequence)), limits)
    else s
  }

  function Retaining(s: State, event: Event): State {
    s.(sequence := event.sequence, history := s.history + [Retained(event, EstimateBytes(event))],
       historyBytes := s.historyBytes + EstimateBytes(event))
  }

  function Emitted(s: State, limits: Limits, channel: string, args: seq<Argument>): State {
    var event := Event(s.sequence + 1, channel, args);
    if IsEphemeral(channel) then s.(sequence := event.sequence) else Trimmed(Retaining(s, event), limits)
  }

  /** A terminal frame takes a sequence number and no history. */
  function EmittedTerminal(s: State): State {
    s.(sequence := s.sequence + 1)
  }

  function After(history: seq<Retained>, since: nat): seq<Event> {
    if history == [] then []
    else (if history[0].event.sequence > since then [history[0].event] else []) + After(history[1..], since)
  }

  function WindowOf(s: State, since: nat): Window {
    Window(After(s.history, since), if s.history == [] then s.sequence + 1 else s.history[0].event.sequence, s.sequence,
           since > 0 && if s.history == [] then s.droppedThrough > since else since + 1 < s.history[0].event.sequence)
  }

  // ----- runs -----

  datatype Emit = Emit(channel: string, args: seq<Argument>) | EmitTerminal

  const START := State(0, [], 0, 0)

  function Step(s: State, limits: Limits, e: Emit): State {
    match e
    case Emit(channel, args) => Emitted(s, limits, channel, args)
    case EmitTerminal => EmittedTerminal(s)
  }

  function Run(limits: Limits, emits: seq<Emit>): State {
    if emits == [] then START else Step(Run(limits, emits[..|emits| - 1]), limits, emits[|emits| - 1])
  }

  /** Every event ever emitted that is not ephemeral: the `n`th emission has sequence `n`. */
  function Kept(emits: seq<Emit>): seq<Event> {
    if emits == [] then []
    else
      var last := emits[|emits| - 1];
      Kept(emits[..|emits| - 1])
      + (if last.Emit? && !IsEphemeral(last.channel) then [Event(|emits|, last.channel, last.args)] else [])
  }

  function EventsAfter(events: seq<Event>, since: nat): seq<Event> {
    if events == [] then []
    else (if events[0].sequence > since then [events[0]] else []) + EventsAfter(events[1..], since)
  }

  // ----- what every run keeps -----

  predicate Rising(events: seq<Event>, low: nat, high: nat) {
    events == [] || (low < events[0].sequence <= high && Rising(events[1..], events[0].sequence, high))
  }

  function Remembered(events: seq<Event>): seq<Retained> {
    seq(|events|, i requires 0 <= i < |events| => Retained(events[i], EstimateBytes(events[i])))
  }

  function Bytes(events: seq<Event>): nat {
    if events == [] then 0 else EstimateBytes(events[0]) + Bytes(events[1..])
  }

  function LastSequence(events: seq<Event>): nat {
    if events == [] then 0 else events[|events| - 1].sequence
  }

  /** The history is the events after the last dropped one, and the byte count is theirs. */
  ghost predicate Holds(s: State, gone: seq<Event>, held: seq<Event>) {
    && Rising(gone + held, 0, s.sequence)
    && s.history == Remembered(held) && s.historyBytes == Bytes(held)
    && s.droppedThrough == LastSequence(gone)
  }

  ghost predicate Inv(s: State, limits: Limits, all: seq<Event>) {
    && (exists gone, held :: all == gone + held && Holds(s, gone, held))
    && (|s.history| <= limits.capacity && s.historyBytes <= limits.maxBytes)
  }

  lemma {:induction false} RisingConcat(a: seq<Event>, b: seq<Event>, low: nat, high: nat)
    ensures Rising(a + b, low, high) <==> Rising(a, low, high) && Rising(b, if a == [] then low else LastSequence(a), high)
  {
    if a == [] {
      assert a + b == b;
    } else {
      assert (a + b)[0] == a[0] && (a + b)[1..] == a[1..] + b;
      RisingConcat(a[1..], b, a[0].sequence, high);
    }
  }

  lemma {:induction false} RisingHigher(events: seq<Event>, low: nat, high: nat, higher: nat)
    requires Rising(events, low, high) && high <= higher
    ensures Rising(events, low, higher)
    ensures events != [] ==> low < LastSequence(events) <= high
  {
    if events != [] {
      RisingHigher(events[1..], events[0].sequence, high, higher);
    }
  }

  lemma {:induction false} BytesConcat(a: seq<Event>, b: seq<Event>)
    ensures Bytes(a + b) == Bytes(a) + Bytes(b)
  {
    if a == [] {
      assert a + b == b;
    } else {
      assert (a + b)[0] == a[0] && (a + b)[1..] == a[1..] + b;
      BytesConcat(a[1..], b);
    }
  }

  /** Trimming moves events from held to gone, oldest first, until both limits hold. */
  lemma {:induction false} TrimHolds(s: State, limits: Limits, gone: seq<Event>, held: seq<Event>)
    requires Holds(s, gone, held)
    ensures exists more, rest :: gone + held == more + rest && Holds(Trimmed(s, limits), more, rest)
    ensures var t := Trimmed(s, limits);
      t.sequence == s.sequence && |t.history| <= limits.capacity && t.historyBytes <= limits.maxBytes
    decreases |s.history|
  {
    hide EstimateBytes, Rising;
    if s.history != [] && (|s.history| > limits.capacity || s.historyBytes > limits.maxBytes) {
      var first, rest := held[0], held[1..];
      assert gone + [first] + rest == gone + held;
      assert s.history[0] == Retained(first, EstimateBytes(first)) && s.history[1..] == Remembered(rest);
      RisingConcat(gone, held, 0, s.sequence);
      DroppedRises(gone, held, s.sequence);
      var next := s.(history := s.history[1..], historyBytes := s.historyBytes - EstimateBytes(first),
                     droppedThrough := Greatest(s.droppedThrough, first.sequence));
      assert Holds(next, gone + [first], rest);
      TrimHolds(next, limits, gone + [first], rest);
    } else {
      assert Bytes([]) == 0;
      assert |held| == |s.history|;
    }
  }

  lemma DroppedRises(gone: seq<Event>, held: seq<Event>, high: nat)
    requires Rising(gone + held, 0, high) && held != []
    ensures LastSequence(gone) < held[0].sequence == LastSequence(gone + [held[0]])
  {
    RisingConcat(gone, held, 0, high);
  }

  lemma PushHolds(s: State, event: Event, gone: seq<Event>, held: seq<Event>)
    requires Holds(s, gone, held) && event.sequence == s.sequence + 1
    ensures Holds(Retaining(s, event), gone, held + [event])
  {
    hide EstimateBytes, Rising;
    var all := gone + held;
    RisingHigher(all, 0, s.sequence, event.sequence);
    RisingConcat(all, [event], 0, event.sequence);
    OneRises(event, if all == [] then 0 else LastSequence(all));
    assert gone + (held + [event]) == all + [event];
    BytesConcat(held, [event]);
    OneByte(event);
    assert Remembered(held + [event]) == Remembered(held) + [Retained(event, EstimateBytes(event))];
  }

  lemma OneRises(event: Event, low: nat)
    requires low < event.sequence
    ensures Rising([event], low, event.sequence)
  {
    assert [event][1..] == [];
  }

  lemma OneByte(event: Event)
    ensures Bytes([event]) == EstimateBytes(event)
  {
    assert [event][1..] == [];
  }

  lemma QuietHolds(s: State, gone: seq<Event>, held: seq<Event>)
    requires Holds(s, gone, held)
    ensures Holds(s.(sequence := s.sequence + 1), gone, held)
  {
    RisingHigher(gone + held, 0, s.sequence, s.sequence + 1);
  }

  lemma {:induction false} RunKeeps(limits: Limits, emits: seq<Emit>)
    ensures Inv(Run(limits, emits), limits, Kept(emits)) && Run(limits, emits).sequence == |emits|
  {
    hide Holds, Trimmed, EstimateBytes;
    if emits == [] {
      StartHolds();
      assert [] + [] == Kept(emits);
    } else {
      var init, last := emits[..|emits| - 1], emits[|emits| - 1];
      RunKeeps(limits, init);
      var s := Run(limits, init);
      var gone, held :| Kept(init) == gone + held && Holds(s, gone, held);
      if last.Emit? && !IsEphemeral(last.channel) {
        var event := Event(s.sequence + 1, last.channel, last.args);
        PushHolds(s, event, gone, held);
        assert gone + (held + [event]) == Kept(init) + [event];
        TrimHolds(Retaining(s, event), limits, gone, held + [event]);
      } else {
        QuietHolds(s, gone, held);
        assert Kept(init) + [] == Kept(init);
      }
    }
  }

  lemma StartHolds()
    ensures Holds(START, [], [])
  {
  }

  // ----- the replay window -----

  lemma {:induction false} AfterConcat(a: seq<Event>, b: seq<Event>, since: nat)
    ensures EventsAfter(a + b, since) == EventsAfter(a, since) + EventsAfter(b, since)
  {
    if a == [] {
      assert a + b == b;
    } else {
      assert (a + b)[0] == a[0] && (a + b)[1..] == a[1..] + b;
      AfterConcat(a[1..], b, since);
    }
  }

  lemma {:induction false} AfterRemembered(events: seq<Event>, since: nat)
    ensures After(Remembered(events), since) == EventsAfter(events, since)
  {
    hide EstimateBytes;
    if events != [] {
      AfterRemembered(events[1..], since);
      assert Remembered(events)[1..] == Remembered(events[1..]);
    }
  }

  /** Nothing of a rising list comes after `since` exactly when its last event does not. */
  lemma {:induction false} NothingAfter(events: seq<Event>, low: nat, high: nat, since: nat)
    requires Rising(events, low, high)
    ensures EventsAfter(events, since) == [] <==> LastSequence(events) <= since
  {
    if events != [] {
      NothingAfter(events[1..], events[0].sequence, high, since);
      RisingHigher(events[1..], events[0].sequence, high, high);
    }
  }

  /**
    The events a window gives are exactly all those kept after `since`, in order, if and only if
    nothing after `since` has been dropped; and both limits hold.
  */
  lemma WindowCompleteExactly(limits: Limits, emits: seq<Emit>, since: nat)
    ensures var s := Run(limits, emits);
      && (WindowOf(s, since).events == EventsAfter(Kept(emits), since) <==> s.droppedThrough <= since)
      && WindowOf(s, since).lastSequence == |emits|
      && |s.history| <= limits.capacity && s.historyBytes <= limits.maxBytes
  {
    hide Run, Rising, EventsAfter, After, Bytes;
    RunKeeps(limits, emits);
    var s := Run(limits, emits);
    var gone, held :| Kept(emits) == gone + held && Holds(s, gone, held);
    AfterConcat(gone, held, since);
    AfterRemembered(held, since);
    RisingConcat(gone, held, 0, s.sequence);
    NothingAfter(gone, 0, s.sequence, since);
    assert EventsAfter(gone, since) == [] ==> [] + EventsAfter(held, since) == EventsAfter(held, since);
  }

  /** So when a client that has seen something is not told of eviction, the window is complete. */
  lemma NotEvictedIsComplete(limits: Limits, emits: seq<Emit>, since: nat)
    requires since > 0 && !WindowOf(Run(limits, emits), since).evicted
    ensures WindowOf(Run(limits, emits), since).events == EventsAfter(Kept(emits), since)
  {
    hide Run, Rising, EventsAfter, After, Bytes;
    RunKeeps(limits, emits);
    WindowCompleteExactly(limits, emits, since);
    var s := Run(limits, emits);
    var gone, held :| Kept(emits) == gone + held && Holds(s, gone, held);
    if held != [] {
      DroppedRises(gone, held, s.sequence);
      assert s.history[0].event == held[0];
    }
  }

  // ----- when the report is right -----

  /** An emission that takes a sequence number and leaves nothing to replay. */
  predicate IsQuiet(e: Emit) {
    e.EmitTerminal? || IsEphemeral(e.channel)
  }

  /** The number `q` was taken by a quiet emission. */
  predicate QuietAt(emits: seq<Emit>, q: nat) {
    1 <= q <= |emits| && IsQuiet(emits[q - 1])
  }

  lemma {:induction false} KeptHas(emits: seq<Emit>, q: nat)
    requires 1 <= q <= |emits| && !IsQuiet(emits[q - 1])
    ensures exists i :: 0 <= i < |Kept(emits)| && Kept(emits)[i].sequence == q
    decreases |emits|
  {
    var init := emits[..|emits| - 1];
    if q == |emits| {
      assert Kept(emits)[|Kept(init)|].sequence == q;
    } else {
      KeptHas(init, q);
      var i :| 0 <= i < |Kept(init)| && Kept(init)[i].sequence == q;
      assert Kept(emits)[i].sequence == q;
    }
  }

  lemma {:induction false} RisingBounds(events: seq<Event>, low: nat, high: nat, i: nat)
    requires Rising(events, low, high) && i < |events|
    ensures low < events[0].sequence <= events[i].sequence <= LastSequence(events) <= high
    decreases |events|
  {
    RisingHigher(events, low, high, high);
    RisingHigher(events[1..], events[0].sequence, high, high);
    if i > 0 {
      RisingBounds(events[1..], events[0].sequence, high, i - 1);
    }
  }

  /** Every number between the last event dropped and the window's floor was spent on a terminal frame or an ephemeral event. */
  lemma QuietBelowFloor(limits: Limits, emits: seq<Emit>, q: nat)
    requires var s := Run(limits, emits); s.droppedThrough < q < WindowOf(s, 0).floor
    ensures QuietAt(emits, q)
  {
    hide Run, Rising, After, Bytes, Kept;
    RunKeeps(limits, emits);
    var s := Run(limits, emits);
    var gone, held :| Kept(emits) == gone + held && Holds(s, gone, held);
    RisingConcat(gone, held, 0, s.sequence);
    FloorIs(s, gone, held);
    if !IsQuiet(emits[q - 1]) {
      KeptHas(emits, q);
      var i :| 0 <= i < |Kept(emits)| && Kept(emits)[i].sequence == q;
      if i < |gone| {
        RisingBounds(gone, 0, s.sequence, i);
      } else {
        RisingBounds(held, if gone == [] then 0 else LastSequence(gone), s.sequence, i - |gone|);
      }
    }
  }

  lemma FloorIs(s: State, gone: seq<Event>, held: seq<Event>)
    requires Holds(s, gone, held)
    ensures WindowOf(s, 0).floor == if held == [] then s.sequence + 1 else held[0].sequence
    ensures WindowOf(s, 0).floor <= s.sequence + 1
  {
    RisingConcat(gone, held, 0, s.sequence);
  }

  /** The client asks after `since`, nothing after it was dropped, and yet the oldest event kept is not the next number. */
  predicate FalseAlarm(s: State, since: nat) {
    since > 0 && s.droppedThrough <= since && s.history != [] && since + 1 < s.history[0].event.sequence
  }

  /**
    A complete window is reported as evicted exactly in this case; then every number from the client's to
    the oldest event kept was spent on terminal frames and ephemeral events.
  */
  lemma FalseAlarmExactly(limits: Limits, emits: seq<Emit>, since: nat)
    ensures var s := Run(limits, emits); var w := WindowOf(s, since);
      && (w.evicted && w.events == EventsAfter(Kept(emits), since) <==> FalseAlarm(s, since))
      && (FalseAlarm(s, since) ==>
            forall q :: since < q < s.history[0].event.sequence ==> QuietAt(emits, q))
  {
    hide Run, EventsAfter, After;
    WindowCompleteExactly(limits, emits, since);
    var s := Run(limits, emits);
    if FalseAlarm(s, since) {
      forall q | since < q < s.history[0].event.sequence
        ensures QuietAt(emits, q)
      {
        QuietBelowFloor(limits, emits, q);
      }
    }
  }

  /** The report is right, both ways, exactly when there is no false alarm and a client that asks from 0 has lost nothing. */
  lemma ReportRightExactly(limits: Limits, emits: seq<Emit>, since: nat)
    ensures var s := Run(limits, emits); var w := WindowOf(s, since);
      (w.evicted <==> w.events != EventsAfter(Kept(emits), since))
      <==> !FalseAlarm(s, since) && (since == 0 ==> s.droppedThrough == 0)
  {
    hide Run, EventsAfter, After;
    WindowCompleteExactly(limits, emits, since);
    FalseAlarmExactly(limits, emits, since);
    if since > 0 && !WindowOf(Run(limits, emits), since).evicted { NotEvictedIsComplete(limits, emits, since); }
  }

  /** A false alarm: two terminal frames, then the first event. */
  lemma CautiousEviction()
    ensures var limits := Limits(DEFAULT_EVENT_CAPACITY, DEFAULT_EVENT_BYTES);
      var s := Run(limits, [EmitTerminal, EmitTerminal, Emit("mux:event", [])]);
      WindowOf(s, 1).evicted && s.droppedThrough == 0 && FalseAlarm(s, 1)
  {
    var limits := Limits(DEFAULT_EVENT_CAPACITY, DEFAULT_EVENT_BYTES);
    var emits := [EmitTerminal, EmitTerminal, Emit("mux:event", [])];
    assert emits[..2] == [EmitTerminal, EmitTerminal] && emits[..2][..1] == [EmitTerminal] && emits[..2][..1][..0] == [];
    assert Run(limits, []) == START;
    assert Run(limits, [EmitTerminal]) == State(1, [], 0, 0);
    assert Run(limits, emits[..2]) == State(2, [], 0, 0);
    var event := Event(3, "mux:event", []);
    assert EstimateBytes(event) == 73;
    assert Run(limits, emits) == State(3, [Retained(event, 73)], 73, 0);
  }

  /** A client that asks from 0 is never told: with room for one event, the first of two is gone and not reported. */
  lemma EvictionUnreportedFromZero()
    ensures var limits := Limits(1, DEFAULT_EVENT_BYTES);
      var emits := [Emit("mux:event", []), Emit("mux:event", [])];
      var w := WindowOf(Run(limits, emits), 0);
      !w.evicted && w.events == [Event(2, "mux:event", [])] && |EventsAfter(Kept(emits), 0)| == 2
  {
    var limits := Limits(1, DEFAULT_EVENT_BYTES);
    var first, second := Event(1, "mux:event", []), Event(2, "mux:event", []);
    var emits := [Emit("mux:event", []), Emit("mux:event", [])];
    assert emits[..1] == [Emit("mux:event", [])] && emits[..1][..0] == [];
    assert EstimateBytes(first) == EstimateBytes(second) == 73;
    var s := Run(limits, emits[..1]);
    assert Run(limits, []) == START;
    assert s == State(1, [Retained(first, 73)], 73, 0) by {
      assert [] + [Retained(first, 73)] == [Retained(first, 73)];
    }
    var pushed := Retaining(s, second);
    assert pushed == State(2, [Retained(first, 73), Retained(second, 73)], 146, 0);
    assert pushed.history[1..] == [Retained(second, 73)];
    assert Trimmed(State(2, [Retained(second, 73)], 73, 1), limits) == State(2, [Retained(second, 73)], 73, 1);
    assert Run(limits, emits) == State(2, [Retained(second, 73)], 73, 1);
    assert After([Retained(second, 73)], 0) == [second] by { assert [Retained(second, 73)][1..] == []; }
    assert Kept([]) == [] && Kept(emits[..1]) == [first] && Kept(emits) == [first] + [second];
    assert ([first] + [second])[1..] == [second] && [second][1..] == [];
    assert EventsAfter([second], 0) == [second] + EventsAfter([], 0);
  }

  // ----- what is dropped -----

  predicate Fits(events: seq<Event>, limits: Limits) {
    |events| <= limits.capacity && Bytes(events) <= limits.maxBytes
  }

  /** The history is what is left of all the events kept once `dropped` are gone. */
  ghost predicate LeftAfter(s: State, all: seq<Event>, dropped: nat) {
    && dropped <= |all| && Holds(s, all[..dropped], all[dropped..])
  }

  lemma LeftShape(s: State, all: seq<Event>, dropped: nat)
    requires LeftAfter(s, all, dropped)
    ensures dropped == |all| - |s.history| && s.history == Remembered(all[dropped..])
    ensures s.droppedThrough == LastSequence(all[..dropped]) && s.historyBytes == Bytes(all[dropped..])
  {
    hide Rising, Bytes;
  }

  lemma DropOne(s: State, all: seq<Event>, dropped: nat)
    requires LeftAfter(s, all, dropped) && dropped < |all|
    ensures var first := s.history[0];
      LeftAfter(s.(history := s.history[1..], historyBytes := if first.bytes <= s.historyBytes then s.historyBytes - first.bytes else 0,
                   droppedThrough := Greatest(s.droppedThrough, first.event.sequence)), all, dropped + 1)
  {
    hide EstimateBytes, Rising;
    var gone, held := all[..dropped], all[dropped..];
    DroppedRises(gone, held, s.sequence);
    assert all[..dropped + 1] == gone + [held[0]] && all[dropped + 1..] == held[1..];
    assert gone + held == all[..dropped + 1] + all[dropped + 1..];
    assert s.history[1..] == Remembered(held[1..]);
  }

  lemma {:induction false} TrimsLeast(s: State, limits: Limits, all: seq<Event>, dropped: nat) returns (k: nat)
    requires LeftAfter(s, all, dropped)
    ensures dropped <= k && LeftAfter(Trimmed(s, limits), all, k) && Fits(all[k..], limits)
    ensures k > dropped ==> !Fits(all[k - 1..], limits)
    decreases |s.history|
  {
    hide LeftAfter, Bytes, EstimateBytes, Remembered;
    LeftShape(s, all, dropped);
    RememberedSize(all[dropped..]);
    if s.history != [] && (|s.history| > limits.capacity || s.historyBytes > limits.maxBytes) {
      DropOne(s, all, dropped);
      var first := s.history[0];
      var next := s.(history := s.history[1..], historyBytes := if first.bytes <= s.historyBytes then s.historyBytes - first.bytes else 0,
                     droppedThrough := Greatest(s.droppedThrough, first.event.sequence));
      k := TrimsLeast(next, limits, all, dropped + 1);
    } else {
      k := dropped;
      NoEventBytes();
    }
  }

  lemma RememberedSize(events: seq<Event>)
    ensures |Remembered(events)| == |events|
  {
  }

  lemma NoEventBytes()
    ensures Bytes([]) == 0
  {
  }

  lemma PushLeft(s: State, event: Event, all: seq<Event>, dropped: nat)
    requires LeftAfter(s, all, dropped) && event.sequence == s.sequence + 1
    ensures LeftAfter(Retaining(s, event), all + [event], dropped)
  {
    hide Holds;
    PushHolds(s, event, all[..dropped], all[dropped..]);
    assert (all + [event])[..dropped] == all[..dropped] && (all + [event])[dropped..] == all[dropped..] + [event];
  }

  lemma MoreFitsLess(all: seq<Event>, event: Event, k: nat, limits: Limits)
    requires k <= |all| && Fits((all + [event])[k..], limits)
    ensures Fits(all[k..], limits)
  {
    hide Bytes;
    assert (all + [event])[k..] == all[k..] + [event];
    BytesConcat(all[k..], [event]);
  }

  /**
    The history is always the longest run of the newest kept events that both limits allow: an event is
    dropped only when it and all after it no longer fit.
  */
  lemma {:induction false} HistoryIsLongest(limits: Limits, emits: seq<Emit>)
    ensures var s, all := Run(limits, emits), Kept(emits); var d := |all| - |s.history|;
      && d >= 0 && s.history == Remembered(all[d..]) && s.droppedThrough == LastSequence(all[..d])
      && s.sequence == |emits|
      && Fits(all[d..], limits) && (d > 0 ==> !Fits(all[d - 1..], limits))
  {
    hide LeftAfter, Fits, Remembered, LastSequence, Kept;
    var d := LeftInRuns(limits, emits);
    LeftShape(Run(limits, emits), Kept(emits), d);
  }

  lemma {:induction false} LeftInRuns(limits: Limits, emits: seq<Emit>) returns (d: nat)
    ensures LeftAfter(Run(limits, emits), Kept(emits), d) && Run(limits, emits).sequence == |emits|
    ensures d <= |Kept(emits)| && Fits(Kept(emits)[d..], limits) && (d > 0 ==> !Fits(Kept(emits)[d - 1..], limits))
  {
    hide LeftAfter, Fits, Trimmed, Retaining;
    if emits == [] {
      d := 0;
      StartLeft(limits);
    } else {
      var init, last := emits[..|emits| - 1], emits[|emits| - 1];
      var s, all := Run(limits, init), Kept(init);
      var low := LeftInRuns(limits, init);
      RunKeeps(limits, emits);
      if last.Emit? && !IsEphemeral(last.channel) {
        var event := Event(s.sequence + 1, last.channel, last.args);
        PushLeft(s, event, all, low);
        d := TrimsLeast(Retaining(s, event), limits, all + [event], low);
        LeftWithin(Trimmed(Retaining(s, event), limits), all + [event], d);
        if d == low && d > 0 && Fits((all + [event])[d - 1..], limits) {
          MoreFitsLess(all, event, d - 1, limits);
        }
      } else {
        d := low;
        QuietLeft(s, all, d);
        assert all + [] == all;
      }
    }
  }

  lemma LeftWithin(s: State, all: seq<Event>, dropped: nat)
    requires LeftAfter(s, all, dropped)
    ensures dropped <= |all|
  {
  }

  lemma QuietLeft(s: State, all: seq<Event>, dropped: nat)
    requires LeftAfter(s, all, dropped)
    ensures LeftAfter(s.(sequence := s.sequence + 1), all, dropped)
  {
    hide Holds;
    QuietHolds(s, all[..dropped], all[dropped..]);
  }

  lemma StartLeft(limits: Limits)
    ensures LeftAfter(START, [], 0) && Fits([], limits)
  {
    StartHolds();
  }

  /** And a window is cut from it: its events, its floor and whether it says something is missing. */
  lemma WindowExactly(limits: Limits, emits: seq<Emit>, since: nat)
    ensures var s, all, w := Run(limits, emits), Kept(emits), WindowOf(Run(limits, emits), since);
      var d := |all| - |s.history|;
      && d >= 0 && w.events == EventsAfter(all[d..], since) && w.lastSequence == |emits|
      && w.floor == (if d == |all| then |emits| + 1 else all[d].sequence)
      && (w.evicted <==> since > 0 && if d < |all| then since + 1 < all[d].sequence else d > 0 && since < all[d - 1].sequence)
  {
    hide Fits, EventsAfter, After, Kept, Run;
    HistoryIsLongest(limits, emits);
    var s, all := Run(limits, emits), Kept(emits);
    var d := |all| - |s.history|;
    AfterRemembered(all[d..], since);
    if d < |all| { assert s.history[0].event == all[d..][0]; }
  }

  // ----- the hub -----

  class Hub {
    var sequence: nat
    var history: seq<Retained>
    var historyBytes: nat
    var droppedThrough: nat
    const limits: Limits

    function Now(): State
      reads this
    {
      State(sequence, history, historyBytes, droppedThrough)
    }

    constructor (limits: Limits)
      ensures Now() == START && this.limits == limits
    {
      sequence, history, historyBytes, droppedThrough := 0, [], 0, 0;
      this.limits := limits;
    }

    method EmitEvent(channel: string, args: seq<Argument>) returns (event: Event)
      modifies this
      ensures Now() == Emitted(old(Now()), limits, channel, args)
      ensures event == Event(old(sequence) + 1, channel, args)
    {
      hide EstimateBytes, Trimmed;
      sequence := sequence + 1;
      event := Event(sequence, channel, args);
      if !IsEphemeral(channel) {
        var bytes := EstimateBytes(event);
        history := history + [Retained(event, bytes)];
        historyBytes := historyBytes + bytes;
        assert Now() == Retaining(old(Now()), event);
        Trim();
      }
    }

    method Trim()
      modifies `history, `historyBytes, `droppedThrough
      ensures Now() == Trimmed(old(Now()), limits)
    {
      while history != [] && (|history| > limits.capacity || historyBytes > limits.maxBytes)
        invariant Trimmed(Now(), limits) == Trimmed(old(Now()), limits)
        decreases |history|
      {
        var dropped := history[0];
        history := history[1..];
        historyBytes := if dropped.bytes <= historyBytes then historyBytes - dropped.bytes else 0;
        droppedThrough := Greatest(droppedThrough, dropped.event.sequence);
      }
    }

    method EmitTerminalFrame() returns (eventSequence: nat)
      modifies `sequence
      ensures Now() == EmittedTerminal(old(Now())) && eventSequence == sequence
    {
      sequence := sequence + 1;
      eventSequence := sequence;
    }

    method ReplayWindow(since: nat) returns (window: Window)
      ensures window == WindowOf(Now(), since)
    {
      hide After;
      var events := SelectAfter(history, since);
      var floor := if history == [] then sequence + 1 else history[0].event.sequence;
      var evicted := since > 0 && if history == [] then droppedThrough > since else since + 1 < floor;
      window := Window(events, floor, sequence, evicted);
    }
  }

  method SelectAfter(history: seq<Retained>, since: nat) returns (events: seq<Event>)
    ensures events == After(history, since)
  {
    hide After;
    events := [];
    AfterStep(history[|history|..], since);
    for i := |history| downto 0
      invariant events == After(history[i..], since)
    {
      AfterStep(history[i..], since);
      assert history[i..][1..] == history[i + 1..];
      if history[i].event.sequence > since {
        events := [history[i].event] + events;
      } else {
        assert [] + events == events;
      }
    }
    assert history[0..] == history;
  }

  lemma AfterStep(history: seq<Retained>, since: nat)
    ensures After(history, since) ==
            if history == [] then []
            else (if history[0].event.sequence > since then [history[0].event] else []) + After(history[1..], since)
  {
  }
}
