/**
  The bounded per-connection mailbox. `Box` is its meaning: one queue ordered by
  arrival behind a FIFO priority lane. The class keeps three separate stores with
  byte counters and picks between them by order number.
*/
module Mailbox {
  import opened Wrappers
  import opened Frames

  datatype Limits = Limits(
    reliableMaxFrames: nat,
    reliableMaxBytes: nat,
    legacyMaxFrames: nat,
    legacyMaxBytes: nat,
    semanticMaxTerminals: nat,
    semanticMaxBytes: nat)

  const DEFAULT_LIMITS := Limits(256, 2 * 1024 * 1024, 8_192, 32 * 1024 * 1024, 64, 16 * 1024 * 1024 + 6)

  datatype Lane = Reliable | Legacy | Semantic

  /** One arrival; `key` names the terminal whose state a semantic arrival replaces. */
  datatype Arrival = Arrival(lane: Lane, key: Id, frame: OutboundFrame, order: nat)

  datatype Queued = Queued(frame: OutboundFrame, order: nat)

  datatype Box = Box(priority: seq<Queued>, arrivals: seq<Arrival>, nextOrder: nat)

  const EMPTY_BOX := Box([], [], 0)

  // ----- measures of the queue -----

  function InLane(arrivals: seq<Arrival>, lane: Lane): seq<Queued> {
    if arrivals == [] then []
    else
      var last := arrivals[|arrivals| - 1];
      InLane(arrivals[..|arrivals| - 1], lane) +
      (if last.lane == lane then [Queued(last.frame, last.order)] else [])
  }

  function Sum(queue: seq<Queued>): nat {
    if queue == [] then 0 else Sum(queue[..|queue| - 1]) + queue[|queue| - 1].frame.Size()
  }

  function SemanticKeys(arrivals: seq<Arrival>): set<Id> {
    if arrivals == [] then {}
    else
      var last := arrivals[|arrivals| - 1];
      SemanticKeys(arrivals[..|arrivals| - 1]) + if last.lane == Semantic then {last.key} else {}
  }

  function ReliableSum(box: Box): nat {
    Sum(box.priority) + Sum(InLane(box.arrivals, Reliable))
  }

  function LegacySum(box: Box): nat {
    Sum(InLane(box.arrivals, Legacy))
  }

  function SemanticSum(box: Box): nat {
    Sum(InLane(box.arrivals, Semantic))
  }

  /** Every limit holds, orders follow arrival, and a key has one semantic arrival. */
  ghost predicate Bounded(box: Box, limits: Limits) {
    && |box.priority| + |InLane(box.arrivals, Reliable)| <= limits.reliableMaxFrames
    && ReliableSum(box) <= limits.reliableMaxBytes
    && |InLane(box.arrivals, Legacy)| <= limits.legacyMaxFrames
    && LegacySum(box) <= limits.legacyMaxBytes
    && |SemanticKeys(box.arrivals)| <= limits.semanticMaxTerminals
    && SemanticSum(box) <= limits.semanticMaxBytes
  }

  ghost predicate Ordered(box: Box) {
    && (forall i, j :: 0 <= i < j < |box.arrivals| ==> box.arrivals[i].order < box.arrivals[j].order)
    && (forall i :: 0 <= i < |box.arrivals| ==> box.arrivals[i].order < box.nextOrder)
    && (forall i, j :: 0 <= i < j < |box.arrivals|
          && box.arrivals[i].lane == Semantic && box.arrivals[j].lane == Semantic
          ==> box.arrivals[i].key != box.arrivals[j].key)
  }

  // ----- what each operation means -----

  predicate FitsReliable(box: Box, limits: Limits, frame: OutboundFrame) {
    && |box.priority| + |InLane(box.arrivals, Reliable)| < limits.reliableMaxFrames
    && ReliableSum(box) + frame.Size() <= limits.reliableMaxBytes
  }

  predicate FitsLegacy(box: Box, limits: Limits, id: Id, frame: OutboundFrame) {
    && id != []
    && |InLane(box.arrivals, Legacy)| < limits.legacyMaxFrames
    && LegacySum(box) + frame.Size() <= limits.legacyMaxBytes
  }

  predicate FitsNewSemantic(box: Box, limits: Limits, frame: OutboundFrame) {
    && |SemanticKeys(box.arrivals)| < limits.semanticMaxTerminals
    && SemanticSum(box) + frame.Size() <= limits.semanticMaxBytes
  }

  /** A newer semantic state takes over its predecessor's place in the queue. */
  function ReplaceAt(box: Box, i: nat, frame: OutboundFrame): Box
    requires i < |box.arrivals|
  {
    box.(arrivals := box.arrivals[i := box.arrivals[i].(frame := frame)])
  }

  /** The queue after a semantic enqueue, or nothing when the frame is rejected. */
  function PushSemantic(box: Box, limits: Limits, id: Id, frame: OutboundFrame): Option<Box> {
    var i := Place(box.arrivals, id);
    if id == [] || frame.Size() > limits.semanticMaxBytes then None
    else if i < |box.arrivals| then
      if SemanticSum(box) - box.arrivals[i].frame.Size() + frame.Size() > limits.semanticMaxBytes then None
      else Some(ReplaceAt(box, i, frame))
    else if FitsNewSemantic(box, limits, frame) then Some(Push(box, Semantic, id, frame))
    else None
  }

  function PushPriority(box: Box, frame: OutboundFrame): Box {
    Box(box.priority + [Queued(frame, box.nextOrder)], box.arrivals, box.nextOrder + 1)
  }

  function Push(box: Box, lane: Lane, key: Id, frame: OutboundFrame): Box {
    Box(box.priority, box.arrivals + [Arrival(lane, key, frame, box.nextOrder)], box.nextOrder + 1)
  }

  /** The place of `key`'s semantic arrival, or the length when it has none. */
  function Place(arrivals: seq<Arrival>, key: Id): (i: nat)
    ensures i <= |arrivals|
    ensures i < |arrivals| ==> arrivals[i].lane == Semantic && arrivals[i].key == key
    ensures forall k :: 0 <= k < i ==> arrivals[k].lane != Semantic || arrivals[k].key != key
  {
    if arrivals == [] then 0
    else if arrivals[0].lane == Semantic && arrivals[0].key == key then 0
    else 1 + Place(arrivals[1..], key)
  }

  function Without(arrivals: seq<Arrival>, id: Id, sequence: nat): seq<Arrival> {
    if arrivals == [] then []
    else
      var last := arrivals[|arrivals| - 1];
      Without(arrivals[..|arrivals| - 1], id, sequence) +
      (if last.lane == Legacy && last.frame.CoveredBy(id, sequence) then [] else [last])
  }

  function Discard(box: Box, id: Id, sequence: nat): Box {
    box.(arrivals := Without(box.arrivals, id, sequence))
  }

  /** The head of the priority lane, else of the queue. */
  function Head(box: Box): Option<OutboundFrame> {
    if box.priority != [] then Some(box.priority[0].frame)
    else if box.arrivals != [] then Some(box.arrivals[0].frame)
    else None
  }

  function Pop(box: Box): Box {
    if box.priority != [] then box.(priority := box.priority[1..])
    else if box.arrivals != [] then box.(arrivals := box.arrivals[1..])
    else box
  }

  // ----- lemmas about the measures -----

  lemma {:induction false} SumConcat(a: seq<Queued>, b: seq<Queued>)
    ensures Sum(a + b) == Sum(a) + Sum(b)
  {
    if b == [] {
      assert a + b == a;
    } else {
      var init := b[..|b| - 1];
      assert (a + b)[..|a + b| - 1] == a + init;
      SumConcat(a, init);
    }
  }

  lemma SumHead(a: seq<Queued>)
    requires a != []
    ensures Sum(a) == a[0].frame.Size() + Sum(a[1..])
  {
    assert a == [a[0]] + a[1..];
    SumConcat([a[0]], a[1..]);
    assert Sum([a[0]]) == Sum([]) + a[0].frame.Size();
  }

  lemma {:induction false} InLaneConcat(a: seq<Arrival>, b: seq<Arrival>, lane: Lane)
    ensures InLane(a + b, lane) == InLane(a, lane) + InLane(b, lane)
  {
    if b == [] {
      assert a + b == a;
    } else {
      var init := b[..|b| - 1];
      assert (a + b)[..|a + b| - 1] == a + init;
      InLaneConcat(a, init, lane);
    }
  }

  lemma InLaneOne(a: Arrival, lane: Lane)
    ensures InLane([a], lane) == if a.lane == lane then [Queued(a.frame, a.order)] else []
  {
    assert [a][..0] == [];
  }

  lemma InLaneHead(a: seq<Arrival>, lane: Lane)
    requires a != []
    ensures InLane(a, lane) ==
            (if a[0].lane == lane then [Queued(a[0].frame, a[0].order)] else []) + InLane(a[1..], lane)
  {
    assert a == [a[0]] + a[1..];
    InLaneConcat([a[0]], a[1..], lane);
    InLaneOne(a[0], lane);
  }

  lemma {:induction false} InLaneMember(a: seq<Arrival>, lane: Lane, q: Queued)
    ensures q in InLane(a, lane) <==>
            exists i :: 0 <= i < |a| && a[i].lane == lane && q == Queued(a[i].frame, a[i].order)
  {
    if a != [] {
      var init, last := a[..|a| - 1], a[|a| - 1];
      InLaneMember(init, lane, q);
      assert forall i :: 0 <= i < |init| ==> init[i] == a[i];
      if last.lane == lane && q == Queued(last.frame, last.order) {
        assert a[|a| - 1] == last;
      }
      assert q in InLane(init, lane) ==> exists i :: 0 <= i < |a| && a[i].lane == lane && q == Queued(a[i].frame, a[i].order);
    }
  }

  lemma InLanePush(a: seq<Arrival>, b: Arrival, lane: Lane)
    ensures InLane(a + [b], lane) == if b.lane == lane then InLane(a, lane) + [Queued(b.frame, b.order)] else InLane(a, lane)
    ensures Sum(InLane(a + [b], lane)) == Sum(InLane(a, lane)) + if b.lane == lane then b.frame.Size() else 0
  {
    assert (a + [b])[..|a|] == a;
    SumPush(InLane(a, lane), Queued(b.frame, b.order));
    assert InLane(a, lane) + [] == InLane(a, lane);
  }

  lemma {:induction false} KeysConcat(a: seq<Arrival>, b: seq<Arrival>)
    ensures SemanticKeys(a + b) == SemanticKeys(a) + SemanticKeys(b)
  {
    if b == [] {
      assert a + b == a;
    } else {
      var init := b[..|b| - 1];
      assert (a + b)[..|a + b| - 1] == a + init;
      KeysConcat(a, init);
    }
  }

  lemma KeysOne(a: Arrival)
    ensures SemanticKeys([a]) == if a.lane == Semantic then {a.key} else {}
  {
    assert [a][..0] == [];
  }

  lemma {:induction false} KeysMember(a: seq<Arrival>, key: Id)
    ensures key in SemanticKeys(a) <==> Place(a, key) < |a|
  {
    if a != [] {
      assert a == [a[0]] + a[1..];
      KeysConcat([a[0]], a[1..]);
      KeysOne(a[0]);
      KeysMember(a[1..], key);
    }
  }

  lemma SumPush(a: seq<Queued>, q: Queued)
    ensures Sum(a + [q]) == Sum(a) + q.frame.Size()
  {
    assert (a + [q])[..|a|] == a;
  }

  /** Replacing a frame in place changes no lane but its own, and that one only by the size difference. */
  lemma {:induction false} InLaneReplace(a: seq<Arrival>, i: nat, frame: OutboundFrame, lane: Lane)
    requires i < |a|
    ensures var b := a[i := a[i].(frame := frame)];
      && (lane != a[i].lane ==> InLane(b, lane) == InLane(a, lane))
      && |InLane(b, lane)| == |InLane(a, lane)|
      && (lane == a[i].lane ==> Sum(InLane(b, lane)) + a[i].frame.Size() == Sum(InLane(a, lane)) + frame.Size())
  {
    hide InLane, Sum;
    var b := a[i := a[i].(frame := frame)];
    var init, last := a[..|a| - 1], a[|a| - 1];
    if i == |a| - 1 {
      assert a == init + [last] && b == init + [b[i]];
      InLanePush(init, last, lane);
      InLanePush(init, b[i], lane);
    } else {
      InLaneReplace(init, i, frame, lane);
      var init' := init[i := a[i].(frame := frame)];
      assert a == init + [last] && b == init' + [last];
      InLanePush(init, last, lane);
      InLanePush(init', last, lane);
    }
  }

  // ----- the stores and what they represent -----

  datatype Stores = Stores(
    priority: seq<Queued>,
    reliable: seq<Queued>,
    reliableBytes: nat,
    legacy: seq<Queued>,
    legacyBytes: nat,
    semantic: map<Id, Queued>,
    semanticBytes: nat,
    nextOrder: nat)

  /** The semantic map holds exactly the semantic arrivals, by key. */
  ghost predicate SemanticMatches(semantic: map<Id, Queued>, arrivals: seq<Arrival>) {
    && semantic.Keys == SemanticKeys(arrivals)
    && (forall i :: 0 <= i < |arrivals| && arrivals[i].lane == Semantic ==>
          arrivals[i].key in semantic && semantic[arrivals[i].key] == Queued(arrivals[i].frame, arrivals[i].order))
  }

  ghost predicate CountersMatch(s: Stores, box: Box) {
    && s.reliableBytes == ReliableSum(box)
    && s.legacyBytes == LegacySum(box)
    && s.semanticBytes == SemanticSum(box)
  }

  ghost predicate Represents(s: Stores, box: Box, limits: Limits) {
    && Ordered(box)
    && Bounded(box, limits)
    && s.nextOrder == box.nextOrder
    && s.priority == box.priority
    && s.reliable == InLane(box.arrivals, Reliable)
    && s.legacy == InLane(box.arrivals, Legacy)
    && SemanticMatches(s.semantic, box.arrivals)
    && CountersMatch(s, box)
  }

  lemma PushOrdered(box: Box, lane: Lane, key: Id, frame: OutboundFrame)
    requires Ordered(box)
    requires lane == Semantic ==> key !in SemanticKeys(box.arrivals)
    ensures Ordered(Push(box, lane, key, frame))
  {
    if lane == Semantic {
      KeysMember(box.arrivals, key);
    }
  }

  lemma PushSemanticMatches(semantic: map<Id, Queued>, arrivals: seq<Arrival>, a: Arrival)
    requires SemanticMatches(semantic, arrivals)
    requires a.lane == Semantic ==> a.key !in semantic
    ensures a.lane != Semantic ==> SemanticMatches(semantic, arrivals + [a])
    ensures a.lane == Semantic ==> SemanticMatches(semantic[a.key := Queued(a.frame, a.order)], arrivals + [a])
    ensures SemanticKeys(arrivals + [a]) == SemanticKeys(arrivals) + if a.lane == Semantic then {a.key} else {}
  {
    KeysConcat(arrivals, [a]);
    KeysOne(a);
    if a.lane == Semantic {
      KeysMember(arrivals, a.key);
    }
  }

  lemma EmptyMeasures(arrivals: seq<Arrival>)
    requires arrivals == []
    ensures InLane(arrivals, Reliable) == InLane(arrivals, Legacy) == InLane(arrivals, Semantic) == []
    ensures Sum([]) == 0 && SemanticKeys(arrivals) == {}
  {
  }

  lemma RepresentsEmpty(limits: Limits)
    ensures Represents(Stores([], [], 0, [], 0, map[], 0, 0), EMPTY_BOX, limits)
  {
    EmptyMeasures([]);
    hide InLane, Sum, SemanticKeys;
  }

  lemma RepresentsPriority(s: Stores, box: Box, limits: Limits, frame: OutboundFrame)
    requires Represents(s, box, limits) && FitsReliable(box, limits, frame)
    ensures Represents(
              s.(priority := s.priority + [Queued(frame, s.nextOrder)], nextOrder := s.nextOrder + 1,
                 reliableBytes := s.reliableBytes + frame.Size()),
              PushPriority(box, frame), limits)
  {
    SumPush(box.priority, Queued(frame, box.nextOrder));
  }

  lemma RepresentsReliable(s: Stores, box: Box, limits: Limits, frame: OutboundFrame)
    requires Represents(s, box, limits) && FitsReliable(box, limits, frame)
    ensures Represents(
              s.(reliable := s.reliable + [Queued(frame, s.nextOrder)], nextOrder := s.nextOrder + 1,
                 reliableBytes := s.reliableBytes + frame.Size()),
              Push(box, Reliable, [], frame), limits)
  {
    PushOrdered(box, Reliable, [], frame);
    PushLanes(s, box, Arrival(Reliable, [], frame, box.nextOrder));
  }

  lemma RepresentsLegacy(s: Stores, box: Box, limits: Limits, id: Id, frame: OutboundFrame)
    requires Represents(s, box, limits) && FitsLegacy(box, limits, id, frame)
    ensures Represents(
              s.(legacy := s.legacy + [Queued(frame, s.nextOrder)], nextOrder := s.nextOrder + 1,
                 legacyBytes := s.legacyBytes + frame.Size()),
              Push(box, Legacy, id, frame), limits)
  {
    PushOrdered(box, Legacy, id, frame);
    PushLanes(s, box, Arrival(Legacy, id, frame, box.nextOrder));
  }

  lemma RepresentsSemantic(s: Stores, box: Box, limits: Limits, id: Id, frame: OutboundFrame)
    requires Represents(s, box, limits) && FitsNewSemantic(box, limits, frame) && id !in s.semantic
    ensures Represents(
              s.(semantic := s.semantic[id := Queued(frame, s.nextOrder)], nextOrder := s.nextOrder + 1,
                 semanticBytes := s.semanticBytes + frame.Size()),
              Push(box, Semantic, id, frame), limits)
  {
    hide InLane, Sum;
    PushOrdered(box, Semantic, id, frame);
    PushLanes(s, box, Arrival(Semantic, id, frame, box.nextOrder));
  }

  lemma SemanticIsPlaced(s: Stores, box: Box, limits: Limits, id: Id)
    requires Represents(s, box, limits)
    ensures id in s.semantic <==> Place(box.arrivals, id) < |box.arrivals|
    ensures id in s.semantic ==>
              var a := box.arrivals[Place(box.arrivals, id)];
              s.semantic[id] == Queued(a.frame, a.order)
  {
    hide InLane, Sum, Ordered, Bounded;
    KeysMember(box.arrivals, id);
  }

  lemma SemanticCount(s: Stores, box: Box, limits: Limits)
    requires Represents(s, box, limits)
    ensures |s.semantic| == |SemanticKeys(box.arrivals)|
  {
    assert |s.semantic| == |s.semantic.Keys|;
  }

  lemma RepresentsReplacement(s: Stores, box: Box, limits: Limits, id: Id, frame: OutboundFrame)
    requires Represents(s, box, limits) && id in s.semantic
    requires Place(box.arrivals, id) < |box.arrivals|
    requires SemanticSum(box) - box.arrivals[Place(box.arrivals, id)].frame.Size() + frame.Size() <= limits.semanticMaxBytes
    ensures s.semanticBytes >= s.semantic[id].frame.Size()
    ensures Represents(
              s.(semantic := s.semantic[id := Queued(frame, s.semantic[id].order)],
                 semanticBytes := s.semanticBytes - s.semantic[id].frame.Size() + frame.Size()),
              ReplaceAt(box, Place(box.arrivals, id), frame), limits)
  {
    hide InLane, Sum, Ordered, SemanticMatches, SemanticKeys;
    SemanticIsPlaced(s, box, limits, id);
    var i := Place(box.arrivals, id);
    ReplaceOrdered(box, i, frame);
    ReplaceLanes(box.arrivals, i, frame);
    ReplaceSemanticMatches(s.semantic, box, i, frame);
    LaneHolds(box.arrivals, i);
  }

  lemma ReplaceOrdered(box: Box, i: nat, frame: OutboundFrame)
    requires Ordered(box) && i < |box.arrivals|
    ensures Ordered(ReplaceAt(box, i, frame))
  {
  }

  lemma ReplaceLanes(a: seq<Arrival>, i: nat, frame: OutboundFrame)
    requires i < |a| && a[i].lane == Semantic
    ensures var b := a[i := a[i].(frame := frame)];
      && InLane(b, Reliable) == InLane(a, Reliable)
      && InLane(b, Legacy) == InLane(a, Legacy)
      && Sum(InLane(b, Semantic)) + a[i].frame.Size() == Sum(InLane(a, Semantic)) + frame.Size()
  {
    hide InLane, Sum;
    InLaneReplace(a, i, frame, Reliable);
    InLaneReplace(a, i, frame, Legacy);
    InLaneReplace(a, i, frame, Semantic);
  }

  lemma {:induction false} LaneHolds(arrivals: seq<Arrival>, i: nat)
    requires i < |arrivals|
    ensures Sum(InLane(arrivals, arrivals[i].lane)) >= arrivals[i].frame.Size()
  {
    var init, last := arrivals[..|arrivals| - 1], arrivals[|arrivals| - 1];
    assert arrivals == init + [last];
    InLanePush(init, last, arrivals[i].lane);
    if i < |init| {
      LaneHolds(init, i);
    }
  }

  lemma ReplaceSemanticMatches(semantic: map<Id, Queued>, box: Box, i: nat, frame: OutboundFrame)
    requires Ordered(box) && SemanticMatches(semantic, box.arrivals)
    requires i < |box.arrivals| && box.arrivals[i].lane == Semantic
    ensures var was := box.arrivals[i];
      && SemanticMatches(semantic[was.key := Queued(frame, was.order)], ReplaceAt(box, i, frame).arrivals)
      && SemanticKeys(ReplaceAt(box, i, frame).arrivals) == SemanticKeys(box.arrivals)
  {
    ReplaceKeys(box.arrivals, i, frame);
    hide SemanticKeys;
  }

  lemma {:induction false} ReplaceKeys(a: seq<Arrival>, i: nat, frame: OutboundFrame)
    requires i < |a|
    ensures SemanticKeys(a[i := a[i].(frame := frame)]) == SemanticKeys(a)
  {
    var b := a[i].(frame := frame);
    assert a == a[..i] + [a[i]] + a[i + 1..];
    assert a[i := b] == a[..i] + [b] + a[i + 1..];
    KeysConcat(a[..i] + [a[i]], a[i + 1..]);
    KeysConcat(a[..i] + [b], a[i + 1..]);
    KeysConcat(a[..i], [a[i]]);
    KeysConcat(a[..i], [b]);
    KeysOne(a[i]);
    KeysOne(b);
  }

  lemma PushLanes(s: Stores, box: Box, a: Arrival)
    requires SemanticMatches(s.semantic, box.arrivals)
    requires a.lane == Semantic ==> a.key !in s.semantic
    ensures var pushed := box.arrivals + [a];
      && (forall lane: Lane :: InLane(pushed, lane)
            == InLane(box.arrivals, lane) + if a.lane == lane then [Queued(a.frame, a.order)] else [])
      && (forall lane: Lane :: Sum(InLane(pushed, lane))
            == Sum(InLane(box.arrivals, lane)) + if a.lane == lane then a.frame.Size() else 0)
      && SemanticMatches(if a.lane == Semantic then s.semantic[a.key := Queued(a.frame, a.order)] else s.semantic, pushed)
      && SemanticKeys(pushed) == SemanticKeys(box.arrivals) + if a.lane == Semantic then {a.key} else {}
  {
    forall lane: Lane
      ensures InLane(box.arrivals + [a], lane)
            == InLane(box.arrivals, lane) + if a.lane == lane then [Queued(a.frame, a.order)] else []
      ensures Sum(InLane(box.arrivals + [a], lane))
            == Sum(InLane(box.arrivals, lane)) + if a.lane == lane then a.frame.Size() else 0
    {
      InLanePush(box.arrivals, a, lane);
    }
    PushSemanticMatches(s.semantic, box.arrivals, a);
  }

  // ----- taking the head -----

  /** Where the selection found its frame. */
  datatype Source = FromReliable | FromLegacy | FromSemantic(id: Id)

  function SourceOf(a: Arrival): Source {
    match a.lane
    case Reliable => FromReliable
    case Legacy => FromLegacy
    case Semantic => FromSemantic(a.key)
  }

  /** The oldest frame each store can offer. */
  ghost predicate Offers(s: Stores, source: Source, q: Queued) {
    match source
    case FromReliable => s.reliable != [] && s.reliable[0] == q
    case FromLegacy => s.legacy != [] && s.legacy[0] == q
    case FromSemantic(id) => id in s.semantic && s.semantic[id] == q
  }

  /** What a store offers is in the queue, in that store's lane. */
  lemma OfferIsQueued(s: Stores, box: Box, limits: Limits, source: Source, q: Queued)
    requires Represents(s, box, limits) && Offers(s, source, q)
    ensures exists i :: 0 <= i < |box.arrivals| && SourceOf(box.arrivals[i]) == source
                     && q == Queued(box.arrivals[i].frame, box.arrivals[i].order)
  {
    hide InLane, Sum, Ordered, Bounded, SemanticKeys;
    if source.FromSemantic? {
      KeysMember(box.arrivals, source.id);
      var i := Place(box.arrivals, source.id);
      assert SourceOf(box.arrivals[i]) == source;
    } else {
      InLaneMember(box.arrivals, if source.FromReliable? then Reliable else Legacy, q);
      assert q in InLane(box.arrivals, if source.FromReliable? then Reliable else Legacy);
    }
  }

  /** The oldest arrival is what its own store offers, and everything else offered is younger. */
  lemma HeadIsOldest(s: Stores, box: Box, limits: Limits)
    requires Represents(s, box, limits) && box.arrivals != []
    ensures var head := box.arrivals[0];
      && Offers(s, SourceOf(head), Queued(head.frame, head.order))
      && (forall source, q :: Offers(s, source, q) ==>
            q.order >= head.order && (q.order == head.order ==> source == SourceOf(head)))
  {
    hide InLane, Sum, Bounded, SemanticKeys, Represents;
    var head := box.arrivals[0];
    HeadOffered(s, box, limits);
    forall source, q | Offers(s, source, q)
      ensures q.order >= head.order && (q.order == head.order ==> source == SourceOf(head))
    {
      OfferIsQueued(s, box, limits, source, q);
      RepresentsOrdered(s, box, limits);
    }
  }

  lemma RepresentsOrdered(s: Stores, box: Box, limits: Limits)
    requires Represents(s, box, limits)
    ensures Ordered(box)
  {
  }

  lemma HeadOffered(s: Stores, box: Box, limits: Limits)
    requires Represents(s, box, limits) && box.arrivals != []
    ensures Offers(s, SourceOf(box.arrivals[0]), Queued(box.arrivals[0].frame, box.arrivals[0].order))
  {
    hide InLane, Sum, Ordered, Bounded, SemanticKeys;
    InLaneHead(box.arrivals, Reliable);
    InLaneHead(box.arrivals, Legacy);
  }

  /** The stores after the head of a non-empty queue is taken from its own store. */
  function TakeFrom(s: Stores, source: Source): Stores
    requires source.FromReliable? ==> s.reliable != [] && s.reliableBytes >= s.reliable[0].frame.Size()
    requires source.FromLegacy? ==> s.legacy != [] && s.legacyBytes >= s.legacy[0].frame.Size()
    requires source.FromSemantic? ==> source.id in s.semantic && s.semanticBytes >= s.semantic[source.id].frame.Size()
  {
    match source
    case FromReliable =>
      s.(reliable := s.reliable[1..], reliableBytes := s.reliableBytes - s.reliable[0].frame.Size())
    case FromLegacy =>
      s.(legacy := s.legacy[1..], legacyBytes := s.legacyBytes - s.legacy[0].frame.Size())
    case FromSemantic(id) =>
      s.(semantic := s.semantic - {id}, semanticBytes := s.semanticBytes - s.semantic[id].frame.Size())
  }

  lemma PopPriority(s: Stores, box: Box, limits: Limits)
    requires Represents(s, box, limits) && box.priority != []
    ensures s.reliableBytes >= s.priority[0].frame.Size()
    ensures Represents(
              s.(priority := s.priority[1..], reliableBytes := s.reliableBytes - s.priority[0].frame.Size()),
              Pop(box), limits)
  {
    SumHead(box.priority);
    hide InLane, Sum, Ordered, SemanticMatches, SemanticKeys;
    PopKeepsOrder(box);
  }

  lemma PopKeepsOrder(box: Box)
    requires Ordered(box)
    ensures Ordered(Pop(box))
  {
  }

  lemma PopArrival(s: Stores, box: Box, limits: Limits)
    requires Represents(s, box, limits) && box.priority == [] && box.arrivals != []
    ensures var source := SourceOf(box.arrivals[0]);
      && (source.FromReliable? ==> s.reliable != [] && s.reliableBytes >= s.reliable[0].frame.Size())
      && (source.FromLegacy? ==> s.legacy != [] && s.legacyBytes >= s.legacy[0].frame.Size())
      && (source.FromSemantic? ==> source.id in s.semantic && s.semanticBytes >= s.semantic[source.id].frame.Size())
      && Represents(TakeFrom(s, source), Pop(box), limits)
  {
    hide InLane, Sum, Ordered, SemanticMatches, SemanticKeys;
    HeadOffered(s, box, limits);
    PopKeepsOrder(box);
    PopLane(box.arrivals, Reliable);
    PopLane(box.arrivals, Legacy);
    PopLane(box.arrivals, Semantic);
    PopSemanticMatches(s.semantic, box);
  }

  lemma PopLane(a: seq<Arrival>, lane: Lane)
    requires a != []
    ensures if a[0].lane == lane
            then InLane(a, lane) == [Queued(a[0].frame, a[0].order)] + InLane(a[1..], lane)
              && Sum(InLane(a, lane)) == a[0].frame.Size() + Sum(InLane(a[1..], lane))
            else InLane(a, lane) == InLane(a[1..], lane)
  {
    hide InLane, Sum;
    InLaneHead(a, lane);
    if a[0].lane == lane {
      SumHead(InLane(a, lane));
      assert InLane(a, lane)[1..] == InLane(a[1..], lane);
    } else {
      assert InLane(a, lane) == [] + InLane(a[1..], lane);
    }
  }

  lemma PopSemanticMatches(semantic: map<Id, Queued>, box: Box)
    requires Ordered(box) && SemanticMatches(semantic, box.arrivals)
    requires box.priority == [] && box.arrivals != []
    ensures var head := box.arrivals[0];
      && SemanticMatches(if head.lane == Semantic then semantic - {head.key} else semantic, Pop(box).arrivals)
      && SemanticKeys(Pop(box).arrivals) == SemanticKeys(box.arrivals) - (if head.lane == Semantic then {head.key} else {})
      && |SemanticKeys(Pop(box).arrivals)| <= |SemanticKeys(box.arrivals)|
  {
    hide SemanticKeys;
    var head, rest := box.arrivals[0], box.arrivals[1..];
    assert box.arrivals == [head] + rest;
    KeysConcat([head], rest);
    KeysOne(head);
    KeysMember(rest, head.key);
    assert SemanticKeys(rest) == SemanticKeys(box.arrivals) - (if head.lane == Semantic then {head.key} else {});
  }

  // ----- discarding what a snapshot covers -----

  function Retain(queue: seq<Queued>, id: Id, sequence: nat): seq<Queued> {
    if queue == [] then []
    else
      var last := queue[|queue| - 1];
      Retain(queue[..|queue| - 1], id, sequence) + (if last.frame.CoveredBy(id, sequence) then [] else [last])
  }

  lemma {:induction false} WithoutLane(a: seq<Arrival>, id: Id, sequence: nat, lane: Lane)
    ensures InLane(Without(a, id, sequence), lane)
         == if lane == Legacy then Retain(InLane(a, Legacy), id, sequence) else InLane(a, lane)
  {
    if a != [] {
      hide InLane, Retain, Without;
      var init, last := a[..|a| - 1], a[|a| - 1];
      assert a == init + [last];
      WithoutLane(init, id, sequence, lane);
      WithoutPush(init, last, id, sequence);
      InLanePush(init, last, lane);
      InLanePush(Without(init, id, sequence), last, lane);
      if lane == Legacy && last.lane == Legacy {
        RetainPush(InLane(init, Legacy), Queued(last.frame, last.order), id, sequence);
      }
    }
  }

  lemma WithoutPush(a: seq<Arrival>, b: Arrival, id: Id, sequence: nat)
    ensures Without(a + [b], id, sequence)
         == if b.lane == Legacy && b.frame.CoveredBy(id, sequence) then Without(a, id, sequence)
            else Without(a, id, sequence) + [b]
  {
    assert (a + [b])[..|a|] == a;
  }

  lemma {:induction false} WithoutKeys(a: seq<Arrival>, id: Id, sequence: nat)
    ensures SemanticKeys(Without(a, id, sequence)) == SemanticKeys(a)
  {
    if a != [] {
      var init, last := a[..|a| - 1], a[|a| - 1];
      assert a == init + [last];
      WithoutKeys(init, id, sequence);
      KeysConcat(init, [last]);
      KeysConcat(Without(init, id, sequence), [last]);
      KeysOne(last);
      hide SemanticKeys;
      assert Without(init, id, sequence) + [] == Without(init, id, sequence);
    }
  }

  lemma RetainPush(queue: seq<Queued>, q: Queued, id: Id, sequence: nat)
    ensures Retain(queue + [q], id, sequence)
         == Retain(queue, id, sequence) + (if q.frame.CoveredBy(id, sequence) then [] else [q])
  {
    assert (queue + [q])[..|queue|] == queue;
  }

  lemma {:induction false} WithoutMembers(a: seq<Arrival>, id: Id, sequence: nat, x: Arrival)
    requires x in Without(a, id, sequence)
    ensures x in a
  {
    var init := a[..|a| - 1];
    if x in Without(init, id, sequence) {
      WithoutMembers(init, id, sequence, x);
    }
  }

  lemma {:induction false} WithoutOrdered(box: Box, id: Id, sequence: nat)
    requires Ordered(box)
    ensures Ordered(Discard(box, id, sequence))
    decreases |box.arrivals|
  {
    if box.arrivals != [] {
      var init := box.(arrivals := box.arrivals[..|box.arrivals| - 1]);
      WithoutOrdered(init, id, sequence);
      var kept := Without(init.arrivals, id, sequence);
      forall x | x in kept
        ensures x in init.arrivals
      {
        WithoutMembers(init.arrivals, id, sequence, x);
      }
      AppendOrdered(box, kept);
    }
  }

  lemma AppendOrdered(box: Box, kept: seq<Arrival>)
    requires Ordered(box) && box.arrivals != [] && Ordered(box.(arrivals := kept))
    requires forall x :: x in kept ==> x in box.arrivals[..|box.arrivals| - 1]
    ensures Ordered(box.(arrivals := kept + [box.arrivals[|box.arrivals| - 1]]))
  {
    var last := box.arrivals[|box.arrivals| - 1];
    forall i | 0 <= i < |kept|
      ensures kept[i].order < last.order
      ensures kept[i].lane == Semantic && last.lane == Semantic ==> kept[i].key != last.key
    {
      assert kept[i] in kept;
      var j :| 0 <= j < |box.arrivals| - 1 && box.arrivals[j] == kept[i];
    }
  }

  lemma {:induction false} RetainBounds(queue: seq<Queued>, id: Id, sequence: nat)
    ensures |Retain(queue, id, sequence)| <= |queue| && Sum(Retain(queue, id, sequence)) <= Sum(queue)
  {
    if queue != [] {
      var init, last := queue[..|queue| - 1], queue[|queue| - 1];
      RetainBounds(init, id, sequence);
      SumPush(Retain(init, id, sequence), last);
      assert Retain(init, id, sequence) + [] == Retain(init, id, sequence);
    }
  }

  lemma DiscardMatches(semantic: map<Id, Queued>, box: Box, id: Id, sequence: nat)
    requires Ordered(box) && SemanticMatches(semantic, box.arrivals)
    ensures SemanticMatches(semantic, Without(box.arrivals, id, sequence))
  {
    hide InLane, SemanticKeys, Without, Ordered, Retain;
    WithoutKeys(box.arrivals, id, sequence);
    var kept := Without(box.arrivals, id, sequence);
    forall i | 0 <= i < |kept|
      ensures kept[i] in box.arrivals
    {
      WithoutMembers(box.arrivals, id, sequence, kept[i]);
    }
  }

  lemma RepresentsDiscard(s: Stores, box: Box, limits: Limits, id: Id, sequence: nat)
    requires Represents(s, box, limits)
    ensures var kept := Retain(s.legacy, id, sequence);
      Represents(s.(legacy := kept, legacyBytes := Sum(kept)), Discard(box, id, sequence), limits)
  {
    hide InLane, Sum, Ordered, SemanticMatches, SemanticKeys, Without, Retain;
    WithoutLane(box.arrivals, id, sequence, Reliable);
    WithoutLane(box.arrivals, id, sequence, Legacy);
    WithoutLane(box.arrivals, id, sequence, Semantic);
    WithoutKeys(box.arrivals, id, sequence);
    WithoutOrdered(box, id, sequence);
    RetainBounds(s.legacy, id, sequence);
    DiscardMatches(s.semantic, box, id, sequence);
  }

  // ----- the mailbox itself -----

  datatype Overflow = ReliableOverflow | LegacyOverflow | SemanticOverflow

  datatype EnqueueResult = EnqueueResult(
    accepted: bool, replaced: bool, requiresResync: bool, overflow: Option<Overflow>)

  const ACCEPTED := EnqueueResult(true, false, false, None)

  function Rejected(overflow: Overflow, resync: bool): EnqueueResult {
    EnqueueResult(false, false, resync, Some(overflow))
  }

  class OutboundMailbox {
    const limits: Limits
    var priority: seq<Queued>
    var reliable: seq<Queued>
    var reliableBytes: nat
    var legacy: seq<Queued>
    var legacyBytes: nat
    var semantic: map<Id, Queued>
    var semanticBytes: nat
    var nextOrder: nat
    var resync: set<Id>

    /** The single arrival-ordered queue the stores together represent. */
    ghost var box: Box

    ghost function Now(): Stores
      reads this
    {
      Stores(priority, reliable, reliableBytes, legacy, legacyBytes, semantic, semanticBytes, nextOrder)
    }

    ghost predicate Valid()
      reads this
    {
      Represents(Now(), box, limits)
    }

    constructor (limits: Limits)
      ensures Valid() && box == EMPTY_BOX && this.limits == limits && resync == {}
    {
      hide InLane, Sum, Ordered, Bounded, SemanticMatches, SemanticKeys, Represents;
      RepresentsEmpty(limits);
      this.limits := limits;
      priority, reliable, legacy, semantic := [], [], [], map[];
      reliableBytes, legacyBytes, semanticBytes, nextOrder, resync := 0, 0, 0, 0, {};
      box := EMPTY_BOX;
    }

    method EnqueueReliablePriority(frame: OutboundFrame) returns (result: EnqueueResult)
      requires Valid()
      modifies this
      ensures Valid() && resync == old(resync)
      ensures result == if FitsReliable(old(box), limits, frame) then ACCEPTED else Rejected(ReliableOverflow, false)
      ensures box == if result.accepted then PushPriority(old(box), frame) else old(box)
    {
      hide InLane, Sum, Ordered, Bounded, SemanticMatches, SemanticKeys;
      var bytes := frame.Size();
      if bytes > limits.reliableMaxBytes
        || |priority| + |reliable| >= limits.reliableMaxFrames
        || reliableBytes + bytes > limits.reliableMaxBytes
      {
        return Rejected(ReliableOverflow, false);
      }
      RepresentsPriority(Now(), box, limits, frame);
      priority := priority + [Queued(frame, nextOrder)];
      nextOrder := nextOrder + 1;
      reliableBytes := reliableBytes + bytes;
      box := PushPriority(box, frame);
      return ACCEPTED;
    }

    method EnqueueReliable(frame: OutboundFrame) returns (result: EnqueueResult)
      requires Valid()
      modifies this
      ensures Valid() && resync == old(resync)
      ensures result == if FitsReliable(old(box), limits, frame) then ACCEPTED else Rejected(ReliableOverflow, false)
      ensures box == if result.accepted then Push(old(box), Reliable, [], frame) else old(box)
    {
      hide InLane, Sum, Ordered, Bounded, SemanticMatches, SemanticKeys;
      var bytes := frame.Size();
      if bytes > limits.reliableMaxBytes
        || |priority| + |reliable| >= limits.reliableMaxFrames
        || reliableBytes + bytes > limits.reliableMaxBytes
      {
        return Rejected(ReliableOverflow, false);
      }
      RepresentsReliable(Now(), box, limits, frame);
      reliable := reliable + [Queued(frame, nextOrder)];
      nextOrder := nextOrder + 1;
      reliableBytes := reliableBytes + bytes;
      box := Push(box, Reliable, [], frame);
      return ACCEPTED;
    }

    method EnqueueLegacy(id: Id, frame: OutboundFrame) returns (result: EnqueueResult)
      requires Valid()
      modifies this
      ensures Valid() && resync == old(resync)
      ensures result == if FitsLegacy(old(box), limits, id, frame) then ACCEPTED else Rejected(LegacyOverflow, false)
      ensures box == if result.accepted then Push(old(box), Legacy, id, frame.(terminalId := Some(id))) else old(box)
    {
      hide InLane, Sum, Ordered, Bounded, SemanticMatches, SemanticKeys;
      var bytes := frame.Size();
      if id == []
        || bytes > limits.legacyMaxBytes
        || |legacy| >= limits.legacyMaxFrames
        || legacyBytes + bytes > limits.legacyMaxBytes
      {
        return Rejected(LegacyOverflow, false);
      }
      var tagged := frame.(terminalId := Some(id));
      RepresentsLegacy(Now(), box, limits, id, tagged);
      legacy := legacy + [Queued(tagged, nextOrder)];
      nextOrder := nextOrder + 1;
      legacyBytes := legacyBytes + bytes;
      box := Push(box, Legacy, id, tagged);
      return ACCEPTED;
    }

    method EnqueueSemantic(id: Id, frame: OutboundFrame) returns (result: EnqueueResult)
      requires Valid()
      modifies this
      ensures Valid()
      ensures var tagged := frame.(terminalId := Some(id));
        var pushed := PushSemantic(old(box), limits, id, tagged);
        && box == (if pushed.Some? then pushed.value else old(box))
        && result == (if pushed.None? then Rejected(SemanticOverflow, true)
                      else if id in old(semantic) then EnqueueResult(true, true, true, None)
                      else ACCEPTED)
      ensures resync == old(resync) + if result.requiresResync then {id} else {}
    {
      hide InLane, Sum, Ordered, Bounded, SemanticMatches, SemanticKeys;
      var bytes := frame.Size();
      if id == [] || bytes > limits.semanticMaxBytes {
        resync := resync + {id};
        return Rejected(SemanticOverflow, true);
      }
      SemanticIsPlaced(Now(), box, limits, id);
      var tagged := frame.(terminalId := Some(id));
      if id in semantic {
        var nextBytes := semanticBytes - semantic[id].frame.Size() + bytes;
        resync := resync + {id};
        if nextBytes > limits.semanticMaxBytes {
          return Rejected(SemanticOverflow, true);
        }
        RepresentsReplacement(Now(), box, limits, id, tagged);
        semanticBytes := nextBytes;
        box := ReplaceAt(box, Place(box.arrivals, id), tagged);
        semantic := semantic[id := Queued(tagged, semantic[id].order)];
        return EnqueueResult(true, true, true, None);
      }
      SemanticCount(Now(), box, limits);
      if |semantic| >= limits.semanticMaxTerminals || semanticBytes + bytes > limits.semanticMaxBytes {
        resync := resync + {id};
        return Rejected(SemanticOverflow, true);
      }
      RepresentsSemantic(Now(), box, limits, id, tagged);
      semantic := semantic[id := Queued(tagged, nextOrder)];
      nextOrder := nextOrder + 1;
      semanticBytes := semanticBytes + bytes;
      box := Push(box, Semantic, id, tagged);
      return ACCEPTED;
    }

    /** Hands out the head of the single arrival-ordered queue, the priority lane first. */
    method PopNext() returns (frame: Option<OutboundFrame>)
      requires Valid()
      modifies this
      ensures Valid() && resync == old(resync)
      ensures frame == Head(old(box)) && box == Pop(old(box))
    {
      hide InLane, Sum, Ordered, Bounded, SemanticMatches, SemanticKeys;
      if priority != [] {
        PopPriority(Now(), box, limits);
        frame := Some(priority[0].frame);
        reliableBytes := reliableBytes - priority[0].frame.Size();
        priority := priority[1..];
        box := Pop(box);
        return;
      }
      var selected := SelectOldest();
      if selected.None? {
        return None;
      }
      PopArrival(Now(), box, limits);
      match selected.value {
        case FromReliable =>
          frame := Some(reliable[0].frame);
          reliableBytes := reliableBytes - reliable[0].frame.Size();
          reliable := reliable[1..];
        case FromLegacy =>
          frame := Some(legacy[0].frame);
          legacyBytes := legacyBytes - legacy[0].frame.Size();
          legacy := legacy[1..];
        case FromSemantic(id) =>
          frame := Some(semantic[id].frame);
          semanticBytes := semanticBytes - semantic[id].frame.Size();
          semantic := semantic - {id};
      }
      box := Pop(box);
    }

    /** Compares the heads of the three stores; the semantic map is scanned in any order. */
    method SelectOldest() returns (selected: Option<Source>)
      requires Valid()
      ensures selected.None? <==> box.arrivals == []
      ensures selected.Some? ==>
                selected.value == SourceOf(box.arrivals[0]) && Offers(Now(), selected.value, Queued(box.arrivals[0].frame, box.arrivals[0].order))
    {
      hide InLane, Sum, Ordered, Bounded, SemanticMatches, SemanticKeys, Represents;
      if box.arrivals == [] {
        EmptyOffersNothing(Now(), box, limits);
      } else {
        HeadIsOldest(Now(), box, limits);
      }
      ghost var head := if box.arrivals == [] then None else Some(box.arrivals[0]);
      var best: nat := 0;
      selected := None;
      if reliable != [] {
        assert Offers(Now(), FromReliable, reliable[0]);
        selected, best := Some(FromReliable), reliable[0].order;
      }
      if legacy != [] && (selected.None? || legacy[0].order < best) {
        assert Offers(Now(), FromLegacy, legacy[0]);
        selected, best := Some(FromLegacy), legacy[0].order;
      }
      var ids := semantic.Keys;
      while ids != {}
        invariant ids <= semantic.Keys
        invariant selected.Some? ==> exists q :: Offers(Now(), selected.value, q) && q.order == best
        invariant head.Some? && SourceOf(head.value).FromReliable? ==> selected.Some? && best == head.value.order
        invariant head.Some? && SourceOf(head.value).FromLegacy? ==> selected.Some? && best == head.value.order
        invariant head.Some? && SourceOf(head.value).FromSemantic? && SourceOf(head.value).id !in ids
                  ==> selected.Some? && best == head.value.order
      {
        var id :| id in ids;
        assert Offers(Now(), FromSemantic(id), semantic[id]);
        if selected.None? || semantic[id].order < best {
          selected, best := Some(FromSemantic(id)), semantic[id].order;
        }
        ids := ids - {id};
      }
    }

    method DiscardTerminalThrough(id: Id, sequence: nat)
      requires Valid()
      modifies this
      ensures Valid() && resync == old(resync)
      ensures box == Discard(old(box), id, sequence)
    {
      hide InLane, Sum, Ordered, Bounded, SemanticMatches, SemanticKeys, Represents;
      var kept, removedBytes := RetainUncovered(legacy, id, sequence);
      LegacyCounted(Now(), box, limits);
      RepresentsDiscard(Now(), box, limits, id, sequence);
      legacy := kept;
      legacyBytes := legacyBytes - removedBytes;
      box := Discard(box, id, sequence);
    }

    static method RetainUncovered(queue: seq<Queued>, id: Id, sequence: nat)
      returns (kept: seq<Queued>, removedBytes: nat)
      ensures kept == Retain(queue, id, sequence)
      ensures Sum(kept) + removedBytes == Sum(queue)
    {
      kept, removedBytes := [], 0;
      for i := 0 to |queue|
        invariant kept == Retain(queue[..i], id, sequence)
        invariant Sum(kept) + removedBytes == Sum(queue[..i])
      {
        assert queue[..i + 1] == queue[..i] + [queue[i]];
        SumPush(queue[..i], queue[i]);
        SumPush(kept, queue[i]);
        RetainPush(queue[..i], queue[i], id, sequence);
        if queue[i].frame.CoveredBy(id, sequence) {
          removedBytes := removedBytes + queue[i].frame.Size();
        } else {
          kept := kept + [queue[i]];
        }
      }
      assert queue[..|queue|] == queue;
    }

    method ConsumeResyncRequired() returns (ids: set<Id>)
      requires Valid()
      modifies this`resync
      ensures Valid() && ids == old(resync) && resync == {}
    {
      ids := resync;
      resync := {};
    }

    method PendingFrames() returns (n: nat)
      requires Valid()
      ensures n == |box.priority| + |box.arrivals|
    {
      SemanticCount(Now(), box, limits);
      LanesCount(box.arrivals);
      assert |semantic| == |Now().semantic|;
      n := |priority| + |reliable| + |legacy| + |semantic|;
    }

    method PendingBytes() returns (n: nat)
      requires Valid()
      ensures n == ReliableSum(box) + LegacySum(box) + SemanticSum(box)
    {
      n := reliableBytes + legacyBytes + semanticBytes;
    }
  }

  /** Every arrival is in one lane, and a key has one semantic arrival. */
  lemma {:induction false} LanesCount(arrivals: seq<Arrival>)
    requires forall i, j :: 0 <= i < j < |arrivals| && arrivals[i].lane == Semantic && arrivals[j].lane == Semantic
               ==> arrivals[i].key != arrivals[j].key
    ensures |arrivals| == |InLane(arrivals, Reliable)| + |InLane(arrivals, Legacy)| + |SemanticKeys(arrivals)|
  {
    if arrivals != [] {
      var init, last := arrivals[..|arrivals| - 1], arrivals[|arrivals| - 1];
      LanesCount(init);
      if last.lane == Semantic { KeysMember(init, last.key); }
    }
  }

  lemma EmptyOffersNothing(s: Stores, box: Box, limits: Limits)
    requires Represents(s, box, limits) && box.arrivals == []
    ensures s.reliable == [] && s.legacy == [] && s.semantic.Keys == {}
  {
    EmptyMeasures(box.arrivals);
  }

  lemma LegacyCounted(s: Stores, box: Box, limits: Limits)
    requires Represents(s, box, limits)
    ensures s.legacyBytes == Sum(s.legacy)
  {
  }
}
