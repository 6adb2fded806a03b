/** What the mailbox accepts: exactly the frames with which its queue stays within every limit. */
module MailboxLimits {
  import opened Wrappers
  import opened Frames
  import opened Mailbox

  /** The queue with a semantic frame in its predecessor's place, or at the end when it has none. */
  function WithSemantic(box: Box, id: Id, frame: OutboundFrame): Box {
    if exists i :: 0 <= i < |box.arrivals| && box.arrivals[i].lane == Semantic && box.arrivals[i].key == id
    then
      Box(box.priority, seq(|box.arrivals|, k requires 0 <= k < |box.arrivals| =>
            if box.arrivals[k].lane == Semantic && box.arrivals[k].key == id then box.arrivals[k].(frame := frame) else box.arrivals[k]),
          box.nextOrder)
    else Box(box.priority, box.arrivals + [Arrival(Semantic, id, frame, box.nextOrder)], box.nextOrder + 1)
  }

  lemma ReliableExactly(box: Box, limits: Limits, frame: OutboundFrame)
    requires Bounded(box, limits)
    ensures FitsReliable(box, limits, frame) <==> Bounded(PushPriority(box, frame), limits)
    ensures FitsReliable(box, limits, frame) <==> Bounded(Push(box, Reliable, [], frame), limits)
  {
    hide InLane, Sum, SemanticKeys;
    SumPush(box.priority, Queued(frame, box.nextOrder));
    PushedMeasures(box, Reliable, [], frame);
  }

  lemma LegacyExactly(box: Box, limits: Limits, id: Id, frame: OutboundFrame)
    requires Bounded(box, limits)
    ensures FitsLegacy(box, limits, id, frame) <==> id != [] && Bounded(Push(box, Legacy, id, frame), limits)
  {
    hide InLane, Sum, SemanticKeys;
    PushedMeasures(box, Legacy, id, frame);
  }

  lemma PushedMeasures(box: Box, lane: Lane, key: Id, frame: OutboundFrame)
    ensures var next := Push(box, lane, key, frame);
      && (forall l: Lane :: |InLane(next.arrivals, l)| == |InLane(box.arrivals, l)| + if l == lane then 1 else 0)
      && (forall l: Lane :: Sum(InLane(next.arrivals, l)) == Sum(InLane(box.arrivals, l)) + if l == lane then frame.Size() else 0)
      && SemanticKeys(next.arrivals) == SemanticKeys(box.arrivals) + if lane == Semantic then {key} else {}
  {
    hide InLane, Sum, SemanticKeys;
    var a := Arrival(lane, key, frame, box.nextOrder);
    forall l: Lane
      ensures |InLane(box.arrivals + [a], l)| == |InLane(box.arrivals, l)| + if l == lane then 1 else 0
      ensures Sum(InLane(box.arrivals + [a], l)) == Sum(InLane(box.arrivals, l)) + if l == lane then frame.Size() else 0
    {
      InLanePush(box.arrivals, a, l);
    }
    KeysConcat(box.arrivals, [a]);
    KeysOne(a);
  }

  lemma ReplacesOnly(box: Box, id: Id, frame: OutboundFrame)
    requires Ordered(box) && Place(box.arrivals, id) < |box.arrivals|
    ensures ReplaceAt(box, Place(box.arrivals, id), frame) == WithSemantic(box, id, frame)
  {
    var i := Place(box.arrivals, id);
    assert box.arrivals[i].lane == Semantic && box.arrivals[i].key == id;
  }

  lemma ReplacedMeasures(box: Box, limits: Limits, i: nat, frame: OutboundFrame)
    requires Bounded(box, limits) && i < |box.arrivals| && box.arrivals[i].lane == Semantic
    ensures SemanticSum(box) >= box.arrivals[i].frame.Size()
    ensures var next := ReplaceAt(box, i, frame);
      && SemanticSum(next) == SemanticSum(box) - box.arrivals[i].frame.Size() + frame.Size()
      && (Bounded(next, limits) <==> SemanticSum(next) <= limits.semanticMaxBytes)
  {
    hide InLane, Sum, SemanticKeys;
    ReplaceLanes(box.arrivals, i, frame);
    ReplaceKeys(box.arrivals, i, frame);
    LaneHolds(box.arrivals, i);
  }

  /** A semantic frame is accepted exactly when the queue with it in place is within every limit, and that is the queue then. */
  lemma SemanticExactly(box: Box, limits: Limits, id: Id, frame: OutboundFrame)
    requires Bounded(box, limits) && Ordered(box)
    ensures var next := PushSemantic(box, limits, id, frame);
      && (next.Some? <==> id != [] && Bounded(WithSemantic(box, id, frame), limits))
      && (next.Some? ==> next.value == WithSemantic(box, id, frame))
  {
    hide InLane, Sum, SemanticKeys;
    var i := Place(box.arrivals, id);
    if i < |box.arrivals| {
      ReplacesOnly(box, id, frame);
      ReplacedMeasures(box, limits, i, frame);
    } else {
      PushedMeasures(box, Semantic, id, frame);
      KeysMember(box.arrivals, id);
      assert |SemanticKeys(box.arrivals) + {id}| == |SemanticKeys(box.arrivals)| + 1;
    }
  }
}
