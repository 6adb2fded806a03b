/** Where a restored layout shows its terminals: what the repair keeps of the saved order, and when that order survives. */
module LayoutOrder {
  import opened Wrappers
  import opened Layout

  // ----- what the repair keeps -----

  /** `a` is `b` with some items left out. */
  predicate IsSubsequence(a: seq<Id>, b: seq<Id>) {
    a == [] || (b != [] && ((a[0] == b[0] && IsSubsequence(a[1..], b[1..])) || IsSubsequence(a, b[1..])))
  }

  /** The saved panes of live terminals, from left to right. */
  function LivePanes(saved: Saved, live: set<Id>): seq<Id> {
    Placed(SavedSlots(saved, live))
  }

  function ChildPanes(children: seq<Saved>, live: set<Id>): seq<Id> {
    Placed(SavedChildSlots(children, live))
  }

  /** What the repair shows of one saved tree: nothing when it is rejected. */
  function Kept(saved: Saved, live: set<Id>): seq<Id> {
    var node := IntoLayout(saved, live);
    if node.None? then [] else Terminals(node.value)
  }

  function KeptChildren(children: seq<Saved>, ratios: seq<Ratio>, live: set<Id>): seq<Id>
    requires |children| == |ratios|
  {
    Placed(ChildSlots(IntoChildren(children, ratios, live)))
  }

  lemma {:induction false} SubsequenceConcat(a: seq<Id>, b: seq<Id>, c: seq<Id>, d: seq<Id>)
    requires IsSubsequence(a, b) && IsSubsequence(c, d)
    ensures IsSubsequence(a + c, b + d)
    decreases |b|
  {
    if b == [] {
      assert a + c == c && b + d == d;
    } else {
      assert (b + d)[0] == b[0] && (b + d)[1..] == b[1..] + d;
      if a != [] && a[0] == b[0] && IsSubsequence(a[1..], b[1..]) {
        SubsequenceConcat(a[1..], b[1..], c, d);
        assert (a + c)[0] == a[0] && (a + c)[1..] == a[1..] + c;
      } else {
        SubsequenceConcat(a, b[1..], c, d);
      }
    }
  }

  lemma {:induction false} SubsequenceShorter(a: seq<Id>, b: seq<Id>)
    requires IsSubsequence(a, b)
    ensures |a| <= |b|
    decreases |b|
  {
    if a != [] {
      if a[0] == b[0] && IsSubsequence(a[1..], b[1..]) {
        SubsequenceShorter(a[1..], b[1..]);
      } else {
        SubsequenceShorter(a, b[1..]);
      }
    }
  }

  lemma SubsequenceItself(a: seq<Id>)
    ensures IsSubsequence(a, a) && IsSubsequence([], a)
  {
  }

  /** One child more, in both lists. */
  lemma ChildStep(children: seq<Saved>, ratios: seq<Ratio>, live: set<Id>)
    requires |children| == |ratios| && children != []
    ensures ChildPanes(children, live) == LivePanes(children[0], live) + ChildPanes(children[1..], live)
    ensures KeptChildren(children, ratios, live)
            == (if Usable(ratios[0]) then Kept(children[0], live) else []) + KeptChildren(children[1..], ratios[1..], live)
  {
    hide Placed, Slots, IntoLayout;
    PlacedConcat(SavedSlots(children[0], live), SavedChildSlots(children[1..], live));
    var rest, node := IntoChildren(children[1..], ratios[1..], live), IntoLayout(children[0], live);
    if Usable(ratios[0]) && node.Some? {
      var all := [Child(ratios[0].value, node.value)] + rest;
      assert all[1..] == rest && all[0].node == node.value;
      PlacedConcat(Slots(node.value), ChildSlots(rest));
    } else {
      assert [] + KeptChildren(children[1..], ratios[1..], live) == KeptChildren(children[1..], ratios[1..], live);
    }
  }

  lemma NoChildren(live: set<Id>)
    ensures ChildPanes([], live) == [] && KeptChildren([], [], live) == []
  {
  }

  /** A split keeps what its children keep, or nothing. */
  lemma SplitKeeps(saved: Saved, live: set<Id>)
    requires !saved.Leaf?
    ensures LivePanes(saved, live) == ChildPanes(saved.children, live)
    ensures IntoLayout(saved, live).Some? ==>
              |saved.children| == |saved.ratios| && Kept(saved, live) == KeptChildren(saved.children, saved.ratios, live)
  {
    hide Placed, IntoChildren;
  }

  lemma LeafKeeps(saved: Saved, live: set<Id>)
    requires saved.Leaf?
    ensures Kept(saved, live) == LivePanes(saved, live)
  {
  }

  /** For every saved tree, the repaired layout shows its live panes in their order, less those it drops. */
  lemma {:induction false} KeptInOrder(saved: Saved, live: set<Id>)
    ensures IsSubsequence(Kept(saved, live), LivePanes(saved, live))
    decreases saved
  {
    hide Kept, LivePanes, IsSubsequence, KeptChildren, ChildPanes;
    SubsequenceItself(LivePanes(saved, live));
    if saved.Leaf? {
      LeafKeeps(saved, live);
    } else {
      SplitKeeps(saved, live);
      if IntoLayout(saved, live).Some? {
        KeptChildrenInOrder(saved.children, saved.ratios, live);
      } else {
        RejectedKeepsNothing(saved, live);
      }
    }
  }

  lemma RejectedKeepsNothing(saved: Saved, live: set<Id>)
    ensures IntoLayout(saved, live).None? ==> Kept(saved, live) == []
  {
  }

  lemma {:induction false} KeptChildrenInOrder(children: seq<Saved>, ratios: seq<Ratio>, live: set<Id>)
    requires |children| == |ratios|
    ensures IsSubsequence(KeptChildren(children, ratios, live), ChildPanes(children, live))
    decreases children
  {
    hide Kept, LivePanes, IsSubsequence, KeptChildren, ChildPanes;
    if children == [] {
      NoChildren(live);
      SubsequenceItself([]);
    } else {
      ChildStep(children, ratios, live);
      KeptInOrder(children[0], live);
      KeptChildrenInOrder(children[1..], ratios[1..], live);
      var first := LivePanes(children[0], live);
      SubsequenceItself(first);
      SubsequenceConcat(if Usable(ratios[0]) then Kept(children[0], live) else [], first,
                        KeptChildren(children[1..], ratios[1..], live), ChildPanes(children[1..], live));
    }
  }

  // ----- when nothing is dropped -----

  /** No live pane lies under a rejected split or beside an unusable ratio. */
  predicate Lossless(saved: Saved, live: set<Id>)
    decreases saved
  {
    saved.Leaf?
    || (if IntoLayout(saved, live).None? then LivePanes(saved, live) == []
        else |saved.children| == |saved.ratios| && LosslessChildren(saved.children, saved.ratios, live))
  }

  predicate LosslessChildren(children: seq<Saved>, ratios: seq<Ratio>, live: set<Id>)
    requires |children| == |ratios|
    decreases children
  {
    children == []
    || ((if Usable(ratios[0]) then Lossless(children[0], live) else LivePanes(children[0], live) == [])
        && LosslessChildren(children[1..], ratios[1..], live))
  }

  lemma PartsEqual(a: seq<Id>, b: seq<Id>, c: seq<Id>, d: seq<Id>)
    requires |a| <= |b| && |c| <= |d|
    ensures a + c == b + d <==> a == b && c == d
  {
    if a + c == b + d {
      assert |a + c| == |b + d|;
      assert a == (a + c)[..|a|] && b == (b + d)[..|a|];
      assert c == (a + c)[|a|..] && d == (b + d)[|a|..];
    }
  }

  /** The repaired layout shows every live pane, in the saved order, exactly when the tree is lossless. */
  lemma {:induction false} KeptWholeExactly(saved: Saved, live: set<Id>)
    ensures Kept(saved, live) == LivePanes(saved, live) <==> Lossless(saved, live)
    decreases saved
  {
    hide Kept, LivePanes, LosslessChildren, KeptChildren, ChildPanes;
    if saved.Leaf? {
      LeafKeeps(saved, live);
    } else {
      SplitKeeps(saved, live);
      if IntoLayout(saved, live).Some? {
        KeptChildrenWholeExactly(saved.children, saved.ratios, live);
      } else {
        RejectedKeepsNothing(saved, live);
      }
    }
  }

  lemma {:induction false} KeptChildrenWholeExactly(children: seq<Saved>, ratios: seq<Ratio>, live: set<Id>)
    requires |children| == |ratios|
    ensures KeptChildren(children, ratios, live) == ChildPanes(children, live) <==> LosslessChildren(children, ratios, live)
    decreases children
  {
    hide Kept, LivePanes, Lossless, KeptChildren, ChildPanes, IsSubsequence;
    if children == [] {
      NoChildren(live);
    } else {
      ChildStep(children, ratios, live);
      KeptWholeExactly(children[0], live);
      KeptChildrenWholeExactly(children[1..], ratios[1..], live);
      KeptInOrder(children[0], live);
      SubsequenceShorter(Kept(children[0], live), LivePanes(children[0], live));
      KeptChildrenInOrder(children[1..], ratios[1..], live);
      SubsequenceShorter(KeptChildren(children[1..], ratios[1..], live), ChildPanes(children[1..], live));
      PartsEqual(if Usable(ratios[0]) then Kept(children[0], live) else [], LivePanes(children[0], live),
                 KeptChildren(children[1..], ratios[1..], live), ChildPanes(children[1..], live));
    }
  }

  // ----- where the missing terminals land -----

  /** The terminals the repaired layout lacks, each once, in the order listed. */
  function Missing(ids: seq<Id>, placed: set<Id>): seq<Id> {
    if ids == [] then []
    else if ids[0] in placed then Missing(ids[1..], placed)
    else [ids[0]] + Missing(ids[1..], placed + {ids[0]})
  }

  function InsertSlot(slots: seq<Option<Id>>, id: Id): seq<Option<Id>> {
    if None in slots then FillSlot(slots, id) else slots + [Some(id)]
  }

  function FillAll(slots: seq<Option<Id>>, missing: seq<Id>): seq<Option<Id>>
    decreases |missing|
  {
    if missing == [] then slots else FillAll(InsertSlot(slots, missing[0]), missing[1..])
  }

  lemma InsertedSlots(node: Node, id: Id)
    ensures Slots(Inserted(node, id)) == InsertSlot(Slots(node), id)
  {
    hide FillSlot;
    FillsFirst(node, id);
    if None !in Slots(node) {
      var children := [Child(1.0, node), Child(1.0, Terminal(id))];
      assert children[1..] == [Child(1.0, Terminal(id))] && children[1..][1..] == [];
      assert ChildSlots(children[1..]) == [Some(id)] + [] == [Some(id)];
      assert ChildSlots(children) == Slots(node) + [Some(id)];
    }
  }

  lemma {:induction false} AllInsertedSlots(node: Node, ids: seq<Id>, placed: set<Id>)
    ensures Slots(AllInserted(node, ids, placed)) == FillAll(Slots(node), Missing(ids, placed))
    decreases |ids|
  {
    hide Slots, Inserted, InsertSlot;
    if ids != [] {
      if ids[0] in placed {
        AllInsertedSlots(node, ids[1..], placed);
      } else {
        InsertedSlots(node, ids[0]);
        AllInsertedSlots(Inserted(node, ids[0]), ids[1..], placed + {ids[0]});
        var missing := Missing(ids[1..], placed + {ids[0]});
        assert ([ids[0]] + missing)[1..] == missing;
      }
    }
  }

  /** The panes of the repaired layout, and the terminals it lacks. */
  function Panes(saved: Option<Workspace>, ids: seq<Id>): seq<Option<Id>> {
    Slots(Repaired(saved, ids))
  }

  function Lacking(saved: Option<Workspace>, ids: seq<Id>): seq<Id> {
    Missing(ids, ToSet(Terminals(Repaired(saved, ids))))
  }

  /** The first pane that shows a terminal. */
  function Place(slots: seq<Option<Id>>, id: Id): (i: nat)
    ensures i <= |slots| && (i < |slots| ==> slots[i] == Some(id))
    ensures forall k :: 0 <= k < i ==> slots[k] != Some(id)
    ensures i < |slots| <==> Some(id) in slots
  {
    if slots == [] then 0 else if slots[0] == Some(id) then 0 else 1 + Place(slots[1..], id)
  }

  function Index(ids: seq<Id>, id: Id): (i: nat)
    ensures i <= |ids| && (i < |ids| ==> ids[i] == id)
    ensures i < |ids| <==> id in ids
  {
    if ids == [] then 0 else if ids[0] == id then 0 else 1 + Index(ids[1..], id)
  }

  /** The empty panes among the first `i`. */
  function Holes(slots: seq<Option<Id>>, i: nat): nat
    requires i <= |slots|
  {
    if i == 0 then 0 else Holes(slots, i - 1) + if slots[i - 1].None? then 1 else 0
  }

  predicate Distinct(ids: seq<Id>) {
    forall i, j :: 0 <= i < j < |ids| ==> ids[i] != ids[j]
  }

  /** Nothing to insert is shown already, and nothing twice. */
  predicate Fresh(slots: seq<Option<Id>>, missing: seq<Id>) {
    Distinct(missing) && forall id :: id in missing ==> Some(id) !in slots
  }

  lemma {:induction false} FirstHole(slots: seq<Option<Id>>, id: Id)
    requires None in slots
    ensures exists f :: 0 <= f < |slots| && slots[f].None? && (forall k :: 0 <= k < f ==> slots[k].Some?)
                        && FillSlot(slots, id) == slots[f := Some(id)]
  {
    if slots[0].None? {
      assert FillSlot(slots, id) == slots[0 := Some(id)];
    } else {
      assert slots == [slots[0]] + slots[1..];
      FirstHole(slots[1..], id);
      var f :| 0 <= f < |slots[1..]| && slots[1..][f].None? && (forall k :: 0 <= k < f ==> slots[1..][k].Some?)
               && FillSlot(slots[1..], id) == slots[1..][f := Some(id)];
      assert FillSlot(slots, id) == slots[f + 1 := Some(id)];
      assert forall k :: 0 <= k < f + 1 ==> slots[k].Some? by {
        assert forall k :: 1 <= k < f + 1 ==> slots[k] == slots[1..][k - 1];
      }
    }
  }

  lemma {:induction false} NoHoles(slots: seq<Option<Id>>, i: nat)
    requires i <= |slots|
    ensures Holes(slots, i) == 0 <==> forall k :: 0 <= k < i ==> slots[k].Some?
  {
    if i > 0 {
      NoHoles(slots, i - 1);
    }
  }

  lemma {:induction false} HolesFilled(slots: seq<Option<Id>>, f: nat, id: Id, i: nat)
    requires f < |slots| && slots[f].None? && i <= |slots|
    ensures Holes(slots[f := Some(id)], i) == Holes(slots, i) - if f < i then 1 else 0
  {
    if i > 0 {
      HolesFilled(slots, f, id, i - 1);
    }
  }

  lemma {:induction false} HolesPrefix(slots: seq<Option<Id>>, more: seq<Option<Id>>, i: nat)
    requires i <= |slots|
    ensures Holes(slots + more, i) == Holes(slots, i)
  {
    if i > 0 {
      HolesPrefix(slots, more, i - 1);
    }
  }

  /** Inserting one: it takes the first hole, or the end; every other terminal stays where it was. */
  lemma InsertOne(slots: seq<Option<Id>>, id: Id)
    requires Some(id) !in slots
    ensures var after := InsertSlot(slots, id);
      && Some(id) in after && Holes(after, Place(after, id)) == 0
      && (forall other :: other != id ==> (Some(other) in after <==> Some(other) in slots))
      && (forall other :: Some(other) in slots ==>
            && Place(after, other) == Place(slots, other)
            && (Place(after, id) < Place(slots, other) <==> Holes(slots, Place(slots, other)) > 0)
            && Holes(after, Place(slots, other))
               == (if Holes(slots, Place(slots, other)) > 0 then Holes(slots, Place(slots, other)) - 1 else 0))
  {
    hide FillSlot, Holes;
    var after := InsertSlot(slots, id);
    if None in slots {
      FirstHole(slots, id);
      var f :| 0 <= f < |slots| && slots[f].None? && (forall k :: 0 <= k < f ==> slots[k].Some?)
               && FillSlot(slots, id) == slots[f := Some(id)];
      InsertAtHole(slots, f, id);
    } else {
      InsertAtEnd(slots, id);
    }
  }

  lemma InsertAtHole(slots: seq<Option<Id>>, f: nat, id: Id)
    requires Some(id) !in slots && f < |slots| && slots[f].None? && forall k :: 0 <= k < f ==> slots[k].Some?
    ensures var after := slots[f := Some(id)];
      && Some(id) in after && Place(after, id) == f && Holes(after, f) == 0
      && (forall other :: other != id ==> (Some(other) in after <==> Some(other) in slots))
      && (forall other :: Some(other) in slots ==>
            && Place(after, other) == Place(slots, other)
            && (f < Place(slots, other) <==> Holes(slots, Place(slots, other)) > 0)
            && Holes(after, Place(slots, other))
               == (if Holes(slots, Place(slots, other)) > 0 then Holes(slots, Place(slots, other)) - 1 else 0))
  {
    hide Holes;
    var after := slots[f := Some(id)];
    assert after[f] == Some(id);
    NoHoles(slots, f);
    HolesFilled(slots, f, id, f);
    forall other | other != id
      ensures Some(other) in after <==> Some(other) in slots
    {
      if Some(other) in slots { assert after[Place(slots, other)] == Some(other); }
    }
    forall other | Some(other) in slots
      ensures Place(after, other) == Place(slots, other)
      ensures f < Place(slots, other) <==> Holes(slots, Place(slots, other)) > 0
      ensures Holes(after, Place(slots, other))
              == (if Holes(slots, Place(slots, other)) > 0 then Holes(slots, Place(slots, other)) - 1 else 0)
    {
      var i := Place(slots, other);
      assert after[i] == Some(other);
      NoHoles(slots, i);
      HolesFilled(slots, f, id, i);
    }
  }

  lemma InsertAtEnd(slots: seq<Option<Id>>, id: Id)
    requires Some(id) !in slots && None !in slots
    ensures var after := slots + [Some(id)];
      && Some(id) in after && Holes(after, Place(after, id)) == 0
      && (forall other :: other != id ==> (Some(other) in after <==> Some(other) in slots))
      && (forall other :: Some(other) in slots ==>
            && Place(after, other) == Place(slots, other) < Place(after, id)
            && Holes(slots, Place(slots, other)) == Holes(after, Place(slots, other)) == 0)
  {
    hide Holes;
    var after := slots + [Some(id)];
    assert after[|slots|] == Some(id);
    NoHoles(after, Place(after, id));
    forall other | Some(other) in slots
      ensures Place(after, other) == Place(slots, other) < Place(after, id)
      ensures Holes(slots, Place(slots, other)) == Holes(after, Place(slots, other)) == 0
    {
      assert after[Place(slots, other)] == Some(other);
      NoHoles(slots, Place(slots, other));
      NoHoles(after, Place(slots, other));
    }
  }

  lemma FreshNext(slots: seq<Option<Id>>, missing: seq<Id>)
    requires Fresh(slots, missing) && missing != []
    ensures Fresh(InsertSlot(slots, missing[0]), missing[1..])
  {
    hide InsertSlot, Holes;
    InsertOne(slots, missing[0]);
    assert forall i :: 0 <= i < |missing[1..]| ==> missing[1..][i] == missing[i + 1];
  }

  /** What is shown stays where it is. */
  lemma {:induction false} FillKeeps(slots: seq<Option<Id>>, missing: seq<Id>, id: Id)
    requires Fresh(slots, missing) && Some(id) in slots
    ensures Some(id) in FillAll(slots, missing) && Place(FillAll(slots, missing), id) == Place(slots, id)
    decreases |missing|
  {
    hide InsertSlot, Holes, Fresh;
    if missing != [] {
      FreshMeans(slots, missing);
      InsertOne(slots, missing[0]);
      FreshNext(slots, missing);
      FillKeeps(InsertSlot(slots, missing[0]), missing[1..], id);
    }
  }

  lemma FreshMeans(slots: seq<Option<Id>>, missing: seq<Id>)
    requires Fresh(slots, missing)
    ensures forall j :: 0 <= j < |missing| ==> Some(missing[j]) !in slots
    ensures forall j :: 0 < j < |missing| ==> missing[j] != missing[0] && missing[j] == missing[1..][j - 1]
  {
  }

  lemma FillStep(slots: seq<Option<Id>>, missing: seq<Id>)
    requires missing != []
    ensures FillAll(slots, missing) == FillAll(InsertSlot(slots, missing[0]), missing[1..])
  {
    hide InsertSlot;
  }

  /** The `j`th to insert lands left of a terminal shown exactly when more than `j` holes are left of that. */
  lemma {:induction false} FillAgainst(slots: seq<Option<Id>>, missing: seq<Id>, j: nat, id: Id)
    requires Fresh(slots, missing) && j < |missing| && Some(id) in slots
    ensures Some(missing[j]) in FillAll(slots, missing)
    ensures Place(FillAll(slots, missing), missing[j]) < Place(slots, id) <==> j < Holes(slots, Place(slots, id))
    decreases |missing|
  {
    hide InsertSlot, Holes, Fresh, FillAll;
    FillStep(slots, missing);
    var x, rest := missing[0], missing[1..];
    var next := InsertSlot(slots, x);
    FreshMeans(slots, missing);
    InsertOne(slots, x);
    FreshNext(slots, missing);
    if j == 0 {
      FillKeeps(next, rest, x);
    } else {
      FillAgainst(next, rest, j - 1, id);
    }
  }

  /** The terminals inserted stand in the order listed. */
  lemma {:induction false} FillAmong(slots: seq<Option<Id>>, missing: seq<Id>, j: nat, k: nat)
    requires Fresh(slots, missing) && j < k < |missing|
    ensures Place(FillAll(slots, missing), missing[j]) < Place(FillAll(slots, missing), missing[k])
    decreases |missing|
  {
    hide InsertSlot, Holes, Fresh, FillAll;
    FillStep(slots, missing);
    var x, rest := missing[0], missing[1..];
    var next := InsertSlot(slots, x);
    FreshMeans(slots, missing);
    InsertOne(slots, x);
    FreshNext(slots, missing);
    if j == 0 {
      FillKeeps(next, rest, x);
      FillAgainst(next, rest, k - 1, x);
    } else {
      FillAmong(next, rest, j - 1, k - 1);
    }
  }

  lemma {:induction false} MissingFresh(ids: seq<Id>, placed: set<Id>)
    ensures Distinct(Missing(ids, placed)) && forall id :: id in Missing(ids, placed) <==> id in ids && id !in placed
    decreases |ids|
  {
    if ids != [] {
      assert ids == [ids[0]] + ids[1..];
      if ids[0] in placed {
        MissingFresh(ids[1..], placed);
      } else {
        MissingFresh(ids[1..], placed + {ids[0]});
      }
    }
  }

  lemma {:induction false} PlacedIn(slots: seq<Option<Id>>, id: Id)
    ensures id in Placed(slots) <==> Some(id) in slots
  {
    if slots != [] {
      assert slots == [slots[0]] + slots[1..];
      PlacedIn(slots[1..], id);
    }
  }

  /** Terminal `a` is shown left of terminal `b`. */
  predicate LeftOf(slots: seq<Option<Id>>, a: Id, b: Id) {
    Place(slots, a) < Place(slots, b)
  }

  /**
    What decides it, from the repaired panes and the listed order alone: two terminals the repair kept
    stand as they did, two it lacks as they are listed, and one it lacks takes a hole left of one it
    kept exactly when fewer terminals are listed before it than there are such holes.
  */
  predicate Decided(panes: seq<Option<Id>>, lacking: seq<Id>, a: Id, b: Id) {
    if Some(a) in panes then
      if Some(b) in panes then LeftOf(panes, a, b) else Holes(panes, Place(panes, a)) <= Index(lacking, b)
    else
      if Some(b) in panes then Index(lacking, a) < Holes(panes, Place(panes, b)) else Index(lacking, a) < Index(lacking, b)
  }

  /** For every saved layout and any two live terminals: which is shown left of the other in the restored layout. */
  lemma OrderExactly(saved: Option<Workspace>, ids: seq<Id>, a: Id, b: Id)
    requires a in ids && b in ids && a != b
    ensures LeftOf(Slots(Restored(saved, ids)), a, b) <==> Decided(Panes(saved, ids), Lacking(saved, ids), a, b)
  {
    hide Repaired, Placed, Missing, Holes, FillAll, AllInserted, Slots;
    var root := Repaired(saved, ids);
    var panes, lacking := Slots(root), Lacking(saved, ids);
    AllInsertedSlots(root, ids, ToSet(Terminals(root)));
    MissingFresh(ids, ToSet(Terminals(root)));
    forall id
      ensures id in Terminals(root) <==> Some(id) in panes
    {
      PlacedIn(panes, id);
    }
    var i, j := Index(lacking, a), Index(lacking, b);
    if Some(a) in panes {
      FillKeeps(panes, lacking, a);
      if Some(b) in panes {
        FillKeeps(panes, lacking, b);
      } else {
        FillAgainst(panes, lacking, j, a);
        assert lacking[j] == b && Place(FillAll(panes, lacking), a) != Place(FillAll(panes, lacking), b);
      }
    } else if Some(b) in panes {
      FillKeeps(panes, lacking, b);
      FillAgainst(panes, lacking, i, b);
    } else if i < j {
      FillAmong(panes, lacking, i, j);
    } else {
      assert lacking[i] == a && lacking[j] == b;
      FillAmong(panes, lacking, j, i);
    }
  }

  /**
    So the saved order survives exactly when, for every two live terminals saved one left of the other,
    this decides for the saved order.
  */
  lemma SavedOrderSurvivesExactly(root: Saved, ids: seq<Id>)
    ensures var saved := Some(Workspace(1, root)); var panes := SavedSlots(root, ToSet(ids));
      (forall a, b :: Some(a) in panes && Some(b) in panes && LeftOf(panes, a, b) ==> LeftOf(Slots(Restored(saved, ids)), a, b))
      <==>
      (forall a, b :: Some(a) in panes && Some(b) in panes && LeftOf(panes, a, b) ==>
                        Decided(Panes(saved, ids), Lacking(saved, ids), a, b))
  {
    hide Repaired, Restored, Decided, Panes, Lacking, Slots;
    var saved, panes := Some(Workspace(1, root)), SavedSlots(root, ToSet(ids));
    forall a, b | Some(a) in panes && Some(b) in panes && LeftOf(panes, a, b)
      ensures LeftOf(Slots(Restored(saved, ids)), a, b) <==> Decided(Panes(saved, ids), Lacking(saved, ids), a, b)
    {
      SavedAreLive(root, ToSet(ids));
      OrderExactly(saved, ids, a, b);
    }
  }

  lemma {:induction false} SavedAreLive(saved: Saved, live: set<Id>)
    ensures forall id :: Some(id) in SavedSlots(saved, live) ==> id in live
    decreases saved
  {
    if !saved.Leaf? { SavedChildrenLive(saved.children, live); }
  }

  lemma {:induction false} SavedChildrenLive(children: seq<Saved>, live: set<Id>)
    ensures forall id :: Some(id) in SavedChildSlots(children, live) ==> id in live
    decreases children
  {
    if children != [] {
      SavedAreLive(children[0], live);
      SavedChildrenLive(children[1..], live);
    }
  }

  lemma {:induction false} PlaceIsIndex(slots: seq<Option<Id>>, a: Id, b: Id)
    requires Some(a) in slots && Some(b) in slots
    ensures LeftOf(slots, a, b) <==> Index(Placed(slots), a) < Index(Placed(slots), b)
    decreases |slots|
  {
    assert slots == [slots[0]] + slots[1..];
    PlacedIn(slots[1..], a);
    PlacedIn(slots[1..], b);
    if slots[0] != Some(a) && slots[0] != Some(b) {
      PlaceIsIndex(slots[1..], a, b);
      assert slots[0].None? ==> Placed(slots) == Placed(slots[1..]);
      assert slots[0].Some? ==> Placed(slots)[1..] == Placed(slots[1..]);
    }
  }

  /** It always survives in a lossless tree. */
  lemma LosslessOrderSurvives(root: Saved, ids: seq<Id>, a: Id, b: Id)
    requires Lossless(root, ToSet(ids))
    requires var panes := SavedSlots(root, ToSet(ids)); Some(a) in panes && Some(b) in panes && LeftOf(panes, a, b)
    ensures LeftOf(Slots(Restored(Some(Workspace(1, root)), ids)), a, b)
  {
    hide Restored, Slots, Placed, LeftOf, Lossless, IntoLayout, SavedSlots;
    var live, saved := ToSet(ids), Some(Workspace(1, root));
    var panes, kept := SavedSlots(root, live), Panes(saved, ids);
    KeptWholeExactly(root, live);
    PlacedIn(panes, a);
    PlacedIn(panes, b);
    assert Placed(kept) == Placed(panes) by { assert a in Kept(root, live); }
    PlacedIn(kept, a);
    PlacedIn(kept, b);
    PlaceIsIndex(panes, a, b);
    PlaceIsIndex(kept, a, b);
    SavedAreLive(root, live);
    assert a != b by { assert LeftOf(panes, a, b) ==> a != b by { NotLeftOfItself(panes, a); } }
    OrderExactly(saved, ids, a, b);
  }

  lemma NotLeftOfItself(slots: seq<Option<Id>>, a: Id)
    ensures !LeftOf(slots, a, a)
  {
  }

  // ----- a pane that loses its place -----

  const A: Id := "a"
  const B: Id := "b"
  const C: Id := "c"

  const BROKEN := SavedRow([Leaf(TerminalView(A)), Leaf(TerminalView(B)), Leaf(TerminalView(C))],
                           [NotFinite, Finite(1.0), Finite(1.0)])

  /** Three panes in a row, the first with a ratio that is not finite, come back with the first one last. */
  lemma BrokenRatioMovesPane()
    ensures LivePanes(BROKEN, {A, B, C}) == [A, B, C]
    ensures Terminals(Restored(Some(Workspace(1, BROKEN)), [A, B, C])) == [B, C, A]
  {
    var live := {A, B, C};
    assert ToSet([A, B, C]) == live;
    var b, c := Child(1.0, Terminal(B)), Child(1.0, Terminal(C));
    var children, ratios := BROKEN.children, BROKEN.ratios;
    assert children[1..] == [children[1], children[2]] && children[1..][1..] == [children[2]] && children[1..][1..][1..] == [];
    assert ratios[1..] == [ratios[1], ratios[2]] && ratios[1..][1..] == [ratios[2]] && ratios[1..][1..][1..] == [];
    assert IntoChildren([], [], live) == [];
    assert IntoChildren(children[1..][1..], ratios[1..][1..], live) == [c];
    assert IntoChildren(children[1..], ratios[1..], live) == [b, c];
    assert IntoLayout(BROKEN, live) == Some(Row([b, c]));
    BrokenSaved(live);
    BrokenRestored(b, c);
  }

  lemma BrokenSaved(live: set<Id>)
    requires live == {A, B, C}
    ensures LivePanes(BROKEN, live) == [A, B, C]
  {
    var children := BROKEN.children;
    assert children[1..] == [children[1], children[2]] && children[1..][1..] == [children[2]] && children[1..][1..][1..] == [];
    assert SavedChildSlots([], live) == [];
    assert SavedChildSlots([children[2]], live) == [Some(C)];
    assert SavedChildSlots(children[1..], live) == [Some(B), Some(C)];
    assert SavedSlots(children[0], live) == [Some(A)] && SavedSlots(children[1], live) == [Some(B)];
    assert [Some(A)] + [Some(B), Some(C)] == [Some(A), Some(B), Some(C)];
    assert SavedSlots(BROKEN, live) == [Some(A), Some(B), Some(C)];
    ThreePlaced(A, B, C);
  }

  lemma ThreePlaced(a: Id, b: Id, c: Id)
    ensures Placed([Some(a), Some(b), Some(c)]) == [a, b, c] && Placed([Some(b), Some(c)]) == [b, c]
  {
    assert [Some(a), Some(b), Some(c)][1..] == [Some(b), Some(c)] && [Some(b), Some(c)][1..] == [Some(c)];
    assert Placed([Some(c)][1..]) == [] && Placed([Some(c)]) == [c];
  }

  lemma BrokenRestored(b: Child, c: Child)
    requires b == Child(1.0, Terminal(B)) && c == Child(1.0, Terminal(C))
    ensures Terminals(AllInserted(Row([b, c]), [A, B, C], ToSet(Terminals(Row([b, c]))))) == [B, C, A]
  {
    var row := Row([b, c]);
    assert [b, c][1..] == [c] && [c][1..] == [];
    assert ChildSlots([]) == [] && ChildSlots([c]) == Slots(c.node) + [] == [Some(C)];
    assert Slots(row) == ChildSlots([b, c]) == Slots(b.node) + ChildSlots([c]) == [Some(B), Some(C)];
    ThreePlaced(A, B, C);
    ThreePlaced(B, C, A);
    var placed := ToSet(Terminals(row));
    assert placed == {B, C};
    assert [A, B, C][1..] == [B, C] && [B, C][1..] == [C] && [C][1..] == [];
    var shown := {B, C} + {A};
    assert Missing([C][1..], shown) == [] && Missing([C], shown) == [];
    assert Missing([B, C], shown) == Missing([B, C][1..], shown) == [];
    assert Missing([A, B, C], placed) == [A];
    AllInsertedSlots(row, [A, B, C], placed);
    assert FillAll([Some(B), Some(C)] + [Some(A)], []) == [Some(B), Some(C)] + [Some(A)] == [Some(B), Some(C), Some(A)];
    assert InsertSlot([Some(B), Some(C)], A) == [Some(B), Some(C), Some(A)];
  }
}
