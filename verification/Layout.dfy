/** The desktop client's pane layout: repairing a saved tree against the terminals that are alive. */
module Layout {
  import opened Wrappers

  type Id = string

  /** A saved ratio: what a 32-bit float can be, as far as the repair cares. */
  datatype Ratio = Finite(value: real) | NotFinite

  datatype View = EmptyView | TerminalView(id: Id)

  datatype Saved =
    | Leaf(view: View)
    | SavedRow(children: seq<Saved>, ratios: seq<Ratio>)
    | SavedColumn(children: seq<Saved>, ratios: seq<Ratio>)

  datatype Workspace = Workspace(version: nat, root: Saved)

  datatype Child = Child(ratio: real, node: Node)

  datatype Node =
    | Empty
    | Terminal(id: Id)
    | Row(children: seq<Child>)
    | Column(children: seq<Child>)

  // ----- turning a saved tree into a layout -----

  predicate Usable(ratio: Ratio) {
    ratio.Finite? && ratio.value > 0.0
  }

  function IntoLayout(saved: Saved, live: set<Id>): Option<Node>
    decreases saved
  {
    match saved
    case Leaf(view) => Some(if view.TerminalView? && view.id in live then Terminal(view.id) else Empty)
    case SavedRow(children, ratios) =>
      if |children| < 2 || |children| != |ratios| then None
      else var kept := IntoChildren(children, ratios, live); if |kept| >= 2 then Some(Row(kept)) else None
    case SavedColumn(children, ratios) =>
      if |children| < 2 || |children| != |ratios| then None
      else var kept := IntoChildren(children, ratios, live); if |kept| >= 2 then Some(Column(kept)) else None
  }

  function IntoChildren(children: seq<Saved>, ratios: seq<Ratio>, live: set<Id>): seq<Child>
    requires |children| == |ratios|
    decreases children
  {
    if children == [] then []
    else
      var rest := IntoChildren(children[1..], ratios[1..], live);
      if !Usable(ratios[0]) then rest
      else
        var node := IntoLayout(children[0], live);
        if node.None? then rest else [Child(ratios[0].value, node.value)] + rest
  }

  // ----- what a layout shows -----

  /** The panes from left to right: a terminal, or nothing. */
  function Slots(node: Node): seq<Option<Id>>
    decreases node
  {
    match node
    case Empty => [None]
    case Terminal(id) => [Some(id)]
    case Row(children) => ChildSlots(children)
    case Column(children) => ChildSlots(children)
  }

  function ChildSlots(children: seq<Child>): seq<Option<Id>>
    decreases children
  {
    if children == [] then []
    else
      assert children decreases to children[0];
      Slots(children[0].node) + ChildSlots(children[1..])
  }

  function Placed(slots: seq<Option<Id>>): seq<Id> {
    if slots == [] then [] else (if slots[0].Some? then [slots[0].value] else []) + Placed(slots[1..])
  }

  function Terminals(node: Node): seq<Id> {
    Placed(Slots(node))
  }

  /** Every split has at least two children, each with a positive ratio. */
  predicate Proper(node: Node)
    decreases node
  {
    match node
    case Empty => true
    case Terminal(_) => true
    case Row(children) => |children| >= 2 && ProperChildren(children)
    case Column(children) => |children| >= 2 && ProperChildren(children)
  }

  predicate ProperChildren(children: seq<Child>)
    decreases children
  {
    children == [] ||
    (assert children decreases to children[0];
     children[0].ratio > 0.0 && Proper(children[0].node) && ProperChildren(children[1..]))
  }

  // ----- placing a terminal -----

  datatype Filled = Filled(node: Node, done: bool)

  /** The first empty pane from the left takes the terminal. */
  function FillEmpty(node: Node, id: Id): Filled
    decreases node
  {
    match node
    case Empty => Filled(Terminal(id), true)
    case Terminal(_) => Filled(node, false)
    case Row(children) => var filled := FillChildren(children, id); Filled(Row(filled.0), filled.1)
    case Column(children) => var filled := FillChildren(children, id); Filled(Column(filled.0), filled.1)
  }

  function FillChildren(children: seq<Child>, id: Id): (filled: (seq<Child>, bool))
    ensures |filled.0| == |children|
    decreases children
  {
    if children == [] then ([], false)
    else
      assert children decreases to children[0];
      var first := FillEmpty(children[0].node, id);
      if first.done then ([Child(children[0].ratio, first.node)] + children[1..], true)
      else
        var rest := FillChildren(children[1..], id);
        ([children[0]] + rest.0, rest.1)
  }

  function Inserted(node: Node, id: Id): Node {
    var filled := FillEmpty(node, id);
    if filled.done then filled.node else Row([Child(1.0, node), Child(1.0, Terminal(id))])
  }

  function AllInserted(node: Node, ids: seq<Id>, placed: set<Id>): Node
    decreases |ids|
  {
    if ids == [] then node
    else if ids[0] in placed then AllInserted(node, ids[1..], placed)
    else AllInserted(Inserted(node, ids[0]), ids[1..], placed + {ids[0]})
  }

  function ToSet(ids: seq<Id>): set<Id> {
    set id | id in ids
  }

  /** What the saved layout gives before anything is added. */
  function Repaired(saved: Option<Workspace>, ids: seq<Id>): Node {
    if saved.None? || saved.value.version != 1 then Empty
    else
      var root := IntoLayout(saved.value.root, ToSet(ids));
      if root.None? then Empty else root.value
  }

  function Restored(saved: Option<Workspace>, ids: seq<Id>): Node {
    var root := Repaired(saved, ids);
    AllInserted(root, ids, ToSet(Terminals(root)))
  }

  // ----- filling, seen in the panes -----

  function FillSlot(slots: seq<Option<Id>>, id: Id): seq<Option<Id>> {
    if slots == [] then []
    else if slots[0].None? then [Some(id)] + slots[1..]
    else [slots[0]] + FillSlot(slots[1..], id)
  }

  lemma {:induction false} FillSlotConcat(a: seq<Option<Id>>, b: seq<Option<Id>>, id: Id)
    ensures FillSlot(a + b, id) == if None in a then FillSlot(a, id) + b else a + FillSlot(b, id)
    ensures None !in a ==> FillSlot(a, id) == a
  {
    if a == [] {
      assert a + b == b;
    } else {
      assert (a + b)[0] == a[0] && (a + b)[1..] == a[1..] + b;
      assert a == [a[0]] + a[1..];
      FillSlotConcat(a[1..], b, id);
    }
  }

  lemma {:induction false} FillsFirst(node: Node, id: Id)
    ensures Slots(FillEmpty(node, id).node) == FillSlot(Slots(node), id)
    ensures FillEmpty(node, id).done <==> None in Slots(node)
    ensures Proper(node) ==> Proper(FillEmpty(node, id).node)
    decreases node
  {
    match node
    case Empty =>
    case Terminal(_) =>
    case Row(children) => FillsFirstChild(children, id);
    case Column(children) => FillsFirstChild(children, id);
  }

  lemma {:induction false} FillsFirstChild(children: seq<Child>, id: Id)
    ensures ChildSlots(FillChildren(children, id).0) == FillSlot(ChildSlots(children), id)
    ensures FillChildren(children, id).1 <==> None in ChildSlots(children)
    ensures ProperChildren(children) ==> ProperChildren(FillChildren(children, id).0)
    decreases children
  {
    if children != [] {
      assert children decreases to children[0];
      FillsFirst(children[0].node, id);
      FillsFirstChild(children[1..], id);
      FillSlotConcat(Slots(children[0].node), ChildSlots(children[1..]), id);
      var filled := FillChildren(children, id).0;
      assert filled[1..] == if FillEmpty(children[0].node, id).done then children[1..] else FillChildren(children[1..], id).0;
    }
  }

  lemma {:induction false} PlacedConcat(a: seq<Option<Id>>, b: seq<Option<Id>>)
    ensures Placed(a + b) == Placed(a) + Placed(b)
  {
    if a == [] {
      assert a + b == b;
    } else {
      assert (a + b)[0] == a[0] && (a + b)[1..] == a[1..] + b;
      PlacedConcat(a[1..], b);
    }
  }

  /** Inserting a terminal adds it once, somewhere, and moves nothing else. */
  ghost predicate AddedOnce(before: seq<Id>, after: seq<Id>, id: Id) {
    exists i :: 0 <= i <= |before| && after == before[..i] + [id] + before[i..]
  }

  lemma {:induction false} FillSlotAdds(slots: seq<Option<Id>>, id: Id)
    requires None in slots
    ensures AddedOnce(Placed(slots), Placed(FillSlot(slots, id)), id)
  {
    hide Placed, FillSlot, AddedOnce;
    var rest := slots[1..];
    assert slots == [slots[0]] + rest;
    FillSlotStep(slots, id);
    if slots[0].None? {
      AddedFirst(Placed(rest), id);
    } else {
      FillSlotAdds(rest, id);
      AddedLater(slots[0].value, Placed(rest), Placed(FillSlot(rest, id)), id);
    }
  }

  lemma FillSlotStep(slots: seq<Option<Id>>, id: Id)
    requires slots != []
    ensures var rest := slots[1..];
      if slots[0].None? then Placed(slots) == Placed(rest) && Placed(FillSlot(slots, id)) == [id] + Placed(rest)
      else Placed(slots) == [slots[0].value] + Placed(rest)
           && Placed(FillSlot(slots, id)) == [slots[0].value] + Placed(FillSlot(rest, id))
  {
    var filled := FillSlot(slots, id);
    assert filled[1..] == if slots[0].None? then slots[1..] else FillSlot(slots[1..], id);
    assert [] + Placed(slots[1..]) == Placed(slots[1..]);
  }

  lemma AddedFirst(before: seq<Id>, id: Id)
    ensures AddedOnce(before, [id] + before, id)
  {
    assert [id] + before == before[..0] + [id] + before[0..];
  }

  lemma AddedLater(head: Id, before: seq<Id>, after: seq<Id>, id: Id)
    requires AddedOnce(before, after, id)
    ensures AddedOnce([head] + before, [head] + after, id)
  {
    var i :| 0 <= i <= |before| && after == before[..i] + [id] + before[i..];
    var more := [head] + before;
    assert more[..i + 1] == [head] + before[..i] && more[i + 1..] == before[i..];
    assert [head] + after == more[..i + 1] + [id] + more[i + 1..];
  }

  lemma InsertAdds(node: Node, id: Id)
    ensures AddedOnce(Terminals(node), Terminals(Inserted(node, id)), id)
    ensures Proper(node) ==> Proper(Inserted(node, id))
  {
    hide AddedOnce, Placed, FillSlot;
    FillsFirst(node, id);
    if None in Slots(node) {
      FillSlotAdds(Slots(node), id);
    } else {
      WrapAdds(node, id);
    }
  }

  lemma WrapAdds(node: Node, id: Id)
    ensures var wrapped := Row([Child(1.0, node), Child(1.0, Terminal(id))]);
      AddedOnce(Terminals(node), Terminals(wrapped), id) && (Proper(node) ==> Proper(wrapped))
  {
    var children := [Child(1.0, node), Child(1.0, Terminal(id))];
    assert children[1..] == [Child(1.0, Terminal(id))] && children[1..][1..] == [];
    assert ChildSlots(children[1..]) == [Some(id)] + [] == [Some(id)];
    assert ChildSlots(children) == Slots(node) + [Some(id)];
    PlacedConcat(Slots(node), [Some(id)]);
    assert Placed([Some(id)][1..]) == [] && Placed([Some(id)]) == [id];
    var before := Terminals(node);
    assert before[..|before|] + [id] + before[|before|..] == before + [id];
    assert ProperChildren(children[1..][1..]) && ProperChildren(children[1..]);
  }

  // ----- restoring -----

  /** The ids of `ids` that are in `kept`, in order. */
  function Only(ids: seq<Id>, kept: set<Id>): seq<Id> {
    if ids == [] then [] else (if ids[0] in kept then [ids[0]] else []) + Only(ids[1..], kept)
  }

  function Count(ids: seq<Id>, id: Id): nat {
    if ids == [] then 0 else (if ids[0] == id then 1 else 0) + Count(ids[1..], id)
  }

  lemma {:induction false} OnlyConcat(a: seq<Id>, b: seq<Id>, kept: set<Id>)
    ensures Only(a + b, kept) == Only(a, kept) + Only(b, kept)
  {
    if a == [] {
      assert a + b == b;
    } else {
      assert (a + b)[0] == a[0] && (a + b)[1..] == a[1..] + b;
      OnlyConcat(a[1..], b, kept);
    }
  }

  lemma {:induction false} CountConcat(a: seq<Id>, b: seq<Id>, id: Id)
    ensures Count(a + b, id) == Count(a, id) + Count(b, id)
  {
    if a == [] {
      assert a + b == b;
    } else {
      assert (a + b)[0] == a[0] && (a + b)[1..] == a[1..] + b;
      CountConcat(a[1..], b, id);
    }
  }

  lemma {:induction false} CountIn(ids: seq<Id>, id: Id)
    ensures id in ids <==> Count(ids, id) > 0
  {
    if ids != [] {
      CountIn(ids[1..], id);
      assert ids == [ids[0]] + ids[1..];
    }
  }

  lemma AddedKeeps(before: seq<Id>, after: seq<Id>, id: Id, kept: set<Id>)
    requires AddedOnce(before, after, id)
    ensures id !in kept ==> Only(after, kept) == Only(before, kept)
    ensures forall other :: Count(after, other) == Count(before, other) + (if other == id then 1 else 0)
  {
    var i :| 0 <= i <= |before| && after == before[..i] + [id] + before[i..];
    assert before == before[..i] + before[i..];
    assert [id][1..] == [];
    OnlyConcat(before[..i], before[i..], kept);
    OnlyConcat(before[..i], [id], kept);
    OnlyConcat(before[..i] + [id], before[i..], kept);
    assert id !in kept ==> Only(before[..i], kept) + [] == Only(before[..i], kept);
    forall other
      ensures Count(after, other) == Count(before, other) + (if other == id then 1 else 0)
    {
      CountConcat(before[..i], before[i..], other);
      CountConcat(before[..i], [id], other);
      CountConcat(before[..i] + [id], before[i..], other);
      assert Count([id], other) == (if other == id then 1 else 0) + Count([id][1..], other);
    }
  }

  lemma {:induction false} AllInsertedAdds(node: Node, ids: seq<Id>, placed: set<Id>, kept: set<Id>)
    requires kept <= placed
    ensures var now := AllInserted(node, ids, placed);
      && (Proper(node) ==> Proper(now))
      && Only(Terminals(now), kept) == Only(Terminals(node), kept)
      && (forall id :: Count(Terminals(now), id) == Count(Terminals(node), id) + (if id in ids && id !in placed then 1 else 0))
    decreases |ids|
  {
    hide Terminals, Inserted, Only, Count, Proper;
    if ids != [] {
      assert ids == [ids[0]] + ids[1..];
      if ids[0] in placed {
        AllInsertedAdds(node, ids[1..], placed, kept);
      } else {
        InsertAdds(node, ids[0]);
        AddedKeeps(Terminals(node), Terminals(Inserted(node, ids[0])), ids[0], kept);
        AllInsertedAdds(Inserted(node, ids[0]), ids[1..], placed + {ids[0]}, kept);
      }
    }
  }

  /** A saved tree gives a proper layout that shows only live terminals. */
  lemma {:induction false} IntoLayoutProper(saved: Saved, live: set<Id>)
    ensures var node := IntoLayout(saved, live);
      node.Some? ==> Proper(node.value) && forall id :: id in Terminals(node.value) ==> id in live
    decreases saved
  {
    match saved
    case Leaf(view) => OnePlaced(Slots(IntoLayout(saved, live).value)[0]);
    case SavedRow(children, ratios) => if |children| == |ratios| { IntoChildrenProper(children, ratios, live); }
    case SavedColumn(children, ratios) => if |children| == |ratios| { IntoChildrenProper(children, ratios, live); }
  }

  lemma {:induction false} IntoChildrenProper(children: seq<Saved>, ratios: seq<Ratio>, live: set<Id>)
    requires |children| == |ratios|
    ensures ProperChildren(IntoChildren(children, ratios, live))
    ensures forall id :: id in Placed(ChildSlots(IntoChildren(children, ratios, live))) ==> id in live
    decreases children
  {
    if children != [] {
      IntoChildrenProper(children[1..], ratios[1..], live);
      IntoLayoutProper(children[0], live);
      var rest, node := IntoChildren(children[1..], ratios[1..], live), IntoLayout(children[0], live);
      if Usable(ratios[0]) && node.Some? {
        var all := [Child(ratios[0].value, node.value)] + rest;
        assert all[1..] == rest && all[0].node == node.value;
        PlacedConcat(Slots(node.value), ChildSlots(rest));
      }
    }
  }

  /**
    For every saved layout and every list of live terminals: the restored layout shows exactly the
    live terminals; each one the repaired layout was missing appears exactly once; those it had
    appear as often and in the same left-to-right order; and every split has at least two children.
  */
  lemma RestoredShowsLive(saved: Option<Workspace>, ids: seq<Id>)
    ensures var before, now := Terminals(Repaired(saved, ids)), Terminals(Restored(saved, ids));
      && Proper(Restored(saved, ids))
      && (forall id :: id in now <==> id in ids)
      && (forall id :: id in ids && id !in before ==> Count(now, id) == 1)
      && (forall id :: id in before ==> Count(now, id) == Count(before, id))
      && Only(now, ToSet(before)) == before
  {
    hide IntoLayout, AllInserted, Terminals, Only, Count, Proper;
    var root := Repaired(saved, ids);
    RepairedProper(saved, ids);
    AllInsertedAdds(root, ids, ToSet(Terminals(root)), ToSet(Terminals(root)));
    OnlyAll(Terminals(root), ToSet(Terminals(root)));
    forall id
      ensures id in Terminals(Restored(saved, ids)) <==> Count(Terminals(Restored(saved, ids)), id) > 0
      ensures id in Terminals(root) <==> Count(Terminals(root), id) > 0
    {
      CountIn(Terminals(Restored(saved, ids)), id);
      CountIn(Terminals(root), id);
    }
  }

  lemma OnePlaced(slot: Option<Id>)
    ensures Placed([slot]) == if slot.Some? then [slot.value] else []
  {
    assert Placed([slot][1..]) == [];
  }

  lemma RepairedProper(saved: Option<Workspace>, ids: seq<Id>)
    ensures Proper(Repaired(saved, ids)) && forall id :: id in Terminals(Repaired(saved, ids)) ==> id in ids
  {
    if saved.Some? { IntoLayoutProper(saved.value.root, ToSet(ids)); }
    OnePlaced(None);
  }

  lemma {:induction false} OnlyAll(ids: seq<Id>, kept: set<Id>)
    requires forall id :: id in ids ==> id in kept
    ensures Only(ids, kept) == ids
  {
    if ids != [] {
      assert ids == [ids[0]] + ids[1..];
      OnlyAll(ids[1..], kept);
    }
  }

  // ----- a well-formed saved layout is kept whole -----

  predicate WellFormed(saved: Saved)
    decreases saved
  {
    match saved
    case Leaf(_) => true
    case SavedRow(children, ratios) => |children| >= 2 && |children| == |ratios| && WellFormedChildren(children, ratios)
    case SavedColumn(children, ratios) => |children| >= 2 && |children| == |ratios| && WellFormedChildren(children, ratios)
  }

  predicate WellFormedChildren(children: seq<Saved>, ratios: seq<Ratio>)
    requires |children| == |ratios|
    decreases children
  {
    children == [] || (Usable(ratios[0]) && WellFormed(children[0]) && WellFormedChildren(children[1..], ratios[1..]))
  }

  /** The saved panes from left to right, those of dead terminals empty. */
  function SavedSlots(saved: Saved, live: set<Id>): seq<Option<Id>>
    decreases saved
  {
    match saved
    case Leaf(view) => [if view.TerminalView? && view.id in live then Some(view.id) else None]
    case SavedRow(children, _) => SavedChildSlots(children, live)
    case SavedColumn(children, _) => SavedChildSlots(children, live)
  }

  function SavedChildSlots(children: seq<Saved>, live: set<Id>): seq<Option<Id>>
    decreases children
  {
    if children == [] then [] else SavedSlots(children[0], live) + SavedChildSlots(children[1..], live)
  }

  lemma {:induction false} WellFormedKept(saved: Saved, live: set<Id>)
    requires WellFormed(saved)
    ensures IntoLayout(saved, live).Some? && Slots(IntoLayout(saved, live).value) == SavedSlots(saved, live)
    decreases saved
  {
    match saved
    case Leaf(_) =>
    case SavedRow(children, ratios) => WellFormedChildrenKept(children, ratios, live);
    case SavedColumn(children, ratios) => WellFormedChildrenKept(children, ratios, live);
  }

  lemma {:induction false} WellFormedChildrenKept(children: seq<Saved>, ratios: seq<Ratio>, live: set<Id>)
    requires |children| == |ratios| && WellFormedChildren(children, ratios)
    ensures var kept := IntoChildren(children, ratios, live);
      |kept| == |children| && ChildSlots(kept) == SavedChildSlots(children, live)
    decreases children
  {
    if children != [] {
      WellFormedKept(children[0], live);
      WellFormedChildrenKept(children[1..], ratios[1..], live);
      var kept := IntoChildren(children, ratios, live);
      assert kept[1..] == IntoChildren(children[1..], ratios[1..], live);
    }
  }

  // ----- the loops that change the tree -----

  method FillFirstEmpty(node: Node, id: Id) returns (filled: Node, done: bool)
    ensures Filled(filled, done) == FillEmpty(node, id)
    decreases node
  {
    match node
    case Empty => return Terminal(id), true;
    case Terminal(_) => return node, false;
    case Row(children) =>
      var changed, any := FillAnyChild(children, id);
      return Row(changed), any;
    case Column(children) =>
      var changed, any := FillAnyChild(children, id);
      return Column(changed), any;
  }

  method FillAnyChild(children: seq<Child>, id: Id) returns (changed: seq<Child>, any: bool)
    ensures (changed, any) == FillChildren(children, id)
    decreases children
  {
    changed, any := [], false;
    var i := 0;
    assert children[0..] == children;
    FillPrefix([], children, id);
    while i < |children|
      invariant 0 <= i <= |children| && changed == children[..i]
      invariant FillChildren(children, id) == (changed + FillChildren(children[i..], id).0, FillChildren(children[i..], id).1)
    {
      FillPrefix(changed, children[i..], id);
      assert children decreases to children[i];
      var first, done := FillFirstEmpty(children[i].node, id);
      if done {
        changed := changed + [Child(children[i].ratio, first)] + children[i + 1..];
        assert children[i..][1..] == children[i + 1..];
        return changed, true;
      }
      changed := changed + [children[i]];
      assert children[i..][1..] == children[i + 1..];
      i := i + 1;
    }
    FillPrefix(changed, children[i..], id);
  }

  lemma FillPrefix(before: seq<Child>, children: seq<Child>, id: Id)
    ensures children == [] ==> before + FillChildren(children, id).0 == before && !FillChildren(children, id).1
    ensures children != [] ==>
              var first := FillEmpty(children[0].node, id);
              if first.done
              then FillChildren(children, id).1
                   && before + FillChildren(children, id).0 == before + [Child(children[0].ratio, first.node)] + children[1..]
              else FillChildren(children, id).1 == FillChildren(children[1..], id).1
                   && before + FillChildren(children, id).0 == before + [children[0]] + FillChildren(children[1..], id).0
    ensures [] + FillChildren(children, id).0 == FillChildren(children, id).0
  {
    hide FillEmpty;
    if children != [] {
      var first, rest := FillEmpty(children[0].node, id), FillChildren(children[1..], id);
      Regroup(before, Child(children[0].ratio, first.node), children[1..]);
      Regroup(before, children[0], rest.0);
    }
  }

  lemma Regroup(a: seq<Child>, b: Child, c: seq<Child>)
    ensures a + ([b] + c) == a + [b] + c
  {
  }

  method InsertTerminal(node: Node, id: Id) returns (inserted: Node)
    ensures inserted == Inserted(node, id)
  {
    var filled, done := FillFirstEmpty(node, id);
    if done {
      return filled;
    }
    inserted := Row([Child(1.0, node), Child(1.0, Terminal(id))]);
  }

  method CollectTerminalIds(node: Node, before: set<Id>) returns (output: set<Id>)
    ensures output == before + ToSet(Terminals(node))
    decreases node
  {
    match node
    case Empty =>
      OnePlaced(None);
      output := before;
    case Terminal(id) =>
      OnePlaced(Some(id));
      output := before + {id};
    case Row(children) => output := CollectFromChildren(children, before);
    case Column(children) => output := CollectFromChildren(children, before);
  }

  method CollectFromChildren(children: seq<Child>, before: set<Id>) returns (output: set<Id>)
    ensures output == before + ToSet(Placed(ChildSlots(children)))
    decreases children
  {
    output := before;
    assert children[..0] == [];
    for i := 0 to |children|
      invariant output == before + ToSet(Placed(ChildSlots(children[..i])))
    {
      assert children decreases to children[i];
      output := CollectTerminalIds(children[i].node, output);
      ChildSlotsPush(children[..i], children[i]);
      assert children[..i + 1] == children[..i] + [children[i]];
    }
    assert children[..|children|] == children;
  }

  lemma {:induction false} ChildSlotsPush(children: seq<Child>, child: Child)
    ensures ChildSlots(children + [child]) == ChildSlots(children) + Slots(child.node)
    ensures Placed(ChildSlots(children + [child])) == Placed(ChildSlots(children)) + Placed(Slots(child.node))
  {
    hide Placed, ChildSlots, Slots;
    ChildSlotsHead(children);
    ChildSlotsHead(children + [child]);
    if children == [] {
      assert children + [child] == [child] && [child][1..] == [];
      assert Slots(child.node) + [] == Slots(child.node) == [] + Slots(child.node);
    } else {
      assert (children + [child])[0] == children[0] && (children + [child])[1..] == children[1..] + [child];
      ChildSlotsPush(children[1..], child);
    }
    PlacedConcat(ChildSlots(children), Slots(child.node));
  }

  lemma ChildSlotsHead(children: seq<Child>)
    ensures ChildSlots(children) == if children == [] then [] else Slots(children[0].node) + ChildSlots(children[1..])
    ensures ChildSlots([]) == []
  {
    hide Slots;
  }

  method Restore(saved: Option<Workspace>, ids: seq<Id>) returns (root: Node)
    ensures root == Restored(saved, ids)
  {
    hide AllInserted, Terminals, Inserted;
    root := Repaired(saved, ids);
    var placed := CollectTerminalIds(root, {});
    ghost var start, first := root, placed;
    assert {} + ToSet(Terminals(root)) == ToSet(Terminals(root));
    assert ids[0..] == ids;
    for i := 0 to |ids|
      invariant AllInserted(root, ids[i..], placed) == AllInserted(start, ids, first)
    {
      InsertStep(root, ids[i..], placed);
      assert ids[i..][1..] == ids[i + 1..];
      if ids[i] !in placed {
        placed := placed + {ids[i]};
        root := InsertTerminal(root, ids[i]);
      }
    }
    InsertStep(root, ids[|ids|..], placed);
  }

  lemma InsertStep(node: Node, ids: seq<Id>, placed: set<Id>)
    ensures AllInserted(node, ids, placed) ==
            if ids == [] then node
            else if ids[0] in placed then AllInserted(node, ids[1..], placed)
            else AllInserted(Inserted(node, ids[0]), ids[1..], placed + {ids[0]})
  {
    hide Inserted;
  }
}
