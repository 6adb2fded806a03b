/** Where each pane of a repaired layout sits: the splits around it, their directions and its share of each. */
module LayoutShape {
  import opened Wrappers
  import opened Layout
  import opened LayoutOrder

  /** One split around a pane: its direction, and the ratio of the child the pane is in. */
  datatype Split = Split(column: bool, ratio: real)

  /** A pane, and the splits around it from the outermost in. */
  datatype Pane = Pane(around: seq<Split>, slot: Option<Id>)

  function Inside(split: Split, panes: seq<Pane>): (inside: seq<Pane>)
    ensures |inside| == |panes|
  {
    seq(|panes|, i requires 0 <= i < |panes| => Pane([split] + panes[i].around, panes[i].slot))
  }

  function NodePanes(node: Node): seq<Pane>
    decreases node
  {
    match node
    case Empty => [Pane([], None)]
    case Terminal(id) => [Pane([], Some(id))]
    case Row(children) => ChildrenPanes(false, children)
    case Column(children) => ChildrenPanes(true, children)
  }

  function ChildrenPanes(column: bool, children: seq<Child>): seq<Pane>
    decreases children
  {
    if children == [] then []
    else
      assert children decreases to children[0];
      Inside(Split(column, children[0].ratio), NodePanes(children[0].node)) + ChildrenPanes(column, children[1..])
  }

  /** The saved panes, those of dead terminals empty; a ratio that is no number counts as 0 here. */
  function SavedPanes(saved: Saved, live: set<Id>): seq<Pane>
    decreases saved
  {
    match saved
    case Leaf(view) => [Pane([], if view.TerminalView? && view.id in live then Some(view.id) else None)]
    case SavedRow(children, ratios) => SavedChildrenPanes(false, children, ratios, live)
    case SavedColumn(children, ratios) => SavedChildrenPanes(true, children, ratios, live)
  }

  function SavedChildrenPanes(column: bool, children: seq<Saved>, ratios: seq<Ratio>, live: set<Id>): seq<Pane>
    decreases children
  {
    if children == [] || ratios == [] then []
    else
      var ratio := if ratios[0].Finite? then ratios[0].value else 0.0;
      Inside(Split(column, ratio), SavedPanes(children[0], live)) + SavedChildrenPanes(column, children[1..], ratios[1..], live)
  }

  // ----- repairing -----

  predicate Thinned(a: seq<Pane>, b: seq<Pane>) {
    a == [] || (b != [] && ((a[0] == b[0] && Thinned(a[1..], b[1..])) || Thinned(a, b[1..])))
  }

  lemma {:induction false} ThinnedConcat(a: seq<Pane>, b: seq<Pane>, c: seq<Pane>, d: seq<Pane>)
    requires Thinned(a, b) && Thinned(c, d)
    ensures Thinned(a + c, b + d)
    decreases |b|
  {
    if b == [] {
      assert a + c == c && b + d == d;
    } else {
      assert (b + d)[0] == b[0] && (b + d)[1..] == b[1..] + d;
      if a != [] && a[0] == b[0] && Thinned(a[1..], b[1..]) {
        ThinnedConcat(a[1..], b[1..], c, d);
        assert (a + c)[0] == a[0] && (a + c)[1..] == a[1..] + c;
      } else {
        ThinnedRest(a, b);
        ThinnedConcat(a, b[1..], c, d);
      }
    }
  }

  lemma ThinnedRest(a: seq<Pane>, b: seq<Pane>)
    requires Thinned(a, b) && b != [] && !(a != [] && a[0] == b[0] && Thinned(a[1..], b[1..]))
    ensures Thinned(a, b[1..])
  {
  }

  lemma {:induction false} ThinnedInside(split: Split, a: seq<Pane>, b: seq<Pane>)
    requires Thinned(a, b)
    ensures Thinned(Inside(split, a), Inside(split, b))
    decreases |b|
  {
    if a != [] {
      assert Inside(split, b)[1..] == Inside(split, b[1..]);
      if a[0] == b[0] && Thinned(a[1..], b[1..]) {
        assert Inside(split, a)[1..] == Inside(split, a[1..]);
        ThinnedInside(split, a[1..], b[1..]);
      } else {
        ThinnedRest(a, b);
        ThinnedInside(split, a, b[1..]);
      }
    } else {
      assert Inside(split, a) == [];
    }
  }

  lemma ThinnedNothing(b: seq<Pane>)
    ensures Thinned([], b)
  {
  }

  /** Every pane kept sits in the same splits as it was saved in, with the same ratios, and in the same order. */
  lemma {:induction false} KeptWhereSaved(saved: Saved, live: set<Id>)
    ensures IntoLayout(saved, live).Some? ==> Thinned(NodePanes(IntoLayout(saved, live).value), SavedPanes(saved, live))
    decreases saved
  {
    match saved
    case Leaf(_) => assert [SavedPanes(saved, live)[0]][1..] == [];
    case SavedRow(children, ratios) =>
      if |children| == |ratios| { ChildrenKeptWhereSaved(false, children, ratios, live); }
    case SavedColumn(children, ratios) =>
      if |children| == |ratios| { ChildrenKeptWhereSaved(true, children, ratios, live); }
  }

  lemma {:induction false} ChildrenKeptWhereSaved(column: bool, children: seq<Saved>, ratios: seq<Ratio>, live: set<Id>)
    requires |children| == |ratios|
    ensures Thinned(ChildrenPanes(column, IntoChildren(children, ratios, live)), SavedChildrenPanes(column, children, ratios, live))
    decreases children
  {
    if children != [] {
      hide Thinned;
      var rest := IntoChildren(children[1..], ratios[1..], live);
      ChildrenKeptWhereSaved(column, children[1..], ratios[1..], live);
      KeptWhereSaved(children[0], live);
      var ratio := if ratios[0].Finite? then ratios[0].value else 0.0;
      var saved := Inside(Split(column, ratio), SavedPanes(children[0], live));
      var node := IntoLayout(children[0], live);
      if Usable(ratios[0]) && node.Some? {
        ChildrenPush(column, Child(ratios[0].value, node.value), rest);
        ThinnedInside(Split(column, ratio), NodePanes(node.value), SavedPanes(children[0], live));
        ThinnedConcat(Inside(Split(column, ratio), NodePanes(node.value)), saved,
                      ChildrenPanes(column, rest), SavedChildrenPanes(column, children[1..], ratios[1..], live));
      } else {
        ThinnedNothing(saved);
        ThinnedConcat([], saved, ChildrenPanes(column, rest), SavedChildrenPanes(column, children[1..], ratios[1..], live));
        assert [] + ChildrenPanes(column, rest) == ChildrenPanes(column, rest);
      }
    } else {
      ThinnedNothing([]);
      assert ChildrenPanes(column, []) == [];
    }
  }

  lemma ChildrenPush(column: bool, child: Child, rest: seq<Child>)
    ensures ChildrenPanes(column, [child] + rest) == Inside(Split(column, child.ratio), NodePanes(child.node)) + ChildrenPanes(column, rest)
  {
    assert ([child] + rest)[1..] == rest;
  }

  /** And a well formed layout is kept whole, each pane where it was. */
  lemma {:induction false} WellFormedStays(saved: Saved, live: set<Id>)
    requires WellFormed(saved)
    ensures IntoLayout(saved, live).Some? && NodePanes(IntoLayout(saved, live).value) == SavedPanes(saved, live)
    decreases saved
  {
    match saved
    case Leaf(_) =>
    case SavedRow(children, ratios) => WellFormedChildrenStay(false, children, ratios, live);
    case SavedColumn(children, ratios) => WellFormedChildrenStay(true, children, ratios, live);
  }

  lemma {:induction false} WellFormedChildrenStay(column: bool, children: seq<Saved>, ratios: seq<Ratio>, live: set<Id>)
    requires |children| == |ratios| && WellFormedChildren(children, ratios)
    ensures var kept := IntoChildren(children, ratios, live);
      |kept| == |children| && ChildrenPanes(column, kept) == SavedChildrenPanes(column, children, ratios, live)
    decreases children
  {
    if children != [] {
      WellFormedChildrenStay(column, children[1..], ratios[1..], live);
      WellFormedStays(children[0], live);
      var node := IntoLayout(children[0], live).value;
      ChildrenPush(column, Child(ratios[0].value, node), IntoChildren(children[1..], ratios[1..], live));
    }
  }

  // ----- adding -----

  predicate HasEmpty(panes: seq<Pane>) {
    exists i :: 0 <= i < |panes| && panes[i].slot.None?
  }

  /** The first empty pane shows the terminal, where it is; with none, the terminal goes right of everything, half and half. */
  predicate AddsPane(before: seq<Pane>, after: seq<Pane>, id: Id) {
    if HasEmpty(before) then
      exists f :: 0 <= f < |before| && before[f].slot.None? && (forall k :: 0 <= k < f ==> before[k].slot.Some?)
                  && after == before[f := Pane(before[f].around, Some(id))]
    else after == Inside(Split(false, 1.0), before) + [Pane([Split(false, 1.0)], Some(id))]
  }

  function FirstEmpty(panes: seq<Pane>): (f: nat)
    ensures f <= |panes| && (f < |panes| ==> panes[f].slot.None?)
    ensures forall k :: 0 <= k < f ==> panes[k].slot.Some?
  {
    if panes == [] || panes[0].slot.None? then 0 else 1 + FirstEmpty(panes[1..])
  }

  function Shown(panes: seq<Pane>, id: Id): seq<Pane> {
    var f := FirstEmpty(panes);
    if f < |panes| then panes[f := Pane(panes[f].around, Some(id))] else panes
  }

  lemma FirstEmptyIs(panes: seq<Pane>, f: nat)
    requires f <= |panes| && (f < |panes| ==> panes[f].slot.None?) && forall k :: 0 <= k < f ==> panes[k].slot.Some?
    ensures FirstEmpty(panes) == f
  {
  }

  lemma ShownConcat(a: seq<Pane>, b: seq<Pane>, id: Id)
    ensures Shown(a + b, id) == if FirstEmpty(a) < |a| then Shown(a, id) + b else a + Shown(b, id)
    ensures FirstEmpty(a + b) < |a + b| <==> FirstEmpty(a) < |a| || FirstEmpty(b) < |b|
  {
    hide FirstEmpty;
    var f := FirstEmpty(a);
    if f < |a| {
      FirstEmptyIs(a + b, f);
    } else {
      FirstEmptyIs(a + b, |a| + FirstEmpty(b));
    }
  }

  lemma ShownInside(split: Split, panes: seq<Pane>, id: Id)
    ensures Shown(Inside(split, panes), id) == Inside(split, Shown(panes, id))
    ensures FirstEmpty(Inside(split, panes)) == FirstEmpty(panes)
  {
    hide FirstEmpty;
    FirstEmptyIs(Inside(split, panes), FirstEmpty(panes));
  }

  lemma {:induction false} FillShows(node: Node, id: Id)
    ensures NodePanes(FillEmpty(node, id).node) == Shown(NodePanes(node), id)
    ensures FillEmpty(node, id).done <==> FirstEmpty(NodePanes(node)) < |NodePanes(node)|
    decreases node
  {
    match node
    case Empty =>
    case Terminal(_) =>
    case Row(children) => FillChildrenShow(false, children, id);
    case Column(children) => FillChildrenShow(true, children, id);
  }

  lemma {:induction false} FillChildrenShow(column: bool, children: seq<Child>, id: Id)
    ensures ChildrenPanes(column, FillChildren(children, id).0) == Shown(ChildrenPanes(column, children), id)
    ensures FillChildren(children, id).1 <==> FirstEmpty(ChildrenPanes(column, children)) < |ChildrenPanes(column, children)|
    decreases children
  {
    if children != [] {
      hide Shown, FirstEmpty;
      assert children decreases to children[0];
      var child, rest := children[0], children[1..];
      FillShows(child.node, id);
      FillChildrenShow(column, rest, id);
      var split := Split(column, child.ratio);
      ShownInside(split, NodePanes(child.node), id);
      ShownConcat(Inside(split, NodePanes(child.node)), ChildrenPanes(column, rest), id);
      var first := FillEmpty(child.node, id);
      ChildrenPush(column, Child(child.ratio, first.node), rest);
      ChildrenPush(column, child, FillChildren(rest, id).0);
    }
  }

  lemma InsertAddsPane(node: Node, id: Id)
    ensures AddsPane(NodePanes(node), NodePanes(Inserted(node, id)), id)
  {
    hide FirstEmpty;
    FillShows(node, id);
    var panes := NodePanes(node);
    var f := FirstEmpty(panes);
    if f == |panes| {
      var split := Split(false, 1.0);
      var last := Child(1.0, Terminal(id));
      ChildrenPush(false, Child(1.0, node), [last]);
      assert [last] == [last] + [];
      ChildrenPush(false, last, []);
      assert Inside(split, [Pane([], Some(id))]) == [Pane([split], Some(id))] && ChildrenPanes(false, []) == [];
      assert [split] + [] == [split];
    }
  }

  /** The panes go through these lists as the missing terminals are added one after the other. */
  predicate AddsAll(lists: seq<seq<Pane>>, missing: seq<Id>) {
    |lists| == |missing| + 1 && forall j :: 0 <= j < |missing| ==> AddsPane(lists[j], lists[j + 1], missing[j])
  }

  lemma InsertedStep(node: Node, ids: seq<Id>, placed: set<Id>)
    ensures ids == [] ==> Missing(ids, placed) == [] && AllInserted(node, ids, placed) == node
    ensures ids != [] && ids[0] in placed ==>
              Missing(ids, placed) == Missing(ids[1..], placed) && AllInserted(node, ids, placed) == AllInserted(node, ids[1..], placed)
    ensures ids != [] && ids[0] !in placed ==>
              Missing(ids, placed) == [ids[0]] + Missing(ids[1..], placed + {ids[0]})
              && AllInserted(node, ids, placed) == AllInserted(Inserted(node, ids[0]), ids[1..], placed + {ids[0]})
  {
    hide Inserted;
  }

  lemma AddsFirst(panes: seq<Pane>, lists: seq<seq<Pane>>, id: Id, missing: seq<Id>)
    requires AddsAll(lists, missing) && AddsPane(panes, lists[0], id)
    ensures AddsAll([panes] + lists, [id] + missing)
  {
    hide AddsPane;
    var all, ids := [panes] + lists, [id] + missing;
    forall j | 0 <= j < |ids|
      ensures AddsPane(all[j], all[j + 1], ids[j])
    {
      if j > 0 { assert all[j] == lists[j - 1] && ids[j] == missing[j - 1]; }
    }
  }

  lemma {:induction false} AllAdded(node: Node, ids: seq<Id>, placed: set<Id>) returns (lists: seq<seq<Pane>>)
    ensures AddsAll(lists, Missing(ids, placed)) && lists != []
    ensures lists[0] == NodePanes(node) && lists[|lists| - 1] == NodePanes(AllInserted(node, ids, placed))
    decreases |ids|
  {
    hide AddsAll, AddsPane, NodePanes, Inserted, AllInserted, Missing;
    InsertedStep(node, ids, placed);
    if ids == [] {
      lists := [NodePanes(node)];
      OneList(NodePanes(node));
    } else if ids[0] in placed {
      lists := AllAdded(node, ids[1..], placed);
    } else {
      var rest := AllAdded(Inserted(node, ids[0]), ids[1..], placed + {ids[0]});
      InsertAddsPane(node, ids[0]);
      AddsFirst(NodePanes(node), rest, ids[0], Missing(ids[1..], placed + {ids[0]}));
      lists := [NodePanes(node)] + rest;
    }
  }

  lemma OneList(panes: seq<Pane>)
    ensures AddsAll([panes], [])
  {
  }

  /**
    The restored tree, pane by pane: what was saved and usable is where it was saved, and each live terminal it
    lacks is added in turn, in the first empty pane or to the right of everything.
  */
  lemma RestoredPanes(saved: Option<Workspace>, ids: seq<Id>) returns (lists: seq<seq<Pane>>)
    ensures AddsAll(lists, Missing(ids, ToSet(Terminals(Repaired(saved, ids))))) && lists != []
    ensures lists[|lists| - 1] == NodePanes(Restored(saved, ids))
    ensures if saved.Some? && saved.value.version == 1 && IntoLayout(saved.value.root, ToSet(ids)).Some?
            then Thinned(lists[0], SavedPanes(saved.value.root, ToSet(ids)))
                 && (WellFormed(saved.value.root) ==> lists[0] == SavedPanes(saved.value.root, ToSet(ids)))
            else lists[0] == [Pane([], None)]
  {
    hide Thinned, AddsAll, WellFormed;
    lists := AllAdded(Repaired(saved, ids), ids, ToSet(Terminals(Repaired(saved, ids))));
    if saved.Some? && saved.value.version == 1 {
      KeptWhereSaved(saved.value.root, ToSet(ids));
      if WellFormed(saved.value.root) { WellFormedStays(saved.value.root, ToSet(ids)); }
    }
  }
}
