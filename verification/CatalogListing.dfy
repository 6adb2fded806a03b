/** What a listing is: the chosen records by position, and those of one position in order of creation. */
module CatalogListing {
  import opened Wrappers
  import opened Catalog
  import opened CatalogProof
  import opened CatalogTheorems

  /** `a` is listed before `b`. */
  predicate Earlier(order: seq<Id>, position: map<Id, nat>, a: Id, b: Id) {
    && a in order && b in order && a in position && b in position
    && (position[a] < position[b] || (position[a] == position[b] && Position(order, a) < Position(order, b)))
  }

  predicate InOrder(ids: seq<Id>, order: seq<Id>, position: map<Id, nat>) {
    forall i, j :: 0 <= i < j < |ids| ==> Earlier(order, position, ids[i], ids[j])
  }

  /** `ids` lists exactly the chosen records, each once. */
  ghost predicate IsListing(ids: seq<Id>, order: seq<Id>, chosen: set<Id>, position: map<Id, nat>) {
    && NoRepeats(ids) && (forall id :: id in ids <==> id in order && id in chosen)
    && (forall id :: id in ids ==> id in position) && InOrder(ids, order, position)
  }

  /** `after` is `before` with `id` taken out. */
  ghost predicate Drops(after: seq<Id>, before: seq<Id>, id: Id) {
    exists i :: 0 <= i < |before| && before[i] == id && after == before[..i] + before[i + 1..]
  }

  // ----- listings -----

  lemma PositionLater(order: seq<Id>, id: Id)
    requires order != [] && id in order[1..] && id != order[0]
    ensures id in order && Position(order, id) == 1 + Position(order[1..], id)
  {
  }

  lemma EarlierLater(ids: seq<Id>, order: seq<Id>, position: map<Id, nat>)
    requires order != [] && NoRepeats(order) && InOrder(ids, order[1..], position)
    ensures InOrder(ids, order, position)
  {
    forall i, j | 0 <= i < j < |ids|
      ensures Earlier(order, position, ids[i], ids[j])
    {
      assert Earlier(order[1..], position, ids[i], ids[j]);
      PositionLater(order, ids[i]);
      PositionLater(order, ids[j]);
    }
  }

  lemma InOrderFirst(first: Id, ids: seq<Id>, order: seq<Id>, position: map<Id, nat>)
    ensures InOrder([first] + ids, order, position)
            <==> InOrder(ids, order, position) && forall id :: id in ids ==> Earlier(order, position, first, id)
  {
    hide Earlier;
    var all := [first] + ids;
    if InOrder(all, order, position) {
      forall id | id in ids
        ensures Earlier(order, position, first, id)
      {
        var j :| 0 <= j < |ids| && ids[j] == id;
        assert Earlier(order, position, all[0], all[j + 1]);
      }
      forall i, j | 0 <= i < j < |ids|
        ensures Earlier(order, position, ids[i], ids[j])
      {
        assert Earlier(order, position, all[i + 1], all[j + 1]);
      }
    }
  }

  lemma {:induction false} InsertInOrder(ids: seq<Id>, order: seq<Id>, first: Id, position: map<Id, nat>)
    requires order != [] && first == order[0] && first in position && InOrder(ids, order, position)
    requires forall id :: id in ids ==> id in order && id in position && id != first
    ensures InOrder(InsertBy(ids, first, position), order, position)
  {
    hide Earlier, InOrder;
    if ids == [] {
      OneInOrder(first, order, position);
    } else {
      var rest := ids[1..];
      assert ids == [ids[0]] + rest;
      InOrderFirst(ids[0], rest, order, position);
      if position[first] <= position[ids[0]] {
        forall id | id in ids
          ensures Earlier(order, position, first, id)
        {
          FirstIsEarlier(order, position, ids[0], id);
        }
        InOrderFirst(first, ids, order, position);
      } else {
        InsertInOrder(rest, order, first, position);
        InsertByMembers(rest, first, position);
        EarlierMeans(order, position, ids[0], first);
        InOrderFirst(ids[0], InsertBy(rest, first, position), order, position);
      }
    }
  }

  lemma OneInOrder(first: Id, order: seq<Id>, position: map<Id, nat>)
    ensures InOrder([first], order, position) && InOrder([], order, position)
  {
  }

  lemma EarlierMeans(order: seq<Id>, position: map<Id, nat>, a: Id, b: Id)
    requires a in order && b in order && a in position && b in position && position[a] < position[b]
    ensures Earlier(order, position, a, b)
  {
  }

  lemma FirstIsEarlier(order: seq<Id>, position: map<Id, nat>, head: Id, id: Id)
    requires order != [] && order[0] in position && head in position && position[order[0]] <= position[head]
    requires id in order && id in position && id != order[0] && (id == head || Earlier(order, position, head, id))
    ensures Earlier(order, position, order[0], id)
  {
  }

  lemma {:induction false} SortByInOrder(order: seq<Id>, chosen: set<Id>, position: map<Id, nat>)
    requires NoRepeats(order) && forall id :: id in order ==> id in position
    ensures InOrder(SortBy(Select(order, chosen), position), order, position)
  {
    hide InOrder, NoRepeats;
    OneInOrder(0, order, position);
    if order != [] {
      assert order == [order[0]] + order[1..];
      Tails(order);
      SortByInOrder(order[1..], chosen, position);
      var rest := SortBy(Select(order[1..], chosen), position);
      EarlierLater(rest, order, position);
      if order[0] in chosen {
        InsertInOrder(rest, order, order[0], position);
        assert ([order[0]] + Select(order[1..], chosen))[1..] == Select(order[1..], chosen);
      } else {
        assert [] + Select(order[1..], chosen) == Select(order[1..], chosen);
      }
    }
  }

  lemma ListingIs(order: seq<Id>, chosen: set<Id>, position: map<Id, nat>)
    requires NoRepeats(order) && forall id :: id in order ==> id in position
    ensures IsListing(SortBy(Select(order, chosen), position), order, chosen, position)
  {
    hide InOrder, NoRepeats;
    SelectNoRepeats(order, chosen);
    SortByRising(Select(order, chosen), position);
    SortByInOrder(order, chosen, position);
  }

  lemma {:induction false} ListedOnce(a: seq<Id>, b: seq<Id>, order: seq<Id>, position: map<Id, nat>)
    requires NoRepeats(a) && NoRepeats(b) && InOrder(a, order, position) && InOrder(b, order, position)
    requires forall id :: id in a <==> id in b
    ensures a == b
  {
    hide InOrder, NoRepeats, Earlier;
    SomeMember(b);
    if a != [] {
      assert a[0] in a;
      assert a == [a[0]] + a[1..] && b == [b[0]] + b[1..];
      assert b[0] in b;
      InOrderFirst(a[0], a[1..], order, position);
      InOrderFirst(b[0], b[1..], order, position);
      Tails(a);
      Tails(b);
      if a[0] != b[0] {
        NotBoth(order, position, a[0], b[0]);
      }
      ListedOnce(a[1..], b[1..], order, position);
    }
  }

  lemma NotBoth(order: seq<Id>, position: map<Id, nat>, a: Id, b: Id)
    ensures !(Earlier(order, position, a, b) && Earlier(order, position, b, a))
  {
  }

  /** There is one listing. */
  lemma ListingUnique(a: seq<Id>, b: seq<Id>, order: seq<Id>, chosen: set<Id>, position: map<Id, nat>)
    requires IsListing(a, order, chosen, position) && IsListing(b, order, chosen, position)
    ensures a == b
  {
    hide InOrder, NoRepeats;
    ListedOnce(a, b, order, position);
  }

  // ----- listings that change -----

  lemma {:induction false} PositionKept(order: seq<Id>, more: seq<Id>, id: Id)
    requires order <= more && id in order
    ensures id in more && Position(more, id) == Position(order, id)
  {
    if order[0] != id {
      assert order == [order[0]] + order[1..];
      PositionKept(order[1..], more[1..], id);
    }
  }

  lemma ListingKept(ids: seq<Id>, order: seq<Id>, chosen: set<Id>, position: map<Id, nat>,
                    more: seq<Id>, others: set<Id>, moved: map<Id, nat>)
    requires IsListing(ids, order, chosen, position) && order <= more
    requires forall id :: id in ids <==> id in more && id in others
    requires forall id :: id in ids ==> id in moved && moved[id] == position[id]
    ensures IsListing(ids, more, others, moved)
  {
    hide NoRepeats;
    forall i, j | 0 <= i < j < |ids|
      ensures Earlier(more, moved, ids[i], ids[j])
    {
      assert Earlier(order, position, ids[i], ids[j]);
      PositionKept(order, more, ids[i]);
      PositionKept(order, more, ids[j]);
    }
  }

  function Dropped(ids: seq<Id>, i: nat): seq<Id>
    requires i < |ids|
  {
    ids[..i] + ids[i + 1..]
  }

  lemma ListingDrops(ids: seq<Id>, i: nat, order: seq<Id>, chosen: set<Id>, position: map<Id, nat>)
    requires IsListing(ids, order, chosen, position) && i < |ids|
    ensures IsListing(Dropped(ids, i), order, chosen - {ids[i]}, position)
  {
    hide Earlier;
    var left := Dropped(ids, i);
    assert forall k :: 0 <= k < |left| ==> left[k] == ids[if k < i then k else k + 1];
    forall id
      ensures id in left <==> id in ids && id != ids[i]
    {
      if id in ids && id != ids[i] {
        var k :| 0 <= k < |ids| && ids[k] == id;
        assert left[if k < i then k else k - 1] == id;
      }
      if id in left {
        var k :| 0 <= k < |left| && left[k] == id;
        assert ids[if k < i then k else k + 1] == id;
      }
    }
  }

  /** Two listings of the same records at the same positions are the same. */
  lemma ListingSame(order: seq<Id>, chosen: set<Id>, position: map<Id, nat>, more: seq<Id>, others: set<Id>, moved: map<Id, nat>)
    requires NoRepeats(order) && NoRepeats(more) && order <= more
    requires (forall id :: id in order ==> id in position) && (forall id :: id in more ==> id in moved)
    requires forall id :: (id in order && id in chosen) <==> (id in more && id in others)
    requires forall id :: id in order && id in chosen ==> moved[id] == position[id]
    ensures SortBy(Select(more, others), moved) == SortBy(Select(order, chosen), position)
  {
    hide IsListing, SortBy, Select, NoRepeats;
    var ids := SortBy(Select(order, chosen), position);
    ListingIs(order, chosen, position);
    ListingIs(more, others, moved);
    ListingMembers(ids, order, chosen, position);
    ListingKept(ids, order, chosen, position, more, others, moved);
    ListingUnique(ids, SortBy(Select(more, others), moved), more, others, moved);
  }

  lemma ListingMembers(ids: seq<Id>, order: seq<Id>, chosen: set<Id>, position: map<Id, nat>)
    requires IsListing(ids, order, chosen, position)
    ensures forall id :: id in ids <==> id in order && id in chosen
    ensures NoRepeats(ids)
  {
  }

  /** Without one record, the listing is what it was with that record taken out. */
  lemma ListingLoses(order: seq<Id>, chosen: set<Id>, position: map<Id, nat>, more: seq<Id>, others: set<Id>, moved: map<Id, nat>,
                     id: Id)
    requires NoRepeats(order) && NoRepeats(more) && order <= more && id in order && id in chosen
    requires (forall x :: x in order ==> x in position) && (forall x :: x in more ==> x in moved)
    requires forall x :: (x in order && x in chosen && x != id) <==> (x in more && x in others)
    requires forall x :: x in order && x in chosen && x != id ==> moved[x] == position[x]
    ensures Drops(SortBy(Select(more, others), moved), SortBy(Select(order, chosen), position), id)
  {
    hide IsListing, SortBy, Select, NoRepeats;
    var ids := SortBy(Select(order, chosen), position);
    ListingIs(order, chosen, position);
    ListingMembers(ids, order, chosen, position);
    var i :| 0 <= i < |ids| && ids[i] == id;
    ListingDrops(ids, i, order, chosen, position);
    ListingMembers(Dropped(ids, i), order, chosen - {id}, position);
    ListingKept(Dropped(ids, i), order, chosen - {id}, position, more, others, moved);
    ListingIs(more, others, moved);
    ListingUnique(Dropped(ids, i), SortBy(Select(more, others), moved), more, others, moved);
  }

  /** With one record more, the listing is what it was once that record is taken out. */
  lemma ListingGains(order: seq<Id>, chosen: set<Id>, position: map<Id, nat>, more: seq<Id>, others: set<Id>, moved: map<Id, nat>,
                     id: Id)
    requires NoRepeats(order) && NoRepeats(more) && order <= more && id in more && id in others
    requires (forall x :: x in order ==> x in position) && (forall x :: x in more ==> x in moved)
    requires forall x :: (x in order && x in chosen) <==> (x in more && x in others && x != id)
    requires forall x :: x in order && x in chosen ==> moved[x] == position[x]
    ensures Drops(SortBy(Select(order, chosen), position), SortBy(Select(more, others), moved), id)
  {
    hide IsListing, SortBy, Select, NoRepeats;
    var ids, all := SortBy(Select(order, chosen), position), SortBy(Select(more, others), moved);
    ListingIs(order, chosen, position);
    ListingMembers(ids, order, chosen, position);
    ListingIs(more, others, moved);
    ListingMembers(all, more, others, moved);
    var i :| 0 <= i < |all| && all[i] == id;
    ListingDrops(all, i, more, others, moved);
    ListingKept(ids, order, chosen, position, more, others - {id}, moved);
    ListingUnique(Dropped(all, i), ids, more, others - {id}, moved);
  }

  // ----- the catalog's lists -----

  function Positions(s: State): (map<Id, nat>, map<Id, nat>, map<Id, nat>) {
    (map x | x in s.sessions :: s.sessions[x].position, map t | t in s.tabs :: s.tabs[t].position,
     map m | m in s.terminals :: s.terminals[m].position)
  }

  /** The sessions are listed by position, then by creation; and so are a session's tabs and a tab's terminals. */
  lemma ListsAre(s: State, session: Id, tab: Id)
    requires OrdersOk(s)
    ensures IsListing(ListSessions(s), s.sessionOrder, OpenSessions(s), Positions(s).0)
    ensures IsListing(ListTabs(s, session), s.tabOrder, OpenTabs(s, session), Positions(s).1)
    ensures IsListing(ListTerminals(s, tab), s.terminalOrder, OpenTerminals(s, tab), Positions(s).2)
  {
    hide IsListing, NoRepeats, SortBy, Select;
    ListingIs(s.sessionOrder, OpenSessions(s), Positions(s).0);
    ListingIs(s.tabOrder, OpenTabs(s, session), Positions(s).1);
    ListingIs(s.terminalOrder, OpenTerminals(s, tab), Positions(s).2);
  }

  lemma SessionsSame(s: State, n: State)
    requires OrdersOk(s) && OrdersOk(n) && s.sessionOrder <= n.sessionOrder && OpenSessions(n) == OpenSessions(s)
    requires forall x :: x in OpenSessions(s) ==> n.sessions[x].position == s.sessions[x].position
    ensures ListSessions(n) == ListSessions(s)
  {
    hide NoRepeats, SortBy, Select;
    ListingSame(s.sessionOrder, OpenSessions(s), Positions(s).0, n.sessionOrder, OpenSessions(n), Positions(n).0);
  }

  lemma TabsSame(s: State, n: State, session: Id)
    requires OrdersOk(s) && OrdersOk(n) && s.tabOrder <= n.tabOrder && OpenTabs(n, session) == OpenTabs(s, session)
    requires forall t :: t in OpenTabs(s, session) ==> n.tabs[t].position == s.tabs[t].position
    ensures ListTabs(n, session) == ListTabs(s, session)
  {
    hide NoRepeats, SortBy, Select;
    ListingSame(s.tabOrder, OpenTabs(s, session), Positions(s).1, n.tabOrder, OpenTabs(n, session), Positions(n).1);
  }

  lemma TerminalsSame(s: State, n: State, tab: Id)
    requires OrdersOk(s) && OrdersOk(n) && s.terminalOrder <= n.terminalOrder && OpenTerminals(n, tab) == OpenTerminals(s, tab)
    requires forall m :: m in OpenTerminals(s, tab) ==> n.terminals[m].position == s.terminals[m].position
    ensures ListTerminals(n, tab) == ListTerminals(s, tab)
  {
    hide NoRepeats, SortBy, Select;
    ListingSame(s.terminalOrder, OpenTerminals(s, tab), Positions(s).2, n.terminalOrder, OpenTerminals(n, tab), Positions(n).2);
  }

  lemma SessionsLose(s: State, n: State, id: Id)
    requires OrdersOk(s) && OrdersOk(n) && s.sessionOrder <= n.sessionOrder
    requires id in OpenSessions(s) && OpenSessions(n) == OpenSessions(s) - {id}
    requires forall x :: x in OpenSessions(n) ==> n.sessions[x].position == s.sessions[x].position
    ensures Drops(ListSessions(n), ListSessions(s), id)
  {
    hide NoRepeats, SortBy, Select, Drops;
    ListingLoses(s.sessionOrder, OpenSessions(s), Positions(s).0, n.sessionOrder, OpenSessions(n), Positions(n).0, id);
  }

  lemma TabsLose(s: State, n: State, session: Id, id: Id)
    requires OrdersOk(s) && OrdersOk(n) && s.tabOrder <= n.tabOrder
    requires id in OpenTabs(s, session) && OpenTabs(n, session) == OpenTabs(s, session) - {id}
    requires forall t :: t in OpenTabs(n, session) ==> n.tabs[t].position == s.tabs[t].position
    ensures Drops(ListTabs(n, session), ListTabs(s, session), id)
  {
    hide NoRepeats, SortBy, Select, Drops;
    ListingLoses(s.tabOrder, OpenTabs(s, session), Positions(s).1, n.tabOrder, OpenTabs(n, session), Positions(n).1, id);
  }

  lemma TerminalsLose(s: State, n: State, tab: Id, id: Id)
    requires OrdersOk(s) && OrdersOk(n) && s.terminalOrder <= n.terminalOrder
    requires id in OpenTerminals(s, tab) && OpenTerminals(n, tab) == OpenTerminals(s, tab) - {id}
    requires forall m :: m in OpenTerminals(n, tab) ==> n.terminals[m].position == s.terminals[m].position
    ensures Drops(ListTerminals(n, tab), ListTerminals(s, tab), id)
  {
    hide NoRepeats, SortBy, Select, Drops;
    ListingLoses(s.terminalOrder, OpenTerminals(s, tab), Positions(s).2, n.terminalOrder, OpenTerminals(n, tab), Positions(n).2, id);
  }

  lemma SessionsGain(s: State, n: State, id: Id)
    requires OrdersOk(s) && OrdersOk(n) && s.sessionOrder <= n.sessionOrder
    requires id !in OpenSessions(s) && OpenSessions(n) == OpenSessions(s) + {id}
    requires forall x :: x in OpenSessions(s) ==> n.sessions[x].position == s.sessions[x].position
    ensures Drops(ListSessions(s), ListSessions(n), id)
  {
    hide NoRepeats, SortBy, Select, Drops;
    ListingGains(s.sessionOrder, OpenSessions(s), Positions(s).0, n.sessionOrder, OpenSessions(n), Positions(n).0, id);
  }

  lemma TabsGain(s: State, n: State, session: Id, id: Id)
    requires OrdersOk(s) && OrdersOk(n) && s.tabOrder <= n.tabOrder
    requires id !in OpenTabs(s, session) && OpenTabs(n, session) == OpenTabs(s, session) + {id}
    requires forall t :: t in OpenTabs(s, session) ==> n.tabs[t].position == s.tabs[t].position
    ensures Drops(ListTabs(s, session), ListTabs(n, session), id)
  {
    hide NoRepeats, SortBy, Select, Drops;
    ListingGains(s.tabOrder, OpenTabs(s, session), Positions(s).1, n.tabOrder, OpenTabs(n, session), Positions(n).1, id);
  }

  lemma TerminalsGain(s: State, n: State, tab: Id, id: Id)
    requires OrdersOk(s) && OrdersOk(n) && s.terminalOrder <= n.terminalOrder
    requires id !in OpenTerminals(s, tab) && OpenTerminals(n, tab) == OpenTerminals(s, tab) + {id}
    requires forall m :: m in OpenTerminals(s, tab) ==> n.terminals[m].position == s.terminals[m].position
    ensures Drops(ListTerminals(s, tab), ListTerminals(n, tab), id)
  {
    hide NoRepeats, SortBy, Select, Drops;
    ListingGains(s.terminalOrder, OpenTerminals(s, tab), Positions(s).2, n.terminalOrder, OpenTerminals(n, tab), Positions(n).2, id);
  }

  /** The first other record of a list is the first once the one is taken out. */
  lemma FirstOtherIs(after: seq<Id>, before: seq<Id>, id: Id)
    requires NoRepeats(before) && Drops(after, before, id)
    ensures FirstOther(before, id) == First(after)
  {
    var i :| 0 <= i < |before| && before[i] == id && after == before[..i] + before[i + 1..];
    assert before == [before[0]] + before[1..];
    if i == 0 {
      if |before| > 1 { assert before[1..] == [before[1]] + before[2..] && before[1] != id; }
    }
  }

  lemma OneListed(ids: seq<Id>, id: Id)
    requires NoRepeats(ids) && forall x :: x in ids <==> x == id
    ensures ids == [id]
  {
    assert ids != [] by { assert id in ids; }
    assert ids == [ids[0]] + ids[1..] && ids[0] in ids;
    Tails(ids);
    SomeMember(ids[1..]);
  }
}
