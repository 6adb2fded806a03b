/** The catalog store: each command edits a copy of the state in place, and the copy replaces the state once it is stored. */
module CatalogStore {
  import opened Wrappers
  import opened Catalog
  import opened CatalogProof
  import opened CatalogTheorems

  class StateStore {
    var current: State

    constructor ()
      ensures current == EMPTY
    {
      current := EMPTY;
    }

    /** `stored` says whether the database accepted the new state; if not, nothing has happened. */
    method Mutate(c: Command, stored: bool) returns (reply: Option<Reply>)
      modifies this
      ensures if stored then current == Step(old(current), c).state && reply == Some(Step(old(current), c).reply)
              else current == old(current) && reply == None
    {
      hide Step;
      var outcome := Edit(current, c);
      if !stored {
        return None;
      }
      current := outcome.state;
      reply := Some(outcome.reply);
    }
  }

  /** The commands that loop over records or edit several in turn are methods; the others set one record's fields. */
  method Edit(s: State, c: Command) returns (o: Outcome)
    ensures o == Step(s, c)
  {
    hide SessionsReordered, TabsReordered, TerminalsReordered, TabClosed, TerminalClosed, TerminalMoved, TerminalCreated, Selected,
         Reconciled, SessionCreated, SessionRenamed, SessionArchived, SessionRestored, TabCreated, TabRenamed, TabLayoutSaved,
         TabSelected, TerminalUpdated, TerminalRenamed;
    match c
    case ReorderSessions(ids) => o := ReorderSessionList(s, ids);
    case ReorderTabs(session, ids) => o := ReorderTabList(s, session, ids);
    case ReorderTerminals(session, tab, ids) => o := ReorderTerminalList(s, session, tab, ids);
    case SelectTerminal(session, terminal) => o := SelectTerminalInState(s, session, terminal);
    case CloseTab(tab, stop) => o := CloseWholeTab(s, tab, stop);
    case CloseTerminal(terminal, stop) => o := CloseOneTerminal(s, terminal, stop);
    case MoveTerminal(terminal, tab) => o := MoveOneTerminal(s, terminal, tab);
    case ReconcileStartup(newEpoch, replayable) => o := DisconnectLive(s, newEpoch, replayable);
    case CreateSession(title) => o := SessionCreated(s, title);
    case RenameSession(session, title) => o := SessionRenamed(s, session, title);
    case ArchiveSession(session) => o := SessionArchived(s, session);
    case RestoreSession(session) => o := SessionRestored(s, session);
    case CreateTab(session, title) => o := TabCreated(s, session, title);
    case RenameTab(tab, title) => o := TabRenamed(s, tab, title);
    case SaveTabLayout(tab, layout, expected) => o := TabLayoutSaved(s, tab, layout, expected);
    case SelectTab(session, tab) => o := TabSelected(s, session, tab);
    case CreateTerminal(session, tab, title) => o := TerminalCreated(s, session, tab, title);
    case UpdateTerminal(terminal, expected, status, title, replayAvailable) =>
      o := TerminalUpdated(s, terminal, expected, status, title, replayAvailable);
    case RenameTerminal(terminal, title) => o := TerminalRenamed(s, terminal, title);
  }

  // ----- checking a requested order -----

  function Insert(ids: seq<Id>, id: Id): seq<Id> {
    if ids == [] then [id] else if id <= ids[0] then [id] + ids else [ids[0]] + Insert(ids[1..], id)
  }

  /** The library's sort, by value. */
  function Sort(ids: seq<Id>): seq<Id> {
    if ids == [] then [] else Insert(Sort(ids[1..]), ids[0])
  }

  /** The library's removal of equal neighbours. */
  function Dedup(ids: seq<Id>): seq<Id> {
    if |ids| < 2 then ids
    else if ids[0] == ids[1] then Dedup(ids[1..])
    else [ids[0]] + Dedup(ids[1..])
  }

  predicate Ascending(ids: seq<Id>) {
    forall i, j :: 0 <= i < j < |ids| ==> ids[i] <= ids[j]
  }

  method AssertPermutation(actual: seq<Id>, expected: seq<Id>) returns (ok: bool)
    ensures ok == IsPermutation(actual, expected)
  {
    var actualSorted := Dedup(Sort(actual));
    var expectedSorted := Sort(expected);
    PermutationExactly(actual, expected);
    ok := |actual| == |expected| && actualSorted == expectedSorted;
  }

  lemma {:induction false} InsertCounts(ids: seq<Id>, id: Id)
    ensures multiset(Insert(ids, id)) == multiset(ids) + multiset{id}
  {
    if ids != [] {
      assert ids == [ids[0]] + ids[1..];
      if id > ids[0] { InsertCounts(ids[1..], id); }
    }
  }

  lemma AscendingFirst(ids: seq<Id>)
    requires ids != []
    ensures Ascending(ids) <==> Ascending(ids[1..]) && forall id :: id in ids[1..] ==> ids[0] <= id
  {
    var rest := ids[1..];
    assert forall i :: 0 <= i < |rest| ==> rest[i] == ids[i + 1];
    if Ascending(rest) && forall id :: id in rest ==> ids[0] <= id {
      assert forall j :: 1 <= j < |ids| ==> ids[j] == rest[j - 1] && rest[j - 1] in rest;
    }
  }

  lemma {:induction false} InsertMembers(ids: seq<Id>, id: Id)
    ensures forall x :: x in Insert(ids, id) <==> x == id || x in ids
  {
    if ids != [] {
      assert ids == [ids[0]] + ids[1..];
      if id > ids[0] { InsertMembers(ids[1..], id); }
    }
  }

  lemma {:induction false} InsertKeeps(ids: seq<Id>, id: Id)
    requires Ascending(ids)
    ensures Ascending(Insert(ids, id))
  {
    hide Ascending;
    AscendingFirst(Insert(ids, id));
    if ids == [] {
      AscendingNone(Insert(ids, id)[1..]);
    } else {
      AscendingFirst(ids);
      assert ids == [ids[0]] + ids[1..];
      if id > ids[0] {
        InsertKeeps(ids[1..], id);
        InsertMembers(ids[1..], id);
        assert Insert(ids, id)[1..] == Insert(ids[1..], id);
      } else {
        assert Insert(ids, id)[1..] == ids;
      }
    }
  }

  lemma AscendingNone(ids: seq<Id>)
    requires ids == []
    ensures Ascending(ids)
  {
  }

  lemma {:induction false} SortKeeps(ids: seq<Id>)
    ensures Ascending(Sort(ids)) && multiset(Sort(ids)) == multiset(ids) && |Sort(ids)| == |ids|
  {
    if ids != [] {
      SortKeeps(ids[1..]);
      InsertKeeps(Sort(ids[1..]), ids[0]);
      InsertCounts(Sort(ids[1..]), ids[0]);
      assert ids == [ids[0]] + ids[1..];
    }
    assert |multiset(Sort(ids))| == |multiset(ids)|;
  }

  /** Removing neighbours shortens the list, unless there are none to remove. */
  lemma {:induction false} DedupKeeps(ids: seq<Id>)
    requires Ascending(ids)
    ensures |Dedup(ids)| <= |ids|
    ensures |Dedup(ids)| == |ids| <==> NoRepeats(ids)
    ensures NoRepeats(ids) ==> Dedup(ids) == ids
  {
    if |ids| >= 2 {
      DedupKeeps(ids[1..]);
      assert ids == [ids[0]] + ids[1..];
      if ids[0] != ids[1] && NoRepeats(ids[1..]) {
        assert forall j :: 1 < j < |ids| ==> ids[1] <= ids[j];
        assert forall i :: 0 <= i < |ids[1..]| ==> ids[1..][i] == ids[i + 1];
      }
      if NoRepeats(ids) {
        assert forall i :: 0 <= i < |ids[1..]| ==> ids[1..][i] == ids[i + 1];
      }
    }
  }

  lemma {:induction false} OneOfEach(ids: seq<Id>)
    ensures NoRepeats(ids) <==> forall id :: id in ids ==> multiset(ids)[id] == 1
  {
    if ids != [] {
      var init, last := ids[..|ids| - 1], ids[|ids| - 1];
      assert ids == init + [last];
      OneOfEach(init);
      if NoRepeats(ids) {
        assert last !in init;
      } else if forall id :: id in ids ==> multiset(ids)[id] == 1 {
        assert multiset(ids)[last] == 1;
        assert last !in multiset(init);
        assert forall id :: id in init ==> multiset(ids)[id] == multiset(init)[id];
      }
    }
  }

  lemma SameHead(a: seq<Id>, b: seq<Id>)
    requires Ascending(a) && Ascending(b) && a != [] && b != [] && a[0] in b && b[0] in a
    ensures a[0] == b[0]
  {
  }

  lemma TailCounts(a: seq<Id>)
    requires a != []
    ensures multiset(a[1..]) == multiset(a) - multiset{a[0]}
  {
    assert a == [a[0]] + a[1..];
  }

  lemma InCounts(a: seq<Id>, b: seq<Id>)
    requires multiset(a) == multiset(b)
    ensures |a| == |b| && (forall id :: id in a <==> id in b)
  {
    assert |multiset(a)| == |multiset(b)|;
    forall id
      ensures id in a <==> id in b
    {
      assert id in a <==> id in multiset(a);
      assert id in b <==> id in multiset(b);
    }
  }

  lemma {:induction false} SortedOnce(a: seq<Id>, b: seq<Id>)
    requires Ascending(a) && Ascending(b) && multiset(a) == multiset(b)
    ensures a == b
  {
    hide Ascending;
    InCounts(a, b);
    if a != [] {
      assert a == [a[0]] + a[1..] && b == [b[0]] + b[1..];
      assert a[0] in a && b[0] in b;
      SameHead(a, b);
      AscendingFirst(a);
      AscendingFirst(b);
      TailCounts(a);
      TailCounts(b);
      SortedOnce(a[1..], b[1..]);
    }
  }

  lemma SameCounts(a: seq<Id>, b: seq<Id>)
    requires IsPermutation(a, b)
    ensures multiset(a) == multiset(b)
  {
    hide NoRepeats;
    OneOfEach(a);
    OneOfEach(b);
    SameMembers(a, b);
    forall id
      ensures multiset(a)[id] == multiset(b)[id]
    {
      assert id in a <==> id in multiset(a);
      assert id in b <==> id in multiset(b);
    }
  }

  lemma CountsPermute(a: seq<Id>, b: seq<Id>)
    requires multiset(a) == multiset(b)
    ensures NoRepeats(a) <==> NoRepeats(b)
    ensures SetOf(a) == SetOf(b)
  {
    hide NoRepeats;
    OneOfEach(a);
    OneOfEach(b);
    InCounts(a, b);
  }

  /** Comparing lengths, and both lists sorted with repeats removed from the request alone, accepts exactly the permutations. */
  lemma PermutationExactly(ids: seq<Id>, current: seq<Id>)
    ensures |ids| == |current| && Dedup(Sort(ids)) == Sort(current) <==> IsPermutation(ids, current)
  {
    hide Sort, Dedup, IsPermutation, NoRepeats, Ascending;
    var a, b := Sort(ids), Sort(current);
    SortKeeps(ids);
    SortKeeps(current);
    DedupKeeps(a);
    CountsPermute(ids, a);
    CountsPermute(current, b);
    if |ids| == |current| && Dedup(a) == b {
      assert |Dedup(a)| == |a|;
      CountsPermute(ids, current);
      PermutationMeans(ids, current);
    } else if IsPermutation(ids, current) {
      PermutationMeans(ids, current);
      SameCounts(ids, current);
      SortedOnce(a, b);
    }
  }

  lemma PermutationMeans(ids: seq<Id>, current: seq<Id>)
    ensures IsPermutation(ids, current) <==> NoRepeats(ids) && NoRepeats(current) && SetOf(ids) == SetOf(current)
  {
  }

  lemma Members(ids: seq<Id>, wanted: seq<Id>)
    requires IsPermutation(ids, wanted)
    ensures NoRepeats(ids) && forall id :: id in ids <==> id in wanted
  {
    SameMembers(ids, wanted);
  }

  lemma NextPosition(ids: seq<Id>, position: nat)
    requires NoRepeats(ids) && position < |ids|
    ensures Position(ids, ids[position]) == position && ids[position] !in ids[..position]
    ensures ids[..position + 1] == ids[..position] + [ids[position]]
    ensures forall id :: id in ids[..position] ==> id in ids
  {
    PositionIs(ids, position);
  }

  /** Positions `0, 1, ...` in the order asked, one record at a time. */
  method PositionSessions(before: map<Id, Session>, ids: seq<Id>) returns (after: map<Id, Session>)
    requires NoRepeats(ids) && forall id :: id in ids ==> id in before
    ensures after == SessionsAt(before, ids)
  {
    hide Position;
    after := before;
    for position := 0 to |ids|
      invariant after == map id | id in before ::
                  if id in ids[..position] then TouchedSession(before[id].(position := Position(ids, id))) else before[id]
    {
      var id := ids[position];
      assert id in ids;
      NextPosition(ids, position);
      after := after[id := TouchedSession(after[id].(position := position))];
    }
    assert ids[..|ids|] == ids;
  }

  method PositionTabs(before: map<Id, Tab>, ids: seq<Id>) returns (after: map<Id, Tab>)
    requires NoRepeats(ids) && forall id :: id in ids ==> id in before
    ensures after == TabsAt(before, ids)
  {
    hide Position;
    after := before;
    for position := 0 to |ids|
      invariant after == map id | id in before ::
                  if id in ids[..position] then TouchedTab(before[id].(position := Position(ids, id))) else before[id]
    {
      var id := ids[position];
      assert id in ids;
      NextPosition(ids, position);
      after := after[id := TouchedTab(after[id].(position := position))];
    }
    assert ids[..|ids|] == ids;
  }

  method PositionTerminals(before: map<Id, Terminal>, ids: seq<Id>) returns (after: map<Id, Terminal>)
    requires NoRepeats(ids) && forall id :: id in ids ==> id in before
    ensures after == TerminalsAt(before, ids)
  {
    hide Position;
    after := before;
    for position := 0 to |ids|
      invariant after == map id | id in before ::
                  if id in ids[..position] then TouchedTerminal(before[id].(position := Position(ids, id))) else before[id]
    {
      var id := ids[position];
      assert id in ids;
      NextPosition(ids, position);
      after := after[id := TouchedTerminal(after[id].(position := position))];
    }
    assert ids[..|ids|] == ids;
  }

  method ReorderSessionList(s: State, ids: seq<Id>) returns (o: Outcome)
    ensures o == SessionsReordered(s, ids)
  {
    hide Select, ListSessions, IsPermutation, SessionsAt;
    var wanted := Select(s.sessionOrder, OpenSessions(s));
    var ok := AssertPermutation(ids, wanted);
    if !ok {
      return Refuse(s, Invalid);
    }
    Members(ids, wanted);
    assert forall id :: id in wanted ==> id in s.sessions;
    var sessions := PositionSessions(s.sessions, ids);
    var next := s.(sessions := sessions);
    o := Outcome(next, Ordered(ListSessions(next)));
  }

  method ReorderTabList(s: State, session: Id, ids: seq<Id>) returns (o: Outcome)
    ensures o == TabsReordered(s, session, ids)
  {
    hide ListTabs, IsPermutation, TabsAt;
    var wanted := ListTabs(s, session);
    var ok := AssertPermutation(ids, wanted);
    if !ok {
      return Refuse(s, Invalid);
    }
    Members(ids, wanted);
    ListTabsOpen(s, session);
    var tabs := PositionTabs(s.tabs, ids);
    var next := s.(tabs := tabs);
    o := Outcome(next, Ordered(ListTabs(next, session)));
  }

  method ReorderTerminalList(s: State, session: Id, tab: Option<Id>, ids: seq<Id>) returns (o: Outcome)
    ensures o == TerminalsReordered(s, session, tab, ids)
  {
    hide ListTerminals, IsPermutation, ChosenTab, TerminalsAt;
    var chosen := ChosenTab(s, session, tab);
    if chosen.None? {
      return Refuse(s, NotFound);
    }
    if !OpenTabOf(s, chosen.value, session) {
      return Refuse(s, Invalid);
    }
    var wanted := ListTerminals(s, chosen.value);
    var ok := AssertPermutation(ids, wanted);
    if !ok {
      return Refuse(s, Invalid);
    }
    Members(ids, wanted);
    ListTerminalsOpen(s, chosen.value);
    var terminals := PositionTerminals(s.terminals, ids);
    var next := s.(terminals := terminals);
    o := Outcome(next, Ordered(ListTerminals(next, chosen.value)));
  }

  method SelectTerminalInState(s: State, session: Id, terminal: Option<Id>) returns (o: Outcome)
    ensures o == Selected(s, session, terminal)
  {
    var next := s;
    var tab: Option<Id> := None;
    if terminal.Some? {
      if terminal.value !in s.terminals || s.terminals[terminal.value].session != session
         || s.terminals[terminal.value].archived || s.terminals[terminal.value].tab.None? {
        return Refuse(s, Invalid);
      }
      tab := s.terminals[terminal.value].tab;
      if tab.value !in next.tabs {
        return Refuse(s, NotFound);
      }
      next := next.(tabs := next.tabs[tab.value := TouchedTab(next.tabs[tab.value].(activeTerminal := terminal))]);
    }
    if session !in next.sessions {
      return Refuse(s, NotFound);
    }
    var record := next.sessions[session];
    if tab.Some? {
      record := record.(activeTab := tab);
    }
    record := TouchedSession(record.(activeTerminal := terminal));
    next := next.(sessions := next.sessions[session := record]);
    o := Outcome(next, Changed(session));
  }

  method ArchiveTerminals(terminals: map<Id, Terminal>, chosen: set<Id>, stop: bool) returns (next: map<Id, Terminal>)
    requires chosen <= terminals.Keys
    ensures next == map m | m in terminals :: if m in chosen then ArchivedTerminal(terminals[m], stop) else terminals[m]
  {
    next := terminals;
    var left := chosen;
    while left != {}
      invariant left <= chosen && next.Keys == terminals.Keys
      invariant forall m :: m in terminals ==>
                  next[m] == if m in chosen && m !in left then ArchivedTerminal(terminals[m], stop) else terminals[m]
      decreases |left|
    {
      var m :| m in left;
      next := next[m := ArchivedTerminal(next[m], stop)];
      left := left - {m};
    }
  }

  method CloseWholeTab(s: State, id: Id, stop: bool) returns (o: Outcome)
    ensures o == TabClosed(s, id, stop)
  {
    hide ListTabs, ArchivedTerminal;
    if id !in s.tabs {
      return Refuse(s, NotFound);
    }
    var session := s.tabs[id].session;
    var terminals := ArchiveTerminals(s.terminals, OpenTerminals(s, id), stop);
    assert terminals == Emptied(s, id, stop).terminals;
    var next := s.(terminals := terminals);
    if !next.tabs[id].archived {
      next := next.(tabs := next.tabs[id := TouchedTab(next.tabs[id].(archived := true))]);
    }
    if OpenTabs(next, session) == {} {
      next := AddTab(next, next.nextId, NewTab(session, "Window 1", 0)).(nextId := next.nextId + 1);
    }
    if session !in next.sessions {
      return Refuse(s, NotFound);
    }
    var following := First(ListTabs(next, session));
    var record := next.sessions[session];
    if record.activeTab == Some(id) {
      record := record.(activeTab := following);
      record := record.(activeTerminal := if following.Some? && following.value in next.tabs
                                          then next.tabs[following.value].activeTerminal else None);
      next := next.(sessions := next.sessions[session := TouchedSession(record)]);
    }
    o := Outcome(next, Changed(id));
  }

  method CloseOneTerminal(s: State, id: Id, stop: bool) returns (o: Outcome)
    ensures o == TerminalClosed(s, id, stop)
  {
    hide ListTerminals, ArchivedTerminal, FirstOther;
    if id !in s.terminals {
      return Refuse(s, NotFound);
    }
    var current := s.terminals[id];
    if current.archived {
      return if current.session in s.sessions then Outcome(s, Changed(id)) else Refuse(s, NotFound);
    }
    var following: Option<Id> := None;
    if current.tab.Some? {
      following := FirstOther(ListTerminals(s, current.tab.value), id);
    }
    var next := s.(terminals := s.terminals[id := ArchivedTerminal(current, stop)]);
    if current.tab.Some? {
      if current.tab.value !in next.tabs {
        return Refuse(s, NotFound);
      }
      var tab := next.tabs[current.tab.value];
      if tab.activeTerminal == Some(id) {
        next := next.(tabs := next.tabs[current.tab.value := TouchedTab(tab.(activeTerminal := following))]);
      }
    }
    if current.session !in next.sessions {
      return Refuse(s, NotFound);
    }
    var session := next.sessions[current.session];
    if session.activeTerminal == Some(id) {
      next := next.(sessions := next.sessions[current.session := TouchedSession(session.(activeTerminal := following))]);
    }
    o := Outcome(next, Changed(id));
  }

  method MoveOneTerminal(s: State, id: Id, target: Id) returns (o: Outcome)
    ensures o == TerminalMoved(s, id, target)
  {
    hide ListTerminals, Select, FirstOther, Selected;
    if id !in s.terminals || s.terminals[id].archived {
      return Refuse(s, NotFound);
    }
    var current := s.terminals[id];
    if !OpenTabOf(s, target, current.session) {
      return Refuse(s, Invalid);
    }
    if current.tab == Some(target) {
      return Outcome(s, Changed(id));
    }
    var position := |Select(s.terminalOrder, OpenTerminals(s, target))|;
    var next := s.(terminals := s.terminals[id := TouchedTerminal(current.(tab := Some(target), position := position))]);
    if current.tab.Some? {
      if current.tab.value !in next.tabs {
        return Refuse(s, NotFound);
      }
      var source := next.tabs[current.tab.value];
      if source.activeTerminal == Some(id) {
        source := source.(activeTerminal := FirstOther(ListTerminals(s, current.tab.value), id));
      }
      next := next.(tabs := next.tabs[current.tab.value := TouchedTab(source)]);
    }
    var selected := SelectTerminalInState(next, current.session, Some(id));
    if selected.reply.Refused? {
      return Refuse(s, selected.reply.error);
    }
    o := Outcome(selected.state, Changed(id));
  }

  method DisconnectLive(s: State, newEpoch: string, replayable: set<Id>) returns (o: Outcome)
    ensures o == Reconciled(s, newEpoch, replayable)
  {
    hide Select;
    if s.epoch == Some(newEpoch) {
      return Outcome(s, Ordered([]));
    }
    var live := set m | m in s.terminals && IsLive(s.terminals[m].status);
    var terminals, left := s.terminals, live;
    while left != {}
      invariant left <= live && terminals.Keys == s.terminals.Keys
      invariant forall m :: m in s.terminals ==>
                  terminals[m] ==
                  if m in live && m !in left
                  then TouchedTerminal(s.terminals[m].(status := Disconnected, replayAvailable := m in replayable))
                  else s.terminals[m]
      decreases |left|
    {
      var m :| m in left;
      terminals := terminals[m := TouchedTerminal(terminals[m].(status := Disconnected, replayAvailable := m in replayable))];
      left := left - {m};
    }
    o := Outcome(s.(terminals := terminals, epoch := Some(newEpoch)), Ordered(Select(s.terminalOrder, live)));
  }
}
