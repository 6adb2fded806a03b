/** Revisions and order in the catalog: fenced updates, and reorders that list as asked. */
module CatalogTheorems {
  import opened Wrappers
  import opened Catalog
  import opened CatalogProof

  // ----- revisions -----

  /** No record goes away, and one that is not exactly as it was has a larger revision. */
  ghost predicate Advances(s: State, next: State) {
    && (forall x :: x in s.sessions ==>
          x in next.sessions && (next.sessions[x] == s.sessions[x] || next.sessions[x].revision > s.sessions[x].revision))
    && (forall t :: t in s.tabs ==>
          t in next.tabs && (next.tabs[t] == s.tabs[t] || next.tabs[t].revision > s.tabs[t].revision))
    && (forall m :: m in s.terminals ==>
          m in next.terminals && (next.terminals[m] == s.terminals[m] || next.terminals[m].revision > s.terminals[m].revision))
  }

  lemma AdvancesTrans(a: State, b: State, c: State)
    requires Advances(a, b) && Advances(b, c)
    ensures Advances(a, c)
  {
  }

  lemma SelectedAdvances(s: State, session: Id, terminal: Option<Id>)
    ensures Advances(s, Selected(s, session, terminal).state)
  {
  }

  lemma WithSessionAdvances(s: State, title: string, position: nat)
    requires OrdersOk(s)
    ensures Advances(s, WithSession(s, title, position))
  {
  }

  lemma SessionCommandsAdvance(s: State, c: Command)
    requires OrdersOk(s)
    requires c.CreateSession? || c.RenameSession? || c.ReorderSessions? || c.ArchiveSession? || c.RestoreSession?
    ensures Advances(s, Step(s, c).state)
  {
    hide SortBy, Select, IsPermutation, Position, WithSession, OrdersOk;
    match c
    case CreateSession(title) =>
      WithSessionAdvances(s, NonEmpty(title, "New session"), |Select(s.sessionOrder, OpenSessions(s))|);
    case ArchiveSession(id) =>
      if id in s.sessions {
        var next := if s.sessions[id].archived then s
                    else s.(sessions := s.sessions[id := TouchedSession(s.sessions[id].(archived := true))]);
        SameOrders(s, next);
        WithSessionAdvances(next, "Session 1", 0);
        AdvancesTrans(s, next, EnsureVisible(next));
      }
    case _ =>
  }

  lemma CreateTabAdvances(s: State, session: Id, title: string)
    requires s.nextId !in s.tabs
    ensures Advances(s, TabCreated(s, session, title).state)
  {
    hide Select;
  }

  lemma RenameTabAdvances(s: State, tab: Id, title: string)
    ensures Advances(s, TabRenamed(s, tab, title).state)
  {
  }

  lemma SaveLayoutAdvances(s: State, tab: Id, layout: string, expected: Option<nat>)
    ensures Advances(s, TabLayoutSaved(s, tab, layout, expected).state)
  {
  }

  lemma ReorderTabsAdvance(s: State, session: Id, ids: seq<Id>)
    ensures Advances(s, TabsReordered(s, session, ids).state)
  {
    hide ListTabs, IsPermutation, Position;
  }

  lemma SelectTabAdvances(s: State, session: Id, tab: Option<Id>)
    ensures Advances(s, TabSelected(s, session, tab).state)
  {
  }

  lemma CloseTabAdvances(s: State, id: Id, stop: bool)
    requires OrdersOk(s) && Placed(s)
    ensures Advances(s, TabClosed(s, id, stop).state)
  {
    if id in s.tabs {
      FreshTab(s, s.nextId);
      hide OrdersOk, Placed, ListTabs, Advances, WithoutTab, WithReplacement, TabClosed, First;
      CloseTabShape(s, id, stop);
      var session, closed := s.tabs[id].session, WithoutTab(s, id, stop);
      var kept := WithReplacement(closed, session);
      WithoutTabAdvances(s, id, stop);
      ReplacementAdvances(closed, session);
      RefocusAdvances(kept, TabClosed(s, id, stop).state, session);
      AdvancesTrans(s, closed, kept);
      AdvancesTrans(s, kept, TabClosed(s, id, stop).state);
    }
  }

  lemma WithoutTabAdvances(s: State, id: Id, stop: bool)
    requires id in s.tabs
    ensures Advances(s, WithoutTab(s, id, stop))
    ensures WithoutTab(s, id, stop).sessions == s.sessions && WithoutTab(s, id, stop).nextId == s.nextId
  {
  }

  lemma ReplacementAdvances(closed: State, session: Id)
    requires closed.nextId !in closed.tabs
    ensures Advances(closed, WithReplacement(closed, session)) && WithReplacement(closed, session).sessions == closed.sessions
  {
  }

  lemma RefocusAdvances(kept: State, next: State, session: Id)
    requires session in kept.sessions
    requires next == kept || (exists record: Session ::
               record.revision == kept.sessions[session].revision + 1 && next == kept.(sessions := kept.sessions[session := record]))
    ensures Advances(kept, next)
  {
  }

  lemma UpdateAdvances(s: State, id: Id, expected: Option<nat>, status: Status, title: string, replayAvailable: bool)
    ensures Advances(s, TerminalUpdated(s, id, expected, status, title, replayAvailable).state)
  {
  }

  lemma RenameTerminalAdvances(s: State, id: Id, title: string)
    ensures Advances(s, TerminalRenamed(s, id, title).state)
  {
  }

  lemma ReorderTerminalsAdvance(s: State, session: Id, tab: Option<Id>, ids: seq<Id>)
    ensures Advances(s, TerminalsReordered(s, session, tab, ids).state)
  {
    hide ListTerminals, IsPermutation, Position, ChosenTab;
  }

  lemma ReconcileAdvances(s: State, newEpoch: string, replayable: set<Id>)
    ensures Advances(s, Reconciled(s, newEpoch, replayable).state)
  {
    hide Select;
  }

  lemma CloseTerminalAdvances(s: State, id: Id, stop: bool)
    ensures Advances(s, TerminalClosed(s, id, stop).state)
  {
    hide ListTerminals, FirstOther;
  }

  lemma CreateTerminalAdvances(s: State, session: Id, tab: Option<Id>, title: string)
    requires OrdersOk(s)
    ensures Advances(s, TerminalCreated(s, session, tab, title).state)
  {
    FreshTab(s, s.nextId);
    hide Select, OrdersOk, ChosenTab;
  }

  /** A move touches the terminal, the tab it leaves, the tab it enters and the session once each. */
  lemma MoveAdvances(s: State, id: Id, target: Id)
    requires Placed(s)
    ensures Advances(s, TerminalMoved(s, id, target).state)
  {
    hide ListTerminals, Select, FirstOther, TerminalMoved, Placed;
    if TerminalMoved(s, id, target).state != s { MoveResult(s, id, target); }
  }

  lemma StepAdvances(s: State, c: Command)
    requires Inv(s)
    ensures Advances(s, Step(s, c).state)
  {
    InvParts(s);
    FreshTab(s, s.nextId);
    hide Inv, Placed, OrdersOk, Advances, SessionCreated, SessionArchived, TabCreated, TabSelected, TabClosed, TerminalCreated,
         Selected, TerminalMoved, TerminalClosed, SessionRenamed, SessionsReordered, SessionRestored, TabRenamed, TabLayoutSaved,
         TabsReordered, TerminalUpdated, TerminalRenamed, TerminalsReordered, Reconciled;
    match c
    case CreateSession(_) => SessionCommandsAdvance(s, c);
    case RenameSession(_, _) => SessionCommandsAdvance(s, c);
    case ReorderSessions(_) => SessionCommandsAdvance(s, c);
    case ArchiveSession(_) => SessionCommandsAdvance(s, c);
    case RestoreSession(_) => SessionCommandsAdvance(s, c);
    case CreateTab(session, title) => CreateTabAdvances(s, session, title);
    case RenameTab(tab, title) => RenameTabAdvances(s, tab, title);
    case SaveTabLayout(tab, layout, expected) => SaveLayoutAdvances(s, tab, layout, expected);
    case ReorderTabs(session, ids) => ReorderTabsAdvance(s, session, ids);
    case SelectTab(session, tab) => SelectTabAdvances(s, session, tab);
    case CloseTab(tab, stop) => CloseTabAdvances(s, tab, stop);
    case CreateTerminal(session, tab, title) => CreateTerminalAdvances(s, session, tab, title);
    case MoveTerminal(terminal, tab) => MoveAdvances(s, terminal, tab);
    case UpdateTerminal(terminal, expected, status, title, replayAvailable) =>
      UpdateAdvances(s, terminal, expected, status, title, replayAvailable);
    case RenameTerminal(terminal, title) => RenameTerminalAdvances(s, terminal, title);
    case SelectTerminal(session, terminal) => SelectedAdvances(s, session, terminal);
    case ReorderTerminals(session, tab, ids) => ReorderTerminalsAdvance(s, session, tab, ids);
    case CloseTerminal(terminal, stop) => CloseTerminalAdvances(s, terminal, stop);
    case ReconcileStartup(newEpoch, replayable) => ReconcileAdvances(s, newEpoch, replayable);
  }

  /** Between any two states of a run, any record that differs has a strictly larger revision. */
  lemma {:induction false} RunAdvances(commands: seq<Command>, n: nat)
    requires n <= |commands|
    ensures Advances(Run(commands[..n]), Run(commands))
    decreases |commands|
  {
    hide Step, Advances, Inv;
    if n == |commands| {
      assert commands[..n] == commands;
      AdvancesSelf(Run(commands));
    } else {
      var init := commands[..|commands| - 1];
      assert init[..n] == commands[..n];
      RunAdvances(init, n);
      CatalogProof.RunKeeps(init);
      StepAdvances(Run(init), commands[|commands| - 1]);
      AdvancesTrans(Run(commands[..n]), Run(init), Run(commands));
    }
  }

  lemma AdvancesSelf(s: State)
    ensures Advances(s, s)
  {
  }

  /** What the command at `i` of a run answered. */
  function ReplyAt(commands: seq<Command>, i: nat): Reply
    requires i < |commands|
  {
    Step(Run(commands[..i]), commands[i]).reply
  }

  /** Of two updates of one terminal fenced by the same expected revision, at most one succeeds. */
  lemma FencedUpdatesOnce(commands: seq<Command>, i: nat, j: nat)
    requires i < j < |commands| && commands[i].UpdateTerminal? && commands[j].UpdateTerminal?
    requires commands[i].terminal == commands[j].terminal && commands[i].expected.Some? && commands[i].expected == commands[j].expected
    requires ReplyAt(commands, i).Changed?
    ensures ReplyAt(commands, j) == Refused(Conflict)
  {
    hide Run;
    var m, before := commands[i].terminal, Run(commands[..i]);
    assert commands[..i + 1][..i] == commands[..i];
    RunStep(commands[..i + 1]);
    assert commands[..j][..i + 1] == commands[..i + 1];
    RunAdvances(commands[..j], i + 1);
    assert Run(commands[..i + 1]).terminals[m].revision == before.terminals[m].revision + 1;
  }

  /** And the same for two saves of one tab's layout. */
  lemma FencedLayoutsOnce(commands: seq<Command>, i: nat, j: nat)
    requires i < j < |commands| && commands[i].SaveTabLayout? && commands[j].SaveTabLayout?
    requires commands[i].tab == commands[j].tab && commands[i].expected.Some? && commands[i].expected == commands[j].expected
    requires ReplyAt(commands, i).Changed?
    ensures ReplyAt(commands, j).Refused?
  {
    hide Run;
    var t, before := commands[i].tab, Run(commands[..i]);
    assert commands[..i + 1][..i] == commands[..i];
    RunStep(commands[..i + 1]);
    assert commands[..j][..i + 1] == commands[..i + 1];
    RunAdvances(commands[..j], i + 1);
    assert Run(commands[..i + 1]).tabs[t].revision == before.tabs[t].revision + 1;
  }

  lemma RunStep(commands: seq<Command>)
    requires commands != []
    ensures Run(commands) == Step(Run(commands[..|commands| - 1]), commands[|commands| - 1]).state
  {
    hide Step;
  }

  // ----- order -----

  ghost predicate Rising(ids: seq<Id>, position: map<Id, nat>)
    requires forall i :: i in ids ==> i in position
  {
    forall i, j :: 0 <= i < j < |ids| ==> position[ids[i]] <= position[ids[j]]
  }

  lemma {:induction false} InsertByRising(ids: seq<Id>, id: Id, position: map<Id, nat>)
    requires id in position && forall i :: i in ids ==> i in position
    requires Rising(ids, position) && NoRepeats(ids) && id !in ids
    ensures (forall i :: i in InsertBy(ids, id, position) ==> i in position)
    ensures Rising(InsertBy(ids, id, position), position) && NoRepeats(InsertBy(ids, id, position))
  {
    InsertByMembers(ids, id, position);
    if ids != [] && position[id] > position[ids[0]] {
      assert ids == [ids[0]] + ids[1..];
      InsertByRising(ids[1..], id, position);
      InsertByMembers(ids[1..], id, position);
      ConsRising(ids[0], InsertBy(ids[1..], id, position), position);
    } else if ids != [] {
      ConsRising(id, ids, position);
    }
  }

  lemma ConsRising(head: Id, rest: seq<Id>, position: map<Id, nat>)
    requires head in position && (forall i :: i in rest ==> i in position && position[head] <= position[i] && i != head)
    requires Rising(rest, position) && NoRepeats(rest)
    ensures (forall i :: i in [head] + rest ==> i in position)
    ensures Rising([head] + rest, position) && NoRepeats([head] + rest)
  {
    var all := [head] + rest;
    forall i, j | 0 <= i < j < |all|
      ensures position[all[i]] <= position[all[j]] && all[i] != all[j]
    {
      assert all[j] == rest[j - 1] && rest[j - 1] in rest;
      if i > 0 { assert all[i] == rest[i - 1]; }
    }
  }

  lemma {:induction false} SortByRising(ids: seq<Id>, position: map<Id, nat>)
    requires (forall i :: i in ids ==> i in position) && NoRepeats(ids)
    ensures Rising(SortBy(ids, position), position) && NoRepeats(SortBy(ids, position))
  {
    if ids != [] {
      assert ids == [ids[0]] + ids[1..];
      SortByRising(ids[1..], position);
      assert ids[0] !in ids[1..];
      InsertByRising(SortBy(ids[1..], position), ids[0], position);
    }
  }

  lemma SameHead(a: seq<Id>, b: seq<Id>, position: map<Id, nat>)
    requires a != [] && (forall i :: i in a ==> i in position) && (forall i :: i in a <==> i in b)
    requires Rising(a, position) && Rising(b, position)
    requires forall i, j :: i in a && j in a && position[i] == position[j] ==> i == j
    ensures b != [] && a[0] == b[0]
  {
    assert a[0] in a && a[0] in b && b[0] in b && b[0] in a;
    var i :| 0 <= i < |b| && b[i] == a[0];
    var j :| 0 <= j < |a| && a[j] == b[0];
    assert position[b[0]] <= position[b[i]] && position[a[0]] <= position[a[j]];
  }

  /** Two lists of the same things, each in order of distinct positions, are the same list. */
  lemma {:induction false} SameOrder(a: seq<Id>, b: seq<Id>, position: map<Id, nat>)
    requires (forall i :: i in a ==> i in position) && (forall i :: i in a <==> i in b)
    requires Rising(a, position) && Rising(b, position) && NoRepeats(a) && NoRepeats(b)
    requires forall i, j :: i in a && j in a && position[i] == position[j] ==> i == j
    ensures a == b
  {
    hide Rising, NoRepeats;
    if a == [] {
      SomeMember(b);
    } else {
      SameHead(a, b, position);
      Tails(a);
      Tails(b);
      TailRises(a, position);
      TailRises(b, position);
      SameOrder(a[1..], b[1..], position);
    }
  }

  lemma TailRises(ids: seq<Id>, position: map<Id, nat>)
    requires ids != [] && (forall i :: i in ids ==> i in position) && Rising(ids, position)
    ensures Rising(ids[1..], position)
  {
  }

  lemma SomeMember(ids: seq<Id>)
    ensures ids == [] || exists i :: i in ids
  {
    if ids != [] { assert ids[0] in ids; }
  }

  lemma Tails(ids: seq<Id>)
    requires NoRepeats(ids) && ids != []
    ensures NoRepeats(ids[1..]) && forall i :: i in ids[1..] <==> i in ids && i != ids[0]
  {
    assert ids == [ids[0]] + ids[1..];
  }

  lemma {:induction false} SelectNoRepeats(ids: seq<Id>, chosen: set<Id>)
    requires NoRepeats(ids)
    ensures NoRepeats(Select(ids, chosen))
  {
    if ids != [] {
      Tails(ids);
      SelectNoRepeats(ids[1..], chosen);
      var rest := Select(ids[1..], chosen);
      assert ids[0] !in rest;
    }
  }

  /** Sorting things whose positions are their places in `ids` gives `ids`. */
  lemma SortsAsAsked(selected: seq<Id>, ids: seq<Id>, position: map<Id, nat>)
    requires NoRepeats(selected) && NoRepeats(ids) && (forall i :: i in selected <==> i in ids)
    requires forall i :: i in ids ==> i in position && position[i] == Position(ids, i)
    ensures SortBy(selected, position) == ids
  {
    hide SortBy, Position;
    SortByRising(selected, position);
    forall i | 0 <= i < |ids|
      ensures position[ids[i]] == i
    {
      assert ids[i] in ids;
      PositionIs(ids, i);
    }
    forall a, b | a in ids && b in ids && position[a] == position[b]
      ensures a == b
    {
      PositionOf(ids, a);
      PositionOf(ids, b);
    }
    SameOrder(SortBy(selected, position), ids, position);
  }

  lemma PositionOf(ids: seq<Id>, id: Id)
    requires id in ids
    ensures Position(ids, id) < |ids| && ids[Position(ids, id)] == id
  {
  }

  lemma PositionIs(ids: seq<Id>, i: nat)
    requires NoRepeats(ids) && i < |ids|
    ensures Position(ids, ids[i]) == i
  {
    hide Position;
    PositionOf(ids, ids[i]);
  }

  /** An accepted reorder of the sessions lists them exactly as asked. */
  lemma SessionsListAsAsked(s: State, ids: seq<Id>)
    requires Inv(s) && !Step(s, ReorderSessions(ids)).reply.Refused?
    ensures Step(s, ReorderSessions(ids)).reply == Ordered(ids)
    ensures ListSessions(Step(s, ReorderSessions(ids)).state) == ids
  {
    hide SortBy, Position, Placed;
    var next := Step(s, ReorderSessions(ids)).state;
    assert OpenSessions(next) == OpenSessions(s);
    var selected := Select(s.sessionOrder, OpenSessions(s));
    SelectNoRepeats(s.sessionOrder, OpenSessions(s));
    SameMembers(ids, selected);
    SortsAsAsked(selected, ids, map id | id in next.sessions :: next.sessions[id].position);
  }

  lemma SameMembers(a: seq<Id>, b: seq<Id>)
    requires SetOf(a) == SetOf(b)
    ensures forall i :: i in a <==> i in b
  {
    forall i
      ensures i in a <==> i in b
    {
      assert i in SetOf(a) <==> i in SetOf(b);
    }
  }

  /** And of a session's tabs. */
  lemma TabsListAsAsked(s: State, session: Id, ids: seq<Id>)
    requires Inv(s) && !Step(s, ReorderTabs(session, ids)).reply.Refused?
    ensures Step(s, ReorderTabs(session, ids)).reply == Ordered(ids)
    ensures ListTabs(Step(s, ReorderTabs(session, ids)).state, session) == ids
  {
    hide SortBy, Position, Placed;
    var next := Step(s, ReorderTabs(session, ids)).state;
    assert OpenTabs(next, session) == OpenTabs(s, session);
    var selected := Select(s.tabOrder, OpenTabs(s, session));
    SelectNoRepeats(s.tabOrder, OpenTabs(s, session));
    SameMembers(ids, ListTabs(s, session));
    SortsAsAsked(selected, ids, map id | id in next.tabs :: next.tabs[id].position);
  }

  /** And of a tab's terminals. */
  lemma TerminalsListAsAsked(s: State, session: Id, tab: Option<Id>, ids: seq<Id>)
    requires Inv(s) && !Step(s, ReorderTerminals(session, tab, ids)).reply.Refused?
    ensures Step(s, ReorderTerminals(session, tab, ids)).reply == Ordered(ids)
    ensures ListTerminals(Step(s, ReorderTerminals(session, tab, ids)).state, ChosenTab(s, session, tab).value) == ids
  {
    hide SortBy, Position, Placed;
    var next, chosen := Step(s, ReorderTerminals(session, tab, ids)).state, ChosenTab(s, session, tab).value;
    assert OpenTerminals(next, chosen) == OpenTerminals(s, chosen);
    var selected := Select(s.terminalOrder, OpenTerminals(s, chosen));
    SelectNoRepeats(s.terminalOrder, OpenTerminals(s, chosen));
    SameMembers(ids, ListTerminals(s, chosen));
    SortsAsAsked(selected, ids, map id | id in next.terminals :: next.terminals[id].position);
  }
}
