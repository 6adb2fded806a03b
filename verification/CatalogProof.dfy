/** What every catalog command keeps: the focus pointers, and that nothing is ever left without a place. */
module CatalogProof {
  import opened Wrappers
  import opened Catalog

  /** An order of creation lists each record once. */
  ghost predicate OrderOk(order: seq<Id>, keys: set<Id>, nextId: Id) {
    NoRepeats(order) && (forall id :: id in order <==> id in keys) && (forall id :: id in keys ==> id < nextId)
  }

  ghost predicate OrdersOk(s: State) {
    && OrderOk(s.sessionOrder, s.sessions.Keys, s.nextId)
    && OrderOk(s.tabOrder, s.tabs.Keys, s.nextId)
    && OrderOk(s.terminalOrder, s.terminals.Keys, s.nextId)
  }

  /** An open tab's active terminal is open and in that tab. */
  predicate TabOk(s: State, t: Id) {
    t in s.tabs ==>
      && s.tabs[t].session in s.sessions
      && (!s.tabs[t].archived && s.tabs[t].activeTerminal.Some? ==> OpenTerminalIn(s, s.tabs[t].activeTerminal.value, t))
  }

  /** An open terminal is in an open tab of its own session. */
  predicate TerminalOk(s: State, m: Id) {
    m in s.terminals ==>
      && s.terminals[m].session in s.sessions
      && (!s.terminals[m].archived ==> s.terminals[m].tab.Some? && OpenTabOf(s, s.terminals[m].tab.value, s.terminals[m].session))
  }

  /** A session's active tab is open and its own, and its active terminal is open and inside that tab. */
  predicate FocusOk(s: State, x: Id) {
    x in s.sessions ==>
      && (s.sessions[x].activeTab.Some? ==> OpenTabOf(s, s.sessions[x].activeTab.value, x))
      && (s.sessions[x].activeTerminal.Some? ==>
            s.sessions[x].activeTab.Some? && OpenTerminalIn(s, s.sessions[x].activeTerminal.value, s.sessions[x].activeTab.value))
  }

  ghost predicate HasTab(s: State, x: Id) {
    x in s.sessions ==> exists t :: OpenTabOf(s, t, x)
  }

  predicate Open(s: State, x: Id) {
    x in s.sessions && !s.sessions[x].archived
  }

  ghost predicate Placed(s: State) {
    && (forall x :: FocusOk(s, x)) && (forall x :: HasTab(s, x))
    && (forall t :: TabOk(s, t)) && (forall m :: TerminalOk(s, m))
  }

  ghost predicate Inv(s: State) {
    OrdersOk(s) && Placed(s) && (exists x :: Open(s, x))
  }

  // ----- changes that move nothing -----

  /** The same records, with the same places, focus and archival; only titles, positions, layouts, statuses and revisions differ. */
  ghost predicate SamePlaces(s: State, next: State) {
    && next.sessions.Keys == s.sessions.Keys && next.tabs.Keys == s.tabs.Keys && next.terminals.Keys == s.terminals.Keys
    && (forall t :: t in s.tabs ==>
          && next.tabs[t].session == s.tabs[t].session && next.tabs[t].archived == s.tabs[t].archived
          && next.tabs[t].activeTerminal == s.tabs[t].activeTerminal)
    && (forall m :: m in s.terminals ==>
          && next.terminals[m].session == s.terminals[m].session && next.terminals[m].tab == s.terminals[m].tab
          && next.terminals[m].archived == s.terminals[m].archived)
  }

  lemma SamePlacesKeep(s: State, next: State)
    requires Placed(s) && SamePlaces(s, next)
    requires forall x :: x in s.sessions ==>
               next.sessions[x].activeTab == s.sessions[x].activeTab && next.sessions[x].activeTerminal == s.sessions[x].activeTerminal
    ensures Placed(next)
  {
    forall t
      ensures TabOk(next, t)
    {
      assert TabOk(s, t);
    }
    forall m
      ensures TerminalOk(next, m)
    {
      assert TerminalOk(s, m);
    }
    forall x
      ensures FocusOk(next, x) && HasTab(next, x)
    {
      assert FocusOk(s, x) && HasTab(s, x);
      if x in s.sessions {
        var t :| OpenTabOf(s, t, x);
        assert OpenTabOf(next, t, x);
      }
    }
  }

  lemma SameOrders(s: State, next: State)
    requires OrdersOk(s)
    requires next.sessions.Keys == s.sessions.Keys && next.tabs.Keys == s.tabs.Keys && next.terminals.Keys == s.terminals.Keys
    requires next.sessionOrder == s.sessionOrder && next.tabOrder == s.tabOrder && next.terminalOrder == s.terminalOrder
    requires next.nextId == s.nextId
    ensures OrdersOk(next)
  {
  }

  /** Renames, layouts, reorders, status updates, restores and startup. */
  lemma PlainKeeps(s: State, next: State)
    requires Inv(s) && SamePlaces(s, next)
    requires forall x :: x in s.sessions ==>
               && next.sessions[x].activeTab == s.sessions[x].activeTab && next.sessions[x].activeTerminal == s.sessions[x].activeTerminal
               && (!s.sessions[x].archived ==> !next.sessions[x].archived)
    requires next.sessionOrder == s.sessionOrder && next.tabOrder == s.tabOrder && next.terminalOrder == s.terminalOrder
    requires next.nextId == s.nextId
    ensures Inv(next)
  {
    hide Placed;
    SamePlacesKeep(s, next);
    SameOrders(s, next);
    var x :| Open(s, x);
    assert Open(next, x);
  }

  lemma RenameSessionKeeps(s: State, id: Id, title: string)
    requires Inv(s)
    ensures Inv(SessionRenamed(s, id, title).state)
  {
    hide Inv;
    PlainKeeps(s, SessionRenamed(s, id, title).state);
  }

  lemma ReorderSessionsKeeps(s: State, ids: seq<Id>)
    requires Inv(s)
    ensures Inv(SessionsReordered(s, ids).state)
  {
    hide Inv, Select, ListSessions, Position, IsPermutation;
    PlainKeeps(s, SessionsReordered(s, ids).state);
  }

  lemma RestoreSessionKeeps(s: State, id: Id)
    requires Inv(s)
    ensures Inv(SessionRestored(s, id).state)
  {
    hide Inv;
    PlainKeeps(s, SessionRestored(s, id).state);
  }

  lemma RenameTabKeeps(s: State, id: Id, title: string)
    requires Inv(s)
    ensures Inv(TabRenamed(s, id, title).state)
  {
    hide Inv, Shortened;
    PlainKeeps(s, TabRenamed(s, id, title).state);
  }

  lemma SaveLayoutKeeps(s: State, id: Id, layout: string, expected: Option<nat>)
    requires Inv(s)
    ensures Inv(TabLayoutSaved(s, id, layout, expected).state)
  {
    hide Inv;
    PlainKeeps(s, TabLayoutSaved(s, id, layout, expected).state);
  }

  lemma ReorderTabsKeeps(s: State, session: Id, ids: seq<Id>)
    requires Inv(s)
    ensures Inv(TabsReordered(s, session, ids).state)
  {
    hide Inv, ListTabs, Position, IsPermutation;
    PlainKeeps(s, TabsReordered(s, session, ids).state);
  }

  lemma UpdateTerminalKeeps(s: State, id: Id, expected: Option<nat>, status: Status, title: string, replayAvailable: bool)
    requires Inv(s)
    ensures Inv(TerminalUpdated(s, id, expected, status, title, replayAvailable).state)
  {
    hide Inv;
    PlainKeeps(s, TerminalUpdated(s, id, expected, status, title, replayAvailable).state);
  }

  lemma RenameTerminalKeeps(s: State, id: Id, title: string)
    requires Inv(s)
    ensures Inv(TerminalRenamed(s, id, title).state)
  {
    hide Inv, TerminalUpdated, Shortened, NonEmpty;
    if id in s.terminals {
      var terminal := s.terminals[id];
      UpdateTerminalKeeps(s, id, None, terminal.status, Shortened(NonEmpty(title, terminal.title)), terminal.replayAvailable);
    }
  }

  lemma ReorderTerminalsKeeps(s: State, session: Id, tab: Option<Id>, ids: seq<Id>)
    requires Inv(s)
    ensures Inv(TerminalsReordered(s, session, tab, ids).state)
  {
    hide Inv, ListTerminals, Position, IsPermutation, ChosenTab;
    PlainKeeps(s, TerminalsReordered(s, session, tab, ids).state);
  }

  lemma ReconcileKeeps(s: State, newEpoch: string, replayable: set<Id>)
    requires Inv(s)
    ensures Inv(Reconciled(s, newEpoch, replayable).state)
  {
    hide Inv, Select;
    PlainKeeps(s, Reconciled(s, newEpoch, replayable).state);
  }

  // ----- focus -----

  /** Focusing an open terminal of the session, or none. */
  lemma SelectedKeeps(s: State, session: Id, terminal: Option<Id>)
    requires Placed(s)
    ensures Placed(Selected(s, session, terminal).state)
    ensures var next := Selected(s, session, terminal).state;
      && next.sessions.Keys == s.sessions.Keys && next.tabs.Keys == s.tabs.Keys && next.terminals == s.terminals
      && next == s.(sessions := next.sessions, tabs := next.tabs)
      && (forall x :: Open(s, x) ==> Open(next, x))
  {
    var next := Selected(s, session, terminal).state;
    if next != s {
      forall t
        ensures TabOk(next, t)
      {
        assert TabOk(s, t);
      }
      forall m
        ensures TerminalOk(next, m)
      {
        assert TerminalOk(s, m);
      }
      if terminal.Some? { assert TerminalOk(s, terminal.value); }
      forall x
        ensures FocusOk(next, x) && HasTab(next, x)
      {
        assert FocusOk(s, x) && HasTab(s, x);
        if x in s.sessions {
          var t :| OpenTabOf(s, t, x);
          assert OpenTabOf(next, t, x);
        }
      }
    }
  }

  lemma SelectTabKeeps(s: State, session: Id, tab: Option<Id>)
    requires Inv(s)
    ensures Inv(TabSelected(s, session, tab).state)
  {
    hide OrdersOk, HasTab;
    var next := TabSelected(s, session, tab).state;
    if next != s {
      SameOrders(s, next);
      if tab.Some? { assert TabOk(s, tab.value); }
      FocusChanged(s, next, session);
      var x :| Open(s, x);
      assert Open(next, x);
    }
  }

  /** One session's focus changed, to somewhere it may be. */
  lemma FocusChanged(s: State, next: State, session: Id)
    requires Placed(s) && session in s.sessions && next == s.(sessions := next.sessions)
    requires next.sessions.Keys == s.sessions.Keys && FocusOk(next, session)
    requires forall x :: x in s.sessions && x != session ==> next.sessions[x] == s.sessions[x]
    ensures Placed(next)
  {
    forall t
      ensures TabOk(next, t)
    {
      assert TabOk(s, t);
    }
    forall m
      ensures TerminalOk(next, m)
    {
      assert TerminalOk(s, m);
    }
    forall x
      ensures FocusOk(next, x) && HasTab(next, x)
    {
      assert FocusOk(s, x) && HasTab(s, x);
      if x in s.sessions {
        var t :| OpenTabOf(s, t, x);
        assert OpenTabOf(next, t, x);
      }
    }
  }

  lemma SelectTerminalKeeps(s: State, session: Id, terminal: Option<Id>)
    requires Inv(s)
    ensures Inv(Selected(s, session, terminal).state)
  {
    hide OrdersOk, Placed, Selected;
    var next := Selected(s, session, terminal).state;
    SelectedKeeps(s, session, terminal);
    SameOrders(s, next);
    var x :| Open(s, x);
    assert Open(next, x);
  }

  // ----- adding -----

  lemma OrderAdd(order: seq<Id>, keys: set<Id>, nextId: Id, id: Id, later: Id)
    requires OrderOk(order, keys, nextId) && nextId <= id < later
    ensures OrderOk(order + [id], keys + {id}, later) && OrderOk(order, keys, later)
  {
    assert id !in order;
  }

  /** A fresh open tab, unfocused, in a session that exists. */
  lemma AddTabKeeps(s: State, id: Id, session: Id, title: string, position: nat)
    requires Placed(s) && id !in s.tabs && session in s.sessions
    ensures Placed(AddTab(s, id, NewTab(session, title, position)))
  {
    var next := AddTab(s, id, NewTab(session, title, position));
    forall t
      ensures TabOk(next, t)
    {
      assert TabOk(s, t);
    }
    forall m
      ensures TerminalOk(next, m)
    {
      assert TerminalOk(s, m);
    }
    forall x
      ensures FocusOk(next, x) && HasTab(next, x)
    {
      assert FocusOk(s, x) && HasTab(s, x);
      if x in s.sessions {
        var t :| OpenTabOf(s, t, x);
        assert OpenTabOf(next, t, x);
      }
    }
  }

  lemma WithSessionPlaced(s: State, title: string, position: nat)
    requires Placed(s) && OrdersOk(s)
    ensures Placed(WithSession(s, title, position))
  {
    var next := WithSession(s, title, position);
    forall t
      ensures TabOk(next, t)
    {
      assert TabOk(s, t);
    }
    forall m
      ensures TerminalOk(next, m)
    {
      assert TerminalOk(s, m);
    }
    forall x
      ensures FocusOk(next, x) && HasTab(next, x)
    {
      assert FocusOk(s, x) && HasTab(s, x);
      if x == s.nextId {
        assert OpenTabOf(next, s.nextId + 1, x);
      } else if x in s.sessions {
        var t :| OpenTabOf(s, t, x);
        assert OpenTabOf(next, t, x);
      }
    }
  }

  lemma WithSessionKeeps(s: State, title: string, position: nat)
    requires Placed(s) && OrdersOk(s)
    ensures Inv(WithSession(s, title, position))
  {
    hide Placed, OrderOk;
    var next, id := WithSession(s, title, position), s.nextId;
    WithSessionPlaced(s, title, position);
    OrderAdd(s.sessionOrder, s.sessions.Keys, id, id, id + 2);
    OrderAdd(s.tabOrder, s.tabs.Keys, id, id + 1, id + 2);
    OrderAdd(s.terminalOrder, s.terminals.Keys, id, id, id + 2);
    assert next.sessions.Keys == s.sessions.Keys + {id} && next.tabs.Keys == s.tabs.Keys + {id + 1};
    assert Open(next, id);
  }

  lemma EnsureVisibleKeeps(s: State)
    requires Placed(s) && OrdersOk(s)
    ensures Inv(EnsureVisible(s))
  {
    hide Placed, OrdersOk, WithSession;
    WithSessionKeeps(s, "Session 1", 0);
    if OpenSessions(s) != {} {
      var x :| x in OpenSessions(s);
      assert Open(s, x);
    }
  }

  lemma ArchiveSessionKeeps(s: State, id: Id)
    requires Inv(s)
    ensures Inv(SessionArchived(s, id).state)
  {
    hide OrdersOk, EnsureVisible, Placed;
    if id in s.sessions {
      var session := s.sessions[id];
      var next := if session.archived then s else s.(sessions := s.sessions[id := TouchedSession(session.(archived := true))]);
      SamePlacesKeep(s, next);
      SameOrders(s, next);
      EnsureVisibleKeeps(next);
    }
  }

  lemma CreateTabOrders(s: State, session: Id, title: string)
    requires OrdersOk(s)
    ensures OrdersOk(TabCreated(s, session, title).state)
    ensures forall x :: Open(s, x) ==> Open(TabCreated(s, session, title).state, x)
  {
    hide OrderOk, Select;
    var next, id := TabCreated(s, session, title).state, s.nextId;
    OrderAdd(s.sessionOrder, s.sessions.Keys, id, id, id + 1);
    OrderAdd(s.tabOrder, s.tabs.Keys, id, id, id + 1);
    OrderAdd(s.terminalOrder, s.terminals.Keys, id, id, id + 1);
    if session in OpenSessions(s) {
      assert next.tabs.Keys == s.tabs.Keys + {id} && next.sessions.Keys == s.sessions.Keys;
    }
  }

  lemma CreateTabKeeps(s: State, session: Id, title: string)
    requires Inv(s)
    ensures Inv(TabCreated(s, session, title).state)
  {
    FreshTab(s, s.nextId);
    hide OrdersOk, Placed, TabCreated;
    CreateTabOrders(s, session, title);
    CreateTabPlaced(s, session, title);
    var x :| Open(s, x);
    assert Open(TabCreated(s, session, title).state, x);
  }

  lemma FreshTab(s: State, id: Id)
    requires OrdersOk(s) && id >= s.nextId
    ensures id !in s.sessions && id !in s.tabs && id !in s.terminals
  {
  }

  lemma CreateTabPlaced(s: State, session: Id, title: string)
    requires Placed(s) && s.nextId !in s.tabs
    ensures Placed(TabCreated(s, session, title).state)
  {
    hide Placed, Select;
    if session in OpenSessions(s) {
      var id := s.nextId;
      var position := |Select(s.tabOrder, OpenTabs(s, session))|;
      var added := AddTab(s, id, NewTab(session, NonEmpty(title, "New tab"), position));
      AddTabKeeps(s, id, session, NonEmpty(title, "New tab"), position);
      var next := TabCreated(s, session, title).state;
      var record := s.sessions[session];
      FocusedThere(added, session);
      var refocused := added.(sessions := next.sessions);
      if record.activeTab.None? {
        assert OpenTabOf(refocused, id, session);
        FocusChanged(added, refocused, session);
      }
      SamePlacesKeep(refocused, next);
    }
  }

  lemma FocusedThere(s: State, x: Id)
    requires Placed(s)
    ensures FocusOk(s, x) && HasTab(s, x)
  {
  }

  lemma CreateTerminalKeeps(s: State, session: Id, tab: Option<Id>, title: string)
    requires Inv(s)
    ensures Inv(TerminalCreated(s, session, tab, title).state)
  {
    hide OrderOk, Placed, Select, Selected, ChosenTab;
    var next, id := TerminalCreated(s, session, tab, title).state, s.nextId;
    var chosen := ChosenTab(s, session, tab);
    if session in OpenSessions(s) && chosen.Some? && OpenTabOf(s, chosen.value, session) {
      var terminal := Terminal(session, chosen, NonEmpty(title, "Terminal"),
                               |Select(s.terminalOrder, OpenTerminals(s, chosen.value))|, Created, false, 1, false);
      var added := s.(terminals := s.terminals[id := terminal], terminalOrder := s.terminalOrder + [id], nextId := id + 1);
      FreshTab(s, id);
      AddTerminalPlaced(s, added, id, terminal);
      OrderAdd(s.sessionOrder, s.sessions.Keys, id, id, id + 1);
      OrderAdd(s.tabOrder, s.tabs.Keys, id, id, id + 1);
      OrderAdd(s.terminalOrder, s.terminals.Keys, id, id, id + 1);
      assert added.terminals.Keys == s.terminals.Keys + {id};
      SelectedKeeps(added, session, Some(id));
      SameOrders(added, Selected(added, session, Some(id)).state);
      var x :| Open(s, x);
      assert Open(added, x);
      assert Open(Selected(added, session, Some(id)).state, x);
    }
  }

  lemma AddTerminalPlaced(s: State, next: State, id: Id, terminal: Terminal)
    requires Placed(s) && id !in s.terminals && terminal.session in s.sessions && !terminal.archived
    requires terminal.tab.Some? && OpenTabOf(s, terminal.tab.value, terminal.session)
    requires next == s.(terminals := s.terminals[id := terminal], terminalOrder := next.terminalOrder, nextId := next.nextId)
    ensures Placed(next)
  {
    forall t
      ensures TabOk(next, t)
    {
      assert TabOk(s, t);
    }
    forall m
      ensures TerminalOk(next, m)
    {
      assert TerminalOk(s, m);
    }
    forall x
      ensures FocusOk(next, x) && HasTab(next, x)
    {
      assert FocusOk(s, x) && HasTab(s, x);
      if x in s.sessions {
        var t :| OpenTabOf(s, t, x);
        assert OpenTabOf(next, t, x);
      }
    }
  }

  // ----- moving and closing -----

  lemma ListTerminalsOpen(s: State, tab: Id)
    ensures forall m :: m in ListTerminals(s, tab) ==> OpenTerminalIn(s, m, tab)
  {
    hide SortBy, Select;
  }

  lemma ListTabsOpen(s: State, session: Id)
    ensures forall t :: t in ListTabs(s, session) ==> OpenTabOf(s, t, session)
    ensures (forall id :: id in s.tabs ==> id in s.tabOrder) && OpenTabs(s, session) != {} ==> ListTabs(s, session) != []
  {
    hide SortBy, Select;
    if OpenTabs(s, session) != {} {
      var t :| t in OpenTabs(s, session);
      assert t in s.tabOrder ==> t in Select(s.tabOrder, OpenTabs(s, session));
    }
  }

  /** A closed terminal's tab and session look elsewhere, or nowhere. */
  lemma CloseTerminalPlaced(s: State, id: Id, stop: bool)
    requires Placed(s)
    ensures Placed(TerminalClosed(s, id, stop).state)
    ensures var next := TerminalClosed(s, id, stop).state;
      && next.sessions.Keys == s.sessions.Keys && next.tabs.Keys == s.tabs.Keys && next.terminals.Keys == s.terminals.Keys
      && next == s.(sessions := next.sessions, tabs := next.tabs, terminals := next.terminals)
      && (forall x :: Open(s, x) ==> Open(next, x))
  {
    hide ListTerminals;
    var next := TerminalClosed(s, id, stop).state;
    if next != s {
      assert TerminalOk(s, id);
      var tab := s.terminals[id].tab.value;
      ListTerminalsOpen(s, tab);
      forall t
        ensures TabOk(next, t)
      {
        assert TabOk(s, t);
      }
      forall m
        ensures TerminalOk(next, m)
      {
        assert TerminalOk(s, m);
      }
      forall x
        ensures FocusOk(next, x) && HasTab(next, x)
      {
        assert FocusOk(s, x) && HasTab(s, x);
        if x in s.sessions {
          var t :| OpenTabOf(s, t, x);
          assert OpenTabOf(next, t, x);
        }
      }
    }
  }

  lemma CloseTerminalKeeps(s: State, id: Id, stop: bool)
    requires Inv(s)
    ensures Inv(TerminalClosed(s, id, stop).state)
  {
    hide OrdersOk, Placed, TerminalClosed;
    CloseTerminalPlaced(s, id, stop);
    SameOrders(s, TerminalClosed(s, id, stop).state);
    var x :| Open(s, x);
    assert Open(TerminalClosed(s, id, stop).state, x);
  }

  /** What a move amounts to: the terminal's tab, both tabs' pointers, and the session's focus. */
  lemma MoveResult(s: State, id: Id, target: Id)
    requires Placed(s) && TerminalMoved(s, id, target).state != s
    ensures id in s.terminals && !s.terminals[id].archived && s.terminals[id].tab.Some? && s.terminals[id].tab.value != target
    ensures OpenTabOf(s, target, s.terminals[id].session) && s.terminals[id].tab.value in s.tabs && s.terminals[id].session in s.sessions
    ensures var next, current := TerminalMoved(s, id, target).state, s.terminals[id];
      var source, sourceTab := current.tab.value, s.tabs[current.tab.value];
      && next == s.(sessions := next.sessions, tabs := next.tabs, terminals := next.terminals)
      && (exists position :: next.terminals == s.terminals[id := TouchedTerminal(current.(tab := Some(target), position := position))])
      && next.tabs == s.tabs[source := TouchedTab(if sourceTab.activeTerminal == Some(id)
                                                  then sourceTab.(activeTerminal := FirstOther(ListTerminals(s, source), id)) else sourceTab)]
                            [target := TouchedTab(s.tabs[target].(activeTerminal := Some(id)))]
      && next.sessions == s.sessions[current.session := TouchedSession(
                            s.sessions[current.session].(activeTab := Some(target), activeTerminal := Some(id)))]
  {
    hide ListTerminals, Select, FirstOther, OpenTerminals;
    assert TerminalOk(s, id);
    hide Placed;
    var position := |Select(s.terminalOrder, OpenTerminals(s, target))|;
    assert TerminalMoved(s, id, target).state.terminals
        == s.terminals[id := TouchedTerminal(s.terminals[id].(tab := Some(target), position := position))];
  }

  lemma MovePlaced(s: State, id: Id, target: Id)
    requires Placed(s)
    ensures Placed(TerminalMoved(s, id, target).state)
  {
    hide ListTerminals, TerminalMoved;
    var next := TerminalMoved(s, id, target).state;
    if next != s {
      MoveResult(s, id, target);
      var source := s.terminals[id].tab.value;
      ListTerminalsOpen(s, source);
      forall t
        ensures TabOk(next, t)
      {
        assert TabOk(s, t);
      }
      forall m
        ensures TerminalOk(next, m)
      {
        assert TerminalOk(s, m);
      }
      forall x
        ensures FocusOk(next, x) && HasTab(next, x)
      {
        assert FocusOk(s, x) && HasTab(s, x);
        if x in s.sessions {
          if x != s.terminals[id].session && s.sessions[x].activeTab.Some? { OtherSessionsTab(s, x, id); }
          var t :| OpenTabOf(s, t, x);
          assert OpenTabOf(next, t, x);
        }
      }
    }
  }

  /** Another session's active terminal is another terminal. */
  lemma OtherSessionsTab(s: State, x: Id, id: Id)
    requires Placed(s) && x in s.sessions && id in s.terminals && !s.terminals[id].archived && s.terminals[id].session != x
    ensures s.sessions[x].activeTerminal != Some(id)
  {
    assert FocusOk(s, x) && TerminalOk(s, id);
  }

  lemma MoveKeeps(s: State, id: Id, target: Id)
    requires Inv(s)
    ensures Inv(TerminalMoved(s, id, target).state)
  {
    hide OrdersOk, Placed, TerminalMoved, ListTerminals;
    var next := TerminalMoved(s, id, target).state;
    if next != s {
      MovePlaced(s, id, target);
      MoveResult(s, id, target);
      SameOrders(s, next);
      var x :| Open(s, x);
      assert Open(next, x);
    }
  }

  // ----- closing a tab -----

  /** Everything in place, but for one session's own focus and its having an open tab. */
  ghost predicate PlacedBut(s: State, session: Id) {
    && (forall x :: x != session ==> FocusOk(s, x)) && (forall x :: x != session ==> HasTab(s, x))
    && (forall t :: TabOk(s, t)) && (forall m :: TerminalOk(s, m))
  }

  function Emptied(s: State, id: Id, stop: bool): State {
    s.(terminals := map m | m in s.terminals ::
      if m in OpenTerminals(s, id) then ArchivedTerminal(s.terminals[m], stop) else s.terminals[m])
  }

  function WithoutTab(s: State, id: Id, stop: bool): State
    requires id in s.tabs
  {
    var emptied := Emptied(s, id, stop);
    if s.tabs[id].archived then emptied else emptied.(tabs := s.tabs[id := TouchedTab(s.tabs[id].(archived := true))])
  }

  function WithReplacement(closed: State, session: Id): State {
    if OpenTabs(closed, session) != {} then closed
    else AddTab(closed, closed.nextId, NewTab(session, "Window 1", 0)).(nextId := closed.nextId + 1)
  }

  /** The tab closed and its terminals archived: only a session focused on it is out of place. */
  lemma WithoutTabPlaced(s: State, id: Id, stop: bool)
    requires Placed(s) && id in s.tabs
    ensures var session := s.tabs[id].session; var closed := WithoutTab(s, id, stop);
      && session in s.sessions && PlacedBut(closed, session)
      && (s.sessions[session].activeTab != Some(id) ==> FocusOk(closed, session))
  {
    var session, closed := s.tabs[id].session, WithoutTab(s, id, stop);
    assert TabOk(s, id);
    forall t
      ensures TabOk(closed, t)
    {
      assert TabOk(s, t);
    }
    forall m
      ensures TerminalOk(closed, m)
    {
      assert TerminalOk(s, m);
    }
    forall x
      ensures x != session || s.sessions[session].activeTab != Some(id) ==> FocusOk(closed, x)
      ensures x != session ==> HasTab(closed, x)
    {
      assert FocusOk(s, x) && HasTab(s, x);
      if x in s.sessions && x != session {
        var t :| OpenTabOf(s, t, x);
        assert OpenTabOf(closed, t, x);
      }
    }
  }

  lemma ReplacementPlaced(closed: State, session: Id)
    requires PlacedBut(closed, session) && session in closed.sessions && OrdersOk(closed)
    ensures var kept := WithReplacement(closed, session);
      && PlacedBut(kept, session) && HasTab(kept, session) && OrdersOk(kept)
      && (FocusOk(closed, session) ==> FocusOk(kept, session))
      && kept.sessions == closed.sessions && kept.sessionOrder == closed.sessionOrder
  {
    hide OrdersOk;
    var kept, id := WithReplacement(closed, session), closed.nextId;
    FreshTab(closed, id);
    if OpenTabs(closed, session) != {} {
      var t :| t in OpenTabs(closed, session);
      assert OpenTabOf(closed, t, session);
    } else {
      ReplacementOrders(closed, session);
      forall t
        ensures TabOk(kept, t)
      {
        assert TabOk(closed, t);
      }
      forall m
        ensures TerminalOk(kept, m)
      {
        assert TerminalOk(closed, m);
      }
      forall x
        ensures FocusOk(closed, x) ==> FocusOk(kept, x)
        ensures x != session ==> HasTab(kept, x)
      {
        if x in closed.sessions && x != session {
          assert HasTab(closed, x);
          var t :| OpenTabOf(closed, t, x);
          assert OpenTabOf(kept, t, x);
        }
      }
      assert OpenTabOf(kept, id, session);
    }
  }

  lemma ReplacementOrders(closed: State, session: Id)
    requires OrdersOk(closed)
    ensures OrdersOk(AddTab(closed, closed.nextId, NewTab(session, "Window 1", 0)).(nextId := closed.nextId + 1))
  {
    hide OrderOk;
    var id := closed.nextId;
    OrderAdd(closed.sessionOrder, closed.sessions.Keys, id, id, id + 1);
    OrderAdd(closed.tabOrder, closed.tabs.Keys, id, id, id + 1);
    OrderAdd(closed.terminalOrder, closed.terminals.Keys, id, id, id + 1);
    assert closed.tabs[id := NewTab(session, "Window 1", 0)].Keys == closed.tabs.Keys + {id};
  }

  lemma Refocus(kept: State, next: State, session: Id)
    requires PlacedBut(kept, session) && HasTab(kept, session) && session in kept.sessions
    requires next == kept.(sessions := next.sessions) && next.sessions.Keys == kept.sessions.Keys && FocusOk(next, session)
    requires forall x :: x in kept.sessions && x != session ==> next.sessions[x] == kept.sessions[x]
    ensures Placed(next)
  {
    forall t
      ensures TabOk(next, t)
    {
      assert TabOk(kept, t);
    }
    forall m
      ensures TerminalOk(next, m)
    {
      assert TerminalOk(kept, m);
    }
    forall x
      ensures FocusOk(next, x) && HasTab(next, x)
    {
      assert HasTab(kept, x);
      assert x != session ==> FocusOk(kept, x);
      if x in kept.sessions {
        var t :| OpenTabOf(kept, t, x);
        assert OpenTabOf(next, t, x);
      }
    }
  }

  lemma CloseTabKeeps(s: State, id: Id, stop: bool)
    requires Inv(s)
    ensures Inv(TabClosed(s, id, stop).state)
  {
    if id in s.tabs {
      var next, session := TabClosed(s, id, stop).state, s.tabs[id].session;
      var closed := WithoutTab(s, id, stop);
      var kept := WithReplacement(closed, session);
      hide OrdersOk, Placed, PlacedBut, WithoutTab, ListTabs, HasTab, FocusOk;
      CloseTabShape(s, id, stop);
      WithoutTabPlaced(s, id, stop);
      SameOrders(s, closed);
      ReplacementPlaced(closed, session);
      CloseTabFocus(kept, next, session, id);
      SameOrders(kept, next);
      var x :| Open(s, x);
      assert Open(next, x);
    }
  }

  lemma CloseTabShape(s: State, id: Id, stop: bool)
    requires Placed(s) && id in s.tabs
    ensures var closed := WithoutTab(s, id, stop);
      && closed == s.(tabs := closed.tabs, terminals := closed.terminals)
      && closed.tabs.Keys == s.tabs.Keys && closed.terminals.Keys == s.terminals.Keys
    ensures s.tabs[id].session in s.sessions
    ensures var session := s.tabs[id].session; var kept := WithReplacement(WithoutTab(s, id, stop), session);
      var record := s.sessions[session]; var following := First(ListTabs(kept, session));
      TabClosed(s, id, stop).state ==
         if record.activeTab != Some(id) then kept
         else kept.(sessions := s.sessions[session := TouchedSession(record.(activeTab := following,
                activeTerminal := if following.Some? && following.value in kept.tabs
                                  then kept.tabs[following.value].activeTerminal else None))])
  {
    hide ListTabs;
    assert TabOk(s, id);
  }

  lemma CloseTabFocus(kept: State, next: State, session: Id, id: Id)
    requires PlacedBut(kept, session) && HasTab(kept, session) && session in kept.sessions
    requires kept.sessions[session].activeTab != Some(id) ==> FocusOk(kept, session)
    requires var record := kept.sessions[session]; var following := First(ListTabs(kept, session));
      next == if record.activeTab != Some(id) then kept
              else kept.(sessions := kept.sessions[session := TouchedSession(record.(activeTab := following,
                     activeTerminal := if following.Some? && following.value in kept.tabs
                                       then kept.tabs[following.value].activeTerminal else None))])
    ensures Placed(next)
    ensures next == kept.(sessions := next.sessions) && next.sessions.Keys == kept.sessions.Keys
    ensures forall x :: Open(kept, x) ==> Open(next, x)
  {
    hide ListTabs, HasTab;
    ListTabsOpen(kept, session);
    var following := First(ListTabs(kept, session));
    if following.Some? {
      assert following.value in ListTabs(kept, session);
      assert TabOk(kept, following.value);
    }
    Refocus(kept, next, session);
  }

  // ----- every command -----

  lemma CreateSessionKeeps(s: State, title: string)
    requires Inv(s)
    ensures Inv(SessionCreated(s, title).state)
  {
    hide Inv, Placed, OrdersOk, Select, WithSession;
    InvParts(s);
    WithSessionKeeps(s, NonEmpty(title, "New session"), |Select(s.sessionOrder, OpenSessions(s))|);
  }

  lemma InvParts(s: State)
    requires Inv(s)
    ensures Placed(s) && OrdersOk(s)
  {
    hide Placed, OrdersOk;
  }

  lemma StepKeeps(s: State, c: Command)
    requires Inv(s)
    ensures Inv(Step(s, c).state)
  {
    hide Inv, SessionCreated, SessionArchived, TabCreated, TabSelected, TabClosed, TerminalCreated, Selected, TerminalMoved,
         TerminalClosed, SessionRenamed, SessionsReordered, SessionRestored, TabRenamed, TabLayoutSaved, TabsReordered,
         TerminalUpdated, TerminalRenamed, TerminalsReordered, Reconciled;
    match c
    case CreateSession(title) => CreateSessionKeeps(s, title);
    case RenameSession(session, title) => RenameSessionKeeps(s, session, title);
    case ReorderSessions(ids) => ReorderSessionsKeeps(s, ids);
    case ArchiveSession(session) => ArchiveSessionKeeps(s, session);
    case RestoreSession(session) => RestoreSessionKeeps(s, session);
    case CreateTab(session, title) => CreateTabKeeps(s, session, title);
    case RenameTab(tab, title) => RenameTabKeeps(s, tab, title);
    case SaveTabLayout(tab, layout, expected) => SaveLayoutKeeps(s, tab, layout, expected);
    case ReorderTabs(session, ids) => ReorderTabsKeeps(s, session, ids);
    case SelectTab(session, tab) => SelectTabKeeps(s, session, tab);
    case CloseTab(tab, stop) => CloseTabKeeps(s, tab, stop);
    case CreateTerminal(session, tab, title) => CreateTerminalKeeps(s, session, tab, title);
    case UpdateTerminal(terminal, expected, status, title, replayAvailable) =>
      UpdateTerminalKeeps(s, terminal, expected, status, title, replayAvailable);
    case RenameTerminal(terminal, title) => RenameTerminalKeeps(s, terminal, title);
    case SelectTerminal(session, terminal) => SelectTerminalKeeps(s, session, terminal);
    case ReorderTerminals(session, tab, ids) => ReorderTerminalsKeeps(s, session, tab, ids);
    case MoveTerminal(terminal, tab) => MoveKeeps(s, terminal, tab);
    case CloseTerminal(terminal, stop) => CloseTerminalKeeps(s, terminal, stop);
    case ReconcileStartup(newEpoch, replayable) => ReconcileKeeps(s, newEpoch, replayable);
  }

  lemma EmptyKeeps()
    ensures Inv(EMPTY)
  {
    EnsureVisibleKeeps(State(map[], [], map[], [], map[], [], 0, None));
  }

  lemma {:induction false} RunKeeps(commands: seq<Command>)
    ensures Inv(Run(commands))
  {
    hide Inv, Step;
    if commands == [] {
      EmptyKeeps();
    } else {
      RunKeeps(commands[..|commands| - 1]);
      StepKeeps(Run(commands[..|commands| - 1]), commands[|commands| - 1]);
    }
  }

  /**
    In every state the catalog reaches: some session is visible; every session has an open tab; every
    open terminal is in an open tab of its own session; each open tab's active terminal is open and in
    that tab; each session's active tab is open and its own; and a session's active terminal is open
    and inside its active tab.
  */
  lemma FocusIsConsistent(commands: seq<Command>)
    ensures var s := Run(commands);
      && (exists x :: x in s.sessions && !s.sessions[x].archived)
      && (forall x :: x in s.sessions ==> exists t :: OpenTabOf(s, t, x))
      && (forall m :: m in s.terminals && !s.terminals[m].archived ==>
            s.terminals[m].tab.Some? && OpenTabOf(s, s.terminals[m].tab.value, s.terminals[m].session))
      && (forall t :: t in s.tabs && !s.tabs[t].archived && s.tabs[t].activeTerminal.Some? ==>
            OpenTerminalIn(s, s.tabs[t].activeTerminal.value, t))
      && (forall x :: x in s.sessions && s.sessions[x].activeTab.Some? ==> OpenTabOf(s, s.sessions[x].activeTab.value, x))
      && (forall x :: x in s.sessions && s.sessions[x].activeTerminal.Some? ==>
            s.sessions[x].activeTab.Some? && OpenTerminalIn(s, s.sessions[x].activeTerminal.value, s.sessions[x].activeTab.value))
  {
    hide Run, OrdersOk;
    RunKeeps(commands);
    var s := Run(commands);
    var x :| Open(s, x);
    assert x in s.sessions && !s.sessions[x].archived;
    forall y | y in s.sessions
      ensures exists t :: OpenTabOf(s, t, y)
    {
      assert HasTab(s, y);
    }
    forall m | m in s.terminals
      ensures TerminalOk(s, m)
    {
    }
    forall t | t in s.tabs
      ensures TabOk(s, t)
    {
    }
    forall y | y in s.sessions
      ensures FocusOk(s, y)
    {
    }
  }
}
