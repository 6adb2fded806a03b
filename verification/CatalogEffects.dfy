/**
  What each catalog command does, in every state the catalog reaches, told over the lists shown and the
  records' fields: which records change and how, which lists gain or lose one, and when it is refused.
*/
module CatalogEffects {
  import opened Wrappers
  import opened Catalog
  import opened CatalogProof
  import opened CatalogTheorems
  import opened CatalogListing

  // ----- refusals -----

  /** A refused command changes nothing. */
  lemma RefusedChangesNothing(s: State, c: Command)
    ensures Step(s, c).reply.Refused? ==> Step(s, c).state == s
  {
    hide ListTerminals, ListTabs, ListSessions, Select, FirstOther, IsPermutation, Position;
  }

  /** Every record of a session's, tab's and terminal's kind, other than those named, is as it was, and so is the epoch. */
  ghost predicate OnlySessions(s: State, n: State, ids: set<Id>) {
    n.sessions.Keys == s.sessions.Keys && forall x :: x in s.sessions && x !in ids ==> n.sessions[x] == s.sessions[x]
  }

  ghost predicate OnlyTabs(s: State, n: State, ids: set<Id>) {
    n.tabs.Keys == s.tabs.Keys && forall t :: t in s.tabs && t !in ids ==> n.tabs[t] == s.tabs[t]
  }

  ghost predicate OnlyTerminals(s: State, n: State, ids: set<Id>) {
    n.terminals.Keys == s.terminals.Keys && forall m :: m in s.terminals && m !in ids ==> n.terminals[m] == s.terminals[m]
  }

  // ----- terminals: closing -----

  /** The record of a terminal that is closed, stopped or not. */
  ghost predicate Closes(now: Terminal, was: Terminal, stop: bool) {
    var stopped := stop && was.status in {Created, Starting, Running, Waiting};
    && now.archived && now.revision == was.revision + 1
    && now.status == (if stopped then Cancelled else was.status)
    && now.replayAvailable == (was.replayAvailable && !stopped)
    && now.session == was.session && now.tab == was.tab && now.title == was.title && now.position == was.position
  }

  /**
    Closing an open terminal takes it out of its tab's list and changes no other list; a focus that was on
    it, the tab's or the session's, goes to the first terminal left in that list, or to none.
  */
  lemma CloseTerminalExactly(s: State, id: Id, stop: bool)
    requires Inv(s) && id in s.terminals && !s.terminals[id].archived
    ensures s.terminals[id].tab.Some? && s.terminals[id].tab.value in s.tabs && s.terminals[id].session in s.sessions
    ensures var o, was := Step(s, CloseTerminal(id, stop)), s.terminals[id];
      var n, tab, session := o.state, was.tab.value, was.session;
      var left := ListTerminals(n, tab);
      var next := if left == [] then None else Some(left[0]);
      && o.reply == Changed(id) && Inv(n)
      && Drops(left, ListTerminals(s, tab), id)
      && (forall other :: other != tab ==> ListTerminals(n, other) == ListTerminals(s, other))
      && OnlyTerminals(s, n, {id}) && Closes(n.terminals[id], was, stop)
      && OnlyTabs(s, n, {tab})
      && n.tabs[tab] == (if s.tabs[tab].activeTerminal == Some(id)
                         then s.tabs[tab].(activeTerminal := next, revision := s.tabs[tab].revision + 1) else s.tabs[tab])
      && OnlySessions(s, n, {session})
      && n.sessions[session] == (if s.sessions[session].activeTerminal == Some(id)
           then s.sessions[session].(activeTerminal := next, revision := s.sessions[session].revision + 1) else s.sessions[session])
      && n.epoch == s.epoch
  {
    hide ListTerminals, FirstOther, Drops, Placed, OrdersOk, TerminalClosed, Closes, Inv;
    InvParts(s);
    OpenIsPlaced(s, id);
    CloseTerminalKeeps(s, id, stop);
    CloseShape(s, id, stop);
    var n, tab := TerminalClosed(s, id, stop).state, s.terminals[id].tab.value;
    InvParts(n);
    ClosesArchives(n.terminals[id], s.terminals[id], stop);
    ClosedLists(s, n, id, tab);
    forall other | other != tab
      ensures ListTerminals(n, other) == ListTerminals(s, other)
    {
      TerminalsSame(s, n, other);
    }
  }

  lemma ClosesArchives(now: Terminal, was: Terminal, stop: bool)
    requires Closes(now, was, stop)
    ensures now.archived && now.tab == was.tab
  {
  }

  lemma CloseShape(s: State, id: Id, stop: bool)
    requires id in s.terminals && !s.terminals[id].archived && s.terminals[id].session in s.sessions
    requires s.terminals[id].tab.Some? && s.terminals[id].tab.value in s.tabs
    ensures var o, was := TerminalClosed(s, id, stop), s.terminals[id];
      var n, tab, session := o.state, was.tab.value, was.session;
      var next := FirstOther(ListTerminals(s, tab), id);
      && o.reply == Changed(id)
      && OnlyTerminals(s, n, {id}) && Closes(n.terminals[id], was, stop)
      && OnlyTabs(s, n, {tab})
      && n.tabs[tab] == (if s.tabs[tab].activeTerminal == Some(id)
                         then s.tabs[tab].(activeTerminal := next, revision := s.tabs[tab].revision + 1) else s.tabs[tab])
      && OnlySessions(s, n, {session})
      && n.sessions[session] == (if s.sessions[session].activeTerminal == Some(id)
           then s.sessions[session].(activeTerminal := next, revision := s.sessions[session].revision + 1) else s.sessions[session])
      && n.epoch == s.epoch && n.terminalOrder == s.terminalOrder
  {
    hide ListTerminals, FirstOther, ArchivedTerminal, Closes;
    ArchivedCloses(s.terminals[id], stop);
  }

  lemma ArchivedCloses(was: Terminal, stop: bool)
    ensures Closes(ArchivedTerminal(was, stop), was, stop)
  {
  }

  lemma OpenIsPlaced(s: State, id: Id)
    requires Placed(s) && id in s.terminals
    ensures s.terminals[id].session in s.sessions
    ensures !s.terminals[id].archived ==>
              s.terminals[id].tab.Some? && OpenTabOf(s, s.terminals[id].tab.value, s.terminals[id].session)
  {
    assert TerminalOk(s, id);
  }

  lemma ClosedLists(s: State, n: State, id: Id, tab: Id)
    requires OrdersOk(s) && OrdersOk(n) && n.terminalOrder == s.terminalOrder && OpenTerminalIn(s, id, tab)
    requires OnlyTerminals(s, n, {id}) && n.terminals[id].archived
    ensures Drops(ListTerminals(n, tab), ListTerminals(s, tab), id)
    ensures FirstOther(ListTerminals(s, tab), id) == First(ListTerminals(n, tab))
  {
    hide ListTerminals, Drops, NoRepeats;
    TerminalsLose(s, n, tab, id);
    TerminalsOnce(s, tab);
    FirstOtherIs(ListTerminals(n, tab), ListTerminals(s, tab), id);
  }

  lemma TerminalsOnce(s: State, tab: Id)
    requires OrdersOk(s)
    ensures NoRepeats(ListTerminals(s, tab)) && forall m :: m in ListTerminals(s, tab) <==> OpenTerminalIn(s, m, tab)
  {
    hide NoRepeats, ListTerminals;
    ListsAre(s, 0, tab);
    ListingMembers(ListTerminals(s, tab), s.terminalOrder, OpenTerminals(s, tab), Positions(s).2);
  }

  /** Closing twice, or nothing, does nothing. */
  lemma CloseAgain(s: State, id: Id, stop: bool)
    requires Inv(s) && !(id in s.terminals && !s.terminals[id].archived)
    ensures Step(s, CloseTerminal(id, stop)) == Outcome(s, if id in s.terminals then Changed(id) else Refused(NotFound))
  {
    hide OrdersOk;
    assert TerminalOk(s, id);
  }

  // ----- terminals: creating, moving, selecting -----

  /** The tab a command is about: the one named, or the session's active one. */
  function Meant(s: State, session: Id, tab: Option<Id>): Option<Id> {
    if tab.Some? then tab else if session in s.sessions then s.sessions[session].activeTab else None
  }

  /** The session shows this terminal, in this tab; and the tab shows it. */
  ghost predicate Focuses(s: State, n: State, session: Id, tab: Id, id: Id) {
    && session in s.sessions && session in n.sessions && tab in n.tabs
    && n.sessions[session] == s.sessions[session].(activeTab := Some(tab), activeTerminal := Some(id),
                                                   revision := s.sessions[session].revision + 1)
    && n.tabs[tab].activeTerminal == Some(id)
  }

  /**
    A terminal is created in an open session, in the open tab meant; it joins that tab's list alone, at the
    position the list's length gives, and takes the focus.
  */
  lemma CreateTerminalExactly(s: State, session: Id, tab: Option<Id>, title: string)
    requires Inv(s)
    ensures var o, meant, id := Step(s, CreateTerminal(session, tab, title)), Meant(s, session, tab), s.nextId;
      var n := o.state;
      if session !in s.sessions || s.sessions[session].archived || meant.None? then o == Outcome(s, Refused(NotFound))
      else if !OpenTabOf(s, meant.value, session) then o == Outcome(s, Refused(Invalid))
      else
        && o.reply == Changed(id) && id !in s.terminals && Inv(n)
        && n.terminals == s.terminals[id := Terminal(session, meant, if title == "" then "Terminal" else title,
                                                     |ListTerminals(s, meant.value)|, Created, false, 1, false)]
        && Drops(ListTerminals(s, meant.value), ListTerminals(n, meant.value), id)
        && (forall other :: other != meant.value ==> ListTerminals(n, other) == ListTerminals(s, other))
        && OnlyTabs(s, n, {meant.value}) && OnlySessions(s, n, {session}) && Focuses(s, n, session, meant.value, id)
        && n.tabs[meant.value] == s.tabs[meant.value].(activeTerminal := Some(id), revision := s.tabs[meant.value].revision + 1)
        && n.epoch == s.epoch
  {
    hide ListTerminals, Drops, Placed, OrdersOk, TerminalCreated, Inv, Focuses;
    InvParts(s);
    FreshTab(s, s.nextId);
    CreateTerminalKeeps(s, session, tab, title);
    CreateShape(s, session, tab, title);
    var o, meant, id := Step(s, CreateTerminal(session, tab, title)), Meant(s, session, tab), s.nextId;
    var n := o.state;
    if !o.reply.Refused? {
      InvParts(n);
      TerminalsGain(s, n, meant.value, id);
      forall other | other != meant.value
        ensures ListTerminals(n, other) == ListTerminals(s, other)
      {
        TerminalsSame(s, n, other);
      }
    }
  }

  lemma CreateShape(s: State, session: Id, tab: Option<Id>, title: string)
    requires s.nextId !in s.terminals
    ensures var o, meant, id := TerminalCreated(s, session, tab, title), Meant(s, session, tab), s.nextId;
      var n := o.state;
      if session !in s.sessions || s.sessions[session].archived || meant.None? then o == Outcome(s, Refused(NotFound))
      else if !OpenTabOf(s, meant.value, session) then o == Outcome(s, Refused(Invalid))
      else
        && o.reply == Changed(id) && n.terminalOrder == s.terminalOrder + [id]
        && n.terminals == s.terminals[id := Terminal(session, meant, if title == "" then "Terminal" else title,
                                                     |ListTerminals(s, meant.value)|, Created, false, 1, false)]
        && OnlyTabs(s, n, {meant.value}) && OnlySessions(s, n, {session}) && Focuses(s, n, session, meant.value, id)
        && n.tabs[meant.value] == s.tabs[meant.value].(activeTerminal := Some(id), revision := s.tabs[meant.value].revision + 1)
        && n.epoch == s.epoch
  {
    hide Select, SortBy;
  }

  /** A terminal moves only to an open tab of its own session. */
  lemma MoveTerminalExactly(s: State, id: Id, target: Id)
    requires Inv(s)
    ensures var o := Step(s, MoveTerminal(id, target)); var n := o.state;
      if id !in s.terminals || s.terminals[id].archived then o == Outcome(s, Refused(NotFound))
      else if !OpenTabOf(s, target, s.terminals[id].session) then o == Outcome(s, Refused(Invalid))
      else if s.terminals[id].tab == Some(target) then o == Outcome(s, Changed(id))
      else
        && s.terminals[id].tab.Some? && s.terminals[id].tab.value in s.tabs
        && var was, source := s.terminals[id], s.terminals[id].tab.value;
        var left := ListTerminals(n, source);
        && o.reply == Changed(id) && Inv(n)
        && Drops(left, ListTerminals(s, source), id) && Drops(ListTerminals(s, target), ListTerminals(n, target), id)
        && (forall other :: other != source && other != target ==> ListTerminals(n, other) == ListTerminals(s, other))
        && n.terminals == s.terminals[id := was.(tab := Some(target), position := |ListTerminals(s, target)|, revision := was.revision + 1)]
        && OnlyTabs(s, n, {source, target}) && OnlySessions(s, n, {was.session}) && Focuses(s, n, was.session, target, id)
        && n.tabs[target] == s.tabs[target].(activeTerminal := Some(id), revision := s.tabs[target].revision + 1)
        && n.tabs[source] == s.tabs[source].(
             activeTerminal := if s.tabs[source].activeTerminal != Some(id) then s.tabs[source].activeTerminal
                               else if left == [] then None else Some(left[0]),
             revision := s.tabs[source].revision + 1)
        && n.epoch == s.epoch
  {
    hide ListTerminals, Drops, Placed, OrdersOk, TerminalMoved, Inv, Focuses;
    InvParts(s);
    MoveKeeps(s, id, target);
    MoveShape(s, id, target);
    var o := Step(s, MoveTerminal(id, target));
    var n := o.state;
    if Moves(s, id, target) {
      InvParts(n);
      var source := s.terminals[id].tab.value;
      TerminalsLose(s, n, source, id);
      TerminalsOnce(s, source);
      FirstOtherIs(ListTerminals(n, source), ListTerminals(s, source), id);
      TerminalsGain(s, n, target, id);
      forall other | other != source && other != target
        ensures ListTerminals(n, other) == ListTerminals(s, other)
      {
        TerminalsSame(s, n, other);
      }
    }
  }

  predicate Moves(s: State, id: Id, target: Id) {
    && id in s.terminals && !s.terminals[id].archived && OpenTabOf(s, target, s.terminals[id].session)
    && s.terminals[id].tab != Some(target)
  }

  lemma MoveShape(s: State, id: Id, target: Id)
    requires Placed(s)
    ensures var o := TerminalMoved(s, id, target); var n := o.state;
      if id !in s.terminals || s.terminals[id].archived then o == Outcome(s, Refused(NotFound))
      else if !OpenTabOf(s, target, s.terminals[id].session) then o == Outcome(s, Refused(Invalid))
      else if s.terminals[id].tab == Some(target) then o == Outcome(s, Changed(id))
      else
        && s.terminals[id].tab.Some? && s.terminals[id].tab.value in s.tabs
        && var was, source := s.terminals[id], s.terminals[id].tab.value;
        && o.reply == Changed(id) && n.terminalOrder == s.terminalOrder
        && n.terminals == s.terminals[id := was.(tab := Some(target), position := |ListTerminals(s, target)|, revision := was.revision + 1)]
        && OnlyTabs(s, n, {source, target}) && OnlySessions(s, n, {was.session}) && Focuses(s, n, was.session, target, id)
        && n.tabs[target] == s.tabs[target].(activeTerminal := Some(id), revision := s.tabs[target].revision + 1)
        && n.tabs[source] == s.tabs[source].(
             activeTerminal := if s.tabs[source].activeTerminal != Some(id) then s.tabs[source].activeTerminal
                               else FirstOther(ListTerminals(s, source), id),
             revision := s.tabs[source].revision + 1)
        && n.epoch == s.epoch
  {
    hide Select, FirstOther, SortBy;
    if id in s.terminals { OpenIsPlaced(s, id); }
    hide Placed;
  }

  /** Selecting focuses an open terminal of the session, or none; the tab it is in comes with it. */
  lemma SelectTerminalExactly(s: State, session: Id, terminal: Option<Id>)
    requires Inv(s)
    ensures var o := Step(s, SelectTerminal(session, terminal)); var n := o.state;
      if terminal.Some? && !(terminal.value in s.terminals && s.terminals[terminal.value].session == session
                             && !s.terminals[terminal.value].archived) then o == Outcome(s, Refused(Invalid))
      else if session !in s.sessions then o == Outcome(s, Refused(NotFound))
      else
        && o.reply == Changed(session) && n.terminals == s.terminals && n.epoch == s.epoch && OnlySessions(s, n, {session})
        && (if terminal.None? then
              && n.tabs == s.tabs
              && n.sessions[session] == s.sessions[session].(activeTerminal := None, revision := s.sessions[session].revision + 1)
            else
              && s.terminals[terminal.value].tab.Some?
              && var tab := s.terminals[terminal.value].tab.value;
              && tab in s.tabs && OnlyTabs(s, n, {tab}) && Focuses(s, n, session, tab, terminal.value)
              && n.tabs[tab] == s.tabs[tab].(activeTerminal := terminal, revision := s.tabs[tab].revision + 1))
  {
    hide OrdersOk, HasTab, FocusOk, TabOk;
    if terminal.Some? { assert TerminalOk(s, terminal.value); }
  }

  // ----- terminals: records -----

  /** An update sets the three fields, unless it is fenced by another revision. */
  lemma UpdateTerminalExactly(s: State, id: Id, expected: Option<nat>, status: Status, title: string, replayAvailable: bool)
    requires Inv(s)
    ensures var o := Step(s, UpdateTerminal(id, expected, status, title, replayAvailable)); var n := o.state;
      if id !in s.terminals then o == Outcome(s, Refused(NotFound))
      else if expected.Some? && expected.value != s.terminals[id].revision then o == Outcome(s, Refused(Conflict))
      else
        && o.reply == Changed(id) && n == s.(terminals := n.terminals) && OnlyTerminals(s, n, {id})
        && n.terminals[id] == s.terminals[id].(status := status, title := title, replayAvailable := replayAvailable,
                                               revision := s.terminals[id].revision + 1)
        && (forall tab :: ListTerminals(n, tab) == ListTerminals(s, tab))
  {
    hide ListTerminals, Placed, OrdersOk;
    InvParts(s);
    UpdateTerminalKeeps(s, id, expected, status, title, replayAvailable);
    var n := Step(s, UpdateTerminal(id, expected, status, title, replayAvailable)).state;
    InvParts(n);
    SameLists(s, n);
  }

  /** The same places and positions show the same lists. */
  lemma SameLists(s: State, n: State)
    requires OrdersOk(s) && OrdersOk(n) && n.terminalOrder == s.terminalOrder && n.terminals.Keys == s.terminals.Keys
    requires forall m :: m in s.terminals ==>
               && n.terminals[m].tab == s.terminals[m].tab && n.terminals[m].archived == s.terminals[m].archived
               && n.terminals[m].position == s.terminals[m].position
    ensures forall tab :: ListTerminals(n, tab) == ListTerminals(s, tab)
  {
    hide ListTerminals, OrdersOk;
    forall tab
      ensures ListTerminals(n, tab) == ListTerminals(s, tab)
    {
      TerminalsSame(s, n, tab);
    }
  }

  /** A new title of at most 160 characters, unless it is empty. */
  function Titled(title: string, old_: string): string {
    var wanted := if title == "" then old_ else title;
    if |wanted| > 160 then wanted[..160] else wanted
  }

  lemma RenameTerminalExactly(s: State, id: Id, title: string)
    requires Inv(s)
    ensures var o := Step(s, RenameTerminal(id, title)); var n := o.state;
      if id !in s.terminals then o == Outcome(s, Refused(NotFound))
      else
        && o.reply == Changed(id) && n == s.(terminals := n.terminals) && OnlyTerminals(s, n, {id})
        && n.terminals[id] == s.terminals[id].(title := Titled(title, s.terminals[id].title), revision := s.terminals[id].revision + 1)
  {
    hide Inv;
  }

  /** What a reorder does to a record: its place in the list asked for, and nothing else. */
  lemma ReorderTerminalsExactly(s: State, session: Id, tab: Option<Id>, ids: seq<Id>)
    requires Inv(s)
    ensures var o, meant := Step(s, ReorderTerminals(session, tab, ids)), Meant(s, session, tab); var n := o.state;
      if meant.None? then o == Outcome(s, Refused(NotFound))
      else if !OpenTabOf(s, meant.value, session) then o == Outcome(s, Refused(Invalid))
      else if !(NoRepeats(ids) && forall m :: m in ids <==> m in ListTerminals(s, meant.value)) then o == Outcome(s, Refused(Invalid))
      else
        && o.reply == Ordered(ids) && n == s.(terminals := n.terminals) && OnlyTerminals(s, n, SetOf(ids))
        && (forall i :: 0 <= i < |ids| ==>
              && ids[i] in s.terminals
              && n.terminals[ids[i]] == s.terminals[ids[i]].(position := i, revision := s.terminals[ids[i]].revision + 1))
  {
    hide ListTerminals, Placed, OrdersOk, NoRepeats, Position;
    InvParts(s);
    var meant := Meant(s, session, tab);
    if meant.Some? {
      var list := ListTerminals(s, meant.value);
      TerminalsOnce(s, meant.value);
      PermutationMembers(ids, list);
      var o := Step(s, ReorderTerminals(session, tab, ids));
      if !o.reply.Refused? {
        TerminalsListAsAsked(s, session, tab, ids);
        forall i | 0 <= i < |ids|
          ensures ids[i] in s.terminals
          ensures o.state.terminals[ids[i]] == s.terminals[ids[i]].(position := i, revision := s.terminals[ids[i]].revision + 1)
        {
          assert ids[i] in ids;
          PositionIs(ids, i);
        }
      }
    }
  }

  lemma PermutationMembers(ids: seq<Id>, current: seq<Id>)
    requires NoRepeats(current)
    ensures IsPermutation(ids, current) <==> NoRepeats(ids) && forall id :: id in ids <==> id in current
  {
    hide NoRepeats;
    if IsPermutation(ids, current) { SameMembers(ids, current); }
  }

  /** A new epoch disconnects every live terminal, and lists them as they were created; the same epoch does nothing. */
  lemma ReconcileExactly(s: State, newEpoch: string, replayable: set<Id>)
    requires Inv(s)
    ensures var o := Step(s, ReconcileStartup(newEpoch, replayable)); var n := o.state;
      if s.epoch == Some(newEpoch) then o == Outcome(s, Ordered([]))
      else
        && o.reply.Ordered? && n == s.(terminals := n.terminals, epoch := Some(newEpoch)) && n.terminals.Keys == s.terminals.Keys
        && (forall m :: m in s.terminals ==>
              if s.terminals[m].status in {Created, Starting, Running, Waiting} then
                && m in o.reply.ids
                && n.terminals[m] == s.terminals[m].(status := Disconnected, replayAvailable := m in replayable,
                                                     revision := s.terminals[m].revision + 1)
              else m !in o.reply.ids && n.terminals[m] == s.terminals[m])
        && NoRepeats(o.reply.ids)
        && (forall i, j :: 0 <= i < j < |o.reply.ids| ==> CreatedBefore(s.terminalOrder, o.reply.ids[i], o.reply.ids[j]))
  {
    hide Placed, NoRepeats, Select, Position;
    if s.epoch != Some(newEpoch) {
      var live := set m | m in s.terminals && IsLive(s.terminals[m].status);
      SelectInOrder(s.terminalOrder, live);
      SelectNoRepeats(s.terminalOrder, live);
    }
  }

  predicate CreatedBefore(order: seq<Id>, a: Id, b: Id) {
    a in order && b in order && Position(order, a) < Position(order, b)
  }

  lemma CreatedLater(order: seq<Id>, a: Id, b: Id)
    requires NoRepeats(order) && order != []
    ensures CreatedBefore(order[1..], a, b) ==> CreatedBefore(order, a, b)
    ensures b in order[1..] ==> CreatedBefore(order, order[0], b)
  {
    if b in order[1..] { PositionLater(order, b); }
    if a in order[1..] { PositionLater(order, a); }
  }

  /** Selecting keeps the order of creation. */
  lemma {:induction false} SelectInOrder(order: seq<Id>, chosen: set<Id>)
    requires NoRepeats(order)
    ensures forall i, j :: 0 <= i < j < |Select(order, chosen)| ==>
              CreatedBefore(order, Select(order, chosen)[i], Select(order, chosen)[j])
  {
    hide NoRepeats, CreatedBefore;
    if order != [] {
      assert order == [order[0]] + order[1..];
      Tails(order);
      SelectInOrder(order[1..], chosen);
      var rest, ids := Select(order[1..], chosen), Select(order, chosen);
      var shift := if order[0] in chosen then 1 else 0;
      assert ids == (if order[0] in chosen then [order[0]] else []) + rest;
      forall i, j | 0 <= i < j < |ids|
        ensures CreatedBefore(order, ids[i], ids[j])
      {
        assert ids[j] == rest[j - shift] && ids[j] in rest;
        if i >= shift {
          assert ids[i] == rest[i - shift];
          assert CreatedBefore(order[1..], rest[i - shift], rest[j - shift]);
        }
        CreatedLater(order, ids[i], ids[j]);
      }
    }
  }

  // ----- tabs -----

  /** A tab is created in an open session, joins its list alone, and takes the focus of a session that has none. */
  lemma CreateTabExactly(s: State, session: Id, title: string)
    requires Inv(s)
    ensures var o, id := Step(s, CreateTab(session, title)), s.nextId; var n := o.state;
      if session !in s.sessions || s.sessions[session].archived then o == Outcome(s, Refused(NotFound))
      else
        && o.reply == Changed(id) && id !in s.tabs && Inv(n)
        && n.tabs == s.tabs[id := Tab(session, if title == "" then "New tab" else title, |ListTabs(s, session)|, None, None, 1, false)]
        && Drops(ListTabs(s, session), ListTabs(n, session), id)
        && (forall other :: other != session ==> ListTabs(n, other) == ListTabs(s, other))
        && OnlySessions(s, n, {session})
        && n.sessions[session] == (if s.sessions[session].activeTab.None?
             then s.sessions[session].(activeTab := Some(id), revision := s.sessions[session].revision + 1) else s.sessions[session])
        && n.terminals == s.terminals && n.epoch == s.epoch
  {
    hide ListTabs, Drops, Placed, OrdersOk, TabCreated, Inv;
    InvParts(s);
    FreshTab(s, s.nextId);
    CreateTabKeeps(s, session, title);
    CreateTabShape(s, session, title);
    var o, id := Step(s, CreateTab(session, title)), s.nextId;
    var n := o.state;
    if !o.reply.Refused? {
      InvParts(n);
      TabsGain(s, n, session, id);
      forall other | other != session
        ensures ListTabs(n, other) == ListTabs(s, other)
      {
        TabsSame(s, n, other);
      }
    }
  }

  lemma CreateTabShape(s: State, session: Id, title: string)
    ensures var o, id := TabCreated(s, session, title), s.nextId; var n := o.state;
      if session !in s.sessions || s.sessions[session].archived then o == Outcome(s, Refused(NotFound))
      else
        && o.reply == Changed(id) && n.tabOrder == s.tabOrder + [id]
        && n.tabs == s.tabs[id := Tab(session, if title == "" then "New tab" else title, |ListTabs(s, session)|, None, None, 1, false)]
        && OnlySessions(s, n, {session})
        && n.sessions[session] == (if s.sessions[session].activeTab.None?
             then s.sessions[session].(activeTab := Some(id), revision := s.sessions[session].revision + 1) else s.sessions[session])
        && n.terminals == s.terminals && n.epoch == s.epoch
  {
    hide Select, SortBy;
  }

  lemma RenameTabExactly(s: State, id: Id, title: string)
    requires Inv(s)
    ensures var o := Step(s, RenameTab(id, title)); var n := o.state;
      if id !in s.tabs then o == Outcome(s, Refused(NotFound))
      else
        && o.reply == Changed(id) && n == s.(tabs := n.tabs) && OnlyTabs(s, n, {id})
        && n.tabs[id] == s.tabs[id].(title := Titled(title, s.tabs[id].title), revision := s.tabs[id].revision + 1)
  {
    hide Inv;
  }

  lemma SaveTabLayoutExactly(s: State, id: Id, layout: string, expected: Option<nat>)
    requires Inv(s)
    ensures var o := Step(s, SaveTabLayout(id, layout, expected)); var n := o.state;
      if |layout| > 65536 then o == Outcome(s, Refused(Invalid))
      else if id !in s.tabs || s.tabs[id].archived then o == Outcome(s, Refused(NotFound))
      else if expected.Some? && expected.value != s.tabs[id].revision then o == Outcome(s, Refused(Conflict))
      else
        && o.reply == Changed(id) && n == s.(tabs := n.tabs) && OnlyTabs(s, n, {id})
        && n.tabs[id] == s.tabs[id].(layout := Some(layout), revision := s.tabs[id].revision + 1)
  {
    hide Inv;
  }

  lemma TabsOnce(s: State, session: Id)
    requires OrdersOk(s)
    ensures NoRepeats(ListTabs(s, session)) && forall t :: t in ListTabs(s, session) <==> OpenTabOf(s, t, session)
  {
    hide NoRepeats, ListTabs;
    ListsAre(s, session, 0);
    ListingMembers(ListTabs(s, session), s.tabOrder, OpenTabs(s, session), Positions(s).1);
  }

  lemma ReorderTabsExactly(s: State, session: Id, ids: seq<Id>)
    requires Inv(s)
    ensures var o := Step(s, ReorderTabs(session, ids)); var n := o.state;
      if !(NoRepeats(ids) && forall t :: t in ids <==> t in ListTabs(s, session)) then o == Outcome(s, Refused(Invalid))
      else
        && o.reply == Ordered(ids) && n == s.(tabs := n.tabs) && OnlyTabs(s, n, SetOf(ids))
        && (forall i :: 0 <= i < |ids| ==>
              && ids[i] in s.tabs
              && n.tabs[ids[i]] == s.tabs[ids[i]].(position := i, revision := s.tabs[ids[i]].revision + 1))
  {
    hide ListTabs, Placed, OrdersOk, NoRepeats, Position;
    InvParts(s);
    TabsOnce(s, session);
    PermutationMembers(ids, ListTabs(s, session));
    var o := Step(s, ReorderTabs(session, ids));
    if !o.reply.Refused? {
      TabsListAsAsked(s, session, ids);
      forall i | 0 <= i < |ids|
        ensures ids[i] in s.tabs
        ensures o.state.tabs[ids[i]] == s.tabs[ids[i]].(position := i, revision := s.tabs[ids[i]].revision + 1)
      {
        assert ids[i] in ids;
        PositionIs(ids, i);
      }
    }
  }

  /** Selecting a tab brings the terminal it shows; selecting none clears both. */
  lemma SelectTabExactly(s: State, session: Id, tab: Option<Id>)
    requires Inv(s)
    ensures var o := Step(s, SelectTab(session, tab)); var n := o.state;
      if tab.Some? && !OpenTabOf(s, tab.value, session) then o == Outcome(s, Refused(Invalid))
      else if session !in s.sessions then o == Outcome(s, Refused(NotFound))
      else
        && o.reply == Changed(session) && n == s.(sessions := n.sessions) && OnlySessions(s, n, {session})
        && n.sessions[session] == s.sessions[session].(
             activeTab := tab, activeTerminal := if tab.Some? then s.tabs[tab.value].activeTerminal else None,
             revision := s.sessions[session].revision + 1)
  {
    hide Inv;
  }

  /**
    Closing an open tab closes the terminals in its list and takes it out of its session's list, which gets
    one new tab if that left it empty; a session focused on it turns to the first tab then listed and
    what that shows. No other record changes.
  */
  lemma CloseTabExactly(s: State, id: Id, stop: bool)
    requires Inv(s) && id in s.tabs && !s.tabs[id].archived
    ensures var o, was, session := Step(s, CloseTab(id, stop)), s.tabs[id], s.tabs[id].session; var n := o.state;
      && o.reply == Changed(id) && Inv(n)
      && OnlyTerminals(s, n, SetOf(ListTerminals(s, id)))
      && (forall m :: m in ListTerminals(s, id) ==> m in s.terminals && Closes(n.terminals[m], s.terminals[m], stop))
      && ListTerminals(n, id) == [] && (forall other :: other != id ==> ListTerminals(n, other) == ListTerminals(s, other))
      && (forall t :: t in s.tabs ==>
            t in n.tabs && n.tabs[t] == if t == id then was.(archived := true, revision := was.revision + 1) else s.tabs[t])
      && (if ListTabs(s, session) == [id] then
            var added := s.nextId;
            && added !in s.tabs && ListTabs(n, session) == [added]
            && n.tabs.Keys == s.tabs.Keys + {added} && n.tabs[added] == Tab(session, "Window 1", 0, None, None, 1, false)
          else n.tabs.Keys == s.tabs.Keys && Drops(ListTabs(n, session), ListTabs(s, session), id))
      && ListTabs(n, session) != [] && ListTabs(n, session)[0] in n.tabs
      && session in s.sessions && OnlySessions(s, n, {session})
      && n.sessions[session] == (if s.sessions[session].activeTab == Some(id)
           then s.sessions[session].(activeTab := Some(ListTabs(n, session)[0]),
                                     activeTerminal := n.tabs[ListTabs(n, session)[0]].activeTerminal,
                                     revision := s.sessions[session].revision + 1)
           else s.sessions[session])
      && n.epoch == s.epoch
  {
    hide ListTabs, ListTerminals, Placed, OrdersOk, Inv, TabClosed, WithoutTab, WithReplacement, Drops, Closes, NoRepeats, First;
    InvParts(s);
    FreshTab(s, s.nextId);
    CloseTabKeeps(s, id, stop);
    CloseTabShape(s, id, stop);
    var session, closed := s.tabs[id].session, WithoutTab(s, id, stop);
    var kept, n := WithReplacement(closed, session), TabClosed(s, id, stop).state;
    InvParts(n);
    EmptiedRecords(s, id, stop);
    ReplacedRecords(closed, session);
    OthersOpen(s, closed, id, session);
    assert n == kept.(sessions := n.sessions) && n.sessions.Keys == kept.sessions.Keys;
    KeptOrders(kept, n);
    TabsFollow(s, kept, id, session);
    CloseReply(s, id, stop);
    TabsSame(kept, n, session);
    SomeTab(n, session);
    FirstIs(ListTabs(kept, session));
    ListTabsOpen(kept, session);
    forall m | m in ListTerminals(s, id)
      ensures m in s.terminals && n.terminals[m].archived && n.terminals[m].tab == s.terminals[m].tab
    {
      ClosesArchives(closed.terminals[m], s.terminals[m], stop);
    }
    EmptiedLists(s, n, id);
  }

  lemma OthersOpen(s: State, closed: State, id: Id, session: Id)
    requires OpenTabOf(s, id, session)
    requires closed.tabs == s.tabs[id := s.tabs[id].(archived := true, revision := s.tabs[id].revision + 1)]
    ensures OpenTabs(closed, session) != {} <==> exists t :: t != id && OpenTabOf(s, t, session)
  {
    if t :| t in OpenTabs(closed, session) {
      assert t != id && OpenTabOf(s, t, session);
    }
    if t :| t != id && OpenTabOf(s, t, session) {
      assert t in OpenTabs(closed, session);
    }
  }

  lemma SomeTab(s: State, session: Id)
    requires Inv(s) && session in s.sessions
    ensures ListTabs(s, session) != []
  {
    hide ListTabs, NoRepeats;
    TabsOnce(s, session);
    assert HasTab(s, session);
    var t :| OpenTabOf(s, t, session);
    assert t in ListTabs(s, session);
  }

  lemma FirstIs(ids: seq<Id>)
    requires ids != []
    ensures First(ids) == Some(ids[0]) && ids[0] in ids
  {
  }

  lemma CloseReply(s: State, id: Id, stop: bool)
    requires Placed(s) && id in s.tabs
    ensures TabClosed(s, id, stop).reply == Changed(id)
  {
    hide ListTabs;
    assert TabOk(s, id);
  }

  lemma EmptiedRecords(s: State, id: Id, stop: bool)
    requires OrdersOk(s) && id in s.tabs && !s.tabs[id].archived
    ensures var closed := WithoutTab(s, id, stop);
      && closed == s.(tabs := closed.tabs, terminals := closed.terminals)
      && closed.tabs == s.tabs[id := s.tabs[id].(archived := true, revision := s.tabs[id].revision + 1)]
      && OnlyTerminals(s, closed, SetOf(ListTerminals(s, id)))
      && (forall m :: m in ListTerminals(s, id) ==> m in s.terminals && Closes(closed.terminals[m], s.terminals[m], stop))
  {
    hide ListTerminals, OrdersOk, NoRepeats;
    TerminalsOnce(s, id);
  }

  lemma ReplacedRecords(closed: State, session: Id)
    ensures var kept := WithReplacement(closed, session); var added := closed.nextId;
      && kept == closed.(tabs := kept.tabs, tabOrder := kept.tabOrder, nextId := kept.nextId)
      && (if OpenTabs(closed, session) != {} then kept == closed
          else kept.tabs == closed.tabs[added := Tab(session, "Window 1", 0, None, None, 1, false)]
               && kept.tabOrder == closed.tabOrder + [added])
  {
  }

  lemma KeptOrders(kept: State, n: State)
    requires OrdersOk(n) && n == kept.(sessions := n.sessions) && n.sessions.Keys == kept.sessions.Keys
    ensures OrdersOk(kept)
  {
  }

  lemma TabsFollow(s: State, kept: State, id: Id, session: Id)
    requires OrdersOk(s) && OpenTabOf(s, id, session)
    requires s.nextId !in s.tabs && OrdersOk(kept)
    requires var shut := s.tabs[id := s.tabs[id].(archived := true, revision := s.tabs[id].revision + 1)];
      if exists t :: t != id && OpenTabOf(s, t, session) then kept.tabs == shut && kept.tabOrder == s.tabOrder
      else kept.tabs == shut[s.nextId := Tab(session, "Window 1", 0, None, None, 1, false)] && kept.tabOrder == s.tabOrder + [s.nextId]
    ensures if ListTabs(s, session) == [id] then ListTabs(kept, session) == [s.nextId] && s.nextId in kept.tabs
            else kept.tabs.Keys == s.tabs.Keys && Drops(ListTabs(kept, session), ListTabs(s, session), id)
  {
    hide ListTabs, Drops, OrdersOk, NoRepeats;
    TabsOnce(s, session);
    TabsOnce(kept, session);
    if t :| t != id && OpenTabOf(s, t, session) {
      TabsLose(s, kept, session, id);
      assert t in ListTabs(s, session);
    } else {
      OneListed(ListTabs(s, session), id);
      forall x
        ensures OpenTabOf(kept, x, session) <==> x == s.nextId
      {
        if x != s.nextId && x != id { assert OpenTabOf(kept, x, session) <==> OpenTabOf(s, x, session); }
      }
      OneListed(ListTabs(kept, session), s.nextId);
    }
  }

  lemma EmptiedLists(s: State, n: State, id: Id)
    requires OrdersOk(s) && OrdersOk(n) && n.terminalOrder == s.terminalOrder
    requires OnlyTerminals(s, n, SetOf(ListTerminals(s, id)))
    requires forall m :: m in ListTerminals(s, id) ==> m in s.terminals && n.terminals[m].archived
    requires forall m :: m in ListTerminals(s, id) ==> n.terminals[m].tab == s.terminals[m].tab
    ensures ListTerminals(n, id) == [] && (forall other :: other != id ==> ListTerminals(n, other) == ListTerminals(s, other))
  {
    hide ListTerminals, OrdersOk, NoRepeats;
    TerminalsOnce(s, id);
    TerminalsOnce(n, id);
    SomeMember(ListTerminals(n, id));
    forall other | other != id
      ensures ListTerminals(n, other) == ListTerminals(s, other)
    {
      TerminalsSame(s, n, other);
    }
  }

  /** Closing a closed tab, or none, does nothing. */
  lemma CloseTabAgain(s: State, id: Id, stop: bool)
    requires Inv(s) && !(id in s.tabs && !s.tabs[id].archived)
    ensures Step(s, CloseTab(id, stop)) == Outcome(s, if id in s.tabs then Changed(id) else Refused(NotFound))
  {
    hide ListTabs, OrdersOk;
    if id in s.tabs {
      var session := s.tabs[id].session;
      assert TabOk(s, id) && HasTab(s, session) && FocusOk(s, session);
      var t :| OpenTabOf(s, t, session);
      assert t in OpenTabs(s, session);
      forall m | m in s.terminals
        ensures m !in OpenTerminals(s, id)
      {
        assert TerminalOk(s, m);
      }
      assert (map m | m in s.terminals :: if m in OpenTerminals(s, id) then ArchivedTerminal(s.terminals[m], stop) else s.terminals[m])
          == s.terminals;
    }
  }

  // ----- sessions -----

  /** A session is created open, with one tab, and joins the list alone. */
  ghost predicate Opens(n: State, s: State, id: Id, title: string, position: nat) {
    && id !in s.sessions && id in n.sessions
    && n.sessions[id] == Session(title, position, n.sessions[id].activeTab, None, 2, false)
    && (forall x :: x in s.sessions ==> x in n.sessions && n.sessions[x] == s.sessions[x])
    && n.sessions.Keys == s.sessions.Keys + {id}
    && (exists tab: Id :: tab !in s.tabs && n.tabs == s.tabs[tab := Tab(id, "Window 1", 0, None, None, 1, false)]
          && n.sessions[id].activeTab == Some(tab))
    && n.terminals == s.terminals && n.epoch == s.epoch
  }

  lemma CreateSessionExactly(s: State, title: string)
    requires Inv(s)
    ensures var o, id := Step(s, CreateSession(title)), s.nextId;
      && o.reply == Changed(id) && Inv(o.state)
      && Opens(o.state, s, id, if title == "" then "New session" else title, |ListSessions(s)|)
      && Drops(ListSessions(s), ListSessions(o.state), id)
  {
    hide ListSessions, Drops, Placed, OrdersOk, Inv, WithSession;
    InvParts(s);
    CreateSessionKeeps(s, title);
    var o := Step(s, CreateSession(title));
    InvParts(o.state);
    SessionsLength(s);
    WithSessionOpens(s, if title == "" then "New session" else title, |ListSessions(s)|);
    SessionsGain(s, o.state, s.nextId);
  }

  lemma SessionsLength(s: State)
    requires OrdersOk(s)
    ensures |ListSessions(s)| == |Select(s.sessionOrder, OpenSessions(s))|
  {
    hide SortBy, Select;
  }

  lemma WithSessionOpens(s: State, title: string, position: nat)
    requires OrdersOk(s)
    ensures var n := WithSession(s, title, position);
      && Opens(n, s, s.nextId, title, position) && n.sessionOrder == s.sessionOrder + [s.nextId]
      && OpenSessions(n) == OpenSessions(s) + {s.nextId} && s.nextId !in OpenSessions(s)
  {
    FreshTab(s, s.nextId);
    FreshTab(s, s.nextId + 1);
    var n := WithSession(s, title, position);
    assert s.nextId + 1 !in s.tabs && n.tabs == s.tabs[s.nextId + 1 := Tab(s.nextId, "Window 1", 0, None, None, 1, false)];
  }

  lemma RenameSessionExactly(s: State, id: Id, title: string)
    requires Inv(s)
    ensures var o := Step(s, RenameSession(id, title)); var n := o.state;
      if id !in s.sessions then o == Outcome(s, Refused(NotFound))
      else
        && o.reply == Changed(id) && n == s.(sessions := n.sessions) && OnlySessions(s, n, {id})
        && n.sessions[id] == s.sessions[id].(title := if title == "" then s.sessions[id].title else title,
                                             revision := s.sessions[id].revision + 1)
  {
    hide Inv;
  }

  lemma SessionsOnce(s: State)
    requires OrdersOk(s)
    ensures NoRepeats(ListSessions(s)) && forall x :: x in ListSessions(s) <==> Open(s, x)
  {
    hide NoRepeats, ListSessions;
    ListsAre(s, 0, 0);
    ListingMembers(ListSessions(s), s.sessionOrder, OpenSessions(s), Positions(s).0);
  }

  lemma ReorderSessionsExactly(s: State, ids: seq<Id>)
    requires Inv(s)
    ensures var o := Step(s, ReorderSessions(ids)); var n := o.state;
      if !(NoRepeats(ids) && forall x :: x in ids <==> x in ListSessions(s)) then o == Outcome(s, Refused(Invalid))
      else
        && o.reply == Ordered(ids) && n == s.(sessions := n.sessions) && OnlySessions(s, n, SetOf(ids))
        && (forall i :: 0 <= i < |ids| ==>
              && ids[i] in s.sessions
              && n.sessions[ids[i]] == s.sessions[ids[i]].(position := i, revision := s.sessions[ids[i]].revision + 1))
  {
    hide ListSessions, Placed, OrdersOk, NoRepeats, Position, Select;
    InvParts(s);
    SessionsOnce(s);
    OpenOnce(s);
    PermutationMembers(ids, Select(s.sessionOrder, OpenSessions(s)));
    var o := Step(s, ReorderSessions(ids));
    if !o.reply.Refused? {
      SessionsListAsAsked(s, ids);
      forall i | 0 <= i < |ids|
        ensures ids[i] in s.sessions
        ensures o.state.sessions[ids[i]] == s.sessions[ids[i]].(position := i, revision := s.sessions[ids[i]].revision + 1)
      {
        assert ids[i] in ids;
        PositionIs(ids, i);
      }
    }
  }

  lemma OpenOnce(s: State)
    requires OrdersOk(s)
    ensures NoRepeats(Select(s.sessionOrder, OpenSessions(s)))
    ensures forall x :: x in Select(s.sessionOrder, OpenSessions(s)) <==> Open(s, x)
  {
    hide NoRepeats, Select;
    SelectNoRepeats(s.sessionOrder, OpenSessions(s));
  }

  /** Archiving takes a session out of the list; if it was the last one, a new session takes its place. */
  lemma ArchiveSessionExactly(s: State, id: Id)
    requires Inv(s)
    ensures var o := Step(s, ArchiveSession(id)); var n := o.state;
      if id !in s.sessions then o == Outcome(s, Refused(NotFound))
      else if s.sessions[id].archived then o == Outcome(s, Changed(id))
      else
        var archived := s.sessions[id].(archived := true, revision := s.sessions[id].revision + 1);
        && o.reply == Changed(id)
        && (if ListSessions(s) == [id] then
              && Opens(n, s.(sessions := s.sessions[id := archived]), s.nextId, "Session 1", 0)
              && ListSessions(n) == [s.nextId]
            else
              && n == s.(sessions := s.sessions[id := archived])
              && Drops(ListSessions(n), ListSessions(s), id))
  {
    hide ListSessions, Drops, Placed, OrdersOk, NoRepeats, WithSession, Opens;
    InvParts(s);
    if id in s.sessions {
      var x :| Open(s, x);
      assert x in OpenSessions(s);
      if !s.sessions[id].archived {
        ArchivedLists(s, id);
      }
    }
  }

  lemma ArchivedLists(s: State, id: Id)
    requires OrdersOk(s) && Open(s, id)
    ensures var o := Step(s, ArchiveSession(id)); var n := o.state;
      var next := s.(sessions := s.sessions[id := s.sessions[id].(archived := true, revision := s.sessions[id].revision + 1)]);
      && o.reply == Changed(id)
      && if ListSessions(s) == [id] then Opens(n, next, s.nextId, "Session 1", 0) && ListSessions(n) == [s.nextId]
         else n == next && Drops(ListSessions(n), ListSessions(s), id)
  {
    hide ListSessions, Drops, OrdersOk, NoRepeats, WithSession, Opens;
    var next := s.(sessions := s.sessions[id := s.sessions[id].(archived := true, revision := s.sessions[id].revision + 1)]);
    SameOrders(s, next);
    SessionsOnce(s);
    var n := Step(s, ArchiveSession(id)).state;
    assert OpenSessions(next) == OpenSessions(s) - {id};
    if x :| x in OpenSessions(next) {
      assert n == next && x in ListSessions(s) && x != id;
      SessionsLose(s, next, id);
    } else {
      assert n == WithSession(next, "Session 1", 0);
      assert forall x :: Open(s, x) && x != id ==> x in OpenSessions(next);
      OneListed(ListSessions(s), id);
      WithSessionOpens(next, "Session 1", 0);
      WithSessionOrders(next, "Session 1", 0);
      SessionsOnce(n);
      assert forall x :: Open(n, x) <==> x in OpenSessions(n);
      OneListed(ListSessions(n), s.nextId);
    }
  }

  lemma WithSessionOrders(s: State, title: string, position: nat)
    requires OrdersOk(s)
    ensures OrdersOk(WithSession(s, title, position))
  {
    hide NoRepeats;
    FreshTab(s, s.nextId);
    FreshTab(s, s.nextId + 1);
    OrderAdd(s.sessionOrder, s.sessions.Keys, s.nextId, s.nextId, s.nextId + 2);
    OrderAdd(s.tabOrder, s.tabs.Keys, s.nextId, s.nextId + 1, s.nextId + 2);
    var n := WithSession(s, title, position);
    assert n.sessions.Keys == s.sessions.Keys + {s.nextId} && n.tabs.Keys == s.tabs.Keys + {s.nextId + 1};
  }

  /** Restoring puts a session back in the list, where its position says. */
  lemma RestoreSessionExactly(s: State, id: Id)
    requires Inv(s)
    ensures var o := Step(s, RestoreSession(id)); var n := o.state;
      if id !in s.sessions then o == Outcome(s, Refused(NotFound))
      else
        && o.reply == Changed(id) && n == s.(sessions := n.sessions) && OnlySessions(s, n, {id})
        && n.sessions[id] == s.sessions[id].(archived := false, revision := s.sessions[id].revision + 1)
        && (if s.sessions[id].archived then Drops(ListSessions(s), ListSessions(n), id) else ListSessions(n) == ListSessions(s))
  {
    hide ListSessions, Drops, Placed, OrdersOk;
    InvParts(s);
    var n := Step(s, RestoreSession(id)).state;
    if id in s.sessions {
      SameOrders(s, n);
      if s.sessions[id].archived {
        assert OpenSessions(n) == OpenSessions(s) + {id};
        SessionsGain(s, n, id);
      } else {
        SessionsSame(s, n);
      }
    }
  }
}
