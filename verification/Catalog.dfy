/**
  The workspace catalog: sessions, tabs and terminals with shared focus pointers. Each record list is
  kept as its order of creation and a map by id; ids come from a counter and timestamps are left out.
*/
module Catalog {
  import opened Wrappers

  type Id = nat

  const MAX_LAYOUT_BYTES: nat := 65_536
  const MAX_TITLE: nat := 160

  datatype Status = Created | Starting | Running | Waiting | Succeeded | Failed | Cancelled | Disconnected

  datatype Session = Session(
    title: string, position: nat, activeTab: Option<Id>, activeTerminal: Option<Id>, revision: nat, archived: bool)

  datatype Tab = Tab(
    session: Id, title: string, position: nat, activeTerminal: Option<Id>, layout: Option<string>, revision: nat, archived: bool)

  datatype Terminal = Terminal(
    session: Id, tab: Option<Id>, title: string, position: nat, status: Status, replayAvailable: bool, revision: nat, archived: bool)

  datatype State = State(
    sessions: map<Id, Session>, sessionOrder: seq<Id>,
    tabs: map<Id, Tab>, tabOrder: seq<Id>,
    terminals: map<Id, Terminal>, terminalOrder: seq<Id>,
    nextId: Id, epoch: Option<string>)

  datatype Error = NotFound | Conflict | Invalid

  datatype Reply = Changed(id: Id) | Ordered(ids: seq<Id>) | Refused(error: Error)

  /** A command's outcome; a refused one changes nothing, since the store commits only a whole new state. */
  datatype Outcome = Outcome(state: State, reply: Reply)

  // ----- lists in display order -----

  /** Before the first element whose position is not smaller: inserting from the back, the sort is stable. */
  function InsertBy(ids: seq<Id>, id: Id, position: map<Id, nat>): (sorted: seq<Id>)
    requires id in position && forall i :: i in ids ==> i in position
  {
    if ids == [] then [id]
    else if position[id] <= position[ids[0]] then [id] + ids
    else [ids[0]] + InsertBy(ids[1..], id, position)
  }

  function SortBy(ids: seq<Id>, position: map<Id, nat>): (sorted: seq<Id>)
    requires forall i :: i in ids ==> i in position
    ensures forall i :: i in sorted <==> i in ids
    ensures |sorted| == |ids|
  {
    if ids == [] then []
    else
      var rest := SortBy(ids[1..], position);
      InsertByMembers(rest, ids[0], position);
      assert ids == [ids[0]] + ids[1..];
      InsertBy(rest, ids[0], position)
  }

  lemma {:induction false} InsertByMembers(ids: seq<Id>, id: Id, position: map<Id, nat>)
    requires id in position && forall i :: i in ids ==> i in position
    ensures forall i :: i in InsertBy(ids, id, position) <==> i == id || i in ids
    ensures |InsertBy(ids, id, position)| == |ids| + 1
  {
    if ids != [] {
      assert ids == [ids[0]] + ids[1..];
      if position[id] > position[ids[0]] { InsertByMembers(ids[1..], id, position); }
    }
  }

  function Select(ids: seq<Id>, chosen: set<Id>): (selected: seq<Id>)
    ensures forall i :: i in selected <==> i in ids && i in chosen
  {
    if ids == [] then []
    else
      assert ids == [ids[0]] + ids[1..];
      (if ids[0] in chosen then [ids[0]] else []) + Select(ids[1..], chosen)
  }

  function OpenSessions(s: State): set<Id> {
    set id | id in s.sessions && !s.sessions[id].archived
  }

  function OpenTabs(s: State, session: Id): set<Id> {
    set id | id in s.tabs && s.tabs[id].session == session && !s.tabs[id].archived
  }

  function OpenTerminals(s: State, tab: Id): set<Id> {
    set id | id in s.terminals && s.terminals[id].tab == Some(tab) && !s.terminals[id].archived
  }

  function ListSessions(s: State): seq<Id> {
    SortBy(Select(s.sessionOrder, OpenSessions(s)), map id | id in s.sessions :: s.sessions[id].position)
  }

  function ListTabs(s: State, session: Id): seq<Id> {
    SortBy(Select(s.tabOrder, OpenTabs(s, session)), map id | id in s.tabs :: s.tabs[id].position)
  }

  function ListTerminals(s: State, tab: Id): seq<Id> {
    SortBy(Select(s.terminalOrder, OpenTerminals(s, tab)), map id | id in s.terminals :: s.terminals[id].position)
  }

  function First(ids: seq<Id>): Option<Id> {
    if ids == [] then None else Some(ids[0])
  }

  function FirstOther(ids: seq<Id>, id: Id): (other: Option<Id>)
    ensures other.Some? ==> other.value in ids && other.value != id
    ensures other.None? ==> forall i :: i in ids ==> i == id
  {
    if ids == [] then None
    else
      assert ids == [ids[0]] + ids[1..];
      if ids[0] != id then Some(ids[0]) else FirstOther(ids[1..], id)
  }

  function SetOf(ids: seq<Id>): set<Id> {
    set id | id in ids
  }

  predicate NoRepeats(ids: seq<Id>) {
    forall i, j :: 0 <= i < j < |ids| ==> ids[i] != ids[j]
  }

  /** Both list the same records, each once. */
  predicate IsPermutation(ids: seq<Id>, current: seq<Id>) {
    NoRepeats(ids) && NoRepeats(current) && SetOf(ids) == SetOf(current)
  }

  // ----- pieces -----

  function NonEmpty(trimmed: string, fallback: string): string {
    if trimmed == "" then fallback else trimmed
  }

  function Shortened(title: string): string {
    if |title| > MAX_TITLE then title[..MAX_TITLE] else title
  }

  function NewSession(title: string, position: nat, tab: Id): Session {
    Session(title, position, Some(tab), None, 2, false)
  }

  function NewTab(session: Id, title: string, position: nat): Tab {
    Tab(session, title, position, None, None, 1, false)
  }

  function AddSession(s: State, id: Id, session: Session): State {
    s.(sessions := s.sessions[id := session], sessionOrder := s.sessionOrder + [id])
  }

  function AddTab(s: State, id: Id, tab: Tab): State {
    s.(tabs := s.tabs[id := tab], tabOrder := s.tabOrder + [id])
  }

  /** A session with its first tab. */
  function WithSession(s: State, title: string, position: nat): State {
    AddTab(AddSession(s, s.nextId, NewSession(title, position, s.nextId + 1)), s.nextId + 1,
           NewTab(s.nextId, "Window 1", 0)).(nextId := s.nextId + 2)
  }

  function EnsureVisible(s: State): State {
    if OpenSessions(s) != {} then s else WithSession(s, "Session 1", 0)
  }

  function TouchedSession(session: Session): Session {
    session.(revision := session.revision + 1)
  }

  function TouchedTab(tab: Tab): Tab {
    tab.(revision := tab.revision + 1)
  }

  function TouchedTerminal(terminal: Terminal): Terminal {
    terminal.(revision := terminal.revision + 1)
  }

  predicate IsLive(status: Status) {
    status.Created? || status.Starting? || status.Running? || status.Waiting?
  }

  function ArchivedTerminal(terminal: Terminal, stop: bool): Terminal {
    var stopped := if stop && IsLive(terminal.status) then terminal.(status := Cancelled, replayAvailable := false) else terminal;
    TouchedTerminal(stopped.(archived := true))
  }

  predicate OpenTabOf(s: State, tab: Id, session: Id) {
    tab in s.tabs && s.tabs[tab].session == session && !s.tabs[tab].archived
  }

  predicate OpenTerminalIn(s: State, terminal: Id, tab: Id) {
    terminal in s.terminals && s.terminals[terminal].tab == Some(tab) && !s.terminals[terminal].archived
  }

  /** Focus a terminal: its tab's pointer, then its session's two; or clear the session's terminal. */
  function Selected(s: State, session: Id, terminal: Option<Id>): Outcome {
    if terminal.Some?
       && (terminal.value !in s.terminals || s.terminals[terminal.value].session != session
           || s.terminals[terminal.value].archived || s.terminals[terminal.value].tab.None?)
    then Outcome(s, Refused(Invalid))
    else
      var tab := if terminal.Some? then s.terminals[terminal.value].tab else None;
      if tab.Some? && tab.value !in s.tabs then Outcome(s, Refused(NotFound))
      else
        var focused := if tab.None? then s
          else s.(tabs := s.tabs[tab.value := TouchedTab(s.tabs[tab.value].(activeTerminal := terminal))]);
        if session !in s.sessions then Outcome(s, Refused(NotFound))
        else
          var record := s.sessions[session];
          Outcome(focused.(sessions := s.sessions[session := TouchedSession(
                    record.(activeTab := if tab.Some? then tab else record.activeTab, activeTerminal := terminal))]),
                  Changed(session))
  }

  // ----- commands -----

  datatype Command =
    | CreateSession(title: string)
    | RenameSession(session: Id, title: string)
    | ReorderSessions(ids: seq<Id>)
    | ArchiveSession(session: Id)
    | RestoreSession(session: Id)
    | CreateTab(session: Id, title: string)
    | RenameTab(tab: Id, title: string)
    | SaveTabLayout(tab: Id, layout: string, expected: Option<nat>)
    | ReorderTabs(session: Id, ids: seq<Id>)
    | SelectTab(session: Id, optionalTab: Option<Id>)
    | CloseTab(tab: Id, stop: bool)
    | CreateTerminal(session: Id, optionalTab: Option<Id>, title: string)
    | UpdateTerminal(terminal: Id, expected: Option<nat>, status: Status, newTitle: string, replayAvailable: bool)
    | RenameTerminal(terminal: Id, title: string)
    | SelectTerminal(session: Id, optionalTerminal: Option<Id>)
    | ReorderTerminals(session: Id, optionalTab: Option<Id>, ids: seq<Id>)
    | MoveTerminal(terminal: Id, tab: Id)
    | CloseTerminal(terminal: Id, stop: bool)
    | ReconcileStartup(newEpoch: string, replayable: set<Id>)

  function Refuse(s: State, error: Error): Outcome {
    Outcome(s, Refused(error))
  }

  function SessionCreated(s: State, title: string): Outcome {
    Outcome(WithSession(s, NonEmpty(title, "New session"), |Select(s.sessionOrder, OpenSessions(s))|), Changed(s.nextId))
  }

  function SessionRenamed(s: State, id: Id, title: string): Outcome {
    if id !in s.sessions then Refuse(s, NotFound)
    else
      var session := s.sessions[id];
      Outcome(s.(sessions := s.sessions[id := TouchedSession(session.(title := NonEmpty(title, session.title)))]), Changed(id))
  }

  function Position(ids: seq<Id>, id: Id): (i: nat)
    requires id in ids
    ensures i < |ids| && ids[i] == id
  {
    if ids[0] == id then 0 else 1 + Position(ids[1..], id)
  }

  /** Each listed record takes its place in the list as its position. */
  function SessionsAt(sessions: map<Id, Session>, ids: seq<Id>): map<Id, Session> {
    map id | id in sessions :: if id in ids then TouchedSession(sessions[id].(position := Position(ids, id))) else sessions[id]
  }

  function TabsAt(tabs: map<Id, Tab>, ids: seq<Id>): map<Id, Tab> {
    map id | id in tabs :: if id in ids then TouchedTab(tabs[id].(position := Position(ids, id))) else tabs[id]
  }

  function TerminalsAt(terminals: map<Id, Terminal>, ids: seq<Id>): map<Id, Terminal> {
    map id | id in terminals :: if id in ids then TouchedTerminal(terminals[id].(position := Position(ids, id))) else terminals[id]
  }

  function SessionsReordered(s: State, ids: seq<Id>): Outcome {
    if !IsPermutation(ids, Select(s.sessionOrder, OpenSessions(s))) then Refuse(s, Invalid)
    else
      var moved := s.(sessions := SessionsAt(s.sessions, ids));
      Outcome(moved, Ordered(ListSessions(moved)))
  }

  function SessionArchived(s: State, id: Id): Outcome {
    if id !in s.sessions then Refuse(s, NotFound)
    else
      var session := s.sessions[id];
      var next := if session.archived then s else s.(sessions := s.sessions[id := TouchedSession(session.(archived := true))]);
      Outcome(EnsureVisible(next), Changed(id))
  }

  function SessionRestored(s: State, id: Id): Outcome {
    if id !in s.sessions then Refuse(s, NotFound)
    else Outcome(s.(sessions := s.sessions[id := TouchedSession(s.sessions[id].(archived := false))]), Changed(id))
  }

  function TabCreated(s: State, session: Id, title: string): Outcome {
    if session !in OpenSessions(s) then Refuse(s, NotFound)
    else
      var id := s.nextId;
      var added := AddTab(s, id, NewTab(session, NonEmpty(title, "New tab"), |Select(s.tabOrder, OpenTabs(s, session))|));
      var record := s.sessions[session];
      Outcome(added.(nextId := id + 1,
                     sessions := if record.activeTab.None?
                                 then s.sessions[session := TouchedSession(record.(activeTab := Some(id)))] else s.sessions),
              Changed(id))
  }

  function TabRenamed(s: State, id: Id, title: string): Outcome {
    if id !in s.tabs then Refuse(s, NotFound)
    else
      var tab := s.tabs[id];
      Outcome(s.(tabs := s.tabs[id := TouchedTab(tab.(title := Shortened(NonEmpty(title, tab.title))))]), Changed(id))
  }

  function TabLayoutSaved(s: State, id: Id, layout: string, expected: Option<nat>): Outcome {
    if |layout| > MAX_LAYOUT_BYTES then Refuse(s, Invalid)
    else if id !in s.tabs || s.tabs[id].archived then Refuse(s, NotFound)
    else if expected.Some? && expected.value != s.tabs[id].revision then Refuse(s, Conflict)
    else Outcome(s.(tabs := s.tabs[id := TouchedTab(s.tabs[id].(layout := Some(layout)))]), Changed(id))
  }

  function TabsReordered(s: State, session: Id, ids: seq<Id>): Outcome {
    if !IsPermutation(ids, ListTabs(s, session)) then Refuse(s, Invalid)
    else
      var moved := s.(tabs := TabsAt(s.tabs, ids));
      Outcome(moved, Ordered(ListTabs(moved, session)))
  }

  function TabSelected(s: State, session: Id, tab: Option<Id>): Outcome {
    if tab.Some? && !OpenTabOf(s, tab.value, session) then Refuse(s, Invalid)
    else if session !in s.sessions then Refuse(s, NotFound)
    else
      Outcome(s.(sessions := s.sessions[session := TouchedSession(s.sessions[session].(
                activeTab := tab, activeTerminal := if tab.Some? then s.tabs[tab.value].activeTerminal else None))]),
              Changed(session))
  }

  /** The tab's terminals are archived, then the tab, and its session always keeps an open tab. */
  function TabClosed(s: State, id: Id, stop: bool): Outcome {
    if id !in s.tabs then Refuse(s, NotFound)
    else
      var session := s.tabs[id].session;
      var emptied := s.(terminals := map m | m in s.terminals ::
        if m in OpenTerminals(s, id) then ArchivedTerminal(s.terminals[m], stop) else s.terminals[m]);
      var closed := if s.tabs[id].archived then emptied
        else emptied.(tabs := s.tabs[id := TouchedTab(s.tabs[id].(archived := true))]);
      var kept := if OpenTabs(closed, session) != {} then closed
        else AddTab(closed, s.nextId, NewTab(session, "Window 1", 0)).(nextId := s.nextId + 1);
      if session !in s.sessions then Refuse(s, NotFound)
      else
        var next := First(ListTabs(kept, session));
        var record := s.sessions[session];
        if record.activeTab != Some(id) then Outcome(kept, Changed(id))
        else
          Outcome(kept.(sessions := s.sessions[session := TouchedSession(record.(
                    activeTab := next,
                    activeTerminal := if next.Some? && next.value in kept.tabs then kept.tabs[next.value].activeTerminal else None))]),
                  Changed(id))
  }

  /** The named tab, or the session's active one. */
  function ChosenTab(s: State, session: Id, tab: Option<Id>): Option<Id> {
    if tab.Some? then tab else if session in s.sessions then s.sessions[session].activeTab else None
  }

  function TerminalCreated(s: State, session: Id, tab: Option<Id>, title: string): Outcome {
    if session !in OpenSessions(s) then Refuse(s, NotFound)
    else
      var chosen := ChosenTab(s, session, tab);
      if chosen.None? then Refuse(s, NotFound)
      else if !OpenTabOf(s, chosen.value, session) then Refuse(s, Invalid)
      else
        var id := s.nextId;
        var terminal := Terminal(session, chosen, NonEmpty(title, "Terminal"),
                                 |Select(s.terminalOrder, OpenTerminals(s, chosen.value))|, Created, false, 1, false);
        var added := s.(terminals := s.terminals[id := terminal], terminalOrder := s.terminalOrder + [id], nextId := id + 1);
        var selected := Selected(added, session, Some(id));
        if selected.reply.Refused? then Refuse(s, selected.reply.error) else Outcome(selected.state, Changed(id))
  }

  /** The runtime's updates set the status, the output and the title. */
  function TerminalUpdated(s: State, id: Id, expected: Option<nat>, status: Status, title: string, replayAvailable: bool): Outcome {
    if id !in s.terminals then Refuse(s, NotFound)
    else if expected.Some? && expected.value != s.terminals[id].revision then Refuse(s, Conflict)
    else
      Outcome(s.(terminals := s.terminals[id := TouchedTerminal(
                s.terminals[id].(status := status, title := title, replayAvailable := replayAvailable))]), Changed(id))
  }

  function TerminalRenamed(s: State, id: Id, title: string): Outcome {
    if id !in s.terminals then Refuse(s, NotFound)
    else
      var terminal := s.terminals[id];
      TerminalUpdated(s, id, None, terminal.status, Shortened(NonEmpty(title, terminal.title)), terminal.replayAvailable)
  }

  function TerminalsReordered(s: State, session: Id, tab: Option<Id>, ids: seq<Id>): Outcome {
    var chosen := ChosenTab(s, session, tab);
    if chosen.None? then Refuse(s, NotFound)
    else if !OpenTabOf(s, chosen.value, session) then Refuse(s, Invalid)
    else if !IsPermutation(ids, ListTerminals(s, chosen.value)) then Refuse(s, Invalid)
    else
      var moved := s.(terminals := TerminalsAt(s.terminals, ids));
      Outcome(moved, Ordered(ListTerminals(moved, chosen.value)))
  }

  function TerminalMoved(s: State, id: Id, target: Id): Outcome {
    if id !in s.terminals || s.terminals[id].archived then Refuse(s, NotFound)
    else
      var current := s.terminals[id];
      if !OpenTabOf(s, target, current.session) then Refuse(s, Invalid)
      else if current.tab == Some(target) then Outcome(s, Changed(id))
      else
        var position := |Select(s.terminalOrder, OpenTerminals(s, target))|;
        var moved := s.(terminals := s.terminals[id := TouchedTerminal(current.(tab := Some(target), position := position))]);
        if current.tab.Some? && current.tab.value !in s.tabs then Refuse(s, NotFound)
        else
          var left := if current.tab.None? then moved
            else
              var source := s.tabs[current.tab.value];
              moved.(tabs := s.tabs[current.tab.value := TouchedTab(
                if source.activeTerminal == Some(id)
                then source.(activeTerminal := FirstOther(ListTerminals(s, current.tab.value), id)) else source)]);
          var selected := Selected(left, current.session, Some(id));
          if selected.reply.Refused? then Refuse(s, selected.reply.error) else Outcome(selected.state, Changed(id))
  }

  function TerminalClosed(s: State, id: Id, stop: bool): Outcome {
    if id !in s.terminals then Refuse(s, NotFound)
    else if s.terminals[id].archived then
      if s.terminals[id].session in s.sessions then Outcome(s, Changed(id)) else Refuse(s, NotFound)
    else
      var current := s.terminals[id];
      var next := if current.tab.Some? then FirstOther(ListTerminals(s, current.tab.value), id) else None;
      if (current.tab.Some? && current.tab.value !in s.tabs) || current.session !in s.sessions then Refuse(s, NotFound)
      else
        var closed := s.(terminals := s.terminals[id := ArchivedTerminal(current, stop)]);
        var unfocused := if current.tab.Some? && s.tabs[current.tab.value].activeTerminal == Some(id)
          then closed.(tabs := s.tabs[current.tab.value := TouchedTab(s.tabs[current.tab.value].(activeTerminal := next))])
          else closed;
        var session := s.sessions[current.session];
        Outcome(if session.activeTerminal == Some(id)
                then unfocused.(sessions := s.sessions[current.session := TouchedSession(session.(activeTerminal := next))])
                else unfocused,
                Changed(id))
  }

  /** A new server epoch disconnects every live terminal. */
  function Reconciled(s: State, newEpoch: string, replayable: set<Id>): Outcome {
    if s.epoch == Some(newEpoch) then Outcome(s, Ordered([]))
    else
      var live := set m | m in s.terminals && IsLive(s.terminals[m].status);
      Outcome(s.(epoch := Some(newEpoch),
                 terminals := map m | m in s.terminals ::
                   if m in live
                   then TouchedTerminal(s.terminals[m].(status := Disconnected, replayAvailable := m in replayable))
                   else s.terminals[m]),
              Ordered(Select(s.terminalOrder, live)))
  }

  function Step(s: State, c: Command): Outcome {
    match c
    case CreateSession(title) => SessionCreated(s, title)
    case RenameSession(session, title) => SessionRenamed(s, session, title)
    case ReorderSessions(ids) => SessionsReordered(s, ids)
    case ArchiveSession(session) => SessionArchived(s, session)
    case RestoreSession(session) => SessionRestored(s, session)
    case CreateTab(session, title) => TabCreated(s, session, title)
    case RenameTab(tab, title) => TabRenamed(s, tab, title)
    case SaveTabLayout(tab, layout, expected) => TabLayoutSaved(s, tab, layout, expected)
    case ReorderTabs(session, ids) => TabsReordered(s, session, ids)
    case SelectTab(session, tab) => TabSelected(s, session, tab)
    case CloseTab(tab, stop) => TabClosed(s, tab, stop)
    case CreateTerminal(session, tab, title) => TerminalCreated(s, session, tab, title)
    case UpdateTerminal(terminal, expected, status, title, replayAvailable) =>
      TerminalUpdated(s, terminal, expected, status, title, replayAvailable)
    case RenameTerminal(terminal, title) => TerminalRenamed(s, terminal, title)
    case SelectTerminal(session, terminal) => Selected(s, session, terminal)
    case ReorderTerminals(session, tab, ids) => TerminalsReordered(s, session, tab, ids)
    case MoveTerminal(terminal, tab) => TerminalMoved(s, terminal, tab)
    case CloseTerminal(terminal, stop) => TerminalClosed(s, terminal, stop)
    case ReconcileStartup(newEpoch, replayable) => Reconciled(s, newEpoch, replayable)
  }

  /** A machine's first start. */
  const EMPTY := EnsureVisible(State(map[], [], map[], [], map[], [], 0, None))

  function Run(commands: seq<Command>): State {
    if commands == [] then EMPTY else Step(Run(commands[..|commands| - 1]), commands[|commands| - 1]).state
  }
}
