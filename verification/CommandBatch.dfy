/**
  The owner's command queue: one command at a time, and the batch loop that coalesces writes and
  resizes. Writes and resizes of the pseudo-terminal succeed; each command carries the two clock
  readings its authorization may make.
*/
module CommandBatch {
  import opened Wrappers
  import opened Bytes
  import opened Leases
  import Replay = ReplayRing

  const OWNER_COMMAND_BATCH_MESSAGES: nat := 64
  const OWNER_WRITE_BATCH_BYTES: nat := 256 * 1024

  datatype Color = Color(r: byte, g: byte, b: byte)
  datatype Theme = Theme(foreground: Color, background: Color, cursor: Color)

  /** What reaches the pseudo-terminal. */
  datatype PtyEvent = Wrote(data: seq<byte>) | Resized(cols: nat, rows: nat)

  datatype Auth = Auth(principal: Id, connection: Id, fence: Option<Fence>)

  datatype Command =
    | Write(data: seq<byte>)
    | AuthorizeAndWrite(auth: Auth, data: seq<byte>)
    | Resize(cols: nat, rows: nat)
    | AuthorizeAndResize(auth: Auth, cols: nat, rows: nat)
    | AuthorizeOnly(auth: Auth)
    | SetTheme(theme: Theme)
    | Attach(client: Id, after: nat, archiveAvailable: bool)
    | MarkReplayReady(client: Id)
    | Detach(client: Id)
    | LeaseCommand(op: Op)
    | AuthorizeAndDispose(auth: Auth, killed: bool)
    | Dispose(killed: bool)

  datatype Timed = Timed(command: Command, now: int, later: int)

  /** `Unasked` stands for no reply: releasing a connection has nobody waiting for one. */
  datatype Answer =
    | Ok
    | Unasked
    | RuntimeError
    | LeaseReply(reply: Reply)
    | Attached(attachment: Replay.Attachment, needsQueryResponses: bool, cols: nat, rows: nat)

  datatype Core = Core(
    registry: Registry, terminal: Id, epoch: Id, cols: nat, rows: nat,
    theme: Theme, themeUpdates: bool, ring: Replay.Ring, ready: set<Id>, disposed: bool)

  datatype Handled = Handled(core: Core, trace: seq<PtyEvent>, answer: Answer, goOn: bool)

  // ----- one command -----

  function HeldWriter(leases: seq<Lease>, principal: Id, connection: Id): Option<Lease> {
    if leases == [] then None
    else if leases[0].mode == Writer && leases[0].principal == principal && leases[0].connection == connection then Some(leases[0])
    else HeldWriter(leases[1..], principal, connection)
  }

  /** A supplied fence is checked as the caller's own; without one, the caller's writer lease is found or acquired. */
  function AuthorizedBy(core: Core, auth: Auth, now: int, later: int): (Core, Reply) {
    if auth.fence.Some? then
      var step := Step(core.registry, Authorize(auth.fence.value.(principal := auth.principal, connection := auth.connection)), now);
      (core.(registry := step.0), step.1)
    else
      var listed := Step(core.registry, ListLeases(core.terminal), now);
      if !listed.1.Listed? then (core.(registry := listed.0), listed.1)
      else
        var held := HeldWriter(listed.1.leases, auth.principal, auth.connection);
        if held.Some? then (core.(registry := listed.0), Granted(held.value))
        else
          var step := Step(listed.0, Acquire(Request(core.terminal, core.epoch, auth.principal, auth.connection, Writer)), later);
          (core.(registry := step.0), step.1)
  }

  function Clamped(n: nat): nat {
    if n < 1 then 1 else if n > 1000 then 1000 else n
  }

  /** A resize also stores a checkpoint. */
  function Sized(core: Core, cols: nat, rows: nat): Core {
    core.(cols := Clamped(cols), rows := Clamped(rows), ring := Replay.Checkpointed(core.ring))
  }

  function ThemePreference(theme: Theme): byte {
    var b := theme.background;
    if b.r as nat * 299 + b.g as nat * 587 + b.b as nat * 114 >= 128_000 then 0x32 else 0x31
  }

  function ThemeReport(theme: Theme): seq<byte> {
    [0x1b, 0x5b, 0x3f, 0x39, 0x39, 0x37, 0x3b, ThemePreference(theme), 0x6e]
  }

  function Disposed(core: Core, now: int): Core {
    core.(disposed := true, registry := Step(core.registry, Unregister(core.terminal, Some(core.epoch)), now).0)
  }

  function Handle(core: Core, c: Timed): Handled {
    match c.command
    case Write(data) => Handled(core, [Wrote(data)], Ok, true)
    case AuthorizeAndWrite(auth, data) =>
      var a := AuthorizedBy(core, auth, c.now, c.later);
      Handled(a.0, if a.1.Granted? then [Wrote(data)] else [], LeaseReply(a.1), true)
    case Resize(cols, rows) => Handled(Sized(core, cols, rows), [Resized(Clamped(cols), Clamped(rows))], Ok, true)
    case AuthorizeAndResize(auth, cols, rows) =>
      var a := AuthorizedBy(core, auth, c.now, c.later);
      if a.1.Granted? then Handled(Sized(a.0, cols, rows), [Resized(Clamped(cols), Clamped(rows))], LeaseReply(a.1), true)
      else Handled(a.0, [], LeaseReply(a.1), true)
    case AuthorizeOnly(auth) =>
      var a := AuthorizedBy(core, auth, c.now, c.later);
      Handled(a.0, [], LeaseReply(a.1), true)
    case SetTheme(theme) =>
      Handled(core.(theme := theme), if theme != core.theme && core.themeUpdates then [Wrote(ThemeReport(theme))] else [], Ok, true)
    case Attach(client, after, archiveAvailable) =>
      Handled(core, [], Attached(Replay.Attached(core.ring, after, archiveAvailable), client !in core.ready, core.cols, core.rows), true)
    case MarkReplayReady(client) => Handled(core.(ready := core.ready + {client}), [], Ok, true)
    case Detach(client) => Handled(core.(ready := core.ready - {client}), [], Ok, true)
    case LeaseCommand(op) =>
      var step := Step(core.registry, op, c.now);
      Handled(core.(registry := step.0), [], if op.ReleaseConnection? then Unasked else LeaseReply(step.1), true)
    case AuthorizeAndDispose(auth, killed) =>
      var a := AuthorizedBy(core, auth, c.now, c.later);
      if !a.1.Granted? then Handled(a.0, [], LeaseReply(a.1), true)
      else Handled(Disposed(a.0, c.later), [], if killed then LeaseReply(a.1) else RuntimeError, !killed)
    case Dispose(killed) => Handled(Disposed(core, c.now), [], if killed then Ok else RuntimeError, false)
  }

  // ----- one by one -----

  datatype Outcome = Outcome(core: Core, trace: seq<PtyEvent>, answers: seq<Answer>, goOn: bool)

  /** Commands in order, until one stops the terminal; the rest are dropped unanswered. */
  function Serial(core: Core, commands: seq<Timed>): (o: Outcome)
    ensures |o.answers| <= |commands| && (o.goOn ==> |o.answers| == |commands|)
    decreases |commands|
  {
    if commands == [] then Outcome(core, [], [], true)
    else
      var h := Handle(core, commands[0]);
      if !h.goOn then Outcome(h.core, h.trace, [h.answer], false)
      else
        var rest := Serial(h.core, commands[1..]);
        Outcome(rest.core, h.trace + rest.trace, [h.answer] + rest.answers, rest.goOn)
  }

  lemma {:induction false} SerialConcat(core: Core, a: seq<Timed>, b: seq<Timed>)
    requires Serial(core, a).goOn
    ensures var first := Serial(core, a); var second := Serial(first.core, b);
      Serial(core, a + b) == Outcome(second.core, first.trace + second.trace, first.answers + second.answers, second.goOn)
    decreases |a|
  {
    hide Handle, Serial;
    SerialStep(core, a);
    if a == [] {
      assert a + b == b;
      assert [] + Serial(core, b).trace == Serial(core, b).trace && [] + Serial(core, b).answers == Serial(core, b).answers;
    } else {
      SerialStep(core, a + b);
      assert (a + b)[1..] == a[1..] + b && (a + b)[0] == a[0];
      var h := Handle(core, a[0]);
      SerialConcat(h.core, a[1..], b);
      var rest, second := Serial(h.core, a[1..]), Serial(Serial(h.core, a[1..]).core, b);
      assert h.trace + (rest.trace + second.trace) == h.trace + rest.trace + second.trace;
      assert [h.answer] + (rest.answers + second.answers) == [h.answer] + rest.answers + second.answers;
    }
  }

  lemma SerialStep(core: Core, commands: seq<Timed>)
    ensures Serial(core, commands) ==
            if commands == [] then Outcome(core, [], [], true)
            else
              var h := Handle(core, commands[0]);
              if !h.goOn then Outcome(h.core, h.trace, [h.answer], false)
              else
                var rest := Serial(h.core, commands[1..]);
                Outcome(rest.core, h.trace + rest.trace, [h.answer] + rest.answers, rest.goOn)
  {
    hide Handle;
  }

  lemma SerialOne(core: Core, c: Timed)
    ensures var h := Handle(core, c); Serial(core, [c]) == Outcome(h.core, h.trace, [h.answer], h.goOn)
  {
    hide Handle;
    assert [c][1..] == [] && Serial(Handle(core, c).core, [c][1..]) == Outcome(Handle(core, c).core, [], [], true);
  }

  lemma SerialPush(core: Core, commands: seq<Timed>, c: Timed)
    requires Serial(core, commands).goOn
    ensures var before := Serial(core, commands); var h := Handle(before.core, c);
      Serial(core, commands + [c]) == Outcome(h.core, before.trace + h.trace, before.answers + [h.answer], h.goOn)
  {
    hide Handle, Serial;
    SerialConcat(core, commands, [c]);
    SerialOne(Serial(core, commands).core, c);
  }

  // ----- what the pseudo-terminal sees, up to coalescing -----

  /** Adjacent writes are one write of all their bytes; of adjacent resizes only the last takes effect. */
  function Merge(trace: seq<PtyEvent>, e: PtyEvent): seq<PtyEvent> {
    if e.Wrote? && e.data == [] then trace
    else if trace == [] then [e]
    else
      var last := trace[|trace| - 1];
      if e.Wrote? && last.Wrote? then trace[..|trace| - 1] + [Wrote(last.data + e.data)]
      else if e.Resized? && last.Resized? then trace[..|trace| - 1] + [e]
      else trace + [e]
  }

  function NormalFrom(before: seq<PtyEvent>, trace: seq<PtyEvent>): seq<PtyEvent>
    decreases |trace|
  {
    if trace == [] then before else NormalFrom(Merge(before, trace[0]), trace[1..])
  }

  function Normal(trace: seq<PtyEvent>): seq<PtyEvent> {
    NormalFrom([], trace)
  }

  lemma {:induction false} NormalConcat(before: seq<PtyEvent>, a: seq<PtyEvent>, b: seq<PtyEvent>)
    ensures NormalFrom(before, a + b) == NormalFrom(NormalFrom(before, a), b)
    decreases |a|
  {
    hide Merge;
    if a == [] {
      assert a + b == b;
    } else {
      assert (a + b)[1..] == a[1..] + b && (a + b)[0] == a[0];
      NormalConcat(Merge(before, a[0]), a[1..], b);
    }
  }

  lemma NormalOne(before: seq<PtyEvent>, e: PtyEvent)
    ensures NormalFrom(before, [e]) == Merge(before, e)
  {
    hide Merge;
    assert NormalFrom(Merge(before, e), [e][1..]) == Merge(before, e);
  }

  lemma NormalPush(before: seq<PtyEvent>, a: seq<PtyEvent>, e: PtyEvent)
    ensures NormalFrom(before, a + [e]) == Merge(NormalFrom(before, a), e)
  {
    hide Merge, NormalFrom;
    NormalConcat(before, a, [e]);
    NormalOne(NormalFrom(before, a), e);
  }

  lemma MergeWrites(trace: seq<PtyEvent>, a: seq<byte>, b: seq<byte>)
    ensures Merge(Merge(trace, Wrote(a)), Wrote(b)) == Merge(trace, Wrote(a + b))
  {
    if a == [] {
      assert a + b == b;
    } else if b == [] {
      assert a + b == a;
    } else if trace != [] && trace[|trace| - 1].Wrote? {
      var init, last := trace[..|trace| - 1], trace[|trace| - 1];
      assert (init + [Wrote(last.data + a)])[..|init|] == init;
      assert last.data + a + b == last.data + (a + b);
    } else if trace == [] {
      assert [Wrote(a)][..0] == [];
    } else {
      assert (trace + [Wrote(a)])[..|trace|] == trace;
    }
  }

  lemma MergeResizes(trace: seq<PtyEvent>, a: PtyEvent, b: PtyEvent)
    requires a.Resized? && b.Resized?
    ensures Merge(Merge(trace, a), b) == Merge(trace, b)
  {
    if trace != [] && trace[|trace| - 1].Resized? {
      var init := trace[..|trace| - 1];
      assert (init + [a])[..|init|] == init;
    } else if trace == [] {
      assert [a][..0] == [];
    } else {
      assert (trace + [a])[..|trace|] == trace;
    }
  }

  // ----- replies -----

  datatype Deferred = Deferred(index: nat, answer: Answer)

  /** Of the group starting at `base`, each command so far has been answered or has one answer waiting, the right one. */
  ghost predicate Accounted(sent: map<nat, Answer>, waiting: seq<Deferred>, base: nat, answers: seq<Answer>) {
    && (forall k :: k in sent ==> k < base + |answers|)
    && (forall k :: base <= k < base + |answers| ==>
          (k in sent && sent[k] == answers[k - base]) || Deferred(k, answers[k - base]) in waiting)
    && (forall d :: d in waiting ==> d.index !in sent && base <= d.index < base + |answers| && d.answer == answers[d.index - base])
    && (forall i, j :: 0 <= i < j < |waiting| ==> waiting[i].index != waiting[j].index)
  }

  ghost predicate Same(sent: map<nat, Answer>, before: map<nat, Answer>) {
    forall k :: k in before ==> k in sent && sent[k] == before[k]
  }

  lemma Nothing(sent: map<nat, Answer>, base: nat)
    requires forall k :: k in sent ==> k < base
    ensures Accounted(sent, [], base, [])
  {
  }

  lemma AnswerNow(sent: map<nat, Answer>, waiting: seq<Deferred>, base: nat, answers: seq<Answer>, answer: Answer)
    requires Accounted(sent, waiting, base, answers)
    ensures base + |answers| !in sent
    ensures Accounted(sent[base + |answers| := answer], waiting, base, answers + [answer])
  {
  }

  lemma AnswerLater(sent: map<nat, Answer>, waiting: seq<Deferred>, base: nat, answers: seq<Answer>, answer: Answer)
    requires Accounted(sent, waiting, base, answers)
    ensures Accounted(sent, waiting + [Deferred(base + |answers|, answer)], base, answers + [answer])
  {
    var d := Deferred(base + |answers|, answer);
    var more := waiting + [d];
    assert d in more;
    assert forall i :: 0 <= i < |waiting| ==> waiting[i] in waiting;
    assert forall e :: e in waiting ==> e in more;
  }

  /** Each waiting command is answered, once. */
  method SendWaiting(before: map<nat, Answer>, waiting: seq<Deferred>, ghost base: nat, ghost answers: seq<Answer>)
    returns (sent: map<nat, Answer>)
    requires Accounted(before, waiting, base, answers)
    ensures Accounted(sent, [], base, answers) && Same(sent, before)
  {
    sent := before;
    for i := 0 to |waiting|
      invariant Accounted(sent, waiting[i..], base, answers) && Same(sent, before)
    {
      SendFirst(sent, waiting[i..], base, answers);
      assert waiting[i..][1..] == waiting[i + 1..];
      sent := sent[waiting[i].index := waiting[i].answer];
    }
    assert waiting[|waiting|..] == [];
  }

  lemma SendFirst(sent: map<nat, Answer>, waiting: seq<Deferred>, base: nat, answers: seq<Answer>)
    requires Accounted(sent, waiting, base, answers) && waiting != []
    ensures waiting[0].index !in sent
    ensures Accounted(sent[waiting[0].index := waiting[0].answer], waiting[1..], base, answers)
  {
    var first, rest := waiting[0], waiting[1..];
    assert first in waiting && waiting == [first] + rest;
    forall d | d in rest
      ensures d in waiting && d.index != first.index
    {
      var j :| 0 <= j < |rest| && rest[j] == d;
      assert waiting[j + 1] == d;
    }
  }

  // ----- a run of writes -----

  predicate IsWrite(c: Timed) {
    c.command.Write? || c.command.AuthorizeAndWrite?
  }

  predicate IsResize(c: Timed) {
    c.command.Resize? || c.command.AuthorizeAndResize?
  }

  function WriteBytes(c: Timed): nat
    requires IsWrite(c)
  {
    |c.command.data|
  }

  /** One write of a group, as the batch handles it. */
  lemma WriteStep(core: Core, c: Timed, before: seq<PtyEvent>, trace: seq<PtyEvent>, scratch: seq<byte>)
    requires IsWrite(c) && NormalFrom(before, trace) == Merge(before, Wrote(scratch))
    ensures var h := Handle(core, c);
      && h.goOn
      && (c.command.Write? ==> h == Handled(core, [Wrote(c.command.data)], Ok, true))
      && (c.command.AuthorizeAndWrite? ==>
            var a := AuthorizedBy(core, c.command.auth, c.now, c.later);
            h == Handled(a.0, if a.1.Granted? then [Wrote(c.command.data)] else [], LeaseReply(a.1), true))
      && NormalFrom(before, trace + h.trace)
         == Merge(before, Wrote(scratch + (if h.trace == [] then [] else c.command.data)))
  {
    hide AuthorizedBy, Merge, NormalFrom;
    var h := Handle(core, c);
    if h.trace == [] {
      assert trace + [] == trace && scratch + [] == scratch;
    } else {
      NormalPush(before, trace, Wrote(c.command.data));
      MergeWrites(before, scratch, c.command.data);
    }
  }

  method HandleWrites(start: Core, group: seq<Timed>, base: nat, before: map<nat, Answer>, ghost seen: seq<PtyEvent>)
    returns (core: Core, scratch: seq<byte>, sent: map<nat, Answer>)
    requires forall c :: c in group ==> IsWrite(c)
    requires forall k :: k in before ==> k < base
    ensures var o := Serial(start, group);
      && o.goOn && core == o.core && NormalFrom(seen, o.trace) == Merge(seen, Wrote(scratch))
      && Accounted(sent, [], base, o.answers) && Same(sent, before)
  {
    hide Handle, AuthorizedBy, Serial, Merge, NormalFrom, Accounted;
    core, scratch, sent := start, [], before;
    var waiting: seq<Deferred> := [];
    ghost var o := Serial(start, []);
    Begin(start, seen);
    Nothing(sent, base);
    for i := 0 to |group|
      invariant o == Serial(start, group[..i]) && o.goOn && core == o.core && |o.answers| == i
      invariant NormalFrom(seen, o.trace) == Merge(seen, Wrote(scratch))
      invariant Accounted(sent, waiting, base, o.answers) && Same(sent, before)
    {
      var c := group[i];
      assert c in group && group[..i + 1] == group[..i] + [c];
      SerialPush(start, group[..i], c);
      WriteStep(core, c, seen, o.trace, scratch);
      if c.command.Write? {
        scratch := scratch + c.command.data;
        AnswerLater(sent, waiting, base, o.answers, Ok);
        waiting := waiting + [Deferred(base + i, Ok)];
      } else {
        var authorized := AuthorizedBy(core, c.command.auth, c.now, c.later);
        core := authorized.0;
        if authorized.1.Granted? {
          scratch := scratch + c.command.data;
          AnswerLater(sent, waiting, base, o.answers, LeaseReply(authorized.1));
          waiting := waiting + [Deferred(base + i, LeaseReply(authorized.1))];
        } else {
          AnswerNow(sent, waiting, base, o.answers, LeaseReply(authorized.1));
          sent := SendOne(sent, base + i, LeaseReply(authorized.1));
          assert scratch + [] == scratch;
        }
      }
      o := Serial(start, group[..i + 1]);
    }
    assert group[..|group|] == group;
    var answered := SendWaiting(sent, waiting, base, o.answers);
    sent := answered;
  }

  method SendOne(before: map<nat, Answer>, index: nat, answer: Answer) returns (sent: map<nat, Answer>)
    requires index !in before
    ensures sent == before[index := answer] && Same(sent, before)
  {
    sent := before[index := answer];
  }

  lemma Begin(core: Core, seen: seq<PtyEvent>)
    ensures Serial(core, []) == Outcome(core, [], [], true)
    ensures NormalFrom(seen, []) == seen == Merge(seen, Wrote([]))
  {
  }

  // ----- a run of resizes -----

  datatype Size = Size(cols: nat, rows: nat)

  function SizedTo(core: Core, latest: Option<Size>): Core {
    if latest.None? then core else Sized(core, latest.value.cols, latest.value.rows)
  }

  function MergedTo(seen: seq<PtyEvent>, latest: Option<Size>): seq<PtyEvent> {
    if latest.None? then seen else Merge(seen, Resized(Clamped(latest.value.cols), Clamped(latest.value.rows)))
  }

  /** Authorization does not look at the size, and only the last of several sizes is left. */
  lemma SizeLast(core: Core, latest: Option<Size>, auth: Auth, now: int, later: int, size: Size)
    ensures SizedTo(SizedTo(core, latest), Some(size)) == SizedTo(core, Some(size))
    ensures var a := AuthorizedBy(core, auth, now, later);
      AuthorizedBy(SizedTo(core, latest), auth, now, later) == (SizedTo(a.0, latest), a.1)
  {
    hide Step, HeldWriter;
  }

  /** One resize of a group: its effect is deferred to the last. */
  lemma ResizeStep(core: Core, c: Timed, latest: Option<Size>, seen: seq<PtyEvent>, trace: seq<PtyEvent>)
    requires IsResize(c) && NormalFrom(seen, trace) == MergedTo(seen, latest)
    ensures var h := Handle(SizedTo(core, latest), c); var size := Some(Size(c.command.cols, c.command.rows));
      && h.goOn
      && (c.command.Resize? ==>
            h.core == SizedTo(core, size) && h.answer == Ok && NormalFrom(seen, trace + h.trace) == MergedTo(seen, size))
      && (c.command.AuthorizeAndResize? ==>
            var a := AuthorizedBy(core, c.command.auth, c.now, c.later); var reached := if a.1.Granted? then size else latest;
            && h.core == SizedTo(a.0, reached) && h.answer == LeaseReply(a.1)
            && NormalFrom(seen, trace + h.trace) == MergedTo(seen, reached))
  {
    hide AuthorizedBy, Merge, NormalFrom, Sized;
    var h := Handle(SizedTo(core, latest), c);
    var size := Size(c.command.cols, c.command.rows);
    if c.command.AuthorizeAndResize? {
      SizeLast(core, latest, c.command.auth, c.now, c.later, size);
      SizeLast(AuthorizedBy(core, c.command.auth, c.now, c.later).0, latest, c.command.auth, c.now, c.later, size);
    } else {
      SizeLast(core, latest, Auth("", "", None), 0, 0, size);
    }
    if h.trace == [] {
      assert trace + [] == trace;
    } else {
      var e := Resized(Clamped(size.cols), Clamped(size.rows));
      NormalPush(seen, trace, e);
      if latest.Some? { MergeResizes(seen, Resized(Clamped(latest.value.cols), Clamped(latest.value.rows)), e); }
    }
  }

  method HandleResizes(start: Core, group: seq<Timed>, base: nat, before: map<nat, Answer>, ghost seen: seq<PtyEvent>)
    returns (core: Core, latest: Option<Size>, sent: map<nat, Answer>)
    requires forall c :: c in group ==> IsResize(c)
    requires forall k :: k in before ==> k < base
    ensures var o := Serial(start, group);
      && o.goOn && core == o.core && NormalFrom(seen, o.trace) == MergedTo(seen, latest)
      && Accounted(sent, [], base, o.answers) && Same(sent, before)
  {
    hide Handle, AuthorizedBy, Serial, Merge, NormalFrom, Accounted, Sized;
    core, latest, sent := start, None, before;
    var waiting: seq<Deferred> := [];
    ghost var o := Serial(start, []);
    Begin(start, seen);
    Nothing(sent, base);
    for i := 0 to |group|
      invariant o == Serial(start, group[..i]) && o.goOn && SizedTo(core, latest) == o.core && |o.answers| == i
      invariant NormalFrom(seen, o.trace) == MergedTo(seen, latest)
      invariant Accounted(sent, waiting, base, o.answers) && Same(sent, before)
    {
      var c := group[i];
      assert c in group && group[..i + 1] == group[..i] + [c];
      SerialPush(start, group[..i], c);
      ResizeStep(core, c, latest, seen, o.trace);
      if c.command.Resize? {
        latest := Some(Size(c.command.cols, c.command.rows));
        AnswerLater(sent, waiting, base, o.answers, Ok);
        waiting := waiting + [Deferred(base + i, Ok)];
      } else {
        var authorized := AuthorizedBy(core, c.command.auth, c.now, c.later);
        core := authorized.0;
        if authorized.1.Granted? {
          latest := Some(Size(c.command.cols, c.command.rows));
          AnswerLater(sent, waiting, base, o.answers, LeaseReply(authorized.1));
          waiting := waiting + [Deferred(base + i, LeaseReply(authorized.1))];
        } else {
          AnswerNow(sent, waiting, base, o.answers, LeaseReply(authorized.1));
          sent := SendOne(sent, base + i, LeaseReply(authorized.1));
        }
      }
      o := Serial(start, group[..i + 1]);
    }
    assert group[..|group|] == group;
    if latest.Some? {
      core := Sized(core, latest.value.cols, latest.value.rows);
    }
    var answered := SendWaiting(sent, waiting, base, o.answers);
    sent := answered;
  }

  // ----- the batch -----

  /** Writes from the front while there are at most 64 and, once there are bytes, at most 256 KiB. */
  method TakeWrites(commands: seq<Timed>) returns (n: nat)
    requires commands != [] && IsWrite(commands[0])
    ensures 0 < n <= |commands| && n <= OWNER_COMMAND_BATCH_MESSAGES
    ensures forall c :: c in commands[..n] ==> IsWrite(c)
  {
    n := 1;
    var bytes := WriteBytes(commands[0]);
    while n < OWNER_COMMAND_BATCH_MESSAGES && n < |commands| && IsWrite(commands[n])
      invariant 0 < n <= |commands| && n <= OWNER_COMMAND_BATCH_MESSAGES
      invariant forall i :: 0 <= i < n ==> IsWrite(commands[i])
      decreases |commands| - n
    {
      var next := WriteBytes(commands[n]);
      if bytes > 0 && bytes + next > OWNER_WRITE_BATCH_BYTES {
        break;
      }
      bytes := bytes + next;
      n := n + 1;
    }
  }

  method TakeResizes(commands: seq<Timed>) returns (n: nat)
    requires commands != [] && IsResize(commands[0])
    ensures 0 < n <= |commands| && n <= OWNER_COMMAND_BATCH_MESSAGES
    ensures forall c :: c in commands[..n] ==> IsResize(c)
  {
    n := 1;
    while n < OWNER_COMMAND_BATCH_MESSAGES && n < |commands| && IsResize(commands[n])
      invariant 0 < n <= |commands| && n <= OWNER_COMMAND_BATCH_MESSAGES
      invariant forall i :: 0 <= i < n ==> IsResize(commands[i])
    {
      n := n + 1;
    }
  }

  /** Every command handled so far, as if one by one: same state, same answers, and the terminal has seen the same up to coalescing. */
  ghost predicate AsSerial(start: Core, done: seq<Timed>, core: Core, trace: seq<PtyEvent>, sent: map<nat, Answer>, goOn: bool) {
    var o := Serial(start, done);
    && core == o.core && goOn == o.goOn && Normal(trace) == Normal(o.trace)
    && (forall k: nat :: k in sent <==> k < |o.answers|)
    && (forall k :: 0 <= k < |o.answers| ==> sent[k] == o.answers[k])
  }

  /** A group handled after `done` extends the equivalence. */
  lemma GroupExtends(start: Core, done: seq<Timed>, core: Core, trace: seq<PtyEvent>, sent: map<nat, Answer>,
                     group: seq<Timed>, next: Core, more: seq<PtyEvent>, after: map<nat, Answer>)
    requires AsSerial(start, done, core, trace, sent, true)
    requires var o := Serial(core, group);
      && o.goOn && next == o.core && NormalFrom(Normal(trace), o.trace) == NormalFrom(Normal(trace), more)
      && Accounted(after, [], |done|, o.answers) && Same(after, sent)
    ensures AsSerial(start, done + group, next, trace + more, after, true)
  {
    hide Serial, Handle, NormalFrom;
    SerialConcat(start, done, group);
    NormalConcat([], trace, more);
    NormalConcat([], Serial(start, done).trace, Serial(core, group).trace);
    AllAnswered(Serial(start, done).answers, Serial(core, group).answers, sent, after);
  }

  lemma AllAnswered(first: seq<Answer>, second: seq<Answer>, sent: map<nat, Answer>, after: map<nat, Answer>)
    requires (forall k: nat :: k in sent <==> k < |first|) && (forall k :: 0 <= k < |first| ==> sent[k] == first[k])
    requires Accounted(after, [], |first|, second) && Same(after, sent)
    ensures forall k: nat :: k in after <==> k < |first| + |second|
    ensures forall k :: 0 <= k < |first| + |second| ==> after[k] == (first + second)[k]
  {
    forall k: nat | k < |first| + |second|
      ensures k in after && after[k] == (first + second)[k]
    {
      if k < |first| {
        assert k in sent;
      } else {
        assert k in after && after[k] == second[k - |first|];
      }
    }
  }

  /** A single command handled after `done` extends the equivalence, whether or not it stops the terminal. */
  lemma OneExtends(start: Core, done: seq<Timed>, core: Core, trace: seq<PtyEvent>, sent: map<nat, Answer>, c: Timed)
    requires AsSerial(start, done, core, trace, sent, true)
    ensures |done| !in sent
    ensures var h := Handle(core, c);
      AsSerial(start, done + [c], h.core, trace + h.trace, sent[|done| := h.answer], h.goOn)
  {
    hide Serial, Handle, NormalFrom;
    SerialPush(start, done, c);
    var h := Handle(core, c);
    NormalConcat([], trace, h.trace);
    NormalConcat([], Serial(start, done).trace, h.trace);
  }

  lemma {:induction false} SerialStops(start: Core, done: seq<Timed>, rest: seq<Timed>)
    requires !Serial(start, done).goOn
    ensures Serial(start, done + rest) == Serial(start, done)
    decreases |done|
  {
    hide Handle;
    assert (done + rest)[1..] == done[1..] + rest && (done + rest)[0] == done[0];
    if Handle(start, done[0]).goOn { SerialStops(Handle(start, done[0]).core, done[1..], rest); }
  }

  /**
    The batch loop, on any list of commands: the same final state, the same answer to each command
    handled and exactly one, the same decision to go on, and the same bytes in the same order
    relative to each effective resize.
  */
  method HandleBatch(start: Core, commands: seq<Timed>)
    returns (core: Core, trace: seq<PtyEvent>, sent: map<nat, Answer>, goOn: bool)
    ensures AsSerial(start, commands, core, trace, sent, goOn)
  {
    hide AsSerial, Handle, Serial, Normal, NormalFrom, Merge, Accounted, Same;
    core, trace, sent, goOn := start, [], map[], true;
    var next := 0;
    StartBatch(start);
    while next < |commands|
      invariant 0 <= next <= |commands| && goOn
      invariant AsSerial(start, commands[..next], core, trace, sent, true)
      decreases |commands| - next
    {
      var c := commands[next];
      SentBelow(start, commands[..next], core, trace, sent);
      if IsWrite(c) {
        var n := TakeWrites(commands[next..]);
        var group := commands[next..][..n];
        GroupOf(commands, next, n);
        var after, scratch, answered := HandleWrites(core, group, next, sent, Normal(trace));
        var more := if scratch == [] then [] else [Wrote(scratch)];
        MergedAsTrace(Normal(trace), Wrote(scratch));
        GroupExtends(start, commands[..next], core, trace, sent, group, after, more, answered);
        core, trace, sent, next := after, trace + more, answered, next + n;
      } else if IsResize(c) {
        var n := TakeResizes(commands[next..]);
        var group := commands[next..][..n];
        GroupOf(commands, next, n);
        var after, latest, answered := HandleResizes(core, group, next, sent, Normal(trace));
        var more := if latest.None? then [] else [Resized(Clamped(latest.value.cols), Clamped(latest.value.rows))];
        if latest.Some? { MergedAsTrace(Normal(trace), more[0]); } else { Begin(core, Normal(trace)); }
        GroupExtends(start, commands[..next], core, trace, sent, group, after, more, answered);
        core, trace, sent, next := after, trace + more, answered, next + n;
      } else {
        OneExtends(start, commands[..next], core, trace, sent, c);
        assert commands[..next] + [c] == commands[..next + 1];
        var h := Handle(core, c);
        core, trace := h.core, trace + h.trace;
        sent := SendOne(sent, next, h.answer);
        next := next + 1;
        if !h.goOn {
          goOn := false;
          Stopped(start, commands, next, core, trace, sent);
          return;
        }
      }
    }
    assert commands[..next] == commands;
  }

  lemma StartBatch(start: Core)
    ensures AsSerial(start, [], start, [], map[], true)
  {
  }

  lemma SentBelow(start: Core, done: seq<Timed>, core: Core, trace: seq<PtyEvent>, sent: map<nat, Answer>)
    requires AsSerial(start, done, core, trace, sent, true)
    ensures forall k :: k in sent ==> k < |done|
  {
    hide Serial, Normal;
  }

  lemma GroupOf(commands: seq<Timed>, next: nat, n: nat)
    requires next + n <= |commands|
    ensures commands[..next] + commands[next..][..n] == commands[..next + n]
  {
  }

  lemma MergedAsTrace(seen: seq<PtyEvent>, e: PtyEvent)
    ensures NormalFrom(seen, [e]) == Merge(seen, e)
    ensures e.Wrote? && e.data == [] ==> NormalFrom(seen, []) == Merge(seen, e)
  {
    NormalOne(seen, e);
  }

  lemma Stopped(start: Core, commands: seq<Timed>, next: nat, core: Core, trace: seq<PtyEvent>, sent: map<nat, Answer>)
    requires next <= |commands| && AsSerial(start, commands[..next], core, trace, sent, false)
    ensures AsSerial(start, commands, core, trace, sent, false)
  {
    hide Serial, Normal;
    SerialStops(start, commands[..next], commands[next..]);
    assert commands == commands[..next] + commands[next..];
  }

  // ----- what coalescing keeps -----

  /** All bytes written, in order. */
  function Written(trace: seq<PtyEvent>): seq<byte> {
    if trace == [] then []
    else Written(trace[..|trace| - 1]) + (if trace[|trace| - 1].Wrote? then trace[|trace| - 1].data else [])
  }

  lemma WrittenPush(trace: seq<PtyEvent>, e: PtyEvent)
    ensures Written(trace + [e]) == Written(trace) + (if e.Wrote? then e.data else [])
  {
    assert (trace + [e])[..|trace|] == trace;
  }

  lemma MergeKeepsBytes(trace: seq<PtyEvent>, e: PtyEvent)
    ensures Written(Merge(trace, e)) == Written(trace) + (if e.Wrote? then e.data else [])
  {
    hide Written;
    assert [] + [e] == [e];
    WrittenPush(trace, e);
    assert Written(trace) + [] == Written(trace);
    if trace != [] {
      var init, last := trace[..|trace| - 1], trace[|trace| - 1];
      assert trace == init + [last];
      WrittenPush(init, last);
      WrittenPush(init, e);
      if e.Wrote? && last.Wrote? {
        WrittenPush(init, Wrote(last.data + e.data));
        assert Written(init) + (last.data + e.data) == Written(init) + last.data + e.data;
      }
    }
  }

  lemma NothingSeen()
    ensures NormalFrom([], []) == []
  {
  }

  lemma {:induction false} NormalKeepsBytes(trace: seq<PtyEvent>)
    ensures Written(Normal(trace)) == Written(trace)
  {
    hide Merge, NormalFrom;
    if trace == [] {
      NothingSeen();
    } else {
      var init, last := trace[..|trace| - 1], trace[|trace| - 1];
      assert trace == init + [last];
      NormalKeepsBytes(init);
      NormalPush([], init, last);
      MergeKeepsBytes(Normal(init), last);
    }
  }

  /** In particular the batch writes exactly the bytes, in exactly the order, that one-by-one handling writes. */
  lemma BatchWritesTheSameBytes(start: Core, commands: seq<Timed>, core: Core, trace: seq<PtyEvent>, sent: map<nat, Answer>, goOn: bool)
    requires AsSerial(start, commands, core, trace, sent, goOn)
    ensures Written(trace) == Written(Serial(start, commands).trace)
  {
    hide Written, Normal, Serial;
    NormalKeepsBytes(trace);
    NormalKeepsBytes(Serial(start, commands).trace);
  }
}
