/** What each command of a terminal does and answers, and the size and ready clients any commands leave. */
module CommandEffects {
  import opened Wrappers
  import opened Bytes
  import opened Leases
  import opened CommandBatch
  import Replay = ReplayRing

  function Apart(a: nat, b: nat): nat {
    if a >= b then a - b else b - a
  }

  /** The size in 1 to 1000 that is closest to the one asked for. */
  predicate Closest(asked: nat, given: nat) {
    1 <= given <= 1000 && forall n :: 1 <= n <= 1000 ==> Apart(asked, given) <= Apart(asked, n)
  }

  /** The size the pseudo-terminal was last given, or the one it started with. */
  function LastSize(trace: seq<PtyEvent>, cols: nat, rows: nat): (nat, nat) {
    if trace == [] then (cols, rows)
    else
      var last := trace[|trace| - 1];
      if last.Resized? then (last.cols, last.rows) else LastSize(trace[..|trace| - 1], cols, rows)
  }

  lemma {:induction false} LastSizeConcat(a: seq<PtyEvent>, b: seq<PtyEvent>, cols: nat, rows: nat)
    ensures var first := LastSize(a, cols, rows); LastSize(a + b, cols, rows) == LastSize(b, first.0, first.1)
    decreases |b|
  {
    if b == [] {
      assert a + b == a;
    } else {
      assert (a + b)[..|a + b| - 1] == a + b[..|b| - 1];
      LastSizeConcat(a, b[..|b| - 1], cols, rows);
    }
  }

  /** What one command does besides its answer: the size told and kept is the closest to the one asked, and nothing else moves it. */
  lemma OneExactly(core: Core, c: Timed)
    ensures var h := Handle(core, c);
      && LastSize(h.trace, core.cols, core.rows) == (h.core.cols, h.core.rows)
      && (c.command.Resize? ==> Closest(c.command.cols, h.core.cols) && Closest(c.command.rows, h.core.rows))
      && (c.command.AuthorizeAndResize? && h.trace != [] ==>
            Closest(c.command.cols, h.core.cols) && Closest(c.command.rows, h.core.rows))
      && h.core.theme == (if c.command.SetTheme? then c.command.theme else core.theme)
      && h.core.ready == (if c.command.MarkReplayReady? then core.ready + {c.command.client}
                          else if c.command.Detach? then core.ready - {c.command.client} else core.ready)
      && h.core.ring == (if exists e :: e in h.trace && e.Resized? then Replay.Checkpointed(core.ring) else core.ring)
      && (c.command.Write? || c.command.Attach? ==> h.core == core)
  {
    hide AuthorizedBy, Replay.Checkpointed, Replay.Attached, Step, ThemeReport;
    var h := Handle(core, c);
    OnlyRegistry(core, c);
    if h.trace != [] {
      assert h.trace == [h.trace[0]];
      assert LastSize(h.trace[..0], core.cols, core.rows) == (core.cols, core.rows);
      assert h.trace[0] in h.trace;
    }
  }

  lemma OnlyRegistry(core: Core, c: Timed)
    ensures (c.command.AuthorizeAndWrite? || c.command.AuthorizeAndResize? || c.command.AuthorizeOnly? || c.command.AuthorizeAndDispose?) ==>
              var a := AuthorizedBy(core, c.command.auth, c.now, c.later).0; a == core.(registry := a.registry)
  {
    hide Step, HeldWriter;
  }

  /** After any commands, the size kept is the one the pseudo-terminal was last told, and the theme the one last set. */
  lemma {:induction false} SizeIsTold(core: Core, commands: seq<Timed>)
    ensures var o := Serial(core, commands); LastSize(o.trace, core.cols, core.rows) == (o.core.cols, o.core.rows)
    decreases |commands|
  {
    hide Handle, LastSize;
    Nothing(core);
    if commands != [] {
      var h := Handle(core, commands[0]);
      OneExactly(core, commands[0]);
      if h.goOn {
        SizeIsTold(h.core, commands[1..]);
        LastSizeConcat(h.trace, Serial(h.core, commands[1..]).trace, core.cols, core.rows);
      }
    }
  }

  lemma Nothing(core: Core)
    ensures LastSize([], core.cols, core.rows) == (core.cols, core.rows)
  {
  }

  // ----- answers -----

  /** The report of a theme: `ESC [ ? 997 ;`, 2 for a background of high luma and 1 otherwise, `n`. */
  predicate Reports(data: seq<byte>, theme: Theme) {
    var b := theme.background;
    data == [0x1b, 0x5b, 0x3f, 0x39, 0x39, 0x37, 0x3b,
             if 299 * b.r as nat + 587 * b.g as nat + 114 * b.b as nat >= 128_000 then 0x32 else 0x31, 0x6e]
  }

  /** The commands that need no authorization: what reaches the pseudo-terminal, and the one answer. */
  lemma PlainExactly(core: Core, c: Timed)
    ensures var h := Handle(core, c);
      match c.command
      case Write(data) => h == Handled(core, [Wrote(data)], Ok, true)
      case Resize(_, _) => |h.trace| == 1 && h.trace[0] == Resized(h.core.cols, h.core.rows) && h.answer == Ok && h.goOn
      case SetTheme(theme) =>
        && h.answer == Ok && h.goOn && |h.trace| == (if theme != core.theme && core.themeUpdates then 1 else 0)
        && (h.trace != [] ==> h.trace[0].Wrote? && Reports(h.trace[0].data, theme))
      case Attach(client, after, archiveAvailable) =>
        && h.core == core && h.trace == [] && h.goOn
        && h.answer == Answer.Attached(Replay.Attached(core.ring, after, archiveAvailable), client !in core.ready, core.cols, core.rows)
      case LeaseCommand(op) =>
        && h.trace == [] && h.goOn && h.core == core.(registry := Step(core.registry, op, c.now).0)
        && h.answer == if op.ReleaseConnection? then Unasked else LeaseReply(Step(core.registry, op, c.now).1)
      case Dispose(killed) => h.core.disposed && h.trace == [] && !h.goOn && h.answer == if killed then Ok else RuntimeError
      case _ => true
  {
    hide AuthorizedBy, Replay.Checkpointed, Replay.Attached, Step;
  }

  /** Whether the last of a client's own commands among these said it was ready. */
  function LastReady(commands: seq<Timed>, client: Id, before: bool): bool {
    if commands == [] then before
    else
      var last := commands[|commands| - 1].command;
      if last.MarkReplayReady? && last.client == client then true
      else if last.Detach? && last.client == client then false
      else LastReady(commands[..|commands| - 1], client, before)
  }

  lemma {:induction false} LastReadyFirst(c: Timed, commands: seq<Timed>, client: Id, before: bool)
    ensures LastReady([c] + commands, client, before) == LastReady(commands, client, LastReady([c], client, before))
    decreases |commands|
  {
    if commands == [] {
      assert [c] + commands == [c];
    } else {
      var init := commands[..|commands| - 1];
      assert ([c] + commands)[..|commands|] == [c] + init;
      LastReadyFirst(c, init, client, before);
    }
  }

  lemma OneReady(core: Core, c: Timed, client: Id)
    ensures client in Handle(core, c).core.ready <==> LastReady([c], client, client in core.ready)
  {
    hide Handle;
    OneExactly(core, c);
    assert [c][..0] == [] && LastReady([], client, client in core.ready) == (client in core.ready);
  }

  /** A client is ready exactly when the last it said, among the commands handled, was that it is. */
  lemma {:induction false} ReadyExactly(core: Core, commands: seq<Timed>, client: Id)
    ensures var o := Serial(core, commands);
      client in o.core.ready <==> LastReady(commands[..|o.answers|], client, client in core.ready)
    decreases |commands|
  {
    hide Handle, LastReady;
    NothingSaid(client, client in core.ready);
    if commands == [] {
      assert commands[..0] == [];
    } else {
      var h := Handle(core, commands[0]);
      OneReady(core, commands[0], client);
      var before := client in core.ready;
      if h.goOn {
        var rest := Serial(h.core, commands[1..]);
        ReadyExactly(h.core, commands[1..], client);
        assert commands[..1 + |rest.answers|] == [commands[0]] + commands[1..][..|rest.answers|];
        LastReadyFirst(commands[0], commands[1..][..|rest.answers|], client, before);
      } else {
        assert commands[..1] == [commands[0]];
      }
    }
  }

  lemma NothingSaid(client: Id, before: bool)
    ensures LastReady([], client, before) == before
  {
  }
}
