/**
  The scanner for terminal requests in program output: control sequences and control strings of
  sections 5.4 and 5.6 of ECMA-48, matched byte by byte against a fixed table.
*/
module RequestScanner {
  import opened Wrappers
  import opened Bytes

  const ESC: byte := 0x1b
  const BEL: byte := 0x07
  const BACKSLASH: byte := 0x5c

  datatype Query =
    | PrimaryDeviceAttributes
    | OperatingStatus
    | ForegroundColor
    | BackgroundColor
    | CursorColor
    | ThemeUpdatesMode
    | ThemePreference

  datatype Request = Ask(query: Query) | SetThemeUpdates(enabled: bool)

  datatype Entry = Entry(sequence: seq<byte>, request: Request)

  /** In the order of the source's table: `ESC [` and `ESC ]` sequences, the colour queries with either terminator. */
  const TABLE: seq<Entry> := [
    Entry([ESC, 0x5b, 0x3f, 0x32, 0x30, 0x33, 0x31, 0x24, 0x70], Ask(ThemeUpdatesMode)),
    Entry([ESC, 0x5b, 0x3f, 0x39, 0x39, 0x36, 0x6e], Ask(ThemePreference)),
    Entry([ESC, 0x5b, 0x3f, 0x32, 0x30, 0x33, 0x31, 0x68], SetThemeUpdates(true)),
    Entry([ESC, 0x5b, 0x3f, 0x32, 0x30, 0x33, 0x31, 0x6c], SetThemeUpdates(false)),
    Entry([ESC, 0x5b, 0x30, 0x63], Ask(PrimaryDeviceAttributes)),
    Entry([ESC, 0x5b, 0x63], Ask(PrimaryDeviceAttributes)),
    Entry([ESC, 0x5b, 0x35, 0x6e], Ask(OperatingStatus)),
    Entry([ESC, 0x5d, 0x31, 0x30, 0x3b, 0x3f, BEL], Ask(ForegroundColor)),
    Entry([ESC, 0x5d, 0x31, 0x30, 0x3b, 0x3f, ESC, BACKSLASH], Ask(ForegroundColor)),
    Entry([ESC, 0x5d, 0x31, 0x31, 0x3b, 0x3f, BEL], Ask(BackgroundColor)),
    Entry([ESC, 0x5d, 0x31, 0x31, 0x3b, 0x3f, ESC, BACKSLASH], Ask(BackgroundColor)),
    Entry([ESC, 0x5d, 0x31, 0x32, 0x3b, 0x3f, BEL], Ask(CursorColor)),
    Entry([ESC, 0x5d, 0x31, 0x32, 0x3b, 0x3f, ESC, BACKSLASH], Ask(CursorColor))
  ]

  predicate StartsWith(sequence: seq<byte>, prefix: seq<byte>) {
    |prefix| <= |sequence| && sequence[..|prefix|] == prefix
  }

  predicate IsPrefix(bytes: seq<byte>) {
    exists e :: 0 <= e < |TABLE| && StartsWith(TABLE[e].sequence, bytes)
  }

  function FindFrom(bytes: seq<byte>, e: nat): (found: Option<Request>)
    requires e <= |TABLE|
    ensures found.Some? ==> exists f :: 0 <= f < |TABLE| && TABLE[f].sequence == bytes && TABLE[f].request == found.value
    ensures found.None? ==> forall f :: e <= f < |TABLE| ==> TABLE[f].sequence != bytes
    decreases |TABLE| - e
  {
    if e == |TABLE| then None
    else if TABLE[e].sequence == bytes then Some(TABLE[e].request)
    else FindFrom(bytes, e + 1)
  }

  /** The first table entry that is exactly these bytes. */
  function Lookup(bytes: seq<byte>): Option<Request> {
    FindFrom(bytes, 0)
  }

  // ----- one byte -----

  datatype Scan = Scan(leftover: seq<byte>, emitted: Option<Request>)

  function Restart(b: byte): seq<byte> {
    if b == ESC then [b] else []
  }

  function Step(leftover: seq<byte>, b: byte): Scan {
    if leftover == [] then Scan(Restart(b), None)
    else
      var bytes := leftover + [b];
      if Lookup(bytes).Some? then Scan([], Lookup(bytes))
      else if !IsPrefix(bytes) then Scan(Restart(b), None)
      else Scan(bytes, None)
  }

  /** What is left over after the whole input, from idle. */
  function Leftover(input: seq<byte>): seq<byte> {
    if input == [] then [] else Step(Leftover(input[..|input| - 1]), input[|input| - 1]).leftover
  }

  /** The request, if any, that the last byte of the input completes. */
  function EmittedAt(input: seq<byte>): Option<Request> {
    if input == [] then None else Step(Leftover(input[..|input| - 1]), input[|input| - 1]).emitted
  }

  // ----- the chunk loop -----

  datatype Fed = Fed(leftover: seq<byte>, requests: seq<Request>)

  function Feed(leftover: seq<byte>, chunk: seq<byte>): Fed
    decreases |chunk|
  {
    if chunk == [] then Fed(leftover, [])
    else
      var step := Step(leftover, chunk[0]);
      var rest := Feed(step.leftover, chunk[1..]);
      Fed(rest.leftover, (if step.emitted.Some? then [step.emitted.value] else []) + rest.requests)
  }

  method FeedTerminalRequests(before: seq<byte>, chunk: seq<byte>) returns (leftover: seq<byte>, requests: seq<Request>)
    ensures Fed(leftover, requests) == Feed(before, chunk)
  {
    hide Lookup, IsPrefix, Feed;
    leftover, requests := before, [];
    assert chunk[0..] == chunk;
    FedNothing(Feed(before, chunk));
    for i := 0 to |chunk|
      invariant Feed(before, chunk) == Fed(Feed(leftover, chunk[i..]).leftover, requests + Feed(leftover, chunk[i..]).requests)
    {
      var b := chunk[i];
      FeedStep(leftover, chunk[i..], requests);
      assert chunk[i..][1..] == chunk[i + 1..];
      if leftover == [] {
        if b == ESC {
          leftover := [b];
        }
        continue;
      }
      leftover := leftover + [b];
      var found := Lookup(leftover);
      if found.Some? {
        requests := requests + [found.value];
        leftover := [];
      } else if !IsPrefix(leftover) {
        leftover := [];
        if b == ESC {
          leftover := [b];
        }
      }
    }
    FeedStep(leftover, chunk[|chunk|..], requests);
  }

  lemma FedNothing(fed: Fed)
    ensures fed == Fed(fed.leftover, [] + fed.requests)
  {
  }

  lemma FeedStep(leftover: seq<byte>, chunk: seq<byte>, before: seq<Request>)
    ensures chunk == [] ==> Feed(leftover, chunk) == Fed(leftover, []) && before + [] == before
    ensures chunk != [] ==>
              var step := Step(leftover, chunk[0]); var rest := Feed(step.leftover, chunk[1..]);
              Feed(leftover, chunk).leftover == rest.leftover
              && before + Feed(leftover, chunk).requests
                 == (if step.emitted.Some? then before + [step.emitted.value] else before) + rest.requests
  {
    hide Step;
    if chunk != [] {
      var step := Step(leftover, chunk[0]);
      var rest := Feed(step.leftover, chunk[1..]);
      if step.emitted.Some? {
        assert before + ([step.emitted.value] + rest.requests) == before + [step.emitted.value] + rest.requests;
      } else {
        assert [] + rest.requests == rest.requests;
      }
    }
  }

  /** However the stream is cut into chunks, the same requests come out. */
  lemma {:induction false} ChunksDoNotMatter(leftover: seq<byte>, a: seq<byte>, b: seq<byte>)
    ensures var first := Feed(leftover, a); var second := Feed(first.leftover, b);
      Feed(leftover, a + b) == Fed(second.leftover, first.requests + second.requests)
    decreases |a|
  {
    hide Step;
    if a == [] {
      assert a + b == b;
      FedNothing(Feed(leftover, b));
    } else {
      assert (a + b)[0] == a[0] && (a + b)[1..] == a[1..] + b;
      ChunksDoNotMatter(Step(leftover, a[0]).leftover, a[1..], b);
    }
  }

  /** The request each position of the input completes, in order. */
  function Emissions(input: seq<byte>): seq<Request> {
    if input == [] then []
    else
      Emissions(input[..|input| - 1]) + (if EmittedAt(input).Some? then [EmittedAt(input).value] else [])
  }

  /** Feeding from idle emits exactly the requests the positions complete. */
  lemma {:induction false} FeedIsEmissions(input: seq<byte>)
    ensures Feed([], input) == Fed(Leftover(input), Emissions(input))
  {
    hide Step;
    if input != [] {
      var init, last := input[..|input| - 1], input[|input| - 1];
      FeedIsEmissions(init);
      assert input == init + [last];
      ChunksDoNotMatter([], init, [last]);
      FeedOne(Leftover(init), last);
    }
  }

  lemma FeedOne(leftover: seq<byte>, b: byte)
    ensures var step := Step(leftover, b);
      Feed(leftover, [b]) == Fed(step.leftover, if step.emitted.Some? then [step.emitted.value] else [])
  {
    hide Step;
    assert Feed(Step(leftover, b).leftover, [b][1..]) == Fed(Step(leftover, b).leftover, []);
  }

  // ----- the table -----

  lemma PrefixAt(sequence: seq<byte>, prefix: seq<byte>, i: nat)
    requires StartsWith(sequence, prefix) && i < |prefix|
    ensures sequence[i] == prefix[i]
  {
    assert sequence[..|prefix|][i] == sequence[i];
  }

  /** No entry is a prefix of another. */
  lemma TablePrefixFree(e: nat, f: nat)
    requires e < |TABLE| && f < |TABLE| && StartsWith(TABLE[e].sequence, TABLE[f].sequence)
    ensures e == f
  {
    var s, t := TABLE[e].sequence, TABLE[f].sequence;
    assert |s| >= |t| >= 3;
    PrefixAt(s, t, 1);
    PrefixAt(s, t, 2);
    if |t| > 3 { PrefixAt(s, t, 3); }
    if |t| > 4 { PrefixAt(s, t, 4); }
    if |t| > 6 { PrefixAt(s, t, 6); }
    if |t| > 7 { PrefixAt(s, t, 7); }
  }

  /** A colour query whose terminator has not begun: here the next `ESC` may be the terminator's. */
  predicate AwaitingTerminator(bytes: seq<byte>) {
    || bytes == [ESC, 0x5d, 0x31, 0x30, 0x3b, 0x3f]
    || bytes == [ESC, 0x5d, 0x31, 0x31, 0x3b, 0x3f]
    || bytes == [ESC, 0x5d, 0x31, 0x32, 0x3b, 0x3f]
  }

  /** Entries begin with `ESC` and `[` or `]`; another `ESC` occurs only in the terminator of a colour query. */
  lemma TableShape(e: nat, i: nat)
    requires e < |TABLE| && 0 < i < |TABLE[e].sequence|
    ensures var s := TABLE[e].sequence;
      && |s| >= 3 && s[0] == ESC && (s[1] == 0x5b || s[1] == 0x5d) && s[|s| - 1] != ESC
      && (s[i] == ESC ==> i == |s| - 2 && s[i + 1] == BACKSLASH && AwaitingTerminator(s[..i]))
  {
  }

  lemma TableLength(e: nat)
    requires e < |TABLE|
    ensures |TABLE[e].sequence| >= 3
  {
  }

  lemma LookupMeans(bytes: seq<byte>)
    ensures Lookup(bytes).Some? <==> exists e :: 0 <= e < |TABLE| && TABLE[e].sequence == bytes
    ensures Lookup(bytes).Some? ==> IsPrefix(bytes)
    ensures Lookup(bytes).Some? ==> exists e :: 0 <= e < |TABLE| && TABLE[e].sequence == bytes && TABLE[e].request == Lookup(bytes).value
  {
    if e :| 0 <= e < |TABLE| && TABLE[e].sequence == bytes {
      assert bytes[..|bytes|] == bytes && StartsWith(TABLE[e].sequence, bytes);
    }
  }

  lemma EntryLooksUp(e: nat)
    requires e < |TABLE|
    ensures Lookup(TABLE[e].sequence) == Some(TABLE[e].request)
  {
    hide Lookup;
    LookupMeans(TABLE[e].sequence);
    var s := TABLE[e].sequence;
    var f :| 0 <= f < |TABLE| && TABLE[f].sequence == s && TABLE[f].request == Lookup(s).value;
    assert s[..|s|] == s;
    TablePrefixFree(e, f);
  }

  /** A strict prefix of an entry is a prefix and not itself an entry. */
  lemma StrictPrefix(e: nat, k: nat)
    requires e < |TABLE| && k < |TABLE[e].sequence|
    ensures IsPrefix(TABLE[e].sequence[..k]) && Lookup(TABLE[e].sequence[..k]).None?
  {
    hide Lookup;
    var bytes := TABLE[e].sequence[..k];
    assert StartsWith(TABLE[e].sequence, bytes);
    LookupMeans(bytes);
    if f :| 0 <= f < |TABLE| && TABLE[f].sequence == bytes {
      TablePrefixFree(e, f);
    }
  }

  lemma EscAfter(bytes: seq<byte>, b: byte)
    requires bytes != []
    ensures Lookup(bytes + [ESC]).None?
    ensures IsPrefix(bytes + [ESC]) <==> AwaitingTerminator(bytes)
    ensures IsPrefix(bytes + [ESC, b]) ==> b == BACKSLASH
  {
    hide Lookup;
    LookupMeans(bytes + [ESC]);
    var n := |bytes|;
    if e :| 0 <= e < |TABLE| && TABLE[e].sequence == bytes + [ESC] { TableShape(e, n); }
    if e :| 0 <= e < |TABLE| && StartsWith(TABLE[e].sequence, bytes + [ESC]) {
      PrefixAt(TABLE[e].sequence, bytes + [ESC], n);
      TableShape(e, n);
      assert TABLE[e].sequence[..n] == (bytes + [ESC])[..n] == bytes;
    }
    if e :| 0 <= e < |TABLE| && StartsWith(TABLE[e].sequence, bytes + [ESC, b]) {
      PrefixAt(TABLE[e].sequence, bytes + [ESC, b], n);
      PrefixAt(TABLE[e].sequence, bytes + [ESC, b], n + 1);
      TableShape(e, n);
    }
    if AwaitingTerminator(bytes) {
      assert StartsWith(TABLE[8].sequence, bytes + [ESC]) || StartsWith(TABLE[10].sequence, bytes + [ESC])
          || StartsWith(TABLE[12].sequence, bytes + [ESC]);
    }
  }

  // ----- what is left over, and what is emitted -----

  predicate EndsWith(input: seq<byte>, suffix: seq<byte>) {
    |suffix| <= |input| && input[|input| - |suffix|..] == suffix
  }

  lemma Push(input: seq<byte>, b: byte)
    ensures Leftover(input + [b]) == Step(Leftover(input), b).leftover
    ensures EmittedAt(input + [b]) == Step(Leftover(input), b).emitted
  {
    hide Step;
    assert (input + [b])[..|input|] == input;
  }

  /** What is left over is a suffix of the input and a strict prefix of a table entry. */
  lemma {:induction false} LeftoverIsStrictPrefix(input: seq<byte>)
    ensures EndsWith(input, Leftover(input)) && Unfinished(Leftover(input))
  {
    hide Step, Lookup, IsPrefix, TABLE, Unfinished;
    if input == [] {
      UnfinishedExactly([]);
    } else {
      var init, b := input[..|input| - 1], input[|input| - 1];
      LeftoverIsStrictPrefix(init);
      StepKeeps(init, b);
      assert input == init + [b];
      Push(init, b);
    }
  }

  ghost predicate Unfinished(bytes: seq<byte>) {
    exists e :: 0 <= e < |TABLE| && StartsWith(TABLE[e].sequence, bytes) && |bytes| < |TABLE[e].sequence|
  }

  lemma UnfinishedExactly(bytes: seq<byte>)
    ensures IsPrefix(bytes) && Lookup(bytes).None? ==> Unfinished(bytes)
    ensures Unfinished([]) && Unfinished([ESC])
  {
    hide Lookup;
    LookupMeans(bytes);
    if e :| 0 <= e < |TABLE| && StartsWith(TABLE[e].sequence, bytes) {
      if |bytes| == |TABLE[e].sequence| { assert TABLE[e].sequence[..|bytes|] == TABLE[e].sequence; }
    }
    assert StartsWith(TABLE[0].sequence, []) && StartsWith(TABLE[0].sequence, [ESC]);
  }

  lemma StepKeeps(init: seq<byte>, b: byte)
    requires EndsWith(init, Leftover(init))
    ensures EndsWith(init + [b], Step(Leftover(init), b).leftover) && Unfinished(Step(Leftover(init), b).leftover)
  {
    hide Lookup, Leftover, IsPrefix, TABLE, Unfinished;
    var before := Leftover(init);
    UnfinishedExactly(before + [b]);
    assert (init + [b])[|init| - |before|..] == init[|init| - |before|..] + [b];
    assert (init + [b])[|init|..] == [b] && (init + [b])[|init| + 1..] == [];
  }

  /** Every request emitted is a table entry the input then ends with. */
  lemma EmittedIsThere(input: seq<byte>)
    requires EmittedAt(input).Some?
    ensures exists e :: 0 <= e < |TABLE| && EndsWith(input, TABLE[e].sequence) && TABLE[e].request == EmittedAt(input).value
  {
    hide Lookup, Leftover, IsPrefix, TABLE, Unfinished;
    var init, b := input[..|input| - 1], input[|input| - 1];
    var before := Leftover(init);
    var bytes := before + [b];
    LeftoverIsStrictPrefix(init);
    LookupMeans(bytes);
    var e :| 0 <= e < |TABLE| && TABLE[e].sequence == bytes && TABLE[e].request == Lookup(bytes).value;
    assert input[|input| - |bytes|..] == init[|init| - |before|..] + [b];
  }

  /** Beginning an entry anywhere but after an unterminated colour query, the scanner follows it byte by byte. */
  lemma {:induction false} FollowsEntry(before: seq<byte>, e: nat, k: nat)
    requires e < |TABLE| && 0 < k < |TABLE[e].sequence| && !AwaitingTerminator(Leftover(before))
    ensures Leftover(before + TABLE[e].sequence[..k]) == TABLE[e].sequence[..k]
    decreases k
  {
    hide Leftover, Lookup, IsPrefix, TABLE;
    var s := TABLE[e].sequence;
    if k == 1 {
      TableShape(e, 1);
      assert s[..1] == [ESC];
      Push(before, ESC);
      if Leftover(before) != [] { EscAfter(Leftover(before), ESC); }
    } else {
      FollowsEntry(before, e, k - 1);
      assert before + s[..k] == before + s[..k - 1] + [s[k - 1]];
      Push(before + s[..k - 1], s[k - 1]);
      assert s[..k] == s[..k - 1] + [s[k - 1]];
      StrictPrefix(e, k);
    }
  }

  /** Beginning an entry after an unterminated colour query, the scanner drops it. */
  lemma {:induction false} DropsEntry(before: seq<byte>, e: nat, k: nat)
    requires e < |TABLE| && 2 <= k < |TABLE[e].sequence| && AwaitingTerminator(Leftover(before))
    ensures Leftover(before + TABLE[e].sequence[..k]) == if TABLE[e].sequence[k - 1] == ESC then [ESC] else []
    decreases k
  {
    hide Leftover, Lookup, IsPrefix, TABLE;
    var s, open := TABLE[e].sequence, Leftover(before);
    TableShape(e, k - 1);
    if k == 2 {
      Push(before, ESC);
      EscAfter(open, s[1]);
      Push(before + [ESC], s[1]);
      LookupMeans(open + [ESC, s[1]]);
      assert open + [ESC] + [s[1]] == open + [ESC, s[1]];
      assert before + [ESC] + [s[1]] == before + s[..2];
    } else {
      DropsEntry(before, e, k - 1);
      assert before + s[..k] == before + s[..k - 1] + [s[k - 1]];
      Push(before + s[..k - 1], s[k - 1]);
      TableShape(e, k - 2);
    }
  }

  lemma EscBackslash()
    ensures Lookup([ESC, BACKSLASH]).None? && !IsPrefix([ESC, BACKSLASH])
  {
    hide Lookup;
    LookupMeans([ESC, BACKSLASH]);
    if e :| 0 <= e < |TABLE| && StartsWith(TABLE[e].sequence, [ESC, BACKSLASH]) {
      PrefixAt(TABLE[e].sequence, [ESC, BACKSLASH], 1);
      TableShape(e, 1);
    }
  }

  /**
    Where the input ends with a table entry, its request is emitted exactly when the entry did not
    begin in place of the terminator an unfinished colour query was waiting for; otherwise nothing is.
  */
  lemma EntryEmittedExactly(before: seq<byte>, e: nat)
    requires e < |TABLE|
    ensures EmittedAt(before + TABLE[e].sequence)
            == if AwaitingTerminator(Leftover(before)) then None else Some(TABLE[e].request)
  {
    hide Leftover, Lookup, IsPrefix, TABLE;
    var s := TABLE[e].sequence;
    var n := |s| - 1;
    TableLength(e);
    TableShape(e, n);
    TableShape(e, n - 1);
    assert before + s == before + s[..n] + [s[n]] && s == s[..n] + [s[n]];
    Push(before + s[..n], s[n]);
    if AwaitingTerminator(Leftover(before)) {
      DropsEntry(before, e, n);
      EscBackslash();
      assert [ESC] + [BACKSLASH] == [ESC, BACKSLASH];
    } else {
      FollowsEntry(before, e, n);
      EntryLooksUp(e);
    }
  }

  /** From idle, each entry yields exactly its own request and leaves the scanner idle. */
  lemma EntryFromIdle(e: nat)
    requires e < |TABLE|
    ensures Feed([], TABLE[e].sequence) == Fed([], [TABLE[e].request])
  {
    hide Leftover, Lookup, IsPrefix, Feed, Emissions, TABLE;
    var s := TABLE[e].sequence;
    var n := |s| - 1;
    TableLength(e);
    TableShape(e, n);
    assert Leftover([]) == [] by { Idle(); }
    EntryEmittedExactly([], e);
    FollowsEntry([], e, n);
    assert [] + s == s && [] + s[..n] == s[..n] && s == s[..n] + [s[n]];
    Push(s[..n], s[n]);
    EntryLooksUp(e);
    FeedIsEmissions(s);
    SilentUntil(e, n);
    EmissionsPush(s[..n], s[n]);
  }

  lemma Idle()
    ensures Leftover([]) == []
  {
  }

  lemma EmissionsPush(input: seq<byte>, b: byte)
    ensures Emissions(input + [b]) == Emissions(input) + (if EmittedAt(input + [b]).Some? then [EmittedAt(input + [b]).value] else [])
    ensures Emissions([]) == []
  {
    hide EmittedAt;
    assert (input + [b])[..|input|] == input;
  }

  lemma {:induction false} SilentUntil(e: nat, k: nat)
    requires e < |TABLE| && k < |TABLE[e].sequence|
    ensures Emissions(TABLE[e].sequence[..k]) == []
    decreases k
  {
    hide Leftover, Lookup, IsPrefix, Emissions, TABLE;
    var s := TABLE[e].sequence;
    EmissionsPush([], 0);
    if k > 0 {
      SilentUntil(e, k - 1);
      assert s[..k] == s[..k - 1] + [s[k - 1]];
      EmissionsPush(s[..k - 1], s[k - 1]);
      Push(s[..k - 1], s[k - 1]);
      Idle();
      if k > 1 {
        FollowsEntry([], e, k - 1);
        assert [] + s[..k - 1] == s[..k - 1];
        StrictPrefix(e, k);
      }
    }
  }

  /** After an unterminated colour query, no byte of an entry completes a request. */
  lemma DropsSilently(before: seq<byte>, e: nat, k: nat)
    requires e < |TABLE| && 0 < k < |TABLE[e].sequence| && AwaitingTerminator(Leftover(before))
    ensures EmittedAt(before + TABLE[e].sequence[..k]).None?
  {
    hide Leftover, Lookup, IsPrefix, EmittedAt, TABLE;
    var s, open := TABLE[e].sequence, Leftover(before);
    TableShape(e, k);
    if k == 1 {
      assert s[..1] == [ESC];
      EscAfter(open, ESC);
      Push(before, ESC);
    } else {
      assert before + s[..k] == before + s[..k - 1] + [s[k - 1]];
      Push(before + s[..k - 1], s[k - 1]);
      if k == 2 {
        assert before + s[..1] == before + [ESC] && open + [ESC] + [s[1]] == open + [ESC, s[1]];
        EscAfter(open, s[1]);
        Push(before, ESC);
        LookupMeans(open + [ESC, s[1]]);
      } else {
        DropsEntry(before, e, k - 1);
        TableShape(e, k - 1);
        TableShape(e, k - 2);
        EscBackslash();
        assert [ESC] + [BACKSLASH] == [ESC, BACKSLASH];
      }
    }
  }

  lemma {:induction false} DropsAll(before: seq<byte>, e: nat, k: nat)
    requires e < |TABLE| && k <= |TABLE[e].sequence| && AwaitingTerminator(Leftover(before))
    ensures Emissions(before + TABLE[e].sequence[..k]) == Emissions(before)
    decreases k
  {
    hide Leftover, AwaitingTerminator, EmittedAt, Emissions, TABLE;
    var s := TABLE[e].sequence;
    if k == 0 {
      assert before + s[..0] == before;
    } else {
      DropsAll(before, e, k - 1);
      assert before + s[..k] == before + s[..k - 1] + [s[k - 1]];
      EmissionsPush(before + s[..k - 1], s[k - 1]);
      if k < |s| {
        DropsSilently(before, e, k);
      } else {
        EntryEmittedExactly(before, e);
        assert s[..k] == s;
      }
      assert Emissions(before) + [] == Emissions(before);
    }
  }

  /** However much came before, a request that begins where a colour query's terminator was awaited is lost whole. */
  lemma InterruptedColourQueryLosesNext(before: seq<byte>, e: nat)
    requires e < |TABLE| && AwaitingTerminator(Leftover(before))
    ensures Feed([], before + TABLE[e].sequence).requests == Feed([], before).requests
    ensures EndsWith(before + TABLE[e].sequence, TABLE[e].sequence)
  {
    hide Leftover, AwaitingTerminator, Emissions, Feed, TABLE;
    var s := TABLE[e].sequence;
    DropsAll(before, e, |s|);
    assert s[..|s|] == s;
    FeedIsEmissions(before);
    FeedIsEmissions(before + s);
  }

  /** So `ESC ]10;? ESC [c` reports nothing at all: its `ESC [c` is lost. */
  lemma ColourQueryThenAttributes()
    ensures var open := [ESC, 0x5d, 0x31, 0x30, 0x3b, 0x3f];
      && AwaitingTerminator(Leftover(open)) && TABLE[5].sequence == [ESC, 0x5b, 0x63]
      && Feed([], open + [ESC, 0x5b, 0x63]).requests == []
  {
    var open := [ESC, 0x5d, 0x31, 0x30, 0x3b, 0x3f];
    OpenQuery();
    hide Leftover, Feed, Emissions, TABLE;
    Idle();
    FollowsEntry([], 7, 6);
    assert [] + open == open;
    SilentUntil(7, 6);
    FeedIsEmissions(open);
    InterruptedColourQueryLosesNext(open, 5);
  }

  lemma OpenQuery()
    ensures |TABLE| == 13 && |TABLE[7].sequence| == 7 && TABLE[5].sequence == [ESC, 0x5b, 0x63]
    ensures TABLE[7].sequence[..6] == [ESC, 0x5d, 0x31, 0x30, 0x3b, 0x3f]
  {
  }
}
