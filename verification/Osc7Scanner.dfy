/** The scanner for working-directory reports: `ESC ] 7 ;`, a payload, and `BEL` or `ESC \` (section 5.6 of ECMA-48). */
module Osc7Scanner {
  import opened Wrappers
  import opened Bytes
  import opened RequestScanner

  const PREFIX: seq<byte> := [ESC, 0x5d, 0x37, 0x3b]
  const MAX_PAYLOAD_BYTES: nat := 4096

  datatype State = State(prefixLen: nat, payload: seq<byte>, inPayload: bool, sawEscape: bool)

  const IDLE := State(0, [], false, false)

  /** The state after one byte, and the payload that byte finished. */
  datatype Next = Next(state: State, finished: Option<seq<byte>>)

  function StepPrefix(s: State, b: byte): Next
    requires s.prefixLen < |PREFIX|
  {
    if b == PREFIX[s.prefixLen] then
      if s.prefixLen + 1 == |PREFIX| then Next(s.(prefixLen := 0, inPayload := true, payload := []), None)
      else Next(s.(prefixLen := s.prefixLen + 1), None)
    else Next(s.(prefixLen := if b == PREFIX[0] then 1 else 0), None)
  }

  function Grown(payload: seq<byte>, b: byte): seq<byte> {
    if |payload| < MAX_PAYLOAD_BYTES then payload + [b] else payload
  }

  function StepPayload(s: State, b: byte): Next {
    if s.sawEscape && b == BACKSLASH then Next(IDLE, Some(s.payload))
    else
      var s := if s.sawEscape then s.(sawEscape := false, payload := Grown(s.payload, ESC)) else s;
      if b == BEL then Next(IDLE, Some(s.payload))
      else if b == ESC then Next(s.(sawEscape := true), None)
      else if |s.payload| < MAX_PAYLOAD_BYTES then Next(s.(payload := s.payload + [b]), None)
      else Next(IDLE, None)
  }

  function StepByte(s: State, b: byte): Next
    requires s.prefixLen < |PREFIX|
  {
    if s.inPayload then StepPayload(s, b) else StepPrefix(s, b)
  }

  /** Every state reached keeps the counter inside the prefix, the payload within its limit, and is idle when it says so. */
  predicate Ok(s: State) {
    && s.prefixLen < |PREFIX| && |s.payload| <= MAX_PAYLOAD_BYTES
    && (s.inPayload ==> s.prefixLen == 0)
    && (!s.inPayload ==> s.payload == [] && !s.sawEscape)
  }

  lemma StepOk(s: State, b: byte)
    requires Ok(s)
    ensures Ok(StepByte(s, b).state)
    ensures StepByte(s, b).finished.Some? ==> |StepByte(s, b).finished.value| <= MAX_PAYLOAD_BYTES
  {
  }

  /** The state after some input, and the payloads it finished, in order. */
  function Run(s: State, input: seq<byte>): (State, seq<seq<byte>>)
    requires Ok(s)
    ensures Ok(Run(s, input).0)
    decreases |input|
  {
    if input == [] then (s, [])
    else
      StepOk(s, input[0]);
      var next := StepByte(s, input[0]);
      var rest := Run(next.state, input[1..]);
      (rest.0, (if next.finished.Some? then [next.finished.value] else []) + rest.1)
  }

  /** However the input is cut, the same payloads are finished. */
  lemma {:induction false} RunConcat(s: State, a: seq<byte>, b: seq<byte>)
    requires Ok(s)
    ensures var first := Run(s, a); var second := Run(first.0, b);
      Run(s, a + b) == (second.0, first.1 + second.1)
    decreases |a|
  {
    hide StepByte;
    if a == [] {
      assert a + b == b && [] + Run(s, b).1 == Run(s, b).1;
    } else {
      assert (a + b)[0] == a[0] && (a + b)[1..] == a[1..] + b;
      StepOk(s, a[0]);
      var next := StepByte(s, a[0]);
      RunConcat(next.state, a[1..], b);
      var first, second := Run(next.state, a[1..]), Run(Run(next.state, a[1..]).0, b);
      var head := if next.finished.Some? then [next.finished.value] else [];
      assert head + (first.1 + second.1) == head + first.1 + second.1;
    }
  }

  lemma RunOne(s: State, b: byte)
    requires Ok(s)
    ensures var next := StepByte(s, b);
      Run(s, [b]) == (next.state, if next.finished.Some? then [next.finished.value] else [])
  {
    hide StepByte;
    StepOk(s, b);
    var next := StepByte(s, b);
    assert Run(next.state, [b][1..]) == (next.state, []);
    var head := if next.finished.Some? then [next.finished.value] else [];
    assert head + [] == head;
  }

  lemma RunPush(s: State, input: seq<byte>, b: byte)
    requires Ok(s)
    ensures var before := Run(s, input); var next := StepByte(before.0, b);
      Run(s, input + [b]) == (next.state, if next.finished.Some? then before.1 + [next.finished.value] else before.1)
  {
    hide StepByte, Run;
    assert Run(s, input).1 + [] == Run(s, input).1;
    RunConcat(s, input, [b]);
    RunOne(Run(s, input).0, b);
  }

  // ----- the prefix counter -----

  /** `k` is the longest strict prefix of `PREFIX` that the input ends with. */
  predicate LongestMatch(input: seq<byte>, k: nat) {
    k < |PREFIX| && EndsWith(input, PREFIX[..k]) && forall j :: k < j < |PREFIX| ==> !EndsWith(input, PREFIX[..j])
  }

  lemma EndsWithPush(input: seq<byte>, b: byte, k: nat)
    requires k < |PREFIX|
    ensures EndsWith(input + [b], PREFIX[..k + 1]) <==> EndsWith(input, PREFIX[..k]) && b == PREFIX[k]
  {
    hide PREFIX;
    var all, p := input + [b], PREFIX[..k + 1];
    assert p[..k] == PREFIX[..k] && p[k] == PREFIX[k];
    if EndsWith(all, p) {
      assert all[|all| - (k + 1)..][..k] == input[|input| - k..];
      assert all[|all| - (k + 1)..][k] == b;
    }
    if EndsWith(input, PREFIX[..k]) && b == PREFIX[k] {
      assert all[|all| - (k + 1)..] == input[|input| - k..] + [b] == p;
    }
  }

  lemma SuffixStarts(input: seq<byte>, suffix: seq<byte>, i: nat)
    requires i < |suffix|
    ensures EndsWith(input, suffix) ==> input[|input| - |suffix| + i] == suffix[i]
  {
    if EndsWith(input, suffix) { assert input[|input| - |suffix|..][i] == suffix[i]; }
  }

  /** `ESC` occurs in the prefix only at its start, so a match has no shorter one inside. */
  lemma NoShorterMatch(input: seq<byte>, k: nat, j: nat)
    requires 0 < j < k < |PREFIX| && EndsWith(input, PREFIX[..k])
    ensures !EndsWith(input, PREFIX[..j])
  {
    SuffixStarts(input, PREFIX[..k], k - j);
    SuffixStarts(input, PREFIX[..j], 0);
  }

  /** The next byte of the prefix lengthens the match by one, and completes it at the last. */
  lemma MatchGrows(input: seq<byte>, k: nat, b: byte)
    requires LongestMatch(input, k) && b == PREFIX[k]
    ensures if k + 1 == |PREFIX| then EndsWith(input + [b], PREFIX) else LongestMatch(input + [b], k + 1)
    ensures EndsWith(input + [b], PREFIX) ==> k + 1 == |PREFIX|
  {
    hide EndsWith, LongestMatch, PREFIX;
    PrefixFacts();
    LongestMeans(input, k);
    LongestMeans(input + [b], k + 1);
    EndsWithPush(input, b, k);
    if k < 1 { EndsWithPush(input, b, 1); }
    if k < 2 { EndsWithPush(input, b, 2); }
    EndsWithPush(input, b, 3);
  }

  lemma PrefixFacts()
    ensures |PREFIX| == 4 && PREFIX[..4] == PREFIX && PREFIX[0] == ESC
    ensures PREFIX[0] != PREFIX[1] && PREFIX[0] != PREFIX[2] && PREFIX[0] != PREFIX[3]
    ensures forall input :: EndsWith(input, PREFIX[..0])
  {
  }

  /** Any other byte leaves only a match of that byte alone. */
  lemma MatchRestarts(input: seq<byte>, k: nat, b: byte)
    requires LongestMatch(input, k) && b != PREFIX[k]
    ensures LongestMatch(input + [b], if b == PREFIX[0] then 1 else 0)
    ensures !EndsWith(input + [b], PREFIX)
  {
    hide EndsWith, LongestMatch, PREFIX;
    PrefixFacts();
    LongestMeans(input, k);
    EndsWithPush(input, b, 0);
    EndsWithPush(input, b, 1);
    EndsWithPush(input, b, 2);
    EndsWithPush(input, b, 3);
    if k > 1 { NoShorterMatch(input, k, 1); }
    if k > 2 { NoShorterMatch(input, k, 2); }
    LongestMeans(input + [b], if b == PREFIX[0] then 1 else 0);
  }

  lemma MatchStep(input: seq<byte>, k: nat, b: byte)
    requires LongestMatch(input, k)
    ensures b == PREFIX[k] && k + 1 == |PREFIX| ==> EndsWith(input + [b], PREFIX)
    ensures b == PREFIX[k] && k + 1 < |PREFIX| ==> LongestMatch(input + [b], k + 1)
    ensures b != PREFIX[k] ==> LongestMatch(input + [b], if b == PREFIX[0] then 1 else 0)
    ensures !(b == PREFIX[k] && k + 1 == |PREFIX|) ==> !EndsWith(input + [b], PREFIX)
  {
    hide EndsWith;
    if b == PREFIX[k] {
      MatchGrows(input, k, b);
    } else {
      MatchRestarts(input, k, b);
    }
  }

  lemma LongestMeans(input: seq<byte>, k: nat)
    ensures LongestMatch(input, k) <==>
            && k < |PREFIX| == 4 && EndsWith(input, PREFIX[..k])
            && (k < 1 ==> !EndsWith(input, PREFIX[..1])) && (k < 2 ==> !EndsWith(input, PREFIX[..2]))
            && (k < 3 ==> !EndsWith(input, PREFIX[..3]))
  {
    hide EndsWith;
  }

  /** Where the input last left a payload, or its beginning. */
  function Since(input: seq<byte>): (n: nat)
    ensures n <= |input|
  {
    if input == [] then 0
    else if Run(IDLE, input[..|input| - 1]).0.inPayload && !Run(IDLE, input).0.inPayload then |input|
    else Since(input[..|input| - 1])
  }

  lemma SincePush(input: seq<byte>, b: byte)
    ensures Since(input + [b]) ==
            if Run(IDLE, input).0.inPayload && !Run(IDLE, input + [b]).0.inPayload then |input| + 1 else Since(input)
  {
    hide Run;
    assert (input + [b])[..|input|] == input;
  }

  lemma LeavingIsIdle(s: State, b: byte)
    requires Ok(s) && s.inPayload && !StepByte(s, b).state.inPayload
    ensures StepByte(s, b).state == IDLE && b != ESC
    ensures b == 0x5d || b == 0x37 ==> StepByte(s, b).finished.None?
  {
  }

  /**
    Reading any input from idle: outside a payload the counter is the longest match of what was read
    since a payload was last left, and a payload begins exactly where that first ends with the prefix.
  */
  lemma {:induction false} CounterIsLongestMatch(input: seq<byte>)
    ensures var s := Run(IDLE, input).0;
      !s.inPayload ==>
        && LongestMatch(input[Since(input)..], s.prefixLen)
        && forall b :: Run(IDLE, input + [b]).0.inPayload <==> EndsWith(input[Since(input)..] + [b], PREFIX)
    decreases |input|
  {
    hide Run, LongestMatch, EndsWith, StepPayload, Since;
    if input == [] {
      EmptyMatch();
    } else {
      var init, last := input[..|input| - 1], input[|input| - 1];
      assert input == init + [last];
      CounterIsLongestMatch(init);
      RunPush(IDLE, init, last);
      SincePush(init, last);
      if Run(IDLE, init).0.inPayload {
        if !Run(IDLE, input).0.inPayload {
          LeavingIsIdle(Run(IDLE, init).0, last);
          EmptyMatch();
          assert input[|input|..] == [];
        }
      } else {
        MatchStep(init[Since(init)..], Run(IDLE, init).0.prefixLen, last);
        assert input[Since(input)..] == init[Since(init)..] + [last];
      }
    }
    if !Run(IDLE, input).0.inPayload {
      forall b
        ensures Run(IDLE, input + [b]).0.inPayload <==> EndsWith(input[Since(input)..] + [b], PREFIX)
      {
        RunPush(IDLE, input, b);
        MatchStep(input[Since(input)..], Run(IDLE, input).0.prefixLen, b);
      }
    }
  }

  /** The last `m` bytes of the payload just left began a report, and everything read since continues it. */
  predicate CutsReport(input: seq<byte>, m: nat) {
    var since := Since(input);
    && 2 <= m && m + (|input| - since) < |PREFIX|
    && EndsWith(input[..since], PREFIX[..m]) && input[since..] == PREFIX[m..m + (|input| - since)]
  }

  /** A payload is never left on `ESC`, and one left on another byte of the prefix was too long. */
  lemma {:induction false} LeftOn(input: seq<byte>)
    ensures var since := Since(input);
      since > 0 ==>
        && Run(IDLE, input[..since - 1]).0.inPayload && !Run(IDLE, input[..since]).0.inPayload
        && input[since - 1] != ESC
        && (input[since - 1] == 0x5d || input[since - 1] == 0x37 ==>
              Run(IDLE, input[..since]).1 == Run(IDLE, input[..since - 1]).1)
    decreases |input|
  {
    hide Run, StepPayload;
    if input != [] {
      var init, last := input[..|input| - 1], input[|input| - 1];
      assert input == init + [last] && input[..|input|] == input;
      RunPush(IDLE, init, last);
      if Run(IDLE, init).0.inPayload && !Run(IDLE, input).0.inPayload {
        LeavingIsIdle(Run(IDLE, init).0, last);
      } else {
        LeftOn(init);
        var since := Since(init);
        assert init[..since] == input[..since];
        if since > 0 { assert init[..since - 1] == input[..since - 1]; }
      }
    }
  }

  /** A match that is longer than what was read since the cut splits there. */
  lemma MatchSplits(input: seq<byte>, since: nat, j: nat)
    requires since <= |input| && j < |PREFIX|
    ensures j <= |input| - since ==> (EndsWith(input, PREFIX[..j]) <==> EndsWith(input[since..], PREFIX[..j]))
    ensures j > |input| - since ==>
              (EndsWith(input, PREFIX[..j]) <==>
               EndsWith(input[..since], PREFIX[..j - (|input| - since)]) && input[since..] == PREFIX[..j][j - (|input| - since)..])
  {
    hide PREFIX;
    PrefixFacts();
    var p, tail := PREFIX[..j], |input| - since;
    if j <= tail {
      assert input[since..][tail - j..] == input[|input| - j..];
    } else {
      var m := j - tail;
      assert p == p[..m] + p[m..] && p[..m] == PREFIX[..m];
      if j <= |input| {
        assert input[|input| - j..] == input[..since][since - m..] + input[since..];
      }
    }
  }

  lemma CutHides(input: seq<byte>, k: nat, m: nat)
    requires LongestMatch(input[Since(input)..], k) && CutsReport(input, m)
    ensures !LongestMatch(input, k)
  {
    hide EndsWith, Since, PREFIX, Run;
    PrefixFacts();
    var tail := |input| - Since(input);
    MatchSplits(input, Since(input), m + tail);
    assert PREFIX[..m + tail][m..] == PREFIX[m..m + tail];
    assert k <= tail by { MatchFits(input[Since(input)..], k); }
  }

  lemma MatchFits(input: seq<byte>, k: nat)
    requires LongestMatch(input, k)
    ensures k <= |input|
  {
  }

  lemma NoneHidden(input: seq<byte>, k: nat, j: nat)
    requires LongestMatch(input[Since(input)..], k) && k < j < |PREFIX|
    requires !CutsReport(input, 2) && !CutsReport(input, 3)
    ensures !EndsWith(input, PREFIX[..j])
  {
    hide EndsWith, Run, PREFIX, Since;
    PrefixFacts();
    var since := Since(input);
    var tail := |input| - since;
    MatchSplits(input, since, j);
    if j > tail && EndsWith(input, PREFIX[..j]) {
      var m := j - tail;
      assert PREFIX[..j][m..] == PREFIX[m..m + tail];
      assert m == 1;
      SuffixStarts(input[..since], PREFIX[..1], 0);
      EndsWithLong(input[..since], PREFIX[..1]);
      LeftOn(input);
    }
  }

  lemma EndsWithLong(input: seq<byte>, suffix: seq<byte>)
    ensures EndsWith(input, suffix) ==> |suffix| <= |input|
  {
  }

  /**
    The counter is the longest match of the whole input exactly when leaving the last payload has not
    cut a report in two; it does so only where that payload was too long, and so reports nothing.
  */
  lemma CounterIsWholeMatchExactly(input: seq<byte>)
    requires !Run(IDLE, input).0.inPayload
    ensures LongestMatch(input, Run(IDLE, input).0.prefixLen) <==> !CutsReport(input, 2) && !CutsReport(input, 3)
    ensures CutsReport(input, 2) || CutsReport(input, 3) ==>
              var since := Since(input);
              since > 0 && Run(IDLE, input[..since - 1]).0.inPayload
              && Run(IDLE, input[..since]).1 == Run(IDLE, input[..since - 1]).1
  {
    hide Run, EndsWith, LongestMatch, Since, PREFIX, CutsReport;
    var k := Run(IDLE, input).0.prefixLen;
    CounterIsLongestMatch(input);
    if CutsReport(input, 2) {
      CutHides(input, k, 2);
      CutByOverflow(input, 2);
    } else if CutsReport(input, 3) {
      CutHides(input, k, 3);
      CutByOverflow(input, 3);
    } else {
      NoneHiddenAtAll(input, k);
    }
  }

  lemma NoneHiddenAtAll(input: seq<byte>, k: nat)
    requires LongestMatch(input[Since(input)..], k) && !CutsReport(input, 2) && !CutsReport(input, 3)
    ensures LongestMatch(input, k)
  {
    hide EndsWith, Run, PREFIX, Since, CutsReport;
    MatchFits(input[Since(input)..], k);
    MatchSplits(input, Since(input), k);
    forall j | k < j < |PREFIX|
      ensures !EndsWith(input, PREFIX[..j])
    {
      NoneHidden(input, k, j);
    }
  }

  lemma CutByOverflow(input: seq<byte>, m: nat)
    requires CutsReport(input, m)
    ensures var since := Since(input);
      since > 0 && Run(IDLE, input[..since - 1]).0.inPayload
      && Run(IDLE, input[..since]).1 == Run(IDLE, input[..since - 1]).1
  {
    hide EndsWith, Run, Since;
    var since := Since(input);
    SuffixStarts(input[..since], PREFIX[..m], m - 1);
    EndsWithLong(input[..since], PREFIX[..m]);
    LeftOn(input);
  }

  lemma EmptyMatch()
    ensures Run(IDLE, []).0 == IDLE && LongestMatch([], 0)
  {
  }

  // ----- payloads -----

  /** A payload that neither terminator can end early. */
  predicate Uninterrupted(p: seq<byte>) {
    && BEL !in p
    && (forall i :: 0 <= i < |p| - 1 ==> !(p[i] == ESC && p[i + 1] == BACKSLASH))
  }

  /** What the scanner has collected of a payload: an `ESC` at the end is held back. */
  function Collected(p: seq<byte>): State {
    if p != [] && p[|p| - 1] == ESC then State(0, p[..|p| - 1], true, true) else State(0, p, true, false)
  }

  lemma {:induction false} CollectsPayload(p: seq<byte>)
    requires Uninterrupted(p) && |p| <= MAX_PAYLOAD_BYTES
    ensures Run(State(0, [], true, false), p) == (Collected(p), [])
  {
    hide Run, StepByte, Collected;
    if p == [] {
      RunNothing(State(0, [], true, false));
      NothingCollected();
    } else {
      var init, last := p[..|p| - 1], p[|p| - 1];
      assert p == init + [last];
      CollectsPayload(init);
      RunPush(State(0, [], true, false), init, last);
      CollectStep(init, last);
    }
  }

  lemma NothingCollected()
    ensures Collected([]) == State(0, [], true, false)
  {
  }

  lemma CollectStep(init: seq<byte>, last: byte)
    requires Uninterrupted(init + [last]) && |init| < MAX_PAYLOAD_BYTES
    ensures StepByte(Collected(init), last) == Next(Collected(init + [last]), None)
  {
    var p := init + [last];
    assert p[..|init|] == init && p[|init|] == last;
    if init != [] && init[|init| - 1] == ESC {
      assert p[|init| - 1] == ESC;
      assert init[..|init| - 1] + [ESC] == init;
    }
  }

  lemma RunNothing(s: State)
    requires Ok(s)
    ensures Run(s, []) == (s, [])
  {
  }

  lemma PrefixEnters()
    ensures Run(IDLE, PREFIX) == (State(0, [], true, false), [])
  {
    assert StepByte(IDLE, PREFIX[0]) == Next(State(1, [], false, false), None);
    assert StepByte(State(1, [], false, false), PREFIX[1]) == Next(State(2, [], false, false), None);
    assert StepByte(State(2, [], false, false), PREFIX[2]) == Next(State(3, [], false, false), None);
    assert StepByte(State(3, [], false, false), PREFIX[3]) == Next(State(0, [], true, false), None);
    hide Run, StepByte;
    RunNothing(IDLE);
    RunPush(IDLE, [], PREFIX[0]);
    RunPush(IDLE, [] + [PREFIX[0]], PREFIX[1]);
    RunPush(IDLE, [] + [PREFIX[0]] + [PREFIX[1]], PREFIX[2]);
    RunPush(IDLE, [] + [PREFIX[0]] + [PREFIX[1]] + [PREFIX[2]], PREFIX[3]);
    assert [] + [PREFIX[0]] + [PREFIX[1]] + [PREFIX[2]] + [PREFIX[3]] == PREFIX;
  }

  /** Either terminator finishes what was collected. */
  lemma CollectedEnds(p: seq<byte>)
    requires Uninterrupted(p) && |p| <= MAX_PAYLOAD_BYTES
    ensures Ok(Collected(p)) && StepByte(Collected(p), BEL) == Next(IDLE, Some(p))
    ensures var escaped := StepByte(Collected(p), ESC);
      escaped.finished.None? && StepByte(escaped.state, BACKSLASH) == Next(IDLE, Some(p))
  {
    assert p != [] && p[|p| - 1] == ESC ==> p[..|p| - 1] + [ESC] == p;
  }

  lemma Collects(p: seq<byte>)
    requires Uninterrupted(p) && |p| <= MAX_PAYLOAD_BYTES
    ensures Run(IDLE, PREFIX + p) == (Collected(p), [])
  {
    hide Run, StepByte, Collected, PREFIX;
    PrefixEnters();
    CollectsPayload(p);
    RunConcat(IDLE, PREFIX, p);
    var none: seq<seq<byte>> := [];
    assert none + none == none;
  }

  /** A report with either terminator is delivered whole, once, and leaves the scanner idle. */
  lemma ReportDelivered(p: seq<byte>)
    requires Uninterrupted(p) && |p| <= MAX_PAYLOAD_BYTES
    ensures Run(IDLE, PREFIX + p + [BEL]) == (IDLE, [p])
    ensures Run(IDLE, PREFIX + p + [ESC, BACKSLASH]) == (IDLE, [p])
  {
    hide Run, StepByte, Collected, PREFIX;
    Collects(p);
    CollectedEnds(p);
    var collected := PREFIX + p;
    RunPush(IDLE, collected, BEL);
    RunPush(IDLE, collected, ESC);
    RunPush(IDLE, collected + [ESC], BACKSLASH);
    assert collected + [ESC] + [BACKSLASH] == collected + [ESC, BACKSLASH];
    assert [] + [p] == [p];
  }

  /** A payload that is full, and no `ESC` pending. */
  predicate Full(p: seq<byte>) {
    Uninterrupted(p) && |p| == MAX_PAYLOAD_BYTES && p[|p| - 1] != ESC
  }

  /** A report that interrupts a full payload is lost: its prefix has been read and no payload begins. */
  lemma FullPayloadLosesNext(p: seq<byte>)
    requires Full(p)
    ensures var input := PREFIX + p + PREFIX[..2];
      Run(IDLE, input) == (IDLE, []) && LongestMatch(input, 2) && CutsReport(input, 2)
    ensures Run(IDLE, PREFIX + p + PREFIX) == (IDLE, [])
  {
    hide Run, LongestMatch;
    Collects(p);
    var full := PREFIX + p;
    RunPush(IDLE, full, ESC);
    RunPush(IDLE, full + [ESC], 0x5d);
    RunPush(IDLE, full + [ESC] + [0x5d], 0x37);
    RunPush(IDLE, full + [ESC] + [0x5d] + [0x37], 0x3b);
    assert full + [ESC] + [0x5d] == full + PREFIX[..2] && full + [ESC] + [0x5d] + [0x37] + [0x3b] == full + PREFIX;
    SincePush(full + [ESC], 0x5d);
    var input := full + PREFIX[..2];
    assert input[|input| - 2..] == PREFIX[..2] && input[..|input|] == input && input[|input|..] == PREFIX[2..2];
    LongestMeans(input, 2);
    assert !EndsWith(input, PREFIX[..3]) by { SuffixStarts(input, PREFIX[..3], 0); }
  }


  /** For one: after 4096 letters, `ESC ]` leaves the counter at nothing. */
  lemma LettersLoseNext()
    ensures var letters: seq<byte> := seq(MAX_PAYLOAD_BYTES, _ => 0x61);
      var input := PREFIX + letters + [ESC, 0x5d];
      && !Run(IDLE, input).0.inPayload && Run(IDLE, input).0.prefixLen == 0 && LongestMatch(input, 2)
      && Run(IDLE, PREFIX + letters + PREFIX) == (IDLE, [])
  {
    hide Run, LongestMatch;
    FullPayloadLosesNext(seq(MAX_PAYLOAD_BYTES, _ => 0x61));
    assert PREFIX[..2] == [ESC, 0x5d];
  }

  // ----- the scanner object -----

  class Scanner {
    var prefixLen: nat
    var payload: seq<byte>
    var inPayload: bool
    var sawEscape: bool

    function Now(): State
      reads this
    {
      State(prefixLen, payload, inPayload, sawEscape)
    }

    constructor ()
      ensures Now() == IDLE
    {
      prefixLen, payload, inPayload, sawEscape := 0, [], false, false;
    }

    method Reset()
      modifies this
      ensures Now() == IDLE
    {
      prefixLen, payload, inPayload, sawEscape := 0, [], false, false;
    }

    method FeedByte(b: byte) returns (finished: Option<seq<byte>>)
      requires Ok(Now())
      modifies this
      ensures Next(Now(), finished) == StepByte(old(Now()), b)
    {
      finished := None;
      if !inPayload {
        if b == PREFIX[prefixLen] {
          prefixLen := prefixLen + 1;
          if prefixLen == |PREFIX| {
            prefixLen, inPayload, payload := 0, true, [];
          }
        } else {
          prefixLen := if b == PREFIX[0] then 1 else 0;
        }
        return;
      }
      if sawEscape {
        sawEscape := false;
        if b == BACKSLASH {
          finished := Some(payload);
          Reset();
          return;
        }
        if |payload| < MAX_PAYLOAD_BYTES {
          payload := payload + [ESC];
        }
      }
      if b == BEL {
        finished := Some(payload);
        Reset();
      } else if b == ESC {
        sawEscape := true;
      } else if |payload| < MAX_PAYLOAD_BYTES {
        payload := payload + [b];
      } else {
        Reset();
      }
    }

    /** The last payload of the chunk that parses as a path. */
    method Feed<Path>(chunk: seq<byte>, parse: seq<byte> -> Option<Path>) returns (last: Option<Path>)
      requires Ok(Now())
      modifies this
      ensures Now() == Run(old(Now()), chunk).0 && Ok(Now())
      ensures last == LastParsed(Run(old(Now()), chunk).1, parse)
    {
      hide StepByte, Run, LastParsed;
      last := None;
      ghost var start, done: seq<seq<byte>> := Now(), [];
      RunNothing(start);
      NothingParsed(parse);
      for i := 0 to |chunk|
        invariant Ok(Now()) && Run(start, chunk[..i]) == (Now(), done)
        invariant last == LastParsed(done, parse)
      {
        StepOk(Now(), chunk[i]);
        RunPush(start, chunk[..i], chunk[i]);
        assert chunk[..i] + [chunk[i]] == chunk[..i + 1];
        var finished := FeedByte(chunk[i]);
        if finished.Some? {
          ParsedPush(done, finished.value, parse);
          var path := parse(finished.value);
          last := if path.Some? then path else last;
          done := done + [finished.value];
        } else {
          assert done + [] == done;
        }
      }
      assert chunk[..|chunk|] == chunk;
    }
  }

  function LastParsed<Path>(payloads: seq<seq<byte>>, parse: seq<byte> -> Option<Path>): Option<Path> {
    if payloads == [] then None
    else
      var path := parse(payloads[|payloads| - 1]);
      if path.Some? then path else LastParsed(payloads[..|payloads| - 1], parse)
  }

  lemma NothingParsed<Path>(parse: seq<byte> -> Option<Path>)
    ensures LastParsed([], parse) == None
  {
  }

  lemma ParsedPush<Path>(payloads: seq<seq<byte>>, payload: seq<byte>, parse: seq<byte> -> Option<Path>)
    ensures LastParsed(payloads + [payload], parse)
            == if parse(payload).Some? then parse(payload) else LastParsed(payloads, parse)
  {
    assert (payloads + [payload])[..|payloads|] == payloads;
  }
}
