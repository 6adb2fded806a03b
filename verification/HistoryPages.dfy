/** Exactly which records a page holds, for any cursor: as many as fit, and always one. */
module HistoryPages {
  import opened Wrappers
  import opened Bytes
  import opened HistoryCodec
  import opened ActiveSegment
  import opened ArchiveDisk
  import opened ArchiveCrash
  import opened HistoryPaging

  /** The page's bytes: what was asked for, at least one and at most the configured page. */
  predicate IsLimit(limit: nat, requested: Option<nat>, pageBytes: nat) {
    var wanted := if requested.None? then pageBytes else requested.value;
    1 <= limit <= pageBytes && (wanted <= pageBytes ==> limit == wanted || (wanted == 0 && limit == 1))
    && (wanted > pageBytes ==> limit == pageBytes)
  }

  /** The page carries records `from` to `to` of the history, and says so. */
  ghost predicate Carries(page: Page, all: seq<Record>, from: nat, to: nat, none: nat) {
    && from <= to <= |all| && |page.chunks| == to - from
    && (forall i :: 0 <= i < to - from ==> page.chunks[i] == all[from + i].data)
    && page.firstSequence == (if from == to then 0 else all[from].sequence)
    && page.lastSequence == (if from == to then none else all[to - 1].sequence)
  }

  lemma LimitIs(requested: Option<nat>, pageBytes: nat)
    requires pageBytes >= 1
    ensures IsLimit(PageLimit(requested, pageBytes), requested, pageBytes)
  {
  }

  // ----- as many as fit -----

  lemma {:induction false} FillIsMost(records: seq<Record>, used: nat, limit: nat, started: bool)
    ensures var n := Fill(records, used, limit, started);
      n < |records| ==> used + DataBytes(records[..n + 1]) > limit
  {
    var n := Fill(records, used, limit, started);
    if n < |records| {
      if n > 0 {
        FillIsMost(records[1..], used + |records[0].data|, limit, true);
        assert records[..n + 1][1..] == records[1..][..n];
      } else {
        assert records[..1][1..] == [];
      }
    }
  }

  lemma {:induction false} FillBackIsMost(records: seq<Record>, used: nat, limit: nat, started: bool)
    ensures var n := FillBack(records, used, limit, started);
      n < |records| ==> used + DataBytes(records[|records| - n - 1..]) > limit
  {
    hide DataBytes, FillBack;
    var n := FillBack(records, used, limit, started);
    FillBackStep(records, used, limit, started);
    if n < |records| {
      var init, last := records[..|records| - 1], records[|records| - 1];
      if n > 0 {
        FillBackIsMost(init, used + |last.data|, limit, true);
        assert records[|records| - n - 1..] == init[|init| - (n - 1) - 1..] + [last];
        DataBytesPush(init[|init| - n..], last);
      } else {
        assert records[|records| - 1..] == [last];
        OneRecord(last);
      }
    }
  }

  lemma OneRecord(record: Record)
    ensures DataBytes([record]) == |record.data|
  {
    assert [record][1..] == [];
  }

  // ----- where a cursor falls -----

  /** `m` records are at or below the cursor, and the rest above it. */
  ghost predicate FallsAt(all: seq<Record>, cursor: nat, m: nat) {
    && m <= |all|
    && (forall i :: 0 <= i < m ==> all[i].sequence <= cursor)
    && (forall i :: m <= i < |all| ==> all[i].sequence > cursor)
  }

  lemma {:induction false} CursorFalls(all: seq<Record>, previous: nat, cursor: nat) returns (m: nat)
    requires Increasing(all, previous)
    ensures FallsAt(all, cursor, m)
  {
    if all == [] {
      m := 0;
    } else if all[0].sequence > cursor {
      m := 0;
      AllAbove(all, previous);
    } else {
      m := CursorFalls(all[1..], all[0].sequence, cursor);
      m := m + 1;
      assert forall i :: 1 <= i < |all| ==> all[i] == all[1..][i - 1];
    }
  }

  lemma {:induction false} AllAbove(all: seq<Record>, previous: nat)
    requires Increasing(all, previous)
    ensures forall i :: 0 <= i < |all| ==> all[0].sequence <= all[i].sequence
  {
    if |all| > 1 {
      AllAbove(all[1..], all[0].sequence);
      assert forall i :: 1 <= i < |all| ==> all[i] == all[1..][i - 1];
    }
  }

  lemma CutWhereFalls(all: seq<Record>, cursor: nat, m: nat)
    requires Increasing(all, 0) && FallsAt(all, cursor, m)
    ensures Upto(all, cursor) == all[..m] && After(all, cursor) == all[m..]
  {
    hide Increasing, Upto, After;
    assert all == all[..m] + all[m..];
    if m > 0 { assert LastOf(all[..m]) == all[m - 1].sequence; }
    CutAt(all[..m], all[m..], cursor);
  }

  /**
    From any cursor, a forward page is the records after it from the first, as many as fit in the limit and
    always one; it is complete exactly when nothing is left.
  */
  lemma ForwardPageExactly(snap: Snapshot, all: seq<Record>, after: nat, requested: Option<nat>, pageBytes: nat)
    returns (limit: nat, m: nat, n: nat)
    requires HistoryPaging.Stored(snap, all) && pageBytes >= 1
    ensures IsLimit(limit, requested, pageBytes) && limit == PageLimit(requested, pageBytes)
    ensures FallsAt(all, after, m) && m + n <= |all| && (m < |all| ==> n > 0)
    ensures n <= 1 || DataBytes(all[m..m + n]) <= limit
    ensures m + n < |all| ==> DataBytes(all[m..m + n + 1]) > limit
    ensures ReadForward(snap, after, limit).Some?
    ensures var page := ReadForward(snap, after, limit).value;
      Carries(page, all, m, m + n, after) && page.nextSequence == page.lastSequence && (page.complete <==> m + n == |all|)
  {
    hide HistoryPaging.Stored, ReadForward, Fill, Increasing, DataBytes, After, Upto, Newest;
    limit := PageLimit(requested, pageBytes);
    LimitIs(requested, pageBytes);
    NextAbove(snap, all, 0);
    m := CursorFalls(all, 0, after);
    CutWhereFalls(all, after, m);
    ForwardSees(snap, all, after);
    NewestIsLast(snap, all, after);
    n := Fill(all[m..], 0, limit, false);
    FillBounded(all[m..], 0, limit, false);
    FillIsMost(all[m..], 0, limit, false);
    assert all[m..][..n] == all[m..m + n];
    if m + n < |all| { assert all[m..][..n + 1] == all[m..m + n + 1]; }
    if all != [] { assert LastOf(all) == all[|all| - 1].sequence; }
  }

  /**
    Below any cursor, or from the newest, a backward page is the records just before it, as many as fit
    and always one; it is complete exactly when it reaches the first.
  */
  lemma BackwardPageExactly(snap: Snapshot, all: seq<Record>, before: nat, requested: Option<nat>, pageBytes: nat)
    returns (limit: nat, m: nat, n: nat)
    requires HistoryPaging.Stored(snap, all) && pageBytes >= 1
    ensures IsLimit(limit, requested, pageBytes) && limit == PageLimit(requested, pageBytes)
    ensures m <= |all| && (if before == 0 then m == |all| else FallsAt(all, before - 1, m))
    ensures n <= m && (m > 0 ==> n > 0)
    ensures n <= 1 || DataBytes(all[m - n..m]) <= limit
    ensures n < m ==> DataBytes(all[m - n - 1..m]) > limit
    ensures ReadBackward(snap, before, limit).Some?
    ensures var page := ReadBackward(snap, before, limit).value;
      Carries(page, all, m - n, m, 0) && page.nextSequence == page.firstSequence && (page.complete <==> n == m)
  {
    hide HistoryPaging.Stored, ReadBackward, FillBack, Increasing, DataBytes, Upto, TakeBack, Ceiling;
    limit := PageLimit(requested, pageBytes);
    LimitIs(requested, pageBytes);
    NextAbove(snap, all, 0);
    m := CursorFalls(all, 0, Ceiling(snap, before));
    CutWhereFalls(all, Ceiling(snap, before), m);
    CeilingFalls(snap, all, before, m);
    BackwardSees(snap, all, before, limit);
    n := FillBack(all[..m], 0, limit, false);
    TakeBackBelow(all, m, Ceiling(snap, before), limit);
    FillBackIsMost(all[..m], 0, limit, false);
    if n < m { assert all[..m][m - n - 1..] == all[m - n - 1..m]; }
  }

  lemma CeilingFalls(snap: Snapshot, all: seq<Record>, before: nat, m: nat)
    requires HistoryPaging.Stored(snap, all) && FallsAt(all, Ceiling(snap, before), m)
    ensures if before == 0 then m == |all| else FallsAt(all, before - 1, m)
  {
    hide HistoryPaging.Stored, Newest, Increasing;
    NewestIsLast(snap, all, 0);
    NextAbove(snap, all, 0);
    LastIsMost(all, 0);
  }

  lemma {:induction false} LastIsMost(all: seq<Record>, previous: nat)
    requires Increasing(all, previous)
    ensures forall i :: 0 <= i < |all| ==> all[i].sequence <= LastOf(all)
  {
    if |all| > 1 {
      LastIsMost(all[1..], all[0].sequence);
      assert forall i :: 1 <= i < |all| ==> all[i] == all[1..][i - 1];
      AllAbove(all, previous);
    }
  }
}
