/**
 * The span computation of the opening-times grid (`computeSpans` in
 * src/lib/OpeningTimesPicker.tsx): a business day's weekdays are sorted
 * in place and then split, in one left-to-right scan, into maximal runs of
 * consecutive days.
 */
module Spans {
  import opened Types
  import opened Lists

  /** One rendered run of consecutive weekdays, `fromDay` to `toDay` inclusive. */
  datatype Span = Span(fromDay: Day, toDay: Day)

  predicate Covers(sp: Span, d: int) {
    sp.fromDay <= d <= sp.toDay
  }

  /** Every span holds at least one day. */
  ghost predicate NonEmpty(r: seq<Span>) {
    forall k :: 0 <= k < |r| ==> r[k].fromDay <= r[k].toDay
  }

  /** The spans ascend, each ending at least two days before the next begins. */
  ghost predicate Ascending(r: seq<Span>) {
    forall k, l :: 0 <= k < l < |r| ==> r[k].toDay + 1 < r[l].fromDay
  }

  /** No span can be extended by a day of `s` at either end. */
  ghost predicate Maximal(r: seq<Span>, s: seq<int>) {
    forall k :: 0 <= k < |r| ==> r[k].fromDay - 1 !in s && r[k].toDay + 1 !in s
  }

  /** Every day some span covers is a day of `s`. */
  ghost predicate Within(r: seq<Span>, s: seq<int>) {
    forall k, d :: 0 <= k < |r| && Covers(r[k], d) ==> d in s
  }

  /** Every day of `s` is covered by some span. */
  ghost predicate CoversAll(r: seq<Span>, s: seq<int>) {
    forall d :: d in s ==> exists k :: 0 <= k < |r| && Covers(r[k], d)
  }

  /**
   * `spans` splits the day list `s` into maximal runs: every span is
   * non-empty, the spans ascend with a gap of at least one day between
   * neighbours (so they are pairwise disjoint), neither end of a span can
   * be extended within `s`, and together they cover exactly the days of `s`.
   */
  ghost predicate Partitions(spans: seq<Span>, s: seq<int>) {
    NonEmpty(spans) && Ascending(spans) && Maximal(spans, s) && Within(spans, s) && CoversAll(spans, s)
  }

  /**
   * The spans the scan emits from index `i` on when the run in progress
   * started at `start`: a span closes at `i` exactly when the next element
   * is missing or is not `s[i] + 1`, and the next run then starts at the
   * next element.
   */
  function Scan(s: seq<Day>, i: nat, start: Day): (r: seq<Span>)
    ensures r == [] <==> i >= |s|
    ensures r != [] ==> r[0].fromDay == start && r[|r| - 1].toDay == s[|s| - 1]
    ensures i <= |s| ==> |r| + i <= |s|
    decreases |s| - i
  {
    if i >= |s| then []
    else if i + 1 < |s| && s[i] as int + 1 == s[i + 1] then Scan(s, i + 1, start)
    else [Span(start, s[i])] + Scan(s, i + 1, if i + 1 < |s| then s[i + 1] else start)
  }

  /**
   * The spans of an already sorted day list. Whatever the list, there are
   * no spans exactly when there are no days, at most one span per day, the
   * first span starts at the first day and the last span ends at the last
   * day.
   */
  function SpansOf(s: seq<Day>): (r: seq<Span>)
    ensures r == [] <==> s == []
    ensures |r| <= |s|
    ensures r != [] ==> r[0].fromDay == s[0] && r[|r| - 1].toDay == s[|s| - 1]
  {
    if s == [] then [] else Scan(s, 0, s[0])
  }

  /** Every span is non-empty and starts at `lo` or later. */
  ghost predicate StartAtLeast(r: seq<Span>, lo: int) {
    forall k :: 0 <= k < |r| ==> lo <= r[k].fromDay <= r[k].toDay
  }

  /** Every day of `s[j..]` is covered by some span. */
  ghost predicate CoversFrom(r: seq<Span>, s: seq<int>, j: nat) {
    forall m :: j <= m < |s| ==> exists k :: 0 <= k < |r| && Covers(r[k], s[m])
  }

  /**
   * `r` is what the scan must yield from a run starting at index `j`:
   * maximal, ascending, disjoint spans covering exactly `s[j..]`, the first
   * of them starting at `s[j]`.
   */
  ghost predicate SpansFrom(s: seq<Day>, j: nat, r: seq<Span>)
    requires j < |s|
  {
    && |r| > 0 && r[0].fromDay == s[j]
    && StartAtLeast(r, s[j]) && Ascending(r) && Maximal(r, s) && Within(r, s)
    && CoversFrom(r, s, j)
  }

  /** `s[j..i]` is a run of consecutive days that cannot be extended to the left. */
  ghost predicate RunAt(s: seq<Day>, j: nat, i: nat) {
    && j <= i < |s|
    && (forall m :: j <= m <= i ==> s[m] == s[j] + (m - j))
    && (j == 0 || s[j - 1] as int + 1 < s[j])
  }

  /** `s[j..i]` is a run that also cannot be extended to the right. */
  ghost predicate ClosedRunAt(s: seq<Day>, j: nat, i: nat) {
    RunAt(s, j, i) && (i + 1 == |s| || s[i] as int + 1 < s[i + 1])
  }

  /** A closed run, taken as one span, is maximal and lies within `s`. */
  lemma ClosedRunSpan(s: seq<Day>, j: nat, i: nat)
    requires Increasing(s) && ClosedRunAt(s, j, i)
    ensures Maximal([Span(s[j], s[i])], s) && Within([Span(s[j], s[i])], s)
  {
    forall m | 0 <= m < |s|
      ensures s[m] != s[j] as int - 1 && s[m] != s[i] as int + 1
    {
      if m < j {
        assert s[m] <= s[j - 1];
      } else if m > i {
        assert s[i + 1] <= s[m];
      }
    }
    forall d | Covers(Span(s[j], s[i]), d)
      ensures d in s
    {
      var m := j + (d - s[j] as int);
      assert s[m] == d;
    }
  }

  /** Putting a span in front of others two days or more to its right keeps them ascending. */
  lemma ConsAscending(first: Span, rest: seq<Span>)
    requires first.fromDay <= first.toDay
    requires Ascending(rest) && StartAtLeast(rest, first.toDay + 2)
    ensures Ascending([first] + rest) && StartAtLeast([first] + rest, first.fromDay)
  {
    var r := [first] + rest;
    forall k, l | 0 <= k < l < |r|
      ensures r[k].toDay + 1 < r[l].fromDay
    {
      assert r[l] == rest[l - 1];
      if k > 0 {
        assert r[k] == rest[k - 1];
      }
    }
    forall k | 0 < k < |r|
      ensures first.fromDay <= r[k].fromDay <= r[k].toDay
    {
      assert r[k] == rest[k - 1];
    }
  }

  /** Maximality and lying within `s` hold span by span, so they survive concatenation. */
  lemma ConsMaximalWithin(first: Span, rest: seq<Span>, s: seq<int>)
    requires Maximal([first], s) && Within([first], s)
    requires Maximal(rest, s) && Within(rest, s)
    ensures Maximal([first] + rest, s) && Within([first] + rest, s)
  {
    var r := [first] + rest;
    forall k | 0 < k < |r|
      ensures r[k].fromDay - 1 !in s && r[k].toDay + 1 !in s
      ensures forall d :: Covers(r[k], d) ==> d in s
    {
      assert r[k] == rest[k - 1];
    }
    forall d | Covers(r[0], d)
      ensures d in s
    {
      assert Covers([first][0], d);
    }
  }

  /** A closed run followed by the spans of the rest gives the spans from the run. */
  lemma ClosedRunThenRest(s: seq<Day>, j: nat, i: nat, rest: seq<Span>)
    requires Increasing(s) && ClosedRunAt(s, j, i) && i + 1 < |s|
    requires SpansFrom(s, i + 1, rest)
    ensures SpansFrom(s, j, [Span(s[j], s[i])] + rest)
  {
    var first := Span(s[j], s[i]);
    var r := [first] + rest;
    ClosedRunSpan(s, j, i);
    ConsMaximalWithin(first, rest, s);
    assert s[i] < s[i + 1];
    ConsAscending(first, rest);
    forall m | j <= m < |s|
      ensures exists k :: 0 <= k < |r| && Covers(r[k], s[m])
    {
      if m <= i {
        assert Covers(r[0], s[m]);
      } else {
        var k :| 0 <= k < |rest| && Covers(rest[k], s[m]);
        assert r[k + 1] == rest[k];
      }
    }
  }

  /** A closed run that ends the list is the last span. */
  lemma ClosedRunLast(s: seq<Day>, j: nat, i: nat)
    requires Increasing(s) && ClosedRunAt(s, j, i) && i + 1 == |s|
    ensures SpansFrom(s, j, [Span(s[j], s[i])])
  {
    ClosedRunSpan(s, j, i);
    var r := [Span(s[j], s[i])];
    forall m | j <= m < |s|
      ensures exists k :: 0 <= k < |r| && Covers(r[k], s[m])
    {
      assert Covers(r[0], s[m]);
    }
  }

  /** A run whose last day is followed by the next day extends by one element. */
  lemma ExtendRun(s: seq<Day>, j: nat, i: nat)
    requires RunAt(s, j, i) && i + 1 < |s| && s[i] as int + 1 == s[i + 1]
    ensures RunAt(s, j, i + 1)
  {
  }

  /** A run whose last day is not followed by the next day is closed. */
  lemma CloseRun(s: seq<Day>, j: nat, i: nat)
    requires Increasing(s) && RunAt(s, j, i)
    requires !(i + 1 < |s| && s[i] as int + 1 == s[i + 1])
    ensures ClosedRunAt(s, j, i)
    ensures i + 1 < |s| ==> RunAt(s, i + 1, i + 1)
  {
    if i + 1 < |s| {
      assert s[i] < s[i + 1];
    }
  }

  /** The scan from inside a run yields the spans from that run. */
  lemma {:induction false} ScanFromRun(s: seq<Day>, j: nat, i: nat)
    requires Increasing(s) && RunAt(s, j, i)
    ensures SpansFrom(s, j, Scan(s, i, s[j]))
    decreases |s| - i
  {
    if i + 1 < |s| && s[i] as int + 1 == s[i + 1] {
      ExtendRun(s, j, i);
      ScanFromRun(s, j, i + 1);
    } else {
      CloseRun(s, j, i);
      if i + 1 < |s| {
        assert Scan(s, i, s[j]) == [Span(s[j], s[i])] + Scan(s, i + 1, s[i + 1]);
        ScanFromRun(s, i + 1, i + 1);
        ClosedRunThenRest(s, j, i, Scan(s, i + 1, s[i + 1]));
      } else {
        assert Scan(s, i, s[j]) == [Span(s[j], s[i])];
        ClosedRunLast(s, j, i);
      }
    }
  }

  /** On a strictly ascending day list, `SpansOf` is a partition into maximal runs. */
  lemma SpansPartition(s: seq<Day>)
    requires Increasing(s)
    ensures Partitions(SpansOf(s), s)
    ensures |SpansOf(s)| == 0 <==> s == []
  {
    if s != [] {
      ScanFromRun(s, 0, 0);
      var r := SpansOf(s);
      forall d | d in s
        ensures exists k :: 0 <= k < |r| && Covers(r[k], d)
      {
        var m :| 0 <= m < |s| && s[m] == d;
      }
    }
  }

  /** Where two partitions agree before `n`, the `n`-th span of `b` starts no later than that of `a`. */
  lemma StartNoLater(a: seq<Span>, b: seq<Span>, s: seq<int>, n: nat)
    requires NonEmpty(a) && Ascending(a) && Within(a, s) && NonEmpty(b) && Ascending(b) && CoversAll(b, s)
    requires n < |a| && n < |b| && forall k :: 0 <= k < n ==> a[k] == b[k]
    ensures b[n].fromDay <= a[n].fromDay
  {
    FirstDayWithin(a, s, n);
  }

  /** Two spans of maximal-run partitions that start on the same day end on the same day. */
  lemma SameStartSameEnd(a: seq<Span>, b: seq<Span>, s: seq<int>, n: nat)
    requires NonEmpty(a) && Maximal(a, s) && Within(a, s) && NonEmpty(b) && Maximal(b, s) && Within(b, s)
    requires n < |a| && n < |b| && a[n].fromDay == b[n].fromDay
    ensures a[n].toDay == b[n].toDay
  {
    // A longer span would contain the day just after the shorter one, which is not in `s`.
    if a[n].toDay < b[n].toDay {
      assert Covers(b[n], a[n].toDay + 1);
    } else if b[n].toDay < a[n].toDay {
      assert Covers(a[n], b[n].toDay + 1);
    }
  }

  /** Two maximal-run partitions of the same days agree on every common index. */
  lemma {:induction false} PartitionsAgreeBelow(a: seq<Span>, b: seq<Span>, s: seq<int>, n: nat)
    requires Partitions(a, s) && Partitions(b, s)
    requires n <= |a| && n <= |b|
    ensures forall k :: 0 <= k < n ==> a[k] == b[k]
  {
    if n > 0 {
      PartitionsAgreeBelow(a, b, s, n - 1);
      StartNoLater(a, b, s, n - 1);
      StartNoLater(b, a, s, n - 1);
      SameStartSameEnd(a, b, s, n - 1);
    }
  }

  /** The first day of a non-empty span that lies within `s` is a day of `s`. */
  lemma FirstDayWithin(r: seq<Span>, s: seq<int>, k: nat)
    requires NonEmpty(r) && Within(r, s) && k < |r|
    ensures r[k].fromDay in s
  {
    assert Covers(r[k], r[k].fromDay);
  }

  /** A partition that agrees with a longer one on all its spans is not shorter. */
  lemma NoExtraSpan(a: seq<Span>, b: seq<Span>, s: seq<int>)
    requires NonEmpty(b) && Ascending(b) && Within(b, s) && CoversAll(a, s)
    requires |a| <= |b| && forall k :: 0 <= k < |a| ==> a[k] == b[k]
    ensures |a| == |b|
  {
    if |a| < |b| {
      // The first extra span starts on a day that one of the shared spans already covers.
      FirstDayWithin(b, s, |a|);
    }
  }

  /** A day list has exactly one partition into maximal runs. */
  lemma PartitionUnique(a: seq<Span>, b: seq<Span>, s: seq<int>)
    requires Partitions(a, s) && Partitions(b, s)
    ensures a == b
  {
    if |a| <= |b| {
      PartitionsAgreeBelow(a, b, s, |a|);
      NoExtraSpan(a, b, s);
    } else {
      PartitionsAgreeBelow(a, b, s, |b|);
      NoExtraSpan(b, a, s);
    }
  }

  /** Every partition of a strictly ascending day list into maximal runs is the one the scan computes. */
  lemma SpansOfIsTheMaximalRunPartition(s: seq<Day>, spans: seq<Span>)
    requires Increasing(s)
    ensures Partitions(spans, s) <==> spans == SpansOf(s)
  {
    SpansPartition(s);
    if Partitions(spans, s) {
      PartitionUnique(spans, SpansOf(s), s);
    }
  }

  /** Without duplicates, every value occurs at most once in the multiset. */
  lemma {:induction false} NoDuplicatesCount(t: seq<Day>, x: Day)
    requires NoDuplicates(t)
    ensures multiset(t)[x] <= 1
  {
    if t != [] {
      assert t == [t[0]] + t[1..];
      NoDuplicatesCount(t[1..], x);
      if x == t[0] {
        assert x !in t[1..];
      }
    }
  }

  /**
   * Sorting a list without duplicates gives a strictly ascending one, so
   * the partition lemma applies to what the sort leaves in the array.
   */
  lemma SortedDistinctIncreasing(s: seq<Day>, t: seq<Day>)
    requires Sorted(s) && multiset(s) == multiset(t) && NoDuplicates(t)
    ensures Increasing(s)
  {
    forall i, j | 0 <= i < j < |s|
      ensures s[i] < s[j]
    {
      if s[i] == s[j] {
        var x := s[i];
        assert s == s[..j] + s[j..];
        assert x in multiset(s[..j]) by { assert s[..j][i] == x; }
        assert x in multiset(s[j..]) by { assert s[j..][0] == x; }
        assert multiset(s)[x] >= 2;
        NoDuplicatesCount(t, x);
      }
    }
  }

  /**
   * The spans of the sorted copy of a day list without duplicates partition
   * the original list into maximal runs.
   */
  lemma SortedSpansPartition(s: seq<Day>, t: seq<Day>)
    requires Sorted(s) && multiset(s) == multiset(t) && NoDuplicates(t)
    ensures Partitions(SpansOf(s), t)
  {
    SortedDistinctIncreasing(s, t);
    SpansPartition(s);
    forall d
      ensures d in s <==> d in t
    {
      assert d in s <==> d in multiset(s);
    }
  }

  /** Exchanges two elements of the array; nothing else changes. */
  method Swap(a: array<Day>, i: int, j: int)
    requires 0 <= i < a.Length && 0 <= j < a.Length
    modifies a
    ensures a[i] == old(a[j]) && a[j] == old(a[i])
    ensures forall m :: 0 <= m < a.Length && m != i && m != j ==> a[m] == old(a[m])
    ensures multiset(a[..]) == multiset(old(a[..]))
  {
    var t := a[i];
    a[i] := a[j];
    a[j] := t;
  }

  /**
   * Sorts the array ascending in place, as `days.sort((a, b) => a - b)`
   * does (the engine's sorting algorithm is not specified; only its result
   * matters here).
   */
  method SortAscending(a: array<Day>)
    modifies a
    ensures Sorted(a[..])
    ensures multiset(a[..]) == multiset(old(a[..]))
  {
    var i := 0;
    while i < a.Length
      invariant 0 <= i <= a.Length
      invariant forall p, q :: 0 <= p < q < i ==> a[p] <= a[q]
      invariant multiset(a[..]) == multiset(old(a[..]))
    {
      var j := i;
      while j > 0 && a[j - 1] > a[j]
        invariant 0 <= j <= i
        invariant forall p, q :: 0 <= p < q <= i && q != j ==> a[p] <= a[q]
        invariant multiset(a[..]) == multiset(old(a[..]))
      {
        Swap(a, j - 1, j);
        j := j - 1;
      }
      i := i + 1;
    }
  }

  /**
   * The scan of `computeSpans` over the already sorted array: a span is
   * emitted each time the current run ends, that is when the next element
   * is missing or does not continue the run. Reads the array and changes
   * nothing.
   */
  method ScanRuns(days: array<Day>) returns (spans: seq<Span>)
    ensures spans == SpansOf(days[..])
  {
    ghost var s := days[..];
    var n := days.Length;
    // `sortedDays[0]` is undefined for an empty list; the loop then never reads it.
    var cachedStart: Day := if n > 0 then days[0] else 1;
    spans := [];
    var i := 0;
    assert Scan(s, 0, cachedStart) == SpansOf(s);
    while i < n
      invariant 0 <= i <= n
      invariant spans + Scan(s, i, cachedStart) == SpansOf(s)
    {
      var current := days[i];
      var next: Option<Day> := if i + 1 < n then Some(days[i + 1]) else None;
      if !(next.Some? && current as int + 1 == next.value) {
        ghost var rest := Scan(s, i + 1, if next.Some? then next.value else cachedStart);
        assert Scan(s, i, cachedStart) == [Span(cachedStart, current)] + rest;
        assert spans + [Span(cachedStart, current)] + rest == spans + ([Span(cachedStart, current)] + rest);
        spans := spans + [Span(cachedStart, current)];
        cachedStart := if next.Some? then next.value else cachedStart;
      } else {
        assert Scan(s, i, cachedStart) == Scan(s, i + 1, cachedStart);
      }
      i := i + 1;
    }
  }

  /**
   * `computeSpans`: sorts the record's own day array in place, then scans
   * it once. On a day list without duplicates the spans partition the days
   * into maximal runs, and an empty list yields no span.
   */
  method ComputeSpans(days: array<Day>) returns (spans: seq<Span>)
    modifies days
    ensures Sorted(days[..]) && multiset(days[..]) == multiset(old(days[..]))
    ensures spans == SpansOf(days[..])
    ensures days.Length == 0 ==> spans == []
    ensures NoDuplicates(old(days[..])) ==> Partitions(spans, old(days[..]))
  {
    SortAscending(days);
    spans := ScanRuns(days);
    if NoDuplicates(old(days[..])) {
      SortedSpansPartition(days[..], old(days[..]));
    }
  }

  /** Monday to Wednesday and Friday to Sunday give two spans. */
  lemma ExampleTwoRuns()
    ensures SpansOf([1, 2, 3, 5, 6, 7]) == [Span(1, 3), Span(5, 7)]
  {
  }

  /**
   * A repeated day closes the run in progress and starts the next run at
   * that same day, so the two spans overlap.
   */
  lemma ExampleRepeatedDay()
    ensures SpansOf([1, 2, 2, 3]) == [Span(1, 2), Span(2, 3)]
  {
  }

  /** Monday, Wednesday and Friday give three one-day spans. */
  lemma ExampleSingletons()
    ensures SpansOf([1, 3, 5]) == [Span(1, 1), Span(3, 3), Span(5, 5)]
  {
  }
}
