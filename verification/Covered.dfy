/** Time covered by spans, overlaps counted once. */
module Covered {
  import opened Sorting

  /** A span in whole ticks: from its start up to its end. */
  datatype Interval = Interval(started: int, ended: int)

  predicate Forward(s: seq<Interval>) { forall k | 0 <= k < |s| :: s[k].started <= s[k].ended }

  /** The ticks of one stretch of time. */
  function Ticks(from: int, to: int): (ticks: set<int>)
    ensures forall t :: t in ticks <==> from <= t < to
    decreases if from < to then to - from else 0
  {
    if from < to then Ticks(from, to - 1) + {to - 1} else {}
  }

  /** The ticks that any of the spans covers. */
  function Union(s: seq<Interval>): set<int> {
    if s == [] then {} else Union(s[..|s| - 1]) + Ticks(s[|s| - 1].started, s[|s| - 1].ended)
  }

  lemma {:induction false} UnionIs(s: seq<Interval>, t: int)
    ensures t in Union(s) <==> exists k | 0 <= k < |s| :: s[k].started <= t < s[k].ended
  {
    if s != [] {
      UnionIs(s[..|s| - 1], t);
    }
  }

  /** The order of the spans does not matter. */
  lemma UnionOfSame(a: seq<Interval>, b: seq<Interval>)
    requires forall x :: x in a <==> x in b
    ensures Union(a) == Union(b)
  {
    forall t
      ensures t in Union(a) <==> t in Union(b)
    {
      UnionIs(a, t);
      UnionIs(b, t);
      if k :| 0 <= k < |a| && a[k].started <= t < a[k].ended {
        assert a[k] in b;
      }
      if k :| 0 <= k < |b| && b[k].started <= t < b[k].ended {
        assert b[k] in a;
      }
    }
  }

  lemma {:induction false} HowManyTicks(from: int, to: int)
    requires from <= to
    ensures |Ticks(from, to)| == to - from
    decreases if from < to then to - from else 0
  {
    if from < to {
      var front := Ticks(from, to - 1);
      HowManyTicks(from, to - 1);
      assert to - 1 !in front;
      assert Ticks(from, to) == front + {to - 1};
    }
  }

  /** How tuples of times sort: by start, then by end. */
  function Earlier(): (Interval, Interval) -> bool {
    (a: Interval, b: Interval) => a.started < b.started || (a.started == b.started && a.ended <= b.ended)
  }

  /** `end` is the latest end so far, and from there back to the start of the span it belongs to all is covered. */
  ghost predicate LatestEnd(s: seq<Interval>, end: int) {
    && (forall k | 0 <= k < |s| :: s[k].ended <= end)
    && exists k | 0 <= k < |s| :: s[k].ended == end
  }

  /** What a later span adds: all of it after a gap, or what reaches past the latest end. */
  lemma SpanAdds(s: seq<Interval>, x: Interval, end: int)
    requires LatestEnd(s, end) && x.started <= x.ended
    requires forall k | 0 <= k < |s| :: s[k].started <= x.started
    ensures |Union(s + [x])| == |Union(s)|
              + if x.started > end then x.ended - x.started else if x.ended > end then x.ended - end else 0
  {
    hide Ticks;
    assert (s + [x])[..|s|] == s;
    CoveredUpTo(s, x, end);
    NewTicks(Union(s), x, end);
  }

  lemma NewTicks(before: set<int>, x: Interval, end: int)
    requires x.started <= x.ended
    requires forall t :: x.started <= t < end ==> t in before
    requires forall t <- before :: t < end
    ensures |before + Ticks(x.started, x.ended)|
         == |before| + if x.started > end then x.ended - x.started else if x.ended > end then x.ended - end else 0
  {
    hide Ticks;
    var first := if x.started > end then x.started else if x.ended > end then end else x.ended;
    var added := Ticks(first, x.ended);
    HowManyTicks(first, x.ended);
    assert before + Ticks(x.started, x.ended) == before + added;
    assert before !! added;
    assert |before + added| == |before| + |added|;
  }

  lemma CoveredUpTo(s: seq<Interval>, x: Interval, end: int)
    requires LatestEnd(s, end)
    requires forall k | 0 <= k < |s| :: s[k].started <= x.started
    ensures forall t :: x.started <= t < end ==> t in Union(s)
    ensures forall t <- Union(s) :: t < end
  {
    var k :| 0 <= k < |s| && s[k].ended == end;
    forall t | x.started <= t < end
      ensures t in Union(s)
    {
      UnionIs(s, t);
    }
    forall t | t in Union(s)
      ensures t < end
    {
      UnionIs(s, t);
    }
  }

  lemma FirstSpan(x: Interval)
    requires x.started <= x.ended
    ensures |Union([x])| == x.ended - x.started
  {
    assert [x][..0] == [];
    HowManyTicks(x.started, x.ended);
    assert Union([x]) == Ticks(x.started, x.ended);
  }

  /** `_covered`: the number of ticks in the union of the spans, whatever order they are given in. */
  method CoveredTicks(intervals: seq<Interval>) returns (total: int)
    requires Forward(intervals)
    ensures total == |Union(intervals)|
  {
    hide StableSort, Union, LatestEnd;
    var sorted := StableSort(intervals, Earlier());
    StableSortSorts(intervals, Earlier());
    SortedSameElements(intervals, Earlier());
    UnionOfSame(sorted, intervals);
    SortedForward(intervals, sorted);
    total := 0;
    var end := 0;
    NothingCovered();
    assert sorted[..0] == [];
    for n := 0 to |sorted|
      invariant total == |Union(sorted[..n])|
      invariant n > 0 ==> LatestEnd(sorted[..n], end)
    {
      var x := sorted[n];
      assert sorted[..n + 1] == sorted[..n] + [x];
      if n == 0 {
        FirstSpan(x);
        assert sorted[..1] == [x];
        total := total + (x.ended - x.started);
        end := x.ended;
        OneSpan(x);
      } else {
        StartsBefore(sorted, n);
        SpanAdds(sorted[..n], x, end);
        NextEnd(sorted[..n], x, end);
        if x.started > end {
          total := total + (x.ended - x.started);
          end := x.ended;
        } else if x.ended > end {
          total := total + (x.ended - end);
          end := x.ended;
        }
      }
    }
    assert sorted[..|sorted|] == sorted;
  }

  lemma NothingCovered()
    ensures |Union([])| == 0
  {}

  lemma OneSpan(x: Interval)
    ensures LatestEnd([x], x.ended)
  {
    assert [x][0].ended == x.ended;
  }

  lemma StartsBefore(sorted: seq<Interval>, n: nat)
    requires SortedBy(sorted, Earlier()) && n < |sorted|
    ensures forall k | 0 <= k < n :: sorted[..n][k].started <= sorted[n].started
  {
    forall k | 0 <= k < n
      ensures sorted[..n][k].started <= sorted[n].started
    {
      assert Earlier()(sorted[k], sorted[n]);
    }
  }

  lemma SortedForward(intervals: seq<Interval>, sorted: seq<Interval>)
    requires Forward(intervals) && forall x :: x in sorted <==> x in intervals
    ensures Forward(sorted)
  {
    forall k | 0 <= k < |sorted|
      ensures sorted[k].started <= sorted[k].ended
    {
      assert sorted[k] in sorted;
      assert sorted[k] in intervals;
    }
  }

  lemma NextEnd(s: seq<Interval>, x: Interval, end: int)
    requires LatestEnd(s, end) && x.started <= x.ended
    ensures LatestEnd(s + [x], if x.started > end || x.ended > end then x.ended else end)
  {
    var k :| 0 <= k < |s| && s[k].ended == end;
    var next := s + [x];
    assert next[k] == s[k] && next[|s|] == x;
  }
}
