/** Settling overlapping spans into the ones that are actually replaced. */
module Resolve {
  import opened Sorting

  /** A span an identifier says holds PII, with its value written the one way a provider would be sent it. */
  datatype Span = Span(start: int, end: int, entity: string, value: string)

  predicate Apart(a: Span, b: Span) { a.end <= b.start || b.end <= a.start }

  /** Two spans that hold something are apart exactly when they share no character. */
  lemma ApartShareNothing(a: Span, b: Span)
    requires a.start < a.end && b.start < b.end
    ensures Apart(a, b) <==> !exists i :: InSpan(i, a) && InSpan(i, b)
  {
    if !Apart(a, b) {
      var i := if a.start < b.start then b.start else a.start;
      assert InSpan(i, a) && InSpan(i, b);
    }
  }

  predicate InSpan(i: int, s: Span) { s.start <= i < s.end }

  /** The ranking: longer first, then earlier in the list. */
  predicate RanksNoLater(spans: seq<Span>, i: int, j: int) {
    && 0 <= i < |spans| && 0 <= j < |spans|
    && var a, b := spans[i].start - spans[i].end, spans[j].start - spans[j].end;
    (a < b || (a == b && i <= j))
  }

  /** `RanksNoLater`, made total by putting everything that is no index last. */
  function RankOrder(spans: seq<Span>): (int, int) -> bool {
    (i: int, j: int) => if 0 <= i < |spans| && 0 <= j < |spans| then RanksNoLater(spans, i, j) else !(0 <= j < |spans|)
  }

  function Indexes(n: nat): seq<int> { seq(n, i => i) }

  function Ranking(spans: seq<Span>): seq<int> { StableSort(Indexes(|spans|), RankOrder(spans)) }

  predicate ClearOf(spans: seq<Span>, i: int, chosen: seq<int>) {
    forall k | 0 <= k < |chosen| :: 0 <= i < |spans| && 0 <= chosen[k] < |spans| && Apart(spans[i], spans[chosen[k]])
  }

  /** The loop over the ranking: each span that overlaps none chosen before it. */
  function Choose(spans: seq<Span>, ranked: seq<int>): seq<int> {
    if ranked == [] then []
    else
      var chosen := Choose(spans, ranked[..|ranked| - 1]);
      var i := ranked[|ranked| - 1];
      if ClearOf(spans, i, chosen) then chosen + [i] else chosen
  }

  function StartOrder(spans: seq<Span>): (int, int) -> bool {
    (i: int, j: int) =>
      if 0 <= i < |spans| && 0 <= j < |spans| then spans[i].start <= spans[j].start else !(0 <= j < |spans|)
  }

  /** The spans kept, by their place in the list, in text order. */
  function Kept(spans: seq<Span>): seq<int> { StableSort(Choose(spans, Ranking(spans)), StartOrder(spans)) }

  function Pick(spans: seq<Span>, kept: seq<int>): seq<Span>
    requires forall k | 0 <= k < |kept| :: 0 <= kept[k] < |spans|
  {
    seq(|kept|, k requires 0 <= k < |kept| => spans[kept[k]])
  }

  // ---------------------------------------------------------------- what the ranking is

  lemma OrdersAreTotal(spans: seq<Span>)
    ensures TotalPreorder(RankOrder(spans)) && TotalPreorder(StartOrder(spans))
  {}

  lemma RankingIsPermutation(spans: seq<Span>)
    ensures |Ranking(spans)| == |spans|
    ensures forall k | 0 <= k < |Ranking(spans)| :: 0 <= Ranking(spans)[k] < |spans|
    ensures forall i :: i in Ranking(spans) <==> 0 <= i < |spans|
    ensures forall a, b | 0 <= a < b < |spans| :: Ranking(spans)[a] != Ranking(spans)[b]
    ensures SortedBy(Ranking(spans), RankOrder(spans))
  {
    var all, r := Indexes(|spans|), Ranking(spans);
    OrdersAreTotal(spans);
    StableSortSorts(all, RankOrder(spans));
    SortedSameElements(all, RankOrder(spans));
    forall i
      ensures i in r <==> 0 <= i < |spans|
    {
      if 0 <= i < |spans| {
        assert all[i] == i;
      }
    }
    SortedDistinct(all, RankOrder(spans));
    assert forall k | 0 <= k < |r| :: r[k] in r;
  }

  // ---------------------------------------------------------------- the greedy choice

  /** `j` is ranked above `i`: it is longer, or as long and listed earlier. */
  predicate Above(spans: seq<Span>, j: int, i: int) { j != i && RanksNoLater(spans, j, i) }

  /** The longer span is above; of two as long, the one listed earlier. */
  lemma AboveBy(spans: seq<Span>, j: int, i: int)
    requires 0 <= i < |spans| && 0 <= j < |spans|
    ensures Above(spans, j, i) <==>
            || spans[j].end - spans[j].start > spans[i].end - spans[i].start
            || (spans[j].end - spans[j].start == spans[i].end - spans[i].start && j < i)
  {}

  /** Among `domain`, chosen is exactly what no chosen span ranked above it overlaps. */
  ghost predicate Greedy(spans: seq<Span>, domain: seq<int>, chosen: seq<int>) {
    && (forall i <- chosen :: i in domain)
    && (forall i | 0 <= i < |spans| && i in domain ::
          i in chosen <==>
          forall j | 0 <= j < |spans| && j in chosen && Above(spans, j, i) :: Apart(spans[i], spans[j]))
  }

  lemma {:induction false} ChooseIsGreedy(spans: seq<Span>, ranked: seq<int>)
    requires forall k | 0 <= k < |ranked| :: 0 <= ranked[k] < |spans|
    requires forall a, b | 0 <= a < b < |ranked| :: Above(spans, ranked[a], ranked[b])
    ensures Greedy(spans, ranked, Choose(spans, ranked))
    ensures forall a, b | 0 <= a < b < |Choose(spans, ranked)| :: Choose(spans, ranked)[a] != Choose(spans, ranked)[b]
  {
    hide Greedy, Above, ClearOf;
    if ranked == [] {
      NothingIsGreedy(spans);
    } else {
      var front, x := ranked[..|ranked| - 1], ranked[|ranked| - 1];
      ChooseIsGreedy(spans, front);
      assert ranked == front + [x];
      forall i <- front
        ensures Above(spans, i, x) && 0 <= i < |spans|
      {
        var a :| 0 <= a < |front| && front[a] == i;
        assert ranked[a] == i && ranked[|ranked| - 1] == x;
      }
      GreedySnoc(spans, front, x, Choose(spans, front));
    }
  }

  lemma NothingIsGreedy(spans: seq<Span>)
    ensures Greedy(spans, [], [])
  {}

  lemma GreedySnoc(spans: seq<Span>, front: seq<int>, x: int, c: seq<int>)
    requires Greedy(spans, front, c) && 0 <= x < |spans| && forall i <- front :: Above(spans, i, x) && 0 <= i < |spans|
    ensures Greedy(spans, front + [x], if ClearOf(spans, x, c) then c + [x] else c)
    ensures x !in front && x !in c
  {
    hide RanksNoLater, Apart;
    forall i <- front
      ensures !Above(spans, x, i)
    {
      AboveOneWay(spans, i, x);
    }
    ClearMeansApart(spans, x, c);
  }

  lemma ClearMeansApart(spans: seq<Span>, x: int, c: seq<int>)
    requires 0 <= x < |spans| && forall j <- c :: 0 <= j < |spans|
    ensures ClearOf(spans, x, c) <==> forall j | 0 <= j < |spans| && j in c :: Apart(spans[x], spans[j])
  {
    hide Apart;
    if forall j | 0 <= j < |spans| && j in c :: Apart(spans[x], spans[j]) {
      assert forall k | 0 <= k < |c| :: c[k] in c;
    }
  }

  lemma AboveOneWay(spans: seq<Span>, i: int, j: int)
    ensures !(Above(spans, i, j) && Above(spans, j, i))
  {}

  lemma RankingIsAbove(spans: seq<Span>)
    ensures forall a, b | 0 <= a < b < |Ranking(spans)| :: Above(spans, Ranking(spans)[a], Ranking(spans)[b])
  {
    RankingIsPermutation(spans);
    var r := Ranking(spans);
    assert forall a | 0 <= a < |r| :: r[a] in r;
  }

  /** There is only one such choice. */
  lemma {:induction false} GreedyIsUnique(spans: seq<Span>, ranked: seq<int>, one: seq<int>, other: seq<int>, n: nat)
    requires n <= |ranked|
    requires forall k | 0 <= k < |ranked| :: 0 <= ranked[k] < |spans|
    requires forall a, b | 0 <= a < b < |ranked| :: Above(spans, ranked[a], ranked[b])
    requires Greedy(spans, ranked, one) && Greedy(spans, ranked, other)
    ensures forall k | 0 <= k < n :: ranked[k] in one <==> ranked[k] in other
  {
    hide Greedy, Above;
    if n > 0 {
      GreedyIsUnique(spans, ranked, one, other, n - 1);
      var i := ranked[n - 1];
      forall j | j in ranked && Above(spans, j, i)
        ensures j in one <==> j in other
      {
        var k :| 0 <= k < |ranked| && ranked[k] == j;
        RankedAbove(spans, ranked, k, n - 1);
      }
      assert i in ranked;
      SameAbove(spans, ranked, one, other, i);
    }
  }

  lemma RankedAbove(spans: seq<Span>, ranked: seq<int>, k: nat, n: nat)
    requires k < |ranked| && n < |ranked|
    requires forall a, b | 0 <= a < b < |ranked| :: Above(spans, ranked[a], ranked[b])
    ensures Above(spans, ranked[k], ranked[n]) ==> k < n
  {
    assert n < k ==> Above(spans, ranked[n], ranked[k]);
  }

  lemma SameAbove(spans: seq<Span>, domain: seq<int>, one: seq<int>, other: seq<int>, i: int)
    requires Greedy(spans, domain, one) && Greedy(spans, domain, other) && i in domain && 0 <= i < |spans|
    requires forall j | j in domain && Above(spans, j, i) :: j in one <==> j in other
    ensures i in one <==> i in other
  {}

  /** `resolve` keeps exactly the greedy choice, each span once, in text order. */
  lemma KeptIsGreedy(spans: seq<Span>)
    ensures forall k | 0 <= k < |Kept(spans)| :: 0 <= Kept(spans)[k] < |spans|
    ensures forall k, m | 0 <= k < m < |Kept(spans)| :: Kept(spans)[k] != Kept(spans)[m]
    ensures Greedy(spans, Indexes(|spans|), Kept(spans))
    ensures SortedBy(Kept(spans), StartOrder(spans))
  {
    hide Choose, StableSort, Indexes;
    var r := Ranking(spans);
    RankingIsPermutation(spans);
    RankingIsAbove(spans);
    ChooseIsGreedy(spans, r);
    var c := Choose(spans, r);
    OrdersAreTotal(spans);
    StableSortSorts(c, StartOrder(spans));
    SortedSameElements(c, StartOrder(spans));
    SortedDistinct(c, StartOrder(spans));
    IndexesAre(|spans|);
    var kept := Kept(spans);
    forall k | 0 <= k < |kept|
      ensures 0 <= kept[k] < |spans|
    {
      assert kept[k] in kept;
      assert kept[k] in c;
    }
  }

  lemma IndexesAre(n: nat)
    ensures forall i :: i in Indexes(n) <==> 0 <= i < n
  {
    forall i
      ensures i in Indexes(n) <==> 0 <= i < n
    {
      if 0 <= i < n {
        assert Indexes(n)[i] == i;
      }
    }
  }

  /** `resolve` */
  function Resolved(spans: seq<Span>): seq<Span> {
    KeptIsGreedy(spans);
    Pick(spans, Kept(spans))
  }

  /** Spans that hold something never overlap once resolved: each ends before the next one starts. */
  lemma ResolvedInTextOrder(spans: seq<Span>)
    requires forall k | 0 <= k < |spans| :: spans[k].start < spans[k].end
    ensures forall k | 0 <= k < |Resolved(spans)| :: Resolved(spans)[k] in spans
    ensures forall k, m | 0 <= k < m < |Resolved(spans)| :: Resolved(spans)[k].end <= Resolved(spans)[m].start
  {
    hide Kept, Greedy, Indexes;
    KeptIsGreedy(spans);
    var kept, r := Kept(spans), Resolved(spans);
    assert forall k | 0 <= k < |r| :: r[k] == spans[kept[k]];
    forall k, m | 0 <= k < m < |r|
      ensures r[k].end <= r[m].start
    {
      ChosenAreApart(spans, kept, kept[k], kept[m]);
      assert StartOrder(spans)(kept[k], kept[m]);
    }
  }

  lemma ChosenAreApart(spans: seq<Span>, chosen: seq<int>, i: int, j: int)
    requires Greedy(spans, Indexes(|spans|), chosen) && i in chosen && j in chosen && i != j
    ensures 0 <= i < |spans| && 0 <= j < |spans| && Apart(spans[i], spans[j])
  {
    IndexesAre(|spans|);
    assert Above(spans, i, j) || Above(spans, j, i);
  }

  // ---------------------------------------------------------------- the loop

  method ChooseSpans(spans: seq<Span>, ranked: seq<int>) returns (chosen: seq<int>)
    ensures chosen == Choose(spans, ranked)
  {
    chosen := [];
    for n := 0 to |ranked|
      invariant chosen == Choose(spans, ranked[..n])
    {
      assert ranked[..n + 1][..n] == ranked[..n];
      if ClearOf(spans, ranked[n], chosen) {
        chosen := chosen + [ranked[n]];
      }
    }
    assert ranked[..|ranked|] == ranked;
  }

  method ResolveSpans(spans: seq<Span>) returns (r: seq<Span>)
    ensures r == Resolved(spans)
  {
    hide Choose, StableSort, Ranking;
    var chosen := ChooseSpans(spans, Ranking(spans));
    KeptIsGreedy(spans);
    r := Pick(spans, StableSort(chosen, StartOrder(spans)));
  }
}
