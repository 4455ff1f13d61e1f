/** A sender's ranking of providers applied to what discovery found: only the ranked ones, best first. */
module Preferences {
  import opened Text
  import opened Sorting
  import Discovery

  // ---------------------------------------------------------------- ranks

  /** Where the ranking puts a provider: the last place it is named, as a later entry of a dictionary wins. */
  function Rank(ranking: seq<string>, provider: string): (k: nat)
    requires provider in ranking
    ensures k < |ranking| && ranking[k] == provider
    ensures forall j | k < j < |ranking| :: ranking[j] != provider
  {
    var last := |ranking| - 1;
    if ranking[last] == provider then last
    else
      assert ranking == ranking[..last] + [ranking[last]];
      Rank(ranking[..last], provider)
  }

  function Without(s: seq<string>, x: string): seq<string> {
    if s == [] then [] else (if s[0] == x then [] else [s[0]]) + Without(s[1..], x)
  }

  /** The providers of a ranking, each once, best first: each at the last place it is named. */
  function Preferred(ranking: seq<string>): seq<string> {
    if ranking == [] then []
    else Without(Preferred(ranking[..|ranking| - 1]), ranking[|ranking| - 1]) + [ranking[|ranking| - 1]]
  }

  lemma {:induction false} WithoutIs(s: seq<string>, x: string)
    ensures forall y :: y in Without(s, x) <==> y in s && y != x
  {
    if s != [] {
      WithoutIs(s[1..], x);
      assert s == [s[0]] + s[1..];
    }
  }

  lemma {:induction false} WithoutKeepsOrder(s: seq<string>, x: string, le: (string, string) -> bool)
    requires forall i, j | 0 <= i < j < |s| :: le(s[i], s[j])
    ensures forall i, j | 0 <= i < j < |Without(s, x)| :: le(Without(s, x)[i], Without(s, x)[j])
  {
    if s != [] {
      WithoutKeepsOrder(s[1..], x, le);
      WithoutIs(s[1..], x);
      var rest := Without(s[1..], x);
      forall j | 0 <= j < |rest|
        ensures le(s[0], rest[j])
      {
        assert rest[j] in rest;
        assert rest[j] in s[1..];
      }
    }
  }

  predicate Before(ranking: seq<string>, a: string, b: string) {
    a in ranking && b in ranking && Rank(ranking, a) < Rank(ranking, b)
  }

  function InRank(ranking: seq<string>): (string, string) -> bool { (a: string, b: string) => Before(ranking, a, b) }

  /** Every ranked provider once, in rank order. */
  lemma {:induction false} PreferredInRank(ranking: seq<string>)
    ensures forall p :: p in Preferred(ranking) <==> p in ranking
    ensures forall i, j | 0 <= i < j < |Preferred(ranking)| ::
            Before(ranking, Preferred(ranking)[i], Preferred(ranking)[j])
  {
    if ranking != [] {
      var front, last := ranking[..|ranking| - 1], ranking[|ranking| - 1];
      assert ranking == front + [last];
      PreferredInRank(front);
      WithoutIs(Preferred(front), last);
      WithoutKeepsOrder(Preferred(front), last, InRank(front));
      var kept := Without(Preferred(front), last);
      forall i, j | 0 <= i < j < |Preferred(ranking)|
        ensures Before(ranking, Preferred(ranking)[i], Preferred(ranking)[j])
      {
        assert kept[i] in kept;
        assert j < |kept| ==> kept[j] in kept && InRank(front)(kept[i], kept[j]);
      }
    }
  }

  // ---------------------------------------------------------------- ordering what was found

  function OfProvider<T>(items: seq<T>, provider: T -> string, p: string): seq<T> {
    if items == [] then []
    else
      var last := items[|items| - 1];
      OfProvider(items[..|items| - 1], provider, p) + if provider(last) == p then [last] else []
  }

  function Ranked<T>(items: seq<T>, provider: T -> string, ranking: seq<string>): seq<T> {
    if items == [] then []
    else
      var last := items[|items| - 1];
      Ranked(items[..|items| - 1], provider, ranking) + if provider(last) in ranking then [last] else []
  }

  /** A provider's items are those it gave, in order; the ranked ones are those of a provider the ranking names. */
  lemma {:induction false} ItemsSift<T(!new)>(items: seq<T>, provider: T -> string, p: string, ranking: seq<string>)
    ensures Sifted(items, (x: T) => provider(x) == p, OfProvider(items, provider, p))
    ensures Sifted(items, (x: T) => provider(x) in ranking, Ranked(items, provider, ranking))
    decreases |items|
  {
    var his, ranked := (x: T) => provider(x) == p, (x: T) => provider(x) in ranking;
    if items == [] {
      NothingSifted(his);
      NothingSifted(ranked);
    } else {
      var front, last := items[..|items| - 1], items[|items| - 1];
      ItemsSift(front, provider, p, ranking);
      assert items == front + [last];
      SiftedSnoc(front, his, OfProvider(front, provider, p), last);
      SiftedSnoc(front, ranked, Ranked(front, provider, ranking), last);
    }
  }

  /** The order items are sorted in. One that is not ranked is never sorted. */
  function RankOrder<T>(provider: T -> string, ranking: seq<string>): (T, T) -> bool {
    (a: T, b: T) => RankOr(ranking, provider(a)) <= RankOr(ranking, provider(b))
  }

  function RankOr(ranking: seq<string>, p: string): int { if p in ranking then Rank(ranking, p) else -1 }

  /** `_ordered` */
  function Ordered<T>(items: seq<T>, provider: T -> string, ranking: seq<string>): seq<T> {
    StableSort(Ranked(items, provider, ranking), RankOrder(provider, ranking))
  }

  /** Provider by provider, each with its own items as they came. */
  function Blocks<T>(items: seq<T>, provider: T -> string, providers: seq<string>): seq<T> {
    if providers == [] then []
    else
      Blocks(items, provider, providers[..|providers| - 1]) + OfProvider(items, provider, providers[|providers| - 1])
  }

  lemma {:induction false} OfProviderAppend<T>(a: seq<T>, b: seq<T>, provider: T -> string, p: string)
    ensures OfProvider(a + b, provider, p) == OfProvider(a, provider, p) + OfProvider(b, provider, p)
    decreases |b|
  {
    if b == [] {
      assert a + b == a;
    } else {
      assert (a + b)[..|a + b| - 1] == a + b[..|b| - 1];
      OfProviderAppend(a, b[..|b| - 1], provider, p);
    }
  }

  lemma {:induction false} OfProviderIs<T>(items: seq<T>, provider: T -> string, p: string)
    ensures forall x :: x in OfProvider(items, provider, p) <==> x in items && provider(x) == p
  {
    if items != [] {
      OfProviderIs(items[..|items| - 1], provider, p);
      assert items == items[..|items| - 1] + [items[|items| - 1]];
    }
  }

  lemma {:induction false} RankedIs<T>(items: seq<T>, provider: T -> string, ranking: seq<string>)
    ensures forall x :: x in Ranked(items, provider, ranking) <==> x in items && provider(x) in ranking
  {
    if items != [] {
      var front, last := items[..|items| - 1], items[|items| - 1];
      RankedIs(front, provider, ranking);
      assert items == front + [last];
    }
  }

  lemma {:induction false} RankedOfProvider<T>(items: seq<T>, provider: T -> string, ranking: seq<string>, p: string)
    ensures OfProvider(Ranked(items, provider, ranking), provider, p)
            == if p in ranking then OfProvider(items, provider, p) else []
  {
    if items != [] {
      var front, last := items[..|items| - 1], items[|items| - 1];
      RankedOfProvider(front, provider, ranking, p);
      OfProviderAppend(Ranked(front, provider, ranking), if provider(last) in ranking then [last] else [], provider, p);
    }
  }

  /** An item is put after every other item of its own provider that came before it. */
  lemma {:induction false} InsertIsStable<T>(s: seq<T>, x: T, provider: T -> string, ranking: seq<string>, p: string)
    ensures OfProvider(Insert(s, x, RankOrder(provider, ranking)), provider, p)
         == OfProvider(s, provider, p) + if provider(x) == p then [x] else []
    decreases |s|
  {
    var le := RankOrder(provider, ranking);
    if s == [] || le(s[|s| - 1], x) {
      OfProviderAppend(s, [x], provider, p);
    } else {
      var front, last := s[..|s| - 1], s[|s| - 1];
      InsertIsStable(front, x, provider, ranking, p);
      OfProviderAppend(Insert(front, x, le), [last], provider, p);
      assert provider(last) != provider(x);
    }
  }

  lemma {:induction false} SortIsStable<T>(s: seq<T>, provider: T -> string, ranking: seq<string>, p: string)
    ensures OfProvider(StableSort(s, RankOrder(provider, ranking)), provider, p) == OfProvider(s, provider, p)
  {
    hide Insert;
    if s != [] {
      var front, last := s[..|s| - 1], s[|s| - 1];
      SortIsStable(front, provider, ranking, p);
      InsertIsStable(StableSort(front, RankOrder(provider, ranking)), last, provider, ranking, p);
    }
  }

  lemma RankOrderIsTotal<T(!new)>(provider: T -> string, ranking: seq<string>)
    ensures TotalPreorder(RankOrder(provider, ranking))
  {}

  /** What comes last in rank order stays last when the items are regrouped by provider. */
  lemma {:induction false} BlocksSnoc<T>(front: seq<T>, x: T, provider: T -> string, ranking: seq<string>,
                                         providers: seq<string>)
    requires forall i, j | 0 <= i < j < |providers| :: Before(ranking, providers[i], providers[j])
    requires provider(x) in providers
    requires forall k | 0 <= k < |front| :: RankOr(ranking, provider(front[k])) <= RankOr(ranking, provider(x))
    ensures Blocks(front + [x], provider, providers) == Blocks(front, provider, providers) + [x]
    decreases |providers|
  {
    hide Rank, RankOr;
    var some, last := providers[..|providers| - 1], providers[|providers| - 1];
    assert providers == some + [last];
    OfProviderAppend(front, [x], provider, last);
    if provider(x) == last {
      LastIsNew(ranking, providers);
      BlocksWithout(front, x, provider, some);
    } else {
      var i :| 0 <= i < |some| && some[i] == provider(x);
      NoneRankedLater(front, x, provider, ranking, last);
      BlocksSnoc(front, x, provider, ranking, some);
    }
  }

  lemma {:induction false} NoneOf<T>(items: seq<T>, provider: T -> string, p: string)
    requires forall k | 0 <= k < |items| :: provider(items[k]) != p
    ensures OfProvider(items, provider, p) == []
  {
    if items != [] {
      NoneOf(items[..|items| - 1], provider, p);
    }
  }

  lemma LastIsNew(ranking: seq<string>, providers: seq<string>)
    requires providers != [] && forall i, j | 0 <= i < j < |providers| :: Before(ranking, providers[i], providers[j])
    ensures providers[|providers| - 1] !in providers[..|providers| - 1]
  {
    hide Rank;
  }

  lemma NoneRankedLater<T>(front: seq<T>, x: T, provider: T -> string, ranking: seq<string>, p: string)
    requires Before(ranking, provider(x), p)
    requires forall k | 0 <= k < |front| :: RankOr(ranking, provider(front[k])) <= RankOr(ranking, provider(x))
    ensures OfProvider(front, provider, p) == []
  {
    forall k | 0 <= k < |front|
      ensures provider(front[k]) != p
    {
      assert RankOr(ranking, provider(front[k])) < RankOr(ranking, p);
    }
    NoneOf(front, provider, p);
  }

  lemma {:induction false} BlocksWithout<T>(front: seq<T>, x: T, provider: T -> string, providers: seq<string>)
    requires provider(x) !in providers
    ensures Blocks(front + [x], provider, providers) == Blocks(front, provider, providers)
    decreases |providers|
  {
    if providers != [] {
      var some, last := providers[..|providers| - 1], providers[|providers| - 1];
      assert providers == some + [last];
      BlocksWithout(front, x, provider, some);
      OfProviderAppend(front, [x], provider, last);
    }
  }

  lemma {:induction false} SortedIsBlocks<T>(s: seq<T>, provider: T -> string, ranking: seq<string>,
                                             providers: seq<string>)
    requires forall i, j | 0 <= i < j < |providers| :: Before(ranking, providers[i], providers[j])
    requires forall k | 0 <= k < |s| :: provider(s[k]) in providers
    requires SortedBy(s, RankOrder(provider, ranking))
    ensures s == Blocks(s, provider, providers)
    decreases |s|
  {
    hide Blocks, Before;
    if s == [] {
      NoBlocks<T>(provider, providers);
    } else {
      var front, last := s[..|s| - 1], s[|s| - 1];
      assert s == front + [last];
      forall k | 0 <= k < |front|
        ensures RankOr(ranking, provider(front[k])) <= RankOr(ranking, provider(last))
      {
        assert RankOrder(provider, ranking)(s[k], s[|s| - 1]);
      }
      SortedIsBlocks(front, provider, ranking, providers);
      BlocksSnoc(front, last, provider, ranking, providers);
    }
  }

  lemma {:induction false} NoBlocks<T>(provider: T -> string, providers: seq<string>)
    ensures Blocks([], provider, providers) == []
    decreases |providers|
  {
    if providers != [] {
      NoBlocks<T>(provider, providers[..|providers| - 1]);
    }
  }

  lemma {:induction false} SameBlocks<T>(a: seq<T>, b: seq<T>, provider: T -> string, providers: seq<string>)
    requires forall k | 0 <= k < |providers| ::
             OfProvider(a, provider, providers[k]) == OfProvider(b, provider, providers[k])
    ensures Blocks(a, provider, providers) == Blocks(b, provider, providers)
    decreases |providers|
  {
    if providers != [] {
      SameBlocks(a, b, provider, providers[..|providers| - 1]);
    }
  }

  /** Exactly the ranked providers' items: provider by provider in rank order, each provider's as discovery gave
      them. */
  lemma OrderedIsBlocks<T(!new)>(items: seq<T>, provider: T -> string, ranking: seq<string>)
    ensures Ordered(items, provider, ranking) == Blocks(items, provider, Preferred(ranking))
  {
    hide StableSort, Ranked, Blocks, Preferred, OfProvider;
    var order := RankOrder(provider, ranking);
    var ranked := Ranked(items, provider, ranking);
    var sorted, providers := StableSort(ranked, order), Preferred(ranking);
    PreferredInRank(ranking);
    RankOrderIsTotal(provider, ranking);
    StableSortSorts(ranked, order);
    SortedSameElements(ranked, order);
    forall k | 0 <= k < |sorted|
      ensures provider(sorted[k]) in providers
    {
      RankedIs(items, provider, ranking);
      assert sorted[k] in sorted;
    }
    SortedIsBlocks(sorted, provider, ranking, providers);
    forall k | 0 <= k < |providers|
      ensures OfProvider(sorted, provider, providers[k]) == OfProvider(items, provider, providers[k])
    {
      assert providers[k] in providers;
      SortIsStable(ranked, provider, ranking, providers[k]);
      RankedOfProvider(items, provider, ranking, providers[k]);
    }
    SameBlocks(sorted, items, provider, providers);
  }

  // ---------------------------------------------------------------- one provider's answers

  /** `_best_provider_only` */
  function BestProviderOnly<T>(items: seq<T>, provider: T -> string): seq<T> {
    if items == [] then items else OfProvider(items, provider, provider(items[0]))
  }

  /** The answers left are everything one provider gave, and no ranked provider that gave any is ranked above it. */
  lemma BestProviderIsBest<T(!new)>(items: seq<T>, provider: T -> string, ranking: seq<string>)
    ensures var best := BestProviderOnly(Ordered(items, provider, ranking), provider);
            if best == [] then forall x <- items :: provider(x) !in ranking
            else
              && provider(best[0]) in ranking
              && best == OfProvider(items, provider, provider(best[0]))
              && forall x | x in items && provider(x) in ranking ::
                 Rank(ranking, provider(best[0])) <= Rank(ranking, provider(x))
  {
    hide StableSort, Ranked, OfProvider, Rank;
    var order := RankOrder(provider, ranking);
    var ranked, sorted := Ranked(items, provider, ranking), Ordered(items, provider, ranking);
    RankedIs(items, provider, ranking);
    RankOrderIsTotal(provider, ranking);
    StableSortSorts(ranked, order);
    SortedSameElements(ranked, order);
    if sorted != [] {
      var p := provider(sorted[0]);
      assert sorted[0] in sorted;
      SortIsStable(ranked, provider, ranking, p);
      RankedOfProvider(items, provider, ranking, p);
      FirstOf(sorted, provider);
      forall x | x in items && provider(x) in ranking
        ensures Rank(ranking, p) <= Rank(ranking, provider(x))
      {
        FirstIsLeast(sorted, x, provider, ranking);
      }
    }
    forall x | x in items && provider(x) in ranking
      ensures sorted != []
    {
      assert x in sorted;
    }
  }

  lemma {:induction false} FirstOf<T>(items: seq<T>, provider: T -> string)
    requires items != []
    ensures var own := OfProvider(items, provider, provider(items[0])); own != [] && own[0] == items[0]
  {
    if |items| > 1 {
      FirstOf(items[..|items| - 1], provider);
    }
  }

  lemma FirstIsLeast<T(!new)>(sorted: seq<T>, x: T, provider: T -> string, ranking: seq<string>)
    requires SortedBy(sorted, RankOrder(provider, ranking)) && x in sorted
    requires provider(x) in ranking && provider(sorted[0]) in ranking
    ensures Rank(ranking, provider(sorted[0])) <= Rank(ranking, provider(x))
  {
    var k :| 0 <= k < |sorted| && sorted[k] == x;
    assert k > 0 ==> RankOrder(provider, ranking)(sorted[0], sorted[k]);
  }

  // ---------------------------------------------------------------- what is recorded

  function Providers<T>(items: seq<T>, provider: T -> string): seq<string> {
    if items == [] then [] else Providers(items[..|items| - 1], provider) + [provider(items[|items| - 1])]
  }

  /** Those of a list of providers that are among the given ones. */
  function Among(providers: seq<string>, present: seq<string>): seq<string> {
    if providers == [] then []
    else
      var last := providers[|providers| - 1];
      Among(providers[..|providers| - 1], present) + if last in present then [last] else []
  }

  function NotAmong(providers: seq<string>, ranking: seq<string>): seq<string> {
    if providers == [] then []
    else
      var last := providers[|providers| - 1];
      NotAmong(providers[..|providers| - 1], ranking) + if last in ranking then [] else [last]
  }

  /** `_kept`, of the providers found */
  function Kept(found: seq<string>, ranking: seq<string>): seq<string> { Among(ranking, found) }

  /** `_dropped` */
  function DroppedOf(found: seq<string>, ranking: seq<string>): seq<string> { FirstSeen(NotAmong(found, ranking)) }

  lemma {:induction false} AmongIs(providers: seq<string>, present: seq<string>)
    ensures forall p :: p in Among(providers, present) <==> p in providers && p in present
    ensures forall p :: p in NotAmong(providers, present) <==> p in providers && p !in present
  {
    if providers != [] {
      AmongIs(providers[..|providers| - 1], present);
      assert providers == providers[..|providers| - 1] + [providers[|providers| - 1]];
    }
  }

  /** Every provider found is recorded as kept or as dropped, never as both, and nobody else is. */
  lemma KeptOrDropped(found: seq<string>, ranking: seq<string>)
    ensures forall p :: p in found <==> (p in Kept(found, ranking) || p in DroppedOf(found, ranking))
    ensures forall p :: p in Kept(found, ranking) ==> p !in DroppedOf(found, ranking)
    ensures forall p :: p in Kept(found, ranking) ==> p in ranking
    ensures Distinct(DroppedOf(found, ranking))
  {
    AmongIs(ranking, found);
    AmongIs(found, ranking);
    SeenAfterKeeps([], NotAmong(found, ranking));
    forall p
      ensures p in DroppedOf(found, ranking) <==> p in NotAmong(found, ranking)
    {}
  }

  lemma {:induction false} AmongDistinct(providers: seq<string>, present: seq<string>)
    requires Distinct(providers)
    ensures Distinct(Among(providers, present))
  {
    if providers != [] {
      var front, last := providers[..|providers| - 1], providers[|providers| - 1];
      assert providers == front + [last] && last !in front;
      AmongDistinct(front, present);
      AmongIs(front, present);
      var r := Among(front, present);
      assert forall k | 0 <= k < |r| :: r[k] in r && r[k] != last;
    }
  }

  lemma PreferredDistinct(ranking: seq<string>)
    ensures Distinct(Preferred(ranking))
  {
    PreferredInRank(ranking);
    var r := Preferred(ranking);
    forall i, j | 0 <= i < j < |r|
      ensures r[i] != r[j]
    {
      assert Before(ranking, r[i], r[j]);
    }
  }

  /** The providers that are used, in the order they are used. */
  function Used<T>(items: seq<T>, provider: T -> string, ranking: seq<string>): seq<string> {
    FirstSeen(Providers(Ordered(items, provider, ranking), provider))
  }

  lemma {:induction false} ProvidersAppend<T>(a: seq<T>, b: seq<T>, provider: T -> string)
    ensures Providers(a + b, provider) == Providers(a, provider) + Providers(b, provider)
    decreases |b|
  {
    if b == [] {
      assert a + b == a;
    } else {
      assert (a + b)[..|a + b| - 1] == a + b[..|b| - 1];
      ProvidersAppend(a, b[..|b| - 1], provider);
    }
  }

  lemma {:induction false} ProvidersAre<T>(items: seq<T>, provider: T -> string, p: string)
    ensures |Providers(items, provider)| == |items|
    ensures p in Providers(items, provider) <==> OfProvider(items, provider, p) != []
    ensures var own := Providers(OfProvider(items, provider, p), provider); forall k | 0 <= k < |own| :: own[k] == p
  {
    if items != [] {
      var front, last := items[..|items| - 1], items[|items| - 1];
      ProvidersAre(front, provider, p);
      ProvidersAppend(OfProvider(front, provider, p), if provider(last) == p then [last] else [], provider);
      OneProvider(last, provider);
    }
  }

  lemma OneProvider<T>(x: T, provider: T -> string)
    ensures Providers([x], provider) == [provider(x)] && Providers([], provider) == []
  {
    assert [x][..0] == [];
  }

  /** A run of one provider adds it to those seen, once. */
  lemma {:induction false} RunSeen(seen: seq<string>, block: seq<string>, p: string)
    requires p !in seen && forall k | 0 <= k < |block| :: block[k] == p
    ensures SeenAfter(seen, block) == if block == [] then seen else seen + [p]
  {
    if block != [] {
      RepeatSeen(seen + [p], block[1..], p);
    }
  }

  lemma {:induction false} RepeatSeen(seen: seq<string>, block: seq<string>, p: string)
    requires p in seen && forall k | 0 <= k < |block| :: block[k] == p
    ensures SeenAfter(seen, block) == seen
    decreases |block|
  {
    if block != [] {
      RepeatSeen(seen, block[1..], p);
    }
  }

  lemma {:induction false} BlocksUsed<T>(items: seq<T>, provider: T -> string, providers: seq<string>)
    requires Distinct(providers)
    ensures FirstSeen(Providers(Blocks(items, provider, providers), provider))
            == Among(providers, Providers(items, provider))
    decreases |providers|
  {
    hide OfProvider, Providers, SeenAfter;
    if providers == [] {
      OneSeen<T>(provider);
    } else {
      var some, last := providers[..|providers| - 1], providers[|providers| - 1];
      assert providers == some + [last] && last !in some;
      BlocksUsed(items, provider, some);
      var before, block := Blocks(items, provider, some), OfProvider(items, provider, last);
      ProvidersAppend(before, block, provider);
      SeenAfterAppend([], Providers(before, provider), Providers(block, provider));
      ProvidersAre(items, provider, last);
      ProvidersAre(block, provider, last);
      AmongIs(some, Providers(items, provider));
      RunSeen(Among(some, Providers(items, provider)), Providers(block, provider), last);
    }
  }

  lemma OneSeen<T>(provider: T -> string)
    ensures FirstSeen(Providers([], provider)) == []
  {}

  /** Providers are used in the order of the ranking, each at the last place it is named. */
  lemma UsedInRankOrder<T(!new)>(items: seq<T>, provider: T -> string, ranking: seq<string>)
    ensures Used(items, provider, ranking) == Among(Preferred(ranking), Providers(items, provider))
  {
    hide Ordered, Preferred, Providers, Blocks, Among;
    OrderedIsBlocks(items, provider, ranking);
    PreferredDistinct(ranking);
    BlocksUsed(items, provider, Preferred(ranking));
  }

  lemma {:induction false} AmongWithout(s: seq<string>, x: string, present: seq<string>)
    ensures Among(Without(s, x), present) == Without(Among(s, present), x)
    decreases |s|
  {
    if s != [] {
      var front, last := s[..|s| - 1], s[|s| - 1];
      assert s == front + [last];
      AmongWithout(front, x, present);
      WithoutAppend(front, [last], x);
      WithoutAppend(Among(front, present), if last in present then [last] else [], x);
      AmongAppend(Without(front, x), Without([last], x), present);
      WithoutOne(last, x, present);
    }
  }

  lemma WithoutOne(y: string, x: string, present: seq<string>)
    ensures Without([y], x) == (if y == x then [] else [y]) && Without([], x) == []
    ensures Among([y], present) == (if y in present then [y] else []) && Among([], present) == []
  {
    assert [y][1..] == [] && [y][..0] == [];
  }

  lemma {:induction false} WithoutAppend(a: seq<string>, b: seq<string>, x: string)
    ensures Without(a + b, x) == Without(a, x) + Without(b, x)
    decreases |a|
  {
    if a == [] {
      assert a + b == b;
    } else {
      assert (a + b)[1..] == a[1..] + b;
      WithoutAppend(a[1..], b, x);
    }
  }

  lemma {:induction false} AmongAppend(a: seq<string>, b: seq<string>, present: seq<string>)
    ensures Among(a + b, present) == Among(a, present) + Among(b, present)
    decreases |b|
  {
    if b == [] {
      assert a + b == a;
    } else {
      assert (a + b)[..|a + b| - 1] == a + b[..|b| - 1];
      AmongAppend(a, b[..|b| - 1], present);
    }
  }

  lemma {:induction false} WithoutAbsent(s: seq<string>, x: string)
    requires x !in s
    ensures Without(s, x) == s
  {
    if s != [] {
      WithoutAbsent(s[1..], x);
      assert s == [s[0]] + s[1..];
    }
  }

  lemma {:induction false} PreferredAmong(ranking: seq<string>, present: seq<string>)
    ensures Among(Preferred(ranking), present) == Preferred(Among(ranking, present))
  {
    hide Among, Without;
    if ranking == [] {
      WithoutOne("", "", present);
    } else {
      var front, last := ranking[..|ranking| - 1], ranking[|ranking| - 1];
      assert ranking == front + [last];
      PreferredAmong(front, present);
      AmongAppend(front, [last], present);
      AmongAppend(Without(Preferred(front), last), [last], present);
      AmongWithout(Preferred(front), last, present);
      WithoutOne(last, last, present);
      PreferredNext(Among(front, present), last);
      if last !in present {
        AmongIs(Preferred(front), present);
        WithoutAbsent(Among(Preferred(front), present), last);
        assert Without(Among(Preferred(front), present), last) + [] == Among(Preferred(front), present);
        assert Among(front, present) + [] == Among(front, present);
      }
    }
  }

  lemma PreferredNext(s: seq<string>, x: string)
    ensures Preferred(s + [x]) == Without(Preferred(s), x) + [x]
  {
    assert (s + [x])[..|s|] == s;
  }

  lemma {:induction false} PreferredOfDistinct(s: seq<string>)
    requires Distinct(s)
    ensures Preferred(s) == s
  {
    if s != [] {
      var front, last := s[..|s| - 1], s[|s| - 1];
      assert s == front + [last] && last !in front;
      PreferredOfDistinct(front);
      WithoutAbsent(front, last);
    }
  }

  /** The order of use is the ranking's own exactly when no provider of the items is named twice in it. */
  lemma UsedAsKept<T(!new)>(items: seq<T>, provider: T -> string, ranking: seq<string>)
    ensures Used(items, provider, ranking) == Kept(Providers(items, provider), ranking)
       <==> NamedOnce(ranking, Providers(items, provider))
  {
    hide Used, Preferred, Providers, Among;
    var present := Providers(items, provider);
    UsedInRankOrder(items, provider, ranking);
    PreferredAmong(ranking, present);
    KeptOnce(ranking, present);
    if Distinct(Among(ranking, present)) {
      PreferredOfDistinct(Among(ranking, present));
    }
    PreferredDistinct(Among(ranking, present));
  }

  ghost predicate NamedOnce(ranking: seq<string>, present: seq<string>) {
    forall i, j | 0 <= i < j < |ranking| :: ranking[i] == ranking[j] ==> ranking[i] !in present
  }

  lemma NamedOnceSnoc(front: seq<string>, last: string, present: seq<string>)
    ensures NamedOnce(front + [last], present) <==> NamedOnce(front, present) && (last in front ==> last !in present)
  {
    var all := front + [last];
    if NamedOnce(all, present) {
      forall i, j | 0 <= i < j < |front| && front[i] == front[j]
        ensures front[i] !in present
      {
        assert all[i] == all[j];
      }
      if last in front {
        var i :| 0 <= i < |front| && front[i] == last;
        assert all[i] == all[|front|];
      }
    }
  }

  lemma {:induction false} KeptOnce(ranking: seq<string>, present: seq<string>)
    ensures Distinct(Among(ranking, present)) <==> NamedOnce(ranking, present)
  {
    hide Distinct, NamedOnce;
    if ranking == [] {
      NothingTwice(present);
    } else {
      var front, last := ranking[..|ranking| - 1], ranking[|ranking| - 1];
      assert ranking == front + [last];
      KeptOnce(front, present);
      AmongIs(front, present);
      assert Among(front, present) + [] == Among(front, present);
      DistinctSnoc(Among(front, present), last);
      NamedOnceSnoc(front, last, present);
    }
  }

  lemma NothingTwice(present: seq<string>)
    ensures Distinct<string>([]) && NamedOnce([], present)
  {}

  lemma DistinctSnoc(s: seq<string>, x: string)
    ensures Distinct(s + [x]) <==> Distinct(s) && x !in s
  {
    if Distinct(s + [x]) {
      forall i, j | 0 <= i < j < |s|
        ensures s[i] != s[j]
      {
        assert (s + [x])[i] != (s + [x])[j];
      }
      forall i | 0 <= i < |s|
        ensures s[i] != x
      {
        assert (s + [x])[i] != (s + [x])[|s|];
      }
    }
  }

  lemma {:induction false} AllAmong(s: seq<string>, present: seq<string>)
    requires forall k | 0 <= k < |s| :: s[k] in present
    ensures Among(s, present) == s
  {
    if s != [] {
      AllAmong(s[..|s| - 1], present);
    }
  }

  lemma PreferredRepeat(a: string, b: string)
    requires a != b
    ensures Preferred([a, b, a]) == [b, a]
  {
    hide Preferred, Without;
    PreferredOfDistinct([a, b]);
    assert [a, b, a] == [a, b] + [a] && [a, b] == [a] + [b] && [b] + [a] == [b, a];
    PreferredNext([a, b], a);
    WithoutAppend([a], [b], a);
    WithoutOne(a, a, []);
    WithoutOne(b, a, []);
  }

  // ---------------------------------------------------------------- a whole turn's findings

  type Capabilities = map<nat, seq<Discovery.Capability>>

  type Answers = map<nat, seq<Discovery.Answer>>

  datatype Priority = Priority(ranking: seq<string>, kept: seq<string>, dropped: seq<string>)

  datatype Prioritised = Prioritised(capabilities: Capabilities, answers: Answers, priorities: seq<Priority>)

  function OfCapability(): Discovery.Capability -> string { (c: Discovery.Capability) => c.provider }

  function OfAnswer(): Discovery.Answer -> string { (a: Discovery.Answer) => a.provider }

  /** The ranking of ask `i`'s capability; empty where nobody expressed a preference, or there is no such ask. */
  function RankingOf(rankings: seq<seq<string>>, i: nat): seq<string> { if i < |rankings| then rankings[i] else [] }

  /** The providers found for ask `i`, by capability and then by answer. */
  function FoundProviders(capabilities: Capabilities, answers: Answers, i: nat): seq<string> {
    (if i in capabilities then Providers(capabilities[i], OfCapability()) else [])
    + if i in answers then Providers(answers[i], OfAnswer()) else []
  }

  function PriorityOf(found: seq<string>, ranking: seq<string>): Priority {
    if ranking == [] then Priority([], [], []) else Priority(ranking, Kept(found, ranking), DroppedOf(found, ranking))
  }

  /** `prioritise` */
  function Prioritise(capabilities: Capabilities, answers: Answers, rankings: seq<seq<string>>): Prioritised {
    Prioritised(
      map i | i in capabilities :: if RankingOf(rankings, i) == [] then capabilities[i]
                                   else Ordered(capabilities[i], OfCapability(), RankingOf(rankings, i)),
      map i | i in answers :: if RankingOf(rankings, i) == [] then answers[i]
                              else BestProviderOnly(Ordered(answers[i], OfAnswer(), RankingOf(rankings, i)),
                                  OfAnswer()),
      seq(|rankings|, i requires 0 <= i < |rankings| =>
        PriorityOf(FoundProviders(capabilities, answers, i), rankings[i])))
  }

  /** A ranking is exclusive, and where there is none the ask is left alone. */
  lemma RankingGoverns(capabilities: Capabilities, answers: Answers, rankings: seq<seq<string>>, i: nat)
    ensures var p := Prioritise(capabilities, answers, rankings);
            var ranking := RankingOf(rankings, i);
            && p.capabilities.Keys == capabilities.Keys && p.answers.Keys == answers.Keys
            && |p.priorities| == |rankings|
            && (i in capabilities ==>
                  p.capabilities[i] == if ranking == [] then capabilities[i]
                                       else Blocks(capabilities[i], OfCapability(), Preferred(ranking)))
            && (i in answers && ranking == [] ==> p.answers[i] == answers[i])
            && (i in answers && ranking != [] && p.answers[i] == []
                ==> forall a <- answers[i] :: a.provider !in ranking)
            && (i in answers && ranking != [] && p.answers[i] != [] ==>
                  && p.answers[i][0].provider in ranking
                  && p.answers[i] == OfProvider(answers[i], OfAnswer(), p.answers[i][0].provider)
                  && forall a | a in answers[i] && a.provider in ranking ::
                       Rank(ranking, p.answers[i][0].provider) <= Rank(ranking, a.provider))
  {
    hide Ordered, BestProviderOnly, Blocks, Preferred, OfProvider, Rank, PriorityOf;
    var ranking := RankingOf(rankings, i);
    if i in capabilities {
      OrderedIsBlocks(capabilities[i], OfCapability(), ranking);
    }
    if i in answers {
      BestProviderIsBest(answers[i], OfAnswer(), ranking);
    }
  }

  /** The record of an ask with a ranking: everyone found is kept or dropped, not both. */
  lemma PriorityAccounts(capabilities: Capabilities, answers: Answers, rankings: seq<seq<string>>, i: nat)
    requires i < |rankings| && rankings[i] != []
    ensures var p := Prioritise(capabilities, answers, rankings).priorities[i];
            forall x :: x in FoundProviders(capabilities, answers, i) <==> (x in p.kept || x in p.dropped)
    ensures var p := Prioritise(capabilities, answers, rankings).priorities[i];
            forall x :: !(x in p.kept && x in p.dropped)
  {
    KeptOrDropped(FoundProviders(capabilities, answers, i), rankings[i]);
  }

  // ---------------------------------------------------------------- the record against what is used

  lemma {:induction false} AmongAmong(ranking: seq<string>, found: seq<string>, some: seq<string>)
    requires forall p <- some :: p in found
    ensures Among(Among(ranking, found), some) == Among(ranking, some)
  {
    if ranking != [] {
      var front, last := ranking[..|ranking| - 1], ranking[|ranking| - 1];
      AmongAmong(front, found, some);
      AmongAppend(Among(front, found), if last in found then [last] else [], some);
      WithoutOne(last, last, some);
    }
  }

  /** The providers used for an ask's capabilities come in the order its record keeps them in, exactly when the ranking
      names none of them twice. */
  lemma CapabilitiesAsRecorded(capabilities: Capabilities, answers: Answers, rankings: seq<seq<string>>, i: nat)
    requires i < |rankings| && rankings[i] != [] && i in capabilities
    ensures var p := Prioritise(capabilities, answers, rankings);
            var own := Providers(capabilities[i], OfCapability());
            FirstSeen(Providers(p.capabilities[i], OfCapability())) == Among(p.priorities[i].kept, own)
            <==> NamedOnce(rankings[i], own)
  {
    hide Providers, Among, FirstSeen, NamedOnce, Ordered;
    var own := Providers(capabilities[i], OfCapability());
    AmongAmong(rankings[i], FoundProviders(capabilities, answers, i), own);
    UsedAsKept(capabilities[i], OfCapability(), rankings[i]);
  }

  /** The same for its answers, in the order the ranking puts their providers; the first of these is served, alone. */
  lemma AnswersAsRecorded(capabilities: Capabilities, answers: Answers, rankings: seq<seq<string>>, i: nat)
    requires i < |rankings| && rankings[i] != [] && i in answers
    ensures var p := Prioritise(capabilities, answers, rankings);
            var own := Providers(answers[i], OfAnswer());
            var used := Used(answers[i], OfAnswer(), rankings[i]);
            && (used == Among(p.priorities[i].kept, own) <==> NamedOnce(rankings[i], own))
            && p.answers[i] == if used == [] then [] else OfProvider(answers[i], OfAnswer(), used[0])
  {
    hide Providers, Among, FirstSeen, NamedOnce, Ordered, OfProvider;
    var own := Providers(answers[i], OfAnswer());
    AmongAmong(rankings[i], FoundProviders(capabilities, answers, i), own);
    UsedAsKept(answers[i], OfAnswer(), rankings[i]);
    FirstUsed(Ordered(answers[i], OfAnswer(), rankings[i]), OfAnswer());
    BestProviderIsBest(answers[i], OfAnswer(), rankings[i]);
    if Ordered(answers[i], OfAnswer(), rankings[i]) != [] {
      FirstOf(Ordered(answers[i], OfAnswer(), rankings[i]), OfAnswer());
    }
  }

  lemma FirstUsed<T>(items: seq<T>, provider: T -> string)
    ensures var used := FirstSeen(Providers(items, provider));
            if items == [] then used == [] else used != [] && used[0] == provider(items[0])
  {
    if items != [] {
      ProvidersStart(items, provider);
      var all := Providers(items, provider);
      SeenAfterKeeps([all[0]], all[1..]);
      assert all[0] !in ([]) && [] + [all[0]] == [all[0]];
    }
  }

  lemma {:induction false} ProvidersStart<T>(items: seq<T>, provider: T -> string)
    requires items != []
    ensures var all := Providers(items, provider); all != [] && all[0] == provider(items[0])
  {
    if |items| > 1 {
      ProvidersStart(items[..|items| - 1], provider);
    }
  }

  /** A ranking that names a provider twice: it is used where it is named last, and recorded twice. */
  lemma NamedTwice(capabilities: Capabilities, answers: Answers, rankings: seq<seq<string>>, i: nat, a: string,
                   b: string)
    requires i < |rankings| && rankings[i] == [a, b, a] && a != b && i in capabilities
    requires a in Providers(capabilities[i], OfCapability()) && b in Providers(capabilities[i], OfCapability())
    ensures var p := Prioritise(capabilities, answers, rankings);
            && p.priorities[i].kept == [a, b, a]
            && FirstSeen(Providers(p.capabilities[i], OfCapability())) == [b, a]
  {
    hide Providers, Preferred, FirstSeen, Ordered, StableSort;
    var own := Providers(capabilities[i], OfCapability());
    UsedInRankOrder(capabilities[i], OfCapability(), rankings[i]);
    PreferredRepeat(a, b);
    AllAmong([b, a], own);
    AllAmong([a, b, a], FoundProviders(capabilities, answers, i));
  }
}
