/** Who can serve each ask: one call for each different query, and one entry for each ask however the calls finish. */
module Discovery {
  import opened Text
  import opened Sorting
  import opened Completion

  /** `observed` are the subject categories a provider publishes it under; an answer's are its `categories`. */
  datatype Capability = Capability(provider: string, name: string, kind: string, resource: string,
                                   observed: seq<string>)

  /** When an answer holds, in ticks; either bound may be missing. */
  datatype Window = Window(starts: Option<int>, ends: Option<int>)

  datatype Answer = Answer(provider: string, kind: string, resource: string, content: string, window: Option<Window>,
                           categories: seq<string>)

  datatype DiscoveryFailure = DiscoveryFailure(kind: string, status: int, transient: bool)

  datatype Found = Found(answers: seq<Answer>, capabilities: seq<Capability>, failures: seq<DiscoveryFailure>)

  datatype Coverage = Coverage(lat: real, lon: real, radius: int)

  datatype Query = Query(kinds: seq<string>, category: string, languages: seq<string>, coverage: Option<Coverage>)

  datatype Place = Nowhere | Ambiguous | Unresolved | Resolved(lat: real, lon: real)

  /** One ask; `action` is the action type its interaction type stands for. */
  datatype Ask = Ask(category: string, action: string, place: Place)

  /** What the schema packs say, and how the turn searches. */
  datatype Setup = Setup(index: map<(string, string), seq<string>>, placeBound: set<string>, languages: seq<string>,
                         radius: int)

  datatype Event =
    | CapabilityUnresolved(category: string, action: string)
    | ExpiredAnswerDropped(provider: string, kind: string, resource: string, hadFallback: bool)
    | AskDiscoveryFailed(ask: nat, kind: string, transient: bool, status: int)
    | AskUnservable(ask: nat, kinds: seq<string>)
    | CategoryMappingDiverged(kind: string, category: string)

  datatype DiscoveredAsk = DiscoveredAsk(index: nat, query: Query, found: Found)

  // ---------------------------------------------------------------- queries

  function KindsOf(ask: Ask, setup: Setup): seq<string> {
    if (ask.category, ask.action) in setup.index then setup.index[(ask.category, ask.action)] else []
  }

  predicate PlaceFailed(ask: Ask) { ask.place.Ambiguous? || ask.place.Unresolved? }

  /** The pair of category and action names no type, and the category cannot be searched without one. */
  predicate NoKind(ask: Ask, setup: Setup) { KindsOf(ask, setup) == [] && ask.category != "Scheme" }

  predicate Searchable(ask: Ask, setup: Setup) { !PlaceFailed(ask) && !NoKind(ask, setup) }

  function QueryOf(ask: Ask, setup: Setup): Query {
    var kinds := KindsOf(ask, setup);
    var near := if ask.place.Resolved? then Some(Coverage(ask.place.lat, ask.place.lon, setup.radius)) else None;
    Query(kinds, ask.category, setup.languages, if forall k <- kinds :: k in setup.placeBound then near else None)
  }

  /** The types the index lists for the ask's category and action, if it lists any. */
  ghost predicate Lists(ask: Ask, setup: Setup, kinds: seq<string>) {
    ((ask.category, ask.action) in setup.index && setup.index[(ask.category, ask.action)] == kinds)
    || ((ask.category, ask.action) !in setup.index && kinds == [])
  }

  /** The query says what the ask says: its category, the types listed for it and the turn's languages, around its own
      place where it has one and every type is bound to places. */
  ghost predicate Says(q: Query, ask: Ask, setup: Setup) {
    && q.category == ask.category && Lists(ask, setup, q.kinds) && q.languages == setup.languages
    && (q.coverage.Some? <==> ask.place.Resolved? && forall kind <- q.kinds :: kind in setup.placeBound)
    && (q.coverage.Some? && ask.place.Resolved? ==>
          && q.coverage.value.lat == ask.place.lat && q.coverage.value.lon == ask.place.lon
          && q.coverage.value.radius == setup.radius)
  }

  /** There is one such query, and it is the one sent. */
  lemma QuerySays(ask: Ask, setup: Setup, q: Query)
    ensures Says(q, ask, setup) <==> q == QueryOf(ask, setup)
  {
    if Says(q, ask, setup) && q.coverage.Some? {
      assert q.coverage == QueryOf(ask, setup).coverage;
    }
  }

  /** An ask is searched unless its place failed, or it names no type and is not about a scheme. */
  lemma SearchedAsks(ask: Ask, setup: Setup)
    ensures Searchable(ask, setup) <==>
            && ask.place != Ambiguous && ask.place != Unresolved
            && (ask.category == "Scheme" || exists kinds :: kinds != [] && Lists(ask, setup, kinds))
  {
    if KindsOf(ask, setup) != [] {
      assert Lists(ask, setup, KindsOf(ask, setup));
    }
  }

  function QueriesByAsk(asks: seq<Ask>, setup: Setup): map<nat, Query> {
    map i: nat | 0 <= i < |asks| && Searchable(asks[i], setup) :: QueryOf(asks[i], setup)
  }

  function UnresolvedEvents(asks: seq<Ask>, setup: Setup): seq<Event> {
    if asks == [] then []
    else
      var ask := asks[|asks| - 1];
      UnresolvedEvents(asks[..|asks| - 1], setup)
      + if !PlaceFailed(ask) && NoKind(ask, setup) then [CapabilityUnresolved(ask.category, ask.action)] else []
  }

  /** `_find_asks_to_discover` */
  method FindAsks(asks: seq<Ask>, setup: Setup)
    returns (queries: map<nat, Query>, unsearchable: set<nat>, events: seq<Event>)
    ensures queries == QueriesByAsk(asks, setup)
    ensures unsearchable == (set i: nat | 0 <= i < |asks| && !Searchable(asks[i], setup))
    ensures events == UnresolvedEvents(asks, setup)
  {
    hide QueryOf, KindsOf, NoKind, PlaceFailed;
    queries, unsearchable, events := map[], {}, [];
    for n := 0 to |asks|
      invariant queries == map i: nat | 0 <= i < n && Searchable(asks[i], setup) :: QueryOf(asks[i], setup)
      invariant unsearchable == set i: nat | 0 <= i < n && !Searchable(asks[i], setup)
      invariant events == UnresolvedEvents(asks[..n], setup)
    {
      var ask := asks[n];
      assert asks[..n + 1][..n] == asks[..n];
      if PlaceFailed(ask) {
        unsearchable := unsearchable + {n};
      } else if NoKind(ask, setup) {
        events := events + [CapabilityUnresolved(ask.category, ask.action)];
        unsearchable := unsearchable + {n};
      } else {
        queries := queries[n := QueryOf(ask, setup)];
      }
    }
    assert asks[..|asks|] == asks;
  }

  // ---------------------------------------------------------------- each different query once

  /** The asks that are searched, with their queries, in ask order. */
  function InAskOrder(queries: map<nat, Query>, n: nat): seq<(nat, Query)> {
    if n == 0 then []
    else InAskOrder(queries, n - 1) + if n - 1 in queries then [(n - 1, queries[n - 1])] else []
  }

  function QueriesIn(pairs: seq<(nat, Query)>): seq<Query> { seq(|pairs|, k requires 0 <= k < |pairs| => pairs[k].1) }

  function UniqueQueries(queries: map<nat, Query>, n: nat): seq<Query> { FirstSeen(QueriesIn(InAskOrder(queries, n))) }

  lemma {:induction false} InAskOrderIs(queries: map<nat, Query>, n: nat)
    ensures forall p <- InAskOrder(queries, n) :: p.0 < n && p.0 in queries && queries[p.0] == p.1
    ensures forall i | 0 <= i < n && i in queries :: (i, queries[i]) in InAskOrder(queries, n)
    ensures forall j, k | 0 <= j < k < |InAskOrder(queries, n)| ::
            InAskOrder(queries, n)[j].0 < InAskOrder(queries, n)[k].0
  {
    if n > 0 {
      InAskOrderIs(queries, n - 1);
      var before := InAskOrder(queries, n - 1);
      forall p | p in InAskOrder(queries, n)
        ensures p.0 < n && p.0 in queries && queries[p.0] == p.1
      {
        assert p in before || p == (n - 1, queries[n - 1]);
      }
      forall j | 0 <= j < |before|
        ensures before[j].0 < n - 1
      {
        assert before[j] in before;
      }
    }
  }

  /** Each different query once, and every ask's query among them. */
  lemma UniqueQueriesAre(queries: map<nat, Query>, n: nat)
    requires forall i <- queries :: i < n
    ensures Distinct(UniqueQueries(queries, n))
    ensures forall q :: q in UniqueQueries(queries, n) <==> q in queries.Values
  {
    var pairs := InAskOrder(queries, n);
    var all := QueriesIn(pairs);
    InAskOrderIs(queries, n);
    SeenAfterKeeps([], all);
    forall q
      ensures q in UniqueQueries(queries, n) <==> q in queries.Values
    {
      if q in queries.Values {
        var i :| i in queries && queries[i] == q;
        assert (i, q) in pairs;
        var k :| 0 <= k < |pairs| && pairs[k] == (i, q);
        assert all[k] == q;
      }
      if q in UniqueQueries(queries, n) {
        assert q in all;
        var k :| 0 <= k < |all| && all[k] == q;
        assert pairs[k] in pairs;
        assert queries[pairs[k].0] == q;
      }
    }
  }

  // ---------------------------------------------------------------- sending them, and giving each ask its reply

  /** The asks sharing a query, in ask order, each with its reply. */
  function SharingAsks(pairs: seq<(nat, Query)>, query: Query, found: Found): seq<DiscoveredAsk> {
    if pairs == [] then []
    else
      var last := pairs[|pairs| - 1];
      SharingAsks(pairs[..|pairs| - 1], query, found)
      + if last.1 == query then [DiscoveredAsk(last.0, query, found)] else []
  }

  /** Query by query, as the replies are handed out. */
  function Searched(pairs: seq<(nat, Query)>, unique: seq<Query>, answer: Query -> Found): seq<DiscoveredAsk> {
    if unique == [] then []
    else
      var last := unique[|unique| - 1];
      Searched(pairs, unique[..|unique| - 1], answer) + SharingAsks(pairs, last, answer(last))
  }

  /** Ask by ask, each with the reply to its own query. */
  function OwnReplies(pairs: seq<(nat, Query)>, answer: Query -> Found): seq<DiscoveredAsk> {
    seq(|pairs|, k requires 0 <= k < |pairs| => DiscoveredAsk(pairs[k].0, pairs[k].1, answer(pairs[k].1)))
  }

  ghost predicate Ascending<T>(s: seq<T>, key: T -> nat) { forall j, k | 0 <= j < k < |s| :: key(s[j]) < key(s[k]) }

  /** One order: two ascending lists of the same elements are the same list. */
  lemma {:induction false} AscendingOneWay<T(!new)>(a: seq<T>, b: seq<T>, key: T -> nat)
    requires Ascending(a, key) && Ascending(b, key) && forall x :: x in a <==> x in b
    ensures a == b
    decreases |a|
  {
    if a == [] {
      FirstIsIn(b);
    } else {
      LastsAgree(a, b, key);
      var front, other := a[..|a| - 1], b[..|b| - 1];
      forall x
        ensures x in front <==> x in other
      {
        FrontOf(a, key, x);
        FrontOf(b, key, x);
      }
      AscendingOneWay(front, other, key);
      assert a == front + [a[|a| - 1]] && b == other + [b[|b| - 1]];
    }
  }

  lemma FirstIsIn<T>(b: seq<T>)
    ensures b == [] || b[0] in b
  {}

  lemma FrontOf<T(!new)>(a: seq<T>, key: T -> nat, x: T)
    requires Ascending(a, key) && a != []
    ensures x in a[..|a| - 1] <==> x in a && x != a[|a| - 1]
  {
    assert a == a[..|a| - 1] + [a[|a| - 1]];
  }

  lemma LastsAgree<T(!new)>(a: seq<T>, b: seq<T>, key: T -> nat)
    requires Ascending(a, key) && Ascending(b, key) && a != [] && forall x :: x in a <==> x in b
    ensures b != [] && a[|a| - 1] == b[|b| - 1]
  {
    assert a[|a| - 1] in b;
    assert b[|b| - 1] in a;
  }

  lemma {:induction false} SharingAsksAre(pairs: seq<(nat, Query)>, query: Query, found: Found)
    ensures forall e :: e in SharingAsks(pairs, query, found) <==>
            (e.index, query) in pairs && e.query == query && e.found == found
    decreases |pairs|
  {
    if pairs != [] {
      var front, last := pairs[..|pairs| - 1], pairs[|pairs| - 1];
      SharingAsksAre(front, query, found);
      assert pairs == front + [last];
    }
  }

  lemma {:induction false} SharingAsksAscend(pairs: seq<(nat, Query)>, query: Query, found: Found)
    requires Ascending(pairs, (p: (nat, Query)) => p.0)
    ensures forall j, k | 0 <= j < k < |SharingAsks(pairs, query, found)| ::
              SharingAsks(pairs, query, found)[j].index < SharingAsks(pairs, query, found)[k].index
    decreases |pairs|
  {
    if pairs != [] {
      var front, last := pairs[..|pairs| - 1], pairs[|pairs| - 1];
      SharingAsksAscend(front, query, found);
      SharingAsksAre(front, query, found);
      var r := SharingAsks(front, query, found);
      forall j | 0 <= j < |r|
        ensures r[j].index < last.0
      {
        assert r[j] in r;
        var k :| 0 <= k < |front| && front[k] == (r[j].index, query);
        assert front[k] == pairs[k];
      }
    }
  }

  ghost predicate NoIndexTwice(s: seq<DiscoveredAsk>) { forall j, k | 0 <= j < k < |s| :: s[j].index != s[k].index }

  lemma {:induction false} SearchedAre(pairs: seq<(nat, Query)>, unique: seq<Query>, answer: Query -> Found)
    requires Ascending(pairs, (p: (nat, Query)) => p.0) && Distinct(unique)
    ensures forall e :: e in Searched(pairs, unique, answer)
              <==> e.query in unique && (e.index, e.query) in pairs && e.found == answer(e.query)
    ensures NoIndexTwice(Searched(pairs, unique, answer))
    decreases |unique|
  {
    hide NoIndexTwice;
    if unique == [] {
      NoneTwice([], []);
    } else {
      var front, last := unique[..|unique| - 1], unique[|unique| - 1];
      SearchedAre(pairs, front, answer);
      SharingAsksAre(pairs, last, answer(last));
      SharingAsksAscend(pairs, last, answer(last));
      assert unique == front + [last] && last !in front;
      var before, group := Searched(pairs, front, answer), SharingAsks(pairs, last, answer(last));
      forall j, k | 0 <= j < |before| && 0 <= k < |group|
        ensures before[j].index != group[k].index
      {
        assert before[j] in before && group[k] in group;
        assert before[j].query in front && group[k].query == last;
        OneQueryEach(pairs, before[j], group[k]);
      }
      NoneTwice(before, group);
    }
  }

  lemma OneQueryEach(pairs: seq<(nat, Query)>, e: DiscoveredAsk, f: DiscoveredAsk)
    requires Ascending(pairs, (p: (nat, Query)) => p.0)
    requires (e.index, e.query) in pairs && (f.index, f.query) in pairs && e.query != f.query
    ensures e.index != f.index
  {
    var j :| 0 <= j < |pairs| && pairs[j] == (e.index, e.query);
    var k :| 0 <= k < |pairs| && pairs[k] == (f.index, f.query);
  }

  lemma NoneTwice(before: seq<DiscoveredAsk>, group: seq<DiscoveredAsk>)
    ensures before == [] ==> NoIndexTwice(before)
    ensures NoIndexTwice(before) && (forall j, k | 0 <= j < k < |group| :: group[j].index < group[k].index)
            && (forall j, k | 0 <= j < |before| && 0 <= k < |group| :: before[j].index != group[k].index)
            ==> NoIndexTwice(before + group)
  {}

  // ---------------------------------------------------------------- the fan-out

  function ByIndex(): (DiscoveredAsk, DiscoveredAsk) -> bool {
    (a: DiscoveredAsk, b: DiscoveredAsk) => a.index <= b.index
  }

  function IndexKey(): DiscoveredAsk -> nat { (e: DiscoveredAsk) => e.index }

  /** Sorting the replies by ask gives each ask its own, in ask order. */
  lemma SortedReplies(queries: map<nat, Query>, n: nat, answer: Query -> Found)
    requires forall i <- queries :: i < n
    ensures StableSort(Searched(InAskOrder(queries, n), UniqueQueries(queries, n), answer), ByIndex())
         == OwnReplies(InAskOrder(queries, n), answer)
  {
    hide StableSort, InAskOrder, UniqueQueries, Searched;
    var pairs, unique := InAskOrder(queries, n), UniqueQueries(queries, n);
    var searched := Searched(pairs, unique, answer);
    InAskOrderIs(queries, n);
    UniqueQueriesAre(queries, n);
    SearchedAre(pairs, unique, answer);
    SortedSameElements(searched, ByIndex());
    SortedAscending(searched);
    var own := OwnReplies(pairs, answer);
    forall e
      ensures e in StableSort(searched, ByIndex()) <==> e in own
    {
      OwnRepliesAre(pairs, answer, e);
      if (e.index, e.query) in pairs {
        assert e.query in queries.Values;
      }
    }
    AscendingOneWay(StableSort(searched, ByIndex()), own, IndexKey());
  }

  lemma OwnRepliesAre(pairs: seq<(nat, Query)>, answer: Query -> Found, e: DiscoveredAsk)
    ensures e in OwnReplies(pairs, answer) <==> (e.index, e.query) in pairs && e.found == answer(e.query)
  {
    var own := OwnReplies(pairs, answer);
    if (e.index, e.query) in pairs && e.found == answer(e.query) {
      var k :| 0 <= k < |pairs| && pairs[k] == (e.index, e.query);
      assert own[k] == e;
    }
  }

  lemma SortedAscending(searched: seq<DiscoveredAsk>)
    requires NoIndexTwice(searched)
    ensures Ascending(StableSort(searched, ByIndex()), IndexKey())
  {
    hide StableSort;
    var r := StableSort(searched, ByIndex());
    StableSortSorts(searched, ByIndex());
    SortedDistinct(searched, ByIndex());
    forall j, k | 0 <= j < k < |r|
      ensures r[j].index < r[k].index
    {
      assert ByIndex()(r[j], r[k]);
      assert r[j] in multiset(r) && r[k] in multiset(r);
      assert r[j] in searched && r[k] in searched;
      DifferentIndex(searched, r[j], r[k]);
    }
  }

  lemma DifferentIndex(s: seq<DiscoveredAsk>, a: DiscoveredAsk, b: DiscoveredAsk)
    requires NoIndexTwice(s) && a in s && b in s && a != b
    ensures a.index != b.index
  {
    var j :| 0 <= j < |s| && s[j] == a;
    var k :| 0 <= k < |s| && s[k] == b;
  }

  /** `_send_queries`: the calls finish in any order, and nothing of it is left in the result. */
  method SendQueries(queries: map<nat, Query>, n: nat, answer: Query -> Found, order: seq<nat>)
    returns (asks: seq<DiscoveredAsk>, sent: seq<Query>)
    requires forall i <- queries :: i < n
    requires CompletionOrder(order, |UniqueQueries(queries, n)|)
    ensures asks == OwnReplies(InAskOrder(queries, n), answer)
    ensures multiset(sent) == multiset(UniqueQueries(queries, n))
  {
    hide StableSort, InAskOrder, UniqueQueries, Searched, OwnReplies;
    var unique := UniqueQueries(queries, n);
    var replies: map<Query, Found> := map[];
    sent := [];
    EveryoneFinishes(order, |unique|);
    for k := 0 to |order|
      invariant |sent| == k && forall j | 0 <= j < k :: sent[j] == unique[order[j]]
      invariant forall j | 0 <= j < k :: unique[order[j]] in replies
      invariant forall q <- replies :: replies[q] == answer(q)
    {
      var query := unique[order[k]];
      sent := sent + [query];
      replies := replies[query := answer(query)];
    }
    SentOnce(unique, order, sent);
    forall i | 0 <= i < |unique|
      ensures unique[i] in replies
    {
      assert i in order;
    }
    var searched := HandOut(InAskOrder(queries, n), unique, replies, answer);
    SortedReplies(queries, n, answer);
    asks := StableSort(searched, ByIndex());
  }

  /** One reply for every ask sharing its query. */
  method HandOut(pairs: seq<(nat, Query)>, unique: seq<Query>, replies: map<Query, Found>, ghost answer: Query -> Found)
    returns (searched: seq<DiscoveredAsk>)
    requires forall i | 0 <= i < |unique| :: unique[i] in replies && replies[unique[i]] == answer(unique[i])
    ensures searched == Searched(pairs, unique, answer)
  {
    searched := [];
    for k := 0 to |unique|
      invariant searched == Searched(pairs, unique[..k], answer)
    {
      assert unique[..k + 1][..k] == unique[..k];
      searched := searched + SharingAsks(pairs, unique[k], replies[unique[k]]);
    }
    assert unique[..|unique|] == unique;
  }

  lemma {:induction false} SentOnce(unique: seq<Query>, order: seq<nat>, sent: seq<Query>)
    requires CompletionOrder(order, |unique|) && |sent| == |order|
    requires forall j | 0 <= j < |order| :: order[j] < |unique| && sent[j] == unique[order[j]]
    ensures multiset(sent) == multiset(unique)
  {
    var config := ConfigOrder(|unique|);
    ImageBag(unique, order, sent);
    ImageBag(unique, config, unique);
    ImageSame(unique, order, config);
  }

  /** The elements at a list of positions, as often as the positions are listed. */
  function Image(s: seq<Query>, at: seq<nat>): multiset<Query>
    requires forall j | 0 <= j < |at| :: at[j] < |s|
  {
    if at == [] then multiset{} else multiset{s[at[0]]} + Image(s, at[1..])
  }

  lemma {:induction false} ImageBag(s: seq<Query>, at: seq<nat>, r: seq<Query>)
    requires |r| == |at| && forall j | 0 <= j < |at| :: at[j] < |s| && r[j] == s[at[j]]
    ensures multiset(r) == Image(s, at)
  {
    if at != [] {
      assert r == [r[0]] + r[1..];
      ImageBag(s, at[1..], r[1..]);
    }
  }

  lemma {:induction false} ImageSame(s: seq<Query>, a: seq<nat>, b: seq<nat>)
    requires multiset(a) == multiset(b)
    requires forall j | 0 <= j < |a| :: a[j] < |s|
    requires forall j | 0 <= j < |b| :: b[j] < |s|
    ensures Image(s, a) == Image(s, b)
    decreases |a|
  {
    SameLength(a, b);
    if a != [] {
      var i := TakeOut(a, b);
      ImageSame(s, a[1..], b[..i] + b[i + 1..]);
      ImageSplit(s, b[..i], [a[0]] + b[i + 1..]);
      ImageSplit(s, b[..i], b[i + 1..]);
      assert ([a[0]] + b[i + 1..])[1..] == b[i + 1..];
    }
  }

  lemma {:induction false} ImageSplit(s: seq<Query>, a: seq<nat>, b: seq<nat>)
    requires forall j | 0 <= j < |a| :: a[j] < |s|
    requires forall j | 0 <= j < |b| :: b[j] < |s|
    ensures Image(s, a + b) == Image(s, a) + Image(s, b)
    decreases |a|
  {
    if a == [] {
      assert a + b == b;
    } else {
      assert (a + b)[1..] == a[1..] + b;
      ImageSplit(s, a[1..], b);
    }
  }
}
