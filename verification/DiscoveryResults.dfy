/** What discovery hands on: expired answers dropped and reported, and one entry for every ask, searched or not. */
module DiscoveryResults {
  import opened Text
  import opened Sorting
  import opened Completion
  import opened Discovery

  // ---------------------------------------------------------------- validity

  predicate OutsideValidity(a: Answer, now: int) {
    && a.window.Some?
    && (|| (a.window.value.starts.Some? && now < a.window.value.starts.value)
        || (a.window.value.ends.Some? && now > a.window.value.ends.value))
  }

  /** The answers that are outside their validity, or those that are not. */
  function Those(answers: seq<Answer>, now: int, outside: bool): seq<Answer> {
    if answers == [] then []
    else (if OutsideValidity(answers[0], now) == outside then [answers[0]] else []) + Those(answers[1..], now, outside)
  }

  predicate HasFallback(found: Found, a: Answer) {
    exists k | 0 <= k < |found.capabilities| ::
      found.capabilities[k].provider == a.provider && found.capabilities[k].kind == a.kind
  }

  function Dropped(found: Found, a: Answer): Event {
    ExpiredAnswerDropped(a.provider, a.kind, a.resource, HasFallback(found, a))
  }

  function ExpiredEvents(found: Found, answers: seq<Answer>, now: int): seq<Event> {
    if answers == [] then []
    else
      (if OutsideValidity(answers[0], now) then [Dropped(found, answers[0])] else [])
      + ExpiredEvents(found, answers[1..], now)
  }

  function Freshened(found: Found, now: int): Found { found.(answers := Those(found.answers, now, false)) }

  /** Every answer a provider gave is either handed on or reported dropped, once, and never both. */
  lemma {:induction false} EveryAnswerAccounted(found: Found, answers: seq<Answer>, now: int)
    ensures multiset(Those(answers, now, false)) + multiset(Those(answers, now, true)) == multiset(answers)
    ensures forall a <- Those(answers, now, false) :: !OutsideValidity(a, now)
    ensures forall a <- Those(answers, now, true) :: OutsideValidity(a, now)
    ensures |ExpiredEvents(found, answers, now)| == |Those(answers, now, true)|
    ensures forall k | 0 <= k < |ExpiredEvents(found, answers, now)| ::
              ExpiredEvents(found, answers, now)[k] == Dropped(found, Those(answers, now, true)[k])
  {
    hide *;
    FreshOrStale(answers, now);
    EveryDropReported(found, answers, now);
  }

  lemma {:induction false} FreshOrStale(answers: seq<Answer>, now: int)
    ensures multiset(Those(answers, now, false)) + multiset(Those(answers, now, true)) == multiset(answers)
    ensures forall a <- Those(answers, now, false) :: !OutsideValidity(a, now)
    ensures forall a <- Those(answers, now, true) :: OutsideValidity(a, now)
  {
    hide OutsideValidity;
    if answers != [] {
      FreshOrStale(answers[1..], now);
      assert answers == [answers[0]] + answers[1..];
    }
  }

  lemma {:induction false} EveryDropReported(found: Found, answers: seq<Answer>, now: int)
    ensures |ExpiredEvents(found, answers, now)| == |Those(answers, now, true)|
    ensures forall k | 0 <= k < |ExpiredEvents(found, answers, now)| ::
              ExpiredEvents(found, answers, now)[k] == Dropped(found, Those(answers, now, true)[k])
  {
    hide OutsideValidity, Dropped;
    if answers != [] {
      EveryDropReported(found, answers[1..], now);
    }
  }

  function ExpiredOf(asks: seq<DiscoveredAsk>, now: int): seq<Event> {
    if asks == [] then []
    else
      var found := asks[|asks| - 1].found;
      ExpiredOf(asks[..|asks| - 1], now) + ExpiredEvents(found, found.answers, now)
  }

  function FailureEvents(ask: nat, failures: seq<DiscoveryFailure>): seq<Event> {
    seq(|failures|, k requires 0 <= k < |failures| =>
      AskDiscoveryFailed(ask, failures[k].kind, failures[k].transient, failures[k].status))
  }

  function OutcomeEvents(e: DiscoveredAsk): seq<Event> {
    if e.found.failures != [] then FailureEvents(e.index, e.found.failures)
    else if e.found.answers == [] && e.found.capabilities == [] then [AskUnservable(e.index, e.query.kinds)]
    else []
  }

  function OutcomesOf(asks: seq<DiscoveredAsk>): seq<Event> {
    if asks == [] then [] else OutcomesOf(asks[..|asks| - 1]) + OutcomeEvents(asks[|asks| - 1])
  }

  /** A dropped answer is reported as what it was, and whether a provider of its name can still be asked for it. */
  lemma DroppedAs(found: Found, a: Answer)
    ensures Dropped(found, a).ExpiredAnswerDropped? && Dropped(found, a).provider == a.provider
    ensures Dropped(found, a).kind == a.kind && Dropped(found, a).resource == a.resource
    ensures Dropped(found, a).hadFallback <==>
            exists c <- found.capabilities :: c.provider == a.provider && c.kind == a.kind
  {
    if c :| c in found.capabilities && c.provider == a.provider && c.kind == a.kind {
      var k :| 0 <= k < |found.capabilities| && found.capabilities[k] == c;
    }
  }

  /** What is reported of an ask: each of its failures, or that nothing was found for it, or nothing. */
  lemma OutcomeOfEach(e: DiscoveredAsk)
    ensures |OutcomeEvents(e)|
         == if |e.found.failures| > 0 then |e.found.failures|
            else if |e.found.answers| + |e.found.capabilities| == 0 then 1 else 0
    ensures forall k | 0 <= k < |e.found.failures| && k < |OutcomeEvents(e)| ::
              var f := OutcomeEvents(e)[k];
              && f.AskDiscoveryFailed? && f.ask == e.index && f.kind == e.found.failures[k].kind
              && f.transient == e.found.failures[k].transient && f.status == e.found.failures[k].status
    ensures e.found == Found([], [], []) ==> OutcomeEvents(e) == [AskUnservable(e.index, e.query.kinds)]
  {}

  /** A category is expected of a type where some action makes the pair one the packs list the type for. */
  lemma ExpectedOf(setup: Setup, kind: string, category: string)
    ensures Expected(setup, kind, category) <==>
            exists action :: (category, action) in setup.index && kind in setup.index[(category, action)]
  {
    if Expected(setup, kind, category) {
      var key :| key in setup.index.Keys && key.0 == category && kind in setup.index[key];
      assert key == (category, key.1);
    }
    if action :| (category, action) in setup.index && kind in setup.index[(category, action)] {
      assert (category, action) in setup.index.Keys;
    }
  }

  // ---------------------------------------------------------------- categories the packs do not expect

  /** Some interaction of the packs' index leads from the category to the type. */
  predicate Expected(setup: Setup, kind: string, category: string) {
    exists key <- setup.index.Keys :: key.0 == category && kind in setup.index[key]
  }

  /** `_diverged_categories` */
  function Diverged(setup: Setup, kind: string, observed: seq<string>): seq<Event> {
    if observed == [] then []
    else
      (if Expected(setup, kind, observed[0]) then [] else [CategoryMappingDiverged(kind, observed[0])])
      + Diverged(setup, kind, observed[1..])
  }

  function DivergedAnswers(setup: Setup, answers: seq<Answer>): seq<Event> {
    if answers == [] then []
    else Diverged(setup, answers[0].kind, answers[0].categories) + DivergedAnswers(setup, answers[1..])
  }

  function DivergedCapabilities(setup: Setup, capabilities: seq<Capability>): seq<Event> {
    if capabilities == [] then []
    else
      Diverged(setup, capabilities[0].kind, capabilities[0].observed)
      + DivergedCapabilities(setup, capabilities[1..])
  }

  function AnswersOf(asks: seq<DiscoveredAsk>): seq<Answer> {
    if asks == [] then [] else asks[0].found.answers + AnswersOf(asks[1..])
  }

  function CapabilitiesOf(asks: seq<DiscoveredAsk>): seq<Capability> {
    if asks == [] then [] else asks[0].found.capabilities + CapabilitiesOf(asks[1..])
  }

  /** `_detect_divergence`: of all the asks' answers, and then of all their capabilities. */
  function Divergence(setup: Setup, asks: seq<DiscoveredAsk>): seq<Event> {
    DivergedAnswers(setup, AnswersOf(asks)) + DivergedCapabilities(setup, CapabilitiesOf(asks))
  }

  /** How many times a category is among those observed. */
  function TimesIn(observed: seq<string>, category: string): nat { multiset(observed)[category] }

  function TimesInAnswers(answers: seq<Answer>, kind: string, category: string): nat {
    if answers == [] then 0
    else
      (if answers[0].kind == kind then TimesIn(answers[0].categories, category) else 0)
      + TimesInAnswers(answers[1..], kind, category)
  }

  function TimesInCapabilities(capabilities: seq<Capability>, kind: string, category: string): nat {
    if capabilities == [] then 0
    else
      (if capabilities[0].kind == kind then TimesIn(capabilities[0].observed, category) else 0)
      + TimesInCapabilities(capabilities[1..], kind, category)
  }

  lemma {:induction false} DivergedTimes(setup: Setup, kind: string, observed: seq<string>, e: Event)
    ensures multiset(Diverged(setup, kind, observed))[e]
         == if e.CategoryMappingDiverged? && e.kind == kind && !Expected(setup, kind, e.category)
            then TimesIn(observed, e.category) else 0
  {
    hide Expected;
    if observed != [] {
      DivergedTimes(setup, kind, observed[1..], e);
      assert observed == [observed[0]] + observed[1..];
    }
  }

  lemma {:induction false} AnswersDiverge(setup: Setup, answers: seq<Answer>, e: Event)
    ensures multiset(DivergedAnswers(setup, answers))[e]
         == if e.CategoryMappingDiverged? && !Expected(setup, e.kind, e.category)
            then TimesInAnswers(answers, e.kind, e.category) else 0
  {
    hide Expected, Diverged, TimesIn;
    if answers != [] {
      AnswersDiverge(setup, answers[1..], e);
      DivergedTimes(setup, answers[0].kind, answers[0].categories, e);
    }
  }

  lemma {:induction false} CapabilitiesDiverge(setup: Setup, capabilities: seq<Capability>, e: Event)
    ensures multiset(DivergedCapabilities(setup, capabilities))[e]
         == if e.CategoryMappingDiverged? && !Expected(setup, e.kind, e.category)
            then TimesInCapabilities(capabilities, e.kind, e.category) else 0
  {
    hide Expected, Diverged, TimesIn;
    if capabilities != [] {
      CapabilitiesDiverge(setup, capabilities[1..], e);
      DivergedTimes(setup, capabilities[0].kind, capabilities[0].observed, e);
    }
  }

  /** A category is reported as often as an answer or a capability of its type was published under it, where no
      interaction leads from the category to the type; no other is reported. */
  lemma DivergenceIsCounted(setup: Setup, asks: seq<DiscoveredAsk>, kind: string, category: string)
    ensures multiset(Divergence(setup, asks))[CategoryMappingDiverged(kind, category)]
         == if Expected(setup, kind, category) then 0
            else TimesInAnswers(AnswersOf(asks), kind, category)
                 + TimesInCapabilities(CapabilitiesOf(asks), kind, category)
    ensures forall e <- Divergence(setup, asks) :: e.CategoryMappingDiverged?
  {
    hide Expected, DivergedAnswers, DivergedCapabilities, TimesInAnswers, TimesInCapabilities;
    var answers, capabilities := AnswersOf(asks), CapabilitiesOf(asks);
    AnswersDiverge(setup, answers, CategoryMappingDiverged(kind, category));
    CapabilitiesDiverge(setup, capabilities, CategoryMappingDiverged(kind, category));
    forall e <- Divergence(setup, asks)
      ensures e.CategoryMappingDiverged?
    {
      AnswersDiverge(setup, answers, e);
      CapabilitiesDiverge(setup, capabilities, e);
      assert e in multiset(Divergence(setup, asks));
    }
  }

  function FreshenedAsks(asks: seq<DiscoveredAsk>, now: int): seq<DiscoveredAsk> {
    seq(|asks|, k requires 0 <= k < |asks| => asks[k].(found := Freshened(asks[k].found, now)))
  }

  // ---------------------------------------------------------------- an entry for every ask

  datatype Entry = Entry(ask: nat, found: Found)

  function EntryKey(): Entry -> nat { (e: Entry) => e.ask }

  function NothingFound(): Found { Found([], [], []) }

  /** One entry for each of the `n` asks, in ask order. */
  function EntryForEach(n: nat, wanted: nat -> Found): seq<Entry> {
    seq(n, i requires 0 <= i < n => Entry(i, wanted(i)))
  }

  function ByAsk(): (Entry, Entry) -> bool { (a: Entry, b: Entry) => a.ask <= b.ask }

  ghost predicate NoKeyTwice(items: seq<Entry>) { forall j, k | 0 <= j < k < |items| :: items[j].ask != items[k].ask }

  lemma SortedItems(items: seq<Entry>, n: nat, wanted: nat -> Found)
    requires NoKeyTwice(items)
    requires forall p :: p in items <==> p.ask < n && p.found == wanted(p.ask)
    ensures StableSort(items, ByAsk()) == EntryForEach(n, wanted)
  {
    hide StableSort;
    var r, entries := StableSort(items, ByAsk()), EntryForEach(n, wanted);
    ItemsAscend(items);
    SortedSameElements(items, ByAsk());
    forall p
      ensures p in r <==> p in entries
    {
      if p.ask < n && p.found == wanted(p.ask) {
        assert entries[p.ask] == p;
      }
    }
    AscendingOneWay(r, entries, EntryKey());
  }

  lemma ItemsAscend(items: seq<Entry>)
    requires NoKeyTwice(items)
    ensures Ascending(StableSort(items, ByAsk()), EntryKey())
  {
    hide StableSort;
    var r := StableSort(items, ByAsk());
    StableSortSorts(items, ByAsk());
    SortedDistinct(items, ByAsk());
    forall j, k | 0 <= j < k < |r|
      ensures r[j].ask < r[k].ask
    {
      assert ByAsk()(r[j], r[k]);
      assert r[j] in multiset(r) && r[k] in multiset(r);
      assert r[j] in items && r[k] in items;
      DifferentKey(items, r[j], r[k]);
    }
  }

  lemma DifferentKey(items: seq<Entry>, a: Entry, b: Entry)
    requires NoKeyTwice(items) && a in items && b in items && a != b
    ensures a.ask != b.ask
  {
    var j :| 0 <= j < |items| && items[j] == a;
    var k :| 0 <= k < |items| && items[k] == b;
  }

  /** Searched and unsearchable asks are the `n` asks between them, and no ask is both. */
  ghost predicate Partition(asks: seq<DiscoveredAsk>, unsearchable: set<nat>, n: nat) {
    && Ascending(asks, IndexKey())
    && (forall e <- asks :: e.index < n && e.index !in unsearchable)
    && (forall i <- unsearchable :: i < n)
    && (forall i | 0 <= i < n :: i in unsearchable || exists e <- asks :: e.index == i)
  }

  /** `build_result`: whatever order the unsearchable asks are listed in. */
  method BuildResult(asks: seq<DiscoveredAsk>, unsearchable: set<nat>, ghost n: nat, ghost wanted: nat -> Found)
    returns (entries: seq<Entry>)
    requires Partition(asks, unsearchable, n)
    requires forall e <- asks :: e.found == wanted(e.index)
    requires forall i <- unsearchable :: wanted(i) == NothingFound()
    ensures entries == EntryForEach(n, wanted)
  {
    var items: seq<Entry> := seq(|asks|, k requires 0 <= k < |asks| => Entry(asks[k].index, asks[k].found));
    ghost var searched := items;
    var rest := unsearchable;
    SearchedItems(asks, items, unsearchable);
    while rest != {}
      invariant rest <= unsearchable
      invariant NoKeyTwice(items) && forall p <- items :: p.ask !in rest
      invariant forall p :: p in items <==> p in searched || (p.ask in unsearchable - rest && p.found == NothingFound())
    {
      var i :| i in rest;
      items := items + [Entry(i, NothingFound())];
      rest := rest - {i};
    }
    ItemsAre(asks, unsearchable, n, wanted, searched, items);
    SortedItems(items, n, wanted);
    entries := StableSort(items, ByAsk());
  }

  lemma SearchedItems(asks: seq<DiscoveredAsk>, items: seq<Entry>, unsearchable: set<nat>)
    requires Ascending(asks, IndexKey()) && forall e <- asks :: e.index !in unsearchable
    requires |items| == |asks| && forall k | 0 <= k < |asks| :: items[k] == Entry(asks[k].index, asks[k].found)
    ensures NoKeyTwice(items) && forall p <- items :: p.ask !in unsearchable
  {
    forall j, k | 0 <= j < k < |items|
      ensures items[j].ask != items[k].ask
    {
      assert IndexKey()(asks[j]) < IndexKey()(asks[k]);
    }
  }

  lemma ItemsAre(asks: seq<DiscoveredAsk>, unsearchable: set<nat>, n: nat, wanted: nat -> Found, searched: seq<Entry>,
                 items: seq<Entry>)
    requires Partition(asks, unsearchable, n)
    requires forall e <- asks :: e.found == wanted(e.index)
    requires forall i <- unsearchable :: wanted(i) == NothingFound()
    requires |searched| == |asks| && forall k | 0 <= k < |asks| :: searched[k] == Entry(asks[k].index, asks[k].found)
    requires forall p :: p in items <==> p in searched || (p.ask in unsearchable && p.found == NothingFound())
    ensures forall p :: p in items <==> p.ask < n && p.found == wanted(p.ask)
  {
    forall p: Entry
      ensures p in items <==> p.ask < n && p.found == wanted(p.ask)
    {
      if p in searched {
        var k :| 0 <= k < |searched| && searched[k] == p;
        assert asks[k] in asks;
      }
      if p.ask < n && p.ask !in unsearchable && p.found == wanted(p.ask) {
        var e :| e in asks && e.index == p.ask;
        var k :| 0 <= k < |asks| && asks[k] == e;
        assert searched[k] == p;
      }
    }
  }

  /** What is handed on: the answers with no window and those inside theirs, as often as they came, and everything else
      that was found. */
  lemma HandedOnInTime(found: Found, now: int, a: Answer)
    ensures var left := Freshened(found, now);
            && left.capabilities == found.capabilities && left.failures == found.failures
            && multiset(left.answers)[a]
               == match a.window
                  case None => multiset(found.answers)[a]
                  case Some(window) =>
                    if window.starts.Some? && now < window.starts.value then 0
                    else if window.ends.Some? && now > window.ends.value then 0
                    else multiset(found.answers)[a]
  {
    EveryAnswerAccounted(found, found.answers, now);
    InTime(found.answers, now, a);
    assert a in Those(found.answers, now, false) || multiset(Those(found.answers, now, false))[a] == 0;
    assert a in Those(found.answers, now, true) || multiset(Those(found.answers, now, true))[a] == 0;
    assert multiset(found.answers)[a]
        == multiset(Those(found.answers, now, false))[a] + multiset(Those(found.answers, now, true))[a];
  }

  /** In the order they came. */
  lemma {:induction false} LeftInOrder(answers: seq<Answer>, now: int, outside: bool)
    ensures Sifted(answers, (a: Answer) => OutsideValidity(a, now) == outside, Those(answers, now, outside))
  {
    hide OutsideValidity;
    var keep := (a: Answer) => OutsideValidity(a, now) == outside;
    if answers == [] {
      NothingSifted(keep);
    } else {
      LeftInOrder(answers[1..], now, outside);
      assert answers == [answers[0]] + answers[1..];
      SiftedCons(answers[0], answers[1..], keep, Those(answers[1..], now, outside));
    }
  }

  lemma {:induction false} InTime(answers: seq<Answer>, now: int, a: Answer)
    ensures a in Those(answers, now, false) <==>
            a in answers && match a.window
                            case None => true
                            case Some(window) =>
                              && (window.starts.Some? ==> window.starts.value <= now)
                              && (window.ends.Some? ==> now <= window.ends.value)
  {
    if answers != [] {
      InTime(answers[1..], now, a);
      assert answers == [answers[0]] + answers[1..];
    }
  }

  // ---------------------------------------------------------------- the whole of discovery

  /** What ask `i` ends up with: its own query's reply without the answers outside their validity, or nothing. */
  function FoundFor(asks: seq<Ask>, setup: Setup, answer: Query -> Found, now: int, i: nat): Found {
    if i < |asks| && Searchable(asks[i], setup) then Freshened(answer(QueryOf(asks[i], setup)), now) else NothingFound()
  }

  function Wanted(asks: seq<Ask>, setup: Setup, answer: Query -> Found, now: int): nat -> Found {
    (i: nat) => FoundFor(asks, setup, answer, now, i)
  }

  /** The searched asks with what is left of their replies. */
  function ValidAsks(asks: seq<Ask>, setup: Setup, answer: Query -> Found, now: int): seq<DiscoveredAsk> {
    FreshenedAsks(OwnReplies(InAskOrder(QueriesByAsk(asks, setup), |asks|), answer), now)
  }

  lemma ValidAsk(asks: seq<Ask>, setup: Setup, answer: Query -> Found, now: int, k: nat)
    requires k < |ValidAsks(asks, setup, answer, now)|
    ensures var e := ValidAsks(asks, setup, answer, now)[k];
            e.index < |asks| && Searchable(asks[e.index], setup)
            && e.found == FoundFor(asks, setup, answer, now, e.index)
  {
    hide InAskOrder, Searchable, QueryOf, Freshened;
    var queries := QueriesByAsk(asks, setup);
    var pairs := InAskOrder(queries, |asks|);
    InAskOrderIs(queries, |asks|);
    assert pairs[k] in pairs;
  }

  lemma ValidAskOf(asks: seq<Ask>, setup: Setup, answer: Query -> Found, now: int, i: nat)
    requires i < |asks| && Searchable(asks[i], setup)
    ensures exists e <- ValidAsks(asks, setup, answer, now) :: e.index == i
  {
    hide InAskOrder, Searchable, QueryOf, Freshened;
    var queries := QueriesByAsk(asks, setup);
    var pairs := InAskOrder(queries, |asks|);
    InAskOrderIs(queries, |asks|);
    assert i in queries;
    var k :| 0 <= k < |pairs| && pairs[k] == (i, queries[i]);
    assert ValidAsks(asks, setup, answer, now)[k].index == i;
  }

  lemma ValidAscend(asks: seq<Ask>, setup: Setup, answer: Query -> Found, now: int)
    ensures Ascending(ValidAsks(asks, setup, answer, now), IndexKey())
  {
    hide InAskOrder, QueriesByAsk, Freshened;
    InAskOrderIs(QueriesByAsk(asks, setup), |asks|);
  }

  lemma SearchedPartition(asks: seq<Ask>, setup: Setup, answer: Query -> Found, now: int, searched: seq<DiscoveredAsk>,
                          unsearchable: set<nat>)
    requires searched == ValidAsks(asks, setup, answer, now)
    requires unsearchable == set i: nat | 0 <= i < |asks| && !Searchable(asks[i], setup)
    ensures Partition(searched, unsearchable, |asks|)
    ensures forall e <- searched :: e.found == Wanted(asks, setup, answer, now)(e.index)
    ensures forall i <- unsearchable :: Wanted(asks, setup, answer, now)(i) == NothingFound()
  {
    hide ValidAsks, Searchable, QueryOf, Freshened, Ascending;
    ValidAscend(asks, setup, answer, now);
    forall e | e in searched
      ensures e.index < |asks| && e.index !in unsearchable && e.found == Wanted(asks, setup, answer, now)(e.index)
    {
      var k :| 0 <= k < |searched| && searched[k] == e;
      ValidAsk(asks, setup, answer, now, k);
    }
    forall i | 0 <= i < |asks| && i !in unsearchable
      ensures exists e <- searched :: e.index == i
    {
      ValidAskOf(asks, setup, answer, now, i);
    }
  }

  lemma SentAre(asks: seq<Ask>, setup: Setup, sent: seq<Query>)
    requires multiset(sent) == multiset(UniqueQueries(QueriesByAsk(asks, setup), |asks|))
    ensures Distinct(sent)
    ensures forall q :: q in sent <==>
            exists i | 0 <= i < |asks| && Searchable(asks[i], setup) :: QueryOf(asks[i], setup) == q
  {
    hide UniqueQueries, Searchable, QueryOf;
    var queries := QueriesByAsk(asks, setup);
    var unique := UniqueQueries(queries, |asks|);
    UniqueQueriesAre(queries, |asks|);
    OnceEach(unique);
    forall j, k | 0 <= j < k < |sent|
      ensures sent[j] != sent[k]
    {
      if sent[j] == sent[k] {
        Twice(sent, j, k);
      }
    }
    forall q
      ensures q in sent <==> exists i | 0 <= i < |asks| && Searchable(asks[i], setup) :: QueryOf(asks[i], setup) == q
    {
      assert q in multiset(sent) <==> q in multiset(unique);
      if q in queries.Values {
        var i :| i in queries && queries[i] == q;
      }
      if i :| 0 <= i < |asks| && Searchable(asks[i], setup) && QueryOf(asks[i], setup) == q {
        assert queries[i] == q;
      }
    }
  }

  /** `discover_providers`, with the calls finishing in any order. */
  method DiscoverProviders(asks: seq<Ask>, setup: Setup, answer: Query -> Found, order: seq<nat>, now: int)
    returns (entries: seq<Entry>, events: seq<Event>, sent: seq<Query>)
    requires CompletionOrder(order, |UniqueQueries(QueriesByAsk(asks, setup), |asks|)|)
    ensures |entries| == |asks|
    ensures forall i | 0 <= i < |asks| :: entries[i] == Entry(i, FoundFor(asks, setup, answer, now, i))
    ensures Distinct(sent)
    ensures forall q :: q in sent <==>
            exists i | 0 <= i < |asks| && Searchable(asks[i], setup) :: QueryOf(asks[i], setup) == q
    ensures SearchedAsAsked(asks, setup, answer, now, sent, entries)
    ensures var replies := OwnReplies(InAskOrder(QueriesByAsk(asks, setup), |asks|), answer);
            var valid := ValidAsks(asks, setup, answer, now);
            events == UnresolvedEvents(asks, setup) + ExpiredOf(replies, now) + Divergence(setup, valid)
                      + OutcomesOf(valid)
  {
    hide InAskOrder, UniqueQueries, OwnReplies, QueriesByAsk, FreshenedAsks, FoundFor, Searchable, QueryOf,
         UnresolvedEvents, ExpiredOf, OutcomesOf, Divergence, Partition, ServedAs, SentForOne;
    var queries, unsearchable, unresolved := FindAsks(asks, setup);
    AllKeysAreAsks(asks, setup);
    var discovered;
    discovered, sent := SendQueries(queries, |asks|, answer, order);
    SentAre(asks, setup, sent);
    var valid := FreshenedAsks(discovered, now);
    events := unresolved + ExpiredOf(discovered, now) + Divergence(setup, valid) + OutcomesOf(valid);
    SearchedPartition(asks, setup, answer, now, valid, unsearchable);
    entries := BuildResult(valid, unsearchable, |asks|, Wanted(asks, setup, answer, now));
    EveryQuerySays(asks, setup, sent);
    forall i | 0 <= i < |asks|
      ensures ServedAs(asks[i], setup, answer, now, sent, entries[i].found)
    {
      OwnReplyLeft(asks, setup, answer, now, sent, i);
    }
  }

  /** An ask that is searched gets what is left of the reply to a query sent that says what it says; no other gets
      anything. */
  ghost predicate ServedAs(ask: Ask, setup: Setup, answer: Query -> Found, now: int, sent: seq<Query>, found: Found) {
    if Searchable(ask, setup) then exists q <- sent :: Says(q, ask, setup) && found == Freshened(answer(q), now)
    else found == Found([], [], [])
  }

  /** Whether a query sent says what some ask that is searched says. */
  ghost predicate SentForOne(asks: seq<Ask>, setup: Setup, q: Query) {
    exists i :: 0 <= i < |asks| && Searchable(asks[i], setup) && Says(q, asks[i], setup)
  }

  ghost predicate SearchedAsAsked(asks: seq<Ask>, setup: Setup, answer: Query -> Found, now: int, sent: seq<Query>,
                                  entries: seq<Entry>) {
    && (forall q <- sent :: SentForOne(asks, setup, q))
    && |entries| == |asks|
    && forall i | 0 <= i < |asks| :: ServedAs(asks[i], setup, answer, now, sent, entries[i].found)
  }

  lemma EveryQuerySays(asks: seq<Ask>, setup: Setup, sent: seq<Query>)
    requires forall q :: q in sent <==>
             exists i | 0 <= i < |asks| && Searchable(asks[i], setup) :: QueryOf(asks[i], setup) == q
    ensures forall q <- sent :: SentForOne(asks, setup, q)
  {
    hide QueryOf, Searchable, Says;
    forall q <- sent
      ensures SentForOne(asks, setup, q)
    {
      var i :| 0 <= i < |asks| && Searchable(asks[i], setup) && QueryOf(asks[i], setup) == q;
      QuerySays(asks[i], setup, q);
    }
  }

  lemma OwnReplyLeft(asks: seq<Ask>, setup: Setup, answer: Query -> Found, now: int, sent: seq<Query>, i: nat)
    requires i < |asks| && (Searchable(asks[i], setup) ==> QueryOf(asks[i], setup) in sent)
    ensures ServedAs(asks[i], setup, answer, now, sent, FoundFor(asks, setup, answer, now, i))
  {
    hide QueryOf, Searchable, Says, Freshened;
    QuerySays(asks[i], setup, QueryOf(asks[i], setup));
  }

  lemma AllKeysAreAsks(asks: seq<Ask>, setup: Setup)
    ensures forall i <- QueriesByAsk(asks, setup) :: i < |asks|
  {}
}
