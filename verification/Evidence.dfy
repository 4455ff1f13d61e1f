/** What a turn's answers come to: one numbered source per origin, and each ask's own results. */
module Evidence {
  import opened Text

  /** Who served a fact, and who authored it where the provider says so. */
  datatype Origin = Origin(provider: string, author: Option<string>)

  datatype Answer = Answer(ask: int, origin: Origin, providerName: string, authorName: string, url: Option<string>,
                           data: string)

  datatype Source = Source(id: string, name: string, url: Option<string>)

  datatype Outcome = Outcome(ask: int, source: string, data: string)

  function Origins(answers: seq<Answer>): seq<Origin> {
    seq(|answers|, k requires 0 <= k < |answers| => answers[k].origin)
  }

  function NameOf(a: Answer): string { if a.authorName != "" then a.authorName else a.providerName }

  /** A source goes by its author's name, or by its provider's where none is given. */
  lemma NamedAfter(a: Answer)
    ensures a.authorName != "" ==> NameOf(a) == a.authorName
    ensures a.authorName == "" ==> NameOf(a) == a.providerName
  {}

  /** A source is as the first answer of its origin gives it. */
  ghost predicate FromFirst(answers: seq<Answer>, origin: Origin, source: Source) {
    var first := IndexOf(Origins(answers), origin);
    first < |answers| && source.name == NameOf(answers[first]) && source.url == answers[first].url
  }

  /** The sources are numbered from one, in the order their origins are first seen. */
  ghost predicate Numbered(answers: seq<Answer>, sources: seq<Source>) {
    && |sources| == |FirstSeen(Origins(answers))|
    && forall k | 0 <= k < |sources| ::
         sources[k].id == Decimal(k + 1) && FromFirst(answers, FirstSeen(Origins(answers))[k], sources[k])
  }

  /** Each answer's result cites the source of its own origin. */
  ghost predicate Cited(answers: seq<Answer>, results: seq<Outcome>) {
    && |results| == |answers|
    && forall k | 0 <= k < |answers| ::
         results[k] == Outcome(answers[k].ask, Decimal(IndexOf(FirstSeen(Origins(answers)), answers[k].origin) + 1),
             answers[k].data)
  }

  /** The loop of `assemble_evidence`, over the direct answers and then the selected ones. */
  method AssembleEvidence(answers: seq<Answer>) returns (sources: seq<Source>, results: seq<Outcome>)
    ensures Numbered(answers, sources) && Cited(answers, results)
  {
    hide FirstSeen, Origins, Numbered, Cited, IndexOf, Decimal, NameOf;
    var idByOrigin: map<Origin, string> := map[];
    sources, results := [], [];
    NothingYet();
    assert answers[..0] == [];
    for n := 0 to |answers|
      invariant Numbered(answers[..n], sources) && Cited(answers[..n], results)
      invariant forall x :: x in idByOrigin <==> x in FirstSeen(Origins(answers[..n]))
      invariant forall x <- idByOrigin :: idByOrigin[x] == Decimal(IndexOf(FirstSeen(Origins(answers[..n])), x) + 1)
    {
      var a := answers[n];
      assert answers[..n + 1] == answers[..n] + [a];
      OneMore(answers[..n], a, sources, results);
      if a.origin !in idByOrigin {
        idByOrigin := idByOrigin[a.origin := Decimal(|sources| + 1)];
        sources := sources + [Source(Decimal(|sources| + 1), NameOf(a), a.url)];
      }
      results := results + [Outcome(a.ask, idByOrigin[a.origin], a.data)];
    }
    assert answers[..|answers|] == answers;
  }

  lemma NothingYet()
    ensures Numbered([], []) && Cited([], []) && FirstSeen(Origins([])) == []
  {}

  lemma OneMore(before: seq<Answer>, a: Answer, sources: seq<Source>, results: seq<Outcome>)
    requires Numbered(before, sources) && Cited(before, results)
    ensures var seen, next := FirstSeen(Origins(before)), FirstSeen(Origins(before + [a]));
            && (forall x :: x in next <==> x in seen || x == a.origin)
            && (forall x <- seen :: IndexOf(next, x) == IndexOf(seen, x))
            && (a.origin !in seen ==> IndexOf(next, a.origin) == |sources|)
    ensures var sources' := if a.origin in FirstSeen(Origins(before)) then sources
                            else sources + [Source(Decimal(|sources| + 1), NameOf(a), a.url)];
            Numbered(before + [a], sources')
    ensures var id := Decimal(IndexOf(FirstSeen(Origins(before + [a])), a.origin) + 1);
            Cited(before + [a], results + [Outcome(a.ask, id, a.data)])
  {
    hide FirstSeen, IndexOf, Decimal, NameOf, Origins, Numbered, Cited;
    OriginsNext(before, a);
    OriginsSeen(before, a);
    NumberedNext(before, a, sources);
    CitedNext(before, a, results);
    assert |sources| == |FirstSeen(Origins(before))| by { NumberedLength(before, sources); }
  }

  lemma NumberedLength(answers: seq<Answer>, sources: seq<Source>)
    requires Numbered(answers, sources)
    ensures |sources| == |FirstSeen(Origins(answers))|
  {}

  lemma OriginsNext(before: seq<Answer>, a: Answer)
    ensures Origins(before + [a]) == Origins(before) + [a.origin]
  {}

  lemma OriginsSeen(before: seq<Answer>, a: Answer)
    ensures var seen, next := FirstSeen(Origins(before)), FirstSeen(Origins(before + [a]));
            && (forall x :: x in next <==> x in seen || x == a.origin)
            && (forall x <- seen :: IndexOf(next, x) == IndexOf(seen, x))
            && (a.origin !in seen ==> IndexOf(next, a.origin) == |seen|)
            && seen <= next
            && next == if a.origin in seen then seen else seen + [a.origin]
  {
    hide FirstSeen, IndexOf, Origins;
    OriginsNext(before, a);
    FirstSeenSnoc(Origins(before), a.origin);
    var seen := FirstSeen(Origins(before));
    if a.origin !in seen {
      IndexOfNew(seen, a.origin);
      forall x | x in seen
        ensures IndexOf(seen + [a.origin], x) == IndexOf(seen, x)
      {
        IndexOfStays(seen, [a.origin], x);
      }
    }
  }

  lemma FirstStays(before: seq<Answer>, a: Answer, origin: Origin, source: Source)
    requires FromFirst(before, origin, source)
    ensures FromFirst(before + [a], origin, source)
  {
    hide IndexOf, NameOf;
    OriginsNext(before, a);
    assert Origins(before)[IndexOf(Origins(before), origin)] in Origins(before);
    IndexOfStays(Origins(before), [a.origin], origin);
  }

  lemma FirstNow(before: seq<Answer>, a: Answer, id: string)
    requires a.origin !in Origins(before)
    ensures FromFirst(before + [a], a.origin, Source(id, NameOf(a), a.url))
  {
    hide IndexOf, NameOf;
    OriginsNext(before, a);
    IndexOfNew(Origins(before), a.origin);
  }

  lemma SameNumbers(before: seq<Answer>, a: Answer, sources: seq<Source>)
    requires Numbered(before, sources) && a.origin in FirstSeen(Origins(before))
    ensures Numbered(before + [a], sources)
  {
    hide FirstSeen, IndexOf, Decimal, FromFirst, Origins;
    OriginsSeen(before, a);
    forall k | 0 <= k < |sources|
      ensures FromFirst(before + [a], FirstSeen(Origins(before))[k], sources[k])
    {
      FirstStays(before, a, FirstSeen(Origins(before))[k], sources[k]);
    }
  }

  lemma NextNumber(before: seq<Answer>, a: Answer, sources: seq<Source>)
    requires Numbered(before, sources) && a.origin !in FirstSeen(Origins(before))
    ensures Numbered(before + [a], sources + [Source(Decimal(|sources| + 1), NameOf(a), a.url)])
  {
    hide FirstSeen, IndexOf, Decimal, NameOf, FromFirst, Origins;
    var more := sources + [Source(Decimal(|sources| + 1), NameOf(a), a.url)];
    var seen, next := FirstSeen(Origins(before)), FirstSeen(Origins(before + [a]));
    OriginsSeen(before, a);
    SeenIs(Origins(before));
    FirstNow(before, a, Decimal(|sources| + 1));
    forall k | 0 <= k < |more|
      ensures more[k].id == Decimal(k + 1) && FromFirst(before + [a], next[k], more[k])
    {
      if k < |sources| {
        FirstStays(before, a, seen[k], sources[k]);
      }
    }
  }

  lemma NumberedNext(before: seq<Answer>, a: Answer, sources: seq<Source>)
    requires Numbered(before, sources)
    ensures var sources' := if a.origin in FirstSeen(Origins(before)) then sources
                            else sources + [Source(Decimal(|sources| + 1), NameOf(a), a.url)];
            Numbered(before + [a], sources')
  {
    hide *;
    if a.origin in FirstSeen(Origins(before)) {
      SameNumbers(before, a, sources);
    } else {
      NextNumber(before, a, sources);
    }
  }

  lemma CitedNext(before: seq<Answer>, a: Answer, results: seq<Outcome>)
    requires Cited(before, results)
    ensures var id := Decimal(IndexOf(FirstSeen(Origins(before + [a])), a.origin) + 1);
            Cited(before + [a], results + [Outcome(a.ask, id, a.data)])
  {
    hide FirstSeen, IndexOf, Decimal, Origins;
    OriginsSeen(before, a);
    var seen, next := FirstSeen(Origins(before)), FirstSeen(Origins(before + [a]));
    forall k | 0 <= k < |before|
      ensures IndexOf(next, before[k].origin) == IndexOf(seen, before[k].origin)
    {
      OriginIsSeen(before, k);
    }
  }

  lemma OriginIsSeen(answers: seq<Answer>, k: nat)
    requires k < |answers|
    ensures answers[k].origin in FirstSeen(Origins(answers))
  {
    hide FirstSeen;
    SeenIs(Origins(answers));
    assert Origins(answers)[k] in Origins(answers);
  }

  /** Two results cite one source exactly when their answers have one origin. */
  lemma OneSourcePerOrigin(answers: seq<Answer>, results: seq<Outcome>, i: nat, j: nat)
    requires Cited(answers, results) && i < |answers| && j < |answers|
    ensures results[i].source == results[j].source <==> answers[i].origin == answers[j].origin
  {
    hide FirstSeen, Decimal;
    var seen := FirstSeen(Origins(answers));
    SeenIs(Origins(answers));
    assert Origins(answers)[i] in Origins(answers) && Origins(answers)[j] in Origins(answers);
    var a, b := IndexOf(seen, answers[i].origin), IndexOf(seen, answers[j].origin);
    FoundAt(seen, answers[i].origin);
    FoundAt(seen, answers[j].origin);
    DecimalsDiffer(a + 1, b + 1);
  }

  lemma DecimalsDiffer(m: nat, n: nat)
    ensures Decimal(m) == Decimal(n) ==> m == n
  {
    if Decimal(m) == Decimal(n) {
      DecimalInjective(m, n);
    }
  }

  lemma FoundAt(s: seq<Origin>, x: Origin)
    requires x in s
    ensures IndexOf(s, x) < |s| && s[IndexOf(s, x)] == x
  {}

  // ---------------------------------------------------------------- by ask

  /** Those parts that name an ask, in order; `askOf` says which ask a part names. */
  function OfAsk<T>(parts: seq<T>, askOf: T -> int, ask: int): seq<T> {
    if parts == [] then []
    else (if askOf(parts[0]) == ask then [parts[0]] else []) + OfAsk(parts[1..], askOf, ask)
  }

  /** An ask's parts are those that name it, in order. */
  lemma {:induction false} OfAskSifts<T(!new)>(parts: seq<T>, askOf: T -> int, ask: int)
    ensures Sifted(parts, (p: T) => askOf(p) == ask, OfAsk(parts, askOf, ask))
    decreases |parts|
  {
    var keep := (p: T) => askOf(p) == ask;
    if parts == [] {
      NothingSifted(keep);
    } else {
      OfAskSifts(parts[1..], askOf, ask);
      assert parts == [parts[0]] + parts[1..];
      SiftedCons(parts[0], parts[1..], keep, OfAsk(parts[1..], askOf, ask));
    }
  }

  function UpToAsk<T>(parts: seq<T>, askOf: T -> int, n: nat): seq<T> {
    if n == 0 then [] else UpToAsk(parts, askOf, n - 1) + OfAsk(parts, askOf, n - 1)
  }

  datatype Failed = Failed(ask: int, reason: string)

  /** What one ask has: its results, its failures, and the form it awaits if any. */
  datatype AskEvidence = AskEvidence(results: seq<Outcome>, failures: seq<Failed>, awaiting: Option<string>)

  function AskOfResult(): Outcome -> int { (r: Outcome) => r.ask }

  function AskOfFailure(): Failed -> int { (f: Failed) => f.ask }

  predicate Stray(asks: nat, ask: int) { !(0 <= ask < asks) }

  predicate StrayAwaited(asks: nat, awaiting: map<int, string>) { exists ask <- awaiting :: Stray(asks, ask) }

  /** Some result, failure or awaited form names an ask the turn does not have. */
  ghost predicate AnyStray(asks: nat, results: seq<Outcome>, failures: seq<Failed>, awaiting: map<int, string>) {
    || (exists k | 0 <= k < |results| :: Stray(asks, results[k].ask))
    || (exists k | 0 <= k < |failures| :: Stray(asks, failures[k].ask))
    || StrayAwaited(asks, awaiting)
  }

  /** Every part names one of the turn's asks, from zero to one less than there are. */
  lemma NoneStray(asks: nat, results: seq<Outcome>, failures: seq<Failed>, awaiting: map<int, string>)
    ensures !AnyStray(asks, results, failures, awaiting) <==>
            && (forall r <- results :: 0 <= r.ask < asks) && (forall f <- failures :: 0 <= f.ask < asks)
            && forall ask <- awaiting :: 0 <= ask < asks
  {
    if !AnyStray(asks, results, failures, awaiting) {
      assert forall ask <- awaiting :: !Stray(asks, ask);
    }
    assert forall k | 0 <= k < |results| :: results[k] in results;
    assert forall k | 0 <= k < |failures| :: failures[k] in failures;
  }

  /** `_reject_stray_ask_indexes` */
  method RejectStray(asks: nat, results: seq<Outcome>, failures: seq<Failed>, awaiting: map<int, string>)
    returns (raised: bool)
    ensures raised <==> AnyStray(asks, results, failures, awaiting)
  {
    hide StrayAwaited;
    for k := 0 to |results|
      invariant forall j | 0 <= j < k :: !Stray(asks, results[j].ask)
    {
      if Stray(asks, results[k].ask) { return true; }
    }
    for k := 0 to |failures|
      invariant forall j | 0 <= j < k :: !Stray(asks, failures[j].ask)
    {
      if Stray(asks, failures[k].ask) { return true; }
    }
    raised := StrayAwaited(asks, awaiting);
  }

  /** `group_by_ask`: nothing where it raises. */
  method GroupByAsk(asks: nat, results: seq<Outcome>, failures: seq<Failed>, awaiting: map<int, string>)
    returns (groups: Option<seq<AskEvidence>>)
    ensures groups.None? <==> AnyStray(asks, results, failures, awaiting)
    ensures groups.Some? ==>
              && |groups.value| == asks
              && forall i | 0 <= i < asks ::
                   && groups.value[i].results == OfAsk(results, AskOfResult(), i)
                   && groups.value[i].failures == OfAsk(failures, AskOfFailure(), i)
                   && groups.value[i].awaiting == if i in awaiting then Some(awaiting[i]) else None
  {
    var raised := RejectStray(asks, results, failures, awaiting);
    if raised { return None; }
    groups := Some(seq(asks, i =>
      AskEvidence(OfAsk(results, AskOfResult(), i), OfAsk(failures, AskOfFailure(), i),
                  if i in awaiting then Some(awaiting[i]) else None)));
  }

  lemma OwnOrNot<T>(parts: seq<T>, askOf: T -> int, ask: int)
    requires parts != []
    ensures multiset(OfAsk(parts, askOf, ask))
         == multiset(OfAsk(parts[1..], askOf, ask)) + if askOf(parts[0]) == ask then multiset{parts[0]} else multiset{}
  {}

  /** How often a part is in the groups up to ask `n`, seen from the first part. */
  lemma {:induction false} OneOfAsk<T>(parts: seq<T>, askOf: T -> int, n: nat, x: T)
    requires parts != []
    ensures multiset(UpToAsk(parts, askOf, n))[x]
         == multiset(UpToAsk(parts[1..], askOf, n))[x] + if x == parts[0] && 0 <= askOf(x) < n then 1 else 0
  {
    hide OfAsk;
    if n > 0 {
      OneOfAsk(parts, askOf, n - 1, x);
      OwnOrNot(parts, askOf, n - 1);
    }
  }

  /** Every part that names an ask of the turn is in one ask's group, once. */
  lemma {:induction false} EveryPartGrouped<T(!new)>(parts: seq<T>, askOf: T -> int, n: nat)
    requires forall k | 0 <= k < |parts| :: 0 <= askOf(parts[k]) < n
    ensures multiset(UpToAsk(parts, askOf, n)) == multiset(parts)
  {
    hide UpToAsk;
    if parts == [] {
      NoneGrouped(askOf, n);
    } else {
      assert forall k | 0 <= k < |parts[1..]| :: parts[1..][k] == parts[k + 1];
      EveryPartGrouped(parts[1..], askOf, n);
      assert parts == [parts[0]] + parts[1..];
      forall x
        ensures multiset(UpToAsk(parts, askOf, n))[x] == multiset(parts)[x]
      {
        OneOfAsk(parts, askOf, n, x);
      }
    }
  }

  lemma {:induction false} NoneGrouped<T>(askOf: T -> int, n: nat)
    ensures UpToAsk([], askOf, n) == []
  {
    if n > 0 {
      NoneGrouped(askOf, n - 1);
    }
  }
}
