/** Every configured identifier run over a turn's texts, side by side, and the texts redacted from what they found. */
module RedactTexts {
  import opened Text
  import opened Sorting
  import opened Completion
  import opened Resolve
  import opened Redaction
  import opened RedactReveal

  /** What one identifier came back with for each text: its spans, or nothing where it raised. */
  type Report = seq<Option<seq<Span>>>

  /** It answered for every text, and every span passes `_check`. */
  predicate Passes(texts: seq<string>, r: Report) {
    && |r| == |texts|
    && forall t | 0 <= t < |texts| :: r[t].Some? && forall k | 0 <= k < |r[t].value| :: Checked(r[t].value[k], texts[t])
  }

  /** The spans in text `t` of the first `n` identifiers that passed, in the order the config lists them. */
  function Merged(texts: seq<string>, reports: seq<Report>, n: nat, t: nat): seq<Span>
    requires n <= |reports| && t < |texts|
  {
    if n == 0 then []
    else
      Merged(texts, reports, n - 1, t) + if Passes(texts, reports[n - 1]) then reports[n - 1][t].value else []
  }

  /** Each identifier's spans stand together, behind those of every one the config lists before it, and there are no
      others. */
  lemma {:induction false} MergedInOrder(texts: seq<string>, reports: seq<Report>, n: nat, t: nat, i: nat)
    requires i < n <= |reports| && t < |texts|
    ensures var (from, till, all) := (|Merged(texts, reports, i, t)|, |Merged(texts, reports, i + 1, t)|,
                                      Merged(texts, reports, n, t));
            && from <= till <= |all|
            && all[from..till] == (if Passes(texts, reports[i]) then reports[i][t].value else [])
    ensures Merged(texts, reports, 0, t) == []
  {
    hide Passes;
    if i < n - 1 {
      MergedInOrder(texts, reports, n - 1, t, i);
      var before, all := Merged(texts, reports, n - 1, t), Merged(texts, reports, n, t);
      assert before == all[..|before|];
    }
  }

  function AllMerged(texts: seq<string>, reports: seq<Report>): seq<seq<Span>> {
    seq(|texts|, t requires 0 <= t < |texts| => Merged(texts, reports, |reports|, t))
  }

  function FailedNames(texts: seq<string>, reports: seq<Report>, names: seq<string>, order: seq<nat>): seq<string>
    requires |names| == |reports| && forall k | 0 <= k < |order| :: order[k] < |reports|
  {
    if order == [] then []
    else
      var i := order[|order| - 1];
      FailedNames(texts, reports, names, order[..|order| - 1]) + if Passes(texts, reports[i]) then [] else [names[i]]
  }

  function NameOrder(): (string, string) -> bool { (a: string, b: string) => NoLater(a, b) }

  lemma NameOrderIsTotal()
    ensures TotalPreorder(NameOrder())
    ensures forall a, b :: NameOrder()(a, b) && NameOrder()(b, a) ==> a == b
  {
    forall a, b
      ensures NameOrder()(a, b) || NameOrder()(b, a)
      ensures NameOrder()(a, b) && NameOrder()(b, a) ==> a == b
    {
      NoLaterIsTotal(a, b);
    }
    forall a, b, c | NameOrder()(a, b) && NameOrder()(b, c)
      ensures NameOrder()(a, c)
    {
      NoLaterTransitive(a, b, c);
    }
  }

  lemma {:induction false} MergedIsChecked(texts: seq<string>, reports: seq<Report>, n: nat, t: nat)
    requires n <= |reports| && t < |texts|
    ensures forall k | 0 <= k < |Merged(texts, reports, n, t)| :: Checked(Merged(texts, reports, n, t)[k], texts[t])
  {
    hide Checked;
    if n > 0 {
      MergedIsChecked(texts, reports, n - 1, t);
    }
  }

  // ---------------------------------------------------------------- the order of completion does not matter

  /** The names of the failed, as a bag. */
  function FailedBag(texts: seq<string>, reports: seq<Report>, names: seq<string>, order: seq<nat>): multiset<string>
    requires |names| == |reports| && forall k | 0 <= k < |order| :: order[k] < |reports|
  {
    multiset(FailedNames(texts, reports, names, order))
  }

  lemma {:induction false} FailedSplit(texts: seq<string>, reports: seq<Report>, names: seq<string>, a: seq<nat>,
                                       b: seq<nat>)
    requires |names| == |reports|
    requires (forall k | 0 <= k < |a| :: a[k] < |reports|) && (forall k | 0 <= k < |b| :: b[k] < |reports|)
    ensures FailedNames(texts, reports, names, a + b) ==
            FailedNames(texts, reports, names, a) + FailedNames(texts, reports, names, b)
    decreases |b|
  {
    hide Passes;
    if b == [] {
      assert a + b == a;
    } else {
      var front := b[..|b| - 1];
      assert (a + b)[..|a + b| - 1] == a + front;
      FailedSplit(texts, reports, names, a, front);
    }
  }

  lemma {:induction false} FailedAnyOrder(texts: seq<string>, reports: seq<Report>, names: seq<string>, a: seq<nat>,
                                          b: seq<nat>)
    requires |names| == |reports| && multiset(a) == multiset(b)
    requires (forall k | 0 <= k < |a| :: a[k] < |reports|) && (forall k | 0 <= k < |b| :: b[k] < |reports|)
    ensures FailedBag(texts, reports, names, a) == FailedBag(texts, reports, names, b)
    decreases |a|
  {
    hide FailedNames;
    if a == [] {
      SameLength(a, b);
    } else {
      var x, rest := [a[0]], a[1..];
      assert a == x + rest;
      var i := TakeOut(a, b);
      var left, right := b[..i], b[i + 1..];
      FailedAnyOrder(texts, reports, names, rest, left + right);
      FailedSplit(texts, reports, names, x, rest);
      FailedSplit(texts, reports, names, left, x + right);
      FailedSplit(texts, reports, names, x, right);
      FailedSplit(texts, reports, names, left, right);
    }
  }

  /** Whichever identifier finishes first, the failed are named alike. */
  lemma FailedSorted(texts: seq<string>, reports: seq<Report>, names: seq<string>, a: seq<nat>, b: seq<nat>)
    requires |names| == |reports| && multiset(a) == multiset(b)
    requires (forall k | 0 <= k < |a| :: a[k] < |reports|) && (forall k | 0 <= k < |b| :: b[k] < |reports|)
    ensures StableSort(FailedNames(texts, reports, names, a), NameOrder()) ==
            StableSort(FailedNames(texts, reports, names, b), NameOrder())
  {
    hide FailedNames, StableSort, NameOrder;
    FailedAnyOrder(texts, reports, names, a, b);
    NameOrderIsTotal();
    var one, other := FailedNames(texts, reports, names, a), FailedNames(texts, reports, names, b);
    StableSortSorts(one, NameOrder());
    StableSortSorts(other, NameOrder());
    SortedOneWay(StableSort(one, NameOrder()), StableSort(other, NameOrder()), NameOrder());
  }

  // ---------------------------------------------------------------- the tasks

  /** One identifier's task ends: its spans are kept under its place in the config, or its name among the failed. */
  method Finish(texts: seq<string>, report: Report, name: string, index: nat, found: map<nat, seq<seq<Span>>>,
                failed: seq<string>)
    returns (found': map<nat, seq<seq<Span>>>, failed': seq<string>)
    ensures if Passes(texts, report)
            then failed' == failed && index in found' && found' == found[index := found'[index]]
                 && IsReport(texts, report, found'[index])
            else found' == found && failed' == failed + [name]
  {
    hide Checked;
    found', failed' := found, failed;
    if Passes(texts, report) {
      found' := found[index := seq(|texts|, t requires 0 <= t < |texts| && Passes(texts, report) => report[t].value)];
    } else {
      failed' := failed + [name];
    }
  }

  /** What has been found once the tasks of `done` have ended. */
  ghost predicate FoundSoFar(texts: seq<string>, reports: seq<Report>, done: seq<nat>,
                             found: map<nat, seq<seq<Span>>>) {
    && (forall i | 0 <= i < |reports| :: i in found <==> i in done && Passes(texts, reports[i]))
    && (forall i | 0 <= i < |reports| && i in found :: IsReport(texts, reports[i], found[i]))
  }

  ghost predicate IsReport(texts: seq<string>, r: Report, spans: seq<seq<Span>>) {
    && |spans| == |texts| && |r| == |texts|
    && forall t | 0 <= t < |texts| :: r[t].Some? && spans[t] == r[t].value
  }

  lemma FoundNext(texts: seq<string>, reports: seq<Report>, done: seq<nat>, i: nat, found: map<nat, seq<seq<Span>>>,
                  next: map<nat, seq<seq<Span>>>)
    requires i < |reports| && FoundSoFar(texts, reports, done, found)
    requires if Passes(texts, reports[i]) then i in next && next == found[i := next[i]]
             && IsReport(texts, reports[i], next[i])
             else next == found
    ensures FoundSoFar(texts, reports, done + [i], next)
  {
    hide Passes, IsReport;
  }

  method MergeFound(texts: seq<string>, reports: seq<Report>, order: seq<nat>, found: map<nat, seq<seq<Span>>>)
    returns (merged: seq<seq<Span>>)
    requires FoundSoFar(texts, reports, order, found) && forall i | 0 <= i < |reports| :: i in order
    ensures merged == AllMerged(texts, reports)
  {
    hide Passes;
    merged := seq(|texts|, t => []);
    for i := 0 to |reports|
      invariant |merged| == |texts|
      invariant forall t | 0 <= t < |texts| :: merged[t] == Merged(texts, reports, i, t)
    {
      if i in found {
        merged := Extend(texts, merged, found[i]);
      }
    }
  }

  method Extend(texts: seq<string>, merged: seq<seq<Span>>, more: seq<seq<Span>>) returns (r: seq<seq<Span>>)
    requires |merged| == |more| == |texts|
    ensures |r| == |texts| && forall t | 0 <= t < |texts| :: r[t] == merged[t] + more[t]
  {
    r := merged;
    for t := 0 to |more|
      invariant |r| == |texts|
      invariant forall k | 0 <= k < |texts| :: r[k] == if k < t then merged[k] + more[k] else merged[k]
    {
      r := r[t := r[t] + more[t]];
    }
  }

  lemma MergedChecked(texts: seq<string>, reports: seq<Report>)
    ensures AllChecked(texts, AllMerged(texts, reports))
  {
    hide Checked, Merged;
    forall t | 0 <= t < |texts|
      ensures forall k | 0 <= k < |AllMerged(texts, reports)[t]| :: Checked(AllMerged(texts, reports)[t][k], texts[t])
    {
      MergedIsChecked(texts, reports, |reports|, t);
    }
  }

  /** `redact_texts`, with the identifiers finishing in any order. */
  method RedactAll(d: DigitClass, lower: string -> string, policy: Policy, texts: seq<string>, reports: seq<Report>,
                   names: seq<string>, order: seq<nat>)
    returns (redacted: seq<string>, st: State, failed: seq<string>)
    requires |names| == |reports| && CompletionOrder(order, |reports|)
    // The result has no `order` in it: the spans are merged as the config lists the identifiers.
    ensures failed == StableSort(FailedNames(texts, reports, names, ConfigOrder(|reports|)), NameOrder())
    ensures AllChecked(texts, AllMerged(texts, reports))
    ensures st == TagAll(d, lower, policy, InReadingOrder(AllMerged(texts, reports), |texts|))
    ensures |redacted| == |texts|
    ensures forall i | 0 <= i < |texts| ::
              && Fits(texts[i], ResolvedAt(AllMerged(texts, reports), i))
              && redacted[i] == Replaced(texts[i], ResolvedAt(AllMerged(texts, reports), i), TagFor(d, lower, st.tags))
  {
    hide TagAll, Fits, Replaced, TagFor, Passes, StableSort, InReadingOrder, ResolvedAt, AllChecked, AllMerged,
         IsReport;
    var found: map<nat, seq<seq<Span>>> := map[];
    var raised := [];
    EveryoneFinishes(order, |reports|);
    assert order[..0] == [];
    for n := 0 to |order|
      invariant raised == FailedNames(texts, reports, names, order[..n])
      invariant FoundSoFar(texts, reports, order[..n], found)
    {
      assert order[..n + 1][..n] == order[..n] && order[..n + 1] == order[..n] + [order[n]];
      ghost var before := found;
      found, raised := Finish(texts, reports[order[n]], names[order[n]], order[n], found, raised);
      FoundNext(texts, reports, order[..n], order[n], before, found);
    }
    assert order[..|order|] == order;
    failed := StableSort(raised, NameOrder());
    FailedSorted(texts, reports, names, order, ConfigOrder(|reports|));
    var merged := MergeFound(texts, reports, order, found);
    MergedChecked(texts, reports);
    redacted, st := Redact(d, lower, policy, texts, merged);
  }
}
