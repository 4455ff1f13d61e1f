/** The redacted texts themselves, and what revealing one gives back. */
module RedactReveal {
  import opened Text
  import opened Resolve
  import opened Redaction
  import Visibility

  /** Spans that can be cut out of a text one after the other. */
  ghost predicate Fits(text: string, spans: seq<Span>) {
    && (forall k | 0 <= k < |spans| :: Checked(spans[k], text))
    && (forall j, k | 0 <= j < k < |spans| :: spans[j].end <= spans[k].start)
  }

  function EndOf(spans: seq<Span>): int { if spans == [] then 0 else spans[|spans| - 1].end }

  /** What stands in for a span. */
  type Stand = Span -> string

  /** The text up to the end of its last span, with something else in each span's place. */
  function Upto(text: string, spans: seq<Span>, stand: Stand): string
    requires Fits(text, spans)
  {
    if spans == [] then ""
    else
      var front, s := spans[..|spans| - 1], spans[|spans| - 1];
      Upto(text, front, stand) + text[EndOf(front)..s.start] + stand(s)
  }

  /** The whole text, with something else in each span's place. */
  function Replaced(text: string, spans: seq<Span>, stand: Stand): string
    requires Fits(text, spans)
  {
    Upto(text, spans, stand) + text[EndOf(spans)..]
  }

  function TagFor(d: DigitClass, lower: string -> string, tags: map<Key, string>): Stand {
    (s: Span) => if KeyOf(d, lower, s) in tags then tags[KeyOf(d, lower, s)] else ""
  }

  lemma {:induction false} UptoSame(text: string, spans: seq<Span>, a: Stand, b: Stand)
    requires Fits(text, spans) && forall k | 0 <= k < |spans| :: a(spans[k]) == b(spans[k])
    ensures Upto(text, spans, a) == Upto(text, spans, b)
  {
    if spans != [] {
      UptoSame(text, spans[..|spans| - 1], a, b);
    }
  }

  lemma FitsFront(text: string, spans: seq<Span>)
    requires Fits(text, spans) && spans != []
    ensures Fits(text, spans[..|spans| - 1])
    ensures 0 <= EndOf(spans[..|spans| - 1]) <= spans[|spans| - 1].start <= |text|
  {
    hide Fits;
    FitsPrefix(text, spans, |spans| - 1);
    InText(text, spans, |spans| - 1);
  }

  /** Spans checked against their text fit it once resolved. */
  lemma ResolvedFits(text: string, spans: seq<Span>)
    requires forall k | 0 <= k < |spans| :: Checked(spans[k], text)
    ensures Fits(text, Resolved(spans))
  {
    hide Resolved;
    ResolvedInTextOrder(spans);
    var r := Resolved(spans);
    forall k | 0 <= k < |r|
      ensures Checked(r[k], text)
    {
      assert r[k] in spans;
    }
  }

  // ---------------------------------------------------------------- revealing a redacted text

  /** The parts of the text between its spans: what comes before the last span ends, revealed piece by piece. */
  function RevealedUpto(d: DigitClass, values: Visibility.Held, text: string, spans: seq<Span>, stand: Stand): string
    requires Fits(text, spans)
  {
    if spans == [] then ""
    else
      var front, s := spans[..|spans| - 1], spans[|spans| - 1];
      RevealedUpto(d, values, text, front, stand)
      + Visibility.Reveal(d, values, text[EndOf(front)..s.start]) + Visibility.Shown(values, stand(s))
  }

  /** Every span stands as a whole tag. */
  ghost predicate StandsAsTag(d: DigitClass, spans: seq<Span>, stand: Stand) {
    forall k | 0 <= k < |spans| ::
      Visibility.TagLen(d, stand(spans[k])) == |stand(spans[k])| > 0 && stand(spans[k])[0] == Visibility.OPEN
  }

  /** A tag in front of anything is revealed on its own. */
  lemma RevealTagFirst(d: DigitClass, values: Visibility.Held, tag: string, rest: string)
    requires Visibility.TagLen(d, tag) == |tag| > 0
    ensures Visibility.Reveal(d, values, tag + rest) == Visibility.Shown(values, tag)
            + Visibility.Reveal(d, values, rest)
  {
    hide Visibility.TagBody, Visibility.Shown;
    var s := tag + rest;
    Visibility.IndexOfFirst(tag, Visibility.CLOSE, IndexOf(tag, Visibility.CLOSE));
    assert IndexOf(tag, Visibility.CLOSE) == |tag| - 1;
    Visibility.IndexOfFirst(s, Visibility.CLOSE, |tag| - 1);
    assert s[1..|tag| - 1] == tag[1..|tag| - 1];
    assert s[..|tag|] == tag && s[|tag|..] == rest;
  }

  lemma {:induction false} RevealUpto(d: DigitClass, values: Visibility.Held, text: string, spans: seq<Span>,
                                      stand: Stand, rest: string)
    requires Fits(text, spans) && Visibility.PlainTags(d, values) && StandsAsTag(d, spans, stand)
    ensures Visibility.Reveal(d, values, Upto(text, spans, stand) + rest) ==
            RevealedUpto(d, values, text, spans, stand) + Visibility.Reveal(d, values, rest)
    decreases |spans|
  {
    hide Visibility.Reveal, Visibility.Shown, Visibility.PlainTags, Visibility.TagLen;
    if spans == [] {
      assert "" + rest == rest;
      assert "" + Visibility.Reveal(d, values, rest) == Visibility.Reveal(d, values, rest);
    } else {
      FitsFront(text, spans);
      var front, s := spans[..|spans| - 1], spans[|spans| - 1];
      var seg, tag := text[EndOf(front)..s.start], stand(s);
      var more := seg + (tag + rest);
      RevealUpto(d, values, text, front, stand, more);
      RevealTagFirst(d, values, tag, rest);
      Visibility.RevealAcross(d, values, seg, tag + rest);
      Four(Upto(text, front, stand), seg, tag, rest);
      Four(RevealedUpto(d, values, text, front, stand), Visibility.Reveal(d, values, seg),
           Visibility.Shown(values, tag), Visibility.Reveal(d, values, rest));
    }
  }

  lemma Four(a: string, b: string, c: string, e: string)
    ensures a + b + c + e == a + (b + (c + e))
  {}

  lemma RevealReplaced(d: DigitClass, values: Visibility.Held, text: string, spans: seq<Span>, stand: Stand)
    requires Fits(text, spans) && Visibility.PlainTags(d, values) && StandsAsTag(d, spans, stand)
    ensures Visibility.Reveal(d, values, Replaced(text, spans, stand)) ==
            RevealedUpto(d, values, text, spans, stand) + Visibility.Reveal(d, values, text[EndOf(spans)..])
  {
    RevealUpto(d, values, text, spans, stand, text[EndOf(spans)..]);
  }

  // ---------------------------------------------------------------- a whole run

  function ResolvedAt(spans: seq<seq<Span>>, i: nat): seq<Span> {
    if i < |spans| then Resolved(spans[i]) else []
  }

  /** Every span replaced in the first `n` texts, in the order they are read. */
  function InReadingOrder(spans: seq<seq<Span>>, n: nat): seq<Span> {
    if n == 0 then [] else InReadingOrder(spans, n - 1) + ResolvedAt(spans, n - 1)
  }

  ghost predicate AllChecked(texts: seq<string>, spans: seq<seq<Span>>) {
    forall i, k | 0 <= i < |texts| && i < |spans| && 0 <= k < |spans[i]| :: Checked(spans[i][k], texts[i])
  }

  lemma AllFit(texts: seq<string>, spans: seq<seq<Span>>, i: nat)
    requires AllChecked(texts, spans) && i < |texts|
    ensures Fits(texts[i], ResolvedAt(spans, i))
  {
    if i < |spans| {
      ResolvedFits(texts[i], spans[i]);
    }
  }

  lemma {:induction false} ReadSoFar(spans: seq<seq<Span>>, i: nat, n: nat)
    requires i < n
    ensures InReadingOrder(spans, i) + ResolvedAt(spans, i) <= InReadingOrder(spans, n)
  {
    hide ResolvedAt;
    if i < n - 1 {
      ReadSoFar(spans, i, n - 1);
    }
  }

  /** Once given, a tag is kept. */
  lemma {:induction false} TagsStay(d: DigitClass, lower: string -> string, policy: Policy, spans: seq<Span>, n: nat,
                                    key: Key)
    requires n <= |spans| && key in TagAll(d, lower, policy, spans[..n]).tags
    ensures key in TagAll(d, lower, policy, spans).tags
    ensures TagAll(d, lower, policy, spans).tags[key] == TagAll(d, lower, policy, spans[..n]).tags[key]
    decreases |spans|
  {
    hide KeyOf, TagOf;
    if n < |spans| {
      var front := spans[..|spans| - 1];
      assert front[..n] == spans[..n];
      TagsStay(d, lower, policy, front, n, key);
    } else {
      assert spans[..n] == spans;
    }
  }

  lemma Tagged(d: DigitClass, lower: string -> string, policy: Policy, seen: seq<Span>, s: Span, all: seq<Span>)
    requires seen + [s] <= all
    ensures var now := TagAll(d, lower, policy, seen + [s]);
            && now == TagSpan(d, lower, policy, TagAll(d, lower, policy, seen), s)
            && KeyOf(d, lower, s) in now.tags
            && TagFor(d, lower, TagAll(d, lower, policy, all).tags)(s) == now.tags[KeyOf(d, lower, s)]
  {
    hide KeyOf, TagOf;
    assert (seen + [s])[..|seen|] == seen;
    assert all[..|seen| + 1] == seen + [s];
    TagsStay(d, lower, policy, all, |seen| + 1, KeyOf(d, lower, s));
  }

  /** One span as the loop treats it. */
  method TagOne(d: DigitClass, lower: string -> string, policy: Policy, st: State, s: Span)
    returns (tag: string, next: State)
    ensures next == TagSpan(d, lower, policy, st, s)
    ensures KeyOf(d, lower, s) in next.tags && tag == next.tags[KeyOf(d, lower, s)]
  {
    var tags, numbers, values, found := st.tags, st.numbers, st.values, st.found;
    var key := KeyOf(d, lower, s);
    if key in tags {
      tag := tags[key];
    } else {
      numbers := numbers[s.entity := CountOf(numbers, s.entity) + 1];
      tag := TagOf(s.entity, numbers[s.entity]);
      tags := tags[key := tag];
      if Keeps(policy, s.entity) {
        values := values[tag := s.value];
      }
    }
    found := found[s.entity := CountOf(found, s.entity) + 1];
    next := State(tags, numbers, values, found);
  }

  lemma UptoSnoc(text: string, spans: seq<Span>, j: nat, stand: Stand)
    requires Fits(text, spans) && j < |spans|
    ensures Fits(text, spans[..j]) && Fits(text, spans[..j + 1])
    ensures 0 <= EndOf(spans[..j]) <= spans[j].start <= EndOf(spans[..j + 1]) == spans[j].end <= |text|
    ensures Upto(text, spans[..j + 1], stand) ==
            Upto(text, spans[..j], stand) + text[EndOf(spans[..j])..spans[j].start] + stand(spans[j])
  {
    hide Fits;
    FitsPrefix(text, spans, j);
    FitsPrefix(text, spans, j + 1);
    InText(text, spans, j);
    var next := spans[..j + 1];
    assert next[..|next| - 1] == spans[..j] && next[|next| - 1] == spans[j];
  }

  lemma FitsPrefix(text: string, spans: seq<Span>, j: nat)
    requires Fits(text, spans) && j <= |spans|
    ensures Fits(text, spans[..j])
  {
    hide Checked;
  }

  lemma InText(text: string, spans: seq<Span>, j: nat)
    requires Fits(text, spans) && j < |spans|
    ensures 0 <= EndOf(spans[..j]) <= spans[j].start < spans[j].end <= |text|
  {
    hide EntityName;
    assert Checked(spans[j], text);
    assert j > 0 ==> Checked(spans[j - 1], text);
  }

  /** One text. `all` is every span of the run, of which `seen` have been tagged and this text's come next. */
  method RedactOne(d: DigitClass, lower: string -> string, policy: Policy, text: string, spans: seq<Span>, st: State,
                   ghost seen: seq<Span>, ghost all: seq<Span>)
    returns (out: string, next: State)
    requires Fits(text, spans) && seen + spans <= all && st == TagAll(d, lower, policy, seen)
    ensures next == TagAll(d, lower, policy, seen + spans)
    ensures out == Replaced(text, spans, TagFor(d, lower, TagAll(d, lower, policy, all).tags))
  {
    hide TagAll, TagSpan, KeyOf, TagFor, Fits, Upto, EndOf;
    ghost var stand := TagFor(d, lower, TagAll(d, lower, policy, all).tags);
    out, next := "", st;
    var last := 0;
    assert seen + spans[..0] == seen && spans[..0] == [];
    UptoNothing(text, stand);
    for j := 0 to |spans|
      invariant Fits(text, spans[..j]) && last == EndOf(spans[..j])
      invariant next == TagAll(d, lower, policy, seen + spans[..j])
      invariant out == Upto(text, spans[..j], stand)
    {
      UptoSnoc(text, spans, j, stand);
      assert (seen + spans[..j]) + [spans[j]] == seen + spans[..j + 1] <= all;
      Tagged(d, lower, policy, seen + spans[..j], spans[j], all);
      var tag;
      tag, next := TagOne(d, lower, policy, next, spans[j]);
      out := out + text[last..spans[j].start] + tag;
      last := spans[j].end;
    }
    assert spans[..|spans|] == spans;
    EndInText(text, spans);
    out := out + text[last..];
  }

  lemma UptoNothing(text: string, stand: Stand)
    ensures Fits(text, []) && EndOf([]) == 0 && Upto(text, [], stand) == ""
  {}

  lemma EndInText(text: string, spans: seq<Span>)
    requires Fits(text, spans)
    ensures 0 <= EndOf(spans) <= |text|
  {}

  method ResolveAt(spans: seq<seq<Span>>, i: nat) returns (kept: seq<Span>)
    ensures kept == ResolvedAt(spans, i)
    ensures InReadingOrder(spans, i + 1) == InReadingOrder(spans, i) + kept
  {
    kept := [];
    if i < |spans| {
      kept := ResolveSpans(spans[i]);
    }
  }

  /** `redact` */
  method Redact(d: DigitClass, lower: string -> string, policy: Policy, texts: seq<string>, spans: seq<seq<Span>>)
    returns (redacted: seq<string>, st: State)
    requires AllChecked(texts, spans)
    ensures st == TagAll(d, lower, policy, InReadingOrder(spans, |texts|))
    ensures |redacted| == |texts|
    ensures forall i | 0 <= i < |texts| ::
              && Fits(texts[i], ResolvedAt(spans, i))
              && redacted[i] == Replaced(texts[i], ResolvedAt(spans, i), TagFor(d, lower, st.tags))
  {
    hide TagAll, TagFor, Fits, Replaced, AllChecked, ResolvedAt, InReadingOrder;
    ghost var all := InReadingOrder(spans, |texts|);
    ghost var stand := TagFor(d, lower, TagAll(d, lower, policy, all).tags);
    redacted, st := [], NOTHING;
    TagNothing(d, lower, policy, spans);
    for i := 0 to |texts|
      invariant st == TagAll(d, lower, policy, InReadingOrder(spans, i))
      invariant |redacted| == i
      invariant forall k | 0 <= k < i ::
                  && Fits(texts[k], ResolvedAt(spans, k))
                  && redacted[k] == Replaced(texts[k], ResolvedAt(spans, k), stand)
    {
      AllFit(texts, spans, i);
      ReadSoFar(spans, i, |texts|);
      var kept := ResolveAt(spans, i);
      var out;
      out, st := RedactOne(d, lower, policy, texts[i], kept, st, InReadingOrder(spans, i), all);
      redacted := redacted + [out];
    }
  }

  lemma TagNothing(d: DigitClass, lower: string -> string, policy: Policy, spans: seq<seq<Span>>)
    ensures TagAll(d, lower, policy, InReadingOrder(spans, 0)) == NOTHING
  {}

  // ---------------------------------------------------------------- redact, then reveal

  /** What a span comes back as: the spelling its value was first seen with, or its tag if nothing is held for it. */
  function ComesBackAs(d: DigitClass, lower: string -> string, policy: Policy, all: seq<Span>): Stand {
    var tags := TagAll(d, lower, policy, all).tags;
    (s: Span) => if Keeps(policy, s.entity) then FirstValue(d, lower, all, KeyOf(d, lower, s))
        else TagFor(d, lower, tags)(s)
  }

  /** Nothing in `s` looks like a tag. */
  ghost predicate NoTagIn(d: DigitClass, s: string) { forall i | 0 <= i < |s| :: Visibility.TagLen(d, s[i..]) == 0 }

  /** Nothing between the spans of a text looks like a tag. */
  ghost predicate NoTagOutside(d: DigitClass, text: string, spans: seq<Span>)
    requires Fits(text, spans)
  {
    && (forall k | 0 <= k < |spans| :: 0 <= EndOf(spans[..k]) <= spans[k].start <= |text| &&
          NoTagIn(d, text[EndOf(spans[..k])..spans[k].start]))
    && 0 <= EndOf(spans) <= |text| && NoTagIn(d, text[EndOf(spans)..])
  }

  lemma {:induction false} RevealUntagged(d: DigitClass, values: Visibility.Held, s: string)
    requires NoTagIn(d, s)
    ensures Visibility.Reveal(d, values, s) == s
    decreases |s|
  {
    if s != "" {
      assert s[0..] == s;
      assert forall i | 0 <= i < |s[1..]| :: s[1..][i..] == s[i + 1..];
      RevealUntagged(d, values, s[1..]);
      assert s == [s[0]] + s[1..];
    }
  }

  lemma {:induction false} RevealedUptoIs(d: DigitClass, values: Visibility.Held, text: string, spans: seq<Span>,
                                          stand: Stand, back: Stand)
    requires Fits(text, spans)
    requires forall k | 0 <= k < |spans| :: 0 <= EndOf(spans[..k]) <= spans[k].start <= |text| &&
               NoTagIn(d, text[EndOf(spans[..k])..spans[k].start])
    requires forall k | 0 <= k < |spans| :: Visibility.Shown(values, stand(spans[k])) == back(spans[k])
    ensures RevealedUpto(d, values, text, spans, stand) == Upto(text, spans, back)
  {
    hide Fits, NoTagIn, Visibility.Shown, Visibility.Reveal;
    if spans != [] {
      FitsFront(text, spans);
      var front := spans[..|spans| - 1];
      assert forall k | 0 <= k < |front| :: front[..k] == spans[..k];
      RevealedUptoIs(d, values, text, front, stand, back);
      RevealUntagged(d, values, text[EndOf(front)..spans[|spans| - 1].start]);
    }
  }

  /** What is shown for a span's tag, once every span of the run has been tagged. */
  lemma TagShows(d: DigitClass, lower: string -> string, policy: Policy, all: seq<Span>, k: nat)
    requires k < |all|
    ensures var st := TagAll(d, lower, policy, all);
            var tag := TagFor(d, lower, st.tags)(all[k]);
            && KeyOf(d, lower, all[k]) in st.tags && tag == st.tags[KeyOf(d, lower, all[k])]
            && Visibility.Shown(st.values, tag) == ComesBackAs(d, lower, policy, all)(all[k])
  {
    hide TagAll, FirstValue, Normalise.SameForm;
    AllTagged(d, lower, policy, all);
    var key := KeyOf(d, lower, all[k]);
    assert Seen(d, lower, all, key);
    assert key.0 == all[k].entity;
  }

  /** Revealing any text redacted in a run, with no condition on it: what lies between the spans is revealed on its
      own, and no tag straddles an edge. */
  lemma RevealRedacted(d: DigitClass, lower: string -> string, policy: Policy, text: string, spans: seq<Span>,
                       all: seq<Span>)
    requires Fits(text, spans) && (forall k | 0 <= k < |spans| :: spans[k] in all)
    requires forall k | 0 <= k < |all| :: EntityName(all[k].entity)
    ensures var st := TagAll(d, lower, policy, all);
            var stand := TagFor(d, lower, st.tags);
            Visibility.Reveal(d, st.values, Replaced(text, spans, stand)) ==
            RevealedUpto(d, st.values, text, spans, stand) + Visibility.Reveal(d, st.values, text[EndOf(spans)..])
  {
    hide TagAll, Fits, Replaced, RevealedUpto, EntityName, Visibility.Reveal, Visibility.PlainTags, Visibility.TagLen,
         EndOf;
    var st := TagAll(d, lower, policy, all);
    var stand := TagFor(d, lower, st.tags);
    HeldTagsArePlain(d, lower, policy, all);
    forall k | 0 <= k < |spans|
      ensures Visibility.TagLen(d, stand(spans[k])) == |stand(spans[k])| > 0 && stand(spans[k])[0] == Visibility.OPEN
    {
      var m :| 0 <= m < |all| && all[m] == spans[k];
      TagShows(d, lower, policy, all, m);
    }
    RevealReplaced(d, st.values, text, spans, stand);
  }

  /** Redact then reveal: if nothing between the spans looks like a tag, each kept span comes back in its value's
      first-seen spelling, each destroyed span stays its tag, and the rest of the text is as it was. */
  lemma RedactThenReveal(d: DigitClass, lower: string -> string, policy: Policy, text: string, spans: seq<Span>,
                         all: seq<Span>)
    requires Fits(text, spans) && (forall k | 0 <= k < |spans| :: spans[k] in all)
    requires forall k | 0 <= k < |all| :: EntityName(all[k].entity)
    requires NoTagOutside(d, text, spans)
    ensures var st := TagAll(d, lower, policy, all);
            Visibility.Reveal(d, st.values, Replaced(text, spans, TagFor(d, lower, st.tags))) ==
            Replaced(text, spans, ComesBackAs(d, lower, policy, all))
  {
    hide TagAll, Fits, EntityName, ComesBackAs, TagFor, NoTagIn, Visibility.Reveal, Visibility.Shown, RevealedUpto,
         Upto;
    var st := TagAll(d, lower, policy, all);
    var stand, back := TagFor(d, lower, st.tags), ComesBackAs(d, lower, policy, all);
    forall k | 0 <= k < |spans|
      ensures Visibility.Shown(st.values, stand(spans[k])) == back(spans[k])
    {
      var m :| 0 <= m < |all| && all[m] == spans[k];
      TagShows(d, lower, policy, all, m);
    }
    RevealRedacted(d, lower, policy, text, spans, all);
    RevealedUptoIs(d, st.values, text, spans, stand, back);
    RevealUntagged(d, st.values, text[EndOf(spans)..]);
  }

  lemma {:induction false} OwnSlices(text: string, spans: seq<Span>, stand: Stand)
    requires Fits(text, spans)
    requires forall k | 0 <= k < |spans| :: 0 <= spans[k].start <= spans[k].end <= |text| &&
               stand(spans[k]) == text[spans[k].start..spans[k].end]
    ensures 0 <= EndOf(spans) <= |text| && Upto(text, spans, stand) == text[..EndOf(spans)]
  {
    hide Fits;
    if spans != [] {
      FitsFront(text, spans);
      var front, s := spans[..|spans| - 1], spans[|spans| - 1];
      OwnSlices(text, front, stand);
      assert text[..EndOf(front)] + text[EndOf(front)..s.start] + text[s.start..s.end] == text[..s.end];
    }
  }

  /** The identity: everything is kept, and each value was first seen spelled as it is here. */
  lemma RedactThenRevealIsIdentity(d: DigitClass, lower: string -> string, policy: Policy, text: string,
                                   spans: seq<Span>, all: seq<Span>)
    requires Fits(text, spans) && (forall k | 0 <= k < |spans| :: spans[k] in all)
    requires forall k | 0 <= k < |all| :: EntityName(all[k].entity)
    requires NoTagOutside(d, text, spans)
    requires forall k | 0 <= k < |spans| ::
               && Keeps(policy, spans[k].entity)
               && 0 <= spans[k].start <= spans[k].end <= |text|
               && FirstValue(d, lower, all, KeyOf(d, lower, spans[k])) == text[spans[k].start..spans[k].end]
    ensures var st := TagAll(d, lower, policy, all);
            Visibility.Reveal(d, st.values, Replaced(text, spans, TagFor(d, lower, st.tags))) == text
  {
    hide TagAll, Fits, EntityName, NoTagOutside, FirstValue, KeyOf, Visibility.Reveal, Upto;
    RedactThenReveal(d, lower, policy, text, spans, all);
    OwnSlices(text, spans, ComesBackAs(d, lower, policy, all));
    assert text[..EndOf(spans)] + text[EndOf(spans)..] == text;
  }

  lemma {:induction false} SpansOfRun(texts: seq<string>, spans: seq<seq<Span>>, n: nat)
    requires AllChecked(texts, spans) && n <= |texts|
    ensures forall k | 0 <= k < |InReadingOrder(spans, n)| :: EntityName(InReadingOrder(spans, n)[k].entity)
  {
    hide EntityName;
    if n > 0 {
      SpansOfRun(texts, spans, n - 1);
      AllFit(texts, spans, n - 1);
      var here := ResolvedAt(spans, n - 1);
      assert forall k | 0 <= k < |here| :: Checked(here[k], texts[n - 1]);
    }
  }

  /** The same of a whole run: each of its texts, and the values held after the last of them. */
  lemma RunThenReveal(d: DigitClass, lower: string -> string, policy: Policy, texts: seq<string>, spans: seq<seq<Span>>,
                      i: nat)
    requires AllChecked(texts, spans) && i < |texts|
    requires Fits(texts[i], ResolvedAt(spans, i)) && NoTagOutside(d, texts[i], ResolvedAt(spans, i))
    ensures var all := InReadingOrder(spans, |texts|);
            var st := TagAll(d, lower, policy, all);
            && Visibility.PlainTags(d, st.values)
            && Visibility.Reveal(d, st.values, Replaced(texts[i], ResolvedAt(spans, i), TagFor(d, lower, st.tags))) ==
               Replaced(texts[i], ResolvedAt(spans, i), ComesBackAs(d, lower, policy, all))
  {
    hide *;
    var all, here := InReadingOrder(spans, |texts|), ResolvedAt(spans, i);
    SpansOfRun(texts, spans, |texts|);
    ReadSoFar(spans, i, |texts|);
    var before := InReadingOrder(spans, i);
    forall k | 0 <= k < |here|
      ensures here[k] in all
    {
      assert (before + here)[|before| + k] == here[k] == all[|before| + k];
    }
    HeldTagsArePlain(d, lower, policy, all);
    RedactThenReveal(d, lower, policy, texts[i], here, all);
  }
}
