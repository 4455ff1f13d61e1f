/** Each span of personal data becomes a numbered tag; the same value, in any of the texts, gets the same tag. */
module Redaction {
  import opened Text
  import opened Resolve
  import Normalise
  import Visibility

  datatype Handling = Keep | Destroy

  type Policy = map<string, Handling>

  predicate Keeps(policy: Policy, entity: string) { entity in policy && policy[entity] == Keep }

  /** `^[a-z][a-z0-9_]*$` */
  predicate EntityName(e: string) {
    e != "" && Visibility.IsLower(e[0]) && forall i | 0 <= i < |e| :: Visibility.NameChar(e[i])
  }

  /** What every span has passed before it gets here. */
  predicate Checked(s: Span, text: string) {
    0 <= s.start < s.end <= |text| && EntityName(s.entity) && s.value != ""
  }

  /** A value is kept for the entities the policy says to keep, and for no other. */
  lemma KeptEntities(policy: Policy, entity: string)
    ensures Keeps(policy, entity) <==> (entity, Keep) in policy.Items
  {}

  /** What a span has passed: it lies in the text, holds something, and its entity begins with a small letter and has
      only small letters, digits and underscores, by code point. */
  lemma CheckedSpan(s: Span, text: string)
    ensures Checked(s, text) <==>
            && 0 <= s.start && s.start < s.end && s.end <= |text| && |s.value| > 0
            && |s.entity| > 0 && 97 <= s.entity[0] as int <= 122
            && forall c <- s.entity :: 97 <= c as int <= 122 || 48 <= c as int <= 57 || c as int == 95
  {
    assert forall i | 0 <= i < |s.entity| :: s.entity[i] in s.entity;
  }

  function TagOf(entity: string, number: nat): string {
    [Visibility.OPEN] + (entity + "_" + Decimal(number)) + [Visibility.CLOSE]
  }

  /** Which spans are the same: the entity, and the value however it was spaced, with or without its country code. */
  type Key = (string, string)

  function KeyOf(d: DigitClass, lower: string -> string, s: Span): Key {
    (s.entity, lower(Normalise.SameForm(d, s.value)))
  }

  datatype State = State(tags: map<Key, string>, numbers: map<string, nat>, values: Visibility.Held,
                         found: map<string, nat>)

  const NOTHING := State(map[], map[], map[], map[])

  function CountOf(counts: map<string, nat>, entity: string): nat {
    if entity in counts then counts[entity] else 0
  }

  /** One span: its tag, new if its key is. */
  function TagSpan(d: DigitClass, lower: string -> string, policy: Policy, st: State, s: Span): State {
    var key := KeyOf(d, lower, s);
    var found := st.found[s.entity := CountOf(st.found, s.entity) + 1];
    if key in st.tags then st.(found := found)
    else
      var number := CountOf(st.numbers, s.entity) + 1;
      var tag := TagOf(s.entity, number);
      State(st.tags[key := tag], st.numbers[s.entity := number],
            if Keeps(policy, s.entity) then st.values[tag := s.value] else st.values, found)
  }

  /** Every span, in the order the texts are read. */
  function TagAll(d: DigitClass, lower: string -> string, policy: Policy, spans: seq<Span>): State {
    if spans == [] then NOTHING
    else TagSpan(d, lower, policy, TagAll(d, lower, policy, spans[..|spans| - 1]), spans[|spans| - 1])
  }

  // ---------------------------------------------------------------- tags

  lemma DecimalHasNoUnderscore(n: nat)
    ensures forall i | 0 <= i < |Decimal(n)| :: Decimal(n)[i] != '_' && Visibility.NameChar(Decimal(n)[i])
  {
    forall i | 0 <= i < |Decimal(n)|
      ensures Decimal(n)[i] != '_' && Visibility.NameChar(Decimal(n)[i])
    {
      assert Decimal(n)[i] in Decimal(n);
    }
  }

  /** A tag names one entity and one number. */
  lemma TagInjective(e: string, m: nat, f: string, n: nat)
    requires TagOf(e, m) == TagOf(f, n)
    ensures e == f && m == n
  {
    var a, b := e + "_" + Decimal(m), f + "_" + Decimal(n);
    assert a == TagOf(e, m)[1..|TagOf(e, m)| - 1];
    assert b == TagOf(f, n)[1..|TagOf(f, n)| - 1];
    LastUnderscore(e, Decimal(m), f, Decimal(n), m, n);
    DecimalInjective(m, n);
  }

  lemma LastUnderscore(e: string, x: string, f: string, y: string, m: nat, n: nat)
    requires e + "_" + x == f + "_" + y && x == Decimal(m) && y == Decimal(n)
    ensures e == f && x == y
  {
    var s := e + "_" + x;
    NoneAfter(e, x, m);
    NoneAfter(f, y, n);
    assert s[|e|] == '_' && (f + "_" + y)[|f|] == '_';
    assert |e| == |f|;
    assert s[..|e|] == e && (f + "_" + y)[..|f|] == f;
    assert s[|e| + 1..] == x && (f + "_" + y)[|f| + 1..] == y;
  }

  lemma NoneAfter(e: string, x: string, n: nat)
    requires x == Decimal(n)
    ensures forall i | |e| < i < |e + "_" + x| :: (e + "_" + x)[i] != '_'
  {
    DecimalHasNoUnderscore(n);
    assert forall i | |e| < i < |e + "_" + x| :: (e + "_" + x)[i] == x[i - |e| - 1];
  }

  /** A tag is what `TAG` matches, whole, and it is written in the characters `_OPEN_TAG` knows. */
  lemma TagIsTag(d: DigitClass, e: string, n: nat)
    requires EntityName(e)
    ensures Visibility.TagLen(d, TagOf(e, n)) == |TagOf(e, n)| > 0
    ensures forall i | 0 < i < |TagOf(e, n)| - 1 :: Visibility.NameChar(TagOf(e, n)[i])
  {
    var b := e + "_" + Decimal(n);
    var t := TagOf(e, n);
    DecimalHasNoUnderscore(n);
    DecimalDigits(d, n);
    assert t[1..|t| - 1] == b;
    assert forall i | |e| < i < |b| :: b[i] == Decimal(n)[i - |e| - 1];
    assert Visibility.NameAndNumber(d, b, |e|);
    assert forall i | 0 <= i < |b| :: Visibility.NameChar(b[i]) && t[i + 1] == b[i];
    Visibility.IndexOfFirst(t, Visibility.CLOSE, |t| - 1);
  }

  // ---------------------------------------------------------------- what the run of all spans leaves behind

  /** The value a key was first seen with. */
  function FirstValue(d: DigitClass, lower: string -> string, spans: seq<Span>, key: Key): string {
    if spans == [] then ""
    else if KeyOf(d, lower, spans[0]) == key then spans[0].value
    else FirstValue(d, lower, spans[1..], key)
  }

  predicate Seen(d: DigitClass, lower: string -> string, spans: seq<Span>, key: Key) {
    exists k :: 0 <= k < |spans| && KeyOf(d, lower, spans[k]) == key
  }

  lemma {:induction false} FirstValueStays(d: DigitClass, lower: string -> string, spans: seq<Span>, s: Span, key: Key)
    ensures FirstValue(d, lower, spans + [s], key) ==
            if Seen(d, lower, spans, key) then FirstValue(d, lower, spans, key)
            else if KeyOf(d, lower, s) == key then s.value else ""
  {
    hide KeyOf;
    if spans == [] {
      assert FirstValue(d, lower, [s][1..], key) == "";
    } else {
      assert (spans + [s])[1..] == spans[1..] + [s];
      FirstValueStays(d, lower, spans[1..], s, key);
      assert Seen(d, lower, spans, key) <==>
             KeyOf(d, lower, spans[0]) == key || Seen(d, lower, spans[1..], key) by { SeenHead(d, lower, spans, key); }
    }
  }

  lemma SeenHead(d: DigitClass, lower: string -> string, spans: seq<Span>, key: Key)
    requires spans != []
    ensures Seen(d, lower, spans, key) <==> KeyOf(d, lower, spans[0]) == key || Seen(d, lower, spans[1..], key)
  {
    hide KeyOf;
    if Seen(d, lower, spans[1..], key) {
      var k :| 0 <= k < |spans[1..]| && KeyOf(d, lower, spans[1..][k]) == key;
      assert spans[k + 1] == spans[1..][k];
    }
    if Seen(d, lower, spans, key) && KeyOf(d, lower, spans[0]) != key {
      var k :| 0 <= k < |spans| && KeyOf(d, lower, spans[k]) == key;
      assert spans[1..][k - 1] == spans[k];
    }
  }

  lemma SeenSnoc(d: DigitClass, lower: string -> string, spans: seq<Span>, s: Span, key: Key)
    ensures Seen(d, lower, spans + [s], key) <==> Seen(d, lower, spans, key) || KeyOf(d, lower, s) == key
  {
    hide KeyOf;
    var all := spans + [s];
    if Seen(d, lower, spans, key) {
      var k :| 0 <= k < |spans| && KeyOf(d, lower, spans[k]) == key;
      assert all[k] == spans[k];
    }
    assert all[|spans|] == s;
  }

  /** The keys tagged are the keys seen, each under a tag of its entity with a number given out so far. */
  ghost predicate TagsNumbered(d: DigitClass, lower: string -> string, spans: seq<Span>, st: State) {
    forall key :: key in st.tags <==> Seen(d, lower, spans, key)
  }

  ghost predicate Numbered(st: State) {
    forall key | key in st.tags ::
      exists n :: 1 <= n <= CountOf(st.numbers, key.0) && st.tags[key] == TagOf(key.0, n)
  }

  /** No two keys share a tag. */
  ghost predicate TagsInjective(st: State) {
    forall a, b | a in st.tags && b in st.tags && st.tags[a] == st.tags[b] :: a == b
  }

  /** What is held: the tags of the kept entities, each with the value its key was first seen with, and nothing else. */
  ghost predicate HoldsFirstValues(d: DigitClass, lower: string -> string, policy: Policy, spans: seq<Span>,
                                   st: State) {
    && (forall key | key in st.tags ::
          if Keeps(policy, key.0)
          then st.tags[key] in st.values && st.values[st.tags[key]] == FirstValue(d, lower, spans, key)
          else st.tags[key] !in st.values)
    && (forall t | t in st.values :: exists key :: key in st.tags && st.tags[key] == t)
  }

  function EntityCount(spans: seq<Span>, entity: string): nat {
    if spans == [] then 0
    else EntityCount(spans[..|spans| - 1], entity) + if spans[|spans| - 1].entity == entity then 1 else 0
  }

  lemma {:induction false} AllTagged(d: DigitClass, lower: string -> string, policy: Policy, spans: seq<Span>)
    ensures var st := TagAll(d, lower, policy, spans);
            && TagsNumbered(d, lower, spans, st)
            && Numbered(st)
            && TagsInjective(st)
            && HoldsFirstValues(d, lower, policy, spans, st)
  {
    hide TagsNumbered, Numbered, TagsInjective, HoldsFirstValues, TagSpan;
    if spans == [] {
      NothingTagged(d, lower, policy);
    } else {
      var front, s := spans[..|spans| - 1], spans[|spans| - 1];
      assert spans == front + [s];
      AllTagged(d, lower, policy, front);
      var st := TagAll(d, lower, policy, front);
      if KeyOf(d, lower, s) in st.tags {
        SeenAgain(d, lower, policy, front, st, s);
      } else {
        FreshTag(d, lower, st, s);
        SeenFirst(d, lower, policy, front, st, s);
        SeenFirstHolds(d, lower, policy, front, st, s);
      }
    }
  }

  lemma NothingTagged(d: DigitClass, lower: string -> string, policy: Policy)
    ensures TagsNumbered(d, lower, [], NOTHING) && Numbered(NOTHING) && TagsInjective(NOTHING)
    ensures HoldsFirstValues(d, lower, policy, [], NOTHING)
  {}

  /** A number not given out yet makes a tag not given out yet. */
  lemma FreshTag(d: DigitClass, lower: string -> string, st: State, s: Span)
    requires Numbered(st)
    ensures var tag := TagOf(s.entity, CountOf(st.numbers, s.entity) + 1);
            forall key | key in st.tags :: st.tags[key] != tag
  {
    hide TagOf;
    var n := CountOf(st.numbers, s.entity) + 1;
    forall key | key in st.tags
      ensures st.tags[key] != TagOf(s.entity, n)
    {
      var m :| 1 <= m <= CountOf(st.numbers, key.0) && st.tags[key] == TagOf(key.0, m);
      if TagOf(key.0, m) == TagOf(s.entity, n) {
        TagInjective(key.0, m, s.entity, n);
      }
    }
  }

  lemma SeenAgain(d: DigitClass, lower: string -> string, policy: Policy, front: seq<Span>, st: State, s: Span)
    requires TagsNumbered(d, lower, front, st) && Numbered(st) && TagsInjective(st)
    requires HoldsFirstValues(d, lower, policy, front, st) && KeyOf(d, lower, s) in st.tags
    ensures var next := TagSpan(d, lower, policy, st, s);
            && TagsNumbered(d, lower, front + [s], next) && Numbered(next) && TagsInjective(next)
            && HoldsFirstValues(d, lower, policy, front + [s], next)
  {
    hide KeyOf, TagOf, FirstValue, Seen;
    forall key
      ensures Seen(d, lower, front + [s], key) <==> Seen(d, lower, front, key) || KeyOf(d, lower, s) == key
      ensures key in st.tags ==> FirstValue(d, lower, front + [s], key) == FirstValue(d, lower, front, key)
    {
      SeenSnoc(d, lower, front, s, key);
      FirstValueStays(d, lower, front, s, key);
    }
  }

  lemma SeenFirst(d: DigitClass, lower: string -> string, policy: Policy, front: seq<Span>, st: State, s: Span)
    requires TagsNumbered(d, lower, front, st) && Numbered(st) && TagsInjective(st) && KeyOf(d, lower, s) !in st.tags
    requires forall key | key in st.tags :: st.tags[key] != TagOf(s.entity, CountOf(st.numbers, s.entity) + 1)
    ensures var next := TagSpan(d, lower, policy, st, s);
            TagsNumbered(d, lower, front + [s], next) && Numbered(next) && TagsInjective(next)
  {
    hide TagOf, Seen, Normalise.SameForm, Numbered;
    var next := TagSpan(d, lower, policy, st, s);
    forall key
      ensures key in next.tags <==> Seen(d, lower, front + [s], key)
    {
      SeenSnoc(d, lower, front, s, key);
    }
    NextNumber(st, next, KeyOf(d, lower, s));
  }

  lemma NextNumber(st: State, next: State, key: Key)
    requires Numbered(st) && next.numbers == st.numbers[key.0 := CountOf(st.numbers, key.0) + 1]
    requires next.tags == st.tags[key := TagOf(key.0, CountOf(st.numbers, key.0) + 1)]
    ensures Numbered(next)
  {
    hide TagOf;
    forall other | other in next.tags
      ensures exists n :: 1 <= n <= CountOf(next.numbers, other.0) && next.tags[other] == TagOf(other.0, n)
    {
      if other == key {
        assert next.tags[key] == TagOf(key.0, CountOf(next.numbers, key.0));
      } else {
        var n :| 1 <= n <= CountOf(st.numbers, other.0) && st.tags[other] == TagOf(other.0, n);
        assert n <= CountOf(next.numbers, other.0);
      }
    }
  }

  lemma SeenFirstHolds(d: DigitClass, lower: string -> string, policy: Policy, front: seq<Span>, st: State, s: Span)
    requires TagsNumbered(d, lower, front, st) && HoldsFirstValues(d, lower, policy, front, st)
    requires KeyOf(d, lower, s) !in st.tags
    requires forall key | key in st.tags :: st.tags[key] != TagOf(s.entity, CountOf(st.numbers, s.entity) + 1)
    ensures HoldsFirstValues(d, lower, policy, front + [s], TagSpan(d, lower, policy, st, s))
  {
    hide TagOf, Seen, FirstValue, Normalise.SameForm;
    var next := TagSpan(d, lower, policy, st, s);
    forall key | key in next.tags
      ensures FirstValue(d, lower, front + [s], key)
              == if key in st.tags then FirstValue(d, lower, front, key) else s.value
    {
      FirstValueStays(d, lower, front, s, key);
    }
    var key := KeyOf(d, lower, s);
    var tag := TagOf(s.entity, CountOf(st.numbers, s.entity) + 1);
    assert next.tags[key] == tag;
    forall t | t in next.values
      ensures exists k :: k in next.tags && next.tags[k] == t
    {
      if t in st.values {
        var k :| k in st.tags && st.tags[k] == t;
        assert next.tags[k] == t;
      }
    }
  }

  /** `found` counts every span replaced, by entity. */
  lemma {:induction false} FoundCounts(d: DigitClass, lower: string -> string, policy: Policy, spans: seq<Span>,
                                       entity: string)
    ensures CountOf(TagAll(d, lower, policy, spans).found, entity) == EntityCount(spans, entity)
  {
    hide KeyOf, TagOf;
    if spans != [] {
      FoundCounts(d, lower, policy, spans[..|spans| - 1], entity);
    }
  }

  /** One entity, and one value once gaps and country codes are gone and the letters are small. */
  ghost predicate SameThing(d: DigitClass, lower: string -> string, s: Span, t: Span) {
    s.entity == t.entity && lower(Normalise.SameForm(d, s.value)) == lower(Normalise.SameForm(d, t.value))
  }

  lemma KeysAgree(d: DigitClass, lower: string -> string, s: Span, t: Span)
    ensures KeyOf(d, lower, s) == KeyOf(d, lower, t) <==> SameThing(d, lower, s, t)
    ensures KeyOf(d, lower, s).0 == s.entity
  {}

  /** What has been numbered of an entity. */
  ghost function KeysOfEntity(st: State, entity: string): set<Key> { set key | key in st.tags && key.0 == entity }

  /** An entity's numbers are given out one by one: the next new value of it gets the number after those it has, and a
      value seen before keeps its tag. */
  lemma {:induction false} NumberedInTurn(d: DigitClass, lower: string -> string, policy: Policy, spans: seq<Span>,
                                          s: Span)
    ensures var st, next := TagAll(d, lower, policy, spans), TagAll(d, lower, policy, spans + [s]);
            var key := KeyOf(d, lower, s);
            && key in next.tags
            && (key in st.tags ==> next.tags[key] == st.tags[key])
            && (key !in st.tags ==> next.tags[key] == TagOf(s.entity, |KeysOfEntity(st, s.entity)| + 1))
            && forall other <- st.tags :: other in next.tags && next.tags[other] == st.tags[other]
  {
    hide TagOf, Normalise.SameForm, KeyOf;
    KeysAgree(d, lower, s, s);
    assert (spans + [s])[..|spans|] == spans;
    NumbersCount(d, lower, policy, spans, s.entity);
  }

  lemma {:induction false} NumbersCount(d: DigitClass, lower: string -> string, policy: Policy, spans: seq<Span>,
                                        entity: string)
    ensures var st := TagAll(d, lower, policy, spans); CountOf(st.numbers, entity) == |KeysOfEntity(st, entity)|
    decreases |spans|
  {
    hide TagOf, Normalise.SameForm, KeyOf, Keeps;
    if spans == [] {
      assert KeysOfEntity(NOTHING, entity) == {};
    } else {
      var front, s := spans[..|spans| - 1], spans[|spans| - 1];
      NumbersCount(d, lower, policy, front, entity);
      var st, next := TagAll(d, lower, policy, front), TagAll(d, lower, policy, spans);
      var key := KeyOf(d, lower, s);
      KeysAgree(d, lower, s, s);
      if key !in st.tags && s.entity == entity {
        assert KeysOfEntity(next, entity) == KeysOfEntity(st, entity) + {key};
      } else {
        assert KeysOfEntity(next, entity) == KeysOfEntity(st, entity);
      }
    }
  }

  /** Two spans of a run share a tag exactly when their entity and normalised value agree. */
  lemma SameTagSameKey(d: DigitClass, lower: string -> string, policy: Policy, spans: seq<Span>, j: nat, k: nat)
    requires j < |spans| && k < |spans|
    ensures var tags := TagAll(d, lower, policy, spans).tags;
            var a, b := KeyOf(d, lower, spans[j]), KeyOf(d, lower, spans[k]);
            a in tags && b in tags && (tags[a] == tags[b] <==> SameThing(d, lower, spans[j], spans[k]))
  {
    hide KeyOf, TagAll, SameThing;
    KeysAgree(d, lower, spans[j], spans[k]);
    AllTagged(d, lower, policy, spans);
    assert Seen(d, lower, spans, KeyOf(d, lower, spans[j])) && Seen(d, lower, spans, KeyOf(d, lower, spans[k]));
  }

  /** Every tag given is a tag, and everything held is held under one written in `[a-z0-9_]`, so the stream never
      shows half of it. */
  lemma HeldTagsArePlain(d: DigitClass, lower: string -> string, policy: Policy, spans: seq<Span>)
    requires forall k | 0 <= k < |spans| :: EntityName(spans[k].entity)
    ensures var st := TagAll(d, lower, policy, spans);
            && Visibility.PlainTags(d, st.values)
            && forall key | key in st.tags ::
                 Visibility.TagLen(d, st.tags[key]) == |st.tags[key]| > 0 && st.tags[key][0] == Visibility.OPEN
  {
    hide TagAll, TagOf, EntityName, Normalise.SameForm, Visibility.TagLen;
    var st := TagAll(d, lower, policy, spans);
    AllTagged(d, lower, policy, spans);
    forall key | key in st.tags
      ensures Visibility.TagLen(d, st.tags[key]) == |st.tags[key]| > 0 && st.tags[key][0] == Visibility.OPEN
      ensures forall i | 0 < i < |st.tags[key]| - 1 :: Visibility.NameChar(st.tags[key][i])
    {
      var k :| 0 <= k < |spans| && KeyOf(d, lower, spans[k]) == key;
      var n :| 1 <= n <= CountOf(st.numbers, key.0) && st.tags[key] == TagOf(key.0, n);
      TagIsTag(d, key.0, n);
    }
  }
}
