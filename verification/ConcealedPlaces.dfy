/** Which held values are always hidden wherever they stand: those that cannot overlap themselves. */
module ConcealedPlaces {
  import opened Text
  import opened Sorting
  import opened Normalise
  import opened Conceal
  import Visibility

  /** What the patterns rely on: digits are word characters, and characters equal up to case are word characters or not
      alike. */
  ghost predicate Alphabet(d: DigitClass, a: Letters) {
    && (forall c :: d(c) ==> a.word(c))
    && (forall c :: a.same(c, c))
    && (forall b, c | a.same(b, c) :: a.word(b) == a.word(c))
    && a.word('a') && !d('a')
  }

  /** What `conceal` replaces in a text, as `Conceal.ConcealText` promises it. */
  ghost predicate Replaces(d: DigitClass, a: Letters, values: Visibility.Held, order: seq<string>, text: string,
                           picks: seq<Pick>) {
    && Distinct(order) && (forall t :: t in values <==> t in order)
    && InOrder(text, picks) && Greedy(order, Found(d, a, values, text, order), picks)
  }

  /** Something replaced lies across the characters `s` to `e` of the shadow. */
  ghost predicate Hidden(d: DigitClass, text: string, picks: seq<Pick>, s: int, e: int) {
    && 0 <= s < e <= |Join(d, text).offsets|
    && var (lo, hi) := Join(d, text).MapToOriginal(s, e);
       exists j :: 0 <= j < |picks| && picks[j].start < hi && lo < picks[j].end
  }

  /** In some text the value stands twice, the second time from within the first. */
  ghost predicate OverlapsItself(d: DigitClass, a: Letters, value: string) {
    exists text, s, e, x, y ::
      && IsEcho(d, a, value, Join(d, text).text, s, e) && IsEcho(d, a, value, Join(d, text).text, x, y) && s < x < e
  }

  // ---------------------------------------------------------------- a value that cannot overlap itself

  lemma AlwaysHidden(d: DigitClass, a: Letters, values: Visibility.Held, order: seq<string>, text: string,
                     picks: seq<Pick>, tag: string, s: int, e: int)
    requires Replaces(d, a, values, order, text, picks) && tag in values && !OverlapsItself(d, a, values[tag])
    requires IsEcho(d, a, values[tag], Join(d, text).text, s, e)
    ensures Hidden(d, text, picks, s, e)
  {
    hide IsEcho, Join, Greedy, Found, InOrder, Distinct, Settled, EchoOf;
    EveryPlaceCaught(d, a, values, text, order, picks, tag, s, e);
    JoinLengths(d, text);
    EchoesAreIn(d, a, values[tag], Join(d, text).text);
    var p: Pick :| p.tag == tag && EchoOf(d, a, values, text, p) && Settled(order, picks, p)
                   && p.start <= Join(d, text).offsets[s] < p.end;
    var from, till := PlaceOf(d, a, values, text, p);
    if from < s {
      OffsetsAscend(d, text, from, till - 1, till - 1);
      BeforeEnd(d, text, s, till);
    } else {
      NotAfter(d, text, from, s);
      StartIsHidden(d, order, text, picks, p, s, e);
    }
  }

  lemma PlaceOf(d: DigitClass, a: Letters, values: Visibility.Held, text: string, p: Pick) returns (s: int, e: int)
    requires EchoOf(d, a, values, text, p)
    ensures p.tag in values
    ensures IsEcho(d, a, values[p.tag], Join(d, text).text, s, e) && 0 <= s < e <= |Join(d, text).offsets|
    ensures (p.start, p.end) == Join(d, text).MapToOriginal(s, e)
  {
    hide Join, IsEcho;
    EchoesAreIn(d, a, values[p.tag], Join(d, text).text);
    s, e :| IsEcho(d, a, values[p.tag], Join(d, text).text, s, e) && 0 <= s < e <= |Join(d, text).offsets|
            && (p.start, p.end) == Join(d, text).MapToOriginal(s, e);
  }

  lemma BeforeEnd(d: DigitClass, text: string, s: int, till: int)
    requires 0 <= s < |Join(d, text).offsets| && 0 < till <= |Join(d, text).offsets|
    requires Join(d, text).offsets[s] < Join(d, text).offsets[till - 1] + 1
    ensures s < till
  {
    if s >= till {
      OffsetsRise(d, text, till - 1, s);
    }
  }

  lemma OffsetsRise(d: DigitClass, text: string, i: int, j: int)
    requires 0 <= i < |Join(d, text).offsets| && 0 <= j < |Join(d, text).offsets|
    ensures i < j <==> Join(d, text).offsets[i] < Join(d, text).offsets[j]
  {}

  lemma NotAfter(d: DigitClass, text: string, from: int, s: int)
    requires 0 <= s <= from < |Join(d, text).offsets| && Join(d, text).offsets[from] <= Join(d, text).offsets[s]
    ensures from == s
  {
    OffsetsRise(d, text, s, from);
  }

  /** Where the stretch over a place starts with it, something replaced lies across its first character. */
  lemma StartIsHidden(d: DigitClass, order: seq<string>, text: string, picks: seq<Pick>, p: Pick, s: int, e: int)
    requires 0 <= s < e <= |Join(d, text).offsets| && p.start == Join(d, text).offsets[s] < p.end
    requires Settled(order, picks, p)
    ensures Hidden(d, text, picks, s, e)
  {
    hide JoinBy;
    OffsetsAscend(d, text, s, e - 1, e - 1);
    if p in picks {
      var j :| 0 <= j < |picks| && picks[j] == p;
    } else {
      var j :| 0 <= j < |picks| && Overlap(picks[j], p) && Outranks(order, picks[j], p);
      assert picks[j].start <= p.start;
    }
  }

  // ---------------------------------------------------------------- what is replaced in a text

  lemma {:induction false} TakenSoFar(text: string, order: seq<string>, found: seq<Pick>, i: nat)
    returns (picks: seq<Pick>)
    requires InText(text, order, found) && i <= |found|
    ensures Taken(text, order, found, i, picks) && InOrder(text, picks)
  {
    hide InText, Taken, InOrder;
    if i == 0 {
      NothingTaken(text, order, found);
      return [];
    }
    var before := TakenSoFar(text, order, found, i - 1);
    FoundInText(text, order, found, i - 1);
    if found[i - 1].start < EndOf(before) {
      LastOverlaps(text, order, found, i - 1, before);
      return before;
    }
    UptoSnoc(text, before, found[i - 1]);
    TakenNext(text, order, found, i - 1, before);
    return before + [found[i - 1]];
  }

  lemma ReplacesSome(d: DigitClass, a: Letters, values: Visibility.Held, order: seq<string>, text: string)
    returns (picks: seq<Pick>)
    requires Distinct(order) && forall t :: t in values <==> t in order
    ensures Replaces(d, a, values, order, text, picks)
  {
    hide EchoOf, Found, InOrder, Order, Taken, Ranked, Distinct, Greedy, TotalPreorder, SortedBy, Across;
    var found := Found(d, a, values, text, order);
    FoundAreEchoes(d, a, values, text, order);
    OrderIsTotal(order);
    var sorted := StableSort(found, Order());
    SortedAsRanked(d, a, values, text, order);
    SortedSameElements(found, Order());
    forall k | 0 <= k < |sorted|
      ensures sorted[k].tag in order && 0 <= sorted[k].start < sorted[k].end <= |text|
    {
      assert sorted[k] in found;
      EchoReads(d, a, values, text, sorted[k]);
    }
    picks := TakenSoFar(text, order, sorted, |sorted|);
    TakenOfAll(text, order, found, sorted, picks);
  }

  // ---------------------------------------------------------------- a value that overlaps itself

  /** The value twice over, `k` characters apart. */
  ghost predicate TwiceOver(d: DigitClass, a: Letters, value: string, u: string, k: nat) {
    && 0 < k < |value| && |u| == k + |value| && NationalPart(d, value).None?
    && !a.word(u[k - 1]) && !a.word(u[|value|])
    && forall i | 0 <= i < |value| :: a.same(u[i], value[i]) && a.same(u[k + i], value[i])
  }

  /** A number with a code in front is all of one piece. */
  lemma NationalIsWhole(d: DigitClass, a: Letters, value: string, t: string, s: int, e: int)
    requires Alphabet(d, a) && NationalPart(d, value).Some? && IsEcho(d, a, value, t, s, e)
    ensures forall i | s <= i < e :: t[i] == '+' || a.word(t[i])
  {
    NationalDigits(d, value);
    hide NationalPart, CountryCode;
    var code := t[s..e - NATIONAL_DIGITS];
    CodeIsWhole(d, a, code);
    forall i | s <= i < e
      ensures t[i] == '+' || a.word(t[i])
    {
      if i < e - NATIONAL_DIGITS {
        assert t[i] == code[i - s];
      } else {
        assert t[i] == t[e - NATIONAL_DIGITS..e][i - (e - NATIONAL_DIGITS)];
      }
    }
  }

  lemma CodeIsWhole(d: DigitClass, a: Letters, code: string)
    requires Alphabet(d, a) && CountryCode(d, code)
    ensures forall i | 0 <= i < |code| :: code[i] == '+' || a.word(code[i])
  {
    assert d('0');
  }

  lemma NationalIsApart(d: DigitClass, a: Letters, value: string, t: string, s: int, e: int, x: int, y: int)
    requires Alphabet(d, a) && NationalPart(d, value).Some?
    requires IsEcho(d, a, value, t, s, e) && IsEcho(d, a, value, t, x, y)
    ensures !(s < x < e)
  {
    hide NationalPart;
    NationalIsWhole(d, a, value, t, s, e);
  }

  lemma NationalDigits(d: DigitClass, value: string)
    requires NationalPart(d, value).Some?
    ensures forall i | 0 <= i < |NationalPart(d, value).value| :: d(NationalPart(d, value).value[i])
  {}

  lemma OverlapIsTwice(d: DigitClass, a: Letters, value: string, t: string, s: int, e: int, x: int, y: int)
    requires Alphabet(d, a) && IsEcho(d, a, value, t, s, e) && IsEcho(d, a, value, t, x, y) && s < x < e
    ensures 0 <= s < y <= |t| && TwiceOver(d, a, value, t[s..y], x - s)
  {
    if NationalPart(d, value).Some? {
      NationalIsApart(d, a, value, t, s, e, x, y);
    }
    hide NationalPart;
    var u := t[s..y];
    assert u[x - s - 1] == t[x - 1] && u[|value|] == t[e];
    forall i | 0 <= i < |value|
      ensures a.same(u[i], value[i]) && a.same(u[x - s + i], value[i])
    {
      assert u[i] == t[s + i] && u[x - s + i] == t[x + i];
    }
  }

  /** A text whose shadow is the value twice over. */
  lemma TextTwiceOver(d: DigitClass, a: Letters, value: string) returns (text: string, k: nat)
    requires Alphabet(d, a) && OverlapsItself(d, a, value)
    ensures TwiceOver(d, a, value, Join(d, text).text, k)
  {
    hide IsEcho, TwiceOver, Alphabet, JoinBy;
    var whole, s, e, x, y :| IsEcho(d, a, value, Join(d, whole).text, s, e)
                             && IsEcho(d, a, value, Join(d, whole).text, x, y) && s < x < e;
    OverlapIsTwice(d, a, value, Join(d, whole).text, s, e, x, y);
    JoinLengths(d, whole);
    JoinOfSlice(d, DEFAULT_GAP, whole, s, y);
    var (lo, hi) := Join(d, whole).MapToOriginal(s, y);
    text, k := whole[lo..hi], x - s;
  }

  // ---------------------------------------------------------------- something in front

  ghost predicate NoDigits(d: DigitClass, s: string) { forall i | 0 <= i < |s| :: !d(s[i]) }

  /** What holds no digit does not change what is joined after it. */
  lemma JoinBehind(d: DigitClass, front: string, rest: string)
    requires NoDigits(d, front) && rest != ""
    ensures Join(d, front + rest).text == front + Join(d, rest).text
  {
    hide GapLen, Left, Offsets, KeptAt;
    var all, g, n := front + rest, DEFAULT_GAP, |front|;
    NothingJoined(d, g, all);
    NoGapsInFront(d, g, front, rest);
    OffsetsRun(d, g, all, 0, n);
    LastIsKept(d, g, all);
    KeptIs(d, g, all, n);
    assert all[n..|all|] == rest;
    OffsetsOfSlice(d, g, all, n, |all|, |rest|);
    OffsetsOfSlice(d, g, all, n, |all|, 0);
    var offsets, own := Offsets(d, g, all, |all|), Offsets(d, g, rest, |rest|);
    assert offsets == Range(0, n) + Shift(own, n);
    forall i | 0 <= i < |offsets|
      ensures all[offsets[i]] == if i < n then front[i] else rest[own[i - n]]
    {
      assert offsets[i] == if i < n then i else own[i - n] + n;
    }
  }

  lemma NoGapsInFront(d: DigitClass, g: Gap, front: string, rest: string)
    requires NoDigits(d, front)
    ensures forall i | 0 <= i <= |front| :: GapLen(d, g, front + rest, i) == 0
  {
    hide GapLen;
    var all := front + rest;
    forall i | 0 <= i <= |front|
      ensures GapLen(d, g, all, i) == 0
    {
      assert i > 0 ==> all[i - 1] == front[i - 1];
      assert GapLen(d, g, all, i) > 0 ==> IsGap(d, g, all, i, GapLen(d, g, all, i));
    }
  }

  lemma KeptIs(d: DigitClass, g: Gap, s: string, i: nat)
    ensures KeptAt(d, g, s, i) <==> Left(d, g, s, i) == 0 && GapLen(d, g, s, i) == 0
  {}

  lemma LastIsKept(d: DigitClass, g: Gap, s: string)
    requires s != ""
    ensures KeptAt(d, g, s, |s| - 1)
  {
    hide GapLen, KeptAt, Left;
    if !KeptAt(d, g, s, |s| - 1) {
      var from := GapAround(d, g, s, |s| - 1);
    }
  }

  // ---------------------------------------------------------------- a text in which the value is left standing

  /** As many letters as the value has characters, and the character that parts the value in two. */
  function Before(value: string, c: char): string { seq(|value|, i => 'a') + [c] }

  /** The other value held: what stands before, and the beginning of the value. */
  function Other(value: string, u: string, k: nat): string {
    if 0 < k < |u| then Before(value, u[k - 1]) + u[..if k > 1 then k - 1 else 1] else ""
  }

  ghost predicate Standing(d: DigitClass, a: Letters, value: string, u: string, k: nat, t: string) {
    TwiceOver(d, a, value, u, k) && Alphabet(d, a) && t == Before(value, u[k - 1]) + u
  }

  lemma BeforeIs(d: DigitClass, a: Letters, value: string, u: string, k: nat, t: string)
    requires Standing(d, a, value, u, k, t)
    ensures 0 < k < |value| && |u| == k + |value| && |t| == 2 * |value| + 1 + k
    ensures t[|value|] == u[k - 1] && t[|value| + 1..] == u
    ensures forall i | 0 <= i < |value| :: t[i] == 'a'
    ensures NoDigits(d, Before(value, u[k - 1]))
  {}

  /** The value stands behind what is before it, and again `k` characters on. */
  lemma StandsTwice(d: DigitClass, a: Letters, value: string, u: string, k: nat, t: string)
    requires Standing(d, a, value, u, k, t)
    ensures var n := |value| + 1;
            IsEcho(d, a, value, t, n, n + |value|) && IsEcho(d, a, value, t, n + k, n + k + |value|)
  {
    BeforeIs(d, a, value, u, k, t);
    hide NationalPart, Before;
    var n := |value| + 1;
    assert forall i | 0 <= i < |u| :: t[n + i] == u[i];
  }

  /** Nowhere earlier. */
  lemma NotEarlier(d: DigitClass, a: Letters, value: string, u: string, k: nat, t: string, s: int, e: int)
    requires Standing(d, a, value, u, k, t) && IsEcho(d, a, value, t, s, e)
    ensures s > |value| && e == s + |value|
  {
    BeforeIs(d, a, value, u, k, t);
    hide NationalPart, Before;
    assert a.same(u[k - 1], value[k - 1]) && !a.word(value[k - 1]);
  }

  lemma OtherIs(d: DigitClass, a: Letters, value: string, u: string, k: nat, t: string)
    requires Standing(d, a, value, u, k, t)
    ensures var q := Other(value, u, k);
            && |value| + 1 < |q| <= |value| + 1 + k && 2 * |q| > |t| && q == t[..|q|] && !a.word(t[|q|])
            && |q| < |t| && |q| != |value|
  {
    var q, n := Other(value, u, k), |value| + 1;
    assert t[..n] == Before(value, u[k - 1]);
    assert t[|q|] == u[|q| - n];
    if k == 1 {
      assert a.same(u[0], value[0]) && a.same(u[1 + 0], value[0]);
    }
  }

  /** The other value is no number with a code. */
  lemma OtherIsPlain(d: DigitClass, a: Letters, value: string, u: string, k: nat, t: string)
    requires Standing(d, a, value, u, k, t)
    ensures NationalPart(d, Other(value, u, k)).None?
  {
    var q := Other(value, u, k);
    BeforeIs(d, a, value, u, k, t);
    OtherIs(d, a, value, u, k, t);
    StartsWithLetter(d, q);
  }

  lemma StartsWithLetter(d: DigitClass, q: string)
    requires q != "" && q[0] == 'a'
    ensures NationalPart(d, q).None?
  {
    var g := DEFAULT_GAP;
    assert !IsGap(d, g, q, 0, GapLen(d, g, q, 0));
    FirstKept(d, g, q);
  }

  lemma FirstKept(d: DigitClass, g: Gap, q: string)
    requires q != "" && GapLen(d, g, q, 0) == 0
    ensures JoinBy(d, g, q).text != "" && JoinBy(d, g, q).text[0] == q[0] && JoinBy(d, g, q).offsets[0] == 0
  {
    hide GapLen;
    EveryKeptIsThere(d, g, q, |q|, 0);
    var offsets := Offsets(d, g, q, |q|);
    var i :| 0 <= i < |offsets| && offsets[i] == 0;
    assert offsets[0] <= offsets[i];
  }

  /** It stands at the beginning, and nowhere else from where it ends on. */
  lemma OtherStands(d: DigitClass, a: Letters, value: string, u: string, k: nat, t: string)
    requires Standing(d, a, value, u, k, t)
    ensures var q := Other(value, u, k);
            && IsEcho(d, a, q, t, 0, |q|)
            && forall s, e | IsEcho(d, a, q, t, s, e) :: e == s + |q| && s < |q|
  {
    OtherIs(d, a, value, u, k, t);
    OtherIsPlain(d, a, value, u, k, t);
    hide NationalPart, Other, TwiceOver;
    var q := Other(value, u, k);
    assert forall i | 0 <= i < |q| :: t[i] == t[..|q|][i];
  }

  const VALUE := "v"
  const OTHER := "o"

  /** With both held, the value is found behind the other, the other is replaced, and where the value stands again
      nothing is. */
  lemma LeftStanding(d: DigitClass, a: Letters, value: string, u: string, k: nat, text: string, picks: seq<Pick>)
    requires Standing(d, a, value, u, k, Join(d, text).text)
    requires Replaces(d, a, map[OTHER := Other(value, u, k), VALUE := value], [OTHER, VALUE], text, picks)
    ensures var s := |value| + 1 + k;
            && IsEcho(d, a, value, Join(d, text).text, s, s + |value|)
            && !Hidden(d, text, picks, s, s + |value|)
  {
    hide Join, IsEcho, Standing, Greedy, Found, Other, InOrder, EchoOf, Distinct;
    var t, n, q := Join(d, text).text, |value| + 1, Other(value, u, k);
    var values := map[OTHER := q, VALUE := value];
    var s := n + k;
    StandsTwice(d, a, value, u, k, t);
    OtherIs(d, a, value, u, k, t);
    OtherStands(d, a, value, u, k, t);
    JoinLengths(d, text);
    EchoesAreIn(d, a, value, t);
    var first := OtherIsReplaced(d, a, value, u, k, text, picks);
    forall j | 0 <= j < |picks|
      ensures !(picks[j].start < Join(d, text).offsets[s + |value| - 1] + 1 && Join(d, text).offsets[s] < picks[j].end)
    {
      OnlyTheOther(d, a, value, u, k, text, picks, first, j);
      OffsetsRise(d, text, |q| - 1, s);
    }
  }

  lemma OtherIsReplaced(d: DigitClass, a: Letters, value: string, u: string, k: nat, text: string, picks: seq<Pick>)
    returns (first: nat)
    requires Standing(d, a, value, u, k, Join(d, text).text)
    requires Replaces(d, a, map[OTHER := Other(value, u, k), VALUE := value], [OTHER, VALUE], text, picks)
    ensures var q := Other(value, u, k);
            && first < |picks| && 0 < |q| < |Join(d, text).offsets|
            && (picks[first].start, picks[first].end) == Join(d, text).MapToOriginal(0, |q|)
  {
    hide Join, IsEcho, Standing, Greedy, Found, FoundFor, Other, InOrder, EchoOf, Distinct;
    var t, q := Join(d, text).text, Other(value, u, k);
    var values, order := map[OTHER := q, VALUE := value], [OTHER, VALUE];
    OtherIs(d, a, value, u, k, t);
    OtherStands(d, a, value, u, k, t);
    JoinLengths(d, text);
    var p := FoundOver(d, a, values, text, OTHER, 0, |q|);
    FoundForAreEchoes(d, a, values, text, OTHER);
    var s, e := PlaceOf(d, a, values, text, p);
    if s > 0 { OffsetsRise(d, text, 0, s); }
    FoundOfEach(d, a, values, text, order, OTHER, p);
    forall r | r in picks
      ensures !Outranks(order, r, p)
    {
      PickIsFound(order, Found(d, a, values, text, order), picks, r);
      FoundAreEchoes(d, a, values, text, order);
      NoneOutranks(d, a, value, u, k, text, p, r);
    }
    ChosenWhereNoneOutranks(order, Found(d, a, values, text, order), picks, p);
    first :| first < |picks| && picks[first] == p;
  }

  lemma ChosenWhereNoneOutranks(order: seq<string>, found: seq<Pick>, picks: seq<Pick>, p: Pick)
    requires Greedy(order, found, picks) && p in found
    requires forall r | r in picks :: !Outranks(order, r, p)
    ensures p in picks
  {
    hide Overlap, Outranks;
  }

  /** Nothing found outranks the other value at the beginning of the text. */
  lemma NoneOutranks(d: DigitClass, a: Letters, value: string, u: string, k: nat, text: string, p: Pick, r: Pick)
    requires Standing(d, a, value, u, k, Join(d, text).text)
    requires EchoOf(d, a, map[OTHER := Other(value, u, k), VALUE := value], text, r) && p.tag == OTHER
    requires var q := Other(value, u, k);
             0 < |q| <= |Join(d, text).offsets| && (p.start, p.end) == Join(d, text).MapToOriginal(0, |q|)
    ensures !Outranks([OTHER, VALUE], r, p)
  {
    hide Join, IsEcho, Standing, Other, EchoOf, IndexOf;
    var t, q := Join(d, text).text, Other(value, u, k);
    var values := map[OTHER := q, VALUE := value];
    OtherStands(d, a, value, u, k, t);
    var s, e := PlaceOf(d, a, values, text, r);
    OffsetsRise(d, text, 0, s);
    if r.tag == VALUE {
      NotEarlier(d, a, value, u, k, t, s, e);
      assert s > 0;
    } else {
      assert r.tag == OTHER && e == s + |q|;
      assert s == 0 ==> r == p;
    }
  }

  /** The scan finds the value once. */
  lemma ValueFoundOnce(d: DigitClass, a: Letters, value: string, u: string, k: nat, t: string, i: nat)
    requires Standing(d, a, value, u, k, t) && i < |Echoes(d, a, value, t, 0)|
    ensures Echoes(d, a, value, t, 0)[i] == (|value| + 1, 2 * |value| + 1)
  {
    hide IsEcho, Standing, Echoes, Finds, OverStart;
    var found, n := Echoes(d, a, value, t, 0), |value| + 1;
    EveryPlaceFound(d, a, value, t, 0);
    StandsTwice(d, a, value, u, k, t);
    BeforeIs(d, a, value, u, k, t);
    FindsInARow(d, a, value, t, found, n, n + |value|);
    forall i | 0 <= i < |found|
      ensures n <= found[i].0 && found[i].1 == found[i].0 + |value| && found[i].1 < n + 2 * |value|
    {
      NotEarlier(d, a, value, u, k, t, found[i].0, found[i].1);
      EchoesAreIn(d, a, value, t);
    }
    OnlyOne(found, n, |value|, i);
  }

  lemma FindsInARow(d: DigitClass, a: Letters, value: string, t: string, found: seq<(int, int)>, s: int, e: int)
    requires Finds(d, a, value, t, 0, found) && 0 <= s && IsEcho(d, a, value, t, s, e)
    ensures forall k | 0 <= k < |found| :: IsEcho(d, a, value, t, found[k].0, found[k].1)
    ensures forall j, k | 0 <= j < k < |found| :: found[j].1 <= found[k].0
    ensures OverStart(found, s)
  {
    hide IsEcho, OverStart;
  }

  /** Stretches of one length, none over another and none before `n`, with one over `n` and no room for two. */
  lemma OnlyOne(found: seq<(int, int)>, n: nat, size: nat, i: nat)
    requires OverStart(found, n) && i < |found|
    requires forall i | 0 <= i < |found| :: n <= found[i].0 && found[i].1 == found[i].0 + size < n + 2 * size
    requires forall j, k | 0 <= j < k < |found| :: found[j].1 <= found[k].0
    ensures found[i] == (n, n + size)
  {
    var one :| 0 <= one < |found| && found[one].0 <= n < found[one].1;
    assert found[one].0 == n;
  }

  /** What is found for a tag, the scan found. */
  lemma {:induction false} FoundByScan(d: DigitClass, a: Letters, values: Visibility.Held, text: string,
                                       order: seq<string>, p: Pick) returns (k: nat)
    requires p in Found(d, a, values, text, order)
    ensures p.tag in values && k < |Echoes(d, a, values[p.tag], Join(d, text).text, 0)|
    ensures var found := Echoes(d, a, values[p.tag], Join(d, text).text, 0);
            && 0 <= found[k].0 < found[k].1 <= |Join(d, text).offsets|
            && (p.start, p.end) == Join(d, text).MapToOriginal(found[k].0, found[k].1)
    decreases |order|
  {
    hide Join, Echoes, IsEcho;
    JoinLengths(d, text);
    var front, last := order[..|order| - 1], order[|order| - 1];
    if p in Found(d, a, values, text, front) {
      k := FoundByScan(d, a, values, text, front, p);
    } else {
      var own := FoundFor(d, a, values, text, last);
      EchoesAreIn(d, a, values[last], Join(d, text).text);
      k :| 0 <= k < |own| && own[k] == p;
    }
  }

  /** Nothing is replaced but the other value in front. */
  lemma OnlyTheOther(d: DigitClass, a: Letters, value: string, u: string, k: nat, text: string, picks: seq<Pick>,
                     first: nat, j: nat)
    requires Standing(d, a, value, u, k, Join(d, text).text)
    requires Replaces(d, a, map[OTHER := Other(value, u, k), VALUE := value], [OTHER, VALUE], text, picks)
    requires first < |picks| && j < |picks| && 0 < |Other(value, u, k)| <= |Join(d, text).offsets|
    requires (picks[first].start, picks[first].end) == Join(d, text).MapToOriginal(0, |Other(value, u, k)|)
    ensures j == first
  {
    hide Join, IsEcho, Standing, Other, EchoOf, Greedy, Found, Distinct, Echoes;
    var t, q := Join(d, text).text, Other(value, u, k);
    var values, order := map[OTHER := q, VALUE := value], [OTHER, VALUE];
    assert picks[j] in picks;
    PickIsFound(order, Found(d, a, values, text, order), picks, picks[j]);
    var i := FoundByScan(d, a, values, text, order, picks[j]);
    var at := Echoes(d, a, values[picks[j].tag], t, 0)[i];
    StartsInOther(d, a, value, u, k, t, picks[j].tag, i);
    SharedStart(d, text, at.0, at.1, |q|);
  }

  lemma StartsInOther(d: DigitClass, a: Letters, value: string, u: string, k: nat, t: string, tag: string, i: nat)
    requires Standing(d, a, value, u, k, t)
    requires var values := map[OTHER := Other(value, u, k), VALUE := value];
             tag in values && i < |Echoes(d, a, values[tag], t, 0)|
    ensures var values := map[OTHER := Other(value, u, k), VALUE := value];
            Echoes(d, a, values[tag], t, 0)[i].0 < |Other(value, u, k)|
  {
    hide IsEcho, Standing, Other, Echoes, OverStart;
    var values := map[OTHER := Other(value, u, k), VALUE := value];
    OtherIs(d, a, value, u, k, t);
    OtherStands(d, a, value, u, k, t);
    if tag == VALUE {
      ValueFoundOnce(d, a, value, u, k, t, i);
    } else {
      EveryPlaceFound(d, a, values[tag], t, 0);
    }
  }

  /** What begins within the first `n` characters overlaps them. */
  lemma SharedStart(d: DigitClass, text: string, s: int, e: int, n: int)
    requires 0 <= s < e <= |Join(d, text).offsets| && s < n <= |Join(d, text).offsets|
    ensures Join(d, text).offsets[s] < Join(d, text).offsets[n - 1] + 1
    ensures Join(d, text).offsets[0] < Join(d, text).offsets[e - 1] + 1
  {
    hide Join;
    OffsetsAscend(d, text, 0, s, n - 1);
    OffsetsAscend(d, text, 0, e - 1, e - 1);
  }

  // ---------------------------------------------------------------- exactly which values are always hidden

  /** Whatever else is held and whatever the text, the value is hidden wherever it stands. */
  ghost predicate HiddenEverywhere(d: DigitClass, a: Letters, value: string) {
    forall values, order, text, picks, tag, s, e |
      && Replaces(d, a, values, order, text, picks) && tag in values && values[tag] == value
      && IsEcho(d, a, value, Join(d, text).text, s, e) ::
      Hidden(d, text, picks, s, e)
  }

  lemma HiddenExactly(d: DigitClass, a: Letters, value: string)
    requires Alphabet(d, a)
    ensures HiddenEverywhere(d, a, value) <==> !OverlapsItself(d, a, value)
  {
    hide Replaces, IsEcho, Join, Hidden, OverlapsItself, Alphabet;
    if !OverlapsItself(d, a, value) {
      forall values, order, text, picks, tag, s, e |
        && Replaces(d, a, values, order, text, picks) && tag in values && values[tag] == value
        && IsEcho(d, a, value, Join(d, text).text, s, e)
        ensures Hidden(d, text, picks, s, e)
      {
        AlwaysHidden(d, a, values, order, text, picks, tag, s, e);
      }
    } else {
      SomewhereLeft(d, a, value);
    }
  }

  lemma SomewhereLeft(d: DigitClass, a: Letters, value: string)
    requires Alphabet(d, a) && OverlapsItself(d, a, value)
    ensures !HiddenEverywhere(d, a, value)
  {
    hide Replaces, IsEcho, Join, Hidden, OverlapsItself, Alphabet, TwiceOver, Other, Before;
    var rest, k := TextTwiceOver(d, a, value);
    var u := Join(d, rest).text;
    var front := FrontOf(d, a, value, rest, k);
    var text := front + rest;
    var values, order := map[OTHER := Other(value, u, k), VALUE := value], [OTHER, VALUE];
    var picks := ReplacesSome(d, a, values, order, text);
    LeftStanding(d, a, value, u, k, text, picks);
    assert values[VALUE] == value;
  }

  lemma FrontOf(d: DigitClass, a: Letters, value: string, rest: string, k: nat) returns (front: string)
    requires Alphabet(d, a) && TwiceOver(d, a, value, Join(d, rest).text, k)
    ensures Standing(d, a, value, Join(d, rest).text, k, Join(d, front + rest).text)
  {
    hide JoinBy, NationalPart;
    front := Before(value, Join(d, rest).text[k - 1]);
    JoinLengths(d, rest);
    NothingToJoin(d);
    JoinBehind(d, front, rest);
  }

  lemma NothingToJoin(d: DigitClass)
    ensures Join(d, "").text == ""
  {}

  /** There are such values: "a a" stands twice in "a a a". */
  lemma SomeValueOverlapsItself(d: DigitClass, a: Letters)
    requires Alphabet(d, a) && !a.word(' ')
    ensures OverlapsItself(d, a, "a a") && !HiddenEverywhere(d, a, "a a")
  {
    hide NationalPart, JoinBy, HiddenEverywhere;
    var value, text := "a a", "a a a";
    StartsWithLetter(d, value);
    NothingJoinedWithoutDigits(d, text);
    assert IsEcho(d, a, value, text, 0, 3) && IsEcho(d, a, value, text, 2, 5);
    HiddenExactly(d, a, value);
  }

  lemma NothingJoinedWithoutDigits(d: DigitClass, s: string)
    requires NoDigits(d, s)
    ensures Join(d, s).text == s
  {
    hide GapLen, Left, Offsets;
    NothingJoined(d, DEFAULT_GAP, s);
    NoGapsInFront(d, DEFAULT_GAP, s, "");
    assert s + "" == s;
    OffsetsRun(d, DEFAULT_GAP, s, 0, |s|);
  }
}
