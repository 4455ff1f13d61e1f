/** Held values a provider echoes, swapped back to their tags however they are spaced. */
module Conceal {
  import opened Text
  import opened Sorting
  import opened Normalise
  import Visibility

  /** What the patterns ask of characters beyond digits: `\w`, and equality up to case. */
  datatype Letters = Letters(word: char -> bool, same: (char, char) -> bool)

  /** `(?:\+|00)\d{1,3}`, or nothing */
  predicate CountryCode(d: DigitClass, p: string) {
    || p == ""
    || (2 <= |p| <= 4 && p[0] == '+' && forall i | 1 <= i < |p| :: d(p[i]))
    || (3 <= |p| <= 5 && p[0] == '0' && p[1] == '0' && forall i | 2 <= i < |p| :: d(p[i]))
  }

  predicate WordEndsAt(a: Letters, t: string, e: int) { e >= |t| || (e >= 0 && !a.word(t[e])) }

  /** A match of `_echo(value)` in `t`: the ten national digits with no code, theirs or another, or the value itself. */
  predicate IsEcho(d: DigitClass, a: Letters, value: string, t: string, s: int, e: int) {
    && 0 <= s < e <= |t|
    && WordEndsAt(a, t, e)
    && (s > 0 ==> !a.word(t[s - 1]))
    && match NationalPart(d, value)
       case Some(national) =>
         && (s > 0 ==> t[s - 1] != '+')
         && e - s >= NATIONAL_DIGITS
         && t[e - NATIONAL_DIGITS..e] == national
         && CountryCode(d, t[s..e - NATIONAL_DIGITS])
       case None =>
         && e - s == |value|
         && forall i | 0 <= i < |value| :: a.same(t[s + i], value[i])
  }

  /** A national number is matched with at most five characters before its ten digits. */
  lemma EchoReach(d: DigitClass, a: Letters, value: string, t: string, s: int)
    requires NationalPart(d, value).Some?
    ensures forall e | IsEcho(d, a, value, t, s, e) :: s + NATIONAL_DIGITS <= e <= s + NATIONAL_DIGITS + 5
  {
    hide NationalPart;
  }

  lemma PlainReach(d: DigitClass, a: Letters, value: string, t: string, s: int)
    requires NationalPart(d, value).None?
    ensures forall e | IsEcho(d, a, value, t, s, e) :: e == s + |value|
  {
    hide NationalPart;
  }

  /** The largest length up to `p` that will do. */
  function Longest(fits: int -> bool, p: nat): (r: Option<nat>)
    ensures r.Some? ==> r.value <= p && fits(r.value)
    ensures r.None? ==> forall q | 0 <= q <= p :: !fits(q)
  {
    if fits(p) then Some(p) else if p == 0 then None else Longest(fits, p - 1)
  }

  function FitsAfter(d: DigitClass, a: Letters, value: string, t: string, s: int): int -> bool {
    (p: int) => IsEcho(d, a, value, t, s, s + p + NATIONAL_DIGITS)
  }

  /** Where a match that starts at `s` ends: after the longest country code that will do, or after none. */
  function EchoEnd(d: DigitClass, a: Letters, value: string, t: string, s: int): Option<int> {
    if NationalPart(d, value).None? then
      if IsEcho(d, a, value, t, s, s + |value|) then Some(s + |value|) else None
    else
      match Longest(FitsAfter(d, a, value, t, s), 5)
      case Some(p) => Some(s + p + NATIONAL_DIGITS)
      case None => None
  }

  lemma EchoEndFinds(d: DigitClass, a: Letters, value: string, t: string, s: int)
    ensures var r := EchoEnd(d, a, value, t, s);
            if r.Some? then IsEcho(d, a, value, t, s, r.value) else forall e :: !IsEcho(d, a, value, t, s, e)
  {
    hide IsEcho, NationalPart;
    if NationalPart(d, value).None? {
      PlainReach(d, a, value, t, s);
    } else {
      EchoReach(d, a, value, t, s);
      forall e | IsEcho(d, a, value, t, s, e)
        ensures EchoEnd(d, a, value, t, s).Some?
      {
        assert FitsAfter(d, a, value, t, s)(e - s - NATIONAL_DIGITS);
      }
    }
  }

  /** `_echo(value).finditer(t)` from `from` on: leftmost first, none overlapping. */
  function Echoes(d: DigitClass, a: Letters, value: string, t: string, from: nat): (r: seq<(int, int)>)
    ensures forall k | 0 <= k < |r| :: from <= r[k].0 && IsEcho(d, a, value, t, r[k].0, r[k].1)
    decreases |t| - from
  {
    if from >= |t| then []
    else
      EchoEndFinds(d, a, value, t, from);
      match EchoEnd(d, a, value, t, from)
      case None => Echoes(d, a, value, t, from + 1)
      case Some(e) => [(from, e)] + Echoes(d, a, value, t, e)
  }

  /** Stretches in order, none over another, each the value, and one over the start of every place where it stands. */
  ghost predicate Finds(d: DigitClass, a: Letters, value: string, t: string, from: nat, found: seq<(int, int)>) {
    && (forall k | 0 <= k < |found| :: from <= found[k].0 && IsEcho(d, a, value, t, found[k].0, found[k].1))
    && (forall j, k | 0 <= j < k < |found| :: found[j].1 <= found[k].0)
    && (forall s, e | from <= s && IsEcho(d, a, value, t, s, e) :: OverStart(found, s))
  }

  ghost predicate OverStart(found: seq<(int, int)>, s: int) {
    exists k :: 0 <= k < |found| && found[k].0 <= s < found[k].1
  }

  lemma {:induction false} EveryPlaceFound(d: DigitClass, a: Letters, value: string, t: string, from: nat)
    ensures Finds(d, a, value, t, from, Echoes(d, a, value, t, from))
    decreases |t| - from
  {
    hide IsEcho, Finds;
    EchoesAreIn(d, a, value, t);
    if from >= |t| {
      NothingToFind(d, a, value, t, from);
    } else {
      EchoEndFinds(d, a, value, t, from);
      match EchoEnd(d, a, value, t, from) {
        case None =>
          EveryPlaceFound(d, a, value, t, from + 1);
          NoneFoundHere(d, a, value, t, from, Echoes(d, a, value, t, from + 1));
        case Some(e) =>
          EveryPlaceFound(d, a, value, t, e);
          OneFoundHere(d, a, value, t, from, e, Echoes(d, a, value, t, e));
      }
    }
  }

  lemma NothingToFind(d: DigitClass, a: Letters, value: string, t: string, from: nat)
    requires from >= |t|
    ensures Finds(d, a, value, t, from, [])
  {
    hide IsEcho;
    EchoesAreIn(d, a, value, t);
  }

  lemma NoneFoundHere(d: DigitClass, a: Letters, value: string, t: string, from: nat, rest: seq<(int, int)>)
    requires Finds(d, a, value, t, from + 1, rest) && forall e :: !IsEcho(d, a, value, t, from, e)
    ensures Finds(d, a, value, t, from, rest)
  {
    hide IsEcho, OverStart;
  }

  lemma OneFoundHere(d: DigitClass, a: Letters, value: string, t: string, from: nat, e: int, rest: seq<(int, int)>)
    requires from < e && IsEcho(d, a, value, t, from, e) && Finds(d, a, value, t, e, rest)
    ensures Finds(d, a, value, t, from, [(from, e)] + rest)
  {
    hide IsEcho, OverStart;
    var found := [(from, e)] + rest;
    forall k | 0 <= k < |found|
      ensures from <= found[k].0 && IsEcho(d, a, value, t, found[k].0, found[k].1)
    {
      assert k > 0 ==> found[k] == rest[k - 1];
    }
    InARow((from, e), rest);
    forall s, x | from <= s && IsEcho(d, a, value, t, s, x)
      ensures OverStart(found, s)
    {
      assert s < e || OverStart(rest, s);
      OverStartOfOne((from, e), rest, s);
    }
  }

  lemma InARow(first: (int, int), rest: seq<(int, int)>)
    requires forall k | 0 <= k < |rest| :: first.1 <= rest[k].0
    requires forall j, k | 0 <= j < k < |rest| :: rest[j].1 <= rest[k].0
    ensures var found := [first] + rest; forall j, k | 0 <= j < k < |found| :: found[j].1 <= found[k].0
  {}

  lemma OverStartOfOne(first: (int, int), rest: seq<(int, int)>, s: int)
    ensures first.0 <= s < first.1 || OverStart(rest, s) ==> OverStart([first] + rest, s)
  {
    var found := [first] + rest;
    if first.0 <= s < first.1 {
      assert found[0].0 <= s < found[0].1;
    } else if OverStart(rest, s) {
      var k :| 0 <= k < |rest| && rest[k].0 <= s < rest[k].1;
      assert found[k + 1] == rest[k];
    }
  }

  /** A stretch of the text to be replaced by a tag. */
  datatype Pick = Pick(start: int, end: int, tag: string)

  predicate PickOrder(p: Pick, q: Pick) { p.start < q.start || (p.start == q.start && p.end >= q.end) }

  function Order(): (Pick, Pick) -> bool { (p: Pick, q: Pick) => PickOrder(p, q) }

  /** The same, and of one stretch first the tag held first. */
  function Ranked(order: seq<string>): (Pick, Pick) -> bool {
    (p: Pick, q: Pick) =>
      PickOrder(p, q) && (PickOrder(q, p) ==> IndexOf(order, p.tag) <= IndexOf(order, q.tag))
  }

  /** `p` starts earlier than `q`, or is longer, or is the same stretch under a tag held earlier. */
  predicate Outranks(order: seq<string>, p: Pick, q: Pick) { Ranked(order)(p, q) && !Ranked(order)(q, p) }

  /** The earlier start outranks, then the longer stretch, then the tag held earlier. */
  lemma OutranksBy(order: seq<string>, p: Pick, q: Pick)
    ensures Outranks(order, p, q) <==>
            || p.start < q.start
            || (p.start == q.start && p.end - p.start > q.end - q.start)
            || (p.start == q.start && p.end == q.end && IndexOf(order, p.tag) < IndexOf(order, q.tag))
  {}

  function ToPicks(shadow: Shadow, tag: string, echoes: seq<(int, int)>): seq<Pick>
    requires forall k | 0 <= k < |echoes| :: 0 <= echoes[k].0 < echoes[k].1 <= |shadow.offsets|
  {
    seq(|echoes|, k requires 0 <= k < |echoes| =>
      var (start, end) := shadow.MapToOriginal(echoes[k].0, echoes[k].1);
      Pick(start, end, tag))
  }

  // ---------------------------------------------------------------- what is replaced

  ghost predicate InOrder(text: string, picks: seq<Pick>) {
    && (forall k | 0 <= k < |picks| :: 0 <= picks[k].start < picks[k].end <= |text|)
    && (forall j, k | 0 <= j < k < |picks| :: picks[j].end <= picks[k].start)
  }

  function EndOf(picks: seq<Pick>): int { if picks == [] then 0 else picks[|picks| - 1].end }

  function Upto(text: string, picks: seq<Pick>): string
    requires InOrder(text, picks)
  {
    if picks == [] then ""
    else
      var front, p := picks[..|picks| - 1], picks[|picks| - 1];
      Upto(text, front) + text[EndOf(front)..p.start] + p.tag
  }

  /** The text with each pick's tag in its place, and every other character as it was. */
  function Swapped(text: string, picks: seq<Pick>): string
    requires InOrder(text, picks)
  {
    Upto(text, picks) + text[EndOf(picks)..]
  }

  /** What a pick stands for: an echo, in the shadow of the text, of the value held under its tag. */
  ghost predicate EchoOf(d: DigitClass, a: Letters, values: Visibility.Held, text: string, p: Pick) {
    && p.tag in values
    && exists s: int, e: int ::
         && IsEcho(d, a, values[p.tag], Join(d, text).text, s, e) && e <= |Join(d, text).offsets|
         && (p.start, p.end) == Join(d, text).MapToOriginal(s, e)
  }

  ghost predicate Overlap(p: Pick, q: Pick) { p.start < q.end && q.start < p.end }

  /** `p` is replaced, or overlaps one replaced that outranks it. */
  ghost predicate Settled(order: seq<string>, picks: seq<Pick>, p: Pick) {
    p in picks || exists j :: 0 <= j < |picks| && Overlap(picks[j], p) && Outranks(order, picks[j], p)
  }

  /** Of the echoes found exactly those are replaced that no replaced one outranks and overlaps. */
  ghost predicate Greedy(order: seq<string>, found: seq<Pick>, picks: seq<Pick>) {
    && (forall p <- picks :: p in found)
    && forall p <- found :: p in picks <==> forall q <- picks | Outranks(order, q, p) :: !Overlap(q, p)
  }

  lemma OrderIsTotal(order: seq<string>)
    ensures TotalPreorder(Order()) && TotalPreorder(Ranked(order))
    ensures forall p, q :: (Ranked(order)(p, q) ==> Order()(p, q)) &&
                           (Order()(p, q) && !Order()(q, p) ==> Ranked(order)(p, q))
  {}

  /** An echo is where the text, gaps joined, reads as the value does, and nowhere empty. */
  lemma EchoReads(d: DigitClass, a: Letters, values: Visibility.Held, text: string, p: Pick)
    requires EchoOf(d, a, values, text, p)
    ensures 0 <= p.start < p.end <= |text|
    ensures var shown := Join(d, text[p.start..p.end]).text;
            match NationalPart(d, values[p.tag])
            case Some(national) =>
              var code := |shown| - NATIONAL_DIGITS;
              code >= 0 && shown[code..] == national && CountryCode(d, shown[..code])
            case None => |shown| == |values[p.tag]| && forall i | 0 <= i < |shown| :: a.same(shown[i], values[p.tag][i])
  {
    hide JoinBy, NationalPart, IsEcho, CountryCode;
    JoinLengths(d, text);
    var t := Join(d, text).text;
    assert forall s, e | IsEcho(d, a, values[p.tag], t, s, e) :: 0 <= s < e by { EchoesAreIn(d, a, values[p.tag], t); }
    var s, e :| IsEcho(d, a, values[p.tag], t, s, e) && 0 <= s < e <= |Join(d, text).offsets|
                && (p.start, p.end) == Join(d, text).MapToOriginal(s, e);
    JoinOfSlice(d, DEFAULT_GAP, text, s, e);
    EchoShows(d, a, values[p.tag], t, s, e);
  }

  /** A number held with a code stands wherever its ten digits do: alone, or behind a code of one to three digits. */
  lemma NumberStands(d: DigitClass, a: Letters, value: string, number: string, code: string, x: string, y: string)
    requires NationalPart(d, value) == Some(number) && |number| == NATIONAL_DIGITS
    requires y != "" ==> !a.word(y[0])
    requires x != "" ==> !a.word(x[|x| - 1]) && x[|x| - 1] != '+'
    requires forall i | 0 <= i < |code| :: d(code[i])
    ensures IsEcho(d, a, value, x + number + y, |x|, |x| + |number|)
    ensures 1 <= |code| <= 3 ==>
              && IsEcho(d, a, value, x + ("+" + code + number) + y, |x|, |x| + 1 + |code| + |number|)
              && IsEcho(d, a, value, x + ("00" + code + number) + y, |x|, |x| + 2 + |code| + |number|)
  {
    hide NationalPart, IsEcho;
    NumberAt(d, a, value, number, "", x, y);
    assert "" + number == number;
    NumberAt(d, a, value, number, "+" + code, x, y);
    NumberAt(d, a, value, number, "00" + code, x, y);
  }

  lemma NumberAt(d: DigitClass, a: Letters, value: string, number: string, front: string, x: string, y: string)
    requires NationalPart(d, value) == Some(number) && |number| == NATIONAL_DIGITS
    requires y != "" ==> !a.word(y[0])
    requires x != "" ==> !a.word(x[|x| - 1]) && x[|x| - 1] != '+'
    ensures CountryCode(d, front) ==>
              IsEcho(d, a, value, x + (front + number) + y, |x|, |x| + |front| + |number|)
  {
    hide NationalPart, CountryCode;
    var t, s, e := x + (front + number) + y, |x|, |x| + |front| + |number|;
    assert t[s..e - NATIONAL_DIGITS] == front && t[e - NATIONAL_DIGITS..e] == number;
    assert y != "" ==> t[e] == y[0];
    assert x != "" ==> t[s - 1] == x[|x| - 1];
  }

  /** Any other value stands where it is written, letters equal up to case. */
  lemma ValueStands(d: DigitClass, a: Letters, value: string, shown: string, x: string, y: string)
    requires NationalPart(d, value).None? && value != "" && |shown| == |value|
    requires y != "" ==> !a.word(y[0])
    requires x != "" ==> !a.word(x[|x| - 1])
    requires forall i | 0 <= i < |value| :: a.same(shown[i], value[i])
    ensures IsEcho(d, a, value, x + shown + y, |x|, |x| + |value|)
  {
    hide NationalPart;
    var t := x + shown + y;
    assert forall i | 0 <= i < |value| :: t[|x| + i] == shown[i];
    assert y != "" ==> t[|x| + |value|] == y[0];
    assert x != "" ==> t[|x| - 1] == x[|x| - 1];
  }

  /** It stands nowhere next to a word character, and a number not behind a plus sign. */
  lemma StandsApart(d: DigitClass, a: Letters, value: string, t: string, s: int, e: int)
    requires IsEcho(d, a, value, t, s, e)
    ensures 0 <= s < e <= |t| && (s > 0 ==> !a.word(t[s - 1])) && (e < |t| ==> !a.word(t[e]))
    ensures s > 0 && NationalPart(d, value).Some? ==> t[s - 1] != '+'
  {
    hide NationalPart;
  }

  lemma EchoesAreIn(d: DigitClass, a: Letters, value: string, t: string)
    ensures forall s, e | IsEcho(d, a, value, t, s, e) :: 0 <= s < e <= |t|
  {}

  lemma EchoShows(d: DigitClass, a: Letters, value: string, t: string, s: int, e: int)
    requires IsEcho(d, a, value, t, s, e) && 0 <= s < e <= |t|
    ensures var shown := t[s..e];
            match NationalPart(d, value)
            case Some(national) =>
              var code := |shown| - NATIONAL_DIGITS;
              code >= 0 && shown[code..] == national && CountryCode(d, shown[..code])
            case None => |shown| == |value| && forall i | 0 <= i < |shown| :: a.same(shown[i], value[i])
  {
    hide NationalPart, CountryCode;
    var shown := t[s..e];
    if NationalPart(d, value).Some? {
      assert shown[|shown| - NATIONAL_DIGITS..] == t[e - NATIONAL_DIGITS..e];
      assert shown[..|shown| - NATIONAL_DIGITS] == t[s..e - NATIONAL_DIGITS];
    }
  }

  lemma JoinLengths(d: DigitClass, text: string)
    ensures |Join(d, text).text| == |Join(d, text).offsets|
  {}

  // ---------------------------------------------------------------- the loops

  /** Every echo of the value held under a tag. */
  function FoundFor(d: DigitClass, a: Letters, values: Visibility.Held, text: string, tag: string): seq<Pick> {
    JoinLengths(d, text);
    if tag in values then ToPicks(Join(d, text), tag, Echoes(d, a, values[tag], Join(d, text).text, 0)) else []
  }

  /** Every echo of every held value, tag by tag in the order they are held. */
  function Found(d: DigitClass, a: Letters, values: Visibility.Held, text: string, order: seq<string>): seq<Pick> {
    if order == [] then []
    else Found(d, a, values, text, order[..|order| - 1]) + FoundFor(d, a, values, text, order[|order| - 1])
  }

  lemma FoundForAreEchoes(d: DigitClass, a: Letters, values: Visibility.Held, text: string, tag: string)
    ensures forall k | 0 <= k < |FoundFor(d, a, values, text, tag)| ::
              EchoOf(d, a, values, text, FoundFor(d, a, values, text, tag)[k])
  {
    hide Join, Echoes;
    JoinLengths(d, text);
    var shadow := Join(d, text);
    var picks := FoundFor(d, a, values, text, tag);
    forall k | 0 <= k < |picks|
      ensures EchoOf(d, a, values, text, picks[k])
    {
      var echo := Echoes(d, a, values[tag], shadow.text, 0)[k];
      assert IsEcho(d, a, values[tag], shadow.text, echo.0, echo.1);
      assert (picks[k].start, picks[k].end) == shadow.MapToOriginal(echo.0, echo.1);
    }
  }

  lemma {:induction false} FoundAreEchoes(d: DigitClass, a: Letters, values: Visibility.Held, text: string,
                                          order: seq<string>)
    ensures forall k | 0 <= k < |Found(d, a, values, text, order)| ::
              EchoOf(d, a, values, text, Found(d, a, values, text, order)[k])
  {
    hide FoundFor, EchoOf;
    if order != [] {
      FoundAreEchoes(d, a, values, text, order[..|order| - 1]);
      FoundForAreEchoes(d, a, values, text, order[|order| - 1]);
    }
  }

  lemma UptoSnoc(text: string, picks: seq<Pick>, p: Pick)
    requires InOrder(text, picks) && EndOf(picks) <= p.start < p.end <= |text|
    ensures InOrder(text, picks + [p]) && 0 <= EndOf(picks)
    ensures Upto(text, picks + [p]) == Upto(text, picks) + text[EndOf(picks)..p.start] + p.tag
  {
    assert (picks + [p])[..|picks|] == picks;
    forall k | 0 <= k < |picks|
      ensures picks[k].end <= p.start
    {
      assert k < |picks| - 1 ==> picks[k].end <= picks[|picks| - 1].start;
    }
  }

  ghost predicate Across(picks: seq<Pick>, p: Pick) { exists j :: 0 <= j < |picks| && Overlap(picks[j], p) }

  ghost predicate AmongFirst(found: seq<Pick>, i: nat, p: Pick)
    requires i <= |found|
  {
    exists m :: 0 <= m < i && found[m] == p
  }

  /** What has been taken of the first `i` echoes found: some of them, in order, and across each of the others one that
      outranks it. */
  ghost predicate Taken(text: string, order: seq<string>, found: seq<Pick>, i: nat, picks: seq<Pick>) {
    && i <= |found|
    && InOrder(text, picks)
    && (forall k | 0 <= k < |picks| :: AmongFirst(found, i, picks[k]))
    && (forall k | 0 <= k < i :: Settled(order, picks, found[k]))
  }

  ghost predicate InText(text: string, order: seq<string>, found: seq<Pick>) {
    && SortedBy(found, Ranked(order))
    && forall k | 0 <= k < |found| :: found[k].tag in order && 0 <= found[k].start < found[k].end <= |text|
  }

  /** Of the echoes, longest first at each place, those that start no earlier than the last one taken ends. */
  method TakeApart(text: string, ghost order: seq<string>, found: seq<Pick>)
    returns (out: string, ghost picks: seq<Pick>)
    requires InText(text, order, found)
    ensures Taken(text, order, found, |found|, picks) && out == Swapped(text, picks)
  {
    hide Upto, Taken, InText;
    out, picks := "", [];
    var last := 0;
    NothingTaken(text, order, found);
    for i := 0 to |found|
      invariant Taken(text, order, found, i, picks) && InOrder(text, picks)
      invariant last == EndOf(picks) && 0 <= last <= |text|
      invariant out == Upto(text, picks)
    {
      FoundInText(text, order, found, i);
      if found[i].start < last {
        LastOverlaps(text, order, found, i, picks);
      } else {
        UptoSnoc(text, picks, found[i]);
        TakenNext(text, order, found, i, picks);
        out := out + text[last..found[i].start] + found[i].tag;
        picks := picks + [found[i]];
        last := found[i].end;
      }
    }
    out := out + text[last..];
  }

  lemma NothingTaken(text: string, order: seq<string>, found: seq<Pick>)
    ensures Taken(text, order, found, 0, []) && InOrder(text, []) && Upto(text, []) == ""
  {}

  lemma FoundInText(text: string, order: seq<string>, found: seq<Pick>, i: nat)
    requires InText(text, order, found) && i < |found|
    ensures 0 <= found[i].start < found[i].end <= |text|
  {}

  lemma AmongMore(found: seq<Pick>, i: nat, picks: seq<Pick>)
    requires i < |found| && forall k | 0 <= k < |picks| :: AmongFirst(found, i, picks[k])
    ensures forall k | 0 <= k < |picks| :: AmongFirst(found, i + 1, picks[k])
  {}

  lemma SettledMore(order: seq<string>, picks: seq<Pick>, more: Pick, p: Pick)
    requires Settled(order, picks, p) || p == more
    ensures Settled(order, picks + [more], p)
  {
    hide Overlap, Outranks;
    var all := picks + [more];
    if p == more {
      assert all[|picks|] == p;
    } else if p !in picks {
      var j :| 0 <= j < |picks| && Overlap(picks[j], p) && Outranks(order, picks[j], p);
      assert all[j] == picks[j];
    }
  }

  /** An echo left out starts inside the last one taken, which started no later. */
  lemma LastOverlaps(text: string, order: seq<string>, found: seq<Pick>, i: nat, picks: seq<Pick>)
    requires i < |found| && InText(text, order, found) && Taken(text, order, found, i, picks)
    requires found[i].start < EndOf(picks)
    ensures Taken(text, order, found, i + 1, picks)
  {
    hide InOrder, Settled, AmongFirst;
    FoundInText(text, order, found, i);
    AmongMore(found, i, picks);
    assert picks != [];
    LastIsAcross(text, order, found, i, picks);
  }

  lemma LastIsAcross(text: string, order: seq<string>, found: seq<Pick>, i: nat, picks: seq<Pick>)
    requires i < |found| && InText(text, order, found) && picks != [] && AmongFirst(found, i, picks[|picks| - 1])
    requires 0 <= found[i].start < EndOf(picks)
    ensures Settled(order, picks, found[i])
  {
    var j := |picks| - 1;
    var m :| 0 <= m < i && found[m] == picks[j];
    assert Ranked(order)(found[m], found[i]);
    FoundInText(text, order, found, i);
    assert Overlap(picks[j], found[i]);
    if Ranked(order)(found[i], found[m]) {
      SameRank(order, found[m], found[i]);
      assert picks[j] in picks;
    }
  }

  lemma SameRank(order: seq<string>, p: Pick, q: Pick)
    requires p.tag in order && q.tag in order && Ranked(order)(p, q) && Ranked(order)(q, p)
    ensures p == q
  {
    IndexOfIs(order, p.tag);
    IndexOfIs(order, q.tag);
  }

  lemma IndexOfIs(order: seq<string>, tag: string)
    requires tag in order
    ensures IndexOf(order, tag) < |order| && order[IndexOf(order, tag)] == tag
  {}

  lemma TakenNext(text: string, order: seq<string>, found: seq<Pick>, i: nat, picks: seq<Pick>)
    requires i < |found| && InText(text, order, found) && Taken(text, order, found, i, picks)
    requires InOrder(text, picks + [found[i]])
    ensures Taken(text, order, found, i + 1, picks + [found[i]])
  {
    hide InOrder, Settled, AmongFirst, InText;
    AmongMore(found, i, picks);
    assert AmongFirst(found, i + 1, found[i]) by { AmongItself(found, i); }
    forall k | 0 <= k < i + 1
      ensures Settled(order, picks + [found[i]], found[k])
    {
      SettledMore(order, picks, found[i], found[k]);
    }
  }

  lemma AmongItself(found: seq<Pick>, i: nat)
    requires i < |found|
    ensures AmongFirst(found, i + 1, found[i])
  {}

  /** What `TakeApart` promises is the greedy choice of the echoes before they were sorted. */
  lemma TakenOfAll(text: string, order: seq<string>, found: seq<Pick>, sorted: seq<Pick>, picks: seq<Pick>)
    requires Taken(text, order, sorted, |sorted|, picks) && forall p :: p in sorted <==> p in found
    ensures InOrder(text, picks) && Greedy(order, found, picks)
    ensures forall p | p in found :: Across(picks, p)
  {
    hide Outranks;
    forall p | p in found
      ensures Settled(order, picks, p)
    {
      assert p in sorted;
    }
    forall p <- found
      ensures Across(picks, p)
      ensures p in picks <==> forall q <- picks | Outranks(order, q, p) :: !Overlap(q, p)
    {
      if p in picks {
        TakenAreApart(text, order, picks, p);
      }
    }
  }

  lemma TakenAreApart(text: string, order: seq<string>, picks: seq<Pick>, p: Pick)
    requires InOrder(text, picks) && p in picks
    ensures Across(picks, p) && forall q <- picks | Outranks(order, q, p) :: !Overlap(q, p)
  {
    var k :| 0 <= k < |picks| && picks[k] == p;
    assert Overlap(picks[k], p);
    forall q <- picks | Outranks(order, q, p)
      ensures !Overlap(q, p)
    {
      var j :| 0 <= j < |picks| && picks[j] == q;
      assert j != k;
    }
  }

  // ---------------------------------------------------------------- there is only one such choice

  lemma {:induction false} SameChoice(order: seq<string>, found: seq<Pick>, sorted: seq<Pick>, one: seq<Pick>,
                                      other: seq<Pick>, n: nat)
    requires n <= |sorted| && SortedBy(sorted, Ranked(order)) && forall p :: p in sorted <==> p in found
    requires Greedy(order, found, one) && Greedy(order, found, other)
    ensures forall k | 0 <= k < n :: sorted[k] in one <==> sorted[k] in other
  {
    hide Greedy, Outranks, Ranked, SortedBy;
    if n > 0 {
      SameChoice(order, found, sorted, one, other, n - 1);
      var p := sorted[n - 1];
      assert p in sorted;
      forall q | q in found && Outranks(order, q, p)
        ensures q in one <==> q in other
      {
        var k :| 0 <= k < |sorted| && sorted[k] == q;
        OutranksIsBefore(order, sorted, k, n - 1);
      }
      ChosenAlike(order, found, one, other, p);
    }
  }

  lemma OutranksIsBefore(order: seq<string>, sorted: seq<Pick>, k: nat, n: nat)
    requires SortedBy(sorted, Ranked(order)) && k < |sorted| && n < |sorted|
    ensures Outranks(order, sorted[k], sorted[n]) ==> k < n
  {
    hide Ranked;
    if n < k {
      assert Ranked(order)(sorted[n], sorted[k]);
    }
  }

  lemma ChosenAlike(order: seq<string>, found: seq<Pick>, one: seq<Pick>, other: seq<Pick>, p: Pick)
    requires Greedy(order, found, one) && Greedy(order, found, other) && p in found
    requires forall q | q in found && Outranks(order, q, p) :: q in one <==> q in other
    ensures p in one <==> p in other
  {
    hide Overlap, Outranks;
  }

  ghost predicate SameMembers(one: seq<Pick>, other: seq<Pick>) { forall p :: p in one <==> p in other }

  lemma NoMembers(one: seq<Pick>, other: seq<Pick>)
    requires SameMembers(one, other)
    ensures one == [] <==> other == []
  {
    assert one != [] ==> one[|one| - 1] in one;
    assert other != [] ==> other[|other| - 1] in other;
  }

  lemma {:induction false} SameInOrder(text: string, one: seq<Pick>, other: seq<Pick>)
    requires InOrder(text, one) && InOrder(text, other) && SameMembers(one, other)
    ensures one == other
    decreases |one|
  {
    hide InOrder, SameMembers;
    NoMembers(one, other);
    if one != [] {
      SameLast(text, one, other);
      AllButLast(text, one, other);
      SameInOrder(text, one[..|one| - 1], other[..|other| - 1]);
      assert one == one[..|one| - 1] + [one[|one| - 1]];
      assert other == other[..|other| - 1] + [one[|one| - 1]];
    }
  }

  lemma SameLast(text: string, one: seq<Pick>, other: seq<Pick>)
    requires InOrder(text, one) && InOrder(text, other) && SameMembers(one, other)
    requires one != [] && other != []
    ensures one[|one| - 1] == other[|other| - 1]
  {
    assert one[|one| - 1] in one && other[|other| - 1] in other;
    LastIsLast(text, one, other);
    LastIsLast(text, other, one);
  }

  lemma LastIsLast(text: string, one: seq<Pick>, other: seq<Pick>)
    requires InOrder(text, one) && one != [] && other != [] && other[|other| - 1] in one
    ensures var x, y := one[|one| - 1], other[|other| - 1]; y == x || (y.end <= x.start && y.start < y.end)
  {}

  lemma AllButLast(text: string, one: seq<Pick>, other: seq<Pick>)
    requires InOrder(text, one) && InOrder(text, other) && SameMembers(one, other)
    requires one != [] && other != [] && one[|one| - 1] == other[|other| - 1]
    ensures InOrder(text, one[..|one| - 1]) && InOrder(text, other[..|other| - 1])
    ensures SameMembers(one[..|one| - 1], other[..|other| - 1])
  {
    var a, b := one[..|one| - 1], other[..|other| - 1];
    forall p
      ensures p in a <==> p in b
    {
      NotTheLast(text, one, p);
      NotTheLast(text, other, p);
    }
  }

  lemma NotTheLast(text: string, picks: seq<Pick>, p: Pick)
    requires InOrder(text, picks) && picks != []
    ensures p in picks[..|picks| - 1] <==> p in picks && p != picks[|picks| - 1]
  {
    if p in picks && p != picks[|picks| - 1] {
      var k :| 0 <= k < |picks| && picks[k] == p;
      assert picks[..|picks| - 1][k] == p;
    }
  }

  /** What is replaced, and so what goes out, is fixed by the greedy rule alone. */
  lemma ConcealedOneWay(text: string, order: seq<string>, found: seq<Pick>, one: seq<Pick>, other: seq<Pick>)
    requires InOrder(text, one) && Greedy(order, found, one) && InOrder(text, other) && Greedy(order, found, other)
    ensures one == other
  {
    hide InOrder, Order, Ranked, TotalPreorder;
    OrderIsTotal(order);
    var sorted := StableSort(found, Ranked(order));
    StableSortSorts(found, Ranked(order));
    SortedSameElements(found, Ranked(order));
    SameChoice(order, found, sorted, one, other, |sorted|);
    forall p
      ensures p in one <==> p in other
    {
      if p in found {
        assert p in sorted;
      }
    }
    assert SameMembers(one, other);
    SameInOrder(text, one, other);
  }

  // ---------------------------------------------------------------- the echoes come tag by tag

  /** Of the first `n` tags, those of an earlier one first. */
  ghost predicate TagByTag(order: seq<string>, picks: seq<Pick>, n: nat) {
    && (forall k | 0 <= k < |picks| :: picks[k].tag in order && IndexOf(order, picks[k].tag) < n)
    && (forall j, k | 0 <= j < k < |picks| :: IndexOf(order, picks[j].tag) <= IndexOf(order, picks[k].tag))
  }

  lemma {:induction false} FoundTagByTag(d: DigitClass, a: Letters, values: Visibility.Held, text: string,
                                         order: seq<string>, n: nat)
    requires Distinct(order) && n <= |order|
    ensures TagByTag(order, Found(d, a, values, text, order[..n]), n)
  {
    hide FoundFor, TagByTag, Distinct;
    if n > 0 {
      FoundTagByTag(d, a, values, text, order, n - 1);
      assert order[..n][..n - 1] == order[..n - 1] && order[..n][n - 1] == order[n - 1];
      FoundForHasTag(d, a, values, text, order[n - 1]);
      IndexInDistinct(order, n - 1);
      NextTag(order, Found(d, a, values, text, order[..n - 1]), FoundFor(d, a, values, text, order[n - 1]), n);
    } else {
      NoTag(order);
    }
  }

  lemma NoTag(order: seq<string>)
    ensures TagByTag(order, [], 0)
  {}

  lemma NextTag(order: seq<string>, front: seq<Pick>, own: seq<Pick>, n: nat)
    requires 0 < n <= |order| && TagByTag(order, front, n - 1)
    requires forall k | 0 <= k < |own| :: own[k].tag == order[n - 1]
    requires IndexOf(order, order[n - 1]) == n - 1
    ensures TagByTag(order, front + own, n)
  {
    hide IndexOf;
    var all := front + own;
    forall k | 0 <= k < |all|
      ensures all[k].tag in order && IndexOf(order, all[k].tag) < n
      ensures k >= |front| ==> IndexOf(order, all[k].tag) == n - 1
    {
      assert all[k] == if k < |front| then front[k] else own[k - |front|];
    }
  }

  lemma FoundForHasTag(d: DigitClass, a: Letters, values: Visibility.Held, text: string, tag: string)
    ensures forall k | 0 <= k < |FoundFor(d, a, values, text, tag)| :: FoundFor(d, a, values, text, tag)[k].tag == tag
  {
    hide Join, Echoes;
    JoinLengths(d, text);
  }

  lemma IndexInDistinct(order: seq<string>, i: nat)
    requires Distinct(order) && i < |order|
    ensures IndexOf(order, order[i]) == i && order[i] in order
  {}

  lemma SortedAsRanked(d: DigitClass, a: Letters, values: Visibility.Held, text: string, order: seq<string>)
    requires Distinct(order)
    ensures var found := Found(d, a, values, text, order);
            SortedBy(StableSort(found, Order()), Ranked(order)) && forall k | 0 <= k < |found| :: found[k].tag in order
  {
    hide Found, StableSort, TotalPreorder, SortedBy, IndexOf;
    assert order[..|order|] == order;
    FoundTagByTag(d, a, values, text, order, |order|);
    OrderIsTotal(order);
    var found := Found(d, a, values, text, order);
    forall i, j | 0 <= i < j < |found| && Order()(found[i], found[j])
      ensures Ranked(order)(found[i], found[j])
    {
      assert IndexOf(order, found[i].tag) <= IndexOf(order, found[j].tag);
    }
    SortKeepsTies(found, Order(), Ranked(order));
  }

  /** A place where the value held under `tag` stands, from character `s` of the shadow on: over its start lies a
      stretch of that tag that is replaced, or overlaps one replaced that outranks it. */
  ghost predicate Caught(d: DigitClass, a: Letters, values: Visibility.Held, text: string, order: seq<string>,
                         picks: seq<Pick>, tag: string, s: int) {
    exists p: Pick ::
      && p.tag == tag && EchoOf(d, a, values, text, p) && Settled(order, picks, p)
      && 0 <= s < |Join(d, text).offsets| && p.start <= Join(d, text).offsets[s] < p.end
  }

  lemma EveryPlaceCaught(d: DigitClass, a: Letters, values: Visibility.Held, text: string, order: seq<string>,
                         picks: seq<Pick>, tag: string, s: int, e: int)
    requires tag in values && tag in order && IsEcho(d, a, values[tag], Join(d, text).text, s, e)
    requires Greedy(order, Found(d, a, values, text, order), picks)
    ensures Caught(d, a, values, text, order, picks, tag, s)
  {
    hide IsEcho, Found, Join, Greedy, FoundFor, EchoOf, Settled;
    var p := FoundOver(d, a, values, text, tag, s, e);
    FoundForAreEchoes(d, a, values, text, tag);
    FoundOfEach(d, a, values, text, order, tag, p);
    GreedySettles(order, Found(d, a, values, text, order), picks, p);
  }

  lemma FoundOver(d: DigitClass, a: Letters, values: Visibility.Held, text: string, tag: string, s: int, e: int)
    returns (p: Pick)
    requires tag in values && IsEcho(d, a, values[tag], Join(d, text).text, s, e)
    ensures p in FoundFor(d, a, values, text, tag) && p.tag == tag
    ensures 0 <= s < |Join(d, text).offsets| && p.start <= Join(d, text).offsets[s] < p.end
  {
    hide IsEcho, Join, FoundFor;
    JoinLengths(d, text);
    var shadow := Join(d, text);
    var k := FoundAtStart(d, a, values[tag], shadow.text, s, e);
    var found := Echoes(d, a, values[tag], shadow.text, 0);
    p := PickOf(d, a, values, text, tag, k);
    OffsetsAscend(d, text, found[k].0, s, found[k].1 - 1);
  }

  lemma FoundAtStart(d: DigitClass, a: Letters, value: string, t: string, s: int, e: int) returns (k: nat)
    requires IsEcho(d, a, value, t, s, e)
    ensures var found := Echoes(d, a, value, t, 0);
            k < |found| && 0 <= found[k].0 <= s < found[k].1 <= |t|
  {
    hide IsEcho, Echoes;
    EchoesAreIn(d, a, value, t);
    EveryPlaceFound(d, a, value, t, 0);
    var found := Echoes(d, a, value, t, 0);
    assert OverStart(found, s);
    k :| k < |found| && found[k].0 <= s < found[k].1;
  }

  lemma PickOf(d: DigitClass, a: Letters, values: Visibility.Held, text: string, tag: string, k: nat) returns (p: Pick)
    requires tag in values && k < |Echoes(d, a, values[tag], Join(d, text).text, 0)|
    ensures p in FoundFor(d, a, values, text, tag) && p.tag == tag
    ensures var found := Echoes(d, a, values[tag], Join(d, text).text, 0);
            && 0 <= found[k].0 < found[k].1 <= |Join(d, text).offsets|
            && (p.start, p.end) == Join(d, text).MapToOriginal(found[k].0, found[k].1)
  {
    hide Join, Echoes, IsEcho;
    JoinLengths(d, text);
    EchoesAreIn(d, a, values[tag], Join(d, text).text);
    p := FoundFor(d, a, values, text, tag)[k];
  }

  lemma OffsetsAscend(d: DigitClass, text: string, i: int, j: int, k: int)
    requires 0 <= i <= j <= k < |Join(d, text).offsets|
    ensures Join(d, text).offsets[i] <= Join(d, text).offsets[j] <= Join(d, text).offsets[k]
  {}

  lemma {:induction false} FoundOfEach(d: DigitClass, a: Letters, values: Visibility.Held, text: string,
                                       order: seq<string>, tag: string, p: Pick)
    requires tag in order && p in FoundFor(d, a, values, text, tag)
    ensures p in Found(d, a, values, text, order)
    decreases |order|
  {
    hide FoundFor;
    var front, last := order[..|order| - 1], order[|order| - 1];
    assert order == front + [last];
    if tag != last {
      FoundOfEach(d, a, values, text, front, tag, p);
    }
  }

  /** What is found is replaced, or overlaps one replaced that outranks it. */
  lemma GreedySettles(order: seq<string>, found: seq<Pick>, picks: seq<Pick>, p: Pick)
    requires Greedy(order, found, picks) && p in found
    ensures Settled(order, picks, p)
  {
    hide Overlap, Outranks;
    if p !in picks {
      var q :| q in picks && Outranks(order, q, p) && Overlap(q, p);
      var j :| 0 <= j < |picks| && picks[j] == q;
    }
  }

  /** `conceal`: ordered, disjoint echoes of held values are replaced by their tags and nothing else is touched. Of the
      echoes found each is replaced unless one that is replaced outranks it: the earliest start, then the longest, then
      the tag held first. */
  method ConcealText(d: DigitClass, a: Letters, values: Visibility.Held, order: seq<string>, text: string)
    returns (out: string, ghost picks: seq<Pick>)
    // The tags as the dictionary lists them.
    requires Distinct(order) && forall t :: t in values <==> t in order
    ensures InOrder(text, picks) && out == Swapped(text, picks)
    ensures forall k | 0 <= k < |picks| :: EchoOf(d, a, values, text, picks[k])
    ensures Greedy(order, Found(d, a, values, text, order), picks)
    ensures forall tag, s, e | tag in values && IsEcho(d, a, values[tag], Join(d, text).text, s, e) ::
              Caught(d, a, values, text, order, picks, tag, s)
    ensures forall p | p in Found(d, a, values, text, order) :: Across(picks, p)
    ensures values == map[] ==> out == text
  {
    hide EchoOf, Found, InOrder, Across, Order, Join, Taken, Ranked, Distinct, Greedy, TotalPreorder, SortedBy;
    hide IsEcho, Caught;
    if values == map[] {
      UnchangedWithNothingHeld(d, a, values, order, text);
      return text, [];
    }
    var found := FindEchoes(d, a, values, order, text);
    FoundAreEchoes(d, a, values, text, order);
    OrderIsTotal(order);
    var sorted := StableSort(found, Order());
    SortedAsRanked(d, a, values, text, order);
    SortedSameElements(found, Order());
    forall k | 0 <= k < |sorted|
      ensures sorted[k].tag in order && 0 <= sorted[k].start < sorted[k].end <= |text|
    {
      assert sorted[k] in found;
      EchoReads(d, a, values, text, sorted[k]);
    }
    out, picks := TakeApart(text, order, sorted);
    TakenOfAll(text, order, found, sorted, picks);
    forall k | 0 <= k < |picks|
      ensures EchoOf(d, a, values, text, picks[k])
    {
      assert picks[k] in picks;
      PickIsFound(order, found, picks, picks[k]);
    }
    forall tag, s, e | tag in values && IsEcho(d, a, values[tag], Join(d, text).text, s, e)
      ensures Caught(d, a, values, text, order, picks, tag, s)
    {
      EveryPlaceCaught(d, a, values, text, order, picks, tag, s, e);
    }
  }

  lemma PickIsFound(order: seq<string>, found: seq<Pick>, picks: seq<Pick>, p: Pick)
    requires Greedy(order, found, picks) && p in picks
    ensures p in found
  {}

  lemma UnchangedWithNothingHeld(d: DigitClass, a: Letters, values: Visibility.Held, order: seq<string>, text: string)
    requires values == map[] && forall t :: t in values <==> t in order
    ensures InOrder(text, []) && Swapped(text, []) == text && Found(d, a, values, text, order) == []
    ensures Greedy(order, [], [])
  {
    HeadIsIn(order);
  }

  lemma HeadIsIn(order: seq<string>)
    ensures order == [] || order[0] in order
  {}

  method FindEchoes(d: DigitClass, a: Letters, values: Visibility.Held, order: seq<string>, text: string)
    returns (picks: seq<Pick>)
    ensures picks == Found(d, a, values, text, order)
  {
    hide Echoes;
    JoinLengths(d, text);
    var joined := JoinNumberGaps(d, Some(DEFAULT_GAP), text);
    picks := [];
    for i := 0 to |order|
      invariant picks == Found(d, a, values, text, order[..i])
    {
      assert order[..i + 1][..i] == order[..i];
      var tag := order[i];
      if tag in values {
        picks := picks + ToPicks(joined, tag, Echoes(d, a, values[tag], joined.text, 0));
      }
    }
    assert order[..|order|] == order;
  }
}
