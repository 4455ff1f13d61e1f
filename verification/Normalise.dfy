/** A shadow copy of a text with the short gaps inside numbers joined, and the way back to the text. */
module Normalise {
  import opened Text

  /** What joining removes: up to `most` of these characters in a row, between two digits. */
  datatype Gap = Gap(separators: seq<char>, most: nat)

  const DEFAULT_GAP := Gap(" -", 2)

  /** `gap_pattern`: no pattern is one that matches nothing. */
  function GapPattern(separators: seq<char>, most: nat): Option<Gap> {
    if most == 0 || separators == "" then None else Some(Gap(separators, most))
  }

  /** `n` characters from `i` on make a gap, with a digit on either side. */
  ghost predicate IsGap(d: DigitClass, g: Gap, s: string, i: int, n: nat) {
    0 < i && 0 < n <= g.most && i + n < |s| && d(s[i - 1]) && d(s[i + n])
    && forall k | i <= k < i + n :: s[k] in g.separators
  }

  /** How many characters of `s[i..]` are separators, `n` at most. */
  function Separators(g: Gap, s: string, i: nat, n: nat): (r: nat)
    requires i <= |s|
    ensures r <= n && i + r <= |s| && forall k | i <= k < i + r :: s[k] in g.separators
    ensures r < n && i + r < |s| ==> s[i + r] !in g.separators
    decreases n
  {
    if n > 0 && i < |s| && s[i] in g.separators then 1 + Separators(g, s, i + 1, n - 1) else 0
  }

  /** The longest of `s[i..i + 1]` to `s[i..i + n]` with a digit after it: the pattern gives back what it took. */
  function BeforeDigit(d: DigitClass, s: string, i: nat, n: nat): (r: nat)
    requires i + n <= |s|
    ensures r <= n && (r > 0 ==> i + r < |s| && d(s[i + r]))
    ensures forall k | i + r < k <= i + n && k < |s| :: !d(s[k])
  {
    if n == 0 || (i + n < |s| && d(s[i + n])) then n else BeforeDigit(d, s, i, n - 1)
  }

  /** How many characters of `s` the pattern `(?<=\d)[separators]{1,most}(?=\d)` matches at `i`. */
  function GapLen(d: DigitClass, g: Gap, s: string, i: int): (n: nat)
    ensures n > 0 ==> IsGap(d, g, s, i, n)
    ensures forall m | m > n :: !IsGap(d, g, s, i, m)
  {
    if 0 < i < |s| && d(s[i - 1]) then BeforeDigit(d, s, i, Separators(g, s, i, g.most)) else 0
  }

  /** How many characters from `i` on are in a gap begun before `i`; gaps are taken left to right and never overlap. */
  function Left(d: DigitClass, g: Gap, s: string, i: nat): nat {
    if i == 0 then 0
    else if Left(d, g, s, i - 1) > 0 then Left(d, g, s, i - 1) - 1
    else if GapLen(d, g, s, i - 1) > 0 then GapLen(d, g, s, i - 1) - 1 else 0
  }

  /** Character `i` is not inside a gap. */
  predicate KeptAt(d: DigitClass, g: Gap, s: string, i: nat) { Left(d, g, s, i) == 0 && GapLen(d, g, s, i) == 0 }

  /** Where in `s[..n]` the kept characters are. */
  function Offsets(d: DigitClass, g: Gap, s: string, n: nat): (r: seq<int>)
    ensures forall k | 0 <= k < |r| :: 0 <= r[k] < n && KeptAt(d, g, s, r[k])
    ensures forall j, k | 0 <= j < k < |r| :: r[j] < r[k]
  {
    if n == 0 then [] else Offsets(d, g, s, n - 1) + if KeptAt(d, g, s, n - 1) then [n - 1] else []
  }

  function At(s: string, offsets: seq<int>): string
    requires forall k | 0 <= k < |offsets| :: 0 <= offsets[k] < |s|
  {
    seq(|offsets|, k requires 0 <= k < |offsets| => s[offsets[k]])
  }

  datatype Shadow = Shadow(text: string, offsets: seq<int>) {
    /** `map_to_original` */
    function MapToOriginal(start: int, end: int): (int, int)
      requires 0 <= start < end <= |offsets|
    {
      (offsets[start], offsets[end - 1] + 1)
    }
  }

  /** `join_number_gaps` for one gap pattern. */
  function JoinBy(d: DigitClass, g: Gap, s: string): Shadow {
    var offsets := Offsets(d, g, s, |s|);
    Shadow(At(s, offsets), offsets)
  }

  function Join(d: DigitClass, s: string): Shadow { JoinBy(d, DEFAULT_GAP, s) }

  // ---------------------------------------------------------------- what is removed

  lemma {:induction false} EveryKeptIsThere(d: DigitClass, g: Gap, s: string, n: nat, i: nat)
    requires i < n && KeptAt(d, g, s, i)
    ensures i in Offsets(d, g, s, n)
  {
    hide KeptAt;
    if i < n - 1 {
      EveryKeptIsThere(d, g, s, n - 1, i);
    }
  }

  /** A gap taken at `i` is left after its last character, and all of it goes. */
  lemma {:induction false} GapGoes(d: DigitClass, g: Gap, s: string, i: nat, n: nat)
    requires Left(d, g, s, i) == 0 && 0 < n <= GapLen(d, g, s, i)
    ensures Left(d, g, s, i + n) == GapLen(d, g, s, i) - n
    ensures !KeptAt(d, g, s, i + n - 1)
  {
    hide GapLen;
    if n > 1 {
      GapGoes(d, g, s, i, n - 1);
    }
  }

  /** A character that goes is in one gap, taken at its first character. */
  lemma {:induction false} GapAround(d: DigitClass, g: Gap, s: string, i: nat) returns (from: nat)
    requires !KeptAt(d, g, s, i)
    ensures from <= i < from + GapLen(d, g, s, from) && Left(d, g, s, from) == 0
    ensures Left(d, g, s, i) > 0 ==> from < i && from + GapLen(d, g, s, from) == i + Left(d, g, s, i)
  {
    hide GapLen;
    from := i;
    if Left(d, g, s, i) > 0 {
      from := GapAround(d, g, s, i - 1);
      GapGoes(d, g, s, from, i - from);
    }
  }

  /** From one kept character to the next: neighbours, or a digit, separators and a digit. Where no separator is a digit
      there are no more of them than one gap may hold. */
  lemma OnlyGapsAreRemoved(d: DigitClass, g: Gap, s: string, k: nat)
    requires k + 1 < |JoinBy(d, g, s).offsets|
    ensures var a, b := JoinBy(d, g, s).offsets[k], JoinBy(d, g, s).offsets[k + 1];
            && 0 <= a < b < |s|
            && (b > a + 1 ==> d(s[a]) && d(s[b]) && forall i | a < i < b :: s[i] in g.separators)
            && ((forall c <- g.separators :: !d(c)) ==> b <= a + 1 + g.most)
  {
    hide GapLen, KeptAt, Left;
    var offsets := JoinBy(d, g, s).offsets;
    var a, b := offsets[k], offsets[k + 1];
    forall i | a < i < b
      ensures !KeptAt(d, g, s, i)
    {
      if KeptAt(d, g, s, i) {
        EveryKeptIsThere(d, g, s, |s|, i);
        BetweenOffsets(offsets, k, i);
      }
    }
    if b > a + 1 {
      GapsBetween(d, g, s, a, b);
    }
  }

  lemma BetweenOffsets(offsets: seq<int>, k: nat, i: int)
    requires k + 1 < |offsets| && i in offsets && forall j, m | 0 <= j < m < |offsets| :: offsets[j] < offsets[m]
    ensures !(offsets[k] < i < offsets[k + 1])
  {
    var m :| 0 <= m < |offsets| && offsets[m] == i;
    if m < k {
      assert offsets[m] < offsets[k];
    } else if m > k + 1 {
      assert offsets[k + 1] < offsets[m];
    }
  }

  /** A gap that a character goes with lies between the kept characters around it. */
  lemma GapWithin(d: DigitClass, g: Gap, s: string, a: nat, b: nat, i: nat) returns (from: nat)
    requires a < i < b < |s| && KeptAt(d, g, s, a) && KeptAt(d, g, s, b) && !KeptAt(d, g, s, i)
    ensures a < from <= i < from + GapLen(d, g, s, from) <= b && Left(d, g, s, from) == 0
  {
    hide GapLen, KeptAt, Left;
    from := GapAround(d, g, s, i);
    if from <= a {
      GapGoes(d, g, s, from, a - from + 1);
    }
    if from + GapLen(d, g, s, from) > b {
      GapGoes(d, g, s, from, b - from + 1);
    }
  }

  lemma GapsBetween(d: DigitClass, g: Gap, s: string, a: nat, b: nat)
    requires a + 1 < b < |s| && KeptAt(d, g, s, a) && KeptAt(d, g, s, b)
    requires forall i | a < i < b :: !KeptAt(d, g, s, i)
    ensures d(s[a]) && d(s[b]) && forall i | a < i < b :: s[i] in g.separators
    ensures (forall c <- g.separators :: !d(c)) ==> b <= a + 1 + g.most
  {
    hide GapLen, KeptAt, Left;
    forall i | a < i < b
      ensures s[i] in g.separators
    {
      var from := GapWithin(d, g, s, a, b, i);
    }
    var first := GapWithin(d, g, s, a, b, a + 1);
    var last := GapWithin(d, g, s, a, b, b - 1);
    if first + GapLen(d, g, s, first) < b {
      assert d(s[first + GapLen(d, g, s, first)]) && s[first + GapLen(d, g, s, first)] in g.separators;
    }
  }

  /** A run of separators no longer than a gap may be, with the digits either side of it. */
  ghost predicate ShortRun(d: DigitClass, g: Gap, s: string, a: nat, b: nat) {
    && a + 1 < b < |s| && b - a - 1 <= g.most && d(s[a]) && d(s[b])
    && forall k | a < k < b :: s[k] in g.separators
  }

  /** Where no separator is a digit, what goes is what stands in a short run of separators between two digits. */
  lemma RemovedExactly(d: DigitClass, g: Gap, s: string, i: nat)
    requires i < |s| && forall c <- g.separators :: !d(c)
    ensures i !in JoinBy(d, g, s).offsets <==> exists a: nat, b: nat :: a < i < b && ShortRun(d, g, s, a, b)
  {
    hide GapLen, Left;
    if i !in JoinBy(d, g, s).offsets {
      if KeptAt(d, g, s, i) {
        EveryKeptIsThere(d, g, s, |s|, i);
      }
      var from := GapAround(d, g, s, i);
      assert ShortRun(d, g, s, from - 1, from + GapLen(d, g, s, from));
    }
    forall a: nat, b: nat | a < i < b && ShortRun(d, g, s, a, b)
      ensures !KeptAt(d, g, s, i)
    {
      RunGoes(d, g, s, a, b);
      GapGoes(d, g, s, a + 1, i - a);
    }
  }

  lemma GapHolds(d: DigitClass, g: Gap, s: string, i: nat, k: nat)
    requires i <= k < |s|
    ensures k < i + GapLen(d, g, s, i) ==> s[k] in g.separators
  {
    hide GapLen;
  }

  lemma RunGoes(d: DigitClass, g: Gap, s: string, a: nat, b: nat)
    requires ShortRun(d, g, s, a, b) && forall c <- g.separators :: !d(c)
    ensures Left(d, g, s, a + 1) == 0 && GapLen(d, g, s, a + 1) == b - a - 1
  {
    hide GapLen;
    if !KeptAt(d, g, s, a) {
      var from := GapAround(d, g, s, a);
      GapHolds(d, g, s, from, a);
    }
    assert IsGap(d, g, s, a + 1, b - a - 1);
    GapHolds(d, g, s, a + 1, b);
  }

  // ---------------------------------------------------------------- a slice of the shadow is the shadow of a slice

  /** Between two kept characters the gaps are the slice's own. */
  lemma {:induction false} GapsOfSlice(d: DigitClass, g: Gap, s: string, lo: nat, hi: nat, i: nat)
    requires lo < hi <= |s| && KeptAt(d, g, s, lo) && KeptAt(d, g, s, hi - 1) && i < hi - lo
    ensures Left(d, g, s[lo..hi], i) == Left(d, g, s, lo + i)
    ensures Left(d, g, s, lo + i) == 0 ==> GapLen(d, g, s[lo..hi], i) == GapLen(d, g, s, lo + i)
  {
    hide GapLen;
    if i > 0 {
      GapsOfSlice(d, g, s, lo, hi, i - 1);
      if Left(d, g, s, lo + i) == 0 {
        SameGap(d, g, s, lo, hi, i);
      }
    } else {
      assert GapLen(d, g, s[lo..hi], 0) == 0;
    }
  }

  lemma SameGap(d: DigitClass, g: Gap, s: string, lo: nat, hi: nat, i: nat)
    requires lo < hi <= |s| && KeptAt(d, g, s, hi - 1) && 0 < i < hi - lo && Left(d, g, s, lo + i) == 0
    ensures GapLen(d, g, s[lo..hi], i) == GapLen(d, g, s, lo + i)
  {
    hide GapLen, KeptAt, Left;
    var n, m := GapLen(d, g, s, lo + i), GapLen(d, g, s[lo..hi], i);
    if lo + i + n > hi - 1 {
      GapGoes(d, g, s, lo + i, hi - lo - i);
    }
    GapInSlice(d, g, s, lo, hi, i, n);
    GapInSlice(d, g, s, lo, hi, i, m);
  }

  lemma GapInSlice(d: DigitClass, g: Gap, s: string, lo: nat, hi: nat, i: nat, n: nat)
    requires lo <= hi <= |s| && 0 < i && i + n < hi - lo
    ensures IsGap(d, g, s[lo..hi], i, n) <==> IsGap(d, g, s, lo + i, n)
  {
    var t := s[lo..hi];
    assert forall k | 0 <= k < |t| :: t[k] == s[lo + k];
    if IsGap(d, g, t, i, n) {
      forall k | lo + i <= k < lo + i + n
        ensures s[k] in g.separators
      {
        assert s[k] == t[k - lo];
      }
    }
  }

  function Shift(offsets: seq<int>, d: int): seq<int> {
    seq(|offsets|, k requires 0 <= k < |offsets| => offsets[k] + d)
  }

  lemma {:induction false} OffsetsOfSlice(d: DigitClass, g: Gap, s: string, lo: nat, hi: nat, n: nat)
    requires lo < hi <= |s| && KeptAt(d, g, s, lo) && KeptAt(d, g, s, hi - 1) && n <= hi - lo
    ensures Offsets(d, g, s, lo + n) == Offsets(d, g, s, lo) + Shift(Offsets(d, g, s[lo..hi], n), lo)
  {
    hide GapLen, Left;
    if n > 0 {
      OffsetsOfSlice(d, g, s, lo, hi, n - 1);
      GapsOfSlice(d, g, s, lo, hi, n - 1);
    }
  }

  /** The offsets below the `k`-th are the first `k`. */
  lemma {:induction false} OffsetsBelow(d: DigitClass, g: Gap, s: string, n: nat, k: nat)
    requires k < |Offsets(d, g, s, n)|
    ensures Offsets(d, g, s, Offsets(d, g, s, n)[k]) == Offsets(d, g, s, n)[..k]
    ensures Offsets(d, g, s, Offsets(d, g, s, n)[k] + 1) == Offsets(d, g, s, n)[..k + 1]
  {
    hide KeptAt;
    var r := Offsets(d, g, s, n);
    if k < |Offsets(d, g, s, n - 1)| {
      OffsetsBelow(d, g, s, n - 1, k);
    } else {
      assert r[k] == n - 1;
    }
  }

  lemma InnerOffsets(d: DigitClass, g: Gap, s: string, start: int, end: int)
    requires 0 <= start < end <= |JoinBy(d, g, s).offsets|
    ensures var (lo, hi) := JoinBy(d, g, s).MapToOriginal(start, end);
            && 0 <= lo < hi <= |s|
            && Shift(Offsets(d, g, s[lo..hi], hi - lo), lo) == JoinBy(d, g, s).offsets[start..end]
  {
    hide KeptAt, At, Offsets, Shift;
    var (lo, hi) := JoinBy(d, g, s).MapToOriginal(start, end);
    OffsetsBelow(d, g, s, |s|, start);
    OffsetsBelow(d, g, s, |s|, end - 1);
    OffsetsOfSlice(d, g, s, lo, hi, hi - lo);
    SamePrefix(JoinBy(d, g, s).offsets, start, end, Shift(Offsets(d, g, s[lo..hi], hi - lo), lo));
  }

  lemma SamePrefix(s: seq<int>, start: int, end: int, rest: seq<int>)
    requires 0 <= start <= end <= |s| && s[..end] == s[..start] + rest
    ensures rest == s[start..end]
  {
    assert rest == s[..end][start..];
  }

  /** Taking a stretch of the shadow back to the text and joining it again gives that stretch. */
  lemma JoinOfSlice(d: DigitClass, g: Gap, s: string, start: int, end: int)
    requires 0 <= start < end <= |JoinBy(d, g, s).offsets|
    ensures var (lo, hi) := JoinBy(d, g, s).MapToOriginal(start, end);
            && 0 <= lo < hi <= |s|
            && JoinBy(d, g, s[lo..hi]).text == JoinBy(d, g, s).text[start..end]
  {
    hide KeptAt, Offsets;
    var offsets := JoinBy(d, g, s).offsets;
    var (lo, hi) := JoinBy(d, g, s).MapToOriginal(start, end);
    InnerOffsets(d, g, s, start, end);
    var inner := Offsets(d, g, s[lo..hi], hi - lo);
    assert |inner| == end - start;
    forall k | 0 <= k < end - start
      ensures s[lo..hi][inner[k]] == s[offsets[start + k]]
    {
      assert Shift(inner, lo)[k] == offsets[start..end][k];
    }
  }

  // ---------------------------------------------------------------- the loop

  /** Where `gap.finditer` finds its next match, and how long it is; the end where there is none. */
  function NextGap(d: DigitClass, g: Gap, s: string, from: nat): (i: nat)
    requires from <= |s|
    ensures from <= i <= |s|
    ensures forall k | from <= k < i :: GapLen(d, g, s, k) == 0
    ensures i < |s| ==> GapLen(d, g, s, i) > 0
    decreases |s| - from
  {
    if from == |s| || GapLen(d, g, s, from) > 0 then from else NextGap(d, g, s, from + 1)
  }

  function Range(from: int, to: int): seq<int>
    requires from <= to
  {
    seq(to - from, k => from + k)
  }

  lemma {:induction false} OffsetsRun(d: DigitClass, g: Gap, s: string, from: nat, to: nat)
    requires from <= to <= |s| && Left(d, g, s, from) == 0 && forall i | from <= i < to :: GapLen(d, g, s, i) == 0
    ensures Offsets(d, g, s, to) == Offsets(d, g, s, from) + Range(from, to) && Left(d, g, s, to) == 0
  {
    hide GapLen;
    if from < to {
      OffsetsRun(d, g, s, from, to - 1);
    }
  }

  lemma {:induction false} OffsetsOverGap(d: DigitClass, g: Gap, s: string, i: nat, n: nat)
    requires i <= |s| && Left(d, g, s, i) == 0 && n <= GapLen(d, g, s, i)
    ensures Offsets(d, g, s, i + n) == Offsets(d, g, s, i)
  {
    hide GapLen, KeptAt, Left;
    if n > 0 {
      OffsetsOverGap(d, g, s, i, n - 1);
      GapGoes(d, g, s, i, n);
    }
  }

  /** Up to the next gap everything is kept, if nothing just before reaches into it. */
  lemma JoinToNext(d: DigitClass, g: Gap, s: string, from: nat)
    requires from <= |s| && Left(d, g, s, from) == 0
    ensures var to := NextGap(d, g, s, from);
            && Offsets(d, g, s, to) == Offsets(d, g, s, from) + Range(from, to)
            && At(s, Offsets(d, g, s, to)) == At(s, Offsets(d, g, s, from)) + s[from..to]
            && Left(d, g, s, to) == 0
  {
    hide GapLen, Offsets, Left;
    OffsetsRun(d, g, s, from, NextGap(d, g, s, from));
  }

  /** `join_number_gaps`; no pattern joins nothing. */
  method JoinNumberGaps(d: DigitClass, gap: Option<Gap>, s: string) returns (shadow: Shadow)
    ensures gap.Some? ==> shadow == JoinBy(d, gap.value, s)
    ensures gap.None? ==> shadow == Shadow(s, Range(0, |s|))
  {
    hide GapLen, Offsets, At, Range, NextGap, Left;
    if gap.None? {
      return Shadow(s, Range(0, |s|));
    }
    var g := gap.value;
    NothingJoined(d, g, s);
    var pieces, offsets: seq<int> := "", [];
    var last := 0;
    var next := NextGap(d, g, s, 0);
    while next < |s|
      invariant 0 <= last <= next <= |s| && next == NextGap(d, g, s, last)
      invariant Left(d, g, s, last) == 0
      invariant offsets == Offsets(d, g, s, last) && pieces == At(s, offsets)
      decreases |s| - last
    {
      JoinToNext(d, g, s, last);
      OffsetsOverGap(d, g, s, next, GapLen(d, g, s, next));
      GapGoes(d, g, s, next, GapLen(d, g, s, next));
      pieces := pieces + s[last..next];
      offsets := offsets + Range(last, next);
      last := next + GapLen(d, g, s, next);
      next := NextGap(d, g, s, last);
    }
    JoinToNext(d, g, s, last);
    pieces := pieces + s[last..];
    offsets := offsets + Range(last, |s|);
    shadow := Shadow(pieces, offsets);
  }

  lemma NothingJoined(d: DigitClass, g: Gap, s: string)
    ensures Offsets(d, g, s, 0) == [] && At(s, []) == "" && Left(d, g, s, 0) == 0
  {}

  /** No pattern is made exactly where the pattern would join nothing in any text. */
  lemma NoPatternJoinsNothing(d: DigitClass, separators: seq<char>, most: nat)
    ensures GapPattern(separators, most) == None <==>
            forall s :: JoinBy(d, Gap(separators, most), s) == Shadow(s, Range(0, |s|))
  {
    hide JoinBy, Range;
    var g := Gap(separators, most);
    if GapPattern(separators, most) == None {
      forall s
        ensures JoinBy(d, g, s) == Shadow(s, Range(0, |s|))
      {
        JoinsNone(d, g, s);
      }
    } else {
      JoinsOne(d, g);
    }
  }

  lemma JoinsNone(d: DigitClass, g: Gap, s: string)
    requires g.most == 0 || g.separators == ""
    ensures JoinBy(d, g, s) == Shadow(s, Range(0, |s|))
  {
    hide GapLen, Left;
    forall i: nat
      ensures GapLen(d, g, s, i) == 0
    {
      NoGap(d, g, s, i);
    }
    NothingJoined(d, g, s);
    OffsetsRun(d, g, s, 0, |s|);
  }

  lemma NoGap(d: DigitClass, g: Gap, s: string, i: nat)
    requires g.most == 0 || g.separators == ""
    ensures GapLen(d, g, s, i) == 0
  {}

  lemma JoinsOne(d: DigitClass, g: Gap)
    requires g.most > 0 && g.separators != ""
    ensures var s := ['0', g.separators[0], '0']; JoinBy(d, g, s) != Shadow(s, Range(0, |s|))
  {
    hide GapLen;
    var s := ['0', g.separators[0], '0'];
    assert !IsGap(d, g, s, 0, GapLen(d, g, s, 0));
    assert IsGap(d, g, s, 1, 1);
    assert Range(0, |s|)[1] == 1;
    assert !KeptAt(d, g, s, 1);
  }

  // ---------------------------------------------------------------- national numbers

  const NATIONAL_DIGITS := 10

  /** The digits behind `+` or `00`, if there is nothing else. */
  function International(d: DigitClass, s: string): Option<string> {
    var rest := if s != "" && s[0] == '+' then s[1..] else if |s| > 1 && s[0] == '0' && s[1] == '0' then s[2..] else "";
    if |rest| >= NATIONAL_DIGITS && DigitRun(d, rest) == |rest| then Some(rest) else None
  }

  /** `national_part` */
  function NationalPart(d: DigitClass, value: string): Option<string> {
    var digits := International(d, Join(d, value).text);
    if digits.None? then None else Some(digits.value[|digits.value| - NATIONAL_DIGITS..])
  }

  /** The form of a value that decides which spans are the same. */
  function SameForm(d: DigitClass, value: string): string {
    var national := NationalPart(d, value);
    if national.Some? then national.value else Join(d, value).text
  }

  /** A number of ten digits has one form, however its digits are spaced and whatever code stands in front of it. */
  lemma OneFormOfANumber(d: DigitClass, value: string, number: string, code: string)
    requires |number| == NATIONAL_DIGITS && forall i | 0 <= i < |number| :: d(number[i])
    requires forall i | 0 <= i < |code| :: d(code[i])
    ensures Join(d, value).text in {number, "+" + code + number, "00" + code + number} ==> SameForm(d, value) == number
  {
    hide Join, International;
    var all := code + number;
    assert all[|all| - NATIONAL_DIGITS..] == number;
    assert "+" + code + number == "+" + all && "00" + code + number == "00" + all;
    BehindCode(d, all);
    NoCode(d, number);
  }

  lemma BehindCode(d: DigitClass, all: string)
    requires IsNumber(d, all)
    ensures International(d, "+" + all) == Some(all) && International(d, "00" + all) == Some(all)
  {
    DigitRunIs(d, all, |all|);
    assert ("+" + all)[1..] == all && ("00" + all)[2..] == all;
  }

  lemma NoCode(d: DigitClass, number: string)
    requires |number| == NATIONAL_DIGITS
    ensures International(d, number).None?
  {}

  /** Anything else has the form it is written in, gaps joined. */
  lemma OtherForm(d: DigitClass, value: string)
    ensures SameForm(d, value) != Join(d, value).text ==>
              exists n :: IsNumber(d, n) && Join(d, value).text in {"+" + n, "00" + n}
  {
    hide Join;
    var shown := Join(d, value).text;
    var digits := International(d, shown);
    if digits.Some? {
      assert IsNumber(d, digits.value) && (shown == "+" + digits.value || shown == "00" + digits.value);
    }
  }

  ghost predicate IsNumber(d: DigitClass, n: string) {
    |n| >= NATIONAL_DIGITS && forall i | 0 <= i < |n| :: d(n[i])
  }
}
