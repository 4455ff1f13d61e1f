/** Tags, «phone_1», swapped back for the values held behind them, in a text that may arrive in pieces. */
module Visibility {
  import opened Text

  const OPEN := '\U{00AB}'
  const CLOSE := '\U{00BB}'

  predicate IsLower(c: char) { 'a' <= c <= 'z' }

  /** `[a-z0-9_]` */
  predicate NameChar(c: char) { IsLower(c) || '0' <= c <= '9' || c == '_' }

  /** `[a-z][a-z0-9_]*_\d+` */
  predicate TagBody(d: DigitClass, b: string) {
    exists k :: 0 < k < |b| - 1 && NameAndNumber(d, b, k)
  }

  predicate NameAndNumber(d: DigitClass, b: string, k: int)
    requires 0 < k < |b| - 1
  {
    && b[k] == '_'
    && IsLower(b[0])
    && (forall i | 0 < i < k :: NameChar(b[i]))
    && (forall i | k < i < |b| :: d(b[i]))
  }

  /** The length of the `TAG` match at the head of `s`, or 0. A tag closes at the first closing mark. */
  function TagLen(d: DigitClass, s: string): (n: nat)
    ensures n <= |s|
    ensures n > 0 ==> n >= 2 && s[0] == OPEN && s[n - 1] == CLOSE && TagBody(d, s[1..n - 1])
  {
    if s == "" || s[0] != OPEN then 0
    else
      var j := IndexOf(s, CLOSE);
      if 0 < j < |s| && TagBody(d, s[1..j]) then j + 1 else 0
  }

  type Held = map<string, string>

  function Shown(values: Held, tag: string): string {
    if tag in values then values[tag] else tag
  }

  /** `Visibility.reveal` of a text: every tag held is swapped for its value. */
  function Reveal(d: DigitClass, values: Held, s: string): string
    decreases |s|
  {
    if s == "" then ""
    else
      var n := TagLen(d, s);
      if n == 0 then [s[0]] + Reveal(d, values, s[1..])
      else Shown(values, s[..n]) + Reveal(d, values, s[n..])
  }

  // ---------------------------------------------------------------- the streamed form

  /** A match of `«[a-z0-9_]*\Z` at the head of `s`. */
  predicate OpenTagAt(s: string) {
    s != "" && s[0] == OPEN && forall i | 0 < i < |s| :: NameChar(s[i])
  }

  /** Where `_OPEN_TAG.search` cuts a text, or its end. */
  function CutAt(s: string): (n: nat)
    ensures n <= |s|
    ensures n < |s| ==> OpenTagAt(s[n..])
    ensures forall i | 0 <= i < n :: !OpenTagAt(s[i..])
  {
    if s == "" || OpenTagAt(s) then 0
    else
      var n := CutAt(s[1..]);
      assert forall i | 0 < i < n + 1 :: s[i..] == s[1..][i - 1..];
      n + 1
  }

  function FeedStep(d: DigitClass, values: Held, held: string, piece: string): (string, string) {
    var text := held + piece;
    var cut := if values == map[] then |text| else CutAt(text);
    (Reveal(d, values, text[..cut]), text[cut..])
  }

  function Feeding(d: DigitClass, values: Held): (string, string) -> (string, string) {
    (held: string, piece: string) => FeedStep(d, values, held, piece)
  }

  /** What the farmer is shown of an answer in pieces: each `feed`, then `flush`, which hands back what is held as it
      is. */
  function Streamed(d: DigitClass, values: Held, pieces: seq<string>): string {
    var r := Run(Feeding(d, values), "", pieces);
    r.0 + r.1
  }

  // ---------------------------------------------------------------- when a value is really swapped

  /** The tag at the head of `s` changes when it is revealed. */
  predicate Swaps(d: DigitClass, values: Held, s: string) {
    TagLen(d, s) > 0 && Shown(values, s[..TagLen(d, s)]) != s[..TagLen(d, s)]
  }

  lemma TagBodyChars(d: DigitClass, b: string)
    requires TagBody(d, b)
    ensures forall i | 0 <= i < |b| :: (NameChar(b[i]) || d(b[i])) && b[i] != OPEN && b[i] != CLOSE
  {}

  lemma RevealPlain(d: DigitClass, values: Held, c: char, z: string)
    requires c != OPEN
    ensures Reveal(d, values, [c] + z) == [c] + Reveal(d, values, z)
  {
    assert ([c] + z)[1..] == z;
  }

  /** Text with no opening mark goes out as it is. */
  lemma {:induction false} PlainPrefix(d: DigitClass, values: Held, u: string, z: string)
    requires OPEN !in u
    ensures Reveal(d, values, u + z) == u + Reveal(d, values, z)
    decreases |u|
  {
    hide Reveal;
    if u == "" {
      assert u + z == z && "" + Reveal(d, values, z) == Reveal(d, values, z);
    } else {
      assert u[0] in u && u == [u[0]] + u[1..];
      PlainPrefix(d, values, u[1..], z);
      RevealPlain(d, values, u[0], u[1..] + z);
      Associate([u[0]], u[1..], z);
      Associate([u[0]], u[1..], Reveal(d, values, z));
    }
  }

  /** One step of revealing, in which only a tag that changes is taken whole. */
  function StepLen(d: DigitClass, values: Held, s: string): (n: nat)
    requires s != ""
    ensures 0 < n <= |s|
  {
    if Swaps(d, values, s) then TagLen(d, s) else 1
  }

  function StepText(d: DigitClass, values: Held, s: string): string
    requires s != ""
  {
    if Swaps(d, values, s) then Shown(values, s[..TagLen(d, s)]) else [s[0]]
  }

  /** A tag that does not change might as well be read one character at a time. */
  lemma RevealStep(d: DigitClass, values: Held, s: string)
    requires s != ""
    ensures Reveal(d, values, s) == StepText(d, values, s) + Reveal(d, values, s[StepLen(d, values, s)..])
  {
    hide TagLen, TagBody, Shown;
    var n := TagLen(d, s);
    if n > 0 && !Swaps(d, values, s) {
      var u, z := s[1..n], s[n..];
      TagHasNoOpening(d, s);
      PlainPrefix(d, values, u, z);
      assert s[1..] == u + z;
      assert s[..n] == [s[0]] + u;
      Associate([s[0]], u, Reveal(d, values, z));
    }
  }

  lemma TagHasNoOpening(d: DigitClass, s: string)
    requires TagLen(d, s) > 0
    ensures OPEN !in s[1..TagLen(d, s)]
  {
    hide TagLen, TagBody;
    var n := TagLen(d, s);
    var u, b := s[1..n], s[1..n - 1];
    TagBodyChars(d, b);
    forall i | 0 <= i < |u|
      ensures u[i] != OPEN
    {
      assert i < |b| ==> u[i] == b[i];
    }
  }

  /** Every tag that would be swapped is written in the characters `_OPEN_TAG` knows. */
  ghost predicate PlainTags(d: DigitClass, values: Held) {
    forall t | t in values && TagLen(d, t) == |t| > 0 && values[t] != t ::
      forall i | 0 < i < |t| - 1 :: NameChar(t[i])
  }

  /** Nothing at the end of `x` can still become a tag. */
  ghost predicate NothingOpen(x: string) {
    forall i | 0 <= i < |x| :: !OpenTagAt(x[i..])
  }

  /** Whether the head of a text is swapped does not depend on what comes after a point where nothing is open. */
  lemma SwapsAcross(d: DigitClass, values: Held, x: string, y: string)
    requires PlainTags(d, values) && x != ""
    requires !OpenTagAt(x) || (y != "" && y[0] == OPEN)
    ensures Swaps(d, values, x + y) == Swaps(d, values, x)
    ensures Swaps(d, values, x) ==> TagLen(d, x + y) == TagLen(d, x) && (x + y)[..TagLen(d, x)] == x[..TagLen(d, x)]
  {
    hide TagBody, Shown;
    if x[0] == OPEN {
      var j := IndexOf(x, CLOSE);
      if j < |x| {
        assert IndexOf(x + y, CLOSE) == j by { IndexOfFirst(x + y, CLOSE, j); }
        assert (x + y)[1..j] == x[1..j] && (x + y)[..j + 1] == x[..j + 1];
      } else if Swaps(d, values, x + y) {
        SpanningTag(d, values, x, y);
      }
    }
  }

  lemma IndexOfFirst(s: string, c: char, j: nat)
    requires j < |s| && s[j] == c && forall i | 0 <= i < j :: s[i] != c
    ensures IndexOf(s, c) == j
  {
    var k := IndexOf(s, c);
  }

  /** A tag that runs past the end of `x` leaves `x` open, or is never swapped. */
  lemma SpanningTag(d: DigitClass, values: Held, x: string, y: string)
    requires PlainTags(d, values) && x != "" && CLOSE !in x && Swaps(d, values, x + y)
    ensures OpenTagAt(x) && (y != "" ==> y[0] != OPEN)
  {
    hide TagBody;
    var s := x + y;
    var n := TagLen(d, s);
    var t := s[..n];
    assert s[n - 1] == CLOSE;
    assert n > |x|;
    WholeTag(d, s);
    TagHasNoOpening(d, s);
    assert forall i | 0 < i < |x| :: x[i] == t[i];
    assert y != "" ==> y[0] == s[1..n][|x| - 1];
  }

  lemma WholeTag(d: DigitClass, s: string)
    requires TagLen(d, s) > 0
    ensures TagLen(d, s[..TagLen(d, s)]) == TagLen(d, s)
  {
    hide TagBody;
    var n := TagLen(d, s);
    var t := s[..n];
    IndexOfFirst(t, CLOSE, n - 1);
    assert t[1..n - 1] == s[1..n - 1];
  }

  /** Revealing a text is revealing its two halves, across any cut where nothing is open. */
  lemma {:induction false} RevealAcross(d: DigitClass, values: Held, x: string, y: string)
    requires PlainTags(d, values)
    requires NothingOpen(x) || (y != "" && y[0] == OPEN)
    ensures Reveal(d, values, x + y) == Reveal(d, values, x) + Reveal(d, values, y)
    decreases |x|
  {
    hide TagLen, StepText, StepLen, PlainTags, OpenTagAt, Reveal, NothingOpen;
    RevealNothing(d, values);
    if x == "" {
      assert x + y == y;
      assert "" + Reveal(d, values, y) == Reveal(d, values, y);
    } else {
      StepAcross(d, values, x, y);
      var n := StepLen(d, values, x);
      NothingOpenTail(x, n);
      RevealAcross(d, values, x[n..], y);
      RevealStep(d, values, x);
      RevealStep(d, values, x + y);
      Associate(StepText(d, values, x), Reveal(d, values, x[n..]), Reveal(d, values, y));
    }
  }

  lemma StepAcross(d: DigitClass, values: Held, x: string, y: string)
    requires PlainTags(d, values) && x != ""
    requires NothingOpen(x) || (y != "" && y[0] == OPEN)
    ensures StepText(d, values, x + y) == StepText(d, values, x)
    ensures StepLen(d, values, x + y) == StepLen(d, values, x)
    ensures (x + y)[StepLen(d, values, x)..] == x[StepLen(d, values, x)..] + y
  {
    hide TagLen, Shown, PlainTags, OpenTagAt;
    assert x[0..] == x;
    SwapsAcross(d, values, x, y);
  }

  lemma NothingOpenTail(x: string, n: nat)
    requires n <= |x|
    ensures NothingOpen(x) ==> NothingOpen(x[n..])
  {
    hide OpenTagAt;
    assert forall i | 0 <= i < |x[n..]| :: x[n..][i..] == x[n + i..];
  }

  // ---------------------------------------------------------------- half a tag is never shown

  function StillToWrite(d: DigitClass, values: Held): (string, string) -> (string, ()) {
    (held: string, text: string) => (Reveal(d, values, held + text), ())
  }

  lemma {:induction false} NothingToSwap(d: DigitClass, s: string)
    ensures Reveal(d, map[], s) == s
    decreases |s|
  {
    if s != "" {
      RevealStep(d, map[], s);
      NothingToSwap(d, s[1..]);
    }
  }

  lemma FeedIsReveal(d: DigitClass, values: Held, text: string, more: string)
    requires PlainTags(d, values)
    ensures var cut := if values == map[] then |text| else CutAt(text);
            Reveal(d, values, text + more) == Reveal(d, values, text[..cut]) + Reveal(d, values, text[cut..] + more)
  {
    hide PlainTags, Reveal;
    var cut := if values == map[] then |text| else CutAt(text);
    var done, left := text[..cut], text[cut..];
    assert text + more == done + (left + more);
    if values == map[] {
      NothingToSwap(d, text + more);
      NothingToSwap(d, done);
      NothingToSwap(d, left + more);
    } else {
      if left == "" {
        assert done == text;
      }
      RevealAcross(d, values, done, left + more);
    }
  }

  lemma FeedAgrees(d: DigitClass, values: Held, held: string, piece: string, more: string)
    requires PlainTags(d, values)
    ensures StepAgrees(Feeding(d, values), StillToWrite(d, values), held, piece, more)
  {
    hide Reveal, CutAt, PlainTags;
    FeedIsReveal(d, values, held + piece, more);
    assert held + (piece + more) == (held + piece) + more;
  }

  lemma OpenTagIsKept(d: DigitClass, values: Held, s: string)
    requires s == "" || OpenTagAt(s)
    ensures Reveal(d, values, s) == s
  {
    hide Reveal;
    if s != "" {
      forall i | 0 <= i < |s|
        ensures s[i] != CLOSE
      {}
      RevealNothingTagged(d, values, s);
    } else {
      RevealNothing(d, values);
    }
  }

  lemma RevealNothing(d: DigitClass, values: Held)
    ensures Reveal(d, values, "") == ""
  {}

  lemma {:induction false} HeldIsOpen(d: DigitClass, values: Held, held: string, pieces: seq<string>)
    requires held == "" || OpenTagAt(held)
    ensures var last := Run(Feeding(d, values), held, pieces).1; last == "" || OpenTagAt(last)
    decreases |pieces|
  {
    hide Reveal, OpenTagAt;
    if pieces != [] {
      HeldIsOpen(d, values, FeedStep(d, values, held, pieces[0]).1, pieces[1..]);
    }
  }

  lemma StreamedIsRevealed(d: DigitClass, values: Held, pieces: seq<string>)
    requires PlainTags(d, values)
    ensures Streamed(d, values, pieces) == Reveal(d, values, Concat(pieces))
  {
    hide Reveal, PlainTags, FeedStep, OpenTagAt;
    forall held, piece, more
      ensures StepAgrees(Feeding(d, values), StillToWrite(d, values), held, piece, more)
    {
      FeedAgrees(d, values, held, piece, more);
    }
    RunAgrees(Feeding(d, values), StillToWrite(d, values), "", pieces);
    HeldIsOpen(d, values, "", pieces);
    var held := Run(Feeding(d, values), "", pieces).1;
    OpenTagIsKept(d, values, held);
    assert held + "" == held && "" + Concat(pieces) == Concat(pieces);
  }

  /** A piece with no tag in it and nothing open at its end goes straight out. */
  lemma PassesThrough(d: DigitClass, values: Held, u: string)
    requires u != "" && (forall i | 0 < i < |u| :: u[i] != OPEN) && TagLen(d, u) == 0 && !OpenTagAt(u)
    ensures FeedStep(d, values, "", u) == (u, "")
  {
    hide Reveal, TagLen;
    assert u[0..] == u;
    assert CutAt(u) == |u| by {
      assert forall i | 0 <= i < |u| :: !OpenTagAt(u[i..]);
    }
    assert "" + u == u == u[..|u|] && u[|u|..] == "";
    RevealNothingTagged(d, values, u);
  }

  lemma RevealNothingTagged(d: DigitClass, values: Held, u: string)
    requires u != "" && (forall i | 0 < i < |u| :: u[i] != OPEN) && TagLen(d, u) == 0
    ensures Reveal(d, values, u) == u
  {
    hide Reveal, TagLen;
    RevealStep(d, values, u);
    PlainPrefix(d, values, u[1..], "");
    RevealNothing(d, values);
    assert u == [u[0]] + u[1..] && u[1..] + "" == u[1..];
  }

  /** A held tag the stream cannot hold back: cut inside it and it goes out as it is. */
  lemma CutInsideTag(d: DigitClass, values: Held, t: string, i: nat)
    requires t in values && TagLen(d, t) == |t| > 0 && values[t] != t && 0 < i < |t| - 1 && !NameChar(t[i])
    ensures Streamed(d, values, [t[..i + 1], t[i + 1..]]) == t
    ensures Reveal(d, values, Concat([t[..i + 1], t[i + 1..]])) == values[t] != t
  {
    hide Reveal, FeedStep, TagLen;
    var a, b := t[..i + 1], t[i + 1..];
    assert t == a + b;
    ConcatTwo(a, b);
    RevealTag(d, values, t);
    HalvesPassThrough(d, values, t, i);
    RunTwo(Feeding(d, values), "", a, b);
  }

  lemma RevealTag(d: DigitClass, values: Held, t: string)
    requires t in values && TagLen(d, t) == |t| > 0
    ensures Reveal(d, values, t) == values[t]
  {
    hide TagLen;
    RevealNothing(d, values);
    assert t[..|t|] == t && t[|t|..] == "";
    assert values[t] + "" == values[t];
  }

  lemma HalvesPassThrough(d: DigitClass, values: Held, t: string, i: nat)
    requires TagLen(d, t) == |t| > 0 && 0 < i < |t| - 1 && !NameChar(t[i])
    ensures FeedStep(d, values, "", t[..i + 1]) == (t[..i + 1], "")
    ensures FeedStep(d, values, "", t[i + 1..]) == (t[i + 1..], "")
  {
    hide TagBody, FeedStep;
    var a, b := t[..i + 1], t[i + 1..];
    TagBodyChars(d, t[1..|t| - 1]);
    forall k | 0 < k < |t| - 1
      ensures t[k] != OPEN && t[k] != CLOSE
    {
      assert t[k] == t[1..|t| - 1][k - 1];
    }
    assert a[i] == t[i];
    PassesThrough(d, values, a);
    PassesThrough(d, values, b);
  }

  lemma RunTwo(step: (string, string) -> (string, string), s: string, a: string, b: string)
    requires step(s, a).1 == s
    ensures Run(step, s, [a, b]) == (step(s, a).0 + step(s, b).0, step(s, b).1)
  {
    assert [a, b] == [a] + [b];
    RunOne(step, s, a);
    RunSnoc(step, s, [a], b);
  }

  /** The stream shows the farmer the whole answer revealed, for every way of cutting it into pieces,
      exactly when every tag whose value differs from it is written in `[a-z0-9_]`. The digits of
      other scripts are digits to `TAG` and not to `_OPEN_TAG`. */
  lemma StreamRevealsExactlyPlainTags(d: DigitClass, values: Held)
    ensures (forall pieces :: Streamed(d, values, pieces) == Reveal(d, values, Concat(pieces)))
            <==> PlainTags(d, values)
  {
    hide Streamed, Reveal, Concat, TagLen;
    if PlainTags(d, values) {
      forall pieces
        ensures Streamed(d, values, pieces) == Reveal(d, values, Concat(pieces))
      {
        StreamedIsRevealed(d, values, pieces);
      }
    } else {
      var t :| t in values && TagLen(d, t) == |t| > 0 && values[t] != t
               && exists i :: 0 < i < |t| - 1 && !NameChar(t[i]);
      var i :| 0 < i < |t| - 1 && !NameChar(t[i]);
      CutInsideTag(d, values, t, i);
      var pieces := [t[..i + 1], t[i + 1..]];
      assert Streamed(d, values, pieces) != Reveal(d, values, Concat(pieces));
    }
  }

  // ---------------------------------------------------------------- the object

  class StreamReveal {
    const d: DigitClass
    const values: Held
    var held: string

    constructor (d: DigitClass, values: Held)
      ensures this.d == d && this.values == values && held == ""
    {
      this.d, this.values, held := d, values, "";
    }

    method Feed(piece: string) returns (r: string)
      modifies this
      ensures (r, held) == FeedStep(d, values, old(held), piece)
    {
      hide Reveal, OpenTagAt;
      var text := held + piece;
      held := "";
      if values != map[] {
        var opening := CutAt(text);
        if opening < |text| {
          held := text[opening..];
          text := text[..opening];
        }
      }
      r := Reveal(d, values, text);
      assert text[..|text|] == text && text[|text|..] == "";
    }

    method Flush() returns (r: string)
      modifies this
      ensures r == old(held) && held == ""
    {
      r := held;
      held := "";
    }
  }
}
