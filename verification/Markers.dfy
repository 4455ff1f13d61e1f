/** Citation markers, `[12]`, in a text that may be cut anywhere. */
module Markers {
  import opened Text

  /** The length of the `\[(\d+)\]` match at the head of `s`, or 0 where there is none. */
  function MarkerLen(d: DigitClass, s: string): (n: nat)
    ensures n <= |s|
    ensures n > 0 ==> n >= 3 && s[0] == '[' && s[n - 1] == ']' && forall i | 0 < i < n - 1 :: d(s[i])
  {
    if s != "" && s[0] == '[' then
      var n := DigitRun(d, s[1..]);
      if n > 0 && 1 + n < |s| && s[1 + n] == ']' then n + 2 else 0
    else
      0
  }

  /** A text as the scan for markers leaves it: the markers found, and the characters between them. */
  datatype Token = Plain(c: char) | Mark(id: string)

  /** `re.findall(r"\[(\d+)\]", s)` */
  function MarkedIds(toks: seq<Token>): seq<string> {
    if toks == [] then [] else (if toks[0].Mark? then [toks[0].id] else []) + MarkedIds(toks[1..])
  }

  /** No marker lies across the cut between `x` and `y`. */
  ghost predicate CleanCut(d: DigitClass, x: string, y: string) {
    forall i | 0 <= i < |x| :: MarkerLen(d, (x + y)[i..]) == MarkerLen(d, x[i..])
  }

  /** Text that ends in no open marker: nothing that follows it can complete one. */
  ghost predicate NothingOpen(d: DigitClass, x: string) {
    forall i | 0 <= i < |x| && x[i] == '[' :: DigitRun(d, x[i + 1..]) < |x| - i - 1
  }

  /** What makes a cut clean: the first half left nothing open, or the second starts with what no marker goes on
      with. */
  ghost predicate SafeCut(d: DigitClass, x: string, y: string) {
    NothingOpen(d, x) || (y != "" ==> !d(y[0]) && y[0] != ']')
  }

  lemma SafeCutIsClean(d: DigitClass, x: string, y: string)
    requires SafeCut(d, x, y)
    ensures CleanCut(d, x, y)
  {
    forall i | 0 <= i < |x|
      ensures MarkerLen(d, (x + y)[i..]) == MarkerLen(d, x[i..])
    {
      var u := x[i + 1..];
      assert x[i..] == [x[i]] + u && (x + y)[i..] == [x[i]] + (u + y);
      if x[i] == '[' {
        DigitRunIs(d, u + y, DigitRun(d, u) + if DigitRun(d, u) < |u| || y == "" then 0 else DigitRun(d, y));
      }
    }
  }

  lemma CleanCutTail(d: DigitClass, x: string, y: string, k: nat)
    requires CleanCut(d, x, y) && k <= |x|
    ensures CleanCut(d, x[k..], y)
  {
    forall i | 0 <= i < |x[k..]|
      ensures MarkerLen(d, (x[k..] + y)[i..]) == MarkerLen(d, x[k..][i..])
    {
      assert (x[k..] + y)[i..] == (x + y)[k + i..];
      assert x[k..][i..] == x[k + i..];
    }
  }

  /** How far one step of the scan goes, and what it finds. */
  function Step(d: DigitClass, s: string): (k: nat)
    requires s != ""
    ensures 0 < k <= |s|
  {
    if MarkerLen(d, s) == 0 then 1 else MarkerLen(d, s)
  }

  function Found(d: DigitClass, s: string): Token
    requires s != ""
  {
    if MarkerLen(d, s) == 0 then Plain(s[0]) else Mark(s[1..MarkerLen(d, s) - 1])
  }

  function Tokens(d: DigitClass, s: string): seq<Token>
    decreases |s|
  {
    if s == "" then [] else [Found(d, s)] + Tokens(d, s[Step(d, s)..])
  }

  /** Over a clean cut, the first step of the scan is the same whether or not the second half is there. */
  lemma CleanStep(d: DigitClass, x: string, y: string)
    requires x != "" && CleanCut(d, x, y)
    ensures Step(d, x + y) == Step(d, x) && Found(d, x + y) == Found(d, x)
    ensures (x + y)[Step(d, x)..] == x[Step(d, x)..] + y
    ensures CleanCut(d, x[Step(d, x)..], y)
  {
    hide MarkerLen;
    assert MarkerLen(d, x + y) == MarkerLen(d, x) by {
      assert (x + y)[0..] == x + y && x[0..] == x;
    }
    var k := Step(d, x);
    assert (x + y)[1..k] == x[1..k];
    assert MarkerLen(d, x) > 0 ==> (x + y)[1..MarkerLen(d, x) - 1] == x[1..MarkerLen(d, x) - 1];
    CleanCutTail(d, x, y, k);
  }

  lemma {:induction false} CleanTokens(d: DigitClass, x: string, y: string)
    requires CleanCut(d, x, y)
    ensures Tokens(d, x + y) == Tokens(d, x) + Tokens(d, y)
    decreases |x|
  {
    hide MarkerLen, Step, Found;
    if x == "" {
      assert x + y == y;
    } else {
      CleanStep(d, x, y);
      CleanTokens(d, x[Step(d, x)..], y);
    }
  }

  /** Scanning a text is scanning its two halves, across any safe cut. */
  lemma TokensAcross(d: DigitClass, x: string, y: string)
    requires SafeCut(d, x, y)
    ensures Tokens(d, x + y) == Tokens(d, x) + Tokens(d, y)
  {
    SafeCutIsClean(d, x, y);
    CleanTokens(d, x, y);
  }

  /** Characters none of which opens a marker, as tokens. */
  function Plains(s: string): seq<Token> {
    if s == "" then [] else [Plain(s[0])] + Plains(s[1..])
  }

  /** A text with no complete marker is all plain characters. */
  lemma {:induction false} NoMarkerTokens(d: DigitClass, s: string)
    requires forall i | 0 <= i < |s| && s[i] == '[' :: MarkerLen(d, s[i..]) == 0
    ensures Tokens(d, s) == Plains(s)
  {
    if s != "" {
      assert s[0..] == s;
      forall i | 0 <= i < |s[1..]| && s[1..][i] == '['
        ensures MarkerLen(d, s[1..][i..]) == 0
      {
        assert s[1..][i..] == s[i + 1..];
      }
      NoMarkerTokens(d, s[1..]);
    }
  }

  /** `$`: the end, or just before a newline that ends the text. */
  predicate AtDollar(s: string) { s == "" || s == "\n" }

  /** A match of `\[\d*$` at the head of `s`. */
  predicate OpenMarkerAt(d: DigitClass, s: string) {
    s != "" && s[0] == '[' && AtDollar(s[1 + DigitRun(d, s[1..])..])
  }

  /** An open marker holds no complete one, and at most one newline, at its end. */
  lemma OpenMarkerIsPlain(d: DigitClass, s: string)
    requires OpenMarkerAt(d, s)
    ensures forall i | 0 <= i < |s| && s[i] == '[' :: MarkerLen(d, s[i..]) == 0
    ensures forall i | 0 <= i < |s| - 1 :: s[i] != '\n'
  {
    var n := DigitRun(d, s[1..]);
    assert s[0..] == s;
    assert forall i | 0 < i <= n :: s[i] == s[1..][i - 1];
    assert forall i | n < i < |s| :: s[i] == s[1 + n..][i - 1 - n];
  }
}
