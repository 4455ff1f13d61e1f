/** What the scans for citation markers make of a text, told by the text alone: "[12]" wherever it stands, with the
    space before it, and nothing else. */
module MarkerTexts {
  import opened Text
  import opened Markers
  import opened ParagraphCitations

  ghost predicate Digits(d: DigitClass, n: string) { n != "" && forall i | 0 <= i < |n| :: d(n[i]) }

  function MarkerOf(n: string): string { "[" + n + "]" }

  /** The text begins with a marker. */
  ghost predicate Marked(d: DigitClass, s: string) { exists n, y :: Digits(d, n) && s == MarkerOf(n) + y }

  /** The text begins with a marker, or with a space and a marker. */
  ghost predicate SpaceMarked(d: DigitClass, s: string) {
    Marked(d, s) || exists n, y :: Digits(d, n) && s == " " + MarkerOf(n) + y
  }

  // ---------------------------------------------------------------- one marker

  lemma MarkerIsRead(d: DigitClass, n: string, y: string)
    requires Digits(d, n)
    ensures var s := MarkerOf(n) + y;
            MarkerLen(d, s) == |n| + 2 && s[..|n| + 2] == MarkerOf(n) && s[1..|n| + 1] == n && s[|n| + 2..] == y
  {
    var s := MarkerOf(n) + y;
    assert s[1..] == n + ("]" + y);
    DigitRunIs(d, n + ("]" + y), |n|);
  }

  lemma ReadIsMarker(d: DigitClass, s: string)
    ensures MarkerLen(d, s) > 0 ==> Marked(d, s)
  {
    var k := MarkerLen(d, s);
    if k > 0 {
      var n := s[1..k - 1];
      assert Digits(d, n);
      assert s == MarkerOf(n) + s[k..];
    }
  }

  lemma SpacedIsRead(d: DigitClass, n: string, y: string)
    requires Digits(d, n)
    ensures var s := " " + MarkerOf(n) + y;
            SpacedMarkerLen(d, s) == |n| + 3 && s[2..|n| + 2] == n && s[|n| + 3..] == y && s[0] == ' '
    ensures var s := MarkerOf(n) + y; SpacedMarkerLen(d, s) == |n| + 2 && s[0] == '['
  {
    hide MarkerLen;
    MarkerIsRead(d, n, y);
    var s, t := " " + MarkerOf(n) + y, MarkerOf(n) + y;
    assert s[1..] == t;
    assert s[2..|n| + 2] == t[1..|n| + 1] && s[|n| + 3..] == t[|n| + 2..];
    assert t[0..] == t;
  }

  lemma ReadIsSpaced(d: DigitClass, s: string)
    ensures SpacedMarkerLen(d, s) > 0 ==> SpaceMarked(d, s)
  {
    hide MarkerLen;
    if s != "" && s[0] == ' ' {
      ReadIsMarker(d, s[1..]);
      if n, y :| Digits(d, n) && s[1..] == MarkerOf(n) + y {
        assert s == " " + MarkerOf(n) + y;
      }
    } else {
      ReadIsMarker(d, s);
    }
  }

  // ---------------------------------------------------------------- the scans

  /** A marker is found and read over. */
  lemma MarkerIsToken(d: DigitClass, n: string, y: string)
    requires Digits(d, n)
    ensures Tokens(d, MarkerOf(n) + y) == [Mark(n)] + Tokens(d, y)
  {
    MarkerIsRead(d, n, y);
  }

  /** What begins no marker is a character of the text. */
  lemma OtherIsToken(d: DigitClass, s: string)
    requires s != "" && !Marked(d, s)
    ensures Tokens(d, s) == [Plain(s[0])] + Tokens(d, s[1..])
  {
    ReadIsMarker(d, s);
  }

  /** A marker goes, and the space before it with it. */
  lemma MarkerGoes(d: DigitClass, n: string, y: string)
    requires Digits(d, n)
    ensures WithoutMarkers(d, " " + MarkerOf(n) + y) == WithoutMarkers(d, y)
    ensures WithoutMarkers(d, MarkerOf(n) + y) == WithoutMarkers(d, y)
  {
    hide SpacedMarkerLen;
    SpacedIsRead(d, n, y);
  }

  /** Everything else stays. */
  lemma OtherStays(d: DigitClass, s: string)
    ensures WithoutMarkers(d, "") == ""
    ensures s != "" && !SpaceMarked(d, s) ==> WithoutMarkers(d, s) == [s[0]] + WithoutMarkers(d, s[1..])
  {
    hide SpacedMarkerLen, SpaceMarked;
    ReadIsSpaced(d, s);
  }

  /** A paragraph cites exactly what its markers name, in order. */
  lemma MarkerIsCited(d: DigitClass, n: string, y: string)
    requires Digits(d, n)
    ensures IdsOf(d, " " + MarkerOf(n) + y) == [n] + IdsOf(d, y)
    ensures IdsOf(d, MarkerOf(n) + y) == [n] + IdsOf(d, y)
  {
    hide SpacedMarkerLen, IdsOf;
    SpacedIsRead(d, n, y);
    IdIsRead(d, " " + MarkerOf(n) + y, |n| + 3, n);
    MarkerIsRead(d, n, y);
    IdIsRead(d, MarkerOf(n) + y, |n| + 2, n);
  }

  lemma IdIsRead(d: DigitClass, s: string, k: nat, id: string)
    requires s != "" && k == SpacedMarkerLen(d, s) > 2 && id == s[(if s[0] == ' ' then 2 else 1)..k - 1]
    ensures IdsOf(d, s) == [id] + IdsOf(d, s[k..])
  {
    hide SpacedMarkerLen;
  }

  lemma OtherIsNotCited(d: DigitClass, s: string)
    ensures IdsOf(d, "") == []
    ensures s != "" && !SpaceMarked(d, s) ==> IdsOf(d, s) == IdsOf(d, s[1..])
  {
    hide SpacedMarkerLen, SpaceMarked;
    ReadIsSpaced(d, s);
  }

  // ---------------------------------------------------------------- what is put at the end

  /** `_cite`: what is left of the text when white space is taken off its end, a space, and each id in brackets. */
  lemma CitedAtEnd(w: SpaceClass, text: string, ids: seq<string>) returns (bare: string, end: string)
    ensures text == bare + end && (forall i | 0 <= i < |end| :: w(end[i])) && (bare != "" ==> !w(bare[|bare| - 1]))
    ensures var markers := seq(|ids|, i requires 0 <= i < |ids| => MarkerOf(ids[i]));
            Cite(w, text, ids) == if ids == [] then text else bare + " " + Concat(markers)
  {
    bare := RStrip(w, text);
    end := StripsBlank(w, text);
    BracketsAre(ids);
  }

  lemma {:induction false} StripsBlank(w: SpaceClass, text: string) returns (end: string)
    ensures text == RStrip(w, text) + end && IsBlank(w, end)
    ensures RStrip(w, text) != "" ==> !w(RStrip(w, text)[|RStrip(w, text)| - 1])
  {
    end := "";
    if text != "" && w(text[|text| - 1]) {
      var front := StripsBlank(w, text[..|text| - 1]);
      end := front + [text[|text| - 1]];
    }
  }

  lemma {:induction false} BracketsAre(ids: seq<string>)
    ensures Brackets(ids) == Concat(seq(|ids|, i requires 0 <= i < |ids| => MarkerOf(ids[i])))
  {
    var all := seq(|ids|, i requires 0 <= i < |ids| => MarkerOf(ids[i]));
    if ids != [] {
      BracketsAre(ids[1..]);
      assert all[1..] == seq(|ids[1..]|, i requires 0 <= i < |ids[1..]| => MarkerOf(ids[1..][i]));
      assert all[0] == MarkerOf(ids[0]);
    }
  }

  // ---------------------------------------------------------------- paragraphs

  /** A text is split at its first break, and the rest likewise; a text without one is a paragraph. */
  lemma SplitAtFirst(s: string, i: nat)
    ensures (forall k | 0 <= k < |s| :: !BreakAt(s[k..])) ==> Paragraphs(s) == [s]
    ensures i < |s| && BreakAt(s[i..]) && (forall k | 0 <= k < i :: !BreakAt(s[k..])) ==>
              Paragraphs(s) == [s[..i]] + Paragraphs(s[i + 2..])
  {
    if forall k | 0 <= k < |s| :: !BreakAt(s[k..]) {
      WholeParagraph(s);
    }
    if i < |s| && BreakAt(s[i..]) && forall k | 0 <= k < i :: !BreakAt(s[k..]) {
      SplitThere(s, i);
    }
  }

  lemma {:induction false} WholeParagraph(s: string)
    requires forall k | 0 <= k < |s| :: !BreakAt(s[k..])
    ensures Paragraphs(s) == [s]
  {
    if s != "" {
      assert s[0..] == s;
      assert forall k | 0 <= k < |s[1..]| :: s[1..][k..] == s[k + 1..];
      WholeParagraph(s[1..]);
      assert s == [s[0]] + s[1..];
    }
  }

  lemma {:induction false} SplitThere(s: string, i: nat)
    requires i < |s| && BreakAt(s[i..]) && forall k | 0 <= k < i :: !BreakAt(s[k..])
    ensures Paragraphs(s) == [s[..i]] + Paragraphs(s[i + 2..])
    decreases i
  {
    assert s[0..] == s;
    if i > 0 {
      assert forall k | 0 <= k < |s[1..]| :: s[1..][k..] == s[k + 1..];
      SplitThere(s[1..], i - 1);
      assert s[..i] == [s[0]] + s[1..][..i - 1] && s[1..][i - 1 + 2..] == s[i + 2..];
    }
  }
}
