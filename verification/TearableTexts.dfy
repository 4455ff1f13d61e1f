/** Which answers keep their paragraphs however they are cut into pieces. */
module TearableTexts {
  import opened Text
  import opened Markers
  import opened ParagraphCitations
  import opened ParagraphBreaks
  import opened StreamedBreaks

  // ---------------------------------------------------------------- the condition on a text

  /** The page of a text read from its start. */
  function PageOfText(d: DigitClass, w: SpaceClass, s: string): Page { PageOf(w, EMPTY, Lex(d, s)) }

  /** A piece that ends at `b` leaves a paragraph torn: what goes out of the text up to there shows a break after the
      paragraph's last words, only white space and markers are left of it, and it cites something. */
  predicate TornAt(d: DigitClass, w: SpaceClass, text: string, b: nat)
    requires b <= |text|
  {
    var cut := CutAt(d, text[..b]);
    TornFrom(w, PageOfText(d, w, text[..cut]), Lex(d, text[cut..]))
  }

  predicate FourNewLines(s: string) { |s| >= 4 && s[..4] == "\n\n\n\n" }

  /** At `m` begin four newlines or more, after a paragraph that has words and cites something. */
  predicate LongBreakAt(d: DigitClass, w: SpaceClass, text: string, m: nat)
    requires m <= |text|
  {
    && FourNewLines(text[m..]) && (m > 0 ==> text[m - 1] != '\n')
    && PageOfText(d, w, text[..m]).cur != "" && PageOfText(d, w, text[..m]).cited != []
  }

  // ---------------------------------------------------------------- the cut is the text's, not the piece's

  lemma OpenMarkerFront(d: DigitClass, s: string, t: string)
    requires s != "" && OpenMarkerAt(d, s + t)
    ensures OpenMarkerAt(d, s)
  {
    var all := s + t;
    var n := DigitRun(d, all[1..]);
    assert all[1..] == s[1..] + t;
    if n < |s[1..]| {
      assert forall i | 0 <= i < n :: s[1..][i] == all[1..][i];
      DigitRunIs(d, s[1..], n);
      assert all[1 + n..] == s[1 + n..] + t;
    } else {
      assert forall i | 0 <= i < |s[1..]| :: s[1..][i] == all[1..][i];
      DigitRunIs(d, s[1..], |s[1..]|);
    }
  }

  /** What is held for the front of a text would be held for the front alone. */
  lemma MaybeMoreFront(d: DigitClass, s: string, t: string)
    ensures s != "" && MaybeMoreAt(d, s + t) ==> MaybeMoreAt(d, s)
  {
    if s != "" && MaybeMoreAt(d, s + t) {
      var all := s + t;
      assert all[1..] == s[1..] + t;
      if OpenMarkerAt(d, all) {
        OpenMarkerFront(d, s, t);
      } else if all[0] == ' ' && OpenMarkerAt(d, all[1..]) && s[1..] != "" {
        OpenMarkerFront(d, s[1..], t);
      }
    }
  }

  lemma NotHeldBefore(d: DigitClass, before: string, held: string, piece: string, i: nat)
    requires CutAt(d, before + held) == |before| && i < |before|
    ensures !MaybeMoreAt(d, (before + (held + piece))[i..])
  {
    hide MaybeMoreAt;
    assert (before + (held + piece))[i..] == (before + held)[i..] + piece;
    MaybeMoreFront(d, (before + held)[i..], piece);
  }

  /** The cut does not move back when more text comes. */
  lemma CutGoesOn(d: DigitClass, before: string, held: string, piece: string)
    requires CutAt(d, before + held) == |before|
    ensures CutAt(d, before + (held + piece)) == |before| + CutAt(d, held + piece)
  {
    hide MaybeMoreAt;
    var text := held + piece;
    var all := before + text;
    var c := CutAt(d, text);
    forall i | 0 <= i < |before| + c
      ensures !MaybeMoreAt(d, all[i..])
    {
      if i < |before| {
        NotHeldBefore(d, before, held, piece, i);
      } else {
        assert all[i..] == text[i - |before|..];
      }
    }
    assert all[|before| + c..] == text[c..];
    CutIs(d, all, |before| + c);
  }

  // ---------------------------------------------------------------- newlines

  function NewLinesOf(n: nat): string { if n == 0 then "" else "\n" + NewLinesOf(n - 1) }

  lemma {:induction false} NewLinesLexed(d: DigitClass, n: nat, rest: string)
    ensures Lex(d, NewLinesOf(n) + rest) == Lex(d, NewLinesOf(n)) + Lex(d, rest)
    ensures n > 0 ==> Lex(d, NewLinesOf(n)) == [Plain('\n')] + Lex(d, NewLinesOf(n - 1))
  {
    hide Lex;
    LexNotEmpty(d, "");
    if n == 0 {
      assert "" + rest == rest && Lex(d, "") + Lex(d, rest) == Lex(d, rest);
    } else {
      NewLinesLexed(d, n - 1, rest);
      var s := NewLinesOf(n - 1);
      LexPlain(d, '\n', s);
      LexPlain(d, '\n', s + rest);
      assert NewLinesOf(n) + rest == ['\n'] + (s + rest) && NewLinesOf(n) == ['\n'] + s;
      Associate([Plain('\n')], Lex(d, s), Lex(d, rest));
    }
  }

  lemma {:induction false} IdleNewLines(d: DigitClass, w: SpaceClass, p: Page, n: nat, z: seq<Token>)
    requires p.cur == "" && p.gap == NoGap && p.cited == []
    ensures PageOf(w, p, Lex(d, NewLinesOf(n)) + z) == PageOf(w, p, z)
  {
    hide Lex, PageOf;
    NewLinesLexed(d, n, "");
    LexNotEmpty(d, "");
    if n == 0 {
      assert [] + z == z;
    } else {
      var tail := Lex(d, NewLinesOf(n - 1));
      Associate([Plain('\n')], tail, z);
      IdleNewLine(w, p, tail + z);
      IdleNewLines(d, w, p, n - 1, z);
    }
  }

  /** However many newlines end a paragraph, they end it once. */
  lemma ManyNewLines(d: DigitClass, w: SpaceClass, p: Page, n: nat, z: seq<Token>)
    requires n >= 2
    ensures PageOf(w, p, Lex(d, NewLinesOf(n)) + z) == PageOf(w, Close(w, p), z)
  {
    hide Lex, Close, PageOf;
    var rest := Lex(d, NewLinesOf(n - 2));
    NewLinesLexed(d, n, "");
    NewLinesLexed(d, n - 1, "");
    assert Lex(d, NewLinesOf(n)) + z == [Plain('\n')] + ([Plain('\n')] + (rest + z));
    BreakFirst(w, p, rest + z);
    CloseIsClean(w, p);
    IdleNewLines(d, w, Close(w, p), n - 2, z);
  }

  lemma BreakFirst(w: SpaceClass, p: Page, rest: seq<Token>)
    ensures PageOf(w, p, [Plain('\n')] + ([Plain('\n')] + rest)) == PageOf(w, Close(w, p), rest)
  {
    hide Close;
    var toks := [Plain('\n')] + ([Plain('\n')] + rest);
    assert toks[1..] == [Plain('\n')] + rest && toks[2..] == rest;
  }

  ghost predicate EndsInLine(s: string) { s != "" && s[|s| - 1] == '\n' }

  /** A text that ends in a newline: what comes before its last newlines, and how many they are. */
  lemma {:induction false} LastNewLines(s: string) returns (front: string, n: nat)
    ensures s == front + NewLinesOf(n) && !EndsInLine(front) && (EndsInLine(s) ==> n > 0)
    decreases |s|
  {
    if EndsInLine(s) {
      front, n := LastNewLines(s[..|s| - 1]);
      NewLinesSnoc(n);
      assert s == s[..|s| - 1] + "\n";
      Associate(front, NewLinesOf(n), "\n");
      n := n + 1;
    } else {
      front, n := s, 0;
      assert s + "" == s;
    }
  }

  lemma {:induction false} NewLinesSnoc(n: nat)
    ensures NewLinesOf(n) + "\n" == NewLinesOf(n + 1)
  {
    if n > 0 {
      NewLinesSnoc(n - 1);
      Associate("\n", NewLinesOf(n - 1), "\n");
    } else {
      assert "" + "\n" == "\n" + "";
    }
  }

  /** Newlines after a text, and what comes after them. */
  lemma PageFrom(d: DigitClass, w: SpaceClass, front: string, n: nat, rest: string)
    requires !EndsInLine(front) && n > 0
    ensures PageOfText(d, w, front + (NewLinesOf(n) + rest))
         == PageOf(w, PageOfText(d, w, front), Lex(d, NewLinesOf(n)) + Lex(d, rest))
  {
    hide Lex, PageOf;
    var y := NewLinesOf(n) + rest;
    assert y[0] == '\n';
    LexAcross(d, front, y);
    NewLinesLexed(d, n, rest);
    LexNotEmpty(d, front);
    if Lex(d, front) != [] && Lex(d, front)[|Lex(d, front)| - 1] == Plain('\n') {
      LastLexed(d, front);
    }
    PageAcross(w, EMPTY, Lex(d, front), Lex(d, y));
  }

  lemma PageAfterBreak(d: DigitClass, w: SpaceClass, front: string, n: nat, rest: string)
    requires !EndsInLine(front) && n >= 2
    ensures PageOfText(d, w, front + (NewLinesOf(n) + rest))
            == PageOf(w, Close(w, PageOfText(d, w, front)), Lex(d, rest))
  {
    hide PageOfText, Lex, PageOf, Close;
    PageFrom(d, w, front, n, rest);
    ManyNewLines(d, w, PageOfText(d, w, front), n, Lex(d, rest));
  }

  // ---------------------------------------------------------------- the pages a run can reach

  /** Two newlines shown as they came, their paragraph still open. */
  function Twice(w: SpaceClass, p: Page): Page { Put(w, Put(w, p, '\n'), '\n') }

  /** A run can leave a paragraph open behind two newlines or more, where one more break is held. */
  ghost predicate Waiting(d: DigitClass, w: SpaceClass, before: string, p: Page, held: string) {
    held == "\n\n" && exists front, n :: WaitsAt(d, w, before, p, front, n)
  }

  ghost predicate WaitsAt(d: DigitClass, w: SpaceClass, before: string, p: Page, front: string, n: nat) {
    n >= 2 && before == front + NewLinesOf(n) && !EndsInLine(front) && p == Twice(w, PageOfText(d, w, front))
  }

  /** After some pieces that come to `before + held`. */
  ghost predicate Reached(d: DigitClass, w: SpaceClass, before: string, p: Page, held: string) {
    && CutAt(d, before + held) == |before|
    && (p == PageOfText(d, w, before) || Waiting(d, w, before, p, held))
  }

  lemma TwiceIdle(w: SpaceClass, p: Page)
    ensures Put(w, Twice(w, p), '\n') == Twice(w, p) && Close(w, Twice(w, p)) == Close(w, p)
    ensures Twice(w, p).gap.Parted? && (p.cur == "" ==> !p.gap.Parted?) ==> p.cur != ""
    ensures Twice(w, p).cited == p.cited && Twice(w, p).cur == p.cur
    ensures p.cur != "" ==> Twice(w, p).gap == Parted
  {}

  /** One newline alone is let go only where a break was held and a newline came. */
  lemma OneLineGoes(d: DigitClass, text: string)
    requires BreakAt(text) && CutAt(d, text) <= 1
    ensures CutAt(d, text) == 0 ==> text == "\n\n"
    ensures CutAt(d, text) == 1 ==> text[..1] == "\n" && text[1..] == "\n\n"
  {
    hide CutAt;
    var c := CutAt(d, text);
    assert text[0..] == text;
    var left := text[c..];
    assert left[0] == '\n' && MaybeMoreAt(d, left);
    NewLineHeld(d, left);
    BreakIsHeld(d);
    assert c == 1 ==> text == "\n" + left;
  }

  lemma BreakIsHeld(d: DigitClass)
    ensures CutAt(d, "\n\n") == 0 && "\n" + "\n" == "\n\n"
  {
    TwoHeld(d);
    assert "\n\n"[0..] == "\n\n";
    CutIs(d, "\n\n", 0);
  }

  lemma NewLineHeld(d: DigitClass, left: string)
    requires left != "" && left[0] == '\n' && MaybeMoreAt(d, left)
    ensures left == "\n" || left == "\n\n"
  {
    assert left == ['\n'] + left[1..];
  }

  lemma LineLexed(d: DigitClass, w: SpaceClass, p: Page)
    ensures PageOf(w, p, Lex(d, "\n")) == Put(w, p, '\n')
  {
    hide Lex, Put;
    LexPlain(d, '\n', "");
    LexNotEmpty(d, "");
    assert ['\n'] + "" == "\n";
    var toks := [Plain('\n')];
    assert toks[1..] == [];
  }

  /** A piece after a page read from the start, where it takes no newline from a break. */
  lemma PageGoesOn(d: DigitClass, w: SpaceClass, before: string, held: string, piece: string)
    requires CutAt(d, before + held) == |before|
    ensures var done := (held + piece)[..CutAt(d, held + piece)];
            !EndsInLine(before) || done != "\n" ==>
              PageOf(w, PageOfText(d, w, before), Lex(d, done)) == PageOfText(d, w, before + done)
  {
    hide CutAt, Lex, PageOf, SafeCut, LexCut, BreakKept;
    var text := held + piece;
    var done := text[..CutAt(d, text)];
    if !EndsInLine(before) || done != "\n" {
      assert (before + held)[..|before|] == before && (before + held)[|before|..] == held;
      CutIsSafe(d, before + held, piece);
      CutIsLexCut(d, before + held, piece);
      FrontLexes(d, before, text, done);
      BreakOfFront(text, done);
      LinesKept(d, before, done);
      PageAcross(w, EMPTY, Lex(d, before), Lex(d, done));
    }
  }

  lemma LinesKept(d: DigitClass, before: string, done: string)
    requires EndsInLine(before) && done != "" && done[0] == '\n' ==> BreakAt(done)
    ensures BreakKept(Lex(d, before), Lex(d, done))
  {
    hide Lex;
    LexNewLine(d, done);
    LexNotEmpty(d, before);
    if Lex(d, before) != [] && Lex(d, before)[|Lex(d, before)| - 1] == Plain('\n') {
      LastLexed(d, before);
    }
  }

  lemma BreakOfFront(text: string, done: string)
    requires done <= text
    ensures done != "" && done[0] == '\n' && BreakAt(text) && done != "\n" ==> BreakAt(done)
  {
    if done != "" && done[0] == '\n' && done != "\n" {
      assert |done| > 1;
    }
  }

  lemma FrontLexes(d: DigitClass, before: string, text: string, done: string)
    requires LexCut(d, before, text) && done <= text
    ensures Lex(d, before + done) == Lex(d, before) + Lex(d, done)
  {
    hide Lex;
    if done == "" {
      LexNotEmpty(d, "");
      assert before + "" == before;
    } else {
      assert done[0] == text[0];
      LexAcross(d, before, done);
    }
  }

  /** A page read from the start, and one newline let go behind another. */
  lemma LineGoes(d: DigitClass, w: SpaceClass, before: string)
    requires EndsInLine(before)
    ensures var p := PageOf(w, PageOfText(d, w, before), Lex(d, "\n"));
            p == PageOfText(d, w, before + "\n") || Waiting(d, w, before + "\n", p, "\n\n")
  {
    hide Lex, PageOf, PageOfText, Put, Close;
    var front, n := LastNewLines(before);
    NewLinesSnoc(n);
    assert before + "\n" == front + NewLinesOf(n + 1) by { Associate(front, NewLinesOf(n), "\n"); }
    LineLexed(d, w, PageOfText(d, w, before));
    if n == 1 {
      OneLineShown(d, w, front);
      assert WaitsAt(d, w, before + "\n", Twice(w, PageOfText(d, w, front)), front, 2);
    } else {
      PageBreaks(d, w, front, n);
      PageBreaks(d, w, front, n + 1);
      ClosedIdle(w, PageOfText(d, w, front));
    }
  }

  lemma ClosedIdle(w: SpaceClass, p: Page)
    ensures Put(w, Close(w, p), '\n') == Close(w, p)
  {}

  lemma OneLineShown(d: DigitClass, w: SpaceClass, front: string)
    requires !EndsInLine(front)
    ensures NewLinesOf(1) == "\n" && PageOfText(d, w, front + "\n") == Put(w, PageOfText(d, w, front), '\n')
  {
    hide Lex, PageOf, PageOfText, Put;
    assert NewLinesOf(1) == "\n" + NewLinesOf(0) == "\n";
    PageFrom(d, w, front, 1, "");
    LexNotEmpty(d, "");
    assert Lex(d, "\n") + [] == Lex(d, "\n") && front + ("\n" + "") == front + "\n";
    LineLexed(d, w, PageOfText(d, w, front));
  }

  lemma PageBreaks(d: DigitClass, w: SpaceClass, front: string, n: nat)
    requires !EndsInLine(front) && n >= 2
    ensures PageOfText(d, w, front + NewLinesOf(n)) == Close(w, PageOfText(d, w, front))
  {
    hide Lex, PageOf, PageOfText, Close;
    PageAfterBreak(d, w, front, n, "");
    LexNotEmpty(d, "");
    assert NewLinesOf(n) + "" == NewLinesOf(n);
    NothingPaged(w, Close(w, PageOfText(d, w, front)));
  }

  lemma NothingPaged(w: SpaceClass, p: Page)
    ensures PageOf(w, p, []) == p
  {}

  /** A page that waits, after one more piece: it waits on, or its break has come. */
  lemma WaitingGoes(d: DigitClass, w: SpaceClass, before: string, p: Page, piece: string, front: string, n: nat)
    requires WaitsAt(d, w, before, p, front, n)
    ensures var text := "\n\n" + piece;
            var done, left := text[..CutAt(d, text)], text[CutAt(d, text)..];
            var next := PageOf(w, p, Lex(d, done));
            next == PageOfText(d, w, before + done) || Waiting(d, w, before + done, next, left)
  {
    hide CutAt, Lex, PageOf, PageOfText, Waiting, WaitsAt;
    var text := "\n\n" + piece;
    if CutAt(d, text) <= 1 {
      OneLineGoes(d, text);
      if CutAt(d, text) == 0 {
        WaitsOn(d, w, before, p, front, n);
      } else {
        WaitsLonger(d, w, before, p, front, n);
      }
    } else {
      var done := text[..CutAt(d, text)];
      assert done == "\n\n" + done[2..];
      WaitOver(d, w, before, p, front, n, done[2..]);
    }
  }

  lemma WaitsOn(d: DigitClass, w: SpaceClass, before: string, p: Page, front: string, n: nat)
    requires WaitsAt(d, w, before, p, front, n)
    ensures Waiting(d, w, before + "", PageOf(w, p, Lex(d, "")), "\n\n")
  {
    hide Lex, PageOf, PageOfText, WaitsAt;
    LexNotEmpty(d, "");
    NothingPaged(w, p);
    assert before + "" == before;
  }

  lemma WaitsLonger(d: DigitClass, w: SpaceClass, before: string, p: Page, front: string, n: nat)
    requires WaitsAt(d, w, before, p, front, n)
    ensures Waiting(d, w, before + "\n", PageOf(w, p, Lex(d, "\n")), "\n\n")
  {
    hide Lex, PageOf, PageOfText, Put, Twice;
    LineLexed(d, w, p);
    TwiceIdle(w, PageOfText(d, w, front));
    NewLinesSnoc(n);
    Associate(front, NewLinesOf(n), "\n");
    assert WaitsAt(d, w, before + "\n", p, front, n + 1);
  }

  lemma WaitOver(d: DigitClass, w: SpaceClass, before: string, p: Page, front: string, n: nat, rest: string)
    requires WaitsAt(d, w, before, p, front, n)
    ensures PageOf(w, p, Lex(d, "\n\n" + rest)) == PageOfText(d, w, before + ("\n\n" + rest))
  {
    hide Lex, PageOf, PageOfText, Close, Twice;
    TwiceIdle(w, PageOfText(d, w, front));
    BreakPaged(d, w, p, rest);
    TwoMoreLines(n);
    Regroup(front, NewLinesOf(n), "\n\n", rest);
    PageAfterBreak(d, w, front, n + 2, rest);
  }

  lemma TwoMoreLines(n: nat)
    ensures NewLinesOf(n) + "\n\n" == NewLinesOf(n + 2)
  {
    NewLinesSnoc(n);
    NewLinesSnoc(n + 1);
    assert NewLinesOf(n) + "\n\n" == (NewLinesOf(n) + "\n") + "\n";
  }

  lemma BreakPaged(d: DigitClass, w: SpaceClass, p: Page, rest: string)
    ensures PageOf(w, p, Lex(d, "\n\n" + rest)) == PageOf(w, Close(w, p), Lex(d, rest))
  {
    hide Lex, Close, PageOf;
    assert NewLinesOf(2) == "\n" + ("\n" + NewLinesOf(0)) == "\n\n";
    NewLinesLexed(d, 2, rest);
    ManyNewLines(d, w, p, 2, Lex(d, rest));
  }

  /** Every page a run comes to is one it can reach. */
  lemma ReachNext(d: DigitClass, w: SpaceClass, before: string, p: Page, held: string, piece: string)
    requires Reached(d, w, before, p, held)
    ensures var text := held + piece;
            var done, left := text[..CutAt(d, text)], text[CutAt(d, text)..];
            Reached(d, w, before + done, PageOf(w, p, Lex(d, done)), left)
  {
    hide CutAt, Lex, PageOf, PageOfText, Waiting;
    var text := held + piece;
    var done, left := text[..CutAt(d, text)], text[CutAt(d, text)..];
    CutGoesOn(d, before, held, piece);
    assert before + text == (before + done) + left;
    if p == PageOfText(d, w, before) {
      PageGoesOn(d, w, before, held, piece);
      if EndsInLine(before) && done == "\n" {
        LineGoes(d, w, before);
        LineLeft(d, before, held, piece);
      }
    } else {
      var front, n := WaitsSomewhere(d, w, before, p, held);
      WaitingGoes(d, w, before, p, piece, front, n);
    }
  }

  lemma WaitsSomewhere(d: DigitClass, w: SpaceClass, before: string, p: Page, held: string)
    returns (front: string, n: nat)
    requires Waiting(d, w, before, p, held)
    ensures held == "\n\n" && WaitsAt(d, w, before, p, front, n)
  {
    front, n :| WaitsAt(d, w, before, p, front, n);
  }

  lemma LineLeft(d: DigitClass, before: string, held: string, piece: string)
    requires CutAt(d, before + held) == |before| && EndsInLine(before)
    requires (held + piece)[..CutAt(d, held + piece)] == "\n"
    ensures (held + piece)[CutAt(d, held + piece)..] == "\n\n"
  {
    hide CutAt, SafeCut;
    assert (before + held)[..|before|] == before && (before + held)[|before|..] == held;
    CutIsSafe(d, before + held, piece);
    LineFirst(held + piece, CutAt(d, held + piece));
    OneLineGoes(d, held + piece);
  }

  lemma LineFirst(text: string, cut: nat)
    requires cut <= |text| && text[..cut] == "\n"
    ensures cut == 1 && text != "" && text[0] == '\n'
  {
    assert text[..cut][0] == text[0];
  }

  lemma {:induction false} RunReaches(d: DigitClass, w: SpaceClass, before: string, p: Page, held: string,
                                      pieces: seq<string>)
    returns (end: string)
    requires Reached(d, w, before, p, held)
    ensures var (page, left) := After(d, w, p, held, pieces);
            end + left == before + (held + Concat(pieces)) && Reached(d, w, end, page, left)
    decreases |pieces|
  {
    hide Reached, CutAt, Lex, PageOf, Concat;
    TextNext(held, pieces);
    if pieces == [] {
      end := before;
    } else {
      var text, more := held + pieces[0], Concat(pieces[1..]);
      var done, left := text[..CutAt(d, text)], text[CutAt(d, text)..];
      ReachNext(d, w, before, p, held, pieces[0]);
      end := RunReaches(d, w, before + done, PageOf(w, p, Lex(d, done)), left, pieces[1..]);
      Regroup(before, done, left, more);
      assert text == done + left;
    }
  }

  lemma Regroup(before: string, done: string, left: string, more: string)
    ensures (before + done) + (left + more) == before + ((done + left) + more)
  {}

  // ---------------------------------------------------------------- the condition is enough

  lemma ReachedFromStart(d: DigitClass, w: SpaceClass)
    ensures Reached(d, w, "", EMPTY, "")
  {
    assert "" + "" == "" && Lex(d, "") == [];
  }

  /** A run that tears a paragraph does so at a cut of the text, or in a long break of it. */
  lemma TearShows(d: DigitClass, w: SpaceClass, text: string, before: string, p: Page, held: string, more: string)
    requires Reached(d, w, before, p, held) && text == (before + held) + more && TornFrom(w, p, Lex(d, held + more))
    ensures || TornAt(d, w, text, |before + held|)
            || exists m: nat | m <= |text| :: LongBreakAt(d, w, text, m)
  {
    hide CutAt, Lex, PageOf, TornFrom, PageOfText, Waiting, LongBreakAt;
    if p == PageOfText(d, w, before) {
      assert text[..|before + held|] == before + held && text[..|before|] == before && text[|before|..] == held + more;
    } else {
      var front, n := WaitsSomewhere(d, w, before, p, held);
      Associate(front, NewLinesOf(n), "\n\n");
      WaitShows(d, w, text, before, p, more, front, n);
    }
  }

  lemma {:induction false} TornCites(w: SpaceClass, p: Page, rest: seq<Token>)
    requires TornFrom(w, p, rest) && BreakIn(rest)
    ensures p.gap.Parted? && p.cited != []
  {}

  lemma WaitShows(d: DigitClass, w: SpaceClass, text: string, before: string, p: Page, more: string, front: string,
                  n: nat)
    requires WaitsAt(d, w, before, p, front, n) && text == front + (NewLinesOf(n) + "\n\n") + more
    requires TornFrom(w, p, Lex(d, "\n\n" + more))
    ensures LongBreakAt(d, w, text, |front|)
  {
    hide Lex, PageOf, TornFrom, PageOfText, Twice;
    var q := PageOfText(d, w, front);
    LexNewLine(d, "\n\n" + more);
    TornCites(w, p, Lex(d, "\n\n" + more));
    TwiceIdle(w, q);
    PageIsTidy(d, w, front);
    TwoMoreLines(n);
    FourOf(n - 2);
    FourAfter(text, front, NewLinesOf(n + 2), more);
  }

  lemma FourAfter(text: string, front: string, lines: string, more: string)
    requires text == front + lines + more && FourNewLines(lines) && !EndsInLine(front)
    ensures |front| <= |text| && text[..|front|] == front && FourNewLines(text[|front|..])
    ensures |front| > 0 ==> text[|front| - 1] != '\n'
  {
    assert text[|front|..] == lines + more;
    assert (lines + more)[..4] == lines[..4];
  }

  lemma FourOf(n: nat)
    ensures |NewLinesOf(n + 4)| >= 4 && NewLinesOf(n + 4)[..4] == "\n\n\n\n"
  {
    var rest := NewLinesOf(n);
    assert NewLinesOf(n + 1) == "\n" + rest && NewLinesOf(n + 2) == "\n" + NewLinesOf(n + 1);
    assert NewLinesOf(n + 3) == "\n" + NewLinesOf(n + 2) && NewLinesOf(n + 4) == "\n" + NewLinesOf(n + 3);
    assert NewLinesOf(n + 4) == "\n\n\n\n" + rest;
  }

  lemma PageIsTidy(d: DigitClass, w: SpaceClass, s: string)
    ensures PageOfText(d, w, s).cur == "" ==> PageOfText(d, w, s).gap.NoGap?
  {
    PageTidy(w, EMPTY, Lex(d, s));
  }

  /** No cut tears a text that none of its cuts and none of its breaks can tear. */
  ghost predicate Whole(d: DigitClass, w: SpaceClass, text: string) {
    && (forall b: nat | b <= |text| :: !TornAt(d, w, text, b))
    && (forall m: nat | m <= |text| :: !LongBreakAt(d, w, text, m))
  }

  lemma {:induction false} ConcatSplit(pieces: seq<string>, i: nat)
    requires i <= |pieces|
    ensures Concat(pieces) == Concat(pieces[..i]) + Concat(pieces[i..])
  {
    ConcatAppend(pieces[..i], pieces[i..]);
    assert pieces == pieces[..i] + pieces[i..];
  }

  lemma WholeIsNotTorn(d: DigitClass, w: SpaceClass, pieces: seq<string>, i: nat)
    requires Whole(d, w, Concat(pieces)) && i <= |pieces|
    ensures !TornAfter(d, w, EMPTY, "", pieces, i)
  {
    hide Lex, CutAt, TornFrom, TornAt, LongBreakAt, Reached, After, Concat;
    ReachedFromStart(d, w);
    var end := RunReaches(d, w, "", EMPTY, "", pieces[..i]);
    var (page, left) := After(d, w, EMPTY, "", pieces[..i]);
    ConcatSplit(pieces, i);
    assert "" + ("" + Concat(pieces[..i])) == Concat(pieces[..i]);
    if TornFrom(w, page, Lex(d, left + Concat(pieces[i..]))) {
      TearShows(d, w, Concat(pieces), end, page, left, Concat(pieces[i..]));
    }
  }

  // ---------------------------------------------------------------- the condition is needed

  lemma OneAfter(d: DigitClass, w: SpaceClass, p: Page, held: string, piece: string)
    ensures var text := held + piece;
            After(d, w, p, held, [piece]) == (PageOf(w, p, Lex(d, text[..CutAt(d, text)])), text[CutAt(d, text)..])
  {
    hide Lex, PageOf, CutAt;
    assert [piece][1..] == [];
  }

  lemma TornAtTears(d: DigitClass, w: SpaceClass, text: string, b: nat) returns (pieces: seq<string>)
    requires b <= |text| && TornAt(d, w, text, b)
    ensures Concat(pieces) == text && |pieces| == 2 && TornAfter(d, w, EMPTY, "", pieces, 1)
  {
    hide Lex, PageOf, CutAt, TornFrom, After, Concat;
    pieces := [text[..b], text[b..]];
    ConcatTwo(text[..b], text[b..]);
    assert text == text[..b] + text[b..];
    assert pieces[..1] == [text[..b]] && pieces[1..] == [text[b..]];
    OneAfter(d, w, EMPTY, "", text[..b]);
    assert "" + text[..b] == text[..b];
    ConcatOne(text[b..]);
    var cut := CutAt(d, text[..b]);
    assert text[..b][..cut] == text[..cut];
    assert text[..b][cut..] + text[b..] == text[cut..];
  }

  /** Three newlines are one too many to hold. */
  lemma ThreeNotHeld(d: DigitClass, s: string)
    requires |s| >= 3 && s[|s| - 3..] == "\n\n\n"
    ensures !MaybeMoreAt(d, s)
  {
    var n := |s|;
    assert s[n - 1] == s[n - 3..][2] && s[n - 2] == s[n - 3..][1] && s[n - 3] == s[n - 3..][0];
    ThreeNotOpen(d, s);
    if s[0] == ' ' {
      var t := s[1..];
      assert |t| >= 3 && t[|t| - 3..] == s[n - 3..];
      ThreeNotOpen(d, t);
    }
  }

  lemma ThreeNotOpen(d: DigitClass, s: string)
    requires |s| >= 3 && s[|s| - 1] == '\n' && s[|s| - 2] == '\n'
    ensures !OpenMarkerAt(d, s)
  {
    if s[0] == '[' {
      var n := DigitRun(d, s[1..]);
      assert s[1..][|s| - 3] == '\n';
      assert |s[1 + n..]| >= 2;
    }
  }

  lemma CutOfThree(d: DigitClass, front: string)
    ensures CutAt(d, front + "\n\n\n") == |front| + 1
  {
    hide MaybeMoreAt;
    var s := front + "\n\n\n";
    forall i | 0 <= i < |front| + 1
      ensures !MaybeMoreAt(d, s[i..])
    {
      assert s[i..][|s| - i - 3..] == s[|s| - 3..] == "\n\n\n";
      ThreeNotHeld(d, s[i..]);
    }
    assert s[|front| + 1..] == "\n\n";
    TwoHeld(d);
    CutIs(d, s, |front| + 1);
  }

  /** Cut behind its third newline, and again behind its fourth, a long break is shown before what it should follow. */
  lemma LongBreakTears(d: DigitClass, w: SpaceClass, text: string, m: nat) returns (pieces: seq<string>)
    requires m <= |text| && LongBreakAt(d, w, text, m)
    ensures Concat(pieces) == text && |pieces| == 3 && TornAfter(d, w, EMPTY, "", pieces, 2)
  {
    hide Lex, PageOf, CutAt, TornFrom, After, Concat, PageOfText, Twice;
    var front, more := text[..m], text[m..][4..];
    assert text == front + ("\n\n\n\n" + more) by { assert text[m..] == text[m..][..4] + more; }
    pieces := [front + "\n\n\n", "\n", more];
    ThreePieces(front, more);
    LongBreakShown(d, w, front);
    assert pieces[..2] == [front + "\n\n\n", "\n"] && pieces[2..] == [more];
    ConcatOne(more);
    LexNewLine(d, "\n\n" + more);
    BreakTears(w, PageOfText(d, w, front), Lex(d, "\n\n" + more));
  }

  lemma ThreePieces(front: string, more: string)
    ensures Concat([front + "\n\n\n", "\n", more]) == front + ("\n\n\n\n" + more)
  {
    ConcatTwo(front + "\n\n\n", "\n");
    ConcatSnoc([front + "\n\n\n", "\n"], more);
    assert [front + "\n\n\n", "\n"] + [more] == [front + "\n\n\n", "\n", more];
    assert front + "\n\n\n" + "\n" + more == front + ("\n\n\n\n" + more);
  }

  lemma BreakTears(w: SpaceClass, p: Page, toks: seq<Token>)
    requires BreakIn(toks) && p.cur != "" && p.cited != []
    ensures TornFrom(w, Twice(w, p), toks)
  {
    TwiceIdle(w, p);
  }

  lemma LongBreakShown(d: DigitClass, w: SpaceClass, front: string)
    requires !EndsInLine(front)
    ensures After(d, w, EMPTY, "", [front + "\n\n\n", "\n"]) == (Twice(w, PageOfText(d, w, front)), "\n\n")
  {
    hide Lex, PageOf, CutAt, After, Put;
    var text := front + "\n\n\n";
    CutOfThree(d, front);
    assert text[..|front| + 1] == front + "\n" && text[|front| + 1..] == "\n\n" && "" + text == text;
    TwoAfter(d, w, text, "\n");
    OneLineShown(d, w, front);
    CutOfThree(d, "");
    assert "\n\n" + "\n" == "" + "\n\n\n" == "\n\n\n" && "\n\n\n"[..1] == "\n" && "\n\n\n"[1..] == "\n\n";
    OneAfter(d, w, PageOfText(d, w, front + "\n"), "\n\n", "\n");
    LineLexed(d, w, PageOfText(d, w, front + "\n"));
  }

  lemma TwoAfter(d: DigitClass, w: SpaceClass, a: string, b: string)
    ensures var held := ("" + a)[CutAt(d, "" + a)..];
            After(d, w, EMPTY, "", [a, b]) == After(d, w, PageOf(w, EMPTY, Lex(d, ("" + a)[..CutAt(d, "" + a)])),
                                                         held, [b])
  {
    hide Lex, PageOf, CutAt;
    assert [a, b][1..] == [b];
  }

  // ---------------------------------------------------------------- exactly these

  ghost predicate SameParagraphs(d: DigitClass, w: SpaceClass, pieces: seq<string>) {
    Shape(w, CitedStream(d, w, pieces)) == Shape(w, WholeText(d, w, Concat(pieces)))
  }

  /** A text shows the paragraphs of its whole for every way of cutting it into pieces, exactly when none of its cuts
      leaves a paragraph torn and no paragraph that cites anything is followed by four newlines or more. */
  lemma TextKeepsBreaks(d: DigitClass, w: SpaceClass, text: string)
    ensures (forall pieces | Concat(pieces) == text :: SameParagraphs(d, w, pieces)) <==> Whole(d, w, text)
  {
    hide Shape, CitedStream, WholeText, Concat, TornAfter, TornAt, LongBreakAt;
    if Whole(d, w, text) {
      forall pieces | Concat(pieces) == text
        ensures SameParagraphs(d, w, pieces)
      {
        WholeKeeps(d, w, pieces);
      }
    } else {
      var pieces := SomeCutTears(d, w, text);
      assert !SameParagraphs(d, w, pieces);
    }
  }

  lemma WholeKeeps(d: DigitClass, w: SpaceClass, pieces: seq<string>)
    requires Whole(d, w, Concat(pieces))
    ensures SameParagraphs(d, w, pieces)
  {
    hide Shape, CitedStream, WholeText, Concat, TornAfter, Whole, Tears;
    EveryCutKeepsBreaks(d, w, pieces);
    forall i | 0 <= i <= |pieces|
      ensures !TornAfter(d, w, EMPTY, "", pieces, i)
    {
      WholeIsNotTorn(d, w, pieces, i);
    }
  }

  /** A text that can be torn is torn by some cut into two pieces or three. */
  lemma SomeCutTears(d: DigitClass, w: SpaceClass, text: string) returns (pieces: seq<string>)
    requires !Whole(d, w, text)
    ensures Concat(pieces) == text && |pieces| <= 3 && !SameParagraphs(d, w, pieces)
  {
    hide Shape, CitedStream, WholeText, Concat, TornAfter, TornAt, LongBreakAt, Tears;
    if b: nat :| b <= |text| && TornAt(d, w, text, b) {
      pieces := TornAtTears(d, w, text, b);
      EveryCutKeepsBreaks(d, w, pieces);
    } else {
      var m: nat :| m <= |text| && LongBreakAt(d, w, text, m);
      pieces := LongBreakTears(d, w, text, m);
      EveryCutKeepsBreaks(d, w, pieces);
    }
  }
}
