/** Paragraph breaks in a cited answer: which of them a stream in pieces keeps. */
module ParagraphBreaks {
  import opened Text
  import opened Markers
  import opened ParagraphCitations

  // ---------------------------------------------------------------- the text as it is read

  /** How far one reading step goes, and what it finds. */
  function LexStep(d: DigitClass, s: string): (k: nat)
    requires s != ""
    ensures 0 < k <= |s|
  {
    if SpacedMarkerLen(d, s) == 0 then 1 else SpacedMarkerLen(d, s)
  }

  function LexFound(d: DigitClass, s: string): Token
    requires s != ""
  {
    var n := SpacedMarkerLen(d, s);
    if n == 0 then Plain(s[0]) else Mark(s[(if s[0] == ' ' then 2 else 1)..n - 1])
  }

  /** The markers of a text, each with the space before it, and its other characters. */
  function Lex(d: DigitClass, s: string): seq<Token>
    decreases |s|
  {
    if s == "" then [] else [LexFound(d, s)] + Lex(d, s[LexStep(d, s)..])
  }

  predicate NewLineAt(toks: seq<Token>) { toks != [] && toks[0] == Plain('\n') }

  predicate BreakIn(toks: seq<Token>) { NewLineAt(toks) && NewLineAt(toks[1..]) }

  /** A cut that tears neither a marker nor the space before it. */
  ghost predicate LexCut(d: DigitClass, x: string, y: string) {
    SafeCut(d, x, y) && NoSpaceTorn(x, y)
  }

  lemma LexCutHead(d: DigitClass, x: string, y: string)
    requires x != "" && CleanCut(d, x, y) && NoSpaceTorn(x, y)
    ensures SpacedMarkerLen(d, x + y) == SpacedMarkerLen(d, x)
  {
    hide MarkerLen;
    assert (x + y)[0..] == x + y && x[0..] == x;
    if x[0] == ' ' {
      if |x| > 1 {
        assert (x + y)[1..] == x[1..] + y;
      } else {
        assert (x + y)[1..] == y && x[1..] == "";
        NoMarkerHead(d, y);
        NoMarkerHead(d, "");
      }
    }
  }

  lemma NoMarkerHead(d: DigitClass, y: string)
    ensures y == "" || y[0] != '[' ==> MarkerLen(d, y) == 0
  {}

  ghost predicate NoSpaceTorn(x: string, y: string) { x != "" && x[|x| - 1] == ' ' ==> y == "" || y[0] != '[' }

  lemma CleanLexFound(d: DigitClass, x: string, y: string)
    requires x != "" && CleanCut(d, x, y) && NoSpaceTorn(x, y)
    ensures LexStep(d, x + y) == LexStep(d, x) && LexFound(d, x + y) == LexFound(d, x)
  {
    hide SpacedMarkerLen, CleanCut, NoSpaceTorn;
    LexCutHead(d, x, y);
    var n := SpacedMarkerLen(d, x);
    assert (x + y)[0] == x[0];
    if n > 0 {
      var from := if x[0] == ' ' then 2 else 1;
      MarkerInside(d, x);
      assert (x + y)[from..n - 1] == x[from..n - 1];
    }
  }

  lemma CleanLexStep(d: DigitClass, x: string, y: string)
    requires x != "" && CleanCut(d, x, y) && NoSpaceTorn(x, y)
    ensures LexStep(d, x + y) == LexStep(d, x) && LexFound(d, x + y) == LexFound(d, x)
    ensures (x + y)[LexStep(d, x)..] == x[LexStep(d, x)..] + y
    ensures CleanCut(d, x[LexStep(d, x)..], y) && NoSpaceTorn(x[LexStep(d, x)..], y)
  {
    hide LexStep, LexFound, CleanCut;
    CleanLexFound(d, x, y);
    CleanCutTail(d, x, y, LexStep(d, x));
  }

  lemma {:induction false} CleanLex(d: DigitClass, x: string, y: string)
    requires CleanCut(d, x, y) && NoSpaceTorn(x, y)
    ensures Lex(d, x + y) == Lex(d, x) + Lex(d, y)
    decreases |x|
  {
    hide LexStep, LexFound, CleanCut, NoSpaceTorn;
    if x == "" {
      assert x + y == y;
    } else {
      CleanLexStep(d, x, y);
      CleanLex(d, x[LexStep(d, x)..], y);
    }
  }

  lemma MarkerInside(d: DigitClass, x: string)
    requires SpacedMarkerLen(d, x) > 0
    ensures x != "" && (if x[0] == ' ' then 2 else 1) <= SpacedMarkerLen(d, x) - 1 <= |x|
  {}

  /** Reading a text is reading its two halves. */
  lemma LexAcross(d: DigitClass, x: string, y: string)
    requires LexCut(d, x, y)
    ensures Lex(d, x + y) == Lex(d, x) + Lex(d, y)
  {
    SafeCutIsClean(d, x, y);
    CleanLex(d, x, y);
  }

  lemma LexNewLine(d: DigitClass, s: string)
    ensures NewLineAt(Lex(d, s)) <==> s != "" && s[0] == '\n'
    ensures BreakIn(Lex(d, s)) <==> BreakAt(s)
    ensures s != "" && s[0] == '\n' ==> Lex(d, s)[1..] == Lex(d, s[1..])
  {
    hide MarkerLen;
    if s != "" && s[0] == '\n' {
      NoMarkerHead(d, s);
      assert s[0..] == s;
      if |s| > 1 && s[1] == '\n' {
        NoMarkerHead(d, s[1..]);
        assert s[1..][0..] == s[1..];
      }
    }
  }

  lemma PlainFound(d: DigitClass, s: string)
    requires s != ""
    ensures LexFound(d, s).Plain? ==> LexStep(d, s) == 1 && LexFound(d, s) == Plain(s[0])
  {}

  lemma {:induction false} LastLexed(d: DigitClass, s: string)
    requires s != "" && Lex(d, s)[|Lex(d, s)| - 1] == Plain('\n')
    ensures s[|s| - 1] == '\n'
    decreases |s|
  {
    hide LexStep, LexFound;
    var rest := s[LexStep(d, s)..];
    PlainFound(d, s);
    if rest != "" {
      LexNotEmpty(d, rest);
      LastLexed(d, rest);
    } else {
      assert Lex(d, s) == [LexFound(d, s)];
    }
  }

  lemma LexNotEmpty(d: DigitClass, s: string)
    ensures Lex(d, s) == [] <==> s == ""
  {}

  // ---------------------------------------------------------------- what is written, read by read

  /** What is settled of the output, what is written of the paragraph the text stops in, and what that has cited. */
  datatype Written = Written(front: string, bare: string, cited: seq<string>)

  function Write(w: SpaceClass, cited: seq<string>, bare: string, toks: seq<Token>): Written
    decreases |toks|
  {
    if toks == [] then Written("", bare, cited)
    else if toks[0].Mark? then Write(w, SeenAfter(cited, [toks[0].id]), bare, toks[1..])
    else if BreakIn(toks) then
      var rest := Write(w, [], "", toks[2..]);
      rest.(front := Cite(w, bare, cited) + "\n\n" + rest.front)
    else Write(w, cited, bare + [toks[0].c], toks[1..])
  }

  /** A break is not torn between `x` and `y`: they do not meet in newlines, or `y` begins with a whole one. */
  ghost predicate Apart(x: seq<Token>, y: seq<Token>) {
    x == [] || x[|x| - 1] != Plain('\n') || !NewLineAt(y)
  }

  lemma {:induction false} WriteAcross(w: SpaceClass, cited: seq<string>, bare: string, x: seq<Token>, y: seq<Token>)
    requires Apart(x, y)
    ensures var a := Write(w, cited, bare, x);
            var b := Write(w, a.cited, a.bare, y);
            Write(w, cited, bare, x + y) == b.(front := a.front + b.front)
    decreases |x|
  {
    hide Cite, SeenAfter;
    if x == [] {
      assert x + y == y;
      var b := Write(w, cited, bare, y);
      assert "" + b.front == b.front;
    } else if x[0].Mark? {
      assert (x + y)[1..] == x[1..] + y;
      WriteAcross(w, SeenAfter(cited, [x[0].id]), bare, x[1..], y);
    } else if BreakIn(x) {
      assert (x + y)[1..] == x[1..] + y && (x + y)[2..] == x[2..] + y;
      WriteAcross(w, [], "", x[2..], y);
      var a := Write(w, [], "", x[2..]);
      Associate(Cite(w, bare, cited) + "\n\n", a.front, Write(w, a.cited, a.bare, y).front);
    } else {
      assert (x + y)[1..] == x[1..] + y;
      NoNewBreak(x, y);
      WriteAcross(w, cited, bare + [x[0].c], x[1..], y);
    }
  }

  lemma NoNewBreak(x: seq<Token>, y: seq<Token>)
    requires x != [] && Apart(x, y) && !BreakIn(x)
    ensures !BreakIn(x + y)
  {
    assert (x + y)[1..] == x[1..] + y;
    if |x| == 1 {
      assert x[1..] + y == y;
    }
  }

  // ---------------------------------------------------------------- the code against the reading

  /** A paragraph that ends does not end in a newline: its break would have come earlier. */
  lemma {:induction false} EndsClean(s: string)
    ensures var r := Paragraphs(s); |r| > 1 && r[0] != "" ==> r[0][|r[0]| - 1] != '\n'
    decreases |s|
  {
    if s != "" && !BreakAt(s) {
      EndsClean(s[1..]);
      EmptyFirst(s[1..]);
    }
  }

  lemma EmptyFirst(s: string)
    ensures var r := Paragraphs(s); |r| > 1 && r[0] == "" ==> BreakAt(s)
  {}

  lemma {:induction false} ParagraphWrites(d: DigitClass, w: SpaceClass, cited: seq<string>, bare: string, p: string)
    requires NoBreak(p)
    ensures Write(w, cited, bare, Lex(d, p))
         == Written("", bare + WithoutMarkers(d, p), SeenAfter(cited, IdsOf(d, p)))
    decreases |p|
  {
    hide SpacedMarkerLen, SeenAfter;
    if p == "" {
      NothingWritten(d, w, cited, bare);
    } else {
      var n := SpacedMarkerLen(d, p);
      var k := LexStep(d, p);
      NoBreakTail(p, k);
      OneLexed(d, w, cited, bare, p);
      if n == 0 {
        ParagraphWrites(d, w, cited, bare + [p[0]], p[1..]);
        Associate(bare, [p[0]], WithoutMarkers(d, p[1..]));
      } else {
        var id := p[if p[0] == ' ' then 2 else 1..n - 1];
        ParagraphWrites(d, w, SeenAfter(cited, [id]), bare, p[n..]);
        SeenAfterAppend(cited, [id], IdsOf(d, p[n..]));
      }
    }
  }

  lemma NothingWritten(d: DigitClass, w: SpaceClass, cited: seq<string>, bare: string)
    ensures Write(w, cited, bare, Lex(d, ""))
            == Written("", bare + WithoutMarkers(d, ""), SeenAfter(cited, IdsOf(d, "")))
  {}

  lemma OneLexed(d: DigitClass, w: SpaceClass, cited: seq<string>, bare: string, p: string)
    requires p != "" && !BreakAt(p)
    ensures Write(w, cited, bare, Lex(d, p))
         == var t := LexFound(d, p);
            if t.Mark? then Write(w, SeenAfter(cited, [t.id]), bare, Lex(d, p[LexStep(d, p)..]))
            else Write(w, cited, bare + [t.c], Lex(d, p[LexStep(d, p)..]))
  {
    hide LexStep, LexFound, SeenAfter;
    LexNewLine(d, p);
  }

  lemma BreakWrites(d: DigitClass, w: SpaceClass, cited: seq<string>, bare: string, more: string)
    ensures var rest := Write(w, [], "", Lex(d, more));
            Write(w, cited, bare, Lex(d, "\n\n" + more)) == rest.(front := Cite(w, bare, cited) + "\n\n" + rest.front)
  {
    hide Cite, SeenAfter, LexFound;
    var q := "\n\n" + more;
    assert q[1..] == "\n" + more && q[1..][1..] == more;
    LexNewLine(d, q);
    LexNewLine(d, q[1..]);
    assert Lex(d, q)[1..][1..] == Lex(d, q)[2..];
  }

  /** Reading past a paragraph that ends. */
  lemma EndedWrites(d: DigitClass, w: SpaceClass, cited: seq<string>, p: string, more: string)
    requires NoBreak(p) && (p != "" ==> p[|p| - 1] != '\n')
    ensures var rest := Write(w, [], "", Lex(d, more));
            Write(w, cited, "", Lex(d, p + ("\n\n" + more)))
            == rest.(front := Cite(w, WithoutMarkers(d, p), SeenAfter(cited, IdsOf(d, p))) + "\n\n" + rest.front)
  {
    hide Lex, SeenAfter, Cite, WithoutMarkers, IdsOf, Write;
    var q := "\n\n" + more;
    LexAcross(d, p, q);
    LexNotEmpty(d, p);
    if Lex(d, p) != [] && Lex(d, p)[|Lex(d, p)| - 1] == Plain('\n') {
      LastLexed(d, p);
    }
    WriteAcross(w, cited, "", Lex(d, p), Lex(d, q));
    ParagraphWrites(d, w, cited, "", p);
    var bare, ids := WithoutMarkers(d, p), SeenAfter(cited, IdsOf(d, p));
    assert "" + bare == bare;
    BreakWrites(d, w, ids, bare, more);
    var rest := Write(w, [], "", Lex(d, more));
    assert "" + (Cite(w, bare, ids) + "\n\n" + rest.front) == Cite(w, bare, ids) + "\n\n" + rest.front;
  }

  lemma {:induction false} CiteEndedWrites(d: DigitClass, w: SpaceClass, cited: seq<string>, text: string)
    ensures var r := Write(w, cited, "", Lex(d, text));
            CiteEnded(d, w, cited, Paragraphs(text)) == (r.front + r.bare, r.cited)
    decreases |text|
  {
    hide Lex, SeenAfter, Cite, WithoutMarkers, IdsOf, Write, Paragraphs, NoBreak;
    FirstParagraph(text);
    EndsClean(text);
    var ps := Paragraphs(text);
    if |ps| == 1 {
      ParagraphWrites(d, w, cited, "", text);
      assert "" + WithoutMarkers(d, text) == WithoutMarkers(d, text);
    } else {
      var more := text[|ps[0]| + 2..];
      CiteEndedWrites(d, w, [], more);
      EndedWrites(d, w, cited, ps[0], more);
      var r := Write(w, [], "", Lex(d, more));
      var block := Cite(w, WithoutMarkers(d, ps[0]), SeenAfter(cited, IdsOf(d, ps[0]))) + "\n\n";
      Associate(block, r.front, r.bare);
    }
  }

  /** The whole text: what is settled, and its last paragraph cited. */
  lemma {:induction false} WholeWrites(d: DigitClass, w: SpaceClass, text: string)
    ensures var r := Write(w, [], "", Lex(d, text));
            && WholeText(d, w, text) == r.front + Cite(w, r.bare, r.cited)
            && r.bare == LastBare(d, text) && r.cited == LastIds(d, text)
    decreases |text|
  {
    hide Lex, SeenAfter, Cite, WithoutMarkers, IdsOf, Write, Paragraphs, NoBreak;
    FirstParagraph(text);
    EndsClean(text);
    var ps := Paragraphs(text);
    if |ps| == 1 {
      ParagraphWrites(d, w, [], "", text);
      var bare := WithoutMarkers(d, text);
      assert "" + bare == bare;
      assert "" + Cite(w, bare, LastIds(d, text)) == Cite(w, bare, LastIds(d, text));
    } else {
      var more := text[|ps[0]| + 2..];
      WholeWrites(d, w, more);
      EndedWrites(d, w, [], ps[0], more);
      var r := Write(w, [], "", Lex(d, more));
      var block := Cite(w, WithoutMarkers(d, ps[0]), SeenAfter([], IdsOf(d, ps[0]))) + "\n\n";
      Associate(block, r.front, Cite(w, r.bare, r.cited));
      assert ps[|ps| - 1] == ps[1..][|ps[1..]| - 1];
    }
  }

  // ---------------------------------------------------------------- one piece, to the letter

  /** The cut for holding tears no space from its marker either. */
  lemma CutIsLexCut(d: DigitClass, text: string, more: string)
    ensures var done, left := text[..CutAt(d, text)], text[CutAt(d, text)..];
            LexCut(d, done, left + more) && (left == "" ==> NoSpaceTorn(done, more))
  {
    hide CutAt, OpenMarkerAt;
    var cut := CutAt(d, text);
    var done, left := text[..cut], text[cut..];
    CutIsSafe(d, text, more);
    if done != "" && done[|done| - 1] == ' ' {
      assert !MaybeMoreAt(d, text[cut - 1..]);
      assert text[cut - 1..][0] == ' ' && text[cut - 1..][1..] == left;
      SpaceIsHeld(d, left);
    }
  }

  lemma SpaceIsHeld(d: DigitClass, left: string)
    ensures left == "" ==> AtDollar(left)
    ensures left != "" && MaybeMoreAt(d, left) && left[0] == '[' ==> OpenMarkerAt(d, left)
  {}

  lemma OneStep(d: DigitClass, w: SpaceClass, text: string)
    ensures var cut := CutAt(d, text);
            var r := Write(w, [], "", Lex(d, text[..cut]));
            Run(Citing(d, w), START, [text]) == (r.front + r.bare, Progress(r.cited, text[cut..]))
  {
    hide CutAt, Paragraphs, CiteEnded, Run, Write, Lex;
    RunOne(Citing(d, w), START, text);
    assert START.held + text == text;
    CiteEndedWrites(d, w, [], text[..CutAt(d, text)]);
  }

  /** A text and then a break: nothing is cited after it, and the output ends in it. */
  lemma {:induction false} BreakAtEnd(w: SpaceClass, cited: seq<string>, bare: string, x: seq<Token>)
    ensures var before := Write(w, cited, bare, x);
            var after := Write(w, cited, bare, x + [Plain('\n'), Plain('\n')]);
            && after.cited == []
            && (before.cited == [] ==> after.front + after.bare == before.front + before.bare + "\n\n")
            && (after.front + after.bare != "" && (after.front + after.bare)[|after.front + after.bare| - 1] == '\n')
    decreases |x|
  {
    hide Cite, SeenAfter;
    var end := [Plain('\n'), Plain('\n')];
    if |x| <= 1 && (x == [] || x[0] == Plain('\n')) {
      ShortBreak(w, cited, bare, x);
    } else if x[0].Mark? {
      assert (x + end)[1..] == x[1..] + end;
      BreakAtEnd(w, SeenAfter(cited, [x[0].id]), bare, x[1..]);
    } else if BreakIn(x) {
      assert (x + end)[1..] == x[1..] + end && (x + end)[2..] == x[2..] + end;
      BreakAtEnd(w, [], "", x[2..]);
      var front := Cite(w, bare, cited) + "\n\n";
      var before, after := Write(w, [], "", x[2..]), Write(w, [], "", x[2..] + end);
      Associate(front, after.front, after.bare);
      Associate(front, before.front, before.bare);
      Associate(front, before.front + before.bare, "\n\n");
    } else {
      assert (x + end)[1..] == x[1..] + end;
      BreakAtEnd(w, cited, bare + [x[0].c], x[1..]);
    }
  }

  lemma ShortBreak(w: SpaceClass, cited: seq<string>, bare: string, x: seq<Token>)
    requires x == [] || x == [Plain('\n')]
    ensures var before := Write(w, cited, bare, x);
            var after := Write(w, cited, bare, x + [Plain('\n'), Plain('\n')]);
            && after.cited == []
            && (before.cited == [] ==> after.front + after.bare == before.front + before.bare + "\n\n")
            && (after.front + after.bare != "" && (after.front + after.bare)[|after.front + after.bare| - 1] == '\n')
  {
    var end := [Plain('\n'), Plain('\n')];
    var all := x + end;
    var tail := if x == [] then "" else "\n";
    assert all[2..] == x;
    assert Write(w, [], "", x) == Written("", tail, []) by { assert x != [] ==> x[1..] == [] && "" + "\n" == "\n"; }
    assert Write(w, cited, bare, x) == Written("", bare + tail, cited) by { assert x != [] ==> x[1..] == []; }
    assert BreakIn(all);
    assert Write(w, cited, bare, all) == Written(Cite(w, bare, cited) + "\n\n" + "", tail, []);
    assert bare + "\n\n" + "" + tail == "" + (bare + tail) + "\n\n";
  }

  lemma {:induction false} BracketsEnd(ids: seq<string>)
    requires ids != []
    ensures var b := Brackets(ids); b != "" && b[|b| - 1] == ']'
  {
    if |ids| > 1 {
      BracketsEnd(ids[1..]);
    }
  }

  /** An answer in one piece is cited to the letter exactly when its last paragraph cites nothing, or does not end in a
      held break and what is held is stripped as it would be with the paragraph it ends. */
  lemma OnePieceIsExact(d: DigitClass, w: SpaceClass, text: string)
    ensures var done, held := text[..CutAt(d, text)], text[CutAt(d, text)..];
            CitedStream(d, w, [text]) == WholeText(d, w, text)
            <==> || LastIds(d, done) == []
                 || (held != "\n\n" && RStrip(w, LastBare(d, done) + held) == LastBare(d, done) + RStrip(w, held))
  {
    hide CutAt, Run, Cite, CitedStream, WholeText, RStrip, LastIds, LastBare, Write, Lex;
    var cut := CutAt(d, text);
    var done, held := text[..cut], text[cut..];
    OneStep(d, w, text);
    StreamIs(d, w, [text]);
    WholeWrites(d, w, done);
    assert text == done + held;
    if held == "\n\n" {
      HeldBreak(d, w, done);
    } else {
      HeldInline(d, w, text);
    }
  }

  lemma HeldBreak(d: DigitClass, w: SpaceClass, done: string)
    ensures var r := Write(w, [], "", Lex(d, done));
            r.front + r.bare + Cite(w, "\n\n", r.cited) == WholeText(d, w, done + "\n\n") <==> r.cited == []
  {
    hide Write, Lex, WholeText, RStrip, Brackets;
    var r := Write(w, [], "", Lex(d, done));
    var all := Write(w, [], "", Lex(d, done + "\n\n"));
    assert Lex(d, done + "\n\n") == Lex(d, done) + [Plain('\n'), Plain('\n')] by {
      LexAcross(d, done, "\n\n");
      TwoNewLines(d);
    }
    BreakAtEnd(w, [], "", Lex(d, done));
    WholeWrites(d, w, done + "\n\n");
    if r.cited != [] {
      BracketsEnd(r.cited);
      var out := r.front + r.bare + Cite(w, "\n\n", r.cited);
      assert out[|out| - 1] == ']';
    }
  }

  lemma TwoNewLines(d: DigitClass)
    ensures Lex(d, "\n\n") == [Plain('\n'), Plain('\n')]
  {
    LexNewLine(d, "\n\n");
    LexNewLine(d, "\n\n"[1..]);
    assert "\n\n"[1..][1..] == "" && Lex(d, "") == [];
  }

  /** What is held, when it is no break, goes on with the paragraph. */
  lemma HeldGoesOn(d: DigitClass, w: SpaceClass, text: string)
    requires text[CutAt(d, text)..] != "\n\n"
    ensures var done, held := text[..CutAt(d, text)], text[CutAt(d, text)..];
            var r := Write(w, [], "", Lex(d, done));
            Write(w, [], "", Lex(d, text)) == r.(bare := r.bare + held)
  {
    hide CutAt, Write, Lex, WithoutMarkers, IdsOf, Paragraphs;
    var done, held := text[..CutAt(d, text)], text[CutAt(d, text)..];
    var r := Write(w, [], "", Lex(d, done));
    CutIsLexCut(d, text, "");
    assert held + "" == held && text == done + held;
    LexAcross(d, done, held);
    HeldApart(d, text);
    WriteAcross(w, [], "", Lex(d, done), Lex(d, held));
    UnfinishedIsPlain(d, held);
    ParagraphWrites(d, w, r.cited, r.bare, held);
    assert SeenAfter(r.cited, []) == r.cited;
    assert r.front + "" == r.front;
  }

  lemma HeldApart(d: DigitClass, text: string)
    requires text[CutAt(d, text)..] != "\n\n"
    ensures Apart(Lex(d, text[..CutAt(d, text)]), Lex(d, text[CutAt(d, text)..]))
  {
    hide CutAt, Lex;
    var done, held := text[..CutAt(d, text)], text[CutAt(d, text)..];
    LexNotEmpty(d, done);
    LexNewLine(d, held);
    if Lex(d, done) != [] && Lex(d, done)[|Lex(d, done)| - 1] == Plain('\n') {
      LastLexed(d, done);
      NewLineBeforeCut(d, text);
      HeldNewLine(d, held);
    }
  }

  lemma HeldNewLine(d: DigitClass, held: string)
    ensures held != "" && MaybeMoreAt(d, held) && held[0] == '\n' ==> AtDollar(held) || held == "\n\n"
  {
    if held != "" && MaybeMoreAt(d, held) && held[0] == '\n' {
      assert held == ['\n'] + held[1..];
    }
  }

  lemma HeldInline(d: DigitClass, w: SpaceClass, text: string)
    requires text[CutAt(d, text)..] != "\n\n"
    ensures var done, held := text[..CutAt(d, text)], text[CutAt(d, text)..];
            var r := Write(w, [], "", Lex(d, done));
            r.front + r.bare + Cite(w, held, r.cited) == WholeText(d, w, text)
            <==> r.cited == [] || RStrip(w, r.bare + held) == r.bare + RStrip(w, held)
  {
    hide CutAt, Write, Lex, WholeText, RStrip, Cite;
    var done, held := text[..CutAt(d, text)], text[CutAt(d, text)..];
    var r := Write(w, [], "", Lex(d, done));
    HeldGoesOn(d, w, text);
    WholeWrites(d, w, text);
    TailCited(w, r.front, r.bare, held, r.cited);
  }

  lemma TailCited(w: SpaceClass, front: string, bare: string, held: string, ids: seq<string>)
    ensures front + bare + Cite(w, held, ids) == front + Cite(w, bare + held, ids)
            <==> ids == [] || RStrip(w, bare + held) == bare + RStrip(w, held)
  {
    hide RStrip, Brackets;
    if ids == [] {
      Associate(front, bare, held);
    } else {
      var kept, stripped, back := RStrip(w, held), RStrip(w, bare + held), " " + Brackets(ids);
      assert Cite(w, held, ids) == kept + back && Cite(w, bare + held, ids) == stripped + back;
      assert front + bare + (kept + back) == front + ((bare + kept) + back);
      SameEnds(front, bare + kept, stripped, back);
    }
  }

  lemma SameEnds(front: string, a: string, b: string, back: string)
    ensures front + (a + back) == front + (b + back) <==> a == b
  {
    var x, y := front + (a + back), front + (b + back);
    if x == y {
      assert |a| == |b|;
      assert a == x[|front|..|front| + |a|] && b == y[|front|..|front| + |b|];
    }
  }
}
