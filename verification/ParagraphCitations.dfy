/** Citations moved to the end of each paragraph of a streamed answer. */
module ParagraphCitations {
  import opened Text
  import opened Markers

  // ---------------------------------------------------------------- one whole text

  /** The length of the ` ?\[(\d+)\]` match at the head of `s`, or 0. The space before a marker goes with it. */
  function SpacedMarkerLen(d: DigitClass, s: string): (n: nat)
    ensures n <= |s|
    ensures n > 0 ==> var k := if s[0] == ' ' then 1 else 0; MarkerLen(d, s[k..]) == n - k > 0
  {
    if s != "" && s[0] == ' ' then
      var n := MarkerLen(d, s[1..]);
      if n > 0 then n + 1 else 0
    else
      assert s[0..] == s;
      MarkerLen(d, s)
  }

  /** `_MARKER.sub("", s)` */
  function WithoutMarkers(d: DigitClass, s: string): string
    decreases |s|
  {
    if s == "" then ""
    else
      var n := SpacedMarkerLen(d, s);
      if n == 0 then [s[0]] + WithoutMarkers(d, s[1..]) else WithoutMarkers(d, s[n..])
  }

  /** `_MARKER.findall(s)` */
  function IdsOf(d: DigitClass, s: string): seq<string>
    decreases |s|
  {
    if s == "" then []
    else
      var n := SpacedMarkerLen(d, s);
      if n == 0 then IdsOf(d, s[1..])
      else [s[(if s[0] == ' ' then 2 else 1)..n - 1]] + IdsOf(d, s[n..])
  }

  /** `str.rstrip` */
  function RStrip(w: SpaceClass, s: string): string {
    if s != "" && w(s[|s| - 1]) then RStrip(w, s[..|s| - 1]) else s
  }

  /** `"".join(f"[{id}]" for id in ids)` */
  function Brackets(ids: seq<string>): string {
    if ids == [] then "" else "[" + ids[0] + "]" + Brackets(ids[1..])
  }

  /** `_cite` */
  function Cite(w: SpaceClass, text: string, ids: seq<string>): string {
    if ids == [] then text else RStrip(w, text) + " " + Brackets(ids)
  }

  predicate BreakAt(s: string) { |s| >= 2 && s[0] == '\n' && s[1] == '\n' }

  /** `s.split("\n\n")` */
  function Paragraphs(s: string): (r: seq<string>)
    ensures r != []
    decreases |s|
  {
    if s == "" then [""]
    else if BreakAt(s) then [""] + Paragraphs(s[2..])
    else
      var r := Paragraphs(s[1..]);
      [[s[0]] + r[0]] + r[1..]
  }

  /** What the whole text should become: each paragraph without its markers, then the sources it
      cited, each once, in first-cited order. */
  function CiteEach(d: DigitClass, w: SpaceClass, paragraphs: seq<string>): string
    requires paragraphs != []
  {
    var first := Cite(w, WithoutMarkers(d, paragraphs[0]), FirstSeen(IdsOf(d, paragraphs[0])));
    if |paragraphs| == 1 then first else first + "\n\n" + CiteEach(d, w, paragraphs[1..])
  }

  function WholeText(d: DigitClass, w: SpaceClass, text: string): string {
    CiteEach(d, w, Paragraphs(text))
  }

  /** A text without its white space. */
  function Solid(w: SpaceClass, s: string): string {
    if s == "" then "" else (if w(s[0]) then "" else [s[0]]) + Solid(w, s[1..])
  }

  // ---------------------------------------------------------------- the streamed form

  /** A match of `(?: ?\[\d*| |\n)$` at the head of `s`. */
  predicate MaybeMoreAt(d: DigitClass, s: string) {
    || OpenMarkerAt(d, s)
    || (s != "" && s[0] == ' ' && (OpenMarkerAt(d, s[1..]) || AtDollar(s[1..])))
    || (s != "" && s[0] == '\n' && AtDollar(s[1..]))
  }

  /** Where `_MAYBE_MORE.search` cuts a text, or its end. */
  function CutAt(d: DigitClass, s: string): (n: nat)
    ensures n <= |s|
    ensures n < |s| ==> MaybeMoreAt(d, s[n..])
    ensures forall i | 0 <= i < n :: !MaybeMoreAt(d, s[i..])
  {
    if s == "" || MaybeMoreAt(d, s) then 0
    else
      var n := CutAt(d, s[1..]);
      assert forall i | 0 < i < n + 1 :: s[i..] == s[1..][i - 1..];
      n + 1
  }

  datatype Progress = Progress(cited: seq<string>, held: string)

  const START := Progress([], "")

  /** The paragraphs of one piece: those ended are cited, the last goes on into the next piece. */
  function CiteEnded(d: DigitClass, w: SpaceClass, cited: seq<string>, paragraphs: seq<string>): (string, seq<string>)
    requires paragraphs != []
    decreases |paragraphs|
  {
    var ids := SeenAfter(cited, IdsOf(d, paragraphs[0]));
    var bare := WithoutMarkers(d, paragraphs[0]);
    if |paragraphs| == 1 then (bare, ids)
    else
      var rest := CiteEnded(d, w, [], paragraphs[1..]);
      (Cite(w, bare, ids) + "\n\n" + rest.0, rest.1)
  }

  function PieceStep(d: DigitClass, w: SpaceClass, s: Progress, piece: string): (string, Progress) {
    var text := s.held + piece;
    var cut := CutAt(d, text);
    var out := CiteEnded(d, w, s.cited, Paragraphs(text[..cut]));
    (out.0, Progress(out.1, text[cut..]))
  }

  function Citing(d: DigitClass, w: SpaceClass): (Progress, string) -> (string, Progress) {
    (s: Progress, piece: string) => PieceStep(d, w, s, piece)
  }

  /** All that goes out from some point on: what the pieces to come give, and then the tail. */
  function StreamFrom(d: DigitClass, w: SpaceClass, s: Progress, pieces: seq<string>): string {
    var r := Run(Citing(d, w), s, pieces);
    r.0 + Cite(w, r.1.held, r.1.cited)
  }

  /** All that goes out of an answer in pieces. */
  function CitedStream(d: DigitClass, w: SpaceClass, pieces: seq<string>): string { StreamFrom(d, w, START, pieces) }

  // ---------------------------------------------------------------- a scan that ignores white space

  function NewLines(toks: seq<Token>): (n: nat)
    ensures n <= |toks|
  {
    if toks != [] && toks[0] == Plain('\n') then 1 + NewLines(toks[1..]) else 0
  }

  /** What is left of a text when white space does not count: its other characters in order, and after each
      paragraph the sources it cited. Also what the paragraph the text stops in has cited by then. */
  function Scan(w: SpaceClass, cited: seq<string>, toks: seq<Token>): (string, seq<string>)
    decreases |toks|
  {
    if toks == [] then ("", cited)
    else if toks[0].Mark? then Scan(w, SeenAfter(cited, [toks[0].id]), toks[1..])
    else if NewLines(toks) >= 2 then
      var rest := Scan(w, [], toks[2..]);
      (Solid(w, Brackets(cited)) + rest.0, rest.1)
    else
      var rest := Scan(w, cited, toks[1..]);
      (Solid(w, [toks[0].c]) + rest.0, rest.1)
  }

  /** With nothing cited, a newline more or less changes nothing. */
  lemma {:induction false} NewLineIsIdle(w: SpaceClass, toks: seq<Token>)
    ensures Scan(w, [], [Plain('\n')] + toks) == Scan(w, [], toks)
    decreases |toks|
  {
    var all := [Plain('\n')] + toks;
    assert all[1..] == toks;
    var rest := Scan(w, [], toks);
    assert "" + rest.0 == rest.0;
    if NewLines(toks) >= 1 {
      NewLineIsIdle(w, toks[1..]);
      assert all[2..] == toks[1..];
      assert toks == [Plain('\n')] + toks[1..];
      var after := Scan(w, [], toks[1..]);
      assert "" + after.0 == after.0;
    } else {
      assert Solid(w, ['\n']) == "" + Solid(w, "") == "";
    }
  }

  /** A paragraph break is not torn by cutting between `a` and `b`. */
  ghost predicate BreakSafe(a: seq<Token>, b: seq<Token>) {
    a != [] && a[|a| - 1] == Plain('\n') && NewLines(b) > 0 ==> NewLines(b) >= 2
  }

  lemma {:induction false} ScanAcross(w: SpaceClass, cited: seq<string>, a: seq<Token>, b: seq<Token>)
    requires BreakSafe(a, b)
    ensures var left := Scan(w, cited, a);
            var right := Scan(w, left.1, b);
            Scan(w, cited, a + b) == (left.0 + right.0, right.1)
    decreases |a|
  {
    hide Solid, Brackets, SeenAfter;
    if a == [] {
      assert a + b == b;
      assert "" + Scan(w, cited, b).0 == Scan(w, cited, b).0;
    } else if a[0].Mark? {
      assert (a + b)[1..] == a[1..] + b;
      ScanAcross(w, SeenAfter(cited, [a[0].id]), a[1..], b);
    } else if NewLines(a) >= 2 {
      assert (a + b)[2..] == a[2..] + b;
      NewLinesAcross(a, b);
      ScanAcross(w, [], a[2..], b);
      Associate(Solid(w, Brackets(cited)), Scan(w, [], a[2..]).0, Scan(w, Scan(w, [], a[2..]).1, b).0);
    } else {
      NewLinesAcross(a, b);
      assert (a + b)[1..] == a[1..] + b;
      if NewLines(a + b) >= 2 {
        ScanAcrossBreak(w, cited, a, b);
      } else {
        ScanAcross(w, cited, a[1..], b);
        var left := Scan(w, cited, a[1..]);
        Associate(Solid(w, [a[0].c]), left.0, Scan(w, left.1, b).0);
      }
    }
  }

  lemma {:induction false} NewLinesAcross(a: seq<Token>, b: seq<Token>)
    ensures NewLines(a + b) == if NewLines(a) < |a| then NewLines(a) else |a| + NewLines(b)
  {
    if a == [] {
      assert a + b == b;
    } else {
      assert (a + b)[1..] == a[1..] + b;
      NewLinesAcross(a[1..], b);
    }
  }

  /** One newline, then two or more: where the break falls among them makes no difference. */
  lemma ScanAcrossBreak(w: SpaceClass, cited: seq<string>, a: seq<Token>, b: seq<Token>)
    requires a != [] && NewLines(a) < 2 <= NewLines(a + b) && BreakSafe(a, b)
    ensures var left := Scan(w, cited, a);
            var right := Scan(w, left.1, b);
            Scan(w, cited, a + b) == (left.0 + right.0, right.1)
  {
    hide SeenAfter, Brackets;
    NewLinesAcross(a, b);
    assert a == [Plain('\n')];
    assert Scan(w, cited, a[1..]) == ("", cited);
    assert Solid(w, ['\n']) == "" + Solid(w, "") == "";
    assert Scan(w, cited, a) == ("", cited);
    assert (a + b)[2..] == b[1..] == [Plain('\n')] + b[2..];
    NewLineIsIdle(w, b[2..]);
    var right := Scan(w, cited, b);
    assert "" + right.0 == right.0;
  }

  lemma {:induction false} SolidAcross(w: SpaceClass, a: string, b: string)
    ensures Solid(w, a + b) == Solid(w, a) + Solid(w, b)
  {
    if a == "" {
      assert a + b == b;
    } else {
      assert (a + b)[1..] == a[1..] + b;
      SolidAcross(w, a[1..], b);
    }
  }

  lemma {:induction false} SolidRStrip(w: SpaceClass, s: string)
    ensures Solid(w, RStrip(w, s)) == Solid(w, s)
  {
    if s != "" && w(s[|s| - 1]) {
      var last := [s[|s| - 1]];
      SolidRStrip(w, s[..|s| - 1]);
      assert s == s[..|s| - 1] + last;
      SolidAcross(w, s[..|s| - 1], last);
      assert Solid(w, last) == "" + Solid(w, "") == "";
    }
  }

  lemma SolidCite(w: SpaceClass, text: string, ids: seq<string>)
    ensures Solid(w, Cite(w, text, ids)) == Solid(w, text) + Solid(w, Brackets(ids))
  {
    if ids == [] {
      assert Solid(w, text) + "" == Solid(w, text);
    } else {
      var left := RStrip(w, text);
      SolidRStrip(w, text);
      SolidAcross(w, left, " " + Brackets(ids));
      SolidAcross(w, " ", Brackets(ids));
      assert left + " " + Brackets(ids) == left + (" " + Brackets(ids));
      assert Solid(w, " ") == "" + Solid(w, "") == "";
      assert "" + Solid(w, Brackets(ids)) == Solid(w, Brackets(ids));
    }
  }

  // ---------------------------------------------------------------- the code against the scan

  ghost predicate NoBreak(s: string) {
    forall i | 0 <= i < |s| - 1 :: s[i] != '\n' || s[i + 1] != '\n'
  }

  lemma NoBreakTail(s: string, k: nat)
    requires NoBreak(s) && k <= |s|
    ensures NoBreak(s[k..]) && !BreakAt(s)
  {}

  lemma FirstToken(d: DigitClass, s: string)
    requires s != ""
    ensures Tokens(d, s)[0] == Found(d, s) && Tokens(d, s)[1..] == Tokens(d, s[Step(d, s)..])
    ensures s[0] != '[' ==> Tokens(d, s)[0] == Plain(s[0])
  {}

  lemma NewLineTokens(d: DigitClass, s: string)
    ensures NewLines(Tokens(d, s)) > 0 <==> s != "" && s[0] == '\n'
    ensures NewLines(Tokens(d, s)) >= 2 <==> BreakAt(s)
  {
    if s != "" {
      FirstToken(d, s);
      if s[0] == '\n' && |s| > 1 {
        FirstToken(d, s[1..]);
      }
    }
  }

  /** Up to white space, a paragraph is scanned to its text without markers, and the sources it adds. */
  lemma {:induction false} ScanParagraph(d: DigitClass, w: SpaceClass, cited: seq<string>, p: string)
    requires NoBreak(p)
    ensures Scan(w, cited, Tokens(d, p)) == (Solid(w, WithoutMarkers(d, p)), SeenAfter(cited, IdsOf(d, p)))
    decreases |p|
  {
    hide *;
    if p == "" {
      ScanNothing(d, w, cited);
    } else {
      var n := SpacedMarkerLen(d, p);
      if n == 0 {
        NoBreakTail(p, 1);
        ScanParagraph(d, w, cited, p[1..]);
        ScanPlain(d, w, cited, p);
      } else {
        var id := p[if p[0] == ' ' then 2 else 1..n - 1];
        ScanSpacedMarker(d, w, cited, p, n, id);
        NoBreakTail(p, n);
        ScanParagraph(d, w, SeenAfter(cited, [id]), p[n..]);
        DropMarker(d, cited, p, n, id);
      }
    }
  }

  lemma ScanNothing(d: DigitClass, w: SpaceClass, cited: seq<string>)
    ensures Scan(w, cited, Tokens(d, "")) == ("", cited)
    ensures Solid(w, "") == "" && SeenAfter(cited, []) == cited
    ensures WithoutMarkers(d, "") == "" && IdsOf(d, "") == []
  {}

  lemma ScanPlain(d: DigitClass, w: SpaceClass, cited: seq<string>, p: string)
    requires p != "" && SpacedMarkerLen(d, p) == 0 && !BreakAt(p)
    ensures var rest := Scan(w, cited, Tokens(d, p[1..]));
            Scan(w, cited, Tokens(d, p)) == (Solid(w, [p[0]]) + rest.0, rest.1)
    ensures Solid(w, WithoutMarkers(d, p)) == Solid(w, [p[0]]) + Solid(w, WithoutMarkers(d, p[1..]))
    ensures IdsOf(d, p) == IdsOf(d, p[1..])
  {
    hide Scan, SeenAfter, Solid;
    FirstToken(d, p);
    NewLineTokens(d, p);
    SolidAcross(w, [p[0]], WithoutMarkers(d, p[1..]));
    assert MarkerLen(d, p) == 0;
    assert Tokens(d, p)[0] == Plain(p[0]) && Tokens(d, p)[1..] == Tokens(d, p[1..]);
    ScanOne(w, cited, Tokens(d, p));
  }

  lemma DropMarker(d: DigitClass, cited: seq<string>, p: string, n: nat, id: string)
    requires p != "" && n == SpacedMarkerLen(d, p) > 0 && id == p[if p[0] == ' ' then 2 else 1..n - 1]
    ensures WithoutMarkers(d, p) == WithoutMarkers(d, p[n..])
    ensures SeenAfter(cited, IdsOf(d, p)) == SeenAfter(SeenAfter(cited, [id]), IdsOf(d, p[n..]))
  {
    SeenAfterAppend(cited, [id], IdsOf(d, p[n..]));
  }

  lemma ScanOne(w: SpaceClass, cited: seq<string>, toks: seq<Token>)
    requires toks != [] && toks[0].Plain? && NewLines(toks) < 2
    ensures var rest := Scan(w, cited, toks[1..]);
            Scan(w, cited, toks) == (Solid(w, [toks[0].c]) + rest.0, rest.1)
  {}

  lemma ScanSpacedMarker(d: DigitClass, w: SpaceClass, cited: seq<string>, p: string, n: nat, id: string)
    requires p != "" && n == SpacedMarkerLen(d, p) > 0 && id == p[if p[0] == ' ' then 2 else 1..n - 1]
    ensures Scan(w, cited, Tokens(d, p)) == Scan(w, SeenAfter(cited, [id]), Tokens(d, p[n..]))
  {
    hide MarkerLen, SeenAfter;
    FirstToken(d, p);
    if p[0] == ' ' {
      var q := p[1..];
      FirstToken(d, q);
      assert q[n - 1..] == p[n..] && q[1..n - 2] == id;
      NewLineTokens(d, p);
      ScanOne(w, cited, Tokens(d, p));
      assert Solid(w, " ") == "" + Solid(w, "") == "";
      var rest := Scan(w, cited, Tokens(d, q));
      assert "" + rest.0 == rest.0;
    } else {
      assert p[0..] == p;
    }
  }

  /** Splitting: the first paragraph holds no break, and the rest is split the same way. */
  lemma {:induction false} FirstParagraph(s: string)
    ensures var r := Paragraphs(s);
            && NoBreak(r[0])
            && (|r| == 1 ==> r[0] == s)
            && (|r| > 1 ==>
                  var after := |r[0]| + 2;
                  after <= |s| && s == r[0] + ("\n\n" + s[after..]) && r[1..] == Paragraphs(s[after..]))
    decreases |s|
  {
    if s != "" && !BreakAt(s) {
      FirstParagraph(s[1..]);
      FirstParagraphGrows(s, Paragraphs(s[1..]));
    } else if s != "" {
      assert s == "\n\n" + s[2..] == "" + ("\n\n" + s[2..]);
    }
  }

  lemma FirstParagraphGrows(s: string, t: seq<string>)
    requires s != "" && !BreakAt(s) && t != [] && NoBreak(t[0])
    requires |t| == 1 ==> t[0] == s[1..]
    requires |t| > 1 ==> |t[0]| + 2 <= |s[1..]| && s[1..] == t[0] + ("\n\n" + s[1..][|t[0]| + 2..])
    ensures var first := [s[0]] + t[0];
            && NoBreak(first)
            && (|t| == 1 ==> first == s)
            && (|t| > 1 ==> var after := |first| + 2;
                            && after <= |s| && s[1..][|t[0]| + 2..] == s[after..]
                            && s == first + ("\n\n" + s[after..]))
  {
    var first := [s[0]] + t[0];
    if t[0] != "" {
      assert s[1] == s[1..][0] == t[0][0];
    }
    assert s == [s[0]] + s[1..];
  }

  /** Scanning past a paragraph that ends. */
  lemma ScanEndedParagraph(d: DigitClass, w: SpaceClass, cited: seq<string>, p: string, more: string)
    requires NoBreak(p)
    ensures var ids := SeenAfter(cited, IdsOf(d, p));
            var rest := Scan(w, [], Tokens(d, more));
            Scan(w, cited, Tokens(d, p + ("\n\n" + more))) ==
            (Solid(w, Cite(w, WithoutMarkers(d, p), ids)) + rest.0, rest.1)
  {
    hide SeenAfter, Solid, Cite, WithoutMarkers, IdsOf, Scan, SpacedMarkerLen, Tokens;
    var q := "\n\n" + more;
    TokensAcross(d, p, q);
    NewLineTokens(d, q);
    ScanAcross(w, cited, Tokens(d, p), Tokens(d, q));
    ScanParagraph(d, w, cited, p);
    var ids := SeenAfter(cited, IdsOf(d, p));
    ScanBreak(d, w, ids, more);
    SolidCite(w, WithoutMarkers(d, p), ids);
    Associate(Solid(w, WithoutMarkers(d, p)), Solid(w, Brackets(ids)), Scan(w, [], Tokens(d, more)).0);
  }

  lemma ScanBreak(d: DigitClass, w: SpaceClass, cited: seq<string>, more: string)
    ensures var rest := Scan(w, [], Tokens(d, more));
            Scan(w, cited, Tokens(d, "\n\n" + more)) == (Solid(w, Brackets(cited)) + rest.0, rest.1)
  {
    hide SeenAfter, Solid, Brackets;
    var q := "\n\n" + more;
    assert q[1..] == "\n" + more && q[1..][1..] == more;
    FirstToken(d, q);
    FirstToken(d, q[1..]);
    NewLineTokens(d, q);
    assert Tokens(d, q)[1..][1..] == Tokens(d, q)[2..] == Tokens(d, more);
  }

  /** The paragraphs of a piece, cited as they end, against the scan of the piece. */
  lemma {:induction false} CiteEndedIsScan(d: DigitClass, w: SpaceClass, cited: seq<string>, text: string)
    ensures var r := CiteEnded(d, w, cited, Paragraphs(text));
            Scan(w, cited, Tokens(d, text)) == (Solid(w, r.0), r.1)
    decreases |text|
  {
    hide Scan, Solid, Tokens, SeenAfter, WithoutMarkers, IdsOf, Cite, Paragraphs;
    FirstParagraph(text);
    var ps := Paragraphs(text);
    if |ps| == 1 {
      ScanParagraph(d, w, cited, text);
    } else {
      var more := text[|ps[0]| + 2..];
      CiteEndedIsScan(d, w, [], more);
      ScanEndedParagraph(d, w, cited, ps[0], more);
      var block := Cite(w, WithoutMarkers(d, ps[0]), SeenAfter(cited, IdsOf(d, ps[0])));
      SolidBreak(w, block, CiteEnded(d, w, [], ps[1..]).0);
    }
  }

  lemma SolidBreak(w: SpaceClass, a: string, b: string)
    ensures Solid(w, a + "\n\n" + b) == Solid(w, a) + Solid(w, b)
  {
    SolidAcross(w, a + "\n\n", b);
    SolidAcross(w, a, "\n\n");
    assert Solid(w, "\n\n"[1..]) == "" + Solid(w, "\n\n"[1..][1..]) == "";
    assert Solid(w, "\n\n") == "" + "" == "";
    assert Solid(w, a) + "" == Solid(w, a);
  }

  /** The whole text cited paragraph by paragraph, against the scan. */
  lemma {:induction false} CiteEachIsScan(d: DigitClass, w: SpaceClass, text: string)
    ensures var r := Scan(w, [], Tokens(d, text));
            Solid(w, CiteEach(d, w, Paragraphs(text))) == r.0 + Solid(w, Brackets(r.1))
    decreases |text|
  {
    hide Scan, Solid, Tokens, SeenAfter, WithoutMarkers, IdsOf, Cite, Paragraphs;
    FirstParagraph(text);
    var ps := Paragraphs(text);
    if |ps| == 1 {
      ScanParagraph(d, w, [], text);
      SolidCite(w, WithoutMarkers(d, text), SeenAfter([], IdsOf(d, text)));
    } else {
      var more := text[|ps[0]| + 2..];
      CiteEachIsScan(d, w, more);
      ScanEndedParagraph(d, w, [], ps[0], more);
      var block := Cite(w, WithoutMarkers(d, ps[0]), FirstSeen(IdsOf(d, ps[0])));
      SolidBreak(w, block, CiteEach(d, w, ps[1..]));
      var rest := Scan(w, [], Tokens(d, more));
      Associate(Solid(w, block), rest.0, Solid(w, Brackets(rest.1)));
    }
  }

  // ---------------------------------------------------------------- any way of cutting gives the same citations

  lemma UncutHasNothingOpen(d: DigitClass, text: string)
    requires CutAt(d, text) == |text|
    ensures NothingOpen(d, text)
  {
    hide CutAt, MaybeMoreAt, DigitRun;
    forall i | 0 <= i < |text| && text[i] == '['
      ensures DigitRun(d, text[i + 1..]) < |text| - i - 1
    {
      assert !MaybeMoreAt(d, text[i..]);
      NoMoreIsClosed(d, text[i..]);
      assert text[i..][1..] == text[i + 1..];
    }
  }

  lemma NoMoreIsClosed(d: DigitClass, s: string)
    requires !MaybeMoreAt(d, s) && s != "" && s[0] == '['
    ensures DigitRun(d, s[1..]) < |s| - 1
  {
    hide DigitRun;
  }

  /** A newline just before the cut: what was cut off is not empty, not one newline. */
  lemma NewLineBeforeCut(d: DigitClass, text: string)
    requires var cut := CutAt(d, text); cut > 0 && text[cut - 1] == '\n'
    ensures !AtDollar(text[CutAt(d, text)..])
  {
    hide CutAt, OpenMarkerAt;
    var cut := CutAt(d, text);
    assert !MaybeMoreAt(d, text[cut - 1..]);
    assert text[cut - 1..][1..] == text[cut..];
  }

  lemma MaybeMoreHead(d: DigitClass, s: string)
    requires MaybeMoreAt(d, s)
    ensures s[0] == ' ' || s[0] == '[' || s[0] == '\n'
    ensures s[0] == '\n' && !AtDollar(s) ==> BreakAt(s)
  {
    hide DigitRun;
    if s[0] == '\n' {
      assert s == ['\n'] + s[1..];
    }
  }

  /** The cut `_MAYBE_MORE` makes tears neither a marker nor a paragraph break, whatever comes next. */
  lemma CutIsSafe(d: DigitClass, text: string, more: string)
    ensures var done, left := text[..CutAt(d, text)], text[CutAt(d, text)..];
            && SafeCut(d, done, left + more)
            && (done != "" && done[|done| - 1] == '\n' && left + more != "" && (left + more)[0] == '\n'
                ==> BreakAt(left + more))
  {
    hide CutAt, MaybeMoreAt, NothingOpen;
    var cut := CutAt(d, text);
    var done, left := text[..cut], text[cut..];
    if left == "" {
      UncutHasNothingOpen(d, text);
      assert done == text;
    } else {
      MaybeMoreHead(d, left);
    }
    if done != "" && done[|done| - 1] == '\n' {
      NewLineBeforeCut(d, text);
    }
  }

  lemma {:induction false} LastToken(d: DigitClass, s: string)
    requires s != "" && Tokens(d, s)[|Tokens(d, s)| - 1] == Plain('\n')
    ensures s[|s| - 1] == '\n'
    decreases |s|
  {
    FirstToken(d, s);
    var rest := s[Step(d, s)..];
    if rest != "" {
      LastToken(d, rest);
    } else {
      assert Tokens(d, s) == [Found(d, s)];
    }
  }

  lemma NothingScanned(d: DigitClass, w: SpaceClass)
    ensures Tokens(d, "") == [] && Solid(w, "") == ""
  {}

  function StillToWrite(d: DigitClass, w: SpaceClass): (Progress, string) -> (string, seq<string>) {
    (s: Progress, text: string) => Scan(w, s.cited, Tokens(d, s.held + text))
  }

  /** The steps, with white space left out of what they write. */
  function SolidCiting(d: DigitClass, w: SpaceClass): (Progress, string) -> (string, Progress) {
    (s: Progress, piece: string) => (Solid(w, PieceStep(d, w, s, piece).0), PieceStep(d, w, s, piece).1)
  }

  lemma CutTokens(d: DigitClass, w: SpaceClass, text: string, more: string)
    ensures var done, rest := text[..CutAt(d, text)], text[CutAt(d, text)..] + more;
            Tokens(d, done + rest) == Tokens(d, done) + Tokens(d, rest) && BreakSafe(Tokens(d, done), Tokens(d, rest))
  {
    hide Tokens, CutAt, SafeCut;
    var done, rest := text[..CutAt(d, text)], text[CutAt(d, text)..] + more;
    CutIsSafe(d, text, more);
    TokensAcross(d, done, rest);
    NothingScanned(d, w);
    NewLineTokens(d, rest);
    if done != "" && Tokens(d, done) != [] && Tokens(d, done)[|Tokens(d, done)| - 1] == Plain('\n') {
      LastToken(d, done);
    }
  }

  lemma PieceScan(d: DigitClass, w: SpaceClass, cited: seq<string>, text: string, more: string)
    ensures var done, left := text[..CutAt(d, text)], text[CutAt(d, text)..];
            var out := CiteEnded(d, w, cited, Paragraphs(done));
            var rest := Scan(w, out.1, Tokens(d, left + more));
            Scan(w, cited, Tokens(d, text + more)) == (Solid(w, out.0) + rest.0, rest.1)
  {
    hide *;
    var done, left := text[..CutAt(d, text)], text[CutAt(d, text)..];
    CutTokens(d, w, text, more);
    ScanAcross(w, cited, Tokens(d, done), Tokens(d, left + more));
    CiteEndedIsScan(d, w, cited, done);
    assert text + more == done + (left + more);
  }

  lemma PieceAgrees(d: DigitClass, w: SpaceClass, s: Progress, piece: string, more: string)
    ensures StepAgrees(SolidCiting(d, w), StillToWrite(d, w), s, piece, more)
  {
    hide Scan, Solid, Tokens, CiteEnded, Paragraphs, CutAt;
    PieceScan(d, w, s.cited, s.held + piece, more);
    assert s.held + (piece + more) == (s.held + piece) + more;
  }

  lemma {:induction false} SolidRun(d: DigitClass, w: SpaceClass, s: Progress, pieces: seq<string>)
    ensures var r := Run(Citing(d, w), s, pieces);
            Run(SolidCiting(d, w), s, pieces) == (Solid(w, r.0), r.1)
    decreases |pieces|
  {
    hide PieceStep, Solid;
    if pieces == [] {
      NothingScanned(d, w);
    } else {
      var first := PieceStep(d, w, s, pieces[0]);
      SolidRun(d, w, first.1, pieces[1..]);
      SolidAcross(w, first.0, Run(Citing(d, w), first.1, pieces[1..]).0);
    }
  }

  /** What is held back is never more than an unfinished marker or break. */
  ghost predicate Unfinished(d: DigitClass, held: string) { held == "" || MaybeMoreAt(d, held) }

  lemma {:induction false} HeldIsUnfinished(d: DigitClass, w: SpaceClass, s: Progress, pieces: seq<string>)
    requires Unfinished(d, s.held)
    ensures Unfinished(d, Run(Citing(d, w), s, pieces).1.held)
    decreases |pieces|
  {
    hide CiteEnded, Paragraphs, MaybeMoreAt;
    if pieces != [] {
      HeldIsUnfinished(d, w, PieceStep(d, w, s, pieces[0]).1, pieces[1..]);
    }
  }

  /** The tail: what is still held, with the sources of the paragraph it ends, against the scan. */
  lemma TailIsScan(d: DigitClass, w: SpaceClass, cited: seq<string>, held: string)
    requires Unfinished(d, held)
    ensures var r := Scan(w, cited, Tokens(d, held));
            Solid(w, Cite(w, held, cited)) == r.0 + Solid(w, Brackets(r.1))
  {
    hide Scan, Solid, Brackets, Tokens, Cite, SeenAfter;
    SolidCite(w, held, cited);
    if held == "\n\n" {
      assert held == held + "";
      ScanBreak(d, w, cited, "");
      ScanNothing(d, w, []);
      SolidNothing(w, cited);
    } else {
      UnfinishedIsPlain(d, held);
      ScanNothing(d, w, cited);
      ScanParagraph(d, w, cited, held);
    }
  }

  lemma SolidNothing(w: SpaceClass, cited: seq<string>)
    ensures Solid(w, "\n\n") == "" && Solid(w, Brackets([])) == ""
    ensures Solid(w, Brackets(cited)) + "" + "" == "" + Solid(w, Brackets(cited))
  {
    SolidBreak(w, "", "");
    assert "" + "\n\n" + "" == "\n\n";
  }

  lemma {:induction false} NothingToRemove(d: DigitClass, s: string)
    requires forall i | 0 <= i < |s| && s[i] == '[' :: MarkerLen(d, s[i..]) == 0
    ensures WithoutMarkers(d, s) == s && IdsOf(d, s) == []
  {
    if s != "" {
      assert s[0..] == s && s[1..][0..] == s[1..];
      assert forall i | 0 <= i < |s[1..]| :: s[1..][i..] == s[i + 1..] && s[1..][i] == s[i + 1];
      NothingToRemove(d, s[1..]);
      assert s == [s[0]] + s[1..];
    }
  }

  lemma UnfinishedIsPlain(d: DigitClass, held: string)
    requires Unfinished(d, held) && held != "\n\n"
    ensures NoBreak(held) && WithoutMarkers(d, held) == held && IdsOf(d, held) == []
  {
    hide MarkerLen, WithoutMarkers, IdsOf, OpenMarkerAt;
    if held != "" {
      if OpenMarkerAt(d, held) {
        OpenMarkerIsPlain(d, held);
      } else if held[0] == ' ' && OpenMarkerAt(d, held[1..]) {
        SpacedOpenMarkerIsPlain(d, held);
      } else {
        assert held == [held[0]] + held[1..];
      }
    }
    NothingToRemove(d, held);
  }

  lemma SpacedOpenMarkerIsPlain(d: DigitClass, held: string)
    requires held != "" && held[0] == ' ' && OpenMarkerAt(d, held[1..])
    ensures forall i | 0 <= i < |held| && held[i] == '[' :: MarkerLen(d, held[i..]) == 0
    ensures forall i | 0 <= i < |held| - 1 :: held[i] != '\n'
  {
    hide MarkerLen, OpenMarkerAt;
    var t := held[1..];
    OpenMarkerIsPlain(d, t);
    forall i | 0 <= i < |held| && held[i] == '['
      ensures MarkerLen(d, held[i..]) == 0
    {
      assert held[i..] == t[i - 1..] && t[i - 1] == '[';
    }
    forall i | 0 <= i < |held| - 1
      ensures held[i] != '\n'
    {
      assert i > 0 ==> held[i] == t[i - 1];
    }
  }

  /** However the answer is cut into pieces, what is written is, up to white space, the whole text with each
      paragraph's markers taken out and its sources listed at its end. */
  lemma StreamedIsWhole(d: DigitClass, w: SpaceClass, pieces: seq<string>)
    ensures Solid(w, CitedStream(d, w, pieces)) == Solid(w, WholeText(d, w, Concat(pieces)))
  {
    hide PieceStep, Scan, Solid, Cite, Tokens, CiteEach;
    forall s, piece, more
      ensures StepAgrees(SolidCiting(d, w), StillToWrite(d, w), s, piece, more)
    {
      PieceAgrees(d, w, s, piece, more);
    }
    RunAgrees(SolidCiting(d, w), StillToWrite(d, w), START, pieces);
    SolidRun(d, w, START, pieces);
    HeldIsUnfinished(d, w, START, pieces);
    var r := Run(Citing(d, w), START, pieces);
    TailIsScan(d, w, r.1.cited, r.1.held);
    SolidAcross(w, r.0, Cite(w, r.1.held, r.1.cited));
    CiteEachIsScan(d, w, Concat(pieces));
    assert START.held + Concat(pieces) == Concat(pieces);
    assert r.1.held + "" == r.1.held;
    var tail := Scan(w, r.1.cited, Tokens(d, r.1.held));
    Associate(Solid(w, r.0), tail.0, Solid(w, Brackets(tail.1)));
  }

  /** The last paragraph, without its markers, and what it cites. */
  function LastBare(d: DigitClass, text: string): string {
    WithoutMarkers(d, Paragraphs(text)[|Paragraphs(text)| - 1])
  }

  function LastIds(d: DigitClass, text: string): seq<string> {
    FirstSeen(IdsOf(d, Paragraphs(text)[|Paragraphs(text)| - 1]))
  }

  // ---------------------------------------------------------------- the generator

  /** The paragraphs that end in a piece, then the start of the next one. */
  method CiteParagraphs(d: DigitClass, w: SpaceClass, paragraphs: seq<string>, already: seq<string>)
    returns (out: string, cited: seq<string>)
    requires paragraphs != []
    ensures (out, cited) == CiteEnded(d, w, already, paragraphs)
  {
    hide SeenAfter, Cite, WithoutMarkers, IdsOf;
    out, cited := "", already;
    var i := 0;
    assert paragraphs[0..] == paragraphs;
    assert "" + CiteEnded(d, w, already, paragraphs).0 == CiteEnded(d, w, already, paragraphs).0;
    while i < |paragraphs| - 1
      invariant 0 <= i < |paragraphs|
      invariant var rest := CiteEnded(d, w, cited, paragraphs[i..]);
                (out + rest.0, rest.1) == CiteEnded(d, w, already, paragraphs)
    {
      assert paragraphs[i..][1..] == paragraphs[i + 1..];
      cited := SeenAfter(cited, IdsOf(d, paragraphs[i]));
      var block := Cite(w, WithoutMarkers(d, paragraphs[i]), cited) + "\n\n";
      Associate(out, block, CiteEnded(d, w, [], paragraphs[i + 1..]).0);
      out := out + block;
      cited := [];
      i := i + 1;
    }
    cited := SeenAfter(cited, IdsOf(d, paragraphs[i]));
    out := out + WithoutMarkers(d, paragraphs[i]);
  }

  lemma StreamIs(d: DigitClass, w: SpaceClass, pieces: seq<string>)
    ensures var r := Run(Citing(d, w), START, pieces);
            CitedStream(d, w, pieces) == r.0 + Cite(w, r.1.held, r.1.cited)
  {}

  /** What is handed on of one piece: nothing empty. */
  function HandedOn(out: seq<string>, written: string): (r: seq<string>)
    ensures Concat(r) == Concat(out) + written
    ensures "" !in out ==> "" !in r
  {
    if written != "" then ConcatSnoc(out, written); out + [written] else assert Concat(out) + "" == Concat(out); out
  }

  /** How far the answer has come after its first `i` pieces. */
  ghost predicate CitedSoFar(d: DigitClass, w: SpaceClass, pieces: seq<string>, i: nat, out: seq<string>, s: Progress)
    requires i <= |pieces|
  {
    Run(Citing(d, w), START, pieces[..i]) == (Concat(out), s) && "" !in out
  }

  lemma NothingCited(d: DigitClass, w: SpaceClass, pieces: seq<string>)
    ensures CitedSoFar(d, w, pieces, 0, [], START)
  {
    ConcatNothing();
  }

  lemma OnePieceOn(d: DigitClass, w: SpaceClass, pieces: seq<string>, i: nat, out: seq<string>, s: Progress)
    requires i < |pieces| && CitedSoFar(d, w, pieces, i, out, s)
    ensures var (written, next) := PieceStep(d, w, s, pieces[i]);
            CitedSoFar(d, w, pieces, i + 1, HandedOn(out, written), next)
  {
    hide PieceStep, HandedOn, Concat, Run;
    RunSnoc(Citing(d, w), START, pieces[..i], pieces[i]);
    assert pieces[..i + 1] == pieces[..i] + [pieces[i]];
  }

  lemma AllCited(d: DigitClass, w: SpaceClass, pieces: seq<string>, out: seq<string>, s: Progress)
    requires CitedSoFar(d, w, pieces, |pieces|, out, s)
    ensures var r := HandedOn(out, Cite(w, s.held, s.cited));
            && Concat(r) == CitedStream(d, w, pieces) && "" !in r
            && Solid(w, Concat(r)) == Solid(w, WholeText(d, w, Concat(pieces)))
  {
    hide HandedOn, Concat, Run, Solid, Cite, CitedStream, WholeText;
    assert pieces[..|pieces|] == pieces;
    StreamedIsWhole(d, w, pieces);
    StreamIs(d, w, pieces);
  }

  /** `cite_per_paragraph`: what goes out, none of it empty, holds all but the white space of the whole text cited. */
  method CitePerParagraph(d: DigitClass, w: SpaceClass, pieces: seq<string>) returns (out: seq<string>)
    ensures Concat(out) == CitedStream(d, w, pieces)
    ensures Solid(w, Concat(out)) == Solid(w, WholeText(d, w, Concat(pieces)))
    ensures "" !in out
  {
    hide CiteEnded, Cite, CutAt, Paragraphs, Solid, WholeText, Concat, CitedStream, CitedSoFar;
    var cited, held := [], "";
    out := [];
    NothingCited(d, w, pieces);
    for i := 0 to |pieces|
      invariant CitedSoFar(d, w, pieces, i, out, Progress(cited, held))
    {
      OnePieceOn(d, w, pieces, i, out, Progress(cited, held));
      var text := held + pieces[i];
      var cut := CutAt(d, text);
      text, held := text[..cut], text[cut..];
      var written;
      written, cited := CiteParagraphs(d, w, Paragraphs(text), cited);
      if written != "" {
        out := out + [written];
      }
    }
    AllCited(d, w, pieces, out, Progress(cited, held));
    var tail := Cite(w, held, cited);
    if tail != "" {
      out := out + [tail];
    }
  }
}
