/** The paragraphs a reader sees of a cited answer, streamed in pieces against the whole text. */
module StreamedBreaks {
  import opened Text
  import opened Markers
  import opened ParagraphCitations
  import opened ParagraphBreaks

  // ---------------------------------------------------------------- what a reader sees

  /** Those of the paragraphs that hold anything, each without its white space. */
  function Solids(w: SpaceClass, paragraphs: seq<string>): seq<string> {
    if paragraphs == [] then [] else Flush(Solid(w, paragraphs[0])) + Solids(w, paragraphs[1..])
  }

  function Flush(cur: string): seq<string> { if cur == "" then [] else [cur] }

  /** A text paragraph by paragraph: its breaks count, the rest of its white space does not. */
  function Shape(w: SpaceClass, s: string): seq<string> { Solids(w, Paragraphs(s)) }

  /** The same, one character at a time: the paragraphs over, the one going on, and whether it stands at a newline. */
  datatype Shown = Shown(done: seq<string>, cur: string, nl: bool)

  function Show(w: SpaceClass, r: Shown, c: char): Shown {
    if !w(c) then Shown(r.done, r.cur + [c], false)
    else if r.cur == "" then r
    else if c == '\n' && r.nl then Shown(r.done + [r.cur], "", false)
    else r.(nl := c == '\n')
  }

  function ShowAll(w: SpaceClass, r: Shown, s: string): Shown
    decreases |s|
  {
    if s == "" then r else ShowAll(w, Show(w, r, s[0]), s[1..])
  }

  function Finish(r: Shown): seq<string> { r.done + Flush(r.cur) }

  const BLANK := Shown([], "", false)

  lemma {:induction false} ShowAcross(w: SpaceClass, r: Shown, a: string, b: string)
    ensures ShowAll(w, r, a + b) == ShowAll(w, ShowAll(w, r, a), b)
    decreases |a|
  {
    if a == "" {
      assert a + b == b;
    } else {
      assert (a + b)[1..] == a[1..] + b;
      ShowAcross(w, Show(w, r, a[0]), a[1..], b);
    }
  }

  lemma NewLineForgotten(w: SpaceClass, r: Shown, s: string)
    requires s != "" && s[0] != '\n'
    ensures r.cur != "" ==> ShowAll(w, r.(nl := true), s) == ShowAll(w, r.(nl := false), s)
  {}

  lemma BreakShown(w: SpaceClass, r: Shown, s: string)
    requires r.cur == "" ==> !r.nl
    ensures ShowAll(w, r, "\n\n" + s) == ShowAll(w, Shown(Finish(r), "", false), s)
  {
    var q := "\n\n" + s;
    assert q[1..] == "\n" + s && q[1..][1..] == s;
    assert r.done + [] == r.done;
  }

  lemma {:induction false} ShapeFrom(w: SpaceClass, done: seq<string>, cur: string, s: string)
    ensures var ps := Paragraphs(s);
            Finish(ShowAll(w, Shown(done, cur, false), s)) == done + (Flush(cur + Solid(w, ps[0])) + Solids(w, ps[1..]))
    decreases |s|
  {
    hide Finish, Flush;
    var r := Shown(done, cur, false);
    if s == "" {
      NothingShown(w, r);
    } else if BreakAt(s) {
      assert s == "\n\n" + s[2..];
      BreakShown(w, r, s[2..]);
      ShapeFrom(w, Finish(r), "", s[2..]);
      BreakOfShape(w, done, cur, Paragraphs(s[2..]));
    } else {
      var ps := Paragraphs(s[1..]);
      CharOfShape(w, cur, s, ps);
      if w(s[0]) {
        ShapeFrom(w, done, cur, s[1..]);
        BlankShown(w, r, s);
      } else {
        ShapeFrom(w, done, cur + [s[0]], s[1..]);
      }
    }
  }

  lemma NothingShown(w: SpaceClass, r: Shown)
    ensures Finish(ShowAll(w, r, "")) == r.done
            + (Flush(r.cur + Solid(w, Paragraphs("")[0])) + Solids(w, Paragraphs("")[1..]))
  {
    assert r.cur + "" == r.cur;
    assert Flush(r.cur) + [] == Flush(r.cur);
  }

  lemma BreakOfShape(w: SpaceClass, done: seq<string>, cur: string, ps: seq<string>)
    requires ps != []
    ensures Finish(Shown(done, cur, false)) + (Flush("" + Solid(w, ps[0])) + Solids(w, ps[1..]))
         == done + (Flush(cur + Solid(w, "")) + Solids(w, ps))
  {
    assert cur + "" == cur && "" + Solid(w, ps[0]) == Solid(w, ps[0]);
  }

  lemma CharOfShape(w: SpaceClass, cur: string, s: string, ps: seq<string>)
    requires s != "" && ps != []
    ensures cur + Solid(w, [s[0]] + ps[0]) == (if w(s[0]) then cur else cur + [s[0]]) + Solid(w, ps[0])
    ensures ([[s[0]] + ps[0]] + ps[1..])[1..] == ps[1..]
  {
    assert ([s[0]] + ps[0])[1..] == ps[0];
  }

  lemma BlankShown(w: SpaceClass, r: Shown, s: string)
    requires s != "" && w(s[0]) && !BreakAt(s) && !r.nl
    ensures Finish(ShowAll(w, r, s)) == Finish(ShowAll(w, r, s[1..]))
  {
    if s[1..] != "" && s[0] == '\n' && r.cur != "" {
      NewLineForgotten(w, r, s[1..]);
      assert r.(nl := false) == r;
    }
  }

  lemma ShapeIsShown(w: SpaceClass, s: string)
    ensures Shape(w, s) == Finish(ShowAll(w, BLANK, s))
  {
    ShapeFrom(w, [], "", s);
    var ps := Paragraphs(s);
    assert "" + Solid(w, ps[0]) == Solid(w, ps[0]);
    assert [] + Shape(w, s) == Shape(w, s);
  }

  // ---------------------------------------------------------------- the page as it should come out

  /** The white space a paragraph stands at: none that matters, one newline, or a break. */
  datatype Gap = NoGap | OneLine | Parted

  /** The paragraphs over, the one going on, and what that has cited. Its citations go with its last words, whatever
      white space stands between. */
  datatype Page = Page(done: seq<string>, cur: string, gap: Gap, cited: seq<string>)

  const EMPTY := Page([], "", NoGap, [])

  function Put(w: SpaceClass, p: Page, c: char): Page {
    if !w(c) then
      if p.gap.Parted? then p.(done := p.done + [p.cur], cur := [c], gap := NoGap)
      else p.(cur := p.cur + [c], gap := NoGap)
    else if p.cur == "" || p.gap.Parted? then p
    else p.(gap := if c != '\n' then NoGap else if p.gap.OneLine? then Parted else OneLine)
  }

  function PutAll(w: SpaceClass, p: Page, s: string): Page
    decreases |s|
  {
    if s == "" then p else PutAll(w, Put(w, p, s[0]), s[1..])
  }

  /** A paragraph ends: what it cited goes with its last words. */
  function Close(w: SpaceClass, p: Page): Page {
    Page(p.done + Flush(p.cur + Solid(w, Brackets(p.cited))), "", NoGap, [])
  }

  function PageOf(w: SpaceClass, p: Page, toks: seq<Token>): Page
    decreases |toks|
  {
    if toks == [] then p
    else if toks[0].Mark? then PageOf(w, p.(cited := SeenAfter(p.cited, [toks[0].id])), toks[1..])
    else if BreakIn(toks) then PageOf(w, Close(w, p), toks[2..])
    else PageOf(w, Put(w, p, toks[0].c), toks[1..])
  }

  ghost predicate Tidy(p: Page) { (p.cur == "" ==> p.gap.NoGap?) && Lacks(Brackets(p.cited), '\n') }

  /** What a reader makes of a page whose present paragraph has been shown as it is. */
  function Settle(p: Page): Shown {
    if p.gap.Parted? then Shown(p.done + [p.cur], "", false) else Shown(p.done, p.cur, p.gap.OneLine?)
  }

  /** What has been shown is the page, but for `k` paragraphs that were torn in two. */
  ghost predicate Ahead(r: Shown, p: Page, k: nat) {
    var q := Settle(p);
    r.cur == q.cur && r.nl == q.nl && |r.done| == |q.done| + k && (k == 0 ==> r.done == q.done)
  }

  /** A finished list against the page's. */
  ghost predicate More(a: seq<string>, b: seq<string>, k: nat) { |a| == |b| + k && (k == 0 ==> a == b) }

  lemma PutAhead(w: SpaceClass, r: Shown, p: Page, c: char, k: nat)
    requires Tidy(p) && Ahead(r, p, k)
    ensures Tidy(Put(w, p, c)) && Ahead(Show(w, r, c), Put(w, p, c), k)
  {
    hide Brackets, Lacks;
  }

  lemma {:induction false} PutAllAhead(w: SpaceClass, r: Shown, p: Page, s: string, k: nat)
    requires Tidy(p) && Ahead(r, p, k)
    ensures Tidy(PutAll(w, p, s)) && Ahead(ShowAll(w, r, s), PutAll(w, p, s), k)
    ensures PutAll(w, p, s).cited == p.cited
    decreases |s|
  {
    hide Tidy, Ahead, Show;
    if s != "" {
      PutAhead(w, r, p, s[0], k);
      PutAllAhead(w, Show(w, r, s[0]), Put(w, p, s[0]), s[1..], k);
    }
  }

  lemma {:induction false} PutSnoc(w: SpaceClass, p: Page, s: string, c: char)
    ensures PutAll(w, p, s + [c]) == Put(w, PutAll(w, p, s), c)
    decreases |s|
  {
    hide Put;
    if s == "" {
      assert s + [c] == [c] && [c][1..] == "";
    } else {
      assert (s + [c])[1..] == s[1..] + [c];
      PutSnoc(w, Put(w, p, s[0]), s[1..], c);
    }
  }

  /** Stripping what stands last takes no words with it. */
  lemma {:induction false} StripKeepsWords(w: SpaceClass, p: Page, s: string)
    ensures var a, b := PutAll(w, p, RStrip(w, s)), PutAll(w, p, s);
            a.done == b.done && a.cur == b.cur && a.cited == b.cited
    ensures RStrip(w, s) == "" <==> IsBlank(w, s)
    ensures RStrip(w, s) != "" ==> PutAll(w, p, RStrip(w, s)).gap == NoGap
    decreases |s|
  {
    hide Put;
    if s != "" {
      var front, last := s[..|s| - 1], s[|s| - 1];
      assert s == front + [last];
      PutSnoc(w, p, front, last);
      OneWord(w, PutAll(w, p, front), last);
      if w(last) {
        StripKeepsWords(w, p, front);
      }
    }
  }

  lemma OneWord(w: SpaceClass, p: Page, c: char)
    ensures w(c) ==> Put(w, p, c).done == p.done && Put(w, p, c).cur == p.cur && Put(w, p, c).cited == p.cited
    ensures !w(c) ==> Put(w, p, c).gap == NoGap
  {}

  ghost predicate Neat(r: Shown) { r.cur == "" ==> !r.nl }

  lemma {:induction false} ShowNeat(w: SpaceClass, r: Shown, s: string)
    requires Neat(r)
    ensures Neat(ShowAll(w, r, s))
    decreases |s|
  {
    if s != "" {
      ShowNeat(w, Show(w, r, s[0]), s[1..]);
    }
  }

  lemma InlineOne(w: SpaceClass, r: Shown, c: char)
    requires c != '\n'
    ensures Show(w, r, c).done == r.done && Show(w, r, c).cur == r.cur + if w(c) then "" else [c]
  {
    assert r.cur + "" == r.cur;
  }

  /** A line without a newline stays in its paragraph. */
  lemma {:induction false} InlineShown(w: SpaceClass, r: Shown, s: string)
    requires Lacks(s, '\n')
    ensures ShowAll(w, r, s).done == r.done && ShowAll(w, r, s).cur == r.cur + Solid(w, s)
    decreases |s|
  {
    hide Show;
    if s == "" {
      assert r.cur + "" == r.cur;
    } else {
      InlineOne(w, r, s[0]);
      InlineShown(w, Show(w, r, s[0]), s[1..]);
      Associate(r.cur, if w(s[0]) then "" else [s[0]], Solid(w, s[1..]));
    }
  }

  // ---------------------------------------------------------------- one paragraph cited

  /** A paragraph that has been shown as it came, and then nothing but white space before what it cites. */
  function TornNow(w: SpaceClass, p: Page, blank: bool, cited: seq<string>): nat {
    if p.gap.Parted? && blank && cited != [] then 1 else 0
  }

  lemma CloseShown(w: SpaceClass, r: Shown, p: Page, k: nat)
    requires Ahead(r, p, k) && Tidy(p) && p.cited == []
    ensures More(Finish(r), Close(w, p).done, k)
  {
    assert Solid(w, Brackets([])) == "" && p.cur + "" == p.cur;
    assert r.done + [] == r.done;
  }

  /** Words, and what they cite after them. */
  lemma CitedWords(w: SpaceClass, r: Shown, p: Page, k: nat, tail: string)
    requires Ahead(r, p, k) && p.gap.NoGap? && tail == Brackets(p.cited) && Lacks(tail, '\n')
    ensures More(Finish(ShowAll(w, r, " " + tail)), Close(w, p).done, k)
  {
    hide Brackets, Show;
    InlineTail(w, r, tail);
  }

  lemma InlineTail(w: SpaceClass, r: Shown, tail: string)
    requires Lacks(tail, '\n')
    ensures var a := ShowAll(w, r, " " + tail); a.done == r.done && a.cur == r.cur + Solid(w, tail)
  {
    assert (" " + tail)[1..] == tail;
    InlineShown(w, r, " " + tail);
    assert Solid(w, " " + tail) == "" + Solid(w, tail) == Solid(w, tail);
  }

  /** Nothing but what is cited: with the last words, unless a reader has seen a break after them. */
  lemma CitedAlone(w: SpaceClass, r: Shown, p: Page, k: nat, tail: string)
    requires Ahead(r, p, k) && Tidy(p) && p.cited != [] && tail == Brackets(p.cited)
    ensures More(Finish(ShowAll(w, r, " " + tail)), Close(w, p).done, k + if p.gap.Parted? then 1 else 0)
  {
    hide Brackets, Show, ShowAll;
    InlineTail(w, r, tail);
    BracketsSolid(w, p.cited);
    assert "" + Solid(w, tail) == Solid(w, tail);
  }

  lemma BracketsSolid(w: SpaceClass, ids: seq<string>)
    requires ids != []
    ensures Solid(w, Brackets(ids)) != ""
  {
    assert Brackets(ids)[0] == '[';
  }

  lemma CiteShown(w: SpaceClass, r: Shown, p: Page, text: string, ids: seq<string>, k: nat)
    requires Tidy(p) && Ahead(r, p, k) && Lacks(Brackets(ids), '\n')
    ensures var after := PutAll(w, p, text).(cited := ids);
            More(Finish(ShowAll(w, r, Cite(w, text, ids))), Close(w, after).done,
                 k + TornNow(w, p, IsBlank(w, text), ids))
  {
    hide Brackets, Lacks, ShowAll, PutAll, Close, More, RStrip, IsBlank, Finish, Ahead;
    var after := PutAll(w, p, text).(cited := ids);
    if ids == [] {
      PutAllAhead(w, r, p, text, k);
      AheadOfCited(ShowAll(w, r, text), PutAll(w, p, text), [], k);
      CloseShown(w, ShowAll(w, r, text), after, k);
    } else {
      var kept := RStrip(w, text);
      StripKeepsWords(w, p, text);
      var words := PutAll(w, p, kept).(cited := ids);
      SameClose(w, words, after);
      PutAllAhead(w, r, p, kept, k);
      AheadOfCited(ShowAll(w, r, kept), PutAll(w, p, kept), ids, k);
      ShowAcross(w, r, kept, " " + Brackets(ids));
      assert kept + " " + Brackets(ids) == kept + (" " + Brackets(ids));
      if kept == "" {
        NothingPut(w, p, r);
        CitedAlone(w, r, words, k, Brackets(ids));
      } else {
        CitedWords(w, ShowAll(w, r, kept), words, k, Brackets(ids));
      }
    }
  }

  lemma NothingPut(w: SpaceClass, p: Page, r: Shown)
    ensures PutAll(w, p, "") == p && ShowAll(w, r, "") == r
  {}

  lemma SameClose(w: SpaceClass, p: Page, q: Page)
    requires p.done == q.done && p.cur == q.cur && p.cited == q.cited
    ensures Close(w, p) == Close(w, q)
  {}

  lemma AheadOfCited(r: Shown, p: Page, ids: seq<string>, k: nat)
    requires Tidy(p) && Ahead(r, p, k) && Lacks(Brackets(ids), '\n')
    ensures Tidy(p.(cited := ids)) && Ahead(r, p.(cited := ids), k)
  {
    hide Brackets, Lacks;
  }

  // ---------------------------------------------------------------- a stretch of text

  /** Whether the paragraph shown before the text is torn from its citations: nothing but white space and markers comes
      before the break that ends it, or before the end where `end` says that ends it too. */
  function TornBy(w: SpaceClass, p: Page, blank: bool, cited: seq<string>, toks: seq<Token>, end: bool): nat
    decreases |toks|
  {
    if toks == [] then if end then TornNow(w, p, blank, cited) else 0
    else if toks[0].Mark? then TornBy(w, p, blank, SeenAfter(cited, [toks[0].id]), toks[1..], end)
    else if BreakIn(toks) then TornNow(w, p, blank, cited)
    else TornBy(w, p, blank && w(toks[0].c), cited, toks[1..], end)
  }

  lemma {:induction false} NotTorn(w: SpaceClass, p: Page, blank: bool, cited: seq<string>, toks: seq<Token>, end: bool)
    requires !p.gap.Parted? || !blank
    ensures TornBy(w, p, blank, cited, toks, end) == 0
    decreases |toks|
  {
    hide SeenAfter;
    if toks != [] {
      if toks[0].Mark? {
        NotTorn(w, p, blank, SeenAfter(cited, [toks[0].id]), toks[1..], end);
      } else if !BreakIn(toks) {
        NotTorn(w, p, blank && w(toks[0].c), cited, toks[1..], end);
      }
    }
  }

  ghost predicate InlineMarks(toks: seq<Token>) {
    forall i | 0 <= i < |toks| && toks[i].Mark? :: Lacks(toks[i].id, '\n')
  }

  lemma InlineTails(toks: seq<Token>, n: nat)
    requires InlineMarks(toks) && n <= |toks|
    ensures InlineMarks(toks[n..])
  {
    hide Lacks;
    assert forall i | 0 <= i < |toks| - n :: toks[n..][i] == toks[n + i];
  }

  lemma {:induction false} BracketsMore(ids: seq<string>, id: string)
    requires Lacks(Brackets(ids), '\n') && Lacks(id, '\n')
    ensures Lacks(Brackets(SeenAfter(ids, [id])), '\n')
  {
    hide Brackets;
    assert [id][1..] == [];
    assert SeenAfter(ids, [id]) == if id in ids then ids else ids + [id];
    BracketsSnoc(ids, id);
    var b := Brackets(ids) + ("[" + id + "]");
    assert Lacks("[" + id + "]", '\n');
  }

  lemma {:induction false} BracketsSnoc(ids: seq<string>, id: string)
    ensures Brackets(ids + [id]) == Brackets(ids) + ("[" + id + "]")
  {
    if ids == [] {
      assert [] + [id] == [id] && [id][1..] == [];
      assert Brackets([id]) == "[" + id + "]" + "" == "" + ("[" + id + "]");
    } else {
      assert (ids + [id])[1..] == ids[1..] + [id];
      BracketsSnoc(ids[1..], id);
      Associate("[" + ids[0] + "]", Brackets(ids[1..]), "[" + id + "]");
    }
  }

  /** What is written of a stretch of text, as a reader sees it, against the page it should come out as. */
  lemma {:induction false} WriteShown(w: SpaceClass, r: Shown, p: Page, text: string, cited: seq<string>,
                                      toks: seq<Token>, k: nat)
    requires Tidy(p) && Ahead(r, p, k) && InlineMarks(toks) && Lacks(Brackets(cited), '\n')
    ensures var out := Write(w, cited, text, toks);
            var page := PageOf(w, PutAll(w, p, text).(cited := cited), toks);
            && Tidy(page) && page.cited == out.cited
            && Ahead(ShowAll(w, r, out.front + out.bare), page, k + TornBy(w, p, IsBlank(w, text), cited, toks, false))
            && More(Finish(ShowAll(w, r, out.front + Cite(w, out.bare, out.cited))), Close(w, page).done,
                    k + TornBy(w, p, IsBlank(w, text), cited, toks, true))
    decreases |toks|
  {
    hide Tidy, Ahead, More, ShowAll, PutAll, Put, Close, Cite, Finish, IsBlank, SeenAfter, Brackets, Lacks, BreakIn,
         TornNow;
    if toks == [] {
      EndShown(w, r, p, text, cited, k);
    } else if toks[0].Mark? {
      InlineTails(toks, 1);
      BracketsMore(cited, toks[0].id);
      WriteShown(w, r, p, text, SeenAfter(cited, [toks[0].id]), toks[1..], k);
    } else if BreakIn(toks) {
      BreakIsTwo(toks);
      InlineTails(toks, 2);
      BreakWritten(w, r, p, text, cited, toks, k);
    } else {
      InlineTails(toks, 1);
      WriteShown(w, r, p, text + [toks[0].c], cited, toks[1..], k);
      PutSnoc(w, p, text, toks[0].c);
      PutKeepsCited(w, PutAll(w, p, text), cited, toks[0].c);
      BlankSnoc(w, text, toks[0].c);
    }
  }

  lemma BreakIsTwo(toks: seq<Token>)
    ensures BreakIn(toks) ==> |toks| >= 2
  {}

  lemma PutKeepsCited(w: SpaceClass, p: Page, cited: seq<string>, c: char)
    ensures Put(w, p, c).(cited := cited) == Put(w, p.(cited := cited), c)
  {}

  lemma BlankSnoc(w: SpaceClass, s: string, c: char)
    ensures IsBlank(w, s + [c]) <==> IsBlank(w, s) && w(c)
  {
    assert (s + [c])[|s|] == c && forall i | 0 <= i < |s| :: (s + [c])[i] == s[i];
  }

  lemma EndShown(w: SpaceClass, r: Shown, p: Page, text: string, cited: seq<string>, k: nat)
    requires Tidy(p) && Ahead(r, p, k) && Lacks(Brackets(cited), '\n')
    ensures var page := PutAll(w, p, text).(cited := cited);
            && Tidy(page)
            && Ahead(ShowAll(w, r, "" + text), page, k)
            && More(Finish(ShowAll(w, r, "" + Cite(w, text, cited))), Close(w, page).done,
                    k + TornNow(w, p, IsBlank(w, text), cited))
  {
    hide Ahead, More, ShowAll, PutAll, Close, Cite, Finish, IsBlank, Brackets, Lacks, TornNow, Tidy;
    assert "" + text == text && "" + Cite(w, text, cited) == Cite(w, text, cited);
    PutAllAhead(w, r, p, text, k);
    AheadOfCited(ShowAll(w, r, text), PutAll(w, p, text), cited, k);
    CiteShown(w, r, p, text, cited, k);
  }

  lemma AheadIsNeat(r: Shown, p: Page, k: nat)
    requires Tidy(p) && Ahead(r, p, k)
    ensures Neat(r)
  {
    hide Brackets, Lacks;
  }

  lemma ClosedAhead(w: SpaceClass, done: seq<string>, p: Page, k: nat)
    requires More(done, Close(w, p).done, k)
    ensures Tidy(Close(w, p)) && Ahead(Shown(done, "", false), Close(w, p), k) && Lacks(Brackets([]), '\n')
    ensures Close(w, p).cited == [] && Close(w, p).gap == NoGap
            && PutAll(w, Close(w, p), "").(cited := []) == Close(w, p)
  {}

  lemma BreakWritten(w: SpaceClass, r: Shown, p: Page, text: string, cited: seq<string>, toks: seq<Token>, k: nat)
    requires Tidy(p) && Ahead(r, p, k) && |toks| >= 2 && InlineMarks(toks[2..]) && Lacks(Brackets(cited), '\n')
    ensures var rest := Write(w, [], "", toks[2..]);
            var page := PageOf(w, Close(w, PutAll(w, p, text).(cited := cited)), toks[2..]);
            var front := Cite(w, text, cited) + "\n\n" + rest.front;
            var torn := TornNow(w, p, IsBlank(w, text), cited);
            && Tidy(page) && page.cited == rest.cited
            && Ahead(ShowAll(w, r, front + rest.bare), page, k + torn)
            && More(Finish(ShowAll(w, r, front + Cite(w, rest.bare, rest.cited))), Close(w, page).done, k + torn)
    decreases |toks| - 1
  {
    hide Tidy, Ahead, More, ShowAll, PutAll, Put, Close, Cite, Finish, IsBlank, SeenAfter, Brackets, Lacks, BreakIn,
         TornNow, Write, PageOf, TornBy;
    var q := PutAll(w, p, text).(cited := cited);
    var torn := TornNow(w, p, IsBlank(w, text), cited);
    var block := Cite(w, text, cited);
    var shown := ShowAll(w, r, block);
    CiteShown(w, r, p, text, cited, k);
    ClosedAhead(w, Finish(shown), q, k + torn);
    var next := Shown(Finish(shown), "", false);
    WriteShown(w, next, Close(w, q), "", [], toks[2..], k + torn);
    NotTorn(w, Close(w, q), IsBlank(w, ""), [], toks[2..], false);
    NotTorn(w, Close(w, q), IsBlank(w, ""), [], toks[2..], true);
    AheadIsNeat(r, p, k);
    var rest := Write(w, [], "", toks[2..]);
    PastBreak(w, r, block, rest.front, rest.bare);
    PastBreak(w, r, block, rest.front, Cite(w, rest.bare, rest.cited));
  }

  lemma PastBreak(w: SpaceClass, r: Shown, block: string, front: string, back: string)
    requires Neat(r)
    ensures ShowAll(w, r, (block + "\n\n" + front) + back)
         == ShowAll(w, Shown(Finish(ShowAll(w, r, block)), "", false), front + back)
  {
    hide ShowAll, Finish;
    ShowNeat(w, r, block);
    ShowAcross(w, r, block, "\n\n" + (front + back));
    BreakShown(w, ShowAll(w, r, block), front + back);
    assert (block + "\n\n" + front) + back == block + ("\n\n" + (front + back));
  }

  // ---------------------------------------------------------------- the whole text and the pieces

  lemma {:induction false} LexInline(d: DigitClass, s: string)
    ensures InlineMarks(Lex(d, s))
    decreases |s|
  {
    hide LexStep, LexFound;
    if s != "" {
      LexInline(d, s[LexStep(d, s)..]);
      FoundInline(d, s);
    }
  }

  lemma FoundInline(d: DigitClass, s: string)
    requires s != ""
    ensures LexFound(d, s).Mark? ==> Lacks(LexFound(d, s).id, '\n')
  {
    hide MarkerLen;
    var n := SpacedMarkerLen(d, s);
    if n > 0 {
      MarkerInside(d, s);
      if s[0] == ' ' {
        MarkerDigits(d, s[1..]);
        var id, t := s[2..n - 1], s[1..];
        forall i | 0 <= i < |id|
          ensures id[i] == t[1..n - 2][i]
        {
          assert id[i] == s[i + 2] == t[i + 1];
        }
      } else {
        assert s[0..] == s;
        MarkerDigits(d, s);
      }
    }
  }

  lemma MarkerDigits(d: DigitClass, s: string)
    requires MarkerLen(d, s) > 1
    ensures MarkerLen(d, s) <= |s| && Lacks(s[1..MarkerLen(d, s) - 1], '\n')
  {}

  /** Nothing is shown, nothing is due. */
  lemma AtStart(w: SpaceClass)
    ensures Tidy(EMPTY) && Ahead(BLANK, EMPTY, 0) && PutAll(w, EMPTY, "").(cited := []) == EMPTY
  {}

  /** A reader of the whole text sees the page as it should come out. */
  lemma WholeShown(d: DigitClass, w: SpaceClass, text: string)
    ensures Shape(w, WholeText(d, w, text)) == Close(w, PageOf(w, EMPTY, Lex(d, text))).done
  {
    hide Lex, Shape, Tidy, Ahead, Close, PageOf, PutAll, Finish, WholeText, Write, Cite;
    AtStart(w);
    LexInline(d, text);
    WriteShown(w, BLANK, EMPTY, "", [], Lex(d, text), 0);
    NotTorn(w, EMPTY, IsBlank(w, ""), [], Lex(d, text), true);
    WholeWrites(d, w, text);
    ShapeIsShown(w, WholeText(d, w, text));
  }

  /** `y` does not take a newline from a break of `x`, unless it begins with a whole one. */
  ghost predicate BreakKept(x: seq<Token>, y: seq<Token>) { Apart(x, y) || BreakIn(y) }

  lemma {:induction false} IdleNewLine(w: SpaceClass, p: Page, z: seq<Token>)
    requires p.cur == "" && p.gap == NoGap && p.cited == []
    ensures PageOf(w, p, [Plain('\n')] + z) == PageOf(w, p, z)
    decreases |z|
  {
    var all := [Plain('\n')] + z;
    assert all[1..] == z && Solid(w, Brackets([])) == "";
    assert p.done + [] == p.done;
    if NewLineAt(z) {
      assert all[2..] == z[1..] && z == [Plain('\n')] + z[1..];
      IdleNewLine(w, p, z[1..]);
    }
  }

  lemma {:induction false} PageAcross(w: SpaceClass, p: Page, x: seq<Token>, y: seq<Token>)
    requires BreakKept(x, y)
    ensures PageOf(w, p, x + y) == PageOf(w, PageOf(w, p, x), y)
    decreases |x|
  {
    hide Put, Close, SeenAfter;
    if x == [] {
      assert x + y == y;
    } else if x[0].Mark? {
      assert (x + y)[1..] == x[1..] + y;
      PageAcross(w, p.(cited := SeenAfter(p.cited, [x[0].id])), x[1..], y);
    } else if BreakIn(x) {
      BreakIsTwo(x);
      assert (x + y)[1..] == x[1..] + y && (x + y)[2..] == x[2..] + y;
      PageAcross(w, Close(w, p), x[2..], y);
    } else if Apart(x, y) || |x| > 1 {
      assert (x + y)[1..] == x[1..] + y;
      NoBreakYet(x, y);
      PageAcross(w, Put(w, p, x[0].c), x[1..], y);
    } else {
      BreakTaken(w, p, y);
    }
  }

  lemma NoBreakYet(x: seq<Token>, y: seq<Token>)
    requires x != [] && !BreakIn(x) && (Apart(x, y) || |x| > 1)
    ensures !BreakIn(x + y)
  {
    assert (x + y)[1..] == x[1..] + y;
    if |x| == 1 {
      assert x[1..] + y == y;
    }
  }

  /** One newline, then a break: where the break falls makes no difference. */
  lemma BreakTaken(w: SpaceClass, p: Page, y: seq<Token>)
    requires BreakIn(y)
    ensures PageOf(w, p, [Plain('\n')] + y) == PageOf(w, PageOf(w, p, [Plain('\n')]), y)
  {
    var x := [Plain('\n')];
    assert (x + y)[1..] == y && (x + y)[2..] == y[1..] == x + y[2..] && x[1..] == [];
    CloseIsClean(w, p);
    IdleNewLine(w, Close(w, p), y[2..]);
    var q := Put(w, p, '\n');
    assert PageOf(w, p, x) == q by { assert !BreakIn(x); }
    assert Close(w, q) == Close(w, p);
  }

  lemma CloseIsClean(w: SpaceClass, p: Page)
    ensures var q := Close(w, p); q.cur == "" && q.gap == NoGap && q.cited == []
  {}

  lemma CutKeepsBreak(d: DigitClass, text: string, more: string)
    ensures var done, left := text[..CutAt(d, text)], text[CutAt(d, text)..];
            && Lex(d, text + more) == Lex(d, done) + Lex(d, left + more)
            && BreakKept(Lex(d, done), Lex(d, left + more))
  {
    hide CutAt, Lex, SafeCut, NoSpaceTorn;
    var done, left := text[..CutAt(d, text)], text[CutAt(d, text)..];
    CutIsSafe(d, text, more);
    CutIsLexCut(d, text, more);
    LexAcross(d, done, left + more);
    assert text + more == done + (left + more);
    LexNotEmpty(d, done);
    LexNewLine(d, left + more);
    if Lex(d, done) != [] && Lex(d, done)[|Lex(d, done)| - 1] == Plain('\n') {
      LastLexed(d, done);
    }
  }

  /** How many paragraphs a run tears: at most one for each piece, and one at the end. */
  function Tears(d: DigitClass, w: SpaceClass, p: Page, held: string, pieces: seq<string>): nat
    decreases |pieces|
  {
    if pieces == [] then TornBy(w, p, true, p.cited, Lex(d, held), true)
    else
      var text := held + pieces[0];
      var done := Lex(d, text[..CutAt(d, text)]);
      TornBy(w, p, true, p.cited, done, false) + Tears(d, w, PageOf(w, p, done), text[CutAt(d, text)..], pieces[1..])
  }

  lemma TailShown(d: DigitClass, w: SpaceClass, r: Shown, p: Page, held: string, k: nat)
    requires Tidy(p) && Ahead(r, p, k) && Unfinished(d, held)
    ensures More(Finish(ShowAll(w, r, Cite(w, held, p.cited))), Close(w, PageOf(w, p, Lex(d, held))).done,
                 k + TornBy(w, p, true, p.cited, Lex(d, held), true))
  {
    hide Lex, Ahead, More, Finish, ShowAll, Close, PageOf, TornBy, Write, Cite, Brackets, Lacks, WithoutMarkers, IdsOf,
         SeenAfter;
    LexInline(d, held);
    WriteShown(w, r, p, "", p.cited, Lex(d, held), k);
    assert PutAll(w, p, "").(cited := p.cited) == p;
    if held == "\n\n" {
      HeldBreakShown(d, w, r, p, k);
    } else {
      UnfinishedIsPlain(d, held);
      ParagraphWrites(d, w, p.cited, "", held);
      NoneSeen(p.cited);
      assert "" + held == held && "" + Cite(w, held, p.cited) == Cite(w, held, p.cited);
    }
  }

  lemma NoneSeen(cited: seq<string>)
    ensures SeenAfter(cited, []) == cited
  {}

  lemma HeldBreakShown(d: DigitClass, w: SpaceClass, r: Shown, p: Page, k: nat)
    requires Tidy(p) && Ahead(r, p, k)
    ensures var out := Write(w, p.cited, "", Lex(d, "\n\n"));
            Finish(ShowAll(w, r, Cite(w, "\n\n", p.cited)))
                == Finish(ShowAll(w, r, out.front + Cite(w, out.bare, out.cited)))
  {
    hide Lex, ShowAll, Finish, Brackets, Tidy, Ahead;
    TwoNewLines(d);
    var two := [Plain('\n'), Plain('\n')];
    assert two[2..] == [] && two[1..] == [Plain('\n')];
    var block := Cite(w, "", p.cited);
    assert Write(w, p.cited, "", two) == Written(block + "\n\n" + "", "", []);
    assert block + "\n\n" + "" + Cite(w, "", []) == block + "\n\n";
    AheadIsNeat(r, p, k);
    BreakAdds(w, r, block);
    if p.cited == [] {
      assert block + "\n\n" == "\n\n";
    } else {
      assert RStrip(w, "\n\n") == "" by { assert "\n\n"[..1] == "\n" && "\n"[..0] == ""; }
    }
  }

  lemma BreakAdds(w: SpaceClass, r: Shown, block: string)
    requires Neat(r)
    ensures Finish(ShowAll(w, r, block + "\n\n")) == Finish(ShowAll(w, r, block))
  {
    hide Show;
    ShowNeat(w, r, block);
    ShowAcross(w, r, block, "\n\n");
    BreakShown(w, ShowAll(w, r, block), "");
    assert "\n\n" + "" == "\n\n";
  }

  lemma StreamNext(d: DigitClass, w: SpaceClass, cited: seq<string>, held: string, pieces: seq<string>)
    requires pieces != []
    ensures var text := held + pieces[0];
            var out := CiteEnded(d, w, cited, Paragraphs(text[..CutAt(d, text)]));
            StreamFrom(d, w, Progress(cited, held), pieces)
            == out.0 + StreamFrom(d, w, Progress(out.1, text[CutAt(d, text)..]), pieces[1..])
  {
    hide CiteEnded, Paragraphs, CutAt, Cite;
    var text := held + pieces[0];
    var out := CiteEnded(d, w, cited, Paragraphs(text[..CutAt(d, text)]));
    var rest := Run(Citing(d, w), Progress(out.1, text[CutAt(d, text)..]), pieces[1..]);
    Associate(out.0, rest.0, Cite(w, rest.1.held, rest.1.cited));
  }

  lemma StreamEnds(d: DigitClass, w: SpaceClass, cited: seq<string>, held: string)
    ensures StreamFrom(d, w, Progress(cited, held), []) == Cite(w, held, cited)
  {
    assert "" + Cite(w, held, cited) == Cite(w, held, cited);
  }

  /** A run over pieces, as a reader sees it, against the page: one paragraph more for each that is torn. */
  lemma {:induction false} RunShown(d: DigitClass, w: SpaceClass, r: Shown, p: Page, held: string, pieces: seq<string>,
                                    k: nat)
    requires Tidy(p) && Ahead(r, p, k) && Unfinished(d, held)
    ensures More(Finish(ShowAll(w, r, StreamFrom(d, w, Progress(p.cited, held), pieces))),
                 Close(w, PageOf(w, p, Lex(d, held + Concat(pieces)))).done, k + Tears(d, w, p, held, pieces))
    decreases |pieces|
  {
    hide Lex, Ahead, More, Finish, ShowAll, Close, PageOf, TornBy, StreamFrom, Cite, CutAt, Tidy, CiteEnded, Paragraphs,
         Unfinished, Tears, Concat;
    TearsNext(d, w, p, held, pieces);
    TextNext(held, pieces);
    if pieces == [] {
      StreamEnds(d, w, p.cited, held);
      TailShown(d, w, r, p, held, k);
    } else {
      var text := held + pieces[0];
      var done, left := text[..CutAt(d, text)], text[CutAt(d, text)..];
      StepShown(d, w, r, p, done, k);
      var out := CiteEnded(d, w, p.cited, Paragraphs(done));
      var page := PageOf(w, p, Lex(d, done));
      var torn := TornBy(w, p, true, p.cited, Lex(d, done), false);
      LeftIsUnfinished(d, text);
      RunShown(d, w, ShowAll(w, r, out.0), page, left, pieces[1..], k + torn);
      StreamNext(d, w, p.cited, held, pieces);
      ShowAcross(w, r, out.0, StreamFrom(d, w, Progress(page.cited, left), pieces[1..]));
      PageOfRest(d, w, p, text, Concat(pieces[1..]));
    }
  }

  lemma TearsNext(d: DigitClass, w: SpaceClass, p: Page, held: string, pieces: seq<string>)
    ensures pieces == [] ==> Tears(d, w, p, held, pieces) == TornBy(w, p, true, p.cited, Lex(d, held), true)
    ensures pieces != [] ==>
              var text := held + pieces[0];
              var done := Lex(d, text[..CutAt(d, text)]);
              Tears(d, w, p, held, pieces) == TornBy(w, p, true, p.cited, done, false)
                                              + Tears(d, w, PageOf(w, p, done), text[CutAt(d, text)..], pieces[1..])
  {
    hide Lex, TornBy, PageOf, CutAt;
  }

  lemma TextNext(held: string, pieces: seq<string>)
    ensures pieces == [] ==> held + Concat(pieces) == held
    ensures pieces != [] ==> held + Concat(pieces) == (held + pieces[0]) + Concat(pieces[1..])
  {
    if pieces != [] {
      Associate(held, pieces[0], Concat(pieces[1..]));
    }
  }

  lemma PageOfRest(d: DigitClass, w: SpaceClass, p: Page, text: string, more: string)
    ensures var done, left := text[..CutAt(d, text)], text[CutAt(d, text)..];
            PageOf(w, p, Lex(d, text + more)) == PageOf(w, PageOf(w, p, Lex(d, done)), Lex(d, left + more))
  {
    hide Lex, PageOf, CutAt, BreakKept;
    var done, left := text[..CutAt(d, text)], text[CutAt(d, text)..];
    CutKeepsBreak(d, text, more);
    PageAcross(w, p, Lex(d, done), Lex(d, left + more));
  }

  lemma LeftIsUnfinished(d: DigitClass, text: string)
    ensures Unfinished(d, text[CutAt(d, text)..])
  {}

  lemma StepShown(d: DigitClass, w: SpaceClass, r: Shown, p: Page, done: string, k: nat)
    requires Tidy(p) && Ahead(r, p, k)
    ensures var out := CiteEnded(d, w, p.cited, Paragraphs(done));
            var page := PageOf(w, p, Lex(d, done));
            && Tidy(page) && page.cited == out.1
            && Ahead(ShowAll(w, r, out.0), page, k + TornBy(w, p, true, p.cited, Lex(d, done), false))
  {
    hide Lex, Ahead, More, Finish, ShowAll, Close, PageOf, TornBy, Write, Cite, CiteEnded, Paragraphs, Brackets, Lacks;
    LexInline(d, done);
    WriteShown(w, r, p, "", p.cited, Lex(d, done), k);
    assert PutAll(w, p, "").(cited := p.cited) == p;
    CiteEndedWrites(d, w, p.cited, done);
  }

  // ---------------------------------------------------------------- where a cut tears

  /** The paragraph shown ends in a break after its last words, nothing but white space and markers is left of it, and
      it cites something. */
  predicate TornFrom(w: SpaceClass, p: Page, rest: seq<Token>) { TornBy(w, p, true, p.cited, rest, true) == 1 }

  lemma {:induction false} TornOnce(w: SpaceClass, p: Page, blank: bool, cited: seq<string>, toks: seq<Token>,
                                    end: bool)
    ensures TornBy(w, p, blank, cited, toks, end) <= 1
    decreases |toks|
  {
    if toks != [] {
      if toks[0].Mark? {
        TornOnce(w, p, blank, SeenAfter(cited, [toks[0].id]), toks[1..], end);
      } else if !BreakIn(toks) {
        TornOnce(w, p, blank && w(toks[0].c), cited, toks[1..], end);
      }
    }
  }

  /** A tear shows in the stretch that ends the paragraph, or from where that stretch ends. */
  lemma {:induction false} TornAcross(w: SpaceClass, p: Page, x: seq<Token>, y: seq<Token>)
    requires p.gap.Parted? && p.cur != "" && BreakKept(x, y)
    ensures TornBy(w, p, true, p.cited, x, false) == 1 ==> TornFrom(w, p, x + y)
    ensures TornFrom(w, p, x + y) ==> TornBy(w, p, true, p.cited, x, false) == 1 || TornFrom(w, PageOf(w, p, x), y)
    decreases |x|
  {
    hide SeenAfter;
    if x == [] {
      assert x + y == y;
    } else if x[0].Mark? {
      assert (x + y)[1..] == x[1..] + y;
      var q := p.(cited := SeenAfter(p.cited, [x[0].id]));
      TornAcross(w, q, x[1..], y);
      SameTear(w, p, q, true, q.cited, x[1..], false);
      SameTear(w, p, q, true, q.cited, x[1..] + y, true);
    } else if BreakIn(x) {
      BreakIsTwo(x);
      assert (x + y)[1..] == x[1..] + y;
    } else if Apart(x, y) || |x| > 1 {
      assert (x + y)[1..] == x[1..] + y;
      NoBreakYet(x, y);
      if w(x[0].c) {
        TornAcross(w, p, x[1..], y);
      } else {
        NotTorn(w, p, false, p.cited, x[1..] + y, true);
        NotTorn(w, p, false, p.cited, x[1..], false);
      }
    } else {
      assert (x + y)[1..] == y && x[1..] == [];
    }
  }

  lemma {:induction false} SameTear(w: SpaceClass, p: Page, q: Page, blank: bool, cited: seq<string>, toks: seq<Token>,
                                    end: bool)
    requires p.gap == q.gap
    ensures TornBy(w, p, blank, cited, toks, end) == TornBy(w, q, blank, cited, toks, end)
    decreases |toks|
  {
    hide SeenAfter;
    if toks != [] {
      if toks[0].Mark? {
        SameTear(w, p, q, blank, SeenAfter(cited, [toks[0].id]), toks[1..], end);
      } else if !BreakIn(toks) {
        SameTear(w, p, q, blank && w(toks[0].c), cited, toks[1..], end);
      }
    }
  }

  /** What has been shown after the pieces, and what is held. */
  function After(d: DigitClass, w: SpaceClass, p: Page, held: string, pieces: seq<string>): (Page, string)
    decreases |pieces|
  {
    if pieces == [] then (p, held)
    else
      var text := held + pieces[0];
      After(d, w, PageOf(w, p, Lex(d, text[..CutAt(d, text)])), text[CutAt(d, text)..], pieces[1..])
  }

  /** Where the first `i` pieces end, a paragraph is torn from what it cites. */
  predicate TornAfter(d: DigitClass, w: SpaceClass, p: Page, held: string, pieces: seq<string>, i: nat)
    requires i <= |pieces|
  {
    var (page, left) := After(d, w, p, held, pieces[..i]);
    TornFrom(w, page, Lex(d, left + Concat(pieces[i..])))
  }

  lemma TornNext(d: DigitClass, w: SpaceClass, p: Page, held: string, pieces: seq<string>, i: nat)
    requires 0 < i <= |pieces|
    ensures var text := held + pieces[0];
            var page, left := PageOf(w, p, Lex(d, text[..CutAt(d, text)])), text[CutAt(d, text)..];
            TornAfter(d, w, p, held, pieces, i) == TornAfter(d, w, page, left, pieces[1..], i - 1)
  {
    hide PageOf, Lex, CutAt, TornFrom;
    assert pieces[..i][1..] == pieces[1..][..i - 1] && pieces[..i][0] == pieces[0];
    assert pieces[i..] == pieces[1..][i - 1..];
  }

  lemma TornFirst(d: DigitClass, w: SpaceClass, p: Page, held: string, pieces: seq<string>)
    ensures TornAfter(d, w, p, held, pieces, 0) == TornFrom(w, p, Lex(d, held + Concat(pieces)))
  {
    assert pieces[..0] == [] && pieces[0..] == pieces;
  }

  lemma {:induction false} PageTidy(w: SpaceClass, p: Page, toks: seq<Token>)
    requires p.cur == "" ==> p.gap.NoGap?
    ensures PageOf(w, p, toks).cur == "" ==> PageOf(w, p, toks).gap.NoGap?
    decreases |toks|
  {
    hide SeenAfter, Brackets, Solid;
    if toks != [] {
      if toks[0].Mark? {
        PageTidy(w, p.(cited := SeenAfter(p.cited, [toks[0].id])), toks[1..]);
      } else if BreakIn(toks) {
        PageTidy(w, Close(w, p), toks[2..]);
      } else {
        PageTidy(w, Put(w, p, toks[0].c), toks[1..]);
      }
    }
  }

  /** A run tears a paragraph exactly where one is torn after some of its pieces. */
  lemma {:induction false} TearsExactly(d: DigitClass, w: SpaceClass, p: Page, held: string, pieces: seq<string>)
    requires p.cur == "" ==> p.gap.NoGap?
    ensures Tears(d, w, p, held, pieces) == 0 <==> forall i | 0 <= i <= |pieces| :: !TornAfter(d, w, p, held, pieces, i)
    decreases |pieces|
  {
    hide PageOf, Lex, CutAt, TornBy, TornAfter, BreakKept, Tears, Concat, TornFrom;
    TornFirst(d, w, p, held, pieces);
    TearsNext(d, w, p, held, pieces);
    TextNext(held, pieces);
    if pieces == [] {
      TornAtEnd(w, p, Lex(d, held));
    } else {
      var text, more := held + pieces[0], Concat(pieces[1..]);
      var done, left := text[..CutAt(d, text)], text[CutAt(d, text)..];
      var page := PageOf(w, p, Lex(d, done));
      PageTidy(w, p, Lex(d, done));
      TearsExactly(d, w, page, left, pieces[1..]);
      CutKeepsBreak(d, text, more);
      TornFirst(d, w, page, left, pieces[1..]);
      TornOnce(w, p, true, p.cited, Lex(d, done), false);
      TornStep(w, p, Lex(d, done), Lex(d, left + more));
      ShiftAll(d, w, p, held, pieces, page, left);
    }
  }

  lemma TornAtEnd(w: SpaceClass, p: Page, toks: seq<Token>)
    ensures TornBy(w, p, true, p.cited, toks, true) == 0 <==> !TornFrom(w, p, toks)
  {
    TornOnce(w, p, true, p.cited, toks, true);
  }

  lemma TornStep(w: SpaceClass, p: Page, x: seq<Token>, y: seq<Token>)
    requires (p.cur == "" ==> p.gap.NoGap?) && BreakKept(x, y)
    ensures TornBy(w, p, true, p.cited, x, false) == 1 ==> TornFrom(w, p, x + y)
    ensures TornFrom(w, p, x + y) ==> TornBy(w, p, true, p.cited, x, false) == 1 || TornFrom(w, PageOf(w, p, x), y)
  {
    if p.gap.Parted? {
      TornAcross(w, p, x, y);
    } else {
      NotTorn(w, p, true, p.cited, x, false);
      NotTorn(w, p, true, p.cited, x + y, true);
    }
  }

  lemma ShiftAll(d: DigitClass, w: SpaceClass, p: Page, held: string, pieces: seq<string>, page: Page, left: string)
    requires pieces != []
    requires var text := held + pieces[0];
             page == PageOf(w, p, Lex(d, text[..CutAt(d, text)])) && left == text[CutAt(d, text)..]
    ensures (forall i | 0 < i <= |pieces| :: !TornAfter(d, w, p, held, pieces, i))
       <==> forall i | 0 <= i <= |pieces[1..]| :: !TornAfter(d, w, page, left, pieces[1..], i)
  {
    hide TornAfter, PageOf, Lex, CutAt;
    forall i | 0 < i <= |pieces|
      ensures TornAfter(d, w, p, held, pieces, i) == TornAfter(d, w, page, left, pieces[1..], i - 1)
    {
      TornNext(d, w, p, held, pieces, i);
    }
    ShiftOne(d, w, p, held, pieces, page, left);
  }

  lemma ShiftOne(d: DigitClass, w: SpaceClass, p: Page, held: string, pieces: seq<string>, page: Page, left: string)
    requires pieces != []
    requires forall i | 0 < i <= |pieces| ::
               TornAfter(d, w, p, held, pieces, i) == TornAfter(d, w, page, left, pieces[1..], i - 1)
    ensures (forall i | 0 < i <= |pieces| :: !TornAfter(d, w, p, held, pieces, i))
       <==> forall i | 0 <= i <= |pieces[1..]| :: !TornAfter(d, w, page, left, pieces[1..], i)
  {
    hide TornAfter;
    forall i | 0 <= i <= |pieces[1..]|
      ensures TornAfter(d, w, page, left, pieces[1..], i) == TornAfter(d, w, p, held, pieces, i + 1)
    {}
  }

  /** However the answer is cut into pieces, a reader sees the paragraphs of the whole text, each up to white space,
      exactly when no piece ends where a paragraph is torn from what it cites. */
  lemma EveryCutKeepsBreaks(d: DigitClass, w: SpaceClass, pieces: seq<string>)
    ensures Shape(w, CitedStream(d, w, pieces)) == Shape(w, WholeText(d, w, Concat(pieces)))
       <==> forall i | 0 <= i <= |pieces| :: !TornAfter(d, w, EMPTY, "", pieces, i)
    // Each tear is one paragraph too many, and there is no other difference.
    ensures |Shape(w, CitedStream(d, w, pieces))|
         == |Shape(w, WholeText(d, w, Concat(pieces)))| + Tears(d, w, EMPTY, "", pieces)
  {
    hide Shape, ShowAll, Finish, Close, PageOf, Lex, Tears, TornAfter, WholeText, StreamFrom, Tidy, Ahead;
    AtStart(w);
    RunShown(d, w, BLANK, EMPTY, "", pieces, 0);
    assert "" + Concat(pieces) == Concat(pieces);
    ShapeIsShown(w, CitedStream(d, w, pieces));
    WholeShown(d, w, Concat(pieces));
    TearsExactly(d, w, EMPTY, "", pieces);
  }

  // ---------------------------------------------------------------- two answers that are not cited to the letter

  lemma CutIs(d: DigitClass, s: string, n: nat)
    requires n <= |s| && (forall i | 0 <= i < n :: !MaybeMoreAt(d, s[i..])) && (n < |s| ==> MaybeMoreAt(d, s[n..]))
    ensures CutAt(d, s) == n
  {
    hide MaybeMoreAt;
    var cut := CutAt(d, s);
    assert !(n < cut) && !(cut < n);
  }

  /** Where nothing can be held: not a space, not an open marker, not a newline near the end. */
  lemma NothingHeldAt(d: DigitClass, s: string)
    requires s != "" && s[0] != ' '
    requires s[0] == '\n' ==> !AtDollar(s[1..])
    requires s[0] == '[' ==> |s| > 2 && d(s[1]) && s[2] == ']'
    ensures !MaybeMoreAt(d, s)
  {
    if s[0] == '[' {
      DigitRunIs(d, s[1..], 1);
      assert s[1 + 1..][0] == ']';
    }
  }

  lemma LexMark(d: DigitClass, c: char, rest: string)
    requires d(c)
    ensures Lex(d, "[" + [c] + "]" + rest) == [Mark([c])] + Lex(d, rest)
  {
    var s := "[" + [c] + "]" + rest;
    DigitRunIs(d, s[1..], 1);
    assert s[0..] == s && s[1..][0] == c && s[1..][1] == ']';
    assert MarkerLen(d, s) == 3;
    assert s[1..2] == [c] && s[3..] == rest;
  }

  lemma LexPlain(d: DigitClass, c: char, rest: string)
    requires c != ' ' && c != '['
    ensures Lex(d, [c] + rest) == [Plain(c)] + Lex(d, rest)
  {
    var s := [c] + rest;
    NoMarkerHead(d, s);
    assert s[0..] == s && s[1..] == rest;
  }

  /** A break held at the end of an answer that cites something does not go out. */
  lemma HeldBreakIsDropped(d: DigitClass, w: SpaceClass)
    requires !w('a')
    ensures CitedStream(d, w, ["a[1]\n\n"]) == "a [1]" && WholeText(d, w, "a[1]\n\n") == "a [1]\n\n"
  {
    hide *;
    FirstStreamed(d, w);
    FirstWhole(d, w);
  }

  lemma FirstStreamed(d: DigitClass, w: SpaceClass)
    requires !w('a')
    ensures CitedStream(d, w, ["a[1]\n\n"]) == "a [1]"
  {
    hide CutAt, Lex, Write, Cite, CitedStream, Run;
    var text := "a[1]\n\n";
    CutOfFirst(d);
    assert text[..4] == "a[1]" && text[4..] == "\n\n";
    OneStep(d, w, text);
    FirstLexed(d);
    FirstWritten(w);
    StreamIs(d, w, [text]);
    assert "" + "a" + " [1]" == "a [1]";
  }

  lemma FirstWhole(d: DigitClass, w: SpaceClass)
    requires !w('a')
    ensures WholeText(d, w, "a[1]\n\n") == "a [1]\n\n"
  {
    hide Lex, Write, Cite, WholeText;
    WholeWrites(d, w, "a[1]\n\n");
    FirstLexed(d);
    FirstWritten(w);
  }

  lemma CutOfFirst(d: DigitClass)
    ensures CutAt(d, "a[1]\n\n") == 4
  {
    hide MaybeMoreAt;
    var text := "a[1]\n\n";
    forall i | 0 <= i < 4
      ensures !MaybeMoreAt(d, text[i..])
    {
      assert i == 1 ==> text[1..][1] == '1' && text[1..][2] == ']';
      NothingHeldAt(d, text[i..]);
    }
    assert text[4..] == "\n\n";
    TwoHeld(d);
    CutIs(d, text, 4);
  }

  lemma TwoHeld(d: DigitClass)
    ensures MaybeMoreAt(d, "\n\n")
  {
    assert "\n\n"[1..] == "\n";
  }

  lemma FirstLexed(d: DigitClass)
    ensures Lex(d, "a[1]") == [Plain('a'), Mark("1")]
    ensures Lex(d, "a[1]\n\n") == [Plain('a'), Mark("1"), Plain('\n'), Plain('\n')]
  {
    hide Lex;
    assert "a[1]" == ['a'] + ("[" + ['1'] + "]" + "") && "a[1]\n\n" == ['a'] + ("[" + ['1'] + "]" + "\n\n");
    LexPlain(d, 'a', "[" + ['1'] + "]" + "");
    LexPlain(d, 'a', "[" + ['1'] + "]" + "\n\n");
    LexMark(d, '1', "");
    LexMark(d, '1', "\n\n");
    TwoNewLines(d);
    LexNotEmpty(d, "");
  }

  lemma FirstWritten(w: SpaceClass)
    requires !w('a')
    ensures Write(w, [], "", [Plain('a'), Mark("1")]) == Written("", "a", ["1"])
    ensures Write(w, [], "", [Plain('a'), Mark("1"), Plain('\n'), Plain('\n')]) == Written("a [1]\n\n", "", [])
    ensures Cite(w, "\n\n", ["1"]) == " [1]" && Cite(w, "", []) == ""
  {
    var mark, end := [Mark("1")], [Plain('\n'), Plain('\n')];
    assert SeenAfter([], ["1"]) == ["1"] by { assert ["1"][1..] == []; }
    assert Brackets(["1"]) == "[1]" by { assert ["1"][1..] == []; }
    assert RStrip(w, "\n\n") == "" by { assert "\n\n"[..1] == "\n" && "\n"[..0] == ""; }
    assert Cite(w, "a", ["1"]) == "a [1]";
    assert end[2..] == [] && Write(w, ["1"], "a", end) == Written("a [1]" + "\n\n" + "", "", []);
    assert (mark + end)[1..] == end && Write(w, [], "a", mark + end) == Write(w, ["1"], "a", end);
    assert mark[1..] == [] && Write(w, [], "a", mark) == Written("", "a", ["1"]);
    var all := [Plain('a'), Mark("1"), Plain('\n'), Plain('\n')];
    assert all[1..] == mark + end && [Plain('a'), Mark("1")][1..] == mark;
    assert "" + ['a'] == "a";
  }

  const TORN := "x\n[1]\n[2]"

  lemma CutOfTorn(d: DigitClass)
    ensures CutAt(d, TORN) == |TORN|
  {
    hide MaybeMoreAt;
    forall i | 0 <= i < |TORN|
      ensures !MaybeMoreAt(d, TORN[i..])
    {
      assert i == 2 ==> TORN[2..][1] == '1' && TORN[2..][2] == ']';
      assert i == 6 ==> TORN[6..][1] == '2' && TORN[6..][2] == ']';
      assert i == 1 ==> |TORN[1..][1..]| > 1;
      assert i == 5 ==> |TORN[5..][1..]| > 1;
      NothingHeldAt(d, TORN[i..]);
    }
    CutIs(d, TORN, |TORN|);
  }

  lemma CutOfRest(d: DigitClass, text: string)
    requires text == "\n\ny" || text == TORN + "\n\ny"
    ensures CutAt(d, text) == |text|
  {
    hide MaybeMoreAt;
    forall i | 0 <= i < |text|
      ensures !MaybeMoreAt(d, text[i..])
    {
      assert text[i..] != "" && text[i..][0] == text[i];
      assert text[i] == '[' ==> |text[i..]| > 2 && d(text[i..][1]) && text[i..][2] == ']';
      assert text[i] == '\n' ==> |text[i..][1..]| > 0 && text[i..][1..] != "\n" by {
        assert text[i] == '\n' ==> text[i..][1..][|text[i..][1..]| - 1] == 'y';
      }
      NothingHeldAt(d, text[i..]);
    }
    CutIs(d, text, |text|);
  }

  lemma TornLexed(d: DigitClass, rest: string)
    ensures Lex(d, TORN + rest) == [Plain('x'), Plain('\n'), Mark("1"), Plain('\n'), Mark("2")] + Lex(d, rest)
  {
    hide Lex;
    var last := "[" + ['2'] + "]" + rest;
    var mark := "[" + ['1'] + "]" + (['\n'] + last);
    LexMark(d, '2', rest);
    LexPlain(d, '\n', last);
    LexMark(d, '1', ['\n'] + last);
    LexPlain(d, '\n', mark);
    LexPlain(d, 'x', ['\n'] + mark);
    assert TORN + rest == ['x'] + (['\n'] + mark);
  }

  lemma RestLexed(d: DigitClass)
    ensures Lex(d, "\n\ny") == [Plain('\n'), Plain('\n'), Plain('y')]
  {
    hide Lex;
    assert "\n\ny" == ['\n'] + (['\n'] + (['y'] + ""));
    LexPlain(d, 'y', "");
    LexPlain(d, '\n', ['y'] + "");
    LexPlain(d, '\n', ['\n'] + (['y'] + ""));
    LexNotEmpty(d, "");
  }

  lemma TornCited(w: SpaceClass)
    requires !w('x')
    ensures SeenAfter([], ["1"]) == ["1"] && SeenAfter(["1"], ["2"]) == ["1", "2"]
    ensures Cite(w, "x\n\n", ["1", "2"]) == "x [1][2]" && Cite(w, "", ["1", "2"]) == " [1][2]"
  {
    assert ["1"][1..] == [] && ["2"][1..] == [] && ["1", "2"][1..] == ["2"];
    assert Brackets(["2"]) == "[2]" && Brackets(["1", "2"]) == "[1][2]";
    assert "x\n\n"[..2] == "x\n" && "x\n"[..1] == "x";
    assert RStrip(w, "x\n\n") == "x";
  }

  /** After the two markers the paragraph reads "x" and an empty line, with both sources to cite. */
  lemma TornWritten(w: SpaceClass, rest: seq<Token>)
    requires !w('x') && (rest == [] || BreakIn(rest))
    ensures Write(w, [], "", [Plain('x'), Plain('\n'), Mark("1"), Plain('\n'), Mark("2")] + rest)
         == Write(w, ["1", "2"], "x\n\n", rest)
  {
    hide Cite, SeenAfter;
    TornCited(w);
    var a := [Mark("2")] + rest;
    var b := [Plain('\n')] + a;
    var c := [Mark("1")] + b;
    var e := [Plain('\n')] + c;
    var all := [Plain('x')] + e;
    assert all == [Plain('x'), Plain('\n'), Mark("1"), Plain('\n'), Mark("2")] + rest;
    assert a[1..] == rest && b[1..] == a && c[1..] == b && e[1..] == c && all[1..] == e;
    assert "" + ['x'] == "x" && "x" + ['\n'] == "x\n" && "x\n" + ['\n'] == "x\n\n";
    assert Write(w, ["1"], "x\n\n", a) == Write(w, ["1", "2"], "x\n\n", rest);
    assert Write(w, ["1"], "x\n", b) == Write(w, ["1"], "x\n\n", a);
    assert Write(w, [], "x\n", c) == Write(w, ["1"], "x\n", b);
    assert Write(w, [], "x", e) == Write(w, [], "x\n", c);
  }

  lemma RestWritten(w: SpaceClass, cited: seq<string>, bare: string)
    ensures var r := Write(w, cited, bare, [Plain('\n'), Plain('\n'), Plain('y')]);
            r == Written(Cite(w, bare, cited) + "\n\n", "y", [])
  {
    hide Cite;
    var toks := [Plain('\n'), Plain('\n'), Plain('y')];
    assert toks[2..] == [Plain('y')] && [Plain('y')][1..] == [] && "" + ['y'] == "y";
    assert Write(w, [], "", toks[2..]) == Written("", "y", []);
    assert Cite(w, bare, cited) + "\n\n" + "" == Cite(w, bare, cited) + "\n\n";
  }

  /** The same answer, whole and cut after its second marker: the cut one shows its sources as a paragraph of their
      own. */
  lemma ParagraphsDependOnTheCut(d: DigitClass, w: SpaceClass)
    requires !w('x')
    ensures CitedStream(d, w, [TORN + "\n\ny"]) == WholeText(d, w, TORN + "\n\ny") == "x [1][2]\n\ny"
    ensures CitedStream(d, w, [TORN, "\n\ny"]) == "x\n\n [1][2]\n\ny"
  {
    hide *;
    TornUncut(d, w);
    TornCut(d, w);
  }

  lemma TornUncut(d: DigitClass, w: SpaceClass)
    requires !w('x')
    ensures CitedStream(d, w, [TORN + "\n\ny"]) == WholeText(d, w, TORN + "\n\ny") == "x [1][2]\n\ny"
  {
    hide CutAt, Lex, Write, Cite, CitedStream, Run, WholeText, SeenAfter;
    var text := TORN + "\n\ny";
    CutOfRest(d, text);
    assert text[..|text|] == text && text[|text|..] == "";
    TornLexed(d, "\n\ny");
    RestLexed(d);
    TornWritten(w, Lex(d, "\n\ny"));
    RestWritten(w, ["1", "2"], "x\n\n");
    TornCited(w);
    NoneCited(w);
    OneStep(d, w, text);
    StreamIs(d, w, [text]);
    WholeWrites(d, w, text);
    assert "x [1][2]" + "\n\n" + "y" + "" == "x [1][2]\n\ny" == "x [1][2]" + "\n\n" + "y";
  }

  lemma EndWritten(w: SpaceClass, cited: seq<string>, bare: string)
    ensures Write(w, cited, bare, []) == Written("", bare, cited)
  {}

  lemma NoneCited(w: SpaceClass)
    ensures Cite(w, "", []) == "" && Cite(w, "y", []) == "y"
  {}

  lemma TornCut(d: DigitClass, w: SpaceClass)
    requires !w('x')
    ensures CitedStream(d, w, [TORN, "\n\ny"]) == "x\n\n [1][2]\n\ny"
  {
    hide CutAt, Lex, Write, Cite, StreamFrom, SeenAfter, CiteEnded, Paragraphs;
    var pieces := [TORN, "\n\ny"];
    assert pieces[1..] == ["\n\ny"] && pieces[1..][1..] == [];
    StreamNext(d, w, [], "", pieces);
    CutOfTorn(d);
    assert "" + TORN == TORN && TORN[..|TORN|] == TORN && TORN[|TORN|..] == "";
    CiteEndedWrites(d, w, [], TORN);
    TornLexed(d, "");
    LexNotEmpty(d, "");
    assert TORN + "" == TORN;
    TornWritten(w, []);
    EndWritten(w, ["1", "2"], "x\n\n");
    SecondPiece(d, w, pieces[1..]);
    assert "" + "x\n\n" + " [1][2]\n\ny" == "x\n\n [1][2]\n\ny";
  }

  lemma SecondPiece(d: DigitClass, w: SpaceClass, pieces: seq<string>)
    requires !w('x') && pieces == ["\n\ny"]
    ensures StreamFrom(d, w, Progress(["1", "2"], ""), pieces) == " [1][2]\n\ny"
  {
    hide CutAt, Lex, Write, Cite, StreamFrom, SeenAfter, CiteEnded, Paragraphs;
    var text := "\n\ny";
    assert "" + text == text && pieces[1..] == [];
    StreamNext(d, w, ["1", "2"], "", pieces);
    CutOfRest(d, text);
    assert text[..|text|] == text && text[|text|..] == "";
    CiteEndedWrites(d, w, ["1", "2"], text);
    RestLexed(d);
    RestWritten(w, ["1", "2"], "");
    TornCited(w);
    StreamEnds(d, w, [], "");
    NoneCited(w);
    assert " [1][2]" + "\n\n" + "y" + "" == " [1][2]\n\ny";
  }
}
