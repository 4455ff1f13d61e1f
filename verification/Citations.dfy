/** A streamed answer's citations, renumbered from 1 in first-cited order; unknown ones dropped. */
module Citations {
  import opened Text
  import opened Markers

  /** Where `_PART_MARKER.search` cuts a text: at its first open marker, else at the end. */
  function CutAt(d: DigitClass, s: string): (n: nat)
    ensures n <= |s|
    ensures n < |s| ==> OpenMarkerAt(d, s[n..])
    ensures forall i | 0 <= i < n :: !OpenMarkerAt(d, s[i..])
  {
    if s == "" || OpenMarkerAt(d, s) then 0
    else
      var n := CutAt(d, s[1..]);
      assert forall i | 0 < i < n + 1 :: s[i..] == s[1..][i - 1..];
      n + 1
  }

  lemma CutLeavesNothingOpen(d: DigitClass, s: string)
    requires CutAt(d, s) == |s|
    ensures NothingOpen(d, s)
  {
    forall i | 0 <= i < |s| && s[i] == '['
      ensures DigitRun(d, s[i + 1..]) < |s| - i - 1
    {
      assert !OpenMarkerAt(d, s[i..]);
      assert s[i..][1..] == s[i + 1..];
    }
  }

  // ---------------------------------------------------------------- numbering

  /** `CitationNumbers.cited`: a composer's source id and the number it goes out under. */
  type Cited = seq<(string, string)>

  /** The position of `id` among the cited, or how many there are when it is new. */
  function PositionOf(cited: Cited, id: string): (p: nat)
    ensures p <= |cited|
    ensures p < |cited| ==> cited[p].0 == id
    ensures forall i | 0 <= i < p :: cited[i].0 != id
  {
    if cited == [] || cited[0].0 == id then 0 else 1 + PositionOf(cited[1..], id)
  }

  /** `cited.setdefault(id, str(len(cited) + 1))` */
  function SetDefault(cited: Cited, id: string): Cited {
    if PositionOf(cited, id) < |cited| then cited else cited + [(id, Decimal(|cited| + 1))]
  }

  function NumberOf(cited: Cited, id: string): string {
    if PositionOf(cited, id) < |cited| then cited[PositionOf(cited, id)].1 else Decimal(|cited| + 1)
  }

  /** `_renumber` for one marker; any other character stands for itself. */
  function Written(known: set<string>, cited: Cited, tok: Token): string {
    match tok
    case Plain(c) => [c]
    case Mark(id) => if id in known then "[" + NumberOf(cited, id) + "]" else ""
  }

  function CitedAfter(known: set<string>, cited: Cited, tok: Token): Cited {
    if tok.Mark? && tok.id in known then SetDefault(cited, tok.id) else cited
  }

  /** The whole substitution, left to right: the new text, and what has been cited by then. */
  function RenumberTokens(known: set<string>, cited: Cited, toks: seq<Token>): (string, Cited)
    decreases |toks|
  {
    if toks == [] then ("", cited)
    else
      var rest := RenumberTokens(known, CitedAfter(known, cited, toks[0]), toks[1..]);
      (Written(known, cited, toks[0]) + rest.0, rest.1)
  }

  /** `_BARE_MARKER.sub(self._renumber, text)` */
  function Renumber(d: DigitClass, known: set<string>, cited: Cited, text: string): (string, Cited) {
    RenumberTokens(known, cited, Tokens(d, text))
  }

  lemma {:induction false} RenumberTokensAcross(known: set<string>, cited: Cited, a: seq<Token>, b: seq<Token>)
    ensures var left := RenumberTokens(known, cited, a);
            var right := RenumberTokens(known, left.1, b);
            RenumberTokens(known, cited, a + b) == (left.0 + right.0, right.1)
    decreases |a|
  {
    if a == [] {
      assert a + b == b;
      assert "" + RenumberTokens(known, cited, b).0 == RenumberTokens(known, cited, b).0;
    } else {
      hide CitedAfter, Written;
      var all := a + b;
      assert all[0] == a[0] && all[1..] == a[1..] + b;
      var next := CitedAfter(known, cited, a[0]);
      RenumberTokensAcross(known, next, a[1..], b);
      var left := RenumberTokens(known, next, a[1..]);
      var right := RenumberTokens(known, left.1, b);
      Associate(Written(known, cited, a[0]), left.0, right.0);
    }
  }

  lemma RenumberAcross(d: DigitClass, known: set<string>, cited: Cited, x: string, y: string)
    requires SafeCut(d, x, y)
    ensures var left := Renumber(d, known, cited, x);
            var right := Renumber(d, known, left.1, y);
            Renumber(d, known, cited, x + y) == (left.0 + right.0, right.1)
  {
    TokensAcross(d, x, y);
    RenumberTokensAcross(known, cited, Tokens(d, x), Tokens(d, y));
  }

  // ---------------------------------------------------------------- the streamed form

  datatype Progress = Progress(cited: Cited, held: string)

  const START := Progress([], "")

  function FeedStep(d: DigitClass, known: set<string>, s: Progress, piece: string): (string, Progress) {
    var text := s.held + piece;
    var cut := CutAt(d, text);
    var r := Renumber(d, known, s.cited, text[..cut]);
    (r.0, Progress(r.1, text[cut..]))
  }

  function FlushStep(d: DigitClass, known: set<string>, s: Progress): (string, Progress) {
    var r := Renumber(d, known, s.cited, s.held);
    (r.0, Progress(r.1, ""))
  }

  function Feeding(d: DigitClass, known: set<string>): (Progress, string) -> (string, Progress) {
    (s: Progress, piece: string) => FeedStep(d, known, s, piece)
  }

  /** The joined results of feeding the pieces one after the other. */
  function FeedAll(d: DigitClass, known: set<string>, s: Progress, pieces: seq<string>): (string, Progress) {
    Run(Feeding(d, known), s, pieces)
  }

  /** `renumber`: feed every piece, then flush. */
  function Streamed(d: DigitClass, known: set<string>, pieces: seq<string>): (string, Progress) {
    var fed := FeedAll(d, known, START, pieces);
    var last := FlushStep(d, known, fed.1);
    (fed.0 + last.0, last.1)
  }

  // ---------------------------------------------------------------- any way of cutting gives the same text

  /** One step cuts the text where nothing before the cut can be completed by what comes after it. */
  lemma CutIsSafe(d: DigitClass, text: string, more: string)
    ensures SafeCut(d, text[..CutAt(d, text)], text[CutAt(d, text)..] + more)
  {
    if CutAt(d, text) == |text| {
      CutLeavesNothingOpen(d, text);
      assert text[..|text|] == text;
    }
  }

  /** All there is left to write when `text` is still to come: what is held and the text, renumbered. */
  function StillToWrite(d: DigitClass, known: set<string>): (Progress, string) -> (string, Cited) {
    (s: Progress, text: string) => Renumber(d, known, s.cited, s.held + text)
  }

  lemma FeedIsRenumber(d: DigitClass, known: set<string>, cited: Cited, text: string, more: string)
    ensures var done, left := text[..CutAt(d, text)], text[CutAt(d, text)..];
            var out := Renumber(d, known, cited, done);
            var rest := Renumber(d, known, out.1, left + more);
            Renumber(d, known, cited, text + more) == (out.0 + rest.0, rest.1)
  {
    hide *;
    var done, left := text[..CutAt(d, text)], text[CutAt(d, text)..];
    CutIsSafe(d, text, more);
    RenumberAcross(d, known, cited, done, left + more);
    assert text + more == done + (left + more);
  }

  lemma FeedAgrees(d: DigitClass, known: set<string>, s: Progress, piece: string, more: string)
    ensures StepAgrees(Feeding(d, known), StillToWrite(d, known), s, piece, more)
  {
    hide Renumber, CutAt;
    FeedIsRenumber(d, known, s.cited, s.held + piece, more);
    assert s.held + (piece + more) == (s.held + piece) + more;
  }

  /** What feeding has written, and what it still holds, are together the text renumbered. */
  lemma FedSoFar(d: DigitClass, known: set<string>, s: Progress, pieces: seq<string>)
    ensures var fed := FeedAll(d, known, s, pieces);
            var held := Renumber(d, known, fed.1.cited, fed.1.held);
            Renumber(d, known, s.cited, s.held + Concat(pieces)) == (fed.0 + held.0, held.1)
  {
    hide Renumber, FeedStep;
    forall s, piece, more
      ensures StepAgrees(Feeding(d, known), StillToWrite(d, known), s, piece, more)
    {
      FeedAgrees(d, known, s, piece, more);
    }
    RunAgrees(Feeding(d, known), StillToWrite(d, known), s, pieces);
    var held := FeedAll(d, known, s, pieces).1.held;
    assert held + "" == held;
  }

  /** However the text is cut into pieces, the joined output and the sources cited are those of the whole text. */
  lemma StreamedIsWhole(d: DigitClass, known: set<string>, pieces: seq<string>)
    ensures var r := Streamed(d, known, pieces);
            (r.0, r.1.cited) == Renumber(d, known, [], Concat(pieces)) && r.1.held == ""
  {
    FedSoFar(d, known, START, pieces);
    assert START.held + Concat(pieces) == Concat(pieces);
  }

  // ---------------------------------------------------------------- the answer worked out again

  /** What follows the composer's prose: the place question as its own paragraph, if there is one. */
  function Trailer(question: Option<string>): string {
    if question.None? then "" else "\n\n" + question.value
  }

  /** A question stands in a paragraph of its own. */
  lemma QuestionStandsApart(question: string)
    ensures Trailer(Some(question)) == "\n" + ("\n" + question) && Trailer(None) == ""
  {}

  /** `_write_answer`: the pieces renumbered and flushed, then the question fed but never flushed. */
  function WrittenAnswer(d: DigitClass, known: set<string>, pieces: seq<string>, question: Option<string>)
    : (string, Progress)
  {
    var answer := Streamed(d, known, pieces);
    if question.None? then answer
    else
      var asked := FeedStep(d, known, answer.1, Trailer(question));
      (answer.0 + asked.0, asked.1)
  }

  lemma {:induction false} PlainIsKept(known: set<string>, cited: Cited, s: string)
    ensures RenumberTokens(known, cited, Plains(s)) == (s, cited)
  {
    if s != "" {
      assert Plains(s)[1..] == Plains(s[1..]);
      PlainIsKept(known, cited, s[1..]);
      assert s == [s[0]] + s[1..];
    }
  }

  /** An open marker is text: it holds no marker to renumber. */
  lemma OpenMarkerIsKept(d: DigitClass, known: set<string>, cited: Cited, s: string)
    requires OpenMarkerAt(d, s)
    ensures Renumber(d, known, cited, s) == (s, cited)
  {
    OpenMarkerIsPlain(d, s);
    NoMarkerTokens(d, s);
    PlainIsKept(known, cited, s);
  }

  /** What feeding gives back and what it holds, together, are the text renumbered. */
  lemma FedAndHeld(d: DigitClass, known: set<string>, cited: Cited, text: string)
    ensures var r := FeedStep(d, known, Progress(cited, ""), text);
            (r.0 + r.1.held, r.1.cited) == Renumber(d, known, cited, text)
  {
    var cut := CutAt(d, text);
    assert "" + text == text == text[..cut] + text[cut..];
    RenumberAcross(d, known, cited, text[..cut], text[cut..]);
    if cut < |text| {
      OpenMarkerIsKept(d, known, Renumber(d, known, cited, text[..cut]).1, text[cut..]);
    }
  }

  /** The answer the farmer was streamed against the one `answer_from_evidence` works out again from
      everything composed: the same sources in the same order, and the same text apart from what the
      unflushed question still holds. So the two texts agree exactly when the question leaves no marker open. */
  lemma RecomputedAnswer(d: DigitClass, known: set<string>, pieces: seq<string>, question: Option<string>)
    ensures var written := WrittenAnswer(d, known, pieces, question);
            var composed := Concat(pieces) + Trailer(question);
            var again := Streamed(d, known, [composed]);
            && written.1.cited == again.1.cited
            && written.0 + written.1.held == again.0
            && (written.0 == again.0 <==> CutAt(d, Trailer(question)) == |Trailer(question)|)
  {
    hide Run, Renumber, CutAt, Streamed, Trailer, WrittenAnswer;
    var trailer := Trailer(question);
    var composed := Concat(pieces) + trailer;
    StreamedIsWhole(d, known, [composed]);
    StreamedIsWhole(d, known, pieces);
    assert Concat([composed]) == composed by { ConcatOne(composed); }
    TrailerIsSafe(d, Concat(pieces), question);
    RenumberAcross(d, known, [], Concat(pieces), trailer);
    if question.Some? {
      AskedAnswer(d, known, pieces, question);
    } else {
      UnaskedAnswer(d, known, pieces);
      assert composed == Concat(pieces);
    }
  }

  lemma TrailerIsSafe(d: DigitClass, x: string, question: Option<string>)
    ensures SafeCut(d, x, Trailer(question))
  {}

  lemma AskedAnswer(d: DigitClass, known: set<string>, pieces: seq<string>, question: Option<string>)
    requires question.Some?
    ensures var answer, written := Streamed(d, known, pieces), WrittenAnswer(d, known, pieces, question);
            var asked := Renumber(d, known, answer.1.cited, Trailer(question));
            answer.1.held == "" ==>
              && written.0 + written.1.held == answer.0 + asked.0 && written.1.cited == asked.1
              && written.1.held == Trailer(question)[CutAt(d, Trailer(question))..]
  {
    hide Run, Renumber, CutAt, Streamed, Trailer;
    var answer, trailer := Streamed(d, known, pieces), Trailer(question);
    assert "" + trailer == trailer;
    FedAndHeld(d, known, answer.1.cited, trailer);
    var asked := FeedStep(d, known, answer.1, trailer);
    Associate(answer.0, asked.0, asked.1.held);
  }

  lemma UnaskedAnswer(d: DigitClass, known: set<string>, pieces: seq<string>)
    ensures WrittenAnswer(d, known, pieces, None) == Streamed(d, known, pieces)
    ensures Trailer(None) == "" && CutAt(d, Trailer(None)) == 0
  {}

  /** A question that ends in an open marker is streamed short of it. */
  lemma OpenQuestionIsCutShort(d: DigitClass, known: set<string>, pieces: seq<string>)
    ensures var question := Some("see [");
            WrittenAnswer(d, known, pieces, question).0 != Streamed(d, known, [Concat(pieces) + Trailer(question)]).0
  {
    hide WrittenAnswer, Streamed, CutAt, Concat;
    LastBracketIsOpen(d);
    RecomputedAnswer(d, known, pieces, Some("see ["));
  }

  lemma LastBracketIsOpen(d: DigitClass)
    ensures CutAt(d, Trailer(Some("see ["))) < |Trailer(Some("see ["))|
  {
    var trailer := Trailer(Some("see ["));
    assert trailer == "\n\nsee [" && trailer[6..] == "[" && "["[1..] == "";
    assert OpenMarkerAt(d, trailer[6..]);
  }

  // ---------------------------------------------------------------- the numbers given

  function KnownIds(known: set<string>, toks: seq<Token>): seq<string> {
    if toks == [] then []
    else (if toks[0].Mark? && toks[0].id in known then [toks[0].id] else []) + KnownIds(known, toks[1..])
  }

  /** Sources numbered "1", "2", ... in the order given. */
  function Ranked(order: seq<string>): Cited {
    seq(|order|, i requires 0 <= i < |order| => (order[i], Decimal(i + 1)))
  }

  /** The text with each known marker showing its source's place in `order`, and every other marker gone. */
  function RenderRanked(known: set<string>, order: seq<string>, toks: seq<Token>): string {
    if toks == [] then ""
    else
      (match toks[0]
       case Plain(c) => [c]
       case Mark(id) => if id in known then "[" + Decimal(IndexOf(order, id) + 1) + "]" else "")
      + RenderRanked(known, order, toks[1..])
  }

  lemma RankedStep(order: seq<string>, id: string)
    requires Distinct(order)
    ensures SetDefault(Ranked(order), id) == Ranked(if id in order then order else order + [id])
    ensures NumberOf(Ranked(order), id) == Decimal(IndexOf(order, id) + 1)
  {
    var p := PositionOf(Ranked(order), id);
    if id in order {
      var i :| 0 <= i < |order| && order[i] == id;
      assert Ranked(order)[i].0 == id;
    }
    if p < |order| {
      assert Ranked(order)[p].0 == order[p];
    }
    var q := IndexOf(order, id);
    assert q < |order| ==> Ranked(order)[q].0 == id;
    assert id !in order ==> SetDefault(Ranked(order), id) == Ranked(order + [id]);
  }

  lemma IndexOfPrefix(a: seq<string>, b: seq<string>, id: string)
    requires a <= b && id in a
    ensures IndexOf(b, id) == IndexOf(a, id)
  {
    var i := IndexOf(a, id);
    assert b[i] == a[i] == id;
    var j := IndexOf(b, id);
    assert j < |a| ==> a[j] == b[j];
  }

  lemma {:induction false} RenumberTokensIsRanking(known: set<string>, order: seq<string>, toks: seq<Token>)
    requires Distinct(order)
    ensures var final := SeenAfter(order, KnownIds(known, toks));
            RenumberTokens(known, Ranked(order), toks) == (RenderRanked(known, final, toks), Ranked(final))
    decreases |toks|
  {
    hide Ranked, IndexOf, SetDefault, NumberOf, Decimal;
    if toks != [] {
      var rest := KnownIds(known, toks[1..]);
      if toks[0].Mark? && toks[0].id in known {
        var id := toks[0].id;
        var next := if id in order then order else order + [id];
        RankedStep(order, id);
        RenumberTokensIsRanking(known, next, toks[1..]);
        NextRanked(order, id, rest);
      } else {
        assert KnownIds(known, toks) == [] + rest == rest;
        RenumberTokensIsRanking(known, order, toks[1..]);
      }
    }
  }

  lemma NextRanked(order: seq<string>, id: string, rest: seq<string>)
    requires Distinct(order)
    ensures var next := if id in order then order else order + [id];
            && SeenAfter(order, [id] + rest) == SeenAfter(next, rest)
            && IndexOf(SeenAfter(next, rest), id) == IndexOf(next, id) == IndexOf(order, id)
  {
    var next := if id in order then order else order + [id];
    assert ([id] + rest)[1..] == rest;
    SeenAfterKeeps(next, rest);
    IndexOfPrefix(next, SeenAfter(next, rest), id);
    assert order <= next;
  }

  /** Over a whole text: each known source goes out under its place among the known sources first cited,
      numbers 1 to k with none left out, and a marker naming no source is gone. */
  lemma NumberedByFirstCitation(d: DigitClass, known: set<string>, text: string)
    ensures var order := FirstSeen(KnownIds(known, Tokens(d, text)));
            && Distinct(order)
            && Renumber(d, known, [], text) == (RenderRanked(known, order, Tokens(d, text)), Ranked(order))
  {
    assert Ranked([]) == [];
    RenumberTokensIsRanking(known, [], Tokens(d, text));
    SeenAfterKeeps([], KnownIds(known, Tokens(d, text)));
  }

  // ---------------------------------------------------------------- markers made by dropping others

  /** Whether dropping unknown markers brings "[", digits and "]" together that were apart in the text.
      `open` is how many digits follow the last bracket opened and not closed since, or -1. */
  predicate Fuses(d: DigitClass, known: set<string>, toks: seq<Token>, open: int)
    decreases |toks|
  {
    toks != [] &&
    match toks[0]
    case Mark(id) => Fuses(d, known, toks[1..], if id in known then -1 else open)
    case Plain(c) =>
      if c == '[' then Fuses(d, known, toks[1..], 0)
      else if c == ']' && open > 0 then true
      else Fuses(d, known, toks[1..], if d(c) && open >= 0 then open + 1 else -1)
  }

  /** The numbers the known markers go out under. */
  function Numbers(known: set<string>, order: seq<string>, toks: seq<Token>): seq<string> {
    if toks == [] then []
    else
      (if toks[0].Mark? && toks[0].id in known then [Decimal(IndexOf(order, toks[0].id) + 1)] else [])
      + Numbers(known, order, toks[1..])
  }

  /** "[" and `open` digits, or nothing. */
  ghost predicate Pending(d: DigitClass, pre: string, open: int) {
    open >= -1 &&
    if open < 0 then pre == "" else |pre| == open + 1 && pre[0] == '[' && forall i | 0 < i < |pre| :: d(pre[i])
  }

  /** What a marker scan finds in a text. */
  function IdsIn(d: DigitClass, text: string): seq<string> { MarkedIds(Tokens(d, text)) }

  lemma {:induction false} PlainsHaveNoIds(s: string)
    ensures MarkedIds(Plains(s)) == []
  {
    if s != "" {
      assert Plains(s)[1..] == Plains(s[1..]);
      PlainsHaveNoIds(s[1..]);
    }
  }

  lemma {:induction false} MarkedIdsAcross(a: seq<Token>, b: seq<Token>)
    ensures MarkedIds(a + b) == MarkedIds(a) + MarkedIds(b)
  {
    if a == [] {
      assert a + b == b;
    } else {
      var all := a + b;
      assert all[0] == a[0] && all[1..] == a[1..] + b;
      MarkedIdsAcross(a[1..], b);
    }
  }

  /** Before anything a marker cannot go on with, what is pending comes to nothing. */
  lemma PendingLapses(d: DigitClass, pre: string, open: int, z: string)
    requires Pending(d, pre, open)
    requires z != "" ==> !d(z[0]) && z[0] != ']'
    ensures IdsIn(d, pre + z) == IdsIn(d, z)
  {
    TokensAcross(d, pre, z);
    forall i | 0 <= i < |pre| && pre[i] == '['
      ensures MarkerLen(d, pre[i..]) == 0
    {
      assert i == 0 && pre[0..] == pre;
      DigitRunIs(d, pre[1..], |pre| - 1);
    }
    NoMarkerTokens(d, pre);
    PlainsHaveNoIds(pre);
    MarkedIdsAcross(Plains(pre), Tokens(d, z));
  }

  /** A character that opens nothing, with nothing pending, is passed over. */
  lemma PassedOver(d: DigitClass, c: char, z: string)
    requires c != '['
    ensures IdsIn(d, [c] + z) == IdsIn(d, z)
  {
    assert ([c] + z)[1..] == z;
    assert Tokens(d, [c] + z)[1..] == Tokens(d, z);
  }

  /** Brackets round digits are a marker. */
  lemma BracketsMark(d: DigitClass, ds: string, z: string)
    requires |ds| > 0 && forall i | 0 <= i < |ds| :: d(ds[i])
    ensures IdsIn(d, "[" + ds + "]" + z) == [ds] + IdsIn(d, z)
  {
    var s := "[" + ds + "]" + z;
    assert s[1..] == ds + ("]" + z);
    DigitRunIs(d, ds + ("]" + z), |ds|);
    assert MarkerLen(d, s) == |ds| + 2 && s[1..|ds| + 1] == ds && s[|ds| + 2..] == z;
    assert Tokens(d, s)[1..] == Tokens(d, z);
  }

  lemma EmptyBrackets(d: DigitClass, z: string)
    ensures IdsIn(d, "[]" + z) == IdsIn(d, z)
  {
    var s := "[]" + z;
    assert s[1..] == [']'] + z;
    assert MarkerLen(d, s) == 0;
    assert Tokens(d, s)[1..] == Tokens(d, [']'] + z);
    PassedOver(d, ']', z);
  }

  /** One plain character on: it opens a bracket, adds a digit, closes a marker, or ends what was pending. */
  lemma ReadOn(d: DigitClass, pre: string, open: int, c: char, z: string)
    requires Pending(d, pre, open)
    ensures IdsIn(d, pre + ([c] + z)) ==
            if c == '[' then IdsIn(d, "[" + z)
            else if c == ']' && open > 0 then [pre[1..]] + IdsIn(d, z)
            else if d(c) && open >= 0 then IdsIn(d, (pre + [c]) + z)
            else IdsIn(d, "" + z)
  {
    assert "" + z == z;
    if c == ']' && open > 0 {
      assert pre + ([c] + z) == "[" + pre[1..] + "]" + z;
      BracketsMark(d, pre[1..], z);
    } else if c == ']' && open == 0 {
      assert pre + ([c] + z) == "[]" + z;
      EmptyBrackets(d, z);
    } else if d(c) && open >= 0 {
      assert pre + ([c] + z) == (pre + [c]) + z;
    } else if open >= 0 {
      PendingLapses(d, pre, open, [c] + z);
      if c != '[' { PassedOver(d, c, z); }
    } else {
      assert pre + ([c] + z) == [c] + z;
      if c != '[' { PassedOver(d, c, z); }
    }
  }

  /** A number given: whatever was pending lapses, and the number is read. */
  lemma ReadNumber(d: DigitClass, pre: string, open: int, n: nat, z: string)
    requires Pending(d, pre, open)
    ensures IdsIn(d, pre + ("[" + Decimal(n) + "]" + z)) == [Decimal(n)] + IdsIn(d, "" + z)
  {
    assert "" + z == z;
    PendingLapses(d, pre, open, "[" + Decimal(n) + "]" + z);
    DecimalDigits(d, n);
    BracketsMark(d, Decimal(n), z);
  }

  function NextPending(d: DigitClass, pre: string, open: int, known: set<string>, tok: Token): string {
    match tok
    case Mark(id) => if id in known then "" else pre
    case Plain(c) => if c == '[' then "[" else if d(c) && open >= 0 then pre + [c] else ""
  }

  /** More markers read than given if any was fused, else just those given. */
  ghost predicate Fits(fused: bool, found: seq<string>, given: seq<string>) {
    if fused then |found| > |given| else found == given
  }

  lemma FusedAtPlain(d: DigitClass, known: set<string>, order: seq<string>, c: char, toks: seq<Token>, pre: string,
                     open: int)
    requires Pending(d, pre, open)
    requires var next := NextPending(d, pre, open, known, Plain(c));
             Fits(Fuses(d, known, toks, |next| - 1), IdsIn(d, next + RenderRanked(known, order, toks)),
                  Numbers(known, order, toks))
    ensures var all := [Plain(c)] + toks;
            Fits(Fuses(d, known, all, open), IdsIn(d, pre + RenderRanked(known, order, all)),
                Numbers(known, order, all))
  {
    hide MarkerLen, IdsIn, IndexOf, Decimal;
    var all := [Plain(c)] + toks;
    assert all[1..] == toks;
    var z := RenderRanked(known, order, toks);
    assert "" + z == z;
    ReadOn(d, pre, open, c, z);
    assert RenderRanked(known, order, all) == [c] + z;
    assert Numbers(known, order, all) == [] + Numbers(known, order, toks) == Numbers(known, order, toks);
  }

  lemma FusedAtMark(d: DigitClass, known: set<string>, order: seq<string>, id: string, toks: seq<Token>, pre: string,
                    open: int)
    requires Pending(d, pre, open)
    requires var next := NextPending(d, pre, open, known, Mark(id));
             Fits(Fuses(d, known, toks, |next| - 1), IdsIn(d, next + RenderRanked(known, order, toks)),
                  Numbers(known, order, toks))
    ensures var all := [Mark(id)] + toks;
            Fits(Fuses(d, known, all, open), IdsIn(d, pre + RenderRanked(known, order, all)),
                Numbers(known, order, all))
  {
    hide MarkerLen, IdsIn, IndexOf, Decimal;
    var all := [Mark(id)] + toks;
    assert all[1..] == toks;
    var z := RenderRanked(known, order, toks);
    if id in known {
      ReadNumber(d, pre, open, IndexOf(order, id) + 1, z);
    } else {
      assert RenderRanked(known, order, all) == "" + z == z;
      assert Numbers(known, order, all) == [] + Numbers(known, order, toks) == Numbers(known, order, toks);
    }
  }

  lemma {:induction false} FusedOrNot(d: DigitClass, known: set<string>, order: seq<string>, toks: seq<Token>,
                                      pre: string, open: int)
    requires Pending(d, pre, open)
    ensures Fits(Fuses(d, known, toks, open), IdsIn(d, pre + RenderRanked(known, order, toks)),
                 Numbers(known, order, toks))
    decreases |toks|
  {
    hide MarkerLen, IndexOf, Decimal;
    if toks == [] {
      assert pre + "" == pre;
      PendingLapses(d, pre, open, "");
    } else {
      var next := NextPending(d, pre, open, known, toks[0]);
      FusedOrNot(d, known, order, toks[1..], next, |next| - 1);
      match toks[0] {
        case Plain(c) => FusedAtPlain(d, known, order, c, toks[1..], pre, open);
        case Mark(id) => FusedAtMark(d, known, order, id, toks[1..], pre, open);
      }
      assert [toks[0]] + toks[1..] == toks;
    }
  }

  /** The markers a reader finds in the renumbered text are those the known sources were given, exactly when
      no unknown marker was dropped from between a bracket, its digits and the closing bracket. */
  lemma MarkersReadBack(d: DigitClass, known: set<string>, text: string)
    ensures var toks := Tokens(d, text);
            var order := FirstSeen(KnownIds(known, toks));
            IdsIn(d, Renumber(d, known, [], text).0) == Numbers(known, order, toks)
            <==> !Fuses(d, known, toks, -1)
  {
    var toks := Tokens(d, text);
    var order := FirstSeen(KnownIds(known, toks));
    NumberedByFirstCitation(d, known, text);
    FusedOrNot(d, known, order, toks, "", -1);
    assert "" + RenderRanked(known, order, toks) == RenderRanked(known, order, toks);
  }

  /** It does happen: an answer that cites nothing known can still go out showing a "[1]". */
  lemma DroppingCanMakeAMarker(d: DigitClass)
    ensures Renumber(d, {"1"}, [], "[[9]1]") == ("[1]", [])
  {
    BracketsTokens(d);
    RenumberFour();
  }

  lemma RenumberFour()
    ensures RenumberTokens({"1"}, [], [Plain('['), Mark("9"), Plain('1'), Plain(']')]) == ("[1]", [])
  {
    var known := {"1"};
    assert "9" !in known by {
      assert "9"[0] != "1"[0];
    }
    RenumberCons(known, [], Plain(']'), [], "");
    RenumberCons(known, [], Plain('1'), [Plain(']')] + [], "]" + "");
    RenumberCons(known, [], Mark("9"), [Plain('1')] + ([Plain(']')] + []), "1" + ("]" + ""));
    RenumberCons(known, [], Plain('['), [Mark("9")] + ([Plain('1')] + ([Plain(']')] + [])), "" + ("1" + ("]" + "")));
    assert [Plain('[')] + ([Mark("9")] + ([Plain('1')] + ([Plain(']')] + []))) ==
           [Plain('['), Mark("9"), Plain('1'), Plain(']')];
    assert "[" + ("" + ("1" + ("]" + ""))) == "[1]";
  }

  lemma RenumberCons(known: set<string>, cited: Cited, tok: Token, rest: seq<Token>, text: string)
    requires CitedAfter(known, cited, tok) == cited && RenumberTokens(known, cited, rest) == (text, cited)
    ensures RenumberTokens(known, cited, [tok] + rest) == (Written(known, cited, tok) + text, cited)
  {
    assert ([tok] + rest)[1..] == rest;
  }

  lemma BracketsTokens(d: DigitClass)
    ensures Tokens(d, "[[9]1]") == [Plain('['), Mark("9"), Plain('1'), Plain(']')]
  {
    var s := "[[9]1]";
    assert s[1..] == "[9]1]" && s[1..][1..] == "9]1]" && s[1..][3..] == "1]" && s[1..][3..][1..] == "]";
    assert "]"[1..] == "";
    DigitRunIs(d, "[9]1]", 0);
    DigitRunIs(d, "9]1]", 1);
    assert MarkerLen(d, s) == 0 && MarkerLen(d, "[9]1]") == 3 && "[9]1]"[1..2] == "9";
    assert Tokens(d, "]") == [Plain(']')] + Tokens(d, "");
    assert Tokens(d, "1]") == [Plain('1')] + Tokens(d, "]");
    assert Tokens(d, "[9]1]") == [Mark("9")] + Tokens(d, "1]");
  }

  // ---------------------------------------------------------------- the object

  /** One step of the substitution, behind what is already written. */
  lemma RenumberOn(d: DigitClass, known: set<string>, cited: Cited, rest: string, r: string)
    requires rest != ""
    ensures var tok := Found(d, rest);
            var after := Renumber(d, known, CitedAfter(known, cited, tok), rest[Step(d, rest)..]);
            var all := Renumber(d, known, cited, rest);
            all.1 == after.1 && r + all.0 == (r + Written(known, cited, tok)) + after.0
  {
    assert Tokens(d, rest)[1..] == Tokens(d, rest[Step(d, rest)..]);
  }

  class CitationNumbers {
    const d: DigitClass
    const known: set<string>
    var cited: Cited
    var held: string
    var composed: seq<string>

    ghost function Now(): Progress reads this { Progress(cited, held) }

    constructor (d: DigitClass, known: set<string>)
      ensures this.d == d && this.known == known && Now() == START && composed == []
    {
      this.d, this.known, cited, held, composed := d, known, [], "", [];
    }

    method Feed(piece: string) returns (r: string)
      modifies this
      ensures (r, Now()) == FeedStep(d, known, old(Now()), piece)
      ensures composed == old(composed) + [piece]
    {
      composed := composed + [piece];
      var text := held + piece;
      var cut := CutAt(d, text);
      held := text[cut..];
      r := Substitute(text[..cut]);
    }

    method Flush() returns (r: string)
      modifies this
      ensures (r, Now()) == FlushStep(d, known, old(Now()))
      ensures composed == old(composed)
    {
      var last := held;
      held := "";
      r := Substitute(last);
    }

    /** `_BARE_MARKER.sub(self._renumber, text)`, one match after the other. */
    method Substitute(text: string) returns (r: string)
      modifies `cited
      ensures (r, cited) == Renumber(d, known, old(cited), text)
    {
      r := "";
      var rest := text;
      assert "" + Renumber(d, known, cited, text).0 == Renumber(d, known, cited, text).0;
      while rest != ""
        invariant var after := Renumber(d, known, cited, rest);
                  (r + after.0, after.1) == Renumber(d, known, old(cited), text)
        decreases |rest|
      {
        var tok, k := Found(d, rest), Step(d, rest);
        RenumberOn(d, known, cited, rest, r);
        if tok.Mark? {
          var number := RenumberOne(tok.id);
          r := r + number;
        } else {
          r := r + [tok.c];
        }
        rest := rest[k..];
      }
      assert r + "" == r;
    }

    method RenumberOne(id: string) returns (r: string)
      modifies `cited
      ensures r == Written(known, old(cited), Mark(id)) && cited == CitedAfter(known, old(cited), Mark(id))
    {
      if id !in known {
        return "";
      }
      r := "[" + NumberOf(cited, id) + "]";
      cited := SetDefault(cited, id);
    }

    /** Feed every piece and flush, handing on whatever is not empty. */
    method RenumberPieces(pieces: seq<string>) returns (emitted: seq<string>)
      modifies this
      ensures var fed := FeedAll(d, known, old(Now()), pieces);
              var last := FlushStep(d, known, fed.1);
              (Concat(emitted), Now()) == (fed.0 + last.0, last.1)
      ensures composed == old(composed) + pieces
      ensures "" !in emitted
    {
      hide FeedStep, FlushStep, Concat;
      emitted := [];
      ConcatNothing();
      for i := 0 to |pieces|
        invariant FeedAll(d, known, old(Now()), pieces[..i]) == (Concat(emitted), Now())
        invariant composed == old(composed) + pieces[..i]
        invariant "" !in emitted
      {
        RunSnoc(Feeding(d, known), old(Now()), pieces[..i], pieces[i]);
        assert pieces[..i + 1] == pieces[..i] + [pieces[i]];
        var renumbered := Feed(pieces[i]);
        assert Concat(emitted) + "" == Concat(emitted);
        if renumbered != "" {
          ConcatSnoc(emitted, renumbered);
          emitted := emitted + [renumbered];
        }
      }
      assert pieces[..|pieces|] == pieces;
      assert Concat(emitted) + "" == Concat(emitted);
      var rest := Flush();
      if rest != "" {
        ConcatSnoc(emitted, rest);
        emitted := emitted + [rest];
      }
    }
  }
}
