/** The core's side of the answer: composed, renumbered, claimed with what it cites, and translated block by block. */
module Composing {
  import opened Text
  import opened AnswerEvents
  import Citations

  function IdSet(sources: seq<Source>): set<string> {
    set i | 0 <= i < |sources| :: sources[i].id
  }

  /** Every source is known by its id, and no other id is known. */
  lemma KnownIds(sources: seq<Source>, id: string)
    ensures id in IdSet(sources) <==> exists source <- sources :: source.id == id
  {
    if source :| source in sources && source.id == id {
      var i :| 0 <= i < |sources| && sources[i] == source;
    }
  }

  /** `{source.id: source for source in sources}[id]` */
  function ById(sources: seq<Source>, id: string): (s: Source)
    requires id in IdSet(sources)
    ensures s in sources && s.id == id
  {
    if sources[|sources| - 1].id == id then sources[|sources| - 1] else ById(sources[..|sources| - 1], id)
  }

  /** The sources cited, each under the number it goes out with. */
  function WireSources(sources: seq<Source>, cited: Citations.Cited): seq<Source>
    requires forall c <- cited :: c.0 in IdSet(sources)
  {
    seq(|cited|, i requires 0 <= i < |cited| && cited[i] in cited =>
      Source(cited[i].1, ById(sources, cited[i].0).name))
  }

  /** A source goes out under the number it is cited by, with the name the last source of its id has. */
  lemma {:induction false} WireSourceIs(sources: seq<Source>, cited: Citations.Cited, i: nat)
    requires i < |cited| && forall c <- cited :: c.0 in IdSet(sources)
    ensures |WireSources(sources, cited)| == |cited| && WireSources(sources, cited)[i].id == cited[i].1
    ensures |NumbersOf(cited)| == |cited| && NumbersOf(cited)[i] == cited[i].1
    ensures exists j :: 0 <= j < |sources| && sources[j].id == cited[i].0
                        && (forall k | j < k < |sources| :: sources[k].id != cited[i].0)
                        && WireSources(sources, cited)[i].name == sources[j].name
  {
    var j := LastOfId(sources, cited[i].0);
  }

  lemma {:induction false} LastOfId(sources: seq<Source>, id: string) returns (j: nat)
    requires id in IdSet(sources)
    ensures j < |sources| && ById(sources, id) == sources[j] && sources[j].id == id
    ensures forall k | j < k < |sources| :: sources[k].id != id
  {
    j := |sources| - 1;
    if sources[j].id != id {
      j := LastOfId(sources[..|sources| - 1], id);
    }
  }

  function NumbersOf(cited: Citations.Cited): seq<string> {
    seq(|cited|, i requires 0 <= i < |cited| => cited[i].1)
  }

  // ---------------------------------------------------------------- what is cited

  lemma {:induction false} KnownIdsAreKnown(known: set<string>, toks: seq<Citations.Markers.Token>)
    ensures forall id <- Citations.KnownIds(known, toks) :: id in known
  {
    if toks != [] {
      KnownIdsAreKnown(known, toks[1..]);
    }
  }

  /** Everything a written answer cites is known, and numbered "1", "2", ... */
  lemma CitedAreRanked(d: DigitClass, known: set<string>, pieces: seq<string>, question: Option<string>)
    returns (order: seq<string>)
    ensures Citations.WrittenAnswer(d, known, pieces, question).1.cited == Citations.Ranked(order)
    ensures Distinct(order) && forall id <- order :: id in known
    ensures order == FirstSeen(Citations.KnownIds(known,
                       Citations.Markers.Tokens(d, Concat(pieces) + Citations.Trailer(question))))
  {
    hide Citations.Streamed, Citations.WrittenAnswer, Citations.Renumber;
    var composed := Concat(pieces) + Citations.Trailer(question);
    Citations.RecomputedAnswer(d, known, pieces, question);
    Citations.StreamedIsWhole(d, known, [composed]);
    assert Concat([composed]) == composed + "" == composed;
    Citations.NumberedByFirstCitation(d, known, composed);
    var ids := Citations.KnownIds(known, Citations.Markers.Tokens(d, composed));
    KnownIdsAreKnown(known, Citations.Markers.Tokens(d, composed));
    order := FirstSeen(ids);
    SeenAfterKeeps([], ids);
  }

  /** Sources with distinct ids are all kept. */
  lemma {:induction false} DedupeDistinct(sources: seq<Source>)
    requires forall i, j | 0 <= i < j < |sources| :: sources[i].id != sources[j].id
    ensures DedupeById(sources) == sources
  {
    if sources != [] {
      var front, last := sources[..|sources| - 1], sources[|sources| - 1];
      DedupeDistinct(front);
      assert !KnownId(front, last.id);
      assert sources == front + [last];
    }
  }

  lemma RankedSourcesDistinct(sources: seq<Source>, order: seq<string>)
    requires forall id <- order :: id in IdSet(sources)
    ensures forall c <- Citations.Ranked(order) :: c.0 in IdSet(sources)
    ensures DedupeById(WireSources(sources, Citations.Ranked(order))) == WireSources(sources, Citations.Ranked(order))
  {
    var cited := Citations.Ranked(order);
    assert forall i | 0 <= i < |cited| :: cited[i].0 == order[i];
    var wire := WireSources(sources, cited);
    forall i, j | 0 <= i < j < |wire|
      ensures wire[i].id != wire[j].id
    {
      if wire[i].id == wire[j].id {
        DecimalInjective(i + 1, j + 1);
      }
    }
    DedupeDistinct(wire);
  }

  // ---------------------------------------------------------------- compose_answer

  /** `answer_from_evidence`: the composer's text worked out again whole, with the sources it used. */
  method AnswerFromEvidence(d: DigitClass, text: string, sources: seq<Source>)
    returns (block: Block, wire: seq<Source>)
    ensures var r := Citations.Renumber(d, IdSet(sources), [], text);
            && (forall c <- r.1 :: c.0 in IdSet(sources))
            && block == TextBlock(r.0, NumbersOf(r.1))
            && wire == WireSources(sources, r.1)
  {
    hide Citations.FeedStep, Citations.FlushStep, Citations.Renumber;
    var numbers := new Citations.CitationNumbers(d, IdSet(sources));
    var fed := numbers.Feed(text);
    var rest := numbers.Flush();
    WholeInOnePiece(d, IdSet(sources), text);
    var order := CitedAreRanked(d, IdSet(sources), [text], None);
    RankedSourcesDistinct(sources, order);
    block := TextBlock(fed + rest, NumbersOf(numbers.cited));
    wire := WireSources(sources, numbers.cited);
  }

  /** Fed in one piece and flushed, a text is renumbered whole. */
  lemma WholeInOnePiece(d: DigitClass, known: set<string>, text: string)
    ensures var fed := Citations.FeedStep(d, known, Citations.START, text);
            var last := Citations.FlushStep(d, known, fed.1);
            (fed.0 + last.0, last.1.cited) == Citations.Renumber(d, known, [], text)
    ensures Citations.WrittenAnswer(d, known, [text], None).1.cited == Citations.Renumber(d, known, [], text).1
  {
    hide Citations.FeedStep, Citations.FlushStep, Citations.Renumber, Run;
    RunOne(Citations.Feeding(d, known), Citations.START, text);
    Citations.StreamedIsWhole(d, known, [text]);
    assert Concat([text]) == text + "" == text;
  }

  /** Each form is claimed as it is, citing nothing, in the order they are offered, behind the answer. */
  lemma FormsBehindAnswer(text: string, ids: seq<string>, wire: seq<Source>, forms: seq<string>, i: nat)
    requires i < |forms|
    ensures var claims := AnswerClaims(text, ids, wire, forms);
            |claims| == |forms| + 1 && claims[0] == Claim(TextBlock(text, ids), wire)
            && claims[i + 1] == Claim(FormBlock(forms[i]), [])
  {}

  function FormClaims(forms: seq<string>): seq<Event> {
    seq(|forms|, i requires 0 <= i < |forms| => Claim(FormBlock(forms[i]), []))
  }

  /** The answer's claims: one block of words with what it cites, then the forms offered. */
  function AnswerClaims(text: string, ids: seq<string>, wire: seq<Source>, forms: seq<string>): seq<Event> {
    [Claim(TextBlock(text, ids), wire)] + FormClaims(forms)
  }

  lemma {:induction false} AnswerSources(text: string, ids: seq<string>, wire: seq<Source>, forms: seq<string>)
    ensures AllSources(AnswerClaims(text, ids, wire, forms)) == wire
  {
    if forms == [] {
      var c := Claim(TextBlock(text, ids), wire);
      assert AnswerClaims(text, ids, wire, forms) == [] + [c];
      SourcesSnoc([], c);
    } else {
      var front, last := forms[..|forms| - 1], Claim(FormBlock(forms[|forms| - 1]), []);
      AnswerSources(text, ids, wire, front);
      assert AnswerClaims(text, ids, wire, forms) == AnswerClaims(text, ids, wire, front) + [last];
      SourcesSnoc(AnswerClaims(text, ids, wire, front), last);
    }
  }

  /** What was cited while writing is what is cited in everything composed. */
  lemma CitedAsComposed(d: DigitClass, known: set<string>, pieces: seq<string>, question: Option<string>)
    ensures Citations.WrittenAnswer(d, known, pieces, question).1.cited ==
            Citations.Renumber(d, known, [], Concat(pieces) + Citations.Trailer(question)).1
  {
    hide Citations.Streamed, Citations.WrittenAnswer, Citations.Renumber;
    var composed := Concat(pieces) + Citations.Trailer(question);
    Citations.RecomputedAnswer(d, known, pieces, question);
    Citations.StreamedIsWhole(d, known, [composed]);
    assert Concat([composed]) == composed + "" == composed;
  }

  /** `_write_answer` */
  method WriteAnswer(numbers: Citations.CitationNumbers, pieces: seq<string>, question: Option<string>)
    returns (written: seq<string>)
    requires numbers.Now() == Citations.START && numbers.composed == []
    modifies numbers
    ensures (Concat(written), numbers.Now()) == Citations.WrittenAnswer(numbers.d, numbers.known, pieces, question)
    ensures Concat(numbers.composed) == Concat(pieces) + Citations.Trailer(question)
  {
    hide Citations.FeedStep, Citations.FlushStep, Citations.FeedAll, Concat;
    written := numbers.RenumberPieces(pieces);
    assert numbers.composed == pieces;
    if question.Some? {
      ghost var before := numbers.composed;
      var asked := numbers.Feed(Citations.Trailer(question));
      ConcatSnoc(written, asked);
      ConcatSnoc(before, Citations.Trailer(question));
      written := written + [asked];
    } else {
      assert Concat(pieces) + "" == Concat(pieces);
    }
  }

  method OfferForms(stream: AnswerStream, before: seq<Event>, forms: seq<string>)
    returns (out: seq<Event>, raised: bool)
    requires stream.Valid() && ReadAll(before) == Some(stream.Now())
    modifies stream
    ensures stream.Valid()
    ensures old(stream.pieces) == [] ==>
              !raised && ReadAll(out) == Some(stream.Now())
              && stream.Now() == Reading([], old(stream.claims) + FormClaims(forms))
  {
    hide ReadAll;
    out, raised := before, false;
    assert FormClaims(forms[..0]) == [];
    for i := 0 to |forms|
      invariant stream.Valid()
      invariant old(stream.pieces) == [] ==> ReadAll(out) == Some(stream.Now())
      invariant old(stream.pieces) == [] ==> stream.Now() == Reading([], old(stream.claims) + FormClaims(forms[..i]))
    {
      var e := stream.AddBlock(FormBlock(forms[i]));
      if e.None? {
        raised := true;
        return;
      }
      ReadSnoc(out, e.value);
      assert FormClaims(forms[..i + 1]) == FormClaims(forms[..i]) + [e.value];
      out := out + [e.value];
    }
    assert forms[..|forms|] == forms;
  }

  /** The answer written, piece by piece, and claimed with what it cites. */
  method ClaimAnswer(d: DigitClass, sources: seq<Source>, pieces: seq<string>, question: Option<string>,
                     stream: AnswerStream)
    returns (out: seq<Event>)
    requires stream.Valid() && stream.Now() == NOTHING_READ
    modifies stream
    ensures stream.Valid() && ReadAll(out) == Some(stream.Now())
    ensures var written := Citations.WrittenAnswer(d, IdSet(sources), pieces, question);
            var cited := written.1.cited;
            && (forall c <- cited :: c.0 in IdSet(sources))
            && stream.Now() == Reading([], [Claim(TextBlock(written.0, NumbersOf(cited)), WireSources(sources, cited))])
  {
    hide ReadAll, Citations.WrittenAnswer, Citations.Renumber, WireSources, NumbersOf, IdSet, Concat;
    var numbers := new Citations.CitationNumbers(d, IdSet(sources));
    var pieces' := WriteAnswer(numbers, pieces, question);
    NothingRead();
    out := AddPieces(stream, [], pieces');
    assert stream.pieces == pieces';
    var block, wire := AnswerFromEvidence(d, Concat(numbers.composed), sources);
    CitedAsComposed(d, IdSet(sources), pieces, question);
    var claim := stream.MakeClaim(block, wire);
    ReadSnoc(out, claim);
    out := out + [claim];
  }

  /** `compose_answer`: the answer as the composer writes it, its claim, the forms offered, and the outcome. */
  method ComposeAnswer(d: DigitClass, sources: seq<Source>, pieces: seq<string>, question: Option<string>,
                       forms: seq<string>, outcome: Outcome) returns (out: seq<Event>, raised: bool)
    ensures !raised && Streamed(out)
    ensures var written := Citations.WrittenAnswer(d, IdSet(sources), pieces, question);
            var cited := written.1.cited;
            && (forall c <- cited :: c.0 in IdSet(sources))
            && ClaimsOf(out) == AnswerClaims(written.0, NumbersOf(cited), WireSources(sources, cited), forms)
            && AllClaims(ClaimsOf(out))
            && out[|out| - 1] == TurnFinished(outcome, Contents(ClaimsOf(out)), WireSources(sources, cited))
  {
    hide ReadAll, ClaimsOf, Citations.WrittenAnswer, AnswerClaims, AllSources, DedupeById, WireSources, NumbersOf,
      FormClaims, IdSet, Finishes, Streamed, Contents;
    var stream := new AnswerStream();
    out := ClaimAnswer(d, sources, pieces, question, stream);
    ghost var written := Citations.WrittenAnswer(d, IdSet(sources), pieces, question);
    ghost var ids, wire := NumbersOf(written.1.cited), WireSources(sources, written.1.cited);
    out, raised := OfferForms(stream, out, forms);
    AnswerClaimsAre(written.0, ids, wire, forms);
    var last := stream.Finish(outcome);
    ghost var order := CitedAreRanked(d, IdSet(sources), pieces, question);
    RankedSourcesDistinct(sources, order);
    AnswerEnds(out, written.0, ids, wire, forms, last);
    out := out + [last];
  }

  /** The answer's claims and a terminal event that holds them. */
  lemma AnswerEnds(out: seq<Event>, text: string, ids: seq<string>, wire: seq<Source>, forms: seq<string>, last: Event)
    requires ReadAll(out) == Some(Reading([], AnswerClaims(text, ids, wire, forms)))
    requires Finishes(AnswerClaims(text, ids, wire, forms), last) && DedupeById(wire) == wire
    ensures Streamed(out + [last]) && ClaimsOf(out + [last]) == AnswerClaims(text, ids, wire, forms)
    ensures AllClaims(AnswerClaims(text, ids, wire, forms))
    ensures last == TurnFinished(last.outcome, Contents(AnswerClaims(text, ids, wire, forms)), wire)
  {
    hide ReadAll, ClaimsOf, AnswerClaims, AllSources, DedupeById;
    AnswerSources(text, ids, wire, forms);
    FinishedStream(out, Reading([], AnswerClaims(text, ids, wire, forms)), last);
  }

  lemma AnswerClaimsAre(text: string, ids: seq<string>, wire: seq<Source>, forms: seq<string>)
    ensures AnswerClaims(text, ids, wire, forms) == [Claim(TextBlock(text, ids), wire)] + FormClaims(forms)
  {}
}
