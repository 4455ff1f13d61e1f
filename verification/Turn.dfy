/** One answered turn end to end: composed by the core, translated if there is a route, revealed at the edge. */
module Turn {
  import opened Text
  import opened AnswerEvents
  import Citations
  import Completion
  import Composing
  import FarmerStream
  import RedactReveal
  import RedactTexts
  import Redaction
  import Translating
  import Visibility

  /** What the composer writes for a turn: the sources it had, its words piece by piece, a question for the place if
      there is one, the forms it offers, and how the turn came out. */
  datatype Composed = Composed(sources: seq<Source>, pieces: seq<string>, question: Option<string>, forms: seq<string>,
                               outcome: Outcome)

  /** The farmer reads the words as streamed, or as the translator spoke them, with their own values in place, and what
      they cite; the terminal event holds exactly that. */
  ghost predicate Shown(d: DigitClass, w: SpaceClass, values: Visibility.Held, turn: Composed,
                        translation: Option<Translating.Translator>, out: seq<Event>) {
    var written := Citations.WrittenAnswer(d, Composing.IdSet(turn.sources), turn.pieces, turn.question);
    var cited := written.1.cited;
    var text := if translation.Some? && exists k :: 0 <= k < |written.0| && !w(written.0[k])
                then Concat(translation.value(0, written.0)) else written.0;
    && Streamed(out) && out != []
    && (forall c <- cited :: c.0 in Composing.IdSet(turn.sources))
    && ClaimsOf(out) == Composing.AnswerClaims(Visibility.Reveal(d, values, text), Composing.NumbersOf(cited),
                                               Composing.WireSources(turn.sources, cited), turn.forms)
    && AllClaims(ClaimsOf(out))
    && out[|out| - 1] == TurnFinished(turn.outcome, Contents(ClaimsOf(out)), Composing.WireSources(turn.sources, cited))
  }

  /** One turn from the farmer's words to what they are sent: the texts redacted, the answer to them written, and the
      values held revealed in it. Every tag redaction holds is one the stream can hold back, so what is shown needs no
      condition, whatever the identifiers found and in whatever order they finished. */
  method RunTurn(d: DigitClass, w: SpaceClass, lower: string -> string, policy: Redaction.Policy, texts: seq<string>,
                 reports: seq<RedactTexts.Report>, names: seq<string>, order: seq<nat>,
                 compose: seq<string> -> Composed, translation: Option<Translating.Translator>)
    returns (redacted: seq<string>, st: Redaction.State, out: seq<Event>, recorded: seq<Event>, raised: bool)
    requires |names| == |reports| && Completion.CompletionOrder(order, |reports|)
    ensures var spans := RedactTexts.AllMerged(texts, reports);
            && st == Redaction.TagAll(d, lower, policy, RedactReveal.InReadingOrder(spans, |texts|))
            && |redacted| == |texts|
            && forall i | 0 <= i < |texts| ::
                 && RedactReveal.Fits(texts[i], RedactReveal.ResolvedAt(spans, i))
                 && redacted[i] == RedactReveal.Replaced(texts[i], RedactReveal.ResolvedAt(spans, i),
                                                         RedactReveal.TagFor(d, lower, st.tags))
    ensures !raised && WellFormed(out) && |recorded| == 1 && recorded[0].TurnFinished?
    ensures recorded[0].outcome == compose(redacted).outcome
    ensures Shown(d, w, st.values, compose(redacted), translation, out)
  {
    hide WellFormed, Shown, Redaction.TagAll, RedactReveal.Fits, RedactReveal.Replaced, RedactReveal.TagFor,
         RedactReveal.ResolvedAt, RedactReveal.InReadingOrder, RedactTexts.AllMerged, RedactReveal.AllChecked,
         Redaction.EntityName, Visibility.PlainTags;
    var failed;
    redacted, st, failed := RedactTexts.RedactAll(d, lower, policy, texts, reports, names, order);
    RedactReveal.SpansOfRun(texts, RedactTexts.AllMerged(texts, reports), |texts|);
    Redaction.HeldTagsArePlain(d, lower, policy,
                               RedactReveal.InReadingOrder(RedactTexts.AllMerged(texts, reports), |texts|));
    out, recorded, raised := AnswerTurn(d, w, st.values, compose(redacted), translation);
  }

  /** What the farmer is sent, and what is recorded of it, for everything the composer may write, every way it may
      be cut, every translator and every set of held values. */
  method AnswerTurn(d: DigitClass, w: SpaceClass, values: Visibility.Held, turn: Composed,
                    translation: Option<Translating.Translator>)
    returns (out: seq<Event>, recorded: seq<Event>, raised: bool)
    // Nothing is refused on the way, and the farmer's stream keeps to the grammar.
    ensures !raised && WellFormed(out) && |recorded| == 1 && recorded[0].TurnFinished?
    ensures recorded[0].outcome == turn.outcome
    ensures Visibility.PlainTags(d, values) ==> Shown(d, w, values, turn, translation, out)
  {
    hide WellFormed, Streamed, ClaimsOf, Citations.WrittenAnswer, Composing.IdSet, Composing.WireSources,
      Composing.NumbersOf, Visibility.PlainTags, Visibility.Reveal, Translating.Spoken, Concat, DedupeById,
      Composing.AnswerClaims, FarmerStream.RevealClaims, FarmerStream.RevealFinished, FarmerStream.RevealBlocks,
      Translating.TranslatedClaims;
    var core, refused := Composing.ComposeAnswer(d, turn.sources, turn.pieces, turn.question, turn.forms, turn.outcome);
    StreamedIsWellFormed(core);
    var translated, refusedToo := Translating.TranslateOut(w, translation, core);
    StreamedIsWellFormed(translated);
    out, recorded, raised := FarmerStream.RevealToFarmer(d, values, translated);
    ghost var written := Citations.WrittenAnswer(d, Composing.IdSet(turn.sources), turn.pieces, turn.question);
    ghost var wire := Composing.WireSources(turn.sources, written.1.cited);
    ghost var ids := Composing.NumbersOf(written.1.cited);
    ghost var text := if translation.None? then written.0
                      else Concat(Translating.Spoken(w, translation.value, 0, written.0));
    if translation.Some? {
      Translating.SpokenIs(w, translation.value, 0, written.0);
      TranslatedAnswer(w, translation.value, core, written.0, ids, wire, turn.forms);
      SameSources(core, translated, written.0, text, ids, wire, turn.forms);
    }
    if Visibility.PlainTags(d, values) {
      ClaimsShown(d, values, translated, out, turn.outcome, text, ids, wire, turn.forms);
    }
  }

  /** A stream that is an answer's, with the farmer's values in place. */
  lemma ClaimsShown(d: DigitClass, values: Visibility.Held, events: seq<Event>, out: seq<Event>, outcome: Outcome,
                    text: string, ids: seq<string>, wire: seq<Source>, forms: seq<string>)
    requires FarmerStream.Kept(d, values, events, out) && Visibility.PlainTags(d, values)
    requires ClaimsOf(events) == Composing.AnswerClaims(text, ids, wire, forms)
    requires events[|events| - 1] == TurnFinished(outcome, Contents(ClaimsOf(events)), wire)
    ensures Streamed(out) && AllClaims(ClaimsOf(out))
    ensures ClaimsOf(out) == Composing.AnswerClaims(Visibility.Reveal(d, values, text), ids, wire, forms)
    ensures out[|out| - 1] == TurnFinished(outcome, Contents(ClaimsOf(out)), wire)
  {
    hide WellFormed, Streamed, ClaimsOf, Visibility.PlainTags, Visibility.Reveal, FarmerStream.RevealClaims,
      FarmerStream.RevealBlocks;
    RevealedAnswer(d, values, text, ids, wire, forms);
    RevealedContents(d, values, ClaimsOf(events));
    FarmerStream.NothingRevealed(d, Contents(ClaimsOf(events)));
    AnswerIsClaims(Visibility.Reveal(d, values, text), ids, wire, forms);
    AnswerIsClaims(text, ids, wire, forms);
  }

  lemma AnswerIsClaims(text: string, ids: seq<string>, wire: seq<Source>, forms: seq<string>)
    ensures AllClaims(Composing.AnswerClaims(text, ids, wire, forms))
            && Composing.AnswerClaims(text, ids, wire, forms) != []
  {}

  /** The terminal event of a streamed reply holds its claims. */
  lemma StreamedFinishes(events: seq<Event>)
    requires Streamed(events)
    ensures Finishes(ClaimsOf(events), events[|events| - 1])
  {
    hide ReadAll, DedupeById, AllSources;
    var front := events[..|events| - 1];
    ReadPrefix(front, |front|);
    assert front[..|front|] == front;
    FarmerStream.ClaimsBeforeFinish(events);
  }

  /** A translated answer ends in the sources it had. */
  lemma SameSources(core: seq<Event>, translated: seq<Event>, text: string, spoken: string, ids: seq<string>,
                    wire: seq<Source>, forms: seq<string>)
    requires Streamed(core) && ClaimsOf(core) == Composing.AnswerClaims(text, ids, wire, forms)
    requires core[|core| - 1].TurnFinished? && core[|core| - 1].sources == wire
    requires Streamed(translated) && ClaimsOf(translated) == Composing.AnswerClaims(spoken, ids, wire, forms)
    ensures translated[|translated| - 1].TurnFinished? && translated[|translated| - 1].sources == wire
    ensures translated[|translated| - 1].content == Contents(ClaimsOf(translated))
  {
    hide Streamed, ClaimsOf, DedupeById, AllSources, Composing.AnswerClaims;
    StreamedFinishes(core);
    StreamedFinishes(translated);
    Composing.AnswerSources(text, ids, wire, forms);
    Composing.AnswerSources(spoken, ids, wire, forms);
  }

  lemma StreamedIsWellFormed(events: seq<Event>)
    ensures Streamed(events) ==> WellFormed(events) && events != [] && events[|events| - 1].TurnFinished?
  {}

  lemma RevealedAnswer(d: DigitClass, values: Visibility.Held, text: string, ids: seq<string>, wire: seq<Source>,
                       forms: seq<string>)
    ensures FarmerStream.RevealClaims(d, values, Composing.AnswerClaims(text, ids, wire, forms)) ==
            Composing.AnswerClaims(Visibility.Reveal(d, values, text), ids, wire, forms)
  {
    hide Visibility.Reveal;
  }

  lemma RevealedContents(d: DigitClass, values: Visibility.Held, claims: seq<Event>)
    requires AllClaims(claims)
    ensures Contents(FarmerStream.RevealClaims(d, values, claims))
            == FarmerStream.RevealBlocks(d, values, Contents(claims))
  {
    hide FarmerStream.RevealBlock;
  }

  /** A core answer translated: one claim for the words, with what they cite, and the forms as they were. */
  lemma TranslatedAnswer(w: SpaceClass, t: Translating.Translator, core: seq<Event>, text: string, ids: seq<string>,
                         wire: seq<Source>, forms: seq<string>)
    requires core != [] && core[|core| - 1].TurnFinished? && core[|core| - 1].sources == wire
    requires core[|core| - 1].content == Contents(Composing.AnswerClaims(text, ids, wire, forms))
    ensures var e := core[|core| - 1];
            Translating.TranslatedClaims(w, t, e, |e.content|)
            == Composing.AnswerClaims(Concat(Translating.Spoken(w, t, 0, text)), ids, wire, forms)
  {
    hide Concat, Translating.Spoken;
    var e := core[|core| - 1];
    var claims := Composing.AnswerClaims(text, ids, wire, forms);
    assert e.content[0] == claims[0].block;
    forall i | 0 <= i < |forms|
      ensures e.content[i + 1] == FormBlock(forms[i])
    {
      assert claims[i + 1] == Claim(FormBlock(forms[i]), []);
    }
  }
}
