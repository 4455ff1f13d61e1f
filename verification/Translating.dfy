/** The core's events in the farmer's language: each block's translation streamed, then its claim. */
module Translating {
  import opened Text
  import opened AnswerEvents

  /** What the translator streams for a block's text. Nothing is known of it but that it is pieces of text;
      the position lets it answer the same text differently twice. */
  type Translator = (nat, string) -> seq<string>

  /** `_stream_translation`: a blank text is not sent, it goes out as it is. */
  function Spoken(w: SpaceClass, t: Translator, position: nat, text: string): seq<string> {
    if !IsBlank(w, text) then t(position, text) else if text == "" then [] else [text]
  }

  function TranslateBlock(w: SpaceClass, t: Translator, position: nat, b: Block): Block {
    match b
    case TextBlock(text, _) => b.WithText(Concat(Spoken(w, t, position, text)))
    case RefusalBlock(text) => b.WithText(Concat(Spoken(w, t, position, text)))
    case FormBlock(_) => b
  }

  /** The claims a translated reply makes: one a block, in order. */
  function TranslatedClaims(w: SpaceClass, t: Translator, e: Event, n: nat): seq<Event>
    requires e.TurnFinished? && n <= |e.content|
  {
    seq(n, i requires 0 <= i < n =>
      var b := e.content[i];
      Claim(TranslateBlock(w, t, i, b), if b.HasWords() then e.sources else []))
  }

  /** The block is spoken and claimed, or claimed as it is: the stream's part of one turn of the loop. */
  method SpeakBlock(w: SpaceClass, t: Translator, stream: AnswerStream, before: seq<Event>, position: nat, b: Block,
                    sources: seq<Source>) returns (out: seq<Event>, raised: bool)
    requires stream.Valid() && ReadAll(before) == Some(stream.Now())
    modifies stream
    ensures stream.Valid()
    ensures old(stream.pieces) == [] ==>
              var c := Claim(TranslateBlock(w, t, position, b), if b.HasWords() then sources else []);
              && !raised
              && stream.Now() == Reading([], old(stream.claims) + [c])
              && ReadAll(out) == Some(stream.Now())
  {
    hide ReadAll, Spoken, Concat;
    raised := false;
    if !b.HasWords() {
      var claim := stream.AddBlock(b);
      if claim.None? {
        return before, true;
      }
      ReadSnoc(before, claim.value);
      return before + [claim.value], false;
    }
    var pieces := Spoken(w, t, position, b.text);
    out := AddPieces(stream, before, pieces);
    assert old(stream.pieces) == [] ==> stream.pieces == pieces;
    var claim := stream.MakeClaim(b, sources);
    ReadSnoc(out, claim);
    out := out + [claim];
  }

  /** One `TurnFinished`, block by block. */
  method SpeakReply(w: SpaceClass, t: Translator, e: Event) returns (out: seq<Event>, raised: bool)
    requires e.TurnFinished?
    ensures !raised && Streamed(out) && out[|out| - 1].outcome == e.outcome
    ensures ClaimsOf(out) == TranslatedClaims(w, t, e, |e.content|)
  {
    hide ReadAll, Spoken, TranslateBlock, ClaimsOf;
    var stream := new AnswerStream();
    out, raised := [], false;
    NothingRead();
    for i := 0 to |e.content|
      invariant stream.Valid() && fresh(stream)
      invariant stream.Now() == Reading([], TranslatedClaims(w, t, e, i))
      invariant ReadAll(out) == Some(stream.Now())
    {
      out, raised := SpeakBlock(w, t, stream, out, i, e.content[i], e.sources);
      if raised {
        return;
      }
      assert TranslatedClaims(w, t, e, i + 1) == TranslatedClaims(w, t, e, i) +
             [Claim(TranslateBlock(w, t, i, e.content[i]), if e.content[i].HasWords() then e.sources else [])];
    }
    var last := stream.Finish(e.outcome);
    FinishedStream(out, stream.Now(), last);
    out := out + [last];
  }

  /** How a block of the core's reply is claimed: its words as the translator gives them, unless they are blank, with
      the reply's sources; and a form as it is, with none. */
  ghost predicate ClaimedAs(w: SpaceClass, t: Translator, e: Event, i: nat, c: Event)
    requires e.TurnFinished? && i < |e.content|
  {
    match e.content[i]
    case TextBlock(text, ids) =>
      var said := if exists k :: 0 <= k < |text| && !w(text[k]) then Concat(t(i, text)) else text;
      c == Claim(TextBlock(said, ids), e.sources)
    case RefusalBlock(text) =>
      var said := if exists k :: 0 <= k < |text| && !w(text[k]) then Concat(t(i, text)) else text;
      c == Claim(RefusalBlock(said), e.sources)
    case FormBlock(_) => c == Claim(e.content[i], [])
  }

  lemma TranslatedAsClaimed(w: SpaceClass, t: Translator, e: Event)
    requires e.TurnFinished?
    ensures var claims := TranslatedClaims(w, t, e, |e.content|);
            |claims| == |e.content| && forall i | 0 <= i < |claims| :: ClaimedAs(w, t, e, i, claims[i])
  {
    hide Concat;
    forall i | 0 <= i < |e.content|
      ensures ClaimedAs(w, t, e, i, TranslatedClaims(w, t, e, |e.content|)[i])
    {
      if e.content[i].HasWords() {
        SpokenIs(w, t, i, e.content[i].text);
      }
    }
  }

  /** A text with something in it is sent to the translator; a blank one goes out as it is. */
  lemma SpokenIs(w: SpaceClass, t: Translator, position: nat, text: string)
    ensures Concat(Spoken(w, t, position, text))
         == if exists k :: 0 <= k < |text| && !w(text[k]) then Concat(t(position, text)) else text
  {
    ConcatOne(text);
    ConcatNothing();
  }

  /** `translate_out` */
  method TranslateOut(w: SpaceClass, translation: Option<Translator>, events: seq<Event>)
    returns (out: seq<Event>, raised: bool)
    ensures !raised
    ensures translation.None? ==> out == events
    ensures translation.Some? && WellFormed(events) ==>
              var last := events[|events| - 1];
              && Streamed(out)
              && out[|out| - 1].outcome == last.outcome
              && ClaimsOf(out) == TranslatedClaims(w, translation.value, last, |last.content|)
              && |ClaimsOf(out)| == |last.content|
              && forall i | 0 <= i < |last.content| :: ClaimedAs(w, translation.value, last, i, ClaimsOf(out)[i])
  {
    hide TranslatedClaims, ClaimsOf, ClaimedAs;
    raised := false;
    if translation.None? {
      return events, false;
    }
    out := [];
    for i := 0 to |events|
      invariant i < |events| && WellFormed(events) ==> out == []
      invariant i == |events| && WellFormed(events) ==>
                  var last := events[|events| - 1];
                  && Streamed(out)
                  && out[|out| - 1].outcome == last.outcome
                  && ClaimsOf(out) == TranslatedClaims(w, translation.value, last, |last.content|)
    {
      if WellFormed(events) {
        OnlyLastFinishes(events, i);
      }
      if events[i].TurnFinished? {
        var spoken;
        spoken, raised := SpeakReply(w, translation.value, events[i]);
        assert out == [] ==> out + spoken == spoken;
        out := out + spoken;
      }
    }
    if translation.Some? && WellFormed(events) {
      TranslatedAsClaimed(w, translation.value, events[|events| - 1]);
    }
  }

  /** In a well-formed stream the terminal event is the last and the only one. */
  lemma OnlyLastFinishes(events: seq<Event>, i: nat)
    requires WellFormed(events) && i < |events|
    ensures events[i].TurnFinished? <==> i == |events| - 1
  {
    if Streamed(events) && i < |events| - 1 {
      NotYetFinished(events[..|events| - 1], i);
    }
  }

  lemma NotYetFinished(front: seq<Event>, i: nat)
    requires ReadAll(front).Some? && i < |front|
    ensures !front[i].TurnFinished?
  {
    ReadPrefix(front, i + 1);
    assert front[..i + 1][i] == front[i];
  }
}
