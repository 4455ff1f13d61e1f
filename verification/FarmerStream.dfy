/** The edge: the turn's events as the farmer reads them, with their own values in place of the tags. */
module FarmerStream {
  import opened Text
  import opened AnswerEvents
  import Visibility

  function RevealBlock(d: DigitClass, values: Visibility.Held, b: Block): Block {
    match b
    case TextBlock(t, _) => b.WithText(Visibility.Reveal(d, values, t))
    case RefusalBlock(t) => b.WithText(Visibility.Reveal(d, values, t))
    case FormBlock(_) => b
  }

  function RevealBlocks(d: DigitClass, values: Visibility.Held, bs: seq<Block>): seq<Block> {
    seq(|bs|, i requires 0 <= i < |bs| => RevealBlock(d, values, bs[i]))
  }

  /** `_reveal_finished` */
  function RevealFinished(d: DigitClass, values: Visibility.Held, e: Event): Event
    requires e.TurnFinished?
  {
    if values == map[] then e else e.(content := RevealBlocks(d, values, e.content))
  }

  function RevealClaims(d: DigitClass, values: Visibility.Held, claims: seq<Event>): seq<Event>
    requires forall c <- claims :: c.Claim?
  {
    seq(|claims|, i requires 0 <= i < |claims| && claims[i].Claim? =>
      claims[i].(block := RevealBlock(d, values, claims[i].block)))
  }

  /** The edge has shown what it was fed since the last claim, but for what it holds back. */
  ghost predicate InStep(d: DigitClass, values: Visibility.Held, fed: seq<string>, shown: seq<string>, held: string) {
    && Run(Visibility.Feeding(d, values), "", fed) == (Concat(shown), held)
    && (fed == [] ==> shown == [])
  }

  lemma InStepAtStart(d: DigitClass, values: Visibility.Held)
    ensures InStep(d, values, [], [], "")
  {}

  lemma InStepAfterDelta(d: DigitClass, values: Visibility.Held, fed: seq<string>, shown: seq<string>, held: string,
                         text: string)
    requires InStep(d, values, fed, shown, held)
    ensures var (piece, next) := Visibility.FeedStep(d, values, held, text);
            InStep(d, values, fed + [text], if piece == "" then shown else shown + [piece], next)
  {
    hide Run, Concat, Visibility.FeedStep;
    RunSnoc(Visibility.Feeding(d, values), "", fed, text);
    var piece := Visibility.FeedStep(d, values, held, text).0;
    ConcatSnoc(shown, piece);
    assert Concat(shown) + "" == Concat(shown);
  }

  /** At a claim, what is held is flushed: the words shown are the stream of the deltas. */
  lemma InStepAtClaim(d: DigitClass, values: Visibility.Held, fed: seq<string>, shown: seq<string>, held: string)
    requires InStep(d, values, fed, shown, held)
    ensures Concat(if held == "" then shown else shown + [held]) == Visibility.Streamed(d, values, fed)
  {
    hide Run, Concat;
    ConcatSnoc(shown, held);
    assert Concat(shown) + "" == Concat(shown);
  }

  lemma NothingFedNothingHeld(d: DigitClass, values: Visibility.Held, shown: seq<string>, held: string)
    requires InStep(d, values, [], shown, held)
    ensures shown == [] && held == ""
  {}

  lemma RevealClaimsSnoc(d: DigitClass, values: Visibility.Held, claims: seq<Event>, c: Event)
    requires AllClaims(claims) && c.Claim?
    ensures RevealClaims(d, values, claims + [c]) ==
            RevealClaims(d, values, claims) + [c.(block := RevealBlock(d, values, c.block))]
  {}

  lemma {:induction false} RevealedSources(d: DigitClass, values: Visibility.Held, claims: seq<Event>)
    requires AllClaims(claims)
    ensures AllSources(RevealClaims(d, values, claims)) == AllSources(claims)
  {
    if claims != [] {
      var front, last := claims[..|claims| - 1], claims[|claims| - 1];
      assert claims == front + [last];
      RevealedSources(d, values, front);
      RevealClaimsSnoc(d, values, front, last);
      SourcesSnoc(front, last);
      SourcesSnoc(RevealClaims(d, values, front), last.(block := RevealBlock(d, values, last.block)));
    }
  }

  lemma NothingRevealed(d: DigitClass, bs: seq<Block>)
    ensures RevealBlocks(d, map[], bs) == bs
  {
    forall i | 0 <= i < |bs|
      ensures RevealBlock(d, map[], bs[i]) == bs[i]
    {
      if bs[i].HasWords() {
        Visibility.NothingToSwap(d, bs[i].text);
      }
    }
  }

  /** The farmer's terminal event is the core's, its words revealed: the claims shown agree with it. */
  lemma FinishRevealed(d: DigitClass, values: Visibility.Held, claims: seq<Event>, core: Event, farmer: Event)
    requires Finishes(claims, core) && Finishes(RevealClaims(d, values, claims), farmer)
    requires farmer.outcome == core.outcome
    ensures farmer == RevealFinished(d, values, core)
  {
    hide AllSources, DedupeById, RevealBlock;
    RevealedSources(d, values, claims);
    assert Contents(RevealClaims(d, values, claims)) == RevealBlocks(d, values, Contents(claims));
    if values == map[] {
      NothingRevealed(d, core.content);
    }
  }

  lemma ReadsUpTo(events: seq<Event>, i: nat)
    requires Streamed(events) && i < |events|
    ensures ReadAll(events[..i]).Some? && ReadAll(events[..i]).value.claims == ClaimsOf(events[..i])
    ensures AllClaims(ClaimsOf(events[..i]))
    ensures i + 1 < |events| ==> ReadAll(events[..i + 1]) == Read(ReadAll(events[..i]).value, events[i])
  {
    var front := events[..|events| - 1];
    assert front[..i] == events[..i];
    ReadPrefix(front, i);
    if i + 1 < |events| {
      ReadSnoc(events[..i], events[i]);
      assert events[..i] + [events[i]] == events[..i + 1];
    }
  }

  /** What the edge has put out so far agrees with what it has read. */
  ghost predicate SoFar(d: DigitClass, values: Visibility.Held, read: Reading, out: seq<Event>, put: Reading,
                        held: string) {
    && AllClaims(read.claims)
    && ReadAll(out) == Some(put)
    && |put.claims| == |read.claims|
    && InStep(d, values, read.deltas, put.deltas, held)
    && (Visibility.PlainTags(d, values) ==> put.claims == RevealClaims(d, values, read.claims))
  }

  /** A piece put out, unless it is empty. */
  function PutPiece(out: seq<Event>, piece: string): seq<Event> {
    if piece == "" then out else out + [ClaimDelta(piece)]
  }

  function AddedPiece(put: Reading, piece: string): Reading {
    if piece == "" then put else Reading(put.deltas + [piece], put.claims)
  }

  lemma PutPieceReads(out: seq<Event>, put: Reading, piece: string)
    requires ReadAll(out) == Some(put)
    ensures ReadAll(PutPiece(out, piece)) == Some(AddedPiece(put, piece))
    ensures ClaimsOf(PutPiece(out, piece)) == ClaimsOf(out)
  {
    hide ReadAll, ClaimsOf;
    ReadSnoc(out, ClaimDelta(piece));
    assert ClaimsOf(out) + [] == ClaimsOf(out);
  }

  lemma DeltaKeeps(d: DigitClass, values: Visibility.Held, read: Reading, out: seq<Event>, put: Reading, held: string,
                   text: string)
    requires SoFar(d, values, read, out, put, held)
    ensures var (piece, next) := Visibility.FeedStep(d, values, held, text);
            SoFar(d, values, Reading(read.deltas + [text], read.claims), PutPiece(out, piece), AddedPiece(put, piece),
                next)
  {
    hide Visibility.FeedStep, InStep, RevealClaims, Visibility.PlainTags, ReadAll;
    InStepAfterDelta(d, values, read.deltas, put.deltas, held, text);
    PutPieceReads(out, put, Visibility.FeedStep(d, values, held, text).0);
  }

  /** The block as it is claimed to the farmer, with the words put out since the last claim. */
  function FarmerClaim(put: Reading, c: Event): Event
    requires c.Claim?
  {
    c.(block := c.block.WithText(Concat(put.deltas)))
  }

  lemma ClaimRead(out: seq<Event>, put: Reading, held: string, c: Event)
    requires ReadAll(out) == Some(put) && c.Claim? && c.block.HasWords()
    ensures var claim := FarmerClaim(AddedPiece(put, held), c);
            ReadAll(PutPiece(out, held) + [claim]) == Some(Reading([], put.claims + [claim]))
  {
    hide ReadAll, PutPiece, Concat;
    PutPieceReads(out, put, held);
    ReadSnoc(PutPiece(out, held), FarmerClaim(AddedPiece(put, held), c));
  }

  lemma ClaimCounted(read: Reading, c: Event)
    requires c.Claim? && Read(read, c).Some? && AllClaims(read.claims)
    ensures Read(read, c).value.deltas == [] && Read(read, c).value.claims == read.claims + [c]
    ensures AllClaims(read.claims + [c])
  {}

  lemma WordsKeep(d: DigitClass, values: Visibility.Held, read: Reading, out: seq<Event>, put: Reading, held: string,
                  c: Event)
    requires SoFar(d, values, read, out, put, held)
    requires c.Claim? && c.block.HasWords() && Read(read, c).Some?
    ensures var flushed := AddedPiece(put, held);
            var claim := FarmerClaim(flushed, c);
            SoFar(d, values, Read(read, c).value, PutPiece(out, held) + [claim], Reading([], put.claims + [claim]), "")
  {
    hide ReadAll, RevealClaims, Visibility.PlainTags, Visibility.Streamed, Visibility.Reveal, InStep, Concat;
    var flushed := AddedPiece(put, held);
    var claim := FarmerClaim(flushed, c);
    ClaimRead(out, put, held, c);
    ClaimCounted(read, c);
    InStepAtStart(d, values);
    InStepAtClaim(d, values, read.deltas, put.deltas, held);
    if Visibility.PlainTags(d, values) {
      Visibility.StreamedIsRevealed(d, values, read.deltas);
      RevealClaimsSnoc(d, values, read.claims, c);
    }
  }

  lemma BlockKeeps(d: DigitClass, values: Visibility.Held, read: Reading, out: seq<Event>, put: Reading, held: string,
                   c: Event)
    requires SoFar(d, values, read, out, put, held)
    requires c.Claim? && !c.block.HasWords() && Read(read, c).Some?
    ensures put.deltas == [] && c.sources == []
    ensures SoFar(d, values, Read(read, c).value, out + [c], Reading([], put.claims + [c]), held)
  {
    hide ReadAll, RevealClaims, Visibility.PlainTags;
    NothingFedNothingHeld(d, values, put.deltas, held);
    ReadSnoc(out, c);
    RevealClaimsSnoc(d, values, read.claims, c);
  }

  lemma NothingReadNothingThere(events: seq<Event>)
    requires ReadAll(events) == Some(NOTHING_READ)
    ensures events == []
  {}

  /** What the edge owes the farmer for a stream it was given. */
  ghost predicate Kept(d: DigitClass, values: Visibility.Held, events: seq<Event>, out: seq<Event>) {
    && events != [] && out != []
    && events[|events| - 1].TurnFinished?
    && WellFormed(out)
    && (ClaimsOf(events) != [] ==> Streamed(out))
    && (Visibility.PlainTags(d, values) ==>
          && AllClaims(ClaimsOf(events))
          && ClaimsOf(out) == RevealClaims(d, values, ClaimsOf(events))
          && out[|out| - 1] == RevealFinished(d, values, events[|events| - 1]))
  }

  lemma ClaimsBeforeFinish(events: seq<Event>)
    requires events != [] && events[|events| - 1].TurnFinished?
    ensures ClaimsOf(events) == ClaimsOf(events[..|events| - 1])
  {
    var front := events[..|events| - 1];
    assert ClaimsOf(front) + [] == ClaimsOf(front);
  }

  /** The terminal event: the claims put out, or where there were none the core's event with its words revealed. */
  lemma FinishKeeps(d: DigitClass, values: Visibility.Held, events: seq<Event>, read: Reading, out: seq<Event>,
                    put: Reading, held: string, farmer: Event)
    requires Streamed(events) && ReadAll(events[..|events| - 1]) == Some(read)
    requires SoFar(d, values, read, out, put, held)
    requires put.claims != [] ==> Finishes(put.claims, farmer) && farmer.outcome == events[|events| - 1].outcome
    requires put.claims == [] ==> farmer == RevealFinished(d, values, events[|events| - 1])
    ensures Kept(d, values, events, out + [farmer])
  {
    hide ReadAll, ClaimsOf, RevealClaims, RevealBlocks, AllSources, DedupeById, Contents, Visibility.PlainTags, InStep;
    var n := |events| - 1;
    NothingFedNothingHeld(d, values, put.deltas, held);
    ReadsUpTo(events, n);
    ClaimsBeforeFinish(events);
    if put.claims == [] {
      NothingReadNothingThere(out);
      assert out + [farmer] == [farmer];
      ClaimsBeforeFinish([farmer]);
      assert [farmer][..0] == out;
      ReadPrefix(out, 0);
      assert read.claims == [] && RevealClaims(d, values, []) == [] by { NoClaimsRevealed(d, values); }
    } else {
      FinishedStream(out, put, farmer);
      if Visibility.PlainTags(d, values) {
        FinishRevealed(d, values, read.claims, events[n], farmer);
      }
    }
  }

  lemma NoClaimsRevealed(d: DigitClass, values: Visibility.Held)
    ensures RevealClaims(d, values, []) == [] && ClaimsOf([]) == []
  {}

  lemma FixedKeeps(d: DigitClass, values: Visibility.Held, events: seq<Event>)
    requires Fixed(events)
    ensures Kept(d, values, events, [RevealFinished(d, values, events[0])])
  {
    var out := [RevealFinished(d, values, events[0])];
    assert events[..0] == [] && out[..0] == [];
    ClaimsBeforeFinish(events);
    ClaimsBeforeFinish(out);
    NoClaimsRevealed(d, values);
  }

  /** The state of the edge after `i` events of a well-formed stream. */
  ghost predicate Going(d: DigitClass, values: Visibility.Held, events: seq<Event>, i: nat, out: seq<Event>,
                        put: Reading, held: string, recorded: seq<Event>) {
    WellFormed(events) && i <= |events| ==>
      if i < |events| then
        && recorded == []
        && (i == 0 ==> out == [] && put == NOTHING_READ)
        && (Streamed(events) ==>
              ReadAll(events[..i]).Some? && SoFar(d, values, ReadAll(events[..i]).value, out, put, held))
      else
        Kept(d, values, events, out) && recorded == [events[|events| - 1]]
  }

  lemma GoingAtStart(d: DigitClass, values: Visibility.Held, events: seq<Event>)
    ensures Going(d, values, events, 0, [], NOTHING_READ, "", [])
  {
    assert events[..0] == [];
    NoClaimsRevealed(d, values);
    InStepAtStart(d, values);
  }

  /** An event that is not the last of a well-formed stream leaves it a streamed one, read one event further. */
  lemma NotTheLast(events: seq<Event>, i: nat)
    requires i < |events| && !events[i].TurnFinished? && WellFormed(events)
    ensures i + 1 < |events| && Streamed(events) && ReadAll(events[..i]).Some?
    ensures ReadAll(events[..i + 1]) == Read(ReadAll(events[..i]).value, events[i]) && ReadAll(events[..i + 1]).Some?
  {
    hide ReadAll, Read;
    ReadsUpTo(events, i);
    ReadsUpTo(events, i + 1);
  }

  lemma GoingDelta(d: DigitClass, values: Visibility.Held, events: seq<Event>, i: nat, out: seq<Event>, put: Reading,
                   held: string, recorded: seq<Event>)
    requires i < |events| && Going(d, values, events, i, out, put, held, recorded) && events[i].ClaimDelta?
    ensures var (piece, next) := Visibility.FeedStep(d, values, held, events[i].text);
            Going(d, values, events, i + 1, PutPiece(out, piece), AddedPiece(put, piece), next, recorded)
  {
    hide ReadAll, SoFar, Visibility.FeedStep, Kept;
    if WellFormed(events) {
      NotTheLast(events, i);
      DeltaKeeps(d, values, ReadAll(events[..i]).value, out, put, held, events[i].text);
    }
  }

  lemma GoingWords(d: DigitClass, values: Visibility.Held, events: seq<Event>, i: nat, out: seq<Event>, put: Reading,
                   held: string, recorded: seq<Event>)
    requires i < |events| && Going(d, values, events, i, out, put, held, recorded)
    requires events[i].Claim? && events[i].block.HasWords()
    ensures var claim := FarmerClaim(AddedPiece(put, held), events[i]);
            Going(d, values, events, i + 1, PutPiece(out, held) + [claim],
                  Reading([], put.claims + [claim]), "", recorded)
  {
    hide ReadAll, SoFar, Kept, FarmerClaim;
    if WellFormed(events) {
      NotTheLast(events, i);
      WordsKeep(d, values, ReadAll(events[..i]).value, out, put, held, events[i]);
    }
  }

  lemma GoingBlock(d: DigitClass, values: Visibility.Held, events: seq<Event>, i: nat, out: seq<Event>, put: Reading,
                   held: string, recorded: seq<Event>)
    requires i < |events| && Going(d, values, events, i, out, put, held, recorded)
    requires events[i].Claim? && !events[i].block.HasWords()
    ensures WellFormed(events) ==> put.deltas == [] && events[i].sources == []
    ensures var claim := Claim(events[i].block, []);
            Going(d, values, events, i + 1, out + [claim], Reading([], put.claims + [claim]), held, recorded)
  {
    hide ReadAll, SoFar, Kept;
    if WellFormed(events) {
      NotTheLast(events, i);
      BlockKeeps(d, values, ReadAll(events[..i]).value, out, put, held, events[i]);
    }
  }

  lemma GoingFinished(d: DigitClass, values: Visibility.Held, events: seq<Event>, i: nat, out: seq<Event>, put: Reading,
                      held: string, recorded: seq<Event>, farmer: Event)
    requires i < |events| && Going(d, values, events, i, out, put, held, recorded) && events[i].TurnFinished?
    requires put.claims != [] ==> Finishes(put.claims, farmer) && farmer.outcome == events[i].outcome
    requires put.claims == [] ==> farmer == RevealFinished(d, values, events[i])
    ensures Going(d, values, events, i + 1, out + [farmer], put, held, recorded + [events[i]])
  {
    hide ReadAll, Read, SoFar, Kept, Finishes, RevealFinished;
    if Streamed(events) {
      ReadsUpTo(events, i);
      if i + 1 < |events| {
        ReadsUpTo(events, i + 1);
        assert Read(ReadAll(events[..i]).value, events[i]) == None
               by { NoReadingOn(ReadAll(events[..i]).value, events[i]); }
        assert false;
      }
      FinishKeeps(d, values, events, ReadAll(events[..i]).value, out, put, held, farmer);
    } else if Fixed(events) {
      FixedKeeps(d, values, events);
      assert out + [farmer] == [farmer];
    }
  }

  lemma NoReadingOn(r: Reading, e: Event)
    requires e.TurnFinished?
    ensures Read(r, e) == None
  {}

  method ShowDelta(shown: Visibility.StreamReveal, stream: AnswerStream, before: seq<Event>, text: string)
    returns (out: seq<Event>)
    requires stream.Valid()
    modifies shown, stream
    ensures stream.Valid()
    ensures var (piece, next) := Visibility.FeedStep(shown.d, shown.values, old(shown.held), text);
            out == PutPiece(before, piece) && stream.Now() == AddedPiece(old(stream.Now()), piece) && shown.held == next
  {
    out := before;
    var piece := shown.Feed(text);
    if piece != "" {
      var e := stream.AddPiece(piece);
      out := out + [e];
    }
  }

  method ShowWords(shown: Visibility.StreamReveal, stream: AnswerStream, before: seq<Event>, block: Block,
                   sources: seq<Source>) returns (out: seq<Event>)
    requires stream.Valid()
    modifies shown, stream
    ensures stream.Valid()
    ensures var claim := FarmerClaim(AddedPiece(old(stream.Now()), old(shown.held)), Claim(block, sources));
            && out == PutPiece(before, old(shown.held)) + [claim]
            && stream.Now() == Reading([], old(stream.claims) + [claim])
            && shown.held == ""
  {
    out := before;
    var rest := shown.Flush();
    if rest != "" {
      var e := stream.AddPiece(rest);
      out := out + [e];
    }
    var claim := stream.MakeClaim(block, sources);
    out := out + [claim];
  }

  method ShowFinished(d: DigitClass, values: Visibility.Held, stream: AnswerStream, e: Event) returns (farmer: Event)
    requires stream.Valid() && e.TurnFinished?
    ensures farmer.TurnFinished?
    ensures stream.claims != [] ==> Finishes(stream.claims, farmer) && farmer.outcome == e.outcome
    ensures stream.claims == [] ==> farmer == RevealFinished(d, values, e)
  {
    if stream.claims != [] {
      farmer := stream.Finish(e.outcome);
    } else {
      farmer := RevealFinished(d, values, e);
    }
  }

  /** `reveal_to_farmer`: what goes out, what was recorded before the farmer's copy was made, and whether a whole
      block was refused because words were still unclaimed. */
  method RevealToFarmer(d: DigitClass, values: Visibility.Held, events: seq<Event>)
    returns (out: seq<Event>, recorded: seq<Event>, raised: bool)
    ensures WellFormed(events) ==>
              !raised && Kept(d, values, events, out) && recorded == [events[|events| - 1]]
  {
    hide Going, Kept, Visibility.FeedStep, FarmerClaim, PutPiece, AddedPiece, Finishes, RevealFinished, WellFormed;
    var shown := new Visibility.StreamReveal(d, values);
    var stream := new AnswerStream();
    out, recorded, raised := [], [], false;
    GoingAtStart(d, values, events);
    for i := 0 to |events|
      invariant stream.Valid() && shown.values == values && shown.d == d
      invariant fresh(stream) && fresh(shown)
      invariant Going(d, values, events, i, out, stream.Now(), shown.held, recorded)
    {
      match events[i] {
        case ClaimDelta(text) =>
          GoingDelta(d, values, events, i, out, stream.Now(), shown.held, recorded);
          out := ShowDelta(shown, stream, out, text);
        case Claim(block, sources) =>
          if block.HasWords() {
            GoingWords(d, values, events, i, out, stream.Now(), shown.held, recorded);
            out := ShowWords(shown, stream, out, block, sources);
          } else {
            GoingBlock(d, values, events, i, out, stream.Now(), shown.held, recorded);
            var claim := stream.AddBlock(block);
            if claim.None? {
              raised := true;
              return;
            }
            out := out + [claim.value];
          }
        case TurnFinished(_, _, _) =>
          var farmer := ShowFinished(d, values, stream, events[i]);
          GoingFinished(d, values, events, i, out, stream.Now(), shown.held, recorded, farmer);
          recorded := recorded + [events[i]];
          out := out + [farmer];
      }
    }
    GoingToTheEnd(d, values, events, out, stream.Now(), shown.held, recorded);
  }

  lemma GoingToTheEnd(d: DigitClass, values: Visibility.Held, events: seq<Event>, out: seq<Event>, put: Reading,
                      held: string, recorded: seq<Event>)
    requires Going(d, values, events, |events|, out, put, held, recorded)
    ensures WellFormed(events) ==> events != [] && Kept(d, values, events, out) && recorded == [events[|events| - 1]]
  {}
}
