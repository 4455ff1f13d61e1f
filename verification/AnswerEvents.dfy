/** The events of a streamed answer, the grammar they keep to, and the object that keeps them to it. */
module AnswerEvents {
  import opened Text

  datatype Source = Source(id: string, name: string)

  /** A reply's blocks. Only the first two hold words. */
  datatype Block =
    | TextBlock(text: string, sourceIds: seq<string>)
    | RefusalBlock(text: string)
    | FormBlock(formId: string)
  {
    predicate HasWords() { !FormBlock? }

    function WithText(t: string): Block {
      match this
      case TextBlock(_, ids) => TextBlock(t, ids)
      case RefusalBlock(_) => RefusalBlock(t)
      case FormBlock(_) => this
    }
  }

  datatype Outcome = Outcome(status: string, cause: string)

  datatype Event =
    | ClaimDelta(text: string)
    | Claim(block: Block, sources: seq<Source>)
    | TurnFinished(outcome: Outcome, content: seq<Block>, sources: seq<Source>)

  // ---------------------------------------------------------------- the grammar

  /** How far a reader of the stream has got: the deltas since the last claim, and the claims. */
  datatype Reading = Reading(deltas: seq<string>, claims: seq<Event>)

  const NOTHING_READ := Reading([], [])

  /** One event on, or None where the stream breaks its word: a block with words is claimed with the text
      its deltas join to, and a block without words never follows unclaimed deltas. */
  function Read(r: Reading, e: Event): Option<Reading> {
    match e
    case ClaimDelta(t) => Some(Reading(r.deltas + [t], r.claims))
    case Claim(block, sources) =>
      if block.HasWords() then
        if block.text == Concat(r.deltas) then Some(Reading([], r.claims + [e])) else None
      else if r.deltas == [] && sources == [] then Some(Reading([], r.claims + [e]))
      else None
    case TurnFinished(_, _, _) => None
  }

  function ReadAll(events: seq<Event>): Option<Reading> {
    if events == [] then Some(NOTHING_READ)
    else
      var before := ReadAll(events[..|events| - 1]);
      if before.None? then None else Read(before.value, events[|events| - 1])
  }

  function Contents(claims: seq<Event>): seq<Block>
    requires forall c <- claims :: c.Claim?
  {
    seq(|claims|, i requires 0 <= i < |claims| && claims[i].Claim? => claims[i].block)
  }

  /** The terminal event's blocks are the claims' own, one each, in order. */
  lemma BlocksOfClaims(claims: seq<Event>, i: nat)
    requires (forall c <- claims :: c.Claim?) && i < |claims|
    ensures |Contents(claims)| == |claims| && Contents(claims)[i] == claims[i].block
  {}

  /** Words are put in place of words, and nothing else of a block changes. */
  lemma WordsChange(b: Block, words: string)
    ensures b.HasWords() <==> b.TextBlock? || b.RefusalBlock?
    ensures b.TextBlock? ==> b.WithText(words) == TextBlock(words, b.sourceIds)
    ensures b.RefusalBlock? ==> b.WithText(words) == RefusalBlock(words)
    ensures b.FormBlock? ==> b.WithText(words) == b
  {}

  function AllSources(claims: seq<Event>): seq<Source> {
    if claims == [] then []
    else
      var last := claims[|claims| - 1];
      AllSources(claims[..|claims| - 1]) + if last.Claim? then last.sources else []
  }

  predicate KnownId(sources: seq<Source>, id: string) {
    exists i :: 0 <= i < |sources| && sources[i].id == id
  }

  /** `_dedupe_by_id`: in first-seen order, one per id. */
  function DedupeById(sources: seq<Source>): seq<Source> {
    if sources == [] then []
    else
      var front := DedupeById(sources[..|sources| - 1]);
      var last := sources[|sources| - 1];
      if KnownId(front, last.id) then front else front + [last]
  }

  ghost predicate AllClaims(claims: seq<Event>) { forall c <- claims :: c.Claim? }

  /** The terminal event holds every claim. */
  ghost predicate Finishes(claims: seq<Event>, e: Event) {
    && e.TurnFinished?
    && AllClaims(claims)
    && e.content == Contents(claims)
    && e.sources == DedupeById(AllSources(claims))
  }

  /** A streamed reply: deltas and claims that agree, and one terminal event, last, that holds every claim. */
  ghost predicate Streamed(events: seq<Event>) {
    && events != []
    && var r := ReadAll(events[..|events| - 1]);
    && r.Some?
    && r.value.deltas == []
    && Finishes(r.value.claims, events[|events| - 1])
  }

  /** A fixed reply reaches the edge whole, with no claims before it. */
  ghost predicate Fixed(events: seq<Event>) { |events| == 1 && events[0].TurnFinished? }

  ghost predicate WellFormed(events: seq<Event>) { Streamed(events) || Fixed(events) }

  /** The claims a stream makes. */
  function ClaimsOf(events: seq<Event>): seq<Event> {
    if events == [] then []
    else
      var last := events[|events| - 1];
      ClaimsOf(events[..|events| - 1]) + if last.Claim? then [last] else []
  }

  /** A stream's claims are its claim events, in order. */
  lemma {:induction false} ClaimsSift(events: seq<Event>)
    ensures Sifted(events, (e: Event) => e.Claim?, ClaimsOf(events))
  {
    var keep := (e: Event) => e.Claim?;
    if events == [] {
      NothingSifted(keep);
    } else {
      var front, last := events[..|events| - 1], events[|events| - 1];
      ClaimsSift(front);
      assert events == front + [last];
      SiftedSnoc(front, keep, ClaimsOf(front), last);
    }
  }

  lemma NothingRead()
    ensures ReadAll([]) == Some(NOTHING_READ)
  {}

  lemma ReadSnoc(events: seq<Event>, e: Event)
    ensures ReadAll(events + [e]) ==
            var before := ReadAll(events); if before.None? then None else Read(before.value, e)
    ensures ClaimsOf(events + [e]) == ClaimsOf(events) + if e.Claim? then [e] else []
  {
    assert (events + [e])[..|events|] == events;
  }

  /** A stream that reads to the end reads to every point before it, and all it has read are its claims. */
  lemma {:induction false} ReadPrefix(events: seq<Event>, n: nat)
    requires n <= |events| && ReadAll(events).Some?
    ensures ReadAll(events[..n]).Some?
    ensures ReadAll(events[..n]).value.claims == ClaimsOf(events[..n])
    ensures AllClaims(ClaimsOf(events[..n]))
    decreases |events|
  {
    if n < |events| {
      var front := events[..|events| - 1];
      assert front[..n] == events[..n];
      ReadPrefix(front, n);
    } else if events != [] {
      var front := events[..|events| - 1];
      assert front[..|front|] == front && events[..n] == events;
      ReadPrefix(front, |front|);
    }
  }

  lemma SourcesSnoc(claims: seq<Event>, c: Event)
    requires c.Claim?
    ensures AllSources(claims + [c]) == AllSources(claims) + c.sources
  {
    assert (claims + [c])[..|claims|] == claims;
  }

  /** One source per id, and every id kept. */
  lemma {:induction false} DedupeKeepsIds(sources: seq<Source>)
    ensures forall i, j | 0 <= i < j < |DedupeById(sources)| :: DedupeById(sources)[i].id != DedupeById(sources)[j].id
    ensures forall s <- DedupeById(sources) :: s in sources
    ensures forall s <- sources :: KnownId(DedupeById(sources), s.id)
  {
    if sources != [] {
      var front, last := sources[..|sources| - 1], sources[|sources| - 1];
      DedupeKeepsIds(front);
      assert sources == front + [last];
      var d, e := DedupeById(front), DedupeById(sources);
      forall s <- sources
        ensures KnownId(e, s.id)
      {
        if s in front {
          var i :| 0 <= i < |d| && d[i].id == s.id;
          assert e[i] == d[i];
        } else if !KnownId(d, last.id) {
          assert e[|d|] == last;
        }
      }
    }
  }

  function Ids(sources: seq<Source>): seq<string> {
    seq(|sources|, i requires 0 <= i < |sources| => sources[i].id)
  }

  lemma IdsSnoc(front: seq<Source>, last: Source)
    ensures Ids(front + [last]) == Ids(front) + [last.id] && Ids([]) == []
    ensures KnownId(front, last.id) <==> last.id in Ids(front)
  {
    if last.id in Ids(front) {
      var i :| 0 <= i < |front| && Ids(front)[i] == last.id;
    }
    if KnownId(front, last.id) {
      var i :| 0 <= i < |front| && front[i].id == last.id;
      assert Ids(front)[i] == last.id;
    }
  }

  /** The ids come in first-seen order. */
  lemma {:induction false} DedupeInOrder(sources: seq<Source>)
    ensures Ids(DedupeById(sources)) == FirstSeen(Ids(sources))
  {
    hide FirstSeen, KnownId;
    if sources == [] {
      SeenIs(Ids([]));
      assert Ids(DedupeById([])) == Ids([]) == [] == FirstSeen([]) by { SeenNone(); }
    } else {
      var front, last := sources[..|sources| - 1], sources[|sources| - 1];
      DedupeInOrder(front);
      assert sources == front + [last];
      IdsSnoc(front, last);
      IdsSnoc(DedupeById(front), last);
      FirstSeenSnoc(Ids(front), last.id);
    }
  }

  lemma SeenNone()
    ensures FirstSeen<string>([]) == [] && Ids([]) == []
  {}

  /** Each id keeps the source it was first seen with. */
  lemma {:induction false} DedupeKeepsFirst(sources: seq<Source>)
    ensures forall k | 0 <= k < |DedupeById(sources)| ::
              var first := IndexOf(Ids(sources), DedupeById(sources)[k].id);
              first < |sources| && DedupeById(sources)[k] == sources[first]
  {
    hide FirstSeen, IndexOf, KnownId;
    if sources != [] {
      var front, last := sources[..|sources| - 1], sources[|sources| - 1];
      var kept, ids := DedupeById(front), Ids(front);
      DedupeKeepsFirst(front);
      assert sources == front + [last];
      IdsSnoc(front, last);
      IdsSnoc(kept, last);
      DedupeInOrder(front);
      SeenIs(ids);
      forall k | 0 <= k < |kept|
        ensures IndexOf(Ids(sources), kept[k].id) == IndexOf(ids, kept[k].id) < |front|
      {
        assert ids[IndexOf(ids, kept[k].id)] in ids;
        IndexOfStays(ids, [last.id], kept[k].id);
      }
      if !KnownId(kept, last.id) {
        IndexOfNew(ids, last.id);
      }
    }
  }

  /** A terminal event that holds every claim completes the stream. */
  lemma FinishedStream(out: seq<Event>, r: Reading, last: Event)
    requires ReadAll(out) == Some(r) && r.deltas == [] && Finishes(r.claims, last)
    ensures Streamed(out + [last]) && ClaimsOf(out + [last]) == r.claims
  {
    hide ReadAll, ClaimsOf;
    assert (out + [last])[..|out|] == out && out[..|out|] == out;
    ReadPrefix(out, |out|);
    ReadSnoc(out, last);
    assert ClaimsOf(out) + [] == ClaimsOf(out);
  }

  // ---------------------------------------------------------------- the object

  /** Builds a streamed answer's events so they agree. */
  class AnswerStream {
    var pieces: seq<string>
    var claims: seq<Event>

    ghost predicate Valid() reads this { AllClaims(claims) }

    ghost function Now(): Reading reads this { Reading(pieces, claims) }

    constructor ()
      ensures Valid() && Now() == NOTHING_READ
    {
      pieces, claims := [], [];
    }

    method AddPiece(text: string) returns (e: Event)
      modifies this
      ensures e == ClaimDelta(text) && Now() == Reading(old(pieces) + [text], old(claims))
    {
      pieces := pieces + [text];
      e := ClaimDelta(text);
    }

    method MakeClaim(block: Block, sources: seq<Source>) returns (e: Event)
      requires Valid()
      modifies this
      ensures Valid()
      ensures e == Claim(block.WithText(Concat(old(pieces))), sources) && Now() == Reading([], old(claims) + [e])
    {
      e := Claim(block.WithText(Concat(pieces)), sources);
      claims := claims + [e];
      pieces := [];
    }

    /** None where `add_block` raises: pieces were written and not claimed. */
    method AddBlock(block: Block) returns (e: Option<Event>)
      requires Valid()
      modifies this
      ensures Valid()
      ensures old(pieces) != [] ==> e == None && Now() == old(Now())
      ensures old(pieces) == [] ==>
                e == Some(Claim(block, [])) && Now() == Reading([], old(claims) + [Claim(block, [])])
    {
      if pieces != [] {
        return None;
      }
      claims := claims + [Claim(block, [])];
      e := Some(Claim(block, []));
    }

    method Finish(outcome: Outcome) returns (e: Event)
      requires Valid()
      ensures Finishes(claims, e) && e.outcome == outcome
    {
      e := TurnFinished(outcome, Contents(claims), DedupeById(AllSources(claims)));
    }
  }

  /** Pieces added one after the other, each a delta. */
  method AddPieces(stream: AnswerStream, before: seq<Event>, pieces: seq<string>) returns (out: seq<Event>)
    requires stream.Valid() && ReadAll(before) == Some(stream.Now())
    modifies stream
    ensures stream.Valid() && ReadAll(out) == Some(stream.Now())
    ensures stream.Now() == Reading(old(stream.pieces) + pieces, old(stream.claims))
  {
    hide ReadAll, Contents, AllSources, Concat;
    out := before;
    for i := 0 to |pieces|
      invariant stream.Valid() && ReadAll(out) == Some(stream.Now())
      invariant stream.pieces == old(stream.pieces) + pieces[..i] && stream.claims == old(stream.claims)
    {
      ReadSnoc(out, ClaimDelta(pieces[i]));
      Associate(old(stream.pieces), pieces[..i], [pieces[i]]);
      assert pieces[..i + 1] == pieces[..i] + [pieces[i]];
      var e := stream.AddPiece(pieces[i]);
      out := out + [e];
    }
    assert pieces[..|pieces|] == pieces;
  }
}
