# A verified model of one farmer question's turn

The system takes a farmer's question through a pipeline: personal values are swapped for tags, providers are found,
ranked and asked, the composer writes an answer citing numbered sources, the answer is translated and streamed back,
and the farmer's own values are put back in place of the tags. These Dafny modules model the parts of it that carry
guarantees and prove those guarantees for all inputs, all ways a text can be cut into pieces, all orders in which
concurrent calls can finish and all runs.

Check it with `dafny verify dfyconfig.toml`.

## What is modelled

- **Text in pieces** (`Text`, `Markers`, `Citations`, `ParagraphCitations`, `ParagraphBreaks`, `StreamedBreaks`,
  `TearableTexts`, `MarkerTexts`, `Visibility`, `TagTexts`). The regular expressions are written as scanners, and
  `MarkerTexts` and `TagTexts` say what they match by the text alone. Each transducer is a step function;
  `Text.RunAgrees` says once what it takes for a run over pieces to equal the whole text, and each transducer is an
  instance. Python's `$` also matches before one trailing newline, and the scanners do the same; `\Z` does not.
- **The event stream** (`AnswerEvents`, `Composing`, `Translating`, `FarmerStream`, `Turn`). A grammar of deltas, claims
  and one terminal event, kept by every layer, and end to end by `Turn.AnswerTurn`.
- **Redaction** (`Normalise`, `Resolve`, `Redaction`, `RedactReveal`, `RedactTexts`, `Conceal`,
  `ConcealedPlaces`). Overlaps settled, tags numbered across texts, the way back to the text, reveal after redact, and
  held values hidden again.
- **The area index** (`AreaLookup`, `Nearest`, `QualifiedNames`). Distance is any real function with the stated bound.
- **Arguments** (`Arguments`, `ArgumentPaths`, `ArgumentChecks`, `ArgumentReads`). JSON flattened to strings and read back
  by string, and the paths those strings stand for.
- **Discovery, ranking and fallback** (`Completion`, `Discovery`, `DiscoveryResults`, `Preferences`, `Planner`,
  `Evidence`). A completion order is any permutation of the calls and appears in no result.
- **Forms** (`Trees`, `DictObjects`, `FormBodies`, `Forms`, `FormPacks`). Paths and deletion on values, and the same
  deletion in place on dictionary objects. **Language tags** (`Language`) and **time covered** (`Covered`).

## Where the code does not do what it says

Each is proved, with the exact condition under which the promise does hold or the inputs it fails on.

- The place question is fed to the numbering and never flushed, so an answer whose question ends in an open marker is
  streamed short of it (`Citations.RecomputedAnswer`, `Citations.OpenQuestionIsCutShort`).
- Dropping the marker of an unknown source can bring a bracket, digits and a bracket together
  (`Citations.DroppingCanMakeAMarker`, `Citations.MarkersReadBack`).
- `TAG` takes any Unicode digit, `_OPEN_TAG` only ASCII ones (`Visibility.CutInsideTag`). Tags made by redaction are
  always ASCII (`Redaction.HeldTagsArePlain`).
- A streamed answer is not always the whole text with its sources moved. A paragraph break held at the end of an answer
  that cites something is dropped (`StreamedBreaks.HeldBreakIsDropped`); exactly which texts go out to the letter in one
  piece is `ParagraphBreaks.OnePieceIsExact`. And where markers taken out leave a break behind, a piece that ends there
  sends the break before the sources, which then stand as a paragraph of their own
  (`StreamedBreaks.ParagraphsDependOnTheCut`). Exactly when that happens is `StreamedBreaks.EveryCutKeepsBreaks` for
  given pieces, and `TearableTexts.TextKeepsBreaks` for all cuts of a text.
- A held value is not hidden everywhere it stands. One that can overlap itself, as "a a" in "a a a", is scanned over
  where it stands from within itself, and is left there if another value was replaced over its first place
  (`ConcealedPlaces.SomeValueOverlapsItself`). Exactly such values can be left (`ConcealedPlaces.HiddenExactly`).
- A nested key with a dot in it is checked as if it were another value (`ArgumentChecks.DottedKeyEscapesItsEnum`). Exactly
  which scalars escape an enum so is `ArgumentReads.EnumEscapesExactly`, and exactly which bodies hold none of them
  `ArgumentReads.EnumsKeptExactly`.
- An object in a list in a list is flattened and never read (`ArgumentReads.NestedListIsNotRead`); lists of lists of plain
  values, such as coordinates, are read whole. An empty key is read as the object around it
  (`ArgumentReads.EmptyKeyReadsItsObject`). Exactly which bodies are read whole is
  `ArgumentReads.FlattenedIsReadWhole`.
- The comment at `src/dss/core/planner/validation.py:293-303` calls its guard unreachable. It is reached when the list
  item comes before the scalar (`ArgumentChecks.ListFirstIsRead`), not when it comes after it
  (`ArgumentChecks.PlainFirstIsNotRead`); only the rejection holds (`ArgumentChecks.ScalarNeedsItsOwnPath`).
- A ranking that names a provider twice uses it at its last place and records it twice (`Preferences.NamedTwice`);
  exactly when use and record agree, `Preferences.CapabilitiesAsRecorded` and `Preferences.AnswersAsRecorded`.

## Model

| member | source | states |
|---|---|---|
| `Turn.RunTurn` | src/dss/orchestration/orchestrator.py:290-331 | A turn from the farmer's texts to what they are sent, with no condition on the values: whatever the identifiers find, in whatever order they finish, whatever the composer writes of the redacted texts and whatever the translator speaks, the claim is those words revealed with the values held, with the numbered sources cited, and the terminal event holds the claims in order and those sources |
| `Turn.AnswerTurn` | src/dss/orchestration/orchestrator.py:304-331 | For everything the composer may write, every cut of it, every translator and every set of held values: no block is refused, the stream the farmer gets keeps the event grammar, exactly one terminal event is recorded with the outcome. Where every held tag is written in `[a-z0-9_]`: the claim is the words as streamed, or as the translator spoke them, revealed, with the sources cited, and the terminal event holds the claims in order and those sources |
| `FarmerStream.RevealToFarmer` | src/dss/orchestration/orchestrator.py:637-673 | Every well-formed stream goes out well formed: `add_block` never raises, claims stay in place and agree with the deltas before them, and the terminal event recorded is the one that came in; where every held tag is written in `[a-z0-9_]`, each claim is what the incoming deltas reveal to |
| `FarmerStream.FinishKeeps` | src/dss/orchestration/orchestrator.py:691-715 | The farmer's terminal event repeats the claims put out, in order; a reply with no claims goes out as it came with its words revealed |
| `Translating.TranslateOut` | src/dss/orchestration/translation.py:40-90 | A translated reply is again deltas, claims and one terminal event that agree, one claim for each block in order: the words as the translator gives them where there is more to them than white space, as they are where there is not, with the reply's sources; a form as it is, with none. With no translation it is the stream itself |
| `Translating.OnlyLastFinishes` | src/dss/orchestration/translation.py:55-81 | In a well-formed stream the terminal event is the last one and no other |
| `Composing.ComposeAnswer` | src/dss/orchestration/orchestrator.py:559-599 | The composed events keep the grammar, nothing is refused, the claims are the written text with its numbered sources and then the forms, and the terminal event holds exactly those |
| `Composing.WriteAnswer` | src/dss/orchestration/orchestrator.py:602-635 | What is written is the pieces renumbered and flushed, then the place question fed and left unflushed; everything fed is kept as composed |
| `Composing.ClaimAnswer` | src/dss/orchestration/orchestrator.py:559-599 | The answer is claimed as it was written, with the numbered sources it cites, all of them known |
| `Composing.AnswerFromEvidence` | src/dss/core/channel/service.py:250-265 | The answer worked out again from the whole text cites the sources of that text under their numbers |
| `Composing.CitedAreRanked` | src/dss/core/stream_response/citations.py:78-83 | Everything a written answer cites is a known source, and the numbers are "1", "2", ... in first-cited order |
| `Composing.WireSourceIs` | src/dss/core/channel/service.py:250-265 | A cited source goes out under its number with its own name |
| `Composing.KnownIds` | src/dss/core/channel/service.py:250-265 | Every source is known by its id and no other id is |
| `Composing.FormsBehindAnswer` | src/dss/orchestration/orchestrator.py:559-599 | The forms are claimed as they are, in order, behind the answer |
| `AnswerEvents.FinishedStream` | src/dss/orchestration/answer_stream.py:59-66 | A terminal event holding every claim completes a stream in which each claim's text is the joined deltas before it |
| `AnswerEvents.DedupeKeepsIds` | src/dss/orchestration/answer_stream.py:69-75 | The terminal event's sources: one per id, every id kept |
| `AnswerEvents.DedupeInOrder` | src/dss/orchestration/answer_stream.py:69-75 | The ids of the terminal event's sources come in first-seen order |
| `AnswerEvents.DedupeKeepsFirst` | src/dss/orchestration/answer_stream.py:69-75 | Each id keeps the source it was first seen with |
| `AnswerEvents.BlocksOfClaims` | src/dss/orchestration/answer_stream.py:59-66 | The terminal event's blocks are the claims' own, in order |
| `AnswerEvents.AnswerStream.AddPiece` | src/dss/orchestration/answer_stream.py:33-35 | The piece is kept until the next claim |
| `AnswerEvents.AnswerStream.MakeClaim` | src/dss/orchestration/answer_stream.py:37-47 | A claim takes the text of the pieces since the last one, and leaves none behind |
| `AnswerEvents.AnswerStream.AddBlock` | src/dss/orchestration/answer_stream.py:49-57 | A whole block is refused exactly when words are written and not claimed; else it is claimed |
| `AnswerEvents.AnswerStream.Finish` | src/dss/orchestration/answer_stream.py:59-66 | The terminal event holds the claims' blocks and their sources |
| `Citations.StreamedIsWhole` | src/dss/core/stream_response/citations.py:59-87 | For every way of cutting a text into pieces, the output and the cited map are those of the whole text renumbered, and nothing stays held |
| `Citations.RecomputedAnswer` | src/dss/orchestration/orchestrator.py:628-635 | Streamed against recomputed from `composed`: the same sources in the same order always; the same text exactly when the place question leaves no marker open |
| `Citations.OpenQuestionIsCutShort` | src/dss/orchestration/orchestrator.py:628-635 | It does happen: an answer whose question ends in an open bracket goes out without it |
| `Citations.NumberedByFirstCitation` | src/dss/core/stream_response/citations.py:78-84 | Known sources get 1 to k in first-cited order with none left out, and markers of unknown ids vanish |
| `Citations.MarkersReadBack` | src/dss/core/stream_response/citations.py:78-87 | A reader of the renumbered text finds exactly the markers given out, if and only if no dropped marker stood between a bracket, digits and a closing bracket |
| `Citations.DroppingCanMakeAMarker` | src/dss/core/stream_response/citations.py:78-87 | It does happen: "[[9]1]" with only source 1 known goes out as "[1]" citing nothing |
| `Citations.CitationNumbers.constructor` | src/dss/core/stream_response/citations.py:47-52 | Nothing held, cited or composed |
| `Citations.CitationNumbers.Feed` | src/dss/core/stream_response/citations.py:66-72 | One step of the transducer: text up to the open marker renumbered, the rest held |
| `Citations.CitationNumbers.Flush` | src/dss/core/stream_response/citations.py:74-76 | The rest renumbered, nothing held |
| `Citations.CitationNumbers.RenumberPieces` | src/dss/core/stream_response/citations.py:59-64 | Feeding every piece and flushing, no empty string handed on |
| `Citations.CitationNumbers.Substitute` | src/dss/core/stream_response/citations.py:66-87 | The scanning loop equals the left-to-right substitution over tokens |
| `Markers.TokensAcross` | src/dss/core/stream_response/citations.py:66-76 | Scanning a text is scanning its halves, across any cut that leaves no marker open |
| `Markers.OpenMarkerIsPlain` | src/dss/core/stream_response/citations.py:87 | What `$` lets be held (an open marker, before one trailing newline too) holds no complete marker |
| `ParagraphCitations.CitePerParagraph` | src/dss/core/stream_response/citations.py:22-41 | The generator's output is the run of the step function, with no empty string; for every cut into pieces it holds, white space and paragraph breaks aside, the whole text with each paragraph's markers removed and its distinct ids listed after it |
| `ParagraphCitations.StreamedIsWhole` | src/dss/core/stream_response/citations.py:10-41 | Cut as it may be, no marker and no word is lost, moved past another or added; white space, and with it paragraph breaks, is not compared here |
| `StreamedBreaks.EveryCutKeepsBreaks` | src/dss/core/stream_response/citations.py:10-41 | With paragraph breaks compared: the streamed answer shows the paragraphs of the whole text if and only if no piece ends where a paragraph is torn from what it cites; otherwise it shows one paragraph more for each tear |
| `StreamedBreaks.ParagraphsDependOnTheCut` | src/dss/core/stream_response/citations.py:28-41 | It does happen: one text, whole and cut after its second marker, shows two paragraphs and three |
| `StreamedBreaks.HeldBreakIsDropped` | src/dss/core/stream_response/citations.py:38-41 | It does happen: "a[1]" and a paragraph break, in one piece, goes out without the break |
| `TearableTexts.TextKeepsBreaks` | src/dss/core/stream_response/citations.py:10-41 | A text shows the same paragraphs under every cut if and only if no cut of it leaves a paragraph torn and no citing paragraph is followed by four newlines or more |
| `TearableTexts.SomeCutTears` | src/dss/core/stream_response/citations.py:10-41 | Any other text is torn by some cut into at most three pieces |
| `TearableTexts.CutGoesOn` | src/dss/core/stream_response/citations.py:10-14 | Where a text is cut for holding moves only on as more text comes |
| `ParagraphBreaks.OnePieceIsExact` | src/dss/core/stream_response/citations.py:16-41 | Any text, in one piece: the output is the whole-text rule to the letter, white space too, if and only if the paragraph that goes on into what is held cites nothing, or what is held is no break and is stripped alike with and without that paragraph |
| `ParagraphCitations.CutIsSafe` | src/dss/core/stream_response/citations.py:12 | Where a piece is cut for holding, neither a marker nor a paragraph break is torn, whatever comes next |
| `ParagraphCitations.CiteParagraphs` | src/dss/core/stream_response/citations.py:30-37 | The paragraphs ended in a piece are cited, the last goes on |
| `MarkerTexts.MarkerGoes` | src/dss/core/stream_response/citations.py:9-10 | A marker goes, and with it the space before it |
| `MarkerTexts.OtherStays` | src/dss/core/stream_response/citations.py:9-10 | Where neither begins, the character stays |
| `MarkerTexts.MarkerIsCited` | src/dss/core/stream_response/citations.py:10 | A paragraph cites what its markers name, in order |
| `MarkerTexts.MarkerIsToken` | src/dss/core/stream_response/citations.py:60-78 | The scan finds a marker wherever it stands |
| `MarkerTexts.OtherIsToken` | src/dss/core/stream_response/citations.py:60-78 | What begins no marker is a character of the text |
| `MarkerTexts.CitedAtEnd` | src/dss/core/stream_response/citations.py:16-19 | What is cited goes behind the text less the white space at its end, a space before it, each id in brackets |
| `MarkerTexts.SplitAtFirst` | src/dss/core/stream_response/citations.py:28 | A text is split at its first break and the rest likewise |
| `Visibility.StreamRevealsExactlyPlainTags` | src/dss/core/redaction/visibility.py:26-39 | For every list of pieces the joined output equals `reveal` of the joined pieces, if and only if every tag held is written in `[a-z0-9_]` |
| `Visibility.StreamedIsRevealed` | src/dss/core/redaction/visibility.py:101-124 | With such tags half a held tag is never emitted, for every cut |
| `Visibility.CutInsideTag` | src/dss/core/redaction/visibility.py:26-28 | A tag with a digit of another script matches `TAG` and not `_OPEN_TAG`: cut inside it, it goes out unrevealed |
| `Visibility.RevealAcross` | src/dss/core/redaction/visibility.py:35-39 | Revealing a text is revealing its halves, across any cut where nothing is open |
| `TagTexts.TagIsShown` | src/dss/core/redaction/visibility.py:26-39 | A tag with a name of small letters, digits and underscores and a number becomes its value, if it is held, wherever it stands |
| `TagTexts.OtherIsShown` | src/dss/core/redaction/visibility.py:35-39 | Everything else stays |
| `Visibility.StreamReveal.Feed` | src/dss/core/redaction/visibility.py:112-120 | One step: the text before an open tag revealed, the open tag held |
| `Visibility.StreamReveal.Flush` | src/dss/core/redaction/visibility.py:122-126 | What is held goes out as it is |
| `RedactReveal.RunThenReveal` | src/dss/core/redaction/service.py:38-76 | Over a whole run: where nothing between the spans looks like a tag, revealing a redacted text gives the original with each kept span in its first-seen spelling and each other as its tag; and everything held is safe to stream |
| `RedactReveal.RedactThenReveal` | src/dss/core/redaction/service.py:46-76 | The same for one text of a run |
| `RedactReveal.RedactThenRevealIsIdentity` | src/dss/core/redaction/service.py:46-76 | The identity when every entity is kept and every first spelling equals its slice |
| `RedactReveal.RevealRedacted` | src/dss/core/redaction/visibility.py:35-39 | With no condition: a redacted text is revealed part by part, no tag straddling a segment edge |
| `RedactReveal.Redact` | src/dss/core/redaction/service.py:38-76 | Each text with its resolved spans replaced by the tags of one numbering over all texts |
| `Redaction.AllTagged` | src/dss/core/redaction/service.py:46-72 | After any spans: every key has one tag numbered within its entity, no two keys share one, and what is held is each kept key's first value |
| `Redaction.SameTagSameKey` | src/dss/core/redaction/service.py:56-66 | Two spans share a tag exactly when entity and normalised value agree |
| `Redaction.NumberedInTurn` | src/dss/core/redaction/service.py:56-66 | The next new value of an entity gets the number after those it has; a value seen before keeps its tag |
| `Redaction.KeptEntities` | src/dss/core/redaction/models.py:35-36 | A value is held for the entities the policy says to keep and for no other |
| `Redaction.CheckedSpan` | src/dss/orchestration/redaction.py:105-115 | A span passes if it lies in the text, holds something, and its entity is fit for a tag |
| `Normalise.OneFormOfANumber` | src/dss/core/redaction/normalise.py:70-80 | A number of ten digits has one form, however it is spaced and with or without a code in front |
| `Redaction.TagInjective` | src/dss/core/redaction/service.py:62-64 | Tags are injective in entity and number |
| `Redaction.TagIsTag` | src/dss/core/redaction/visibility.py:26 | Every tag made matches `TAG` whole |
| `Redaction.FoundCounts` | src/dss/core/redaction/service.py:67-68 | `found` counts the spans replaced, by entity |
| `Redaction.HeldTagsArePlain` | src/dss/core/redaction/service.py:46-76 | Every held tag is one the stream can hold back |
| `Resolve.KeptIsGreedy` | src/dss/core/redaction/resolve.py:15-24 | A span is kept if and only if no kept span ranked above it (longer, or as long and listed earlier) overlaps it; each once, in text order |
| `Resolve.AboveBy` | src/dss/core/redaction/resolve.py:15-24 | The longer span ranks above, and of two as long the one listed earlier |
| `Resolve.ApartShareNothing` | src/dss/core/redaction/resolve.py:15-24 | Spans do not overlap exactly when they share no character |
| `Resolve.GreedyIsUnique` | src/dss/core/redaction/resolve.py:15-24 | There is only one such choice |
| `Resolve.ResolvedInTextOrder` | src/dss/core/redaction/resolve.py:15-24 | The spans kept never overlap |
| `Resolve.ResolveSpans` | src/dss/core/redaction/resolve.py:15-24 | The loop computes that choice |
| `RedactTexts.RedactAll` | src/dss/orchestration/redaction.py:46-94 | Whatever order the identifiers finish in: spans merged in config order, the failed named in one order, the texts redacted from those |
| `RedactTexts.MergedInOrder` | src/dss/orchestration/redaction.py:84-89 | Each identifier's spans stand together behind those of the ones the config lists before it |
| `RedactTexts.FailedSorted` | src/dss/orchestration/redaction.py:84-94 | The failed are named alike under every completion order |
| `Normalise.OnlyGapsAreRemoved` | src/dss/core/redaction/normalise.py:25-67 | For any gap pattern: offsets strictly increase, and between neighbours in the shadow there is nothing, or separators with a digit on either side, no more than a gap may hold where no separator is a digit |
| `Normalise.RemovedExactly` | src/dss/core/redaction/normalise.py:25-67 | Where no separator is a digit, a character goes if and only if it is in a run of separators, no longer than a gap may be, between two digits |
| `Normalise.NoPatternJoinsNothing` | src/dss/core/redaction/normalise.py:25-35 | `None` is given for a pattern exactly where the pattern would join nothing in any text |
| `Normalise.JoinOfSlice` | src/dss/core/redaction/normalise.py:46-67 | For any gap pattern, joining the original slice given by `map_to_original` returns the shadow slice |
| `Normalise.JoinNumberGaps` | src/dss/core/redaction/normalise.py:52-67 | The loop over the matches computes the shadow and its offsets for the pattern given; none joins nothing |
| `Conceal.ConcealText` | src/dss/core/redaction/visibility.py:65-88 | Ordered disjoint echoes of held values are replaced by their tags and nothing else changes; an echo found is replaced if and only if no replaced one overlaps it and outranks it: by an earlier start, then by length, then by a tag held earlier; and over the start of every place where a held value stands lies a stretch of its tag that is replaced, or overlaps one replaced that outranks it |
| `Conceal.EveryPlaceFound` | src/dss/core/redaction/visibility.py:75-77 | What is found for one value is in order and disjoint, and lies over the start of every place where it stands |
| `ConcealedPlaces.HiddenExactly` | src/dss/core/redaction/visibility.py:65-98 | Whatever else is held and whatever the text, something is replaced across every place where a value stands, if and only if the value cannot overlap itself; the alphabet is one whose digits are word characters and whose letters are so in either case |
| `ConcealedPlaces.SomeValueOverlapsItself` | src/dss/core/redaction/visibility.py:65-98 | It can fail: "a a" stands twice in "a a a" |
| `Conceal.ConcealedOneWay` | src/dss/core/redaction/visibility.py:76-88 | That rule has one outcome, so it fixes what goes out |
| `Conceal.OutranksBy` | src/dss/core/redaction/visibility.py:82-83 | The earlier start outranks, then the longer stretch, then the tag held earlier |
| `Conceal.NumberStands` | src/dss/core/redaction/visibility.py:91-97 | A number with a code stands where its ten digits do, alone or behind a plus sign or two zeros and one to three digits |
| `Conceal.ValueStands` | src/dss/core/redaction/visibility.py:98 | Any other value stands where it is written, letters equal up to case |
| `Conceal.StandsApart` | src/dss/core/redaction/visibility.py:91-98 | Neither stands next to a word character, nor a number behind a plus sign |
| `Conceal.EchoReads` | src/dss/core/redaction/visibility.py:91-98 | An echo is where the text, gaps joined, reads as the value it is replaced for; for a national number, as its last ten digits after a country code or nothing |
| `Conceal.TakeApart` | src/dss/core/redaction/visibility.py:76-88 | The loop over the sorted echoes takes disjoint ones, and across each it leaves one that outranks it |
| `Nearest.NearestInFile` | src/dss/adapters/area_lookup/csv_lookup.py:173-202 | None exactly when no indexed place is within `max_km`; else one minimal under distance, then the shorter chain, over the whole file |
| `Nearest.NearestPlace` | src/dss/adapters/area_lookup/csv_lookup.py:173-202 | The ring search ends, refines the full scan of the grid and reads no square twice |
| `Nearest.ReadRing` | src/dss/adapters/area_lookup/csv_lookup.py:181-196 | A ring's squares are read, each once |
| `Nearest.UnreadIsFurther` | src/dss/adapters/area_lookup/csv_lookup.py:196-201 | When the search stops, every place not read is beyond `max_km` or strictly further than the best |
| `Nearest.WorthWhile` | src/dss/adapters/area_lookup/csv_lookup.py:181-196 | A ring is read only where a place in it could be near enough; once it is not, neither could one beyond |
| `Nearest.CloserBy` | src/dss/adapters/area_lookup/csv_lookup.py:185-199 | The nearer is closer; of two as near, the one with the shorter chain |
| `AreaLookup.BuildGrid` | src/dss/adapters/area_lookup/csv_lookup.py:84-101 | Each row is in its own square once despite its aliases, and no row is missed |
| `AreaLookup.AddToGrid` | src/dss/adapters/area_lookup/csv_lookup.py:88-101 | Adding a row keeps every square without repeats |
| `QualifiedNames.QualifiedBy` | src/dss/adapters/area_lookup/csv_lookup.py:218-237 | The walk from the bisect point returns the areas of every key with the prefix, in key order |
| `QualifiedNames.WalkIsWhole` | src/dss/adapters/area_lookup/csv_lookup.py:218-237 | No key outside the walk has the prefix |
| `QualifiedNames.FilteredSifts` | src/dss/adapters/area_lookup/csv_lookup.py:218-237 | What filtering gives is the keys with the prefix, every one, in order |
| `QualifiedNames.PrefixBlock` | src/dss/adapters/area_lookup/csv_lookup.py:107-114 | Keys sharing a prefix form one contiguous block of code-point order |
| `QualifiedNames.BisectLeft` | src/dss/adapters/area_lookup/csv_lookup.py:225-230 | The bisect point splits the keys |
| `Arguments.ValidateArguments` | src/dss/core/planner/validation.py:319-354 | Accepts exactly the bodies that pass every check, and reads values path by path until one is refused |
| `ArgumentChecks.AcceptedIsSafe` | src/dss/core/planner/validation.py:319-354 | In an accepted body whose keys are no paths, empty keys included, every scalar lies at a filterable path or under a nested one, and a path with an enum holds a listed text and nothing deeper |
| `Arguments.ShapesAre` | src/dss/core/planner/validation.py:209-238 | A field the pack types as a list is sent as a list, and one it types as an object as an object; no other is refused for its shape |
| `Arguments.NoKeyIsPath` | src/dss/core/planner/validation.py:327-335 | No key of the body itself has a dot or a list mark in it |
| `ArgumentChecks.FieldLeafCaught` | src/dss/core/planner/validation.py:137-195 | Flattening names a path at or above every scalar |
| `ArgumentReads.FlattenedIsReadWhole` | src/dss/core/planner/validation.py:137-195 | Whatever is filterable, every flattened string of a body whose keys are no paths reads as every scalar at or under its place and no other, if and only if no object in a list in a list holds a scalar, but right under an empty key, and no empty key stands beside another scalar |
| `ArgumentReads.WholeInOrder` | src/dss/core/planner/validation.py:277-316 | What is read whole is read in order, as often as it is there; where a path ends in no empty name the two are the same |
| `ArgumentReads.EmptyKeyReadsItsObject` | src/dss/core/planner/validation.py:277-316 | An empty key flattens to "a.", which reads as the object around it |
| `ArgumentReads.ReadsBySpelling` | src/dss/core/planner/validation.py:277-316 | Whatever the keys, what is read at any string is the scalars at or under the path it spells that are not behind an object in a list in a list, each once, in order, and no other |
| `ArgumentReads.FlattenedPath` | src/dss/core/planner/validation.py:137-195 | Every flattened string spells a path that ends in a name |
| `ArgumentChecks.AllowedBelow` | src/dss/core/planner/validation.py:245-274 | An enum that passes at a path passes for every scalar there, and none is deeper |
| `ArgumentChecks.ScalarNeedsItsOwnPath` | src/dss/core/planner/validation.py:293-354 | A scalar anywhere in a body has it rejected unless its own path, or a nested path above it, is filterable, whatever the other items of its lists hold |
| `ArgumentChecks.OwnPathOnly` | src/dss/core/planner/validation.py:293-303 | For a key sent as a scalar in one item of a list that is its own shallow path and no other |
| `ArgumentChecks.BothOrdersHoldTheScalar` | src/dss/core/planner/validation.py:293-303 | In either order of the scalar item and the list item |
| `ArgumentChecks.ListFirstIsRead` | src/dss/core/planner/validation.py:293-303 | With the list item first the deep path is read, through the guard against a value that is no list, before the shallow one is refused |
| `ArgumentChecks.PlainFirstIsNotRead` | src/dss/core/planner/validation.py:293-303 | With the scalar item first the shallow path is refused before anything is read |
| `ArgumentChecks.DottedKeyEscapesItsEnum` | src/dss/core/planner/validation.py:327-335 | Only top-level keys are checked for looking like paths: a nested dotted key is accepted with a value its enum forbids |
| `ArgumentReads.EnumEscapesExactly` | src/dss/core/planner/validation.py:245-354 | For any keys, a scalar, and a place at or above it whose string is flattened in an accepted body: some enum on that string lets the body through without holding for the scalar if and only if the string spells another place, and there stand a text or a list of texts, none of them the scalar |
| `ArgumentReads.EnumsKeptExactly` | src/dss/core/planner/validation.py:245-354 | Over all enums: each that lets an accepted body through holds for every scalar it is put on, if and only if no scalar of the body is such |
| `ArgumentReads.FieldNamesNeverEscape` | src/dss/core/planner/validation.py:245-354 | In a body whose keys are no paths none is |
| `ArgumentReads.DottedKeyIsElsewhere` | src/dss/core/planner/validation.py:277-316 | A nested dotted key is: its string spells the names of another value |
| `ArgumentReads.NestedListIsNotRead` | src/dss/core/planner/validation.py:277-316 | An object in a list in a list flattens to "a[].b", which reads as nothing |
| `ArgumentPaths.ReadsAsSpelt` | src/dss/core/planner/validation.py:277-316 | Reading by any string follows the path its parts between dots spell |
| `ArgumentPaths.RenderSpells` | src/dss/core/planner/validation.py:277-316 | A path whose names are no paths spells itself, less an empty name at its end |
| `Planner.PlannerDeps.Select` | src/dss/orchestration/planner.py:85-193 | Unless the verdict is PROCEED and the checks pass, nobody is called and nothing changes. Else the first candidate of the name is called and no other, or, where a ranking applies, every candidate of its type in candidate order, each once; what each sent is what is kept of it, and the first that returned data answers, whatever order the calls finish in |
| `Planner.PlannerDeps.SelectNext` | src/dss/orchestration/planner.py:196-208 | The next choice's answers replace the ask's own; with none left nothing changes |
| `Planner.PlannerDeps.ReplaceAnswers` | src/dss/orchestration/planner.py:225-234 | Other asks' answers stay, in order |
| `Planner.PlannerDeps.NothingCameBack` | src/dss/orchestration/planner.py:353-382 | One failure for each provider that errored |
| `Planner.ConsultAll` | src/dss/orchestration/planner.py:263-309 | The outcomes keep candidate order under every completion order |
| `Planner.NextChoices.HoldAfter` | src/dss/core/provider_preferences/next_choice.py:37-43 | Those after the chosen one that returned data wait, best first |
| `Planner.NextChoices.Take` | src/dss/core/provider_preferences/next_choice.py:45-52 | The next choice, removed |
| `Planner.UsesThoseThatAnswered` | src/dss/orchestration/planner.py:184-208 | Over every run of a select and fallbacks, with other asks served in between: the resources used are those that returned data, in consulted order, and the stored answers are the last one's alone |
| `Planner.FallbacksGoDown` | src/dss/core/provider_preferences/next_choice.py:45-52 | Fallbacks go down the waiting choices one by one, then change nothing |
| `Planner.FallbackReplaces` | src/dss/orchestration/planner.py:225-234 | After a fallback the ask holds one resource's answers; other asks and the failures are untouched |
| `Planner.OthersUntouched` | src/dss/orchestration/planner.py:184-208 | A call for one ask leaves every other ask as it was |
| `Planner.AnsweredInRankOrder` | src/dss/orchestration/planner.py:155-260 | Under a ranking, with the candidates as it leaves them, what `select` consults answers best-ranked provider first |
| `Planner.NoneConsultedTwice` | src/dss/orchestration/planner.py:155-260 | Where no resource is a candidate twice, `select` has none answer twice |
| `Planner.GoesAheadWhen` | src/dss/orchestration/planner.py:106-148 | A call goes ahead if and only if the turn is cleared and the first candidate of the name has a schema, the place it needs and arguments it accepts |
| `Planner.FailureOfEach` | src/dss/orchestration/planner.py:372-382 | A provider that gave up is recorded with what it said, or its status where it said nothing |
| `Planner.MoreToTry` | src/dss/orchestration/planner.py:353-400 | There is more to try exactly when some candidate's resource was not consulted |
| `Planner.NoneUsedTwice` | src/dss/core/provider_preferences/next_choice.py:37-43 | No resource is used twice |
| `Planner.WaitingWasConsulted` | src/dss/core/provider_preferences/next_choice.py:37-52 | Over any run, what waits for an ask was consulted for it and returned data |
| `Planner.OnlyEmptySelectsFail` | src/dss/orchestration/planner.py:353-382 | A run records exactly the failures of the selects that came back with nothing |
| `Preferences.RankingGoverns` | src/dss/core/provider_preferences/service.py:47-95 | With a ranking an ask's capabilities are exactly the ranked providers', provider by provider, and its answers one best-ranked provider's; without one the ask is unchanged; the key sets never change |
| `Preferences.OrderedIsBlocks` | src/dss/core/provider_preferences/service.py:121-133 | The stable sort by rank is the concatenation, in rank order, of each ranked provider's items as they came |
| `Preferences.ItemsSift` | src/dss/core/provider_preferences/service.py:121-133 | A provider's items are those it gave, and the ranked ones those of providers the ranking names, in order |
| `Preferences.BestProviderIsBest` | src/dss/core/provider_preferences/service.py:136-153 | The answers left are all of one provider's, and no ranked provider with answers is above it |
| `Preferences.KeptOrDropped` | src/dss/core/provider_preferences/service.py:156-182 | Kept and dropped partition the providers found |
| `Preferences.PriorityAccounts` | src/dss/core/provider_preferences/service.py:98-118 | The same of an ask's record |
| `Preferences.CapabilitiesAsRecorded` | src/dss/core/provider_preferences/service.py:98-166 | The providers of an ask's capabilities come in the order its record keeps them if and only if the ranking names none of them twice |
| `Preferences.AnswersAsRecorded` | src/dss/core/provider_preferences/service.py:98-166 | The same of its answers, whose first provider in rank order is served alone |
| `Preferences.NamedTwice` | src/dss/core/provider_preferences/service.py:98-166 | A ranking A, B, A uses B first and records A twice |
| `DiscoveryResults.DiscoverProviders` | src/dss/core/provider_discovery/service.py:236-272 | Under every completion order: each distinct query sent once, one entry for every ask in ask order, holding the reply to a query that says what the ask says, less the answers outside their validity, or nothing where it is not searched; and the events, of unresolved asks, dropped answers, diverged categories and outcomes, in that order |
| `Discovery.QuerySays` | src/dss/core/provider_discovery/service.py:62-118 | A query carries its ask's category, the types listed for its category and action and the turn's languages, and is sent around the ask's own place if and only if it has one and every type is bound to places |
| `Discovery.SearchedAsks` | src/dss/core/provider_discovery/service.py:144-178 | An ask is searched unless its place failed, or it names no type and is not about a scheme |
| `DiscoveryResults.HandedOnInTime` | src/dss/core/provider_discovery/models.py:107-114 | What is handed on is the answers with no window and those inside theirs |
| `DiscoveryResults.LeftInOrder` | src/dss/core/provider_discovery/models.py:258-264 | In the order they came |
| `DiscoveryResults.DroppedAs` | src/dss/core/provider_discovery/models.py:266-279 | A dropped answer is reported as what it was, and whether a provider of its name offers its type on demand |
| `DiscoveryResults.OutcomeOfEach` | src/dss/core/provider_discovery/models.py:281-301 | An ask's outcome is each of its failures, or that nothing was found for it, or nothing |
| `DiscoveryResults.ExpectedOf` | src/dss/core/provider_discovery/service.py:120-128 | A category is expected of a type where some action makes the pair one the index lists the type for |
| `DiscoveryResults.DivergenceIsCounted` | src/dss/core/provider_discovery/service.py:120-233 | A category is reported as often as an answer still valid, or a capability, of its type was published under it, where no interaction of the packs leads from it to the type; no other is |
| `DiscoveryResults.EveryAnswerAccounted` | src/dss/core/provider_discovery/models.py:272-292 | Every answer is handed on or reported dropped, once |
| `DiscoveryResults.BuildResult` | src/dss/core/provider_discovery/models.py:332-348 | An entry for every ask, in ask order, whatever order the unsearchable ones are listed in |
| `Discovery.FindAsks` | src/dss/core/provider_discovery/service.py:144-178 | Searched and unsearchable asks partition the asks |
| `Discovery.SendQueries` | src/dss/core/provider_discovery/service.py:181-207 | The replies, ask by ask, in ask order; no trace of the completion order |
| `Discovery.SortedReplies` | src/dss/core/provider_discovery/service.py:199-207 | Sorting the replies handed out query by query gives each ask its own |
| `Discovery.UniqueQueriesAre` | src/dss/core/provider_discovery/models.py:149-160 | Each different query once |
| `Forms.ValidIsSentWhole` | src/dss/core/forms/service.py:546-567 | A valid submission never misses a value, and where the paths stay clear of each other and of the schema's own keys the body holds exactly each path's own value and the schema's own keys |
| `Forms.SentFromItsSource` | src/dss/core/forms/service.py:538-567 | There a fixed path reads back as the pack's first listed value, a provider path as the desk's id or name, and a farmer's path as what was put down for it |
| `Forms.ValidNeverMisses` | src/dss/core/forms/service.py:558-567 | A valid submission has every value the call needs |
| `Forms.ValidExactlyWhen` | src/dss/core/forms/service.py:313-412 | No errors if and only if no name is sent twice, every name is on the form and every field keeps its rules |
| `Forms.ReportedExactly` | src/dss/core/forms/service.py:313-412 | What is reported, and nothing else: a name sent twice; a name on no field; and of each other field of the form the first rule that what was put down for it breaks, in the order the rules are listed |
| `Forms.FormAsksForFarmerPaths` | src/dss/core/forms/models.py:134-170 | The form asks for exactly the farmer's paths and requires each |
| `Forms.AskedAs` | src/dss/core/forms/models.py:134-170 | A field asks what the pack says of it: its pattern, its lengths and its options |
| `Forms.ReadField` | src/dss/core/forms/service.py:260-305 | A field is refused exactly for an unknown provider path or an unreadable pattern; a fixed one has its value |
| `Forms.ProviderPaths` | src/dss/core/forms/service.py:538-543 | The provider fills its id and its name |
| `Forms.BuildActionAttributes` | src/dss/core/forms/service.py:546-567 | The body filled path by path, unless a value is missing or a path blocked |
| `Forms.WithoutFarmerValues` | src/dss/core/forms/service.py:570-581 | What is handed back is made of dictionaries of its own, with nothing at or under a farmer's path, every other leaf as it was and none new; the argument's own dictionaries stay as they were |
| `Forms.EchoIsStripped` | src/dss/core/forms/service.py:570-581 | A reply that echoes the whole call is left with every value sent but those the farmer typed |
| `FormBodies.FillFails` | src/dss/core/forms/service.py:599-604 | Filling fails if and only if a path goes on below an earlier one or below one of the schema's own keys |
| `FormBodies.FillReads` | src/dss/core/forms/service.py:599-604 | A path reads back its value unless a later path is it or a part of it |
| `FormBodies.ClearFills` | src/dss/core/forms/service.py:546-555 | Clear paths all fill, and the leaves are exactly theirs and the schema's own |
| `FormBodies.DeleteAllReads` | src/dss/core/forms/service.py:577-581 | Deleting paths one after the other removes exactly what is at or below any of them |
| `DictObjects.DeepCopy` | src/dss/core/forms/service.py:577 | The copy holds the same tree and shares no dictionary with the original |
| `DictObjects.DeleteAt` | src/dss/core/forms/service.py:584-596 | In place, the walk down, the pop and the walk up through `nodes.index` compute the recursive deletion and change no object outside the body |
| `DictObjects.WalkDown` | src/dss/core/forms/service.py:584-591 | The dictionaries on the way to the last key, from the body down, or that there are none |
| `DictObjects.DropKey` | src/dss/core/forms/service.py:592 | The pop changes one dictionary, and the tree at its path alone |
| `DictObjects.ClimbOne` | src/dss/core/forms/service.py:593-596 | A dictionary left empty is dropped from the one above it, and the rest of the tree stays |
| `Trees.NotInsideItself` | src/dss/core/forms/service.py:594-596 | A dictionary never equals one inside it |
| `DictObjects.IndexOfNode` | src/dss/core/forms/service.py:594-596 | So `nodes.index`, which compares by value, finds the right dictionary |
| `Trees.DeleteReads` | src/dss/core/forms/service.py:584-596 | Exactly what is at or below the path goes |
| `Trees.SetReads` | src/dss/core/forms/service.py:599-604 | After setting: the value at the path, dictionaries above it, everything beside it as it was |
| `Trees.SetFails` | src/dss/core/forms/service.py:599-604 | Setting fails exactly where a parent is there and is no dictionary |
| `FormPacks.BuildFormRegistry` | src/dss/core/forms/service.py:83-96 | Never raises; a form is served for a context if and only if some schema is for it and its scheme is not challenged, and it is the first pack's |
| `FormPacks.RegisterServable` | src/dss/core/forms/service.py:123-150 | Every schema is served or skipped, exactly once: those skipped are listed in strictly ascending order, each for its reason, and the rest are served |
| `FormPacks.FormRegistry.Register` | src/dss/core/forms/registry.py:24-37 | Raises exactly on two schemas for one context; forms and schemas stay in step |
| `FormPacks.FormRegistry.Find` | src/dss/core/forms/registry.py:39-43 | A form found is the one cut from the schema of its context |
| `Language.SameTag` | src/dss/core/shared/language.py:35-101 | Two values give one tag exactly when they differ in letter case only |
| `Language.CasedByShape` | src/dss/core/shared/language.py:77-101 | Before any singleton a script is in title case and a region in capitals; nothing else has a capital |
| `Language.AcceptedShape` | src/dss/core/shared/language.py:20-43 | What is accepted is two or three letters and then subtags of one to eight letters or digits |
| `Language.CasedTwice` | src/dss/core/shared/language.py:77-101 | Standard casing is idempotent |
| `Language.CasedPrefix` | src/dss/core/shared/language.py:77-91 | A shorter form of a cased tag is cased already |
| `Language.TagIsItself` | src/dss/core/shared/language.py:35-43 | A string is a tag in standard form exactly when normalising it gives itself back |
| `Language.LookupOrderIs` | src/dss/core/shared/language.py:58-69 | The order holds exactly the tag and its shorter forms, each normalised, none ending on a singleton |
| `Language.LookupShortens` | src/dss/core/shared/language.py:58-69 | Strictly shortening, down to the primary subtag |
| `Language.IsWithinIsAnOrder` | src/dss/core/shared/language.py:71-74 | `is_within` is a partial order on tags |
| `Covered.CoveredTicks` | benchmarks/traces.py:150-167 | The total is the size of the union of the spans, overlaps counted once |
| `Covered.UnionOfSame` | benchmarks/traces.py:150-167 | It does not depend on the order of the spans |
| `Evidence.AssembleEvidence` | src/dss/core/planner/evidence.py:98-128 | Sources numbered from 1 in first-seen order, each as its first answer gives it; each result cites its own origin's |
| `Evidence.OneSourcePerOrigin` | src/dss/core/planner/evidence.py:86-96 | Two results cite one source exactly when they have one origin |
| `Evidence.NamedAfter` | src/dss/core/planner/evidence.py:86-96 | A source goes by its author's name, or by its provider's where none is given |
| `Evidence.RejectStray` | src/dss/core/planner/evidence.py:168-180 | Raises exactly where a result, a failure or an awaited form names an ask the turn has not |
| `Evidence.GroupByAsk` | src/dss/core/planner/evidence.py:138-165 | Raises exactly on such a stray ask; else each ask has its own results and failures, in order, and its own awaited form |
| `Evidence.NoneStray` | src/dss/core/planner/evidence.py:168-180 | Nothing is stray exactly when every part names an ask of the turn |
| `Evidence.OfAskSifts` | src/dss/core/planner/evidence.py:155-163 | An ask's parts are those that name it, in order |
| `Evidence.EveryPartGrouped` | src/dss/core/planner/evidence.py:138-165 | Every result and every failure is in one group, once |

## Left out

- I/O: HTTP, event framing, Redis, tracing, logging, metrics and the network. Providers, discovery, the composer, the translator and identifiers are parameters that may answer anything.
- Cancellation and exceptions other than the ones named: a defect that ends a turn ends it outside the model.
- Unicode tables: which characters are digits, white space or word characters, lower-casing and case folding are parameters with only the properties the code relies on.
- `_status_for` and the outcome tables: the outcome of a turn is a parameter.
- `reveal` and `conceal_body` over nested bodies: they apply the text case to each string.
- Case and spacing by which an echo is no match of its pattern (`\w` next to it, three separators in a row): what counts as a held value standing in a text is what `_echo` matches.
- The regular-expression identifier: its rules are configuration. Its joining of number gaps is modelled for every gap pattern.
- Great-circle arithmetic: distance is abstract, with the bound that a place r squares out is at least (r-1) squares' width away. That the bound holds for the real distance is not shown.
- Place resolution by name (`resolve`, `_regions`, `country_codes`): one-branch lookups; only the prefix walk and the nearest search are modelled.
- Covered.CoveredTicks: counts whole ticks, so floating-point seconds are not modelled, and asks each span to end no earlier than it starts.
- Which ranking governs an ask (sender over default, names compared case-folded): the rankings are given ask by ask.
- Provider code, host ids and advertised vocabularies of a capability: carried along unread.
- `resource_attributes` sent to a provider and the rendered markdown: a provider's reply is any function of the candidate and its place in the call.
- FormBodies.FillFails: is on values: a call's body is filled before anyone else holds it. What a half-filled body holds when filling fails is not modelled, as it is never returned.
- Reading a pack's YAML (`_read_pack`, `$ref` resolution, labels and kinds of fields): parsing with no law of its own. Patterns are matched by a parameter.
- ArgumentReads.FlattenedIsReadWhole: is for bodies whose keys are no paths and stand once in their object. What a string reads in any body is `ArgumentReads.ReadsBySpelling`.
- ArgumentChecks.AcceptedIsSafe: says nothing of empty objects, which flatten to no path.
- Language tags are accepted in the shape the code accepts, which is wider than the grammar of RFC 5646.
- Error messages, schema defaults and the wording of replies.
