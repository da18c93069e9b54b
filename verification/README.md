# Verified model of libparsex and parsex-mcp

This project models the parts of libparsex (an AUTOSAR ARXML parser, writer,
differ, validator and exporter) and of parsex-mcp whose correctness spans
several functions, and proves what they are for.

- **Span-tracking loader.** `RawBytes`, `Scanner`, `Loader` follow the raw-byte
  scanner and the SAX callbacks; `Markup` is an independent printer of XML
  documents with arbitrary attributes, comments, processing instructions,
  CDATA sections and declarations, and `ExactSpans` proves that loading a
  printed document recovers exactly its elements' byte ranges. `Laminar` and
  `LineIndex` say what holds for arbitrary bytes. `QuietText` says on the units
  alone which text between tags the scanner crosses; `MarkupLimits` follows two
  kinds of well-formed documents it misreads through to the load.
- **Diff engine.** `DiffReport`, `DiffMatch`, `DiffFields`, `DiffMoves`,
  `DiffEngine` follow the four stages; `DiffListing` characterises the final
  report without stages; `DiffLaws`, `DiffDiagnostics` and `DiffFieldLaws`
  derive conservation, exact moves and diagnostics, determinism and the mirror
  law from that.
- **Write, reparse, diff.** `Numbers`, `XmlTree`, `ModelBuilder` are the reader,
  `WriteElements` and `WriteEngine` the writer; `ReadBack`, `Reparse`,
  `Survival` and `RoundTrip` prove when the round-trip diff is empty,
  `Canonical` that the written form is canonical, and `WrittenDocuments` states
  both on the bytes of any document that spells the written tree.
- **Lazy discovery.** `PreFilter`, `References` and `LazyDiscovery` follow the
  source; `DocumentReading` takes a printed document through loader and builder
  to the names it defines, `FilterCoverage`, `HiddenNames` and `PulledFiles` compare
  these with what the text filter sees, `ChainDocuments` and `LazyLimit` show
  the round limit tight.
- **CAN bit layout.** `CanBits`, `CanOverlap`, `CanNarrowing`.
- **State machines and text formats.** `AtomicWrite`, `SchemaCache`,
  `SpanStacks`, `JsonDepth`, `Csv`.

Imperative code is modelled by methods with loops and by classes with fields;
each is proved against a function, and the properties are lemmas about the
functions. `hide` statements keep proofs to the facts they need.

## Results a reader may not expect

- `skipDelimited` looks for a comment's terminator from the opening `<`, so a
  legal comment whose body starts with `>` or `->` is left early
  (`MarkupScan.CommentSkipped` is the exact condition, `MarkupLimits.CommentMisleadsLoad`
  the consequence, `MarkupLimits.HarmlessComment` says which comments do no harm).
  The comment at libparsex/src/loader.cpp:248-251 promises the first terminator of
  the construct; the model follows the code.
- `skipDeclaration` reads the comments and PIs of a DOCTYPE subset as declaration
  text, so an apostrophe in a comment can fail a well-formed document
  (`MarkupLimits.DontThrows`). `MarkupScan.DoctypeSkipped` is the exact condition
  on one DOCTYPE; it is on the whole text because a later literal may close a
  quote a comment opened. `MarkupScan.HarmlessNote` is the exact condition on one
  comment or PI, over all DOCTYPEs.
- Starts and lengths of 2^31 bits and more are narrowed to negative numbers before
  the overlap check and leave a signal without bits (`CanNarrowing.MissedInputs`);
  `CanNarrowing.AnswerIsRightIff` says when the check is right.
- The list of dropped fields at libparsex/src/write/write_elements.cpp:57-71
  leaves out CATEGORY on frames, PDUs, signals and groups and the byte order of
  PDU mappings; `Survival.Survives` is the complete condition. A category, unit,
  minimum or maximum that reads `nullopt` cannot be told from an absent one.
- The pre-filter's comment at libparsex/src/parser.cpp:152-157 rules out false
  negatives; a blank inside the start tag (`HiddenNames.SpacedTagIsMissed`) is one,
  and so is any spelling but the plain one (`FilterCoverage.SeenIffPlain`).
- The comment at libparsex/src/parser.cpp:539-541 says expansion already threw
  for what it could not find; the code leaves that to the final check, and so
  does the model.
- The cache entry is dropped after a failed write so that no hit misses its
  import (libparsex/src/schema_registry.cpp:159-162); when the removal fails as
  well, one does. `SchemaCache.AgreesWhateverFailsIffNoImports` says when that
  cannot happen.

## Model

| member | source | states |
|---|---|---|
| `RawBytes.UnitAsciiIsCodeUnit` | libparsex/src/loader.cpp:197-214 | reading ASCII at a byte offset is reading the code unit there, in all three encoding classes |
| `RawBytes.UnitsOfEncode` | libparsex/src/loader.cpp:197-214 | encoding code units to bytes and reading them back as units is the identity |
| `RawBytes.LineNumberAt` | libparsex/src/loader.cpp:432-454 | the loop returns one more than the number of line feed units before the offset |
| `RawBytes.LineOfMonotone` | libparsex/src/loader.cpp:432-454 | line numbers never decrease with the offset |
| `Scanner.MatchLiteral` | libparsex/src/loader.cpp:226-235 | true exactly when every unit of the literal stands at its place |
| `Scanner.SkipDelimitedUnit` | libparsex/src/loader.cpp:252-263 | ends past the first terminator found from the opening bracket on, or fails |
| `Scanner.SkipQuotedValue` | libparsex/src/loader.cpp:266-278 | ends past the next quote of the same kind, or fails |
| `Scanner.SkipDeclarationUnit` | libparsex/src/loader.cpp:282-303 | ends past the '>' at bracket depth zero, quotes respected, or fails |
| `Scanner.SkipSpecial` | libparsex/src/loader.cpp:309-327 | which of the four skippable units starts here and where it ends |
| `Scanner.ScanStartTag` | libparsex/src/loader.cpp:340-391 | bounds of the sought start tag after text and skippable units, every divergence an error |
| `Scanner.ScanEndTag` | libparsex/src/loader.cpp:395-426 | end of the sought end tag, with the same skipping and errors |
| `Loader.LoaderState.OnStartElement` | libparsex/src/loader.cpp:500-563 | the start callback makes one step of the load: cursor, stack, span, line |
| `Loader.LoaderState.OnCharacters` | libparsex/src/loader.cpp:564-575 | text joins the innermost open node |
| `Loader.LoaderState.OnEndElement` | libparsex/src/loader.cpp:577-592 | the end callback completes and closes the innermost node |
| `Loader.LoaderState.Replay` | libparsex/src/loader.cpp:500-592 | a whole event list replayed through the callbacks is the run of the state machine |
| `Loader.RunConcat` | libparsex/src/loader.cpp:500-592 | a run over two event lists is the run of the second from where the first ends |
| `MarkupScan.CommentSkipped` | libparsex/src/loader.cpp:252-263 | a comment is skipped to its printed end if and only if its body starts with neither '>' nor '->' |
| `MarkupScan.CommentRun` | libparsex/src/loader.cpp:309-327 | a comment that does close its opener is still passed over when no '<' follows in it |
| `MarkupScan.DoctypeSkipped` | libparsex/src/loader.cpp:282-303 | a DOCTYPE is skipped to its printed end if and only if its text, comments and PIs of the subset included, closes its quotes, balances its brackets and has no '>' outside them |
| `MarkupScan.HarmlessNote` | libparsex/src/loader.cpp:282-303 | a comment or PI in the subset never misleads the scan, whatever the DOCTYPE around it, if and only if its own units close their quotes and balance their brackets |
| `MarkupScan.PartsClose` | libparsex/src/loader.cpp:280-303 | quoted literals, nested brackets and any number of such comments and PIs close |
| `MarkupScan.StartTagFound` | libparsex/src/loader.cpp:340-391 | a printed start tag is found with its exact bounds, attributes holding '>' and '/' included |
| `MarkupScan.EndTagFound` | libparsex/src/loader.cpp:395-426 | a printed end tag is found with its exact end |
| `ExactSpans.LoadsExactly` | libparsex/src/loader.cpp:500-592 | every printable document loads without error into its own tree, and each node's span slices the bytes to exactly its element, in all encoding classes |
| `QuietText.SpecialIff` | libparsex/src/loader.cpp:309-327 | the scanner steps from a '<' to a place if and only if the text between is one comment, PI, CDATA section or declaration, by a definition on the units alone |
| `QuietText.ReachesIffQuiet` | libparsex/src/loader.cpp:340-391 | the scan reaches the tag behind a text if and only if the text is quiet: plain units and whole such pieces |
| `ExactSpans.LoadsIffQuiet` | libparsex/src/loader.cpp:500-592 | for any document of well-formed tags, whatever stands between them: the load is exact, every span included, if and only if the text before the root and between any two tags is quiet |
| `ExactSpans.LoadStarts` | libparsex/src/loader.cpp:500-563 | every load starts at the first markup the scan meets or ends with the scan's error |
| `ExactSpans.TwoByteOffsetsDouble` | libparsex/src/loader.cpp:197-454 | loaded from a two-byte encoding, a document gives twice the spans it gives loaded from one byte a unit |
| `MarkupLimits.LegalCommentAvoids` | libparsex/src/loader.cpp:252-263 | XML's own rule on comments leaves the opener as the only way to end one early |
| `MarkupLimits.HarmlessComment` | libparsex/src/loader.cpp:252-263 | a comment put anywhere into any good root element leaves the load exact if and only if the comment's own units are quiet |
| `MarkupLimits.LegalCommentQuietIff` | libparsex/src/loader.cpp:252-263 | a legal comment is quiet unless its body starts with '>' or '->' and what is left behind that is not |
| `MarkupLimits.CommentMisread` | libparsex/src/loader.cpp:252-263 | a legal comment starting with '>' is left early and its '<' taken for markup |
| `MarkupLimits.CommentMisleadsLoad` | libparsex/src/loader.cpp:252-263 | a document starting with such a comment fails to load or gets a root that starts inside the comment |
| `MarkupLimits.DoctypeQuoteThrows` | libparsex/src/loader.cpp:266-303 | a quote the DOCTYPE's text leaves open to the end of the file fails the load |
| `MarkupLimits.SubsetApostropheThrows` | libparsex/src/loader.cpp:280-303 | a comment of the subset with the file's last apostrophe in it fails the load |
| `MarkupLimits.DontThrows` | libparsex/src/loader.cpp:280-303 | a well-formed document of that kind |
| `Laminar.SpansAreLaminar` | libparsex/src/loader.cpp:500-592 | for any bytes and any allowed events the load fails or gives children strictly inside parents, siblings disjoint and ordered, lines exact and never decreasing |
| `LineIndex.CollectLineEntries` | libparsex/src/validator/validator_schema.cpp:35-42 | the pre-order list of line entries |
| `LineIndex.BuildLineIndex` | libparsex/src/validator/validator_schema.cpp:44-54 | an ordered rearrangement of that list |
| `LineIndex.IndexIsDocumentOrder` | libparsex/src/validator/validator_schema.cpp:44-54 | for a laminar tree the unstable sort leaves document order |
| `LineIndex.LoadedTreeIndex` | libparsex/src/validator/validator_schema.cpp:44-54 | so the index of any loaded tree is its document order, with rising offsets |
| `LineIndex.LowerBound` | libparsex/src/validator/validator_schema.cpp:56-63 | binary search: the first entry not below the line |
| `LineIndex.SpanForLine` | libparsex/src/validator/validator_schema.cpp:56-77 | a span of nearest line, the lower line on a tie; nothing for an empty index or a line below one |
| `Sorting.StableSortIsStable` | libparsex/src/write/write_ordering.cpp:18-32 | a stable sort keeps the order inside every equivalence class |
| `Sorting.SortedUnique` | libparsex/src/diff/diff_report.cpp:101-118 | an ordered rearrangement is unique when the order tells the items apart |
| `DiffMatch.IndexByPath` | libparsex/include/parsex/diff/diff_match.hpp:27-38 | the first element of each non-empty path |
| `DiffMatch.IndexHoldsFirst` | libparsex/include/parsex/diff/diff_match.hpp:27-38 | an index entry is the first element with its path, and every named path has one |
| `DiffMatch.MatchByPath` | libparsex/include/parsex/diff/diff_match.hpp:40-79 | removed paths, then added, then shared ones, each in path order |
| `DiffMatch.CollectElements` | libparsex/src/diff/diff_match.cpp:12-20 | all records of a type, file by file |
| `DiffMatch.MatchParsedProjects` | libparsex/src/diff/diff_match.cpp:24-52 | the six passes merged into one report |
| `DiffReport.Report.Merge` | libparsex/src/diff/diff_report.cpp:9-18 | both lists appended in order, the other report emptied |
| `DiffReport.Report.SortDeterministically` | libparsex/src/diff/diff_report.cpp:101-118 | some ordered rearrangement of entries and of diagnostics |
| `DiffFields.DiffStruct` | libparsex/include/parsex/diff/diff_fields.hpp:170-195 | the fields whose rendered texts differ, in order |
| `DiffFields.DiffNestedCollection` | libparsex/include/parsex/diff/diff_nested.hpp:22-62 | items only old, only new, then field changes of shared keys, each in key order |
| `DiffFields.DiffElements` | libparsex/include/parsex/diff/diff_nested.hpp:101-187 | per type: flat diffs with the keyed collections replaced by keyed diffs |
| `DiffMoves.GroupEntries` | libparsex/include/parsex/diff/diff_moves.hpp:56-78 | groups by secondary key hold exactly the positions of their removed and added entries |
| `DiffMoves.PairGroups` | libparsex/include/parsex/diff/diff_moves.hpp:80-111 | one-to-one groups rewritten in place, ambiguous ones reported |
| `DiffMoves.Compact` | libparsex/include/parsex/diff/diff_moves.hpp:112-125 | the entries left after erasing the paired added ones |
| `DiffMoves.DetectMovesForType` | libparsex/include/parsex/diff/diff_moves.hpp:47-126 | the in-place algorithm equals its description per entry |
| `DiffEngine.ApplyMoveDetection` | libparsex/src/diff/diff_moves.cpp:101-128 | move detection over the six types, in order, on any report |
| `DiffEngine.PopulateFieldDiffs` | libparsex/src/diff/diff_populate.cpp:83-130 | field diffs filled in, matches without differences dropped, moves kept |
| `DiffEngine.Diff` | libparsex/src/diff/diff_engine.cpp:10-31 | the four stages end in a possible diff of the two projects |
| `DiffListing.ReportIsExact` | libparsex/src/diff/diff_engine.cpp:10-31 | through all stages: an entry is in the report if and only if a stage-free description of the two indexes says so, and once |
| `DiffLaws.OldPathsConserved` | libparsex/include/parsex/diff/diff_match.hpp:40-79 | every old path is in exactly one of removed, moved, modified, unchanged |
| `DiffLaws.NewPathsConserved` | libparsex/include/parsex/diff/diff_match.hpp:40-79 | every new path is in exactly one of added, moved, modified, unchanged |
| `DiffLaws.ReportRebuildsPaths` | libparsex/include/parsex/diff/diff_moves.hpp:47-126 | old paths and report rebuild the new path set |
| `DiffLaws.MovesAreExact` | libparsex/include/parsex/diff/diff_moves.hpp:82-87 | p moved to q if and only if they alone share their secondary key |
| `DiffDiagnostics.DiagnosticIffAmbiguous` | libparsex/include/parsex/diff/diff_moves.hpp:88-110 | a type has a diagnostic if and only if some key has both sides but not one each |
| `DiffDiagnostics.DiagnosticsAreExact` | libparsex/include/parsex/diff/diff_moves.hpp:88-110 | in the finished report, one diagnostic per ambiguous key, naming the key and exactly its candidates |
| `DiffLaws.SortKeyTellsApart` | libparsex/src/diff/diff_report.cpp:87-118 | within a type no two reported entries share a sort key |
| `DiffLaws.DiffIsDeterministic` | libparsex/src/diff/diff_report.cpp:101-118 | the report depends only on the path indexes, in spite of the unstable sort |
| `DiffFieldLaws.ElementMirror` | libparsex/include/parsex/diff/diff_nested.hpp:22-187 | comparing elements the other way round swaps every old and new value, as multisets |
| `DiffLaws.MirrorLaw` | libparsex/src/diff/diff_populate.cpp:83-130 | the opposite diff is the mirror image, entry by entry, as multisets |
| `DiffDiagnostics.DiagnosticsMirror` | libparsex/include/parsex/diff/diff_moves.hpp:88-110 | either way round the diagnostics stand for the same keys, one each, with the candidates' sides exchanged |
| `DiffLaws.SelfDiffIsEmpty` | libparsex/src/diff/diff_populate.cpp:83-130 | a project does not differ from itself |
| `DiffLaws.NothingToReport` | libparsex/src/diff/diff_engine.cpp:10-31 | same paths and undiffering elements give an empty report |
| `Numbers.Uint32RoundTrip` | libparsex/src/model_builder.cpp:77-121 | every 32-bit value survives decimal printing and integer parsing |
| `Numbers.RefRoundTrip` | libparsex/src/model_builder.cpp:148-155 | a reference into a package reduces to the name it was made from |
| `XmlTree.CollectDescendants` | libparsex/src/model_builder.cpp:46-60 | all descendants with a tag, in document order |
| `XmlTree.FindChildNode` | libparsex/src/model_builder.cpp:37-44 | the first direct child with a tag |
| `ModelBuilder.RefShortNames` | libparsex/src/model_builder.cpp:217-226 | the non-empty short names of all references |
| `ModelBuilder.BuildCluster` | libparsex/src/model_builder.cpp:270-290 | the cluster a tree describes: first baudrate, all channel names |
| `ModelBuilder.BuildEcuInstance` | libparsex/src/model_builder.cpp:292-304 | the control unit a tree describes |
| `ModelBuilder.BuildFrame` | libparsex/src/model_builder.cpp:306-332 | the frame a tree describes, both vocabularies |
| `ModelBuilder.BuildPdu` | libparsex/src/model_builder.cpp:334-367 | the PDU a tree describes, both vocabularies |
| `ModelBuilder.BuildSignal` | libparsex/src/model_builder.cpp:369-420 | the signal a tree describes, initial value and value table scoped |
| `ModelBuilder.BuildSignalGroup` | libparsex/src/model_builder.cpp:422-436 | the group a tree describes |
| `ModelBuilder.BuildSubtree` | libparsex/src/parser.cpp:28-46 | the recursion pushes the records of the tree in document order |
| `WriteElements.BuildClusterElement` | libparsex/src/write/write_elements.cpp:73-93 | the cluster element: optional parts only when present, channels sorted |
| `WriteElements.BuildEcuInstanceElement` | libparsex/src/write/write_elements.cpp:95-108 | the control unit element, controllers sorted |
| `WriteElements.BuildFrameElement` | libparsex/src/write/write_elements.cpp:110-145 | the frame element, mappings stably sorted and named |
| `WriteElements.BuildPduElement` | libparsex/src/write/write_elements.cpp:147-180 | the PDU element, mappings stably sorted and named |
| `WriteElements.BuildSignalElement` | libparsex/src/write/write_elements.cpp:182-204 | the signal element: initial value, length, signedness |
| `WriteElements.BuildSignalGroupElement` | libparsex/src/write/write_elements.cpp:206-222 | the group element, members sorted |
| `WriteEngine.Validate` | libparsex/src/write/write_engine.cpp:159-179 | one problem per nameless record, in order |
| `WriteEngine.ProblemsExact` | libparsex/src/write/write_engine.cpp:159-179 | validation passes exactly when every record has a name |
| `WriteEngine.Write` | libparsex/src/write/write_engine.cpp:24-103 | the tree of all files merged, grouped by type and stably sorted by name, or the error |
| `WriteEngine.WriteToPath` | libparsex/src/write/write_engine.cpp:104-124 | the output path holds the whole document or what it held before, nothing else changes, and the temporary file is gone unless removing it failed |
| `ReadBack.ElementReadBack` | libparsex/src/model_builder.cpp:270-436 | what is written for any tidy record, loaded with any indentation and spans, reads back as that record with lists sorted and dropped fields at defaults |
| `ReadBack.ClusterReadBack` | libparsex/src/write/write_elements.cpp:73-93 | the printer and the reader of clusters meet |
| `ReadBack.FrameReadBack` | libparsex/src/write/write_elements.cpp:110-145 | the printer and the reader of frames meet |
| `ReadBack.PduReadBack` | libparsex/src/write/write_elements.cpp:147-180 | the printer and the reader of PDUs meet |
| `ReadBack.SignalReadBack` | libparsex/src/write/write_elements.cpp:182-204 | the printer and the reader of signals meet, signedness through the base type name included |
| `Reparse.DocumentReadBack` | libparsex/src/parser.cpp:28-46 | parsing the loaded document gives, per type, the sorted records of all files, reread |
| `Survival.ElementSurvives` | libparsex/src/write/write_elements.cpp:51-71 | a record shows no difference after a round trip if and only if a stated condition on its unwritten fields and positional lists holds |
| `Survival.PduMappingsSurvive` | libparsex/src/write/write_elements.cpp:147-180 | byte orders of mappings matter exactly on the first mapping of each signal |
| `Survival.ListsSurviveIff` | libparsex/src/write/write_elements.cpp:73-108 | for names without the list separator the condition on positional lists is just that they are sorted |
| `RoundTrip.SortKeepsIndex` | libparsex/src/write/write_engine.cpp:16-20 | stable sorting by name keeps the first element of every path, duplicates included |
| `RoundTrip.RoundTripReport` | tests/libparsex/write/roundtrip_helper.hpp:15-29 | write, reparse, diff: never a diagnostic, and no entry if and only if every first-of-its-name record survives |
| `RoundTrip.ParsedIsTidy` | libparsex/src/model_builder.cpp:187-436 | whatever parsing produces is tidy |
| `RoundTrip.ParsedRoundTrip` | tests/libparsex/write/roundtrip_helper.hpp:15-36 | the round-trip check itself, starting from any parsed document |
| `WrittenDocuments.SpelledDocumentLoads` | libparsex/src/parser.cpp:344-375 | any document that spells a written tree, whatever its indentation, comments, attributes and encoding, parses to the records of a tree loaded from it |
| `WrittenDocuments.SpellingSpells` | libparsex/src/parser.cpp:344-375 | every tree whose tags have XML names has a good document that spells it |
| `WrittenDocuments.RoundTripOfBytes` | tests/libparsex/write/roundtrip_helper.hpp:15-29 | so on bytes: write, spell, parse, diff gives no diagnostic, and no entry if and only if every first-of-its-name record survives |
| `WrittenDocuments.RoundTripFromBytes` | tests/libparsex/write/roundtrip_helper.hpp:15-36 | and from the bytes of one document to those of the next |
| `WrittenDocuments.SpelledIsRewritten` | libparsex/src/write/write_engine.cpp:54-101 | what such a document parses to is written as the same tree again |
| `Canonical.ElementRewritten` | libparsex/src/write/write_elements.cpp:73-222 | a record and what it reads back as are written alike |
| `Canonical.WritingIsCanonical` | libparsex/src/write/write_engine.cpp:54-101 | writing the reparsed project gives the same tree again |
| `Canonical.ShufflingIsCanonical` | libparsex/src/write/write_ordering.cpp:18-32 | permuted nested lists with distinct keys have one canonical record |
| `Canonical.WritingIgnoresOrder` | libparsex/src/write/write_engine.cpp:54-101 | with distinct names the tree depends neither on the order of records nor on their spread over files |
| `Canonical.OrderMattersIff` | libparsex/src/write/write_engine.cpp:16-20 | for any records of a type: their order shows if and only if some two of one name are written differently |
| `PreFilter.RawDefinesShortName` | libparsex/src/parser.cpp:158-191 | the search with its skip-ahead jumps, terminating |
| `PreFilter.SearchIsSound` | libparsex/src/parser.cpp:158-191 | for any name a hit is a definition |
| `PreFilter.JumpPassesNothing` | libparsex/src/parser.cpp:158-191 | no jump passes a definition |
| `PreFilter.ExactIffNothingHidden` | libparsex/src/parser.cpp:152-191 | for every trimmed name the filter is exact on every file if and only if no bracket or colon in the name is followed by what could begin an opener, or by a whole opener behind which the name can begin anew and run on |
| `PreFilter.FilterIsExact` | libparsex/src/parser.cpp:152-191 | for a name without such a place: a hit if and only if the file defines the name |
| `PreFilter.WrittenNameIsFound` | libparsex/src/parser.cpp:152-157 | a plainly written definition is found whatever surrounds it |
| `DocumentReading.ParsedDefinitions` | libparsex/src/parser.cpp:344-375 | a printed document parses, and to a file that defines exactly the names its elements define |
| `FilterCoverage.SeenIffPlain` | libparsex/src/parser.cpp:158-191 | at a printed SHORT-NAME element the filter's pattern for a name stands if and only if the element spells it plainly: bare start tag, the name untouched at the start of its content |
| `FilterCoverage.AnswerForElement` | libparsex/src/parser.cpp:158-191 | so the filter says yes if and only if the element spells the name plainly or the pattern stands elsewhere |
| `FilterCoverage.PlainDefinitionIsSeen` | libparsex/src/parser.cpp:152-157 | no false negative for a definition the parser reads and the document spells plainly |
| `HiddenNames.SignalFileSeenIffPlain` | libparsex/src/parser.cpp:152-191 | whole files with one definition: the parser reads it, and the filter sees it if and only if it is spelled plainly |
| `HiddenNames.SpacedTagIsMissed` | libparsex/src/parser.cpp:152-157 | a blank inside the start tag hides a definition the parser reads |
| `HiddenNames.HiddenDefinitionDangles` | libparsex/src/parser.cpp:486-544 | with such a file as the only candidate, discovery reports the reference as dangling |
| `References.CollectKnownRefs` | libparsex/src/parser.cpp:90-105 | every name the files define, by kind |
| `References.CollectWantedRefs` | libparsex/src/parser.cpp:139-146 | every referenced name nobody defines |
| `References.UnresolvedSites` | libparsex/src/parser.cpp:263-313 | the reference sites without a target, in visiting order |
| `References.NothingWanted` | libparsex/src/parser.cpp:107-146 | nothing is wanted if and only if all five reference families resolve |
| `LazyDiscovery.ExpandProjectOnce` | libparsex/src/parser.cpp:486-519 | one round: which candidates are parsed in, and the step |
| `LazyDiscovery.ParseProjectLazy` | libparsex/src/parser.cpp:521-544 | entries, at most fifty rounds, the final check |
| `LazyDiscovery.DiscoveryIgnoresOrder` | libparsex/src/parser.cpp:486-544 | outcome, error and files (as a multiset) do not depend on candidate order or repetition |
| `LazyDiscovery.AdvancingShrinks` | libparsex/src/parser.cpp:486-519 | an advancing round strictly shrinks the unparsed candidates |
| `LazyDiscovery.LimitIrrelevant` | libparsex/src/parser.cpp:531-538 | with at most fifty candidates no larger limit changes the outcome |
| `ChainDocuments.ChainDefines` | libparsex/src/parser.cpp:344-375 | each document of the chain parses to a file that defines its one signal |
| `ChainDocuments.ChainRefers` | libparsex/src/parser.cpp:344-375 | and wants the signal of the next |
| `LazyLimit.LimitIsTight` | libparsex/src/parser.cpp:531-538 | for every limit a chain of printed documents, one candidate more, fails under it and succeeds with one round more |
| `LazyDiscovery.SuccessResolves` | libparsex/src/parser.cpp:307-339 | a normal return means every reference of the five families has a target |
| `LazyDiscovery.NothingLeftToPull` | libparsex/src/parser.cpp:486-519 | after a failure within the limit no remaining candidate passes the filter, parses and defines a missing name |
| `FilterCoverage.FailureIsFinal` | libparsex/src/parser.cpp:481-519 | so what a remaining document declares of the missing names it hides from the filter: not plainly spelled, holding what could begin an opener, or 16-bit without a byte order mark |
| `PulledFiles.PassesIffPlain` | libparsex/src/parser.cpp:152-191 | where the filter's pattern stands nowhere but at definitions of the name, the filter says yes if and only if one is spelled plainly |
| `PulledFiles.PulledIffPlain` | libparsex/src/parser.cpp:486-519 | such a candidate is parsed in by a round if and only if it spells a definition of some wanted name plainly |
| `PulledFiles.MarkedPulledIffDeclared` | libparsex/src/parser.cpp:158-165 | a 16-bit file with a byte order mark is parsed in if and only if it defines a wanted name |
| `CanBits.PhysicalBitsForIntelSignal` | libparsex/src/validator/validator_can.cpp:50-60 | the ascending run |
| `CanBits.PhysicalBitsForMotorolaSignal` | libparsex/src/validator/validator_can.cpp:65-81 | the walk, no position leaving the signed 32-bit range |
| `CanBits.MotorolaClosedForm` | libparsex/src/validator/validator_can.cpp:65-81 | bit k of the walk is saw(saw(start) + k) |
| `CanBits.SawTwice` | libparsex/src/validator/validator_can.cpp:62-64 | the saw-tooth renumbering is its own inverse |
| `CanBits.BitsDistinct` | libparsex/src/validator/validator_can.cpp:83-89 | no bit occurs twice |
| `CanBits.FitsIff` | libparsex/src/validator/validator_can.cpp:135-136 | all bits lie in the payload if and only if the interval in saw numbering does |
| `CanBits.OccupiesInterval` | libparsex/src/validator/validator_can.cpp:83-89 | a bit is occupied exactly when its number lies in the signal's interval |
| `CanBits.MovesIffWholeBytes` | libparsex/src/export/can_db.cpp:516-521 | an offset moves every big-endian signal intact if and only if it is a whole number of bytes |
| `CanBits.KeepsApartIffWholeBytes` | libparsex/src/export/can_db.cpp:516-521 | an offset keeps every two disjoint signals disjoint, whatever their byte orders, if and only if it is a whole number of bytes |
| `CanBits.PlacementKeepsDisjointness` | libparsex/src/export/can_db.cpp:516-521 | so signals disjoint in a PDU placed at a byte boundary stay disjoint in the frame |
| `CanOverlap.IndexSignals` | libparsex/src/validator/validator_can.cpp:176-179 | the bit length of every signal of the file by name |
| `CanOverlap.LengthsHoldFirst` | libparsex/src/validator/validator_can.cpp:176-179 | the first signal of a name decides its length |
| `CanOverlap.ClaimBits` | libparsex/src/validator/validator_can.cpp:135-165 | claiming on the occupancy array with its early breaks |
| `CanOverlap.CheckSignalOverlap` | libparsex/src/validator/validator_can.cpp:116-167 | the findings of one PDU, in order |
| `CanOverlap.OverlapCheckIsExact` | libparsex/src/validator/validator_can.cpp:116-167 | no finding if and only if every resolvable signal fits and differently named ones are disjoint, starts and lengths as narrowed |
| `CanOverlap.FindingsAreTrue` | libparsex/src/validator/validator_can.cpp:136-163 | at most one finding per mapping, and each reported bit really belongs to the signals named |
| `CanNarrowing.SilentIff` | libparsex/src/validator/validator_can.cpp:116-167 | for all 32-bit starts and lengths: no finding if and only if the signals whose start and length survive the narrowing lie, as the file states them, in the payload, and no two names meet |
| `CanNarrowing.AnswerIsRightIff` | libparsex/src/validator/validator_can.cpp:116-167 | a finding always means a misplaced signal; silence means there is none if and only if every resolvable signal with bits is in the signed range, for payloads under 2^31 bits |
| `CanNarrowing.OutOfRangeIsMissed` | libparsex/src/validator/validator_can.cpp:132-134 | one signal whose start or length is out of that range leaves the payload and is not reported |
| `CanNarrowing.MissedInputs` | libparsex/src/validator/validator_can.cpp:132-134 | an eight-byte PDU with a start of 2^31, and one with a length of 2^31 |
| `CanNarrowing.CheckFile` | libparsex/src/validator/validator_can.cpp:173-191 | the overlap findings of a file: its own signal index, PDU by PDU |
| `CanNarrowing.FileAnswerIsRightIff` | libparsex/src/validator/validator_can.cpp:173-191 | of a whole file: findings are never wrong, silence is right if and only if everything resolvable is in range |
| `JsonDepth.ExceedsMaxDepth` | parsex-mcp/protocol.hpp:49-75 | the loop is the state machine's scan |
| `JsonDepth.GuardIsExact` | parsex-mcp/protocol.hpp:44-75 | in every spelling of every value the guard trips if and only if the nesting exceeds the limit |
| `Csv.AppendField` | libparsex/src/export/csv_writer.cpp:23-36 | quoted only when needed, quotes doubled |
| `Csv.AppendRow` | libparsex/src/export/csv_writer.cpp:72-80 | fields joined by commas and ended by CRLF |
| `Csv.ToCsv` | libparsex/src/export/csv_writer.cpp:84-125 | header and one row per signal, a blank-padded row for a frame without signals |
| `Csv.RowsRoundTrip` | libparsex/src/export/csv_writer.cpp:23-80 | a reader of RFC 4180, section 2, recovers exactly the written cells |
| `Csv.ExportRoundTrip` | libparsex/src/export/csv_writer.cpp:84-125 | the export reads back, 19 cells to a record, 1 + the sum over frames of max(1, signals) records |
| `AtomicWrite.Process.WriteFull` | libparsex/src/atomic_write.cpp:52-77 | short writes and interruptions until all bytes are out, or the first failing write |
| `AtomicWrite.Process.Destroy` | libparsex/src/atomic_write.cpp:96-114 | the armed cleanup removes the temporary file |
| `AtomicWrite.ShortWritesOnlyDelay` | libparsex/src/atomic_write.cpp:52-77 | without a failing write the loop is through exactly when enough bytes were accepted |
| `AtomicWrite.CallsSucceed` | libparsex/src/atomic_write.cpp:118-169 | a call whose every answer is a success replaces the target, however short its writes |
| `AtomicWrite.Process.WriteCacheAtomically` | libparsex/src/atomic_write.cpp:118-169 | the environment's answers decide the outcome; done: the target is the payload; otherwise nothing but the temporary file changed; each call is a step of the machine |
| `AtomicWrite.TargetIsWhole` | libparsex/src/atomic_write.cpp:118-169 | for every interleaving, failure, crash and power loss the target holds its prior content or one writer's complete payload |
| `AtomicWrite.ThrowingLeavesNothing` | libparsex/src/atomic_write.cpp:96-142 | a writer that threw never replaced the target and left no temporary file unless removing it failed |
| `AtomicWrite.LastRenameDecides` | libparsex/src/atomic_write.cpp:137-141 | between two points of a run the target changes only if a rename lies between them, and then holds the payload of the last |
| `SchemaCache.SchemaRegistry.ResolveSchema` | libparsex/src/schema_registry.cpp:124-187 | hit, miss and degraded paths: the new cache and what is parsed |
| `SchemaCache.FindSource` | libparsex/src/schema_registry.cpp:99-120 | the first directory that has the release |
| `SchemaCache.ResolveKeepsFaithful` | libparsex/src/schema_registry.cpp:135-166 | every call parses exactly what the source holds and keeps the cache a copy of it |
| `SchemaCache.AgreesIffShared` | libparsex/src/schema_registry.cpp:124-187 | over all runs from an empty cache, writes failing at will, hits agree with sources if and only if all sources share one import |
| `SchemaCache.FailedRemovalBreaksAgreement` | libparsex/src/schema_registry.cpp:159-165 | a failed removal after a failed import write breaks it |
| `SchemaCache.AgreesWhateverFailsIffNoImports` | libparsex/src/schema_registry.cpp:124-187 | with removals failing at will as well, hits agree with sources if and only if no directory a release is taken from has an import |
| `SpanStacks.Tracer.Construct` | libparsex/src/telemetry/scoped_span.cpp:42-62 | construction takes an id, records the innermost open span as parent, pushes |
| `SpanStacks.Tracer.Finalize` | libparsex/src/telemetry/scoped_span.cpp:80-123 | destruction pops, or erases further down, and records the span |
| `SpanStacks.EraseFromTop` | libparsex/src/telemetry/scoped_span.cpp:104-115 | the topmost occurrence is erased |
| `SpanStacks.ParentIsInnermost` | libparsex/src/telemetry/scoped_span.cpp:48-52 | the parent is the innermost open span of the same thread, with a smaller id, and open |
| `SpanStacks.EveryRunIsConsistent` | libparsex/src/telemetry/scoped_span.cpp:42-123 | over all multi-thread runs: stacks increase, ids are unique, parents are smaller, on the same thread and still open when the child opens |
| `SpanStacks.ScopedRunIsPostOrder` | libparsex/src/telemetry/scoped_span.cpp:42-123 | in scope-nested runs each thread's trace is a post-order, children inside parents |

## Left out

- libxml2, schema validation, JSON and command-line libraries: foreign code. SAX
  is a list of events, a written document is a tree, and loading it back keeps
  tags, children and leaf texts while attributes, text between children and
  spans are arbitrary.
- XML escaping: the writer hands text to libxml2 as it is; how that library
  treats `&` in it is not part of this model.
- Encoding detection from byte order marks and declarations, and UTF-32.
- Documents whose entity references expand to markup. What the parser reports for
  a run of character data is given with the run, so entities need no decoder.
- Raw nodes are values and an open node joins its parent when it closes; parent
  pointers and their relinking are not modelled.
- libxml2 nodes are values as well: the builders assemble children before the
  node that holds them.
- Qualified tag names are plain names in the loader and constructors of a
  datatype in the reader and writer; field names and element types are
  constructors too.
- Texts of scan errors, and the warnings the model builder collects.
- Doubles are their 17-digit text, with the reading functions as parameters; the
  round trip assumes that printing and reading a double agree.
- WriteEngine.Write: gives the tree; the release in the root tag is not part of it, and `WriteEngine.WriteToPath` writes it.
- Negating the most negative 64-bit integer is undefined in the source; the
  model wraps around.
- The release and the path of a parsed file, its raw document, and the map of
  resolved references with its site keys. In the source a root tag without a
  known schema location does not parse; the documents of `HiddenNames` and
  `ChainDocuments` carry one.
- `ExplicitList` and `DirectoryScan` discovery and the enumeration of candidate
  files: candidates are a list of normalised paths, and files do not change
  while discovery is under way.
- The three wanted-name sets are one set of names with their kind.
- DiffEngine.FieldDiffsOf: rebuilds the path indexes per entry where the source builds them once.
- DiffMoves.MessageOf: builds the ambiguity message as one expression.
- Rendering of reports, JSON output and debug text.
- CanNarrowing.AnswerIsRightIff: in payloads of 2^31 bits and more a signal out of the signed range can lie in the payload; `CanNarrowing.SilentIff` covers them.
- Signals in the signed range whose last bit is not: the source's counter overflows.
- DLC tables and payload length checks: finite lookups.
- CAN export beyond placement: COMPU-METHOD scaling, party lookup, DBC text.
- CSV: the database's own construction, and number formatting, which is a
  parameter.
- Line numbers are not narrowed to a signed 32-bit integer in the line index.
- Atomic writes: directory entries are durable at once, and file descriptors and
  the Windows branch are not modelled; a power loss truncates unsynced files,
  each to a length of its own.
- Schema cache: concurrent processes, unreadable sources, corrupt schemas, and a
  release called `xml`, whose entry would be the import file.
- Telemetry: attributes, status, the enabled switch and allocation failures; the
  trace is appended to one event at a time, although the source does not guard
  it against concurrent appends.
