# Verification model of the full-text core

This project models the hand-written logic of a full-text search core (a Rust engine over a third-party index library,
exposed to JavaScript) and proves properties of the model. It covers the four places where the core's own code carries
the promises:

* **Ranked collection and paging.** `TopN`, `Ranking`, `RankedSearch`, `CatalogSort` and `CatalogOrder`: every way of
  answering a page of results agrees with one list, all matches by score descending and ID ascending (or by the requested
  metadata keys and then ID), however the index is split into segments, and following continuations visits that list
  exactly once. Every entry of the list stands for one match, with that match's own address, and none is missing.
* **Text analysis and source tracing.** `NfkcSpec`, `NfkcStream` and `NfkcTheorems` model the streaming, span-keeping
  NFKC normalizer with Stream-Safe insertion (section 3.11 of the Unicode Standard, section 13 of UAX #15); `NfkcMeaning`
  says where joiners stand and what is reordered, `NfkcEquivalence` that normalizing keeps a text canonically the same.
  `TraceExpression`, `TracePlan`, `TraceRecord`, `TraceSpans` and `TracePage` model the three-valued trace evaluator and
  the recoverable page loop with its shared allowances of work, spans and bytes. `QueryCompiler` and `TraceQuery` relate
  the tracer to the compiled query; `QueryMeaning` says what both mean, `TraceAnalysis` and `TraceDecision` exactly which
  records are decided, and `TraceReport` which spans are reported.
* **Packed protocol and admission.** `SearchAst`, `SearchShape`, `Codec`, `PackedSearch`, `QueryText`, `Admission` and
  `AdmissionCost`: validator, decoder and scanner walk one grammar, and the lane decision is sound. `Preflight` and
  `PreflightTotals` are the staged aggregation budget, `IndexIdentity` the persisted identity, `Utf8` and `WireFormat`
  the bytes of texts, words, trees and identities.
* **Concurrent runtime.** `QueueWake`, `QueueCommands`, `QueueCapacity`, `SharedLanes`, `RuntimeBudget`, `WriterActor`,
  `WriterHistory`, `IndexLifecycle`, `IndexHistory` and `Telemetry`: wakeups, conserved commands and capacity, the writer
  actor's checkpoint and poison rules and what its batches become, path exclusion and quarantine, and ticket accounting.
  A step is one mutex section or one atomic operation, and invariants are proved over every interleaving.

Code that updates fields or buffers in place is modelled by classes and loops proved against specification functions;
expression-shaped code is modelled by functions. What a specification function means is then proved in lemmas.

Outside code appears as parameters with stated assumptions: the combining-class, decomposition and composition tables
(`Tables`), the analyzers (`Engine.analyzer`, `Tracer`), scores (an opaque total order, here integers), ordinals
(positions in a dictionary sorted by ID bytes), the library's top-n collector ("keeps n of the best scores"), Boolean
query semantics (`QueryCompiler.Matches`), storage faults (`WriterActor.Fault`) and the clock (which commands of a queue
have expired).

## What turned out differently from what one might expect

* **Wakeups.** A flexible worker can sleep past an expensive command that could run at once, in two ways. A close that is
  refused for uncommitted mutations sets the handle open again without announcing anything (`src/native.rs:2189-2199`); a
  permit attempt that fell in between was refused because the handle was closing (`src/native.rs:1113-1123`), and nobody
  may be left awake. And a push signals one waiter only (`src/native.rs:1712-1713`): if the waiter it picks goes on to
  execute another command, and a permit is released while nobody's demand is registered, the others sleep on until the
  busy one is done. `QueueWake.RefusedCloseStalls` and `QueueWake.OneSignalLeavesWaiting` are such interleavings;
  `QueueWake.WhenWakeupsAreLost` says exactly when each can happen. Without a refused close no worker sleeps at the current
  generation past a runnable command, and never do all of them sleep past one.
* **Ticket accounting.** A ticket armed only after it was settled is accepted and never ends; one dispatched only after it
  was settled has ended and still weighs on the gauge. `Telemetry.Balance` and `Telemetry.ReadGauge` hold whatever the
  order of events, and say that the books balance exactly if as many tickets are counted twice as not at all, and that a
  bank's gauge is right exactly if none of its tickets was dispatched late. `Telemetry.OutOfOrder` exhibits both orders.
* **Shared queue capacity.** Between the sections of an operation the budget is not the sum over the queues; it is that
  sum plus what is reserved or not yet released (`SharedLanes.EveryRunKeeps`, `SharedLanes.InBetweenTheSumIsLess`).
* **A used-up token allowance.** A record whose tokens are exactly the allowance of an expression is still left undecided if
  a value that is not empty follows the last token, even a value without any token (`src/engine.rs:1508-1512`).
  `TraceAnalysis.UsedUpAllowance` is such a record; `TraceAnalysis.FitsWithinLimits` says that within the limits nothing
  else is left out.
* **Completeness of a traced page.** For a single clause, a record header alone that exceeded the byte allowance would not
  clear the page's `complete` flag. It cannot happen within the admitted number of records and ID length, which the model
  takes from request validation (`src/request_validation.rs:80-114`).

## Model

| member | source | states |
|---|---|---|
| NfkcStream.MappedNfkc.constructor | src/engine.rs:3366-3379 | A new normalizer over a text has emitted nothing and will read that text's characters with their byte spans. |
| NfkcStream.MappedNfkc.PushRecomposition | src/engine.rs:3400-3431 | The composee, pending characters and remembered class stand, after one more character, for the batch composition buffer after that character; what was already output is untouched. |
| NfkcStream.MappedNfkc.FlushDecomposition | src/engine.rs:3391-3398 | Flushing leaves the composition state of the whole text so far with its last non-starter run stably sorted. |
| NfkcStream.MappedNfkc.PushDecomposed | src/engine.rs:3381-3389 | The decomposed text seen grows by exactly this character with its class and span; nothing output is taken back. |
| NfkcStream.MappedNfkc.PushCharacter | src/engine.rs:3453-3484 | One source character contributes its full decomposition, preceded by a joiner exactly when the running non-starter count would pass 30; the count is updated to match. |
| NfkcStream.MappedNfkc.Finish | src/engine.rs:3433-3440 | Ending the input keeps every invariant and gives out the rest of the text. |
| NfkcStream.MappedNfkc.Next | src/engine.rs:3442-3490 | The n-th call yields the n-th character, with its span, of the batch result (Stream-Safe insertion, compatibility decomposition, stable reordering, canonical composition), and nothing once that is exhausted. |
| NfkcStream.MappedNfkc.OutputIsFinal | src/engine.rs:3442-3490 | At every moment what has been emitted or buffered for output is a prefix of the normalized text: later input cannot change it. |
| NfkcSpec.StableSortKeepsClasses | src/engine.rs:3391-3398 | Reordering keeps the order of the characters within every combining class. |
| NfkcSpec.StableSortUnique | src/engine.rs:3391-3398 | Sorted and stable determine the result, so any stable library sort gives the same text. |
| NfkcSpec.ComposeKeepsSettled | src/engine.rs:3400-3431 | Whatever follows, composition never changes what precedes the last starter. |
| NfkcSpec.ReorderPrefix | src/engine.rs:3381-3398 | Reordering never moves a character across a starter already seen. |
| NfkcTheorems.SpanIsHull | src/engine.rs:3313-3325 | A merged span is the smallest span covering the spans of all the source characters merged. |
| NfkcTheorems.SpansAreHulls | src/engine.rs:3313-3431 | The span of every emitted character is the hull of the spans of exactly the source characters that went into it. |
| NfkcTheorems.BatchConserves | src/engine.rs:3391-3431 | Reordering and composition neither lose nor duplicate any source character's contribution. |
| NfkcTheorems.StreamSafeFormat | src/engine.rs:3461-3480 | With tables whose single decompositions have bounded edge runs, no prefix of the decomposed text ends in more than 30 non-starters. |
| NfkcTheorems.PendingBounded | src/engine.rs:3352-3440 | Under the same assumption neither pending buffer has ever held more than 30 entries, for any text and at every moment, in the middle of a flush and after the end of input included. |
| NfkcTheorems.ComposedClassesReal | src/engine.rs:3400-3431 | If composites of starters are starters, the class recorded with every composed character is that character's own. |
| NfkcTheorems.EdgeRuns | src/engine.rs:3498-3513 | One pass over a decomposition counts the non-starters at both of its edges. |
| NfkcTheorems.IsStreamSafeNfkc | src/engine.rs:3492-3524 | The check accepts exactly the texts that are their own NFKC form and into which no joiner would be inserted. |
| NfkcTheorems.StreamSafeIsUnchanged | src/engine.rs:3492-3546 | A text that passes the check comes out of the normalizer unchanged, so skipping the normalizer is sound. |
| NfkcMeaning.JoinersExactly | src/engine.rs:3453-3484 | A joiner stands only right before a character's decomposition, and stands there iff the non-starters that end the decomposed text so far together with those that begin the decomposition would be more than 30. |
| NfkcMeaning.NeverJoinedExactly | src/engine.rs:3492-3524 | A text gets no joiner iff its plain decomposition nowhere has 31 non-starters in a row. |
| NfkcMeaning.PlainWhenShort | src/engine.rs:3442-3490 | Such a text decomposes into exactly the decompositions of its characters: "e" and an acute accent stay together. |
| NfkcMeaning.ReorderRun | src/engine.rs:3391-3398 | Between two starters, or an end of the text, the run is sorted in place by combining class, stably. |
| NfkcMeaning.ReorderStarter | src/engine.rs:3381-3389 | Reordering leaves every starter where it is. |
| NfkcEquivalence.ComposesExactly | src/engine.rs:3400-3431 | A character is taken up by the last starter iff nothing in between blocks it and the two have a composite; otherwise it is added. |
| NfkcEquivalence.CompositionKeepsMeaning | src/engine.rs:3400-3431 | Every composite is made of the characters it stands for; with those in its place the text orders as before composition. |
| NfkcEquivalence.NormalizedKeepsMeaning | src/engine.rs:3442-3490 | The canonical decomposition of the normalized text is, up to reordering, the decomposed text: normalizing changes no meaning. |
| NfkcEquivalence.ReorderTwice | src/engine.rs:3391-3398 | Reordering an ordered text changes nothing. |
| Utf8.IsUtf8Exactly | src/protocol.rs:1674 | Bytes are accepted as text iff they are the UTF-8 form of some scalar values. |
| Utf8.SpansAreBytes | src/engine.rs:3366-3379 | The span of a character is where its own bytes are in the encoded text. |
| TopN.OrderedUnique | src/engine.rs:184-213 | Under a strict total order a sorted sequence is determined by its elements, so the sort used is immaterial. |
| TopN.BestMerge | src/engine.rs:237-265 | Taking the n best of one part together with the n best of the other gives the n best of both. |
| TopN.BestImage | src/engine.rs:184-213 | An order isomorphism (ordinals to IDs) may be applied before or after selecting the n best. |
| TopN.ContractIsBest | src/engine.rs:171-213 | Any collector that keeps n hits and drops none that beats a kept one has, once sorted, the n best. |
| TopN.Rearranged | src/engine.rs:184-213 | Sequences with the same elements are rearrangements of each other, position by position. |
| Ranking.FirstAfter | src/engine.rs:306-323 | The cut for a continuation is the first ordinal whose ID lies beyond the boundary's ID, or none if no ID does. |
| Ranking.HitOrder | src/engine.rs:237-265 | Score descending, ID bytes ascending, then address is a strict total order. |
| Ranking.AcceptedIsFilter | src/engine.rs:281-295 | Rejecting local ordinals against the boundary is rejecting exactly the hits not beyond it in the global order. |
| Ranking.SegmentCollector.Collect | src/engine.rs:174-182 | Collecting one match keeps the collector's state equal to the best of everything collected so far. |
| Ranking.SegmentCollector.Harvest | src/engine.rs:184-213 | A segment's fruit is the number of matches collected and its n best as global hits, or an error if some match had no ID ordinal. |
| Ranking.CollectSegment | src/engine.rs:333-357 | Over a segment's whole match list the fruit is the exact match count and the n best hits beyond the boundary in global order. |
| Ranking.LocalBestIsBest | src/engine.rs:281-301 | The n best by score and local ordinal, resolved, are the n best by score and ID. |
| Ranking.MergeFruits | src/engine.rs:237-265 | Merging segment fruits gives the window of the global list, its retained size and the exact number of matches; an error iff some segment failed. |
| Ranking.CollectAll | src/engine.rs:215-265 | Collecting over any split into segments is collecting over the whole snapshot. |
| Ranking.IdLessIsByteOrder | src/engine.rs:237-265 | IDs are compared at the first byte that differs, and a proper prefix comes first. |
| Ranking.GlobalListsMatches | src/engine.rs:184-213 | Every match of every segment stands in the global list exactly once, as a hit with that match's own score, its own document in its own segment, and the ID of its ordinal. |
| Ranking.GlobalIsRanked | src/engine.rs:237-265 | The list goes by score descending, then ID bytes ascending, then address. |
| RankedSearch.ScoreDropDecides | src/engine.rs:1108-1139 | If the score drops at the page end, the best by score alone already contain the best by score and ID. |
| RankedSearch.StablePage | src/engine.rs:1081-1099 | The stable path's page is the slice [offset, offset+limit) of the global list; it fails iff some match lacks an ID. |
| RankedSearch.PlainPage | src/engine.rs:1100-1142 | The plain path and the re-collection on a tie at the page end both give the slice [offset, offset+limit) of the global list; they fail exactly if a document they resolve has no ID. |
| RankedSearch.Search | src/engine.rs:1079-1191 | On every path the page is that slice, or an error exactly when that path meets a missing ID; a total marked exact is the true match count, and a lower bound is below it; the marking itself is determined. |
| RankedSearch.PageListsMatches | src/engine.rs:2821-2845 | Every hit of a page names a segment and a match there with that document, score and ID; no match stands on the page twice. |
| RankedSearch.Traverse | src/engine.rs:1010-1039 | A traversal page is the first `limit` hits beyond the boundary, with the exact total and `more` iff hits remain. |
| RankedSearch.ContinuesAt | src/engine.rs:267-295 | With unique IDs, exactly the hits after the k-th are beyond the boundary of the k-th. |
| RankedSearch.NextPage | src/engine.rs:1010-1039 | Continuing after k hits delivers hits k up to k+limit of the global list, reports its full length and whether more remain. |
| RankedSearch.FollowPages | ts/native.ts:851-876 | Following continuations with any positive page sizes terminates and delivers, end to end, exactly the global list: no duplicate, no omission, the same exact total on every page, `more` until the end. |
| CatalogSort.ComparatorMeetsRequest | src/catalog_sort.rs:29-36 | The comparator chosen for a direction and a missing-value rule puts first exactly what the request puts first. |
| CatalogSort.DynamicSegmentKeys.AcceptSortKeyLazy | src/catalog_sort.rs:190-212 | Lazy acceptance returns nothing iff the full key compares less than the threshold, and otherwise the eager ordering and the full key. |
| CatalogSort.ConvertAllOrder | src/catalog_sort.rs:96-134 | Comparing ordinals and comparing the values they stand for agree on every key list, missing values included. |
| CatalogSort.KeyedOrder | src/catalog_sort.rs:96-110 | Requested keys, then ID, then score, then address is a strict total order. |
| CatalogSort.RejectedIsWorst | src/catalog_sort.rs:190-212 | A document rejected against the worst kept key would not have been among the best. |
| CatalogSort.CollectSegment | src/catalog.rs:1071-1105 | Collecting a segment with lazy rejection yields exactly its best hits by the full order. |
| CatalogSort.SortedCatalog | src/catalog.rs:892-974 | A sorted page is the slice of the global order by request keys then ID, with the exact total, for any split into segments; it is an error exactly if a hit up to the page end has no ID, an empty one, or one of more than 4096 bytes. |
| CatalogOrder.SortedListsMatches | src/catalog.rs:1071-1105 | Every match stands in the sorted list exactly once, with its own keys, ID, score and address. |
| CatalogOrder.SortedByRequest | src/catalog.rs:1071-1105 | The list goes by the requested keys in turn, each in its direction with its missing rule, then by ID bytes ascending, then score, then address. |
| CatalogOrder.CompareIsFirstKey | src/catalog_sort.rs:96-110 | Of two key lists the one that is better at the first key on which they differ comes first. |
| CatalogOrder.IdComesFirst | src/catalog.rs:1080-1083 | On equal keys the smaller ID comes first. |
| SearchAst.SearchStructureBudget.Charge | src/protocol.rs:195-201 | A charge succeeds iff it is within what remains and then lowers it by exactly that. |
| SearchAst.SearchStructureBudget.Leaf | src/protocol.rs:220-233 | Text is accumulated over the request and a leaf passes iff text and field count stay within their limits. |
| SearchAst.Visit | src/protocol.rs:245-277 | The recursive walk accepts a tree iff its nodes obey the local rules and its clause and text costs fit, and spends exactly those costs. |
| SearchAst.ValidateSearchStructure | src/protocol.rs:244-285 | The typed-tree validator accepts exactly the trees the declarative rules accept. |
| SearchShape.AcceptedExactly | src/protocol.rs:150-285 | A tree is accepted iff it is at most eight levels deep, each node is proper in itself, and the costs of all nodes and the bytes of all clause texts stay within their limits. |
| TraceExpression.DecidedIsSound | src/engine.rs:507-557 | A decided verdict is the Boolean value under every completion of the unknown leaves. |
| TraceExpression.RefiningKeepsVerdict | src/engine.rs:507-557 | Learning more about the leaves never changes a decided verdict. |
| TraceExpression.EvaluationIsExact | src/engine.rs:507-557 | Over separately numbered leaves evaluation decides a value iff every completion has that value: no verdict is left open needlessly. |
| TraceExpression.CreditedLeaves | src/engine.rs:507-557 | A leaf is credited iff a path of matching nodes that crosses no negation leads to it. |
| TraceExpression.CreditedLeavesAreMembers | src/engine.rs:507-557 | Every credited leaf is itself known to match. |
| TraceExpression.UnmatchedCreditsNothing | src/engine.rs:507-557 | An expression that is not known to match credits no leaf. |
| TracePlan.CountingIsFindingAll | src/engine.rs:728-744 | Comparing the number of found terms decides what a plan means: every required term was found and there was one, or, for alternatives, some term was found. |
| TracePlan.MatchingIsMonotone | src/engine.rs:728-744 | Finding more never undoes a match. |
| TracePlan.SourceTokens | src/engine.rs:1983-2006 | A value keeps its first 262144 tokens, and the flag says whether any were dropped. |
| TracePlan.RunPass | src/engine.rs:1800-1980 | A pass that stops early has lost nothing that could still matter to match or spans. |
| TracePlan.TraceTokens | src/engine.rs:1800-1980 | A value reports its earliest distinct spans that fit, in source order, whether there are more, and every finding unless the record already matches. |
| TraceRecord.AnalyzeRecord | src/engine.rs:1498-1545 | The record's sources, skipped fields and remaining tokens are those of tokenizing the selected values in record order within the allowances; what is kept and what left out is said exactly by the TraceAnalysis lemmas. |
| TraceRecord.JudgeLeaf | src/engine.rs:1546-1580 | A leaf's verdict, completeness and remaining work are those of weighing all its sources; it is deferred only if that exhausts the page's work. |
| TraceRecord.JudgeRecord | src/engine.rs:1546-1580 | All leaves of a record are judged in order under the shared work allowance, or the record is deferred because it would exhaust it. |
| TraceRecord.JudgeMoreWork | src/engine.rs:1546-1580 | A record judged within what a page has left is judged the same with any larger allowance. |
| TraceRecord.WeighIsHonest | src/engine.rs:1546-1580 | A bag-of-terms leaf finds only terms that are there, and all of them unless it is marked unknown. |
| TraceRecord.DecidedLeafIsTrue | src/engine.rs:1546-1580 | Whatever was cut off or skipped, a decided leaf agrees with the whole record, and only cut-off analysis leaves it open. |
| TraceAnalysis.AnalyzedWhole | src/engine.rs:1508-1542 | A record whose values each fit the source count, the limit of a value and what the values before leave of the allowance is analyzed whole: every token is kept and no field marked. |
| TraceAnalysis.LeftOutExactly | src/engine.rs:1508-1542 | And only such a record: of any other the analysis says itself that something was left out. |
| TraceAnalysis.SmallFits | src/engine.rs:1508-1542 | At most 4096 values of at most 262144 tokens in each stream, with fewer than 524288 tokens in all, fit. |
| TraceAnalysis.FitsWithinLimits | src/engine.rs:1508-1512 | With exactly 524288 allowed as well, they fit iff no value that is not empty comes after the last token of the allowance. |
| TraceAnalysis.UsedUpAllowance | src/engine.rs:1508-1512 | A record that does not: its last value has no tokens and is left out. |
| TraceAnalysis.AnalysisIsBounded | src/engine.rs:1498-1545 | Whatever the record, its sources are cuts of its values in order, within 4096 sources and 524288 tokens, and say whether they were cut. |
| TraceAnalysis.WeighExactly | src/engine.rs:1543-1575 | A leaf runs out of work iff its sources cost more than there is, spends exactly their cost otherwise, and is unknown iff it started so, ran out, or sees a cut. |
| TraceAnalysis.JudgeExactly | src/engine.rs:1543-1575 | All leaves of a record together: the same, and everything is known iff the work suffices and no leaf misses anything. |
| TraceSpans.Emit | src/engine.rs:1320-1360 | The emitted values are the record's values iff all of them fit the span and byte allowances; otherwise they are clipped, never exceed the allowances, and report only true spans. |
| TraceSpans.AddSpans | src/engine.rs:1602-1680 | Adding spans to a value adds all of them iff the shared allowance covers the new ones, and charges one per new span. |
| TraceSpans.CreditRecord | src/engine.rs:1602-1680 | The spans gathered for the credited leaves are all of them iff they and their work fit what the page has left; a record that may wait is deferred instead. |
| TraceSpans.InOrderIsOrdered | src/engine.rs:1602-1680 | Reporting spans in ascending order loses and repeats none. |
| TraceSpans.ReportTotals | src/engine.rs:1602-1680 | Grouping and sorting the report keeps every span counted once. |
| TraceReport.HitsAreTokens | src/engine.rs:1817-1836 | A bag of terms hits exactly the tokens with its terms, in order, each with its own span. |
| TraceReport.SpansAreTokens | src/engine.rs:1817-1836 | Its spans in a value are exactly those of its terms' tokens. |
| TraceReport.SpansInOrderMet | src/engine.rs:1800-1980 | When not all spans fit, those met first are kept. |
| TraceReport.ReportIsTheCreditedTokens | src/engine.rs:1602-1680 | A span is in the report of a record iff a credited leaf that searches its field has one of its terms there, at a token with that span. |
| TraceReport.ClauseReportIsTheTokens | src/engine.rs:1262-1360 | A bare clause reports of every selected value exactly the spans of its terms' tokens. |
| TraceReport.SpansAscend | src/engine.rs:1602-1680 | The spans of a value go by start, then by end. |
| TraceReport.ReportIsOrdered | src/engine.rs:1602-1680 | The values of a report go by field bytes, then by index. |
| TracePage.ExamineClause | src/engine.rs:1262-1318 | A single clause over a record is matched as if no allowance were shared; its spans are complete iff they fit what the page has left. |
| TracePage.ClauseRecord | src/engine.rs:1262-1386 | One record of a clause page is consumed with the state and match it has on its own, or deferred; the first record of a page is never deferred. |
| TracePage.ExpressionRecord | src/engine.rs:1469-1702 | The same for a record of an expression page, through leaves, verdict and credited spans. |
| TracePage.TraceMatchesPage | src/engine.rs:1236-1386 | A nonempty page consumes at least one record and stops only where the next one does not fit what is left; it has one state per consumed record, each equal to the record's own, matches exactly for the records known to match, and is complete iff all input was consumed with both flags set everywhere. |
| TracePage.LaterRecordsAsAlone | src/engine.rs:440-469 | What a page says of a record is what a page of that record alone says: verdict and analysis flag for every record, the whole state and spans for every record after the first. |
| TracePage.TraceAll | src/engine.rs:1227-1234 | However records are split into pages, every record is reached and its verdict and analysis flag are its own. |
| TraceReport.SpansCompleteExactly | src/engine.rs:1602-1702 | The spans of an expression's record are complete iff its analysis was and, if it matches, judging all leaves and finding the credited spans takes at most 8388608 tokens and the report fits a page. |
| TraceReport.ClauseSpansCompleteExactly | src/engine.rs:1262-1386 | Those of a clause's record iff no value was cut and, if it matches, the report fits a page. |
| TraceReport.PageFitsResponse | src/native.rs:3633-3666 | The bytes charged for a page are those it is encoded in, and they stay within the response limit. |
| QueryCompiler.SelectedFields | src/engine.rs:2008-2025 | Of a clause that names fields: those, in request order, or an error iff a name repeats or is unknown. That naming none means all fields is stated by QueryMeaning.BagMeans and RequestMeans. |
| QueryCompiler.Analyze | src/engine.rs:2176-2198 | Analysis yields the distinct terms in order of first appearance, or fails because there are more than the limit. |
| QueryCompiler.TermQueryMatches | src/engine.rs:2217-2248 | A compiled bag of terms matches exactly the documents in which some term, or every one of at least one term, occurs in some selected field. |
| QueryCompiler.AlternativesMatch | src/engine.rs:2217-2248 | The flattened field-by-term alternatives match exactly when some term occurs in some field. |
| QueryMeaning.BagMeans | src/engine.rs:2008-2025 | A compiled bag of terms matches iff some term, or every one of at least one term, occurs in a field it names, or in any field of the engine if it names none. |
| QueryMeaning.RequestMeans | src/engine.rs:2041-2150 | A compiled request matches exactly the documents the expression means, said of the expression and the engine's fields alone. |
| QueryMeaning.CompilesExactly | src/engine.rs:2075-2150 | An expression of proper shape compiles iff its clauses name known fields without repetition, none has too many distinct terms, and its size stays within the limit, which is then its clause count. |
| QueryMeaning.RequestCompilesExactly | src/engine.rs:2041-2150 | The same for a whole request, root boost folded in. |
| QueryMeaning.SizeIsChargeAndLeaves | src/protocol.rs:244-285 | That size is what validation charges for the structure plus, for every clause, its distinct terms times its fields. |
| TraceQuery.LeafAgrees | src/engine.rs:1707-1716 | A prepared leaf and the compiled clause hold of the same documents, whatever the field weights. |
| TraceQuery.Preparable | src/engine.rs:1389-1447 | Whatever compiles can be prepared for tracing, into leaves of distinct terms. |
| TraceQuery.PreparedAgrees | src/engine.rs:1389-1447 | A prepared expression, its leaves numbered in order, holds over the leaves' truths iff the compiled query matches, through And, Or, Not, Boost and Optional. |
| TraceQuery.PanelIsHonest | src/engine.rs:1817-1836 | Every decided leaf is right about the document with the same values, and only cut-off analysis leaves one undecided. |
| TraceQuery.TraceAgreesWithQuery | src/engine.rs:2041-2150 | Whenever an expression over Any/All leaves compiles it can be traced, and a decided verdict is whether the compiled query (root boost folded in) matches the document with the same values; which records are decided is TraceDecision.TraceDecidesExactly. |
| TraceQuery.PageAgreesWithRestrictedQuery | src/engine.rs:2565-2580 | The same for a traced page with candidate IDs against the query restricted to those IDs. |
| QueryMeaning.TraceMeans | src/engine.rs:1389-1447 | A decided verdict is whether the expression means the document. |
| TraceDecision.TraceDecidesExactly | src/engine.rs:1498-1600 | The tracer decides a record iff the values it searches fit the allowances and all clauses together the work of a page, said of the token streams; its verdict is then whether the expression means the document. |
| TraceDecision.SmallRecordsAreDecided | src/engine.rs:1498-1600 | In numbers: at most 4096 searched values of at most 262144 tokens, fewer than 524288 tokens in all and at most 8388608 to look at: verdict and completeness are certain. |
| TraceDecision.PanelKnownExactly | src/engine.rs:1543-1575 | The leaves of a record are all known iff it fits and the work suffices. |
| TraceDecision.PreparedExactly | src/engine.rs:1389-1447 | An expression can be traced iff its clauses name known fields, have no more distinct terms than allowed, and the fields they search carry surface terms. |
| TraceDecision.DocumentHolds | src/engine.rs:1498-1545 | A term is in a field of the record's document iff some value of that field has a token of that text. |
| Codec.TakeStringIff | src/protocol.rs:1652-1675 | Reading a string succeeds with a text and a rest iff the bytes are the length-prefixed text followed by the rest, within the limit. |
| Codec.ParseSound | src/protocol.rs:1265-1334 | Whatever is read is a tree obeying the depth, count, boost and field rules whose encoding is exactly the bytes consumed, within the budget. |
| Codec.ParseComplete | src/protocol.rs:1265-1334 | Every encodable tree that obeys the rules and fits the budget is read back, whatever follows it. |
| Codec.AcceptsExactlyEncodings | src/protocol.rs:1265-1334 | The accepted requests are exactly the encodings of the trees the validator accepts. |
| Codec.EncodingIsPrefixFree | src/protocol.rs:1265-1334 | A tree has one encoding, and no accepted encoding is a proper prefix of another. |
| PackedSearch.Cursor.Read | src/protocol.rs:1605-1617 | Taking bytes advances by exactly that many, or fails and stays. |
| PackedSearch.DecodeClause | src/protocol.rs:1265-1290 | A clause is decoded to what the grammar assigns, leaving cursor and budget behind it. |
| PackedSearch.DecodeExpression | src/protocol.rs:1265-1334 | The decoder returns the tree the grammar assigns, or fails iff there is none, and leaves cursor and budget accordingly. |
| PackedSearch.ScanExpression | src/protocol.rs:785-885 | Whenever decoding would succeed, scanning succeeds at the same byte with the same budget left, at the cost of the decoded tree. |
| PackedSearch.CostFlags | src/protocol.rs:778-885 | The flags accumulated by the scan are the recursive definitions: some expensive mode, and a positive anchor. |
| PackedSearch.WalksAgree | src/protocol.rs:168-285 | One request through all three walks under equal limits: if decoding succeeds, the scanner ends at the same byte with the right flags and the validator accepts the tree. |
| WireFormat.LittleEndianWord | src/protocol.rs:1630-1650 | Words are read and written least significant byte first. |
| WireFormat.KindsAndModes | src/protocol.rs:1265-1290 | The numbers of the query modes and filter kinds. |
| WireFormat.AnExpression | src/protocol.rs:1265-1334 | The bytes of a tree with every kind of node. |
| QueryText.Tokenize | src/engine.rs:3548-3574 | Over ASCII text the tokenizer yields exactly the maximal alphanumeric runs, each cut to 40 characters. |
| QueryText.AsciiQueryTermUpper | src/protocol.rs:764-776 | The scan that builds no token counts exactly those runs, and gives up iff some byte is not ASCII. |
| QueryText.RunsAreMaximal | src/engine.rs:3548-3574 | The tokens are those of all maximal alphanumeric stretches, in order, each the first 40 bytes of its stretch. |
| Admission.CostBounds | src/protocol.rs:785-885 | Node by node, the scanned construction bound is at least the compiled clause count and the scanned term bound at least every leaf's distinct terms. |
| Admission.RootBoostCounts | src/engine.rs:2041-2073 | Folding a root boost into the weights changes neither whether a request compiles nor its clause count. |
| Admission.ClassifySearch | src/protocol.rs:665-704 | On a decodable request the lane decision is the cost of the decoded tree against the standard limits. |
| Admission.OrdinaryLaneIsSound | src/protocol.rs:652-704 | For every configuration, a request not classified expensive that compiles has at most 256 clauses, at most 64 terms per leaf, only bags of terms and a positive anchor. |
| AdmissionCost.TermsExactly | src/protocol.rs:764-776 | The scanned term bound is within a limit iff every text is ASCII with no more runs than that. |
| AdmissionCost.SizeExactly | src/protocol.rs:785-885 | Over ASCII texts the scanned construction bound is the node costs plus, per clause, runs times fields. |
| AdmissionCost.OrdinaryExactly | src/protocol.rs:665-704 | The expression alone leaves a request ordinary iff it has bags of terms only and a positive anchor and, under a raised profile, ASCII texts of at most 64 runs and size at most 256. |
| Preflight.BudgetWalk.Charge | src/catalog.rs:733-790 | One request charges its term keys, or is refused, exactly as the estimate says. |
| Preflight.BudgetWalk.Run | src/catalog.rs:733-815 | The walk with running totals refuses as the estimate does and otherwise charges exactly its totals. |
| Preflight.EstimateShrinks | src/catalog.rs:716-853 | Whatever a coarse stage accepts, a finer stage accepts: estimates shrink under refinement. |
| Preflight.SameMemoryEstimate | src/catalog.rs:709-715 | Without a refinable histogram every stage charges the same memory, so a memory refusal is final. |
| Preflight.CheckTermsBudget | src/catalog.rs:716-853 | The staged preflight accepts iff its most precise stage would. |
| PreflightTotals.WalkExactly | src/catalog.rs:733-815 | A walk under so many kept and collected buckets charges that many times what one takes, key bytes with 128 more per key, and is refused iff a size overflows or the totals pass a limit. |
| PreflightTotals.EstimateTotals | src/catalog.rs:716-853 | Over all segments the charges add up. |
| PreflightTotals.AdmittedExactly | src/catalog.rs:716-853 | A request is admitted iff no size overflows and keys and memory, in closed form at the finest stage, are within 16 MiB each. |
| IndexIdentity.DecodeComplete | src/engine.rs:3880-3941 | Every identity that fits a version's layout is read back, whatever follows. |
| IndexIdentity.DecodeSound | src/engine.rs:3880-3941 | Whatever is read is such an identity, and the bytes consumed are exactly its body. |
| IndexIdentity.IdentityIsInjective | src/engine.rs:3834-3878 | Two valid identities have the same bytes iff they are equal up to field weights. |
| IndexIdentity.RecoversIndexId | src/engine.rs:3880-3941 | The index ID is recovered from every emitted encoding and from no proper extension of one. |
| IndexIdentity.RejectsProperPrefixes | src/engine.rs:3880-3941 | No proper prefix of an encoding is accepted: a torn write is recognized. |
| IndexIdentity.PushIdentity | src/engine.rs:3834-3878 | Pushing the parts piece by piece produces the encoding. |
| IndexIdentity.ReadPersistedIndexId | src/engine.rs:3880-3955 | Skipping through the bytes returns the ID exactly when they are a well-formed identity of a known version. |
| WireFormat.VersionWritten | src/engine.rs:3834-3845 | An identity without filters is written as version 6, with a string filter as 8, with other filters only as 7. |
| WireFormat.OldVersions | src/engine.rs:3880-3941 | All versions from 1 to 8 are read, each with its own lists. |
| WireFormat.AnIdentity | src/engine.rs:3834-3878 | The bytes of an identity with every part in it. |
| QueueWake.EveryRunKeeps | src/native.rs:2495-2569 | In every interleaving permits and wakeup demands are exactly what their holders hold, permits never exceed the limit, a worker still at its generation has missed nothing that is not about to be announced, and no announcement, however few waiters it signals, passes over everybody. |
| QueueWake.NothingAnnouncedSince | src/native.rs:1889-1926 | If a worker waits for the generation it observed, no push, close or permit release has been announced since its snapshot, in any interleaving. |
| QueueWake.NoLostWakeup | src/native.rs:1113-1148 | With no announcement in progress, a worker waiting unsignalled for the current generation has no ordinary command and no closed queue before it, and sleeps past a runnable expensive command only if its permit attempt was refused by a closing that was undone. |
| QueueWake.SomebodyIsCurrent | src/native.rs:1899-1909 | While anybody waits unsignalled, even for an old generation, some worker waits for the current one or is awake and still serves both lanes. |
| QueueWake.LossesNeedARefusedCloseOrABusyWorker | src/native.rs:2495-2569 | Without a refused close nobody sleeps at the current generation past a runnable command and not everybody sleeps; whoever does sleep past one does so only while another worker is busy with a command. |
| QueueWake.RefusedCloseStalls | src/native.rs:2189-2199 | For any number of workers and permits there is a run in which a refused close leaves every worker asleep past a runnable command. |
| QueueWake.OneSignalLeavesWaiting | src/native.rs:1712-1713 | For two or more workers there is a run without any close in which the only signalled worker executes another command and the others sleep past a runnable one. |
| QueueWake.WhenWakeupsAreLost | src/native.rs:1221-1244 | A worker can sleep at the current generation, or all can sleep, past a runnable command iff there is a worker and a permit and the run has a refused close; without one, some can sleep while another is busy iff there are two workers and a permit. |
| QueueCommands.CommandsConserved | src/native.rs:2495-2569 | In every interleaving what was pushed to a lane is what was taken out and what is still there. |
| QueueCommands.RunsOnlyWhatItTook | src/native.rs:2495-2569 | A worker starts on a command only by taking it: an expensive one with a permit it holds or from a closing handle, an ordinary one by stealing it; nobody else's step moves it. |
| QueueCommands.WorkerAloneServes | src/native.rs:2495-2569 | A worker at the start of a pass, left alone, serves one command if any can be, a runnable expensive one first, gives back permit and demand, and is at the start of a pass again. |
| QueueCapacity.BoundedQueue.TryPush | src/native.rs:1695-1715 | A push is refused exactly when the queue is closed, admission declines or a limit of the lane or of the shared budget would be passed, and then changes nothing; otherwise it appends and both counts follow. |
| QueueCapacity.BoundedQueue.PushForce | src/native.rs:1748-1783 | A close command always enters an open queue without a shared budget, past any limit, and nothing else. |
| QueueCapacity.BoundedQueue.TryPop | src/native.rs:1798-1809 | First in, first out, giving back the command's share of both budgets, byte for byte. |
| QueueCapacity.BoundedQueue.Drain | src/native.rs:1811-1827 | Draining returns everything in order and gives back everything it held. |
| QueueCapacity.BoundedQueue.TakeExpired | src/native.rs:1934-1967 | One turn of the queue takes out exactly the expired commands in order, keeps the rest in order, and reports the least remaining time. |
| QueueCapacity.AliveAndExpired | src/native.rs:1934-1967 | Expiry splits commands and bytes without losing or double counting any. |
| QueueCapacity.AliveOrExpired | src/native.rs:1934-1967 | Every command is either kept or expired, exactly once. |
| QueueCapacity.SidesKeepOrder | src/native.rs:1934-1967 | Time left decides the side, and both sides keep the queue's order. |
| SharedLanes.EveryRunKeeps | src/native.rs:1836-1860 | In every interleaving of the sections of pushes, pops, drains, closes and expiries on any number of queues, the budget equals what the queues hold plus what is reserved or not yet released, within its limits; every queue is within its own, keeps the order of acceptance, and has given out exactly what it no longer holds. |
| SharedLanes.ReleaseNeverUnderflows | src/native.rs:1854-1860 | In every interleaving whoever is about to give back its share can: no counter underflows. |
| SharedLanes.AtRestTheBudgetIsTheSum | src/native.rs:1843-1860 | With no operation between its sections the budget is exactly the sum over the queues. |
| SharedLanes.PushAlone | src/native.rs:1695-1715 | A push left alone is refused exactly if its queue or the budget has no room, and then leaves everything as before; otherwise it appends. |
| SharedLanes.TakeAlone | src/native.rs:1798-1827 | A queue left alone gives out its first command on a pop, all of them on a drain, the expired ones on expiry, and gives back exactly their share of the budget. |
| SharedLanes.OthersAndRefusalsLeaveAlone | src/native.rs:1836-1851 | No other queue's step changes a queue, and a refused reservation changes nothing but that it is over. |
| SharedLanes.InBetweenTheSumIsLess | src/native.rs:1843-1851 | A reachable state in which the budget is more than the sum over the queues. |
| RuntimeBudget.Budget.Admit | src/native.rs:1025-1078 | Admission takes all five resources or none: it succeeds iff each fits, and a refusal leaves every counter as before. |
| RuntimeBudget.Budget.Reserve | src/native.rs:1246-1253 | A reservation succeeds iff it fits, and counters equal the sums over live, even partial, reservations. |
| RuntimeBudget.Budget.Drop | src/native.rs:1196-1219 | Dropping a complete or partial reservation gives back exactly what it held, without underflow. |
| RuntimeBudget.BudgetMode.Configure | src/native.rs:961-982 | A budget can be configured only before any open, or again with equal limits; it coexists only with budgeted admissions. |
| RuntimeBudget.BudgetMode.Admit | src/native.rs:988-1006 | An open is budgeted iff a budget is configured; otherwise it is pending or the process is already unbudgeted. |
| RuntimeBudget.BudgetMode.Settle | src/native.rs:1159-1194 | A confirmed or unproven pending open makes the process unbudgeted for good. |
| RuntimeBudget.BudgetMode.DropPending | src/native.rs:1196-1207 | A failed open that was torn down leaves the process as if it had not been tried. |
| WriterActor.IndexWriter.Commit | src/engine.rs:3172-3201 | The commit on the writer's fields and the index is the commit protocol, fault by fault. |
| WriterActor.CommitIsSafe | src/engine.rs:3172-3201 | Whatever the storage does, a durable checkpoint is never erased and stays known, a refused plain commit changes nothing, success makes exactly the staged mutations durable, and a failed preparation leaves the workers unproven. |
| WriterActor.PlainCommitOverCheckpoint | src/native.rs:2140-2203 | A plain commit over a checkpoint is refused, the staged mutations stay and the handle stays open. |
| WriterActor.StepIsSafe | src/native.rs:2091-2280 | No step erases a checkpoint or a committed mutation; a poisoned handle changes nothing durable and never recovers; unproven workers stay unproven and end without quiescence. |
| WriterActor.EveryRunIsSafe | src/native.rs:2091-2280 | Between any two points of any run of a handle, with submissions, closes, forced closes and faults interleaved: the store never shrinks, a checkpoint stays, poison and unproven workers stay. What batches become is in WriterHistory. |
| WriterActor.FailedCommitEndsChanges | src/native.rs:1497-1519 | After any commit or publish failure other than a plain commit refused over a checkpoint, nothing the handle does in any continuation changes the index. |
| WriterHistory.BatchesBecomeDurable | src/native.rs:2119-2180 | In every run: what is durable is what was there followed, in order, by every batch applied up to the last command that made anything durable, under its payload; the handle has failed iff some command failed; until then staged and uncommitted are exactly the batches since. |
| WriterHistory.CommitMakesAllDurable | src/native.rs:2127-2180 | Right after a successful commit or publish every batch ever applied is durable, nothing is staged, and the payload is the publish's own, or none. |
| WriterHistory.CloseRefusedExactly | src/native.rs:2181-2203 | A plain close is refused iff some batch is not durable yet, and then the handle is open again with those batches still staged; any other close ends the handle and changes nothing durable. |
| WriterHistory.QuiescedExactly | src/native.rs:2340-2418 | The close that ends a handle is quiesced iff no commit lost the workers and they could be joined. |
| WriterHistory.CloseIsNotLost | src/native.rs:2091-2280 | No step loses a close on its way: only the actor's turn at it ends it, by stopping, by reopening, or by leaving another. |
| WriterHistory.OneCloseAlways | src/native.rs:2091-2280 | In every run of a handle that has not failed there is at most one close on its way, and nothing behind it. |
| WriterHistory.ExecutedInOrder | src/native.rs:2091-2280 | Commands executed are the first of those accepted, in order; until the handle fails or stops, executed and queued together are all of them. |
| IndexLifecycle.PathRegistry.ReserveOpen | src/native.rs:3190-3230 | An open reserves a path or is refused, exactly by the registry's rules, and a refusal changes nothing. |
| IndexLifecycle.PathRegistry.ReserveReset | src/native.rs:2930-2964 | The same for a reset, which tolerates neither writer nor reader. |
| IndexLifecycle.PathRegistry.Release | src/native.rs:3444-3475 | A closed handle gives up its reservation; an unproven one leaves the path marked. |
| IndexLifecycle.EveryRunKeeps | src/native.rs:3181-3291 | In every reachable state, with opens that fail after reserving and releases that come twice, the registry lists exactly the owners of every path: none is missing, nothing leaks. |
| IndexLifecycle.Exclusion | src/native.rs:3190-3230 | At most one writer, opening or open, or reset per physical path, and no reset beside a writer or a reader. |
| IndexLifecycle.OpenRefusedExactly | src/native.rs:3190-3230 | An open is refused iff the path is quarantined, being reset, or, for a writer, already written to. |
| IndexLifecycle.CheckpointSurvives | src/engine.rs:875-903 | Over every run of opens, activity, failures, closes and reopens by any number of handles, unless a reset retires the index, its checkpoint once present is never erased and what is committed stays. |
| IndexLifecycle.PoisonedHandleIsHarmless | src/native.rs:1497-1519 | After a handle is poisoned nothing it still does, in any continuation, changes anything durable. |
| IndexLifecycle.FailedPreparationQuarantines | src/native.rs:2340-2418 | A run in which commit preparation failed at any point can only end in quarantine: once the handle is gone no open or reset of its path succeeds. |
| IndexLifecycle.UnprovenEndQuarantines | src/native.rs:2400-2418 | Any handle, writer or reader, that ends with its workers unaccounted for leaves its path refused to every later open and reset. |
| IndexLifecycle.ReleaseAgainKeeps | src/native.rs:3444-3458 | A second release of a handle that is gone changes nobody's ownership. |
| IndexHistory.QuarantinedExactly | src/native.rs:2400-2418 | A path is out of use iff it was before or some handle of it ended with its workers unaccounted for. |
| IndexHistory.ResetRefusedExactly | src/native.rs:2930-2964 | A reset is refused iff the path is out of use, being reset, written to or read. |
| IndexHistory.WriterRunsAlone | src/native.rs:3190-3230 | Whatever other handles, readers and resets do, a writer's index and state are those of its own commands run alone. |
| IndexHistory.WriterStartsOnWhatIsDurable | src/engine.rs:875-903 | A writer starts on what is durable at its path, or on a new and empty index. |
| IndexHistory.IndexIsTheWritersBatches | src/native.rs:2091-2203 | What is durable at a path with a writer is what it found, followed by its batches up to its last command that made any durable. |
| Telemetry.Metrics.Attempt | src/telemetry.rs:270-272 | An attempt is counted once and the operation has one more open call. |
| Telemetry.Metrics.Reject | src/telemetry.rs:273-281 | A rejected call is counted once, in exactly the slot of its code or in the last one. |
| Telemetry.TicketHandle.BindWorker | src/telemetry.rs:559-568 | A search or trace ticket is bound to a valid worker at most once, and only before dispatch and end. |
| Telemetry.TicketHandle.Arm | src/telemetry.rs:581-591 | Acceptance is counted once, and the ticket is from then on one armed late iff it was already settled. |
| Telemetry.TicketHandle.Dispatch | src/telemetry.rs:592-597 | The gauge of the ticket's bank rises once, for accepted tickets only; the ticket is one dispatched late iff it was already settled. |
| Telemetry.TicketHandle.Start | src/telemetry.rs:601-613 | Starting dispatches an accepted, unsettled ticket and changes nothing else that is counted. |
| Telemetry.TicketHandle.Settle | src/telemetry.rs:623-658 | A ticket's end is counted at most once, as success or in the slot of its error, in its own bank, lowering the gauge iff it was dispatched. |
| Telemetry.TicketHandle.Drop | src/telemetry.rs:660-664 | Dropping an unsettled accepted ticket counts it as failed. |
| Telemetry.BanksAddUp | src/telemetry.rs:282-291 | Every ticket is counted in exactly one bank, so the banks sum to the operation. |
| Telemetry.Ledger | src/telemetry.rs:558-658 | For any tickets with any order of events: accepted plus counted twice is waiting plus gauged plus succeeded plus failed plus counted nowhere; and the gauge holds the live tickets and those dispatched late. |
| Telemetry.SlotsAddUp | src/telemetry.rs:623-658 | Every failure is booked in exactly one error slot. |
| Telemetry.ReadActorValues | src/telemetry.rs:174-185 | The values added up over an operation's banks are the numbers of its gauged, succeeded and failed tickets, and slot by slot of its rejections and failures, modulo 2^64. |
| Telemetry.Balance | src/telemetry.rs:270-305 | Between any two events and modulo 2^64: attempted = accepted + rejected + calls under way; the error slots sum to rejected + failed; and accepted = waiting + dispatched + succeeded + failed iff as many tickets are counted twice as not at all. |
| Telemetry.ReadGauge | src/telemetry.rs:282-291 | A bank's gauge equals its own unsettled dispatched tickets iff none of its tickets (or a multiple of 2^64) was dispatched after its end. |
| Telemetry.OutOfOrder | src/telemetry.rs:581-658 | A ticket armed after its end is accepted and nowhere else; one dispatched after its end is a success and still on the gauge. |

## Left out

- Tantivy itself: index files, posting lists, scoring, merging, prefix and fuzzy automata, the top-n buffer; each appears as a contract or parameter.
- The Unicode tables, stemmer, stop words, synonyms and ASCII folding: parameters. `QueryText` concretely models the tokenizer over ASCII only.
- Floating point: scores are integers in an opaque order, boosts are their bit patterns, compared where the code compares them; rounding and NaN are not modelled.
- UTF-16 offset conversion of trace spans: tokens carry their spans.
- TracePlan.TraceTokens: where phrase, prefix and fuzzy plans are satisfied is a parameter, and agreement with the compiled query is stated for Any and All leaves.
- A traced record with a field the index does not have: it refuses the whole request.
- Filters in traced requests, and the older trace entry point that fails instead of stopping at a page boundary.
- Deadlines: a timeout only ends an operation early with an error; queue expiry is modelled as a parameter saying what time a command has left.
- The nesting depth of aggregations in the preflight: request validation has already bounded it.
- Admission.ClassifySearch: the filter, catalog and paging part of the decision is the parameter `elsewhere`, which can make a request expensive but never ordinary.
- Response byte limits of ordinary search and traversal, and JSON or binary rendering of results.
- Aggregation results themselves, the shape check before the preflight and the dictionary cache: small or library-driven.
- The byte budget of sort buffers: a sum with no further property.
- File system operations, OS locks, snapshot hashes, threads, panics and the JavaScript boundary.
- Histograms and latencies in the metrics, and ticket execution times: they take no part in the conserved counts.
- RankedSearch.Search: whether scores are stable is a parameter, because it depends on the query types chosen.
- CatalogSort.SortedCatalog: where a missing ID stands in the ascending order is the library's choice; the model puts it last.
- CatalogSort.KeyedOrder: the order compares the number of keys first, which never differs within one request, to be total on all hits.
- QueueWake.EveryRunKeeps: covers flexible workers of a process with a runtime budget; without one there is no wake demand to lose. A blocking permit attempt of a command taken without a permit is a step of others, and the wake generation is unbounded instead of 64 bits wide.
- QueueCapacity.BoundedQueue.TryPush: one operation on its own, the sections of other queues in between are in SharedLanes; the byte sum is unbounded, the source saturates it above any admissible limit.
- WriterActor.EveryRunIsSafe: snapshots of the reader and reload retries are not part of the state; a reload only succeeds or fails.
- IndexLifecycle.EveryRunKeeps: an open cancelled before it reserves a path changes nothing and is not a step; waits for cleanup finish and handles never wrap.
- Telemetry.Balance: each event of a ticket is one step; an observer that reads between the separate counters of one event may see it half counted.
