# Verified models of the numquam-oblita cores

Dafny models of the parts of the memory engine and its tools whose correctness
cannot be seen by reading one function, with proofs of what they promise.
`dafny verify dfyconfig.toml` checks everything.

| modules | what they model |
|---|---|
| RouteGrid, RouteCosts, RouteSearch, NearestFree, PathSimplifier, GridRouter | the connector router of the diagram exporter: best-first search over (cell, incoming direction), endpoint repair, path simplification |
| Json, JsonPrefix, JsonArrayReader, JsonChunks, JsonChunkTheorems, JsonCuts, JsonChunkSizes, RunOnExample | the streaming reader of JSON arrays with its sliding buffer, and a decoder for RFC 8259 |
| JsonSyntax, JsonRoundTrip, JsonWritten, JsonDocuments | every way of writing a JSON value, and that the decoder reads exactly those |
| SourceLoader, Conversions, NestedListExample, SymbolTranscript, TranscriptSections | loading conversations from a JSON file, and transcripts with marker symbols |
| NeighborGraphs, ContinuityStore | the revision-tagged graph cache under two locks |
| HermesState, HermesDisk, HermesInstaller, HermesUninstaller | installing and removing the Hermes adapter, with rollback |
| Consolidation, ConsolidationPass, Consolidator | salience decay and archiving |
| ReviewQueue, ReviewHistory, ReviewQueueObjects | the mutation review queue in memory |
| Tally, ImportAccounting, ImportCounts, ImportOrchestrator | the counters of an import run |
| EpisodeSegments, EpisodeClusters, EpisodePartition, EpisodeListing | cutting evidence into episodes |
| WordWrap, LabelWrap, LabelText | greedy wrapping of labels |
| DiagramPages, LaneLayout, LaneTheorems, FreeformLayout, DiagramLayout, DiagramPlacement, FreeformPlacement | laying out diagram pages with and without lanes |
| RestartLimiter | the limit on automatic restarts of the runtime |
| Options, Reals, Sorting, SeqOfSeqs, TextSpace | what several of the above share: optional values, comparing reals, the stable sort and filter, flattening, white space |

Code that works step by step (loops, objects updated in place) is a method or a
class here, proved against a function; the promises are then proved of the
function, over all inputs and all runs, and what the function computes is told a
second time without its steps: by prices, written texts, places, counts, histories
and figures. Times are integers (microseconds or
milliseconds), route costs are hundredths, salience and coordinates are exact
reals. Foreign calls, clocks, random ids and opaque scores are parameters or
arbitrary outcomes.

## Where the code does less than one might expect

Each has a theorem that says exactly when it happens, for all inputs, and a
concrete input with which it does.

- A top-level number with a fraction or exponent can make the streaming reader fail on
  a valid array: at some chunk sizes (`JsonChunkTheorems.ChunkingIsSafeIff`), namely
  those with a boundary beside its point or in its exponent's lead
  (`JsonChunkSizes.ChunkSizeIsSafeIff`; `JsonChunkTheorems.SplitRealFails`). A malformed
  text can read well only by chunks (`RunOnExample.RunOnTextMends`).
- Streaming a file drops the conversations of nested lists, which the full conversion
  would keep (`SourceLoader.StreamingIsFaithfulIff`;
  `NestedListExample.NestedConversationIsLost`).
- Overlapping queries can report one revision with the graphs of another: exactly when
  the tag left on the cache stands for different graphs
  (`ContinuityStore.ReadIsExactIff`; `ContinuityStore.OverlappingQueriesMixRevisions`,
  `ContinuityStore.SomeGraphsDiffer`).
- The cached bonus map leaves out atoms that stand alone in their groups
  (`ContinuityStore.CachedRecognitionAtoms`; `ContinuityStore.LonerIsLeftOut`).
- An installation that fails before the old plugin has been moved away deletes it in
  its rollback and puts back whatever the old backup still holds
  (`HermesInstaller.PluginRestoredIff`; `HermesInstaller.EarlyFailureLosesPlugin`).
- Atoms with a recorded reinforcement decay faster the more often consolidation runs
  (`Consolidation.TwoPassesAgreeIff`, `Consolidation.ManyPassesAgreeIff`;
  `Consolidation.ReinforcedAtomDisagrees`).
- Resolving with a blank actor leaves a decision without a reviewer
  (`ReviewQueue.RunsAreAttributedIff`; `ReviewQueue.BlankActorDecides`).
- An extractor used before an import makes its counters overbook
  (`ImportOrchestrator.WholeImportBalancedIff`; `ImportAccounting.UsedExtractorOverbooks`).
- A transcript message whose further lines start with a marker is not read back
  (`SymbolTranscript.ReadBackIff`; `SymbolTranscript.QuoteIsMisread`).
- Lanes that share an id show their nodes once in each of them
  (`LaneTheorems.EveryBoxOnceIff`; `LaneTheorems.SharedIdShowsTwice`).
- The fallback elbow is a slanted line where the ports nearly share a coordinate
  (`GridRouter.ElbowJoinsPorts`; `GridRouter.ElbowMaySlant`).
- A clock that is set forward and back lets the restart limiter forget
  (`RestartLimiter.WindowsHoldAtMostTwoIff`; `RestartLimiter.ClockMustNotRunBack`).

## Model

| member | source | states |
|---|---|---|
| GridRouter.RouteGridPath | tools/export_drawio_visuals.py:399-497 | The drawn points are, at the grid points of the page, the corners of a route between the repaired endpoints than which no free-cell route has a lower price, enough to redraw it cell by cell, whenever any route exists; the elbow is drawn exactly when none does. For every page size, obstacle list and usage map. |
| GridRouter.ElbowJoinsPorts | tools/export_drawio_visuals.py:483-490 | The fallback elbow joins the two ports; all its legs are horizontal or vertical if and only if the ports share a coordinate or are apart by the simplifier's tolerance along the shorter side and twice that along the longer. |
| GridRouter.ElbowMaySlant | tools/export_drawio_visuals.py:483-490 | Ports a hundred apart one way and 0.005 the other are joined by a slanted line. |
| GridRouter.ElbowBendsHalfway | tools/export_drawio_visuals.py:483-490 | Where the bend is kept the elbow has four points, the middle two across the longer side and as far from one port as from the other. |
| GridRouter.BendIsKeptIff | tools/export_drawio_visuals.py:483-490 | The bend is kept from a hundredth across and two hundredths along. |
| GridRouter.DrawnFromPortToPort | tools/export_drawio_visuals.py:492-497 | What is drawn runs from the first port to the second: between the repaired grid points where there is a route, and between the ports themselves where there is none. |
| GridRouter.ExtentIsLeast | tools/export_drawio_visuals.py:408-409 | The grid has the least number of steps, at least one, that covers the page. |
| GridRouter.ToGridIsNearest | tools/export_drawio_visuals.py:411-414 | A port is moved to a grid point as near to it as any, sideways and upright, also at the edges of the page. |
| GridRouter.FreeIff | tools/export_drawio_visuals.py:416-424 | A cell may be stepped onto exactly if it is on the page and its point lies in none of the obstacles. |
| GridRouter.ClearPageBendsOnce | tools/export_drawio_visuals.py:399-497 | With nothing in the way and no cell used, ports off the border are joined, from grid point to grid point, by a drawing with one bend, and with none along a row or column. |
| RouteCosts.RouteCostIs | tools/export_drawio_visuals.py:472-475 | A walk costs a hundred a step, fifty-five for each bend, and for each cell entered 220 per use up to 800, and twelve on the border; bends are counted by comparing cells. |
| RouteCosts.WalkCostIs | tools/export_drawio_visuals.py:472-475 | The same for a walk entered heading some way, whose first step may turn. |
| RouteCosts.OptimalIsCheapest | tools/export_drawio_visuals.py:456-497 | So a route is optimal if and only if no route has a lower price. |
| RouteCosts.CornersAreBends | tools/export_drawio_visuals.py:380-396 | The simplified path has one corner for each bend, and the two ends. |
| RouteCosts.ClearRoutesBendOnce | tools/export_drawio_visuals.py:447-475 | On a clear page, between cells off its border, every cheapest route takes as many steps as it must and bends once, or not at all along a row or column. |
| GridRouter.OptimalRouteIsLatticePath | tools/export_drawio_visuals.py:456-497 | A cheapest route takes unit steps and never steps straight back, so simplifying it loses nothing. |
| RouteSearch.FindRoute | tools/export_drawio_visuals.py:450-497 | The best-first search with lazy deletion terminates and returns a route no other free-cell route undercuts, or reports failure exactly when there is no route. |
| RouteSearch.FirstGoalIsCheapest | tools/export_drawio_visuals.py:457-461 | The first popped entry at the goal is not superseded (although the goal test precedes the stale test) and costs no more than any route. |
| RouteSearch.GoalEntryIsCurrent | tools/export_drawio_visuals.py:459-463 | The minimum entry of the heap, if it is at the goal, carries the best known cost of its state. |
| RouteSearch.EmptyHeapMeansNoRoute | tools/export_drawio_visuals.py:456-490 | When the heap runs dry, no free-cell walk joins the endpoints. |
| RouteSearch.ExpandedStatesStay | tools/export_drawio_visuals.py:462-477 | Consistency at work: no step can improve a state that has been expanded. |
| RouteSearch.SettleState | tools/export_drawio_visuals.py:457-464 | A state expanded now was never expanded before, and the search invariant survives the expansion; hence each state is expanded at most once. |
| RouteSearch.DropStaleEntry | tools/export_drawio_visuals.py:462-463 | Skipping a superseded entry keeps the search invariant. |
| RouteSearch.ImproveKeepsInv | tools/export_drawio_visuals.py:475-481 | Recording a strictly better cost, its heap entry and its predecessor keeps the whole search invariant. |
| RouteSearch.WalksCostAtLeast | tools/export_drawio_visuals.py:456-481 | Any walk on from a costed state to the goal totals at least the current heap minimum. |
| RouteSearch.Expand | tools/export_drawio_visuals.py:464-481 | After the four steps every edge out of the expanded state is accounted for and the invariant holds. |
| RouteSearch.Settle | tools/export_drawio_visuals.py:457-481 | One expansion keeps the loop invariant and settles a state that was not settled. |
| RouteSearch.PopMin | tools/export_drawio_visuals.py:457 | Popping takes out a least entry of the heap, in tuple order, and nothing else. |
| RouteSearch.Reconstruct | tools/export_drawio_visuals.py:492-495 | Following the predecessors ends at the start and gives a walk whose total step cost is the recorded cost. |
| RouteGrid.HeuristicIsConsistent | tools/export_drawio_visuals.py:447-475 | The heuristic never drops by more than a step costs, for every usage, heading and border. |
| RouteGrid.HeuristicIsAdmissible | tools/export_drawio_visuals.py:447-475 | The heuristic never exceeds what any walk still costs. |
| RouteGrid.DetourCosts | tools/export_drawio_visuals.py:472-475 | Cutting an out-and-back detour makes any walk strictly cheaper, whatever the turn, reuse and border penalties. |
| RouteGrid.OptimalRoutesDoNotReverse | tools/export_drawio_visuals.py:472-475 | No cheapest route turns back on itself. |
| NearestFree.FindNearestFree | tools/export_drawio_visuals.py:426-441 | The result is a free cell at least grid distance from the argument; it is the argument itself only if that is free or nothing is. |
| NearestFree.SpreadFrom | tools/export_drawio_visuals.py:432-440 | Looking at one cell's neighbours either finds a nearest free cell or extends the swept rings. |
| NearestFree.SweepNextRing | tools/export_drawio_visuals.py:430-440 | Once all seen cells at a distance have spread, everything one step farther has been seen. |
| NearestFree.FirstFreeIsNearest | tools/export_drawio_visuals.py:437-438 | The first free neighbour met is at least distance. |
| PathSimplifier.SimplifyPath | tools/export_drawio_visuals.py:380-396 | The loop computes the deduplicated path without straight-through points. |
| PathSimplifier.SimplifiedIsLossless | tools/export_drawio_visuals.py:380-396 | On a grid path without reversals simplification keeps exactly the first, turning and last points, and the path can be redrawn cell by cell from them. |
| PathSimplifier.AlignedIffNoTurn | tools/export_drawio_visuals.py:388-394 | Seen from the last kept point, the alignment test succeeds exactly where the path does not turn. |
| JsonPrefix.ValuePrefix | engine/ingest/streaming_json.py:57-63 | A decoded value that has visibly ended is decoded alike with more text behind it, and a value that ends within a prefix is decoded alike from the prefix (RFC 8259, sections 2 and 4 to 7). |
| JsonPrefix.TextPrefix | engine/ingest/streaming_json.py:57-63 | Strings, with all their escapes and surrogate pairs, end at their closing quote whatever follows. |
| JsonPrefix.NumberPrefix | engine/ingest/streaming_json.py:57-63 | A number followed by a character that cannot extend it is read the same with more text behind it. |
| JsonRoundTrip.Reads | engine/ingest/streaming_json.py:57-63 | Whatever way a value is written (any white space between its parts, any of the escapes of each character, members in order), followed by anything that could be no more of a number, the decoder returns exactly that value, its members in that order, and the length of the text (RFC 8259, sections 2 to 7). |
| JsonRoundTrip.TextReads | engine/ingest/streaming_json.py:57-63 | Strings: each character as itself, by a short escape, by a code unit in hex of either case, or by a pair of them. |
| JsonRoundTrip.NumeralReads | engine/ingest/streaming_json.py:57-63 | Numbers: sign, digits without a leading zero, fraction, exponent; the value keeps the spelling. |
| JsonWritten.ValueIsWritten | engine/ingest/streaming_json.py:57-63 | And whatever the decoder accepts is a value written in one of those ways, and what it returns are that value and that length. |
| JsonWritten.TextIsWritten | engine/ingest/streaming_json.py:57-63 | The same for strings. |
| JsonDocuments.DocumentReads | engine/ingest/source_loader.py:252 | A written document, with white space around it, decodes to its value. |
| JsonDocuments.DocumentsAreWrittenIff | engine/ingest/source_loader.py:252 | A text decodes as a document if and only if it is a written value with white space around it. |
| JsonDocuments.WrittenArrayStreams | engine/ingest/streaming_json.py:8-68 | A list of values, however it is written, streams its dictionaries, each with all its members in order, at every non-zero chunk size if no item is a bare real, and in one chunk in any case. |
| JsonDocuments.WrittenArrayStreamsIff | engine/ingest/streaming_json.py:8-68 | At one chunk size if and only if no chunk boundary breaks a bare number. |
| JsonArrayReader.IterJsonArrayObjects | engine/ingest/streaming_json.py:8-68 | The three nested loops over buffer, index and flags yield what the recursive reading of the chunks yields, and end the same way. |
| JsonArrayReader.DrainBuffer | engine/ingest/streaming_json.py:35-65 | The inner loop consumes one buffer: the objects found, where it stopped and why. |
| JsonArrayReader.DrainOnce | engine/ingest/streaming_json.py:36-65 | One round consumes a bracket, comma or element and so makes progress, or says why the buffer goes no further. |
| JsonChunkTheorems.ChunkSizeDoesNotMatter | engine/ingest/streaming_json.py:13-68 | For every non-zero chunk size and every text without a bare top-level real, the same objects come in the same order and the iteration ends the same way as on the whole text. |
| JsonChunkTheorems.ChunkingIsSafeIff | engine/ingest/streaming_json.py:13-68 | On a text that reads well as a whole, all chunk sizes agree if and only if no top-level element is a number with a fraction or exponent. |
| JsonChunkTheorems.SomeChunkSizeFails | engine/ingest/streaming_json.py:57-68 | A bare real makes some chunk size end in the payload error. |
| JsonChunkTheorems.SplitRealFails | engine/ingest/streaming_json.py:57-68 | `[1.5]` reads well as a whole and fails when read two characters at a time. |
| JsonChunkTheorems.ZeroChunksYieldNothing | engine/ingest/streaming_json.py:25-33 | A chunk size of zero yields nothing and reports no error. |
| JsonChunkTheorems.WholeDocumentsRead | engine/ingest/streaming_json.py:8-68 | On every valid JSON array the scan meets exactly the array's elements and completes. |
| JsonChunkTheorems.ValidArraysReadInChunks | engine/ingest/streaming_json.py:8-68 | On a valid array without bare reals at every non-zero chunk size, and on every valid array in one chunk, the reader yields the array's dictionaries in order. |
| JsonChunkTheorems.OneChunkReadsWhole | engine/ingest/streaming_json.py:13-68 | A chunk that takes in the whole text reads it as a whole, whatever it holds and however that ends. |
| JsonChunkSizes.ChunkSizeIsSafeIff | engine/ingest/streaming_json.py:13-68 | For one chunk size: a text that reads well as a whole reads the same if and only if no chunk boundary falls where it breaks a bare number; otherwise the reading ends in the payload error after exactly the dictionaries in front of the first number broken. |
| JsonChunkSizes.ChunkSizeIsHarmlessIff | engine/ingest/streaming_json.py:13-68 | For one chunk size and any text in which no real is directly followed by what would extend it, however its reading ends: it reads the same if and only if no chunk boundary breaks a bare number, or the whole reading ends in the payload error too and has no dictionary behind the first that does. |
| RunOnExample.RunOnTextMends | engine/ingest/streaming_json.py:57-68 | Where reals do run on the law fails: `[1.55.5]` is refused as a whole but reads well four characters at a time, and no boundary breaks a number. |
| JsonChunkSizes.SafeSplit | engine/ingest/streaming_json.py:57-65 | A bare number cut between two digits of one of its parts yields nothing else, and later boundaries break what they would break of the whole number. |
| JsonChunkSizes.FragileNumber | engine/ingest/streaming_json.py:57-68 | A number cut beside its point, or at or before the first digit of its exponent, leaves a front that decodes and a rest that never will. |
| JsonChunkSizes.FeedSafely | engine/ingest/streaming_json.py:19-68 | From any buffer and rest of the file, with safe boundaries the reading is that of the whole. |
| JsonChunkSizes.FeedUnsafely | engine/ingest/streaming_json.py:19-68 | And with an unsafe one it yields exactly the dictionaries in front of the first number broken, which are the first of the text's, and ends in the payload error. |
| JsonCuts.TailIsSkipped | engine/ingest/streaming_json.py:57-65 | A run of digits with what follows of a number yields nothing, leading zeros included. |
| JsonChunks.DrainMatches | engine/ingest/streaming_json.py:35-65 | Scanning a buffer and then its unread tail with the rest of the text is scanning both as one text. |
| JsonChunks.SplitInteger | engine/ingest/streaming_json.py:57-65 | A bare integer cut in two by a chunk boundary changes nothing that is yielded. |
| SourceLoader.IterJsonFileConversations | engine/ingest/source_loader.py:235-253 | The peeking loop and both branches give the specified conversations, or the specified failure. |
| SourceLoader.StreamingIsFaithfulIff | engine/ingest/source_loader.py:205-253 | For every file that is a JSON array, loading it gives the conversations of the fully loaded value and no error if and only if: with chunk boundaries that break no bare number, the fast path is not taken or no nested list would have contributed a conversation; otherwise, three dictionaries stand in front of the first number broken and the first three look like messages. |
| SourceLoader.SafelyChunkedIf | engine/ingest/source_loader.py:235-253 | Chunk boundaries break nothing in a file without bare reals, and in one of at most a chunk. |
| NestedListExample.NestedConversationIsLost | engine/ingest/source_loader.py:205-253 | `[{},[{"mapping":{}}]]` holds one conversation, which streaming loses. |
| NestedListExample.ExampleDecodes | engine/ingest/source_loader.py:252 | That text decodes to an array of an empty dictionary and a nested list. |
| SourceLoader.StreamingIsFaithful | engine/ingest/source_loader.py:205-253 | With no nested list among the elements and no number broken by a chunk boundary, streaming and full conversion agree. |
| SourceLoader.FastPathMeansMixed | engine/ingest/source_loader.py:225-247 | When the fast path is taken, the full conversion would not have treated the array as one list of messages. |
| Conversions.ConversionYields | engine/ingest/source_loader.py:205-232 | Converting a value gives what its units give, one after the other: exactly the dictionaries and lists of messages that stand in nested lists but not inside a list of messages, by their places, each once and in the order of the text. |
| Conversions.DictionaryGives | engine/ingest/source_loader.py:206-223 | What a dictionary gives: a wrapper its dictionary rows in order; else a mapping or a list of messages itself; else a message the conversation made of it alone; else nothing. Fields are told by the last member under a key. |
| Conversions.GetIsField | engine/ingest/source_loader.py:207 | A lookup finds a value exactly if the last member under that key has it. |
| Conversions.MessagesLookAlike | engine/ingest/source_loader.py:161-168 | A dictionary looks like a message exactly if it holds a dictionary under "message", or something under one of the role keys and one of the text keys. |
| Conversions.WrapperIsItsRows | engine/ingest/source_loader.py:207-209 | An export of conversations that are no exports themselves, and not all messages, gives what the bare list of its rows gives: the rows. |
| Conversions.ExportLoadsAsItsRows | engine/ingest/source_loader.py:235-253 | The two files load alike. |
| Conversions.OtherDocumentsLoadWhole | engine/ingest/source_loader.py:248-253 | Every document that is no array is loaded whole. |
| Conversions.LoadingYields | engine/ingest/source_loader.py:235-253 | A file that is no array, or an array without nested lists whose numbers no chunk boundary breaks, loads what the units of its value give. |
| Conversions.FastPathIff | engine/ingest/source_loader.py:238-247 | A streamed array goes its own way exactly if one of its first three dictionaries is no message; a stretch read at a time has 1024 times 1024 characters. |
| Conversions.MalformedLoads | engine/ingest/source_loader.py:235-253 | A file that is no JSON document ends in an error and gives nothing, unless one of the first three dictionaries streamed is no message; then what is streamed is given, with an error exactly if the streaming ends in one. |
| SymbolTranscript.ParseSymbolTranscript | engine/ingest/source_loader.py:318-347 | The line loop with its current role and buffer computes the recursive parse. |
| SymbolTranscript.ReadBackIff | engine/ingest/source_loader.py:318-347 | Printed messages (any marker, optional blanks, trimmed non-blank lines) are read back unchanged if and only if no line but the first of a message starts with a marker. |
| SymbolTranscript.QuoteIsMisread | engine/ingest/source_loader.py:318-347 | A message whose second line starts with a marker. |
| SymbolTranscript.ParsedWeighsAtMost | engine/ingest/source_loader.py:318-347 | For any text whatever, the parsed messages hold no more text than its lines can contribute. |
| SymbolTranscript.SplitJoined | engine/ingest/source_loader.py:333 | Joining lines that hold no line break and splitting again gives the lines back. |
| TranscriptSections.TranscriptIsItsSections | engine/ingest/source_loader.py:318-347 | For any text whatever: one message for each line that opens one, with what is said from there to the next such line (the rest of its line and the lines after it, without blanks and blank lines), if anything is, and nothing else. |
| TranscriptSections.OpensIff | engine/ingest/source_loader.py:335-338 | A line opens a message exactly if its first character that is no white space is a marker, and a '>' stands at the very front; two markers speak for the user, one for the assistant. |
| TranscriptSections.LinesAre | engine/ingest/source_loader.py:334 | The lines with their ends are the text, cut at every line end and nowhere else; a carriage return is not parted from its line feed. |
| TranscriptSections.LineBreakIff | engine/ingest/source_loader.py:334 | Ten characters end a line. |
| NeighborGraphs.BuildNeighbors | engine/continuity/store.py:261-277 | The nested loops build the graph that links two different atoms exactly when some group holds both; no atom has an empty entry. |
| NeighborGraphs.GraphIsSymmetric | engine/continuity/store.py:261-277 | Neighbourhood is symmetric and irreflexive. |
| ContinuityStore.Store.SetSnapshot | engine/continuity/store.py:96-105 | Publishing appends the snapshot as the next revision and clears the cache, in two separate steps of the shared state. |
| ContinuityStore.Store.SnapshotView | engine/continuity/store.py:107-110 | Revision and snapshot are seen together. |
| ContinuityStore.Store.EnsureGraphCache | engine/continuity/store.py:245-259 | The cache is rebuilt for the caller's revision unless it already carries that tag; the published history is untouched. |
| ContinuityStore.Store.ExpansionForQuery | engine/continuity/store.py:179-201 | An undisturbed query returns exactly the graphs of the revision it reports, and empty graphs without a snapshot: the first links the atoms of a constellation, the second those of an arc, neither has an empty entry, and the atoms are those with a link or a shared key. |
| ContinuityStore.InvIsKept | engine/continuity/store.py:96-259 | Each single atomic step of any thread keeps the cache invariant and only extends the published history. |
| ContinuityStore.InvOverRuns | engine/continuity/store.py:96-259 | Over every interleaving of publish, clear, view, ensure and read steps of any number of threads, a cache tagged r holds the graphs of the r-th published snapshot and a cache tagged -1 is empty. |
| ContinuityStore.EveryAnswerIsPublished | engine/continuity/store.py:179-259 | Whatever a read returns is empty or links, layer by layer, exactly what some published snapshot groups. |
| ContinuityStore.GraphsAreTheSnapshots | engine/continuity/store.py:249-277 | The graphs that are built link what the snapshot groups, layer by layer, and no other graphs do. |
| ContinuityStore.ReadIsExactIff | engine/continuity/store.py:179-259 | For any steps of other threads between a thread's rebuild and its read: the read returns the graphs that the tag left by those steps stands for, where clearing leaves -1 and a rebuild the revision its thread viewed; and so exactly those of the revision reported if and only if the tag left stands for the same graphs. |
| ContinuityStore.UndisturbedReadIsExact | engine/continuity/store.py:189-201 | In particular, if no step clears the cache or rebuilds it for another revision. |
| ContinuityStore.OverlappingQueriesMixRevisions | engine/continuity/store.py:179-201 | For any two snapshots, the run in which a slow query makes another report revision 2 with the graphs of revision 1, which are wrong wherever the two differ. |
| ContinuityStore.SomeGraphsDiffer | engine/continuity/store.py:249-255 | Two snapshots with different graphs: an empty one, and one with a single atom under a shared key. |
| ContinuityStore.LonerIsLeftOut | engine/continuity/store.py:161-177 | The only atom of a constellation is reported for an explicit snapshot and not from the cache. |
| ContinuityStore.CachedRecognitionAtoms | engine/continuity/store.py:161-177 | The cached bonus map never covers more atoms than the one for an explicit snapshot, and the same ones if and only if no atom is without peer and shared key. |
| HermesState.RemoveFromBack | tools/hermes_adapter_installer.py:398-400 | Unsetting the largest remaining index removes the adapter's name and leaves the other indexes right. |
| HermesState.AllRemoved | tools/hermes_adapter_installer.py:398-400 | When all indexes are done the list is the old one without the adapter's name, in order. |
| HermesState.ForwardRemovalIsWrong | tools/hermes_adapter_installer.py:399 | Removing in ascending order would delete another plugin's entry. |
| HermesState.FindIndexes | tools/hermes_adapter_installer.py:398 | The indexes are exactly the positions of the adapter's name, ascending. |
| HermesInstaller.Home.UnsetTombstones | tools/hermes_adapter_installer.py:397-400 | On success the disabled list is the old one without the adapter; at any failure no other plugin has changed. |
| HermesInstaller.Home.RestorePluginState | tools/hermes_adapter_installer.py:387-404 | On success the adapter's state is the wanted one; no other plugin ever changes. |
| HermesInstaller.Home.Prepare | tools/hermes_adapter_installer.py:570-579 | Whatever fails up to the move of the old plugin, plugin and all files outside the trees are untouched; afterwards the backup is the old plugin and nothing else. |
| HermesInstaller.Home.Commit | tools/hermes_adapter_installer.py:580-616 | From the backup of the configuration to the final diagnosis: only the adapter's own three files and trees change, the backup of the plugin stays, and on success the old configuration, if there was one, has been saved byte for byte. |
| HermesInstaller.Home.RollBackFiles | tools/hermes_adapter_installer.py:619-637 | A file rollback that does not fail is the complete one. |
| HermesInstaller.Home.Undo | tools/hermes_adapter_installer.py:617-653 | If nothing in the rollback fails, files and plugin state are those of the complete rollback, and removing the staging directory changes nothing else. |
| HermesInstaller.Home.Install | tools/hermes_adapter_installer.py:569-653 | On success the new plugin and files are in place and the backup holds the old plugin and, if there was one, exactly the old configuration. An exception at any step followed by a successful rollback leaves config, token, state file, every other file outside the trees and the plugin state as before; the plugin tree too if there was none or the move had happened; before the move it is back only where the old backup allows, by the failing step, and lost for certain once the backup is gone. |
| HermesInstaller.RollbackRestores | tools/hermes_adapter_installer.py:619-637 | The complete rollback restores every file outside the trees and makes the backup the plugin. |
| HermesInstaller.PluginRestoredIff | tools/hermes_adapter_installer.py:570-625 | By the step, where the disk before the call lets it be taken and so fail (only an old backup is dropped, only an old plugin moved), and that disk: the rollback brings the plugin back after every failure there if and only if there was none, or it had been moved, or the backup was a copy of it and not yet touched; and after some failure if and only if, besides, the backup was being deleted and held all of the plugin. |
| HermesInstaller.RestoredMeansMayBe | tools/hermes_adapter_installer.py:577-625 | Between dropping the old backup and the move a failure always loses the plugin. |
| HermesInstaller.EarlyFailureLosesPlugin | tools/hermes_adapter_installer.py:570-625 | A plugin without a backup is deleted when the very first step fails. |
| HermesUninstaller.TakeSnapshots | tools/hermes_adapter_installer.py:685-691 | Everything the deletion phase can remove is read first. |
| HermesUninstaller.DeleteAll | tools/hermes_adapter_installer.py:703-710 | Wherever it stops, only removable files are missing and nothing else differs. |
| HermesUninstaller.WriteBack | tools/hermes_adapter_installer.py:713-715 | Writing the snapshots back restores every file, byte for byte. |
| HermesUninstaller.Uninstall | tools/hermes_adapter_installer.py:656-739 | All or nothing on files: removed exactly what was owned, or, after a failure anywhere and a successful put-back, every byte and the plugin state as before. |
| Consolidation.SalienceNeverRises | engine/continuity/consolidator.py:49-66 | A pass never raises salience, keeps the atom valid, and leaves archived and tombstoned atoms alone. |
| Consolidation.SecondPassIsIdle | engine/continuity/consolidator.py:52-66 | A second pass at the same time changes nothing. |
| Consolidation.DecayComposes | engine/continuity/consolidator.py:125-140 | Without a recorded reinforcement, decaying in two stages is decaying once. |
| Consolidation.TwoPassesAreOne | engine/continuity/consolidator.py:49-66 | A pass in between changes neither the archive verdict nor, unless archived, any field. |
| Consolidation.ScheduleDoesNotMatter | engine/continuity/consolidator.py:49-66 | Splitting a period into any number of passes gives the verdict and, unless archived, the very atom of one pass at its end. |
| Consolidation.TwoPassesAgreeIff | engine/continuity/consolidator.py:49-66 | Two passes give the verdict and, unless archived, the salience of the later one if and only if the atom is not live, has no recorded reinforcement, has nothing left to decay, is archived by the later pass in any case, or the earlier pass is at its last update, at the same time, or not after the reinforcement; otherwise it is decayed twice from the same instant. |
| Consolidation.ManyPassesAgreeIff | engine/continuity/consolidator.py:49-66 | Any number of passes give the verdict and, unless archived, the salience of one pass at their end if and only if the atom is not live, has no recorded reinforcement, has nothing left to decay, is archived by the last pass in any case, or every pass is at its last update, at the end, or not after the reinforcement. |
| Consolidation.ReinforcedAtomDisagrees | engine/continuity/consolidator.py:132-140 | For every decay, an atom reinforced at its last update differs after two passes. |
| Consolidation.DecaysExist | engine/continuity/consolidator.py:139 | The assumptions made of the decay can be met. |
| ConsolidationPass.PassIs | engine/continuity/consolidator.py:49-66 | What one pass does, field by field: left alone exactly if out of use or updated at this very time; else the salience is what decay leaves since the last reinforcement or update; archived exactly at or below the minimum with at most one support; marked updated exactly if it fell or was archived. |
| ConsolidationPass.HalfLifeIs | engine/continuity/consolidator.py:134-138 | The half-life is 1.6 times the days at full recognition, 0.45 times at full denial (the floor of 0.35 is never reached), and in proportion between. |
| ConsolidationPass.HalfLifeGrows | engine/continuity/consolidator.py:134-138 | It never falls with recognition, and grows strictly between the two extremes. |
| Consolidator.MemoryAtom.Visit | engine/continuity/consolidator.py:50-66 | Updating one atom object in place is one consolidation of its state, and the two counters say whether it decayed and whether it was archived. |
| Consolidator.DecayAll | engine/continuity/consolidator.py:48-66 | Every atom is consolidated once, and the counts are those of the decayed and the archived atoms. |
| Consolidator.Run | engine/continuity/consolidator.py:40-79 | Every atom of the store is consolidated once; the counts are those of the decayed and the archived atoms; the promoted ones are exactly the promotable, in order. |
| Consolidator.SemanticCandidates | engine/continuity/consolidator.py:142-165 | Exactly the active episodes with support of three or more, in order. |
| ReviewQueue.CallIsSafe | engine/memory/mutation_queue.py:203-330 | Every call keeps the mutation accounting, moves statuses only forwards, and never revises a decision or reviewer. |
| ReviewQueue.RunsAreSafe | engine/memory/mutation_queue.py:203-330 | The same over every run of propose, approve, reject, resolve and apply with a store that may fail at any call. |
| ReviewQueue.EveryProposalMutatesAtMostOnce | engine/memory/mutation_queue.py:281-330 | Over every run from the empty queue the store is changed exactly once for an applied proposal and never for any other. |
| ReviewQueue.FirstDecisionStands | engine/memory/mutation_queue.py:281-330 | After the first decision by a named actor, any run of further calls leaves the decision and the reviewer as they were, and a rejected proposal is never applied. |
| ReviewQueue.OppositeDecisionsConflict | engine/memory/mutation_queue.py:283-285 | A decision conflict is raised exactly for the opposite of a recorded decision, and changes nothing. |
| ReviewQueue.ApplyCanBeRetried | engine/memory/mutation_queue.py:296-330 | A failing store leaves the proposal approved; applying can be retried, and repeating it once applied changes nothing. |
| ReviewQueue.DecisionsAreAttributedIff | engine/memory/mutation_queue.py:286-291 | Every decided proposal names its reviewer, with one exception exactly: a direct resolve of a pending proposal by a blank actor, where the status is set before the actor is refused. |
| ReviewQueue.RunsAreAttributedIff | engine/memory/mutation_queue.py:203-330 | Over any run: at its end every decided proposal names its reviewer if and only if no call in it was a direct resolve of a pending proposal by a blank actor; nobody is ever named afterwards. |
| ReviewQueue.BlankActorDecides | engine/memory/mutation_queue.py:286-291 | A pending deletion resolved by a blank actor is approved by nobody. |
| ReviewHistory.RunsAreFate | engine/memory/mutation_queue.py:203-330 | After any run each proposal is what its own calls make of it: pending until the first that decides it, then with that call's decision, reviewer and reason, then unapplied until the first that the store answers, with that answer. |
| ReviewHistory.StoreChangesAreTheApplied | engine/memory/mutation_queue.py:311-330 | Over every run from the empty queue the store is changed once for each applied proposal and for no other: a creation adds the candidate, an edit replaces the target by it, a deletion buries the target for the days proposed. |
| ReviewHistory.ProposeIsRefusedIff | engine/memory/mutation_queue.py:50-62 | A proposal is refused exactly for a blank reason, a negative retention, a missing target of an edit or deletion, or a missing candidate of a creation or edit. |
| ReviewHistory.ResolveRaisesIff | engine/memory/mutation_queue.py:260-294 | Exactly when resolving raises which error. |
| ReviewHistory.ApplyRaisesIff | engine/memory/mutation_queue.py:296-330 | Exactly when applying raises which error. |
| ReviewHistory.NamedRaisesIff | engine/memory/mutation_queue.py:232-245 | Exactly when approving and rejecting raise which error. |
| TextSpace.BlankIsStrippedAway | engine/memory/mutation_queue.py:336-340 | A name counts as missing exactly if it is all white space. |
| ReviewQueueObjects.MutationProposal.Decide | engine/memory/mutation_queue.py:286-291 | Deciding updates the proposal object in the source's order, also when the actor is refused half-way. |
| ReviewQueueObjects.MutationReviewQueue.Propose | engine/memory/mutation_queue.py:203-230 | Well-formed proposals are stored under the fresh id; malformed ones raise and store nothing. |
| ReviewQueueObjects.MutationReviewQueue.ApplyInMemory | engine/memory/mutation_queue.py:311-330 | Applying asks the store once, for the change the proposal is about, and records its answer; a failing store changes nothing. |
| ReviewQueueObjects.MutationReviewQueue.Resolve | engine/memory/mutation_queue.py:247-294 | The object queue after resolving is the specified queue, including every error. |
| ReviewQueueObjects.MutationReviewQueue.Apply | engine/memory/mutation_queue.py:296-309 | Likewise for apply. |
| ReviewQueueObjects.MutationReviewQueue.ResolveNamed | engine/memory/mutation_queue.py:232-245 | Likewise for approve and reject, which look at the actor first. |
| ImportAccounting.ImportsBalance | engine/ingest/orchestrator.py:113-170 | With a fresh extractor, messages seen = skipped + persisted + proposed + rejected at the end, and the first gate has judged every candidate; if an exception ends the import, at most the message in hand is missing. |
| ImportAccounting.EveryBoundaryBalances | engine/ingest/orchestrator.py:113-170 | The law at every message boundary. |
| ImportAccounting.MessageBooks | engine/ingest/orchestrator.py:113-170 | Whatever the extractor and the books held before, one message grows the books by one and by exactly the reasons left over, the latter only when it is skipped. |
| ImportAccounting.BalancedIff | engine/ingest/orchestrator.py:124-129 | The law survives a message if and only if, in case it is skipped, no other reason was left over. |
| ImportAccounting.ImportBooks | engine/ingest/orchestrator.py:113-170 | Over any number of messages, whatever the extractor and the books held before, the books grow by the messages and by exactly the reasons left over at the first skipped turn. |
| ImportAccounting.ImportBalancedIff | engine/ingest/orchestrator.py:113-170 | Messages imported with a used extractor balance if and only if no turn is skipped or the reason of the first skipped turn covers all that was left over. |
| ImportAccounting.UsedExtractorOverbooks | engine/ingest/orchestrator.py:124-129 | A used extractor books the first skipped message twice. |
| ImportAccounting.GateBalances | engine/ingest/orchestrator.py:131-170 | A candidate is judged once by the first gate unless that fails, and booked once by the two gates unless an exception cuts it short. |
| ImportOrchestrator.WholeImportsBalance | engine/ingest/orchestrator.py:107-170 | The law for whole imports over all conversations, unsafe ones and exceptions included. |
| ImportOrchestrator.WholeImportBalancedIff | engine/ingest/orchestrator.py:107-170 | The same for a whole import over all its conversations. |
| ImportCounts.WholeImportCounts | engine/ingest/orchestrator.py:100-170 | An import with a fresh extractor that runs through: every counter is the number of messages that come to it, by reason where it is by reason (seen, emitted, candidates, first and second gate, persisted, proposed, skipped, rejected), and the index holds for every signature the atom stored last. |
| ImportCounts.WholeImportRunsThroughIff | engine/ingest/orchestrator.py:100-170 | It runs through if and only if all its conversations are safe and none of its messages fails on its way. |
| ImportCounts.ProcessFailsIff | engine/ingest/orchestrator.py:113-170 | A message fails exactly if what raises lies on its way: recording, the gates it comes to, the store or the queue. |
| ImportCounts.UsedExtractorCounts | engine/ingest/orchestrator.py:124-129 | With a used extractor everything is counted as with a fresh one but the skips: those are one more for each reason left over other than the first skipped turn's own, if any turn is skipped. |
| ImportCounts.PrefixCounted | engine/ingest/orchestrator.py:113-170 | The same at every message boundary. |
| ImportCounts.SkippedIff | engine/ingest/extractor.py:100-122 | A turn is skipped for a reason exactly if that one applies; the reasons exclude each other. |
| ImportOrchestrator.Run | engine/ingest/orchestrator.py:100-191 | The counters and the atom index after the nested loops are the specified ones. |
| ImportOrchestrator.ImportMessage | engine/ingest/orchestrator.py:113-170 | One message through the extractor and the gates. |
| ImportOrchestrator.PassGates | engine/ingest/orchestrator.py:131-170 | One candidate through both gates, with all branches. |
| ImportOrchestrator.PassSecondGate | engine/ingest/orchestrator.py:140-170 | What the second gate lets through is persisted or proposed, and else rejected; an exception books nothing. |
| ImportOrchestrator.Extractor.ExtractTurn | engine/ingest/extractor.py:100-143 | A turn gives one candidate, or one more count for the first reason that applies. |
| ImportOrchestrator.Extractor.CollectReasons | engine/ingest/orchestrator.py:125-128 | Each pending reason is counted once and the extractor's reasons are cleared. |
| Tally.IncAllAddsSize | engine/ingest/orchestrator.py:125-128 | Counting a set of reasons once each raises the total by the size of the set. |
| EpisodeSegments.SegmentIsSegmentation | tools/build_episode_cards.py:626-650 | The clusters concatenate to the run and break exactly where the link test between neighbours fails. |
| EpisodeSegments.SegmentationIsUnique | tools/build_episode_cards.py:626-650 | There is only one such cut. |
| EpisodeSegments.WiderGapsOnlyMerge | tools/build_episode_cards.py:623-650 | Raising the gap only merges: each new cluster is a contiguous stretch of old ones. |
| EpisodeClusters.GroupEntries | tools/build_episode_cards.py:618-620 | The dictionary holds, per source and day, that group's entries in order. |
| EpisodeClusters.SegmentRun | tools/build_episode_cards.py:626-650 | The loop with its running cluster cuts one group. |
| EpisodeClusters.ClusterAll | tools/build_episode_cards.py:617-659 | All groups sorted, cut and listed by source, day and start. |
| EpisodeClusters.ClustersPartitionEachGroup | tools/build_episode_cards.py:617-659 | For every source and day the listed clusters are, in order, the one cut of its time-sorted entries, which are a rearrangement of the group. |
| EpisodePartition.EveryEntryOnce | tools/build_episode_cards.py:617-659 | The clusters together hold every entry exactly as often as it was given, and are listed by source, day and start. |
| EpisodeListing.StayTogetherIff | tools/build_episode_cards.py:634-645 | Two neighbours stay in one episode exactly if the second comes in time, from no other known domain, and on topic or as another known speaker's reply. |
| EpisodeListing.TopicShiftIff | tools/build_episode_cards.py:605-614 | Off topic: topics on both sides and none shared, or more than three words on both sides and less than three in twenty of either shared. |
| EpisodeListing.EpisodesAreListedInOrder | tools/build_episode_cards.py:653-659 | No episode is listed before one of an earlier source, of an earlier day of its source, or that starts earlier on its day. |
| EpisodeListing.GroupsRunForward | tools/build_episode_cards.py:625 | Within a source and day the entries are in order of time. |
| EpisodeListing.TextLeqIff | tools/build_episode_cards.py:653-659 | Texts are in order where the first difference is, a beginning before what it begins. |
| Sorting.SortKeepsElements | tools/build_episode_cards.py:625 | Sorting rearranges. |
| Sorting.SortSorts | tools/build_episode_cards.py:625 | Sorting sorts, for any total preorder. |
| Sorting.SortCommutesWithFilter | tools/build_episode_cards.py:652-658 | The sort is stable. |
| WordWrap.WrappedIsWrapping | tools/export_drawio_visuals.py:210-226 | The wrapped lines hold the words in order, and each fits or is a single word. |
| WordWrap.GreedyIsShortest | tools/export_drawio_visuals.py:210-226 | For an additive width no wrapping of the words has fewer lines. |
| LabelWrap.WrappedLinesAreFewest | tools/export_drawio_visuals.py:213-225 | The strings of a line are no more than the lines of any other wrapping of its words, for an additive width. |
| WordWrap.GreedyStaysAhead | tools/export_drawio_visuals.py:218-224 | Greedy is never behind any other wrapping, not even in the length of the last line. |
| LabelWrap.WrapLines | tools/export_drawio_visuals.py:210-226 | The loop over the raw lines; an empty line stays empty. |
| LabelWrap.WrapWords | tools/export_drawio_visuals.py:217-225 | The loop over a line's words builds the joined greedy lines. |
| LabelWrap.WrappingKeepsWords | tools/export_drawio_visuals.py:213-225 | Splitting the wrapped strings again gives exactly the line's words, in order. |
| LabelText.RawLinesRejoin | tools/export_drawio_visuals.py:212 | The raw lines are the text, cut at its newlines and nowhere else. |
| LabelText.WordsAre | tools/export_drawio_visuals.py:213 | The words of a line are what is left when its white space is taken out, run by run. |
| LabelText.WrappedTextIs | tools/export_drawio_visuals.py:210-226 | The wrapped text is, raw line by raw line, one empty string for a blank line and its words on greedy lines for any other. |
| DiagramLayout.RelayoutPage | tools/export_drawio_visuals.py:554-660 | The page with its loops is the specified page; in both layouts no two boxes other than lanes overlap and everything is on the page; without lanes the same boxes are shown, each as often, and with lanes exactly if no node goes to a lane that shares its id. |
| DiagramPlacement.LanePageIs | tools/export_drawio_visuals.py:554-660 | Every page with lanes, in figures: lanes 42 from the edges and 76 apart, 460 wide or 430 from four lanes on, as high as the longest column needs; boxes 44 in from the lane's sides and 82 below its top, 42 apart; wide nodes in the middle below, 34 apart; the page just large enough. |
| DiagramPlacement.ColumnsHoldTheirNodes | tools/export_drawio_visuals.py:571-597 | A column holds exactly the nodes that belong to its lane, the rest of the page exactly those wider than 1.35 times every lane, in reading order. |
| DiagramPlacement.HomeIs | tools/export_drawio_visuals.py:573-583 | A node goes to the first lane that contains its middle, or else to the first of those nearest to it. |
| DiagramPlacement.LanesRunRight | tools/export_drawio_visuals.py:555 | The lanes are in order of their left edges. |
| FreeformPlacement.FreeformPageIs | tools/export_drawio_visuals.py:670-724 | Every page without lanes, in figures: three columns, four from eight boxes on, 360 wide and 90 apart, 70 from the edges; every other row runs backwards; rows as high as their highest label and 155 apart; the page just large enough. |
| FreeformPlacement.OrderedIs | tools/export_drawio_visuals.py:673 | Numbered before unnumbered, by number, a zero counting as 9999, then from top to bottom and from the left. |
| DiagramLayout.SortOut | tools/export_drawio_visuals.py:568-584 | Every node is put on the list of the id of its lane, or on the list of wide nodes, in order. |
| DiagramLayout.PlaceColumns | tools/export_drawio_visuals.py:591-612 | The column loop with its cursor places the columns and finds the lowest end. |
| DiagramLayout.PlaceStack | tools/export_drawio_visuals.py:597-611 | The cursor loop stacks boxes below each other. |
| LaneLayout.LaneForIsRight | tools/export_drawio_visuals.py:575-583 | A node goes to a lane that holds its centre if there is one, and else to a lane whose middle is nearest. |
| LaneLayout.StackIsStack | tools/export_drawio_visuals.py:597-611 | A stack keeps the nodes in order, apart by the gap, below its top and above its end, and every label has room. |
| LaneTheorems.NodesAreApart | tools/export_drawio_visuals.py:591-649 | No two boxes other than lanes share a point, all have area, and every label has room. |
| LaneTheorems.NodeIsInItsLane | tools/export_drawio_visuals.py:591-630 | Every node that is not too wide ends up, unchanged but for its place, inside the lane it goes to. |
| LaneTheorems.ColumnKeepsOrder | tools/export_drawio_visuals.py:596-611 | Within a lane the boxes stand in the order of their old places. |
| LaneTheorems.SpanningIsBelowLanes | tools/export_drawio_visuals.py:627-649 | Wide nodes are below every lane by the margin. |
| LaneTheorems.LanesDoNotOverlap | tools/export_drawio_visuals.py:591-630 | No two lanes overlap. |
| LaneTheorems.EverythingIsOnThePage | tools/export_drawio_visuals.py:632-651 | All boxes are within the page. |
| LaneTheorems.EveryBoxOnceIff | tools/export_drawio_visuals.py:569-658 | Every box of the input appears exactly once if and only if no node goes to a lane that shares its id with another lane. |
| LaneTheorems.DistinctIdsKeepAll | tools/export_drawio_visuals.py:569-658 | In particular where no two lanes share an id. |
| LaneTheorems.SharedIdShowsTwice | tools/export_drawio_visuals.py:569-658 | Two lanes with one id and one node give a page with that node twice. |
| FreeformLayout.RelayoutFreeformPage | tools/export_drawio_visuals.py:670-724 | The three loops over placements, rows and boxes compute the specified page. |
| FreeformLayout.RowHeights | tools/export_drawio_visuals.py:683-690 | The dictionary holds, for exactly the rows in use, the height of the highest label. |
| FreeformLayout.RowTops | tools/export_drawio_visuals.py:692-696 | The cursor puts each row below the one before. |
| FreeformLayout.BoxesAreApart | tools/export_drawio_visuals.py:698-713 | No two boxes share a point and every label has room. |
| FreeformLayout.ConsecutiveAreAdjacent | tools/export_drawio_visuals.py:684-687 | Consecutive boxes are side by side in a row or one right below the other. |
| FreeformLayout.NumbersAscend | tools/export_drawio_visuals.py:673 | Numbered labels come first, ascending, a zero counting as 9999; then by height and from the left. |
| FreeformLayout.EveryBoxOnce | tools/export_drawio_visuals.py:670-724 | Every box appears exactly once. |
| FreeformLayout.CellIsOnThePage | tools/export_drawio_visuals.py:714-715 | All boxes are within the page. |
| RestartLimiter.Shell.RegisterAutomaticRestart | app/desktop/main.js:1349-1354 | The history becomes its recent stamps and the new one. |
| RestartLimiter.Shell.HandleUnexpectedRuntimeExit | app/desktop/main.js:1407-1437 | After any exits, one more gives the verdict of the run of exits and its history. |
| RestartLimiter.HistoryIsRemembered | app/desktop/main.js:1349-1354 | For any clock the history is, in order, the stamps of the exits since which no exit came more than five minutes later. |
| RestartLimiter.PausedIff | app/desktop/main.js:1407-1431 | For any clock, an exit that could be restarted pauses the restarts if and only if two earlier exits are still remembered. |
| RestartLimiter.PausedAtThirdIff | app/desktop/main.js:1407-1431 | With an advancing clock: if and only if it is at least the third exit within five minutes. |
| RestartLimiter.WindowsHoldAtMostTwoIff | app/desktop/main.js:1349-1437 | For any clock and any run of exits, every closed window of five minutes holds at most two automatic restarts if and only if there are no three restartable exits within five minutes of each other at none of which two earlier exits are remembered. |
| RestartLimiter.UnheededMeansSetBack | app/desktop/main.js:1351 | Three such exits need a clock that was ahead before the last of them. |
| RestartLimiter.WindowsHoldAtMostTwo | app/desktop/main.js:1349-1437 | So with an advancing clock every closed window of five minutes holds at most two automatic restarts, over any run of exits. |
| RestartLimiter.ClockMustNotRunBack | app/desktop/main.js:1351 | A clock set forward and back again lets three restarts into one window. |

## Left out

- RouteSearch.FindRoute: costs are exact hundredths, so ties that binary floating point would break by rounding are ties here; the heap is a bag from which a least tuple is taken, which is all the search relies on.
- PathSimplifier.SimplifiedIsLossless: is about grid paths; for arbitrary points only that the ends are kept and the points are what the loop keeps.
- JsonArrayReader.IterJsonArrayObjects: the decoder has no recursion limit and no limit on the digits of an integer, and the file is already decoded text with its newlines translated.
- JsonChunkSizes.ChunkSizeIsHarmlessIff: is not about texts in which a real runs on into what would extend it (such a text never reads well as a whole), where a boundary inside the real may mend it (`RunOnExample.RunOnTextMends`) and what is read depends on all that follows.
- SourceLoader.StreamingIsFaithfulIff: how a list of messages becomes a conversation (roles, texts, times) is a function parameter, one for both branches.
- SourceLoader.CoerceObject: has no branch for a list under "messages" (source_loader.py:212-219), because such a dictionary has already been taken for a conversation two lines before.
- ContinuityStore.Store.ExpansionForQuery: shared-language boosts and telemetry scores are not part of it; snapshots are values, so copying them and handing out the cached dictionaries themselves are not modelled.
- HermesInstaller.Home.Install: the refusals before the guarded block are one arbitrary refusal, dry runs are not modelled, and hashing, the credential's random fields and the probe of the runtime are steps that succeed or fail; no symbolic links; empty directories are not told apart from missing ones outside the trees; the staging directory may survive if removing it fails.
- HermesInstaller.Home.RestorePluginState: the plugin state is the status the tool reports; the capability entry and the tombstones may differ from before.
- HermesUninstaller.Uninstall: no symbolic links (in a backup the source would delete them unread); the directories removed when empty after a complete removal are not modelled.
- Consolidation.ScheduleDoesNotMatter: decay is any function that starts at one, falls strictly, stays positive and composes over periods, in place of the exponential; the recognition bias is fixed over the period.
- Consolidator.Run: the contents of promotion candidates, adding them to the store, and the snapshot rebuilt after a pass.
- ReviewQueue.RunsAreSafe: is about the in-memory queue; the durable SQLite queue, idempotent proposals, the purge and the cache refresh are not part of this model.
- ImportAccounting.ImportsBalance: the gates, the store and the index of source references answer arbitrarily, and so does the check for unsafe content; a turn is its role, its text and the counts of tokens and signals.
- ImportOrchestrator.Run: recording of raw turns is one of the places where an exception may end the import; the report and its error texts are not modelled.
- EpisodeSegments.SegmentIsSegmentation: domains are already stripped and in lower case; tokens, topics and role hints are given.
- WordWrap.GreedyIsShortest: needs a width that adds up, which kerning may break; shrinking the font and the estimate used for SVG are not modelled.
- LaneTheorems.NodesAreApart: coordinates are exact, and a label's height is any function that is at least 74, as the source's is by its maximum.
- FreeformLayout.NumbersAscend: reading the number at the front of a label is a function parameter.
- RestartLimiter.WindowsHoldAtMostTwo: a restart counts at the moment its exit is registered, and reattaching to a runtime that stayed up happens before and is no exit.
- Ports of connectors, the usage map built up over several connectors, and all drawing.
- The builder of snapshots (`engine/continuity/builder.py`): grouping and scoring of atoms by tokens, topics and time buckets, whose results the store takes as given.
- Episode cards beyond clustering: titles, summaries, citations and scores.
- The other parsers of the loader, SQLite stores, retrieval, write gates, the MCP server and the desktop shell apart from its restart limit.
