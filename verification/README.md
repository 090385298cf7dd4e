# px1: verified models of its algorithms

This project models the algorithmic core of px1, a code-review product written in Go, and proves what its code keeps.
Check it with `dafny verify dfyconfig.toml` (Dafny 4.11).

| part | modules | what it is |
|---|---|---|
| Diff grouping | `Components`, `Blocks`, `BlockTheorems`, `BlockTokens` | a union-find with path compression over files that share signals, and the block list on top |
| Token cache | `TokenCache`, `TokenRuns` | a step system of concurrent callers around one mutex, and the object whose critical sections are its steps |
| Chunker | `Utf8`, `BoundedSearch`, `SearchTheorems`, `Units`, `SymbolNames`, `Chunker`, `ChunkTheorems` | a file cut into symbol units, binary-searched pieces and greedily packed chunks |
| Symbol graph | `Traversal`, `Siblings`, `Overlay`, `OverlayTheorems`, `Incremental`, `IncrementalTheorems` | bounded search, pull-request overlay, incremental plan against rebuild |
| Rules and diffs | `Glob`, `GlobText`, `DiffText`, `UnifiedDiff`, `AddedLines`, `RuleBlocks`, `RuleHits` | a glob compiler, two readers of unified diffs, block matches |
| Ledger | `Ledger`, `LedgerTheorems` | an append-only credit log with idempotent keys |
| Review and metrics | `Ranking`, `Rollup`, `RollupTheorems`, `Attention` | greedy de-duplication, aggregation by dimension, changed lines |
| Shared | `Wrappers`, `Order`, `Loops`, `JoinedKeys` | options and results, comparison and sorting as Go's `sort` promises them, folds and filters, keys joined with NUL |

Code that changes state step by step is a method or a class here, proved against a specification; the theorems are
lemmas about the specification. `sort.Slice` is known only as "some sorted permutation", and ranging over a Go map as a
choice among the remaining keys, so what is proved holds for every order either may take.

## What the code does not do

Where the code falls short of a claim its documentation or a reader would make, the exact condition is proved and an
input that fails is given.

- docs/INDEX_CHUNKING.md:3-7 promises UTF-8-safe cuts and every byte exactly once. Cuts and bytes are right, but the
  calls of the search for a cut all end, whatever the counter, if and only if the bytes from the start on are ASCII
  (`SearchTheorems.AlwaysEndsIffAscii`, `ChunkTheorems.SomeChunkerRunsForEverIff`,
  `ChunkTheorems.MultiByteTextCanRunForever`). The decoding of a lone first character at chunk.go:166-168 is no way
  out of it (`SearchTheorems.DivergesAtLongFirst`).
- internal/hosted/graph/overlay.go:54 speaks of replacing changed files. Edges that a head no longer has survive with a
  symbol that keeps its key (`OverlayTheorems.NoStaleEdgesIff`, `OverlayTheorems.StaleEdgeExample`), and those that it
  still has are listed twice (`OverlayTheorems.ListedOnceIff`, `OverlayTheorems.EdgeTwiceExample`). Targets that no
  symbol has are passed through (`OverlayTheorems.OverlayClosedIff`, `OverlayTheorems.OpenEdgeExample`).
- The relink list may name deleted files (`IncrementalTheorems.RelinksAreCurrentIff`,
  `IncrementalTheorems.DeletedImporterExample`).
- The two diff readers differ on lines that begin with "+++" inside a hunk (`AddedLines.ReadersAgreeIff`,
  `AddedLines.PlusPlusPrinted`).
- Globs are quoted byte by byte, so a glob means what it says if and only if it is ASCII
  (`GlobText.GlobMeansWhatItSaysIffAscii`, `GlobText.LiteralMatchesItselfIffAscii`, `GlobText.AccentExample`).
- Settle does not compare usage with the reservation (`LedgerTheorems.NeverOverdrawnIff`,
  `LedgerTheorems.OverdrawnExample`).
- The median of a day lies between its two middle latencies if and only if their sum does not overflow
  (`Rollup.RowMedianBetweenIff`, `Rollup.NegativeMedianExample`).
- The order of the rows by dimension is open if and only if two dimensions share a sort key, for which a team has to
  hold a NUL (`RollupTheorems.OneOrderIff`, `RollupTheorems.NulExample`). The Postgres store keeps names in text
  columns, which hold no NUL; the events come from an interface, and only another store could return one.

## Model

| member | source | states |
|---|---|---|
| `Components.Find` | internal/hosted/review/blocks.go:44-50 | find ends, answers with the representative, hangs the element directly below it, and its path compression changes no element's representative |
| `Components.ClimbReachesRoot` | internal/hosted/review/blocks.go:44-50 | following parents long enough reaches the representative: the parents alone decide it |
| `Components.RootsUnique` | internal/hosted/review/blocks.go:44-50 | a parent array has only one map of representatives |
| `Components.Union` | internal/hosted/review/blocks.go:54 | `parent[find(j)] = find(i)` joins the two classes and no others; the partition is then that of the links with (i, j) added |
| `Components.RepresentsExactly` | internal/hosted/review/blocks.go:44-57 | equal representatives exactly for elements joined by a chain of links |
| `Components.MergeRepresents` | internal/hosted/review/blocks.go:54 | adding a link merges exactly the two classes it connects |
| `Blocks.SharesSignals` | internal/hosted/review/blocks.go:103-119 | walking both sets in any order with an early exit: one common path token or two common code tokens |
| `Blocks.Unite` | internal/hosted/review/blocks.go:51-57 | after the pairwise loops two files have one representative exactly when a chain of signal-sharing files joins them |
| `Blocks.Topic` | internal/hosted/review/blocks.go:120-142 | the least token of maximal score, a path token counting twice; "related" if there is no token; for every order in which the maps are walked |
| `Blocks.TopicUnique` | internal/hosted/review/blocks.go:136-140 | there is only one such token |
| `Blocks.ScorePermuted` | internal/hosted/review/blocks.go:121-134 | the score of a token does not depend on the order of the files |
| `Blocks.GroupBlocks` | internal/hosted/review/blocks.go:34-78 | one block for each class of two files or more, with its sorted paths and its topic, ordered by first path |
| `BlockTheorems.BlocksPartitionSharingFiles` | internal/hosted/review/blocks.go:58-77 | blocks are disjoint, have two files or more, and show exactly the files that share signals with another file |
| `BlockTheorems.BlocksStrictlySorted` | internal/hosted/review/blocks.go:76 | first paths strictly increase as texts, so the sort leaves nothing open |
| `BlockTheorems.BlocksDeterministic` | internal/hosted/review/blocks.go:58-78 | every permutation of the files and every map order give the same blocks |
| `BlockTokens.TogetherIffConnected` | internal/hosted/review/blocks.go:51-77 | two files are shown by one block if and only if a chain leads from one to the other in which each file and the next have a common path token or two different common code tokens |
| `BlockTokens.RelatedAreTogether` | internal/hosted/review/blocks.go:103-119 | two files with a common path token, or two different common code tokens, are shown by one block |
| `BlockTokens.ShownIsRelated` | internal/hosted/review/blocks.go:103-119 | each file of a block has another file of the block with such tokens |
| `BlockTokens.TwoStrangersMakeNone` | internal/hosted/review/blocks.go:103-119 | two files without such tokens make no block |
| `BlockTokens.ScoreCounts` | internal/hosted/review/blocks.go:120-134 | the score of a token is the number of files that hold it, and once more of those whose names hold it |
| `TokenCache.SafeStep` | internal/hosted/githubapp/client.go:64-101 | every step of every caller keeps the whole invariant of calls, callers, cache and history |
| `TokenCache.SafeRun` | internal/hosted/githubapp/client.go:64-101 | the invariant holds after every interleaving |
| `TokenCache.AtMostOneMint` | internal/hosted/githubapp/client.go:69-85 | at most one mint per installation is in flight |
| `TokenCache.WaiterNeverStranded` | internal/hosted/githubapp/client.go:69-76 | a waiter's call is filled or has a live leader |
| `TokenCache.WaiterGetsLeadersResult` | internal/hosted/githubapp/client.go:74-75 | a waiter that is not cancelled returns exactly what its leader returned, for its own installation |
| `TokenCache.ResultsAreMintedForTheirInstallation` | internal/hosted/githubapp/client.go:85-101 | a token returned without error was minted for the installation asked for |
| `TokenCache.NeverStuck` | internal/hosted/githubapp/client.go:64-101 | while a call is unfinished, some minting, publishing or delivery step is possible |
| `TokenCache.WorkRunsOut` | internal/hosted/githubapp/client.go:64-101 | while nobody enters, every minting, publishing or delivery step uses up one unit of the work there was |
| `TokenCache.EveryCallerReturns` | internal/hosted/githubapp/client.go:64-101 | while nobody enters, no run has more such steps than work at the start, and no such step is left exactly when every caller has returned |
| `TokenCache.NoMintWhileFresh` | internal/hosted/githubapp/client.go:65-68 | with a clock that does not go back, no mint starts while an accepted token is fresh beyond the skew |
| `TokenCache.EveryRun` | internal/hosted/githubapp/client.go:51-102 | both guarantees for every run from the empty cache |
| `TokenRuns.CallerGets` | internal/hosted/githubapp/client.go:51-102 | every caller in every run, from its steps and history alone: refused without a minter; on the token accepted last for its installation, if that outlives the skew, it returns that; on an open call it waits and, unless cancelled, returns what the call publishes; otherwise it leads a call and returns the verdict on the answer to its own mint |
| `TokenRuns.GivesUpOnlyIf` | internal/hosted/githubapp/client.go:52-76 | a caller gives up only without a minter or when it is cancelled itself |
| `TokenCache.CachedTokenSource.Enter` | internal/hosted/githubapp/client.go:52-83 | the first critical section on the real fields takes exactly the protocol's entering step, and tells the caller what that step tells it |
| `TokenCache.CachedTokenSource.StartCall` | internal/hosted/githubapp/client.go:78-83 | a fresh call is put in flight, exactly as the protocol does |
| `TokenCache.CachedTokenSource.Validate` | internal/hosted/githubapp/client.go:85-88 | the minter's answer is judged as the protocol judges it |
| `TokenCache.CachedTokenSource.Publish` | internal/hosted/githubapp/client.go:90-101 | the second critical section takes exactly the protocol's publishing step |
| `BoundedSearch.BoundedEnd` | internal/hosted/indexer/chunk.go:145-177 | the imperative search computes the cut of its specification, or runs out of its budget |
| `BoundedSearch.AlignLoop` | internal/hosted/indexer/chunk.go:150-158 | the two alignment loops find the boundary at or before the probe, or the end of the first character |
| `BoundedSearch.IterateAnswersIff` | internal/hosted/indexer/chunk.go:148-165 | the search answers exactly if its loop is left within the budget, with the best end found by then |
| `SearchTheorems.CutsBetweenCharacters` | internal/hosted/indexer/chunk.go:145-177 | on any valid text and with any counter, a returned cut is past the start, in the unit, and between two characters |
| `SearchTheorems.FitsOrOneCharacter` | internal/hosted/indexer/chunk.go:166-176 | with a prefix-monotone counter the cut fits, or it is the first character alone |
| `SearchTheorems.BoundedEndTotal` | internal/hosted/indexer/chunk.go:145-177 | where only the first character may be long, the search ends on the longest cut that fits and returns it, or a newline before it that keeps half the maximum |
| `SearchTheorems.EndIsLongest` | internal/hosted/indexer/chunk.go:145-177 | on any text with a prefix-monotone counter: if the search ends, it has found the longest fitting cut between two characters, and returns it or the newline before it |
| `SearchTheorems.DivergesAtLongCharacter` | internal/hosted/indexer/chunk.go:148-165 | the search never ends when the longest fitting cut is followed by a multi-byte character, or all fits but the unit ends in one |
| `SearchTheorems.DivergesAtLongFirst` | internal/hosted/indexer/chunk.go:148-169 | a multi-byte first character that does not fit: the search never ends, and the decoding of a lone character behind the loop is not reached |
| `SearchTheorems.AlwaysEndsIffAscii` | internal/hosted/indexer/chunk.go:131-177 | from a given start, every call that splitPiece can make for a unit (over a cap of at least one, any counter) ends, if and only if all bytes from there on are ASCII |
| `SearchTheorems.WholeFileEndsIffAscii` | internal/hosted/indexer/chunk.go:131-143 | the same of a whole file that is one unit |
| `SearchTheorems.EndlessCall` | internal/hosted/indexer/chunk.go:131-165 | with a given counter, any multi-byte character that it counts yields a unit and a cap of at least one that splitPiece calls the search for, and the search never ends |
| `SearchTheorems.CallsEndIff` | internal/hosted/indexer/chunk.go:131-165 | with a given counter that counts the multi-byte characters behind the first, all calls end if and only if there is no such character and a multi-byte first one is one token at most |
| `Units.SymbolUnits` | internal/hosted/indexer/chunk.go:107-129 | succeeds exactly on pairwise disjoint symbols in range, in any order; the units then tile the file and hold every symbol |
| `Units.UnitsAre` | internal/hosted/indexer/chunk.go:107-129 | the units are exactly the symbols and the whole stretches between them |
| `GlobText.ValidIffEncoded` | internal/hosted/indexer/chunk.go:46-48 | a text is valid if and only if it is the UTF-8 encoding of scalar values |
| `Chunker.SplitPiece` | internal/hosted/indexer/chunk.go:131-143 | a unit that fits is left whole; otherwise the pieces tile it, each cut where boundedEnd cuts what is left; nothing is returned exactly if one of these searches does not end |
| `Chunker.ApproximateAppend` | internal/hosted/indexer/chunk.go:193-197 | the built-in count is prefix-monotone and subadditive, with the exact count where a word is cut (ASCII) |
| `Chunker.Fill` | internal/hosted/indexer/chunk.go:75-81 | a chunk stays under the maximum, stops at the minimum, and stops before it only for lack of room |
| `Chunker.Pack` | internal/hosted/indexer/chunk.go:71-93 | all pieces are packed in order; no failure if every piece fits, and only then for a counter that is never negative |
| `SymbolNames.JoinedSymbols` | internal/hosted/indexer/chunk.go:179-187 | the names of the pieces, none empty, with every run of one name collapsed into one and none lost or moved |
| `SymbolNames.NamesCollapse` | internal/hosted/indexer/chunk.go:179-187 | the same of the names a chunk carries |
| `SymbolNames.CollapseUnique` | internal/hosted/indexer/chunk.go:179-187 | a list can be collapsed in one way only |
| `Chunker.ChunkFile` | internal/hosted/indexer/chunk.go:45-94 | refuses exactly improper input; is still searching exactly if in some over-long unit some search does not end within the budget; otherwise cuts each unit into its pieces and packs them, failing only for a piece over the cap |
| `Chunker.FittingUnits` | internal/hosted/indexer/chunk.go:131-134 | where every symbol and every stretch between symbols fits, on any valid text, no search is made and the pieces are those units |
| `Chunker.AsciiNeverOverruns` | internal/hosted/indexer/chunk.go:131-177 | on ASCII text the chunker comes to an end with any counter |
| `Chunker.AsciiPiecesAreShort` | internal/hosted/indexer/chunk.go:131-177 | with a prefix-monotone counter each piece of ASCII text fits or is a single byte |
| `Chunker.SeparatorsAre` | internal/hosted/indexer/chunk.go:193-197 | the separators of the built-in counter in ASCII |
| `Chunker.ApproximateCountsWords` | internal/hosted/indexer/chunk.go:193-197 | the built-in counter counts the places where a word begins |
| `ChunkTheorems.ChunksRebuildTheFile` | internal/hosted/indexer/chunk.go:86-90 | the chunks joined are the file: every byte exactly once, in order |
| `ChunkTheorems.NoChunkOverTheCap` | internal/hosted/indexer/chunk.go:90 | with a subadditive counter no chunk counts more than the maximum |
| `ChunkTheorems.ChunksAreGreedy` | internal/hosted/indexer/chunk.go:71-92 | each chunk keeps the cap with its pieces counted one by one, would not have reached the minimum with fewer, and reaches it unless the next piece breaks the cap or there is none; path and token count are its own |
| `ChunkTheorems.LinesFitTogether` | internal/hosted/indexer/chunk.go:89 | the first chunk starts on line 1, each next one on the line its predecessor ended on, or on the next after a newline |
| `ChunkTheorems.BuiltInCounterIsFriendly` | internal/hosted/indexer/chunk.go:193-197 | on ASCII text the built-in counter meets what the two theorems above ask of a counter |
| `ChunkTheorems.SomeChunkerRunsForEverIff` | internal/hosted/indexer/chunk.go:45-94 | on a file without symbols some chunker never comes to an end, if and only if the file is not ASCII |
| `ChunkTheorems.MultiByteTextCanRunForever` | internal/hosted/indexer/chunk.go:145-165 | the bytes of "a", space, e-acute, the built-in counter and a cap of one token: the chunker never comes to an end |
| `Traversal.Traverse` | internal/hosted/graph/tools.go:93-124 | below the limit exactly the positive ids within reach, otherwise limit many of them and the nearest first; each once, by id; invalid queries are refused, and otherwise it fails only if the reader fails on ids within reach |
| `Traversal.Search` | internal/hosted/graph/tools.go:97-123 | the same for any depth and any positive limit |
| `Traversal.WithinStep` | internal/hosted/graph/tools.go:100-122 | one round reaches exactly what is one hop further |
| `Traversal.NothingBeyond` | internal/hosted/graph/tools.go:100 | once the frontier is empty, more rounds find nothing |
| `Traversal.HopIff` | internal/hosted/graph/tools.go:106-110 | a hop goes from source to target, and in reverse from target to source |
| `Traversal.MatchesIff` | internal/hosted/graph/tools.go:33-35 | what the reader is asked for |
| `Traversal.Validated` | internal/hosted/graph/tools.go:126-143 | accepted exactly in the documented ranges, and then within them |
| `Traversal.SortedToolSymbols` | internal/hosted/graph/tools.go:145-152 | the values of the map in any order, sorted strictly by id |
| `Siblings.FindSiblings` | internal/hosted/graph/tools.go:65-91 | all other symbols inside some symbol that contains the given one, or limit many of them, each once and by id; it fails exactly if the query is invalid or the reader fails |
| `Siblings.Gather` | internal/hosted/graph/tools.go:84-89 | targets other than the symbol itself are collected until the limit is met |
| `Overlay.BuildOverlay` | internal/hosted/graph/overlay.go:56-148 | refuses exactly the invalid inputs; otherwise builds the overlay of its specification |
| `OverlayTheorems.OverlayIdsDistinct` | internal/hosted/graph/overlay.go:82-112 | ids are pairwise distinct; kept symbols have positive ids, new ones negative |
| `OverlayTheorems.OverlayClosedIff` | internal/hosted/graph/overlay.go:114-138 | every edge starts in the overlay, and ends in it or at an unresolved name, if and only if each target the parser gives is open, in the same file, in an unchanged file, or a new number |
| `OverlayTheorems.OpenEdgeExample` | internal/hosted/graph/overlay.go:119-121 | an unknown target id is passed through |
| `OverlayTheorems.SurvivesByKey` | internal/hosted/graph/overlay.go:104-113 | a symbol of a changed file is mapped to the head symbol of the same joined key, or to none; others to themselves |
| `OverlayTheorems.KeyMeansPathKindName` | internal/hosted/graph/overlay.go:150-152 | where paths and kinds hold no NUL, joined keys are equal exactly for equal path, kind and name |
| `OverlayTheorems.SurvivesByName` | internal/hosted/graph/overlay.go:104-113 | the same survival, by path, kind and name |
| `OverlayTheorems.RewiredFrom` | internal/hosted/graph/overlay.go:128-138 | the base edges in the overlay are exactly the images of base edges under that map |
| `OverlayTheorems.DeltaExact` | internal/hosted/graph/overlay.go:104-146 | Added, Removed and Modified are exact and disjoint, and base keys less Removed plus Added are the head keys, for the joined keys |
| `OverlayTheorems.DeltaInFields` | internal/hosted/graph/overlay.go:104-113 | a head symbol is added exactly if no base symbol of a changed file has its path, kind and name; modified exactly if one has, with another signature, first line or last line; and in neither list if one agrees in all |
| `OverlayTheorems.RemovedInFields` | internal/hosted/graph/overlay.go:139-146 | a base symbol of a changed file is removed exactly if no head symbol has its path, kind and name |
| `OverlayTheorems.ChangesRefusedIff` | internal/hosted/graph/overlay.go:61-69 | which changes are refused |
| `OverlayTheorems.ParseRefusedIff` | internal/hosted/graph/overlay.go:85-124 | which parses are refused |
| `OverlayTheorems.HeadEdgesRenumber` | internal/hosted/graph/overlay.go:114-126 | the edges of a file are those of its parse, one for one, between the head symbols made of the symbols they name |
| `OverlayTheorems.HeadsAreParsed` | internal/hosted/graph/overlay.go:85-112 | the head symbols are the symbols the parser gives for the files that are not deleted, under new numbers |
| `OverlayTheorems.AnyEdgeCount` | internal/hosted/graph/overlay.go:114-138 | how often any edge is listed: as often as the parser found it, and once for each base edge that becomes it |
| `OverlayTheorems.NoStaleEdgesIff` | internal/hosted/graph/overlay.go:128-138 | every edge out of a head symbol is one the head parser found if and only if what each base edge out of a surviving symbol becomes is among those |
| `OverlayTheorems.EdgeCount` | internal/hosted/graph/overlay.go:114-138 | how often an edge out of a head symbol is listed: as often as the parser found it, and once for each base edge that becomes it |
| `OverlayTheorems.ListedOnceIff` | internal/hosted/graph/overlay.go:114-138 | all edges out of head symbols are listed once, if and only if the parser lists each of its edges once, no two base edges become the same edge, and none becomes one that the parser found |
| `OverlayTheorems.EdgeTwiceExample` | internal/hosted/graph/overlay.go:124-138 | a call that the head still has is in the overlay twice |
| `OverlayTheorems.StaleEdgeExample` | internal/hosted/graph/overlay.go:128-137 | a call removed in the head is still in the overlay |
| `Incremental.PlanReindex` | internal/hosted/indexer/reindex.go:22-52 | refuses exactly invalid inventories; otherwise the changed files and the gone paths, sorted, each once |
| `Incremental.PlanIncremental` | internal/hosted/graph/incremental.go:50-90 | refuses exactly invalid or unparsed input; otherwise deletions, replacements and relinks as specified, sorted |
| `IncrementalTheorems.IncrementalEqualsRebuild` | internal/hosted/graph/incremental.go:47-71 | deleting and then upserting gives the same store as a rebuild |
| `IncrementalTheorems.MutationInBlobs` | internal/hosted/graph/incremental.go:50-90 | upserts are the graphs of new and changed blobs, deletions their paths and the gone ones, relinks the upserted paths and the recorded importers of deleted paths |
| `IncrementalTheorems.PlanInBlobs` | internal/hosted/indexer/reindex.go:28-51 | upserts are the files with new and changed blobs, deletions the paths no file has any more, sorted |
| `IncrementalTheorems.RefusedIff` | internal/hosted/indexer/reindex.go:22-45 | which inventories are refused |
| `IncrementalTheorems.UnparsedIff` | internal/hosted/graph/incremental.go:58-62 | which parses are refused |
| `IncrementalTheorems.ReplanningIsEmpty` | internal/hosted/graph/incremental.go:50-90 | planning again from the result finds nothing to do |
| `IncrementalTheorems.DeletesAndRelinksAreDuplicateFree` | internal/hosted/graph/incremental.go:64-88 | no path is deleted or relinked twice |
| `IncrementalTheorems.RelinksAreCurrentIff` | internal/hosted/graph/incremental.go:72-85 | all relinked paths exist if and only if every recorded importer of a changed or deleted path does |
| `IncrementalTheorems.DeletedImporterExample` | internal/hosted/graph/incremental.go:77-80 | a deleted importer of a deleted file is listed for relinking |
| `Glob.GlobRegexp` | artifact_rules.go:77-105 | the loop emits the compiled expression of the trimmed glob; a glob of white space is no filter |
| `Glob.TrimmedParts` | artifact_rules.go:78 | strings.TrimSpace cuts off white-space characters of Unicode at both ends and leaves none there |
| `Glob.CompilePreservesMeaning` | artifact_rules.go:87-103 | the emitted expression accepts exactly what a direct recursive matcher matches, for every glob and path |
| `Glob.StarMatches` | artifact_rules.go:95-96 | * is any run of characters without a slash |
| `Glob.TwoStarsMatch` | artifact_rules.go:92-94 | ** is any run of characters without a newline |
| `Glob.DirectoriesMatch` | artifact_rules.go:89-91 | **/ is nothing, or any run up to and with a slash |
| `Glob.QuestionMatches` | artifact_rules.go:97-98 | ? is one character but a slash |
| `Glob.LiteralMatches` | artifact_rules.go:99-100 | anything else is itself |
| `Glob.SlashlessMatchesBase` | artifact_rules.go:82-84 | a glob without slash and ** matches exactly when it matches the part after the last slash |
| `Glob.BaseAddsNothingIff` | export.go:743-750 | for a path, filepath.Base adds nothing for any such glob if and only if the path is not empty and does not end in a slash, or is slashes alone |
| `GlobText.MeansWhatItSaysIffAscii` | artifact_rules.go:87-103 | the expression compiled from a text's bytes accepts exactly what the text means, character by character, if and only if the text is ASCII |
| `GlobText.GlobMeansWhatItSaysIffAscii` | artifact_rules.go:82-103 | the same with the directory part put before a glob without a slash |
| `GlobText.LiteralMatchesItselfIffAscii` | artifact_rules.go:99-100 | a wildcard-free path, with or without a slash, matches its own glob if and only if it is ASCII: the compiler quotes single bytes |
| `GlobText.AccentExample` | artifact_rules.go:99-100 | the file "é" is not matched by its own glob |
| `DiffText.SplitJoin` | export.go:455 | splitting at newlines undoes joining |
| `DiffText.HeaderRoundTrip` | export.go:449 | a printed hunk header gives back its two start lines, for counts written or left out |
| `DiffText.HeaderIff` | export.go:449 | a line is read as a header if and only if it is made like one, and what is read are its two numbers |
| `UnifiedDiff.ParseHunks` | export.go:451-484 | the line loop computes the fold of its one-line step |
| `UnifiedDiff.ParsingUndoesPrinting` | export.go:451-484 | any hunks, printed behind any preamble, are read back with consecutive old and new numbers |
| `UnifiedDiff.NotesChangeNothing` | export.go:463-465 | "no newline" notes and empty lines change nothing, wherever they stand |
| `UnifiedDiff.ForeignLinesChangeNothing` | export.go:464-478 | no line changes anything that is no header and begins with neither space, minus nor plus |
| `AddedLines.CollectAdded` | export.go:521-541 | the second reader's line loop computes the fold of its one-line step |
| `AddedLines.ReadersAgreeIff` | export.go:521-541 | on well-formed diffs both readers find the same added lines if and only if no line inside a hunk begins with "+++" |
| `AddedLines.PlusPlusExample` | export.go:529 | an added text beginning with "++" is dropped and the next line gets its number |
| `AddedLines.PlusPlusPrinted` | export.go:521-541 | the same under a header as diff prints it, with both readings written out |
| `AddedLines.CollectedLines` | export.go:524-540 | collected lines hold no newline |
| `RuleBlocks.ContiguousAddedBlocks` | export.go:727-737 | the blocks flatten to the input and, for increasing numbers, are its maximal consecutive runs |
| `RuleBlocks.RunsUnique` | export.go:727-737 | there is only one way to cut numbers into maximal runs |
| `RuleBlocks.NewlinesCountLines` | export.go:695-696 | the newlines before a position are the index of the one line it stands on, which is in bounds |
| `RuleBlocks.LineStartsThere` | export.go:690 | where each line begins in the joined text |
| `RuleBlocks.MatchBlock` | export.go:686-699 | a block that matches is reported, on the line where the match begins |
| `RuleBlocks.MatchBlocks` | export.go:685-704 | every matching block is reported in order, until there is no room left |
| `RuleBlocks.HitsUnique` | export.go:685-704 | the blocks have only one list of hits |
| `RuleHits.SortedLines` | export.go:680-684 | the line numbers of the map, in any order, strictly sorted |
| `RuleHits.RuleHitsUnique` | export.go:680-705 | a rule has one list of hits on a file, in whatever order the map of lines is walked |
| `RuleHits.RuleHitsOf` | export.go:680-705 | collecting, sorting, cutting into runs and matching composed: the hits of one block rule on one file's diff, for every pattern and room |
| `Ledger.CreditStore.Append` | internal/hosted/billing/ledger.go:30-31 | a known key answers with its entry; otherwise the entry is appended unless a constraint of the table forbids it |
| `Ledger.CreditStore.Reserve` | internal/hosted/billing/ledger.go:32-34 | the same, and only if the balance covers the credits |
| `Ledger.Grant` | internal/hosted/billing/ledger.go:40-45 | validates, then appends a positive entry |
| `Ledger.Reserve` | internal/hosted/billing/ledger.go:47-53 | validates, then reserves a negative entry |
| `Ledger.Settle` | internal/hosted/billing/ledger.go:55-64 | validates the reservation, then appends what was reserved less what was used |
| `Ledger.Refund` | internal/hosted/billing/ledger.go:66-74 | validates the reservation, then appends what was reserved |
| `LedgerTheorems.CreditsAreConserved` | internal/hosted/billing/ledger.go:40-74 | over every run the balance is grants less open reservations less settled actual usage |
| `LedgerTheorems.RepeatedKeyChangesNothing` | internal/hosted/billing/ledger.go:30-34 | once an entry is created, any later call with its key changes nothing and answers with it |
| `LedgerTheorems.GrantCreatesIff` | internal/hosted/billing/ledger.go:40-45 | when a grant creates an entry, which, and what it does to the balances |
| `LedgerTheorems.ReserveCreatesIff` | internal/hosted/billing/ledger.go:47-53 | the same of a reservation: also the balance covers it and the review has none |
| `LedgerTheorems.SettleCreatesIff` | internal/hosted/billing/ledger.go:55-64 | the same of a settlement, of nothing used or of more than was reserved as well |
| `LedgerTheorems.RefundCreatesIff` | internal/hosted/billing/ledger.go:66-74 | the same of a refund |
| `LedgerTheorems.SettledOrRefundedOnce` | migrations/0011_credit_ledger.up.sql:16-17 | no review is settled and refunded, or either of them twice |
| `LedgerTheorems.NeverOverdrawn` | internal/hosted/billing/ledger.go:55-63 | no balance is ever negative if no settlement uses more than it reserved |
| `LedgerTheorems.NeverOverdrawnIff` | internal/hosted/billing/ledger.go:55-64 | over a run the balances are never negative if and only if each created settlement is covered by its reservation and the balance at its step |
| `LedgerTheorems.OverdrawnExample` | internal/hosted/billing/ledger.go:55-63 | Settle does not check this: a run that ends at minus one |
| `LedgerTheorems.LogOnlyGrows` | migrations/0011_credit_ledger.up.sql:22-28 | the log is only ever appended to |
| `Ranking.RankAndCapFindings` | internal/hosted/review/rank.go:15-39 | stable sort, then the strongest finding of each kind, up to the cap |
| `Ranking.KeepStrongest` | internal/hosted/review/rank.go:22-37 | going down the ranking, findings that repeat none of the kept ones are kept until the cap is met |
| `Ranking.StrongerIsAnOrder` | internal/hosted/review/rank.go:41-60 | the comparison is a strict weak order, as the sort requires |
| `Order.StableSortIsStable` | internal/hosted/review/rank.go:20 | sort.SliceStable keeps the order of findings that tie |
| `Ranking.KeepsADistinctSortedPart` | internal/hosted/review/rank.go:12-39 | the result is a sorted part of the input, within the cap, without two same findings |
| `Ranking.DroppedAreRepresented` | internal/hosted/review/rank.go:23-37 | below the cap whatever is dropped is the same as a kept finding it does not beat |
| `Ranking.DroppedAtTheCap` | internal/hosted/review/rank.go:23-37 | at the cap, whatever is dropped is the same as a kept finding it does not beat, or beats none of them |
| `Ranking.SeverityFirst` | internal/hosted/review/rank.go:41-60 | in the result no finding stands behind a less severe one (anything but P1 and P2, then P1, then P2); within one severity confidence decreases, then path, first line, last line and title increase |
| `Ranking.SevereAreRepresented` | internal/hosted/review/rank.go:12-37 | a dropped finding that is more severe than a kept one is the same as a finding kept before that |
| `Ranking.SameFindingMeans` | internal/hosted/review/rank.go:62-89 | the same finding: one path, a line in common, and sixty of a hundred words |
| `Order.StrLessIff` | internal/hosted/review/rank.go:59 | texts are ordered by the first place where they differ |
| `Ranking.LargerCapExtends` | internal/hosted/review/rank.go:33-35 | a larger cap only adds findings at the end |
| `Ranking.OrderDoesNotMatter` | internal/hosted/review/rank.go:20 | without ties the order of the findings does not matter |
| `Ranking.CheckSame` | internal/hosted/review/rank.go:62-89 | same path, overlapping lines, and three fifths of all title words in common |
| `Ranking.CountLeft` | internal/hosted/review/rank.go:77-84 | the first word loop counts the common words |
| `Rollup.RollupDay` | internal/hosted/analytics/events.go:73-113 | fails exactly on a missing tenant or day, or a foreign, invalid or repeated event; otherwise the counters and the median of the day |
| `Rollup.RowMedianBetweenIff` | internal/hosted/analytics/events.go:101-111 | the day's median is the middle latency, or lies between the two middle ones if and only if their sum does not overflow 64 bits |
| `Rollup.NegativeMedianExample` | internal/hosted/analytics/events.go:109 | two reviews of 2^62 nanoseconds: the median is negative |
| `Rollup.RowCounts` | internal/hosted/analytics/events.go:77-100 | a row counts the reviews and findings of the 24 hours from its start, and the findings that were addressed and downvoted |
| `Rollup.RowLatencies` | internal/hosted/analytics/events.go:90-93 | the latencies of the median are those of these reviews |
| `Rollup.UtcDayMeans` | internal/hosted/analytics/events.go:162-164 | the start is the last whole day of 24 hours |
| `Rollup.ValidEventIff` | internal/hosted/analytics/events.go:166-177 | which events are valid, field by field |
| `Rollup.RefusedIff` | internal/hosted/analytics/events.go:81-84 | which events make the rollup fail |
| `RollupTheorems.RollupDayByDimension` | internal/hosted/analytics/events.go:117-160 | fails exactly when the overall row fails; the rows are those of all dimensions the events of the day name, each once, sorted |
| `RollupTheorems.SelectionAcceptable` | internal/hosted/analytics/events.go:146-154 | a selection of acceptable events is acceptable, so no dimension can fail |
| `RollupTheorems.CountersAddUp` | internal/hosted/analytics/events.go:115-160 | overall counters are the sums over author rows plus authorless events; a team's counters the sums over its author rows plus its authorless events |
| `RollupTheorems.DimensionRowCounts` | internal/hosted/analytics/events.go:145-158 | a row by dimension counts the same among the events that its team and author pick |
| `RollupTheorems.DimensionRowLatencies` | internal/hosted/analytics/events.go:145-158 | and its median is that of their latencies |
| `RollupTheorems.CalledIff` | internal/hosted/analytics/events.go:126-139 | there is a row for exactly the teams, the authors and the pairs that events of the day name |
| `RollupTheorems.RowsByTeamAndAuthor` | internal/hosted/analytics/events.go:144 | rows stand by team and then by author, where no team holds a NUL |
| `RollupTheorems.OneOrderIff` | internal/hosted/analytics/events.go:143-144 | the order of the rows is determined if and only if no two dimensions named by the events share a sort key |
| `RollupTheorems.PlainTeamsTellApart` | internal/hosted/analytics/events.go:144 | no two share one where no team holds a NUL |
| `RollupTheorems.OrderOfEventsDoesNotMatter` | internal/hosted/analytics/events.go:73-160 | where no two share one, every order of the events gives the same rows, medians included |
| `RollupTheorems.NulExample` | internal/hosted/analytics/events.go:144 | two acceptable events with two right lists of keys and two different lists of rows |
| `Attention.ChangedTextLines` | attention.go:129-149 | a new line is added exactly if it is one occurrence more than the old text has; removed is the size of the multiset difference |
| `Attention.LineEndsMakeNoDifference` | attention.go:151-157 | lines written with either line end are read back; a text of one empty line has none |
| `Attention.LastLineNeedsNoEnd` | attention.go:151-157 | a last line without a line end is a line like the others |
| `Attention.ListedIff` | attention.go:129-143 | a line is listed under its number if and only if up to there its text stands in the new text more often than in the whole old text |
| `Attention.AddedNumbers` | attention.go:137-143 | numbers strictly increase and each stands on its own text |
| `Attention.EveryAddedLineListed` | attention.go:137-143 | every line that exceeds its old count is listed |
| `Attention.ChangesBalance` | attention.go:129-149 | the added texts are new less old, and old plus added lines are as many as new plus removed lines |
| `Attention.NoChangesIff` | attention.go:129-149 | nothing is reported if and only if both texts have the same lines in some order |

## Left out

- BoundedSearch.BoundedEnd: a loop that may run for ever cannot be a Dafny method, so it takes a budget of iterations; "never ends" is "for no budget", and the total results name a budget that suffices. On text that is not ASCII it is not said in closed form which single searches end, only which cut is found when they do.
- Chunker.ApproximateAppend: the Unicode tables of the built-in counter are modelled for ASCII; bytes beyond it count as letters.
- Chunker.ChunkFile: an error message and the joined form of a chunk's symbol names are left out; the names are kept as a list.
- Blocks.GroupBlocks: identifier, title and summary are not in the contract; the first is a hash of the paths, the others are texts made of the topic and the number of paths.
- Ranking.CheckSame: confidence and similarity are exact numbers, not floating point; paths are taken cleaned and titles as word sets.
- Glob.GlobRegexp: of the regular-expression engine only the operators that the compiler emits are modelled.
- AddedLines.CollectAdded: cutting the whole diff at "diff --git " and finding each file's path are left out; one file's block is given.
- UnifiedDiff.ParseHunks: hunk identifiers are hashes of path and header; line counters are unbounded, the parsed start saturates as strconv.Atoi does.
- RuleHits.RuleHitsOf: one file and one rule; the loops over files and rules and the line rules are left out.
- RuleBlocks.MatchBlock: a rule's pattern is any function from texts to an optional match start; hit keys and clipping are left out.
- Traversal.Traverse: the reader is a function of its query; the theorems on results ask that what it answers is all matching edges; it may fail. Callers, Callees, TestsFor and Implementers only choose arguments.
- TokenCache.CachedTokenSource.Enter: critical sections are single steps, and the waiting on a channel or a context between them exists only in the step system; the minter may answer anything.
- Ledger.CreditStore.Append: no store is part of the source; this one keeps the interface's contract and the table's constraints. Row identifiers, time stamps, tenant isolation and 64-bit wrap-around are left out.
- Rollup.RollupDay: instants are integers, so time zones are left out; the nightly job only passes rows to a store.
- Tokenizing names and lines into signals, titles and identifiers of blocks: the sets of tokens are given.
- The parts of attention.go that classify paths, and export.go beyond the functions above: independent predicates and I/O.
- HTTP, GitHub, GitLab, Slack and Stripe clients, cryptography, JSON, SQL stores, git subprocesses, parsers and the user interface: I/O or code that cannot be seen here.
