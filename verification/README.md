# Verified core of Context Window

Context Window archives what leaves a coding agent's context and lets the agent search and recall it. This
project models the parts of it whose correctness is not visible from reading one function, and proves what
they are for. A Dafny file that models a source file names it in its first
sentence.

- **Model profiles** (`LiteralSearch`, `CaseFold`, `Glob`, `ModelProfiles`). The wildcard matcher is a
  Knuth-Morris-Pratt search inside a greedy placement; it is proved equal to the declarative meaning of a
  pattern, with a linear bound on comparisons. The layer merge is proved equal to a specification that looks at
  all declarations at once.
- **The Pi adapter** (`HandleLog`, `RecallHandles`, `PagePatterns`, `TraversalPage`, `RecordReading`,
  `TraversalGate`, `Lifecycle`). Four maps of recall handles refine a log of exposures; the traversal gate,
  whose state is parsed back out of printed text, always names a displayed result, and it is said exactly when
  it leads there; sessions and timers are released exactly once over every run with exceptions, as long as
  timers can be cleared.
- **Budgeted presentation** (`Scanner`, `TokenEstimate`, `Json`, `RecordList`, `Presentation`, `SearchRecords`,
  `Recall`). The token estimator of `src/session/model-token-budget.js` is modelled itself, not assumed: it is
  proved, as equivalences, where concatenation costs no more than its parts and where prefixes only get dearer;
  the accumulating loops are proved to stay within budget for it and to stop only where they have to.
- **Encodings** (`JsonText`, `CanonicalJson`, `Tiling`, `Utf8Evidence`, `EvidenceDocument`, `JsonReader`,
  `Arguments`, `LaunchArguments`). Printers are injective, parsers are their inverses, byte offsets fall where
  they should.
- **Evaluation kernels** (`QueryContext`, `Ndcg`, `Percentiles`, `JudgeSummary`, `WorkerPool`, `ReadyLine`).

`Wrappers`, `Numbers`, `Sequences`, `Decimals` and `WhiteSpace` are shared. Objects that the source updates in
place are classes (`CaseFolder`, `HandleTable`, `Gate`, `Adapter`, `Scorer`, `Readiness`); their methods are
tied to functions on values, and what holds over whole runs is proved of those functions. Loops of the source
are loops here.

`dafny verify dfyconfig.toml` checks everything.

## Conventions

- Exceptions are values. A call that may throw contributes a Boolean or a missing result to the event that
  contains it, so a statement about every event covers every combination of failures.
- Facts the source takes from elsewhere are parameters: the Unicode case mappings and character properties, the
  logarithm of `Ndcg` (two at one, strictly growing), `JSON.parse` (it reads back what is printed for a value
  the language can hold, as `JsonReader` is proved to do), the answers of the archive, the verdicts of judges,
  the readability of images.
- A number that is only printed is the text it is printed with.
- Where lemmas are easier to state for any cost, naming or judgment, the function is a parameter and a second
  lemma supplies the repository's own.

## Where code and documentation differ

The code is followed. The comment on `modelVisiblePrefix` (`src/session/model-token-budget.js:47`) promises the
longest prefix that fits. That is not what a binary search finds, because the estimate is not monotone: "decade"
is a hexadecimal string and costs six tokens, "decades" is a word and costs two
(`TokenEstimate.VisiblePrefixNotLongest`). It finds it for all beginnings of a text and all budgets if and only
if no word of the text outgrows a hexadecimal stem (`TokenEstimate.VisiblePrefixLongestIff`, and
`Presentation.FittedLengthLongestIff` for snippets), which is exactly when prefixes only get dearer
(`TokenEstimate.PrefixesGrowIff`). Likewise the estimate is not subadditive in general
(`TokenEstimate.EstimateNotSubadditive`), and `TokenEstimate.EstimateSubadditiveIff` says when it is; the budgets
hold because the presentation joins texts only at white space or braces.

## Model

| member | source | states |
|---|---|---|
| `LiteralSearch.FallBack` | src/config.js:246 | the fallback loop along the border table ends at the longest overlap that the next token can still extend, and what it costs is paid for by the length it gives up |
| `LiteralSearch.Extend` | src/config.js:251-253 | after one more token `matched` is again the longest prefix of the literal that ends there; comparisons plus progress stay within three a token |
| `LiteralSearch.BorderTable` | src/config.js:244-249 | every table entry is the length of the longest proper border of the prefix that ends there, found with at most three comparisons a token |
| `LiteralSearch.LiteralPosition` | src/config.js:243-257 | returns the least position in the stretch where the whole literal occurs, and -1 if and only if there is none; comparisons are linear, those of a hit in the stretch it consumes |
| `CaseFold.CaseFolder.ExceptionalCaseFold` | src/config.js:261-271 | with or without a cached entry the result is the fold of the character, although the cache key omits the candidate |
| `CaseFold.CaseFolder.SimpleCaseFold` | src/config.js:273-282 | the folded tokens are the fold of each character, whatever the cache holds; that of an ASCII letter is its lower case |
| `CaseFold.FoldsAlikeIff` | src/config.js:273-282 | ASCII texts fold alike if and only if they differ at most in case; any texts do if they differ at most in the case of ASCII letters |
| `CaseFold.ExceptionIff` | src/config.js:261-282 | the lower case of the one capital of a character takes the place of its own lower case if and only if they differ and the engine takes them for one character |
| `CaseFold.OneCapitalFoldsAlike` | src/config.js:273-282 | characters with one capital that the engine takes for it fold alike |
| `Glob.SameTokens` | src/config.js:284-287 | decides equality of token lists |
| `Glob.TokensAt` | src/config.js:289-293 | decides whether a literal occurs at a position, for positions outside the value too |
| `Glob.GreedyChoice` | src/config.js:321-325 | placing a middle literal at its leftmost occurrence never loses a match: the literals fit somewhere if and only if the rest fits behind that place |
| `Glob.EmptyPiecesDrop` | src/config.js:303-305 | dropping the empty pieces between adjacent wildcards does not change what can be placed |
| `Glob.StarPatternDecompose` | src/config.js:301-326 | a pattern with a wildcard matches, in the declarative sense, if and only if the value starts with the first piece, ends with the last one without overlapping it, and holds the middle ones in order in between |
| `Glob.NoStarMatches` | src/config.js:300 | a pattern without a wildcard matches if and only if its fold is the folded value |
| `Glob.PlaceLiterals` | src/config.js:321-326 | decides whether the literals can be placed in order in the stretch, at a cost linear in literals and stretch |
| `Glob.TakeEnds` | src/config.js:308-320 | the anchored prefix and suffix are checked and may not overlap; what remains is the stretch for the other literals |
| `Glob.GlobMatches` | src/config.js:295-327 | true if and only if the folded value matches the folded pattern, where a wildcard stands for any token sequence; at most three token comparisons for each character of pattern and value |
| `Glob.MatchesIgnoresCase` | src/config.js:295-327 | the case of ASCII letters makes no difference to a match, neither in the pattern nor in the value |
| `Glob.AsciiNameMatches` | src/config.js:300 | a pattern without a wildcard matches ASCII text if and only if it is that text up to case |
| `ModelProfiles.NormalizeModelProfiles` | src/config.js:201-222 | the loop computes the normalized entries |
| `ModelProfiles.NormalizeKeeps` | src/config.js:201-222 | every entry with a slash and a record is kept, in order and even without a usable field, with its usable fields and no others |
| `ModelProfiles.MergeModelProfiles` | src/config.js:224-241 | the deleting and reinserting loop yields the entries merged one declaration at a time |
| `ModelProfiles.MergeEntryDeclares` | src/config.js:226-239 | merging one more declaration into what was declared so far gives what is declared with it: one entry for each case-insensitive identity with a policy, spelled and ordered by its last declaration, each field its last valid value |
| `ModelProfiles.MergeAllDeclares` | src/config.js:224-241 | the same for all declarations of a layer |
| `ModelProfiles.LoadModels` | src/config.js:417-420 | folding all normalized layers from nothing yields exactly the declarative result over all their declarations |
| `ModelProfiles.FindModelProfile` | src/config.js:329-344 | returns the last entry of maximal specificity among those that match, and nothing if and only if none matches or the model has no provider or id |
| `ModelProfiles.SpecificityCounts` | src/config.js:336 | specificity is the number of UTF-16 code units that are not wildcards |
| `ModelProfiles.NameWins` | src/config.js:329-344 | an entry that names the model is not beaten by anything declared before it, wildcard or not |
| `HandleLog.Naming.ExposeRefines` | extensions/pi.ts:488-520 | one exposure, with its evictions, keeps the four maps in agreement with a plain log of all exposures |
| `HandleLog.Naming.ExposeAllRefines` | extensions/pi.ts:488-520 | so does every sequence of exposures |
| `HandleLog.Naming.LiveHandles` | extensions/pi.ts:505-519 | the live handles are exactly the last thousand numbers handed out |
| `HandleLog.Naming.MapsAreInverse` | extensions/pi.ts:493-517 | both handle maps have the same keys, at most a thousand, and the two target maps are inverse to each other |
| `HandleLog.Naming.HandlesNotReassigned` | extensions/pi.ts:493-499 | two exposures under one handle exposed the same target, however long ago the first was evicted |
| `HandleLog.Naming.ShownAlikeIff` | extensions/pi.ts:488-520 | two results are shown under one handle only if they have one target, and always then while the handle of the first is live |
| `HandleLog.Naming.DocumentResolvesToLatest` | extensions/pi.ts:505-525 | a document id is known if and only if the handle of its latest exposure is live, and resolves to the latest locator under that handle |
| `HandleLog.Naming.HandleResolvesToLatest` | extensions/pi.ts:522-525 | a live handle resolves to the latest locator of its target if and only if no known document id spelled like it leads elsewhere |
| `HandleLog.Naming.ExposedHandles` | extensions/pi.ts:519 | each result is shown under the handle that the log gives it |
| `HandleLog.Naming.PageHandleLive` | extensions/pi.ts:500-519 | a handle on a page is live once the whole page has been exposed if and only if at most a thousand numbers separate it from the end |
| `HandleLog.Naming.PageSurvivesIff` | extensions/pi.ts:500-519 | a shown handle survives the rest of its page, whatever the k results behind it are, if and only if the counter before the call, once the handle has its number, is at most a thousand less k above that number |
| `HandleLog.Naming.PageHandleEvicted` | extensions/pi.ts:505-519 | a refreshed handle keeps its place in the order and can be evicted by the rest of its own page |
| `HandleLog.Naming.HandleShadowedByDocument` | extensions/pi.ts:522-525 | a document named like a live handle takes its place |
| `RecallHandles.HandlesAreDistinct` | extensions/pi.ts:495 | the adapter spells its handles apart, so all of the above holds for it |
| `RecallHandles.SameTargetIff` | extensions/pi.ts:490-492 | targets whose parts hold no separator are equal if and only if they are the same version of the same document, in one project and session, or the same locator without a document; an absent version is the first |
| `RecallHandles.ShownAlikeIff` | extensions/pi.ts:488-520 | two results are shown under one handle only if they have the same source in that sense, and always then while the handle of the first is live |
| `RecallHandles.SeparatorConfuses` | extensions/pi.ts:490-492 | the concrete case: a separator inside a part makes two documents one target |
| `RecallHandles.DocumentShadowsHandle` | extensions/pi.ts:522-525 | the concrete case: after exposing a document called r1, r1 resolves to that document |
| `RecallHandles.PageShowsEvictedHandle` | extensions/pi.ts:505-519 | the concrete case: a page that shows r1 although r1 is no longer live |
| `RecallHandles.HandleSurvivesIff` | extensions/pi.ts:500-519 | the same for the spelling of the adapter, read off its table before the call |
| `RecallHandles.HandleTable.constructor` | extensions/pi.ts:414-418 | a new table is empty and starts at one |
| `RecallHandles.HandleTable.ForgetDocuments` | extensions/pi.ts:513-515 | exactly the document ids that led to the evicted handle are removed |
| `RecallHandles.HandleTable.EvictOldest` | extensions/pi.ts:506-515 | removes the first inserted handle from all four maps |
| `RecallHandles.HandleTable.AdmitRecallHandle` | extensions/pi.ts:489-504 | a known target keeps its handle and refreshes its locator; a new one gets the next number |
| `RecallHandles.HandleTable.ExposeRecallHandle` | extensions/pi.ts:489-519 | the map updates of one result and the eviction loop are one exposure of the model |
| `RecallHandles.HandleTable.ExposeRecallHandles` | extensions/pi.ts:488-520 | the whole list is exposed in order and shown under its handles; in a new table, two results get one handle only if they have the same source, and always then while that handle is live |
| `RecallHandles.HandleTable.ResolveRecallHandle` | extensions/pi.ts:522-525 | document id first, then handle, then the id itself: the answer is a live locator or the id |
| `TokenEstimate.EstimateModelVisibleTokens` | src/session/model-token-budget.js:24-43 | the loop over the lexical units computes the sum of their charges |
| `TokenEstimate.UnitCosts` | src/session/model-token-budget.js:24-43 | each unit adds its own cost: a symbol its bytes, white space a quarter of them rounded up, a word all of them if it holds a character of Chinese, Japanese or Korean script or looks like an identifier, and else a quarter |
| `TokenEstimate.EstimateSplits` | src/session/model-token-budget.js:24-43 | a cut that runs through no word and no white space splits the estimate exactly |
| `TokenEstimate.EstimateSubadditiveIff` | src/session/model-token-budget.js:24-43 | concatenation costs at most its parts if and only if it does not fuse two words into one that is charged by the byte while one of them was not |
| `TokenEstimate.EstimateNotSubadditive` | src/session/model-token-budget.js:5-11 | the input for which it does cost more: "page" and "2048" |
| `TokenEstimate.PrefixDropsAt` | src/session/model-token-budget.js:3-11 | one more character makes a prefix cheaper if and only if it ends a hexadecimal stem of six or more digits |
| `TokenEstimate.PrefixesGrowIff` | src/session/model-token-budget.js:24-43 | the estimate is monotone on the prefixes of a text if and only if no word outgrows such a stem |
| `TokenEstimate.PrefixCanDrop` | src/session/model-token-budget.js:3-11 | the input for which it is not: "decade" costs more than "decades" |
| `TokenEstimate.BisectLoop` | src/session/model-token-budget.js:58-71 | the binary search loop computes the recursive search, for any test |
| `TokenEstimate.ModelVisiblePrefix` | src/session/model-token-budget.js:48-72 | the method computes the prefix that the properties below are about |
| `TokenEstimate.VisiblePrefixFits` | src/session/model-token-budget.js:48-72 | the result is a prefix that fits together with its suffix, or nothing |
| `TokenEstimate.VisiblePrefixKept` | src/session/model-token-budget.js:48-72 | the prefix fits, one more character would not, and no longer one does where prefixes only get dearer |
| `TokenEstimate.VisiblePrefixLongestIff` | src/session/model-token-budget.js:47-72 | the search finds the longest prefix, for every beginning of the text and every budget, if and only if no word of the text outgrows a hexadecimal stem |
| `TokenEstimate.StemDefeats` | src/session/model-token-budget.js:47-72 | where a word outgrows such a stem, the search misses a longer prefix that fits |
| `TokenEstimate.VisiblePrefixNotLongest` | src/session/model-token-budget.js:47 | the input for which it is not the longest: "decades" with a budget of two |
| `Presentation.CapFits` | src/presentation.js:99-119 | capped text never exceeds its budget, and text within the budget is left alone |
| `Presentation.CapForm` | src/presentation.js:99-115 | text that fits is left alone; text that is cut keeps what the search finds in front of the marker or, if that is nothing, in front of an ellipsis, or makes way for as many dots as there are tokens, and never vanishes while there is one |
| `Presentation.FitSnippet` | src/presentation.js:327-343 | the inner search keeps the snippet prefix that the model computes |
| `Presentation.FitRecordMethod` | src/presentation.js:303-345 | the method fits one record as the model does: nothing if and only if no form fits, never more than is available, and cut as FitRecordCuts says |
| `Presentation.FitRecordFits` | src/presentation.js:303-345 | nothing is produced if and only if none of the four forms fits; what is produced costs no more than what is available |
| `Presentation.FitRecordForm` | src/presentation.js:303-345 | the whole record if that fits, else the record with a snippet prefix or one of the two notices if one fits, flagged accordingly |
| `Presentation.FitRecordCuts` | src/presentation.js:303-345 | a result that does not fit whole keeps its record, with a snippet prefix that fits while one more character would not, and the longest that fits if no word outgrows a hexadecimal stem; a notice replaces it only if the record does not fit without a snippet |
| `Presentation.FittedSingleLine` | src/presentation.js:303-345 | whatever is shown of a search result, whole, cut or as a notice, is on one line, whatever its texts say |
| `Presentation.FittedLengthLongestIff` | src/presentation.js:327-343 | the search keeps the longest snippet prefix, for every beginning of the snippet and every number of tokens that holds the record at all, if and only if no word of the escaped snippet outgrows a hexadecimal stem |
| `RecordList.RenderRecords` | src/presentation.js:336-356 | the accumulating loop with its five exits computes the recursive rendering |
| `RecordList.RenderFits` | src/presentation.js:336-356 | the loop never exceeds the budget |
| `RecordList.RenderShows` | src/presentation.js:336-356 | it shows whole records in order and stops only where all are shown, less is left than the smallest record costs, or the next one does not fit whole; of that one it adds what fits |
| `Presentation.FormatSearchResults` | src/presentation.js:254-357 | the method computes the text that the next rows are about, within the token budget: where the header fits, the listing of SearchTextShows |
| `Presentation.SearchTextFits` | src/presentation.js:254-357 | on every path the output stays within the token budget |
| `Presentation.SearchTextShows` | src/presentation.js:254-357 | either only the header was cut, as little as the search can tell, or the header is followed by the first results whole and in order, up to where the loop has to stop, and by the next one, cut as FitRecordCuts says |
| `Presentation.NextRecordShown` | src/presentation.js:336-356 | where another record may follow, it does not fit whole, and something of it is shown if and only if one of its forms fits |
| `Presentation.NoResultsShown` | src/presentation.js:254-357 | without results, the header says so, whole if that fits |
| `SearchRecords.RecordReads` | src/presentation.js:277-292 | a search record, whole or cut, reads as JSON with its format, its trust, its place in the list as rank, and the properties of the result, whatever these say |
| `Json.EscapeDecodes` | src/retrieval/render.js:44-50 | an escaped text is read back unambiguously up to its closing quote (section 7 of RFC 8259), with and without the extra line separators |
| `Json.QuoteDecodes` | src/retrieval/render.js:44-50 | a printed string literal names one text, whatever follows it |
| `Json.EscapedQuotes` | src/retrieval/render.js:44-50 | in an escaped text every quote follows a backslash |
| `Json.EscapedSingleLine` | src/retrieval/render.js:44-50 | an escaped text holds no control character and neither of the two line separators, whatever the text says |
| `TraversalPage.CollapseShape` | src/presentation.js:131-137 | a snippet is no longer than its text, holds no white space but single blanks, and keeps every other character in order |
| `TraversalPage.RunCollapses` | src/presentation.js:131-137 | every run of white space becomes one blank, wherever it stands |
| `TraversalPage.RecordRegular` | src/presentation.js:129-138 | whatever its snippet says, a record offers its handle, once, to the adapter's patterns and nothing else |
| `TraversalPage.RecordSingleLine` | src/presentation.js:129-138 | a traversal record is on one line, whatever its snippet says |
| `TraversalPage.FormatTraversalResults` | src/presentation.js:121-155 | the loop over growing pages computes the text that the next rows are about, within its budget |
| `TraversalPage.TraversalTextFits` | src/presentation.js:121-155 | the page stays within its budget on every path |
| `TraversalPage.ShownGreedy` | src/presentation.js:139-152 | all shown prefixes fit, and one more result would not |
| `PagePatterns.PageIds` | extensions/pi.ts:1207-1210 | from a heading followed by lines, the identifier pattern reads exactly the identifiers of the lines, in order |
| `PagePatterns.PageContinues` | extensions/pi.ts:1202 | the continuation pattern finds the continuation whose text comes first |
| `PagePatterns.PageEnds` | extensions/pi.ts:1202 | it finds nothing where no quote follows an equals sign in front of a direction |
| `TraversalPage.TraversalRoundTrip` | extensions/pi.ts:1201-1213 | parsing a printed page recovers exactly the displayed handles and, if and only if something is displayed and more remains, the last displayed handle with the direction |
| `RecordReading.PageReads` | src/presentation.js:129-156 | the last lines of a page are the displayed records: each reads as JSON with the handle and the first 72 characters of the text, every run of white space in them a blank |
| `TraversalGate.PageRemembered` | extensions/pi.ts:1202-1213 | what the adapter keeps after a page is what the page displayed |
| `TraversalGate.Gate.ConsultTool` | extensions/pi.ts:1058-1062 | search and gather are refused while a traversal is pending, and expose their results otherwise |
| `TraversalGate.Gate.TraverseTool` | extensions/pi.ts:1182-1227 | anything but the pending continuation is refused; otherwise the gate is reopened, the archive asked and the printed page parsed |
| `TraversalGate.Gate.RecallTool` | extensions/pi.ts:1235-1254 | an id that is not displayed is refused; a displayed one resolves the traversal |
| `TraversalGate.RunSound` | extensions/pi.ts:1182-1254 | over every run, whatever the archive answers or throws, the pending continuation is one of the displayed ids |
| `TraversalGate.GateHolds` | extensions/pi.ts:1182-1254 | a call is refused if and only if it does not resolve the pending traversal; a refusal changes nothing, and afterwards exactly what the new page shows is pending |
| `TraversalGate.WayOut` | extensions/pi.ts:553-564 | in every run the call that a refusal names is accepted, and so is recalling the id it names |
| `TraversalGate.ContinuationLeads` | extensions/pi.ts:500-564 | in every run the continuation that a printed page leaves leads to the latest locator of the last displayed result if and only if no document of its name leads elsewhere and its handle is live, as it is if the counter was within reach of its number |
| `Lifecycle.Adapter.Close` | extensions/pi.ts:873-874 | a close counts whether or not it throws |
| `Lifecycle.Adapter.StopProtectionRefresh` | extensions/pi.ts:435-439 | clears the running timer, and keeps it if clearing throws |
| `Lifecycle.Adapter.RestartProtectionRefresh` | extensions/pi.ts:441-447 | the new timer runs before anything else can throw |
| `Lifecycle.Adapter.OnSessionStart` | extensions/pi.ts:742-902 | the handler, with exceptions at any fallible step, moves the state as the model does |
| `Lifecycle.Adapter.SetUpSession` | extensions/pi.ts:765-876 | the part that opens archive and session |
| `Lifecycle.Adapter.EnterSession` | extensions/pi.ts:877-902 | the transition to the new session |
| `Lifecycle.Adapter.OnContext` | extensions/pi.ts:904-933 | what becomes of the messages of a context event: raw ones pass only before any start, bounded ones only from a ready session |
| `Lifecycle.Adapter.OnBeforeCompact` | extensions/pi.ts:966-986 | a checkpoint or a cancellation |
| `Lifecycle.Adapter.OnSessionShutdown` | extensions/pi.ts:997-1024 | the handler goes through all steps and reports the first failure |
| `Lifecycle.StepConsistent` | extensions/pi.ts:742-1024 | from a consistent state an event leads to a consistent one if and only if no running timer refuses to be cleared: session and exactly one live timer when ready, neither otherwise, every other archive released exactly once |
| `Lifecycle.RunConsistent` | extensions/pi.ts:742-1024 | so over every run in which timers clear, whatever else throws |
| `Lifecycle.RunGuarded` | extensions/pi.ts:742-1024 | over every run at all, nothing is released twice and there is a session if and only if the state is ready |
| `Lifecycle.ContextFailsClosed` | extensions/pi.ts:904-933 | raw messages get through if and only if no start or shutdown was ever attempted, bounded ones if and only if a ready session processes them, and everything else is refused |
| `Lifecycle.CompactionFailsClosed` | extensions/pi.ts:966-986 | a compaction is checkpointed by a ready session or cancelled, never left to the host |
| `Lifecycle.StartReports` | extensions/pi.ts:742-902 | a start ends ready if and only if nothing failed, and says so or what failed first; ready, it holds the newest archive and a running timer, and otherwise no archive is open and no timer runs |
| `Lifecycle.ShutdownReleases` | extensions/pi.ts:997-1024 | after a shutdown everything is released, and it is silent if and only if no step failed |
| `Lifecycle.ReportsFirst` | extensions/pi.ts:1000-1023 | the failure that is reported is the first |
| `Lifecycle.TimerLeaks` | extensions/pi.ts:877-885 | the one leak: if a timer neither detaches nor clears, the new session stays open |
| `JsonText.PrintDecodes` | eval/retrieval/schema.js:171-173 | a printed value is read back unambiguously, whatever may follow it, compact or indented |
| `JsonText.PrintInjective` | eval/retrieval/schema.js:171-173 | no two values are printed alike |
| `JsonText.CompactBlanks` | eval/retrieval/schema.js:171-173 | compact text holds no white space but that of the strings in it |
| `CanonicalJson.ArrangeUnique` | eval/retrieval/schema.js:161-169 | sorted objects are equal if and only if they have the same members |
| `CanonicalJson.ArrangedInOrder` | eval/retrieval/schema.js:164-168 | keys come out with array indices by value first, then the others by UTF-16 code units |
| `CanonicalJson.ArrayIndexIff` | eval/retrieval/schema.js:164-168 | a key stands for an array index if and only if it is how that index is printed, up to 4294967294 |
| `CanonicalJson.KeyBeforeIff` | eval/retrieval/schema.js:164-166 | keys are compared character by character, those beyond the Basic Multilingual Plane before U+E000 |
| `CanonicalJson.CanonicalAgrees` | eval/retrieval/schema.js:161-169 | canonical values are equal if and only if the values are equal up to key order at every level |
| `CanonicalJson.CanonicalSame` | eval/retrieval/schema.js:161-169 | canonicalizing changes nothing but key order, and doing it twice changes nothing more |
| `CanonicalJson.CanonicalTextsAgree` | eval/retrieval/schema.js:171-173 | canonical texts are equal if and only if the values are equal up to key order |
| `CanonicalJson.FromEntriesAgain` | eval/retrieval/schema.js:164-168 | an object lists its properties in one order: building it again from that list changes nothing |
| `Utf8Evidence.LocatesUnique` | eval/retrieval/schema.js:231-243 | a location is found if and only if the evidence is not empty and occurs exactly once, overlaps counted; absence is reported if and only if it does not occur |
| `Utf8Evidence.LocatedBytes` | eval/retrieval/schema.js:227-243 | the bytes at the location are exactly those of the evidence |
| `Utf8Evidence.LocatedBytesUnique` | eval/retrieval/schema.js:231-243 | and nowhere else in the UTF-8 text do these bytes occur |
| `Utf8Evidence.Utf8ScalarTokens` | eval/retrieval/rocksdb-backend.js:18-27 | the loop computes one token for each character |
| `Utf8Evidence.TokensTile` | eval/retrieval/rocksdb-backend.js:18-27 | for every string, lone surrogates included, the tokens lie end to end from 0 to its byte length and spell it |
| `Utf8Evidence.LocatedOnBoundaries` | eval/retrieval/schema.js:231-243 | located evidence starts and ends between tokens |
| `QueryContext.Query` | eval/agent-memory/compatibility.js:97-136 | the nested loops produce the context that the next rows are about, within the shares of QueryShares, and fail if and only if a selected image cannot be read |
| `QueryContext.Selected` | eval/agent-memory/compatibility.js:106-112 | the images of a result are the first of its own, at most the configured number |
| `QueryContext.SelectedMaximal` | eval/agent-memory/compatibility.js:106-112 | no image is left out that the share would pay for and the settings allow |
| `QueryContext.TextBudget` | eval/agent-memory/compatibility.js:113-125 | every text gets at least one token |
| `QueryContext.ChargeWithinShare` | eval/agent-memory/compatibility.js:104-134 | a result is charged at most its share, and exactly its share if it has text |
| `QueryContext.QueryShares` | eval/agent-memory/compatibility.js:102-104 | each share is the greatest number of tokens that all results still to come could have alike, at least one; if every result has text, they are even throughout |
| `QueryContext.SharesEven` | eval/agent-memory/compatibility.js:102-104 | results that use up their shares have even ones: the i-th of n is (max(budget, n) + i) / n rounded down |
| `QueryContext.ContextShows` | eval/agent-memory/compatibility.js:105-132 | the context shows each result within its share: its text in what its images leave, and the greatest number of images that the share pays for |
| `QueryContext.EvidenceShown` | eval/agent-memory/compatibility.js:113-126 | the text of a result carries label, identifier, snippet and text, whole if they fit |
| `QueryContext.TotalChargeBounded` | eval/agent-memory/compatibility.js:101-134 | whatever results make of their shares, charges total at most max(budget, results) |
| `QueryContext.ChargesBounded` | eval/agent-memory/compatibility.js:101-134 | the caps and image charges total at most max(budget, results), and exactly that if all results have text |
| `QueryContext.ContextWithinBudget` | eval/agent-memory/compatibility.js:97-136 | the whole context, counted as its reader counts it, costs at most max(budget, results) |
| `Ndcg.DiscountShrinks` | eval/agent-memory/compatibility.js:34-39 | discounts never grow, and only the first two are equal |
| `Ndcg.DiscountInverse` | eval/agent-memory/compatibility.js:34-39 | the first position counts in full, every other by the inverse of the logarithm of its number |
| `Ndcg.FrontIsBest` | eval/agent-memory/compatibility.js:34-39 | the sum is largest when the gains stand in front, and only then, but for a single gain in second place |
| `Ndcg.CountAtMostIdeal` | eval/agent-memory/compatibility.js:41-48 | if the first k ids are distinct, they gain at most min(k, relevant) times |
| `Ndcg.ScoreBounds` | eval/agent-memory/compatibility.js:41-48 | if the first k ids are distinct, the score lies in [0, 1], and is 1 if and only if the first min(k, relevant) ids are relevant and there are any, or a single one that could be found comes second |
| `Ndcg.ScoreMeans` | eval/agent-memory/compatibility.js:41-48 | the score times the worth of the best ranking is the worth of the relevant ones among the first k ids |
| `Ndcg.AtMostOneIff` | eval/agent-memory/compatibility.js:41-48 | the score is at most 1 whatever is relevant if and only if the first k ids are distinct |
| `Ndcg.RepeatedIdExceedsOne` | eval/agent-memory/compatibility.js:41-48 | the input with a repeated id whose score is 2 |
| `JudgeSummary.Tallied` | eval/agent-memory/score-longmemeval.js:146-147 | counts the selected judgments and the correct ones among them |
| `JudgeSummary.Summarize` | eval/agent-memory/score-longmemeval.js:143-167 | the loops compute the summary that the next rows are about |
| `JudgeSummary.TypesListed` | eval/agent-memory/score-longmemeval.js:145 | the types are those of the cases, each once, in ascending order |
| `JudgeSummary.TypesAddUp` | eval/agent-memory/score-longmemeval.js:143-167 | correct and total counts of the types sum to the overall ones, which count every case |
| `JudgeSummary.AccuraciesDefined` | eval/agent-memory/score-longmemeval.js:147-161 | all accuracies lie in [0, 1], the one of abstentions is given if and only if there are any, and no other divides by zero |
| `JudgeSummary.SummaryMeans` | eval/agent-memory/score-longmemeval.js:143-161 | tallies are the numbers of judgments, overall, of abstentions and of each type; every accuracy times its total is the number of correct ones, and that of the tasks is the mean over the types |
| `JudgeSummary.UsageTotals` | eval/agent-memory/score-longmemeval.js:162-165 | every field of the usage is added up over all judgments |
| `WorkerPool.Scorer.constructor` | eval/agent-memory/score-longmemeval.js:183-217 | starts min(concurrency, cases) workers, each run to its first await |
| `WorkerPool.Scorer.TakeCase` | eval/agent-memory/score-longmemeval.js:207-213 | a worker takes the next case, or ends when there is none |
| `WorkerPool.Scorer.WriteCheckpoint` | eval/agent-memory/score-longmemeval.js:185-205 | writes the finished judgments in slot order, with a summary only if they are all |
| `WorkerPool.Scorer.OnJudge` | eval/agent-memory/score-longmemeval.js:213-215 | one resumption stores the judgment in its own slot, writes a checkpoint and takes the next case; a judge that throws ends its worker |
| `WorkerPool.RunKeeps` | eval/agent-memory/score-longmemeval.js:206-217 | under every interleaving cases are handed out in order, no two workers hold the same case, and every case handed out is stored under its own id and type or held |
| `WorkerPool.RunDelivers` | eval/agent-memory/score-longmemeval.js:185-215 | under every interleaving no case is decided twice, each slot holds exactly what its own judge said of its case, and the k-th checkpoint lists exactly the first k verdicts, in case order, with a summary if and only if these are all |
| `WorkerPool.PoolComplete` | eval/agent-memory/score-longmemeval.js:217-218 | when the pool returns, each case was handed out and judged exactly once, its slot repeats the verdict on it, and the final checkpoint lists and summarizes all |
| `WorkerPool.PoolReturnsIff` | eval/agent-memory/score-longmemeval.js:206-218 | the pool returns if and only if a verdict was delivered for every case |
| `WorkerPool.JudgedAtMostOnce` | eval/agent-memory/score-longmemeval.js:206-216 | at no time are two judges at work on one case |
| `WorkerPool.PoolBusy` | eval/agent-memory/score-longmemeval.js:206-217 | there are min(concurrency, cases) workers, and none ends while a case is left to take |
| `ReadyLine.Readiness.End` | bench/archive/system-daemon.js:23-32 | settles once, and not again |
| `ReadyLine.Readiness.ParseLines` | bench/archive/system-daemon.js:33-54 | the loop over lines stops at the first that is not blank, and ends as that line says |
| `ReadyLine.Readiness.OnStdout` | bench/archive/system-daemon.js:55-60 | a chunk is appended and the lines it completes are parsed |
| `ReadyLine.Readiness.OnOther` | bench/archive/system-daemon.js:61-67 | error, exit and timeout settle what is still pending |
| `ReadyLine.DecideAppends` | bench/archive/system-daemon.js:33-54 | what a text decides, more text does not change; what it leaves undecided depends on its last line alone |
| `ReadyLine.RunDecides` | bench/archive/system-daemon.js:55-60 | on output alone the outcome is that of the concatenation |
| `ReadyLine.ChunksDoNotMatter` | bench/archive/system-daemon.js:55-60 | two ways to cut the same output end alike |
| `ReadyLine.RunExpected` | bench/archive/system-daemon.js:19-73 | over every order of output, errors, exit and timeout the first deciding event settles the promise, at most once and never before |
| `ReadyLine.OutcomeMeans` | bench/archive/system-daemon.js:19-73 | over every order of events: ready, not ready, invalid or thrown if and only if the first line that is not blank, trimmed, says so before anything but output happens; else the first other event, and pending if and only if there is none |
| `WhiteSpace.TrimIs` | bench/archive/system-daemon.js:37 | trimming takes away the white space at both ends and nothing else |
| `ReadyLine.SplitChunk` | bench/archive/system-daemon.js:55-60 | cutting a chunk in two changes nothing, whatever happens before and after |
| `Arguments.ParseArguments` | bin/context-windowd.js:91-109 | the loop computes the outcome that the next rows are about |
| `Arguments.ParseRender` | bin/context-windowd.js:91-109 | parsing the spelling of distinct, proper items gives back what they say |
| `Arguments.AcceptedSpells` | bin/context-windowd.js:91-109 | whatever is accepted is such a spelling |
| `Arguments.AcceptedIff` | bin/context-windowd.js:91-109 | exactly the spellings of distinct, proper items are accepted |
| `Arguments.RepeatRejected` | bin/context-windowd.js:96-101 | a repeated option is rejected as a duplicate wherever it appears |
| `Arguments.UnusableRejected` | bin/context-windowd.js:102-104 | an option with an empty value or one that looks like an option is rejected for that |
| `Arguments.EitherOrder` | bin/context-windowd.js:91-109 | two command lines without a common option parse to the same in either order |
| `LaunchArguments.SemanticLaunchArguments` | src/daemon-client/semantic-launch-arguments.js:6-21 | the pushes spell the items of the configuration |
| `LaunchArguments.RerankerSpelling` | src/daemon-client/reranker-launch-arguments.js:5-14 | the array spells the items of the configuration |
| `LaunchArguments.LaunchRoundTrip` | src/daemon-client/semantic-launch-arguments.js:6-21 | both command lines together, in either order, are read back as exactly the printed options and flags if and only if every value can be told from an option; otherwise they are rejected for that |
| `LaunchArguments.ConfigurationRead` | src/daemon-client/semantic-launch-arguments.js:6-21 | the daemon reads every option as the field of the configuration that it is named after, and no others; the flags say what is enabled |
| `EvidenceDocument.ParserExists` | eval/release/verifiers.js:192-197 | what is asked of the JSON parser contradicts nothing it does with texts that are not printed: any parser can be corrected on the printed ones, and needs no correction if and only if it reads back what is printed |
| `EvidenceDocument.AcceptedIffFormatted` | eval/release/verifiers.js:177-203 | for values the language can hold, a document is accepted for evidence if and only if it is what is written for it |
| `EvidenceDocument.AcceptedIsCanonical` | eval/release/verifiers.js:182-203 | what is accepted is a value of the language, valid and written as it is read |
| `EvidenceDocument.OverlapRefused` | eval/release/verifiers.js:186-191 | a document whose framing parts overlap passes the framing check and is refused |
| `EvidenceDocument.OverlapOccurs` | eval/release/verifiers.js:186-191 | there is such a document |
| `JsonReader.ValueRead` | eval/release/verifiers.js:192-197 | a reader of JSON texts recovers a printed value, compact or indented, and stops where it ends |
| `JsonReader.ReaderReadsPrinted` | eval/release/verifiers.js:192-203 | what is asked of the JSON parser is met: the reader reads back whatever is printed and yields nothing but values the language can hold |
| `Percentiles.TimesIsProduct` | eval/retrieval/performance.js:89-92 | the sum that stands for the product of percentile and count is that product |
| `Percentiles.PercentileRanks` | eval/retrieval/performance.js:81-95 | with k = max(1, ceil(p n)) the percentile is a sample with at least k samples at most it and at least n - k + 1 at least it |
| `Percentiles.PercentilePermutes` | eval/retrieval/performance.js:81-95 | the order of the samples does not matter, errors included |
| `Percentiles.PercentileGrows` | eval/retrieval/performance.js:81-95 | the percentile is monotone in p |
| `Percentiles.SummariesAgree` | bench/archive/artifact.js:56-73 | the two modules summarize the same samples alike, and reject the same ones |
| `Percentiles.SummaryOrdered` | eval/retrieval/performance.js:97-107 | min <= p50 <= p95 <= p99 <= max, and the mean lies within min and max |
| `Percentiles.SummaryMeans` | eval/retrieval/performance.js:97-107 | the extremes are the least and greatest samples, p50, p95 and p99 have the ranks of their shares, and the mean times the count is the sum |
| `Recall.FormatRecalledDocument` | src/presentation.js:433-471 | the method computes the text that the next two rows are about, within its budget |
| `Recall.RecalledTextFits` | src/presentation.js:433-471 | a recalled document stays within its budget on every path |
| `Recall.RecalledTextWhole` | src/presentation.js:452-470 | prefix and text are shown whole whenever they fit together |
| `Recall.RecalledTextShows` | src/presentation.js:433-471 | a framed document that fits is returned unchanged; any other is its prefix, its text and as many of its sections as fit, and where something does not fit it is cut and nothing follows |
| `Recall.FormatGatherResults` | src/presentation.js:157-209 | the method computes the text that the next two rows are about, within its budget |
| `Recall.GatherTextFits` | src/presentation.js:157-209 | gathered evidence stays within its budget on every path |
| `Recall.BoundedListingShows` | src/presentation.js:169-208 | the header is followed by as many whole records as fit one after the other, and by nothing else if they all do |

## Left out

- RunConsistent: assumes that running timers can be cleared; StepConsistent shows that this is exactly what is needed, and TimerLeaks what happens otherwise.
- PercentileRanks: exact reals; the rounding of floating-point products and of the mean is not modelled.
- HandlesNotReassigned: within one run from session start; a shutdown clears the maps and keeps the counter, a start resets both.
- Recency is not claimed for recall handles: a refreshed handle keeps its place and is evicted first in, first out.
- Text is made of Unicode scalars except in `Utf8Evidence`, so lone surrogates in presented text and JSON strings are not covered.
- ReadValue: `JsonReader` refuses the escapes of surrogate halves, single or paired, and which text a number token is printed with is its parameter; overflowing numbers are no numbers to it.
- Negative zero and numbers that print alike are one number; `undefined` members and values that are not JSON are not covered.
- The budget of a presentation is a natural number; token counts beyond safe integers are not covered.
- Which header lines, provenance sections and notices apply to a result list is prose selected by one-branch functions; the assembled text is a parameter.
- A traversal's status text is assumed to contain no quotes, as every status in the source does.
- The JSON text of a structural block and of gathered metadata is a parameter.
- Whether evidence is valid (field names, hashes, counts) is a parameter of `EvidenceDocument`: one-branch checks.
- An exception inside the `data` listener of `readyLine` (a line reading `null`) is taken to end the process, as it does by default.
- Messages of rejected promises carry the collected standard error output; only their kind is modelled.
- Session lifecycle events other than start, context, before-compact and shutdown do not touch the modelled state.
- The session check of the tools, scopes, limits and tool schemas.
- `archiveCompletedSession`, the disk pressure monitor and the status line beyond whether they throw.
- `insertText`, `wrapUserPrompt` and the ingestion of benchmark data: one-line bookkeeping.
- The text of the judge prompt and the parsing of its label: a judge is a verdict or an exception.
- The daemon, the RocksDB store, indexes, epoch sessions and migration: engines behind the modelled interfaces.
- Files, sockets, child processes, databases and models: steps that return or throw.
