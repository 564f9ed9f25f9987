# AttackMap: verified core

AttackMap maps the attack surface of a code base. Most of it is pattern matching and file
reading; underneath sit a number of deterministic algorithms with sharp promises. This project
models those algorithms in Dafny and proves the promises, one module per source file:

| module | what it is about |
|---|---|
| `Lockfiles` | how a package is reached in a lock file: a multi-source breadth-first search, the roots, the hints |
| `Osv`, `Cve`, `CveCorrectness` | the four-pass advisory lookup: dedupe, cache, batches with fallbacks, fan-out, against an arbitrary server |
| `Merge`, `MergeSchema`, `RouteTwins`, `Analyzers` | the merge of analyzer results: first-seen dedupe with in-place upgrades, the schema's upgrade rules, the route-twin join, the driver |
| `HandlerAuth`, `Authz`, `AuthProtocol` | the bracket scanners and argument splitters, and when they agree |
| `HandlerSpan` | which lines belong to which route handler |
| `DetectionOpportunities` | the fair cap |
| `HuntDedupe`, `HuntHarness` | clustering of leads; the budgeted generate, critique and vote loop against an arbitrary model |
| `Fingerprint`, `Exploitability`, `Fleet`, `ConfigScanner` | finding identities, chain scores, fleet ids, line numbers |

`Wrappers`, `Lists`, `Counting`, `Orders` and `Text` hold what these share.

Code that works step by step in the source is a method (with the source's loops and fields)
proved against a specification; what the source promises is then proved of that specification
for all inputs. Servers and language models are arbitrary functions of the call number and the
request, and a log of calls is kept, so that statements about a run are statements about every
behaviour of the other side. Where the code falls short of a promise or of its documentation the
model follows the code, and an input and the exact condition are given: `MixedReport` with
`WinnerSpeaksAloneIff` (upgrade by severity), `DetachedCycleIsUnreached` with
`UnreachedIffDetached` and `MissedIffDetachedCycle` (implicit roots), `BlankArgumentIsKept` with
`SplittersAgreeIffNoBlankArgument`, and `UnopenedCloserCuts` with `CommaInPocketIff` (argument splitters), `BarredNamesCollide` with
`SharesItsFileIff` and `CacheStaysTrueIffPlain` (cache keys) and `SeparatorsCollide` with `SharesItsTextIff` (digested
identities).

`dafny verify dfyconfig.toml` checks the whole project.

## Model

| member | source | states |
|---|---|---|
| Lockfiles.ExpandNext | src/attackmap/lockfiles.py:197-205 | expanding the name at the head of the queue keeps the search invariant and either finds new names or shortens the queue |
| Lockfiles.ShortestPaths | src/attackmap/lockfiles.py:193-206 | on any graph, cyclic or not, exactly the names reachable from the roots through installed names get a path, and it is the least of all chains to that name: shortest first, then lexicographic |
| Lockfiles.NoChainBeats | src/attackmap/lockfiles.py:193-206 | when the queue is empty, no chain of the graph is shorter than, or as short and lexicographically before, the path recorded for its end |
| Lockfiles.VisitNew | src/attackmap/lockfiles.py:199-205 | the step invariant of the search: appending a newly found child keeps the found names in the order of their paths and every earlier edge relaxed |
| Lockfiles.BestPathsUnique | src/attackmap/lockfiles.py:193-206 | the root set and the edge sets alone determine all paths, whatever order sets are iterated in |
| Lockfiles.ImplicitRoots | src/attackmap/lockfiles.py:182-190 | the roots are the names nothing depends on, or all names if there are none |
| Lockfiles.ImplicitRootsReachEverything | src/attackmap/lockfiles.py:182-190 | with no declared roots and no cycle, every installed name is reached from the implicit roots |
| Lockfiles.DetachedCycleIsUnreached | src/attackmap/lockfiles.py:186-190 | a graph with a free name and a separate two-cycle: the cycle is not reached, so the fallback does not cover every cycle |
| Lockfiles.UnreachedIffDetached | src/attackmap/lockfiles.py:182-206 | for any roots, some installed name is missed if and only if there is a group of names without a root that has no edge into it from outside |
| Lockfiles.MissedIffDetachedCycle | src/attackmap/lockfiles.py:182-206 | with no declared roots, some installed name is missed if and only if there is a cycle among such detached names |
| Lockfiles.GraphToHints | src/attackmap/lockfiles.py:156-179 | one hint per installed (name, version) in sorted order; direct iff the name is declared, or, with none declared, iff no package needs it or every installed name is needed; a via text iff it is not direct and reachable through installed names, and the text joins its best path |
| Lockfiles.DeclaredRootsDecide | src/attackmap/lockfiles.py:156-179 | with direct dependencies declared, a hint is direct iff its name is declared, and has a path iff it is not and the declared names lead to it |
| Lockfiles.ImplicitRootsDecide | src/attackmap/lockfiles.py:156-190 | with none declared, it is direct iff no edge set holds its name or every installed name is in one |
| Lockfiles.BestIsLeast | src/attackmap/lockfiles.py:193-206 | a best path is shorter than any other chain to its end, or as long and before it at their first difference |
| Orders.StringsCompare | src/attackmap/lockfiles.py:197-203 | the order of sorted names: by character codes at the first difference, a prefix first |
| Text.JoinedFromFront | src/attackmap/lockfiles.py:165 | joining is the first part, the separator, and the rest joined |
| Cve.QueryVulnerabilities | src/attackmap/cve.py:112-272 | for any server behaviour: cached + queried + skipped is the number of unique packages, the run is sound (payload iff cached or queried, complete payloads only, each skipped package for a failed call about it: its batch, a page of it, or a record its listing names, and two packages for the same call only if that is their batch), one batch per chunk, no received record asked for twice, and the result is the sorted merge of all pairs; a package is served from the cache iff its file is there and at most ttl old, or ttl is zero, and every other one is asked about, in batches of at most the chunk size, for the packages of the dependencies in the server's names |
| Cve.LooksUpIff | src/attackmap/cve.py:158-174 | field by field, which package a dependency is looked up as: a known ecosystem, the name the server knows, and the locked version verbatim (a leading v cut for Go) or the bound of the range |
| Cve.AskedInServersNames | src/attackmap/cve.py:62-75 | the server is asked about name and version under its own name of each ecosystem |
| Cve.DoneAreStale | src/attackmap/cve.py:180-193 | the packages asked about are those of some dependency whose file is missing or older than the ttl |
| Cve.RecordsOf | src/attackmap/cve.py:244-262 | each record reported is a named advisory held for the package of a dependency, with the fields of both |
| Cve.SortedRecords | src/attackmap/cve.py:264-272 | the records stand most severe first, then by ecosystem, package and id, none lost or repeated |
| Cve.ChunksAreEnough | src/attackmap/cve.py:192-198 | the number of batches is the least that holds the misses |
| Cve.AnswerIsSound | src/attackmap/cve.py:231-235 | answering one more package keeps the four invariants of a run: what is held is complete, the counters match, the cache has only old entries and this run's payloads, and every package without a payload has its own failed call |
| Cve.SkipIsSound | src/attackmap/cve.py:199-206 | skipping packages for a new call about them that failed, a batch or a single package's, keeps the same invariants and holds and writes nothing for them |
| Cve.SettleAll | src/attackmap/cve.py:207-235 | each package of an answered batch ends up exactly once, as answered or, if a page or a record of its own could not be had, as skipped; no further batch is sent |
| Cve.AskChunk | src/attackmap/cve.py:196-235 | one batch call settles exactly the packages of its chunk, in order: all skipped if the batch fails, else each answered unless a call of its own fails |
| Cve.QueryMisses | src/attackmap/cve.py:192-239 | all misses are settled in order, skipped only for failed calls about them, with the number of batches that chunking takes, for every chunk size |
| Cve.Resolve | src/attackmap/cve.py:143-174 | the entries are the dependencies that can be looked up, the unique packages their packages in first-occurrence order, and the two skip tallies count the others |
| Cve.ServeCached | src/attackmap/cve.py:180-190 | the payloads are those stored for the packages whose cache file is there and at most ttl old, or any age when ttl is zero, and no others; the counter says how many |
| Cve.AnswerItem | src/attackmap/cve.py:208-226 | a payload is everything one answer of the server said about the package, by detail records or by all pages; no payload only if the last call failed, and it was for a page of the package or a record its listing names |
| Cve.AssembleDetails | src/attackmap/cve.py:598-622 | the record of every non-empty id listed, in order, or nothing at all; the memo holds exactly received records and none is fetched twice |
| Cve.FetchPaged | src/attackmap/cve.py:625-664 | the concatenation of all pages from the first to the one without a token, or nothing at all |
| Cve.FetchBatch | src/attackmap/cve.py:564-595 | one call, taken as answered only if it has one result per query |
| Cve.Http | src/attackmap/cve.py:564-709 | a call that is not reached, not readable or of the wrong shape adds one to the network errors, but not a detail record of the wrong shape |
| Cve.FanOut | src/attackmap/cve.py:244-262 | the kept records are the first-seen merge, by (ecosystem, name, version, id), of every (dependency, advisory) pair |
| Cve.CachedAndMisses | src/attackmap/cve.py:180-193 | the cache hits and the misses split the unique packages |
| Osv.HonestPages | src/attackmap/cve.py:640-663 | from an honest server, the pages gathered so far and what their last token promises are all advisories of the package |
| Osv.HonestServersExist | src/attackmap/cve.py:564-664 | for any listings and records some server is honest about them and its listings end, both by whole listings and one advisory a page, so the statements about honest servers are about something |
| Osv.CompleteIsTrue | src/attackmap/cve.py:208-226 | from an honest server a complete payload is the package's advisories, by either route |
| CveCorrectness.EveryPackageAnswered | src/attackmap/cve.py:180-235 | from an honest server and a truthful cache nothing is skipped and each unique package holds its advisories |
| CveCorrectness.LookupIsNaiveLookup | src/attackmap/cve.py:112-272 | then the (ecosystem, name, version, id) tuples reported are exactly those of asking about each dependency on its own, each once and sorted, whatever the chunk size and the repeats |
| CveCorrectness.QueryTruthfully | src/attackmap/cve.py:112-272 | the lookup itself, started on a truthful server and cache: nothing is skipped and the records are exactly those of the naive lookup, each once and sorted |
| CveCorrectness.CacheStaysTrue | src/attackmap/cve.py:217-235 | whatever else is looked up, a run against an honest server keeps the cache truthful about a package with no bar in its name and version |
| CveCorrectness.CacheStaysTrueIffPlain | src/attackmap/cve.py:217-235 | all such runs keep the cache truthful about a package if and only if there is no such bar; otherwise some lookup of another package files a wrong answer for it |
| CveCorrectness.OnlyCompletePayloadsAreWritten | src/attackmap/cve.py:217-234 | against any server, whatever this run wrote to the cache is the complete answer for a package with that key |
| CveCorrectness.AnsweredIsCached | src/attackmap/cve.py:231-235 | a package with a payload is served from the cache by a lookup at the same time, if the file is writable |
| CveCorrectness.PlainKeysDiffer | src/attackmap/cve.py:533-534 | a package with no bar in its name and version shares its cache key with no other |
| CveCorrectness.BarredNamesCollide | src/attackmap/cve.py:533-534 | two npm packages, one with a bar in its name and one with a bar in its version, share one cache key |
| CveCorrectness.SharesItsFileIff | src/attackmap/cve.py:533-534 | a package shares its cache key with another if and only if its name or version has a bar in it |
| Merge.MergeIsFoldOfReports | src/attackmap/merge.py:216-238 | merging any list keeps one record per key, keys in first-occurrence order, each record being its reports folded in order by the upgrade; the seen set is the set of keys |
| Merge.MergedByKey | src/attackmap/merge.py:216-238 | each item has a record of its key, and no two records share one |
| Merge.MergedInOrder | src/attackmap/merge.py:216-238 | the records stand in the order in which their keys first occur in the items |
| Merge.MergeInTwoGoes | src/attackmap/merge.py:216-238 | merging two lists one after the other is merging their concatenation |
| Merge.MergeCanBeResumed | src/attackmap/merge.py:325-330 | merging into an earlier outcome with the seen set computed from its records gives what one merge of everything gives |
| Merge.Field.MergeInto | src/attackmap/merge.py:216-238 | with records updated in place and an index built on the first collision, the list and the seen set become those of the specified merge, and records already there keep their place |
| Merge.Field.Absorb | src/attackmap/merge.py:224-238 | one item: appended if new, else the kept record upgraded through the index; the index stays exact because upgrades keep keys |
| Merge.Field.BuildIndex | src/attackmap/merge.py:230-234 | the index maps each key to the record that carries it |
| MergeSchema.UpgradesKeepKeys | src/attackmap/merge.py:122-213 | none of the schema's upgrades changes the key of the record it upgrades |
| MergeSchema.MergedRoutes | src/attackmap/merge.py:66-75 | a merged route is its first report with auth, guards and guard evidence of the earliest report with known auth |
| MergeSchema.MergedRouteFields | src/attackmap/merge.py:122-123 | one merged route for each path, verb and file, each the first report of it with auth, guards and guard evidence of the first that knows the auth |
| MergeSchema.MergedIssues | src/attackmap/merge.py:78-114 | a merged cloud or app issue has severity, confidence, source kind and line of the earliest report of highest rank |
| MergeSchema.MergedIssueFields | src/attackmap/merge.py:122-213 | one record for each kind, file, line and evidence, and resource for cloud issues, or kind, file and line for code weaknesses of other than native kinds; rank and traced input are those of the first strongest report |
| MergeSchema.OutranksMeans | src/attackmap/merge.py:74-87 | stronger means high before medium before low before anything else, then the higher confidence: low 0.3, high 0.9, a number itself, anything else 0.6 |
| MergeSchema.MergedWeaknesses | src/attackmap/merge.py:117-119 | the same for code weaknesses of a native kind; of any other kind the first report stands |
| MergeSchema.MergedDescriptions | src/attackmap/merge.py:90-119 | each descriptive field of a merged record kept by severity is that of the latest report that outranks all before it and sets the field, or unset if none does |
| MergeSchema.WinnerSpeaksAloneIff | src/attackmap/merge.py:90-119 | the merged record has the strongest report's own descriptive fields if and only if that report sets every field that some report outranking all before it sets |
| MergeSchema.MixedReport | src/attackmap/merge.py:90-114 | three reports of rising severity, only the first with a context: the merge has the severity of the last and the context of the first |
| RouteTwins.SupersededBuiltinRoutes | src/attackmap/merge.py:256-322 | the suffix-indexed search returns exactly the built-in routes that are superseded by the pairwise definition |
| RouteTwins.TwinIsSuperseded | src/attackmap/merge.py:291-322 | the lookup in one site's index succeeds if and only if some plugin route of the site is a twin: suffix of at most 32 segments, same verb or built-in ANY, or the root exception |
| RouteTwins.IndexPlugins | src/attackmap/merge.py:266-290 | each site's index offers exactly the suffixes of at most 32 segments of its plugin routes, and counts them |
| RouteTwins.SupersededIsOrderFree | src/attackmap/merge.py:256-322 | whether a route is superseded depends on the two multisets of routes only |
| Analyzers.StampProvenance | src/attackmap/analyzers.py:878-890 | for records of any type: every record of every list field names an analyzer afterwards, one that did already is left as it was, and one listed twice is stamped once |
| Analyzers.MergedProvenance | src/attackmap/merge.py:90-119 | of issues stamped that way, the merged record kept by severity names the analyzer of its strongest report |
| Analyzers.MergeField | src/attackmap/analyzers.py:969-981 | the driver's fold over all results leaves one record per key, in first-occurrence order, folded from all reports |
| Analyzers.MergeRoutes | src/attackmap/analyzers.py:934-981 | the routes with the superseded built-in ones left out, merged: each has one record of its path, verb and file, no two records agree on all three, and each is the first such route with the auth of the first that knows it; a list of flags of the wrong length is refused |
| Analyzers.ExceptIsRest | src/attackmap/analyzers.py:977-979 | what is merged stands, in order, at the places of the routes not dropped |
| Analyzers.FlaggedAre | src/attackmap/analyzers.py:956-967 | the lists searched as built-in, or as plugin, are those whose flag says so, in order |
| Analyzers.DroppedAreTwins | src/attackmap/analyzers.py:956-967 | a dropped route is in a built-in list, and some plugin list has a route of its file and line, of its verb unless it says ANY, whose path ends with its at most 32 segments |
| Analyzers.DroppedIsOrderFree | src/attackmap/analyzers.py:956-967 | permuting the results together with their flags leaves the set of dropped routes the same |
| Analyzers.PluginRoutesSurvive | src/attackmap/analyzers.py:956-981 | no route in a list that is not built-in is ever dropped |
| HandlerAuth.Matches | src/attackmap/handler_auth.py:258-271 | the stack scan computes the specified fold; every pair is `()`, `[]` or `{}`, and each of these with no bracket inside is a pair |
| HandlerAuth.PocketIsPair | src/attackmap/handler_auth.py:258-271 | an opening bracket, then none of the six bracket characters up to its closing one: these two are paired |
| HandlerAuth.MatchingIsSound | src/attackmap/handler_auth.py:258-271 | on any text the pairs are of one kind, injective, and pairwise nested or disjoint, though mismatched openers are dropped |
| HandlerAuth.RecoveryDecides | src/attackmap/handler_auth.py:258-271 | on any text, well bracketed or not, the pairs are the only ones by which each closer takes the latest opener of its kind that is still waiting, dropping those in between, and a closer that finds none leaves none waiting |
| HandlerAuth.ScanRecovers | src/attackmap/handler_auth.py:258-271 | at every point of the scan the stack holds exactly the openers still waiting |
| HandlerAuth.MatchingOfForm | src/attackmap/handler_auth.py:258-271 | on a text derived by the bracket grammar the pairs are those of the derivation, hence of every derivation |
| HandlerAuth.WellBracketedIffAllMatched | src/attackmap/handler_auth.py:258-271 | a text has a derivation if and only if the scan matches every bracket |
| Authz.CallClose | src/attackmap/authz.py:313-323 | the first position within the limit where the parenthesis depth returns to zero, if there is one |
| Authz.CloseIsPartner | src/attackmap/authz.py:313-323 | on any text, balanced or not, it is the partner the stack scan records once the other kinds of bracket are blotted out |
| Authz.CloseIsPartnerWhenBalanced | src/attackmap/authz.py:313-323 | on well-bracketed text with all three kinds it is that partner too |
| Authz.BracePairs | src/attackmap/authz.py:859-868 | on any text, balanced or not, the pairs are those of the stack scan once the other kinds of bracket are blotted out |
| Authz.BracePairsAgree | src/attackmap/authz.py:859-868 | the specification of the brace scan and the blotted stack scan agree on any text |
| Authz.BracePairsAgreeWhenBalanced | src/attackmap/authz.py:859-868 | on well-bracketed text with all three kinds it finds the brace pairs of that scan |
| Authz.SplitTopLevel | src/attackmap/authz.py:900-914 | the parts between top-level commas, all-space ones left out; `()`, `[]` and `{}` with no bracket inside stay in one part, unless one bracket more was closed than opened before them |
| Authz.CommaInPocketIff | src/attackmap/authz.py:900-914 | a comma inside such a pair is a cut if and only if the text before has exactly one closing bracket more than opening ones |
| Authz.UnopenedCloserCuts | src/attackmap/authz.py:900-914 | `),(a,b)` is cut inside its parentheses |
| Authz.PartsAreTheFinestCut | src/attackmap/authz.py:900-914 | the parts are the one list that joined by commas gives the text, has no part with a top-level comma left, and no part but the last ending inside a bracket |
| AuthProtocol.CallArgs | src/attackmap/auth_protocol.py:644-676 | for every text and offset, literals closed or not: the arguments are the pieces of the stretch read, cut where the plain splitter cuts it with every literal replaced by plain characters, stripped, a blank last one dropped; the stretch ends at the first closer outside literals that closes nothing, or at the scan limit, or one character on when a backslash in a literal ends the window; within 4000 characters, a quoted literal, and each of `()`, `[]` and `{}` without quote or bracket inside, is in one argument whole if no quote stands before it and no bracket was closed there that is not opened |
| AuthProtocol.KeptTogether | src/attackmap/auth_protocol.py:644-676 | of the specified list: such a literal or pair of brackets is in one argument whole |
| AuthProtocol.ArgumentsOfStretch | src/attackmap/auth_protocol.py:644-676 | the same of the specified list; the pieces join to the stretch and are as long as those of the blotted stretch |
| AuthProtocol.LiteralsDoNotSplit | src/attackmap/auth_protocol.py:644-676 | arguments whose literals and outer brackets are closed, escapes included, are themselves that stretch: commas and brackets in their literals do not count |
| AuthProtocol.SplittersAgreeIffNoBlankArgument | src/attackmap/auth_protocol.py:644-676 | for quote-free balanced arguments within the limit the two splitters agree, up to stripping, if and only if no argument but the last is blank |
| AuthProtocol.BlankArgumentIsKept | src/attackmap/auth_protocol.py:644-676 | on `a,,b)` the one gives `a`, blank and `b`, the other `a` and `b` |
| AuthProtocol.WellBracketedIsPlain | src/attackmap/auth_protocol.py:644-676 | every well-bracketed text without quotes is covered by the agreement |
| HandlerSpan.SpanBounds | src/attackmap/handler_span.py:20-48 | the span runs down to the cap or the next route, and up over the decorator lines above, no further than the lookup limit or the line of the previous route |
| HandlerSpan.DecoratorIff | src/attackmap/handler_span.py:35-46 | a decorator line is one whose first character that is not a space is an `@` |
| HandlerSpan.SpansAreDisjoint | src/attackmap/handler_span.py:20-48 | spans of routes on different lines never overlap, also when the cap lands in the next route's decorators |
| HandlerSpan.SpanReach | src/attackmap/handler_span.py:20-48 | a span holds its own declaration line and no other route's, reaches at most 6 lines up and max_span lines from it, and stays in the file |
| HandlerSpan.StackedDecoratorsAreOwned | src/attackmap/handler_span.py:35-46 | every block of decorator lines above the route within reach belongs to its span |
| HandlerSpan.SpanIsUnique | src/attackmap/handler_span.py:20-48 | the specification leaves one span only |
| HandlerSpan.OnlyTheSetOfRoutesMatters | src/attackmap/handler_span.py:20-48 | order and repeats among the route lines do not matter |
| DetectionOpportunities.FairCap | src/attackmap/detection_opportunities.py:1164-1181 | exactly min(limit, n) items, a subsequence of the input, namely the fair share by (turn, first appearance of the rule) |
| DetectionOpportunities.GroupByRule | src/attackmap/detection_opportunities.py:1168-1171 | rules in order of first appearance, each with the positions of its opportunities |
| DetectionOpportunities.TakeRound | src/attackmap/detection_opportunities.py:1173-1180 | one round serves each queue that is deep enough, in order, while the budget lasts |
| DetectionOpportunities.MaxMinFair | src/attackmap/detection_opportunities.py:1164-1181 | a rule that kept more than one item fewer than another kept all it has |
| DetectionOpportunities.KeepsClassPrefixes | src/attackmap/detection_opportunities.py:1164-1181 | of each rule a prefix is kept |
| DetectionOpportunities.FairShareIsUnique | src/attackmap/detection_opportunities.py:1164-1181 | rule ids and limit determine what is kept |
| HuntDedupe.DedupeHypotheses | src/attackmap/hunt_harness.py:136-167 | the output is the specified clustering of all passes, renumbered H1 to Hn; each lead goes to the first cluster whose title has the same words, or one of whose leads shares an evidence id with it while at least 0.4 of the words of both titles are common, and to one of its own if there is none; each output is the merge of its leads |
| HuntDedupe.DealtOneWay | src/attackmap/hunt_harness.py:136-167 | that rule leaves one outcome only |
| HuntDedupe.TitleTokensAre | src/attackmap/hunt_harness.py:101-109 | the words of a title are the maximal runs of letters, digits and `_./` in lower case, longer than two and none of the common words |
| HuntDedupe.EvidenceIdsAre | src/attackmap/hunt_harness.py:112-113 | the evidence ids are the maximal runs without comma and whitespace that hold a colon, in lower case |
| HuntDedupe.MergedIdsReadBack | src/attackmap/hunt_harness.py:153-160 | the ids read from a merged lead are those of all its leads |
| Text.WordIffRun | src/attackmap/hunt_harness.py:107-113 | the pieces found by a character class are the maximal runs of such characters |
| Text.LettersLower | src/attackmap/hunt_harness.py:107-113 | lower case shifts the codes 65 to 90 by 32 and nothing else |
| HuntDedupe.DedupePartitions | src/attackmap/hunt_harness.py:136-167 | every lead goes to exactly one cluster, the first it is the same as; a cluster of one is that lead as it is, any other has the title of its earliest lead, all ids sorted, and all lenses once in order |
| HuntDedupe.StoredIdsReadBack | src/attackmap/hunt_harness.py:112-113 | evidence ids written to a lead are read back as the same set |
| HuntDedupe.DedupedTitlesDiffer | src/attackmap/hunt_harness.py:122-129 | no two clusters have the same non-empty set of title words |
| HuntDedupe.DedupedIdsDiffer | src/attackmap/hunt_harness.py:164-167 | the new ids are pairwise distinct |
| HuntDedupe.SameLeadIsNotTransitive | src/attackmap/hunt_harness.py:122-129 | three leads of which the first and the last are not the same though both are the same as the second |
| HuntHarness.EnforceCitations | src/attackmap/hunt_harness.py:204-228 | exactly the confirmations and refutations whose reason cites nothing, while there are excerpts and a hypothesis to cite, become votes for review that quote the reason; every other vote is kept as it is |
| HuntHarness.CombineVerdicts | src/attackmap/hunt_harness.py:231-282 | per hypothesis in order: the counts of each vote, and a verdict only with a strict majority of all ballots |
| HuntHarness.EveryBallotCounts | src/attackmap/hunt_harness.py:231-282 | the three counts add up to the number of ballots, silent ones included |
| HuntHarness.CountIsOrderFree | src/attackmap/hunt_harness.py:231-282 | the counts depend on the multiset of ballots only |
| HuntHarness.GenerateRound | src/attackmap/hunt_harness.py:366-396 | one call per lens if there are several and one otherwise, each with the lens, what to avoid and the hint, and each lead found tagged with its lens |
| HuntHarness.HuntRounds | src/attackmap/hunt_harness.py:424-475 | for any model, the rounds are the specified trace: each starts from the deduped leads and the last critique, and it stops exactly for rounds, budget or dryness |
| HuntHarness.AfterRoundIsRound | src/attackmap/hunt_harness.py:424-460 | one round, call by call: passes that avoid the titles held, leads deduplicated with those held, and a critic of them whose text is the next hint if they grew, another round is allowed and budget is left |
| HuntHarness.SingleRoundIs | src/attackmap/hunt_harness.py:461-474 | without rounds, the leads are what the passes found, deduplicated if there are several |
| HuntHarness.HuntIsBounded | src/attackmap/hunt_harness.py:424-475 | at most max_rounds rounds, at most `budget` rounds when a budget is set, and at most max_rounds times lenses plus max_rounds - 1 calls |
| HuntHarness.NoRoundTooMany | src/attackmap/hunt_harness.py:424-475 | no round starts once the budget is spent, nor after dry_streak rounds in a row without growth |
| HuntHarness.AskSkeptics | src/attackmap/hunt_harness.py:476-495 | one call per vote, all about the final leads, each ballot with citations enforced |
| HuntHarness.VotesAreCited | src/attackmap/hunt_harness.py:204-228 | confirming votes counted for a lead are exactly the confirming replies that cite evidence, and votes for review those that ask for it or rule without citing |
| HuntHarness.RunMajorityVerify | src/attackmap/hunt_harness.py:399-505 | the whole run for any model: the bounds on rounds and calls, the leads of the last round, and per lead: confirmed if and only if more than half the replies confirm with a citation, left to review if and only if more than half ask for it or cite nothing, refuted otherwise |
| Fingerprint.AssignFingerprints | src/attackmap/fingerprint.py:47-90 | over all findings, each location object (at its last place, if listed twice) gets the digest of rule, file with forward slashes, normalized line or its number if there is none, its own name if any, and the number of earlier places with the same key, with the separator between |
| Fingerprint.KeysAre | src/attackmap/fingerprint.py:54-82 | what each location is counted by, field by field |
| Fingerprint.TextIs | src/attackmap/fingerprint.py:43-44 | the text digested at a place, written out |
| Fingerprint.IdentitiesDiffer | src/attackmap/fingerprint.py:60-90 | no two places, in one finding or across findings, have the same identity |
| Fingerprint.DigestTextsDiffer | src/attackmap/fingerprint.py:43-90 | nor the same text to digest, if rules, files and line contents are free of the separator |
| Fingerprint.SeparatorsCollide | src/attackmap/fingerprint.py:43-44 | a plain location in a file with the separator in its name and a self-naming one in another file have the same joined text |
| Fingerprint.SharesItsTextIff | src/attackmap/fingerprint.py:43-44 | an identity shares its joined text with another that is free of the separator if and only if its own rule, file or content has the separator in it |
| Fingerprint.OtherInstancesDoNotMatter | src/attackmap/fingerprint.py:60-90 | adding or removing an earlier location with any other key leaves an identity unchanged |
| Fingerprint.DriftKeepsIdentities | src/attackmap/fingerprint.py:34-90 | findings whose locations all move together with their lines keep every identity, counted across all findings |
| Fingerprint.DriftKeepsIdentitiesIff | src/attackmap/fingerprint.py:34-90 | when some lines are not readable in either tree, all identities are kept if and only if those locations keep their line numbers |
| Exploitability.IndexRisks | src/attackmap/exploitability.py:414-445 | per package, the worst severity among its advisories or issues and all their ids |
| Exploitability.IndexIs | src/attackmap/exploitability.py:414-445 | a package is indexed iff some risk is about it: high if one is high, else medium if one is medium or of unknown severity, else low |
| Exploitability.PackageKeyIs | src/attackmap/exploitability.py:479-481 | on PyPI every run of `-`, `_` and `.` becomes one dash and nothing else changes but case; elsewhere only case does |
| Exploitability.SurfaceIndex.Lookup | src/attackmap/exploitability.py:209-238 | the first exact surface, else the only one with the route, else the only one in the file |
| Exploitability.SurfaceOfIs | src/attackmap/exploitability.py:227-238 | the surface found: the first of the verb, route and file; failing that the only one of verb and route; failing that the only one in the file; else none |
| Exploitability.PackagesOnPath | src/attackmap/exploitability.py:241-258 | the indexed packages some file of the path imports, sorted |
| Exploitability.PathFactors | src/attackmap/exploitability.py:370-390 | one factor per package on the path, together worth its points |
| Exploitability.ScoreChain | src/attackmap/exploitability.py:270-411 | the raw score is the sum of the factor points, and item by item of base, exposure, auth, hops, neighbours of the sink, weak spots and rated packages on the path; the score is its clamp to 0..100; critical from 75, high from 50, medium from 25, else low |
| Exploitability.RawIsWorth | src/attackmap/exploitability.py:270-389 | the specified raw score is that sum with the constants written out |
| Exploitability.MoreEvidenceNeverLowersAScore | src/attackmap/exploitability.py:241-445 | more advisories, issues, secrets, datastores or weaknesses, or fewer auth signals, never lower a raw score, a score or a tier |
| Exploitability.SurfaceOfLess | src/attackmap/exploitability.py:227-238 | removing auth signals finds the same surface with fewer of them |
| Exploitability.PointsGrow | src/attackmap/exploitability.py:241-258 | a larger set of packages under no better ratings is worth at least as many points |
| Fleet.FleetRepoIds | src/attackmap/fleet.py:42-63 | one id per path, pairwise distinct, each the slug or the slug with the least suffix from 2 that is free |
| Fleet.AssignedIsUnique | src/attackmap/fleet.py:42-63 | the list of slugs determines the ids |
| Fleet.TakenIsBounded | src/attackmap/fleet.py:52-58 | at most as many candidates are taken as ids are in use, so the search ends |
| ConfigScanner.LineIndex.LineOf | src/attackmap/config_scanner.py:55-59 | one plus the number of newlines before the offset, for every text; an offset out of range is clamped |
| ConfigScanner.LineIndex.constructor | src/attackmap/config_scanner.py:46-53 | the line starts are recorded completely and in order |
| ConfigScanner.StartsBefore | src/attackmap/config_scanner.py:46-59 | the number of line starts up to an offset is one plus the newlines before it |

## Left out

- Regular expressions and heuristics: what they decide is a function parameter (path segments and upper case of a verb, package naming and version ranges, line normalization, imports of a file, base score of a sink kind, what counts as a citation, the severity of an advisory).
- Files, HTTP, subprocesses, clocks, progress display, sleeping between batches: requests and answers are values; the time, the cache contents and which files are writable are parameters.
- SHA-256: a cache file is named by the text digested, and a fingerprint is a function of the text digested.
- `str.lower` beyond ASCII letters.
- Cve.FetchPaged: assumes that every listing ends after finitely many pages; the loop of the source would otherwise not end.
- Cve.AnswerItem: a batch result that is not an object counts as an empty listing, as in the source, so it is cached as "no advisories".
- Cve.FetchDetail: a detail record of the wrong shape adds nothing to the network errors, as in the source.
- CveCorrectness.CacheStaysTrue: only about packages without a bar in name or version; CacheStaysTrueIffPlain says that no more holds.
- The contents of an advisory record besides its id, and the severity derived from them.
- Lock file parsers: a graph is installed instances, edges by name, and declared roots; Lockfiles.ImplicitRootsReachEverything takes edges to start at installed names, as the parsers record them.
- Merge.Field.MergeInto: each field is merged on its own list of records; record objects are taken to be distinct, as the analyzers create them.
- The rules of the merge schema without an upgrade (plain first-seen dedupe), and the sums and unions of languages, limitations and files scanned.
- `mask`, `_mask_code`, `_statements` and the text of a span: character blanking and statement splitting.
- HuntDedupe.DedupedTitlesDiffer: nothing is claimed about two outputs being the "same lead" by evidence, since merged evidence sets grow and the relation is not transitive.
- The number of leads from round to round: it may shrink when deduped again.
- HuntHarness.RunMajorityVerify: prompts, excerpts, model names and the report text; usage is the output token count only.
- Exploitability.ScoreChain: the texts of the factors; sorting and filtering of the scored chains, and the best score by sink kind.
- Exploitability.IndexRisks: the ids of a package are kept as a set, not in order.
- Rendering of reports, diagrams and rules, command line, plugin loading, validation, static tables.
