# A verified model of the analyzers and of the Git session ports

This project models the parts of the repository whose behaviour is decided by code rather than by libraries, and proves
properties of them that hold for every input, every run or every interleaving. `dafny verify dfyconfig.toml` checks all
of it.

Code that changes things step by step is modelled by classes and methods with loops (`Comparer`, `Resolver`, `Ports`,
`Canonicalizer`, `MountSearch`, `RequireSearch`, `ParsedDocumentCache`, `Projector`, `GlobSegment`, `ParseTreeEntries`,
`WalkPipe`, `ParseProtocol`, ...). Each is proved against a specification on values, and the lemmas then say what the
specification means.

| component | files |
|---|---|
| literal response body against declared schema | `JsonPointer`, `SchemaExpansion`, `SchemaRoutes`, `SchemaValidity`, `ResponseSchemaResolution`, `Shapes`, `BodyWalks`, `BodyPaths`, `BodyCosts`, `BodyComparison`, `BodyDecision`, `BodyTypeLimit` |
| one-shot Git analysis sessions | `GitSessions`, `GitSessionInvariants`, `GitSessionDisposal`, `GitSessionSteps`, `GitSessionSafety`, `GitSessionLedger`, `GitSessionProgress`, `GitSessionPorts` |
| canonical JSON equality for enums | `CanonicalJson`, `EnumDeclaration`, `EnumCosts` |
| Java printer and TypeScript parser | `Unicode`, `Utf8`, `Base64Url`, `Decimals`, `JavaFields`, `JavaProtocol`, `JavaRoundTrip` |
| mount graph and require graph | `Graphs`, `MountGraph`, `RequireGraph` |
| cache of parsed documents | `ParsedDocuments`, `ParsedDocumentRetention` |
| controller globs | `GlobExpressions`, `ControllerGlobs` |
| projection, overlay, tree listing | `SchemaProjection`, `SchemaProjectionNodes`, `SchemaProjectionCheck`, `RoutingOverlay`, `RoutingConfiguration`, `RoutingResolver`, `RoutingExample`, `GitTrees`, `GitTreeRoundTrip` |

`Json` and `Strings` hold the shared data model: JSON values with members in document order, numbers as canonical
decimals, strings as sequences of characters.

## What turned out differently from what one would expect

- The type comparison can answer "compared" with more than 32 paths: its limit is looked at on entering a visit, and a
  node with `allOf` reports once more after its branches. `ComparedTypesWithinLimit` says exactly when 32 are passed, in
  terms of the composed nodes on the way to the last visit, and that 64 never are; `ComparedTypesCanExceedLimit` attains
  64. The other two comparisons keep to 32.
- The admission sum of the session ports can pass `maxSessions`: a resolve or an analysis that cleans up, and a session
  that a disposer cleans, count their id twice. `AdmissionSumExactly` says exactly when the sum stays within the limit,
  and that it never passes twice the limit; the ids themselves never pass it (`RoomIsNeverExceeded`).
- The AST protocol does not give back every record. `TextDecoder` drops a leading byte order mark, Java's encoder
  replaces a stray surrogate, and a list of just one empty text comes back empty. `RoundTripExactly` shows that these
  are the only losses. The record limit lets 4001 records through (`OutputArrives`).
- A Git listing loses a byte order mark at the start of a path in the same way (`ListingRoundTrip`).
- The document cache is transparent for well-formed texts. For a text with a stray surrogate it need not be: the digest
  is of the UTF-8 bytes, in which U+FFFD stands for the surrogate, so another text has the same digest.
  `TransparentExactly` gives the exact condition.
- A glob that ends in `**` compiles, but selects no file (`FinalStarsSelectNothing`).
- In the 3.1 profile a `$ref` that is not text passes the projection check and is dropped from the output
  (`OddReferenceIsLost`). Everything else is copied: `ProjectSchemas` copies in full exactly when every `$ref` below is
  text.

## Model

| member | source | states |
|---|---|---|
| SchemaRoutes.ExpandsExactly | analyzers/nodejs/src/response-schema-resolution.ts:12-38 | a schema expands exactly when every route through allOf, properties, items and references arrives at a node that is well formed as JSON (a bare reference to a definition there is, or an object with a list of 1 to 32 branches and properties without reserved keys), and no route follows a definition twice |
| SchemaRoutes.ResolvableExactly | analyzers/nodejs/src/response-schema-resolution.ts:7-12 | and its budgets, on the routes themselves: at most 10000 routes, none of more than 64 turns, following at most 128 definitions |
| ResponseSchemaResolution.ResolveResponseSchema | analyzers/nodejs/src/response-schema-resolution.ts:3-42 | resolves exactly the schemas whose routes are good and within the budgets; the result is the unbudgeted expansion and the pointers are the sorted pointers of the definitions used; an unresolved result too has sorted pointers, each of a definition there is |
| ResponseSchemaResolution.Resolver.Visit | analyzers/nodejs/src/response-schema-resolution.ts:7-39 | one visit, on shared `nodes`, `pointers` and `active`, succeeds exactly when the expansion fits the budget left, and then charges exactly its price and restores `active` |
| SchemaValidity.ExpansionPreservesValidity | analyzers/nodejs/src/response-schema-resolution.ts:7-39 | the expanded schema accepts exactly the values the original accepts under its definitions |
| SchemaExpansion.ExpansionIsReferenceFree | analyzers/nodejs/src/response-schema-resolution.ts:9-38 | an expansion has no `$ref` at any node reached by allOf, properties and items, so the comparers never refuse it for one |
| SchemaExpansion.ChainsNeverRepeat | analyzers/nodejs/src/response-schema-resolution.ts:14-20 | when a schema expands, no chain of references from it names a definition twice |
| SchemaExpansion.CycleIsUnsupported | analyzers/nodejs/src/response-schema-resolution.ts:13-21 | a reference cycle reachable through allOf, properties, items and references is never resolved |
| SchemaExpansion.NamesAreExactlyReached | analyzers/nodejs/src/response-schema-resolution.ts:15-18 | the definitions recorded are exactly those some chain of references from the schema ends in |
| JsonPointer.UnescapeEscape | analyzers/nodejs/src/response-schema-resolution.ts:13-15 | reading a written token gives the key back, with the two replacement passes the code makes (sections 3 and 4 of RFC 6901) |
| JsonPointer.EscapeUnescape | analyzers/nodejs/src/response-schema-resolution.ts:12-15 | writing the key of an accepted token gives the token back, so a pointer determines the definition |
| Shapes.ShapeOfDenotes | analyzers/nodejs/src/handler-candidates.ts:344-378 | the shape built for a literal is well formed and stands for the literal's own value |
| Shapes.ShapeOfExactly | analyzers/nodejs/src/handler-candidates.ts:344-378 | which literals have a shape, and which it is: an array's elements have at most 32 different ones, listed once each; an object's names are different and none is reserved |
| BodyPaths.PathsExactly | analyzers/nodejs/src/response-body-comparison.ts:9-103 | a path is reported exactly when a route of branches, variants, declared fields and items leads to a place whose type differs, which lacks a required field or has a forbidden one, and the path is that place's pointer, followed by the field; a comparison is refused exactly when a route leads to a place it does not support |
| BodyCosts.CostsExactly | analyzers/nodejs/src/response-body-comparison.ts:9-103 | the steps of a supported comparison are, one by one, the visits, required names and fields looked at on its routes, and its depth is the longest route |
| BodyComparison.CompareResponseBodyTypes | analyzers/nodejs/src/response-body-comparison.ts:6-31 | "compared" exactly when every place a route leads to is supported, the routes take at most 10000 steps and 64 moves, and fewer than 32 paths are found before the last visit; then the list is sorted, without duplicates, and has exactly the paths of places of a differing type |
| BodyComparison.CompareResponseBodyPresence | analyzers/nodejs/src/response-body-comparison.ts:34-68 | the same for required fields the literal lacks, each reported below its own object, with at most 32 paths |
| BodyComparison.CompareResponseBodyAdditionalProperties | analyzers/nodejs/src/response-body-comparison.ts:71-103 | the same for fields an object closure forbids, with at most 32 paths |
| BodyComparison.Comparer.VisitType | analyzers/nodejs/src/response-body-comparison.ts:9-28 | one budgeted visit from any counter state: gives up exactly with an excuse, which is final, and otherwise adds exactly the walk's steps and paths |
| BodyDecision.SilentIsValid | analyzers/nodejs/src/response-body-comparison.ts:6-103 | when none of the three traversals reports anything, every value of the shape is valid |
| BodyDecision.ValidIsSilent | analyzers/nodejs/src/response-body-comparison.ts:6-103 | when every value of the shape is valid, none of the three reports anything |
| BodyDecision.WalksDecideValidity | analyzers/nodejs/src/response-body-comparison.ts:6-103 | nothing is reported exactly when every value of the shape is valid for the original, unexpanded schema under its definitions |
| BodyDecision.CompareLiteralBody | analyzers/nodejs/src/index.ts:731-793 | the composition: only a resolvable schema is compared with, each comparison refines its traversal of the schema's expansion, and when all three compare, the lists are all empty exactly when every value of the literal's shape is valid for that schema (draft-fge-json-schema-validation-00, sections 5.3.1, 5.4.3, 5.4.4, 5.5.2, 5.5.3) |
| BodyDecision.SilentLiteralIsValid | analyzers/nodejs/src/index.ts:731-793 | a literal about which nothing is reported evaluates to a value that is valid for the documented schema |
| BodyTypeLimit.ChainIsLate | analyzers/nodejs/src/response-body-comparison.ts:9-28 | after its last visit is entered, a supported comparison reports exactly the paths of the composed nodes of a differing type on the way there and of the last node, at most one for every two levels |
| BodyTypeLimit.ComparedTypesWithinLimit | analyzers/nodejs/src/response-body-comparison.ts:9-28 | a compared list has at most 32 paths exactly when the paths only that last chain reports fit into what the last look at the limit left, so whenever the chain reports at most one; it never has more than 64 |
| BodyTypeLimit.ComparedTypesCanExceedLimit | analyzers/nodejs/src/response-body-comparison.ts:10-21 | the bound is attained: an input on which the type comparison answers "compared" with 64 paths |
| GitSessionSteps.StepKeepsInv | connectors/git-source/src/analysis-ports.ts:161-378 | every step of every interleaving, whatever I/O ends next and whether it fails, keeps the bookkeeping invariant |
| GitSessionSteps.RunKeepsInv | connectors/git-source/src/analysis-ports.ts:161-378 | hence every run does |
| GitSessionPorts.Ports.Perform | connectors/git-source/src/analysis-ports.ts:176-378 | the object that updates the shared maps, sets and counters in place makes exactly the machine's step, and keeps the invariant |
| GitSessionPorts.Ports.BeginResolve | connectors/git-source/src/analysis-ports.ts:229-249 | reserves exactly when not disposed, the admission sum leaves room and no book knows the id; then adds this id and one reservation, and opens the drain promise if it is the first; else changes nothing |
| GitSessionPorts.Ports.ProbeEnds | connectors/git-source/src/analysis-ports.ts:304-326 | registers the tree and ends the reservation, of which the last signals the drain promise; disposed or taken meanwhile, it only makes the tree pending and leaves the reservation open |
| GitSessionPorts.Ports.BeginAnalyze | connectors/git-source/src/analysis-ports.ts:331-348 | nothing without a session or once disposed; else the session is gone and its id active, the first analysis opens the drain promise, and the analyzer runs only for the registered request, while any other goes straight to the cleanup |
| GitSessionPorts.Ports.OnRelease | connectors/git-source/src/analysis-ports.ts:207-227 | exactly when it joins the release in flight, returns at once, starts from the session or retries a tree left over, and refuses otherwise, said on the books before; only the last two change anything, and their release can be joined at once |
| GitSessionPorts.Ports.PassOn | connectors/git-source/src/analysis-ports.ts:365-367 | past the reservations a disposer waits for the analyses exactly if any runs, on their drain promise, and then for the releases in flight |
| GitSessionPorts.Ports.SweepOn | connectors/git-source/src/analysis-ports.ts:369-376 | a disposer takes a session, marking it pending, before any pending tree, and returns only when there is neither |
| GitSessionSafety.BookkeepingAgrees | connectors/git-source/src/analysis-ports.ts:167-172 | in every reachable state the in-progress, session and active ids are pairwise disjoint and the two counters are the sizes of their sets |
| GitSessionSafety.UndisposedTreeHasOneHolder | connectors/git-source/src/analysis-ports.ts:176-198 | every undisposed tree is held by exactly one id, which is in the union of the four books; a disposed tree is held by none |
| GitSessionSafety.RoomIsNeverExceeded | connectors/git-source/src/analysis-ports.ts:229 | the union of in-progress, session, active and pending ids never exceeds `maxSessions` |
| GitSessionSafety.AdmissionSumIs | connectors/git-source/src/analysis-ports.ts:229 | in every reachable state the admission sum is the number of ids in the union, and again of those that are pending as well as in progress, registered or active |
| GitSessionSafety.CountedTwiceAre | connectors/git-source/src/analysis-ports.ts:176-184 | the ids counted twice are exactly the resolves that clean up, the analyses that clean up, and, once disposed, the sessions a disposer took to clean |
| GitSessionSafety.AdmissionSumExactly | connectors/git-source/src/analysis-ports.ts:229 | the sum stays within `maxSessions` exactly when the ids counted twice fit into the room left, so whenever there are none; it never passes twice `maxSessions` |
| GitSessionSafety.AdmissionSumCanExceed | connectors/git-source/src/analysis-ports.ts:229 | that bound is attained: a run in which the sum is 2 with `maxSessions` 1 |
| GitSessionSafety.WaitsEndAtZero | connectors/git-source/src/analysis-ports.ts:365-367 | a disposer is past each drain wait only when the count it waits for is zero, and starts to clean only when nothing is in flight |
| GitSessionProgress.SleepingDisposerHasWork | connectors/git-source/src/analysis-ports.ts:365-367 | a waiting disposer is never stuck: one of the very resolves, analyses or releases it waits for has a step that can happen |
| GitSessionProgress.SleepsWhileWork | connectors/git-source/src/analysis-ports.ts:365-367 | a disposer sleeps exactly while what it waits for has work left |
| GitSessionProgress.StepsDoWork | connectors/git-source/src/analysis-ports.ts:317-325 | while it sleeps no step of anyone adds to that work, and every step it waits for, failed or not, takes some away |
| GitSessionProgress.EnoughStepsWake | connectors/git-source/src/analysis-ports.ts:363-377 | in every run a disposer sleeps through at most as many of the steps it waits for as there was work, and is awake once the work is done |
| GitSessionSafety.ReturnedMeansAllDisposed | connectors/git-source/src/analysis-ports.ts:363-377 | once a dispose returned, no id holds anything and every tree ever materialized is disposed, earlier failed cleanups included |
| GitSessionSafety.AllDisposedForEver | connectors/git-source/src/analysis-ports.ts:363-377 | and this stays so in every continuation |
| GitSessionSafety.NoSessionAppearsAfterDispose | connectors/git-source/src/analysis-ports.ts:304-308 | in every continuation of a disposed state the sessions only shrink |
| GitSessionSafety.TakenOnce | connectors/git-source/src/analysis-ports.ts:225-226 | whoever took a session of analyze, release and dispose stays the only taker in every continuation |
| GitSessionSafety.TakenIsGone | connectors/git-source/src/analysis-ports.ts:336 | a taken session cannot be found again, but by the disposers that empty the map |
| GitSessionSafety.AnalyzerRunsTheRegisteredRequest | connectors/git-source/src/analysis-ports.ts:334-342 | while the analyzer runs, the submitted canonical form is that of the id's latest registration, and its tree is not disposed |
| GitSessionSafety.ReturningAtOnceMeansDisposed | connectors/git-source/src/analysis-ports.ts:221-222 | a release that returns at once was of the latest registration, whose tree is disposed already |
| GitSessionSafety.ReleasedMeansDisposed | connectors/git-source/src/analysis-ports.ts:185-198 | a release that ends well disposed the tree of the latest registration, and releasing the same request again returns at once |
| GitSessionSafety.FailedReleaseIsRetried | connectors/git-source/src/analysis-ports.ts:214-219 | after a failed release of an undisposed port the same request can be released again, on the same tree |
| GitSessionSafety.FailedAnalysisCleanupIsRetried | connectors/git-source/src/analysis-ports.ts:346-350 | so can a request whose analysis ended in a failed cleanup |
| GitSessionLedger.RememberedExactly | connectors/git-source/src/analysis-ports.ts:185-189 | a cleanup puts its entry last; every entry of another id stays, in its order, except that 1024 entries without the new id give up exactly the oldest |
| GitSessionLedger.ReleasedStaysReleasable | connectors/git-source/src/analysis-ports.ts:185-222 | after a release that cleaned up, releasing the same request returns at once in every continuation that registers the id no more and cleans up fewer than 1024 other ids |
| GitSessionLedger.AnalyzedStaysReleasable | connectors/git-source/src/analysis-ports.ts:346-350 | and so after an analysis that cleaned up |
| GitSessionSafety.LedgerIsBounded | connectors/git-source/src/analysis-ports.ts:185-189 | the released ledger never passes 1024 entries and never repeats an id |
| CanonicalJson.CanonUnique | analyzers/nodejs/src/schema-constraints.ts:8-16 | two canonical texts that agree up to what follows them are of the same value up to key order, and are followed by the same (string quoting per section 7 of RFC 8259) |
| CanonicalJson.CanonDecidesEquality | analyzers/nodejs/src/schema-constraints.ts:8-16 | two values have the same canonical text exactly when they are equal up to key order |
| EnumDeclaration.Canonicalizer.Canonical | analyzers/nodejs/src/schema-constraints.ts:8-16 | succeeds exactly when the value has no more nodes than the shared budget left and no value below level 32; then gives the canonical text and spends exactly the nodes |
| EnumCosts.PlacesOf | analyzers/nodejs/src/schema-constraints.ts:8-16 | the nodes the budget charges for a value are its places: itself, and those of its items and entries |
| EnumCosts.ShallowExactly | analyzers/nodejs/src/schema-constraints.ts:8-9 | the depth limit bounds exactly how far down a place may be |
| EnumDeclaration.DeclaredEnum | analyzers/nodejs/src/schema-constraints.ts:4-22 | accepts exactly the lists of 1 to 1024 values within the shared budget that are pairwise different up to key order; a duplicate and an unsupported list have their own codes |
| Base64Url.RoundTrip | analyzers/java-spring/java/AstExtract.java:33-35 | decoding undoes encoding for all byte strings (section 5 of RFC 4648) |
| Base64Url.EncodesSixBits | analyzers/java-spring/java/AstExtract.java:33-35 | the text writes the bits of the bytes six by six, zeros filling up the last, without padding; `SymbolIsInAlphabet` gives the symbols (table 2 of RFC 4648, section 5) |
| Base64Url.AcceptsOnlyCanonical | analyzers/java-spring/src/index.ts:22-27 | the re-encoding test accepts nothing but what encoding some bytes gives |
| Utf8.RoundTrip | analyzers/java-spring/src/index.ts:26 | decoding UTF-8 undoes encoding |
| Utf8.EncodedByTable | analyzers/java-spring/src/index.ts:26 | the bytes of a scalar carry it, under the marks of RFC 3629, section 3, and are as few as can |
| Utf8.Canonical | analyzers/java-spring/src/index.ts:26 | strict decoding accepts nothing but an encoding |
| Unicode.WellFormedRoundTrip | analyzers/java-spring/java/AstExtract.java:33-35 | encoding code units loses nothing exactly when no surrogate is stray |
| JavaFields.OnlyCanonicalFields | analyzers/java-spring/src/index.ts:22-27 | every field the parser accepts is the one base64url form of the UTF-8 of a text |
| JavaFields.SeenExactly | analyzers/java-spring/src/index.ts:22-27 | a text arrives as it was sent exactly when it has no stray surrogate and no leading byte order mark |
| JavaFields.ListSeenExactly | analyzers/java-spring/java/AstExtract.java:95-97 | a NUL-joined list arrives exactly when its texts are well formed, it does not start with a mark, and it is not just one empty text |
| JavaProtocol.PositiveDecimals | analyzers/java-spring/src/index.ts:34-37 | printed positive numbers of at most seven digits are accepted and read back |
| JavaProtocol.OnlyPositiveDecimals | analyzers/java-spring/src/index.ts:34-37 | an accepted number is in range and printed just so |
| JavaProtocol.PrintedRoute | analyzers/java-spring/java/AstExtract.java:171-176 | the fifteen fields of a route's line and their order |
| JavaProtocol.AcceptedDiagnostic | analyzers/java-spring/src/index.ts:46-49 | a diagnostic is accepted only as one printed line, of a listed path, a positive number of at most seven digits and a code of the profile |
| JavaProtocol.AcceptedRoute | analyzers/java-spring/src/index.ts:50-62 | an accepted route has a listed path, six such numbers, one of five verbs, bounded texts without control characters and an identifier |
| JavaProtocol.ParseProtocol | analyzers/java-spring/src/index.ts:38-64 | the loop over the lines gives the records of all lines in order, or refuses as a whole |
| JavaRoundTrip.OutputArrives | analyzers/java-spring/src/index.ts:38-64 | parsing printed records gives each as it is seen by the field codec, unless there are more than 4001 |
| JavaRoundTrip.RoundTripExactly | analyzers/java-spring/java/AstExtract.java:171-176 | parsing undoes printing, absent lists coming back empty, exactly when every text and list of every record arrives |
| Graphs.OrderedHasNoCycle | analyzers/typescript/src/index.ts:596-604 | a graph whose nodes can be ordered after all their successors has no cycle |
| Graphs.AroundStep | analyzers/typescript/src/index.ts:620-624 | what a node reaches without passing its ancestors is itself and what its successors reach without passing it either |
| MountGraph.MountSearch.CheckCycles | analyzers/typescript/src/index.ts:596-604 | the memoised search from one receiver terminates on every graph, reports only cycles, and finishes nodes after all their successors unless it reported |
| MountGraph.MountSearch.Traverse | analyzers/typescript/src/index.ts:620-624 | the traversal terminates on cyclic graphs and adds to `visited` exactly what the receiver reaches by static mounts around its ancestors |
| MountGraph.StaticMountsExactly | analyzers/typescript/src/index.ts:695-700 | a receiver's traversal follows a mount exactly when its `use` has one argument or starts with a literal, a receiver or a function |
| MountGraph.SearchMounts | analyzers/typescript/src/index.ts:595-709 | a cycle is reported exactly when some receiver mounts itself over any number of mounts, and only such receivers are reported; exposure is unresolved, once each and in order, for exactly the receivers to which no way of such mounts leads from an application |
| RequireGraph.RequireSearch.InspectGraph | analyzers/nodejs/src/handler-candidates.ts:59-96 | the memoised search terminates on cyclic requires; success means everything newly loaded passed, is reached from here and comes after what it requires |
| RequireGraph.InspectController | analyzers/nodejs/src/handler-candidates.ts:56-108 | a controller is accepted only if its require closure is acyclic, has at most 32 modules and 1000000 bytes and every module passed; the listed sources are that closure without the controller. Acceptance is promised only for those of them in which no chain of requires has more than eight steps. A refusal's code is that of something on a way from the controller: a module missing, unsupported or met again, too many steps, modules or bytes, or an error a module has |
| ParsedDocuments.ParsedDocumentCache.Parse | analyzers/nodejs/src/parsed-document-cache.ts:102-140 | the map, the byte total and the counters move exactly as the specification's answer, which both limits and the accounting survive |
| ParsedDocuments.ParsedDocumentCache.Evict | analyzers/nodejs/src/parsed-document-cache.ts:130-136 | the eviction loop terminates without meeting an empty map, and drops exactly the surplus from the least recently used end |
| ParsedDocumentRetention.DirectByEnding | analyzers/nodejs/src/parsed-document-cache.ts:117-119 | a valid key whose path ends in `.json` is parsed as JSON, one in `.yaml` or `.yml` as YAML |
| ParsedDocumentRetention.HitExactly | analyzers/nodejs/src/parsed-document-cache.ts:107-115 | a call is a hit, and counted so, exactly when its key is held and the text has the key's digest; the held value is answered and moves to the end; else the answer is plain parsing's |
| ParsedDocumentRetention.MissExactly | analyzers/nodejs/src/parsed-document-cache.ts:115-140 | after a miss exactly a verified, parsed and small enough value is held, last, and exactly as many of the oldest are evicted as make room |
| ParsedDocumentRetention.RepeatIsHit | analyzers/nodejs/src/parsed-document-cache.ts:107-140 | parsing such a text again is a hit with the same answer |
| ParsedDocuments.SurplusIsShortest | analyzers/nodejs/src/parsed-document-cache.ts:130-136 | the surplus is the shortest prefix whose removal makes room |
| ParsedDocuments.SlotsAreByRecency | analyzers/nodejs/src/parsed-document-cache.ts:108-112 | after every run the slots stand in the order of their last use |
| ParsedDocuments.RunKeeps | analyzers/nodejs/src/parsed-document-cache.ts:97-140 | after every run the retained bytes are the sum over the slots, both limits hold, no key repeats and every slot is what parsing gave for a text with its digest |
| ParsedDocuments.Transparent | analyzers/nodejs/src/parsed-document-cache.ts:102-140 | after any run over well-formed texts a well-formed text is answered, with value or failure, as plain parsing would |
| ParsedDocuments.TransparentExactly | analyzers/nodejs/src/parsed-document-cache.ts:102-140 | over all runs, whatever their texts, a verified text is always answered as plain parsing would, if and only if the parser tells it from no retained text with the same UTF-8 encoding |
| ParsedDocuments.IllFormedIsConfused | analyzers/nodejs/src/parsed-document-cache.ts:104-113 | so not for a text with a stray surrogate that the parser tells from the one with the surrogate replaced: once that is cached, its value is the answer |
| GlobExpressions.ReadPrinted | analyzers/routing-controllers/src/controller-selection.ts:67-87 | the regular-expression text the compiler writes, escapes included, reads back as the atoms it meant |
| GlobExpressions.SomeEngineRunsWritten | analyzers/routing-controllers/src/controller-selection.ts:106 | no two lists of atoms with different meanings are written alike, so there is an engine that gives every written text its meaning |
| ControllerGlobs.GlobSegment | analyzers/routing-controllers/src/controller-selection.ts:68-87 | accepts exactly the segments of stars, bounded brace lists and name characters, and writes the text of their atoms |
| ControllerGlobs.SegmentMeaning | analyzers/routing-controllers/src/controller-selection.ts:68-87 | the atoms of a segment match exactly the names it means, a star never crossing a slash |
| ControllerGlobs.CompiledMeaning | analyzers/routing-controllers/src/controller-selection.ts:96-106 | the compiled atoms match a path exactly when the glob matches its names segment by segment, `**` taking any run of non-empty directories |
| ControllerGlobs.FinalStarsSelectNothing | analyzers/routing-controllers/src/controller-selection.ts:97-104 | a pattern that ends in `**` only matches paths that end in a slash |
| ControllerGlobs.SelectedExactly | analyzers/routing-controllers/src/controller-selection.ts:106-107 | the selected files are those at an increasing list of indices, which are exactly the indices of files the glob matches |
| ControllerGlobs.MatchControllerGlob | analyzers/routing-controllers/src/controller-selection.ts:90-108 | with any engine that gives the texts the compiler writes their meaning: refuses exactly the patterns outside the profile; otherwise returns, in order, exactly the files the glob matches |
| SchemaProjectionNodes.NodeFineExactly | analyzers/openapi3/src/index.ts:232-290 | what the check asks of a node, keyword by keyword: known keys, type names, plain bounded constants and enum members, texts, numbers, counts, lists of at most 32 |
| SchemaProjectionNodes.AllKidsExactly | analyzers/openapi3/src/index.ts:268-292 | the check visits exactly the values that stand where a schema stands |
| SchemaProjectionNodes.CleanReferenceExactly | analyzers/openapi3/src/index.ts:211-232 | a reference is followed exactly when it is the node's only key and its text is the components' prefix and one well-formed token |
| SchemaProjection.ProjectsTranslates | analyzers/openapi3/src/index.ts:323-391 | every schema the check accepts is translated without a diagnostic |
| SchemaProjection.CopiedExactly | analyzers/openapi3/src/index.ts:323-384 | the translation of an accepted schema is a keyword-for-keyword copy with references renamed, exactly when every `$ref` below is text |
| SchemaProjectionCheck.Projector.SchemaCanProject | analyzers/openapi3/src/index.ts:211-294 | the check terminates on cyclic components and, on a shared count, accepts exactly the projectable schemas whose visits fit 50000 |
| SchemaProjectionCheck.Projector.ProjectSchema | analyzers/openapi3/src/index.ts:385-391 | one projection on the shared count: projects exactly the schemas that are projectable and whose visits still fit, and charges those visits |
| SchemaProjectionCheck.ProjectSchemas | analyzers/openapi3/src/index.ts:209-391 | over all schemas of a document on one count, each is projected exactly if it is projectable and the visits up to its own fit 50000, and loses nothing exactly when every `$ref` below is text |
| SchemaProjectionCheck.ProjectionIsInvertible | analyzers/openapi3/src/index.ts:323-391 | two such schemas with the same output are equal up to key order, so inverting the renaming recovers the input |
| SchemaProjectionCheck.OddReferenceIsLost | analyzers/openapi3/src/index.ts:216-232 | a schema whose `$ref` is not text is accepted and projected to an empty one |
| RoutingOverlay.PrefixTest | analyzers/nodejs/src/routing-config.ts:132-136 | comparing pointers by their texts is comparing them token by token |
| RoutingConfiguration.PlacedTruthfully | analyzers/nodejs/src/routing-config.ts:64-104 | any pointer below a router or pipe of an overlaid configuration finds the used value in the file it is placed in |
| RoutingResolver.ConfigureExactly | analyzers/nodejs/src/routing-config.ts:51-97 | which documents make a configuration: defaults without reserved keys at any depth whose `swagger` is an object, and a layer that says nothing but a mock mode and four keys of one router the defaults describe |
| RoutingResolver.ConfiguredValues | analyzers/nodejs/src/routing-config.ts:77-112 | the mock mode used is the caller's, else the layer's, else the default; the overridden router has the layer's fields, else its own; every other key and router is the default one |
| RoutingResolver.MergeIsOverlay | analyzers/nodejs/src/routing-config.ts:66-104 | so merging an accepted environment layer gives an overlay, whose overridden fields the layer holds where its pointers say |
| RoutingResolver.ItemsExactly | analyzers/nodejs/src/routing-config.ts:145-165 | an item routes or passes by the name of the fitting it stands for: its own definition's, the pipelines' definition's, or the plain name's, of which five pass |
| RoutingResolver.CheckItem | analyzers/nodejs/src/routing-config.ts:142-167 | an item passes exactly if it is an error handler or a known fitting, and is the router exactly if it is the last and the only one |
| RoutingResolver.WalkPipe | analyzers/nodejs/src/routing-config.ts:139-169 | the loop succeeds exactly when the pipe ends in its only router and knows everything before it; all recorded pointers are truthful |
| RoutingResolver.ResolveConfiguration | analyzers/nodejs/src/routing-config.ts:43-178 | supported exactly when the documents make a configuration whose keys are known, whose mock mode is absent or false and whose fittings are standard, and it has no pipelines, or the named pipe ends in an acceptable router; then with that router's directories; every recorded pointer (section 4 of RFC 6901) finds the used value in the file beside it, and every directory used is written at one of them |
| RoutingExample.ResolveOrdinary | analyzers/nodejs/src/routing-config.ts:43-178 | an ordinary configuration, with every kind of item in its pipe and its mock mode turned off by a layer, resolves to its controller directory; without the layer it is refused |
| GitTrees.AboveExactly | connectors/git-source/src/index.ts:105-111 | the joined proper prefixes of a path's segments are exactly the directories above it |
| GitTrees.AcceptableExactly | connectors/git-source/src/index.ts:94-102 | which entries are accepted, on the stretches of the path between slashes: none empty, dots alone or `.git` in any case, no backslash, colon or control character; an object id of 40 hexadecimal digits |
| GitTrees.ParseTreeEntries | connectors/git-source/src/index.ts:80-113 | accepts exactly the listings whose records all read, within the limit, with no path twice and none under another; returns their entries, all of them, strictly sorted by path |
| GitTreeRoundTrip.ListingRoundTrip | connectors/git-source/src/index.ts:84-104 | reading a printed listing of valid entries gives those entries, exactly when no path starts with a byte order mark |
| GitTreeRoundTrip.PrintedListingParses | connectors/git-source/src/index.ts:80-113 | parsing the printed listing of valid entries without a leading mark succeeds exactly when they form a tree of at most so many files, and gives just these entries sorted by path |
| GitTreeRoundTrip.FrameInjective | connectors/git-source/src/index.ts:157-174 | the `path NUL mode NUL digest NUL` framing of files without NUL is injective |
| GitTreeRoundTrip.EqualDigestsMeanEqualTrees | connectors/git-source/src/index.ts:173-180 | trees of accepted paths have equal digests exactly when their files are equal |

## Left out

- RequireGraph.InspectController: acceptance is shown for chains of at most eight requires; beyond that it depends on
  the order in which shared modules are loaded, and only the safety half is stated.
- ParsedDocuments.Transparent: assumes that the digest a key names is that of one byte sequence only.
- JavaRoundTrip.RoundTripExactly: about records within the sizes both halves agree on; a longer text or number is
  refused by the parser.
- SchemaProjection.CopiedExactly: says nothing about the order of object keys in the output.
- Response selection and response-object references (`selectResponseForStatus`, `resolveResponseObject`); the declared
  schema is an input.
- The budget of `literal()` and its identifiers; literals are given as trees with their element limit of 32.
- Strings are sequences of Unicode scalar values, and sorted by them, except in the Java protocol and the document
  cache, which are modelled on UTF-16 code units. Stray surrogates in enum members, schema keys and paths are not
  modelled.
- Printing of numbers is a parameter: distinct numbers print differently, in number characters only. Sparse arrays and
  values that are not JSON are not modelled.
- GitSessionProgress.EnoughStepsWake: that the environment does end what it started is up to it; this bounds how many
  ends a disposer can sleep through.
- Hashes are injective functions, identifiers cut from a hash included; `SomePrinter`, `SomeHostDistinguishes` and
  `SomeHostIsCollisionless` show that what is asked of such parameters can be met. Strict JSON and YAML parsing, `node:path` and the matching of a regular expression
  are parameters; the meaning of the regular expressions the compiler writes is modelled.
- Wall-clock budgets and timeouts.
- The order in which a disposer sweeps the session and pending maps is any order; the code uses insertion order.
- Base trees of `selectedDocumentDelta`, which live within one segment of `resolve`, and the validation of requests,
  bindings and selections, whose failures change nothing.
- The microtasks that follow a finished cleanup belong to the step that ends it.
- Syntax trees: receivers, mounts, requires and literals are given as finite graphs, lists and trees. Endpoints,
  prefixes and middleware built by `traverse` are not modelled.
- Values of the parsed-document cache are immutable by construction; freezing is not modelled.
- The 3.0 profile, diagnostics' texts and pointers, and the `localeCompare` order of projected properties.
- In the routing configuration: which files are found and their size limit, the environment's name, and pointers
  recorded for layers, mock mode and custom fittings before the pipe is walked. The presence of custom fittings is a
  parameter.
- `posix.normalize(path) !== path` in the tree listing: implied by the checks on each segment.
- Reading blobs, writing files, signatures, observations, portals and command lines.
