# CentralGauge, verified models

A Dafny model of the algorithms and protocols of CentralGauge, a benchmark harness for AL code,
with proofs of what they promise. `dafny verify dfyconfig.toml` checks everything.

| files | what they model |
|---|---|
| `PrereqSearch`, `PublishProtocol`, `PublishArtifacts`, `PrereqServer`, `Escalation` | the prereq pipeline of the AL tools server: depth-first search over app dependencies, compile loop, publishing through a promise cache shared by concurrent calls, evictions and clears, and the escalation adapter of the workbench |
| `JsonText`, `CanonicalJson`, `CanonicalReader`, `CanonicalHeap` | canonical JSON on values (with a reader that inverts it) and on graphs of objects with the shared `seen` set; strings and key order follow sections 3.2.2.2 and 3.2.3 of RFC 8785 |
| `DashboardState`, `DashboardStats`, `DashboardReplica`, `DashboardEffects`, `DashboardRun` and the classes `DashboardStateManager`, `DashboardServer`, `DashboardBridge` | the live dashboard as a replicated state machine: server state, broadcasts, replay on connect, and the page that folds the events |
| `Template`, `TemplatePieces`, `TemplateMeaning`, `TemplateExact`, `TemplateInert` | the three rewriting passes of the prompt template engine against a one-pass evaluator |
| `AgentInheritance` | the resolver of `extends` chains |
| `Segments`, `PathTranslation` | sandbox path translation, on strings and by segments |
| `SlugMigration` | the file migration with crashes anywhere and reruns |
| `BackfillWrite`, `BackfillEvents`, `BackfillChecks`, `BackfillOutcome` | the lifecycle backfill: building events, deduplicating publish groups, writing them with interrupted runs, and what the checks made afterwards find on the log the server keeps |
| `StdioTransport`, `Characters`, `LogRotation`, `BodyCap`, `HtmlEscape` | line framing of the stdio transport, log rotation, the capped body reader, the two HTML escapers |

Code that changes state in place is a class or a method, proved equal to a function on values; the
properties are lemmas about those functions. A protocol is a list of steps, and its theorems hold
after every list. Failures of I/O are parameters: which publish fails, which file operation fails,
where a run is cut short, when a stream dies.

## What the code does otherwise than its documentation says

- `shared/canonical.ts` speaks of circular references; it rejects every array or object reached
  twice, also without a cycle. A sparse array with a single hole prints like the empty array.
- `clearPrereqCaches` during a publish breaks single flight, and then the eviction handler can
  remove another promise's entry, because it deletes by key (`ClearInFlightEvictsForeign`).
- The publish cache knows container and app id, not the build: a call can run its tests on the build
  that another call published under the same id (`OtherBuildTested`).
- In `renderTemplate` a name that a plain object inherits, such as `constructor`, is not an unresolved
  variable (`InheritedUseResolves`). Blocks nested in a block of their own kind are not evaluated as written.
- The header of `migrate` calls it atomic for each file; a crash during the write leaves a torn new
  file beside the whole old one. A row that writes its own old file would lose it. A file that
  already stands under a new name is overwritten.
- The server that the backfill writes to drops an event whose payload, date and type it holds, also
  when model or task set differ; the backfill counts it as already landed.
- `dedupePublishGroups` compares raw hashes, the events carry resolved ones, so a row that spells out
  the sentinel is not recognised as the duplicate of one without a hash.
- The backfill gives the sentinel to empty hashes, the checks only to missing ones.
- `buildAnalysisEvents` keeps an invalid first date for good.
- The stdio loop answers every request without an id except `notifications/initialized`, although
  section 4.1 of the JSON-RPC 2.0 specification asks for no reply to a notification. A last line
  without a newline is never handled.
- Below a host root that resolves to the root of a drive or share, `translatePath` refuses every
  child. The host path `C:\` is cut to `C:`, which means the current directory of that drive.
- With `maxBytes` of zero every call to `appendTextWithRotation` rotates.

## Model

| member | source | states |
|---|---|---|
| `PrereqSearch.Collector.CollectDeps` | mcp/al-tools-server.ts:537-556 | one recursive call of the depth-first search ends on every graph, cyclic or not, keeps the invariant of the shared `result` and `visited`, marks its app and pushes it last |
| `PrereqSearch.FindAllPrereqApps` | mcp/al-tools-server.ts:529-566 | the list holds each reachable listed app exactly once and nothing else, the main prereq last; every dependency precedes its dependents if and only if the graph is acyclic |
| `PrereqSearch.DependenciesFirstMeansAcyclic` | mcp/al-tools-server.ts:543-555 | no list at all puts every dependency first on a cyclic graph |
| `PrereqSearch.TransitiveDependencyFirst` | mcp/al-tools-server.ts:543-555 | on an acyclic graph the transitive dependencies of an app stand strictly before it |
| `PrereqSearch.CompilePrereqs` | mcp/al-tools-server.ts:1400-1449 | the compile loop reports the first failing app, and otherwise keeps the apps with an artifact in order, each with the file its compile produced, which is not empty |
| `PrereqSearch.PublishableKeepsOrder` | mcp/al-tools-server.ts:1442-1448 | what stands before an app in the search result stands before it in the publish list exactly when it has an artifact |
| `PublishProtocol.CacheKeyInjective` | mcp/al-tools-server.ts:1608 | container and app id are recovered from a cache key if app ids have no colon |
| `PublishProtocol.CacheKeyClash` | mcp/al-tools-server.ts:1608 | every app id with a colon shares its cache entry with another target |
| `PublishProtocol.PlanKeyInjective` | mcp/al-tools-server.ts:1374-1376 | a draft with its own prereq directory never shares a cache entry with another job if task ids have no bar |
| `PublishProtocol.PlanRemembered` | mcp/al-tools-server.ts:1451-1458 | resolving remembers a plan with apps under the key of its job and changes no other entry; a plan without apps is not remembered |
| `PublishProtocol.ArrivalFindsPlan` | mcp/al-tools-server.ts:1374-1384 | a call whose key is remembered goes on with that plan, any other has to resolve |
| `PublishProtocol.InvAlways` | mcp/al-tools-server.ts:1603-1628 | the invariant of calls, promises, caches and containers holds after every list of steps, in every interleaving, with failures and clears anywhere |
| `PublishProtocol.DependencyListedBefore` | mcp/al-tools-server.ts:1400-1449 | in a plan over an acyclic graph, a transitive dependency is in the publish list before its dependent exactly when it compiled to an artifact |
| `PublishProtocol.DependenciesPublishedFirst` | mcp/al-tools-server.ts:1603-1628 | whenever a call starts a publish, every transitive dependency that compiled to an artifact was published successfully on that container before; holds across failures, evictions and clears |
| `PublishProtocol.TestsRunAfterEveryPublish` | mcp/al-tools-server.ts:1603-1631 | a call gets to its tests only with every app id of its plan published on its container, and a plan from the cache was made for the same task and prereq directory |
| `PublishArtifacts.OwnBuildsExactlyWhenAgreed` | mcp/al-tools-server.ts:1603-1631 | for any set of valid plans, by the stretch between two clears in which they may be resolved: in every run with clears between calls only, each call gets to its tests with its own builds, and no other builds of those apps, published to its container since the last clear, if and only if the plans of a stretch agree on the build of every app they share |
| `PublishArtifacts.OtherBuildTested` | mcp/al-tools-server.ts:1608-1616 | any two plans with different builds of one app have a run, on any container and after any number of clears, in which the call on the second gets to its tests with the build of the first on the container and its own not published since the last clear |
| `PublishArtifacts.OneBuildFresh` | mcp/al-tools-server.ts:1608-1626 | with quiet clears at most one build of an app gets onto a container between two clears |
| `PublishArtifacts.DependencyBuildsFirst` | mcp/al-tools-server.ts:1603-1628 | with agreement, whenever a call starts a publish, its own build of every transitive dependency that compiled to an artifact was published to the container since the last clear |
| `PublishArtifacts.PublishesCompiledFiles` | mcp/al-tools-server.ts:1446-1617 | in every run, whatever is published is an app of a resolved plan together with the file that compiling it for that plan produced |
| `PublishProtocol.SingleFlightAlways` | mcp/al-tools-server.ts:1609-1626 | if clears happen only while no publish is in flight: never two publishes of a target at once, no publish after a success until a clear, the eviction handler removes its own promise only, and the target can be retried |
| `PublishProtocol.ClearInFlightDoublesPublish` | mcp/al-tools-server.ts:205-208 | in any run, a clear while a call awaits a publish lets a second call on the same plan publish that app beside it (the steps are given) |
| `PublishProtocol.ClearInFlightEvictsForeign` | mcp/al-tools-server.ts:1617-1621 | if the first of the two then fails, its rejection handler deletes the cache entry of the second, which is in flight |
| `PublishProtocol.ClearSafeExactlyWhenQuiescent` | mcp/al-tools-server.ts:205-208 | one more clear keeps single flight in every continuation with quiet clears if and only if nothing is in flight at that moment |
| `PublishProtocol.EvictionOwnExactlyWhenQuiescent` | mcp/al-tools-server.ts:1617-1621 | and exactly then every rejection handler that can run deletes its own entry, in every such continuation |
| `PublishProtocol.SerialClearsAreQuiet` | cli/commands/workbench-command.ts:174-181 | clears made while no verify call runs, as the serial queue makes them, are all quiet |
| `PrereqServer.VerifyServer.BeginVerify` | mcp/al-tools-server.ts:1374-1384 | the cache lookup is the arrival of the call, for every task id; it is a step of the protocol if the task id has no bar |
| `PrereqServer.VerifyServer.ResolvePrereqs` | mcp/al-tools-server.ts:1385-1459 | search, compile loop and cache store give what resolving does, for every app id, or abort the call if an app does not compile; both are steps of the protocol if no app id has a colon |
| `PrereqServer.VerifyServer.PublishNext` | mcp/al-tools-server.ts:1605-1626 | one pass of the publish loop up to its await is the advance step |
| `PrereqServer.VerifyServer.EvictFailedPublish` | mcp/al-tools-server.ts:1620 | the rejection handler is the step that deletes by key |
| `PrereqServer.VerifyServer.ClearPrereqCaches` | mcp/al-tools-server.ts:205-208 | clearing both maps is the clear step |
| `Escalation.EscalationVerify.StartJob` | cli/commands/workbench-command.ts:173-200 | each job clears quietly, starts a preflight only for a container without a successful one, and throws exactly when its container has none; failed preflights are never kept |
| `JsonText.ReadQuoted` | shared/canonical.ts:24 | a reader of JSON strings, written with the code units of section 7 of RFC 8259, inverts the escaping, for every sequence of UTF-16 units including lone surrogates, whatever follows |
| `JsonText.QuoteIsStandard` | shared/canonical.ts:24 | the text of a string is a quotation mark, then for each unit the one form that ECMA-262 fixes (a short escape, four lower-case hexadecimal digits for a control unit or a lone surrogate, or the unit itself), then a quotation mark, all in literal code units |
| `JsonText.LessExactly` | shared/canonical.ts:34 | the order of the keys: the first differing code unit decides, and a proper prefix comes first |
| `CanonicalJson.SortIncreasing` | shared/canonical.ts:34 | the keys of an object come out strictly increasing in code-unit order |
| `CanonicalReader.SerializePrints` | shared/canonical.ts:15-46 | serializing succeeds exactly on values whose leaves can be printed, and prints the normal form |
| `CanonicalReader.ReadPrinted` | shared/canonical.ts:15-46 | the reader inverts printing on every normal form, whatever legal text follows |
| `CanonicalReader.SameIffNormEqual` | shared/canonical.ts:34-43 | two values are the same up to key order, the sign of zero and a lone hole exactly when their normal forms are equal |
| `CanonicalReader.CanonicalReadsBack` | shared/canonical.ts:11-46 | a reader written with the literal code units of RFC 8259 parses the text of a value back to that value, with the keys strictly increasing in every object at every depth |
| `CanonicalReader.CanonicalIffSame` | shared/canonical.ts:11-46 | two values have the same text if and only if they are the same JSON value; printing fails exactly when a leaf cannot be printed |
| `CanonicalReader.LoneHoleClash` | shared/canonical.ts:28 | the one clash: a sparse array with a single hole prints like the empty array |
| `CanonicalReader.ErrorExplained` | shared/canonical.ts:15-46 | an error names what is at fault: a number that is not finite, an unsupported type, an undefined value and its key, or such a fault in a part |
| `CanonicalHeap.CycleIsShared` | shared/canonical.ts:26-33 | a graph with a cycle reaches a node twice |
| `CanonicalHeap.Serializer.Serialize` | shared/canonical.ts:15-46 | a visit succeeds exactly when what it reaches is unshared and avoids the nodes seen before; `seen` then grows by exactly the nodes reached |
| `CanonicalHeap.CanonicalJSON` | shared/canonical.ts:11-46 | ends on every finite graph, cyclic or not; succeeds exactly when no array or object is reached twice and all leaves are printable, and then prints the unfolded tree; which error is thrown is explained |
| `DashboardState.CellKeyInjective` | cli/dashboard/state.ts:23-25 | the run number is always recovered from a cell key; task and model are if either kind of id has no bar |
| `DashboardState.CellKeyClash` | cli/dashboard/state.ts:23-25 | a bar can move between task id and model name: two cells then share one key |
| `DashboardState.SetRowsResets` | cli/dashboard/state.ts:111-125 | starting a run adds or resets exactly the cells of that run and keeps every other cell |
| `DashboardStats.OneMoreCell` | cli/dashboard/state.ts:175-191 | one more cell adds one to the totals of its own model only, and only if it is complete |
| `DashboardStats.OneMoreStat` | cli/dashboard/state.ts:175-196 | what it adds to the statistics of its model for each state: a pass and its attempt, a failure, its cost; nothing while it is open |
| `DashboardStats.RateIsShare` | cli/dashboard/state.ts:193-197 | the pass rate times the complete cells gives the passes |
| `DashboardStats.OneMoreProgress` | cli/dashboard/state.ts:232-260 | one more cell adds one to the counter of its phase: completed, calling, or in the pipeline |
| `DashboardStats.Accounting` | cli/dashboard/state.ts:159-274 | the phases partition the cells, passed and failed totals over the models sum to the completed cells, first and second attempt passes stay within passes |
| `DashboardStateManagers.DashboardStateManager.InitializeCells` | cli/dashboard/state.ts:111-125 | the two nested loops produce the board that `SetRowsResets` describes |
| `DashboardStateManagers.DashboardStateManager.UpdateCell` | cli/dashboard/state.ts:130-139 | a known cell is merged with the patch and returned, an unknown key changes nothing |
| `DashboardStateManagers.DashboardStateManager.RecalculateModelStats` | cli/dashboard/state.ts:159-200 | the one-pass accumulation in a map equals counting each model's cells |
| `DashboardStateManagers.DashboardStateManager.GetProgress` | cli/dashboard/state.ts:232-274 | the three counters equal the counts of the three phases |
| `DashboardReplica.ReactTracks` | cli/dashboard/bridge.ts:100-166 | for every orchestrator event, a page that agrees with the board before agrees after folding what the handler sent |
| `DashboardReplica.StartRunTracks` | cli/dashboard/bridge.ts:84-94 | the same for starting a run |
| `DashboardReplica.FinishTracks` | cli/dashboard/bridge.ts:172-176 | the same for the end of the benchmark |
| `DashboardReplica.ReactMoney` | cli/dashboard/bridge.ts:299-310 | every event keeps bridge total, board total and history in step; only a real result with a positive cost moves them, by its cost |
| `DashboardEffects.CallStarted` | cli/dashboard/bridge.ts:178-188 | a started call puts its cell of the current run in the call phase with its attempt, leaves everything else, and sends that cell and the progress; for an unknown cell nothing happens |
| `DashboardEffects.CompileBegun` | cli/dashboard/bridge.ts:190-197 | the same for a started compile, which leaves the attempt |
| `DashboardEffects.CompileDone` | cli/dashboard/bridge.ts:199-222 | the same for a finished compile: testing if it succeeded, otherwise a compile error |
| `DashboardEffects.ResultEffect` | cli/dashboard/bridge.ts:224-310 | a result marks its cell passed exactly if it succeeded, with the attempt that passed or else the number of attempts and the summed cost; a positive cost adds one point and moves the totals by it; a synthesized infrastructure result changes nothing |
| `DashboardEffects.ResultSends` | cli/dashboard/bridge.ts:262-316 | its events: the cell if known, one health event if some attempt counts for it, the cost point if there is one, statistics, progress |
| `DashboardEffects.ErrorEffect` | cli/dashboard/bridge.ts:342-409 | an error marks its cell failed and adds its details; nothing without task and model |
| `DashboardEffects.RunStarted` | cli/dashboard/bridge.ts:84-94 | after a run starts, board and bridge hold the given number, each cell of the run is there untouched, and one full state is sent |
| `DashboardRun.BroadcastAllEffect` | cli/dashboard/server.ts:143-159 | broadcasting a list appends it whole to every open registered stream and to no other |
| `DashboardRun.ConnectEffect` | cli/dashboard/server.ts:218-263 | a connecting stream is sent the whole state, the container health and the latest pool snapshot, as far as they fit, is registered exactly if all fit, and changes no other stream |
| `DashboardRun.InvAlways` | cli/dashboard/server.ts:143-283 | replica agreement, stream bookkeeping, cost totals and board validity hold after every list of events, run starts, ticks, connects, deaths and cancels |
| `DashboardRun.ReplicaAgrees` | cli/dashboard/server.ts:143-283 | in every run, a browser on an open registered stream that has consumed everything sent to it holds exactly the server's cells, cost history, running flag and run number, whatever it held before |
| `DashboardRun.StreamsGapFree` | cli/dashboard/server.ts:218-263 | after its replay a stream is sent a gap-free, duplicate-free stretch of the broadcasts, up to the latest while it is open; a stream whose replay failed is never registered |
| `DashboardRun.StaleExactlySinceBroadcast` | cli/dashboard/server.ts:143-159 | in every run the dead streams still registered are exactly those that died unnoticed while registered, with no broadcast and no cancel of theirs since |
| `DashboardRun.CostsAgree` | cli/dashboard/bridge.ts:299-310 | in every run the cumulative cost of the bridge, the total of the board and the sum of the history are equal, and each point continues from the one before |
| `DashboardRun.AccountsBalance` | cli/dashboard/state.ts:159-274 | in every run the accounting equations hold |
| `DashboardServers.DashboardServer.BroadcastSSE` | cli/dashboard/server.ts:143-159 | the loop over the clients and the sweep of the dead are the broadcast step |
| `DashboardServers.DashboardServer.HandleSSE` | cli/dashboard/server.ts:218-263 | replay, then registration only if everything landed, is the connect step |
| `DashboardServers.DashboardServer.Cancel` | cli/dashboard/server.ts:264-272 | a disconnect removes its own controller only |
| `DashboardBridges.DashboardEventBridge.HandleEvent` | cli/dashboard/bridge.ts:100-166 | the switch and its handlers change state, bridge and wire as the step of the run says |
| `DashboardBridges.DashboardEventBridge.OnResultEvent` | cli/dashboard/bridge.ts:224-317 | cell, health, cost point, statistics and progress are sent in this order, and nothing for a synthesized infrastructure result |
| `DashboardBridges.DashboardEventBridge.OnErrorEvent` | cli/dashboard/bridge.ts:342-409 | the error patch, the health event if a container is named, and the progress; nothing without task and model |
| `DashboardBridges.DashboardEventBridge.SetRunNumber` | cli/dashboard/bridge.ts:84-94 | the new run's cells and one full state for everybody |
| `DashboardBridges.DashboardEventBridge.MarkRunComplete` | cli/dashboard/bridge.ts:172-176 | the end of the run is the completion step |
| `DashboardReplica.FoldConcat` | cli/dashboard/page.ts:647-704 | the client reducer folds a stream the same way in one piece or in two |
| `HtmlEscape.EscIsEscapeHtml` | cli/dashboard/page.ts:1268-1273 | the five sequential replacements equal the single pass on every string |
| `HtmlEscape.NothingSpecialLeft` | cli/dashboard/page.ts:860-864 | no angle bracket and no quote of either kind is left |
| `HtmlEscape.ShowsOriginal` | cli/dashboard/page.ts:860-864 | decoding the entities gives the original back |
| `HtmlEscape.EscInjective` | cli/dashboard/page.ts:1268-1273 | so escaping is injective |
| `TemplatePieces.RenderPieces` | src/agents/prompt-builder.ts:46-80 | on any list of text, variables, block headers and block ends, balanced or not, the three passes work piece by piece; inserted values are never looked at again |
| `TemplateInert.ValuesAreInert` | src/agents/prompt-builder.ts:46-80 | for every template text: environments that agree on which variables are truthy fill in one and the same list of texts and variable uses, each with its own values |
| `TemplateInert.ValueAppears` | src/agents/prompt-builder.ts:70-77 | a held text appears as it is and a flag as its word, between any texts without braces |
| `TemplateInert.BlockOnValue` | src/agents/prompt-builder.ts:52-68 | a block on a held text is kept if and only if the text is not empty, on a flag if and only if it is set; a negated block in the other case |
| `TemplateInert.InheritedUseResolves` | src/agents/prompt-builder.ts:70-77 | a use of a name that the variables do not hold survives if the name is not inherited either, and otherwise shows what is inherited |
| `TemplateInert.InheritedBlockKept` | src/agents/prompt-builder.ts:53-59 | a block on a name that the variables do not hold is kept if and only if the name is inherited |
| `TemplateMeaning.RenderIsEval` | src/agents/prompt-builder.ts:46-80 | for every template tree without a block inside another of its kind the three passes give the one-pass meaning, for all variables; values appear verbatim and unknown variables survive |
| `TemplateExact.RenderRightExactlyWithoutNesting` | src/agents/prompt-builder.ts:46-80 | the passes give the one-pass meaning for all variables if and only if no block stands inside another of its own kind, at any depth |
| `AgentInheritance.ResolveFrom` | src/agents/loader.ts:116-181 | the recursion ends on every map and reports the path it took; on success the result is merged along it |
| `AgentInheritance.ResolveAgentInheritance` | src/agents/loader.ts:116-181 | success, not-found and circular, each if and only if the chain of `extends` fields reaches a config whose field is missing or empty, leaves the map, or revisits; on success every field comes from the nearest definer, servers and limits are the child-biased union, the chain runs from root to agent |
| `AgentInheritance.OutcomesExclusive` | src/agents/loader.ts:121-150 | the three ways a chain can go exclude each other |
| `AgentInheritance.MergeInherits` | src/agents/loader.ts:153-178 | merging a child over an inherited config keeps the nearest-definer property |
| `AgentInheritance.RootPathDistinct` | src/agents/loader.ts:176-177 | the path of a successful resolution never meets a config twice |
| `PathTranslation.TranslateBySegments` | mcp/path-translation.ts:42-79 | for every host path (on a drive, on a network share, relative to a drive, relative or empty) and current directory: success exactly when the container's segments are a prefix of the input's (case aside) and the rest, resolved against the host root, stays at or below it; the result is that resolved path, and which error is thrown is settled |
| `PathTranslation.NeverEscapes` | mcp/path-translation.ts:67-78 | a translated path has no dot segments and lies at or below the host root |
| `PathTranslation.WithoutDotsAlwaysTranslated` | mcp/path-translation.ts:61-78 | without dot segments the result is the host root with the non-empty segments appended |
| `PathTranslation.RootHostRefusesChildren` | mcp/path-translation.ts:67-76 | with a host path that resolves to the root of a drive or share only the root itself is translated |
| `PathTranslation.DriveRootMeansCwd` | mcp/path-translation.ts:67 | a host path that is a bare drive root stands for the current directory if that is on the drive, because the trailing separator is cut off before it is resolved |
| `PathTranslation.OnlyNormalFormMatters` | mcp/path-translation.ts:29-31 | inputs with the same normal form translate alike |
| `PathTranslation.NormalizeIgnoresTrailing` | mcp/path-translation.ts:29-31 | trailing separators of either direction do not change the normal form |
| `PathTranslation.NormalizeExactly` | mcp/path-translation.ts:29-31 | every slash becomes a backslash, and exactly the trailing run of both is cut |
| `PathTranslation.DotsResolve` | mcp/path-translation.ts:67 | a segment and the two dots after it cancel, one dot and an empty segment do nothing, two dots at the root stay there |
| `PathTranslation.ResolveRules` | mcp/path-translation.ts:64-67 | where an absolute, network, drive-relative, rooted, relative or empty path without dots leads |
| `PathTranslation.NoMapping` | mcp/path-translation.ts:46 | without a mapping the path is returned unchanged |
| `Segments.SplitConcat` | mcp/path-translation.ts:54-64 | splitting at separators distributes over a separator |
| `SlugMigration.Migrate` | scripts/migrate-shortcomings-slugs.ts:141-197 | the loop over the table, with its writes, removals and three lists, is the run of the rows in order |
| `SlugMigration.CrashesLeavePartial` | scripts/migrate-shortcomings-slugs.ts:184-188 | whatever number of runs is cut short wherever, each row is untouched, being written, or moved, and every other file is as it was |
| `SlugMigration.NeverLosesExactlyWithoutClobber` | scripts/migrate-shortcomings-slugs.ts:130-197 | for a table whose rows keep their files apart and any directory and contents: whatever crashes, every file of that directory survives (under its own name, as the rewritten new file, or as a torn new file whose old file still stands and rewrites to what the new file held), if and only if no row that the run reaches finds a different new file beside its old one |
| `SlugMigration.SafeExactlyWhenNoClobberIsEnough` | scripts/migrate-shortcomings-slugs.ts:130-197 | that condition on the directory is enough, for all directories and contents, if and only if no two rows write the same file and none writes a file that a row reads |
| `SlugMigration.UnsafeMayLoseNothing` | scripts/migrate-shortcomings-slugs.ts:130-197 | for a single directory safety of the table is not necessary: an unsafe table loses nothing of an empty one |
| `SlugMigration.PreciousOverwritten` | scripts/migrate-shortcomings-slugs.ts:184 | a file that stands under the new name before the script runs is overwritten |
| `SlugMigration.RerunFinishes` | scripts/migrate-shortcomings-slugs.ts:141-197 | a run left to finish after any number of crashes ends with the directory, and the error, of one clean run |
| `SlugMigration.SecondRunChangesNothing` | scripts/migrate-shortcomings-slugs.ts:151-164 | after a run that got through, another changes nothing and lists every row as already migrated or missing, by whether its new file is there |
| `SlugMigration.DryRunPredictsExactly` | scripts/migrate-shortcomings-slugs.ts:179-192 | a dry run touches nothing and reports row by row what the real run does, including the error, for all directories and contents, if and only if no row sees what an earlier one did |
| `SlugMigration.ListsExactly` | scripts/migrate-shortcomings-slugs.ts:145-196 | the three lists split the rows, in order, by whether the old file, only the new one, or neither was there at first (in a real run if no row sees an earlier one) |
| `SlugMigration.RowMoves` | scripts/migrate-shortcomings-slugs.ts:148-193 | a row whose old file can be rewritten leaves the new content under the new name, nothing under a different old name, and every other file as it was |
| `BackfillWrite.WriteEvents` | scripts/backfill-lifecycle.ts:179-208 | the loop, with a server that drops known keys, is the run over the list |
| `BackfillWrite.RunHandles` | scripts/backfill-lifecycle.ts:187-207 | if no request was lost with such a text: without an error all events are handled and landed and written plus skipped is the length; an error at event i means exactly the first i were handled; written is the growth of the log unless a lost reply reads like a duplicate |
| `BackfillWrite.DuplicateMarks` | scripts/backfill-lifecycle.ts:196 | a failure reads like a duplicate if and only if its message holds both `(409)` and `duplicate_event` somewhere |
| `BackfillWrite.RunPaces` | scripts/backfill-lifecycle.ts:205 | the run sleeps once for every handled event |
| `BackfillWrite.RunLandsArrived` | scripts/backfill-lifecycle.ts:187-207 | whatever the replies say, the log gains exactly the first of each new key among the events whose requests arrived |
| `BackfillWrite.CompletesExactly` | scripts/backfill-lifecycle.ts:187-207 | a run gets through exactly when every fault among its requests reads like a duplicate |
| `BackfillWrite.LandsAllExactly` | scripts/backfill-lifecycle.ts:187-207 | a completed run lands the whole list, for all logs and keys, if and only if the events that arrived are the list up to repetitions |
| `BackfillWrite.DifferentLandExactly` | scripts/backfill-lifecycle.ts:196 | for pairwise different events that is so if and only if no request was lost with a text that reads like a duplicate |
| `BackfillWrite.LostRepetitionIsHarmless` | scripts/backfill-lifecycle.ts:196 | with repetitions that is not necessary: a lost repetition does no harm |
| `BackfillWrite.LookalikeLosesEvent` | scripts/backfill-lifecycle.ts:196 | for pairwise different events and an empty log such a request loses its event, and the run still gets through and counts it |
| `BackfillWrite.CompletedRunSettles` | scripts/backfill-lifecycle.ts:166-208 | for any key function, any number of interrupted runs (lost replies included) and a completed one leave the log of one undisturbed pass |
| `BackfillWrite.RestampedRunSettles` | scripts/backfill-lifecycle.ts:51-79 | the same for the keys when each start of the program stamps its events anew |
| `BackfillWrite.LandsFirsts` | scripts/backfill-lifecycle.ts:172-174 | on an empty log that pass is the order-preserving deduplication: the events at the first position of each key |
| `BackfillWrite.FirstsRight` | scripts/backfill-lifecycle.ts:172-174 | those positions are exactly the first occurrences, in increasing order |
| `BackfillEvents.BenchEventsRight` | scripts/backfill-lifecycle.ts:53-80 | each run becomes one event with its date, model, id, and its task set or, for a missing or empty one, the sentinel with a note |
| `BackfillEvents.BuildAnalysisEvents` | scripts/backfill-lifecycle.ts:82-106 | the map filled in a loop gives one event for each key, in order of first occurrence |
| `BackfillEvents.OneEventPerPair` | scripts/backfill-lifecycle.ts:82-106 | for slugs without the separator: every row is covered by an event, every event stands for a row, no two share model and task set |
| `BackfillEvents.EventCarriesEarliest` | scripts/backfill-lifecycle.ts:90-96 | an event carries the least valid date of its rows; if the first row's date is invalid the event has none, whatever the others say |
| `BackfillEvents.AnalysisEventsRight` | scripts/backfill-lifecycle.ts:95-106 | each analysis event carries model, task set and date of one row |
| `BackfillEvents.JoinedClash` | scripts/backfill-lifecycle.ts:89 | every slug with the separator shares its joined key with another pair |
| `BackfillEvents.JoinedInjective` | scripts/backfill-lifecycle.ts:89 | slugs without the separator keep joined keys apart |
| `BackfillChecks.PublishEventsRight` | scripts/backfill-lifecycle.ts:108-125 | each group becomes one event with its date, model, count and task set or sentinel, and a note that tells cascaded groups |
| `BackfillChecks.DedupeRight` | scripts/backfill-lifecycle.ts:140-149 | deduplication keeps every real row in place, leaves no key with both kinds, drops no key altogether, and is idempotent |
| `BackfillChecks.PublishedTwiceExactly` | scripts/backfill-lifecycle.ts:137-149 | a model is still published both as real and as cascaded if and only if one of the rows spells out the sentinel hash, the other has none, and no real row has the cascaded row's key |
| `BackfillChecks.AnalysisCheckMisses` | scripts/verify-backfill-invariants.ts:27-37 | on the list that was built the analysis check misses exactly the keys of rows whose hash is the empty string |
| `BackfillChecks.PublishCheckMisses` | scripts/verify-backfill-invariants.ts:39-49 | on the list that was built the publish check, on the rows before deduplication, misses exactly the keys of rows whose hash is the empty string |
| `BackfillOutcome.MissingOnLog` | site/src/routes/api/v1/admin/lifecycle/events/+server.ts:99-113 | on the log the server keeps, a check misses a needed key exactly when every event for it comes after an event with the same payload, date and type |
| `BackfillOutcome.AnalysisCheckAfterBackfill` | scripts/verify-backfill-invariants.ts:27-37 | after a backfill, interrupted any number of times and then completed, the analysis check misses exactly the keys of rows with an empty hash and those whose event has the date of the event for an earlier key |
| `BackfillOutcome.DatesApartSuffice` | scripts/verify-backfill-invariants.ts:27-37 | if rows of different models or task sets never share a first date, no date is taken |
| `BackfillOutcome.PublishCheckAfterBackfill` | scripts/verify-backfill-invariants.ts:39-49 | after such a backfill the publish check misses exactly the keys of rows with an empty hash and those all of whose events carry the count and date of an earlier event |
| `BackfillOutcome.CountsApartSuffice` | scripts/verify-backfill-invariants.ts:39-49 | if groups of different models or task sets never share both count and date, only the empty hashes are missed |
| `BackfillOutcome.SameMomentMissed` | scripts/backfill-lifecycle.ts:172-174 | two models first seen at the same moment: the second event is dropped and its key is missed |
| `StdioTransport.StdioLoop.Feed` | mcp/al-tools-server.ts:1903-1933 | one chunk: its completed lines are handled in order, the unfinished rest stays in the buffer |
| `StdioTransport.ChunkingIndependent` | mcp/al-tools-server.ts:1900-1934 | however the input is cut into chunks, session and buffer are those of the whole input's lines and tail |
| `StdioTransport.LinesUnique` | mcp/al-tools-server.ts:1908-1910 | lines and tail are the only way to cut the text at its newlines |
| `StdioTransport.LinesRebuild` | mcp/al-tools-server.ts:1908-1910 | they contain no newline and give the text back |
| `StdioTransport.TrimCuts` | mcp/al-tools-server.ts:1909 | trimming cuts white space off both ends and leaves none there |
| `StdioTransport.OneResponsePerLine` | mcp/al-tools-server.ts:1856-1931 | over any list of lines: the outputs are, in order, one right response for each line that is neither blank nor the one known notification, with the id of its request and the body or code its method calls for, asked in the state that the earlier tool calls left; parse errors (JSON `null` counts as one) have code -32700 and a null id, and nothing but tool calls changes that state |
| `StdioTransport.NoNotificationAnsweredExactly` | mcp/al-tools-server.ts:1861-1885 | over any list of lines: no response without an id is written, that is no notification is answered, if and only if every request without an id calls `notifications/initialized` |
| `LogRotation.LogDisk.AppendTextWithRotation` | mcp/server-utils.ts:157-176 | the nested try blocks change the two files as the model's call does, for every pattern of failing operations |
| `LogRotation.CallEffect` | mcp/server-utils.ts:157-176 | a call writes what the disk takes of its text, after the old content or, if that was full and could be moved, in its place; it throws exactly if a part of the text is left out |
| `LogRotation.FaultlessCall` | mcp/server-utils.ts:157-176 | without faults the whole text is written, and a full file has become the rotated one |
| `LogRotation.KeptIsSuffix` | mcp/server-utils.ts:157-176 | whatever operations fail, rotated file followed by current file is a suffix of everything ever appended |
| `LogRotation.RotatedIsFull` | mcp/server-utils.ts:164-171 | from the first rotation on the rotated file alone holds at least the limit |
| `LogRotation.RecentBytesKept` | mcp/server-utils.ts:157-176 | the last `maxBytes` appended bytes, or all of them, are always on disk |
| `LogRotation.CurrentIsShort` | mcp/server-utils.ts:164-175 | if the last call could look at the file and rename it, the current file is shorter than the limit plus the last text, whatever failed before; with a limit of zero it is the last text |
| `BodyCap.ReadBodyCapped` | mcp/server-utils.ts:39-78 | the body is accepted exactly when neither the declared nor the real length is over the limit, it is then the chunks in order, and what was taken in before a refusal never exceeds the limit |
| `BodyCap.DeclaredLength` | mcp/server-utils.ts:43-49 | a missing or empty header, or one that is no finite number, refuses nothing; a number refuses exactly if it is over the limit |
| `BodyCap.Merge` | mcp/server-utils.ts:71-76 | copying at running offsets concatenates the chunks |

## Left out

- Containers, PowerShell, compiling, publishing and testing themselves, HTTP, D1 queries, reading and parsing files: each is a step that succeeds or fails, or a parameter.
- PublishProtocol.PlanKeyInjective: for task ids without a bar only.
- PublishProtocol.InvAlways: a call arrives with a task id without a bar, and app ids are taken without a colon throughout the protocol, for with them cache entries are shared (`CacheKeyClash`).
- PrereqServer.VerifyServer.BeginVerify: a verify call without a task id has no prereqs and is not modelled.
- PrereqSearch.FindAllPrereqApps: the listing of the dependency directory is read once as a value; that the real directory could change between two lookups is not modelled.
- Escalation.EscalationVerify.StartJob: jobs run one after the other, as the queue runs them; the verify call of a job is not part of the method.
- CanonicalReader.CanonicalIffSame: numbers are opaque texts with one text for each number other than zero; how `JSON.stringify` formats a number is not modelled, nor are class instances such as `Date`, getters and proxies.
- CanonicalHeap.CanonicalJSON: the recursion depth of the JavaScript engine is not limited in the model.
- DashboardRun.ReplicaAgrees: model statistics and progress of the page are not compared, because the server does not send them with every change; health snapshots are opaque.
- DashboardStateManagers.DashboardStateManager.GetProgress: pipeline occupancy, times and the estimate of the remaining time are left out.
- DashboardReplica.ReactMoney: costs are real numbers, without floating-point rounding.
- `fetchInitialState`, rendering, timers and toasts of the page; the health monitor, pool routing and infrastructure signatures.
- PathTranslation.TranslateBySegments: `resolve` of `@std/path` is not part of the repository and is modelled by its rules for Windows paths, with the current directory as a parameter that is absolute on a drive or share; letter case is that of ASCII.
- TemplateMeaning.RenderIsEval: for trees of brace-free text, variables and blocks; what the block passes do with stray braces outside such tags is not characterised.
- AgentInheritance.ResolveAgentInheritance: the plain fields of a configuration are one table of names and values; a field present with the value `undefined` is not modelled.
- SlugMigration.Migrate: parsing, setting the model and printing are one function of the content that may fail; the log lines are left out, and so is the shipped table itself.
- BackfillWrite.CompletedRunSettles: no other writer appends to the log meanwhile, and no request of the list is lost with a text that reads like a duplicate (`DifferentLandExactly` says what that costs).
- BackfillOutcome.AnalysisCheckAfterBackfill: the payload hash is taken to be free of collisions, and the log to be empty at first. An event without a valid date cannot be signed (`shared/canonical.ts:18-21`), so a run with one never completes.
- BackfillEvents.OneEventPerPair: for slugs without the separator character; with it two pairs can share a key (`JoinedClash`).
- StdioTransport.StdioLoop.Feed: characters, not bytes; the decoding of chunks that cut a UTF-8 sequence is not modelled, nor are failing writes to the output.
- BodyCap.ReadBodyCapped: the bytes, not their decoding to text; a stream that fails is not modelled.
- Bearer tokens, CORS, signing and keys; argument validation of tool calls; command registration, reports and other thin wrappers.
