# OpenClaw tooling: a verified model

This Dafny project models the parts of OpenClaw's tooling and start-up code that are state machines,
searches or transformations, and proves what they are for. `dafny verify dfyconfig.toml` checks all of it.

The source code is TypeScript. What it computes with expressions and recursion is modelled by functions; its
loops are methods with the same loops and are proved equal to a specification function; its objects and
closures with mutable variables are classes whose methods are proved equal to one step of a state machine.
The properties are then proved of the functions and of every run of the machines.

| file | what it models |
|---|---|
| `BatchPlanner.dfy` | the greedy planner of translation prompts, and that no plan is shorter |
| `Translator.dfy` | the retrying, bisecting translator: when it returns and how it throws, splits and pauses, effort, labels, provenance |
| `RpcClient.dfy` | the RPC client as a machine under adversarial events: serialisation, deadlines, the event behind every settlement, attribution |
| `SyncAttribution.dfy` | client, translator and synchronisation together: attribution over a whole run |
| `LocaleTree.dfy` | nested locale maps, their dotted keys, and the way back |
| `Placeholders.dfy` | the placeholder check between English and translated text |
| `LocaleSync.dfy`, `SyncConvergence.dfy` | one locale's synchronisation, and that a completed write is a fixed point |
| `SyncOutcome.dfy` | what a run reports and leaves behind: when it writes, what `changed` means, how it ends, placeholders, memory, metadata |
| `LiteralRepair.dfy` | putting back string literals that a formatter damaged |
| `RespawnChain.dfy` | the chain of re-executions of the CLI: that it ends, and that every process has got what it is marked for |
| `RespawnSupervisor.dfy` | the parent of a re-executed CLI: signal, SIGTERM, force-kill, exit |
| `CommandRunner.dfy` | a command with a timeout, a kill and a promise that settles once |
| `WorkerPool.dfy` | two worker pools under every interleaving |
| `ArgumentScanner.dfy` | the quote-aware paren finder and argument splitter, with a printer as inverse |
| `ProcessTree.dfy` | CPU time of a process tree |
| `JpegWalker.dfy` | the walk to a JPEG frame header |
| `SparkleFloors.dfy`, `Appcast.dfy` | calendar versions, build floors and the two-pass feed check |
| `SchemaRegistry.dfy` | schema signatures and the registry of schema names |
| `Sorting.dfy`, `Prelude.dfy` | sorting with any total order, sets of strings, `trim`, character classes |

Time is in milliseconds. A timer never fires early and, where a `slack` parameter appears, at most that much
late; the RPC client's timers are punctual. Hashes are injective parameters, the clock, the translation agent, the
TLS resolver and the order of events are arbitrary.

Four results are about what the code does not guarantee. `RpcClient.DiscardingIsNeeded`: with an
orderly agent the client alone can still attach an answer to the wrong prompt; that every failed attempt discards the
client is what prevents it.
`SyncConvergence.ForceChangesNothing`: `--force` has no effect on a locale. `CommandRunner.WhatIsLeftArmed`: a timer can be armed after
the promise has settled, exactly when the kill of the timeout fails on the spot. `Appcast.EarlierYearsCanGoBack`:
before the year 1000 a feed without errors can fall back to builds that are not lane-sized.

## Model

| member | source | states |
|---|---|---|
| BatchPlanner.BuildTranslationBatches | scripts/control-ui-i18n.ts:1114-1138 | the loop returns the greedy plan: every string once and in order, each batch within both limits, and no plan obeying the limits has fewer batches |
| BatchPlanner.PlanIsPlan | scripts/control-ui-i18n.ts:1120-1137 | wherever the planner stands, what it still emits covers the open batch and all strings to come, in non-empty batches of at most 20 that are single strings or whose keys and texts, with 10 for each string and 2 more, are within the budget |
| BatchPlanner.AccountedCounts | scripts/control-ui-i18n.ts:914-916 | the planner's counter holds 2, 10 for each string, and the characters of the keys and texts |
| BatchPlanner.AllowedStretch | scripts/control-ui-i18n.ts:1121-1124 | a stretch of a batch that obeys the limits obeys them too |
| BatchPlanner.GreedyStaysAhead | scripts/control-ui-i18n.ts:1120-1131 | against any other plan that still has at least as much to cover, the planner needs no more batches |
| BatchPlanner.PlanIsShortest | scripts/control-ui-i18n.ts:1114-1138 | no contiguous plan under the same limits has fewer batches |
| Translator.CollectAnswer | scripts/control-ui-i18n.ts:1398-1406 | the loop over an answer returns a translation for each string, or the error for the first one that is missing or blank |
| Translator.CollectIsComplete | scripts/control-ui-i18n.ts:1400-1406 | an accepted answer has a non-blank value for exactly the keys of the batch |
| Translator.TranslationRun.Try | scripts/control-ui-i18n.ts:1394-1408 | one attempt reuses the live client or starts one, sends one prompt, and judges its answer |
| Translator.TranslationRun.TranslateBatch | scripts/control-ui-i18n.ts:1381-1443 | the retry loop with its pauses and its recursive split has the result and the effects of the specification Run, of which the next rows say when it returns, how it throws, and when it splits and pauses |
| Translator.AnsweredCallsReturn | scripts/control-ui-i18n.ts:1389-1443 | when every attempt after the first is answered in full, a call returns exactly when it has several strings or its first attempt did not time out |
| Translator.HowCallsEnd | scripts/control-ui-i18n.ts:1389-1443 | a call that returns ended with a full answer; one that throws ended with a timeout of at most one string or with the second failure in a row for the same strings, and throws that attempt's own error |
| Translator.SplitsExactlyOnTimeout | scripts/control-ui-i18n.ts:1415-1430 | a call makes further calls exactly when it has several strings and its first attempt, or the second after another failure, timed out |
| Translator.SegmentsAreHalves | scripts/control-ui-i18n.ts:1416-1429 | each split cuts the strings in two, in order, the first part as long as the second or one longer |
| Translator.EveryRetryWaits | scripts/control-ui-i18n.ts:1434-1437 | there is a pause before every second attempt of a call and no other: attempts are calls and pauses together |
| Translator.PromptsAreStretches | scripts/control-ui-i18n.ts:1389-1430 | every prompt asks for a contiguous stretch of the strings of the call |
| Translator.ClientsAreKept | scripts/control-ui-i18n.ts:1528-1542 | a client is used on as long as its prompts are accepted, and a new one started only after a failure |
| Translator.AllOrNothing | scripts/control-ui-i18n.ts:1381-1443 | whatever the agent answers, a call throws or returns a non-blank value for exactly the keys of its strings |
| Translator.EffortIsBounded | scripts/control-ui-i18n.ts:1389-1440 | a batch of n strings costs at most 4n-2 prompts and 2n-1 pauses of 15 seconds each |
| Translator.LabelsIdentifySegments | scripts/control-ui-i18n.ts:1420-1429 | distinct sub-batches have distinct labels; a label is as long as its split depth and by itself selects the stretch of strings it names |
| Translator.EveryStringIsAnsweredOnce | scripts/control-ui-i18n.ts:1389-1443 | when a call returns, each string was in exactly one accepted answer, in order, and the result is what those answers say; when it throws, a proper prefix was accepted |
| Translator.HarvestIsAnswered | scripts/control-ui-i18n.ts:1398-1408 | every value gathered from a session is what the agent said in an accepted answer to a prompt that asked for that key |
| Translator.FailureEndsTheClient | scripts/control-ui-i18n.ts:1528-1542 | on one client only the last prompt can have failed, and after that the client is never used again |
| RpcClient.PiRpcClient.HandleStdoutLine | scripts/control-ui-i18n.ts:1221-1267 | a line settles the pending prompt, marks it as received, or is ignored, as the machine's step for that line |
| RpcClient.PiRpcClient.BeginNextCall | scripts/control-ui-i18n.ts:1269-1330 | the chained body of prompt() rejects on a closed client, otherwise numbers the request, arms both timers and makes it pending |
| RpcClient.PiRpcClient.OnTimeout | scripts/control-ui-i18n.ts:1289-1301 | a timeout of the pending prompt rejects it, disarms its heartbeat and closes the client; any other changes nothing but itself |
| RpcClient.PiRpcClient.OnWriteError | scripts/control-ui-i18n.ts:1318-1328 | a write error disarms the request's timers, drops it if pending, and rejects it unless it is settled |
| RpcClient.PiRpcClient.OnProcessClose | scripts/control-ui-i18n.ts:1197-1202 | the end of the process closes the client and rejects the pending prompt |
| RpcClient.PiRpcClient.OnProcessError | scripts/control-ui-i18n.ts:1193-1195 | an error of the process rejects the pending prompt and leaves the client open |
| RpcClient.PiRpcClient.RejectPendingPrompt | scripts/control-ui-i18n.ts:1213-1219 | the pending prompt, if any, is rejected with the given reason and its timers disarmed |
| RpcClient.PiRpcClient.FinishRequest | scripts/control-ui-i18n.ts:1305-1314 | the stored callbacks disarm both timers and settle the call unless it is settled |
| RpcClient.StepKeepsInv | scripts/control-ui-i18n.ts:1182-1347 | every event keeps the client's invariant: pending is the newest request, only its timers are armed, all earlier calls are settled, and in time |
| RpcClient.PromptsAreSerialised | scripts/control-ui-i18n.ts:1269-1334 | in every reachable state at most one prompt is open, prompts started in call order, each is settled within timeoutMs of its start, an open one has its heartbeat and a timeout due exactly timeoutMs after its start, and a settled one has no timer left |
| RpcClient.TimeOrATimerMoves | scripts/control-ui-i18n.ts:1289-1301 | no reachable state is stuck: time can pass or a timeout is due |
| RpcClient.SettledForGood | scripts/control-ui-i18n.ts:1303-1329 | a settled call keeps its settlement whatever happens later |
| RpcClient.EverySettlementHasItsEvent | scripts/control-ui-i18n.ts:1213-1329 | a call is settled exactly when an event of the run settled it, and as that event says: with the text of an `agent_end` line that arrived while it was pending, or with the reason of its rejection, at the time of the event |
| RpcClient.ResponsesAreNoted | scripts/control-ui-i18n.ts:1236-1254 | a pending request is marked as received exactly when a success response with its id has arrived while it was pending |
| RpcClient.ClosedForGood | scripts/control-ui-i18n.ts:1182-1347 | a client is closed exactly when it was closed, its process ended or a prompt timed out, and then starts nothing more |
| RpcClient.TimeoutsAreRecognised | scripts/control-ui-i18n.ts:1294-1299 | the message of a prompt that timed out is recognised as a timeout by the translator, whatever stands around it |
| RpcClient.AnswersAreNotMisattributed | scripts/control-ui-i18n.ts:1256-1265 | if the agent answers in order and the caller prompts again only after an answer, every resolved prompt carries the answer to that prompt, under every interleaving |
| RpcClient.AnswersAreRight | scripts/control-ui-i18n.ts:1256-1265 | in an orderly run the text of every resolved prompt is that of the one line about that prompt |
| RpcClient.PromptedRunsAreOrderly | scripts/control-ui-i18n.ts:1395-1411 | prompts of which only the last may fail make the caller's side of that assumption true |
| RpcClient.TranslationsAreNotMisattributed | scripts/control-ui-i18n.ts:1389-1443 | however translateBatch fails, retries and splits, on each client it uses a resolved prompt has the text of the one line about that prompt, and no answer is attached to another |
| SyncAttribution.ProviderKeepsDiscipline | scripts/control-ui-i18n.ts:1528-1586 | over all batches of a run, on one client only the last prompt can have failed |
| SyncAttribution.ProviderReusesClients | scripts/control-ui-i18n.ts:1528-1586 | over all batches of a run the same client is used until a prompt fails, then the next one, and none outlives the pass |
| SyncAttribution.SyncedAnswersAreNotMisattributed | scripts/control-ui-i18n.ts:1519-1586 | over a whole run of syncLocale, on every client it uses and for every order of events, a resolved prompt has the text of the one line about that prompt, and no answer is attached to another |
| RpcClient.DiscardingIsNeeded | scripts/control-ui-i18n.ts:1411-1411 | there is a run in which the agent keeps its order throughout, the first prompt is rejected, the caller keeps the client and prompts again, and the late answer to the first prompt resolves the second |
| LocaleTree.RebuildMap | scripts/control-ui-i18n.ts:1618-1621 | the loop builds the map that setting the entries one after another gives |
| LocaleTree.SplitJoin | scripts/control-ui-i18n.ts:341-341 | splitting a dotted key gives back the non-empty dot-free keys it was joined from |
| LocaleTree.FlattenIsDotted | scripts/control-ui-i18n.ts:328-338 | the flattened entries are the paths to the leaves, in order, with their keys joined by dots |
| LocaleTree.FlattenedKeysArePrefixFree | scripts/control-ui-i18n.ts:328-355 | no flattened key is a beginning of another's path, so setNestedValue never overwrites a leaf or a branch |
| LocaleTree.FlattenedKeysAreDistinct | scripts/control-ui-i18n.ts:328-338 | no dotted key occurs twice |
| LocaleTree.FollowBuilds | scripts/control-ui-i18n.ts:340-355 | setting the paths of a tree one after another appends that tree to what is there |
| LocaleTree.RebuildFlatten | scripts/control-ui-i18n.ts:1618-1621 | flattening and rebuilding gives the tree back, except for its empty objects |
| LocaleTree.RebuildChosen | scripts/control-ui-i18n.ts:1618-1621 | rebuilding with a chosen text per source key gives the translated tree, and flattening that gives exactly the chosen texts |
| Placeholders.MatchesAreMentions | scripts/control-ui-i18n.ts:371-375 | the left-to-right scan finds exactly the names that stand in braces anywhere in the text |
| Placeholders.ExtractionDecidesParity | scripts/control-ui-i18n.ts:371-386 | two texts have equal sorted placeholder lists exactly when they mention the same names |
| Placeholders.FindPlaceholderMismatches | scripts/control-ui-i18n.ts:377-396 | the loop reports the mismatches in source order with both lists |
| Placeholders.MismatchesAreExact | scripts/control-ui-i18n.ts:377-396 | a key is reported exactly when its translation mentions other names than the English text, a missing translation counting as empty |
| Sorting.SortIsCanonical | scripts/control-ui-i18n.ts:506-509 | with distinct keys the sorted order does not depend on the order of arrival |
| Sorting.SortedSetIsCanonical | scripts/control-ui-i18n.ts:1628-1630 | two lists give the same sorted set exactly when they have the same members |
| LocaleSync.BuildTranslationMemoryByTextHash | scripts/control-ui-i18n.ts:516-528 | the loop maps each text hash to the last usable entry of the locale |
| SyncConvergence.ByTextHashMeaning | scripts/control-ui-i18n.ts:516-528 | a text hash is mapped exactly when the memory has a usable entry for it in this language, and then to the last such entry |
| SyncConvergence.LoadIsValid | scripts/control-ui-i18n.ts:493-502 | a loaded memory has one entry per cache key, each with a key and a translation that is not blank |
| SyncConvergence.LoadKeepsTheLast | scripts/control-ui-i18n.ts:493-502 | of the usable lines with one key the last one is kept, and a key without usable lines is not in the memory |
| SyncConvergence.LoadOfValid | scripts/control-ui-i18n.ts:499-501 | the filter at reload drops nothing that a run has written |
| LocaleSync.ReuseStrings | scripts/control-ui-i18n.ts:1478-1517 | the first loop takes for each string the cached, the copied or the existing text, or makes it pending, as the specification Reuse |
| SyncConvergence.ReuseDoesAsDecided | scripts/control-ui-i18n.ts:1478-1517 | although the loop copies memory entries as it goes, every string ends as decided on the loaded memory, and nothing else changes |
| LocaleSync.AdoptBatch | scripts/control-ui-i18n.ts:1551-1571 | the loop over a translated batch records each value in the locale and in the memory |
| LocaleSync.TranslateBatches | scripts/control-ui-i18n.ts:1543-1571 | the loop over the batches records them in order and stops at the first that throws |
| SyncConvergence.TranslateAllAdopts | scripts/control-ui-i18n.ts:1543-1571 | when all batches return, every string asked for is recorded in the values and, as a whole entry with its hash, provider, model, languages and time, in the memory; the values gain exactly what the accepted answers of the batches' prompts say |
| SyncConvergence.TranslateAllHarvests | scripts/control-ui-i18n.ts:1543-1571 | over all batches the accepted prompts hold the strings once each, in order, and the values are the earlier ones overridden by those answers |
| SyncConvergence.ProviderHarvests | scripts/control-ui-i18n.ts:1519-1571 | with a provider, the pending strings were each in one accepted prompt and the pass adds exactly the accepted answers |
| LocaleSync.FillInPending | scripts/control-ui-i18n.ts:1595-1608 | the last loop gives each string that is still open its existing or its English text and marks fallbacks |
| SyncConvergence.RunSettles | scripts/control-ui-i18n.ts:1478-1608 | after the three passes every string has a value that the next run will find again and mark alike; with a provider there is no fallback; `force` makes no difference |
| SyncConvergence.EveryValueHasItsSource | scripts/control-ui-i18n.ts:1478-1608 | in a run that does not throw, the value and the mark of every string are determined: the cached translation unless a provider is to renew a fallback; else the copy for the same text, if the string is a fallback or not in the file; else the existing text unless it is to be renewed; else the provider's accepted answer, or without a provider the English text, marked |
| SyncConvergence.EveryWrittenValueHasItsSource | scripts/control-ui-i18n.ts:1478-1704 | the same of the files after a completed write: the locale flattens to those values, the metadata lists exactly the marked keys, and every answer used was given to an accepted prompt of the run that asked for that string |
| LocaleSync.ProvideTranslations | scripts/control-ui-i18n.ts:1519-1586 | the provider is asked only when there is one and something is pending, and its client does not outlive the pass |
| LocaleSync.ConcludeRun | scripts/control-ui-i18n.ts:1595-1715 | fallbacks, placeholder check, rebuilt map, metadata, comparison with the files, early return and write, as the specification Conclude |
| LocaleSync.SyncLocale | scripts/control-ui-i18n.ts:1452-1715 | a whole run equals the specification Sync, and leaves all files alone unless it reports a write |
| SyncOutcome.RunsWriteExactlyWhenAsked | scripts/control-ui-i18n.ts:1672-1715 | unless a run is to write and not only to check, and finishes, it leaves every file alone; one that finishes reports a write exactly when it is to write, not only to check, and the files are not what they were |
| SyncOutcome.ChangeMeansDrift | scripts/control-ui-i18n.ts:1672-1715 | with any options a run reports a change exactly when the same run asked to write would leave other files; it ends alike, counts the same fallbacks and sends the same prompts, so `check` reports drift exactly |
| SyncOutcome.HowRunsEnd | scripts/control-ui-i18n.ts:1452-1715 | a run throws the provider's error when a call of the translator gave up, unless that may be skipped and the message tells of authentication; it throws when a value lost a placeholder; otherwise it finishes |
| SyncOutcome.ProviderAsksInFewBatches | scripts/control-ui-i18n.ts:1519-1571 | every prompt of the pass, also after splits, obeys the planner's limits, the batches it starts with are the plan's, and no other cut that obeys the limits has fewer |
| SyncOutcome.WrittenPlaceholdersAreKept | scripts/control-ui-i18n.ts:1610-1704 | after a completed write every string of the locale file mentions exactly the placeholders of its English text |
| SyncOutcome.EveryWrittenEntryHasItsSource | scripts/control-ui-i18n.ts:1486-1571 | after a completed write the memory holds for every string exactly the entry that is due: the cached one, the copy with its own key and segment, or the one filed for the accepted answer; all others are unchanged, the file is in order, and it is read back as it was filed |
| SyncOutcome.WrittenMetaIsAccurate | scripts/control-ui-i18n.ts:1623-1661 | after a completed write the metadata counts the strings and those that are no fallbacks, lists the fallbacks once each in order, names the provider in use or the previous one, and keeps its time exactly when nothing else in it changed; a glossary with entries is kept; a memory file is started for its first entry only |
| SyncConvergence.SyncConverges | scripts/control-ui-i18n.ts:1452-1715 | after a completed write a rerun, with any options, agent and clock, sends no prompt, reports the same number of fallbacks and no change, and leaves every file including the timestamp |
| SyncConvergence.ProviderClearsFallbacks | scripts/control-ui-i18n.ts:1519-1608 | with a provider, a run that finishes leaves no fallback key in its report or its metadata |
| SyncConvergence.ForceChangesNothing | scripts/control-ui-i18n.ts:1600-1682 | a run gives the same outcome, files and prompts with `--force` and without it |
| SyncConvergence.WrittenLocale | scripts/control-ui-i18n.ts:1618-1621 | the locale file that is written flattens to the chosen value of every source key |
| LiteralRepair.RestoreReplacementCorruptedStringLiterals | scripts/control-ui-i18n.ts:1052-1078 | guards and loop return the text with its literals mended by position, or unchanged when the guards or the counts say so |
| LiteralRepair.LiteralsAreQuotedBodies | scripts/control-ui-i18n.ts:1057-1059 | the pattern matches a stretch exactly when it is a quote, letters that are no quote or backslash or else a backslash and a character that is no line end, and a quote |
| LiteralRepair.ScanIsReading | scripts/control-ui-i18n.ts:1057-1059 | the scan finds the literals as they are read from left to right: each gap has no literal starting in it |
| LiteralRepair.Substitute | scripts/control-ui-i18n.ts:1064-1077 | the cursor loop copies what stands between literals and mends each literal |
| LiteralRepair.GapIsLocal | scripts/control-ui-i18n.ts:1057-1059 | replacing a literal by another literal does not make the pattern match earlier |
| LiteralRepair.MendedIsScanned | scripts/control-ui-i18n.ts:1057-1077 | scanning the mended text finds the same gaps and the mended literals |
| LiteralRepair.RepairSubstitutesLiterals | scripts/control-ui-i18n.ts:1052-1078 | text between literals is unchanged, re-scanning finds as many literals in order with exactly the corrupted ones replaced, none contains U+FFFD, and nothing changes when the repair does not apply |
| LiteralRepair.RepairIsIdempotent | scripts/control-ui-i18n.ts:1052-1078 | a second repair changes nothing |
| RespawnChain.BuildOpenClawCompileCacheRespawnPlan | src/entry.compile-cache.ts:104-138 | the step-by-step construction gives the plan of the specification, or none |
| RespawnChain.BuildCliRespawnPlan | src/entry.respawn.ts:61-128 | the same for the CLI decision with its environment and node options |
| RespawnChain.RespawnMakesReady | src/entry.ts:85-122 | each respawn sets a ready flag that its parent lacked, keeps the others, and passes the user's arguments on |
| RespawnChain.LaunchTerminates | src/entry.ts:85-122 | for any resolver answers a launch re-executes at most three times, every process gets the user's arguments, and the warning flag is added, in front, exactly where its mark was set during the launch, at most once and never where warnings were already off |
| RespawnChain.MarksAreTrue | src/entry.respawn.ts:88-127 | in a launch every process has got what it was marked for: the certificates mark comes with a non-empty resolver answer in NODE_EXTRA_CA_CERTS, the options mark with the warning flag, the compile cache mark with the cache disabled |
| RespawnChain.LaunchRunsTheSame | src/entry.respawn.ts:33-128 | every process of a launch runs the first one's program, or node in place of a Volta shim, and its script, or the entry file if the compile cache decision has been taken; one that the CLI decision has marked is no shim |
| RespawnChain.TruthyMeans | src/infra/env.ts:65-78 | a flag counts exactly when it is one of four words in capital or small letters, with any white space around it |
| RespawnChain.SteadyLaunchIsShort | src/entry.respawn.ts:92-117 | when the resolver answers alike in every process there are at most two re-executions |
| RespawnChain.OnlyPreparedProcessesRun | src/entry.respawn.ts:77-121 | a process runs the CLI itself exactly when the compile cache is dealt with and, unless respawning is off for it, certificates and warning options are in place or marked ready |
| RespawnChain.ChildEnvironment | src/entry.respawn.ts:88-127 | a child inherits every variable that the decisions do not manage, configured certificates are never replaced, and one started to drop the compile cache does not request it |
| RespawnChain.LaunchKeepsEnvironment | src/entry.ts:85-122 | every process of a launch has the unmanaged variables of the first one, and its certificates or, if it had none, those the resolver told a process before |
| RespawnChain.FinishedLaunchIsPrepared | src/entry.ts:85-122 | a launch that goes no further ended, after at most three re-executions, in the first process that is prepared for the CLI; it has what it needs itself, certificates, warning flag and disabled cache, unless the first process came with the mark; with the user's arguments, environment and certificates |
| RespawnChain.LaunchGoesOn | src/entry.ts:85-122 | a launch that is not finished can be continued |
| RespawnChain.ThreeRespawnsHappen | src/entry.respawn.ts:99-117 | the bound of three is reached |
| RespawnSupervisor.Supervisor.OnSignal | src/process/child-process-bridge.ts:20-27 | the listener arms the exit timer once and forwards the signal |
| RespawnSupervisor.Supervisor.ScheduleParentExit | src/entry.respawn.ts:174-182 | the exit timer is armed for 1000 ms from now unless it was armed before |
| RespawnSupervisor.Supervisor.RequestChildTermination | src/entry.respawn.ts:162-173 | SIGTERM is sent and the force-kill timer armed, also when the kill emits an error |
| RespawnSupervisor.Supervisor.ForceKillAndExit | src/entry.respawn.ts:168-171 | the child is killed by force and the parent exits with 1 |
| RespawnSupervisor.Supervisor.OnChildExit | src/entry.compile-cache.ts:216-222 | both wrappers detach the bridge, clear both timers and exit with the child's code, or 1 |
| RespawnSupervisor.Supervisor.OnChildError | src/entry.respawn.ts:197-204 | detaches, clears both timers and exits with 1 |
| RespawnSupervisor.StepKeepsInv | src/entry.respawn.ts:143-204 | every event keeps the shutdown in one of its four phases, with the timers that belong to it |
| RespawnSupervisor.ShutdownIsTimed | src/entry.respawn.ts:143-182 | in every run the parent exits within 2000 ms (plus slack) of the first forwarded signal, later signals never move that deadline, SIGTERM comes 1000 ms after the first signal and the force-kill 1000 ms after SIGTERM, each once |
| RespawnSupervisor.SignalsAreForwarded | src/process/child-process-bridge.ts:20-27 | the child is sent exactly the received signals, as they were received, and the SIGTERM and SIGKILL of the timers, in the order of the events |
| RespawnSupervisor.TimeOrATimerMoves | src/entry.respawn.ts:168-181 | no run gets stuck: time can pass or a timer is due |
| RespawnSupervisor.QuietAfterExit | src/entry.respawn.ts:188-195 | once the child's exit is observed nothing is armed, forwarded or killed any more |
| RespawnSupervisor.ExitCodeIsTheChilds | src/entry.compile-cache.ts:216-232 | the parent has exited exactly when an ending event happened, with the child's own code if the child exited normally first, otherwise 1 |
| CommandRunner.Runner.Settle | scripts/openclaw-cross-os-release-checks.ts:3453-3461 | the first call settles and clears all timers, later ones do nothing |
| CommandRunner.Runner.OnTimeout | scripts/openclaw-cross-os-release-checks.ts:3482-3500 | the timeout marks, kills and arms the kill-wait timer, also when the kill emits an error |
| CommandRunner.Runner.OnKillWait | scripts/openclaw-cross-os-release-checks.ts:3490-3498 | a kill that was waited for in vain settles with its own error |
| CommandRunner.Runner.OnError | scripts/openclaw-cross-os-release-checks.ts:3527-3529 | the child's error settles with that error |
| CommandRunner.Runner.OnClose | scripts/openclaw-cross-os-release-checks.ts:3531-3554 | a close settles by timeout flag, check option and exit code |
| CommandRunner.SettlesOnceInTime | scripts/openclaw-cross-os-release-checks.ts:3421-3556 | for every event order the promise settles at most once and, with a timeout, within timeoutMs and 15 s (plus slack), for a timeout not before timeoutMs and for a failed kill not before 15 s more; the child is killed once, when the timeout fires |
| CommandRunner.HeartbeatsAreSpaced | scripts/openclaw-cross-os-release-checks.ts:3501-3510 | while the promise is open the heartbeat is due its interval after the last one, and afterwards it is off |
| CommandRunner.TimeOrATimerMoves | scripts/openclaw-cross-os-release-checks.ts:3482-3500 | no run gets stuck: time can pass or a timer is due |
| CommandRunner.EveryRunCanSettle | scripts/openclaw-cross-os-release-checks.ts:3482-3500 | with a timeout every run can be continued until the promise is settled |
| CommandRunner.OutcomeIsTheVerdict | scripts/openclaw-cross-os-release-checks.ts:3527-3554 | the promise settles exactly when the history has a settling event, as the first one says; it is fulfilled only by a close before the timeout with exit code 0 or the check off, with all output so far |
| CommandRunner.WhatIsLeftArmed | scripts/openclaw-cross-os-release-checks.ts:3441-3500 | after settling the timeout and heartbeat are off, and the kill-wait timer is armed exactly after a timeout whose kill failed on the spot and has not fired since |
| CommandRunner.ATimerCanStayArmed | scripts/openclaw-cross-os-release-checks.ts:3489-3498 | such a run exists |
| WorkerPool.SharedPool.TakeTurn | scripts/update-clawtributors.ts:499-500 | at its loop head a worker takes the next index or ends |
| WorkerPool.SharedPool.SettleWork | scripts/check-temp-path-guardrails.ts:243-253 | when its work ends a worker writes its slot, skips it, or fails |
| WorkerPool.StepKeepsInv | scripts/update-clawtributors.ts:498-503 | every step of every worker keeps the pool's invariant and lowers the work left |
| WorkerPool.EachIndexIsClaimedOnce | scripts/update-clawtributors.ts:490-506 | under every interleaving the mapper is called on 0, 1, 2, ... once each, no index has two workers, and no more than the limit are in flight |
| WorkerPool.FullLoadHappens | scripts/update-clawtributors.ts:498-498 | the limit is used: there is a run in which as many mappers are in flight as the limit, at least one, and the items allow |
| WorkerPool.PoolIsASequentialMap | scripts/update-clawtributors.ts:490-506 | a run that can go no further is fulfilled exactly when no work rejects, and then result i belongs to item i |
| WorkerPool.RunsAreBounded | scripts/update-clawtributors.ts:498-504 | every run has at most 2n steps and one per worker, and none gets stuck |
| WorkerPool.OutputOrderIsInputOrder | scripts/check-temp-path-guardrails.ts:223-263 | the files returned are those that could be read, in the order of the paths |
| ArgumentScanner.FindMatchingParen | scripts/check-temp-path-guardrails.ts:72-95 | the loop returns the first position at which a closing paren outside quotes brings the depth back to that in front of the call, and -1 exactly when there is none |
| ArgumentScanner.SplitTopLevelArguments | scripts/check-temp-path-guardrails.ts:97-162 | the loop with its three depths returns what feeding the characters one by one returns |
| ArgumentScanner.SplitterCutsAtTheTop | scripts/check-temp-path-guardrails.ts:97-162 | on every text the splitter returns the trimmed stretches between the commas that stand outside quotes and where no bracket of the three kinds is open, and drops only a last one that is blank; the stretches and those commas are the text |
| ArgumentScanner.MatchSkips | scripts/check-temp-path-guardrails.ts:75-93 | the finder passes over balanced text without closing the call |
| ArgumentScanner.FeedGathers | scripts/check-temp-path-guardrails.ts:104-157 | the splitter gathers balanced text without top-level commas into one argument |
| ArgumentScanner.PrintedCallIsReadBack | scripts/check-temp-path-guardrails.ts:189-194 | for balanced arguments, of which only the last must not be empty, with any white space around them and any text before and behind the call, the finder returns the closing paren and the splitter exactly the arguments |
| ArgumentScanner.ShownPiecesAreBalanced | scripts/check-temp-path-guardrails.ts:46-162 | every expression of plain characters, strings in any of the three quotes with escapes, and nested brackets is such an argument |
| ProcessTree.ReadProcessTreeCpuMs | scripts/bench-gateway-startup.ts:726-775 | the result is the CPU time that the rows record for the processes that a chain of children connects to the root, each once, despite cycles and missing entries; of several rows of one process the last counts, and with one row each it is the sum over the rows of these processes |
| ProcessTree.LastRowCounts | scripts/bench-gateway-startup.ts:738-751 | the recorded time of a process is that of its last row |
| ProcessTree.SumIsRecorded | scripts/bench-gateway-startup.ts:738-770 | summing up the collected map over any processes gives what the rows record for them |
| ProcessTree.DistinctRowsAddUp | scripts/bench-gateway-startup.ts:738-770 | when no process has two rows that is the plain sum over their rows |
| ProcessTree.WalkTree | scripts/bench-gateway-startup.ts:760-774 | the stack walk ends and sums over a set that holds the root, is closed under children and stays inside any such set |
| ProcessTree.MapsMeanRows | scripts/bench-gateway-startup.ts:738-755 | the two maps know exactly the processes and the child relation of the rows |
| ProcessTree.ClosedHoldsTree | scripts/bench-gateway-startup.ts:763-773 | a set with the root that is closed under children holds the whole tree |
| JpegWalker.ReadJpegDimensions | scripts/update-clawtributors.ts:546-590 | the offset loop reads only inside the buffer, ends, and returns what the recursive walk returns |
| JpegWalker.WalkFindsFrame | scripts/update-clawtributors.ts:548-588 | stray bytes, standalone markers and length-prefixed segments are passed over, and the first frame header's size is returned, its words with the more significant byte first; the markers of each kind are listed as in table B.1 of ITU-T T.81 |
| JpegWalker.DimensionsAreThoseOfTheFrame | scripts/update-clawtributors.ts:546-590 | a size is returned exactly when the buffer, behind its first two bytes, has such a list of pieces followed by a frame header of that size |
| SparkleFloors.MatchingIsExact | scripts/sparkle-build.ts:12-12 | parts are found for exactly the texts the expression describes, and they are unique |
| SparkleFloors.FloorsAreArithmetic | scripts/sparkle-build.ts:14-53 | floors exist exactly for calendar versions with a month of 1 to 12 and a day of 1 to 31, and putting them together as text is arithmetic on year, month, day and lane |
| SparkleFloors.LanesAre | scripts/sparkle-build.ts:40-49 | the lane is 90 for a stable release, else the longest number at the end, with all from 89 on sharing 89, and 1 when there is none |
| SparkleFloors.LanesOrderReleases | scripts/sparkle-build.ts:40-49 | a stable release has a higher lane than any other, and of two numbers up to 88 the higher one wins |
| SparkleFloors.ValueOfShow | scripts/sparkle-build.ts:37-38 | reading a printed number gives it back |
| SparkleFloors.LaneFloorOrdersVersions | scripts/sparkle-build.ts:51-51 | lane floors are ordered exactly as versions by year, month, day and lane |
| SparkleFloors.FloorsAreSeparated | scripts/sparkle-build.ts:37-51 | legacy floors lie below 10^9, and lane floors reach it exactly from the year 1000 on |
| Appcast.FirstLaneDate | scripts/release-check.ts:713-716 | the date found is that of a lane-sized item, and the smallest such |
| Appcast.CheckForm | scripts/release-check.ts:688-711 | the first loop reports the malformed items in order and keeps the dated ones |
| Appcast.CheckFloors | scripts/release-check.ts:713-732 | the second loop reports the items below their floor; which floor is due depends only on whether the feed has a lane-sized item of that date or before, or the adoption date has come |
| Appcast.CollectAppcastSparkleVersionErrors | scripts/release-check.ts:678-735 | an empty feed, then the findings of the first pass, then those of the second |
| Appcast.ErrorsAreExact | scripts/release-check.ts:678-735 | an error is reported exactly when the feed is empty, an item has no version or one that is not a number, or a build of a calendar version is below its floor, which is the lane floor from 27 February 2026 and from the first lane-sized build on; with the item's title, build and floor |
| Appcast.NoErrorsMeansClean | scripts/release-check.ts:688-732 | nothing is reported exactly for feeds in which every item is well formed and every dated one keeps the floor that is due |
| Appcast.OrderDoesNotMatter | scripts/release-check.ts:713-732 | whether a feed passes does not depend on the order or repetition of its items |
| Appcast.MigrationNeverGoesBack | scripts/release-check.ts:713-732 | in a feed without errors, once a dated item is lane-sized, so is every one of the same or a later date, from the year 1000 on |
| Appcast.EarlierYearsCanGoBack | scripts/release-check.ts:722-726 | for every version before the year 1000 there is a feed without errors that goes back |
| Appcast.AFeedGoesBack | scripts/release-check.ts:722-726 | version 0999.1.1 with builds 1000000000 and 999999999 is such a feed |
| Appcast.AFeedMigrates | scripts/release-check.ts:722-726 | a feed without errors with a lane-sized item from the year 1000 on exists |
| SchemaRegistry.StableFieldsAreSorted | scripts/protocol-gen-swift.ts:116-122 | the stable form of an object has its keys in order and each value's stable form under its own key |
| SchemaRegistry.SignatureDecides | scripts/protocol-gen-swift.ts:112-129 | two schemas have the same signature exactly when they differ at most in the order of keys, at any depth |
| SchemaRegistry.Schemas.RegisterNamedSchema | scripts/protocol-gen-swift.ts:131-143 | a registration leaves the three maps as the whole history of registrations determines them |
| SchemaRegistry.SignatureNamesTheOnlyOne | scripts/protocol-gen-swift.ts:131-143 | after any registrations a signature has a name exactly when one registration had it, and then that name |
| SchemaRegistry.RegistrationOrderDoesNotMatter | scripts/protocol-gen-swift.ts:548-550 | the look-up by structure does not depend on the order of registrations |
| SchemaRegistry.LookupIsExact | scripts/protocol-gen-swift.ts:145-150 | a registered object is named by its last registration; any other is named exactly when structure may decide and one registered schema is the same up to key order, and then by that one's name |
| SchemaRegistry.ObjectsAreRegistered | scripts/protocol-gen-swift.ts:131-150 | a registered object is known by its last name, whatever its structure |

## Left out

- Process spawning, file and network access, logging, command-line parsing and help text: they are events, parameters or results here.
- Rendering and formatting of locale files, SHA-256, JSON text and `localeCompare`: a file is represented by the value it renders, hashes are injective, JSON text is injective, and the comparison is any total order.
- Integer-like object keys, which JavaScript lists before the others, and lone surrogates in strings: association lists keep property order and texts are sequences of code points.
- String lengths in the batch planner are counted in code points instead of UTF-16 units.
- setNestedValue's update in place: the map is a value here, so sharing of sub-objects is not modelled; `__proto__` as a key is not either.
- The error texts of refused prompts and of a closed client: a rejection carries its reason, not its message.
- The heartbeat's log lines and the 150 ms wait before SIGKILL in the RPC client's close.
- Freshness of a kept translation after its English text changed: the code keeps it, and no claim is made.
- Timers longer than 2^31-1 ms, which node fires at once; and clocks that jump.
- A kill that throws in the command runner: node throws only for a signal number that does not exist.
- A second error event after the parent's one error listener is used up: node makes it an uncaught exception.
- The Windows form of the runner's kill through taskkill: its failure arrives as the child's error event.
- waitForChildExit of scripts/openclaw-cross-os-release-checks.ts: the same settle-once pattern with one timer and no outcome to choose.
- The text of `ps` lines and the parsing of CPU times: the process tree starts from parsed rows with whole milliseconds.
- Fill bytes between JPEG segments: the walk treats a second 0xff as a marker with a length, and the model does so too.
- The XML of the appcast feed: the model starts from the trimmed tags of each item. Build numbers are exact here; floating-point rounding above 2^53 is monotone and cannot cross a floor.
- Members of schemas that JSON.stringify drops (`undefined`, functions, symbols), and the Swift emitter's string templates.
- The order of names between a stable release and its numeric correction suffix, uniqueness of generated Swift case names, import-cycle checks, benchmark statistics and pack-path allowlists.
- The policies shouldSkipRespawnForArgv and shouldSkipStartupEnvironmentRespawnForArgv: any function of the user's arguments; variables that entry.ts sets between the two decisions are assumed not to be those the decisions read.
