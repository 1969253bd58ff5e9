# Relay agent control plane: a verified model

This project models the control plane of a streaming relay node and proves properties of it. The agent fetches a
signed *desired state* from its manager, keeps it in a cache that survives crashes, drives the configuration of a
media server towards it, admits publishers under a connection cap, supervises one FFmpeg process per ready stream and
destination, and accounts for monthly traffic. An installer enrolls the node once.

| file | what it models |
|---|---|
| `Wrappers.dfy` | results, optional values, and the two kinds of failure: one that callers handle, one that nobody handles |
| `Json.dfy` | JSON values, the canonical printer used for signing and comparing, and a parser that inverts it |
| `Sizes.dfy` | sizes of text in UTF-8, UTF-16 and UTF-32, and why rewriting a decoded value canonically never adds to them |
| `AsciiTexts.dfy` | JSON text with every character beyond ASCII escaped, as the installer writes it |
| `Urls.dfy` | ingest URLs, their validation and normalisation, and the join with a stream key, against appendix B of RFC 3986 |
| `Models.dfy` | strict parsing of the desired state, and what a parsed state guarantees to the other components |
| `Payloads.dfy` | a reference for that parser: the states that can be sent, and how they are written down |
| `StateStores.dfy` | fetching, and the signed state store: class, decision, and histories of polls with crashes and restarts |
| `OversizedCaches.dfy` | a concrete response that is accepted and cannot be loaded again |
| `Backoff.dfy` | the restart loop of one worker as a sequence of timed cycles |
| `StopProtocol.dfy` | the run thread of a worker and one `stop()`, as a two-thread state machine |
| `Supervisors.dfy` | fingerprints and the reconciler of the worker map |
| `Traffic.dfy` | monthly totals over kernel counters that restart at boot, persistence, warnings, projection |
| `PathReconcilers.dfy` | the reconciler of media-server path configurations, with a client that can fail at any call |
| `Admission.dfy` | the admission controller: capacity, reservations, screening of requests |
| `AgentRuntime.dfy` | the composition: how limits of the served state reach admission, supervisor and traffic |
| `Enrollment.dfy` | the installer: one claim, a three-file commit with the identity last, and retries |

Classes stand for the classes of the source, with their fields; each method is proved against a function of the old
state, and the theorems are about those functions, over all inputs and all histories.

Assumptions, all explicit in the contracts or types:

- The signature is a function `mac` of the canonical text; timestamps, network-location checks, loopback tests, SRT
  passphrases, hashes and URL-origin checks are function-valued parameters. Where the worker fingerprint must
  distinguish targets, the hash is required to be free of collisions.
- Clocks are inputs. The histories of the state store have a clock that does not go back; admission allows any
  readings in any order.
- An atomic file write leaves the old or the new content. In the state store and the installer a process can die on
  either side of each rename; a process that dies loses its memory.
- A `Fault` is an exception of the source that no caller handles (for instance comparing a signature that is not
  ASCII); the thread in which it happens ends.

Three properties that the design suggests hold only under a condition; each condition is proved to be exact, and a
failing case stands next to it:

- A fetched envelope can be loaded again after a restart if and only if it fits 4 MiB as UTF-8
  (`StateStores.RestartAfterPollExactly`). The size check of the client makes sure of that for responses in UTF-8 and
  UTF-32 (`StateStores.FetchedFitsCache`), so the histories need no assumption about them. The decoder also accepts
  UTF-16, in which text can take a third less than in the UTF-8 cache file; then a restart can forget the generation
  (`OversizedCaches.RollbackAfterOversizedCache`).
- An enrolled directory loads if and only if the bundle spells the manager address exactly as it is pinned; the
  validation of the answer also lets slashes at the end pass (`Enrollment.CommittedLoadsExactly`,
  `Enrollment.SlashBlocksLaterRuns`).
- Monthly totals are exact if and only if no counter goes back between two samples of one boot in one month
  (`Traffic.MonthTotalIsExact`, `Traffic.CounterThatGoesBack`).

The supervisor counts a worker as gone when its `stop()` has returned. That join has a time limit, so the successor can
start while a child of the old worker is still there. `StopProtocol.WhatStopLeavesBehind` says in which three cases, a
concrete history shows each of them, and `Supervisors.ChildrenOfOneKey` bounds the children of one key over any number
of replacements.

## Model

| member | source | states |
|---|---|---|
| `Json.SortedKeysAreUnique` | relay_agent/signing.py:12-19 | sorting makes the text independent of insertion order: a key set has only one increasing enumeration |
| `Json.BeforeIsLexicographic` | relay_agent/signing.py:12-19 | keys are ordered by code points: a proper prefix first, else by the first character that differs |
| `Json.ObjectText` | relay_agent/signing.py:12-19 | the text of an object: its fields in that order, with commas and without spaces |
| `Json.ArrayText` | relay_agent/signing.py:12-19 | the text of an array: its items in their order, with commas and without spaces |
| `Json.QuotedIsPlain` | relay_agent/signing.py:12-19 | text without quotes, backslashes and control characters is written as it is, beyond ASCII too |
| `Json.EscapeForms` | relay_agent/signing.py:12-19 | everything else is escaped in the short form of section 7 of RFC 8259, or with four lower-case digits |
| `Json.NumbersAreExact` | relay_agent/state_store.py:96 | only the shortest decimal text is read as a number |
| `Json.ParsePrinted` | relay_agent/signing.py:12-19 | reading canonical text back, with anything that may follow a value behind it, gives the value and exactly the rest |
| `Json.RoundTrip` | relay_agent/state_store.py:32-37 | what is written to the cache file decodes to the same value |
| `Json.CanonicalIsInjective` | relay_agent/state_store.py:211-217 | equal canonical texts come only from equal values, so comparing and signing texts is comparing and signing values |
| `Sizes.RewritingNeverGrows` | relay_agent/state_store.py:35 | in any one encoding the canonical text of a decoded value takes at most the space of the text it was decoded from |
| `AsciiTexts.EscapingKeepsMeaning` | scripts/bootstrap_client.py:409 | writing every character beyond ASCII as an escape, or a surrogate pair of escapes, keeps the value of every JSON text |
| `AsciiTexts.AsciiLineRoundTrip` | scripts/bootstrap_client.py:407-411 | a value that is written escaped, with a line end, decodes to the same value |
| `Urls.ValidationIsIdempotent` | relay_agent/models.py:45-60 | an accepted ingest URL is a fixed point of validation, so a worker's own join cannot fail later |
| `Urls.SplitAgreesWithReference` | relay_agent/models.py:50-60 | scheme, authority and path used by validation are those of appendix B of RFC 3986 |
| `Urls.HostIsPreserved` | relay_agent/models.py:71-81 | for every accepted URL and key the joined URL keeps scheme and authority of the URL that was given, and its path starts with the base path and a slash |
| `Urls.StreamKeyIsExact` | relay_agent/models.py:63-68 | a stream key is any text of 1 to 2048 characters without control characters, and is kept as it is |
| `Urls.JoinIsExact` | relay_agent/models.py:71-81 | the joined URL is the normalised base, one slash, and the stream key without exactly its leading slashes; it exists exactly for an accepted base without a query and an accepted key |
| `Urls.JoinIsInjective` | relay_agent/models.py:78-81 | stream keys that do not start with a slash are told apart by the joined URL |
| `Urls.AcceptedUrlIsSafe` | relay_agent/models.py:45-60 | an accepted URL has the scheme rtmp or rtmps, an authority without credentials and with a host and a fit port, no fragment, a bounded length and no control characters |
| `Urls.IngestUrlIsExact` | relay_agent/models.py:45-60 | for hosts without brackets: exactly those URLs are accepted, and what is made of them |
| `Models.ParsedDestinationIsGood` | relay_agent/models.py:92-119 | an accepted destination can be joined again from its stored fields and holds no NUL in any of its four texts |
| `Models.ParsedStateIsGood` | relay_agent/models.py:208-263 | an accepted state has distinct streams and destinations, ordered timestamps, and positive limits under its generation exactly for schema version 2 |
| `Models.SamePayloadSameContent` | relay_agent/state_store.py:205-212 | payloads that agree without their timestamps parse to states that agree on everything but timestamps |
| `Models.WithoutTimestampsIsExact` | relay_agent/state_store.py:205-210 | the comparison leaves out the members issued_at and expires_at and no other |
| `Models.TokenCharIsExact` | relay_agent/models.py:16-17 | the characters of stream identifiers and credentials |
| `Models.ReadinessIsExact` | relay_agent/worker.py:357-358 | which member of a path item decides whether it is ready |
| `Models.DestinationFaultsExactly` | relay_agent/models.py:92-119 | when a destination is refused with an error that nobody handles: a platform that cannot be looked up, or a URL that the library refuses to split |
| `Models.ParseFaultHasCause` | relay_agent/models.py:208-263 | a payload is refused with such an error only for such a destination, a schema version that cannot be looked up, or a timestamp on which the library makes it |
| `Payloads.DestinationRoundTrip` | relay_agent/models.py:92-119 | every strict destination is parsed to itself |
| `Payloads.StateRoundTrip` | relay_agent/models.py:208-263 | no strict state is refused or changed: its payload parses to it |
| `Payloads.ParsedStateIsStrict` | relay_agent/models.py:208-263 | whatever parses is strict: known platforms, canonical lower-case UUIDs, normalised URLs, well-formed tokens, matching relay and limits |
| `Payloads.ParsingGivesExactlyTheStrictStates` | relay_agent/models.py:208-263 | the states that some payload parses to are exactly the strict ones |
| `StateStores.RelayParsesContent` | relay_agent/models.py:208-263 | the parser of payloads meets what the protocol assumes: timestamps are independent of the rest |
| `StateStores.FetchedFitsCache` | relay_agent/state_store.py:86-101 | an envelope fetched in UTF-8 or UTF-32 always fits the cache file; in UTF-16 it does when the body keeps to two thirds of the limit |
| `StateStores.FetchIsExact` | relay_agent/state_store.py:86-101 | a response is taken exactly when it has at most 4 MiB and its text is that of an object, and is else refused with the error that the loop handles |
| `StateStores.ValidationIsExact` | relay_agent/state_store.py:151-171 | validation passes exactly for the two-member envelope with the signature of its canonical payload, strict content, and times within the limits |
| `StateStores.SignatureBindsThePayload` | relay_agent/signing.py:31-42 | with a collision-free signature one signature is valid for one payload only |
| `StateStores.ValidationKeepsWithTime` | relay_agent/state_store.py:151-171 | an envelope that was accepted once is accepted as a cached one at any later time, with the same state |
| `StateStores.StateStore.constructor` | relay_agent/state_store.py:141-149 | a new store has no state, no envelope, no success and no error |
| `StateStores.StateStore.AtomicSecretJson` | relay_agent/state_store.py:32-59 | a cut write leaves the old file or the canonical text of the new value |
| `StateStores.StateStore.LoadCache` | relay_agent/state_store.py:173-190 | loading sets state, envelope and stale notice from an acceptable file and changes nothing otherwise |
| `StateStores.StateStore.AcceptRemote` | relay_agent/state_store.py:192-229 | for each verdict the complete new memory, file and result, and that this is what a poll does in the history model |
| `StateStores.StateStore.AcceptValidated` | relay_agent/state_store.py:195-229 | the part under the lock settles according to the verdict on the validated state |
| `StateStores.StateStore.MarkError` | relay_agent/state_store.py:231-234 | the last error is the message cut to 256 characters |
| `StateStores.WrittenCacheIsReadable` | relay_agent/state_store.py:173-190 | a written envelope is loaded again at any later time, as the same state, if and only if it fits the size limit |
| `StateStores.SameTextSamePayload` | relay_agent/state_store.py:205-212 | the text comparison of payloads without timestamps decides their equality as values |
| `StateStores.DecisionIsExact` | relay_agent/state_store.py:192-229 | with a state in memory, an envelope is let through exactly when it is valid and moves upward, is a replay exactly when it is the cached envelope, and a replay returns the state in memory |
| `StateStores.FirstDecisionIsExact` | relay_agent/state_store.py:192-229 | with nothing in memory an envelope is taken exactly when it is valid |
| `StateStores.FaultsExactly` | relay_agent/state_store.py:151-171 | validation ends with an error that nobody handles exactly for something without members, for signatures that are not ASCII, and for genuine payloads on which the parser does |
| `StateStores.WrongTimesAreInvalid` | relay_agent/state_store.py:167-170 | a genuine state from more than two minutes ahead, or an expired one where that matters, is refused with the error that callers handle, and no other genuine state that parses is refused |
| `StateStores.RefusalsAreExact` | relay_agent/state_store.py:192-223 | a lower generation, other content or older timestamps are refused with the error that callers handle; only validation can end in another one |
| `StateStores.FollowersAreUpward` | relay_agent/state_store.py:198-223 | an accepted successor is upward: within one generation it has the same content as the cached state |
| `StateStores.StepKeeps` | relay_agent/state_store.py:173-229 | every event - poll, restart, kill, error notice - cut anywhere, keeps the file loadable and memory equal to it, and moves the cache only up; only for UTF-16 is it assumed that the envelope fits |
| `StateStores.RunKeeps` | relay_agent/state_store.py:173-229 | the same over every history of polls, cuts, kills and restarts |
| `StateStores.ServedStatesMoveUp` | relay_agent/state_store.py:192-229 | of any two states served in one history the later has a higher generation, or the same generation, the same content and timestamps that did not go back |
| `StateStores.RelayStatesMoveUp` | relay_agent/state_store.py:192-229 | the same for the parser of this relay, from its first start on |
| `StateStores.AcceptServesUpward` | relay_agent/state_store.py:192-229 | one accept, cut anywhere, keeps the file loadable and serves nothing below what was served |
| `StateStores.RestartServesTheCache` | relay_agent/state_store.py:173-190 | after any history a restart is not refused and serves what was served before |
| `StateStores.RestartAfterPollExactly` | relay_agent/state_store.py:173-190 | what a poll wrote is loaded and served again after a restart if and only if it fits the cache, and otherwise nothing is served |
| `StateStores.OversizedCacheForgets` | relay_agent/state_store.py:179-180 | a fetched envelope that does not fit is forgotten by a restart, and then any valid envelope is accepted |
| `OversizedCaches.RollbackAfterOversizedCache` | relay_agent/state_store.py:93-96 | for every library that reads two timestamps in order and every signature function: a UTF-16 response within the limit brings generation 1, and after a restart generation 0 is accepted |
| `Backoff.RunCycles` | relay_agent/worker.py:198-299 | the loop keeps the back-off index in range, counts restarts, and takes at least (97n - 240)/4 seconds for n cycles |
| `Backoff.DelayIsExact` | relay_agent/worker.py:226-298 | delays are 2, 5, 10, 20 and then always 30 seconds, counted from the start or from the last run of at least 60 seconds |
| `Backoff.CycleTakes` | relay_agent/worker.py:198-298 | a cycle adds its own time, its delay and the lateness of the wait to the clock |
| `Backoff.AmortisedBound` | relay_agent/worker.py:293-298 | the same bound from every starting index, with the credit that index still has |
| `Backoff.BoundIsTight` | relay_agent/worker.py:21 | for every multiple of four some history of a new worker meets the bound exactly |
| `StopProtocol.StepKeepsInv` | relay_agent/worker.py:198-312 | every step of either thread, and every exit of a child, keeps the invariant of the two threads |
| `StopProtocol.TraceIsSafe` | relay_agent/worker.py:198-312 | in every interleaving at most one child is alive, at most one is started after the flag is set, and none and no handle is left when the run thread has returned |
| `StopProtocol.RunThreadStopsSoon` | relay_agent/worker.py:254-299 | once the flag is set the run thread makes at most eleven more steps of its own |
| `StopProtocol.RunThreadIsNeverStuck` | relay_agent/worker.py:268-274 | the run thread can always go on, unless it waits for a child that was sent SIGKILL |
| `StopProtocol.ReturnsOnlyAfterStop` | relay_agent/worker.py:201-299 | in every interleaving the run thread has returned only if the flag is set, and only stop() sets it |
| `StopProtocol.RunThreadLaunchesAgain` | relay_agent/worker.py:201-298 | without a stop(), from any reachable state without a living child, the run thread launches again within nine steps of its own |
| `StopProtocol.HealthyChildIsKept` | relay_agent/worker.py:254-267 | without a stop() the inner loop is left only for a child that has exited or stalled |
| `StopProtocol.LaunchIsExact` | relay_agent/worker.py:206-236 | a launch starts one new child, or fails and is tried again |
| `StopProtocol.ChoicesAreOpen` | relay_agent/worker.py:206-267 | a launch can succeed or fail, and a living child can be found stalled or not |
| `StopProtocol.StopReturnsSoon` | relay_agent/worker.py:300-312 | stop() makes at most seven steps; it sets the flag first and kills what is still alive after its first wait |
| `StopProtocol.StopIsNeverStuck` | relay_agent/worker.py:300-312 | until it has returned stop() can always go on |
| `StopProtocol.WhatStopLeavesBehind` | relay_agent/worker.py:300-312 | a child that is alive when stop() has returned was sent SIGKILL, or was started and not published when stop() looked, or was started after; and the run thread has not returned |
| `StopProtocol.StopCanReturnBeforeTheLastStart` | relay_agent/worker.py:311-312 | concrete: the join gives up, and then the run thread starts a child that nobody has signalled |
| `StopProtocol.StopCanMissAStartedChild` | relay_agent/worker.py:302-303 | concrete: the child is started and not published, so stop() sees nothing to terminate |
| `StopProtocol.StopCanReturnBeforeTheExit` | relay_agent/worker.py:304-312 | concrete: stop() sends SIGKILL and returns before the child has exited |
| `Supervisors.FingerprintTextIsInjective` | relay_agent/worker.py:24-28 | on accepted destinations the joined text is equal exactly when identifier, platform, URL and key are |
| `Supervisors.ReadyIdsAreExact` | relay_agent/worker.py:354-359 | a stream is ready exactly when the path list has its path as ready |
| `Supervisors.TargetsAreWanted` | relay_agent/worker.py:364-374 | the wanted keys are exactly the enabled destinations of enabled streams that are ready |
| `Supervisors.TargetsUnion` | relay_agent/worker.py:366-374 | the targets do not depend on the order in which ready streams are visited |
| `Supervisors.ChildrenOfOneKey` | relay_agent/worker.py:391-407 | over any number of replacements a key has at most one child more than replaced workers whose join gave up, so at most one when none did |
| `Supervisors.OrderlySnoc` | relay_agent/worker.py:391-407 | starting a worker keeps one worker per key provided that no live worker has its key |
| `Supervisors.WorkerSupervisor.constructor` | relay_agent/worker.py:338-344 | a new supervisor has no workers, and no slash at the end of its input base |
| `Supervisors.WorkerSupervisor.SetMaxServerConnections` | relay_agent/worker.py:346-350 | the cap is replaced, or refused below one |
| `Supervisors.WorkerSupervisor.BuildDesired` | relay_agent/worker.py:364-374 | the loops over ready streams and destinations compute exactly the targets |
| `Supervisors.WorkerSupervisor.RemoveOutdated` | relay_agent/worker.py:376-388 | the first phase keeps exactly the workers with an unchanged fingerprint and hands out all others |
| `Supervisors.WorkerSupervisor.StopWorkers` | relay_agent/worker.py:391-392 | the second phase stops the workers it is given and no other |
| `Supervisors.WorkerSupervisor.CreateMissing` | relay_agent/worker.py:394-405 | the third phase adds new workers for exactly the missing keys, each reading its own stream below the input base |
| `Supervisors.WorkerSupervisor.StartWorkers` | relay_agent/worker.py:406-407 | starting keeps at most one live worker per key at every moment |
| `Supervisors.WorkerSupervisor.ReconcileTo` | relay_agent/worker.py:376-407 | map keys are the wanted keys, every worker reads its stream below the input base, unchanged workers are the same objects and were neither started nor stopped, all others are new, and at every moment of the whole history at most one live worker has a key |
| `Supervisors.WorkerSupervisor.Reconcile` | relay_agent/worker.py:352-407 | the same for a desired state and a path list, whatever the cap is; every worker reads the path of its own stream |
| `Supervisors.WorkerSupervisor.KeptWhenTargetIsTheSame` | relay_agent/worker.py:378-388 | with a collision-free hash a running worker is kept exactly when its target is wanted unchanged |
| `Supervisors.WorkerSupervisor.StopAll` | relay_agent/worker.py:409-414 | no worker is left in the map or alive |
| `Traffic.Conservation` | relay_agent/traffic.py:83-115 | over any months and boots, monthly totals plus gaps between months equal the last counter of every boot, plus what counters went back |
| `Traffic.NoDropsExactly` | relay_agent/traffic.py:112-113 | nothing is clipped exactly when no counter goes back within a boot and a month |
| `Traffic.MonthTotalIsExact` | relay_agent/traffic.py:83-115 | a month's total is its start plus last minus first counter of the first boot plus the last counters of later boots, if and only if no counter goes back |
| `Traffic.MonthLedgerIsExact` | relay_agent/traffic.py:83-116 | the other members of a month's ledger: start of tracking and baseline from its first sample, boot, counters and time from its last |
| `Traffic.CounterThatGoesBack` | relay_agent/traffic.py:112-113 | concrete: when the counter goes back the total stays at the higher reading, where the closed form gives the lower one |
| `Traffic.OneBootAccountsForTheCounter` | relay_agent/traffic.py:83-115 | from no saved state and in one boot, monthly totals and gaps add up to the kernel counter, if and only if it does not go back within a month |
| `Traffic.InnerSamplesDoNotMatter` | relay_agent/traffic.py:101-115 | leaving out any set of samples that are neither first of their month nor last of their boot in it gives the same ledger |
| `Traffic.LedgerRoundTrip` | relay_agent/traffic.py:67-72 | the text of a saved ledger is loaded as that ledger |
| `Traffic.LedgerMembers` | relay_agent/traffic.py:85-115 | under which names the file holds totals and counters |
| `Traffic.OnlySurvivingSamplesCount` | relay_agent/traffic.py:67-117 | with failed saves, crashes and restarts that read the text of the file, file and memory are those of an uninterrupted process over the surviving samples |
| `Traffic.LostInnerSamplesDoNotMatter` | relay_agent/traffic.py:67-117 | losing inner samples to crashes loses no traffic, with a saved ledger in the beginning or without |
| `Traffic.LevelIsTheHighestReached` | relay_agent/traffic.py:119-121 | the level is the highest threshold that the used bytes have reached |
| `Traffic.RemainingIsWithinTheMonth` | relay_agent/traffic.py:139-142 | remaining seconds lie between one and the length of the month |
| `Traffic.RemainingIsExact` | relay_agent/traffic.py:138-142 | the seconds left are the days, hours, minutes and seconds left |
| `Traffic.ProjectionIsExact` | relay_agent/traffic.py:129-149 | before five minutes of tracking the projection is the bytes used; after that it is, without division, the largest number of bytes within the rate above the baseline over the rest of the month |
| `Traffic.ProjectionWithoutStart` | relay_agent/traffic.py:136-137 | without a readable start of tracking the projection is the bytes used |
| `Traffic.ProjectionIsNotBelowUse` | relay_agent/traffic.py:143-149 | the projection is never below the bytes used |
| `Traffic.TrafficAccountant.constructor` | relay_agent/traffic.py:45-58 | a new accountant starts from the ledger that the state file holds, or from none, with no warnings |
| `Traffic.TrafficAccountant.SetQuotaBytes` | relay_agent/traffic.py:60-65 | the quota is replaced, or refused below one; counters stay |
| `Traffic.TrafficAccountant.Record` | relay_agent/traffic.py:83-116 | the update in place is the ledger step of the theorems, and warnings restart exactly with a new month |
| `Traffic.TrafficAccountant.Warn` | relay_agent/traffic.py:122-129 | a level is logged exactly when it is above every level logged this month |
| `Traffic.TrafficAccountant.TakeSample` | relay_agent/traffic.py:78-161 | ledger, file and report of one sample; a ledger that is not below its baseline stays so, and at most four warnings are logged in a month of one process |
| `PathReconcilers.ForeignPathsAreUntouched` | relay_agent/mediamtx.py:149-177 | however an attempt ends, present paths that are not owned are the same before and after, with the same configuration |
| `PathReconcilers.ReconcileMutatesOnlyOwn` | relay_agent/mediamtx.py:149-177 | no such path is ever added, patched or deleted |
| `PathReconcilers.CompletedMeansReached` | relay_agent/mediamtx.py:149-177 | a completed attempt leaves every wanted path with the five values, the owned set equal to the wanted paths and written to the registry, stale owned paths absent and everything else as it was |
| `PathReconcilers.CompletedMeansFiveValues` | relay_agent/mediamtx.py:150-168 | after a completed attempt every enabled stream has on its own path publisher, no override, eight readers, no recording and its own passphrase |
| `PathReconcilers.SafeIsExact` | relay_agent/mediamtx.py:42-47 | the names that the client puts into requests are the paths of streams |
| `PathReconcilers.CompletesExactly` | relay_agent/mediamtx.py:149-177 | without failures an attempt completes if and only if no wanted path is foreign and the client accepts every stale name |
| `PathReconcilers.SecondAttemptIsQuiet` | relay_agent/mediamtx.py:164-168 | an attempt at a reached target changes nothing and makes no mutating call |
| `PathReconcilers.RegistryRoundTrip` | relay_agent/mediamtx.py:130-147 | the text of the saved registry is loaded as the same set of names |
| `PathReconcilers.LostRegistryClaimsNothing` | relay_agent/mediamtx.py:130-141 | with a missing, unreadable or invalid registry a restarted process leaves every present path as it is |
| `PathReconcilers.RestartAfterCompletion` | relay_agent/mediamtx.py:130-177 | after a completed attempt a restarted process owns the same names, and its next attempt changes nothing |
| `PathReconcilers.AttemptsLeaveForeignPathsAlone` | relay_agent/mediamtx.py:149-177 | the same over any number of attempts that broke off anywhere |
| `PathReconcilers.AttemptsMutateOnlyOwn` | relay_agent/mediamtx.py:149-177 | in any number of broken attempts no call ever adds, patches or deletes a foreign path |
| `PathReconcilers.RecoveryReachesTheTarget` | relay_agent/mediamtx.py:149-177 | after any number of broken attempts one without failures reaches the full target |
| `PathReconcilers.CrashBeforeSaveBlocks` | relay_agent/mediamtx.py:177 | after a crash between adding a path and saving the registry every attempt that wants the path fails, after any other attempts and with any failures |
| `PathReconcilers.TargetPaths` | relay_agent/mediamtx.py:150 | the wanted paths are exactly those of the enabled streams |
| `PathReconcilers.TargetsOfGoodState` | relay_agent/mediamtx.py:150 | an accepted state gives distinct paths that the client accepts |
| `PathReconcilers.MediaMTXClient.GetPathConfig` | relay_agent/mediamtx.py:98-105 | the configuration under a safe name, nothing under an unknown one, or a failure |
| `PathReconcilers.MediaMTXClient.AddPath` | relay_agent/mediamtx.py:107-109 | an addition takes effect or fails without effect; an unsafe name or one that exists is refused |
| `PathReconcilers.MediaMTXClient.PatchPath` | relay_agent/mediamtx.py:111-113 | a patch takes effect or fails without effect; an unsafe or absent name is refused |
| `PathReconcilers.MediaMTXClient.DeletePath` | relay_agent/mediamtx.py:115-117 | a deletion takes effect or fails without effect; an unsafe or absent name is refused |
| `PathReconcilers.PathReconciler.EnsureOne` | relay_agent/mediamtx.py:152-171 | one wanted path is added, patched, left alone or refused as the theorems assume |
| `PathReconcilers.PathReconciler.RemoveOne` | relay_agent/mediamtx.py:173-176 | one stale path is deleted and disowned |
| `PathReconcilers.PathReconciler.Reconcile` | relay_agent/mediamtx.py:149-177 | the two loops and the save are one attempt of the theorems, at every point of failure |
| `Admission.StepRespectsCap` | relay_agent/http_server.py:42-84 | ready and reserved stay disjoint, a step leaves at most the larger of the old count and the cap, and only a creation adds a path |
| `Admission.CapacityCheckIsExact` | relay_agent/http_server.py:72-84 | who is let in, which reservations go, which stay as they were, and which is new for 20 seconds |
| `Admission.CapacityHolds` | relay_agent/http_server.py:42-84 | over any history and any clock readings a bound on the caps bounds the count |
| `Admission.LoweredCapAdmitsNobodyNew` | relay_agent/http_server.py:42-47 | lowering the cap evicts nobody and admits only counted paths until the count is below it |
| `Admission.OverCapacityMeansLowered` | relay_agent/http_server.py:64-70 | the status reports more publishers than the cap only after the cap was lowered, and while it does only counted paths are let in |
| `Admission.DeadlinesComeFromCreation` | relay_agent/http_server.py:72-84 | every reservation has the deadline of its creation, however often it was authorised since |
| `Admission.ReservationsAreNotHeldOpen` | relay_agent/http_server.py:72-84 | a reservation is not counted 20 seconds after its creation |
| `Admission.ReservationsLast` | relay_agent/http_server.py:72-84 | until its deadline a reservation is counted with that deadline, and its path is let in, unless a ready set takes it over |
| `Admission.QuietGateIsOpen` | relay_agent/http_server.py:72-84 | with ready paths below the cap and no reservation created in 20 seconds every path is let in |
| `Admission.ScreeningIsExact` | relay_agent/http_server.py:93-119 | capacity is asked for exactly for publish requests with the right credentials for an enabled stream, and for its path |
| `Admission.GrantsAreExact` | relay_agent/http_server.py:93-119 | a request is granted without looking at capacity exactly when it reads an enabled stream over RTSP from this machine, so no request to publish is; the check fails exactly when it cannot be made |
| `Admission.AdmissionController.SetMaxServerConnections` | relay_agent/http_server.py:42-47 | the cap is replaced, or refused below one |
| `Admission.AdmissionController.UpdateReadyPaths` | relay_agent/http_server.py:49-58 | the ready paths are those of the list, and their reservations are dropped |
| `Admission.AdmissionController.ReserveCapacity` | relay_agent/http_server.py:72-84 | the answer and the new reservations are those of the history model |
| `Admission.AdmissionController.Authorize` | relay_agent/http_server.py:93-119 | each outcome of screening with its answer and its effect on reservations |
| `Admission.AdmissionController.LimitStatus` | relay_agent/http_server.py:64-70 | the status of the gate; more publishers than the cap mean that its history lowered the cap |
| `AgentRuntime.LimitsFollowTheSchema` | relay_agent/service.py:86-105 | limits of the state, each as what it is, under its generation exactly for schema version 2, and else the defaults; always positive |
| `AgentRuntime.RelayParsesLimits` | relay_agent/models.py:187-194 | the parser lets only positive limits under the generation of the state through |
| `AgentRuntime.AcceptedIsServed` | relay_agent/state_store.py:217-229 | what an accepted envelope returns is what the store serves afterwards, on a replay too |
| `AgentRuntime.EndingIsExact` | relay_agent/service.py:110-128 | the loop ends in a turn that completes its write exactly for signatures that are not ASCII or a genuine payload on which the parser makes an error that nobody handles |
| `AgentRuntime.Runtime.constructor` | relay_agent/service.py:26-64 | before any state the defaults are in force |
| `AgentRuntime.Runtime.ApplyLimits` | relay_agent/service.py:86-105 | the connection limit of a state is the cap of admission and of the supervisor, its traffic limit is the quota, or the defaults are; the error for a limit below one cannot occur |
| `AgentRuntime.Runtime.Enact` | relay_agent/service.py:114-115 | what a turn does with the state it accepted: limits in force, one attempt at the paths, and the notice if that failed |
| `AgentRuntime.Runtime.Start` | relay_agent/service.py:200-210 | after loading the cache the limits are those of the loaded state, or the defaults, and an acceptable cache leaves the store in step with its file |
| `AgentRuntime.Runtime.StateTurn` | relay_agent/service.py:110-128 | one turn of the state loop: exactly when it ends the thread or the process, and state, cache, paths, limits and error notice in every case |
| `AgentRuntime.Runtime.StateLoop` | relay_agent/service.py:107-129 | whenever the loop is back at its head the limits in force are exactly those of the served state; from a store in step with its file the served state only moves up, and the revision in force never goes down |
| `Enrollment.ClaimIsNeverReplaced` | scripts/bootstrap_client.py:181-192 | a claim on disk stays, and what is sent is what is on disk |
| `Enrollment.OneClaimIsSent` | scripts/bootstrap_client.py:354-375 | over all runs, cut anywhere, one claim at most is ever sent |
| `Enrollment.IdentityFreezesTheDirectory` | scripts/bootstrap_client.py:360-362 | with an identity file a run writes and sends nothing |
| `Enrollment.RunKeepsCommitted` | scripts/bootstrap_client.py:398-412 | a run cut anywhere keeps: an identity file means three files of one validated bundle |
| `Enrollment.IdentityMeansCommitted` | scripts/bootstrap_client.py:354-412 | the same over all runs |
| `Enrollment.IdentityIsReadBack` | scripts/bootstrap_client.py:165-178 | the text of the identity file is read as the identity that was written, up to the size limit |
| `Enrollment.AcceptedBundlesAreExact` | scripts/bootstrap_client.py:202-265 | an answer is accepted exactly when it has the expected members, addresses of the pinned origin, the ports of the release, numbers within its limits, and secrets of their form |
| `Enrollment.SendsExactly` | scripts/bootstrap_client.py:354-389 | when a request is sent, and that it carries the claim on disk or the new one |
| `Enrollment.EnrollsExactly` | scripts/bootstrap_client.py:389-412 | when a run enrolls: it sent, the answer is valid, and it lived to write the three files |
| `Enrollment.IdentityFits` | scripts/bootstrap_client.py:402-411 | escapes never make the identity of a valid bundle with the pinned address too long to be read |
| `Enrollment.CommittedLoadsExactly` | scripts/bootstrap_client.py:319-351 | a committed directory gives its bundle back if and only if the bundle spells the manager address exactly as pinned |
| `Enrollment.CommittedIsForGood` | scripts/bootstrap_client.py:354-412 | a committed directory is never written again, and under that condition every run returns its bundle |
| `Enrollment.EnrollmentIsIdempotent` | scripts/bootstrap_client.py:354-412 | once any run has enrolled, under that condition every later run returns the enrolled bundle and changes nothing |
| `Enrollment.OtherSpellingBlocksLaterRuns` | scripts/bootstrap_client.py:341-342 | without it, once any run of any history has enrolled, every later run fails, and writes and sends nothing |
| `Enrollment.SlashBlocksLaterRuns` | scripts/bootstrap_client.py:238-239 | concrete: an answer with a slash at the end enrolls, and every later run fails, whatever ran in between |
| `Enrollment.Installer.CommitBundle` | scripts/bootstrap_client.py:399-411 | the files after any number of the three writes, the identity last |
| `Enrollment.Installer.EnrollOnce` | scripts/bootstrap_client.py:354-412 | one run, cut after any number of durable effects, is the run of the theorems |

## Left out

- HTTP transport, TLS, redirects, FFmpeg, MediaMTX internals and the `/proc` readers: foreign calls; only their results appear.
- HMAC, SHA-256, Base64 and the passphrase derivation: opaque functions.
- Fractions and exponents in JSON numbers, the names `NaN`, `Infinity` and `-Infinity` that Python's decoder takes for numbers, and the source's limits on the digits of an integer and on the depth of nesting: `Loads` refuses such numbers and names, and has no such limits.
- Decoding errors and lone surrogates: strings are sequences of Unicode scalar values, and a response is a text with its encoding rather than bytes.
- Text with tabs or line breaks in URLs: validation refuses it before splitting, so the splitter does not remove them.
- Text files that are not UTF-8: the path registry, the traffic state and the installer's files are modelled as the text they hold.
- Rounding: the quota ratio and the projection are taken in exact arithmetic.
- `Traffic.TrafficAccountant.constructor`: a state file that other programs wrote with members missing, or of another type, is outside the model; the source fills in defaults member by member.
- A write that fails after its rename while the process goes on: only dying there is modelled.
- A write of the path registry that fails: the source then raises as for a failed call, with the paths already in place.
- A media-server call that takes effect but reports a failure, and other clients changing a path between two calls of one attempt.
- The threads that read FFmpeg's progress and diagnostics, worker status, telemetry, Prometheus text, log redaction and error classification: display code.
- A `stop_all` that overlaps a reconcile: the source does not serialise it, so nothing is claimed there.
- The installer's polling for activation, configuration loading, shell scripts and systemd units.
