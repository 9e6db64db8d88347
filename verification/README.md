# The desktop shell's state machines, in Dafny

The shell of this repository keeps a child process, an installed runtime, a settings profile, a model
catalog and a secret vault consistent under failures, timers and interleavings. This project models
that logic and proves what it promises: for every run, every pattern of failing calls, every input.

Each component is given twice. A specification describes it as values and functions: the state after
one segment of code between two awaits, after one call, or after one change of the disk. The lemmas
are about that specification, over all its runs. Beside it stands the code in its own form, classes
whose methods update fields and loops with invariants, and every method is proved to leave exactly
the state the specification computes.

| file | models |
|---|---|
| Supervisor.dfy, SupervisorObject.dfy | start, stop and restart under the promise lock, child events, readiness deadline, respawn budget |
| Promotion.dfy | the four-rename promotion with rollback, over a file system that may fail anywhere, and the bootstrap |
| Settings.dfy, Profile.dfy | the settings merge, and runs of the seeder and the strict refresh over it |
| Descriptor.dfy | capability merging, reasoning policy, and descriptors written and read back |
| Catalog.dfy | the order of a listing and the last-known-good record |
| Units.dfy, Codings.dfy, Vault.dfy | UTF-16 units bit by bit, UTF-8, base64, and the file vault |
| Retirement.dfy | the crash-resumable migration |
| Gateway.dfy, GatewayObject.dfy | the gateway's restart loop |
| Versions.dfy | version precedence |
| Logger.dfy | the rotating log |
| Refresh.dfy | refresh count, hold, single flight |
| Patch.dfy, PatchText.dfy | the managed block in the user's patch file, and a reader for what is rendered |
| Common.dfy | small vocabulary shared by all |

`dafny verify dfyconfig.toml` checks everything.

## How the environment enters

- The environment picks the next event. Promises, timers and child events are events; the clock of
  the supervisor is an integer that only moves forward.
- What a call to the file system, the launcher, the network or a probe does is a parameter, and
  every statement is for all its values unless it names a hypothesis.
- Validation of a runtime is an arbitrary predicate on the pair of halves.
- `existsSync` may deny a name that is there. The results about promotion are for all answers; only the
  documented three-way ending is stated for truthful ones.
- "Alive" for a supervised child is claimed only together with "not yet killed": the wait after a
  kill gives up after its grace period.
- An error event of a gateway child is taken to mean that the child does not run. A 200 may come at any
  time, and `restart()` may be called except while a launch, another `restart()` or the wait of one is
  under way; what those overlaps do is stated too.

## Where the code does less than it seems to

- The supervisor's budget is documented as respawns per 60 s window. The code counts failures that
  follow one another within 60 s without a bound on the whole
  (`Supervision.UnbrokenFailuresExhaustTheBudget`).
- If the home directory cannot be created, the supervisor reports `starting` with no child and
  `start()` does nothing from then on (`Supervision.FailedHomeDirLooksLikeStarting`).
- A respawn whose launch throws is not tried again, whatever is left of the budget
  (`Supervision.StrandedUntilCalled`).
- Child output carries no generation (`Supervision.LateOutputIsMisattributed`).
- Rollback passes through a mixed pair, and if the new harness cannot be removed it leaves one live
  (`RuntimePromotion.RollBackMixesExactly`, `RuntimePromotion.RollBackEndsMixedExactly`).
- A rollback whose check of a backup is denied rethrows as if all were well, with the live half missing
  (`RuntimePromotion.RethrownMeansAsBeforeExactly`, `RuntimePromotion.DeniedBackupIsSilent`).
- A rotation that cannot move an archive replaces it (`RotatingLog.FailedRenameLosesAnArchive`).
- A secret named `__proto__` is not stored, and looking up `constructor` without having stored it
  finds something (`SecretVault.VaultRoundTrip`, `SecretVault.LookupRefinesDictionary`).
- A probe that lists a model without its window replaces the window recorded earlier
  (`ModelDescriptor.BareListingForgetsTheRecordedWindow`).
- A stray begin marker makes the second merge delete user text, and `$$` in a generated block is
  halved on replacement (`ManagedPatch.StrayMarkerSwallowsText`, `ManagedPatch.DollarPairsAreHalved`,
  `ManagedPatch.CatalogReplacesExactlyWhenLiteral`).
- The gateway believes a 200 of a dead child, and a `restart()` that races nothing but whose launch
  throws or times out leaves it with no child, no timer and no launch, for good
  (`PhoenixGateway.AttendedUnlessStranded`, `PhoenixGateway.StrandedForGood`).
- Its `restart()` during a relaunch leads to two children, and one that waits outlives `stop()`
  (`PhoenixGateway.RestartRacesExactly`, `PhoenixGateway.LaunchAfterStopExactly`).

## Model

| member | source | states |
|---|---|---|
| `Supervision.AtMostOneServingChild` | apps/shell/src/main/harness-supervisor.ts:141-194 | In every run of calls, exits, errors, deadlines and timers at most one launched child is alive and not yet killed, and if there is one it is `proc` and carries the current `generation`. |
| `Supervision.StatusMatchesChild` | apps/shell/src/main/harness-supervisor.ts:234-245 | `url` is set iff the status is ready; `proc` is set iff it is starting or ready, exactly when the latest attempt did not die in `mkdirSync`. |
| `Supervision.FailedHomeDirLooksLikeStarting` | apps/shell/src/main/harness-supervisor.ts:239-243 | A concrete run: after a failed `mkdirSync` the status is starting with no child, and `start()` is a no-op. |
| `Supervision.CriticalSectionsAreFifo` | apps/shell/src/main/harness-supervisor.ts:196-206 | Two lock bodies are never open at once, and one is open only when every earlier call has finished, thrown or not. |
| `Supervision.TurnsComeInOrder` | apps/shell/src/main/harness-supervisor.ts:196-206 | Whoever enters the lock is the oldest unfinished operation. |
| `Supervision.LockNeverWedges` | apps/shell/src/main/harness-supervisor.ts:196-206 | The oldest unfinished operation always has a step of its own, at the latest when a pending activation settles. |
| `Supervision.StaleEventsAreInert` | apps/shell/src/main/harness-supervisor.ts:312-364 | Exit, error, deadline and timer events of an old generation leave `proc`, `status`, `url`, `generation` and `restarts`, launch nothing and kill nothing. |
| `Supervision.PastChildrenAreInert` | apps/shell/src/main/harness-supervisor.ts:312-383 | In every run, from the moment a child is let go of nothing it does changes what is held, the generation or the failure count, launches, kills or schedules anything; only a ready line read while its successor starts touches status and URL. |
| `Supervision.LetGoForGood` | apps/shell/src/main/harness-supervisor.ts:312-323 | A child let go of is never held again. |
| `Supervision.NothingLaunchedAfterStop` | apps/shell/src/main/harness-supervisor.ts:150-169 | From the moment a stop is in its body nothing is launched until a start or restart called after it has entered. |
| `Supervision.RestartLaunches` | apps/shell/src/main/harness-supervisor.ts:171-194 | A restart that got past its waits, or had nothing to wait for, launches, and the new child is current under a new generation. |
| `Supervision.UrlComesFromCurrentChild` | apps/shell/src/main/harness-supervisor.ts:368-383 | In every run: the published URL is always that of the current child if and only if no ready line was ever read, while starting, from another child. |
| `Supervision.LateOutputIsMisattributed` | apps/shell/src/main/harness-supervisor.ts:309-310 | A concrete run in which a killed child that outlives the grace period has its URL published as its successor's. |
| `Supervision.FailuresAreAnswered` | apps/shell/src/main/harness-supervisor.ts:469-494 | In every run each failure is answered by delay min(base * 2^(k-1), 30 s) for the k-th of its streak, or refused exactly when the streak has used up the budget. |
| `Supervision.BudgetBoundsEveryWindow` | apps/shell/src/main/harness-supervisor.ts:469-485 | Failures spread over less than 60 s schedule at most `restartBudget` respawns. |
| `Supervision.UnbrokenFailuresExhaustTheBudget` | apps/shell/src/main/harness-supervisor.ts:472-484 | Failures each less than 60 s after the one before share one budget however long the whole takes. |
| `Supervision.EveryEventHasItsEffect` | apps/shell/src/main/harness-supervisor.ts:141-494 | In every run, event by event and without the code's own functions: when a launch is attempted and what comes of it, which child is held, which URL and status are published, which children are started and killed, what becomes of the timers, the failure log, `stopping`, the queue and the generation. |
| `Supervision.TimersFindNothingHeld` | apps/shell/src/main/harness-supervisor.ts:469-493 | In every run a pending timer of the latest generation finds no child held and nobody stopping. |
| `Supervision.TimerWaits` | apps/shell/src/main/harness-supervisor.ts:489-493 | While its generation lasts a pending respawn timer stays as it is until it fires. |
| `Supervision.CrashIsRecovered` | apps/shell/src/main/harness-supervisor.ts:312-331 | In every run: once the held child ends and the failure is granted a delay, the respawn is due exactly from that delay on as long as no operation takes over, and a firing whose launch works, with no other attempt pending, gives exactly one more child, current, under the next generation, and starting. |
| `Supervision.StrandedUntilCalled` | apps/shell/src/main/harness-supervisor.ts:476-485 | In every run, after a failure that is granted no delay and after a respawn whose launch throws, nothing is held and nothing launched until an operation has its turn. |
| `Supervision.RespawnDelaysDouble` | apps/shell/src/main/harness-supervisor.ts:472-489 | In every run, in figures: the first failure of a streak waits the base delay, each later one twice the last, never above 30 s; a failure 60 s or more after the last begins a new streak. |
| `SupervisorObject.HarnessSupervisor.constructor` | apps/shell/src/main/harness-supervisor.ts:101-121 | A fresh supervisor is the initial state. |
| `SupervisorObject.HarnessSupervisor.KillTree` | apps/shell/src/main/harness-supervisor.ts:342-342 | Marks the child killed and changes nothing else. |
| `SupervisorObject.HarnessSupervisor.ClearTimer` | apps/shell/src/main/harness-supervisor.ts:155-158 | Clears the pending respawn timer and forgets it. |
| `SupervisorObject.HarnessSupervisor.DoSpawnOnce` | apps/shell/src/main/harness-supervisor.ts:234-307 | The state after a launch attempt is that of the specification segment, on success, on a launch that throws and on a home directory that fails. |
| `SupervisorObject.HarnessSupervisor.DoSpawn` | apps/shell/src/main/harness-supervisor.ts:220-226 | The state after `spawn()` up to its await, and which activation the caller waits for. |
| `SupervisorObject.HarnessSupervisor.SpawnSettled` | apps/shell/src/main/harness-supervisor.ts:229-231 | The settled activation is forgotten. |
| `SupervisorObject.HarnessSupervisor.DoMaybeRespawn` | apps/shell/src/main/harness-supervisor.ts:469-494 | The failure log, the count and the new timer are those of the specification segment. |
| `SupervisorObject.HarnessSupervisor.WithLock` | apps/shell/src/main/harness-supervisor.ts:196-200 | The call queues behind the last promise and becomes the last. |
| `SupervisorObject.HarnessSupervisor.CallStarts` | apps/shell/src/main/harness-supervisor.ts:141-143 | start() up to the lock, including the early return. |
| `SupervisorObject.HarnessSupervisor.CallStops` | apps/shell/src/main/harness-supervisor.ts:150-151 | stop() up to the lock. |
| `SupervisorObject.HarnessSupervisor.CallRestarts` | apps/shell/src/main/harness-supervisor.ts:171-172 | restart() up to the lock. |
| `SupervisorObject.HarnessSupervisor.EnterStartBody` | apps/shell/src/main/harness-supervisor.ts:144-147 | The body of start(). The whole new state equals the specification's. |
| `SupervisorObject.HarnessSupervisor.EndGeneration` | apps/shell/src/main/harness-supervisor.ts:152-158 | Invalidates the generation and drops its timer. |
| `SupervisorObject.HarnessSupervisor.EnterStopBody` | apps/shell/src/main/harness-supervisor.ts:152-166 | The body of stop() up to its wait. The whole new state equals the specification's. |
| `SupervisorObject.HarnessSupervisor.EnterRestartBody` | apps/shell/src/main/harness-supervisor.ts:176-189 | The body of restart() up to its wait. The whole new state equals the specification's. |
| `SupervisorObject.HarnessSupervisor.EnterBodyOf` | apps/shell/src/main/harness-supervisor.ts:200-202 | Whose turn it is runs its own body. |
| `SupervisorObject.HarnessSupervisor.PastExit` | apps/shell/src/main/harness-supervisor.ts:166-167 | The continuation once the old child has gone or been given up on. The whole new state equals the specification's. |
| `SupervisorObject.HarnessSupervisor.PastSpawn` | apps/shell/src/main/harness-supervisor.ts:190-192 | The continuation once an earlier activation has settled. The whole new state equals the specification's. |
| `SupervisorObject.HarnessSupervisor.ExitHandler` | apps/shell/src/main/harness-supervisor.ts:312-331 | The exit handler. The whole new state equals the specification's. |
| `SupervisorObject.HarnessSupervisor.ErrorHandler` | apps/shell/src/main/harness-supervisor.ts:350-365 | The error handler. The whole new state equals the specification's. |
| `SupervisorObject.HarnessSupervisor.ReadinessDeadline` | apps/shell/src/main/harness-supervisor.ts:335-344 | The readiness deadline. The whole new state equals the specification's. |
| `SupervisorObject.HarnessSupervisor.TryGrabs` | apps/shell/src/main/harness-supervisor.ts:368-382 | Publishing a URL found in the output. The whole new state equals the specification's. |
| `SupervisorObject.HarnessSupervisor.RestartTimerCallback` | apps/shell/src/main/harness-supervisor.ts:489-493 | The respawn timer. The whole new state equals the specification's. |
| `SupervisorObject.HarnessSupervisor.Deliver` | apps/shell/src/main/harness-supervisor.ts:141-494 | Delivering any event to the object is the step of the specification. |
| `SupervisorObject.HarnessSupervisor.EventLoop` | apps/shell/src/main/harness-supervisor.ts:141-494 | Whatever events come to a new supervisor, its states are a run; at most one of its children is alive and not killed. |
| `RuntimePromotion.PromotionUnderAnyFates` | apps/shell/src/main/harness-updater.ts:56-122 | For every pattern of answers and failures, lying checks included: success means the new pair is live and valid; otherwise each old half is under its live or backup name, except exactly when the live manifest was denied and both installing renames then worked. |
| `RuntimePromotion.RethrownMeansAsBeforeExactly` | apps/shell/src/main/harness-updater.ts:86-112 | For every pattern: a promotion that rethrows the original error has left everything as before if and only if the manifest was not lost that way and the checks of the backups made, and of the promoted halves without one, were truthful. |
| `RuntimePromotion.PromotionEndsInOneOfThreeWays` | apps/shell/src/main/harness-updater.ts:56-122 | With truthful checks: promoted with the staged pair live and valid; rethrown with both live names as before and no backup; or aggregate error with each old half under its live or backup name. |
| `RuntimePromotion.DeniedBackupIsSilent` | apps/shell/src/main/harness-updater.ts:98-100 | A concrete promotion that rethrows with the live harness missing and its backup left behind, because one check of the backup was denied. |
| `RuntimePromotion.EveryCrashIsRecoverable` | apps/shell/src/main/harness-updater.ts:72-112 | For every pattern that does not lose the manifest, every state the disk goes through before the commit has each old half under its live or backup name; forward states never pair old with new if the live manifest is seen; after the commit the new pair stays. |
| `RuntimePromotion.ForwardLiveIsNeverMixed` | apps/shell/src/main/harness-updater.ts:72-85 | No forward state pairs an old half with a staged one. |
| `RuntimePromotion.ForwardMixesExactly` | apps/shell/src/main/harness-updater.ts:73-84 | A forward state pairs the new harness with the old manifest if and only if the live manifest was there and not moved aside when the new harness went in; never the other way round. |
| `RuntimePromotion.RollBackMixesExactly` | apps/shell/src/main/harness-updater.ts:95-106 | For every pattern, by flags and by which of the four guarded operations works: when some rollback state has the old harness beside the new manifest, and when the new beside the old. |
| `RuntimePromotion.RollBackEndsMixedExactly` | apps/shell/src/main/harness-updater.ts:95-106 | For every pattern, likewise: exactly when a mixed pair is what the rollback leaves live. |
| `RuntimePromotion.RollbackPassesThroughAMixedPair` | apps/shell/src/main/harness-updater.ts:95-106 | A run in which nothing fails but validation: restored as before, by way of the old harness beside the new manifest. |
| `RuntimePromotion.FailedRemovalLeavesAMixedPair` | apps/shell/src/main/harness-updater.ts:95-106 | A run in which removing the new harness fails: aggregate error, and the new harness beside the old manifest stays live. |
| `RuntimePromotion.DeniedManifestIsLost` | apps/shell/src/main/harness-updater.ts:77-83 | The old manifest of a promotion that does not succeed is gone for good if and only if its check denied it and both installing renames worked. |
| `RuntimePromotion.OneLieLosesTheManifest` | apps/shell/src/main/harness-updater.ts:77-83 | A concrete promotion that loses the manifest that way. |
| `RuntimePromotion.PromotedExactly` | apps/shell/src/main/harness-updater.ts:70-85 | For every pattern, call by call: a promotion succeeds if and only if the staged manifest is seen and both staged halves are there, the live halves that are there are seen and moved aside (a manifest may be missed), both installing renames work, and validation works on a valid pair. |
| `RuntimePromotion.PromotedLeavesExactly` | apps/shell/src/main/harness-updater.ts:114-121 | What a successful promotion leaves beside the new pair: nothing staged, and each backup exactly when it was made and the clean-up did not see it or could not remove it. |
| `RuntimePromotion.ForwardStopsAtTheFirstFailure` | apps/shell/src/main/harness-updater.ts:72-85 | For every pattern: the try block ends at its first failing call, and the four flags and the number of calls made say exactly which. |
| `RuntimePromotion.IncompleteExactly` | apps/shell/src/main/harness-updater.ts:86-111 | For every pattern: a rollback throws the aggregate error exactly when one of its four guarded operations is tried and fails, by call and by flag. |
| `RuntimePromotion.WorkingCallsPromote` | apps/shell/src/main/harness-updater.ts:56-122 | When every call works: a valid staged pair replaces what is live and the disk is otherwise as it was; an incomplete or invalid one is refused with the live names as before. |
| `RuntimePromotion.InstalledExactly` | apps/shell/src/main/harness-updater.ts:276-373 | For every pattern, exactly when an installation succeeds; its pair is then live and nothing is staged. |
| `RuntimePromotion.StagingIsTidied` | apps/shell/src/main/harness-updater.ts:370-373 | However an installation that began ends, nothing is staged afterwards when calls work. |
| `RuntimePromotion.EnsureExactly` | apps/shell/src/main/harness-bootstrap.ts:31-65 | For every pattern, exactly when a bootstrap answers with the existing runtime and when with a downloaded one; the downloaded pair is then live. |
| `RuntimePromotion.WorkingBootstrap` | apps/shell/src/main/harness-bootstrap.ts:31-65 | When every call works: a valid live pair is left alone; without one an acceptable offer takes its place and nothing else changes; otherwise it throws with everything but the staging as it was. |
| `RuntimePromotion.PromotionSparesOtherRuns` | apps/shell/src/main/harness-updater.ts:63-66 | Backup and staging names of any other run are as they were, whatever happens. |
| `RuntimePromotion.ReadyMeansValid` | apps/shell/src/main/harness-bootstrap.ts:31-65 | A bootstrap that reports ready leaves a live pair that validates; one that finds such a pair does not touch the disk. |
| `RuntimePromotion.InstallLosesNothing` | apps/shell/src/main/harness-updater.ts:267-376 | However an installation ends, a valid pair is live or what was live is still under its live or backup name; staging does not matter. |
| `RuntimePromotion.BootstrapAfterCrashLosesNothing` | apps/shell/src/main/harness-bootstrap.ts:41-60 | However a bootstrap after a crash ends, the crashed run's backups are untouched and a valid pair is live or what was live is still there. |
| `RuntimePromotion.FileSystem.RenameSync` | apps/shell/src/main/harness-updater.ts:45-45 | Renames or throws, and nothing in between. |
| `RuntimePromotion.FileSystem.RmSync` | apps/shell/src/main/harness-updater.ts:52-52 | Removes, throws, or leaves part of a tree. |
| `RuntimePromotion.AttemptRemoval` | apps/shell/src/main/harness-updater.ts:95-103 | A guarded rollback removal collects its error. |
| `RuntimePromotion.AttemptRestore` | apps/shell/src/main/harness-updater.ts:98-106 | A guarded rollback rename collects its error. |
| `RuntimePromotion.RunForward` | apps/shell/src/main/harness-updater.ts:72-85 | The disk and the four flags after the try block, thrown or not. |
| `RuntimePromotion.PromoteHarnessRuntime` | apps/shell/src/main/harness-updater.ts:56-122 | The outcome and the disk after the whole promotion, step by step, equal the specification the lemmas above are about. |
| `TextCodings.DecodeEncode` | apps/shell/src/main/secret-store.ts:205-224 | UTF-8 (section 3 of RFC 3629) decoding undoes encoding up to unpaired surrogates, which become U+FFFD. |
| `TextCodings.ScrubKeepsExactlyTheWellFormed` | apps/shell/src/main/secret-store.ts:205-224 | The UTF-8 round trip is the identity exactly on well-formed UTF-16. |
| `TextCodings.DecodeIsWellFormed` | apps/shell/src/main/secret-store.ts:198-205 | Decoding any bytes gives well-formed text. |
| `TextCodings.Base64Survives` | apps/shell/src/main/secret-store.ts:224-226 | Base64 (section 4 of RFC 4648) decoding undoes encoding for every byte string. |
| `TextCodings.OctetsAreWritten` | apps/shell/src/main/secret-store.ts:224-226 | A unit is written as the octets of its number (section 3 of RFC 3629). |
| `TextCodings.PairsAreWritten` | apps/shell/src/main/secret-store.ts:224-226 | And a surrogate pair as the four octets of the number of the pair. |
| `TextCodings.OctetsAreRead` | apps/shell/src/main/secret-store.ts:198-205 | The octets of one character, by the syntax in section 4 of RFC 3629, are read as its number, and they alone. |
| `TextCodings.MalformedIsReplaced` | apps/shell/src/main/secret-store.ts:198-205 | Where no character starts, one replacement character stands for the longest beginning of one. |
| `TextCodings.DigitsInOrder` | apps/shell/src/main/secret-store.ts:224-226 | The digits are those of Table 1 of RFC 4648, in its order. |
| `TextCodings.DigitsReadExactly` | apps/shell/src/main/secret-store.ts:195-205 | Each is read as its value, `-` and `_` as those of `+` and `/`, and no other character as any. |
| `TextCodings.GroupIsTheSameBits` | apps/shell/src/main/secret-store.ts:224-226 | Three bytes and their four digits are the same 24 bits. |
| `TextCodings.PaddingCompletesTheGroup` | apps/shell/src/main/secret-store.ts:224-226 | The text comes in groups of four, and only what completes the last group is padding. |
| `SecretVault.XorSurvives` | apps/shell/src/main/secret-store.ts:205-223 | XOR with a 7-bit key undoes itself and keeps high and low surrogates where they are. |
| `SecretVault.XorBitByBit` | apps/shell/src/main/secret-store.ts:205-207 | For every text, key, position and bit: the bit of the obfuscated text is set exactly when those of the text and of the key unit at that position differ. |
| `SecretVault.StoredValueIsMixed` | apps/shell/src/main/secret-store.ts:218-224 | A stored value is the clear text at a position exactly where the key unit is zero. |
| `SecretVault.LineReadsAs` | apps/shell/src/main/secret-store.ts:200-207 | What a line of a file reads as. |
| `SecretVault.ValueSurvives` | apps/shell/src/main/secret-store.ts:205-224 | A secret comes back from the file iff it is well-formed UTF-16. |
| `SecretVault.ReadIsGood` | apps/shell/src/main/secret-store.ts:191-216 | Whatever bytes are on disk, only entries a vault file can hold are returned. |
| `SecretVault.VaultRoundTrip` | apps/shell/src/main/secret-store.ts:191-227 | `readVault` after `writeVault` returns the same vault iff every key is non-empty, free of `=` and newline, not `__proto__` and well-formed, and every value is well-formed. |
| `SecretVault.StoreRefinesDictionary` | apps/shell/src/main/secret-store.ts:229-244 | From any file, any sequence of representable set and delete operations reads like a plain map. |
| `SecretVault.LookupRefinesDictionary` | apps/shell/src/main/secret-store.ts:235-238 | A lookup answers like a map iff the key is present or is no name inherited from Object.prototype. |
| `SecretVault.FileStore.ReadVault` | apps/shell/src/main/secret-store.ts:191-216 | The reading loop computes what the parser specification says. |
| `SecretVault.FileStore.WriteVault` | apps/shell/src/main/secret-store.ts:218-227 | The file holds the vault's entries printed in some order, and reads back as the vault when it is representable. |
| `SecretVault.FileStore.SetSecret` | apps/shell/src/main/secret-store.ts:230-234 | After setting a representable secret the file reads as the old vault with that entry. |
| `SecretVault.FileStore.GetSecret` | apps/shell/src/main/secret-store.ts:235-238 | Returns what the lookup specification says of the file. |
| `SecretVault.FileStore.DeleteSecret` | apps/shell/src/main/secret-store.ts:239-243 | The file reads as the old vault without the entry, from any file at all. |
| `HarnessSettings.MergedLookup` | apps/shell/src/main/harness-settings.ts:96-107 | After a merge every managed provider is the desired one or absent, and every other provider on disk is as it was. |
| `HarnessSettings.MergeKeepsOrder` | apps/shell/src/main/harness-settings.ts:93-107 | Routes that stay keep their order, and new ones follow in that of the settings. |
| `HarnessSettings.UserNodesSurvive` | apps/shell/src/main/harness-settings.ts:63-116 | However stale the settings: foreign entries and user-owned providers on disk are unchanged and in place, managed ones are exactly the desired. |
| `HarnessSettings.EntriesStayInPlace` | apps/shell/src/main/harness-settings.ts:76-117 | For every unambiguous profile and all settings: each entry keeps its place and its node, and the provider entry every other key of its section; a write adds or removes entries of the shell's own only, and exactly when. |
| `HarnessSettings.UserSelectionSurvives` | apps/shell/src/main/harness-settings.ts:79-115 | The default on disk is kept exactly when it names a user-owned provider other than the desired one. |
| `HarnessSettings.ManagedSelectionIsListed` | apps/shell/src/main/harness-settings.ts:65-74 | After any write a default that names the managed route names a model in that route's list on disk. |
| `HarnessSettings.WriteIsIdempotent` | apps/shell/src/main/harness-settings.ts:63-116 | Writing the same settings twice changes no node. |
| `HarnessSettings.ReadSeesTheProfile` | apps/shell/src/main/harness-settings.ts:36-52 | A read gives the provider on disk, else the legacy file's, name by name. |
| `HarnessSettings.RunsKeepUserPart` | apps/shell/src/main/harness-settings.ts:63-118 | Over any run of seeds and refreshes the user's entries, providers and selection are unchanged, and the shell's entries keep their places, nodes and other keys. |
| `HarnessSettings.DefaultsStayListed` | apps/shell/src/main/model-refresher.ts:321-341 | Over any run of seeds and refreshes a managed default stays in the managed list once it is, or once there has been a refresh. |
| `HarnessSettings.RefreshListsExactIds` | apps/shell/src/main/model-refresher.ts:686-713 | After a strict refresh the route lists exactly `exactModelIds` in order, whatever the probes returned. |
| `HarnessSettings.CurrentExactly` | apps/shell/src/main/model-refresher.ts:687-687 | Where an id occurs more than once among the probes its last entry counts. |
| `HarnessSettings.SelectableMeansProvedNow` | apps/shell/src/main/model-refresher.ts:706-711 | A model is selectable iff this refresh probed it, it responded, and it is `auto` or proved tool calling. |
| `HarnessSettings.DefaultReplacedExactly` | apps/shell/src/main/model-refresher.ts:324-341 | A refresh replaces the default exactly when some model answers and the default is missing, incomplete, or of the managed route and neither shipped nor answering; the new one is auto if it answers, else the first that does. |
| `HarnessSettings.ElectedDefaultIsWritten` | apps/shell/src/main/model-refresher.ts:337-342 | On disk such a default of a shipped model is in place afterwards, unless the profile holds a selection of the user's own. |
| `HarnessSettings.SeedListsShippedIds` | apps/shell/src/main/provider-seeder.ts:28-54 | After a seed the route lists the shipped ids in order, none selectable; without a catalog there is no route. |
| `HarnessSettings.SeedRefusesExactly` | apps/shell/src/main/provider-seeder.ts:28-32 | A seed throws exactly for a catalog that does not begin with auto, is too short, repeats an id or holds an empty one. |
| `HarnessSettings.SeedRetires` | apps/shell/src/main/provider-seeder.ts:25-60 | On disk after a seed: the three legacy routes are gone, two more where they carry the old label, the managed route is the seeded one or none, other managed routes stay. |
| `HarnessSettings.SeededDefaultExactly` | apps/shell/src/main/provider-seeder.ts:43-61 | The default a seed wants: auto, none or the one it read, and exactly when. |
| `HarnessSettings.PinsSurvive` | apps/shell/src/main/model-refresher.ts:329-340 | A pin inside the shipped catalog is unchanged by every run of seeds and refreshes with that catalog. |
| `HarnessSettings.RefreshSettles` | apps/shell/src/main/model-refresher.ts:691-713 | Every descriptor a strict refresh puts on disk is settled, from any metadata and cache. |
| `HarnessSettings.SilentRefreshesKeepDescriptor` | apps/shell/src/main/model-refresher.ts:686-713 | A settled descriptor on disk changes in no field but `selectable: false` over any number of refreshes that do not probe its id. |
| `HarnessProfile.FindEntry` | apps/shell/src/main/harness-settings.ts:31-35 | The only entry with the id, or a refusal exactly when there are two. |
| `HarnessProfile.DeleteRetired` | apps/shell/src/main/harness-settings.ts:96-99 | The deletion loop leaves exactly the pairs the merge specification keeps. |
| `HarnessProfile.SetDesired` | apps/shell/src/main/harness-settings.ts:100-107 | The setting loop computes the merge specification. |
| `HarnessProfile.EditLlm` | apps/shell/src/main/harness-settings.ts:76-107 | The provider entry after the edit, or a refusal. |
| `HarnessProfile.EditDefault` | apps/shell/src/main/harness-settings.ts:76-115 | The default entry after the edit, or a refusal. |
| `HarnessProfile.Profile.WriteHarnessSettings` | apps/shell/src/main/harness-settings.ts:63-117 | Succeeds iff no managed entry is duplicated; then the file is the merge and the result says whether it changed; otherwise the file is as it was. |
| `HarnessProfile.Reseed` | apps/shell/src/main/provider-seeder.ts:21-61 | The seeded settings object, or a refusal for an invalid catalog. |
| `HarnessProfile.Profile.SeedProviders` | apps/shell/src/main/provider-seeder.ts:21-63 | The file after a seed is that of the run specification; throws exactly on an invalid catalog. |
| `HarnessProfile.IndexConfigured` | apps/shell/src/main/model-refresher.ts:688-692 | The map holds, for each id, the last mapping with that id. |
| `HarnessProfile.IndexCurrent` | apps/shell/src/main/model-refresher.ts:687-687 | The map holds, for each id, the last probe of it. |
| `HarnessProfile.SyncProviderModels` | apps/shell/src/main/model-refresher.ts:666-713 | The synced route equals the specification's. |
| `HarnessProfile.Profile.ApplyRefresh` | apps/shell/src/main/model-refresher.ts:321-341 | The file after a refresh is that of the run specification. |
| `ModelDescriptor.NamesParse` | apps/shell/src/main/model-refresher.ts:622-635 | Parsing the keys of a written effort object gives its levels back. |
| `ModelDescriptor.RecordReadsBack` | apps/shell/src/main/model-refresher.ts:693-705 | The cache built from a written descriptor holds exactly its fields. |
| `ModelDescriptor.V4CapacitiesAreSettled` | apps/shell/src/main/model-refresher.ts:637-664 | A probed DeepSeek V4 descriptor that reasons already carries the V4 capacities. |
| `ModelDescriptor.DescriptorIsFixed` | apps/shell/src/main/model-refresher.ts:637-660 | A refresh that does not probe the id changes nothing of a produced descriptor but hides the model. |
| `ModelDescriptor.DescriptorSurvivesSilence` | apps/shell/src/main/model-refresher.ts:686-713 | The same for any number of such refreshes. |
| `ModelDescriptor.BareListingForgetsTheRecordedWindow` | apps/shell/src/main/model-refresher.ts:513-515 | A recorded window stays if and only if the id is not listed, or the listing declares it, or it declares none and what is shipped for the id is none or the same. |
| `ModelDescriptor.WindowByPrecedence` | apps/shell/src/main/model-refresher.ts:637-645 | The context window comes from the first source that has one: listing; for a listed id tables and V4 defaults; record; tables and V4 defaults. |
| `ModelDescriptor.OutputByPrecedence` | apps/shell/src/main/model-refresher.ts:639-646 | Likewise the output limit, with the V4 limit before the record for a listed id; and the one display name. |
| `ModelDescriptor.ReasoningByPrecedence` | apps/shell/src/main/model-refresher.ts:647-651 | Likewise reasoning, efforts and default effort: declared non-reasoning wins, then the first declared efforts, then the name policy; the default effort counts only among them. |
| `ModelDescriptor.CheckedExactly` | apps/shell/src/main/model-refresher.ts:607-609 | A recorded number counts when it is a positive safe integer. |
| `ModelDescriptor.FamiliesByName` | apps/shell/src/main/reasoning-policy.ts:42-99 | DeepSeek, DeepSeek V4 and MiMo ids by name in any case. |
| `ModelDescriptor.ThinkingByName` | apps/shell/src/main/reasoning-policy.ts:37-47 | Thinking Qwen ids by name. |
| `ModelDescriptor.PolicyByName` | apps/shell/src/main/reasoning-policy.ts:63-76 | The efforts by name, and outside the families by the gateway's hint. |
| `ModelDescriptor.LevelsInWords` | apps/shell/src/main/model-refresher.ts:611-619 | A level is read from its name in any case with blanks around it, and from nothing else. |
| `ModelDescriptor.EffortsAreJustified` | apps/shell/src/main/reasoning-policy.ts:67-94 | A default effort is one of the advertised; declared non-reasoning advertises none; undeclared levels need a known name or a gateway hint, the top level a DeepSeek id, and MiMo has one level. |
| `ModelDescriptor.ShippedTablesAreValid` | apps/shell/src/main/model-refresher.ts:156-211 | The shipped tables hold positive safe integers. |
| `CatalogRefresh.ListingFollowsTheCatalog` | apps/shell/src/main/model-refresher.ts:399-423 | One router entry first, then every advertised catalog model in catalog order, stable and with its metadata, and nothing else. |
| `CatalogRefresh.ListingsExactly` | apps/shell/src/main/model-refresher.ts:405-424 | An empty listing throws unless strict; without a shipped catalog models stay as advertised; a catalog without auto first filters and sorts stably. |
| `CatalogRefresh.KnownMeansAnsweredSince` | apps/shell/src/main/model-refresher.ts:288-303 | An id is on record iff it responded at some refresh and at every later one was probed and responded or failed by transport, or was recorded at first and that held throughout. |
| `CatalogRefresh.KnownToBeginWith` | apps/shell/src/main/model-refresher.ts:573-601 | What is on record before the first refresh, for each form of the file. |
| `CatalogRefresh.MarkedExactly` | apps/shell/src/main/model-refresher.ts:294-300 | An entry is marked exactly when its probe failed by transport and its id was on record; what responded or was marked is on record afterwards. |
| `CatalogRefresh.UnprobedProvidersAreForgotten` | apps/shell/src/main/model-refresher.ts:290-303 | A provider that is not probed is forgotten. |
| `CatalogRefresh.KeepBooks` | apps/shell/src/main/model-refresher.ts:288-303 | The loops compute the record and mark exactly the spared entries. |
| `CatalogRefresh.RetainOne` | apps/shell/src/main/model-refresher.ts:291-302 | The inner loop, for one provider. |
| `VersionOrder.CompareFlips` | apps/shell/src/main/updater.ts:68-94 | Swapping the versions swaps the verdict, so newer is irreflexive and asymmetric. |
| `VersionOrder.CompareIsTransitive` | apps/shell/src/main/updater.ts:68-94 | Newer is transitive on all parsed versions. |
| `VersionOrder.PrecedenceByFirstDifference` | apps/shell/src/main/updater.ts:68-94 | A version precedes another if and only if, at the first difference, its component is smaller; or with equal cores it alone has a prerelease; or its prerelease is a proper prefix of, or smaller at the first difference than, the other, numeric below alphanumeric, numeric by value, the rest by code unit (section 11 of Semantic Versioning). |
| `VersionOrder.CanonicalVersionsAreOrdered` | apps/shell/src/main/updater.ts:68-94 | Without leading zeros in numeric identifiers exactly one of newer, older or equal up to trailing zero components holds. |
| `VersionOrder.ReleaseParses` | apps/shell/src/main/updater.ts:56-63 | A dotted list of numerals parses into its numbers. |
| `VersionOrder.PrereleaseParses` | apps/shell/src/main/updater.ts:56-63 | And a hyphenated list of identifiers is kept as it stands. |
| `VersionOrder.ValueIsDecimal` | apps/shell/src/main/updater.ts:60-60 | The value of a numeral is what its decimal notation says. |
| `VersionOrder.DecorationIsIgnored` | apps/shell/src/main/updater.ts:57-57 | Blanks around a version and a leading v change nothing. |
| `Common.SpacesByCode` | apps/shell/src/main/updater.ts:57-57 | The characters that trimming removes, by code unit. |
| `VersionOrder.RestIsIgnored` | apps/shell/src/main/updater.ts:57-57 | Nor does what follows the part that parses. |
| `VersionOrder.NoDigitNoVersion` | apps/shell/src/main/updater.ts:57-58 | What does not start with a digit is no version. |
| `VersionOrder.IdentifierCharacters` | apps/shell/src/main/updater.ts:57-57 | The characters of an identifier. |
| `VersionOrder.NewerIsAStrictOrder` | apps/shell/src/main/updater.ts:54-95 | On all strings, newer is irreflexive, asymmetric and transitive. |
| `VersionOrder.CompareCores` | apps/shell/src/main/updater.ts:68-73 | The loop over components computes the recursive comparison. |
| `VersionOrder.IsNewerPrerelease` | apps/shell/src/main/updater.ts:81-94 | The loop over identifiers agrees with section 11 of Semantic Versioning 2.0.0. |
| `VersionOrder.IsNewerVersion` | apps/shell/src/main/updater.ts:54-95 | The function as written computes the recursive precedence. |
| `RotatingLog.RotationMovesEveryFile` | apps/shell/src/main/logger.ts:48-62 | Rotation moves each file up one number, drops the oldest and starts a new one. |
| `RotatingLog.LogIsASuffix` | apps/shell/src/main/logger.ts:18-62 | While renames and writes succeed the files in order are a suffix of all bytes written; no gaps, at most maxFiles + 1 files, each within maxBytes or one chunk. |
| `RotatingLog.ArchivesFillBeforeLoss` | apps/shell/src/main/logger.ts:48-62 | Nothing is lost before the archives are full. |
| `RotatingLog.WritesGoOnExactly` | apps/shell/src/main/logger.ts:28-33 | A write goes on in the current file exactly when that is new or has room for the whole chunk, and otherwise starts over; the file exceeds the limit only by a chunk too long by itself. |
| `RotatingLog.LimitsExactly` | apps/shell/src/main/logger.ts:22-23 | The least limits. |
| `RotatingLog.RotationExactly` | apps/shell/src/main/logger.ts:48-62 | Whichever renames fail, the files after a rotation of any log: each file whose own rename works is one place up, over whatever stayed there. |
| `RotatingLog.FailedRenameLosesAnArchive` | apps/shell/src/main/logger.ts:50-59 | The content of a file is gone after a rotation if and only if its rename fails, or it is the last archive, and the rename of the file before it works. |
| `RotatingLog.RotationLosesExactly` | apps/shell/src/main/logger.ts:50-59 | Of a log without gaps something beyond the oldest file is lost if and only if an archive fails to move while the file before it moves. |
| `RotatingLog.SpansTrack` | apps/shell/src/main/logger.ts:28-62 | Whichever renames fail, each file holds the stretch of all bytes written that its span names. |
| `RotatingLog.WholeExactlyWithoutInnerLoss` | apps/shell/src/main/logger.ts:28-62 | Whichever renames fail, after every chunk the files cover one stretch up to the end of everything written, if and only if no rotation replaced a file that was not the oldest. |
| `RotatingLog.LogIsASuffixWithoutInnerLoss` | apps/shell/src/main/logger.ts:28-62 | Then the files read oldest first are a suffix of everything written, failed renames or not. |
| `RotatingLog.RotatingDestination.constructor` | apps/shell/src/main/logger.ts:18-26 | Opening appends to the file found and starts at its size. |
| `RotatingLog.RotatingDestination.DoRotate` | apps/shell/src/main/logger.ts:48-62 | The rename loop computes the rotation specification. |
| `RotatingLog.RotatingDestination.WriteChunk` | apps/shell/src/main/logger.ts:28-33 | The files after a write, rotated first when due, also after a short write. |
| `RetiredRuntime.EditedSettingsAreSettled` | apps/shell/src/main/retired-runtime.ts:18-42 | The settings edit is settled, with the lease still there and once it is gone. |
| `RetiredRuntime.InterruptionsAreHarmless` | apps/shell/src/main/retired-runtime.ts:10-68 | After any steps and interruptions, partial deletes included, the migration still heads for the outcome of one uninterrupted run. |
| `RetiredRuntime.FinishedAsUninterrupted` | apps/shell/src/main/retired-runtime.ts:10-68 | A finished run leaves the disk of an uninterrupted one, temporaries included, and a further run changes nothing. |
| `RetiredRuntime.OnlyAuthorisedDeletes` | apps/shell/src/main/retired-runtime.ts:51-67 | The caches and the marker are untouched unless there was a verified receipt or marker at first, and never when either is a link. |
| `RetiredRuntime.EveryAdvanceCounts` | apps/shell/src/main/retired-runtime.ts:10-68 | Every step brings the end nearer, so an undisturbed run finishes. |
| `RetiredRuntime.RestartFinishes` | apps/shell/src/main/retired-runtime.ts:10-68 | After any interruption the next start finishes within a bounded number of steps, with the outcome of an uninterrupted run. |
| `RetiredRuntime.OneChangeAtATime` | apps/shell/src/main/retired-runtime.ts:41-67 | A step changes at most one place, takes at most one file from a tree, and puts nothing in place that was not written beside it first. |
| `RetiredRuntime.SettingsEditedExactly` | apps/shell/src/main/retired-runtime.ts:15-40 | The settings after the edit: the runtime's own route goes; the retired choice goes exactly when its route or a lease is there, in favour of the lease's record, else of the first free model listed, else of none; nothing else changes. |
| `RetiredRuntime.LoopbackRouteExactly` | apps/shell/src/main/retired-runtime.ts:23-23 | The routes the runtime wrote, by address. |
| `RetiredRuntime.AuthorisedExactly` | apps/shell/src/main/retired-runtime.ts:59-61 | Deleting needs a verified receipt of the one release, or the marker. |
| `RetiredRuntime.UserData.EditSettingsFile` | apps/shell/src/main/retired-runtime.ts:18-42 | The settings file after the edit, written only when changed. |
| `RetiredRuntime.UserData.RetireRemovedRuntime` | apps/shell/src/main/retired-runtime.ts:10-68 | The migration as written leaves the specified disk and refusal. |
| `PhoenixGateway.AtMostOneLooseChild` | apps/shell/src/main/phoenix-gateway.ts:129-229 | In runs whose restart() calls overlap no launch, restart() or stop(), whatever answers the probes, two children are never both alive and unsignalled, and a timer never pends beside a launch or a waiting restart(). |
| `PhoenixGateway.DeathIsAlwaysAnswered` | apps/shell/src/main/phoenix-gateway.ts:144-181 | In runs without restart(): at all times the gateway is stopped, serves, or has a timer or a launch under way, if and only if every 200 taken before stop() found its child alive. |
| `PhoenixGateway.AttendedUnlessStranded` | apps/shell/src/main/phoenix-gateway.ts:144-223 | With restart() calls: the same at all times if and only if no 200 was believed of a dead child and no restart() gave up waiting, had its launch throw or lost its child. |
| `PhoenixGateway.StrandedForGood` | apps/shell/src/main/phoenix-gateway.ts:216-223 | Once nobody is in charge, nothing is launched, armed or served until restart() or stop() is called. |
| `PhoenixGateway.DeathArmsATimer` | apps/shell/src/main/phoenix-gateway.ts:144-150 | The death of the serving child arms a timer with the current delay. |
| `PhoenixGateway.FailedRelaunchArmsOneTimer` | apps/shell/src/main/phoenix-gateway.ts:156-165 | Each failed relaunch arms exactly one new timer, with the next delay. |
| `PhoenixGateway.DelaysDouble` | apps/shell/src/main/phoenix-gateway.ts:147-154 | Over any run the k-th restart since the last recovery waits min(30 s, base * 2^min(k-1, 6)). |
| `PhoenixGateway.DelaysInFigures` | apps/shell/src/main/phoenix-gateway.ts:147-147 | The delays in milliseconds: the base, then twice the last, up to 64 times the base, never above 30 s. |
| `PhoenixGateway.AnswersStartOver` | apps/shell/src/main/phoenix-gateway.ts:153-155 | Over any run an answer to a relaunch or a restart() starts the count over; the first answer only returns the instance. |
| `PhoenixGateway.EveryEventHasItsEffect` | apps/shell/src/main/phoenix-gateway.ts:129-229 | In any state, event by event: when a child is launched, which child is active or forgotten, which are told to go, how many calls wait, and what ends for good. |
| `PhoenixGateway.NothingLaunchedAfterStop` | apps/shell/src/main/phoenix-gateway.ts:224-229 | After a stop() that no restart() was waiting for, nothing is launched or scheduled whatever happens, and every child is dead or signalled. |
| `PhoenixGateway.LaunchAfterStopExactly` | apps/shell/src/main/phoenix-gateway.ts:216-229 | A stopped gateway can still launch a child if and only if a restart() was waiting when it was stopped. |
| `PhoenixGateway.LateAnswerStrandsTheGateway` | apps/shell/src/main/phoenix-gateway.ts:177-180 | A concrete run in which a 200 after the child's death leaves the gateway stuck for good. |
| `PhoenixGateway.RestartRacesARelaunch` | apps/shell/src/main/phoenix-gateway.ts:156-165 | A restart() during any automatic relaunch can lead to two live unsignalled children with no further call. |
| `PhoenixGateway.RestartRacesExactly` | apps/shell/src/main/phoenix-gateway.ts:216-223 | With no other restart() under way, it can if and only if an automatic relaunch was in progress. |
| `PhoenixGateway.OverlappingRestartsLaunchTwo` | apps/shell/src/main/phoenix-gateway.ts:216-223 | Two restarts that wait at once launch a child each. |
| `PhoenixGateway.FailedRestartStrandsTheGateway` | apps/shell/src/main/phoenix-gateway.ts:219-222 | A concrete restart() that races nothing and whose launch throws leaves no child, no timer and no launch. |
| `PhoenixGateway.RestartOutlivesStop` | apps/shell/src/main/phoenix-gateway.ts:216-229 | A concrete run in which restart() launches after stop(). |
| `PhoenixGatewayObject.Gateway.constructor` | apps/shell/src/main/phoenix-gateway.ts:196-208 | The first launch, or its failure: the whole new state, records changed in place, equals the specification segment's. |
| `PhoenixGatewayObject.Gateway.ScheduleRestart` | apps/shell/src/main/phoenix-gateway.ts:144-168 | Arming the restart timer, or not: the whole new state, records changed in place, equals the specification segment's. |
| `PhoenixGatewayObject.Gateway.Terminate` | apps/shell/src/main/phoenix-gateway.ts:97-100 | Marking and signalling a child: the whole new state, records changed in place, equals the specification segment's. |
| `PhoenixGatewayObject.Gateway.LaunchAndWait` | apps/shell/src/main/phoenix-gateway.ts:129-139 | A new record, active and polled: the whole new state, records changed in place, equals the specification segment's. |
| `PhoenixGatewayObject.Gateway.OnRejected` | apps/shell/src/main/phoenix-gateway.ts:156-165 | What the awaiter does with a failed launch: the whole new state, records changed in place, equals the specification segment's. |
| `PhoenixGatewayObject.Gateway.OnResolved` | apps/shell/src/main/phoenix-gateway.ts:153-155 | What the awaiter does with a successful launch: the whole new state, records changed in place, equals the specification segment's. |
| `PhoenixGatewayObject.Gateway.EndLaunch` | apps/shell/src/main/phoenix-gateway.ts:190-192 | The end of the catch block: the whole new state, records changed in place, equals the specification segment's. |
| `PhoenixGatewayObject.Gateway.OnExit` | apps/shell/src/main/phoenix-gateway.ts:169-170 | The exit and error handlers: the whole new state, records changed in place, equals the specification segment's. |
| `PhoenixGatewayObject.Gateway.OnHealthy` | apps/shell/src/main/phoenix-gateway.ts:178-181 | A 200 from the health route: the whole new state, records changed in place, equals the specification segment's. |
| `PhoenixGatewayObject.Gateway.OnLaunchFailure` | apps/shell/src/main/phoenix-gateway.ts:188-190 | The start of the catch block: the whole new state, records changed in place, equals the specification segment's. |
| `PhoenixGatewayObject.Gateway.OnTimer` | apps/shell/src/main/phoenix-gateway.ts:150-153 | The restart timer: the whole new state, records changed in place, equals the specification segment's. |
| `PhoenixGatewayObject.Gateway.Stop` | apps/shell/src/main/phoenix-gateway.ts:224-227 | stop() up to its wait: the whole new state, records changed in place, equals the specification segment's. |
| `PhoenixGatewayObject.Gateway.StopSettled` | apps/shell/src/main/phoenix-gateway.ts:227-228 | stop() after its wait: the whole new state, records changed in place, equals the specification segment's. |
| `PhoenixGatewayObject.Gateway.LaunchAsked` | apps/shell/src/main/phoenix-gateway.ts:219-222 | The launch of restart(): the whole new state, records changed in place, equals the specification segment's. |
| `PhoenixGatewayObject.Gateway.Restart` | apps/shell/src/main/phoenix-gateway.ts:216-221 | restart() up to its wait: the whole new state, records changed in place, equals the specification segment's. |
| `PhoenixGatewayObject.Gateway.RestartSettled` | apps/shell/src/main/phoenix-gateway.ts:219-222 | restart() after its wait: the whole new state, records changed in place, equals the specification segment's. |
| `PhoenixGatewayObject.Gateway.Deliver` | apps/shell/src/main/phoenix-gateway.ts:144-229 | Delivering any event to the object is the step of the specification. |
| `PhoenixGatewayObject.Gateway.EventLoop` | apps/shell/src/main/phoenix-gateway.ts:144-229 | Whatever events come to a new gateway, its state is that of the run the results are about. |
| `RefreshState.LoadingWhileRunning` | apps/shell/src/main/model-refresh-state.ts:40-49 | The published state is loading iff some run has not ended. |
| `RefreshState.RevisionsAlternate` | apps/shell/src/main/model-refresh-state.ts:19-32 | Listeners see revisions 1, 2, 3, ... alternately loading and idle. |
| `RefreshState.OneRunPerHold` | apps/shell/src/main/model-refresh-state.ts:70-74 | A hold contributes exactly one run however often it is called. |
| `RefreshState.TimersReleaseTheirOwnHold` | apps/shell/src/main/model-refresh-state.ts:75-81 | A pending timer belongs to the hold in force and never releases a later one. |
| `RefreshState.RefreshStore.PublishStatus` | apps/shell/src/main/model-refresh-state.ts:19-24 | The next revision: the whole new state equals the specification's. |
| `RefreshState.RefreshStore.BeginOperation` | apps/shell/src/main/model-refresh-state.ts:40-42 | Entering a run: the whole new state equals the specification's. |
| `RefreshState.RefreshStore.EndOperation` | apps/shell/src/main/model-refresh-state.ts:45-48 | Leaving a run: the whole new state equals the specification's. |
| `RefreshState.RefreshStore.HoldLoading` | apps/shell/src/main/model-refresh-state.ts:70-82 | hold(): the whole new state equals the specification's. |
| `RefreshState.RefreshStore.ReleaseHold` | apps/shell/src/main/model-refresh-state.ts:83-85 | release(): the whole new state equals the specification's. |
| `RefreshState.RefreshStore.HoldTimer` | apps/shell/src/main/model-refresh-state.ts:75-75 | The hold's timer: the whole new state equals the specification's. |
| `SingleFlight.OperationsNeverOverlap` | apps/shell/src/main/single-flight.ts:2-17 | Operations never overlap, and a new one begins only when none is unforgotten. |
| `SingleFlight.Coalescer.Request` | apps/shell/src/main/single-flight.ts:5-16 | A caller gets the flight in the air, or a new one. |
| `SingleFlight.Coalescer.ForgetFlight` | apps/shell/src/main/single-flight.ts:11-13 | Only the current flight is forgotten. |
| `ManagedPatch.MergeKeepsUserText` | apps/shell/src/main/mcp-home.ts:225-231 | A merge keeps the text before and after the block (up to trailing space on first insertion), and finds its own block next time. |
| `ManagedPatch.MergeIsIdempotent` | apps/shell/src/main/mcp-home.ts:225-231 | merge(merge(e, g1), g2) = merge(e, g2). |
| `ManagedPatch.MergeIsIdempotentWhenClean` | apps/shell/src/main/mcp-home.ts:225-231 | merge(merge(e, g), g) = merge(e, g) iff e has a block or no begin marker. |
| `ManagedPatch.ExactlyOneBlock` | apps/shell/src/main/mcp-home.ts:225-231 | Exactly one begin marker is left, where the block starts. |
| `ManagedPatch.StrayMarkerSwallowsText` | apps/shell/src/main/mcp-home.ts:225-231 | With a begin marker and no end marker after it, the second merge deletes everything from that marker on. |
| `ManagedPatch.ExpandsToItselfExactly` | apps/shell/src/main/mcp-home.ts:228-228 | A replacement text stands for itself, whatever it replaces, if and only if it holds no replacement pattern. |
| `ManagedPatch.PatternsExpand` | apps/shell/src/main/mcp-home.ts:228-228 | What each replacement pattern of String.prototype.replace stands for. |
| `ManagedPatch.OneLineEnd` | apps/shell/src/main/mcp-home.ts:226-226 | Exactly one line ending goes with the block. |
| `ManagedPatch.NormalizedEnds` | apps/shell/src/main/mcp-home.ts:227-227 | What is written ends in a line feed, its own or the one added. |
| `ManagedPatch.ReplacingExactlyWhenLiteral` | apps/shell/src/main/mcp-home.ts:225-231 | Writing a text over any earlier catalog in any clean file gives what writing it alone gives, if and only if it holds no replacement pattern. |
| `ManagedPatch.CatalogReplacesExactlyWhenLiteral` | apps/shell/src/main/mcp-home.ts:177-231 | For a rendered catalog: if and only if no field of any server holds one. |
| `ManagedPatch.DollarPairsAreHalved` | apps/shell/src/main/mcp-home.ts:177-231 | A server whose argument holds `$$`: the first insertion keeps it, and rewriting any earlier catalog in any clean file without a block loses a dollar sign. |
| `ManagedPatch.RenderedIsABlock` | apps/shell/src/main/mcp-home.ts:177-213 | What is rendered for servers without `#` is a block, and free of replacement patterns if and only if every field is. |
| `ManagedPatch.RewritingTheCatalog` | apps/shell/src/main/mcp-home.ts:177-231 | Writing a catalog without patterns again keeps the user's text and leaves one current block. |
| `ManagedPatch.RenderManagedPatch` | apps/shell/src/main/mcp-home.ts:177-213 | The loop renders the specified text. |
| `PatchText.JsonReadsBack` | apps/shell/src/main/mcp-home.ts:173-175 | A string written as JSON reads back by section 7 of RFC 8259, whatever follows it. |
| `PatchText.ServerReadsBack` | apps/shell/src/main/mcp-home.ts:183-210 | The lines of a server read as that server, whatever follows them. |
| `PatchText.CatalogReadsBack` | apps/shell/src/main/mcp-home.ts:177-213 | For all servers: the rendered text reads as exactly those servers with all their fields, so no field ends its line or its quotes. |
| `PatchText.RenderingIsInjective` | apps/shell/src/main/mcp-home.ts:177-213 | Catalogs that render alike are the same. |

## Left out

- Electron windows, menus, dialogs, preload, IPC schemas and translation: user interface with easy clamps at most.
- HTTP, tar extraction, SHA-256, attestation, YAML and JSON text, the `semver` library: a profile is a list of entries over mappings with distinct keys, a digest is an uninterpreted fact.
- `checkHarnessRelease`: a filter and a maximum under an order that the `semver` library decides.
- Real time and doubles: clocks, delays and version numbers are mathematical integers; a numeric version component beyond 2^53 loses precision in the code and not here.
- Latency order in the non-strict lane: its one-millisecond tolerance makes ties non-transitive, so only the exact-list lane is modelled; its list fallbacks are not part of this model.
- keytar and PowerShell secret stores, the single-instance lock, git, uvx and caveman resolvers, chat importers, port picking: wrappers.
- Listener callbacks: a ready or stuck listener that calls back into the supervisor while it is being notified is not modelled; one that throws out of a failed launch is.
- The supervisor's output buffer: whether a chunk completes a ready line is the environment's choice.
- RuntimePromotion: the version string read after validation is part of the validity predicate; two runs never share a process id and time stamp.
- RuntimePromotion.PromotionEndsInOneOfThreeWays: requires that `exists` tells the truth; what holds when it does not is in `RuntimePromotion.PromotionUnderAnyFates` and `RuntimePromotion.RethrownMeansAsBeforeExactly`. Backup names are taken to be unused, which the process id and the time in them are for.
- SecretVault: base64 text with padding in its middle, which Node decodes by its own rules, is not distinguished from other corrupt text.
- HarnessSettings: the copy of the legacy settings file and its two deleted sections are not part of this model; a read takes any legacy settings. A selection's provider is a string or absent.
- HarnessSettings: the routes other refresh targets write are arbitrary values under other names.
- CatalogRefresh: prototype names as provider keys are not modelled.
- RetiredRuntime: provider and model lists of unexpected shape, on which the code throws before it changes anything, are not modelled; links are looked for once, as in the code.
- PhoenixGateway.AtMostOneLooseChild: a `restart()` while the child of an earlier `restart()` is still polled is not covered.
- PhoenixGateway: the SIGTERM and SIGKILL waits are one wait that ends in a close or in giving up.
- ManagedPatch.RenderedIsABlock: server fields that hold a `#`, with which a marker starts, are not covered.
- ManagedPatch: a server text is arbitrary up to the escaping of JSON strings, which is modelled character by character without lone-surrogate escapes.
