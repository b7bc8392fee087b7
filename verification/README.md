# Dash OTA, verified

A Dafny model of an over-the-air update system for React Native apps, with proofs of what it promises.
It follows a release all the way: built and sealed by the publisher, uploaded and finalized on the
backend, offered to devices, downloaded and assembled, committed to a slot, tried at the next launch,
and reported back. `dafny verify dfyconfig.toml` checks everything.

## What is modelled

| files | part of the system |
|---|---|
| `SlotModel`, `SlotStore` | the on-device slot store: four slots, trial counters, marks and directories. `SlotModel` says what each operation does as a function of the disk; `SlotStore` has the methods, every single write recorded in a log, so that contracts speak about a kill between any two writes |
| `SlotRuns`, `SlotTheorems`, `Fallbacks`, `Excuses`, `CrashLoops`, `Recommits` | whole runs of a device: launches, downloads, calls, binary changes, and kills inside any of them; one invariant of the saved state and one of the disk, what they mean for users, and the runs that show where the second ends |
| `Ranges`, `Transfer` | one blob over the network: resuming by byte range against any server |
| `Assembly`, `IosAssembly` | the download pipelines of the two platforms |
| `Paths`, `Spots` | the three path checkers and where an accepted path lands; when two paths are one file |
| `Backend`, `BackendStore` | the release table, the shared blob store and the publishing client among other clients |
| `Cache`, `Replay`, `Confirm`, `Acceptance` | the expiring cache, replay protection, and report accounting with auto-pause |
| `Release`, `ReleaseOrder`, `ReleaseWitness`, `Zstd` | building, sealing and verifying a release; how far the listing of its files decides it; a release the verifier gets wrong; the compressed-frame header |
| `CanonicalJson`, `JsonText`, `JsonNumbers`, `JsonReader`, `JsonOrder` | the text that is signed; a reader of it |
| `Selection`, `Delivery` | which release a device is offered, what it can fetch, and that its gates let it pass |
| `Arrangements`, `Common` | stable sorting; shared types |

Where the code updates in place, the model is a class with the same fields and loops, proved against a
pure function of the old state; the properties are lemmas about those functions and about runs of them.

## What the proofs found

These promises hold only under a condition. Each is proved with its exact condition, and where the
code can leave it, with an input or a run that does.

- Committing a download is crash safe if and only if no slot already names the bundle id being committed:
  otherwise a kill between deleting the old directory and the rename loses a slot the state still names
  (`SlotStore.DashOtaStore.CommitStaged`). A run shows what follows: the bundle is tried and disabled without ever
  having run (`Recommits.KillInTheWindowLosesTheBundle`). What turns on the saved state alone survives even that kill.
- For the same reason the bundle a process runs stays on disk at every moment if and only if the process
  does not commit that bundle again (`SlotTheorems.RunningBundleStaysExactly`, `Recommits.RunningBundleCanDisappear`).
- Promotion checks neither version nor the disabled list. Right after a commit that is harmless, but
  applying an update by hand may promote what an earlier process staged, and a reachable run ends with a
  disabled bundle running again (`SlotTheorems.PromotionIsSafeExactly`, `CrashLoops.StaleStagedBundleIsReachable`).
- The files of a release are sorted by a comparison that calls some different paths equal, so the manifest is
  independent of how they are listed if and only if no two paths tie (`ReleaseOrder.InputOrderDoesNotMatterExactly`,
  `ReleaseOrder.TiedPathsFollowTheListing`), and the blobs if and only if tied files with the same contents make one
  blob (`ReleaseOrder.ListingDecidesBlobsExactly`).
- The reference verifier caches plaintext by the hash of the stored blob, so the build and verify round
  trip is exact if and only if no two different contents are stored as the same bytes (`Release.RoundTripExactly`,
  `ReleaseWitness.VerifierReturnsTheWrongFile`).
- For the same reason the reference verifier returns only signed contents if and only if the manifest gives
  entries with one blob one hash and size, which its shape check does not look at (`Release.VerifiedFilesAreSignedExactly`).
- iOS measures a downloaded file but not a reused one (`IosAssembly.EnteredIsRightExactly`).
- The path checkers are documented to agree. iOS cuts paths into user-perceived characters, and a slash that is
  only part of one does not separate segments for it: such a path can be accepted and leave the directory
  (`Paths.StaysBelowExactly`, `Paths.IosPathCanEscape`). iOS also refuses a colon as second character after one
  that is not a letter, and Android accepts drive letters (`Paths.CheckersAgreeExactly`, `Paths.CheckersDisagree`).
- Because of such slashes two different paths that iOS accepts can be one file, and then the later entry replaces the
  earlier one's: a download that succeeds gives every entry its signed hash if and only if no two entries promise
  different hashes for one file (`Spots.IosPathsCanCoincide`, `Spots.SameFileExactly`,
  `IosAssembly.IosDownloader.DownloadAndStage`, `IosAssembly.AcceptedPathsCanShareAFile`). The same condition decides
  for paths that everybody accepts but the file system folds into one name (`IosAssembly.EquivalentPathsCanShareAFile`).
- A download can be refused although the server has every blob: when a file is signed to be empty, or has the name of a
  later entry's temporary file, the commit misses it (`Assembly.NoneIsInTheWay`, `IosAssembly.NameInTheWayIsLost`).
- Staging directories are documented to survive process death; the launch sweep deletes every one that
  no slot names (`SlotTheorems.SweepIsExact`).
- A byte range that is answered is in bounds if and only if the blob is not empty (`Ranges.RangeIsInBounds`).
- Replay is stopped if and only if nonces live at least twice the timestamp skew (`Replay.ReplayIsStoppedExactly`).
- Failure markers of two installs can coincide if and only if one id is the other or continues it after a colon
  (`Confirm.FailureKeysCollideExactly`).
- A property named `__proto__` is missing from the signed text (`JsonText.ProtoPropertyIsLost`).

## Assumptions

- SHA-256 has no collisions among the values involved; encryption and decryption, and compression and
  decompression, are inverse pairs, and a compressed frame declares the size of its contents. In
  `Release` these are stated for the files and blobs of the release at hand, and `ReleaseWitness.LawsCanBeMet` shows that the laws
  of the primitives can be met.
- One method of a store is one atomic step with one reading of a clock that never goes back. The code
  awaits between its reads and writes, and several of the invariants fail under finer interleaving.
- A rename within the app's directory is atomic.
- A bundle id a device sees stands for one release, of version at least 1, and its manifest lists the bundle file at
  the root (`index.android.bundle`): `SlotRuns.Enabled` begins no other download.
- Every process of the app begins with one launch resolution, and promotion runs in the process that
  committed, as the provider runs the two (`packages/rn/src/DashOtaProvider.tsx:156-170`).
- Tokens are never issued twice. The publisher's path comparison decides every pair and is transitive.
- How text falls into user-perceived characters is a parameter of the path checkers; the accent of
  `Paths.AccentJoins` is the one rule of it that a witness uses.
- Which names the iOS file system takes for one is a parameter of its pipeline (`IosAssembly.Folding`). Android's takes
  different names for different files.
- A finite number is represented by the decimal text the language gives it, which equal numbers share and which is a
  number of the JSON grammar. The tokens the server issues have no colon.

## Model

| member | source | states |
|---|---|---|
| `SlotStore.DashOtaStore.LoadState` | packages/rn/android/src/main/java/com/dashota/DashOtaStore.kt:55-82 | a missing, unreadable or other-schema state file reads as the fresh state, and an unreadable one is deleted |
| `SlotStore.DashOtaStore.SaveState` | packages/rn/android/src/main/java/com/dashota/DashOtaStore.kt:84-92 | the state file changes in one step, the rename: a kill before it leaves the old state and at most a torn temporary file |
| `SlotStore.DashOtaStore.PromoteStagedToPending` | packages/rn/android/src/main/java/com/dashota/DashOtaStore.kt:246-253 | staged becomes pending and staged is cleared, or nothing changes; every image a kill can leave is the old or the new one |
| `SlotStore.DashOtaStore.MarkHealthy` | packages/rn/android/src/main/java/com/dashota/DashOtaStore.kt:256-263 | the running bundle becomes last-known-good and its trial ends; kills leave old or new |
| `SlotStore.DashOtaStore.Rollback` | packages/rn/android/src/main/java/com/dashota/DashOtaStore.kt:266-274 | current falls back to last-known-good and pending is dropped; kills leave old or new |
| `SlotStore.DashOtaStore.MarkUserReload` | packages/rn/android/src/main/java/com/dashota/DashOtaStore.kt:413-417 | the next launch is marked as asked for; kills leave old or new |
| `SlotStore.DashOtaStore.ConsumeFailedReport` | packages/rn/android/src/main/java/com/dashota/DashOtaStore.kt:435-443 | returns the failed bundle and clears it |
| `SlotStore.DashOtaStore.ConsumeAppliedReport` | packages/rn/android/src/main/java/com/dashota/DashOtaStore.kt:446-454 | returns the applied bundle and clears it |
| `SlotStore.DashOtaStore.WriteMarks` | packages/rn/android/src/main/java/com/dashota/DashOtaStore.kt:148-154 | the marks file is rewritten in place, so a kill can lose every mark |
| `SlotStore.DashOtaStore.MarkBeacon` | packages/rn/android/src/main/java/com/dashota/DashOtaStore.kt:98-128 | one mark per process, written once |
| `SlotStore.DashOtaStore.MarkPaused` | packages/rn/android/src/main/java/com/dashota/DashOtaStore.kt:104-128 | one mark per process, written once |
| `SlotStore.DashOtaStore.ClearPaused` | packages/rn/android/src/main/java/com/dashota/DashOtaStore.kt:111-118 | coming back to the foreground takes the pause mark back |
| `SlotStore.DashOtaStore.ConsumeLaunchMarks` | packages/rn/android/src/main/java/com/dashota/DashOtaStore.kt:131-146 | the previous process's marks are returned and reset |
| `SlotStore.DashOtaStore.DeleteRecursively` | packages/rn/android/src/main/java/com/dashota/DashOtaStore.kt:195 | files go one at a time in any order, then the directory; nothing outside that directory changes at any point |
| `SlotStore.DashOtaStore.Sweep` | packages/rn/android/src/main/java/com/dashota/DashOtaStore.kt:483-494 | exactly the directories not in the keep set are gone, and at no point has a kept one been touched |
| `SlotStore.DashOtaStore.Gc` | packages/rn/android/src/main/java/com/dashota/DashOtaStore.kt:483-494 | both directories are swept down to what some slot names |
| `SlotStore.DashOtaStore.MoveIntoPlace` | packages/rn/android/src/main/java/com/dashota/DashOtaStore.kt:194-200 | the old directory of that id disappears file by file, then the staged one takes its name in one step |
| `SlotStore.DashOtaStore.CommitStaged` | packages/rn/android/src/main/java/com/dashota/DashOtaStore.kt:171-218 | commits if and only if every promised file is there and not empty; and a kill anywhere leaves every slot the saved state names complete if and only if no slot already names the committed id |
| `SlotStore.DashOtaStore.Publish` | packages/rn/android/src/main/java/com/dashota/DashOtaStore.kt:194-217 | the moved directory is recorded as staged; what a kill leaves before, between and after is spelled out |
| `SlotStore.DashOtaStore.DropIncompatibleSlots` | packages/rn/android/src/main/java/com/dashota/DashOtaStore.kt:288-314 | every slot of another binary is dropped and the trial counters reset, or nothing is saved |
| `SlotStore.DashOtaStore.PrepareLaunch` | packages/rn/android/src/main/java/com/dashota/DashOtaStore.kt:320-351 | drop, consume both markers, sweep: the state and the disk before a launch decides |
| `SlotStore.DashOtaStore.ResolveBundleAtLaunch` | packages/rn/android/src/main/java/com/dashota/DashOtaStore.kt:320-407 | the whole launch: the saved state, the swept disk and the bundle returned, and every image a kill inside it can leave |
| `SlotStore.DashOtaStore.ChooseBundle` | packages/rn/android/src/main/java/com/dashota/DashOtaStore.kt:353-406 | apply pending on trial, trip the breaker, charge or refund an attempt, or boot the healthy bundle |
| `SlotStore.DashOtaStore.PathOf` | packages/rn/android/src/main/java/com/dashota/DashOtaStore.kt:461-469 | the bundle file is loaded only if it exists; otherwise the embedded bundle runs |
| `SlotStore.DashOtaStore.HaveFiles` | packages/rn/android/src/main/java/com/dashota/DashOtaStore.kt:227-243 | a hash is offered for reuse if and only if current or last-known-good lists it and has the file, with that file's bytes |
| `SlotStore.BundleLoader.GetBundleFile` | packages/rn/android/src/main/java/com/dashota/DashOtaBundleLoader.kt:29-39 | the first read of a process launches; every later one returns the same answer and touches nothing, so an attempt is charged once |
| `SlotStore.CommitCrashSafety` | packages/rn/android/src/main/java/com/dashota/DashOtaStore.kt:171-218 | over any log of kill points of a commit: all are safe if and only if no slot names the id being committed |
| `SlotModel.ApplyMidIsOldOrNew` | packages/rn/android/src/main/java/com/dashota/DashOtaStore.kt:84-92 | a kill inside any small operation leaves the old state or the new disk |
| `SlotModel.CommitMidIsOldOrNew` | packages/rn/android/src/main/java/com/dashota/DashOtaStore.kt:194-217 | until the state file is renamed over, only directories of the committed id differ |
| `SlotModel.LaunchMidIsOldOrNew` | packages/rn/android/src/main/java/com/dashota/DashOtaStore.kt:320-407 | a kill inside a launch leaves the found state, the state with the incompatible slots dropped, or the finished launch |
| `SlotRuns.EveryRunIsGood` | packages/rn/android/src/main/java/com/dashota/DashOtaStore.kt:171-494 | the invariant of the saved state, over every run with downloads, calls, binary changes and kills anywhere: slots genuine, versions ordered, no disabled bundle in current, last-known-good or pending, attempts at most two |
| `SlotRuns.UndisturbedRunsAreWhole` | packages/rn/android/src/main/java/com/dashota/DashOtaStore.kt:171-494 | the invariant of the disk: every bundle the saved state names, and the one that runs, is whole, unless a kill fell inside a commit that was replacing a directory the saved state names |
| `SlotRuns.StepKeepsGood` | packages/rn/android/src/main/java/com/dashota/DashOtaStore.kt:171-494 | every event, finished or killed anywhere, keeps the invariant of the saved state |
| `SlotRuns.StepKeepsWhole` | packages/rn/android/src/main/java/com/dashota/DashOtaStore.kt:171-494 | every event, finished or killed outside that window, keeps the invariant of the disk |
| `SlotRuns.KilledCommitIsSafeExactly` | packages/rn/android/src/main/java/com/dashota/DashOtaStore.kt:194-217 | a commit killed at any point at all leaves every named bundle whole if and only if no slot names its id or that directory is whole at that moment |
| `SlotRuns.DropIsAllOrNothing` | packages/rn/android/src/main/java/com/dashota/DashOtaStore.kt:298-314 | all slots were stamped by one binary, so another binary drops all of them or none |
| `SlotRuns.DecideKeepsGood` | packages/rn/android/src/main/java/com/dashota/DashOtaStore.kt:353-406 | the launch decision keeps the invariant, names no new bundle, forgets no disabled one, and boots what it records as current |
| `SlotTheorems.LaunchBootsNoOtherBundle` | packages/rn/android/src/main/java/com/dashota/DashOtaStore.kt:320-407 | in every run a launch boots the bundle it records as current, which this binary can load and which is not disabled, or the embedded one |
| `SlotTheorems.LaunchBootsWhatTheStateNames` | packages/rn/android/src/main/java/com/dashota/DashOtaStore.kt:320-407 | in a run without a kill in that window it boots the bundle the saved state names, with the signed bytes, and the embedded one only when the state names none |
| `SlotTheorems.RunningBundleStaysExactly` | packages/rn/android/src/main/java/com/dashota/DashOtaStore.kt:471-482 | in such a run, at every moment inside every event the bundle a live process runs is whole on disk, if and only if the event is not a commit of that very bundle |
| `Recommits.RunningBundleCanDisappear` | packages/rn/android/src/main/java/com/dashota/DashOtaStore.kt:194-200 | a reachable run (install, run, roll back, install again) in which the running bundle is not on disk inside a commit |
| `Recommits.KillInTheWindowLosesTheBundle` | packages/rn/android/src/main/java/com/dashota/DashOtaStore.kt:194-217 | a run with such a kill: the bundle that was pending is put on trial without its directory, the embedded bundle boots three times, and the bundle is disabled without ever having run |
| `SlotTheorems.DisabledNeverRunsAgain` | packages/rn/android/src/main/java/com/dashota/DashOtaStore.kt:375-393 | once disabled, a bundle is never current and never runs again in the rest of the run, whatever is killed |
| `SlotTheorems.VersionsStayOrdered` | packages/rn/android/src/main/java/com/dashota/DashOtaStore.kt:246-314 | last-known-good <= current < pending in every reachable state, and all slots match the running binary |
| `SlotTheorems.SweepIsExact` | packages/rn/android/src/main/java/com/dashota/DashOtaStore.kt:483-494 | a launch leaves exactly the directories the found state names and this binary can load |
| `SlotTheorems.AtMostFourDirectories` | packages/rn/android/src/main/java/com/dashota/DashOtaStore.kt:483-494 | at most four bundle directories survive a launch |
| `SlotTheorems.DemotedBundleOutlivesTheLaunch` | packages/rn/android/src/main/java/com/dashota/DashOtaStore.kt:476-482 | in a run without a kill in that window, the directory of the bundle a launch demotes is still whole after that launch |
| `SlotTheorems.OrphanIsSwept` | packages/rn/android/src/main/java/com/dashota/DashOtaStore.kt:491-493 | a killed commit recorded its bundle or left the state alone, and the next launch keeps the directory it left if and only if a slot this binary can load names it |
| `SlotTheorems.BreakerTripsExactly` | packages/rn/android/src/main/java/com/dashota/DashOtaStore.kt:372-393 | a launch disables a bundle if and only if it is current on trial with two attempts, nothing is pending, the binary matches and the marks do not excuse the last process |
| `SlotTheorems.SecondAttemptHasACause` | packages/rn/android/src/main/java/com/dashota/DashOtaStore.kt:372-396 | a second attempt was charged by an earlier launch of the same uninterrupted trial that nothing excused |
| `SlotTheorems.BreakerNeedsTwoUnforgivenEnds` | packages/rn/android/src/main/java/com/dashota/DashOtaStore.kt:334-403 | a bundle is disabled only after two launches of one trial that found no pair of marks, the first of which nobody had asked for |
| `Fallbacks.LastKnownGoodStands` | packages/rn/android/src/main/java/com/dashota/DashOtaStore.kt:256-274 | in every run last-known-good is exactly the bundle that was last marked healthy and that no launch has since used up or dropped |
| `Fallbacks.BreakerFallsBackExactly` | packages/rn/android/src/main/java/com/dashota/DashOtaStore.kt:375-393 | a launch that disables a bundle makes exactly that one current, on trial with one attempt and nothing behind it, or nothing if there is none |
| `Fallbacks.BreakerBootsExactly` | packages/rn/android/src/main/java/com/dashota/DashOtaStore.kt:385-392 | and boots it with every signed byte; the embedded bundle runs if and only if no bundle marked healthy still stands |
| `Fallbacks.RollbackFallsBackExactly` | packages/rn/android/src/main/java/com/dashota/DashOtaStore.kt:266-274 | so does a rollback, off trial, giving up what was pending |
| `Fallbacks.HealthyIsOffTrial` | packages/rn/android/src/main/java/com/dashota/DashOtaStore.kt:256-263 | marking healthy ends the trial of the current bundle and touches nothing else that is waiting |
| `Excuses.LeavingCostsNothing` | packages/rn/android/src/main/java/com/dashota/DashOtaStore.kt:334-403 | after a process that reached its runtime and was then left, a launch neither disables nor charges the bundle on trial, even on its last attempt |
| `Excuses.AskingCostsNothing` | packages/rn/android/src/main/java/com/dashota/DashOtaStore.kt:327-403 | a launch the user asked for charges no attempt, and excuses no later one |
| `Excuses.CrashCosts` | packages/rn/android/src/main/java/com/dashota/DashOtaStore.kt:334-403 | after a process that never reached its runtime or was never left, a launch nobody asked for charges an attempt, or disables the bundle on its last one |
| `Excuses.CauseIsReported` | packages/rn/android/src/main/java/com/dashota/DashOtaStore.kt:375-454 | what a launch disabled or applied is what the next read returns, however long that takes |
| `SlotTheorems.ReportedOncePerCause` | packages/rn/android/src/main/java/com/dashota/DashOtaStore.kt:435-454 | between two reads that return a report there is a launch that caused the second |
| `SlotTheorems.PromotionIsSafeExactly` | packages/rn/android/src/main/java/com/dashota/DashOtaStore.kt:246-253 | after a promotion the next launch boots the staged bundle, and that is a disabled or not newer one if and only if the promotion should have refused it |
| `SlotTheorems.PromotionKeepsGoodExactly` | packages/rn/android/src/main/java/com/dashota/DashOtaStore.kt:246-253 | promotion keeps the invariant under exactly that condition |
| `CrashLoops.MeasureFalls` | packages/rn/android/src/main/java/com/dashota/DashOtaStore.kt:353-403 | slots left to try and attempts left fall with every launch that nothing excuses |
| `CrashLoops.CrashLoopEndsOnEmbedded` | packages/rn/android/src/main/java/com/dashota/DashOtaStore.kt:353-403 | the fifth such launch and every later one boot the embedded bundle, whatever else happens in between, kills anywhere included |
| `CrashLoops.HealthyBundleIsNeverReverted` | packages/rn/android/src/main/java/com/dashota/DashOtaStore.kt:404-406 | a bundle marked healthy is never reverted, however often it crashes |
| `CrashLoops.StaleStagedBundleIsReachable` | packages/rn/src/DashOtaProvider.tsx:311-328 | a concrete run after which promoting what is staged, as applying an update by hand does, boots a disabled bundle |
| `Transfer.PartFiles.DownloadBlob` | packages/rn/android/src/main/java/com/dashota/DashOtaModule.kt:387-434 | the part file and the outcome of one request against any server, from any leftover |
| `Transfer.PartFiles.Receive` | packages/rn/android/src/main/java/com/dashota/DashOtaModule.kt:417-430 | chunks are appended until the first one past the signed size |
| `Transfer.DoneHasTheExpectedSize` | packages/rn/android/src/main/java/com/dashota/DashOtaModule.kt:393-428 | a normal return leaves a file of the signed size |
| `Transfer.PartIsAlwaysAPrefix` | packages/rn/android/src/main/java/com/dashota/DashOtaModule.kt:387-434 | after any sequence of interrupted attempts the part file is a prefix of the blob |
| `Transfer.ResumeIsExact` | packages/backend/src/routes.ts:350-367 | an attempt that returns normally after any interrupted ones leaves exactly the blob |
| `Transfer.NoByteIsLost` | packages/rn/android/src/main/java/com/dashota/DashOtaModule.kt:405-426 | bytes received are in the part file or were thrown away by a 200 that restarted it |
| `Transfer.NoByteIsReceivedTwice` | packages/rn/android/src/main/java/com/dashota/DashOtaModule.kt:405-426 | when every answer to a resume is a 206, the bytes received are exactly those the part file gained |
| `Transfer.WholeAnswerFinishes` | packages/rn/android/src/main/java/com/dashota/DashOtaModule.kt:387-434 | whatever an earlier attempt left, an answer to the request for the rest that is not cut off completes the blob |
| `Transfer.RouteDelivers` | packages/backend/src/routes.ts:350-367 | the route gives such answers, and to a resume only the missing bytes |
| `Ranges.RangeIsInBounds` | packages/backend/src/http.ts:126-144 | an answered range lies inside the blob if and only if the blob is not empty |
| `Ranges.EmptyBlobIsOutOfBounds` | packages/backend/src/http.ts:133-137 | the last five bytes of an empty blob are answered as a range that ends before it starts |
| `Ranges.ResumeAsksForTheRest` | packages/backend/src/http.ts:126-144 | the header of a resume is read as exactly the missing bytes |
| `Ranges.RangeIsReadAsWritten` | packages/backend/src/http.ts:126-144 | a header for the bytes from a to b is read as those of them that exist |
| `Ranges.SuffixIsReadAsWritten` | packages/backend/src/http.ts:133-137 | a header for the last n bytes is read as those, or as all |
| `Assembly.Downloader.CheckGates` | packages/rn/android/src/main/java/com/dashota/DashOtaModule.kt:119-192 | a download starts if and only if every gate is passed, and a refusal names a gate that fails |
| `Assembly.Downloader.FetchPlaintext` | packages/rn/android/src/main/java/com/dashota/DashOtaModule.kt:251-299 | the blob that came back is decrypted and unpacked exactly if it has the signed hash, and every refusal has its cause in what came back |
| `Assembly.Downloader.AssembleEntry` | packages/rn/android/src/main/java/com/dashota/DashOtaModule.kt:208-316 | whichever branch an entry takes, its file ends up with the signed hash and size, and no other file is added or changed; it goes through whenever the file can be had, and a failure says what failed |
| `Assembly.Downloader.AssembleAll` | packages/rn/android/src/main/java/com/dashota/DashOtaModule.kt:203-320 | after the loop every entry that is the last for its path is right, if it is there |
| `Assembly.Downloader.DownloadAndStage` | packages/rn/android/src/main/java/com/dashota/DashOtaModule.kt:110-331 | success: every manifest file is in the committed slot with its signed hash and size; failure: the saved state and every slot are as before, and the code names a gate that fails or an entry and its fault. It succeeds when the gates pass, slot files offered for reuse are right, the server completes the signed blobs, no file is signed to be empty and none has the name of a later one's temporary file |
| `Assembly.DownloadMatchesTheRun` | packages/rn/android/src/main/java/com/dashota/DashOtaModule.kt:119-322 | a download that succeeds is exactly the commit event of the run model |
| `IosAssembly.IosDownloader.CheckGates` | packages/rn/ios/DashOtaImpl.swift:137-194 | a download starts if and only if every gate is passed |
| `IosAssembly.IosDownloader.HaveFiles` | packages/rn/ios/DashOtaStore.swift:140-162 | a hash is offered for reuse if and only if current or last-known-good lists a path for it that leads to a file, with that file's bytes |
| `IosAssembly.IosDownloader.AssembleEntry` | packages/rn/ios/DashOtaImpl.swift:212-307 | one entry, by the branch the code takes, with the directory it leaves, keyed by what a path stands for |
| `IosAssembly.IosDownloader.CommitStaged` | packages/rn/ios/DashOtaStore.swift:164-206 | commits if and only if every promised path leads to a file that is not empty; otherwise the staging directory is dropped |
| `IosAssembly.IosDownloader.DownloadAndStage` | packages/rn/ios/DashOtaImpl.swift:137-315 | success with paths that stay in their directory: no promised path is missing, each file has the hash of the last entry that leads to it, and its size unless reused; and every entry has its signed hash if and only if no two of them promise different hashes for one file. Failure: nothing saved changes. It succeeds under the same conditions as on Android |
| `IosAssembly.NameInTheWayIsLost` | packages/rn/ios/DashOtaImpl.swift:257-306 | a file under the name of a later entry's temporary file is gone once that entry is downloaded, so the commit misses it |
| `IosAssembly.EveryHashExactly` | packages/rn/ios/DashOtaImpl.swift:219-306 | that condition, for any directory in which the last entry for each file is right |
| `IosAssembly.AcceptedPathsCanShareAFile` | packages/rn/ios/DashOtaImpl.swift:323-335 | two entries with different paths that pass every check of iOS and break it, whatever the file system makes of names |
| `IosAssembly.EquivalentPathsCanShareAFile` | packages/shared/src/paths.ts:23-38 | two paths that publisher and iOS both accept, one with a composed and one with a decomposed accent, which break it on a file system that folds the two |
| `IosAssembly.EnteredIsRightExactly` | packages/rn/ios/DashOtaImpl.swift:227-245 | an entry has the signed size as well if and only if it was already right, or is not reused, or the reused file has that size |
| `IosAssembly.EnteredExactly` | packages/rn/ios/DashOtaImpl.swift:227-300 | an entry goes through if and only if it was there and right, or the reused file has its hash, or the signed blob came back and opens to the signed file |
| `IosAssembly.ReusedFileCanHaveAnotherSize` | packages/rn/ios/DashOtaImpl.swift:236-245 | a concrete entry that goes through with the wrong size |
| `Paths.CheckSegments` | packages/rn/android/src/main/java/com/dashota/DashOtaModule.kt:354-357 | the scan accepts if and only if no segment is empty, "." or ".." |
| `Paths.AndroidAcceptsExactly` | packages/rn/android/src/main/java/com/dashota/DashOtaModule.kt:348-359 | a path is accepted if and only if it is not empty, not too long, has no NUL and no backslash, is not absolute and has only good segments |
| `Paths.SharedAcceptsExactly` | packages/shared/src/paths.ts:23-38 | and by the publisher if and only if it has no drive letter either |
| `Paths.AcceptedPathIsContained` | packages/shared/src/paths.ts:23-38 | a path the publisher or Android accepts resolves strictly below the directory, at its own segments |
| `Paths.LandsAtItsSegmentsExactly` | packages/rn/android/src/main/java/com/dashota/DashOtaModule.kt:348-359 | any path lands at its own segments if and only if the scan by code points finds none that is empty, "." or ".." |
| `Paths.StaysBelowExactly` | packages/rn/ios/DashOtaImpl.swift:323-335 | any path, so every path iOS accepts, stays strictly below every directory it is appended to if and only if counting its components never falls below zero and ends above it |
| `Paths.IosPathCanEscape` | packages/rn/ios/DashOtaImpl.swift:330-333 | a path iOS accepts, because an accent joins its slash into one character, that leaves the directory |
| `Paths.WithoutHiddenSlashesIosIsStricter` | packages/rn/ios/DashOtaImpl.swift:330-333 | when no slash is part of a larger character, what iOS accepts passes the scan by code points |
| `Paths.AndroidFollowsIosExactly` | packages/rn/android/src/main/java/com/dashota/DashOtaModule.kt:348-359 | and Android then accepts it if and only if it has no backslash and no NUL inside a character either |
| `Paths.AcceptedPathsAreDistinct` | packages/rn/android/src/main/java/com/dashota/DashOtaModule.kt:348-359 | different paths that the publisher or Android accepts resolve to different files |
| `Spots.SameFileExactly` | packages/rn/ios/DashOtaImpl.swift:224-225 | any two paths are one file under every directory if and only if they go the same number of levels up and then name the same |
| `Spots.KeysDecide` | packages/rn/ios/DashOtaImpl.swift:224-225 | the shortest path to the same place decides that as well, so it can key a directory |
| `Spots.IosPathsCanCoincide` | packages/rn/ios/DashOtaImpl.swift:330-333 | two different paths that iOS accepts, neither leaving the directory, that are one file under every directory |
| `Paths.CheckersAgreeExactly` | packages/rn/ios/DashOtaImpl.swift:323-335 | however text falls into characters, Android accepts all the publisher accepts, and iOS all but paths whose second character is a colon |
| `Paths.CheckersDisagree` | packages/shared/src/paths.ts:29-31 | concrete paths on which the three checkers differ |
| `BackendStore.CollectBlobShas` | packages/shared/src/manifest.ts:171-176 | every distinct hash of the manifest once |
| `BackendStore.Store.MissingBlobs` | packages/backend/src/store.ts:312-320 | exactly the hashes not held at the size the manifest gives |
| `BackendStore.Store.BlobsReferencedElsewhere` | packages/backend/src/store.ts:409-416 | exactly the hashes any other release lists, finalized or not |
| `BackendStore.Store.DiscardRelease` | packages/backend/src/store.ts:426-434 | exactly the blobs nothing else needs are gone |
| `BackendStore.Store.CreateRelease` | packages/backend/src/store.ts:264-306 | refused if and only if published; otherwise declared unfinalized, reporting exactly the gap that was there before |
| `BackendStore.Store.Stage` | packages/backend/src/store.ts:333-376 | stored if and only if listed, absent, within the limit and of the right hash and size; every refusal by its condition |
| `BackendStore.Store.FinalizeRelease` | packages/backend/src/store.ts:384-396 | published if and only if nothing is missing |
| `BackendStore.Store.Administer` | packages/backend/src/store.ts:460-485 | one switch of one record: the percentage as near to what was asked as there is, the pause as asked, a withdrawal that also pauses |
| `Backend.FindBlobEntry` | packages/shared/src/manifest.ts:160-165 | an entry is found if and only if the release references the hash |
| `Backend.BlobsOfOthersStay` | packages/backend/src/store.ts:418-434 | no operation on one release takes a blob from another |
| `Backend.UnsafeStepIsACollision` | packages/backend/src/store.ts:264-434 | the only step that can break the store's invariant exhibits two contents with one hash |
| `Backend.EveryReachableStateIsSafe` | packages/backend/src/store.ts:264-434 | in every reachable state blobs hash to their keys and finalized releases have every blob at the right size |
| `Backend.PublishedManifestNeverChanges` | packages/backend/src/store.ts:271-281 | a finalized manifest never changes and a rollback is never undone, whatever comes later |
| `BackendStore.UploadRelease` | packages/cli/src/core.ts:299-344 | with any calls of other clients in between, it publishes unless the id was published, and uploads exactly the gap |
| `BackendStore.UploadMissing` | packages/cli/src/core.ts:325-337 | the upload loop ends with nothing missing, whatever others do meanwhile |
| `BackendStore.OthersKeepProgress` | packages/backend/src/store.ts:418-434 | nobody else's call makes a blob of a declared release missing |
| `Cache.MemoryCacheProvider.Sweep` | packages/backend/src/providers.ts:383-388 | exactly the expired nonces and tokens are gone |
| `Cache.MemoryCacheProvider.RegisterNonce` | packages/backend/src/providers.ts:354-359 | fresh if and only if not remembered at this moment, and then remembered |
| `Cache.MemoryCacheProvider.PeekToken` | packages/backend/src/providers.ts:349-352 | the value if the token has not expired |
| `Cache.MemoryCacheProvider.PutToken` | packages/backend/src/providers.ts:372-374 | the token is there until its time is over |
| `Replay.Authenticate` | packages/backend/src/routes.ts:102-131 | with signatures required a request is accepted if and only if it is complete, timely, from an enrolled install, validly signed and its nonce is not held; every other verdict names the first check that fails; and a request that fails before the nonce leaves the cache as it was |
| `Replay.AcceptedExactly` | packages/backend/src/routes.ts:102-131 | in every run a request is accepted if and only if it passes those checks and no earlier use of its nonce, by a request or anything else, is still in force |
| `Replay.AcceptedNonceStays` | packages/backend/src/routes.ts:127-129 | an accepted nonce is remembered for its whole time, whatever else uses the cache |
| `Replay.ReplayIsStoppedExactly` | packages/backend/src/routes.ts:102-131 | no signed request is accepted twice in any run if and only if nonces live at least twice the skew |
| `Replay.DefaultsStopReplay` | packages/backend/src/config.ts:176-180 | the default configuration, which meets that with equality, stops replay |
| `Confirm.Reports.IssueServerNonce` | packages/backend/src/store.ts:589-594 | a check nonce is good for what that check made relevant, for the nonce lifetime |
| `Confirm.Reports.ConsumeServerNonce` | packages/backend/src/store.ts:607-627 | spends a nonce exactly when the check covers the report and it was not spent on it before |
| `Confirm.Reports.RecordConfirm` | packages/backend/src/store.ts:639-660 | counts once, a failure once per install, and pauses exactly at the configured rate |
| `Confirm.EachReportIsSpentOnce` | packages/backend/src/store.ts:596-627 | in the whole life of the server no nonce is spent twice on one report |
| `Acceptance.ReportIsAcceptedExactly` | packages/backend/src/store.ts:607-627 | in every run a report under the nonce of a check is accepted if and only if the nonce has not expired, the check lets this install report this bundle, and the same report was not accepted before; and one that is no failure is then counted |
| `Acceptance.EachCounterCountsItsReports` | packages/backend/src/store.ts:646-650 | each of the four counters is the number of counted reports that say so |
| `Acceptance.ReportPausesExactly` | packages/backend/src/store.ts:651-657 | a report pauses its release if and only if it is counted and there are then enough reports and at least the configured share of them failures |
| `Confirm.SpentTwiceIsRefused` | packages/backend/src/store.ts:607-627 | a second spend finds the marker, or finds the token gone |
| `Confirm.CountersAddUp` | packages/backend/src/store.ts:646-650 | the four counters of a release sum to the reports counted for it |
| `Confirm.FailuresCountDistinctInstalls` | packages/backend/src/store.ts:642-645 | when the failures counted for a release are within thirty days, their counters are the number of different installs whose failure was counted |
| `Confirm.EveryFailingInstallIsCounted` | packages/backend/src/store.ts:642-650 | with colon-free install ids, the installs whose failure was counted are exactly those whose failure was accepted |
| `Confirm.FailuresAreTheFailingInstalls` | packages/backend/src/store.ts:642-650 | so within thirty days the failure counters are the number of installs that reported one and were believed |
| `Confirm.AutoPauseNeedsManyInstalls` | packages/backend/src/store.ts:651-657 | a pause at total T means at least rate * T distinct failing installs |
| `Confirm.SpendKeysAreDistinct` | packages/backend/src/store.ts:626-643 | different reports never share a marker, nor share one with a failure |
| `Confirm.FailureKeysCollideExactly` | packages/backend/src/store.ts:643 | the failure markers of two installs can coincide if and only if one id is the other or continues it after a colon |
| `Confirm.FailureKeysCanCollide` | packages/backend/src/store.ts:643 | such a pair |
| `Release.CheckInput` | packages/shared/src/release.ts:97-122 | accepted if and only if the input is acceptable, and a refusal names what is wrong |
| `Release.BuildRelease` | packages/shared/src/release.ts:96-180 | with any comparator: the manifest and upload of the files as the sort arranges them; a well-formed input is never refused; the key is signed exactly when encryption was asked for, and every blob is made as asked |
| `Release.BuiltIsAsAsked` | packages/shared/src/release.ts:120-148 | with encryption every blob of the upload is the ciphertext, under the content key and a nonce derived from the packed bytes, of a packed file of the release, bound to its hash; without it the packed file itself. Packed means compressed at the level of its role exactly if its kind can be and that saves more than two percent |
| `Release.OneNonceSealsOneText` | packages/shared/src/release.ts:194-209 | two blobs with one nonce seal the same bytes |
| `Release.UnchangedFileIsStoredOnce` | packages/shared/src/release.ts:194-209 | a file two releases of one key ship in one role is the same blob in both |
| `Release.BuildEntries` | packages/shared/src/release.ts:127-156 | one entry per file, and exactly one blob per distinct contents, made from the first file with them |
| `Release.ValidateShape` | packages/shared/src/manifest.ts:274-296 | accepts if and only if the shape is right: distinct good paths, hashes, encryption fields and exactly one bundle |
| `Release.VerifyRelease` | packages/shared/src/release.ts:233-272 | signature, shape, then each entry opened or taken from the cache |
| `Release.OpeningUndoesSealing` | packages/shared/src/release.ts:188-210 | opening a sealed blob gives back the file |
| `Release.OpenedIsChecked` | packages/shared/src/release.ts:247-269 | an entry opens only if its blob has the signed hash and size, and a frame is unpacked only if it declares the signed size |
| `Release.ReassembledExactly` | packages/shared/src/release.ts:247-269 | the cached loop is right if and only if entries with one blob have one contents |
| `Release.RoundTripExactly` | packages/shared/src/release.ts:233-272 | verifying a built release returns exactly its files in path order if and only if no two different contents are stored as the same bytes |
| `Release.VerifiedFilesAreSignedExactly` | packages/shared/src/release.ts:233-272 | against any server, what verification returns has the signed hashes and sizes if and only if entries with one blob were signed for one contents |
| `Release.CompressedCopyIsConfused` | packages/shared/src/release.ts:250-266 | a file shipped with its own compressed form breaks the round trip |
| `ReleaseWitness.VerifierReturnsTheWrongFile` | packages/shared/src/release.ts:233-272 | a two-file release, under primitives that keep every law, that is built and verified without an error and comes back with the wrong contents |
| `ReleaseOrder.SortingIsStable` | packages/shared/src/release.ts:134 | the files come out in order, and of two paths the comparator calls equal the one listed first comes first |
| `ReleaseOrder.InputOrderDoesNotMatterExactly` | packages/shared/src/release.ts:134-156 | the manifest does not depend on how the files are listed if and only if the comparator calls no two of their paths equal |
| `ReleaseOrder.ListingDecidesBlobsExactly` | packages/shared/src/release.ts:127-148 | the blob each file ends up in does not depend on how the files are listed if and only if files with the same contents, whose paths tie for the first place among them, make one blob |
| `ReleaseOrder.TiedPathsFollowTheListing` | packages/shared/src/release.ts:134 | two accepted paths that a locale comparison has to call equal, and the two manifests their files give |
| `Release.UploadIsDetermined` | packages/shared/src/release.ts:127-148 | the upload is determined by the sorted files |
| `Zstd.ParsingReadsWhatIsWritten` | packages/shared/src/compression.ts:105-123 | any header the standard allows, whatever follows, is read as its declared size |
| `Zstd.TruncatedHeaderDeclaresNothing` | packages/shared/src/compression.ts:114-118 | a header cut off anywhere declares nothing |
| `Zstd.SizeIsReadExactly` | packages/shared/src/compression.ts:105-123 | a size is returned if and only if the data begins with a well-formed header that declares it |
| `CanonicalJson.SortValue` | packages/shared/src/canonical.ts:18-37 | sorts every object, and refuses exactly the values with a number that is not finite |
| `CanonicalJson.SortObject` | packages/rn/src/canonical.ts:15-21 | the loop over the sorted keys builds the sorted object, undefined children omitted |
| `CanonicalJson.SortingForgetsOnlyOrder` | packages/shared/src/canonical.ts:18-37 | two values sort to one if and only if they differ in nothing but the order of properties |
| `CanonicalJson.SortingTwiceIsSortingOnce` | packages/shared/src/canonical.ts:18-37 | sorting a sorted value changes nothing |
| `JsonText.ValueReads` | packages/shared/src/canonical.ts:46 | a text determines the value it begins with and what follows it |
| `JsonText.CanonicalTextIsAFaithfulKey` | packages/shared/src/canonical.ts:45-47 | two values have one canonical text if and only if they are the same up to the order of properties |
| `JsonReader.PrintIsRead` | packages/shared/src/canonical.ts:45-47 | a reader of the grammar of RFC 8259 without its optional whitespace gives back the printed value and exactly what follows it |
| `JsonOrder.CanonicalTextIsJson` | packages/shared/src/canonical.ts:18-47 | the canonical text is such a text from end to end, says the value up to the order of properties, and has the keys of every object in order: array indices by number, then the others by the first code unit that differs |
| `JsonOrder.OrderIsTextual` | packages/shared/src/canonical.ts:31 | the order of properties in an object, told from the texts of the keys alone |
| `JsonText.ProtoPropertyIsLost` | packages/shared/src/canonical.ts:31-35 | a property named `__proto__` never reaches the text |
| `JsonText.Canonicalize` | packages/rn/src/canonical.ts:27-29 | the canonical text, or a refusal exactly for numbers that are not finite |
| `Selection.ListReleases` | packages/backend/src/store.ts:250-252 | newest first, nothing lost or added |
| `Selection.PickEligible` | packages/backend/src/store.ts:522-532 | none if and only if nobody is eligible, else an eligible release of the highest version, newest among ties |
| `Selection.InstalledIsUpToDate` | packages/shared/src/targeting.ts:126-138 | a device that installs what it is offered is offered nothing from the same table |
| `Selection.CandidateExactly` | packages/shared/src/targeting.ts:126-138 | a device can be offered a release if and only if it is published, not withdrawn, for that device and rolled out to its bucket |
| `Delivery.OfferedReleasePassesTheGates` | packages/rn/android/src/main/java/com/dashota/DashOtaModule.kt:119-192 | a device refuses an offered release only for its signature, its app, its ids and paths, or because it has disabled the bundle |
| `Delivery.SafeIdIsOneDirectory` | packages/rn/android/src/main/java/com/dashota/DashOtaModule.kt:161-166 | an accepted bundle id names one directory directly below that of all bundles |
| `Selection.RaisingTheRolloutKeepsDevices` | packages/backend/src/store.ts:460-466 | raising the percentage never takes a release from a device |
| `Selection.RolloutReachesItsShare` | packages/backend/src/store.ts:460-466 | a percentage reaches exactly the devices in lower buckets, and changes nothing else |
| `Selection.PausingIsUndone` | packages/backend/src/store.ts:469-475 | a paused release is offered and served to nobody, and resuming it restores exactly what was there |
| `Selection.DeclaringKeepsSwitches` | packages/backend/src/store.ts:264-306 | declaring a release again keeps it paused or withdrawn, and offers it to nobody before it is finalized |
| `Selection.BlobIsServedExactly` | packages/backend/src/routes.ts:322-345 | bytes are answered if and only if the token is for that release, which is not withdrawn, lists the blob and has it |
| `Selection.OfferedReleaseCanBeDownloaded` | packages/backend/src/routes.ts:332-341 | in every reachable state each blob of an offered release is served with its signed hash and size |
| `Selection.RolledBackIsGoneForever` | packages/backend/src/routes.ts:334-335 | a rolled-back release is never offered nor served again |

## Left out

- The branches taken when a rename is refused (writing the state file directly, copying a directory): they are not atomic, and the kill points of the model do not cover them.
- Kills inside the writes of a download before its commit: a run may leave any staging directory (`SlotRuns.Enabled`), so their effect is covered, but they are not in the log of single writes.
- Marks torn by a kill read as no marks, as the code reads them; the times stored in the marks are not modelled.
- Hard links, and the aliasing they create between two slots; the model copies.
- A directory is a flat map from path to contents, so a path that is a directory prefix of another one is not a conflict.
- Download progress, the stored absolute `dir` of a slot, and errors of the file system.
- The saved-state methods of the iOS store: they have the same branches as the Android ones except that an unreadable state file is not deleted. Its reload within one process, and a download still in flight across it, are not part of the model.
- Numbers in a range header are unbounded, where the code reads digit strings beyond the floating-point range as infinite.
- Rate limiting, one-time tokens, route matching, stored byte totals and the rounding of fractional rollout percentages.
- Selection.PickEligible: takes the rollout bucket and the version-range matcher as parameters, because nothing proved here depends on how they compute.
- Release.ValidateShape: covers the fields a built release has; patches, types of JSON fields and the list of messages are not modelled, because the builder produces none of them.
- Release.BuildRelease: takes the path comparison as a parameter, and leaves out the manifest fields that are copied unchanged (bundle version, mandatory flag, timestamps, target versions). The two-percent threshold is compared exactly, not in floating point.
- Confirm.Reports.RecordConfirm: compares the failure rate with the configured one exactly; the code compares floating-point quotients.
- Signatures are a boolean input. The crypto of keys, TLS pinning, HTTP servers, database, cache and blob adapters other than the in-memory ones are foreign code.
- SlotRuns.UndisturbedRunsAreWhole: leaves out runs with a kill inside a commit between the first deletion and the rename of a directory the saved state names, because there it fails (`Recommits.KillInTheWindowLosesTheBundle`); `SlotRuns.KilledCommitIsSafeExactly` says exactly when. The theorems about whole directories leave out the same runs.
- SlotRuns.StepKeepsWhole: leaves out the same kill.
- CanonicalJson.SortValue: values are what a JSON text can say, with properties that may be undefined; undefined array items and objects with their own serializer are not modelled.
- CanonicalJson.SortObject: covers the same values.
- JsonText.Canonicalize: covers the same values; how a finite number is written in decimal is the language's own.
- IosAssembly.IosDownloader.DownloadAndStage: says which files are there only for manifests whose paths all stay in the directory (`IosAssembly.StaysBelow`, decided by `Paths.StaysBelowExactly`); a path that leaves it is kept under a key of its own, and what it overwrites elsewhere, or back inside, is not modelled. The recorded file list keeps every path; a Swift dictionary keeps one of those that are canonically equivalent.
- The provider's UI state, the dashboard, the website, prompts and fingerprinting.
