# Verified models of ibm-csi-common

This project models the parts of ibm-csi-common that have state, concurrency or loops
worth a proof, and proves what they promise for every input, every client and every
interleaving. `dafny verify dfyconfig.toml` checks it all.

- **The named-lock service** (`pkg/utils/lock_store.go`). `LockProtocol` is an interleaved
  step system: any number of threads run scripts of `Lock` and `Unlock` against any number
  of stores that share one global mutex; one call is seven steps, and between the last two
  the thread holds nothing but a mutex pointer. A Go mutex has no owner, so "holds" is what
  the client knows it has locked. For tame scripts, which on their own never come to unlock
  a name they do not hold, `LockRefinement` proves that every run is a run of an atomic table
  from names to owners; `LockDiscipline` that tameness is exactly what it takes; `LockLiveness`
  that ordered clients never get stuck and that every complete run takes exactly seven
  steps a call. `LockStoreObject` is the object as one goroutine sees it, updated in place;
  in every interleaving a store goes through the same changes as this object.
- **The recording double** (`pkg/metadata/fake_node_metadata.go`). `FakeProtocol` has every
  lock operation and every shared read and write as a step of its own, with Go's
  writer-first `RWMutex`. `FakeLinearizable` proves it linearizable, `FakeDeadlock` that one
  lock cycle is the only way to get stuck, and `FakeOverlap` that a set of client scripts
  can deadlock exactly when one thread calls `Invocations` and another calls a getter.
  `FakeNodeObject` is the object itself with its call lists in Go slices, whose backing
  arrays the returned maps keep sharing.
- **Polling loops** of `vpc-deploy-1replica-multi-vols.sh` (`Polling`), against arbitrary
  answers of the cluster.
- **Pods of a test suite**: node filter and round-robin (`Placement`), the WaitGroup of
  `RunAsync` with failing workers (`WaitGroup`), deferred clean-up (`Teardown`).
- **Texts and sizes**: error classification (`GappedMatch`, `Messages`), tags and volumes
  (`SplitJoin`, `Watcher`), node metadata (`Metadata`), 64-bit size arithmetic (`Sizes`),
  and the fold of `analyze-log-v02.sh` (`LogAnalysis`).

Some things the code does are stated as it does them, with the exact condition.

- With the lock flag off, two clients can hold one name: tame clients exclude each other on
  all runs if and only if the flag is on or no two threads ever lock the same name
  (`ExclusiveExactly`).
- An unlock of an unlocked mutex stops the process. Some run gets there if and only if the
  flag is on and some script is not tame (`CrashesExactlyWhenNotTame`, `TameMeans`).
- The wait for bound claims takes a list of blanks for a bound list, and the output of a
  failed call for a list. Its status 0 vouches for a claim if and only if the deciding call
  succeeded and its text is not blank (`ZeroMeansClaimsExactly`).
- A watcher finds its own volume type if and only if no later watcher of the same
  provisioner registered another (`OwnTypeExactly`).
- `Invocations` and the getters take their locks in opposite orders, so the double is not
  deadlock-free: `DeadlockExactlyWhenOverlap` says which scripts can deadlock.
- `RoundUpBytes` adds before it subtracts. At 2^63 - 2^30 the sum overflows and comes back,
  so the result is still right; above, and for most sizes of -1 GiB or less, it is not the
  ceiling. `RoundUpBytesIsCeilingExactly` gives the exact set of sizes, and
  `RoundUpIsIdempotentExactly` and `RoundUpIsMonotoneExactly` say where rounding twice
  changes nothing more and where it keeps the order.

Assumptions: the message table has its two entries for library errors; a volume that is
mapped has a CSI source and a claim. A cluster answer is an input; a stub of the double is foreign code and appears in an answer by its identity.

## Model

| member | source | states |
|---|---|---|
| LockProtocol.EntriesOnlyGrow | pkg/utils/lock_store.go:50-53 | one step never replaces or removes a name's mutex, and only the look-up of a missing name adds one, at an unused address |
| LockProtocol.StepKeepsInv | pkg/utils/lock_store.go:36-68 | the invariant is inductive for any number of threads, names and stores: entries distinct, one thread inside the global mutex, carried pointers current, locked exactly when held, nobody else holding the name, no runtime failure |
| LockProtocol.HoldsAfter | pkg/utils/lock_store.go:57-68 | after a step a thread holds a name exactly as before, unless the step took or released that name's mutex |
| LockRefinement.StepRefines | pkg/utils/lock_store.go:36-68 | forward simulation: each protocol step is an atomic step of a table from names to owners, and says which one |
| LockRefinement.RunRefines | pkg/utils/lock_store.go:36-68 | every run of the protocol is a run of the atomic table, and the invariant holds in all its states |
| LockRefinement.LockStoreIsSafe | pkg/utils/lock_store.go:56-68 | in every reachable state at most one thread holds a given name of a given store, and no unlock of an unlocked mutex, nil map or nil pointer is ever hit |
| LockDiscipline.ExclusiveExactly | pkg/utils/lock_store.go:25-26 | for any set of tame clients: mutual exclusion on all runs if and only if the flag is on or no two threads ever lock the same name |
| LockDiscipline.CrashesExactlyWhenNotTame | pkg/utils/lock_store.go:56-68 | for any fresh service: some interleaving unlocks an unlocked mutex if and only if the flag is on and some script is not tame |
| LockDiscipline.TameMeans | pkg/utils/lock_store.go:56-68 | a script is tame exactly when each unlock in it is of a name held at that place, up to its first lock of a name it already holds |
| LockDiscipline.DoomedCrashes | pkg/utils/lock_store.go:64-68 | a thread whose script is not tame brings the process down when it runs alone |
| LockRefinement.EntriesAreStable | pkg/utils/lock_store.go:49-53 | once a name has a mutex it keeps it for the rest of the run |
| LockRefinement.CarriedPointerIsCurrent | pkg/utils/lock_store.go:42-59 | a pointer carried out of getLock is still the current entry whenever it is used, and no other name of any store has it |
| LockRefinement.EntriesAreTheLooked | pkg/utils/lock_store.go:49-52 | the names with an entry are exactly those whose look-up has run |
| LockRefinement.StoreSizeCountsNames | pkg/utils/lock_store_test.go:26-42 | the size of a store is the number of distinct names looked up in it |
| LockLiveness.RunLength | pkg/utils/lock_store.go:42-68 | each step uses up one unit of the work left, so run length and work left add up to a constant |
| LockLiveness.GlobalHolderRuns | pkg/utils/lock_store.go:42-54 | a thread inside the global mutex is never blocked |
| LockLiveness.NeverStuck | pkg/utils/lock_store.go:56-68 | with ordered clients every unfinished state has a thread that can step |
| LockLiveness.EveryRunCompletes | pkg/utils/lock_store.go:42-68 | no run exceeds seven steps a call; a run cannot go on exactly when all scripts are finished, which is exactly when it has taken seven steps a call; then every name is unlocked |
| LockLiveness.FreeNameIsReachable | pkg/utils/lock_store.go:33-59 | whatever others hold or wait for, a thread locks a free name within eleven steps by itself and the one thread inside getLock |
| LockStoreObject.LockStore.CheckAndInitLockStore | pkg/utils/lock_store.go:36-40 | a nil map becomes empty, any other stays |
| LockStoreObject.LockStore.GetLock | pkg/utils/lock_store.go:42-54 | an existing name gives its own mutex and changes nothing; a new name gets a fresh unlocked mutex of its own; the global mutex is free again |
| LockStoreObject.LockStore.Lock | pkg/utils/lock_store.go:56-61 | locks this name and no other, blocks exactly when it is locked, does nothing with the flag off |
| LockStoreObject.LockStore.Unlock | pkg/utils/lock_store.go:63-68 | unlocks this name and no other, fails exactly when it is not locked, does nothing with the flag off |
| LockStoreObject.Play | pkg/utils/lock_store_test.go:26-42 | any sequence of calls by one goroutine: all of them return exactly when each finds its name free or locked as it needs, and the table is the one they make |
| LockStoreObject.NamesAreIndependent | pkg/utils/lock_store_test.go:26-42 | all calls return if and only if name by name the calls on that name alone do, and each name ends as its own calls leave it |
| LockStoreObject.EntriesAreTheCalled | pkg/utils/lock_store_test.go:30-41 | the store has an entry for exactly the names called, however often they are locked again |
| LockStoreObject.StepTable | pkg/utils/lock_store.go:42-68 | a protocol step changes a store's table as the object's own operations do |
| LockStoreObject.RunTable | pkg/utils/lock_store.go:42-68 | in every interleaving a store ends as the object would, fed the same steps in order |
| FakeSpec.ReplayReadsHistory | pkg/metadata/fake_node_metadata.go:212-263 | the fields after any history are its call count, latest stub, latest default and latest value per index |
| FakeSpec.KthCallAnswer | pkg/metadata/fake_node_metadata.go:212-228 | call k gets the stub in force, else the latest value for index k, else the latest default |
| FakeSpec.InvocationsAnswer | pkg/metadata/fake_node_metadata.go:265-281 | Invocations reports exactly how often each method was called |
| FakeSpec.CallCountAnswer | pkg/metadata/fake_node_metadata.go:230-234 | a call count is the number of getter calls of its method in the history before it, and changes nothing |
| FakeSpec.StubAnswers | pkg/metadata/fake_node_metadata.go:236-240 | a stub answers from its installation until the next Calls, Returns or ReturnsOnCall of the method |
| FakeSpec.SettersDropStubs | pkg/metadata/fake_node_metadata.go:242-263 | right after Returns, ReturnsOnCall or an empty Calls no getter meets a stub |
| FakeSpec.ValueAnswers | pkg/metadata/fake_node_metadata.go:212-228 | without a stub, call k, counting from zero, gets the latest value registered for k |
| FakeSpec.DefaultAnswers | pkg/metadata/fake_node_metadata.go:212-228 | without either, it gets the default of the latest Returns |
| FakeSpec.EmptyAnswers | pkg/metadata/fake_node_metadata.go:212-228 | with nothing set for it, it gets the empty string |
| FakeProtocol.SlotsOfOthers | pkg/metadata/fake_node_metadata.go:53-104 | only the holder of a method's mutex changes that method's fields and records |
| FakeProtocol.StepKeepsCounts | pkg/metadata/fake_node_metadata.go:212-220 | recorded invocations lag the calls by one exactly while a getter is between its append and its record |
| FakeProtocol.StepKeepsInv | pkg/metadata/fake_node_metadata.go:53-293 | locks are held exactly by the threads whose position says so, and what a holder has read agrees with what it found |
| FakeProtocol.RunKeepsInv | pkg/metadata/fake_node_metadata.go:53-293 | the invariant in every reachable state |
| FakeLinearizable.SnapshotIsConsistent | pkg/metadata/fake_node_metadata.go:265-281 | when the map is copied each list has exactly its method's number of calls, for all four methods at once |
| FakeLinearizable.EffectIsApply | pkg/metadata/fake_node_metadata.go:53-281 | a call takes effect with the answer and the new fields of the one-at-a-time object; no other step changes them |
| FakeLinearizable.StepSimulates | pkg/metadata/fake_node_metadata.go:53-293 | forward simulation of the atomic object, call and return included |
| FakeLinearizable.Linearizable | pkg/metadata/fake_node_metadata.go:53-293 | the calls of any run form a sequential history that explains every answer, thread by thread in program order |
| FakeLinearizable.HistoryOnlyGrows | pkg/metadata/fake_node_metadata.go:53-293 | later steps only append to the history |
| FakeLinearizable.RealTimeOrder | pkg/metadata/fake_node_metadata.go:53-293 | a call that has returned before another starts has the smaller place in the history of any longer run |
| FakeLinearizable.CallsSoFar | pkg/metadata/fake_node_metadata.go:53-293 | a state's history has all calls that returned and none that did not start |
| FakeLinearizable.GetterAnswers | pkg/metadata/fake_node_metadata.go:212-228 | under any interleaving each getter call gets what the configuration at its place in the history says |
| FakeLinearizable.CountAnswers | pkg/metadata/fake_node_metadata.go:230-234 | under any interleaving a call count is the number of getter calls before it in the history |
| FakeLinearizable.ResultIsLogged | pkg/metadata/fake_node_metadata.go:53-293 | result k given to a thread is the answer of an entry of the history, which is call k of its script |
| FakeLinearizable.SnapshotsGrow | pkg/metadata/fake_node_metadata.go:265-281 | each Invocations result is covered by every later one |
| FakeDeadlock.CycleStays | pkg/metadata/fake_node_metadata.go:265-285 | the getter/Invocations lock cycle, once entered, is never left |
| FakeDeadlock.SomeoneRuns | pkg/metadata/fake_node_metadata.go:53-285 | an unfinished state without the cycle has a thread that can step, pending writers included |
| FakeDeadlock.RunsAreFinite | pkg/metadata/fake_node_metadata.go:53-293 | every step uses up work, so every run is finite |
| FakeDeadlock.StuckExactlyInACycle | pkg/metadata/fake_node_metadata.go:53-293 | a run that cannot go on has finished if and only if it does not show the cycle, and a run that shows it never finishes |
| FakeDeadlock.NoOverlapNoDeadlock | pkg/metadata/fake_node_metadata.go:53-104 | while no getter overlaps an Invocations any unfinished run can go on |
| FakeOverlap.DeadlockExactlyWhenOverlap | pkg/metadata/fake_node_metadata.go:212-285 | client scripts can deadlock if and only if one thread has an Invocations and a different thread a getter |
| FakeNodeObject.FakeNodeMetadata.Get | pkg/metadata/fake_node_metadata.go:212-228 | answer and fields of the sequential meaning, one more record, and every map handed out before unchanged |
| FakeNodeObject.FakeNodeMetadata.CallCount | pkg/metadata/fake_node_metadata.go:230-234 | the length of the call log, the answer of the sequential meaning, changing nothing |
| FakeNodeObject.FakeNodeMetadata.Calls | pkg/metadata/fake_node_metadata.go:236-240 | installs the stub of this method only |
| FakeNodeObject.FakeNodeMetadata.Returns | pkg/metadata/fake_node_metadata.go:242-249 | drops the stub and sets the default of this method only |
| FakeNodeObject.FakeNodeMetadata.ReturnsOnCall | pkg/metadata/fake_node_metadata.go:251-263 | drops the stub and sets the value for one index of this method only |
| FakeNodeObject.FakeNodeMetadata.RecordInvocation | pkg/metadata/fake_node_metadata.go:283-293 | appends to one list in place or in a larger copy; the other lists and every list handed out read as before |
| FakeNodeObject.FakeNodeMetadata.Invocations | pkg/metadata/fake_node_metadata.go:265-281 | a list for exactly the methods called, as long as their call counts; it stays as it is under all later calls though it shares the arrays |
| Polling.WaitForBound | tests/e2e/scripts/migration-test/vpc-deploy-1replica-multi-vols.sh:199-254 | terminates on every stream of answers; reads on exactly while nothing is decided, and the first reading that settles the matter gives the verdict |
| Polling.VerdictMeans | tests/e2e/scripts/migration-test/vpc-deploy-1replica-multi-vols.sh:203-254 | status 0 exactly when the last list read was there and wholly bound, abort exactly after eleven timeouts in a row, and at most eleven reads for each iteration |
| Polling.LastReadingExactly | tests/e2e/scripts/migration-test/vpc-deploy-1replica-multi-vols.sh:203-236 | the reading that ends the loop is an empty one, one with all bound, the 900th with a claim waiting, or the eleventh timeout in a row; an empty one gives 1 |
| Polling.VerdictIsUnique | tests/e2e/scripts/migration-test/vpc-deploy-1replica-multi-vols.sh:203-236 | only one reading of a stream can settle the matter |
| Polling.ReadBoundIsTight | tests/e2e/scripts/migration-test/vpc-deploy-1replica-multi-vols.sh:203-216 | a stream that needs all the reads allowed |
| Polling.BoundWithoutClaims | tests/e2e/scripts/migration-test/vpc-deploy-1replica-multi-vols.sh:219-231 | an answer lists no claim and is taken for wholly bound if and only if it is not empty and has nothing but blanks |
| Polling.ZeroMeansClaimsExactly | tests/e2e/scripts/migration-test/vpc-deploy-1replica-multi-vols.sh:203-254 | status 0 means some claim is listed and every one is bound by a call that succeeded, if and only if the deciding call succeeded and its text is not blank; 0 with nothing listed is exactly a blank text, 0 on a failed call exactly a non-empty text without "timeout" whose words all end in Bound |
| Polling.ZeroOnLinesExactly | tests/e2e/scripts/migration-test/vpc-deploy-1replica-multi-vols.sh:219-235 | on a list of one line a claim the loop ends with 0 if and only if every line is Bound or ends in :Bound |
| Polling.EveryLineCounts | tests/e2e/scripts/migration-test/vpc-deploy-1replica-multi-vols.sh:223-235 | such a list is taken for bound exactly when every line is; with any other line the loop waits |
| Polling.WordsOfLines | tests/e2e/scripts/migration-test/vpc-deploy-1replica-multi-vols.sh:223 | the words of a list printed line by line are its lines, all of them and in order |
| Polling.IsBoundMeans | tests/e2e/scripts/migration-test/vpc-deploy-1replica-multi-vols.sh:225-226 | a word is bound if and only if it is Bound or ends in :Bound |
| Text.WordsAre | tests/e2e/scripts/migration-test/vpc-deploy-1replica-multi-vols.sh:223 | the words of any text are its longest stretches without a blank, in order, and nothing but blanks is left out |
| Polling.BlankOrFailedPasses | tests/e2e/scripts/migration-test/vpc-deploy-1replica-multi-vols.sh:203-231 | one space, and the output Bound of a failed call, are taken for bound though no successful call lists a claim |
| Polling.BoundAnswerPasses | tests/e2e/scripts/migration-test/vpc-deploy-1replica-multi-vols.sh:199-254 | any one answer taken for bound ends the loop with status 0 at once |
| Polling.ScanClaims | tests/e2e/scripts/migration-test/vpc-deploy-1replica-multi-vols.sh:223-229 | 0 exactly when every word ends in the phase Bound |
| Polling.MakePvArray | tests/e2e/scripts/migration-test/vpc-deploy-1replica-multi-vols.sh:108-113 | every listed volume in order, for a list line by line exactly its lines; a single empty entry if there is none |
| Polling.DeletionPass | tests/e2e/scripts/migration-test/vpc-deploy-1replica-multi-vols.sh:124-142 | a pass clears exactly the entries found gone and tells whether any was left to ask about |
| Polling.WaitForDeletion | tests/e2e/scripts/migration-test/vpc-deploy-1replica-multi-vols.sh:119-163 | return code 0 exactly when every volume was found gone in one of the first IT_COUNT - 1 passes; entries are only cleared, and only when gone; it stops at the first pass that can succeed |
| Polling.GoneInSomePass | tests/e2e/scripts/migration-test/vpc-deploy-1replica-multi-vols.sh:139-141 | gone by pass p means found gone in one of the passes up to p |
| Polling.NotFoundPattern | tests/e2e/scripts/migration-test/vpc-deploy-1replica-multi-vols.sh:139 | the pattern matches exactly the texts that have NotFound and, anywhere after it, the name |
| Polling.DeletedMeansReported | tests/e2e/scripts/migration-test/vpc-deploy-1replica-multi-vols.sh:108-141 | for a list of claim:volume lines: all gone in time if and only if each volume was reported not found, by its own name, in one of the first IT_COUNT - 1 passes |
| Polling.WaitForVolumes | tests/e2e/scripts/migration-test/vpc-deploy-1replica-multi-vols.sh:108-163 | on a list of claim:volume lines the wait returns 0 if and only if every volume was reported not found in one of the first 899 passes |
| Text.AfterLastColonIs | tests/e2e/scripts/migration-test/vpc-deploy-1replica-multi-vols.sh:130 | the name taken from an entry is the one part without a colon that is all of it or follows a colon |
| WaitGroup.CounterIsExact | tests/e2e/testsuites/test_multi_pod_with_vol.go:97-164 | in every interleaving, whatever fails, the counter is pods less finished workers and never negative, and no panic leaves a worker |
| WaitGroup.WaitPassesAfterAllCleanups | tests/e2e/testsuites/test_multi_pod_with_vol.go:143-163 | Wait is passed only when every worker has run its Cleanup, exactly once, failing workers included |
| WaitGroup.SomeoneRuns | tests/e2e/testsuites/test_multi_pod_with_vol.go:97-164 | nothing gets stuck before RunAsync returns |
| WaitGroup.MaximalRunsReturn | tests/e2e/testsuites/test_multi_pod_with_vol.go:97-164 | every run is finite, and one that cannot go on has returned from Wait |
| WaitGroup.WhatCrashes | tests/e2e/testsuites/test_multi_pod_with_vol.go:143-150 | a panic that no Recover takes up ends the process, and so does a Done too many; a normal end does not |
| WaitGroup.ChecksAre | tests/e2e/testsuites/test_multi_pod_with_vol.go:141-161 | which checks a worker makes, by the kind of its pod and the pod check |
| Placement.CollectNodes | tests/e2e/testsuites/test_multi_pod_with_vol.go:58-72 | a name is collected if and only if a node of that name can be scheduled and has the condition Ready as True, once for each such condition; nothing after a failed listing |
| Placement.CollectsEligible | tests/e2e/testsuites/test_multi_pod_with_vol.go:62-70 | that is the list of eligible nodes in order if and only if no schedulable node reports Ready as True twice |
| Placement.UniqueTypesCollect | tests/e2e/testsuites/test_multi_pod_with_vol.go:62-70 | so it is when condition types are unique |
| Placement.Place | tests/e2e/testsuites/test_multi_pod_with_vol.go:84-91 | the wrap-around index is always in range: with two or more nodes pod k is pinned to node k modulo their number, with fewer nothing is pinned |
| Placement.LoadsAreBalanced | tests/e2e/testsuites/test_multi_pod_with_vol.go:84-91 | after every prefix of the pods the loads of any two nodes differ by at most one |
| Placement.PinPods | tests/e2e/testsuites/test_multi_pod_with_vol.go:58-91 | from the node list to the pods: every pod is pinned, to an eligible node, or none is; with distinct names and unique condition types the loads of the eligible nodes stay within one of each other |
| Placement.NotReadyNotPinned | tests/e2e/testsuites/test_multi_pod_with_vol.go:62-91 | a name of which every node is unschedulable or not Ready gets no pod |
| Teardown.SetupWithDynamicVolumes | tests/e2e/testsuites/basesetups.go:106-126 | the clean-ups of a pod's claims in the order of its volumes |
| Teardown.SetupDeploymentWithMultiVol | tests/e2e/testsuites/basesetups.go:128-151 | the claims' clean-ups, then the deployment's |
| Teardown.Run | tests/e2e/testsuites/test_pod_with_vol.go:35-59 | the clean-ups that run are the registered ones, latest first, also when a pod fails to start or to pass its check |
| Teardown.TeardownIsRight | tests/e2e/testsuites/test_pod_with_vol.go:35-59 | however the test ends, exactly the due clean-ups run, each once, every pod before the claims it mounts and later pods first |
| Teardown.RemovedExactly | tests/e2e/testsuites/test_pod_with_vol.go:35-59 | claims of every pod up to the failing one, its own included; every pod created, one that fails its check included |
| Teardown.DeploymentTest.RunMultiVol | tests/e2e/testsuites/test_deploy_with_vol_write_read.go:62-94 | makes the eight stages of the test, six without a pod check, or as far as the first that panics, and whichever that is runs all registered clean-ups |
| Teardown.RanIs | tests/e2e/testsuites/test_deploy_with_vol_write_read.go:69-93 | the stages made are the whole plan, or its part up to the first failing stage |
| Teardown.DeploymentGoesFirst | tests/e2e/testsuites/test_deploy_with_vol_write_read.go:62-67 | whatever stage fails, exactly the clean-ups of the deployment and of its claims run, each once, the deployment first and before every claim |
| GappedMatch.ContainsIsGapped | pkg/messages/messages.go:92 | for every text and every pattern without spaces, containment after deleting spaces is a match with only spaces in the gaps |
| Messages.GetCSIMessage | pkg/messages/messages.go:105-112 | the table's entry, or the zero message for an unknown code; only the description changes, to its formatting with the arguments, if there are any |
| Messages.GetCSIError | pkg/messages/messages.go:69-79 | the entry of the code in every field but the error's text and the request; the call reports success, a nil gRPC error, exactly when the code is unknown or listed under OK |
| Messages.GetCSIBackendError | pkg/messages/messages.go:81-103 | Internal if and only if there are places i < j < k < l with R, C, a colon and 5 and only spaces between, else InvalidArgument; the message is that of the code |
| Messages.ServerErrorExactly | pkg/messages/messages.go:92 | the gapped match, character by character |
| Messages.ServerError | pkg/messages/reason_code.go:184 | every text that begins with RC:5 is a server error |
| Messages.ClientError | pkg/messages/reason_code.go:184 | a text that begins with RC:4 and has no 5 is not |
| Messages.NilErrorIsNotInternal | pkg/messages/messages.go:87-96 | a nil error is InvalidArgument |
| SplitJoin.JoinSplit | pkg/watcher/pv_watcher.go:188 | joining the pieces of any string gives it back |
| SplitJoin.SplitJoined | pkg/metadata/metadata.go:132 | splitting a join of pieces without the separator gives the pieces back |
| SplitJoin.SplitCounts | pkg/metadata/metadata.go:132-135 | one piece more than separators, none inside a piece |
| SplitJoin.TrimSpaceCuts | pkg/watcher/pv_watcher.go:185 | trimming takes only white space and only from the ends |
| SplitJoin.IsSpaceExactly | pkg/watcher/pv_watcher.go:185 | the white space that trimming takes, by code point |
| Watcher.OwnTypeExactly | pkg/watcher/pv_watcher.go:101-105 | a watcher finds its own volume type for the volumes passing its filter at every later moment if and only if no later New for its provisioner gave another |
| Watcher.LastRegistrationCounts | pkg/watcher/pv_watcher.go:101-105 | after any calls of New a driver has the type of the last one for it |
| Watcher.PVWatcher.GetTags | pkg/watcher/pv_watcher.go:181-200 | the last seven tags are cluster ID, reclaim policy, storage class, namespace, claim, pv and provisioner of this pv in that order, and those before them join to the trimmed user tags |
| Watcher.PVWatcher.GetVolume | pkg/watcher/pv_watcher.go:202-239 | a released volume is only reported deleted; any other has tags, whole GiB and iops; the type is the shared map's; a size rounded up on creation is reported as the size asked for, in GiB, rounded up |
| Watcher.TagsRoundTrip | pkg/watcher/pv_watcher.go:184-197 | dropping the seven default tags, which it spells out, and joining gives the trimmed tag string of the pv back; the number of tags follows from its commas |
| Metadata.FetchFromSegments | pkg/metadata/metadata.go:130-138 | seven segments joined by slashes give back the seventh and the third |
| Metadata.FetchNeedsSixSlashes | pkg/metadata/metadata.go:131-138 | two empty strings for any other number of slashes |
| Metadata.MetadataExactly | pkg/metadata/metadata.go:86-111 | a node has metadata exactly when region and zone are known and it is a satellite host or its provider ID ends in an instance |
| Metadata.MetadataContents | pkg/metadata/metadata.go:92-111 | for every provider ID: zone and region of the labels; the labelled instance and no account for a satellite host, else the segments behind the sixth and the second slash |
| Metadata.MetadataFromSegments | pkg/metadata/metadata.go:99-111 | the worker and account of a provider ID given by its segments |
| Sizes.RoundUpBytesIsCeilingExactly | pkg/utils/utils.go:58-72 | the least GiB multiple that is at least the size, if and only if the size is in the stated set of 64-bit integers |
| Sizes.CeilingIsLeast | pkg/utils/utils.go:58-62 | the ceiling is below every other multiple that is at least the size |
| Sizes.RoundUpIsMonotoneExactly | pkg/utils/utils.go:58-62 | over all pairs of 64-bit sizes: the larger rounds to no smaller one if and only if it is at most 2^63 - 2^30, or both are past that, or the larger is two or more past it and the smaller among the two lowest |
| Sizes.RoundUpIsIdempotentExactly | pkg/utils/utils.go:58-62 | rounding twice is rounding once if and only if the size is above -2 GiB + 1 and at most 2^63 - 2^30 |
| Sizes.RoundUpStaysInRange | pkg/utils/constants.go:24-27 | sizes the service allows round to sizes it allows |
| Sizes.RoundUpThenConvert | pkg/utils/utils.go:58-67 | rounding up and converting is the exact ceiling in GiB |
| Sizes.BytesToGiBTruncates | pkg/utils/utils.go:65-67 | a conversion counts whole GiB, toward zero for every 64-bit size |
| Sizes.TopOfRange | pkg/utils/utils.go:69-72 | at the last size that rounds right the first sum overflows and the result is right all the same |
| LogAnalysis.Analyse | tests/e2e/scripts/migration-test/analyze-log-v02.sh:162-303 | the interval covers every operation, from the first that starts in the earliest second to the first that ends in the latest; a call time runs from the call to the end, 0 without a call, and the total is their sum |
| LogAnalysis.SmallestCover | tests/e2e/scripts/migration-test/analyze-log-v02.sh:267-294 | no smaller interval covers the operations |
| LogAnalysis.CallTimeBound | tests/e2e/scripts/migration-test/analyze-log-v02.sh:207-216 | calls inside their operations take no longer together than one whole interval each |

## Left out

- Kubernetes, gRPC, mount, Prometheus and zap calls, and generated code: foreign; a cluster answer is an input.
- Message texts and `Info`: formatting; the message table enters as a parameter.
- LockProtocol: the Go scheduler's fairness and mutex starvation mode; progress is stated as enabled steps and finite runs.
- FakeProtocol: a reader admitted in a batch when a writer leaves is admitted by a step of its own; what a stub does when called is not modelled.
- FakeProtocol: the lists of the invocation map appear by their lengths; their contents and sharing are in FakeNodeObject.
- FakeNodeObject: the growth rule of Go's append, which is some larger capacity here.
- Polling: wall-clock sleeps, log lines, file-name expansion of unquoted words, and glob characters in a volume name.
- The pod-running loop of the script tests the claim list where it means the pod list, and is not modelled.
- WaitGroup: pod creation is taken to succeed, as the worker is only started after it.
- Teardown: a setup helper that stops half-way loses its own list of clean-ups, so nothing is stated about it.
- Teardown: `SetupDynamicPersistentVolumeClaim` sets the claim in a loop copy of the volume, which no later step of these tests reads.
- `podCreateAndWait` of `RunSync`: one create, check and clean-up in sequence.
- Watcher: concurrent access to the type map, which the code does not guard; calls of `New` come one after the other.
- Teardown: a clean-up that itself fails, after which Go still runs the others in the same order.
- Watcher: the order of several updates of one volume, which the code leaves to the scheduler.
- LogAnalysis: picking the log lines of a claim, dates that do not parse, the printed percentages, and exits on missing claims.
- The disk-size tier switch in the end-to-end tests: a finite table.
