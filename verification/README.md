# Verified model of the Barman Cloud plugin

The Barman Cloud plugin lets CloudNativePG clusters archive and restore WAL files and backups
through object stores. This project models the parts of it that keep state or run concurrently, and
proves what they promise over all inputs, all runs and all interleavings. `dafny verify
dfyconfig.toml` checks everything.

**WAL restore** (`WalSegments`, `WalPrefetch`, `WalRestore`, `WalRestoreRuns`, `WalRestoreAnswers`,
`WalSequentialRestore`, `WalArchive`). A restore request may clear the end-of-stream flag, be
answered from the spool directory, consume the flag, or download a window of segments and set the
flag. The engine is a method over a mutable spool and flag, proved equal to a function; the theorems
are about sequences of requests. The main ones: prefetching refines a plain one-file downloader, every
answer has its cause and a stored file is delivered unless something fails or a set flag is consumed,
the flag is conserved, and an in-order recovery downloads every segment once.

**Permissions** (`TextOrder`, `RoleSpecs`, `RbacMerge`, `Versioned`, `RbacSystem`, `RbacPaths`,
`RbacCalls`, `RbacConvergence`, `RbacOverlap`, `RbacHealing`, `RbacNarrowing`,
`ObjectStoreController`). The Role and the RoleBinding of a Cluster live on an API server that keeps
every version. In `RbacSystem` any number of Pre hook calls and ObjectStore reconciles run
concurrently, one API call per step, among arbitrary other clients. `RbacCalls` holds the writers with
their retry loops, one call at a time against arbitrary interference given as turns, one for each API
call; their API calls are steps of that system, every error has its cause in the turns, and undisturbed
they succeed. Reads may be stale and patches are JSON merge patches (section 2 of RFC 7396) guarded by
the version. The main results: no write loses a grant, a successful Pre converges for good exactly if no
older names can come back, what a stale Pre wrote is healed by the next reconcile, and the controller
alone can only narrow a Role.

**Object cache** (`TtlCache`, `RecoveryThroughCache`, `RecoveryCacheRuns`). The list-backed cache,
edited in place, refines a map, serves nothing older than ten seconds, and keeps what it fetched for
that long. A hit shares its map of recovery windows with the cache, and the status writers write into
it; what that changes is stated exactly, for one call and over runs of both writers.

**Sidecar injection** (`PodLists`, `PodSpec`, `PodSpecRuns`, `PodSidecar`). The in-place rewrite of a
pod specification is idempotent and forgets earlier configurations; `PodSidecar` says, by positions in
the pod, what the sidecar is.

**Recovery windows, environment merging, routing** (`RecoveryWindow`, `MergeEnv`, `Routing`).
Version-checked status writers that lose no update, map override on lists of KEY=VALUE items, and the
choice of an object store, by the entries of the Cluster, set against the permissions granted.

`Prelude` and `Arithmetic` hold result types and facts about division.

## What the code does that its documentation or a reader may not expect

- `internal/cnpgi/operator/rbac/ensure.go:46-51` says that what a Pre hook call wrote from stale object
  stores is healed by the next ObjectStore reconcile. That is so, for every stale read of object stores
  (`RbacHealing.StalePreIsHealed`). It does not extend to names a Role has lost or lists in excess,
  because a store was deleted and created again or a Pre knew an older Cluster: a reconcile works from
  the names the Role lists (`RbacHealing.NextReconcileHealsExactly`), and only the next Pre puts them
  right.
- A reconcile that has read its stores before a Pre hook call may write its older rules after it. A
  successful Pre is final in every run exactly if the names the Role listed at the start are the right
  ones, or no reconcile could find the Role by them (`RbacOverlap.OnePreConvergesExactly`).
- The cache hands out the map of recovery windows it holds
  (`internal/cnpgi/instance/internal/client/client.go:127-134`), and its callers write into it:
  `internal/cnpgi/instance/recovery_window.go:51-60` with objects read at
  `internal/cnpgi/instance/retention.go:103` and `internal/cnpgi/instance/backup.go:85`, and
  `internal/cnpgi/instance/recovery_window.go:78-85`. From then on, until the object store has a new
  version, other writers of the process may commit that window with theirs
  (`RecoveryCacheRuns.AcceptedStatusIsReplay`, `RecoveryCacheRuns.StepSoundExactly`): while its own
  update is under way (`RecoveryCacheRuns.UnderWayIsCommitted`), and after that update has failed
  (`TtlCache.RefusedWindowIsServed`, `RecoveryThroughCache.RefusedWindowIsCommitted`).
- Retrying `setLastFailedBackupTime` on a conflict reads the same cached object again for up to ten
  seconds. If no one else writes and nothing fails, the time is lost exactly if that is so in every
  attempt (`RecoveryThroughCache.SetLastFailedBackupTime`).
- A file that was marked as archived is delivered empty if it is restored through the same spool
  directory before it is archived again (`WalArchive.MixedAnswersExactly`).
- `internal/cnpgi/operator/rbac/ensure.go:316-318` describes the label test as finding any desired key
  that is missing; a missing key with an empty desired value is not found
  (`RbacMerge.LabelTestExactly`). The labels the plugin builds have an empty value only for a Cluster
  without name.
- A segment name with lower-case digits is accepted, but the engine asks the store for its upper-case
  form (`WalRestoreRuns.CanonicalNamesExactly`).
- Segment fields are int32 and wrap around; `WalSegments.Fits` is the exact bound. A negative field
  prints with a sign, so such a name is no WAL file name.
- The sidecar keeps one mount per volume name, so a volume the main container mounts twice reaches it
  once (`PodSpecRuns.AllMountsSharedExactly`).
- A disabled plugin entry still names the object store, while its server name is ignored
  (`Routing.SameEntryExactly`).

## What is assumed of code outside the repository

- The restorer library: `RestoreFromSpool` moves a staged file to the destination; `RestoreList` gives
  one result per name, puts the first file at the destination and other fetched files into the spool;
  a failed download leaves the spool alone; the flag is set, read and removed, and a failed flag call
  changes nothing. Every call may fail, as the environment of a request decides.
- A download reports "not found" only for a name the store did not hold when the request began, and
  delivers bytes the store holds when it ends. The store only grows.
- The archiver library marks archived files other than the requested one in the spool by an empty file.
- The API server accepts a version-checked write exactly if its version is the latest. Retrying on
  conflict may give up at any attempt.
- The base client answers a read with an object of the key it was asked for.

## Model

| member | source | states |
|---|---|---|
| WalRestore.RestoreFromBarmanObjectStore | internal/cnpgi/common/wal.go:316-444 | The engine with its early exits, proved equal, in answer, spool, flag and download record, to the function `Restore`, about which the run theorems speak |
| WalRestore.CheckEndOfWalStreamFlag | internal/cnpgi/common/wal.go:555-570 | A set flag is consumed by one end-of-stream answer; failing flag calls are errors and leave the flag as it is |
| WalRestore.ClearEndOfWalStreamFlag | internal/cnpgi/common/wal.go:576-586 | The flag is removed without an error; a failing read or removal is an error |
| WalRestore.IsEndOfWalStreamResult | internal/cnpgi/common/wal.go:590-598 | True exactly when some result of the list is "not found" |
| WalRestore.ListToDownload | internal/cnpgi/common/wal.go:390-401 | A regular WAL name is prefetched, any other name is fetched alone |
| WalPrefetch.GatherWalFilesToRestore | internal/cnpgi/common/wal.go:532-552 | The loop over the following segments computes the download list of the theorems; a name that does not parse gives itself alone |
| WalRestoreRuns.SpoolStaysFaithful | internal/cnpgi/common/wal.go:363-424 | Over every run of normal and rewind requests on an append-only store, every spool entry equals the entry of the store under its name |
| WalRestoreRuns.EngineRefinesDownloader | internal/cnpgi/common/wal.go:316-444 | In every run, delivered bytes are those the store holds under the requested canonical name, and a name the store holds is never answered "not found": the prefetching engine refines a one-file downloader |
| WalRestoreRuns.CanonicalNamesExactly | internal/cnpgi/common/wal.go:390-408 | The refinement holds for a name, from every faithful state and in every environment, if and only if the name does not parse or is in upper case |
| WalRestoreRuns.LowerCaseIsReportedMissing | internal/cnpgi/common/wal.go:532-552 | Concrete counterexample: a lower-case name the store holds is reported missing |
| WalRestoreRuns.FlagIsConserved | internal/cnpgi/common/wal.go:363-424 | Initial flag plus successful sets equals end-of-stream answers plus rewind clears plus final flag, over every run with any failures |
| WalRestoreRuns.EndAnswersAreSeparated | internal/cnpgi/common/wal.go:380-424 | Between two end-of-stream answers some request delivered its file from the store |
| WalRestoreRuns.RewindIsIsolated | internal/cnpgi/common/wal.go:347-388 | Rewind requests never answer end-of-stream and never add to the spool; once one got past the clear the flag stays clear and the next request of any mode cannot fail on a stale flag |
| WalRestoreAnswers.AnswersHaveCauses | internal/cnpgi/common/wal.go:316-444 | In every state, every answer to every request has its cause (a setup failure, a failed move, a failed flag call of a request that needs the flag, the matching result of the one download, or a set flag), and spool, flag and download record are what goes with it |
| WalRestoreAnswers.FlagAppliesExactly | internal/cnpgi/common/wal.go:488-528 | The flag is used for exactly the normal requests of pods that are not the primary, once there is one, or are the primary of a replica cluster with a streaming source, by the fields of the Cluster |
| WalRestoreAnswers.DeliveredExactly | internal/cnpgi/common/wal.go:316-444 | Without failures, a name that is in the spool or can be fetched is delivered, from the spool if it is there, unless, exactly, a set flag is in its way |
| WalRestoreAnswers.StoredIsDelivered | internal/cnpgi/common/wal.go:316-444 | In every run and from every state it reaches: a request for a canonical name in the store that meets no failure delivers the bytes of the store, unless it consumes a set flag |
| WalArchive.MixedAnswersExactly | internal/cnpgi/common/wal.go:148-154 | After any run mixing Archive and Restore calls, every answer of the next Restore of a name refines the downloader, whatever happens during it, if and only if the name is not in the spool only by the mark of an Archive, or names an empty file of the store |
| WalArchive.MarkedFileIsServedEmpty | internal/cnpgi/common/wal.go:363-372 | Concrete counterexample: a file marked while archiving another one is delivered empty |
| WalSequentialRestore.EveryRequestSucceeds | internal/cnpgi/common/wal.go:363-424 | In order, over n segments the store holds and none after them: every request delivers the bytes of the store, from the store exactly at multiples of the window, and the spool stays below the window size |
| WalSequentialRestore.EverySegmentOnce | internal/cnpgi/common/wal.go:403-408 | The rounds are ceil(n / window) many and their concatenation is the list of the segments from the first one on, none twice |
| WalSequentialRestore.TheEndIsAnnounced | internal/cnpgi/common/wal.go:416-424 | Afterwards the spool is empty, and the request after the last segment is told end-of-stream if and only if the window does not divide n, and "not found" otherwise |
| WalPrefetch.FetchNameExactly | internal/cnpgi/common/wal.go:532-552 | The first name of the download list is the requested name if and only if that name is canonical, and its upper-case form if it parses |
| WalPrefetch.DownloadListShape | internal/cnpgi/common/wal.go:390-401 | The list starts with the requested name as fetched; it has the window size for segment names and is a singleton for every name that does not parse |
| WalPrefetch.DownloadListIncreasing | internal/cnpgi/common/wal.go:532-552 | The list consists of strictly increasing regular WAL names if and only if no int32 field overflows within the window |
| WalArchive.ArchiveWal | internal/cnpgi/common/wal.go:180-228 | Steps 3 and 4 of Archive, proved equal to a function of spool and environment: skip by spool entry, else archive the requested name first and fail on the first failed result |
| WalArchive.SpoolNamesAreStored | internal/cnpgi/common/wal.go:180-228 | In every run mixing Archive and Restore calls, every name in the spool is in the store |
| WalArchive.ArchivedIsStored | internal/cnpgi/common/wal.go:180-228 | In every such run, an Archive that ends without error, also by the "already archived" skip, leaves the requested WAL in the store |
| WalArchive.ArchiveAnswersExactly | internal/cnpgi/common/wal.go:180-228 | Already archived if and only if the name is in the spool and no call before fails; archived if and only if it is not, and nothing fails for it and the ready files |
| WalArchive.ArchiveSpoolExactly | internal/cnpgi/common/wal.go:180-228 | The spool loses exactly the skipped name and gains exactly the other archived ones, as empty files, also when archiving some file fails |
| WalSegments.RoundTrip | internal/cnpgi/common/wal_import.go:107-155 | Parsing what was printed gives the segment back if all fields are non-negative, and fails for every other segment; exactly the former print regular WAL names |
| WalSegments.ParsesExactly | internal/cnpgi/common/wal_import.go:107-139 | A name parses if and only if it is 24 hex digits whose three groups are at most 7FFFFFFF; printing the result gives the upper-case form of the name |
| WalSegments.NameOrder | internal/cnpgi/common/wal_import.go:152-155 | The order of names as strings is the order of (timeline, log, segment) triples |
| WalSegments.NextSegments | internal/cnpgi/common/wal_import.go:170-197 | Element i of the list is the i-fold successor, int32 wrap-around included |
| WalSegments.CollectSegments | internal/cnpgi/common/wal_import.go:182-196 | The loop over the current segment, against the i-fold successor |
| WalSegments.AdvanceClosed | internal/cnpgi/common/wal_import.go:182-194 | Closed form of element i with division and remainder, for both variants, also for a segment number beyond the last of its file |
| WalSegments.SegmentsPerFileOfPower | internal/cnpgi/common/wal_import.go:158-163 | For a segment size of 2^k, 1 <= k <= 31, there are 2^(32-k) - 1 segments to a file |
| WalSegments.IncreasingExactly | internal/cnpgi/common/wal_import.go:170-197 | All elements are printable and strictly increasing if and only if `Fits`, the bound under which no int32 field overflows |
| WalSegments.OverflowShows | internal/cnpgi/common/wal_import.go:189-193 | Without that bound an element with a negative field appears within the list |
| RoleSpecs.BuildRoleRules | internal/cnpgi/operator/specs/role.go:52-105 | The loop over the stores gives the three rules over the sorted sets of all store names and all secret names |
| RoleSpecs.NamesOfBuiltRules | internal/cnpgi/operator/specs/role.go:112-123 | Reading the store names back from built rules gives the strictly sorted list of exactly the names of the stores |
| RoleSpecs.RulesIgnoreOrder | internal/cnpgi/operator/specs/role.go:52-105 | Rules do not depend on order or repetition of the stores |
| RoleSpecs.ListedExactly | internal/cnpgi/operator/specs/role.go:52-105 | For every group, verb, resource and name: the rules list it if and only if it is reading a store, updating the status of a store, or reading a secret of a store |
| RoleSpecs.SecretsExactly | internal/cnpgi/operator/specs/secrets.go:28-70 | A secret is listed if and only if one of the credential fields refers to it, those of Azure only without default or inherited credentials |
| RoleSpecs.BindingGrants | internal/cnpgi/operator/specs/role.go:126-149 | The only Subject is the service account named like the Cluster in its namespace, and the RoleRef names its Role |
| RbacMerge.MergeLabels | internal/cnpgi/operator/rbac/ensure.go:303-314 | Desired keys overwrite, all other keys stay |
| RbacMerge.LabelTestExactly | internal/cnpgi/operator/rbac/ensure.go:319-326 | The needs-update test agrees with what merging would change, for all existing labels, if and only if no desired value is empty |
| RbacMerge.EmptyLabelIsMissed | internal/cnpgi/operator/rbac/ensure.go:319-326 | Concrete counterexample: a missing label whose desired value is empty |
| RbacMerge.ContainsSubject | internal/cnpgi/operator/rbac/ensure.go:330-337 | Membership test |
| RbacMerge.MergeSubjects | internal/cnpgi/operator/rbac/ensure.go:348-355 | The loop that appends missing subjects, against `MergedSubjects` |
| RbacMerge.MergedSubjectsShape | internal/cnpgi/operator/rbac/ensure.go:348-355 | The existing list stays as a prefix, every desired Subject is contained, and nothing is added that was there |
| RbacMerge.MergedBindingNeedsNothing | internal/cnpgi/operator/rbac/ensure.go:361-369 | Merging makes the needs-update test false |
| RbacMerge.BindingTestExactly | internal/cnpgi/operator/rbac/ensure.go:361-369 | The test for a RoleBinding agrees with what merging would change, for all existing objects, if and only if no desired label value is empty |
| RbacMerge.RolePatchReproduces | internal/cnpgi/operator/rbac/ensure.go:289-297 | A JSON merge patch computed from an object and applied to that object gives the intended Role |
| RbacMerge.BindingPatchReproduces | internal/cnpgi/operator/rbac/ensure.go:219-225 | The same for the RoleBinding |
| RbacMerge.UnlockedPatchKeepsSubjectsExactly | internal/cnpgi/operator/rbac/ensure.go:219-225 | What the version check protects: applied to a newer object, the patch keeps its Subjects if and only if it carries none or all were known to the reader |
| RbacMerge.CheckLabels | internal/cnpgi/operator/rbac/ensure.go:319-326 | The loop of the label test against its meaning |
| RbacMerge.CheckRoleBinding | internal/cnpgi/operator/rbac/ensure.go:361-369 | The loop of the RoleBinding test against its meaning |
| RbacCalls.PatchRole | internal/cnpgi/operator/rbac/ensure.go:267-298 | The retry loop against any turns of the environment (writes of others, version read, failure of each call): each call is one turn and one step of a call of the concurrent system; at most one write, which is the desired change of the version right before it, none after an error. Unreachable only if the last call of the loop fails, a conflict only after all attempts, each with an old version read or a write between read and patch, not found only if the Role was seen absent and, with fresh reads, only if it was not there or was deleted meanwhile. So with no failing call, the Role never absent and one undisturbed attempt it succeeds, and with fresh reads success means that the latest version is right |
| RbacCalls.EnsureRole | internal/cnpgi/operator/rbac/ensure.go:52-66 | Creation and patch together: every version written carries the desired rules and keeps the labels the server held right before; errors have the causes of patchRole, and undisturbed the call succeeds and the latest Role is right |
| RbacCalls.EnsureRoleRules | internal/cnpgi/operator/rbac/ensure.go:75-89 | As patchRole without labels and with the same causes of errors; a Role that is gone is no error |
| RbacCalls.EnsureRoleExists | internal/cnpgi/operator/rbac/ensure.go:231-261 | Reads, and creates the Role only if the read found none; a creation that loses the race is no error; it fails exactly if its last call fails, and after a fresh read a Role is there |
| RbacCalls.GetOrCreateRoleBinding | internal/cnpgi/operator/rbac/ensure.go:133-171 | Creation races end in a version to reconcile, which is the one the first or third call read; a creation leaves a right RoleBinding; it fails exactly if its last call does, or if the second read finds no RoleBinding |
| RbacCalls.ReconcileRoleBinding | internal/cnpgi/operator/rbac/ensure.go:180-226 | The retry loop whose first attempt uses the given version: every write keeps Subjects, RoleRef and labels of the version right before it. Unreachable only if the last call fails, a conflict only if each attempt had an old version or a write before its patch, a divergent RoleRef only if one was seen; with fresh reads not found means deleted meanwhile, and success that the latest version is right |
| RbacCalls.EnsureRoleBinding | internal/cnpgi/operator/rbac/ensure.go:108-123 | The same for the whole call; undisturbed, and with no other RoleRef in sight, it succeeds and the latest RoleBinding is right |
| RbacCalls.Pre | internal/cnpgi/operator/reconciler.go:88-126 | A store that cannot be read stops the hook before any write, with a requeue exactly if it is missing; otherwise all writes keep what the server held, the hook fails only for the causes of its Role and RoleBinding calls, and undisturbed it continues and both latest versions are right |
| RbacCalls.ReadStoresExactly | internal/cnpgi/operator/reconciler.go:94-112 | All stores in order if each can be read, and otherwise the error of the first that cannot |
| RbacSystem.NoLostGrants | internal/cnpgi/operator/rbac/ensure.go:180-226 | Under every interleaving of plugin calls and other writers with stale reads, each committed write keeps all Subjects, the RoleRef and unrelated labels the server held at that moment |
| RbacSystem.BindStepKeepsGrants | internal/cnpgi/operator/rbac/ensure.go:133-225 | The RoleBinding part of it, per API call, including creation races |
| RbacSystem.RoleStepKeepsLabels | internal/cnpgi/operator/rbac/ensure.go:267-298 | The Role part of it, per API call; a write carries the rules computed before the retry loop |
| RbacSystem.RightRoleExactly | internal/cnpgi/operator/rbac/ensure.go:280-283 | No patch is needed if and only if the rules are equal and, for the Pre hook, each of the six labels has its value, by name |
| RbacSystem.UpdatedExactly | internal/cnpgi/operator/rbac/ensure.go:291-296 | The controller changes only the rules; the Pre hook also sets the six labels; no other label changes |
| RbacSystem.NextIsWellFormed | internal/cnpgi/operator/rbac/ensure.go:180-298 | Histories only grow, and every patch in flight was computed from a version that existed |
| RbacPaths.RolePathIsRun | internal/cnpgi/operator/rbac/ensure.go:231-298 | Every path of API calls on the Role, with whatever others write in between, is part of a run of the concurrent system |
| RbacPaths.BindPathIsRun | internal/cnpgi/operator/rbac/ensure.go:133-225 | The same for the RoleBinding |
| RbacPaths.PreWayIsRun | internal/cnpgi/operator/reconciler.go:114-120 | The same for a Pre hook call that goes on from the Role to the RoleBinding, so that theorems about runs are about the loops of `RbacCalls` |
| RbacConvergence.HealsExactly | internal/controller/objectstore_controller.go:108-133 | A reconcile of a Role computes the rules the Pre hook wants if and only if, of the stores that exist, the Role lists those the Cluster refers to |
| RbacConvergence.TargetIsFixed | internal/controller/objectstore_controller.go:106-133 | A reconcile that starts from the rules of the Pre hook computes the same rules |
| RbacConvergence.AimingStays | internal/cnpgi/operator/rbac/ensure.go:46-89 | Pre hook calls and reconciles in flight together: while all aim at the target, a step that writes the Role writes the target and only where the Role was not right, and what a Pre has dealt with stays right |
| RbacConvergence.ConvergedStays | internal/cnpgi/operator/rbac/ensure.go:46-89 | Once converged, every step of any mix of Pre hook calls and reconciles leaves Role and RoleBinding alone, and none gets as far as sending a patch of the Role |
| RbacConvergence.OnePreConverges | internal/cnpgi/operator/reconciler.go:94-120 | With quiet object stores, fresh reads and older calls over, and reconciles running at any time: from the first success of a Pre on, the rules are exactly `BuildRoleRules` of the referred stores, nothing changes and no new patch is sent |
| RbacOverlap.OnePreConvergesExactly | internal/cnpgi/operator/reconciler.go:94-120 | That holds in every run if and only if at the start no reconcile could find the Role by the stores it lists, or of the existing stores it lists those the Cluster refers to |
| RbacOverlap.OverlapImposesOlderRules | internal/cnpgi/operator/rbac/ensure.go:267-298 | The run that shows the other half: a reconcile reads, a Pre succeeds, the reconcile writes the older rules over it |
| RbacOverlap.PreAloneSucceeds | internal/cnpgi/operator/reconciler.go:62-127 | From every state with existing stores and no foreign RoleRef, a Pre left alone succeeds and leaves the Role right, whatever other calls are in flight |
| RbacHealing.StalePreNamesReferred | internal/cnpgi/operator/reconciler.go:94-112 | In every run with stale reads and other writers, a Pre either stops before it writes or goes on with rules that list exactly the referred stores |
| RbacHealing.NextReconcileHealsExactly | internal/controller/objectstore_controller.go:62-133 | The next undisturbed reconcile of a listed store makes the rules those the Pre hook wants if and only if, of the existing stores, the Role lists those the Cluster refers to |
| RbacHealing.StalePreIsHealed | internal/cnpgi/operator/rbac/ensure.go:46-51 | Self-healing: whatever a Pre with stale reads wrote, the next undisturbed reconcile of any referred store makes the rules exactly right |
| RbacHealing.RecreatedStoreStaysLost | internal/controller/objectstore_controller.go:108-133 | How a name is lost for the controller: its store is deleted, a reconcile drops it, and creating it again does not bring it back |
| RbacNarrowing.ReconcilesOnlyNarrow | internal/controller/objectstore_controller.go:62-133 | Over every interleaving of reconciles without a Pre, the Role never lists a name it did not list at the start |
| ObjectStoreController.Reconcile | internal/controller/objectstore_controller.go:62-104 | The loop over labelled Roles against a map of Roles, with exactly the Roles whose calls failed reported and left alone |
| ObjectStoreController.ReconcileRoleRules | internal/controller/objectstore_controller.go:108-133 | Missing stores are skipped, another error stops before any write, otherwise the Role gets the rules of its stores that exist |
| ObjectStoreController.ReconciledNames | internal/controller/objectstore_controller.go:62-133 | After an error-free reconcile each labelled Role that listed the store lists exactly its stores that exist, strictly sorted |
| ObjectStoreController.ReconcileIsIdempotent | internal/controller/objectstore_controller.go:62-133 | Reconciling again changes nothing |
| ObjectStoreController.NamesNeverGrow | internal/controller/objectstore_controller.go:84-132 | Over every sequence of reconciles, with failures, no Role gains a name |
| TextOrder.SortedUnique | internal/cnpgi/operator/specs/role.go:76-102 | A strictly sorted list is determined by its elements, so that sorted sets compare as lists |
| TtlCache.ExtendedClient.GetCachedObject | internal/cnpgi/instance/internal/client/client.go:92-155 | The list search with expiry, overwrite in place and append keeps one entry per key and refines a map from keys to objects with fetch times; a hit hands out the very map of windows the entry holds, a miss one of its own |
| TtlCache.ExtendedClient.RemoveObject | internal/cnpgi/instance/internal/client/client.go:158-170 | Splicing out the first match removes the key from the map |
| TtlCache.ExtendedClient.Get | internal/cnpgi/instance/internal/client/client.go:79-90 | Only Secrets and ObjectStores go through the cache |
| TtlCache.ExtendedClient.Write | internal/cnpgi/instance/internal/client/client.go:173-210 | Update, Delete and Patch make the cache forget the object first |
| TtlCache.ViewExactly | internal/cnpgi/instance/internal/client/client.go:51-55 | With one entry per key, the map holds exactly the entries of the list |
| TtlCache.ViewOfReplaced | internal/cnpgi/instance/internal/client/client.go:147-149 | Overwriting at an index updates the map at that key and keeps one entry per key |
| TtlCache.ViewOfCut | internal/cnpgi/instance/internal/client/client.go:162-168 | Splicing removes one key from the map and keeps one entry per key |
| TtlCache.EntryHasASource | internal/cnpgi/instance/internal/client/client.go:136-152 | Over every run, each entry is the deep copy of an object the base client returned for its key at its fetch time, and was not forgotten since |
| TtlCache.MapIsThrough | internal/cnpgi/instance/internal/client/client.go:127-134 | A map held by the cache changes only by windows written through objects of earlier hits |
| TtlCache.ReadsAreRecent | internal/cnpgi/instance/internal/client/client.go:92-155 | Every object a cached Get returns at clock t is from the base client, by this call or at t0 with t - t0 <= 10, with exactly the windows written since through hits of the same fetch; without such writes it is the object of the base client; an expired entry is not served even when the base read fails |
| TtlCache.EntryIsKept | internal/cnpgi/instance/internal/client/client.go:92-155 | Over runs: what a miss fetched is in the cache at every later event, unless its key was forgotten or fetched again in between; events on other keys do not matter |
| TtlCache.FetchedIsServed | internal/cnpgi/instance/internal/client/client.go:127-134 | So for ten seconds a read of the key is answered with that object and the windows written since, whatever the base client would say |
| TtlCache.SharingExactly | internal/cnpgi/instance/internal/client/client.go:127-134 | Whatever the caller of a read writes into its object, the next hit returns what that read returned, if and only if the read was a miss or the object has no map of windows |
| TtlCache.RefusedWindowIsServed | internal/cnpgi/instance/recovery_window.go:51-61 | The input for the other half: of any object with windows, a window whose update was refused is served from the cache, though the server never held it |
| TtlCache.ForgottenIsNeverServed | internal/cnpgi/instance/internal/client/client.go:158-210 | After Update, Delete or Patch of a key the next Get is answered by the base client |
| PodSpec.Spec.Reconcile | internal/cnpgi/operator/lifecycle.go:370-496 | The in-place rewrite, against the function `Reconciled` on pods; an error exactly when there is no main container, and then the volumes are changed but no init container |
| PodSpec.Spec.InjectPluginVolume | internal/cnpgi/operator/lifecycle.go:501-536 | Nothing changes if a plugins volume is there, otherwise the volume is appended and every main container mounts it |
| PodSpec.Spec.InjectPluginSidecar | internal/cnpgi/operator/lifecycle.go:539-572 | The sidecar with the mounts of all main containers replaces every init container of its name or is appended |
| PodLists.EnsureVolume | internal/cnpgi/operator/lifecycle.go:576-590 | Every volume of the name is replaced, or the volume is appended |
| PodLists.EnsureVolumeMount | internal/cnpgi/operator/lifecycle.go:594-611 | Per mount, the first mount of the name is replaced, or the mount is appended |
| PodLists.RemoveVolume | internal/cnpgi/operator/lifecycle.go:614-622 | All volumes of the name are dropped, the others keep their order |
| PodLists.RemoveVolumeMount | internal/cnpgi/operator/lifecycle.go:624-632 | All mounts of the name are dropped, the others keep their order |
| PodLists.MergeMissing | internal/cnpgi/operator/lifecycle.go:433-466 | The nested loops that append variables whose name is not there yet |
| PodLists.ExtendedIsFirstOccurrences | internal/cnpgi/operator/lifecycle.go:433-466 | What they append are the first occurrences of the new names, defined on its own by filtering |
| PodLists.FirstOccurrencesExactly | internal/cnpgi/operator/lifecycle.go:433-466 | A variable is kept if and only if no earlier one has its name, and no name occurs twice |
| PodLists.WithMountsExactly | internal/cnpgi/operator/lifecycle.go:594-611 | Ensuring a list of mounts keeps names distinct and contains exactly the last mount of each new name and the old mounts of other names |
| PodLists.ReplacedIsSwapped | internal/cnpgi/operator/lifecycle.go:576-590 | Replacing volumes is removing them and adding as many copies |
| PodSpecRuns.ReconcileIsIdempotent | internal/cnpgi/operator/lifecycle.go:370-496 | Reconciling twice with the same configuration equals reconciling once, order included |
| PodSpecRuns.ContainersForget | internal/cnpgi/operator/lifecycle.go:537-572 | Containers and init containers after c1 and then c2 are those after c2 alone |
| PodSpecRuns.VolumesForgetExactly | internal/cnpgi/operator/lifecycle.go:469-490 | Up to order, so are the volumes, if and only if c1 has certificates or c2 has none or the pod had at most one certificates volume |
| PodSpecRuns.TwoCertificatesVolumesRemembered | internal/cnpgi/operator/lifecycle.go:576-622 | Concrete counterexample: a pod with two certificates volumes |
| PodSpecRuns.VolumesForgetInOrder | internal/cnpgi/operator/lifecycle.go:469-490 | Unless c1 has no certificates and c2 has some, even the order of the volumes is the same |
| PodSpecRuns.OnlyTheLastCounts | internal/cnpgi/operator/lifecycle.go:370-496 | After any history of configurations the pod is, up to the order of volumes, as if only the last had been applied, if and only if the pod had at most one certificates volume, or the last configuration has no certificates, or all earlier ones have some |
| PodSpecRuns.OtherVolumesStay | internal/cnpgi/operator/lifecycle.go:468-490 | All volumes but certificates and plugins are untouched, in order |
| PodSpecRuns.OtherContainersStay | internal/cnpgi/operator/lifecycle.go:501-572 | No container comes or goes; containers that are not main are untouched and main ones keep every field and, in order, every mount but that of the plugins; init containers change only if they are the sidecar |
| PodSpecRuns.SidecarEnvironment | internal/cnpgi/operator/lifecycle.go:377-466 | The sidecar is there, every init container of its name is it, and its environment is the first-occurrence de-duplication of main container, defaults, configured variables |
| PodSpecRuns.MainContainerWins | internal/cnpgi/operator/lifecycle.go:433-449 | A variable of the main container is never overridden |
| PodSpecRuns.SidecarMounts | internal/cnpgi/operator/lifecycle.go:469-489 | A mount is in the sidecar if and only if it is the last of its volume name in the main containers, or the certificates mount where they do not define it |
| PodSpecRuns.AllMountsSharedExactly | internal/cnpgi/operator/lifecycle.go:548-553 | All mounts of the main containers reach the sidecar if and only if no volume is mounted in two different ways |
| PodSpecRuns.SecondMountLost | internal/cnpgi/operator/lifecycle.go:594-611 | Concrete counterexample: a volume mounted at two paths |
| PodSidecar.SidecarFields | internal/cnpgi/operator/lifecycle.go:401-435 | Name, image, arguments, probe, security context, resources and restart policy of every init container of the sidecar name, field by field |
| PodSidecar.SidecarEnvironmentIs | internal/cnpgi/operator/lifecycle.go:377-467 | For any template: its environment, then of each other name the first occurrence among the variables of the main container at the least index, the five of the plugin with their values, and the configured ones |
| PodSidecar.MainVariablesAreKept | internal/cnpgi/operator/lifecycle.go:436-453 | A variable of the main container is in the sidecar with its value, and no other of that name is |
| PodSidecar.SidecarMountsExactly | internal/cnpgi/operator/lifecycle.go:469-490 | For any template: a mount is in the sidecar if and only if it is the last of its volume name among the containers at the indices named main, or no such container mounts that volume and it is the certificates mount, if there are certificates, or another mount of the template |
| PodSidecar.PluginsAreInjected | internal/cnpgi/operator/lifecycle.go:501-536 | A pod without plugins volume gets it, and every container named main mounts it |
| PodSidecar.PluginsAreLeft | internal/cnpgi/operator/lifecycle.go:501-536 | A pod that has the plugins volume keeps its containers |
| PodSidecar.CertificatesAreMounted | internal/cnpgi/operator/lifecycle.go:469-489 | The certificates volume is there if and only if there are certificates, and projects just these |
| RecoveryWindow.UpdateRecoveryWindow | internal/cnpgi/instance/recovery_window.go:37-62 | One update, accepted only if the object is still the latest version, changes the two backup times of one server and nothing else |
| RecoveryWindow.SetLastFailedBackupTime | internal/cnpgi/instance/recovery_window.go:66-89 | The retry loop against any writes of others: it returns in the first attempt that does not end in a conflict, fails there exactly if a call does or there is no object, and gives up only after contended attempts; a success adds exactly the failure time of one server to the version found |
| RecoveryThroughCache.SetLastFailedBackupTime | internal/cnpgi/instance/recovery_window.go:66-89 | The retry loop reading through the cache and writing into served objects: from a sound cache a success adds exactly the failure time, and every success leaves the cache sound; while a fresh entry of an old version is cached the time is not recorded, and if no one else writes and nothing fails it is recorded if and only if not every attempt is served such an entry; no other writer of the process uses the map between read and update; it fails only if a call does, there is no object, or each attempt was contended or may have been served from the cache |
| RecoveryThroughCache.UpdateRecoveryWindow | internal/cnpgi/instance/recovery_window.go:37-62 | One update with an object read through the cache, on its windows by now: accepted exactly if its version is the latest, and written into the shared map either way |
| RecoveryThroughCache.SoundExactly | internal/cnpgi/instance/recovery_window.go:51-61 | A cache is sound if and only if an update based on its object, if of the latest version, would add nothing but its own change, for every failure |
| RecoveryThroughCache.RefusedWindowIsCommitted | internal/cnpgi/instance/recovery_window.go:51-61 | Concrete counterexample without soundness: a refused window of the cache is committed by the next accepted update |
| RecoveryCacheRuns.AcceptedStatusIsReplay | internal/cnpgi/instance/recovery_window.go:37-89 | Over all runs of both writers from an empty cache, with reading, writing the map, encoding and sending apart and everyone acting in between: every accepted status is the one found with the changes written into the map of the writer since it was fetched, in order, its own among them |
| RecoveryCacheRuns.OwnAloneExactly | internal/cnpgi/instance/recovery_window.go:51-60 | Such a status has the own change of the writer alone if and only if, server by server, the other changes make no difference |
| RecoveryCacheRuns.StepSoundExactly | internal/cnpgi/instance/recovery_window.go:51-61 | From a state in which only own changes would be committed, every step leads to such a state, except, exactly, a write that shows in a map of the latest version that the cache or another writer still uses |
| RecoveryCacheRuns.NewVersionIsSound | internal/cnpgi/instance/recovery_window.go:61 | A new version of the status ends that: nothing read or written before it can be committed any more |
| RecoveryCacheRuns.CommitsOwnExactly | internal/cnpgi/instance/recovery_window.go:37-89 | In every state such runs reach, that state is what it takes: after any further read, all holders commit just their own change if and only if it holds |
| RecoveryCacheRuns.UnderWayIsCommitted | internal/cnpgi/instance/recovery_window.go:60-61 | Concrete counterexample without any failure: a window whose update is under way is committed by another writer of the process that sends first |
| RecoveryWindow.StatusIsReplay | internal/cnpgi/instance/recovery_window.go:37-89 | Under any interleaving of writers, the status is the starting status with the accepted changes applied in order: no update is lost |
| RecoveryWindow.ReplayIsPerServer | internal/cnpgi/instance/recovery_window.go:51-60 | The window of a server depends on the changes of that server alone |
| RecoveryWindow.WindowsAreIndependent | internal/cnpgi/instance/recovery_window.go:37-89 | So, in every interleaving, the window of a server is what its own accepted changes make of it |
| RecoveryWindow.WindowIsLastChange | internal/cnpgi/instance/recovery_window.go:52-58 | Backup times come from the last accepted backup and the failure time from the last accepted failure of the server |
| MergeEnv.MergeEnv | internal/cnpgi/common/common.go:71-94 | The nested loops compute `Merged` |
| MergeEnv.PrefixIsKey | internal/cnpgi/common/common.go:75-85 | The `KEY=` prefix test is equality of keys |
| MergeEnv.MergeIsOverride | internal/cnpgi/common/common.go:71-94 | Each entry takes the last incoming value of its key and keeps its position; unbound keys are appended once, in order, with their last value; items without = are dropped |
| MergeEnv.MergedBindsAll | internal/cnpgi/common/common.go:87-89 | Every incoming key is bound afterwards |
| MergeEnv.MergeIsIdempotent | internal/cnpgi/common/common.go:71-94 | Merging the same list twice changes nothing |
| Routing.NewFromCluster | internal/cnpgi/operator/config/config.go:142-191 | The loop over the plugin entries and the two external sources give the configuration `Configures` describes by last entries |
| Routing.NewPlugin | internal/cnpgi/operator/config/config.go:284-295 | The last entry of the name, enabled or not, gives parameters and index |
| Routing.ConfigurationUnique | internal/cnpgi/operator/config/config.go:142-191 | That description determines the configuration |
| Routing.SameEntryExactly | internal/cnpgi/operator/config/config.go:142-191 | With one plugin entry the store name is read even if it is disabled, and the server name follows the same entry if and only if it is enabled or asks for no other name |
| Routing.GetReferredBarmanObjectsKey | internal/cnpgi/operator/config/config.go:107-128 | The keys are the strictly sorted non-empty names in the namespace of the Cluster |
| Routing.ReferredExactly | internal/cnpgi/common/wal.go:291-314 | The referred names are exactly those some instance may restore from, depending on who is primary |
| Routing.AlwaysRoutedExactly | internal/cnpgi/common/wal.go:291-314 | Every instance finds a store name whoever is primary if and only if backup and recovery both name one |
| Routing.RoutedIsGranted | internal/cnpgi/operator/specs/role.go:52-105 | The rules the Pre hook aims at grant, for the store an instance is sent to, reading it, updating its status and reading its secrets, and list no store that no instance could be sent to |
| Routing.BootstrapIsRouted | internal/cnpgi/common/wal.go:291-314 | Before there is a primary, an instance restores from store and server of the plugin entry of the recovery source |
| Routing.StandbyIsRouted | internal/cnpgi/common/wal.go:291-314 | Everyone but the primary restores from the store of the last entry of the plugin, with the server of the last enabled entry that sets one, or else the Cluster name |
| Routing.PrimaryIsRouted | internal/cnpgi/common/wal.go:291-314 | The primary restores from store and server of the replica source exactly if that names a store, and otherwise as a standby does |

## Left out

- Credentials, command options, CA bundles and the creation of restorer and archiver: one failure flag per call stands for all of them.
- Full paths in WAL names (`path.Base`): names are character sequences without slashes.
- Concurrent restore requests on one spool directory: requests are sequential.
- The check for an empty archive before archiving (internal/cnpgi/common/wal.go:162-178), and how ready WAL files are found: they are a parameter.
- `classifyWALRestoreError` beyond the kinds of answers it produces, and the result metadata.
- Owner references of Role and RoleBinding, and Roles without the cluster label before their first Pre.
- `RbacCalls.PatchRole`: its loops, like the others there, meet no write that was applied although its caller saw an error; such lost responses are steps of `RbacSystem`, and in `RecoveryWindow` and `RecoveryCacheRuns` an accepted update is over for its caller either way.
- `RecoveryCacheRuns.AcceptedStatusIsReplay`: a writer reads its window in the map and writes it back in one step; the code does so without a lock, which Go leaves undefined when another writer does the same at that moment.
- `RbacPaths.PreWayIsRun`: starts where a Pre hook call has read its object stores; these reads and those of a reconcile are steps of the system without a loop beside them in `RbacCalls`, whose environment is a lookup function.
- `RbacConvergence.OnePreConverges`: speaks about one Cluster and one namespace; the ObjectStore events of other namespaces do not reach its Role.
- What an API server makes of a rule with an empty list of resource names.
- `TtlCache.ReadsAreRecent`: clocks are the values read, so a clock set back makes entries live longer, as in the code.
- `TtlCache.ExtendedClient.Write`: status updates go through the embedded client and do not invalidate the cache (internal/cnpgi/instance/internal/client/client.go:51-55).
- Sharing of other maps and slices of cached objects than the recovery windows, which no caller writes, and of slices inside a pod specification: these are values here.
- `RecoveryWindow.WindowsAreIndependent`: its writers read objects the server held at some time; what the cache may serve instead is the subject of `RecoveryCacheRuns`, for one process and its object store.
- Fields of containers, volumes and probes that sidecar injection neither reads nor writes.
- `Routing.NewFromCluster`: decoding of the Cluster, and how the Cluster looks up an external cluster beyond the first of the name.
- The restore and backup commands, removal of deleted backups, gRPC services, command line, manager start-up, health and metrics: calls into libraries with little state of their own.
