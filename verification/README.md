# platform-factory: a verified model of its scheduler, stores and publication

platform-factory builds OCI images from source. A control plane hands build leases to
workers, a content-addressed store keeps the build products, a layer planner turns files into
image layers, and a publication command pushes the result to a registry and moves a tag. This
project models the parts of that system on which correctness depends, in Dafny, and proves what
they promise for every input, every run and every interleaving of their steps.

The files are checked together by `dafny verify dfyconfig.toml`.

| area | modules |
|---|---|
| lease scheduler | `Placement`, `Plane` (state, steps, invariant), `PlaneMeaning` (what each step does, in terms of leases and workers), `PlaneSafety` (each step keeps it), `PlaneRuns` (runs of one process), `Incarnations` (crashes and stale saves), `Control` (the class), `Snapshot` (save and load) |
| tenant slots of the server | `TenantSlots` (handlers as interleaved steps), `TenantRuns` (every interleaving), `HandlerRuns` (where every result comes from) |
| content store | `Store`, `StoreRuns`, `Replicate`, `Chunks`, `ChunkReading`, `ChunkSessions`, `Lengths`, `StageKeys` |
| image layers | `Paths`, `Layers`, `LayerSplit`, `LayerEquivalence`, `BuildPlan`, `Elf` |
| Docker Save archives | `DockerArchive` (verifier), `DockerSave` (writer, and the two together) |
| audit, signatures, identities, publication | `Audit`, `Envelope`, `Identity`, `Journal`, `Publish`, `PublishRuns` |
| common ground | `Wrappers`, `Sorting`, `Strings`, `Decimals`, `Patterns` |

How things are represented:

- Objects whose methods update fields are classes (`Control.ControlPlane`, `Store.Store`,
  `ChunkReading.ChunkReader`, `ChunkSessions.ChunkSession`, `Audit.AuditJournal`,
  `Journal.OperationJournal`); the disk under them is a map from names to bytes. Each method is
  proved against a function of the old state, and the theorems are about those functions.
- The server's request handlers and the publish runs are transition systems: one program point
  per request or run, and any step of any of them may come next. Publish runs and the scheduler's
  processes may crash at any point; a crashed scheduler comes back with whatever its file holds.
- Iteration over a Go map takes the keys in an arbitrary order, so the contracts hold for every order.
- SHA-256 is an arbitrary function. A result that needs it to be collision-free names the two
  messages that would have to collide.
- JSON and base64 are parameters; where a result needs them to round-trip or to be injective, it says so.
- The clock, the network, disk failures and what other processes send are parameters of the methods.

Where the code does less than one might expect, the project says exactly when it holds, and
gives an input at which it does not: `Incarnations.FinalForeverIff` and `Incarnations.ReissuedIff`
(a crash before the save loses results and reissues identifiers), `Snapshot.LoadedIsSoundIff` (an
assigned lease that is also queued), `Snapshot.ReloadIff` (a version 1 file with undated
completions loads once and never again), `Audit.VerifiableIff` (texts that are not UTF-8, cut and unsynced
writes, and the size limit), `StoreRuns.CollectionRemovesIff` (two store objects on one directory),
`ChunkReading.PutThenRead` (the manifest limit), `ChunkSessions.UnexpectedEndIff` (a reader that fails with the end-of-input error),
`StageKeys.OrderForgottenIffNoTies` (equal sort keys), `BuildPlan.DestinationsDistinctIff`
(identity files are not in the duplicate check), `DockerSave.WrittenArchiveAcceptedIff` (a
manifest that lists a digest twice), `Identity.PreimageEqualIff` (a NUL inside a part),
`PublishRuns.FailedAfterTagIff` (a failed operation whose tag moved) and
`PublishRuns.GoesOnAfterCompletionIff` (a recovery that had already begun).

## Model

| member | source | states |
|---|---|---|
| Placement.ContainsSorted | internal/placement/placement.go:84-87 | binary search over a sorted list answers membership exactly |
| Placement.Eligible | internal/placement/placement.go:72-82 | a candidate is eligible iff its platform matches and the worker has every required capability |
| Placement.BetterCandidate | internal/placement/placement.go:61-70 | the preference is priority first, then cached content |
| Placement.ChoiceIsUnique | internal/placement/placement.go:40-59 | at most one queue position is the choice, so assignment is a function of worker and queue |
| Placement.Select | internal/placement/placement.go:40-59 | returns an eligible position that no other eligible one beats, the earliest among equals; none iff nothing is eligible |
| Control.NormalizedTokens | internal/control/control.go:216-234 | succeeds iff there are not too many values and each has the pattern; returns them strictly sorted, none added or lost |
| Control.TakeBack | internal/control/control.go:239-246 | visiting the lease table in any order reclaims exactly the worker's leases, each listed once |
| Control.CountActive | internal/control/control.go:320-325 | counts exactly the leases the worker holds |
| Control.ControlPlane.RegisterWorkerWithOptions | internal/control/control.go:128-169 | accepted iff every field is well formed; a known worker's new process gives back all it held; the invariant is kept |
| Control.ControlPlane.Admit | internal/control/control.go:152-169 | the locked part: first registration time kept, old leases requeued only for a known worker |
| Control.ControlPlane.RequeueLeasesHeldBy | internal/control/control.go:238-249 | the worker's leases, and no others, go pending and join the queue's end sorted as strings |
| Control.ControlPlane.Heartbeat | internal/control/control.go:252-265 | only a registered worker's heartbeat time changes |
| Control.ControlPlane.SubmitLeaseWithTenant | internal/control/control.go:280-309 | accepted iff well formed; the new lease has a fresh identifier, carries exactly the submitted work and is queued last; nothing else changes |
| Control.ControlPlane.NextLease | internal/control/control.go:312-353 | gives, among the pending leases whose platform and capabilities suit the worker, the one of highest priority, then with content at hand, then the oldest, and writes worker, attempt and time on it; gives none iff the worker is at its limit or nothing suits it |
| Control.ControlPlane.CompleteLease | internal/control/control.go:356-382 | commits iff the lease is assigned to that worker ID, and then writes that result, worker and time on that lease alone; otherwise nothing changes and the error says why |
| Control.ControlPlane.CancelLease | internal/control/control.go:387-422 | cancels exactly open leases, writes actor and time, and takes the lease out of the queue in order; replaying a cancellation answers false and changes nothing |
| Control.ControlPlane.RemoveFromQueue | internal/control/control.go:407-413 | drops exactly the first occurrence of the lease and keeps the order |
| Control.ControlPlane.Reap | internal/control/control.go:425-447 | forgets exactly the workers out of time, requeues exactly their leases and reports them sorted |
| Control.ControlPlane.ForgetExpired | internal/control/control.go:428-435 | deletes and lists exactly the workers whose heartbeat is too old, in any map order |
| Control.ControlPlane.RequeueAll | internal/control/control.go:441-443 | requeueing worker by worker in the given order |
| Plane.NumberOfLeaseId | internal/control/persistence.go:171-177 | parsing an issued identifier gives back its number |
| Strings.LessIff | internal/control/control.go:247-247 | strings are ordered by the first place where they differ, a proper prefix first |
| Plane.RequeueEachClosedForm | internal/control/control.go:438-443 | requeueing several workers one after the other reclaims all they held, each lease queued once, behind the old queue |
| Plane.ExtendedQueueIsPending | internal/control/control.go:238-249 | after requeueing, the queue again has no duplicates and holds exactly the pending leases |
| PlaneMeaning.NextIsFirstChoice | internal/placement/placement.go:40-87 | the position chosen, said of leases and workers alone: suitable, and before every other suitable lease by priority, content at hand and age |
| PlaneMeaning.AssignMeans | internal/control/control.go:343-350 | an assignment writes worker, attempt and time on the chosen lease, takes it out of the queue in order, and touches nothing else |
| PlaneMeaning.CompleteMeans | internal/control/control.go:373-381 | a completion writes state, result, worker and time on one lease and touches nothing else |
| PlaneMeaning.CancelMeans | internal/control/control.go:401-421 | a cancellation writes state, actor and time on one lease and drops it from the queue, keeping the order |
| PlaneMeaning.SubmitMeans | internal/control/control.go:300-309 | a submission adds one pending lease with the submitted work at the end of the queue |
| PlaneMeaning.RegistrationMeans | internal/control/control.go:128-151 | what a registration must look like, with the limits as numbers |
| PlaneMeaning.SubmissionMeans | internal/control/control.go:280-299 | what a submission must look like, with the limits as numbers |
| PlaneMeaning.RegisterMeans | internal/control/control.go:152-169 | the worker is on record with its platform, limit, key and exactly its capabilities and content, sorted; only its own leases come back |
| PlaneMeaning.RequeueMeans | internal/control/control.go:238-249 | one worker's leases are pending again and follow the old queue in string order of their identifiers |
| PlaneMeaning.HeartbeatMeans | internal/control/control.go:252-265 | only the worker's last heartbeat changes |
| PlaneMeaning.ReapMeans | internal/control/control.go:425-447 | a worker stays iff its last heartbeat is within the timeout; the leases of the others, and no others, come back |
| PlaneMeaning.RestartMeans | internal/control/persistence.go:124-160 | a restart forgets every worker and gives back every assigned lease |
| PlaneMeaning.LeaseIdMeans | internal/control/control.go:300-303 | identifiers are numbered in decimal |
| PlaneSafety.FreshId | internal/control/control.go:300-303 | the next identifier is not in use |
| PlaneSafety.RegisterKeeps | internal/control/control.go:151-169 | registering keeps the invariant, also with a lower limit than the leases held |
| PlaneSafety.RegisterDurable | internal/control/control.go:151-169 | registering keeps every lease loadable |
| PlaneSafety.HeartbeatKeeps | internal/control/control.go:252-265 | a heartbeat keeps the invariant |
| PlaneSafety.SubmitKeeps | internal/control/control.go:300-309 | submitting keeps the invariant and issues a fresh identifier |
| PlaneSafety.SubmitDurable | internal/control/control.go:280-309 | an accepted submission is loadable from a snapshot |
| PlaneSafety.AssignKeeps | internal/control/control.go:312-353 | assigning keeps the invariant: no duplicate, holder registered, limit respected |
| PlaneSafety.AssignDurable | internal/control/control.go:343-350 | assigning keeps every lease loadable |
| PlaneSafety.CompleteKeeps | internal/control/control.go:373-381 | completing keeps the invariant |
| PlaneSafety.CompleteDurable | internal/control/control.go:373-381 | a completed lease carries the marks a snapshot is checked for |
| PlaneSafety.CancelKeeps | internal/control/control.go:401-421 | canceling keeps the invariant, from the queue or from a worker |
| PlaneSafety.CancelDurable | internal/control/control.go:401-421 | a canceled lease carries the marks a snapshot is checked for |
| PlaneSafety.ReapClosedForm | internal/control/control.go:425-447 | reaping in one formula: which workers go, which leases come back, in which part of the queue |
| PlaneSafety.ReapKeeps | internal/control/control.go:425-447 | reaping keeps the invariant |
| PlaneSafety.RestartClosedForm | internal/control/persistence.go:124-160 | a restart reclaims every assigned lease and no other |
| PlaneSafety.RestartKeeps | internal/control/persistence.go:62-161 | a restart keeps the invariant |
| PlaneSafety.RestartIsReapingEveryone | internal/control/persistence.go:124-160 | a restart equals reaping every worker, up to the order of the requeued tail |
| PlaneRuns.StepKeeps | internal/control/control.go:98-107 | every atomic call, accepted or refused, keeps the invariant |
| PlaneRuns.StepMovesLease | internal/control/control.go:238-422 | everything one call may do to one lease: assigned, committed by its holder, canceled (each with who and when), given back, or untouched; final leases and submitted fields fixed |
| PlaneRuns.StepCreatesLease | internal/control/control.go:300-309 | only a submission creates a lease: pending, attempt 0, the next number and exactly the submitted work |
| PlaneRuns.WorkNeverChanges | internal/control/control.go:238-422 | within one process, payload, requirements, tenant and priority of a lease never change |
| PlaneRuns.TerminalIsForever | internal/control/control.go:356-422 | within one process, completed and canceled leases never change again |
| PlaneRuns.AssignedImpliesUnbrokenHold | internal/control/control.go:343-350 | a lease is held only since the call of this process that assigned it, without interruption |
| PlaneRuns.CommitNeedsUnbrokenHold | internal/control/control.go:356-382 | a result is committed only by the worker ID of the latest assignment, with no reaping or reassignment in between |
| PlaneRuns.CommitsOnce | internal/control/control.go:356-382 | a process commits at most one result per lease, from whatever plane it loaded |
| PlaneRuns.CompletedHasOneStory | internal/control/control.go:373-381 | of a lease completed in this process, `CompletedBy` and the result are those of the one commit, by the worker the latest assignment chose |
| PlaneRuns.AttemptsCountAssignments | internal/control/control.go:343-350 | the attempt number grows by exactly the number of assignments |
| PlaneRuns.AttemptsNeverDecrease | internal/control/control.go:343-350 | within one process, leases stay on record and their attempts never decrease |
| PlaneRuns.IssuedIdIsNew | internal/control/control.go:300-303 | an identifier issued by a process was in no earlier state of it |
| Incarnations.NextKeepsValid | internal/control/persistence.go:33-58 | calls, saves that overtake each other, failed saves and crashes keep the plane, the file and every copy being saved valid |
| Incarnations.EveryRunIsSafe | internal/control/control.go:98-107 | after any calls, stale saves and crashes: queue is exactly the pending leases without duplicates, holders registered, limits kept, next identifier unused |
| Incarnations.LoadableWasReal | internal/control/persistence.go:33-58 | whatever a crash brings back is an earlier plane of the same history |
| Incarnations.IncarnationIsRun | cmd/platform-factory-control-plane/server.go:145-154 | between crashes the plane makes one run of calls, so everything proved of a run holds of each process |
| Incarnations.CrashStartsAfresh | internal/control/persistence.go:124-160 | a process starts from a valid plane with nothing assigned |
| Incarnations.ForeverIff | cmd/platform-factory-control-plane/server.go:145-154 | a fact that calls cannot undo holds in every future iff it holds of the plane, of the file and of every copy still being saved |
| Incarnations.FinalForeverIff | cmd/platform-factory-control-plane/server.go:145-154 | a completed or canceled lease is final in every future iff the file and every copy being saved have it |
| Incarnations.FinalInRunIff | cmd/platform-factory-control-plane/server.go:145-154 | in a given history a final lease stays as it is iff every crash loads a file that has it |
| Incarnations.SecondCommitNeedsLoss | internal/control/control.go:356-382 | between two commits of one lease lies a crash that loaded a file without the first result |
| Incarnations.SavedCommitIsTheLast | internal/control/control.go:356-382 | once the file and every copy being saved have a result, no future commits the lease again |
| Incarnations.WorkForeverIff | cmd/platform-factory-control-plane/server.go:145-154 | an identifier keeps its work and its attempts in every future iff the file and every copy being saved cover it |
| Incarnations.ReissuedIff | internal/control/control.go:300-303 | a number once issued can be issued again iff the file or a copy being saved does not know it yet |
| Incarnations.IdentifierReusedExample | cmd/platform-factory-control-plane/server.go:145-154 | submit, crash before the save, submit: the same identifier for other work |
| Incarnations.CommittedTwiceExample | cmd/platform-factory-control-plane/server.go:351-386 | commit, crash before the save, commit again with another result |
| Incarnations.SaveThenCrash | internal/control/persistence.go:33-58 | after a crash the next process has the plane as it was when the last effective save began, or the old file if it took no effect |
| Snapshot.CollectLeases | internal/control/persistence.go:39-43 | the snapshot lists every lease once, sorted, whatever the map order |
| Snapshot.Save | internal/control/persistence.go:33-58 | replaces the file whole by the encoding of exactly the plane's leases, queue and number, or leaves it; an error may follow the replacement |
| Snapshot.CheckLease | internal/control/persistence.go:95-149 | the per-lease checks, in their order, accept exactly the acceptable leases |
| Snapshot.RestoreQueue | internal/control/persistence.go:84-91 | accepted iff no queued identifier repeats |
| Snapshot.RestoreLeases | internal/control/persistence.go:92-152 | accepted iff identifiers are distinct and every lease passes; assigned ones come back pending |
| Snapshot.CheckQueued | internal/control/persistence.go:153-157 | succeeds iff every queued identifier names a lease |
| Snapshot.Restore | internal/control/persistence.go:79-160 | accepts exactly the acceptable snapshots and rebuilds the plane they describe |
| Snapshot.LoadControlPlane | internal/control/persistence.go:62-161 | loads iff within 64 MiB, decodable and acceptable |
| Snapshot.SnapshotMeans | internal/control/persistence.go:37-43 | version 3, the number, the queue, and every lease once in identifier order |
| Snapshot.LoadedMeans | internal/control/persistence.go:116-160 | an assigned lease is pending again, a version 1 completion without a completer gets its worker, and nothing else changes |
| Snapshot.SequenceIsNumber | internal/control/persistence.go:171-177 | an accepted sequence is positive and is the identifier's number |
| Snapshot.SavedPlaneLoads | internal/control/persistence.go:33-161 | the snapshot of every valid plane is acceptable and loads as exactly the restart step |
| Snapshot.LoadAfterSave | internal/control/persistence.go:33-161 | final leases, attempts and number unchanged, old queue a prefix, each assigned lease pending again exactly once |
| Snapshot.SaveThenLoad | internal/control/persistence.go:33-161 | a load after a save that took effect fails only beyond 64 MiB and otherwise is the restart step; after one that did not, it is the load of the old file |
| Snapshot.LoadedIsSoundIff | internal/control/persistence.go:124-129 | an acceptable file gives a sound plane iff no assigned lease is queued |
| Snapshot.QueuedAssignedExample | internal/control/persistence.go:124-129 | such a file, accepted and loaded with a duplicate queue entry |
| Snapshot.ReloadIff | internal/control/persistence.go:130-141 | load, save, load again succeeds iff the rewritten file is within 64 MiB, no assigned lease was queued and every completion was dated |
| Snapshot.UndatedCompletionExample | internal/control/persistence.go:130-141 | a version 1 file that loads once and cannot be loaded after one save |
| TenantSlots.ReleaseIsReal | internal/quota/quota.go:326-387 | a slot in flight makes the counter positive, so no release is lost at zero |
| TenantSlots.CarriedIsNotStored | cmd/platform-factory-control-plane/server.go:97-143 | a slot a request carries is not in the map and was not given back |
| TenantSlots.AdvanceKeeps | cmd/platform-factory-control-plane/server.go:351-476 | every step of every handler keeps all accounting invariants, whatever the other requests are doing |
| TenantSlots.AdvanceMeans | cmd/platform-factory-control-plane/server.go:88-143 | each handler step commits, cancels or submits exactly what its request carries, if it may, and else leaves the plane alone; a submission goes on iff its tenant has room |
| TenantRuns.RestoreQuotaUsage | cmd/platform-factory-control-plane/server.go:61-86 | counters equal the tenants' open leases and the slot map lists exactly them |
| TenantRuns.CountOpen | cmd/platform-factory-control-plane/server.go:65-79 | the counting pass skips leases without a tenant or already final and counts each other one once |
| TenantRuns.FreshIsConsistent | cmd/platform-factory-control-plane/server.go:61-86 | the restored server satisfies the accounting invariant |
| TenantRuns.NextKeeps | cmd/platform-factory-control-plane/server.go:351-476 | arrivals, handler steps and worker calls all keep it |
| TenantRuns.EveryInterleavingConserves | cmd/platform-factory-control-plane/server.go:84-143 | over every interleaving: counter = slots in the map + slots in flight, one slot per lease, no orphaned entry |
| TenantRuns.OpenIsBacked | cmd/platform-factory-control-plane/server.go:438-476 | an open lease not yet in the map is on a submit request of its own |
| TenantRuns.OpenWithinUsage | cmd/platform-factory-control-plane/server.go:84-143 | a tenant's open leases never exceed its counted usage |
| TenantRuns.QuietIsExact | cmd/platform-factory-control-plane/server.go:84-143 | with no handler in flight usage equals the open leases and each finished lease gave its slot back exactly once |
| TenantRuns.ReleasedAtMostOnce | cmd/platform-factory-control-plane/server.go:97-143 | no lease ever gives its slot back twice |
| TenantRuns.UsageStep | internal/quota/quota.go:237-324 | usage rises by at most one, and only where the scheduler admits it |
| TenantRuns.LimitHolds | internal/quota/quota.go:237-324 | usage stays within a tenant's limit, except for work restored above it, which only drains |
| HandlerRuns.EverythingWasAsked | cmd/platform-factory-control-plane/server.go:351-476 | over every interleaving, each completed lease has the worker and result of a completion request for it, each canceled one the actor of a cancellation request, each new one the work of a submission |
| Store.Store.Put | internal/cache/store.go:74-125 | returns the digest and size of the bytes read; the blob of that name then hashes to it even if a corrupt one was there, and holds those bytes unless the hash collides; no other blob is touched |
| Store.Store.Exists | internal/cache/store.go:139-155 | true iff a regular file of that name is there; a malformed digest is an error |
| Store.Store.Get | internal/cache/store.go:128-137 | opens iff the digest is well formed and the blob exists |
| Store.Store.Verify | internal/cache/store.go:157-181 | succeeds iff the stored bytes hash to the name |
| Store.Store.Acquire | internal/cache/store.go:288-313 | all or nothing: a lease file with the sorted distinct digests, refused if one is malformed or the write fails |
| Store.Store.Release | internal/cache/store.go:316-328 | removes exactly that build's lease; a missing one is fine, a removal that fails changes nothing |
| Store.Store.ReferencedDigests | internal/cache/store.go:368-393 | collects exactly the names listed by current leases; fails iff a lease file is unreadable |
| Store.Store.GC | internal/cache/store.go:331-366 | removes and reports exactly the old files with a blob's name that no lease file lists, sorted, with the sum of their sizes; on failure removes only such files |
| Store.Store.Sweep | internal/cache/store.go:340-366 | the directory sweep, in any order, with the same exact result |
| StoreRuns.IntactStays | internal/cache/store.go:74-125 | no operation damages an intact blob; only a collection that did not find it leased removes it |
| StoreRuns.LeasedBlobSurvives | internal/cache/store.go:288-393 | over every run of one store object, an intact blob keeps its bytes if some lease lists it whenever a collection runs |
| StoreRuns.MarkedBlobSurvives | internal/cache/store.go:288-393 | over every run of any number of store objects, an intact blob keeps its bytes if every collection found it leased when it read the leases |
| StoreRuns.SweptIsStep | internal/cache/store.go:331-366 | what a collection promises is a step of these runs |
| StoreRuns.CollectionRemovesIff | internal/cache/store.go:346-362 | a collection can remove a blob iff it is old enough and was not found leased, leased by now or not |
| StoreRuns.StaleCollectionExample | internal/cache/store.go:38-44 | two store objects on one directory: a blob acquired between the other's reading of the leases and its removals is lost |
| StoreRuns.AcquiredIsLeased | internal/cache/store.go:288-313 | what a successful acquire lists is leased |
| Replicate.VerifyStoredDescriptor | internal/cache/replicate.go:61-78 | succeeds iff the blob hashes to the digest and has the announced size |
| Replicate.Install | internal/cache/replicate.go:44-58 | success only if the bytes sent have the announced size and hash and the blob holds them, or an intact blob with exactly those colliding bytes; no intact blob is damaged; honest bytes succeed |
| Replicate.Replicate | internal/cache/replicate.go:14-58 | the same against an arbitrary source; a blob already there is accepted iff it hashes to the digest and has exactly the announced size |
| Replicate.PullBlob | internal/cache/http.go:80-114 | the same against an arbitrary response, within the size limit |
| Chunks.JoinSplit | internal/cache/content.go:42-80 | the chunks joined are the input |
| Chunks.SplitSizes | internal/cache/content.go:42-80 | every chunk but the last is full and none is empty |
| Chunks.SplitConcat | internal/cache/content.go:214-238 | cutting may stop and go on at any chunk boundary |
| Chunks.PutChunked | internal/cache/content.go:42-80 | success gives the delivered bytes cut every `chunkSize` bytes (4 MiB if not positive): number, sizes and digests of the chunks and the total, all intact in the store; a reader that fails is an error, unless it fails with the end-of-input error |
| Chunks.ManifestCutsEvery | internal/cache/content.go:42-80 | chunk i is bytes i*n up to (i+1)*n or the end, in number the length over n rounded up |
| Chunks.TruncatedObjectIff | internal/cache/content.go:64-66 | such a reader stores the object of what it delivered, which is the whole input's iff it had delivered everything |
| Chunks.StoreChunks | internal/cache/content.go:49-70 | the read loop stores exactly the chunks, in order |
| ChunkReading.ChunkReader.OpenNext | internal/cache/content.go:118-132 | opens the next chunk after re-hashing it; what is left to deliver is unchanged |
| ChunkReading.ChunkReader.Read | internal/cache/content.go:116-144 | delivers the next bytes, at least one for a non-empty buffer, and end of file only when nothing is left; terminates on empty chunks |
| ChunkReading.ReadAll | internal/cache/content.go:116-144 | always stops; over readable chunks any positive buffer sizes and short reads deliver all bytes and then the end |
| ChunkReading.OpenChunked | internal/cache/content.go:84-107 | opens iff the manifest blob is intact, decodes and is well formed |
| ChunkReading.IntactIsFaithful | internal/cache/content.go:84-144 | stored chunks are the pieces themselves exactly if no stored blob collides with a piece |
| ChunkReading.ChunkedRoundTrip | internal/cache/content.go:42-144 | a stored object opens, its chunks deliver the original bytes, and the manifest's size is their number |
| ChunkReading.PutThenRead | internal/cache/content.go:42-144 | unless a stored blob collides with a piece, storing, opening and reading with any buffer sizes gives the input back iff the manifest is within 16 MiB; beyond it the object is stored and cannot be opened |
| ChunkReading.SmallChunksExample | internal/cache/content.go:93-97 | one-byte chunks of a quarter mebibyte take the manifest past that limit |
| ChunkSessions.ChunkSession.Checkpoint | internal/cache/content.go:240-253 | chunk first, record second; if the record cannot be written the session rolls back |
| ChunkSessions.ChunkSession.Append | internal/cache/content.go:214-238 | whatever is canceled or fails, the record in memory and on disk advances by exactly the whole chunks acknowledged, all of them intact in the store; success means the whole stream |
| ChunkSessions.ChunkSession.Finalize | internal/cache/content.go:255-272 | stores the manifest of the record, then deletes the record; a failure leaves it in place |
| ChunkSessions.OpenChunkSession | internal/cache/content.go:174-207 | succeeds iff the identifier is valid and either the record of this size is there with its chunks, or a fresh one of this size can be written |
| ChunkSessions.ExtendOnTrack | internal/cache/content.go:240-253 | a full or last chunk keeps the record a correct beginning of the input |
| ChunkSessions.FedOnTrack | internal/cache/content.go:214-238 | any attempt, however it stops, leaves a correct beginning of the input |
| ChunkSessions.FedToTheEnd | internal/cache/content.go:214-238 | an attempt that delivers the rest completes the record |
| ChunkSessions.ResumedEqualsOneShot | internal/cache/content.go:174-272 | any number of interruptions, each resumed at the offset, end in the manifest of one `PutChunked` of the whole input |
| ChunkSessions.FinalizeIsRepeatable | internal/cache/content.go:255-272 | after a crash before the record was deleted, finalizing again gives the same manifest |
| ChunkSessions.UnexpectedEndIff | internal/cache/content.go:214-238 | a reader failing with the end-of-input error keeps the session correct iff the cut is at a chunk boundary or the end |
| ChunkSessions.UnexpectedEndExample | internal/cache/content.go:226-232 | such a cut inside a chunk puts the session off track |
| ChunkSessions.FinishedSessionIsStored | internal/cache/content.go:174-272 | a finished session leaves exactly the manifest and the intact chunks of one `PutChunked`, so it can be read back |
| Lengths.FrameInjective | internal/cache/stagekey.go:130-139 | length-prefixed parts determine each other: no part can pose as another |
| Lengths.PartMeans | internal/cache/stagekey.go:130-139 | a part is its length in eight bytes, most significant first, and its bytes |
| StageKeys.StageKey | internal/cache/stagekey.go:40-91 | a key iff the inputs are accepted, and it is the hash of the framed canonical parts |
| StageKeys.CanonicalStage | internal/cache/stagekey.go:93-128 | sorting the copied lists yields one of the results the sorts allow, identity and placement blanked |
| StageKeys.KeyPartsMean | internal/cache/stagekey.go:58-128 | what is hashed, part by part: engine, base, platform, inputs by stage, name and digest, and the stage with mounts by target and source, secrets and caches by target and ID, outputs by name |
| StageKeys.EqualFramesSameContent | internal/cache/stagekey.go:40-139 | equal hashed messages mean equal engine, base, platform, inputs and stage content |
| StageKeys.SameContentEqualParts | internal/cache/stagekey.go:93-128 | without ties, ID, dependencies and list order do not matter |
| StageKeys.EqualKeysIffSameContent | internal/cache/stagekey.go:40-139 | two accepted stages without ties get equal keys iff their content agrees, unless the two messages collide |
| StageKeys.OrderForgottenIffNoTies | internal/cache/stagekey.go:64-128 | stages that differ only in list order always get the message of this one iff no two different mounts, outputs or inputs of it tie on their sort keys |
| StageKeys.TwoMountsExample | internal/cache/stagekey.go:93-128 | two mounts of one source at one target, one read-only: listing them the other way round changes the message |
| Layers.AddSegments | oci/builder.go:671-678 | the segment loop adds exactly the slash-ended prefixes |
| Layers.AddFile | oci/builder.go:670-679 | a file adds exactly its parent directories |
| Layers.LayerDirectories | oci/builder.go:665-693 | the strictly sorted list of the fixed directories, all parents of files and all writable paths with theirs |
| Layers.DirectoriesClosed | oci/builder.go:665-693 | the directory set is closed under parents |
| Layers.ComputeDirMode | oci/builder.go:611-620 | a directory's mode depends only on its name and the writable paths |
| Layers.WriteLayerStream | oci/builder.go:600-653 | sorted directories, then files sorted by destination, with their modes and owners |
| Layers.ParentsComeFirst | oci/builder.go:610-653 | every entry comes after the entry of its parent directory |
| Layers.OrderIndependent | oci/builder.go:600-653 | the stream does not depend on the order of the files |
| Layers.StreamIsSorted | oci/builder.go:610-653 | directories by name, then files by destination |
| LayerSplit.GroupFiles | oci/builder.go:503-510 | grouping by category keeps each group's files in input order |
| LayerSplit.WriteLayers | oci/builder.go:491-527 | one layer, or one per non-empty category in the fixed order |
| LayerSplit.GroupsPartition | oci/builder.go:491-527 | every file is in exactly one layer |
| LayerSplit.SemanticOrder | oci/builder.go:503-526 | the layers are those of toolchain, dependencies, application and metadata, in this order, each if it has files |
| LayerSplit.GroupMeans | oci/builder.go:503-510 | a group has exactly the files of its category, none being application |
| LayerSplit.SameFlattening | oci/builder.go:491-527 | agreeing layer lists that mention the same paths flatten to the same filesystem |
| LayerSplit.PlanIsOrderIndependent | oci/builder.go:491-527 | listing the files in another order plans the same layers |
| LayerEquivalence.TargetLeaves | oci/builder.go:491-527 | nothing of the declared tree lies below a file |
| LayerEquivalence.LayerAgrees | oci/builder.go:600-653 | every entry of every layer is what the declared tree has at its path |
| LayerEquivalence.LayerPaths | oci/builder.go:600-653 | a layer mentions exactly its directories and files |
| LayerEquivalence.SemanticPaths | oci/builder.go:491-527 | the semantic layers together mention exactly the paths of the single layer |
| LayerEquivalence.SemanticLayersPreserveImage | oci/builder.go:491-527 | applying the semantic layers in order gives the same filesystem as the single layer: paths, contents, modes, owners |
| LayerEquivalence.ImageIsTarget | oci/builder.go:491-527 | the flattened image has every declared directory and file as declared, and nothing else |
| BuildPlan.CheckOptions | oci/builder.go:394-422 | accepts iff destinations are clean, absolute and distinct, categories known, modes and preserved owners in range |
| BuildPlan.PlanFiles | oci/builder.go:243-286 | the appended list is the entrypoint with its owner, the identity files if wanted, then the extra files with their defaults |
| BuildPlan.DestinationsDistinctIff | oci/builder.go:247-286 | the planned file list has distinct destinations iff no identity file is wanted or none is also declared |
| BuildPlan.PasswdExample | oci/builder.go:258-286 | an extra file at /etc/passwd beside the identity files is accepted and written twice |
| BuildPlan.AcceptedIsLayerable | oci/builder.go:243-286 | accepted options without an identity clash, a path that is both file and directory or a whiteout name meet all that the layer equivalence needs |
| BuildPlan.BuildLayers | oci/builder.go:394-527 | from options to layers: refused iff the options are; otherwise the flattened image has the entrypoint, every extra file and the identity files with their bytes, modes and owners, no other file, and exactly the directories they need with their modes |
| BuildPlan.TargetShows | oci/builder.go:247-286 | every file of the image is the entrypoint, an extra file or an identity file, each as declared |
| BuildPlan.TargetDirectories | oci/builder.go:611-693 | every directory is a fixed one or holds something wanted, has its mode, and has its parents in the image |
| Elf.CollectRequired | oci/elf.go:51-67 | reading the sources in any order accepts and collects the same |
| Elf.ValidateElfClosure | oci/elf.go:14-74 | accepts exactly a condition on the inputs, independent of map order |
| Elf.AcceptedIsClosed | oci/elf.go:34-73 | every library on every chain of needed entries is provided by base name, and every provided ELF file has the entry's machine |
| Elf.ClosedIffNeedsProvided | oci/elf.go:34-73 | with no unreachable extra file, checking all files at once decides exactly the closure of what loading reaches |
| Elf.AcceptedMeans | oci/elf.go:22-50 | acceptance, with the profile, architecture, interpreter and file rules written out |
| Elf.BaseNameMeans | oci/elf.go:37-37 | the base name is what follows the last slash, trailing slashes aside |
| Elf.ContainsMeans | oci/elf.go:25-29 | a part is contained iff the string can be cut around it |
| Elf.MachineMeans | oci/elf.go:114-123 | the machine codes of the two architectures |
| DockerArchive.Scan | internal/dockerarchive/verify.go:39-97 | accepts iff every entry is safe, regular, complete, distinct and within the limits; the running total stays within its limit on every path |
| DockerArchive.CheckImages | internal/dockerarchive/verify.go:107-124 | accepts iff every image has layers, sound references and valid tags; counts layers and lists tags |
| DockerArchive.ReferenceChecked | internal/dockerarchive/verify.go:128-147 | the check against the digest map is the check against the archive's entries |
| DockerArchive.Verify | internal/dockerarchive/verify.go:39-126 | accepts iff the archive meets all conditions, whatever the order of checks, among them at most 10000 entries of 1 GiB and 2 GiB in all; reports images, layers and tags |
| DockerArchive.AcceptedReferences | internal/dockerarchive/verify.go:128-147 | in an accepted archive every reference is present and a 64-character stem is the hash of its bytes |
| DockerArchive.StemMeans | internal/dockerarchive/verify.go:136-137 | the stem is what stands between the last slash and the last dot after it |
| DockerArchive.NameMeans | internal/dockerarchive/verify.go:57-57 | one slash at the end of a header name is dropped |
| DockerArchive.CountsMean | internal/dockerarchive/verify.go:107-124 | layers are counted and tags listed image by image |
| DockerArchive.UnsafeNames | internal/dockerarchive/verify.go:60-64 | names that climb, start at the root, have empty segments or hold a NUL are refused |
| DockerArchive.ManifestPinsContent | internal/dockerarchive/verify.go:39-147 | accepted archives with the same manifest agree on all content-addressed files, unless the hash collides on them |
| DockerSave.SelectManifest | internal/dockersave/dockersave.go:197-217 | the first manifest with the reference, or the only one if none is asked for; an error iff there is none |
| DockerSave.WriteDockerArchive | internal/dockersave/dockersave.go:144-193 | complete iff the manifest and all its blobs can be read; then exactly the config, the layers in order, each with its blob's bytes, and the list that names them in that order with the tag |
| DockerSave.BlobName | internal/dockersave/dockersave.go:219-229 | a blob's archive name is safe and its stem is the digest's hex |
| DockerSave.WrittenArchiveAcceptedIff | internal/dockersave/dockersave.go:144-229 | for every layout the verifier accepts the written archive iff it has a layer, distinct digests that are the hashes of their blobs, sizes within limits and a one-line tag; it reports one image, the manifest's layers, the tag |
| DockerSave.DuplicateLayerExample | internal/dockersave/dockersave.go:144-193 | a layout whose manifest lists one layer twice: every blob is what its digest says, the writer completes the archive, the verifier refuses it |
| DockerSave.WriteThenVerify | internal/dockersave/dockersave.go:144-193 | writer and verifier run one after the other agree in that sense |
| Audit.VerifyAuditJournal | internal/control/audit.go:147-201 | accepts iff within 64 MiB and every line continues the chain; returns a correct chain |
| Audit.ChainMeans | internal/control/audit.go:184-189 | a chain, event by event: version 1, numbered from one, linked to the one before, dated, with plain texts and its own hash |
| Audit.VerifyEncoded | internal/control/audit.go:85-201 | a file of written events verifies iff they form a chain, and returns them in order |
| Audit.AuditJournal.Append | internal/control/audit.go:85-129 | succeeds iff the texts are valid and the write is durable; the event returned and written has the given actor, action, subject and time, the next number and the old tail; the file only grows, by the whole line or the part that was written |
| Audit.OpenAuditJournal | internal/control/audit.go:58-83 | an unverifiable file is refused; otherwise the tail is what reopening gives |
| Audit.AppendedEventsVerify | internal/control/audit.go:85-201 | from any verified file, over appends that end in any way and reopenings, an accepted file holds the old events and exactly those appended whole since, in order |
| Audit.ReadBackIsWhatWasAppended | internal/control/audit.go:85-201 | the events read from an accepted file are the old ones and then, in order, one per append written whole, with its actor, action, subject and time |
| Audit.AcceptedStaysOpen | internal/control/audit.go:58-83 | a journal that is accepted in the end was never refused on the way |
| Audit.VerifiableIff | internal/control/audit.go:85-201 | from any verified file the journal is accepted iff it is within 64 MiB, every text written is valid UTF-8, no write was cut short, and no event was written after an unsynced one without reopening |
| Audit.HealthIff | internal/control/audit.go:117-128 | that condition on the history, read off step by step |
| Audit.VerifiedSplit | internal/control/audit.go:147-201 | a verified beginning is verified once and what follows continues its chain |
| Audit.RuinedStays | internal/control/audit.go:117-128 | after a cut write or a wrong line no later append makes the file verify again |
| Audit.InvalidTextKills | internal/control/audit.go:131-143 | a text that is not valid UTF-8 is hashed as one message and read back as another; its line is fatal |
| Audit.InvalidTextExample | internal/control/audit.go:85-143 | one durable append of the byte FF, which the text check lets through, and the journal cannot be opened again |
| Audit.UnsyncedExample | internal/control/audit.go:117-128 | from any open journal: an unsynced append and one more are refused, with a reopening in between they are not |
| Audit.TornExample | internal/control/audit.go:117-128 | one write cut short is refused, and so is everything after it |
| Audit.PastTheLimitExample | internal/control/audit.go:85-129 | a durable append can take the file past what the verifier reads |
| Audit.TailDeterminesJournal | internal/control/audit.go:138-201 | the last event's hash determines the whole accepted journal, unless two of its messages collide |
| Audit.TailDeterminesEvents | internal/control/audit.go:138-201 | two accepted files with the same last hash hold the same events, unless two of their messages collide |
| Audit.LinePrefixAccepted | internal/control/audit.go:147-201 | every line prefix of an accepted file is accepted |
| Audit.TruncationChangesTail | internal/control/audit.go:147-201 | a truncated journal has another tail hash, unless messages collide |
| Envelope.Pae | internal/attestation/envelope.go:72-81 | the appended bytes are the announced-length encoding of type and payload |
| Envelope.FieldCancels | internal/attestation/envelope.go:72-81 | a decimal length holds no space, so a field can be told from what follows it |
| Envelope.EncodingInjective | internal/attestation/envelope.go:72-81 | no two pairs of type and payload have the same encoding |
| Envelope.AsciiMeans | internal/attestation/envelope.go:72-81 | lengths are printed in decimal |
| Envelope.ProtocolExample | internal/attestation/envelope.go:72-81 | the encoding of the example lengths of the DSSE protocol |
| Envelope.Verify | internal/attestation/envelope.go:49-69 | returns the payload iff some trusted signature verifies over type and payload together |
| Envelope.Sign | internal/attestation/envelope.go:29-46 | an envelope iff all names are given, the predicate encodes and the key signs |
| Envelope.SignThenVerify | internal/attestation/envelope.go:29-69 | what is signed with a trusted key verifies and gives the payload back |
| Envelope.AcceptedWasSigned | internal/attestation/envelope.go:49-69 | with unforgeable signatures, what verifies was signed with that very type and payload |
| Identity.DeriveId | internal/core/derive.go:10-18 | the running hash is that of the NUL-separated domain and parts |
| Identity.PreimageEqualIff | internal/core/derive.go:10-18 | two inputs are hashed alike iff they agree once cut at every NUL |
| Identity.PreimageInjective | internal/core/derive.go:10-18 | without NULs domain and parts are determined, for part lists of any length |
| Identity.SameIdSameInput | internal/core/derive.go:10-18 | equal identities mean equal inputs, unless the hash collides on the two preimages |
| Identity.NulInAPart | internal/core/derive.go:10-18 | a part that holds a NUL passes for two parts |
| Journal.StartPreserves | internal/idempotency/file.go:151-185 | a claim never changes an existing record and proceeds only for an ID not on record |
| Journal.FinishPreserves | internal/idempotency/file.go:207-228 | a terminal status is written at most once and touches one record |
| Journal.OperationJournal.Start | internal/core/idempotency.go:23-30 | the atomic claim, with every way its write may fail |
| Journal.OperationJournal.Finish | internal/idempotency/memory.go:52-66 | only a started operation takes a terminal status |
| Journal.ClaimOperation | cmd/platform-factory/lifecycle.go:106-126 | proceeds iff the claim succeeds; otherwise reports completed, failed or indeterminate as recorded, or an error if the record cannot be read |
| Journal.ClaimRecovery | cmd/platform-factory/lifecycle.go:131-148 | proceeds only for a readable, uncompleted operation of the same scope; a completed one answers done |
| Journal.ValidIdMeans | internal/core/idempotency.go:39-49 | printable ASCII without slash, backslash and colon |
| Journal.RecoveryIdMeans | cmd/platform-factory/lifecycle.go:145-145 | a recovery is named after the original and told apart by its token's hash |
| Publish.AdvanceKeepsLog | cmd/platform-factory/lifecycle.go:456-549 | at every point of a run its external effects, also those of calls that failed after taking effect, are exactly those the order of publication allows |
| PublishRuns.AdvanceEffect | cmd/platform-factory/lifecycle.go:425-469 | one step changes at most the stepping run's own record, to the status its flag says |
| PublishRuns.NextKeeps | cmd/platform-factory/lifecycle.go:417-569 | every step of every run keeps: claims distinct and on record, earlier records untouched, settled records explained by their run |
| PublishRuns.EveryRunKeeps | cmd/platform-factory/lifecycle.go:417-569 | the same over every interleaving and crash |
| PublishRuns.RunsAtMostOnce | internal/core/idempotency.go:23-30 | each operation ID is run by at most one invocation, and never one already on record |
| PublishRuns.ClaimsAreNamed | cmd/platform-factory/lifecycle.go:106-148 | in every run each claim has its request's own name, and a recovery is of a recorded operation with the same scope |
| PublishRuns.CompletedMeansPublished | cmd/platform-factory/lifecycle.go:456-549 | completed is recorded only after the matching digest, all artifacts, the policy if any, and then the tag |
| PublishRuns.TagMovesLast | cmd/platform-factory/lifecycle.go:471-515 | wherever a run stops, a moved tag was preceded by the digest, all artifacts and the policy |
| PublishRuns.SettledForever | internal/idempotency/file.go:207-228 | records stay, keep their scope, and a terminal status never changes |
| PublishRuns.NeverAfterCompletion | cmd/platform-factory/lifecycle.go:131-148 | a claim begun after the operation completed never proceeds, with or without a recovery token |
| PublishRuns.GoesOnAfterCompletionIff | cmd/platform-factory/lifecycle.go:131-148 | once an operation is completed a run still goes on iff it had already looked the operation up for a recovery that was not run yet |
| PublishRuns.RecoveryGoesOn | cmd/platform-factory/lifecycle.go:131-148 | only the original record stops a recovery: a new token goes on whatever other recoveries completed |
| PublishRuns.FailedAfterTagIff | cmd/platform-factory/lifecycle.go:456-545 | over every run, recoveries included, a failed record hides a moved tag iff the tag call failed after taking effect or a project file failed after it |
| PublishRuns.LostTagResponseExample | cmd/platform-factory/lifecycle.go:512-515 | any run that can begin, first or recovery, can lose the response to its tag call and be recorded failed |
| PublishRuns.ProjectFileExample | cmd/platform-factory/lifecycle.go:516-545 | any run with a project can move the tag and then fail to write a project file |

## Left out

- HTTP, TLS, certificates, authentication of workers, JSON text syntax, tar and gzip bytes and file descriptors: encoders are parameters and the disk is a map.
- Go's JSON encoder replaces invalid UTF-8. The audit journal models this; elsewhere (snapshots, stage keys, archives) the encoders are taken as injective or as round-tripping, which holds of texts that are valid UTF-8.
- Strings are sequences of characters and lengths count characters, one per byte.
- Lease numbers are unbounded; loading after saving is stated for numbers within a 64-bit `int`.
- Clock readings are positive instants; the zero time is the only special value.
- Error texts: results carry the class of an error, or only that there was one.
- `VerifyCompletionProvenance` and key verification of completion reports are not part of this model; a registration's key is only well formed or not.
- A server without a quota scheduler is not modelled; neither are the scheduler's resources other than parallel leases, nor its integer overflow.
- The server's own point in each handler at which it saves and audits: in `Incarnations` saves start and end at any point, in `TenantSlots` they are left out.
- A snapshot file that cannot be loaded (over 64 MiB, or a number beyond a 64-bit `int`): the server then does not start, and the histories of `Incarnations` stop there.
- Snapshot.LoadControlPlane: returns the restored state; attaching the heartbeat timeout to a new plane object is not modelled.
- Cancellation of a context is a failed call at that point.
- Chunk session records are kept under the session's identifier instead of its hashed key.
- Removal of chunks by a collection during a session: resuming checks that the chunks exist, and the round-trip results are stated for a store that holds them.
- The audit results take it that an event whose texts are valid UTF-8 reads back as it is, that one with an invalid byte reads back as another text which is hashed as another message, that these two messages do not collide, and that an event written after the leftovers of a cut one, on the same line, is not read as one event; Go's JSON has these properties.
- Audit.AuditJournal.Append: the error of encoding an event is not modelled, since an event with valid texts can be encoded.
- File timestamps and layer compression.
- The layer writer's precondition that files and writable paths are clean is what `oci/builder.go` and `oci/buildconfig.go` check before planning; the rest of that configuration check is not modelled.
- Whiteouts and paths that are both file and directory are excluded from the equivalence of layer plans, as are the planner's budget limits.
- A layout whose blobs change while they are copied into an archive, and context cancellation during verification.
- The sorts of a stage key are any functions that sort and leave a sorted list as it is; Go's algorithm itself is not modelled.
- Stale in-memory copies of the file journal: existence and scope of a record never change, and the statuses are read from disk where they matter.
- The dry run and the policy preflight of a publication, which come before its claim, and its workload state transitions and metrics, which never affect its outcome.
- Records, index rebuilding and the HTTP handler of the store; `WorkerStatus`, `Leases` and similar read-only listings; the fixed phase table, budgets, polling timers, command-line parsing, plugins, microVMs and runtime sockets: easy members or I/O plumbing.
