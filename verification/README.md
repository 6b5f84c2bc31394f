# A model of the coding engine's durable state and evidence

The coding engine runs a task in an owned Git worktree, records every step in a task database, has the result
reviewed, and publishes at most one local commit.  It must survive crashes, other engines, users who touch the
same repository, and reviewers whose answers it cannot trust.  This project models the parts that carry that
promise and proves what holds for every input, every interleaving and every crash point.

`dafny verify dfyconfig.toml` checks everything.

## How the model is organised

| files | part of the program |
|---|---|
| `Contracts.dfy` | validated records, and the predicate that decides whether a review is a delivery |
| `TaskDatabase.dfy`, `TaskHistories.dfy`, `TaskStore.dfy` | the database as a value with one function per write transaction; what holds over whole runs; the store object tied to those functions |
| `WorktreeRegistry.dfy`, `Engine.dfy` | record files, and the engine from admission to a durable result, with every foreign answer and every fault chosen freely |
| `Recovery.dfy` | operator recovery and cleanup over record file, durable row and task snapshot |
| `WorktreeWorld.dfy`, `WorktreeOutcomes.dfy`, `WorktreeManager.dfy`, `Steps.dfy` | crash-atomic worktree creation over an abstract Git |
| `CreationRace.dfy` | any number of creations and recoveries racing on one shared repository |
| `Lease.dfy` | the worktree lease as an interleaving of file accesses |
| `Publication.dfy` | the verify-then-compare-and-swap commit gate |
| `Bytes.dfy`, `Decimals.dfy`, `GitIndex.dfy`, `GitIndexParser.dfy`, `CacheTree.dfy`, `CacheTreeParser.dfy`, `TreeObject.dfy` | byte parsers, each with its printer |
| `StableSorting.dfy`, `ChangeManifest.dfy`, `Artifacts.dfy` | manifests of changed content and artifact identities |
| `ReviewGates.dfy`, `SemanticReview.dfy`, `JsonPreflight.dfy` | review gates, merges, re-derivable semantic results and the structural JSON scan |
| `DeclaredScope.dfy`, `WritableRoots.dfy` | reductions to antichains under path prefix, and the inventory of writable roots |

Files that change state step by step are classes and methods; each method's `ensures` ties the new state to a
function or predicate on values, and the lemmas speak about those.

Conventions used throughout:

- A foreign call (executor, reviewer, Git rendering, clock, liveness of a process) is `Foreigner()`, an
  arbitrary value of its type, or a parameter.
- A SHA-256 digest is represented by the value it digests, or by a function: one with 32-byte results that
  has no collision among the payloads at hand (`ChangeManifest.CollisionFree`; such functions exist by
  `ChangeManifest.CollisionFreeDigestExists`), or one that is injective with results of any length
  (`Artifacts.Ideal`).  A digest that is only compared is any function.
- In the engine an exception may strike before any durable step: `strikes(n)` says whether the n-th step
  raises, and every method's result is stated for every choice of `strikes`.
- In the creation protocol every Git call and every file access is one step.  Before each step the process
  may die when it is `mortal`, the call may fail when it is `flaky`, and the whole world may change when there
  are `peers`; "undisturbed" means without peers.  Each mutation is logged with the looks its process had taken
  until then, and is judged by `WorktreeWorld.Fits`; `CreationRace` merges such mutations of all processes.  Peers leave alone the intent file of a
  live creator, because recovery skips live owners and creation of intents is exclusive.
- In the publication protocol the whole repository may change between any two Git calls.

## Results that differ from what a reader might expect

- **Leases.** The acquired flags of two lease objects can both be set between one object's unlink and the end
  of its release (`Lease.FlagsOverlap`); exclusive is the time from creation to unlink
  (`Lease.MutualExclusion`).  A heartbeat that outlives the bounded join of a release can replace the next
  holder's file, after which the path can never be leased again (`Lease.LateHeartbeatSticks`,
  `Lease.StuckForever`).  A run in which every owner's file is its own, every release succeeds and every
  unowned file was left by a dead object is exactly one in which no heartbeat replaces the file after its
  object gave up the path (`Lease.GoodExactlyWithoutLateHeartbeats`).
- **Racing creations.** Compensation compares the commit, not the reservation, at the instant it deletes.  It
  removes its own reservation exactly when nothing was written on top of the branch's log since it looked
  (`CreationRace.DeletesOwnExactly`), and in a whole race that is so exactly when no two recoveries compensate
  one claim at once and no user touches the branch meanwhile (`CreationRace.AllDeleteOwnExactly`).  Nothing
  serializes two recoveries of one dead creation, and the slower one can delete the reservation of a third
  creation at the same base (`CreationRace.StaleRecoveryDeletesAnother`).
- **Interrupted isolation.** After a failure the engine orphans the worktree named in the snapshot only.  When
  the registration of a created worktree, or the transition that stores it, fails, the task becomes FAILED
  while its record, and maybe its row, stay active (`Engine.FailedTaskKeepsActiveRecord`); `Halfway` in
  `Engine.CodingEngine.Run` is the exact condition.
- **Recovery is not restartable.** A record already orphaned on disk is never picked up again
  (`Recovery.OrphanedRecordIsFinal`); `Recovery.RecoveryConverges` gives the exact condition under which one
  recovery ends in agreement.  Among other things the record's owner process must be the one in the row: the
  lease callback may rewrite it in the file, and the store refuses such an update
  (`Recovery.HeartbeatDecides`).
- **Manifest order.** The order of a manifest is a stable sort by case folding, so two scans of equal content
  agree exactly when, folding by folding, they list the same paths in the same order
  (`ChangeManifest.ScansAgree`); two paths of one folding can break that
  (`ChangeManifest.CollidingFoldingsDiffer`).
- **Conflict check.** The scope conflict check runs after collapsing, so it refuses exactly the conflicts of
  topmost positive scopes (`DeclaredScope.ResolveScopes`, `DeclaredScope.ConflictsSeen`); a path declared both
  positive and forbidden passes below a positive parent (`DeclaredScope.HiddenConflict`).
- **Rejected deliveries.** On a read-only task a rejected specialized review can be a delivery although the
  deterministic gate rejected, exactly when the rejection came from required verifiers
  (`ReviewGates.RejectedDelivery`, `ReviewGates.RejectedGateDelivered`).  The engine itself records no
  verifier for read-only tasks.
- **Ownership scan.** During an undisturbed creation the scan for owned branches fails exactly when an
  interrupted compensation has already deleted the reserved branch (`WorktreeOutcomes.EvidenceDuringCreation`).
- **Interrupted loop.** The line behind the attempt loop is reached exactly when no attempt is allowed at all
  (`Engine.CodingEngine.ExecuteFlow`).

## Model

| member | source | states |
|---|---|---|
| TaskDatabase.CreateKeepsInv | services/coding/store.py:323-356 | A creation that commits keeps every event chain exact, every snapshot bound to its row and every live worktree unique. |
| TaskDatabase.TransitionKeepsInv | services/coding/store.py:378-456 | A compare-and-swap transition that commits extends the task's chain by one linked event and keeps the whole invariant. |
| TaskDatabase.RegisterKeepsInv | services/coding/store.py:458-507 | A registration that commits keeps live paths and live branches of a repository unique. |
| TaskDatabase.UpdateNeverCollides | services/coding/store.py:548-578 | An update that passes the identity checks can never be refused by the unique indexes. |
| TaskDatabase.RunKeepsInv | services/coding/migrations.py:46-107 | After any sequence of serialized writers: versions 1..n without gap, each event linked to the one before, tail equal to the snapshot, snapshots bound to rows, live keys unique. |
| TaskHistories.CompletedHistoryShape | services/coding/store.py:56-164 | A history that reaches COMPLETED ends with EXECUTING, one or more VERIFYING, one or more REVIEWING, and COMPLETED as its last event ever. |
| TaskHistories.CompletedWasDelivered | services/coding/contracts.py:639-680 | A completed task carries a review with all five gates checked and no unresolved error; a commit only with approval and permission. |
| TaskHistories.RunEvolves | services/coding/store.py:395-580 | Between any two moments of any run: the log only grows, terminal snapshots are final, request, repository and creation time are fixed, update times never decrease; completion time is write-once, a worktree that completed is never active again and keeps its owner, removal is final. |
| TaskHistories.OneWriterPerVersion | services/coding/store.py:395-440 | Of all writers holding one expected version of a task at most one commits. |
| TaskHistories.FailureAlwaysReachable | services/coding/store.py:56-164 | The snapshot the failure handler asks to store is always valid, and from a stored snapshot FAILED and CANCELLED commit in one step if and only if it is not terminal. |
| TaskHistories.SnapshotAgreesWithRegistry | services/coding/store.py:290-321 | Every stored snapshot with a worktree agrees with a registered row of the task's own source repository. |
| TaskHistories.LiveWorktreesAreDistinct | services/coding/migrations.py:91-96 | No two rows that are not removed share a path key, or a branch key of one repository key. |
| TaskHistories.EventQueryFindsNothing | services/coding/migrations.py:283-289 | The query that joins every snapshot to the events of its version finds, in any reachable database, no task without such an event and none with another digest. |
| TaskStore.CodingTaskStore.Create | services/coding/store.py:323-356 | The object's new state and reply are those of the creation transaction; a refusal changes nothing. |
| TaskStore.CodingTaskStore.CheckTransition | services/coding/store.py:378-430 | The checks of a transition in their order: the reported refusal is exactly the transaction's. |
| TaskStore.CodingTaskStore.Transition | services/coding/store.py:378-456 | The object's new state and reply are those of the transition transaction. |
| TaskStore.CodingTaskStore.LiveCollision | services/coding/store.py:476-507 | The collision flag is set exactly when another live row has the path key or the branch and repository key. |
| TaskStore.CodingTaskStore.RegisterWorktree | services/coding/store.py:458-507 | The object's new state and reply are those of the registration transaction. |
| TaskStore.CodingTaskStore.UpdateWorktree | services/coding/store.py:509-580 | The object's new state and reply are those of the update transaction, with no index consulted. |
| TaskStore.CodingTaskStore.EnsureRegisteredWorktree | services/coding/store.py:290-321 | A snapshot's worktree passes exactly when it is the registered one and a removed one only accompanies a terminal status. |
| WorktreeRegistry.Registry.Heartbeat | services/coding/worktrees.py:1511-1528 | Only an active record of the same owner token takes the new heartbeat and process; nothing else changes. |
| WorktreeRegistry.Registry.Finish | services/coding/worktrees.py:1538-1552 | The record becomes complete with one time for completion and heartbeat. |
| WorktreeRegistry.Registry.MarkOrphaned | services/coding/worktrees.py:1554-1569 | Only an active, complete or orphaned record becomes orphaned, keeping everything else. |
| Engine.CodingEngine.Transition | services/coding/engine.py:188-210 | A requested step is never refused by the store's table: it commits, or fails exactly when its snapshot is invalid or an exception strikes; a failure changes nothing. |
| Engine.CodingEngine.ExecuteFlow | services/coding/engine.py:2257-3033 | From an isolated task with an owned worktree: at most max_attempts attempts are appended, attempt k has index k, only the last can be running, every outcome leaves the registries tracking each other, and the line behind the loop is reached exactly when max_attempts is 0. |
| Engine.CodingEngine.RunAttempt | services/coding/engine.py:2281-2960 | One attempt changes only the last entry of the attempt list and ends in a completion, a stop, a retry that was allowed, or an exception. |
| Engine.CodingEngine.RetryOrStop | services/coding/engine.py:2399-2420 | A failed attempt is retried exactly while attempts are left, otherwise handed off or blocked. |
| Engine.CodingEngine.JudgeAttempt | services/coding/engine.py:2857-2952 | The attempt passes exactly when the recorded review approves it or is itself the deliverable; otherwise it is retried while that is allowed, then handed off or blocked. |
| Engine.CodingEngine.ReviewPhase | services/coding/engine.py:2855-2900 | An attempt is repeated only after a review that is recorded and does not say that the semantic reviewer's own retries are used up. |
| Engine.CodingEngine.FinishPhase | services/coding/engine.py:2960-3031 | A completion writes record file, row and snapshot in that order and leaves all three equal; an exception leaves the task in review. |
| Engine.CodingEngine.CommitCompletion | services/coding/engine.py:3014-3031 | Success means all three stores show the same complete record; a failure leaves the snapshot as it was and both registries tracking each other. |
| Engine.CodingEngine.Handoff | services/coding/engine.py:2174-2255 | A handoff ends in HANDOFF_READY, or BLOCKED with the worktree preserved, never in a completion. |
| Engine.CodingEngine.Isolate | services/coding/engine.py:3088-3102 | Isolated means on disk, registered and in the snapshot. An exception in between changes nothing in the snapshot and undoes nothing: the record is there exactly if the creation was not struck, the row exactly if the registration went through. |
| Engine.CodingEngine.Dispatch | services/coding/engine.py:3153-3194 | A high-risk task without cloud permission is handed off; otherwise the matching executor runs with its own attempt bound. |
| Engine.CodingEngine.HandleFailure | services/coding/engine.py:3210-3248 | After an exception a terminal task is untouched; any other becomes FAILED or CANCELLED exactly when no exception strikes that last transition, and its worktree is orphaned in both registries exactly when neither of their two steps is struck. |
| Engine.CodingEngine.Run | services/coding/engine.py:3196-3249 | A run ends with at most the permitted attempts in a durable status, or an exception left the task FAILED or CANCELLED unless a step of the handler was struck too. A run broken off halfway through its isolation, and only such a run, leaves an active record beside a snapshot without worktree; else a preserved worktree is orphaned in both registries. |
| Engine.FailedTaskKeepsActiveRecord | services/coding/engine.py:3218-3228 | A run whose registration fails: the task is FAILED and the worktree record still active. |
| Engine.CodingEngine.Resume | services/coding/engine.py:3251-3350 | A task resumes exactly if it is a handoff with cloud permission whose registered worktree is the snapshot's and its inputs revalidate, with at most one more attempt and never another handoff. |
| Engine.PreviewPredicts | services/coding/engine.py:2980-3031 | Validating the completed snapshot before the registries change is enough: what is stored later differs only in times and is valid. |
| Recovery.RecoveryConverges | services/coding/cli.py:194-274 | One uninterrupted recovery ends with record, row and task in agreement if and only if they were recoverable before. |
| Recovery.CompletionConverges | services/coding/cli.py:202-274 | Wherever the engine died while completing, recovery ends in agreement, all complete or all orphaned, and only a task that had completed is ever eligible for cleanup. |
| Recovery.CompletionCrashPoints | services/coding/engine.py:3014-3031 | Before and behind each of the three completion writes the stores are at one of the crash points that recovery covers. |
| Recovery.OrphanedRecordIsFinal | services/coding/cli.py:205-228 | A record that an earlier recovery left orphaned on disk is left alone together with its row and task. |
| Recovery.HeartbeatDecides | services/coding/worktrees.py:1511-1528 | Behind a lease heartbeat, recovery of a recoverable worktree ends in agreement if and only if the process that beat is the owner in the row. |
| Recovery.OrphaningAdmitted | services/coding/cli.py:248-271 | The orphaning of a task in a recoverable status, whose row has taken the record, is admitted by the store at its current version. |
| Recovery.Operator.Recover | services/coding/cli.py:194-274 | For every task: nothing changes unless its record is half-completed or stale, or was just orphaned by the recovery of creation intents; otherwise record, row and snapshot become exactly what recovery specifies. |
| Recovery.Operator.OrphanHalfCompleted | services/coding/cli.py:202-225 | Marks exactly the complete records whose task has not completed and whose row has the same identity. |
| Recovery.Operator.OrphanStale | services/coding/worktrees.py:1571-1599 | Marks exactly the active records that neither lease nor live process protects. |
| Recovery.Operator.Synchronize | services/coding/cli.py:236-274 | Row and task follow the record as far as the store admits; no other task is touched. |
| Recovery.Operator.Cleanup | services/coding/cli.py:319-391 | Only a task whose three stores show the completed worktree is cleaned, only on its exact confirmation, and a dirty worktree is kept as blocked. |
| WorktreeWorld.NothingRestores | services/coding/worktrees.py:1365-1450 | When nothing of a claim is left and nothing else changed, the world is the one of the start. |
| CreationRace.OneWinner | services/coding/worktrees.py:819-846 | In any race of creations and recoveries, two reservations of one branch have a move between them that took the branch away: a compensation's deletion, or a user. |
| CreationRace.OneHolder | services/coding/worktrees.py:787-817 | At any moment of a race the branch's log names at most one claim. |
| CreationRace.DeletesOwnExactly | services/coding/worktrees.py:999-1029 | A compensation's deletion removes its own reservation if and only if nothing was written on top of the branch's log since it looked. |
| CreationRace.AllDeleteOwnExactly | services/coding/worktrees.py:999-1029 | In a race every compensation removes its own reservation if and only if between each one's look and deletion no other one deletes for its claim and no user touches the branch. |
| CreationRace.OnlyOwnRelease | services/coding/worktrees.py:999-1029 | Then a reservation leaves its branch only by its own compensation or a user's hand. |
| CreationRace.NextWinnerWaits | services/coding/worktrees.py:819-1029 | Then a second creation passes on a branch only after the first compensated its own reservation, or a user interfered. |
| CreationRace.StaleRecoveryDeletesAnother | services/coding/worktrees.py:1031-1065 | A race in which the second of two recoveries of one dead creation deletes the reservation of another creation. |
| WorktreeCreation.WorktreeManager.ReserveRef | services/coding/worktrees.py:819-846 | The reservation takes effect only on an absent branch, with the base commit and the creation's own message; a refusal writes nothing. |
| WorktreeCreation.WorktreeManager.ReservationOwned | services/coding/worktrees.py:787-817 | A reservation counts as owned only if a look of this very call showed it as the branch's newest log entry; undisturbed, exactly if the branch carries it. |
| WorktreeCreation.WorktreeManager.CasDeleteBranch | services/coding/worktrees.py:999-1029 | The branch is deleted only at exactly the base commit, and only after an earlier look of the same call showed the reservation on it; undisturbed, exactly a branch still carrying the reservation is deleted. |
| WorktreeCreation.WorktreeManager.Preserve | services/coding/worktrees.py:978-997 | A used or advanced worktree is kept with its branch, recorded as orphaned by an exclusive write, and its intent removed; nothing is deleted. |
| WorktreeCreation.WorktreeManager.CompensateOrPreserve | services/coding/worktrees.py:1091-1125 | Unless the observation was owned, clean and at the base, no worktree and no branch is removed; otherwise only after the look that proved the ownership. |
| WorktreeCreation.WorktreeManager.Reconcile | services/coding/worktrees.py:1031-1125 | Undisturbed, an intent is resolved if and only if its claim is resolvable, with the exact outcome per case; a crash or a failing call at any step leaves a resolvable claim, nearer to its resolution or unchanged; disturbed, every mutation fits the claim, and removals follow a look of the same call at the reservation; a live owner's intent is untouched. |
| WorktreeCreation.WorktreeManager.SafeBranch | services/coding/worktrees.py:1305-1323 | The first of at most 100 candidates that no branch has, or none. |
| WorktreeCreation.WorktreeManager.Create | services/coding/worktrees.py:1325-1450 | Undisturbed, creation is all-or-nothing: record, worktree and branch and no intent, or exactly the world of the start; a crash or failing calls leave that world or a resumable one; a loser of the reservation wrote and removed only its own intent, and no call reserves twice. |
| WorktreeCreation.WorktreeManager.SurvivesCrashes | services/coding/worktrees.py:1031-1450 | The creator and any number of recoveries may die or fail at any step; one recovery that runs to its end leaves everything or exactly the world of the start. |
| WorktreeOutcomes.AtMostSixChanges | services/coding/worktrees.py:1031-1125 | However often recovery of one creation ends early, at most six of its runs change anything: phase, worktree, branch, record and intent only ever approach resolution. |
| WorktreeCreation.WorktreeManager.RecoverCreationIntents | services/coding/worktrees.py:1127-1176 | Exactly the intents of dead owners with resolvable claims are resolved, claims do not disturb each other, and the counters account for every intent. |
| WorktreeCreation.WorktreeManager.ActiveOwnedBranchRefs | services/coding/worktrees.py:1260-1303 | The scan succeeds exactly when every active record and every noted reservation is proven, and returns exactly the proven branches. |
| WorktreeOutcomes.EvidenceDuringCreation | services/coding/worktrees.py:1282-1303 | While a creation is under way its branch is claimed exactly while it exists, and the scan fails exactly when a compensation was interrupted behind the deletion. |
| WorktreeOutcomes.Resume | services/coding/worktrees.py:1031-1125 | Reconciling an undisturbed creation resumes it, or ends it all-or-nothing. |
| WorktreeOutcomes.CountedAsResolved | services/coding/worktrees.py:1144-1176 | An intent disappears exactly when its reconciliation is counted as resolved. |
| Lease.MutualExclusion | services/coding/worktrees.py:402-467 | In every interleaving at most one object owns the path between its creation and its unlink, and the file exists while one does; of two objects flagged as acquired all but one have unlinked. |
| Lease.GoodExactlyWithoutLateHeartbeats | services/coding/worktrees.py:402-467 | At every moment each owner's file is its own, no release fails and an unowned file names an object that died, if and only if no heartbeat replaces the file after its object gave up the path. |
| Lease.JoinedRunsStayClean | services/coding/worktrees.py:442-467 | In particular this holds of every run in which no heartbeat outlives the join of its release. |
| Lease.FlagsOverlap | services/coding/worktrees.py:455-467 | A run in which the acquired flags of two objects are set at once. |
| Lease.LateHeartbeatSticks | services/coding/worktrees.py:442-467 | A run in which a late heartbeat replaces the next holder's file and leaves the path stuck. |
| Lease.StuckForever | services/coding/worktrees.py:402-429 | A stuck path stays stuck whatever happens. |
| Publication.Publisher.MoveRef | services/coding/engine.py:1868-1877 | The one reference mutation: the owned branch from exactly the base to a commit with the approved patch and tree, compared at the instant of the update. |
| Publication.Publisher.Revalidate | services/coding/engine.py:1857-1867 | Passing means that owner, branch, index tree and staged patch were each seen as expected since the commit object was written; undisturbed and ready, it passes. |
| Publication.Publisher.VerifyObject | services/coding/engine.py:1812-1855 | An unreachable commit passes only with the approved patch and manifest, hence with exactly the approved tree. |
| Publication.Publisher.CreateGuardedCommit | services/coding/engine.py:1764-1942 | However the repository changes between calls, at most one reference moves, only as approved, and only after owner, branch, index and patch were read again behind the commit object; undisturbed and ready, the commit is published. |
| Publication.Publisher.CommitApproved | services/coding/engine.py:1944-2069 | Without permission or approval nothing is mutated; otherwise every mutation is safe, a success moved exactly one reference and ends clean, and undisturbed it succeeds. |
| Publication.Publisher.AssertOwnedBranchHead | services/coding/engine.py:1668-1717 | Undisturbed, passes exactly when registration, HEAD and branch are all as expected. |
| Publication.Publisher.CaptureBinding | services/coding/engine.py:487-576 | Two equal observations within three tries; undisturbed, the observation of the repository. |
| ChangeManifest.ScanChangedContent | services/coding/git.py:806-886 | The worktree scan returns the records of the listed paths in folded order exactly when the listing, the budget and every record are admissible. |
| ChangeManifest.ScanCommitChangedContent | services/coding/git.py:889-945 | The commit scan returns the records of its listing in folded order exactly when the listing has no repetition and fits the limits. |
| ChangeManifest.ScansAgree | services/coding/git.py:840-913 | For equal content the two manifests are equal if and only if, folding by folding, both listings have the same paths in the same order. |
| ChangeManifest.ScansOfOneChangeAgree | services/coding/git.py:806-945 | With one path per folding, the worktree scan and the scan of a commit holding the same change yield the same manifest whenever both return. |
| ChangeManifest.DistinctFoldingsAgree | services/coding/git.py:840-945 | With distinct foldings and the same set of changed paths the two scans of the same content agree. |
| ChangeManifest.CollidingFoldingsDiffer | services/coding/git.py:820-840 | Two paths of one folding, listed in different orders, make the manifests of equal content differ. |
| ChangeManifest.ApprovedManifestPinsTree | services/coding/engine.py:1842-1855 | A commit with the approved manifest is byte for byte and mode for mode the base with exactly the approved changes. |
| ChangeManifest.PreimageIsDecodable | services/coding/git.py:790-803 | With a 32-byte digest that has no collision among the payloads of the two lists, the hashed bytes are equal if and only if the record lists are. |
| ChangeManifest.PreimageShows | services/coding/git.py:790-803 | For any 32-byte digest, the hashed bytes are equal if and only if the lists agree, record by record, in path, presence, mode, payload length and payload digest. |
| ChangeManifest.CollisionFreeDigestExists | services/coding/git.py:790-803 | The assumed absence of collisions can be met: for any two lists some 32-byte digest meets it. |
| ChangeManifest.EncodeSplits | services/coding/git.py:790-803 | An encoded record is self-delimiting and shows path, presence, mode, payload length and payload digest. |
| StableSorting.SortsAlike | services/coding/git.py:840-840 | Two listings sort alike if and only if, rank by rank, they list the same elements in the same order. |
| StableSorting.SortIsStable | services/coding/git.py:840-840 | The sort is sorted and keeps the order of equal ranks. |
| Artifacts.IdentityIsUnambiguous | services/coding/artifacts.py:95-116 | Equal framed components mean the same role, occurrence included, and the same payload digest. |
| Artifacts.ArtifactStore.WriteBytes | services/coding/artifacts.py:118-179 | A write adds exactly its own reference and file; no reference ever names other bytes, and a refusal changes nothing. |
| Bytes.FrameSplits | services/coding/artifacts.py:111-113 | Length-prefixed frames can be told apart from whatever follows them. |
| Bytes.BigEndianOfValue | services/coding/public_preflight.py:675-675 | Reading a big-endian field and writing it back gives the same bytes. |
| GitIndex.ParsesExactly | services/coding/public_preflight.py:662-774 | A buffer parses as an index if and only if it is byte for byte the print of that index and the index is valid: header, entries padded to eight bytes with declared name lengths, at most one extension, checksum trailer, nothing else. |
| GitIndex.EntrySound | services/coding/public_preflight.py:687-740 | An accepted entry is the print of what was read: fixed part, path, one to eight zero bytes. |
| GitIndex.EntryComplete | services/coding/public_preflight.py:687-740 | Every admissible entry is read back from its print, whatever follows. |
| GitIndex.EntriesSound | services/coding/public_preflight.py:684-740 | Whatever the entry loop accepts is the concatenated print of distinct admissible entries. |
| GitIndex.EntriesComplete | services/coding/public_preflight.py:684-740 | The entry loop reads back every list of entries with distinct folded paths. |
| GitIndex.ExtensionExact | services/coding/public_preflight.py:742-767 | What follows the entries is nothing, or exactly one well-formed cache-tree extension. |
| GitIndexParsing.ValidateGitIndex | services/coding/public_preflight.py:662-774 | The check succeeds exactly on prints of valid indexes whose logical entries are Git's listing and whose cache-tree objects are trees, and then of exactly one index. |
| GitIndexParsing.ReadEntry | services/coding/public_preflight.py:687-740 | The offset-based reading of one entry is the specified one. |
| CacheTree.ParsesExactly | services/coding/public_preflight.py:529-611 | A payload parses as a cache tree if and only if it is byte for byte the print of that tree and the tree is valid, canonical decimals and the no-object count included. |
| CacheTree.AdmitExact | services/coding/public_preflight.py:543-607 | The running checks admit a tree if and only if every record is well formed, the records fit the bound, and the folded paths are distinct and new. |
| CacheTree.NodeSound | services/coding/public_preflight.py:543-607 | Whatever the recursive descent accepts is the print of an admitted tree up to the unread rest. |
| CacheTree.NodeComplete | services/coding/public_preflight.py:543-607 | The recursive descent inverts the printer on every admitted tree, whatever follows. |
| CacheTree.HeaderComplete | services/coding/public_preflight.py:550-578 | A record header is read back from its print. |
| CacheTreeParsing.Parser.ParseNodeAt | services/coding/public_preflight.py:543-607 | The cursor-based recursion with its shared counters terminates and does what the specification says, collecting exactly the tree's object ids. |
| CacheTreeParsing.ParseCacheTree | services/coding/public_preflight.py:529-622 | The extension check succeeds exactly on prints of valid trees all of whose named objects are trees. |
| Decimals.ReadsExactly | services/coding/public_preflight.py:557-571 | A count is read as v exactly when its text is the decimal text of v. |
| TreeObject.ScanTreePayload | services/coding/public_preflight.py:1545-1597 | The scan succeeds exactly on concatenated prints of admissible entries, and reads the one list there is. |
| TreeObject.ReadingIsUnique | services/coding/public_preflight.py:1553-1593 | A payload has at most one reading as a list of entries. |
| ReviewGates.ReviewEvidence | services/coding/reviewer.py:381-707 | The review carries exactly the findings its evidence raises, with their severities, and the verdict and gates that follow. |
| ReviewGates.GatesMeanEvidence | services/coding/reviewer.py:668-697 | Each structural gate holds if and only if the evidence was clean in that respect. |
| ReviewGates.ApprovalMeansEvidence | services/coding/reviewer.py:633-640 | The deterministic gate approves if and only if nothing at all is raised; approval implies all four structural gates. |
| ReviewGates.CodexVerdicts | services/coding/reviewer.py:844-903 | A specialized merge approves if and only if the gate approved, the output was understood, it has no findings and the worktree is untouched; it never blocks, because output that was not understood is itself a blocking finding. |
| ReviewGates.SemanticVerdicts | services/coding/reviewer.py:1047-1077 | A semantic merge approves if and only if the gate approved and an attested, complete result has no findings over an untouched worktree; exactly when it blocks instead of rejecting. |
| ReviewGates.MergesAreValid | services/coding/contracts.py:513-539 | A merged approval never carries a high or critical finding, and merged reviews are valid records. |
| ReviewGates.DeliveryNeedsEveryGate | services/coding/contracts.py:542-582 | Every delivery came from an unchanged worktree, a reviewer that was understood and clean evidence; the deterministic review alone is never a delivery. |
| ReviewGates.ReadOnlyGatesDecide | services/coding/reviewer.py:668-697 | On a read-only task whose gates hold, the deterministic gate approved if and only if the required verifiers were met. |
| ReviewGates.RejectedDelivery | services/coding/contracts.py:563-582 | Exactly when a rejected specialized review of a read-only task is a delivery, and that the deterministic gate had then approved if and only if the required verifiers were met. |
| ReviewGates.RejectedGateDelivered | services/coding/reviewer.py:673-677 | With a required verifier that never ran, a review is delivered although the deterministic gate rejected. |
| SemanticReview.ParseEvidenceRefs | services/coding/semantic_review.py:1637-1671 | References are read exactly when they are admitted, not repeated, and cite real evidence. |
| SemanticReview.ParseSemanticResponse | services/coding/semantic_review.py:1694-1861 | The response parser computes exactly the meaning of the canonical response. |
| SemanticReview.DerivedIsComplete | services/coding/semantic_review.py:1730-1861 | An accepted response covers every requirement in order with admitted real evidence; an approval cites every required command and has no finding, a rejection has one. |
| SemanticReview.ValidateSemanticResult | services/coding/semantic_review.py:1864-1938 | A result validates if and only if it is the one result that its model response stands for when rebuilt for the current subject under an accepted attestation. |
| SemanticReview.TamperingIsRefused | services/coding/semantic_review.py:1864-1938 | Of an accepted result no field but response, attestation and review time can be altered without refusal. |
| SemanticReview.ReviewSubject | services/coding/semantic_review.py:2031-2123 | Whatever the service answers and attests, a result that is returned validates for the same subject and configuration. |
| SemanticReview.SameResponseSameResult | services/coding/semantic_review.py:1926-1937 | Validated results with the same canonical response agree in verdict, coverage and findings, and speak of one subject. |
| SemanticReview.Authenticate | services/coding/reviewer.py:984-1026 | The merge takes over a result exactly when it can be derived again and is bound to its persisted evidence. |
| SemanticReview.ApprovedMergeCoversSubject | services/coding/reviewer.py:1055-1077 | An approved merge means complete coverage of a subject with at least one requirement, every required command cited, no finding at all, and clean evidence. |
| JsonPreflight.PreflightJsonBytes | services/coding/semantic_review.py:186-250 | The byte loop accepts exactly the texts the scan accepts, early stop and early rejection included. |
| JsonPreflight.PreflightIsExact | services/coding/semantic_review.py:186-250 | On every balanced text the scan accepts if and only if the text, its nesting, its strings and the item counts of its containers keep within the limits. |
| JsonPreflight.ItemsScan | services/coding/semantic_review.py:223-243 | Inside a container the item counter ends at the number of items, or the text is rejected. |
| DeclaredScope.CollapseScopes | services/coding/scope.py:227-238 | Keeps exactly the topmost values: an antichain that covers the same paths. |
| DeclaredScope.ResolveScopes | services/coding/scope.py:286-318 | Refuses exactly when a topmost positive scope is forbidden or a collapsed list is longer than the limit; what it returns are the topmost scopes, antichains covering what was declared. |
| DeclaredScope.ConflictsSeen | services/coding/scope.py:289-301 | A declared conflict counts as one after collapsing if and only if some positive scope is forbidden together with every positive scope above it. |
| DeclaredScope.HiddenConflict | services/coding/scope.py:289-301 | A target declared both positive and forbidden is resolved without refusal when its parent is positive too. |
| DeclaredScope.ReviewSeesSameScope | services/coding/reviewer.py:81-88 | Collapsing never changes whether a changed path is in scope for the review. |
| WritableRoots.PrepareRoots | services/coding/resources.py:110-120 | The roots are an antichain that covers the same paths as the raw roots. |
| WritableRoots.ScanDirectory | services/coding/resources.py:129-175 | One listing yields exactly the child directories and the plain files with their total size, within the entry limit. |
| WritableRoots.Expand | services/coding/resources.py:126-175 | Popping a directory, counting its files and pushing its children loses and repeats nothing. |
| WritableRoots.ScanRoot | services/coding/resources.py:122-177 | The stack scan terminates, and a normal return has counted exactly the files below the root. |
| WritableRoots.Inventory | services/coding/resources.py:110-177 | On a normal return the inventory is the total size of the regular files below the raw roots, each counted once, and nothing else is there but directories. |
| WritableRoots.TotalIsUnique | services/coding/resources.py:122-177 | That total does not depend on the order in which the files are met. |

## Left out

- Event type and reason code texts, and their format check: no rule reads them.
- Snapshot fields that no transition, gate or delivery rule reads (artifact lists, rules, context, inspected files), and the uniqueness and length bounds of lists.
- Other writers of the same task inside one engine run: to the engine they look like an exception of the step, which the model allows at any step; interleavings of writers are the subject of `TaskHistories`.
- The engine's wall clock is assumed not to step back; task ids given to `run` are fresh.
- The lease heartbeat thread is not interleaved with engine methods; `Lease` treats it on its own, and what its rewriting of the owner process does to recovery is `Recovery.HeartbeatDecides`.
- Docker, model and reviewer processes, HTTP, process inspection, permissions, symbolic links and torn file writes: answers of foreign calls, or single atomic steps.
- Git configuration checks, zlib, pack and commit-graph verification; diff rendering is any function of two trees, so configuration and attributes that could change it are not modelled.
- A worktree removal that Git leaves half done, and a `worktree add` that fails with files left behind: both are atomic here.
- The intent file under two recoveries of the same dead owner: between one recovery's comparison and its removal the file can be replaced, so `Fits` lets a recovery (not a live owner) drop an intent it has not just compared.
- CreationRace.Legal: takes the tokens of all creations to be distinct, lets no user write the message of a reservation, and follows reservations and branches only; that the moves of a process are safe is proved call by call in `WorktreeManager`.
- Engine.CodingEngine.Resume: assumes of an admitted handoff that its record is active in both registries, that no attempt is running and that it was not stored in the future, as the engine leaves it; a handoff whose record was orphaned or taken over by another process meanwhile is not followed.
- Counters and health fields of the recovery and status reports, except those of the creation intents.
- Text policies (secret detection, private paths, name rules, NFKC and case folding, parsing of prose reviews): parameters, of which only their results are used.
- The retry loop around the local semantic review and the building of review subjects and prompts.
- The truncation of artifact identities to 128 bits: identities are assumed distinct for distinct content.
- Path matching on Windows, where scopes are compared after case folding.
- TaskDatabase.Collides: keys of paths, branches and repositories are arbitrary functions; nothing is proved about the platform's normalization.
- WritableRoots.Inventory: says nothing about when the scan returns, since it may time out at any step.
- Publication.Publisher.CaptureBinding: the fields of a binding are read at different moments; only undisturbed is it proved to be one observation.
