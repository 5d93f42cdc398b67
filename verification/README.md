# Verified models of the platform's crash protocols and kernels

This project models the parts of the platform infrastructure where ordering, crashes and
partial failure decide correctness, and proves what they promise.

* **Production restore** (`RestoreState`, `ProductionRestore`). The disk (files with owner
  and mode, the journal, the archive of settled journals) is separate from the process and
  its in-memory journal. Every durable step may complete, fail before or after taking
  effect, or be where the process dies; recoveries may die as well. `Host.Live` runs any
  sequence of restores, recoveries and settlements, and every disk state on the way is
  proved to be all-or-nothing at the settlement gate.
* **Activation broker** (`ActivationBroker`, `ActivationRuns`, `PosixPaths`). A
  compare-and-swap state machine over two files written one after the other. An event is a
  request with the number of its writes that landed, so half commits are ordinary states of
  a run.
* **Off-site publication** (`OffsiteNames`, `OffsitePoints`, `OffsiteState`,
  `OffsiteRetention`, `OffsiteSync`, `OffsiteCapacity`), the **two-writer lease**
  (`SharedLease`) and the **quota count** (`QuotaTree`). One publication is a method whose
  every remote state is recorded; the lease interleaves two writers, and `LeasedSync` proves
  that a publication moves its folder by enabled steps of the lease and that a whole session
  is one of its runs.
* **Pause journal** (`PauseJournal`), **backup switch** (`BackupControl`) and **admission
  chain** (`AdmissionChain`).
* **Kernels**: grant replay as a least fixpoint (`GrantReplay`), the DNS response check
  against an independent encoding of messages (`DnsProbe`), ownership of workload names
  (`WorkloadNames`, `WorkloadSource`), the clipped series of the dashboard (`Series`,
  `VisibleSeries`) and the bind roots of a restore (`BindRoots`).
* **Shared**: outcomes of steps (`Wrappers`), patterns of names (`Texts`) and facts about
  sequences (`Sequences`). Lemmas called `...Means` say what a pattern or a check lets
  through without using its definition, so the contracts built on it speak about texts.

`dafny verify dfyconfig.toml` checks everything.

## How the models are built

* Code that changes things step by step is a class with the same fields; a step ends in
  `Ok`, `Raised` or `Crashed`, chosen nondeterministically, so each contract covers every
  failure and every crash point. Ghost traces record the durable state after each step,
  and a ghost counter the steps that failed on their own: where a contract says `Blamed`,
  an operation during which no step failed either succeeds or ends in one of the refusals
  it lists, so recoveries are proved to get through and not only to do no harm.
* `b.save`, `durable_rename`, `atomic_write` and a remote rename are single atomic steps.
  Copying a tree, removing a tree and uploading an object are not: interrupted, they leave
  anything, or nothing, under that one name.
* SHA-256 digests are free constructors: equal digests, equal documents. Signatures and
  HMACs are flags on the stored object.
* Release contexts are retained and never change while a run lasts. Container commands,
  health checks, databases, gpg, tar and FTP sessions are steps that succeed or fail.

## Results where the code falls short of the wish

* A broker transaction that was begun with a doubled slash in front of the state directory
  of its context path is accepted, and then no `recover-stop` is: `begin` compares the path
  after making it absolute, `recover-stop` derives it textually
  (`DoubledSlashIsUnrecoverable`). Some `recover-stop` is accepted exactly for paths with a
  clean tail (`RecoverableIffCleanTail`), and the canonical absolute path has one
  (`CanonicalPathIsClean`). Whatever the path, a `commit` of the stopped state still ends
  the transaction (`EveryPendingRunCanBeStopped`).
* The broker writes documents that it will not read again: requests may have 20 MiB, the
  reader of stored files stops at 16 MiB. After a begin or advance with too much detail,
  or a commit with too much evidence, every request is refused, recovery and the stopping
  commit included (`LongDetailIsFinal`, `UnreadableStays`). A pending run can be stopped
  exactly when every document that landed fits (`RunIsReadableIff`,
  `EveryPendingRunCanBeStopped`).
* Receipts announce a maximum of two points, but retention can leave three: it keeps the
  new point on top of the two newest inside the cutoff, and sorts by the time of the backup
  (`ThreeCanBeKept`). At most two are kept exactly when the new point sorts among the first
  two or the second of the order is outside the cutoff (`AtMostTwoKeptIff`); before the
  publication this can be read off the listing: fewer than two listed points inside the
  cutoff are newer than the new one (`BoundIsDecided`, carried by `SyncOnce`). A listed
  point of the very same time sorts either way, so only without such a tie is this an
  equivalence.
* The length of a listing is checked before a publication but not for the listing that the
  publication makes. From 1023 objects a bundle of one part is published, and the listing
  of 1025 objects is then refused: retention does not run, and no later publication or
  restore gets past the same check (`AdmittedAndTooLong`). Past the gates and without a
  failing step a publication completes exactly when the objects before, the parts and the
  receipt are at most 1024 (`SyncOnce`, `Overfills`).
* `recover_rollback` turns down a `done` journal but not one that is rolled back and
  verified. Run on such a journal it stops every container while the journal on disk still
  claims verified health (`StopForRollback`); dying there, it leaves a journal that the gate
  lets pass with nothing running. In every other life of the host a journal that claims
  verified health has been up since (`Live`).
* The health mark of a journal means something only together with its status: after a last
  step of a restore has failed, the journal that asks for a rollback still carries it. So
  the guarantee of `Live` is for journals that are done or rolled back, as the gate demands.

## Model

| member | source | states |
|---|---|---|
| RestoreState.SiblingNamesNeverCollide | deployment/vps-backup/production-restore.py:379-381 | Staged and parked names of all targets are pairwise different for every operation name |
| RestoreState.SiblingNamesMean | deployment/vps-backup/production-restore.py:379-380 | Staged and parked names are the target, the fixed ending and the last twelve characters of the operation name |
| RestoreState.SettledIsWhole | deployment/vps-backup/platform-vps-backup-runner.py:65-68 | All or nothing: a journal that says `done` has every target restored and every original kept aside, one that says `rolled-back` has every path as it was |
| RestoreState.UntouchedUntilStopped | deployment/vps-backup/production-restore.py:352-356 | While the journal on disk says production was not stopped, no original path has changed and everything new is a staged sibling the journal names |
| RestoreState.MoveOneItem | deployment/vps-backup/production-restore.py:317-325 | Moving the three names of one item between shapes keeps the invariant and the shape of every other item |
| RestoreState.ParkItem | deployment/vps-backup/production-restore.py:323 | The first rename takes a prepared item to the parked shape and keeps the switch invariant |
| RestoreState.ClosedDownMeans | deployment/vps-backup/production-restore.py:324 | A parked original belongs to the superuser, with nothing for the group or for others |
| RestoreState.SwitchItem | deployment/vps-backup/production-restore.py:325 | The second rename takes a parked, closed-down item to the switched shape |
| RestoreState.UnswitchItem | deployment/vps-backup/production-restore.py:331-333 | Moving a switched target back to its staged name gives the parked shape |
| RestoreState.UnparkItem | deployment/vps-backup/production-restore.py:334-336 | With its metadata back, returning the parked original gives the prepared shape, owner and mode included |
| RestoreState.NewNamesAreFresh | deployment/vps-backup/production-restore.py:379-384 | The target of the next item was there before the operation and is unchanged, its siblings were not there, and none of the three names is used by an earlier item |
| RestoreState.NameItem | deployment/vps-backup/production-restore.py:382-384 | Naming an item's siblings in the journal before they exist keeps the staging invariant and extends the plan |
| RestoreState.SiblingInTheWay | deployment/vps-backup/production-restore.py:379-381 | A sibling found in the way while staging was there before the operation, unless the same target is listed twice |
| RestoreState.AllStaged | deployment/vps-backup/production-restore.py:376-391 | With the last item staged the switch invariant holds and every item is prepared |
| RestoreState.NothingLeft | deployment/vps-backup/production-restore.py:441-452 | When no staged name is left the disk equals what the operation found |
| RestoreState.PreparedIsOriginal | deployment/vps-backup/production-restore.py:327-339 | With every item prepared, nothing but staged siblings differs from the original disk |
| ProductionRestore.SiblingsAreNeverCaptured | deployment/vps-backup/platform-vps-backup-runner.py:235-254 | Nothing that a bundle of a capture has to extract is named like the staged sibling of any path, since the capture leaves such names out and its volumes end otherwise |
| ProductionRestore.Host.Unpack | deployment/vps-backup/production-restore.py:366-371 | Ends with one item per enrolled path when the bundle has something to extract for all of them, and without a failing step refuses only when it has not; no file changes |
| ProductionRestore.Host.Settle | deployment/vps-backup/platform-vps-backup-runner.py:65-75 | A journal passes only as `done` or `rolled-back` with its health verified; that was found after the last move, the disk was whole, and the journal is archived under its operation without overwriting another; without a failing step exactly such a journal, not yet archived, passes |
| ProductionRestore.Host.SwitchPaths | deployment/vps-backup/production-restore.py:317-326 | Ends with every item switched and marked unless a step failed, and keeps the invariant at every durable step |
| ProductionRestore.Host.Rollback | deployment/vps-backup/production-restore.py:327-339 | From any crash point gives back every original content, owner and mode unless a step fails, and leaves health to be checked again; repeated, it changes no file; manual reconciliation is never needed |
| ProductionRestore.Host.UndoItem | deployment/vps-backup/production-restore.py:329-337 | Brings one item back to its prepared shape from whichever shape a crash left, disturbing no other item |
| ProductionRestore.Host.CleanupStaging | deployment/vps-backup/production-restore.py:424-452 | Removes only siblings this operation named, keeps every original, and on success restores the disk exactly |
| ProductionRestore.Host.StageSiblings | deployment/vps-backup/production-restore.py:376-397 | Ends with the plan ready to switch, each target's wanted node being the unpacked one, and never touches an original; without a failing step it refuses only for a target that was missing or a sibling in the way before |
| ProductionRestore.Host.NameOne | deployment/vps-backup/production-restore.py:379-385 | The journal names a sibling durably before it may exist |
| ProductionRestore.Host.StopProduction | deployment/vps-backup/production-restore.py:401-408 | The journal on disk says that production is stopped before anything is stopped or moved |
| ProductionRestore.Host.GiveBack | deployment/vps-backup/production-restore.py:412-416 | Success of the failure handler leaves a rolled-back journal whose health was verified after the rollback |
| ProductionRestore.Host.Restore | deployment/vps-backup/production-restore.py:341-422 | Success means a `done` journal, verified healthy, with every target holding its node, or for qualification a verified rollback with no file changed. Without a failing step it succeeds exactly when the last journal was `done` or `rolled-back`, verified and not yet archived, the operation name is valid, the bundle has every enrolled path, every target exists and is enrolled once, and no sibling exists; otherwise it refuses for the reason it gives with every file as it was. Archived journals are kept |
| ProductionRestore.Host.RecoverRollback | deployment/vps-backup/production-restore.py:454-476 | After any crash, success means everything original and a verified rollback, and without a failing step it does succeed on every journal that is not `done`; recovering again touches no file |
| ProductionRestore.Host.StopForRollback | deployment/vps-backup/production-restore.py:472 | The stop before a rollback leaves the journal on disk as it is, so one that is verified already goes on saying so while nothing runs |
| ProductionRestore.Host.Live | deployment/vps-backup/production-restore.py:341-476 | Over any life of the host, every disk state satisfies the invariant and is all-or-nothing, and a journal that claims verified health was found healthy after the last move and, unless a verified journal was rolled back once more, has been up since |
| PosixPaths.DerivedIffCleanTail | scripts/platform-activation-broker.py:774 | The path recovery derives from a recorded one equals it exactly when that path has a clean tail |
| Texts.OperationNameMeans | deployment/vps-backup/production-restore.py:349 | An operation name is sixteen to 128 lower-case letters, digits and dashes, the first no dash |
| ActivationBroker.PairAlwaysValid | scripts/platform-activation-broker.py:509-525 | After every sequence of requests with crashes between the two writes, the pair on disk passes validation, apart from the length limit of the reader |
| ActivationBroker.StepKeepsInv | scripts/platform-activation-broker.py:681-790 | One request, however many of its writes land, keeps the pair invariant |
| ActivationBroker.RunIsReadableIff | scripts/platform-activation-broker.py:232-247 | The files at the end of a run can be read if and only if every document that landed in it is within 16 MiB: the first one that is not is never replaced |
| ActivationBroker.UnreadableStays | scripts/platform-activation-broker.py:690-692 | After a document that is too long no run of further requests changes the files |
| ActivationBroker.LongDetailIsFinal | scripts/platform-activation-broker.py:701-727 | A begin with more than 16 MiB of detail is accepted, and every request after it is refused |
| ActivationBroker.AfterLands | scripts/platform-activation-broker.py:621-635 | A request leaves the store as it was, or with its one write, or with the first or both writes of a commit; a refusal writes nothing |
| ActivationBroker.AcceptedCommit | scripts/platform-activation-broker.py:739-790 | An accepted commit or recovery was selected by compare-and-swap and writes a receipt of the pending transaction's own context, then the journal with its digest |
| ActivationBroker.ReceiptChangesOnlyByPending | scripts/platform-activation-broker.py:739-790 | The active receipt changes only through the single pending transaction and records that transaction's context |
| ActivationBroker.PendingIsNeverReplaced | scripts/platform-activation-broker.py:707-790 | Every event leaves a pending transaction the same one with the same context; begins are refused and only its own commit or recovery completes it |
| ActivationBroker.PendingRunIsOneTransaction | scripts/platform-activation-broker.py:690-790 | Over runs, as long as something is pending it is one and the same transaction |
| ActivationBroker.RetryCompletesHalfCommit | scripts/platform-activation-broker.py:621-635 | Retrying after a half commit gives the pair of an uninterrupted commit if and only if the half commit can be read; retrying after a whole one is refused and writes nothing |
| ActivationBroker.RecoverableIffCleanTail | scripts/platform-activation-broker.py:768-790 | From every reachable pending store some recovery is accepted if and only if the store can be read and the recorded path has a clean tail, and then the journal-derived one is |
| ActivationBroker.RecoveryStops | scripts/platform-activation-broker.py:779-790 | An accepted recovery leaves a valid, complete, stopped pair of that transaction |
| ActivationBroker.EveryPendingRunRecovers | scripts/platform-activation-broker.py:768-790 | Whatever requests and crashes came before, the recovery that the journal of a pending run with a clean path dictates is accepted if and only if every document that landed is within the reader's limit, and then it stops the run |
| ActivationBroker.EveryPendingRunCanBeStopped | scripts/platform-activation-broker.py:739-767 | Whatever requests and crashes came before, and whatever its path, a commit of the stopped state without evidence ends a pending run if and only if every document that landed is within the reader's limit, and leaves a valid complete stopped pair |
| ActivationBroker.CanonicalPathIsClean | scripts/platform-activation-broker.py:403-415 | A context path that is its own valid absolute path without doubled slashes has a clean tail |
| ActivationBroker.DoubledSlashIsUnrecoverable | scripts/platform-activation-broker.py:768-776 | A concrete begin with a doubled slash is accepted and its transaction accepts no `recover-stop`, while a commit of the stopped state is accepted |
| ActivationBroker.PhaseCountsAdvances | scripts/platform-activation-broker.py:60-70 | The phase of a pending transaction counts its accepted advances: none repeats, and the last is reached in exactly seven |
| ActivationBroker.PendingReplacesWhatItExpected | scripts/platform-activation-broker.py:712-714 | No lost update: over every run, while a transaction is pending the active receipt is the one it was begun against, or already its own from a half commit |
| ActivationBroker.ActiveIsHonest | scripts/platform-activation-broker.py:553-618 | Over every run a hosted receipt lists exactly the trusted subjects of its retained context, a core-only one some of them, a stopped one nothing |
| ActivationBroker.Broker.Dispatch | scripts/platform-activation-broker.py:681-796 | Changes the two files exactly as one event of the run, a refused request changing neither |
| ActivationRuns.TrustedMeans | scripts/platform-activation-broker.py:261-414 | A path leads to a context exactly when the retained document at its absolute place names that place, its state directory, its locks and its sorted services |
| ActivationRuns.BeginIsAcceptedIff | scripts/platform-activation-broker.py:701-727 | A begin is accepted if and only if nothing is pending, the identifier is a digest, the context is trusted and of the target's kind, and the expected receipt is the active one; it writes exactly that journal |
| ActivationRuns.AdvanceIsAcceptedIff | scripts/platform-activation-broker.py:728-738 | An advance is accepted if and only if it selects the pending journal and goes to a phase that follows its own; it changes phase and detail only |
| ActivationRuns.CommitIsAcceptedIff | scripts/platform-activation-broker.py:739-767 | A commit is accepted if and only if it selects the pending journal, comes on its path with a trusted context, has sorted evidence that proves the claimed state, and a model digest; it then writes the receipt with the lock, renderings, daemon and model of that state, and the journal that this completes |
| ActivationRuns.RecoveryIsAcceptedIff | scripts/platform-activation-broker.py:768-790 | A recovery is accepted if and only if it selects the pending journal and comes on its recorded path, with a clean tail; it records a stop that claims nothing, by its own daemon and under the journal's lock |
| ActivationRuns.HostedRunCompletes | scripts/platform-activation-broker.py:701-767 | Whatever came before, an accepted begin of a hosted release, seven advances and the commit of its trusted services reach a complete pair of the hosted state |
| ActivationRuns.OnlySoundPairsAreServed | scripts/platform-activation-broker.py:690-692 | A request is answered only over a readable pair whose documents name trusted contexts and agree with each other, and over every such pair a snapshot and a ping are answered |
| ActivationRuns.RunIsSound | scripts/platform-activation-broker.py:509-525 | After every run the pair is sound, stated on the fields of its documents |
| Texts.LexicographicMeans | scripts/platform-activation-broker.py:488 | The order of sorted service names is that of the first differing character, a proper prefix coming first |
| OffsiteNames.PartNamesDiffer | deployment/vps-backup/ftps-sync.py:97 | Part names are injective in bundle and index below a thousand |
| OffsiteNames.PartNameMeans | deployment/vps-backup/ftps-sync.py:97 | A part is named by its bundle and its number in three decimal digits |
| OffsiteNames.KindsOfNames | deployment/vps-backup/ftps-sync.py:57-68 | Parts, receipts, partial uploads and the owner marker never share a name |
| OffsitePoints.ReadPoints | deployment/vps-backup/ftps-sync.py:54-69 | Succeeds, where every receipt can be fetched, exactly on listings in which every receipt is signed, of this namespace and the present schema, download-verified, of 1 to 70 parts that are all listed with their sizes, and which hold nothing else but the marker; returns exactly the points of these receipts, with distinct bundles |
| OffsitePoints.AcceptedIsAuthentic | deployment/vps-backup/ftps-sync.py:14-68 | The accepted listings are those whose receipts are authentic, field by field, with every other object a listed part or the marker |
| OffsitePoints.CheckParts | deployment/vps-backup/ftps-sync.py:61-66 | True exactly when every part of the receipt is listed under its own name and size |
| OffsitePoints.RecoverableFrame | deployment/vps-backup/ftps-sync.py:154-190 | A point stays recoverable while its own objects stay |
| OffsitePoints.NamesOfPointsDiffer | deployment/vps-backup/ftps-sync.py:54-68 | Points of different bundles own disjoint names |
| OffsitePoints.ChunksConcat | deployment/vps-backup/ftps-sync.py:87-96 | The parts of a bundle concatenate to the bundle |
| OffsitePoints.ChunkSizes | deployment/vps-backup/ftps-sync.py:87-96 | Parts are non-empty, none exceeds the size, all but the last are full, and their number is the length over the size, rounded up |
| OffsitePoints.GateBoundsParts | deployment/vps-backup/ftps-sync.py:85 | The quota gate implies at most the seventy parts a receipt may list |
| OffsiteState.NewNamesAreFree | deployment/vps-backup/ftps-sync.py:80-84 | In an accepted listing without the manifest no name the publication creates is taken |
| OffsiteState.PublishedIsRecoverable | deployment/vps-backup/ftps-sync.py:107-116 | Once the receipt stands beside its parts, the new point is listed and its parts fetch and authenticate as the bundle |
| OffsiteState.PublishedIsAccepted | deployment/vps-backup/ftps-sync.py:115-119 | The new listing is accepted and lists the prior points plus the new one |
| OffsiteState.TrimmedIsSafe | deployment/vps-backup/ftps-sync.py:118-125 | While objects of other listed points are removed the new point stays recoverable, nothing else is lost, nothing went before the replacement, and the bytes stay within the cap |
| OffsiteState.SweptListing | deployment/vps-backup/ftps-sync.py:121-126 | After retention the listing is accepted again and lists exactly the points not dropped |
| OffsiteRetention.NewestFirstSorts | deployment/vps-backup/ftps-sync.py:119 | The order is descending in backup time and a permutation of the points |
| OffsiteRetention.KeptExactly | deployment/vps-backup/ftps-sync.py:120-123 | Kept are exactly the new point and those of the two newest inside the cutoff |
| OffsiteRetention.AtMostTwoKeptIff | deployment/vps-backup/ftps-sync.py:113-123 | At most two points are kept if and only if the new one sorts among the first two or the second of the order is outside the cutoff |
| OffsiteRetention.ThreeCanBeKept | deployment/vps-backup/ftps-sync.py:113-123 | An order of three points inside the cutoff, the new one last, of which all three are kept |
| OffsiteRetention.TieGoesEitherWay | deployment/vps-backup/ftps-sync.py:119-123 | Two orders of the same points, tied in time, of which one keeps three and the other two |
| OffsiteRetention.BoundIsDecided | deployment/vps-backup/ftps-sync.py:113-125 | Two listed points newer than the new one inside the cutoff mean that three survive; three survive only if two are at least as new; without ties at most two survive if and only if fewer than two are newer |
| OffsiteSync.Collect | deployment/vps-backup/ftps-sync.py:27-33 | The loop over the entries ends with the whole listing if and only if there are at most 1024 |
| OffsiteSync.Namespace.ReadListing | deployment/vps-backup/ftps-sync.py:80-119 | Success gives exactly the listed points of an accepted listing within the limit; without a failing step a refusal means that the listing is too long or not accepted |
| OffsiteSync.Namespace.ReadPart | deployment/vps-backup/ftps-sync.py:90-95 | The block loop reads exactly the next part's bytes, or the rest |
| OffsiteSync.Namespace.UploadParts | deployment/vps-backup/ftps-sync.py:86-106 | Uploads and records exactly the chunks of the bundle under their names, beside an untouched old listing |
| OffsiteSync.Namespace.PublishReceipt | deployment/vps-backup/ftps-sync.py:113-117 | Makes the new point recoverable and the listing accepted, prior points included, one object longer |
| OffsiteSync.Namespace.DropPoint | deployment/vps-backup/ftps-sync.py:124-125 | Removes exactly one point's objects, every deletion being of an authenticated older point |
| OffsiteSync.Namespace.Retain | deployment/vps-backup/ftps-sync.py:119-126 | Leaves an accepted listing of exactly the points not dropped, the new one recoverable; without a failing step it does so if and only if the listing has at most 1024 objects, and otherwise deletes nothing |
| OffsiteSync.Namespace.CheckOwner | deployment/vps-backup/ftps-sync.py:47-52 | Marks only an empty namespace, changes no other, and passes only one that shows this writer's marker |
| OffsiteSync.Namespace.Preflight | deployment/vps-backup/ftps-sync.py:80-85 | Passes only a listing within the limit, accepted, without the manifest, that leaves room for the bundle and its receipt; a known manifest is reported only with the same digest; without a failing step each refusal has its reason in the listing |
| OffsiteSync.Namespace.SyncOnce | deployment/vps-backup/ftps-sync.py:71-127 | After every remote operation: a recoverable point exists if one did, only older points whose receipts were signed lose objects and only once the new point is recoverable, and the bytes stay within the cap; success publishes the bundle recoverably and leaves exactly the points retention keeps, or reports the manifest as already there, and whether at most two survive is decided by the listing before. Without a failing step it publishes and retains exactly when the listing before passes every gate and has room for the parts and the receipt among 1024 objects; otherwise it refuses with nothing published for the reason it gives, or publishes and then stops before its retention. From more than 1024 objects nothing is ever published and nothing changes |
| OffsiteCapacity.Crowded | deployment/vps-backup/ftps-sync.py:106-115 | For every number of points there is an accepted listing of the marker and that many published points of one part, with its objects and bytes counted |
| OffsiteCapacity.AdmittedAndTooLong | deployment/vps-backup/ftps-sync.py:27-119 | An accepted listing of 1023 objects and a bundle of one byte that pass every gate and leave a listing too long to be read |
| QuotaTree.TreeBytes | deployment/vps-backup/platform_ftps_shared_quota.py:27-54 | The stack walk terminates, succeeds exactly on the admissible trees, and returns the recursive sum of file sizes |
| QuotaTree.Scan | deployment/vps-backup/platform_ftps_shared_quota.py:38-53 | One listing moves its bytes and entries from what remains to the totals and pushes its directories; a refusal means the tree is not admissible |
| LeasedSync.CountIsTotal | deployment/vps-backup/platform_ftps_shared_quota.py:38-51 | In whatever order a folder is listed, the count over its tree is the sum of sizes that the lease limits, with one entry per object |
| SharedLease.StepKeepsInv | deployment/vps-backup/platform_ftps_shared_quota.py:57-116 | Every step of either writer keeps exclusion, the lock and the byte bound |
| SharedLease.QuotaIsSafe | deployment/vps-backup/platform_ftps_shared_quota.py:57-116 | Over every interleaving with lost replies, lost sessions and crashes, at most one writer is inside, the lock exists while one is, and both folders together stay within the limit |
| SharedLease.LockFallsOnlyInOrder | deployment/vps-backup/platform_ftps_shared_quota.py:104-114 | The lock falls only by the operator, or by a writer that leaves with its session |
| SharedLease.LostLockStands | deployment/vps-backup/platform_ftps_shared_quota.py:1-6 | Once a writer has lost its session, its process or the reply to its lock request, or its removal has failed, the lock stands and nobody gets in, over every interleaving, until the operator clears it |
| SharedLease.CanLeaveInOrder | deployment/vps-backup/platform_ftps_shared_quota.py:77-114 | A writer inside with its session can always leave and remove the lock, its folder untouched |
| SharedLease.OrderlyExitFreesLock | deployment/vps-backup/platform_ftps_shared_quota.py:77-114 | Over every run, a writer that came in and lost nothing is still inside, or has removed the lock on its way out |
| SharedLease.FolderMovesOnlyUnderLease | deployment/vps-backup/platform_ftps_shared_quota.py:1-5 | A folder changes only by its own publishing writer, under the lock, with the other outside |
| SharedLease.AlwaysRecoverable | deployment/vps-backup/ftps-sync.py:71-126 | Once a folder holds a recoverable point it holds one in every later state of every run |
| LeasedSync.SafeTraceIsSteps | deployment/vps-backup/platform_ftps_shared_quota.py:104 | A publication's trace of safe states is a sequence of enabled steps of the lease |
| LeasedSync.PublishUnderLease | deployment/vps-backup/ftps-sync.py:77-127 | Run under the lease, every remote state of a publication, however it ends, is reached by enabled steps and keeps exclusion and the limit on both folders |
| LeasedSync.SessionIsRun | deployment/vps-backup/platform_ftps_shared_quota.py:57-116 | A whole session, from taking the lock over the moves of a publication to removing it, is a run of the lease |
| PauseJournal.JournalIsEnough | deployment/vps-backup/platform-vps-backup-runner.py:224-268 | Unpausing exactly what the journal names gives back the set paused before |
| PauseJournal.Host.PauseWanted | deployment/vps-backup/platform-vps-backup-runner.py:228-233 | Each container is in the durable journal before it is paused; success means every wanted one is paused; without a failing step it stops only at a container somebody else paused |
| PauseJournal.Host.Compensate | deployment/vps-backup/platform-vps-backup-runner.py:260-268 | Unpauses what it can and keeps every failure in the journal; success restores the start set and removes the journal |
| PauseJournal.Host.Capture | deployment/vps-backup/platform-vps-backup-runner.py:166-268 | Refused without effect while a journal exists; at every step the containers it left paused are in the durable journal; success means that every wanted container was paused at one moment and that nothing is paused or journalled afterwards that was not before; without a failing step it succeeds or refuses and leaves nothing paused |
| PauseJournal.Host.Recover | deployment/vps-backup/platform-vps-backup-runner.py:340-349 | Never pauses anything nor unpauses what was paused before; completed, it restores the start set, and it does complete without a failing step unless the journal names a foreign container |
| PauseJournal.Host.Live | deployment/vps-backup/platform-vps-backup-runner.py:166-349 | Over any sequence of captures and recoveries cut short anywhere, every durable state accounts for its paused containers |
| AdmissionChain.Validate | deployment/vps-backup/platform-vps-backup-runner.py:99-112 | Terminates and accepts exactly when a chain of signed, digest-linked predecessors of the same host descends by one to generation 1 and the zero digest |
| AdmissionChain.WalkIsAncestry | deployment/vps-backup/platform-vps-backup-runner.py:99-112 | The walk succeeds if and only if such a chain exists |
| AdmissionChain.ChainNeverRepeats | deployment/vps-backup/platform-vps-backup-runner.py:102-104 | No digest occurs twice in a chain, so the rejection of repeats rejects no chain |
| AdmissionChain.ChainIsUnique | deployment/vps-backup/platform-vps-backup-runner.py:99-112 | A profile has at most one chain |
| BackupControl.Control.Save | deployment/vps-backup/backup-control.py:42-57 | The switch is replaced atomically and never opens the gate while the schedule is down |
| BackupControl.Control.Timers | deployment/vps-backup/backup-control.py:32-41 | Success means the schedule follows the request; the stored switch never changes |
| BackupControl.Control.ForceOff | deployment/vps-backup/backup-control.py:59-66 | Ends with switch and schedule off unless it reports itself incomplete |
| BackupControl.Control.ApplyAndPublish | deployment/vps-backup/backup-control.py:68-74 | OFF closes the gate from its first change on, for good, whatever fails later; ON completes, is taken back, or is reported incomplete; without a failing step a request succeeds, is refused with nothing changed, or finds no schedule and turns everything off |
| BackupControl.Control.Request | deployment/vps-backup/backup-control.py:42-74 | A request that changes the switch was made against the current revision and is the only one ever to do so |
| BackupControl.Control.Live | deployment/vps-backup/backup-control.py:42-74 | Over any sequence of requests cut short anywhere, the gate opens only with the schedule running, no two requests with the same expected revision take effect, and OFF requests never reopen a closed gate |
| GrantReplay.Replay | deployment/vps-backup/production-restore.py:127-137 | Terminates; issues each tuple at most once and only when its grantor may; the issued set is the least fixpoint, and all succeed exactly when every tuple is derivable |
| GrantReplay.Pass | deployment/vps-backup/production-restore.py:129-135 | One pass loses no tuple, and one that issues nothing leaves only tuples that cannot be issued |
| GrantReplay.SaturatedIsLeast | deployment/vps-backup/production-restore.py:136 | A justified set from which nothing more can be issued is the least closed set |
| GrantReplay.OrderDoesNotMatter | deployment/vps-backup/production-restore.py:127-137 | Two listings of the same tuples have the same issued set |
| GrantReplay.EngineIsMonotone | deployment/vps-backup/production-restore.py:153-155 | Readiness as the engine answers it only grows with the grants issued |
| GrantReplay.GrantorHoldsOption | deployment/vps-backup/production-restore.py:153-155 | A grant that is not the owner's comes after one that carries the grant option to its grantor |
| DnsProbe.Skip | deployment/host/libexec/platform-dns-probe.py:62-72 | Succeeds exactly where some encoded name of at most 127 labels stands, and ends right after it |
| DnsProbe.Validate | deployment/host/libexec/platform-dns-probe.py:58-82 | Never reads outside the buffer; accepts exactly the encodings of messages with this identifier, QR set, TC clear, RCODE 0, every other header field free, one question and an IN A answer of the address, reports a missing address exactly for the others of them, and a bad status exactly when no such header is there |
| DnsProbe.MasksReadFields | deployment/host/libexec/platform-dns-probe.py:61 | The two masks let a header word through exactly when QR is set, TC clear and RCODE 0 |
| DnsProbe.VerdictOfMessage | deployment/host/libexec/platform-dns-probe.py:73-82 | Every encoded matching response is walked to its end and judged by its answers |
| DnsProbe.MessageOfVerdict | deployment/host/libexec/platform-dns-probe.py:73-82 | Every buffer walked to its end is the encoding of a matching response |
| DnsProbe.NameIsSteppedOver | deployment/host/libexec/platform-dns-probe.py:62-72 | An encoded name is stepped over in as many steps as it has labels plus one |
| DnsProbe.LegalResponsesAreRead | deployment/host/libexec/platform-dns-probe.py:58-82 | Every matching response whose names have at most 255 octets is walked to its end and judged by its answers: the 128 steps turn none away |
| DnsProbe.QueryIsOneQuestion | deployment/host/libexec/platform-dns-probe.py:94 | The query for a configured host is a header and one legal question that the reader steps over exactly |
| DnsProbe.PlainAnswerIsAccepted | deployment/host/libexec/platform-dns-probe.py:58-82 | A response that repeats the question and answers it through a compression pointer is among the accepted ones, authoritative or not |
| Series.AppendKeepsTheNewest | control-center/styles/overview.js:30-35 | A later sample is appended, only too old or too many samples go, from the front; any other sample changes nothing |
| Series.CollectedIsGood | control-center/styles/overview.js:30-35 | Every history that can arise is strictly increasing, bounded in number and in age |
| Series.Segments | control-center/styles/overview.js:39-53 | The segments flatten to exactly the readings in order; neighbours never bridge a missing reading or a long interval, and neighbouring readings stay together |
| VisibleSeries.Clip | control-center/styles/overview.js:67-75 | A clipped segment is rising, inside the window and on its chords, and covers all of the curve inside the window |
| VisibleSeries.Visible | control-center/styles/overview.js:57-79 | Every drawn piece is faithful: in the window, rising, on measured chords of neighbouring samples, interpolated only at the edges; and nothing inside the window is left out |
| VisibleSeries.ChordStaysBetween | control-center/styles/overview.js:60 | An interpolated value lies between the readings at the ends of its chord |
| WorkloadNames.ValidateIds | scripts/hosted-workload-source-policy.rb:57-71 | Accepts exactly the sets of canonical, distinct, prefix-free identifiers |
| WorkloadNames.OwnsMeans | scripts/hosted-workload-source-policy.rb:84-105 | Ownership as the code decides it by prefixes is ownership as the three schemes name things |
| WorkloadNames.OwnerIsUnique | scripts/hosted-workload-source-policy.rb:84-105 | Under an accepted set every name has at most one owner under each of the three schemes |
| WorkloadNames.NetworkNameIsInjective | scripts/hosted-workload-source-policy.rb:98-105 | A network name determines its workload and its zone |
| WorkloadNames.CollisionIsAmbiguous | scripts/hosted-workload-source-policy.rb:65-69 | Any two colliding identifiers do share a name, so the rule is not stricter than needed |
| WorkloadNames.CanonicalOwnerDecides | scripts/hosted-workload-source-policy.rb:84-105 | Under an accepted set the selection returns the owner, and fails exactly when there is none |
| WorkloadSource.Validate | scripts/hosted-workload-source-policy.rb:153-404 | Accepts exactly the sources in which every name declared or referred to is owned by the workload, is not the platform's, and meets the grant, mount, stub and network rules |
| WorkloadSource.CheckGrants | scripts/hosted-workload-source-policy.rb:257-325 | The table-filling loop accepts exactly grants of own declared secrets with distinct targets, all file references granted |
| WorkloadSource.WorkloadsAreDisjoint | scripts/hosted-workload-source-policy.rb:153-404 | Two accepted workloads have no own service, secret, volume or network in common, declared or referred to |
| WorkloadSource.CheckNetwork | scripts/hosted-workload-source-policy.rb:218-238 | Accepts exactly the workload's network of one zone, internal unless that zone is egress |
| WorkloadSource.CheckAttached | scripts/hosted-workload-source-policy.rb:341-378 | Accepts exactly own networks without options, for a stub only those of the zones its platform service is for |
| BindRoots.WithinMeans | deployment/vps-backup/production-restore.py:15 | A path lies within a root when it is the root, or the root followed by a slash and anything |
| BindRoots.RootsAreOutermost | deployment/vps-backup/production-restore.py:20-22 | The roots are exactly the mounted sources within no other one, sorted by length and text |
| BindRoots.RootsAreAntichain | deployment/vps-backup/production-restore.py:20-22 | No root lies within another |
| BindRoots.RootsCover | deployment/vps-backup/production-restore.py:20-22 | Every mounted source in scope lies within some root |
| BindRoots.RootsPreserve | deployment/vps-backup/production-restore.py:12-18 | No root is or contains a preserved path, nor lies within a preserved prefix |
| BindRoots.InScopeMeans | deployment/vps-backup/production-restore.py:12-18 | In scope are exactly the paths below the first installation |

## Left out

- ProductionRestore.Host.Restore: the authenticated bundle is one that a capture made with the same mounts, as the comparison of snapshot and runtime requires; paths are independent names, so a target nested inside another target is not modelled.
- ProductionRestore.Host.RecoverRollback: the running state of containers, which a recovery brings back, is not modelled, nor are writes of running containers to their volumes; the check against the enrolled targets is left out.
- ProductionRestore.Host.SetMeta: owner and mode of a parked original only; ownership checks and races with foreign processes are environment assumptions.
- OffsiteSync.Namespace.SyncOnce: assumes that the order of backup times as texts, which sorts the points, is their order in time, which the cutoff compares, as it is for times that captures write in UTC; that signed receipts come from captures, whose bundle is named after the manifest; that a receipt of at most seventy parts fits its reserve of 131072 bytes, and that an empty bundle never decrypts; the local clean-up after remote retention is left out.
- SharedLease.QuotaIsSafe: assumes that both folders start within the limit and already hold their owner markers; that the other writer, whose program is not part of this model, publishes through safe states too.
- LeasedSync.PublishUnderLease: starts from a folder that is not empty; writing the first owner marker is left out of the lease.
- ActivationBroker.Broker.Dispatch: one request is atomic except between its writes; the socket, fork and select loop and the firewall helper are left out, and a commit is not restricted to the last phase because the code does not restrict it.
- ActivationBroker.AcceptedCommit: the schemas of receipts and of Engine evidence are opaque strings.
- BackupControl.Control.Request: request identifiers are assumed fresh; a switch file that fails its own checks is left out.
- PauseJournal.Host.Capture: nobody else pauses containers while a journal is pending, and the container list is the one inspected at the start; the exports and archives are steps that succeed or fail.
- GrantReplay.Replay: readiness is a monotone function of the grants issued; the SQL text of a grant, SQL errors and the reset of the access lists before the replay are left out.
- DnsProbe.Validate: the address is its four octets, of which the compared text is the canonical form.
- AdmissionChain.Validate: protection of the history's files and JSON number types other than integers are left out.
- Series.Segments: times and values are reals, so rounding of the interpolation is not modelled; one key at a time.
- WorkloadSource.Validate: rules on a service that a single branch decides are one flag; parsing and the core mode without a workload are left out.
- `chartGeometry`, `add_canonical_owner!`, the enrolment, inventory and metrics scripts, the administration server, and all presentation code.
