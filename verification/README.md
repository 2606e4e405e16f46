# Verified core of ihar

A Dafny model of the parts of ihar where a mistake loses state: who owns the shared Codex login, how a
credential is published, how a guest hands one back, how persistent state leaves an old runtime home, and
the small codecs and bounds around them.  `dafny verify dfyconfig.toml` checks all of it.

Code that works by changing things step by step is modelled by methods on classes whose operations may fail
wherever the original may raise.  Such a class keeps the set of all states it has passed through and counts
the failures, so a contract can speak of every intermediate state, of every crash, and of what happens when
nothing fails.  What a protocol keeps over whole runs is stated over sequences of states.  What a main operation
does is stated twice: by a function or relation that its proof follows, and by conditions in terms of the trees,
tables, records or bytes alone.

## Modules

- `Processes`, `Supervision`, `AttachmentRuns`: the process table, parent walks, the subreaping guardian, and
  when an attached client counts as gone.
- `CredentialDisk`, `Publication`, `CredentialChain`: a directory that can crash (what has reached the disk and
  the operations since its last sync, any subset of which may be lost), the publish and logout transactions on
  it, and any sequence of them as a chain of compare-and-swaps.
- `OwnerRecord`, `RequestGrounds`, `GuestHandoff`, `BundleRuns`, `ReleaseRuns`, `Admission`, `LeaseRuns`: the owner
  record and its validator, the requests condition by condition and field by field, the guest handoff over runs with
  failures at any point, which records can be released, single ownership across crashes and pid reuse, and what the
  holder of a lease may leave behind.
- `Sorting`, `Manifest`, `Paths`, `TreeDiff`, `StagedTree`, `Migration`, `RuntimeViews`: the manifest rule, the
  migration transaction with a failure possible at every operation of it and of its rollback, and what all the
  runtimes of a project show afterwards.
- `WebSocket`, `WireFormat`, `AppServerClient`, `BrokerSocket`, `TabProtocol`: two WebSocket codecs (sections 5.2 to
  5.5 of RFC 6455), frames bit by bit and byte by byte, and the tab protocol with its two decoders, on streams cut anywhere.
- `HandoffBound`, `Utf8Split`, `SessionContract`, `SessionIndex`, `ClaudeCompare`: the self-describing size and
  its bound, the carrier split (section 4 of RFC 3629), the append-only session log with its contract, the
  settings comparison.

## What turned out not to hold as one might expect

- An attachment can be closed while a process of its client lives: identities are matched by the binary they
  were recorded with, and a recorded child that executes another program matches no more.
  `GoneIsRightIffNothingDrifted` gives the exact condition, `ExecEscapesSupervision` a run.
- The migration's last rename replaces an original entry if it is an empty directory named
  `.canonical-before`, which the manifest's path pattern allows.  `CommitLosesIff`, `ReservedNameIsLost`.
- A stage made while nobody was logged in still publishes after a login and a logout; against an existing
  credential that cannot happen.  `StaleStagePublishesIff`, `AbsenceComesBack`.
- `blocked` is overwritten by seven kinds of request (`MarkLostIff`, `BlockEndsOnlyByOverwriting`), so release
  safety rests on the release check.  Whether a record can still be released while its guardian lives does not
  depend on the mark: `CanBeReleasedIff` gives the exact condition, and a guest of the older kind never meets it.
  A guardian that dies leaves its record for ever: `CrashBlocksForEver`.
- A lease of the older schema can be given back while processes of its holder live: `CanLeaveBehindIff` says when,
  `DetachedOutlivesLease` is a run, and the holder's wait for its descendants prevents it (`WaitedLeavesNothing`).
- An upgrade changes what other runtimes show: a link to where canonical state had no file shows the owner's from
  then on.  `ViewReadsIff` and `NoReadChangesIff` say exactly when, `LinkedRuntimeGains` is a case.
- The copy of the canonical tree that an upgrade publishes is never compared with the tree it was made from:
  `PublishedWholeIff`, `OwnerReadsIff`.
- A NaN in the settings makes equal settings differ: `SameValueIff`.
- The older guest registration, beside a registered bundle, passes the guardian's own checks and is stopped
  only by the record validator: `RefusedByValidator`.
- In `acquire`, the two refusals after the attach branch cannot be reached: a proven lease is an active one.
- Merging the same rows twice can append twice.  `SecondMergeAppendsNothingIff` gives the exact condition on the
  log and the rows; that every session under the id of some key has that key is enough.
- The recorded size of a package is not always determined by the package: `TwoSizesFitIff` says exactly when,
  and `SetSize` which of the two is then reached.  Whether it fits the limit is.
- The broker's reader takes a client's frame cut anywhere for an empty one, save when less than two bytes are
  there or the length is and is over the limit (`CutReadsEmptyIff`), and the supervisor's decoder takes a stream
  cut after a header for one more empty frame (`DecodersAgree`).

## Model

| member | source | states |
|---|---|---|
| `Processes.Descendant` | lib/python/ihar/codex/guardian.py:244-251 | Decides, on every process table and cyclic parent links included, whether a parent chain inside the table leads from one pid to another; the visited set makes it end. |
| `Processes.ReachesIsClimb` | lib/python/ihar/codex/guardian.py:244-251 | Descent is exactly a sequence of pids in the table, each the child of the next, that comes to the ancestor only at its end. |
| `Processes.MatchingIsShowing` | lib/python/ihar/codex/auth_owner.py:117-122 | An identity matches exactly when its pid is there with its start time, not a zombie, and has its binary as executable or among its arguments. |
| `Processes.UnexpectedDescendant` | lib/python/ihar/codex/guardian.py:387-392 | True exactly when some non-zombie process outside the ignored groups, other than the guardian, descends from it. |
| `Processes.DescendantsActive` | lib/python/ihar/codex/auth_owner.py:624-636 | The multi-pass fixpoint ends on every table and finds exactly what the per-process parent walk finds with nothing ignored. |
| `Processes.ClosedHoldsDescendants` | lib/python/ihar/codex/auth_owner.py:629-635 | A pid set closed under 'my parent is in the set' holds every process whose chain reaches the guardian, so a pass without change has found them all. |
| `Processes.StepKeepsWf` | lib/python/ihar/codex/auth_owner.py:612-621 | Fork, exec, exit with reparenting to the nearest subreaper, reap and a new subreaper keep every parent present, live and older. |
| `Processes.AnchorKept` | lib/python/ihar/codex/auth_owner.py:612-621 | A subreaping guardian keeps its whole spawned tree below itself through every step but its own exit, double forks and orphans included. |
| `Processes.QuietMeansExtinct` | lib/python/ihar/codex/guardian.py:1335-1336 | If the guardian finds no active descendant, no process it ever transitively spawned is alive. |
| `Processes.StepKeepsKin` | lib/python/ihar/codex/auth_owner.py:612-621 | Process steps keep every parent, and whoever spawned it, among those that transitively spawned its children. |
| `Processes.QuietIffExtinct` | lib/python/ihar/codex/auth_owner.py:624-636 | So the parent walk finds an active descendant of a subreaper exactly when something it transitively spawned is alive. |
| `Processes.ExtinctForever` | lib/python/ihar/codex/guardian.py:649-694 | Once no live process transitively spawned by a root exists, no later step brings one back. |
| `Supervision.CloseBelow` | lib/python/ihar/codex/guardian.py:619-631 | The progress loop tracks every live process with a live chain into the tracked pids and nothing else, and fails only over a process whose binary cannot be told. |
| `Supervision.AdoptOrphans` | lib/python/ihar/codex/guardian.py:632-639 | The single adoption pass adds exactly the live children of the guardian that no owner identity or baseline explains; it does not close again below them. |
| `Supervision.Attachment.Refresh` | lib/python/ihar/codex/guardian.py:593-646 | One refresh appends exactly the fresh processes, each once: in terms of the table, those alive below a tracked pid by a chain of live parents, and the guardian's live children that neither the owner record nor the baseline explains; it raises as opaque exactly when one of them cannot be identified, and past 128 descendants. |
| `Supervision.Attachment.Poll` | lib/python/ihar/codex/guardian.py:649-694 | One poll takes a second snapshot only when the root has just been reaped; after that the status recorded is the root's own exit code, or 128 + n when signal n ended it; a tracked pid that another process has in the latest snapshot raises, a tracked identity alive in it keeps the entry open, and neither of them closes it; raised from a refresh it leaves what that snapshot, first or second, had found. |
| `Supervision.LeadsIsChain` | lib/python/ihar/codex/guardian.py:619-631 | What the progress loop tracks is exactly what a chain of live parents leads from to a tracked pid. |
| `Supervision.JudgedByWhatShows` | lib/python/ihar/codex/guardian.py:665-672 | The verdict: reused exactly if some tracked pid has another start time in the table, gone exactly if none has and no tracked identity is alive under its binary. |
| `AttachmentRuns.StepKeepsHung` | lib/python/ihar/codex/guardian.py:593-646 | Whatever the system does, every process the client transitively spawned hangs below the client's root or directly below the guardian. |
| `AttachmentRuns.TopOfChain` | lib/python/ihar/codex/guardian.py:632-639 | Each live spawned process has a live chain whose top is the root or a child of the guardian: the invariant the adoption pass relies on, without closure below a fresh orphan. |
| `AttachmentRuns.RefreshCovers` | lib/python/ihar/codex/guardian.py:593-646 | After a refresh the top of every surviving chain of the client is tracked. |
| `AttachmentRuns.GoneIsRightIffNothingDrifted` | lib/python/ihar/codex/guardian.py:665-672 | When no tracked identity matches, the client's tree is extinct if and only if no live tracked process has stopped showing the binary it was recorded with. |
| `AttachmentRuns.DoneMeansExtinct` | lib/python/ihar/codex/guardian.py:649-694 | In every run of process steps, signals and polls that closes no entry over such a process, a done entry has no live process its root ever spawned. |
| `AttachmentRuns.ExecEscapesSupervision` | lib/python/ihar/codex/guardian.py:665-672 | A concrete run in which a recorded child executes another program and the next poll closes the entry while it is alive. |
| `CredentialDisk.SettledSurvives` | lib/python/ihar/codex/auth_owner.py:966-982 | A name no operation since the last sync concerns is after any crash what it was before it, whichever subset of the others is lost. |
| `CredentialDisk.RenameSurvives` | lib/python/ihar/codex/auth_owner.py:1188-1189 | A rename that no other operation follows is kept whole or lost whole, so one of its two names is there after a crash. |
| `CredentialDisk.ShownIsPossible` | lib/python/ihar/codex/auth_owner.py:966-982 | Whatever a name may show after a crash, some crash does leave, so what is said of crashes is exact. |
| `CredentialDisk.CredentialDir.Create` | lib/python/ihar/codex/auth_owner.py:975-982 | Exclusive creation: fails if the name is taken, else adds an empty unsynced file as one loggable operation. |
| `CredentialDisk.CredentialDir.Fill` | lib/python/ihar/codex/auth_owner.py:942-952 | Writing and syncing a file; a failure may leave any prefix, not yet durable. |
| `Publication.SoundIsCrashSafe` | lib/python/ihar/codex/auth_owner.py:1062-1092 | The invariant kept in every state implies safety after any crash: canonical is what a crash at the start could have left, or whole old or whole new bytes, and only those if the old ones were on the disk; where it is the new one, a recovery copy of the old bytes; with no marker left, the one in place. |
| `Publication.StartIsWholeIff` | lib/python/ihar/codex/auth_owner.py:1062-1092 | Before anything is done every crash leaves the whole old bytes if and only if those are on the disk under every file a crash could leave there: what a foreign writer has not synced no order of operations can protect. |
| `Publication.WriteRecovery` | lib/python/ihar/codex/auth_owner.py:1134-1148 | The recovery copy holds the bytes found, durably, before anything is committed, also where the credential itself was never synced. |
| `Publication.WritePending` | lib/python/ihar/codex/auth_owner.py:975-982 | The pending marker and the recovery entry are durable when it returns successfully. |
| `Publication.SpendStage` | lib/python/ihar/codex/auth_owner.py:1161-1162 | The stage's marker is renamed away durably, so the stage can never be published again. |
| `Publication.Install` | lib/python/ihar/codex/auth_owner.py:1163-1174 | Link or replace puts exactly the prepared file under the canonical name; the old or the new whole file may show after a crash, nothing else. |
| `Publication.Commit` | lib/python/ihar/codex/auth_owner.py:1163-1186 | Link or replace, then sync: published, refused untouched, rolled back to baseline bytes or left for manual recovery; the last needs two failures. |
| `Publication.Rollback` | lib/python/ihar/codex/auth_owner.py:1062-1092 | A rollback that reports success leaves baseline bytes, durably, with the pending marker still in place. |
| `Publication.Clear` | lib/python/ihar/codex/auth_owner.py:1187-1196 | Pending becomes complete and only then disappears; whichever step fails, the guard stays closed through any crash. |
| `Publication.Prepare` | lib/python/ihar/codex/auth_owner.py:1108-1162 | Everything before the commit can refuse without touching the canonical name, lets through exactly eligible stages unless something fails, and leaves the whole disk alone for any other stage. |
| `Publication.Publish` | lib/python/ihar/codex/auth_owner.py:1095-1201 | From every starting state, a credential left unsynced by a foreign writer included: every state passed through is safe from a crash; a closed guard, a spent or malformed stage, a credential other than the one recorded and an existing one without approval are refused with the disk untouched, and without a failure nothing else is; a published stage's bytes are in place of those recorded, which a recovery copy holds; a rolled-back commit leaves the old bytes, durably, and a closed guard; one failure never leaves a commit undecided. |
| `Publication.RemoveCanonical` | lib/python/ihar/codex/auth_owner.py:770-798 | Logout removes the credential only behind a durable recovery copy and pending marker, and only the version its stage recorded. |
| `Publication.Logout` | lib/python/ihar/codex/auth_owner.py:770-801 | The same guarantees for removing the credential: crash safe throughout, refused with nothing touched unless permitted, done unless something fails. |
| `CredentialChain.NextEvolves` | lib/python/ihar/codex/auth_owner.py:1001-1051 | Every stage, publication, logout and foreign write keeps the past, adds at most one change, and lets a stage change only the version it was made against. |
| `CredentialChain.RunKeepsInv` | lib/python/ihar/codex/auth_owner.py:1108-1175 | In every run the versions form an unbroken chain and none comes back while the guard is open. |
| `CredentialChain.PublicationsCompareAndSwap` | lib/python/ihar/codex/auth_owner.py:1108-1175 | Each stage publishes at most once and replaces exactly the version it recorded; against an existing credential no change lies in between. |
| `CredentialChain.StaleStageIsRefused` | lib/python/ihar/codex/auth_owner.py:1115-1116 | A stage whose recorded credential has been superseded is refused for ever. |
| `CredentialChain.StaleStagePublishesIff` | lib/python/ihar/codex/auth_owner.py:1108-1175 | In every run a stage the credential has changed since can still publish if and only if it recorded absence, absence is back, the guard is open and the stage is not spent. |
| `CredentialChain.AbsenceComesBack` | lib/python/ihar/codex/auth_owner.py:1115-1116 | A concrete run that gets there: a stage made when nobody was logged in, a login and a logout. |
| `OwnerRecord.RefusedByValidator` | lib/python/ihar/codex/auth_owner.py:217-270 | Of the requests the guardian permits on a valid record, the validator refuses to store exactly those with a malformed identity and the older guest registration beside a bundle. |
| `OwnerRecord.ReconciledMeansReturned` | lib/python/ihar/codex/auth_owner.py:179-214 | In a valid record a reconciled bundle has been returned, and a guest is recorded exactly while a bundle's VM is bound and not returned. |
| `RequestGrounds.ValidMeans` | lib/python/ihar/codex/auth_owner.py:217-270 | The validator accepts exactly the coherent records: sound identities, absolute paths, what belongs together all there or none, and a bundle whose VM, guest, reconciliation, candidate, publication and acknowledgement are those of its state. |
| `RequestGrounds.StoppedIsNothing` | lib/python/ihar/codex/auth_owner.py:1491-1500 | A VM has stopped exactly when no live process has its pid or, if it leads a group of its own, is in that. |
| `RequestGrounds.AllowedMeans` | lib/python/ihar/codex/auth_owner.py:1310-1447 | What the guardian checks for each request is exactly its grounds, put down condition by condition: the image and the state a guest request needs, whose VM must have stopped, who must have no guest, which need the place, the baseline, the token and the candidate, or an open guard. |
| `RequestGrounds.AfterMeans` | lib/python/ihar/codex/auth_owner.py:1310-1447 | What each request leaves, field by field of the record and of the bundle: each field changes in the requests named for it and in no other. |
| `GuestHandoff.Guardian.Write` | lib/python/ihar/codex/auth_owner.py:430-441 | A record is stored only if valid; a failure may come before or after it is stored. |
| `GuestHandoff.Guardian.Fail` | lib/python/ihar/codex/guardian.py:1292-1300 | A failed guest operation marks the record blocked, if that can be written. |
| `GuestHandoff.Guardian.Block` | lib/python/ihar/codex/guardian.py:680-691 | So do a failed teardown of an attachment and a failed daemon request. |
| `GuestHandoff.Guardian.StoppedVm` | lib/python/ihar/codex/auth_owner.py:1491-1500 | A bundle's VM counts as stopped exactly when it is bound, recorded as guest, not ambiguous and neither it nor its isolated group is active. |
| `GuestHandoff.Guardian.Change` | lib/python/ihar/codex/guardian.py:979-1082 | For each request other than a publication: refused exactly when not permitted, else the record it leaves. |
| `GuestHandoff.Guardian.ChangeGuest` | lib/python/ihar/codex/auth_owner.py:1344-1386 | The guest transitions starting, bind-vm, quiescent, acknowledge and abort, each with its state, image and VM conditions. |
| `GuestHandoff.Guardian.Refresh` | lib/python/ihar/codex/auth_owner.py:1503-1534 | Publishing a fresh stage against the bundle's baseline: every outcome a publication can have, recorded in the history. |
| `GuestHandoff.Guardian.PublishGuestCredential` | lib/python/ihar/codex/auth_owner.py:1389-1423 | Publishes only a quiescent bundle with its VM stopped and canonical equal to its baseline, and only if the bytes changed; the record may still fail to be written afterwards. |
| `GuestHandoff.Guardian.Handle` | lib/python/ihar/codex/guardian.py:971-1179 | One request: whatever else fails, it succeeds only on its grounds and leaves what is put down for it field by field; an accepted quiescence, publication or acknowledgement saw no live process with the recorded VM's pid or in its group; without a failure it succeeds exactly when its sender and the process it records are below the guardian, the recorded child is who it was or the sender's client has joined, and its grounds are there; a refused guest operation, a publication included, leaves the record blocked. |
| `GuestHandoff.Guardian.MayAsk` | lib/python/ihar/codex/guardian.py:960-1000 | Exactly those checks of the sender and of the process to be recorded, on every process table. |
| `GuestHandoff.Guardian.ReleaseWhenQuiescent` | lib/python/ihar/codex/guardian.py:1315-1372 | Deletes the record exactly when the guardian and its child are who they were, nothing is left running, nothing is blocked or unreconciled, no marker or socket remains, the runtime's link is in place, the control socket is its own and nobody else uses the credential, all of it in terms of the table and the record; marks it blocked exactly when all is quiet and an open stage, an unreconciled guest or the daemon's socket remains. |
| `GuestHandoff.TriedKeepsInv` | lib/python/ihar/codex/auth_owner.py:1399-1417 | A tried publication, whatever came of it, leaves the canonical credential different from the bundle's baseline or the guard closed, so there is no second one. |
| `GuestHandoff.NextKeepsInv` | lib/python/ihar/codex/guardian.py:971-1372 | Every request, failure, release, start, login, logout, foreign write and blocking after any other failure keeps the invariant. |
| `GuestHandoff.OneJustifiedAttemptPerBundle` | lib/python/ihar/codex/auth_owner.py:1389-1423 | In every run the stored record is valid and each registered bundle makes at most one attempt on the canonical credential, after registered, starting, running and quiescent, with its VM seen stopped and no live process in its VM's group. |
| `BundleRuns.EveryStateIsGrounded` | lib/python/ihar/codex/auth_owner.py:1310-1447 | In every run, whichever request and process table explain a step in which a bundle comes to a new state: it is the request for that state, on its grounds; to become quiescent, published or returned the recorded VM was seen stopped in that table. |
| `BundleRuns.EveryStateWasEntered` | lib/python/ihar/codex/auth_owner.py:1310-1447 | In every run a bundle has come to each state on the way to its present one in a step of its own, with the same VM since it was bound. |
| `BundleRuns.ReturnedWasStopped` | lib/python/ihar/codex/auth_owner.py:1378-1447 | In every run a returned bundle's VM had been seen stopped three times, in this order: when it became quiescent, when it was published, when it was returned. |
| `GuestHandoff.DeletedOnlyWithoutGuest` | lib/python/ihar/codex/guardian.py:1343-1372 | In every run each deletion of the record found, in the processes then seen, the recorded guardian alive, nothing active below it or in its child's group and no recorded pid reused, and the record without guest, open stage or a bundle that was not returned. |
| `GuestHandoff.DisappearingIsDeletion` | lib/python/ihar/codex/guardian.py:1366-1372 | The record disappears in no step but such a deletion, and with an open guard. |
| `GuestHandoff.BlockedIsNotFinal` | lib/python/ihar/codex/guardian.py:1020-1020 | A concrete way: the next child binding overwrites the mark, and the record can then be deleted. |
| `GuestHandoff.NextKeepsGuardian` | lib/python/ihar/codex/guardian.py:971-1372 | No step hands a record that stays to another guardian. |
| `ReleaseRuns.MarkLostIff` | lib/python/ihar/codex/guardian.py:996-1061 | Of the requests permitted on a blocked record exactly bind-runtime, bind-child, bind-daemon, a daemon stop for a restart, both guest registrations and release lose the mark; what they leave can be released exactly if they bring in no guest and the mark was all that stood against it. |
| `ReleaseRuns.BlockEndsOnlyByOverwriting` | lib/python/ihar/codex/guardian.py:1292-1300 | In every run a record once blocked stays, blocked, until one of those requests goes through. |
| `ReleaseRuns.StrandedStays` | lib/python/ihar/codex/auth_owner.py:1389-1423 | A record with a closed guard, with a guest of the older kind, or with a bundle whose baseline, or published credential, is not the canonical one any more is out of every step's reach. |
| `ReleaseRuns.CanBeReleasedIff` | lib/python/ihar/codex/guardian.py:1315-1372 | A record, blocked or not, can come to be deleted in some continuation of the run if and only if it is none of those: the way out is a run of requests the live child makes, whatever the bundle's state, up to the release check; the other records stay out of reach for ever. |
| `Admission.OwnerFile.Admit` | lib/python/ihar/codex/guardian.py:1383-1397 | A guardian is admitted exactly when no record, no marker, no external consumer and no write failure; a write that fails late leaves its record; otherwise the answer says whether the owner there is proven. |
| `Admission.OwnerFile.Acquire` | lib/python/ihar/codex/auth_owner.py:444-487 | A lease is granted exactly on an absent record, attached exactly to a live daemon lease of the id and runtime asked for, and the configuration if one is asked for, with its socket proven and nobody attached and no child, unless the write fails, before the record shows or after; every other call leaves the record alone, and the last two refusals are unreachable. |
| `Admission.OwnerFile.ReleaseLease` | lib/python/ihar/codex/auth_owner.py:578-590 | A lease is given back exactly by its own id, with nobody attached, no active child and a certified, gone daemon, unless deleting the record fails, before it is gone or after. |
| `Admission.OwnerFile.ReleaseGuarded` | lib/python/ihar/codex/guardian.py:1315-1372 | A schema-two record is given up exactly when the handoff's release check finds nothing against it, and otherwise stays, perhaps blocked. |
| `Admission.NextKeepsInv` | lib/python/ihar/codex/guardian.py:1383-1433 | Process steps, crashes, pid reuse, starts, and every outcome the owner file's operations can have keep: at most one admitted guardian, the one recorded, with its tree below it while it lives. |
| `Admission.OneTreeAtATime` | lib/python/ihar/codex/guardian.py:1410-1433 | In every run all live processes spawned by guardians belong to the one guardian the record names. |
| `Admission.RecordNeverReplaced` | lib/python/ihar/codex/auth_owner.py:454-475 | Whatever those operations do in one step, a record that stays is left to its owner. |
| `Admission.OwnersAreSeparated` | lib/python/ihar/codex/auth_owner.py:454-475 | In every run, between two owners, guardians or leases, there is a state without a record. |
| `Admission.HandoffRewrites` | lib/python/ihar/codex/guardian.py:971-1372 | Every step of the guest handoff that leaves a record is one of the rewritings those runs allow. |
| `LeaseRuns.CanLeaveBehindIff` | lib/python/ihar/codex/auth_owner.py:578-590 | Giving a lease back can leave a live process of its holder if and only if the lease may be given back and the holder has an active descendant: only the recorded child and daemon are looked for. |
| `LeaseRuns.WaitedLeavesNothing` | lib/python/ihar/codex/auth_owner.py:722-727 | In every run, once the holder has waited until it has no active descendant and starts nothing more, nothing it ever spawned is alive when the lease is given back, nor after. |
| `LeaseRuns.DetachedOutlivesLease` | lib/python/ihar/codex/auth_owner.py:836-863 | A run from admission on in which a lease with a child bound and gone is given back while a process the child had started, in a session of its own, lives. |
| `Admission.CrashBlocksForEver` | lib/python/ihar/codex/guardian.py:1386-1391 | Once its guardian is dead the record stays, whoever reuses the pid, and nobody is admitted any more. |
| `Sorting.SortedIsSorted` | lib/python/ihar/jsonio.py:330-330 | Sorting orders the paths and keeps each of them. |
| `Sorting.LeMeans` | lib/python/ihar/jsonio.py:330-330 | The order is that of the first differing character, a prefix coming first. |
| `Manifest.ExtensionsComeLater` | lib/python/ihar/jsonio.py:330-333 | In sorted order a path below another comes after it, so the forward scan misses nothing. |
| `Manifest.Gather` | lib/python/ihar/jsonio.py:307-328 | The first loop refuses exactly when some vendor's expanded paths repeat, and else has gathered each vendor's list. |
| `Manifest.Overlapping` | lib/python/ihar/jsonio.py:329-337 | The scan of sorted pairs finds an overlap exactly when one path lies below another. |
| `Manifest.Accepts` | lib/python/ihar/jsonio.py:306-337 | Accepts exactly the manifests in which no two items of a vendor stand for the same path or for one below the other's, a database standing for its -wal and -shm files too. |
| `Manifest.ExpandedApartIff` | lib/python/ihar/jsonio.py:306-337 | The expanded paths of a vendor are prefix-free exactly when its items are apart in that sense. |
| `Manifest.AcceptedSuitsMigration` | lib/python/ihar/runtime_state_upgrade.py:54-61 | What the rule accepts is what the migration needs of its entries. |
| `Paths.MergeMissesOthers` | lib/python/ihar/runtime_state_upgrade.py:304-324 | Copying one entry with its parents changes nothing at an entry that lies apart. |
| `Paths.MergeHoldsEntry` | lib/python/ihar/runtime_state_upgrade.py:304-324 | Where nothing was, the copied entry holds exactly what the source holds. |
| `Migration.Materialized` | lib/python/ihar/runtime_state_upgrade.py:406-436 | Finds the manifest entries that are there and not links, and refuses exactly when one does not fit: it is neither absent, nor its own link, nor a directory without a link below or a file as the manifest says, or something other than a directory leads to it. |
| `Migration.FitsIff` | lib/python/ihar/runtime_state_upgrade.py:159-172 | The check of one entry is exactly that. |
| `StagedTree.StagedIs` | lib/python/ihar/runtime_state_upgrade.py:1031-1033 | The staged tree path by path: the owner's entries, else what canonical had, else directories that lead to an entry. |
| `Migration.StageCopies` | lib/python/ihar/runtime_state_upgrade.py:1025-1045 | Whatever the copies tear, a stage that passes the fingerprints is exactly the tree that the copy of the canonical tree brought, with the entries merged in; that copy itself is compared with nothing. |
| `Migration.PublishedWholeIff` | lib/python/ihar/runtime_state_upgrade.py:1025-1045 | The published tree agrees with the old canonical one, off the entries and the directories that lead to them, if and only if that copy did. |
| `Migration.Machine.MoveOut` | lib/python/ihar/runtime_state_upgrade.py:1081-1090 | A rename into recovery that can only take the place of nothing, a file for a file, or an empty directory. |
| `Migration.MoveAndLink` | lib/python/ihar/runtime_state_upgrade.py:1077-1099 | Each entry is renamed to recovery and linked; stopped at any point, exactly the entries moved so far are out and safe in recovery. |
| `Migration.Restore` | lib/python/ihar/runtime_state_upgrade.py:894-930 | In reverse and past each failure, every entry is put back or reported, and is at its place or in recovery throughout. |
| `Migration.Rollback` | lib/python/ihar/runtime_state_upgrade.py:933-957 | Swaps the directories back first and leaves the links alone if that fails; restores everything unless something fails again. |
| `Migration.CleanUp` | lib/python/ihar/runtime_state_upgrade.py:1160-1184 | The stage and recovery are removed only when nothing of the old state can be in them. |
| `Migration.CommitLosesIff` | lib/python/ihar/runtime_state_upgrade.py:1107-1112 | Setting the old canonical tree aside loses an entry exactly when it is an empty directory of the reserved name and there is an old tree to put in its place. |
| `Migration.ReservedNameIsLost` | lib/python/ihar/jsonio.py:59-59 | A concrete published state in which that happens: the manifest's path pattern allows the reserved name. |
| `Migration.ReserveIsFreeIff` | lib/python/ihar/runtime_state_upgrade.py:1107-1112 | That rename can be made exactly when no entry occupies the reserved name otherwise. |
| `Migration.Relink` | lib/python/ihar/runtime_state_upgrade.py:1057-1113 | From publication to commit: done, or everything needed for the rollback is in place. |
| `Migration.Undo` | lib/python/ihar/runtime_state_upgrade.py:1120-1184 | After rollback and cleanup either both trees are exactly as before, or the state is kept for repair; the latter needs another failure. |
| `Migration.Transact` | lib/python/ihar/runtime_state_upgrade.py:1024-1184 | With a failure possible at every operation: migrated, restored exactly, or incomplete with everything kept; determined when nothing fails. |
| `Migration.Upgrade` | lib/python/ihar/runtime_state_upgrade.py:960-1189 | Every state passed through keeps each original entry at its runtime path or in recovery and the whole old canonical tree at its place, in the stage or set aside, but for the reserved name; without a failure it raises exactly if an entry does not fit or cannot be moved because something is in canonical state, above it or at the reserved name, does nothing exactly if no entry is there and is no link, and migrates otherwise; migrated, each entry that was there is a link and whole in canonical state, and nothing else of either tree has changed but the copy. |
| `Migration.ExpectedMeans` | lib/python/ihar/runtime_state_upgrade.py:984-1022 | The outcome without failures, in terms of the two trees and the manifest. |
| `Migration.ConservesMeans` | lib/python/ihar/runtime_state_upgrade.py:1077-1119 | What every state keeps, path by path: each entry's tree is in the runtime or in recovery, the old canonical tree at its place, in the stage or set aside. |
| `Migration.DoneMeans` | lib/python/ihar/runtime_state_upgrade.py:1025-1119 | What a migration leaves, path by path of the runtime, of canonical state and of recovery. |
| `Migration.ReadsUnchanged` | lib/python/ihar/runtime_state_upgrade.py:1015-1119 | After an upgrade with a whole copy every read of manifest state through the owner's runtime shows what it showed before. |
| `Migration.OwnerReadsIff` | lib/python/ihar/runtime_state_upgrade.py:1015-1119 | In any case a read through the owner's runtime changes if and only if it went through a link already and the copy of the canonical tree got that path wrong. |
| `Migration.ViewReadsIff` | lib/python/ihar/runtime_state_upgrade.py:406-446 | A read through any other runtime changes if and only if it goes through a link, to something the owner had, or to something the copy got wrong; in the first case it showed nothing and shows what the owner had. |
| `Migration.UpgradeTwice` | lib/python/ihar/runtime_state_upgrade.py:960-1189 | Called again after it migrated, an upgrade does nothing and leaves both trees as the first did; nothing is asked of the second call but a stage and a recovery directory of its own. |
| `Migration.StaysRooted` | lib/python/ihar/runtime_state_upgrade.py:1015-1119 | After an upgrade both trees are trees again: every parent of what is there is a directory. |
| `Migration.NothingLeftToDo` | lib/python/ihar/runtime_state_upgrade.py:372-455 | After an upgrade nothing is materialized and every manifest entry is acceptable. |
| `RuntimeViews.FindOwners` | lib/python/ihar/runtime_state_upgrade.py:984-989 | All runtimes are looked through: refused exactly if one has an entry of the wrong kind or link, else the runtimes with state of their own. |
| `RuntimeViews.UpgradeProject` | lib/python/ihar/runtime_state_upgrade.py:984-1022 | Among all runtimes: migrates only from the single one with state of its own, if it is the candidate named and nobody uses any; no other runtime is written to; without a failure it does nothing exactly if every entry fits and the runtime named is not there, or is quiet and has no state, or, with none named, none has any, and migrates exactly if every entry fits, one runtime alone has state and nothing is in its way. |
| `RuntimeViews.ExpectedOfMeans` | lib/python/ihar/runtime_state_upgrade.py:984-1022 | That outcome in terms of the trees of all runtimes. |
| `RuntimeViews.NoReadChangesIff` | lib/python/ihar/runtime_state_upgrade.py:984-1119 | After a whole upgrade no read of manifest state has changed, through any runtime, if and only if no other runtime links an entry the owner had. |
| `RuntimeViews.LinkedRuntimeGains` | lib/python/ihar/runtime_state_upgrade.py:406-425 | A project in which one does: a runtime with a link to where canonical state has no file shows nothing before and the other runtime's history afterwards. |
| `WebSocket.XorTwice` | lib/python/ihar/codex/appserver.py:246-246 | Applying one mask byte twice gives the byte back. |
| `WebSocket.MaskedTwice` | lib/python/ihar/codex/appserver.py:246-246 | Masking with a four-byte key undoes itself for every payload and key. |
| `WireFormat.XorIsExclusiveOr` | lib/python/ihar/codex/appserver.py:246-246 | The operation on bytes sets a bit exactly where one of the two has it set. |
| `WireFormat.MaskIs` | lib/python/ihar/codex/appserver.py:246-246 | Masking combines each byte with the key's byte for its place modulo four, and nothing else does. |
| `WireFormat.MaskStartsAnew` | lib/python/ihar/codex/appserver.py:246-246 | What follows a multiple of four bytes is masked as if it stood alone. |
| `WireFormat.ZerosShowMask` | lib/python/ihar/codex/appserver.py:246-246 | Four zero bytes under a mask are the mask. |
| `WebSocket.NumberOfBigEndian` | lib/python/ihar/codex/appserver.py:238-243 | A big-endian field reads back as the number written, for every width. |
| `WireFormat.FirstWeighsMost` | lib/python/ihar/codex/appserver.py:258-266 | The first byte of a field weighs 256 to the number of the bytes behind it. |
| `WebSocket.HeaderOfField` | lib/python/ihar/codex/appserver.py:231-247 | The 7, 16 and 64-bit length forms, masked or not, read back as the length and the exact header size. |
| `WireFormat.FrameMeans` | lib/python/ihar/codex/appserver.py:252-277 | A frame is read exactly where the bytes show it by section 5.2 of RFC 6455: its bits, its length with each byte's weight, its key and each payload byte under its key byte. |
| `WireFormat.PlainIsLaidOut` | lib/python/ihar/console/broker.py:330-339 | A server's frame on the wire: first byte, shortest length form, payload as it is. |
| `WireFormat.KeyedIsLaidOut` | lib/python/ihar/codex/appserver.py:231-247 | A client's: first byte, mask bit with the shortest length form, key, each payload byte under its key byte. |
| `WireFormat.Keystrokes` | lib/python/ihar/console/broker.py:342-370 | The bytes 82 82 01 02 03 04 6d 71 are the two characters ls. |
| `WebSocket.PlainRoundTrip` | lib/python/ihar/console/broker.py:330-339 | A server's frame reads back with its opcode and payload for every length form, consuming exactly its bytes. |
| `WebSocket.KeyedRoundTrip` | lib/python/ihar/codex/appserver.py:231-247 | So does a client's frame under every mask key. |
| `WebSocket.ReadFramesAreSendable` | lib/python/ihar/codex/appserver.py:258-266 | No header can announce a payload a pong could not carry back. |
| `WebSocket.Socket.Recv` | lib/python/ihar/codex/appserver.py:216-225 | A stream gives at least one and at most the asked number of bytes, cut anywhere, and nothing only at its end. |
| `AppServerClient.DaemonClient.Need` | lib/python/ihar/codex/appserver.py:227-229 | Reads until enough is buffered or the stream ends, losing and reordering nothing. |
| `AppServerClient.DaemonClient.NeedHeader` | lib/python/ihar/codex/appserver.py:252-266 | Reads exactly the header there is, whatever the chunks. |
| `AppServerClient.DaemonClient.Take` | lib/python/ihar/codex/appserver.py:252-277 | Takes exactly the one frame that the bytes of the stream show, or fails exactly when they end before they show one. |
| `AppServerClient.DaemonClient.Recv` | lib/python/ihar/codex/appserver.py:252-296 | Text (1) and more of it (0) gather, and a final fragment hands the message on; a ping (9) is answered once with a masked pong (10) of its payload; everything else is passed over; it raises exactly on a close (8), at the end of the stream or when an answer cannot be sent. |
| `AppServerClient.DaemonClient.ReceiveUpTo` | lib/python/ihar/codex/appserver.py:57-77 | The loop of a request: the messages handed on, the text gathered, the bytes left, and the pongs and declines sent, in their order, are those of the frames received; it ends with the answer, with something that is no message, or with the budget. |
| `AppServerClient.DaemonClient.Await` | lib/python/ihar/codex/appserver.py:57-77 | From end to end: however the server cuts its messages into fragments, with control frames between, what is handed on is a beginning of those messages in order, no message but the last ends the wait, and the answer, if it is among them and nothing fails, does. |
| `AppServerClient.FragmentsAssemble` | lib/python/ihar/codex/appserver.py:288-292 | However messages are cut into text and continuation frames, with any control frames between, exactly the original messages come out in order. |
| `BrokerSocket.BrokerRead` | lib/python/ihar/console/broker.py:342-370 | The broker's reader gives exactly the frame the bytes show if its payload is within 65536 bytes; the reading ends exactly when not even two bytes are there or the length announced is over that; a frame cut short reads as an empty one. |
| `BrokerSocket.BrokerRoundTrip` | lib/python/ihar/console/broker.py:342-370 | A client's frame reads back and consumes exactly its bytes if its payload is within the limit, and ends the reading if not. |
| `BrokerSocket.CutReadsEmptyIff` | lib/python/ihar/console/broker.py:342-370 | For every proper prefix of a client's frame: the reading ends if and only if less than two bytes are there, or the whole length is and it is over the limit; otherwise the frame reads as an empty one of its kind. |
| `TabProtocol.ParsesOn` | lib/python/ihar/console/broker.py:586-592 | Parsing what has arrived and going on from the rest is parsing it all, for every cut. |
| `TabProtocol.EncodedMeans` | lib/python/ihar/console/supervisor.py:53-54 | A tab frame on the wire: its kind, its length in four bytes of falling weight, its payload. |
| `TabProtocol.FirstMeans` | lib/python/ihar/console/broker.py:587-592 | And exactly so it is found in front of what has arrived. |
| `TabProtocol.ParsesStream` | lib/python/ihar/console/supervisor.py:53-54 | A stream of frames followed by a proper prefix of another parses into exactly those frames with that prefix pending. |
| `TabProtocol.PassWhole` | lib/python/ihar/console/broker.py:587-601 | The inner loop passes on every whole frame in order, outputs (1) as binary frames (2) and exits (5) as text frames (1), byte for byte as they are laid out on the wire, and keeps the rest; an exit code that is no text, and a failed send, end it. |
| `TabProtocol.FromTab` | lib/python/ihar/console/broker.py:577-602 | Over the whole stream, however cut: all whole frames passed on in order and the rest pending, unless stopped, a read or a send fails or an exit code is no text, and then exactly the frames before that. |
| `TabProtocol.ServeClient` | lib/python/ihar/console/supervisor.py:132-158 | The blocking decoder gives the frames of the stream, and one more if it ends after a whole header. |
| `TabProtocol.DecodersAgree` | lib/python/ihar/console/supervisor.py:140-146 | The two decoders agree exactly on streams that end in less than a header; else the blocking one reports one more frame, of that kind and empty. |
| `HandoffBound.MovesOn` | lib/python/ihar/handoff/build.py:60-66 | A recorded size that has changed once moves the same way ever after and stays bounded. |
| `HandoffBound.Package.SetSize` | lib/python/ihar/handoff/build.py:60-66 | Ends from every starting value, and leaves the size field equal to the encoded length that includes it: the only such size where there is one; where there are two, the larger exactly if the number recorded before had more digits than the smaller. |
| `HandoffBound.TwoSizesFitIff` | lib/python/ihar/handoff/build.py:60-66 | Two sizes describe the same package if and only if for some k the rest of it takes 10^k less k, the size key and one: one digit more then carries the size over a power of ten. |
| `HandoffBound.FixpointFits` | lib/python/ihar/handoff/build.py:72-72 | Whether the size is within the limit does not depend on which of them it is. |
| `HandoffBound.Package.Bound` | lib/python/ihar/handoff/build.py:69-87 | Of all cuts of a package, files beyond 50 gone in each, the largest for which both encodings are within 8192 bytes, with the size it records in decimal counted in; it raises exactly when there is none. |
| `HandoffBound.NoCutBetween` | lib/python/ihar/handoff/build.py:74-85 | The steps of the loop miss no cut: between a package and what is left of it by one step there is none. |
| `HandoffBound.FirstThatFits` | lib/python/ihar/handoff/build.py:69-87 | What the loop ends with is the first of all cuts that fits. |
| `HandoffBound.ShrunkKeeps` | lib/python/ihar/handoff/build.py:69-87 | What is left is a suffix of the messages and prefixes of the lists, dropped in the stated order. |
| `HandoffBound.TruncatedMeansFilesDropped` | lib/python/ihar/handoff/build.py:70-85 | The truncated flag is set exactly when files were dropped, the first cut to 50 included. |
| `HandoffBound.GivesUpOnlyAtTheEnd` | lib/python/ihar/handoff/build.py:86-87 | It raises only when nothing droppable is left and even that does not fit. |
| `Utf8Split.StartsAreBoundaries` | lib/python/ihar/handoff/carrier.py:12-13 | In valid UTF-8 every byte that does not continue a character is a boundary between two valid halves. |
| `Utf8Split.Split` | lib/python/ihar/handoff/carrier.py:10-14 | The loop cuts at the nearest start at or below the limit: of a text as many characters as fit are in the first half, the others in the second. |
| `Utf8Split.ValidIsText` | lib/python/ihar/handoff/carrier.py:10-14 | Valid bytes are the encoding of some characters, six bits to each continuation byte. |
| `Utf8Split.CutIsOfText` | lib/python/ihar/handoff/carrier.py:10-14 | The cut of an encoded text, in characters. |
| `Utf8Split.Remainder` | hooks/handoff-inject.py:40-44 | The hook's own loop gives exactly the second half of that cut. |
| `Utf8Split.CutIsGreatestBoundary` | lib/python/ihar/handoff/carrier.py:10-14 | Both halves of a valid text are valid and no later cut within the limit leaves a valid first half. |
| `Utf8Split.CutIsNear` | lib/python/ihar/handoff/carrier.py:10-14 | The cut is at most three bytes short of the limit or the end. |
| `SessionIndex.Fold` | lib/python/ihar/sessions/index.py:35-52 | Folds the log line by line, skipping lines that are no valid rows. |
| `SessionIndex.FoldGivesLastValues` | lib/python/ihar/sessions/index.py:35-52 | Each field of each session is its last non-null value in the valid rows, null if only null was given, absent if never mentioned. |
| `SessionIndex.FoldShowsLast` | lib/python/ihar/sessions/index.py:35-52 | A session shows what the last valid row with a value says. |
| `SessionContract.MeetsIff` | lib/python/ihar/jsonio.py:600-622 | A row meets the contract exactly when it has no other fields than these seventeen, each as it must be, the four required ones, and does not name itself as its parent. |
| `SessionContract.IdsMean` | lib/python/ihar/jsonio.py:603-616 | Ids are spelled as groups of 8, 4, 4, 4 and 12 lower-case hexadecimal digits; another session's may be null. |
| `SessionContract.TextsMean` | lib/python/ihar/jsonio.py:605-613 | Which texts may be null, which may not be empty, and how times are spelled. |
| `SessionIndex.Refresh` | lib/python/ihar/sessions/index.py:85-87 | Refreshes exactly the six listed fields for which the vendor has a value, and never a key. |
| `SessionIndex.Index.Append` | lib/python/ihar/sessions/index.py:26-32 | Appends exactly the rows that meet the contract. |
| `SessionIndex.Index.Merge` | lib/python/ihar/sessions/index.py:73-88 | Appends exactly the vendor rows whose vendor and id neither a session nor an earlier row has, in order and each under its discovered id, up to the first row that names no session or does not meet the contract; in memory, for title, update, model, branch, directory and project, the latest vendor values show and other sessions are as folded; lists every session but the ephemeral ones once, newest first. |
| `SessionIndex.List` | lib/python/ihar/sessions/index.py:89-90 | Every session but the ephemeral ones, each once, in descending order of their last update. |
| `SessionIndex.DiscoveryAddsKey` | lib/python/ihar/sessions/index.py:79-84 | Appending a discovered row adds its key to the folded log and keeps every other session and the rule that an id given to a key carries that key. |
| `SessionIndex.MergeAddsKeys` | lib/python/ihar/sessions/index.py:73-88 | Merging keeps that rule, and afterwards every vendor row's key is there. |
| `SessionIndex.SecondMergeAppendsNothingIff` | lib/python/ihar/sessions/index.py:73-88 | Merging the same rows again appends nothing if and only if each of their keys that was there before is also held by a session under an id that no newly discovered key is given. |
| `SessionIndex.SecondMergeAppendsNothing` | lib/python/ihar/sessions/index.py:73-88 | It appends nothing when every session filed under the id of some key has that key. |
| `SessionIndex.WithoutTheRuleMergingRepeats` | lib/python/ihar/sessions/index.py:73-88 | It does append where the only session with one row's key is filed under the id given to another row's new key. |
| `ClaudeCompare.SameValueIff` | lib/python/ihar/render/claude_compare.py:45-56 | The recursive comparison is equality of JSON values, types included and at every depth, exactly where no NaN occurs; with one in it nothing is the same. |
| `ClaudeCompare.FirstDifference` | lib/python/ihar/render/claude_compare.py:30-42 | None exactly when the two objects are equal and without NaN; else the printed form of the first path at which they differ, in sorted-key order. |
| `ClaudeCompare.PrintedIsDotted` | lib/python/ihar/render/claude_compare.py:30-42 | A path is printed as its keys with dots between them. |
| `ClaudeCompare.CompareObjects` | lib/python/ihar/render/claude_compare.py:18-27 | None exactly when, key by key, the desired settings are the active ones less a theme and a tui given as texts, and hold no NaN; else the first difference, or $ if either is no object. |

## Left out

- Supervision.Attachment.Refresh: one attachment at a time, and the set of known owner identities is a parameter; that no process of the client is in it or in the baseline is assumed where runs are considered.
- Supervision.Attachment.Poll: signals and reaping are outcomes passed in; the cleanup of a client's private directory is one success flag, and the record blocked after it failed is `GuestHandoff.Guardian.Block`.
- Admission.OneTreeAtATime: guardians of schema two only; what a lease holder of the older schema leaves behind is `LeaseRuns.CanLeaveBehindIff`.
- ReleaseRuns.CanBeReleasedIff: the runs it speaks of allow every permitted request, whoever sends it; recorded processes are in groups of their own, apart from the guardian's, and the guest's from the child's; that the guardian and its child stay alive until the last step is part of the continuation; nobody clears the guard's markers or edits the record by hand.
- Joined clients follow the same algorithm as attachments on their own table and are not modelled again.
- Process snapshots are atomic and show every process; the original reads one process after another and skips those of other users.
- Start times are fresh, strictly increasing tokens, so a pid with the same start time is the same process.
- Forking is limited to admitted guardians and everything that is no guardian: the gate that holds a child back until its record is written is modelled by that restriction, not by its pipe.
- File identities are one token for each write, and digests are compared as the bytes they stand for; mode, owner and link-count checks on files and directories are not modelled.
- The record's 8192-byte read limit against its unbounded write, and JSON text in general.
- Remote members of the children list (their descendants and private state) and the control socket's identity in the owner record.
- GuestHandoff.Guardian.Refresh: uses the outcomes `Publication.Publish` allows; a digest that differs after a successful publication counts as a failure.
- GuestHandoff.Guardian.Handle: that a client has joined is a parameter, one process table serves all checks of a request, and the requests of external callers are modelled by what they do to the record.
- GuestHandoff.Guardian.Change: the sender is checked before it, in `GuestHandoff.Guardian.MayAsk`; the daemon's socket file and the shape of a message are not modelled.
- Extraction of the guest's file from its disk image, terminal approval and daemon calls are foreign calls.
- The daemon start and stop protocols: only what they do to the record.
- Migration.Upgrade: the owner's runtime alone; the others, and which may be the owner, are `RuntimeViews.UpgradeProject`, where the proof that nobody uses a runtime is a parameter.
- Migration.Machine.CopyCanonical: copying a directory is one operation that fails leaving anything in the stage; its recursion, modes and times are not modelled, and nobody else writes during the transaction, save that both kinds of copy may bring anything; one with something in the way of an entry fails.
- Interruption by signals and exceptions other than those the original catches; the renames of the migration survive a crash in order.
- Migration on macOS differs only in the system call that swaps two directories.
- The HTTP upgrade, reserved bits and fragmented control frames; message texts are handed on as bytes, JSON decoding is not modelled.
- AppServerClient.DaemonClient.ReceiveUpTo: what a message is to the request, and the text of a decline, are a function of its bytes.
- TabProtocol.FromTab: the text made of an exit code, or that there is none, is a parameter.
- TabProtocol.PassWhole: payloads of 2^64 bytes and more, which no tab frame can announce, are passed on as nothing.
- HandoffBound.Package.Bound: the encoded lengths are two arbitrary functions of the package, the first of them not counting the size field; masking and rendering are not modelled.
- SessionIndex.Index.Merge: its guarantee about what shows in memory needs an injective naming and a log whose discovered ids carry their own key; the order among sessions last updated at the same time is left open.
- SessionIndex.Fold: digits of other scripts, which the patterns for times allow, do not count as digits here.
