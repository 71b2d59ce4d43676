# Verified models of agent-fitness-functions

This project models the parts of agent-fitness-functions whose correctness is hardest to see from the code, and
proves what they promise, in Dafny 4.11. Verify it with `dafny verify dfyconfig.toml`.

## What is modelled

**Certificate publication** (`certificate_disk.dfy`, `publication_plan.dfy`, `publication.dfy`,
`certificate_lifecycle.dfy`). The managed root is a record of everything the protocol looks at: `current` and its
temps, candidates, versions with their files, claimed deletions, the journal and its temps, and the direct files.
`Publication.Root` is a process at work on such a root. Each durable change is one step, and the process dies when
its budget of steps runs out, so a budget is a crash point. `PublicationPlan.DiskAt` says, for each phase of a
publication, exactly what is on disk there; the methods are proved to be on the disk of some phase wherever they stop.
From that come the three fates of a cut-off publication (rolled back, refused with nothing touched, carried forward),
recovery that may crash in its turn, safety of `current` over every sequence of runs, and the exact condition under
which a run can complete.

**The certificate lock** (`certificate_lock.dfy`). A state machine over the steps of any number of processes: making
the lock, publishing the owner, scanning artifacts, releasing, reading a dead owner and reaping, restarting and dying.

**The import resolver** (`import_resolver.dfy`). Module-level imports, assignments, augmented assignments, deletions,
loads and nested branches. A path is a straight line of loads and bindings; the walk that joins branches is proved
exact against the paths.

**The history receiver and its frames** (`history_receiver.dfy`, `history_frame.dfy`). A state machine over the
accept loop, the connection handlers, the writer and shutdown, with 64-bit wrap-around written out; and the frame
codec with a writer that reports any partial counts.

**History pages and the rate limiter** (`history_pages.dfy`, `rate_limit.dfy`). Paging while events are inserted, and
what one caller can get through in any stretch of time.

**Globs** (`glob.dfy`). The text a glob is compiled to, parsed back and compared with what the glob means.

**Patches** (`patch_text.dfy`, `patch_parser.dfy`, `patch_grammar.dfy`, `patch_splice.dfy`, `patch_files.dfy`). The
parser against a grammar of patch texts and a printer, the search for the place of a chunk against first matches, the
splice against a substitution, the virtual files against a plain copy.

## How the source is read

- Writing and syncing one file is one durable step; a crash may fall between any two steps.
- The design record (docs/adr/0002-rename-stack-fitness-functions-to-agent-fitness-functions.md, lines 189-209) lets
  partial and unknown roots rotate under force. The code does not always: a forced run on a partial root that has
  `current` records no predecessor and is then refused at the swap, and one beside an incomplete version is refused in
  retention. `ForceFailsOnMixedRoot` and `ForceFailsBesideIncomplete` give such roots, and `Publish` states exactly
  when a run succeeds, in terms of the root before it. A forced run that fails so leaves a root on which no
  later run, forced or not, is done.
- Claimed deletions and excess versions are taken in any order, which covers the name order of the source.
- The lock: a destination-checked rename, verify-and-remove, and the cleanup of one artifact are one step each; a live
  process is never reported dead; tokens are never drawn twice.
- Stopping the receiver may happen at any time, which covers shutdown requests, cancellation and the end of accepting.
- The comment on `globToRegexp` says that `**` matches any characters; the code writes a dot, which does not match a
  newline. The model follows the code, and `AgreeExactlyWithoutNewline` states the difference.
- The rate limiter promises at most the limit per window. Each window that it opens keeps that, if the limit is at
  least one. A stretch of one window's length that is not aligned with the windows need not: a caller can get up to one
  less than twice the limit, and `KeptExactly` states when the limit is kept all the same.
- Cancelling the service cancels its running connection handlers, so a control request may then go unanswered; the
  comment in `serve` on flushing answers is about the service's own call, and that is what `ResponsesAreFlushed` covers.
- When the lines of a patched file end in a blank line, an insertion goes before that line and one blank line is lost
  on writing; `ApartExactly`, `ContentExactly` and `InsertionIsLost` state this.

## Model

| member | source | states |
|---|---|---|
| `CertificateDisk.ClassifyVersionedRoot` | internal/devcerts/state.go:104-144 | reading the versions one by one and stopping early gives the class that a look at the whole `versions` directory gives: partial unless it holds one or two versions and nothing else, `current` names one of them and all are complete |
| `CertificateDisk.ClassifyRoot` | internal/devcerts/state.go:42-102 | counting the managed files and scanning the entries of the root, up to the first unexpected one, gives the class of the root as a whole |
| `CertificateDisk.CountManaged` | internal/devcerts/state.go:61-66 | the count is zero exactly when there are no direct files, and five exactly when the set is complete |
| `CertificateDisk.ClassMeans` | internal/devcerts/state.go:42-144 | exactly when a root is a published target, a recognised predecessor, an unpublished target set, empty, fresh or unsafe, from the files and their validity alone |
| `CertificateDisk.IdentityMeans` | internal/devcerts/state.go:208-249 | the identity of five files is the one they all carry with one material, and they are fresh exactly when now is in its validity |
| `Publication.Root.Commit` | internal/devcerts/lifecycle.go:12-22 | one durable step: it takes effect whole, or the process dies before it |
| `Publication.Root.ReplaceJournal` | internal/devcerts/transaction.go:119-147 | an invalid document is refused with nothing changed; otherwise the temp is written and renamed over the journal, and a crash leaves the old disk or the old journal with exactly the one temp |
| `Publication.Root.ReplaceCurrentSymlink` | internal/devcerts/transaction.go:185-215 | the swap is refused exactly when `current` is not the recorded predecessor or the link is not the new version; it is one step |
| `Publication.Root.PublishCurrent` | internal/devcerts/transaction.go:153-183 | a link temp is made and swapped in; a crash leaves the old `current`, with or without the temp |
| `Publication.Root.CleanupDirectRoot` | internal/devcerts/transaction.go:266-291 | files leave the direct root in managed order, each only when its digest is the recorded one; done means all five names are gone, refused means some file differs |
| `Publication.Root.RemoveDirect` | internal/devcerts/transaction.go:267-288 | one managed file leaves the direct root if it is there and its digest is the recorded one, in one step; otherwise nothing changes |
| `Publication.DeletionProgress` | internal/devcerts/transaction.go:409-433 | how many managed files a claimed version has lost: defined exactly when what is left is a tail of the managed order |
| `Publication.Root.ResumeClaimedVersionDeletion` | internal/devcerts/transaction.go:368-407 | from any partly deleted claimed version the rest of its files and then its directory go; refused exactly when what is left is no tail of the managed order; a crash leaves a longer-deleted tail |
| `Publication.Root.ResumeClaims` | internal/devcerts/transaction.go:307-318 | all deletions this transaction claimed are finished, nothing else changes, and a single claimed deletion loses exactly as many files as steps are spent |
| `Publication.Root.DeleteVersion` | internal/devcerts/transaction.go:323-348 | a version is claimed and deleted in seven steps, and is refused untouched exactly when it is not complete |
| `Publication.Root.DeleteExcess` | internal/devcerts/transaction.go:319-348 | versions that are not kept are claimed and deleted one after another; at a crash at most one is partly deleted, and refusal means an incomplete one |
| `Publication.Root.RetainRecordedVersions` | internal/devcerts/transaction.go:301-353 | claimed deletions are finished first, then every version but the new one and the recorded predecessor is deleted |
| `Publication.Root.RetainAndFinish` | internal/devcerts/transaction.go:229-251 | retention, a last look at the new version, and removal of the journal follow the plan from any retaining phase to its end |
| `Publication.Root.CleanDirectRoot` | internal/devcerts/transaction.go:218-228 | enters cleaning_direct_root when it has to and empties the direct root, from whatever part of it is gone, without ever being refused on a planned disk |
| `Publication.Root.StartRetaining` | internal/devcerts/transaction.go:229-251 | the retaining journal is put in place and the plan is followed to its end |
| `Publication.Root.FinishPublishedTransaction` | internal/devcerts/transaction.go:217-251 | from the published swap the plan is followed to its end, with or without direct files to clean |
| `Publication.Root.ReconcileJournalTemps` | internal/devcerts/transaction.go:720-781 | temps are accepted exactly when there is at most one, it is a valid document of its own transaction, and it is the journal again, the first journal of a matching candidate, or one legal stage on; the accepted one is promoted in one step |
| `Publication.Root.RemoveIncompleteCandidate` | internal/devcerts/transaction.go:511-529 | the owner temp, if any, and then the directory go, in two steps or one; a crash leaves a candidate that is still incomplete, nearer its removal by the steps spent |
| `Publication.Root.CleanupIncompleteCandidates` | internal/devcerts/transaction.go:496-532 | candidates without a published owner are removed, no other one is touched, and the steps spent are exactly those that removal needs less; it is refused only at one that has more than an owner temp |
| `Publication.Root.ResumeCandidate` | internal/devcerts/transaction.go:538-586 | recovery of candidate_ready: refused exactly on conflicting evidence, otherwise the owner goes and the candidate becomes the version, with what a crash leaves |
| `Publication.Root.ResumeVersion` | internal/devcerts/transaction.go:592-629 | recovery of version_ready: refused exactly on conflicting evidence, otherwise `current` names the version, through a link temp that is there or a new one |
| `Publication.Root.ResumePublished` | internal/devcerts/transaction.go:631-654 | recovery once `current` is published follows the plan to its end |
| `Publication.Root.ResumeFromVersion` | internal/devcerts/transaction.go:592-654 | recovery from version_ready follows the plan to its end |
| `Publication.Root.ResumeFromCandidate` | internal/devcerts/transaction.go:538-654 | recovery from candidate_ready follows the plan to its end |
| `Publication.Root.ResumeJournal` | internal/devcerts/transaction.go:534-658 | from every phase and the journal that belongs to it, recovery meets none of its conflict errors: it ends at the end of the plan, or at a crash further on, or is refused when the plan cannot complete |
| `Publication.Root.RecoverPublication` | internal/devcerts/transaction.go:435-447 | the three fates of a cut-off publication: rolled back to the disk it began with, refused with nothing touched, or carried forward; the first and the last in no more steps than are left, and a crash only when the steps given run out |
| `Publication.Root.ChooseId` | internal/devcerts/publish.go:762-797 | the first free one of at most sixteen drawn names, or none exactly when none is free |
| `Publication.Root.WriteFiles` | internal/devcerts/transaction.go:57-64 | five steps write the five files in order; a crash leaves exactly the files written so far |
| `Publication.Root.WriteCandidate` | internal/devcerts/transaction.go:21-64 | directory, owner temp, owner and files, with the disk at each crash point |
| `Publication.Root.RenameCandidate` | internal/devcerts/transaction.go:85-104 | the owner goes and the candidate becomes the version, with the disk at each crash point |
| `Publication.Root.JournalAndRename` | internal/devcerts/transaction.go:81-104 | the candidate_ready journal and the rename follow the plan |
| `Publication.Root.SwitchAndFinish` | internal/devcerts/transaction.go:109-116 | the swap of `current` and all after it follow the plan; refused only when the plan cannot complete |
| `Publication.Root.FinishVersion` | internal/devcerts/transaction.go:105-116 | from the renamed version the plan is followed to its end; refused only when the plan cannot complete |
| `Publication.Root.PublishTransaction` | internal/devcerts/transaction.go:20-117 | one publication is on the exact disk of a phase of its plan wherever it stops; done only at the end, refused only when it cannot complete or its files are no fresh target set, and then where recovery does not roll it back |
| `Publication.JournalSettles` | internal/devcerts/transaction.go:720-781 | every journal and journal temp a crash can leave is accepted, and the journal picked is the one that belongs to the disk |
| `Publication.TempSettles` | internal/devcerts/transaction.go:720-781 | promoting the temp of a phase gives the exact disk of the next phase, one step nearer the end |
| `Publication.NothingSettles` | internal/devcerts/transaction.go:720-781 | with no temp the journal is taken as it is, and none is there exactly before the first journal and after the last |
| `Publication.VersionResumes` | internal/devcerts/transaction.go:592-629 | at every version_ready phase recovery finds no conflict, and gives the disk of the swapped phase |
| `Publication.CandidateResumes` | internal/devcerts/transaction.go:538-590 | at every candidate_ready phase recovery finds no conflict, and gives the disk of the renamed phase |
| `Publication.CandidatesCleared` | internal/devcerts/transaction.go:496-532 | with no journal, a candidate without owner is undone, towards and in the end to the disk before it, and one with an owner is left as it is |
| `Publication.ResumedIsTarget` | internal/devcerts/transaction.go:538-629 | on every disk, tracked or not, what recovery takes up is a complete target set, and a lone journal temp is taken only as a first journal beside the candidate its owner published |
| `Publication.RetentionTracked` | internal/devcerts/transaction.go:301-353 | retention from any of its phases stays on the plan, and when done has only the journal left to remove |
| `CertificateLifecycle.Publish` | internal/devcerts/lifecycle.go:45-116 | a root that is a fresh target is left alone; done always means a fresh published target; a root that must be refused is refused unchanged; soundness survives any crash, and `current`, its files and the direct files are untouched or `current` names a target set, the old version or a new one; with enough steps a run on a clean root is done exactly when it can be, and otherwise refused, unchanged or for good; the same holds after a crash that recovery settles, and no run is done on a root that recovery never settles; from the files of a clean root alone: without force an unrecognised or incomplete set, published or direct, and `current` beside a direct file are refused unchanged, a valid publication is kept, a valid direct target set is published byte for byte, and anything else publishable gets a new set |
| `CertificateLifecycle.OutcomeMeans` | internal/devcerts/lifecycle.go:45-116 | when a run succeeds, when it must be refused and when there is nothing to do, from the files of a clean root one by one |
| `CertificateLifecycle.PublishedFiles` | internal/devcerts/lifecycle.go:98-116 | the files of a finished publication are those it was begun with: a valid direct target set as it was, or a new set |
| `CertificateLifecycle.PublishRecovered` | internal/devcerts/lifecycle.go:87-116 | the same from the point where recovery is done |
| `CertificateLifecycle.PublicationEnds` | internal/devcerts/lifecycle.go:98-116 | a publication begun from a classified root is done, given enough steps, exactly when the root can be published; otherwise it is refused and the root is one that no recovery settles |
| `CertificateLifecycle.NeedsNoForceSucceeds` | internal/devcerts/lifecycle.go:219-221 | a run from one of the four states that need no force can publish |
| `CertificateLifecycle.ForceFailsOnMixedRoot` | internal/devcerts/transaction.go:193-205 | a root with `current` and a direct file beside it: clean, safe and partial, a forced run need not refuse it, and cannot succeed |
| `CertificateLifecycle.ForceFailsBesideIncomplete` | internal/devcerts/transaction.go:328-334 | a root whose `current` names an unknown complete set beside an incomplete version: a forced run need not refuse it, and cannot succeed |
| `CertificateLifecycle.Recover` | internal/devcerts/transaction.go:435-447 | recovery leaves a sound root, with `current`, its files and the direct files untouched or `current` naming a target set; it is done only when the publication settles, and then, with enough steps, always, at the settled disk; otherwise the root stays one that no recovery settles |
| `CertificateLifecycle.RecoverySettles` | internal/devcerts/transaction.go:435-447 | recovery that is done has settled the publication, at the disk it began with or at its end; with enough steps it is done if the publication settles at all |
| `CertificateLifecycle.StaysSafe` | internal/devcerts/transaction.go:57-116 | in every phase `current` is what it was or the new version, whose five files are all there |
| `CertificateLifecycle.RunAttempts` | internal/devcerts/lifecycle.go:45-116 | over any sequence of runs, each cut off anywhere, `current` always names a complete version: the one it named, with the direct files all there, or a target set; on a root that no recovery settles none of the runs is done |
| `CertificateLifecycle.RecoverRepeatedly` | internal/devcerts/transaction.go:435-447 | recovery that is itself cut off again and again never loses ground; once the steps add up it is at the end of the plan, or back at the disk it began with; it never ends for a plan that cannot complete, and a candidate with owner and no journal is never touched |
| `CertificateLifecycle.FinishedIsFresh` | internal/devcerts/state.go:42-144 | the disk of a finished publication is classified as a published target, fresh as long as its files are |
| `CertificateLifecycle.FewSteps` | internal/devcerts/transaction.go:301-353 | a publication from a classified root is over, done or refused, in at most 64 steps |
| `CertificateLifecycle.PlanBegins` | internal/devcerts/lifecycle.go:85-112 | what classification hands to a publication makes a plan that can begin |
| `CertificateLifecycle.PublishTwice` | internal/devcerts/lifecycle.go:45-116 | a second run straight after a successful one succeeds and changes nothing |
| `CertificateLifecycle.DoneExactlyWhenPossible` | internal/devcerts/transaction.go:185-215 | given enough steps, a publication of fresh files is done if its plan can complete; otherwise it is refused where no recovery settles it |
| `CertificateLifecycle.CompletesExactly` | internal/devcerts/state.go:79-111 | a plan from a classified root that need not be refused can complete exactly when the root is not a partial one with `current` and every version but the current one is complete |
| `CertificateLifecycle.DirectNeverLost` | internal/devcerts/transaction.go:217-291 | until the swap the direct root is untouched; afterwards it only shrinks, ends empty, and the complete new version is there; a fresh direct set is there byte for byte throughout |
| `CertificateLifecycle.RetainedExactly` | internal/devcerts/transaction.go:301-353 | at the end there are exactly the new version and the predecessor if it was there, with their files unchanged |
| `CertificateDisk.StageFollows` | internal/devcerts/transaction.go:847-856 | a journal stage may follow another exactly when no stage is between them, or only a cleaning of the direct root that is not needed |
| `CertificateLifecycle.StageNeverReturns` | internal/devcerts/transaction.go:847-856 | the journal stage never goes back, and a temp is exactly one legal stage ahead |
| `CertificateLock.RunKeepsInv` | internal/devcerts/lock.go:48-117 | over every interleaving: tokens are known, and either one live process owns the lock or a mismatched artifact is there and at most one process is clear of it |
| `CertificateLock.AtMostOnePast` | internal/devcerts/lock.go:48-117 | over every interleaving of publishers, waiters and crashes, at most one live process is past the artifact scan and not released |
| `CertificateLock.MismatchStopsLater` | internal/devcerts/transaction.go:449-494 | a mismatched artifact stays for ever, and no process that was not clear of it when it came gets past the scan |
| `CertificateLock.StaleReapLeavesMismatch` | internal/devcerts/lock.go:85-117 | a waiter that moves away a lock other than the one it read leaves a mismatched artifact, whether the maker of the lock lives or not |
| `CertificateLock.LiveLockIsOther` | internal/devcerts/lock.go:85-117 | while nothing is mismatched, the lock of a live process is never the one a waiter has read |
| `CertificateLock.TwoCanHold` | internal/devcerts/lock.go:85-117 | holding the lock is not exclusive by itself: a run in which two live processes hold it, with a mismatched artifact |
| `CertificateLock.PastUntilReleased` | internal/devcerts/publish.go:245-285 | a process past the scan stays so until it dies, has moved its lock away, or finds that the lock is not its own or its release artifact is there |
| `CertificateLock.PublishAlone` | internal/devcerts/lock.go:48-83 | from every state without a lock and with clean artifacts an undisturbed process gets past the scan, having removed every artifact, and releases the lock without a trace |
| `CertificateLock.ReapAlone` | internal/devcerts/lock.go:85-117 | a waiter reaps the lock of a dead owner, and nothing else |
| `CertificateLock.MismatchStays` | internal/devcerts/transaction.go:449-494 | no step cleans up a mismatched artifact |
| `ImportResolver.WalkCovers` | internal/analyzer/python.go:1049-1139 | whatever a path binds a name to is among the bindings the walk allows for it |
| `ImportResolver.WalkReached` | internal/analyzer/python.go:883-888 | whatever binding the walk allows for a name, some path binds the name to it: joining branches adds nothing |
| `ImportResolver.WalkMarks` | internal/analyzer/python.go:934-937 | an import that some path uses is marked |
| `ImportResolver.WalkUsed` | internal/analyzer/python.go:934-937 | an import that the walk marks is used on some path |
| `ImportResolver.UsedExactly` | internal/analyzer/python.go:891-1139 | an import is marked exactly when it was before or some path loads its name while it is the latest binding |
| `ImportResolver.Resolver.Load` | internal/analyzer/python.go:915-937 | marks the imports among the bindings the name may have |
| `ImportResolver.Resolver.Write` | internal/analyzer/python.go:939-942 | the name may have exactly the written value; no mark changes |
| `ImportResolver.Resolver.Expr` | internal/analyzer/python.go:965-998 | every name the expression loads is loaded |
| `ImportResolver.Resolver.WriteTargets` | internal/analyzer/python.go:1026-1037 | targets are written or their expressions loaded, in order |
| `ImportResolver.Resolver.Remove` | internal/analyzer/python.go:1127-1128 | the names of a deleted target are removed, in order |
| `ImportResolver.Resolver.DeleteTargets` | internal/analyzer/python.go:1124-1129 | of each deleted target every part is loaded before any of its names is removed |
| `ImportResolver.Resolver.WriteImports` | internal/analyzer/python.go:1057-1066 | every alias is bound to its own record, in order |
| `ImportResolver.Resolver.Augment` | internal/analyzer/python.go:1114-1123 | the target is loaded, then the value, then the target is written |
| `ImportResolver.Resolver.Statement` | internal/analyzer/python.go:1056-1139 | one statement is walked; both arms of a branch start from one state, and their results are joined |
| `ImportResolver.AssignMeans` | internal/analyzer/python.go:1099-1105 | an assignment uses whatever the names of its value may be bound to before it binds anything, and binds exactly its variable targets |
| `ImportResolver.AugAssignMeans` | internal/analyzer/python.go:1114-1123 | an augmented assignment also uses what its target may be bound to, before it binds it |
| `ImportResolver.DeleteMeans` | internal/analyzer/python.go:1124-1129 | of each deleted target all names are used before any is removed, targets from left to right |
| `ImportResolver.ImportMeans` | internal/analyzer/python.go:1057-1066 | each imported name is bound to the record of its last alias, and nothing is used |
| `ImportResolver.EvaluateMeans` | internal/analyzer/python.go:965-998 | an expression uses exactly what its names may be bound to, and binds nothing |
| `ImportResolver.IfMeans` | internal/analyzer/python.go:1130-1139 | a branch uses its test; a name may have what either arm gives it, and what either arm uses is used |
| `ImportResolver.CollectedExactly` | internal/analyzer/python.go:749-774 | exactly the aliases of imports at any depth, in either arm of a branch, are collected |
| `ImportResolver.CollectedInOrder` | internal/analyzer/python.go:749-774 | they are collected in the order in which they are written |
| `ImportResolver.UnusedExactly` | internal/analyzer/python.go:1286-1296 | a name is listed as unused exactly when an import that has it is neither re-exported nor used on any path, one entry for each such import |
| `ImportResolver.Resolver.StatementList` | internal/analyzer/python.go:1049-1054 | a list is walked statement by statement |
| `ImportResolver.Resolver.MarkReexports` | internal/analyzer/python.go:749-774 | exactly the imports bound under their own name by `as` are marked beforehand |
| `ImportResolver.ImportMetric` | internal/analyzer/python.go:1286-1296 | the unused list is, in source order, exactly the imports neither re-exported nor used on any path, with the counts and the ratio |
| `HistoryReceiver.StepKeeps` | internal/historyipc/receive.go:97-268 | every step of every thread keeps the counts, the ownership of reservations and the order of shutdown |
| `HistoryReceiver.Conserved` | internal/historyipc/receive.go:97-268 | in every state of every run slots in use are those of admitted connections, reserved bytes are those of unreleased reservations, neither passes its limit, and each reservation is released at most once and is in one place |
| `HistoryReceiver.ReturnsClean` | internal/historyservice/service.go:88-107 | when serve returns no slot is held, no byte is reserved, the queue is empty and every reservation was released exactly once |
| `HistoryReceiver.ShutdownIsOrdered` | internal/historyservice/service.go:88-107 | in every state of every run: handlers are joined after admission has stopped and the listener is closed; writes are cancelled exactly after all handlers have finished and the receivers are cancelled; draining starts after the writer has exited, and the queue is empty when serve returns |
| `HistoryReceiver.CutOffExactly` | internal/historyipc/receive.go:129-153 | a handler is cut off exactly while it reads or answers once its context is done, and what it reserved is released |
| `HistoryReceiver.ResponsesAreFlushed` | internal/historyservice/service.go:88-104 | unless the service itself is cancelled, the context of the handlers ends only after every handler has finished, and no handler is ever cut off |
| `HistoryReceiver.CancellationCutsOff` | internal/historyservice/service.go:89-90 | a run in which a handler has read a control request and is then cut off, unanswered, by cancelling the service |
| `HistoryReceiver.ShutdownIsBounded` | internal/historyservice/service.go:88-162 | once serve shuts down every step of anyone leaves less to do, so every run is bounded |
| `HistoryReceiver.ShutdownNeverSticks` | internal/historyservice/service.go:88-162 | until serve has returned some thread can take a step |
| `HistoryReceiver.HandlerKeeps` | internal/historyipc/receive.go:129-201 | the steps of one connection handler keep the invariant |
| `HistoryReceiver.AcceptKeeps` | internal/historyipc/receive.go:97-111 | the two looks at `stopped` around taking a slot keep the invariant |
| `HistoryReceiver.WriterKeeps` | internal/historyservice/service.go:137-151 | taking, inserting and releasing a delivery keep the invariant |
| `HistoryReceiver.ShutdownKeeps` | internal/historyservice/service.go:98-106 | joining, cancelling and draining keep the invariant |
| `HistoryReceiver.DispatchExactly` | internal/historyipc/receive.go:176-201 | a decoded validation is handed over when the queue has room; every other decoded message is dropped and its bytes released |
| `HistoryReceiver.ReserveExactly` | internal/historyipc/receive.go:240-249 | a reservation is made exactly when the declared bytes fit beside those reserved |
| `HistoryReceiver.OnlyValidationsAreHanded` | internal/historyipc/receive.go:176-201 | over every run only a connection that has read a validation is ever handed to the writer |
| `HistoryReceiver.EveryDeliveryIsInserted` | internal/historyservice/service.go:137-151 | over every run a delivery that was handed over and released was inserted exactly once, unless writes were over, and only validations are inserted |
| `HistoryReceiver.FirstInFirstOut` | internal/historyipc/receive.go:192-201 | over every run deliveries are taken in the order in which they were handed over, none lost and none taken twice |
| `HistoryReceiver.StoppedAdmitsNone` | internal/historyipc/receive.go:97-117 | once stopped, no connection is admitted but one that had passed the second look |
| `HistoryReceiver.ValidationIsStored` | internal/historyipc/receive.go:129-201 | for all limits with room for it there is a run that stores a validation once and releases it, leaving nothing held |
| `HistoryFrame.EncodeEnvelope` | internal/historyipc/protocol.go:125-132 | fills a buffer with magic, big-endian length and payload; an oversized payload is an error |
| `HistoryFrame.WriteImmediate` | internal/historyipc/publish_unix.go:96-108 | over any reports of partial writes: it succeeds exactly when no report fails and each makes progress until the bytes run out; then exactly the given bytes were written, and otherwise a prefix of them was |
| `HistoryFrame.AcceptedExactly` | internal/historyipc/publish_unix.go:96-108 | the reports a write succeeds on are those whose first ones, none failed and each with progress, add up to exactly the length |
| `HistoryFrame.Reader.ReadHeader` | internal/historyipc/protocol.go:150-163 | a length comes back exactly for eight bytes with the magic and a length in 1..16 MiB |
| `HistoryFrame.Reader.RequireEOF` | internal/historyipc/protocol.go:165-175 | passes exactly at a clean end of the stream |
| `HistoryFrame.Reader.ReadPayload` | internal/historyipc/protocol.go:135-148 | a payload comes back exactly when the stream is the frame of that payload and ends cleanly |
| `HistoryFrame.FramesArePrefixFree` | internal/historyipc/protocol.go:120-163 | a frame has one payload, and no frame is a strict prefix of another |
| `HistoryFrame.OnlyWholeFrames` | internal/historyipc/protocol.go:135-175 | every strict prefix and every strict extension of a frame is rejected |
| `HistoryFrame.Send` | internal/historyipc/publish_unix.go:76-108 | the payload is sent exactly when it is not too large and the reports are accepted; then the reader gets exactly that payload, and it never gets another one |
| `HistoryFrame.Uint32RoundTrip` | internal/historyipc/protocol.go:158-158 | decoding four bytes and encoding the number gives the bytes back |
| `HistoryFrame.BigEndianRoundTrip` | internal/historyipc/protocol.go:130-130 | encoding a 32-bit number and decoding the bytes gives the number back |
| `HistoryPages.SelectedExactly` | internal/history/reader.go:172-196 | the rows of a query are those that match it, each once, newest first |
| `HistoryPages.AddFilter` | internal/history/reader.go:178-183 | a filter is added exactly when its value is not empty |
| `HistoryPages.ListStatement` | internal/history/reader.go:172-196 | the conditions of the statement hold of exactly the rows the query asks for |
| `HistoryPages.Store.Insert` | internal/history/store.go:260-272 | a stored event is ignored; a new one gets a larger sequence number; sequence numbers stay positive, unique and growing |
| `HistoryPages.Store.Run` | internal/history/reader.go:149-170 | the newest matching rows, as many as the statement allows |
| `HistoryPages.Store.List` | internal/history/reader.go:46-72 | a page is the newest matching rows up to the limit; there is a cursor exactly when more rows are left, it is positive and below the one asked with, and what is below it is exactly what is left; a limit of 1 to 1000 is that many rows, 0 is 50, any other is an error |
| `HistoryPages.BelowCursor` | internal/history/reader.go:198-207 | asking below the last row of a page gives the rows after it |
| `HistoryPages.ReadAll` | internal/history/reader.go:172-207 | following the cursor to its end visits exactly the rows that matched at the first read, once each and newest first, whatever is inserted between pages; it fails exactly for a limit outside 0 to 1000 |
| `RateLimit.FixedWindowRateLimiter.Allow` | internal/server/ratelimit.go:38-52 | a request is decided from its caller's window, and only that window changes |
| `RateLimit.AtMostTwoWindows` | internal/server/ratelimit.go:38-52 | in any half-open stretch one window long a caller gets at most one request less than twice the limit (a limit below one counts as one) |
| `RateLimit.BoundIsReached` | internal/server/ratelimit.go:38-52 | the bound is reached for every limit and every window of two ticks or more |
| `RateLimit.KeptExactly` | internal/server/ratelimit.go:27-52 | the promise of at most the limit in any stretch one window long holds exactly when the limit is one, or is more and a window is one tick |
| `RateLimit.KeptWithoutLength` | internal/server/ratelimit.go:27-52 | for a window without length it holds exactly when the limit is not negative |
| `RateLimit.KeptPerWindowExactly` | internal/server/ratelimit.go:27-52 | every window that the limiter opens lets at most the limit through, for all traces, exactly when the limit is at least one |
| `RateLimit.CountsAreAnswers` | internal/server/ratelimit.go:38-52 | the windows account for every request let through |
| `RateLimit.AnswersExactly` | internal/server/ratelimit.go:38-52 | a request is let through exactly when it opens a window or is among the first ones of its window, as many as the limit; windows open with the first request a window length after the last opening |
| `RateLimit.RefusedChangesNothing` | internal/server/ratelimit.go:43-48 | a refused request changes no later answer |
| `RateLimit.Serve` | internal/server/ratelimit.go:38-52 | over every trace each caller gets the answers it would get alone |
| `RateLimit.ServeWithinBound` | internal/server/ratelimit.go:38-52 | over every trace with a clock that does not go back the bound holds for every caller and every stretch |
| `Glob.ParseEmitted` | internal/govconfig/settings.go:220-241 | the text written for a glob parses back to its atoms; the reader refuses every operator that is not escaped |
| `Glob.CompiledAsMeant` | internal/govconfig/settings.go:216-241 | on a path without a newline the compiled expression accepts exactly what the glob means, runs of any number of stars included |
| `Glob.AgreeExactlyWithoutNewline` | internal/govconfig/settings.go:216-241 | compiled globs and their documented meaning agree on a path for all globs exactly when the path has no newline |
| `Glob.GlobToRegexp` | internal/govconfig/settings.go:220-241 | every glob compiles, to an expression that accepts a newline-free path exactly when the glob matches |
| `Glob.CompileLayerRule` | internal/govconfig/settings.go:183-214 | refused exactly without a name, a path or a forbidden pattern, or when a forbidden pattern does not compile; otherwise one expression per glob |
| `Glob.MatchesPath` | internal/govconfig/settings.go:102-110 | true exactly when some glob of the layer accepts the path with its backslashes turned into slashes |
| `Glob.BackslashMatchesNothing` | internal/govconfig/settings.go:102-110 | a glob with a backslash matches no path that has none, so it never matches in a layer |
| `PatchSplice.ScanFinds` | hooks/apply-patch-proposals.py:366-371 | what is found is the first match from the start on, and something is found exactly when there is a match |
| `PatchSplice.SeekWith` | hooks/apply-patch-proposals.py:359-363 | the first place under the strictest comparison that finds any |
| `PatchSplice.Seek` | hooks/apply-patch-proposals.py:353-363 | an empty pattern is found at the start; without an end-of-file mark nothing is found before the start |
| `PatchSplice.SeekMeans` | hooks/apply-patch-proposals.py:353-371 | lines are found at the first match under the strictest comparison that has any; with an end-of-file mark only at the end; nothing is found exactly when nothing matches |
| `PatchSplice.PlaceExactly` | hooks/apply-patch-proposals.py:320-343 | where a chunk goes, from matches alone: strictly after its context, at the first match of its old lines, without their last blank line if only that is found, and insertions at the end |
| `PatchSplice.PlacesExactly` | hooks/apply-patch-proposals.py:306-317 | the places of a list of chunks are exactly those where they go one after another; it fails exactly when one goes nowhere |
| `PatchSplice.ComparisonsMean` | hooks/apply-patch-proposals.py:346-350 | the second comparison disregards exactly spaces at line ends, the third those around lines |
| `PatchSplice.LooserAccepts` | hooks/apply-patch-proposals.py:346-350 | a looser comparison accepts whatever a stricter one does |
| `PatchSplice.SortedIsStable` | hooks/apply-patch-proposals.py:298-298 | the sort is by start, and stable |
| `PatchSplice.SplitAtNewlines` | hooks/apply-patch-proposals.py:294-297 | no line of a split content has a newline in it |
| `PatchSplice.Replacements` | hooks/apply-patch-proposals.py:306-317 | the loop over chunks finds every place, or fails at the first chunk that has none |
| `PatchSplice.PlacesApart` | hooks/apply-patch-proposals.py:306-343 | without end-of-file marks and with text on the last line all places are in the file and apart from each other |
| `PatchSplice.ApartExactly` | hooks/apply-patch-proposals.py:306-343 | that holds for all chunk lists without end-of-file marks exactly when the last line is not blank |
| `PatchSplice.SortedChain` | hooks/apply-patch-proposals.py:298-298 | places that are apart form, once sorted, a chain in which each starts at or after the end of the one before |
| `PatchSplice.SortedMembers` | hooks/apply-patch-proposals.py:298-298 | sorting loses and adds nothing |
| `PatchSplice.SpliceIsSubstitution` | hooks/apply-patch-proposals.py:299-300 | splicing a chain from last to first is one substitution from left to right that keeps every other line |
| `PatchSplice.Derive` | hooks/apply-patch-proposals.py:294-303 | the in-place splice of the sorted places from last to first, with the error when a chunk has no place |
| `PatchSplice.DerivedIsSubstitution` | hooks/apply-patch-proposals.py:294-303 | without end-of-file marks and with text on the last line the new content is that of substituting all chunks at once |
| `PatchSplice.ContentExactly` | hooks/apply-patch-proposals.py:301-303 | the written content has all lines exactly when the last one is not blank; a blank last line is lost |
| `PatchSplice.JoinSplit` | hooks/apply-patch-proposals.py:294-303 | splitting and joining give the content back |
| `PatchSplice.InsertionIsLost` | hooks/apply-patch-proposals.py:294-321 | with a blank last line, an insertion after a change of that line is lost |
| `PatchParser.AcceptedIsFilled` | hooks/apply-patch-proposals.py:140-151 | in every accepted patch each update has a chunk and each chunk has a line |
| `PatchParser.Parser.Start` | hooks/apply-patch-proposals.py:135-138 | a hunk is added, and the mode is its kind, unless the last update is empty |
| `PatchParser.Parser.TakeHeader` | hooks/apply-patch-proposals.py:124-133 | a header line begins a hunk; the end line fails; an environment line is skipped before the first hunk; other lines pass |
| `PatchParser.Parser.Handle` | hooks/apply-patch-proposals.py:153-216 | one line in the mode of the last hunk |
| `PatchParser.Parser.Parse` | hooks/apply-patch-proposals.py:117-122 | all lines in turn, then the check of the last hunk |
| `PatchGrammar.TreeParses` | hooks/apply-patch-proposals.py:110-216 | the lines of every patch tree are accepted and give what the tree means: the old lines of a chunk are the texts of its blank, kept and removed lines in order, the new ones those of its blank, kept and inserted lines, however they are interleaved |
| `PatchGrammar.ParsedIsTree` | hooks/apply-patch-proposals.py:110-216 | every accepted patch is the lines of a patch tree, and its hunks are those that the tree means |
| `PatchGrammar.AcceptedExactly` | hooks/apply-patch-proposals.py:110-216 | the accepted patches are exactly the lines of patch trees: environment lines, then sections with a header each, updates with an optional move and chunks under markers, of which only the first may lack one, blank lines only below an end-of-file mark |
| `PatchGrammar.PieceReads` | hooks/apply-patch-proposals.py:187-216 | the lines of one chunk, marker, edits in any order and end-of-file mark with blank lines, are read as that chunk |
| `PatchGrammar.UpdateSectionReads` | hooks/apply-patch-proposals.py:168-216 | the lines of an update are read as that update |
| `PatchGrammar.AddedRead` | hooks/apply-patch-proposals.py:157-162 | the lines of an added file are read as its contents |
| `PatchGrammar.ParsePrinted` | hooks/apply-patch-proposals.py:110-216 | printing well-formed hunks and parsing the lines gives the same hunks, over adds, deletes, updates, moves, contexts and end-of-file marks |
| `PatchGrammar.AcceptedIsWellFormed` | hooks/apply-patch-proposals.py:110-216 | every accepted patch gives well-formed hunks: paths, moves and contexts are not empty and have no space at the end |
| `PatchGrammar.ReparsedIsSame` | hooks/apply-patch-proposals.py:110-216 | printing what was parsed and parsing it again gives the same hunks |
| `PatchGrammar.ParsedExactly` | hooks/apply-patch-proposals.py:110-216 | the hunks that some patch gives are exactly the well-formed ones |
| `PatchFiles.Files.Set` | hooks/apply-patch-proposals.py:254-257 | the overlay shows the content, or nothing, at the path; a written path is listed once, where it was first written |
| `PatchFiles.Files.Exists` | hooks/apply-patch-proposals.py:259-262 | whether the overlay shows a regular file |
| `PatchFiles.Files.Read` | hooks/apply-patch-proposals.py:264-268 | the text the overlay shows; an error when there is none or it cannot be read |
| `PatchFiles.Files.ApplyUpdate` | hooks/apply-patch-proposals.py:284-288 | an update, with or without a move, changes what is shown as it changes a plain copy |
| `PatchFiles.Files.Apply` | hooks/apply-patch-proposals.py:274-291 | every hunk changes what the overlay shows as it changes a plain copy, and fails when that fails |
| `PatchFiles.Files.Survivors` | hooks/apply-patch-proposals.py:270-271 | the listed paths that are still there, in order |
| `PatchFiles.Run` | hooks/apply-patch-proposals.py:387-396 | running hunks over the overlay gives what changing a plain copy gives: the same failure, or the written files still there, once each, in the order they were first written |
| `PatchFiles.ChangedMeans` | hooks/apply-patch-proposals.py:274-288 | path by path: an added file holds its contents, a deleted one is gone, an updated one holds what its chunks make of it, a moved one holds that at the new path and is gone from the old one, and every other path is as it was |
| `PatchFiles.FailsExactly` | hooks/apply-patch-proposals.py:278-288 | an add never fails, a delete fails without a regular file, an update fails without text that its chunks fit |
| `PatchFiles.SurvivesExactly` | hooks/apply-patch-proposals.py:270-271 | a path is proposed exactly when the last hunk that touches it writes it; a file that was moved away is not |
| `PatchFiles.PresentInOrder` | hooks/apply-patch-proposals.py:270-271 | the survivors are in the order of the listed paths |
| `PatchFiles.PresentExactly` | hooks/apply-patch-proposals.py:270-271 | a file survives exactly when it is listed and there at the end |
| `PatchFiles.WrittenExactly` | hooks/apply-patch-proposals.py:254-257 | a path is listed exactly when some hunk writes it |
| `PatchFiles.WrittenOnce` | hooks/apply-patch-proposals.py:254-257 | each path is listed once, and a listed path keeps its place |

## Left out

- X.509 profiles, keys, PEM and SHA-256: material is an opaque identity with a validity, and a digest is the content.
- File modes, inode pinning and re-observation before acting: each is part of the step it guards.
- Foreign entries inside `versions`, names of temps, and a missing `versions` directory (taken as an empty one).
- JSON encoding of journals, owners and envelopes: documents are values and payloads are bytes.
- Liveness of the certificate lock: waiting, deadlines and a lock whose maker dies before it is owned.
- The certificate lock inside the publication model: publication runs as the one process that the lock lets through.
- The clock inside one certificate run: it is read once.
- Import resolution through loops, try, match, classes, comprehensions, lambdas and function bodies, which the resolver approximates.
- The order in which an expression loads names, and names bound inside expressions.
- Deadlines, sockets and message decoding of the receiver: a read may fail or succeed at any time, with any kind of message.
- SQLite, scanning of stored rows and reading of a missing database: the table is a list of rows.
- Limits of 64-bit sequence numbers and of clock arithmetic.
- Publication.Root.ChooseId: does not test for a `current` link temp of the same name, because the names of temps are not modelled.
- Regular expressions other than the forms a glob is compiled to; whether a forbidden pattern of a layer compiles is a parameter.
- The begin and end lines, here-document wrapping and carriage returns around a patch body.
- Resolving patch paths against the repository, and writing the result files.
- Patch chunks with end-of-file marks in the claim that places are apart: they search from the end of the file.
- The analyzers, the server, the client, installers, hooks and reports.
