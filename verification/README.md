# OpenMindAI verification models

Dafny models of the parts of OpenMindAI that must not go wrong quietly, with the properties they
keep. `dafny verify dfyconfig.toml` checks everything.

| modules | what they model |
|---|---|
| `WorkspaceDisk`, `PatchPlan`, `PatchJournal`, `PatchProgress`, `PatchApply`, `PatchTransaction`, `PatchRecovery`, `PatchHistory`, `PatchClash`, `PatchFaults` | the crash-safe multi-file patch transaction |
| `Utf8`, `TokenStream` | the streaming UTF-8 sink between the inference engine and its consumer |
| `LspPool`, `LspPoolRuns` | the shared pool of language-server sessions |
| `LspText`, `LspDocuments` | the mirror of open documents on a language server |
| `LspFraming`, `LspSanitizers` | message framing, and the budgets of the result sanitizers |
| `JsonScanner` | finding the JSON object in a model's answer |
| `AgentStartup`, `AgentStartupRuns` | the single-flight startup of the coding model |
| `InferenceContext` | admission, reuse and filling of the native inference context |
| `RunLineage`, `ApprovalLedger`, `ApprovalDatabase` | exact approvals of tool actions |
| `RunawayAnswers` | recognising runaway answers |
| `RepoContext` | parallel, bounded repository context |

Code that changes state step by step is modelled by classes and loops, proved against functions and
predicates about which the properties are then proved. Concurrency is modelled by state machines
whose steps are the atomic sections of the source; the steps use the same functions the methods are
proved against.

## The patch transaction

A `Disk` has workspace files and directories, and transaction directories holding a journal, stages,
original copies, backups and a commit marker. `Exec` is one atomic step. The programs run on a
`Host` that follows an arbitrary script: each step is done, refused, done but reported as failed, or
cut off by a loss of power, after which nothing happens until a restart. The theorems hold for
all scripts, during recovery too, so a crash may fall between any two steps.

`Safe(disk, g)` says that the disk holds the workspace `g`: a completed recovery leaves exactly the
files `g`. The parameter `g` of the methods is ghost and stands for any workspace. `Session` is the
theorem over whole runs.

Assumptions, without which the code does not give it:

- A rename is one atomic step, and so is each creation, removal and completed write. A file that was
  created but not completely written is modelled as empty. The directory that holds the transactions
  is taken to exist.
- Removing a directory tree is one atomic step. `UnlinkingTheMarkerFirst` shows what happens
  otherwise.
- The in-process rollback may fail, and its backups are deleted all the same
  (`FailedRollbackThenCleanup`, `TwoFaultsLoseBoth`). Each target may then be left old, new or missing;
  all other files are as they were, and a run goes on from there. A loss of power does no such damage,
  unless the marker's rename had been done but reported an error (`LateMarkerThenPowerLoss`,
  `CutsDoNoDamage`).
- Targets do not clash: no file is deleted before something is created below it, and nothing is
  created below a path before a file is created at that path. This is exact among the patches whose
  apply loop can run to its end: those that clash pass a disk that cannot be recovered, the others do
  not (`ClashingIff`, `DeleteThenCreateBelow`). The source rejects equal paths only.
- Nobody else writes to the workspace or to the transaction store.
- What is restored are regular files. Parent directories made for a transaction stay.
- Paths are sequences of components, already normalised and without leading or trailing blanks.
- Symbolic links and canonicalisation are not modelled.
- The SHA-256 digest of preconditions is an arbitrary function.

## What does not hold as hoped

- An incremental change of a document whose old text has a bare carriage return leaves a stale tail
  on the server, and only then (`EditCoversExactly`).
- A context that is kept for a later call exceeds the memory limit of that call exactly if it did
  so before the call (`GenerateFormatted`, reached by two calls in `ReuseCanExceedBudget`). It never
  exceeds the largest limit of any call so far.
- With several workers, a worker that panics behind the first failure of its chunk brings the call
  down instead of leaving the failure as its result (`Collect`, `MissedPanic`).
- A JSON object is only found if no opening brace stands in front of it, and then always
  (`ObjectIsFoundIff`).
- A patch that creates a file below a path and then one at that path reports success and loses the
  first file; every other patch that succeeds does what it says (`Commit`, `AppliedIsUpdateIff`).

## Model

| member | source | states |
|---|---|---|
| `PatchHistory.Session` | src-tauri/src/coding_patch.rs:122-142 | Over any list of patch calls with a restart before each, under any script of refused steps, late errors and losses of power: each call that succeeded was asked for what was there and made every target exactly what its operation asks (or swallowed some, which can be seen from the operations), touching no other file; any other had no effect, but for a failed rollback, which may leave each target old, new or missing; the disk always holds the workspace that makes, and after a last completed recovery the files are that workspace. Failures without a cause in the request cost a fault each, two if they changed anything and no target was blocked; failures that changed anything cost an error each, and a late error if power was lost. Nothing is promised after a patch that clashes was begun and not carried through |
| `PatchHistory.Call` | src-tauri/src/coding_patch.rs:122-142 | One call of such a run, and what it costs |
| `PatchHistory.CrashesDoNoDamage` | src-tauri/src/coding_patch.rs:122-142 | With losses of power as the only faults, however many, no call that did not succeed changes anything |
| `PatchHistory.CutsDoNoDamage` | src-tauri/src/coding_patch.rs:122-142 | Unless some step reports an error after it was done, a call whose rollback a loss of power prevented changes nothing either, whatever errors and failed rollbacks the run has besides |
| `PatchHistory.FaultsPayForFailures` | src-tauri/src/coding_patch.rs:122-142 | Over a whole run without clashing patches, no more calls fail without a cause in their request than there are faults, no more failures change the workspace than there are errors, and no more of those cut off by a loss of power than there are late errors |
| `PatchRecovery.ApplyPatch` | src-tauri/src/coding_patch.rs:122-142 | For a patch that does not clash, or succeeds or is refused before it is begun: a success was granted everything its operations ask (free paths, expected digests, text with exactly one match) and leaves each target with the content given, gone, or with the new passage where the old one stood, and every other file as it was (exactly if it swallows nothing), and reports the targets and how many were created, deleted and replaced; a failure leaves what the disk held; if the rollback itself fails, the disk goes on holding a workspace in which each target is old, new or missing and all else is as it was, which takes an error and, unless a target is blocked, two faults. No difference at all if losses of power are the only faults, or if at most one fault is to come and no target is blocked. Without a fault, a patch that does not clash succeeds exactly if the request is admissible: 1 to 64 operations, none refused on the files and directories that are there, and no target below a file when its turn comes |
| `PatchRecovery.CommitPlanned` | src-tauri/src/coding_patch.rs:138-141 | The same for the commit of what was planned for the operations |
| `PatchTransaction.Commit` | src-tauri/src/coding_patch.rs:301-409 | Success, for any plan: the disk holds the files as they are, which differ from the old ones in targets only and are the update if and only if no file is created at a path below which an earlier change created one; the report counts and lists the changes. Interrupted before the first rename, nothing has changed. A plan that does not clash succeeds without a fault exactly if no target is blocked; its failure leaves the old files unless the rollback failed; then the disk holds the old workspace, or files of which each target is old, new or missing and all others are as they were. That takes two faults in the one commit unless a target is blocked |
| `PatchTransaction.ApplyAndMark` | src-tauri/src/coding_patch.rs:344-366 | The apply loop and the marker: completed, the transaction is committed; stopped, it can be undone, and no marker stands unless its rename reported an error |
| `PatchTransaction.Abandon` | src-tauri/src/coding_patch.rs:368-379 | Rollback, then cleanup whatever came of it: a completed rollback leaves the old files; a failed one takes a fault, and leaves the old workspace recoverable if a loss of power stopped it, or else files that lie between those found and the old ones; if its first step is refused, the files stay as they are and the backups are gone |
| `PatchTransaction.Exchange` | src-tauri/src/coding_patch.rs:349-357 | The two renames of a change: each intermediate disk can be undone; completed, the change is in |
| `PatchApply.AppliedIsUpdateIff` | src-tauri/src/coding_patch.rs:344-358 | An apply loop that runs to its end, on any plan, makes the update if and only if no file is created at a path below which an earlier change created one |
| `PatchApply.SwallowingLoses` | src-tauri/src/coding_patch.rs:344-358 | After such a creation, a file that the patch created is gone |
| `PatchApply.GoesToTheEnd` | src-tauri/src/coding_patch.rs:344-358 | Otherwise each step installs its change and leaves the targets to come as they were |
| `PatchApply.GoesWithParents` | src-tauri/src/coding_patch.rs:345-348 | And at the end exactly the ancestors of the targets have become directories |
| `PatchApply.AppliedConfined` | src-tauri/src/coding_patch.rs:344-358 | Whatever the plan, the loop touches its targets only, and makes no directories but above them |
| `PatchRecovery.PlanLiesAlike` | src-tauri/src/coding_patch.rs:165-299 | Whether a plan clashes or swallows, and which directories it needs, can be seen from the operations |
| `PatchRecovery.PlanIsBlockedAlike` | src-tauri/src/coding_patch.rs:345-348 | A planned target is blocked exactly if it lies below a file once the operations before it are carried out in memory |
| `PatchRecovery.PlannedIsAdmissible` | src-tauri/src/coding_patch.rs:165-299 | A request that could be planned has no cause for refusal |
| `PatchTransaction.Rollback` | src-tauri/src/coding_patch.rs:550-579 | Wherever rolling back stops, the journal still undoes to the old workspace; where it completes, the files are the old workspace |
| `PatchTransaction.RollbackEntry` | src-tauri/src/coding_patch.rs:557-576 | Undoing one entry keeps every other restored entry restored, makes this one restored, and on a sound journal is stopped only by machine trouble |
| `PatchTransaction.SoundEntry` | src-tauri/src/coding_patch.rs:557-573 | On a sound journal a file that existed and is not backed up is in its place, so the `.original` copy is never asked for |
| `PatchRecovery.Recover` | src-tauri/src/coding_patch.rs:411-476 | A recovery, completed or cut off any number of times, never changes the workspace the disk holds; completed, the files are that workspace, every transaction directory is gone and has been counted; on a sound disk only machine trouble stops it |
| `PatchRecovery.RecoverOne` | src-tauri/src/coding_patch.rs:427-472 | One directory: refused exactly when it is corrupt in one of the listed ways, that is, not trusted, and then untouched, otherwise discarded or rolled back |
| `PatchRecovery.RefusedUnlessTrusted` | src-tauri/src/coding_patch.rs:427-461 | Recovery acts exactly on a directory with a journal of its own id, version 1 or 2, 1 to 64 entries on distinct valid paths with the names of their index - or without a readable journal and with nothing in it that could be needed |
| `PatchRecovery.ValidateJournal` | src-tauri/src/coding_patch.rs:478-518 | Accepts exactly the journals with a supported version, 1 to 64 entries, the id of their directory, distinct valid paths and the artifact names of their index |
| `PatchRecovery.SafeDirectory` | src-tauri/src/coding_patch.rs:427-469 | A sound disk has at most one transaction directory, so the name order of recovery does not matter, and never one that recovery would refuse |
| `PatchJournal.WrittenJournalsValidate` | src-tauri/src/coding_patch.rs:318-333 | Every journal a commit writes passes the validation recovery applies |
| `PatchHistory.SafeIsUnique` | src-tauri/src/coding_patch.rs:411-476 | A disk holds one workspace only: recovery has no choice of outcome |
| `PatchJournal.NeutralStep` | src-tauri/src/coding_patch.rs:550-579 | Steps outside the entries (other artifacts, directories off the targets) keep the journal sound |
| `PatchJournal.EntryStep` | src-tauri/src/coding_patch.rs:550-579 | A step on one entry that leaves it undoable leaves the whole transaction undoable |
| `PatchJournal.AllRestored` | src-tauri/src/coding_patch.rs:550-579 | When every entry is restored the workspace is exactly the old one |
| `PatchProgress.ProgressIsJournaled` | src-tauri/src/coding_patch.rs:344-358 | After any number of changes, and between the two renames of a change, the journal undoes to the old workspace |
| `PatchProgress.AdvanceOut` | src-tauri/src/coding_patch.rs:349-353 | The first rename applies exactly when there was an original, and moves the commit to its half-way state |
| `PatchProgress.AdvanceIn` | src-tauri/src/coding_patch.rs:354-357 | The second rename completes the change, from every half-way state |
| `PatchProgress.ProgressIsBetween` | src-tauri/src/coding_patch.rs:344-358 | However far a commit has come, each file is the old one, the new one, or away |
| `PatchProgress.AllInstalled` | src-tauri/src/coding_patch.rs:344-358 | With all changes in, the files are the update of the snapshot |
| `PatchTransaction.ApplyAll` | src-tauri/src/coding_patch.rs:344-358 | The apply loop: completed, the files are the update and all ancestors of targets are there; stopped anywhere, the journal undoes it; without a fault it stops exactly at a target below a file |
| `PatchTransaction.MarkerWritten` | src-tauri/src/coding_patch.rs:360-364 | The commit happens at the one rename of the marker: before it the disk holds the old workspace, after it the new one |
| `PatchTransaction.WriteJournal` | src-tauri/src/coding_patch.rs:315-333 | Making the directory and the journal never changes the workspace the disk holds |
| `PatchTransaction.WriteStages` | src-tauri/src/coding_patch.rs:335-342 | Nor does writing the stages and original copies, however far it gets |
| `PatchTransaction.WriteAtomic` | src-tauri/src/coding_patch.rs:866-881 | Metadata is either as before or complete, and a failed write leaves it as before unless the marker rename was done but reported an error |
| `PatchTransaction.CreateParents` | src-tauri/src/coding_patch.rs:669-703 | Creates exactly missing ancestors of the target; fails only on a fault or on a file in the way |
| `PatchTransaction.Cleanup` | src-tauri/src/coding_patch.rs:581-587 | Removes the whole directory or leaves the disk as it is |
| `PatchTransaction.Host.Perform` | src-tauri/src/coding_patch.rs:848-864 | One atomic step: done and reported, refused, done but reported as failed, or cut off by a loss of power |
| `WorkspaceDisk.ExecKeepsTree` | src-tauri/src/coding_patch.rs:775-888 | No step tears the directory tree apart |
| `PatchPlan.Preflight` | src-tauri/src/coding_patch.rs:165-299 | A plan is one change per operation in order, on distinct valid paths, describing the snapshot, within 16 MiB; every change is granted by the disk and makes of its file what its operation asks; a refusal has a cause among the operations |
| `PatchPlan.ReplaceFirstSplits` | src-tauri/src/coding_patch.rs:210-216 | The replacement puts the new text exactly at the first occurrence of the old |
| `PatchPlan.PlanOneIsMade` | src-tauri/src/coding_patch.rs:182-287 | An operation is planned exactly if the disk grants what it asks, and what the change makes of the file is exactly what the operation asks |
| `PatchPlan.OneIsCounted` | src-tauri/src/coding_patch.rs:209-215 | Exactly one match is counted if and only if some occurrence is the first and none begins behind it |
| `PatchPlan.RefusalIsObjection` | src-tauri/src/coding_patch.rs:188-271 | Each refusal says something true of the operation and the disk |
| `PatchPlan.StagedIsObeyed` | src-tauri/src/coding_patch.rs:165-299 | On distinct paths, carrying out the operations one after the other gives exactly the workspace in which each target is what its operation makes of it and everything else is as it was |
| `PatchPlan.TotalBytesIsLength` | src-tauri/src/coding_patch.rs:217-219 | The total that is limited is the length of everything read and written |
| `PatchPlan.CountKindIs` | src-tauri/src/coding_patch.rs:385-396 | A kind is counted as often as it is planned |
| `PatchPlan.UpdatedAt` | src-tauri/src/coding_patch.rs:344-358 | For distinct targets the change-by-change result is the simultaneous update: planned paths hold their replacement, all others are unchanged |
| `PatchPlan.UpdatedIsUnique` | src-tauri/src/coding_patch.rs:344-358 | Any workspace that answers like the simultaneous update is the update |
| `PatchPlan.OrderDoesNotMatter` | src-tauri/src/coding_patch.rs:344-358 | The result does not depend on the order of the operations |
| `PatchPlan.SnapshotAgreesWithStaging` | scripts/coding_workspace_eval.py:123-142 | Planning all operations against one snapshot gives what staging them one at a time in memory gives |
| `PatchPlan.KindsAddUp` | src-tauri/src/coding_patch.rs:385-396 | Created, replaced and deleted add up to the number of changes |
| `PatchHistory.CleanupAfterFailedRollback` | src-tauri/src/coding_patch.rs:368-379 | After a failed in-process rollback the backups are deleted all the same; a workspace is still held if and only if the files already are that workspace |
| `PatchHistory.FailedRollbackThenCleanup` | src-tauri/src/coding_patch.rs:368-379 | A commit with all changes in whose rollback restores the last entry and is then refused a step: recovery could still have given the old workspace, but after the cleanup neither the old nor the new one is held |
| `PatchHistory.MarkedIsFinal` | src-tauri/src/coding_patch.rs:463-467 | With a matching marker the disk holds exactly the files as they are |
| `PatchHistory.LateMarkerThenPowerLoss` | src-tauri/src/coding_patch.rs:848-864 | If the marker rename is done but reports an error, a loss of power during the in-process rollback can leave a workspace that is neither the old nor the new one |
| `PatchHistory.UnlinkingTheMarkerFirst` | src-tauri/src/coding_patch.rs:810-817 | Were the marker unlinked before the backups, a committed transaction would be undone |
| `PatchHistory.ParentIsSafeExactlyOffTarget` | src-tauri/src/coding_patch.rs:345-348 | Creating a parent directory keeps the old workspace recoverable if and only if no other change targets that path; otherwise no workspace is recoverable |
| `PatchClash.ClashIff` | src-tauri/src/coding_patch.rs:344-358 | A plan whose apply loop can run to its end passes a disk from which no workspace can be recovered if and only if it clashes |
| `PatchClash.ClashingIff` | src-tauri/src/coding_patch.rs:165-358 | The same for the operations of a request and the transaction staged for them |
| `PatchClash.DeleteThenCreateBelow` | src-tauri/src/coding_patch.rs:344-358 | Deleting a file and creating one below its path is such a request |
| `PatchFaults.TwoFaultsLoseBoth` | src-tauri/src/coding_patch.rs:344-379 | From the staged disk of two deletions on, with the second rename and the first step of the rollback refused: the apply steps and the abandoning of the commit end with neither workspace recoverable |
| `PatchHistory.CreateBelowThenCreate` | src-tauri/src/coding_patch.rs:349-357 | For a staged plan that creates a file below a path and then one at that path, the apply loop completes, the first file is gone, and the files are not the update |
| `Utf8.FirstMeetsStandard` | native-backend-smoke/src/native_bridge.rs:180-195 | The one-step decoder against section 4 of RFC 3629 and section 3.9 of the Unicode Standard: a character exactly for a well-formed prefix, truncation exactly for a completable rest, otherwise the maximal ill-formed subpart |
| `Utf8.FirstIsLocal` | native-backend-smoke/src/native_bridge.rs:180-195 | A front that is not truncated is judged without looking at what follows |
| `Utf8.EncodeDecode` | native-backend-smoke/src/native_bridge.rs:180-195 | Encoding the value of a well-formed sequence gives the sequence back: every character has one form |
| `Utf8.DecodeEncodeAll` | native-backend-smoke/src/native_bridge.rs:180-184 | Decoding the encoding of any text gives the text |
| `Utf8.ValidIsEncoded` | native-backend-smoke/src/native_bridge.rs:180-184 | Only encoded text is valid: the decoded text encodes to the very bytes |
| `Utf8.LossyReads` | native-backend-smoke/src/native_bridge.rs:159-167 | Lossy decoding is exactly the reading the Standard recommends: each character as it is, each maximal ill-formed subpart replaced by U+FFFD |
| `TokenStream.RestIsIncompleteChar` | native-backend-smoke/src/native_bridge.rs:174-200 | What is held back is empty or a proper prefix of a well-formed sequence, at most three bytes |
| `TokenStream.DrainSplit` | native-backend-smoke/src/native_bridge.rs:170-203 | A token boundary can fall anywhere: draining in two parts is draining at once |
| `TokenStream.StreamedIsWhole` | native-backend-smoke/src/native_bridge.rs:170-203 | Whatever the token boundaries, streaming settles what draining the concatenation settles |
| `TokenStream.LossyIsDrainAndFlush` | native-backend-smoke/src/native_bridge.rs:159-167 | Lossy decoding of the whole is what draining settles plus one replacement character for a character cut short |
| `TokenStream.TextSurvivesTokenBoundaries` | native-backend-smoke/src/native_bridge.rs:170-203 | Valid text comes through any split exactly, with nothing left over |
| `TokenStream.StrictStep` | native-backend-smoke/src/native_bridge.rs:180-196 | One turn of the loop: what strict decoding reports determines what is settled |
| `TokenStream.TokenSink.OnToken` | native-backend-smoke/src/native_bridge.rs:170-203 | The loop over strict decodings emits the drained text in one call and keeps the rest; a stopped sink does nothing |
| `TokenStream.TokenSink.Emit` | native-backend-smoke/src/native_bridge.rs:151-157 | The consumer is called unless it stopped, and its answer is remembered |
| `TokenStream.TokenSink.Finish` | native-backend-smoke/src/native_bridge.rs:159-167 | Only a stream that was not stopped replaces a truncated last character, once |
| `TokenStream.TokenSink.Generate` | native-backend-smoke/src/native_bridge.rs:255-270 | Over a whole generation the emitted text is the lossy decoding of all tokens if nobody stops and the engine succeeds; all that was settled if the engine fails; and what was settled by the last call if the consumer stops, which is then never called again |
| `LspPool.SessionPool.BeginAcquire` | src-tauri/src/coding_lsp.rs:186-228 | The first critical section removes exactly the free entries last used 300 seconds ago or longer and at most one more free entry, which no free entry left behind was used before; the entry asked for counts as used now and no other entry changes; it refuses only if all pooled sessions are held, and else there is room |
| `LspPool.SessionPool.RemoveIdle` | src-tauri/src/coding_lsp.rs:188-202 | Removes exactly the entries nobody holds that were unused for 300 seconds |
| `LspPool.SessionPool.FinishAcquire` | src-tauri/src/coding_lsp.rs:245-261 | The second critical section: a replacement that appeared meanwhile wins, a full pool rejects, otherwise the session goes in |
| `LspPool.SessionPool.Invalidate` | src-tauri/src/coding_lsp.rs:280-296 | Removes the entry exactly when it is the very session of the lease |
| `LspPool.SessionPool.Drain` | src-tauri/src/coding_lsp.rs:320-327 | Shutdown takes every pooled session |
| `LspPoolRuns.StepKeepsInv` | src-tauri/src/coding_lsp.rs:177-329 | Every step of every task keeps each started session in exactly one place: the pool, one task, or closed |
| `LspPoolRuns.RunsKeepInv` | src-tauri/src/coding_lsp.rs:177-329 | So does every interleaving |
| `LspPoolRuns.PoolIsSound` | src-tauri/src/coding_lsp.rs:177-329 | In every interleaving: at most 8 pooled sessions, leases only for the key asked for, no session closed twice, and each closed exactly once when the pool is empty and all tasks are done |
| `LspPoolRuns.EvictionSparesHeldSessions` | src-tauri/src/coding_lsp.rs:188-225 | Eviction never takes a session some task holds; beyond idle entries it takes one, only from a full pool, and every session left behind is held or was used no earlier; the entry asked for counts as used now and no other changes |
| `LspPoolRuns.WhatAnAcquireGets` | src-tauri/src/coding_lsp.rs:170-275 | The pooled session of the key if there is one; a refusal only while eight sessions are pooled, at first only if all are held; else a session started for the key, given back if another task was faster or the pool has filled |
| `LspPoolRuns.InvalidationSparesReplacements` | src-tauri/src/coding_lsp.rs:280-296 | Invalidation never removes a newer replacement |
| `LspDocuments.Session.SyncDocument` | src-tauri/src/coding_lsp.rs:1202-1325 | After a successful synchronisation the message log is legal and at most 128 documents are open, whatever texts the server holds; the copy of the document is exactly what the mode makes of the record and the old copy; it is mirrored if and only if it is the client text; if it was mirrored before, it is the client text if and only if the change was not stale; other copies stay, and stay mirrored, but for one that no open document was used before, which may be closed when 128 are open; exactly the messages of the mode are sent; versions stay within 64 bits; if the writes succeed, so does the call |
| `LspDocuments.Session.Resync` | src-tauri/src/coding_lsp.rs:1218-1289 | The same for a document already open, in all three modes, mirrored or not; an unchanged fingerprint sends nothing; succeeds if the writes do |
| `LspDocuments.Session.OpenNew` | src-tauri/src/coding_lsp.rs:1291-1324 | The same for a document not open, which is then mirrored; succeeds if the writes do |
| `LspDocuments.Session.MakeRoom` | src-tauri/src/coding_lsp.rs:1291-1300 | With 128 documents open the least recently used one is closed, on both sides; the log stays legal and mirrored documents stay so; succeeds if the writes do |
| `LspDocuments.Session.Reopen` | src-tauri/src/coding_lsp.rs:1257-1275 | Without incremental changes the document is closed and opened with the new text and version; succeeds if the writes do |
| `LspDocuments.EditCoversExactly` | src-tauri/src/coding_lsp.rs:1238-1256 | Replacing from the start to the believed end gives the new text if and only if the old text had no bare carriage return, on a server that keeps characters and on one that keeps UTF-16 code units |
| `LspText.EndCoversExactly` | src-tauri/src/coding_lsp.rs:2220-2225 | The computed end position is the end of the document for a server if and only if no carriage return stands bare |
| `LspText.EndIsCounted` | src-tauri/src/coding_lsp.rs:2220-2225 | The end position is the number of line feeds and the number of UTF-16 code units behind the last of them |
| `LspText.OffsetInUnits` | src-tauri/src/coding_lsp.rs:2220-2225 | A server that keeps the document as UTF-16 code units finds the place of any position where one that keeps characters does, or the middle of the surrogate pair it stops at |
| `LspText.EndCoversUnits` | src-tauri/src/coding_lsp.rs:2220-2225 | On such a server, too, the computed end position is the end of the document if and only if no carriage return stands bare |
| `LspText.DecodeEncodeUtf16` | src-tauri/src/coding_lsp.rs:2223 | UTF-16 (section 3.9 of the Unicode Standard) reads back: surrogate pairs above U+FFFF |
| `LspDocuments.AfterChange` | src-tauri/src/coding_lsp.rs:1226-1256 | A change with a rising version keeps the log legal whatever the texts, and its effect on the copy is known |
| `LspDocuments.SentIsTextIff` | src-tauri/src/coding_lsp.rs:1218-1277 | From a mirrored copy, what is sent makes the client text if and only if the change is not stale |
| `LspDocuments.ExactIff` | src-tauri/src/coding_lsp.rs:1278-1287 | With an injective fingerprint the new record fits the server copy if and only if that is the client text |
| `LspFraming.DecimalRoundTrip` | src-tauri/src/coding_lsp.rs:1366 | Decimal lengths read back |
| `LspFraming.FrameRoundTrip` | src-tauri/src/coding_lsp.rs:1888-1931 | A framed message is read back whole, whatever bytes it holds and whatever follows |
| `LspFraming.MessageRoundTrip` | src-tauri/src/coding_lsp.rs:1888-1931 | A message is read back whole whatever other header lines stand before and behind its length, and in whatever case that is named, within 16 KiB of headers and 8 MiB of body |
| `LspFraming.LengthDecides` | src-tauri/src/coding_lsp.rs:1921-1928 | Whatever length is named: too long above 8 MiB, cut if the stream ends before the body, else the body |
| `LspFraming.SecondLengthIsRefused` | src-tauri/src/coding_lsp.rs:1908-1911 | A second length is refused, whatever it says and whatever stands between |
| `LspFraming.BadLengthIsRefused` | src-tauri/src/coding_lsp.rs:1912-1917 | So is a length that is no number |
| `LspFraming.NoLengthIsRefused` | src-tauri/src/coding_lsp.rs:1921 | And so are headers without one |
| `LspFraming.StreamRoundTrip` | src-tauri/src/coding_lsp.rs:1888-1931 | Any sequence of framed messages comes back in order with nothing left over |
| `LspFraming.Pipe.Send` | src-tauri/src/coding_lsp.rs:1359-1371 | Appends one frame, or nothing above 8 MiB |
| `LspFraming.Pipe.ReadMessage` | src-tauri/src/coding_lsp.rs:1888-1931 | The reading loop with its header limit, duplicate, missing and invalid length errors, against a function of the stream |
| `LspSanitizers.SymbolBudget` | src-tauri/src/coding_lsp.rs:1586-1658 | Symbols emitted plus budget left is the budget given, and what comes out is the outline of the symbols, with the level of each, cut where the budget ends |
| `LspSanitizers.SymbolsBudget` | src-tauri/src/coding_lsp.rs:1572-1583 | The same for a list of symbols |
| `LspSanitizers.OutlineIsUnique` | src-tauri/src/coding_lsp.rs:1640-1656 | An outline determines the symbols and their nesting, so the two laws fix the result |
| `LspSanitizers.SymbolDepth` | src-tauri/src/coding_lsp.rs:1593-1595 | Nothing below level 16 comes out |
| `LspSanitizers.SanitizeItem` | src-tauri/src/coding_lsp.rs:1586-1658 | The counting-down recursion computes the specified symbol and remainder |
| `LspSanitizers.SanitizeItems` | src-tauri/src/coding_lsp.rs:1640-1651 | So does the loop over children that stops when the budget is spent |
| `LspSanitizers.HoverBudget` | src-tauri/src/coding_lsp.rs:2173-2205 | Characters emitted plus budget left is the budget given, even after empty parts are dropped; what is shown is the admitted text cut where the budget ends, each string in the lists and objects it was in |
| `LspSanitizers.PartsBudget` | src-tauri/src/coding_lsp.rs:2183-2202 | The same for the parts of a list or an object |
| `LspSanitizers.DataIsShown` | src-tauri/src/coding_lsp.rs:2207-2214 | A hover has data exactly when it shows a character |
| `JsonScanner.ObjectIsExtracted` | scripts/coding_workspace_eval.py:210-237 | From text without an opening brace, one JSON object (sections 2 to 7 of RFC 8259, any white space, any strings) and any suffix, exactly the object is extracted |
| `JsonScanner.ObjectIsFoundIff` | scripts/coding_workspace_eval.py:210-237 | For any text before and after an object, the extracted slice begins at the object if and only if no opening brace stands before it |
| `JsonScanner.BeginsAtBrace` | scripts/coding_workspace_eval.py:217-221 | What is extracted stands at the first opening brace |
| `JsonScanner.ExtractIsShortestBalanced` | scripts/coding_workspace_eval.py:210-237 | The result is the shortest balanced slice from the first opening brace, and there is one exactly when some slice from there is balanced |
| `JsonScanner.NothingToExtract` | scripts/coding_workspace_eval.py:237 | Without an opening brace there is none |
| `JsonScanner.ExtractBalancedJsonObject` | scripts/coding_workspace_eval.py:210-237 | The one-pass scan with its four variables computes that result |
| `JsonScanner.PassesValue` | scripts/coding_workspace_eval.py:216-236 | The scan passes over any JSON value and comes back to the depth it had, whatever braces, quotes and backslashes the strings hold |
| `JsonScanner.BraceInFrontWins` | scripts/coding_workspace_eval.py:217-221 | One stray opening brace directly in front of the object and nothing behind it: nothing is found |
| `AgentStartup.Coordinator.StartLocked` | src-tauri/src/agent_runtime.rs:174-236 | Every startup ends within ceil(timeout / poll) + 2 launch and probe calls, with the outcome its last answers call for, aborting exactly when the probe loop runs out of time, and leaves a record that is ready exactly on success, with the endpoint that was answered, and else in error with the words of the launcher or the server, or the loop that ran out of time |
| `AgentStartup.Coordinator.AwaitLaunch` | src-tauri/src/agent_runtime.rs:181-212 | The launch loop: asks again exactly while busy and in time |
| `AgentStartup.Coordinator.AwaitReady` | src-tauri/src/agent_runtime.rs:213-235 | The probe loop: asks again exactly while loading and in time |
| `AgentStartup.Coordinator.AcquireHoldingGate` | src-tauri/src/agent_runtime.rs:159-171 | Exactly a caller that finds the counter moved and an error shown for its own model shares that error without a call; any other runs a startup and counts it |
| `AgentStartup.AnswersDecide` | src-tauri/src/agent_runtime.rs:181-235 | Two startups that hear the same answers and do not run out of time make the same calls and give the same outcome |
| `AgentStartup.Coordinator.MarkRequested` | src-tauri/src/agent_runtime.rs:104-126 | A request shows a start unless one for this model is under way, and keeps the last startup time |
| `AgentStartup.Coordinator.Begin` | src-tauri/src/agent_runtime.rs:238-259 | Keeps the time of an earlier request for this model |
| `AgentStartup.Coordinator.Finish` | src-tauri/src/agent_runtime.rs:272-282 | The record shows the outcome, and the time the startup took if it succeeded |
| `AgentStartup.Coordinator.FinishResident` | src-tauri/src/agent_runtime.rs:284-298 | A resident model is ready and keeps its earlier startup time |
| `AgentStartupRuns.StepKeepsInv` | src-tauri/src/agent_runtime.rs:152-172 | Every atomic step of every caller and every request keeps the coordination invariant |
| `AgentStartupRuns.RunsKeepInv` | src-tauri/src/agent_runtime.rs:152-172 | So does every interleaving |
| `AgentStartupRuns.AtMostOneStartup` | src-tauri/src/agent_runtime.rs:152-172 | In every interleaving at most one startup runs |
| `AgentStartupRuns.AnswersAreFresh` | src-tauri/src/agent_runtime.rs:158-171 | Every answer is that of a startup for the caller's own model counted after the caller arrived; an endpoint goes only to the caller that ran the startup, a failure to it and those sharing it |
| `AgentStartupRuns.BatchSharesTheFailure` | src-tauri/src/agent_runtime.rs:163-168 | Callers for one model that arrived before a failed startup was counted all get its error, in any order, with no launch and no count, while no request rewrites the record |
| `AgentStartupRuns.LaterCallerStartsAfresh` | src-tauri/src/agent_runtime.rs:158-171 | A caller that finds the counter as it was on arrival runs its own startup and calls the launcher before it is done |
| `AgentStartupRuns.NeverStuck` | src-tauri/src/agent_runtime.rs:159-171 | While a caller remains, some caller can step: the gate is never lost |
| `InferenceContext.AdmittedIffServable` | src-tauri/native/inference.cpp:372-390 | A call is admitted if and only if some context size serves it (whole blocks, room for prompt, answer and 8 spare tokens, within size and memory limits), and the planned size is the smallest such |
| `InferenceContext.AdmissionAnswers` | src-tauri/native/inference.cpp:368-390 | Which refusal it is; the planned batch is the configured one, 512 by default, or the nearest end of the range from 32 to the context |
| `InferenceContext.NothingWraps` | src-tauri/native/inference.cpp:117-124 | After the resource limits no size leaves its 32 or 64 bits, for refused calls as well, so the "too large" error never happens |
| `InferenceContext.Engine.GenerateFormatted` | src-tauri/native/inference.cpp:345-437 | However a generation ends, the engine is consistent; the answer is what the sampler answers and the listener is told, and is shorter than asked only if the sampler ends or the call is stopped; prompt and answer stay 8 tokens away from the end of a context of at least the planned and at most twice the planned size; a kept context keeps its size; the context is within the memory limit of the call if and only if it was rebuilt or was within it before; refused calls change nothing; with a library and listener that never refuse, a call is refused for a stated cause or completes |
| `InferenceContext.Engine.EnsureContext` | src-tauri/native/inference.cpp:439-469 | Keeps a close enough context or builds one of exactly the planned size; every failure leaves plainly no context |
| `InferenceContext.Engine.DecodePrompt` | src-tauri/native/inference.cpp:471-484 | The chunks partition the prompt in order, all full batches but the last, and the listener is asked before each |
| `InferenceContext.Engine.Sample` | src-tauri/native/inference.cpp:420-436 | The tokens are the answers of the sampler in order and what the listener is told, no less and no more, each told before it is decoded; fewer than the admitted number only if the sampler ends or the call is stopped; listener and clock are asked in every round, and a no ends the call at once; the context holds prompt and answer |
| `InferenceContext.Engine.SampleOne` | src-tauri/native/inference.cpp:421-435 | One round: a token sampled, told and decoded, or the reason for stopping, with the context as it was |
| `InferenceContext.Engine.RunGuarded` | src-tauri/native/inference.cpp:401-436 | Clearing, decoding and sampling between setting and clearing the deadline callback: the context holds a prefix of prompt and answer, all of it on completion; what is produced is what the sampler answers and the listener is told |
| `InferenceContext.Engine.LoadAdapter` | src-tauri/native/inference.cpp:330-337 | Drops the context first, also when loading fails |
| `InferenceContext.Engine.ClearKvCache` | src-tauri/native/inference.cpp:339-342 | Empties the context and changes nothing else |
| `InferenceContext.ReuseFitsBudget` | src-tauri/native/inference.cpp:439-444 | A kept context is at most twice the planned one, in tokens and in memory |
| `InferenceContext.KeptIffClose` | src-tauri/native/inference.cpp:439-444 | A context is kept if and only if it is as large as planned, at most twice as large, and batch and threads agree |
| `InferenceContext.ReuseCanExceedBudget` | src-tauri/native/inference.cpp:439-444 | Two completed calls on one engine, the second with half the memory limit: the kept context exceeds it |
| `ApprovalLedger.LedgerIsSound` | src-tauri/src/coding_control.rs:239-301 | In every history a run has at most one pending or approved row per action, and its events are numbered 1, 2, 3, ... |
| `ApprovalLedger.ConsumptionsNeverExceedDecisions` | src-tauri/src/coding_control.rs:303-345 | In every history the approve decisions of an action are its consumptions plus the approvals still open |
| `ApprovalLedger.ConsumedOnce` | src-tauri/src/coding_control.rs:330-334 | No approval is consumed twice |
| `ApprovalLedger.ConsumptionWasApproved` | src-tauri/src/coding_control.rs:310-334 | Every consumption is of an approval of the consuming run or an ancestor, approved by a decision made while it was pending |
| `ApprovalLedger.ApprovedByDecision` | src-tauri/src/coding_control.rs:599-606 | An approved or consumed row was approved by a decision while pending |
| `ApprovalLedger.RowsMoveForward` | src-tauri/src/coding_control.rs:239-345 | No row is lost or changed but in its status; rejected and consumed are final |
| `ApprovalLedger.StatementKeepsInv` | src-tauri/src/coding_control.rs:239-392 | Every single statement keeps the ledger sound, so a call cut short does too |
| `ApprovalLedger.HistoriesKeepInv` | src-tauri/src/coding_control.rs:239-392 | So does every history of statements |
| `ApprovalLedger.RecordingKeepsNumbered` | src-tauri/src/coding_control.rs:247-250 | Numbering by maximum plus one keeps the numbers of each run without gaps |
| `ApprovalLedger.StatementEffect` | src-tauri/src/coding_control.rs:239-392 | What each statement does to each table, and that it leaves the others alone |
| `ApprovalLedger.CountsMatchMoves` | src-tauri/src/coding_control.rs:303-345 | Decisions and consumptions counted over a history match the rows by status |
| `ApprovalLedger.ActionIsExact` | src-tauri/src/coding_control.rs:370-376 | The hashed text identifies tool and arguments for tool names without NUL |
| `ApprovalDatabase.Database.RequestApproval` | src-tauri/src/coding_control.rs:263-301 | Gives the pending or approved row if there is one, else files one and records an event; each failure leaves a stated prefix of that; succeeds if no statement fails |
| `ApprovalDatabase.Database.ConsumeExactApproval` | src-tauri/src/coding_control.rs:303-345 | Consumes one approval of the run or an ancestor, than which none was requested later, changing no other row, and counts one use of the action; false exactly when there is none; needs that the walk up from the run ends, since the query does not otherwise; succeeds if no statement fails |
| `ApprovalDatabase.Database.DecideApproval` | src-tauri/src/coding_control.rs:590-622 | Decides a pending row and counts one approval of its action; invalid decisions and rows no longer pending are refused without effect; if no statement fails, it succeeds exactly for a valid decision on a pending row |
| `ApprovalDatabase.Database.LinkRuns` | src-tauri/src/coding_control.rs:378-392 | Replaces the parent of a run and records an event; acyclic links stay so if and only if the child is not in the lineage of the parent; succeeds if no statement fails |
| `ApprovalDatabase.Database.Lineage` | src-tauri/src/coding_control.rs:313-317 | The recursive query gives exactly the run and its ancestors |
| `ApprovalDatabase.UsesNeverExceedApprovals` | src-tauri/src/coding_control.rs:303-345 | On a live database, at any time, the approvals of an action are its uses plus the approvals still open |
| `ApprovalDatabase.UsesHadTheirApprovals` | src-tauri/src/coding_control.rs:303-345 | On a live database every use had an approval of its own, of the using run or an ancestor, decided before |
| `RunLineage.FreshChildIsSafe` | src-tauri/src/local_agent.rs:458-483 | A run just started is in no other lineage, so linking it to the run it continues keeps the links acyclic |
| `RunLineage.QueryEndsIffAcyclic` | src-tauri/src/coding_control.rs:313-317 | The lineage query ends for every run if and only if the links are acyclic |
| `RunLineage.LinkKeepsAcyclic` | src-tauri/src/coding_control.rs:379-383 | Linking keeps the links acyclic if and only if the child is not in the lineage of the parent |
| `RunawayAnswers.RunawayIsFlagged` | src-tauri/src/coding_agent_gateway.rs:664-677 | At most a twentieth of junk and then text of a period up to 32, possibly cut short, at least 200 characters and 20 periods long, is flagged |
| `RunawayAnswers.JunkCostsItsLength` | src-tauri/src/coding_agent_gateway.rs:670-675 | Leading junk costs at most one mismatch a character |
| `RunawayAnswers.FewMismatchesFewPieces` | src-tauri/src/coding_agent_gateway.rs:670-675 | A text with m mismatches is a row of m + 1 periodic pieces |
| `RunawayAnswers.PiecesBoundMismatches` | src-tauri/src/coding_agent_gateway.rs:670-675 | A row of n periodic pieces has at most (n - 1) times the period mismatches |
| `RunawayAnswers.TagsAreFlagged` | src-tauri/src/coding_agent_gateway.rs:651-659 | Any nonempty row of tool-call tags with any white space around them is flagged through the four successive removals |
| `RunawayAnswers.RemoveOneKind` | src-tauri/src/coding_agent_gateway.rs:653-656 | Removing one kind of tag from a row of tags leaves exactly the others |
| `RunawayAnswers.RemoveEveryKind` | src-tauri/src/coding_agent_gateway.rs:653-657 | After the four removals nothing is left and every tag was counted |
| `RunawayAnswers.OtherTextIsKept` | src-tauri/src/coding_agent_gateway.rs:653-657 | Removing tags never removes a character that is in no tag |
| `RunawayAnswers.ShortAnswerIsKept` | src-tauri/src/coding_agent_gateway.rs:636-663 | A short answer with a character that is in no tag is not flagged |
| `RunawayAnswers.RepetitionIff` | src-tauri/src/coding_agent_gateway.rs:661-677 | With a character that is in no tag, an answer is flagged if and only if it has at least 200 characters and for some period up to 32 that fits in twenty times at most one position in twenty differs from the one a period earlier |
| `RunawayAnswers.FlaggedIsRunaway` | src-tauri/src/coding_agent_gateway.rs:651-677 | Whatever is flagged has only characters of tags, or is a row of pieces of one period up to 32 with at most one seam in twenty characters |
| `RunawayAnswers.IsDegenerate` | src-tauri/src/coding_agent_gateway.rs:641-678 | The filter, the tag loop and the period loop compute the specified verdict |
| `RepoContext.BuildRepositoryContext` | src-tauri/src/coding_intelligence.rs:45-84 | The context is that of reading the roots in order, whatever the number of workers and the order they finish in, unless a panic is missed |
| `RepoContext.Context` | src-tauri/src/coding_intelligence.rs:83 | The assembled context is at most 28013 characters long |
| `RepoContext.Collect` | src-tauri/src/coding_intelligence.rs:57-82 | Chunked parallel collection equals mapping the roots in order, including which error wins, unless a worker panics behind the first failure in its chunk |
| `RepoContext.JoinInOrder` | src-tauri/src/coding_intelligence.rs:69-77 | Joining stops at the first failure; a later panic in the chunk is then reported by the scope |
| `RepoContext.RunWorkers` | src-tauri/src/coding_intelligence.rs:59-68 | Every schedule fills the slots with the answers in place |
| `RepoContext.InOrderFails` | src-tauri/src/coding_intelligence.rs:71-79 | The error is that of the first root that is not read |
| `RepoContext.InOrderIs` | src-tauri/src/coding_intelligence.rs:57-82 | If every root is read, all their sections come out in order; else the error of the first failure, or that a worker panicked |
| `RepoContext.ChunkDecides` | src-tauri/src/coding_intelligence.rs:57-79 | Only the chunk of the first failure decides whether a panic is missed |
| `RepoContext.WorkersDoNotMatter` | src-tauri/src/coding_intelligence.rs:45-84 | With one worker, or without panics, no panic is missed |
| `RepoContext.MissedPanic` | src-tauri/src/coding_intelligence.rs:58-79 | The same two roots: several workers bring the call down, one worker ends with the failure |
| `RepoContext.CompressedShape` | src-tauri/src/coding_intelligence.rs:389-402 | The text exceeds the budget by the 13 characters of the mark at most; every included section except possibly the last is verbatim; sections are left out only when fewer than 120 characters are left |
| `RepoContext.ShortTextIsWhole` | src-tauri/src/coding_intelligence.rs:389-402 | Text that leaves 120 characters free is passed on unchanged |
| `RepoContext.WholeIsJoined` | src-tauri/src/coding_intelligence.rs:396-399 | Sections are joined by blank lines, none in front of the first that says anything |
| `RepoContext.CompressSections` | src-tauri/src/coding_intelligence.rs:389-402 | The loop computes that text |

## Left out

- The user interface, Tauri commands, connectors, HTTP forwarding and delivery calls.
- llama.cpp, tree-sitter, SQLite, SHA-256 and operating-system calls: arbitrary answers or abstract functions; fingerprints of documents are injective, and so is the hash of actions.
- File synchronisation below "a completed step survives a crash", and differences between Windows and Unix.
- Symbolic links, canonicalisation and path-escape checks of the patch transaction and the language-server client.
- Parsing of operations, journals, messages and results as JSON: journals and markers are kept as the documents they parse to, messages as bodies of bytes.
- White space outside ASCII around header fields and paths.
- PatchRecovery.ApplyPatch: promises nothing about the files when a patch that clashes was begun and not carried through, and no more than old, new or missing about each target when its rollback failed; the lemmas named above show each case.
- PatchTransaction.Commit: the same cases are excluded, by the conditions in `CommitOutcome`.
- PatchHistory.Session: the same.
- LspDocuments.Session.SyncDocument: says nothing after a failed send (the caller then invalidates the session) nor after 2^63 - 1 messages, where the saturating version stops rising.
- LspPoolRuns.PoolIsSound: tasks are not cancelled between their steps, and a close is one step.
- LspSanitizers.SanitizeItem: whether a symbol's own fields are acceptable is given; an error for a malformed location, which fails the whole result, is not modelled.
- AgentStartup.Coordinator.StartLocked: no request interleaves with it here; requests interleave in the state machine.
- AgentStartupRuns.NeverStuck: a caller that is cancelled while it holds the gate is not modelled.
- AgentStartupRuns.LaterCallerStartsAfresh: says that the caller calls the launcher before it is done, not that the launcher ever answers; the number of calls is bounded in the imperative model.
- InferenceContext.Engine.GenerateFormatted: prompt formatting, tokenising and sampling give arbitrary tokens; converting a token to text cannot fail; temperatures are reals or not finite.
- ApprovalLedger.LedgerIsSound: calls are serialised by the database lock, identities are fresh, and deleting a run with its rows is not modelled.
- ApprovalDatabase.Database.RequestApproval: step identity, reason text and decision times are not kept.
- RunawayAnswers.TagsAreFlagged: which characters are white space or control characters is given; only the characters of the tags are required to be kept.
- RepoContext.BuildRepositoryContext: reading one root is an arbitrary function of the root, so the files do not change while it runs.
- Plans of coding runs, output budgets, placement of the model, completion gates and risk tables: read off their branches.
- Call hierarchies, diagnostics and the per-language declaration guesses of the language-server client.
