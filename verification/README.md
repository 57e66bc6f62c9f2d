# Opale: the recovery logic, modelled and proved

Opale manages a fleet of machines: an agent written in Go runs on each of them, an API in
JavaScript holds the state of the fleet, a front end shows it. This project models the parts where a
crash, a failed write, a lost answer or an unlucky interleaving could leave two of them in
disagreement, and proves what they promise; and three pieces of string and graph code whose
correctness is not visible in any one of their functions.

## How the models are built

Each protocol is modelled twice. A *machine* (`LapsMachine`, `UpdateMachine`, `Delivery`,
`Migrations`, `ConsoleMachine`) is a state (memory, disk, server or database, files, local accounts,
threads) with one step per external effect. Whatever the outside answers is an event: a save may
fail, a POST may take effect and still report an error, a rename may fail, a process may stop between
any two effects. `Exec` runs a sequence of events, and the theorems quantify over all sequences.
A *class* (`LapsRotator.Rotator`, `UpdateAgent.Agent`, `Checkin.Agent`, `MigrationRunner.Runner`,
`ConsoleManager.Manager`) is the program, method by method and branch by branch as in the source,
on the fields the source updates. Its external calls answer anything the machine allows and append
the event to a ghost log; every method keeps the invariant that the log is a run of the machine that
ends in the current world, with the fields equal to the machine's memory. A skipped save, a swapped
assignment or a wrong branch breaks that invariant, so the theorems about the machine are theorems
about the program. What the programs decide by looking at their state (whether a rotation is due, whose an
account is, whether an offer is followed, what a failure leaves, which statement is refused) is stated from the
facts of that state in `LapsDecisions`, `LapsSafety`, `UpdateDecisions` and `SqlOrders`, without the predicates
of the machine, in both directions.

- **Password rotation** (`Laps*.dfy`). A password is escrowed on the server before it is applied, with
  the phases `prepared` and `escrowed` on disk. Whether server, machine and state file then agree is a
  matter of the last change of a password in the run: it is on record unless its outcome was uncertain or
  the agent crashed before a successful save. `ServerAgreesWithMachine` needs that and nothing of the
  changes before; `AgreementIffRecorded` shows that it is the exact condition, and
  `UnrecordedChangeBreaksAgreement` gives a run of three cycles for each of the two ways to miss it. The
  comment at laps.go:273-276, that a prepared stash means the machine still has the recorded password, is
  true under that condition only (`RecordInPlaceIffRecorded`).
- **Auto-update, rollback, tamper check** (`Update*.dfy`, `Semver.dfy`). `UpdateKept` says, of any run, which
  events memory and disk still show: one is *kept* unless a crash came before a successful save, and *stored*
  once such a save came before any crash. The main results are stated with that, for every run from an
  installation in which no rename that was to undo a failed step failed itself (`BrokenIffUndoFailed`):
  when the watch over a swapped image ends, which version and how many failures an open window carries, when
  a rollback starts (`UpdateOutcome`), which images binary and backup are (`UpdateImages`), and when a start
  raises the tamper alarm (`UpdateHash`). Four promises of the source turn out to need a condition, and each
  has a run that shows why. A swap whose save is lost with the process is not watched
  (`UnsavedSwapIsForgotten`; exactly: `WatchEndsIffConcluded`). The save at update.go:195 is not checked, so
  an image that had checked in with success may be watched again and rolled back
  (`ForgottenSuccessIsRolledBack`). If such a success and then the swap to a newer version are both not saved, the
  window that comes back carries the older version: a rollback of the newer one remembers the older one, and the
  newer one may be installed again at once (`OvertakenVersionIsRemembered`; exactly: `WindowVersion`). And the
  announced hash is trimmed where it is verified (update.go:78) and not where it is stored (update.go:120):
  `PaddedHashRaisesAlarm` is a run in which a verified binary raises the tamper alarm (exactly: `AlarmIff`).
  The flag `lost` of `Book`, which some of the other rows speak of, is set by what `LostIffLoss` says on events:
  the process ended after the binary or a needed backup changed and before the next successful save, or
  between two renames, or the restored file could not be hashed.
- **Delivery of results** (`Delivery.dfy`, `Checkin.dfy`, `Truncate.dfy`): an at-least-once queue, its
  batches, the cycle of follow-up check-ins, and the shortening of outputs between UTF-8 characters. A start that
  cannot read state.json goes on with an empty queue (state.go:76-90): `UnreadIsLost` is a run in which a saved
  result is lost that way, and `SavedWaitsIff` says exactly when one is.
- **The state file** (`StateFile.dfy`): the atomic write on a file system that may forget what was not
  synced.
- **Migrations** (`Migration*.dfy`, `Sql*.dfy`): any number of runners under an
  advisory lock, and the scanner that decides which files are refused.
- **Console sessions** (`Console*.dfy`): the registry under every interleaving of its goroutines. If an
  id is opened again while the pump of its old session has not come to its removal, that pump can end the
  new session: `ReusedIdEndsTheNewSession` is such a run, and `EndedByAnotherIff` says that this is the only
  way, and always a possible one.
- **Escaping for the browser** (`Escape.dfy`): `jsArg` survives both readers for every string; `esc` leaves
  to the HTML parser what the parser does to carriage returns and U+0000, so its text comes back exactly if
  it has neither. And the **module loader** (`ModuleLoader.dfy`).

`Prelude.dfy` holds optional values and the trimming and lower-casing that several parts share.

## Model

| member | source | states |
|---|---|---|
| LapsAlignment.ServerAgreesWithMachine | agent-go/laps.go:273-299 | over every run from a state at rest where server, machine and state file agree, whatever failed before, whose last change of a password is on record: with no stash pending, the row of the server, the password of the account and the recorded password are the same |
| LapsExact.AgreementIffRecorded | agent-go/laps.go:417-497 | over every such run without a legacy stash: with a record and no stash, the record, the server and the account changed last agree if and only if the last change was neither uncertain nor followed by a crash before a successful save |
| LapsExact.UnrecordedIsMissed | agent-go/laps.go:481-495 | while the last change is not on record its password is in place, the record has another one, and without a stash so has the server |
| LapsExact.RecordInPlaceIffRecorded | agent-go/laps.go:273-276 | at rest, whatever stash there is, over every such run: the account whose password was changed last has the recorded password if and only if that change is on record |
| LapsAlignment.RunKept | agent-go/laps.go:248-498 | every run from any coherent state keeps what the position in the cycle implies and the agreement of memory, disk, server and machine |
| LapsAlignment.LostIffUnrecorded | agent-go/laps.go:459-498 | memory lacks the last change exactly if the events show it uncertain or lost to a crash, and the disk exactly if it also was not saved yet |
| LapsAlignment.CoherentKept | agent-go/laps.go:248-498 | each single step, a crash included, keeps the agreement |
| LapsCounterexample.UnrecordedChangeBreaksAgreement | agent-go/laps.go:292-299 | two possible runs of three cycles, one without a crash and one without an uncertain outcome, that end at rest with server and machine on different passwords |
| LapsSafety.WrittenAhead | agent-go/laps.go:417-460 | over every run from a state at rest whose prepared stash was not applied: where a password is about to be applied, the server holds it, the disk says escrowed and it was never applied; what the disk calls prepared was never applied |
| LapsSafety.SettingHeals | agent-go/laps.go:459-485 | from any state at rest, misaligned ones included, a cycle that ends in ok or changed-partial leaves server, account and record equal, no stash, and after its save the disk too |
| LapsSafety.PasswordsWereAccepted | agent-go/laps.go:433-460 | over every run, each local password was there before or had been accepted by the server |
| LapsSafety.ForeignAccountsUntouched | agent-go/laps.go:513-555 | over every run, an account keeps its password and is never newly recorded if its name is sensitive, its SID is no local one, its RID is below 1000, or neither the recorded SIDs of memory and disk nor its trimmed description say it is the agent's |
| LapsSafety.LookDecides | agent-go/laps.go:386-399 | where the account is looked at, the rotation goes on exactly if the answer came, the name is allowed, and the account is absent or has a local SID, an RID of at least 1000 and is recorded or described as the agent's; otherwise a failure is counted and nothing else changes |
| LapsSafety.SetAccountIsOwn | agent-go/laps.go:462-468 | an account whose password was set is the agent's from then on: recorded, or created with the description where its SID was not printed |
| LapsDecisions.ActsIff | agent-go/laps.go:248-299 | without a legacy stash a cycle leaves rest exactly if it need not wait, there are accounts, and a stash is pending, no rotation was ever dated or the last one is thirty days old; it begins with the restoring POST for a prepared stash with a readable record, and else with the look at the account, or a counted failure if there is no name |
| LapsDecisions.AfterGivingBack | agent-go/laps.go:283-299 | accepted or not, the rotation follows in the same cycle; accepted, the stash is settled and saved first |
| LapsDecisions.LegacyDecides | agent-go/laps.go:307-328 | a legacy stash older than the last rotation is dropped, one that cannot be read or names nobody is dropped too, any other is sent |
| LapsDecisions.LegacyAnswered | agent-go/laps.go:329-351 | accepted, the stash becomes the record, dates the rotation and resets the backoff; refused for good, it is dropped; else it stays and a failure is counted |
| LapsDecisions.DroppedStashForces | agent-go/laps.go:257-271 | after a legacy stash was dropped unsent the rotation starts in the same cycle wherever there are accounts, due or not |
| LapsDecisions.PhaseSaved | agent-go/laps.go:441-457 | if the phase cannot be saved nothing is applied: the stash is prepared again, the recorded password goes back to the server if it can be read, else the failure is counted |
| LapsDecisions.NotSet | agent-go/laps.go:487-497 | an unchanged account sends the recorded password back where there is one that can be read; after an uncertain outcome nothing is sent or undone and the failure is counted |
| LapsDecisions.RestoreAnswered | agent-go/laps.go:452-457 | once the server has the recorded password again the stash is settled, and else it stays; the failure is counted either way |
| LapsDecisions.CycleOutcome | agent-go/laps.go:248-498 | over every cycle without a crash: one whose rotation, or sending of a legacy stash, ends well is dated and resets the backoff; any other keeps the date and counts one failure with its wait, unless there was nothing to do or only a stash to drop |
| LapsDecisions.DueRotationSucceeds | agent-go/laps.go:272-478 | from any state at rest without a legacy stash in which a cycle acts on an account it may set: if every answer is good, it ends with server, account and record on the new password, the account recorded, the rotation dated, no stash and no failure, all on disk |
| LapsSafety.BannedNamesNeverCreated | agent-go/laps.go:503-511 | over every run, no account with a sensitive name comes into being |
| LapsRate.BackoffIsCappedDoubling | agent-go/laps.go:594-604 | the first wait is 15 minutes, each further failure doubles it up to 24 hours, and it is 24 hours exactly from the eighth failure on |
| LapsRate.BackoffMonotone | agent-go/laps.go:594-604 | more failures never mean a shorter wait |
| LapsRate.LapsBackoff | agent-go/laps.go:595-604 | the loop that stops at the cap computes that capped power of two |
| LapsRate.CyclesArePaced | agent-go/laps.go:248-498 | over every run, a cycle makes at most three POSTs, and one that made any without success has armed the backoff |
| LapsRate.ArmedBackoffHolds | agent-go/laps.go:250-254 | an armed backoff turns away, before any effect, every cycle that begins before its deadline and none after it, nor one whose clock was set back so far that the deadline is over a day ahead |
| LapsScript.OutcomesAreExact | agent-go/laps_script.go:93-141 | the pairs of outcome and effect that the rotation must cope with are exactly those some script on some machine produces |
| LapsScript.ChangeHitsExpectedAccount | agent-go/laps_script.go:104-113 | a password changes only where no account existed (create) or on the account of the expected SID (update) |
| LapsScript.UncertainOnlyWhenCut | agent-go/laps_script.go:125-141 | uncertain is reported only of a script that was cut, and the password then changed exactly if the cut came after the set command |
| LapsScript.OkMeansAdministrator | agent-go/laps_script.go:114-120 | ok is reported exactly if the password was set, the account enabled and in the administrators' group |
| LapsRotator.Rotator.Run | agent-go/laps.go:248-300 | one cycle, whatever is answered: it ends at rest, its effects are a run of the machine and its fields the machine's memory, and it keeps coherence; when and how it acts is then what the rows of LapsDecisions say |
| LapsRotator.Rotator.FlushLegacyStash | agent-go/laps.go:307-351 | the stash of an old agent is dropped, sent or kept as the machine says; the result tells whether a forced rotation follows |
| LapsRotator.Rotator.RestoreCurrentEscrow | agent-go/laps.go:355-373 | nothing is sent unless a readable record exists; otherwise one POST, and the answer says whether it was accepted |
| LapsRotator.Rotator.Rotate | agent-go/laps.go:375-414 | a rotation from its first check to its end follows the machine |
| LapsRotator.Rotator.EscrowAndApply | agent-go/laps.go:432-460 | from the escrow on, disk phase before application, on success and on every error path |
| LapsRotator.Rotator.Conclude | agent-go/laps.go:468-498 | the four outcomes leave the memory the machine prescribes |
| LapsSafety.ManagedOnlyGrows | agent-go/laps.go:570-581 | over every run no SID is recorded twice, and what the disk records stays recorded in the same order |
| LapsSafety.AcceptedAcrossAnyRestart | agent-go/laps.go:433-460 | even if a crash brings back any state file whatsoever, each password in place was there at first or accepted by the server, and no account with a sensitive name was created |
| Semver.PrintedVersionsCompare | agent-go/update.go:285-306 | X.Y.Z versions within 64 bits, as printed, compare by major, then minor, then patch number |
| Semver.SemverGT | agent-go/update.go:285-297 | the loop decides that order, on any text, with 64-bit wrap-around |
| Semver.ParseVer | agent-go/update.go:299-306 | the first three dotted parts, missing ones read as 0 |
| Semver.AtoiSafe | agent-go/update.go:308-317 | the number of the leading digits, wrapped to 64 bits |
| Semver.MissingNumberIsZero | agent-go/update.go:299-306 | a printed version of two numbers has the three numbers of the one with .0 added |
| Semver.SuffixIsIgnored | agent-go/update.go:308-317 | a printed number is read back whatever follows its digits |
| UpdateWindow.InvKept | agent-go/update.go:32-258 | every step, a crash included, keeps the relation of the program's position, the four files, memory, disk and process |
| UpdateOutcome.WatchEndsIffConcluded | agent-go/update.go:113-197 | over every run whose undoing renames succeed: the watch over the last swapped image is closed in memory if and only if a check-in of a later process that was accepted, or the end of a rollback, is kept, or the process ended after the swap before any save and the file had no window open at the swap; then no failure is counted and no step of a rollback is taken |
| UpdateOutcome.WindowVersion | agent-go/update.go:117-222 | over every such run, an open window carries the version of the last swap, except that it is the one the file had at the swap exactly where the process ended after it before any save |
| UpdateOutcome.FailuresCounted | agent-go/update.go:199-200 | over every such run, the count in an open window is the number of failed check-ins of the new image that are kept, on top of the count of the file at the swap where the process ended after it before any save |
| UpdateOutcome.NoSwapNoWindow | agent-go/update.go:172-176 | over every such run without a swap, no window is open in memory or on disk |
| UpdateImages.FilesAreTheSwappedIff | agent-go/update.go:146-167 | over every such run, wherever there is a binary or a rollback is between its renames: binary and backup are the images of the last swap if and only if no rename or removal took the backup away since, and the backup is there exactly then |
| UpdateImages.WindowDescribesFilesIff | agent-go/update.go:113-122 | over every such run, while the window is open and the restored file not waiting to be hashed: binary and backup are these two images if and only if no removal or restoring rename of the backup since the swap was followed by the end of the process before a save |
| UpdateOutcome.RollbackIffTwoFailures | agent-go/update.go:199-215 | over every run whose undoing renames succeed: after a failed check-in was counted, the rollback is begun if and only if that count, as FailuresCounted gives it, is two or more; no conclusion of the watch is then kept, and the binary is the image running |
| UpdateOutcome.RollbackIsDeserved | agent-go/update.go:211-258 | over every such run, at every step of a rollback up to the hash: that count is two or more, no conclusion is kept, and until the last rename the image taken away is the one running |
| UpdateImages.RollbackPutsPrevious | agent-go/update.go:250-257 | over every such run, whatever crashed before: the last rename of a rollback finds the backup, puts back the image before the last swap, and leaves the swapped image as the failed one |
| UpdateImages.BackupFoundIff | agent-go/update.go:245-247 | over every such run, a rollback can find a backup if and only if none of the steps since the swap took it away |
| UpdateEvents.LostIffLoss | agent-go/update.go:117-122 | the two flags about the files are set exactly by a change of the binary, or of a backup that a window on disk needs, that is not saved yet, and by a crash before that save or between two renames or a file that could not be hashed, since the last swap or clean rollback |
| UpdateEvents.BrokenIffUndoFailed | agent-go/update.go:161-165 | the flag about renames is set exactly by an undoing rename that failed |
| UpdateSafety.OldImageDecidesNothing | agent-go/update.go:177-183 | over every run whose undoing renames succeed, a check-in made by a process older than the swap changes no state, file or count, whatever its outcome |
| UpdateSafety.BinaryIsThere | agent-go/update.go:157-166 | over every run, the binary is absent only between two renames, or for good after the process ended there or an undoing rename failed |
| UpdateSafety.RenamesHaveSources | agent-go/update.go:146-167 | over every run whose undoing renames succeed, no rename of a swap or a rollback lacks its source |
| UpdateHash.AlarmIff | agent-go/tamper.go:46-78 | over every run whose undoing renames succeed and that leaves a binary: the next start that can read it raises the alarm if and only if the hash put last among those stored has blanks around it or belongs to another binary than the one that starts |
| UpdateHash.AlarmOnlyAfterUnsavedChange | agent-go/update.go:113-120 | over every such run whose hashes were announced without blanks, an alarm means that a rename put another binary in place after the hash that is stored was put, and the hash put with it was not saved |
| UpdateSafety.AlarmIffPadded | agent-go/tamper.go:46-78 | after any run in which nothing was lost, a boot raises the alarm exactly if the stored hash has blanks around it |
| UpdateSafety.NoFalseAlarm | agent-go/tamper.go:65-67 | after any run in which nothing was lost and the hashes were announced without blanks, a boot raises no alarm |
| UpdateSafety.OnlyVerifiedImages | agent-go/update.go:76-93 | over every run, whichever renames, saves or restarts fail: each image present or running was installed at first, or announced with its own hash and a valid signature |
| UpdateDecisions.StartDecides | agent-go/tamper.go:46-78 | a start takes the state of the file; without a stored hash it puts and saves that of its binary, else it only compares, without case |
| UpdateDecisions.CheckinDecides | agent-go/update.go:172-200 | with a window open and no swap pending an accepted check-in closes the window and a failed one counts, and that is saved; otherwise a check-in changes nothing |
| UpdateDecisions.OfferDecides | agent-go/update.go:47-93 | an offer is followed exactly if no swap is pending, it is complete and newer, is not the version rolled back within 24 hours, and its binary has the announced hash and a signature |
| UpdateDecisions.SwapDecides | agent-go/update.go:113-124 | the swap opens the window of the offer with no failures, expects its hash and saves that; whether or not the save succeeds the process knows that it was replaced |
| UpdateDecisions.RollbackDecides | agent-go/update.go:221-238 | a rollback that restored its file remembers version and time, expects the hash of that file if it can be read, closes the window, and saves |
| UpdateSafety.RolledBackWaitsADay | agent-go/update.go:54-67 | after a saved rollback and until the next one, restarts or not, of the offers that are newer and authentic exactly those of that version within 24 hours are not followed; all others are, at once |
| UpdateTraces.RollbackRestoresPrevious | agent-go/update.go:211-239 | over every run whose undoing renames succeed: a rollback begun while no step has taken the backup away, and none of whose steps fails, ends with the previous image as the binary, its own hash expected, the window closed and its version remembered, all on disk; that version is the swapped one unless the process ended after the swap before any save |
| UpdateTraces.PaddedHashRaisesAlarm | agent-go/update.go:78-120 | a concrete run in which nothing fails, the hash is announced with a blank in front, and the new binary raises the alarm |
| UpdateTraces.UnsavedSwapIsForgotten | agent-go/update.go:117-122 | a concrete run in which the save after a swap fails and the new image then runs unwatched, with an alarm |
| UpdateTraces.ForgottenSuccessIsRolledBack | agent-go/update.go:192-200 | a concrete run in which the new image checks in with success, the save after that fails, the process restarts, and two failures then start a rollback |
| UpdateTraces.OvertakenVersionIsRemembered | agent-go/update.go:211-223 | a concrete run in which neither the success of 2.0.0 nor the swap to 3.0.0 is saved: after a restart and two failures 2.0.0 is the binary again and the version remembered, and an offer of 3.0.0 is not held back |
| UpdateAgent.Agent.HandleAgentUpdate | agent-go/update.go:32-130 | nothing happens, without an error, exactly if there is no proposal, a swap is pending, or a complete proposal is not newer or is the version rolled back less than a day ago; an incomplete one is an error; any other is installed, unless the download failed, its hash or signature does not match or a file step failed, which is an error; it follows the machine to rest |
| UpdateAgent.Agent.AtomicReplace | agent-go/update.go:146-167 | success puts the new image in place; on error the process and its memory are as before |
| UpdateAgent.Agent.CheckRollback | agent-go/update.go:172-240 | follows the machine from the check-in to its end, rollback included |
| UpdateAgent.Agent.Rollback | agent-go/update.go:242-258 | an error leaves the process at rest, success leads to the hashing of the restored file |
| UpdateAgent.Agent.CheckBinaryIntegrity | agent-go/tamper.go:46-78 | the alarm is raised exactly if the binary could be read, a hash is stored and the two differ; the stored hash changes only where there was none |
| Delivery.SavedNeverLost | agent-go/checkin.go:44-51 | over every run with crashes, failed saves, lost and late messages in which each start could read state.json: a saved result is with the server, or waits in memory and on disk |
| Delivery.SavedWaitsIff | agent-go/state.go:76-90 | over every run: a result in memory at a save is later with the server, or it is in memory exactly if no start that could not read the file came since that was followed by a save or not yet by a start that could, and on disk exactly if none was followed by a save before such a start |
| Delivery.UnreadIsLost | agent-go/state.go:76-90 | a concrete run in which a start cannot read the file, the next save overwrites it, and a saved result is nowhere any more |
| Delivery.AcceptedInOrder | agent-go/checkin.go:178-187 | over every run in which each start could read state.json, at every moment: a saved result older than one the server has is with the server too |
| Delivery.AckRemovesWhatWasSent | agent-go/checkin.go:184-194 | an acknowledgement removes exactly the batch that was sent, all of it with the server, although results were queued since |
| Delivery.EachAckShortens | agent-go/checkin.go:98-98 | in every run between restarts whose requests are not empty, the queue is shorter by one result at least for each accepted request, new results counted |
| Delivery.QueueDrains | agent-go/checkin.go:149-152 | from any reachable state between requests, accepted check-ins that each send a non-empty head of the queue empty it in at most as many rounds as it has results, and the server then has every one of them; every result saved so far if each start could read state.json |
| Checkin.FitsIsLongest | agent-go/checkin.go:157-170 | no longer head of the queue fits the budget, and only one length does |
| Checkin.Agent.PendingDeploymentBatch | agent-go/checkin.go:157-170 | the loop returns shortened copies of the longest head that fits, or of one result |
| Checkin.Agent.DoCheckin | agent-go/checkin.go:52-100 | fails exactly if the metrics cannot be collected or the server does not accept; nothing leaves the queues unless the server accepted, then exactly the batch, which the server has |
| Checkin.Agent.QueueDeployment | agent-go/loop.go:148-156 | the shortened result joins the end of the queue, and a save follows at once |
| Checkin.Agent.ProcessCheckinJobs | agent-go/loop.go:125-175 | all deployments of the response run unless there is a stop, each result is queued in order and saved at once; the detections asked for run, and what was detected up to a stop is queued in order; the count returned is that of the deployments |
| Checkin.Agent.RunCheckin | agent-go/loop.go:29-108 | a cycle makes at most 11 check-ins and 11 batches and processes every accepted response once and in order; another check-in follows a batch exactly if it ran a deployment and was not the eleventh; the update comes last, exactly if the last response processed has one, and is followed or put off with the window; a stop may end the cycle anywhere; every result and acknowledgement is followed at once by a save |
| Checkin.Agent.Recheckin | agent-go/loop.go:112-120 | its response is the one accepted response not processed yet |
| Truncate.TruncateMiddle | agent-go/checkin.go:199-214 | for every limit, negative ones included: the specified beginning, marker and end, or no result exactly where the text is too long and the limit more than a byte short of the marker |
| Truncate.TruncatedFits | agent-go/checkin.go:196-202 | the result is within the limit exactly if the text was or the marker is, and shortening twice is shortening once |
| Truncate.TruncatedValid | agent-go/checkin.go:204-212 | valid UTF-8 stays valid UTF-8 |
| Truncate.TruncatedKeepsEnds | agent-go/checkin.go:196-213 | beginning and end are each the longest within half the room beside the marker that is cut where a character starts; of a valid text at most three bytes short of it |
| Truncate.CutBetweenCharacters | agent-go/checkin.go:206-212 | a valid text cut where a character starts is two valid texts |
| Truncate.EncodedOutputBounded | agent-go/checkin.go:143-152 | encoded in JSON, a shortened output takes at most six times the limit, whatever its bytes |
| StateFile.Disk.WriteFileAtomic | agent-go/state.go:116-152 | at every crash point and on every error path the target holds the complete old or the complete new contents; an error means the old ones; once the directory is synced a crash leaves the new ones; it fails exactly if creating, writing, syncing or closing the temporary file fails, or its mode except on Windows, or the rename five times |
| StateFile.Disk.RenameWithRetry | agent-go/state.go:157-166 | at most five attempts, up to the first that succeeds: one rename, or nothing changed after five |
| StateFile.ContentsAreComplete | agent-go/state.go:109-116 | after any number of writes, finished or not, and crashes, a reader finds and a crash leaves the first contents or the complete contents of one of the writes |
| StateFile.DurableCutsOff | agent-go/state.go:145-150 | after a write whose directory was synced only its contents and later ones can be found |
| StateFile.RenameReplaces | agent-go/state.go:141-144 | renaming a complete, synced file replaces the target for readers and after a crash, with nothing in between |
| StateFile.BesideUntouched | agent-go/state.go:117-140 | no step on another file changes what the target holds or may hold after a crash |
| Migrations.RunsExactlyOnce | api/lib/migrations.js:223-246 | any number of runners, crashes, failures and lost answers: recorded entries never change, every committed transactional file is recorded with its checksum, none twice, and everything recorded ran |
| Migrations.CommittedIsRecorded | api/lib/migrations.js:226-233 | with transactional files, the names committed are the names recorded |
| Migrations.RecordedNeverReplayed | api/lib/migrations.js:190-201 | a step executes at most one file, unrecorded, of the runner that holds the lock |
| Migrations.CommittedInOrder | api/lib/migrations.js:201-246 | the runner at work has committed the head of its sorted pending files, and nobody anything else |
| Migrations.RefusedBeforeAnything | api/lib/migrations.js:203-213 | a run stops at the reading of the history, with nothing executed, exactly if a pending file has an order of transaction control |
| Migrations.FinishedMeansRecorded | api/lib/migrations.js:248-276 | a run that ended well leaves all its files recorded, then and ever after |
| Migrations.PendingFiles | api/lib/migrations.js:201-201 | the pending files are those without history, in order |
| MigrationRunner.Runner.RunMigrations | api/lib/migrations.js:256-283 | a whole run beside others keeps exactly-once, ends finished, and on success all its files are recorded; it fails only if a query of its own failed or lost its answer, or a file that is not recorded has an order of transaction control |
| MigrationRunner.Runner.ApplyPending | api/lib/migrations.js:167-249 | under the lock, success applies the pending files of the history at the start, all of them and in order; it fails if one of these has an order of transaction control, with the database as it was, and else only if a query failed |
| MigrationRunner.Runner.ApplyInTransaction | api/lib/migrations.js:226-233 | the file is executed and recorded, or the database is as before; on success both are done, and on failure only if the answer to the commit was lost |
| MigrationRunner.ListMigrationFiles | api/lib/migrations.js:142-150 | exactly the files with the name of a migration, sorted whatever the order of the listing; transactional exactly without the directive, and refused for what the plain parts of their text say |
| Migrations.LessIsByFirstDifference | api/lib/migrations.js:143-143 | one name comes before another exactly if it is a proper beginning of it or has the smaller character where they first differ |
| MigrationNames.MigrationNameIff | api/lib/migrations.js:46-46 | the name of a migration is a number, an underscore, any text on one line, and .sql |
| MigrationNames.SmallerNumberFirst | api/lib/migrations.js:143-143 | of two names whose numbers have the same count of digits the one with the smaller number comes first, and not the other way round |
| MigrationNames.SortedByNumber | api/lib/migrations.js:143-143 | in a sorted list files numbered with the same count of digits are in the order of their numbers |
| SqlLexer.TopLevelSql | api/lib/migrations.js:82-126 | the output is the mask of the one reading of the text as tokens, never longer than the text; for a text printed from well-separated pieces it is the plain pieces with a blank for each comment, string or body and nothing for line comments |
| SqlGrammar.ReadingUnique | api/lib/migrations.js:85-124 | a text has at most one reading as plain text, comments, strings and dollar bodies |
| SqlLexer.FindTransactionControl | api/lib/migrations.js:130-136 | the first statement of the mask that starts with an order of transaction control, or none: it depends on the plain pieces of a printed text only |
| SqlPrinting.PrintedIsReadBack | api/lib/migrations.js:85-124 | every text printed from well-separated pieces (plain text, comments, strings, E strings, names, dollar bodies) is read back as those pieces |
| SqlPrinting.PrintedMask | api/lib/migrations.js:80-81 | any reading of a printed text leaves its plain pieces and the blanks |
| SqlLexer.FirstOrderOf | api/lib/migrations.js:131-135 | the split at semicolons finds the first such statement |
| SqlOrders.StatementOrderIff | api/lib/migrations.js:132-133 | a statement starts with an order exactly if it is white space, then BEGIN, COMMIT, END, ROLLBACK, ABORT or START and TRANSACTION with white space between, in any case, then no letter, digit or underscore; and the order found is that text |
| SqlOrders.DirectiveIff | api/lib/migrations.js:72-75 | a line is the directive exactly if it is two hyphens and opale:no-transaction, with nothing but white space before, between and after |
| SqlOrders.HeaderLineIff | api/lib/migrations.js:72-74 | a line is a comment exactly if two hyphens come after white space, and blank exactly if it is white space |
| SqlLexer.IsNoTransaction | api/lib/migrations.js:70-78 | true exactly if the directive stands alone on a line with only blank and comment lines above |
| SqlLexer.SkipString | api/lib/migrations.js:98-112 | the loop ends where the string does, escapes and doubled quotes included, or at the end of the text |
| SqlPrinting.PrintedStringIsOneToken | api/lib/migrations.js:98-112 | a printed string, E string or quoted name is one token wherever it stands, if the text does not go on with the quote |
| SqlPrinting.PrintedCommentIsOneToken | api/lib/migrations.js:92-97 | a printed block comment is one token |
| SqlPrinting.PrintedLineIsOneToken | api/lib/migrations.js:87-91 | a printed line comment is one token, its line end excluded |
| SqlPrinting.PrintedBodyIsOneToken | api/lib/migrations.js:113-121 | a printed dollar body is one token, for tags of at most 62 characters |
| SqlLexer.LinesRejoin | api/lib/migrations.js:71-71 | cutting in lines loses nothing |
| Escape.JsArgRoundTrip | front/escape.js:35-37 | for every string of UTF-16 units, jsArg's output, with line ends normalised and decoded as an HTML attribute and then read as a string literal, gives the string back |
| Escape.JsArgIsSafe | front/escape.js:26-32 | the output has no quote, angle bracket, line separator or unit below U+0020, and each & starts the reference of the quote |
| Escape.EscRoundTrip | front/escape.js:11-14 | in an attribute the HTML parser gives back what esc was given with line ends as LF and U+0000 replaced; hence the string itself exactly if it has neither CR nor U+0000 |
| Escape.EscIsSafe | front/escape.js:11-14 | the output has no quote of either kind and no angle bracket, and each & begins one of the five references |
| Escape.EscIsUnitwise | front/escape.js:11-14 | the five replacements in that order are one replacement, unit by unit |
| Escape.EscInHandlerIffPlain | front/escape.js:7-10 | between quotes in an inline handler the script reads the string back exactly if it has no delimiter, backslash, line end or U+0000 |
| ModuleLoader.TopoSort.Sort | api/lib/module-loader.js:93-113 | with closed dependencies: a permutation of the modules with dependencies first, or a module on a cycle; an error exactly if there is a cycle |
| ModuleLoader.TopoSort.Visit | api/lib/module-loader.js:98-109 | the depth-first step terminates, keeps the order and names a module on a cycle if it fails |
| ModuleLoader.OrderedMeansAcyclic | api/lib/module-loader.js:93-113 | a list with dependencies first excludes every cycle |
| ModuleLoader.CheckDependencies | api/lib/module-loader.js:32-41 | succeeds exactly if every required module is enabled, and else names a pair that is not |
| ModuleLoader.LoadModules | api/lib/module-loader.js:12-52 | succeeds exactly if core is enabled, dependencies are and none is cyclic; modules are then registered each once, dependencies first; an error names core exactly if it is off, else a required module that is off, or a module on a cycle where all required ones are on |
| ConsoleRegistry.InvKept | agent-go/console.go:96-243 | every step of every thread keeps the registry's invariants |
| ConsoleSafety.EverySessionAccounted | agent-go/console.go:213-228 | in every interleaving a registered session is in the map, or about to be closed by exactly one thread, or was closed once, and never two of these |
| ConsoleSafety.AfterCloseAllNothingIsOpen | agent-go/console.go:233-243 | once closeAll is over the map is empty for good and each session was closed once or is being closed by a pump |
| ConsoleSafety.CloseAllEnds | agent-go/console.go:240-242 | whatever the pumps do, closeAll takes at most three steps a session and can always take the next |
| ConsoleSafety.EndedByAnotherIff | agent-go/console.go:152-160 | in every reachable state, a listed session can come to be ended by another pump if and only if a pump of the same id has not come to its removal yet |
| ConsoleSafety.EndsOfASession | agent-go/console.go:150-160 | if no id is opened twice, a session leaves the map only after its own shell's end, its own close frame, or closeAll |
| ConsoleSafety.OnlyReuseEndsAnother | agent-go/console.go:213-218 | a pump can only end a session opened no earlier than its own under the same id |
| ConsoleSafety.ReusedIdEndsTheNewSession | agent-go/console.go:152-160 | a concrete interleaving in which the pump of a closed session ends the new one of the same id |
| ConsoleManager.Manager.OpenSession | agent-go/console.go:96-133 | a session is registered under a new pseudo-terminal unless its id is in use or none could be spawned, and each earlier one is still in the map or was taken out of it by a removal, while pumps go on |
| ConsoleManager.Manager.RemoveSession | agent-go/console.go:213-228 | takes out the session that has the id now, if any, and closes it once; every session of that id is then out of the map |
| ConsoleManager.Manager.CloseAll | agent-go/console.go:233-243 | leaves the map empty, whatever the pumps remove meanwhile |
| ConsoleManager.Manager.PumpPTY | agent-go/console.go:136-162 | ends by a failed write, or with its session out of the map |

## Left out

- Cryptography: RSA-OAEP, SHA-256, ed25519 and base64 are injective functions or given answers; a ciphertext is its password, an image has one hash.
- HTTP, WebSocket framing, PowerShell, service managers and collectors: only their possible answers are kept.
- The routes of the server: an escrow row that holds the last credential received, and a store of results that ignores duplicates.
- A POST of the rotation takes effect before it returns or never; one that arrives later is modelled for results only.
- LapsExact.AgreementIffRecorded: speaks of runs that start without a legacy stash and whose record is of a password applied before; with a legacy stash LapsAlignment.ServerAgreesWithMachine has the direction that matters.
- LapsSafety.SettingHeals: speaks of a cycle that reaches the application of a password; whether the server ever answers is not modelled.
- LapsSafety.PasswordsWereAccepted: passwords put in place by an agent older than 2.15 count as there before.
- `force` in `run` (laps.go:257-264) is not persisted, so nothing is claimed about a forced rotation after a restart.
- Nobody else changes local accounts during a run; SIDs are compared as values and their text is not parsed (laps.go:558-568, laps_script.go:143-152).
- The SID that the apply script prints, and `parseLAPSLookup`: line handling that adds easy members only.
- A save that reports success is durable in the protocols. `StateFile` shows that this needs the sync of the directory, which the source tries without checking it and which does nothing on Windows (state.go:145-150). What is said of passwords from any state at rest survives such a save being undone (LapsSafety.AcceptedAcrossAnyRestart, SettingHeals, CyclesArePaced); the agreement of server and machine, the phase on disk, the window of an update and the counting of its failures do not.
- White space that `Trim` removes and letters that `Lower` changes are the ASCII ones, and names are sorted by Unicode scalar value: other characters and surrogate pairs are not compared as the sources do.
- A state.json that cannot be read or parsed counts as empty at the next start (state.go:76-90). `Delivery` has such starts as events. For passwords the results from any state file hold (LapsSafety.AcceptedAcrossAnyRestart, SettingHeals, CyclesArePaced); the rest of the rotation and all of the update are stated for starts that read the file.
- Delivery.AcceptedInOrder: speaks of runs whose starts can all read state.json; after one that cannot, newer results overtake those on disk.
- The clock is an input of each step; the two readings of it in an update (update.go:55, 117) are one.
- UpdateSafety.OnlyVerifiedImages: the .new is written whole or not at all in the model; update.go:102 does not sync it, so a power cut after the renames can leave a truncated binary.
- UpdateSafety.RolledBackWaitsADay: holds for the last version rolled back, since only one is remembered (update.go:222-223), and if the save that ends the rollback succeeds.
- The maintenance window, the rotation of tokens, the refresh of the configuration and the posting of command results inside a check-in cycle.
- The encoded size of a whole result, with its other members, is any function of it.
- Checkin.Agent.ProcessCheckinJobs: what a command or an installer does is not modelled, only that each deployment yields one result.
- Files of migrations that opt out of transactions may be executed again after a failure; they are only known to have run if recorded.
- What PostgreSQL reads differently from the scanner: nested block comments, `$` inside identifiers, other string prefixes.
- The warnings about edited files and about databases without history (migrations.js:172-221).
- Escape: the HTML parser is that of a quoted attribute value; in the text of an element U+0000 is dropped instead. The literal reader takes no braced Unicode escape and no octal escape, which jsArg never writes; named references are any table in which the one concerned is known and no longer name starts with it.
- ModuleLoader: a dependency named like a member of Object.prototype passes the source's check (module-loader.js:34); in the model it is missing.
- The import of a module's file and its own `register` in the loader, and the stopping of workers.
- Input, resizing, messages and toasts of the console, and the cancelling of a pump's context: they do not touch the registry.
- ConsoleManager.Manager.PumpPTY: reads some number of chunks before the end of the shell; Dafny has no threads, so the steps of the other goroutines are taken between the critical sections of the one modelled.
- Views, themes, translations, command lines, the demonstration server, installers.
