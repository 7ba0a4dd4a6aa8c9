# A Dafny model of Sanctum's backup, restore, authorization, job and helper core

Sanctum backs storage devices up, erases and restores them, and proves afterwards what it did.
This project models the parts of it whose correctness is hard to see from any one function, and
proves what they promise for every input, every device behaviour and every interleaving.

**Backup and restore** (`Digests`, `Runs`, `Backup`, `RestorePlanning`, `RestoreTally`,
`BlockTargets`, `RestoreForecast`, `RestoreEngine`, `RestoreAccount`, `RestoreRun`,
`RestoreWitnesses`, `RestoreEndToEnd`). An image is hashed while it streams in, in chunks; a plan
is derived from the sealed record; the engine writes the plan onto a target that may take a write
in full, take part of it, take nothing or fail, while the image file may change between two reads
and the caller may close the run at any yield. The target is a class over a byte array whose
answers come from an arbitrary script, so a statement about every script is a statement about
every target: a failed write changes nothing, a short one only the prefix it counts.
`RestoreForecast` tells from the target's answers alone - no disk, no bytes, no tally - which
calls a run makes, what it writes, refuses and tears and where it stops; every run is proved to go
as it says. A digest is a term built from its message, which makes SHA-256 (FIPS 180-4, section
6.2) an injective function and nothing more.

**Authorization** (`Workflow`, `AuthorizationBinding`, `Gates`, `AuthorizationProtocol`,
`GateSteps`). The gate of the API process and the write seams of the helper process are methods
over one directory of records and exclusive-create markers. Above them any number of API and
helper requests run as interleaved atomic steps, in an environment that changes devices, images
and approvals; a request that nobody interrupts is proved to end as the gates' own methods do.

**Jobs** (`Jobs`, `JobHub`, `JobBuffer`, `JobProtocol`, `JobHistory`, `JobWitness`). Each job has
a worker, subscribers that join and leave at any time, and cancellers; they share a bounded replay
buffer, one lock, and a ledger that outlives the process. Worker steps that take no lock
interleave with the locked sections of the others.

**Helper stream** (`HelperFrames`, `HelperCodec`, `HelperStream`, `HelperTransports`,
`HelperConnection`). One streamed operation as frames on a byte stream, cut into pieces
arbitrarily, with heartbeats from a second thread between any two of them, against the same
operation run in this process. It is JSON-RPC 2.0 (section 5, Response object) with non-terminal
frames added. JSON text is an inverse pair whose output holds no raw newline (RFC 8259, section
7); `HelperCodec` shows that such a pair exists, with cancel frames no proper part of which is
one.

**Device write and fragment plant** (`MediaWrite`, `FragmentPlant`, `PlantedRuns`). A write whose
backup must undo it although the files involved change underneath, and a fill-and-free sequence
that must force a first-fit allocator to lay one file down in exactly two runs.

## What turned out not to hold

These are properties the program's text promises and its code does not keep; the code is modelled
as it is. Each has its exact condition, for all inputs, and an input that meets the failing case.

- The note of a stopped write says that nothing was written and the target refused every write, or
  that the rest of the range holds what it held before. `RestoreRun.ExecuteRestore` and
  `RestoreAccount.StopNoteOfWrite` show that the whole sentence - of the calls and of the disk - is
  true exactly unless the write was stopped by an answer that is neither a refusal nor whole: a
  positive count on a sector of the fallback, or any count at all when nothing had been written.
  That is a condition on the target's answers (`RestoreAccount.NoteTrue` of
  `RestoreForecast.Forecast`). Two readings of it: without an answer strictly between nothing and
  a sector no sector is torn (`RestoreAccount.NoShortCountNoTear`), and without any count below a
  sector every note is true (`RestoreAccount.WholeOrRefusedIsTold`).
  `RestoreWitnesses.TornFirstSector` is a whole run whose note is false: its one sector is refused
  as part of the whole write and then taken short when it is tried alone, over a disk that changes
  by it and over one that held the image already.
- The note of a cancelled read-back says that the full range was written. It is true exactly when
  the forecast refuses nothing (`RestoreRun.ExecuteRestore`, `RestoreAccount.StopNoteOfReadBack`);
  `RestoreWitnesses.ReadBackAfterRefusal` is a whole run where an offset was never taken.
- The documented run of the workflow starts at DISCOVERED and passes PREFLIGHT. No facts derive
  PREFLIGHT, so a job that starts at DISCOVERED never leaves DISCOVERED and BLOCKED
  (`Workflow.DiscoveredNeverLeaves`). The gates are therefore stated over what `derive` and the
  last `advance` do.
- A backup whose image cannot be read passes verification exactly when its record is intact and
  claims a size of -1 and no hash (`Backup.VerifyBackup`); `Backup.UnreadableImagePasses` is such
  a record.
- A subscriber drops a record that is behind the last one it replayed, as a duplicate. One that
  reads to the end is given one unbroken stretch of the records exactly when none published after
  it joined is behind the last one before (`JobProtocol.NothingIsLostIff`);
  `JobWitness.LosesARecord` is a run that loses one.
- The two transports report the same kind of end exactly for ends the stream carries: a handler
  that returns nothing, or raises a class neither transport converts, ends the socket's stream with
  a closed connection (`HelperTransports.WholeStreamSays`, `HelperTransports.Converse`; both cases
  in `HelperTransports.LostEnd`). Word for word they agree only on results and on the program's own
  exceptions with a message: the built-in ones name a different log, and an empty message is
  replaced.
- The poll between two records is to be true when the client sent a cancel frame or closed. It
  forgets what it received, so a client that sends the frame and closes is stopped for at the poll
  that receives the frame whole, as the first bytes of all, and otherwise not before the poll that
  finds it gone (`HelperStream.CancelIsSeenIff`); a frame cut anywhere inside is never seen
  (`HelperStream.SplitCancelIsMissed`).
- The id pattern's `$` also accepts an id with one newline after it, and nothing else that is no id
  (`AuthorizationBinding.AcceptedIds`, `AuthorizationBinding.NewlineAccepted`).

## Model

| member | source | states |
|---|---|---|
| Digests.ChunkCount | core/backup.py:252-279 | The chunk list of a file has as many entries as its length divided by the chunk size, rounded up. |
| Digests.ChunksDetermineFile | core/backup.py:265-279 | Two files whose chunk hashes agree at one chunk size are the same file. |
| Backup.AbsorbRead | core/backup.py:265-275 | Dealing one read into the open chunk changes nothing about the hashes of the whole file cut into chunks, wherever the read boundary falls. |
| Backup.CreateBackupRecord | core/backup.py:231-309 | For every chunk size and every split into reads the record's chunk hashes are those of the file cut into chunks, its whole hash the file's, its digest sealed; refused exactly when the chunk size is not positive, the image is no file, or it changed while it was hashed. |
| Backup.DescribesOneImage | core/backup.py:291-303 | One record's chunk hashes fit one image only. |
| Backup.CompareChunks | core/backup.py:433-460 | The mismatch list is ascending and names exactly the pieces read that differ or lie past the record; the first mismatch is the least of them, its offset is where its bytes lie in the image, and its hash is theirs. |
| Backup.VerifyBackup | core/backup.py:407-494 | `passed` holds exactly when the record is intact, size and whole hash match and no chunk differs; for the record of an image, read in full, exactly when the image is that one; when it cannot be read, exactly when the record claims -1 and no hash. The first mismatch names the image's own bytes. |
| Backup.UnreadableImagePasses | core/backup.py:425-464 | An intact record that passes although its image cannot be read. |
| Backup.VerificationExact | core/backup.py:462-464 | For a record made from an image, size, hash and chunks all match exactly when the image is the recorded one. |
| RestorePlanning.PlanRestore | core/restore.py:429-506 | A plan exists exactly for an intact record, is sealed, covers the image from offset 0, and lists no blocking reason only if the image is not empty and fits the target. |
| RestorePlanning.BlockedExactly | core/restore.py:442-474 | No blocking reason exactly when the target is no system disk, not mounted, large enough for an image that is not empty, names a serial or stable id, is not the image file and takes the chunk size in both sector sizes; the sector named is the first that does not divide it. |
| RestorePlanning.ConfirmedBy | core/restore.py:353-355 | What confirms a target is its serial, and its stable id only when it reports none. |
| RestorePlanning.RelatedBy | core/restore.py:397-426 | The same device exactly on equal stable ids or on equal serial, model and size; a different one exactly when both report serials and one of those differs. |
| RestorePlanning.PlanTells | core/restore.py:476-506 | The plan names the record's backup, image and source, its end, the tail it leaves alone with a limitation exactly when there is one, every limitation of the record, and the least number of seconds the image takes at the rate. |
| RestorePlanning.ExecutableReasons | core/restore.py:509-524 | The engine accepts a plan exactly when it is unblocked and its digest holds. |
| RestorePlanning.DriftEmptyIff | core/restore.py:527-557 | No drift exactly when all thirteen bound fields of target, relation, record and range agree and the fresh plan is unblocked. |
| RestorePlanning.DriftFreePlanFits | core/restore.py:547-557 | An approved plan without drift writes inside the freshly read target, and runs unless it lists a blocking reason itself. |
| Runs.CoalesceExact | scripts/hardware_validation.py:917-930 | Extending the last run in place keeps exactly the positions collected, with no run empty and none continuing the one before. |
| Runs.MergedUnique | scripts/hardware_validation.py:917-930 | Merged runs are determined by the positions they stand for. |
| Runs.CoalesceIgnoresCuts | scripts/hardware_validation.py:917-930 | Where the pieces were cut does not matter to the runs collected. |
| Runs.CoalesceAscending | core/restore.py:645-657 | Ranges collected from ascending refusals are ascending and disjoint. |
| RestoreTally.Tally.Refused | core/restore.py:645-658 | A refusal adds its bytes to the refused set, the count and the run, and the log stays the replay of all refusals. |
| RestoreTally.Tally.Wrote | core/restore.py:708-710 | An accepted write adds its bytes and ends the run of refusals. |
| RestoreTally.Tally.BadInRange | core/restore.py:623-668 | The refused offsets lie inside what is accounted for, are as many as counted, and the last `run` of them end it. |
| RestoreTally.LogExact | core/restore.py:645-663 | The log holds exactly the merged ranges of the longest prefix of the refusals that fits the cap; every later refusal is omitted and counted. |
| RestoreTally.LogShape | core/restore.py:645-663 | Recorded spans are ascending, disjoint, not mergeable, at most the cap, and with the omitted bytes make up all refused bytes. |
| BlockTargets.BlockTarget.WriteAt | core/restore.py:136-155 | A write changes the prefix it counts and nothing else; a failed one changes nothing. |
| BlockTargets.BlockTarget.ReadAt | core/restore.py:149 | A read returns what the disk holds, possibly less than was asked for. |
| RestoreForecast.AttemptSettles | core/restore.py:822-873 | Once a write has stopped, or all bytes are accounted for, further chunks change nothing: the forecast is well defined. |
| RestoreForecast.WillingIsWrittenInFull | core/restore.py:683-710 | A target that takes something of every write, however little, is written in full: every byte, nothing refused. |
| RestoreForecast.UnwillingIsNotWritten | core/restore.py:711-742 | A target that refuses every write is never written to and never stalls or tears. |
| RestoreForecast.NoCountNoTear | core/restore.py:734-739 | A sector is taken short by no more than the largest count below a sector among the answers, and a write stalls only if some answer takes nothing. |
| RestoreForecast.NeverGivenUpOn | core/restore.py:711-742 | A target that refuses fewer than `m` of any `m` answers in a row, where m - 1 sectors do not pass the limit, is never given up on. |
| RestoreEngine.WriteFully | core/restore.py:683-742 | For every target: a normal return accounts for exactly the data, the bytes counted as written hold it, the refused ones kept theirs; it gives up exactly when the run of refusals passes the limit, which it reports, and stops otherwise only at an answer of nothing or a short sector; each call is handed all that is left until one is refused, then one sector of the target; it goes as the target's answers foretell. |
| RestoreEngine.WriteSectors | core/restore.py:711-742 | The same of the fallback, sector by sector: while it goes on no stretch of refused offsets passes the limit; a short sector stops it with what landed uncounted. |
| RestoreEngine.WriteSector | core/restore.py:716-742 | One sector is written, recorded as refused, or torn; it is given up exactly when the run of refusals is then above the limit, and the stop names that run. |
| RestoreEngine.ChunkVouched | core/restore.py:829-853 | A piece whose hash is the recorded one for its index is the piece of the image the record vouches for, and the record has such an entry. |
| RestoreEngine.EveryRecordVouches | core/restore.py:836-853 | For every record with a size and a chunk size, whatever its chunk hashes are of, there is an image whose pieces are all that can match them. |
| RestoreEngine.CopyChunk | core/restore.py:828-858 | Whatever the image file answers, every byte handed to the target for a position is the hashed image's byte at it. |
| RestoreEngine.NextChunk | core/restore.py:828-858 | From one chunk to the next everything holds on: what is vouched for, accounted for, on the disk, and foretold by the answers. |
| RestoreEngine.Log | core/restore.py:859-872 | Checkpoint i is due - it names a range of at least i + 1 intervals - and true: its counts are the written and the refused bytes of that range; after it the next is not due yet, or the last already names all that is accounted for. |
| RestoreEngine.WriteRange | core/restore.py:822-890 | Through the whole range: the vouched bytes only, exact accounting, ordered checkpoints, all as foretold by the target's answers; with an unchanged file only a stopped write, a close or a failed flush keep it from being complete. |
| RestoreRun.AdmitsIff | core/restore.py:764-810 | The engine starts exactly when record and plan are sealed and belong together, the plan is executable, sizes and sectors fit and the image has its size. |
| RestoreRun.AdmittedPlanIsFor | core/restore.py:764-771 | A plan made for some intact record and admitted for this one was made for this one. |
| RestoreRun.ReadChunk | core/restore.py:944-998 | A chunk read back is what the disk holds there, or nothing when it cannot be read. |
| RestoreRun.VerifyRestored | core/restore.py:944-998 | On every target, whatever its reads answer: the mismatches are exactly the chunks that read back differently from the recorded hash, the unreadable ones exactly those whose read failed, `passed` exactly none of either with whole hash and size right. No mismatch means the range holds the image; on a target that reads back, `passed` for the image's own record holds exactly when the range is the image. The first mismatch is the least, with its true offset, the recorded hash and, read back, the disk's. |
| RestoreRun.LogRead | core/restore.py:898-941 | Read off the ledger: start, then checkpoints only, then by how the run ended a complete entry with the result's own numbers and, after a read-back, its own verdict; or where it was cancelled or aborted, with the numbers of the account. |
| RestoreRun.ExecuteRestore | core/restore.py:745-941 | A run that does not start touches nothing, whichever record the plan is for; one that does leaves a true account and goes as the target's answers foretell, whether or not the record's hashes are of an image; the ledger, read entry by entry, holds the start, true checkpoints, none missing, then the end with its own numbers and the read-back's own verdict; it is given up exactly when more than the limit in a row were refused, and then the last of them are; the stop notes are true exactly on the stated forecasts; with a patient caller and the record's own unchanged image it is aborted exactly when the forecast stops or the flush fails; a verified run left exactly the image and the rest untouched; a target that takes something of every write then always ends verified; one refusing everything is abandoned within the limit plus a sector, unchanged. |
| RestoreRun.CompleteRun | core/restore.py:898-941 | It appends the complete entry with the account's numbers, then the read-back's own verdict or where that was cancelled, and the outcome is the one the refusals and the read-back give. |
| RestoreAccount.AllLanded | core/restore.py:931-938 | A complete run that refused nothing left exactly the image over the old contents. |
| RestoreAccount.CleanLog | core/restore.py:645-663 | A run that refused nothing logged nothing. |
| RestoreAccount.GivenUpIff | core/restore.py:722-733 | A run was given up exactly when some stretch of refused offsets is longer than the limit, and then the last ones accounted for are all refused. |
| RestoreAccount.StopRecordTrue | core/restore.py:1040-1053 | At every stop point: bytes past the logged end are as before but for one torn sector, bytes below it are the image's or were refused, and the counts are right. |
| RestoreAccount.StopNoteOfWrite | core/restore.py:1012-1028 | The whole sentence of a stopped write's note is true exactly unless the target stopped it with an answer that is neither a refusal nor whole. |
| RestoreAccount.NoShortCountNoTear | core/restore.py:734-739 | A target with no answer strictly between nothing and a sector tears no sector. |
| RestoreAccount.WholeOrRefusedIsTold | core/restore.py:1012-1028 | If no answer is a count below a sector, every note of a stopped write is true. |
| RestoreAccount.StopNoteOfReadBack | core/restore.py:1007-1011 | The note of a stopped read-back, that every offset of the range was taken, is true exactly when nothing was refused. |
| RestoreWitnesses.TornFirstSector | core/restore.py:734-739 | A whole run that logs that nothing was written and every write refused although one was taken in part, with the disk changed or not. |
| RestoreWitnesses.ReadBackAfterRefusal | core/restore.py:1007-1011 | A whole run that logs that the full range was written although a sector of it was refused and still holds what it held. |
| RestoreEndToEnd.BackUpAndRestore | core/restore.py:745-941 | From reads of an image to a verified target: verified means exactly that image and the rest untouched, nothing refused; a planned target that takes something of every write always gets there; when it does not start is exact. |
| Workflow.ExecutingNeedsEveryGate | core/workflow.py:165-242 | EXECUTING is entered exactly from PLAN_READY on facts that derive PLAN_READY, which is exactly when every gate is met. |
| Workflow.ExecutionComesFromPlanReady | core/workflow.py:221-242 | Over every run of attempts execution begins with one made at PLAN_READY on facts that meet every gate. |
| Workflow.DiscoveredNeverLeaves | core/workflow.py:64-80 | Over every run a job started at DISCOVERED stays at DISCOVERED or BLOCKED. |
| Workflow.StandsAtFirstUnmet | core/workflow.py:165-242 | A job that is not under way or over stands at the first of eight gates its facts do not meet, for the reason of that gate. |
| Workflow.AlwaysAWayOut | core/workflow.py:221-242 | Whatever the facts: what runs may be said to have failed, what has not started may be blocked, and nothing else is reached but what the facts derive and the execution of a ready plan. |
| Workflow.WholeWay | core/workflow.py:64-80 | A job whose facts meet one gate after the other is let from PREFLIGHT through to COMPLETE. |
| Workflow.OverStaysOver | core/workflow.py:64-80 | Over every run of attempts a complete or failed job stays so. |
| Workflow.CompleteWasVerifying | core/workflow.py:221-242 | Over every run a job completes only out of VERIFYING, on facts that say it is complete and not failed. |
| Workflow.VerifyingWasExecuting | core/workflow.py:221-242 | Over every run a job is verified only out of EXECUTING. |
| AuthorizationBinding.IdentityDrift | core/authorization.py:126-133 | No drift exactly when every recorded identity field is there and is the fresh one. |
| AuthorizationBinding.PlanDriftOf | core/authorization.py:136-149 | No drift exactly when the three lists agree, the levels as multisets. |
| AuthorizationBinding.AcceptedIds | core/authorization.py:42 | The pattern accepts the ids - `auth-` and sixteen of 0 to 9 and a to f -, each id with one newline after it, and nothing else. |
| AuthorizationBinding.NewlineAccepted | core/authorization.py:42 | A text that is no id and is accepted. |
| Gates.AuthorizationStore.Spend | api/authorization.py:168-176 | One caller is first; the marker stays. |
| Gates.AuthorizationStore.TakeMarker | helper/authorization.py:197-216 | One caller is first; the marker stays. |
| Gates.StoredKind | core/authorization.py:50-58 | A record is of a seam's kind exactly when its stored text is that kind's, or for an erase empty. |
| Gates.AuthorizeExecution | api/authorization.py:264-350 | Admitted exactly when the record is there with an erase's stored kind, admits EXECUTING on the fresh reads and was not spent by anyone; the binding handed on is the record's own, field by field; a refusal spends nothing and names a reason. |
| Gates.PaperReasons | helper/authorization.py:143-162 | No reason exactly when approved, spent, and path, level, device, backup and plan are those recorded. |
| Gates.EraseHostMeans | helper/authorization.py:164-190 | What the host must answer for an erase, field by field: the recorded device, no system disk, no mounts, probed, the approved lists with nothing blocking, the level achievable, and the backup file the approved one, covering the device. |
| Gates.CheckPaper | helper/authorization.py:120-162 | The paper part passes exactly on a well-formed id of an existing record of the seam's kind, which is then the text stored in it, that the paper check holds for. |
| Gates.RevalidateExecution | helper/authorization.py:107-194 | The erase seam accepts exactly when paper, fresh probe, plan and backup all hold and nobody executed; the record's stored kind is then `erase` or empty, and only then does it take the marker. |
| Gates.TakeLast | helper/authorization.py:192-216 | Of two racers one is refused. |
| Gates.RestoreHostMeans | helper/authorization.py:296-357 | What the host must answer for a restore: plan and record unaltered and of one another, the recorded device, a fresh plan without drift, the approved image file, and the target's serial - the stable id when it reports none - typed. |
| Gates.DeviceHostMeans | helper/authorization.py:397-620 | What it must answer for an HPA change or a format: an unaltered, unblocked plan, the recorded device, no system disk, no mounts, its serial typed, and for the HPA the approved image file. |
| Gates.RevalidateRestore | helper/authorization.py:265-357 | The restore seam accepts exactly when everything holds against the fresh target, on a record stored as `restore`; what it accepts writes inside that target and, if its plan lists no blocking reason, is executable. |
| Gates.RevalidateDevice | helper/authorization.py:397-620 | The same of the HPA and format seams, each on records stored as `hpa` or `format`. |
| Gates.TwoGatesAgree | api/authorization.py:200-257 | On one record and one set of reads the API admits exactly what the helper accepts once spent, for a device that reports a serial; and then PLAN_READY is derived. |
| AuthorizationProtocol.RunKeeps | helper/authorization.py:107-216 | The invariant of requests, records and markers holds after every run. |
| AuthorizationProtocol.ProperStart | helper/authorization.py:143-194 | A started engine runs on an approved record stored as its kind that a request of that kind spent, with the path, level, device, plan and backup recorded, on the device whose identity was recorded as the host then answered. |
| AuthorizationProtocol.PassIsProper | api/authorization.py:264-350 | A request that passed did so on an approved record stored as its kind. |
| AuthorizationProtocol.OneExecutionPerAuthorization | helper/authorization.py:197-216 | Over every interleaving of any number of requests: at most one engine and one spender per id, the engine and the request that spent it both of the kind stored in the record, started properly, and every marker belongs to a request that passed. |
| GateSteps.ApiAlone | api/authorization.py:264-350 | An erase request that nobody interrupts passes in five steps exactly on a record the gate admits and nobody spent, and leaves its own marker and nothing else. |
| GateSteps.ApiAgrees | api/authorization.py:264-350 | The gate as one call admits exactly when the uninterrupted steps pass, and leaves the same markers. |
| GateSteps.HelperAlone | helper/authorization.py:107-216 | A helper request that nobody interrupts starts its engine in five steps exactly when everything it reads holds and nobody executed, and leaves its own marker and nothing else. |
| GateSteps.EraseAgrees | helper/authorization.py:107-194 | The erase seam as one call accepts exactly when the uninterrupted steps start the engine, and leaves the same markers. |
| GateSteps.RestoreAgrees | helper/authorization.py:265-357 | The same of the restore seam, its own checks being the verdict the protocol leaves open. |
| GateSteps.DeviceAgrees | helper/authorization.py:397-620 | The same of the HPA and format seams. |
| GateSteps.FromRecordToEngine | helper/authorization.py:107-194 | From an opened record on, with device and image swapped between the gates: the API passes exactly on what it read, and the engine starts exactly if it passed and what the helper then reads is still what was approved. |
| JobBuffer.ReplayBuffer.constructor | api/jobs.py:203-211 | A new job's buffer, queues and subscribers are empty. |
| JobBuffer.ReplayBuffer.Publish | api/jobs.py:289-299 | The fields after a publish are those of the shared state's publish step. |
| JobBuffer.ReplayBuffer.Release | api/jobs.py:268-271 | Every registered queue, and no other, gets the end marker. |
| JobBuffer.ReplayBuffer.Subscribe | api/jobs.py:348-356 | The locked section of a subscription is the join step and its two reads of the state. |
| JobBuffer.ReplayBuffer.Unsubscribe | api/jobs.py:373-377 | Leaving removes one subscriber and keeps the others, in the order they were registered. |
| JobHub.NewestGrows | api/jobs.py:293-297 | Dropping the overflow record by record keeps the newest, and the dropped count adds up. |
| JobHub.PublishOk | api/jobs.py:289-299 | Publishing keeps every subscriber in step with what was published since it joined. |
| JobHub.ReleaseOk | api/jobs.py:268-271 | Releasing puts the end marker after the last record of every registered queue. |
| JobHub.TerminatesOk | api/jobs.py:234-248 | Becoming terminal without the lock, even inside somebody's subscription, loses nothing. |
| JobHub.JoinOk | api/jobs.py:348-356 | A subscription keeps what the others are owed. |
| JobHub.TakeOk | api/jobs.py:362-372 | Taking one item keeps what was passed on equal to what is kept of the records taken. |
| JobHub.StepSubOk | api/jobs.py:348-377 | Every step of every subscriber keeps the invariant. |
| JobHub.LeaveOk | api/jobs.py:373-377 | A consumer may close its stream at any time. |
| JobHub.LeaversGo | api/jobs.py:373-377 | A consumer that closed its stream is gone one step later, its queue unregistered and everything else as it was. |
| JobHub.LockIsFreed | api/jobs.py:348-356 | Whoever holds the lock gives it back within two of its own steps. |
| JobProtocol.RunKeeps | api/jobs.py:223-299 | The invariant of workers, subscribers, cancellers and ledger holds after every run. |
| JobProtocol.JobsGoForward | api/jobs.py:223-287 | Between any two moments of any run: an ended job stays as it ended with its records, outcome and cancellation, a running one never returns to pending, identity stays, and records only grow. |
| JobProtocol.StatesStep | api/jobs.py:223-287 | Over every run, action by action: a job appears pending, and each action leaves its state, starts it, or takes it from running to a terminal state. |
| JobProtocol.EndedJobsRan | api/jobs.py:223-287 | Over every run: a job that has ended was pending at some moment and running at a later one. |
| JobProtocol.RanInBetween | api/jobs.py:223-287 | Over every run: a job found pending and later ended was running in between. |
| JobProtocol.BufferAndCancel | api/jobs.py:289-299 | The buffer is the newest records and `dropped` makes up the rest; at most one record follows a cancel request; a cancelled job was asked. |
| JobHistory.CancelTakesEffect | api/jobs.py:381-397 | Over every run: from the action that sets a cancellation asked for before the job ended, the job says so for good and publishes at most one record more. |
| JobHistory.CancelledInTheEnd | api/jobs.py:231-242 | A job that was running or waiting then ends cancelled, after four free turns of its worker however the others interleave, unless its generator returns or raises. |
| JobHistory.PublishedAreYields | api/jobs.py:231-242 | Over every run the records published, with the one in hand, are exactly what the generator yielded, in order. |
| JobHistory.EndsAsGiven | api/jobs.py:236-258 | Over every run a job's result is a value its generator returned, and its error is in the words, kind and remediation of one it raised. |
| JobHistory.EndsAsAnswered | api/jobs.py:226-258 | Over every run, whatever the generator returns or raises - also while it is made or closed - decides the end: the job completes with that value or fails with that error. |
| JobHistory.ClientIsTold | api/jobs.py:97-127 | Over every run the status says the state, of the records what is kept and dropped of those yielded, of the end what was returned or raised, and the parameters but for the three withheld. |
| JobHistory.RedactedExactly | api/jobs.py:130-142 | Exactly the typed serial, the authorization and its directory are withheld. |
| JobProtocol.SubscribersGetWhatIsDue | api/jobs.py:339-377 | A subscriber that reads to the end gets the buffer at its subscription and then every later record not behind it, in order, once; any other has a prefix of that. |
| JobProtocol.NothingSkippedIff | api/jobs.py:366-371 | Nothing is skipped exactly when no later record is behind the last buffered one. |
| JobProtocol.NothingIsLostIff | api/jobs.py:339-377 | Over every run a subscriber that reads to the end gets one unbroken stretch of the records to the last exactly when none published after it joined is behind the last one before. |
| JobWitness.LosesARecord | api/jobs.py:366-371 | A run whose subscriber reads to the end of a finished job and is never given its second record. |
| JobProtocol.MonotoneSubscribersMissNothing | api/jobs.py:366-372 | When `bytes_done` never falls a subscriber gets one unbroken stretch of the records to the last. |
| JobProtocol.ReleasedNeverWaits | api/jobs.py:362-365 | After the release no subscriber waits for an item. |
| JobProtocol.StreamsEnd | api/jobs.py:266-271 | After the release a subscriber ends once it is given the turns it has left, however the others' steps interleave. |
| JobProtocol.EndedJobsRelease | api/jobs.py:255-271 | However the others interleave, an ended job whose worker gets three turns with the lock free has released its queues. |
| JobProtocol.EndedStreamsEnd | api/jobs.py:255-377 | From a terminal state on: three such turns and then the reader's own end every stream of the job. |
| JobProtocol.OutcomeWritten | api/durable.py:74-111 | The ledger takes the outcome of the ended job, once. |
| JobHistory.LedgerIsTold | api/durable.py:74-111 | Over every run the outcome the ledger holds last for a job tells its end as it was given and withholds the same. |
| JobHistory.EndIsWritten | api/durable.py:74-118 | Over every run: the time a job ended is the one read at that turn, and the ledger takes the outcome exactly when the append at that turn works, for good either way. |
| JobHistory.OthersAreFree | api/durable.py:121-157 | Others may append anything to the ledger but outcomes of this registry's jobs. |
| JobProtocol.SettledOutcomesSurvive | api/durable.py:121-197 | Once settled and appended, the ledger, also after a restart, tells what the registry tells but for the buffer and a late cancellation; the registry comes first while it has the job. |
| HelperFrames.WireIsHeard | helper/rpc.py:200-238 | Reading the bytes of whole frames line by line gives the frames' meaning. |
| HelperFrames.BeatsAreNotHeard | helper/daemon.py:1397-1399 | Heartbeats change nothing that is heard. |
| HelperFrames.ProgressIsHeard | helper/daemon.py:1400-1403 | Progress frames are heard as their records, in order. |
| HelperCodec.FaithfulCodec | helper/rpc.py:171-238 | There is a codec that loses nothing, leaves newlines out, and has no cancel frame inside another. |
| HelperStream.PeerAskedToStop | helper/daemon.py:1144-1166 | True exactly when the peer is gone or a line of what it sent is a cancel frame. |
| HelperStream.WholeCancelIsSeen | helper/rpc.py:171-197 | A cancel frame that arrives whole is seen, whatever whole lines come before it and whatever after. |
| HelperStream.CancelIsSeenIff | helper/daemon.py:1144-1166 | Over all polls of a stream whose client sends one cancel frame and closes: a poll stops it exactly if it receives the frame whole, which is then the first to receive anything, or finds the client gone. |
| HelperStream.SplitCancelIsMissed | helper/daemon.py:1157-1166 | A cancel frame cut anywhere inside is received by two polls and seen by neither. |
| HelperStream.ServeStream | helper/daemon.py:1029-1119 | The frames delivered are the progress of each record pulled and then one terminal frame, all with the request's id, up to where the peer left; the engine is pulled no further than the record it was stopped at; a stream that a poll stopped holds no result and, delivered, ends in an error of kind `Cancelled`; any other ends with the handler's own result or error; at most one terminal frame and only heartbeats after it; when an end escapes is exact. |
| HelperStream.EndIsTold | helper/daemon.py:1085-1119 | What the last frame is, by how the stream ended: never a result after a stop. |
| HelperTransports.Pipe.Recv | helper/daemon.py:1341-1343 | Some of the bytes left, none only when the daemon has closed. |
| HelperTransports.ReadFrame | helper/daemon.py:1337-1348 | The next line and exactly what follows it, however the bytes arrive; a line one `recv` below the limit is always delivered, one at it never. |
| HelperTransports.CallStream | helper/daemon.py:1365-1411 | The call hands over what the bytes say, for every cutting, up to where its caller closes it; a cancel frame is sent exactly then. |
| HelperTransports.InProcess | helper/daemon.py:1464-1493 | The in-process call hands over the handler's records and end; closing it pulls no further. |
| HelperTransports.WholeStreamSays | helper/daemon.py:1414-1433 | An uninterrupted stream tells the handler's records, and its end in kind exactly when the end is carried, word for word exactly when it is a result or the program's own exception with a message; an end that is not carried is told as a closed connection. |
| HelperTransports.InterruptedStreamSays | helper/daemon.py:1096-1116 | Whatever interrupts a stream, its reader has a prefix of the handler's records. |
| HelperTransports.StoppedStreamSays | helper/daemon.py:1096-1116 | The reader of a stopped stream is never told an answer: that it was cancelled, if the last frame arrives, and otherwise a closed connection. |
| HelperTransports.Converse | helper/daemon.py:1365-1411 | Daemon, wire and client together against the in-process call: the same records and, if the end is carried, the same kind of end, for every trace, cutting and heartbeats; a stopped stream is never told as an answer, and as cancelled when it arrives whole. |
| HelperTransports.LostEnd | helper/daemon.py:1414-1493 | Two conversations whose end the socket tells as a closed connection and this process as it is. |
| HelperConnection.ServeLines | helper/daemon.py:989-1007 | Every whole line the buffer holds is served in order, up to a reply that cannot be delivered. |
| HelperConnection.ServeConnection | helper/daemon.py:968-1007 | However the bytes are cut: what is served before the first stream is a prefix of the requests sent; with room in the lines exactly those up to the first whose reply cannot be delivered, and all of them when there is none. |
| MediaWrite.RoundedUpCovers | scripts/media_benchmark.py:641-663 | The modified range covers the image, ends on a block boundary, and is the least that does. |
| MediaWrite.WriteExtent | scripts/media_benchmark.py:627-666 | The extent is the size the second look at the image found, with the least block boundary that covers it, in blocks of a sector and at least 4096 bytes; nothing when the first look finds no file, a failure when the second does not. |
| MediaWrite.BackupRegion | scripts/media_benchmark.py:495-580 | A backup succeeds exactly for a safe device, an image file that answers three looks, and a range inside the device; then it is the device's first bytes up to the extent's end, which covers the image as its size was read, and its record is true of them and names the hash of the image as read last. |
| MediaWrite.VerifyBackup | scripts/media_benchmark.py:784-911 | Sufficient exactly when the backup covers the extent from other storage, was taken of this device, serial, extent, size, content and image; exactly when no reason blocks; extent, sizes and hashes are what its looks at the two files found. |
| MediaWrite.CopyOut | scripts/media_benchmark.py:1325-1334 | Wherever the copy stops, also inside a piece, the device holds that prefix of the payload and its old bytes after it. |
| MediaWrite.CheckWrite | scripts/media_benchmark.py:1247-1307 | The checks pass exactly when device, operator, image and backup are as required at each look: the image the same from the hash to the last read, the backup sufficient. |
| MediaWrite.WriteImage | scripts/media_benchmark.py:1221-1334 | Whatever the files do in between: it writes exactly when every check passes on what was read, and else nothing; what is written is a prefix of the bytes that hash to the image recorded with the backup, whole unless the device fails, inside the backed-up extent of this device and serial, whose backup holds the recorded bytes. |
| MediaWrite.CopyBack | scripts/media_benchmark.py:590-592 | Copying the backup back changes exactly its range. |
| MediaWrite.BackUpWriteRestore | scripts/media_benchmark.py:495-580 | Back up, change anything, write, copy back: the region is what it was at backup time and the rest what it was before the write, however far the write got; and with files that stay as they were at the backup the write is whole. |
| FragmentPlant.FreeAllRises | scripts/hardware_validation.py:1170-1173 | Freed clusters join the free space in address order, none lost. |
| FragmentPlant.Volume.Create | scripts/hardware_validation.py:1107-1114 | An empty file takes no data cluster; its entry may take some for the directory, or fail. |
| FragmentPlant.Volume.Write | scripts/hardware_validation.py:1117-1127 | A write takes the lowest free clusters, as far as they go. |
| FragmentPlant.CreateAll | scripts/hardware_validation.py:1107-1115 | Every placeholder exists and is empty, or an entry did not fit. |
| FragmentPlant.FillUp | scripts/hardware_validation.py:1131-1134 | The fillers take the lowest free clusters, as many as the closed form says, and leave three pads free whenever there were three. |
| FragmentPlant.LayPads | scripts/hardware_validation.py:1136-1141 | Three pads fit exactly when three are free, and the first three take the lowest free clusters in turn. |
| FragmentPlant.TopUp | scripts/hardware_validation.py:1156-1164 | One top-up file at most brings the volume to no free space. |
| FragmentPlant.MakeHoles | scripts/hardware_validation.py:1170-1174 | The free space is then exactly the two pads, in address order. |
| FragmentPlant.WriteJpeg | scripts/hardware_validation.py:1176-1186 | The file fits the two holes and needs both. |
| FragmentPlant.PlantFragmented | scripts/hardware_validation.py:1047-1199 | It does not abort exactly when the entries fit and three pads are free after them; then the file lies in the first and third of three consecutive pads of the free space, beginning where the closed form says, whatever that space looked like, nothing else is free, and the report names the pads in order and the files that are still there. |
| PlantedRuns.ReadRuns | scripts/hardware_validation.py:895-932 | The runs read are the merged ones of the positive pieces, in bytes, and stand for the same bytes. |
| PlantedRuns.TwoStretches | scripts/hardware_validation.py:985-996 | Contiguous pads one pad apart read back as exactly two runs, one pad long and one pad apart. |
| PlantedRuns.TwoRunsOnlyThen | scripts/hardware_validation.py:985-996 | Only such pads do. |
| PlantedRuns.Judge | scripts/hardware_validation.py:1202-1287 | `plant_ok` exactly for two runs, `reachable` exactly for two runs the search enumerates; each reason against that is given exactly when its own condition fails. |
| PlantedRuns.OneRegionSideBySide | scripts/hardware_validation.py:1047-1079 | Pads taken from one region of free space lie side by side. |
| PlantedRuns.PlantAndVerify | scripts/hardware_validation.py:1047-1287 | Planted, read back and judged: accepted exactly when the pads, where the closed form puts them, lay side by side and the window is long enough, so always when the free space was one region. |

## Left out

- Real devices, operating-system targets and probes (`FileBlockTarget`, `LinuxBlockDeviceTarget`, `lsblk`, sysfs): only the abstract block target, file store and byte channel are here.
- JSON text, pydantic validation and canonical serialisation, including stored records whose fields have other types than the program writes.
- One authorization directory: each request names its own, and two requests may name different ones; here all share one, and a request that names none is refused.
- Clocks, rates, estimates, percentages and the wording of messages; reasons are names, and duplicate reasons are not removed.
- The ledger's own hash chain, files and blobs: a ledger is a sequence of entries, and a restore's appends succeed. A restore given no ledger is not modelled.
- A ledger entry whose blob is missing, for which the status of a job is not reconstructed.
- The approve routes take an approval back when their ledger entry fails; here a stored record only ever gains an approval.
- The API gates of restore, HPA and format requests: in the protocol they demand an approved record of their own kind, which is all that is used of them.
- `record_from_acquisition`, cases, destroy and format, erase, carving and scoring: other engines.
- The image file keeps one content during one verification of a backup; it may differ between a verification and a restore, and between any two reads of a restore.
- `Tally.first_error`, which only words a message.
- Exceptions of other classes than the engine's own clauses catch, such as an interrupt, and a generator whose `close` raises one of those.
- Socket set-up, peer authentication and timeouts: the bytes of a connection are those that arrive before it closes or times out.
- `apply_policy`'s path confinement: a refused request is a parameter of the stream.
- The payloads a job returns are taken as JSON already, and the three error fields of a failed job are set in one step.
- RestoreRun.ExecuteRestore: an intact record is taken to have a positive chunk size, which nothing in the program checks again once the digest holds; its chunk hashes may be of anything. A plan whose digest holds is taken to be one the planner made for some intact record, which need not be the one restored; a body composed by hand and sealed with a correct digest is not covered.
- HelperConnection.ServeConnection: says nothing about lines behind a streamed request, because what of them is dropped depends on how the bytes arrived.
- MediaWrite.WriteImage: the read-back after the write is not modelled, because the device array holds what was written.
- MediaWrite.BackUpWriteRestore: the provenance record is taken to be the one the backup wrote; the program seals it with no digest.
- FragmentPlant.PlantFragmented: the file's bytes and the search for a noise JPEG are left out; its size is any in the range that search accepts.
- Cluster sizes that do not divide a pad, and allocators other than address-ordered first fit.
