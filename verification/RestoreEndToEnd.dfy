/** Backing an image up and restoring it, end to end (core/backup.py, core/restore.py). */
module RestoreEndToEnd {

  import opened Digests
  import opened Backup
  import opened RestorePlanning
  import opened BlockTargets
  import opened RestoreEngine
  import opened RestoreAccount
  import opened RestoreRun

  /** `Unbacked` is a refused backup; a record that was just sealed always plans. */
  datatype EndToEnd = Unbacked(error: CreateError) | Ran(record: BackupRecord, plan: RestorePlan, outcome: Outcome)

  /** Hash an image as it arrives, plan its restore onto `identity`, and run the plan with its
      read-back on a target that may refuse, write short or stop, while the image file may
      change. Verified means restored: exactly the image, and everything after it untouched.
      A cooperative target that is the planned one is always verified. */
  method BackUpAndRestore(
    arrivals: seq<Bytes>, isFile: bool, before: FileStat, after: FileStat, imagePath: string, origin: SourceIdentity,
    chunkBytes: int, backupId: string, identity: TargetIdentity, cmp: FileComparison, rate: int, clock: int,
    target: BlockTarget, source: ImageSource, caller: Caller, ledger: Ledger, checkpointBytes: nat, maxRun: nat,
    maxSpans: nat)
    returns (r: EndToEnd)
    requires forall i :: 0 <= i < |arrivals| ==> arrivals[i] != []
    modifies target, target.disk, source, caller, ledger
    ensures r.Unbacked? <==> chunkBytes <= 0 || !isFile || before != after || |Joined(arrivals)| != before.size
    ensures r.Unbacked? ==> target.disk[..] == old(target.disk[..])
    ensures r.Ran? && r.outcome.Finished? && r.outcome.result.verdict == RestoredVerified ==>
              && |Joined(arrivals)| <= target.disk.Length
              && target.disk[..] == Joined(arrivals) + old(target.disk[..])[|Joined(arrivals)|..]
              && r.outcome.result.unwritable == [] && r.outcome.result.unwritableOmitted == 0
              && r.outcome.result.bytesWritten == |Joined(arrivals)|
    ensures r.Ran? ==>
              && Describes(r.record, Joined(arrivals)) && PlanRestore(r.record, identity, cmp, rate, clock) ==
                  Ok(r.plan)
              && (r.outcome.NotStarted? <==>
                  !(r.plan.Executable() && target.disk.Length == identity.sizeBytes
                    && target.logicalSector > 0 && |Joined(arrivals)| % target.logicalSector == 0
                    && chunkBytes % target.logicalSector == 0 && source.statSize == Some(|Joined(arrivals)|)))
    ensures r.Ran? && !r.outcome.NotStarted? && target.Cooperative() && target.ReadsBackEverything() && caller.Patient()
            && source.Unchanging() && source.content == Joined(arrivals) && old(source.position) == 0 ==>
              r.outcome.Finished? && r.outcome.result.verdict == RestoredVerified
  {
    hide DescribesChunksOf, VouchesFor, TrueAccount, Progress, NotBlocked, Checkpoints, Joined, Intact;
    var created := CreateBackupRecord(arrivals, isFile, before, after, imagePath, origin, chunkBytes, backupId, clock);
    if created.Err? { return Unbacked(created.error); }
    var record := created.value;
    var plan := PlanRestore(record, identity, cmp, rate, clock).value;
    ghost var image := Joined(arrivals);
    SizesAgree(record, image);
    OwnImageVouched(record, image);
    ghost var was := Origin(target.disk[..], {}, target.handed);
    var outcome;
    ghost var trail;
    outcome, trail := ExecuteRestore(record, plan, target, source, caller, ledger, true, checkpointBytes, maxRun,
                                     maxSpans, image, record);
    if outcome.Finished? && outcome.result.verdict == RestoredVerified {
      CleanLog(trail, was, target.disk[..], target.handed, 0, image, maxSpans, maxRun, SectorOf(target));
      AllLanded(trail, was, target.disk[..], target.handed, image, maxSpans, maxRun, SectorOf(target));
    }
    r := Ran(record, plan, outcome);
  }

  lemma SizesAgree(record: BackupRecord, image: Bytes)
    requires DescribesChunksOf(record, image)
    ensures record.body.imageSizeBytes == |image|
  {}
}
