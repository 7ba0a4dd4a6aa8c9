/** Planning a restore and binding the plan to what was approved (core/restore.py). */
module RestorePlanning {

  import opened Digests
  import opened Backup

  datatype TargetKind = BlockDevice | RegularFile

  datatype TargetIdentity = TargetIdentity(
    path: string, serial: string, model: string, sizeBytes: int, stableId: Option<string>,
    isSystemDisk: bool, mountedAt: seq<string>, kind: TargetKind)

  datatype Relation = SameDevice | DifferentDevice | Undetermined

  /** Why a plan may not run; each value stands for one sentence of the blocking list. */
  datatype Blocking =
    | HostsRunningSystem
    | HasMounts(mounts: seq<string>)
    | TargetTooSmall(targetBytes: int, imageBytes: int)
    | ImageEmpty
    | CannotBeConfirmed
    | TargetIsTheImage
    | CouldNotCompareWithImage
    | ChunkNotSectorMultiple(chunkBytes: int, sector: int)

  datatype PlanLimitation = ReadBackThroughOs | Provenance | TailUntouched(tail: int) | FromRecord(l: BackupLimitation)

  /** What comparing the target with the image file answered, when both are files. */
  datatype FileComparison = Distinct | SameFile | ImageMissing | Failed

  datatype PlanBody = PlanBody(
    backupId: string,
    backupRecordDigest: RecordDigest,
    imagePath: string,
    imageSha256: Digest,
    imageSizeBytes: int,
    chunkBytes: int,
    source: SourceIdentity,
    target: TargetIdentity,
    identityRelation: Relation,
    writeOffset: int,
    writeLength: int,
    writeEnd: int,
    targetTailUntouchedBytes: int,
    assumedRate: int,
    estimatedSeconds: int,
    blocking: seq<Blocking>,
    limitations: seq<PlanLimitation>,
    plannedAt: int)

  datatype PlanDigest = Unsealed | PlanDigestOf(body: PlanBody)

  datatype RestorePlan = RestorePlan(body: PlanBody, planDigest: PlanDigest) {
    predicate Executable() { body.blocking == [] }
  }

  /** What the operator types to confirm. */
  function ConfirmationToken(t: TargetIdentity): string
  {
    if t.serial != "" then t.serial
    else if t.stableId.Some? then t.stableId.value
    else ""
  }

  function RelationOf(source: SourceIdentity, target: TargetIdentity): Relation
  {
    if source.stableId.Some? && source.stableId.value != "" && source.stableId == target.stableId then SameDevice
    else if source.serial != "" && target.serial != "" then
      if (source.serial, source.model, source.sizeBytes) == (target.serial, target.model, target.sizeBytes)
      then SameDevice
      else DifferentDevice
    else Undetermined
  }

  function SectorBlocking(chunkBytes: int): seq<Blocking>
  {
    if chunkBytes % 512 != 0 then [ChunkNotSectorMultiple(chunkBytes, 512)]
    else if chunkBytes % 4096 != 0 then [ChunkNotSectorMultiple(chunkBytes, 4096)]
    else []
  }

  function PlanBlocking(record: BackupRecord, t: TargetIdentity, cmp: FileComparison): seq<Blocking>
  {
    (if t.isSystemDisk then [HostsRunningSystem] else [])
    + (if t.mountedAt != [] then [HasMounts(t.mountedAt)] else [])
    + (if t.sizeBytes < record.body.imageSizeBytes
       then [TargetTooSmall(t.sizeBytes, record.body.imageSizeBytes)] else [])
    + (if record.body.imageSizeBytes <= 0 then [ImageEmpty] else [])
    + (if ConfirmationToken(t) == "" then [CannotBeConfirmed] else [])
    + (if t.kind.RegularFile? && cmp.SameFile? then [TargetIsTheImage]
       else if t.kind.RegularFile? && cmp.Failed? then [CouldNotCompareWithImage]
       else [])
    + SectorBlocking(record.body.chunkBytes)
  }

  /** A target may be written exactly when nothing of it is in the way. */
  lemma BlockedExactly(record: BackupRecord, t: TargetIdentity, cmp: FileComparison)
    ensures PlanBlocking(record, t, cmp) == [] <==>
            && !t.isSystemDisk && t.mountedAt == [] && 0 < record.body.imageSizeBytes <= t.sizeBytes
            && (t.serial != "" || (t.stableId.Some? && t.stableId.value != ""))
            && !(t.kind == RegularFile && (cmp == SameFile || cmp == FileComparison.Failed))
            && record.body.chunkBytes % 4096 == 0
    ensures var c := record.body.chunkBytes;
            && (SectorBlocking(c) == [ChunkNotSectorMultiple(c, 512)] <==> c % 512 != 0)
            && (SectorBlocking(c) == [ChunkNotSectorMultiple(c, 4096)] <==> c % 512 == 0 && c % 4096 != 0)
  {}

  /** What the operator types is the serial, or the stable id of a device that reports none. */
  lemma ConfirmedBy(t: TargetIdentity)
    ensures t.serial != "" ==> ConfirmationToken(t) == t.serial
    ensures t.serial == "" && t.stableId.Some? ==> ConfirmationToken(t) == t.stableId.value
    ensures t.serial == "" && t.stableId.None? ==> ConfirmationToken(t) == ""
  {}

  /** Two devices are said to be one only if their stable ids agree, or serial, model and size do;
      and to differ only if both report serials and one of those does not agree. */
  lemma RelatedBy(source: SourceIdentity, target: TargetIdentity)
    ensures var ids := source.stableId.Some? && source.stableId.value != "" && source.stableId == target.stableId;
            var serials := source.serial != "" && target.serial != "";
            var same := source.serial == target.serial && source.model == target.model
                        && source.sizeBytes == target.sizeBytes;
            && (RelationOf(source, target) == SameDevice <==> ids || (serials && same))
            && (RelationOf(source, target) == DifferentDevice <==> !ids && serials && !same)
  {}

  datatype PlanError = RecordAltered

  /** Rounds up, as `-(-length // rate)` does. */
  function CeilDiv(a: int, b: int): int
    requires b > 0
  {
    -((-a) / b)
  }

  function Fields(xs: seq<BackupLimitation>): seq<PlanLimitation>
  {
    seq(|xs|, i requires 0 <= i < |xs| => FromRecord(xs[i]))
  }

  /** Plan a restore of `record` onto `target`; only an altered record is an error. */
  function PlanRestore(record: BackupRecord, target: TargetIdentity, cmp: FileComparison, rate: int, clock: int)
    : (r: Result<RestorePlan, PlanError>)
    ensures r.Ok? <==> Intact(record)
    ensures r.Ok? ==> PlanFor(r.value, record) && Sealed(r.value) && r.value.body.target == target
  {
    if !Intact(record) then Err(RecordAltered)
    else
      var b := record.body;
      var length := b.imageSizeBytes;
      var tail := if target.sizeBytes > length then target.sizeBytes - length else 0;
      var perSecond := if rate > 1 then rate else 1;
      var body := PlanBody(
        b.backupId, record.recordDigest, b.imagePath, b.imageSha256, length, b.chunkBytes, b.source,
        target, RelationOf(b.source, target), 0, length, length, tail, perSecond,
        CeilDiv(length, perSecond), PlanBlocking(record, target, cmp),
        [ReadBackThroughOs, Provenance] + (if tail != 0 then [TailUntouched(tail)] else []) + Fields(b.limitations),
        clock);
      assert body.blocking == [] ==> NotBlocked(record, target);
      Ok(RestorePlan(body, PlanDigestOf(body)))
  }

  /** What else a plan tells its reader: what it is of, what it leaves alone, and how long it takes. */
  lemma PlanTells(record: BackupRecord, target: TargetIdentity, cmp: FileComparison, rate: int, clock: int)
    requires Intact(record)
    ensures var (p, b) := (PlanRestore(record, target, cmp, rate, clock).value.body, record.body);
            var seconds, perSecond := p.estimatedSeconds, p.assumedRate;
            && p.backupId == b.backupId && p.imagePath == b.imagePath && p.source == b.source && p.plannedAt == clock
            && p.identityRelation == RelationOf(b.source, target) && p.blocking == PlanBlocking(record, target, cmp)
            && p.writeEnd == p.writeOffset + p.writeLength
            && (if target.sizeBytes > b.imageSizeBytes
                then p.writeEnd + p.targetTailUntouchedBytes == target.sizeBytes
                     && TailUntouched(p.targetTailUntouchedBytes) in p.limitations
                else p.targetTailUntouchedBytes == 0 && forall l :: l in p.limitations ==> !l.TailUntouched?)
            && (forall l :: l in b.limitations ==> FromRecord(l) in p.limitations)
            && ReadBackThroughOs in p.limitations && Provenance in p.limitations
            && perSecond >= 1 && (rate > 0 ==> perSecond == rate)
            && (seconds - 1) * perSecond < b.imageSizeBytes <= seconds * perSecond
  {
    var (p, b) := (PlanRestore(record, target, cmp, rate, clock).value.body, record.body);
    var tail := p.targetTailUntouchedBytes;
    var head: seq<PlanLimitation> :=
      [ReadBackThroughOs, Provenance] + (if tail != 0 then [TailUntouched(tail)] else []);
    assert head[0] == ReadBackThroughOs && head[1] == Provenance;
    assert tail != 0 ==> head[2] == TailUntouched(tail);
    assert p.limitations == head + Fields(b.limitations);
    forall l | l in b.limitations ensures FromRecord(l) in p.limitations {
      var i :| 0 <= i < |b.limitations| && b.limitations[i] == l;
      assert Fields(b.limitations)[i] == FromRecord(l);
    }
    RoundedUpSeconds(b.imageSizeBytes, p.assumedRate);
  }

  lemma RoundedUpSeconds(a: int, b: int)
    requires b > 0
    ensures (CeilDiv(a, b) - 1) * b < a <= CeilDiv(a, b) * b
  {
    var q, r := (-a) / b, (-a) % b;
    assert -a == q * b + r;
    assert (-q) * b == -(q * b) && (-q - 1) * b == (-q) * b - b;
  }

  predicate Sealed(plan: RestorePlan)
  {
    plan.planDigest == PlanDigestOf(plan.body)
  }

  /** What an empty blocking list says about the target. */
  predicate NotBlocked(record: BackupRecord, t: TargetIdentity)
  {
    && !t.isSystemDisk
    && t.mountedAt == []
    && 0 < record.body.imageSizeBytes <= t.sizeBytes
    && ConfirmationToken(t) != ""
    && record.body.chunkBytes % 4096 == 0
  }

  /** `plan` writes `record`'s image from offset 0, and is executable only inside its target. */
  predicate PlanFor(plan: RestorePlan, record: BackupRecord)
  {
    var p := plan.body;
    && p.backupRecordDigest == record.recordDigest
    && p.imageSha256 == record.body.imageSha256
    && p.chunkBytes == record.body.chunkBytes
    && p.writeOffset == 0
    && p.writeLength == p.imageSizeBytes == p.writeEnd == record.body.imageSizeBytes
    && (p.blocking == [] ==> NotBlocked(record, p.target))
  }

  datatype GateReason = Blocked(b: Blocking) | PlanAltered | OtherRecord | SizeDiffers(was: int, now: int)
    | NotWholeSectors | ImageSizeChanged | ImageUnreadable

  function BlockedReasons(blocking: seq<Blocking>): seq<GateReason>
  {
    seq(|blocking|, i requires 0 <= i < |blocking| => Blocked(blocking[i]))
  }

  /** The reasons `require_executable` refuses for; none means it returns. */
  function ExecutableReasons(plan: RestorePlan): (reasons: seq<GateReason>)
    ensures reasons == [] <==> plan.Executable() && Sealed(plan)
  {
    BlockedReasons(plan.body.blocking) + if Sealed(plan) then [] else [PlanAltered]
  }

  // ------------------------------------------------------------------- binding

  datatype BoundField =
    | TargetPath | TargetSerial | TargetModel | TargetSizeBytes | TargetStableId | TargetKindField
    | IdentityRelation | BackupRecordDigest | ImageSha256 | ImageSizeBytes | WriteOffset | WriteLength | ChunkBytes

  /** What of a plan an approval holds it to. */
  datatype Binding = Binding(
    path: string, serial: string, model: string, sizeBytes: int, stableId: Option<string>, kind: TargetKind,
    relation: Relation, recordDigest: RecordDigest, imageSha256: Digest, imageSizeBytes: int,
    writeOffset: int, writeLength: int, chunkBytes: int)

  function PlanBinding(plan: RestorePlan): Binding
  {
    var p := plan.body;
    var t := p.target;
    Binding(t.path, t.serial, t.model, t.sizeBytes, t.stableId, t.kind, p.identityRelation,
            p.backupRecordDigest, p.imageSha256, p.imageSizeBytes, p.writeOffset, p.writeLength, p.chunkBytes)
  }

  datatype PlanDrift = FieldChanged(field: BoundField) | NowBlocked(b: Blocking)

  function Changed(field: BoundField, changed: bool): seq<PlanDrift>
  {
    if changed then [FieldChanged(field)] else []
  }

  function FieldDrift(was: Binding, now: Binding): seq<PlanDrift>
  {
    Changed(TargetPath, was.path != now.path)
    + Changed(TargetSerial, was.serial != now.serial)
    + Changed(TargetModel, was.model != now.model)
    + Changed(TargetSizeBytes, was.sizeBytes != now.sizeBytes)
    + Changed(TargetStableId, was.stableId != now.stableId)
    + Changed(TargetKindField, was.kind != now.kind)
    + Changed(IdentityRelation, was.relation != now.relation)
    + Changed(BackupRecordDigest, was.recordDigest != now.recordDigest)
    + Changed(ImageSha256, was.imageSha256 != now.imageSha256)
    + Changed(ImageSizeBytes, was.imageSizeBytes != now.imageSizeBytes)
    + Changed(WriteOffset, was.writeOffset != now.writeOffset)
    + Changed(WriteLength, was.writeLength != now.writeLength)
    + Changed(ChunkBytes, was.chunkBytes != now.chunkBytes)
  }

  function NowBlockedList(blocking: seq<Blocking>): seq<PlanDrift>
  {
    seq(|blocking|, i requires 0 <= i < |blocking| => NowBlocked(blocking[i]))
  }

  function RestorePlanDrift(approved: RestorePlan, replanned: RestorePlan): seq<PlanDrift>
  {
    FieldDrift(PlanBinding(approved), PlanBinding(replanned)) + NowBlockedList(replanned.body.blocking)
  }

  /** No drift means: every bound field agrees and the fresh plan is unblocked. */
  lemma DriftEmptyIff(approved: RestorePlan, replanned: RestorePlan)
    ensures RestorePlanDrift(approved, replanned) == []
       <==> PlanBinding(approved) == PlanBinding(replanned) && replanned.Executable()
    ensures PlanBinding(approved) == PlanBinding(replanned) <==>
            var (p, q) := (approved.body, replanned.body);
            && p.target.path == q.target.path && p.target.serial == q.target.serial
            && p.target.model == q.target.model && p.target.sizeBytes == q.target.sizeBytes
            && p.target.stableId == q.target.stableId && p.target.kind == q.target.kind
            && p.identityRelation == q.identityRelation && p.backupRecordDigest == q.backupRecordDigest
            && p.imageSha256 == q.imageSha256 && p.imageSizeBytes == q.imageSizeBytes
            && p.writeOffset == q.writeOffset && p.writeLength == q.writeLength && p.chunkBytes == q.chunkBytes
    ensures replanned.Executable() <==> replanned.body.blocking == []
  {
    var f := FieldDrift(PlanBinding(approved), PlanBinding(replanned));
    assert |RestorePlanDrift(approved, replanned)| == |f| + |replanned.body.blocking|;
  }

  /** An approved plan that shows no drift against a fresh re-plan writes only inside the
      target as it was just read; unless the approved plan itself lists a blocking reason,
      it also runs. */
  lemma DriftFreePlanFits(record: BackupRecord, approved: RestorePlan, target: TargetIdentity,
                          cmp: FileComparison, rate: int, clock: int)
    requires Intact(record)
    requires RestorePlanDrift(approved, PlanRestore(record, target, cmp, rate, clock).value) == []
    ensures approved.body.writeOffset == 0
    ensures 0 < approved.body.writeLength == record.body.imageSizeBytes
    ensures approved.body.writeOffset + approved.body.writeLength <= target.sizeBytes
    ensures approved.body.target.sizeBytes == target.sizeBytes
    ensures approved.body.target.path == target.path && approved.body.target.serial == target.serial
    ensures !target.isSystemDisk && target.mountedAt == []
    ensures Sealed(approved) ==>
              (ExecutableReasons(approved) == [] <==> approved.body.blocking == [])
  {
    DriftEmptyIff(approved, PlanRestore(record, target, cmp, rate, clock).value);
  }
}
