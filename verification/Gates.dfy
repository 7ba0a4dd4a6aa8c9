/** The two gates of a destructive run: the API's, which spends an authorization
    (api/authorization.py), and the write seam's, which re-derives the verdict from its own
    reads and takes the single-use marker (helper/authorization.py). */
module Gates {

  import opened Digests
  import opened Workflow
  import opened AuthorizationBinding
  import Backup
  import RestorePlanning

  /** What was approved: a plan of the record's own kind. */
  datatype PlanPayload =
    | ForErase(erase: ErasePlan)
    | ForRestore(backup: Backup.BackupRecord, restore: RestorePlanning.RestorePlan)
    | ForDevice(digestHolds: bool, blocking: seq<string>)

  datatype AuthRecord = AuthRecord(
    authId: string, path: string, level: string, device: RecordedIdentity, backup: BackupRef, plan: PlanPayload,
    approvedBy: string, kind: string)

  /** What the helper is told the approval covered. */
  datatype Binding = Binding(
    authId: string, path: string, level: string, device: RecordedIdentity, backup: BackupRef, plan: PlanPayload)

  function ExecutionBinding(r: AuthRecord): Binding
  {
    Binding(r.authId, r.path, r.level, r.device, r.backup, r.plan)
  }

  function EraseLists(p: PlanPayload): ErasePlan
  {
    if p.ForErase? then p.erase else ErasePlan("", None, None, None)
  }

  function BlockedBy(blocking: seq<PlanBlock>): seq<Reason>
  {
    seq(|blocking|, i requires 0 <= i < |blocking| => BlockedByPlan(blocking[i].level))
  }

  // ------------------------------------------------------------------- API gate

  function PreflightRefusalOf(probe: Probe): (refusal: PreflightRefusal)
    ensures refusal == NoRefusal <==>
            !probe.device.isSystemDisk && probe.device.mountedAt == [] && probe.caps.Some?
    ensures refusal == HostsRoot <==> probe.device.isSystemDisk
    ensures refusal == CapsUnknown ==> probe.caps.None?
  {
    if probe.device.isSystemDisk then HostsRoot
    else if probe.device.mountedAt != [] then HasMounts
    else if probe.caps.None? then CapsUnknown
    else NoRefusal
  }

  /** What the gates establish, given a reading of the device and the record held for it. */
  function FactsFor(record: Option<AuthRecord>, probe: Option<Probe>, stat: Option<ImageStat>, level: string): Facts
  {
    if probe.None? then NOTHING_ESTABLISHED
    else
      var p := probe.value;
      var preflight := PreflightRefusalOf(p);
      if record.None? then
        NOTHING_ESTABLISHED.(devicePresent := true, preflightRan := true, preflightSafe := preflight == NoRefusal,
                            preflightRefusal := preflight)
      else
        var r := record.value;
        var now := p.device.identity;
        var moved := IdentityDrift(r.device, now);
        var refusal := if moved != [] && preflight == NoRefusal then IdentityMoved(moved) else preflight;
        var plan := EraseLists(r.plan);
        var backupProblems := BackupDrift(r.backup, stat, now.sizeBytes);
        var blocking :=
          (if plan.blocking.Some? then BlockedBy(plan.blocking.value) else [])
          + backupProblems
          + PlanDriftOf(plan, BuildPlan(p, r.level))
          + If(level != r.level, LevelDiffers(level, r.level))
          + If(level !in Achievable(p), LevelNotAchievable(level));
        NOTHING_ESTABLISHED.(
          devicePresent := true, preflightRan := true, preflightSafe := refusal == NoRefusal,
          preflightRefusal := refusal, serialSourcesAgree := now.serial != "" && moved == [],
          backupSufficient := backupProblems == [], planGenerated := true, planBlocking := blocking,
          humanApproved := r.approvedBy != "")
  }

  /** What the API admits an erase on. */
  predicate ApiAdmits(r: AuthRecord, path: string, probe: Probe, stat: Option<ImageStat>, level: string)
  {
    && AuthorizationKind(r.kind) == "erase"
    && r.path == path
    && Advance(PlanReady, Executing, FactsFor(Some(r), Some(probe), stat, level)) == Ok(Executing)
  }

  datatype GateRefused = GateRefused(state: State, why: seq<Reason>)

  /** The authorization records and their markers, one directory for both processes. */
  class AuthorizationStore {
    var records: map<string, AuthRecord>
    var spent: set<string>
    var executed: set<string>

    constructor ()
      ensures records == map[] && spent == {} && executed == {}
    {
      records, spent, executed := map[], {}, {};
    }

    function Load(authId: string): Option<AuthRecord>
      reads this
    {
      if MatchesAuthId(authId) && authId in records then Some(records[authId]) else None
    }

    /** Exclusive create of the spent marker. */
    method Spend(authId: string) returns (first: bool)
      modifies this`spent
      ensures first == (authId !in old(spent))
      ensures spent == old(spent) + {authId}
    {
      first := authId !in spent;
      spent := spent + {authId};
    }

    /** Exclusive create of the executed marker. */
    method TakeMarker(authId: string) returns (first: bool)
      modifies this`executed
      ensures first == (authId !in old(executed))
      ensures executed == old(executed) + {authId}
    {
      first := authId !in executed;
      executed := executed + {authId};
    }
  }

  /** The API gate. `rival` says that another request spends the record after this one has
      looked at the marker and before it tries to take it. */
  method AuthorizeExecution(store: AuthorizationStore, authId: string, path: string, level: string, probe: Probe,
                            stat: Option<ImageStat>, rival: bool)
    returns (r: Result<Binding, GateRefused>)
    modifies store`spent
    ensures r.Ok? <==>
              && store.Load(authId).Some?
              && ApiAdmits(store.records[authId], path, probe, stat, level)
              && authId !in old(store.spent) && !rival
    ensures r.Ok? ==>
              && var record := store.records[authId];
              && r.value == Binding(record.authId, record.path, record.level, record.device, record.backup, record.plan)
              && store.spent == old(store.spent) + {authId}
    ensures r.Ok? ==> store.records[authId].kind == "erase" || store.records[authId].kind == ""
    ensures r.Err? ==>
              r.error.why != [] &&
              (store.spent == old(store.spent) || (rival && store.spent == old(store.spent) + {authId}))
  {
    var loaded := store.Load(authId);
    if loaded.None? {
      return Err(GateRefused(HumanApprovalRequired, [NoSuchRecord, NobodyApproved]));
    }
    var record := loaded.value;
    var kindReasons := KindMismatch(record.kind, "erase");
    if kindReasons != [] { return Err(GateRefused(Blocked, kindReasons)); }
    if authId in store.spent { return Err(GateRefused(Blocked, [AlreadyUsed])); }
    if record.path != path { return Err(GateRefused(Blocked, [OtherPath])); }
    var facts := FactsFor(Some(record), Some(probe), stat, level);
    var status := Derive(facts);
    var advanced := Advance(PlanReady, Executing, facts);
    if advanced.Err? {
      return Err(GateRefused(status.state, if status.whyBlocked != [] then status.whyBlocked else [PlanBlocked]));
    }
    if rival { store.spent := store.spent + {authId}; }
    var first := store.Spend(authId);
    if !first { return Err(GateRefused(Blocked, [AlreadyUsed])); }
    r := Ok(ExecutionBinding(record));
  }

  // ---------------------------------------------------------------- write seam

  /** A helper request: `binding` and the directory may be missing, `typed` is the serial the
      operator typed, and `switched` says it still carries a removed simulation switch. */
  datatype Request = Request(
    switched: bool, binding: Option<Binding>, hasDirectory: bool, path: string, level: string, typed: string)

  datatype Kind = Erase | RestoreKind | Hpa | Format

  function KindName(k: Kind): string
  {
    match k case Erase => "erase" case RestoreKind => "restore" case Hpa => "hpa" case Format => "format"
  }

  /** Which stored texts a record of kind `k` may carry. */
  lemma StoredKind(k: Kind, text: string)
    ensures AuthorizationKind(text) == KindName(k) <==>
            match k {
              case Erase => text == "erase" || text == ""
              case RestoreKind => text == "restore"
              case Hpa => text == "hpa"
              case Format => text == "format"
            }
  {}

  /** The checks on paper, before anything is read from the host. */
  predicate PaperHolds(k: Kind, q: Request, r: AuthRecord, spent: bool)
  {
    && q.binding.Some?
    && r.approvedBy != "" && spent && q.path == r.path
    && (k == Erase ==> q.level == r.level)
    && (k == Hpa ==> r.backup.backupId != "")
    && q.binding.value.device == r.device
    && (k != Format ==> q.binding.value.backup == r.backup)
    && q.binding.value.plan == r.plan
  }

  function PaperReasons(k: Kind, q: Request, r: AuthRecord, spent: bool): (reasons: seq<Reason>)
    requires q.binding.Some?
    ensures reasons == [] <==> PaperHolds(k, q, r, spent)
  {
    If(r.approvedBy == "", NobodyApproved)
    + If(!spent, NotConsumed)
    + If(k == Hpa && r.backup.backupId == "", NoBackupBound)
    + If(q.path != r.path, RequestDiffers("path"))
    + If(k == Erase && q.level != r.level, RequestDiffers("level"))
    + If(q.binding.value.device != r.device, RequestDiffers("device"))
    + If(k != Format && q.binding.value.backup != r.backup, RequestDiffers("backup"))
    + If(q.binding.value.plan != r.plan, RequestDiffers("plan"))
  }

  /** What the host must answer, freshly read, for an erase. */
  predicate EraseHostHolds(r: AuthRecord, probe: Probe, stat: Option<ImageStat>, level: string)
  {
    && IdentityDrift(r.device, probe.device.identity) == []
    && !probe.device.isSystemDisk && probe.device.mountedAt == []
    && probe.caps.Some?
    && PlanDriftOf(EraseLists(r.plan), BuildPlan(probe, level)) == []
    && level in Achievable(probe)
    && BackupDrift(r.backup, stat, probe.device.identity.sizeBytes) == []
  }

  /** What that comes to, field by field: the device is the one recorded, holds no running system and
      no mounts, was probed, shows the lists that were approved with nothing blocking, can do what
      is asked, and its backup is the file that was approved and covers it. */
  lemma EraseHostMeans(r: AuthRecord, probe: Probe, stat: Option<ImageStat>, level: string)
    ensures EraseHostHolds(r, probe, stat, level) <==>
            var (now, plan) := (probe.device.identity, EraseLists(r.plan));
            && r.device == RecordedIdentity(Some(now.path), Some(now.serial), Some(now.model), Some(now.sizeBytes))
            && !probe.device.isSystemDisk && probe.device.mountedAt == []
            && probe.caps.Some? && level in probe.caps.value.achievable
            && plan.achievable == Some(probe.caps.value.achievable)
            && plan.limitations == Some(probe.caps.value.limitations) && plan.blocking == Some([])
            && stat.Some? && stat.value.size >= now.sizeBytes > 0
            && r.backup.sizeBytes == Some(stat.value.size) && r.backup.mtimeNs == Some(stat.value.mtimeNs)
            && r.backup.ctimeNs == Some(stat.value.ctimeNs) && r.backup.inode == Some(stat.value.inode)
  {}

  /** The first part of every write seam: find the record, check its kind and the paper. */
  method CheckPaper(store: AuthorizationStore, k: Kind, q: Request) returns (r: Result<AuthRecord, seq<Reason>>)
    ensures r.Ok? <==>
              && !q.switched && q.binding.Some? && q.hasDirectory
              && store.Load(q.binding.value.authId).Some?
              && AuthorizationKind(store.records[q.binding.value.authId].kind) == KindName(k)
              && PaperHolds(k, q, store.records[q.binding.value.authId], q.binding.value.authId in store.spent)
    ensures r.Ok? ==> r.value == store.records[q.binding.value.authId]
    ensures r.Ok? ==>
              match k
              case Erase => r.value.kind == "erase" || r.value.kind == ""
              case RestoreKind => r.value.kind == "restore"
              case Hpa => r.value.kind == "hpa"
              case Format => r.value.kind == "format"
    ensures r.Err? ==> r.error != []
  {
    if q.switched { return Err([RemovedModeSwitch]); }
    if q.binding.None? || !q.hasDirectory { return Err([NoAuthorization]); }
    var authId := q.binding.value.authId;
    if !MatchesAuthId(authId) { return Err([MalformedId]); }
    var loaded := store.Load(authId);
    if loaded.None? { return Err([NoSuchRecord]); }
    var kindReasons := KindMismatch(loaded.value.kind, KindName(k));
    if kindReasons != [] { return Err(kindReasons); }
    StoredKind(k, loaded.value.kind);
    var reasons := PaperReasons(k, q, loaded.value, authId in store.spent);
    if reasons != [] { return Err(reasons); }
    r := Ok(loaded.value);
  }

  /** Everything an erase needs but the marker. */
  predicate EraseSeamHolds(q: Request, r: Option<AuthRecord>, spent: bool, probe: Option<Probe>,
      stat: Option<ImageStat>)
  {
    && !q.switched && q.binding.Some? && q.hasDirectory && r.Some?
    && AuthorizationKind(r.value.kind) == "erase"
    && PaperHolds(Erase, q, r.value, spent)
    && probe.Some? && EraseHostHolds(r.value, probe.value, stat, q.level)
  }

  /** The erase write seam. `probe` is `None` when the device cannot be re-read. */
  method RevalidateExecution(store: AuthorizationStore, q: Request, probe: Option<Probe>, stat: Option<ImageStat>)
    returns (refused: seq<Reason>)
    modifies store`executed
    ensures refused == [] <==>
              && q.binding.Some?
              && EraseSeamHolds(q, store.Load(q.binding.value.authId), q.binding.value.authId in store.spent,
                  probe, stat)
              && q.binding.value.authId !in old(store.executed)
    ensures refused == [] ==> store.executed == old(store.executed) + {q.binding.value.authId}
    ensures refused == [] ==>
              store.records[q.binding.value.authId].kind == "erase" || store.records[q.binding.value.authId].kind == ""
    ensures refused != [] ==> store.executed == old(store.executed)
  {
    var paper := CheckPaper(store, Erase, q);
    if paper.Err? { return paper.error; }
    var record := paper.value;
    if probe.None? { return [CannotReRead]; }
    var device, now := probe.value.device, probe.value.device.identity;
    var reasons := IdentityDrift(record.device, now);
    if device.isSystemDisk { reasons := reasons + [SystemDisk]; }
    if device.mountedAt != [] { reasons := reasons + [Mounted]; }
    if probe.value.caps.None? { reasons := reasons + [NotProbed]; }
    reasons := reasons + PlanDriftOf(EraseLists(record.plan), BuildPlan(probe.value, q.level));
    if q.level !in Achievable(probe.value) { reasons := reasons + [LevelNotAchievable(q.level)]; }
    reasons := reasons + BackupDrift(record.backup, stat, now.sizeBytes);
    if reasons != [] { return reasons; }
    refused := TakeLast(store, q.binding.value.authId);
  }

  /** The marker is taken last, so a refusal never burns it and of two racers one is refused. */
  method TakeLast(store: AuthorizationStore, authId: string) returns (refused: seq<Reason>)
    modifies store`executed
    ensures refused == [] <==> authId !in old(store.executed)
    ensures store.executed == old(store.executed) + {authId}
  {
    var first := store.TakeMarker(authId);
    return If(!first, AlreadyExecuted);
  }

  // -------------------------------------------------------- the other write seams

  /** What the host must answer for a restore; `norm` strips and folds a typed string. */
  predicate RestoreHostHolds(r: AuthRecord, target: RestorePlanning.TargetIdentity, stat: Option<ImageStat>,
                             typed: string, norm: string -> string, cmp: RestorePlanning.FileComparison,
                             rate: int, clock: int)
  {
    && r.plan.ForRestore?
    && Backup.Intact(r.plan.backup)
    && RestorePlanning.Sealed(r.plan.restore)
    && r.plan.restore.body.backupRecordDigest == r.plan.backup.recordDigest
    && IdentityDrift(r.device, IdentityOf(target)) == []
    && RestorePlanning.RestorePlanDrift(
         r.plan.restore, RestorePlanning.PlanRestore(r.plan.backup, target, cmp, rate, clock).value) == []
    && ImageDrift(r.backup, stat) == []
    && norm(typed) != "" && norm(typed) == norm(RestorePlanning.ConfirmationToken(target))
  }

  /** What that comes to: the approved plan and its record unaltered and of one another, the device the
      one recorded, the fresh plan the approved one, the image file the one approved, and its serial
      - or the stable id, when it reports none - typed. */
  lemma RestoreHostMeans(r: AuthRecord, t: RestorePlanning.TargetIdentity, stat: Option<ImageStat>, typed: string,
                         norm: string -> string, cmp: RestorePlanning.FileComparison, rate: int, clock: int)
    ensures RestoreHostHolds(r, t, stat, typed, norm, cmp, rate, clock) <==>
            && r.plan.ForRestore?
            && var (backup, approved) := (r.plan.backup, r.plan.restore);
            && Backup.Intact(backup) && RestorePlanning.Sealed(approved)
            && approved.body.backupRecordDigest == backup.recordDigest
            && r.device == RecordedIdentity(Some(t.path), Some(t.serial), Some(t.model), Some(t.sizeBytes))
            && RestorePlanning.RestorePlanDrift(
                 approved, RestorePlanning.PlanRestore(backup, t, cmp, rate, clock).value) == []
            && stat.Some? && r.backup.sizeBytes == Some(stat.value.size)
            && r.backup.mtimeNs == Some(stat.value.mtimeNs) && r.backup.ctimeNs == Some(stat.value.ctimeNs)
            && r.backup.inode == Some(stat.value.inode)
            && norm(typed) != ""
            && norm(typed) == norm(if t.serial != "" then t.serial
                                   else if t.stableId.Some? then t.stableId.value
                                   else "")
  {
    hide Backup.Intact, RestorePlanning.Sealed, RestorePlanning.RestorePlanDrift, RestorePlanning.PlanRestore;
    RestorePlanning.ConfirmedBy(t);
  }

  function IdentityOf(t: RestorePlanning.TargetIdentity): Identity
  {
    Identity(t.path, t.serial, t.model, t.sizeBytes)
  }

  /** The restore write seam. On success the approved plan is what the engine is given. */
  method RevalidateRestore(store: AuthorizationStore, q: Request, target: Option<RestorePlanning.TargetIdentity>,
                           stat: Option<ImageStat>, norm: string -> string, cmp: RestorePlanning.FileComparison,
                           rate: int, clock: int)
    returns (refused: seq<Reason>)
    modifies store`executed
    ensures refused == [] <==>
              && !q.switched && q.binding.Some? && q.hasDirectory
              && store.Load(q.binding.value.authId).Some?
              && var r := store.records[q.binding.value.authId];
              && AuthorizationKind(r.kind) == "restore"
              && PaperHolds(RestoreKind, q, r, q.binding.value.authId in store.spent)
              && target.Some? && RestoreHostHolds(r, target.value, stat, q.typed, norm, cmp, rate, clock)
              && q.binding.value.authId !in old(store.executed)
    ensures refused == [] ==>
              && store.executed == old(store.executed) + {q.binding.value.authId}
              && store.records[q.binding.value.authId].kind == "restore"
              && var plan := store.records[q.binding.value.authId].plan.restore;
              && 0 < plan.body.writeLength
              && plan.body.writeOffset + plan.body.writeLength <= target.value.sizeBytes
              && (plan.body.blocking == [] ==> RestorePlanning.ExecutableReasons(plan) == [])
    ensures refused != [] ==> store.executed == old(store.executed)
  {
    hide PaperHolds, IdentityDrift, ImageDrift, Backup.Intact, RestorePlanning.Sealed, RestorePlanning.RestorePlanDrift,
         RestorePlanning.PlanRestore, RestorePlanning.ExecutableReasons, RestorePlanning.ConfirmationToken,
         AuthorizationKind, MatchesAuthId;
    var paper := CheckPaper(store, RestoreKind, q);
    if paper.Err? { return paper.error; }
    var record := paper.value;
    if !record.plan.ForRestore? || !Backup.Intact(record.plan.backup) { return [Unreadable]; }
    var approved, backup := record.plan.restore, record.plan.backup;
    var reasons: seq<Reason> := [];
    if !RestorePlanning.Sealed(approved) { reasons := reasons + [PlanAltered]; }
    if approved.body.backupRecordDigest != backup.recordDigest { reasons := reasons + [OtherBackupRecord]; }
    if target.None? { return [CannotReRead]; }
    var planned := RestorePlanning.PlanRestore(backup, target.value, cmp, rate, clock).value;
    reasons := reasons + IdentityDrift(record.device, IdentityOf(target.value));
    if RestorePlanning.RestorePlanDrift(approved, planned) != [] { reasons := reasons + [RestoreDrift]; }
    reasons := reasons + ImageDrift(record.backup, stat);
    var typed, token := norm(q.typed), norm(RestorePlanning.ConfirmationToken(target.value));
    if typed == "" { reasons := reasons + [NothingTyped]; }
    else if typed != token { reasons := reasons + [TypedSerialDiffers]; }
    if reasons != [] { return reasons; }
    RestorePlanning.DriftFreePlanFits(backup, approved, target.value, cmp, rate, clock);
    refused := TakeLast(store, q.binding.value.authId);
  }

  /** What the host must answer for an HPA change or a format. */
  predicate DeviceHostHolds(k: Kind, r: AuthRecord, device: DeviceRead, stat: Option<ImageStat>, typed: string,
                            norm: string -> string)
  {
    && r.plan.ForDevice? && r.plan.digestHolds && r.plan.blocking == []
    && IdentityDrift(r.device, device.identity) == []
    && !device.isSystemDisk && device.mountedAt == []
    && (k == Hpa ==> ImageDrift(r.backup, stat) == [])
    && norm(typed) != "" && norm(typed) == norm(device.identity.serial)
  }

  /** What that comes to: an approved plan that is unaltered and unblocked, the recorded device, holding
      no running system and no mounts, and its serial typed; for an HPA change the approved image too. */
  lemma DeviceHostMeans(k: Kind, r: AuthRecord, device: DeviceRead, stat: Option<ImageStat>, typed: string,
                        norm: string -> string)
    ensures DeviceHostHolds(k, r, device, stat, typed, norm) <==>
            var now := device.identity;
            && r.plan.ForDevice? && r.plan.digestHolds && r.plan.blocking == []
            && r.device == RecordedIdentity(Some(now.path), Some(now.serial), Some(now.model), Some(now.sizeBytes))
            && !device.isSystemDisk && device.mountedAt == []
            && (k == Hpa ==>
                  && stat.Some? && r.backup.sizeBytes == Some(stat.value.size)
                  && r.backup.mtimeNs == Some(stat.value.mtimeNs) && r.backup.ctimeNs == Some(stat.value.ctimeNs)
                  && r.backup.inode == Some(stat.value.inode))
            && norm(typed) != "" && norm(typed) == norm(now.serial)
  {}

  /** The write seams of an HPA change and of a format, which binds no backup. */
  method RevalidateDevice(store: AuthorizationStore, k: Kind, q: Request, device: Option<DeviceRead>,
                          stat: Option<ImageStat>, norm: string -> string)
    returns (refused: seq<Reason>)
    requires k == Hpa || k == Format
    modifies store`executed
    ensures refused == [] <==>
              && !q.switched && q.binding.Some? && q.hasDirectory
              && store.Load(q.binding.value.authId).Some?
              && var r := store.records[q.binding.value.authId];
              && AuthorizationKind(r.kind) == KindName(k)
              && PaperHolds(k, q, r, q.binding.value.authId in store.spent)
              && device.Some? && DeviceHostHolds(k, r, device.value, stat, q.typed, norm)
              && q.binding.value.authId !in old(store.executed)
    ensures refused == [] ==> store.executed == old(store.executed) + {q.binding.value.authId}
    ensures refused == [] ==> store.records[q.binding.value.authId].kind == if k == Hpa then "hpa" else "format"
    ensures refused != [] ==> store.executed == old(store.executed)
  {
    var paper := CheckPaper(store, k, q);
    if paper.Err? { return paper.error; }
    var record := paper.value;
    if !record.plan.ForDevice? { return [Unreadable]; }
    var reasons: seq<Reason> := [];
    if !record.plan.digestHolds { reasons := reasons + [PlanAltered]; }
    if record.plan.blocking != [] { reasons := reasons + [PlanBlocked]; }
    if device.None? { return [CannotReRead]; }
    reasons := reasons + IdentityDrift(record.device, device.value.identity);
    if device.value.isSystemDisk { reasons := reasons + [SystemDisk]; }
    if device.value.mountedAt != [] { reasons := reasons + [Mounted]; }
    if k == Hpa { reasons := reasons + ImageDrift(record.backup, stat); }
    var typed, serial := norm(q.typed), norm(device.value.identity.serial);
    if typed == "" { reasons := reasons + [NothingTyped]; }
    else if serial == "" || typed != serial { reasons := reasons + [TypedSerialDiffers]; }
    if reasons != [] { return reasons; }
    refused := TakeLast(store, q.binding.value.authId);
  }

  // ------------------------------------------------------------ the gates agree

  /** The request the API sends the helper after its gate passed. */
  function RequestFor(r: AuthRecord, path: string, level: string): Request
  {
    Request(false, Some(ExecutionBinding(r)), true, path, level, "")
  }

  /** On one record and one set of reads: whatever the API admits to EXECUTING the helper
      accepts once it is spent, and whatever the helper accepts of a device that reports a
      serial, the API derives PLAN_READY for. Neither gate can be passed on less. */
  lemma TwoGatesAgree(r: AuthRecord, path: string, level: string, probe: Probe, stat: Option<ImageStat>)
    ensures ApiAdmits(r, path, probe, stat, level)
       <==> EraseSeamHolds(RequestFor(r, path, level), Some(r), true, Some(probe), stat)
            && probe.device.identity.serial != ""
    ensures EraseSeamHolds(RequestFor(r, path, level), Some(r), true, Some(probe), stat)
              && probe.device.identity.serial != "" ==>
              Derive(FactsFor(Some(r), Some(probe), stat, level)).state == PlanReady
  {
    var facts := FactsFor(Some(r), Some(probe), stat, level);
    ExecutingNeedsEveryGate(PlanReady, facts);
    var plan := EraseLists(r.plan);
    var lists := if plan.blocking.Some? then BlockedBy(plan.blocking.value) else [];
    var drift := PlanDriftOf(plan, BuildPlan(probe, r.level));
    assert lists == [] <==> plan.blocking.None? || plan.blocking.value == [];
    if level == r.level && level in Achievable(probe) {
      assert drift == [] ==> plan.blocking == Some([]);
    }
    assert facts.planBlocking
        == lists + BackupDrift(r.backup, stat, probe.device.identity.sizeBytes) + drift
           + If(level != r.level, LevelDiffers(level, r.level))
           + If(level !in Achievable(probe), LevelNotAchievable(level));
  }
}
