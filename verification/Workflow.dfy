/** The destructive-workflow state machine (core/workflow.py): the state is derived from facts,
    and an advance needs both an edge and facts that support it. */
module Workflow {

  import opened Digests

  datatype State =
    | Discovered | Preflight | Blocked | BackupRequired | BackupVerified | PlanReady
    | HumanApprovalRequired | Executing | Verifying | Complete | Failed

  /** Every sentence a gate can refuse with. */
  datatype Reason =
    | FailureReported(text: string)
    | DeviceNotPresent
    | PreflightRefused(why: PreflightRefusal)
    | NotSafe
    | SerialNotConfirmed
    | NoBackupCovers
    | NobodyApproved
    | BlockedByPlan(level: string)
    | BackupUnreadable
    | BackupChanged
    | ImageChanged
    | PlanListChanged(key: string)
    | LevelDiffers(asked: string, approved: string)
    | LevelNotAchievable(level: string)
    | IdentityChanged(field: string)
    | NotConsumed
    | RequestDiffers(what: string)
    | SystemDisk
    | Mounted
    | NotProbed
    | PlanAltered
    | OtherBackupRecord
    | PlanBlocked
    | RestoreDrift
    | NothingTyped
    | TypedSerialDiffers
    | NoBackupBound
    | NoAuthorization
    | MalformedId
    | NoSuchRecord
    | WrongKind
    | AlreadyUsed
    | AlreadyExecuted
    | OtherPath
    | RemovedModeSwitch
    | Unreadable
    | CannotReRead

  datatype PreflightRefusal = NoRefusal | HostsRoot | HasMounts | CapsUnknown | IdentityMoved(fields: seq<Reason>)

  /** What the gates have established; nothing is established by default. */
  datatype Facts = Facts(
    devicePresent: bool, preflightRan: bool, preflightSafe: bool, preflightRefusal: PreflightRefusal,
    serialSourcesAgree: bool, backupSufficient: bool, planGenerated: bool, planBlocking: seq<Reason>,
    humanApproved: bool, executing: bool, verifying: bool, complete: bool, failed: string)

  const NOTHING_ESTABLISHED: Facts :=
    Facts(false, false, false, NoRefusal, false, false, false, [], false, false, false, false, "")

  datatype Status = Status(state: State, whyBlocked: seq<Reason>)

  /** Every legal edge. */
  function Transitions(s: State): set<State>
  {
    match s
    case Discovered => {Preflight, Blocked}
    case Preflight => {Blocked, BackupRequired, BackupVerified}
    case Blocked => {Discovered, Preflight}
    case BackupRequired => {BackupVerified, Blocked, Preflight}
    case BackupVerified => {HumanApprovalRequired, Blocked, BackupRequired}
    case HumanApprovalRequired => {PlanReady, Blocked, BackupRequired}
    case PlanReady => {Executing, Blocked, BackupRequired}
    case Executing => {Verifying, Failed}
    case Verifying => {Complete, Failed}
    case Complete => {}
    case Failed => {}
  }

  /** Where a job stands on these facts: at the first gate they do not meet. */
  function Derive(f: Facts): Status
  {
    if f.failed != "" then Status(Failed, [FailureReported(f.failed)])
    else if f.complete then Status(Complete, [])
    else if f.verifying then Status(Verifying, [])
    else if f.executing then Status(Executing, [])
    else if !f.devicePresent then Status(Blocked, [DeviceNotPresent])
    else if !f.preflightRan then Status(Discovered, [])
    else if !f.preflightSafe then
      Status(Blocked, [if f.preflightRefusal == NoRefusal then NotSafe else PreflightRefused(f.preflightRefusal)])
    else if !f.serialSourcesAgree then Status(Blocked, [SerialNotConfirmed])
    else if !f.backupSufficient then
      Status(BackupRequired, if f.planBlocking != [] then f.planBlocking else [NoBackupCovers])
    else if !f.planGenerated then Status(BackupVerified, [])
    else if f.planBlocking != [] then Status(Blocked, f.planBlocking)
    else if !f.humanApproved then Status(HumanApprovalRequired, [NobodyApproved])
    else Status(PlanReady, [])
  }

  predicate Permits(target: State, derived: State)
  {
    if target == Blocked then true
    else if target == Executing then derived == PlanReady
    else if target == Failed then true
    else derived == target
  }

  datatype Illegal = NotAnEdge | NotSupported(status: Status)

  /** Move from `current` to `target`, if the edge exists and the facts support it. */
  function Advance(current: State, target: State, f: Facts): Result<State, Illegal>
  {
    if target !in Transitions(current) then Err(NotAnEdge)
    else if !Permits(target, Derive(f).state) then Err(NotSupported(Derive(f)))
    else Ok(target)
  }

  /** Execution is entered only from PLAN_READY, on facts under which every gate is met:
      in particular a recorded human approval and a plan with nothing blocking. */
  lemma ExecutingNeedsEveryGate(current: State, f: Facts)
    ensures Advance(current, Executing, f) == Ok(Executing)
       <==> current == PlanReady && Derive(f).state == PlanReady
    ensures Derive(f).state == PlanReady
       <==> f.failed == "" && !f.complete && !f.verifying && !f.executing
            && f.devicePresent && f.preflightRan && f.preflightSafe && f.serialSourcesAgree
            && f.backupSufficient && f.planGenerated && f.planBlocking == [] && f.humanApproved
  {}

  // ---------------------------------------------------------------- whole runs

  datatype Attempt = Attempt(target: State, facts: Facts)

  /** The state after a sequence of attempted advances; a refused attempt changes nothing. */
  function After(s: State, attempts: seq<Attempt>): State
    decreases |attempts|
  {
    if attempts == [] then s
    else
      var r := Advance(s, attempts[0].target, attempts[0].facts);
      After(if r.Ok? then r.value else s, attempts[1..])
  }

  /** The run the module's documentation draws, DISCOVERED -> PREFLIGHT -> ... -> COMPLETE,
      cannot be walked: no facts derive PREFLIGHT, so no advance ever enters it, and a job that
      starts at DISCOVERED stays at DISCOVERED or BLOCKED whatever facts it is given. */
  lemma {:induction false} DiscoveredNeverLeaves(s: State, attempts: seq<Attempt>)
    requires s == Discovered || s == Blocked
    ensures After(s, attempts) == Discovered || After(s, attempts) == Blocked
    decreases |attempts|
  {
    if attempts != [] {
      var r := Advance(s, attempts[0].target, attempts[0].facts);
      DiscoveredNeverLeaves(if r.Ok? then r.value else s, attempts[1..]);
    }
  }

  /** From any start but an execution already under way, execution is entered only through an
      attempt made at PLAN_READY on facts that meet every gate. */
  lemma {:induction false} ExecutionComesFromPlanReady(s: State, attempts: seq<Attempt>)
    requires s !in {Executing, Verifying, Complete, Failed}
    requires After(s, attempts) in {Executing, Verifying, Complete, Failed}
    ensures exists i :: 0 <= i < |attempts| && attempts[i].target == Executing
              && After(s, attempts[..i]) == PlanReady && Derive(attempts[i].facts).state == PlanReady
    decreases |attempts|
  {
    assert attempts != [];
    var a := attempts[0];
    var r := Advance(s, a.target, a.facts);
    var s' := if r.Ok? then r.value else s;
    if s' in {Executing, Verifying, Complete, Failed} {
      assert attempts[..0] == [];
      assert a.target == Executing && After(s, attempts[..0]) == PlanReady;
    } else {
      ExecutionComesFromPlanReady(s', attempts[1..]);
      var j :| 0 <= j < |attempts[1..]| && attempts[1..][j].target == Executing
               && After(s', attempts[1..][..j]) == PlanReady && Derive(attempts[1..][j].facts).state == PlanReady;
      assert attempts[..j + 1][1..] == attempts[1..][..j];
      assert attempts[..j + 1][0] == a;
      assert attempts[j + 1] == attempts[1..][j];
    }
  }

  /** The gates a job passes before it runs, in their order. */
  function Gates(f: Facts): seq<bool>
  {
    [f.devicePresent, f.preflightRan, f.preflightSafe, f.serialSourcesAgree, f.backupSufficient, f.planGenerated,
     f.planBlocking == [], f.humanApproved]
  }

  /** Where a job stands that meets just so many of them; the last is the one that meets all. */
  const STANDINGS: seq<State> :=
    [Blocked, Discovered, Blocked, Blocked, BackupRequired, BackupVerified, Blocked, HumanApprovalRequired, PlanReady]

  /** A job that is not under way stands at the first gate it does not meet; what is under way or
      over goes before; and a reason is given exactly where something stands in the way. */
  lemma StandsAtFirstUnmet(f: Facts, i: nat)
    requires i <= 8 && (forall j :: 0 <= j < i ==> Gates(f)[j]) && (i < 8 ==> !Gates(f)[i])
    ensures f.failed != "" ==> Derive(f) == Status(Failed, [FailureReported(f.failed)])
    ensures f.failed == "" && f.complete ==> Derive(f).state == Complete
    ensures f.failed == "" && !f.complete && f.verifying ==> Derive(f).state == Verifying
    ensures f.failed == "" && !f.complete && !f.verifying && f.executing ==> Derive(f).state == Executing
    ensures f.failed == "" && !f.complete && !f.verifying && !f.executing ==> Derive(f).state == STANDINGS[i]
    ensures f.failed == "" && !f.complete && !f.verifying && !f.executing ==>
              var why := Derive(f).whyBlocked;
              && (i == 0 ==> why == [DeviceNotPresent])
              && (i == 2 && f.preflightRefusal != NoRefusal ==> why == [PreflightRefused(f.preflightRefusal)])
              && (i == 2 && f.preflightRefusal == NoRefusal ==> why == [NotSafe])
              && (i == 3 ==> why == [SerialNotConfirmed])
              && (i == 4 && f.planBlocking == [] ==> why == [NoBackupCovers])
              && (f.planBlocking != [] && (i == 4 || i == 6) ==> why == f.planBlocking)
              && (i == 7 ==> why == [NobodyApproved])
    ensures Derive(f).whyBlocked == [] <==>
            Derive(f).state in {Complete, Verifying, Executing, Discovered, BackupVerified, PlanReady}
  {
    var gates := Gates(f);
    assert gates[0] == f.devicePresent && gates[1] == f.preflightRan && gates[2] == f.preflightSafe
           && gates[3] == f.serialSourcesAgree && gates[4] == f.backupSufficient && gates[5] == f.planGenerated
           && gates[6] == (f.planBlocking == []) && gates[7] == f.humanApproved;
    assert i == 0 || i == 1 || i == 2 || i == 3 || i == 4 || i == 5 || i == 6 || i == 7 || i == 8;
  }

  /** Whatever the facts are: what runs may always be said to have failed, and what has not started
      may always be blocked. */
  lemma AlwaysAWayOut(s: State, f: Facts)
    ensures Advance(s, Failed, f).Ok? <==> s == Executing || s == Verifying
    ensures Advance(s, Blocked, f).Ok? <==>
            s in {Discovered, Preflight, BackupRequired, BackupVerified, HumanApprovalRequired, PlanReady}
    ensures forall t :: Advance(s, t, f).Ok? ==>
              && Advance(s, t, f).value == t
              && (t == Derive(f).state || t == Failed || t == Blocked
                  || (t == Executing && Derive(f).state == PlanReady))
  {}

  /** A job whose facts meet one gate after the other walks the whole way. */
  lemma WholeWay(f: Facts)
    requires f == NOTHING_ESTABLISHED.(devicePresent := true, preflightRan := true, preflightSafe := true,
                                       serialSourcesAgree := true)
    ensures var (g, h, k) := (f.(backupSufficient := true), f.(backupSufficient := true, planGenerated := true),
                              f.(backupSufficient := true, planGenerated := true, humanApproved := true));
            After(Preflight,
                  [Attempt(BackupRequired, f), Attempt(BackupVerified, g), Attempt(HumanApprovalRequired, h),
                   Attempt(PlanReady, k), Attempt(Executing, k), Attempt(Verifying, k.(verifying := true)),
                   Attempt(Complete, k.(complete := true))]) == Complete
  {
    hide After;
    var (g, h, k) := (f.(backupSufficient := true), f.(backupSufficient := true, planGenerated := true),
                      f.(backupSufficient := true, planGenerated := true, humanApproved := true));
    var a7: seq<Attempt> := [];
    var a6 := [Attempt(Complete, k.(complete := true))] + a7;
    var a5 := [Attempt(Verifying, k.(verifying := true))] + a6;
    var a4 := [Attempt(Executing, k)] + a5;
    var a3 := [Attempt(PlanReady, k)] + a4;
    var a2 := [Attempt(HumanApprovalRequired, h)] + a3;
    var a1 := [Attempt(BackupVerified, g)] + a2;
    var a0 := [Attempt(BackupRequired, f)] + a1;
    OneAttempt(Preflight, a0[0], a1);
    OneAttempt(BackupRequired, a1[0], a2);
    OneAttempt(BackupVerified, a2[0], a3);
    OneAttempt(HumanApprovalRequired, a3[0], a4);
    OneAttempt(PlanReady, a4[0], a5);
    OneAttempt(Executing, a5[0], a6);
    OneAttempt(Verifying, a6[0], a7);
    NoAttempts(Complete);
    assert a0 == [Attempt(BackupRequired, f), Attempt(BackupVerified, g), Attempt(HumanApprovalRequired, h),
                  Attempt(PlanReady, k), Attempt(Executing, k), Attempt(Verifying, k.(verifying := true)),
                  Attempt(Complete, k.(complete := true))];
  }

  lemma OneAttempt(s: State, a: Attempt, rest: seq<Attempt>)
    ensures var r := Advance(s, a.target, a.facts);
            After(s, [a] + rest) == After(if r.Ok? then r.value else s, rest)
  {
    assert ([a] + rest)[1..] == rest;
  }

  lemma NoAttempts(s: State)
    ensures After(s, []) == s
  {}

  /** What is over stays over. */
  lemma {:induction false} OverStaysOver(s: State, attempts: seq<Attempt>)
    requires s == Complete || s == Failed
    ensures After(s, attempts) == s
    decreases |attempts|
  {
    if attempts != [] { OverStaysOver(s, attempts[1..]); }
  }

  /** A job completes only out of its verification, on facts that say so ... */
  lemma {:induction false} CompleteWasVerifying(s: State, attempts: seq<Attempt>) returns (i: nat)
    requires s != Complete && After(s, attempts) == Complete
    ensures i < |attempts| && After(s, attempts[..i]) == Verifying
    ensures attempts[i].target == Complete && attempts[i].facts.complete && attempts[i].facts.failed == ""
    decreases |attempts|
  {
    var a := attempts[0];
    var r := Advance(s, a.target, a.facts);
    var s' := if r.Ok? then r.value else s;
    if s' == Complete {
      i := 0;
      assert attempts[..0] == [];
    } else {
      var j := CompleteWasVerifying(s', attempts[1..]);
      i := j + 1;
      assert attempts[..i][0] == a && attempts[..i][1..] == attempts[1..][..j];
    }
  }

  /** ... and is verified only out of an execution. */
  lemma {:induction false} VerifyingWasExecuting(s: State, attempts: seq<Attempt>) returns (i: nat)
    requires s != Verifying && After(s, attempts) == Verifying
    ensures i < |attempts| && After(s, attempts[..i]) == Executing
    ensures attempts[i].target == Verifying && attempts[i].facts.verifying
    decreases |attempts|
  {
    var a := attempts[0];
    var r := Advance(s, a.target, a.facts);
    var s' := if r.Ok? then r.value else s;
    if s' == Verifying {
      i := 0;
      assert attempts[..0] == [];
    } else {
      var j := VerifyingWasExecuting(s', attempts[1..]);
      i := j + 1;
      assert attempts[..i][0] == a && attempts[..i][1..] == attempts[1..][..j];
    }
  }
}
