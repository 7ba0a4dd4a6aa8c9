/** The registry of jobs: each job's worker, its publishers, subscribers and cancellers, and
    the durable outcome appended to the ledger when it ends (api/jobs.py, api/durable.py). */
module JobProtocol {

  import opened Digests
  import opened Jobs
  import opened JobHub

  /** What the job's generator raised. */
  datatype Raised = Raised(message: string, rpcKind: Option<string>, typeName: string, remediation: Option<string>)

  function ErrorOf(e: Raised): ErrorInfo
  {
    ErrorInfo(
      e.message,
      if e.rpcKind.Some? && e.rpcKind.value != "" then e.rpcKind.value else e.typeName,
      if e.remediation.Some? then e.remediation.value else "")
  }

  /** Where the worker thread is in `_run`. */
  datatype Point =
    | Ready | Creating | Checking | Stopping | Stepping | Publishing(p: Progress) | Returned
    | Failing(e: Raised) | Explaining(e: Raised)
    | Ending | Releasing | Recording | Settling | Done

  /** What the outside answers a worker's step with. */
  datatype Answer = Yielded(p: Progress) | Returns(value: string) | Raises(e: Raised) | Proceeds(at: nat, stored: bool)

  datatype Info = Info(
    id: string, kind: string, params: map<string, string>, actor: string, actorBasis: string, startedAt: nat)

  /** `cancelAt` is how much was published when cancellation was first requested, `asking`
      the cancellers that have read the state and not yet set the flag, and `outcome` the
      entry the ledger took. */
  datatype Job = Job(
    info: Info,
    state: JobState,
    point: Point,
    hub: Hub,
    result: Option<string>,
    error: Option<ErrorInfo>,
    finishedAt: Option<nat>,
    cancelRequested: bool,
    cancelAt: Option<nat>,
    asking: set<nat>,
    settled: bool,
    outcome: Option<Entry>)

  /** A ledger entry; only `job.outcome` entries carry an outcome. */
  datatype Entry = Entry(
    operation: string, info: Info, state: JobState, result: Option<string>, error: Option<ErrorInfo>,
    finishedAt: Option<nat>, cancelRequested: bool)

  datatype Registry = Registry(maxBuffered: nat, jobs: map<string, Job>, ledger: seq<Entry>)

  datatype Action =
    | Submit(info: Info)
    | Work(id: string, answer: Answer)
    | Subscribe(id: string, n: nat)
    | Read(id: string, n: nat)
    | Unsubscribe(id: string, n: nat)
    | AskCancel(id: string, n: nat)
    | SetCancel(id: string, n: nat)
    | OthersAppend(entry: Entry)

  const JOB_OUTCOME := "job.outcome"

  const REDACTED := {"typed_serial", "authorization", "authorization_dir"}

  function Redact(params: map<string, string>): map<string, string>
  {
    map key | key in params :: if key in REDACTED then "<redacted>" else params[key]
  }

  function NewJob(info: Info, max: nat): Job
  {
    Job(info, Pending, Ready, NewHub(max), None, None, None, false, None, {}, false, None)
  }

  // ----------------------------------------------------------------------- the steps

  /** The worker's next step. A step that must wait for the lock changes nothing. */
  function StepWorker(j: Job, a: Answer): Job
  {
    match j.point
    case Ready => j.(state := Running, point := Creating)
    case Creating => j.(point := if a.Raises? then Failing(a.e) else Checking)
    case Checking => j.(point := if j.cancelRequested then Stopping else Stepping)
    case Stopping => if a.Raises? then j.(point := Failing(a.e)) else j.(state := Cancelled, point := Ending)
    case Stepping =>
      (match a
       case Yielded(p) => j.(point := Publishing(p))
       case Returns(value) => j.(result := Some(value), point := Returned)
       case Raises(e) => j.(point := Failing(e))
       case Proceeds(_, _) => j)
    case Publishing(p) => if j.hub.lock.None? then j.(hub := Publish(j.hub, p), point := Checking) else j
    case Returned => j.(state := Complete, point := Ending)
    case Failing(e) => j.(state := Failed, point := Explaining(e))
    case Explaining(e) => j.(error := Some(ErrorOf(e)), point := Ending)
    case Ending => j.(finishedAt := Some(if a.Proceeds? then a.at else 0), point := Releasing)
    case Releasing => if j.hub.lock.None? then j.(hub := Release(j.hub), point := Recording) else j
    case Recording => j.(outcome := if a.Proceeds? && a.stored then Some(EntryOf(j)) else None, point := Settling)
    case Settling => j.(settled := true, point := Done)
    case Done => j
  }

  /** The entry `record_outcome` appends. */
  function EntryOf(j: Job): Entry
  {
    Entry(JOB_OUTCOME, j.info.(params := Redact(j.info.params)), j.state, j.result, j.error, j.finishedAt,
          j.cancelRequested)
  }

  function StepJob(j: Job, a: Action): Job
  {
    match a
    case Work(_, answer) => StepWorker(j, answer)
    case Subscribe(_, n) => j.(hub := Join(j.hub, n))
    case Read(_, n) => j.(hub := StepSub(j.hub, n, Terminal(j.state)))
    case Unsubscribe(_, n) => j.(hub := Leave(j.hub, n))
    case AskCancel(_, n) => if Terminal(j.state) then j else j.(asking := j.asking + {n})
    case SetCancel(_, n) =>
      if n !in j.asking then j
      else j.(asking := j.asking - {n},
              cancelRequested := true,
              cancelAt := if j.cancelAt.None? then Some(|j.hub.published|) else j.cancelAt)
    case _ => j
  }

  function Target(a: Action): Option<string>
  {
    match a
    case Submit(_) => None
    case OthersAppend(_) => None
    case _ => Some(a.id)
  }

  /** What a step appends to the ledger. */
  function Appended(j: Job, j': Job): seq<Entry>
  {
    if j.point.Recording? && j'.outcome.Some? then [j'.outcome.value] else []
  }

  /** One step of somebody; an action that is not possible changes nothing. Whoever else
      writes to the ledger does not write outcomes of this registry's jobs. */
  function Apply(w: Registry, a: Action): Registry
  {
    match a
    case Submit(info) =>
      if info.id in w.jobs then w else w.(jobs := w.jobs[info.id := NewJob(info, w.maxBuffered)])
    case OthersAppend(e) =>
      if e.operation == JOB_OUTCOME && e.info.id in w.jobs then w else w.(ledger := w.ledger + [e])
    case _ =>
      if a.id !in w.jobs then w
      else
        var j := w.jobs[a.id];
        var j' := StepJob(j, a);
        w.(jobs := w.jobs[a.id := j'], ledger := w.ledger + Appended(j, j'))
  }

  function Run(w: Registry, actions: seq<Action>): Registry
  {
    if actions == [] then w
    else Apply(Run(w, actions[..|actions| - 1]), actions[|actions| - 1])
  }

  /** A process that has just started, over whatever ledger it finds. */
  predicate Initial(w: Registry)
  {
    w.jobs == map[]
  }

  // ----------------------------------------------------------- the two status records

  datatype Status = Status(
    id: string, kind: string, state: JobState, params: map<string, string>,
    progressCount: nat, dropped: nat, latest: Option<Progress>,
    result: Option<string>, error: Option<string>, errorKind: Option<string>, remediation: string,
    startedAt: nat, finishedAt: Option<nat>, cancelRequested: bool, actor: string, actorBasis: string,
    reconstructed: bool)

  /** `JobRecord.as_dict`. */
  function StatusOf(j: Job): Status
  {
    Status(
      j.info.id, j.info.kind, j.state, Redact(j.info.params),
      |j.hub.progress|, j.hub.dropped,
      if j.hub.progress != [] then Some(j.hub.progress[|j.hub.progress| - 1]) else None,
      j.result,
      if j.error.Some? then Some(j.error.value.message) else None,
      if j.error.Some? then Some(j.error.value.kind) else None,
      if j.error.Some? then j.error.value.remediation else "",
      j.info.startedAt, j.finishedAt, j.cancelRequested, j.info.actor, j.info.actorBasis, false)
  }

  /** The newest outcome the ledger holds for `id`. */
  function LastOutcome(ledger: seq<Entry>, id: string): Option<Entry>
  {
    if ledger == [] then None
    else
      var e := ledger[|ledger| - 1];
      if e.operation == JOB_OUTCOME && e.info.id == id then Some(e)
      else LastOutcome(ledger[..|ledger| - 1], id)
  }

  /** `reconstruct_status`. */
  function Reconstruct(ledger: seq<Entry>, id: string): Option<Status>
  {
    match LastOutcome(ledger, id)
    case None => None
    case Some(e) =>
      Some(Status(
             id, e.info.kind, e.state, e.info.params, 0, 0, None, e.result,
             if e.error.Some? then Some(e.error.value.message) else None,
             if e.error.Some? then Some(e.error.value.kind) else None,
             if e.error.Some? then e.error.value.remediation else "",
             e.info.startedAt, e.finishedAt, e.cancelRequested, e.info.actor, e.info.actorBasis, true))
  }

  /** `status_for`: the registry's job if it has one, the ledger's otherwise. */
  function StatusFor(w: Registry, id: string): Option<Status>
  {
    if id in w.jobs then Some(StatusOf(w.jobs[id])) else Reconstruct(w.ledger, id)
  }

  // ---------------------------------------------------------------------- invariant

  predicate Recorded(p: Point)
  {
    p.Settling? || p.Done?
  }

  predicate Released(p: Point)
  {
    p.Recording? || p.Settling? || p.Done?
  }

  predicate Past(p: Point)
  {
    p.Ending? || p.Releasing? || Released(p)
  }

  /** What the state, the result, the error and the flags are at each point of `_run`. */
  predicate WorkerOk(j: Job)
  {
    && (j.point.Ready? <==> j.state == Pending)
    && (Terminal(j.state) <==> j.point.Explaining? || Past(j.point))
    && (j.point.Explaining? ==> j.state == Failed)
    && (j.result.Some? <==> j.point.Returned? || j.state == Complete)
    && (j.error.Some? <==> j.state == Failed && !j.point.Explaining?)
    && (j.point.Stopping? || j.state == Cancelled ==> j.cancelRequested)
    && (j.finishedAt.Some? <==> j.point.Releasing? || Released(j.point))
    && (j.settled <==> j.point.Done?)
    && (j.cancelRequested <==> j.cancelAt.Some?)
    && (j.cancelAt.Some? ==>
          && j.cancelAt.value <= |j.hub.published| <= j.cancelAt.value + 1
          && (j.point.Stepping? || j.point.Publishing? ==> |j.hub.published| == j.cancelAt.value))
  }

  /** The entry written for a job says what the job says, except that cancellation may have
      been requested since. */
  predicate Tells(e: Entry, j: Job)
  {
    e == EntryOf(j).(cancelRequested := e.cancelRequested) && (e.cancelRequested ==> j.cancelRequested)
  }

  predicate OutcomeOk(j: Job)
  {
    j.outcome.Some? ==> (j.point.Settling? || j.point.Done?) && Tells(j.outcome.value, j)
  }

  ghost predicate JobOk(j: Job)
  {
    WorkerOk(j) && OutcomeOk(j) && HubOk(j.hub, Terminal(j.state), Released(j.point))
  }

  ghost predicate Inv(w: Registry)
  {
    forall id :: id in w.jobs ==>
                   && JobOk(w.jobs[id]) && w.jobs[id].info.id == id && w.jobs[id].hub.max == w.maxBuffered
                   && (w.jobs[id].outcome.Some? ==> LastOutcome(w.ledger, id) == w.jobs[id].outcome)
  }

  lemma NewJobOk(info: Info, max: nat)
    ensures JobOk(NewJob(info, max))
  {
    hide HubOk;
    StartsOk(max);
  }

  lemma WorkerStepOk(j: Job, a: Answer)
    requires JobOk(j)
    ensures JobOk(StepWorker(j, a))
  {
    hide HubOk, Publish, Release, Redact, ErrorOf;
    var j' := StepWorker(j, a);
    if j.point.Publishing? && j.hub.lock.None? {
      PublishOk(j.hub, j.point.p);
      PublishShape(j.hub, j.point.p);
    } else if j.point.Releasing? && j.hub.lock.None? {
      ReleaseOk(j.hub);
      ReleaseShape(j.hub);
    } else if Terminal(j'.state) && !Terminal(j.state) {
      TerminatesOk(j.hub);
    }
  }

  lemma PublishShape(h: Hub, p: Progress)
    ensures Publish(h, p).published == h.published + [p] && Publish(h, p).max == h.max
  {}

  lemma ReleaseShape(h: Hub)
    ensures Release(h).published == h.published && Release(h).max == h.max
  {}

  lemma SubscriberShape(h: Hub, n: nat, terminal: bool)
    ensures Join(h, n).published == h.published && Join(h, n).max == h.max
    ensures Leave(h, n).published == h.published && Leave(h, n).max == h.max
    ensures StepSub(h, n, terminal).published == h.published && StepSub(h, n, terminal).max == h.max
  {
    hide NextSub;
  }

  lemma JobStepOk(j: Job, a: Action)
    requires JobOk(j)
    ensures JobOk(StepJob(j, a))
  {
    hide HubOk, StepWorker, Join, Leave, StepSub, Redact;
    match a {
      case Work(_, answer) => WorkerStepOk(j, answer);
      case Subscribe(_, n) =>
        JoinOk(j.hub, n, Terminal(j.state), Released(j.point));
        SubscriberShape(j.hub, n, Terminal(j.state));
      case Read(_, n) =>
        StepSubOk(j.hub, n, Terminal(j.state), Released(j.point));
        SubscriberShape(j.hub, n, Terminal(j.state));
      case Unsubscribe(_, n) =>
        LeaveOk(j.hub, n, Terminal(j.state), Released(j.point));
        SubscriberShape(j.hub, n, Terminal(j.state));
      case _ =>
    }
  }

  /** What any number of steps may change: a job goes forward, its records only grow while it runs, and
      the outcome is written once, at one point. */
  predicate Forward(j: Job, j': Job)
  {
    && j'.info == j.info && j'.hub.max == j.hub.max
    && (j.state == Pending || j'.state == j.state || (j.state == Running && Terminal(j'.state)))
    && (j'.state == Pending ==> j.state == Pending)
    && j.hub.published <= j'.hub.published
    && (Terminal(j.state) ==> j'.hub.published == j.hub.published)
    && (j.cancelRequested ==> j'.cancelRequested && j'.cancelAt == j.cancelAt)
    && (j.settled ==> j'.settled && Tells(EntryOf(j), j'))
    && (Released(j.point) ==> Released(j'.point))
    && (j.finishedAt.Some? ==> j'.finishedAt == j.finishedAt)
    && (Recorded(j.point) ==> Recorded(j'.point) && j'.outcome == j.outcome)
  }

  /** How a job's state may move in one step. */
  predicate StateStep(was: JobState, now: JobState)
  {
    now == was || (was == Pending && now == Running) || (was == Running && Terminal(now))
  }

  lemma JobStepForward(j: Job, a: Action)
    requires JobOk(j)
    ensures Forward(j, StepJob(j, a)) && StateStep(j.state, StepJob(j, a).state)
  {
    hide HubOk, Publish, Release, Join, Leave, StepSub, Redact, ErrorOf;
    match a {
      case Work(_, answer) =>
        if j.point.Publishing? { PublishShape(j.hub, j.point.p); }
        if j.point.Releasing? { ReleaseShape(j.hub); }
      case Subscribe(_, n) => SubscriberShape(j.hub, n, Terminal(j.state));
      case Read(_, n) => SubscriberShape(j.hub, n, Terminal(j.state));
      case Unsubscribe(_, n) => SubscriberShape(j.hub, n, Terminal(j.state));
      case _ =>
    }
  }

  /** An outcome is written at one point only, and then the ledger takes exactly it. */
  lemma OutcomeWritten(j: Job, a: Action)
    requires JobOk(j)
    ensures var j' := StepJob(j, a);
            && (Appended(j, j') == [] ==> j'.outcome == j.outcome)
            && (Appended(j, j') != [] ==> j'.outcome == Some(EntryOf(j)) && Appended(j, j') == [EntryOf(j)])
  {
    hide HubOk, Publish, Release, Join, Leave, StepSub, Redact, ErrorOf;
  }

  lemma LastOfAppended(ledger: seq<Entry>, e: Entry, id: string)
    ensures LastOutcome(ledger + [e], id) ==
            if e.operation == JOB_OUTCOME && e.info.id == id then Some(e) else LastOutcome(ledger, id)
    ensures LastOutcome(ledger + [], id) == LastOutcome(ledger, id)
  {
    assert (ledger + [e])[..|ledger|] == ledger;
    assert ledger + [] == ledger;
  }

  lemma ApplyKeeps(w: Registry, a: Action)
    requires Inv(w)
    ensures Inv(Apply(w, a))
  {
    hide JobOk, StepJob, EntryOf, Forward, LastOutcome, Appended;
    var w' := Apply(w, a);
    match a {
      case Submit(info) => NewJobOk(info, w.maxBuffered);
      case OthersAppend(e) =>
        forall id ensures LastOutcome(w.ledger + [e], id) ==
                          if e.operation == JOB_OUTCOME && e.info.id == id then Some(e) else LastOutcome(w.ledger, id)
        {
          LastOfAppended(w.ledger, e, id);
        }
      case _ =>
        if a.id in w.jobs { JobActionKeeps(w, a); }
    }
  }

  lemma JobActionKeeps(w: Registry, a: Action)
    requires Inv(w) && Target(a).Some? && Target(a).value in w.jobs
    ensures Inv(Apply(w, a))
  {
    hide JobOk, StepJob, LastOutcome, Appended;
    var j := w.jobs[a.id];
    var j' := StepJob(j, a);
    JobStepOk(j, a);
    JobStepForward(j, a);
    OutcomeWritten(j, a);
    forall id ensures Appended(j, j') == [] ==> LastOutcome(w.ledger + Appended(j, j'), id) == LastOutcome(w.ledger, id)
      ensures Appended(j, j') != [] ==> LastOutcome(w.ledger + Appended(j, j'), id) ==
                                        if id == a.id then Some(EntryOf(j)) else LastOutcome(w.ledger, id)
    {
      LastOfAppended(w.ledger, EntryOf(j), id);
    }
  }

  lemma {:induction false} RunKeepsFrom(w: Registry, actions: seq<Action>)
    requires Inv(w)
    ensures Inv(Run(w, actions))
  {
    hide Inv, Apply;
    if actions != [] {
      RunKeepsFrom(w, actions[..|actions| - 1]);
      ApplyKeeps(Run(w, actions[..|actions| - 1]), actions[|actions| - 1]);
    }
  }

  lemma RunKeeps(w: Registry, actions: seq<Action>)
    requires Initial(w)
    ensures Inv(Run(w, actions))
  {
    assert Inv(w);
    RunKeepsFrom(w, actions);
  }

  // ----------------------------------------------------------------------- theorems

  lemma ApplyForward(w: Registry, a: Action, id: string)
    requires Inv(w) && id in w.jobs
    ensures id in Apply(w, a).jobs && Forward(w.jobs[id], Apply(w, a).jobs[id])
    ensures StateStep(w.jobs[id].state, Apply(w, a).jobs[id].state)
  {
    hide HubOk, StepJob, LastOutcome, Appended, Forward;
    StandsStill(w.jobs[id]);
    if Target(a) == Some(id) { JobStepForward(w.jobs[id], a); }
  }

  lemma StandsStill(j: Job)
    requires JobOk(j)
    ensures Forward(j, j)
  {
    hide HubOk, Redact;
  }

  lemma ForwardComposes(a: Job, b: Job, c: Job)
    requires Forward(a, b) && Forward(b, c)
    ensures Forward(a, c)
  {
    hide Redact;
  }

  /** Over every run, between any two of its moments: a job that has ended stays as it ended, with
      its records, its outcome fields and its cancellation as they are, one that runs never goes
      back to pending, and records only grow while it has not ended. */
  lemma {:induction false} JobsGoForward(w0: Registry, actions: seq<Action>, i: nat, id: string)
    requires Initial(w0) && i <= |actions| && id in Run(w0, actions[..i]).jobs
    ensures id in Run(w0, actions).jobs
    ensures Forward(Run(w0, actions[..i]).jobs[id], Run(w0, actions).jobs[id])
    decreases |actions| - i
  {
    hide Forward, JobOk, Apply;
    if i == |actions| {
      assert actions[..i] == actions;
      RunKeeps(w0, actions);
      StandsStill(Run(w0, actions).jobs[id]);
    } else {
      var before, after := Run(w0, actions[..i]), Run(w0, actions[..i + 1]);
      assert actions[..i + 1][..i] == actions[..i];
      RunKeeps(w0, actions[..i]);
      ApplyForward(before, actions[i], id);
      JobsGoForward(w0, actions, i + 1, id);
      ForwardComposes(before.jobs[id], after.jobs[id], Run(w0, actions).jobs[id]);
    }
  }

  /** The job's state after the first `i` actions, if it is there by then. */
  function StateAfter(w0: Registry, actions: seq<Action>, i: nat, id: string): Option<JobState>
    requires i <= |actions|
  {
    var w := Run(w0, actions[..i]);
    if id in w.jobs then Some(w.jobs[id].state) else None
  }

  /** Over every run, action by action: a job appears pending; then each action leaves its state,
      takes it from pending to running, or from running to a terminal state. */
  lemma StatesStep(w0: Registry, actions: seq<Action>, i: nat, id: string)
    requires Initial(w0) && i < |actions|
    ensures var was, now := StateAfter(w0, actions, i, id), StateAfter(w0, actions, i + 1, id);
            match was
            case None => now == None || now == Some(Pending)
            case Some(state) => now.Some? && StateStep(state, now.value)
  {
    hide StateStep, Inv, JobOk, StepJob;
    assert actions[..i + 1][..i] == actions[..i];
    RunKeeps(w0, actions[..i]);
    if id in Run(w0, actions[..i]).jobs { ApplyForward(Run(w0, actions[..i]), actions[i], id); }
  }

  /** Over every run: a job that has ended was running at some moment, and pending at one before. */
  lemma {:induction false} EndedJobsRan(w0: Registry, actions: seq<Action>, n: nat, id: string) returns (p: nat, r: nat)
    requires Initial(w0) && n <= |actions|
    requires StateAfter(w0, actions, n, id).Some? && StateAfter(w0, actions, n, id).value != Pending
    ensures p < r <= n
    ensures StateAfter(w0, actions, p, id) == Some(Pending) && StateAfter(w0, actions, r, id) == Some(Running)
    ensures Terminal(StateAfter(w0, actions, n, id).value) ==> r < n
  {
    hide StateAfter;
    NobodyYet(w0, actions, id);
    StatesStep(w0, actions, n - 1, id);
    if StateAfter(w0, actions, n - 1, id) == Some(Pending) {
      p, r := n - 1, n;
    } else {
      p, r := EndedJobsRan(w0, actions, n - 1, id);
    }
  }

  lemma NobodyYet(w0: Registry, actions: seq<Action>, id: string)
    requires Initial(w0)
    ensures StateAfter(w0, actions, 0, id) == None
  {
    assert actions[..0] == [];
  }

  /** Over every run: a job found pending and later ended was running in between. */
  lemma {:induction false} RanInBetween(w0: Registry, actions: seq<Action>, i: nat, n: nat, id: string)
    returns (r: nat)
    requires Initial(w0) && i <= n <= |actions|
    requires StateAfter(w0, actions, i, id) == Some(Pending)
    requires StateAfter(w0, actions, n, id).Some? && StateAfter(w0, actions, n, id).value != Pending
    ensures i < r <= n && StateAfter(w0, actions, r, id) == Some(Running)
    ensures Terminal(StateAfter(w0, actions, n, id).value) ==> r < n
  {
    hide StateAfter;
    StatesStep(w0, actions, n - 1, id);
    StaysThere(w0, actions, i, n - 1, id);
    if StateAfter(w0, actions, n - 1, id) == Some(Pending) {
      r := n;
    } else {
      r := RanInBetween(w0, actions, i, n - 1, id);
    }
  }

  lemma {:induction false} StaysThere(w0: Registry, actions: seq<Action>, i: nat, n: nat, id: string)
    requires Initial(w0) && i <= n <= |actions| && StateAfter(w0, actions, i, id).Some?
    ensures StateAfter(w0, actions, n, id).Some?
  {
    hide StateAfter, StateStep;
    if i < n {
      StaysThere(w0, actions, i, n - 1, id);
      StatesStep(w0, actions, n - 1, id);
    }
  }

  /** Over every run: the replay buffer is the newest records and the dropped count makes up
      the rest; at most one record follows a cancel request; a cancelled job was asked. */
  lemma BufferAndCancel(w0: Registry, actions: seq<Action>, id: string)
    requires Initial(w0) && id in Run(w0, actions).jobs
    ensures var j := Run(w0, actions).jobs[id];
            && j.hub.dropped + |j.hub.progress| == |j.hub.published|
            && j.hub.progress == j.hub.published[j.hub.dropped..]
            && |j.hub.progress| == Min(w0.maxBuffered, |j.hub.published|)
            && (j.cancelRequested ==> j.cancelAt.Some? && |j.hub.published| <= j.cancelAt.value + 1)
            && (j.state == Cancelled ==> j.cancelRequested)
  {
    RunKeeps(w0, actions);
    RunKeepsBound(w0, actions);
  }

  lemma {:induction false} RunKeepsBound(w: Registry, actions: seq<Action>)
    ensures Run(w, actions).maxBuffered == w.maxBuffered
  {
    hide StepJob, Appended;
    if actions != [] { RunKeepsBound(w, actions[..|actions| - 1]); }
  }

  /** Over every run and interleaving: whoever read to the end was given the buffer as it was
      when it joined and then every later record of the finished job that is no less far than
      the last of those; whoever did not was given a prefix of what was due so far. */
  lemma SubscribersGetWhatIsDue(w0: Registry, actions: seq<Action>, id: string, n: nat)
    requires Initial(w0) && id in Run(w0, actions).jobs && n in Run(w0, actions).jobs[id].hub.subs
    ensures var j := Run(w0, actions).jobs[id];
            var s := j.hub.subs[n];
            && s.joinedAt <= |j.hub.published|
            && var joined, later := j.hub.published[..s.joinedAt], j.hub.published[s.joinedAt..];
            && s.backlog == Newest(joined, j.hub.max)
            && s.sent <= s.backlog + Kept(s.backlog, later)
            && (s.phase == Gone(true) ==> Terminal(j.state) && s.sent == s.backlog + Kept(s.backlog, later))
  {
    hide Newest, Kept, WorkerOk, OutcomeOk, LastOutcome;
    RunKeeps(w0, actions);
    var j := Run(w0, actions).jobs[id];
    assert SubOk(j.hub, n, j.hub.subs[n], Terminal(j.state), Released(j.point));
  }

  /** Nothing is skipped exactly when no later record is behind the last buffered one. */
  lemma {:induction false} NothingSkippedIff(backlog: seq<Progress>, later: seq<Progress>)
    ensures Kept(backlog, later) == later <==> forall i :: 0 <= i < |later| ==> !Skips(backlog, later[i])
    ensures |Kept(backlog, later)| <= |later|
  {
    if later != [] {
      NothingSkippedIff(backlog, later[..|later| - 1]);
      assert later == later[..|later| - 1] + [later[|later| - 1]];
    }
  }

  /** A record published after the first `joined` is no less far than the last of those. */
  predicate NoneBehind(records: seq<Progress>, joined: nat, max: nat)
    requires joined <= |records|
  {
    joined == 0 || max == 0 ||
    forall i :: joined <= i < |records| ==> records[i].bytesDone >= records[joined - 1].bytesDone
  }

  /** Over every run: a subscriber that reads to the end is given one unbroken stretch of the
      job's records up to its last - from the buffer on, no gap and no duplicate - exactly when
      no record published after it joined is behind the last one published before. */
  lemma NothingIsLostIff(w0: Registry, actions: seq<Action>, id: string, n: nat)
    requires Initial(w0) && id in Run(w0, actions).jobs && n in Run(w0, actions).jobs[id].hub.subs
    requires Run(w0, actions).jobs[id].hub.subs[n].phase == Gone(true)
    ensures var j := Run(w0, actions).jobs[id];
            var s := j.hub.subs[n];
            && Missing(s.joinedAt, j.hub.max) <= s.joinedAt <= |j.hub.published|
            && (s.sent == j.hub.published[Missing(s.joinedAt, j.hub.max)..]
                <==> NoneBehind(j.hub.published, s.joinedAt, j.hub.max))
  {
    hide Kept, Run, Newest, NoneBehind, Missing;
    SubscribersGetWhatIsDue(w0, actions, id, n);
    var j := Run(w0, actions).jobs[id];
    LostIff(j.hub.published, j.hub.subs[n].joinedAt, j.hub.max);
  }

  /** The buffer and what is kept after it are one stretch exactly when nothing falls behind it. */
  lemma LostIff(records: seq<Progress>, joined: nat, max: nat)
    requires joined <= |records|
    ensures var backlog := Newest(records[..joined], max);
            && Missing(joined, max) <= joined
            && (backlog + Kept(backlog, records[joined..]) == records[Missing(joined, max)..]
                <==> NoneBehind(records, joined, max))
  {
    hide Kept, NoneBehind;
    var backlog, later := Newest(records[..joined], max), records[joined..];
    NothingSkippedIff(backlog, later);
    assert records[Missing(joined, max)..] == backlog + later;
    SkippedIsBehind(backlog, records, joined, max);
    SameTail(backlog, Kept(backlog, later), later);
  }

  lemma SameTail(a: seq<Progress>, b: seq<Progress>, c: seq<Progress>)
    ensures a + b == a + c <==> b == c
  {
    assert (a + b)[|a|..] == b && (a + c)[|a|..] == c;
  }

  lemma SkippedIsBehind(backlog: seq<Progress>, records: seq<Progress>, joined: nat, max: nat)
    requires joined <= |records| && (backlog == [] <==> joined == 0 || max == 0)
    requires backlog != [] ==> backlog[|backlog| - 1] == records[joined - 1]
    ensures (forall i :: 0 <= i < |records[joined..]| ==> !Skips(backlog, records[joined..][i]))
            <==> NoneBehind(records, joined, max)
  {
    forall i | joined <= i < |records| ensures records[i] == records[joined..][i - joined] {}
  }

  predicate NeverFallsBack(records: seq<Progress>)
  {
    forall i, j :: 0 <= i < j < |records| ==> records[i].bytesDone <= records[j].bytesDone
  }

  /** In particular nothing is lost when `bytes_done` never falls. */
  lemma MonotoneSubscribersMissNothing(w0: Registry, actions: seq<Action>, id: string, n: nat)
    requires Initial(w0) && id in Run(w0, actions).jobs && n in Run(w0, actions).jobs[id].hub.subs
    requires NeverFallsBack(Run(w0, actions).jobs[id].hub.published)
    requires Run(w0, actions).jobs[id].hub.subs[n].phase == Gone(true)
    ensures var j := Run(w0, actions).jobs[id];
            var s := j.hub.subs[n];
            && Missing(s.joinedAt, j.hub.max) <= |j.hub.published|
            && s.sent == j.hub.published[Missing(s.joinedAt, j.hub.max)..]
  {
    hide Run;
    NothingIsLostIff(w0, actions, id, n);
  }

  /** Once a job is settled and its append succeeded, the ledger tells what the registry
      tells: everything but the buffer, and a cancellation requested too late. */
  predicate SameOutcome(chain: Status, live: Status)
  {
    && chain == live.(progressCount := 0, dropped := 0, latest := None,
                      cancelRequested := chain.cancelRequested, reconstructed := true)
    && (chain.cancelRequested ==> live.cancelRequested)
  }

  lemma SettledOutcomesSurvive(w0: Registry, actions: seq<Action>, id: string)
    requires Initial(w0) && id in Run(w0, actions).jobs
    ensures var w := Run(w0, actions);
            var j := w.jobs[id];
            && (j.settled && j.outcome.Some? ==>
                  && Terminal(j.state) && StatusFor(w, id) == Some(StatusOf(j))
                  && Reconstruct(w.ledger, id).Some?
                  && SameOutcome(Reconstruct(w.ledger, id).value, StatusOf(j))
                  && StatusFor(w.(jobs := map[]), id) == Reconstruct(w.ledger, id))
            && (j.settled ==> Terminal(j.state) && j.finishedAt.Some?)
  {
    hide LastOutcome, HubOk, Redact;
    RunKeeps(w0, actions);
  }

  // ---------------------------------------------------------------- no stream hangs

  /** How many more steps a subscriber can still take in a job that has released its queues. */
  function StepsLeft(h: Hub, n: nat): nat
    requires n in h.subs && n in h.fed
  {
    var s := h.subs[n];
    match s.phase
    case Snapshot => 3 + |s.backlog| + |h.fed[n]|
    case Enrolled => 2 + |s.backlog| + |h.fed[n]|
    case Reading => 1 + Missing(|s.backlog|, |s.sent|) + Missing(|h.fed[n]|, s.taken)
    case Closing(_) => 0
    case Gone(_) => 0
  }

  /** In a job that has released its queues no subscriber ever waits for an item: each of its
      steps brings it nearer its end. */
  lemma ReleasedNeverWaits(h: Hub, n: nat)
    requires HubOk(h, true, true) && n in h.subs && n in h.fed
    ensures var h' := StepSub(h, n, true);
            && n in h'.subs && n in h'.fed
            && (if StepsLeft(h, n) > 0 then StepsLeft(h', n) < StepsLeft(h, n) else StepsLeft(h', n) == 0)
  {
    hide Newest, Kept, Skips, BufferOk, Due;
    assert SubOk(h, n, h.subs[n], true, true);
  }

  /** What others do, or its own consumer's leaving, gives a subscriber nothing more to do. */
  lemma OthersDoNotDelay(j: Job, a: Action, n: nat)
    requires JobOk(j) && Released(j.point) && n in j.hub.subs && n in j.hub.fed
    requires !(a.Read? && a.n == n)
    ensures var h' := StepJob(j, a).hub;
            n in h'.subs && n in h'.fed && StepsLeft(h', n) <= StepsLeft(j.hub, n)
  {
    hide HubOk, WorkerOk, OutcomeOk, NextSub, Redact, EntryOf, Newest;
  }

  function Turns(actions: seq<Action>, id: string, n: nat): nat
  {
    if actions == [] then 0
    else Turns(actions[..|actions| - 1], id, n) + if actions[|actions| - 1] == Read(id, n) then 1 else 0
  }

  lemma OneStepNearer(w: Registry, a: Action, id: string, n: nat)
    requires Inv(w) && id in w.jobs && Released(w.jobs[id].point) && n in w.jobs[id].hub.subs && n in w.jobs[id].hub.fed
    ensures var w' := Apply(w, a);
            && id in w'.jobs && Released(w'.jobs[id].point) && n in w'.jobs[id].hub.subs && n in w'.jobs[id].hub.fed
            && var before, after := StepsLeft(w.jobs[id].hub, n), StepsLeft(w'.jobs[id].hub, n);
            after <= before && (a == Read(id, n) && before > 0 ==> after < before)
  {
    hide StepsLeft, HubOk, WorkerOk, OutcomeOk, StepWorker, StepSub, Join, Leave, LastOutcome, Forward, Appended;
    var j := w.jobs[id];
    assert JobOk(j);
    ApplyForward(w, a, id);
    ReleasedIsTerminal(j);
    ForwardStaysReleased(j, Apply(w, a).jobs[id]);
    if Target(a) == Some(id) {
      if a == Read(id, n) { ReleasedNeverWaits(j.hub, n); } else { OthersDoNotDelay(j, a, n); }
    }
  }

  lemma ForwardStaysReleased(j: Job, j': Job)
    requires Forward(j, j') && Released(j.point)
    ensures Released(j'.point)
  {
    hide Tells;
  }

  lemma ReleasedIsTerminal(j: Job)
    requires JobOk(j) && Released(j.point)
    ensures HubOk(j.hub, true, true) && Terminal(j.state)
  {
    hide HubOk;
  }

  lemma {:induction false} TurnsBringTheEnd(w: Registry, actions: seq<Action>, id: string, n: nat)
    requires Inv(w) && id in w.jobs && Released(w.jobs[id].point) && n in w.jobs[id].hub.subs && n in w.jobs[id].hub.fed
    ensures var w' := Run(w, actions);
            && id in w'.jobs && Released(w'.jobs[id].point) && n in w'.jobs[id].hub.subs && n in w'.jobs[id].hub.fed
            && (StepsLeft(w'.jobs[id].hub, n) == 0
                || StepsLeft(w'.jobs[id].hub, n) + Turns(actions, id, n) <= StepsLeft(w.jobs[id].hub, n))
  {
    hide StepsLeft, Apply, Inv, Released;
    if actions != [] {
      var init := actions[..|actions| - 1];
      TurnsBringTheEnd(w, init, id, n);
      RunKeepsFrom(w, init);
      OneStepNearer(Run(w, init), actions[|actions| - 1], id, n);
    }
  }

  /** No end marker is lost: once a job has released its queues, a subscriber that is given
      as many turns as it has steps left has ended, however the others' steps interleave. */
  lemma StreamsEnd(w0: Registry, before: seq<Action>, after: seq<Action>, id: string, n: nat)
    requires Initial(w0)
    requires id in Run(w0, before).jobs && Released(Run(w0, before).jobs[id].point)
    requires n in Run(w0, before).jobs[id].hub.subs
    ensures n in Run(w0, before).jobs[id].hub.fed
    ensures Turns(after, id, n) >= StepsLeft(Run(w0, before).jobs[id].hub, n) ==>
              var w := Run(Run(w0, before), after);
              && id in w.jobs && n in w.jobs[id].hub.subs
              && (w.jobs[id].hub.subs[n].phase.Closing? || w.jobs[id].hub.subs[n].phase.Gone?)
  {
    hide WorkerOk, OutcomeOk, Released, Apply;
    RunKeeps(w0, before);
    var w := Run(w0, before);
    assert SubOk(w.jobs[id].hub, n, w.jobs[id].hub.subs[n], Terminal(w.jobs[id].state), Released(w.jobs[id].point));
    TurnsBringTheEnd(w, after, id, n);
  }

  /** How many more steps the worker of an ended job takes before it releases the queues. */
  function WorkLeft(p: Point): nat
  {
    match p
    case Explaining(_) => 3
    case Ending => 2
    case Releasing => 1
    case _ => 0
  }

  /** The turns the worker of `id` was given while nobody held its lock. */
  function FreeTurns(w: Registry, actions: seq<Action>, id: string): nat
  {
    if actions == [] then 0
    else
      var init, last := actions[..|actions| - 1], actions[|actions| - 1];
      var now := Run(w, init);
      FreeTurns(w, init, id)
      + if last.Work? && last.id == id && id in now.jobs && now.jobs[id].hub.lock.None? then 1 else 0
  }

  lemma WorkerNearer(j: Job, a: Action)
    requires JobOk(j) && Terminal(j.state)
    ensures var j' := StepJob(j, a);
            && WorkLeft(j'.point) <= WorkLeft(j.point)
            && (a.Work? && j.hub.lock.None? && WorkLeft(j.point) > 0 ==> WorkLeft(j'.point) < WorkLeft(j.point))
            && (WorkLeft(j.point) == 0 <==> Released(j.point))
  {
    hide HubOk, OutcomeOk, Publish, Release, Join, Leave, StepSub, Redact, ErrorOf, EntryOf;
  }

  lemma WorkerNearerThere(w: Registry, a: Action, id: string)
    requires Inv(w) && id in w.jobs && Terminal(w.jobs[id].state)
    ensures var w' := Apply(w, a);
            && id in w'.jobs && Terminal(w'.jobs[id].state)
            && WorkLeft(w'.jobs[id].point) <= WorkLeft(w.jobs[id].point)
            && (a.Work? && a.id == id && w.jobs[id].hub.lock.None? && WorkLeft(w.jobs[id].point) > 0 ==>
                  WorkLeft(w'.jobs[id].point) < WorkLeft(w.jobs[id].point))
            && (WorkLeft(w.jobs[id].point) == 0 <==> Released(w.jobs[id].point))
  {
    hide JobOk, StepJob, Forward, WorkLeft, Released, Appended, LastOutcome;
    ApplyForward(w, a, id);
    WorkerNearer(w.jobs[id], a);
  }

  /** However the others' steps interleave: the worker of an ended job that is given as many turns
      with the lock free as it has steps left - never more than three - has released the queues. */
  lemma {:induction false} EndedJobsRelease(w: Registry, actions: seq<Action>, id: string)
    requires Inv(w) && id in w.jobs && Terminal(w.jobs[id].state)
    ensures id in Run(w, actions).jobs
    ensures var j, j' := w.jobs[id], Run(w, actions).jobs[id];
            && Terminal(j'.state) && WorkLeft(j.point) <= 3
            && (Released(j'.point) || WorkLeft(j'.point) + FreeTurns(w, actions, id) <= WorkLeft(j.point))
            && (FreeTurns(w, actions, id) >= WorkLeft(j.point) ==> Released(j'.point))
  {
    hide Apply, Inv, Released;
    if actions == [] {
      WorkerNearerThere(w, Submit(w.jobs[id].info), id);
    } else {
      var init, last := actions[..|actions| - 1], actions[|actions| - 1];
      EndedJobsRelease(w, init, id);
      RunKeepsFrom(w, init);
      WorkerNearerThere(Run(w, init), last, id);
      RunKeepsFrom(w, actions);
      WorkerNearerThere(Run(w, actions), last, id);
    }
  }

  lemma {:induction false} RunSplits(w: Registry, a: seq<Action>, b: seq<Action>)
    ensures Run(w, a + b) == Run(Run(w, a), b)
  {
    hide Apply;
    if b == [] {
      assert a + b == a;
    } else {
      RunSplits(w, a, b[..|b| - 1]);
      assert (a + b)[..|a + b| - 1] == a + b[..|b| - 1];
    }
  }

  /** From the end of the job to the end of the stream: three worker turns with the lock free, and
      then the reader's own turns, end every stream of an ended job. */
  lemma EndedStreamsEnd(w0: Registry, before: seq<Action>, working: seq<Action>, reading: seq<Action>, id: string,
                        n: nat)
    requires Initial(w0) && id in Run(w0, before).jobs && Terminal(Run(w0, before).jobs[id].state)
    requires FreeTurns(Run(w0, before), working, id) >= 3
    requires id in Run(w0, before + working).jobs && n in Run(w0, before + working).jobs[id].hub.subs
    ensures var w := Run(w0, before + working);
            && n in w.jobs[id].hub.fed
            && (Turns(reading, id, n) >= StepsLeft(w.jobs[id].hub, n) ==>
                  var w' := Run(w, reading);
                  && id in w'.jobs && n in w'.jobs[id].hub.subs
                  && (w'.jobs[id].hub.subs[n].phase.Closing? || w'.jobs[id].hub.subs[n].phase.Gone?))
  {
    hide Run, Released, StepsLeft;
    RunKeeps(w0, before);
    RunSplits(w0, before, working);
    EndedJobsRelease(Run(w0, before), working, id);
    StreamsEnd(w0, before + working, reading, id, n);
  }
}
