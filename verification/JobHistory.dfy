/** What a job's end, its records and its status say of what happened in the run: of the answers
    its generator gave and of the cancellations asked for (api/jobs.py, api/durable.py). */
module JobHistory {

  import opened Digests
  import opened Jobs
  import JobHub
  import opened JobProtocol

  lemma RunFront(w0: Registry, actions: seq<Action>, i: nat)
    requires i < |actions|
    ensures Run(w0, actions[..i + 1]) == Apply(Run(w0, actions[..i]), actions[i])
  {
    hide Apply;
    assert actions[..i + 1][..i] == actions[..i];
  }

  // ------------------------------------------------------------------- cancellation

  /** Whoever was let to ask has not been forgotten. */
  predicate Heeded(j: Job, n: nat)
  {
    n in j.asking || j.cancelRequested
  }

  lemma StillHeeded(j: Job, a: Action, n: nat)
    requires Heeded(j, n)
    ensures Heeded(StepJob(j, a), n)
    ensures a.SetCancel? && a.n == n ==> StepJob(j, a).cancelRequested
  {
    hide JobHub.Publish, JobHub.Release, JobHub.Join, JobHub.Leave, JobHub.StepSub, Redact, ErrorOf, EntryOf;
  }

  lemma HeededThere(w: Registry, a: Action, id: string, n: nat)
    requires id in w.jobs && Heeded(w.jobs[id], n)
    ensures id in Apply(w, a).jobs && Heeded(Apply(w, a).jobs[id], n)
    ensures a == SetCancel(id, n) ==> Apply(w, a).jobs[id].cancelRequested
  {
    hide StepJob, Heeded, Appended;
    if Target(a) == Some(id) { StillHeeded(w.jobs[id], a, n); }
  }

  /** From the moment a canceller read that the job had not ended, it is heeded. */
  lemma {:induction false} AskedIsHeeded(w0: Registry, actions: seq<Action>, h: nat, i: nat, id: string, n: nat)
    requires h < i <= |actions| && actions[h] == AskCancel(id, n)
    requires id in Run(w0, actions[..h]).jobs && !Terminal(Run(w0, actions[..h]).jobs[id].state)
    ensures id in Run(w0, actions[..i]).jobs && Heeded(Run(w0, actions[..i]).jobs[id], n)
  {
    hide Heeded, Apply;
    RunFront(w0, actions, i - 1);
    if i == h + 1 {
      AskNoted(Run(w0, actions[..h]), id, n);
    } else {
      AskedIsHeeded(w0, actions, h, i - 1, id, n);
      HeededThere(Run(w0, actions[..i - 1]), actions[i - 1], id, n);
    }
  }

  lemma AskNoted(w: Registry, id: string, n: nat)
    requires id in w.jobs && !Terminal(w.jobs[id].state)
    ensures var w' := Apply(w, AskCancel(id, n));
            id in w'.jobs && Heeded(w'.jobs[id], n)
  {}

  /** The job has not ended, and its generator has neither returned nor raised. */
  predicate MayBeStopped(j: Job)
  {
    TurnsToCancel(j) > 0
  }

  /** A cancellation asked for while the job had not ended takes effect: from the action that sets it
      on the job says so, and at most one more record is published. */
  lemma CancelTakesEffect(w0: Registry, actions: seq<Action>, h: nat, i: nat, id: string, n: nat)
    requires Initial(w0) && h < i < |actions| && actions[h] == AskCancel(id, n) && actions[i] == SetCancel(id, n)
    requires id in Run(w0, actions[..h]).jobs && !Terminal(Run(w0, actions[..h]).jobs[id].state)
    ensures id in Run(w0, actions[..i]).jobs && id in Run(w0, actions[..i + 1]).jobs && id in Run(w0, actions).jobs
    ensures var (was, after, now) :=
              (Run(w0, actions[..i]).jobs[id], Run(w0, actions[..i + 1]).jobs[id], Run(w0, actions).jobs[id]);
            && after.cancelRequested && now.cancelRequested && after.state == was.state
            && was.hub.published <= now.hub.published && |now.hub.published| <= |was.hub.published| + 1
            && (MayBeStopped(was) ==> Stopped(after))
  {
    hide Apply, JobOk, Tells;
    AskedIsHeeded(w0, actions, h, i, id, n);
    RunFront(w0, actions, i);
    SetsIt(Run(w0, actions[..i]), id, n);
    JobsGoForward(w0, actions, i + 1, id);
    CancelBound(w0, actions[..i + 1], id);
    CancelBound(w0, actions, id);
  }

  lemma SetsIt(w: Registry, id: string, n: nat)
    requires id in w.jobs && Heeded(w.jobs[id], n)
    ensures var w' := Apply(w, SetCancel(id, n));
            && id in w'.jobs && w'.jobs[id].cancelRequested
            && w'.jobs[id].state == w.jobs[id].state && w'.jobs[id].hub == w.jobs[id].hub
            && (MayBeStopped(w.jobs[id]) ==> Stopped(w'.jobs[id]))
  {}

  lemma CancelBound(w0: Registry, actions: seq<Action>, id: string)
    requires Initial(w0) && id in Run(w0, actions).jobs
    ensures var j := Run(w0, actions).jobs[id];
            j.cancelRequested ==> j.cancelAt.Some? && j.cancelAt.value <= |j.hub.published| <= j.cancelAt.value + 1
  {
    hide Run, JobHub.HubOk;
    RunKeeps(w0, actions);
  }

  /** How many more turns the worker of a cancelled job takes before it ends. */
  function TurnsToCancel(j: Job): nat
  {
    match j.point
    case Ready => 4
    case Creating => 3
    case Checking => 2
    case Stopping => 1
    case Stepping => 4
    case Publishing(_) => 3
    case _ => 0
  }

  /** The job has been told to stop and its generator neither returned nor raised. */
  predicate Stopped(j: Job)
  {
    j.cancelRequested && (j.state == Cancelled || TurnsToCancel(j) > 0)
  }

  /** The worker of `id` moves: nobody holds the lock, and a generator that is asked yields. */
  predicate Moves(w: Registry, a: Action, id: string)
  {
    && a.Work? && a.id == id && id in w.jobs && w.jobs[id].hub.lock.None?
    && (w.jobs[id].point.Stepping? ==> a.answer.Yielded?)
  }

  /** The generator of `id` neither returns nor raises. */
  predicate GoesOn(a: Action, id: string)
  {
    a.Work? && a.id == id ==> !a.answer.Returns? && !a.answer.Raises?
  }

  function Moved(w: Registry, actions: seq<Action>, id: string): nat
  {
    if actions == [] then 0
    else
      var init, last := actions[..|actions| - 1], actions[|actions| - 1];
      Moved(w, init, id) + if Moves(Run(w, init), last, id) then 1 else 0
  }

  lemma NearerToCancelled(j: Job, a: Action)
    requires JobOk(j) && Stopped(j)
    requires a.Work? ==> !a.answer.Returns? && !a.answer.Raises?
    ensures var j' := StepJob(j, a);
            && Stopped(j') && (j.state == Cancelled ==> j'.state == Cancelled)
            && (j'.state == Cancelled || TurnsToCancel(j') <= TurnsToCancel(j))
            && (a.Work? && j.hub.lock.None? && (j.point.Stepping? ==> a.answer.Yielded?) && j.state != Cancelled ==>
                  j'.state == Cancelled || TurnsToCancel(j') < TurnsToCancel(j))
  {
    hide JobHub.HubOk, OutcomeOk, JobHub.Publish, JobHub.Release, JobHub.Join, JobHub.Leave, JobHub.StepSub, Redact,
         ErrorOf, EntryOf;
  }

  /** ... and a job that was running or waiting to then ends cancelled, once its worker has moved
      four times and its generator neither returned nor raised, however others' steps interleave. */
  lemma {:induction false} CancelledInTheEnd(w: Registry, actions: seq<Action>, id: string)
    requires Inv(w) && id in w.jobs && Stopped(w.jobs[id])
    requires forall a :: a in actions ==> GoesOn(a, id)
    ensures id in Run(w, actions).jobs
    ensures var j, j' := w.jobs[id], Run(w, actions).jobs[id];
            && Stopped(j') && (Terminal(j'.state) ==> j'.state == Cancelled)
            && (j'.state == Cancelled || TurnsToCancel(j') + Moved(w, actions, id) <= 4)
            && (Moved(w, actions, id) >= 4 ==> j'.state == Cancelled)
  {
    hide Apply, Inv, Stopped, TurnsToCancel;
    if actions == [] {
      StandsStopped(w, id);
    } else {
      var init, last := actions[..|actions| - 1], actions[|actions| - 1];
      assert last in actions && forall a :: a in init ==> a in actions;
      CancelledInTheEnd(w, init, id);
      RunKeepsFrom(w, init);
      StoppedThere(Run(w, init), last, id);
      RunKeepsFrom(w, actions);
      StandsStopped(Run(w, actions), id);
    }
  }

  lemma StandsStopped(w: Registry, id: string)
    requires Inv(w) && id in w.jobs && Stopped(w.jobs[id])
    ensures TurnsToCancel(w.jobs[id]) <= 4 && (Terminal(w.jobs[id].state) ==> w.jobs[id].state == Cancelled)
    ensures w.jobs[id].state != Cancelled ==> TurnsToCancel(w.jobs[id]) > 0
  {
    hide JobHub.HubOk, OutcomeOk, LastOutcome;
    assert JobOk(w.jobs[id]);
  }

  lemma StoppedThere(w: Registry, a: Action, id: string)
    requires Inv(w) && id in w.jobs && Stopped(w.jobs[id]) && GoesOn(a, id)
    ensures id in Apply(w, a).jobs
    ensures var j, j' := w.jobs[id], Apply(w, a).jobs[id];
            && Stopped(j') && (j.state == Cancelled ==> j'.state == Cancelled)
            && (j'.state == Cancelled || TurnsToCancel(j') <= TurnsToCancel(j))
            && (Moves(w, a, id) && j.state != Cancelled ==>
                  j'.state == Cancelled || TurnsToCancel(j') < TurnsToCancel(j))
  {
    hide JobOk, StepJob, Stopped, TurnsToCancel, LastOutcome, Appended;
    if Target(a) == Some(id) { NearerToCancelled(w.jobs[id], a); }
  }

  // ------------------------------------------------------------------------ records

  /** What the generator of `id` yielded when it was asked, in order. */
  function Yields(w0: Registry, actions: seq<Action>, id: string): seq<Progress>
  {
    if actions == [] then []
    else
      var init, last := actions[..|actions| - 1], actions[|actions| - 1];
      var now := Run(w0, init);
      Yields(w0, init, id)
      + if last.Work? && last.id == id && last.answer.Yielded? && id in now.jobs && now.jobs[id].point.Stepping?
        then [last.answer.p] else []
  }

  function InHand(p: Point): seq<Progress>
  {
    if p.Publishing? then [p.p] else []
  }

  lemma RecordKept(j: Job, a: Action)
    ensures var j' := StepJob(j, a);
            j'.hub.published + InHand(j'.point) == j.hub.published + InHand(j.point)
            + if a.Work? && a.answer.Yielded? && j.point.Stepping? then [a.answer.p] else []
  {
    hide JobHub.Publish, JobHub.Release, JobHub.Join, JobHub.Leave, JobHub.StepSub, Redact, ErrorOf, EntryOf;
    match a {
      case Work(_, answer) =>
        if j.point.Publishing? { PublishShape(j.hub, j.point.p); }
        if j.point.Releasing? { ReleaseShape(j.hub); }
      case Subscribe(_, n) => SubscriberShape(j.hub, n, Terminal(j.state));
      case Read(_, n) => SubscriberShape(j.hub, n, Terminal(j.state));
      case Unsubscribe(_, n) => SubscriberShape(j.hub, n, Terminal(j.state));
      case _ =>
    }
  }

  /** Over every run: what was published, and what the worker has in hand, is exactly what the
      generator yielded, in order. */
  lemma {:induction false} PublishedAreYields(w0: Registry, actions: seq<Action>, id: string)
    requires Initial(w0)
    ensures id !in Run(w0, actions).jobs ==> Yields(w0, actions, id) == []
    ensures id in Run(w0, actions).jobs ==>
              var j := Run(w0, actions).jobs[id];
              Yields(w0, actions, id) == j.hub.published + InHand(j.point)
  {
    hide StepJob, Appended, InHand;
    if actions != [] {
      var init, last := actions[..|actions| - 1], actions[|actions| - 1];
      PublishedAreYields(w0, init, id);
      var w := Run(w0, init);
      if id in w.jobs {
        if Target(last) == Some(id) { RecordKept(w.jobs[id], last); }
      } else {
        NothingInHand(last, w.maxBuffered);
      }
    }
  }

  lemma NothingInHand(a: Action, max: nat)
    ensures a.Submit? ==> NewJob(a.info, max).hub.published + InHand(NewJob(a.info, max).point) == []
  {}

  // ---------------------------------------------------------------------- outcomes

  /** Some action gave the worker of `id` this answer. */
  ghost predicate Gave(actions: seq<Action>, id: string, answer: Answer)
  {
    Work(id, answer) in actions
  }

  /** The error a job reports is the one its generator raised, in its own words. */
  ghost predicate ErrorRaised(actions: seq<Action>, id: string, error: ErrorInfo)
  {
    exists e: Raised ::
      && Gave(actions, id, Raises(e))
      && error.message == e.message
      && error.kind == (if e.rpcKind.Some? && e.rpcKind.value != "" then e.rpcKind.value else e.typeName)
      && error.remediation == (if e.remediation.Some? then e.remediation.value else "")
  }

  /** What a job says of its end was given to its worker. */
  ghost predicate SaysWhatWasGiven(j: Job, actions: seq<Action>, id: string)
  {
    && (j.result.Some? ==> Gave(actions, id, Returns(j.result.value)))
    && (j.point.Failing? ==> Gave(actions, id, Raises(j.point.e)))
    && (j.point.Explaining? ==> Gave(actions, id, Raises(j.point.e)))
    && (j.error.Some? ==> ErrorRaised(actions, id, j.error.value))
  }

  lemma StillSays(j: Job, a: Action, actions: seq<Action>, id: string)
    requires SaysWhatWasGiven(j, actions, id) && (a.Work? ==> a.id == id)
    ensures SaysWhatWasGiven(StepJob(j, a), actions + [a], id)
  {
    hide JobHub.Publish, JobHub.Release, JobHub.Join, JobHub.Leave, JobHub.StepSub, Redact, EntryOf;
    MoreGiven(j, a, actions, id);
    if a.Work? && j.point.Explaining? { ErrorSaid(j.point.e, actions + [a], id); }
    assert (actions + [a])[|actions|] == a;
  }

  lemma ErrorSaid(e: Raised, actions: seq<Action>, id: string)
    requires Gave(actions, id, Raises(e))
    ensures ErrorRaised(actions, id, ErrorOf(e))
  {}

  lemma MoreGiven(j: Job, a: Action, actions: seq<Action>, id: string)
    requires SaysWhatWasGiven(j, actions, id)
    ensures SaysWhatWasGiven(j, actions + [a], id)
  {
    assert forall x :: x in actions ==> x in actions + [a];
    if j.error.Some? {
      var e: Raised :|
        && Gave(actions, id, Raises(e))
        && j.error.value.message == e.message
        && j.error.value.kind == (if e.rpcKind.Some? && e.rpcKind.value != "" then e.rpcKind.value else e.typeName)
        && j.error.value.remediation == (if e.remediation.Some? then e.remediation.value else "");
      assert Gave(actions + [a], id, Raises(e));
    }
  }

  lemma NothingSaid(info: Info, max: nat, actions: seq<Action>, id: string)
    ensures SaysWhatWasGiven(NewJob(info, max), actions, id)
  {}

  lemma {:induction false} EndsAsGiven(w0: Registry, actions: seq<Action>, id: string)
    requires Initial(w0) && id in Run(w0, actions).jobs
    ensures SaysWhatWasGiven(Run(w0, actions).jobs[id], actions, id)
  {
    hide StepJob, Appended, SaysWhatWasGiven, NewJob;
    var init, last := actions[..|actions| - 1], actions[|actions| - 1];
    assert actions == init + [last];
    var w := Run(w0, init);
    if id in w.jobs {
      EndsAsGiven(w0, init, id);
      if Target(last) == Some(id) {
        StillSays(w.jobs[id], last, init, id);
      } else {
        MoreGiven(w.jobs[id], last, init, id);
      }
    } else {
      NothingSaid(last.info, w.maxBuffered, actions, id);
    }
  }

  /** The generator returned or raised with this answer, and the job's end is of it. */
  predicate Decided(j: Job, answer: Answer)
  {
    match answer
    case Returns(value) => j.result == Some(value) && ((j.point.Returned? && j.state == Running) || j.state == Complete)
    case Raises(e) =>
      || (j.point == Failing(e) && j.state == Running)
      || (j.state == Failed && (j.point == Explaining(e) || j.error == Some(ErrorOf(e))))
    case _ => false
  }

  lemma StaysDecided(j: Job, a: Action, answer: Answer)
    requires JobOk(j) && Decided(j, answer)
    ensures Decided(StepJob(j, a), answer)
  {
    hide JobHub.HubOk, OutcomeOk, JobHub.Publish, JobHub.Release, JobHub.Join, JobHub.Leave, JobHub.StepSub, Redact,
         ErrorOf, EntryOf;
  }

  lemma DecidedThere(w: Registry, a: Action, id: string, answer: Answer)
    requires Inv(w) && id in w.jobs && Decided(w.jobs[id], answer)
    ensures id in Apply(w, a).jobs && Decided(Apply(w, a).jobs[id], answer)
  {
    hide StepJob, Decided, Appended, JobOk, LastOutcome;
    if Target(a) == Some(id) { StaysDecided(w.jobs[id], a, answer); }
  }

  /** The worker asks its generator: to be made, for a record, or to close. */
  predicate Asks(j: Job, answer: Answer)
  {
    (j.point.Stepping? && (answer.Returns? || answer.Raises?))
    || ((j.point.Creating? || j.point.Stopping?) && answer.Raises?)
  }

  lemma DecidedBy(j: Job, id: string, answer: Answer)
    requires JobOk(j) && Asks(j, answer)
    ensures Decided(StepJob(j, Work(id, answer)), answer)
  {
    hide JobHub.HubOk, OutcomeOk, ErrorOf;
  }

  /** Over every run: whatever the generator returns or raises, also while it is made or closed, decides
      the job's end; a job that is over then is complete with that value or failed with that error. */
  lemma {:induction false} EndsAsAnswered(w0: Registry, actions: seq<Action>, i: nat, id: string, answer: Answer)
    requires Initial(w0) && i < |actions| && actions[i] == Work(id, answer)
    requires id in Run(w0, actions[..i]).jobs && Asks(Run(w0, actions[..i]).jobs[id], answer)
    ensures id in Run(w0, actions).jobs && Decided(Run(w0, actions).jobs[id], answer)
    ensures var j := Run(w0, actions).jobs[id];
            Terminal(j.state) ==> j.state == if answer.Returns? then Complete else Failed
  {
    hide StepJob, Appended, Inv, Asks, Run;
    var n := |actions| - 1;
    assert actions[..n + 1] == actions;
    RunFront(w0, actions, n);
    RunKeeps(w0, actions[..n]);
    assert id in Run(w0, actions).jobs && Decided(Run(w0, actions).jobs[id], answer) by {
      if i == n {
        StartsDecided(Run(w0, actions[..n]), id, answer);
      } else {
        assert actions[..n][..i] == actions[..i];
        EndsAsAnswered(w0, actions[..n], i, id, answer);
        DecidedThere(Run(w0, actions[..n]), actions[n], id, answer);
      }
    }
  }

  lemma StartsDecided(w: Registry, id: string, answer: Answer)
    requires Inv(w) && id in w.jobs && Asks(w.jobs[id], answer)
    ensures var w' := Apply(w, Work(id, answer)); id in w'.jobs && Decided(w'.jobs[id], answer)
  {
    hide StepJob, Appended, Asks, Decided, JobOk, LastOutcome;
    DecidedBy(w.jobs[id], id, answer);
  }

  /** Others may write anything to the ledger but outcomes of this registry's jobs. */
  lemma {:induction false} OthersAreFree(w: Registry, entries: seq<Entry>)
    requires forall e :: e in entries && e.operation == "job.outcome" ==> e.info.id !in w.jobs
    ensures Run(w, seq(|entries|, i requires 0 <= i < |entries| => OthersAppend(entries[i]))) ==
            w.(ledger := w.ledger + entries)
  {
    var actions := seq(|entries|, i requires 0 <= i < |entries| => OthersAppend(entries[i]));
    if entries == [] {
      assert w.ledger + entries == w.ledger;
    } else {
      var init, last := entries[..|entries| - 1], entries[|entries| - 1];
      OthersAreFree(w, init);
      assert actions[..|actions| - 1] == seq(|init|, i requires 0 <= i < |init| => OthersAppend(init[i]));
      assert w.ledger + entries == w.ledger + init + [last];
    }
  }

  /** What a client is told of a job, over every run: the state; of the records, what is buffered and
      dropped of those the generator yielded; of the end, the value it returned or the error it
      raised; and the parameters it was started with but for what must not be told. */
  lemma ClientIsTold(w0: Registry, actions: seq<Action>, id: string)
    requires Initial(w0) && id in Run(w0, actions).jobs
    ensures var w := Run(w0, actions);
            var j := w.jobs[id];
            && StatusFor(w, id).Some?
            && var s := StatusFor(w, id).value;
            && s.id == id && s.state == j.state && !s.reconstructed && s.kind == j.info.kind && s.actor == j.info.actor
            && s.actorBasis == j.info.actorBasis
            && s.startedAt == j.info.startedAt && s.finishedAt == j.finishedAt && s.cancelRequested == j.cancelRequested
            && s.progressCount + s.dropped + |InHand(j.point)| == |Yields(w0, actions, id)|
            && (s.latest.Some? ==> j.hub.published != [] && s.latest.value == j.hub.published[|j.hub.published| - 1])
            && (s.latest.None? <==> s.progressCount == 0)
            && (s.state == Complete <==> s.result.Some? && !j.point.Returned?)
            && (s.result.Some? ==> Gave(actions, id, Returns(s.result.value)))
            && (s.error.Some? <==> s.errorKind.Some?) && (s.error.Some? ==> s.state == Failed)
            && (s.error.Some? ==> ErrorRaised(actions, id, ErrorInfo(s.error.value, s.errorKind.value, s.remediation)))
            && Withheld(j.info.params, s.params)
  {
    hide Run, JobHub.HubOk, Yields, Redact, Gave, ErrorRaised, Newest;
    RunKeeps(w0, actions);
    EndsAsGiven(w0, actions, id);
    PublishedAreYields(w0, actions, id);
    BufferAndCancel(w0, actions, id);
    RedactedExactly(Run(w0, actions).jobs[id].info.params);
  }

  /** The keys are all there, and so are the values but for the three that must not be told. */
  predicate Withheld(params: map<string, string>, told: map<string, string>)
  {
    && told.Keys == params.Keys
    && forall key :: key in params ==>
         told[key] == if key == "typed_serial" || key == "authorization" || key == "authorization_dir"
                      then "<redacted>" else params[key]
  }

  lemma RedactedExactly(params: map<string, string>)
    ensures Withheld(params, Redact(params))
  {}

  /** ... and the ledger's entry for it withholds the same and tells the same end. */
  lemma LedgerIsTold(w0: Registry, actions: seq<Action>, id: string)
    requires Initial(w0) && id in Run(w0, actions).jobs && Run(w0, actions).jobs[id].outcome.Some?
    ensures var j := Run(w0, actions).jobs[id];
            var e := j.outcome.value;
            && LastOutcome(Run(w0, actions).ledger, id) == Some(e)
            && e.operation == "job.outcome" && e.info.id == id && Withheld(j.info.params, e.info.params)
            && e.info == j.info.(params := e.info.params)
            && Terminal(e.state) && e.state == j.state && e.finishedAt == j.finishedAt
            && (e.state == Complete <==> e.result.Some?) && (e.state == Failed <==> e.error.Some?)
            && (e.result.Some? ==> Gave(actions, id, Returns(e.result.value)))
            && (e.error.Some? ==> ErrorRaised(actions, id, e.error.value))
            && (e.cancelRequested ==> j.cancelRequested) && (e.state == Cancelled ==> j.cancelRequested)
  {
    hide Run, JobHub.HubOk, Redact, Gave, ErrorRaised, LastOutcome;
    RunKeeps(w0, actions);
    EndsAsGiven(w0, actions, id);
    RedactedExactly(Run(w0, actions).jobs[id].info.params);
  }

  /** When a job's end was, and whether the ledger took it, is what its worker was answered at those two turns,
      and stays so: an append that failed leaves the ledger without it for good. */
  lemma EndIsWritten(w0: Registry, actions: seq<Action>, i: nat, id: string, at: nat, stored: bool)
    requires Initial(w0) && i < |actions| && actions[i] == Work(id, Proceeds(at, stored))
    requires id in Run(w0, actions[..i]).jobs
    ensures id in Run(w0, actions[..i + 1]).jobs && id in Run(w0, actions).jobs
    ensures var (was, after, now) :=
              (Run(w0, actions[..i]), Run(w0, actions[..i + 1]), Run(w0, actions));
            && (was.jobs[id].point.Ending? ==> now.jobs[id].finishedAt == Some(at))
            && (was.jobs[id].point.Recording? && stored ==>
                  && now.jobs[id].outcome.Some? && now.jobs[id].outcome == LastOutcome(now.ledger, id)
                  && after.ledger == was.ledger + [now.jobs[id].outcome.value])
            && (was.jobs[id].point.Recording? && !stored ==>
                  after.ledger == was.ledger && now.jobs[id].outcome.None? && Recorded(now.jobs[id].point))
  {
    hide JobOk, LastOutcome, EntryOf;
    RunFront(w0, actions, i);
    JobsGoForward(w0, actions, i + 1, id);
    RunKeeps(w0, actions);
  }
}
