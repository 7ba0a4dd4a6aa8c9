/** A run in which a subscriber that reads to the end loses a record (api/jobs.py). */
module JobWitness {

  import opened Digests
  import opened Jobs
  import opened JobHub
  import opened JobProtocol

  const ID := "job"
  const INFO: Info := Info(ID, "restore", map[], "actor", "", 0)
  const FAR: Progress := Progress(5, "")
  const BEHIND: Progress := Progress(3, "")

  /** The worker goes on; the ledger, when it comes to it, does not take the outcome. */
  const GOES: Answer := Proceeds(0, false)

  /** The steps of one job. */
  function Steps(j: Job, actions: seq<Action>): Job
    decreases |actions|
  {
    if actions == [] then j else Steps(StepJob(j, actions[0]), actions[1..])
  }

  function Alone(max: nat, j: Job): Registry
  {
    Registry(max, map[ID := j], [])
  }

  /** A registry of one job runs as that job does. */
  lemma {:induction false} AloneRuns(max: nat, j: Job, actions: seq<Action>)
    requires j.info.id == ID && j.outcome.None?
    requires forall i :: 0 <= i < |actions| ==>
               Target(actions[i]) == Some(ID)
               && (actions[i].Work? ==> !(actions[i].answer.Proceeds? && actions[i].answer.stored))
    ensures Run(Alone(max, j), actions) == Alone(max, Steps(j, actions))
    decreases |actions|
  {
    hide StepJob;
    if actions != [] {
      var j' := StepJob(j, actions[0]);
      NothingStored(j, actions[0]);
      assert map[ID := j][ID := j'] == map[ID := j'];
      assert Apply(Alone(max, j), actions[0]) == Alone(max, j');
      AloneRuns(max, j', actions[1..]);
      RunFront(Alone(max, j), actions);
    }
  }

  lemma NothingStored(j: Job, a: Action)
    requires j.outcome.None? && (a.Work? ==> !(a.answer.Proceeds? && a.answer.stored))
    ensures StepJob(j, a).outcome.None? && StepJob(j, a).info == j.info && Appended(j, StepJob(j, a)) == []
  {
    hide Publish, Release, Join, Leave, StepSub, EntryOf, ErrorOf;
  }

  lemma {:induction false} RunFront(w: Registry, actions: seq<Action>)
    requires actions != []
    ensures Run(w, actions) == Run(Apply(w, actions[0]), actions[1..])
  {
    hide Apply;
    if |actions| > 1 {
      RunFront(w, actions[..|actions| - 1]);
      assert actions[..|actions| - 1][1..] == actions[1..][..|actions| - 2];
    }
  }

  lemma {:induction false} StepsConcat(j: Job, a: seq<Action>, b: seq<Action>)
    ensures Steps(j, a + b) == Steps(Steps(j, a), b)
    decreases |a|
  {
    hide StepJob;
    if a == [] {
      assert a + b == b;
    } else {
      StepsConcat(StepJob(j, a[0]), a[1..], b);
      assert (a + b)[1..] == a[1..] + b;
    }
  }

  // ---------------------------------------------------------------- the four stretches

  const STARTS: seq<Action> :=
    [Work(ID, GOES), Work(ID, GOES), Work(ID, GOES), Work(ID, Yielded(FAR)), Work(ID, GOES)]
  const JOINS: seq<Action> := [Subscribe(ID, 0), Read(ID, 0), Read(ID, 0)]
  const FALLS: seq<Action> := [Work(ID, GOES), Work(ID, Yielded(BEHIND)), Work(ID, GOES)]
  const FINISHES: seq<Action> :=
    [Work(ID, GOES), Work(ID, Returns("")), Work(ID, GOES), Work(ID, GOES), Work(ID, GOES)]
  const READS: seq<Action> := [Read(ID, 0), Read(ID, 0), Read(ID, 0), Read(ID, 0)]

  /** The first record is published and nobody listens. */
  function Started(): Job
  {
    NewJob(INFO, 10).(state := Running, point := Checking, hub := NewHub(10).(progress := [FAR], published := [FAR]))
  }

  function Joined(): Job
  {
    Started().(hub := Started().hub.(registered := {0}, fed := map[0 := []],
                                     subs := map[0 := Sub(Phase.Reading, [FAR], 1, false, 0, [])]))
  }

  function Fallen(): Job
  {
    Joined().(hub := Joined().hub.(
      progress := [FAR, BEHIND], published := [FAR, BEHIND], fed := map[0 := [Some(BEHIND)]]))
  }

  function Finished(): Job
  {
    Fallen().(state := Complete, point := Recording, result := Some(""), finishedAt := Some(0),
              hub := Fallen().hub.(fed := map[0 := [Some(BEHIND), None]]))
  }

  function ReadOut(): Job
  {
    Finished().(hub := Finished().hub.(registered := {},
                                       subs := map[0 := Sub(Gone(true), [FAR], 1, false, 2, [FAR])]))
  }

  lemma OneStep(j: Job, a: Action, rest: seq<Action>)
    ensures Steps(j, [a] + rest) == Steps(StepJob(j, a), rest)
  {
    hide StepJob;
    assert ([a] + rest)[1..] == rest;
  }

  lemma FiveSteps(j: Job, a: Action, b: Action, c: Action, d: Action, e: Action)
    ensures Steps(j, [a, b, c, d, e]) == StepJob(StepJob(StepJob(StepJob(StepJob(j, a), b), c), d), e)
  {
    hide StepJob;
    FourSteps(StepJob(j, a), b, c, d, e);
    OneStep(j, a, [b, c, d, e]);
    assert [a] + [b, c, d, e] == [a, b, c, d, e];
  }

  lemma FourSteps(j: Job, a: Action, b: Action, c: Action, d: Action)
    ensures Steps(j, [a, b, c, d]) == StepJob(StepJob(StepJob(StepJob(j, a), b), c), d)
  {
    hide StepJob;
    ThreeSteps(StepJob(j, a), b, c, d);
    OneStep(j, a, [b, c, d]);
    assert [a] + [b, c, d] == [a, b, c, d];
  }

  lemma ThreeSteps(j: Job, a: Action, b: Action, c: Action)
    ensures Steps(j, [a, b, c]) == StepJob(StepJob(StepJob(j, a), b), c)
  {
    hide StepJob;
    var j1 := StepJob(j, a);
    var j2 := StepJob(j1, b);
    OneStep(j, a, [b, c]);
    OneStep(j1, b, [c]);
    OneStep(j2, c, []);
    assert [a] + [b, c] == [a, b, c] && [b] + [c] == [b, c] && [c] + [] == [c];
  }

  lemma Starts()
    ensures Steps(NewJob(INFO, 10), STARTS) == Started()
  {
    FiveSteps(NewJob(INFO, 10), Work(ID, GOES), Work(ID, GOES), Work(ID, GOES), Work(ID, Yielded(FAR)), Work(ID, GOES));
    assert PutAll(map[], {}, Some(FAR)) == map[];
    assert Newest([] + [FAR], 10) == [FAR];
  }

  lemma Joins()
    ensures Steps(Started(), JOINS) == Joined()
  {
    ThreeSteps(Started(), Subscribe(ID, 0), Read(ID, 0), Read(ID, 0));
    var j1 := StepJob(Started(), Subscribe(ID, 0));
    assert j1.hub.subs == map[0 := Sub(Snapshot, [FAR], 1, false, 0, [])] && j1.hub.fed == map[0 := []];
    var j2 := StepJob(j1, Read(ID, 0));
    assert j2.hub.subs == map[0 := Sub(Enrolled, [FAR], 1, false, 0, [])] && j2.hub.registered == {0};
    var j3 := StepJob(j2, Read(ID, 0));
    assert j3.hub.subs == Joined().hub.subs;
  }

  lemma PutOne(queue: seq<Item>, item: Item)
    ensures PutAll(map[0 := queue], {0}, item) == map[0 := queue + [item]]
  {
    var queues: map<nat, seq<Item>> := map[0 := queue];
    assert PutAll(queues, {0}, item).Keys == {0};
  }

  lemma Falls()
    ensures Steps(Joined(), FALLS) == Fallen()
  {
    ThreeSteps(Joined(), Work(ID, GOES), Work(ID, Yielded(BEHIND)), Work(ID, GOES));
    PutOne([], Some(BEHIND));
    assert [] + [Some(BEHIND)] == [Some(BEHIND)];
    assert Newest([FAR] + [BEHIND], 10) == [FAR, BEHIND];
  }

  lemma Finishes()
    ensures Steps(Fallen(), FINISHES) == Finished()
  {
    FiveSteps(Fallen(), Work(ID, GOES), Work(ID, Returns("")), Work(ID, GOES), Work(ID, GOES), Work(ID, GOES));
    PutOne([Some(BEHIND)], None);
    assert [Some(BEHIND)] + [None] == [Some(BEHIND), None];
  }

  lemma Reads()
    ensures Steps(Finished(), READS) == ReadOut()
  {
    FourSteps(Finished(), Read(ID, 0), Read(ID, 0), Read(ID, 0), Read(ID, 0));
    var j1 := StepJob(Finished(), Read(ID, 0));
    assert [] + [FAR] == [FAR];
    assert j1.hub.subs == map[0 := Sub(Phase.Reading, [FAR], 1, false, 0, [FAR])];
    var j2 := StepJob(j1, Read(ID, 0));
    assert j2.hub.subs == map[0 := Sub(Phase.Reading, [FAR], 1, false, 1, [FAR])];
    var j3 := StepJob(j2, Read(ID, 0));
    assert j3.hub.subs == map[0 := Sub(Closing(true), [FAR], 1, false, 2, [FAR])];
    var j4 := StepJob(j3, Read(ID, 0));
    assert j4.hub.subs == ReadOut().hub.subs;
  }

  /** Five bytes done, a subscriber, three bytes done: it reads to the end of the finished job
      and is never given the second record. */
  lemma LosesARecord() returns (w0: Registry, actions: seq<Action>)
    ensures Initial(w0) && ID in Run(w0, actions).jobs
    ensures var j := Run(w0, actions).jobs[ID];
            && j.hub.published == [FAR, BEHIND] && j.state == Complete
            && 0 in j.hub.subs && j.hub.subs[0].phase == Gone(true)
            && j.hub.subs[0].joinedAt == 1 && j.hub.subs[0].sent == [FAR]
  {
    hide StepJob, Steps, NewJob;
    var j := NewJob(INFO, 10);
    var all := STARTS + JOINS + FALLS + FINISHES + READS;
    Starts();
    Joins();
    Falls();
    Finishes();
    Reads();
    StepsConcat(j, STARTS, JOINS);
    StepsConcat(j, STARTS + JOINS, FALLS);
    StepsConcat(j, STARTS + JOINS + FALLS, FINISHES);
    StepsConcat(j, STARTS + JOINS + FALLS + FINISHES, READS);
    Begins(j);
    AloneRuns(10, j, all);
    w0 := Registry(10, map[], []);
    actions := [Submit(INFO)] + all;
    RunFront(w0, actions);
    assert actions[1..] == all;
    assert Apply(w0, actions[0]) == Alone(10, j);
  }

  lemma Begins(j: Job)
    requires j == NewJob(INFO, 10)
    ensures j.info.id == ID && j.outcome.None?
  {}
}
