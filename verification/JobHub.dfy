/** The part of a job that its worker and its subscribers share (api/jobs.py): the replay
    buffer, the subscribers' queues, and the lock. Every step below is one section under the
    lock, or one read outside it; the sections interleave in any order. */
module JobHub {

  import opened Digests
  import opened Jobs

  /** `Snapshot` and `Enrolled` are the two points inside `subscribe`'s lock between its
      three reads. `Closing` is its `finally`; `complete` says the stream ran to its end. */
  datatype Phase = Snapshot | Enrolled | Reading | Closing(complete: bool) | Gone(complete: bool)

  datatype Sub = Sub(
    phase: Phase, backlog: seq<Progress>, joinedAt: nat, finished: bool, taken: nat, sent: seq<Progress>)

  /** `published` is every record so far; `fed` every item ever put into a queue. */
  datatype Hub = Hub(
    max: nat,
    progress: seq<Progress>,
    dropped: nat,
    published: seq<Progress>,
    registered: set<nat>,
    fed: map<nat, seq<Item>>,
    subs: map<nat, Sub>,
    lock: Option<nat>)

  function NewHub(max: nat): Hub
  {
    Hub(max, [], 0, [], {}, map[], map[], None)
  }

  // ----------------------------------------------------------------------- steps

  /** `_publish`, under the lock. */
  function Publish(h: Hub, p: Progress): Hub
  {
    h.(progress := Newest(h.progress + [p], h.max),
       dropped := h.dropped + Missing(|h.progress| + 1, h.max),
       published := h.published + [p],
       fed := PutAll(h.fed, h.registered, Some(p)))
  }

  /** The end marker, put into every registered queue under the lock. */
  function Release(h: Hub): Hub
  {
    h.(fed := PutAll(h.fed, h.registered, None))
  }

  function Join(h: Hub, n: nat): Hub
  {
    if n in h.subs || h.lock.Some? then h
    else h.(lock := Some(n),
            fed := h.fed[n := []],
            subs := h.subs[n := Sub(Snapshot, h.progress, |h.published|, false, 0, [])])
  }

  predicate Skips(backlog: seq<Progress>, p: Progress)
  {
    backlog != [] && p.bytesDone < backlog[|backlog| - 1].bytesDone
  }

  /** One item taken from the queue. */
  function Take(s: Sub, item: Item): Sub
  {
    match item
    case None => s.(phase := Closing(true), taken := s.taken + 1)
    case Some(p) => s.(taken := s.taken + 1, sent := if Skips(s.backlog, p) then s.sent else s.sent + [p])
  }

  /** A subscriber's next step; `terminal` is the job's state as it reads it now. A step that
      must wait - for the lock, or on an empty queue - changes nothing. */
  function NextSub(h: Hub, s: Sub, queue: seq<Item>, terminal: bool): Sub
  {
    match s.phase
    case Snapshot => s.(phase := Enrolled)
    case Enrolled => s.(phase := Reading, finished := terminal)
    case Reading =>
      if |s.sent| < |s.backlog| then s.(sent := s.sent + [s.backlog[|s.sent|]])
      else if s.finished then s.(phase := Closing(true))
      else if s.taken < |queue| then Take(s, queue[s.taken])
      else s
    case Closing(complete) => if h.lock.None? then s.(phase := Gone(complete)) else s
    case Gone(_) => s
  }

  function StepSub(h: Hub, n: nat, terminal: bool): Hub
  {
    if n !in h.subs || n !in h.fed then h
    else
      var s := h.subs[n];
      var s' := NextSub(h, s, h.fed[n], terminal);
      h.(subs := h.subs[n := s'],
         registered := if s.phase.Snapshot? && !terminal then h.registered + {n}
                       else if s'.phase.Gone? then h.registered - {n}
                       else h.registered,
         lock := if s.phase.Enrolled? then None else h.lock)
  }

  /** A subscription's locked section, told at once. */
  lemma Joined(h: Hub, n: nat, endedFirst: bool, endedThen: bool)
    requires n !in h.subs && h.lock.None?
    ensures StepSub(StepSub(Join(h, n), n, endedFirst), n, endedThen) ==
            h.(fed := h.fed[n := []],
               registered := if endedFirst then h.registered else h.registered + {n},
               subs := h.subs[n := Sub(Reading, h.progress, |h.published|, endedThen, 0, [])])
  {
    assert StepSub(StepSub(Join(h, n), n, endedFirst), n, endedThen).subs ==
           h.subs[n := Sub(Reading, h.progress, |h.published|, endedThen, 0, [])];
  }

  /** The consumer closes the stream. */
  function Leave(h: Hub, n: nat): Hub
  {
    if n in h.subs && h.subs[n].phase.Reading?
    then h.(subs := h.subs[n := h.subs[n].(phase := Closing(false))])
    else h
  }

  // ------------------------------------------------------------------- what is kept

  function Wrapped(records: seq<Progress>): seq<Item>
  {
    seq(|records|, i requires 0 <= i < |records| => Some(records[i]))
  }

  /** The records a follower passes on. */
  function Kept(backlog: seq<Progress>, records: seq<Progress>): seq<Progress>
  {
    if records == [] then []
    else
      var before := Kept(backlog, records[..|records| - 1]);
      var p := records[|records| - 1];
      if Skips(backlog, p) then before else before + [p]
  }

  /** What a subscriber that reads to the end is due. */
  function Due(h: Hub, s: Sub): seq<Progress>
    requires s.joinedAt <= |h.published|
  {
    s.backlog + Kept(s.backlog, h.published[s.joinedAt..])
  }

  function EndMark(released: bool): seq<Item>
  {
    if released then [None] else []
  }

  ghost predicate BufferOk(h: Hub)
  {
    h.progress == Newest(h.published, h.max) && h.dropped == Missing(|h.published|, h.max)
  }

  predicate Inside(s: Sub)
  {
    s.phase.Snapshot? || s.phase.Enrolled?
  }

  ghost predicate LockOk(h: Hub)
  {
    && (h.lock.Some? ==> h.lock.value in h.subs && Inside(h.subs[h.lock.value]))
    && (forall n :: n in h.subs && Inside(h.subs[n]) ==> h.lock == Some(n))
    && (forall n :: n in h.registered ==> n in h.subs)
  }

  /** What the follower has taken: its whole backlog first, then the kept part of the queue. */
  ghost predicate ReadOk(h: Hub, s: Sub)
  {
    && s.joinedAt + s.taken <= |h.published|
    && (if s.taken == 0 then s.sent <= s.backlog
        else s.sent == s.backlog + Kept(s.backlog, h.published[s.joinedAt..s.joinedAt + s.taken]))
  }

  ghost predicate SubOk(h: Hub, n: nat, s: Sub, terminal: bool, released: bool)
  {
    && n in h.fed
    && s.joinedAt <= |h.published|
    && s.backlog == Newest(h.published[..s.joinedAt], h.max)
    && s.sent <= Due(h, s)
    && (n in h.registered ==> h.fed[n] == Wrapped(h.published[s.joinedAt..]) + EndMark(released))
    && match s.phase
       case Snapshot =>
         s.joinedAt == |h.published| && s.sent == [] && s.taken == 0 && h.fed[n] == [] && n !in h.registered
       case Enrolled =>
         s.joinedAt == |h.published| && s.sent == [] && s.taken == 0 && (n in h.registered || terminal)
       case Reading =>
         && ReadOk(h, s)
         && (if s.finished then terminal && s.joinedAt == |h.published| && s.taken == 0 else n in h.registered)
       case Closing(complete) => complete ==> terminal && s.sent == Due(h, s)
       case Gone(complete) => (complete ==> terminal && s.sent == Due(h, s)) && n !in h.registered
  }

  ghost predicate HubOk(h: Hub, terminal: bool, released: bool)
  {
    && BufferOk(h)
    && LockOk(h)
    && (released ==> terminal)
    && forall n :: n in h.subs ==> SubOk(h, n, h.subs[n], terminal, released)
  }

  lemma StartsOk(max: nat)
    ensures HubOk(NewHub(max), false, false)
  {}

  /** Whoever holds the lock gives it back within two of its own steps. */
  lemma LockIsFreed(h: Hub, terminal: bool, released: bool, first: bool, second: bool)
    requires HubOk(h, terminal, released) && h.lock.Some?
    ensures var n := h.lock.value;
            StepSub(h, n, first).lock.None? || StepSub(StepSub(h, n, first), n, second).lock.None?
  {
    hide BufferOk, ReadOk, Due;
    var n := h.lock.value;
    assert SubOk(h, n, h.subs[n], terminal, released);
  }

  // -------------------------------------------------------------------- small facts

  lemma NewestGrows(records: seq<Progress>, max: nat, p: Progress)
    ensures Newest(Newest(records, max) + [p], max) == Newest(records + [p], max)
    ensures Missing(|records|, max) + Missing(|Newest(records, max)| + 1, max) == Missing(|records| + 1, max)
  {}

  lemma KeptGrows(backlog: seq<Progress>, records: seq<Progress>, p: Progress)
    ensures Kept(backlog, records + [p]) ==
            if Skips(backlog, p) then Kept(backlog, records) else Kept(backlog, records) + [p]
  {
    assert (records + [p])[..|records|] == records;
  }

  lemma WrappedGrows(records: seq<Progress>, p: Progress)
    ensures Wrapped(records + [p]) == Wrapped(records) + [Some(p)]
  {}

  /** A shorter stretch of records keeps a prefix of what a longer one keeps. */
  lemma {:induction false} KeptPrefix(backlog: seq<Progress>, records: seq<Progress>, k: nat)
    requires k <= |records|
    ensures Kept(backlog, records[..k]) <= Kept(backlog, records)
  {
    if k == |records| {
      assert records[..k] == records;
    } else {
      KeptPrefix(backlog, records[..|records| - 1], k);
      assert records[..|records| - 1][..k] == records[..k];
    }
  }

  // ---------------------------------------------------------- the worker's two sections

  lemma SubSeesPublish(h: Hub, p: Progress, n: nat, s: Sub)
    requires SubOk(h, n, s, false, false) && !Inside(s)
    ensures SubOk(Publish(h, p), n, s, false, false)
  {
    hide Newest, Missing, Kept, Wrapped;
    var h' := Publish(h, p);
    var later := h.published[s.joinedAt..];
    assert h'.published[s.joinedAt..] == later + [p];
    assert h'.published[..s.joinedAt] == h.published[..s.joinedAt];
    KeptGrows(s.backlog, later, p);
    WrappedGrows(later, p);
    if s.joinedAt + s.taken <= |h.published| {
      assert h'.published[s.joinedAt..s.joinedAt + s.taken] == h.published[s.joinedAt..s.joinedAt + s.taken];
    }
  }

  lemma PublishOk(h: Hub, p: Progress)
    requires HubOk(h, false, false) && h.lock.None?
    ensures HubOk(Publish(h, p), false, false)
  {
    hide SubOk, Newest, Missing, PutAll;
    NewestGrows(h.published, h.max, p);
    forall n | n in h.subs ensures SubOk(Publish(h, p), n, h.subs[n], false, false) {
      SubSeesPublish(h, p, n, h.subs[n]);
    }
  }

  lemma SubSeesRelease(h: Hub, n: nat, s: Sub)
    requires SubOk(h, n, s, true, false) && !Inside(s)
    ensures SubOk(Release(h), n, s, true, true)
  {
    hide Newest, Kept, Wrapped;
  }

  lemma ReleaseOk(h: Hub)
    requires HubOk(h, true, false) && h.lock.None?
    ensures HubOk(Release(h), true, true)
  {
    hide SubOk, Newest, Missing, PutAll;
    forall n | n in h.subs ensures SubOk(Release(h), n, h.subs[n], true, true) {
      SubSeesRelease(h, n, h.subs[n]);
    }
  }

  lemma TerminatesOk(h: Hub)
    requires HubOk(h, false, false)
    ensures HubOk(h, true, false)
  {
    hide Newest, Kept, Wrapped, Missing;
  }

  // -------------------------------------------------------------- the subscribers' steps

  /** Nothing a subscriber does changes what the others are owed. */
  lemma OthersKeep(h: Hub, h': Hub, n: nat, terminal: bool, released: bool)
    requires h' == h.(subs := h'.subs, registered := h'.registered, fed := h'.fed, lock := h'.lock)
    requires forall m :: m != n ==> (m in h'.registered <==> m in h.registered)
    requires forall m :: m != n && m in h.fed ==> m in h'.fed && h'.fed[m] == h.fed[m]
    ensures forall m, s :: m != n && SubOk(h, m, s, terminal, released) ==> SubOk(h', m, s, terminal, released)
  {
    hide Newest, Kept, Wrapped;
  }

  lemma JoinOk(h: Hub, n: nat, terminal: bool, released: bool)
    requires HubOk(h, terminal, released)
    ensures HubOk(Join(h, n), terminal, released)
  {
    hide SubOk, Newest, Missing, Kept, Wrapped;
    var h' := Join(h, n);
    if h' != h {
      OthersKeep(h, h', n, terminal, released);
      SnapshotOk(h, n, terminal, released);
    }
  }

  lemma SnapshotOk(h: Hub, n: nat, terminal: bool, released: bool)
    requires BufferOk(h) && n !in h.subs && h.lock.None? && n !in h.registered
    ensures n in Join(h, n).subs && SubOk(Join(h, n), n, Join(h, n).subs[n], terminal, released)
  {
    hide Newest, Missing, Wrapped;
    assert h.published[..|h.published|] == h.published;
    assert h.published[|h.published|..] == [];
  }

  lemma LeaveOk(h: Hub, n: nat, terminal: bool, released: bool)
    requires HubOk(h, terminal, released)
    ensures HubOk(Leave(h, n), terminal, released)
  {
    hide Newest, Missing, Kept, Wrapped;
    hide SubOk;
    var h' := Leave(h, n);
    OthersKeep(h, h', n, terminal, released);
    if n in h.subs { LeaverOk(h, n, terminal, released); }
  }

  /** One step later, with the lock free, its queue is no longer registered; nothing else has changed. */
  lemma LeaversGo(h: Hub, n: nat, terminal: bool)
    requires n in h.subs && n in h.fed && h.subs[n].phase.Reading? && h.lock.None?
    ensures StepSub(Leave(h, n), n, terminal) ==
            h.(subs := h.subs[n := h.subs[n].(phase := Gone(false))], registered := h.registered - {n})
  {
    var s := h.subs[n];
    assert h.subs[n := s.(phase := Closing(false))][n := s.(phase := Gone(false))]
        == h.subs[n := s.(phase := Gone(false))];
  }

  lemma LeaverOk(h: Hub, n: nat, terminal: bool, released: bool)
    requires n in h.subs && SubOk(h, n, h.subs[n], terminal, released)
    ensures SubOk(Leave(h, n), n, Leave(h, n).subs[n], terminal, released)
  {
    hide Newest, Missing, Kept, Wrapped;
  }

  /** An item the queue holds is the next record after the ones taken, or the end marker. */
  lemma NextItem(h: Hub, n: nat, s: Sub, terminal: bool, released: bool)
    requires SubOk(h, n, s, terminal, released) && s.phase.Reading? && !s.finished
    requires s.taken < |h.fed[n]|
    ensures h.fed[n][s.taken].Some? ==>
              s.joinedAt + s.taken < |h.published| && h.fed[n][s.taken].value == h.published[s.joinedAt + s.taken]
    ensures h.fed[n][s.taken].None? ==> released && s.joinedAt + s.taken == |h.published|
  {
    hide Newest, Kept;
  }

  /** A reader past its backlog has passed on what was kept of the records it took. */
  lemma TakenSoFar(h: Hub, s: Sub)
    requires s.joinedAt + s.taken <= |h.published| && ReadOk(h, s) && |s.sent| >= |s.backlog|
    ensures s.sent == s.backlog + Kept(s.backlog, h.published[s.joinedAt..s.joinedAt + s.taken])
  {
    hide Kept;
    KeptNothing(s.backlog);
    assert s.taken == 0 ==> h.published[s.joinedAt..s.joinedAt + s.taken] == [];
  }

  lemma TakeRecordOk(h: Hub, s: Sub)
    requires s.joinedAt + s.taken < |h.published| && ReadOk(h, s) && |s.sent| >= |s.backlog|
    ensures var s' := Take(s, Some(h.published[s.joinedAt + s.taken]));
            && s'.joinedAt == s.joinedAt && s'.backlog == s.backlog && s'.finished == s.finished && s'.phase == s.phase
            && ReadOk(h, s') && s'.sent <= Due(h, s')
  {
    hide Kept, Skips;
    var from, at := s.joinedAt, s.joinedAt + s.taken;
    TakenSoFar(h, s);
    KeptGrows(s.backlog, h.published[from..at], h.published[at]);
    assert h.published[from..at + 1] == h.published[from..at] + [h.published[at]];
    assert h.published[from..][..s.taken + 1] == h.published[from..at + 1];
    KeptPrefix(s.backlog, h.published[from..], s.taken + 1);
  }

  lemma TakeEndOk(h: Hub, s: Sub)
    requires s.joinedAt + s.taken == |h.published| && ReadOk(h, s) && |s.sent| >= |s.backlog|
    ensures var s' := Take(s, None);
            s'.joinedAt == s.joinedAt && s'.backlog == s.backlog && s'.phase == Closing(true) && s'.sent == Due(h, s')
  {
    hide Kept;
    TakenSoFar(h, s);
    assert h.published[s.joinedAt..s.joinedAt + s.taken] == h.published[s.joinedAt..];
  }

  /** Taking one item keeps the reader in step with what was published since it joined. */
  lemma TakeOk(h: Hub, n: nat, s: Sub, terminal: bool, released: bool)
    requires SubOk(h, n, s, terminal, released) && s.phase.Reading? && !s.finished
    requires |s.sent| >= |s.backlog| && s.taken < |h.fed[n]| && (released ==> terminal)
    ensures SubOk(h, n, Take(s, h.fed[n][s.taken]), terminal, released)
  {
    hide Newest, Kept, Wrapped, Skips, ReadOk, Due, Take, EndMark;
    NextItem(h, n, s, terminal, released);
    match h.fed[n][s.taken] {
      case None => TakeEndOk(h, s);
      case Some(p) => TakeRecordOk(h, s);
    }
  }

  lemma KeptNothing(backlog: seq<Progress>)
    ensures Kept(backlog, []) == []
  {}

  lemma NextSubOk(h: Hub, n: nat, terminal: bool, released: bool)
    requires HubOk(h, terminal, released) && n in h.subs && n in h.fed
    ensures SubOk(StepSub(h, n, terminal), n, NextSub(h, h.subs[n], h.fed[n], terminal), terminal, released)
  {
    hide Newest, Missing, Kept, Wrapped, BufferOk, Take, Skips;
    var s := h.subs[n];
    assert SubOk(h, n, s, terminal, released);
    match s.phase {
      case Snapshot =>
        assert h.published[s.joinedAt..] == [];
        NoItems();
      case Enrolled =>
      case Reading =>
        if |s.sent| >= |s.backlog| {
          if s.finished {
            assert h.published[s.joinedAt..] == [];
            KeptNothing(s.backlog);
          } else if s.taken < |h.fed[n]| {
            TakeOk(h, n, s, terminal, released);
            StepIsTake(h, n, s, terminal, released);
          }
        }
      case Closing(_) =>
      case Gone(_) =>
    }
  }

  lemma NoItems()
    ensures Wrapped([]) == []
  {}

  lemma StepIsTake(h: Hub, n: nat, s: Sub, terminal: bool, released: bool)
    requires n in h.subs && n in h.fed && s == h.subs[n] && s.phase.Reading? && s.taken < |h.fed[n]|
    requires |s.sent| >= |s.backlog| && !s.finished
    requires SubOk(h, n, Take(s, h.fed[n][s.taken]), terminal, released)
    ensures SubOk(StepSub(h, n, terminal), n, Take(s, h.fed[n][s.taken]), terminal, released)
  {
    hide Newest, Kept, Wrapped, Skips;
  }

  lemma StepSubOk(h: Hub, n: nat, terminal: bool, released: bool)
    requires HubOk(h, terminal, released)
    ensures HubOk(StepSub(h, n, terminal), terminal, released)
  {
    hide SubOk, Newest, Missing, Kept, Wrapped, Skips;
    if n in h.subs && n in h.fed {
      NextSubOk(h, n, terminal, released);
      OthersKeep(h, StepSub(h, n, terminal), n, terminal, released);
    }
  }
}
