/** The registry's own fields for one job's buffer and subscribers, and that its locked sections
    are the steps of the shared state (api/jobs.py). */
module JobBuffer {

  import opened Digests
  import opened Jobs
  import JobHub

  /** What the registry keeps of one job's buffer and subscribers, updated under its lock.
      `hub` is the shared state that these fields show. */
  class ReplayBuffer {
    const maxBuffered: nat
    var progress: seq<Progress>
    var dropped: nat
    var registered: seq<nat>
    var queues: map<nat, seq<Item>>
    ghost var hub: JobHub.Hub

    constructor (maxBuffered: nat)
      ensures Valid() && hub == JobHub.NewHub(maxBuffered)
    {
      this.maxBuffered, progress, dropped, registered, queues := maxBuffered, [], 0, [], map[];
      hub := JobHub.NewHub(maxBuffered);
    }

    ghost function Registered(): set<nat>
      reads this
    {
      set n | n in registered
    }

    ghost predicate Valid()
      reads this
    {
      && hub.max == maxBuffered && hub.progress == progress && hub.dropped == dropped
      && hub.registered == Registered() && hub.fed == queues
      && (forall i :: 0 <= i < |registered| ==> registered[i] in queues)
      && (forall i, j :: 0 <= i < j < |registered| ==> registered[i] != registered[j])
    }

    /** Hand one item to every registered queue. */
    method PutToAll(item: Item)
      requires Valid()
      modifies this`queues
      ensures queues == PutAll(old(queues), Registered(), item)
    {
      var i := 0;
      while i < |registered|
        invariant 0 <= i <= |registered|
        invariant queues.Keys == old(queues).Keys
        invariant forall k :: 0 <= k < |registered| ==>
                    queues[registered[k]] == old(queues)[registered[k]] + if k < i then [item] else []
        invariant forall n :: n in queues && n !in Registered() ==> queues[n] == old(queues)[n]
      {
        queues := queues[registered[i] := queues[registered[i]] + [item]];
        i := i + 1;
      }
    }

    /** `_publish`: buffer one record, drop the oldest past the bound, hand it to everyone. */
    method Publish(p: Progress)
      requires Valid()
      modifies this
      ensures Valid() && hub == JobHub.Publish(old(hub), p)
    {
      PutToAll(Some(p));
      progress := progress + [p];
      if |progress| > maxBuffered {
        var overflow := |progress| - maxBuffered;
        progress := progress[overflow..];
        dropped := dropped + overflow;
      }
      hub := JobHub.Publish(hub, p);
    }

    /** The end marker, when the worker is done. */
    method Release()
      requires Valid()
      modifies this
      ensures Valid() && hub == JobHub.Release(old(hub))
    {
      PutToAll(None);
      hub := JobHub.Release(hub);
    }

    /** The locked part of `subscribe`: the backlog, a queue, registration unless the first
        read of the state found the job ended, and what the second read found. */
    method Subscribe(n: nat, endedFirst: bool, endedThen: bool) returns (backlog: seq<Progress>, alreadyFinished: bool)
      requires Valid() && n !in hub.subs && n !in queues && hub.lock.None?
      modifies this
      ensures Valid()
      ensures hub == JobHub.StepSub(JobHub.StepSub(JobHub.Join(old(hub), n), n, endedFirst), n, endedThen)
      ensures n in hub.subs && hub.subs[n].backlog == backlog == old(progress)
          && hub.subs[n].finished == alreadyFinished
      ensures hub.lock.None? && hub.subs[n].phase == JobHub.Reading
    {
      hide JobHub.Join, JobHub.StepSub;
      JobHub.Joined(hub, n, endedFirst, endedThen);
      backlog := progress;
      queues := queues[n := []];
      if !endedFirst { registered := registered + [n]; }
      alreadyFinished := endedThen;
      hub := JobHub.StepSub(JobHub.StepSub(JobHub.Join(hub, n), n, endedFirst), n, endedThen);
    }

    /** The `finally` of a stream: the subscriber is taken off the list, if it is on it. */
    method Unsubscribe(n: nat)
      requires Valid() && n in hub.subs && n in queues && hub.subs[n].phase.Closing? && hub.lock.None?
      modifies this
      ensures Valid() && hub == JobHub.StepSub(old(hub), n, false)
      ensures registered == Others(old(registered), n)
    {
      ghost var before := registered;
      var i := 0;
      while i < |registered| && registered[i] != n
        invariant 0 <= i <= |registered|
        invariant forall k :: 0 <= k < i ==> registered[k] != n
      {
        i := i + 1;
      }
      if i < |registered| { registered := registered[..i] + registered[i + 1..]; }
      hub := JobHub.StepSub(hub, n, false);
      Without(before, registered, i, n);
    }
  }

  /** The list without `n`, the rest in the order it was. */
  function Others(list: seq<nat>, n: nat): seq<nat>
  {
    if list == [] then []
    else (if list[0] == n then [] else [list[0]]) + Others(list[1..], n)
  }

  lemma {:induction false} OthersCut(list: seq<nat>, i: nat, n: nat)
    requires i <= |list| && forall k :: 0 <= k < i ==> list[k] != n
    requires i < |list| ==> list[i] == n && forall k :: i < k < |list| ==> list[k] != n
    ensures Others(list, n) == if i < |list| then list[..i] + list[i + 1..] else list
  {
    if list != [] {
      if i > 0 {
        OthersCut(list[1..], i - 1, n);
      } else {
        OthersCut(list[1..], |list| - 1, n);
      }
    }
  }

  lemma Without(before: seq<nat>, after: seq<nat>, i: nat, n: nat)
    requires i <= |before| && forall k :: 0 <= k < i ==> before[k] != n
    requires forall j, k :: 0 <= j < k < |before| ==> before[j] != before[k]
    requires if i < |before| then before[i] == n && after == before[..i] + before[i + 1..] else after == before
    ensures (forall m :: m in after <==> m in before && m != n) && after == Others(before, n)
  {
    OthersCut(before, i, n);
    if i < |before| {
      forall m | m in before && m != n ensures m in after {
        var k :| 0 <= k < |before| && before[k] == m;
        assert after[if k < i then k else k - 1] == m;
      }
    }
  }
}
