/** One streamed operation between the helper daemon and its client, and the in-process
    helper that stands in for both (helper/daemon.py). */
module HelperStream {

  import opened Digests
  import opened HelperFrames

  /** An exception a handler raises. `caught` says its class is one the transports convert,
      `sanctum` that it is the program's own. */
  datatype Raised = Raised(caught: bool, sanctum: bool, message: string, remediation: string, kind: string)

  datatype End = Returned(value: Option<Body>) | Threw(e: Raised)

  /** What a handler does: the records it yields and how it ends. */
  datatype Trace = Trace(records: seq<Body>, end: End)

  /** What polling the connection between two records finds. */
  datatype Poll = Quiet | Bytes(chunk: Bytes) | Gone

  /** Stands for the hint a cancelled operation is reported with. */
  const CANCEL_REMEDIATION := "partially processed"

  function ErrorText(name: string, e: Raised): string
  {
    if e.sanctum then e.message else name + " failed: " + e.message
  }

  /** `_error_frame`. */
  function ErrorFrameOf(id: nat, name: string, e: Raised): Frame
  {
    ErrorFrame(id, ErrorText(name, e),
               if e.sanctum then e.remediation else "Check the helper log for the failing operation.", e.kind)
  }

  function CancelledFrame(id: nat, name: string): Frame
  {
    ErrorFrame(id, name + " was cancelled by the operator.", CANCEL_REMEDIATION, "Cancelled")
  }

  /** The terminal frame of a handler's end; none when the end escapes the stream's `try`. */
  function TerminalFrames(id: nat, name: string, end: End): seq<Frame>
  {
    match end
    case Returned(Some(value)) => [ResultFrame(id, value)]
    case Returned(None) => []
    case Threw(e) => if e.caught then [ErrorFrameOf(id, name, e)] else []
  }

  // ---------------------------------------------------------------- the cancel poll

  /** `chunk.split(b"\n")`. */
  function Lines(chunk: Bytes): seq<Bytes>
    decreases |chunk|
  {
    match FirstNewline(chunk)
    case None => [chunk]
    case Some(i) => [chunk[..i]] + Lines(chunk[i + 1..])
  }

  const BLANKS := {32, 9, 10, 13, 11, 12}

  predicate Blank(line: Bytes)
  {
    forall i :: 0 <= i < |line| ==> line[i] in BLANKS
  }

  ghost predicate Stops(c: Codec, p: Poll)
  {
    match p
    case Quiet => false
    case Gone => true
    case Bytes(chunk) => exists i :: 0 <= i < |Lines(chunk)| && !Blank(Lines(chunk)[i]) && c.isCancel(Lines(chunk)[i])
  }

  /** `_peer_asked_to_stop`, given what `select` and `recv` found. */
  method PeerAskedToStop(c: Codec, p: Poll) returns (stop: bool)
    ensures stop <==> Stops(c, p)
  {
    match p {
      case Quiet => return false;
      case Gone => return true;
      case Bytes(chunk) =>
        var parts := Lines(chunk);
        var i := 0;
        while i < |parts|
          invariant 0 <= i <= |parts|
          invariant forall k :: 0 <= k < i ==> Blank(parts[k]) || !c.isCancel(parts[k])
        {
          if !Blank(parts[i]) && c.isCancel(parts[i]) { return true; }
          i := i + 1;
        }
        return false;
    }
  }

  lemma {:induction false} LinesOfWhole(before: Bytes, line: Bytes, rest: Bytes)
    requires before == [] || before[|before| - 1] == NEWLINE
    requires NEWLINE !in line
    ensures line in Lines(before + line + [NEWLINE] + rest)
    decreases |before|
  {
    var chunk := before + line + [NEWLINE] + rest;
    if before == [] {
      assert chunk[..|line|] == line;
      FirstNewlineIs(chunk, |line|);
    } else {
      var i := FirstNewline(before).value;
      assert chunk[..i] == before[..i];
      FirstNewlineIs(chunk, i);
      assert chunk[i + 1..] == before[i + 1..] + line + [NEWLINE] + rest;
      LinesOfWhole(before[i + 1..], line, rest);
    }
  }

  /** A cancel frame that arrives whole, after any whole lines and before anything, is seen. */
  lemma WholeCancelIsSeen(c: Codec, id: nat, before: Bytes, rest: Bytes)
    requires Faithful(c)
    requires before == [] || before[|before| - 1] == NEWLINE
    requires !Blank(c.encodeCancel(id))
    ensures Stops(c, Bytes(before + c.encodeCancel(id) + [NEWLINE] + rest))
  {
    LinesOfWhole(before, c.encodeCancel(id), rest);
  }

  /** No proper part of a cancel frame is one. */
  ghost predicate WholeCancels(c: Codec)
  {
    forall id, a, b :: 0 <= a <= b <= |c.encodeCancel(id)| && b - a < |c.encodeCancel(id)| ==>
      !c.isCancel(c.encodeCancel(id)[a..b])
  }

  /** The bytes the first `n` polls received. */
  function Received(polls: nat -> Poll, n: nat): Bytes
  {
    if n == 0 then []
    else Received(polls, n - 1) + if polls(n - 1).Bytes? then polls(n - 1).chunk else []
  }

  /** The first `n` polls find `sent`, or what has come of it, in pieces; each may find nothing, or
      that the peer is gone. */
  ghost predicate Polled(polls: nat -> Poll, n: nat, sent: Bytes)
  {
    Received(polls, n) <= sent && forall k :: 0 <= k < n && polls(k).Bytes? ==> polls(k).chunk != []
  }

  /** The poll finds a cancel frame whole, and at the start of what it received. */
  predicate HoldsWhole(p: Poll, frame: Bytes)
  {
    p.Bytes? && frame <= p.chunk
  }

  lemma {:induction false} ReceivedGrows(polls: nat -> Poll, k: nat, n: nat)
    requires k <= n
    ensures Received(polls, k) <= Received(polls, n)
  {
    if k < n { ReceivedGrows(polls, k, n - 1); }
  }

  lemma NoNewlineOneLine(chunk: Bytes)
    requires NEWLINE !in chunk
    ensures Lines(chunk) == [chunk]
  {}

  lemma LastLine(line: Bytes)
    requires NEWLINE !in line
    ensures Lines(line + [NEWLINE]) == [line, []]
  {
    var chunk := line + [NEWLINE];
    assert chunk[..|line|] == line;
    FirstNewlineIs(chunk, |line|);
    assert chunk[|line| + 1..] == [];
  }

  /** A piece of a cancel line stops the stream exactly if it holds the whole frame. */
  lemma PieceStopsIff(c: Codec, id: nat, a: nat, b: nat)
    requires Faithful(c) && WholeCancels(c) && !Blank(c.encodeCancel(id))
    requires a < b <= |c.encodeCancel(id)| + 1
    ensures var frame, chunk := c.encodeCancel(id), (c.encodeCancel(id) + [NEWLINE])[a..b];
            Stops(c, Bytes(chunk)) <==> frame <= chunk
    ensures c.encodeCancel(id) <= (c.encodeCancel(id) + [NEWLINE])[a..b] ==> a == 0
  {
    var frame := c.encodeCancel(id);
    var chunk := (frame + [NEWLINE])[a..b];
    if b <= |frame| {
      assert chunk == frame[a..b];
      NoNewlineOneLine(chunk);
      assert Lines(chunk)[0] == chunk;
      assert |chunk| == |frame| ==> chunk == frame;
    } else {
      assert chunk == frame[a..|frame|] + [NEWLINE];
      LastLine(frame[a..|frame|]);
      assert Lines(chunk)[0] == frame[a..|frame|] && Lines(chunk)[1] == [];
      assert chunk[|chunk| - 1] == NEWLINE;
      if a == 0 { assert frame[a..|frame|] == frame; }
    }
  }

  /** Over all its polls: a client that sends one cancel frame and closes is stopped for at the
      poll that receives the frame whole - which then is the first to receive anything - and
      otherwise not before the poll that finds it gone: a frame that arrives in two pieces is
      never seen. */
  lemma CancelIsSeenIff(c: Codec, id: nat, polls: nat -> Poll, n: nat)
    requires Faithful(c) && WholeCancels(c) && !Blank(c.encodeCancel(id))
    requires Polled(polls, n, c.encodeCancel(id) + [NEWLINE])
    ensures forall k :: 0 <= k < n ==>
              (Stops(c, polls(k)) <==> polls(k).Gone? || HoldsWhole(polls(k), c.encodeCancel(id)))
    ensures forall k :: 0 <= k < n && HoldsWhole(polls(k), c.encodeCancel(id)) ==>
              forall j :: 0 <= j < k ==> !polls(j).Bytes?
  {
    hide Stops, Blank, WholeCancels, Faithful, Polled, HoldsWhole;
    forall k | 0 <= k < n
      ensures Stops(c, polls(k)) <==> polls(k).Gone? || HoldsWhole(polls(k), c.encodeCancel(id))
      ensures HoldsWhole(polls(k), c.encodeCancel(id)) ==> forall j :: 0 <= j < k ==> !polls(j).Bytes?
    {
      OnePoll(c, id, polls, n, k);
    }
  }

  lemma OnePoll(c: Codec, id: nat, polls: nat -> Poll, n: nat, k: nat)
    requires Faithful(c) && WholeCancels(c) && !Blank(c.encodeCancel(id))
    requires Polled(polls, n, c.encodeCancel(id) + [NEWLINE]) && k < n
    ensures Stops(c, polls(k)) <==> polls(k).Gone? || HoldsWhole(polls(k), c.encodeCancel(id))
    ensures HoldsWhole(polls(k), c.encodeCancel(id)) ==> forall j :: 0 <= j < k ==> !polls(j).Bytes?
  {
    hide Stops, Blank, WholeCancels, Faithful;
    if polls(k).Bytes? {
      var a, b := ChunkOfSent(polls, n, k, c.encodeCancel(id) + [NEWLINE]);
      PieceStopsIff(c, id, a, b);
    } else {
      QuietOrGone(c, polls(k));
    }
  }

  /** What a poll receives is a piece of what was sent; at its start only if nothing came before. */
  lemma ChunkOfSent(polls: nat -> Poll, n: nat, k: nat, sent: Bytes) returns (a: nat, b: nat)
    requires Polled(polls, n, sent) && k < n && polls(k).Bytes?
    ensures a < b <= |sent| && polls(k).chunk == sent[a..b]
    ensures a == 0 ==> forall j :: 0 <= j < k ==> !polls(j).Bytes?
  {
    a, b := |Received(polls, k)|, |Received(polls, k + 1)|;
    ReceivedGrows(polls, k + 1, n);
    forall j | 0 <= j < k && a == 0 ensures !polls(j).Bytes? {
      ReceivedGrows(polls, j + 1, k);
    }
  }

  lemma QuietOrGone(c: Codec, p: Poll)
    requires !p.Bytes?
    ensures Stops(c, p) <==> p.Gone?
  {}

  /** A cancel frame cut anywhere inside: two polls receive it and neither sees it. */
  lemma SplitCancelIsMissed(c: Codec, id: nat, cut: nat) returns (polls: nat -> Poll)
    requires Faithful(c) && WholeCancels(c) && !Blank(c.encodeCancel(id)) && 0 < cut < |c.encodeCancel(id)|
    ensures Received(polls, 2) == c.encodeCancel(id) + [NEWLINE]
    ensures !Stops(c, polls(0)) && !Stops(c, polls(1))
  {
    var frame := c.encodeCancel(id);
    polls := k => if k == 0 then Bytes(frame[..cut]) else Bytes(frame[cut..] + [NEWLINE]);
    assert Received(polls, 1) == frame[..cut];
    assert Received(polls, 2) == frame[..cut] + (frame[cut..] + [NEWLINE]) == frame + [NEWLINE];
    CancelIsSeenIff(c, id, polls, 2);
    assert polls(0).Bytes?;
    assert !HoldsWhole(polls(0), frame) && !HoldsWhole(polls(1), frame);
  }

  // -------------------------------------------------------------------- the daemon

  predicate Terminating(f: Frame)
  {
    f.ResultFrame? || f.ErrorFrame?
  }

  /** At most one terminal frame, and after it only heartbeats. */
  ghost predicate EndsOnce(frames: seq<Frame>)
  {
    forall i, j :: 0 <= i < j < |frames| && Terminating(frames[i]) ==> frames[j].HeartbeatFrame?
  }

  ghost predicate NoneTerminating(frames: seq<Frame>)
  {
    forall i :: 0 <= i < |frames| ==> !Terminating(frames[i])
  }

  /** Every frame is an answer to request `id`. */
  ghost predicate Carries(frames: seq<Frame>, id: nat)
  {
    forall i :: 0 <= i < |frames| ==> frames[i].id == id
  }

  lemma OneBeat(frames: seq<Frame>, id: nat, info: Body)
    ensures var more := frames + [HeartbeatFrame(id, info)];
            && WithoutBeats(more) == WithoutBeats(frames)
            && (NoneTerminating(frames) ==> NoneTerminating(more)) && (EndsOnce(frames) ==> EndsOnce(more))
            && (Carries(frames, id) ==> Carries(more, id))
  {
    assert (frames + [HeartbeatFrame(id, info)])[..|frames|] == frames;
  }

  lemma OneFrame(frames: seq<Frame>, f: Frame)
    requires !f.HeartbeatFrame?
    ensures var more := frames + [f];
            && WithoutBeats(more) == WithoutBeats(frames) + [f]
            && (NoneTerminating(frames) ==> EndsOnce(more) && (!Terminating(f) ==> NoneTerminating(more)))
            && (Carries(frames, f.id) ==> Carries(more, f.id))
  {
    assert (frames + [f])[..|frames|] == frames;
  }

  lemma NoneEndsOnce(frames: seq<Frame>)
    requires NoneTerminating(frames)
    ensures EndsOnce(frames)
  {}

  /** The daemon's end of the connection. Before the k-th send the heartbeat thread has sent
      `beats(k)`; sends succeed while `alive` lasts; `polls(k)` is what the k-th poll finds.
      `frames` is what went out. */
  class Wire {
    const codec: Codec
    const alive: nat
    const beats: nat -> seq<Body>
    const polls: nat -> Poll
    var sends: nat
    var polled: nat
    var sent: Bytes
    ghost var frames: seq<Frame>

    constructor (codec: Codec, alive: nat, beats: nat -> seq<Body>, polls: nat -> Poll)
      ensures this.codec == codec && this.alive == alive && this.beats == beats && this.polls == polls
      ensures sends == 0 && polled == 0 && sent == [] && frames == []
    {
      this.codec, this.alive, this.beats, this.polls := codec, alive, beats, polls;
      sends, polled, sent, frames := 0, 0, [], [];
    }

    ghost predicate Valid()
      reads this`sent, this`frames
    {
      sent == WireBytes(codec, frames)
    }

    method Put(f: Frame)
      requires Valid()
      modifies this`sent, this`frames
      ensures Valid() && frames == old(frames) + [f]
    {
      sent := sent + codec.encode(f) + [NEWLINE];
      frames := frames + [f];
      assert frames[..|frames| - 1] == old(frames);
    }

    /** Whatever heartbeats the other thread sends before the next frame. */
    method Beat(id: nat)
      requires Valid()
      modifies this`sent, this`frames
      ensures Valid() && WithoutBeats(frames) == WithoutBeats(old(frames))
      ensures NoneTerminating(old(frames)) ==> NoneTerminating(frames)
      ensures EndsOnce(old(frames)) ==> EndsOnce(frames)
      ensures beats(sends) == [] ==> frames == old(frames)
      ensures Carries(old(frames), id) ==> Carries(frames, id)
    {
      hide WithoutBeats, NoneTerminating, EndsOnce, Carries, WireBytes;
      var infos := beats(sends);
      var i := 0;
      while i < |infos|
        invariant 0 <= i <= |infos|
        invariant Valid() && WithoutBeats(frames) == WithoutBeats(old(frames))
        invariant NoneTerminating(old(frames)) ==> NoneTerminating(frames)
        invariant EndsOnce(old(frames)) ==> EndsOnce(frames)
        invariant i == 0 ==> frames == old(frames)
        invariant Carries(old(frames), id) ==> Carries(frames, id)
      {
        OneBeat(frames, id, infos[i]);
        Put(HeartbeatFrame(id, infos[i]));
        i := i + 1;
      }
    }

    /** `sendall` under the send lock. */
    method Send(f: Frame) returns (ok: bool)
      requires Valid() && !f.HeartbeatFrame?
      modifies this`sent, this`frames, this`sends
      ensures Valid() && sends == old(sends) + 1
      ensures ok <==> old(sends) < alive
      ensures WithoutBeats(frames) == if ok then WithoutBeats(old(frames)) + [f] else WithoutBeats(old(frames))
      ensures NoneTerminating(old(frames)) ==> EndsOnce(frames) && (!Terminating(f) ==> NoneTerminating(frames))
      ensures beats(old(sends)) == [] ==> frames == if ok then old(frames) + [f] else old(frames)
      ensures Carries(old(frames), f.id) ==> Carries(frames, f.id)
    {
      hide WithoutBeats, NoneTerminating, EndsOnce, Carries, WireBytes, Terminating;
      Beat(FrameId(f));
      ok := sends < alive;
      sends := sends + 1;
      if NoneTerminating(frames) { NoneEndsOnce(frames); }
      if ok {
        OneFrame(frames, f);
        Put(f);
      }
    }

    method Listen() returns (p: Poll)
      modifies this`polled
      ensures p == polls(old(polled)) && polled == old(polled) + 1
    {
      p := polls(polled);
      polled := polled + 1;
    }
  }

  function FrameId(f: Frame): nat
  {
    f.id
  }

  /** The first poll, of those after the first `n` records, that asks to stop. */
  ghost function StopAt(c: Codec, polls: nat -> Poll, n: nat): (k: Option<nat>)
    ensures k.Some? ==> k.value < n && Stops(c, polls(k.value))
    ensures forall i :: 0 <= i < (if k.Some? then k.value else n) ==> !Stops(c, polls(i))
  {
    if n == 0 then None
    else
      match StopAt(c, polls, n - 1)
      case Some(k) => Some(k)
      case None => if Stops(c, polls(n - 1)) then Some(n - 1) else None
  }

  lemma {:induction false} StopAtIs(c: Codec, polls: nat -> Poll, n: nat, k: nat)
    requires k < n && Stops(c, polls(k)) && forall i :: 0 <= i < k ==> !Stops(c, polls(i))
    ensures StopAt(c, polls, n) == Some(k)
  {
    var stop := StopAt(c, polls, n);
    assert stop.Some?;
  }

  lemma OneMoreProgress(id: nat, records: seq<Body>, i: nat)
    requires i < |records|
    ensures ProgressFrames(id, records[..i + 1]) == ProgressFrames(id, records[..i]) + [ProgressFrame(id, records[i])]
    ensures ProgressFrames(id, records[..i]) == ProgressFrames(id, records)[..i]
    ensures ProgressFrames(id, records[..i + 1]) == ProgressFrames(id, records)[..i + 1]
  {}

  /** What a stream that nobody disconnects carries besides heartbeats. */
  ghost function Intended(id: nat, name: string, t: Trace, stop: Option<nat>): seq<Frame>
    requires stop.Some? ==> stop.value < |t.records|
  {
    match stop
    case Some(k) => ProgressFrames(id, t.records[..k + 1]) + [CancelledFrame(id, name)]
    case None => ProgressFrames(id, t.records) + TerminalFrames(id, name, t.end)
  }

  lemma IntendedBegins(id: nat, name: string, t: Trace, stop: Option<nat>, m: nat)
    requires stop.Some? ==> stop.value < |t.records|
    requires m <= if stop.Some? then stop.value + 1 else |t.records|
    ensures m <= |Intended(id, name, t, stop)|
    ensures Intended(id, name, t, stop)[..m] == ProgressFrames(id, t.records[..m])
  {}

  /** `escaped` says an exception left the stream. */
  datatype Served = Served(pulled: nat, escaped: bool)

  lemma NothingSent(id: nat, records: seq<Body>)
    ensures WithoutBeats([]) == ProgressFrames(id, records[..0]) && NoneTerminating([])
    ensures ProgressFrames(id, records[..|records|]) == ProgressFrames(id, records)
  {
    assert records[..|records|] == records;
  }

  lemma NoTerminalEndsOnce(frames: seq<Frame>)
    ensures NoneTerminating(frames) ==> EndsOnce(frames)
  {}

  /** The first `i` records were sent, and the first `p` polls let the stream go on. */
  ghost predicate Serving(wire: Wire, id: nat, t: Trace, i: nat, p: nat)
    reads wire`sent, wire`frames, wire`sends
  {
    && i <= |t.records| && i <= wire.alive
    && wire.Valid() && wire.sends == i
    && WithoutBeats(wire.frames) == ProgressFrames(id, t.records[..i])
    && (forall k :: 0 <= k < p ==> !Stops(wire.codec, wire.polls(k)))
    && NoneTerminating(wire.frames)
    && Carries(wire.frames, id)
    && BeatsTold(wire)
  }

  /** With no heartbeats, only the stream's own frames went out. */
  ghost predicate BeatsTold(wire: Wire)
    reads wire`frames
  {
    (forall k :: wire.beats(k) == []) ==> wire.frames == WithoutBeats(wire.frames)
  }

  /** What went out when a stream is over. */
  ghost predicate Over(wire: Wire, id: nat, frames: seq<Frame>)
    reads wire`sent, wire`frames
  {
    && wire.Valid() && Carries(wire.frames, id) && EndsOnce(wire.frames) && BeatsTold(wire)
    && WithoutBeats(wire.frames) == frames
  }

  lemma StartsServing(wire: Wire, id: nat, t: Trace)
    requires wire.Valid() && wire.frames == [] && wire.sends == 0
    ensures Serving(wire, id, t, 0, 0)
  {
    NothingSent(id, t.records);
  }

  lemma KeepsServing(wire: Wire, id: nat, t: Trace, i: nat)
    requires 0 < i && Serving(wire, id, t, i, i - 1) && !Stops(wire.codec, wire.polls(i - 1))
    ensures Serving(wire, id, t, i, i)
  {
    hide Stops, WithoutBeats, ProgressFrames, NoneTerminating, Carries, BeatsTold, Wire.Valid;
  }

  lemma StoppedHere(wire: Wire, id: nat, t: Trace, i: nat)
    requires 0 < i && Serving(wire, id, t, i, i - 1) && Stops(wire.codec, wire.polls(i - 1))
    ensures StopAt(wire.codec, wire.polls, |t.records|) == Some(i - 1)
  {
    hide Stops, WithoutBeats, ProgressFrames, NoneTerminating, BeatsTold, Wire.Valid, StopAt;
    StopAtIs(wire.codec, wire.polls, |t.records|, i - 1);
  }

  /** The peer is gone: every poll before let the stream go on. */
  lemma GoneHere(wire: Wire, id: nat, t: Trace, i: nat)
    requires Serving(wire, id, t, i, i) && i < |t.records|
    ensures var stop := StopAt(wire.codec, wire.polls, |t.records|);
            && (stop.Some? ==> stop.value >= i)
            && i <= |Intended(id, "", t, stop)|
  {
    hide Stops, WithoutBeats, NoneTerminating, BeatsTold, Wire.Valid, StopAt;
  }

  /** Every record was sent and no poll stopped the stream. */
  lemma AllRecordsSent(wire: Wire, id: nat, t: Trace)
    requires Serving(wire, id, t, |t.records|, |t.records|)
    ensures StopAt(wire.codec, wire.polls, |t.records|).None? && |t.records| <= wire.alive
    ensures Over(wire, id, ProgressFrames(id, t.records))
  {
    hide Stops, WithoutBeats, ProgressFrames, BeatsTold, Wire.Valid, StopAt;
    NoTerminalEndsOnce(wire.frames);
    assert t.records[..|t.records|] == t.records;
  }

  /** One progress frame. */
  method SendRecord(wire: Wire, id: nat, t: Trace, i: nat) returns (ok: bool)
    requires Serving(wire, id, t, i, i) && i < |t.records|
    modifies wire`sent, wire`frames, wire`sends
    ensures ok <==> i < wire.alive
    ensures ok ==> Serving(wire, id, t, i + 1, i)
    ensures !ok ==> Over(wire, id, ProgressFrames(id, t.records[..i]))
  {
    hide Stops, WithoutBeats, ProgressFrames, NoneTerminating, EndsOnce, Carries, Wire.Valid;
    OneMoreProgress(id, t.records, i);
    WithoutOne(wire.frames, ProgressFrame(id, t.records[i]));
    ok := wire.Send(ProgressFrame(id, t.records[i]));
  }

  /** The terminal frame, and whatever the heartbeat thread still sends. */
  method SendLast(wire: Wire, id: nat, t: Trace, i: nat, p: nat, f: Frame)
    requires Serving(wire, id, t, i, p) && Terminating(f) && f.id == id
    modifies wire`sent, wire`frames, wire`sends
    ensures Over(wire, id, ProgressFrames(id, t.records[..i]) + if i < wire.alive then [f] else [])
  {
    hide Stops, WithoutBeats, ProgressFrames, NoneTerminating, EndsOnce, Carries, Wire.Valid;
    WithoutOne(wire.frames, f);
    var _ := wire.Send(f);
    wire.Beat(FrameId(f));
  }

  lemma WithoutOne(frames: seq<Frame>, f: Frame)
    requires !f.HeartbeatFrame?
    ensures WithoutBeats(frames + [f]) == WithoutBeats(frames) + [f]
  {
    assert (frames + [f])[..|frames|] == frames;
  }

  /** A refused request: no heartbeat has started. */
  method Refuse(wire: Wire, f: Frame)
    requires wire.Valid() && wire.frames == [] && Terminating(f)
    modifies wire`sent, wire`frames
    ensures Over(wire, f.id, [f][..Min(wire.alive, 1)]) && wire.frames == [f][..Min(wire.alive, 1)]
  {
    hide WithoutBeats, WireBytes, Wire.Valid;
    NothingSent(0, []);
    WithoutOne([], f);
    if wire.alive > 0 { wire.Put(f); }
    assert wire.alive > 0 ==> wire.frames == [f];
  }

  /** How what went out ends. A stream that a poll stopped carries no result, and if its last frame
      was delivered that is an error that says it was cancelled; one that was delivered whole ends
      with the handler's own result or its own error, and with no such frame where it has neither. */
  ghost predicate EndTold(frames: seq<Frame>, id: nat, t: Trace, stop: Option<nat>, alive: nat)
  {
    var delivered := WithoutBeats(frames);
    match stop
    case Some(k) =>
      && (forall f :: f in frames ==> !f.ResultFrame?)
      && (alive > k + 1 ==>
            && |delivered| == k + 2
            && var last := delivered[k + 1];
            last.ErrorFrame? && last.id == id && last.kind == "Cancelled")
    case None =>
      alive > |t.records| ==>
        match t.end
        case Returned(Some(value)) =>
          |delivered| == |t.records| + 1 && delivered[|t.records|] == ResultFrame(id, value)
        case Returned(None) => |delivered| == |t.records|
        case Threw(e) =>
          if e.caught
          then && |delivered| == |t.records| + 1
               && delivered[|t.records|].ErrorFrame? && delivered[|t.records|].id == id
               && delivered[|t.records|].kind == e.kind
          else |delivered| == |t.records|
  }

  lemma {:induction false} NotABeatIsKept(frames: seq<Frame>, f: Frame)
    requires f in frames && !f.HeartbeatFrame?
    ensures f in WithoutBeats(frames)
  {
    var init, last := frames[..|frames| - 1], frames[|frames| - 1];
    assert frames == init + [last];
    if f in init { NotABeatIsKept(init, f); }
  }

  lemma EndIsTold(frames: seq<Frame>, id: nat, name: string, t: Trace, stop: Option<nat>, alive: nat)
    requires stop.Some? ==> stop.value < |t.records|
    requires var intended := Intended(id, name, t, stop);
             WithoutBeats(frames) == intended[..Min(alive, |intended|)]
    ensures EndTold(frames, id, t, stop, alive)
  {
    hide WithoutBeats, ErrorText;
    forall f | f in frames && stop.Some? ensures !f.ResultFrame? {
      if !f.HeartbeatFrame? { NotABeatIsKept(frames, f); }
    }
  }

  /** The frames of one stream, in order, up to the first the peer is no longer there for. */
  method SendStream(wire: Wire, id: nat, name: string, t: Trace) returns (r: Served)
    requires wire.Valid() && wire.frames == [] && wire.sends == 0 && wire.polled == 0
    modifies wire
    ensures var stop := StopAt(wire.codec, wire.polls, |t.records|);
            var intended := Intended(id, name, t, stop);
            && Over(wire, id, intended[..Min(wire.alive, |intended|)])
            && r.pulled == Min(wire.alive + 1, if stop.Some? then stop.value + 1 else |t.records|)
            && (r.escaped <==> wire.alive >= |t.records| && stop.None? && TerminalFrames(id, name, t.end) == [])
  {
    hide Stops, WithoutBeats, WireBytes, StopAt, ProgressFrames, EndsOnce, Wire.Valid, ErrorText, Serving, Carries;
    StartsServing(wire, id, t);
    ghost var n := |t.records|;
    var i := 0;
    while i < |t.records|
      invariant 0 <= i <= |t.records| && i <= wire.alive && wire.polled == i
      invariant Serving(wire, id, t, i, i)
    {
      GoneHere(wire, id, t, i);
      var ok := SendRecord(wire, id, t, i);
      i := i + 1;
      if !ok {
        IntendedBegins(id, name, t, StopAt(wire.codec, wire.polls, n), i - 1);
        return Served(i, false);
      }
      var p := wire.Listen();
      var stop := PeerAskedToStop(wire.codec, p);
      if stop {
        StoppedHere(wire, id, t, i);
        SendLast(wire, id, t, i, i - 1, CancelledFrame(id, name));
        return Served(i, false);
      }
      KeepsServing(wire, id, t, i);
    }
    AllRecordsSent(wire, id, t);
    assert t.records[..i] == t.records;
    match t.end {
      case Returned(None) => return Served(i, true);
      case Returned(Some(value)) =>
        SendLast(wire, id, t, i, i, ResultFrame(id, value));
        return Served(i, false);
      case Threw(e) =>
        if !e.caught { return Served(i, true); }
        SendLast(wire, id, t, i, i, ErrorFrameOf(id, name, e));
        return Served(i, false);
    }
  }

  /** `_serve_stream`, given what policy and handler do: the frames go out in order up to the
      first one the peer is no longer there for, the engine is pulled no further than the
      record after which the peer stopped it, and an end that no clause catches escapes. */
  method ServeStream(wire: Wire, id: nat, name: string, refused: Option<Raised>, t: Trace) returns (r: Served)
    requires wire.Valid() && wire.frames == [] && wire.sends == 0 && wire.polled == 0
    requires refused.Some? ==> refused.value.caught
    modifies wire
    ensures wire.Valid() && EndsOnce(wire.frames) && Carries(wire.frames, id)
    ensures BeatsTold(wire)
    ensures refused.None? ==> EndTold(wire.frames, id, t, StopAt(wire.codec, wire.polls, |t.records|), wire.alive)
    ensures refused.Some? ==> forall f :: f in wire.frames ==> f.ErrorFrame? && f.kind == refused.value.kind
    ensures var stop := StopAt(wire.codec, wire.polls, |t.records|);
            var intended := if refused.Some? then [ErrorFrameOf(id, name, refused.value)]
                            else Intended(id, name, t, stop);
            var delivered := WithoutBeats(wire.frames);
            && delivered == intended[..Min(wire.alive, |intended|)]
            && (refused.Some? ==> r == Served(0, false))
            && (refused.None? ==>
                  && (stop.Some? ==> r.pulled <= stop.value + 1)
                  && r.pulled == Min(wire.alive + 1, if stop.Some? then stop.value + 1 else |t.records|)
                  && (r.escaped <==> wire.alive >= |t.records| && stop.None? && TerminalFrames(id, name, t.end) == []))
  {
    hide Stops, WithoutBeats, WireBytes, StopAt, ProgressFrames, EndsOnce, Wire.Valid, ErrorText, Carries, EndTold;
    if refused.Some? {
      Refuse(wire, ErrorFrameOf(id, name, refused.value));
      OnlyRefused(wire.frames, ErrorFrameOf(id, name, refused.value), wire.alive);
      return Served(0, false);
    }
    r := SendStream(wire, id, name, t);
    EndIsTold(wire.frames, id, name, t, StopAt(wire.codec, wire.polls, |t.records|), wire.alive);
  }

  lemma OnlyRefused(frames: seq<Frame>, f: Frame, alive: nat)
    requires f.ErrorFrame? && frames == [f][..Min(alive, 1)]
    ensures forall g :: g in frames ==> g.ErrorFrame? && g.kind == f.kind
  {}
}
