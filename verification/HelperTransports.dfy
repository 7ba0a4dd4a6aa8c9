/** The two ways to call a streamed operation - over the socket and in this process - and
    that a caller cannot tell them apart (helper/daemon.py). */
module HelperTransports {

  import opened Digests
  import opened HelperFrames
  import opened HelperStream

  /** The client's end of the connection: the bytes the daemon sent, in whatever pieces
      `recv` delivers them. */
  class Pipe {
    const stream: Bytes
    const cuts: nat -> nat
    var at: nat
    var recvs: nat

    constructor (stream: Bytes, cuts: nat -> nat)
      ensures this.stream == stream && this.cuts == cuts && at == 0
    {
      this.stream, this.cuts, at, recvs := stream, cuts, 0, 0;
    }

    ghost predicate Valid()
      reads this
    {
      at <= |stream|
    }

    ghost function Rest(): Bytes
      requires Valid()
      reads this
    {
      stream[at..]
    }

    /** `recv(65536)`: some of what is left, or nothing when the daemon has closed. */
    method Recv() returns (chunk: Bytes)
      requires Valid()
      modifies this
      ensures Valid() && old(Rest()) == chunk + Rest()
      ensures |chunk| <= RECV_BYTES && (chunk == [] <==> old(Rest()) == [])
    {
      var left := |stream| - at;
      var size := Min(Min(left, RECV_BYTES), 1 + cuts(recvs));
      chunk := stream[at..at + size];
      at, recvs := at + size, recvs + 1;
    }
  }

  lemma NewlineCarries(a: Bytes, b: Bytes)
    ensures FirstNewline(a).Some? ==> FirstNewline(a + b) == FirstNewline(a)
    ensures FirstNewline(a).None? && FirstNewline(a + b).Some? ==> FirstNewline(a + b).value >= |a|
  {
    if FirstNewline(a).Some? {
      var i := FirstNewline(a).value;
      assert (a + b)[..i] == a[..i];
      FirstNewlineIs(a + b, i);
    } else if FirstNewline(a + b).Some? {
      assert forall k :: 0 <= k < |a| ==> (a + b)[k] == a[k];
    }
  }

  /** What reading one line of `pending` came to, with `left` not yet received: the line and
      what was received past it, or why there is none. A line a `recv` of 64 KiB or more below the
      limit of 1 MiB is always delivered; one at the limit never is. */
  ghost predicate FrameRead(pending: Bytes, r: Result<(Bytes, Bytes), Outcome>, left: Bytes)
  {
    match r
    case Ok((line, rest)) =>
      && FirstNewline(pending) == Some(|line|) && line == pending[..|line|] && |line| < 0x10_0000
      && rest + left == pending[|line| + 1..] && |rest| <= MAX_FRAME_BYTES
    case Err(Closed) => FirstNewline(pending).None?
    case Err(Oversized) =>
      |pending| > 0x10_0000
      && (FirstNewline(pending).Some? ==> FirstNewline(pending).value + 0x1_0000 > 0x10_0000)
    case Err(_) => false
  }

  /** `_read_frame`: the next line and what follows it, however the bytes arrive. */
  method ReadFrame(pipe: Pipe, buffer: Bytes) returns (r: Result<(Bytes, Bytes), Outcome>)
    requires pipe.Valid() && |buffer| <= MAX_FRAME_BYTES
    modifies pipe
    ensures pipe.Valid()
    ensures FrameRead(buffer + old(pipe.Rest()), r, pipe.Rest())
  {
    ghost var pending := buffer + pipe.Rest();
    var held := buffer;
    while FirstNewline(held).None?
      invariant pipe.Valid() && held + pipe.Rest() == pending && |held| <= MAX_FRAME_BYTES
      decreases |pipe.Rest()|
    {
      NewlineCarries(held, pipe.Rest());
      ghost var before := held;
      var chunk := pipe.Recv();
      if chunk == [] {
        assert pending == held;
        return Err(Closed);
      }
      held := held + chunk;
      assert held + pipe.Rest() == before + (chunk + pipe.Rest());
      if |held| > MAX_FRAME_BYTES { return Err(Oversized); }
    }
    var i := FirstNewline(held).value;
    NewlineCarries(held, pipe.Rest());
    assert pending[..i] == held[..i];
    assert pending[i + 1..] == held[i + 1..] + pipe.Rest();
    return Ok((held[..i], held[i + 1..]));
  }

  /** A caller that closes the stream after `patience` records; never, if that is 0. */
  function Cut(said: Said, patience: nat): Said
  {
    if 0 < patience <= |said.records| then Said(said.records[..patience], Abandoned) else said
  }

  /** What one line adds to what the bytes say. */
  lemma OneLine(c: Codec, pending: Bytes)
    requires Roomy(pending)
    ensures FirstNewline(pending).None? ==> Interpret(c, pending) == Said([], Closed) && |pending| <= MAX_FRAME_BYTES
    ensures FirstNewline(pending).Some? ==>
              var i := FirstNewline(pending).value;
              var rest := Interpret(c, pending[i + 1..]);
              && i + RECV_BYTES <= MAX_FRAME_BYTES && Roomy(pending[i + 1..])
              && Interpret(c, pending) ==
                 match DecodeFrame(c, pending[..i]) {
                   case Err(outcome) => Said([], outcome)
                   case Ok(f) =>
                     if f.ResultFrame? then Said([], Answer(f.result))
                     else Said((if f.ProgressFrame? then [f.record] else []) + rest.records, rest.outcome)
                 }
  {}

  lemma DecodedFrames(c: Codec, line: Bytes)
    ensures DecodeFrame(c, line).Ok? ==> !DecodeFrame(c, line).value.ErrorFrame?
    ensures DecodeFrame(c, line).Err? ==> DecodeFrame(c, line).error != Abandoned
  {}

  /** What was handed over, with what is still to come, is what the bytes say. */
  ghost predicate InStep(c: Codec, stream: Bytes, records: seq<Body>, pending: Bytes)
  {
    Roomy(stream) ==>
      var rest := Interpret(c, pending);
      Roomy(pending) && Interpret(c, stream) == Said(records + rest.records, rest.outcome)
  }

  /** A line that ends the call, or none at all. */
  lemma LineEnds(c: Codec, stream: Bytes, records: seq<Body>, pending: Bytes)
    requires InStep(c, stream, records, pending) && Roomy(stream)
    ensures FirstNewline(pending).None? ==>
              Interpret(c, stream) == Said(records, Closed) && |pending| <= MAX_FRAME_BYTES
    ensures FirstNewline(pending).Some? ==>
              var i := FirstNewline(pending).value;
              var f := DecodeFrame(c, pending[..i]);
              && i + RECV_BYTES <= MAX_FRAME_BYTES
              && (f.Err? ==> Interpret(c, stream) == Said(records, f.error))
              && (f.Ok? && f.value.ResultFrame? ==> Interpret(c, stream) == Said(records, Answer(f.value.result)))
  {
    hide Roomy, Interpret, DecodeFrame;
    OneLine(c, pending);
  }

  /** A line the client reads on after. */
  lemma LineContinues(c: Codec, stream: Bytes, records: seq<Body>, pending: Bytes)
    requires InStep(c, stream, records, pending) && FirstNewline(pending).Some?
    ensures var i := FirstNewline(pending).value;
            var f := DecodeFrame(c, pending[..i]);
            f.Ok? && !f.value.ResultFrame? ==>
              InStep(c, stream, records + (if f.value.ProgressFrame? then [f.value.record] else []), pending[i + 1..])
  {
    hide Roomy, Interpret, DecodeFrame;
    if Roomy(stream) {
      OneLine(c, pending);
      var i := FirstNewline(pending).value;
      var f := DecodeFrame(c, pending[..i]);
      var rest := Interpret(c, pending[i + 1..]).records;
      if f.Ok? && !f.value.ResultFrame? {
        var said := if f.value.ProgressFrame? then [f.value.record] else [];
        assert records + (said + rest) == (records + said) + rest;
      }
    }
  }

  /** What one read means to the client: the call is over with what the bytes say, or it goes
      on in step with less to come. */
  lemma LineRead(c: Codec, stream: Bytes, records: seq<Body>, pending: Bytes,
      r: Result<(Bytes, Bytes), Outcome>, left: Bytes)
    requires InStep(c, stream, records, pending) && FrameRead(pending, r, left)
    ensures r.Err? ==> r.error != Abandoned && (Roomy(stream) ==> Interpret(c, stream) == Said(records, r.error))
    ensures r.Ok? ==>
              var (line, rest) := r.value;
              var f := DecodeFrame(c, line);
              && |rest| <= MAX_FRAME_BYTES && |rest| + |left| < |pending|
              && (f.Err? ==> f.error != Abandoned && (Roomy(stream) ==> Interpret(c, stream) == Said(records, f.error)))
              && (f.Ok? && f.value.ResultFrame? && Roomy(stream) ==>
                    Interpret(c, stream) == Said(records, Answer(f.value.result)))
              && (f.Ok? ==> !f.value.ErrorFrame?)
              && (f.Ok? && f.value.ProgressFrame? ==> InStep(c, stream, records + [f.value.record], rest + left))
              && (f.Ok? && f.value.HeartbeatFrame? ==> InStep(c, stream, records, rest + left))
  {
    hide Roomy, Interpret, DecodeFrame, InStep;
    if Roomy(stream) { LineEnds(c, stream, records, pending); }
    if r.Ok? {
      DecodedFrames(c, r.value.0);
      LineContinues(c, stream, records, pending);
      assert records + [] == records;
    }
  }

  lemma StepBounds(c: Codec, stream: Bytes, records: seq<Body>, pending: Bytes)
    requires InStep(c, stream, records, pending) && Roomy(stream) && records != []
    ensures Cut(Interpret(c, stream), |records|) == Said(records, Abandoned)
  {
    hide Roomy, Interpret;
  }

  lemma NotCut(said: Said, patience: nat)
    requires patience == 0 || |said.records| < patience
    ensures Cut(said, patience) == said
  {}

  /** `HelperClient.call_stream`, from its first read: what the bytes say, however they are
      cut. `cancelled` says it sent the cancel frame. */
  method CallStream(c: Codec, pipe: Pipe, patience: nat) returns (said: Said, cancelled: bool)
    requires pipe.Valid() && pipe.at == 0
    modifies pipe
    ensures Roomy(pipe.stream) ==> said == Cut(Interpret(c, pipe.stream), patience)
    ensures cancelled <==> said.outcome == Abandoned
    ensures cancelled ==> |said.records| == patience
  {
    hide Roomy, Interpret, DecodeFrame, InStep, FrameRead, Cut;
    var buffer: Bytes := [];
    var records: seq<Body> := [];
    assert buffer + pipe.Rest() == pipe.stream;
    StartsInStep(c, pipe.stream);
    while true
      invariant pipe.Valid() && |buffer| <= MAX_FRAME_BYTES
      invariant patience == 0 || |records| < patience
      invariant InStep(c, pipe.stream, records, buffer + pipe.Rest())
      decreases |buffer| + |pipe.Rest()|
    {
      ghost var pending := buffer + pipe.Rest();
      var r := ReadFrame(pipe, buffer);
      LineRead(c, pipe.stream, records, pending, r, pipe.Rest());
      if r.Err? {
        NotCut(Said(records, r.error), patience);
        return Said(records, r.error), false;
      }
      buffer := r.value.1;
      var f := DecodeFrame(c, r.value.0);
      if f.Err? {
        NotCut(Said(records, f.error), patience);
        return Said(records, f.error), false;
      }
      match f.value {
        case HeartbeatFrame(_, _) =>
        case ProgressFrame(_, record) =>
          records := records + [record];
          if |records| == patience {
            if Roomy(pipe.stream) { StepBounds(c, pipe.stream, records, buffer + pipe.Rest()); }
            return Said(records, Abandoned), true;
          }
        case ResultFrame(_, result) =>
          NotCut(Said(records, Answer(result)), patience);
          return Said(records, Answer(result)), false;
      }
    }
  }

  lemma StartsInStep(c: Codec, stream: Bytes)
    ensures InStep(c, stream, [], stream)
  {
    hide Roomy, Interpret;
  }

  // ------------------------------------------------------------------ in this process

  function LocalOutcome(name: string, end: End): Outcome
  {
    match end
    case Returned(Some(value)) => Answer(value)
    case Returned(None) => NoValue
    case Threw(e) =>
      if !e.caught then Foreign(e.kind)
      else Rpc(ErrorText(name, e),
               if e.sanctum then e.remediation else "Check the server log for the failing operation.", e.kind)
  }

  /** `InProcessHelper.call_stream`. `pulled` is how far the engine was driven. */
  method InProcess(name: string, t: Trace, patience: nat) returns (said: Said, pulled: nat)
    ensures said == Cut(Said(t.records, LocalOutcome(name, t.end)), patience)
    ensures pulled == |said.records|
  {
    var i := 0;
    while i < |t.records|
      invariant 0 <= i <= |t.records| && (patience == 0 || i < patience)
    {
      i := i + 1;
      if i == patience { return Said(t.records[..i], Abandoned), i; }
    }
    assert t.records[..i] == t.records;
    return Said(t.records[..i], LocalOutcome(name, t.end)), i;
  }

  lemma LocalIsNotAbandoned(name: string, end: End)
    ensures LocalOutcome(name, end) != Abandoned
  {}

  // -------------------------------------------------------------------- equivalence

  predicate SameKind(a: Outcome, b: Outcome)
  {
    match (a, b)
    case (Answer(x), Answer(y)) => x == y
    case (Rpc(_, _, x), Rpc(_, _, y)) => x == y
    case (Abandoned, Abandoned) => true
    case (_, _) => false
  }

  /** A result that is an object, or an exception of a class the transports convert. */
  predicate Carried(end: End)
  {
    match end
    case Returned(value) => value.Some?
    case Threw(e) => e.caught
  }

  /** Of the carried ends, those both transports report in the same words. */
  predicate SameWords(end: End)
  {
    match end
    case Returned(value) => value.Some?
    case Threw(e) => e.caught && e.sanctum && e.message != ""
  }

  /** A stream nobody interrupted tells its reader the handler's records, and its end in kind
      exactly when that end is one the transports carry; word for word exactly when it is a
      result or one of the program's own exceptions with a message. */
  lemma WholeStreamSays(c: Codec, id: nat, name: string, t: Trace, frames: seq<Frame>)
    requires Faithful(c) && FramesFit(c, frames)
    requires WithoutBeats(frames) == ProgressFrames(id, t.records) + TerminalFrames(id, name, t.end)
    ensures var far, near := Interpret(c, WireBytes(c, frames)), LocalOutcome(name, t.end);
            && Roomy(WireBytes(c, frames))
            && far.records == t.records
            && (SameKind(far.outcome, near) <==> Carried(t.end))
            && (far.outcome == near <==> SameWords(t.end))
            && (!Carried(t.end) ==> far.outcome == Closed)
            && (match t.end
                case Returned(Some(value)) => far.outcome == near == Answer(value)
                case Returned(None) => near == NoValue
                case Threw(e) =>
                  if e.caught
                  then far.outcome.Rpc? && near.Rpc? && far.outcome.kind == near.kind == e.kind
                       && (e.sanctum ==> near.message == e.message && near.remediation == e.remediation)
                  else near == Foreign(e.kind))
  {
    hide Faithful, FramesFit, Interpret, WireBytes, WithoutBeats;
    WireIsHeard(c, frames);
    BeatsAreNotHeard(frames);
    ProgressIsHeard(id, t.records, TerminalFrames(id, name, t.end));
    DifferentLogs();
  }

  lemma DifferentLogs()
    ensures "Check the server log for the failing operation." != "Check the helper log for the failing operation."
  {
    var server, helper := "Check the server log for the failing operation.",
        "Check the helper log for the failing operation.";
    assert server[10] == 'S' || server[10] != helper[10];
  }

  /** What was delivered of a stream is some of its records and at most one terminal frame. */
  lemma DeliveredIs(id: nat, name: string, t: Trace, stop: Option<nat>, m: nat) returns (k: nat, tail: seq<Frame>)
    requires stop.Some? ==> stop.value < |t.records|
    requires m <= |Intended(id, name, t, stop)|
    ensures k <= |t.records| && Intended(id, name, t, stop)[..m] == ProgressFrames(id, t.records[..k]) + tail
    ensures Heard(tail).records == []
  {
    hide ProgressFrames, Heard, ErrorText;
    var n := if stop.Some? then stop.value + 1 else |t.records|;
    k := Min(m, n);
    IntendedBegins(id, name, t, stop, k);
    tail := Intended(id, name, t, stop)[k..m];
    assert Intended(id, name, t, stop)[..m] == Intended(id, name, t, stop)[..k] + tail;
    EndSaysNothing(tail);
  }

  lemma EndSaysNothing(tail: seq<Frame>)
    requires |tail| <= 1 && (tail != [] ==> Terminating(tail[0]))
    ensures Heard(tail).records == []
  {}

  /** Whatever interrupts it, a stream's reader is given a prefix of the handler's records. */
  lemma InterruptedStreamSays(c: Codec, id: nat, name: string, t: Trace, stop: Option<nat>, m: nat, frames: seq<Frame>)
    requires Faithful(c) && FramesFit(c, frames)
    requires stop.Some? ==> stop.value < |t.records|
    requires m <= |Intended(id, name, t, stop)| && WithoutBeats(frames) == Intended(id, name, t, stop)[..m]
    ensures Roomy(WireBytes(c, frames)) && Interpret(c, WireBytes(c, frames)).records <= t.records
  {
    hide Faithful, FramesFit, Interpret, WireBytes, WithoutBeats, Intended, Roomy, ProgressFrames, Heard;
    WireIsHeard(c, frames);
    BeatsAreNotHeard(frames);
    var k, tail := DeliveredIs(id, name, t, stop, m);
    ProgressIsHeard(id, t.records[..k], tail);
    assert t.records[..k] + [] == t.records[..k];
  }

  /** The reader of a stream that a poll stopped is given a prefix of the handler's records and never
      an answer: that it was cancelled, if the last frame reached it, and a closed connection if not. */
  lemma StoppedStreamSays(c: Codec, id: nat, name: string, t: Trace, stop: nat, m: nat, frames: seq<Frame>)
    requires Faithful(c) && FramesFit(c, frames) && stop < |t.records|
    requires m <= |Intended(id, name, t, Some(stop))|
    requires WithoutBeats(frames) == Intended(id, name, t, Some(stop))[..m]
    ensures var far := Interpret(c, WireBytes(c, frames));
            && !far.outcome.Answer?
            && (m == stop + 2 ==>
                  far.outcome.Rpc? && far.outcome.kind == "Cancelled" && far.records == t.records[..stop + 1])
            && (m < stop + 2 ==> far.outcome == Closed && far.records == t.records[..m])
  {
    hide Faithful, FramesFit, Interpret, WireBytes, WithoutBeats, Roomy, ProgressFrames, Heard;
    WireIsHeard(c, frames);
    BeatsAreNotHeard(frames);
    var all := Intended(id, name, t, Some(stop));
    if m < stop + 2 {
      IntendedBegins(id, name, t, Some(stop), m);
      ProgressIsHeard(id, t.records[..m], []);
      assert ProgressFrames(id, t.records[..m]) + [] == ProgressFrames(id, t.records[..m]);
      NothingIsHeard();
      assert t.records[..m] + [] == t.records[..m];
    } else {
      assert all[..m] == all;
      ProgressIsHeard(id, t.records[..stop + 1], [CancelledFrame(id, name)]);
      CancelIsHeard(id, name);
      assert t.records[..stop + 1] + [] == t.records[..stop + 1];
    }
  }

  lemma NothingIsHeard()
    ensures Heard([]) == Said([], Closed)
  {}

  lemma CancelIsHeard(id: nat, name: string)
    ensures var said := Heard([CancelledFrame(id, name)]);
            said.records == [] && said.outcome.Rpc? && said.outcome.kind == "Cancelled"
  {}

  /** A caller that closes early is given the same records either way; one that reads to the
      end is told the same as the uncut streams tell. */
  lemma SameCut(said: Said, t: Trace, local: Outcome, patience: nat)
    requires local != Abandoned
    ensures said.records <= t.records ==> Cut(said, patience).records <= t.records
    ensures said.records == t.records ==>
              var far, near := Cut(said, patience), Cut(Said(t.records, local), patience);
              && far.records == near.records
              && if near.outcome == Abandoned then far == near
                 else far.outcome == said.outcome && near.outcome == local
  {}

  /** The whole conversation: the daemon serves, the bytes arrive in any pieces between any
      heartbeats, the client reads - against the same handler run in this process. */
  method Converse(wire: Wire, cuts: nat -> nat, id: nat, name: string, t: Trace, patience: nat)
    returns (far: Said, near: Said)
    requires wire.Valid() && wire.frames == [] && wire.sends == 0 && wire.polled == 0 && Faithful(wire.codec)
    modifies wire
    ensures EndsOnce(wire.frames)
    ensures near == Cut(Said(t.records, LocalOutcome(name, t.end)), patience)
    ensures FramesFit(wire.codec, wire.frames) ==> far.records <= t.records
    ensures FramesFit(wire.codec, wire.frames) && wire.alive > |t.records|
            && (forall i :: 0 <= i < |t.records| ==> !Stops(wire.codec, wire.polls(i))) ==>
              && far.records == near.records
              && (SameKind(far.outcome, near.outcome) <==> near.outcome == Abandoned || Carried(t.end))
              && (far.outcome == near.outcome <==> near.outcome == Abandoned || SameWords(t.end))
              && (!Carried(t.end) && near.outcome != Abandoned ==>
                    far.outcome == Closed)
    ensures FramesFit(wire.codec, wire.frames) && StopAt(wire.codec, wire.polls, |t.records|).Some? ==>
              var stop := StopAt(wire.codec, wire.polls, |t.records|).value;
              && !far.outcome.Answer?
              && (wire.alive > stop + 1 && far.outcome != Abandoned ==>
                    far.outcome.Rpc? && far.outcome.kind == "Cancelled" && far.records == t.records[..stop + 1])
    ensures BeatsTold(wire)
    ensures WithoutBeats(wire.frames) ==
            Intended(id, name, t, StopAt(wire.codec, wire.polls, |t.records|))
              [..Min(wire.alive, |Intended(id, name, t, StopAt(wire.codec, wire.polls, |t.records|))|)]
  {
    hide Interpret, WireBytes, WithoutBeats, FramesFit, Faithful, Stops, StopAt, Intended, EndsOnce, Roomy, Wire.Valid,
         Cut, LocalOutcome, BeatsTold, TerminalFrames, Carried, SameWords;
    var _ := ServeStream(wire, id, name, None, t);
    ghost var stop := StopAt(wire.codec, wire.polls, |t.records|);
    var pipe := new Pipe(wire.sent, cuts);
    var cancelled;
    far, cancelled := CallStream(wire.codec, pipe, patience);
    var pulled;
    near, pulled := InProcess(name, t, patience);
    WireSent(wire);
    LocalIsNotAbandoned(name, t.end);
    SameCut(Interpret(wire.codec, wire.sent), t, LocalOutcome(name, t.end), patience);
    if FramesFit(wire.codec, wire.frames) {
      var m := Min(wire.alive, |Intended(id, name, t, stop)|);
      InterruptedStreamSays(wire.codec, id, name, t, stop, m, wire.frames);
      if stop.Some? {
        StoppedStreamSays(wire.codec, id, name, t, stop.value, m, wire.frames);
        StoppedLength(id, name, t, stop.value);
        CutSays(Interpret(wire.codec, wire.sent), patience);
      }
      if stop.None? && wire.alive > |t.records| {
        WholeIntended(id, name, t, m);
        WholeStreamSays(wire.codec, id, name, t, wire.frames);
      }
    }
  }

  lemma WireSent(wire: Wire)
    requires wire.Valid()
    ensures wire.sent == WireBytes(wire.codec, wire.frames)
  {}

  lemma StoppedLength(id: nat, name: string, t: Trace, stop: nat)
    requires stop < |t.records|
    ensures |Intended(id, name, t, Some(stop))| == stop + 2
  {}

  lemma CutSays(said: Said, patience: nat)
    ensures Cut(said, patience) == said || Cut(said, patience).outcome == Abandoned
  {}

  lemma WholeIntended(id: nat, name: string, t: Trace, m: nat)
    requires m == Min(m, |Intended(id, name, t, None)|)
    ensures |Intended(id, name, t, None)| <= |t.records| + 1
    ensures m >= |Intended(id, name, t, None)| ==>
              Intended(id, name, t, None)[..m] == ProgressFrames(id, t.records) + TerminalFrames(id, name, t.end)
  {}

  // ----------------------------------------------------------- ends the stream loses

  /** A handler that yields nothing and returns nothing, or raises what neither transport
      converts: in this process the caller gets just that, over the socket a closed connection. */
  method LostEnd(c: Codec, raises: bool) returns (far: Said, near: Said)
    requires Faithful(c)
    ensures far == Said([], Closed)
    ensures near == Said([], if raises then Foreign("KeyboardInterrupt") else NoValue)
  {
    hide Faithful, FramesFit, EndsOnce, StopAt;
    var end := if raises then Threw(Raised(false, false, "", "", "KeyboardInterrupt")) else Returned(None);
    var wire := new Wire(c, 1, k => [], k => Quiet);
    var t := Trace([], end);
    Nothing(c, 1, "method", t, wire.polls);
    far, near := Converse(wire, k => 0, 1, "method", t, 0);
    assert wire.frames == [];
  }

  lemma Nothing(c: Codec, id: nat, name: string, t: Trace, polls: nat -> Poll)
    requires t.records == [] && !Carried(t.end)
    ensures Intended(id, name, t, StopAt(c, polls, 0)) == [] && FramesFit(c, [])
  {}
}
