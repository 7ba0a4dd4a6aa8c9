/** The frames of one streamed operation and how a byte stream of them is read back
    (helper/rpc.py). JSON text is an inverse pair whose output holds no raw newline. */
module HelperFrames {

  import opened Digests

  /** A JSON object. */
  type Body = string

  const NEWLINE: Byte := 10

  const MAX_FRAME_BYTES: nat := 1024 * 1024

  const RECV_BYTES: nat := 65536

  datatype Frame =
    | ProgressFrame(id: nat, record: Body)
    | HeartbeatFrame(id: nat, info: Body)
    | ResultFrame(id: nat, result: Body)
    | ErrorFrame(id: nat, message: string, remediation: string, kind: string)

  /** `encode` leaves the newline out; `decode` is `None` on what is not a frame. */
  datatype Codec = Codec(encode: Frame -> Bytes, decode: Bytes -> Option<Frame>, isCancel: Bytes -> bool,
                         encodeCancel: nat -> Bytes)

  ghost predicate Faithful(c: Codec)
  {
    && (forall f :: c.decode(c.encode(f)) == Some(f) && NEWLINE !in c.encode(f))
    && (forall id :: c.isCancel(c.encodeCancel(id)) && NEWLINE !in c.encodeCancel(id))
  }

  /** How a streamed call ends for its caller. `Closed` and `Oversized` are the two
      `OSError`s of the client, `Malformed` a `ValueError`, `Foreign` an exception of a class
      neither transport converts, `NoValue` a handler that returned nothing. */
  datatype Outcome =
    | Answer(result: Body)
    | Rpc(message: string, remediation: string, kind: string)
    | Closed
    | Oversized
    | Malformed
    | Foreign(kind: string)
    | NoValue
    | Abandoned

  datatype Said = Said(records: seq<Body>, outcome: Outcome)

  const UNSPECIFIED := "the helper returned an unspecified error"

  /** What `decode_frame` makes of a well-formed error frame. */
  function RpcOf(message: string, remediation: string, kind: string): Outcome
  {
    Rpc(if message == "" then UNSPECIFIED else message, remediation, kind)
  }

  // ------------------------------------------------------------- frames as they are meant

  /** What the caller of a stream of whole frames hears. */
  function Heard(frames: seq<Frame>): Said
  {
    if frames == [] then Said([], Closed)
    else
      match frames[0]
      case HeartbeatFrame(_, _) => Heard(frames[1..])
      case ProgressFrame(_, record) =>
        var rest := Heard(frames[1..]);
        rest.(records := [record] + rest.records)
      case ResultFrame(_, result) => Said([], Answer(result))
      case ErrorFrame(_, message, remediation, kind) => Said([], RpcOf(message, remediation, kind))
  }

  function WithoutBeats(frames: seq<Frame>): seq<Frame>
  {
    if frames == [] then []
    else
      var before := WithoutBeats(frames[..|frames| - 1]);
      var last := frames[|frames| - 1];
      if last.HeartbeatFrame? then before else before + [last]
  }

  function ProgressFrames(id: nat, records: seq<Body>): (frames: seq<Frame>)
    ensures |frames| == |records|
  {
    seq(|records|, i requires 0 <= i < |records| => ProgressFrame(id, records[i]))
  }

  lemma {:induction false} WithoutBeatsConcat(a: seq<Frame>, b: seq<Frame>)
    ensures WithoutBeats(a + b) == WithoutBeats(a) + WithoutBeats(b)
  {
    if b == [] {
      assert a + b == a;
    } else {
      var init := b[..|b| - 1];
      WithoutBeatsConcat(a, init);
      assert (a + b)[..|a + b| - 1] == a + init;
    }
  }

  /** Heartbeats change nothing that is heard. */
  lemma {:induction false} BeatsAreNotHeard(frames: seq<Frame>)
    ensures Heard(frames) == Heard(WithoutBeats(frames))
    decreases |frames|
  {
    if frames != [] {
      BeatsAreNotHeard(frames[1..]);
      WithoutBeatsConcat([frames[0]], frames[1..]);
      assert [frames[0]] + frames[1..] == frames;
      assert WithoutBeats([frames[0]]) == if frames[0].HeartbeatFrame? then [] else [frames[0]] by {
        assert [frames[0]][..0] == [];
      }
      if !frames[0].HeartbeatFrame? {
        assert WithoutBeats(frames)[1..] == WithoutBeats(frames[1..]);
      } else {
        assert WithoutBeats(frames) == WithoutBeats(frames[1..]);
      }
    }
  }

  /** Progress frames are heard as their records, in order, before whatever follows. */
  lemma {:induction false} ProgressIsHeard(id: nat, records: seq<Body>, rest: seq<Frame>)
    ensures Heard(ProgressFrames(id, records) + rest) == Heard(rest).(records := records + Heard(rest).records)
    decreases |records|
  {
    var frames := ProgressFrames(id, records) + rest;
    if records == [] {
      assert frames == rest;
    } else {
      ProgressIsHeard(id, records[1..], rest);
      assert frames[1..] == ProgressFrames(id, records[1..]) + rest;
    }
  }

  // ------------------------------------------------------------- frames as they are sent

  /** The bytes of whole frames, each ended by a newline. */
  function WireBytes(c: Codec, frames: seq<Frame>): Bytes
  {
    if frames == [] then []
    else WireBytes(c, frames[..|frames| - 1]) + c.encode(frames[|frames| - 1]) + [NEWLINE]
  }

  lemma {:induction false} WireConcat(c: Codec, a: seq<Frame>, b: seq<Frame>)
    ensures WireBytes(c, a + b) == WireBytes(c, a) + WireBytes(c, b)
  {
    if b == [] {
      assert a + b == a;
    } else {
      var init := b[..|b| - 1];
      WireConcat(c, a, init);
      assert (a + b)[..|a + b| - 1] == a + init;
    }
  }

  /** Where the first newline is. */
  function FirstNewline(s: Bytes): (i: Option<nat>)
    ensures i.None? ==> NEWLINE !in s
    ensures i.Some? ==> i.value < |s| && s[i.value] == NEWLINE && NEWLINE !in s[..i.value]
  {
    if s == [] then None
    else if s[0] == NEWLINE then Some(0)
    else
      match FirstNewline(s[1..])
      case None => None
      case Some(i) => assert s[..i + 1] == [s[0]] + s[1..][..i]; Some(i + 1)
  }

  lemma FirstNewlineIs(s: Bytes, i: nat)
    requires i < |s| && s[i] == NEWLINE && NEWLINE !in s[..i]
    ensures FirstNewline(s) == Some(i)
  {
    var at := FirstNewline(s);
    assert at.Some?;
    assert forall k :: 0 <= k < i ==> s[k] == s[..i][k];
    assert forall k :: 0 <= k < at.value ==> s[k] == s[..at.value][k];
  }

  /** `decode_frame`: a frame, or how the call ends because of it. */
  function DecodeFrame(c: Codec, line: Bytes): Result<Frame, Outcome>
  {
    if |line| > MAX_FRAME_BYTES then Err(Malformed)
    else
      match c.decode(line)
      case None => Err(Malformed)
      case Some(ErrorFrame(_, message, remediation, kind)) => Err(RpcOf(message, remediation, kind))
      case Some(f) => Ok(f)
  }

  /** What a byte stream says, read line by line, whatever pieces it arrives in. */
  function Interpret(c: Codec, s: Bytes): Said
    decreases |s|
  {
    match FirstNewline(s)
    case None => Said([], Closed)
    case Some(i) =>
      match DecodeFrame(c, s[..i])
      case Err(outcome) => Said([], outcome)
      case Ok(f) =>
        if f.ResultFrame? then Said([], Answer(f.result))
        else
          var rest := Interpret(c, s[i + 1..]);
          if f.ProgressFrame? then rest.(records := [f.record] + rest.records) else rest
  }

  /** No line, nor what is left after the last, comes within one `recv` of the limit. */
  predicate Roomy(s: Bytes)
    decreases |s|
  {
    match FirstNewline(s)
    case None => |s| + RECV_BYTES <= MAX_FRAME_BYTES
    case Some(i) => i + RECV_BYTES <= MAX_FRAME_BYTES && Roomy(s[i + 1..])
  }

  ghost predicate FramesFit(c: Codec, frames: seq<Frame>)
  {
    forall i :: 0 <= i < |frames| ==> |c.encode(frames[i])| + RECV_BYTES <= MAX_FRAME_BYTES
  }

  lemma WireFront(c: Codec, frames: seq<Frame>)
    requires frames != []
    ensures WireBytes(c, frames) == c.encode(frames[0]) + [NEWLINE] + WireBytes(c, frames[1..])
  {
    assert frames == [frames[0]] + frames[1..];
    WireConcat(c, [frames[0]], frames[1..]);
    assert [frames[0]][..0] == [];
    assert WireBytes(c, [frames[0]]) == c.encode(frames[0]) + [NEWLINE];
  }

  /** Reading the bytes of whole frames says what the frames mean. */
  lemma {:induction false} WireIsHeard(c: Codec, frames: seq<Frame>)
    requires Faithful(c) && FramesFit(c, frames)
    ensures Interpret(c, WireBytes(c, frames)) == Heard(frames)
    ensures Roomy(WireBytes(c, frames))
    decreases |frames|
  {
    if frames != [] {
      var line, rest := c.encode(frames[0]), WireBytes(c, frames[1..]);
      var s := WireBytes(c, frames);
      WireFront(c, frames);
      assert s[..|line|] == line && s[|line| + 1..] == rest;
      FirstNewlineIs(s, |line|);
      assert c.decode(line) == Some(frames[0]);
      WireIsHeard(c, frames[1..]);
    }
  }
}
