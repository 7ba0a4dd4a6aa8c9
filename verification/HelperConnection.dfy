/** How the daemon cuts one connection's bytes into requests (helper/daemon.py). */
module HelperConnection {

  import opened Digests
  import opened HelperFrames
  import opened HelperStream
  import opened HelperTransports

  /** The requests in a byte stream: its whole lines, but for the blank ones. */
  function Requests(s: Bytes): seq<Bytes>
    decreases |s|
  {
    match FirstNewline(s)
    case None => []
    case Some(i) => (if Blank(s[..i]) then [] else [s[..i]]) + Requests(s[i + 1..])
  }

  /** The lines up to and with the first that asks for a stream. */
  function UpToStream(lines: seq<Bytes>, streams: Bytes -> bool): seq<Bytes>
  {
    if lines == [] then []
    else if streams(lines[0]) then [lines[0]]
    else [lines[0]] + UpToStream(lines[1..], streams)
  }

  /** The lines before the first that asks for a stream. */
  function BeforeStream(lines: seq<Bytes>, streams: Bytes -> bool): seq<Bytes>
  {
    if lines == [] || streams(lines[0]) then [] else [lines[0]] + BeforeStream(lines[1..], streams)
  }

  /** The first of `n` replies that cannot be delivered. */
  function FirstFailure(delivered: nat -> bool, n: nat): (k: Option<nat>)
    ensures k.Some? ==> k.value < n && !delivered(k.value)
    ensures forall i :: 0 <= i < (if k.Some? then k.value else n) ==> delivered(i)
  {
    if n == 0 then None
    else
      match FirstFailure(delivered, n - 1)
      case Some(k) => Some(k)
      case None => if delivered(n - 1) then None else Some(n - 1)
  }

  predicate NoneStreams(lines: seq<Bytes>, streams: Bytes -> bool)
  {
    forall i :: 0 <= i < |lines| ==> !streams(lines[i])
  }

  lemma {:induction false} UpToStreamCuts(a: seq<Bytes>, line: Bytes, rest: seq<Bytes>, streams: Bytes -> bool)
    requires NoneStreams(a, streams) && streams(line)
    ensures UpToStream(a + [line] + rest, streams) == a + [line]
    ensures BeforeStream(a + [line] + rest, streams) == a
  {
    var all := a + [line] + rest;
    if a == [] {
      assert all[0] == line;
    } else {
      UpToStreamCuts(a[1..], line, rest, streams);
      assert all[1..] == a[1..] + [line] + rest;
    }
  }

  lemma {:induction false} UpToStreamWhole(lines: seq<Bytes>, streams: Bytes -> bool)
    requires NoneStreams(lines, streams)
    ensures UpToStream(lines, streams) == lines && BeforeStream(lines, streams) == lines
  {
    if lines != [] { UpToStreamWhole(lines[1..], streams); }
  }

  /** Before any stream: what was served, with its replies delivered, and what is still pending
      make up all requests. */
  ghost predicate InOrder(served: seq<Bytes>, pending: Bytes, stream: Bytes, streams: Bytes -> bool,
                          delivered: nat -> bool)
  {
    && NoneStreams(served, streams) && served + Requests(pending) == Requests(stream)
    && (forall k :: 0 <= k < |served| ==> delivered(k))
    && (Roomy(stream) ==> Roomy(pending))
  }

  /** A stream was served: the requests up to the first streamed one are among those served, and
      every reply before it was delivered. */
  ghost predicate Streamed(served: seq<Bytes>, stream: Bytes, streams: Bytes -> bool, delivered: nat -> bool)
  {
    && UpToStream(Requests(stream), streams) <= served && !NoneStreams(Requests(stream), streams)
    && FirstFailure(delivered, |BeforeStream(Requests(stream), streams)|).None?
  }

  /** What holds between two lines of a connection. */
  ghost predicate Kept(streamed: nat, served: seq<Bytes>, pending: Bytes, stream: Bytes, streams: Bytes -> bool,
                       delivered: nat -> bool)
  {
    if streamed == 0 then InOrder(served, pending, stream, streams, delivered)
    else Streamed(served, stream, streams, delivered)
  }

  /** What the connection has served when it ends: a prefix of the requests before the first
      stream, or all of those and more. When the lines leave room it is exactly those up to the
      first reply that could not be delivered, and all if there is none. */
  ghost predicate Ended(served: seq<Bytes>, stream: Bytes, streams: Bytes -> bool, delivered: nat -> bool)
  {
    var all := Requests(stream);
    var quiet := BeforeStream(all, streams);
    && (served <= quiet || UpToStream(all, streams) <= served)
    && (Roomy(stream) ==>
          match FirstFailure(delivered, |quiet|)
          case Some(k) => k < |quiet| && served == quiet[..k + 1]
          case None => UpToStream(all, streams) <= served && (NoneStreams(all, streams) ==> served == all))
  }

  lemma OneRequest(pending: Bytes)
    requires FirstNewline(pending).Some?
    ensures var i := FirstNewline(pending).value;
            && Requests(pending) == (if Blank(pending[..i]) then [] else [pending[..i]]) + Requests(pending[i + 1..])
            && (Roomy(pending) ==> Roomy(pending[i + 1..]))
  {}

  /** The requests before the first stream begin with those served. */
  lemma {:induction false} ServedFirst(served: seq<Bytes>, rest: seq<Bytes>, streams: Bytes -> bool)
    requires NoneStreams(served, streams)
    ensures served <= BeforeStream(served + rest, streams)
    ensures rest != [] && !streams(rest[0]) ==> served + [rest[0]] <= BeforeStream(served + rest, streams)
  {
    var all := served + rest;
    if served != [] {
      ServedFirst(served[1..], rest, streams);
      assert all[1..] == served[1..] + rest;
    }
  }

  lemma FailsAt(delivered: nat -> bool, n: nat, k: nat)
    requires k < n && !delivered(k) && forall i :: 0 <= i < k ==> delivered(i)
    ensures FirstFailure(delivered, n) == Some(k)
  {}

  lemma NeverFails(delivered: nat -> bool, n: nat)
    requires forall i :: 0 <= i < n ==> delivered(i)
    ensures FirstFailure(delivered, n) == None
  {}

  /** The next line, blank or served, with its reply delivered. */
  lemma NextRequest(served: seq<Bytes>, pending: Bytes, stream: Bytes, streams: Bytes -> bool, delivered: nat -> bool)
    requires InOrder(served, pending, stream, streams, delivered) && FirstNewline(pending).Some?
    ensures var i := FirstNewline(pending).value;
            var line, rest := pending[..i], pending[i + 1..];
            && (Blank(line) ==> InOrder(served, rest, stream, streams, delivered))
            && (!Blank(line) && !streams(line) && delivered(|served|) ==>
                  InOrder(served + [line], rest, stream, streams, delivered))
            && (!Blank(line) && !streams(line) && !delivered(|served|) ==>
                  Ended(served + [line], stream, streams, delivered))
            && (!Blank(line) && streams(line) ==> Streamed(served + [line], stream, streams, delivered))
  {
    hide UpToStream, BeforeStream, Blank, Roomy, Requests, FirstFailure;
    var i := FirstNewline(pending).value;
    var line, rest := pending[..i], pending[i + 1..];
    OneRequest(pending);
    if !Blank(line) {
      var more := [line] + Requests(rest);
      assert Requests(stream) == served + more;
      assert served + more == (served + [line]) + Requests(rest);
      ServedFirst(served, more, streams);
      if streams(line) {
        UpToStreamCuts(served, line, Requests(rest), streams);
        NeverFails(delivered, |served|);
        assert Requests(stream)[|served|] == line;
      } else if !delivered(|served|) {
        var quiet := BeforeStream(Requests(stream), streams);
        FailsAt(delivered, |quiet|, |served|);
        assert quiet[..|served| + 1] == served + [line];
      }
    }
  }

  /** Every request was served. */
  lemma NothingPending(served: seq<Bytes>, pending: Bytes, stream: Bytes, streams: Bytes -> bool,
                       delivered: nat -> bool)
    requires InOrder(served, pending, stream, streams, delivered) && FirstNewline(pending).None?
    ensures Ended(served, stream, streams, delivered)
  {
    hide UpToStream, BeforeStream, FirstFailure;
    assert Requests(pending) == [] && served == Requests(stream);
    UpToStreamWhole(served, streams);
    NeverFails(delivered, |served|);
  }

  lemma KeptLine(streamed: nat, served: seq<Bytes>, pending: Bytes, stream: Bytes, streams: Bytes -> bool,
                 delivered: nat -> bool, after: Bytes)
    requires Kept(streamed, served, pending, stream, streams, delivered) && FirstNewline(pending).Some?
    ensures var i := FirstNewline(pending).value;
            var line, rest := pending[..i], pending[i + 1..];
            && (Blank(line) ==> Kept(streamed, served, rest, stream, streams, delivered))
            && (!Blank(line) && streams(line) ==>
                  Kept(streamed + 1, served + [line], after, stream, streams, delivered))
            && (!Blank(line) && !streams(line) ==>
                  if delivered(|served|) then Kept(streamed, served + [line], rest, stream, streams, delivered)
                  else Ended(served + [line], stream, streams, delivered))
  {
    hide Requests, UpToStream, BeforeStream, Roomy, Blank, InOrder, FirstFailure, NoneStreams;
    if streamed == 0 { NextRequest(served, pending, stream, streams, delivered); }
  }

  /** A connection may end wherever it stands, but with room only at its end. */
  lemma KeptEnd(streamed: nat, served: seq<Bytes>, buffer: Bytes, rest: Bytes, stream: Bytes, streams: Bytes -> bool,
                delivered: nat -> bool)
    requires Kept(streamed, served, buffer + rest, stream, streams, delivered) && FirstNewline(buffer).None?
    ensures Roomy(stream) && streamed == 0 ==> |buffer| + RECV_BYTES <= MAX_FRAME_BYTES
    ensures rest == [] || streamed > 0 || !Roomy(stream) ==> Ended(served, stream, streams, delivered)
  {
    hide Requests, UpToStream, BeforeStream, Blank, FirstFailure, FirstNewline, Roomy, NoneStreams;
    NewlineCarries(buffer, rest);
    if streamed == 0 {
      if Roomy(stream) { RoomyBegins(buffer + rest); }
      if rest == [] {
        assert buffer + rest == buffer;
        NothingPending(served, buffer, stream, streams, delivered);
      }
      ServedFirst(served, Requests(buffer + rest), streams);
    }
  }

  lemma RoomyBegins(s: Bytes)
    requires Roomy(s)
    ensures if FirstNewline(s).None? then |s| + RECV_BYTES <= MAX_FRAME_BYTES
            else FirstNewline(s).value + RECV_BYTES <= MAX_FRAME_BYTES
  {}

  /** The inner loop: every whole line the buffer holds, up to a reply that cannot be delivered. */
  method ServeLines(pipe: Pipe, streams: Bytes -> bool, delivered: nat -> bool, taken: nat -> nat,
                    already: seq<Bytes>, held: Bytes, before: nat)
    returns (served: seq<Bytes>, buffer: Bytes, streamed: nat, broken: bool)
    requires pipe.Valid() && Kept(before, already, held + pipe.Rest(), pipe.stream, streams, delivered)
    requires |held| <= MAX_FRAME_BYTES
    modifies pipe
    ensures pipe.Valid() && |pipe.Rest()| <= |old(pipe.Rest())|
    ensures broken ==> Ended(served, pipe.stream, streams, delivered) && served != [] && !delivered(|served| - 1)
    ensures !broken ==>
              && FirstNewline(buffer).None?
              && Kept(streamed, served, buffer + pipe.Rest(), pipe.stream, streams, delivered)
  {
    hide Kept, Blank, Ended;
    served, buffer, streamed, broken := already, held, before, false;
    while FirstNewline(buffer).Some?
      invariant pipe.Valid() && |pipe.Rest()| <= |old(pipe.Rest())| && !broken
      invariant Kept(streamed, served, buffer + pipe.Rest(), pipe.stream, streams, delivered)
      decreases |buffer|
    {
      var i := FirstNewline(buffer).value;
      var line, rest := buffer[..i], buffer[i + 1..];
      ghost var pending := buffer + pipe.Rest();
      NewlineCarries(buffer, pipe.Rest());
      assert pending[..i] == line && pending[i + 1..] == rest + pipe.Rest();
      buffer := rest;
      KeptLine(streamed, served, pending, pipe.stream, streams, delivered, buffer);
      if !Blank(line) {
        if streams(line) {
          Receive(pipe, taken(streamed));
          buffer := [];
          KeptLine(streamed, served, pending, pipe.stream, streams, delivered, buffer + pipe.Rest());
          streamed := streamed + 1;
          served := served + [line];
        } else {
          if !delivered(|served|) {
            served, broken := served + [line], true;
            return;
          }
          served := served + [line];
        }
      }
    }
  }

  /** What a streamed operation reads of the connection while it runs. */
  method Receive(pipe: Pipe, pieces: nat)
    requires pipe.Valid()
    modifies pipe
    ensures pipe.Valid() && |pipe.Rest()| <= |old(pipe.Rest())|
  {
    var k := 0;
    while k < pieces
      invariant pipe.Valid() && |pipe.Rest()| <= |old(pipe.Rest())|
    {
      var _ := pipe.Recv();
      k := k + 1;
    }
  }

  /** `serve_connection`, after the peer was accepted. What is served is in order and nothing but
      requests, however the bytes arrive; when no line comes within one `recv` of the limit it is
      every request up to the first streamed one or the first whose reply cannot be delivered -
      all of them exactly if there is no such reply. `delivered(k)` says whether the reply to the
      k-th line served is, and `taken(k)` how many pieces the k-th stream itself receives. */
  method ServeConnection(pipe: Pipe, streams: Bytes -> bool, delivered: nat -> bool, taken: nat -> nat)
    returns (served: seq<Bytes>)
    requires pipe.Valid() && pipe.at == 0
    modifies pipe
    ensures Ended(served, pipe.stream, streams, delivered)
  {
    hide Requests, UpToStream, Roomy, InOrder, Blank, Kept, Ended;
    served := [];
    var buffer: Bytes := [];
    var streamed := 0;
    assert buffer + pipe.Rest() == pipe.stream;
    StartsInOrder(pipe.stream, streams, delivered);
    while true
      invariant pipe.Valid() && FirstNewline(buffer).None?
      invariant Kept(streamed, served, buffer + pipe.Rest(), pipe.stream, streams, delivered)
      decreases |pipe.Rest()|
    {
      ghost var pending := buffer + pipe.Rest();
      KeptEnd(streamed, served, buffer, pipe.Rest(), pipe.stream, streams, delivered);
      var chunk := pipe.Recv();
      if chunk == [] { return; }
      assert pending == (buffer + chunk) + pipe.Rest();
      buffer := buffer + chunk;
      if |buffer| > MAX_FRAME_BYTES { return; }
      var broken;
      served, buffer, streamed, broken := ServeLines(pipe, streams, delivered, taken, served, buffer, streamed);
      if broken { return; }
    }
  }

  lemma StartsInOrder(stream: Bytes, streams: Bytes -> bool, delivered: nat -> bool)
    ensures Kept(0, [], stream, stream, streams, delivered)
  {
    assert [] + Requests(stream) == Requests(stream);
  }
}
