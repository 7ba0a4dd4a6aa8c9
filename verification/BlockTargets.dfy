/** The write seam: a target that may take less than it is given, refuse, or lie about
    nothing but its own willingness; an image file whose bytes may change between reads; a
    caller that may close the run at any yield; and the ledger (core/restore.py). */
module BlockTargets {

  import opened Digests
  import opened RestoreTally

  datatype WriteAnswer = TakesAll | Takes(count: int) | Refuses(error: string)

  datatype ReadAnswer = GivesAll | Gives(count: nat) | FailsToRead

  /** One `write_at` call: what it was handed and what it answered. */
  datatype Handed = Handed(offset: nat, data: Bytes, answer: Result<int, string>)

  function Answered(a: WriteAnswer, length: nat): Result<int, string>
  {
    match a
    case TakesAll => Ok(length)
    case Takes(count) => Ok(Min(count, length))
    case Refuses(error) => Err(error)
  }

  /** What a read of `range` returns; a failed one counts as nothing. */
  function ReadOf(a: ReadAnswer, range: Bytes): Bytes
  {
    match a
    case GivesAll => range
    case Gives(count) => range[..Min(count, |range|)]
    case FailsToRead => []
  }

  /** How many bytes an answer changed: a count that is not positive changed nothing. */
  function Taken(r: Result<int, string>): nat
  {
    if r.Ok? && r.value > 0 then r.value else 0
  }

  /** The offsets the calls since `since` took a byte for. */
  ghost function TookSince(handed: seq<Handed>, since: nat): set<int>
  {
    if |handed| <= since then {}
    else
      var last := handed[|handed| - 1];
      TookSince(handed[..|handed| - 1], since) + Offsets(last.offset, Taken(last.answer))
  }

  /** Some call since `since` took nothing and reported no error. */
  predicate StalledSince(handed: seq<Handed>, since: nat)
  {
    |handed| > since &&
    var last := handed[|handed| - 1];
    ((last.answer.Ok? && last.answer.value <= 0) || StalledSince(handed[..|handed| - 1], since))
  }

  /** Every call since `since` answered with an error. */
  predicate RefusedSince(handed: seq<Handed>, since: nat)
  {
    forall i :: since <= i < |handed| ==> handed[i].answer.Err?
  }

  lemma OneMoreCall(handed: seq<Handed>, since: nat, h: Handed)
    requires since <= |handed|
    ensures TookSince(handed + [h], since) == TookSince(handed, since) + Offsets(h.offset, Taken(h.answer))
    ensures StalledSince(handed + [h], since) <==>
              (h.answer.Ok? && h.answer.value <= 0) || StalledSince(handed, since)
  {
    assert (handed + [h])[..|handed|] == handed;
  }

  /** The calls since an earlier one are those up to a later one and those after it. */
  lemma {:induction false} CallsSplit(handed: seq<Handed>, since: nat, at: nat)
    requires since <= at <= |handed|
    ensures TookSince(handed, since) == TookSince(handed[..at], since) + TookSince(handed, at)
    ensures StalledSince(handed, since) <==> StalledSince(handed[..at], since) || StalledSince(handed, at)
  {
    if at == |handed| {
      assert handed[..at] == handed;
    } else {
      CallsSplit(handed[..|handed| - 1], since, at);
      assert handed[..|handed| - 1][..at] == handed[..at];
    }
  }

  /** Nothing taken and nothing stalled: every call was refused. */
  lemma {:induction false} NothingTookIsRefused(handed: seq<Handed>, since: nat)
    ensures TookSince(handed, since) == {} && !StalledSince(handed, since) <==> RefusedSince(handed, since)
  {
    if |handed| > since {
      var init, last := handed[..|handed| - 1], handed[|handed| - 1];
      NothingTookIsRefused(init, since);
      assert handed == init + [last];
      assert Taken(last.answer) > 0 ==> last.offset in Offsets(last.offset, Taken(last.answer));
      assert RefusedSince(handed, since) <==> RefusedSince(init, since) && last.answer.Err?;
    }
  }

  /** A block target over a byte array. `writeAnswers` and `readAnswers` decide what its calls
      answer; every adversary's behaviour in one run is such a pair. */
  class BlockTarget {
    const disk: array<Byte>
    const logicalSector: int
    const writeAnswers: nat -> WriteAnswer
    const readAnswers: nat -> ReadAnswer
    const flushFails: bool
    var writes: nat
    var readsDone: nat
    /** Every call to `WriteAt`, in order. */
    ghost var handed: seq<Handed>

    constructor (disk: array<Byte>, sector: int, writeAnswers: nat -> WriteAnswer,
                 readAnswers: nat -> ReadAnswer, flushFails: bool)
      ensures this.disk == disk && logicalSector == sector && this.flushFails == flushFails
      ensures this.writeAnswers == writeAnswers && this.readAnswers == readAnswers
      ensures writes == 0 && readsDone == 0 && handed == []
    {
      this.disk, logicalSector, this.flushFails := disk, sector, flushFails;
      this.writeAnswers, this.readAnswers := writeAnswers, readAnswers;
      writes, readsDone, handed := 0, 0, [];
    }

    /** Takes something of every write - all of it or less - and flushes. */
    ghost predicate Cooperative()
    {
      && (forall k :: writeAnswers(k).TakesAll? || (writeAnswers(k).Takes? && writeAnswers(k).count > 0))
      && !flushFails
    }

    ghost predicate RefusesEverything()
    {
      forall k :: writeAnswers(k).Refuses?
    }

    ghost predicate ReadsBackEverything()
    {
      forall k :: readAnswers(k) == GivesAll
    }

    method WriteAt(offset: nat, data: Bytes) returns (r: Result<int, string>)
      requires offset + |data| <= disk.Length
      modifies this`writes, this`handed, disk
      ensures writes == old(writes) + 1
      ensures handed == old(handed) + [Handed(offset, data, r)]
      ensures r == Answered(writeAnswers(old(writes)), |data|)
      ensures forall p :: 0 <= p < disk.Length ==>
                disk[p] == if offset <= p < offset + Taken(r) then data[p - offset] else old(disk[p])
    {
      r := Answered(writeAnswers(writes), |data|);
      writes := writes + 1;
      handed := handed + [Handed(offset, data, r)];
      forall i | 0 <= i < Taken(r) {
        disk[offset + i] := data[i];
      }
    }

    /** Reads at most `length` bytes of what the disk holds now. */
    method ReadAt(offset: nat, length: nat) returns (r: Result<Bytes, string>)
      requires offset + length <= disk.Length
      modifies this`readsDone
      ensures readsDone == old(readsDone) + 1
      ensures r.Ok? ==> |r.value| <= length && r.value == disk[offset..offset + |r.value|]
      ensures r.Ok? ==> r.value == ReadOf(readAnswers(old(readsDone)), disk[offset..offset + length])
      ensures readAnswers(old(readsDone)) == GivesAll ==> r.Ok? && |r.value| == length
      ensures r.Err? <==> readAnswers(old(readsDone)) == FailsToRead
    {
      match readAnswers(readsDone) {
        case GivesAll => r := Ok(disk[offset..offset + length]);
        case Gives(count) => r := Ok(disk[offset..offset + Min(count, length)]);
        case FailsToRead => r := Err("EIO");
      }
      readsDone := readsDone + 1;
    }
  }

  datatype SourceAnswer = Current | Other(bytes: Bytes) | ReadFails

  /** The backup image file while a restore reads it. `content` is what it held when the run
      began; a read may answer that, or anything else no longer than what was asked for. */
  class ImageSource {
    const content: Bytes
    const statSize: Option<nat>
    const opens: bool
    const answers: nat -> SourceAnswer
    var served: nat
    var position: nat

    constructor (content: Bytes, statSize: Option<nat>, opens: bool, answers: nat -> SourceAnswer)
      ensures this.content == content && this.statSize == statSize && this.opens == opens
      ensures this.answers == answers && served == 0 && position == 0
    {
      this.content, this.statSize, this.opens, this.answers := content, statSize, opens, answers;
      served, position := 0, 0;
    }

    ghost predicate Unchanging()
    {
      opens && statSize == Some(|content|) && forall k :: answers(k) == Current
    }

    method Read(want: nat) returns (r: Result<Bytes, string>)
      modifies this
      ensures r.Ok? ==> |r.value| <= want
      ensures Unchanging() && old(position) <= |content| ==>
                && position == Min(old(position) + want, |content|)
                && r == Ok(content[old(position)..position])
    {
      match answers(served) {
        case Current =>
          var from := Min(position, |content|);
          position := Min(from + want, |content|);
          r := Ok(content[from..position]);
        case Other(bytes) =>
          r := Ok(bytes[..Min(want, |bytes|)]);
        case ReadFails =>
          r := Err("EIO");
      }
      served := served + 1;
    }
  }

  /** Drives a run's generator; `closes(k)` says whether it closes it at yield `k`. */
  class Caller {
    const closes: nat -> bool
    var pauses: nat

    constructor (closes: nat -> bool)
      ensures this.closes == closes && pauses == 0
    {
      this.closes, pauses := closes, 0;
    }

    ghost predicate Patient()
    {
      forall k :: !closes(k)
    }

    method Yield() returns (closed: bool)
      modifies this
      ensures pauses == old(pauses) + 1
      ensures closed == closes(old(pauses))
    {
      closed := closes(pauses);
      pauses := pauses + 1;
    }
  }

  /** The sentence a stop record ends with. */
  datatype StopNote =
    | WrittenButUnverified
    | NothingWritten
    | PartiallyOverwritten(from: int, end: int, written: nat, refused: nat)

  datatype StopRecord = StopRecord(
    phase: Phase, written: nat, unwritable: nat, rangeStart: int, rangeEnd: int, note: StopNote)

  datatype Entry =
    | Start
    | Checkpoint(written: nat, unwritable: nat, rangeStart: int, rangeEnd: int)
    | Complete(written: nat, unwritable: nat, spans: seq<Refusal>, omitted: nat)
    | Cancelled(stop: StopRecord)
    | Aborted(stop: StopRecord)
    | ReadBack(passed: bool)
    | VerifyCancelled(stop: StopRecord)

  class Ledger {
    var entries: seq<Entry>

    constructor ()
      ensures entries == []
    {
      entries := [];
    }

    method Append(e: Entry)
      modifies this
      ensures entries == old(entries) + [e]
    {
      entries := entries + [e];
    }
  }
}
