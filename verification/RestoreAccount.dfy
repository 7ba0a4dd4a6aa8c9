/** What a restore's stop record claims of its target, and when it is so (core/restore.py). */
module RestoreAccount {

  import opened Digests
  import opened Runs
  import opened RestoreTally
  import opened BlockTargets
  import opened RestoreForecast
  import opened RestoreEngine

  /** What a run did to its target; part of its contract only. `stop` is how its writing
      stopped, after `chunks` chunks. */
  datatype Trail = Trail(
    written: nat, unwritable: nat, run: nat, refusals: seq<Refusal>, log: BadLog, stop: WriteStop, chunks: nat,
    checkpoints: seq<Entry>)

  /** `trail` is a true account of a run that wrote `image` at `start` onto `was`. */
  ghost predicate TrueAccount(trail: Trail, was: Origin, disk: Bytes, handed: seq<Handed>, start: nat, image: Bytes,
                              maxSpans: nat, maxRun: nat, sector: nat)
  {
    var n := trail.written + trail.unwritable;
    var bad := BadAt(trail.refusals);
    && n <= |image|
    && Progress(was, disk, start, image, n, bad, trail.stop, handed)
    && Ascending(trail.refusals)
    && |bad| == trail.unwritable
    && (forall p :: p in bad ==> start <= p < start + n)
    && (trail.written == 0 ==> forall p :: start <= p < start + n ==> p in bad)
    && RunsBounded(bad, RunLimit(trail.stop, maxRun, sector))
    && StopTells(trail.stop, start + n, trail.run, maxRun)
    && trail.run <= n && AllBad(bad, start + n - trail.run, start + n)
    && trail.log == Replay(trail.refusals, maxSpans)
  }

  /** The run went as the answers of `t` from the `from`-th on foretell, over the chunks begun;
      `k` is the next answer. */
  predicate Foretold(trail: Trail, k: nat, t: Setting, from: nat, total: nat, chunkBytes: nat)
    requires t.sector > 0
  {
    EndedAs(trail.stop, Standing(k, trail.written, trail.unwritable, trail.run)) ==
    Attempt(t, from, total, chunkBytes, trail.chunks)
  }

  function StopNoteOf(phase: Phase, written: nat, unwritable: nat, start: int): StopNote
  {
    if phase != Restore then WrittenButUnverified
    else if written == 0 then NothingWritten
    else PartiallyOverwritten(start, start + written + unwritable, written, unwritable)
  }

  function StopOf(phase: Phase, written: nat, unwritable: nat, start: int): StopRecord
  {
    StopRecord(phase, written, unwritable, start, start + written + unwritable,
               StopNoteOf(phase, written, unwritable, start))
  }

  lemma Accounted(tally: Tally, trail: Trail, was: Origin, disk: Bytes, handed: seq<Handed>, image: Bytes, sector: nat)
    requires tally.Valid() && tally.Accounted() <= |image|
    requires Progress(was, disk, tally.start, image, tally.Accounted(), tally.Bad(), trail.stop, handed)
    requires RunsBounded(tally.Bad(), RunLimit(trail.stop, tally.maxRun, sector))
    requires StopTells(trail.stop, tally.End(), tally.run, tally.maxRun)
    requires trail.written == tally.written && trail.unwritable == tally.unwritable && trail.run == tally.run
    requires trail.refusals == tally.refusals && trail.log == BadLog(tally.spans, tally.unwritableOmitted)
    ensures TrueAccount(trail, was, disk, handed, tally.start, image, tally.maxSpans, tally.maxRun, sector)
  {
    hide Progress, RunsBounded, BadAt, Ascending, Replay;
    tally.BadInRange();
  }

  /** A run that wrote nothing and tore nothing left the disk alone, and gave up in time. */
  lemma NothingTaken(trail: Trail, was: Origin, disk: Bytes, handed: seq<Handed>, start: nat, image: Bytes,
                     maxSpans: nat, maxRun: nat, sector: nat)
    requires TrueAccount(trail, was, disk, handed, start, image, maxSpans, maxRun, sector)
    ensures trail.written == 0 && Torn(trail.stop) == 0 ==> disk == was.disk && trail.unwritable <= maxRun + sector
  {
    if trail.written == 0 && Torn(trail.stop) == 0 {
      var bad := BadAt(trail.refusals);
      assert AllBad(bad, start, start + trail.unwritable);
      forall p | 0 <= p < |disk| ensures disk[p] == was.disk[p] {
        assert disk[p] == LandedAt(was.disk, start, image, trail.unwritable, bad, 0, p);
      }
    }
  }

  /** A run that was given up had its last `maxRun + 1` offsets and more refused; in any other no
      stretch of refused offsets is longer than `maxRun`. */
  lemma GivenUpIff(trail: Trail, was: Origin, disk: Bytes, handed: seq<Handed>, start: nat, image: Bytes,
                   maxSpans: nat, maxRun: nat, sector: nat)
    requires TrueAccount(trail, was, disk, handed, start, image, maxSpans, maxRun, sector)
    ensures trail.stop.RefusedTooMuch? <==> !RunsBounded(BadAt(trail.refusals), maxRun)
    ensures trail.stop.RefusedTooMuch? ==>
              var end := start + trail.written + trail.unwritable;
              && maxRun < trail.stop.run == trail.run <= trail.written + trail.unwritable
              && forall p :: end - trail.run <= p < end ==> p in BadAt(trail.refusals)
  {
    hide Progress, BadAt, Ascending, Replay;
    if trail.stop.RefusedTooMuch? {
      var end := start + trail.written + trail.unwritable;
      assert AllBad(BadAt(trail.refusals), end - trail.run, end);
    }
  }

  /** Everything accounted for, nothing refused: the image stands on the disk, the rest as before. */
  lemma AllLanded(trail: Trail, was: Origin, disk: Bytes, handed: seq<Handed>, image: Bytes,
                  maxSpans: nat, maxRun: nat, sector: nat)
    requires TrueAccount(trail, was, disk, handed, 0, image, maxSpans, maxRun, sector)
    requires trail.written + trail.unwritable == |image| && Torn(trail.stop) == 0
    ensures |image| <= |disk|
    ensures trail.unwritable == 0 ==> disk == image + was.disk[|image|..] && disk[..|image|] == image
  {
    if trail.unwritable == 0 {
      assert BadAt(trail.refusals) == {};
      LandedWhole(was.disk, disk, 0, image);
    }
  }

  /** A run that refused nothing logged nothing. */
  lemma CleanLog(trail: Trail, was: Origin, disk: Bytes, handed: seq<Handed>, start: nat, image: Bytes,
                 maxSpans: nat, maxRun: nat, sector: nat)
    requires TrueAccount(trail, was, disk, handed, start, image, maxSpans, maxRun, sector) && trail.unwritable == 0
    ensures trail.log == BadLog([], 0)
  {
    hide Progress, RunsBounded;
    if trail.refusals != [] { RefusalsShow(trail.refusals); }
  }

  lemma RefusalsShow(refusals: seq<Refusal>)
    requires Ascending(refusals) && refusals != []
    ensures refusals[|refusals| - 1].offset in BadAt(refusals)
  {}

  // -------------------------------------------------------------- the stop record

  /** What a stop record's numbers say is so: the bytes past the end it names are as they
      were (but for a torn sector), the bytes below it are the image's or were refused. */
  lemma StopRecordTrue(trail: Trail, was: Origin, disk: Bytes, handed: seq<Handed>, start: nat, image: Bytes,
                       maxSpans: nat, maxRun: nat, sector: nat)
    requires TrueAccount(trail, was, disk, handed, start, image, maxSpans, maxRun, sector)
    ensures var stop := StopOf(Restore, trail.written, trail.unwritable, start);
            var bad, torn := BadAt(trail.refusals), Torn(trail.stop);
            && |disk| == |was.disk| && stop.rangeStart == start
            && start <= stop.rangeEnd <= stop.rangeEnd + torn <= start + |image| <= |disk|
            && |bad| == stop.unwritable && stop.written + |bad| == stop.rangeEnd - start
            && (forall p :: 0 <= p < start || stop.rangeEnd + torn <= p < |disk| ==> disk[p] == was.disk[p])
            && (forall p :: start <= p < stop.rangeEnd && p in bad ==> disk[p] == was.disk[p])
            && (forall p :: start <= p < stop.rangeEnd && p !in bad ==> disk[p] == image[p - start])
            && (forall p :: stop.rangeEnd <= p < stop.rangeEnd + torn ==> disk[p] == image[p - start])
  {
    hide Replay, Ascending, RunsBounded, Vouched, BadAt, Landed, Called, Torn;
    LandedReads(was.disk, disk, start, image, trail.written + trail.unwritable, BadAt(trail.refusals),
                Torn(trail.stop));
  }

  lemma LandedReads(before: Bytes, after: Bytes, start: nat, image: Bytes, n: nat, bad: set<int>, torn: nat)
    requires Landed(before, after, start, image, n, bad, torn)
    ensures |after| == |before| && n + torn <= |image| && start + |image| <= |before|
    ensures forall p :: 0 <= p < start || start + n + torn <= p < |after| ==> after[p] == before[p]
    ensures forall p :: start <= p < start + n && p in bad ==> after[p] == before[p]
    ensures forall p :: start <= p < start + n && p !in bad ==> after[p] == image[p - start]
    ensures forall p :: start + n <= p < start + n + torn ==> after[p] == image[p - start]
  {}

  /** What the sentence at the end of a stop record claims: of the calls the run made, whether
      each was refused and which bytes they took, and of the disk. */
  ghost predicate NoteClaim(note: StopNote, was: Origin, disk: Bytes, handed: seq<Handed>, start: nat, image: Bytes,
                            bad: set<int>)
    requires |was.disk| == |disk| >= start + |image|
  {
    var took := TookSince(handed, |was.handed|);
    match note
    // No byte was taken, every call was answered with an error, and the disk is as it was.
    case NothingWritten => took == {} && RefusedSince(handed, |was.handed|) && disk == was.disk
    // Exactly the bytes of the range that were not refused were taken, each the image's; the
    // refused ones and everything past the range in the image's reach are as they were.
    case PartiallyOverwritten(from, end, written, refused) =>
      && from == start <= end <= start + |image|
      && |bad| == refused && written + refused == end - from
      && (forall p :: p in bad ==> from <= p < end)
      && (forall p :: p in took <==> from <= p < end && p !in bad)
      && (forall p :: from <= p < end ==> disk[p] == if p in bad then was.disk[p] else image[p - start])
      && (forall p :: end <= p < start + |image| ==> disk[p] == was.disk[p])
    // Every byte of the image's range was taken.
    case WrittenButUnverified => forall p :: start <= p < start + |image| ==> p in took
  }

  /** The sentence a run that stopped in `phase` logged is true. */
  ghost predicate NoteHolds(phase: Phase, trail: Trail, was: Origin, disk: Bytes, handed: seq<Handed>, image: Bytes)
  {
    && |was.disk| == |disk| >= |image|
    && NoteClaim(StopNoteOf(phase, trail.written, trail.unwritable, 0), was, disk, handed, 0, image,
                 BadAt(trail.refusals))
  }

  /** Which ends of a write, foretold from the target's answers, its note tells truly: a run
      that wrote nothing must not have been answered with a count at all, and no sector may
      have been taken in part. */
  predicate NoteTrue(c: Course)
  {
    match c
    case Going(_) => true
    case GaveUp(_) => true
    case Stalled(s) => s.written > 0
    case Short(s, count) => s.written > 0 && count <= 0
  }

  /** No answer strictly between nothing and a sector: no run tears a sector. */
  lemma NoShortCountNoTear(trail: Trail, k: nat, t: Setting, from: nat, total: nat, chunkBytes: nat)
    requires t.sector > 0 && Foretold(trail, k, t, from, total, chunkBytes) && NoCountIn(t, 0)
    ensures Torn(trail.stop) == 0
  {
    hide Attempt, NoCountIn;
    NoCountNoTear(t, from, total, chunkBytes, trail.chunks, 0);
  }

  /** ... and if no answer is a count below a sector at all, every note of a stopped write is true. */
  lemma WholeOrRefusedIsTold(t: Setting, from: nat, total: nat, chunkBytes: nat)
    requires t.sector > 0 && forall k :: t.answers(k).Takes? ==> t.answers(k).count >= t.sector
    ensures NoteTrue(Forecast(t, from, total, chunkBytes))
  {
    hide Attempt;
    var c := Forecast(t, from, total, chunkBytes);
    NoCountNoTear(t, from, total, chunkBytes, total, if c.Short? then c.count - 1 else 0);
  }

  /** The note of a run stopped while writing is true exactly unless the target stopped it with
      an answer that is neither a refusal nor whole. */
  lemma StopNoteOfWrite(trail: Trail, was: Origin, disk: Bytes, handed: seq<Handed>, start: nat, image: Bytes,
                        maxSpans: nat, maxRun: nat, sector: nat, k: nat)
    requires TrueAccount(trail, was, disk, handed, start, image, maxSpans, maxRun, sector)
    ensures |disk| == |was.disk| >= start + |image|
    ensures NoteClaim(StopNoteOf(Restore, trail.written, trail.unwritable, start), was, disk, handed, start, image,
                      BadAt(trail.refusals))
       <==> NoteTrue(EndedAs(trail.stop, Standing(k, trail.written, trail.unwritable, trail.run)))
  {
    hide TrueAccount, BadAt, TookSince, StalledSince, RefusedSince;
    StopRecordTrue(trail, was, disk, handed, start, image, maxSpans, maxRun, sector);
    CallsTold(trail, was, disk, handed, start, image, maxSpans, maxRun, sector);
    NothingTookIsRefused(handed, |was.handed|);
    var end, torn := start + trail.written + trail.unwritable, Torn(trail.stop);
    var took := TookSince(handed, |was.handed|);
    assert torn > 0 ==> end in took;
    if trail.written == 0 && torn == 0 {
      assert forall p :: p !in took;
      assert disk == was.disk;
    }
  }

  /** The calls of a run, told from its account. */
  lemma CallsTold(trail: Trail, was: Origin, disk: Bytes, handed: seq<Handed>, start: nat, image: Bytes,
                  maxSpans: nat, maxRun: nat, sector: nat)
    requires TrueAccount(trail, was, disk, handed, start, image, maxSpans, maxRun, sector)
    ensures var n, bad := trail.written + trail.unwritable, BadAt(trail.refusals);
            && Called(handed, |was.handed|, start, n, bad, trail.stop)
            && |bad| == trail.unwritable
            && (forall p :: p in bad ==> start <= p < start + n)
            && (trail.written == 0 ==> forall p :: start <= p < start + n ==> p in bad)
  {
    hide Called, BadAt, Landed, Vouched;
  }

  /** The note of a stopped read-back is true exactly when nothing was refused. */
  lemma StopNoteOfReadBack(trail: Trail, was: Origin, disk: Bytes, handed: seq<Handed>, start: nat, image: Bytes,
                           maxSpans: nat, maxRun: nat, sector: nat)
    requires TrueAccount(trail, was, disk, handed, start, image, maxSpans, maxRun, sector)
    requires trail.written + trail.unwritable == |image|
    ensures |disk| == |was.disk| >= start + |image|
    ensures NoteClaim(StopNoteOf(Verify, trail.written, trail.unwritable, start), was, disk, handed, start, image,
                      BadAt(trail.refusals))
       <==> trail.unwritable == 0
  {
    hide TrueAccount, BadAt, TookSince, StalledSince, RefusedSince;
    StopRecordTrue(trail, was, disk, handed, start, image, maxSpans, maxRun, sector);
    CallsTold(trail, was, disk, handed, start, image, maxSpans, maxRun, sector);
    EmptyOrNot(BadAt(trail.refusals), start, start + |image|);
  }

  lemma EmptyOrNot(bad: set<int>, start: int, end: int)
    requires forall p :: p in bad ==> start <= p < end
    ensures |bad| == 0 <==> forall p :: start <= p < end ==> p !in bad
  {
    if forall p :: start <= p < end ==> p !in bad {
      assert forall p :: p !in bad;
      assert bad == {};
    }
  }
}
