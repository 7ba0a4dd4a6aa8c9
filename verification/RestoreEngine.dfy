/** Writing a backup image onto a target, and reading it back (core/restore.py). */
module RestoreEngine {

  import opened Digests
  import opened Backup
  import opened RestorePlanning
  import opened RestoreTally
  import opened BlockTargets
  import opened RestoreForecast

  // ------------------------------------------------------------ what a write did

  /** `after` is `before` with the first `n` bytes of `data` landed at `offset`, except at the
      `bad` offsets, which kept what they held; `torn` more bytes landed without being counted. */
  ghost predicate Landed(before: Bytes, after: Bytes, offset: nat, data: Bytes, n: nat, bad: set<int>, torn: nat)
  {
    && |after| == |before|
    && n + torn <= |data|
    && offset + |data| <= |before|
    && (forall p :: 0 <= p < |before| ==> after[p] == LandedAt(before, offset, data, n, bad, torn, p))
  }

  ghost function LandedAt(before: Bytes, offset: nat, data: Bytes, n: nat, bad: set<int>, torn: nat, p: nat): Byte
    requires n + torn <= |data| && p < |before|
  {
    if offset <= p < offset + n && p !in bad then data[p - offset]
    else if offset + n <= p < offset + n + torn then data[p - offset]
    else before[p]
  }

  lemma LandedMore(before: Bytes, mid: Bytes, after: Bytes, offset: nat, data: Bytes, n: nat, bad: set<int>, k: nat)
    requires Landed(before, mid, offset, data, n, bad, 0)
    requires n + k <= |data| && |after| == |before|
    requires forall p :: p in bad ==> p < offset + n
    requires forall p :: 0 <= p < |before| ==>
               after[p] == if offset + n <= p < offset + n + k then data[p - offset] else mid[p]
    ensures Landed(before, after, offset, data, n + k, bad, 0)
    ensures Landed(before, after, offset, data, n, bad, k)
  {}

  lemma LandedLess(before: Bytes, after: Bytes, offset: nat, data: Bytes, n: nat, bad: set<int>, size: nat)
    requires Landed(before, after, offset, data, n, bad, 0)
    requires n + size <= |data|
    ensures Landed(before, after, offset, data, n + size, bad + Offsets(offset + n, size), 0)
  {}

  /** Landing a chunk of the image after the part that landed already. */
  lemma LandedNext(before: Bytes, mid: Bytes, after: Bytes, offset: nat, image: Bytes, a: nat, bad: set<int>,
                   chunk: Bytes, n: nat, bad': set<int>, torn: nat)
    requires Landed(before, mid, offset, image, a, bad, 0)
    requires a + |chunk| <= |image| && chunk == image[a..a + |chunk|]
    requires Landed(mid, after, offset + a, chunk, n, bad', torn)
    requires forall p :: p < offset + a ==> (p in bad' <==> p in bad)
    ensures Landed(before, after, offset, image, a + n, bad', torn)
  {
    forall p | 0 <= p < |before|
      ensures after[p] == LandedAt(before, offset, image, a + n, bad', torn, p)
    {
      assert after[p] == LandedAt(mid, offset + a, chunk, n, bad', torn, p);
      assert mid[p] == LandedAt(before, offset, image, a, bad, 0, p);
    }
  }

  /** Everything accounted for and nothing bad: the range is the data, the rest as before. */
  lemma LandedWhole(before: Bytes, after: Bytes, offset: nat, data: Bytes)
    requires Landed(before, after, offset, data, |data|, {}, 0)
    ensures after == before[..offset] + data + before[offset + |data|..]
  {
    assert forall p :: 0 <= p < |before| ==> after[p] == LandedAt(before, offset, data, |data|, {}, 0, p);
  }

  // ----------------------------------------------------- bounding runs of refusals

  ghost predicate AllBad(bad: set<int>, a: int, b: int)
  {
    forall p :: a <= p < b ==> p in bad
  }

  /** No `limit + 1` offsets in a row are bad. */
  ghost predicate RunsBounded(bad: set<int>, limit: nat)
  {
    forall a, b :: AllBad(bad, a, b) ==> b - a <= limit
  }

  lemma RunsStayBounded(bad: set<int>, start: int, end: int, run: nat, size: nat, limit: nat, more: nat)
    requires RunsBounded(bad, limit) && TrailingRun(bad, start, end, run)
    requires forall p :: p in bad ==> start <= p < end
    requires run <= limit && size <= more
    ensures RunsBounded(bad + Offsets(end, size), if run + size <= limit then limit else limit + more)
  {
    var grown := bad + Offsets(end, size);
    forall a, b | AllBad(grown, a, b) ensures b - a <= if run + size <= limit then limit else limit + more {
      if b <= a {
      } else if b <= end {
        assert AllBad(bad, a, b);
      } else {
        assert AllBad(bad, a, end);
        assert a < end - run ==> end - run - 1 in bad;
        assert b - 1 in grown;
      }
    }
  }

  // ------------------------------------------------------------------ one chunk

  datatype WriteStop = Completed | NoProgress(at: int, count: int) | ShortSector(at: int, count: int, size: int)
    | RefusedTooMuch(run: nat)

  /** Bytes a stopped write changed without accounting for them. */
  function Torn(stop: WriteStop): nat
  {
    if stop.ShortSector? && stop.count > 0 then stop.count else 0
  }

  /** A write stopped because a call took nothing and reported no error. */
  predicate Stalling(stop: WriteStop)
  {
    stop.NoProgress? || (stop.ShortSector? && stop.count <= 0)
  }

  /** How many bytes may have been refused in a row when a write stands so. */
  function RunLimit(stop: WriteStop, maxRun: nat, sector: nat): nat
  {
    if stop.RefusedTooMuch? then maxRun + sector else maxRun
  }

  /** What a stop says of itself: a write is given up only after more than `maxRun` bytes refused in
      a row, and says how many; the others say where, and a count that is not what was due. */
  predicate StopTells(stop: WriteStop, end: nat, run: nat, maxRun: nat)
  {
    match stop
    case Completed => true
    case NoProgress(at, count) => at == end && count <= 0
    case ShortSector(at, count, size) => at == end && count < size && size > 0
    case RefusedTooMuch(bytes) => bytes == run && run > maxRun
  }

  /** How a write that stopped so, at this standing, is told from the answers. */
  function EndedAs(stop: WriteStop, s: Standing): Course
  {
    match stop
    case Completed => Going(s)
    case NoProgress(_, _) => Stalled(s)
    case ShortSector(_, count, _) => Short(s, count)
    case RefusedTooMuch(_) => GaveUp(s)
  }

  function SectorOf(target: BlockTarget): (sector: nat)
    ensures sector > 0
  {
    if target.logicalSector > 1 then target.logicalSector else 1
  }

  function SettingOf(target: BlockTarget, maxRun: nat): (t: Setting)
    ensures t.sector > 0
  {
    Setting(target.writeAnswers, SectorOf(target), maxRun)
  }

  function StandingOf(target: BlockTarget, tally: Tally): Standing
    reads target, tally
  {
    Standing(target.writes, tally.written, tally.unwritable, tally.run)
  }

  /** The calls since `since` took the `n` bytes from `offset` on but for the bad ones, and the
      torn ones after them, and no others; one of them stalled exactly if the write did. */
  ghost predicate Called(handed: seq<Handed>, since: nat, offset: nat, n: nat, bad: set<int>, stop: WriteStop)
  {
    && (forall p :: p in TookSince(handed, since) <==>
          (offset <= p < offset + n && p !in bad) || offset + n <= p < offset + n + Torn(stop))
    && (StalledSince(handed, since) <==> Stalling(stop))
  }

  /** Every write handed over since call `since` is a stretch of `image` at its own place. */
  ghost predicate Vouched(handed: seq<Handed>, since: nat, offset: nat, image: Bytes)
  {
    since <= |handed| && forall i :: since <= i < |handed| ==> VouchedOne(handed[i], offset, image)
  }

  ghost predicate VouchedOne(h: Handed, offset: nat, image: Bytes)
  {
    && offset <= h.offset
    && h.offset + |h.data| <= offset + |image|
    && h.data == image[h.offset - offset..h.offset - offset + |h.data|]
  }

  /** Where a write of `data` at `offset` stood when it began. */
  datatype Origin = Origin(disk: Bytes, bad: set<int>, handed: seq<Handed>)

  /** Since `was`, `n` bytes of `data` were accounted for and those `stop` tore landed besides;
      the refusals are `bad`, and everything handed over was part of `data`, in place. */
  ghost predicate Progress(was: Origin, disk: Bytes, offset: nat, data: Bytes, n: nat, bad: set<int>, stop: WriteStop,
                           handed: seq<Handed>)
  {
    && Landed(was.disk, disk, offset, data, n, bad, Torn(stop))
    && (forall p :: p < offset ==> (p in bad <==> p in was.bad))
    && was.handed <= handed
    && Vouched(handed, |was.handed|, offset, data)
    && Called(handed, |was.handed|, offset, n, bad, stop)
  }

  lemma ProgressStart(was: Origin, offset: nat, data: Bytes)
    requires offset + |data| <= |was.disk|
    ensures Progress(was, was.disk, offset, data, 0, was.bad, Completed, was.handed)
  {}

  lemma BadBelowStays(was: Origin, disk: Bytes, offset: nat, data: Bytes, n: nat, bad: set<int>, stop: WriteStop,
                      handed: seq<Handed>)
    requires Progress(was, disk, offset, data, n, bad, stop, handed)
    ensures forall p :: p < offset ==> (p in bad <==> p in was.bad)
  {}

  /** A write handed the next `length` bytes and took some of them; it goes on, or it is where
      the whole write stops. */
  lemma ProgressTaken(was: Origin, mid: Bytes, after: Bytes, offset: nat, data: Bytes, n: nat, bad: set<int>,
                      handed: seq<Handed>, length: nat, answer: Result<int, string>, stop: WriteStop)
    requires Progress(was, mid, offset, data, n, bad, Completed, handed)
    requires n + length <= |data| && Taken(answer) <= length && |after| == |mid|
    requires forall p :: p in bad ==> p < offset + n
    requires forall p :: 0 <= p < |mid| ==>
               after[p] == if offset + n <= p < offset + n + Taken(answer)
                           then data[n..n + length][p - (offset + n)] else mid[p]
    ensures var calls := handed + [Handed(offset + n, data[n..n + length], answer)];
            && (answer.Err? || answer.value > 0 ==>
                  Progress(was, after, offset, data, n + Taken(answer), bad, Completed, calls))
            && (Torn(stop) == Taken(answer) && (Stalling(stop) <==> answer.Ok? && answer.value <= 0) ==>
                  Progress(was, after, offset, data, n, bad, stop, calls))
  {
    hide TookSince, StalledSince;
    var k := Taken(answer);
    var h := Handed(offset + n, data[n..n + length], answer);
    LandedMore(was.disk, mid, after, offset, data, n, bad, k);
    assert VouchedOne(h, offset, data);
    OneMoreCall(handed, |was.handed|, h);
  }

  /** The next `size` bytes were refused. */
  lemma ProgressRefused(was: Origin, disk: Bytes, offset: nat, data: Bytes, n: nat, bad: set<int>,
                        handed: seq<Handed>, size: nat)
    requires Progress(was, disk, offset, data, n, bad, Completed, handed)
    requires n + size <= |data|
    ensures Progress(was, disk, offset, data, n + size, bad + Offsets(offset + n, size), Completed, handed)
  {
    hide TookSince, StalledSince;
    LandedLess(was.disk, disk, offset, data, n, bad, size);
  }

  /** Stopping before the next call changes nothing about what the calls so far did. */
  lemma ProgressStops(was: Origin, disk: Bytes, offset: nat, data: Bytes, n: nat, bad: set<int>, handed: seq<Handed>,
                      stop: WriteStop)
    requires Progress(was, disk, offset, data, n, bad, Completed, handed)
    requires Torn(stop) == 0 && !Stalling(stop)
    ensures Progress(was, disk, offset, data, n, bad, stop, handed)
  {}

  /** Some call since `since` was refused. */
  predicate AnyRefused(handed: seq<Handed>, since: nat)
  {
    exists k :: since <= k < |handed| && handed[k].answer.Err?
  }

  /** What a call of a write up to `end` is handed: all that is left, and once one was refused a
      sector of the target, or what is left of the last. */
  predicate PieceOf(handed: seq<Handed>, since: nat, i: nat, end: nat, logicalSector: int)
    requires since <= i < |handed|
  {
    var left := end - handed[i].offset;
    |handed[i].data| == if AnyRefused(handed[..i], since)
                        then (if logicalSector > 1 then Min(logicalSector, left) else Min(1, left))
                        else left
  }

  ghost predicate PiecesOf(handed: seq<Handed>, since: nat, end: nat, logicalSector: int)
  {
    since <= |handed| && forall i :: since <= i < |handed| ==> PieceOf(handed, since, i, end, logicalSector)
  }

  lemma NoPiece(handed: seq<Handed>, end: nat, logicalSector: int)
    ensures PiecesOf(handed, |handed|, end, logicalSector) && !AnyRefused(handed, |handed|)
  {}

  lemma OnePiece(handed: seq<Handed>, since: nat, end: nat, logicalSector: int, h: Handed)
    requires PiecesOf(handed, since, end, logicalSector)
    requires PieceOf(handed + [h], since, |handed|, end, logicalSector)
    ensures PiecesOf(handed + [h], since, end, logicalSector)
    ensures AnyRefused(handed + [h], since) <==> AnyRefused(handed, since) || h.answer.Err?
  {
    var all := handed + [h];
    forall i | since <= i < |all| ensures PieceOf(all, since, i, end, logicalSector) {
      if i < |handed| {
        assert PieceOf(handed, since, i, end, logicalSector) && all[..i] == handed[..i];
      }
    }
    assert all[|handed|] == h;
    if AnyRefused(handed, since) {
      var k :| since <= k < |handed| && handed[k].answer.Err?;
      assert all[k].answer.Err?;
    }
  }

  /** Whole pieces before the first refusal, sectors after it. */
  lemma PieceHanded(handed: seq<Handed>, since: nat, end: nat, target: BlockTarget, h: Handed)
    requires since <= |handed|
    requires |h.data| == if AnyRefused(handed, since) then Min(SectorOf(target), end - h.offset) else end - h.offset
    ensures PieceOf(handed + [h], since, |handed|, end, target.logicalSector)
  {
    assert (handed + [h])[..|handed|] == handed;
  }

  lemma CallOfAll(target: BlockTarget, handed: seq<Handed>, since: nat, end: nat, h: Handed)
    requires PiecesOf(handed, since, end, target.logicalSector)
    requires since <= |handed| && !AnyRefused(handed, since) && |h.data| == end - h.offset
    ensures PiecesOf(handed + [h], since, end, target.logicalSector)
    ensures AnyRefused(handed + [h], since) <==> h.answer.Err?
  {
    PieceHanded(handed, since, end, target, h);
    OnePiece(handed, since, end, target.logicalSector, h);
  }

  lemma CallOfOne(target: BlockTarget, handed: seq<Handed>, since: nat, end: nat, h: Handed)
    requires PiecesOf(handed, since, end, target.logicalSector)
    requires since <= |handed| && AnyRefused(handed, since) && |h.data| == Min(SectorOf(target), end - h.offset)
    ensures PiecesOf(handed + [h], since, end, target.logicalSector) && AnyRefused(handed + [h], since)
  {
    PieceHanded(handed, since, end, target, h);
    OnePiece(handed, since, end, target.logicalSector, h);
  }

  /** Write `data` at `offset`, falling back to one sector at a time where the target refuses. */
  method WriteFully(target: BlockTarget, offset: nat, data: Bytes, tally: Tally) returns (stop: WriteStop)
    requires tally.Valid() && offset == tally.End()
    requires offset + |data| <= target.disk.Length
    requires tally.run <= tally.maxRun
    requires RunsBounded(tally.Bad(), tally.maxRun)
    modifies target, target.disk, tally
    ensures tally.Valid() && tally.phase == old(tally.phase)
    ensures old(tally.Accounted()) <= tally.Accounted() <= old(tally.Accounted()) + |data|
    ensures tally.written >= old(tally.written) && tally.unwritable >= old(tally.unwritable)
    ensures Progress(old(Origin(target.disk[..], tally.Bad(), target.handed)), target.disk[..], offset, data,
                     tally.Accounted() - old(tally.Accounted()), tally.Bad(), stop, target.handed)
    ensures stop.Completed? ==> tally.Accounted() == old(tally.Accounted()) + |data| && tally.run <= tally.maxRun
    ensures RunsBounded(tally.Bad(), RunLimit(stop, tally.maxRun, SectorOf(target)))
    ensures StopTells(stop, tally.End(), tally.run, tally.maxRun)
    ensures Torn(stop) < SectorOf(target)
    ensures EndedAs(stop, StandingOf(target, tally)) ==
            InOne(SettingOf(target, tally.maxRun), old(StandingOf(target, tally)), |data|)
    ensures PiecesOf(target.handed, old(|target.handed|), offset + |data|, target.logicalSector)
    ensures target.readsDone == old(target.readsDone)
  {
    hide Progress, RunsBounded, Account, TrailingRun, BadAt, InOne, BySector, PiecesOf, PieceOf, AnyRefused, SectorOf;
    ghost var t, s0 := SettingOf(target, tally.maxRun), StandingOf(target, tally);
    ghost var was := Origin(target.disk[..], tally.Bad(), target.handed);
    var done := 0;
    var refused := false;
    ProgressStart(was, offset, data);
    NoPiece(was.handed, offset + |data|, target.logicalSector);
    tally.BadInRange();
    while done < |data| && !refused
      invariant 0 <= done <= |data|
      invariant tally.Valid() && tally.phase == old(tally.phase)
      invariant tally.Accounted() == old(tally.Accounted()) + done
      invariant tally.written >= old(tally.written) && tally.unwritable == old(tally.unwritable)
      invariant tally.Bad() == was.bad
      invariant tally.run <= tally.maxRun
      invariant Progress(was, target.disk[..], offset, data, done, was.bad, Completed, target.handed)
      invariant InOne(t, s0, |data|) ==
                if refused then BySector(t, StandingOf(target, tally), |data| - done)
                else InOne(t, StandingOf(target, tally), |data| - done)
      invariant PiecesOf(target.handed, |was.handed|, offset + |data|, target.logicalSector)
      invariant |was.handed| <= |target.handed| && (refused <==> AnyRefused(target.handed, |was.handed|))
      invariant target.readsDone == old(target.readsDone)
      decreases |data| - done, !refused
    {
      ghost var mid, handed := target.disk[..], target.handed;
      InOneUnfolds(t, StandingOf(target, tally), |data| - done);
      var r := target.WriteAt(offset + done, data[done..]);
      assert data[done..|data|] == data[done..];
      ghost var now := target.disk[..];
      CallOfAll(target, handed, |was.handed|, offset + |data|, Handed(offset + done, data[done..], r));
      ProgressTaken(was, mid, now, offset, data, done, was.bad, handed, |data| - done, r,
                    NoProgress(offset + done, if r.Ok? then r.value else 0));
      if r.Err? {
        refused := true;
      } else {
        if r.value <= 0 { return NoProgress(offset + done, r.value); }
        done := done + r.value;
        tally.Wrote(r.value);
        assert target.disk[..] == now;
      }
    }
    InOneUnfolds(t, StandingOf(target, tally), 0);
    if !refused { return Completed; }
    stop := WriteSectors(target, offset, data, tally, done, was);
  }

  /** The fallback: each remaining sector alone. */
  method WriteSectors(target: BlockTarget, offset: nat, data: Bytes, tally: Tally, done: nat, ghost was: Origin)
    returns (stop: WriteStop)
    requires tally.Valid() && done <= |data| && offset + done == tally.End()
    requires offset + |data| <= target.disk.Length
    requires tally.run <= tally.maxRun
    requires RunsBounded(tally.Bad(), tally.maxRun)
    requires Progress(was, target.disk[..], offset, data, done, tally.Bad(), Completed, target.handed)
    requires PiecesOf(target.handed, |was.handed|, offset + |data|, target.logicalSector)
    requires |was.handed| <= |target.handed| && AnyRefused(target.handed, |was.handed|)
    modifies target, target.disk, tally
    ensures tally.Valid() && tally.phase == old(tally.phase)
    ensures old(tally.Accounted()) <= tally.Accounted() <= old(tally.Accounted()) + |data| - done
    ensures tally.written >= old(tally.written) && tally.unwritable >= old(tally.unwritable)
    ensures Progress(was, target.disk[..], offset, data,
                     done + tally.Accounted() - old(tally.Accounted()), tally.Bad(), stop, target.handed)
    ensures stop.Completed? ==>
              tally.Accounted() == old(tally.Accounted()) + |data| - done && tally.run <= tally.maxRun
    ensures RunsBounded(tally.Bad(), RunLimit(stop, tally.maxRun, SectorOf(target)))
    ensures StopTells(stop, tally.End(), tally.run, tally.maxRun)
    ensures Torn(stop) < SectorOf(target)
    ensures EndedAs(stop, StandingOf(target, tally)) ==
            BySector(SettingOf(target, tally.maxRun), old(StandingOf(target, tally)), |data| - done)
    ensures PiecesOf(target.handed, |was.handed|, offset + |data|, target.logicalSector)
    ensures target.readsDone == old(target.readsDone)
  {
    hide Progress, RunsBounded, Account, TrailingRun, BadAt, BySector, PiecesOf, PieceOf, AnyRefused, SectorOf;
    ghost var t, s0 := SettingOf(target, tally.maxRun), StandingOf(target, tally);
    var sector := SectorOf(target);
    var position := done;
    while position < |data|
      invariant done <= position <= |data|
      invariant tally.Valid() && tally.phase == old(tally.phase)
      invariant tally.Accounted() == old(tally.Accounted()) + position - done
      invariant tally.written >= old(tally.written) && tally.unwritable >= old(tally.unwritable)
      invariant tally.run <= tally.maxRun
      invariant RunsBounded(tally.Bad(), tally.maxRun)
      invariant Progress(was, target.disk[..], offset, data, position, tally.Bad(), Completed, target.handed)
      invariant BySector(t, s0, |data| - done) == BySector(t, StandingOf(target, tally), |data| - position)
      invariant PiecesOf(target.handed, |was.handed|, offset + |data|, target.logicalSector)
      invariant |was.handed| <= |target.handed| && AnyRefused(target.handed, |was.handed|)
      invariant target.readsDone == old(target.readsDone)
      decreases |data| - position
    {
      var size := Min(sector, |data| - position);
      BySectorUnfolds(t, StandingOf(target, tally), |data| - position);
      ghost var handed := target.handed;
      stop := WriteSector(target, offset, data, tally, position, size, was);
      CallOfOne(target, handed, |was.handed|, offset + |data|, target.handed[|handed|]);
      assert target.handed == handed + [target.handed[|handed|]];
      if !stop.Completed? { return; }
      position := position + size;
    }
    BySectorUnfolds(t, StandingOf(target, tally), 0);
    stop := Completed;
  }

  /** One sector: `Completed` means it was written or recorded as refused. */
  method WriteSector(target: BlockTarget, offset: nat, data: Bytes, tally: Tally, position: nat, size: nat,
                     ghost was: Origin)
    returns (stop: WriteStop)
    requires tally.Valid() && 0 < size <= SectorOf(target) && position + size <= |data|
    requires offset + position == tally.End() && offset + |data| <= target.disk.Length
    requires tally.run <= tally.maxRun
    requires RunsBounded(tally.Bad(), tally.maxRun)
    requires Progress(was, target.disk[..], offset, data, position, tally.Bad(), Completed, target.handed)
    modifies target, target.disk, tally
    ensures tally.Valid() && tally.phase == old(tally.phase)
    ensures tally.Accounted() == old(tally.Accounted()) + (if stop.Completed? || stop.RefusedTooMuch? then size else 0)
    ensures tally.written >= old(tally.written) && tally.unwritable >= old(tally.unwritable)
    ensures Progress(was, target.disk[..], offset, data,
                     position + tally.Accounted() - old(tally.Accounted()), tally.Bad(), stop, target.handed)
    ensures stop.Completed? ==> tally.run <= tally.maxRun
    ensures RunsBounded(tally.Bad(), RunLimit(stop, tally.maxRun, SectorOf(target)))
    ensures StopTells(stop, tally.End(), tally.run, tally.maxRun)
    ensures Torn(stop) < SectorOf(target)
    ensures EndedAs(stop, StandingOf(target, tally)) ==
            OneSector(SettingOf(target, tally.maxRun), old(StandingOf(target, tally)), size)
    ensures |target.handed| == old(|target.handed|) + 1 && target.handed[..|target.handed| - 1] == old(target.handed)
    ensures var h := target.handed[|target.handed| - 1]; h.offset == offset + position && |h.data| == size
    ensures target.readsDone == old(target.readsDone)
  {
    hide Progress, RunsBounded, Account, TrailingRun, BadAt, Tally.Valid;
    ghost var mid, handed := target.disk[..], target.handed;
    tally.Trailing();
    var r := target.WriteAt(offset + position, data[position..position + size]);
    ghost var now := target.disk[..];
    ProgressTaken(was, mid, now, offset, data, position, tally.Bad(), handed, size, r,
                  ShortSector(offset + position, if r.Ok? then r.value else 0, size));
    match r {
      case Err(error) =>
        ghost var bad := tally.Bad() + Offsets(offset + position, size);
        ProgressRefused(was, now, offset, data, position, tally.Bad(), target.handed, size);
        RunsStayBounded(tally.Bad(), tally.start, tally.End(), tally.run, size, tally.maxRun, SectorOf(target));
        tally.Refused(offset + position, size, error);
        assert tally.Bad() == bad && target.disk[..] == now;
        ProgressStops(was, now, offset, data, position + size, bad, target.handed, RefusedTooMuch(tally.run));
        return if tally.run > tally.maxRun then RefusedTooMuch(tally.run) else Completed;
      case Ok(count) =>
        if count != size { return ShortSector(offset + position, count, size); }
        tally.Wrote(size);
        assert target.disk[..] == now;
        return Completed;
    }
  }

  // ------------------------------------------------------------ the whole range

  datatype AbortReason =
    | SourceUnreadable
    | ImageEnded(at: int)
    | ChunkDiffers(index: nat)
    | WriteStopped(stop: WriteStop)
    | FlushFailed
    | WholeHashDiffers

  function StopBy(why: AbortReason): WriteStop
  {
    if why.WriteStopped? then why.stop else Completed
  }

  /** No other piece of that length has this hash. */
  predicate Vouches(hash: Digest, piece: Bytes)
  {
    hash.Sha256? && |hash.message| == |piece| ==> hash.message == piece
  }

  /** Whatever matches the record's chunk hashes is `image`'s: they need not all be hashes of
      something. For every record with a size and a chunk size there is such an image. */
  ghost predicate VouchesFor(record: BackupRecord, image: Bytes)
  {
    && record.body.chunkBytes > 0 && record.body.imageSizeBytes == |image|
    && forall k :: 0 <= k < |ChunksOf(image, record.body.chunkBytes)| ==>
         Vouches(ExpectedHash(record, k), ChunksOf(image, record.body.chunkBytes)[k])
  }

  /** From chunk `index` on, the recorded hashes vouch for the image from byte `at` on; if they
      are the image's own they are those of the rest of it. */
  ghost predicate HashesFrom(record: BackupRecord, image: Bytes, index: nat, at: nat)
  {
    && record.body.chunkBytes > 0 && at <= |image|
    && (forall k :: 0 <= k < |ChunksOf(image[at..], record.body.chunkBytes)| ==>
          Vouches(ExpectedHash(record, index + k), ChunksOf(image[at..], record.body.chunkBytes)[k]))
    && (DescribesChunksOf(record, image) ==>
          forall k :: 0 <= k < |ChunksOf(image[at..], record.body.chunkBytes)| ==>
            ExpectedHash(record, index + k) == Sha256(ChunksOf(image[at..], record.body.chunkBytes)[k]))
  }

  /** A piece that hashes to what the record says for chunk `index` is the image's own. */
  lemma ChunkVouched(record: BackupRecord, image: Bytes, index: nat, at: nat, piece: Bytes)
    requires HashesFrom(record, image, index, at) && at < |image|
    requires |piece| == Min(record.body.chunkBytes, |image| - at)
    requires Sha256(piece) == ExpectedHash(record, index)
    ensures piece == image[at..at + |piece|] && index < |record.body.chunkHashes|
    ensures HashesFrom(record, image, index + 1, at + |piece|)
  {
    hide HashesFrom;
    HashesStep(record, image, index, at);
  }

  lemma HashesStep(record: BackupRecord, image: Bytes, index: nat, at: nat)
    requires HashesFrom(record, image, index, at) && at < |image|
    ensures var n := Min(record.body.chunkBytes, |image| - at);
            && Vouches(ExpectedHash(record, index), image[at..at + n])
            && (DescribesChunksOf(record, image) ==> ExpectedHash(record, index) == Sha256(image[at..at + n]))
            && HashesFrom(record, image, index + 1, at + n)
  {
    hide Vouches, DescribesChunksOf, ExpectedHash;
    var size := record.body.chunkBytes;
    var rest := image[at..];
    var n := Min(size, |rest|);
    assert rest[..n] == image[at..at + n] && rest[n..] == image[at + n..];
    var all, more := ChunksOf(rest, size), ChunksOf(rest[n..], size);
    assert all == [rest[..n]] + more;
    forall k | 0 <= k < |more|
      ensures Vouches(ExpectedHash(record, index + 1 + k), more[k])
      ensures DescribesChunksOf(record, image) ==> ExpectedHash(record, index + 1 + k) == Sha256(more[k])
    {
      assert all[k + 1] == more[k] && index + (k + 1) == index + 1 + k;
    }
    assert all[0] == image[at..at + n] && index + 0 == index;
  }

  lemma HashesStart(record: BackupRecord, image: Bytes)
    requires VouchesFor(record, image)
    ensures HashesFrom(record, image, 0, 0)
  {
    assert image[0..] == image;
  }

  /** A record's own image is vouched for. */
  lemma OwnImageVouched(record: BackupRecord, image: Bytes)
    requires DescribesChunksOf(record, image)
    ensures VouchesFor(record, image)
  {}

  /** The bytes a record's hashes from `index` on are of, where they are of anything of the right
      length. */
  function Matching(record: BackupRecord, index: nat, left: nat): (bytes: Bytes)
    requires record.body.chunkBytes > 0
    ensures |bytes| == left
    decreases left
  {
    if left == 0 then []
    else
      var want := Min(record.body.chunkBytes, left);
      var hash := ExpectedHash(record, index);
      (if hash.Sha256? && |hash.message| == want then hash.message else seq(want, i requires 0 <= i < want => 0))
      + Matching(record, index + 1, left - want)
  }

  lemma {:induction false} MatchingVouched(record: BackupRecord, index: nat, left: nat, k: nat)
    requires record.body.chunkBytes > 0
    requires k < |ChunksOf(Matching(record, index, left), record.body.chunkBytes)|
    ensures Vouches(ExpectedHash(record, index + k), ChunksOf(Matching(record, index, left), record.body.chunkBytes)[k])
    decreases left
  {
    var size := record.body.chunkBytes;
    var want := Min(size, left);
    var bytes := Matching(record, index, left);
    assert bytes[want..] == Matching(record, index + 1, left - want);
    assert ChunksOf(bytes, size) == [bytes[..want]] + ChunksOf(bytes[want..], size);
    if k > 0 { MatchingVouched(record, index + 1, left - want, k - 1); }
  }

  /** Every record with a size and a chunk size vouches for some image. */
  lemma EveryRecordVouches(record: BackupRecord) returns (image: Bytes)
    requires record.body.chunkBytes > 0 && record.body.imageSizeBytes >= 0
    ensures VouchesFor(record, image)
  {
    image := Matching(record, 0, record.body.imageSizeBytes);
    var chunks := ChunksOf(image, record.body.chunkBytes);
    forall k | 0 <= k < |chunks| ensures Vouches(ExpectedHash(record, k), chunks[k]) {
      MatchingVouched(record, 0, record.body.imageSizeBytes, k);
    }
  }

  lemma ProgressChunk(was: Origin, mid: Bytes, after: Bytes, offset: nat, image: Bytes, a: nat, bad: set<int>,
                      handed: seq<Handed>, chunk: Bytes, n: nat, bad': set<int>, stop: WriteStop, handed': seq<Handed>)
    requires Progress(was, mid, offset, image, a, bad, Completed, handed)
    requires a + |chunk| <= |image| && chunk == image[a..a + |chunk|]
    requires Progress(Origin(mid, bad, handed), after, offset + a, chunk, n, bad', stop, handed')
    ensures Progress(was, after, offset, image, a + n, bad', stop, handed')
  {
    hide Landed, TookSince, StalledSince, Called;
    LandedNext(was.disk, mid, after, offset, image, a, bad, chunk, n, bad', Torn(stop));
    CalledNext(handed, handed', |was.handed|, offset, a, bad, n, bad', stop);
    forall i | |was.handed| <= i < |handed'| ensures VouchedOne(handed'[i], offset, image) {
      if i < |handed| {
        assert handed'[i] == handed[i];
      } else {
        assert VouchedOne(handed'[i], offset + a, chunk);
        SliceOfSlice(image, a, a + |chunk|, handed'[i].offset - offset - a, |handed'[i].data|);
      }
    }
  }

  lemma CalledNext(handed: seq<Handed>, handed': seq<Handed>, since: nat, offset: nat, a: nat, bad: set<int>, n: nat,
                   bad': set<int>, stop: WriteStop)
    requires since <= |handed| && handed <= handed'
    requires Called(handed, since, offset, a, bad, Completed) && Called(handed', |handed|, offset + a, n, bad', stop)
    requires forall p :: p < offset + a ==> (p in bad' <==> p in bad)
    ensures Called(handed', since, offset, a + n, bad', stop)
  {
    hide TookSince, StalledSince;
    CallsSplit(handed', since, |handed|);
    assert handed'[..|handed|] == handed;
  }

  lemma SliceOfSlice(s: Bytes, a: nat, b: nat, from: nat, length: nat)
    requires a <= b <= |s| && from + length <= b - a
    ensures s[a..b][from..from + length] == s[a + from..a + from + length]
  {
    var l, r := s[a..b][from..from + length], s[a + from..a + from + length];
    forall i | 0 <= i < length ensures l[i] == r[i] {
      assert s[a..b][from + i] == s[a + from + i];
    }
  }

  lemma PrefixGrows(image: Bytes, a: nat, n: nat)
    requires a + n <= |image|
    ensures image[..a] + image[a..a + n] == image[..a + n]
  {}

  /** Read, check and write one chunk. */
  method CopyChunk(record: BackupRecord, target: BlockTarget, source: ImageSource, tally: Tally, whole: Hasher,
                   index: nat, want: nat, ghost image: Bytes, ghost was: Origin)
    returns (why: Option<AbortReason>)
    requires tally.Valid() && tally.phase == Restore
    requires tally.Accounted() < |image|
    requires want == Min(record.body.chunkBytes, |image| - tally.Accounted())
    requires tally.start + |image| <= target.disk.Length
    requires HashesFrom(record, image, index, tally.Accounted())
    requires tally.run <= tally.maxRun && RunsBounded(tally.Bad(), tally.maxRun)
    requires Progress(was, target.disk[..], tally.start, image, tally.Accounted(), tally.Bad(), Completed,
                      target.handed)
    requires whole.absorbed == image[..tally.Accounted()]
    modifies target, target.disk, source, tally, whole
    ensures tally.Valid() && tally.phase == Restore
    ensures old(tally.Accounted()) <= tally.Accounted() <= |image|
    ensures var stop := if why.None? then Completed else StopBy(why.value);
            && RunsBounded(tally.Bad(), RunLimit(stop, tally.maxRun, SectorOf(target)))
            && StopTells(stop, tally.End(), tally.run, tally.maxRun)
    ensures Progress(was, target.disk[..], tally.start, image, tally.Accounted(), tally.Bad(),
                     if why.None? then Completed else StopBy(why.value), target.handed)
    ensures why.None? ==>
              && tally.Accounted() == old(tally.Accounted()) + want
              && HashesFrom(record, image, index + 1, tally.Accounted())
              && tally.run <= tally.maxRun
              && whole.absorbed == image[..tally.Accounted()]
    ensures why.Some? ==> why.value.WriteStopped? ==> Torn(why.value.stop) < SectorOf(target)
    ensures why.None? || why.value.WriteStopped? ==> index < |record.body.chunkHashes|
    ensures forall p :: p < tally.start + old(tally.Accounted()) ==> (p in tally.Bad() <==> p in old(tally.Bad()))
    ensures why.Some? && why.value.WriteStopped? ==> !why.value.stop.Completed?
    ensures var now := old(StandingOf(target, tally));
            if why.Some? && !why.value.WriteStopped? then StandingOf(target, tally) == now
            else EndedAs(if why.None? then Completed else StopBy(why.value), StandingOf(target, tally)) ==
                 InOne(SettingOf(target, tally.maxRun), now, want)
    ensures source.Unchanging() && source.content == image && old(source.position) == old(tally.Accounted())
              && DescribesChunksOf(record, image) ==>
              (why.Some? ==> why.value.WriteStopped?) && (why.None? ==> source.position == tally.Accounted())
    ensures target.readsDone == old(target.readsDone)
  {
    hide Progress, RunsBounded, Account, TrailingRun, BadAt, HashesFrom, Tally.Valid, InOne, DescribesChunksOf;
    ghost var a := tally.Accounted();
    HashesStep(record, image, index, a);
    var r := source.Read(want);
    if r.Err? { return Some(SourceUnreadable); }
    var data := r.value;
    if |data| != want { return Some(ImageEnded(tally.Accounted() + |data|)); }
    if Sha256(data) != ExpectedHash(record, index) { return Some(ChunkDiffers(index)); }
    ChunkVouched(record, image, index, a, data);
    whole.Update(data);
    PrefixGrows(image, a, want);
    ghost var mid, bad, handed := target.disk[..], tally.Bad(), target.handed;
    var stop := WriteFully(target, tally.End(), data, tally);
    BadBelowStays(Origin(mid, bad, handed), target.disk[..], tally.start + a, data, tally.Accounted() - a, tally.Bad(),
                  stop, target.handed);
    ProgressChunk(was, mid, target.disk[..], tally.start, image, a, bad, handed, data,
                  tally.Accounted() - a, tally.Bad(), stop, target.handed);
    if !stop.Completed? { return Some(WriteStopped(stop)); }
    why := None;
  }

  /** How the writing part of a run ended. */
  datatype RangeEnd = Written | Closed | Raised(why: AbortReason)

  function StopAt(end: RangeEnd): WriteStop
  {
    if end.Raised? then StopBy(end.why) else Completed
  }

  /** What must be accounted for before the `n`-th checkpoint, counted from none, is due. */
  function DueAt(n: nat, every: nat): nat
  {
    if n == 0 then every else DueAt(n - 1, every) + every
  }

  /** The refused offsets below `end`. */
  ghost function BadBelow(bad: set<int>, end: int): set<int>
  {
    set p | p in bad && p < end
  }

  /** The checkpoint tells the range accounted for when it was written, its bytes that were written
      and the count of those that were refused, and was due. */
  ghost predicate CheckpointOk(e: Entry, start: nat, upTo: nat, bad: set<int>, due: nat)
  {
    && e.Checkpoint? && e.rangeStart == start && e.rangeEnd == start + e.written + e.unwritable <= start + upTo
    && e.unwritable == |BadBelow(bad, e.rangeEnd)|
    && e.written + e.unwritable >= due
  }

  predicate Before(e: Entry, f: Entry)
  {
    e.Checkpoint? && f.Checkpoint? && e.rangeEnd < f.rangeEnd
  }

  /** The checkpoints of a run that has accounted for `upTo` bytes: true, and ever further. */
  ghost predicate Checkpoints(entries: seq<Entry>, start: nat, upTo: nat, bad: set<int>, every: nat)
  {
    && (forall i :: 0 <= i < |entries| ==> CheckpointOk(entries[i], start, upTo, bad, DueAt(i, every)))
    && (forall i, j :: 0 <= i < j < |entries| ==> Before(entries[i], entries[j]))
  }

  /** None is missing: the next is not due, or the last tells all there is. */
  predicate NoneMissing(entries: seq<Entry>, start: nat, upTo: nat, every: nat)
  {
    upTo == 0 || upTo < DueAt(|entries|, every) ||
    (entries != [] && entries[|entries| - 1].Checkpoint? && entries[|entries| - 1].rangeEnd == start + upTo)
  }

  lemma CheckpointAdded(entries: seq<Entry>, start: nat, upTo: nat, was: set<int>, every: nat, bad: set<int>,
                        written: nat, unwritable: nat)
    requires Checkpoints(entries, start, upTo, was, every) && upTo < written + unwritable
    requires forall p :: p < start + upTo ==> (p in bad <==> p in was)
    requires |bad| == unwritable && forall p :: p in bad ==> p < start + written + unwritable
    requires written + unwritable >= DueAt(|entries|, every)
    ensures Checkpoints(entries + [Checkpoint(written, unwritable, start, start + written + unwritable)], start,
                        written + unwritable, bad, every)
  {
    var all := entries + [Checkpoint(written, unwritable, start, start + written + unwritable)];
    assert BadBelow(bad, start + written + unwritable) == bad;
    forall i | 0 <= i < |all| ensures CheckpointOk(all[i], start, written + unwritable, bad, DueAt(i, every)) {
      if i < |entries| {
        assert all[i] == entries[i] && CheckpointOk(entries[i], start, upTo, was, DueAt(i, every));
        assert BadBelow(bad, entries[i].rangeEnd) == BadBelow(was, entries[i].rangeEnd);
      }
    }
  }

  /** More was accounted for. */
  lemma CheckpointsKept(entries: seq<Entry>, start: nat, upTo: nat, was: set<int>, every: nat, bad: set<int>,
                        more: nat)
    requires Checkpoints(entries, start, upTo, was, every) && upTo <= more
    requires forall p :: p < start + upTo ==> (p in bad <==> p in was)
    ensures Checkpoints(entries, start, more, bad, every)
  {
    forall i | 0 <= i < |entries| ensures CheckpointOk(entries[i], start, more, bad, DueAt(i, every)) {
      assert CheckpointOk(entries[i], start, upTo, was, DueAt(i, every));
      assert BadBelow(bad, entries[i].rangeEnd) == BadBelow(was, entries[i].rangeEnd);
    }
  }

  /** Between two chunks: a checkpoint entry when enough has been accounted for since the last. */
  method Log(ledger: Ledger, tally: Tally, next: int, checkpointBytes: nat, ghost logged: seq<Entry>,
             ghost checkpoints: seq<Entry>, ghost a: nat, ghost bad: set<int>)
    returns (next': int, ghost checkpoints': seq<Entry>)
    requires ledger.entries == logged + checkpoints && tally.Valid()
    requires Checkpoints(checkpoints, tally.start, a, bad, checkpointBytes) && a < tally.Accounted()
    requires next == DueAt(|checkpoints|, checkpointBytes)
    requires forall p :: p < tally.start + a ==> (p in tally.Bad() <==> p in bad)
    modifies ledger
    ensures ledger.entries == logged + checkpoints'
    ensures Checkpoints(checkpoints', tally.start, tally.Accounted(), tally.Bad(), checkpointBytes)
    ensures NoneMissing(checkpoints', tally.start, tally.Accounted(), checkpointBytes)
    ensures next' == DueAt(|checkpoints'|, checkpointBytes)
  {
    hide Checkpoints, Tally.Valid, BadAt;
    tally.BadInRange();
    if tally.Accounted() >= next {
      var entry := Checkpoint(tally.written, tally.unwritable, tally.start, tally.start + tally.Accounted());
      CheckpointAdded(checkpoints, tally.start, a, bad, checkpointBytes, tally.Bad(), tally.written, tally.unwritable);
      ledger.Append(entry);
      checkpoints' := checkpoints + [entry];
      next' := next + checkpointBytes;
    } else {
      CheckpointsKept(checkpoints, tally.start, a, bad, checkpointBytes, tally.Bad(), tally.Accounted());
      next', checkpoints' := next, checkpoints;
    }
  }

  /** Where the writing of `image` stands after `chunks` chunks, stopped as `stop` says: what is
      on the disk, what was refused, and that it went as the target's answers foretell. */
  ghost predicate RangeState(record: BackupRecord, target: BlockTarget, tally: Tally, image: Bytes, was: Origin,
                             from: nat, chunks: nat, stop: WriteStop)
    reads target, target.disk, tally
  {
    && tally.Valid() && tally.phase == Restore && tally.Accounted() <= |image|
    && RunsBounded(tally.Bad(), RunLimit(stop, tally.maxRun, SectorOf(target)))
    && StopTells(stop, tally.End(), tally.run, tally.maxRun)
    && Progress(was, target.disk[..], tally.start, image, tally.Accounted(), tally.Bad(), stop, target.handed)
    && Torn(stop) < SectorOf(target)
    && chunks <= |record.body.chunkHashes| && record.body.chunkBytes > 0
    && EndedAs(stop, StandingOf(target, tally)) ==
       Attempt(SettingOf(target, tally.maxRun), from, |image|, record.body.chunkBytes, chunks)
    && (!stop.Completed? || tally.Accounted() == |image| ==> chunks <= |image|)
  }

  /** ... and ready for the next chunk. */
  ghost predicate Ready(record: BackupRecord, target: BlockTarget, tally: Tally, image: Bytes, was: Origin, from: nat,
                        index: nat)
    reads target, target.disk, tally
  {
    && RangeState(record, target, tally, image, was, from, index, Completed)
    && tally.run <= tally.maxRun && index <= tally.Accounted()
    && HashesFrom(record, image, index, tally.Accounted())
  }

  lemma StartsReady(record: BackupRecord, target: BlockTarget, tally: Tally, image: Bytes)
    requires VouchesFor(record, image)
    requires tally.Valid() && tally.Accounted() == 0 && tally.phase == Restore && tally.Bad() == {}
    requires tally.start + |image| <= target.disk.Length
    ensures Ready(record, target, tally, image, Origin(target.disk[..], {}, target.handed), target.writes, 0)
  {
    hide Progress, RunsBounded, Account, TrailingRun, BadAt, HashesFrom;
    ProgressStart(Origin(target.disk[..], {}, target.handed), tally.start, image);
    NothingBad(tally.maxRun);
    HashesStart(record, image);
    tally.RunIsShort();
  }

  /** One more chunk: read, checked, written, and the range ready for the one after it. */
  method NextChunk(record: BackupRecord, target: BlockTarget, source: ImageSource, tally: Tally, whole: Hasher,
                   index: nat, want: nat, ghost image: Bytes, ghost was: Origin, ghost from: nat)
    returns (why: Option<AbortReason>)
    requires Ready(record, target, tally, image, was, from, index)
    requires tally.Accounted() < |image| && want == Min(record.body.chunkBytes, |image| - tally.Accounted())
    requires tally.start + |image| <= target.disk.Length
    requires whole.absorbed == image[..tally.Accounted()]
    modifies target, target.disk, source, tally, whole
    ensures why.None? ==>
              && Ready(record, target, tally, image, was, from, index + 1)
              && tally.Accounted() == old(tally.Accounted()) + want
              && whole.absorbed == image[..tally.Accounted()]
    ensures why.Some? ==>
              && RangeState(record, target, tally, image, was, from,
                            if why.value.WriteStopped? then index + 1 else index, StopBy(why.value))
              && (why.value.WriteStopped? ==> !why.value.stop.Completed?)
              && (!why.value.WriteStopped? ==> tally.Accounted() == old(tally.Accounted()))
    ensures tally.Accounted() >= old(tally.Accounted())
    ensures forall p :: p < tally.start + old(tally.Accounted()) ==> (p in tally.Bad() <==> p in old(tally.Bad()))
    ensures source.Unchanging() && source.content == image && old(source.position) == old(tally.Accounted())
              && DescribesChunksOf(record, image) ==>
              (why.Some? ==> why.value.WriteStopped?) && (why.None? ==> source.position == tally.Accounted())
    ensures target.readsDone == old(target.readsDone)
  {
    hide Progress, RunsBounded, Account, TrailingRun, BadAt, HashesFrom, Attempt, InOne, Tally.Valid;
    ghost var a := tally.Accounted();
    AttemptUnfolds(SettingOf(target, tally.maxRun), from, |image|, record.body.chunkBytes, index);
    why := CopyChunk(record, target, source, tally, whole, index, want, image, was);
  }

  /** Write every chunk of the image, in order, checking each against the record first. */
  method WriteRange(record: BackupRecord, plan: RestorePlan, target: BlockTarget, source: ImageSource, caller: Caller,
                    ledger: Ledger, tally: Tally, checkpointBytes: nat, ghost image: Bytes)
    returns (end: RangeEnd, ghost checkpoints: seq<Entry>, ghost chunks: nat)
    requires VouchesFor(record, image) && PlanFor(plan, record)
    requires tally.Valid() && tally.Accounted() == 0 && tally.phase == Restore
    requires tally.start == plan.body.writeOffset && tally.Bad() == {}
    requires tally.start + |image| <= target.disk.Length
    modifies target, target.disk, source, caller, ledger, tally
    ensures RangeState(record, target, tally, image, old(Origin(target.disk[..], {}, target.handed)),
                       old(target.writes), chunks, StopAt(end))
    ensures ledger.entries == old(ledger.entries) + checkpoints
    ensures Checkpoints(checkpoints, tally.start, tally.Accounted(), tally.Bad(), checkpointBytes)
    ensures StopAt(end).Completed? ==> NoneMissing(checkpoints, tally.start, tally.Accounted(), checkpointBytes)
    ensures end.Written? ==>
              && tally.Accounted() == |image| && record.body.imageSha256 == Sha256(image)
              && !target.flushFails
    ensures end.Raised? && end.why.WriteStopped? ==> !end.why.stop.Completed?
    ensures Paused(caller.closes, old(caller.pauses), caller.pauses, end == Closed)
    ensures end == Closed || end.Written? ==> caller.pauses == old(caller.pauses) + 1 + chunks
    ensures source.Unchanging() && source.content == image && old(source.position) == 0
              && Describes(record, image) && end.Raised? && !end.why.WriteStopped? ==>
              end.why == FlushFailed && target.flushFails && tally.Accounted() == |image|
    ensures target.readsDone == old(target.readsDone)
  {
    hide RangeState, Ready, Tally.Valid, Checkpoints, Paused, NotBlocked, VouchesFor, DescribesChunksOf,
         Tally.Accounted, NoneMissing, DueAt, BadAt;
    SizesVouched(record, image);
    ghost var was, from := Origin(target.disk[..], {}, target.handed), target.writes;
    ghost var logged := ledger.entries;
    checkpoints, chunks := [], 0;
    StartsReady(record, target, tally, image);
    ReadyIs(record, target, tally, image, was, from, 0);
    NoCheckpoints(tally.start, checkpointBytes);
    assert image[..0] == [];
    assert ledger.entries == logged + checkpoints;
    PausedMore(caller.closes, old(caller.pauses), old(caller.pauses));
    var closed := caller.Yield();
    if closed { return Closed, checkpoints, chunks; }
    if !source.opens { return Raised(SourceUnreadable), checkpoints, chunks; }
    var whole := new Hasher();
    var next := checkpointBytes;
    var index := 0;
    while tally.Accounted() < plan.body.writeLength
      invariant fresh(whole)
      invariant Ready(record, target, tally, image, was, from, index) && chunks == index
      invariant tally.Accounted() <= |image|
      invariant whole.absorbed == image[..tally.Accounted()]
      invariant ledger.entries == logged + checkpoints
      invariant Checkpoints(checkpoints, tally.start, tally.Accounted(), tally.Bad(), checkpointBytes)
      invariant NoneMissing(checkpoints, tally.start, tally.Accounted(), checkpointBytes)
      invariant next == DueAt(|checkpoints|, checkpointBytes)
      invariant Paused(caller.closes, old(caller.pauses), caller.pauses, false)
      invariant caller.pauses == old(caller.pauses) + 1 + index
      invariant source.Unchanging() && source.content == image && old(source.position) == 0
                  && DescribesChunksOf(record, image) ==>
                  source.position == tally.Accounted()
      invariant target.readsDone == old(target.readsDone)
      decreases |image| - tally.Accounted()
    {
      ghost var a, bad := tally.Accounted(), tally.Bad();
      var want := Min(plan.body.chunkBytes, plan.body.writeLength - tally.Accounted());
      var why := NextChunk(record, target, source, tally, whole, index, want, image, was, from);
      if why.Some? {
        CheckpointsKept(checkpoints, tally.start, a, bad, checkpointBytes, tally.Bad(), tally.Accounted());
        if why.value.WriteStopped? { chunks := chunks + 1; }
        return Raised(why.value), checkpoints, chunks;
      }
      index := index + 1;
      chunks := index;
      ReadyIs(record, target, tally, image, was, from, index);
      next, checkpoints := Log(ledger, tally, next, checkpointBytes, logged, checkpoints, a, bad);
      PausedMore(caller.closes, old(caller.pauses), caller.pauses);
      closed := caller.Yield();
      if closed { return Closed, checkpoints, chunks; }
    }
    ReadyIs(record, target, tally, image, was, from, index);
    if target.flushFails { return Raised(FlushFailed), checkpoints, chunks; }
    // Every planned byte is accounted for here: the program's own check of that cannot fire.
    assert tally.Accounted() == plan.body.writeLength;
    assert image[..|image|] == image;
    if whole.HexDigest() != record.body.imageSha256 { return Raised(WholeHashDiffers), checkpoints, chunks; }
    end := Written;
  }

  lemma SizesVouched(record: BackupRecord, image: Bytes)
    requires VouchesFor(record, image)
    ensures record.body.chunkBytes > 0 && record.body.imageSizeBytes == |image|
  {}

  lemma ReadyIs(record: BackupRecord, target: BlockTarget, tally: Tally, image: Bytes, was: Origin, from: nat,
                index: nat)
    requires Ready(record, target, tally, image, was, from, index)
    ensures RangeState(record, target, tally, image, was, from, index, Completed) && tally.Accounted() <= |image|
  {}

  /** The caller was asked at every yield from `from` to `to`; only the last can have closed the run. */
  predicate Paused(closes: nat -> bool, from: nat, to: nat, closed: bool)
  {
    && from < to
    && (forall k :: from <= k < to - 1 ==> !closes(k))
    && closes(to - 1) == closed
  }

  lemma PausedMore(closes: nat -> bool, from: nat, to: nat)
    requires from == to || Paused(closes, from, to, false)
    ensures Paused(closes, from, to + 1, closes(to))
  {}

  lemma AttemptUnfolds(t: Setting, from: nat, total: nat, chunkBytes: nat, i: nat)
    requires t.sector > 0
    ensures var c := Attempt(t, from, total, chunkBytes, i);
            c.Going? && c.s.written + c.s.refused < total ==>
              Attempt(t, from, total, chunkBytes, i + 1) ==
              InOne(t, c.s, Min(chunkBytes, total - (c.s.written + c.s.refused)))
  {}

  lemma InOneUnfolds(t: Setting, s: Standing, left: nat)
    requires t.sector > 0
    ensures InOne(t, s, left) ==
            if left == 0 then Going(s)
            else match Answered(t.answers(s.k), left) {
              case Err(_) => BySector(t, s.(k := s.k + 1), left)
              case Ok(count) =>
                if count <= 0 then Stalled(s.(k := s.k + 1))
                else InOne(t, s.(k := s.k + 1, written := s.written + count, run := 0), left - count)
            }
  {}

  /** What one sector write does, told from its answer. */
  function OneSector(t: Setting, s: Standing, size: nat): Course
  {
    match Answered(t.answers(s.k), size)
    case Err(_) =>
      var s' := s.(k := s.k + 1, refused := s.refused + size, run := s.run + size);
      if s'.run > t.maxRun then GaveUp(s') else Going(s')
    case Ok(count) =>
      if count != size then Short(s.(k := s.k + 1), count)
      else Going(s.(k := s.k + 1, written := s.written + size, run := 0))
  }

  lemma BySectorUnfolds(t: Setting, s: Standing, left: nat)
    requires t.sector > 0
    ensures BySector(t, s, left) ==
            if left == 0 then Going(s)
            else match OneSector(t, s, Min(t.sector, left)) {
              case Going(s') => BySector(t, s', left - Min(t.sector, left))
              case stopped => stopped
            }
  {}

  lemma NothingBad(limit: nat)
    ensures RunsBounded({}, limit)
  {
    forall a, b ensures AllBad({}, a, b) ==> b - a <= limit {
      FirstIsBad({}, a, b);
    }
  }

  lemma FirstIsBad(bad: set<int>, a: int, b: int)
    ensures AllBad(bad, a, b) && a < b ==> a in bad
  {}

  lemma NoCheckpoints(start: nat, every: nat)
    ensures Checkpoints([], start, 0, {}, every) && NoneMissing([], start, 0, every)
    ensures DueAt(0, every) == every
  {}
}
