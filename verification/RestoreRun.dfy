/** A whole restore run: the gate, the write, the read-back, and what is recorded when a run
    stops early (core/restore.py, `execute_restore`). */
module RestoreRun {

  import opened Digests
  import opened Backup
  import opened RestorePlanning
  import opened RestoreTally
  import opened BlockTargets
  import opened RestoreForecast
  import opened RestoreEngine
  import opened RestoreAccount

  // ------------------------------------------------------------------ read-back

  datatype RestoreVerification = RestoreVerification(
    passed: bool, actualSha256: Digest, bytesVerified: nat, mismatchedChunks: seq<nat>,
    firstMismatch: Option<ChunkMismatch>, unreadableChunks: seq<nat>)

  /** Read the written range back chunk by chunk and compare it with the recorded hashes.
      `closed` means the caller closed the run before the comparison was finished. */
  method VerifyRestored(record: BackupRecord, plan: RestorePlan, target: BlockTarget, caller: Caller,
                        ghost image: Bytes)
    returns (v: RestoreVerification, closed: bool)
    requires VouchesFor(record, image) && PlanFor(plan, record)
    requires |image| <= target.disk.Length
    modifies target`readsDone, caller
    ensures caller.pauses > old(caller.pauses) || image == []
    ensures caller.pauses > old(caller.pauses) ==>
              Paused(caller.closes, old(caller.pauses), caller.pauses, closed)
    ensures caller.pauses == old(caller.pauses) ==> !closed
    ensures !closed ==>
              && Ascends(v.mismatchedChunks)
              && FirstTold(v.firstMismatch, v.mismatchedChunks, record, image, target.disk[..],
                           target.ReadsBackEverything())
    ensures !closed ==>
              && v.bytesVerified == |image|
              && (v.passed <==> v.mismatchedChunks == [] && v.actualSha256 == record.body.imageSha256)
              && (v.mismatchedChunks == [] ==> target.disk[..|image|] == image && v.actualSha256 == Sha256(image))
              && (forall i :: i in v.unreadableChunks ==> i in v.mismatchedChunks)
    ensures !closed && target.ReadsBackEverything() ==>
              && v.unreadableChunks == []
              && v.actualSha256 == Sha256(target.disk[..|image|])
              && ListsMismatches(v.mismatchedChunks, ChunksOf(target.disk[..|image|], record.body.chunkBytes), record)
              && (Describes(record, image) ==> (v.passed <==> target.disk[..|image|] == image))
    ensures !closed ==> ReadBackIs(v, record, target.disk[..|image|], target.readAnswers, old(target.readsDone))
  {
    hide ReadBoth, ReadOf, ReadBackIs, FirstTold, ListsMismatches, VouchesFor, Describes, ChunksOf, Paused, NotBlocked,
         Ascends, ExpectedHash;
    var whole := new Hasher();
    var mismatched: seq<nat> := [];
    var unreadable: seq<nat> := [];
    var first: Option<ChunkMismatch> := None;
    var done := 0;
    var index := 0;
    closed := false;
    ghost var disk, honest, from := target.disk[..], target.ReadsBackEverything(), target.readsDone;
    ghost var seen: seq<Bytes> := [];
    SizesVouched(record, image);
    BothStart(record, image, disk, honest, target.readAnswers, from);
    while done < plan.body.writeLength
      invariant done <= |image| && fresh(whole)
      invariant ReadBoth(record, image, disk, honest, target.readAnswers, from, index, done, mismatched, unreadable,
                         first, seen, whole.absorbed)
      invariant target.readsDone == from + index
      invariant caller.pauses == old(caller.pauses) + index && (index == 0 ==> done == 0)
      invariant index == 0 || Paused(caller.closes, old(caller.pauses), caller.pauses, false)
      decreases |image| - done
    {
      var want := Min(plan.body.chunkBytes, plan.body.writeLength - done);
      var expected := ExpectedHash(record, index);
      var data, failed := ReadChunk(target, plan.body.writeOffset + done, want);
      BothStep(record, image, disk, honest, target.readAnswers, from, index, done, mismatched, unreadable, first, seen,
               whole.absorbed, data, failed);
      if failed { unreadable := unreadable + [index]; }
      whole.Update(data);
      if |data| != want || Sha256(data) != expected {
        mismatched := mismatched + [index];
        if first.None? {
          first := Some(ChunkMismatch(index, plan.body.writeOffset + done, want, expected, Sha256(data)));
        }
      }
      seen := seen + [data];
      done := done + want;
      index := index + 1;
      PausedMore(caller.closes, old(caller.pauses), caller.pauses);
      closed := caller.Yield();
      if closed { return RestoreVerification(false, NoDigest, done, mismatched, first, unreadable), true; }
    }
    v := RestoreVerification(
      mismatched == [] && whole.HexDigest() == record.body.imageSha256, whole.HexDigest(), done, mismatched, first,
      unreadable);
    BothEnd(v, record, image, disk, honest, target.readAnswers, from, index, seen, whole.absorbed);
  }

  /** What the reads of a range's chunks return, from the target's answer `from` on. */
  function ReadPieces(chunks: seq<Bytes>, answers: nat -> ReadAnswer, from: nat): seq<Bytes>
  {
    seq(|chunks|, i requires 0 <= i < |chunks| => ReadOf(answers(from + i), chunks[i]))
  }

  /** A piece that is not whole or does not have the recorded hash. */
  predicate Wrong(record: BackupRecord, i: nat, chunk: Bytes, piece: Bytes)
  {
    |piece| != |chunk| || Sha256(piece) != ExpectedHash(record, i)
  }

  /** The result of a read-back, told from what the disk held and how the target answered. */
  ghost predicate ReadBackIs(v: RestoreVerification, record: BackupRecord, range: Bytes, answers: nat -> ReadAnswer,
                             from: nat)
    requires record.body.chunkBytes > 0
  {
    var chunks := ChunksOf(range, record.body.chunkBytes);
    var pieces := ReadPieces(chunks, answers, from);
    && v.bytesVerified == |range| && v.actualSha256 == Sha256(Joined(pieces))
    && Ascends(v.mismatchedChunks) && Ascends(v.unreadableChunks)
    && (forall i: nat :: i in v.mismatchedChunks <==> i < |chunks| && Wrong(record, i, chunks[i], pieces[i]))
    && (forall i: nat :: i in v.unreadableChunks <==> i < |chunks| && answers(from + i) == FailsToRead)
    && (v.passed <==> v.mismatchedChunks == [] && v.actualSha256 == record.body.imageSha256)
  }

  function WrongOf(record: BackupRecord, chunks: seq<Bytes>, pieces: seq<Bytes>, n: nat): seq<nat>
    requires n <= |chunks| == |pieces|
  {
    if n == 0 then []
    else
      WrongOf(record, chunks, pieces, n - 1)
      + if Wrong(record, n - 1, chunks[n - 1], pieces[n - 1]) then [n - 1] else []
  }

  function FailedOf(answers: nat -> ReadAnswer, from: nat, n: nat): seq<nat>
  {
    if n == 0 then []
    else FailedOf(answers, from, n - 1) + if answers(from + n - 1) == FailsToRead then [n - 1] else []
  }

  /** The same of the first `index` chunks, `done` bytes of the range. */
  ghost predicate ReadExactly(record: BackupRecord, range: Bytes, answers: nat -> ReadAnswer, from: nat, index: nat,
                              done: nat, mismatched: seq<nat>, unreadable: seq<nat>, absorbed: Bytes)
  {
    && record.body.chunkBytes > 0 && done <= |range|
    && var chunks := ChunksOf(range, record.body.chunkBytes);
    && var pieces := ReadPieces(chunks, answers, from);
    && index <= |chunks| && chunks[index..] == ChunksOf(range[done..], record.body.chunkBytes)
    && absorbed == Joined(pieces[..index])
    && mismatched == WrongOf(record, chunks, pieces, index) && unreadable == FailedOf(answers, from, index)
  }

  lemma ExactlyNothing(record: BackupRecord, range: Bytes, answers: nat -> ReadAnswer, from: nat)
    requires record.body.chunkBytes > 0
    ensures ReadExactly(record, range, answers, from, 0, 0, [], [], [])
  {
    assert range[0..] == range;
    var chunks := ChunksOf(range, record.body.chunkBytes);
    assert chunks[0..] == chunks && ReadPieces(chunks, answers, from)[..0] == [];
  }

  lemma ExactlyOneMore(record: BackupRecord, range: Bytes, answers: nat -> ReadAnswer, from: nat, index: nat, done: nat,
                       mismatched: seq<nat>, unreadable: seq<nat>, absorbed: Bytes, data: Bytes, failed: bool)
    requires ReadExactly(record, range, answers, from, index, done, mismatched, unreadable, absorbed)
    requires done < |range| && (failed <==> answers(from + index) == FailsToRead)
    requires data == ReadOf(answers(from + index), range[done..done + Min(record.body.chunkBytes, |range| - done)])
    ensures var want := Min(record.body.chunkBytes, |range| - done);
            var wrong := |data| != want || Sha256(data) != ExpectedHash(record, index);
            ReadExactly(record, range, answers, from, index + 1, done + want,
                        if wrong then mismatched + [index] else mismatched,
                        if failed then unreadable + [index] else unreadable, absorbed + data)
  {
    hide ReadOf, ChunksOf, ExpectedHash;
    NextChunkOf(range, record.body.chunkBytes, index, done);
    var pieces := ReadPieces(ChunksOf(range, record.body.chunkBytes), answers, from);
    assert pieces[index] == data && pieces[..index + 1] == pieces[..index] + [data];
    JoinedSnoc(pieces[..index], data);
    assert mismatched + [] == mismatched && unreadable + [] == unreadable;
  }

  lemma NextChunkOf(range: Bytes, size: nat, index: nat, done: nat)
    requires size > 0 && done < |range|
    requires index <= |ChunksOf(range, size)| && ChunksOf(range, size)[index..] == ChunksOf(range[done..], size)
    ensures var want, chunks := Min(size, |range| - done), ChunksOf(range, size);
            && index < |chunks| && chunks[index] == range[done..done + want]
            && chunks[index + 1..] == ChunksOf(range[done + want..], size)
  {
    var want, rest, chunks := Min(size, |range| - done), range[done..], ChunksOf(range, size);
    assert rest[..want] == range[done..done + want] && rest[want..] == range[done + want..];
    assert chunks[index..] == [rest[..want]] + ChunksOf(rest[want..], size);
    assert chunks[index] == chunks[index..][0] && chunks[index + 1..] == chunks[index..][1..];
  }

  lemma {:induction false} WrongListed(record: BackupRecord, chunks: seq<Bytes>, pieces: seq<Bytes>, n: nat)
    requires n <= |chunks| == |pieces|
    ensures var list := WrongOf(record, chunks, pieces, n);
            && Ascends(list + [n])
            && forall i: nat :: i in list <==> i < n && Wrong(record, i, chunks[i], pieces[i])
  {
    hide Wrong, Ascends;
    if n == 0 {
      OneAscends(n);
    } else {
      var before := WrongOf(record, chunks, pieces, n - 1);
      WrongListed(record, chunks, pieces, n - 1);
      AscendsOn(before, n - 1);
      InAppended(before, n - 1);
      assert before + [] == before;
    }
  }

  lemma {:induction false} FailedListed(answers: nat -> ReadAnswer, from: nat, n: nat)
    ensures var list := FailedOf(answers, from, n);
            && Ascends(list + [n])
            && forall i: nat :: i in list <==> i < n && answers(from + i) == FailsToRead
  {
    hide Ascends;
    if n == 0 {
      OneAscends(n);
    } else {
      var before := FailedOf(answers, from, n - 1);
      FailedListed(answers, from, n - 1);
      AscendsOn(before, n - 1);
      InAppended(before, n - 1);
      assert before + [] == before;
    }
  }

  lemma OneAscends(n: nat)
    ensures Ascends([] + [n])
  {}

  lemma ExactlyAll(v: RestoreVerification, record: BackupRecord, range: Bytes, answers: nat -> ReadAnswer, from: nat,
                   index: nat, absorbed: Bytes)
    requires ReadExactly(record, range, answers, from, index, |range|, v.mismatchedChunks, v.unreadableChunks, absorbed)
    requires v.bytesVerified == |range| && v.actualSha256 == Sha256(absorbed)
    requires v.passed <==> v.mismatchedChunks == [] && v.actualSha256 == record.body.imageSha256
    ensures ReadBackIs(v, record, range, answers, from)
  {
    hide ReadOf, Wrong, Ascends;
    var chunks := ChunksOf(range, record.body.chunkBytes);
    var pieces := ReadPieces(chunks, answers, from);
    assert range[|range|..] == [];
    assert |chunks[index..]| == 0;
    assert pieces[..index] == pieces;
    WrongListed(record, chunks, pieces, index);
    FailedListed(answers, from, index);
    AscendsUpTo(v.mismatchedChunks, index);
    AscendsUpTo(v.unreadableChunks, index);
  }

  /** Both views of a read-back under way. */
  ghost predicate ReadBoth(record: BackupRecord, image: Bytes, disk: Bytes, honest: bool, answers: nat -> ReadAnswer,
                           from: nat, index: nat, done: nat, mismatched: seq<nat>, unreadable: seq<nat>,
                           first: Option<ChunkMismatch>, seen: seq<Bytes>, absorbed: Bytes)
  {
    && ReadSoFar(record, image, disk, honest, index, done, mismatched, unreadable, first, seen, absorbed)
    && |image| <= |disk|
    && ReadExactly(record, disk[..|image|], answers, from, index, done, mismatched, unreadable, absorbed)
  }

  lemma BothStart(record: BackupRecord, image: Bytes, disk: Bytes, honest: bool, answers: nat -> ReadAnswer, from: nat)
    requires VouchesFor(record, image) && |image| <= |disk|
    ensures ReadBoth(record, image, disk, honest, answers, from, 0, 0, [], [], None, [], [])
  {
    hide ReadSoFar, ReadExactly;
    ReadStarts(record, image, disk, honest);
    ExactlyNothing(record, disk[..|image|], answers, from);
  }

  lemma BothStep(record: BackupRecord, image: Bytes, disk: Bytes, honest: bool, answers: nat -> ReadAnswer, from: nat,
                 index: nat, done: nat, mismatched: seq<nat>, unreadable: seq<nat>, first: Option<ChunkMismatch>,
                 seen: seq<Bytes>, absorbed: Bytes, data: Bytes, failed: bool)
    requires ReadBoth(record, image, disk, honest, answers, from, index, done, mismatched, unreadable, first, seen,
                      absorbed)
    requires done < |image| && record.body.chunkBytes > 0
    requires var want := Min(record.body.chunkBytes, |image| - done);
             && done + want <= |disk| && data == ReadOf(answers(from + index), disk[done..done + want])
             && |data| <= want && data == disk[done..done + |data|]
             && (failed <==> answers(from + index) == FailsToRead) && (failed ==> data == [])
             && (honest ==> !failed && |data| == want)
    ensures var want, expected := Min(record.body.chunkBytes, |image| - done), ExpectedHash(record, index);
            var differs := |data| != want || Sha256(data) != expected;
            ReadBoth(record, image, disk, honest, answers, from, index + 1, done + want,
                     if differs then mismatched + [index] else mismatched,
                     if failed then unreadable + [index] else unreadable,
                     if differs && first.None? then Some(ChunkMismatch(index, done, want, expected, Sha256(data)))
                     else first,
                     seen + [data], absorbed + data)
  {
    hide ReadSoFar, ReadExactly, ReadOf, ExpectedHash;
    SliceOfPrefix(disk, |image|, done, done + Min(record.body.chunkBytes, |image| - done));
    ReadStep(record, image, disk, honest, index, done, mismatched, unreadable, first, seen, absorbed, data, failed);
    ExactlyOneMore(record, disk[..|image|], answers, from, index, done, mismatched, unreadable, absorbed, data, failed);
  }

  /** Everything was read. */
  lemma BothEnd(v: RestoreVerification, record: BackupRecord, image: Bytes, disk: Bytes, honest: bool,
                answers: nat -> ReadAnswer, from: nat, index: nat, seen: seq<Bytes>, absorbed: Bytes)
    requires ReadBoth(record, image, disk, honest, answers, from, index, |image|, v.mismatchedChunks,
                      v.unreadableChunks, v.firstMismatch, seen, absorbed)
    requires record.body.chunkBytes > 0 && v.bytesVerified == |image| <= |disk| && v.actualSha256 == Sha256(absorbed)
    requires v.passed <==> v.mismatchedChunks == [] && v.actualSha256 == record.body.imageSha256
    ensures Ascends(v.mismatchedChunks) && FirstTold(v.firstMismatch, v.mismatchedChunks, record, image, disk, honest)
    ensures v.mismatchedChunks == [] ==> disk[..|image|] == image && v.actualSha256 == Sha256(image)
    ensures forall i :: i in v.unreadableChunks ==> i in v.mismatchedChunks
    ensures honest ==>
              && v.unreadableChunks == []
              && v.actualSha256 == Sha256(disk[..|image|])
              && ListsMismatches(v.mismatchedChunks, ChunksOf(disk[..|image|], record.body.chunkBytes), record)
              && (Describes(record, image) ==> (v.passed <==> disk[..|image|] == image))
    ensures ReadBackIs(v, record, disk[..|image|], answers, from)
  {
    hide ReadSoFar, ReadExactly, ReadOf, ReadBackIs, FirstTold, Ascends, ListsMismatches, Describes, ChunksOf;
    ReadEnds(record, image, disk, honest, index, v.mismatchedChunks, v.unreadableChunks, v.firstMismatch, seen,
             absorbed);
    ExactlyAll(v, record, disk[..|image|], answers, from, index, absorbed);
  }

  /** What the read-back knows after `index` chunks, the first `done` bytes of the range. */
  ghost predicate ReadSoFar(record: BackupRecord, image: Bytes, disk: Bytes, honest: bool, index: nat, done: nat,
                            mismatched: seq<nat>, unreadable: seq<nat>, first: Option<ChunkMismatch>, seen: seq<Bytes>,
                            absorbed: Bytes)
  {
    var size := record.body.chunkBytes;
    && size > 0 && done <= |image| <= |disk| && index == |seen| && done == Min(index * size, |image|)
    && HashesFrom(record, image, index, done)
    && Ascends(mismatched + [index])
    && (mismatched == [] ==> MatchesSoFar(disk[..|image|], image, done, absorbed))
    && (forall i :: i in unreadable ==> i in mismatched)
    && FirstTold(first, mismatched, record, image, disk, honest)
    && (honest ==> unreadable == [] && ListsMismatches(mismatched, seen, record)
                   && ReadHonestly(disk[..|image|], size, done, seen, absorbed))
  }

  lemma ReadStarts(record: BackupRecord, image: Bytes, disk: Bytes, honest: bool)
    requires VouchesFor(record, image) && |image| <= |disk|
    ensures ReadSoFar(record, image, disk, honest, 0, 0, [], [], None, [], [])
  {
    HashesStart(record, image);
    NothingSeen(record);
    ReadingStarts(disk[..|image|], image, record.body.chunkBytes);
  }

  /** One more chunk was read. */
  lemma ReadStep(record: BackupRecord, image: Bytes, disk: Bytes, honest: bool, index: nat, done: nat,
                 mismatched: seq<nat>, unreadable: seq<nat>, first: Option<ChunkMismatch>, seen: seq<Bytes>,
                 absorbed: Bytes, data: Bytes, failed: bool)
    requires ReadSoFar(record, image, disk, honest, index, done, mismatched, unreadable, first, seen, absorbed)
    requires done < |image|
    requires var want := Min(record.body.chunkBytes, |image| - done);
             && |data| <= want && done + |data| <= |disk| && data == disk[done..done + |data|]
             && (failed ==> data == []) && (honest ==> !failed && |data| == want)
    ensures var want, expected := Min(record.body.chunkBytes, |image| - done), ExpectedHash(record, index);
            var differs := |data| != want || Sha256(data) != expected;
            && ReadSoFar(record, image, disk, honest, index + 1, done + want,
                         if differs then mismatched + [index] else mismatched,
                         if failed then unreadable + [index] else unreadable,
                         if differs && first.None? then Some(ChunkMismatch(index, done, want, expected, Sha256(data)))
                         else first,
                         seen + [data], absorbed + data)
  {
    hide HashesFrom, ListsMismatches, ReadHonestly, MatchesSoFar, FirstTold, ChunksOf, DescribesChunksOf, Ascends;
    var size, range := record.body.chunkBytes, disk[..|image|];
    var want, expected := Min(size, |image| - done), ExpectedHash(record, index);
    HashesStep(record, image, index, done);
    SliceOfPrefix(disk, |image|, done, done + |data|);
    if honest { ListMismatchesStep(mismatched, seen, data, record); }
    AscendsOn(mismatched, index);
    HashTellsLength(image, done, want, data, expected);
    NextStart(index, size, |image|);
    if honest { ReadHonestlyStep(range, size, done, seen, absorbed, data); }
    if |data| != want || Sha256(data) != expected {
      InAppended(mismatched, index);
      var told := if first.None? then Some(ChunkMismatch(index, done, want, expected, Sha256(data))) else first;
      NoneTold(first, mismatched, record, image, disk, honest);
      TellFirst(told, mismatched, record, image, disk, honest, index, done, data);
    } else {
      MatchesStep(range, image, done, absorbed, data);
    }
  }

  lemma NoneTold(first: Option<ChunkMismatch>, mismatched: seq<nat>, record: BackupRecord, image: Bytes, disk: Bytes,
                 honest: bool)
    requires FirstTold(first, mismatched, record, image, disk, honest)
    ensures first.None? <==> mismatched == []
  {}

  /** Everything was read. */
  lemma ReadEnds(record: BackupRecord, image: Bytes, disk: Bytes, honest: bool, index: nat, mismatched: seq<nat>,
                 unreadable: seq<nat>, first: Option<ChunkMismatch>, seen: seq<Bytes>, absorbed: Bytes)
    requires ReadSoFar(record, image, disk, honest, index, |image|, mismatched, unreadable, first, seen, absorbed)
    ensures forall i :: i in unreadable ==> i in mismatched
    ensures Ascends(mismatched) && FirstTold(first, mismatched, record, image, disk, honest)
    ensures mismatched == [] ==> absorbed == disk[..|image|] == image
    ensures honest ==>
              && unreadable == [] && absorbed == disk[..|image|]
              && ListsMismatches(mismatched, ChunksOf(disk[..|image|], record.body.chunkBytes), record)
              && (Describes(record, image) ==>
                    (mismatched == [] && Sha256(absorbed) == record.body.imageSha256 <==> disk[..|image|] == image))
  {
    hide HashesFrom, ListsMismatches, ReadHonestly, MatchesSoFar, FirstTold, ChunksOf, Describes, Ascends;
    AscendsUpTo(mismatched, index);
    ReadingEnds(disk[..|image|], image, record.body.chunkBytes, seen, absorbed);
    ReadBackExact(record, image, disk[..|image|], mismatched);
  }

  predicate Ascends(indices: seq<nat>)
  {
    forall i, j :: 0 <= i < j < |indices| ==> indices[i] < indices[j]
  }

  lemma AscendsOn(indices: seq<nat>, index: nat)
    requires Ascends(indices + [index])
    ensures Ascends(indices + [index + 1]) && Ascends(indices + [index] + [index + 1])
  {
    AscendsUpTo(indices, index);
  }

  lemma AscendsUpTo(indices: seq<nat>, index: nat)
    requires Ascends(indices + [index])
    ensures Ascends(indices) && forall i :: 0 <= i < |indices| ==> indices[i] < index
  {
    var all := indices + [index];
    assert all[|indices|] == index && forall i :: 0 <= i < |indices| ==> all[i] == indices[i];
  }

  /** What the first mismatch of a read-back must be: the first chunk listed, where that chunk
      lies, what the record expects there - the image's hash, if the record is of the image - and,
      on a target that reads back, what the disk holds. */
  ghost predicate FirstTold(first: Option<ChunkMismatch>, mismatched: seq<nat>, record: BackupRecord, image: Bytes,
                            disk: Bytes, honest: bool)
  {
    var chunkBytes := record.body.chunkBytes;
    && (first.None? <==> mismatched == [])
    && (first.Some? ==>
          var m := first.value;
          && m.index == mismatched[0] && chunkBytes > 0 && m.offset == m.index * chunkBytes
          && 0 <= m.offset && m.offset + m.length <= |image| <= |disk|
          && m.length == Min(chunkBytes, |image| - m.offset)
          && m.expected == ExpectedHash(record, m.index)
          && (DescribesChunksOf(record, image) ==> m.expected == Sha256(image[m.offset..m.offset + m.length]))
          && (honest ==> m.actual == Sha256(disk[m.offset..m.offset + m.length])))
  }

  lemma TellFirst(first: Option<ChunkMismatch>, mismatched: seq<nat>, record: BackupRecord, image: Bytes, disk: Bytes,
                  honest: bool, index: nat, done: nat, data: Bytes)
    requires record.body.chunkBytes > 0 && done == index * record.body.chunkBytes < |image| <= |disk|
    requires var want, expected := Min(record.body.chunkBytes, |image| - done), ExpectedHash(record, index);
             if mismatched == []
             then && first == Some(ChunkMismatch(index, done, want, expected, Sha256(data)))
                  && (DescribesChunksOf(record, image) ==> expected == Sha256(image[done..done + want]))
                  && (honest ==> data == disk[done..done + want])
             else FirstTold(first, mismatched, record, image, disk, honest)
    ensures FirstTold(first, mismatched + [index], record, image, disk, honest)
  {
    hide DescribesChunksOf, ExpectedHash;
    assert (mismatched + [index])[0] == if mismatched == [] then index else mismatched[0];
  }

  /** Each chunk starts a whole number of chunks from the beginning. */
  lemma NextStart(index: nat, chunkBytes: int, total: nat)
    requires chunkBytes > 0 && index * chunkBytes < total
    ensures (index + 1) * chunkBytes == index * chunkBytes + chunkBytes
  {}

  lemma SliceOfPrefix(s: Bytes, n: nat, lo: nat, hi: nat)
    requires lo <= hi <= n <= |s|
    ensures s[..n][lo..hi] == s[lo..hi]
  {}

  /** A chunk that cannot be read counts as no bytes. */
  method ReadChunk(target: BlockTarget, offset: nat, want: nat) returns (data: Bytes, failed: bool)
    requires offset + want <= target.disk.Length
    modifies target`readsDone
    ensures target.readsDone == old(target.readsDone) + 1
    ensures data == ReadOf(target.readAnswers(old(target.readsDone)), target.disk[..][offset..offset + want])
    ensures failed <==> target.readAnswers(old(target.readsDone)) == FailsToRead
    ensures |data| <= want && data == target.disk[..][offset..offset + |data|]
    ensures failed ==> data == []
    ensures target.ReadsBackEverything() ==> !failed && |data| == want
  {
    var r := target.ReadAt(offset, want);
    return if r.Ok? then r.value else [], r.Err?;
  }

  lemma NothingSeen(record: BackupRecord)
    ensures ListsMismatches([], [], record)
  {}

  /** Every read so far returned what was asked for: together, the range up to `done`. */
  ghost predicate ReadHonestly(range: Bytes, size: int, done: nat, seen: seq<Bytes>, absorbed: Bytes)
  {
    && size > 0 && done <= |range|
    && absorbed == range[..done]
    && seen + ChunksOf(range[done..], size) == ChunksOf(range, size)
  }

  ghost predicate MatchesSoFar(range: Bytes, image: Bytes, done: nat, absorbed: Bytes)
  {
    && done <= |range| == |image|
    && range[..done] == image[..done] == absorbed
  }

  lemma ReadingStarts(range: Bytes, image: Bytes, size: int)
    requires size > 0 && |range| == |image|
    ensures ReadHonestly(range, size, 0, [], []) && MatchesSoFar(range, image, 0, [])
  {
    assert range[0..] == range;
  }

  lemma ReadHonestlyStep(range: Bytes, size: int, done: nat, seen: seq<Bytes>, absorbed: Bytes, data: Bytes)
    requires size > 0 && done < |range| && |data| == Min(size, |range| - done)
    requires data == range[done..done + |data|]
    ensures ReadHonestly(range, size, done, seen, absorbed) ==>
              ReadHonestly(range, size, done + |data|, seen + [data], absorbed + data)
  {
    var rest, want := range[done..], |data|;
    assert rest[..want] == range[done..done + want] && rest[want..] == range[done + want..];
    assert ChunksOf(rest, size) == [rest[..want]] + ChunksOf(rest[want..], size);
    assert (seen + [rest[..want]]) + ChunksOf(rest[want..], size) == seen + ChunksOf(rest, size);
    assert range[..done] + data == range[..done + want];
  }

  lemma MatchesStep(range: Bytes, image: Bytes, done: nat, absorbed: Bytes, data: Bytes)
    requires done + |data| <= |range| == |image|
    requires data == range[done..done + |data|] == image[done..done + |data|]
    ensures MatchesSoFar(range, image, done, absorbed) ==>
              MatchesSoFar(range, image, done + |data|, absorbed + data)
  {
    assert range[..done] + data == range[..done + |data|];
    assert image[..done] + data == image[..done + |data|];
  }

  lemma ReadingEnds(range: Bytes, image: Bytes, size: int, seen: seq<Bytes>, absorbed: Bytes)
    requires |range| == |image|
    ensures ReadHonestly(range, size, |range|, seen, absorbed) ==>
              absorbed == range && seen == ChunksOf(range, size)
    ensures MatchesSoFar(range, image, |range|, absorbed) ==> absorbed == range == image
  {
    assert range[|range|..] == [] && range[..|range|] == range && image[..|image|] == image;
    if ReadHonestly(range, size, |range|, seen, absorbed) {
      assert ChunksOf(range[|range|..], size) == [];
    }
  }

  lemma ReadBackExact(record: BackupRecord, image: Bytes, range: Bytes, mismatched: seq<nat>)
    requires |range| == |image|
    ensures record.body.chunkBytes > 0 && ListsMismatches(mismatched, ChunksOf(range, record.body.chunkBytes), record)
              && Describes(record, image) ==>
              (mismatched == [] && Sha256(range) == record.body.imageSha256 <==> range == image)
  {
    if record.body.chunkBytes > 0 && ListsMismatches(mismatched, ChunksOf(range, record.body.chunkBytes), record)
       && Describes(record, image) {
      VerificationExact(record, image, range, mismatched);
    }
  }

  lemma InAppended(xs: seq<nat>, x: nat)
    ensures x in xs + [x] && forall i :: i in xs ==> i in xs + [x]
  {
    assert (xs + [x])[|xs|] == x;
  }

  lemma HashTellsLength(image: Bytes, done: nat, want: nat, data: Bytes, expected: Digest)
    requires done + want <= |image| && Vouches(expected, image[done..done + want])
    ensures Sha256(data) == expected && |data| == want ==> data == image[done..done + want]
  {}

  // ------------------------------------------------------------------- outcomes

  datatype Verdict = RestoredVerified | RestoredVerifyFailed | Incomplete

  datatype RestoreResult = RestoreResult(
    verdict: Verdict, bytesPlanned: int, bytesWritten: nat, unwritable: seq<Refusal>, unwritableOmitted: nat,
    verification: Option<RestoreVerification>)

  datatype Outcome =
    | NotStarted
    | Finished(result: RestoreResult)
    | CancelledIn(phase: Phase)
    | AbortedBy(why: AbortReason)

  method RecordStop(ledger: Ledger, tally: Tally, cancelled: bool)
    modifies ledger
    ensures ledger.entries == old(ledger.entries) + [
              var stop := StopOf(tally.phase, tally.written, tally.unwritable, tally.start);
              if tally.phase == Verify then VerifyCancelled(stop)
              else if cancelled then Cancelled(stop)
              else Aborted(stop)]
  {
    var stop := StopOf(tally.phase, tally.written, tally.unwritable, tally.start);
    ledger.Append(if tally.phase == Verify then VerifyCancelled(stop)
                  else if cancelled then Cancelled(stop)
                  else Aborted(stop));
  }

  /** The entries after the checkpoints: how the run ended, and nothing after it but the
      read-back, which only a complete run has. */
  function LastEntries(outcome: Outcome, trail: Trail, start: int): seq<Entry>
  {
    var complete := Complete(trail.written, trail.unwritable, trail.log.spans, trail.log.omitted);
    match outcome
    case NotStarted => []
    case Finished(result) =>
      if result.verification.Some? then [complete, ReadBack(result.verification.value.passed)] else [complete]
    case CancelledIn(Restore) => [Cancelled(StopOf(Restore, trail.written, trail.unwritable, start))]
    case CancelledIn(Verify) => [complete, VerifyCancelled(StopOf(Verify, trail.written, trail.unwritable, start))]
    case AbortedBy(_) => [Aborted(StopOf(Restore, trail.written, trail.unwritable, start))]
  }

  /** What a started run logged, read off the ledger: the start, checkpoints, and then, by how it
      ended, what was complete and what the read-back found, or where it stopped. */
  ghost predicate LogTells(before: seq<Entry>, entries: seq<Entry>, outcome: Outcome, trail: Trail)
  {
    var n, first := |entries|, |before| + 1;
    var end := trail.written + trail.unwritable;
    && n > first && entries[..|before|] == before && entries[|before|] == Start
    && match outcome
       case NotStarted => false
       case Finished(r) =>
         if r.verification.Some?
         then && n - 2 >= first && entries[n - 1] == ReadBack(r.verification.value.passed)
              && entries[n - 2] == Complete(r.bytesWritten, trail.unwritable, r.unwritable, r.unwritableOmitted)
              && (forall i :: first <= i < n - 2 ==> entries[i].Checkpoint?)
         else && entries[n - 1] == Complete(r.bytesWritten, trail.unwritable, r.unwritable, r.unwritableOmitted)
              && (forall i :: first <= i < n - 1 ==> entries[i].Checkpoint?)
       case CancelledIn(Restore) =>
         && entries[n - 1] == Cancelled(StopRecord(Restore, trail.written, trail.unwritable, 0, end,
                                                   StopNoteOf(Restore, trail.written, trail.unwritable, 0)))
         && (forall i :: first <= i < n - 1 ==> entries[i].Checkpoint?)
       case CancelledIn(Verify) =>
         && n - 2 >= first
         && entries[n - 1] == VerifyCancelled(StopRecord(Verify, trail.written, trail.unwritable, 0, end,
                                                         StopNoteOf(Verify, trail.written, trail.unwritable, 0)))
         && entries[n - 2] == Complete(trail.written, trail.unwritable, trail.log.spans, trail.log.omitted)
         && (forall i :: first <= i < n - 2 ==> entries[i].Checkpoint?)
       case AbortedBy(_) =>
         && entries[n - 1] == Aborted(StopRecord(Restore, trail.written, trail.unwritable, 0, end,
                                                 StopNoteOf(Restore, trail.written, trail.unwritable, 0)))
         && (forall i :: first <= i < n - 1 ==> entries[i].Checkpoint?)
  }

  /** Every checkpoint is true of the disk as it was then and as it is now, each was due, and none
      is missing at the end of a chunk. */
  ghost predicate CheckpointsTell(trail: Trail, every: nat)
  {
    var n := trail.written + trail.unwritable;
    && Checkpoints(trail.checkpoints, 0, n, BadAt(trail.refusals), every)
    && (trail.stop.Completed? ==> NoneMissing(trail.checkpoints, 0, n, every))
  }

  /** The write was given up exactly when more than `maxRun` offsets in a row were refused; then
      the last of what was accounted for are. */
  ghost predicate GivenUpTold(trail: Trail, maxRun: nat)
  {
    var end := trail.written + trail.unwritable;
    && (trail.stop.RefusedTooMuch? <==> !RunsBounded(BadAt(trail.refusals), maxRun))
    && (trail.stop.RefusedTooMuch? ==>
          && maxRun < trail.stop.run == trail.run <= end
          && forall p :: end - trail.run <= p < end ==> p in BadAt(trail.refusals))
  }

  lemma LogRead(before: seq<Entry>, outcome: Outcome, trail: Trail)
    requires !outcome.NotStarted? && forall i :: 0 <= i < |trail.checkpoints| ==> trail.checkpoints[i].Checkpoint?
    requires outcome.Finished? ==>
               && outcome.result.bytesWritten == trail.written
               && BadLog(outcome.result.unwritable, outcome.result.unwritableOmitted) == trail.log
    ensures LogTells(before, before + [Start] + trail.checkpoints + LastEntries(outcome, trail, 0), outcome, trail)
  {
    var entries := before + [Start] + trail.checkpoints + LastEntries(outcome, trail, 0);
    var first, last := |before| + 1, |before| + 1 + |trail.checkpoints|;
    assert forall i :: first <= i < last ==> entries[i] == trail.checkpoints[i - first];
    assert forall i :: last <= i < |entries| ==> entries[i] == LastEntries(outcome, trail, 0)[i - last];
    assert entries[..|before|] == before;
  }

  lemma Tells(trail: Trail, was: Origin, disk: Bytes, handed: seq<Handed>, image: Bytes, maxSpans: nat, maxRun: nat,
              sector: nat, every: nat)
    requires TrueAccount(trail, was, disk, handed, 0, image, maxSpans, maxRun, sector)
    requires Checkpoints(trail.checkpoints, 0, trail.written + trail.unwritable, BadAt(trail.refusals), every)
    requires trail.stop.Completed? ==> NoneMissing(trail.checkpoints, 0, trail.written + trail.unwritable, every)
    ensures CheckpointsTell(trail, every) && GivenUpTold(trail, maxRun)
    ensures forall i :: 0 <= i < |trail.checkpoints| ==> trail.checkpoints[i].Checkpoint?
  {
    hide TrueAccount, BadAt, RunsBounded, NoneMissing;
    GivenUpIff(trail, was, disk, handed, 0, image, maxSpans, maxRun, sector);
    forall i | 0 <= i < |trail.checkpoints| ensures trail.checkpoints[i].Checkpoint? {
      assert CheckpointOk(trail.checkpoints[i], 0, trail.written + trail.unwritable, BadAt(trail.refusals),
                          DueAt(i, every));
    }
  }

  // ----------------------------------------------------------------------- gate

  /** The engine's own refusals, in the groups it checks them. */
  function EngineReasons(record: BackupRecord, plan: RestorePlan, size: nat, sector: int, statSize: Option<nat>)
    : seq<GateReason>
  {
    if ExecutableReasons(plan) != [] then ExecutableReasons(plan)
    else if plan.body.backupRecordDigest != record.recordDigest then [OtherRecord]
    else
      (if size != plan.body.target.sizeBytes then [SizeDiffers(plan.body.target.sizeBytes, size)] else [])
      + (if sector <= 0 || plan.body.writeLength % sector != 0 || plan.body.chunkBytes % sector != 0
         then [NotWholeSectors] else [])
      + (if statSize.None? then [ImageUnreadable]
         else if statSize.value != record.body.imageSizeBytes then [ImageSizeChanged]
         else [])
  }

  /** When a run may start. */
  predicate Admits(record: BackupRecord, plan: RestorePlan, size: nat, sector: int, statSize: Option<nat>)
  {
    && Intact(record)
    && plan.Executable() && Sealed(plan)
    && plan.body.backupRecordDigest == record.recordDigest
    && size == plan.body.target.sizeBytes
    && sector > 0 && plan.body.writeLength % sector == 0 && plan.body.chunkBytes % sector == 0
    && statSize.Some? && statSize.value == record.body.imageSizeBytes
  }

  lemma AdmitsIff(record: BackupRecord, plan: RestorePlan, size: nat, sector: int, statSize: Option<nat>)
    ensures Admits(record, plan, size, sector, statSize)
       <==> Intact(record) && EngineReasons(record, plan, size, sector, statSize) == []
  {}

  /** A plan that was made for some intact record and is admitted for this one was made for it. */
  lemma AdmittedPlanIsFor(record: BackupRecord, plan: RestorePlan, planned: BackupRecord, size: nat, sector: int,
                          statSize: Option<nat>)
    requires Admits(record, plan, size, sector, statSize)
    requires Sealed(plan) ==> Intact(planned) && PlanFor(plan, planned)
    ensures PlanFor(plan, record) && plan.Executable() && Intact(record)
    ensures size == plan.body.target.sizeBytes && sector > 0 && record.body.imageSizeBytes >= 0
  {}

  // -------------------------------------------------------------------- the run

  /** How writing `image` goes, told from the target's answers from the `from`-th on. */
  function ForecastOf(record: BackupRecord, target: BlockTarget, maxRun: nat, from: nat, image: Bytes): Course
  {
    Forecast(SettingOf(target, maxRun), from, |image|,
             if record.body.chunkBytes > 0 then record.body.chunkBytes else 0)
  }

  /** Restore an image, then compare what the target holds with it. `image` is what the record
      vouches for: no other bytes match its chunk hashes, though not all of those need to be hashes
      of anything. The file may hold something else by the time it is read. `planned` is the record
      the plan was made for, which need not be this one; an altered record or plan need not be of
      anything. */
  method ExecuteRestore(record: BackupRecord, plan: RestorePlan, target: BlockTarget, source: ImageSource,
                        caller: Caller, ledger: Ledger, verify: bool, checkpointBytes: nat, maxRun: nat,
                        maxSpans: nat, ghost image: Bytes, ghost planned: BackupRecord)
    returns (outcome: Outcome, ghost trail: Trail)
    requires Intact(record) ==> record.body.chunkBytes > 0
    requires Intact(record) && record.body.imageSizeBytes >= 0 ==> VouchesFor(record, image)
    requires Sealed(plan) ==> Intact(planned) && PlanFor(plan, planned)
    modifies target, target.disk, source, caller, ledger
    ensures outcome.NotStarted?
       <==> !Admits(record, plan, target.disk.Length, target.logicalSector, source.statSize)
    ensures outcome.NotStarted? ==>
              && target.disk[..] == old(target.disk[..])
              && target.handed == old(target.handed)
              && ledger.entries == old(ledger.entries)
    // What it did to the target, and what it logged.
    ensures !outcome.NotStarted? ==>
              && TrueAccount(trail, old(Origin(target.disk[..], {}, target.handed)), target.disk[..], target.handed,
                             0, image, maxSpans, maxRun, SectorOf(target))
              && Torn(trail.stop) < SectorOf(target)
              && ledger.entries == old(ledger.entries) + [Start] + trail.checkpoints + LastEntries(outcome, trail, 0)
              && LogTells(old(ledger.entries), ledger.entries, outcome, trail)
              && CheckpointsTell(trail, checkpointBytes) && GivenUpTold(trail, maxRun)
    // How it went, told from the target's answers.
    ensures !outcome.NotStarted? ==>
              && Foretold(trail, target.writes, SettingOf(target, maxRun), old(target.writes), |image|,
                          record.body.chunkBytes)
              && trail.chunks <= |record.body.chunkHashes|
              && (outcome.AbortedBy? && outcome.why.WriteStopped? <==> !trail.stop.Completed?)
              && (!trail.stop.Completed? ==> outcome.why.stop == trail.stop)
              && (!trail.stop.Completed? || trail.written + trail.unwritable == |image| ==>
                    EndedAs(trail.stop, Standing(target.writes, trail.written, trail.unwritable, trail.run)) ==
                    ForecastOf(record, target, maxRun, old(target.writes), image))
    // Which stop notes are true.
    ensures outcome == CancelledIn(Restore) || outcome.AbortedBy? ==>
              (NoteHolds(Restore, trail, old(Origin(target.disk[..], {}, target.handed)), target.disk[..],
                         target.handed, image)
               <==> trail.stop.Completed?
                    || NoteTrue(ForecastOf(record, target, maxRun, old(target.writes), image)))
    ensures outcome == CancelledIn(Verify) ==>
              (NoteHolds(Verify, trail, old(Origin(target.disk[..], {}, target.handed)), target.disk[..],
                         target.handed, image)
               <==> ForecastOf(record, target, maxRun, old(target.writes), image).s.refused == 0)
    // When its caller and its source let it go on.
    ensures !outcome.NotStarted? ==>
              && Paused(caller.closes, old(caller.pauses), caller.pauses, outcome.CancelledIn?)
              && (outcome == CancelledIn(Restore) ==> caller.pauses == old(caller.pauses) + 1 + trail.chunks)
              && (outcome == CancelledIn(Verify) || (outcome.Finished? && verify) ==>
                    caller.pauses > old(caller.pauses) + 1 + trail.chunks)
    ensures source.Unchanging() && source.content == image && old(source.position) == 0
              && Describes(record, image) && outcome.AbortedBy? && !outcome.why.WriteStopped? ==>
              outcome.why == FlushFailed && target.flushFails && trail.written + trail.unwritable == |image|
    ensures Admits(record, plan, target.disk.Length, target.logicalSector, source.statSize)
              && caller.Patient() && source.Unchanging() && source.content == image && old(source.position) == 0
              && Describes(record, image) ==>
              var f := ForecastOf(record, target, maxRun, old(target.writes), image);
              && (outcome.AbortedBy? <==> !f.Going? || target.flushFails)
              && (outcome.AbortedBy? ==>
                    (NoteHolds(Restore, trail, old(Origin(target.disk[..], {}, target.handed)), target.disk[..],
                               target.handed, image)
                     <==> NoteTrue(f)))
    // The verdict.
    ensures outcome.Finished? || outcome == CancelledIn(Verify) ==>
              trail.written + trail.unwritable == |image|
    ensures outcome.Finished? ==>
              var r := outcome.result;
              && r.bytesPlanned == |image| && r.bytesWritten == trail.written
              && BadLog(r.unwritable, r.unwritableOmitted) == trail.log
              && (r.verification.Some? <==> verify)
              && (r.verdict == Incomplete <==> trail.unwritable > 0)
              && (r.verdict == RestoredVerified <==>
                  trail.unwritable == 0 && verify && r.verification.value.passed)
    ensures outcome.Finished? && verify ==>
              && outcome.result.verification.Some? && |image| <= target.disk.Length
              && ReadBackIs(outcome.result.verification.value, record, target.disk[..|image|], target.readAnswers,
                            old(target.readsDone))
    ensures outcome.Finished? && outcome.result.verdict == RestoredVerified ==>
              target.disk[..] == image + old(target.disk[..])[|image|..]
    ensures Admits(record, plan, target.disk.Length, target.logicalSector, source.statSize)
              && target.Cooperative() && target.ReadsBackEverything() && caller.Patient() && verify
              && source.Unchanging() && source.content == image && old(source.position) == 0
              && Describes(record, image) ==>
              outcome.Finished? && outcome.result.verdict == RestoredVerified
    ensures target.RefusesEverything() && !outcome.NotStarted? ==>
              && target.disk[..] == old(target.disk[..])
              && trail.written == 0
              && trail.unwritable <= maxRun + SectorOf(target)
  {
    hide VouchesFor, Describes, TrueAccount, NotBlocked, RangeState, Paused, ForecastOf, NoteHolds, NoteTrue,
         BadAt, Checkpoints, Foretold, Tally.Valid, EngineReasons, Intact, Sealed, StopOf, EndedAs, Admits, PlanFor,
         LastEntries, RestorePlan.Executable, LogTells, ReadBackIs, NoneMissing,
         CheckpointsTell, GivenUpTold;
    trail := Trail(0, 0, 0, [], BadLog([], 0), Completed, 0, []);
    AdmitsIff(record, plan, target.disk.Length, target.logicalSector, source.statSize);
    if !Intact(record) { return NotStarted, trail; }
    if EngineReasons(record, plan, target.disk.Length, target.logicalSector, source.statSize) != [] {
      return NotStarted, trail;
    }
    AdmittedPlanIsFor(record, plan, planned, target.disk.Length, target.logicalSector, source.statSize);
    PlanFits(plan, record, image);
    ghost var was, from := Origin(target.disk[..], {}, target.handed), target.writes;
    ledger.Append(Start);
    var tally := new Tally(plan.body.writeOffset, maxRun, maxSpans);
    tally.NothingRefused();
    var end;
    ghost var checkpoints, chunks;
    end, checkpoints, chunks := WriteRange(record, plan, target, source, caller, ledger, tally, checkpointBytes, image);
    trail := TrailOf(tally, StopAt(end), chunks, checkpoints);
    AccountOf(record, target, tally, image, was, from, trail);
    Tells(trail, was, target.disk[..], target.handed, image, maxSpans, maxRun, SectorOf(target), checkpointBytes);
    Bound(record, target, trail, was, from, image, maxSpans, maxRun);
    if end.Written? {
      AllLanded(trail, was, target.disk[..], target.handed, image, maxSpans, maxRun, SectorOf(target));
    }
    ghost var paused := caller.pauses;
    outcome := EndRun(end, record, plan, target, caller, ledger, tally, verify, image, trail);
    LogRead(old(ledger.entries), outcome, trail);
    PausedOn(caller.closes, old(caller.pauses), paused, caller.pauses, end == Closed, outcome.CancelledIn?);
    PatientNeverCloses(caller.closes, old(caller.pauses), caller.pauses, outcome.CancelledIn?);
  }

  ghost function TrailOf(tally: Tally, stop: WriteStop, chunks: nat, checkpoints: seq<Entry>): Trail
    reads tally
  {
    Trail(tally.written, tally.unwritable, tally.run, tally.refusals, BadLog(tally.spans, tally.unwritableOmitted),
          stop, chunks, checkpoints)
  }

  lemma AccountOf(record: BackupRecord, target: BlockTarget, tally: Tally, image: Bytes, was: Origin, from: nat,
                  trail: Trail)
    requires RangeState(record, target, tally, image, was, from, trail.chunks, trail.stop)
    requires trail == TrailOf(tally, trail.stop, trail.chunks, trail.checkpoints)
    ensures TrueAccount(trail, was, target.disk[..], target.handed, tally.start, image, tally.maxSpans,
                        tally.maxRun, SectorOf(target))
    ensures Torn(trail.stop) < SectorOf(target) && trail.written + trail.unwritable <= |image|
    ensures tally.phase == Restore
    ensures trail.chunks <= |record.body.chunkHashes| && record.body.chunkBytes > 0
    ensures Foretold(trail, target.writes, SettingOf(target, tally.maxRun), from, |image|, record.body.chunkBytes)
    ensures !trail.stop.Completed? || trail.written + trail.unwritable == |image| ==> trail.chunks <= |image|
  {
    hide Progress, RunsBounded, Attempt, TrueAccount;
    Accounted(tally, trail, was, target.disk[..], target.handed, image, SectorOf(target));
  }

  /** What an account of a run is bound to by the target's answers. */
  lemma Bound(record: BackupRecord, target: BlockTarget, trail: Trail, was: Origin, from: nat, image: Bytes,
              maxSpans: nat, maxRun: nat)
    requires TrueAccount(trail, was, target.disk[..], target.handed, 0, image, maxSpans, maxRun, SectorOf(target))
    requires record.body.chunkBytes > 0
    requires Foretold(trail, target.writes, SettingOf(target, maxRun), from, |image|, record.body.chunkBytes)
    requires !trail.stop.Completed? || trail.written + trail.unwritable == |image| ==> trail.chunks <= |image|
    ensures var f := ForecastOf(record, target, maxRun, from, image);
            && (!trail.stop.Completed? || trail.written + trail.unwritable == |image| ==>
                  f == EndedAs(trail.stop, Standing(target.writes, trail.written, trail.unwritable, trail.run)))
            && (NoteHolds(Restore, trail, was, target.disk[..], target.handed, image)
                <==> trail.stop.Completed? || NoteTrue(f))
            && (trail.written + trail.unwritable == |image| && trail.stop.Completed? ==>
                  f.Going? && NoteTrue(f)
                  && (NoteHolds(Verify, trail, was, target.disk[..], target.handed, image) <==> f.s.refused == 0))
            && (!trail.stop.Completed? ==> !f.Going?)
    ensures target.Cooperative() ==> trail.stop.Completed? && trail.unwritable == 0
    ensures target.RefusesEverything() ==>
              trail.written == 0 && target.disk[..] == was.disk && trail.unwritable <= maxRun + SectorOf(target)
  {
    hide TrueAccount, NoteClaim, Attempt, BadAt;
    var t, chunkBytes := SettingOf(target, maxRun), record.body.chunkBytes;
    if !trail.stop.Completed? || trail.written + trail.unwritable == |image| {
      AttemptSettles(t, from, |image|, chunkBytes, trail.chunks, |image|);
    }
    StopNoteOfWrite(trail, was, target.disk[..], target.handed, 0, image, maxSpans, maxRun, SectorOf(target),
                    target.writes);
    if trail.written + trail.unwritable == |image| {
      StopNoteOfReadBack(trail, was, target.disk[..], target.handed, 0, image, maxSpans, maxRun, SectorOf(target));
    }
    if target.Cooperative() { WillingGoesOn(t, from, |image|, chunkBytes, trail.chunks); }
    if target.RefusesEverything() { UnwillingIsNotWritten(t, from, |image|, chunkBytes, trail.chunks); }
    NothingTaken(trail, was, target.disk[..], target.handed, 0, image, maxSpans, maxRun, SectorOf(target));
  }

  lemma PatientNeverCloses(closes: nat -> bool, from: nat, to: nat, closed: bool)
    requires Paused(closes, from, to, closed)
    ensures (forall k :: !closes(k)) ==> !closed
  {}

  /** Yields after yields: those that come after one that closed the run do not happen. */
  lemma PausedOn(closes: nat -> bool, from: nat, mid: nat, to: nat, first: bool, closed: bool)
    requires Paused(closes, from, mid, first)
    requires if mid == to then closed == first else !first && Paused(closes, mid, to, closed)
    ensures Paused(closes, from, to, closed)
  {}

  /** The part of a run after its last byte was written: the read-back and the verdict. */
  method CompleteRun(record: BackupRecord, plan: RestorePlan, target: BlockTarget, caller: Caller, ledger: Ledger,
                     tally: Tally, verify: bool, ghost image: Bytes, ghost trail: Trail)
    returns (outcome: Outcome)
    requires VouchesFor(record, image) && PlanFor(plan, record)
    requires 0 < |image| <= target.disk.Length && record.body.chunkBytes > 0
    requires tally.phase == Restore && tally.start == plan.body.writeOffset
    requires trail.written == tally.written && trail.unwritable == tally.unwritable
    requires trail.log == BadLog(tally.spans, tally.unwritableOmitted)
    modifies target`readsDone, caller, ledger, tally`phase
    ensures outcome.Finished? || outcome == CancelledIn(Verify)
    ensures ledger.entries == old(ledger.entries) + LastEntries(outcome, trail, plan.body.writeOffset)
    ensures var complete := Complete(tally.written, tally.unwritable, tally.spans, tally.unwritableOmitted);
            match outcome
            case Finished(r) =>
              ledger.entries == old(ledger.entries) +
              (if verify then [complete, ReadBack(r.verification.Some? && r.verification.value.passed)] else [complete])
            case _ =>
              ledger.entries == old(ledger.entries) +
              [complete, VerifyCancelled(StopRecord(Verify, tally.written, tally.unwritable, tally.start, tally.End(),
                                                    WrittenButUnverified))]
    ensures outcome.Finished? && verify ==>
              && outcome.result.verification.Some?
              && ReadBackIs(outcome.result.verification.value, record, target.disk[..|image|], target.readAnswers,
                            old(target.readsDone))
    ensures if caller.pauses == old(caller.pauses) then !outcome.CancelledIn?
            else Paused(caller.closes, old(caller.pauses), caller.pauses, outcome.CancelledIn?)
    ensures outcome.CancelledIn? || verify ==> caller.pauses > old(caller.pauses)
    ensures outcome.Finished? ==>
              var r := outcome.result;
              && r.bytesPlanned == |image| && r.bytesWritten == trail.written
              && BadLog(r.unwritable, r.unwritableOmitted) == trail.log
              && (r.verification.Some? <==> verify)
              && (r.verdict == Incomplete <==> trail.unwritable > 0)
              && (r.verdict == RestoredVerified <==>
                  trail.unwritable == 0 && verify && r.verification.value.passed)
    ensures target.ReadsBackEverything() && !outcome.CancelledIn? && verify && tally.unwritable == 0
              && Describes(record, image) && target.disk[..|image|] == image ==>
              outcome.Finished? && outcome.result.verdict == RestoredVerified
  {
    hide VouchesFor, Describes, ListsMismatches, NotBlocked, Paused, FirstTold, Ascends, ReadBackIs;
    SizesVouched(record, image);
    ledger.Append(Complete(tally.written, tally.unwritable, tally.spans, tally.unwritableOmitted));
    var verification: Option<RestoreVerification> := None;
    if verify {
      tally.phase := Verify;
      var v, closed := VerifyRestored(record, plan, target, caller, image);
      if closed {
        RecordStop(ledger, tally, true);
        return CancelledIn(Verify);
      }
      verification := Some(v);
      ledger.Append(ReadBack(v.passed));
    }
    var verdict := if tally.unwritable > 0 then Incomplete
                   else if verification.Some? && verification.value.passed then RestoredVerified
                   else RestoredVerifyFailed;
    outcome := Finished(RestoreResult(verdict, plan.body.writeLength, tally.written, tally.spans,
                                      tally.unwritableOmitted, verification));
  }

  /** What follows the writing, however it ended: the stop is logged, or the run completed. */
  method EndRun(end: RangeEnd, record: BackupRecord, plan: RestorePlan, target: BlockTarget, caller: Caller,
                ledger: Ledger, tally: Tally, verify: bool, ghost image: Bytes, ghost trail: Trail)
    returns (outcome: Outcome)
    requires VouchesFor(record, image) && PlanFor(plan, record)
    requires 0 < |image| <= target.disk.Length && record.body.chunkBytes > 0
    requires tally.phase == Restore && tally.start == plan.body.writeOffset
    requires trail.written == tally.written && trail.unwritable == tally.unwritable
    requires trail.log == BadLog(tally.spans, tally.unwritableOmitted)
    modifies target`readsDone, caller, ledger, tally`phase
    ensures !outcome.NotStarted?
    ensures ledger.entries == old(ledger.entries) + LastEntries(outcome, trail, plan.body.writeOffset)
    ensures outcome.Finished? && verify ==>
              && outcome.result.verification.Some?
              && ReadBackIs(outcome.result.verification.value, record, target.disk[..|image|], target.readAnswers,
                            old(target.readsDone))
    ensures outcome == CancelledIn(Restore) <==> end == Closed
    ensures outcome.AbortedBy? <==> end.Raised?
    ensures outcome.AbortedBy? ==> outcome.why == end.why
    ensures if caller.pauses == old(caller.pauses) then outcome.CancelledIn? == (end == Closed)
            else end.Written? && Paused(caller.closes, old(caller.pauses), caller.pauses, outcome.CancelledIn?)
    ensures outcome == CancelledIn(Verify) || (outcome.Finished? && verify) ==> caller.pauses > old(caller.pauses)
    ensures outcome == CancelledIn(Restore) ==> caller.pauses == old(caller.pauses)
    ensures outcome.Finished? ==>
              var r := outcome.result;
              && r.bytesPlanned == |image| && r.bytesWritten == trail.written
              && BadLog(r.unwritable, r.unwritableOmitted) == trail.log
              && (r.verification.Some? <==> verify)
              && (r.verdict == Incomplete <==> trail.unwritable > 0)
              && (r.verdict == RestoredVerified <==>
                  trail.unwritable == 0 && verify && r.verification.value.passed)
    ensures target.ReadsBackEverything() && outcome.Finished? && verify && tally.unwritable == 0
              && Describes(record, image) && target.disk[..|image|] == image ==>
              outcome.result.verdict == RestoredVerified
  {
    hide VouchesFor, Describes, PlanFor, Paused, NotBlocked, ReadBackIs;
    match end {
      case Closed =>
        RecordStop(ledger, tally, true);
        outcome := CancelledIn(Restore);
      case Raised(why) =>
        RecordStop(ledger, tally, false);
        outcome := AbortedBy(why);
      case Written =>
        outcome := CompleteRun(record, plan, target, caller, ledger, tally, verify, image, trail);
    }
  }

  lemma PlanFits(plan: RestorePlan, record: BackupRecord, image: Bytes)
    requires VouchesFor(record, image) && PlanFor(plan, record) && plan.Executable()
    ensures 0 < |image| == plan.body.writeLength == record.body.imageSizeBytes <= plan.body.target.sizeBytes
    ensures plan.body.writeOffset == 0
  {}
}
