/** Runs of the restore engine whose stop notes are false (core/restore.py). */
module RestoreWitnesses {

  import opened Digests
  import opened Backup
  import opened RestorePlanning
  import opened RestoreTally
  import opened BlockTargets
  import opened RestoreForecast
  import opened RestoreEngine
  import opened RestoreAccount
  import opened RestoreRun

  const CHUNK := 4096

  function Ones(n: nat): Bytes
  {
    seq(n, i requires 0 <= i < n => 1)
  }

  /** A backup of `image` and an executable plan to restore it onto a target of its size. */
  method BackUp(image: Bytes) returns (record: BackupRecord, plan: RestorePlan)
    requires 0 < |image| < CHUNK
    ensures Intact(record) && Describes(record, image) && record.body.chunkBytes == CHUNK
    ensures |record.body.chunkHashes| == 1
    ensures Sealed(plan) && plan.Executable() && PlanFor(plan, record) && plan.body.target.sizeBytes == |image|
  {
    var stat := FileStat(|image|, 0, 0);
    var source := SourceIdentity("/dev/source", "serial", "model", |image|, None);
    Arrives(image);
    var created := CreateBackupRecord([image], true, stat, stat, "image", source, CHUNK, "backup", 0);
    record := created.value;
    OneChunk(image);
    var target := TargetIdentity("/dev/target", "target-serial", "model", |image|, None, false, [], BlockDevice);
    plan := PlanRestore(record, target, Distinct, 1, 0).value;
    assert PlanBlocking(record, target, Distinct) == [];
  }

  lemma Arrives(image: Bytes)
    ensures Joined([image]) == image
  {
    assert Joined([image][1..]) == [];
  }

  lemma OneChunk(image: Bytes)
    requires 0 < |image| < CHUNK
    ensures |ChunksOf(image, CHUNK)| == 1
  {
    assert image[|image|..] == [];
  }

  // ------------------------------------------------------------- a torn first sector

  /** Refuses the whole write, then takes 100 bytes of its first sector. */
  function TearsFirst(k: nat): WriteAnswer
  {
    if k == 0 then Refuses("EIO") else Takes(100)
  }

  lemma TearForetold(sector: nat, maxRun: nat)
    requires sector == 512
    ensures var t := Setting(TearsFirst, sector, maxRun);
            && Attempt(t, 0, 512, CHUNK, 0) == Going(Standing(0, 0, 0, 0))
            && Attempt(t, 0, 512, CHUNK, 1) == Short(Standing(2, 0, 0, 0), 100)
            && Forecast(t, 0, 512, CHUNK) == Short(Standing(2, 0, 0, 0), 100)
  {
    var t := Setting(TearsFirst, sector, maxRun);
    var s := Standing(0, 0, 0, 0);
    assert BySector(t, s.(k := 1), 512) == Short(Standing(2, 0, 0, 0), 100);
    assert InOne(t, s, 512) == Short(Standing(2, 0, 0, 0), 100);
    AttemptUnfolds(t, 0, 512, CHUNK, 0);
    AttemptSettles(t, 0, 512, CHUNK, 1, 512);
  }

  lemma {:induction false} SomethingTook(handed: seq<Handed>, since: nat)
    requires TookSince(handed, since) != {}
    ensures exists i :: since <= i < |handed| && Taken(handed[i].answer) > 0
  {
    var last := handed[|handed| - 1];
    if Taken(last.answer) == 0 {
      assert Offsets(last.offset, 0) == {};
      SomethingTook(handed[..|handed| - 1], since);
      var i :| since <= i < |handed| - 1 && Taken(handed[..|handed| - 1][i].answer) > 0;
      assert handed[i] == handed[..|handed| - 1][i];
    }
  }

  /** What the forecast leaves of the ways the run can end. */
  lemma TornTrail(outcome: Outcome, trail: Trail, k: nat)
    requires Foretold(trail, k, Setting(TearsFirst, 512, 4096), 0, 512, CHUNK) && trail.chunks <= 1
    requires outcome.AbortedBy? && outcome.why.WriteStopped? <==> !trail.stop.Completed?
    requires outcome.Finished? || (outcome.AbortedBy? && !outcome.why.WriteStopped?) ==>
               trail.written + trail.unwritable == 512
    requires outcome.Finished? || outcome.AbortedBy?
    ensures outcome.AbortedBy? && trail.stop.ShortSector? && trail.stop.count == 100
    ensures trail.written == 0 && trail.unwritable == 0
  {
    TearForetold(512, 4096);
  }

  /** What such a run left behind. */
  lemma TornDisk(trail: Trail, was: Origin, disk: Bytes, calls: seq<Handed>, image: Bytes, maxRun: nat, sector: nat)
    requires TrueAccount(trail, was, disk, calls, 0, image, 8, maxRun, sector) && was.handed == []
    requires trail.written == 0 && trail.unwritable == 0 && Torn(trail.stop) == 100
    requires |disk| == |image| == 512
    ensures |was.disk| == 512 && (forall p :: 0 <= p < 100 ==> disk[p] == image[p])
    ensures forall p :: 100 <= p < 512 ==> disk[p] == was.disk[p]
    ensures exists i :: 0 <= i < |calls| && Taken(calls[i].answer) > 0
    ensures !RefusedSince(calls, 0)
  {
    hide TrueAccount, TookSince;
    StopRecordTrue(trail, was, disk, calls, 0, image, 8, maxRun, sector);
    CallsTold(trail, was, disk, calls, 0, image, 8, maxRun, sector);
    assert 0 in TookSince(calls, 0);
    SomethingTook(calls, 0);
  }

  /** A whole run of the engine that logs that nothing was written and that the target refused
      every write, although one write was taken in part: the disk changes, or - when it held the
      image already - does not even show it. */
  method TornFirstSector(held: bool) returns (before: Bytes, after: Bytes, entry: Entry, ghost calls: seq<Handed>)
    ensures entry.Aborted? && entry.stop.note == NothingWritten
    ensures exists i :: 0 <= i < |calls| && Taken(calls[i].answer) > 0
    ensures !RefusedSince(calls, 0)
    ensures held <==> before == after
  {
    hide TrueAccount, NoteClaim, Foretold, Progress, Forecast, Attempt, Paused, BadAt, Describes, TookSince,
         RefusedSince, PlanFor, Intact, Sealed, VouchesFor;
    var image := Ones(512);
    var record, plan := BackUp(image);
    DescribedChunks(record, image);
    var disk := new Byte[512](i => if held then 1 else 0);
    var target := new BlockTarget(disk, 512, TearsFirst, k => GivesAll, false);
    var source := new ImageSource(image, Some(512), true, k => Current);
    var caller := new Caller(k => false);
    var ledger := new Ledger();
    before := disk[..];
    ghost var was := Origin(disk[..], {}, target.handed);
    var outcome;
    ghost var trail;
    outcome, trail := ExecuteRestore(record, plan, target, source, caller, ledger, true, 4096, 4096, 8, image, record);
    PatientNeverCloses(caller.closes, 0, caller.pauses, outcome.CancelledIn?);
    after := disk[..];
    calls := target.handed;
    TornTrail(outcome, trail, target.writes);
    TornDisk(trail, was, after, calls, image, 4096, SectorOf(target));
    assert after[0] == 1;
    assert held ==> forall p :: 0 <= p < 512 ==> after[p] == before[p];
    entry := ledger.entries[|ledger.entries| - 1];
  }

  lemma DescribedChunks(record: BackupRecord, image: Bytes)
    requires Describes(record, image)
    ensures VouchesFor(record, image) && record.body.chunkBytes > 0 && record.body.imageSizeBytes == |image|
  {
    OwnImageVouched(record, image);
  }

  // ------------------------------------------------- a read-back after a refused sector

  /** Refuses the whole write and its first sector, and takes everything after. */
  function RefusesTwice(k: nat): WriteAnswer
  {
    if k < 2 then Refuses("EIO") else TakesAll
  }

  /** Lets the run go on until the first yield of its read-back. */
  predicate ClosesThird(k: nat)
  {
    k == 2
  }

  lemma RefusalForetold()
    ensures var t := Setting(RefusesTwice, 512, 4096);
            && Attempt(t, 0, 1024, CHUNK, 0) == Going(Standing(0, 0, 0, 0))
            && Attempt(t, 0, 1024, CHUNK, 1) == Going(Standing(3, 512, 512, 0))
            && Forecast(t, 0, 1024, CHUNK) == Going(Standing(3, 512, 512, 0))
  {
    var t := Setting(RefusesTwice, 512, 4096);
    assert BySector(t, Standing(3, 512, 512, 0), 0) == Going(Standing(3, 512, 512, 0));
    BySectorUnfolds(t, Standing(2, 0, 512, 512), 512);
    BySectorUnfolds(t, Standing(1, 0, 0, 0), 1024);
    InOneUnfolds(t, Standing(0, 0, 0, 0), 1024);
    AttemptUnfolds(t, 0, 1024, CHUNK, 0);
    AttemptSettles(t, 0, 1024, CHUNK, 1, 1024);
  }

  /** What the forecast and the caller leave of the ways the run can end. */
  lemma RefusedTrail(outcome: Outcome, trail: Trail, k: nat, pauses: nat)
    requires Foretold(trail, k, Setting(RefusesTwice, 512, 4096), 0, 1024, CHUNK) && trail.chunks <= 1
    requires outcome.AbortedBy? && outcome.why.WriteStopped? <==> !trail.stop.Completed?
    requires outcome.AbortedBy? ==> outcome.why.WriteStopped?
    requires outcome.Finished? || outcome == CancelledIn(Verify) ==> trail.written + trail.unwritable == 1024
    requires Paused(ClosesThird, 0, pauses, outcome.CancelledIn?) && !outcome.NotStarted?
    requires outcome == CancelledIn(Restore) ==> pauses == 1 + trail.chunks
    requires outcome == CancelledIn(Verify) || outcome.Finished? ==> pauses > 1 + trail.chunks
    ensures outcome == CancelledIn(Verify) && trail.written == 512 && trail.unwritable == 512
  {
    RefusalForetold();
    var closes: nat -> bool := ClosesThird;
    assert closes(2) && !closes(0) && !closes(1);
    assert !outcome.AbortedBy? && !outcome.Finished?;
    assert outcome.phase.Restore? || outcome.phase.Verify?;
  }

  /** A whole run of the engine that logs that the full range was written although a sector of
      it was refused and still holds what it held. */
  method ReadBackAfterRefusal()
    returns (before: Bytes, after: Bytes, image: Bytes, entry: Entry, ghost calls: seq<Handed>)
    ensures entry.VerifyCancelled? && entry.stop.note == WrittenButUnverified
    ensures |before| == |after| == |image| == 1024
    ensures exists p :: 0 <= p < 1024 && p !in TookSince(calls, 0) && after[p] == before[p] != image[p]
  {
    hide TrueAccount, NoteClaim, Foretold, Progress, Forecast, Attempt, Paused, BadAt, Describes, TookSince,
         RefusedSince, PlanFor, Intact, Sealed, VouchesFor;
    image := Ones(1024);
    var record, plan := BackUp(image);
    DescribedChunks(record, image);
    var disk := new Byte[1024](i => 0);
    var target := new BlockTarget(disk, 512, RefusesTwice, k => GivesAll, false);
    var source := new ImageSource(image, Some(1024), true, k => Current);
    var caller := new Caller(ClosesThird);
    var ledger := new Ledger();
    before := disk[..];
    ghost var was := Origin(disk[..], {}, target.handed);
    var outcome;
    ghost var trail;
    outcome, trail := ExecuteRestore(record, plan, target, source, caller, ledger, true, 4096, 4096, 8, image, record);
    after := disk[..];
    calls := target.handed;
    RefusedTrail(outcome, trail, target.writes, caller.pauses);
    RefusedDisk(trail, was, after, calls, image, 4096, SectorOf(target));
    entry := ledger.entries[|ledger.entries| - 1];
  }

  /** What such a run left behind: an offset that was refused. */
  lemma RefusedDisk(trail: Trail, was: Origin, disk: Bytes, calls: seq<Handed>, image: Bytes, maxRun: nat, sector: nat)
    requires TrueAccount(trail, was, disk, calls, 0, image, 8, maxRun, sector) && was.handed == []
    requires trail.written == 512 && trail.unwritable == 512 && trail.stop.Completed?
    requires |disk| == |was.disk| == |image| == 1024
    requires forall p :: 0 <= p < 1024 ==> was.disk[p] != image[p]
    ensures exists p :: 0 <= p < 1024 && p !in TookSince(calls, 0) && disk[p] == was.disk[p] != image[p]
  {
    hide TrueAccount, TookSince, BadAt;
    StopRecordTrue(trail, was, disk, calls, 0, image, 8, maxRun, sector);
    CallsTold(trail, was, disk, calls, 0, image, 8, maxRun, sector);
    var bad := BadAt(trail.refusals);
    EmptyOrNot(bad, 0, 1024);
    var p :| p in bad;
    assert p !in TookSince(calls, 0) && disk[p] == was.disk[p];
  }
}
