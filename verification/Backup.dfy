/** Backup records: hashing an image while it streams past, and checking an image against
    its record chunk by chunk (core/backup.py). */
module Backup {

  import opened Digests

  datatype SourceIdentity = SourceIdentity(
    path: string, serial: string, model: string, sizeBytes: int, stableId: Option<string>)

  datatype ChunkHashOrigin = Acquisition | Computed

  datatype Producer = SanctumAcquisition | OperatorSupplied

  datatype BackupLimitation =
    | NotProofOfProvenance(source: SourceIdentity, hashedAt: int)
    | ImageSizeDiffers(imageBytes: int, deviceBytes: int)
    | OtherLimitation(text: string)

  /** Every field of a record but its digest. */
  datatype RecordBody = RecordBody(
    backupId: string,
    source: SourceIdentity,
    sourceSizeBytes: int,
    imagePath: string,
    imageSizeBytes: int,
    imageSha256: Digest,
    chunkBytes: int,
    chunkHashes: seq<Digest>,
    chunkHashOrigin: ChunkHashOrigin,
    producedBy: Producer,
    acquisitionJobId: Option<string>,
    createdAt: int,
    limitations: seq<BackupLimitation>)

  /** The digest over the canonical bytes of a body, again injective. */
  datatype RecordDigest = Missing | RecordDigestOf(body: RecordBody)

  datatype BackupRecord = BackupRecord(body: RecordBody, recordDigest: RecordDigest)

  predicate Intact(record: BackupRecord)
  {
    record.recordDigest == RecordDigestOf(record.body)
  }

  function SealRecord(body: RecordBody): BackupRecord
  {
    BackupRecord(body, RecordDigestOf(body))
  }

  /** The record's chunk hashes and sizes are those of `image`. */
  predicate DescribesChunksOf(record: BackupRecord, image: Bytes)
  {
    && record.body.chunkBytes > 0
    && record.body.imageSizeBytes == |image|
    && record.body.chunkHashes == HashAll(ChunksOf(image, record.body.chunkBytes))
  }

  /** ... and so is its whole-image hash. */
  predicate Describes(record: BackupRecord, image: Bytes)
  {
    DescribesChunksOf(record, image) && record.body.imageSha256 == Sha256(image)
  }

  function ExpectedHash(record: BackupRecord, index: nat): Digest
  {
    if index < |record.body.chunkHashes| then record.body.chunkHashes[index] else NoDigest
  }

  lemma DescribesOneImage(record: BackupRecord, a: Bytes, b: Bytes)
    requires DescribesChunksOf(record, a) && DescribesChunksOf(record, b)
    ensures a == b
  {
    ChunksDetermineFile(a, b, record.body.chunkBytes);
  }

  // ------------------------------------------------------------------ creation

  datatype FileStat = FileStat(size: nat, mtimeNs: int, inode: int)

  datatype CreateError = ChunkBytesNotPositive | NotARegularFile | ChangedWhileHashed

  function Joined(pieces: seq<Bytes>): Bytes
  {
    if pieces == [] then [] else pieces[0] + Joined(pieces[1..])
  }

  function OperatorSuppliedLimitations(source: SourceIdentity, createdAt: int, imageSize: int)
    : seq<BackupLimitation>
  {
    [NotProofOfProvenance(source, createdAt)]
    + if imageSize != source.sizeBytes then [ImageSizeDiffers(imageSize, source.sizeBytes)] else []
  }

  /** A hash object: the bytes it has absorbed decide what it answers. */
  class Hasher {
    var absorbed: Bytes

    constructor ()
      ensures absorbed == []
    {
      absorbed := [];
    }

    method Update(data: Bytes)
      modifies this
      ensures absorbed == old(absorbed) + data
    {
      absorbed := absorbed + data;
    }

    function HexDigest(): Digest
      reads this
    {
      Sha256(absorbed)
    }
  }

  /** One read's bytes, dealt into the chunk being filled; full chunks are hashed off.
      `before` is what the open chunk and the list held when the read arrived, and `later`
      whatever the file still holds. */
  method AbsorbRead(data: Bytes, chunkBytes: nat, chunk: Hasher, chunks: seq<Digest>, ghost later: Bytes)
    returns (chunks': seq<Digest>, chunk': Hasher)
    requires chunkBytes > 0 && |chunk.absorbed| < chunkBytes
    modifies chunk
    ensures chunk' == chunk || fresh(chunk')
    ensures |chunk'.absorbed| < chunkBytes
    ensures chunks' + HashAll(ChunksOf(chunk'.absorbed + later, chunkBytes))
         == chunks + HashAll(ChunksOf(old(chunk.absorbed) + data + later, chunkBytes))
  {
    chunks', chunk' := chunks, chunk;
    var filled := |chunk.absorbed|;
    var view := data;
    ghost var goal := chunks + HashAll(ChunksOf(chunk.absorbed + data + later, chunkBytes));
    while |view| > 0
      invariant chunk' == chunk || fresh(chunk')
      invariant filled == |chunk'.absorbed| < chunkBytes
      invariant chunks' + HashAll(ChunksOf(chunk'.absorbed + view + later, chunkBytes)) == goal
    {
      var take := Min(chunkBytes - filled, |view|);
      MoveToChunk(chunk'.absorbed, view, later, take);
      chunk'.Update(view[..take]);
      filled := filled + take;
      view := view[take..];
      if filled == chunkBytes {
        FullChunkHashedOff(chunks', chunk'.absorbed, view, later, chunkBytes);
        chunks' := chunks' + [chunk'.HexDigest()];
        chunk' := new Hasher();
        filled := 0;
      }
    }
    assert chunk'.absorbed + view + later == chunk'.absorbed + later;
  }

  lemma MoveToChunk(absorbed: Bytes, view: Bytes, later: Bytes, take: nat)
    requires take <= |view|
    ensures (absorbed + view[..take]) + view[take..] + later == absorbed + view + later
  {}

  lemma FullChunkHashedOff(chunks: seq<Digest>, full: Bytes, view: Bytes, later: Bytes, size: nat)
    requires |full| == size > 0
    ensures chunks + HashAll(ChunksOf(full + view + later, size))
         == (chunks + [Sha256(full)]) + HashAll(ChunksOf([] + view + later, size))
  {
    var rest := view + later;
    assert full + view + later == full + rest && [] + view + later == rest;
    assert (full + rest)[..size] == full && (full + rest)[size..] == rest;
    assert HashAll([full] + ChunksOf(rest, size)) == [Sha256(full)] + HashAll(ChunksOf(rest, size));
  }

  /** What the open chunk still adds at the end. */
  lemma LastChunk(chunks: seq<Digest>, open: Bytes, size: nat)
    requires |open| < size
    ensures chunks + HashAll(ChunksOf(open + [], size)) == if |open| > 0 then chunks + [Sha256(open)] else chunks
  {
    assert open + [] == open;
    if |open| > 0 {
      assert open[..|open|] == open && open[|open|..] == [];
      assert ChunksOf(open, size) == [open];
      assert HashAll([open]) == [Sha256(open)];
    }
  }

  /** One more read: nothing about the file's chunks changes. */
  lemma ReadMoves(arrivals: seq<Bytes>, i: nat, absorbed: Bytes, open: Bytes)
    requires i < |arrivals|
    ensures var data, later := arrivals[i], Joined(arrivals[i + 1..]);
            && absorbed + Joined(arrivals[i..]) == (absorbed + data) + later
            && open + Joined(arrivals[i..]) == open + data + later
  {
    assert arrivals[i..][1..] == arrivals[i + 1..];
  }

  /** Hash an image that arrives as `arrivals` (the file is their concatenation, and a read
      splits it anywhere) and seal its record. `before` and `after` are the two `stat`s. */
  method CreateBackupRecord(
    arrivals: seq<Bytes>, isFile: bool, before: FileStat, after: FileStat,
    imagePath: string, source: SourceIdentity, chunkBytes: int, backupId: string, clock: int)
    returns (r: Result<BackupRecord, CreateError>)
    requires forall i :: 0 <= i < |arrivals| ==> arrivals[i] != []
    ensures r == Err(ChunkBytesNotPositive) <==> chunkBytes <= 0
    ensures r == Err(NotARegularFile) <==> chunkBytes > 0 && !isFile
    ensures r.Ok? <==> chunkBytes > 0 && isFile && before == after && |Joined(arrivals)| == before.size
    ensures r.Ok? ==>
              && Intact(r.value)
              && Describes(r.value, Joined(arrivals))
              && r.value.body.chunkBytes == chunkBytes
              && r.value.body.source == source
              && r.value.body.sourceSizeBytes == source.sizeBytes
              && r.value.body.imagePath == imagePath
              && r.value.body.backupId == backupId
              && r.value.body.createdAt == clock
              && r.value.body.chunkHashOrigin == Computed
              && r.value.body.producedBy == OperatorSupplied
              && r.value.body.acquisitionJobId == None
              && NotProofOfProvenance(source, clock) in r.value.body.limitations
              && (ImageSizeDiffers(before.size, source.sizeBytes) in r.value.body.limitations
                  <==> before.size != source.sizeBytes)
  {
    if chunkBytes <= 0 { return Err(ChunkBytesNotPositive); }
    if !isFile { return Err(NotARegularFile); }
    var total := before.size;
    var whole := new Hasher();
    var chunk := new Hasher();
    var chunks: seq<Digest> := [];
    var done := 0;
    var i := 0;
    assert chunk.absorbed + Joined(arrivals[0..]) == Joined(arrivals) by { assert arrivals[0..] == arrivals; }
    assert whole.absorbed + Joined(arrivals[0..]) == Joined(arrivals);
    while i < |arrivals|
      invariant 0 <= i <= |arrivals|
      invariant fresh(whole) && fresh(chunk) && whole != chunk
      invariant done == |whole.absorbed|
      invariant whole.absorbed + Joined(arrivals[i..]) == Joined(arrivals)
      invariant |chunk.absorbed| < chunkBytes
      invariant chunks + HashAll(ChunksOf(chunk.absorbed + Joined(arrivals[i..]), chunkBytes))
             == HashAll(ChunksOf(Joined(arrivals), chunkBytes))
    {
      var data := arrivals[i];
      ghost var later := Joined(arrivals[i + 1..]);
      ReadMoves(arrivals, i, whole.absorbed, chunk.absorbed);
      whole.Update(data);
      chunks, chunk := AbsorbRead(data, chunkBytes, chunk, chunks, later);
      done := done + |data|;
      i := i + 1;
    }
    assert arrivals[i..] == [];
    assert whole.absorbed == Joined(arrivals);
    LastChunk(chunks, chunk.absorbed, chunkBytes);
    if |chunk.absorbed| > 0 { chunks := chunks + [chunk.HexDigest()]; }
    if after != before || done != total { return Err(ChangedWhileHashed); }
    var limitations := OperatorSuppliedLimitations(source, clock, total);
    assert limitations[0] == NotProofOfProvenance(source, clock);
    assert before.size != source.sizeBytes ==> limitations[1] == ImageSizeDiffers(before.size, source.sizeBytes);
    r := Ok(SealRecord(RecordBody(
      backupId, source, source.sizeBytes, imagePath, total, whole.HexDigest(), chunkBytes, chunks,
      Computed, OperatorSupplied, None, clock, limitations)));
  }

  // -------------------------------------------------------------- verification

  datatype ChunkMismatch = ChunkMismatch(
    index: nat, offset: int, length: nat, expected: Digest, actual: Digest)

  datatype BackupVerification = BackupVerification(
    passed: bool,
    recordDigestOk: bool,
    sizeMatches: bool,
    sha256Matches: bool,
    actualSha256: Digest,
    actualSizeBytes: int,
    mismatchedChunks: seq<nat>,
    firstMismatch: Option<ChunkMismatch>,
    bytesVerified: nat)

  /** The pieces `read(chunkBytes)` returns until it returns nothing: Python reads
      everything for a negative size and nothing for zero. */
  function PiecesRead(image: Bytes, chunkBytes: int): seq<Bytes>
  {
    if chunkBytes > 0 then ChunksOf(image, chunkBytes)
    else if chunkBytes < 0 && image != [] then [image]
    else []
  }

  /** Piece `i` was read and does not hash to what the record says, or lies past it. */
  predicate Differs(pieces: seq<Bytes>, record: BackupRecord, i: nat)
  {
    i < |pieces| && Sha256(pieces[i]) != ExpectedHash(record, i)
  }

  /** `indices` lists, ascending, exactly the pieces that differ. */
  ghost predicate ListsMismatches(indices: seq<nat>, pieces: seq<Bytes>, record: BackupRecord)
  {
    && (forall k :: 0 < k < |indices| ==> indices[k - 1] < indices[k])
    && (forall i: nat :: Differs(pieces, record, i) <==> i in indices)
  }

  lemma ListMismatchesStep(indices: seq<nat>, pieces: seq<Bytes>, piece: Bytes, record: BackupRecord)
    requires ListsMismatches(indices, pieces, record)
    ensures Sha256(piece) != ExpectedHash(record, |pieces|) ==>
              ListsMismatches(indices + [|pieces|], pieces + [piece], record)
    ensures Sha256(piece) == ExpectedHash(record, |pieces|) ==>
              ListsMismatches(indices, pieces + [piece], record)
  {
    forall i: nat
      ensures Differs(pieces + [piece], record, i)
         <==> Differs(pieces, record, i) || (i == |pieces| && Sha256(piece) != ExpectedHash(record, i))
    {}
    assert indices != [] ==> Differs(pieces, record, indices[|indices| - 1]);
  }

  /** What `first` must be, given which pieces differ. */
  ghost predicate FirstOfMismatches(
    first: Option<ChunkMismatch>, indices: seq<nat>, pieces: seq<Bytes>, record: BackupRecord)
  {
    && (first.None? <==> indices == [])
    && (indices != [] ==>
          var i := indices[0];
          && i < |pieces|
          && first.value == ChunkMismatch(
               i, i * record.body.chunkBytes, |pieces[i]|, ExpectedHash(record, i), Sha256(pieces[i])))
  }

  /** The mismatch report after one more piece was compared. */
  function NoteFirst(first: Option<ChunkMismatch>, index: nat, piece: Bytes, record: BackupRecord)
    : Option<ChunkMismatch>
  {
    if first.Some? then first
    else Some(ChunkMismatch(
      index, index * record.body.chunkBytes, |piece|, ExpectedHash(record, index), Sha256(piece)))
  }

  lemma FirstOfMismatchesStep(
    first: Option<ChunkMismatch>, indices: seq<nat>, pieces: seq<Bytes>, piece: Bytes, record: BackupRecord)
    requires FirstOfMismatches(first, indices, pieces, record)
    ensures FirstOfMismatches(first, indices, pieces + [piece], record)
    ensures FirstOfMismatches(
              NoteFirst(first, |pieces|, piece, record), indices + [|pieces|], pieces + [piece], record)
  {
    if indices != [] {
      assert (pieces + [piece])[indices[0]] == pieces[indices[0]];
      assert (indices + [|pieces|])[0] == indices[0];
    }
  }

  /** The mismatch names a stretch of the image by its true offset, with the hash of its bytes. */
  predicate MismatchOf(m: ChunkMismatch, image: Bytes)
  {
    0 <= m.offset && m.offset + m.length <= |image| && m.actual == Sha256(image[m.offset..m.offset + m.length])
  }

  lemma FirstIsOfImage(first: Option<ChunkMismatch>, indices: seq<nat>, image: Bytes, record: BackupRecord)
    requires FirstOfMismatches(first, indices, PiecesRead(image, record.body.chunkBytes), record)
    ensures first.Some? ==> MismatchOf(first.value, image)
  {
    var size := record.body.chunkBytes;
    if first.Some? && size > 0 {
      ChunkAt(image, size, indices[0]);
    }
    assert image[0..|image|] == image;
  }

  /** The reading loop: every piece of the image hashed and compared with its chunk hash. */
  method CompareChunks(record: BackupRecord, image: Bytes)
    returns (mismatched: seq<nat>, first: Option<ChunkMismatch>, verified: nat, sha: Digest)
    ensures var pieces := PiecesRead(image, record.body.chunkBytes);
            && ListsMismatches(mismatched, pieces, record)
            && FirstOfMismatches(first, mismatched, pieces, record)
            && sha == Sha256(Joined(pieces))
            && verified == |Joined(pieces)|
    ensures first.Some? ==> MismatchOf(first.value, image)
  {
    var whole := new Hasher();
    mismatched, first, verified := [], None, 0;
    ghost var seen: seq<Bytes> := [];
    var rest := image;
    var index := 0;
    while true
      invariant seen + PiecesRead(rest, record.body.chunkBytes) == PiecesRead(image, record.body.chunkBytes)
      invariant index == |seen|
      invariant fresh(whole)
      invariant whole.absorbed == Joined(seen)
      invariant verified == |whole.absorbed|
      invariant ListsMismatches(mismatched, seen, record)
      invariant FirstOfMismatches(first, mismatched, seen, record)
      decreases |rest|
    {
      var piece := ReadPiece(rest, record.body.chunkBytes);
      NextPiece(rest, record.body.chunkBytes);
      if piece == [] { break; }
      rest := rest[|piece|..];
      whole.Update(piece);
      JoinedSnoc(seen, piece);
      ListMismatchesStep(mismatched, seen, piece, record);
      FirstOfMismatchesStep(first, mismatched, seen, piece, record);
      if Sha256(piece) != ExpectedHash(record, index) {
        mismatched := mismatched + [index];
        first := NoteFirst(first, index, piece, record);
      }
      assert seen + ([piece] + PiecesRead(rest, record.body.chunkBytes))
          == (seen + [piece]) + PiecesRead(rest, record.body.chunkBytes);
      verified := verified + |piece|;
      index := index + 1;
      seen := seen + [piece];
    }
    assert seen == PiecesRead(image, record.body.chunkBytes);
    FirstIsOfImage(first, mismatched, image, record);
    sha := whole.HexDigest();
  }

  /** Re-hash an image against its record. `statSize` is the image's size, or `None` when it
      cannot be read (the program then compares the recorded size with -1); `image` is what
      reading it returns. */
  method VerifyBackup(record: BackupRecord, statSize: Option<nat>, image: Bytes)
    returns (v: BackupVerification)
    ensures v.recordDigestOk == Intact(record)
    ensures v.actualSizeBytes == if Intact(record) && statSize.Some? then statSize.value else -1
    ensures v.passed <==>
              && Intact(record)
              && (statSize == Some(record.body.imageSizeBytes)
                  || (statSize.None? && record.body.imageSizeBytes == -1))
              && v.actualSha256 == record.body.imageSha256
              && v.mismatchedChunks == []
    ensures !Intact(record) || statSize.None? ==>
              v.mismatchedChunks == [] && v.firstMismatch.None? && v.bytesVerified == 0
              && v.actualSha256 == NoDigest
    ensures Intact(record) && statSize.Some? ==>
              var pieces := PiecesRead(image, record.body.chunkBytes);
              && ListsMismatches(v.mismatchedChunks, pieces, record)
              && FirstOfMismatches(v.firstMismatch, v.mismatchedChunks, pieces, record)
              && v.actualSha256 == Sha256(Joined(pieces))
              && v.bytesVerified == |Joined(pieces)|
    ensures v.firstMismatch.Some? ==> MismatchOf(v.firstMismatch.value, image)
    ensures Intact(record) && statSize == Some(|image|) ==>
              forall recorded :: Describes(record, recorded) ==> (v.passed <==> image == recorded)
    ensures statSize.None? ==>
              (v.passed <==> Intact(record) && record.body.imageSizeBytes == -1 && record.body.imageSha256 == NoDigest)
  {
    var digestOk := record.recordDigest == RecordDigestOf(record.body);
    var mismatched: seq<nat> := [];
    var first: Option<ChunkMismatch> := None;
    var verified := 0;
    var actualSha := NoDigest;
    var actualSize := if digestOk && statSize.Some? then statSize.value else -1;
    if actualSize >= 0 {
      mismatched, first, verified, actualSha := CompareChunks(record, image);
    }
    var sizeOk := actualSize == record.body.imageSizeBytes;
    var shaOk := actualSha == record.body.imageSha256;
    var passed := digestOk && sizeOk && shaOk && mismatched == [];
    v := BackupVerification(passed, digestOk, sizeOk, shaOk, actualSha, actualSize, mismatched, first, verified);
    forall recorded | Describes(record, recorded) && digestOk && statSize == Some(|image|)
      ensures v.passed <==> image == recorded
    {
      VerificationExact(record, recorded, image, mismatched);
    }
  }

  /** A record that passes although its image cannot be read: it claims the size the program
      uses for an unreadable image, and no hash. */
  method UnreadableImagePasses() returns (record: BackupRecord, v: BackupVerification)
    ensures Intact(record) && v.passed && v.actualSizeBytes == -1 && v.bytesVerified == 0
  {
    var source := SourceIdentity("/dev/source", "serial", "model", 0, None);
    record := SealRecord(RecordBody("backup", source, 0, "image", -1, NoDigest, 4096, [], Computed, OperatorSupplied,
                                    None, 0, []));
    v := VerifyBackup(record, None, []);
  }

  function ReadPiece(rest: Bytes, chunkBytes: int): Bytes
  {
    if chunkBytes < 0 then rest else rest[..Min(chunkBytes, |rest|)]
  }

  lemma NextPiece(rest: Bytes, chunkBytes: int)
    ensures ReadPiece(rest, chunkBytes) == [] <==> PiecesRead(rest, chunkBytes) == []
    ensures ReadPiece(rest, chunkBytes) != [] ==>
              PiecesRead(rest, chunkBytes) == [ReadPiece(rest, chunkBytes)]
                + PiecesRead(rest[|ReadPiece(rest, chunkBytes)|..], chunkBytes)
  {}

  lemma {:induction false} JoinedSnoc(pieces: seq<Bytes>, last: Bytes)
    ensures Joined(pieces + [last]) == Joined(pieces) + last
  {
    if pieces == [] {
      assert pieces + [last] == [last];
      assert [last][1..] == [];
      assert last + [] == last;
    } else {
      JoinedSnoc(pieces[1..], last);
      assert (pieces + [last])[1..] == pieces[1..] + [last];
    }
  }

  lemma {:induction false} JoinedChunks(image: Bytes, size: nat)
    requires size > 0
    ensures Joined(ChunksOf(image, size)) == image
    decreases |image|
  {
    if image != [] {
      JoinedChunks(image[Min(size, |image|)..], size);
    }
  }

  /** For the record of some image, the verification's hash is the image's own, and the
      hash test and the chunk tests say the same thing: the image is the recorded one. */
  lemma VerificationExact(record: BackupRecord, recorded: Bytes, image: Bytes, mismatched: seq<nat>)
    requires Describes(record, recorded)
    requires ListsMismatches(mismatched, PiecesRead(image, record.body.chunkBytes), record)
    ensures Joined(PiecesRead(image, record.body.chunkBytes)) == image
    ensures Sha256(image) == record.body.imageSha256 <==> image == recorded
    ensures image == recorded ==> mismatched == []
    ensures |image| == |recorded| && mismatched == [] ==> image == recorded
    ensures |image| == record.body.imageSizeBytes
              && Sha256(Joined(PiecesRead(image, record.body.chunkBytes))) == record.body.imageSha256
              && mismatched == []
            <==> image == recorded
  {
    var size := record.body.chunkBytes;
    JoinedChunks(image, size);
    var ca, cr := ChunksOf(image, size), ChunksOf(recorded, size);
    if image == recorded {
      forall i: nat ensures !Differs(ca, record, i) {
        assert i < |ca| ==> HashAll(cr)[i] == Sha256(ca[i]);
      }
      HeadIsIn(mismatched);
    }
    if |image| == |recorded| && mismatched == [] {
      SameLengthSameCount(image, recorded, size);
      forall i | 0 <= i < |ca| ensures HashAll(ca)[i] == HashAll(cr)[i] {
        assert !Differs(ca, record, i);
      }
      assert HashAll(ca) == HashAll(cr);
      ChunksDetermineFile(image, recorded, size);
    }
  }

  lemma HeadIsIn(s: seq<nat>)
    ensures s != [] ==> s[0] in s
  {}

  lemma {:induction false} SameLengthSameCount(a: Bytes, b: Bytes, size: nat)
    requires size > 0 && |a| == |b|
    ensures |ChunksOf(a, size)| == |ChunksOf(b, size)|
    decreases |a|
  {
    if a != [] {
      var n := Min(size, |a|);
      SameLengthSameCount(a[n..], b[n..], size);
    }
  }
}
