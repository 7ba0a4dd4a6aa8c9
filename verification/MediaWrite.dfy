/** Backing up the part of a device a write will modify, verifying that backup, writing, and
    putting the backup back, while the image and backup files change between any two looks
    (scripts/media_benchmark.py). */
module MediaWrite {

  import opened Digests

  const MIB: nat := 1024 * 1024
  const WRITE_GRANULARITY_FLOOR: nat := 4096

  /** A file on the host: what each look at it finds; `None` when it is not there or cannot
      be read. */
  class HostFile {
    const versions: nat -> Option<Bytes>
    var looks: nat

    constructor (versions: nat -> Option<Bytes>)
      ensures this.versions == versions && looks == 0
    {
      this.versions, looks := versions, 0;
    }

    method Look() returns (content: Option<Bytes>)
      modifies this`looks
      ensures content == versions(old(looks)) && looks == old(looks) + 1
    {
      content := versions(looks);
      looks := looks + 1;
    }
  }

  /** What a run of the preflight finds of the device. */
  datatype Preflight = Safe(serial: string, size: nat, agrees: bool) | Unsafe

  /** What is asked of the host once per verification: the serial, the sector size, whether
      the backup lies on another disk, and the provenance record. */
  datatype Facts = Facts(
    preflight: Preflight, serial: string, sectorBytes: nat, onHostStorage: Option<bool>, record: Option<BackupRecord>)

  /** The provenance record. `image` is the resolved path. */
  datatype BackupRecord = BackupRecord(
    device: string, serial: string, bytes: Option<nat>, sha256: Digest, image: string, imageSha256: Digest,
    extentEnd: Option<nat>)

  datatype Extent = Extent(length: nat, end: nat)

  /** `Failed` is an exception of the operating system. */
  datatype Refusal = NoAgreement | NotAcknowledged | WrongSerial | NotAFile | TooLarge | WrongImage | SizeChanged
    | NotCovered | ImageChanged | NotSafe | NoPrivilege | Failed | PastTheEnd | ShortDevice

  // ------------------------------------------------------------------------ extent

  function Max(a: nat, b: nat): nat
  {
    if a >= b then a else b
  }

  function RoundedUp(length: nat, granularity: nat): nat
    requires granularity > 0
  {
    (length + granularity - 1) / granularity * granularity
  }

  /** The modified range covers the image, ends on a block boundary, and is the least that does. */
  lemma RoundedUpCovers(length: nat, granularity: nat)
    requires granularity > 0
    ensures var end := RoundedUp(length, granularity);
            && length <= end < length + granularity
            && end % granularity == 0
            && forall blocks: nat :: length <= blocks * granularity ==> end <= blocks * granularity
  {
    var q := (length + granularity - 1) / granularity;
    var r := (length + granularity - 1) % granularity;
    assert length + granularity - 1 == q * granularity + r;
    MultipleHasNoRemainder(q, granularity);
    forall blocks: nat | length <= blocks * granularity
      ensures q * granularity <= blocks * granularity
    {
      if blocks < q {
        assert blocks * granularity + granularity == (blocks + 1) * granularity;
        MonotoneProduct(blocks + 1, q, granularity);
      } else {
        MonotoneProduct(q, blocks, granularity);
      }
    }
  }

  lemma MonotoneProduct(a: nat, b: nat, n: nat)
    requires a <= b
    ensures a * n <= b * n
  {}

  lemma MultipleHasNoRemainder(q: nat, n: nat)
    requires n > 0
    ensures (q * n) % n == 0
  {
    var x := q * n;
    var k := x / n;
    assert x == k * n + x % n;
    assert (k + 1) * n == k * n + n;
    if k < q {
      MonotoneProduct(k + 1, q, n);
    } else {
      MonotoneProduct(q, k, n);
    }
  }

  /** `write_extent`: two looks, one for whether the image is there and one for its size. The
      extent is that size, and its end the least block boundary that covers it. */
  method WriteExtent(image: HostFile, sectorBytes: nat) returns (r: Result<Option<Extent>, Refusal>)
    modifies image`looks
    ensures var there, sized := image.versions(old(image.looks)), image.versions(old(image.looks) + 1);
            && image.looks == old(image.looks) + (if there.None? then 1 else 2)
            && (r == Ok(None) <==> there.None?)
            && (r == Err(Failed) <==> there.Some? && sized.None?)
            && (r.Err? ==> r.error == Failed)
            && (r.Ok? && r.value.Some? ==>
                  var e := r.value.value;
                  && sized.Some? && e.length == |sized.value|
                  && var block := if sectorBytes > 4096 then sectorBytes else 4096;
                  && e.length <= e.end < e.length + block && e.end % block == 0
                  && e.end == RoundedUp(e.length, Max(sectorBytes, WRITE_GRANULARITY_FLOOR)))
  {
    var there := image.Look();
    if there.None? { return Ok(None); }
    var sized := image.Look();
    if sized.None? { return Err(Failed); }
    var length := |sized.value|;
    RoundedUpCovers(length, Max(sectorBytes, WRITE_GRANULARITY_FLOOR));
    return Ok(Some(Extent(length, RoundedUp(length, Max(sectorBytes, WRITE_GRANULARITY_FLOOR)))));
  }

  // ------------------------------------------------------------------------ backup

  /** The record says true things about `region`, the bytes that were copied. */
  ghost predicate TrueOf(record: BackupRecord, region: Bytes)
  {
    && record.sha256 == Sha256(region)
    && record.bytes == Some(|region|)
    && record.extentEnd == Some(|region|)
  }

  /** The end of the range a write of `content` modifies. */
  function EndOf(content: Bytes, facts: Facts): nat
  {
    RoundedUp(|content|, Max(facts.sectorBytes, WRITE_GRANULARITY_FLOOR))
  }

  /** What a backup needs: a safe device, an image file that answers three looks, and its range
      inside the device, as the preflight sized it and as it can be read. */
  predicate BackupGoes(image: nat -> Option<Bytes>, at: nat, facts: Facts, readable: nat)
  {
    && facts.preflight.Safe?
    && image(at).Some? && image(at + 1).Some? && image(at + 2).Some?
    && EndOf(image(at + 1).value, facts) <= facts.preflight.size
    && EndOf(image(at + 1).value, facts) <= readable
  }

  /** `backup_region`: on success the copy is the device's first bytes up to the end of the
      extent of the image as its size was read, the record is true of them, and it names the
      hash of the image as it was read last. `cuts` is how short each read is. */
  method BackupRegion(device: array<Byte>, name: string, image: HostFile, imagePath: string, facts: Facts,
                      cuts: nat -> nat)
    returns (r: Result<(Bytes, BackupRecord), Refusal>)
    modifies image`looks
    ensures r.Ok? ==>
              var (copy, record) := r.value;
              var sized, hashed := image.versions(old(image.looks) + 1), image.versions(old(image.looks) + 2);
              && |copy| <= device.Length && copy == device[..|copy|] && TrueOf(record, copy)
              && record.device == name && record.image == imagePath
              && facts.preflight.Safe? && record.serial == facts.preflight.serial
              && sized.Some? && |sized.value| <= |copy|
              && |copy| == RoundedUp(|sized.value|, Max(facts.sectorBytes, WRITE_GRANULARITY_FLOOR))
              && hashed.Some? && record.imageSha256 == Sha256(hashed.value)
    ensures r.Ok? <==> BackupGoes(image.versions, old(image.looks), facts, device.Length)
    ensures r == Err(ShortDevice) ==> facts.preflight.Safe? && device.Length < facts.preflight.size
    ensures r == Err(PastTheEnd) ==>
              var sized := image.versions(old(image.looks) + 1);
              && facts.preflight.Safe? && sized.Some?
              && RoundedUp(|sized.value|, Max(facts.sectorBytes, WRITE_GRANULARITY_FLOOR)) > facts.preflight.size
  {
    if facts.preflight.Unsafe? { return Err(NotSafe); }
    var extent := WriteExtent(image, facts.sectorBytes);
    if extent.Err? { return Err(extent.error); }
    if extent.value.None? { return Err(NotAFile); }
    var length := extent.value.value.end;
    if length > facts.preflight.size { return Err(PastTheEnd); }
    var copy: Bytes := [];
    var pieces := 0;
    while |copy| < length
      invariant |copy| <= length && |copy| <= device.Length && copy == device[..|copy|]
    {
      var size := Min(Min(4 * MIB, length - |copy|), Min(1 + cuts(pieces), device.Length - |copy|));
      if size == 0 { return Err(ShortDevice); }
      var chunk := device[|copy|..|copy| + size];
      assert device[..|copy| + size] == device[..|copy|] + chunk;
      copy := copy + chunk;
      pieces := pieces + 1;
    }
    var hashed := image.Look();
    if hashed.None? { return Err(Failed); }
    return Ok((copy, BackupRecord(name, facts.preflight.serial, Some(|copy|), Sha256(copy), imagePath,
                                  Sha256(hashed.value), Some(length))));
  }

  // ------------------------------------------------------------------- verification

  datatype Reason = NotBuilt | NoBackup | Short | OnTarget | UnknownStorage | PreflightRefused | ImageUnhashed
    | BackupUnhashed | NoRecord | OtherSerial | OtherDevice | OtherExtent | OtherSize | OtherContent | OtherImagePath
    | NoImageHash | ImageNotShown | OtherImage

  /** What `verify_backup` reports and the write gate reads. */
  datatype Checked = Checked(
    image: string, extent: Option<Extent>, imageDigest: Option<Digest>, backupBytes: nat, backupDigest: Option<Digest>,
    blocking: seq<Reason>, sufficient: bool)

  /** What the two files' presence and sizes give to refuse for. */
  function FileReasons(extent: Option<Extent>, present: bool, covers: bool): (reasons: seq<Reason>)
    ensures reasons == [] <==> extent.Some? && present && covers
  {
    If(extent.None?, NotBuilt) + (if !present then [NoBackup] else If(!covers, Short))
  }

  /** What the host gives to refuse for. */
  function HostReasons(facts: Facts): (reasons: seq<Reason>)
    ensures reasons == [] <==> facts.onHostStorage.Some? && facts.onHostStorage.value && facts.preflight.Safe?
  {
    If(facts.onHostStorage.Some? && !facts.onHostStorage.value, OnTarget)
    + If(facts.onHostStorage.None?, UnknownStorage)
    + If(!facts.preflight.Safe?, PreflightRefused)
  }

  function RecordReasons(record: BackupRecord, name: string, imagePath: string, serial: string, end: Option<nat>,
                         backupBytes: nat, digest: Option<Digest>, imageDigest: Option<Digest>): seq<Reason>
  {
    (if record.serial != serial then [OtherSerial] else [])
    + (if record.device != name then [OtherDevice] else [])
    + (if record.extentEnd != end then [OtherExtent] else [])
    + (if record.bytes != Some(backupBytes) then [OtherSize] else [])
    + (if digest.Some? && record.sha256 != digest.value then [OtherContent] else [])
    + (if record.image == "" || record.image != imagePath then [OtherImagePath] else [])
    + (if record.imageSha256 == NoDigest then [NoImageHash]
       else if imageDigest.None? then [ImageNotShown]
       else if record.imageSha256 != imageDigest.value then [OtherImage]
       else [])
  }

  /** What a sufficient backup is, said of the files as the verification read them. */
  predicate Sufficient(c: Checked, facts: Facts, name: string)
  {
    && c.extent.Some? && c.imageDigest.Some? && c.backupDigest.Some?
    && c.backupBytes >= c.extent.value.end
    && facts.onHostStorage.Some? && facts.onHostStorage.value && facts.preflight.Safe?
    && facts.record.Some?
    && var record := facts.record.value;
    && record.serial == facts.serial && record.device == name && record.image == c.image != ""
    && record.extentEnd == Some(c.extent.value.end) && record.bytes == Some(c.backupBytes)
    && record.sha256 == c.backupDigest.value
    && record.imageSha256 == c.imageDigest.value != NoDigest
  }

  function Hashed(content: Option<Bytes>): Option<Digest>
  {
    if content.Some? then Some(Sha256(content.value)) else None
  }

  /** What the files themselves give to refuse for, once both were read. */
  function ReadReasons(facts: Facts, name: string, imagePath: string, end: Option<nat>, backupBytes: nat,
                       digest: Option<Digest>, imageDigest: Option<Digest>): seq<Reason>
  {
    If(digest.None?, BackupUnhashed)
    + if facts.record.None? then [NoRecord]
      else RecordReasons(facts.record.value, name, imagePath, facts.serial, end, backupBytes, digest, imageDigest)
  }

  lemma SufficientIff(c: Checked, facts: Facts, name: string, present: bool)
    requires present || (c.backupBytes == 0 && c.backupDigest.None?)
    requires c.extent.Some? || c.imageDigest.None?
    ensures var end := if c.extent.Some? then Some(c.extent.value.end) else None;
            var covers := present && end.Some? && c.backupBytes >= end.value;
            var reasons := FileReasons(c.extent, present, covers) + HostReasons(facts)
                           + (if c.extent.Some? then If(c.imageDigest.None?, ImageUnhashed) else [])
                           + (if present
                              then ReadReasons(facts, name, c.image, end, c.backupBytes, c.backupDigest, c.imageDigest)
                              else []);
            Sufficient(c, facts, name) <==> reasons == []
  {}

  /** `verify_backup`. It is sufficient exactly when every one of those things holds. */
  method VerifyBackup(name: string, image: HostFile, imagePath: string, backup: HostFile, facts: Facts)
    returns (r: Result<Checked, Refusal>)
    requires image != backup
    modifies image`looks, backup`looks
    ensures r.Err? <==> var i, b := old(image.looks), old(backup.looks);
                        (image.versions(i).Some? && image.versions(i + 1).None?)
                        || (backup.versions(b).Some? && backup.versions(b + 1).None?)
    ensures r.Err? ==> r.error == Failed
    ensures r.Ok? ==> r.value.image == imagePath && (r.value.sufficient <==> Sufficient(r.value, facts, name))
    ensures r.Ok? ==> (r.value.sufficient <==> r.value.blocking == [])
    // What it reports is what its looks at the two files found.
    ensures r.Ok? ==>
              var i, b, c := old(image.looks), old(backup.looks), r.value;
              && (c.extent.Some? <==> image.versions(i).Some?)
              && (c.extent.Some? ==>
                    && image.versions(i + 1).Some? && c.extent.value.length == |image.versions(i + 1).value|
                    && c.extent.value.length <= c.extent.value.end
                    && c.extent.value.end ==
                       RoundedUp(c.extent.value.length, Max(facts.sectorBytes, WRITE_GRANULARITY_FLOOR))
                    && c.imageDigest == Hashed(image.versions(i + 2)))
              && (c.extent.None? ==> c.imageDigest.None?)
              && (c.extent.Some? ==> image.looks == i + 3)
              && (backup.versions(b).Some? ==>
                    && backup.versions(b + 1).Some? && c.backupBytes == |backup.versions(b + 1).value|
                    && c.backupDigest == Hashed(backup.versions(b + 2)))
              && (backup.versions(b).None? ==> c.backupBytes == 0 && c.backupDigest.None?)
  {
    hide FileReasons, HostReasons, ReadReasons, Sufficient, RoundedUp;
    var measured := WriteExtent(image, facts.sectorBytes);
    if measured.Err? { return Err(measured.error); }
    var extent := measured.value;
    var end := if extent.Some? then Some(extent.value.end) else None;
    var isFile := backup.Look();
    var present := isFile.Some?;
    var backupBytes := 0;
    if present {
      var sized := backup.Look();
      if sized.None? { return Err(Failed); }
      backupBytes := |sized.value|;
    }
    var covers := present && end.Some? && backupBytes >= end.value;
    var reasons := FileReasons(extent, present, covers) + HostReasons(facts);
    var imageDigest: Option<Digest> := None;
    if extent.Some? {
      var content := image.Look();
      imageDigest := Hashed(content);
      reasons := reasons + If(content.None?, ImageUnhashed);
    }
    var digest: Option<Digest> := None;
    if present {
      var content := backup.Look();
      digest := Hashed(content);
      reasons := reasons + ReadReasons(facts, name, imagePath, end, backupBytes, digest, imageDigest);
    }
    var sufficient := covers && facts.onHostStorage.Some? && facts.onHostStorage.value && reasons == [];
    var checked := Checked(imagePath, extent, imageDigest, backupBytes, digest, reasons, sufficient);
    SufficientIff(checked, facts, name, present);
    return Ok(checked);
  }

  // -------------------------------------------------------------------------- write

  /** How far a write got. `Broken` is an error in the middle of the copy, after `at` bytes had
      landed. */
  datatype Written = Nothing(why: Refusal) | Broken(at: nat) | Whole(length: nat)

  function Reach(w: Written): nat
  {
    match w
    case Nothing(_) => 0
    case Broken(at) => at
    case Whole(length) => length
  }

  /** `before` with the first `n` bytes of `payload` written over it. */
  function Over(payload: Bytes, before: Bytes, n: nat): Bytes
    requires n <= |payload| <= |before|
  {
    payload[..n] + before[n..]
  }

  /** `n` more bytes written where the last stopped. */
  lemma OverMore(payload: Bytes, before: Bytes, at: nat, n: nat, after: Bytes)
    requires at + n <= |payload| <= |before| == |after|
    requires forall i :: 0 <= i < |before| ==>
               after[i] == if at <= i < at + n then payload[i] else Over(payload, before, at)[i]
    ensures after == Over(payload, before, at + n)
  {}

  lemma OverStarts(payload: Bytes, before: Bytes)
    requires |payload| <= |before|
    ensures Over(payload, before, 0) == before
  {}

  /** One piece of the copy. */
  method PutPiece(device: array<Byte>, payload: Bytes, at: nat, n: nat, ghost before: Bytes)
    requires at + n <= |payload| <= device.Length == |before| && device[..] == Over(payload, before, at)
    modifies device
    ensures device[..] == Over(payload, before, at + n)
  {
    hide Over;
    ghost var now := device[..];
    forall i | 0 <= i < n { device[at + i] := payload[at + i]; }
    assert forall i :: 0 <= i < |before| ==> device[..][i] == if at <= i < at + n then payload[i] else now[i];
    OverMore(payload, before, at, n, device[..]);
  }

  /** The copy loop, in pieces of at most 4 MiB. Piece `k` may fail; `fails(k)` then says how
      much of it had landed. */
  method CopyOut(device: array<Byte>, payload: Bytes, fails: nat -> Option<nat>) returns (w: Written)
    requires |payload| <= device.Length
    modifies device
    ensures w == Whole(|payload|) || (w.Broken? && w.at <= |payload|)
    ensures device[..] == Over(payload, old(device[..]), Reach(w))
    ensures (forall k :: fails(k).None?) ==> w == Whole(|payload|)
  {
    hide Over;
    ghost var before := device[..];
    OverStarts(payload, before);
    var written, writes := 0, 0;
    while written < |payload|
      invariant 0 <= written <= |payload| && device[..] == Over(payload, before, written)
    {
      var size := Min(4 * MIB, |payload| - written);
      if fails(writes).Some? {
        var landed := Min(fails(writes).value, size);
        PutPiece(device, payload, written, landed, before);
        return Broken(written + landed);
      }
      PutPiece(device, payload, written, size, before);
      written, writes := written + size, writes + 1;
    }
    return Whole(|payload|);
  }

  /** What a write's own looks at its image must find: a file no larger than the device, and the
      same bytes when the check hashes it and when it is read to be written. */
  predicate ImageStands(image: nat -> Option<Bytes>, at: nat, deviceSize: nat)
  {
    && image(at).Some? && image(at + 1).Some? && image(at + 2).Some?
    && image(at + 3).Some? && image(at + 4).Some? && image(at + 5).Some?
    && |image(at + 1).value| == |image(at + 3).value| == |image(at + 4).value| <= deviceSize
    && image(at + 5) == image(at + 4)
  }

  /** ... and its looks at the backup: a sufficient one, as its check defines it. */
  predicate BackupStands(image: nat -> Option<Bytes>, i: nat, backup: nat -> Option<Bytes>, b: nat, path: string,
                         facts: Facts, name: string)
    requires image(i + 3).Some?
  {
    && backup(b).Some? && backup(b + 1).Some?
    && Sufficient(Checked(path, Some(Extent(|image(i + 3).value|, EndOf(image(i + 3).value, facts))),
                          Hashed(image(i + 4)), |backup(b + 1).value|, Hashed(backup(b + 2)), [], true), facts, name)
  }

  /** Nothing but what the verification read decides whether the backup is sufficient. */
  lemma SufficientAsRead(c: Checked, path: string, length: nat, facts: Facts, name: string,
                         image: nat -> Option<Bytes>, i: nat, backup: nat -> Option<Bytes>, b: nat)
    requires c.image == path && c.extent.Some? && c.extent.value.length == length
    requires image(i + 3).Some? && length == |image(i + 3).value|
    requires c.extent.value.end == RoundedUp(length, Max(facts.sectorBytes, WRITE_GRANULARITY_FLOOR))
    requires c.imageDigest == Hashed(image(i + 4))
    requires backup(b).Some? ==>
               && backup(b + 1).Some? && c.backupBytes == |backup(b + 1).value|
               && c.backupDigest == Hashed(backup(b + 2))
    requires backup(b).None? ==> c.backupDigest.None?
    ensures Sufficient(c, facts, name) <==> BackupStands(image, i, backup, b, path, facts, name)
  {
    hide RoundedUp;
  }

  /** What the record of a sufficient backup says of the image it was taken for. */
  lemma SufficientNames(image: nat -> Option<Bytes>, i: nat, backup: nat -> Option<Bytes>, b: nat, path: string,
                        facts: Facts, name: string)
    requires image(i + 3).Some? && BackupStands(image, i, backup, b, path, facts, name)
    ensures image(i + 4).Some? && backup(b + 2).Some? && facts.record.Some?
    ensures var record := facts.record.value;
            && record.imageSha256 == Sha256(image(i + 4).value) && record.sha256 == Sha256(backup(b + 2).value)
            && record.extentEnd == Some(EndOf(image(i + 3).value, facts))
            && |image(i + 3).value| <= record.extentEnd.value
            && record.device == name && record.serial == facts.serial && record.image == path != ""
            && record.bytes.Some? && record.bytes.value >= record.extentEnd.value
            && facts.preflight.Safe? && facts.onHostStorage == Some(true)
  {
    RoundedUpCovers(|image(i + 3).value|, Max(facts.sectorBytes, WRITE_GRANULARITY_FLOOR));
  }

  /** What is read past the size of the file shows that it grew. */
  lemma SameBytes(content: Bytes, length: nat, hashed: Option<Bytes>)
    ensures var payload := content[..Min(length + 1, |content|)];
            |payload| == length && Some(Sha256(payload)) == Hashed(hashed)
            <==> |content| == length && hashed == Some(content)
  {
    assert content[..|content|] == content;
  }

  /** The first checks: the device, the operator, and the image's size. */
  method CheckRequest(image: HostFile, first: Preflight, typedSerial: string, acknowledged: bool)
    returns (r: Result<nat, Refusal>)
    modifies image`looks
    ensures var there, sized := image.versions(old(image.looks)), image.versions(old(image.looks) + 1);
            && (r.Ok? <==>
                && first.Safe? && first.agrees && acknowledged && typedSerial == first.serial
                && there.Some? && sized.Some? && |sized.value| <= first.size)
            && (r.Ok? ==> r.value == |sized.value| && image.looks == old(image.looks) + 2)
  {
    if first.Unsafe? { return Err(NotSafe); }
    if !first.agrees { return Err(NoAgreement); }
    if !acknowledged { return Err(NotAcknowledged); }
    if typedSerial != first.serial { return Err(WrongSerial); }
    var isFile := image.Look();
    if isFile.None? { return Err(NotAFile); }
    var sized := image.Look();
    if sized.None? { return Err(Failed); }
    if |sized.value| > first.size { return Err(TooLarge); }
    return Ok(|sized.value|);
  }

  /** Every check of `write_image`, in its order: the bytes to write when all of them pass. */
  method CheckWrite(name: string, image: HostFile, imagePath: string, workImage: HostFile, workPath: string,
                    backup: HostFile, first: Preflight, facts: Facts, typedSerial: string, acknowledged: bool,
                    privileged: bool)
    returns (r: Result<Bytes, Refusal>)
    requires image != backup && workImage != backup && (imagePath == workPath ==> image == workImage)
    modifies image`looks, workImage`looks, backup`looks
    ensures r.Ok? <==>
              && first.Safe? && first.agrees && acknowledged && typedSerial == first.serial && privileged
              && imagePath == workPath
              && ImageStands(image.versions, old(image.looks), first.size)
              && BackupStands(image.versions, old(image.looks), backup.versions, old(backup.looks), imagePath, facts,
                              name)
    ensures r.Ok? ==> Some(r.value) == image.versions(old(image.looks) + 4)
  {
    hide Sufficient, RoundedUp, BackupStands, Hashed;
    ghost var i, b := image.looks, backup.looks;
    var requested := CheckRequest(image, first, typedSerial, acknowledged);
    if requested.Err? { return Err(requested.error); }
    var length := requested.value;
    var verified := VerifyBackup(name, workImage, workPath, backup, facts);
    if verified.Err? {
      if imagePath == workPath && image.versions(i + 3).Some? {
        UnreadBackup(image.versions, i, backup.versions, b, imagePath, facts, name);
      }
      return Err(Failed);
    }
    var checked := verified.value;
    if checked.image != imagePath { return Err(WrongImage); }
    if checked.extent.None? || checked.extent.value.length != length { return Err(SizeChanged); }
    SufficientAsRead(checked, imagePath, length, facts, name, image.versions, i, backup.versions, b);
    if !checked.sufficient { return Err(NotCovered); }
    SufficientNames(image.versions, i, backup.versions, b, imagePath, facts, name);
    var content := image.Look();
    if content.None? { return Err(Failed); }
    var payload := content.value[..Min(length + 1, |content.value|)];
    SameBytes(content.value, length, image.versions(i + 4));
    if |payload| != length || Some(Sha256(payload)) != checked.imageDigest { return Err(ImageChanged); }
    assert payload == content.value;
    if !privileged { return Err(NoPrivilege); }
    return Ok(payload);
  }

  lemma UnreadBackup(image: nat -> Option<Bytes>, i: nat, backup: nat -> Option<Bytes>, b: nat, path: string,
                     facts: Facts, name: string)
    requires image(i + 3).Some? && backup(b).Some? && backup(b + 1).None?
    ensures !BackupStands(image, i, backup, b, path, facts, name)
  {}

  /** `write_image`. Whatever the files do in between: it writes exactly when every check passes;
      what is written is a prefix of bytes that hash to the image the backup's record names, whole
      unless the device failed, and it stays inside the extent the backup covers. */
  method WriteImage(device: array<Byte>, name: string, image: HostFile, imagePath: string, workImage: HostFile,
                    workPath: string, backup: HostFile, first: Preflight, facts: Facts, typedSerial: string,
                    acknowledged: bool, privileged: bool, fails: nat -> Option<nat>)
    returns (w: Written)
    requires image != backup && workImage != backup && (imagePath == workPath ==> image == workImage)
    requires first.Safe? ==> first.size == device.Length
    modifies device, image`looks, workImage`looks, backup`looks
    ensures !w.Nothing? <==>
              && first.Safe? && first.agrees && acknowledged && typedSerial == first.serial && privileged
              && imagePath == workPath
              && ImageStands(image.versions, old(image.looks), first.size)
              && BackupStands(image.versions, old(image.looks), backup.versions, old(backup.looks), imagePath, facts,
                              name)
    ensures w.Nothing? ==> device[..] == old(device[..])
    ensures !w.Nothing? ==>
              && facts.record.Some? && facts.record.value.extentEnd.Some? && facts.record.value.imageSha256.Sha256?
              && facts.record.value.device == name && facts.record.value.serial == facts.serial
              && facts.record.value.image == imagePath && facts.record.value.bytes.Some?
              && facts.record.value.bytes.value >= facts.record.value.extentEnd.value
              && facts.preflight.Safe? && facts.onHostStorage == Some(true)
              && var payload := facts.record.value.imageSha256.message;
              && image.versions(old(image.looks) + 4) == Some(payload)
              && |payload| <= device.Length
              && |payload| <= facts.record.value.extentEnd.value
              && (w == Whole(|payload|) || (w.Broken? && w.at <= |payload|))
              && ((forall k :: fails(k).None?) ==> w == Whole(|payload|))
              && device[..] == payload[..Reach(w)] + old(device[..])[Reach(w)..]
              && backup.versions(old(backup.looks) + 2).Some?
              && facts.record.value.sha256 == Sha256(backup.versions(old(backup.looks) + 2).value)
  {
    hide BackupStands;
    ghost var i, b := image.looks, backup.looks;
    var checked := CheckWrite(name, image, imagePath, workImage, workPath, backup, first, facts, typedSerial,
                              acknowledged, privileged);
    if checked.Err? { return Nothing(checked.error); }
    SufficientNames(image.versions, i, backup.versions, b, imagePath, facts, name);
    w := CopyOut(device, checked.value, fails);
  }

  // --------------------------------------------------------------------------- undo

  /** The restore: the backup copied back to the start of the device. */
  method CopyBack(device: array<Byte>, backup: Bytes)
    requires |backup| <= device.Length
    modifies device
    ensures device[..] == backup + old(device[..])[|backup|..]
  {
    forall i | 0 <= i < |backup| { device[i] := backup[i]; }
  }

  /** The file answers every look with `content`. */
  ghost predicate Holds(versions: nat -> Option<Bytes>, content: Bytes)
  {
    forall k :: versions(k) == Some(content)
  }

  /** What else a write needs when its files do not change. */
  predicate MayWrite(probe: Facts, first: Preflight, later: Facts, typedSerial: string, acknowledged: bool,
                     privileged: bool)
  {
    && probe.preflight.Safe? && later.preflight.Safe? && later.serial == probe.preflight.serial
    && later.sectorBytes == probe.sectorBytes && later.onHostStorage == Some(true)
    && first.Safe? && first.agrees && acknowledged && typedSerial == first.serial && privileged
  }

  /** Files that stay as they were at the backup pass every check of the write. */
  lemma UnchangedStands(image: nat -> Option<Bytes>, i: nat, backup: nat -> Option<Bytes>, b: nat, path: string,
                        facts: Facts, name: string, content: Bytes, region: Bytes, size: nat)
    requires Holds(image, content) && Holds(backup, region) && facts.record.Some?
    requires var record := facts.record.value;
             && TrueOf(record, region) && record.device == name && record.image == path != ""
             && record.serial == facts.serial && record.imageSha256 == Sha256(content)
    requires |region| == EndOf(content, facts) && |content| <= size
    requires facts.preflight.Safe? && facts.onHostStorage == Some(true)
    ensures ImageStands(image, i, size) && BackupStands(image, i, backup, b, path, facts, name)
  {
    hide RoundedUp;
  }

  /** Back up, let anything happen to the device and the files, write, and copy back whatever
      the backup file held when the write's own check read it: the region is what it was at
      backup time and the rest what it was just before the write, however far the write got. */
  method BackUpWriteRestore(device: array<Byte>, name: string, image: HostFile, imagePath: string, workImage: HostFile,
                            workPath: string, backup: HostFile, probe: Facts, cuts: nat -> nat, meanwhile: Bytes,
                            first: Preflight, later: Facts, typedSerial: string, acknowledged: bool, privileged: bool,
                            fails: nat -> Option<nat>)
    returns (copied: Result<(Bytes, BackupRecord), Refusal>, w: Written)
    requires image != backup && workImage != backup && (imagePath == workPath ==> image == workImage)
    requires first.Safe? ==> first.size == device.Length
    requires |meanwhile| == device.Length
    modifies device, image`looks, workImage`looks, backup`looks
    ensures copied.Err? ==> device[..] == old(device[..])
    ensures copied.Ok? && w.Nothing? ==> device[..] == meanwhile
    ensures copied.Ok? && !w.Nothing? ==>
              |copied.value.0| <= device.Length &&
              var region := old(device[..])[..|copied.value.0|];
              && copied.value.0 == region
              && device[..] == region + meanwhile[|region|..]
              && Reach(w) <= |region|
    ensures copied.Ok? && MayWrite(probe, first, later, typedSerial, acknowledged, privileged)
              && imagePath == workPath != "" && (forall k :: fails(k).None?) ==>
              forall content :: Holds(image.versions, content) && Holds(backup.versions, copied.value.0) ==>
                w == Whole(|content|)
  {
    hide ImageStands, BackupStands, BackupGoes, RoundedUp;
    w := Nothing(Failed);
    var checked := backup.looks;
    copied := BackupRegion(device, name, workImage, workPath, probe, cuts);
    if copied.Err? { return; }
    var copy, record := copied.value.0, copied.value.1;
    ghost var looks := image.looks;
    forall i | 0 <= i < device.Length { device[i] := meanwhile[i]; }
    assert device[..] == meanwhile;
    w := WriteImage(device, name, image, imagePath, workImage, workPath, backup, first, later.(record := Some(record)),
                    typedSerial, acknowledged, privileged, fails);
    forall content | Holds(image.versions, content) && Holds(backup.versions, copy) && imagePath == workPath != ""
                     && MayWrite(probe, first, later, typedSerial, acknowledged, privileged)
      ensures !w.Nothing? && image.versions(looks + 4) == Some(content)
    {
      UnchangedStands(image.versions, looks, backup.versions, checked, imagePath, later.(record := Some(record)), name,
                      content, copy, first.size);
    }
    if !w.Nothing? {
      ghost var written := device[..];
      var held := backup.versions(checked + 2).value;
      CopyBack(device, held);
      assert written[|copy|..] == meanwhile[|copy|..];
    }
  }
}
