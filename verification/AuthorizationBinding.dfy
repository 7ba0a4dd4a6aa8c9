/** What an authorization binds, and the comparisons both processes make from the same code
    (core/authorization.py). */
module AuthorizationBinding {

  import opened Digests
  import opened Workflow

  // ----------------------------------------------------------------- identities

  datatype Identity = Identity(path: string, serial: string, model: string, sizeBytes: int)

  /** An identity as a stored record holds it: a field may be missing. */
  datatype RecordedIdentity = RecordedIdentity(
    path: Option<string>, serial: Option<string>, model: Option<string>, sizeBytes: Option<int>)

  function Recorded(i: Identity): RecordedIdentity
  {
    RecordedIdentity(Some(i.path), Some(i.serial), Some(i.model), Some(i.sizeBytes))
  }

  /** Which of the approved device's fields the fresh reading no longer has. */
  function IdentityDrift(recorded: RecordedIdentity, now: Identity): (drift: seq<Reason>)
    ensures drift == [] <==> recorded == Recorded(now)
  {
    If(recorded.path != Some(now.path), IdentityChanged("path"))
    + If(recorded.serial != Some(now.serial), IdentityChanged("serial"))
    + If(recorded.model != Some(now.model), IdentityChanged("model"))
    + If(recorded.sizeBytes != Some(now.sizeBytes), IdentityChanged("size_bytes"))
  }

  // --------------------------------------------------------------------- probes

  datatype DeviceRead = DeviceRead(identity: Identity, isSystemDisk: bool, mountedAt: seq<string>)

  /** `achievable` is compared sorted, so only how often each level occurs matters. */
  datatype Capabilities = Capabilities(achievable: multiset<string>, limitations: seq<string>)

  datatype Probe = Probe(device: DeviceRead, caps: Option<Capabilities>)

  // ---------------------------------------------------------------------- plans

  datatype PlanBlock = NotAchievable(level: string, achievable: multiset<string>)

  /** The lists of an approved plan; a stored one may lack any of them. */
  datatype ErasePlan = ErasePlan(
    level: string, achievable: Option<multiset<string>>, limitations: Option<seq<string>>,
    blocking: Option<seq<PlanBlock>>)

  function Achievable(probe: Probe): multiset<string>
  {
    if probe.caps.Some? then probe.caps.value.achievable else multiset{}
  }

  function BuildPlan(probe: Probe, level: string): (plan: ErasePlan)
    ensures probe.caps.Some? ==>
              && plan.achievable == Some(probe.caps.value.achievable)
              && plan.limitations == Some(probe.caps.value.limitations)
    ensures plan.blocking == Some([]) <==> probe.caps.Some? && level in probe.caps.value.achievable
  {
    var achievable := Achievable(probe);
    ErasePlan(level, Some(achievable),
              Some(if probe.caps.Some? then probe.caps.value.limitations else []),
              Some(if level in achievable then [] else [NotAchievable(level, achievable)]))
  }

  function PlanDriftOf(recorded: ErasePlan, now: ErasePlan): (drift: seq<Reason>)
    ensures drift == [] <==>
              && recorded.achievable == now.achievable
              && recorded.limitations == now.limitations
              && recorded.blocking == now.blocking
  {
    If(recorded.achievable != now.achievable, PlanListChanged("achievable_levels"))
    + If(recorded.limitations != now.limitations, PlanListChanged("limitations"))
    + If(recorded.blocking != now.blocking, PlanListChanged("blocking"))
  }

  // -------------------------------------------------------------------- backups

  /** The backup a record names; a field may be missing (records written before it existed). */
  datatype BackupRef = BackupRef(
    backupId: string, path: string, sizeBytes: Option<int>, mtimeNs: Option<int>, ctimeNs: Option<int>,
    inode: Option<int>)

  datatype ImageStat = ImageStat(size: int, mtimeNs: int, ctimeNs: int, inode: int)

  predicate SameImage(backup: BackupRef, s: ImageStat)
  {
    && backup.sizeBytes == Some(s.size)
    && backup.mtimeNs == Some(s.mtimeNs)
    && backup.ctimeNs == Some(s.ctimeNs)
    && backup.inode == Some(s.inode)
  }

  /** `stat` is `None` when the image cannot be read. */
  function BackupDrift(backup: BackupRef, stat: Option<ImageStat>, deviceSize: int): (drift: seq<Reason>)
    ensures drift == [] <==>
            && stat.Some? && stat.value.size >= deviceSize > 0
            && backup.sizeBytes == Some(stat.value.size) && backup.mtimeNs == Some(stat.value.mtimeNs)
            && backup.ctimeNs == Some(stat.value.ctimeNs) && backup.inode == Some(stat.value.inode)
  {
    if stat.None? then [BackupUnreadable]
    else if SameImage(backup, stat.value) && stat.value.size >= deviceSize > 0 then []
    else [BackupChanged]
  }

  function ImageDrift(backup: BackupRef, stat: Option<ImageStat>): (drift: seq<Reason>)
    ensures drift == [] <==>
            && stat.Some?
            && backup.sizeBytes == Some(stat.value.size) && backup.mtimeNs == Some(stat.value.mtimeNs)
            && backup.ctimeNs == Some(stat.value.ctimeNs) && backup.inode == Some(stat.value.inode)
  {
    if stat.None? then [BackupUnreadable]
    else if SameImage(backup, stat.value) then []
    else [ImageChanged]
  }

  // ---------------------------------------------------------------------- kinds

  /** A missing or empty kind is an erase authorization; any other text is itself. */
  function AuthorizationKind(kind: string): string
  {
    if kind == "" then "erase" else kind
  }

  function KindMismatch(kind: string, expected: string): seq<Reason>
  {
    If(AuthorizationKind(kind) != expected, WrongKind)
  }

  predicate LowerHex(c: char)
  {
    '0' <= c <= '9' || 'a' <= c <= 'f'
  }

  /** `auth-` and sixteen lower-case hex digits. */
  predicate IsAuthId(s: string)
  {
    |s| == 21 && s[..5] == "auth-" && forall i :: 5 <= i < 21 ==> LowerHex(s[i])
  }

  /** Where the pattern's `$` matches: at the end, and before a newline that ends the text. */
  predicate DollarAt(s: string, i: nat)
  {
    i == |s| || (i + 1 == |s| && s[i] == '\n')
  }

  /** What matching the pattern from the start of the text accepts. */
  predicate MatchesAuthId(s: string)
  {
    |s| >= 21 && s[..5] == "auth-" && (forall i :: 5 <= i < 21 ==> LowerHex(s[i])) && DollarAt(s, 21)
  }

  /** The pattern accepts the ids, and each id with one newline after it, and nothing else. */
  lemma AcceptedIds(s: string)
    ensures MatchesAuthId(s) <==> IsAuthId(s) || exists id :: IsAuthId(id) && s == id + "\n"
    ensures IsAuthId(s) <==> |s| == 21 && s[..5] == "auth-" && forall i :: 5 <= i < 21 ==> s[i] in "0123456789abcdef"
  {
    forall c ensures LowerHex(c) <==> c in "0123456789abcdef" { HexDigits(c); }
    if MatchesAuthId(s) && !IsAuthId(s) {
      var id := s[..21];
      assert id[..5] == s[..5];
      assert s == id + "\n";
    }
    if id :| IsAuthId(id) && s == id + "\n" {
      assert s[..5] == id[..5];
      assert forall i :: 5 <= i < 21 ==> s[i] == id[i];
    }
  }

  lemma HexDigits(c: char)
    ensures LowerHex(c) <==> c in "0123456789abcdef"
  {
    var digits := "0123456789abcdef";
    if '0' <= c <= '9' { assert digits[c as int - '0' as int] == c; }
    if 'a' <= c <= 'f' { assert digits[10 + c as int - 'a' as int] == c; }
  }

  lemma NewlineAccepted() returns (s: string)
    ensures MatchesAuthId(s) && !IsAuthId(s)
  {
    s := "auth-0123456789abcdef\n";
    assert s[..5] == "auth-";
  }
}
