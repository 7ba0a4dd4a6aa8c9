/** Many API requests and many helper requests over one directory of authorizations, with an
    environment that changes devices, images and approvals between any two of their steps.

    Every step below is one read or one exclusive create; a request's steps interleave with
    everybody else's in any order. */
module AuthorizationProtocol {

  import opened Digests
  import opened AuthorizationBinding
  import opened Gates

  /** Where an API request stands. */
  datatype ApiRequest =
    | ApiStart(kind: Kind, authId: string, path: string, level: string)
    | ApiProbed(kind: Kind, authId: string, path: string, level: string, probe: Probe)
    | ApiFound(kind: Kind, authId: string, path: string, level: string, probe: Probe, record: AuthRecord)
    | ApiLoaded(kind: Kind, authId: string, path: string, level: string, probe: Probe, record: AuthRecord)
    | ApiJudged(kind: Kind, authId: string, record: AuthRecord)
    | ApiPassed(kind: Kind, authId: string, record: AuthRecord)
    | ApiRefused

  /** Where a helper request stands; `HelperStarted` is the engine running. */
  datatype HelperRequest =
    | HelperStart(kind: Kind, q: Request)
    | HelperLoaded(kind: Kind, q: Request, record: AuthRecord)
    | HelperChecked(kind: Kind, q: Request, record: AuthRecord)
    | HelperProbed(kind: Kind, q: Request, record: AuthRecord, probe: Probe)
    | HelperJudged(kind: Kind, q: Request, record: AuthRecord, probe: Probe)
    | HelperStarted(kind: Kind, q: Request, record: AuthRecord, probe: Probe)
    | HelperRefused

  /** The markers name the request that created them. */
  datatype World = World(
    records: map<string, AuthRecord>,
    spent: map<string, nat>,
    executed: map<string, nat>,
    devices: map<string, Probe>,
    images: map<string, ImageStat>,
    api: map<nat, ApiRequest>,
    helper: map<nat, HelperRequest>)

  datatype Action =
    | OpenRecord(id: string, record: AuthRecord)
    | Approve(id: string, who: string)
    | ChangeDevice(path: string, probe: Option<Probe>)
    | ChangeImage(path: string, stat: Option<ImageStat>)
    | ApiArrives(request: nat, apiKind: Kind, authId: string, path: string, level: string)
    | ApiStep(request: nat, verdict: bool)
    | HelperArrives(request: nat, helperKind: Kind, q: Request)
    | HelperStep(request: nat, verdict: bool)

  function Lookup<V>(m: map<string, V>, key: string): Option<V>
  {
    if key in m then Some(m[key]) else None
  }

  /** The API's verdict: the erase gate as it is; of the other kinds' gates only that they
      demand an approval of a record of their kind. */
  predicate ApiVerdict(k: Kind, r: AuthRecord, path: string, probe: Probe, stat: Option<ImageStat>, level: string,
                       verdict: bool)
  {
    if k == Erase then ApiAdmits(r, path, probe, stat, level)
    else verdict && AuthorizationKind(r.kind) == KindName(k) && r.approvedBy != ""
  }

  /** The helper's verdict on what it read: the erase seam as it is; of the other seams only
      that they demand the recorded identity. */
  predicate HostVerdict(k: Kind, q: Request, r: AuthRecord, probe: Probe, stat: Option<ImageStat>, verdict: bool)
  {
    if k == Erase then EraseHostHolds(r, probe, stat, q.level)
    else verdict && IdentityDrift(r.device, probe.device.identity) == []
  }

  /** What an API request's next step makes of it: one read or one exclusive create. */
  function NextApi(w: World, a: ApiRequest, verdict: bool): ApiRequest
  {
    match a
    case ApiStart(k, id, path, level) =>
      if path in w.devices then ApiProbed(k, id, path, level, w.devices[path]) else ApiRefused
    case ApiProbed(k, id, path, level, probe) =>
      if MatchesAuthId(id) && id in w.records && AuthorizationKind(w.records[id].kind) == KindName(k)
      then ApiFound(k, id, path, level, probe, w.records[id])
      else ApiRefused
    case ApiFound(k, id, path, level, probe, r) =>
      if id in w.spent then ApiRefused else ApiLoaded(k, id, path, level, probe, r)
    case ApiLoaded(k, id, path, level, probe, r) =>
      if ApiVerdict(k, r, path, probe, Lookup(w.images, r.backup.path), level, verdict)
      then ApiJudged(k, id, r)
      else ApiRefused
    case ApiJudged(k, id, r) => if id in w.spent then ApiRefused else ApiPassed(k, id, r)
    case _ => a
  }

  function NextHelper(w: World, h: HelperRequest, verdict: bool): HelperRequest
  {
    match h
    case HelperStart(k, q) =>
      if !q.switched && q.binding.Some? && q.hasDirectory && MatchesAuthId(q.binding.value.authId)
         && q.binding.value.authId in w.records
         && AuthorizationKind(w.records[q.binding.value.authId].kind) == KindName(k)
      then HelperLoaded(k, q, w.records[q.binding.value.authId])
      else HelperRefused
    case HelperLoaded(k, q, r) =>
      if PaperHolds(k, q, r, q.binding.Some? && q.binding.value.authId in w.spent)
      then HelperChecked(k, q, r)
      else HelperRefused
    case HelperChecked(k, q, r) =>
      if q.path in w.devices then HelperProbed(k, q, r, w.devices[q.path]) else HelperRefused
    case HelperProbed(k, q, r, probe) =>
      if HostVerdict(k, q, r, probe, Lookup(w.images, r.backup.path), verdict)
      then HelperJudged(k, q, r, probe)
      else HelperRefused
    case HelperJudged(k, q, r, probe) =>
      if q.binding.None? || q.binding.value.authId in w.executed then HelperRefused
      else HelperStarted(k, q, r, probe)
    case _ => h
  }

  /** The step of request `n`; passing creates the spent marker. */
  function StepApi(w: World, n: nat, a: ApiRequest, verdict: bool): World
  {
    var a' := NextApi(w, a, verdict);
    w.(api := w.api[n := a'],
       spent := if a.ApiJudged? && a'.ApiPassed? then w.spent[a.authId := n] else w.spent)
  }

  /** The step of request `n`; starting the engine creates the executed marker. */
  function StepHelper(w: World, n: nat, h: HelperRequest, verdict: bool): World
  {
    var h' := NextHelper(w, h, verdict);
    w.(helper := w.helper[n := h'],
       executed := if h.HelperJudged? && StartedId(h').Some? then w.executed[StartedId(h').value := n]
                   else w.executed)
  }

  /** One atomic step of somebody. An action that is not possible changes nothing. */
  function Apply(w: World, a: Action): World
  {
    match a
    case OpenRecord(id, record) =>
      if id in w.records then w else w.(records := w.records[id := record])
    case Approve(id, who) =>
      if id in w.records && w.records[id].approvedBy == ""
      then w.(records := w.records[id := w.records[id].(approvedBy := who)])
      else w
    case ChangeDevice(path, probe) =>
      w.(devices := if probe.Some? then w.devices[path := probe.value] else w.devices - {path})
    case ChangeImage(path, stat) =>
      w.(images := if stat.Some? then w.images[path := stat.value] else w.images - {path})
    case ApiArrives(n, k, id, path, level) =>
      if n in w.api then w else w.(api := w.api[n := ApiStart(k, id, path, level)])
    case ApiStep(n, verdict) =>
      if n in w.api then StepApi(w, n, w.api[n], verdict) else w
    case HelperArrives(n, k, q) =>
      if n in w.helper then w else w.(helper := w.helper[n := HelperStart(k, q)])
    case HelperStep(n, verdict) =>
      if n in w.helper then StepHelper(w, n, w.helper[n], verdict) else w
  }

  function Run(w: World, actions: seq<Action>): World
  {
    if actions == [] then w
    else Apply(Run(w, actions[..|actions| - 1]), actions[|actions| - 1])
  }

  /** The id whose authorization a started engine runs on. */
  function StartedId(h: HelperRequest): Option<string>
  {
    if h.HelperStarted? && h.q.binding.Some? then Some(h.q.binding.value.authId) else None
  }

  /** Any records, devices and images, but no request yet and no marker. */
  predicate Initial(w: World)
  {
    w.spent == map[] && w.executed == map[] && w.api == map[] && w.helper == map[]
  }

  // ------------------------------------------------------------------ invariant

  /** `now` is `was`, or `was` after it was approved. */
  predicate GainedApproval(was: AuthRecord, now: AuthRecord)
  {
    was == now || (was.approvedBy == "" && was == now.(approvedBy := ""))
  }

  ghost predicate ReadFrom(w: World, id: string, r: AuthRecord)
  {
    id in w.records && GainedApproval(r, w.records[id])
  }

  ghost predicate ApiOk(w: World, n: nat, a: ApiRequest)
  {
    match a
    case ApiFound(k, id, _, _, _, r) => ReadFrom(w, id, r) && AuthorizationKind(r.kind) == KindName(k)
    case ApiLoaded(k, id, _, _, _, r) => ReadFrom(w, id, r) && AuthorizationKind(r.kind) == KindName(k)
    case ApiJudged(k, id, r) => ReadFrom(w, id, r) && AuthorizationKind(r.kind) == KindName(k) && r.approvedBy != ""
    case ApiPassed(k, id, r) =>
      ReadFrom(w, id, r) && AuthorizationKind(r.kind) == KindName(k) && r.approvedBy != ""
      && id in w.spent && w.spent[id] == n
    case _ => true
  }

  ghost predicate Checked(w: World, k: Kind, q: Request, r: AuthRecord)
  {
    && !q.switched && q.hasDirectory && q.binding.Some? && ReadFrom(w, q.binding.value.authId, r)
    && AuthorizationKind(r.kind) == KindName(k)
    && PaperHolds(k, q, r, true) && q.binding.value.authId in w.spent
  }

  /** What the fresh reading said: the recorded device, and for an erase one that may be erased so. */
  predicate HostSeen(k: Kind, q: Request, r: AuthRecord, probe: Probe)
  {
    var now := probe.device.identity;
    && r.device == RecordedIdentity(Some(now.path), Some(now.serial), Some(now.model), Some(now.sizeBytes))
    && (k == Erase ==>
          && !probe.device.isSystemDisk && probe.device.mountedAt == []
          && probe.caps.Some? && q.level in probe.caps.value.achievable
          && EraseLists(r.plan).achievable == Some(probe.caps.value.achievable)
          && EraseLists(r.plan).limitations == Some(probe.caps.value.limitations)
          && EraseLists(r.plan).blocking == Some([]))
  }

  ghost predicate HelperOk(w: World, n: nat, h: HelperRequest)
  {
    match h
    case HelperLoaded(k, q, r) =>
      && !q.switched && q.hasDirectory && q.binding.Some?
      && ReadFrom(w, q.binding.value.authId, r) && AuthorizationKind(r.kind) == KindName(k)
    case HelperChecked(k, q, r) => Checked(w, k, q, r)
    case HelperProbed(k, q, r, _) => Checked(w, k, q, r)
    case HelperJudged(k, q, r, probe) => Checked(w, k, q, r) && HostSeen(k, q, r, probe)
    case HelperStarted(k, q, r, probe) =>
      Checked(w, k, q, r) && HostSeen(k, q, r, probe)
      && q.binding.value.authId in w.executed && w.executed[q.binding.value.authId] == n
    case _ => true
  }

  /** Every marker belongs to a request that passed: a refused request left none. */
  ghost predicate MarkersOk(w: World)
  {
    && (forall id :: id in w.spent ==>
          w.spent[id] in w.api && w.api[w.spent[id]].ApiPassed? && w.api[w.spent[id]].authId == id)
    && (forall id :: id in w.executed ==>
          w.executed[id] in w.helper && w.helper[w.executed[id]].HelperStarted?
          && w.helper[w.executed[id]].q.binding.Some?
          && w.helper[w.executed[id]].q.binding.value.authId == id)
  }

  ghost predicate Inv(w: World)
  {
    && (forall n :: n in w.api ==> ApiOk(w, n, w.api[n]))
    && (forall n :: n in w.helper ==> HelperOk(w, n, w.helper[n]))
    && MarkersOk(w)
  }

  /** What every step keeps: records only gain approvals and markers stay whose they are. */
  predicate Grows(w: World, w': World)
  {
    && (forall id :: id in w.records ==> id in w'.records && GainedApproval(w.records[id], w'.records[id]))
    && (forall id :: id in w.spent ==> id in w'.spent && w'.spent[id] == w.spent[id])
    && (forall id :: id in w.executed ==> id in w'.executed && w'.executed[id] == w.executed[id])
  }

  lemma StillOk(w: World, w': World)
    requires Inv(w) && Grows(w, w')
    ensures forall n :: n in w.api ==> ApiOk(w', n, w.api[n])
    ensures forall n :: n in w.helper ==> HelperOk(w', n, w.helper[n])
  {
    hide PaperHolds, GainedApproval;
    forall id, r | ReadFrom(w, id, r) ensures ReadFrom(w', id, r) {
      ApprovalsCompose(r, w.records[id], w'.records[id]);
    }
    forall n | n in w.api ensures ApiOk(w', n, w.api[n]) {
      assert ApiOk(w, n, w.api[n]);
    }
    forall n | n in w.helper ensures HelperOk(w', n, w.helper[n]) {
      assert HelperOk(w, n, w.helper[n]);
    }
  }

  lemma ApprovalsCompose(a: AuthRecord, b: AuthRecord, c: AuthRecord)
    requires GainedApproval(a, b) && GainedApproval(b, c)
    ensures GainedApproval(a, c)
  {}

  lemma ApiVerdictMeans(k: Kind, r: AuthRecord, path: string, probe: Probe, stat: Option<ImageStat>, level: string,
                        verdict: bool)
    requires ApiVerdict(k, r, path, probe, stat, level, verdict)
    ensures AuthorizationKind(r.kind) == KindName(k) && r.approvedBy != ""
  {
    if k == Erase {
      TwoGatesAgree(r, path, level, probe, stat);
    }
  }

  lemma HostVerdictMeans(k: Kind, q: Request, r: AuthRecord, probe: Probe, stat: Option<ImageStat>, verdict: bool)
    requires HostVerdict(k, q, r, probe, stat, verdict)
    ensures HostSeen(k, q, r, probe)
  {
    if k == Erase { EraseHostMeans(r, probe, stat, q.level); }
  }

  lemma SameRecord(r: AuthRecord)
    ensures GainedApproval(r, r)
  {}

  lemma ApiStepOk(w: World, n: nat, verdict: bool)
    requires n in w.api && ApiOk(w, n, w.api[n])
    ensures ApiOk(StepApi(w, n, w.api[n], verdict), n, NextApi(w, w.api[n], verdict))
  {
    hide GainedApproval, ApiVerdict, AuthorizationKind, KindName, MatchesAuthId;
    var a := w.api[n];
    if a.ApiLoaded? {
      var stat := Lookup(w.images, a.record.backup.path);
      if ApiVerdict(a.kind, a.record, a.path, a.probe, stat, a.level, verdict) {
        ApiVerdictMeans(a.kind, a.record, a.path, a.probe, stat, a.level, verdict);
      }
    }
    if a.ApiProbed? && a.authId in w.records { SameRecord(w.records[a.authId]); }
  }

  lemma NextApiPasses(w: World, a: ApiRequest, verdict: bool)
    ensures a.ApiPassed? ==> NextApi(w, a, verdict) == a
    ensures a.ApiJudged? && NextApi(w, a, verdict).ApiPassed? ==>
              a.authId !in w.spent && NextApi(w, a, verdict).authId == a.authId
  {}

  lemma ApiStepKeeps(w: World, n: nat, verdict: bool)
    requires Inv(w) && n in w.api
    ensures Inv(StepApi(w, n, w.api[n], verdict))
  {
    hide NextApi, ApiOk, HelperOk, GainedApproval;
    NextApiPasses(w, w.api[n], verdict);
    ApiStepOk(w, n, verdict);
    RecordsOnlyGain(w, StepApi(w, n, w.api[n], verdict));
    StillOk(w, StepApi(w, n, w.api[n], verdict));
  }

  lemma HelperStepOk(w: World, n: nat, verdict: bool)
    requires n in w.helper && HelperOk(w, n, w.helper[n])
    ensures HelperOk(StepHelper(w, n, w.helper[n], verdict), n, NextHelper(w, w.helper[n], verdict))
  {
    hide PaperHolds, GainedApproval, HostVerdict, HostSeen, AuthorizationKind, KindName, MatchesAuthId;
    var h := w.helper[n];
    if h.HelperProbed? {
      var stat := Lookup(w.images, h.record.backup.path);
      if HostVerdict(h.kind, h.q, h.record, h.probe, stat, verdict) {
        HostVerdictMeans(h.kind, h.q, h.record, h.probe, stat, verdict);
      }
    }
    if h.HelperStart? && h.q.binding.Some? && h.q.binding.value.authId in w.records {
      SameRecord(w.records[h.q.binding.value.authId]);
    }
    if h.HelperLoaded? { PaperNeedsSpent(h.kind, h.q, h.record); }
  }

  lemma NextHelperStarts(w: World, h: HelperRequest, verdict: bool)
    ensures h.HelperStarted? ==> NextHelper(w, h, verdict) == h
    ensures h.HelperJudged? && StartedId(NextHelper(w, h, verdict)).Some? ==>
              StartedId(NextHelper(w, h, verdict)).value !in w.executed
  {
    hide PaperHolds, HostVerdict, AuthorizationKind, KindName, MatchesAuthId;
  }

  lemma HelperStepKeeps(w: World, n: nat, verdict: bool)
    requires Inv(w) && n in w.helper
    ensures Inv(StepHelper(w, n, w.helper[n], verdict))
  {
    hide NextHelper, ApiOk, HelperOk, GainedApproval;
    NextHelperStarts(w, w.helper[n], verdict);
    HelperStepOk(w, n, verdict);
    RecordsOnlyGain(w, StepHelper(w, n, w.helper[n], verdict));
    StillOk(w, StepHelper(w, n, w.helper[n], verdict));
  }

  lemma PaperNeedsSpent(k: Kind, q: Request, r: AuthRecord)
    ensures !PaperHolds(k, q, r, false)
  {}

  lemma RecordsOnlyGain(w: World, w': World)
    requires w.records == w'.records
    ensures forall id :: id in w.records ==> GainedApproval(w.records[id], w'.records[id])
  {}

  lemma EnvironmentGrows(w: World, a: Action)
    requires !a.ApiStep? && !a.HelperStep?
    ensures Grows(w, Apply(w, a))
  {
    hide StepApi, StepHelper, GainedApproval;
    RecordsOnlyGain(w, w);
    if a.Approve? && a.id in w.records { Approved(w.records[a.id], a.who); }
  }

  lemma Approved(r: AuthRecord, who: string)
    ensures r.approvedBy == "" ==> GainedApproval(r, r.(approvedBy := who))
  {}

  /** A request that has just arrived owes nothing. */
  lemma ArrivalOk(w: World, n: nat, a: ApiRequest, h: HelperRequest)
    ensures a.ApiStart? ==> ApiOk(w, n, a)
    ensures h.HelperStart? ==> HelperOk(w, n, h)
  {}

  lemma EnvironmentKeeps(w: World, a: Action)
    requires Inv(w) && !a.ApiStep? && !a.HelperStep?
    ensures Inv(Apply(w, a))
  {
    hide StepApi, StepHelper, ApiOk, HelperOk, Grows;
    var w' := Apply(w, a);
    EnvironmentGrows(w, a);
    StillOk(w, w');
    match a {
      case ApiArrives(n, k, id, path, level) => ArrivalOk(w', n, ApiStart(k, id, path, level), HelperRefused);
      case HelperArrives(n, k, q) => ArrivalOk(w', n, ApiRefused, HelperStart(k, q));
      case _ =>
    }
  }

  lemma ApplyKeeps(w: World, a: Action)
    requires Inv(w)
    ensures Inv(Apply(w, a))
  {
    hide StepApi, StepHelper, Inv;
    match a {
      case ApiStep(n, verdict) => if n in w.api { ApiStepKeeps(w, n, verdict); }
      case HelperStep(n, verdict) => if n in w.helper { HelperStepKeeps(w, n, verdict); }
      case _ => EnvironmentKeeps(w, a);
    }
  }

  lemma {:induction false} RunKeeps(w: World, actions: seq<Action>)
    requires Initial(w)
    ensures Inv(Run(w, actions))
  {
    if actions != [] {
      RunKeeps(w, actions[..|actions| - 1]);
      ApplyKeeps(Run(w, actions[..|actions| - 1]), actions[|actions| - 1]);
    }
  }

  // -------------------------------------------------------------------- theorem

  /** The texts a record of each kind is stored with. */
  predicate StoredAs(k: Kind, text: string)
  {
    match k
    case Erase => text == "erase" || text == ""
    case RestoreKind => text == "restore"
    case Hpa => text == "hpa"
    case Format => text == "format"
  }

  /** Request `n`'s engine runs on an authorization of its own kind that is approved, was
      spent by a request that passed the API's gate of that kind, binds exactly what was
      asked for, and names the device read. */
  ghost predicate StartedProperly(w: World, n: nat, h: HelperRequest)
    requires h.HelperStarted?
  {
    && !h.q.switched && h.q.binding.Some? && h.q.hasDirectory
    && var (id, bound) := (h.q.binding.value.authId, h.q.binding.value);
    && id in w.records
    && var r := w.records[id];
    && StoredAs(h.kind, r.kind) && r.approvedBy != ""
    && h.q.path == r.path && (h.kind == Erase ==> h.q.level == r.level)
    && bound.device == r.device && bound.plan == r.plan && (h.kind != Format ==> bound.backup == r.backup)
    && (h.kind == Hpa ==> r.backup.backupId != "")
    && HostSeen(h.kind, h.q, r, h.probe)
    && id in w.executed && w.executed[id] == n
    && id in w.spent && w.spent[id] in w.api
    && w.api[w.spent[id]].ApiPassed? && w.api[w.spent[id]].authId == id
    && w.api[w.spent[id]].kind == h.kind
  }

  lemma ApprovalKeepsTheRest(was: AuthRecord, now: AuthRecord)
    requires GainedApproval(was, now)
    ensures now.kind == was.kind && now.path == was.path && now.plan == was.plan && now.device == was.device
    ensures now.level == was.level && now.backup == was.backup
    ensures was.approvedBy != "" ==> now.approvedBy == was.approvedBy
  {}

  lemma PaperBinds(k: Kind, q: Request, r: AuthRecord)
    requires PaperHolds(k, q, r, true)
    ensures q.binding.Some? && q.path == r.path && (k == Erase ==> q.level == r.level)
    ensures q.binding.value.device == r.device && q.binding.value.plan == r.plan
    ensures (k != Format ==> q.binding.value.backup == r.backup) && (k == Hpa ==> r.backup.backupId != "")
  {}

  lemma KindNamesDiffer(a: Kind, b: Kind)
    ensures KindName(a) == KindName(b) ==> a == b
  {}

  lemma ProperStart(w: World, n: nat)
    requires Inv(w) && n in w.helper && w.helper[n].HelperStarted?
    ensures StartedProperly(w, n, w.helper[n])
    ensures StartedId(w.helper[n]).Some? && StartedId(w.helper[n]).value in w.executed
    ensures w.executed[StartedId(w.helper[n]).value] == n
  {
    hide GainedApproval, PaperHolds, AuthorizationKind;
    var h := w.helper[n];
    assert HelperOk(w, n, h);
    var id := h.q.binding.value.authId;
    var a := w.api[w.spent[id]];
    assert ApiOk(w, w.spent[id], a);
    ApprovalKeepsTheRest(h.record, w.records[id]);
    ApprovalKeepsTheRest(a.record, w.records[id]);
    PaperBinds(h.kind, h.q, h.record);
    StoredKind(h.kind, h.record.kind);
    KindNamesDiffer(a.kind, h.kind);
  }

  /** A passed request spent an approved record of its own kind. */
  ghost predicate PassedProperly(w: World, a: ApiRequest)
    requires a.ApiPassed?
  {
    a.authId in w.records && StoredAs(a.kind, w.records[a.authId].kind) && w.records[a.authId].approvedBy != ""
  }

  lemma PassIsProper(w: World, n: nat)
    requires n in w.api && w.api[n].ApiPassed? && ApiOk(w, n, w.api[n])
    ensures PassedProperly(w, w.api[n])
  {
    hide GainedApproval, AuthorizationKind, KindName;
    var a := w.api[n];
    ApprovalKeepsTheRest(a.record, w.records[a.authId]);
    StoredKind(a.kind, w.records[a.authId].kind);
  }

  /** Over every interleaving: an authorization starts at most one engine, of its own kind,
      only after a person approved it and one API request spent it, on the device whose
      identity was recorded; and nothing but the request that passed leaves a marker. */
  lemma OneExecutionPerAuthorization(w0: World, actions: seq<Action>)
    requires Initial(w0)
    ensures var w := Run(w0, actions);
            && (forall n, m :: (n in w.helper && m in w.helper && StartedId(w.helper[n]).Some?
                                && StartedId(w.helper[n]) == StartedId(w.helper[m])) ==> n == m)
            && (forall n, m :: (n in w.api && m in w.api && w.api[n].ApiPassed? && w.api[m].ApiPassed?
                                && w.api[n].authId == w.api[m].authId) ==> n == m)
            && (forall n :: n in w.helper && w.helper[n].HelperStarted? ==> StartedProperly(w, n, w.helper[n]))
            && (forall n :: n in w.api && w.api[n].ApiPassed? ==> PassedProperly(w, w.api[n]))
            && (forall id :: id in w.executed <==>
                  exists n :: n in w.helper && StartedId(w.helper[n]) == Some(id))
            && (forall id :: id in w.spent <==>
                  exists n :: n in w.api && w.api[n].ApiPassed? && w.api[n].authId == id)
  {
    hide StartedProperly, HelperOk, Run, PaperHolds, GainedApproval, AuthorizationKind, KindName;
    RunKeeps(w0, actions);
    var w := Run(w0, actions);
    forall n | n in w.helper && w.helper[n].HelperStarted?
      ensures StartedProperly(w, n, w.helper[n])
      ensures StartedId(w.helper[n]).Some? && StartedId(w.helper[n]).value in w.executed
      ensures w.executed[StartedId(w.helper[n]).value] == n
    {
      ProperStart(w, n);
    }
    forall n | n in w.api && w.api[n].ApiPassed?
      ensures w.api[n].authId in w.spent && w.spent[w.api[n].authId] == n
      ensures PassedProperly(w, w.api[n])
    {
      assert ApiOk(w, n, w.api[n]);
      PassIsProper(w, n);
    }
  }
}
