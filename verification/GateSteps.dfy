/** The gates as the steps of one request that nobody interrupts: the interleaved protocol and the
    gates' own methods are two models of the same code (api/authorization.py,
    helper/authorization.py). */
module GateSteps {

  import opened Digests
  import opened Workflow
  import opened AuthorizationBinding
  import opened Gates
  import opened AuthorizationProtocol
  import RestorePlanning

  /** The run of one action `k` times over, and nothing in between. */
  function Again(w: World, a: Action, k: nat): World
  {
    Run(w, seq(k, i requires 0 <= i < k => a))
  }

  lemma AgainUnfolds(w: World, a: Action, k: nat)
    ensures Again(w, a, 0) == w && Again(w, a, k + 1) == Apply(Again(w, a, k), a)
  {
    hide Apply;
    var more := seq(k + 1, i requires 0 <= i < k + 1 => a);
    assert more[..k] == seq(k, i requires 0 <= i < k => a) && more[k] == a;
  }

  // ------------------------------------------------------------------- API gate

  /** The reads an erase request is judged on. */
  predicate ApiAccepts(w: World, id: string, path: string, level: string)
  {
    && path in w.devices && MatchesAuthId(id) && id in w.records && id !in w.spent
    && ApiAdmits(w.records[id], path, w.devices[path], Lookup(w.images, w.records[id].backup.path), level)
  }

  /** Request `n` stands at `a`; its marker is there if it has passed. */
  function WithApi(w: World, n: nat, a: ApiRequest): World
  {
    w.(api := w.api[n := a], spent := if a.ApiPassed? then w.spent[a.authId := n] else w.spent)
  }

  /** Until it has passed, a request sees what it saw before. */
  lemma ApiMoves(w: World, n: nat, a: ApiRequest)
    requires !a.ApiPassed?
    ensures Apply(WithApi(w, n, a), ApiStep(n, false)) == WithApi(w, n, NextApi(w, a, false))
  {
    hide ApiVerdict, MatchesAuthId, AuthorizationKind, KindName;
    var now := WithApi(w, n, a);
    assert now.api[n := NextApi(w, a, false)] == w.api[n := NextApi(w, a, false)];
  }

  /** Where a request alone stands after `k` steps. */
  function ApiWalk(w: World, a: ApiRequest, k: nat): ApiRequest
  {
    if k == 0 then a else NextApi(w, ApiWalk(w, a, k - 1), false)
  }

  /** How far a request is from its start; only the fifth step can pass. */
  function ApiDone(a: ApiRequest): nat
  {
    match a
    case ApiStart(_, _, _, _) => 0
    case ApiProbed(_, _, _, _, _) => 1
    case ApiFound(_, _, _, _, _, _) => 2
    case ApiLoaded(_, _, _, _, _, _) => 3
    case ApiJudged(_, _, _) => 4
    case ApiPassed(_, _, _) => 5
    case ApiRefused => 5
  }

  lemma ApiGoesOn(w: World, a: ApiRequest)
    ensures var a' := NextApi(w, a, false);
            a' == ApiRefused || a' == a || ApiDone(a') == ApiDone(a) + 1
    ensures a == ApiRefused ==> NextApi(w, a, false) == a
  {
    hide ApiVerdict, MatchesAuthId, AuthorizationKind, KindName;
  }

  lemma {:induction false} ApiSteps(w: World, n: nat, a: ApiRequest, k: nat)
    requires a.ApiStart? && k <= 5 && n in w.api && w.api[n] == a
    ensures Again(w, ApiStep(n, false), k) == WithApi(w, n, ApiWalk(w, a, k))
    ensures ApiWalk(w, a, k) == ApiRefused || ApiDone(ApiWalk(w, a, k)) <= k
  {
    hide Apply, NextApi, Again;
    AgainUnfolds(w, ApiStep(n, false), if k == 0 then 0 else k - 1);
    if k == 0 {
      assert w.api[n := a] == w.api;
    } else {
      ApiSteps(w, n, a, k - 1);
      var b := ApiWalk(w, a, k - 1);
      ApiGoesOn(w, b);
      ApiMoves(w, n, b);
    }
  }

  lemma ApiWalks(w: World, id: string, path: string, level: string)
    ensures var b := ApiWalk(w, ApiStart(Erase, id, path, level), 5);
            && (b.ApiPassed? <==> ApiAccepts(w, id, path, level))
            && (b.ApiPassed? ==> b.authId == id)
  {
    hide ApiAdmits, MatchesAuthId, AuthorizationKind, ApiWalk;
    var a := ApiStart(Erase, id, path, level);
    ApiWalkOn(w, a, 0);
    ApiWalkOn(w, a, 1);
    ApiWalkOn(w, a, 2);
    ApiWalkOn(w, a, 3);
    ApiWalkOn(w, a, 4);
    if path in w.devices && id in w.records {
      AdmitsKind(w.records[id], path, w.devices[path], Lookup(w.images, w.records[id].backup.path), level);
    }
  }

  lemma ApiWalkOn(w: World, a: ApiRequest, k: nat)
    ensures ApiWalk(w, a, 0) == a && ApiWalk(w, a, k + 1) == NextApi(w, ApiWalk(w, a, k), false)
  {}

  /** One request alone passes exactly on those reads, and then its marker is the only new one. */
  lemma ApiAlone(w: World, n: nat, id: string, path: string, level: string)
    requires n in w.api && w.api[n] == ApiStart(Erase, id, path, level)
    ensures var w' := Again(w, ApiStep(n, false), 5);
            && n in w'.api && (w'.api[n].ApiPassed? <==> ApiAccepts(w, id, path, level))
            && w'.spent == (if ApiAccepts(w, id, path, level) then w.spent[id := n] else w.spent)
            && w' == w.(api := w'.api, spent := w'.spent)
  {
    hide Again, ApiWalk, ApiAccepts;
    ApiSteps(w, n, w.api[n], 5);
    ApiWalks(w, id, path, level);
  }

  lemma AdmitsKind(r: AuthRecord, path: string, probe: Probe, stat: Option<ImageStat>, level: string)
    ensures ApiAdmits(r, path, probe, stat, level) ==> AuthorizationKind(r.kind) == KindName(Erase)
  {}

  /** ... and so does the gate's own method on the same reads, and leaves the same marker. */
  method ApiAgrees(store: AuthorizationStore, w: World, n: nat, id: string, path: string, level: string)
    returns (r: Result<Binding, GateRefused>)
    requires n in w.api && w.api[n] == ApiStart(Erase, id, path, level) && path in w.devices
    requires store.records == w.records && store.spent == w.spent.Keys
    modifies store`spent
    ensures var w' := Again(w, ApiStep(n, false), 5);
            && n in w'.api && (r.Ok? <==> w'.api[n].ApiPassed?)
            && store.spent == w'.spent.Keys
  {
    hide ApiAdmits, Again;
    ApiAlone(w, n, id, path, level);
    var stat := if id in w.records then Lookup(w.images, w.records[id].backup.path) else None;
    r := AuthorizeExecution(store, id, path, level, w.devices[path], stat, false);
  }

  // ---------------------------------------------------------------- write seams

  /** The reads a helper request is judged on; `verdict` is its seam's own. */
  predicate SeamAccepts(w: World, k: Kind, q: Request, verdict: bool)
  {
    && !q.switched && q.binding.Some? && q.hasDirectory
    && var id := q.binding.value.authId;
    && MatchesAuthId(id) && id in w.records && AuthorizationKind(w.records[id].kind) == KindName(k)
    && PaperHolds(k, q, w.records[id], id in w.spent)
    && q.path in w.devices
    && HostVerdict(k, q, w.records[id], w.devices[q.path], Lookup(w.images, w.records[id].backup.path), verdict)
    && id !in w.executed
  }

  /** Request `n` stands at `h`; its marker is there if its engine has started. */
  function WithHelper(w: World, n: nat, h: HelperRequest): World
  {
    w.(helper := w.helper[n := h],
       executed := if StartedId(h).Some? then w.executed[StartedId(h).value := n] else w.executed)
  }

  lemma HelperMoves(w: World, n: nat, h: HelperRequest, verdict: bool)
    requires !h.HelperStarted?
    ensures Apply(WithHelper(w, n, h), HelperStep(n, verdict)) == WithHelper(w, n, NextHelper(w, h, verdict))
  {
    hide HostVerdict, PaperHolds, MatchesAuthId, AuthorizationKind, KindName;
    var now := WithHelper(w, n, h);
    assert now.helper[n := NextHelper(w, h, verdict)] == w.helper[n := NextHelper(w, h, verdict)];
  }

  function HelperWalk(w: World, h: HelperRequest, verdict: bool, k: nat): HelperRequest
  {
    if k == 0 then h else NextHelper(w, HelperWalk(w, h, verdict, k - 1), verdict)
  }

  function HelperDone(h: HelperRequest): nat
  {
    match h
    case HelperStart(_, _) => 0
    case HelperLoaded(_, _, _) => 1
    case HelperChecked(_, _, _) => 2
    case HelperProbed(_, _, _, _) => 3
    case HelperJudged(_, _, _, _) => 4
    case HelperStarted(_, _, _, _) => 5
    case HelperRefused => 5
  }

  lemma HelperGoesOn(w: World, h: HelperRequest, verdict: bool)
    ensures var h' := NextHelper(w, h, verdict);
            h' == HelperRefused || h' == h || HelperDone(h') == HelperDone(h) + 1
    ensures h == HelperRefused ==> NextHelper(w, h, verdict) == h
  {
    hide HostVerdict, PaperHolds, MatchesAuthId, AuthorizationKind, KindName;
  }

  lemma {:induction false} HelperSteps(w: World, n: nat, h: HelperRequest, verdict: bool, k: nat)
    requires h.HelperStart? && k <= 5 && n in w.helper && w.helper[n] == h
    ensures Again(w, HelperStep(n, verdict), k) == WithHelper(w, n, HelperWalk(w, h, verdict, k))
    ensures HelperWalk(w, h, verdict, k) == HelperRefused || HelperDone(HelperWalk(w, h, verdict, k)) <= k
  {
    hide Apply, NextHelper, Again;
    AgainUnfolds(w, HelperStep(n, verdict), if k == 0 then 0 else k - 1);
    if k == 0 {
      assert w.helper[n := h] == w.helper;
    } else {
      HelperSteps(w, n, h, verdict, k - 1);
      var b := HelperWalk(w, h, verdict, k - 1);
      HelperGoesOn(w, b, verdict);
      HelperMoves(w, n, b, verdict);
    }
  }

  lemma HelperWalkOn(w: World, h: HelperRequest, verdict: bool, k: nat)
    ensures HelperWalk(w, h, verdict, 0) == h
    ensures HelperWalk(w, h, verdict, k + 1) == NextHelper(w, HelperWalk(w, h, verdict, k), verdict)
  {}

  lemma HelperWalks(w: World, k: Kind, q: Request, verdict: bool)
    ensures var b := HelperWalk(w, HelperStart(k, q), verdict, 5);
            && (b.HelperStarted? <==> SeamAccepts(w, k, q, verdict))
            && (b.HelperStarted? ==> b.q == q && q.binding.Some?)
  {
    hide HostVerdict, PaperHolds, MatchesAuthId, AuthorizationKind, KindName, HelperWalk;
    var h := HelperStart(k, q);
    HelperWalkOn(w, h, verdict, 0);
    HelperWalkOn(w, h, verdict, 1);
    HelperWalkOn(w, h, verdict, 2);
    HelperWalkOn(w, h, verdict, 3);
    HelperWalkOn(w, h, verdict, 4);
  }

  /** One helper request alone starts its engine exactly on those reads, and then its marker is
      the only new one. */
  lemma HelperAlone(w: World, n: nat, k: Kind, q: Request, verdict: bool)
    requires n in w.helper && w.helper[n] == HelperStart(k, q)
    ensures var w' := Again(w, HelperStep(n, verdict), 5);
            && n in w'.helper && (w'.helper[n].HelperStarted? <==> SeamAccepts(w, k, q, verdict))
            && w'.executed == (if SeamAccepts(w, k, q, verdict) then w.executed[q.binding.value.authId := n]
                               else w.executed)
            && w' == w.(helper := w'.helper, executed := w'.executed)
  {
    hide Again, HelperWalk, HostVerdict, PaperHolds, MatchesAuthId, AuthorizationKind, KindName;
    HelperSteps(w, n, w.helper[n], verdict, 5);
    HelperWalks(w, k, q, verdict);
  }

  /** A method's refusal of request `n` is the protocol's, and so is the marker. */
  ghost predicate Agrees(store: AuthorizationStore, w: World, n: nat, verdict: bool, refused: seq<Reason>)
    reads store
  {
    var w' := Again(w, HelperStep(n, verdict), 5);
    && n in w'.helper && (refused == [] <==> w'.helper[n].HelperStarted?)
    && store.executed == w'.executed.Keys
  }

  predicate SameStore(store: AuthorizationStore, w: World)
    reads store
  {
    store.records == w.records && store.spent == w.spent.Keys && store.executed == w.executed.Keys
  }

  /** The image the record of a request names, as the host has it. */
  function ImageOf(w: World, q: Request): Option<ImageStat>
  {
    if q.binding.Some? && q.binding.value.authId in w.records
    then Lookup(w.images, w.records[q.binding.value.authId].backup.path) else None
  }

  method EraseAgrees(store: AuthorizationStore, w: World, n: nat, q: Request) returns (refused: seq<Reason>)
    requires n in w.helper && w.helper[n] == HelperStart(Erase, q) && SameStore(store, w)
    modifies store`executed
    ensures Agrees(store, w, n, false, refused)
  {
    hide Again, EraseHostHolds, PaperHolds, AuthorizationKind, MatchesAuthId;
    HelperAlone(w, n, Erase, q, false);
    refused := RevalidateExecution(store, q, Lookup(w.devices, q.path), ImageOf(w, q));
  }

  /** The restore seam's own verdict is the one the protocol needs of it. */
  method RestoreAgrees(store: AuthorizationStore, w: World, n: nat, q: Request,
                       target: Option<RestorePlanning.TargetIdentity>, norm: string -> string,
                       cmp: RestorePlanning.FileComparison, rate: int, clock: int)
    returns (refused: seq<Reason>, verdict: bool)
    requires n in w.helper && w.helper[n] == HelperStart(RestoreKind, q) && SameStore(store, w)
    requires target.Some? <==> q.path in w.devices
    requires target.Some? ==> IdentityOf(target.value) == w.devices[q.path].device.identity
    modifies store`executed
    ensures verdict <==>
              && q.binding.Some? && q.binding.value.authId in w.records && target.Some?
              && RestoreHostHolds(w.records[q.binding.value.authId], target.value, ImageOf(w, q), q.typed, norm, cmp,
                                  rate, clock)
    ensures Agrees(store, w, n, verdict, refused)
  {
    hide Again, PaperHolds, AuthorizationKind, MatchesAuthId, RestoreHostHolds;
    verdict := q.binding.Some? && q.binding.value.authId in w.records && target.Some?
               && RestoreHostHolds(w.records[q.binding.value.authId], target.value, ImageOf(w, q), q.typed, norm, cmp,
                                   rate, clock);
    if verdict {
      RestoreNeedsIdentity(w.records[q.binding.value.authId], target.value, ImageOf(w, q), q.typed, norm, cmp, rate,
                           clock);
    }
    HelperAlone(w, n, RestoreKind, q, verdict);
    refused := RevalidateRestore(store, q, target, ImageOf(w, q), norm, cmp, rate, clock);
  }

  lemma RestoreNeedsIdentity(r: AuthRecord, target: RestorePlanning.TargetIdentity, stat: Option<ImageStat>,
                             typed: string, norm: string -> string, cmp: RestorePlanning.FileComparison, rate: int,
                             clock: int)
    requires RestoreHostHolds(r, target, stat, typed, norm, cmp, rate, clock)
    ensures IdentityDrift(r.device, IdentityOf(target)) == []
  {}

  /** ... and so is that of the HPA and format seams. */
  method DeviceAgrees(store: AuthorizationStore, w: World, n: nat, k: Kind, q: Request, norm: string -> string)
    returns (refused: seq<Reason>, verdict: bool)
    requires k == Hpa || k == Format
    requires n in w.helper && w.helper[n] == HelperStart(k, q) && SameStore(store, w)
    modifies store`executed
    ensures verdict <==>
              && q.binding.Some? && q.binding.value.authId in w.records && q.path in w.devices
              && DeviceHostHolds(k, w.records[q.binding.value.authId], w.devices[q.path].device, ImageOf(w, q), q.typed,
                                 norm)
    ensures Agrees(store, w, n, verdict, refused)
  {
    hide Again, PaperHolds, AuthorizationKind, MatchesAuthId, DeviceHostHolds;
    var device := if q.path in w.devices then Some(w.devices[q.path].device) else None;
    verdict := q.binding.Some? && q.binding.value.authId in w.records && device.Some?
               && DeviceHostHolds(k, w.records[q.binding.value.authId], device.value, ImageOf(w, q), q.typed, norm);
    if verdict {
      DeviceNeedsIdentity(k, w.records[q.binding.value.authId], device.value, ImageOf(w, q), q.typed, norm);
    }
    HelperAlone(w, n, k, q, verdict);
    refused := RevalidateDevice(store, k, q, device, ImageOf(w, q), norm);
  }

  lemma DeviceNeedsIdentity(k: Kind, r: AuthRecord, device: DeviceRead, stat: Option<ImageStat>, typed: string,
                            norm: string -> string)
    requires DeviceHostHolds(k, r, device, stat, typed, norm)
    ensures IdentityDrift(r.device, device.identity) == []
  {}

  // ------------------------------------------------------- from record to engine

  lemma RunOn(w: World, front: seq<Action>, a: Action)
    ensures Run(w, front + [a]) == Apply(Run(w, front), a)
  {
    hide Apply;
    assert (front + [a])[..|front|] == front;
  }

  /** A record is opened and approved while the device and the image are as given, and a request for it
      arrives at the gate. */
  function Opening(record: AuthRecord, who: string, probe: Probe, stat: Option<ImageStat>, n: nat): seq<Action>
  {
    [OpenRecord(record.authId, record)] + [Approve(record.authId, who)] + [ChangeDevice(record.path, Some(probe))]
    + [ChangeImage(record.backup.path, stat)] + [ApiArrives(n, Erase, record.authId, record.path, record.level)]
  }

  /** Then the device and the image are changed, and the request goes on to the helper. */
  function Handing(r: AuthRecord, probe: Option<Probe>, stat: Option<ImageStat>, m: nat): seq<Action>
  {
    [ChangeDevice(r.path, probe)] + [ChangeImage(r.backup.path, stat)]
    + [HelperArrives(m, Erase, RequestFor(r, r.path, r.level))]
  }

  lemma OpenedByOne(w: World, record: AuthRecord, who: string, probe: Probe, stat: Option<ImageStat>, n: nat)
    ensures Run(w, Opening(record, who, probe, stat, n)) ==
            Apply(Apply(Apply(Apply(Apply(w,
              OpenRecord(record.authId, record)), Approve(record.authId, who)),
              ChangeDevice(record.path, Some(probe))), ChangeImage(record.backup.path, stat)),
              ApiArrives(n, Erase, record.authId, record.path, record.level))
  {
    hide Apply;
    var (a, b, c, d, e) :=
      (OpenRecord(record.authId, record), Approve(record.authId, who), ChangeDevice(record.path, Some(probe)),
       ChangeImage(record.backup.path, stat), ApiArrives(n, Erase, record.authId, record.path, record.level));
    RunOn(w, [a] + [b] + [c] + [d], e);
    RunOn(w, [a] + [b] + [c], d);
    RunOn(w, [a] + [b], c);
    RunOn(w, [a], b);
    RunOn(w, [], a);
    assert [] + [a] == [a];
    RunNothing(w);
  }

  lemma Opened(w: World, record: AuthRecord, who: string, probe: Probe, stat: Option<ImageStat>, n: nat)
    requires record.authId !in w.records && record.approvedBy == "" && n !in w.api
    ensures var w' := Run(w, Opening(record, who, probe, stat, n));
            && w'.records == w.records[record.authId := record.(approvedBy := who)]
            && Lookup(w'.devices, record.path) == Some(probe) && Lookup(w'.images, record.backup.path) == stat
            && w'.api == w.api[n := ApiStart(Erase, record.authId, record.path, record.level)]
            && w'.helper == w.helper && w'.spent == w.spent && w'.executed == w.executed
  {
    hide Run, Opening, Apply;
    OpenedByOne(w, record, who, probe, stat, n);
    IsOpened(w, record, who);
    var w2 := Apply(Apply(w, OpenRecord(record.authId, record)), Approve(record.authId, who));
    IsChanged(w2, record.path, Some(probe), record.backup.path, stat);
    var w4 := Apply(Apply(w2, ChangeDevice(record.path, Some(probe))), ChangeImage(record.backup.path, stat));
    Arrives(w4, n, record);
  }

  lemma IsOpened(w: World, record: AuthRecord, who: string)
    requires record.authId !in w.records && record.approvedBy == ""
    ensures Apply(Apply(w, OpenRecord(record.authId, record)), Approve(record.authId, who)) ==
            w.(records := w.records[record.authId := record.(approvedBy := who)])
  {
    hide StepApi, StepHelper;
    assert w.records[record.authId := record][record.authId := record.(approvedBy := who)]
        == w.records[record.authId := record.(approvedBy := who)];
  }

  lemma IsChanged(w: World, path: string, probe: Option<Probe>, imagePath: string, stat: Option<ImageStat>)
    ensures var w' := Apply(Apply(w, ChangeDevice(path, probe)), ChangeImage(imagePath, stat));
            && Lookup(w'.devices, path) == probe && Lookup(w'.images, imagePath) == stat
            && w' == w.(devices := w'.devices, images := w'.images)
  {
    hide StepApi, StepHelper;
  }

  lemma Arrives(w: World, n: nat, record: AuthRecord)
    requires n !in w.api
    ensures Apply(w, ApiArrives(n, Erase, record.authId, record.path, record.level)) ==
            w.(api := w.api[n := ApiStart(Erase, record.authId, record.path, record.level)])
  {
    hide StepApi, StepHelper;
  }

  lemma ArrivesThere(w: World, m: nat, q: Request)
    requires m !in w.helper
    ensures Apply(w, HelperArrives(m, Erase, q)) == w.(helper := w.helper[m := HelperStart(Erase, q)])
  {
    hide StepApi, StepHelper;
  }

  lemma HandedOver(w: World, r: AuthRecord, probe: Option<Probe>, stat: Option<ImageStat>, m: nat)
    requires m !in w.helper
    ensures var w' := Run(w, Handing(r, probe, stat, m));
            && Lookup(w'.devices, r.path) == probe && Lookup(w'.images, r.backup.path) == stat
            && w'.helper == w.helper[m := HelperStart(Erase, RequestFor(r, r.path, r.level))]
            && w'.records == w.records && w'.api == w.api && w'.spent == w.spent && w'.executed == w.executed
  {
    hide Run, RequestFor, Apply;
    var (a, b, c) := (ChangeDevice(r.path, probe), ChangeImage(r.backup.path, stat),
                      HelperArrives(m, Erase, RequestFor(r, r.path, r.level)));
    RunOn(w, [a] + [b], c);
    RunOn(w, [a], b);
    RunOn(w, [], a);
    assert [] + [a] == [a];
    RunNothing(w);
    IsChanged(w, r.path, probe, r.backup.path, stat);
    ArrivesThere(Apply(Apply(w, a), b), m, RequestFor(r, r.path, r.level));
  }

  lemma RunNothing(w: World)
    ensures Run(w, []) == w
  {}

  /** From an open record to the engine, with the device and the image swapped between the gates: the
      API passes exactly on what it read, and the engine starts exactly if it passed and what the helper
      then reads is still what was approved. */
  lemma FromRecordToEngine(w: World, record: AuthRecord, who: string, probe: Probe, stat: Option<ImageStat>,
                           probe': Option<Probe>, stat': Option<ImageStat>, n: nat, m: nat)
    requires MatchesAuthId(record.authId) && record.approvedBy == ""
    requires record.authId !in w.records && record.authId !in w.spent && record.authId !in w.executed
    requires n !in w.api && m !in w.helper
    ensures var r := record.(approvedBy := who);
            var passed := Again(Run(w, Opening(record, who, probe, stat, n)), ApiStep(n, false), 5);
            var end := Again(Run(passed, Handing(r, probe', stat', m)), HelperStep(m, false), 5);
            && n in passed.api && m in end.helper
            && (passed.api[n].ApiPassed? <==> ApiAdmits(r, r.path, probe, stat, r.level))
            && (end.helper[m].HelperStarted? <==>
                  && ApiAdmits(r, r.path, probe, stat, r.level)
                  && probe'.Some? && EraseHostHolds(r, probe'.value, stat', r.level))
  {
    hide Again, Run, Opening, Handing, ApiAdmits, EraseHostHolds, MatchesAuthId, AuthorizationKind;
    var r := record.(approvedBy := who);
    Opened(w, record, who, probe, stat, n);
    var arrived := Run(w, Opening(record, who, probe, stat, n));
    ApiAlone(arrived, n, r.authId, r.path, r.level);
    var passed := Again(arrived, ApiStep(n, false), 5);
    HandedOver(passed, r, probe', stat', m);
    HelperAlone(Run(passed, Handing(r, probe', stat', m)), m, Erase, RequestFor(r, r.path, r.level), false);
    AdmitsApproved(r, r.path, probe, stat, r.level);
    AdmitsKind(r, r.path, probe, stat, r.level);
  }

  lemma AdmitsApproved(r: AuthRecord, path: string, probe: Probe, stat: Option<ImageStat>, level: string)
    ensures ApiAdmits(r, path, probe, stat, level) ==> r.approvedBy != ""
  {}
}
