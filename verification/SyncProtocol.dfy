/**
 Several devices and one remote (packages/api/src/sync.rs, driven from packages/api/src/lib.rs).

 Every request is one step, so the requests of different devices interleave freely. Requests
 fail, answers get lost after the request had its effect, and answers may come without an ETag.
 Each device keeps a baseline: the time and the revision of what it last pushed or applied.
 */
module SyncProtocol {
  import opened Wrappers
  import opened SyncBundle

  /** An ETag; the empty string when the answer carried none. */
  type Revision = string

  /** The source counts time in 64-bit unsigned seconds. */
  const MAX_TIME: nat := 0xFFFF_FFFF_FFFF_FFFF

  /** The single document of builds that predate bundles. */
  datatype Legacy = Legacy(updatedAt: nat, body: Payload)

  datatype Doc = ManifestDoc(manifest: Manifest) | LegacyDoc(legacy: Legacy)

  /** What the remote holds. `issued` is every ETag it ever gave and `chain` every manifest it ever
      showed, oldest first; both only record history. */
  datatype Remote = Remote(
    objects: Objects,
    manifest: Option<(Manifest, Revision)>,
    legacy: Option<(Legacy, Revision)>,
    issued: map<Revision, Doc>,
    chain: seq<Manifest>)

  datatype Baseline = Baseline(lastSyncAt: nat, lastRevision: Revision)

  const NO_BASELINE := Baseline(0, "")

  // ---------------------------------------------------------------------
  // Deciding a push
  // ---------------------------------------------------------------------

  datatype RemoteState =
    | Absent
    | LegacyState(updatedAt: nat, revision: Revision)
    | BundleState(updatedAt: nat, revision: Revision)

  /** `require_baseline`. */
  predicate BaselineAllows(b: Baseline, revision: Revision) {
    && b != NO_BASELINE
    && revision != ""
    && (b.lastRevision != "" ==> revision == b.lastRevision)
  }

  /** `require_not_newer`. */
  predicate NotNewer(b: Baseline, updatedAt: nat) {
    updatedAt <= b.lastSyncAt
  }

  /** The checks of a push that is not forced: the condition for its manifest write, if any. */
  function Decide(b: Baseline, remote: RemoteState): Option<Condition> {
    match remote
    case Absent => if b == NO_BASELINE then Some(Missing) else None
    case LegacyState(updatedAt, revision) =>
      if BaselineAllows(b, revision) && NotNewer(b, updatedAt) then Some(Missing) else None
    case BundleState(updatedAt, revision) =>
      if BaselineAllows(b, revision) && NotNewer(b, updatedAt) then Some(Match(revision)) else None
  }

  /** The time stamp of a push: the clock, but past the last sync, saturating at the largest time. */
  function NextUpdatedAt(now: nat, b: Baseline): nat {
    var next := if b.lastSyncAt >= MAX_TIME then MAX_TIME else b.lastSyncAt + 1;
    if now >= next then now else next
  }

  /** The stamp is the clock if that is past the last sync, never lies behind it, and moves past the
      last sync exactly while there is a later time to move to. */
  lemma StampsAdvance(now: nat, b: Baseline)
    requires now <= MAX_TIME && b.lastSyncAt <= MAX_TIME
    ensures NextUpdatedAt(now, b) <= MAX_TIME
    ensures NextUpdatedAt(now, b) > b.lastSyncAt <==> b.lastSyncAt < MAX_TIME
    ensures NextUpdatedAt(now, b) >= now && (now > b.lastSyncAt ==> NextUpdatedAt(now, b) == now)
  {
  }

  // ---------------------------------------------------------------------
  // Devices
  // ---------------------------------------------------------------------

  /** A complete download, waiting to be applied to the local profile. */
  datatype Pulled =
    | PulledBundle(manifest: Manifest, revision: Revision, payloads: seq<Payload>)
    | PulledLegacy(legacy: Legacy, revision: Revision)

  /** Where a device is between two requests. One operation runs at a time on a device. */
  datatype Phase =
    | Idle
    | Deciding(sections: Sections)
    | DecidingLegacy(sections: Sections)
    | Uploading(condition: Condition, updatedAt: nat, todo: Sections, files: seq<BundleFile>, skip: set<string>)
    | Rereading(updatedAt: nat)
    | Saving(updatedAt: nat, revision: Revision)
    | PullingLegacy
    | Fetching(manifest: Manifest, revision: Revision, got: seq<Payload>)

  /** `known` records the manifests this device has pushed or applied. */
  datatype Device = Device(baseline: Baseline, phase: Phase, pulled: set<Pulled>, known: set<Manifest>)

  datatype Answer = Tagged | Untagged | Lost

  datatype Event =
    | StartPush(sections: Sections, force: bool, now: nat)
    | ReadManifest(tagged: bool, now: nat)
    | ReadLegacy(tagged: bool, now: nat)
    | PutSection
    | PutManifest(revision: Revision, answer: Answer)
    | Reread(arrived: bool, tagged: bool)
    | SaveBaseline(saved: bool)
    | StartPull(tagged: bool)
    | PullLegacyDocument(tagged: bool)
    | FetchObject
    | FinishPull
    | CommitPull(pulled: Pulled, saved: bool)
    | Fail
    | Retarget

  function Seen(revision: Revision, tagged: bool): Revision {
    if tagged then revision else ""
  }

  /** Sections 13.1.1 and 13.1.2 of RFC 9110, for the manifest. */
  predicate ConditionHolds(remote: Remote, condition: Condition) {
    match condition
    case Unconditional => true
    case Match(revision) => remote.manifest.Some? && remote.manifest.value.1 == revision
    case Missing => remote.manifest.None?
  }

  function UploadedManifest(phase: Phase): Manifest
    requires phase.Uploading?
  {
    Manifest(BUNDLE_FORMAT, BUNDLE_VERSION, phase.updatedAt, phase.files)
  }

  /** Different documents get different, non-empty ETags. */
  predicate FreshRevision(remote: Remote, revision: Revision, doc: Doc) {
    revision != "" && (revision in remote.issued ==> remote.issued[revision] == doc)
  }

  ghost predicate CanStep(w: World, remote: Remote, d: Device, e: Event) {
    w.Valid() &&
    match e
    case StartPush(sections, force, now) =>
      d.phase.Idle? && ProperSections(sections) && PayloadsInRun(w, sections) && now <= MAX_TIME
    case ReadManifest(_, now) => d.phase.Deciding? && now <= MAX_TIME
    case ReadLegacy(_, now) => d.phase.DecidingLegacy? && now <= MAX_TIME
    case PutSection => d.phase.Uploading? && d.phase.todo != []
    case PutManifest(revision, _) =>
      d.phase.Uploading? && d.phase.todo == []
      && FreshRevision(remote, revision, ManifestDoc(UploadedManifest(d.phase)))
    case Reread(_, _) => d.phase.Rereading?
    case SaveBaseline(_) => d.phase.Saving?
    case StartPull(_) => d.phase.Idle?
    case PullLegacyDocument(_) => d.phase.PullingLegacy?
    case FetchObject => d.phase.Fetching? && |d.phase.got| < |d.phase.manifest.files|
    case FinishPull => d.phase.Fetching? && |d.phase.got| == |d.phase.manifest.files|
    case CommitPull(pulled, _) => d.phase.Idle? && pulled in d.pulled
    case Fail => true
    case Retarget => d.phase.Idle?
  }

  /** A push that may write: its stamp is fixed and nothing is uploaded yet. */
  function BeginUpload(d: Device, condition: Condition, sections: Sections, now: nat, skip: set<string>): Device {
    d.(phase := Uploading(condition, NextUpdatedAt(now, d.baseline), sections, [], skip))
  }

  function FileNames(files: seq<BundleFile>): set<string> {
    set i | 0 <= i < |files| :: files[i].name
  }

  /** One request of one device, or one of its local steps. */
  function Step(w: World, remote: Remote, d: Device, e: Event): (Remote, Device)
    requires w.Valid()
  {
    match (e, d.phase)
    case (StartPush(sections, force, now), Idle) =>
      (remote, if force then BeginUpload(d, Unconditional, sections, now, {}) else d.(phase := Deciding(sections)))
    case (ReadManifest(tagged, now), Deciding(sections)) =>
      if remote.manifest.None? then (remote, d.(phase := DecidingLegacy(sections)))
      else
        var (m, revision) := remote.manifest.value;
        var condition := Decide(d.baseline, BundleState(m.updatedAt, Seen(revision, tagged)));
        (remote, if condition.None? then d.(phase := Idle)
                 else BeginUpload(d, condition.value, sections, now, FileNames(m.files)))
    case (ReadLegacy(tagged, now), DecidingLegacy(sections)) =>
      var state := if remote.legacy.None? then Absent
                   else LegacyState(remote.legacy.value.0.updatedAt, Seen(remote.legacy.value.1, tagged));
      var condition := Decide(d.baseline, state);
      (remote, if condition.None? then d.(phase := Idle) else BeginUpload(d, condition.value, sections, now, {}))
    case (PutSection, Uploading(condition, updatedAt, todo, files, skip)) =>
      if todo == [] then (remote, d) else
        var (section, payload) := todo[0];
        var name := ObjectName(w, section, payload);
        (if name in skip then remote else remote.(objects := remote.objects[name := payload]),
         d.(phase := Uploading(condition, updatedAt, todo[1..], files + [FileOf(w, section, payload)], skip)))
    case (PutManifest(revision, answer), Uploading(condition, updatedAt, todo, files, skip)) =>
      if !ConditionHolds(remote, condition) then (remote, d.(phase := Idle)) else
        var m := UploadedManifest(d.phase);
        (remote.(manifest := Some((m, revision)), issued := remote.issued[revision := ManifestDoc(m)], chain := remote.chain + [m]),
         d.(known := d.known + {m},
            phase := match answer
                     case Tagged => Saving(updatedAt, revision)
                     case Untagged => Rereading(updatedAt)
                     case Lost => Idle))
    case (Reread(arrived, tagged), Rereading(updatedAt)) =>
      var ours := arrived && remote.manifest.Some? && remote.manifest.value.0.updatedAt == updatedAt;
      (remote, d.(phase := Saving(updatedAt, if ours then Seen(remote.manifest.value.1, tagged) else "")))
    case (SaveBaseline(saved), Saving(updatedAt, revision)) =>
      (remote, d.(phase := Idle, baseline := if saved then Baseline(updatedAt, revision) else d.baseline))
    case (StartPull(tagged), Idle) =>
      if remote.manifest.None? then (remote, d.(phase := PullingLegacy))
      else (remote, d.(phase := Fetching(remote.manifest.value.0, Seen(remote.manifest.value.1, tagged), [])))
    case (PullLegacyDocument(tagged), PullingLegacy) =>
      if remote.legacy.None? then (remote, d.(phase := Idle))
      else
        var p := PulledLegacy(remote.legacy.value.0, Seen(remote.legacy.value.1, tagged));
        (remote, d.(phase := Idle, pulled := d.pulled + {p}))
    case (FetchObject, Fetching(m, revision, got)) =>
      if |got| >= |m.files| || !Stored(w, remote.objects, m.files[|got|]) then (remote, d.(phase := Idle))
      else (remote, d.(phase := Fetching(m, revision, got + [remote.objects[m.files[|got|].name]])))
    case (FinishPull, Fetching(m, revision, got)) =>
      (remote, d.(phase := Idle, pulled := d.pulled + {PulledBundle(m, revision, got)}))
    case (CommitPull(pulled, saved), Idle) =>
      var updatedAt := if pulled.PulledBundle? then pulled.manifest.updatedAt else pulled.legacy.updatedAt;
      (remote, d.(baseline := if saved then Baseline(updatedAt, pulled.revision) else d.baseline,
                  known := if pulled.PulledBundle? then d.known + {pulled.manifest} else d.known))
    case (Fail, _) => (remote, d.(phase := Idle))
    case (Retarget, Idle) => (remote, d.(baseline := NO_BASELINE))
    case _ => (remote, d)
  }

  // ---------------------------------------------------------------------
  // The whole system
  // ---------------------------------------------------------------------

  type DeviceId = nat

  datatype State = State(remote: Remote, devices: map<DeviceId, Device>)

  /** Something happens: on a device, or to the remote behind everybody's back. */
  datatype Action =
    | On(device: DeviceId, event: Event)
    | OldBuildWrites(legacy: Legacy, revision: Revision)
    | ManifestDeleted

  ghost predicate Enabled(w: World, s: State, a: Action) {
    w.Valid() &&
    match a
    case On(i, e) => i in s.devices && CanStep(w, s.remote, s.devices[i], e)
    case OldBuildWrites(legacy, revision) => FreshRevision(s.remote, revision, LegacyDoc(legacy))
    case ManifestDeleted => true
  }

  function Apply(w: World, s: State, a: Action): State
    requires w.Valid() && (a.On? ==> a.device in s.devices)
  {
    match a
    case On(i, e) =>
      var (remote, device) := Step(w, s.remote, s.devices[i], e);
      State(remote, s.devices[i := device])
    case OldBuildWrites(legacy, revision) =>
      s.(remote := s.remote.(legacy := Some((legacy, revision)),
                             issued := s.remote.issued[revision := LegacyDoc(legacy)]))
    case ManifestDeleted => s.(remote := s.remote.(manifest := None))
  }

  /** An empty remote and devices without a baseline. */
  predicate Initial(s: State) {
    && s.remote == Remote(map[], None, None, map[], [])
    && forall i :: i in s.devices ==> s.devices[i] == Device(NO_BASELINE, Idle, {}, {})
  }

  ghost predicate Run(w: World, states: seq<State>, actions: seq<Action>) {
    && |states| == |actions| + 1 && Initial(states[0])
    && forall k :: 0 <= k < |actions| ==> Enabled(w, states[k], actions[k]) && states[k + 1] == Apply(w, states[k], actions[k])
  }
}
