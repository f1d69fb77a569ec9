/**
 Bundle completeness: at every moment of every run, whatever pushes are in flight, forced or not,
 and whatever fails, every object that the visible manifest names is stored as the manifest says.
 */
module SyncCompleteness {
  import opened Wrappers
  import opened SyncBundle
  import opened SyncProtocol

  ghost predicate Ready(w: World, sections: Sections) {
    forall i :: 0 <= i < |sections| ==> IsSection(sections[i].0) && sections[i].1 in w.payloads
  }

  /** The payload has the size and digest of the entry. */
  predicate Matches(w: World, payload: Payload, file: BundleFile) {
    |payload| == file.size && w.hash(payload) == file.sha256
  }

  /** The first payloads of a manifest, in order. */
  predicate AreFirstOf(w: World, payloads: seq<Payload>, files: seq<BundleFile>) {
    |payloads| <= |files| && forall k :: 0 <= k < |payloads| ==> Matches(w, payloads[k], files[k])
  }

  ghost predicate PhaseComplete(w: World, objects: Objects, phase: Phase) {
    match phase
    case Deciding(sections) => Ready(w, sections)
    case DecidingLegacy(sections) => Ready(w, sections)
    case Uploading(_, _, todo, files, skip) =>
      Ready(w, todo) && AllStored(w, objects, files) && skip <= objects.Keys
    case Fetching(m, _, got) => AllStored(w, objects, m.files) && AreFirstOf(w, got, m.files)
    case _ => true
  }

  /** Every download waiting on a device is the whole of one revision. */
  ghost predicate PulledComplete(w: World, d: Device) {
    forall p :: p in d.pulled && p.PulledBundle? ==>
      |p.payloads| == |p.manifest.files| && AreFirstOf(w, p.payloads, p.manifest.files)
  }

  ghost predicate DeviceComplete(w: World, objects: Objects, d: Device) {
    PhaseComplete(w, objects, d.phase) && PulledComplete(w, d)
  }

  ghost predicate RemoteComplete(w: World, remote: Remote) {
    && ContentAddressed(w, remote.objects)
    && (remote.manifest.Some? ==> AllStored(w, remote.objects, remote.manifest.value.0.files))
  }

  ghost predicate Complete(w: World, s: State) {
    && RemoteComplete(w, s.remote)
    && forall i :: i in s.devices ==> DeviceComplete(w, s.remote.objects, s.devices[i])
  }

  // ---------------------------------------------------------------------
  // One step
  // ---------------------------------------------------------------------

  /** A section is written, or skipped because the manifest read before named an object of its name:
      either way it is then stored, and nothing stored changes. */
  lemma SectionStep(w: World, remote: Remote, d: Device)
    requires w.Valid() && RemoteComplete(w, remote) && DeviceComplete(w, remote.objects, d)
    requires d.phase.Uploading? && d.phase.todo != []
    ensures
      var (remote', d') := Step(w, remote, d, PutSection);
      && Grown(remote.objects, remote'.objects) && RemoteComplete(w, remote')
      && DeviceComplete(w, remote'.objects, d')
  {
    var (section, payload) := d.phase.todo[0];
    var name := ObjectName(w, section, payload);
    assert IsSection(section) && payload in w.payloads;
    ObjectWritten(w, remote.objects, section, payload);
    var (remote', d') := Step(w, remote, d, PutSection);
    if name in d.phase.skip {
      assert remote.objects[name := payload] == remote.objects;
    }
    assert remote'.objects == remote.objects[name := payload];
    StoredStays(w, remote.objects, remote'.objects, d.phase.files);
    if remote.manifest.Some? {
      StoredStays(w, remote.objects, remote'.objects, remote.manifest.value.0.files);
    }
    assert forall i :: 0 <= i < |d'.phase.todo| ==> d'.phase.todo[i] == d.phase.todo[i + 1];
  }

  lemma StoredNamesAreKeys(w: World, objects: Objects, files: seq<BundleFile>)
    requires AllStored(w, objects, files)
    ensures FileNames(files) <= objects.Keys
  {
    forall n | n in FileNames(files) ensures n in objects {
      var i :| 0 <= i < |files| && files[i].name == n;
      assert Stored(w, objects, files[i]);
    }
  }

  /** Any step of a device keeps its own part and the remote's, and changes no stored object. */
  lemma StepKeepsComplete(w: World, remote: Remote, d: Device, e: Event)
    requires CanStep(w, remote, d, e) && RemoteComplete(w, remote) && DeviceComplete(w, remote.objects, d)
    ensures
      var (remote', d') := Step(w, remote, d, e);
      && Grown(remote.objects, remote'.objects) && RemoteComplete(w, remote')
      && DeviceComplete(w, remote'.objects, d')
  {
    match e
    case PutSection =>
      SectionStep(w, remote, d);
    case ReadManifest(_, _) =>
      if remote.manifest.Some? {
        StoredNamesAreKeys(w, remote.objects, remote.manifest.value.0.files);
      }
    case FetchObject =>
      assert Stored(w, remote.objects, d.phase.manifest.files[|d.phase.got|]);
    case _ =>
  }

  lemma OtherDevicesStayComplete(w: World, before: Objects, after: Objects, d: Device)
    requires DeviceComplete(w, before, d) && Grown(before, after)
    ensures DeviceComplete(w, after, d)
  {
    match d.phase
    case Uploading(_, _, _, files, _) => StoredStays(w, before, after, files);
    case Fetching(m, _, _) => StoredStays(w, before, after, m.files);
    case _ =>
  }

  lemma ActionKeepsComplete(w: World, s: State, a: Action)
    requires Enabled(w, s, a) && Complete(w, s)
    ensures Complete(w, Apply(w, s, a))
  {
    match a
    case On(i, e) =>
      StepKeepsComplete(w, s.remote, s.devices[i], e);
      var s' := Apply(w, s, a);
      forall j | j in s'.devices ensures DeviceComplete(w, s'.remote.objects, s'.devices[j]) {
        if j != i {
          OtherDevicesStayComplete(w, s.remote.objects, s'.remote.objects, s.devices[j]);
        }
      }
    case _ =>
  }

  // ---------------------------------------------------------------------
  // Every run
  // ---------------------------------------------------------------------

  lemma {:induction false} RunIsComplete(w: World, states: seq<State>, actions: seq<Action>, k: nat)
    requires w.Valid() && Run(w, states, actions) && k < |states|
    ensures Complete(w, states[k])
  {
    if k > 0 {
      RunIsComplete(w, states, actions, k - 1);
      ActionKeepsComplete(w, states[k - 1], actions[k - 1]);
    }
  }

  /** The visible manifest is complete in every reachable state. */
  lemma VisibleManifestIsComplete(w: World, states: seq<State>, actions: seq<Action>, k: nat)
    requires w.Valid() && Run(w, states, actions) && k < |states| && states[k].remote.manifest.Some?
    ensures AllStored(w, states[k].remote.objects, states[k].remote.manifest.value.0.files)
  {
    RunIsComplete(w, states, actions, k);
  }

  /** A pull that has read a manifest never misses an object and never reads a wrong one, even when
      the manifest is replaced or deleted meanwhile: every download request yields the next payload
      of that very manifest, so what it hands over is one consistent revision. */
  lemma PullNeverMisses(w: World, states: seq<State>, actions: seq<Action>, k: nat, i: DeviceId)
    requires w.Valid() && Run(w, states, actions) && k < |actions|
    requires actions[k] == On(i, FetchObject)
    ensures
      var before, after := states[k].devices[i].phase, states[k + 1].devices[i].phase;
      && before.Fetching? && after.Fetching?
      && after.manifest == before.manifest && after.revision == before.revision
      && |after.got| == |before.got| + 1 && AreFirstOf(w, after.got, after.manifest.files)
  {
    RunIsComplete(w, states, actions, k);
    RunIsComplete(w, states, actions, k + 1);
    var d := states[k].devices[i];
    assert Stored(w, states[k].remote.objects, d.phase.manifest.files[|d.phase.got|]);
  }

  /** Every finished download is the whole of one manifest: one payload for each file it names, with
      the size and the digest it states. */
  lemma PulledBundlesAreWhole(w: World, states: seq<State>, actions: seq<Action>, k: nat, i: DeviceId, p: Pulled)
    requires w.Valid() && Run(w, states, actions) && k < |states| && i in states[k].devices
    requires p in states[k].devices[i].pulled && p.PulledBundle?
    ensures |p.payloads| == |p.manifest.files|
    ensures forall j :: 0 <= j < |p.payloads| ==> Matches(w, p.payloads[j], p.manifest.files[j])
  {
    RunIsComplete(w, states, actions, k);
    assert DeviceComplete(w, states[k].remote.objects, states[k].devices[i]);
  }

  /** Skipping a section because the manifest read at the start of the push named its object is
      sound: the object is stored, with exactly that section's bytes. */
  lemma SkippedSectionsAreStored(
    w: World, states: seq<State>, actions: seq<Action>, k: nat, i: DeviceId)
    requires w.Valid() && Run(w, states, actions) && k < |actions|
    requires actions[k] == On(i, PutSection)
    ensures
      var d := states[k].devices[i];
      var (section, payload) := d.phase.todo[0];
      var name := ObjectName(w, section, payload);
      name in d.phase.skip ==> name in states[k].remote.objects && states[k].remote.objects[name] == payload
  {
    RunIsComplete(w, states, actions, k);
    var d := states[k].devices[i];
    assert d.phase.Uploading? && d.phase.todo != [];
    ObjectWritten(w, states[k].remote.objects, d.phase.todo[0].0, d.phase.todo[0].1);
  }
}
