/**
 No lost update: a push that is not forced replaces only a manifest that its device has pushed or
 applied itself, in every interleaving.

 Two families of runs are covered. In calm runs nobody forces a push and nobody deletes the
 manifest, while every read and every answer may come without an ETag; then the claim holds for
 every push of a device whose baseline is vouched for: it remembers a revision, or no sync at all,
 or the time of a manifest the device knows. (SyncExposure shows that this is what it takes.) In
 tagged runs anything may happen, but an answer to a manifest write carries an ETag or gets lost;
 then the claim holds for every push of a device whose baseline remembers a revision.
 */
module SyncNoLostUpdate {
  import opened Wrappers
  import opened SyncBundle
  import opened SyncProtocol

  datatype Mode = Calm | TaggedWrites

  predicate AllowedStep(mode: Mode, d: Device, e: Event) {
    match mode
    case Calm =>
      (match e
       case StartPush(_, force, _) => !force
       case ReadManifest(_, _) => d.baseline.lastSyncAt < MAX_TIME
       case ReadLegacy(_, _) => d.baseline.lastSyncAt < MAX_TIME
       case _ => true)
    case TaggedWrites =>
      e.PutManifest? ==> e.answer != Untagged
  }

  predicate Allowed(mode: Mode, s: State, a: Action) {
    match a
    case On(i, e) => i in s.devices && AllowedStep(mode, s.devices[i], e)
    case OldBuildWrites(_, _) => true
    case ManifestDeleted => mode.TaggedWrites?
  }

  // ---------------------------------------------------------------------
  // The invariant
  // ---------------------------------------------------------------------

  predicate Increasing(chain: seq<Manifest>) {
    forall i, j :: 0 <= i < j < |chain| ==> chain[i].updatedAt < chain[j].updatedAt
  }

  /** A non-empty revision was issued for this document. */
  predicate IssuedFor(remote: Remote, revision: Revision, doc: Doc) {
    revision != "" ==> revision in remote.issued && remote.issued[revision] == doc
  }

  predicate RemoteOk(mode: Mode, remote: Remote) {
    && "" !in remote.issued
    && (forall r :: r in remote.issued && remote.issued[r].ManifestDoc? ==> remote.issued[r].manifest in remote.chain)
    && (remote.manifest.Some? ==>
          && remote.manifest.value.1 != ""
          && IssuedFor(remote, remote.manifest.value.1, ManifestDoc(remote.manifest.value.0)))
    && (remote.legacy.Some? ==>
          && remote.legacy.value.1 != ""
          && IssuedFor(remote, remote.legacy.value.1, LegacyDoc(remote.legacy.value.0)))
    && (mode.Calm? ==>
          && Increasing(remote.chain)
          && (remote.manifest.None? <==> remote.chain == [])
          && (remote.manifest.Some? ==> remote.manifest.value.0 == remote.chain[|remote.chain| - 1]))
  }

  /** The remembered revision, if any, belongs to a manifest the device knows or to no manifest. */
  predicate RevisionKnown(remote: Remote, known: set<Manifest>, revision: Revision) {
    revision != "" ==>
      && revision in remote.issued
      && (remote.issued[revision].ManifestDoc? ==> remote.issued[revision].manifest in known)
  }

  predicate TimeKnown(known: set<Manifest>, time: nat) {
    exists m :: m in known && m.updatedAt == time
  }

  /** A remembered revision, no sync at all, or the time of a manifest the device knows. All of it
      can be checked on the device. */
  predicate Vouched(d: Device) {
    d.baseline.lastRevision != "" || d.baseline.lastSyncAt == 0 || TimeKnown(d.known, d.baseline.lastSyncAt)
  }

  predicate ConditionOk(mode: Mode, remote: Remote, d: Device, condition: Condition, updatedAt: nat) {
    && (condition.Match? ==>
          && condition.revision in remote.issued
          && (d.baseline.lastRevision != "" ==> condition.revision == d.baseline.lastRevision)
          && (mode.Calm? ==>
                && remote.issued[condition.revision].ManifestDoc?
                && (Vouched(d) ==> remote.issued[condition.revision].manifest in d.known)
                && remote.issued[condition.revision].manifest.updatedAt <= d.baseline.lastSyncAt < updatedAt))
    && (mode.Calm? ==> !condition.Unconditional?)
  }

  predicate PhaseOk(mode: Mode, remote: Remote, d: Device) {
    match d.phase
    case Uploading(condition, updatedAt, _, _, _) => ConditionOk(mode, remote, d, condition, updatedAt)
    case Rereading(updatedAt) => mode.Calm? && TimeKnown(d.known, updatedAt)
    case Saving(updatedAt, revision) => RevisionKnown(remote, d.known, revision) && TimeKnown(d.known, updatedAt)
    case Fetching(m, revision, _) => m in remote.chain && IssuedFor(remote, revision, ManifestDoc(m))
    case _ => true
  }

  predicate PulledOk(mode: Mode, remote: Remote, p: Pulled) {
    match p
    case PulledBundle(m, revision, _) => m in remote.chain && IssuedFor(remote, revision, ManifestDoc(m))
    case PulledLegacy(legacy, revision) => IssuedFor(remote, revision, LegacyDoc(legacy))
  }

  predicate DeviceOk(mode: Mode, remote: Remote, d: Device) {
    && (forall m :: m in d.known ==> m in remote.chain)
    && RevisionKnown(remote, d.known, d.baseline.lastRevision)
    && PhaseOk(mode, remote, d)
    && (forall p :: p in d.pulled ==> PulledOk(mode, remote, p))
  }

  predicate Consistent(mode: Mode, s: State) {
    && RemoteOk(mode, s.remote)
    && forall i :: i in s.devices ==> DeviceOk(mode, s.remote, s.devices[i])
  }

  /** The remote only ever adds to its history. */
  predicate Later(before: Remote, after: Remote) {
    && (forall r :: r in before.issued ==> r in after.issued && after.issued[r] == before.issued[r])
    && before.chain <= after.chain
  }

  // ---------------------------------------------------------------------
  // One step
  // ---------------------------------------------------------------------

  lemma LaterKeepsDevice(mode: Mode, before: Remote, after: Remote, d: Device)
    requires DeviceOk(mode, before, d) && Later(before, after)
    ensures DeviceOk(mode, after, d)
  {
    forall m | m in before.chain ensures m in after.chain {
      var i :| 0 <= i < |before.chain| && before.chain[i] == m;
      assert after.chain[i] == m;
    }
    forall p | p in d.pulled ensures PulledOk(mode, after, p) {
      assert PulledOk(mode, before, p);
    }
  }

  /** In a calm run the manifest at the end of the chain is known to a device that knows a manifest
      at least as recent. */
  lemma LatestIsKnown(remote: Remote, known: set<Manifest>, time: nat)
    requires RemoteOk(Calm, remote) && remote.manifest.Some?
    requires forall m :: m in known ==> m in remote.chain
    requires TimeKnown(known, time) && remote.manifest.value.0.updatedAt <= time
    ensures remote.manifest.value.0 in known && remote.manifest.value.0.updatedAt == time
  {
    var m :| m in known && m.updatedAt == time;
    var i :| 0 <= i < |remote.chain| && remote.chain[i] == m;
    assert i == |remote.chain| - 1;
  }

  /** The manifest a push is about to guard with If-Match is known to a vouched device, in calm runs. */
  lemma DecisionIsSafe(mode: Mode, remote: Remote, d: Device, tagged: bool, now: nat)
    requires RemoteOk(mode, remote) && DeviceOk(mode, remote, d) && remote.manifest.Some? && now <= MAX_TIME
    requires mode.Calm? ==> d.baseline.lastSyncAt < MAX_TIME
    ensures
      var (m, revision) := remote.manifest.value;
      var condition := Decide(d.baseline, BundleState(m.updatedAt, Seen(revision, tagged)));
      condition.Some? ==> ConditionOk(mode, remote, d, condition.value, NextUpdatedAt(now, d.baseline))
  {
    var (m, revision) := remote.manifest.value;
    var condition := Decide(d.baseline, BundleState(m.updatedAt, Seen(revision, tagged)));
    if condition.Some? && mode.Calm? && d.baseline.lastRevision == "" && Vouched(d) {
      LatestIsKnown(remote, d.known, d.baseline.lastSyncAt);
    }
  }

  /** What a manifest write replaces, if it is let through. */
  lemma ReplacedManifest(mode: Mode, remote: Remote, d: Device)
    requires RemoteOk(mode, remote) && DeviceOk(mode, remote, d)
    requires d.phase.Uploading? && ConditionHolds(remote, d.phase.condition) && remote.manifest.Some?
    ensures mode.Calm? ==>
      && (Vouched(d) ==> remote.manifest.value.0 in d.known)
      && remote.manifest.value.0.updatedAt <= d.baseline.lastSyncAt < d.phase.updatedAt
    ensures d.phase.condition.Match? && d.baseline.lastRevision != "" ==> remote.manifest.value.0 in d.known
  {
  }

  lemma ManifestStepOnRemote(w: World, mode: Mode, remote: Remote, d: Device, revision: Revision, answer: Answer)
    requires CanStep(w, remote, d, PutManifest(revision, answer))
    requires RemoteOk(mode, remote) && DeviceOk(mode, remote, d)
    ensures
      var (remote', _) := Step(w, remote, d, PutManifest(revision, answer));
      Later(remote, remote') && RemoteOk(mode, remote')
  {
    var remote' := Step(w, remote, d, PutManifest(revision, answer)).0;
    if ConditionHolds(remote, d.phase.condition) {
      if remote.manifest.Some? {
        ReplacedManifest(mode, remote, d);
      }
      assert remote'.chain[|remote.chain|] == UploadedManifest(d.phase);
    }
  }

  lemma ManifestStep(w: World, mode: Mode, remote: Remote, d: Device, revision: Revision, answer: Answer)
    requires CanStep(w, remote, d, PutManifest(revision, answer))
    requires RemoteOk(mode, remote) && DeviceOk(mode, remote, d)
    requires mode.TaggedWrites? ==> answer != Untagged
    ensures
      var (remote', d') := Step(w, remote, d, PutManifest(revision, answer));
      Later(remote, remote') && RemoteOk(mode, remote') && DeviceOk(mode, remote', d')
  {
    hide RemoteOk;
    var (remote', d') := Step(w, remote, d, PutManifest(revision, answer));
    ManifestStepOnRemote(w, mode, remote, d, revision, answer);
    if ConditionHolds(remote, d.phase.condition) {
      var m := UploadedManifest(d.phase);
      assert remote'.chain[|remote.chain|] == m;
      assert m in remote'.chain && m in d'.known;
      LaterKeepsDevice(mode, remote, remote', d);
      assert forall p :: p in d'.pulled ==> PulledOk(mode, remote', p);
    }
  }

  /** A step of a device that leaves the manifest alone keeps the device's part. */
  predicate StepOk(mode: Mode, remote: Remote, result: (Remote, Device)) {
    && result.0.issued == remote.issued && result.0.chain == remote.chain
    && result.0.manifest == remote.manifest && result.0.legacy == remote.legacy
    && DeviceOk(mode, remote, result.1)
  }

  lemma PushStep(w: World, mode: Mode, remote: Remote, d: Device, e: Event)
    requires e.StartPush? || e.ReadManifest? || e.ReadLegacy? || e.PutSection?
    requires CanStep(w, remote, d, e) && AllowedStep(mode, d, e)
    requires RemoteOk(mode, remote) && DeviceOk(mode, remote, d)
    ensures StepOk(mode, remote, Step(w, remote, d, e))
  {
    hide RevisionKnown, IssuedFor, RemoteOk, Decide, ProperSections;
    if e.ReadManifest? && remote.manifest.Some? {
      DecisionIsSafe(mode, remote, d, e.tagged, e.now);
    } else if e.ReadLegacy? {
      LegacyDecisions(d.baseline, remote, e.tagged);
    }
  }

  lemma LegacyDecisions(b: Baseline, remote: Remote, tagged: bool)
    ensures Decide(b, Absent) in {None, Some(Missing)}
    ensures remote.legacy.Some? ==>
      Decide(b, LegacyState(remote.legacy.value.0.updatedAt, Seen(remote.legacy.value.1, tagged))) in {None, Some(Missing)}
  {
  }

  lemma PullStep(w: World, mode: Mode, remote: Remote, d: Device, e: Event)
    requires e.StartPull? || e.PullLegacyDocument? || e.FetchObject? || e.FinishPull?
    requires CanStep(w, remote, d, e) && AllowedStep(mode, d, e)
    requires RemoteOk(mode, remote) && DeviceOk(mode, remote, d)
    ensures StepOk(mode, remote, Step(w, remote, d, e))
  {
    hide RevisionKnown, Stored;
    if e.StartPull? && remote.manifest.Some? {
      assert IssuedFor(remote, remote.manifest.value.1, ManifestDoc(remote.manifest.value.0));
    }
  }

  lemma OtherStep(w: World, mode: Mode, remote: Remote, d: Device, e: Event)
    requires CanStep(w, remote, d, e) && AllowedStep(mode, d, e) && !e.PutManifest?
    requires RemoteOk(mode, remote) && DeviceOk(mode, remote, d)
    ensures StepOk(mode, remote, Step(w, remote, d, e))
  {
    match e
    case Reread(arrived, tagged) => RereadIsSafe(w, mode, remote, d, arrived, tagged);
    case CommitPull(pulled, saved) => CommitIsSafe(w, mode, remote, d, pulled, saved);
    case SaveBaseline(_) =>
    case Fail =>
    case Retarget =>
    case _ =>
      hide Step, DeviceOk, RemoteOk, StepOk;
      if e.StartPush? || e.ReadManifest? || e.ReadLegacy? || e.PutSection? {
        PushStep(w, mode, remote, d, e);
      } else {
        PullStep(w, mode, remote, d, e);
      }
  }

  /** Adopting the re-read revision is right: the manifest there is the device's own. */
  lemma RereadIsSafe(w: World, mode: Mode, remote: Remote, d: Device, arrived: bool, tagged: bool)
    requires w.Valid() && RemoteOk(mode, remote) && DeviceOk(mode, remote, d) && d.phase.Rereading?
    ensures DeviceOk(mode, remote, Step(w, remote, d, Reread(arrived, tagged)).1)
    ensures remote.manifest.Some? && remote.manifest.value.0.updatedAt == d.phase.updatedAt ==>
              remote.manifest.value.0 in d.known
  {
    if remote.manifest.Some? && remote.manifest.value.0.updatedAt == d.phase.updatedAt {
      LatestIsKnown(remote, d.known, d.phase.updatedAt);
    }
  }

  lemma CommitIsSafe(w: World, mode: Mode, remote: Remote, d: Device, pulled: Pulled, saved: bool)
    requires w.Valid() && RemoteOk(mode, remote) && DeviceOk(mode, remote, d) && d.phase.Idle? && pulled in d.pulled
    ensures DeviceOk(mode, remote, Step(w, remote, d, CommitPull(pulled, saved)).1)
  {
    var d' := Step(w, remote, d, CommitPull(pulled, saved)).1;
    assert PulledOk(mode, remote, pulled);
    if pulled.PulledBundle? {
      assert pulled.manifest in d'.known;
    }
  }

  lemma ActionKeepsConsistent(w: World, mode: Mode, s: State, a: Action)
    requires Enabled(w, s, a) && Allowed(mode, s, a) && Consistent(mode, s)
    ensures Consistent(mode, Apply(w, s, a))
  {
    var s' := Apply(w, s, a);
    match a
    case On(i, e) =>
      if e.PutManifest? {
        ManifestStep(w, mode, s.remote, s.devices[i], e.revision, e.answer);
      } else {
        OtherStep(w, mode, s.remote, s.devices[i], e);
      }
      assert Later(s.remote, s'.remote);
      LaterKeepsDevice(mode, s.remote, s'.remote, s.devices[i]);
      forall j | j in s'.devices ensures DeviceOk(mode, s'.remote, s'.devices[j]) {
        if j != i {
          LaterKeepsDevice(mode, s.remote, s'.remote, s.devices[j]);
        } else if !e.PutManifest? {
          LaterKeepsDevice(mode, s.remote, s'.remote, s'.devices[i]);
        }
      }
    case OldBuildWrites(legacy, revision) =>
      forall j | j in s'.devices ensures DeviceOk(mode, s'.remote, s'.devices[j]) {
        LaterKeepsDevice(mode, s.remote, s'.remote, s.devices[j]);
      }
    case ManifestDeleted =>
      forall j | j in s'.devices ensures DeviceOk(mode, s'.remote, s'.devices[j]) {
        LaterKeepsDevice(mode, s.remote, s'.remote, s.devices[j]);
      }
  }

  // ---------------------------------------------------------------------
  // Every run
  // ---------------------------------------------------------------------

  ghost predicate RunIn(w: World, mode: Mode, states: seq<State>, actions: seq<Action>) {
    && w.Valid() && Run(w, states, actions)
    && forall k :: 0 <= k < |actions| ==> Allowed(mode, states[k], actions[k])
  }

  lemma {:induction false} RunIsConsistent(w: World, mode: Mode, states: seq<State>, actions: seq<Action>, k: nat)
    requires RunIn(w, mode, states, actions) && k < |states|
    ensures Consistent(mode, states[k])
  {
    if k > 0 {
      RunIsConsistent(w, mode, states, actions, k - 1);
      ActionKeepsConsistent(w, mode, states[k - 1], actions[k - 1]);
    }
  }

  /** The action is a manifest write that is let through and replaces a visible manifest. */
  predicate Replaces(s: State, a: Action) {
    && a.On? && a.event.PutManifest? && a.device in s.devices && s.devices[a.device].phase.Uploading?
    && s.remote.manifest.Some? && ConditionHolds(s.remote, s.devices[a.device].phase.condition)
  }

  /** No lost update in calm runs: a manifest that the push of a vouched device replaces has been
      pushed or applied by the same device before. For every device, vouched or not, it is no newer
      than the device's last sync and older than what replaces it. */
  lemma NoLostUpdate(w: World, states: seq<State>, actions: seq<Action>, k: nat)
    requires RunIn(w, Calm, states, actions) && k < |actions| && Replaces(states[k], actions[k])
    ensures
      var d := states[k].devices[actions[k].device];
      var m := states[k].remote.manifest.value.0;
      && (Vouched(d) ==> m in d.known)
      && m.updatedAt <= d.baseline.lastSyncAt < d.phase.updatedAt
  {
    RunIsConsistent(w, Calm, states, actions, k);
    ReplacedManifest(Calm, states[k].remote, states[k].devices[actions[k].device]);
  }

  /** One thing only takes the voucher away in a calm run: committing a legacy document that was read
      without an ETag. */
  lemma OnlyUntaggedLegacyPullsExpose(w: World, states: seq<State>, actions: seq<Action>, k: nat, i: DeviceId)
    requires RunIn(w, Calm, states, actions) && k < |actions| && i in states[k].devices
    requires Vouched(states[k].devices[i]) && !Vouched(states[k + 1].devices[i])
    ensures actions[k].On? && actions[k].device == i && actions[k].event.CommitPull? && actions[k].event.saved
    ensures actions[k].event.pulled.PulledLegacy? && actions[k].event.pulled.revision == ""
  {
    RunIsConsistent(w, Calm, states, actions, k);
    var d, d' := states[k].devices[i], states[k + 1].devices[i];
    KnownGrows(w, states[k], actions[k], i);
    if actions[k].On? && actions[k].device == i {
      var e := actions[k].event;
      if !(e.CommitPull? && e.saved && e.pulled.PulledLegacy? && e.pulled.revision == "") {
        VoucherStep(w, states[k].remote, d, e);
      }
    }
  }

  lemma KnownGrows(w: World, s: State, a: Action, i: DeviceId)
    requires Enabled(w, s, a) && i in s.devices
    ensures i in Apply(w, s, a).devices && s.devices[i].known <= Apply(w, s, a).devices[i].known
  {
  }

  lemma VoucherStep(w: World, remote: Remote, d: Device, e: Event)
    requires CanStep(w, remote, d, e) && DeviceOk(Calm, remote, d) && Vouched(d)
    requires !(e.CommitPull? && e.saved && e.pulled.PulledLegacy? && e.pulled.revision == "")
    ensures Vouched(Step(w, remote, d, e).1)
  {
    var d' := Step(w, remote, d, e).1;
    if e.CommitPull? && e.pulled.PulledBundle? {
      assert e.pulled.manifest in d'.known;
    }
    if d.baseline == d'.baseline && TimeKnown(d.known, d.baseline.lastSyncAt) {
      var m :| m in d.known && m.updatedAt == d.baseline.lastSyncAt;
      assert m in d'.known;
    }
  }

  /** The same in tagged runs, with forced pushes and deletions around, for a device that remembers
      a revision and pushes without force. */
  lemma RememberedRevisionsPreventLostUpdates(w: World, states: seq<State>, actions: seq<Action>, k: nat)
    requires RunIn(w, TaggedWrites, states, actions) && k < |actions| && Replaces(states[k], actions[k])
    requires states[k].devices[actions[k].device].phase.condition.Match?
    requires states[k].devices[actions[k].device].baseline.lastRevision != ""
    ensures states[k].remote.manifest.value.0 in states[k].devices[actions[k].device].known
  {
    RunIsConsistent(w, TaggedWrites, states, actions, k);
    ReplacedManifest(TaggedWrites, states[k].remote, states[k].devices[actions[k].device]);
  }

  /** Time stamps strictly increase along everything the remote ever showed in a calm run. */
  lemma ChainIncreases(w: World, states: seq<State>, actions: seq<Action>, k: nat)
    requires RunIn(w, Calm, states, actions) && k < |states|
    ensures Increasing(states[k].remote.chain)
    ensures states[k].remote.manifest.Some? ==>
      states[k].remote.chain != []
      && states[k].remote.manifest.value.0 == states[k].remote.chain[|states[k].remote.chain| - 1]
  {
    RunIsConsistent(w, Calm, states, actions, k);
  }

  /** After an answer without an ETag a device adopts a re-read revision only of a manifest it wrote
      or applied itself. */
  lemma RereadAdoptsKnownManifest(w: World, states: seq<State>, actions: seq<Action>, k: nat, i: DeviceId)
    requires RunIn(w, Calm, states, actions) && k < |actions|
    requires actions[k].On? && actions[k].device == i && actions[k].event.Reread?
    ensures
      var after := states[k + 1].devices[i];
      && after.phase.Saving?
      && (after.phase.revision != "" ==>
            && states[k].remote.manifest.Some?
            && states[k].remote.manifest.value.1 == after.phase.revision
            && states[k].remote.manifest.value.0 in after.known
            && states[k].remote.manifest.value.0.updatedAt == after.phase.updatedAt)
  {
    RunIsConsistent(w, Calm, states, actions, k);
    var e := actions[k].event;
    RereadIsSafe(w, Calm, states[k].remote, states[k].devices[i], e.arrived, e.tagged);
  }

  /** What a device knows it has pushed or applied earlier in the run. */
  lemma {:induction false} KnownWasPushedOrApplied(
    w: World, states: seq<State>, actions: seq<Action>, k: nat, i: DeviceId, m: Manifest)
    returns (j: nat)
    requires w.Valid() && Run(w, states, actions) && k < |states|
    requires i in states[k].devices && m in states[k].devices[i].known
    ensures j < k && actions[j].On? && actions[j].device == i && i in states[j].devices
    ensures
      var e, d := actions[j].event, states[j].devices[i];
      || (e.PutManifest? && d.phase.Uploading? && ConditionHolds(states[j].remote, d.phase.condition)
          && UploadedManifest(d.phase) == m && states[j + 1].remote.manifest == Some((m, e.revision)))
      || (e.CommitPull? && e.pulled.PulledBundle? && e.pulled.manifest == m)
  {
    assert Enabled(w, states[k - 1], actions[k - 1]);
    assert i in states[k - 1].devices;
    if m in states[k - 1].devices[i].known {
      j := KnownWasPushedOrApplied(w, states, actions, k - 1, i, m);
    } else {
      j := k - 1;
    }
  }

  // ---------------------------------------------------------------------
  // A run in which a device loses its voucher, and an update gets lost
  // ---------------------------------------------------------------------

  const LOST := Manifest(BUNDLE_FORMAT, BUNDLE_VERSION, 50, [])
  const NEWER := Manifest(BUNDLE_FORMAT, BUNDLE_VERSION, 200, [])
  const OLD_BUILD := Legacy(100, [])

  const BLANK := Device(NO_BASELINE, Idle, {}, {})
  const PUBLISHED := Device(NO_BASELINE, Saving(50, "a"), {}, {LOST})
  const LEGACY_ONLY := Device(Baseline(100, ""), Idle, {PulledLegacy(OLD_BUILD, "")}, {})

  const EMPTY_REMOTE := Remote(map[], None, None, map[], [])
  const FIRST_BUNDLE := Remote(map[], Some((LOST, "a")), None, map["a" := ManifestDoc(LOST)], [LOST])
  const BOTH := Remote(map[], Some((LOST, "a")), Some((OLD_BUILD, "b")),
                       map["a" := ManifestDoc(LOST), "b" := LegacyDoc(OLD_BUILD)], [LOST])
  const OVERWRITTEN := BOTH.(manifest := Some((NEWER, "c")), issued := BOTH.issued["c" := ManifestDoc(NEWER)],
                             chain := [LOST, NEWER])

  /** Device 0 finds no bundle and turns to the legacy document; device 1 publishes the first
      bundle; an old build writes a legacy document that device 0 then reads without its ETag. */
  function LosingAction(k: nat): Action {
    if k == 0 then On(0, StartPull(true))
    else if k == 1 then On(1, StartPush([], false, 0))
    else if k == 2 then On(1, ReadManifest(true, 50))
    else if k == 3 then On(1, ReadLegacy(true, 50))
    else if k == 4 then On(1, PutManifest("a", Tagged))
    else if k == 5 then OldBuildWrites(OLD_BUILD, "b")
    else if k == 6 then On(0, PullLegacyDocument(false))
    else if k == 7 then On(0, CommitPull(PulledLegacy(OLD_BUILD, ""), true))
    else if k == 8 then On(0, StartPush([], false, 0))
    else if k == 9 then On(0, ReadManifest(true, 200))
    else On(0, PutManifest("c", Tagged))
  }

  function Pair(remote: Remote, first: Device, second: Device): State {
    State(remote, map[0 := first, 1 := second])
  }

  function LosingState(k: nat): State {
    var pulling := BLANK.(phase := PullingLegacy);
    if k == 0 then Pair(EMPTY_REMOTE, BLANK, BLANK)
    else if k == 1 then Pair(EMPTY_REMOTE, pulling, BLANK)
    else if k == 2 then Pair(EMPTY_REMOTE, pulling, BLANK.(phase := Deciding([])))
    else if k == 3 then Pair(EMPTY_REMOTE, pulling, BLANK.(phase := DecidingLegacy([])))
    else if k == 4 then Pair(EMPTY_REMOTE, pulling, BLANK.(phase := Uploading(Missing, 50, [], [], {})))
    else if k == 5 then Pair(FIRST_BUNDLE, pulling, PUBLISHED)
    else if k == 6 then Pair(BOTH, pulling, PUBLISHED)
    else if k == 7 then Pair(BOTH, BLANK.(pulled := {PulledLegacy(OLD_BUILD, "")}), PUBLISHED)
    else if k == 8 then Pair(BOTH, LEGACY_ONLY, PUBLISHED)
    else if k == 9 then Pair(BOTH, LEGACY_ONLY.(phase := Deciding([])), PUBLISHED)
    else if k == 10 then Pair(BOTH, LEGACY_ONLY.(phase := Uploading(Match("a"), 200, [], [], {})), PUBLISHED)
    else Pair(OVERWRITTEN, LEGACY_ONLY.(phase := Saving(200, "c"), known := {NEWER}), PUBLISHED)
  }

  ghost predicate Follows(w: World, k: nat)
    requires w.Valid()
  {
    && Enabled(w, LosingState(k), LosingAction(k))
    && Apply(w, LosingState(k), LosingAction(k)) == LosingState(k + 1)
    && Allowed(TaggedWrites, LosingState(k), LosingAction(k)) && Allowed(Calm, LosingState(k), LosingAction(k))
  }

  lemma FirstLosingSteps(w: World, k: nat)
    requires w.Valid() && k < 5
    ensures Follows(w, k)
  {
    if k == 0 {} else if k == 1 {} else if k == 2 {} else if k == 3 {} else {
      assert UploadedManifest(LosingState(4).devices[1].phase) == LOST;
      assert EMPTY_REMOTE.chain + [LOST] == FIRST_BUNDLE.chain;
      assert EMPTY_REMOTE.issued["a" := ManifestDoc(LOST)] == FIRST_BUNDLE.issued;
      assert BLANK.known + {LOST} == PUBLISHED.known;
    }
  }

  lemma MiddleLosingSteps(w: World, k: nat)
    requires w.Valid() && 5 <= k < 9
    ensures Follows(w, k)
  {
    if k == 5 {} else if k == 6 {
      assert BLANK.pulled + {PulledLegacy(OLD_BUILD, "")} == {PulledLegacy(OLD_BUILD, "")};
    } else if k == 7 {} else {}
  }

  lemma LastLosingSteps(w: World, k: nat)
    requires w.Valid() && 9 <= k < 11
    ensures Follows(w, k)
  {
    if k == 9 {
      assert FileNames(LOST.files) == {};
    } else {
      assert UploadedManifest(LosingState(10).devices[0].phase) == NEWER;
      assert BOTH.chain + [NEWER] == OVERWRITTEN.chain;
      assert LEGACY_ONLY.known + {NEWER} == {NEWER};
    }
  }

  function LosingStates(): (states: seq<State>)
    ensures |states| == 12 && forall k :: 0 <= k < 12 ==> states[k] == LosingState(k)
  {
    seq(12, k requires 0 <= k < 12 => LosingState(k))
  }

  function LosingActions(): (actions: seq<Action>)
    ensures |actions| == 11 && forall k :: 0 <= k < 11 ==> actions[k] == LosingAction(k)
  {
    seq(11, k requires 0 <= k < 11 => LosingAction(k))
  }

  lemma LosingStepsFollow(w: World, k: nat)
    requires w.Valid() && k < 11
    ensures Follows(w, k)
  {
    hide Follows;
    if k < 5 {
      FirstLosingSteps(w, k);
    } else if k < 9 {
      MiddleLosingSteps(w, k);
    } else {
      LastLosingSteps(w, k);
    }
  }

  /** The run as a whole is calm, and tagged as well. */
  lemma LosingRun(w: World)
    requires w.Valid()
    ensures RunIn(w, Calm, LosingStates(), LosingActions())
    ensures RunIn(w, TaggedWrites, LosingStates(), LosingActions())
  {
    var states, actions := LosingStates(), LosingActions();
    assert Initial(states[0]);
    hide LosingState, LosingAction, LosingStates, LosingActions, Enabled, Apply, Allowed, Initial;
    forall k | 0 <= k < 11
      ensures Enabled(w, states[k], actions[k]) && states[k + 1] == Apply(w, states[k], actions[k])
      ensures Allowed(TaggedWrites, states[k], actions[k]) && Allowed(Calm, states[k], actions[k])
    {
      LosingStepsFollow(w, k);
    }
  }

  /** It loses an update: device 0 remembers a late time, which no manifest it knows has, and no
      revision, and its push replaces the bundle of device 1, which it has neither pushed nor applied. */
  lemma UntaggedLegacyReadsLoseUpdates(w: World)
    requires w.Valid()
    ensures RunIn(w, Calm, LosingStates(), LosingActions())
    ensures
      var s, a := LosingStates()[10], LosingActions()[10];
      && Replaces(s, a) && a.device == 0 && !Vouched(s.devices[0])
      && s.devices[0].baseline == Baseline(100, "") && s.devices[0].phase.condition == Match("a")
      && s.remote.manifest.value.0 !in s.devices[0].known
  {
    LosingRun(w);
    hide RunIn;
    assert LosingStates()[10] == LosingState(10) && LosingActions()[10] == LosingAction(10);
  }
}
