/**
 When a device can lose an update, exactly: in calm runs a device whose baseline is not vouched for
 can overwrite a manifest it does not know, unless the visible manifest is newer than its last sync,
 and no other device can.

 A device that is not exposed stays so as long as its baseline stays. For one that is exposed, with
 any other device around, the run is continued step by step to a push that loses an update.
 */
module SyncExposure {
  import opened Wrappers
  import opened SyncBundle
  import opened SyncProtocol
  import opened SyncNoLostUpdate
  import SyncCompleteness

  /** No voucher, and no newer manifest that would refuse the next push. */
  predicate Exposed(remote: Remote, d: Device) {
    && !Vouched(d)
    && (remote.manifest.Some? ==> remote.manifest.value.0.updatedAt <= d.baseline.lastSyncAt)
  }

  /** The push of this device replaces a manifest it has neither pushed nor applied. */
  predicate Loses(s: State, a: Action, i: DeviceId) {
    Replaces(s, a) && a.device == i && s.remote.manifest.value.0 !in s.devices[i].known
  }

  /** From a point of the run on the device has this baseline. */
  predicate KeepsBaseline(states: seq<State>, from: nat, i: DeviceId, b: Baseline) {
    forall k :: from <= k < |states| ==> i in states[k].devices && states[k].devices[i].baseline == b
  }

  /** The run can go on, without the device getting another baseline, until its push loses an update. */
  ghost predicate CanLose(w: World, states: seq<State>, actions: seq<Action>, i: DeviceId)
    requires states != [] && i in states[|states| - 1].devices
  {
    exists states', actions' :: LosesAfter(w, states, actions, i, states', actions')
  }

  ghost predicate LosesAfter(
    w: World, states: seq<State>, actions: seq<Action>, i: DeviceId, states': seq<State>, actions': seq<Action>)
    requires states != [] && i in states[|states| - 1].devices
  {
    && RunIn(w, Calm, states', actions') && states <= states' && actions <= actions' && |actions| < |actions'|
    && KeepsBaseline(states'[..|actions'|], |states| - 1, i, states[|states| - 1].devices[i].baseline)
    && Loses(states'[|actions'| - 1], actions'[|actions'| - 1], i)
  }

  // ---------------------------------------------------------------------
  // Devices that are not exposed
  // ---------------------------------------------------------------------

  lemma ExposureStep(w: World, s: State, a: Action, i: DeviceId)
    requires Enabled(w, s, a) && Allowed(Calm, s, a) && Consistent(Calm, s) && i in s.devices
    requires Apply(w, s, a).devices[i].baseline == s.devices[i].baseline
    ensures Exposed(Apply(w, s, a).remote, Apply(w, s, a).devices[i]) ==> Exposed(s.remote, s.devices[i])
  {
    var s' := Apply(w, s, a);
    var d, d' := s.devices[i], s'.devices[i];
    ActionKeepsConsistent(w, Calm, s, a);
    KnownGrows(w, s, a, i);
    hide Consistent, Enabled, Allowed;
    if s.remote.manifest.Some? {
      ManifestsGetNewer(w, s, a);
    }
  }

  /** In calm runs the visible manifest is only ever replaced by a newer one. */
  lemma ManifestsGetNewer(w: World, s: State, a: Action)
    requires Enabled(w, s, a) && Allowed(Calm, s, a) && Consistent(Calm, s) && s.remote.manifest.Some?
    ensures Apply(w, s, a).remote.manifest.Some?
    ensures s.remote.manifest.value.0.updatedAt <= Apply(w, s, a).remote.manifest.value.0.updatedAt
  {
    if a.On? && a.event.PutManifest? {
      var d := s.devices[a.device];
      if ConditionHolds(s.remote, d.phase.condition) {
        ReplacedManifest(Calm, s.remote, d);
      }
    }
  }

  /** A lost update needs a device that is exposed at its push, and it was exposed ever since it got
      its baseline. */
  lemma {:induction false} LosersWereExposed(
    w: World, states: seq<State>, actions: seq<Action>, from: nat, k: nat, i: DeviceId, b: Baseline)
    requires RunIn(w, Calm, states, actions) && from <= k < |actions|
    requires KeepsBaseline(states[..k + 1], from, i, b) && Loses(states[k], actions[k], i)
    ensures Exposed(states[from].remote, states[from].devices[i])
  {
    ExposedAtPush(w, states, actions, k, i);
    hide Exposed;
    ExposedSince(w, states, actions, from, k, i, b);
  }

  lemma ExposedAtPush(w: World, states: seq<State>, actions: seq<Action>, k: nat, i: DeviceId)
    requires RunIn(w, Calm, states, actions) && k < |actions| && Loses(states[k], actions[k], i)
    ensures i in states[k].devices && Exposed(states[k].remote, states[k].devices[i])
  {
    NoLostUpdate(w, states, actions, k);
  }

  lemma {:induction false} ExposedSince(
    w: World, states: seq<State>, actions: seq<Action>, from: nat, k: nat, i: DeviceId, b: Baseline)
    requires RunIn(w, Calm, states, actions) && from <= k < |states|
    requires KeepsBaseline(states[..k + 1], from, i, b) && i in states[k].devices
    requires Exposed(states[k].remote, states[k].devices[i])
    ensures i in states[from].devices && Exposed(states[from].remote, states[from].devices[i])
    decreases k
  {
    if from < k {
      assert states[..k + 1][k - 1] == states[k - 1] && states[..k + 1][k] == states[k];
      RunIsConsistent(w, Calm, states, actions, k - 1);
      ExposureStep(w, states[k - 1], actions[k - 1], i);
      hide Exposed, RunIn, Consistent;
      assert KeepsBaseline(states[..k], from, i, b) by {
        assert forall j :: 0 <= j < k ==> states[..k + 1][j] == states[..k][j];
      }
      ExposedSince(w, states, actions, from, k - 1, i, b);
    }
  }

  // ---------------------------------------------------------------------
  // Going on with a run
  // ---------------------------------------------------------------------

  datatype Tale = Tale(states: seq<State>, actions: seq<Action>) {
    function Now(): State
      requires states != []
    {
      states[|states| - 1]
    }

    predicate Begins(longer: Tale) {
      states <= longer.states && actions <= longer.actions
    }
  }

  /** A calm run in which the device `i` has kept its baseline since some moment. */
  ghost predicate Story(w: World, t: Tale, from: nat, i: DeviceId, b: Baseline) {
    && RunIn(w, Calm, t.states, t.actions) && from < |t.states| && KeepsBaseline(t.states, from, i, b)
  }

  lemma Continue(w: World, t: Tale, from: nat, i: DeviceId, b: Baseline, a: Action) returns (t': Tale)
    requires Story(w, t, from, i, b)
    requires Enabled(w, t.Now(), a) && Allowed(Calm, t.Now(), a)
    requires i in Apply(w, t.Now(), a).devices && Apply(w, t.Now(), a).devices[i].baseline == b
    ensures Story(w, t', from, i, b) && t.Begins(t')
    ensures t' == Tale(t.states + [Apply(w, t.Now(), a)], t.actions + [a])
  {
    hide CanStep, AllowedStep, Step, Initial;
    t' := Tale(t.states + [Apply(w, t.Now(), a)], t.actions + [a]);
    forall k | 0 <= k < |t'.actions|
      ensures Enabled(w, t'.states[k], t'.actions[k]) && t'.states[k + 1] == Apply(w, t'.states[k], t'.actions[k])
      ensures Allowed(Calm, t'.states[k], t'.actions[k])
    {
      if k < |t.actions| {
        assert t'.states[k] == t.states[k] && t'.states[k + 1] == t.states[k + 1] && t'.actions[k] == t.actions[k];
      }
    }
  }

  /** A step of one device, with what it leaves. */
  lemma Does(w: World, t: Tale, from: nat, i: DeviceId, b: Baseline, j: DeviceId, e: Event) returns (t': Tale)
    requires Story(w, t, from, i, b) && j in t.Now().devices
    requires CanStep(w, t.Now().remote, t.Now().devices[j], e) && AllowedStep(Calm, t.Now().devices[j], e)
    requires j == i ==> Step(w, t.Now().remote, t.Now().devices[j], e).1.baseline == b
    ensures Story(w, t', from, i, b) && t.Begins(t')
    ensures t'.actions == t.actions + [On(j, e)] && |t'.states| == |t.states| + 1
    ensures
      var (remote, device) := Step(w, t.Now().remote, t.Now().devices[j], e);
      t'.Now() == State(remote, t.Now().devices[j := device])
  {
    hide CanStep, AllowedStep, Step, Run;
    t' := Continue(w, t, from, i, b, On(j, e));
  }

  lemma Idles(w: World, t: Tale, from: nat, i: DeviceId, b: Baseline, j: DeviceId) returns (t': Tale)
    requires Story(w, t, from, i, b) && j in t.Now().devices
    ensures Story(w, t', from, i, b) && t.Begins(t')
    ensures t'.Now() == State(t.Now().remote, t.Now().devices[j := t.Now().devices[j].(phase := Idle)])
  {
    assert t.Now().devices[i].baseline == b;
    t' := Does(w, t, from, i, b, j, Fail);
  }

  // ---------------------------------------------------------------------
  // A push
  // ---------------------------------------------------------------------

  /** What a push of no sections writes. */
  function Blank(b: Baseline): Manifest {
    Manifest(BUNDLE_FORMAT, BUNDLE_VERSION, NextUpdatedAt(0, b), [])
  }

  /** An idle device whose baseline allows it pushes over the visible manifest; the answer gets lost. */
  lemma Pushes(w: World, t: Tale, from: nat, i: DeviceId, b: Baseline, j: DeviceId, revision: Revision) returns (t': Tale)
    requires Story(w, t, from, i, b) && j in t.Now().devices
    requires t.Now().devices[j].phase.Idle? && t.Now().devices[j].baseline.lastSyncAt < MAX_TIME
    requires t.Now().remote.manifest.Some? && revision != "" && revision !in t.Now().remote.issued
    requires
      var (m, seen) := t.Now().remote.manifest.value;
      Decide(t.Now().devices[j].baseline, BundleState(m.updatedAt, seen)) == Some(Match(seen))
    ensures Story(w, t', from, i, b) && t.Begins(t') && |t'.actions| > |t.actions|
    ensures
      var d := t.Now().devices[j];
      && t'.Now().remote.manifest == Some((Blank(d.baseline), revision))
      && j in t'.Now().devices
      && t'.Now().devices == t.Now().devices[j := t'.Now().devices[j]]
      && t'.Now().devices[j].phase.Idle? && t'.Now().devices[j].baseline == d.baseline
    ensures
      var before, last := t'.states[|t'.actions| - 1], t'.actions[|t'.actions| - 1];
      && Replaces(before, last) && last.device == j
      && before.remote.manifest == t.Now().remote.manifest && before.devices[j].known == t.Now().devices[j].known
  {
    var d, seen := t.Now().devices[j], t.Now().remote.manifest.value.1;
    var t1 := Decides(w, t, from, i, b, j);
    assert UploadedManifest(t1.Now().devices[j].phase) == Blank(d.baseline);
    t' := Does(w, t1, from, i, b, j, PutManifest(revision, Lost));
    assert t'.states[|t'.actions| - 1] == t1.Now();
  }

  /** The push up to its manifest write. */
  lemma Decides(w: World, t: Tale, from: nat, i: DeviceId, b: Baseline, j: DeviceId) returns (t': Tale)
    requires Story(w, t, from, i, b) && j in t.Now().devices
    requires t.Now().devices[j].phase.Idle? && t.Now().devices[j].baseline.lastSyncAt < MAX_TIME
    requires t.Now().remote.manifest.Some?
    requires
      var (m, seen) := t.Now().remote.manifest.value;
      Decide(t.Now().devices[j].baseline, BundleState(m.updatedAt, seen)) == Some(Match(seen))
    ensures Story(w, t', from, i, b) && t.Begins(t') && |t'.actions| > |t.actions| && j in t'.Now().devices
    ensures
      var d, (m, seen) := t.Now().devices[j], t.Now().remote.manifest.value;
      t'.Now() == State(t.Now().remote, t.Now().devices[j :=
        d.(phase := Uploading(Match(seen), NextUpdatedAt(0, d.baseline), [], [], FileNames(m.files)))])
  {
    hide Decide;
    var t1 := Does(w, t, from, i, b, j, StartPush([], false, 0));
    t' := Does(w, t1, from, i, b, j, ReadManifest(true, 0));
  }

  // ---------------------------------------------------------------------
  // A complete pull
  // ---------------------------------------------------------------------

  /** A device that has begun to fetch a manifest gets all of it: every object is there. */
  lemma {:induction false} Fetches(w: World, t: Tale, from: nat, i: DeviceId, b: Baseline, j: DeviceId) returns (t': Tale)
    requires Story(w, t, from, i, b) && j in t.Now().devices && i != j && t.Now().devices[j].phase.Fetching?
    requires |t.Now().devices[j].phase.got| <= |t.Now().devices[j].phase.manifest.files|
    ensures Story(w, t', from, i, b) && t.Begins(t')
    ensures
      var d := t.Now().devices[j];
      && j in t'.Now().devices
      && t'.Now() == State(t.Now().remote, t.Now().devices[j := t'.Now().devices[j]])
      && t'.Now().devices[j].phase.Fetching?
      && t'.Now().devices[j] == d.(phase := Fetching(d.phase.manifest, d.phase.revision, t'.Now().devices[j].phase.got))
      && |t'.Now().devices[j].phase.got| == |d.phase.manifest.files|
    decreases |t.Now().devices[j].phase.manifest.files| - |t.Now().devices[j].phase.got|
  {
    var d := t.Now().devices[j];
    t' := t;
    if |d.phase.got| < |d.phase.manifest.files| {
      ObjectIsThere(w, t, j);
      var t1 := Does(w, t, from, i, b, j, FetchObject);
      t' := Fetches(w, t1, from, i, b, j);
    }
  }

  lemma ObjectIsThere(w: World, t: Tale, j: DeviceId)
    requires RunIn(w, Calm, t.states, t.actions) && j in t.Now().devices
    requires t.Now().devices[j].phase.Fetching?
    requires |t.Now().devices[j].phase.got| < |t.Now().devices[j].phase.manifest.files|
    ensures
      var phase := t.Now().devices[j].phase;
      Stored(w, t.Now().remote.objects, phase.manifest.files[|phase.got|])
  {
    SyncCompleteness.RunIsComplete(w, t.states, t.actions, |t.states| - 1);
    assert SyncCompleteness.DeviceComplete(w, t.Now().remote.objects, t.Now().devices[j]);
  }

  /** An idle device pulls the visible manifest and applies it. */
  lemma Pulls(w: World, t: Tale, from: nat, i: DeviceId, b: Baseline, j: DeviceId) returns (t': Tale)
    requires Story(w, t, from, i, b) && j in t.Now().devices && i != j && t.Now().devices[j].phase.Idle?
    requires t.Now().remote.manifest.Some?
    ensures Story(w, t', from, i, b) && t.Begins(t') && j in t'.Now().devices
    ensures t'.Now() == State(t.Now().remote, t.Now().devices[j := t'.Now().devices[j]])
    ensures t'.Now().devices[j].phase.Idle?
    ensures
      var (m, revision) := t.Now().remote.manifest.value;
      t'.Now().devices[j].baseline == Baseline(m.updatedAt, revision)
  {
    var (m, revision) := t.Now().remote.manifest.value;
    var t1 := Does(w, t, from, i, b, j, StartPull(true));
    assert t1.Now().devices[j].phase == Fetching(m, revision, []);
    var t2 := Fetches(w, t1, from, i, b, j);
    var pulled := PulledBundle(m, revision, t2.Now().devices[j].phase.got);
    var t3 := Does(w, t2, from, i, b, j, FinishPull);
    assert pulled in t3.Now().devices[j].pulled;
    t' := Does(w, t3, from, i, b, j, CommitPull(pulled, true));
  }

  // ---------------------------------------------------------------------
  // A manifest appears that the exposed device does not know
  // ---------------------------------------------------------------------

  /** Some revision has not been issued yet. */
  lemma FreshRevisionExists(issued: set<Revision>) returns (revision: Revision)
    ensures revision != "" && revision !in issued
  {
    var n := LongestIn(issued);
    revision := seq(n + 1, i => 'x');
  }

  lemma LongestIn(texts: set<string>) returns (n: nat)
    ensures forall s :: s in texts ==> |s| <= n
    decreases texts
  {
    if texts == {} {
      n := 0;
    } else {
      var s :| s in texts;
      var m := LongestIn(texts - {s});
      n := if |s| > m then |s| else m;
      forall x | x in texts ensures |x| <= n {
        assert x == s || x in texts - {s};
      }
    }
  }

  /** The other device pulls and pushes: its new manifest is one later than the visible one. */
  lemma OtherPushes(w: World, t: Tale, from: nat, i: DeviceId, b: Baseline, j: DeviceId) returns (t': Tale)
    requires Story(w, t, from, i, b) && j in t.Now().devices && i != j && t.Now().devices[j].phase.Idle?
    requires t.Now().remote.manifest.Some? && t.Now().remote.manifest.value.0.updatedAt < MAX_TIME
    ensures Story(w, t', from, i, b) && t.Begins(t') && i in t'.Now().devices && t'.Now().devices[i] == t.Now().devices[i]
    ensures t'.Now().remote.manifest.Some?
    ensures t'.Now().remote.manifest.value.0.updatedAt == t.Now().remote.manifest.value.0.updatedAt + 1
  {
    var t1 := Pulls(w, t, from, i, b, j);
    var revision := FreshRevisionExists(t1.Now().remote.issued.Keys);
    RevisionIsSomething(w, t1);
    t' := Pushes(w, t1, from, i, b, j, revision);
  }

  lemma RevisionIsSomething(w: World, t: Tale)
    requires RunIn(w, Calm, t.states, t.actions) && t.Now().remote.manifest.Some?
    ensures t.Now().remote.manifest.value.1 != ""
  {
    RunIsConsistent(w, Calm, t.states, t.actions, |t.states| - 1);
  }

  /** Where no manifest is visible, an old build writes its document, and the other device pulls that
      and publishes the first bundle, at time 1. */
  lemma OtherPublishes(w: World, t: Tale, from: nat, i: DeviceId, b: Baseline, j: DeviceId) returns (t': Tale)
    requires Story(w, t, from, i, b) && j in t.Now().devices && i != j && t.Now().devices[j].phase.Idle?
    requires t.Now().remote.manifest.None?
    ensures Story(w, t', from, i, b) && t.Begins(t') && i in t'.Now().devices && t'.Now().devices[i] == t.Now().devices[i]
    ensures t'.Now().remote.manifest.Some? && t'.Now().remote.manifest.value.0.updatedAt == 1
  {
    assert t.Now().devices[i].baseline == b;
    var first := FreshRevisionExists(t.Now().remote.issued.Keys);
    var t1 := Continue(w, t, from, i, b, OldBuildWrites(Legacy(0, []), first));
    var t2 := PullsLegacy(w, t1, from, i, b, j);
    hide Story;
    t' := FirstPush(w, t2, from, i, b, j);
  }

  /** An idle device pulls the legacy document with its ETag and applies it. */
  lemma PullsLegacy(w: World, t: Tale, from: nat, i: DeviceId, b: Baseline, j: DeviceId) returns (t': Tale)
    requires Story(w, t, from, i, b) && j in t.Now().devices && i != j && t.Now().devices[j].phase.Idle?
    requires t.Now().remote.manifest.None? && t.Now().remote.legacy.Some?
    ensures Story(w, t', from, i, b) && t.Begins(t') && j in t'.Now().devices
    ensures t'.Now() == State(t.Now().remote, t.Now().devices[j := t'.Now().devices[j]])
    ensures t'.Now().devices[j].phase.Idle?
    ensures
      var (legacy, revision) := t.Now().remote.legacy.value;
      t'.Now().devices[j].baseline == Baseline(legacy.updatedAt, revision)
  {
    var (legacy, revision) := t.Now().remote.legacy.value;
    var pulled := PulledLegacy(legacy, revision);
    var t1 := Does(w, t, from, i, b, j, StartPull(true));
    var t2 := Does(w, t1, from, i, b, j, PullLegacyDocument(true));
    assert pulled in t2.Now().devices[j].pulled;
    t' := Does(w, t2, from, i, b, j, CommitPull(pulled, true));
  }

  lemma FirstPush(w: World, t: Tale, from: nat, i: DeviceId, b: Baseline, j: DeviceId) returns (t': Tale)
    requires Story(w, t, from, i, b) && j in t.Now().devices && i != j && t.Now().devices[j].phase.Idle?
    requires t.Now().remote.manifest.None? && t.Now().remote.legacy.Some? && t.Now().remote.legacy.value.0.updatedAt == 0
    requires t.Now().devices[j].baseline == Baseline(0, t.Now().remote.legacy.value.1)
    requires t.Now().remote.legacy.value.1 != ""
    ensures Story(w, t', from, i, b) && t.Begins(t') && i in t'.Now().devices && t'.Now().devices[i] == t.Now().devices[i]
    ensures t'.Now().remote.manifest.Some? && t'.Now().remote.manifest.value.0.updatedAt == 1
  {
    var t1 := Does(w, t, from, i, b, j, StartPush([], false, 0));
    var t2 := Does(w, t1, from, i, b, j, ReadManifest(true, 0));
    var t3 := Does(w, t2, from, i, b, j, ReadLegacy(true, 0));
    assert t3.Now().devices[j].phase == Uploading(Missing, 1, [], [], {});
    var revision := FreshRevisionExists(t3.Now().remote.issued.Keys);
    t' := Does(w, t3, from, i, b, j, PutManifest(revision, Lost));
  }

  // ---------------------------------------------------------------------
  // The exact condition
  // ---------------------------------------------------------------------

  /** A visible manifest the idle exposed device does not know: pushing now loses it. */
  lemma PushLosesIt(w: World, t: Tale, from: nat, i: DeviceId, b: Baseline) returns (t': Tale)
    requires Story(w, t, from, i, b) && i in t.Now().devices && t.Now().devices[i].phase.Idle? && b.lastSyncAt < MAX_TIME
    requires Exposed(t.Now().remote, t.Now().devices[i]) && t.Now().remote.manifest.Some?
    requires t.Now().remote.manifest.value.0 !in t.Now().devices[i].known
    ensures Story(w, t', from, i, b) && t.Begins(t') && |t'.actions| > |t.actions|
    ensures Loses(t'.states[|t'.actions| - 1], t'.actions[|t'.actions| - 1], i)
  {
    assert t.Now().devices[i].baseline == b;
    RevisionIsSomething(w, t);
    var revision := FreshRevisionExists(t.Now().remote.issued.Keys);
    t' := Pushes(w, t, from, i, b, i, revision);
  }

  /** Everything that was ever visible is no newer than what is. */
  lemma VisibleIsNewest(remote: Remote, m: Manifest)
    requires RemoteOk(Calm, remote) && m in remote.chain
    ensures remote.manifest.Some? && m.updatedAt <= remote.manifest.value.0.updatedAt
  {
    var k :| 0 <= k < |remote.chain| && remote.chain[k] == m;
  }

  /** A manifest newer than all that were visible is unknown to every device. */
  lemma NewerIsUnknown(w: World, t: Tale, i: DeviceId, m: Manifest)
    requires RunIn(w, Calm, t.states, t.actions) && i in t.Now().devices
    requires t.Now().remote.manifest.Some? ==> t.Now().remote.manifest.value.0.updatedAt < m.updatedAt
    ensures m !in t.Now().devices[i].known
  {
    RunIsConsistent(w, Calm, t.states, t.actions, |t.states| - 1);
    var remote := t.Now().remote;
    forall known | known in t.Now().devices[i].known ensures known != m {
      VisibleIsNewest(remote, known);
    }
  }

  lemma StoryIsARun(w: World, t: Tale, from: nat, i: DeviceId, b: Baseline)
    requires Story(w, t, from, i, b)
    ensures RunIn(w, Calm, t.states, t.actions) && t.states != [] && i in t.Now().devices && t.Now().devices[i].baseline == b
  {
  }

  /** While the exposed device waits, the other one makes a manifest visible that it does not know
      and that is no newer than its last sync, unless there is one already. */
  lemma UnknownAppears(w: World, t: Tale, from: nat, i: DeviceId, b: Baseline, j: DeviceId) returns (t': Tale)
    requires Story(w, t, from, i, b) && i in t.Now().devices && j in t.Now().devices && i != j && b.lastSyncAt < MAX_TIME
    requires t.Now().devices[j].phase.Idle? && Exposed(t.Now().remote, t.Now().devices[i])
    ensures Story(w, t', from, i, b) && t.Begins(t')
    ensures i in t'.Now().devices && t'.Now().devices[i] == t.Now().devices[i]
    ensures t'.Now().remote.manifest.Some? && t'.Now().remote.manifest.value.0 !in t.Now().devices[i].known
    ensures t'.Now().remote.manifest.value.0.updatedAt <= b.lastSyncAt
  {
    StoryIsARun(w, t, from, i, b);
    hide Story, RunIn;
    var d, visible := t.Now().devices[i], t.Now().remote.manifest;
    if visible.None? {
      t' := OtherPublishes(w, t, from, i, b, j);
      NewerIsUnknown(w, t, i, t'.Now().remote.manifest.value.0);
    } else if visible.value.0 in d.known {
      assert visible.value.0.updatedAt != b.lastSyncAt;
      t' := OtherPushes(w, t, from, i, b, j);
      NewerIsUnknown(w, t, i, t'.Now().remote.manifest.value.0);
    } else {
      t' := t;
    }
  }

  /** Every exposed device can lose an update, as long as there is any other device. */
  lemma ExposedDevicesLose(w: World, t: Tale, from: nat, i: DeviceId, b: Baseline, j: DeviceId) returns (t': Tale)
    requires Story(w, t, from, i, b) && i in t.Now().devices && j in t.Now().devices && i != j && b.lastSyncAt < MAX_TIME
    requires Exposed(t.Now().remote, t.Now().devices[i])
    ensures Story(w, t', from, i, b) && t.Begins(t') && |t'.actions| > |t.actions|
    ensures Loses(t'.states[|t'.actions| - 1], t'.actions[|t'.actions| - 1], i)
  {
    StoryIsARun(w, t, from, i, b);
    hide Story, RunIn, Loses;
    var t1 := Idles(w, t, from, i, b, i);
    var t2 := Idles(w, t1, from, i, b, j);
    assert t2.Now().devices[i] == t.Now().devices[i].(phase := Idle) && t2.Now().remote == t.Now().remote;
    var t3 := UnknownAppears(w, t2, from, i, b, j);
    t' := PushLosesIt(w, t3, from, i, b);
  }

  /** The exact condition, at every moment of every calm run: a device can go on, with the baseline it
      has, to lose an update, if and only if it is exposed now. */
  lemma CanLoseIffExposed(w: World, states: seq<State>, actions: seq<Action>, i: DeviceId, j: DeviceId)
    requires RunIn(w, Calm, states, actions) && i != j
    requires i in states[|states| - 1].devices && j in states[|states| - 1].devices
    requires states[|states| - 1].devices[i].baseline.lastSyncAt < MAX_TIME
    ensures CanLose(w, states, actions, i) <==>
            Exposed(states[|states| - 1].remote, states[|states| - 1].devices[i])
  {
    var from, now := |states| - 1, states[|states| - 1];
    var b := now.devices[i].baseline;
    if Exposed(now.remote, now.devices[i]) {
      var t := ExposedDevicesLose(w, Tale(states, actions), from, i, b, j);
      assert LosesAfter(w, states, actions, i, t.states, t.actions);
    }
    if CanLose(w, states, actions, i) {
      var states', actions' :| LosesAfter(w, states, actions, i, states', actions');
      var k := |actions'| - 1;
      assert states'[from] == now;
      LosersWereExposed(w, states', actions', from, k, i, b);
    }
  }
}
