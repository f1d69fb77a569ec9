/**
 Pushes get through: what a device can do while nobody disturbs it. The safety claims of
 SyncNoLostUpdate would hold of a program that refuses everything; here a push is followed from
 its start to the saved baseline, and from there to the next push.
 */
module SyncProgress {
  import opened Wrappers
  import opened SyncBundle
  import opened SyncProtocol

  // ---------------------------------------------------------------------
  // One device alone
  // ---------------------------------------------------------------------

  /** The events follow one another, and nothing happens in between. */
  function Alone(w: World, remote: Remote, d: Device, events: seq<Event>): (Remote, Device)
    requires w.Valid()
    decreases |events|
  {
    if events == [] then (remote, d)
    else
      var (r, d') := Step(w, remote, d, events[0]);
      Alone(w, r, d', events[1..])
  }

  /** Each of them can happen when its turn comes. */
  ghost predicate Possible(w: World, remote: Remote, d: Device, events: seq<Event>)
    decreases |events|
  {
    events != [] ==>
      && CanStep(w, remote, d, events[0])
      && var (r, d') := Step(w, remote, d, events[0]); Possible(w, r, d', events[1..])
  }

  lemma {:induction false} AloneThenMore(w: World, remote: Remote, d: Device, a: seq<Event>, b: seq<Event>)
    requires w.Valid()
    ensures
      var (r, d') := Alone(w, remote, d, a);
      && Alone(w, remote, d, a + b) == Alone(w, r, d', b)
      && (Possible(w, remote, d, a) && Possible(w, r, d', b) ==> Possible(w, remote, d, a + b))
    decreases |a|
  {
    hide Step, CanStep;
    if a == [] {
      assert a + b == b;
    } else {
      var (r, d') := Step(w, remote, d, a[0]);
      AloneThenMore(w, r, d', a[1..], b);
      assert (a + b)[1..] == a[1..] + b;
    }
  }

  lemma AloneOnce(w: World, remote: Remote, d: Device, e: Event)
    requires w.Valid()
    ensures Alone(w, remote, d, [e]) == Step(w, remote, d, e)
    ensures CanStep(w, remote, d, e) ==> Possible(w, remote, d, [e])
  {
    hide Step, CanStep;
    var (r, d') := Step(w, remote, d, e);
    assert [e][1..] == [];
    assert Alone(w, r, d', []) == (r, d');
    assert Possible(w, r, d', []);
  }

  // ---------------------------------------------------------------------
  // A push without failures
  // ---------------------------------------------------------------------

  /** What a push of these sections, stamped at this time, makes visible. */
  function Pushed(w: World, sections: Sections, now: nat, b: Baseline): Manifest
    requires w.Valid()
  {
    ManifestOf(w, sections, NextUpdatedAt(now, b))
  }

  function Uploads(n: nat): seq<Event> {
    if n == 0 then [] else [PutSection] + Uploads(n - 1)
  }

  /** The requests of a push up to the decision, each answered with its ETag. */
  function Decision(remote: Remote, sections: Sections, force: bool, now: nat): seq<Event> {
    [StartPush(sections, force, now)] +
    if force then []
    else if remote.manifest.Some? then [ReadManifest(true, now)]
    else [ReadManifest(true, now), ReadLegacy(true, now)]
  }

  /** The manifest write and the saving of the baseline. An answer without an ETag makes the device
      read the manifest again. */
  function Closing(revision: Revision, tagged: bool): seq<Event> {
    [PutManifest(revision, if tagged then Tagged else Untagged)] + (if tagged then [] else [Reread(true, true)])
    + [SaveBaseline(true)]
  }

  function Writing(sections: Sections, revision: Revision, tagged: bool): seq<Event> {
    Uploads(|sections|) + Closing(revision, tagged)
  }

  function PushEvents(remote: Remote, sections: Sections, force: bool, now: nat, revision: Revision, tagged: bool): seq<Event> {
    Decision(remote, sections, force, now) + Writing(sections, revision, tagged)
  }

  lemma {:induction false} UploadsFinish(w: World, remote: Remote, d: Device)
    requires w.Valid() && d.phase.Uploading?
    ensures
      var (r, d') := Alone(w, remote, d, Uploads(|d.phase.todo|));
      && d' == d.(phase := d.phase.(todo := [], files := d.phase.files + FilesOf(w, d.phase.todo)))
      && r == remote.(objects := r.objects)
      && Possible(w, remote, d, Uploads(|d.phase.todo|))
    decreases |d.phase.todo|
  {
    var todo := d.phase.todo;
    if todo == [] {
      assert d.phase.files + FilesOf(w, todo) == d.phase.files;
    } else {
      assert Uploads(|todo|)[0] == PutSection && Uploads(|todo|)[1..] == Uploads(|todo| - 1);
      var (r, d') := Step(w, remote, d, PutSection);
      UploadsFinish(w, r, d');
      hide FileOf, ObjectName;
      assert d.phase.files + FilesOf(w, todo) ==
             d.phase.files + [FileOf(w, todo[0].0, todo[0].1)] + FilesOf(w, todo[1..]);
    }
  }

  /** With everything uploaded the manifest gets visible, and its time and revision are remembered. */
  lemma WriteAndSave(w: World, remote: Remote, d: Device, revision: Revision, tagged: bool)
    requires w.Valid() && d.phase.Uploading? && d.phase.todo == []
    requires ConditionHolds(remote, d.phase.condition)
    requires FreshRevision(remote, revision, ManifestDoc(UploadedManifest(d.phase)))
    ensures
      var m := UploadedManifest(d.phase);
      var events := Closing(revision, tagged);
      var (r, d') := Alone(w, remote, d, events);
      && Possible(w, remote, d, events)
      && r == remote.(manifest := Some((m, revision)), issued := remote.issued[revision := ManifestDoc(m)],
                      chain := remote.chain + [m])
      && d' == d.(phase := Idle, baseline := Baseline(m.updatedAt, revision), known := d.known + {m})
  {
    var put, reread, save := PutManifest(revision, if tagged then Tagged else Untagged), Reread(true, true), SaveBaseline(true);
    var (r, d1) := Step(w, remote, d, put);
    AloneOnce(w, remote, d, put);
    if tagged {
      assert [put] + [] == [put];
      AloneOnce(w, r, d1, save);
      AloneThenMore(w, remote, d, [put], [save]);
    } else {
      var (_, d2) := Step(w, r, d1, reread);
      AloneOnce(w, r, d1, reread);
      AloneOnce(w, r, d2, save);
      AloneThenMore(w, remote, d, [put], [reread]);
      AloneThenMore(w, remote, d, [put] + [reread], [save]);
    }
  }

  /** The writing half of a push: if the condition of the decision still holds, it succeeds. */
  lemma WritingSucceeds(w: World, remote: Remote, d: Device, revision: Revision, tagged: bool)
    requires w.Valid() && d.phase.Uploading? && d.phase.files == []
    requires ConditionHolds(remote, d.phase.condition)
    requires FreshRevision(remote, revision, ManifestDoc(ManifestOf(w, d.phase.todo, d.phase.updatedAt)))
    ensures
      var m := ManifestOf(w, d.phase.todo, d.phase.updatedAt);
      var events := Writing(d.phase.todo, revision, tagged);
      var (r, d') := Alone(w, remote, d, events);
      && Possible(w, remote, d, events)
      && r.manifest == Some((m, revision)) && r.legacy == remote.legacy
      && r.issued == remote.issued[revision := ManifestDoc(m)]
      && d' == d.(phase := Idle, baseline := Baseline(m.updatedAt, revision), known := d.known + {m})
  {
    var todo := d.phase.todo;
    var (r, d') := Alone(w, remote, d, Uploads(|todo|));
    UploadsFinish(w, remote, d);
    assert [] + FilesOf(w, todo) == FilesOf(w, todo);
    WriteAndSave(w, r, d', revision, tagged);
    AloneThenMore(w, remote, d, Uploads(|todo|), Closing(revision, tagged));
    hide Alone, Possible, FilesOf, Uploads, Closing;
  }

  // ---------------------------------------------------------------------
  // When a push is let through
  // ---------------------------------------------------------------------

  /** In the words of the settings page: the device has synced with this remote, and the remote still
      has what it synced with, or at least nothing newer; or neither of them has anything yet. */
  predicate UpToDate(remote: Remote, b: Baseline) {
    if remote.manifest.Some? then
      b != NO_BASELINE && b.lastRevision in {"", remote.manifest.value.1}
      && remote.manifest.value.0.updatedAt <= b.lastSyncAt
    else if remote.legacy.Some? then
      b != NO_BASELINE && b.lastRevision in {"", remote.legacy.value.1}
      && remote.legacy.value.0.updatedAt <= b.lastSyncAt
    else b == NO_BASELINE
  }

  /** ETags are not empty. */
  predicate Labelled(remote: Remote) {
    && (remote.manifest.Some? ==> remote.manifest.value.1 != "")
    && (remote.legacy.Some? ==> remote.legacy.value.1 != "")
  }

  /** A push that is not disturbed is decided like this: a forced one always goes on, and any other
      exactly if the device is up to date. Nothing has been written until then, and what the visible
      manifest names will not be sent again. */
  lemma DecisionIff(w: World, remote: Remote, d: Device, sections: Sections, force: bool, now: nat)
    requires w.Valid() && d.phase.Idle? && Labelled(remote)
    requires ProperSections(sections) && PayloadsInRun(w, sections) && now <= MAX_TIME
    ensures
      var events := Decision(remote, sections, force, now);
      var (r, d') := Alone(w, remote, d, events);
      && Possible(w, remote, d, events) && r == remote && d' == d.(phase := d'.phase)
      && if force || UpToDate(remote, d.baseline)
         then d'.phase.Uploading? && d'.phase.todo == sections && d'.phase.files == []
              && d'.phase.updatedAt == NextUpdatedAt(now, d.baseline) && ConditionHolds(remote, d'.phase.condition)
              && d'.phase.condition.Unconditional? == force
              && d'.phase.skip == if force || remote.manifest.None? then {} else FileNames(remote.manifest.value.0.files)
         else d'.phase.Idle?
  {
    var start, read, legacy := StartPush(sections, force, now), ReadManifest(true, now), ReadLegacy(true, now);
    var (_, d1) := Step(w, remote, d, start);
    AloneOnce(w, remote, d, start);
    if force {
      assert [start] + [] == [start];
    } else {
      var (_, d2) := Step(w, remote, d1, read);
      AloneOnce(w, remote, d1, read);
      AloneThenMore(w, remote, d, [start], [read]);
      if remote.manifest.None? {
        AloneOnce(w, remote, d2, legacy);
        AloneThenMore(w, remote, d, [start] + [read], [legacy]);
        assert [start] + [read] + [legacy] == [start] + [read, legacy];
      }
    }
  }

  /** The whole push: forced or up to date, it makes its manifest visible and remembers it. */
  lemma UndisturbedPushesSucceed(
    w: World, remote: Remote, d: Device, sections: Sections, force: bool, now: nat, revision: Revision, tagged: bool)
    requires w.Valid() && d.phase.Idle? && Labelled(remote)
    requires ProperSections(sections) && PayloadsInRun(w, sections) && now <= MAX_TIME
    requires FreshRevision(remote, revision, ManifestDoc(Pushed(w, sections, now, d.baseline)))
    requires force || UpToDate(remote, d.baseline)
    ensures
      var m := Pushed(w, sections, now, d.baseline);
      var events := PushEvents(remote, sections, force, now, revision, tagged);
      var (r, d') := Alone(w, remote, d, events);
      && Possible(w, remote, d, events)
      && r.manifest == Some((m, revision)) && r.legacy == remote.legacy
      && r.issued == remote.issued[revision := ManifestDoc(m)]
      && d' == d.(phase := Idle, baseline := Baseline(m.updatedAt, revision), known := d.known + {m})
  {
    DecisionIff(w, remote, d, sections, force, now);
    var (_, d') := Alone(w, remote, d, Decision(remote, sections, force, now));
    WritingSucceeds(w, remote, d', revision, tagged);
    AloneThenMore(w, remote, d, Decision(remote, sections, force, now), Writing(sections, revision, tagged));
    hide Alone, Possible, Decision, Writing, UpToDate, Labelled;
  }

  // ---------------------------------------------------------------------
  // From one push to the next
  // ---------------------------------------------------------------------

  /** A device that remembers exactly the visible manifest is up to date. */
  lemma RememberedManifestsAreUpToDate(remote: Remote, m: Manifest, revision: Revision)
    requires remote.manifest == Some((m, revision)) && revision != ""
    ensures UpToDate(remote, Baseline(m.updatedAt, revision))
  {
  }

  datatype Job = Job(sections: Sections, force: bool, now: nat, revision: Revision, tagged: bool)

  /** The pushes one after the other. */
  function AllPushes(w: World, remote: Remote, d: Device, jobs: seq<Job>): seq<Event>
    requires w.Valid()
    decreases |jobs|
  {
    if jobs == [] then []
    else
      var events := PushEvents(remote, jobs[0].sections, jobs[0].force, jobs[0].now, jobs[0].revision, jobs[0].tagged);
      var (r, d') := Alone(w, remote, d, events);
      events + AllPushes(w, r, d', jobs[1..])
  }

  /** What they make visible, oldest first: each is stamped past the one before. */
  function AllPushed(w: World, b: Baseline, jobs: seq<Job>): (ms: seq<Manifest>)
    requires w.Valid()
    ensures |ms| == |jobs|
    decreases |jobs|
  {
    if jobs == [] then []
    else
      var m := Pushed(w, jobs[0].sections, jobs[0].now, b);
      [m] + AllPushed(w, Baseline(m.updatedAt, jobs[0].revision), jobs[1..])
  }

  ghost predicate Pushable(w: World, remote: Remote, jobs: seq<Job>) {
    && (forall i :: 0 <= i < |jobs| ==>
          && ProperSections(jobs[i].sections) && PayloadsInRun(w, jobs[i].sections) && jobs[i].now <= MAX_TIME
          && jobs[i].revision != "" && jobs[i].revision !in remote.issued)
    && (forall i, j :: 0 <= i < j < |jobs| ==> jobs[i].revision != jobs[j].revision)
  }

  /** A device that is up to date and alone can push as often as it likes: every push gets through
      without being forced, and the last one is what is visible and remembered in the end. */
  lemma {:induction false} PushesKeepSucceeding(w: World, remote: Remote, d: Device, jobs: seq<Job>)
    requires w.Valid() && d.phase.Idle? && Labelled(remote) && jobs != []
    requires Pushable(w, remote, jobs) && (jobs[0].force || UpToDate(remote, d.baseline))
    ensures
      var n := |jobs| - 1;
      var (r, d') := Alone(w, remote, d, AllPushes(w, remote, d, jobs));
      var m := AllPushed(w, d.baseline, jobs)[n];
      && Possible(w, remote, d, AllPushes(w, remote, d, jobs))
      && r.manifest == Some((m, jobs[n].revision))
      && d'.phase.Idle? && d'.baseline == Baseline(m.updatedAt, jobs[n].revision)
      && forall k :: 0 <= k <= n ==> AllPushed(w, d.baseline, jobs)[k] in d'.known
    decreases |jobs|
  {
    FirstPushSucceeds(w, remote, d, jobs);
    var events := PushEvents(remote, jobs[0].sections, jobs[0].force, jobs[0].now, jobs[0].revision, jobs[0].tagged);
    var (r, d') := Alone(w, remote, d, events);
    var m := Pushed(w, jobs[0].sections, jobs[0].now, d.baseline);
    var ms, rest := AllPushed(w, d.baseline, jobs), AllPushed(w, d'.baseline, jobs[1..]);
    assert ms == [m] + rest;
    KnownStays(w, r, d', AllPushes(w, r, d', jobs[1..]));
    hide PushEvents, UpToDate, Labelled, Pushed, AllPushed, Pushable, Step, Alone, Possible;
    AloneThenMore(w, remote, d, events, AllPushes(w, r, d', jobs[1..]));
    if |jobs| == 1 {
      assert AllPushes(w, remote, d, jobs) == events + [] == events;
    } else {
      PushesKeepSucceeding(w, r, d', jobs[1..]);
    }
  }

  lemma FirstPushSucceeds(w: World, remote: Remote, d: Device, jobs: seq<Job>)
    requires w.Valid() && d.phase.Idle? && Labelled(remote) && jobs != []
    requires Pushable(w, remote, jobs) && (jobs[0].force || UpToDate(remote, d.baseline))
    ensures
      var job := jobs[0];
      var events := PushEvents(remote, job.sections, job.force, job.now, job.revision, job.tagged);
      var (r, d') := Alone(w, remote, d, events);
      var m := Pushed(w, job.sections, job.now, d.baseline);
      && Possible(w, remote, d, events)
      && r.manifest == Some((m, job.revision)) && Labelled(r) && Pushable(w, r, jobs[1..])
      && d'.phase.Idle? && d'.baseline == Baseline(m.updatedAt, job.revision) && m in d'.known
      && UpToDate(r, d'.baseline)
  {
    var job := jobs[0];
    UndisturbedPushesSucceed(w, remote, d, job.sections, job.force, job.now, job.revision, job.tagged);
    hide Alone, Possible, PushEvents, Pushed;
    var (r, d') := Alone(w, remote, d, PushEvents(remote, job.sections, job.force, job.now, job.revision, job.tagged));
    PushableTail(w, remote, r, jobs);
  }

  lemma PushableTail(w: World, remote: Remote, r: Remote, jobs: seq<Job>)
    requires Pushable(w, remote, jobs) && jobs != []
    requires forall revision :: revision in r.issued ==> revision in remote.issued || revision == jobs[0].revision
    ensures Pushable(w, r, jobs[1..])
  {
  }

  /** A device never forgets what it has pushed or applied. */
  lemma {:induction false} KnownStays(w: World, remote: Remote, d: Device, events: seq<Event>)
    requires w.Valid()
    ensures d.known <= Alone(w, remote, d, events).1.known
    decreases |events|
  {
    if events != [] {
      var (r, d') := Step(w, remote, d, events[0]);
      KnownStays(w, r, d', events[1..]);
    }
  }

  // ---------------------------------------------------------------------
  // A pull, and the push after it
  // ---------------------------------------------------------------------

  function Fetches(n: nat): seq<Event> {
    if n == 0 then [] else [FetchObject] + Fetches(n - 1)
  }

  function PayloadsOf(objects: Objects, files: seq<BundleFile>): seq<Payload>
    requires forall i :: 0 <= i < |files| ==> files[i].name in objects
  {
    seq(|files|, i requires 0 <= i < |files| => objects[files[i].name])
  }

  lemma {:induction false} FetchesFinish(w: World, remote: Remote, d: Device)
    requires w.Valid() && d.phase.Fetching? && AllStored(w, remote.objects, d.phase.manifest.files)
    requires |d.phase.got| <= |d.phase.manifest.files|
    requires d.phase.got == PayloadsOf(remote.objects, d.phase.manifest.files)[..|d.phase.got|]
    ensures
      var events := Fetches(|d.phase.manifest.files| - |d.phase.got|);
      && Alone(w, remote, d, events)
         == (remote, d.(phase := d.phase.(got := PayloadsOf(remote.objects, d.phase.manifest.files))))
      && Possible(w, remote, d, events)
    decreases |d.phase.manifest.files| - |d.phase.got|
  {
    var files := d.phase.manifest.files;
    var n := |files| - |d.phase.got|;
    if n > 0 {
      assert Stored(w, remote.objects, files[|d.phase.got|]);
      assert Fetches(n)[0] == FetchObject && Fetches(n)[1..] == Fetches(n - 1);
      var (r, d') := Step(w, remote, d, FetchObject);
      FetchesFinish(w, r, d');
    } else {
      assert Fetches(n) == [];
      assert PayloadsOf(remote.objects, files)[..|files|] == PayloadsOf(remote.objects, files);
    }
  }

  lemma {:induction false} DamageStopsFetches(w: World, remote: Remote, d: Device)
    requires w.Valid() && d.phase.Fetching? && |d.phase.got| <= |d.phase.manifest.files|
    requires !AllStored(w, remote.objects, d.phase.manifest.files[|d.phase.got|..])
    ensures Alone(w, remote, d, Fetches(|d.phase.manifest.files| - |d.phase.got|)) == (remote, d.(phase := Idle))
    decreases |d.phase.manifest.files| - |d.phase.got|
  {
    var files, i := d.phase.manifest.files, |d.phase.got|;
    var n := |files| - i;
    assert Fetches(n)[0] == FetchObject && Fetches(n)[1..] == Fetches(n - 1);
    var (r, d') := Step(w, remote, d, FetchObject);
    if Stored(w, remote.objects, files[i]) {
      assert files[i..] == [files[i]] + files[i + 1..];
      DamageStopsFetches(w, r, d');
    } else {
      IdleStays(w, remote, d', n - 1);
    }
  }

  lemma {:induction false} IdleStays(w: World, remote: Remote, d: Device, n: nat)
    requires w.Valid() && d.phase.Idle?
    ensures Alone(w, remote, d, Fetches(n)) == (remote, d)
  {
    if n > 0 {
      assert Fetches(n)[0] == FetchObject && Fetches(n)[1..] == Fetches(n - 1);
      IdleStays(w, remote, d, n - 1);
    }
  }

  /** A pull of a bundle with a missing or damaged object changes nothing, however far it got. */
  lemma {:induction false} DamagedBundlesAreNotPulled(w: World, remote: Remote, d: Device)
    requires w.Valid() && d.phase.Idle? && remote.manifest.Some?
    requires !AllStored(w, remote.objects, remote.manifest.value.0.files)
    ensures Alone(w, remote, d, [StartPull(true)] + Fetches(|remote.manifest.value.0.files|)) == (remote, d)
  {
    var (m, revision) := remote.manifest.value;
    var d1 := d.(phase := Fetching(m, revision, []));
    AloneOnce(w, remote, d, StartPull(true));
    assert m.files[0..] == m.files;
    DamageStopsFetches(w, remote, d1);
    AloneThenMore(w, remote, d, [StartPull(true)], Fetches(|m.files|));
  }

  /** After a change of the target the device has to pull first, or to force its push, unless nothing
      is there yet. */
  lemma NewTargetsArePulledFirst(w: World, remote: Remote, d: Device)
    requires w.Valid() && d.phase.Idle?
    ensures
      var (r, d') := Step(w, remote, d, Retarget);
      r == remote && d' == d.(baseline := d'.baseline)
      && (UpToDate(remote, d'.baseline) <==> remote.manifest.None? && remote.legacy.None?)
  {
  }

  function PullEvents(m: Manifest, pulled: Pulled): seq<Event> {
    [StartPull(true)] + Fetches(|m.files|) + [FinishPull, CommitPull(pulled, true)]
  }

  lemma FinishAndCommit(w: World, remote: Remote, d: Device)
    requires w.Valid() && d.phase.Fetching? && |d.phase.got| == |d.phase.manifest.files|
    ensures
      var m, p := d.phase.manifest, PulledBundle(d.phase.manifest, d.phase.revision, d.phase.got);
      var events := [FinishPull, CommitPull(p, true)];
      && Alone(w, remote, d, events)
         == (remote, d.(phase := Idle, baseline := Baseline(m.updatedAt, d.phase.revision),
                        pulled := d.pulled + {p}, known := d.known + {m}))
      && Possible(w, remote, d, events)
  {
    var p := PulledBundle(d.phase.manifest, d.phase.revision, d.phase.got);
    var finish, commit := FinishPull, CommitPull(p, true);
    var (r, d1) := Step(w, remote, d, finish);
    AloneOnce(w, remote, d, finish);
    AloneOnce(w, r, d1, commit);
    AloneThenMore(w, remote, d, [finish], [commit]);
    assert [finish] + [commit] == [finish, commit];
  }

  /** A pull that is not disturbed applies the visible bundle, and leaves the device up to date. */
  lemma UndisturbedPullsSucceed(w: World, remote: Remote, d: Device)
    requires w.Valid() && d.phase.Idle? && remote.manifest.Some? && remote.manifest.value.1 != ""
    requires AllStored(w, remote.objects, remote.manifest.value.0.files)
    ensures
      var (m, revision) := remote.manifest.value;
      var p := PulledBundle(m, revision, PayloadsOf(remote.objects, m.files));
      var events := PullEvents(m, p);
      && Alone(w, remote, d, events)
         == (remote, d.(baseline := Baseline(m.updatedAt, revision), pulled := d.pulled + {p}, known := d.known + {m}))
      && Possible(w, remote, d, events)
      && UpToDate(remote, Baseline(m.updatedAt, revision))
  {
    var (m, revision) := remote.manifest.value;
    var payloads := PayloadsOf(remote.objects, m.files);
    var p := PulledBundle(m, revision, payloads);
    var d1 := d.(phase := Fetching(m, revision, []));
    AloneOnce(w, remote, d, StartPull(true));
    assert payloads[..0] == [];
    FetchesFinish(w, remote, d1);
    var d2 := d1.(phase := Fetching(m, revision, payloads));
    FinishAndCommit(w, remote, d2);
    hide Alone, Possible, Fetches, UpToDate;
    AloneThenMore(w, remote, d, [StartPull(true)], Fetches(|m.files|));
    AloneThenMore(w, remote, d, [StartPull(true)] + Fetches(|m.files|), [FinishPull, CommitPull(p, true)]);
    RememberedManifestsAreUpToDate(remote, m, revision);
  }

  /** So does a pull of the single document of older builds, where there is no bundle. */
  lemma UndisturbedLegacyPullsSucceed(w: World, remote: Remote, d: Device)
    requires w.Valid() && d.phase.Idle? && remote.manifest.None? && remote.legacy.Some? && remote.legacy.value.1 != ""
    ensures
      var (legacy, revision) := remote.legacy.value;
      var p := PulledLegacy(legacy, revision);
      var events := [StartPull(true), PullLegacyDocument(true), CommitPull(p, true)];
      && Alone(w, remote, d, events)
         == (remote, d.(baseline := Baseline(legacy.updatedAt, revision), pulled := d.pulled + {p}))
      && Possible(w, remote, d, events)
      && UpToDate(remote, Baseline(legacy.updatedAt, revision))
  {
    var (legacy, revision) := remote.legacy.value;
    var p := PulledLegacy(legacy, revision);
    var start, read, commit := StartPull(true), PullLegacyDocument(true), CommitPull(p, true);
    var (_, d1) := Step(w, remote, d, start);
    var (_, d2) := Step(w, remote, d1, read);
    AloneOnce(w, remote, d, start);
    AloneOnce(w, remote, d1, read);
    AloneOnce(w, remote, d2, commit);
    AloneThenMore(w, remote, d, [start], [read]);
    AloneThenMore(w, remote, d, [start] + [read], [commit]);
    assert [start] + [read] + [commit] == [start, read, commit];
  }

  // ---------------------------------------------------------------------
  // With others around
  // ---------------------------------------------------------------------

  /** In any run: between the answer to its manifest write and the saving of its baseline a device
      may be overtaken by all others, and still remembers the time and the revision of what it wrote. */
  lemma SavedPushesAreRemembered(w: World, states: seq<State>, actions: seq<Action>, j: nat, k: nat, i: DeviceId)
    requires Run(w, states, actions) && j < k < |actions| && i in states[j].devices
    requires actions[j].On? && actions[j].device == i && actions[j].event.PutManifest? && actions[j].event.answer == Tagged
    requires states[j].devices[i].phase.Uploading?
    requires ConditionHolds(states[j].remote, states[j].devices[i].phase.condition)
    requires forall l :: j < l < k ==> !(actions[l].On? && actions[l].device == i)
    requires actions[k] == On(i, SaveBaseline(true))
    ensures
      var m := UploadedManifest(states[j].devices[i].phase);
      && states[j + 1].remote.manifest == Some((m, actions[j].event.revision))
      && i in states[k + 1].devices && states[k + 1].devices[i].phase.Idle?
      && states[k + 1].devices[i].baseline == Baseline(m.updatedAt, actions[j].event.revision)
      && m in states[k + 1].devices[i].known
  {
    assert Enabled(w, states[j], actions[j]) && states[j + 1] == Apply(w, states[j], actions[j]);
    OthersLeaveItAlone(w, states, actions, j + 1, k, i);
    assert Enabled(w, states[k], actions[k]) && states[k + 1] == Apply(w, states[k], actions[k]);
  }

  /** In any run: a baseline is what the device saved last, after a push or with a pulled document, and
      it has kept it ever since. */
  lemma {:induction false} BaselineWasSaved(w: World, states: seq<State>, actions: seq<Action>, k: nat, i: DeviceId)
    returns (j: nat)
    requires w.Valid() && Run(w, states, actions) && k < |states|
    requires i in states[k].devices && states[k].devices[i].baseline != NO_BASELINE
    ensures j < k && actions[j].On? && actions[j].device == i && i in states[j].devices
    ensures
      var e, b := actions[j].event, states[k].devices[i].baseline;
      || (e == SaveBaseline(true) && states[j].devices[i].phase == Saving(b.lastSyncAt, b.lastRevision))
      || (e.CommitPull? && e.saved && e.pulled in states[j].devices[i].pulled && e.pulled.revision == b.lastRevision
          && b.lastSyncAt == if e.pulled.PulledBundle? then e.pulled.manifest.updatedAt else e.pulled.legacy.updatedAt)
    ensures forall l :: j < l <= k ==> i in states[l].devices && states[l].devices[i].baseline == states[k].devices[i].baseline
  {
    var a := actions[k - 1];
    assert Enabled(w, states[k - 1], a) && states[k] == Apply(w, states[k - 1], a);
    assert i in states[k - 1].devices;
    var saves := a.On? && a.device == i && (a.event == SaveBaseline(true) || (a.event.CommitPull? && a.event.saved));
    if saves {
      j := k - 1;
    } else {
      assert states[k].devices[i].baseline == states[k - 1].devices[i].baseline;
      j := BaselineWasSaved(w, states, actions, k - 1, i);
    }
  }

  lemma {:induction false} OthersLeaveItAlone(w: World, states: seq<State>, actions: seq<Action>, j: nat, k: nat, i: DeviceId)
    requires Run(w, states, actions) && j <= k < |actions| && i in states[j].devices
    requires forall l :: j <= l < k ==> !(actions[l].On? && actions[l].device == i)
    ensures i in states[k].devices && states[k].devices[i] == states[j].devices[i]
    decreases k - j
  {
    if j < k {
      assert Enabled(w, states[k - 1], actions[k - 1]) && states[k] == Apply(w, states[k - 1], actions[k - 1]);
      OthersLeaveItAlone(w, states, actions, j, k - 1, i);
    }
  }
}
