/**
 The sync bundle (packages/api/src/sync.rs): section objects named by their content, and a
 manifest that lists them. This module holds the data, the naming and the two directions,
 upload and download, on a store nobody else uses; interleavings are in SyncProtocol.
 */
module SyncBundle {
  import opened Wrappers
  import opened Text

  type Payload = seq<bv8>

  const MAX_SYNC_BYTES: nat := 20 * 1024 * 1024
  const MAX_BUNDLE_FILES: nat := 16
  const SNAPSHOT_FORMAT := "kitty-pro-sync"
  const LEGACY_SNAPSHOT_VERSION: nat := 1
  const SNAPSHOT_VERSION: nat := 2
  const BUNDLE_FORMAT := "kitty-pro-sync-bundle"
  const BUNDLE_VERSION: nat := 1

  const SUBSCRIPTIONS := "subscriptions"
  const CUSTOM_RULES := "custom-rules"
  const DNS_OVERRIDES := "dns-overrides"
  const CONFIG_SCRIPT := "config-script"

  predicate IsSection(s: string) {
    s in {SUBSCRIPTIONS, CUSTOM_RULES, DNS_OVERRIDES, CONFIG_SCRIPT}
  }

  datatype BundleFile = BundleFile(section: string, name: string, size: nat, sha256: string)

  datatype Manifest = Manifest(format: string, version: nat, updatedAt: nat, files: seq<BundleFile>)

  // ---------------------------------------------------------------------
  // Content addressing
  // ---------------------------------------------------------------------

  predicate IsHex(c: char) {
    '0' <= c <= '9' || 'a' <= c <= 'f'
  }

  predicate IsHexDigest(s: string) {
    |s| == 64 && forall i :: 0 <= i < |s| ==> IsHex(s[i])
  }

  /** SHA-256 in lower-case hexadecimal, together with the payloads that occur in a run: on those
      the sixteen digits that go into a name tell payloads apart. */
  datatype World = World(hash: Payload -> string, payloads: set<Payload>) {
    ghost predicate Valid() {
      && (forall p :: IsHexDigest(hash(p)))
      && (forall p, q :: p in payloads && q in payloads && hash(p)[..16] == hash(q)[..16] ==> p == q)
    }
  }

  function ObjectName(w: World, section: string, payload: Payload): string
    requires w.Valid()
  {
    section + "-" + w.hash(payload)[..16] + ".json"
  }

  function FileOf(w: World, section: string, payload: Payload): BundleFile
    requires w.Valid()
  {
    BundleFile(section, ObjectName(w, section, payload), |payload|, w.hash(payload))
  }

  /** Among the payloads of a run a name determines section and content. */
  lemma NamesAddressContent(w: World, s: string, p: Payload, s': string, p': Payload)
    requires w.Valid() && p in w.payloads && p' in w.payloads && IsSection(s) && IsSection(s')
    requires ObjectName(w, s, p) == ObjectName(w, s', p')
    ensures s == s' && p == p'
  {
    var n, n' := ObjectName(w, s, p), ObjectName(w, s', p');
    assert |n| == |s| + 22 && |n'| == |s'| + 22;
    assert s == n[..|s|] == n'[..|s|] == s';
    assert w.hash(p)[..16] == n[|s| + 1..|s| + 17];
    assert w.hash(p')[..16] == n'[|s| + 1..|s| + 17];
  }

  // ---------------------------------------------------------------------
  // Structural checks of the reader
  // ---------------------------------------------------------------------

  predicate NameCharacter(c: char) {
    'a' <= c <= 'z' || '0' <= c <= '9' || c in "-_."
  }

  predicate ValidFileName(name: string) {
    && 0 < |name| <= 128
    && |name| >= 5 && name[|name| - 5..] == ".json"
    && (forall i :: 0 <= i < |name| ==> NameCharacter(name[i]))
    && name[0] != '.'
    && (forall i :: 0 <= i < |name| - 1 ==> !(name[i] == '.' && name[i + 1] == '.'))
  }

  predicate ValidEntry(file: BundleFile) {
    && IsSection(file.section)
    && ValidFileName(file.name)
    && file.section <= file.name
    && |file.sha256| == 64
    && forall i :: 0 <= i < 64 ==>
         '0' <= file.sha256[i] <= '9' || 'a' <= file.sha256[i] <= 'f' || 'A' <= file.sha256[i] <= 'F'
  }

  /** What `download_manifest` and `validate_manifest_shape` demand. */
  predicate WellShaped(m: Manifest) {
    && m.format == BUNDLE_FORMAT && m.version == BUNDLE_VERSION
    && |m.files| <= MAX_BUNDLE_FILES
    && (forall i :: 0 <= i < |m.files| ==> ValidEntry(m.files[i]))
    && (forall i, j :: 0 <= i < j < |m.files| ==> m.files[i].section != m.files[j].section)
  }

  lemma SectionCharacters(s: string)
    requires IsSection(s)
    ensures 12 <= |s| <= 13 && s[0] != '.'
    ensures forall i :: 0 <= i < |s| ==> 'a' <= s[i] <= 'z' || s[i] == '-'
  {
  }

  /** Every entry that a push writes passes the reader's checks. */
  lemma WrittenEntriesAreValid(w: World, section: string, payload: Payload)
    requires w.Valid() && IsSection(section)
    ensures ValidEntry(FileOf(w, section, payload))
  {
    var digits := w.hash(payload)[..16];
    var name := ObjectName(w, section, payload);
    SectionCharacters(section);
    assert |name| == |section| + 22;
    assert name[|name| - 5..] == ".json";
    forall i | 0 <= i < |name| ensures NameCharacter(name[i]) && (name[i] == '.' <==> i == |section| + 17) {
      if i < |section| {
        assert name[i] == section[i];
      } else if i == |section| {
        assert name[i] == '-';
      } else if i < |section| + 17 {
        assert name[i] == digits[i - |section| - 1];
        assert IsHex(w.hash(payload)[i - |section| - 1]);
      } else {
        assert name[i] == ".json"[i - |section| - 17];
      }
    }
  }

  // ---------------------------------------------------------------------
  // Snapshots and their sections
  // ---------------------------------------------------------------------

  /** A subscription with its parsed nodes and counters (`rest`) travelling along. */
  datatype Subscription = Subscription(id: nat, name: string, source: string, rest: string)
  datatype CustomRule = CustomRule(text: string)
  datatype DnsOverride = DnsOverride(id: nat, enabled: bool, domainSuffix: string, server: string)
  datatype ConfigScript = ConfigScript(enabled: bool, script: string)

  datatype Snapshot = Snapshot(
    format: string,
    version: nat,
    updatedAt: nat,
    subscriptions: seq<Subscription>,
    customRules: seq<CustomRule>,
    dnsOverrides: Option<seq<DnsOverride>>,
    configScript: Option<ConfigScript>)

  /** JSON in both directions, and the checks on rule, DNS and script contents. */
  datatype Codec = Codec(
    encodeSubscriptions: seq<Subscription> -> Payload,
    decodeSubscriptions: Payload -> Option<seq<Subscription>>,
    encodeRules: seq<CustomRule> -> Payload,
    decodeRules: Payload -> Option<seq<CustomRule>>,
    encodeOverrides: seq<DnsOverride> -> Payload,
    decodeOverrides: Payload -> Option<seq<DnsOverride>>,
    encodeScript: ConfigScript -> Payload,
    decodeScript: Payload -> Option<ConfigScript>,
    encodeManifest: Manifest -> Payload,
    decodeManifest: Payload -> Option<Manifest>,
    rulesOk: seq<CustomRule> -> bool,
    overridesOk: seq<DnsOverride> -> bool,
    scriptOk: ConfigScript -> bool)
  {
    /** Decoding inverts encoding for the sections of this snapshot and for this manifest. */
    predicate RoundTrips(s: Snapshot, m: Manifest) {
      && decodeSubscriptions(encodeSubscriptions(s.subscriptions)) == Some(s.subscriptions)
      && decodeRules(encodeRules(s.customRules)) == Some(s.customRules)
      && (s.dnsOverrides.Some? ==> decodeOverrides(encodeOverrides(s.dnsOverrides.value)) == s.dnsOverrides)
      && (s.configScript.Some? ==> decodeScript(encodeScript(s.configScript.value)) == s.configScript)
      && decodeManifest(encodeManifest(m)) == Some(m)
    }
  }

  predicate DistinctIds(subscriptions: seq<Subscription>) {
    forall i, j :: 0 <= i < j < |subscriptions| ==> subscriptions[i].id != subscriptions[j].id
  }

  /** `validate_snapshot`. Absent sections are not checked. */
  predicate ValidSnapshot(codec: Codec, s: Snapshot) {
    && s.format == SNAPSHOT_FORMAT
    && s.version in {LEGACY_SNAPSHOT_VERSION, SNAPSHOT_VERSION}
    && codec.rulesOk(s.customRules)
    && (s.dnsOverrides.Some? ==> codec.overridesOk(s.dnsOverrides.value))
    && (s.configScript.Some? ==> codec.scriptOk(s.configScript.value))
    && |s.subscriptions| <= 1024
    && (forall i :: 0 <= i < |s.subscriptions| ==>
          s.subscriptions[i].id != 0 && Trim(s.subscriptions[i].source, IsSpace) != "")
    && DistinctIds(s.subscriptions)
  }

  type Sections = seq<(string, Payload)>

  /** `bundle_sections`: an absent section writes no object. */
  function BundleSections(codec: Codec, s: Snapshot): Sections {
    [(SUBSCRIPTIONS, codec.encodeSubscriptions(s.subscriptions)), (CUSTOM_RULES, codec.encodeRules(s.customRules))]
    + (if s.dnsOverrides.Some? then [(DNS_OVERRIDES, codec.encodeOverrides(s.dnsOverrides.value))] else [])
    + (if s.configScript.Some? then [(CONFIG_SCRIPT, codec.encodeScript(s.configScript.value))] else [])
  }

  /** Known section names, none twice. */
  predicate ProperSections(sections: Sections) {
    && |sections| <= MAX_BUNDLE_FILES
    && (forall i :: 0 <= i < |sections| ==> IsSection(sections[i].0))
    && (forall i, j :: 0 <= i < j < |sections| ==> sections[i].0 != sections[j].0)
  }

  lemma BundleSectionsAreProper(codec: Codec, s: Snapshot)
    ensures ProperSections(BundleSections(codec, s)) && 2 <= |BundleSections(codec, s)| <= 4
  {
    assert |SUBSCRIPTIONS| == |DNS_OVERRIDES| == |CONFIG_SCRIPT| == 13 && |CUSTOM_RULES| == 12;
    assert SUBSCRIPTIONS[0] == 's' && DNS_OVERRIDES[0] == 'd' && CONFIG_SCRIPT[0] == 'c';
  }

  function FilesOf(w: World, sections: Sections): (files: seq<BundleFile>)
    requires w.Valid()
    ensures |files| == |sections|
    ensures forall i :: 0 <= i < |files| ==> files[i] == FileOf(w, sections[i].0, sections[i].1)
  {
    seq(|sections|, i requires 0 <= i < |sections| => FileOf(w, sections[i].0, sections[i].1))
  }

  function ManifestOf(w: World, sections: Sections, updatedAt: nat): Manifest
    requires w.Valid()
  {
    Manifest(BUNDLE_FORMAT, BUNDLE_VERSION, updatedAt, FilesOf(w, sections))
  }

  /** The reader's structural checks accept every manifest a push writes. */
  lemma WrittenManifestIsWellShaped(w: World, sections: Sections, updatedAt: nat)
    requires w.Valid() && ProperSections(sections)
    ensures WellShaped(ManifestOf(w, sections, updatedAt))
  {
    forall i | 0 <= i < |sections| ensures ValidEntry(FilesOf(w, sections)[i]) {
      WrittenEntriesAreValid(w, sections[i].0, sections[i].1);
    }
  }

  // ---------------------------------------------------------------------
  // The store
  // ---------------------------------------------------------------------

  type Objects = map<string, Payload>

  /** Every stored object has a name that its content gives it. */
  ghost predicate ContentAddressed(w: World, objects: Objects) {
    w.Valid() && forall n :: n in objects ==>
      objects[n] in w.payloads && exists s :: IsSection(s) && n == ObjectName(w, s, objects[n])
  }

  /** The object an entry names is stored with the size and digest the entry states. */
  predicate Stored(w: World, objects: Objects, file: BundleFile) {
    file.name in objects && |objects[file.name]| == file.size && w.hash(objects[file.name]) == file.sha256
  }

  predicate AllStored(w: World, objects: Objects, files: seq<BundleFile>) {
    forall i :: 0 <= i < |files| ==> Stored(w, objects, files[i])
  }

  ghost predicate Grown(before: Objects, after: Objects) {
    forall n :: n in before ==> n in after && after[n] == before[n]
  }

  /** Writing an object under its name, or finding the name there, leaves the object stored and
      every other one as it was. */
  lemma ObjectWritten(w: World, objects: Objects, section: string, payload: Payload)
    requires ContentAddressed(w, objects) && IsSection(section) && payload in w.payloads
    ensures
      var name := ObjectName(w, section, payload);
      && (name in objects ==> objects[name] == payload)
      && Grown(objects, objects[name := payload])
      && ContentAddressed(w, objects[name := payload])
      && Stored(w, objects[name := payload], FileOf(w, section, payload))
  {
    var name := ObjectName(w, section, payload);
    if name in objects {
      var s :| IsSection(s) && name == ObjectName(w, s, objects[name]);
      NamesAddressContent(w, section, payload, s, objects[name]);
    }
  }

  datatype Condition = Unconditional | Match(revision: string) | Missing

  datatype SyncError = Network | PreconditionFailed | TooLarge | ObjectMissing | WrongSize | WrongDigest | Invalid

  /** A store that only this device uses. Requests fail, with or without having had an effect; `faults`
      counts them, and `sent` lists the objects that were sent. */
  class RemoteStore {
    var objects: Objects
    var manifest: Option<Payload>
    var revision: string
    ghost var faults: nat
    ghost var sent: seq<string>

    predicate Holds(condition: Condition)
      reads this
    {
      match condition
      case Unconditional => true
      case Match(expected) => manifest.Some? && revision == expected
      case Missing => manifest.None?
    }

    method PutObject(name: string, payload: Payload) returns (ok: bool)
      modifies this`objects, this`faults, this`sent
      ensures objects in {old(objects), old(objects)[name := payload]}
      ensures ok ==> objects == old(objects)[name := payload]
      ensures sent == old(sent) + [name] && faults == old(faults) + if ok then 0 else 1
    {
      sent := sent + [name];
      ok := false;
      if * {
        objects := objects[name := payload];
        ok := *;
      }
      faults := faults + if ok then 0 else 1;
    }

    method GetObject(name: string) returns (answer: Result<Payload, SyncError>)
      modifies this`faults
      ensures faults >= old(faults)
      ensures answer == if faults > old(faults) then Err(Network)
                        else if name in objects then Ok(objects[name]) else Err(ObjectMissing)
    {
      if * {
        faults := faults + 1;
        return Err(Network);
      }
      answer := if name in objects then Ok(objects[name]) else Err(ObjectMissing);
    }

    /** Sections 13.1.1 and 13.1.2 of RFC 9110: the condition is checked against what is there. */
    method PutManifest(bytes: Payload, condition: Condition, etag: string) returns (answer: Result<string, SyncError>)
      modifies this`manifest, this`revision, this`faults
      ensures faults >= old(faults)
      ensures answer == if faults > old(faults) then Err(Network)
                        else if old(Holds(condition)) then Ok(etag) else Err(PreconditionFailed)
      ensures answer.Ok? ==> manifest == Some(bytes) && revision == etag
      ensures manifest == old(manifest) || (old(Holds(condition)) && manifest == Some(bytes))
    {
      if * {
        faults := faults + 1;
        return Err(Network);
      }
      if !Holds(condition) {
        return Err(PreconditionFailed);
      }
      manifest, revision := Some(bytes), etag;
      if * {
        faults := faults + 1;
        return Err(Network);
      }
      answer := Ok(etag);
    }
  }

  function TotalSize(sections: Sections): nat {
    if sections == [] then 0 else TotalSize(sections[..|sections| - 1]) + |sections[|sections| - 1].1|
  }

  ghost predicate PayloadsInRun(w: World, sections: Sections) {
    forall i :: 0 <= i < |sections| ==> sections[i].1 in w.payloads
  }

  /** The objects that have to be sent: those whose names the remote is not known to have. */
  function NamesToSend(w: World, sections: Sections, known: set<string>): seq<string>
    requires w.Valid()
  {
    if sections == [] then [] else
      var last := sections[|sections| - 1];
      var name := ObjectName(w, last.0, last.1);
      NamesToSend(w, sections[..|sections| - 1], known) + if name in known then [] else [name]
  }

  /** One section: nothing is sent when the remote is known to have an object of that name. */
  method UploadSection(store: RemoteStore, w: World, section: string, payload: Payload, known: set<string>)
    returns (ok: bool)
    requires ContentAddressed(w, store.objects) && known <= store.objects.Keys
    requires IsSection(section) && payload in w.payloads
    modifies store`objects, store`faults, store`sent
    ensures ContentAddressed(w, store.objects) && Grown(old(store.objects), store.objects)
    ensures ok ==> Stored(w, store.objects, FileOf(w, section, payload))
    ensures store.sent == old(store.sent) + NamesToSend(w, [(section, payload)], known)
    ensures store.faults == old(store.faults) + if ok then 0 else 1
  {
    var name := ObjectName(w, section, payload);
    ObjectWritten(w, store.objects, section, payload);
    ok := true;
    if name !in known {
      ok := store.PutObject(name, payload);
    } else {
      assert store.objects[name := payload] == store.objects;
    }
  }

  lemma StoredStays(w: World, before: Objects, after: Objects, files: seq<BundleFile>)
    requires AllStored(w, before, files) && Grown(before, after)
    ensures AllStored(w, after, files)
  {
    forall i | 0 <= i < |files| ensures Stored(w, after, files[i]) {
      assert Stored(w, before, files[i]);
    }
  }

  lemma NoSections(w: World, known: set<string>)
    requires w.Valid()
    ensures NamesToSend(w, [], known) == [] && TotalSize([]) == 0
  {
  }

  lemma OneMoreSection(w: World, sections: Sections, i: nat, known: set<string>)
    requires w.Valid() && i < |sections|
    ensures NamesToSend(w, sections[..i + 1], known)
            == NamesToSend(w, sections[..i], known) + NamesToSend(w, [(sections[i].0, sections[i].1)], known)
    ensures TotalSize(sections[..i + 1]) == TotalSize(sections[..i]) + |sections[i].1|
  {
    assert sections[..i + 1][..i] == sections[..i];
    assert [(sections[i].0, sections[i].1)][..0] == [];
  }

  lemma GrownFrom(w: World, objects: Objects)
    ensures Grown(objects, objects) && AllStored(w, objects, [])
  {
  }

  lemma GrownTwice(a: Objects, b: Objects, c: Objects)
    requires Grown(a, b) && Grown(b, c)
    ensures Grown(a, c)
  {
  }

  lemma OneMoreStored(w: World, objects: Objects, files: seq<BundleFile>, file: BundleFile)
    requires AllStored(w, objects, files) && Stored(w, objects, file)
    ensures AllStored(w, objects, files + [file])
  {
  }

  lemma {:induction false} TotalGrows(sections: Sections, n: nat)
    requires n <= |sections|
    ensures TotalSize(sections[..n]) <= TotalSize(sections)
    decreases |sections|
  {
    if n < |sections| {
      assert sections[..|sections| - 1][..n] == sections[..n];
      TotalGrows(sections[..|sections| - 1], n);
    } else {
      assert sections[..n] == sections;
    }
  }

  /** The loop of `upload_bundle` over the sections. */
  method UploadSections(store: RemoteStore, w: World, sections: Sections, known: set<string>)
    returns (r: Result<seq<BundleFile>, SyncError>)
    requires w.Valid() && ContentAddressed(w, store.objects) && known <= store.objects.Keys
    requires ProperSections(sections) && PayloadsInRun(w, sections)
    modifies store`objects, store`faults, store`sent
    ensures ContentAddressed(w, store.objects) && Grown(old(store.objects), store.objects)
    ensures r.Ok? ==> r.value == FilesOf(w, sections) && AllStored(w, store.objects, r.value)
    ensures r.Ok? ==> store.sent == old(store.sent) + NamesToSend(w, sections, known)
    ensures store.faults >= old(store.faults) && (r.Ok? ==> store.faults == old(store.faults))
    ensures store.faults == old(store.faults) ==> (r.Ok? <==> TotalSize(sections) <= MAX_SYNC_BYTES)
    ensures r.Err? ==> r.error == if store.faults > old(store.faults) then Network else TooLarge
  {
    hide ContentAddressed, Stored, AllStored, Grown, FileOf, ObjectName, IsSection, NamesToSend, TotalSize;
    GrownFrom(w, store.objects);
    NoSections(w, known);
    assert sections[..0] == [];
    ghost var written := FilesOf(w, sections);
    var files: seq<BundleFile> := [];
    var total: nat := 0;
    for i := 0 to |sections|
      invariant ContentAddressed(w, store.objects) && Grown(old(store.objects), store.objects)
      invariant known <= store.objects.Keys
      invariant files == written[..i] && AllStored(w, store.objects, files)
      invariant store.sent == old(store.sent) + NamesToSend(w, sections[..i], known)
      invariant store.faults == old(store.faults)
      invariant total == TotalSize(sections[..i]) <= MAX_SYNC_BYTES
    {
      var (section, payload) := sections[i];
      OneMoreSection(w, sections, i, known);
      total := total + |payload|;
      if total > MAX_SYNC_BYTES {
        TotalGrows(sections, i + 1);
        return Err(TooLarge);
      }
      ghost var before := store.objects;
      var ok := UploadSection(store, w, section, payload, known);
      GrownTwice(old(store.objects), before, store.objects);
      if !ok {
        return Err(Network);
      }
      StoredStays(w, before, store.objects, files);
      OneMoreStored(w, store.objects, files, FileOf(w, section, payload));
      files := files + [FileOf(w, section, payload)];
      assert files == written[..i + 1];
    }
    assert sections[..|sections|] == sections;
    r := Ok(files);
  }

  /** `upload_bundle`: the sections, then the manifest. When it reports success, the manifest is
      there and all it names is stored; a visible manifest is never without its objects. If no request
      fails, only the size cap and the condition can stop it. */
  method UploadBundle(
    store: RemoteStore, w: World, codec: Codec, snapshot: Snapshot,
    condition: Condition, known: set<string>, etag: string)
    returns (r: Result<string, SyncError>)
    requires ContentAddressed(w, store.objects) && known <= store.objects.Keys
    requires PayloadsInRun(w, BundleSections(codec, snapshot))
    modifies store
    ensures ContentAddressed(w, store.objects) && Grown(old(store.objects), store.objects)
    ensures r.Ok? ==> store.manifest == Some(codec.encodeManifest(ManifestOf(w, BundleSections(codec, snapshot), snapshot.updatedAt)))
    ensures r.Ok? || store.manifest != old(store.manifest) ==>
      && old(store.Holds(condition))
      && store.manifest == Some(codec.encodeManifest(ManifestOf(w, BundleSections(codec, snapshot), snapshot.updatedAt)))
      && AllStored(w, store.objects, FilesOf(w, BundleSections(codec, snapshot)))
      && TotalSize(BundleSections(codec, snapshot)) <= MAX_SYNC_BYTES
    ensures r.Ok? ==> store.sent == old(store.sent) + NamesToSend(w, BundleSections(codec, snapshot), known)
    ensures store.faults == old(store.faults) ==>
      r == if TotalSize(BundleSections(codec, snapshot)) > MAX_SYNC_BYTES then Err(TooLarge)
           else if old(store.Holds(condition)) then Ok(etag) else Err(PreconditionFailed)
    ensures store.faults > old(store.faults) ==> r == Err(Network)
    ensures store.faults >= old(store.faults)
  {
    BundleSectionsAreProper(codec, snapshot);
    hide BundleSections, FilesOf;
    var sections := BundleSections(codec, snapshot);
    var files := UploadSections(store, w, sections, known);
    if files.Err? {
      return Err(files.error);
    }
    var manifest := Manifest(BUNDLE_FORMAT, BUNDLE_VERSION, snapshot.updatedAt, files.value);
    r := store.PutManifest(codec.encodeManifest(manifest), condition, etag);
  }

  // ---------------------------------------------------------------------
  // Reading a bundle
  // ---------------------------------------------------------------------

  datatype Loaded = Loaded(payloads: map<string, Payload>, total: nat)

  function Load(w: World, loaded: Loaded, file: BundleFile, bytes: Payload): Result<Loaded, SyncError> {
    var total := loaded.total + |bytes|;
    if total > MAX_SYNC_BYTES then Err(TooLarge)
    else if |bytes| != file.size then Err(WrongSize)
    else if w.hash(bytes) != file.sha256 then Err(WrongDigest)
    else Ok(Loaded(loaded.payloads[file.section := bytes], total))
  }

  /** The objects of a manifest, checked one after the other; the first failure ends it. */
  function LoadAll(w: World, objects: Objects, files: seq<BundleFile>): Result<Loaded, SyncError> {
    if files == [] then Ok(Loaded(map[], 0)) else
      var last := files[|files| - 1];
      match LoadAll(w, objects, files[..|files| - 1])
      case Err(e) => Err(e)
      case Ok(loaded) =>
        if last.name !in objects then Err(ObjectMissing) else Load(w, loaded, last, objects[last.name])
  }

  function Decoded<T>(decode: Payload -> Option<T>, payloads: map<string, Payload>, section: string): Result<Option<T>, SyncError> {
    if section !in payloads then Ok(None)
    else
      match decode(payloads[section])
      case Some(value) => Ok(Some(value))
      case None => Err(Invalid)
  }

  function OrEmpty<T>(section: Option<seq<T>>): seq<T> {
    match section
    case Some(items) => items
    case None => []
  }

  /** The snapshot assembled from the loaded sections: the first two default to empty lists. */
  function Assemble(codec: Codec, payloads: map<string, Payload>, updatedAt: nat): Result<Snapshot, SyncError> {
    var subscriptions := Decoded(codec.decodeSubscriptions, payloads, SUBSCRIPTIONS);
    var rules := Decoded(codec.decodeRules, payloads, CUSTOM_RULES);
    var overrides := Decoded(codec.decodeOverrides, payloads, DNS_OVERRIDES);
    var script := Decoded(codec.decodeScript, payloads, CONFIG_SCRIPT);
    if subscriptions.Err? || rules.Err? || overrides.Err? || script.Err? then Err(Invalid)
    else
      var s := Snapshot(SNAPSHOT_FORMAT, SNAPSHOT_VERSION, updatedAt, OrEmpty(subscriptions.value),
                        OrEmpty(rules.value), overrides.value, script.value);
      if ValidSnapshot(codec, s) then Ok(s) else Err(Invalid)
  }

  function ReadBundle(w: World, codec: Codec, objects: Objects, manifest: Manifest): Result<Snapshot, SyncError> {
    match LoadAll(w, objects, manifest.files)
    case Err(e) => Err(e)
    case Ok(loaded) => Assemble(codec, loaded.payloads, manifest.updatedAt)
  }

  /** `download_manifest` on what is there, then `download_bundle`. */
  function Pull(w: World, codec: Codec, objects: Objects, bytes: Payload): Result<Snapshot, SyncError> {
    if |bytes| > MAX_SYNC_BYTES then Err(TooLarge)
    else
      match codec.decodeManifest(bytes)
      case None => Err(Invalid)
      case Some(manifest) =>
        if WellShaped(manifest) then ReadBundle(w, codec, objects, manifest) else Err(Invalid)
  }

  /** `download_bundle` on an undisturbed store reads what `ReadBundle` says, or a request fails. What
      it returns was read from objects that all have the size and digest the manifest states. */
  method DownloadBundle(store: RemoteStore, w: World, codec: Codec, manifest: Manifest)
    returns (r: Result<Snapshot, SyncError>)
    modifies store`faults
    ensures store.faults >= old(store.faults)
    ensures r == if store.faults > old(store.faults) then Err(Network) else ReadBundle(w, codec, store.objects, manifest)
    ensures r.Ok? ==> AllStored(w, store.objects, manifest.files)
  {
    var payloads: map<string, Payload> := map[];
    var total: nat := 0;
    for i := 0 to |manifest.files|
      invariant LoadAll(w, store.objects, manifest.files[..i]) == Ok(Loaded(payloads, total))
      invariant store.faults == old(store.faults)
    {
      var file := manifest.files[i];
      assert manifest.files[..i + 1][..i] == manifest.files[..i];
      ghost var next := LoadAll(w, store.objects, manifest.files[..i + 1]);
      if next.Err? {
        LoadErrorStays(w, store.objects, manifest.files, i + 1);
      }
      var answer := store.GetObject(file.name);
      if answer.Err? {
        return Err(answer.error);
      }
      var bytes := answer.value;
      total := total + |bytes|;
      if total > MAX_SYNC_BYTES {
        return Err(TooLarge);
      }
      if |bytes| != file.size {
        return Err(WrongSize);
      }
      if w.hash(bytes) != file.sha256 {
        return Err(WrongDigest);
      }
      payloads := payloads[file.section := bytes];
    }
    assert manifest.files[..|manifest.files|] == manifest.files;
    LoadsIff(w, store.objects, manifest.files);
    r := Assemble(codec, payloads, manifest.updatedAt);
  }

  lemma {:induction false} LoadErrorStays(w: World, objects: Objects, files: seq<BundleFile>, n: nat)
    requires n <= |files| && LoadAll(w, objects, files[..n]).Err?
    ensures LoadAll(w, objects, files) == LoadAll(w, objects, files[..n])
    decreases |files|
  {
    if n < |files| {
      var front := files[..|files| - 1];
      assert front[..n] == files[..n];
      LoadErrorStays(w, objects, front, n);
    } else {
      assert files[..n] == files;
    }
  }

  // ---------------------------------------------------------------------
  // What is accepted
  // ---------------------------------------------------------------------

  /** The sizes a manifest states, together. */
  function StatedSize(files: seq<BundleFile>): nat {
    if files == [] then 0 else StatedSize(files[..|files| - 1]) + files[|files| - 1].size
  }

  /** Exactly the bundles whose objects are all there with the size and digest the manifest states,
      within the cap, are loaded. */
  lemma {:induction false} LoadsIff(w: World, objects: Objects, files: seq<BundleFile>)
    ensures LoadAll(w, objects, files).Ok? <==> AllStored(w, objects, files) && StatedSize(files) <= MAX_SYNC_BYTES
    ensures LoadAll(w, objects, files).Ok? ==> LoadAll(w, objects, files).value.total == StatedSize(files)
    decreases |files|
  {
    if files != [] {
      var n := |files| - 1;
      LoadsIff(w, objects, files[..n]);
      assert AllStored(w, objects, files) <==> AllStored(w, objects, files[..n]) && Stored(w, objects, files[n]);
    }
  }

  /** What is loaded under a section is the object of its entry. */
  lemma {:induction false} LoadedByName(w: World, objects: Objects, files: seq<BundleFile>)
    requires LoadAll(w, objects, files).Ok?
    requires forall i, j :: 0 <= i < j < |files| ==> files[i].section != files[j].section
    ensures
      var payloads := LoadAll(w, objects, files).value.payloads;
      && (forall i :: 0 <= i < |files| ==>
            && files[i].name in objects && files[i].section in payloads
            && payloads[files[i].section] == objects[files[i].name])
      && (forall section :: section in payloads ==> exists i :: 0 <= i < |files| && files[i].section == section)
    decreases |files|
  {
    if files != [] {
      hide Stored;
      var n := |files| - 1;
      LoadedByName(w, objects, files[..n]);
      forall section | section in LoadAll(w, objects, files).value.payloads
        ensures exists i :: 0 <= i < |files| && files[i].section == section
      {
        if section != files[n].section {
          var i :| 0 <= i < n && files[..n][i].section == section;
          assert files[i].section == section;
        }
      }
    }
  }

  /** A section is there with this value, or it is absent: then there is no value. */
  ghost predicate Carries<T(!new)>(
    objects: Objects, files: seq<BundleFile>, section: string, decode: Payload -> Option<T>, value: Option<T>)
  {
    && (forall i :: 0 <= i < |files| && files[i].section == section ==>
          value.Some? && files[i].name in objects && decode(objects[files[i].name]) == value)
    && ((forall i :: 0 <= i < |files| ==> files[i].section != section) ==> value == None)
  }

  ghost predicate CarriesList<T(!new)>(
    objects: Objects, files: seq<BundleFile>, section: string, decode: Payload -> Option<seq<T>>, items: seq<T>)
  {
    Carries(objects, files, section, decode, Some(items))
    || (items == [] && Carries(objects, files, section, decode, None))
  }

  /** The snapshot has the sections that the objects of the manifest say, and passes the checks. */
  ghost predicate SaysSnapshot(codec: Codec, objects: Objects, m: Manifest, s: Snapshot) {
    && CarriesList(objects, m.files, SUBSCRIPTIONS, codec.decodeSubscriptions, s.subscriptions)
    && CarriesList(objects, m.files, CUSTOM_RULES, codec.decodeRules, s.customRules)
    && Carries(objects, m.files, DNS_OVERRIDES, codec.decodeOverrides, s.dnsOverrides)
    && Carries(objects, m.files, CONFIG_SCRIPT, codec.decodeScript, s.configScript)
    && s.version == SNAPSHOT_VERSION && s.updatedAt == m.updatedAt && ValidSnapshot(codec, s)
  }

  /** Moreover every object is intact. */
  ghost predicate Genuine(w: World, codec: Codec, objects: Objects, m: Manifest, s: Snapshot) {
    AllStored(w, objects, m.files) && StatedSize(m.files) <= MAX_SYNC_BYTES && SaysSnapshot(codec, objects, m, s)
  }

  lemma CarriesWhatIsDecoded<T(!new)>(
    w: World, objects: Objects, files: seq<BundleFile>, section: string, decode: Payload -> Option<T>, value: Option<T>)
    requires LoadAll(w, objects, files).Ok?
    requires forall i, j :: 0 <= i < j < |files| ==> files[i].section != files[j].section
    ensures Carries(objects, files, section, decode, value) <==>
            Decoded(decode, LoadAll(w, objects, files).value.payloads, section) == Ok(value)
  {
    LoadedByName(w, objects, files);
    hide LoadAll;
    var payloads := LoadAll(w, objects, files).value.payloads;
    if section in payloads {
      var i :| 0 <= i < |files| && files[i].section == section;
      assert payloads[section] == objects[files[i].name];
    }
  }

  /** A pull accepts a snapshot if and only if it is genuine. In particular an object with other bytes
      than its entry states is never read, even if it decodes. */
  lemma PullAcceptsIff(w: World, codec: Codec, objects: Objects, bytes: Payload, s: Snapshot)
    ensures
      Pull(w, codec, objects, bytes) == Ok(s) <==>
        && |bytes| <= MAX_SYNC_BYTES && codec.decodeManifest(bytes).Some?
        && WellShaped(codec.decodeManifest(bytes).value)
        && Genuine(w, codec, objects, codec.decodeManifest(bytes).value, s)
  {
    hide LoadAll, AllStored, StatedSize, SaysSnapshot, Assemble;
    if |bytes| <= MAX_SYNC_BYTES && codec.decodeManifest(bytes).Some? && WellShaped(codec.decodeManifest(bytes).value) {
      var m := codec.decodeManifest(bytes).value;
      LoadsIff(w, objects, m.files);
      if LoadAll(w, objects, m.files).Ok? {
        AssembleIff(w, codec, objects, m, s);
      }
    }
  }

  lemma AssembleIff(w: World, codec: Codec, objects: Objects, m: Manifest, s: Snapshot)
    requires LoadAll(w, objects, m.files).Ok? && WellShaped(m)
    ensures Assemble(codec, LoadAll(w, objects, m.files).value.payloads, m.updatedAt) == Ok(s) <==>
            SaysSnapshot(codec, objects, m, s)
  {
    CarriesWhatIsDecoded(w, objects, m.files, SUBSCRIPTIONS, codec.decodeSubscriptions, Some(s.subscriptions));
    CarriesWhatIsDecoded(w, objects, m.files, SUBSCRIPTIONS, codec.decodeSubscriptions, None);
    CarriesWhatIsDecoded(w, objects, m.files, CUSTOM_RULES, codec.decodeRules, Some(s.customRules));
    CarriesWhatIsDecoded(w, objects, m.files, CUSTOM_RULES, codec.decodeRules, None);
    CarriesWhatIsDecoded(w, objects, m.files, DNS_OVERRIDES, codec.decodeOverrides, s.dnsOverrides);
    CarriesWhatIsDecoded(w, objects, m.files, CONFIG_SCRIPT, codec.decodeScript, s.configScript);
    hide Carries, LoadAll, WellShaped, Decoded, DistinctIds, Trim;
  }

  // ---------------------------------------------------------------------
  // Push, then pull
  // ---------------------------------------------------------------------

  function PayloadsBySection(sections: Sections): map<string, Payload> {
    if sections == [] then map[]
    else PayloadsBySection(sections[..|sections| - 1])[sections[|sections| - 1].0 := sections[|sections| - 1].1]
  }

  /** A stored object of the run is the very payload its entry was made from. */
  lemma StoredIsPayload(w: World, objects: Objects, section: string, payload: Payload)
    requires ContentAddressed(w, objects) && payload in w.payloads
    requires Stored(w, objects, FileOf(w, section, payload))
    ensures objects[ObjectName(w, section, payload)] == payload
  {
  }

  lemma {:induction false} WrittenFilesLoad(w: World, objects: Objects, sections: Sections)
    requires ContentAddressed(w, objects) && PayloadsInRun(w, sections)
    requires AllStored(w, objects, FilesOf(w, sections)) && TotalSize(sections) <= MAX_SYNC_BYTES
    ensures LoadAll(w, objects, FilesOf(w, sections)) == Ok(Loaded(PayloadsBySection(sections), TotalSize(sections)))
    decreases |sections|
  {
    if sections != [] {
      var n := |sections| - 1;
      var files := FilesOf(w, sections);
      assert FilesOf(w, sections[..n]) == files[..n];
      WrittenFilesLoad(w, objects, sections[..n]);
      assert files[n] == FileOf(w, sections[n].0, sections[n].1);
      StoredIsPayload(w, objects, sections[n].0, sections[n].1);
    }
  }

  lemma {:induction false} SectionIsFound(sections: Sections, i: nat)
    requires ProperSections(sections) && i < |sections|
    ensures sections[i].0 in PayloadsBySection(sections)
    ensures PayloadsBySection(sections)[sections[i].0] == sections[i].1
    decreases |sections|
  {
    var n := |sections| - 1;
    if i < n {
      SectionIsFound(sections[..n], i);
    }
  }

  lemma {:induction false} OnlySectionsAreFound(sections: Sections, section: string)
    requires section in PayloadsBySection(sections)
    ensures exists i :: 0 <= i < |sections| && sections[i].0 == section
    decreases |sections|
  {
    var n := |sections| - 1;
    if sections[n].0 != section {
      OnlySectionsAreFound(sections[..n], section);
      var i :| 0 <= i < n && sections[..n][i].0 == section;
      assert sections[i].0 == section;
    }
  }

  lemma SnapshotSectionsAreFound(codec: Codec, s: Snapshot)
    ensures
      var p := PayloadsBySection(BundleSections(codec, s));
      && SUBSCRIPTIONS in p && p[SUBSCRIPTIONS] == codec.encodeSubscriptions(s.subscriptions)
      && CUSTOM_RULES in p && p[CUSTOM_RULES] == codec.encodeRules(s.customRules)
      && (DNS_OVERRIDES in p <==> s.dnsOverrides.Some?)
      && (s.dnsOverrides.Some? ==> p[DNS_OVERRIDES] == codec.encodeOverrides(s.dnsOverrides.value))
      && (CONFIG_SCRIPT in p <==> s.configScript.Some?)
      && (s.configScript.Some? ==> p[CONFIG_SCRIPT] == codec.encodeScript(s.configScript.value))
  {
    var sections := BundleSections(codec, s);
    BundleSectionsAreProper(codec, s);
    SectionIsFound(sections, 0);
    SectionIsFound(sections, 1);
    if |sections| > 2 {
      SectionIsFound(sections, 2);
    }
    if |sections| > 3 {
      SectionIsFound(sections, 3);
    }
    assert |SUBSCRIPTIONS| == |DNS_OVERRIDES| == |CONFIG_SCRIPT| == 13 && |CUSTOM_RULES| == 12;
    assert SUBSCRIPTIONS[0] == 's' && DNS_OVERRIDES[0] == 'd' && CONFIG_SCRIPT[0] == 'c';
    if DNS_OVERRIDES in PayloadsBySection(sections) {
      OnlySectionsAreFound(sections, DNS_OVERRIDES);
    }
    if CONFIG_SCRIPT in PayloadsBySection(sections) {
      OnlySectionsAreFound(sections, CONFIG_SCRIPT);
    }
  }

  /** Push then pull is the identity: once a push of a valid snapshot within the size cap has
      stored its objects, pulling the manifest it writes rebuilds the same snapshot, absent sections
      staying absent, exactly if the manifest itself fits into a response. (Its four entries take a
      few hundred bytes.) The version is the current one either way. */
  lemma PushThenPull(w: World, codec: Codec, objects: Objects, s: Snapshot)
    requires w.Valid() && ValidSnapshot(codec, s)
    requires codec.RoundTrips(s, ManifestOf(w, BundleSections(codec, s), s.updatedAt))
    requires ContentAddressed(w, objects) && PayloadsInRun(w, BundleSections(codec, s))
    requires AllStored(w, objects, FilesOf(w, BundleSections(codec, s)))
    requires TotalSize(BundleSections(codec, s)) <= MAX_SYNC_BYTES
    ensures
      var bytes := codec.encodeManifest(ManifestOf(w, BundleSections(codec, s), s.updatedAt));
      Pull(w, codec, objects, bytes) ==
        if |bytes| <= MAX_SYNC_BYTES then Ok(s.(version := SNAPSHOT_VERSION)) else Err(TooLarge)
  {
    hide BundleSections, FilesOf, LoadAll, PayloadsBySection, WellShaped, TotalSize;
    var sections := BundleSections(codec, s);
    BundleSectionsAreProper(codec, s);
    WrittenManifestIsWellShaped(w, sections, s.updatedAt);
    WrittenFilesLoad(w, objects, sections);
    SnapshotSectionsAreFound(codec, s);
  }

  /** What the theorem asks for can be had, for every snapshot that passes the structural checks and
      every hash: with a coder for which this snapshot is the only one there is. */
  lemma PushThenPullApplies(hash: Payload -> string, s: Snapshot) returns (w: World, codec: Codec, objects: Objects)
    requires forall p :: IsHexDigest(hash(p))
    requires s.format == SNAPSHOT_FORMAT && s.version == SNAPSHOT_VERSION && |s.subscriptions| <= 1024
    requires DistinctIds(s.subscriptions)
    requires forall i :: 0 <= i < |s.subscriptions| ==>
      s.subscriptions[i].id != 0 && Trim(s.subscriptions[i].source, IsSpace) != ""
    ensures w.Valid() && w.hash == hash && ValidSnapshot(codec, s)
    ensures codec.RoundTrips(s, ManifestOf(w, BundleSections(codec, s), s.updatedAt))
    ensures ContentAddressed(w, objects) && PayloadsInRun(w, BundleSections(codec, s))
    ensures AllStored(w, objects, FilesOf(w, BundleSections(codec, s)))
    ensures TotalSize(BundleSections(codec, s)) <= MAX_SYNC_BYTES
    ensures Pull(w, codec, objects, codec.encodeManifest(ManifestOf(w, BundleSections(codec, s), s.updatedAt))) == Ok(s)
  {
    w := World(hash, {[]});
    var sections := NoBytes(s);
    var m := ManifestOf(w, sections, s.updatedAt);
    codec := Codec(
      _ => [], _ => Some(s.subscriptions), _ => [], _ => Some(s.customRules), _ => [], _ => s.dnsOverrides,
      _ => [], _ => s.configScript, _ => [], _ => Some(m), _ => true, _ => true, _ => true);
    assert BundleSections(codec, s) == sections;
    objects := EmptyObjects(w, sections);
    NoBytesAreStored(w, s);
    PushThenPull(w, codec, objects, s);
  }

  function NoBytes(s: Snapshot): Sections {
    [(SUBSCRIPTIONS, []), (CUSTOM_RULES, [])]
    + (if s.dnsOverrides.Some? then [(DNS_OVERRIDES, [])] else [])
    + (if s.configScript.Some? then [(CONFIG_SCRIPT, [])] else [])
  }

  function EmptyNames(w: World, sections: Sections): set<string>
    requires w.Valid()
  {
    set i | 0 <= i < |sections| :: ObjectName(w, sections[i].0, [])
  }

  function EmptyObjects(w: World, sections: Sections): Objects
    requires w.Valid()
  {
    map name | name in EmptyNames(w, sections) :: []
  }

  lemma NoBytesAreStored(w: World, s: Snapshot)
    requires w.Valid() && w.payloads == {[]}
    ensures ContentAddressed(w, EmptyObjects(w, NoBytes(s))) && PayloadsInRun(w, NoBytes(s))
    ensures AllStored(w, EmptyObjects(w, NoBytes(s)), FilesOf(w, NoBytes(s))) && TotalSize(NoBytes(s)) == 0
  {
    var sections := NoBytes(s);
    assert forall i :: 0 <= i < |sections| ==> IsSection(sections[i].0) && sections[i].1 == [];
    NothingToSend(sections);
    hide ObjectName, IsSection;
    assert forall i :: 0 <= i < |sections| ==> ObjectName(w, sections[i].0, []) in EmptyObjects(w, sections);
  }

  lemma {:induction false} NothingToSend(sections: Sections)
    requires forall i :: 0 <= i < |sections| ==> sections[i].1 == []
    ensures TotalSize(sections) == 0
  {
    if sections != [] {
      NothingToSend(sections[..|sections| - 1]);
    }
  }

  /** Beyond the cap, which the push refuses, the reader would refuse as well. */
  lemma {:induction false} OversizedBundleIsRefused(w: World, objects: Objects, sections: Sections)
    requires ContentAddressed(w, objects) && PayloadsInRun(w, sections)
    requires AllStored(w, objects, FilesOf(w, sections)) && TotalSize(sections) > MAX_SYNC_BYTES
    ensures LoadAll(w, objects, FilesOf(w, sections)) == Err(TooLarge)
    decreases |sections|
  {
    hide ObjectName;
    var n := |sections| - 1;
    var files := FilesOf(w, sections);
    assert FilesOf(w, sections[..n]) == files[..n];
    if TotalSize(sections[..n]) > MAX_SYNC_BYTES {
      OversizedBundleIsRefused(w, objects, sections[..n]);
    } else {
      WrittenFilesLoad(w, objects, sections[..n]);
      assert files[n] == FileOf(w, sections[n].0, sections[n].1);
      StoredIsPayload(w, objects, sections[n].0, sections[n].1);
    }
  }

  // ---------------------------------------------------------------------
  // Profiles
  // ---------------------------------------------------------------------

  /** The profile of one device; `local` stands for the preferences that never travel. */
  class Profile {
    var subscriptions: seq<Subscription>
    var activeSubscription: Option<nat>
    var selectedTag: string
    var customRules: seq<CustomRule>
    var dnsOverrides: seq<DnsOverride>
    var scriptEnabled: bool
    var script: string
    var groupSelections: map<string, string>
    var local: string

    /** `SyncSnapshot::from_profile`. */
    function ToSnapshot(updatedAt: nat): Snapshot
      reads this
    {
      Snapshot(SNAPSHOT_FORMAT, SNAPSHOT_VERSION, updatedAt, subscriptions, customRules,
                          Some(dnsOverrides), Some(ConfigScript(scriptEnabled, script)))
    }

    /** `SyncSnapshot::apply_to_profile`: afterwards the profile's own snapshot has the sections
        the document carries and the profile's previous value for the others. */
    method Apply(s: Snapshot)
      modifies this
      ensures ToSnapshot(s.updatedAt) == Snapshot(
        SNAPSHOT_FORMAT, SNAPSHOT_VERSION, s.updatedAt, s.subscriptions, s.customRules,
        if s.dnsOverrides.Some? then s.dnsOverrides else old(ToSnapshot(0)).dnsOverrides,
        if s.configScript.Some? then s.configScript else old(ToSnapshot(0)).configScript)
      ensures activeSubscription == None && selectedTag == "" && groupSelections == map[]
      ensures local == old(local)
    {
      subscriptions := s.subscriptions;
      activeSubscription := None;
      selectedTag := "";
      customRules := s.customRules;
      if s.dnsOverrides.Some? {
        dnsOverrides := s.dnsOverrides.value;
      }
      if s.configScript.Some? {
        scriptEnabled, script := s.configScript.value.enabled, s.configScript.value.script;
      }
      groupSelections := map[];
    }
  }
}
