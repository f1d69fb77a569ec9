/**
 Which remote a baseline belongs to (packages/api/src/sync.rs, packages/proxy-core/src/model.rs).

 Saving the settings keeps the baseline only for the same target, and forgets it otherwise. URLs
 are modelled by the strings they are built from; parsing and encoding them is foreign code.
 */
module SyncTarget {
  import opened Wrappers
  import opened Text
  import SyncBundle

  datatype Provider = WebDav | S3

  datatype Config = Config(
    provider: Provider, path: string, webdavEndpoint: string, username: string,
    s3Endpoint: string, bucket: string, region: string, accessKey: string,
    lastSyncAt: nat, lastRevision: string)

  function Strip(s: string): string {
    Trim(s, IsSpace)
  }

  function StripSlashes(path: string): string {
    Trim(path, c => c == '/')
  }

  /** `same_remote_target`. */
  predicate SameTarget(left: Config, right: Config) {
    && left.provider == right.provider
    && StripSlashes(left.path) == StripSlashes(right.path)
    && match left.provider
       case WebDav =>
         && Strip(left.webdavEndpoint) == Strip(right.webdavEndpoint)
         && Strip(left.username) == Strip(right.username)
       case S3 =>
         && Strip(left.s3Endpoint) == Strip(right.s3Endpoint)
         && Strip(left.bucket) == Strip(right.bucket)
         && Strip(left.region) == Strip(right.region)
         && Strip(left.accessKey) == Strip(right.accessKey)
  }

  /** `merge_sync_metadata`: what is saved when settings are edited. */
  function Merge(existing: Config, config: Config): Config {
    if SameTarget(existing, config)
    then config.(lastSyncAt := existing.lastSyncAt, lastRevision := existing.lastRevision)
    else config.(lastSyncAt := 0, lastRevision := "")
  }

  // ---------------------------------------------------------------------
  // Addresses
  // ---------------------------------------------------------------------

  /** What a URL is built from. */
  datatype Address = Address(base: string, bucket: Option<string>, path: string)

  /** `build_remote_url` and `build_s3_url`, for an object of this remote. */
  function AddressOf(c: Config, path: string): Address {
    match c.provider
    case WebDav => Address(Strip(c.webdavEndpoint), None, StripSlashes(path))
    case S3 =>
      var endpoint := Strip(c.s3Endpoint);
      if endpoint == "" || Contains(endpoint, "amazonaws.com") then
        if '.' in c.bucket
        then Address("https://s3." + Strip(c.region) + ".amazonaws.com", Some(Strip(c.bucket)), StripSlashes(path))
        else Address("https://" + Strip(c.bucket) + ".s3." + Strip(c.region) + ".amazonaws.com", None, StripSlashes(path))
      else
        var base := if Contains(endpoint, "://") then endpoint else "https://" + endpoint;
        Address(base, Some(Strip(c.bucket)), StripSlashes(path))
  }

  /** The position of the last dot. */
  function LastDot(s: string): (i: Option<nat>)
    ensures i.Some? ==> i.value < |s| && s[i.value] == '.' && '.' !in s[i.value + 1..]
    ensures i.None? ==> '.' !in s
  {
    if s == "" then None
    else if s[|s| - 1] == '.' then Some(|s| - 1)
    else
      var i := LastDot(s[..|s| - 1]);
      if i.Some? then
        assert s[i.value + 1..] == s[..|s| - 1][i.value + 1..] + [s[|s| - 1]];
        i
      else None
  }

  predicate IsJson(extension: string) {
    && |extension| == 4
    && extension[0] in "jJ" && extension[1] in "sS" && extension[2] in "oO" && extension[3] in "nN"
  }

  /** `sync_bundle_directory`. */
  function BundleDirectory(path: string): string {
    var trimmed := StripSlashes(path);
    var dot := LastDot(trimmed);
    if dot.Some? && IsJson(trimmed[dot.value + 1..]) && dot.value > 0 then trimmed[..dot.value] else trimmed
  }

  function BundlePath(path: string, name: string): string {
    BundleDirectory(path) + "/" + name
  }

  // ---------------------------------------------------------------------
  // Trimming
  // ---------------------------------------------------------------------

  lemma {:induction false} TrimLeftKeepsOthers(s: string, drop: char -> bool, c: char)
    requires !drop(c)
    ensures c in TrimLeft(s, drop) <==> c in s
    ensures TrimLeft(s, drop) != "" ==> !drop(TrimLeft(s, drop)[0])
  {
    if s != [] && drop(s[0]) {
      TrimLeftKeepsOthers(s[1..], drop, c);
      assert s == [s[0]] + s[1..];
    }
  }

  lemma {:induction false} TrimRightKeepsOthers(s: string, drop: char -> bool, c: char)
    requires !drop(c)
    ensures c in TrimRight(s, drop) <==> c in s
    ensures TrimRight(s, drop) <= s
    ensures TrimRight(s, drop) != "" ==> !drop(TrimRight(s, drop)[|TrimRight(s, drop)| - 1])
  {
    if s != [] && drop(s[|s| - 1]) {
      TrimRightKeepsOthers(s[..|s| - 1], drop, c);
      assert s == s[..|s| - 1] + [s[|s| - 1]];
    }
  }

  /** Trimming drops nothing but what it is told to drop, and leaves none of it at the ends. */
  lemma TrimKeepsOthers(s: string, drop: char -> bool, c: char)
    requires !drop(c)
    ensures c in Trim(s, drop) <==> c in s
    ensures Trim(s, drop) != "" ==> !drop(Trim(s, drop)[0]) && !drop(Trim(s, drop)[|Trim(s, drop)| - 1])
  {
    TrimLeftKeepsOthers(s, drop, c);
    TrimRightKeepsOthers(TrimLeft(s, drop), drop, c);
  }

  lemma {:induction false} TrimmedStaysTrimmed(s: string, drop: char -> bool)
    requires s != "" ==> !drop(s[0]) && !drop(s[|s| - 1])
    ensures Trim(s, drop) == s
  {
  }

  // ---------------------------------------------------------------------
  // Same target, same objects
  // ---------------------------------------------------------------------

  /** Configurations with the same target read and write the same objects, the single document as
      well as every object of the bundle, although the comparison trims where the builder of the
      URL looks into the untrimmed bucket. */
  lemma SameTargetSameAddresses(left: Config, right: Config, name: string)
    requires SameTarget(left, right)
    ensures AddressOf(left, left.path) == AddressOf(right, right.path)
    ensures AddressOf(left, BundlePath(left.path, name)) == AddressOf(right, BundlePath(right.path, name))
  {
    TrimKeepsOthers(left.bucket, IsSpace, '.');
    TrimKeepsOthers(right.bucket, IsSpace, '.');
  }

  lemma {:induction false} LastDotIs(s: string, i: nat)
    requires i < |s| && s[i] == '.' && forall k :: i < k < |s| ==> s[k] != '.'
    ensures LastDot(s) == Some(i)
    decreases |s|
  {
    if i < |s| - 1 {
      LastDotIs(s[..|s| - 1], i);
    }
  }

  lemma DocumentAndFolder()
    ensures StripSlashes("kitty-pro-sync.json") == "kitty-pro-sync.json" && StripSlashes("kitty-pro-sync") == "kitty-pro-sync"
    ensures BundleDirectory("kitty-pro-sync.json") == BundleDirectory("kitty-pro-sync") == "kitty-pro-sync"
  {
    hide LastDot, TrimLeft, TrimRight, Trim;
    var slash := (c: char) => c == '/';
    var document, folder := "kitty-pro-sync.json", "kitty-pro-sync";
    TrimmedStaysTrimmed(document, slash);
    TrimmedStaysTrimmed(folder, slash);
    LastDotIs(document, 14);
    assert '.' !in folder;
    assert LastDot(folder).None?;
    assert document[15..] == "json" && document[..14] == folder;
  }

  /** The converse fails: these two are different targets with the same bundle. Switching between
      them forgets the baseline, which only makes the next push more careful. */
  lemma DifferentTargetsMayShareABundle(c: Config, name: string)
    ensures
      var document, folder := c.(path := "kitty-pro-sync.json"), c.(path := "kitty-pro-sync");
      && !SameTarget(document, folder)
      && AddressOf(document, BundlePath(document.path, name)) == AddressOf(folder, BundlePath(folder.path, name))
      && Merge(document, folder).lastSyncAt == 0 && Merge(document, folder).lastRevision == ""
  {
    hide BundleDirectory, StripSlashes, Strip;
    DocumentAndFolder();
    assert |"kitty-pro-sync.json"| != |"kitty-pro-sync"|;
  }

  /** No object of the bundle takes the place of the single document, which therefore stays
      readable by builds that know nothing else. */
  lemma BundleSparesTheDocument(c: Config, path: string, name: string)
    requires name != "" && '/' !in name
    ensures AddressOf(c, path) != AddressOf(c, BundlePath(path, name))
  {
    var slash := (c: char) => c == '/';
    var trimmed, directory := StripSlashes(path), BundleDirectory(path);
    TrimKeepsOthers(path, slash, '.');
    assert directory <= trimmed && (directory == "" ==> trimmed == "");
    if directory == "" {
      assert BundlePath(path, name) == "/" + name;
      assert TrimLeft(BundlePath(path, name), slash) == TrimLeft(name, slash) by {
        assert ("/" + name)[1..] == name;
      }
      TrimmedStaysTrimmed(name, slash);
      assert StripSlashes(BundlePath(path, name)) == name;
    } else {
      TrimmedStaysTrimmed(BundlePath(path, name), slash);
      var full := directory + "/" + name;
      assert full[|directory|] == '/' && |full| > |directory| + 1;
      assert trimmed == directory || trimmed[|directory|] == '.';
    }
  }

  /** What a pull reads: at most one object for each section, under different names, all of them in
      the directory of the bundle and none in the place of the single document. */
  lemma PulledObjectsStayInTheBundle(
    c: Config, path: string, w: SyncBundle.World, codec: SyncBundle.Codec, objects: SyncBundle.Objects,
    bytes: SyncBundle.Payload, i: nat, j: nat)
    requires SyncBundle.Pull(w, codec, objects, bytes).Ok?
    requires i < j < |codec.decodeManifest(bytes).value.files|
    ensures
      var files := codec.decodeManifest(bytes).value.files;
      && files[i].name != files[j].name
      && '/' !in files[i].name && AddressOf(c, BundlePath(path, files[i].name)) != AddressOf(c, path)
      && '/' !in files[j].name && AddressOf(c, BundlePath(path, files[j].name)) != AddressOf(c, path)
  {
    var m := codec.decodeManifest(bytes).value;
    SyncBundle.PullAcceptsIff(w, codec, objects, bytes, SyncBundle.Pull(w, codec, objects, bytes).value);
    hide AddressOf, BundlePath, SyncBundle.Pull, SyncBundle.Genuine;
    assert SyncBundle.ValidEntry(m.files[i]) && SyncBundle.ValidEntry(m.files[j]);
    NamesStartWithTheirSection(m.files[i], m.files[j]);
    BundleSparesTheDocument(c, path, m.files[i].name);
    BundleSparesTheDocument(c, path, m.files[j].name);
  }

  lemma NamesStartWithTheirSection(a: SyncBundle.BundleFile, b: SyncBundle.BundleFile)
    requires SyncBundle.ValidEntry(a) && SyncBundle.ValidEntry(b) && a.section != b.section
    ensures a.name != b.name && '/' !in a.name && '/' !in b.name && a.name != "" && b.name != ""
  {
    SyncBundle.SectionCharacters(a.section);
    SyncBundle.SectionCharacters(b.section);
    if a.name == b.name {
      SectionsAreNoPrefixes(a.section, b.section, a.name);
    }
  }

  lemma SectionsAreNoPrefixes(s: string, t: string, name: string)
    requires SyncBundle.IsSection(s) && SyncBundle.IsSection(t) && s <= name && t <= name
    ensures s == t
  {
    assert s[0] == name[0] == t[0] && s[1] == name[1] == t[1];
    assert SyncBundle.SUBSCRIPTIONS[0] == 's' && SyncBundle.DNS_OVERRIDES[0] == 'd';
    assert SyncBundle.CUSTOM_RULES[0] == SyncBundle.CONFIG_SCRIPT[0] == 'c';
    assert SyncBundle.CUSTOM_RULES[1] == 'u' && SyncBundle.CONFIG_SCRIPT[1] == 'o';
  }

  // ---------------------------------------------------------------------
  // Every sequence of saved settings
  // ---------------------------------------------------------------------

  /** The settings are saved, with whatever baseline the caller sends; or they are saved by a push,
      or by the commit of a pull, which then records its baseline. What is recorded was read with the
      configuration `from`: a push reads with the settings it saves, but the commit of a pull trusts
      its caller to pass the settings that the pull was made with. */
  datatype SettingsEvent =
    | Save(config: Config)
    | Checkpoint(from: Config, config: Config, updatedAt: nat, revision: string)

  function SettingsAfter(initial: Config, events: seq<SettingsEvent>): Config {
    if events == [] then initial.(lastSyncAt := 0, lastRevision := "")
    else
      var c := SettingsAfter(initial, events[..|events| - 1]);
      match events[|events| - 1]
      case Save(config) => Merge(c, config)
      case Checkpoint(_, config, updatedAt, revision) =>
        Merge(c, config).(lastSyncAt := updatedAt, lastRevision := revision)
  }

  predicate HasBaseline(c: Config) {
    c.lastSyncAt != 0 || c.lastRevision != ""
  }

  /** The baseline is that of the last checkpoint, and since then every saved target was the same. */
  predicate Since(initial: Config, events: seq<SettingsEvent>, k: nat) {
    var c := SettingsAfter(initial, events);
    && k < |events| && events[k].Checkpoint?
    && c.lastSyncAt == events[k].updatedAt && c.lastRevision == events[k].revision
    && (forall j :: k < j < |events| ==> events[j].Save?)
    && (forall j :: k < j <= |events| ==> SameTarget(SettingsAfter(initial, events[..j]), c))
    && SameTarget(events[k].config, c)
  }

  lemma SameTargetIsAnEquivalence(a: Config, b: Config, c: Config)
    ensures SameTarget(a, a)
    ensures SameTarget(a, b) ==> SameTarget(b, a)
    ensures SameTarget(a, b) && SameTarget(b, c) ==> SameTarget(a, c)
  {
  }

  /** The target is always that of the settings passed last, and saving them keeps a baseline only
      for the same target. */
  lemma SaveKeepsOrForgets(existing: Config, config: Config, updatedAt: nat, revision: string)
    ensures
      var c := Merge(existing, config);
      && SameTarget(config, c)
      && SameTarget(config, c.(lastSyncAt := updatedAt, lastRevision := revision))
      && (HasBaseline(c) ==>
            SameTarget(existing, c) && c.lastSyncAt == existing.lastSyncAt && c.lastRevision == existing.lastRevision)
  {
  }

  /** Saving settings never carries a baseline to another remote: it is that of the last checkpoint,
      and the target has not changed since, not even for a while. So it was read from the target it
      is kept with exactly if that checkpoint was committed with the target it was read from. */
  lemma {:induction false} BaselineBelongsToItsTarget(initial: Config, events: seq<SettingsEvent>) returns (k: nat)
    ensures
      var c := SettingsAfter(initial, events);
      HasBaseline(c) ==>
        && Since(initial, events, k)
        && (SameTarget(events[k].from, c) <==> SameTarget(events[k].from, events[k].config))
    decreases |events|
  {
    hide SameTarget, Merge;
    k := 0;
    if events != [] {
      var n := |events| - 1;
      var front, before, c := events[..n], SettingsAfter(initial, events[..n]), SettingsAfter(initial, events);
      assert events[..|events|] == events;
      SameTargetIsAnEquivalence(c, c, c);
      if events[n].Checkpoint? {
        k := n;
        SaveKeepsOrForgets(before, events[n].config, events[n].updatedAt, events[n].revision);
      } else if HasBaseline(c) {
        SaveKeepsOrForgets(before, events[n].config, 0, "");
        k := BaselineBelongsToItsTarget(initial, front);
        SameTargetIsAnEquivalence(events[k].config, before, c);
        forall j | k < j <= |events| ensures SameTarget(SettingsAfter(initial, events[..j]), c) {
          if j <= n {
            assert front[..j] == events[..j];
            SameTargetIsAnEquivalence(SettingsAfter(initial, front[..j]), before, c);
          }
        }
      }
      if HasBaseline(c) {
        SameTargetIsAnEquivalence(events[k].from, events[k].config, c);
        SameTargetIsAnEquivalence(c, events[k].config, events[k].from);
        SameTargetIsAnEquivalence(events[k].from, c, events[k].config);
        SameTargetIsAnEquivalence(events[k].config, c, c);
      }
    }
  }

  /** The commit of a pull does not check it: committed with another target, the revision read from
      the first one becomes the baseline of the second. */
  lemma CommitsCanMoveABaseline() returns (initial: Config, events: seq<SettingsEvent>)
    ensures |events| == 2 && events[1].Checkpoint? && events[0] == Save(events[1].from)
    ensures
      var c := SettingsAfter(initial, events);
      && HasBaseline(c) && c.lastRevision == events[1].revision
      && SameTarget(c, events[1].config) && !SameTarget(c, events[1].from)
  {
    initial := Config(WebDav, "a", "", "", "", "", "", "", 0, "");
    var other := initial.(provider := S3);
    events := [Save(initial), Checkpoint(initial, other, 1, "tag")];
    assert events[..1] == [Save(initial)];
  }
}
