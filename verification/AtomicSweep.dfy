/**
 The names that atomic writes leave behind and the sweep that repairs an interrupted one
 (packages/api/src/atomic_write.rs), up to the guarantee for any sequence of writes, crashes
 and sweeps in one directory.
 */
module AtomicSweep {
  import opened Wrappers
  import opened Text
  import opened Disks
  import opened AtomicWrite

  type Dir<C> = map<string, C>

  const MARKER := "kitty-atomic"
  const SEPARATOR := ".kitty-atomic-"
  const BACKUP := ".backup"
  const TMP := ".tmp"

  // ---------------------------------------------------------------------
  // Names
  // ---------------------------------------------------------------------

  /** The sibling names a write makes up; the stamp is process id, time and counter. */
  function TemporarySibling(name: string, stamp: string): string {
    name + SEPARATOR + stamp + TMP
  }

  function BackupSibling(name: string, stamp: string): string {
    name + SEPARATOR + stamp + BACKUP
  }

  function DestinationFromBackup(name: string): Option<string> {
    if !EndsWith(name, BACKUP) then None
    else
      var stem := name[..|name| - |BACKUP|];
      match FirstIndex(stem, SEPARATOR, 0)
      case None => None
      case Some(i) => if i == 0 then None else Some(stem[..i])
  }

  /** Two occurrences of the separator cannot overlap: its only dot is its first character. */
  lemma SeparatorsDoNotOverlap(s: string, i: nat, j: nat)
    requires OccursAt(s, SEPARATOR, i) && OccursAt(s, SEPARATOR, j) && i < j
    ensures i + |SEPARATOR| <= j
  {
    assert s[j] == s[j..j + |SEPARATOR|][0] == '.';
    var at := s[i..i + |SEPARATOR|];
    assert forall k :: 0 <= k < |SEPARATOR| ==> at[k] == s[i + k];
    assert forall k :: 0 < k < |SEPARATOR| ==> SEPARATOR[k] != '.';
  }

  lemma FirstSeparator(name: string, stamp: string)
    ensures
      var i := FirstIndex(name + SEPARATOR + stamp, SEPARATOR, 0);
      && i.Some? && i.value <= |name|
      && (i.value == |name| <==> !Contains(name, SEPARATOR))
  {
    var s := name + SEPARATOR + stamp;
    assert OccursAt(s, SEPARATOR, |name|);
    var i := FirstIndex(s, SEPARATOR, 0);
    assert i.Some? && i.value <= |name|;
    if i.value < |name| {
      SeparatorsDoNotOverlap(s, i.value, |name|);
      assert name[i.value..i.value + |SEPARATOR|] == s[i.value..i.value + |SEPARATOR|];
      assert OccursAt(name, SEPARATOR, i.value);
    }
    forall j: nat | j <= |name| && OccursAt(name, SEPARATOR, j) ensures OccursAt(s, SEPARATOR, j) && j < |name| {
      assert s[j..j + |SEPARATOR|] == name[j..j + |SEPARATOR|];
    }
  }

  /** The sweep reads the destination back from a backup name exactly for the non-empty names
      that do not themselves contain the separator. */
  lemma DestinationInvertsBackupSibling(name: string, stamp: string)
    ensures DestinationFromBackup(BackupSibling(name, stamp)) == Some(name) <==>
            name != "" && !Contains(name, SEPARATOR)
  {
    var b := BackupSibling(name, stamp);
    var stem := name + SEPARATOR + stamp;
    assert b == stem + BACKUP;
    assert b[..|b| - |BACKUP|] == stem;
    FirstSeparator(name, stamp);
    assert stem[..|name|] == name;
  }

  /** A name the program writes to: it does not mention the marker. */
  predicate Plain(name: string) {
    name != "" && !Contains(name, MARKER)
  }

  lemma SeparatorHoldsMarker(s: string, i: nat)
    requires OccursAt(s, SEPARATOR, i)
    ensures OccursAt(s, MARKER, i + 1) && Contains(s, MARKER)
  {
    var tail := SEPARATOR[1..1 + |MARKER|];
    assert tail == MARKER;
    var j: nat := i + 1;
    forall k | 0 <= k < |MARKER| ensures s[j..j + |MARKER|][k] == MARKER[k] {
      assert s[j + k] == s[i..i + |SEPARATOR|][1 + k] == tail[k];
    }
    assert s[j..j + |MARKER|] == MARKER;
    assert OccursAt(s, MARKER, j);
  }

  lemma PlainHasNoSeparator(name: string)
    requires Plain(name)
    ensures !Contains(name, SEPARATOR)
  {
    if Contains(name, SEPARATOR) {
      var i: nat :| i <= |name| && OccursAt(name, SEPARATOR, i);
      SeparatorHoldsMarker(name, i);
    }
  }

  /** A name does not end in both suffixes. */
  lemma SuffixesDiffer(name: string)
    ensures !(EndsWith(name, TMP) && EndsWith(name, BACKUP))
  {
    assert EndsWith(name, TMP) ==> name[|name| - 4] == name[|name| - |TMP|..][0] == '.';
    assert EndsWith(name, BACKUP) ==> name[|name| - 4] == name[|name| - |BACKUP|..][3] == 'c';
  }

  lemma SiblingsAreMarked(name: string, stamp: string)
    ensures Contains(TemporarySibling(name, stamp), MARKER)
    ensures Contains(BackupSibling(name, stamp), MARKER)
    ensures DestinationFromBackup(TemporarySibling(name, stamp)) == None
  {
    var t, b := TemporarySibling(name, stamp), BackupSibling(name, stamp);
    assert OccursAt(t, SEPARATOR, |name|) && OccursAt(b, SEPARATOR, |name|);
    SeparatorHoldsMarker(t, |name|);
    SeparatorHoldsMarker(b, |name|);
    assert EndsWith(t, TMP);
    SuffixesDiffer(t);
  }

  /** Every name the sweep can restore from mentions the marker. */
  lemma BackupsAreMarked(name: string)
    requires DestinationFromBackup(name).Some?
    ensures Contains(name, MARKER) && EndsWith(name, BACKUP) && !EndsWith(name, TMP)
  {
    var stem := name[..|name| - |BACKUP|];
    var i := FirstIndex(stem, SEPARATOR, 0).value;
    assert name[i..i + |SEPARATOR|] == stem[i..i + |SEPARATOR|];
    SeparatorHoldsMarker(name, i);
    SuffixesDiffer(name);
  }

  // ---------------------------------------------------------------------
  // The sweep
  // ---------------------------------------------------------------------

  /** What the sweep does with one directory entry. */
  function SweepEntry<C>(files: Dir<C>, name: string): Dir<C> {
    if name !in files || !Contains(name, MARKER) then files
    else if EndsWith(name, TMP) then files - {name}
    else if EndsWith(name, BACKUP) then
      match DestinationFromBackup(name)
      case Some(original) =>
        if original in files then files - {name} else (files - {name})[original := files[name]]
      case None => files - {name}
    else files
  }

  function Sweep<C>(files: Dir<C>, listing: seq<string>): Dir<C>
    decreases |listing|
  {
    if listing == [] then files else Sweep(SweepEntry(files, listing[0]), listing[1..])
  }

  /** The sweep over a directory listing, which may come in any order. Every failure is ignored;
      without one the sweep is complete. */
  method CleanupAtomicResidueIn<C(!new)>(disk: Disk<string, C>, listing: seq<string>)
    modifies disk
    ensures disk.faults >= old(disk.faults)
    ensures disk.faults == old(disk.faults) ==> disk.files == Sweep(old(disk.files), listing)
    ensures forall d, v :: Plain(d) && Holds(old(disk.files), d, v) ==> Holds(disk.files, d, v)
    ensures forall d :: Plain(d) && Vacant(old(disk.files), d) ==> Vacant(disk.files, d)
  {
    assert listing[0..] == listing;
    for i := 0 to |listing|
      invariant disk.faults >= old(disk.faults)
      invariant disk.faults == old(disk.faults) ==> Sweep(old(disk.files), listing) == Sweep(disk.files, listing[i..])
      invariant forall d, v :: Plain(d) && Holds(old(disk.files), d, v) ==> Holds(disk.files, d, v)
      invariant forall d :: Plain(d) && Vacant(old(disk.files), d) ==> Vacant(disk.files, d)
    {
      var name := listing[i];
      ghost var swept := SweepEntry(disk.files, name);
      ghost var files := disk.files;
      forall d, v | Plain(d) && Holds(files, d, v) ensures Holds(swept, d, v) {
        SweepEntryKeepsValue(files, name, d, v);
      }
      forall d | Plain(d) && Vacant(files, d) ensures Vacant(swept, d) {
        SweepEntryKeepsVacancy(files, name, d);
      }
      if name in disk.files && Contains(name, MARKER) {
        if EndsWith(name, TMP) {
          var _ := disk.Remove(name);
        } else if EndsWith(name, BACKUP) {
          match DestinationFromBackup(name) {
            case Some(original) =>
              NameIsNotItsOrigin(name);
              if original in disk.files {
                var _ := disk.Remove(name);
              } else {
                var _ := disk.Rename(name, original);
              }
            case None =>
              var _ := disk.Remove(name);
          }
        }
      }
      assert listing[i..][1..] == listing[i + 1..];
    }
  }

  lemma NameIsNotItsOrigin(name: string)
    requires DestinationFromBackup(name).Some?
    ensures DestinationFromBackup(name).value != name
  {
    assert |DestinationFromBackup(name).value| < |name|;
  }

  // ---------------------------------------------------------------------
  // What a directory holds for a destination
  // ---------------------------------------------------------------------

  predicate IsBackupOf(name: string, d: string) {
    DestinationFromBackup(name) == Some(d)
  }

  ghost predicate NoBackups<C>(files: Dir<C>, d: string) {
    forall n :: n in files ==> !IsBackupOf(n, d)
  }

  /** The file has this value, or is missing with a backup and every backup has this value. */
  ghost predicate Holds<C(!new)>(files: Dir<C>, d: string, v: C) {
    && (d in files ==> files[d] == v)
    && (d !in files ==> exists n :: n in files && IsBackupOf(n, d))
    && (d !in files ==> forall n :: n in files && IsBackupOf(n, d) ==> files[n] == v)
  }

  /** Neither the file nor a backup of it exists. */
  ghost predicate Vacant<C>(files: Dir<C>, d: string) {
    d !in files && NoBackups(files, d)
  }

  lemma SweepEntryKeepsValue<C(!new)>(files: Dir<C>, name: string, d: string, v: C)
    requires Plain(d) && Holds(files, d, v)
    ensures Holds(SweepEntry(files, name), d, v)
    ensures name in files && IsBackupOf(name, d) ==>
              name !in SweepEntry(files, name) && d in SweepEntry(files, name)
  {
    if IsBackupOf(name, d) {
      BackupsAreMarked(name);
      NameIsNotItsOrigin(name);
    } else {
      SweepEntryElsewhere(files, name, d);
    }
  }

  lemma SweepEntryElsewhere<C>(files: Dir<C>, name: string, d: string)
    requires Plain(d) && !IsBackupOf(name, d)
    ensures
      var swept := SweepEntry(files, name);
      && (d in swept <==> d in files) && (d in files ==> swept[d] == files[d])
      && forall n :: IsBackupOf(n, d) ==> (n in swept <==> n in files) && (n in files ==> swept[n] == files[n])
  {
    forall n | IsBackupOf(n, d) && DestinationFromBackup(name) == Some(n) ensures false {
      RestoredIsNotABackup(name);
    }
  }

  lemma SweepEntryKeepsVacancy<C>(files: Dir<C>, name: string, d: string)
    requires Plain(d) && Vacant(files, d)
    ensures Vacant(SweepEntry(files, name), d)
  {
    forall n | n in SweepEntry(files, name) ensures !IsBackupOf(n, d) {
      if n !in files {
        // Only a restored destination is new, and it is not a backup of a plain name.
        assert DestinationFromBackup(name) == Some(n);
        RestoredIsNotABackup(name);
      }
    }
  }

  lemma RestoredIsNotABackup(name: string)
    requires DestinationFromBackup(name).Some?
    ensures DestinationFromBackup(DestinationFromBackup(name).value).None?
  {
    var original := DestinationFromBackup(name).value;
    if DestinationFromBackup(original).Some? {
      var stem := name[..|name| - |BACKUP|];
      var i := FirstIndex(stem, SEPARATOR, 0).value;
      var j := FirstIndex(original[..|original| - |BACKUP|], SEPARATOR, 0).value;
      assert original == stem[..i];
      assert original[j..j + 14] == stem[j..j + 14];
      assert OccursAt(stem, SEPARATOR, j);
      assert false;
    }
  }

  // ---------------------------------------------------------------------
  // A sweep that completes
  // ---------------------------------------------------------------------

  /** The listing names every file of the directory. */
  ghost predicate Lists<C>(listing: seq<string>, files: Dir<C>) {
    forall n :: n in files ==> n in listing
  }

  /** After a complete sweep the destination is there with its value and has no backup left. */
  lemma {:induction false} SweepRestores<C(!new)>(files: Dir<C>, listing: seq<string>, d: string, v: C)
    requires Plain(d) && Holds(files, d, v)
    requires forall n :: n in files && IsBackupOf(n, d) ==> n in listing
    ensures d in Sweep(files, listing) && Sweep(files, listing)[d] == v
    ensures NoBackups(Sweep(files, listing), d)
    decreases |listing|
  {
    if listing != [] {
      var name := listing[0];
      SweepEntryKeepsValue(files, name, d, v);
      SweepEntryAddsNoBackups(files, name, d);
      assert listing == [name] + listing[1..];
      SweepRestores(SweepEntry(files, name), listing[1..], d, v);
    }
  }

  lemma SweepEntryAddsNoBackups<C>(files: Dir<C>, name: string, d: string)
    ensures forall n :: n in SweepEntry(files, name) && IsBackupOf(n, d) ==> n in files
    ensures IsBackupOf(name, d) ==> name !in SweepEntry(files, name)
  {
    if DestinationFromBackup(name).Some? {
      RestoredIsNotABackup(name);
      BackupsAreMarked(name);
      NameIsNotItsOrigin(name);
    }
  }

  lemma {:induction false} SweepKeepsVacancy<C>(files: Dir<C>, listing: seq<string>, d: string)
    requires Plain(d) && Vacant(files, d)
    ensures Vacant(Sweep(files, listing), d)
    decreases |listing|
  {
    if listing != [] {
      SweepEntryKeepsVacancy(files, listing[0], d);
      SweepKeepsVacancy(SweepEntry(files, listing[0]), listing[1..], d);
    }
  }

  /** What a write made up beside its file: every name with the separator and one of the suffixes. */
  predicate IsSibling(name: string) {
    Contains(name, SEPARATOR) && (EndsWith(name, TMP) || EndsWith(name, BACKUP))
  }

  lemma RestoredIsNoSibling(name: string)
    requires DestinationFromBackup(name).Some?
    ensures !Contains(DestinationFromBackup(name).value, SEPARATOR)
  {
    var original := DestinationFromBackup(name).value;
    var stem := name[..|name| - |BACKUP|];
    var i := FirstIndex(stem, SEPARATOR, 0).value;
    forall j: nat | j <= |original| ensures !OccursAt(original, SEPARATOR, j) {
      if OccursAt(original, SEPARATOR, j) {
        assert original[j..j + |SEPARATOR|] == stem[j..j + |SEPARATOR|];
        assert OccursAt(stem, SEPARATOR, j);
      }
    }
  }

  lemma SweepEntryRemovesSiblings<C>(files: Dir<C>, name: string, sibling: string)
    requires IsSibling(sibling)
    ensures sibling in SweepEntry(files, name) ==> sibling in files && sibling != name
  {
    var i: nat :| i <= |sibling| && OccursAt(sibling, SEPARATOR, i);
    SeparatorHoldsMarker(sibling, i);
    if DestinationFromBackup(name).Some? {
      RestoredIsNoSibling(name);
    }
  }

  /** A complete sweep leaves nothing of any write behind, temporary files included. */
  lemma {:induction false} SweepRemovesSiblings<C(!new)>(files: Dir<C>, listing: seq<string>, sibling: string)
    requires IsSibling(sibling) && (sibling in files ==> sibling in listing)
    ensures sibling !in Sweep(files, listing)
    decreases |listing|
  {
    if listing != [] {
      SweepEntryRemovesSiblings(files, listing[0], sibling);
      assert listing == [listing[0]] + listing[1..];
      SweepRemovesSiblings(SweepEntry(files, listing[0]), listing[1..], sibling);
    }
  }

  /** When several backups of a missing file exist, the order of the listing decides. */
  lemma {:induction false} FirstListedBackupWins<C(!new)>(files: Dir<C>, listing: seq<string>, d: string)
    requires Plain(d) && d !in files && listing != []
    requires listing[0] in files && IsBackupOf(listing[0], d)
    ensures d in Sweep(files, listing) && Sweep(files, listing)[d] == files[listing[0]]
  {
    BackupsAreMarked(listing[0]);
    NameIsNotItsOrigin(listing[0]);
    var swept := SweepEntry(files, listing[0]);
    assert d in swept && swept[d] == files[listing[0]];
    PresentStays(swept, listing[1..], d);
  }

  lemma {:induction false} PresentStays<C(!new)>(files: Dir<C>, listing: seq<string>, d: string)
    requires Plain(d) && d in files
    ensures d in Sweep(files, listing) && Sweep(files, listing)[d] == files[d]
    decreases |listing|
  {
    if listing != [] {
      SweepEntryKeepsValue(files, listing[0], d, files[d]);
      assert d in SweepEntry(files, listing[0]);
      PresentStays(SweepEntry(files, listing[0]), listing[1..], d);
    }
  }

  /** Every complete sweep leaves a file with a given value exactly when the file is there with it,
      or is missing with a backup and all its backups hold that value. This is why a stale backup
      that could not be removed must be swept before the next write: two backups may disagree. */
  lemma {:induction false} EverySweepRestoresIff<C(!new)>(files: Dir<C>, d: string, v: C)
    requires Plain(d)
    ensures
      Holds(files, d, v) <==>
      (forall listing :: Lists(listing, files) ==>
        d in Sweep(files, listing) && Sweep(files, listing)[d] == v)
  {
    var all := Listing(files.Keys);
    assert Lists(all, files);
    if Holds(files, d, v) {
      forall listing | Lists(listing, files)
        ensures d in Sweep(files, listing) && Sweep(files, listing)[d] == v
      {
        SweepRestores(files, listing, d, v);
      }
    } else if d in files {
      PresentStays(files, all, d);
    } else if n :| n in files && IsBackupOf(n, d) && files[n] != v {
      var listing := [n] + all;
      assert Lists(listing, files);
      FirstListedBackupWins(files, listing, d);
    } else {
      SweepKeepsVacancy(files, all, d);
    }
  }

  ghost function Listing(names: set<string>): (listing: seq<string>)
    ensures forall n :: n in names <==> n in listing
  {
    if names == {} then [] else
      var n :| n in names;
      [n] + Listing(names - {n})
  }

  // ---------------------------------------------------------------------
  // One write that may be cut short
  // ---------------------------------------------------------------------

  function SiblingNames(destination: string, stamp: string): Names<string> {
    AtomicWrite.Names(destination, TemporarySibling(destination, stamp), BackupSibling(destination, stamp))
  }

  /** One write: the names it made up, its bytes, and whether the new file got into place. */
  datatype Attempt<C> = Attempt(destination: string, stamp: string, bytes: C, installed: bool) {
    function Names(): Names<string> {
      SiblingNames(destination, stamp)
    }
  }

  /** The directory an attempt leaves, by the contract of `AtomicWriteBytes`. */
  ghost predicate AttemptLeaves<C(!new)>(before: Dir<C>, a: Attempt<C>, left: Dir<C>) {
    if a.installed then Written(before, left, a.Names(), a.bytes) else NotWritten(before, left, a.Names())
  }

  /** The value a directory holds for a file, in place or in its backups. */
  ghost predicate HoldsOption<C(!new)>(files: Dir<C>, d: string, value: Option<C>) {
    if value.Some? then Holds(files, d, value.value) else Vacant(files, d)
  }

  /** No backup left beside a file differs from it. */
  predicate BackupsAgree<C(==)>(files: Dir<C>, d: string) {
    d in files ==> forall n :: n in files && IsBackupOf(n, d) ==> files[n] == files[d]
  }

  lemma PlainIsNotABackup(name: string)
    requires Plain(name)
    ensures DestinationFromBackup(name).None?
  {
    if DestinationFromBackup(name).Some? {
      BackupsAreMarked(name);
    }
  }

  lemma SiblingsOfPlainNames(d: string, stamp: string)
    requires Plain(d)
    ensures SiblingNames(d, stamp).Distinct()
    ensures !Plain(SiblingNames(d, stamp).temporary) && !Plain(SiblingNames(d, stamp).backup)
    ensures DestinationFromBackup(SiblingNames(d, stamp).temporary).None?
    ensures DestinationFromBackup(SiblingNames(d, stamp).backup) == Some(d)
    ensures DestinationFromBackup(d).None?
  {
    SiblingsAreMarked(d, stamp);
    PlainHasNoSeparator(d);
    DestinationInvertsBackupSibling(d, stamp);
    PlainIsNotABackup(d);
  }

  /** What an attempt leaves can be restored, for every file: the one written to its new bytes if
      the attempt succeeded, and otherwise, like all others, to what it was. */
  lemma AttemptHolds<C(!new)>(before: Dir<C>, a: Attempt<C>, left: Dir<C>, d: string, value: Option<C>)
    requires Plain(d) && Plain(a.destination) && AttemptLeaves(before, a, left)
    requires HoldsOption(before, d, value) && BackupsAgree(before, a.destination)
    requires a.Names().temporary !in before && a.Names().backup !in before
    ensures HoldsOption(left, d, if d == a.destination && a.installed then Some(a.bytes) else value)
  {
    hide DestinationFromBackup, Plain, TemporarySibling, BackupSibling;
    SiblingsOfPlainNames(a.destination, a.stamp);
    if d !in left && d in before && d == a.destination {
      assert a.Names().backup in left && IsBackupOf(a.Names().backup, d);
    } else if d !in before && value.Some? {
      var n :| n in before && IsBackupOf(n, d);
      assert n != a.Names().backup;
    }
  }

  /** A failed write of a file can always be undone exactly when no backup that differs from the
      file was left beside it: power lost between the two renames leaves two backups otherwise. */
  lemma FailedWritesAreUndoneIff<C(!new)>(before: Dir<C>, d: string, stamp: string)
    requires Plain(d) && d in before
    requires SiblingNames(d, stamp).temporary !in before && SiblingNames(d, stamp).backup !in before
    ensures
      BackupsAgree(before, d) <==>
      (forall left: Dir<C>, listing ::
        NotWritten(before, left, SiblingNames(d, stamp)) && Lists(listing, left) ==>
          ValueOf(Sweep(left, listing), d) == Some(before[d]))
  {
    hide DestinationFromBackup, Plain, TemporarySibling, BackupSibling, Sweep;
    var names := SiblingNames(d, stamp);
    if BackupsAgree(before, d) {
      forall left: Dir<C>, listing | NotWritten(before, left, names) && Lists(listing, left)
        ensures ValueOf(Sweep(left, listing), d) == Some(before[d])
      {
        AttemptHolds(before, Attempt(d, stamp, before[d], false), left, d, Some(before[d]));
        SweepRestores(left, listing, d, before[d]);
      }
    } else {
      var n :| n in before && IsBackupOf(n, d) && before[n] != before[d];
      SiblingsOfPlainNames(d, stamp);
      var left := (before - {d})[names.backup := before[d]];
      var listing := [n] + Listing(left.Keys);
      assert NotWritten(before, left, names) && Lists(listing, left);
      FirstListedBackupWins(left, listing, d);
    }
  }

  // ---------------------------------------------------------------------
  // Any sequence of writes, crashes and sweeps
  // ---------------------------------------------------------------------

  /** What may happen in a directory, in any order and any number of times. A sweep sees some
      listing, and like a write it may fail or be cut short anywhere. */
  datatype Event<C> =
    | Write(destination: string, stamp: string, part: C, bytes: C)
    | CleanUp(listing: seq<string>)
    | Reboot

  /** A write makes up new names, and finds no stale backup that contradicts its file. */
  predicate Admissible<C(==)>(event: Event<C>, files: Dir<C>) {
    event.Write? ==>
      var names := SiblingNames(event.destination, event.stamp);
      && Plain(event.destination) && BackupsAgree(files, event.destination)
      && names.temporary !in files && names.backup !in files
  }

  function ValueOf<C>(files: Dir<C>, d: string): Option<C> {
    if d in files then Some(files[d]) else None
  }

  /** The bytes of the last write of a file that got into place, or what was there at first. */
  function LastInstalled<C>(initial: Option<C>, attempts: seq<Attempt<C>>, d: string): Option<C> {
    if attempts == [] then initial else
      var last := attempts[|attempts| - 1];
      if last.destination == d && last.installed then Some(last.bytes)
      else LastInstalled(initial, attempts[..|attempts| - 1], d)
  }

  /** The writes among the events. */
  function WritesOf<C>(events: seq<Event<C>>): seq<Event<C>> {
    if events == [] then [] else
      var rest, last := WritesOf(events[..|events| - 1]), events[|events| - 1];
      if last.Write? then rest + [last] else rest
  }

  /** The attempts are these writes, each with its outcome. */
  ghost predicate Records<C(!new)>(attempts: seq<Attempt<C>>, writes: seq<Event<C>>) {
    && |attempts| == |writes|
    && forall i :: 0 <= i < |attempts| ==>
         && writes[i].Write?
         && attempts[i].destination == writes[i].destination
         && attempts[i].stamp == writes[i].stamp
         && attempts[i].bytes == writes[i].bytes
  }

  /** Every file holds the bytes of its last write that got into place. */
  ghost predicate HoldsLastWrites<C(!new)>(files: Dir<C>, initial: Dir<C>, attempts: seq<Attempt<C>>) {
    forall d :: Plain(d) ==> HoldsOption(files, d, LastInstalled(ValueOf(initial, d), attempts, d))
  }

  lemma AttemptHoldsLastWrites<C(!new)>(
    before: Dir<C>, initial: Dir<C>, attempts: seq<Attempt<C>>, a: Attempt<C>, left: Dir<C>)
    requires HoldsLastWrites(before, initial, attempts) && AttemptLeaves(before, a, left)
    requires Plain(a.destination) && BackupsAgree(before, a.destination)
    requires a.Names().temporary !in before && a.Names().backup !in before
    ensures HoldsLastWrites(left, initial, attempts + [a])
  {
    hide AttemptLeaves, HoldsOption, BackupsAgree, Plain;
    var more := attempts + [a];
    assert more[..|more| - 1] == attempts;
    forall d | Plain(d) ensures HoldsOption(left, d, LastInstalled(ValueOf(initial, d), more, d)) {
      AttemptHolds(before, a, left, d, LastInstalled(ValueOf(initial, d), attempts, d));
    }
  }

  lemma SweepHoldsLastWrites<C(!new)>(before: Dir<C>, initial: Dir<C>, attempts: seq<Attempt<C>>, left: Dir<C>)
    requires HoldsLastWrites(before, initial, attempts)
    requires forall d, v :: Plain(d) && Holds(before, d, v) ==> Holds(left, d, v)
    requires forall d :: Plain(d) && Vacant(before, d) ==> Vacant(left, d)
    ensures HoldsLastWrites(left, initial, attempts)
  {
    hide Holds, Vacant, Plain, LastInstalled;
    forall d | Plain(d) ensures HoldsOption(left, d, LastInstalled(ValueOf(initial, d), attempts, d)) {
      assert HoldsOption(before, d, LastInstalled(ValueOf(initial, d), attempts, d));
    }
  }

  method AttemptWrite<C(==, !new)>(disk: Disk<string, C>, windows: bool, event: Event<C>) returns (a: Attempt<C>)
    requires event.Write? && Admissible(event, disk.files)
    modifies disk
    ensures a == Attempt(event.destination, event.stamp, event.bytes, a.installed)
    ensures AttemptLeaves(old(disk.files), a, disk.files)
  {
    hide Written, NotWritten, BackupsAgree, Plain;
    SiblingsOfPlainNames(event.destination, event.stamp);
    var names := SiblingNames(event.destination, event.stamp);
    var ok := AtomicWriteBytes(disk, windows, names, event.part, event.bytes);
    a := Attempt(event.destination, event.stamp, event.bytes, ok);
  }

  /** Writes, sweeps and restarts in any order, each of which may be cut short: at every moment
      every file holds the bytes of its last write that got into place, in place or in backups.
      The run goes on until the first write that is not admissible. */
  method RunEvents<C(==, !new)>(
    disk: Disk<string, C>, windows: bool, events: seq<Event<C>>, ghost initial: Dir<C>)
    returns (attempts: seq<Attempt<C>>, performed: nat)
    requires HoldsLastWrites(disk.files, initial, [])
    modifies disk
    ensures performed <= |events|
    ensures performed < |events| ==> !Admissible(events[performed], disk.files)
    ensures Records(attempts, WritesOf(events[..performed]))
    ensures HoldsLastWrites(disk.files, initial, attempts)
  {
    attempts, performed := [], 0;
    while performed < |events| && Admissible(events[performed], disk.files)
      invariant performed <= |events|
      invariant Records(attempts, WritesOf(events[..performed]))
      invariant HoldsLastWrites(disk.files, initial, attempts)
    {
      hide HoldsLastWrites, Sweep, Holds, Vacant, Written, NotWritten;
      var event := events[performed];
      ghost var before := disk.files;
      assert events[..performed + 1][..performed] == events[..performed];
      match event {
        case Write(destination, stamp, part, bytes) =>
          var a := AttemptWrite(disk, windows, event);
          AttemptHoldsLastWrites(before, initial, attempts, a, disk.files);
          attempts := attempts + [a];
        case CleanUp(listing) =>
          CleanupAtomicResidueIn(disk, listing);
          SweepHoldsLastWrites(before, initial, attempts, disk.files);
        case Reboot =>
          disk.Restart();
      }
      performed := performed + 1;
    }
  }

  /** What the operating system lists: every file, in some order. */
  method ReadDirectory<C(!new)>(disk: Disk<string, C>) returns (listing: seq<string>)
    ensures Lists(listing, disk.files)
  {
    var names := disk.files.Keys;
    listing := [];
    while names != {}
      invariant forall n :: n in disk.files ==> n in names || n in listing
      decreases names
    {
      var n :| n in names;
      names, listing := names - {n}, listing + [n];
    }
  }

  lemma CompleteSweepSettles<C(!new)>(before: Dir<C>, listing: seq<string>, initial: Dir<C>, attempts: seq<Attempt<C>>)
    requires HoldsLastWrites(before, initial, attempts) && Lists(listing, before)
    ensures forall d :: Plain(d) ==>
              && ValueOf(Sweep(before, listing), d) == LastInstalled(ValueOf(initial, d), attempts, d)
              && NoBackups(Sweep(before, listing), d)
  {
    forall d | Plain(d)
      ensures ValueOf(Sweep(before, listing), d) == LastInstalled(ValueOf(initial, d), attempts, d)
      ensures NoBackups(Sweep(before, listing), d)
    {
      var value := LastInstalled(ValueOf(initial, d), attempts, d);
      assert HoldsOption(before, d, value);
      if value.Some? {
        SweepRestores(before, listing, d, value.value);
      } else {
        SweepKeepsVacancy(before, listing, d);
      }
    }
  }

  /** Atomic replacement over any run: after any writes, sweeps and crashes, a restart and a sweep
      in which nothing fails leave every file with exactly the bytes of its last write that got
      into place, neither torn nor missing, and nothing else of any write. A sweep that fails loses
      nothing. */
  method RunAndRecover<C(==, !new)>(
    disk: Disk<string, C>, windows: bool, events: seq<Event<C>>, ghost initial: Dir<C>)
    returns (attempts: seq<Attempt<C>>, performed: nat, ghost faultsBefore: nat)
    requires HoldsLastWrites(disk.files, initial, [])
    modifies disk
    ensures performed <= |events|
    ensures Records(attempts, WritesOf(events[..performed]))
    ensures HoldsLastWrites(disk.files, initial, attempts)
    ensures faultsBefore <= disk.faults
    ensures disk.faults == faultsBefore ==>
              forall d :: Plain(d) ==>
                && ValueOf(disk.files, d) == LastInstalled(ValueOf(initial, d), attempts, d)
                && NoBackups(disk.files, d)
    ensures disk.faults == faultsBefore ==> forall n :: n in disk.files ==> !IsSibling(n)
  {
    attempts, performed := RunEvents(disk, windows, events, initial);
    disk.Restart();
    var listing := ReadDirectory(disk);
    faultsBefore := disk.faults;
    ghost var before := disk.files;
    CleanupAtomicResidueIn(disk, listing);
    SweepHoldsLastWrites(before, initial, attempts, disk.files);
    CompleteSweepSettles(before, listing, initial, attempts);
    if disk.faults == faultsBefore {
      forall n | n in disk.files ensures !IsSibling(n) {
        if IsSibling(n) {
          SweepRemovesSiblings(before, listing, n);
        }
      }
    }
  }
}
