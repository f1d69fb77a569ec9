/**
 Replacing one file under crashes (packages/api/src/atomic_write.rs): a unique temporary file,
 a rename or a backup-and-rename, and a sweep that repairs what an interrupted write left.
 */
module AtomicWrite {
  import opened Disks

  // ---------------------------------------------------------------------
  // One write
  // ---------------------------------------------------------------------

  /** The file to write and the two names that unique stamps provide beside it. */
  datatype Names<N(!new)> = Names(destination: N, temporary: N, backup: N) {
    ghost predicate Distinct() {
      destination != temporary && destination != backup && temporary != backup
    }
  }

  /** No other file is touched. */
  ghost predicate OthersKept<N(!new), C(!new)>(before: map<N, C>, after: map<N, C>, names: Names<N>) {
    forall n :: n !in {names.destination, names.temporary, names.backup} ==>
      (n in after <==> n in before) && (n in before ==> after[n] == before[n])
  }

  /** A backup of this write holds the old bytes of the destination. */
  ghost predicate BackupHoldsOld<N(!new), C(!new)>(before: map<N, C>, after: map<N, C>, names: Names<N>) {
    names.backup in after ==>
      names.destination in before && after[names.backup] == before[names.destination]
  }

  /** What a write that reports success leaves: the new bytes in place, whole. */
  ghost predicate Written<N(!new), C(!new)>(before: map<N, C>, after: map<N, C>, names: Names<N>, bytes: C) {
    && OthersKept(before, after, names)
    && BackupHoldsOld(before, after, names)
    && names.temporary !in after
    && names.destination in after && after[names.destination] == bytes
  }

  /** What a write that reports failure leaves: the old file in place, or moved whole to the backup. */
  ghost predicate NotWritten<N(!new), C(!new)>(before: map<N, C>, after: map<N, C>, names: Names<N>) {
    && OthersKept(before, after, names)
    && BackupHoldsOld(before, after, names)
    && (names.destination in after ==>
          names.backup !in after && names.destination in before
          && after[names.destination] == before[names.destination])
    && (names.destination !in after && names.destination in before ==> names.backup in after)
  }

  /** Move the old file aside, install the new one, move the old one back on failure. Without a
      failure nothing is left over, and after a single one the old file is where it was. */
  method ReplaceWithBackup<N(==, !new), C(!new)>(disk: Disk<N, C>, names: Names<N>) returns (ok: bool)
    requires names.Distinct() && names.backup !in disk.files
    requires !disk.crashed ==> names.temporary in disk.files
    modifies disk
    ensures old(disk.crashed) ==> disk.crashed && !ok && disk.files == old(disk.files)
    ensures disk.faults >= old(disk.faults) && (!ok ==> disk.faults > old(disk.faults))
    ensures ok ==> names.temporary in old(disk.files)
                   && Written(old(disk.files), disk.files, names, old(disk.files)[names.temporary])
    ensures !ok ==> NotWritten(old(disk.files), disk.files, names)
    ensures disk.faults == old(disk.faults) ==>
      disk.files == (old(disk.files) - {names.temporary})[names.destination := old(disk.files)[names.temporary]]
    ensures !ok && !disk.crashed && disk.faults == old(disk.faults) + 1 ==>
      disk.files == old(disk.files) - {names.temporary}
  {
    var moved := disk.Rename(names.destination, names.backup);
    if moved == Failed {
      var _ := disk.Remove(names.temporary);
      return false;
    }
    var installed := disk.Rename(names.temporary, names.destination);
    if installed != Done {
      if moved == Done {
        var restored := disk.Rename(names.backup, names.destination);
        if restored != Done {
          var _ := disk.Remove(names.temporary);
          return false;
        }
      }
      var _ := disk.Remove(names.temporary);
      return false;
    }
    if moved == Done {
      var _ := disk.Remove(names.backup);
    }
    return true;
  }

  /** Put a finished temporary file in place: renaming over the destination where the platform
      can, through a backup otherwise or when that rename fails. It takes two failures to stop the
      former, and the old file is where it was unless there are more. */
  method AtomicReplace<N(==, !new), C(!new)>(disk: Disk<N, C>, windows: bool, names: Names<N>) returns (ok: bool)
    requires names.Distinct() && names.backup !in disk.files
    requires !disk.crashed ==> names.temporary in disk.files
    modifies disk
    ensures old(disk.crashed) ==> disk.crashed && !ok && disk.files == old(disk.files)
    ensures disk.faults >= old(disk.faults) && (!ok ==> disk.faults > old(disk.faults))
    ensures ok ==> names.temporary in old(disk.files)
                   && Written(old(disk.files), disk.files, names, old(disk.files)[names.temporary])
    ensures !ok ==> NotWritten(old(disk.files), disk.files, names)
    ensures disk.faults == old(disk.faults) ==>
      disk.files == (old(disk.files) - {names.temporary})[names.destination := old(disk.files)[names.temporary]]
    ensures !ok && !windows ==> disk.faults >= old(disk.faults) + 2
    ensures !ok && !disk.crashed && disk.faults == old(disk.faults) + (if windows then 1 else 2) ==>
      disk.files == old(disk.files) - {names.temporary}
  {
    if windows {
      ok := ReplaceWithBackup(disk, names);
    } else {
      var renamed := disk.Rename(names.temporary, names.destination);
      ok := renamed == Done;
      if !ok {
        ok := ReplaceWithBackup(disk, names);
      }
    }
    if !ok {
      var _ := disk.Remove(names.temporary);
    }
  }

  /** Write to a fresh temporary file, then put it in place. `part` is any incomplete content. If
      nothing fails, the file is replaced and nothing else changes; if one operation fails and the
      write is given up, nothing changes at all. */
  method AtomicWriteBytes<N(==, !new), C(!new)>(
    disk: Disk<N, C>, windows: bool, names: Names<N>, part: C, bytes: C) returns (ok: bool)
    requires names.Distinct() && names.temporary !in disk.files && names.backup !in disk.files
    modifies disk
    ensures old(disk.crashed) ==> disk.crashed && !ok && disk.files == old(disk.files)
    ensures disk.faults >= old(disk.faults) && (!ok ==> disk.faults > old(disk.faults))
    ensures ok ==> Written(old(disk.files), disk.files, names, bytes)
    ensures !ok ==> NotWritten(old(disk.files), disk.files, names)
    ensures disk.faults == old(disk.faults) ==> disk.files == old(disk.files)[names.destination := bytes]
    ensures !ok && !disk.crashed && disk.faults == old(disk.faults) + 1 ==> disk.files == old(disk.files)
  {
    ok := disk.Write(names.temporary, part, bytes);
    if ok {
      ok := AtomicReplace(disk, windows, names);
    }
    if !ok {
      var _ := disk.Remove(names.temporary);
    }
  }
}
