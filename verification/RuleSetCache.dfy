/**
 The two-file rule-set install and its recovery (packages/api/src/rule_set_cache.rs).

 Both rule files are replaced together: old files are staged as backups, a journal says which
 existed, a commit marker ends the transaction, and recovery completes or undoes whatever an
 interruption left. The abstract state is a pair of files, read off the directory by `Meaning`;
 every step of install and recovery keeps it except the one that makes the marker visible.
 */
module RuleSetCache {
  import opened Wrappers
  import opened Disks
  import AtomicWrite

  datatype Rule = Geosite | Geoip

  /** The files of the rules directory. The last two are the siblings that the atomic write of
      the commit marker makes up. */
  datatype Name =
    | Live(rule: Rule)
    | Backup(rule: Rule)
    | Pending(rule: Rule)
    | Journal
    | Commit
    | CommitTemporary(stamp: string)
    | CommitBackup(stamp: string)

  type Bytes = seq<bv8>

  /** File contents. `Torn` is a document cut short: it does not parse as a journal. */
  datatype Content =
    | Data(bytes: Bytes)
    | Existed(geosite: bool, geoip: bool)
    | Committed
    | Torn
  {
    predicate Names(rule: Rule)
      requires Existed?
    {
      if rule == Geosite then geosite else geoip
    }
  }

  type Dir = map<Name, Content>

  /** `validate_rule_set_file`: parsing rule sets is sing-box's business. */
  type Validator = Content -> bool

  function Current(dir: Dir, rule: Rule): Option<Content> {
    if Live(rule) in dir then Some(dir[Live(rule)]) else None
  }

  predicate Uncommitted(dir: Dir) {
    Journal in dir && Commit !in dir && dir[Journal].Existed?
  }

  /** The rule file that a directory stands for, whatever interruption it shows. Without a journal
      a backup can only stem from caches older than the journal. */
  function Meaning(dir: Dir, valid: Validator, rule: Rule): Option<Content> {
    if Uncommitted(dir) then
      if Backup(rule) in dir then Some(dir[Backup(rule)])
      else if !dir[Journal].Names(rule) then None
      else Current(dir, rule)
    else if Journal !in dir && Backup(rule) in dir
            && !(Live(rule) in dir && valid(dir[Live(rule)])) then
      Some(dir[Backup(rule)])
    else
      Current(dir, rule)
  }

  /** A journal that does not parse was cut short before anything was staged, and one that does
      names every file that has been staged. */
  predicate Sound(dir: Dir) {
    && (Journal in dir && Commit !in dir && !dir[Journal].Existed? ==>
          Backup(Geosite) !in dir && Backup(Geoip) !in dir)
    && (Uncommitted(dir) ==>
          && (Backup(Geosite) in dir ==> dir[Journal].Names(Geosite))
          && (Backup(Geoip) in dir ==> dir[Journal].Names(Geoip)))
  }

  /** Nothing of a transaction is left. */
  predicate Settled(dir: Dir) {
    Journal !in dir && Commit !in dir && Backup(Geosite) !in dir && Backup(Geoip) !in dir
  }

  /** No downloaded file is left at its temporary name. */
  predicate NothingPending(dir: Dir) {
    Pending(Geosite) !in dir && Pending(Geoip) !in dir
  }

  /** The pair of rule files a directory stands for. */
  function PairOf(dir: Dir, valid: Validator): (Option<Content>, Option<Content>) {
    (Meaning(dir, valid, Geosite), Meaning(dir, valid, Geoip))
  }

  /** The pair of rule files in place. */
  function CurrentPair(dir: Dir): (Option<Content>, Option<Content>) {
    (Current(dir, Geosite), Current(dir, Geoip))
  }

  type RuleDisk = Disk<Name, Content>

  // ---------------------------------------------------------------------
  // Undoing
  // ---------------------------------------------------------------------

  /** Only these files differ. */
  ghost predicate OnlyChanged(a: Dir, b: Dir, names: set<Name>) {
    forall n :: n !in names ==> (n in b <==> n in a) && (n in b ==> b[n] == a[n])
  }

  /** Interrupted or not, the step keeps what the directory stands for (and makes up no siblings
      of the commit marker). */
  ghost predicate Keeps(a: Dir, b: Dir, valid: Validator) {
    && Sound(b) && PairOf(a, valid) == PairOf(b, valid)
    && forall n :: n in b && n !in a ==> !n.CommitTemporary? && !n.CommitBackup?
  }

  /** `rollback_rule_set_install` with `restore_rule_set_backup`. */
  method RollbackInstall(disk: RuleDisk, rule: Rule, existed: bool, valid: Validator) returns (ok: bool)
    requires Sound(disk.files)
    requires !disk.crashed ==> Uncommitted(disk.files) && existed == disk.files[Journal].Names(rule)
    modifies disk
    ensures old(disk.crashed) ==> disk.crashed && disk.files == old(disk.files)
    ensures Keeps(old(disk.files), disk.files, valid)
    ensures OnlyChanged(old(disk.files), disk.files, {Live(rule), Backup(rule)})
    ensures ok && !disk.crashed ==> Backup(rule) !in disk.files
    ensures ok && !disk.crashed ==> Current(disk.files, rule) == Meaning(disk.files, valid, rule)
    ensures disk.faults >= old(disk.faults) && (!ok ==> disk.faults > old(disk.faults))
  {
    var backedUp := disk.Exists(Backup(rule));
    if backedUp {
      var occupied := disk.Exists(Live(rule));
      if occupied {
        var cleared := disk.Remove(Live(rule));
        if cleared != Done {
          return false;
        }
      }
      var restored := disk.Rename(Backup(rule), Live(rule));
      return restored == Done;
    }
    var present := disk.Exists(Live(rule));
    if !existed && present {
      var removed := disk.Remove(Live(rule));
      return removed == Done;
    }
    return true;
  }

  /** `rollback_rule_set_pair`: the second file is rolled back even when the first fails. */
  method RollbackPair(disk: RuleDisk, state: Content, valid: Validator) returns (ok: bool)
    requires Sound(disk.files) && state.Existed?
    requires !disk.crashed ==> Uncommitted(disk.files) && state == disk.files[Journal]
    modifies disk
    ensures old(disk.crashed) ==> disk.crashed && disk.files == old(disk.files)
    ensures Keeps(old(disk.files), disk.files, valid)
    ensures OnlyChanged(old(disk.files), disk.files, {Live(Geosite), Backup(Geosite), Live(Geoip), Backup(Geoip)})
    ensures ok && !disk.crashed ==> Backup(Geosite) !in disk.files && Backup(Geoip) !in disk.files
    ensures ok && !disk.crashed ==> CurrentPair(disk.files) == PairOf(disk.files, valid)
    ensures disk.faults >= old(disk.faults) && (!ok ==> disk.faults > old(disk.faults))
  {
    var first := RollbackInstall(disk, Geosite, state.Names(Geosite), valid);
    var second := RollbackInstall(disk, Geoip, state.Names(Geoip), valid);
    return first && second;
  }

  // ---------------------------------------------------------------------
  // Completing
  // ---------------------------------------------------------------------

  method RemoveIfPresent(disk: RuleDisk, name: Name) returns (ok: bool)
    modifies disk
    ensures old(disk.crashed) ==> disk.crashed && disk.files == old(disk.files)
    ensures disk.files == old(disk.files) || disk.files == old(disk.files) - {name}
    ensures ok && !disk.crashed ==> disk.files == old(disk.files) - {name}
    ensures name !in old(disk.files) && !disk.crashed ==> ok
    ensures disk.faults >= old(disk.faults) && (!ok ==> disk.faults > old(disk.faults))
  {
    var present := disk.Exists(name);
    if present {
      var removed := disk.Remove(name);
      return removed == Done;
    }
    assert !disk.crashed ==> disk.files == disk.files - {name};
    return true;
  }

  /** `finish_rule_set_transaction`: the marker goes last, so an interrupted completion resumes. */
  method FinishTransaction(disk: RuleDisk, valid: Validator) returns (ok: bool)
    requires Sound(disk.files)
    requires !disk.crashed ==> Journal in disk.files && Commit in disk.files
    modifies disk
    ensures old(disk.crashed) ==> disk.crashed && disk.files == old(disk.files)
    ensures Keeps(old(disk.files), disk.files, valid)
    ensures ok && !disk.crashed ==> Settled(disk.files) && CurrentPair(disk.files) == PairOf(old(disk.files), valid)
    ensures disk.faults >= old(disk.faults) && (!ok ==> disk.faults > old(disk.faults))
  {
    ok := RemoveIfPresent(disk, Backup(Geosite));
    if !ok { return; }
    ok := RemoveIfPresent(disk, Backup(Geoip));
    if !ok { return; }
    ok := RemoveIfPresent(disk, Journal);
    if !ok { return; }
    ok := RemoveIfPresent(disk, Commit);
  }

  // ---------------------------------------------------------------------
  // Recovery
  // ---------------------------------------------------------------------

  /** `recover_rule_set_backup`: one file of a cache that predates the journal. */
  method RecoverBackup(disk: RuleDisk, rule: Rule, valid: Validator) returns (ok: bool)
    requires Sound(disk.files)
    requires !disk.crashed ==> Journal !in disk.files
    modifies disk
    ensures old(disk.crashed) ==> disk.crashed && disk.files == old(disk.files)
    ensures Keeps(old(disk.files), disk.files, valid)
    ensures OnlyChanged(old(disk.files), disk.files, {Live(rule), Backup(rule)})
    ensures ok && !disk.crashed ==> Backup(rule) !in disk.files
    ensures Backup(rule) !in old(disk.files) && !disk.crashed ==> ok && disk.files == old(disk.files)
    ensures disk.faults >= old(disk.faults) && (!ok ==> disk.faults > old(disk.faults))
  {
    var backedUp := disk.Exists(Backup(rule));
    if !backedUp {
      return true;
    }
    var present := disk.Exists(Live(rule));
    if present {
      if Live(rule) in disk.files && valid(disk.files[Live(rule)]) {
        var dropped := disk.Remove(Backup(rule));
        return dropped == Done;
      }
      var removed := disk.Remove(Live(rule));
      if removed != Done {
        return false;
      }
    }
    var restored := disk.Rename(Backup(rule), Live(rule));
    return restored == Done;
  }

  /** The part of recovery that undoes a transaction whose journal parses. */
  method UndoTransaction(disk: RuleDisk, state: Content, valid: Validator) returns (ok: bool)
    requires Sound(disk.files) && state.Existed?
    requires !disk.crashed ==> Uncommitted(disk.files) && state == disk.files[Journal]
    modifies disk
    ensures old(disk.crashed) ==> disk.crashed && disk.files == old(disk.files)
    ensures Keeps(old(disk.files), disk.files, valid)
    ensures ok && !disk.crashed ==> Settled(disk.files) && CurrentPair(disk.files) == PairOf(old(disk.files), valid)
    ensures disk.faults >= old(disk.faults) && (!ok && !disk.crashed ==> disk.faults > old(disk.faults))
    ensures !disk.crashed && disk.faults == old(disk.faults) ==> NothingPending(disk.files)
  {
    ok := RollbackPair(disk, state, valid);
    if !ok { return; }
    RemovePending(disk, valid);
    var removed := disk.Remove(Journal);
    ok := removed == Done;
  }

  /** The temporary files go, unless the disk fails; whether they do is not checked. */
  method RemovePending(disk: RuleDisk, valid: Validator)
    requires Sound(disk.files)
    modifies disk
    ensures old(disk.crashed) ==> disk.crashed && disk.files == old(disk.files)
    ensures Keeps(old(disk.files), disk.files, valid)
    ensures OnlyChanged(old(disk.files), disk.files, {Pending(Geosite), Pending(Geoip)})
    ensures disk.faults >= old(disk.faults)
    ensures !disk.crashed && disk.faults == old(disk.faults) ==> NothingPending(disk.files)
  {
    var _ := disk.Remove(Pending(Geosite));
    var _ := disk.Remove(Pending(Geoip));
  }

  /** Compatibility with caches written before pair transactions. */
  method RecoverLegacyBackups(disk: RuleDisk, valid: Validator) returns (ok: bool)
    requires Sound(disk.files)
    requires !disk.crashed ==> Journal !in disk.files
    modifies disk
    ensures old(disk.crashed) ==> disk.crashed && disk.files == old(disk.files)
    ensures Keeps(old(disk.files), disk.files, valid)
    ensures ok && !disk.crashed ==>
      Journal !in disk.files && Backup(Geosite) !in disk.files && Backup(Geoip) !in disk.files
    ensures Settled(old(disk.files)) && !disk.crashed ==> ok && disk.files == old(disk.files)
    ensures disk.faults >= old(disk.faults) && (!ok ==> disk.faults > old(disk.faults))
  {
    ok := RecoverBackup(disk, Geosite, valid);
    if !ok { return; }
    ok := RecoverBackup(disk, Geoip, valid);
  }

  /** `recover_rule_set_transaction`. From any sound directory, and however often it is cut
      short, it keeps what the directory stands for; once it succeeds, the pair is in place and
      nothing of the transaction is left. It fails only when the disk does. */
  method Recover(disk: RuleDisk, valid: Validator) returns (ok: bool)
    requires Sound(disk.files)
    modifies disk
    ensures old(disk.crashed) ==> disk.crashed && disk.files == old(disk.files)
    ensures Keeps(old(disk.files), disk.files, valid)
    ensures ok && !disk.crashed ==> Settled(disk.files) && CurrentPair(disk.files) == PairOf(old(disk.files), valid)
    ensures disk.faults >= old(disk.faults) && (!ok && !disk.crashed ==> disk.faults > old(disk.faults))
    ensures Settled(old(disk.files)) && !disk.crashed ==> ok && disk.files == old(disk.files)
  {
    var started := disk.Exists(Journal);
    if started {
      var committed := disk.Exists(Commit);
      if committed {
        ok := FinishTransaction(disk, valid);
        return;
      }
      if Journal !in disk.files {
        // Nothing to read: only after the loss of power.
        return false;
      }
      var state := disk.files[Journal];
      if state.Existed? {
        ok := UndoTransaction(disk, state, valid);
        if !ok { return; }
      } else {
        var geositeBackup := disk.Exists(Backup(Geosite));
        var geoipBackup := disk.Exists(Backup(Geoip));
        if geositeBackup || geoipBackup {
          return false;
        }
        var removed := disk.Remove(Journal);
        return removed == Done;
      }
    } else {
      ok := RecoverLegacyBackups(disk, valid);
      if !ok { return; }
    }
    ok := RemoveIfPresent(disk, Commit);
  }

  // ---------------------------------------------------------------------
  // Installing
  // ---------------------------------------------------------------------

  /** What one install is given: the downloaded files, the platform, and the stamp that makes the
      sibling names of the commit marker unique. */
  datatype Request = Request(geosite: Bytes, geoip: Bytes, windows: bool, stamp: string) {
    function Content(rule: Rule): Content {
      Data(if rule == Geosite then geosite else geoip)
    }

    function Pair(): (Option<Content>, Option<Content>) {
      (Some(Data(geosite)), Some(Data(geoip)))
    }

    predicate Valid(valid: Validator) {
      valid(Data(geosite)) && valid(Data(geoip))
    }

    function CommitNames(): AtomicWrite.Names<Name> {
      AtomicWrite.Names(Commit, CommitTemporary(stamp), CommitBackup(stamp))
    }

    predicate Fresh(dir: Dir) {
      CommitTemporary(stamp) !in dir && CommitBackup(stamp) !in dir
    }
  }

  /** A valid journal, nothing staged yet, and the new files waiting. */
  predicate Prepared(dir: Dir, request: Request) {
    && Commit !in dir && Backup(Geosite) !in dir && Backup(Geoip) !in dir
    && Journal in dir && dir[Journal] == Existed(Live(Geosite) in dir, Live(Geoip) in dir)
    && PendingHold(dir, request)
  }

  predicate PendingHold(dir: Dir, request: Request) {
    && Pending(Geosite) in dir && dir[Pending(Geosite)] == Data(request.geosite)
    && Pending(Geoip) in dir && dir[Pending(Geoip)] == Data(request.geoip)
  }

  /** `stage_rule_set_backup`. */
  method StageBackup(disk: RuleDisk, rule: Rule, valid: Validator) returns (ok: bool)
    requires Sound(disk.files)
    requires !disk.crashed ==>
      Uncommitted(disk.files) && Backup(rule) !in disk.files
      && disk.files[Journal].Names(rule) == (Live(rule) in disk.files)
    modifies disk
    ensures old(disk.crashed) ==> disk.crashed && disk.files == old(disk.files)
    ensures Keeps(old(disk.files), disk.files, valid)
    ensures OnlyChanged(old(disk.files), disk.files, {Live(rule), Backup(rule)})
    ensures ok && !disk.crashed ==> Live(rule) !in disk.files
    ensures ok && !disk.crashed ==> (Backup(rule) in disk.files <==> Live(rule) in old(disk.files))
    ensures disk.faults >= old(disk.faults) && (!ok ==> disk.faults > old(disk.faults))
  {
    var present := disk.Exists(Live(rule));
    if present {
      var moved := disk.Rename(Live(rule), Backup(rule));
      return moved == Done;
    }
    return true;
  }

  method InstallPending(disk: RuleDisk, rule: Rule, valid: Validator) returns (ok: bool)
    requires Sound(disk.files)
    requires !disk.crashed ==>
      Uncommitted(disk.files) && Live(rule) !in disk.files && Pending(rule) in disk.files
      && disk.files[Journal].Names(rule) == (Backup(rule) in disk.files)
    modifies disk
    ensures old(disk.crashed) ==> disk.crashed && disk.files == old(disk.files) && !ok
    ensures Keeps(old(disk.files), disk.files, valid)
    ensures OnlyChanged(old(disk.files), disk.files, {Live(rule), Pending(rule)})
    ensures ok ==> Pending(rule) in old(disk.files) && Live(rule) in disk.files
                   && disk.files[Live(rule)] == old(disk.files)[Pending(rule)]
    ensures disk.faults >= old(disk.faults) && (!ok ==> disk.faults > old(disk.faults))
  {
    var moved := disk.Rename(Pending(rule), Live(rule));
    ok := moved == Done;
  }

  /** `write_rule_set_commit`. The moment the marker appears, the directory stands for the new
      pair; until then it stands for the old one. */
  method WriteCommit(disk: RuleDisk, request: Request, valid: Validator) returns (ok: bool)
    requires Sound(disk.files) && request.Fresh(disk.files)
    requires !disk.crashed ==> Uncommitted(disk.files)
    modifies disk
    ensures old(disk.crashed) ==> disk.crashed && !ok && disk.files == old(disk.files)
    ensures Sound(disk.files)
    ensures !ok ==> PairOf(disk.files, valid) == PairOf(old(disk.files), valid)
    ensures ok ==> PairOf(disk.files, valid) == CurrentPair(old(disk.files))
    ensures ok ==> Journal in disk.files && Commit in disk.files
    ensures !ok && !old(disk.crashed) ==> Uncommitted(disk.files) && disk.files[Journal] == old(disk.files)[Journal]
    ensures disk.faults >= old(disk.faults) && (!ok ==> disk.faults > old(disk.faults))
  {
    ok := AtomicWrite.AtomicWriteBytes(disk, request.windows, request.CommitNames(), Torn, Committed);
  }

  method StagePair(disk: RuleDisk, request: Request, valid: Validator) returns (ok: bool)
    requires Sound(disk.files)
    requires !disk.crashed ==> Prepared(disk.files, request)
    modifies disk
    ensures old(disk.crashed) ==> disk.crashed
    ensures Keeps(old(disk.files), disk.files, valid)
    ensures !disk.crashed ==> Uncommitted(disk.files) && disk.files[Journal] == old(disk.files)[Journal]
    ensures ok && !disk.crashed ==>
      && PendingHold(disk.files, request)
      && Live(Geosite) !in disk.files && Live(Geoip) !in disk.files
      && disk.files[Journal] == Existed(Backup(Geosite) in disk.files, Backup(Geoip) in disk.files)
    ensures disk.faults >= old(disk.faults) && (!ok ==> disk.faults > old(disk.faults))
  {
    hide Meaning;
    ok := StageBackup(disk, Geosite, valid);
    if !ok { return; }
    ok := StageBackup(disk, Geoip, valid);
  }

  /** Stage both old files, move both new ones in, write the marker; stop at the first failure. */
  method SwitchOver(disk: RuleDisk, request: Request, valid: Validator) returns (ok: bool)
    requires Sound(disk.files) && request.Fresh(disk.files)
    requires !disk.crashed ==> Prepared(disk.files, request)
    modifies disk
    ensures old(disk.crashed) ==> disk.crashed
    ensures Sound(disk.files)
    ensures PairOf(disk.files, valid) == if ok then request.Pair() else PairOf(old(disk.files), valid)
    ensures ok ==> Journal in disk.files && Commit in disk.files
    ensures !ok && !disk.crashed ==> Uncommitted(disk.files)
    ensures disk.faults >= old(disk.faults) && (!ok ==> disk.faults > old(disk.faults))
  {
    hide Meaning;
    ok := StagePair(disk, request, valid);
    if !ok { return; }
    ok := InstallPending(disk, Geosite, valid);
    if !ok { return; }
    ok := InstallPending(disk, Geoip, valid);
    if !ok { return; }
    ok := WriteCommit(disk, request, valid);
  }

  /** The two downloaded files go to their temporary names. */
  method WritePending(disk: RuleDisk, request: Request, valid: Validator) returns (ok: bool)
    requires Sound(disk.files) && request.Fresh(disk.files)
    requires !disk.crashed ==> Settled(disk.files)
    modifies disk
    ensures old(disk.crashed) ==> disk.crashed
    ensures Keeps(old(disk.files), disk.files, valid)
    ensures OnlyChanged(old(disk.files), disk.files, {Pending(Geosite), Pending(Geoip)})
    ensures !disk.crashed ==> Settled(disk.files)
    ensures ok ==> PendingHold(disk.files, request)
    ensures disk.faults >= old(disk.faults) && (!ok ==> disk.faults > old(disk.faults))
    ensures !ok && !disk.crashed && disk.faults == old(disk.faults) + 1 ==> NothingPending(disk.files)
  {
    ok := disk.Write(Pending(Geosite), Torn, request.Content(Geosite));
    if ok {
      ok := disk.Write(Pending(Geoip), Torn, request.Content(Geoip));
    }
    if !ok {
      RemovePending(disk, valid);
    }
  }

  /** `write_rule_set_transaction`. */
  method WriteJournal(disk: RuleDisk, request: Request, valid: Validator) returns (ok: bool)
    requires Sound(disk.files)
    requires !disk.crashed ==> Settled(disk.files)
    modifies disk
    ensures old(disk.crashed) ==> disk.crashed && !ok
    ensures Keeps(old(disk.files), disk.files, valid)
    ensures OnlyChanged(old(disk.files), disk.files, {Journal})
    ensures ok ==> Uncommitted(disk.files)
                   && disk.files[Journal] == Existed(Live(Geosite) in disk.files, Live(Geoip) in disk.files)
    ensures disk.faults >= old(disk.faults) && (!ok ==> disk.faults > old(disk.faults))
  {
    var geositeExisted := disk.Exists(Live(Geosite));
    var geoipExisted := disk.Exists(Live(Geoip));
    ok := disk.Write(Journal, Torn, Existed(geositeExisted, geoipExisted));
  }

  /** After a failed switch: roll back, drop the temporary files, and close the transaction if the
      rollback succeeded. Later failures are ignored; without one the old pair is back in place at
      once and nothing is left over. */
  method AbandonTransaction(disk: RuleDisk, valid: Validator)
    requires Sound(disk.files)
    requires !disk.crashed ==> Uncommitted(disk.files)
    modifies disk
    ensures old(disk.crashed) ==> disk.crashed
    ensures Keeps(old(disk.files), disk.files, valid)
    ensures disk.faults >= old(disk.faults)
    ensures !disk.crashed && disk.faults == old(disk.faults) ==>
      Settled(disk.files) && NothingPending(disk.files) && CurrentPair(disk.files) == PairOf(old(disk.files), valid)
  {
    hide Meaning;
    if !disk.crashed {
      var rolledBack := RollbackPair(disk, disk.files[Journal], valid);
      RemovePending(disk, valid);
      if rolledBack {
        DiscardTransaction(disk, valid);
      }
    }
  }

  method DiscardTransaction(disk: RuleDisk, valid: Validator)
    requires Sound(disk.files)
    requires !disk.crashed ==>
      Uncommitted(disk.files) && Backup(Geosite) !in disk.files && Backup(Geoip) !in disk.files
      && CurrentPair(disk.files) == PairOf(disk.files, valid)
    modifies disk
    ensures old(disk.crashed) ==> disk.crashed
    ensures Keeps(old(disk.files), disk.files, valid)
    ensures OnlyChanged(old(disk.files), disk.files, {Journal, Commit})
    ensures disk.faults >= old(disk.faults)
    ensures !disk.crashed && disk.faults == old(disk.faults) ==>
      Settled(disk.files) && CurrentPair(disk.files) == PairOf(old(disk.files), valid)
  {
    var _ := disk.Remove(Journal);
    var _ := disk.Remove(Commit);
  }

  /** Begun in a settled directory, an install that fails by one single fault has the old pair in
      place again when it returns: no backup, no marker and no temporary file is left. */
  ghost predicate OneFaultIsHarmless(before: Dir, faults: nat, disk: RuleDisk)
    reads disk
  {
    Settled(before) && !disk.crashed && disk.faults == faults + 1 ==>
      && CurrentPair(disk.files) == CurrentPair(before) && NothingPending(disk.files)
      && Backup(Geosite) !in disk.files && Backup(Geoip) !in disk.files && Commit !in disk.files
  }

  datatype InstallResult = Installed | Refused | StorageError

  /** The steps before anything is staged: recover, write and check the new files, write the
      journal. `None` means go on. */
  method Begin(disk: RuleDisk, request: Request, valid: Validator) returns (end: Option<InstallResult>)
    requires Sound(disk.files) && request.Fresh(disk.files)
    modifies disk
    ensures old(disk.crashed) ==> disk.crashed
    ensures Keeps(old(disk.files), disk.files, valid)
    ensures end == None ==> request.Valid(valid)
    ensures end == None && !disk.crashed ==> Prepared(disk.files, request)
    ensures end == Some(Refused) && !disk.crashed ==> !request.Valid(valid) && Settled(disk.files)
    ensures end != Some(Installed)
    ensures disk.faults >= old(disk.faults)
    ensures end == Some(StorageError) && !disk.crashed ==> disk.faults > old(disk.faults)
    ensures end == Some(StorageError) ==> OneFaultIsHarmless(old(disk.files), old(disk.faults), disk)
    ensures end == Some(Refused) && !disk.crashed && disk.faults == old(disk.faults) ==> NothingPending(disk.files)
  {
    hide Meaning;
    var recovered := Recover(disk, valid);
    if !recovered {
      return Some(StorageError);
    }
    end := Prepare(disk, request, valid);
  }

  /** The same from a settled directory on. */
  method Prepare(disk: RuleDisk, request: Request, valid: Validator) returns (end: Option<InstallResult>)
    requires Sound(disk.files) && request.Fresh(disk.files)
    requires !disk.crashed ==> Settled(disk.files)
    modifies disk
    ensures old(disk.crashed) ==> disk.crashed
    ensures Keeps(old(disk.files), disk.files, valid)
    ensures end == None ==> request.Valid(valid)
    ensures end == None && !disk.crashed ==> Prepared(disk.files, request)
    ensures end == Some(Refused) && !disk.crashed ==> !request.Valid(valid) && Settled(disk.files)
    ensures end != Some(Installed)
    ensures disk.faults >= old(disk.faults)
    ensures end == Some(StorageError) ==> disk.faults > old(disk.faults)
    ensures end == Some(StorageError) ==> OneFaultIsHarmless(old(disk.files), old(disk.faults), disk)
    ensures end == Some(Refused) && !disk.crashed && disk.faults == old(disk.faults) ==> NothingPending(disk.files)
  {
    hide Meaning, PairOf;
    var written := WritePending(disk, request, valid);
    if !written {
      return Some(StorageError);
    }
    if !request.Valid(valid) {
      RemovePending(disk, valid);
      return Some(Refused);
    }
    var begun := OpenTransaction(disk, request, valid);
    end := if begun then None else Some(StorageError);
  }

  /** The journal, with the new files waiting. */
  method OpenTransaction(disk: RuleDisk, request: Request, valid: Validator) returns (ok: bool)
    requires Sound(disk.files)
    requires !disk.crashed ==> Settled(disk.files) && PendingHold(disk.files, request)
    modifies disk
    ensures old(disk.crashed) ==> disk.crashed
    ensures Keeps(old(disk.files), disk.files, valid)
    ensures OnlyChanged(old(disk.files), disk.files, {Journal, Pending(Geosite), Pending(Geoip)})
    ensures ok && !disk.crashed ==> Prepared(disk.files, request)
    ensures disk.faults >= old(disk.faults) && (!ok ==> disk.faults > old(disk.faults))
    ensures !ok && !disk.crashed && disk.faults == old(disk.faults) + 1 ==> NothingPending(disk.files)
  {
    hide Meaning, PairOf;
    ok := WriteJournal(disk, request, valid);
    if !ok {
      RemovePending(disk, valid);
    }
  }

  lemma SettledPair(dir: Dir, valid: Validator)
    ensures Settled(dir) ==> PairOf(dir, valid) == CurrentPair(dir)
  {
  }

  /** `install_rule_set_cache`. Interrupted anywhere or failing anywhere, it leaves a directory that
      stands for the whole old pair or the whole new one; `committed` tells which. It reports
      success only for the new pair in place with nothing left over, refuses only invalid files,
      and fails otherwise only when the disk does. If it fails without committing although the disk
      failed only once, the old pair is in place again already. */
  method Install(disk: RuleDisk, request: Request, valid: Validator)
    returns (result: InstallResult, ghost committed: bool)
    requires Sound(disk.files) && request.Fresh(disk.files)
    modifies disk
    ensures Sound(disk.files)
    ensures PairOf(disk.files, valid) == if committed then request.Pair() else PairOf(old(disk.files), valid)
    ensures committed ==> request.Valid(valid)
    ensures result == Installed ==> committed
    ensures result == Installed && !disk.crashed ==> Settled(disk.files) && CurrentPair(disk.files) == request.Pair()
    ensures result == Refused && !disk.crashed ==> !request.Valid(valid) && Settled(disk.files)
    ensures result == StorageError && !disk.crashed ==> disk.faults > old(disk.faults)
    ensures result == StorageError && !committed ==> OneFaultIsHarmless(old(disk.files), old(disk.faults), disk)
    ensures result == Refused && !disk.crashed && disk.faults == old(disk.faults) ==> NothingPending(disk.files)
  {
    hide Meaning, PairOf, CurrentPair;
    committed := false;
    var end := Begin(disk, request, valid);
    if end.Some? {
      return end.value, false;
    }
    var switched := SwitchOver(disk, request, valid);
    if !switched {
      SettledPair(old(disk.files), valid);
      AbandonTransaction(disk, valid);
      return StorageError, false;
    }
    committed := true;
    var finished := FinishTransaction(disk, valid);
    result := if finished then Installed else StorageError;
  }

  // ---------------------------------------------------------------------
  // Any run of installs, recoveries, failures and losses of power
  // ---------------------------------------------------------------------

  /** One session of the program: an install, or a recovery alone. */
  datatype Session = InstallSession(request: Request) | RecoverySession

  /** The pair a run must end with: the one of the last session that committed. */
  function LastCommitted(
    initial: (Option<Content>, Option<Content>), sessions: seq<Session>, committed: seq<bool>)
    : (pair: (Option<Content>, Option<Content>))
    requires |sessions| == |committed|
  {
    if sessions == [] then initial else
      var n := |sessions| - 1;
      if sessions[n].InstallSession? && committed[n] then sessions[n].request.Pair()
      else LastCommitted(initial, sessions[..n], committed[..n])
  }

  /** Sessions one after the other, each possibly failing or cut short by a loss of power, and a
      last recovery: unless the disk fails in it, the two files are exactly the pair of the last
      session that committed, or the initial pair, and no backup, journal or marker is left. */
  method RunSessions(disk: RuleDisk, sessions: seq<Session>, valid: Validator)
    returns (recovered: bool, ghost committed: seq<bool>, ghost faultsBefore: nat)
    requires Sound(disk.files)
    modifies disk
    ensures Sound(disk.files) && |committed| == |sessions|
    ensures PairOf(disk.files, valid) == LastCommitted(PairOf(old(disk.files), valid), sessions, committed)
    ensures forall i :: 0 <= i < |sessions| && committed[i] ==>
      sessions[i].InstallSession? && sessions[i].request.Valid(valid)
    ensures recovered || disk.crashed || disk.faults > faultsBefore
    ensures recovered ==> Settled(disk.files)
    ensures recovered ==>
      CurrentPair(disk.files) == LastCommitted(PairOf(old(disk.files), valid), sessions, committed)
  {
    hide Meaning, PairOf, CurrentPair, Sound;
    committed := [];
    for i := 0 to |sessions|
      invariant Sound(disk.files) && |committed| == i
      invariant PairOf(disk.files, valid) == LastCommitted(PairOf(old(disk.files), valid), sessions[..i], committed)
      invariant forall k :: 0 <= k < i && committed[k] ==>
        sessions[k].InstallSession? && sessions[k].request.Valid(valid)
    {
      disk.Restart();
      ghost var done := false;
      match sessions[i] {
        case InstallSession(request) =>
          // Stamps hold the process id, the time and a counter: a name once made up is not made up again.
          if request.Fresh(disk.files) {
            var result, c := Install(disk, request, valid);
            done := c;
          }
        case RecoverySession =>
          var ok := Recover(disk, valid);
      }
      assert sessions[..i + 1][..i] == sessions[..i];
      committed := committed + [done];
      assert committed[..i] + [done] == committed;
    }
    assert sessions[..|sessions|] == sessions;
    disk.Restart();
    faultsBefore := disk.faults;
    var ok := Recover(disk, valid);
    recovered := ok && !disk.crashed;
  }
}
