/**
 A directory whose operations may fail, and may be cut short by a loss of power.

 Each operation is atomic and durable in program order. Any of them may fail, and power may
 go at any of them: from then on no operation has an effect until the machine restarts.
 A program that runs on such a disk leaves it exactly as it was at the moment of the loss, so
 a postcondition proved here covers an interruption after every step of the program.
 */
module Disks {

  datatype Outcome = Done | NotFound | Failed

  /** `N` is the type of file names and `C` that of file contents. */
  class Disk<N(==), C> {
    var files: map<N, C>
    var crashed: bool
    /** How many operations have failed so far. */
    ghost var faults: nat

    constructor (files: map<N, C>)
      ensures this.files == files && !crashed
    {
      this.files, crashed, faults := files, false, 0;
    }

    /** The machine comes up again. */
    method Restart()
      modifies this
      ensures files == old(files) && !crashed && faults == old(faults)
    {
      crashed := false;
    }

    method LosePowerOrNot()
      modifies this
      ensures files == old(files) && faults == old(faults)
      ensures old(crashed) ==> crashed
    {
      if * {
        crashed := true;
      }
    }

    /** `path.exists()`. What a program sees after the loss of power does not matter. */
    method Exists(name: N) returns (found: bool)
      ensures !crashed ==> (found <==> name in files)
    {
      found := name in files;
    }

    method Rename(from: N, to: N) returns (r: Outcome)
      requires from != to
      modifies this
      ensures old(crashed) ==> crashed && r == Failed
      ensures r == Done ==> from in old(files) && files == (old(files) - {from})[to := old(files)[from]]
      ensures r != Done ==> files == old(files)
      ensures r == NotFound ==> from !in files
      ensures faults == old(faults) + if r == Failed then 1 else 0
    {
      LosePowerOrNot();
      if crashed {
        faults := faults + 1;
        return Failed;
      }
      if from !in files {
        return NotFound;
      }
      if * {
        faults := faults + 1;
        return Failed;
      }
      files := (files - {from})[to := files[from]];
      return Done;
    }

    method Remove(name: N) returns (r: Outcome)
      modifies this
      ensures old(crashed) ==> crashed && r == Failed
      ensures r == Done ==> files == old(files) - {name}
      ensures r != Done ==> files == old(files)
      ensures r == NotFound ==> name !in files
      ensures faults == old(faults) + if r == Failed then 1 else 0
    {
      LosePowerOrNot();
      if crashed {
        faults := faults + 1;
        return Failed;
      }
      if name !in files {
        return NotFound;
      }
      if * {
        faults := faults + 1;
        return Failed;
      }
      files := files - {name};
      return Done;
    }

    /** Open for writing, write everything, `sync_all`. Cut short, it leaves the file as it was,
        or with some part of the content, or with all of it although an error is reported. */
    method Write(name: N, part: C, whole: C) returns (ok: bool)
      modifies this
      ensures old(crashed) ==> crashed && !ok && files == old(files)
      ensures ok ==> files == old(files)[name := whole]
      ensures faults == old(faults) + if ok then 0 else 1
      ensures !ok ==> files in {old(files), old(files)[name := part], old(files)[name := whole]}
    {
      LosePowerOrNot();
      if crashed {
        faults := faults + 1;
        return false;
      }
      if * {
        faults := faults + 1;
        return false;
      }
      files := files[name := part];
      LosePowerOrNot();
      if crashed {
        faults := faults + 1;
        return false;
      }
      if * {
        faults := faults + 1;
        return false;
      }
      files := files[name := whole];
      assert files == old(files)[name := whole];
      LosePowerOrNot();
      if crashed {
        faults := faults + 1;
        return false;
      }
      if * {
        faults := faults + 1;
        return false;
      }
      return true;
    }
  }
}
