/**
 * `SQLiteBackupsJob` itself: `@failures` and the mounted filesystem are
 * updated in place, and each private method is proved against the phase
 * function that specifies it.
 */
module Backups {
  import opened Wrappers
  import opened Paths
  import opened Files
  import opened Copier
  import opened Tenants
  import opened RolloverPhase
  import opened BackupPhase
  import opened SweepPhase
  import opened RetentionPhase
  import opened JobRun

  class SQLiteBackupsJob {
    const fs: FileSystem
    var failures: seq<string>

    constructor (fs: FileSystem)
      ensures this.fs == fs && failures == []
    {
      this.fs := fs;
      failures := [];
    }

    /** `perform(keep:, step:, sweep_dir:, sweep_retention:)` */
    method Perform(tenants: seq<Tenant>, s: Settings, now: nat) returns (result: JobResult)
      requires AllFinish(tenants)
      modifies this, fs
      ensures var st := Run(old(fs.entries), tenants, s, now);
        fs.entries == st.entries && failures == st.failures && result == Verdict(st)
    {
      var m0 := fs.entries;
      failures := [];
      var i := 0;
      while i < |tenants|
        invariant 0 <= i <= |tenants|
        invariant Run(m0, tenants[..i], s, now) == RunState(fs.entries, failures, None)
      {
        var t := tenants[i];
        assert tenants[..i + 1][..i] == tenants[..i];
        var error := PerformFileRollover(t.dbPath, s.keep);
        if error == None {
          var pages, progress;
          error, pages, progress := PerformBackup(t, now);
        }
        if error == None {
          error := PerformSweep(t, s, now);
        }
        if error == None {
          EnforceRetention(t, s, now);
        }
        if error != None {
          assert tenants[..i + 1] + tenants[i + 1..] == tenants;
          RunStopsAtRaise(m0, tenants[..i + 1], tenants[i + 1..], s, now);
          return Raised(error.value);
        }
        i := i + 1;
      }
      assert tenants[..i] == tenants;
      if failures != [] {
        result := TenantsFailed(FailureMessage(failures));
      } else {
        result := Completed;
      }
    }

    /** `perform_file_rollover(tenant, keep:)` */
    method PerformFileRollover(dbPath: Path, keep: int) returns (error: Option<FsError>)
      modifies fs
      ensures Effect(fs.entries, error) == Rollover(old(fs.entries), dbPath, keep)
    {
      var m0 := fs.entries;
      error := None;
      var j := keep;
      while j >= 2
        invariant (j == keep && fs.entries == m0)
          || (1 <= j < keep && RolledOver(m0, dbPath, keep, j + 1) == Effect(fs.entries, None))
        invariant error == None
      {
        var fresher, staler := BackupPath(dbPath, j - 1), BackupPath(dbPath, j);
        if j == keep && staler in fs.entries {
          error := fs.Rm(staler);
          if error != None {
            RaisedStaysRaised(m0, dbPath, keep, j, 2);
            return;
          }
        }
        if fresher in fs.entries {
          error := fs.Mv(fresher, staler);
          if error != None {
            RaisedStaysRaised(m0, dbPath, keep, j, 2);
            return;
          }
        }
        j := j - 1;
      }
    }

    /**
     * `perform_backup(tenant, step:)`: `pages` is the handle's page count after
     * DONE and `progress` the pages-written figures the OK steps log.
     */
    method PerformBackup(t: Tenant, now: nat) returns (error: Option<FsError>, pages: nat, progress: seq<int>)
      requires Finishes(t.backup.steps)
      modifies this, fs
      ensures Effect(fs.entries, error) == Backup(old(fs.entries), t, now)
      ensures error == None ==>
        failures == old(failures) + BackupFailures(t) && pages == PagesWritten(t) && progress == Progress(BeforeDone(t))
      ensures error != None ==> failures == old(failures)
    {
      var g1 := Generation1(t.dbPath);
      progress := [];
      if IsDirectory(fs.entries, g1) {
        return Some(CantOpen(g1)), 0, progress;
      }
      var steps := t.backup.steps;
      var done := FirstDone(steps);
      var i := 0;
      while true
        invariant 0 <= i <= done
        invariant fs.entries == old(fs.entries)
        invariant failures == old(failures) + Failures(t.name, steps[..i])
        invariant progress == Progress(steps[..i])
        decreases done - i
      {
        var r := steps[i];
        StepOnce(t.name, steps, i);
        if r.status == DONE {
          break;
        } else if r.status == OK {
          progress := progress + [r.pagecount - r.remaining];
        } else if IsRetry(r.status) {
        } else {
          failures := failures + [t.name];
        }
        i := i + 1;
      }
      pages := steps[i].pagecount;
      fs.Store(g1, t.backup.image, now);
      error := None;
    }

    /** `perform_sweep(tenant, sweep_dir:)` */
    method PerformSweep(t: Tenant, s: Settings, now: nat) returns (error: Option<FsError>)
      modifies fs
      ensures Effect(fs.entries, error) == Sweep(old(fs.entries), t, s, now)
    {
      if !IsWritableDirectory(fs.entries, s.sweepDir) {
        return None;
      }
      error := fs.MkdirP(SweepDirs(s, t), now);
      if error != None {
        return;
      }
      var backupFile := Generation1(t.dbPath);
      if Exists(fs.entries, backupFile) {
        var swept := ArchivePath(s, t, fs.entries[backupFile].ctime);
        error := fs.Cp(backupFile, swept, now);
      }
    }

    /** `enforce_retention(tenant, sweep_dir:, sweep_retention:)`, visiting the archive directory's entries in any order. */
    method EnforceRetention(t: Tenant, s: Settings, now: nat)
      modifies fs
      ensures fs.entries == Retain(old(fs.entries), t, s, now)
    {
      var dir := SweepPath(s.sweepDir, s.env, t.name);
      if !IsWritableDirectory(fs.entries, s.sweepDir) || !IsDirectory(fs.entries, dir) {
        return;
      }
      PruneExpired(dir, Cutoff(s, now));
    }

    /** The `Find.find(dir)` walk of `enforce_retention`: each expired regular file it meets is removed. */
    method PruneExpired(dir: Path, cutoff: int)
      modifies fs
      ensures fs.entries == PruneAmong(old(fs.entries), dir, cutoff, Visitable(old(fs.entries), dir))
    {
      var m0 := fs.entries;
      var todo := Visitable(m0, dir);
      while todo != {}
        invariant todo <= Visitable(m0, dir)
        invariant fs.entries == PruneAmong(m0, dir, cutoff, Visitable(m0, dir) - todo)
        decreases |todo|
      {
        var path :| path in todo;
        var visited := Visitable(m0, dir) - todo;
        PruneOneMore(m0, dir, cutoff, visited, path);
        if IsFile(fs.entries, path) && fs.entries[path].ctime < cutoff {
          var _ := fs.Rm(path);
        }
        todo := todo - {path};
        assert Visitable(m0, dir) - todo == visited + {path};
      }
    }
  }
}
