/**
 * `perform`: the four phases for each tenant in turn, then a raise naming every
 * recorded failure. A raise from a filesystem call ends the whole job at once.
 */
module JobRun {
  import opened Wrappers
  import opened Strings
  import opened Paths
  import opened Files
  import opened Copier
  import opened Tenants
  import opened RolloverPhase
  import opened BackupPhase
  import opened SweepPhase
  import opened RetentionPhase

  /** The filesystem, `@failures`, and the error that ended the job early, if any. */
  datatype RunState = RunState(entries: Tree, failures: seq<string>, error: Option<FsError>)

  /** The block passed to `with_each_tenant`, for one tenant. */
  function TenantRun(st: RunState, t: Tenant, s: Settings, now: nat): RunState
    requires Finishes(t.backup.steps)
  {
    var r := Rollover(st.entries, t.dbPath, s.keep);
    if r.error != None then RunState(r.entries, st.failures, r.error)
    else
      var b := Backup(r.entries, t, now);
      if b.error != None then RunState(b.entries, st.failures, b.error)
      else
        var f := st.failures + BackupFailures(t);
        var w := Sweep(b.entries, t, s, now);
        if w.error != None then RunState(w.entries, f, w.error)
        else RunState(Retain(w.entries, t, s, now), f, None)
  }

  predicate AllFinish(tenants: seq<Tenant>) {
    forall i :: 0 <= i < |tenants| ==> Finishes(tenants[i].backup.steps)
  }

  /** The loop over `tenants`, in order, stopping at the first raise. */
  function Run(m: Tree, tenants: seq<Tenant>, s: Settings, now: nat): RunState
    requires AllFinish(tenants)
  {
    if tenants == [] then RunState(m, [], None)
    else
      var st := Run(m, tenants[..|tenants| - 1], s, now);
      if st.error != None then st else TenantRun(st, tenants[|tenants| - 1], s, now)
  }

  /** How `perform` ends: normally, with the RuntimeError naming failed tenants, or with a filesystem error. */
  datatype JobResult = Completed | TenantsFailed(message: string) | Raised(error: FsError)

  function FailureMessage(failures: seq<string>): string {
    "SQLiteBackupsJob: failed to backup tenants: " + JoinWith(failures, ", ")
  }

  function Verdict(st: RunState): JobResult {
    if st.error != None then Raised(st.error.value)
    else if st.failures != [] then TenantsFailed(FailureMessage(st.failures))
    else Completed
  }

  /** Every tenant's failure entries, in tenant order. */
  function AllBackupFailures(tenants: seq<Tenant>): seq<string>
    requires AllFinish(tenants)
  {
    if tenants == [] then []
    else AllBackupFailures(tenants[..|tenants| - 1]) + BackupFailures(tenants[|tenants| - 1])
  }

  /** A run that raises nowhere records exactly every tenant's failures, in order. */
  lemma {:induction false} RunCollectsAllFailures(m: Tree, tenants: seq<Tenant>, s: Settings, now: nat)
    requires AllFinish(tenants)
    requires Run(m, tenants, s, now).error == None
    ensures Run(m, tenants, s, now).failures == AllBackupFailures(tenants)
  {
    if tenants != [] {
      RunCollectsAllFailures(m, tenants[..|tenants| - 1], s, now);
    }
  }

  /** After a raise, no later tenant is touched: the state is the one at the raise. */
  lemma {:induction false} RunStopsAtRaise(m: Tree, a: seq<Tenant>, b: seq<Tenant>, s: Settings, now: nat)
    requires AllFinish(a) && AllFinish(a + b)
    requires Run(m, a, s, now).error != None
    ensures Run(m, a + b, s, now) == Run(m, a, s, now)
    decreases |b|
  {
    if b == [] {
      assert a + b == a;
    } else {
      assert (a + b)[..|a + b| - 1] == a + b[..|b| - 1];
      RunStopsAtRaise(m, a, b[..|b| - 1], s, now);
    }
  }

  /**
   * With `perform`'s default arguments five generations are kept: the fifth is
   * dropped, the first four move one slot older and slot 1 is free for the backup.
   */
  lemma DefaultsKeepFiveGenerations(m: Tree, dbPath: Path, env: string)
    requires !IsDirectory(m, BackupPath(dbPath, 5))
    ensures var e := Rollover(m, dbPath, DefaultSettings(env).keep);
      && e.error == None
      && BackupPath(dbPath, 1) !in e.entries
      && forall j: nat :: 2 <= j <= 5 ==> SameAt(e.entries, BackupPath(dbPath, j), m, BackupPath(dbPath, j - 1))
  {
    RolloverShifts(m, dbPath, 5);
  }

  /** One tenant's entries name it exactly when it had a failing step. */
  lemma InBackupFailures(t: Tenant, name: string)
    requires Finishes(t.backup.steps)
    ensures name in BackupFailures(t) <==> t.name == name && BackupFailed(t)
  {
    var f := BackupFailures(t);
    if t.name == name && BackupFailed(t) {
      assert f[0] in f;
    }
  }

  /** A tenant name is among the failures exactly when that tenant had a failing step. */
  lemma {:induction false} AllBackupFailuresIff(tenants: seq<Tenant>, name: string)
    requires AllFinish(tenants)
    ensures name in AllBackupFailures(tenants) <==>
      exists i :: 0 <= i < |tenants| && tenants[i].name == name && BackupFailed(tenants[i])
  {
    if tenants != [] {
      var init, last := tenants[..|tenants| - 1], tenants[|tenants| - 1];
      assert AllFinish(init) by {
        assert forall i :: 0 <= i < |init| ==> init[i] == tenants[i];
      }
      var before, now := AllBackupFailures(init), BackupFailures(last);
      assert AllBackupFailures(tenants) == before + now;
      assert name in before + now <==> name in before || name in now;
      AllBackupFailuresIff(init, name);
      InBackupFailures(last, name);
      FailedTenantSplit(tenants, name);
    }
  }

  /** Some tenant failed under `name` exactly when an earlier one did or the last one did. */
  lemma FailedTenantSplit(tenants: seq<Tenant>, name: string)
    requires tenants != [] && AllFinish(tenants)
    ensures var init, last := tenants[..|tenants| - 1], tenants[|tenants| - 1];
      (exists i :: 0 <= i < |tenants| && tenants[i].name == name && BackupFailed(tenants[i])) <==>
      (exists i :: 0 <= i < |init| && init[i].name == name && BackupFailed(init[i]))
        || (last.name == name && BackupFailed(last))
  {
    var init, last := tenants[..|tenants| - 1], tenants[|tenants| - 1];
    assert forall i :: 0 <= i < |init| ==> init[i] == tenants[i];
    if exists i :: 0 <= i < |tenants| && tenants[i].name == name && BackupFailed(tenants[i]) {
      var i :| 0 <= i < |tenants| && tenants[i].name == name && BackupFailed(tenants[i]);
      if i < |init| {
        assert init[i].name == name && BackupFailed(init[i]);
      }
    }
    if last.name == name && BackupFailed(last) {
      assert tenants[|tenants| - 1] == last;
    }
  }

  /** The failure list is empty exactly when no tenant had a failing step. */
  lemma {:induction false} NoFailuresIff(tenants: seq<Tenant>)
    requires AllFinish(tenants)
    ensures AllBackupFailures(tenants) == [] <==> forall i :: 0 <= i < |tenants| ==> !BackupFailed(tenants[i])
  {
    if tenants != [] {
      var init, last := tenants[..|tenants| - 1], tenants[|tenants| - 1];
      NoFailuresIff(init);
      assert forall i :: 0 <= i < |init| ==> init[i] == tenants[i];
    }
  }

  /**
   * The outcome of a run that no filesystem call interrupted: it completes
   * exactly when no tenant had a failing step, and otherwise raises with the
   * message listing the failure entries, in which every failed tenant appears.
   */
  lemma RunVerdict(m: Tree, tenants: seq<Tenant>, s: Settings, now: nat)
    requires AllFinish(tenants)
    requires Run(m, tenants, s, now).error == None
    ensures Verdict(Run(m, tenants, s, now)) == Completed <==> forall i :: 0 <= i < |tenants| ==> !BackupFailed(tenants[i])
    ensures Verdict(Run(m, tenants, s, now)) != Completed ==>
      Verdict(Run(m, tenants, s, now)) == TenantsFailed(FailureMessage(AllBackupFailures(tenants)))
  {
    RunCollectsAllFailures(m, tenants, s, now);
    NoFailuresIff(tenants);
  }

  /** Every failure entry appears verbatim in the raised message. */
  lemma MessageContains(fs: seq<string>, n: nat)
    requires n < |fs|
    ensures exists k: nat :: OccursAt(fs[n], FailureMessage(fs), k)
  {
    JoinWithContains(fs, ", ", n);
    var joined := JoinWith(fs, ", ");
    var k: nat :| OccursAt(fs[n], joined, k);
    var pre := "SQLiteBackupsJob: failed to backup tenants: ";
    assert FailureMessage(fs) == pre + joined;
    assert (pre + joined)[|pre| + k..|pre| + k + |fs[n]|] == joined[k..k + |fs[n]|];
    assert OccursAt(fs[n], FailureMessage(fs), |pre| + k);
  }

  /** The message names every tenant that had a failing step. */
  lemma MessageNamesFailedTenant(tenants: seq<Tenant>, i: nat)
    requires AllFinish(tenants)
    requires i < |tenants| && BackupFailed(tenants[i])
    ensures exists k: nat :: OccursAt(tenants[i].name, FailureMessage(AllBackupFailures(tenants)), k)
  {
    AllBackupFailuresIff(tenants, tenants[i].name);
    var fs := AllBackupFailures(tenants);
    var n :| 0 <= n < |fs| && fs[n] == tenants[i].name;
    MessageContains(fs, n);
  }

  /**
   * A failing step does not stop the tenant's run: with a usable filesystem the
   * tenant is recorded as failed and generation 1 is still archived, under
   * the name stamped with `now`, and survives retention.
   */
  lemma FailedBackupStillSwept(st: RunState, t: Tenant, s: Settings, now: nat)
    requires Finishes(t.backup.steps) && BackupFailed(t)
    requires Rollover(st.entries, t.dbPath, s.keep).error == None
    requires var r := Rollover(st.entries, t.dbPath, s.keep).entries;
      var g1 := Generation1(t.dbPath);
      var target := ArchivePath(s, t, now);
      && !IsDirectory(r, g1) && g1 !in SweepDirs(s, t)
      && IsWritableDirectory(r, s.sweepDir)
      && !IsFile(r, Join(s.sweepDir, s.env)) && !IsFile(r, SweepPath(s.sweepDir, s.env, t.name))
      && !IsDirectory(r, target) && target != g1
    requires 0 <= s.sweepRetention
    ensures var out := TenantRun(st, t, s, now);
      && out.error == None
      && out.failures == st.failures + BackupFailures(t) && BackupFailures(t) != []
      && ArchivePath(s, t, now) in out.entries
      && out.entries[ArchivePath(s, t, now)] == File(t.backup.image, now)
  {
    var r := Rollover(st.entries, t.dbPath, s.keep).entries;
    var g1 := Generation1(t.dbPath);
    var b := Backup(r, t, now).entries;
    assert b[g1] == File(t.backup.image, now);
    assert s.sweepDir != g1;
    SweepCopiesGeneration1(b, t, s, now);
    var w := Sweep(b, t, s, now).entries;
    FreshEntrySurvives(w, t, s, now, ArchivePath(s, t, now));
  }
}
