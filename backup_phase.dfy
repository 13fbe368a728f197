/**
 * `perform_backup`: open generation 1 as the destination, then call `step`
 * until it reports DONE, recording the tenant once per failing step.
 */
module BackupPhase {
  import opened Wrappers
  import opened Paths
  import opened Files
  import opened Copier
  import opened Tenants

  /**
   * The filesystem effect: `SQLite3::Database.new` raises on a directory;
   * otherwise `finish` leaves the copied image in generation 1, written at `now`.
   */
  function Backup(m: Tree, t: Tenant, now: nat): (e: Effect)
    ensures e.error != None <==> IsDirectory(m, Generation1(t.dbPath))
    ensures e.error != None ==> e.entries == m && e.error == Some(CantOpen(Generation1(t.dbPath)))
    ensures e.error == None ==>
      && Generation1(t.dbPath) in e.entries
      && e.entries[Generation1(t.dbPath)] == File(t.backup.image, now)
      && forall p :: p != Generation1(t.dbPath) ==> SameAt(e.entries, p, m, p)
  {
    var g1 := Generation1(t.dbPath);
    if IsDirectory(m, g1) then Effect(m, Some(CantOpen(g1)))
    else Effect(m[g1 := File(t.backup.image, now)], None)
  }

  /** The steps the loop reacts to before the DONE that ends it. */
  function BeforeDone(t: Tenant): seq<StepResult>
    requires Finishes(t.backup.steps)
  {
    t.backup.steps[..FirstDone(t.backup.steps)]
  }

  /** `t` had a failing step before its DONE. */
  predicate BackupFailed(t: Tenant)
    requires Finishes(t.backup.steps)
  {
    exists i :: 0 <= i < FirstDone(t.backup.steps) && IsFailure(t.backup.steps[i].status)
  }

  /** What the step loop appends to `@failures` for this tenant: its name once per failing step. */
  function BackupFailures(t: Tenant): (f: seq<string>)
    requires Finishes(t.backup.steps)
    ensures forall x :: x in f ==> x == t.name
    ensures f != [] <==> BackupFailed(t)
  {
    var steps := BeforeDone(t);
    FailuresNameTenant(t.name, steps);
    FailuresIffFailingStep(t.name, steps);
    assert forall i :: 0 <= i < |steps| ==> steps[i] == t.backup.steps[i];
    Failures(t.name, steps)
  }

  /** `pages`: the handle's page count after the DONE step. */
  function PagesWritten(t: Tenant): nat
    requires Finishes(t.backup.steps)
  {
    t.backup.steps[FirstDone(t.backup.steps)].pagecount
  }
}
