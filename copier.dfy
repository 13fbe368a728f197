/**
 * The SQLite online backup handle as the job observes it: the result code of
 * each `step` call together with the handle's `pagecount` and `remaining`
 * counters after that call. The copying itself is done by SQLite and is not
 * part of this model; only the job's reaction to the reported codes is.
 */
module Copier {
  import opened Files

  /** SQLite result codes the job distinguishes (sqlite3.h). */
  const OK: int := 0
  const BUSY: int := 5
  const LOCKED: int := 6
  const DONE: int := 101

  datatype StepResult = StepResult(status: int, pagecount: nat, remaining: nat)

  /** One tenant's backup: what successive `step` calls report, and the bytes `finish` leaves in generation 1. */
  datatype Handle = Handle(steps: seq<StepResult>, image: Bytes)

  predicate IsRetry(status: int) {
    status == BUSY || status == LOCKED
  }

  /** Everything the `case` sends to its `else` branch. */
  predicate IsFailure(status: int) {
    status != DONE && status != OK && !IsRetry(status)
  }

  /** The step loop can only leave on DONE, so it ends exactly when some step reports DONE. */
  predicate Finishes(steps: seq<StepResult>) {
    exists i :: 0 <= i < |steps| && steps[i].status == DONE
  }

  /** Index of the step whose DONE ends the loop. */
  function FirstDone(steps: seq<StepResult>): (k: nat)
    requires Finishes(steps)
    ensures k < |steps| && steps[k].status == DONE
    ensures forall i :: 0 <= i < k ==> steps[i].status != DONE
  {
    if steps[0].status == DONE then 0
    else
      assert Finishes(steps[1..]) by {
        var i :| 0 <= i < |steps| && steps[i].status == DONE;
        assert steps[1..][i - 1] == steps[i];
      }
      1 + FirstDone(steps[1..])
  }

  /** The tenant entries the loop appends to `@failures` over `steps`, one per failing step. */
  function Failures(tenant: string, steps: seq<StepResult>): seq<string> {
    if steps == [] then []
    else
      Failures(tenant, steps[..|steps| - 1])
        + (if IsFailure(steps[|steps| - 1].status) then [tenant] else [])
  }

  /** The "Wrote <progress> of <total> pages" values logged on OK steps, in order. */
  function Progress(steps: seq<StepResult>): seq<int> {
    if steps == [] then []
    else
      var s := steps[|steps| - 1];
      Progress(steps[..|steps| - 1]) + (if s.status == OK then [s.pagecount - s.remaining] else [])
  }

  /** What one more step adds to the failures and the progress log. */
  lemma StepOnce(tenant: string, steps: seq<StepResult>, i: nat)
    requires i < |steps|
    ensures Failures(tenant, steps[..i + 1]) == Failures(tenant, steps[..i]) + (if IsFailure(steps[i].status) then [tenant] else [])
    ensures Progress(steps[..i + 1]) == Progress(steps[..i]) + (if steps[i].status == OK then [steps[i].pagecount - steps[i].remaining] else [])
  {
    assert steps[..i + 1][..i] == steps[..i];
  }

  /** Every entry the loop appends names the tenant being backed up. */
  lemma {:induction false} FailuresNameTenant(tenant: string, steps: seq<StepResult>)
    ensures forall x :: x in Failures(tenant, steps) ==> x == tenant
  {
    if steps != [] {
      FailuresNameTenant(tenant, steps[..|steps| - 1]);
    }
  }

  /** The tenant is recorded iff some step reported a failure code. */
  lemma {:induction false} FailuresIffFailingStep(tenant: string, steps: seq<StepResult>)
    ensures Failures(tenant, steps) != [] <==> exists i :: 0 <= i < |steps| && IsFailure(steps[i].status)
  {
    if steps != [] {
      var init := steps[..|steps| - 1];
      FailuresIffFailingStep(tenant, init);
      if exists i :: 0 <= i < |init| && IsFailure(init[i].status) {
        var i :| 0 <= i < |init| && IsFailure(init[i].status);
        assert steps[i] == init[i];
      }
      if exists i :: 0 <= i < |steps| && IsFailure(steps[i].status) {
        var i :| 0 <= i < |steps| && IsFailure(steps[i].status);
        if i < |init| { assert init[i] == steps[i]; }
      }
    }
  }

  lemma {:induction false} FailuresAppend(tenant: string, a: seq<StepResult>, b: seq<StepResult>)
    ensures Failures(tenant, a + b) == Failures(tenant, a) + Failures(tenant, b)
    ensures Progress(a + b) == Progress(a) + Progress(b)
    decreases |b|
  {
    if b == [] {
      assert a + b == a;
    } else {
      var b' := b[..|b| - 1];
      assert (a + b)[..|a + b| - 1] == a + b';
      assert (a + b)[|a + b| - 1] == b[|b| - 1];
      FailuresAppend(tenant, a, b');
    }
  }

  /** Two failing steps, e.g. before a DONE, record the tenant twice: the loop does not stop on failure. */
  lemma {:induction false} RepeatedFailuresRecordedTwice(tenant: string, f1: StepResult, f2: StepResult)
    requires IsFailure(f1.status) && IsFailure(f2.status)
    ensures Failures(tenant, [f1, f2]) == [tenant, tenant]
  {
    assert [f1, f2][..1] == [f1];
    assert [f1][..0] == [];
    assert Failures(tenant, []) == [];
    assert Failures(tenant, [f1]) == [tenant];
  }

  /** Busy and locked steps leave no trace: inserting any run of them changes neither failures nor progress. */
  lemma {:induction false} RetriesAreInert(tenant: string, a: seq<StepResult>, r: seq<StepResult>, b: seq<StepResult>)
    requires forall i :: 0 <= i < |r| ==> IsRetry(r[i].status)
    ensures Failures(tenant, a + r + b) == Failures(tenant, a + b)
    ensures Progress(a + r + b) == Progress(a + b)
  {
    RetriesContributeNothing(tenant, r);
    FailuresAppend(tenant, a, r);
    FailuresAppend(tenant, a + r, b);
    FailuresAppend(tenant, a, b);
  }

  lemma {:induction false} RetriesContributeNothing(tenant: string, r: seq<StepResult>)
    requires forall i :: 0 <= i < |r| ==> IsRetry(r[i].status)
    ensures Failures(tenant, r) == [] && Progress(r) == []
  {
    if r != [] {
      RetriesContributeNothing(tenant, r[..|r| - 1]);
    }
  }
}
