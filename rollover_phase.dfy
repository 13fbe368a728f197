/**
 * `perform_file_rollover`: the `keep.downto(2)` loop that shifts every local
 * generation one slot older, dropping the one in slot `keep`.
 */
module RolloverPhase {
  import opened Wrappers
  import opened Paths
  import opened Files

  /** Paths of generations 1..keep. */
  function Slots(dbPath: Path, keep: int): set<Path> {
    set i: nat | 1 <= i <= keep :: BackupPath(dbPath, i)
  }

  /** Second half of iteration `j`: move generation j - 1, if present, into slot j. */
  function ShiftOne(m: Tree, dbPath: Path, j: nat): Effect
    requires 2 <= j
  {
    var fresher, staler := BackupPath(dbPath, j - 1), BackupPath(dbPath, j);
    if Exists(m, fresher) then Move(m, fresher, staler) else Effect(m, None)
  }

  /** Iteration `j` of `keep.downto(2)`: drop the stalest generation (only when j == keep), then shift. */
  function RolloverStep(m: Tree, dbPath: Path, keep: int, j: nat): Effect
    requires 2 <= j
  {
    var staler := BackupPath(dbPath, j);
    if j == keep && Exists(m, staler) then
      var e := Remove(m, staler);
      if e.error != None then e else ShiftOne(e.entries, dbPath, j)
    else ShiftOne(m, dbPath, j)
  }

  /** Iterations keep, keep - 1, ..., j of the loop, stopping at the first raise. */
  function RolledOver(m: Tree, dbPath: Path, keep: int, j: nat): Effect
    requires 2 <= j
    decreases keep - j
  {
    if keep < j then Effect(m, None)
    else
      var e := RolledOver(m, dbPath, keep, j + 1);
      if e.error != None then e else RolloverStep(e.entries, dbPath, keep, j)
  }

  /** `perform_file_rollover(tenant, keep:)` */
  function Rollover(m: Tree, dbPath: Path, keep: int): Effect {
    RolledOver(m, dbPath, keep, 2)
  }

  /**
   * The state `e` after iterations keep .. j (with j = keep + 1 meaning "slot keep
   * dropped, nothing moved yet"): slots j..keep hold the old slots j-1..keep-1,
   * slot j - 1 is empty, lower slots and every other path are untouched.
   */
  ghost predicate ShiftedDownTo(m: Tree, e: Tree, dbPath: Path, keep: int, j: nat)
    requires 2 <= j
  {
    && (forall i: nat :: j <= i <= keep ==> SameAt(e, BackupPath(dbPath, i), m, BackupPath(dbPath, i - 1)))
    && BackupPath(dbPath, j - 1) !in e
    && (forall i: nat :: 1 <= i < j - 1 ==> SameAt(e, BackupPath(dbPath, i), m, BackupPath(dbPath, i)))
    && (forall p :: p !in Slots(dbPath, keep) ==> SameAt(e, p, m, p))
  }

  lemma SlotFacts(dbPath: Path, keep: int, a: nat, b: nat)
    ensures BackupPath(dbPath, a) == BackupPath(dbPath, b) <==> a == b
    ensures 1 <= a <= keep ==> BackupPath(dbPath, a) in Slots(dbPath, keep)
  {
    BackupPathInjective(dbPath, a, b);
  }

  /** What a successful rename of `src` to an absent `dst` does, path by path. */
  lemma MoveFootprint(m: Tree, src: Path, dst: Path)
    requires src in m && dst !in m && src != dst
    ensures Move(m, src, dst).error == None
    ensures var r := Move(m, src, dst).entries;
      && SameAt(r, dst, m, src) && src !in r
      && forall q :: q != src && q != dst ==> SameAt(r, q, m, q)
  {
  }

  /** Shifting into an empty slot `j` moves slot `j - 1` there, leaving it empty, and touches nothing else. */
  lemma ShiftOneFootprint(before: Tree, dbPath: Path, j: nat)
    requires 2 <= j && BackupPath(dbPath, j) !in before
    ensures var fresher, staler, e := BackupPath(dbPath, j - 1), BackupPath(dbPath, j), ShiftOne(before, dbPath, j);
      && e.error == None && SameAt(e.entries, staler, before, fresher) && fresher !in e.entries
      && forall q :: q != fresher && q != staler ==> SameAt(e.entries, q, before, q)
  {
    var fresher, staler := BackupPath(dbPath, j - 1), BackupPath(dbPath, j);
    BackupPathInjective(dbPath, j - 1, j);
    if fresher in before {
      MoveFootprint(before, fresher, staler);
    }
  }

  /** One shifting iteration takes the state "after j + 1" to the state "after j". */
  lemma ShiftOneShifts(m: Tree, before: Tree, dbPath: Path, keep: int, j: nat)
    requires 2 <= j <= keep
    requires ShiftedDownTo(m, before, dbPath, keep, j + 1)
    ensures ShiftOne(before, dbPath, j).error == None
    ensures ShiftedDownTo(m, ShiftOne(before, dbPath, j).entries, dbPath, keep, j)
  {
    var fresher, staler := BackupPath(dbPath, j - 1), BackupPath(dbPath, j);
    SlotFacts(dbPath, keep, j - 1, j);
    SlotFacts(dbPath, keep, j, j - 1);
    var after := ShiftOne(before, dbPath, j).entries;
    assert SameAt(before, fresher, m, fresher) by {
      if j - 1 == 1 {
      } else {
        assert 1 <= j - 1 < j;
      }
    }
    ShiftOneFootprint(before, dbPath, j);
    forall i: nat | j <= i <= keep
      ensures SameAt(after, BackupPath(dbPath, i), m, BackupPath(dbPath, i - 1))
    {
      if i != j {
        SlotFacts(dbPath, keep, i, j);
        SlotFacts(dbPath, keep, i, j - 1);
      }
    }
    forall i: nat | 1 <= i < j - 1
      ensures SameAt(after, BackupPath(dbPath, i), m, BackupPath(dbPath, i))
    {
      SlotFacts(dbPath, keep, i, j);
      SlotFacts(dbPath, keep, i, j - 1);
    }
  }

  /** Dropping slot `keep` first gives the starting state of the shifting iterations. */
  lemma DropStalest(m: Tree, dbPath: Path, keep: int)
    requires 2 <= keep
    requires !IsDirectory(m, BackupPath(dbPath, keep))
    ensures var staler := BackupPath(dbPath, keep);
      && RolloverStep(m, dbPath, keep, keep) == ShiftOne(m - {staler}, dbPath, keep)
      && ShiftedDownTo(m, m - {staler}, dbPath, keep, keep + 1)
  {
    var staler := BackupPath(dbPath, keep);
    if staler !in m {
      assert m - {staler} == m;
    }
    forall i: nat | 1 <= i < keep
      ensures SameAt(m - {staler}, BackupPath(dbPath, i), m, BackupPath(dbPath, i))
    {
      SlotFacts(dbPath, keep, i, keep);
    }
    SlotFacts(dbPath, keep, keep, keep);
  }

  lemma {:induction false} RolledOverShifts(m: Tree, dbPath: Path, keep: int, j: nat)
    requires 2 <= j <= keep
    requires !IsDirectory(m, BackupPath(dbPath, keep))
    ensures RolledOver(m, dbPath, keep, j).error == None
    ensures ShiftedDownTo(m, RolledOver(m, dbPath, keep, j).entries, dbPath, keep, j)
    decreases keep - j
  {
    if j == keep {
      DropStalest(m, dbPath, keep);
      ShiftOneShifts(m, m - {BackupPath(dbPath, keep)}, dbPath, keep, j);
    } else {
      RolledOverShifts(m, dbPath, keep, j + 1);
      ShiftOneShifts(m, RolledOver(m, dbPath, keep, j + 1).entries, dbPath, keep, j);
    }
  }

  /**
   * With at least two generations kept and no directory in the oldest slot,
   * rollover succeeds, slot j ends up holding exactly what slot j - 1 held
   * (2 <= j <= keep), slot 1 is free, and no path outside slots 1..keep changes:
   * the only entry that disappears is the old generation `keep`.
   */
  lemma RolloverShifts(m: Tree, dbPath: Path, keep: int)
    requires 2 <= keep
    requires !IsDirectory(m, BackupPath(dbPath, keep))
    ensures var e := Rollover(m, dbPath, keep);
      && e.error == None
      && BackupPath(dbPath, 1) !in e.entries
      && (forall j: nat :: 2 <= j <= keep ==> SameAt(e.entries, BackupPath(dbPath, j), m, BackupPath(dbPath, j - 1)))
      && (forall p :: p !in Slots(dbPath, keep) ==> SameAt(e.entries, p, m, p))
  {
    RolledOverShifts(m, dbPath, keep, 2);
  }

  /** The live database is never a generation slot, so rollover leaves it alone. */
  lemma DatabaseNotASlot(dbPath: Path, keep: int)
    ensures dbPath !in Slots(dbPath, keep)
  {
    forall i: nat | 1 <= i <= keep ensures BackupPath(dbPath, i) != dbPath {
      BackupPathExtendsDb(dbPath, i);
    }
  }

  /** Once an iteration raised, the remaining iterations do not run. */
  lemma {:induction false} RaisedStaysRaised(m: Tree, dbPath: Path, keep: int, j: nat, k: nat)
    requires 2 <= k <= j
    requires RolledOver(m, dbPath, keep, j).error != None
    ensures RolledOver(m, dbPath, keep, k) == RolledOver(m, dbPath, keep, j)
    decreases j - k
  {
    if k < j {
      RaisedStaysRaised(m, dbPath, keep, j, k + 1);
    }
  }

  /** A directory in the oldest slot makes `FileUtils.rm` raise before anything moves. */
  lemma RolloverRaisesOnDirectory(m: Tree, dbPath: Path, keep: int)
    requires 2 <= keep && IsDirectory(m, BackupPath(dbPath, keep))
    ensures Rollover(m, dbPath, keep) == Effect(m, Some(IsADirectory(BackupPath(dbPath, keep))))
  {
    assert RolledOver(m, dbPath, keep, keep) == Effect(m, Some(IsADirectory(BackupPath(dbPath, keep))));
    RaisedStaysRaised(m, dbPath, keep, keep, 2);
  }

  /** Rollover raises exactly when keep >= 2 and the oldest slot is a directory; with keep < 2 it does nothing. */
  lemma RolloverRaisesIff(m: Tree, dbPath: Path, keep: int)
    ensures Rollover(m, dbPath, keep).error != None <==> 2 <= keep && IsDirectory(m, BackupPath(dbPath, keep))
    ensures keep < 2 ==> Rollover(m, dbPath, keep) == Effect(m, None)
  {
    if 2 <= keep {
      if IsDirectory(m, BackupPath(dbPath, keep)) {
        RolloverRaisesOnDirectory(m, dbPath, keep);
      } else {
        RolloverShifts(m, dbPath, keep);
      }
    }
  }
}
