/**
 * `enforce_retention`: remove every regular file below the tenant's archive
 * directory created before `now - sweep_retention`.
 */
module RetentionPhase {
  import opened Wrappers
  import opened Paths
  import opened Files
  import opened Tenants

  /** A path the retention pass removes: a regular file strictly below `dir`, created before `cutoff`. */
  predicate Expired(m: Tree, dir: Path, cutoff: int, p: Path) {
    Below(p, dir) && IsFile(m, p) && m[p].ctime < cutoff
  }

  /** Paths `Find.find(dir)` yields besides `dir` itself. */
  function Visitable(m: Tree, dir: Path): set<Path> {
    set p | p in m && Below(p, dir)
  }

  /** The tree after the expired files among `visited` have been removed. */
  function PruneAmong(m: Tree, dir: Path, cutoff: int, visited: set<Path>): Tree {
    map p | p in m && !(p in visited && Expired(m, dir, cutoff, p)) :: m[p]
  }

  /**
   * Visiting one more path of the walk removes it exactly when it is expired,
   * and `FileUtils.rm` of it then succeeds; everything else stays as it was.
   */
  lemma PruneOneMore(m: Tree, dir: Path, cutoff: int, visited: set<Path>, p: Path)
    requires p in Visitable(m, dir) && p !in visited
    ensures var before, after := PruneAmong(m, dir, cutoff, visited), PruneAmong(m, dir, cutoff, visited + {p});
      && p in before && before[p] == m[p]
      && (if IsFile(before, p) && before[p].ctime < cutoff then Remove(before, p) == Effect(after, None) else after == before)
  {
    var before, after := PruneAmong(m, dir, cutoff, visited), PruneAmong(m, dir, cutoff, visited + {p});
    if IsFile(before, p) && before[p].ctime < cutoff {
      assert after == before - {p};
      RemoveFile(before, p);
    } else {
      assert after == before;
    }
  }

  /** `Time.now - sweep_retention` */
  function Cutoff(s: Settings, now: nat): int {
    now - s.sweepRetention
  }

  /** `enforce_retention(tenant, sweep_dir:, sweep_retention:)`; it cannot raise, as it only removes regular files. */
  function Retain(m: Tree, t: Tenant, s: Settings, now: nat): Tree {
    var dir := SweepPath(s.sweepDir, s.env, t.name);
    if !IsWritableDirectory(m, s.sweepDir) || !IsDirectory(m, dir) then m
    else PruneAmong(m, dir, Cutoff(s, now), Visitable(m, dir))
  }

  /**
   * When it runs, retention removes exactly the expired files below the
   * archive directory: every other entry, including directories, files
   * outside it and files at or after the cutoff, is kept unchanged.
   */
  lemma RetentionRemovesExactlyExpired(m: Tree, t: Tenant, s: Settings, now: nat, p: Path)
    requires IsWritableDirectory(m, s.sweepDir)
    requires IsDirectory(m, SweepPath(s.sweepDir, s.env, t.name))
    ensures var r := Retain(m, t, s, now);
      && (p in r <==> p in m && !Expired(m, SweepPath(s.sweepDir, s.env, t.name), Cutoff(s, now), p))
      && (p in r ==> r[p] == m[p])
  {
  }

  /** Without a writable sweep directory or an archive directory, retention changes nothing. */
  lemma RetentionSkipped(m: Tree, t: Tenant, s: Settings, now: nat)
    requires !IsWritableDirectory(m, s.sweepDir) || !IsDirectory(m, SweepPath(s.sweepDir, s.env, t.name))
    ensures Retain(m, t, s, now) == m
  {
  }

  /** Running retention twice with the same clock removes nothing more. */
  lemma RetentionIdempotent(m: Tree, t: Tenant, s: Settings, now: nat)
    ensures Retain(Retain(m, t, s, now), t, s, now) == Retain(m, t, s, now)
  {
    var dir := SweepPath(s.sweepDir, s.env, t.name);
    var r := Retain(m, t, s, now);
    if IsWritableDirectory(m, s.sweepDir) && IsDirectory(m, dir) {
      assert IsWritableDirectory(r, s.sweepDir) && IsDirectory(r, dir);
      var rr := Retain(r, t, s, now);
      forall p | p in r ensures p in rr {
        assert !Expired(r, dir, Cutoff(s, now), p);
      }
      assert rr == r;
    }
  }

  /** An entry created at or after the cutoff survives retention; with a non-negative retention, so does one created at `now`. */
  lemma FreshEntrySurvives(m: Tree, t: Tenant, s: Settings, now: nat, p: Path)
    requires p in m && Cutoff(s, now) <= m[p].ctime
    ensures p in Retain(m, t, s, now) && Retain(m, t, s, now)[p] == m[p]
  {
  }
}
