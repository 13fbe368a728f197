/**
 * `perform_sweep`: copy generation 1 into the archive directory
 * `<sweep_dir>/<env>/<tenant>`, named after the database file and the UTC
 * creation time of generation 1 to the second.
 */
module SweepPhase {
  import opened Wrappers
  import opened Decimal
  import opened Timestamps
  import opened Paths
  import opened Files
  import opened Tenants

  /**
   * The archive name `"#{File.basename(db_path)}.#{timestamp}"`, from the
   * basename: a single path component that ends with the whole timestamp.
   */
  function SweptName(base: string, stamp: string): (n: string)
    requires '/' !in base
    ensures |stamp| < |n| && n[|n| - |stamp|..] == stamp
    ensures '/' !in n[..|n| - |stamp|] && n[0] != '/'
  {
    var head := base + ".";
    assert '/' !in head;
    assert (head + stamp)[..|head|] == head;
    assert (head + stamp)[0] == head[0];
    head + stamp
  }

  /** The archive copy of a generation-1 file created at `ctime`. */
  function ArchivePath(s: Settings, t: Tenant, ctime: nat): Path {
    Join(SweepPath(s.sweepDir, s.env, t.name), SweptName(Basename(t.dbPath), Stamp(ctime)))
  }

  /** The two directories `FileUtils.mkdir_p(sweep_path)` may have to create, outermost first. */
  function SweepDirs(s: Settings, t: Tenant): seq<Path> {
    [Join(s.sweepDir, s.env), SweepPath(s.sweepDir, s.env, t.name)]
  }

  /** `perform_sweep(tenant, sweep_dir:)` */
  function Sweep(m: Tree, t: Tenant, s: Settings, now: nat): Effect {
    if !IsWritableDirectory(m, s.sweepDir) then Effect(m, None)
    else
      var made := MakeDirs(m, SweepDirs(s, t), now);
      var g1 := Generation1(t.dbPath);
      if made.error != None || !Exists(made.entries, g1) then made
      else Copy(made.entries, g1, ArchivePath(s, t, made.entries[g1].ctime), now)
  }

  /** Without a writable sweep directory the sweep is skipped and changes nothing. */
  lemma SweepSkippedWithoutSweepDir(m: Tree, t: Tenant, s: Settings, now: nat)
    requires !IsWritableDirectory(m, s.sweepDir)
    ensures Sweep(m, t, s, now) == Effect(m, None)
  {
  }

  /**
   * The archive path lies strictly below the tenant's archive directory, where
   * retention looks, and is neither of the directories the sweep creates.
   */
  lemma ArchiveBelowSweepPath(s: Settings, t: Tenant, ctime: nat)
    ensures Below(ArchivePath(s, t, ctime), SweepPath(s.sweepDir, s.env, t.name))
    ensures ArchivePath(s, t, ctime) !in SweepDirs(s, t)
  {
    StampedNameEndsInDigit(t.dbPath, ctime);
    NameBelowSweepPath(s, t, SweptName(Basename(t.dbPath), Stamp(ctime)));
  }

  /** The archive name ends in the last digit of its timestamp, never in a separator. */
  lemma StampedNameEndsInDigit(dbPath: Path, ctime: nat)
    ensures var n := SweptName(Basename(dbPath), Stamp(ctime)); IsDigit(n[|n| - 1])
  {
    var stamp := Stamp(ctime);
    assert IsDigit(stamp[|stamp| - 1]);
    var n := SweptName(Basename(dbPath), stamp);
    assert n[|n| - 1] == stamp[|stamp| - 1];
  }

  /** A plain name that does not end in a separator joins to a path below the archive directory. */
  lemma NameBelowSweepPath(s: Settings, t: Tenant, name: string)
    requires 0 < |name| && name[0] != '/' && name[|name| - 1] != '/'
    ensures var dir := SweepPath(s.sweepDir, s.env, t.name);
      Below(Join(dir, name), dir) && Join(dir, name) !in SweepDirs(s, t)
  {
    var outer := Join(s.sweepDir, s.env);
    var dir := SweepPath(s.sweepDir, s.env, t.name);
    var a := Join(dir, name);
    assert a[|a| - 1] == name[|name| - 1];
    JoinShape(outer, t.name);
    assert a != outer && a != dir;
  }

  /**
   * Two archive copies of the same database share a name exactly when their
   * generation-1 files were created in the same second: a second sweep within
   * that second overwrites the first, and sweeps in different seconds never collide.
   */
  lemma ArchivePathSameSecond(s: Settings, t: Tenant, c1: nat, c2: nat)
    ensures ArchivePath(s, t, c1) == ArchivePath(s, t, c2) <==> c1 / NanosPerSecond == c2 / NanosPerSecond
  {
    var dir := SweepPath(s.sweepDir, s.env, t.name);
    JoinCancel(dir, SweptName(Basename(t.dbPath), Stamp(c1)), SweptName(Basename(t.dbPath), Stamp(c2)));
    StampSameSecond(c1, c2);
    if SweptName(Basename(t.dbPath), Stamp(c1)) == SweptName(Basename(t.dbPath), Stamp(c2)) {
      var b := Basename(t.dbPath);
      var n := |b + "."|;
      assert Stamp(c1) == SweptName(Basename(t.dbPath), Stamp(c1))[n..];
      assert Stamp(c2) == SweptName(Basename(t.dbPath), Stamp(c2))[n..];
    }
  }

  /**
   * With a writable sweep directory and no regular file in the way, the sweep
   * creates the archive directory; with no generation 1 it copies nothing.
   */
  lemma SweepWithoutGeneration(m: Tree, t: Tenant, s: Settings, now: nat)
    requires IsWritableDirectory(m, s.sweepDir)
    requires !IsFile(m, Join(s.sweepDir, s.env)) && !IsFile(m, SweepPath(s.sweepDir, s.env, t.name))
    requires !Exists(m, Generation1(t.dbPath)) && Generation1(t.dbPath) !in SweepDirs(s, t)
    ensures var e := Sweep(m, t, s, now);
      && e.error == None
      && IsDirectory(e.entries, SweepPath(s.sweepDir, s.env, t.name))
      && Generation1(t.dbPath) !in e.entries
      && forall p :: p !in SweepDirs(s, t) ==> SameAt(e.entries, p, m, p)
  {
    var dirs := SweepDirs(s, t);
    var made := MakeDirs(m, dirs, now);
    assert made.error == None;
    assert IsDirectory(made.entries, dirs[1]);
    assert Generation1(t.dbPath) !in made.entries;
    assert Sweep(m, t, s, now) == made;
  }

  /**
   * The sweep of an existing generation 1: the archive directory exists
   * afterwards and the archive copy, named after generation 1's creation time,
   * holds its bytes, replacing any earlier copy of that name. Nothing outside
   * the archive directories and the copy changes.
   */
  lemma SweepCopiesGeneration1(m: Tree, t: Tenant, s: Settings, now: nat)
    requires IsWritableDirectory(m, s.sweepDir)
    requires !IsFile(m, Join(s.sweepDir, s.env)) && !IsFile(m, SweepPath(s.sweepDir, s.env, t.name))
    requires IsFile(m, Generation1(t.dbPath))
    requires var target := ArchivePath(s, t, m[Generation1(t.dbPath)].ctime);
      !IsDirectory(m, target) && target != Generation1(t.dbPath)
    ensures var target := ArchivePath(s, t, m[Generation1(t.dbPath)].ctime);
      var e := Sweep(m, t, s, now);
      && e.error == None
      && IsDirectory(e.entries, SweepPath(s.sweepDir, s.env, t.name))
      && target in e.entries && e.entries[target] == File(m[Generation1(t.dbPath)].data, now)
      && forall p :: p !in SweepDirs(s, t) && p != target ==> SameAt(e.entries, p, m, p)
  {
    var g1 := Generation1(t.dbPath);
    var target := ArchivePath(s, t, m[g1].ctime);
    ArchiveBelowSweepPath(s, t, m[g1].ctime);
    var outer, inner := Join(s.sweepDir, s.env), SweepPath(s.sweepDir, s.env, t.name);
    MakeDirsThenCopy(m, outer, inner, g1, target, now);
    var made := MakeDirs(m, [outer, inner], now);
    assert Sweep(m, t, s, now) == Copy(made.entries, g1, ArchivePath(s, t, made.entries[g1].ctime), now);
  }

  /** The tree after making sure directory `d` exists, when no regular file is in the way. */
  function WithDir(m: Tree, d: Path, now: nat): Tree {
    if d in m then m else m[d := Dir(true, now)]
  }

  /** `mkdir_p` of a directory and one below it, when no regular file is in the way. */
  lemma MakeTwoDirs(m: Tree, outer: Path, inner: Path, now: nat)
    requires !IsFile(m, outer) && !IsFile(m, inner)
    ensures MakeDirs(m, [outer, inner], now) == Effect(WithDir(WithDir(m, outer, now), inner, now), None)
  {
    assert [outer, inner][1..] == [inner];
    MakeOneDir(WithDir(m, outer, now), inner, now);
  }

  lemma MakeOneDir(m: Tree, d: Path, now: nat)
    requires !IsFile(m, d)
    ensures MakeDirs(m, [d], now) == Effect(WithDir(m, d, now), None)
  {
    assert [d][1..] == [];
  }

  /** Creating two directories and then copying a file into a path that is neither of them. */
  lemma MakeDirsThenCopy(m: Tree, outer: Path, inner: Path, src: Path, dst: Path, now: nat)
    requires !IsFile(m, outer) && !IsFile(m, inner)
    requires IsFile(m, src) && !IsDirectory(m, dst) && src != dst && dst != outer && dst != inner
    ensures var made := MakeDirs(m, [outer, inner], now);
      var e := Copy(made.entries, src, dst, now);
      && made.error == None && made.entries[src] == m[src]
      && e.error == None
      && IsDirectory(e.entries, inner)
      && dst in e.entries && e.entries[dst] == File(m[src].data, now)
      && forall p :: p != outer && p != inner && p != dst ==> SameAt(e.entries, p, m, p)
  {
    MakeTwoDirs(m, outer, inner, now);
  }
}
