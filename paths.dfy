/**
 * Path strings as the backup job builds them: `File.join`, `File.basename`,
 * and the numbered generation path `backup_path(tenant, index)`.
 */
module Paths {
  import opened Decimal

  type Path = string

  predicate IsPrefix(a: string, b: string) {
    |a| <= |b| && b[..|a|] == a
  }

  /** `dir` with exactly one trailing separator added when it has none. */
  function DirPrefix(dir: Path): (s: string)
    ensures 0 < |s| && s[|s| - 1] == '/' && IsPrefix(dir, s)
  {
    if 0 < |dir| && dir[|dir| - 1] == '/' then dir else dir + "/"
  }

  /** `dir` with its trailing separators removed. */
  function TrimSeps(dir: Path): (s: Path)
    ensures IsPrefix(s, dir) && (s == [] || s[|s| - 1] != '/')
    ensures forall i :: |s| <= i < |dir| ==> dir[i] == '/'
  {
    if 0 < |dir| && dir[|dir| - 1] == '/' then TrimSeps(dir[..|dir| - 1]) else dir
  }

  /**
   * `File.join(dir, name)`: the directory without its trailing separators, a
   * non-empty run of separators, then the whole name. A name that starts with a
   * separator brings its own; otherwise the directory keeps its trailing ones,
   * or gets one when it has none.
   */
  function Join(dir: Path, name: string): (p: Path)
    ensures 0 < |name| && name[0] != '/' ==> p == DirPrefix(dir) + name && |dir| < |p|
    ensures name == "" ==> p == DirPrefix(dir)
  {
    if 0 < |name| && name[0] == '/' then TrimSeps(dir) + name else DirPrefix(dir) + name
  }

  /**
   * The whole name ends the joined path, and between it and the trimmed
   * directory `File.join` puts separators only.
   */
  lemma JoinShape(dir: Path, name: string)
    ensures var t, p := TrimSeps(dir), Join(dir, name);
      IsPrefix(t, p) && |t| < |p| && p[|t|] == '/' && |t| + |name| <= |p|
    ensures Join(dir, name)[|Join(dir, name)| - |name|..] == name
    ensures forall i :: |TrimSeps(dir)| <= i < |Join(dir, name)| - |name| ==> Join(dir, name)[i] == '/'
  {
    var t := TrimSeps(dir);
    if 0 < |name| && name[0] == '/' {
      assert Join(dir, name) == t + name;
      assert (t + name)[|t|..] == name;
    } else {
      var d := DirPrefix(dir);
      assert Join(dir, name) == d + name;
      assert (d + name)[|d|..] == name;
      assert forall i :: |t| <= i < |d| ==> (d + name)[i] == d[i];
      DirPrefixSeps(dir);
    }
  }

  /** Past the trimmed directory, `DirPrefix` holds separators only. */
  lemma DirPrefixSeps(dir: Path)
    ensures forall i :: |TrimSeps(dir)| <= i < |DirPrefix(dir)| ==> DirPrefix(dir)[i] == '/'
  {
    var t, d := TrimSeps(dir), DirPrefix(dir);
    assert forall i :: |t| <= i < |dir| ==> d[i] == dir[i];
  }

  /** Under one directory, distinct plain names give distinct paths. */
  lemma {:induction false} JoinCancel(dir: Path, a: string, b: string)
    requires 0 < |a| && a[0] != '/' && 0 < |b| && b[0] != '/'
    ensures Join(dir, a) == Join(dir, b) <==> a == b
  {
    var n := |DirPrefix(dir)|;
    if Join(dir, a) == Join(dir, b) {
      assert a == Join(dir, a)[n..];
      assert b == Join(dir, b)[n..];
    }
  }

  /** `p` lies strictly beneath directory `dir`: what `Find.find(dir)` visits besides `dir` itself. */
  predicate Below(p: Path, dir: Path) {
    |DirPrefix(dir)| < |p| && IsPrefix(DirPrefix(dir), p)
  }

  /** `File.basename` of a path that does not end in a separator: the text after the last '/'. */
  function Basename(p: Path): (b: string)
    ensures '/' !in b
    ensures |b| <= |p| && b == p[|p| - |b|..]
    ensures |b| == |p| || p[|p| - |b| - 1] == '/'
  {
    if p == [] || p[|p| - 1] == '/' then [] else Basename(p[..|p| - 1]) + [p[|p| - 1]]
  }

  /** `backup_path(tenant, index)`: the database path followed by "." and the index in decimal. */
  function BackupPath(dbPath: Path, index: nat): Path {
    dbPath + "." + ToDecimal(index)
  }

  /** Generation paths of one database differ exactly when their indices differ. */
  lemma BackupPathInjective(dbPath: Path, i: nat, j: nat)
    ensures BackupPath(dbPath, i) == BackupPath(dbPath, j) <==> i == j
  {
    var pi, pj := BackupPath(dbPath, i), BackupPath(dbPath, j);
    if pi == pj {
      var n := |dbPath| + 1;
      assert ToDecimal(i) == pi[n..] == pj[n..] == ToDecimal(j);
      ToDecimalInjective(i, j);
    }
  }

  /** Every generation path extends the database path, so it is never the live database itself. */
  lemma BackupPathExtendsDb(dbPath: Path, i: nat)
    ensures IsPrefix(dbPath + ".", BackupPath(dbPath, i))
    ensures BackupPath(dbPath, i) != dbPath
  {
  }
}
