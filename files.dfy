/**
 * The filesystem the backup job works on, as a flat map from path to entry, and
 * the `File` / `FileUtils` calls it makes. A call that Ruby would raise on
 * returns an error together with the state at the point of the raise.
 */
module Files {
  import opened Wrappers
  import opened Paths

  type Bytes = seq<bv8>

  /** A regular file or a directory, with its creation time in nanoseconds since the epoch. */
  datatype Entry = File(data: Bytes, ctime: nat) | Dir(writable: bool, ctime: nat)

  type Tree = map<Path, Entry>

  datatype FsError =
    | NoSuchFile(path: Path)      // Errno::ENOENT
    | IsADirectory(path: Path)    // Errno::EISDIR
    | NotADirectory(path: Path)   // Errno::ENOTDIR
    | FileExists(path: Path)      // Errno::EEXIST
    | SameFile(path: Path)        // ArgumentError from FileUtils
    | CantOpen(path: Path)        // SQLite3::CantOpenException

  /** The state after a call, and the error it raised, if any. */
  datatype Effect = Effect(entries: Tree, error: Option<FsError>)

  /** `File.exist?` */
  predicate Exists(m: Tree, p: Path) {
    p in m
  }

  /** `File.file?` */
  predicate IsFile(m: Tree, p: Path) {
    p in m && m[p].File?
  }

  /** `File.directory?` */
  predicate IsDirectory(m: Tree, p: Path) {
    p in m && m[p].Dir?
  }

  /** `File.directory?(p) && File.writable?(p)` */
  predicate IsWritableDirectory(m: Tree, p: Path) {
    p in m && m[p].Dir? && m[p].writable
  }

  /** `a` at `p` holds what `b` held at `q`: both absent, or both present and equal. */
  predicate SameAt(a: Tree, p: Path, b: Tree, q: Path) {
    (p in a <==> q in b) && (p in a ==> a[p] == b[q])
  }

  /** `FileUtils.rm(p)`: unlinks a regular file. */
  function Remove(m: Tree, p: Path): (e: Effect)
    ensures e.error == None <==> IsFile(m, p)
    ensures e.error != None ==> e.entries == m
    ensures e.error == None ==> p !in e.entries
    ensures e.error == None ==> forall q :: q != p ==> (q in e.entries <==> q in m) && (q in e.entries ==> e.entries[q] == m[q])
  {
    if p !in m then Effect(m, Some(NoSuchFile(p)))
    else if m[p].Dir? then Effect(m, Some(IsADirectory(p)))
    else Effect(m - {p}, None)
  }

  /** Removing a regular file succeeds and takes out exactly that entry. */
  lemma RemoveFile(m: Tree, p: Path)
    requires IsFile(m, p)
    ensures Remove(m, p) == Effect(m - {p}, None)
  {
  }

  /** Where `FileUtils.mv` / `FileUtils.cp` put `src` when told `dst`: inside `dst` when it is a directory. */
  function Destination(m: Tree, src: Path, dst: Path): Path {
    if IsDirectory(m, dst) then Join(dst, Basename(src)) else dst
  }

  /**
   * `FileUtils.mv(src, dst)`: renames the entry, replacing a regular file at the
   * destination. Only the entry itself moves (see README on directories).
   */
  function Move(m: Tree, src: Path, dst: Path): (e: Effect)
    ensures e.error != None ==> e.entries == m
    ensures src in m && dst !in m && src != dst ==>
      e.error == None && e.entries == (m - {src})[dst := m[src]]
  {
    var target := Destination(m, src, dst);
    if src !in m then Effect(m, Some(NoSuchFile(src)))
    else if target == src then Effect(m, Some(SameFile(src)))
    else if IsDirectory(m, target) then Effect(m, Some(IsADirectory(target)))
    else if target in m && m[src].Dir? then Effect(m, Some(NotADirectory(target)))
    else Effect((m - {src})[target := m[src]], None)
  }

  /** `FileUtils.cp(src, dst)`: the copy gets the source's bytes and a fresh creation time `now`. */
  function Copy(m: Tree, src: Path, dst: Path, now: nat): (e: Effect)
    ensures e.error != None ==> e.entries == m
    ensures IsFile(m, src) && !IsDirectory(m, dst) && src != dst ==>
      e.error == None && e.entries == m[dst := File(m[src].data, now)]
  {
    var target := Destination(m, src, dst);
    if src !in m then Effect(m, Some(NoSuchFile(src)))
    else if m[src].Dir? then Effect(m, Some(IsADirectory(src)))
    else if target == src then Effect(m, Some(SameFile(src)))
    else if IsDirectory(m, target) then Effect(m, Some(IsADirectory(target)))
    else Effect(m[target := File(m[src].data, now)], None)
  }

  /**
   * `FileUtils.mkdir_p` over a chain of nested directories, outermost first:
   * each missing one is created, an existing directory is kept, and an existing
   * regular file raises, leaving the directories created before it.
   */
  function MakeDirs(m: Tree, dirs: seq<Path>, now: nat): (e: Effect)
    ensures e.error == None <==> forall i :: 0 <= i < |dirs| ==> !IsFile(m, dirs[i])
    ensures e.error == None ==> forall i :: 0 <= i < |dirs| ==> IsDirectory(e.entries, dirs[i])
    ensures forall p :: p !in dirs ==> (p in e.entries <==> p in m) && (p in m ==> e.entries[p] == m[p])
    ensures forall p :: p in m && m[p].Dir? ==> p in e.entries && e.entries[p] == m[p]
    decreases |dirs|
  {
    if dirs == [] then Effect(m, None)
    else if IsFile(m, dirs[0]) then Effect(m, Some(FileExists(dirs[0])))
    else
      var m' := if dirs[0] in m then m else m[dirs[0] := Dir(true, now)];
      var rest := MakeDirs(m', dirs[1..], now);
      assert forall i :: 1 <= i < |dirs| ==> dirs[i] == dirs[1..][i - 1];
      assert forall i :: 0 <= i < |dirs| - 1 ==> dirs[1..][i] == dirs[i + 1];
      rest
  }

  /** The mounted filesystem, changed in place by the job. */
  class FileSystem {
    var entries: Tree

    constructor (entries: Tree)
      ensures this.entries == entries
    {
      this.entries := entries;
    }

    method Rm(p: Path) returns (error: Option<FsError>)
      modifies this
      ensures Effect(entries, error) == Remove(old(entries), p)
    {
      var e := Remove(entries, p);
      entries, error := e.entries, e.error;
    }

    method Mv(src: Path, dst: Path) returns (error: Option<FsError>)
      modifies this
      ensures Effect(entries, error) == Move(old(entries), src, dst)
    {
      var e := Move(entries, src, dst);
      entries, error := e.entries, e.error;
    }

    method Cp(src: Path, dst: Path, now: nat) returns (error: Option<FsError>)
      modifies this
      ensures Effect(entries, error) == Copy(old(entries), src, dst, now)
    {
      var e := Copy(entries, src, dst, now);
      entries, error := e.entries, e.error;
    }

    /** The bytes SQLite writes into a database file through its own handle, changing it at `now`. */
    method Store(p: Path, data: Bytes, now: nat)
      modifies this
      ensures entries == old(entries)[p := File(data, now)]
    {
      entries := entries[p := File(data, now)];
    }

    method MkdirP(dirs: seq<Path>, now: nat) returns (error: Option<FsError>)
      modifies this
      ensures Effect(entries, error) == MakeDirs(old(entries), dirs, now)
    {
      var e := MakeDirs(entries, dirs, now);
      entries, error := e.entries, e.error;
    }
  }
}
