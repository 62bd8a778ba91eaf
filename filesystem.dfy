/** The parts of the operating system the organizer relies on: paths, the entries of a
    directory tree, `Path.mkdir`, `shutil.move`, `Path.stem`/`Path.suffix`, and the
    outcome of calling a foreign content detector. The filesystem is a value; every
    operation that changes it returns the new tree. */
module FileSystem {

  /** A path is the sequence of its components below an abstract root; `[]` is the root. */
  type Path = seq<string>

  /** A regular file (its bytes abstracted to an id) or a directory. */
  datatype Node = File(content: nat) | Dir

  /** Every entry that exists, keyed by its path. The root is implicit. */
  type FS = map<Path, Node>

  datatype FsError = FileExists | FileNotFound | NotADirectory | DestinationExists

  datatype Result<T> = Ok(value: T) | Err(error: FsError)

  /** What a call into a foreign detector did: it raised, or it returned a value. */
  datatype Detection<T> = Raised | Returned(value: T)

  function Parent(p: Path): (q: Path)
    requires p != []
    ensures q + [p[|p| - 1]] == p
  {
    p[..|p| - 1]
  }

  /** `Path.name` */
  function Name(p: Path): string
    requires p != []
  {
    p[|p| - 1]
  }

  predicate Exists(fs: FS, p: Path) {
    p == [] || p in fs
  }

  predicate IsDir(fs: FS, p: Path) {
    p == [] || (p in fs && fs[p].Dir?)
  }

  predicate IsFile(fs: FS, p: Path) {
    p != [] && p in fs && fs[p].File?
  }

  /** Every entry hangs below a directory, and the root is not an entry. */
  ghost predicate WellFormed(fs: FS) {
    [] !in fs && forall p :: p in fs ==> p != [] && IsDir(fs, Parent(p))
  }

  /** Every entry of `fs` is still there in `fs'`, unchanged. */
  ghost predicate Grows(fs: FS, fs': FS) {
    forall q :: q in fs ==> q in fs' && fs'[q] == fs[q]
  }

  /** Every file content present in `fs` is still held by some entry of `fs'`. */
  ghost predicate KeepsContents(fs: FS, fs': FS) {
    forall q :: q in fs && fs[q].File? ==> fs[q] in fs'.Values
  }

  lemma KeepsContentsTransitive(a: FS, b: FS, c: FS)
    requires KeepsContents(a, b) && KeepsContents(b, c)
    ensures KeepsContents(a, c)
  {
    forall q | q in a && a[q].File?
      ensures a[q] in c.Values
    {
      var k :| k in b && b[k] == a[q];
    }
  }

  /** The names of the entries directly inside `d`. */
  function ListDir(fs: FS, d: Path): (names: set<string>)
    ensures forall n :: n in names <==> d + [n] in fs
  {
    var names := set p | p in fs && |p| == |d| + 1 && p[..|d|] == d :: p[|d|];
    assert forall n :: d + [n] in fs ==> (d + [n])[..|d|] == d && (d + [n])[|d|] == n;
    assert forall p :: p in fs && |p| == |d| + 1 && p[..|d|] == d ==> p == d + [p[|d|]];
    names
  }

  ghost predicate NoDuplicates<T>(s: seq<T>) {
    forall i, j :: 0 <= i < j < |s| ==> s[i] != s[j]
  }

  lemma SubsetCard<T>(a: set<T>, b: set<T>)
    requires a <= b
    ensures |a| <= |b|
  {
    assert b == a + (b - a);
  }

  /** `names` is what `os.listdir(d)` or `d.iterdir()` yields, in some order. */
  ghost predicate IsListing(fs: FS, d: Path, names: seq<string>) {
    NoDuplicates(names) && forall n :: n in names <==> d + [n] in fs
  }

  /** `Path(p).mkdir(parents=parents, exist_ok=existOk)`: plain `os.mkdir` of `p`, and on
      a missing parent either fail or (with `parents`) create the parent chain first. */
  function Mkdir(fs: FS, p: Path, parents: bool, existOk: bool): (r: Result<FS>)
    ensures r.Ok? ==> IsDir(r.value, p) && Grows(fs, r.value)
    ensures r.Ok? ==> forall q :: q in r.value && q !in fs ==> q <= p && r.value[q] == Dir
    ensures existOk && IsDir(fs, p) ==> r == Ok(fs)
    ensures !existOk && Exists(fs, p) ==> r.Err?
    ensures IsFile(fs, p) ==> r.Err?
    ensures !Exists(fs, p) && IsDir(fs, Parent(p)) ==> r == Ok(fs[p := Dir])
    decreases |p|
  {
    if p == [] then
      if existOk then Ok(fs) else Err(FileExists)
    else if p in fs then
      if existOk && fs[p].Dir? then Ok(fs) else Err(FileExists)
    else if IsDir(fs, Parent(p)) then
      Ok(fs[p := Dir])
    else if Exists(fs, Parent(p)) then
      Err(NotADirectory)
    else if !parents then
      Err(FileNotFound)
    else
      match Mkdir(fs, Parent(p), true, true)
      case Err(e) => Err(e)
      case Ok(fs1) =>
        assert p !in fs1;
        Ok(fs1[p := Dir])
  }

  /** `mkdir` keeps the tree well formed: each directory it adds hangs below a directory. */
  lemma {:induction false} MkdirWellFormed(fs: FS, p: Path, parents: bool, existOk: bool)
    requires WellFormed(fs) && Mkdir(fs, p, parents, existOk).Ok?
    ensures WellFormed(Mkdir(fs, p, parents, existOk).value)
    decreases |p|
  {
    if p == [] || p in fs {
    } else if IsDir(fs, Parent(p)) {
      AddDirWellFormed(fs, p);
    } else {
      MkdirWellFormed(fs, Parent(p), true, true);
      var fs1 := Mkdir(fs, Parent(p), true, true).value;
      AddDirWellFormed(fs1, p);
    }
  }

  /** A directory added below a directory keeps the tree well formed. */
  lemma AddDirWellFormed(fs: FS, p: Path)
    requires WellFormed(fs) && p != [] && IsDir(fs, Parent(p))
    ensures WellFormed(fs[p := Dir])
  {
  }

  /** Where `shutil.move(src, dst)` puts `src`: inside `dst` when that is a directory. */
  function MoveTarget(fs: FS, src: Path, dst: Path): (t: Path)
    requires src != []
    ensures t != [] && dst <= t && |dst| <= |t| <= |dst| + 1
  {
    if IsDir(fs, dst) then dst + [Name(src)] else dst
  }

  /** `shutil.move(src, dst)` for a source that is a regular file or missing. A move into
      an existing directory refuses an existing entry of the same name; a move to a file
      path renames over whatever file is there (`os.rename`, or `copy2` then `unlink`). */
  function ShutilMove(fs: FS, src: Path, dst: Path): (r: Result<FS>)
    requires src != [] && (src in fs ==> fs[src].File?)
    ensures r.Ok? <==>
      && src in fs
      && IsDir(fs, Parent(MoveTarget(fs, src, dst)))
      && !(IsDir(fs, dst) && Exists(fs, MoveTarget(fs, src, dst)))
    ensures r.Ok? ==>
      var t := MoveTarget(fs, src, dst);
      && t in r.value && r.value[t] == fs[src]
      && (t != src ==> src !in r.value)
      && (forall q :: q in fs && q != src && q != t ==> q in r.value && r.value[q] == fs[q])
      && (forall q :: q in r.value ==> q in fs || q == t)
  {
    if src !in fs then Err(FileNotFound)
    else
      var t := MoveTarget(fs, src, dst);
      if IsDir(fs, dst) && Exists(fs, t) then Err(DestinationExists)
      else if !IsDir(fs, Parent(t)) then Err(if Exists(fs, Parent(t)) then NotADirectory else FileNotFound)
      else
        var fs' := (fs - {src})[t := fs[src]];
        Ok(fs')
  }

  /** A move of a file keeps the tree well formed: the file lands below a directory, and
      no entry hung below the file. */
  lemma ShutilMoveWellFormed(fs: FS, src: Path, dst: Path)
    requires src != [] && (src in fs ==> fs[src].File?)
    requires WellFormed(fs) && ShutilMove(fs, src, dst).Ok?
    ensures WellFormed(ShutilMove(fs, src, dst).value)
  {
    var t := MoveTarget(fs, src, dst);
    var fs' := ShutilMove(fs, src, dst).value;
    forall q | q in fs'
      ensures q != [] && IsDir(fs', Parent(q))
    {
      if q != t {
        assert q in fs;
        assert Parent(q) != src;
      }
    }
  }

  /** `str.rfind(c)`: the index of the last `c` in `s`, or -1. */
  function RFind(s: string, c: char): (i: int)
    ensures -1 <= i < |s|
    ensures i >= 0 ==> s[i] == c
    ensures forall j :: i < j < |s| ==> s[j] != c
  {
    if s == [] then -1
    else if s[|s| - 1] == c then |s| - 1
    else RFind(s[..|s| - 1], c)
  }

  /** `PurePath.suffix`: from the last dot on, unless that dot leads or ends the name. */
  function Suffix(name: string): (r: string)
    ensures |r| <= |name| && r == name[|name| - |r|..]
    ensures r == [] || (|r| >= 2 && r[0] == '.' && '.' !in r[1..] && |r| < |name|)
    ensures r == [] ==> forall i :: 0 < i < |name| - 1 && name[i] == '.' ==> '.' in name[i + 1..]
  {
    var i := RFind(name, '.');
    if 0 < i < |name| - 1 then
      assert forall j :: 0 <= j < |name[i..][1..]| ==> name[i..][1..][j] == name[i + 1 + j];
      name[i..]
    else
      assert forall k :: 0 < k < |name| - 1 && name[k] == '.' ==> '.' in name[k + 1..] by {
        forall k | 0 < k < |name| - 1 && name[k] == '.'
          ensures '.' in name[k + 1..]
        {
          assert name[k + 1..][i - k - 1] == name[i];
        }
      }
      ""
  }

  /** `PurePath.stem`: the name without its suffix. */
  function Stem(name: string): (r: string)
    ensures |r| <= |name| && r == name[..|r|]
    ensures r == [] <==> name == []
  {
    var i := RFind(name, '.');
    if 0 < i < |name| - 1 then name[..i] else name
  }

  /** A name splits into stem and suffix; a suffix is empty or a dot with no further dot. */
  lemma StemSuffixSplit(name: string)
    ensures Stem(name) + Suffix(name) == name
    ensures Suffix(name) == [] || (|Suffix(name)| >= 2 && Suffix(name)[0] == '.' && '.' !in Suffix(name)[1..])
    ensures Suffix(name) != [] ==> Stem(name) != [] && Stem(name)[0] == name[0]
  {
    var i := RFind(name, '.');
    if 0 < i < |name| - 1 {
      assert name[..i] + name[i..] == name;
      assert forall j :: 0 <= j < |name[i..][1..]| ==> name[i..][1..][j] == name[i + 1 + j];
    }
  }
}
