/** The package organizer of src/core/organizer.py and its standalone copy, main.py.
    The two differ in two places only, so one model serves both, told apart by `Variant`:
    the package lower-cases the detected type and creates folders with
    `mkdir(parents=True, exist_ok=True)`; the script uses the type as detected and a plain
    `mkdir()`. Neither renames on a name clash. */
module Organizer {
  import opened FileSystem
  import opened FolderMapping

  datatype Variant =
    | Package  // src/core/organizer.py, also used by the directory watcher
    | Script   // main.py

  /** `str.lower` on ASCII letters. */
  function LowerChar(c: char): (d: char)
    ensures !('A' <= d <= 'Z')
    ensures !('A' <= c <= 'Z') ==> d == c
    ensures 'A' <= c <= 'Z' ==> d as int - c as int == 'a' as int - 'A' as int
  {
    if 'A' <= c <= 'Z' then (c as int - 'A' as int + 'a' as int) as char else c
  }

  function Lower(s: string): (r: string)
    ensures |r| == |s| && forall i :: 0 <= i < |r| ==> r[i] == LowerChar(s[i])
  {
    seq(|s|, i requires 0 <= i < |s| => LowerChar(s[i]))
  }

  /** The type string the lookup sees: the package lower-cases the detector's answer. */
  function LookupType(v: Variant, detected: string): (t: string)
    ensures v == Script ==> t == detected
    ensures v == Package ==> t == Lower(detected)
    ensures v == Package ==> |t| == |detected| && forall i :: 0 <= i < |t| ==> !('A' <= t[i] <= 'Z')
  {
    if v == Package then Lower(detected) else detected
  }

  /** An upper-case type from the detector finds its folder in the package but falls back
      to the default in the script, whose keys are all lower case. */
  lemma LowerCasingMatters()
    ensures var table := MappingTable([("image/", "Images")], "Other");
      && Resolve(table, LookupType(Package, "IMAGE/PNG")) == "Images"
      && Resolve(table, LookupType(Script, "IMAGE/PNG")) == "Other"
  {
    var table := MappingTable([("image/", "Images")], "Other");
    assert LookupType(Package, "IMAGE/PNG") == "image/png";
    ResolveFirstPrefix(table, "image/png", 0);
    assert "IMAGE/PNG"[0] != "image/"[0];
    ResolveDefault(table, "IMAGE/PNG");
  }

  /** `check_create_dir(path, folder_name)`: create `path/folder_name` only when nothing of
      that name exists. An existing entry is accepted as it is, even a regular file. */
  function CheckCreateDir(fs: FS, path: Path, folder: string, v: Variant): (r: Result<FS>)
    ensures path + [folder] in fs ==> r == Ok(fs)
    ensures r.Ok? ==> path + [folder] in r.value && Grows(fs, r.value)
    ensures r.Ok? ==> forall q :: q in r.value && q !in fs ==> q <= path + [folder] && r.value[q] == Dir
    ensures path + [folder] !in fs && IsDir(fs, path) ==> r == Ok(fs[path + [folder] := Dir])
    ensures v == Script ==> (r.Ok? <==> path + [folder] in fs || IsDir(fs, path))
  {
    var folderPath := path + [folder];
    assert Parent(folderPath) == path;
    if folderPath in fs then Ok(fs)
    else if v == Package then Mkdir(fs, folderPath, true, true)
    else Mkdir(fs, folderPath, false, false)
  }

  /** Calling `check_create_dir` again after it succeeded changes nothing. */
  lemma CheckCreateDirTwice(fs: FS, path: Path, folder: string, v: Variant)
    requires CheckCreateDir(fs, path, folder, v).Ok?
    ensures var fs1 := CheckCreateDir(fs, path, folder, v).value;
      CheckCreateDir(fs1, path, folder, v) == Ok(fs1)
  {
  }

  /** `move_data(path, folder_name, file)`: `shutil.move` of `path/file` to
      `path/folder_name/file`, reporting whether it raised. */
  function MoveData(fs: FS, path: Path, folder: string, file: string): (r: (FS, bool))
    requires path + [file] in fs ==> fs[path + [file]].File?
    ensures var src, dst := path + [file], path + [folder, file];
      && (r.1 <==> src in fs && if IsDir(fs, dst) then dst + [file] !in fs else IsDir(fs, path + [folder]))
      && (r.1 ==> src !in r.0 && MoveTarget(fs, src, dst) in r.0 && r.0[MoveTarget(fs, src, dst)] == fs[src])
      && (!r.1 ==> r.0 == fs)
    ensures forall q :: q in fs && q != path + [file] && !(path + [folder] < q) ==> q in r.0 && r.0[q] == fs[q]
    ensures forall q :: q in r.0 && q !in fs ==> q == MoveTarget(fs, path + [file], path + [folder, file])
  {
    var src, dst := path + [file], path + [folder, file];
    assert Parent(dst) == path + [folder];
    assert Parent(dst + [file]) == dst;
    assert src != dst && src != dst + [file] by {
      assert |src| < |dst| < |dst + [file]|;
    }
    assert path + [folder] < dst && path + [folder] < dst + [file] by {
      assert dst[..|path| + 1] == path + [folder];
      assert (dst + [file])[..|path| + 1] == path + [folder];
    }
    match ShutilMove(fs, src, dst)
    case Ok(fs') => (fs', true)
    case Err(_) => (fs, false)
  }

  /** `move_data` into an existing folder holding a file of the same name replaces that
      file: its content is no longer held by any entry. */
  lemma MoveDataOverwrites(fs: FS, path: Path, folder: string, file: string)
    requires IsFile(fs, path + [file]) && IsDir(fs, path + [folder]) && IsFile(fs, path + [folder, file])
    requires forall q :: q in fs && q != path + [folder, file] ==> fs[q] != fs[path + [folder, file]]
    ensures MoveData(fs, path, folder, file).1
    ensures !KeepsContents(fs, MoveData(fs, path, folder, file).0)
  {
    var dst := path + [folder, file];
    var fs' := MoveData(fs, path, folder, file).0;
    assert path + [file] != dst by {
      assert |path + [file]| < |dst|;
    }
    assert MoveTarget(fs, path + [file], dst) == dst;
    assert fs'[dst] == fs[path + [file]];
  }

  /** `check_and_move(file, file_type, path)`: look up the folder for the type, make sure
      it exists, move the file there. The result is False only when creating the folder
      raised; a failed move still reports True. */
  function CheckAndMove(fs: FS, table: MappingTable, file: string, fileType: string, path: Path, v: Variant): (r: (FS, bool))
    requires IsFile(fs, path + [file])
    ensures r.1 <==> CheckCreateDir(fs, path, Resolve(table, fileType), v).Ok?
    ensures IsDir(fs, path) ==> r.1
    ensures !r.1 ==> r.0 == fs
    ensures forall q :: q in fs && q != path + [file] && !(path + [Resolve(table, fileType)] < q) ==> q in r.0 && r.0[q] == fs[q]
  {
    var folder := Resolve(table, fileType);
    match CheckCreateDir(fs, path, folder, v)
    case Err(_) => (fs, false)
    case Ok(fs1) =>
      var (fs2, _) := MoveData(fs1, path, folder, file);
      (fs2, true)
  }

  /** When the scanned path is a directory, the type's folder is absent or a directory,
      and the folder holds no entry of the file's name, `check_and_move` puts the file at
      `path/folder/file` and reports True: `D/report.pdf` becomes `D/PDFs/report.pdf`. */
  lemma {:induction false} CheckAndMoveLands(fs: FS, table: MappingTable, file: string, fileType: string, path: Path, v: Variant)
    requires IsDir(fs, path) && IsFile(fs, path + [file])
    requires var f := Resolve(table, fileType);
      (path + [f] !in fs || IsDir(fs, path + [f])) && path + [f, file] !in fs
    ensures var f := Resolve(table, fileType);
      var r := CheckAndMove(fs, table, file, fileType, path, v);
      && r.1 && path + [file] !in r.0
      && path + [f, file] in r.0 && r.0[path + [f, file]] == fs[path + [file]]
  {
    var f := Resolve(table, fileType);
    assert Parent(path + [f, file]) == path + [f];
    assert path + [f] != path + [f, file];
  }

  /** Below a directory `path`, the only entries `check_and_move` adds are the type's
      folder `path/f`, the moved file `path/f/file`, or, when `path/f/file` is already a
      directory, `path/f/file/file`. */
  lemma CheckAndMoveNewEntries(fs: FS, table: MappingTable, file: string, fileType: string, path: Path, v: Variant)
    requires IsDir(fs, path) && IsFile(fs, path + [file])
    ensures var f := Resolve(table, fileType);
      forall q :: q in CheckAndMove(fs, table, file, fileType, path, v).0 && q !in fs ==>
        q == path + [f] || q == path + [f, file] || q == path + [f, file, file]
  {
    var f := Resolve(table, fileType);
    var folderPath := path + [f];
    assert Parent(folderPath) == path;
    var r := CheckCreateDir(fs, path, f, v);
    if r.Ok? {
      var fs1 := r.value;
      assert forall q :: q in fs1 && q !in fs ==> q == folderPath;
      var dst := path + [f, file];
      assert dst + [Name(path + [file])] == path + [f, file, file];
      assert MoveTarget(fs1, path + [file], dst) == dst || MoveTarget(fs1, path + [file], dst) == path + [f, file, file];
    }
  }

  /** Below a directory `path`, `check_and_move` changes no entry but the moved file
      `path/file` and its possible landing places `path/f/file` and `path/f/file/file`:
      every other entry, the type's folder included, keeps its value. */
  lemma CheckAndMoveTouches(fs: FS, table: MappingTable, file: string, fileType: string, path: Path, v: Variant)
    requires IsDir(fs, path) && IsFile(fs, path + [file])
    ensures var f := Resolve(table, fileType);
      var fs' := CheckAndMove(fs, table, file, fileType, path, v).0;
      forall q :: q in fs && q != path + [file] && q != path + [f, file] && q != path + [f, file, file] ==>
        q in fs' && fs'[q] == fs[q]
  {
    var f := Resolve(table, fileType);
    var r := CheckCreateDir(fs, path, f, v);
    if r.Ok? {
      var fs1 := r.value;
      var src, dst := path + [file], path + [f, file];
      assert dst + [Name(src)] == path + [f, file, file];
      assert src in fs1 && fs1[src].File?;
      var t := MoveTarget(fs1, src, dst);
      assert t == dst || t == path + [f, file, file];
    }
  }

  /** `check_and_move` keeps the tree well formed: the folders it creates and the file it
      moves all hang below directories. */
  lemma CheckAndMoveWellFormed(fs: FS, table: MappingTable, file: string, fileType: string, path: Path, v: Variant)
    requires WellFormed(fs) && IsFile(fs, path + [file])
    ensures WellFormed(CheckAndMove(fs, table, file, fileType, path, v).0)
  {
    var folder := Resolve(table, fileType);
    var folderPath := path + [folder];
    var r := CheckCreateDir(fs, path, folder, v);
    if r.Ok? {
      if folderPath !in fs {
        MkdirWellFormed(fs, folderPath, v == Package, v == Package);
      }
      var fs1 := r.value;
      var src, dst := path + [file], path + [folder, file];
      if ShutilMove(fs1, src, dst).Ok? {
        ShutilMoveWellFormed(fs1, src, dst);
      }
    }
  }

  /** A folder name already taken by a regular file: nothing moves, and True is returned. */
  lemma CheckAndMoveTrueDespiteFailedMove(fs: FS, table: MappingTable, file: string, fileType: string, path: Path, v: Variant)
    requires WellFormed(fs) && IsFile(fs, path + [file])
    requires IsFile(fs, path + [Resolve(table, fileType)])
    ensures CheckAndMove(fs, table, file, fileType, path, v) == (fs, true)
  {
    var folder := Resolve(table, fileType);
    var dst := path + [folder, file];
    assert Parent(dst) == path + [folder];
    assert dst !in fs;
    assert !MoveData(fs, path, folder, file).1;
  }

  /** The script's plain `mkdir()` fails below a missing directory where the package's
      `mkdir(parents=True)` creates the chain. */
  lemma MkdirVariantsDiffer()
    ensures CheckCreateDir(map[], ["Downloads"], "Images", Script).Err?
    ensures CheckCreateDir(map[], ["Downloads"], "Images", Package)
         == Ok(map[["Downloads"] := Dir, ["Downloads", "Images"] := Dir])
  {
    assert ["Downloads"] + ["Images"] == ["Downloads", "Images"];
    assert Parent(["Downloads", "Images"]) == ["Downloads"];
    assert Parent(["Downloads"]) == [];
    var fs1 := map[["Downloads"] := Dir];
    assert Mkdir(map[], ["Downloads"], true, true) == Ok(fs1);
    assert ["Downloads", "Images"] !in fs1;
    assert Mkdir(map[], ["Downloads", "Images"], true, true) == Ok(fs1[["Downloads", "Images"] := Dir]);
    assert fs1[["Downloads", "Images"] := Dir] == map[["Downloads"] := Dir, ["Downloads", "Images"] := Dir];
  }

  /** `path/name` is a regular file whose type the detector reports without raising. */
  predicate Counted(fs: FS, path: Path, name: string, magic: Path -> Detection<string>) {
    IsFile(fs, path + [name]) && magic(path + [name]).Returned?
  }

  /** The number of names, among `names`, that are regular files below `path` and whose
      type the detector reports without raising. */
  function Detected(fs: FS, path: Path, names: seq<string>, magic: Path -> Detection<string>): (n: nat)
    ensures n <= |names|
  {
    if names == [] then 0
    else
      var last := names[|names| - 1];
      Detected(fs, path, names[..|names| - 1], magic) + (if Counted(fs, path, last, magic) then 1 else 0)
  }

  /** `q` is an entry `check_and_move` may add below `path` for a listed name: a folder
      of `path`, a listed name inside such a folder, or a listed name inside a directory
      of that name there. */
  predicate Placed(q: Path, path: Path, listing: seq<string>) {
    |path| < |q| <= |path| + 3 && q[..|path|] == path && (|q| > |path| + 1 ==> q[|q| - 1] in listing)
  }

  /** The listed entries from the `i`-th on, and the earlier ones that were not counted,
      are as they were in `fs`. */
  ghost predicate ListedKept(fs: FS, fs': FS, path: Path, listing: seq<string>, i: nat, magic: Path -> Detection<string>) {
    forall j :: 0 <= j < |listing| && (i <= j || !Counted(fs, path, listing[j], magic)) ==>
      path + [listing[j]] in fs && path + [listing[j]] in fs' && fs'[path + [listing[j]]] == fs[path + [listing[j]]]
  }

  /** `q` is an entry `organize(path)` leaves alone: it lies outside `path`, or deeper
      than the direct entries of `path` under a name that is not listed there. */
  predicate Untouched(q: Path, path: Path, listing: seq<string>) {
    !(path < q) || (|q| > |path| + 1 && q[|q| - 1] !in listing)
  }

  /** The tree after `organize(path)` has run `check_and_move` on each name of `names`
      in turn that is, at its turn, a regular file of `path` whose type was detected. */
  ghost function Sweep(fs: FS, table: MappingTable, path: Path, names: seq<string>,
                       magic: Path -> Detection<string>, v: Variant): FS
    decreases |names|
  {
    if names == [] then fs
    else
      var fs1 := Sweep(fs, table, path, names[..|names| - 1], magic, v);
      var x := names[|names| - 1];
      if IsFile(fs1, path + [x]) && magic(path + [x]).Returned?
      then CheckAndMove(fs1, table, x, LookupType(v, magic(path + [x]).value), path, v).0
      else fs1
  }

  /** `organize(path)` (and main.py's top-level loop over the Downloads folder).
      `readable` is whether `os.listdir(path)` succeeds, `listing` the names it returns.
      Every listed regular file whose type is detected is processed, and each processed
      file is reported as a success; a failed listing is absorbed and changes nothing.
      The listed entries that are not processed keep their value, nothing outside `path`
      changes, and every new entry is a folder of `path` or holds a listed name there. */
  method Organize(fs: FS, table: MappingTable, path: Path, readable: bool, listing: seq<string>,
                  magic: Path -> Detection<string>, v: Variant)
    returns (fs': FS, processed: nat, success: nat)
    requires IsListing(fs, path, listing)
    ensures success <= processed
    ensures processed == if readable && IsDir(fs, path) then Detected(fs, path, listing, magic) else 0
    ensures success == processed
    ensures !(readable && IsDir(fs, path)) ==> fs' == fs
    ensures forall j :: 0 <= j < |listing| && !Counted(fs, path, listing[j], magic) ==>
      path + [listing[j]] in fs' && fs'[path + [listing[j]]] == fs[path + [listing[j]]]
    ensures readable && IsDir(fs, path) ==> fs' == Sweep(fs, table, path, listing, magic, v)
    ensures forall q :: q in fs && Untouched(q, path, listing) ==> q in fs' && fs'[q] == fs[q]
    ensures forall q :: q in fs' && q !in fs ==> Placed(q, path, listing)
  {
    fs' := fs;
    processed, success := 0, 0;
    if !readable || !IsDir(fs, path) {
      // os.listdir raises; the handler logs and returns
      return;
    }
    for i := 0 to |listing|
      invariant Swept(fs, fs', table, path, listing, i, magic, v, processed, success)
    {
      fs', processed, success := OrganizeEntry(fs, fs', table, path, listing, i, magic, v, processed, success);
    }
    assert listing[..|listing|] == listing;
  }

  /** The state of `organize(path)`, below the directory `path`, after the first `i`
      listed names. */
  ghost predicate Swept(fs: FS, fs': FS, table: MappingTable, path: Path, listing: seq<string>, i: nat,
                        magic: Path -> Detection<string>, v: Variant, processed: nat, success: nat)
    requires i <= |listing|
  {
    && success == processed == Detected(fs, path, listing[..i], magic)
    && IsDir(fs', path)
    && ListedKept(fs, fs', path, listing, i, magic)
    && fs' == Sweep(fs, table, path, listing[..i], magic, v)
    && (forall q :: q in fs && Untouched(q, path, listing) ==> q in fs' && fs'[q] == fs[q])
    && (forall q :: q in fs' && q !in fs ==> Placed(q, path, listing))
  }

  /** One pass of the loop of `organize(path)`: the `i`-th listed name, when it is still
      a regular file and its type is detected, is handed to `check_and_move` and counted. */
  method OrganizeEntry(fs: FS, fs1: FS, table: MappingTable, path: Path, listing: seq<string>, i: nat,
                       magic: Path -> Detection<string>, v: Variant, processed: nat, success: nat)
    returns (fs2: FS, processed': nat, success': nat)
    requires i < |listing| && IsListing(fs, path, listing)
    requires Swept(fs, fs1, table, path, listing, i, magic, v, processed, success)
    ensures Swept(fs, fs2, table, path, listing, i + 1, magic, v, processed', success')
  {
    var file := listing[i];
    fs2, processed', success' := fs1, processed, success;
    if IsFile(fs1, path + [file]) {
      match magic(path + [file])
      case Raised =>
        // the type could not be determined: counted in neither total
        SweptSkip(fs, fs1, table, path, listing, i, magic, v, processed, success);
      case Returned(detected) =>
        var fileType := LookupType(v, detected);
        var r := CheckAndMove(fs1, table, file, fileType, path, v);
        SweptMove(fs, fs1, table, path, listing, i, magic, v, processed, success);
        fs2 := r.0;
        if r.1 {
          success' := success + 1;
        }
        processed' := processed + 1;
    } else {
      SweptSkip(fs, fs1, table, path, listing, i, magic, v, processed, success);
    }
  }

  /** The `i`-th listed name is, at its turn, a regular file of `path` whose type is
      detected exactly when it was one in `fs`; and `Sweep` over the first `i + 1` names
      is one more step of `Sweep` over the first `i`. */
  lemma SweptTurn(fs: FS, fs1: FS, table: MappingTable, path: Path, listing: seq<string>, i: nat,
                  magic: Path -> Detection<string>, v: Variant, processed: nat, success: nat)
    requires i < |listing| && IsListing(fs, path, listing)
    requires Swept(fs, fs1, table, path, listing, i, magic, v, processed, success)
    ensures var x := listing[i];
      && (Counted(fs1, path, x, magic) <==> Counted(fs, path, x, magic))
      && Detected(fs, path, listing[..i + 1], magic)
         == Detected(fs, path, listing[..i], magic) + (if Counted(fs, path, x, magic) then 1 else 0)
      && Sweep(fs, table, path, listing[..i + 1], magic, v)
         == if Counted(fs1, path, x, magic)
            then CheckAndMove(fs1, table, x, LookupType(v, magic(path + [x]).value), path, v).0
            else fs1
  {
    assert listing[..i + 1][..i] == listing[..i];
    assert listing[..i + 1][i] == listing[i];
  }

  /** A name that is not counted leaves the state as it was, one name further on. */
  lemma SweptSkip(fs: FS, fs1: FS, table: MappingTable, path: Path, listing: seq<string>, i: nat,
                  magic: Path -> Detection<string>, v: Variant, processed: nat, success: nat)
    requires i < |listing| && IsListing(fs, path, listing)
    requires Swept(fs, fs1, table, path, listing, i, magic, v, processed, success)
    requires !Counted(fs1, path, listing[i], magic)
    ensures Swept(fs, fs1, table, path, listing, i + 1, magic, v, processed, success)
  {
    SweptTurn(fs, fs1, table, path, listing, i, magic, v, processed, success);
  }

  /** A counted name is handed to `check_and_move`, which reports True, and the state
      advances by one processed and one successful file. */
  lemma SweptMove(fs: FS, fs1: FS, table: MappingTable, path: Path, listing: seq<string>, i: nat,
                  magic: Path -> Detection<string>, v: Variant, processed: nat, success: nat)
    requires i < |listing| && IsListing(fs, path, listing)
    requires Swept(fs, fs1, table, path, listing, i, magic, v, processed, success)
    requires Counted(fs1, path, listing[i], magic)
    ensures var x := listing[i];
      var r := CheckAndMove(fs1, table, x, LookupType(v, magic(path + [x]).value), path, v);
      && r.1
      && Swept(fs, r.0, table, path, listing, i + 1, magic, v, processed + 1, success + 1)
  {
    var file := listing[i];
    var fileType := LookupType(v, magic(path + [file]).value);
    SweptTurn(fs, fs1, table, path, listing, i, magic, v, processed, success);
    CheckAndMoveNewEntries(fs1, table, file, fileType, path, v);
    CheckAndMoveTouches(fs1, table, file, fileType, path, v);
    var fs2 := CheckAndMove(fs1, table, file, fileType, path, v).0;
    StepFrame(fs, fs1, fs2, path, listing, i, magic, Resolve(table, fileType));
  }

  /** One call of `check_and_move` for the counted `i`-th listed name keeps the later
      names, the uncounted earlier ones and everything outside `path` as they were, and
      adds only entries `Placed` below `path`. */
  lemma StepFrame(fs: FS, fs1: FS, fs2: FS, path: Path, listing: seq<string>, i: nat,
                  magic: Path -> Detection<string>, folder: string)
    requires i < |listing| && NoDuplicates(listing) && Counted(fs, path, listing[i], magic)
    requires ListedKept(fs, fs1, path, listing, i, magic)
    requires forall q :: q in fs && Untouched(q, path, listing) ==> q in fs1 && fs1[q] == fs[q]
    requires forall q :: q in fs1 && q !in fs ==> Placed(q, path, listing)
    requires forall q :: q in fs1 && q != path + [listing[i]] && !(path + [folder] < q) ==> q in fs2 && fs2[q] == fs1[q]
    requires var file := listing[i];
      forall q :: q in fs1 && q != path + [file] && q != path + [folder, file] && q != path + [folder, file, file] ==>
        q in fs2 && fs2[q] == fs1[q]
    requires var file := listing[i];
      forall q :: q in fs2 && q !in fs1 ==> q == path + [folder] || q == path + [folder, file] || q == path + [folder, file, file]
    ensures ListedKept(fs, fs2, path, listing, i + 1, magic)
    ensures forall q :: q in fs && Untouched(q, path, listing) ==> q in fs2 && fs2[q] == fs[q]
    ensures forall q :: q in fs2 && q !in fs ==> Placed(q, path, listing)
  {
    var file := listing[i];
    forall j | 0 <= j < |listing| && (i + 1 <= j || !Counted(fs, path, listing[j], magic))
      ensures path + [listing[j]] in fs && path + [listing[j]] in fs2 && fs2[path + [listing[j]]] == fs[path + [listing[j]]]
    {
      var q := path + [listing[j]];
      assert j != i;
      assert q[|path|] == listing[j] != listing[i] == (path + [listing[i]])[|path|];
      assert !(path + [folder] < q) by {
        assert |q| == |path + [folder]|;
      }
    }
    assert file in listing;
    forall q | q in fs && Untouched(q, path, listing)
      ensures q in fs2 && fs2[q] == fs[q]
    {
      assert path < path + [file] && path < path + [folder, file] && path < path + [folder, file, file];
      assert (path + [folder, file])[|path| + 1] == file && (path + [folder, file, file])[|path| + 2] == file;
    }
    forall q | q in fs2 && q !in fs
      ensures Placed(q, path, listing)
    {
      if q !in fs1 {
        assert file in listing;
        assert (path + [folder])[..|path|] == path;
        assert (path + [folder, file])[..|path|] == path;
        assert (path + [folder, file, file])[..|path|] == path;
      }
    }
  }
}
