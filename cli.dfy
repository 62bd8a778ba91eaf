/** The command-line organizer of src/cli.py: content-type detection with its fallback,
    folder-name sanitising, collision-free target naming, directory validation, and the
    statistics kept across `organize_directory` calls. */
module Cli {
  import opened FileSystem
  import opened FolderMapping

  /** The generic identifier used whenever detection gives no answer. */
  const Octet: string := "application/octet-stream"

  /** The `--config` argument as the organizer finds it. `NoFile` stands for no argument
      or a path that does not exist. */
  datatype ConfigFile = NoFile | Unparsable | Parsed(table: MappingTable)

  /** `_load_config`: the parsed file, or the built-in table when there is none or it
      does not parse. */
  function LoadConfig(file: ConfigFile): (table: MappingTable)
    ensures !file.Parsed? ==> table == DefaultTable
  {
    match file
    case Parsed(t) => t
    case _ => DefaultTable
  }

  /** `_get_file_type`: libmagic when it is installed, else a guess from the file name.
      It never fails: a detector that raises, and a guess that finds nothing, both give
      `Octet`; otherwise the detector's own answer is returned. */
  function FileType(hasMagic: bool, magic: Path -> Detection<string>,
                    guess: Path -> Detection<Option<string>>, p: Path): (t: string)
    ensures hasMagic && magic(p).Raised? ==> t == Octet
    ensures hasMagic && magic(p).Returned? ==> t == magic(p).value
    ensures !hasMagic && (guess(p).Raised? || guess(p) == Returned(None) || guess(p) == Returned(Some(""))) ==> t == Octet
    ensures !hasMagic && guess(p).Returned? && guess(p).value.Some? && guess(p).value.value != [] ==> t == guess(p).value.value
  {
    if hasMagic then
      match magic(p)
      case Raised => Octet
      case Returned(m) => m
    else
      match guess(p)
      case Raised => Octet
      case Returned(None) => Octet
      case Returned(Some(m)) => if m == [] then Octet else m
  }

  // ---------------------------------------------------------------- sanitising

  /** The characters Windows refuses in a file name. */
  const Forbidden: string := "<>:\"|?*"

  /** The characters `strip` removes from both ends. */
  predicate IsEdge(c: char) {
    c == ' ' || c == '.'
  }

  /** `s.replace(c, '_')` */
  function ReplaceChar(s: string, c: char): (r: string)
    ensures |r| == |s|
    ensures forall i :: 0 <= i < |s| ==> r[i] == if s[i] == c then '_' else s[i]
  {
    seq(|s|, i requires 0 <= i < |s| => if s[i] == c then '_' else s[i])
  }

  /** Every forbidden character of `s` turned into an underscore, every other kept. */
  function MaskForbidden(s: string): (r: string)
    ensures |r| == |s| && forall i :: 0 <= i < |r| ==> r[i] !in Forbidden
    ensures forall i :: 0 <= i < |s| ==> r[i] == if s[i] in Forbidden then '_' else s[i]
  {
    seq(|s|, i requires 0 <= i < |s| => if s[i] in Forbidden then '_' else s[i])
  }

  /** How many spaces and dots `s` starts with. */
  function Leading(s: string): (n: nat)
    ensures n <= |s|
    ensures forall i :: 0 <= i < n ==> IsEdge(s[i])
    ensures n < |s| ==> !IsEdge(s[n])
  {
    if s != [] && IsEdge(s[0]) then
      var n := 1 + Leading(s[1..]);
      assert forall i :: 1 <= i < n ==> s[i] == s[1..][i - 1];
      n
    else 0
  }

  /** How many spaces and dots `s` ends with. */
  function Trailing(s: string): (n: nat)
    ensures n <= |s|
    ensures forall i :: |s| - n <= i < |s| ==> IsEdge(s[i])
    ensures n < |s| ==> !IsEdge(s[|s| - n - 1])
  {
    if s != [] && IsEdge(s[|s| - 1]) then
      var n := 1 + Trailing(s[..|s| - 1]);
      assert forall i :: |s| - n <= i < |s| - 1 ==> s[i] == s[..|s| - 1][i];
      n
    else 0
  }

  /** `strip(' .')`: the characters of `s` without the spaces and dots at either end.
      `r` is the slice of `s` after its leading edge characters with only edge characters
      after it; as `r` neither starts nor ends with one, no other slice qualifies. */
  function Strip(s: string): (r: string)
    ensures |r| <= |s|
    ensures var a := Leading(s);
      && a + |r| <= |s| && r == s[a..a + |r|]
      && (forall i :: 0 <= i < a ==> IsEdge(s[i]))
      && (forall i :: a + |r| <= i < |s| ==> IsEdge(s[i]))
    ensures r == [] || (!IsEdge(r[0]) && !IsEdge(r[|r| - 1]))
    ensures (s == [] || (!IsEdge(s[0]) && !IsEdge(s[|s| - 1]))) ==> r == s
  {
    var a := Leading(s);
    if a == |s| then []
    else
      var b := |s| - Trailing(s);
      assert a < b;
      s[a..b]
  }

  /** What `_sanitize_folder_name` computes, stated character by character. */
  function Sanitized(folderName: string): string {
    var t := Strip(MaskForbidden(folderName));
    if t == [] then "Unknown" else t
  }

  /** A sanitised name is a usable folder name on every platform the tool targets. */
  ghost predicate IsCleanName(r: string) {
    && r != []
    && (forall i :: 0 <= i < |r| ==> r[i] !in Forbidden)
    && !IsEdge(r[0]) && !IsEdge(r[|r| - 1])
  }

  lemma SanitizedIsClean(folderName: string)
    ensures IsCleanName(Sanitized(folderName))
  {
    var m := MaskForbidden(folderName);
    var t := Strip(m);
    var a := Leading(m);
    forall i | 0 <= i < |t|
      ensures t[i] !in Forbidden
    {
      assert t[i] == m[a + i];
    }
  }

  /** Sanitising a sanitised name changes nothing. */
  lemma SanitizeIdempotent(folderName: string)
    ensures Sanitized(Sanitized(folderName)) == Sanitized(folderName)
  {
    var r := Sanitized(folderName);
    SanitizedIsClean(folderName);
    assert MaskForbidden(r) == r;
  }

  /** `_sanitize_folder_name`: one replacing pass per forbidden character, then the strip,
      then the "Unknown" fallback for an empty result. */
  method SanitizeFolderName(folderName: string) returns (r: string)
    ensures r == Sanitized(folderName)
    ensures IsCleanName(r)
  {
    var name := folderName;
    for k := 0 to |Forbidden|
      invariant |name| == |folderName|
      invariant forall i :: 0 <= i < |name| ==>
        name[i] == if folderName[i] in Forbidden[..k] then '_' else folderName[i]
    {
      name := ReplaceChar(name, Forbidden[k]);
      assert Forbidden[..k + 1] == Forbidden[..k] + [Forbidden[k]];
    }
    assert Forbidden[..|Forbidden|] == Forbidden;
    assert name == MaskForbidden(folderName);
    name := Strip(name);
    if name == [] {
      name := "Unknown";
    }
    r := name;
    SanitizedIsClean(folderName);
  }

  // ---------------------------------------------------------------- target naming

  function DigitChar(d: nat): (c: char)
    requires d < 10
    ensures '0' <= c <= '9'
  {
    ('0' as int + d) as char
  }

  function DigitValue(c: char): nat {
    if '0' <= c <= '9' then c as int - '0' as int else 0
  }

  /** `str(n)` for a natural number: decimal, no leading zeros. */
  function Digits(n: nat): (s: string)
    ensures |s| >= 1 && forall i :: 0 <= i < |s| ==> '0' <= s[i] <= '9'
    ensures n > 0 ==> s[0] != '0'
  {
    if n < 10 then [DigitChar(n)] else Digits(n / 10) + [DigitChar(n % 10)]
  }

  /** `int(s)` for a string of decimal digits. */
  function ParseDigits(s: string): nat {
    if s == [] then 0 else ParseDigits(s[..|s| - 1]) * 10 + DigitValue(s[|s| - 1])
  }

  lemma {:induction false} DigitsRoundTrip(n: nat)
    ensures ParseDigits(Digits(n)) == n
  {
    if n >= 10 {
      var s := Digits(n / 10) + [DigitChar(n % 10)];
      assert s[..|s| - 1] == Digits(n / 10);
      DigitsRoundTrip(n / 10);
    }
  }

  /** `f"{stem}_{counter}{suffix}"`, always built from the original name. */
  function Candidate(name: string, counter: nat): string {
    Stem(name) + "_" + Digits(counter) + Suffix(name)
  }

  /** A candidate keeps the original name's stem in front and its suffix at the end, with
      `_` and the counter's digits in between. */
  lemma CandidateShape(name: string, counter: nat)
    ensures var r, stem, suffix := Candidate(name, counter), Stem(name), Suffix(name);
      && |r| == |stem| + 1 + |Digits(counter)| + |suffix|
      && r[..|stem|] == stem && r[|stem|] == '_'
      && r[|stem| + 1..|r| - |suffix|] == Digits(counter)
      && r[|r| - |suffix|..] == suffix
  {
    var stem, digits, suffix := Stem(name), Digits(counter), Suffix(name);
    var x := stem + "_";
    var y := x + digits;
    var r := y + suffix;
    assert r[..|y|] == y && r[|y|..] == suffix;
    assert y[..|x|] == x && y[|x|..] == digits;
    assert r[..|stem|] == y[..|stem|] == x[..|stem|] == stem;
    assert r[|stem|] == y[|stem|] == x[|stem|];
    assert r[|stem| + 1..|r| - |suffix|] == y[|x|..];
  }

  lemma CandidateLonger(name: string, counter: nat)
    ensures |Candidate(name, counter)| > |name|
  {
    StemSuffixSplit(name);
  }

  /** Different counters give different names, so the search never retries a name. */
  lemma CandidateInjective(name: string, j: nat, k: nat)
    requires Candidate(name, j) == Candidate(name, k)
    ensures j == k
  {
    var a := Stem(name) + "_";
    var c := Candidate(name, j);
    var dj, dk := Digits(j), Digits(k);
    assert |dj| == |dk|;
    assert dj == c[|a|..|a| + |dj|];
    assert dk == c[|a|..|a| + |dk|];
    DigitsRoundTrip(j);
    DigitsRoundTrip(k);
  }

  /** `chosen` is the name `_move_file` settles on after `n` collisions: the source name
      when it is free, else the candidate for the smallest counter that is free. */
  ghost predicate FirstFreeName(existing: set<string>, name: string, n: nat, chosen: string) {
    && chosen !in existing
    && (n == 0 ==> chosen == name)
    && (n > 0 ==> chosen == Candidate(name, n) && name in existing
                  && forall k :: 1 <= k < n ==> Candidate(name, k) in existing)
  }

  /** The `while target_path.exists()` loop of `_move_file`. Every collision is with a
      distinct existing entry, so the counter never passes the number of entries. */
  method ChooseTargetName(existing: set<string>, name: string) returns (target: string, ghost n: nat)
    ensures FirstFreeName(existing, name, n, target)
    ensures n <= |existing|
  {
    target := name;
    var counter: nat := 1;
    ghost var tested: set<string> := {};
    while target in existing
      invariant counter >= 1
      invariant counter == 1 ==> target == name
      invariant counter > 1 ==> target == Candidate(name, counter - 1) && name in existing
      invariant forall k :: 1 <= k < counter - 1 ==> Candidate(name, k) in existing
      invariant tested <= existing && |tested| == counter - 1 && target !in tested
      invariant |tested| <= |existing|
      invariant forall x :: x in tested ==> x == name || exists k :: 1 <= k < counter - 1 && x == Candidate(name, k)
      decreases |existing| - |tested|
    {
      assert |tested + {target}| == |tested| + 1;
      tested := tested + {target};
      SubsetCard(tested, existing);
      NextCandidateUntested(name, counter, tested);
      target := Candidate(name, counter);
      counter := counter + 1;
    }
    n := counter - 1;
  }

  /** A name tested so far is `name` or an earlier candidate, so the next candidate is new. */
  lemma NextCandidateUntested(name: string, counter: nat, tested: set<string>)
    requires counter >= 1
    requires forall x :: x in tested ==> x == name || exists k :: 1 <= k < counter && x == Candidate(name, k)
    ensures Candidate(name, counter) !in tested
  {
    forall x | x in tested
      ensures x != Candidate(name, counter)
    {
      if x == name {
        CandidateLonger(name, counter);
      } else {
        var k :| 1 <= k < counter && x == Candidate(name, k);
        if x == Candidate(name, counter) {
          CandidateInjective(name, k, counter);
        }
      }
    }
  }

  /** The end-to-end collision scenario: with `report.pdf` and `report_1.pdf` taken, the
      next file of that name becomes `report_2.pdf`. */
  lemma CollisionExample()
    ensures Candidate("report.pdf", 1) == "report_1.pdf"
    ensures Candidate("report.pdf", 2) == "report_2.pdf"
    ensures Candidate(".bashrc", 1) == ".bashrc_1"
    ensures Candidate("archive.tar.gz", 1) == "archive.tar_1.gz"
    ensures FirstFreeName({"report.pdf", "report_1.pdf"}, "report.pdf", 2, "report_2.pdf")
  {
    var r, b, a := "report.pdf", ".bashrc", "archive.tar.gz";
    assert r[6] == '.' && r[7] != '.' && r[8] != '.' && r[9] != '.';
    assert RFind(r, '.') == 6;
    assert b[0] == '.' && forall j :: 1 <= j < |b| ==> b[j] != '.';
    assert RFind(b, '.') == 0;
    assert a[11] == '.' && a[12] != '.' && a[13] != '.';
    assert RFind(a, '.') == 11;
  }

  // ---------------------------------------------------------------- filesystem steps

  /** `_validate_directory`: the path itself when it is an existing, readable directory
      (`readable` is whether listing it is permitted). */
  function ValidateDirectory(fs: FS, p: Path, readable: bool): (r: Option<Path>)
    ensures r.Some? <==> IsDir(fs, p) && readable
    ensures r.Some? ==> r.value == p
  {
    if !Exists(fs, p) then None
    else if !IsDir(fs, p) then None
    else if !readable then None
    else Some(p)
  }

  /** `_create_directory`: `(path / sanitized).mkdir(exist_ok=True)`. It succeeds when the
      folder already is a directory, or is absent below an existing directory. */
  method CreateDirectory(fs: FS, path: Path, folderName: string) returns (fs': FS, folderPath: Path, ok: bool)
    ensures folderPath == path + [Sanitized(folderName)]
    ensures ok <==> IsDir(fs, folderPath) || (folderPath !in fs && IsDir(fs, path))
    ensures ok ==> fs' == (if folderPath in fs then fs else fs[folderPath := Dir])
    ensures !ok ==> fs' == fs
  {
    var name := SanitizeFolderName(folderName);
    folderPath := path + [name];
    assert Parent(folderPath) == path;
    match Mkdir(fs, folderPath, false, true)
    case Ok(fs1) =>
      fs', ok := fs1, true;
    case Err(_) =>
      fs', ok := fs, false;
  }

  /** `_move_file`: move `source` into `targetDir` under the first free name. Nothing is
      overwritten: the chosen entry did not exist, and every other entry is unchanged. */
  method MoveFile(fs: FS, source: Path, targetDir: Path) returns (fs': FS, ok: bool, ghost chosen: string, ghost n: nat)
    requires source != [] && (source in fs ==> fs[source].File?)
    ensures FirstFreeName(ListDir(fs, targetDir), Name(source), n, chosen)
    ensures ok <==> source in fs && IsDir(fs, targetDir)
    ensures ok ==> targetDir + [chosen] !in fs && fs' == (fs - {source})[targetDir + [chosen] := fs[source]]
    ensures !ok ==> fs' == fs
    ensures KeepsContents(fs, fs')
  {
    var name;
    name, n := ChooseTargetName(ListDir(fs, targetDir), Name(source));
    chosen := name;
    var target := targetDir + [name];
    assert target !in fs && !IsDir(fs, target);
    assert Parent(target) == targetDir;
    match ShutilMove(fs, source, target)
    case Ok(fs1) =>
      fs', ok := fs1, true;
      assert fs1 == (fs - {source})[target := fs[source]];
      assert KeepsContents(fs, fs') by {
        forall q | q in fs && fs[q].File?
          ensures fs[q] in fs'.Values
        {
          if q == source {
            assert fs'[target] == fs[q];
          } else {
            assert fs'[q] == fs[q];
          }
        }
      }
    case Err(_) =>
      fs', ok := fs, false;
      assert KeepsContents(fs, fs') by {
        forall q | q in fs && fs[q].File?
          ensures fs[q] in fs'.Values
        {
          assert fs'[q] == fs[q];
        }
      }
  }

  /** `[f for f in path.iterdir() if f.is_file()]`, in listing order. */
  function RegularFiles(fs: FS, d: Path, names: seq<string>): (files: seq<string>)
    ensures forall x :: x in files <==> x in names && IsFile(fs, d + [x])
    ensures NoDuplicates(names) ==> NoDuplicates(files)
    ensures |files| <= |names|
  {
    if names == [] then []
    else
      var init := names[..|names| - 1];
      var last := names[|names| - 1];
      assert names == init + [last];
      assert NoDuplicates(names) ==> NoDuplicates(init) && last !in init;
      RegularFiles(fs, d, init) + (if IsFile(fs, d + [last]) then [last] else [])
  }

  /** `x` occurs in `names` before `y` does. */
  ghost predicate ListedBefore(names: seq<string>, x: string, y: string) {
    exists a, b :: 0 <= a < b < |names| && names[a] == x && names[b] == y
  }

  /** Of any two elements of `files`, the earlier one is listed before the later one. */
  ghost predicate InListingOrder(files: seq<string>, names: seq<string>) {
    forall i, j :: 0 <= i < j < |files| ==> ListedBefore(names, files[i], files[j])
  }

  /** The regular files keep the order of the listing. */
  lemma {:induction false} RegularFilesInOrder(fs: FS, d: Path, names: seq<string>)
    ensures InListingOrder(RegularFiles(fs, d, names), names)
  {
    if names != [] {
      var init := names[..|names| - 1];
      var last := names[|names| - 1];
      RegularFilesInOrder(fs, d, init);
      var front := RegularFiles(fs, d, init);
      var files := RegularFiles(fs, d, names);
      assert files == front + (if IsFile(fs, d + [last]) then [last] else []);
      forall i, j | 0 <= i < j < |files|
        ensures ListedBefore(names, files[i], files[j])
      {
        if j < |front| {
          assert ListedBefore(init, front[i], front[j]);
          var a, b :| 0 <= a < b < |init| && init[a] == front[i] && init[b] == front[j];
          assert names[a] == files[i] && names[b] == files[j];
        } else {
          assert files[i] in init;
          var a :| 0 <= a < |init| && init[a] == files[i];
          assert names[a] == files[i] && names[|names| - 1] == files[j];
        }
      }
    }
  }

  // ---------------------------------------------------------------- the organizer

  /** How the body of the per-file loop of `organize_directory` ended. */
  datatype Outcome = CreateFailed | Moved | MoveFailed

  /** One file of a real (non dry-run) scan: `_create_directory` then `_move_file`. With
      the file present and the scanned directory a directory, creating the folder fails
      exactly when a regular file already has the folder's name; otherwise the file ends up
      inside the folder under its first free name and nothing else changes. */
  method OrganizeFile(fs: FS, path: Path, file: string, folderName: string) returns (fs': FS, outcome: Outcome, ghost chosen: string)
    requires IsDir(fs, path) && IsFile(fs, path + [file])
    ensures outcome != MoveFailed
    ensures outcome == CreateFailed <==> IsFile(fs, path + [Sanitized(folderName)])
    ensures outcome == CreateFailed ==> fs' == fs
    ensures outcome == Moved ==>
      var folderPath := path + [Sanitized(folderName)];
      && (exists n :: FirstFreeName(ListDir(fs, folderPath), file, n, chosen))
      && folderPath + [chosen] !in fs
      && path + [file] !in fs'
      && folderPath + [chosen] in fs' && fs'[folderPath + [chosen]] == fs[path + [file]]
    ensures forall q :: q in fs && q != path + [file] ==> q in fs' && fs'[q] == fs[q]
    ensures var folderPath := path + [Sanitized(folderName)];
      forall q :: q in fs' && q !in fs ==> q == folderPath + [chosen] || (q == folderPath && fs'[q] == Dir)
    ensures KeepsContents(fs, fs')
  {
    var fs1, targetDir, created := CreateDirectory(fs, path, folderName);
    if !created {
      fs', outcome, chosen := fs, CreateFailed, file;
      KeepsContentsRefl(fs);
      return;
    }
    AfterCreate(fs, fs1, path + [file], targetDir);
    var fs2, success, c, n := MoveFile(fs1, path + [file], targetDir);
    chosen := c;
    MovedFrame(fs, fs1, fs2, path + [file], targetDir + [chosen]);
    fs' := fs2;
    outcome := if success then Moved else MoveFailed;
  }

  /** The tree after `_create_directory` succeeded: the folder is a directory, the old
      entries are kept, and the folder holds what it held before. */
  lemma AfterCreate(fs: FS, fs1: FS, src: Path, folderPath: Path)
    requires IsFile(fs, src) && src != folderPath
    requires IsDir(fs, folderPath) || folderPath !in fs
    requires fs1 == if folderPath in fs then fs else fs[folderPath := Dir]
    ensures Grows(fs, fs1) && IsDir(fs1, folderPath) && IsFile(fs1, src)
    ensures forall q :: q in fs1 && q !in fs ==> q == folderPath && fs1[q] == Dir
    ensures ListDir(fs1, folderPath) == ListDir(fs, folderPath)
  {
    if folderPath !in fs {
      ListDirAddSelf(fs, folderPath);
    }
  }

  /** Moving `src` to a fresh `target` after `fs` has grown into `fs1`. */
  lemma MovedFrame(fs: FS, fs1: FS, fs2: FS, src: Path, target: Path)
    requires Grows(fs, fs1) && src in fs && target !in fs1
    requires fs2 == (fs1 - {src})[target := fs1[src]]
    ensures target !in fs && src !in fs2 && target in fs2 && fs2[target] == fs[src]
    ensures forall q :: q in fs && q != src ==> q in fs2 && fs2[q] == fs[q]
    ensures forall q :: q in fs2 && q != target ==> q in fs1 && fs2[q] == fs1[q]
    ensures KeepsContents(fs, fs2)
  {
    forall q | q in fs && fs[q].File?
      ensures fs[q] in fs2.Values
    {
      if q == src {
        assert fs2[target] == fs[q];
      } else {
        assert fs2[q] == fs[q];
      }
    }
  }

  /** Adding the directory `d` itself adds no entry inside `d`. */
  lemma ListDirAddSelf(fs: FS, d: Path)
    ensures ListDir(fs[d := Dir], d) == ListDir(fs, d)
  {
    forall n
      ensures d + [n] in fs[d := Dir] <==> d + [n] in fs
    {
      assert |d + [n]| != |d|;
    }
  }

  lemma KeepsContentsRefl(fs: FS)
    ensures KeepsContents(fs, fs)
  {
    forall q | q in fs && fs[q].File?
      ensures fs[q] in fs.Values
    {
    }
  }

  /** `CrossPlatformFileOrganizer`: its mapping table and its `stats` counters. The
      counters start at zero and are never reset, so they add up across scans. */
  class CliOrganizer {
    const config: MappingTable
    var processed: nat
    var moved: nat
    var errors: nat
    var skipped: nat

    /** A file only counts as moved once it has been counted as processed. */
    ghost predicate Valid()
      reads this
    {
      moved <= processed
    }

    constructor (file: ConfigFile)
      ensures Valid()
      ensures config == LoadConfig(file)
      ensures processed == 0 && moved == 0 && errors == 0 && skipped == 0
    {
      config := LoadConfig(file);
      processed, moved, errors, skipped := 0, 0, 0, 0;
    }

    /** `organize_directory(target_path, dry_run)`. `listing` is the order in which
        `iterdir` yields the directory's entries, `readable` whether it may be listed.
        An invalid directory or one without regular files leaves everything as it was.
        Outside a dry run, `outcomes` and `targets` report the fate of each regular file. */
    method OrganizeDirectory(fs: FS, targetPath: Path, dryRun: bool, readable: bool, listing: seq<string>,
                             hasMagic: bool, magic: Path -> Detection<string>,
                             guess: Path -> Detection<Option<string>>)
      returns (fs': FS, ghost outcomes: seq<Outcome>, ghost targets: seq<Path>)
      requires Valid()
      requires IsListing(fs, targetPath, listing)
      modifies this
      ensures Valid()
      ensures skipped == old(skipped)
      ensures var files := if readable && IsDir(fs, targetPath) then |RegularFiles(fs, targetPath, listing)| else 0;
        && processed - old(processed) <= files
        && (!dryRun ==> moved - old(moved) == processed - old(processed)
                        && moved + errors == old(moved) + old(errors) + files)
        && (dryRun ==> processed == old(processed) + files)
      ensures dryRun ==> fs' == fs && moved == old(moved) && errors == old(errors)
      ensures processed >= old(processed) && moved >= old(moved) && errors >= old(errors)
      ensures !(readable && IsDir(fs, targetPath)) ==>
        fs' == fs && processed == old(processed) && moved == old(moved) && errors == old(errors)
      ensures !dryRun && readable && IsDir(fs, targetPath) ==>
        && Reported(fs, fs', targetPath, RegularFiles(fs, targetPath, listing), config, hasMagic, magic, guess,
                    outcomes, targets)
        && moved - old(moved) == Count(outcomes, Moved)
      ensures forall q :: q in fs && !Scanned(q, targetPath, RegularFiles(fs, targetPath, listing)) ==>
        q in fs' && fs'[q] == fs[q]
      ensures forall q :: q in fs' && q !in fs ==> InFolderOf(q, targetPath)
      ensures KeepsContents(fs, fs')
    {
      fs' := fs;
      outcomes, targets := [], [];
      KeepsContentsRefl(fs);
      var p, m, e := 0, 0, 0;
      var valid := ValidateDirectory(fs, targetPath, readable);
      if valid.Some? {
        var path := valid.value;
        var files := RegularFiles(fs, path, listing);
        // an empty directory is reported and left alone
        if files != [] {
          fs', p, m, e, outcomes, targets := OrganizeFiles(fs, path, files, config, dryRun, hasMagic, magic, guess);
        }
      }
      processed, moved, errors := processed + p, moved + m, errors + e;
    }
  }

  /** `q` is `path/x` for one of the names `x` of `files`. */
  predicate Scanned(q: Path, path: Path, files: seq<string>) {
    |q| == |path| + 1 && q[..|path|] == path && q[|path|] in files
  }

  /** `q` is a folder directly inside `path`, or an entry directly inside such a folder. */
  predicate InFolderOf(q: Path, path: Path) {
    |path| < |q| <= |path| + 2 && q[..|path|] == path
  }

  /** How many of the outcomes are `o`. */
  function Count(outcomes: seq<Outcome>, o: Outcome): (n: nat)
    ensures n <= |outcomes|
    ensures n == 0 <==> o !in outcomes
  {
    if outcomes == [] then 0
    else Count(outcomes[..|outcomes| - 1], o) + if outcomes[|outcomes| - 1] == o then 1 else 0
  }

  lemma CountAppend(outcomes: seq<Outcome>, x: Outcome, o: Outcome)
    ensures Count(outcomes + [x], o) == Count(outcomes, o) + if x == o then 1 else 0
  {
    assert (outcomes + [x])[..|outcomes|] == outcomes;
  }

  /** The folder `organize_directory` sends `src` to: the sanitised name of the folder
      its detected type maps to. */
  function TypeFolder(config: MappingTable, hasMagic: bool, magic: Path -> Detection<string>,
                      guess: Path -> Detection<Option<string>>, src: Path): string
  {
    Sanitized(Resolve(config, FileType(hasMagic, magic, guess, src)))
  }

  /** What became of the scanned file `src` of `path`, whose type's folder is `folder`,
      reported as `o` and `t`. A moved file's content is at `t`, an entry of `path/folder`,
      and no regular file is left at `src`. A file is reported `CreateFailed` only when a
      regular file of `path` has the folder's name, and is then still in place; when no
      regular file had that name, the file is moved. */
  ghost predicate Fate(fs: FS, fs': FS, path: Path, src: Path, folder: string, o: Outcome, t: Path) {
    && src in fs && o != MoveFailed
    && (o == Moved ==>
          && |t| == |path| + 2 && t[..|path| + 1] == path + [folder]
          && t in fs' && fs'[t] == fs[src] && !IsFile(fs', src))
    && (o == CreateFailed ==> IsFile(fs, path + [folder]) && src in fs' && fs'[src] == fs[src])
    && (!IsFile(fs, path + [folder]) ==> o == Moved)
  }

  /** `outcomes[j]` and `targets[j]` report the fate of `path/files[j]`, sent to the
      folder of its type. */
  ghost predicate Reported(fs: FS, fs': FS, path: Path, files: seq<string>, config: MappingTable, hasMagic: bool,
                           magic: Path -> Detection<string>, guess: Path -> Detection<Option<string>>,
                           outcomes: seq<Outcome>, targets: seq<Path>) {
    && |outcomes| == |files| && |targets| == |files|
    && forall j :: 0 <= j < |files| ==>
         Fate(fs, fs', path, path + [files[j]], TypeFolder(config, hasMagic, magic, guess, path + [files[j]]),
              outcomes[j], targets[j])
  }

  /** The per-file loop of `organize_directory` over `files`, the regular files of `path`
      in listing order, giving the increments of `processed`, `moved` and `errors`.
      Outside a dry run the ghost `outcomes` and `targets` report each file's fate in the
      folder of its type, and `moved` counts the files reported moved. Only the scanned
      files leave their place, and every new entry is a folder of `path` or an entry of
      one. */
  method OrganizeFiles(fs: FS, path: Path, files: seq<string>, config: MappingTable, dryRun: bool,
                       hasMagic: bool, magic: Path -> Detection<string>,
                       guess: Path -> Detection<Option<string>>)
    returns (fs': FS, processed: nat, moved: nat, errors: nat, ghost outcomes: seq<Outcome>, ghost targets: seq<Path>)
    requires IsDir(fs, path) && NoDuplicates(files)
    requires forall j :: 0 <= j < |files| ==> IsFile(fs, path + [files[j]])
    ensures processed <= |files|
    ensures !dryRun ==> moved == processed && moved + errors == |files|
    ensures !dryRun ==>
      && Reported(fs, fs', path, files, config, hasMagic, magic, guess, outcomes, targets)
      && moved == Count(outcomes, Moved)
    ensures dryRun ==> fs' == fs && processed == |files| && moved == 0 && errors == 0
    ensures forall q :: q in fs && !Scanned(q, path, files) ==> q in fs' && fs'[q] == fs[q]
    ensures forall q :: q in fs' && q !in fs ==> InFolderOf(q, path)
    ensures KeepsContents(fs, fs')
  {
    fs' := fs;
    KeepsContentsRefl(fs);
    processed, moved, errors := 0, 0, 0;
    outcomes, targets := [], [];
    for i := 0 to |files|
      invariant Progress(fs, fs', path, files, config, hasMagic, magic, guess, i, dryRun,
                         processed, moved, errors, outcomes, targets)
    {
      if !dryRun {
        fs', processed, moved, errors, outcomes, targets :=
          OrganizeNext(fs, fs', path, files, i, config, hasMagic, magic, guess, processed, moved, errors, outcomes, targets);
      } else {
        processed := processed + 1;
      }
    }
    assert files[..|files|] == files;
  }

  /** One pass of the loop of `organize_directory` outside a dry run: the `i`-th file's
      type and folder are looked up, the file is organized, and the counters and the
      reports advance by that file. */
  method OrganizeNext(fs: FS, fs1: FS, path: Path, files: seq<string>, i: nat, config: MappingTable,
                      hasMagic: bool, magic: Path -> Detection<string>, guess: Path -> Detection<Option<string>>,
                      processed: nat, moved: nat, errors: nat, ghost outcomes: seq<Outcome>, ghost targets: seq<Path>)
    returns (fs2: FS, processed': nat, moved': nat, errors': nat, ghost outcomes': seq<Outcome>, ghost targets': seq<Path>)
    requires i < |files| && NoDuplicates(files) && IsFile(fs, path + [files[i]])
    requires Progress(fs, fs1, path, files, config, hasMagic, magic, guess, i, false,
                      processed, moved, errors, outcomes, targets)
    ensures Progress(fs, fs2, path, files, config, hasMagic, magic, guess, i + 1, false,
                     processed', moved', errors', outcomes', targets')
  {
    var file := files[i];
    var fileType := FileType(hasMagic, magic, guess, path + [file]);
    var folderName := Resolve(config, fileType);
    assert IsFile(fs1, path + [file]);
    var outcome;
    ghost var chosen;
    fs2, outcome, chosen := OrganizeFile(fs1, path, file, folderName);
    ghost var folder := Sanitized(folderName);
    ProgressStep(fs, fs1, fs2, path, files, config, hasMagic, magic, guess, i,
                 processed, moved, errors, outcomes, targets, outcome, folder, chosen);
    outcomes', targets' := outcomes + [outcome], targets + [path + [folder] + [chosen]];
    moved' := moved + if outcome == Moved then 1 else 0;
    errors' := errors + if outcome == Moved then 0 else 1;
    // `_create_directory` raising skips the `processed` increment
    processed' := processed + if outcome != CreateFailed then 1 else 0;
  }

  /** The state of `OrganizeFiles` after the first `i` of `files`. */
  ghost predicate Progress(fs: FS, fs': FS, path: Path, files: seq<string>, config: MappingTable, hasMagic: bool,
                           magic: Path -> Detection<string>, guess: Path -> Detection<Option<string>>,
                           i: nat, dryRun: bool, processed: nat, moved: nat, errors: nat,
                           outcomes: seq<Outcome>, targets: seq<Path>)
    requires i <= |files|
  {
    && processed <= i && KeepsContents(fs, fs')
    && (!dryRun ==>
          && moved == processed && moved + errors == i
          && Reported(fs, fs', path, files[..i], config, hasMagic, magic, guess, outcomes, targets)
          && moved == Count(outcomes, Moved)
          && ScanKept(fs, fs', path, files, i))
    && (dryRun ==> fs' == fs && processed == i && moved == 0 && errors == 0)
  }

  /** Organizing the `i`-th file outside a dry run advances `Progress` by one file. */
  lemma ProgressStep(fs: FS, fs1: FS, fs2: FS, path: Path, files: seq<string>, config: MappingTable, hasMagic: bool,
                     magic: Path -> Detection<string>, guess: Path -> Detection<Option<string>>, i: nat,
                     processed: nat, moved: nat, errors: nat, outcomes: seq<Outcome>, targets: seq<Path>,
                     o: Outcome, folder: string, chosen: string)
    requires i < |files| && NoDuplicates(files)
    requires Progress(fs, fs1, path, files, config, hasMagic, magic, guess, i, false,
                      processed, moved, errors, outcomes, targets)
    requires folder == TypeFolder(config, hasMagic, magic, guess, path + [files[i]])
    requires o != MoveFailed
    requires o == CreateFailed <==> IsFile(fs1, path + [folder])
    requires o == CreateFailed ==> fs2 == fs1
    requires o == Moved ==>
      && path + [files[i]] !in fs2
      && path + [folder] + [chosen] in fs2 && fs2[path + [folder] + [chosen]] == fs1[path + [files[i]]]
    requires forall q :: q in fs1 && q != path + [files[i]] ==> q in fs2 && fs2[q] == fs1[q]
    requires forall q :: q in fs2 && q !in fs1 ==>
      q == path + [folder] + [chosen] || (q == path + [folder] && fs2[q] == Dir)
    requires KeepsContents(fs1, fs2)
    ensures Progress(fs, fs2, path, files, config, hasMagic, magic, guess, i + 1, false,
                     processed + (if o != CreateFailed then 1 else 0), moved + (if o == Moved then 1 else 0),
                     errors + (if o == Moved then 0 else 1), outcomes + [o], targets + [path + [folder] + [chosen]])
  {
    assert IsFile(fs1, path + [folder]) ==> IsFile(fs, path + [folder]);
    ScanFates(fs, fs1, fs2, path, files, config, hasMagic, magic, guess, i, outcomes, targets, o, folder, chosen);
    ScanFrame(fs, fs1, fs2, path, files, i, path + [folder], chosen);
    CountAppend(outcomes, o, Moved);
    KeepsContentsTransitive(fs, fs1, fs2);
  }

  /** After the first `i` of `files` are organized: `path` is still a directory, the
      later files are untouched, only the first `i` files may have left their place,
      every regular file directly in `path` was one there before with the same content,
      and every new entry is a folder of `path` or an entry of one. */
  ghost predicate ScanKept(fs: FS, fs': FS, path: Path, files: seq<string>, i: nat)
    requires i <= |files|
  {
    && IsDir(fs', path)
    && (forall j :: i <= j < |files| ==>
          path + [files[j]] in fs && path + [files[j]] in fs' && fs'[path + [files[j]]] == fs[path + [files[j]]])
    && (forall q :: q in fs && !Scanned(q, path, files[..i]) ==> q in fs' && fs'[q] == fs[q])
    && (forall x :: IsFile(fs', path + [x]) ==> IsFile(fs, path + [x]) && fs'[path + [x]] == fs[path + [x]])
    && (forall q :: q in fs' && q !in fs ==> InFolderOf(q, path))
  }

  /** The fates reported so far still hold after the `i`-th file is organized, and the
      `i`-th file's fate is added. */
  lemma ScanFates(fs: FS, fs1: FS, fs2: FS, path: Path, files: seq<string>, config: MappingTable, hasMagic: bool,
                  magic: Path -> Detection<string>, guess: Path -> Detection<Option<string>>, i: nat,
                  outcomes: seq<Outcome>, targets: seq<Path>, o: Outcome, folder: string, chosen: string)
    requires i < |files| && NoDuplicates(files)
    requires Reported(fs, fs1, path, files[..i], config, hasMagic, magic, guess, outcomes, targets)
    requires path + [files[i]] in fs && path + [files[i]] in fs1 && fs1[path + [files[i]]] == fs[path + [files[i]]]
    requires IsFile(fs1, path + [folder]) ==> IsFile(fs, path + [folder])
    requires folder == TypeFolder(config, hasMagic, magic, guess, path + [files[i]])
    requires o != MoveFailed
    requires o == CreateFailed <==> IsFile(fs1, path + [folder])
    requires o == CreateFailed ==> fs2 == fs1
    requires o == Moved ==>
      && path + [files[i]] !in fs2
      && path + [folder] + [chosen] in fs2 && fs2[path + [folder] + [chosen]] == fs1[path + [files[i]]]
    requires forall q :: q in fs1 && q != path + [files[i]] ==> q in fs2 && fs2[q] == fs1[q]
    requires forall q :: q in fs2 && q !in fs1 ==>
      q == path + [folder] + [chosen] || (q == path + [folder] && fs2[q] == Dir)
    ensures Reported(fs, fs2, path, files[..i + 1], config, hasMagic, magic, guess,
                     outcomes + [o], targets + [path + [folder] + [chosen]])
  {
    var src := path + [files[i]];
    var t := path + [folder] + [chosen];
    var files', outcomes', targets' := files[..i + 1], outcomes + [o], targets + [t];
    forall j | 0 <= j < i + 1
      ensures Fate(fs, fs2, path, path + [files'[j]], TypeFolder(config, hasMagic, magic, guess, path + [files'[j]]),
                   outcomes'[j], targets'[j])
    {
      if j < i {
        assert files'[j] == files[..i][j] == files[j];
        var srcj := path + [files[j]];
        assert srcj != src by {
          assert srcj[|path|] == files[j] != files[i] == src[|path|];
        }
        FateKept(fs, fs1, fs2, path, srcj, TypeFolder(config, hasMagic, magic, guess, srcj), outcomes[j], targets[j],
                 src, path + [folder], chosen);
      } else {
        assert files'[j] == files[i];
        NewFate(fs, fs1, fs2, path, files, i, folder, o, chosen);
      }
    }
  }

  /** A reported fate of a file other than `moved` survives a step that changes only
      `moved` and adds only `folderPath` and `folderPath/chosen`. */
  lemma FateKept(fs: FS, fs1: FS, fs2: FS, path: Path, src: Path, folder: string, o: Outcome, t: Path,
                 moved: Path, folderPath: Path, chosen: string)
    requires Fate(fs, fs1, path, src, folder, o, t)
    requires src != moved && |src| == |path| + 1 && |moved| == |path| + 1 && |folderPath| == |path| + 1
    requires forall q :: q in fs1 && q != moved ==> q in fs2 && fs2[q] == fs1[q]
    requires forall q :: q in fs2 && q !in fs1 ==> q == folderPath + [chosen] || (q == folderPath && fs2[q] == Dir)
    ensures Fate(fs, fs2, path, src, folder, o, t)
  {
    if o == Moved {
      assert t != moved by { assert |t| != |moved|; }
      assert src != folderPath + [chosen] by { assert |src| != |folderPath + [chosen]|; }
    }
  }

  /** The fate of the `i`-th file after it is organized. */
  lemma NewFate(fs: FS, fs1: FS, fs2: FS, path: Path, files: seq<string>, i: nat, folder: string,
                o: Outcome, chosen: string)
    requires i < |files|
    requires path + [files[i]] in fs && path + [files[i]] in fs1 && fs1[path + [files[i]]] == fs[path + [files[i]]]
    requires IsFile(fs1, path + [folder]) ==> IsFile(fs, path + [folder])
    requires o != MoveFailed
    requires o == CreateFailed <==> IsFile(fs1, path + [folder])
    requires o == CreateFailed ==> fs2 == fs1
    requires o == Moved ==>
      && path + [files[i]] !in fs2
      && path + [folder] + [chosen] in fs2 && fs2[path + [folder] + [chosen]] == fs1[path + [files[i]]]
    ensures Fate(fs, fs2, path, path + [files[i]], folder, o, path + [folder] + [chosen])
  {
    var t := path + [folder] + [chosen];
    assert t[..|path| + 1] == path + [folder];
  }

  /** Organizing the `i`-th file keeps the scanned directory, the later files, and every
      entry that is not among the first `i + 1` files; it leaves no new regular file
      directly in `path`, and what it adds lies in a folder of `path`. */
  lemma ScanFrame(fs: FS, fs1: FS, fs2: FS, path: Path, files: seq<string>, i: nat, folderPath: Path, chosen: string)
    requires i < |files| && NoDuplicates(files) && ScanKept(fs, fs1, path, files, i)
    requires |folderPath| == |path| + 1 && folderPath[..|path|] == path
    requires forall q :: q in fs1 && q != path + [files[i]] ==> q in fs2 && fs2[q] == fs1[q]
    requires path + [files[i]] in fs2 ==> fs2[path + [files[i]]] == fs1[path + [files[i]]]
    requires forall q :: q in fs2 && q !in fs1 ==> q == folderPath + [chosen] || (q == folderPath && fs2[q] == Dir)
    ensures ScanKept(fs, fs2, path, files, i + 1)
  {
    var src := path + [files[i]];
    assert path != src;
    ScanLater(fs, fs1, fs2, path, files, i);
    ScanOthers(fs, fs1, fs2, path, files, i);
    ScanLevel(fs, fs1, fs2, path, src, folderPath, chosen);
  }

  /** The files after the `i`-th are untouched by the step on the `i`-th. */
  lemma ScanLater(fs: FS, fs1: FS, fs2: FS, path: Path, files: seq<string>, i: nat)
    requires i < |files| && NoDuplicates(files)
    requires forall j :: i <= j < |files| ==>
      path + [files[j]] in fs && path + [files[j]] in fs1 && fs1[path + [files[j]]] == fs[path + [files[j]]]
    requires forall q :: q in fs1 && q != path + [files[i]] ==> q in fs2 && fs2[q] == fs1[q]
    ensures forall j :: i + 1 <= j < |files| ==>
      path + [files[j]] in fs && path + [files[j]] in fs2 && fs2[path + [files[j]]] == fs[path + [files[j]]]
  {
    forall j | i < j < |files|
      ensures path + [files[j]] in fs && path + [files[j]] in fs2 && fs2[path + [files[j]]] == fs[path + [files[j]]]
    {
      assert (path + [files[j]])[|path|] == files[j];
    }
  }

  /** What is not among the first `i + 1` files keeps its value through the step on
      the `i`-th. */
  lemma ScanOthers(fs: FS, fs1: FS, fs2: FS, path: Path, files: seq<string>, i: nat)
    requires i < |files|
    requires forall q :: q in fs && !Scanned(q, path, files[..i]) ==> q in fs1 && fs1[q] == fs[q]
    requires forall q :: q in fs1 && q != path + [files[i]] ==> q in fs2 && fs2[q] == fs1[q]
    ensures forall q :: q in fs && !Scanned(q, path, files[..i + 1]) ==> q in fs2 && fs2[q] == fs[q]
  {
    var src := path + [files[i]];
    assert files[..i + 1] == files[..i] + [files[i]];
    assert src[..|path|] == path && src[|path|] == files[i];
    assert Scanned(src, path, files[..i + 1]);
    forall q | q in fs && !Scanned(q, path, files[..i + 1])
      ensures q in fs2 && fs2[q] == fs[q]
    {
      assert !Scanned(q, path, files[..i]) && q != src;
    }
  }

  /** A step that changes only `src`, a direct entry of `path`, and adds only
      `folderPath` and `folderPath/chosen` leaves no new regular file directly in `path`,
      and adds only entries of a folder of `path`. */
  lemma ScanLevel(fs: FS, fs1: FS, fs2: FS, path: Path, src: Path, folderPath: Path, chosen: string)
    requires |folderPath| == |path| + 1 && folderPath[..|path|] == path
    requires forall q :: q in fs1 && q != src ==> q in fs2 && fs2[q] == fs1[q]
    requires src in fs2 ==> src in fs1 && fs2[src] == fs1[src]
    requires forall q :: q in fs2 && q !in fs1 ==> q == folderPath + [chosen] || (q == folderPath && fs2[q] == Dir)
    requires forall x :: IsFile(fs1, path + [x]) ==> IsFile(fs, path + [x]) && fs1[path + [x]] == fs[path + [x]]
    requires forall q :: q in fs1 && q !in fs ==> InFolderOf(q, path)
    ensures forall x :: IsFile(fs2, path + [x]) ==> IsFile(fs, path + [x]) && fs2[path + [x]] == fs[path + [x]]
    ensures forall q :: q in fs2 && q !in fs ==> InFolderOf(q, path)
  {
    forall x | IsFile(fs2, path + [x])
      ensures IsFile(fs, path + [x]) && fs2[path + [x]] == fs[path + [x]]
    {
      var q := path + [x];
      assert q != folderPath + [chosen] by { assert |folderPath + [chosen]| != |q|; }
      assert IsFile(fs1, q) && fs2[q] == fs1[q];
    }
    forall q | q in fs2 && q !in fs
      ensures InFolderOf(q, path)
    {
      if q !in fs1 {
        assert (folderPath + [chosen])[..|path|] == folderPath[..|path|];
      }
    }
  }
}
