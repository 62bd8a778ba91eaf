# filedog, modelled in Dafny

filedog sorts the files of a directory into sub-folders by content type. It comes in three
programs that share one rule set:

- The cross-platform command line organizer, `src/cli.py`. It sanitises folder names,
  renames on a name clash and keeps running statistics.
- The package organizer, `src/core/organizer.py`, and its older standalone copy, `main.py`.
  Neither renames on a name clash.
- The directory watcher, `src/core/file_watcher.py`. It debounces create and move events
  per path, then hands each file to the package organizer. It also keeps a persisted list
  of watched directories, a running flag and a handle per watched directory.

The model has five modules:

- `FileSystem` (`filesystem.dfy`): the directory tree as a value. `FS` maps each path to a
  file or a directory. The module models `Path.mkdir(parents, exist_ok)`, `shutil.move`
  for a regular file, `Path.stem`/`Path.suffix`, and the outcome of a foreign detector
  (`Raised` or `Returned`).
- `FolderMapping` (`folder_mapping.dfy`): `get_folder_name`, shared by all three copies.
  The `file_type` object is an ordered list of (key, folder) pairs, so "first key in
  declared order" can be stated. The module also holds the built-in table of `src/cli.py`.
- `Cli` (`cli.dfy`): `src/cli.py`.
- `Organizer` (`organizer.dfy`): `src/core/organizer.py` and `main.py`, told apart by
  `Variant`. They differ in two places only: the lower-casing of the detected type, and
  `mkdir(parents=True, exist_ok=True)` against a plain `mkdir()`.
- `FileWatcher` (`file_watcher.dfy`): `src/core/file_watcher.py`. Timers are ids taken
  from a counter. A timer expiring is an explicit `Fire(path, id)` event, which acts only
  while that id is the live one for the path.

Operations that change the tree take the old tree and return the new one. Three objects
are classes whose fields the methods update: `Cli.CliOrganizer` (the statistics),
`FileWatcher.Handler` (the pending-timer map) and `FileWatcher.WatcherService` (the
stored configuration, the running flag and the watched-path map). The package organizer
and `main.py` keep no state between calls: they are functions on tree values and one
method, `Organizer.Organize`, whose loop carries the tree and the two counts.

Where the copies differ from one another, or from what their names suggest, the model
follows the code:

- Unlike `_move_file` in `src/cli.py`, `move_data` in `src/core/organizer.py` and
  `main.py` targets `path/folder/file` and does not rename on a clash. A same-named file already in the folder is replaced
  (`Organizer.MoveDataOverwrites`). The renaming scenario (`report.pdf` becomes
  `report_1.pdf`, then `report_2.pdf`) therefore holds for `src/cli.py` only
  (`Cli.CollisionExample`). The watcher goes through the package organizer, so it
  overwrites as well.
- `check_and_move` returns True even when the move failed
  (`Organizer.CheckAndMoveTrueDespiteFailedMove`).
- `start_watching` with an empty watch list still starts the service, with zero watches.
- `stop_watching` does not cancel the handler's pending timers
  (`FileWatcher.WatcherService.StopWatching` leaves `handler.pending` as it was).

## Model

| member | source | states |
|---|---|---|
| FolderMapping.ExactFolder | src/cli.py:117-118 | no folder is found only when no key equals the type |
| FolderMapping.PrefixFolder | src/cli.py:121-123 | no folder is found only when no key is a prefix of the type |
| FolderMapping.Resolve | src/cli.py:114-126 | the result is the default or the folder of some entry of the table |
| FolderMapping.ResolveExact | src/cli.py:117-118 | with unique keys, a type equal to a key gets that key's folder, whatever prefix keys also match |
| FolderMapping.ResolveFirstPrefix | src/cli.py:121-123 | with no exact key, the first key in table order that the type starts with wins |
| FolderMapping.ResolveDefault | src/cli.py:125-126 | a type that no key equals or prefixes goes to the default folder |
| FolderMapping.FirstMatchNotLongest | src/core/organizer.py:84-89 | first match, not longest: with "text/" before "text/x-", "text/x-python" goes to the folder of "text/" |
| FolderMapping.DefaultTableImage | src/cli.py:43 | in the built-in table, "image/png" goes to "Images" by the "image/" prefix |
| FolderMapping.DefaultTablePdf | src/cli.py:53 | in the built-in table, "application/pdf" goes to "PDFs" by exact key |
| FileSystem.Mkdir | src/core/organizer.py:58 | mkdir keeps every entry, adds only directories along the path, accepts an existing directory only with exist_ok and fails on a file |
| FileSystem.MkdirWellFormed | src/core/organizer.py:58 | every directory mkdir adds, with or without `parents`, hangs below a directory, so a well-formed tree stays well formed |
| FileSystem.ShutilMove | src/core/organizer.py:68 | the move succeeds exactly when the source exists, the target's parent is a directory and a move into a directory finds no same-named entry; the source's node is then at the target and nothing else changes |
| FileSystem.MoveTarget | src/core/organizer.py:68 | the destination `shutil.move` writes to is the destination path, or one level inside it when that is a directory |
| FileSystem.ShutilMoveWellFormed | src/core/organizer.py:68 | a successful move of a file keeps a well-formed tree well formed |
| FileSystem.ListDir | src/cli.py:163 | a name is listed exactly when that child exists |
| FileSystem.RFind | src/cli.py:164-165 | the index of the last occurrence of the character, or -1 when there is none |
| FileSystem.Stem | src/cli.py:164 | `Path.stem`: a prefix of the name, empty only for an empty name; with StemSuffixSplit, exactly the name before its suffix |
| FileSystem.Suffix | src/cli.py:165 | `Path.suffix`: an end of the name, either empty or a dot followed by dot-free text, and never the whole name; it is empty only when every dot after the first character and before the last one is followed by another dot, so it is the text from the last dot whenever that dot is neither the first nor the last character |
| FileSystem.StemSuffixSplit | src/cli.py:164-165 | stem followed by suffix is the name; a suffix is empty or a dot followed by dot-free text; a leading dot does not start a suffix |
| Cli.LoadConfig | src/cli.py:90-99 | a missing or unparsable file yields the built-in table |
| Cli.FileType | src/cli.py:101-112 | detection never fails: with libmagic, a raising call gives application/octet-stream and an answer is returned unchanged; without it, a raising, absent or empty guess gives application/octet-stream and a non-empty guess is returned unchanged |
| Cli.ReplaceChar | src/cli.py:133 | `replace(c, '_')`: each occurrence of `c` becomes `_`, every other character stays in place |
| Cli.MaskForbidden | src/cli.py:131-133 | each character Windows forbids in names becomes `_`, every other character stays in place, so none of the forbidden characters remains |
| Cli.Leading | src/cli.py:136 | the number of spaces and dots the name starts with: all characters before it are such, the one at it is not |
| Cli.Trailing | src/cli.py:136 | the number of spaces and dots the name ends with: all characters after the cut are such, the one before it is not |
| Cli.Strip | src/cli.py:136 | the result is the slice of the input after its leading spaces and dots with only spaces and dots after it, and starts and ends with neither, so exactly the spaces and dots at both ends are removed; an input without such ends is returned as it is |
| Cli.SanitizedIsClean | src/cli.py:131-142 | a sanitised name is non-empty, free of the characters Windows forbids in names and neither starts nor ends with a space or a dot |
| Cli.SanitizeIdempotent | src/cli.py:128-142 | sanitising twice gives the same name as sanitising once |
| Cli.SanitizeFolderName | src/cli.py:128-142 | the per-character replacing loop, the strip and the "Unknown" fallback compute the sanitised name, which is clean |
| Cli.Digits | src/cli.py:166 | `str(counter)`: a non-empty string of decimal digits, without a leading zero for a positive counter |
| Cli.DigitsRoundTrip | src/cli.py:166 | the decimal text of a counter parses back to the counter |
| Cli.CandidateShape | src/cli.py:164-166 | a candidate is the original name's stem, `_`, the counter's digits and the original name's suffix, in that order |
| Cli.CandidateLonger | src/cli.py:164-166 | every `stem_N.suffix` candidate is longer than the original name, so never equal to it |
| Cli.CandidateInjective | src/cli.py:164-166 | different counters give different candidate names |
| Cli.ChooseTargetName | src/cli.py:158-167 | the chosen name is free; it is the original name if that is free, else the candidate for the smallest counter not taken, built from the original stem and suffix; the search stops within as many steps as there are entries |
| Cli.CollisionExample | src/cli.py:164-166 | `report.pdf` gives `report_1.pdf` then `report_2.pdf` (not `report_1_2.pdf`); `.bashrc` gives `.bashrc_1`; `archive.tar.gz` gives `archive.tar_1.gz` |
| Cli.ValidateDirectory | src/cli.py:178-202 | the path is returned exactly when it is an existing, readable directory |
| Cli.CreateDirectory | src/cli.py:144-154 | the folder is `path/sanitised name`; creation succeeds exactly when that is a directory already or is absent below a directory, and adds only that folder |
| Cli.MoveFile | src/cli.py:156-176 | the move succeeds exactly when the source exists and the target folder is a directory; the file lands under its first free name, which did not exist, so no file content is lost; a failed move changes nothing |
| Cli.RegularFiles | src/cli.py:221 | exactly the listed names that are regular files, without duplicates |
| Cli.RegularFilesInOrder | src/cli.py:221 | the regular files keep the order of the listing: of any two, the earlier one is listed before the later one |
| Cli.OrganizeFile | src/cli.py:247-257 | folder creation fails exactly when a regular file has the folder's name; otherwise the file is moved into the folder under its first free name; every other entry is unchanged, and the only entries added are the folder, as a directory, and the file's new path inside it |
| Cli.OrganizeNext | src/cli.py:238-262 | one file of the loop outside a dry run: the file goes to the folder of its detected type, and the counters, the reported fates, the untouched entries, the regular files at the directory's level and the new-entry bound all advance from the first `i` files to the first `i + 1` |
| Cli.OrganizeFiles | src/cli.py:230-266 | outside a dry run each file adds exactly one to moved plus errors and moved equals processed; each file's reported fate holds, relative to the sanitised folder its detected type maps to in the configuration: a moved one is no longer a regular file at its place and its content sits directly in that folder; a file is reported as failing only when a regular file already has that folder's name, and it is then still in place; when no regular file has that name the file is moved; moved counts the moved fates; every entry other than the scanned files keeps its value, and every new entry is a folder of the directory or an entry of one; a dry run changes no file and counts every file as processed; no content is lost |
| Cli.CliOrganizer.constructor | src/cli.py:30-37 | the configuration is loaded and all four counters start at zero |
| Cli.CliOrganizer.OrganizeDirectory | src/cli.py:204-272 | counters never decrease, since they add up across calls; moved stays at most processed and skipped never changes; an invalid or unreadable directory leaves the tree and every counter unchanged; on a valid one the increments are those of OrganizeFiles over its regular files, each regular file's fate in the folder of its detected type is reported as there, every entry other than those files keeps its value, and every new entry is a folder of the directory or an entry of one |
| Organizer.Lower | src/core/organizer.py:36 | each character is lower-cased, the length is kept |
| Organizer.LookupType | src/core/organizer.py:36 | the package looks up exactly the lower-cased type, which holds no capital letter; the script looks up the type as detected |
| Organizer.LowerCasingMatters | main.py:87 | an upper-case type finds its folder in the package but falls back to the default in the script |
| Organizer.CheckCreateDir | src/core/organizer.py:55-61 | an existing entry of the folder's name is left alone; otherwise the folder is created; afterwards the folder exists and every earlier entry is kept; the script fails exactly when the folder is absent and the parent is not a directory |
| Organizer.CheckCreateDirTwice | src/core/organizer.py:56-61 | calling it again after a success changes nothing |
| Organizer.MkdirVariantsDiffer | main.py:12-18 | below a missing directory the script's plain mkdir fails where the package creates the whole chain |
| Organizer.MoveData | src/core/organizer.py:63-73 | `shutil.move` to `path/folder/file` with no renaming; it succeeds exactly when the source exists and, if `path/folder/file` is a directory, that directory has no entry named `file` (the file then goes inside it); otherwise, exactly when `path/folder` is a directory (a same-named file there is replaced); the source's node is then at the target and the source is gone; on failure nothing changes; nothing outside the folder changes except the source, and the only entry added is the target |
| Organizer.MoveDataOverwrites | src/core/organizer.py:66-68 | moving onto an existing same-named file in the folder succeeds and that file's content is lost |
| Organizer.CheckAndMove | src/core/organizer.py:94-110 | False exactly when creating the folder fails, never when the scanned path is a directory; nothing outside the folder changes except the source |
| Organizer.CheckAndMoveLands | src/core/organizer.py:94-110 | in a directory whose type folder is absent or a directory holding no entry of the file's name, the file ends up at `path/folder/file` and True is returned: `D/report.pdf` becomes `D/PDFs/report.pdf` |
| Organizer.CheckAndMoveNewEntries | src/core/organizer.py:94-110 | below a directory the only entries added are the type's folder, the file inside it, or the file inside a same-named directory there |
| Organizer.CheckAndMoveTouches | src/core/organizer.py:63-110 | below a directory every entry other than the moved file and its two possible landing places in the type's folder keeps its value, the folder itself included |
| Organizer.CheckAndMoveWellFormed | src/core/organizer.py:94-110 | creating the folder and moving the file into it keep a well-formed tree well formed |
| Organizer.CheckAndMoveTrueDespiteFailedMove | src/core/organizer.py:100-110 | a folder name taken by a regular file: nothing moves and True is returned |
| Organizer.Organize | src/core/organizer.py:22-50 | only listed regular files whose type is detected are processed; each processed file counts as a success, so success never exceeds processed; a failed listing changes nothing; on a readable directory the new tree is the result of `check_and_move` applied, in listing order, to each name that is at its turn a regular file with a detected type (`Sweep`); every listed entry that is not processed keeps its value; nothing outside the directory changes, nor any deeper entry whose name is not listed; every new entry is a folder of the directory or holds a listed name one or two levels inside such a folder |
| Organizer.OrganizeEntry | src/core/organizer.py:28-46 | one pass of the loop: the counts, the fold of `check_and_move` over the names so far, the kept entries and the new-entry bound all advance from the first `i` names to the first `i + 1` |
| FileWatcher.Handler.constructor | src/core/file_watcher.py:13-20 | a new handler holds no pending timers |
| FileWatcher.Handler.Schedule | src/core/file_watcher.py:38-49 | the path's old timer is replaced by a fresh one, which is then its only live timer; other paths keep their timers |
| FileWatcher.Handler.OnCreated | src/core/file_watcher.py:26-30 | a file creation schedules its source path; directory events change nothing |
| FileWatcher.Handler.OnMoved | src/core/file_watcher.py:32-36 | a file move schedules its destination path; directory events change nothing |
| FileWatcher.Handler.ProcessFile | src/core/file_watcher.py:51-76 | the file is handed to check_and_move with its lower-cased type only when it is still a regular file and detection succeeds; otherwise nothing changes; in every case the path's pending entry is gone |
| FileWatcher.Handler.Fire | src/core/file_watcher.py:42-46 | a cancelled timer does nothing; the live one clears the path's entry and, when the path is still a regular file of detected type, gives the tree of check_and_move on it with the lower-cased type, else leaves the tree alone |
| FileWatcher.Handler.DebounceScenario | src/core/file_watcher.py:40-48 | a file reported twice is processed once, by the second timer: the tree afterwards is that of one check_and_move on the original tree, and only the path's entry leaves the pending map |
| FileWatcher.LoadWatchConfig | src/core/file_watcher.py:94-114 | a missing or unreadable file gives the default: no directories, disabled |
| FileWatcher.FirstIndex | src/core/file_watcher.py:160 | the position of the first occurrence |
| FileWatcher.RemoveFirst | src/core/file_watcher.py:160 | one element shorter: the first occurrence is dropped, the rest keep their order |
| FileWatcher.RemoveFirstKeepsOthers | src/core/file_watcher.py:160 | every other directory is on the list afterwards exactly when it was before |
| FileWatcher.RemoveFirstNoDuplicates | src/core/file_watcher.py:159-160 | from a duplicate-free list the directory is gone entirely and the list stays duplicate-free |
| FileWatcher.AddThenRemove | src/core/file_watcher.py:141-160 | appending an unlisted directory and removing it restores the list |
| FileWatcher.WatcherService.constructor | src/core/file_watcher.py:82-88 | a new service is stopped, watches nothing and owns a fresh handler |
| FileWatcher.WatcherService.WatchedDirectories | src/core/file_watcher.py:173-176 | the list of the loaded configuration, empty when there is no saved one |
| FileWatcher.WatcherService.IsWatcherEnabled | src/core/file_watcher.py:249-252 | the flag of the loaded configuration, false when there is no saved one |
| FileWatcher.WatcherService.GetStatus | src/core/file_watcher.py:254-261 | active watches equal the size of the watched-path map, are at most the number of listed directories, and are zero when stopped |
| FileWatcher.WatcherService.StartWatchingDirectory | src/core/file_watcher.py:178-185 | the directory is mapped to the handle the counter gives next, the counter advances, and store, running flag and observer stay as they were |
| FileWatcher.WatcherService.AddWatchedDirectory | src/core/file_watcher.py:127-152 | True exactly for an existing directory not yet listed; it is then appended and saved, and watched at once when running; otherwise nothing changes; a duplicate-free list stays so |
| FileWatcher.WatcherService.RemoveWatchedDirectory | src/core/file_watcher.py:154-171 | True exactly for a listed directory; its first occurrence is removed and saved, its watch dropped when running; otherwise nothing changes |
| FileWatcher.WatcherService.StartWatching | src/core/file_watcher.py:187-215 | refused when running or disabled; otherwise runs and watches exactly the listed directories that exist, even when none are listed |
| FileWatcher.WatcherService.StopWatching | src/core/file_watcher.py:217-236 | refused when stopped; otherwise drops the observer and every watch; pending timers stay |
| FileWatcher.WatcherService.SetWatcherEnabled | src/core/file_watcher.py:238-247 | the flag is saved and the service then runs exactly when enabled |

Every class keeps an invariant, `Valid()`, that its methods preserve:

- `CliOrganizer`: moved is at most processed.
- `Handler`: timer ids are below the counter and distinct between paths.
- `WatcherService`: an observer is held exactly while running, a stopped service watches
  nothing, and every watched directory is on the stored list.

## Left out

- Printing and logging, `argparse`, the progress lines and `_print_summary`: they produce
  text only.
- Threads, `threading.Timer`, the lock, the 2 s delay and the 5 s join: the debouncer is
  sequential, with explicit schedule and expire events. The race on the pending map is
  not captured: an old timer already running can delete the entry of a newer schedule.
- The watchdog `Observer`: it is modelled by its handle map. A failing
  `observer.schedule`, `observer.start` or `observer.stop` is not modelled.
- libmagic and `mimetypes`: they are function parameters whose answer depends only on
  the path.
- JSON reading and writing: configurations are records. A configuration file that lacks
  `file_type`, `default` or `watched_directories` is not modelled (the source raises a
  `KeyError` there). `save_config` always succeeds.
- A parsed configuration's `file_type` object is a list of key/folder pairs, one per key.
  A JSON text that repeats a key is not modelled: `json.load` keeps the last value for
  it, whereas `Resolve` on a list with a repeated key would take the first.
- `Path.resolve` is the identity: paths are already absolute and free of symbolic links.
- Real filesystem errors other than missing entries, wrong entry kinds and name clashes
  are not modelled: permissions (apart from the readable flag of a scan), full disks,
  cross-device copies. So `Cli.MoveFile` fails only for a missing source or target
  folder, and `Organizer.CheckAndMove` returns False only when the scanned path is not a
  directory.
- File contents are abstract ids; moving directories and folder names containing a path
  separator are not modelled.
- Names are compared exactly, as on a case-sensitive file system. On the case-insensitive
  default file systems of Windows and macOS, `target_path.exists()` in `_move_file` and
  `shutil.move` also match a name that differs only in case; the model's name sets do not.
- pathlib drops empty and `.` components, so `path / ""` is `path` itself. The folder
  names of `src/core/organizer.py` and `main.py` come from the configuration unsanitised;
  a folder name `""` or `"."` there makes `move_data` move the file onto itself and
  report True, where the model creates and moves into a directory of that name.
- pathlib keeps `..` components. A folder name `".."` from the configuration of
  `src/core/organizer.py` or `main.py` makes `check_create_dir` accept the parent
  directory, and `move_data` then moves the file one level up and reports True. The model
  instead creates and moves into a directory literally named `..`.
- Organizer.Lower: lower-cases ASCII letters only, not the full Unicode `str.lower`.
- The GUI, the tray application, the background service, startup registration and the
  launcher are outside the organizing engine.
