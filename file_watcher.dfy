/** The directory watcher of src/core/file_watcher.py, made sequential: the debouncing
    event handler, where a timer is an id and its expiry an explicit `Fire` event, and the
    service that keeps the persisted watch list, the running flag and the map from watched
    directory to observer handle. */
module FileWatcher {
  import opened FileSystem
  import opened FolderMapping
  import opened Organizer

  /** A watchdog event: whether it is about a directory, its source and destination. */
  datatype FsEvent = FsEvent(isDirectory: bool, srcPath: Path, destPath: Path)

  /** `FileOrganizerHandler`. Each pending path holds the id of its one live timer; ids
      come from a counter, so an id once cancelled is never live again. */
  class Handler {
    const table: MappingTable
    var pending: map<Path, nat>
    var nextTimer: nat

    ghost predicate Valid()
      reads this
    {
      && (forall p :: p in pending ==> pending[p] < nextTimer)
      && (forall p, q :: p in pending && q in pending && p != q ==> pending[p] != pending[q])
    }

    /** The timer `id` for `p` has not been cancelled or consumed. */
    predicate Live(p: Path, id: nat)
      reads this
    {
      p in pending && pending[p] == id
    }

    constructor (table: MappingTable)
      ensures Valid() && this.table == table && pending == map[] && nextTimer == 0
    {
      this.table := table;
      pending := map[];
      nextTimer := 0;
    }

    /** `_schedule_file_processing(p)`: cancel the live timer of `p`, if any, and start a
        new one. Afterwards the new timer is the only live one for `p`. */
    method Schedule(p: Path) returns (id: nat)
      requires Valid()
      modifies this
      ensures Valid()
      ensures id == old(nextTimer) && nextTimer == old(nextTimer) + 1
      ensures pending == old(pending)[p := id]
      ensures forall other :: other != id ==> !Live(p, other)
      ensures forall k :: old(Live(p, k)) ==> !Live(p, k)
    {
      id := nextTimer;
      pending := pending[p := id];
      nextTimer := nextTimer + 1;
    }

    /** `on_created`: a file creation schedules its own path. */
    method OnCreated(event: FsEvent)
      requires Valid()
      modifies this
      ensures Valid()
      ensures event.isDirectory ==> pending == old(pending) && nextTimer == old(nextTimer)
      ensures !event.isDirectory ==> pending == old(pending)[event.srcPath := old(nextTimer)] && nextTimer == old(nextTimer) + 1
    {
      if !event.isDirectory {
        var _ := Schedule(event.srcPath);
      }
    }

    /** `on_moved`: a file moved into place schedules its destination. */
    method OnMoved(event: FsEvent)
      requires Valid()
      modifies this
      ensures Valid()
      ensures event.isDirectory ==> pending == old(pending) && nextTimer == old(nextTimer)
      ensures !event.isDirectory ==> pending == old(pending)[event.destPath := old(nextTimer)] && nextTimer == old(nextTimer) + 1
    {
      if !event.isDirectory {
        var _ := Schedule(event.destPath);
      }
    }

    /** `_process_file(p)`: when `p` is still a regular file and its type is detected,
        hand it to the package organizer's `check_and_move` in its parent directory, with
        the type lower-cased. Whatever happens, `p` has no pending entry afterwards. */
    method ProcessFile(fs: FS, p: Path, magic: Path -> Detection<string>) returns (fs': FS)
      requires Valid()
      modifies this
      ensures Valid()
      ensures pending == old(pending) - {p} && nextTimer == old(nextTimer)
      ensures !IsFile(fs, p) || magic(p).Raised? ==> fs' == fs
      ensures IsFile(fs, p) && magic(p).Returned? ==>
        fs' == CheckAndMove(fs, table, Name(p), Lower(magic(p).value), Parent(p), Package).0
      ensures p != [] ==> forall q :: q in fs && !(Parent(p) < q) ==> q in fs' && (q == p || fs'[q] == fs[q])
    {
      fs' := fs;
      if IsFile(fs, p) {
        match magic(p)
        case Raised =>
        case Returned(detected) =>
          assert Parent(p) + [Name(p)] == p;
          var (fs2, _) := CheckAndMove(fs, table, Name(p), Lower(detected), Parent(p), Package);
          FrameOutsideParent(fs, fs2, p, Resolve(table, Lower(detected)));
          fs' := fs2;
      }
      pending := pending - {p};
    }

    /** The timer `id` for `p` expires. A cancelled timer does nothing; the live one
        processes the file. */
    method Fire(fs: FS, p: Path, id: nat, magic: Path -> Detection<string>) returns (fs': FS, fired: bool)
      requires Valid()
      modifies this
      ensures Valid()
      ensures fired <==> old(Live(p, id))
      ensures !fired ==> fs' == fs && pending == old(pending) && nextTimer == old(nextTimer)
      ensures fired ==> pending == old(pending) - {p} && nextTimer == old(nextTimer)
      ensures fired && IsFile(fs, p) && magic(p).Returned? ==>
        fs' == CheckAndMove(fs, table, Name(p), Lower(magic(p).value), Parent(p), Package).0
      ensures fired && !(IsFile(fs, p) && magic(p).Returned?) ==> fs' == fs
    {
      fired := Live(p, id);
      if fired {
        fs' := ProcessFile(fs, p, magic);
      } else {
        fs' := fs;
      }
    }

    /** A file reported twice before its first timer expires is processed once, by the
        second timer; the first timer finds itself cancelled and leaves the tree alone.
        The tree afterwards is that of a single `check_and_move` on the original tree. */
    method DebounceScenario(fs: FS, p: Path, magic: Path -> Detection<string>) returns (fs': FS, firstFired: bool, secondFired: bool)
      requires Valid()
      modifies this
      ensures Valid()
      ensures !firstFired && secondFired
      ensures pending == old(pending) - {p} && nextTimer == old(nextTimer) + 2
      ensures IsFile(fs, p) && magic(p).Returned? ==>
        fs' == CheckAndMove(fs, table, Name(p), Lower(magic(p).value), Parent(p), Package).0
      ensures !(IsFile(fs, p) && magic(p).Returned?) ==> fs' == fs
    {
      var first := Schedule(p);
      var second := Schedule(p);
      var fs1;
      fs1, firstFired := Fire(fs, p, first, magic);
      fs', secondFired := Fire(fs1, p, second, magic);
    }
  }

  /** Watches kept after removing `d` from the list are still on it. */
  lemma WatchesStayListed(w: map<Path, nat>, dirs: seq<Path>, d: Path)
    requires d in dirs && forall x :: x in w ==> x in dirs
    ensures forall x :: x in w && x != d ==> x in RemoveFirst(dirs, d)
    ensures d !in w ==> w - {d} == w
  {
    RemoveFirstKeepsOthers(dirs, d);
  }

  /** `check_and_move` in the parent of `p` changes `p` and entries below the parent's
      subdirectories only. */
  lemma FrameOutsideParent(fs: FS, fs2: FS, p: Path, folder: string)
    requires p != []
    requires forall q :: q in fs && q != Parent(p) + [Name(p)] && !(Parent(p) + [folder] < q) ==> q in fs2 && fs2[q] == fs[q]
    ensures forall q :: q in fs && !(Parent(p) < q) ==> q in fs2 && (q == p || fs2[q] == fs[q])
  {
    assert Parent(p) + [Name(p)] == p;
    forall q | q in fs && !(Parent(p) < q)
      ensures q in fs2 && (q == p || fs2[q] == fs[q])
    {
      assert !(Parent(p) + [folder] < q);
    }
  }

  // ---------------------------------------------------------------- the service

  /** The contents of watcher_config.json. */
  datatype WatchConfig = WatchConfig(watchedDirectories: seq<Path>, watcherEnabled: bool,
                                     autoOrganize: bool, checkInterval: real)

  const DefaultWatchConfig: WatchConfig := WatchConfig([], false, true, 1.0)

  /** The configuration file as found on disk. */
  datatype StoredConfig = Missing | Corrupt | Saved(config: WatchConfig)

  /** `load_config`: the saved configuration, or the default when the file is missing or
      cannot be read. */
  function LoadWatchConfig(s: StoredConfig): (c: WatchConfig)
    ensures s.Saved? ==> c == s.config
    ensures !s.Saved? ==> c == DefaultWatchConfig && c.watchedDirectories == [] && !c.watcherEnabled
  {
    if s.Saved? then s.config else DefaultWatchConfig
  }

  /** `list.index(x)`: the position of the first occurrence of `x`. */
  function FirstIndex(s: seq<Path>, x: Path): (i: nat)
    requires x in s
    ensures i < |s| && s[i] == x
    ensures forall j :: 0 <= j < i ==> s[j] != x
  {
    if s[0] == x then 0 else 1 + FirstIndex(s[1..], x)
  }

  /** `list.remove(x)`: the list without its first occurrence of `x`, the rest in order. */
  function RemoveFirst(s: seq<Path>, x: Path): (r: seq<Path>)
    requires x in s
    ensures |r| == |s| - 1
    ensures forall k :: 0 <= k < |r| ==> r[k] == if k < FirstIndex(s, x) then s[k] else s[k + 1]
  {
    var i := FirstIndex(s, x);
    s[..i] + s[i + 1..]
  }

  /** Every other element keeps its membership. */
  lemma RemoveFirstKeepsOthers(s: seq<Path>, x: Path)
    requires x in s
    ensures forall y :: y != x ==> (y in RemoveFirst(s, x) <==> y in s)
  {
    var r := RemoveFirst(s, x);
    var i := FirstIndex(s, x);
    forall y | y in s && y != x
      ensures y in r
    {
      var k :| 0 <= k < |s| && s[k] == y;
      if k < i {
        assert r[k] == y;
      } else {
        assert r[k - 1] == y;
      }
    }
  }

  /** Removing from a duplicate-free list removes every trace of `x`. */
  lemma RemoveFirstNoDuplicates(s: seq<Path>, x: Path)
    requires x in s && NoDuplicates(s)
    ensures x !in RemoveFirst(s, x)
    ensures NoDuplicates(RemoveFirst(s, x))
  {
    var r := RemoveFirst(s, x);
    var i := FirstIndex(s, x);
    forall a, b | 0 <= a < b < |r|
      ensures r[a] != r[b]
    {
      var a', b' := if a < i then a else a + 1, if b < i then b else b + 1;
      assert r[a] == s[a'] && r[b] == s[b'];
    }
  }

  /** Adding a directory that was not listed and removing it again restores the list. */
  lemma AddThenRemove(s: seq<Path>, x: Path)
    requires x !in s
    ensures RemoveFirst(s + [x], x) == s
  {
    var t := s + [x];
    var r := RemoveFirst(t, x);
    assert |r| == |s|;
    assert forall k :: 0 <= k < |r| ==> r[k] == s[k];
  }

  /** `|set(s)| <= len(s)` */
  lemma {:induction false} ElemsCard<T>(s: seq<T>)
    ensures |set x | x in s| <= |s|
  {
    if s != [] {
      ElemsCard(s[1..]);
      assert (set x | x in s) == {s[0]} + (set x | x in s[1..]);
    }
  }

  /** What `get_status` returns. */
  datatype Status = Status(isRunning: bool, isEnabled: bool, watchedDirectories: seq<Path>, activeWatches: nat)

  /** `FileWatcherService`. `observerActive` says whether an observer is held,
      `watchedPaths` maps each watched directory to its observer handle. */
  class WatcherService {
    var store: StoredConfig
    var observerActive: bool
    var isRunning: bool
    var watchedPaths: map<Path, nat>
    var nextHandle: nat
    const handler: Handler

    /** An observer is held exactly while running; a stopped service watches nothing;
        every watched directory is on the persisted list. */
    ghost predicate Valid()
      reads this
    {
      && observerActive == isRunning
      && (!isRunning ==> watchedPaths == map[])
      && (forall d :: d in watchedPaths ==> d in Config().watchedDirectories)
    }

    function Config(): WatchConfig
      reads this
    {
      LoadWatchConfig(store)
    }

    constructor (store: StoredConfig, table: MappingTable)
      ensures Valid()
      ensures this.store == store && !isRunning && watchedPaths == map[]
      ensures fresh(handler) && handler.Valid() && handler.pending == map[]
    {
      this.store := store;
      observerActive := false;
      isRunning := false;
      watchedPaths := map[];
      nextHandle := 0;
      handler := new Handler(table);
    }

    /** `get_watched_directories` */
    function WatchedDirectories(): (dirs: seq<Path>)
      reads this
      ensures dirs == Config().watchedDirectories
      ensures !store.Saved? ==> dirs == []
    {
      LoadWatchConfig(store).watchedDirectories
    }

    /** `is_watcher_enabled` */
    function IsWatcherEnabled(): (enabled: bool)
      reads this
      ensures enabled == Config().watcherEnabled
      ensures !store.Saved? ==> !enabled
    {
      LoadWatchConfig(store).watcherEnabled
    }

    /** `get_status`: the number of active watches is the size of `watchedPaths`, and no
        more than the number of listed directories. */
    function GetStatus(): (s: Status)
      requires Valid()
      reads this
      ensures s.isRunning == isRunning && s.isEnabled == Config().watcherEnabled
      ensures s.watchedDirectories == Config().watchedDirectories
      ensures s.activeWatches == |watchedPaths| <= |Config().watchedDirectories|
      ensures !isRunning ==> s.activeWatches == 0
    {
      var dirs := LoadWatchConfig(store).watchedDirectories;
      assert |watchedPaths| <= |dirs| by {
        assert |watchedPaths.Keys| == |watchedPaths|;
        SubsetCard(watchedPaths.Keys, set x | x in dirs);
        ElemsCard(dirs);
      }
      Status(isRunning, IsWatcherEnabled(), WatchedDirectories(), |watchedPaths|)
    }

    /** `_start_watching_directory`: subscribe `d` under a fresh handle. */
    method StartWatchingDirectory(d: Path)
      modifies this
      ensures watchedPaths == old(watchedPaths)[d := old(nextHandle)] && nextHandle == old(nextHandle) + 1
      ensures store == old(store) && isRunning == old(isRunning) && observerActive == old(observerActive)
    {
      watchedPaths := watchedPaths[d := nextHandle];
      nextHandle := nextHandle + 1;
    }

    /** `add_watched_directory(d)`: an existing directory not yet listed is appended to the
        persisted list, and watched at once when the service runs; in every other case
        nothing changes and False is returned. */
    method AddWatchedDirectory(fs: FS, d: Path) returns (added: bool)
      requires Valid()
      modifies this
      ensures Valid()
      ensures added <==> IsDir(fs, d) && d !in old(Config()).watchedDirectories
      ensures added ==> store == Saved(old(Config()).(watchedDirectories := old(Config()).watchedDirectories + [d]))
      ensures added ==> NoDuplicates(old(Config()).watchedDirectories) ==> NoDuplicates(Config().watchedDirectories)
      ensures !added ==> store == old(store)
      ensures watchedPaths == if added && old(isRunning) then old(watchedPaths)[d := old(nextHandle)] else old(watchedPaths)
      ensures isRunning == old(isRunning) && observerActive == old(observerActive)
    {
      if !Exists(fs, d) {
        return false;
      }
      if !IsDir(fs, d) {
        return false;
      }
      var config := LoadWatchConfig(store);
      if d in config.watchedDirectories {
        return false;
      }
      store := Saved(config.(watchedDirectories := config.watchedDirectories + [d]));
      if isRunning {
        StartWatchingDirectory(d);
      }
      added := true;
    }

    /** `remove_watched_directory(d)`: a listed directory loses its first occurrence in the
        persisted list and, when the service runs, its watch. */
    method RemoveWatchedDirectory(d: Path) returns (removed: bool)
      requires Valid()
      modifies this
      ensures Valid()
      ensures removed <==> d in old(Config()).watchedDirectories
      ensures removed ==> store == Saved(old(Config()).(watchedDirectories := RemoveFirst(old(Config()).watchedDirectories, d)))
      ensures removed && NoDuplicates(old(Config()).watchedDirectories) ==>
        d !in Config().watchedDirectories && NoDuplicates(Config().watchedDirectories)
      ensures !removed ==> store == old(store)
      ensures watchedPaths == if removed && old(isRunning) then old(watchedPaths) - {d} else old(watchedPaths)
      ensures isRunning == old(isRunning) && observerActive == old(observerActive)
    {
      var config := LoadWatchConfig(store);
      if d !in config.watchedDirectories {
        return false;
      }
      var dirs := config.watchedDirectories;
      if NoDuplicates(dirs) {
        RemoveFirstNoDuplicates(dirs, d);
      }
      WatchesStayListed(watchedPaths, dirs, d);
      store := Saved(config.(watchedDirectories := RemoveFirst(dirs, d)));
      if isRunning && d in watchedPaths {
        watchedPaths := watchedPaths - {d};
      }
      removed := true;
    }

    /** `start_watching`: refused when already running or disabled; otherwise every listed
        directory that exists is watched and the service runs, even with an empty list. */
    method StartWatching(fs: FS) returns (started: bool)
      requires Valid()
      modifies this
      ensures Valid()
      ensures started <==> !old(isRunning) && old(Config()).watcherEnabled
      ensures !started ==> isRunning == old(isRunning) && watchedPaths == old(watchedPaths)
      ensures started ==> (isRunning
        && watchedPaths.Keys == set d | d in Config().watchedDirectories && Exists(fs, d))
      ensures store == old(store)
    {
      if isRunning {
        return false;
      }
      var config := LoadWatchConfig(store);
      if !config.watcherEnabled {
        return false;
      }
      observerActive := true;
      var dirs := config.watchedDirectories;
      for i := 0 to |dirs|
        invariant store == old(store) && observerActive && !isRunning
        invariant watchedPaths.Keys == set d | d in dirs[..i] && Exists(fs, d)
      {
        assert dirs[..i + 1] == dirs[..i] + [dirs[i]];
        if Exists(fs, dirs[i]) {
          StartWatchingDirectory(dirs[i]);
        }
      }
      assert dirs[..|dirs|] == dirs;
      isRunning := true;
      started := true;
    }

    /** `stop_watching`: refused when not running; otherwise the observer is dropped and
        every watch forgotten. The handler's pending timers are left as they are. */
    method StopWatching() returns (stopped: bool)
      requires Valid()
      modifies this
      ensures Valid()
      ensures stopped <==> old(isRunning)
      ensures stopped ==> !isRunning && !observerActive && watchedPaths == map[]
      ensures !stopped ==> isRunning == old(isRunning) && watchedPaths == old(watchedPaths)
      ensures store == old(store) && handler.pending == old(handler.pending)
    {
      if !isRunning {
        return false;
      }
      observerActive := false;
      watchedPaths := map[];
      isRunning := false;
      stopped := true;
    }

    /** `set_watcher_enabled(enabled)`: persist the flag, then start or stop so that the
        service runs exactly when enabled. */
    method SetWatcherEnabled(fs: FS, enabled: bool)
      requires Valid()
      modifies this
      ensures Valid()
      ensures isRunning == enabled
      ensures store == Saved(old(Config()).(watcherEnabled := enabled))
      ensures Config().watchedDirectories == old(Config()).watchedDirectories
      ensures enabled && !old(isRunning) ==> watchedPaths.Keys == set d | d in Config().watchedDirectories && Exists(fs, d)
      ensures enabled && old(isRunning) ==> watchedPaths == old(watchedPaths)
    {
      var config := LoadWatchConfig(store);
      store := Saved(config.(watcherEnabled := enabled));
      if enabled && !isRunning {
        var _ := StartWatching(fs);
      } else if !enabled && isRunning {
        var _ := StopWatching();
      }
    }
  }
}
