/**
 * The watcher against the directory it watches: every change of a file is announced
 * by the raw event of its kind, and a flush reads what the directory holds then.
 */
module WatcherDisk {
  import opened ChangeEvents
  import opened Options
  import opened Watcher
  import opened WatcherRuns

  datatype World = World(
    disk: Tree,
    missed: set<Path>,  // paths whose latest change slipped past the watcher
    watcher: State)

  const START := World(map[], {}, INITIAL)

  datatype DiskStep =
    | Write(path: Path, hash: Hash, admitted: bool)
    | Remove(path: Path, admitted: bool)
    | Wait(to: nat)
    | FlushTimer(path: Path)
    | DeleteTimerFires(id: nat)

  function Lookup(disk: Tree, path: Path): Option<Hash> {
    if path in disk then Some(disk[path]) else None
  }

  /** The watcher step that a step of the world causes. */
  function Observed(w: World, step: DiskStep): Step {
    match step
    case Write(path, _, admitted) => Raw(if path in w.disk then ChangeRaw else AddRaw, path, admitted)
    case Remove(path, admitted) => Raw(UnlinkRaw, path, admitted)
    case Wait(to) => Tick(to)
    case FlushTimer(path) => FlushDue(path, Lookup(w.disk, path))
    case DeleteTimerFires(id) => DeleteDue(id)
  }

  /**
   * A change that the filter, the root guard or the size limit keeps out slips past the watcher unless what is
   * pending or cached happens to come out right: a pending flush reads the file as it is by then.
   */
  predicate Slips(w: World, step: DiskStep) {
    match step
    case Write(path, hash, admitted) =>
      !admitted
      && if path in w.watcher.pending then w.watcher.pending[path].kind == DELETE
         else Lookup(w.watcher.cache, path) != Some(hash)
    case Remove(path, admitted) =>
      !admitted && path in w.watcher.cache
      && (path in w.watcher.pending ==> w.watcher.pending[path].kind != DELETE)
    case _ => false
  }

  function Missing(w: World, step: DiskStep): set<Path> {
    match step
    case Write(path, _, _) => if Slips(w, step) then w.missed + {path} else w.missed - {path}
    case Remove(path, _) => if Slips(w, step) then w.missed + {path} else w.missed - {path}
    case _ => w.missed
  }

  function NextWorld(cfg: Config, w: World, step: DiskStep): World {
    var watcher := Next(cfg, w.watcher, Observed(w, step));
    var disk := match step
      case Write(path, hash, _) => w.disk[path := hash]
      case Remove(path, _) => w.disk - {path}
      case _ => w.disk;
    World(disk, Missing(w, step), watcher)
  }

  ghost predicate Possible(w: World, step: DiskStep) {
    (step.Remove? ==> step.path in w.disk) && Enabled(w.watcher, Observed(w, step))
  }

  function WorldAfter(cfg: Config, steps: seq<DiskStep>): World {
    if steps == [] then START
    else NextWorld(cfg, WorldAfter(cfg, steps[..|steps| - 1]), steps[|steps| - 1])
  }

  ghost predicate IsDiskRun(cfg: Config, steps: seq<DiskStep>) {
    steps == []
    || (IsDiskRun(cfg, steps[..|steps| - 1])
        && Possible(WorldAfter(cfg, steps[..|steps| - 1]), steps[|steps| - 1]))
  }

  lemma DiskAppend(cfg: Config, steps: seq<DiskStep>, step: DiskStep)
    ensures WorldAfter(cfg, steps + [step]) == NextWorld(cfg, WorldAfter(cfg, steps), step)
    ensures IsDiskRun(cfg, steps + [step]) <==> IsDiskRun(cfg, steps) && Possible(WorldAfter(cfg, steps), step)
  {
    assert (steps + [step])[..|steps|] == steps;
  }

  /** What the cache will hold of a path once its pending flush, if any, has run. */
  function Bound(w: World, path: Path): Option<Hash> {
    if path !in w.watcher.pending then Lookup(w.watcher.cache, path)
    else if w.watcher.pending[path].kind == DELETE then None
    else if path in w.disk then Some(w.disk[path])
    else Lookup(w.watcher.cache, path)
  }

  predicate Shows(w: World, path: Path) {
    Bound(w, path) == Lookup(w.disk, path)
  }

  /** Exactly the paths whose latest change slipped will be shown wrong. */
  ghost predicate Tracks(w: World) {
    forall path :: Shows(w, path) <==> path !in w.missed
  }

  /** Only a change of the path itself moves what it will be shown as; the watcher's own steps do not. */
  lemma FlushKeepsBound(cfg: Config, w: World, flushed: Path, path: Path)
    requires flushed in w.watcher.pending
    ensures Shows(NextWorld(cfg, w, FlushTimer(flushed)), path) <==> Shows(w, path)
  {
  }

  lemma ChangeDecides(cfg: Config, w: World, step: DiskStep, path: Path)
    requires Possible(w, step) && (step.Write? || step.Remove?)
    ensures step.path != path ==> (Shows(NextWorld(cfg, w, step), path) <==> Shows(w, path))
    ensures step.path == path ==> (Shows(NextWorld(cfg, w, step), path) <==> !Slips(w, step))
  {
  }

  lemma TracksStep(cfg: Config, w: World, step: DiskStep)
    requires Tracks(w) && Possible(w, step)
    ensures Tracks(NextWorld(cfg, w, step))
  {
    forall path ensures Shows(NextWorld(cfg, w, step), path) <==> path !in NextWorld(cfg, w, step).missed {
      match step
      case Write(_, _, _) => ChangeDecides(cfg, w, step, path);
      case Remove(_, _) => ChangeDecides(cfg, w, step, path);
      case FlushTimer(flushed) => FlushKeepsBound(cfg, w, flushed, path);
      case Wait(_) => assert Shows(NextWorld(cfg, w, step), path) <==> Shows(w, path);
      case DeleteTimerFires(_) => assert Shows(NextWorld(cfg, w, step), path) <==> Shows(w, path);
    }
  }

  /** A disk run drives the watcher through one of its own runs. */
  lemma {:induction false} DiskRunIsRun(cfg: Config, steps: seq<DiskStep>) returns (observed: seq<Step>)
    requires IsDiskRun(cfg, steps)
    ensures IsRun(cfg, observed) && After(cfg, observed) == WorldAfter(cfg, steps).watcher
    ensures Tracks(WorldAfter(cfg, steps))
  {
    if steps == [] {
      observed := [];
    } else {
      var prefix, last := steps[..|steps| - 1], steps[|steps| - 1];
      var before := DiskRunIsRun(cfg, prefix);
      var w := WorldAfter(cfg, prefix);
      TracksStep(cfg, w, last);
      RunAppend(cfg, before, Observed(w, last));
      observed := before + [Observed(w, last)];
    }
  }

  /**
   * Once settled, the replayed log shows a path as it is on disk exactly when the path's latest change did not
   * slip, and so the whole disk exactly when none did.
   */
  lemma SettledReplayIsDisk(cfg: Config, steps: seq<DiskStep>)
    requires cfg.window < cfg.debounce && IsDiskRun(cfg, steps)
    requires Settled(WorldAfter(cfg, steps).watcher)
    ensures var w := WorldAfter(cfg, steps);
      && (forall path :: Lookup(Replay(w.watcher.log), path) == Lookup(w.disk, path) <==> path !in w.missed)
      && (Replay(w.watcher.log) == w.disk <==> w.missed == {})
  {
    var observed := DiskRunIsRun(cfg, steps);
    ReplayIsCachePlusInFlight(cfg, observed);
    var w := WorldAfter(cfg, steps);
    assert Replay(w.watcher.log) == w.watcher.cache;
    forall path ensures Lookup(w.watcher.cache, path) == Lookup(w.disk, path) <==> path !in w.missed {
      assert Shows(w, path) <==> path !in w.missed;
    }
    SameTree(w.watcher.cache, w.disk);
    if w.missed != {} {
      var path :| path in w.missed;
      assert Lookup(w.watcher.cache, path) != Lookup(w.disk, path);
    }
  }

  lemma SameTree(a: Tree, b: Tree)
    ensures (forall path :: Lookup(a, path) == Lookup(b, path)) ==> a == b
  {
    if forall path :: Lookup(a, path) == Lookup(b, path) {
      forall path ensures path in a <==> path in b {
        assert Lookup(a, path) == Lookup(b, path);
      }
      forall path | path in a ensures a[path] == b[path] {
        assert Lookup(a, path) == Lookup(b, path);
      }
    }
  }

  ghost predicate ShowsAll(w: World) {
    forall path :: Shows(w, path)
  }

  lemma ShowsAllStep(cfg: Config, w: World, step: DiskStep)
    requires ShowsAll(w) && Possible(w, step)
    ensures ShowsAll(NextWorld(cfg, w, step)) <==> !Slips(w, step)
  {
    var t := NextWorld(cfg, w, step);
    match step
    case Write(path, _, _) =>
      ChangeDecides(cfg, w, step, path);
      forall other | other != path ensures Shows(t, other) {
        ChangeDecides(cfg, w, step, other);
      }
    case Remove(path, _) =>
      ChangeDecides(cfg, w, step, path);
      forall other | other != path ensures Shows(t, other) {
        ChangeDecides(cfg, w, step, other);
      }
    case FlushTimer(flushed) =>
      forall path ensures Shows(t, path) {
        FlushKeepsBound(cfg, w, flushed, path);
      }
    case Wait(_) =>
      forall path ensures Shows(t, path) {
        assert Shows(w, path);
      }
    case DeleteTimerFires(_) =>
      forall path ensures Shows(t, path) {
        assert Shows(w, path);
      }
  }

  ghost predicate ShowsThroughout(cfg: Config, steps: seq<DiskStep>) {
    ShowsAll(WorldAfter(cfg, steps)) && (steps != [] ==> ShowsThroughout(cfg, steps[..|steps| - 1]))
  }

  ghost predicate NoneSlips(cfg: Config, steps: seq<DiskStep>) {
    steps == []
    || (!Slips(WorldAfter(cfg, steps[..|steps| - 1]), steps[|steps| - 1]) && NoneSlips(cfg, steps[..|steps| - 1]))
  }

  /** In every disk run, the watcher is at every point bound to show the disk exactly when no change slips. */
  lemma {:induction false} ShownThroughoutExactlyWhenNoneSlips(cfg: Config, steps: seq<DiskStep>)
    requires IsDiskRun(cfg, steps)
    ensures ShowsThroughout(cfg, steps) <==> NoneSlips(cfg, steps)
  {
    if steps != [] {
      var prefix, last := steps[..|steps| - 1], steps[|steps| - 1];
      ShownThroughoutExactlyWhenNoneSlips(cfg, prefix);
      if ShowsThroughout(cfg, prefix) {
        ShowsAllStep(cfg, WorldAfter(cfg, prefix), last);
      }
    }
  }

  lemma DiskPrefix(cfg: Config, all: seq<DiskStep>, k: nat)
    requires k < |all|
    ensures WorldAfter(cfg, all[..k + 1]) == NextWorld(cfg, WorldAfter(cfg, all[..k]), all[k])
    ensures IsDiskRun(cfg, all[..k + 1]) <==>
      IsDiskRun(cfg, all[..k]) && Possible(WorldAfter(cfg, all[..k]), all[k])
  {
    assert all[..k + 1][..k] == all[..k];
  }

  /** A rewrite that the size limit keeps out leaves the receiver with the old content, whatever the two are. */
  lemma RefusedRewriteStaysStale(cfg: Config, path: Path, first: Hash, second: Hash)
    requires first != second
    ensures var steps := [Write(path, first, true), Wait(cfg.debounce), FlushTimer(path), Write(path, second, false)];
      && IsDiskRun(cfg, steps) && Settled(WorldAfter(cfg, steps).watcher)
      && Replay(WorldAfter(cfg, steps).watcher.log) == map[path := first]
      && WorldAfter(cfg, steps).disk == map[path := second]
  {
    var steps := [Write(path, first, true), Wait(cfg.debounce), FlushTimer(path), Write(path, second, false)];
    WrittenOnce(cfg, steps, path, first);
    DiskPrefix(cfg, steps, 3);
    assert steps[..4] == steps;
    ReplayAppend([], Create(path, first));
    assert [] + [Create(path, first)] == [Create(path, first)];
  }

  /** The world after a first write has been flushed. */
  lemma WrittenOnce(cfg: Config, all: seq<DiskStep>, path: Path, hash: Hash)
    requires |all| >= 3 && all[..3] == [Write(path, hash, true), Wait(cfg.debounce), FlushTimer(path)]
    ensures IsDiskRun(cfg, all[..3])
    ensures WorldAfter(cfg, all[..3]) ==
      World(map[path := hash], {},
            State(cfg.debounce, map[], map[path := hash], map[], map[], 0, [Create(path, hash)]))
  {
    assert all[0] == all[..3][0] && all[1] == all[..3][1] && all[2] == all[..3][2];
    DiskPrefix(cfg, all, 0);
    DiskPrefix(cfg, all, 1);
    DiskPrefix(cfg, all, 2);
    var pending := map[path := PendingEntry(CREATE, cfg.debounce)];
    assert WorldAfter(cfg, all[..1]) == World(map[path := hash], {}, INITIAL.(pending := pending));
    assert WorldAfter(cfg, all[..2]) ==
      World(map[path := hash], {}, INITIAL.(pending := pending, now := cfg.debounce));
    assert pending - {path} == map[];
  }
}
