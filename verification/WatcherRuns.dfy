/** What every run of the watcher guarantees, and exactly when. */
module WatcherRuns {
  import opened ChangeEvents
  import opened Options
  import opened Watcher

  // -------------------------------------------------------------------------
  // Replay
  // -------------------------------------------------------------------------

  /** No debounce and no delete timer is outstanding. */
  ghost predicate Settled(s: State) {
    s.pending == map[] && s.timers == map[]
  }

  lemma ReplayIsCachePlusInFlight(cfg: Config, steps: seq<Step>)
    requires cfg.window < cfg.debounce && IsRun(cfg, steps)
    ensures var s := After(cfg, steps);
      && Replay(s.log).Keys == s.cache.Keys + Awaiting(s)
      && s.cache.Keys !! Awaiting(s)
      && (forall path :: path in s.cache ==> Replay(s.log)[path] == s.cache[path])
      && (forall id :: id in s.timers ==> Replay(s.log)[s.timers[id].path] == s.timers[id].hash)
      && AllGrounded(s.log)
      && (s.timers == map[] ==> Replay(s.log) == s.cache)
  {
    RunKeepsInv(cfg, steps);
  }

  /** No create, update or second delete of a path is flushed while that path's delete timer runs. */
  lemma NoFlushWhileDeleteRuns(cfg: Config, steps: seq<Step>, path: Path, content: Option<Hash>)
    requires cfg.window < cfg.debounce && IsRun(cfg, steps + [FlushDue(path, content)])
    ensures path !in Awaiting(After(cfg, steps))
  {
    RunAppend(cfg, steps, FlushDue(path, content));
    RunKeepsInv(cfg, steps);
    NoTimerOnFlush(cfg, After(cfg, steps), path);
  }

  /** Replay reaches the cache in every settled run. */
  ghost predicate Faithful(cfg: Config) {
    forall steps :: IsRun(cfg, steps) && Settled(After(cfg, steps)) ==>
      Replay(After(cfg, steps).log) == After(cfg, steps).cache
  }

  /** A file is written, deleted, and written again with other content before its delete timer fires. */
  function LateDelete(cfg: Config): seq<Step> {
    var d := cfg.debounce;
    [Raw(AddRaw, "a", true), Tick(d), FlushDue("a", Some("1")),
     Raw(UnlinkRaw, "a", true), Tick(2 * d), FlushDue("a", None),
     Raw(AddRaw, "a", true), Tick(3 * d), FlushDue("a", Some("2")),
     Tick(2 * d + cfg.window), DeleteDue(0)]
  }

  /** The watcher's states after the first, second and third flush of `LateDelete`. */
  function LateDeleteState(cfg: Config, flushes: nat): State
    requires flushes <= 3
  {
    var d := cfg.debounce;
    var timers := map[0 := DeleteTimer("a", "1", 2 * d + cfg.window)];
    var waiting := map["1" := PendingDelete("a", 0)];
    match flushes
    case 0 => INITIAL
    case 1 => State(d, map[], map["a" := "1"], map[], map[], 0, [Create("a", "1")])
    case 2 => State(2 * d, map[], map[], waiting, timers, 1, [Create("a", "1")])
    case _ => State(3 * d, map[], map["a" := "2"], waiting, timers, 1, [Create("a", "1"), Create("a", "2")])
  }

  lemma ThreeSteps(cfg: Config, all: seq<Step>, k: nat, s: State, s1: State, s2: State, t: State)
    requires k + 3 <= |all| && IsRun(cfg, all[..k]) && After(cfg, all[..k]) == s
    requires Enabled(s, all[k]) && Next(cfg, s, all[k]) == s1
    requires Enabled(s1, all[k + 1]) && Next(cfg, s1, all[k + 1]) == s2
    requires Enabled(s2, all[k + 2]) && Next(cfg, s2, all[k + 2]) == t
    ensures IsRun(cfg, all[..k + 3]) && After(cfg, all[..k + 3]) == t
  {
    Prefix(cfg, all, k);
    Prefix(cfg, all, k + 1);
    Prefix(cfg, all, k + 2);
  }

  /** One round of `LateDelete` before its flush: the raw event, and the wait for its debounce. */
  function LateDeleteWaited(cfg: Config, round: nat): State
    requires round < 3
  {
    Schedule(cfg, LateDeleteState(cfg, round), "a", KindOf([AddRaw, UnlinkRaw, AddRaw][round]))
      .(now := (round + 1) * cfg.debounce)
  }

  lemma LateDeleteFlushed(cfg: Config, round: nat, content: Option<Hash>)
    requires round < 3 && content == [Some("1"), None, Some("2")][round]
    ensures Flush(cfg, LateDeleteWaited(cfg, round), "a", content) == LateDeleteState(cfg, round + 1)
  {
    var u, t := Flush(cfg, LateDeleteWaited(cfg, round), "a", content), LateDeleteState(cfg, round + 1);
    assert Schedule(cfg, LateDeleteState(cfg, round), "a", CREATE).pending - {"a"} == map[];
    assert u.pending == map[];
    if round == 0 {
      assert u.log == t.log && u.cache == t.cache;
    } else if round == 1 {
      assert u.timers == t.timers && u.pendingDeletes == t.pendingDeletes && u.cache == t.cache;
    } else {
      assert u.log == t.log && u.cache == t.cache;
    }
  }

  lemma LateDeleteFlush(cfg: Config, round: nat, s: State, raw: RawEvent, content: Option<Hash>)
    requires cfg.debounce <= cfg.window && round < 3 && s == LateDeleteState(cfg, round)
    requires raw == [AddRaw, UnlinkRaw, AddRaw][round] && content == [Some("1"), None, Some("2")][round]
    ensures var s1 := Schedule(cfg, s, "a", KindOf(raw));
      var s2 := s1.(now := (round + 1) * cfg.debounce);
      && Enabled(s1, Tick((round + 1) * cfg.debounce))
      && Enabled(s2, FlushDue("a", content))
      && Flush(cfg, s2, "a", content) == LateDeleteState(cfg, round + 1)
  {
    LateDeleteFlushed(cfg, round, content);
    assert s.now == round * cfg.debounce;
  }

  lemma LateDeleteSteps(cfg: Config, round: nat)
    requires round < 3
    ensures LateDelete(cfg)[3 * round] == Raw([AddRaw, UnlinkRaw, AddRaw][round], "a", true)
    ensures LateDelete(cfg)[3 * round + 1] == Tick((round + 1) * cfg.debounce)
    ensures LateDelete(cfg)[3 * round + 2] == FlushDue("a", [Some("1"), None, Some("2")][round])
  {
    if round == 0 {
    } else if round == 1 {
    } else {
      assert round == 2;
    }
  }

  lemma LateDeleteRound(cfg: Config, round: nat)
    requires cfg.debounce <= cfg.window && round < 3
    requires IsRun(cfg, LateDelete(cfg)[..3 * round])
    requires After(cfg, LateDelete(cfg)[..3 * round]) == LateDeleteState(cfg, round)
    ensures IsRun(cfg, LateDelete(cfg)[..3 * round + 3])
    ensures After(cfg, LateDelete(cfg)[..3 * round + 3]) == LateDeleteState(cfg, round + 1)
  {
    var all := LateDelete(cfg);
    var s := LateDeleteState(cfg, round);
    var raw, content := [AddRaw, UnlinkRaw, AddRaw][round], [Some("1"), None, Some("2")][round];
    LateDeleteSteps(cfg, round);
    LateDeleteFlush(cfg, round, s, raw, content);
    var s1 := Schedule(cfg, s, "a", KindOf(raw));
    var s2 := s1.(now := (round + 1) * cfg.debounce);
    ThreeSteps(cfg, all, 3 * round, s, s1, s2, LateDeleteState(cfg, round + 1));
  }

  lemma LateDeleteBreaksReplay(cfg: Config)
    requires cfg.debounce <= cfg.window
    ensures IsRun(cfg, LateDelete(cfg)) && Settled(After(cfg, LateDelete(cfg)))
    ensures After(cfg, LateDelete(cfg)).cache == map["a" := "2"]
    ensures Replay(After(cfg, LateDelete(cfg)).log) == map[]
  {
    LateDeleteRound(cfg, 0);
    LateDeleteRound(cfg, 1);
    LateDeleteRound(cfg, 2);
    LateDeleteEnd(cfg);
    LateDeleteTail(cfg);
    LateDeleteLog();
  }

  lemma LateDeleteTail(cfg: Config)
    requires IsRun(cfg, LateDelete(cfg)[..9]) && After(cfg, LateDelete(cfg)[..9]) == LateDeleteState(cfg, 3)
    requires Enabled(LateDeleteState(cfg, 3), LateDelete(cfg)[9])
    requires Enabled(Next(cfg, LateDeleteState(cfg, 3), LateDelete(cfg)[9]), LateDelete(cfg)[10])
    ensures IsRun(cfg, LateDelete(cfg))
    ensures After(cfg, LateDelete(cfg))
      == Next(cfg, Next(cfg, LateDeleteState(cfg, 3), LateDelete(cfg)[9]), LateDelete(cfg)[10])
  {
    Prefix(cfg, LateDelete(cfg), 9);
    Prefix(cfg, LateDelete(cfg), 10);
    assert LateDelete(cfg)[..11] == LateDelete(cfg);
  }

  const LATE_LOG := [Create("a", "1"), Create("a", "2"), Delete("a")]

  lemma LateDeleteEnd(cfg: Config)
    requires cfg.debounce <= cfg.window
    ensures var all, s := LateDelete(cfg), LateDeleteState(cfg, 3);
      var waited := Next(cfg, s, all[9]);
      && Enabled(s, all[9]) && Enabled(waited, all[10])
      && Settled(Next(cfg, waited, all[10]))
      && Next(cfg, waited, all[10]).cache == map["a" := "2"]
      && Next(cfg, waited, all[10]).log == LATE_LOG
  {
    var s := LateDeleteState(cfg, 3);
    var end := FireDelete(s.(now := 2 * cfg.debounce + cfg.window), 0);
    assert end.timers == map[];
    assert end.log == LATE_LOG;
  }

  lemma LateDeleteLog()
    ensures Replay(LATE_LOG) == map[]
  {
    var first, second := [Create("a", "1")], [Create("a", "1"), Create("a", "2")];
    assert [] + first == first && first + [Create("a", "2")] == second && second + [Delete("a")] == LATE_LOG;
    ReplayAppend([], Create("a", "1"));
    ReplayAppend(first, Create("a", "2"));
    ReplayAppend(second, Delete("a"));
  }

  lemma Prefix(cfg: Config, all: seq<Step>, k: nat)
    requires k < |all|
    ensures After(cfg, all[..k + 1]) == Next(cfg, After(cfg, all[..k]), all[k])
    ensures IsRun(cfg, all[..k + 1]) <==> IsRun(cfg, all[..k]) && Enabled(After(cfg, all[..k]), all[k])
  {
    assert all[..k + 1] == all[..k] + [all[k]];
    RunAppend(cfg, all[..k], all[k]);
  }

  /** The move window must be shorter than the debounce; nothing less will do, and it suffices. */
  lemma FaithfulExactlyWhenWindowIsShorter(cfg: Config)
    ensures Faithful(cfg) <==> cfg.window < cfg.debounce
  {
    if cfg.window < cfg.debounce {
      forall steps | IsRun(cfg, steps) && Settled(After(cfg, steps))
        ensures Replay(After(cfg, steps).log) == After(cfg, steps).cache
      {
        ReplayIsCachePlusInFlight(cfg, steps);
      }
    } else {
      LateDeleteBreaksReplay(cfg);
      assert "a" in After(cfg, LateDelete(cfg)).cache;
    }
  }

  /** The shipped durations: 3000 ms debounce, 2000 ms move window. */
  const PRODUCT := Config(3000, 2000)

  lemma ProductIsFaithful()
    ensures Faithful(PRODUCT)
  {
    FaithfulExactlyWhenWindowIsShorter(PRODUCT);
  }

  // -------------------------------------------------------------------------
  // Conservation of deletes, for any two durations
  // -------------------------------------------------------------------------

  ghost function TimersOf(s: State, path: Path): set<nat> {
    set id | id in s.timers && s.timers[id].path == path
  }

  predicate FlushesKnownDelete(s: State, step: Step, path: Path) {
    && step.FlushDue? && step.path == path
    && path in s.pending && s.pending[path].kind == DELETE && path in s.cache
  }

  /** How many times a delete of `path` was flushed while the path was known. */
  function KnownDeletes(cfg: Config, steps: seq<Step>, path: Path): nat {
    if steps == [] then 0
    else
      var prefix := steps[..|steps| - 1];
      KnownDeletes(cfg, prefix, path)
      + (if FlushesKnownDelete(After(cfg, prefix), steps[|steps| - 1], path) then 1 else 0)
  }

  /** `Removals` plus running timers: what the conservation law counts. */
  ghost function Closing(s: State, path: Path): nat {
    Removals(s.log, path) + |TimersOf(s, path)|
  }

  lemma ClosingAfterFire(s: State, id: nat, path: Path)
    ensures Closing(FireDelete(s, id), path) == Closing(s, path)
  {
    if id in s.timers {
      var t := FireDelete(s, id);
      RemovalsAppend(s.log, Delete(s.timers[id].path), path);
      if s.timers[id].path == path {
        assert id in TimersOf(s, path);
        assert TimersOf(t, path) == TimersOf(s, path) - {id};
      } else {
        assert TimersOf(t, path) == TimersOf(s, path);
      }
    }
  }

  lemma ClosingAfterFlushDelete(cfg: Config, s: State, flushed: Path, path: Path)
    requires Linked(s)
    ensures Closing(FlushDelete(cfg, s, flushed), path)
      == Closing(s, path) + (if flushed == path && path in s.cache then 1 else 0)
  {
    TimersAfterFlushDelete(cfg, s, flushed, path);
  }

  lemma TimersAfterFlushDelete(cfg: Config, s: State, flushed: Path, path: Path)
    requires Linked(s)
    ensures s.nextTimer !in TimersOf(s, path)
    ensures FlushDelete(cfg, s, flushed).log == s.log
    ensures TimersOf(FlushDelete(cfg, s, flushed), path) ==
      if flushed == path && path in s.cache then TimersOf(s, path) + {s.nextTimer} else TimersOf(s, path)
  {
  }

  lemma ClosingAfterFlushContent(s: State, flushed: Path, kind: ChangeKind, hash: Hash, path: Path)
    requires Linked(s) && kind != DELETE
    ensures Closing(FlushContent(s, flushed, kind, hash), path) == Closing(s, path)
  {
    var t := FlushContent(s, flushed, kind, hash);
    RemovalsAppend(s.log, t.log[|s.log|], path);
    if kind == CREATE && hash in s.pendingDeletes {
      assert TimersOf(t, path) == TimersOf(s, path) - {s.pendingDeletes[hash].timer};
    } else {
      assert TimersOf(t, path) == TimersOf(s, path);
    }
  }

  lemma ClosingAfterStep(cfg: Config, s: State, step: Step, path: Path)
    requires Linked(s)
    ensures Closing(Next(cfg, s, step), path)
      == Closing(s, path) + (if FlushesKnownDelete(s, step, path) then 1 else 0)
  {
    match step
    case Tick(_) => assert TimersOf(Next(cfg, s, step), path) == TimersOf(s, path);
    case Raw(_, _, _) => assert TimersOf(Next(cfg, s, step), path) == TimersOf(s, path);
    case DeleteDue(id) => ClosingAfterFire(s, id, path);
    case FlushDue(flushed, content) =>
      if flushed in s.pending {
        var rest := s.(pending := s.pending - {flushed});
        var kind := s.pending[flushed].kind;
        assert TimersOf(rest, path) == TimersOf(s, path);
        if kind == DELETE {
          ClosingAfterFlushDelete(cfg, rest, flushed, path);
        } else if content.Some? {
          ClosingAfterFlushContent(rest, flushed, kind, content.value, path);
        }
      }
  }

  /** Every flushed delete of a known path is closed by one event or is still waiting on its timer. */
  lemma {:induction false} DeletesAreConserved(cfg: Config, steps: seq<Step>, path: Path)
    ensures Linked(After(cfg, steps))
    ensures KnownDeletes(cfg, steps, path) == Closing(After(cfg, steps), path)
  {
    if steps != [] {
      var prefix := steps[..|steps| - 1];
      DeletesAreConserved(cfg, prefix, path);
      LinkedStep(cfg, After(cfg, prefix), steps[|steps| - 1]);
      ClosingAfterStep(cfg, After(cfg, prefix), steps[|steps| - 1], path);
    } else {
      assert TimersOf(INITIAL, path) == {};
    }
  }

  // -------------------------------------------------------------------------
  // Settling
  // -------------------------------------------------------------------------

  function Work(s: State): nat {
    2 * |s.pending| + |s.timers|
  }

  lemma MapRemoval<K, V>(m: map<K, V>, k: K)
    requires k in m
    ensures |m - {k}| == |m| - 1
  {
    assert (m - {k}).Keys == m.Keys - {k};
    assert |m.Keys| == |m| && |(m - {k}).Keys| == |m - {k}|;
  }

  lemma MapInsertion<K, V>(m: map<K, V>, k: K, v: V)
    requires k !in m
    ensures |m[k := v]| == |m| + 1
  {
    assert m[k := v] - {k} == m;
    MapRemoval(m[k := v], k);
  }

  /** Each callback consumes work, so only new raw events keep the watcher busy. */
  lemma CallbacksConsumeWork(cfg: Config, s: State, step: Step)
    requires Linked(s) && Enabled(s, step) && (step.FlushDue? || step.DeleteDue?)
    ensures Work(Next(cfg, s, step)) < Work(s)
  {
    match step
    case FlushDue(path, content) =>
      MapRemoval(s.pending, path);
      FlushStartsOneTimer(cfg, s, path, content);
    case DeleteDue(id) =>
      MapRemoval(s.timers, id);
  }

  lemma FlushStartsOneTimer(cfg: Config, s: State, path: Path, content: Option<Hash>)
    requires Linked(s) && path in s.pending
    ensures Flush(cfg, s, path, content).pending == s.pending - {path}
    ensures |Flush(cfg, s, path, content).timers| <= |s.timers| + 1
  {
    if s.pending[path].kind == DELETE {
      if path in s.cache {
        MapInsertion(s.timers, s.nextTimer, DeleteTimer(path, s.cache[path], s.now + cfg.window));
      }
    } else if content.Some? && content.value in s.pendingDeletes {
      MapRemoval(s.timers, s.pendingDeletes[content.value].timer);
    }
  }

  lemma {:induction false} EarliestKey<K(!new)>(deadlines: map<K, nat>) returns (key: K)
    requires deadlines != map[]
    ensures key in deadlines && forall other :: other in deadlines ==> deadlines[key] <= deadlines[other]
    decreases |deadlines|
  {
    key :| key in deadlines;
    var rest := deadlines - {key};
    MapRemoval(deadlines, key);
    if rest != map[] {
      var best := EarliestKey(rest);
      key := if deadlines[best] < deadlines[key] then best else key;
      forall other | other in deadlines ensures deadlines[key] <= deadlines[other] {
        assert other in rest || rest == deadlines - {other};
      }
    } else {
      assert forall other :: other in deadlines && other != key ==> other in rest;
    }
  }

  lemma EarliestPending(s: State) returns (path: Path)
    requires s.pending != map[]
    ensures path in s.pending
    ensures forall other :: other in s.pending ==> s.pending[path].deadline <= s.pending[other].deadline
  {
    var deadlines := map other | other in s.pending :: s.pending[other].deadline;
    var some :| some in s.pending;
    assert some in deadlines;
    path := EarliestKey(deadlines);
    forall other | other in s.pending ensures deadlines[path] <= deadlines[other] {}
  }

  lemma EarliestTimer(s: State) returns (id: nat)
    requires s.timers != map[]
    ensures id in s.timers
    ensures forall other :: other in s.timers ==> s.timers[id].deadline <= s.timers[other].deadline
  {
    var deadlines := map other | other in s.timers :: s.timers[other].deadline;
    var some :| some in s.timers;
    assert some in deadlines;
    id := EarliestKey(deadlines);
    forall other | other in s.timers ensures deadlines[id] <= deadlines[other] {}
  }

  /** A busy watcher can always wait and then run its earliest callback. */
  lemma SomeCallbackRuns(s: State, content: Option<Hash>) returns (wait: Step, callback: Step)
    requires !Settled(s)
    ensures wait.Tick? && Enabled(s, wait)
    ensures callback.FlushDue? || callback.DeleteDue?
    ensures Enabled(s.(now := wait.to), callback)
  {
    var deadline: nat;
    if s.timers == map[] {
      var path := EarliestPending(s);
      deadline, callback := s.pending[path].deadline, FlushDue(path, content);
    } else if s.pending == map[] {
      var id := EarliestTimer(s);
      deadline, callback := s.timers[id].deadline, DeleteDue(id);
    } else {
      var path := EarliestPending(s);
      var id := EarliestTimer(s);
      if s.pending[path].deadline <= s.timers[id].deadline {
        deadline, callback := s.pending[path].deadline, FlushDue(path, content);
      } else {
        deadline, callback := s.timers[id].deadline, DeleteDue(id);
      }
    }
    wait := Tick(if s.now < deadline then deadline else s.now);
  }

  lemma WaitThenRun(cfg: Config, steps: seq<Step>, content: Option<Hash>) returns (next: seq<Step>)
    requires IsRun(cfg, steps) && Linked(After(cfg, steps)) && !Settled(After(cfg, steps))
    ensures |next| == 2 && NoRaw(next) && IsRun(cfg, steps + next)
    ensures Work(After(cfg, steps + next)) < Work(After(cfg, steps))
  {
    var s := After(cfg, steps);
    var wait, callback := SomeCallbackRuns(s, content);
    RunAppend(cfg, steps, wait);
    RunAppend(cfg, steps + [wait], callback);
    CallbacksConsumeWork(cfg, Next(cfg, s, wait), callback);
    next := [wait, callback];
    assert steps + next == steps + [wait] + [callback];
  }

  ghost predicate NoRaw(steps: seq<Step>) {
    forall k :: 0 <= k < |steps| ==> !steps[k].Raw?
  }

  lemma Joined(steps: seq<Step>, next: seq<Step>, rest: seq<Step>)
    ensures steps + (next + rest) == (steps + next) + rest
    ensures NoRaw(next) && NoRaw(rest) ==> NoRaw(next + rest)
  {
  }

  /** Once raw events stop, every run extends to a settled one in a bounded number of steps. */
  lemma {:induction false} EveryRunCanSettle(cfg: Config, steps: seq<Step>, content: Option<Hash>)
    returns (more: seq<Step>)
    requires IsRun(cfg, steps)
    ensures IsRun(cfg, steps + more) && Settled(After(cfg, steps + more))
    ensures |more| <= 2 * Work(After(cfg, steps)) && NoRaw(more)
    decreases Work(After(cfg, steps))
  {
    if Settled(After(cfg, steps)) {
      more := [];
      assert steps + more == steps;
    } else {
      DeletesAreConserved(cfg, steps, "");
      var next := WaitThenRun(cfg, steps, content);
      var rest := EveryRunCanSettle(cfg, steps + next, content);
      more := next + rest;
      Joined(steps, next, rest);
    }
  }
}
