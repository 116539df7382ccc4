/** Change capture: debounce per path, and delete/create pairing into moves. */
module Watcher {
  import opened ChangeEvents
  import opened Options

  datatype Config = Config(debounce: nat, window: nat)

  datatype RawEvent = AddRaw | ChangeRaw | UnlinkRaw

  datatype ChangeKind = CREATE | UPDATE | DELETE

  datatype PendingEntry = PendingEntry(kind: ChangeKind, deadline: nat)

  /** What `pendingDeletes` remembers for a hash: the deleted path and its timer. */
  datatype PendingDelete = PendingDelete(path: Path, timer: nat)

  /** A delete callback that has been scheduled and neither fired nor cleared. */
  datatype DeleteTimer = DeleteTimer(path: Path, hash: Hash, deadline: nat)

  datatype State = State(
    now: nat,
    pending: map<Path, PendingEntry>,
    cache: Tree,
    pendingDeletes: map<Hash, PendingDelete>,
    timers: map<nat, DeleteTimer>,
    nextTimer: nat,
    log: seq<ChangeEvent>)

  const INITIAL := State(0, map[], map[], map[], map[], 0, [])

  function KindOf(raw: RawEvent): ChangeKind {
    match raw
    case AddRaw => CREATE
    case ChangeRaw => UPDATE
    case UnlinkRaw => DELETE
  }

  // -------------------------------------------------------------------------
  // The watcher's operations on its state
  // -------------------------------------------------------------------------

  /** A later event of the same path replaces the earlier one and restarts its debounce. */
  function Schedule(cfg: Config, s: State, path: Path, kind: ChangeKind): State {
    s.(pending := s.pending[path := PendingEntry(kind, s.now + cfg.debounce)])
  }

  function FlushDelete(cfg: Config, s: State, path: Path): State {
    if path !in s.cache then s
    else
      var hash := s.cache[path];
      s.(cache := s.cache - {path},
         timers := s.timers[s.nextTimer := DeleteTimer(path, hash, s.now + cfg.window)],
         nextTimer := s.nextTimer + 1,
         pendingDeletes := s.pendingDeletes[hash := PendingDelete(path, s.nextTimer)])
  }

  function FlushContent(s: State, path: Path, kind: ChangeKind, hash: Hash): State
    requires kind != DELETE
  {
    if kind == CREATE && hash in s.pendingDeletes then
      var matched := s.pendingDeletes[hash];
      s.(timers := s.timers - {matched.timer},
         pendingDeletes := s.pendingDeletes - {hash},
         cache := s.cache[path := hash],
         log := s.log + [Move(path, matched.path, hash)])
    else
      s.(cache := s.cache[path := hash],
         log := s.log + [if kind == CREATE then Create(path, hash) else Update(path, hash)])
  }

  /** `content` is the hash read from disk, or `None` when the file cannot be read. */
  function Flush(cfg: Config, s: State, path: Path, content: Option<Hash>): State {
    if path !in s.pending then s
    else
      var kind := s.pending[path].kind;
      var rest := s.(pending := s.pending - {path});
      if kind == DELETE then FlushDelete(cfg, rest, path)
      else if content.None? then rest
      else FlushContent(rest, path, kind, content.value)
  }

  function FireDelete(s: State, id: nat): State {
    if id !in s.timers then s
    else
      var timer := s.timers[id];
      s.(timers := s.timers - {id},
         pendingDeletes := s.pendingDeletes - {timer.hash},
         log := s.log + [Delete(timer.path)])
  }

  // -------------------------------------------------------------------------
  // Runs
  // -------------------------------------------------------------------------

  datatype Step =
    | Tick(to: nat)
    | Raw(raw: RawEvent, path: Path, admitted: bool)  // admitted: path filter, root guard and size limit
    | FlushDue(path: Path, content: Option<Hash>)
    | DeleteDue(id: nat)

  function Next(cfg: Config, s: State, step: Step): State {
    match step
    case Tick(to) => s.(now := to)
    case Raw(raw, path, admitted) => if admitted then Schedule(cfg, s, path, KindOf(raw)) else s
    case FlushDue(path, content) => Flush(cfg, s, path, content)
    case DeleteDue(id) => FireDelete(s, id)
  }

  /** No scheduled callback is due before `deadline`. */
  ghost predicate Earliest(s: State, deadline: nat) {
    && (forall path :: path in s.pending ==> deadline <= s.pending[path].deadline)
    && (forall id :: id in s.timers ==> deadline <= s.timers[id].deadline)
  }

  /**
   * Callbacks run at or after their deadline, in deadline order; equal deadlines in any order. The order
   * across the two durations is what a timer loop that keeps up does; `WatcherLateness` does without it.
   */
  ghost predicate Enabled(s: State, step: Step) {
    match step
    case Tick(to) => s.now <= to
    case Raw(_, _, _) => true
    case FlushDue(path, _) =>
      path in s.pending && s.pending[path].deadline <= s.now && Earliest(s, s.pending[path].deadline)
    case DeleteDue(id) =>
      id in s.timers && s.timers[id].deadline <= s.now && Earliest(s, s.timers[id].deadline)
  }

  function After(cfg: Config, steps: seq<Step>): State {
    if steps == [] then INITIAL
    else Next(cfg, After(cfg, steps[..|steps| - 1]), steps[|steps| - 1])
  }

  ghost predicate IsRun(cfg: Config, steps: seq<Step>) {
    steps == []
    || (IsRun(cfg, steps[..|steps| - 1]) && Enabled(After(cfg, steps[..|steps| - 1]), steps[|steps| - 1]))
  }

  lemma RunAppend(cfg: Config, steps: seq<Step>, step: Step)
    ensures After(cfg, steps + [step]) == Next(cfg, After(cfg, steps), step)
    ensures IsRun(cfg, steps + [step]) <==> IsRun(cfg, steps) && Enabled(After(cfg, steps), step)
  {
    assert (steps + [step])[..|steps|] == steps;
  }

  // -------------------------------------------------------------------------
  // Invariants
  // -------------------------------------------------------------------------

  /** Holds whatever the two durations are: a remembered delete still has its own timer running. */
  ghost predicate Linked(s: State) {
    && (forall id :: id in s.timers ==> id < s.nextTimer)
    && (forall hash :: hash in s.pendingDeletes ==>
          var entry := s.pendingDeletes[hash];
          && entry.timer in s.timers
          && s.timers[entry.timer].path == entry.path
          && s.timers[entry.timer].hash == hash)
  }

  /**
   * Paths awaiting deletion are not cached, are distinct, and are flushed again no earlier than the debounce
   * exceeds the window after their timer.
   */
  ghost predicate Timed(cfg: Config, s: State) {
    forall id :: id in s.timers ==>
      var timer := s.timers[id];
      && timer.deadline <= s.now + cfg.window
      && timer.path !in s.cache
      && (timer.path in s.pending ==> timer.deadline + cfg.debounce <= s.pending[timer.path].deadline + cfg.window)
      && (forall other :: other in s.timers && s.timers[other].path == timer.path ==> other == id)
  }

  ghost function Awaiting(s: State): set<Path> {
    set id | id in s.timers :: s.timers[id].path
  }

  /** The replayed log is exactly the cache together with the deletes still in flight. */
  ghost predicate Agrees(s: State) {
    var tree := Replay(s.log);
    && tree.Keys == s.cache.Keys + Awaiting(s)
    && (forall path :: path in s.cache ==> tree[path] == s.cache[path])
    && (forall id :: id in s.timers ==> tree[s.timers[id].path] == s.timers[id].hash)
  }

  ghost predicate Inv(cfg: Config, s: State) {
    Linked(s) && Timed(cfg, s) && Agrees(s) && AllGrounded(s.log)
  }

  lemma LinkedStep(cfg: Config, s: State, step: Step)
    requires Linked(s)
    ensures Linked(Next(cfg, s, step))
  {
  }

  /** A due flush finds no delete timer of its own path: the timer was due strictly earlier. */
  lemma NoTimerOnFlush(cfg: Config, s: State, path: Path)
    requires cfg.window < cfg.debounce
    requires Timed(cfg, s) && path in s.pending && Earliest(s, s.pending[path].deadline)
    ensures path !in Awaiting(s)
  {
  }

  /** No flush finds a delete timer of its own path: all that the state needs of the order of callbacks. */
  ghost predicate OnTime(s: State, step: Step) {
    step.FlushDue? ==> step.path !in Awaiting(s)
  }

  lemma OrderIsOnTime(cfg: Config, s: State, step: Step)
    requires cfg.window < cfg.debounce && Timed(cfg, s) && Enabled(s, step)
    ensures OnTime(s, step)
  {
    if step.FlushDue? {
      NoTimerOnFlush(cfg, s, step.path);
    }
  }

  lemma TimedStep(cfg: Config, s: State, step: Step)
    requires Linked(s) && Timed(cfg, s) && OnTime(s, step) && (step.Tick? ==> s.now <= step.to)
    ensures Timed(cfg, Next(cfg, s, step))
  {
  }

  lemma FlushDeleteAgrees(cfg: Config, s: State, path: Path)
    requires Linked(s) && Agrees(s) && path !in Awaiting(s)
    ensures Agrees(FlushDelete(cfg, s, path))
  {
    if path in s.cache {
      var t := FlushDelete(cfg, s, path);
      assert t.timers[s.nextTimer].path == path;
      forall other | other in Awaiting(s) ensures other in Awaiting(t) {
        var id :| id in s.timers && s.timers[id].path == other;
        assert t.timers[id].path == other;
      }
    }
  }

  lemma PutKeepsAgreement(s: State, t: State, path: Path, hash: Hash)
    requires Agrees(s) && path !in Awaiting(s) && t.timers == s.timers && t.cache == s.cache[path := hash]
    requires Replay(t.log) == Replay(s.log)[path := hash]
    ensures Agrees(t)
  {
    assert Awaiting(t) == Awaiting(s);
    forall id | id in t.timers ensures t.timers[id].path in Awaiting(s) {}
  }

  lemma PutAgrees(s: State, path: Path, kind: ChangeKind, hash: Hash)
    requires kind != DELETE && Agrees(s) && AllGrounded(s.log) && path !in Awaiting(s)
    requires kind != CREATE || hash !in s.pendingDeletes
    ensures Agrees(FlushContent(s, path, kind, hash)) && AllGrounded(FlushContent(s, path, kind, hash).log)
  {
    var event := if kind == CREATE then Create(path, hash) else Update(path, hash);
    ReplayAppend(s.log, event);
    PutKeepsAgreement(s, FlushContent(s, path, kind, hash), path, hash);
  }

  lemma MoveKeepsAgreement(cfg: Config, s: State, t: State, timer: nat, path: Path, hash: Hash)
    requires Timed(cfg, s) && Agrees(s) && path !in Awaiting(s) && timer in s.timers
    requires t.timers == s.timers - {timer} && t.cache == s.cache[path := hash]
    requires Replay(t.log) == (Replay(s.log) - {s.timers[timer].path})[path := hash]
    ensures Agrees(t)
  {
    var gone := s.timers[timer].path;
    AwaitingWithout(cfg, s, t, timer);
    assert gone in Awaiting(s) && gone !in s.cache;
    forall id | id in t.timers ensures t.timers[id].path in Awaiting(t) {}
  }

  lemma MoveAgrees(cfg: Config, s: State, path: Path, hash: Hash)
    requires Linked(s) && Timed(cfg, s) && Agrees(s) && AllGrounded(s.log)
    requires path !in Awaiting(s) && hash in s.pendingDeletes
    ensures Agrees(FlushContent(s, path, CREATE, hash)) && AllGrounded(FlushContent(s, path, CREATE, hash).log)
  {
    var entry := s.pendingDeletes[hash];
    assert entry.path in Awaiting(s);
    ReplayAppend(s.log, Move(path, entry.path, hash));
    MoveKeepsAgreement(cfg, s, FlushContent(s, path, CREATE, hash), entry.timer, path, hash);
  }

  lemma AwaitingWithout(cfg: Config, s: State, t: State, id: nat)
    requires Timed(cfg, s) && id in s.timers && t.timers == s.timers - {id}
    ensures Awaiting(t) == Awaiting(s) - {s.timers[id].path}
  {
    forall path | path in Awaiting(s) && path != s.timers[id].path ensures path in Awaiting(t) {
      var other :| other in s.timers && s.timers[other].path == path;
      assert t.timers[other].path == path;
    }
  }

  lemma FireDeleteAgrees(cfg: Config, s: State, id: nat)
    requires Timed(cfg, s) && Agrees(s) && AllGrounded(s.log) && id in s.timers
    ensures Agrees(FireDelete(s, id)) && AllGrounded(FireDelete(s, id).log)
  {
    var t := FireDelete(s, id);
    assert s.timers[id].path in Awaiting(s);
    ReplayAppend(s.log, Delete(s.timers[id].path));
    AwaitingWithout(cfg, s, t, id);
  }

  lemma StepKeepsInv(cfg: Config, s: State, step: Step)
    requires Inv(cfg, s) && OnTime(s, step) && (step.Tick? ==> s.now <= step.to)
    ensures Inv(cfg, Next(cfg, s, step))
  {
    LinkedStep(cfg, s, step);
    TimedStep(cfg, s, step);
    match step
    case Tick(_) =>
    case Raw(_, _, _) =>
    case FlushDue(path, content) =>
      if path in s.pending {
        FlushKeepsAgreement(cfg, s, path, content);
      }
    case DeleteDue(id) =>
      if id in s.timers {
        FireDeleteAgrees(cfg, s, id);
      }
  }

  lemma FlushKeepsAgreement(cfg: Config, s: State, path: Path, content: Option<Hash>)
    requires Inv(cfg, s) && path in s.pending && path !in Awaiting(s)
    ensures Agrees(Flush(cfg, s, path, content)) && AllGrounded(Flush(cfg, s, path, content).log)
  {
    var rest := s.(pending := s.pending - {path});
    assert Awaiting(rest) == Awaiting(s);
    var kind := s.pending[path].kind;
    if kind == DELETE {
      FlushDeleteAgrees(cfg, rest, path);
    } else if content.Some? {
      if kind == CREATE && content.value in rest.pendingDeletes {
        MoveAgrees(cfg, rest, path, content.value);
      } else {
        PutAgrees(rest, path, kind, content.value);
      }
    }
  }

  lemma {:induction false} RunKeepsInv(cfg: Config, steps: seq<Step>)
    requires cfg.window < cfg.debounce && IsRun(cfg, steps)
    ensures Inv(cfg, After(cfg, steps))
  {
    if steps != [] {
      var prefix := steps[..|steps| - 1];
      RunKeepsInv(cfg, prefix);
      OrderIsOnTime(cfg, After(cfg, prefix), steps[|steps| - 1]);
      StepKeepsInv(cfg, After(cfg, prefix), steps[|steps| - 1]);
    }
  }
}
