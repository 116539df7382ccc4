/** From the watched directory, through the watcher and the queue, to the server. */
module EndToEnd {
  import opened ChangeEvents
  import opened Options
  import opened Watcher
  import opened WatcherRuns
  import opened WatcherDisk
  import opened DeliveryQueue

  /** `behind` holds the paths whose latest event was refused. */
  datatype System = System(world: World, queue: Queue, refused: nat, behind: set<Path>)

  datatype SystemStep =
    | OnDisk(change: DiskStep)
    | OnQueue(progress: QueueStep)

  function Fresh(capacity: nat): System {
    System(START, Empty(capacity), 0, {})
  }

  /** The paths an event says something about. */
  function Mentions(event: ChangeEvent): set<Path> {
    if event.Move? then {event.path, event.previous} else {event.path}
  }

  /** Each event the watcher emits is enqueued at once; a full queue refuses it. */
  function NextSystem(cfg: Config, s: System, step: SystemStep): System
    requires step.OnQueue? ==> Ready(s.queue, step.progress)
  {
    match step
    case OnQueue(q) => s.(queue := NextQueue(s.queue, q))
    case OnDisk(d) =>
      var world := NextWorld(cfg, s.world, d);
      var log := world.watcher.log;
      if |log| <= |s.world.watcher.log| then s.(world := world)
      else
        var event := log[|log| - 1];
        System(
          world, Enqueue(s.queue, event),
          s.refused + (if Full(s.queue) then 1 else 0),
          if Full(s.queue) then s.behind + Mentions(event) else s.behind - Mentions(event))
  }

  ghost predicate CanTake(s: System, step: SystemStep) {
    match step
    case OnDisk(d) => Possible(s.world, d)
    case OnQueue(q) => !q.Offer? && Ready(s.queue, q)
  }

  ghost predicate IsHistory(cfg: Config, capacity: nat, trail: seq<System>, steps: seq<SystemStep>) {
    && |trail| == |steps| + 1 && trail[0] == Fresh(capacity)
    && forall k :: 0 <= k < |steps| ==>
         CanTake(trail[k], steps[k]) && trail[k + 1] == NextSystem(cfg, trail[k], steps[k])
  }

  // -------------------------------------------------------------------------
  // Each side of a history is a run of its own machine
  // -------------------------------------------------------------------------

  lemma DiskSideStep(cfg: Config, disk: seq<DiskStep>, s: System, step: SystemStep) returns (more: seq<DiskStep>)
    requires IsDiskRun(cfg, disk) && WorldAfter(cfg, disk) == s.world && CanTake(s, step)
    ensures IsDiskRun(cfg, more) && WorldAfter(cfg, more) == NextSystem(cfg, s, step).world
  {
    match step
    case OnQueue(_) => more := disk;
    case OnDisk(change) =>
      more := disk + [change];
      DiskAppend(cfg, disk, change);
      SystemShowsTheWorld(cfg, s, change);
  }

  lemma SystemShowsTheWorld(cfg: Config, s: System, change: DiskStep)
    ensures NextSystem(cfg, s, OnDisk(change)).world == NextWorld(cfg, s.world, change)
  {
  }

  lemma {:induction false} DiskSide(cfg: Config, capacity: nat, trail: seq<System>, steps: seq<SystemStep>, k: nat)
    returns (disk: seq<DiskStep>)
    requires IsHistory(cfg, capacity, trail, steps) && k < |trail|
    ensures IsDiskRun(cfg, disk) && WorldAfter(cfg, disk) == trail[k].world
  {
    if k == 0 {
      disk := [];
    } else {
      disk := DiskSide(cfg, capacity, trail, steps, k - 1);
      disk := DiskSideStep(cfg, disk, trail[k - 1], steps[k - 1]);
    }
  }

  lemma LogGrowsByOne(cfg: Config, s: State, step: Step)
    ensures var t := Next(cfg, s, step);
      t.log == s.log || (|t.log| == |s.log| + 1 && t.log[..|s.log|] == s.log)
  {
  }

  /** The queue's state and arrivals after a history, with the count of refused events. */
  ghost predicate Accounted(s: System, copies: seq<nat>) {
    && Sound(s.queue) && Seen(s.queue, copies)
    && |s.queue.accepted| + s.refused == |s.world.watcher.log|
    && (s.refused == 0 ==> s.queue.accepted == s.world.watcher.log)
  }

  lemma AccountedStep(cfg: Config, s: System, step: SystemStep, copies: seq<nat>) returns (more: seq<nat>)
    requires Accounted(s, copies) && CanTake(s, step)
    ensures Accounted(NextSystem(cfg, s, step), more)
  {
    match step
    case OnQueue(q) =>
      SoundStep(s.queue, q);
      more := SeenStep(s.queue, q, copies);
    case OnDisk(d) =>
      var t := NextWorld(cfg, s.world, d).watcher;
      LogGrowsByOne(cfg, s.world.watcher, Observed(s.world, d));
      more := copies;
      if |t.log| > |s.world.watcher.log| {
        var event := t.log[|t.log| - 1];
        assert t.log == s.world.watcher.log + [event];
        SoundStep(s.queue, Offer(event));
        more := SeenStep(s.queue, Offer(event), copies);
      }
  }

  lemma {:induction false} QueueSide(cfg: Config, capacity: nat, trail: seq<System>, steps: seq<SystemStep>, k: nat)
    returns (copies: seq<nat>)
    requires IsHistory(cfg, capacity, trail, steps) && k < |trail|
    ensures Accounted(trail[k], copies)
  {
    if k == 0 {
      copies := [];
    } else {
      copies := QueueSide(cfg, capacity, trail, steps, k - 1);
      copies := AccountedStep(cfg, trail[k - 1], steps[k - 1], copies);
    }
  }

  // -------------------------------------------------------------------------
  // Guarantees
  // -------------------------------------------------------------------------

  /** The queue holds the watcher's whole log exactly when it has refused nothing. */
  lemma NothingLostExactlyWhenNothingRefused(
      cfg: Config, capacity: nat, trail: seq<System>, steps: seq<SystemStep>, k: nat)
    requires IsHistory(cfg, capacity, trail, steps) && k < |trail|
    ensures trail[k].queue.accepted == trail[k].world.watcher.log <==> trail[k].refused == 0
  {
    var _ := QueueSide(cfg, capacity, trail, steps, k);
  }

  // -------------------------------------------------------------------------
  // Path by path, whatever was refused
  // -------------------------------------------------------------------------

  /** What the latest event about a path says of it; a move takes its old path away and puts content at the new one. */
  function LastWord(log: seq<ChangeEvent>, path: Path): Option<Hash> {
    if log == [] then None
    else
      var event := log[|log| - 1];
      if path !in Mentions(event) then LastWord(log[..|log| - 1], path)
      else if event.Delete? || event.path != path then None
      else Some(event.hash)
  }

  lemma {:induction false} ReplayIsLastWord(log: seq<ChangeEvent>, path: Path)
    ensures Lookup(Replay(log), path) == LastWord(log, path)
  {
    if log != [] {
      ReplayIsLastWord(log[..|log| - 1], path);
    }
  }

  lemma LastWordAppend(log: seq<ChangeEvent>, event: ChangeEvent, path: Path)
    ensures LastWord(log + [event], path) ==
      if path !in Mentions(event) then LastWord(log, path)
      else if event.Delete? || event.path != path then None
      else Some(event.hash)
  {
    assert (log + [event])[..|log|] == log;
  }

  /** Where a path's latest event was accepted, the queue's last word on it is the watcher's. */
  ghost predicate InStep(s: System) {
    forall path :: path !in s.behind ==> LastWord(s.queue.accepted, path) == LastWord(s.world.watcher.log, path)
  }

  lemma EmittedKeepsInStep(s: System, t: System, event: ChangeEvent)
    requires InStep(s) && t.world.watcher.log == s.world.watcher.log + [event]
    requires t.queue.accepted == if Full(s.queue) then s.queue.accepted else s.queue.accepted + [event]
    requires t.behind == if Full(s.queue) then s.behind + Mentions(event) else s.behind - Mentions(event)
    ensures InStep(t)
  {
    forall path | path !in t.behind
      ensures LastWord(t.queue.accepted, path) == LastWord(t.world.watcher.log, path)
    {
      LastWordAppend(s.world.watcher.log, event, path);
      LastWordAppend(s.queue.accepted, event, path);
    }
  }

  lemma InStepStep(cfg: Config, s: System, step: SystemStep)
    requires InStep(s) && CanTake(s, step)
    ensures InStep(NextSystem(cfg, s, step))
  {
    var t := NextSystem(cfg, s, step);
    match step
    case OnQueue(_) =>
    case OnDisk(d) =>
      var log := NextWorld(cfg, s.world, d).watcher.log;
      LogGrowsByOne(cfg, s.world.watcher, Observed(s.world, d));
      if |log| > |s.world.watcher.log| {
        assert log == s.world.watcher.log + [log[|log| - 1]];
        EmittedKeepsInStep(s, t, log[|log| - 1]);
      }
  }

  lemma {:induction false} HistoryStaysInStep(
      cfg: Config, capacity: nat, trail: seq<System>, steps: seq<SystemStep>, k: nat)
    requires IsHistory(cfg, capacity, trail, steps) && k < |trail|
    ensures InStep(trail[k])
  {
    if k > 0 {
      HistoryStaysInStep(cfg, capacity, trail, steps, k - 1);
      InStepStep(cfg, trail[k - 1], steps[k - 1]);
    }
  }

  /**
   * With the queue empty and all timers quiet, and however many events were refused on the way, the server shows the
   * cache at a path exactly when the last accepted event about the path says what the watcher's last one said; it
   * does wherever the latest event was accepted, and there it shows the directory but for what slipped.
   */
  lemma ServerShowsThePathExactlyWhen(
      cfg: Config, capacity: nat, trail: seq<System>, steps: seq<SystemStep>, k: nat, path: Path)
    requires cfg.window < cfg.debounce
    requires IsHistory(cfg, capacity, trail, steps) && k < |trail|
    requires trail[k].queue.pending == [] && Settled(trail[k].world.watcher)
    ensures var s := trail[k];
      var server := Replay(s.queue.received);
      && (Lookup(server, path) == Lookup(s.world.watcher.cache, path) <==>
          LastWord(s.queue.accepted, path) == LastWord(s.world.watcher.log, path))
      && (path !in s.behind ==> Lookup(server, path) == Lookup(s.world.watcher.cache, path))
      && (path !in s.behind ==> (Lookup(server, path) == Lookup(s.world.disk, path) <==> path !in s.world.missed))
  {
    var s := trail[k];
    var copies := QueueSide(cfg, capacity, trail, steps, k);
    RepeatsAreHarmless(s.queue.accepted[..|copies|], copies);
    assert s.queue.accepted[..|copies|] == s.queue.accepted;
    var disk := DiskSide(cfg, capacity, trail, steps, k);
    var observed := DiskRunIsRun(cfg, disk);
    ReplayIsCachePlusInFlight(cfg, observed);
    SettledReplayIsDisk(cfg, disk);
    ReplayIsLastWord(s.queue.accepted, path);
    ReplayIsLastWord(s.world.watcher.log, path);
    HistoryStaysInStep(cfg, capacity, trail, steps, k);
  }

  /** At every moment the server shows the replay of some prefix of the watcher's log. */
  lemma ServerShowsAPrefix(cfg: Config, capacity: nat, trail: seq<System>, steps: seq<SystemStep>, k: nat)
    returns (n: nat)
    requires IsHistory(cfg, capacity, trail, steps) && k < |trail| && trail[k].refused == 0
    ensures n <= |trail[k].world.watcher.log|
    ensures |trail[k].queue.acknowledged| <= n <= |trail[k].queue.acknowledged| + 1
    ensures Replay(trail[k].queue.received) == Replay(trail[k].world.watcher.log[..n])
  {
    var copies := QueueSide(cfg, capacity, trail, steps, k);
    n := |copies|;
    RepeatsAreHarmless(trail[k].queue.accepted[..n], copies);
  }

  /** With the queue empty and all timers quiet, the server shows the directory but for what slipped. */
  lemma ServerConvergesToDisk(cfg: Config, capacity: nat, trail: seq<System>, steps: seq<SystemStep>, k: nat)
    requires cfg.window < cfg.debounce
    requires IsHistory(cfg, capacity, trail, steps) && k < |trail| && trail[k].refused == 0
    requires trail[k].queue.pending == [] && Settled(trail[k].world.watcher)
    ensures var s := trail[k];
      && Replay(s.queue.received) == s.world.watcher.cache
      && (forall path ::
            Lookup(Replay(s.queue.received), path) == Lookup(s.world.disk, path) <==> path !in s.world.missed)
      && (Replay(s.queue.received) == s.world.disk <==> s.world.missed == {})
  {
    var s := trail[k];
    var copies := QueueSide(cfg, capacity, trail, steps, k);
    RepeatsAreHarmless(s.queue.accepted[..|copies|], copies);
    assert s.queue.accepted[..|copies|] == s.world.watcher.log;
    var disk := DiskSide(cfg, capacity, trail, steps, k);
    var observed := DiskRunIsRun(cfg, disk);
    ReplayIsCachePlusInFlight(cfg, observed);
    SettledReplayIsDisk(cfg, disk);
  }
}
