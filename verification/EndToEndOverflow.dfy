/** A queue that overflows: for every capacity, a history after which the server never learns the last change. */
module EndToEndOverflow {
  import opened ChangeEvents
  import opened Options
  import opened Watcher
  import opened WatcherRuns
  import opened WatcherDisk
  import opened DeliveryQueue
  import opened EndToEnd

  /** One file is rewritten over and over, with content that alternates. */
  function Content(round: nat): Hash {
    if round % 2 == 0 then "1" else "2"
  }

  function EventOf(round: nat): ChangeEvent {
    if round == 0 then Create("a", Content(0)) else Update("a", Content(round))
  }

  function LogOf(rounds: nat): seq<ChangeEvent> {
    if rounds == 0 then [] else LogOf(rounds - 1) + [EventOf(rounds - 1)]
  }

  function DiskAfter(rounds: nat): Tree {
    if rounds == 0 then map[] else map["a" := Content(rounds - 1)]
  }

  function WorldAt(cfg: Config, rounds: nat): World {
    World(DiskAfter(rounds), {},
          State(rounds * cfg.debounce, map[], DiskAfter(rounds), map[], map[], 0, LogOf(rounds)))
  }

  lemma {:induction false} LogLength(rounds: nat)
    ensures |LogOf(rounds)| == rounds && (rounds > 0 ==> LogOf(rounds)[0] == EventOf(0))
  {
    if rounds > 0 {
      LogLength(rounds - 1);
    }
  }

  lemma ReplayGoesOn(log: seq<ChangeEvent>, event: ChangeEvent, tree: Tree, next: Tree)
    requires Replay(log) == tree && Apply(event, tree) == next
    ensures Replay(log + [event]) == next
  {
    ReplayAppend(log, event);
  }

  lemma {:induction false} LogReplay(rounds: nat)
    ensures Replay(LogOf(rounds)) == DiskAfter(rounds)
  {
    if rounds > 0 {
      LogReplay(rounds - 1);
      EventRewrites(rounds - 1);
      ReplayGoesOn(LogOf(rounds - 1), EventOf(rounds - 1), DiskAfter(rounds - 1), DiskAfter(rounds));
    }
  }

  lemma EventRewrites(rounds: nat)
    ensures Apply(EventOf(rounds), DiskAfter(rounds)) == DiskAfter(rounds + 1)
  {
    assert DiskAfter(rounds)["a" := Content(rounds)] == DiskAfter(rounds + 1);
  }

  /** No report has come back yet: the queue holds every accepted event, its drain awaits the first. */
  function QueueAt(capacity: nat, rounds: nat): Queue
    requires |LogOf(rounds)| == rounds
  {
    if rounds == 0 then Empty(capacity)
    else
      var log := LogOf(rounds);
      Queue(capacity, log, Some(0), map[0 := Reporting(log[0])], 1, 0, log, [], [], [])
  }

  lemma EnqueueFills(capacity: nat, rounds: nat)
    requires rounds < capacity && |LogOf(rounds)| == rounds && |LogOf(rounds + 1)| == rounds + 1
    ensures Enqueue(QueueAt(capacity, rounds), EventOf(rounds)) == QueueAt(capacity, rounds + 1)
  {
    LogLength(rounds);
    LogLength(rounds + 1);
    if rounds == 0 {
      assert LogOf(1) == [EventOf(0)];
    }
  }

  // -------------------------------------------------------------------------
  // Building the history
  // -------------------------------------------------------------------------

  lemma Extended(cfg: Config, capacity: nat, trail: seq<System>, steps: seq<SystemStep>, step: SystemStep)
    requires IsHistory(cfg, capacity, trail, steps) && CanTake(trail[|steps|], step)
    ensures IsHistory(cfg, capacity, trail + [NextSystem(cfg, trail[|steps|], step)], steps + [step])
  {
    var longer, all := trail + [NextSystem(cfg, trail[|steps|], step)], steps + [step];
    forall k | 0 <= k < |all|
      ensures CanTake(longer[k], all[k]) && longer[k + 1] == NextSystem(cfg, longer[k], all[k])
    {
      if k < |steps| {
        assert longer[k] == trail[k] && longer[k + 1] == trail[k + 1] && all[k] == steps[k];
      }
    }
  }

  /** The world between the write and the flush of a round. */
  function WorldWaiting(cfg: Config, rounds: nat, now: nat): World {
    var before := WorldAt(cfg, rounds).watcher;
    var kind := if rounds == 0 then CREATE else UPDATE;
    World(DiskAfter(rounds + 1), {},
          before.(pending := map["a" := PendingEntry(kind, (rounds + 1) * cfg.debounce)], now := now))
  }

  lemma RoundSteps(cfg: Config, rounds: nat)
    ensures var w, d := WorldAt(cfg, rounds), cfg.debounce;
      && Possible(w, Write("a", Content(rounds), true))
      && NextWorld(cfg, w, Write("a", Content(rounds), true)) == WorldWaiting(cfg, rounds, rounds * d)
      && Possible(WorldWaiting(cfg, rounds, rounds * d), Wait((rounds + 1) * d))
      && NextWorld(cfg, WorldWaiting(cfg, rounds, rounds * d), Wait((rounds + 1) * d))
         == WorldWaiting(cfg, rounds, (rounds + 1) * d)
  {
    assert (rounds + 1) * cfg.debounce == rounds * cfg.debounce + cfg.debounce;
    var w := NextWorld(cfg, WorldAt(cfg, rounds), Write("a", Content(rounds), true));
    assert w.disk == DiskAfter(rounds + 1);
    assert w.missed == {};
    var kind := if rounds == 0 then CREATE else UPDATE;
    assert w.watcher.pending == map["a" := PendingEntry(kind, (rounds + 1) * cfg.debounce)];
  }

  lemma RoundFlush(cfg: Config, rounds: nat)
    ensures var w := WorldWaiting(cfg, rounds, (rounds + 1) * cfg.debounce);
      Possible(w, FlushTimer("a")) && NextWorld(cfg, w, FlushTimer("a")) == WorldAt(cfg, rounds + 1)
  {
    var w := WorldWaiting(cfg, rounds, (rounds + 1) * cfg.debounce);
    assert w.watcher.pending - {"a"} == map[];
    assert DiskAfter(rounds)["a" := Content(rounds)] == DiskAfter(rounds + 1);
  }

  /** One round: the file is written, its debounce runs out, and the event meets the queue as it stands. */
  lemma Round(cfg: Config, capacity: nat, trail: seq<System>, steps: seq<SystemStep>, rounds: nat)
    returns (longer: seq<System>, all: seq<SystemStep>)
    requires IsHistory(cfg, capacity, trail, steps) && trail[|steps|].world == WorldAt(cfg, rounds)
    ensures IsHistory(cfg, capacity, longer, all)
    ensures longer[|all|] == System(
      WorldAt(cfg, rounds + 1), Enqueue(trail[|steps|].queue, EventOf(rounds)),
      trail[|steps|].refused + (if Full(trail[|steps|].queue) then 1 else 0),
      if Full(trail[|steps|].queue) then trail[|steps|].behind + {"a"} else trail[|steps|].behind - {"a"})
  {
    var s := trail[|steps|];
    var write, wait, flush := Write("a", Content(rounds), true), Wait((rounds + 1) * cfg.debounce), FlushTimer("a");
    RoundSteps(cfg, rounds);
    RoundFlush(cfg, rounds);
    LogLength(rounds);
    LogLength(rounds + 1);
    Extended(cfg, capacity, trail, steps, OnDisk(write));
    var s1 := NextSystem(cfg, s, OnDisk(write));
    assert s1 == s.(world := WorldWaiting(cfg, rounds, rounds * cfg.debounce));
    Extended(cfg, capacity, trail + [s1], steps + [OnDisk(write)], OnDisk(wait));
    var s2 := NextSystem(cfg, s1, OnDisk(wait));
    assert s2 == s.(world := WorldWaiting(cfg, rounds, (rounds + 1) * cfg.debounce));
    Extended(cfg, capacity, trail + [s1] + [s2], steps + [OnDisk(write)] + [OnDisk(wait)], OnDisk(flush));
    var s3 := NextSystem(cfg, s2, OnDisk(flush));
    longer, all := trail + [s1] + [s2] + [s3], steps + [OnDisk(write)] + [OnDisk(wait)] + [OnDisk(flush)];
  }

  /** As many rounds as the queue has room for. */
  lemma {:induction false} Rounds(cfg: Config, capacity: nat, rounds: nat)
    returns (trail: seq<System>, steps: seq<SystemStep>)
    requires rounds <= capacity
    ensures |LogOf(rounds)| == rounds && IsHistory(cfg, capacity, trail, steps)
    ensures trail[|steps|] == System(WorldAt(cfg, rounds), QueueAt(capacity, rounds), 0, {})
  {
    LogLength(rounds);
    if rounds == 0 {
      trail, steps := [Fresh(capacity)], [];
    } else {
      trail, steps := Rounds(cfg, capacity, rounds - 1);
      EnqueueFills(capacity, rounds - 1);
      trail, steps := Round(cfg, capacity, trail, steps, rounds - 1);
    }
  }

  /** The queue after `done` of its events have been acknowledged. */
  function Draining(capacity: nat, done: nat): Queue
    requires done <= capacity && |LogOf(capacity)| == capacity > 0
  {
    var log := LogOf(capacity);
    Queue(capacity, log[done..], Some(0), map[0 := LoopHead(log[done..])], 1, 0, log, log[..done], log[..done], [])
  }

  lemma ReportDrains(capacity: nat, done: nat)
    requires done < capacity && |LogOf(capacity)| == capacity
    ensures Ready(Draining(capacity, done), ReportOk(0))
    ensures NextQueue(Draining(capacity, done), ReportOk(0)) == Draining(capacity, done + 1)
  {
    var log := LogOf(capacity);
    assert log[done..][1..] == log[done + 1..] && log[..done] + [log[done]] == log[..done + 1];
  }

  lemma {:induction false} Reports(
      cfg: Config, capacity: nat, trail: seq<System>, steps: seq<SystemStep>, done: nat)
    returns (longer: seq<System>, all: seq<SystemStep>)
    requires |LogOf(capacity)| == capacity > 0 && done <= capacity
    requires IsHistory(cfg, capacity, trail, steps)
    requires trail[|steps|].queue == Draining(capacity, 0)
    ensures IsHistory(cfg, capacity, longer, all)
    ensures longer[|all|] == trail[|steps|].(queue := Draining(capacity, done))
  {
    longer, all := trail, steps;
    if done > 0 {
      longer, all := Reports(cfg, capacity, trail, steps, done - 1);
      ReportDrains(capacity, done - 1);
      Extended(cfg, capacity, longer, all, OnQueue(ReportOk(0)));
      longer, all := longer + [NextSystem(cfg, longer[|all|], OnQueue(ReportOk(0)))], all + [OnQueue(ReportOk(0))];
    }
  }

  lemma Drained(cfg: Config, capacity: nat, trail: seq<System>, steps: seq<SystemStep>)
    returns (longer: seq<System>, all: seq<SystemStep>)
    requires |LogOf(capacity)| == capacity && IsHistory(cfg, capacity, trail, steps)
    requires trail[|steps|].queue == QueueAt(capacity, capacity)
    ensures IsHistory(cfg, capacity, longer, all)
    ensures longer[|all|] == trail[|steps|].(queue := longer[|all|].queue)
    ensures longer[|all|].queue.pending == [] && longer[|all|].queue.received == LogOf(capacity)
  {
    longer, all := trail, steps;
    if capacity > 0 {
      var log := LogOf(capacity);
      assert log[0..] == log && log[..0] == [] && log[capacity..] == [] && log[..capacity] == log;
      longer, all := Reports(cfg, capacity, trail, steps, capacity);
    }
  }

  lemma RoundsDiffer(rounds: nat)
    ensures DiskAfter(rounds) != DiskAfter(rounds + 1)
  {
    assert DiskAfter(rounds + 1)["a"] == Content(rounds);
    if rounds > 0 {
      assert DiskAfter(rounds)["a"] == Content(rounds - 1) != Content(rounds);
    } else {
      assert "a" !in DiskAfter(rounds);
    }
  }

  /**
   * For every capacity there is a history in which an event meets a full queue and is lost for good: with the
   * queue drained and every timer quiet, nothing slipped past the watcher, and the server still shows other
   * content than the cache and the disk.
   */
  lemma OverflowLosesAChange(cfg: Config, capacity: nat) returns (trail: seq<System>, steps: seq<SystemStep>)
    ensures IsHistory(cfg, capacity, trail, steps)
    ensures var s := trail[|steps|];
      && s.refused == 1 && s.behind == {"a"} && s.queue.pending == []
      && Settled(s.world.watcher) && s.world.missed == {}
      && s.world.watcher.cache == s.world.disk
      && Replay(s.queue.received) != s.world.watcher.cache
  {
    trail, steps := Rounds(cfg, capacity, capacity);
    trail, steps := Round(cfg, capacity, trail, steps, capacity);
    trail, steps := Drained(cfg, capacity, trail, steps);
    LogReplay(capacity);
    RoundsDiffer(capacity);
  }
}
