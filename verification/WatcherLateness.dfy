/** The watcher when its callbacks run in any order but not too late, as a stalled timer loop may run them. */
module WatcherLateness {
  import opened ChangeEvents
  import opened Options
  import opened Watcher
  import opened WatcherRuns

  /** No callback that is outstanding has been due for `slack` or longer. */
  ghost predicate Timely(slack: nat, s: State) {
    && (forall path :: path in s.pending ==> s.now < s.pending[path].deadline + slack)
    && (forall id :: id in s.timers ==> s.now < s.timers[id].deadline + slack)
  }

  /** Due callbacks run in any order; time does not pass a callback by `slack` without running it. */
  ghost predicate MayRun(slack: nat, s: State, step: Step) {
    match step
    case Tick(to) => s.now <= to && Timely(slack, s.(now := to))
    case Raw(_, _, _) => true
    case FlushDue(path, _) => path in s.pending && s.pending[path].deadline <= s.now
    case DeleteDue(id) => id in s.timers && s.timers[id].deadline <= s.now
  }

  ghost predicate IsLateRun(cfg: Config, slack: nat, trail: seq<State>, steps: seq<Step>) {
    && |trail| == |steps| + 1 && trail[0] == INITIAL
    && forall k :: 0 <= k < |steps| ==>
         MayRun(slack, trail[k], steps[k]) && trail[k + 1] == Next(cfg, trail[k], steps[k])
  }

  lemma TimelyStep(cfg: Config, slack: nat, s: State, step: Step)
    requires slack > 0 && Timely(slack, s) && MayRun(slack, s, step)
    ensures Timely(slack, Next(cfg, s, step))
  {
  }

  /** The timing argument without any order: by the time a flush is due, its path's delete timer has run. */
  lemma LateFlushIsOnTime(cfg: Config, slack: nat, s: State, step: Step)
    requires slack + cfg.window <= cfg.debounce
    requires Timed(cfg, s) && Timely(slack, s) && MayRun(slack, s, step)
    ensures OnTime(s, step)
  {
  }

  lemma {:induction false} LateRunKeepsInv(cfg: Config, slack: nat, trail: seq<State>, steps: seq<Step>, k: nat)
    requires slack > 0 && slack + cfg.window <= cfg.debounce && IsLateRun(cfg, slack, trail, steps) && k < |trail|
    ensures Inv(cfg, trail[k]) && Timely(slack, trail[k])
  {
    if k == 0 {
      assert Awaiting(INITIAL) == {};
    } else {
      LateRunKeepsInv(cfg, slack, trail, steps, k - 1);
      LateFlushIsOnTime(cfg, slack, trail[k - 1], steps[k - 1]);
      StepKeepsInv(cfg, trail[k - 1], steps[k - 1]);
      TimelyStep(cfg, slack, trail[k - 1], steps[k - 1]);
    }
  }

  /** Replay reaches the cache in every settled run whose callbacks are late by less than `slack`. */
  ghost predicate FaithfulWithin(cfg: Config, slack: nat) {
    forall trail: seq<State>, steps: seq<Step> :: IsLateRun(cfg, slack, trail, steps) && Settled(trail[|steps|]) ==>
      Replay(trail[|steps|].log) == trail[|steps|].cache
  }

  // -------------------------------------------------------------------------
  // The late delete, in a loop that may be late by more
  // -------------------------------------------------------------------------

  function Max(a: nat, b: nat): nat {
    if a < b then b else a
  }

  /** When the delete timer of `LateDelete` runs: after the flush of the second write. */
  function Fires(cfg: Config): nat {
    Max(3 * cfg.debounce, 2 * cfg.debounce + cfg.window)
  }

  function OvertakenSteps(cfg: Config): seq<Step> {
    LateDelete(cfg)[..9] + [Tick(Fires(cfg)), DeleteDue(0)]
  }

  /** A round of the run: at its start, with its raw event scheduled, and with its debounce run out. */
  function RoundState(cfg: Config, round: nat, part: nat): State
    requires round < 3
  {
    if part == 0 then LateDeleteState(cfg, round)
    else if part == 1 then
      Schedule(cfg, LateDeleteState(cfg, round), "a", KindOf([AddRaw, UnlinkRaw, AddRaw][round]))
    else LateDeleteWaited(cfg, round)
  }

  function OvertakenState(cfg: Config, k: nat): State
    requires k <= 11
  {
    if k < 9 then RoundState(cfg, k / 3, k % 3)
    else if k == 9 then LateDeleteState(cfg, 3)
    else if k == 10 then LateDeleteState(cfg, 3).(now := Fires(cfg))
    else FireDelete(LateDeleteState(cfg, 3).(now := Fires(cfg)), 0)
  }

  lemma OvertakenStateIs(cfg: Config, round: nat, part: nat)
    requires round < 3 && part < 3
    ensures OvertakenState(cfg, 3 * round + part) == RoundState(cfg, round, part)
    ensures part == 2 ==> OvertakenState(cfg, 3 * round + 3) == LateDeleteState(cfg, round + 1)
  {
    assert (3 * round + part) / 3 == round && (3 * round + part) % 3 == part;
    assert (3 * round + 3) / 3 == round + 1 && (3 * round + 3) % 3 == 0;
  }

  lemma OvertakenRound(cfg: Config, slack: nat, round: nat)
    requires slack > 0 && slack + cfg.window > cfg.debounce && round < 3
    ensures var steps := OvertakenSteps(cfg);
      var s0, s1, s2 := RoundState(cfg, round, 0), RoundState(cfg, round, 1), RoundState(cfg, round, 2);
      && MayRun(slack, s0, steps[3 * round]) && Next(cfg, s0, steps[3 * round]) == s1
      && MayRun(slack, s1, steps[3 * round + 1]) && Next(cfg, s1, steps[3 * round + 1]) == s2
      && MayRun(slack, s2, steps[3 * round + 2])
      && Next(cfg, s2, steps[3 * round + 2]) == LateDeleteState(cfg, round + 1)
  {
    LateDeleteSteps(cfg, round);
    LateDeleteFlushed(cfg, round, [Some("1"), None, Some("2")][round]);
    assert LateDeleteState(cfg, round).now == round * cfg.debounce;
  }

  lemma OvertakenEnd(cfg: Config, slack: nat)
    requires slack > 0 && slack + cfg.window > cfg.debounce
    ensures MayRun(slack, OvertakenState(cfg, 9), Tick(Fires(cfg)))
    ensures MayRun(slack, OvertakenState(cfg, 10), DeleteDue(0))
    ensures Settled(OvertakenState(cfg, 11))
    ensures OvertakenState(cfg, 11).cache == map["a" := "2"] && OvertakenState(cfg, 11).log == LATE_LOG
  {
    var end := OvertakenState(cfg, 11);
    assert end.timers == map[];
    assert end.log == LATE_LOG;
  }

  lemma OvertakenInRound(cfg: Config, slack: nat, round: nat, part: nat)
    requires slack > 0 && slack + cfg.window > cfg.debounce && round < 3 && part < 3
    ensures var k := 3 * round + part;
      && MayRun(slack, OvertakenState(cfg, k), OvertakenSteps(cfg)[k])
      && OvertakenState(cfg, k + 1) == Next(cfg, OvertakenState(cfg, k), OvertakenSteps(cfg)[k])
  {
    OvertakenRound(cfg, slack, round);
    OvertakenStateIs(cfg, round, part);
    if part < 2 {
      OvertakenStateIs(cfg, round, part + 1);
    }
  }

  lemma OvertakenStep(cfg: Config, slack: nat, k: nat)
    requires slack > 0 && slack + cfg.window > cfg.debounce && k < 11
    ensures MayRun(slack, OvertakenState(cfg, k), OvertakenSteps(cfg)[k])
    ensures OvertakenState(cfg, k + 1) == Next(cfg, OvertakenState(cfg, k), OvertakenSteps(cfg)[k])
  {
    if k < 9 {
      OvertakenInRound(cfg, slack, k / 3, k % 3);
    } else {
      OvertakenEnd(cfg, slack);
    }
  }

  /** A flush that overtakes the delete timer of its own path leaves a DELETE after the re-create. */
  lemma OvertakenDeleteBreaksReplay(cfg: Config, slack: nat) returns (trail: seq<State>)
    requires slack > 0 && slack + cfg.window > cfg.debounce
    ensures IsLateRun(cfg, slack, trail, OvertakenSteps(cfg)) && Settled(trail[11])
    ensures trail[11].cache == map["a" := "2"] && Replay(trail[11].log) == map[]
  {
    trail := seq(12, k requires 0 <= k < 12 => OvertakenState(cfg, k));
    forall k | 0 <= k < 11
      ensures MayRun(slack, trail[k], OvertakenSteps(cfg)[k])
      ensures trail[k + 1] == Next(cfg, trail[k], OvertakenSteps(cfg)[k])
    {
      OvertakenStep(cfg, slack, k);
    }
    OvertakenEnd(cfg, slack);
    LateDeleteLog();
  }

  /**
   * With callbacks in any order, each late by less than `slack`, replay is faithful exactly when the debounce
   * exceeds the move window by at least `slack`.
   */
  lemma FaithfulExactlyWithinTheMargin(cfg: Config, slack: nat)
    requires slack > 0
    ensures FaithfulWithin(cfg, slack) <==> slack + cfg.window <= cfg.debounce
  {
    if slack + cfg.window <= cfg.debounce {
      forall trail: seq<State>, steps: seq<Step> | IsLateRun(cfg, slack, trail, steps) && Settled(trail[|steps|])
        ensures Replay(trail[|steps|].log) == trail[|steps|].cache
      {
        LateRunKeepsInv(cfg, slack, trail, steps, |steps|);
        assert Awaiting(trail[|steps|]) == {};
      }
    } else {
      var trail := OvertakenDeleteBreaksReplay(cfg, slack);
      assert "a" in trail[|OvertakenSteps(cfg)|].cache;
    }
  }

  /** The shipped durations tolerate exactly callbacks less than a second late. */
  lemma ProductToleratesASecond(slack: nat)
    requires slack > 0
    ensures FaithfulWithin(PRODUCT, slack) <==> slack <= 1000
  {
    FaithfulExactlyWithinTheMargin(PRODUCT, slack);
  }
}
