/** What the watcher reports, told from the steps of a run alone: no timer, no cache and no remembered delete. */
module WatcherHistory {
  import opened ChangeEvents
  import opened Options
  import opened Watcher

  // -------------------------------------------------------------------------
  // Reading a run
  // -------------------------------------------------------------------------

  /** The last admitted raw event of a path that has not been flushed since. */
  datatype Request = Request(raw: RawEvent, at: nat)

  /** A flushed removal of a file whose content was known. */
  datatype Deletion = Deletion(path: Path, hash: Hash, at: nat)

  function Clock(steps: seq<Step>): nat {
    if steps == [] then 0
    else
      var last := steps[|steps| - 1];
      if last.Tick? then last.to else Clock(steps[..|steps| - 1])
  }

  function Asked(steps: seq<Step>, path: Path): Option<Request> {
    if steps == [] then None
    else
      var rest, last := steps[..|steps| - 1], steps[|steps| - 1];
      if last.Raw? && last.admitted && last.path == path then Some(Request(last.raw, Clock(rest)))
      else if last.FlushDue? && last.path == path then None
      else Asked(rest, path)
  }

  predicate AskedFor(steps: seq<Step>, path: Path, raw: RawEvent) {
    Asked(steps, path).Some? && Asked(steps, path).value.raw == raw
  }

  /** The content last read at a path, unless its removal has been flushed since. */
  function Held(steps: seq<Step>, path: Path): Option<Hash> {
    if steps == [] then None
    else
      var rest, last := steps[..|steps| - 1], steps[|steps| - 1];
      if !last.FlushDue? || last.path != path || Asked(rest, path).None? then Held(rest, path)
      else if AskedFor(rest, path, UnlinkRaw) then None
      else if last.content.Some? then last.content
      else Held(rest, path)
  }

  /** After `before`, `step` flushes the removal of a file that held `hash`. */
  predicate Deletes(before: seq<Step>, step: Step, hash: Hash) {
    && step.FlushDue? && AskedFor(before, step.path, UnlinkRaw) && Held(before, step.path) == Some(hash)
  }

  /** After `before`, `step` flushes a new file in which it reads `hash`. */
  predicate Adds(before: seq<Step>, step: Step, hash: Hash) {
    step.FlushDue? && AskedFor(before, step.path, AddRaw) && step.content == Some(hash)
  }

  /** The flushed removals, in order; the `id`-th one owns delete timer `id`. */
  function Deletions(steps: seq<Step>): seq<Deletion> {
    if steps == [] then []
    else
      var rest, last := steps[..|steps| - 1], steps[|steps| - 1];
      if last.FlushDue? && AskedFor(rest, last.path, UnlinkRaw) && Held(rest, last.path).Some?
      then Deletions(rest) + [Deletion(last.path, Held(rest, last.path).value, Clock(rest))]
      else Deletions(rest)
  }

  /** After `before`, `step` runs the delete timer of a file that held `hash`. */
  predicate Fires(before: seq<Step>, step: Step, hash: Hash) {
    step.DeleteDue? && step.id < |Deletions(before)| && Deletions(before)[step.id].hash == hash
  }

  /** The steps that decide whether content `hash` is awaited: a removal, a timer that ran, a new file. */
  predicate Concerns(before: seq<Step>, step: Step, hash: Hash) {
    Deletes(before, step, hash) || Fires(before, step, hash) || Adds(before, step, hash)
  }

  /** The removal that a new file with this content would turn into a move: the last such step, if it is one. */
  function Awaited(steps: seq<Step>, hash: Hash): Option<nat> {
    if steps == [] then None
    else
      var rest, last := steps[..|steps| - 1], steps[|steps| - 1];
      if Deletes(rest, last, hash) then Some(|Deletions(rest)|)
      else if Concerns(rest, last, hash) then None
      else Awaited(rest, hash)
  }

  lemma {:induction false} AwaitedIsADeletion(steps: seq<Step>, hash: Hash)
    ensures Awaited(steps, hash).Some? ==>
      var id := Awaited(steps, hash).value;
      id < |Deletions(steps)| && Deletions(steps)[id].hash == hash
  {
    if steps != [] {
      AwaitedIsADeletion(steps[..|steps| - 1], hash);
    }
  }

  /** What one more step is reported as. */
  function Report(before: seq<Step>, step: Step): seq<ChangeEvent> {
    match step
    case Tick(_) => []
    case Raw(_, _, _) => []
    case DeleteDue(id) => if id < |Deletions(before)| then [Delete(Deletions(before)[id].path)] else []
    case FlushDue(path, content) =>
      if Asked(before, path).None? || content.None? then []
      else
        match Asked(before, path).value.raw
        case UnlinkRaw => []
        case ChangeRaw => [Update(path, content.value)]
        case AddRaw =>
          AwaitedIsADeletion(before, content.value);
          match Awaited(before, content.value)
          case None => [Create(path, content.value)]
          case Some(id) => [Move(path, Deletions(before)[id].path, content.value)]
  }

  function Reported(steps: seq<Step>): seq<ChangeEvent> {
    if steps == [] then [] else Reported(steps[..|steps| - 1]) + Report(steps[..|steps| - 1], steps[|steps| - 1])
  }

  /** The timers that have run, and those whose removal became a move. */
  function Ended(steps: seq<Step>): set<nat> {
    if steps == [] then {}
    else
      var rest, last := steps[..|steps| - 1], steps[|steps| - 1];
      Ended(rest)
      + match last
        case DeleteDue(id) => {id}
        case FlushDue(path, Some(hash)) =>
          if Adds(rest, last, hash) && Awaited(rest, hash).Some? then {Awaited(rest, hash).value} else {}
        case _ => {}
  }

  // -------------------------------------------------------------------------
  // The watcher keeps exactly that
  // -------------------------------------------------------------------------

  /** Only timers that are scheduled run; nothing is said about when. */
  ghost predicate OnlyScheduled(cfg: Config, steps: seq<Step>) {
    steps == []
    || (OnlyScheduled(cfg, steps[..|steps| - 1])
        && (steps[|steps| - 1].DeleteDue? ==> steps[|steps| - 1].id in After(cfg, steps[..|steps| - 1]).timers))
  }

  lemma {:induction false} RunsAreScheduled(cfg: Config, steps: seq<Step>)
    requires IsRun(cfg, steps)
    ensures OnlyScheduled(cfg, steps)
  {
    if steps != [] {
      RunsAreScheduled(cfg, steps[..|steps| - 1]);
    }
  }

  /** A pending flush is the last request of its path, due a debounce after it. */
  ghost predicate KeepsRequests(cfg: Config, s: State, steps: seq<Step>) {
    && s.now == Clock(steps)
    && forall path ::
         match Asked(steps, path)
         case None => path !in s.pending
         case Some(request) =>
           path in s.pending && s.pending[path] == PendingEntry(KindOf(request.raw), request.at + cfg.debounce)
  }

  ghost predicate KeepsContent(s: State, steps: seq<Step>) {
    forall path :: Held(steps, path) == if path in s.cache then Some(s.cache[path]) else None
  }

  ghost predicate TimerIs(cfg: Config, t: DeleteTimer, d: Deletion) {
    t.path == d.path && t.hash == d.hash && t.deadline == d.at + cfg.window
  }

  ghost predicate KeepsTimers(cfg: Config, s: State, steps: seq<Step>) {
    && s.nextTimer == |Deletions(steps)|
    && (forall id :: id in Ended(steps) ==> id < s.nextTimer)
    && (forall id: nat :: id in s.timers <==> id < s.nextTimer && id !in Ended(steps))
    && (forall id :: id in s.timers ==> TimerIs(cfg, s.timers[id], Deletions(steps)[id]))
  }

  ghost predicate Remembers(s: State, steps: seq<Step>, hash: Hash) {
    match Awaited(steps, hash)
    case None => hash !in s.pendingDeletes
    case Some(id) =>
      && id < |Deletions(steps)| && id !in Ended(steps)
      && hash in s.pendingDeletes && s.pendingDeletes[hash] == PendingDelete(Deletions(steps)[id].path, id)
  }

  ghost predicate KeepsAwaited(s: State, steps: seq<Step>) {
    forall hash :: Remembers(s, steps, hash)
  }

  ghost predicate Keeps(cfg: Config, s: State, steps: seq<Step>) {
    KeepsRequests(cfg, s, steps) && KeepsContent(s, steps) && KeepsTimers(cfg, s, steps) && KeepsAwaited(s, steps)
  }

  lemma RequestsStep(cfg: Config, s: State, steps: seq<Step>, step: Step)
    requires KeepsRequests(cfg, s, steps)
    ensures KeepsRequests(cfg, Next(cfg, s, step), steps + [step])
  {
    assert (steps + [step])[..|steps|] == steps;
  }

  lemma ContentStep(cfg: Config, s: State, steps: seq<Step>, step: Step)
    requires KeepsRequests(cfg, s, steps) && KeepsContent(s, steps)
    ensures KeepsContent(Next(cfg, s, step), steps + [step])
  {
    assert (steps + [step])[..|steps|] == steps;
  }

  lemma FlushKeepsTimers(cfg: Config, s: State, steps: seq<Step>, path: Path, content: Option<Hash>)
    requires Keeps(cfg, s, steps)
    ensures KeepsTimers(cfg, Flush(cfg, s, path, content), steps + [FlushDue(path, content)])
  {
    if AskedFor(steps, path, UnlinkRaw) {
      RemovalKeepsTimers(cfg, s, steps, path, content);
    } else {
      assert (steps + [FlushDue(path, content)])[..|steps|] == steps;
      if content.Some? {
        assert Remembers(s, steps, content.value);
      }
    }
  }

  lemma RemovalKeepsTimers(cfg: Config, s: State, steps: seq<Step>, path: Path, content: Option<Hash>)
    requires Keeps(cfg, s, steps) && AskedFor(steps, path, UnlinkRaw)
    ensures KeepsTimers(cfg, Flush(cfg, s, path, content), steps + [FlushDue(path, content)])
  {
    assert (steps + [FlushDue(path, content)])[..|steps|] == steps;
    assert path in s.pending && s.pending[path].kind == DELETE;
  }

  lemma FireKeepsTimers(cfg: Config, s: State, steps: seq<Step>, id: nat)
    requires KeepsTimers(cfg, s, steps) && id in s.timers
    ensures KeepsTimers(cfg, FireDelete(s, id), steps + [DeleteDue(id)])
  {
    assert (steps + [DeleteDue(id)])[..|steps|] == steps;
  }

  lemma TimersStep(cfg: Config, s: State, steps: seq<Step>, step: Step)
    requires Keeps(cfg, s, steps) && (step.DeleteDue? ==> step.id in s.timers)
    ensures KeepsTimers(cfg, Next(cfg, s, step), steps + [step])
  {
    match step
    case FlushDue(path, content) => FlushKeepsTimers(cfg, s, steps, path, content);
    case DeleteDue(id) => FireKeepsTimers(cfg, s, steps, id);
    case _ => assert (steps + [step])[..|steps|] == steps;
  }

  lemma FlushKeepsAwaited(cfg: Config, s: State, steps: seq<Step>, path: Path, content: Option<Hash>, hash: Hash)
    requires Keeps(cfg, s, steps)
    ensures Remembers(Flush(cfg, s, path, content), steps + [FlushDue(path, content)], hash)
  {
    assert (steps + [FlushDue(path, content)])[..|steps|] == steps;
    assert Remembers(s, steps, hash);
    AwaitedIsADeletion(steps, hash);
    if content.Some? {
      assert Remembers(s, steps, content.value);
      AwaitedIsADeletion(steps, content.value);
    }
  }

  lemma FireKeepsAwaited(cfg: Config, s: State, steps: seq<Step>, id: nat, hash: Hash)
    requires KeepsTimers(cfg, s, steps) && KeepsAwaited(s, steps) && id in s.timers
    ensures Remembers(FireDelete(s, id), steps + [DeleteDue(id)], hash)
  {
    assert (steps + [DeleteDue(id)])[..|steps|] == steps;
    assert Remembers(s, steps, hash);
    AwaitedIsADeletion(steps, hash);
  }

  lemma AwaitedStep(cfg: Config, s: State, steps: seq<Step>, step: Step, hash: Hash)
    requires Keeps(cfg, s, steps) && (step.DeleteDue? ==> step.id in s.timers)
    ensures Remembers(Next(cfg, s, step), steps + [step], hash)
  {
    match step
    case FlushDue(path, content) => FlushKeepsAwaited(cfg, s, steps, path, content, hash);
    case DeleteDue(id) => FireKeepsAwaited(cfg, s, steps, id, hash);
    case _ =>
      assert (steps + [step])[..|steps|] == steps;
      assert Remembers(s, steps, hash);
  }

  lemma ReportStep(cfg: Config, s: State, steps: seq<Step>, step: Step)
    requires Keeps(cfg, s, steps) && (step.DeleteDue? ==> step.id in s.timers)
    ensures Next(cfg, s, step).log == s.log + Report(steps, step)
  {
    if step.FlushDue? && step.content.Some? {
      assert Remembers(s, steps, step.content.value);
    }
  }

  lemma {:induction false} RunKeeps(cfg: Config, steps: seq<Step>)
    requires OnlyScheduled(cfg, steps)
    ensures Keeps(cfg, After(cfg, steps), steps)
  {
    if steps != [] {
      var rest, last := steps[..|steps| - 1], steps[|steps| - 1];
      RunKeeps(cfg, rest);
      assert rest + [last] == steps;
      RequestsStep(cfg, After(cfg, rest), rest, last);
      ContentStep(cfg, After(cfg, rest), rest, last);
      TimersStep(cfg, After(cfg, rest), rest, last);
      forall hash ensures Remembers(After(cfg, steps), steps, hash) {
        AwaitedStep(cfg, After(cfg, rest), rest, last, hash);
      }
    }
  }

  // -------------------------------------------------------------------------
  // What is reported, and when
  // -------------------------------------------------------------------------

  /** Whatever the two durations are and whenever callbacks run, the log is what the steps amount to. */
  lemma {:induction false} LogIsReported(cfg: Config, steps: seq<Step>)
    requires OnlyScheduled(cfg, steps)
    ensures After(cfg, steps).log == Reported(steps)
  {
    if steps != [] {
      var rest, last := steps[..|steps| - 1], steps[|steps| - 1];
      LogIsReported(cfg, rest);
      RunKeeps(cfg, rest);
      ReportStep(cfg, After(cfg, rest), rest, last);
    }
  }

  /** Of the steps that concern `hash`, the last one is the `k`-th, and it removes `path`. */
  ghost predicate RemovedLast(steps: seq<Step>, k: nat, path: Path, hash: Hash) {
    && k < |steps| && Deletes(steps[..k], steps[k], hash) && steps[k].path == path
    && forall j :: k < j < |steps| ==> !Concerns(steps[..j], steps[j], hash)
  }

  lemma {:induction false} AwaitedIsTheLast(steps: seq<Step>, hash: Hash)
    ensures Awaited(steps, hash).None? ==> forall k, path :: !RemovedLast(steps, k, path, hash)
    ensures Awaited(steps, hash).Some? ==>
      && Awaited(steps, hash).value < |Deletions(steps)|
      && var path := Deletions(steps)[Awaited(steps, hash).value].path;
         && (exists k :: RemovedLast(steps, k, path, hash))
         && (forall k, other :: RemovedLast(steps, k, other, hash) ==> other == path)
  {
    AwaitedIsADeletion(steps, hash);
    if steps != [] {
      var n := |steps| - 1;
      var rest, last := steps[..n], steps[n];
      AwaitedIsTheLast(rest, hash);
      RemovedEarlier(steps, hash);
      if Deletes(rest, last, hash) {
        assert RemovedLast(steps, n, last.path, hash);
      } else if !Concerns(rest, last, hash) && Awaited(steps, hash).Some? {
        var path := Deletions(rest)[Awaited(rest, hash).value].path;
        var k :| RemovedLast(rest, k, path, hash);
        assert RemovedLast(steps, k, path, hash);
      }
    }
  }

  lemma RemovedEarlier(steps: seq<Step>, hash: Hash)
    requires steps != []
    ensures forall k: nat, path :: k < |steps| - 1 ==>
      (RemovedLast(steps, k, path, hash) <==>
        RemovedLast(steps[..|steps| - 1], k, path, hash)
        && !Concerns(steps[..|steps| - 1], steps[|steps| - 1], hash))
  {
    var rest := steps[..|steps| - 1];
    forall k: nat, path | k < |steps| - 1
      ensures RemovedLast(steps, k, path, hash) <==>
        RemovedLast(rest, k, path, hash) && !Concerns(rest, steps[|steps| - 1], hash)
    {
      assert forall j :: 0 <= j <= |rest| ==> rest[..j] == steps[..j];
      assert forall j :: 0 <= j < |rest| ==> rest[j] == steps[j];
    }
  }

  /**
   * A flushed new file is reported as the move of `p` exactly when, of all removals, timers that ran and new files
   * with its content, the last was the removal of `p`; otherwise it is one creation, and a change is one update.
   */
  lemma MoveExactlyWhenRemovedLast(cfg: Config, steps: seq<Step>, path: Path, hash: Hash)
    requires OnlyScheduled(cfg, steps)
    ensures var before, after := After(cfg, steps).log, After(cfg, steps + [FlushDue(path, Some(hash))]).log;
      && (AskedFor(steps, path, AddRaw) ==>
            && (forall p :: after == before + [Move(path, p, hash)] <==> exists k :: RemovedLast(steps, k, p, hash))
            && (after == before + [Create(path, hash)] <==> forall k, p :: !RemovedLast(steps, k, p, hash)))
      && (AskedFor(steps, path, ChangeRaw) ==> after == before + [Update(path, hash)])
      && (Asked(steps, path).None? || AskedFor(steps, path, UnlinkRaw) ==> after == before)
  {
    var step := FlushDue(path, Some(hash));
    RunKeeps(cfg, steps);
    RunAppend(cfg, steps, step);
    ReportStep(cfg, After(cfg, steps), steps, step);
    AwaitedIsTheLast(steps, hash);
    var before := After(cfg, steps).log;
    assert forall e :: (before + [e])[|before|] == e;
  }

  lemma {:induction false} EndedForGood(steps: seq<Step>, k: nat)
    requires k <= |steps|
    ensures Ended(steps[..k]) <= Ended(steps)
  {
    if k < |steps| {
      assert steps[..|steps| - 1][..k] == steps[..k];
      EndedForGood(steps[..|steps| - 1], k);
    } else {
      assert steps[..k] == steps;
    }
  }

  lemma {:induction false} PrefixIsScheduled(cfg: Config, steps: seq<Step>, k: nat)
    requires OnlyScheduled(cfg, steps) && k <= |steps|
    ensures OnlyScheduled(cfg, steps[..k])
    ensures k < |steps| && steps[k].DeleteDue? ==> steps[k].id in After(cfg, steps[..k]).timers
  {
    if k < |steps| {
      assert steps[..|steps| - 1][..k] == steps[..k];
      PrefixIsScheduled(cfg, steps[..|steps| - 1], k);
    } else {
      assert steps[..k] == steps;
    }
  }

  /** A removal that has become a move is never reported as a delete, and none is reported twice. */
  lemma EndedTimersNeverRun(cfg: Config, steps: seq<Step>, k: nat, j: nat)
    requires OnlyScheduled(cfg, steps) && k <= j < |steps| && steps[j].DeleteDue?
    ensures steps[j].id < |Deletions(steps[..j])| && steps[j].id !in Ended(steps[..k])
  {
    PrefixIsScheduled(cfg, steps, j);
    RunKeeps(cfg, steps[..j]);
    assert steps[..j][..k] == steps[..k];
    EndedForGood(steps[..j], k);
  }

  /**
   * In a run, a path is flushed no earlier than a debounce after its last admitted event, and a removal is reported
   * no earlier than a move window after it was flushed.
   */
  lemma NothingRunsEarly(cfg: Config, steps: seq<Step>, step: Step)
    requires IsRun(cfg, steps + [step])
    ensures step.FlushDue? ==>
      Asked(steps, step.path).Some? && Asked(steps, step.path).value.at + cfg.debounce <= Clock(steps)
    ensures step.DeleteDue? ==>
      step.id < |Deletions(steps)| && Deletions(steps)[step.id].at + cfg.window <= Clock(steps)
  {
    RunAppend(cfg, steps, step);
    RunsAreScheduled(cfg, steps);
    RunKeeps(cfg, steps);
  }
}
