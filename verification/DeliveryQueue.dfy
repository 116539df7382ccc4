/** One-at-a-time delivery with retry: the queue between the watcher and the server. */
module DeliveryQueue {
  import opened ChangeEvents
  import opened Options
  import opened Watcher

  /** Where one running `drain` stands between two awaits. */
  datatype Drain =
    | Reporting(event: ChangeEvent)  // awaiting the report of the event it read from the head
    | BackingOff(wait: nat)          // awaiting the retry delay
    | Finished                       // its loop is over; its finalizer has not run yet

  datatype Queue = Queue(
    capacity: nat,
    pending: seq<ChangeEvent>,
    draining: Option<nat>,       // the promise field: the drain it belongs to
    drains: map<nat, Drain>,     // every drain that has started and has not been finalized
    nextDrain: nat,
    retryAttempt: nat,
    accepted: seq<ChangeEvent>,      // enqueued without error
    acknowledged: seq<ChangeEvent>,  // reported successfully
    received: seq<ChangeEvent>,      // applied by the server, repeats included
    waits: seq<nat>)                 // delays since the last success

  function Empty(capacity: nat): Queue {
    Queue(capacity, [], None, map[], 0, 0, [], [], [], [])
  }

  function Min(a: nat, b: nat): nat {
    if a < b then a else b
  }

  function Pow2(n: nat): nat {
    if n == 0 then 1 else 2 * Pow2(n - 1)
  }

  function Backoff(attempt: nat): nat {
    Min(30000, 500 * Pow2(Min(attempt, 6)))
  }

  // -------------------------------------------------------------------------
  // Operations
  // -------------------------------------------------------------------------

  /** The head of the drain loop: read the first event, or leave the loop. */
  function LoopHead(pending: seq<ChangeEvent>): Drain {
    if pending == [] then Finished else Reporting(pending[0])
  }

  /** `draining ??= drain()`: a drain runs up to its first await. */
  function EnsureDrain(q: Queue): Queue {
    if q.draining.Some? then q
    else q.(draining := Some(q.nextDrain),
            drains := q.drains[q.nextDrain := LoopHead(q.pending)],
            nextDrain := q.nextDrain + 1)
  }

  predicate Full(q: Queue) {
    |q.pending| >= q.capacity
  }

  function Enqueue(q: Queue, event: ChangeEvent): Queue {
    if Full(q) then q
    else EnsureDrain(q.(pending := q.pending + [event], accepted := q.accepted + [event]))
  }

  function Resolved(q: Queue, id: nat): Queue
    requires id in q.drains && q.drains[id].Reporting?
  {
    var event := q.drains[id].event;
    var rest := if q.pending == [] then [] else q.pending[1..];
    q.(pending := rest, retryAttempt := 0, waits := [],
       received := q.received + [event],
       acknowledged := q.acknowledged + [event],
       drains := q.drains[id := LoopHead(rest)])
  }

  /** The report failed; `applied` tells whether the server had taken the event anyway. */
  function Rejected(q: Queue, id: nat, applied: bool): Queue
    requires id in q.drains && q.drains[id].Reporting?
  {
    var event := q.drains[id].event;
    var wait := Backoff(q.retryAttempt);
    q.(retryAttempt := q.retryAttempt + 1, waits := q.waits + [wait],
       received := if applied then q.received + [event] else q.received,
       drains := q.drains[id := BackingOff(wait)])
  }

  function Resumed(q: Queue, id: nat): Queue {
    q.(drains := q.drains[id := LoopHead(q.pending)])
  }

  function Finalized(q: Queue, id: nat): Queue {
    var idle := q.(draining := None, drains := q.drains - {id});
    if q.pending == [] then idle else EnsureDrain(idle)
  }

  // -------------------------------------------------------------------------
  // Runs: any interleaving of producers, reports, delays and finalizers
  // -------------------------------------------------------------------------

  datatype QueueStep =
    | Offer(event: ChangeEvent)
    | ReportOk(id: nat)
    | ReportFailed(id: nat, applied: bool)
    | DelayOver(id: nat)
    | Finalize(id: nat)

  predicate Ready(q: Queue, step: QueueStep) {
    match step
    case Offer(_) => true
    case ReportOk(id) => id in q.drains && q.drains[id].Reporting?
    case ReportFailed(id, _) => id in q.drains && q.drains[id].Reporting?
    case DelayOver(id) => id in q.drains && q.drains[id].BackingOff?
    case Finalize(id) => id in q.drains && q.drains[id].Finished?
  }

  function NextQueue(q: Queue, step: QueueStep): Queue
    requires Ready(q, step)
  {
    match step
    case Offer(event) => Enqueue(q, event)
    case ReportOk(id) => Resolved(q, id)
    case ReportFailed(id, applied) => Rejected(q, id, applied)
    case DelayOver(id) => Resumed(q, id)
    case Finalize(id) => Finalized(q, id)
  }

  /** `trail` lists the queue's states, one per step taken from an empty queue. */
  ghost predicate IsTrail(capacity: nat, trail: seq<Queue>, steps: seq<QueueStep>) {
    && |trail| == |steps| + 1 && trail[0] == Empty(capacity)
    && forall k :: 0 <= k < |steps| ==> Ready(trail[k], steps[k]) && trail[k + 1] == NextQueue(trail[k], steps[k])
  }

  // -------------------------------------------------------------------------
  // What every interleaving keeps
  // -------------------------------------------------------------------------

  ghost predicate Sound(q: Queue) {
    && q.acknowledged + q.pending == q.accepted
    && |q.pending| <= q.capacity
    && (q.draining.None? ==> q.drains == map[] && q.pending == [])
    && (q.draining.Some? ==>
          && q.drains.Keys == {q.draining.value}
          && match q.drains[q.draining.value]
             case Reporting(event) => q.pending != [] && q.pending[0] == event
             case BackingOff(_) => q.pending != []
             case Finished => true)
    && |q.waits| == q.retryAttempt
    && (forall k :: 0 <= k < |q.waits| ==> q.waits[k] == Backoff(k))
  }

  lemma SoundStep(q: Queue, step: QueueStep)
    requires Sound(q) && Ready(q, step)
    ensures Sound(NextQueue(q, step))
  {
    match step
    case Offer(event) =>
      if !Full(q) {
        assert q.acknowledged + (q.pending + [event]) == q.accepted + [event];
      }
    case ReportOk(id) =>
      var event := q.drains[id].event;
      assert (q.acknowledged + [event]) + q.pending[1..] == q.acknowledged + q.pending;
    case ReportFailed(_, _) =>
    case DelayOver(_) =>
    case Finalize(id) =>
      assert q.drains - {id} == map[];
  }

  lemma {:induction false} TrailIsSound(capacity: nat, trail: seq<Queue>, steps: seq<QueueStep>)
    requires IsTrail(capacity, trail, steps)
    ensures forall k :: 0 <= k < |trail| ==> Sound(trail[k]) && trail[k].capacity == capacity
  {
    for k := 0 to |steps|
      invariant forall j :: 0 <= j <= k ==> Sound(trail[j]) && trail[j].capacity == capacity
    {
      SoundStep(trail[k], steps[k]);
    }
  }

  lemma Pow2Grows(m: nat, n: nat)
    requires m <= n
    ensures 1 <= Pow2(m) <= Pow2(n)
  {
    if m < n {
      Pow2Grows(m, n - 1);
    }
  }

  /** Waits lie between 500 and 30000 ms and never shrink as failures accumulate. */
  lemma BackoffGrowsWithinBounds(m: nat, n: nat)
    requires m <= n
    ensures 500 <= Backoff(m) <= Backoff(n) <= 30000
    ensures m < 6 ==> Backoff(m) == 500 * Pow2(m)
    ensures 6 <= m ==> Backoff(m) == 30000
  {
    Pow2Grows(Min(m, 6), Min(n, 6));
    assert Pow2(6) == 64 && Pow2(5) == 32 by {
      assert Pow2(3) == 8;
    }
    if m < 6 {
      Pow2Grows(m, 5);
    }
  }

  /** How many reports have failed since the last one that succeeded. */
  function FailedSince(steps: seq<QueueStep>): nat {
    if steps == [] || steps[|steps| - 1].ReportOk? then 0
    else FailedSince(steps[..|steps| - 1]) + if steps[|steps| - 1].ReportFailed? then 1 else 0
  }

  /** The attempt count, and with it the next wait, goes by the failures since the last success. */
  lemma {:induction false} AttemptsAreFailuresSinceSuccess(
      capacity: nat, trail: seq<Queue>, steps: seq<QueueStep>, k: nat)
    requires IsTrail(capacity, trail, steps) && k < |trail|
    ensures trail[k].retryAttempt == FailedSince(steps[..k])
  {
    if k > 0 {
      AttemptsAreFailuresSinceSuccess(capacity, trail, steps, k - 1);
      assert steps[..k][..k - 1] == steps[..k - 1];
    }
  }

  /** After a success the first wait is 500 ms, and each one after it twice the one before, up to 30 s. */
  lemma WaitsDouble(capacity: nat, trail: seq<Queue>, steps: seq<QueueStep>, k: nat)
    requires IsTrail(capacity, trail, steps) && k < |trail|
    ensures var waits := trail[k].waits;
      && |waits| == trail[k].retryAttempt
      && (waits != [] ==> waits[0] == 500)
      && forall i :: 0 < i < |waits| ==> waits[i] == if waits[i - 1] < 15000 then 2 * waits[i - 1] else 30000
  {
    TrailIsSound(capacity, trail, steps);
    var q := trail[k];
    forall i | 0 <= i < |q.waits|
      ensures q.waits[i] == Backoff(i)
      ensures i == 0 ==> Backoff(i) == 500
      ensures i > 0 ==> Backoff(i) == if Backoff(i - 1) < 15000 then 2 * Backoff(i - 1) else 30000
    {
      BackoffDoubles(i);
    }
  }

  lemma BackoffDoubles(n: nat)
    ensures n == 0 ==> Backoff(n) == 500
    ensures n > 0 ==> Backoff(n) == if Backoff(n - 1) < 15000 then 2 * Backoff(n - 1) else 30000
  {
    BackoffGrowsWithinBounds(n, n);
    assert Pow2(4) == 16 && Pow2(5) == 32 by {
      assert Pow2(2) == 4;
    }
    if n > 0 {
      BackoffGrowsWithinBounds(n - 1, n);
      if n < 6 {
        Pow2Grows(n - 1, 4);
      }
    }
  }

  /** The delivery guarantees of every interleaving, at every moment. */
  lemma EveryInterleaving(capacity: nat, trail: seq<Queue>, steps: seq<QueueStep>, k: nat)
    requires IsTrail(capacity, trail, steps) && k < |trail|
    ensures var q := trail[k];
      && q.acknowledged + q.pending == q.accepted
      && |q.pending| <= capacity
      && |q.drains| <= 1
      && (q.pending != [] ==> q.draining.Some? && q.drains.Keys == {q.draining.value})
      && (forall i, j :: 0 <= i <= j < |q.waits| ==> 500 <= q.waits[i] <= q.waits[j] <= 30000)
  {
    TrailIsSound(capacity, trail, steps);
    var q := trail[k];
    assert |q.drains| == |q.drains.Keys|;
    forall i, j | 0 <= i <= j < |q.waits| ensures 500 <= q.waits[i] <= q.waits[j] <= 30000 {
      BackoffGrowsWithinBounds(i, j);
    }
  }

  /** An accepted event is never lost: it is a later acknowledgement or still pending. */
  lemma AcceptedOnlyGrows(capacity: nat, trail: seq<Queue>, steps: seq<QueueStep>, i: nat, j: nat)
    requires IsTrail(capacity, trail, steps) && i <= j < |trail|
    ensures trail[i].accepted <= trail[j].accepted && trail[i].acknowledged <= trail[j].acknowledged
    decreases j - i
  {
    if i < j {
      AcceptedOnlyGrows(capacity, trail, steps, i, j - 1);
    }
  }

  // -------------------------------------------------------------------------
  // What the server receives
  // -------------------------------------------------------------------------

  /** Each event repeated on the spot as often as `copies` says. */
  function Expand(events: seq<ChangeEvent>, copies: seq<nat>): seq<ChangeEvent>
    requires |events| == |copies|
  {
    if events == [] then []
    else
      var n := |events| - 1;
      Expand(events[..n], copies[..n]) + seq(copies[n], _ => events[n])
  }

  lemma ExpandAgain(events: seq<ChangeEvent>, copies: seq<nat>)
    requires |events| == |copies| > 0
    ensures var n := |events| - 1;
      Expand(events, copies[n := copies[n] + 1]) == Expand(events, copies) + [events[n]]
  {
    var n := |events| - 1;
    var more := copies[n := copies[n] + 1];
    assert more[..n] == copies[..n];
    assert seq(copies[n] + 1, _ => events[n]) == seq(copies[n], _ => events[n]) + [events[n]];
  }

  lemma ExpandNew(events: seq<ChangeEvent>, copies: seq<nat>, event: ChangeEvent)
    requires |events| == |copies|
    ensures Expand(events + [event], copies + [1]) == Expand(events, copies) + [event]
  {
    assert (events + [event])[..|events|] == events && (copies + [1])[..|copies|] == copies;
    assert seq(1, _ => event) == [event];
  }

  /** `copies` counts the arrivals of each accepted event that has reached the server. */
  ghost predicate Seen(q: Queue, copies: seq<nat>) {
    && |q.acknowledged| <= |copies| <= |q.acknowledged| + 1 && |copies| <= |q.accepted|
    && q.received == Expand(q.accepted[..|copies|], copies)
    && forall i :: 0 <= i < |copies| ==> copies[i] >= 1
  }

  /** One more arrival of the event at the head of the queue. */
  lemma Arrival(q: Queue, copies: seq<nat>) returns (more: seq<nat>)
    requires Sound(q) && q.pending != [] && Seen(q, copies)
    ensures |more| == |q.acknowledged| + 1
    ensures Seen(q.(received := q.received + [q.pending[0]]), more)
  {
    if |copies| == |q.acknowledged| {
      more := FirstArrival(q, copies);
    } else {
      more := RepeatedArrival(q, copies);
    }
  }

  /** The head of the queue is the first accepted event that has not been acknowledged. */
  lemma HeadIsNext(q: Queue)
    requires q.acknowledged + q.pending == q.accepted && q.pending != []
    ensures var n := |q.acknowledged|;
      n < |q.accepted| && q.accepted[..n] == q.acknowledged && q.accepted[n] == q.pending[0]
      && q.accepted[..n + 1] == q.acknowledged + [q.pending[0]]
  {
  }

  lemma FirstArrival(q: Queue, copies: seq<nat>) returns (more: seq<nat>)
    requires Sound(q) && q.pending != [] && Seen(q, copies) && |copies| == |q.acknowledged|
    ensures |more| == |q.acknowledged| + 1
    ensures Seen(q.(received := q.received + [q.pending[0]]), more)
  {
    HeadIsNext(q);
    ExpandNew(q.acknowledged, copies, q.pending[0]);
    more := copies + [1];
  }

  lemma RepeatedArrival(q: Queue, copies: seq<nat>) returns (more: seq<nat>)
    requires Sound(q) && q.pending != [] && Seen(q, copies) && |copies| == |q.acknowledged| + 1
    ensures |more| == |q.acknowledged| + 1
    ensures Seen(q.(received := q.received + [q.pending[0]]), more)
  {
    HeadIsNext(q);
    var n, arrived := |q.acknowledged|, q.acknowledged + [q.pending[0]];
    ExpandAgain(arrived, copies);
    more := copies[n := copies[n] + 1];
  }

  lemma SeenStep(q: Queue, step: QueueStep, copies: seq<nat>) returns (more: seq<nat>)
    requires Sound(q) && Ready(q, step) && Seen(q, copies)
    ensures Seen(NextQueue(q, step), more)
  {
    more := copies;
    match step
    case Offer(event) =>
      if !Full(q) {
        assert (q.accepted + [event])[..|copies|] == q.accepted[..|copies|];
      }
    case ReportOk(id) => more := Arrival(q, copies);
    case ReportFailed(id, applied) =>
      if applied {
        more := Arrival(q, copies);
      }
    case DelayOver(_) =>
    case Finalize(_) =>
  }

  /**
   * The server sees the accepted events in order, each acknowledged one at least once,
   * and may have seen one more: only the head can arrive before its acknowledgement.
   */
  lemma {:induction false} ServerSeesInOrder(capacity: nat, trail: seq<Queue>, steps: seq<QueueStep>, k: nat)
    returns (copies: seq<nat>)
    requires IsTrail(capacity, trail, steps) && k < |trail|
    ensures var q := trail[k];
      && |q.acknowledged| <= |copies| <= |q.acknowledged| + 1 && |copies| <= |q.accepted|
      && q.received == Expand(q.accepted[..|copies|], copies)
    ensures forall i :: 0 <= i < |copies| ==> copies[i] >= 1
  {
    if k == 0 {
      copies := [];
    } else {
      copies := ServerSeesInOrder(capacity, trail, steps, k - 1);
      TrailIsSound(capacity, trail, steps);
      copies := SeenStep(trail[k - 1], steps[k - 1], copies);
    }
  }

  lemma ReplayRepeated(log: seq<ChangeEvent>, event: ChangeEvent, n: nat)
    requires n >= 1
    ensures Replay(log + seq(n, _ => event)) == Apply(event, Replay(log))
  {
    var more := seq(n - 1, _ => event);
    assert log + seq(n, _ => event) == (log + more) + [event];
    ReplayAppend(log + more, event);
    if n == 1 {
      assert log + more == log;
    } else {
      ReplayRepeated(log, event, n - 1);
      ApplyTwice(event, Replay(log));
    }
  }

  /** Repeating events on the spot has the effect of delivering each exactly once. */
  lemma {:induction false} RepeatsAreHarmless(events: seq<ChangeEvent>, copies: seq<nat>)
    requires |events| == |copies| && forall i :: 0 <= i < |copies| ==> copies[i] >= 1
    ensures Replay(Expand(events, copies)) == Replay(events)
  {
    if events != [] {
      var n := |events| - 1;
      RepeatsAreHarmless(events[..n], copies[..n]);
      ReplayRepeated(Expand(events[..n], copies[..n]), events[n], copies[n]);
    }
  }
}
