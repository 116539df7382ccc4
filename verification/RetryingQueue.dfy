/** The delivery queue as an object: producers and resumed awaits update it in place. */
module RetryingQueue {
  import opened ChangeEvents
  import opened Options
  import opened Watcher
  import opened DeliveryQueue

  class RetryingDesktopEventQueue {
    const maximumPending: nat
    var pending: seq<ChangeEvent>
    var draining: Option<nat>
    var drains: map<nat, Drain>
    var nextDrain: nat
    var retryAttempt: nat
    ghost var accepted: seq<ChangeEvent>
    ghost var acknowledged: seq<ChangeEvent>
    ghost var received: seq<ChangeEvent>
    ghost var waits: seq<nat>

    ghost function View(): Queue
      reads this
    {
      Queue(maximumPending, pending, draining, drains, nextDrain, retryAttempt,
            accepted, acknowledged, received, waits)
    }

    constructor (maximumPending: nat)
      ensures this.maximumPending == maximumPending
      ensures View() == Empty(maximumPending) && Sound(View())
    {
      this.maximumPending := maximumPending;
      pending, draining, drains, nextDrain, retryAttempt := [], None, map[], 0, 0;
      accepted, acknowledged, received, waits := [], [], [], [];
    }

    /** Refuses the event, changing nothing, when the queue is full. */
    method EnqueueEvent(event: ChangeEvent) returns (ok: bool)
      requires Sound(View())
      modifies this
      ensures Sound(View()) && View() == NextQueue(old(View()), Offer(event))
      ensures ok <==> old(|pending|) < maximumPending
      ensures ok ==> acknowledged + pending == old(acknowledged + pending) + [event]
      ensures !ok ==> View() == old(View())
    {
      SoundStep(View(), Offer(event));
      if |pending| >= maximumPending {
        return false;
      }
      pending := pending + [event];
      accepted := accepted + [event];
      StartDrain();
      ok := true;
    }

    method StartDrain()
      modifies this
      ensures View() == EnsureDrain(old(View()))
    {
      if draining.None? {
        draining := Some(nextDrain);
        drains := drains[nextDrain := LoopHead(pending)];
        nextDrain := nextDrain + 1;
      }
    }

    /** The awaited report succeeded: drop the head and go round the loop. */
    method ReportSucceeded(id: nat)
      requires Sound(View()) && Ready(View(), ReportOk(id))
      modifies this
      ensures Sound(View()) && View() == NextQueue(old(View()), ReportOk(id))
      ensures old(pending) == [old(drains)[id].event] + pending
    {
      SoundStep(View(), ReportOk(id));
      received := received + [drains[id].event];
      acknowledged := acknowledged + [drains[id].event];
      pending := if pending == [] then [] else pending[1..];
      retryAttempt, waits := 0, [];
      drains := drains[id := LoopHead(pending)];
    }

    /** The awaited report failed: keep the head, report every eighth failure, wait. */
    method ReportRejected(id: nat, ghost applied: bool) returns (wait: nat, notify: bool)
      requires Sound(View()) && Ready(View(), ReportFailed(id, applied))
      modifies this
      ensures Sound(View()) && View() == NextQueue(old(View()), ReportFailed(id, applied))
      ensures 500 <= wait <= 30000 && (forall k :: 0 <= k < |old(waits)| ==> old(waits)[k] <= wait)
      ensures notify <==> old(retryAttempt) % 8 == 0
      ensures pending == old(pending)
    {
      SoundStep(View(), ReportFailed(id, applied));
      forall k | 0 <= k <= |waits| ensures 500 <= Backoff(k) <= Backoff(retryAttempt) <= 30000 {
        BackoffGrowsWithinBounds(k, retryAttempt);
      }
      wait := Backoff(retryAttempt);
      notify := retryAttempt % 8 == 0;
      if applied {
        received := received + [drains[id].event];
      }
      waits := waits + [wait];
      retryAttempt := retryAttempt + 1;
      drains := drains[id := BackingOff(wait)];
    }

    method DelayElapsed(id: nat)
      requires Sound(View()) && Ready(View(), DelayOver(id))
      modifies this
      ensures Sound(View()) && View() == NextQueue(old(View()), DelayOver(id))
      ensures drains[id] == Reporting(pending[0])
    {
      SoundStep(View(), DelayOver(id));
      drains := drains[id := LoopHead(pending)];
    }

    /** The drain's finalizer: free the slot, and start again if something arrived meanwhile. */
    method DrainSettled(id: nat)
      requires Sound(View()) && Ready(View(), Finalize(id))
      modifies this
      ensures Sound(View()) && View() == NextQueue(old(View()), Finalize(id))
      ensures draining.None? <==> pending == []
    {
      SoundStep(View(), Finalize(id));
      draining := None;
      drains := drains - {id};
      if pending != [] {
        StartDrain();
      }
    }
  }
}
