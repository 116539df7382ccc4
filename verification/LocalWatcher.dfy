/** The watcher as the desktop application runs it: maps updated in place by timer callbacks. */
module LocalWatcher {
  import opened ChangeEvents
  import opened Options
  import opened Watcher

  class Capture {
    const cfg: Config
    var now: nat
    var pending: map<Path, PendingEntry>
    var contentHashCache: Tree
    var pendingDeletes: map<Hash, PendingDelete>
    var deleteTimers: map<nat, DeleteTimer>
    var nextTimer: nat
    var emitted: seq<ChangeEvent>

    ghost function View(): State
      reads this
    {
      State(now, pending, contentHashCache, pendingDeletes, deleteTimers, nextTimer, emitted)
    }

    /** Holds between callbacks as long as each flush is on time, whatever the two durations are. */
    ghost predicate Valid()
      reads this
    {
      Inv(cfg, View())
    }

    constructor (cfg: Config)
      ensures this.cfg == cfg && View() == INITIAL && Valid()
    {
      this.cfg := cfg;
      now, nextTimer := 0, 0;
      pending, contentHashCache, pendingDeletes, deleteTimers := map[], map[], map[], map[];
      emitted := [];
      new;
      assert Awaiting(View()) == {};
    }

    method HandleRawEvent(raw: RawEvent, path: Path, admitted: bool)
      modifies this
      ensures View() == Next(cfg, old(View()), Raw(raw, path, admitted))
      ensures old(Valid()) ==> Valid()
    {
      if Valid() {
        StepKeepsInv(cfg, View(), Raw(raw, path, admitted));
      }
      if !admitted {
        return;
      }
      ScheduleFlush(path, KindOf(raw));
    }

    method ScheduleFlush(path: Path, kind: ChangeKind)
      modifies this`pending
      ensures View() == Schedule(cfg, old(View()), path, kind)
    {
      pending := pending[path := PendingEntry(kind, now + cfg.debounce)];
    }

    /** The debounce timer of `path` fires; `content` is the hash of the file as read now. */
    method FlushPath(path: Path, content: Option<Hash>)
      modifies this
      ensures View() == Next(cfg, old(View()), FlushDue(path, content))
      ensures old(Valid()) && path !in Awaiting(old(View())) ==> Valid()
    {
      if Valid() && OnTime(View(), FlushDue(path, content)) {
        StepKeepsInv(cfg, View(), FlushDue(path, content));
      }
      if path !in pending {
        return;
      }
      var kind := pending[path].kind;
      pending := pending - {path};
      if kind == DELETE {
        FlushDeleted(path);
      } else if content.Some? {
        FlushContents(path, kind, content.value);
      }
    }

    method FlushDeleted(path: Path)
      modifies this
      ensures View() == FlushDelete(cfg, old(View()), path)
    {
      if path !in contentHashCache {
        return;  // never reported, so its removal is not reported either
      }
      var hash := contentHashCache[path];
      contentHashCache := contentHashCache - {path};
      deleteTimers := deleteTimers[nextTimer := DeleteTimer(path, hash, now + cfg.window)];
      pendingDeletes := pendingDeletes[hash := PendingDelete(path, nextTimer)];
      nextTimer := nextTimer + 1;
    }

    method FlushContents(path: Path, kind: ChangeKind, hash: Hash)
      requires kind != DELETE
      modifies this
      ensures View() == FlushContent(old(View()), path, kind, hash)
      ensures emitted == old(emitted)
        + [if kind == UPDATE then Update(path, hash)
           else if hash in old(pendingDeletes) then Move(path, old(pendingDeletes)[hash].path, hash)
           else Create(path, hash)]
      ensures kind == CREATE && hash in old(pendingDeletes) ==>
        deleteTimers == old(deleteTimers) - {old(pendingDeletes)[hash].timer} && hash !in pendingDeletes
    {
      contentHashCache := contentHashCache[path := hash];
      if kind == CREATE && hash in pendingDeletes {
        var matched := pendingDeletes[hash];
        deleteTimers := deleteTimers - {matched.timer};
        pendingDeletes := pendingDeletes - {hash};
        emitted := emitted + [Move(path, matched.path, hash)];
        return;
      }
      emitted := emitted + [if kind == CREATE then Create(path, hash) else Update(path, hash)];
    }

    /** A delete timer fires: the path is gone for good, whoever the hash entry belonged to. */
    method DeleteTimerFired(id: nat)
      requires id in deleteTimers
      modifies this
      ensures View() == Next(cfg, old(View()), DeleteDue(id))
      ensures emitted == old(emitted) + [Delete(old(deleteTimers)[id].path)]
      ensures old(Valid()) ==> Valid()
    {
      if Valid() {
        StepKeepsInv(cfg, View(), DeleteDue(id));
      }
      var timer := deleteTimers[id];
      deleteTimers := deleteTimers - {id};
      pendingDeletes := pendingDeletes - {timer.hash};
      emitted := emitted + [Delete(timer.path)];
    }
  }
}
