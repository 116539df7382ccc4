/** The events a local watcher reports, and what a receiver makes of them. */
module ChangeEvents {

  type Path = string
  type Hash = string

  /** What a receiver holds for one mount: each reported path with its content hash. */
  type Tree = map<Path, Hash>

  datatype ChangeEvent =
    | Create(path: Path, hash: Hash)
    | Update(path: Path, hash: Hash)
    | Delete(path: Path)
    | Move(path: Path, previous: Path, hash: Hash)

  function Apply(event: ChangeEvent, tree: Tree): Tree {
    match event
    case Create(path, hash) => tree[path := hash]
    case Update(path, hash) => tree[path := hash]
    case Delete(path) => tree - {path}
    case Move(path, previous, hash) => (tree - {previous})[path := hash]
  }

  function Replay(log: seq<ChangeEvent>): Tree {
    if log == [] then map[] else Apply(log[|log| - 1], Replay(log[..|log| - 1]))
  }

  /** A delete or a move names a path the receiver holds. */
  predicate Grounded(event: ChangeEvent, tree: Tree) {
    match event
    case Delete(path) => path in tree
    case Move(_, previous, _) => previous in tree
    case _ => true
  }

  ghost predicate AllGrounded(log: seq<ChangeEvent>) {
    forall k :: 0 <= k < |log| ==> Grounded(log[k], Replay(log[..k]))
  }

  /** How many events of the log take `path` away. */
  function Removals(log: seq<ChangeEvent>, path: Path): nat {
    if log == [] then 0
    else
      var last := log[|log| - 1];
      Removals(log[..|log| - 1], path)
      + (if last == Delete(path) || (last.Move? && last.previous == path) then 1 else 0)
  }

  lemma ReplayAppend(log: seq<ChangeEvent>, event: ChangeEvent)
    ensures Replay(log + [event]) == Apply(event, Replay(log))
    ensures AllGrounded(log) && Grounded(event, Replay(log)) ==> AllGrounded(log + [event])
  {
    assert (log + [event])[..|log|] == log;
    if AllGrounded(log) && Grounded(event, Replay(log)) {
      forall k | 0 <= k < |log + [event]|
        ensures Grounded((log + [event])[k], Replay((log + [event])[..k]))
      {
        if k < |log| {
          assert (log + [event])[..k] == log[..k];
        }
      }
    }
  }

  lemma RemovalsAppend(log: seq<ChangeEvent>, event: ChangeEvent, path: Path)
    ensures Removals(log + [event], path) == Removals(log, path)
      + (if event == Delete(path) || (event.Move? && event.previous == path) then 1 else 0)
  {
    assert (log + [event])[..|log|] == log;
  }

  /** Delivering an event a second time straight after the first changes nothing. */
  lemma ApplyTwice(event: ChangeEvent, tree: Tree)
    ensures Apply(event, Apply(event, tree)) == Apply(event, tree)
  {
    if event.Move? {
      var once := Apply(event, tree);
      assert Apply(event, once).Keys == once.Keys;
    }
  }
}
