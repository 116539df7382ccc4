/** Mounting Drive folders: what stays tracked over any sequence of calls. */
module DriveMounts {
  import opened Options
  import opened FileIds
  import K = StableKey
  import T = Text

  /** How a folder and a workspace name their registration, source workspace and connection. */
  datatype Ids = Ids(
    key: (string, string) -> Option<string>,
    source: (string, string) -> Option<string>,
    connection: string -> Option<string>)

  /** No source workspace is shared by two registration keys. */
  ghost predicate Sound(ids: Ids) {
    forall f1, w1, f2, w2 ::
      ids.key(f1, w1).Some? && ids.key(f2, w2).Some? && ids.source(f1, w1) == ids.source(f2, w2) != None ==>
        ids.key(f1, w1) == ids.key(f2, w2)
  }

  function DriveIds(hash: string -> string): Ids {
    Ids(
      (folder, workspace) => K.RegistrationKey(hash, folder, workspace),
      (folder, workspace) => K.SourceWorkspaceId(hash, folder, workspace),
      folder => K.ConnectionId(hash, folder))
  }

  /** The names the service uses are sound under an ideal hash. */
  lemma DriveIdsAreSound(hash: string -> string)
    requires K.Ideal(hash)
    ensures Sound(DriveIds(hash))
  {
    forall f1, w1, f2, w2 |
      K.RegistrationKey(hash, f1, w1).Some? && K.RegistrationKey(hash, f2, w2).Some?
      && K.SourceWorkspaceId(hash, f1, w1) == K.SourceWorkspaceId(hash, f2, w2)
      ensures K.RegistrationKey(hash, f1, w1) == K.RegistrationKey(hash, f2, w2)
    {
      K.RegistrationKeyExists(hash, f1, w1);
      K.RegistrationKeyExists(hash, f2, w2);
      K.SourceWorkspaceDeterminesTheKey(hash, f1, w1, f2, w2);
    }
  }

  /** There are such names; and those made with a hash of 64 characters are sound while no payload met collides. */
  lemma SoundNamesExist(hash: string -> string, met: string -> bool)
    ensures Sound(DriveIds(K.Spelled))
    ensures K.SeparatesWhatIsMet(hash, met) ==> Sound(DriveIds(K.Extended(hash, met)))
  {
    K.SpelledIsIdeal();
    DriveIdsAreSound(K.Spelled);
    if K.SeparatesWhatIsMet(hash, met) {
      K.ExtendedIsIdeal(hash, met);
      DriveIdsAreSound(K.Extended(hash, met));
    }
  }

  /** A folder's names are those of the ideal hash when the payloads they are made of have been met. */
  lemma SameNamesWhereMet(hash: string -> string, met: string -> bool, folder: string, workspace: string)
    requires met(K.RegistrationPayload(folder, workspace)) && met(K.ConnectionPayload(folder))
    requires K.ConnectionId(hash, folder).Some? ==>
      met(K.SourcePayload(K.ConnectionId(hash, folder).value, folder, workspace))
    ensures var names, ideal := DriveIds(hash), DriveIds(K.Extended(hash, met));
      && ideal.key(folder, workspace) == names.key(folder, workspace)
      && ideal.connection(folder) == names.connection(folder)
      && ideal.source(folder, workspace) == names.source(folder, workspace)
  {
  }

  datatype Status = PENDING | ACTIVE | EXPIRED | REVOKED

  datatype Pending = Pending(
    drive: bool,
    workspace: string,
    owner: string,
    folder: string,
    status: Status,
    expiresAt: int,
    canonical: Option<string>)

  datatype Binding = Binding(pending: string, sourceWorkspace: string)

  datatype State = State(
    pending: map<string, Pending>,
    bindings: map<string, Binding>,
    tracking: map<string, seq<string>>)

  /** A request, the two times at which it looks at the clock, and whether the control plane registers it. */
  datatype Call = Call(
    connection: string,
    workspace: string,
    user: string,
    files: seq<string>,
    readAt: int,
    mountAt: int,
    registered: bool)

  datatype Refusal = Unprocessable | NotFound | Gone | Forbidden | Blank | Conflict | NotRegistered

  datatype Answer = Refused(reason: Refusal) | Mounted(sourceWorkspace: string, files: seq<string>)

  predicate Distinct(files: seq<string>) {
    forall i, j :: 0 <= i < j < |files| ==> files[i] != files[j]
  }

  /** A usable pending Drive connection; one found expired is marked so. */
  function Require(s: State, connection: string, now: int): (State, Option<Refusal>) {
    if connection !in s.pending || !s.pending[connection].drive then (s, Some(NotFound))
    else
      var p := s.pending[connection];
      if p.status == EXPIRED || p.status == REVOKED then (s, Some(Gone))
      else if p.status == PENDING && p.expiresAt <= now then
        (s.(pending := s.pending[connection := p.(status := EXPIRED)]), Some(Gone))
      else (s, None)
  }

  function KeyOf(ids: Ids, s: State, call: Call): Option<string>
    requires call.connection in s.pending
  {
    ids.key(s.pending[call.connection].folder, call.workspace)
  }

  function Tracked(s: State, key: string): seq<string> {
    if key in s.bindings && s.bindings[key].sourceWorkspace in s.tracking
    then s.tracking[s.bindings[key].sourceWorkspace] else []
  }

  /** What the first half of a call comes to: an answer, or files to add to what it saw tracked. */
  datatype Look = Answered(answer: Answer) | Add(key: string, seen: seq<string>)

  function Added(call: Call, seen: seq<string>): seq<string> {
    Without(Sorted(call.files), seen)
  }

  function LookUp(ids: Ids, s: State, call: Call): (State, Look) {
    if call.files == [] || !Distinct(call.files) then (s, Answered(Refused(Unprocessable)))
    else
      var (t, refusal) := Require(s, call.connection, call.readAt);
      if refusal.Some? then (t, Answered(Refused(refusal.value)))
      else if t.pending[call.connection].owner != call.user || t.pending[call.connection].workspace != call.workspace
      then (t, Answered(Refused(Forbidden)))
      else
        var key := KeyOf(ids, t, call);
        if key.None? then (t, Answered(Refused(Blank)))
        else
          var seen := Tracked(t, key.value);
          if Added(call, seen) != [] then (t, Add(key.value, seen))
          else if key.value !in t.bindings then (t, Answered(Refused(Conflict)))
          else (t, Answered(Mounted(t.bindings[key.value].sourceWorkspace, Sorted(call.files))))
  }

  /** The second half: register the merged list and bind the key. */
  function Mount(ids: Ids, s: State, call: Call, key: string, seen: seq<string>): (State, Answer) {
    var (t, refusal) := Require(s, call.connection, call.mountAt);
    if refusal.Some? then (t, Refused(refusal.value))
    else
      var p := t.pending[call.connection];
      var mounted := ids.source(p.folder, call.workspace);
      if p.owner != call.user || p.workspace != call.workspace then (t, Refused(Forbidden))
      else if !call.registered || mounted.None? then (t, Refused(NotRegistered))
      else
        (State(
           t.pending[call.connection := p.(status := ACTIVE, canonical := ids.connection(p.folder))],
           t.bindings[key := Binding(call.connection, mounted.value)],
           t.tracking[mounted.value := Sorted(seen + call.files)]),
         Mounted(mounted.value, Added(call, seen)))
  }

  /** A whole call with nothing in between its halves. */
  function CreateMount(ids: Ids, s: State, call: Call): (State, Answer) {
    var (t, look) := LookUp(ids, s, call);
    match look
    case Answered(answer) => (t, answer)
    case Add(key, seen) => Mount(ids, t, call, key, seen)
  }

  // -------------------------------------------------------------------------
  // Runs: halves of calls in any order
  // -------------------------------------------------------------------------

  /** A call between its halves. */
  datatype Open = Open(call: Call, key: string, seen: seq<string>)

  datatype Entry = Entry(key: string, files: set<string>)

  /** The stores, the calls under way, and the accepted requests so far. */
  datatype Service = Service(state: State, open: map<nat, Open>, accepted: seq<Entry>)

  datatype Step =
    | Connect(connection: string, pending: Pending)
    | Begin(id: nat, call: Call)
    | Finish(id: nat)

  const EMPTY := Service(State(map[], map[], map[]), map[], [])

  /** Connection ids are fresh random tokens; a call is begun and finished once. */
  predicate Enabled(v: Service, step: Step) {
    match step
    case Connect(connection, pending) => connection !in v.state.pending
    case Begin(id, call) => id !in v.open
    case Finish(id) => id in v.open
  }

  function Next(ids: Ids, v: Service, step: Step): Service
    requires Enabled(v, step)
  {
    match step
    case Connect(connection, pending) => v.(state := v.state.(pending := v.state.pending[connection := pending]))
    case Begin(id, call) =>
      var (t, look) := LookUp(ids, v.state, call);
      (match look
       case Add(key, seen) => Service(t, v.open[id := Open(call, key, seen)], v.accepted)
       case Answered(Mounted(_, _)) =>
         Service(t, v.open, v.accepted + [Entry(KeyOf(ids, t, call).value, Elements(call.files))])
       case Answered(Refused(_)) => v.(state := t))
    case Finish(id) =>
      var o := v.open[id];
      var (t, answer) := Mount(ids, v.state, o.call, o.key, o.seen);
      var entry := Entry(o.key, Elements(o.call.files));
      Service(t, v.open - {id}, if answer.Mounted? then v.accepted + [entry] else v.accepted)
  }

  /** All files accepted under a key. */
  function AllAccepted(accepted: seq<Entry>, key: string): set<string> {
    if accepted == [] then {}
    else
      var last := accepted[|accepted| - 1];
      AllAccepted(accepted[..|accepted| - 1], key) + if last.key == key then last.files else {}
  }

  ghost predicate IsIdentity(ids: Ids, key: string, sourceWorkspace: string) {
    exists folder, workspace :: Identifies(ids, folder, workspace, key, sourceWorkspace)
  }

  ghost predicate Identifies(ids: Ids, folder: string, workspace: string, key: string, sourceWorkspace: string) {
    && ids.key(folder, workspace) == Some(key)
    && ids.source(folder, workspace) == Some(sourceWorkspace)
  }

  lemma IdentitiesAgree(ids: Ids, k1: string, k2: string, sourceWorkspace: string)
    requires Sound(ids) && IsIdentity(ids, k1, sourceWorkspace) && IsIdentity(ids, k2, sourceWorkspace)
    ensures k1 == k2
  {
    var f1, w1 :| Identifies(ids, f1, w1, k1, sourceWorkspace);
    var f2, w2 :| Identifies(ids, f2, w2, k2, sourceWorkspace);
    assert ids.key(f1, w1) == ids.key(f2, w2);
  }

  /** Bindings lead to tracked source workspaces of their own key, and open calls know their key. */
  ghost predicate Linked(ids: Ids, v: Service) {
    && (forall key :: key in v.state.bindings ==>
          v.state.bindings[key].sourceWorkspace in v.state.tracking
          && IsIdentity(ids, key, v.state.bindings[key].sourceWorkspace))
    && (forall id :: id in v.open ==>
          v.open[id].call.connection in v.state.pending
          && KeyOf(ids, v.state, v.open[id].call) == Some(v.open[id].key))
  }

  /** An accepted finish that drops a file tracked by now: it neither saw it nor brings it. */
  ghost predicate Overwrites(ids: Ids, v: Service, step: Step)
    requires Enabled(v, step)
  {
    && step.Finish?
    && Mount(ids, v.state, v.open[step.id].call, v.open[step.id].key, v.open[step.id].seen).1.Mounted?
    && var o := v.open[step.id];
    !(Elements(Tracked(v.state, o.key)) <= Elements(o.seen) + Elements(o.call.files))
  }

  /** Nothing is tracked, or seen by an open call, that was not accepted. */
  ghost predicate OnlyAccepted(v: Service) {
    && (forall key :: Elements(Tracked(v.state, key)) <= AllAccepted(v.accepted, key))
    && (forall id :: id in v.open ==> Elements(v.open[id].seen) <= AllAccepted(v.accepted, v.open[id].key))
  }

  ghost predicate Inv(ids: Ids, v: Service) {
    Linked(ids, v) && OnlyAccepted(v)
  }

  /** Every accepted file is still tracked. */
  ghost predicate NothingLost(v: Service) {
    forall key :: Elements(Tracked(v.state, key)) == AllAccepted(v.accepted, key)
  }

  // -------------------------------------------------------------------------
  // One step
  // -------------------------------------------------------------------------

  /** Same connections with the same folders; bindings and tracking as they were. */
  ghost predicate SameRegistrations(s: State, t: State) {
    && t.pending.Keys == s.pending.Keys
    && (forall c :: c in s.pending ==> t.pending[c].folder == s.pending[c].folder)
    && t.bindings == s.bindings
    && t.tracking == s.tracking
  }

  lemma RequireKeepsRegistrations(s: State, connection: string, now: int)
    ensures SameRegistrations(s, Require(s, connection, now).0)
    ensures Require(s, connection, now).1.None? ==> Require(s, connection, now).0 == s && connection in s.pending
  {
  }

  lemma AddedIsTheDifference(call: Call, seen: seq<string>)
    ensures Increasing(Added(call, seen)) && Elements(Added(call, seen)) == Elements(call.files) - Elements(seen)
    ensures Added(call, seen) == [] <==> Elements(call.files) <= Elements(seen)
  {
    SortedIsTheSet(call.files);
    WithoutIsTheDifference(Sorted(call.files), seen);
    if Added(call, seen) != [] {
      assert Added(call, seen)[0] in Elements(Added(call, seen));
    } else {
      assert Elements(Added(call, seen)) == {};
      assert Elements(call.files) <= (Elements(call.files) - Elements(seen)) + Elements(seen);
    }
  }

  lemma LookUpFacts(ids: Ids, s: State, call: Call)
    ensures SameRegistrations(s, LookUp(ids, s, call).0)
    ensures var look := LookUp(ids, s, call).1;
      match look
      case Add(key, seen) =>
        call.connection in s.pending && KeyOf(ids, s, call) == Some(key) && seen == Tracked(s, key)
        && Added(call, seen) != []
      case Answered(Mounted(sourceWorkspace, files)) =>
        && call.connection in s.pending && KeyOf(ids, s, call).Some? && files == Sorted(call.files)
        && Elements(call.files) <= Elements(Tracked(s, KeyOf(ids, s, call).value))
      case Answered(Refused(_)) => true
  {
    RequireKeepsRegistrations(s, call.connection, call.readAt);
    if LookUp(ids, s, call).1.Answered? && LookUp(ids, s, call).1.answer.Mounted? {
      AddedIsTheDifference(call, Tracked(s, KeyOf(ids, s, call).value));
    }
  }

  /** A mount tracks what was seen together with what was asked, and leaves every other key alone. */
  lemma MountFacts(ids: Ids, v: Service, id: nat)
    requires Sound(ids) && Linked(ids, v) && id in v.open
    ensures var o := v.open[id];
      var (t, answer) := Mount(ids, v.state, o.call, o.key, o.seen);
      if answer.Refused? then SameRegistrations(v.state, t)
      else
        && t.pending.Keys == v.state.pending.Keys
        && (forall c :: c in v.state.pending ==> t.pending[c].folder == v.state.pending[c].folder)
        && t.bindings.Keys == v.state.bindings.Keys + {o.key}
        && (forall k :: k in t.bindings && k != o.key ==> t.bindings[k] == v.state.bindings[k])
        && t.bindings[o.key].sourceWorkspace in t.tracking
        && IsIdentity(ids, o.key, t.bindings[o.key].sourceWorkspace)
        && Tracked(t, o.key) == Sorted(o.seen + o.call.files)
        && (forall k :: k != o.key ==> Tracked(t, k) == Tracked(v.state, k))
        && (forall w :: w in v.state.tracking ==> w in t.tracking)
  {
    var o := v.open[id];
    RequireKeepsRegistrations(v.state, o.call.connection, o.call.mountAt);
    var (t, answer) := Mount(ids, v.state, o.call, o.key, o.seen);
    if answer.Mounted? {
      var w := answer.sourceWorkspace;
      assert Identifies(ids, v.state.pending[o.call.connection].folder, o.call.workspace, o.key, w);
      forall k | k != o.key
        ensures Tracked(t, k) == Tracked(v.state, k)
      {
        if k in v.state.bindings && v.state.bindings[k].sourceWorkspace == w {
          IdentitiesAgree(ids, k, o.key, w);
          assert false;
        }
      }
    }
  }

  lemma AcceptOne(accepted: seq<Entry>, e: Entry, key: string)
    ensures AllAccepted(accepted + [e], key) == AllAccepted(accepted, key) + if e.key == key then e.files else {}
  {
    assert (accepted + [e])[..|accepted|] == accepted;
  }

  lemma TrackedDependsOnRegistrations(s: State, t: State, key: string)
    requires SameRegistrations(s, t)
    ensures Tracked(t, key) == Tracked(s, key)
  {
  }

  lemma StepKeepsInv(ids: Ids, v: Service, step: Step)
    requires Sound(ids) && Inv(ids, v) && Enabled(v, step)
    ensures Inv(ids, Next(ids, v, step))
  {
    var n := Next(ids, v, step);
    match step
    case Connect(connection, pending) =>
      forall key ensures Tracked(n.state, key) == Tracked(v.state, key) {}
    case Begin(id, call) =>
      LookUpFacts(ids, v.state, call);
      BeginKeepsInv(ids, v, id, call);
    case Finish(id) =>
      MountFacts(ids, v, id);
      FinishKeepsInv(ids, v, id);
  }

  lemma BeginKeepsInv(ids: Ids, v: Service, id: nat, call: Call)
    requires Inv(ids, v) && id !in v.open
    ensures Inv(ids, Next(ids, v, Begin(id, call)))
  {
    LookUpFacts(ids, v.state, call);
    var n := Next(ids, v, Begin(id, call));
    forall key ensures Tracked(n.state, key) == Tracked(v.state, key) {
      TrackedDependsOnRegistrations(v.state, n.state, key);
    }
    if n.accepted != v.accepted {
      var e := n.accepted[|v.accepted|];
      assert n.accepted == v.accepted + [e];
      forall key ensures AllAccepted(v.accepted, key) <= AllAccepted(n.accepted, key) {
        AcceptOne(v.accepted, e, key);
      }
    }
  }

  lemma FinishKeepsInv(ids: Ids, v: Service, id: nat)
    requires Sound(ids) && Inv(ids, v) && id in v.open
    ensures Inv(ids, Next(ids, v, Finish(id)))
  {
    MountFacts(ids, v, id);
    var o, n := v.open[id], Next(ids, v, Finish(id));
    if Mount(ids, v.state, o.call, o.key, o.seen).1.Mounted? {
      var e := Entry(o.key, Elements(o.call.files));
      forall key
        ensures AllAccepted(v.accepted, key) <= AllAccepted(n.accepted, key)
        ensures Elements(Tracked(n.state, key)) <= AllAccepted(n.accepted, key)
      {
        AcceptOne(v.accepted, e, key);
        if key == o.key {
          SortedUnion(o.seen, o.call.files);
        }
      }
    } else {
      forall key ensures Tracked(n.state, key) == Tracked(v.state, key) {
        TrackedDependsOnRegistrations(v.state, n.state, key);
      }
    }
  }

  /** From a state that lost nothing, one step loses something exactly when it overwrites. */
  lemma StepLosesExactlyWhenItOverwrites(ids: Ids, v: Service, step: Step)
    requires Sound(ids) && Inv(ids, v) && Enabled(v, step) && NothingLost(v)
    ensures NothingLost(Next(ids, v, step)) <==> !Overwrites(ids, v, step)
  {
    var n := Next(ids, v, step);
    match step
    case Connect(connection, pending) =>
      forall key ensures Tracked(n.state, key) == Tracked(v.state, key) {}
    case Begin(id, call) =>
      BeginLosesNothing(ids, v, id, call);
    case Finish(id) =>
      FinishLoses(ids, v, id);
  }

  lemma BeginLosesNothing(ids: Ids, v: Service, id: nat, call: Call)
    requires Inv(ids, v) && id !in v.open && NothingLost(v)
    ensures NothingLost(Next(ids, v, Begin(id, call)))
  {
    LookUpFacts(ids, v.state, call);
    var n := Next(ids, v, Begin(id, call));
    forall key ensures Elements(Tracked(n.state, key)) == AllAccepted(n.accepted, key) {
      TrackedDependsOnRegistrations(v.state, n.state, key);
      if n.accepted != v.accepted {
        var e := n.accepted[|v.accepted|];
        assert n.accepted == v.accepted + [e];
        AcceptOne(v.accepted, e, key);
      }
    }
  }

  lemma FinishLoses(ids: Ids, v: Service, id: nat)
    requires Sound(ids) && Inv(ids, v) && id in v.open && NothingLost(v)
    ensures NothingLost(Next(ids, v, Finish(id))) <==> !Overwrites(ids, v, Finish(id))
  {
    MountFacts(ids, v, id);
    var o, n := v.open[id], Next(ids, v, Finish(id));
    if Mount(ids, v.state, o.call, o.key, o.seen).1.Mounted? {
      var e := Entry(o.key, Elements(o.call.files));
      SortedUnion(o.seen, o.call.files);
      AcceptOne(v.accepted, e, o.key);
      assert AllAccepted(n.accepted, o.key) == Elements(Tracked(v.state, o.key)) + Elements(o.call.files);
      assert Elements(Tracked(n.state, o.key)) == Elements(o.seen) + Elements(o.call.files);
      assert Elements(o.seen) <= Elements(Tracked(v.state, o.key));
      forall key | key != o.key ensures Elements(Tracked(n.state, key)) == AllAccepted(n.accepted, key) {
        AcceptOne(v.accepted, e, key);
      }
    } else {
      forall key ensures Tracked(n.state, key) == Tracked(v.state, key) {
        TrackedDependsOnRegistrations(v.state, n.state, key);
      }
    }
  }

  // -------------------------------------------------------------------------
  // Whole runs
  // -------------------------------------------------------------------------

  ghost predicate IsRun(ids: Ids, trail: seq<Service>, steps: seq<Step>) {
    && |trail| == |steps| + 1
    && trail[0] == EMPTY
    && forall i :: 0 <= i < |steps| ==> Enabled(trail[i], steps[i]) && trail[i + 1] == Next(ids, trail[i], steps[i])
  }

  lemma {:induction false} RunKeepsInv(ids: Ids, trail: seq<Service>, steps: seq<Step>, n: nat)
    requires Sound(ids) && IsRun(ids, trail, steps) && n <= |steps|
    ensures Inv(ids, trail[n])
  {
    if n > 0 {
      RunKeepsInv(ids, trail, steps, n - 1);
      StepKeepsInv(ids, trail[n - 1], steps[n - 1]);
    }
  }

  ghost predicate LosesNothing(trail: seq<Service>, n: nat)
    requires n < |trail|
  {
    forall i :: 0 <= i <= n ==> NothingLost(trail[i])
  }

  ghost predicate NoneOverwrites(ids: Ids, trail: seq<Service>, steps: seq<Step>, n: nat)
    requires IsRun(ids, trail, steps) && n <= |steps|
  {
    forall i :: 0 <= i < n ==> !Overwrites(ids, trail[i], steps[i])
  }

  lemma StartLosesNothing()
    ensures NothingLost(EMPTY)
  {
    forall key ensures Elements(Tracked(EMPTY.state, key)) == AllAccepted(EMPTY.accepted, key) {}
  }

  lemma StepOfARun(ids: Ids, trail: seq<Service>, steps: seq<Step>, n: nat)
    requires Sound(ids) && IsRun(ids, trail, steps) && n < |steps| && NothingLost(trail[n])
    ensures NothingLost(trail[n + 1]) <==> !Overwrites(ids, trail[n], steps[n])
  {
    RunKeepsInv(ids, trail, steps, n);
    StepLosesExactlyWhenItOverwrites(ids, trail[n], steps[n]);
  }

  /**
   * Over any interleaving, the tracked files of every key are at every point the union of the accepted
   * requests exactly when no call finishes over files it did not see.
   */
  lemma {:induction false} TrackedIsTheUnionExactlyWhenNoneOverwrites(
    ids: Ids, trail: seq<Service>, steps: seq<Step>, n: nat)
    requires Sound(ids) && IsRun(ids, trail, steps) && n <= |steps|
    ensures LosesNothing(trail, n) <==> NoneOverwrites(ids, trail, steps, n)
  {
    if n == 0 {
      StartLosesNothing();
    } else {
      TrackedIsTheUnionExactlyWhenNoneOverwrites(ids, trail, steps, n - 1);
      assert LosesNothing(trail, n) <==> LosesNothing(trail, n - 1) && NothingLost(trail[n]);
      assert NoneOverwrites(ids, trail, steps, n) <==>
        NoneOverwrites(ids, trail, steps, n - 1) && !Overwrites(ids, trail[n - 1], steps[n - 1]);
      if LosesNothing(trail, n - 1) {
        assert NothingLost(trail[n - 1]);
        StepOfARun(ids, trail, steps, n - 1);
      }
    }
  }

  // -------------------------------------------------------------------------
  // Overlapping calls, and calls one after the other
  // -------------------------------------------------------------------------

  const ALICE := Pending(true, "w", "alice", "f", ACTIVE, 0, None)

  function Asking(file: string): Call {
    Call("c", "w", "alice", [file], 0, 0, true)
  }

  function Overlap(ids: Ids, key: string, sourceWorkspace: string): seq<Service> {
    var connected := State(map["c" := ALICE], map[], map[]);
    var first, second := Open(Asking("a"), key, []), Open(Asking("b"), key, []);
    var bound := map[key := Binding("c", sourceWorkspace)];
    var pending := map["c" := ALICE.(canonical := ids.connection("f"))];
    [EMPTY,
     Service(connected, map[], []),
     Service(connected, map[0 := first], []),
     Service(connected, map[0 := first, 1 := second], []),
     Service(State(pending, bound, map[sourceWorkspace := ["a"]]), map[1 := second], [Entry(key, {"a"})]),
     Service(State(pending, bound, map[sourceWorkspace := ["b"]]), map[], [Entry(key, {"a"}), Entry(key, {"b"})])]
  }

  const OVERLAP := [Connect("c", ALICE), Begin(0, Asking("a")), Begin(1, Asking("b")), Finish(0), Finish(1)]

  lemma SingleFile(file: string)
    ensures Sorted([file]) == [file] && Added(Asking(file), []) == [file] && Elements([file]) == {file}
    ensures Sorted([] + [file]) == [file]
  {
    assert [file][1..] == [];
    assert [] + [file] == [file];
    assert Sorted([file]) == [file];
    assert Without([file], []) == [file] + Without([], []);
  }

  lemma OverlapBegins(ids: Ids, key: string, sourceWorkspace: string, id: nat, v: Service, file: string)
    requires ids.key("f", "w") == Some(key) && v.state == State(map["c" := ALICE], map[], map[]) && id !in v.open
    ensures Next(ids, v, Begin(id, Asking(file))) == v.(open := v.open[id := Open(Asking(file), key, [])])
  {
    SingleFile(file);
  }

  lemma OverlapFinishes(ids: Ids, key: string, sourceWorkspace: string, v: Service, id: nat, file: string)
    requires ids.source("f", "w") == Some(sourceWorkspace)
    requires id in v.open && v.open[id] == Open(Asking(file), key, [])
    requires "c" in v.state.pending && v.state.pending["c"].(canonical := None) == ALICE
    ensures Next(ids, v, Finish(id)) ==
      Service(
        State(
          v.state.pending["c" := ALICE.(canonical := ids.connection("f"))],
          v.state.bindings[key := Binding("c", sourceWorkspace)],
          v.state.tracking[sourceWorkspace := [file]]),
        v.open - {id}, v.accepted + [Entry(key, {file})])
  {
    SingleFile(file);
    var p := v.state.pending["c"];
    assert p.(status := ACTIVE, canonical := ids.connection(p.folder)) == ALICE.(canonical := ids.connection("f"));
  }

  /** Two calls for the same folder that overlap: both are accepted and the first one's file is gone. */
  lemma OverlapLosesAFile(ids: Ids, key: string, sourceWorkspace: string)
    requires ids.key("f", "w") == Some(key) && ids.source("f", "w") == Some(sourceWorkspace)
    ensures IsRun(ids, Overlap(ids, key, sourceWorkspace), OVERLAP)
    ensures var last := Overlap(ids, key, sourceWorkspace)[5];
      "a" in AllAccepted(last.accepted, key) && Tracked(last.state, key) == ["b"]
  {
    OverlapIsARun(ids, key, sourceWorkspace);
    AcceptOne([], Entry(key, {"a"}), key);
    AcceptOne([Entry(key, {"a"})], Entry(key, {"b"}), key);
    assert [] + [Entry(key, {"a"})] == [Entry(key, {"a"})];
    assert Overlap(ids, key, sourceWorkspace)[5].accepted == [Entry(key, {"a"})] + [Entry(key, {"b"})];
  }

  lemma OverlapIsARun(ids: Ids, key: string, sourceWorkspace: string)
    requires ids.key("f", "w") == Some(key) && ids.source("f", "w") == Some(sourceWorkspace)
    ensures IsRun(ids, Overlap(ids, key, sourceWorkspace), OVERLAP)
  {
    var trail := Overlap(ids, key, sourceWorkspace);
    assert trail[1] == Next(ids, trail[0], OVERLAP[0]);
    OverlapBegins(ids, key, sourceWorkspace, 0, trail[1], "a");
    OverlapBegins(ids, key, sourceWorkspace, 1, trail[2], "b");
    OverlapEnds(ids, key, sourceWorkspace);
  }

  lemma OverlapEnds(ids: Ids, key: string, sourceWorkspace: string)
    requires ids.source("f", "w") == Some(sourceWorkspace)
    ensures var trail := Overlap(ids, key, sourceWorkspace);
      && 0 in trail[3].open && Next(ids, trail[3], Finish(0)) == trail[4]
      && 1 in trail[4].open && Next(ids, trail[4], Finish(1)) == trail[5]
  {
    var trail := Overlap(ids, key, sourceWorkspace);
    OverlapFinishes(ids, key, sourceWorkspace, trail[3], 0, "a");
    OverlapFinishes(ids, key, sourceWorkspace, trail[4], 1, "b");
  }

  datatype Act = NewConnection(connection: string, pending: Pending) | Request(call: Call)

  /** Calls served one after the other, with nothing under way in between. */
  ghost predicate IsSequence(ids: Ids, trail: seq<State>, acts: seq<Act>) {
    && |trail| == |acts| + 1
    && trail[0] == EMPTY.state
    && forall i :: 0 <= i < |acts| ==>
         match acts[i]
         case NewConnection(connection, pending) =>
           && connection !in trail[i].pending
           && trail[i + 1] == trail[i].(pending := trail[i].pending[connection := pending])
         case Request(call) => trail[i + 1] == CreateMount(ids, trail[i], call).0
  }

  /** The files of every accepted request under a key. */
  ghost function Requested(ids: Ids, trail: seq<State>, acts: seq<Act>, key: string, n: nat): set<string>
    requires n <= |acts| && |trail| == |acts| + 1
  {
    if n == 0 then {}
    else
      Requested(ids, trail, acts, key, n - 1)
      + match acts[n - 1]
        case NewConnection(_, _) => {}
        case Request(call) => Contribution(ids, trail[n - 1], call, key)
  }

  ghost function Contribution(ids: Ids, s: State, call: Call, key: string): set<string> {
    if CreateMount(ids, s, call).1.Mounted? && call.connection in s.pending && KeyOf(ids, s, call) == Some(key)
    then Elements(call.files) else {}
  }

  ghost predicate Resting(ids: Ids, s: State) {
    Linked(ids, Service(s, map[], []))
  }

  ghost predicate Adds(s: State, t: State, key: string, files: set<string>) {
    Elements(Tracked(t, key)) == Elements(Tracked(s, key)) + files
  }

  /** One undisturbed call adds its files, when accepted, to what is tracked under its key; nothing else changes. */
  lemma CallAddsItsFiles(ids: Ids, s: State, call: Call)
    requires Sound(ids) && Resting(ids, s)
    ensures Resting(ids, CreateMount(ids, s, call).0)
    ensures forall key :: Adds(s, CreateMount(ids, s, call).0, key, Contribution(ids, s, call, key))
  {
    LookUpFacts(ids, s, call);
    var (t, look) := LookUp(ids, s, call);
    if look.Add? {
      AddIsUndisturbed(ids, s, call);
      MountAddsItsFiles(ids, s, call);
    } else {
      forall key ensures Adds(s, t, key, Contribution(ids, s, call, key)) {
        TrackedDependsOnRegistrations(s, t, key);
      }
    }
  }

  lemma MountAddsItsFiles(ids: Ids, s: State, call: Call)
    requires Sound(ids) && Resting(ids, s)
    requires call.connection in s.pending && KeyOf(ids, s, call).Some?
    ensures var key := KeyOf(ids, s, call).value;
      var (t, answer) := Mount(ids, s, call, key, Tracked(s, key));
      && Resting(ids, t)
      && (answer.Mounted? ==> Adds(s, t, key, Elements(call.files)))
      && forall k :: !(answer.Mounted? && k == key) ==> Adds(s, t, k, {})
  {
    var key := KeyOf(ids, s, call).value;
    var seen := Tracked(s, key);
    var v := Service(s, map[0 := Open(call, key, seen)], []);
    MountFacts(ids, v, 0);
    SortedUnion(seen, call.files);
    var (t, answer) := Mount(ids, s, call, key, seen);
    if answer.Refused? {
      forall k ensures Tracked(t, k) == Tracked(s, k) {
        TrackedDependsOnRegistrations(s, t, k);
      }
    }
  }

  lemma AddIsUndisturbed(ids: Ids, s: State, call: Call)
    requires LookUp(ids, s, call).1.Add?
    ensures LookUp(ids, s, call).0 == s
  {
    RequireKeepsRegistrations(s, call.connection, call.readAt);
  }

  /** Over any sequence of calls the tracked files of a key are the union of the accepted requests. */
  lemma {:induction false} SequentialCallsTrackTheUnion(
      ids: Ids, trail: seq<State>, acts: seq<Act>, key: string, n: nat)
    requires Sound(ids) && IsSequence(ids, trail, acts) && n <= |acts|
    ensures Resting(ids, trail[n])
    ensures Elements(Tracked(trail[n], key)) == Requested(ids, trail, acts, key, n)
  {
    if n > 0 {
      SequentialCallsTrackTheUnion(ids, trail, acts, key, n - 1);
      match acts[n - 1] {
        case NewConnection(connection, pending) =>
          assert Tracked(trail[n], key) == Tracked(trail[n - 1], key);
        case Request(call) =>
          CallAddsItsFiles(ids, trail[n - 1], call);
      }
    }
  }

  lemma TrackedGrows(ids: Ids, trail: seq<State>, acts: seq<Act>, key: string, n: nat)
    requires Sound(ids) && IsSequence(ids, trail, acts) && 0 < n <= |acts|
    ensures Elements(Tracked(trail[n - 1], key)) <= Elements(Tracked(trail[n], key))
  {
    var before, after := Requested(ids, trail, acts, key, n - 1), Requested(ids, trail, acts, key, n);
    SequentialCallsTrackTheUnion(ids, trail, acts, key, n - 1);
    SequentialCallsTrackTheUnion(ids, trail, acts, key, n);
    assert before <= after;
  }

  /** The tracked files never shrink. */
  lemma {:induction false} TrackedNeverShrinks(ids: Ids, trail: seq<State>, acts: seq<Act>, key: string, m: nat, n: nat)
    requires Sound(ids) && IsSequence(ids, trail, acts) && m <= n <= |acts|
    ensures Elements(Tracked(trail[m], key)) <= Elements(Tracked(trail[n], key))
  {
    if m < n {
      TrackedNeverShrinks(ids, trail, acts, key, m, n - 1);
      TrackedGrows(ids, trail, acts, key, n);
    }
  }

  /** An accepted call answers, in order, exactly the files it added, or all of its files when it adds none. */
  lemma AnswerIsWhatWasAdded(ids: Ids, s: State, call: Call)
    requires Sound(ids) && Resting(ids, s) && CreateMount(ids, s, call).1.Mounted?
    ensures call.connection in s.pending && KeyOf(ids, s, call).Some?
    ensures var key := KeyOf(ids, s, call).value;
      var before, after := Elements(Tracked(s, key)), Elements(Tracked(CreateMount(ids, s, call).0, key));
      var answered := CreateMount(ids, s, call).1.files;
      Increasing(answered) && Elements(answered) == if after == before then Elements(call.files) else after - before
  {
    LookUpFacts(ids, s, call);
    CallAddsItsFiles(ids, s, call);
    var look := LookUp(ids, s, call).1;
    if look.Add? {
      AddIsUndisturbed(ids, s, call);
      AddedIsTheDifference(call, look.seen);
      var key := KeyOf(ids, s, call).value;
      var before, after := Elements(Tracked(s, key)), Elements(Tracked(CreateMount(ids, s, call).0, key));
      assert Adds(s, CreateMount(ids, s, call).0, key, Contribution(ids, s, call, key));
      assert after - before == Elements(call.files) - before;
      assert after != before;
    } else {
      SortedIsTheSet(call.files);
    }
  }

  ghost predicate Usable(p: Pending, now: int) {
    p.status == ACTIVE || (p.status == PENDING && now < p.expiresAt)
  }

  /**
   * A call is accepted only for the owner and the workspace of a Drive connection that was usable, at both looks
   * when it mounts, and a mount leaves the connection active; an expired or revoked one stays as it is.
   */
  lemma OnlyEntitledCallsMount(ids: Ids, s: State, call: Call)
    ensures CreateMount(ids, s, call).1.Mounted? ==>
      && call.connection in s.pending
      && var p := s.pending[call.connection];
      && p.drive && p.owner == call.user && p.workspace == call.workspace && Usable(p, call.readAt)
      && (LookUp(ids, s, call).1.Add? ==>
            Usable(p, call.mountAt) && CreateMount(ids, s, call).0.pending[call.connection].status == ACTIVE)
    ensures forall c :: c in s.pending && s.pending[c].status in {EXPIRED, REVOKED} ==>
      c in CreateMount(ids, s, call).0.pending && CreateMount(ids, s, call).0.pending[c] == s.pending[c]
  {
    RequireKeepsRegistrations(s, call.connection, call.readAt);
    if LookUp(ids, s, call).1.Add? {
      AddIsUndisturbed(ids, s, call);
      RequireKeepsRegistrations(s, call.connection, call.mountAt);
    }
  }

  /** Whether the files asked for are all tracked under the key already. */
  ghost predicate Covered(ids: Ids, s: State, call: Call, key: string) {
    Elements(call.files) <= Elements(Tracked(s, key))
  }

  /** What a call is answered: the first thing amiss decides, and nothing amiss is a mount. */
  ghost function Answers(ids: Ids, s: State, call: Call): Answer {
    if call.files == [] || exists i, j :: 0 <= i < j < |call.files| && call.files[i] == call.files[j]
    then Refused(Unprocessable)
    else if call.connection !in s.pending || !s.pending[call.connection].drive then Refused(NotFound)
    else
      var p := s.pending[call.connection];
      if !Usable(p, call.readAt) then Refused(Gone)
      else if p.owner != call.user || p.workspace != call.workspace then Refused(Forbidden)
      else if ids.key(p.folder, call.workspace).None? then Refused(Blank)
      else if Covered(ids, s, call, ids.key(p.folder, call.workspace).value)
      then
        var key := ids.key(p.folder, call.workspace).value;
        if key in s.bindings then Mounted(s.bindings[key].sourceWorkspace, Sorted(call.files)) else Refused(Conflict)
      else if !Usable(p, call.mountAt) then Refused(Gone)
      else if !call.registered || ids.source(p.folder, call.workspace).None? then Refused(NotRegistered)
      else
        Mounted(ids.source(p.folder, call.workspace).value,
                Added(call, Tracked(s, ids.key(p.folder, call.workspace).value)))
  }

  lemma CallsAnswerByTheFirstThingAmiss(ids: Ids, s: State, call: Call)
    ensures CreateMount(ids, s, call).1 == Answers(ids, s, call)
  {
    RequireKeepsRegistrations(s, call.connection, call.readAt);
    if call.connection in s.pending && KeyOf(ids, s, call).Some? {
      AddedIsTheDifference(call, Tracked(s, KeyOf(ids, s, call).value));
    }
  }

  /** The second half checks for itself, whoever it is for and whatever the first half saw. */
  lemma MountsAnswerByTheFirstThingAmiss(ids: Ids, s: State, call: Call, key: string, seen: seq<string>)
    ensures Mount(ids, s, call, key, seen).1 ==
      if call.connection !in s.pending || !s.pending[call.connection].drive then Refused(NotFound)
      else
        var p := s.pending[call.connection];
        if !Usable(p, call.mountAt) then Refused(Gone)
        else if p.owner != call.user || p.workspace != call.workspace then Refused(Forbidden)
        else if !call.registered || ids.source(p.folder, call.workspace).None? then Refused(NotRegistered)
        else Mounted(ids.source(p.folder, call.workspace).value, Added(call, seen))
  {
  }

  /** The call gets as far as its second half. */
  ghost predicate Mounts(ids: Ids, s: State, call: Call) {
    && call.files != [] && Distinct(call.files) && call.connection in s.pending
    && var p := s.pending[call.connection];
    && p.drive && Usable(p, call.readAt) && p.owner == call.user && p.workspace == call.workspace
    && ids.key(p.folder, call.workspace).Some?
    && !Covered(ids, s, call, ids.key(p.folder, call.workspace).value)
  }

  /** What a call makes of its own connection: active under its canonical id, expired, or as it was. */
  ghost function ConnectionAfter(ids: Ids, s: State, call: Call): Pending
    requires call.connection in s.pending
  {
    var p := s.pending[call.connection];
    if Mounts(ids, s, call) && Answers(ids, s, call).Mounted?
    then p.(status := ACTIVE, canonical := ids.connection(p.folder))
    else if p.drive && p.status == PENDING && call.files != [] && Distinct(call.files)
      && (p.expiresAt <= call.readAt || (Mounts(ids, s, call) && p.expiresAt <= call.mountAt))
    then p.(status := EXPIRED)
    else p
  }

  lemma LookUpIs(ids: Ids, s: State, call: Call)
    ensures Mounts(ids, s, call) ==>
      var key := KeyOf(ids, s, call).value;
      LookUp(ids, s, call) == (s, Add(key, Tracked(s, key)))
    ensures !Mounts(ids, s, call) ==>
      && LookUp(ids, s, call).1.Answered?
      && LookUp(ids, s, call).0 ==
           if call.connection in s.pending
           then s.(pending := s.pending[call.connection := ConnectionAfter(ids, s, call)]) else s
  {
    RequireKeepsRegistrations(s, call.connection, call.readAt);
    if call.connection in s.pending {
      assert s.pending[call.connection := s.pending[call.connection]] == s.pending;
      if KeyOf(ids, s, call).Some? {
        AddedIsTheDifference(call, Tracked(s, KeyOf(ids, s, call).value));
      }
    }
  }

  lemma MountIs(ids: Ids, s: State, call: Call)
    requires Mounts(ids, s, call)
    ensures var key := KeyOf(ids, s, call).value;
      var t := Mount(ids, s, call, key, Tracked(s, key)).0;
      && t.pending == s.pending[call.connection := ConnectionAfter(ids, s, call)]
      && if Answers(ids, s, call).Mounted? then
           var source := ids.source(s.pending[call.connection].folder, call.workspace).value;
           && t.bindings == s.bindings[key := Binding(call.connection, source)]
           && t.tracking == s.tracking[source := Sorted(Tracked(s, key) + call.files)]
         else t.bindings == s.bindings && t.tracking == s.tracking
  {
    assert s.pending[call.connection := s.pending[call.connection]] == s.pending;
  }

  /** What a call leaves in the stores: its connection, and where it mounts its binding and its files; nothing else. */
  lemma StoresAfterACall(ids: Ids, s: State, call: Call)
    ensures var t := CreateMount(ids, s, call).0;
      && t.pending.Keys == s.pending.Keys
      && (forall c :: c in s.pending && c != call.connection ==> t.pending[c] == s.pending[c])
      && (call.connection in s.pending ==> t.pending[call.connection] == ConnectionAfter(ids, s, call))
      && if Mounts(ids, s, call) && Answers(ids, s, call).Mounted? then
           var folder := s.pending[call.connection].folder;
           var key, source := ids.key(folder, call.workspace).value, ids.source(folder, call.workspace).value;
           && t.bindings == s.bindings[key := Binding(call.connection, source)]
           && t.tracking == s.tracking[source := Sorted(Tracked(s, key) + call.files)]
         else t.bindings == s.bindings && t.tracking == s.tracking
  {
    LookUpIs(ids, s, call);
    if Mounts(ids, s, call) {
      MountIs(ids, s, call);
    }
  }

  /** Files can be tracked only under a bound key, so a call never meets the conflict answer. */
  lemma ConflictNeverHappens(ids: Ids, s: State, call: Call)
    ensures CreateMount(ids, s, call).1 != Refused(Conflict)
  {
    if call.files != [] {
      AddedIsTheDifference(call, []);
      assert call.files[0] in Elements(call.files);
    }
  }

  /**
   * Unless the two payloads collide, accepted calls through any two connections register under one key exactly when
   * folder and workspace agree, up to the white space that keys ignore.
   */
  lemma ConnectionsConverge(hash: string -> string, s: State, a: Call, b: Call)
    requires a.connection in s.pending && b.connection in s.pending ==>
      K.Apart(
        hash, K.RegistrationPayload(s.pending[a.connection].folder, a.workspace),
        K.RegistrationPayload(s.pending[b.connection].folder, b.workspace))
    ensures CreateMount(DriveIds(hash), s, a).1.Mounted? && CreateMount(DriveIds(hash), s, b).1.Mounted? ==>
      && a.connection in s.pending && b.connection in s.pending
      && var f, g := s.pending[a.connection].folder, s.pending[b.connection].folder;
         KeyOf(DriveIds(hash), s, a) == KeyOf(DriveIds(hash), s, b) <==>
           T.TrimRight(f) == T.TrimRight(g) && T.Trim(a.workspace) == T.Trim(b.workspace)
  {
    var ids := DriveIds(hash);
    if CreateMount(ids, s, a).1.Mounted? && CreateMount(ids, s, b).1.Mounted? {
      LookUpFacts(ids, s, a);
      LookUpFacts(ids, s, b);
      var f, g := s.pending[a.connection].folder, s.pending[b.connection].folder;
      K.RegistrationKeyExists(hash, f, a.workspace);
      K.RegistrationKeyExists(hash, g, b.workspace);
      K.RegistrationKeysAreDistinct(hash, f, a.workspace, g, b.workspace);
    }
  }

  // -------------------------------------------------------------------------
  // The service
  // -------------------------------------------------------------------------

  class SourceRegistration {
    const ids: Ids
    var pending: map<string, Pending>
    var bindings: map<string, Binding>
    var tracking: map<string, seq<string>>

    ghost function Contents(): State
      reads this
    {
      State(pending, bindings, tracking)
    }

    constructor (ids: Ids)
      ensures this.ids == ids && Contents() == EMPTY.state
    {
      this.ids := ids;
      pending, bindings, tracking := map[], map[], map[];
    }

    method RequirePending(connection: string, now: int) returns (refusal: Option<Refusal>)
      modifies this
      ensures (Contents(), refusal) == Require(old(Contents()), connection, now)
    {
      if connection !in pending || !pending[connection].drive {
        return Some(NotFound);
      }
      var p := pending[connection];
      if p.status == EXPIRED || p.status == REVOKED {
        return Some(Gone);
      }
      if p.status == PENDING && p.expiresAt <= now {
        pending := pending[connection := p.(status := EXPIRED)];
        return Some(Gone);
      }
      return None;
    }

    method TrackedFiles(key: string) returns (files: seq<string>)
      ensures files == Tracked(Contents(), key)
    {
      if key !in bindings || bindings[key].sourceWorkspace !in tracking {
        return [];
      }
      return tracking[bindings[key].sourceWorkspace];
    }

    method MountFolder(call: Call, key: string, seen: seq<string>) returns (answer: Answer)
      modifies this
      ensures (Contents(), answer) == Mount(ids, old(Contents()), call, key, seen)
    {
      var refusal := RequirePending(call.connection, call.mountAt);
      if refusal.Some? {
        return Refused(refusal.value);
      }
      var p := pending[call.connection];
      if p.owner != call.user || p.workspace != call.workspace {
        return Refused(Forbidden);
      }
      var mounted := ids.source(p.folder, call.workspace);
      if !call.registered || mounted.None? {
        return Refused(NotRegistered);
      }
      tracking := tracking[mounted.value := Sorted(seen + call.files)];
      bindings := bindings[key := Binding(call.connection, mounted.value)];
      pending := pending[call.connection := p.(status := ACTIVE, canonical := ids.connection(p.folder))];
      return Mounted(mounted.value, Added(call, seen));
    }

    method CreateDriveMount(call: Call) returns (answer: Answer)
      modifies this
      ensures (Contents(), answer) == CreateMount(ids, old(Contents()), call)
    {
      if call.files == [] || !Distinct(call.files) {
        return Refused(Unprocessable);
      }
      var refusal := RequirePending(call.connection, call.readAt);
      if refusal.Some? {
        return Refused(refusal.value);
      }
      var p := pending[call.connection];
      if p.owner != call.user || p.workspace != call.workspace {
        return Refused(Forbidden);
      }
      var key := ids.key(p.folder, call.workspace);
      if key.None? {
        return Refused(Blank);
      }
      var seen := TrackedFiles(key.value);
      if Added(call, seen) == [] {
        if key.value !in bindings {
          return Refused(Conflict);
        }
        return Mounted(bindings[key.value].sourceWorkspace, Sorted(call.files));
      }
      answer := MountFolder(call, key.value, seen);
    }
  }
}
