/** Runs of overlapping enrolments and revocations that go wrong, built call by call. */
module DeviceRaceRuns {
  import opened Options
  import opened Text
  import opened DeviceStore
  import opened DeviceRaces
  import D = DeviceAuth

  lemma Go(steps: seq<Step>, step: Step) returns (longer: seq<Step>)
    requires IsRun(steps) && Enabled(After(steps), step)
    ensures IsRun(longer) && After(longer) == Next(After(steps), step)
    ensures steps <= longer && |longer| == |steps| + 1
    ensures Always(OneExchange, steps) && OneExchange(After(longer)) ==> Always(OneExchange, longer)
    ensures Never(TakesAStaleWrite, steps) && !TakesAStaleWrite(After(steps), step) ==> Never(TakesAStaleWrite, longer)
  {
    longer := steps + [step];
    RunAppend(steps, step);
    assert longer[..|steps|] == steps;
  }

  /** No exchange but `p` is under way. */
  ghost predicate Sole(m: Machine, p: nat) {
    forall q :: q in m.open && m.open[q].device.active ==> q == p
  }

  /** The lock has been respected so far, and still is if `p` alone is an exchange. */
  ghost predicate Locked(steps: seq<Step>, p: nat) {
    Always(OneExchange, steps) && Sole(After(steps), p)
  }

  /** The longer run respects the lock if the shorter did, as far as any call `q` is concerned. */
  ghost predicate KeepsTheLock(steps: seq<Step>, longer: seq<Step>) {
    forall q :: Locked(steps, q) ==> Locked(longer, q)
  }

  /** The rest of a save that nothing gets in the way of, from its device document on. */
  lemma FinishSave(steps: seq<Step>, p: nat, d: Device) returns (longer: seq<Step>)
    requires IsRun(steps) && p in After(steps).open && After(steps).open[p].device == d
    requires After(steps).open[p].phase == Writing([PutDevice(d), PutCredential(d.credential, d.id)])
    ensures IsRun(longer) && steps <= longer
    ensures var m := After(steps);
      After(longer) == Noted(m, d).(
        store := m.store.(devices := m.store.devices[d.id := d],
                          credentials := m.store.credentials[d.credential := d.id]),
        open := m.open - {p})
    ensures KeepsTheLock(steps, longer)
    ensures Never(TakesAStaleWrite, steps) && !LeftOver(After(steps).store, d) ==> Never(TakesAStaleWrite, longer)
  {
    var m := After(steps);
    assert m.open[p].phase.writes[1..] == [PutCredential(d.credential, d.id)];
    longer := Go(steps, Advance(p));
    var between := After(longer);
    assert between.open[p].phase.writes[1..] == [];
    longer := Go(longer, Advance(p));
    assert between.open - {p} == m.open - {p};
  }

  /** The store once a save has dropped the entry of the credential it replaces. */
  function Dropped(s: Store, d: Device): Store {
    if d.id in s.devices && s.devices[d.id].credential != d.credential
    then s.(credentials := s.credentials - {s.devices[d.id].credential}) else s
  }

  /** A save up to its device document: its read, and the deletion of the entry it replaces. */
  lemma BeginSave(steps: seq<Step>, p: nat) returns (longer: seq<Step>)
    requires IsRun(steps) && p in After(steps).open && After(steps).open[p].phase.Reading?
    ensures IsRun(longer) && steps <= longer
    ensures var m := After(steps);
      var d := m.open[p].device;
      After(longer) == m.(
        store := Dropped(m.store, d),
        open := m.open[p := m.open[p].(phase := Writing([PutDevice(d), PutCredential(d.credential, d.id)]))])
    ensures KeepsTheLock(steps, longer)
    ensures Never(TakesAStaleWrite, steps) ==> Never(TakesAStaleWrite, longer)
  {
    SavingStates(After(steps), p);
    longer := Go(steps, Advance(p));
    if |Writes(After(steps).store, After(steps).open[p].device)| == 3 {
      longer := Go(longer, Advance(p));
    }
  }

  lemma SavingStates(m: Machine, p: nat)
    requires p in m.open && m.open[p].phase.Reading?
    ensures Enabled(m, Advance(p))
    ensures var d := m.open[p].device;
      var t := m.(store := Dropped(m.store, d),
                  open := m.open[p := m.open[p].(phase := Writing([PutDevice(d), PutCredential(d.credential, d.id)]))]);
      var m1 := Next(m, Advance(p));
      if |Writes(m.store, d)| == 3 then
        Enabled(m1, Advance(p)) && Next(m1, Advance(p)) == t && m1.open == m.open[p := m1.open[p]]
        && m1.open[p].device == d && !TakesAStaleWrite(m1, Advance(p))
      else m1 == t
  {
    var d := m.open[p].device;
    if |Writes(m.store, d)| == 3 {
      assert Writes(m.store, d)[1..] == [PutDevice(d), PutCredential(d.credential, d.id)];
    } else {
      assert Writes(m.store, d) == [PutDevice(d), PutCredential(d.credential, d.id)];
    }
  }

  /** A whole save that nothing gets in the way of. */
  lemma SaveAlone(steps: seq<Step>, p: nat) returns (longer: seq<Step>)
    requires IsRun(steps) && p in After(steps).open && After(steps).open[p].phase.Reading?
    ensures IsRun(longer) && steps <= longer
    ensures var m := After(steps);
      var d := m.open[p].device;
      After(longer) == Noted(m, d).(store := SaveDevice(m.store, d), open := m.open - {p})
    ensures KeepsTheLock(steps, longer)
    ensures Never(TakesAStaleWrite, steps) ==> Never(TakesAStaleWrite, longer)
  {
    var m := After(steps);
    if Never(TakesAStaleWrite, steps) {
      EntriesStayCurrentExactlyWhenNoWriteIsStale(steps);
      NothingLeftOver(m.store, m.open[p].device);
    }
    longer := BeginSave(steps, p);
    var putting := After(longer);
    longer := FinishSave(longer, p, m.open[p].device);
    assert putting.open - {p} == m.open - {p};
    SameSave(m.store, putting.store, m.open[p].device);
  }

  lemma NothingLeftOver(s: Store, d: Device)
    requires EntriesAreCurrent(s)
    ensures !LeftOver(Dropped(s, d), d)
  {
  }

  lemma SameSave(s: Store, t: Store, d: Device)
    requires t == Dropped(s, d)
    ensures t.(devices := t.devices[d.id := d], credentials := t.credentials[d.credential := d.id]) == SaveDevice(s, d)
  {
    if d.id in s.devices && s.devices[d.id].credential == d.credential {
      assert (s.credentials - {d.credential})[d.credential := d.id] == s.credentials[d.credential := d.id];
    }
  }

  /** What an exchange that nothing gets in the way of makes of a machine. */
  function Enrolment(m: Machine, step: Step): Machine
    requires step.StartExchange? && step.challenge in m.store.challenges
  {
    var record := m.store.challenges[step.challenge];
    var d := D.Enrolled(record, step.rawId, step.rawName, step.token, step.at);
    var consumed := m.store.(challenges := m.store.challenges[step.challenge := record.(consumedAt := Some(step.at))]);
    Noted(m, d).(
      store := SaveDevice(consumed, d),
      used := m.used + {step.token},
      belongs := m.belongs[step.token := d.id],
      minted := m.minted + [D.Mint(step.challenge, step.token, d.id, record.owner, step.at)])
  }

  /** An exchange that would be accepted if nothing got in its way. */
  predicate MayStart(m: Machine, step: Step) {
    && step.StartExchange? && Enabled(m, step)
    && D.ExchangeError(m.store, step.challenge, step.rawId, step.rawName, step.valid, step.at).None?
  }

  lemma CheckingStates(m: Machine, step: Step)
    requires MayStart(m, step)
    ensures Enabled(Next(m, step), Advance(step.p))
    ensures Next(Next(m, step), Advance(step.p)) == Prepared(m, step)
  {
    RefusedInTwoParts(m.store, step.challenge, step.rawId, step.rawName, step.token, step.valid, step.at);
  }

  /** The machine once an exchange has passed all its checks. */
  function Prepared(m: Machine, step: Step): Machine
    requires step.StartExchange? && step.challenge in m.store.challenges
  {
    var record := m.store.challenges[step.challenge];
    var d := D.Enrolled(record, step.rawId, step.rawName, step.token, step.at);
    m.(open := m.open[step.p := Process(d, step.challenge, step.at, Consuming(record))],
       used := m.used + {step.token},
       belongs := m.belongs[step.token := d.id])
  }

  /** An exchange that nothing gets in the way of, up to its last check. */
  lemma PassChecks(steps: seq<Step>, step: Step) returns (longer: seq<Step>)
    requires IsRun(steps) && MayStart(After(steps), step)
    ensures IsRun(longer) && steps <= longer && After(longer) == Prepared(After(steps), step)
    ensures Locked(steps, step.p) ==> Locked(longer, step.p)
    ensures Never(TakesAStaleWrite, steps) ==> Never(TakesAStaleWrite, longer)
  {
    CheckingStates(After(steps), step);
    longer := Go(steps, step);
    longer := Go(longer, Advance(step.p));
  }

  /** The rest of an exchange that has passed its checks. */
  lemma FinishExchange(steps: seq<Step>, p: nat) returns (longer: seq<Step>)
    requires IsRun(steps) && p in After(steps).open && After(steps).open[p].phase.Consuming?
    ensures IsRun(longer) && steps <= longer
    ensures var m := Consumed(After(steps), p);
      var d := m.open[p].device;
      After(longer) == Noted(m, d).(store := SaveDevice(m.store, d), open := After(steps).open - {p})
    ensures Locked(steps, p) ==> Locked(longer, p)
    ensures Never(TakesAStaleWrite, steps) ==> Never(TakesAStaleWrite, longer)
  {
    var m := After(steps);
    longer := Go(steps, Advance(p));
    assert After(longer).open - {p} == m.open - {p};
    longer := SaveAlone(longer, p);
  }

  lemma ExchangeAlone(steps: seq<Step>, step: Step) returns (longer: seq<Step>)
    requires IsRun(steps) && MayStart(After(steps), step)
    ensures IsRun(longer) && steps <= longer && After(longer) == Enrolment(After(steps), step)
    ensures Locked(steps, step.p) ==> Locked(longer, step.p)
    ensures Never(TakesAStaleWrite, steps) ==> Never(TakesAStaleWrite, longer)
  {
    var m := After(steps);
    longer := PassChecks(steps, step);
    assert After(longer).open - {step.p} == m.open;
    longer := FinishExchange(longer, step.p);
  }

  function Inactive(m: Machine, id: string, at: int): Device
    requires id in m.store.devices
  {
    m.store.devices[id].(active := false, revokedAt := Some(at))
  }

  /** The device document is revoked, and the call `p` still has its credential entry to write. */
  function HalfRevoked(m: Machine, p: nat, id: string, at: int): Machine
    requires id in m.store.devices
  {
    var d := Inactive(m, id, at);
    m.(store := m.store.(devices := m.store.devices[id := d]),
       open := m.open[p := Process(d, "", at, Writing([PutCredential(d.credential, id)]))],
       retired := m.retired + {d.credential})
  }

  function Revocation(m: Machine, id: string, at: int): Machine
    requires id in m.store.devices
  {
    var d := Inactive(m, id, at);
    m.(store := SaveDevice(m.store, d), retired := m.retired + {d.credential})
  }

  /** A revocation up to its device document, its credential entry still to be written. */
  lemma RevokeHalfway(steps: seq<Step>, p: nat, id: string, at: int) returns (longer: seq<Step>)
    requires IsRun(steps) && p !in After(steps).open && id in After(steps).store.devices
    ensures IsRun(longer) && After(longer) == HalfRevoked(After(steps), p, id, at)
    ensures KeepsTheLock(steps, longer)
  {
    var m := After(steps);
    DeviceIsKnown(steps, id);
    RevocationStates(m, p, id, at);
    var d := Inactive(m, id, at);
    var m1 := m.(open := m.open[p := Process(d, "", at, Reading)]);
    var m2 := m.(open := m.open[p := Process(d, "", at, Writing([PutDevice(d), PutCredential(d.credential, id)]))]);
    longer := GoTo(steps, StartRevoke(p, id, at), m1);
    longer := GoTo(longer, Advance(p), m2);
    longer := GoTo(longer, Advance(p), Next(m2, Advance(p)));
  }

  /** One more step, to a machine that is known and under which no new exchange is under way. */
  lemma GoTo(steps: seq<Step>, step: Step, next: Machine) returns (longer: seq<Step>)
    requires IsRun(steps) && Enabled(After(steps), step) && Next(After(steps), step) == next
    requires forall p :: p in next.open && next.open[p].device.active ==>
      p in After(steps).open && After(steps).open[p].device.active
    ensures IsRun(longer) && steps <= longer && After(longer) == next
    ensures KeepsTheLock(steps, longer)
    ensures Never(TakesAStaleWrite, steps) && !TakesAStaleWrite(After(steps), step) ==> Never(TakesAStaleWrite, longer)
  {
    longer := Go(steps, step);
  }

  /** A whole revocation that nothing gets in the way of. */
  lemma RevokeAlone(steps: seq<Step>, p: nat, id: string, at: int) returns (longer: seq<Step>)
    requires IsRun(steps) && p !in After(steps).open && id in After(steps).store.devices
    ensures IsRun(longer) && steps <= longer && After(longer) == Revocation(After(steps), id, at)
    ensures KeepsTheLock(steps, longer)
    ensures Never(TakesAStaleWrite, steps) ==> Never(TakesAStaleWrite, longer)
  {
    var m := After(steps);
    var next := m.(open := m.open[p := Process(Inactive(m, id, at), "", at, Reading)]);
    longer := GoTo(steps, StartRevoke(p, id, at), next);
    assert next.open - {p} == m.open;
    longer := SaveAlone(longer, p);
  }

  lemma DeviceIsKnown(steps: seq<Step>, id: string)
    requires IsRun(steps) && id in After(steps).store.devices
    ensures var m := After(steps);
      var d := m.store.devices[id];
      d.id == id && d.credential in m.used
  {
    RunKeepsInv(steps);
  }

  lemma RevocationStates(m: Machine, p: nat, id: string, at: int)
    requires p !in m.open && id in m.store.devices && m.store.devices[id].id == id
    ensures var d := Inactive(m, id, at);
      var entry := PutCredential(d.credential, id);
      var m1 := m.(open := m.open[p := Process(d, "", at, Reading)]);
      var m2 := m.(open := m.open[p := Process(d, "", at, Writing([PutDevice(d), entry]))]);
      && Enabled(m, StartRevoke(p, id, at)) && Next(m, StartRevoke(p, id, at)) == m1
      && Enabled(m1, Advance(p)) && Next(m1, Advance(p)) == m2
      && Enabled(m2, Advance(p))
      && Next(m2, Advance(p)) == HalfRevoked(m, p, id, at)
  {
    var d := Inactive(m, id, at);
    assert Writes(m.store, d) == [PutDevice(d), PutCredential(d.credential, id)];
    assert [PutDevice(d), PutCredential(d.credential, id)][1..] == [PutCredential(d.credential, id)];
  }

  /** A retired credential authenticates an active device that holds another one. */
  ghost predicate Revived(m: Machine, c: Digest, id: string, token: Digest) {
    && c in m.retired && ActiveWith(m.store, id, token) && token != c
    && D.Authenticate(m.store, c) == Some(m.store.devices[id])
    && !EntriesCurrent(m) && !RetiredAreDead(m)
  }

  predicate ActiveWith(s: Store, id: string, token: Digest) {
    id in s.devices && s.devices[id].active && s.devices[id].credential == token
  }

  /**
   * Whenever a device is active and a challenge of its owner is open, a revocation that overlaps one re-enrolment
   * brings the earlier, retired credential back to life on the active device.
   */
  lemma OverlapRevivesACredential(steps: seq<Step>, p: nat, id: string, revokedAt: int, exchange: Step)
    returns (longer: seq<Step>)
    requires IsRun(steps) && p !in After(steps).open && id in After(steps).store.devices
    requires MayStart(After(steps), exchange) && exchange.p != p && Trim(exchange.rawId) == id
    ensures IsRun(longer)
    ensures Revived(After(longer), After(steps).store.devices[id].credential, id, exchange.token)
    ensures Locked(steps, exchange.p) ==> Locked(longer, exchange.p)
  {
    DeviceIsKnown(steps, id);
    var d := After(steps).store.devices[id];
    longer := RevokeHalfway(steps, p, id, revokedAt);
    var halfway := After(longer);
    longer := ExchangeAlone(longer, exchange);
    LastWriteRevives(halfway, Enrolment(halfway, exchange), p, exchange, d.credential);
    longer := GoOn(longer, p, exchange.p);
  }

  /** One more write, which starts no exchange. */
  lemma GoOn(steps: seq<Step>, p: nat, sole: nat) returns (longer: seq<Step>)
    requires IsRun(steps) && Enabled(After(steps), Advance(p)) && After(steps).open[p].phase.Writing?
    ensures IsRun(longer) && After(longer) == Next(After(steps), Advance(p))
    ensures Locked(steps, sole) ==> Locked(longer, sole)
  {
    longer := Go(steps, Advance(p));
  }

  lemma LastWriteRevives(before: Machine, m: Machine, p: nat, exchange: Step, c: Digest)
    requires exchange.StartExchange? && exchange.challenge in before.store.challenges
    requires m == Enrolment(before, exchange)
    requires p in before.open && before.open[p].phase == Writing([PutCredential(c, Trim(exchange.rawId))])
    requires exchange.token != c && c in before.retired && Trim(exchange.rawId) != ""
    ensures Enabled(m, Advance(p))
    ensures Revived(Next(m, Advance(p)), c, Trim(exchange.rawId), exchange.token)
    ensures m.open[p].phase.Writing?
  {
    var t := Next(m, Advance(p));
    assert m.open[p] == before.open[p];
    assert t.store.credentials[c] == Trim(exchange.rawId);
    assert c in t.store.credentials && t.store.devices[t.store.credentials[c]].credential != c;
  }

  /** An exchange that has passed its checks against a store. */
  function Passed(s: Store, step: Step): Process
    requires step.StartExchange? && step.challenge in s.challenges
  {
    var record := s.challenges[step.challenge];
    Process(
      D.Enrolled(record, step.rawId, step.rawName, step.token, step.at), step.challenge, step.at, Consuming(record))
  }

  /** Two exchanges that each would be accepted alone, of processes without a common lock. */
  ghost predicate BothMayStart(m: Machine, one: Step, two: Step) {
    MayStart(m, one) && MayStart(m, two) && one.p != two.p && one.token != two.token
  }

  lemma PassBoth(steps: seq<Step>, one: Step, two: Step) returns (longer: seq<Step>)
    requires IsRun(steps) && BothMayStart(After(steps), one, two)
    ensures IsRun(longer) && After(longer).store == After(steps).store && After(longer).minted == After(steps).minted
    ensures var m, s := After(longer), After(steps).store;
      && one.p in m.open && m.open[one.p] == Passed(s, one) && two.p in m.open && m.open[two.p] == Passed(s, two)
  {
    longer := PassChecks(steps, one);
    longer := PassChecks(longer, two);
  }

  /** Such processes, each with one exchange, get two credentials out of one challenge. */
  lemma TwoProcessesSpendOneChallenge(steps: seq<Step>, one: Step, two: Step) returns (longer: seq<Step>)
    requires IsRun(steps) && BothMayStart(After(steps), one, two) && one.challenge == two.challenge
    ensures IsRun(longer) && !SpentOnce(After(longer))
    ensures var minted := After(longer).minted;
      |minted| >= 2 && minted[|minted| - 2].credential == one.token && minted[|minted| - 1].credential == two.token
  {
    longer := PassBoth(steps, one, two);
    longer := Go(longer, Advance(one.p));
    longer := Go(longer, Advance(two.p));
    var minted := After(longer).minted;
    assert minted[|minted| - 2].challenge == minted[|minted| - 1].challenge;
  }

  predicate OwnedBy(s: Store, id: string, owner: string) {
    id in s.devices && s.devices[id].owner == owner
  }

  /** Such processes enrol one new device for two owners, of whom the later takes it over. */
  lemma TwoProcessesTakeOneDevice(steps: seq<Step>, one: Step, two: Step)
    returns (between: seq<Step>, longer: seq<Step>)
    requires IsRun(steps) && BothMayStart(After(steps), one, two) && Trim(one.rawId) == Trim(two.rawId)
    requires var s := After(steps).store;
      s.challenges[one.challenge].owner != s.challenges[two.challenge].owner
    ensures IsRun(between) && IsRun(longer) && between <= longer && !OwnersNeverChange(longer)
    ensures OwnedBy(After(between).store, Trim(one.rawId), After(steps).store.challenges[one.challenge].owner)
    ensures OwnedBy(After(longer).store, Trim(one.rawId), After(steps).store.challenges[two.challenge].owner)
  {
    var both := PassBoth(steps, one, two);
    between := FinishExchange(both, one.p);
    FinishedIsStored(After(both), one.p, After(between));
    assert After(between).open[two.p] == After(both).open[two.p];
    longer := FinishExchange(between, two.p);
    FinishedIsStored(After(between), two.p, After(longer));
    assert longer[..|between|] == between;
    ChangedBetween(longer, |between|, Trim(one.rawId));
  }

  lemma FinishedIsStored(m: Machine, p: nat, t: Machine)
    requires p in m.open && m.open[p].phase.Consuming?
    requires t.store == SaveDevice(Consumed(m, p).store, m.open[p].device) && t.open == m.open - {p}
    ensures var d := m.open[p].device;
      d.id in t.store.devices && t.store.devices[d.id] == d
  {
  }

  lemma ChangedBetween(steps: seq<Step>, n: nat, id: string)
    requires n <= |steps| && id in After(steps[..n]).store.devices && id in After(steps).store.devices
    requires After(steps[..n]).store.devices[id].owner != After(steps).store.devices[id].owner
    ensures !OwnersNeverChange(steps)
  {
    assert steps[..|steps|] == steps;
    assert !SameOwners(After(steps[..n]).store, After(steps[..|steps|]).store);
  }

  /** It happens: a device enrolled for one owner ends up with another. */
  lemma ADeviceChangesHands() returns (steps: seq<Step>)
    ensures IsRun(steps) && !OwnersNeverChange(steps)
  {
    var between := Go([], Issue("u", 0, "t1", 5, 0));
    between := Go(between, Issue("v", 0, "t2", 5, 0));
    assert Trim("d") == "d" && Trim("n") == "n";
    between, steps := TwoProcessesTakeOneDevice(
      between, StartExchange(0, "t1", "d", "n", "c1", true, 0), StartExchange(1, "t2", "d", "n", "c2", true, 0));
  }

  /** The device "d" of "u" is enrolled, and "u" has another challenge open. */
  predicate MayEnrolAgain(m: Machine) {
    && m.open == map[] && m.used == {"t1", "c1", "t2"}
    && "d" in m.store.devices && m.store.devices["d"].owner == "u"
    && "t2" in m.store.challenges && m.store.challenges["t2"] == Challenge("u", 0, 0, 5, None)
  }

  /** A first device, enrolled and with a second challenge of its owner open. */
  lemma FirstDevice() returns (steps: seq<Step>)
    ensures IsRun(steps) && Locked(steps, 2) && Never(TakesAStaleWrite, steps) && MayEnrolAgain(After(steps))
  {
    steps := Go([], Issue("u", 0, "t1", 5, 0));
    assert Trim("d") == "d" && Trim("n") == "n";
    steps := ExchangeAlone(steps, StartExchange(0, "t1", "d", "n", "c1", true, 0));
    steps := Go(steps, Issue("u", 0, "t2", 5, 0));
  }

  /** It happens, and with the lock respected throughout: the first credential of a first device is revived. */
  lemma AnEarlierCredentialAuthenticates() returns (steps: seq<Step>)
    ensures IsRun(steps) && Always(OneExchange, steps) && !RetiredAreDead(After(steps))
  {
    steps := FirstDevice();
    assert Trim("d") == "d" && Trim("n") == "n";
    steps := OverlapRevivesACredential(steps, 1, "d", 1, StartExchange(2, "t2", "d", "n", "c2", true, 1));
  }
}
