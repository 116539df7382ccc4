/**
 * Lookups by credential beside enrolments and revocations over the document store: a lookup reads the entry of its
 * credential and then the device that the entry names, and any steps of other calls can fall in between.
 */
module DeviceLookups {
  import opened Options
  import opened Text
  import opened DeviceStore
  import D = DeviceAuth
  import R = DeviceRaces
  import Runs = DeviceRaceRuns

  /** A lookup between its reads. What is not needed to go on with it says what its first read came upon. */
  datatype Lookup = Lookup(
    credential: Digest,
    id: string,             // the device named by the entry
    late: bool,             // the credential had been retired
    wasActive: bool,        // the device was active
    since: Option<Device>)  // the latest document of the device written since

  /** A device let in by a credential, which is `late` if it had been retired before the lookup began. */
  datatype Admission = Admission(credential: Digest, device: Device, late: bool)

  datatype Service = Service(m: R.Machine, lookups: map<nat, Lookup>, admitted: seq<Admission>)

  const START := Service(R.START, map[], [])

  datatype Step = Call(step: R.Step) | BeginLookup(q: nat, credential: Digest) | FinishLookup(q: nat)

  predicate Enabled(s: Service, step: Step) {
    match step
    case Call(step) => R.Enabled(s.m, step)
    case BeginLookup(q, _) => q !in s.lookups
    case FinishLookup(q) => q in s.lookups
  }

  predicate ActiveIn(s: Store, id: string) {
    id in s.devices && s.devices[id].active
  }

  predicate PutsDevice(m: R.Machine, step: R.Step) {
    R.WritesNow(m, step) && R.WriteOf(m, step).PutDevice?
  }

  function Seen(l: Lookup, m: R.Machine, step: R.Step): Lookup {
    if PutsDevice(m, step) && R.WriteOf(m, step).device.id == l.id
    then l.(since := Some(R.WriteOf(m, step).device)) else l
  }

  /** The device that the second read of a lookup finds, if it is active. */
  function Found(s: Service, q: nat): Option<Device>
    requires q in s.lookups
  {
    match DeviceOf(s.m.store, s.lookups[q].id)
    case NoKey => None
    case Answer(None) => None
    case Answer(Some(d)) => if d.active then Some(d) else None
  }

  function Begun(s: Service, q: nat, credential: Digest): Service {
    match EntryOf(s.m.store, credential)
    case NoKey => s
    case Answer(None) => s
    case Answer(Some(id)) =>
      s.(lookups := s.lookups[q :=
           Lookup(credential, id, credential in s.m.retired, ActiveIn(s.m.store, id), None)])
  }

  function Finished(s: Service, q: nat): Service
    requires q in s.lookups
  {
    var l, found := s.lookups[q], Found(s, q);
    s.(lookups := s.lookups - {q},
       admitted := if found.Some? then s.admitted + [Admission(l.credential, found.value, l.late)] else s.admitted)
  }

  function Next(s: Service, step: Step): Service
    requires Enabled(s, step)
  {
    match step
    case Call(step) =>
      s.(m := R.Next(s.m, step), lookups := map q | q in s.lookups :: Seen(s.lookups[q], s.m, step))
    case BeginLookup(q, credential) => Begun(s, q, credential)
    case FinishLookup(q) => Finished(s, q)
  }

  ghost predicate IsRun(steps: seq<Step>) {
    steps == []
    || (IsRun(steps[..|steps| - 1]) && Enabled(After(steps[..|steps| - 1]), steps[|steps| - 1]))
  }

  function After(steps: seq<Step>): Service {
    if steps == [] then START
    else
      var s, step := After(steps[..|steps| - 1]), steps[|steps| - 1];
      if Enabled(s, step) then Next(s, step) else s
  }

  /** No step of the run is `bad` where it is taken. */
  ghost predicate Never(bad: (Service, Step) -> bool, steps: seq<Step>) {
    steps == []
    || (!bad(After(steps[..|steps| - 1]), steps[|steps| - 1]) && Never(bad, steps[..|steps| - 1]))
  }

  /** The enrolments and revocations of a run. */
  function Calls(steps: seq<Step>): seq<R.Step> {
    if steps == [] then []
    else
      var rest, step := Calls(steps[..|steps| - 1]), steps[|steps| - 1];
      if step.Call? then rest + [step.step] else rest
  }

  /** Lookups do not get in the way of the other calls. */
  lemma {:induction false} CallsAreARun(steps: seq<Step>)
    requires IsRun(steps)
    ensures R.IsRun(Calls(steps)) && R.After(Calls(steps)) == After(steps).m
  {
    if steps != [] {
      var prefix, step := steps[..|steps| - 1], steps[|steps| - 1];
      CallsAreARun(prefix);
      if step.Call? {
        R.RunAppend(Calls(prefix), step.step);
      }
    }
  }

  lemma MachineKeepsInv(steps: seq<Step>)
    requires IsRun(steps)
    ensures R.Inv(After(steps).m)
  {
    CallsAreARun(steps);
    R.RunKeepsInv(Calls(steps));
  }

  // -------------------------------------------------------------------------
  // What a lookup under way knows
  // -------------------------------------------------------------------------

  ghost predicate Known(m: R.Machine, l: Lookup) {
    && l.credential in m.born && l.credential in m.belongs && m.belongs[l.credential] == l.id
    && (l.late ==> l.credential in m.retired)
    && (l.since.None? ==> (ActiveIn(m.store, l.id) <==> l.wasActive))
    && (l.since.Some? ==> l.id in m.store.devices && m.store.devices[l.id] == l.since.value)
  }

  ghost predicate LookupsKnown(s: Service) {
    forall q :: q in s.lookups ==> Known(s.m, s.lookups[q])
  }

  lemma BookkeepingGrows(m: R.Machine, step: R.Step)
    requires R.TokensKnown(m) && R.Enabled(m, step)
    ensures var t := R.Next(m, step);
      && m.born <= t.born && m.retired <= t.retired
      && (forall c :: c in m.belongs ==> c in t.belongs && t.belongs[c] == m.belongs[c])
  {
  }

  lemma DevicesChangeByPuts(m: R.Machine, step: R.Step)
    requires R.Enabled(m, step)
    ensures R.Next(m, step).store.devices ==
      if PutsDevice(m, step) then m.store.devices[R.WriteOf(m, step).device.id := R.WriteOf(m, step).device]
      else m.store.devices
  {
  }

  lemma StillKnown(m: R.Machine, step: R.Step, l: Lookup)
    requires R.TokensKnown(m) && R.Enabled(m, step) && Known(m, l)
    ensures Known(R.Next(m, step), Seen(l, m, step))
  {
    BookkeepingGrows(m, step);
    DevicesChangeByPuts(m, step);
  }

  lemma StepKeepsKnown(s: Service, step: Step)
    requires R.Inv(s.m) && LookupsKnown(s) && Enabled(s, step)
    ensures LookupsKnown(Next(s, step))
  {
    var t := Next(s, step);
    match step
    case Call(call) =>
      forall q | q in t.lookups ensures Known(t.m, t.lookups[q]) {
        StillKnown(s.m, call, s.lookups[q]);
      }
    case BeginLookup(_, _) =>
    case FinishLookup(_) =>
  }

  lemma {:induction false} RunKeepsKnown(steps: seq<Step>)
    requires IsRun(steps)
    ensures LookupsKnown(After(steps))
  {
    if steps != [] {
      var prefix := steps[..|steps| - 1];
      RunKeepsKnown(prefix);
      MachineKeepsInv(prefix);
      StepKeepsKnown(After(prefix), steps[|steps| - 1]);
    }
  }

  /**
   * In every interleaving, a lookup that is about to let a device in was given a credential handed out for that very
   * device; the device is active and holds the credential of its latest enrolment, neither replaced nor revoked; and
   * if that is not the credential looked up, the latter is retired by now.
   */
  lemma AdmissionIsForItsDevice(steps: seq<Step>, q: nat)
    requires IsRun(steps) && q in After(steps).lookups && Found(After(steps), q).Some?
    ensures var m, l, d := After(steps).m, After(steps).lookups[q], Found(After(steps), q).value;
      && R.MintedFor(m, l.credential, d.id) && d.id == l.id && d.active
      && d.id in m.installed && d.credential == m.installed[d.id] && d.credential !in m.retired
      && (l.credential != d.credential <==> l.credential in m.retired)
  {
    MachineKeepsInv(steps);
    RunKeepsKnown(steps);
    FoundHoldsItsLatest(After(steps), q);
  }

  lemma FoundHoldsItsLatest(s: Service, q: nat)
    requires R.Inv(s.m) && LookupsKnown(s) && q in s.lookups && Found(s, q).Some?
    ensures var l, d := s.lookups[q], Found(s, q).value;
      && R.MintedFor(s.m, l.credential, d.id) && d.id == l.id && d.active
      && d.id in s.m.installed && d.credential == s.m.installed[d.id] && d.credential !in s.m.retired
      && (l.credential != d.credential <==> l.credential in s.m.retired)
  {
    assert Known(s.m, s.lookups[q]);
  }

  /** A lookup with nothing between its reads lets in what the credential authenticates at that point. */
  lemma LookupAlone(s: Service, q: nat, credential: Digest)
    requires Enabled(s, BeginLookup(q, credential)) && credential != ""
    ensures var t := Begun(s, q, credential);
      && D.Authenticate(s.m.store, credential) == (if q in t.lookups then Found(t, q) else None)
      && (q in t.lookups ==> Enabled(t, FinishLookup(q)) && Next(t, FinishLookup(q)).lookups == s.lookups)
  {
    assert s.lookups - {q} == s.lookups;
  }

  // -------------------------------------------------------------------------
  // Retired credentials let nothing in
  // -------------------------------------------------------------------------

  /** No credential has let anything in that was retired before its lookup began. */
  ghost predicate NoneLate(s: Service) {
    forall a :: a in s.admitted ==> !a.late
  }

  /** The second read of a late lookup finds an active device that holds another credential. */
  predicate FindsAnother(s: Service, step: Step) {
    && step.FinishLookup? && step.q in s.lookups && s.lookups[step.q].late
    && Found(s, step.q).Some? && Found(s, step.q).value.credential != s.lookups[step.q].credential
  }

  lemma AdmissionsGrow(s: Service, step: Step)
    requires R.Inv(s.m) && LookupsKnown(s) && Enabled(s, step)
    ensures NoneLate(Next(s, step)) <==> NoneLate(s) && !FindsAnother(s, step)
  {
    var t := Next(s, step);
    if t.admitted == s.admitted {
      assert !step.FinishLookup? || Found(s, step.q).None?;
    } else {
      var l := s.lookups[step.q];
      var a := Admission(l.credential, Found(s, step.q).value, l.late);
      assert Known(s.m, l);
      FoundHoldsItsLatest(s, step.q);
      assert t.admitted == s.admitted + [a] && a in t.admitted;
      assert forall b :: b in s.admitted ==> b in t.admitted;
    }
  }

  /** Late credentials let nothing in exactly when no late lookup finds a device with another credential. */
  lemma {:induction false} NoneIsLateExactlyWhenNoneFindsAnother(steps: seq<Step>)
    requires IsRun(steps)
    ensures NoneLate(After(steps)) <==> Never(FindsAnother, steps)
  {
    if steps != [] {
      var prefix := steps[..|steps| - 1];
      NoneIsLateExactlyWhenNoneFindsAnother(prefix);
      MachineKeepsInv(prefix);
      RunKeepsKnown(prefix);
      AdmissionsGrow(After(prefix), steps[|steps| - 1]);
    }
  }

  /** The second read of a late lookup follows a write that has enrolled the device since the first. */
  predicate SpansAnEnrolment(s: Service, step: Step) {
    && step.FinishLookup? && step.q in s.lookups && s.lookups[step.q].late
    && s.lookups[step.q].since.Some? && s.lookups[step.q].since.value.active
  }

  /** What a late lookup came upon was inactive. */
  ghost predicate LateFoundInactive(s: Service) {
    forall q :: q in s.lookups && s.lookups[q].late ==> !s.lookups[q].wasActive
  }

  lemma DeadAreFoundInactive(s: Service, step: Step)
    requires R.Inv(s.m) && R.RetiredAreDead(s.m) && LateFoundInactive(s) && Enabled(s, step)
    ensures LateFoundInactive(Next(s, step))
  {
    match step
    case Call(_) =>
    case BeginLookup(_, credential) =>
      if credential in s.m.retired {
        assert D.Authenticate(s.m.store, credential).None?;
      }
    case FinishLookup(_) =>
  }

  lemma LateNeedsAnEnrolment(s: Service, step: Step)
    requires R.Inv(s.m) && LookupsKnown(s) && LateFoundInactive(s) && Enabled(s, step)
    ensures FindsAnother(s, step) <==> SpansAnEnrolment(s, step)
  {
    if step.FinishLookup? {
      assert Known(s.m, s.lookups[step.q]);
      if Found(s, step.q).Some? {
        FoundHoldsItsLatest(s, step.q);
      }
    }
  }

  lemma {:induction false} WhileRetiredAreDead(steps: seq<Step>)
    requires IsRun(steps) && R.Always(R.RetiredAreDead, Calls(steps))
    ensures LateFoundInactive(After(steps))
    ensures Never(FindsAnother, steps) <==> Never(SpansAnEnrolment, steps)
  {
    if steps != [] {
      var prefix, step := steps[..|steps| - 1], steps[|steps| - 1];
      CallsAreARun(prefix);
      if step.Call? {
        assert Calls(steps)[..|Calls(steps)| - 1] == Calls(prefix);
      }
      WhileRetiredAreDead(prefix);
      assert R.RetiredAreDead(R.After(Calls(prefix)));
      MachineKeepsInv(prefix);
      RunKeepsKnown(prefix);
      DeadAreFoundInactive(After(prefix), step);
      LateNeedsAnEnrolment(After(prefix), step);
    }
  }

  /**
   * In every interleaving, retired credentials authenticate nothing at any point and let nothing in by lookups begun
   * after they were retired, exactly when no write revives and no such lookup has an enrolment of its device written
   * between its two reads.
   */
  lemma RetiredLetNothingInExactlyWhen(steps: seq<Step>)
    requires IsRun(steps)
    ensures
      R.Always(R.RetiredAreDead, Calls(steps)) && NoneLate(After(steps))
      <==> R.Never(R.TakesARevivingWrite, Calls(steps)) && Never(SpansAnEnrolment, steps)
  {
    CallsAreARun(steps);
    R.RetiredStayDeadExactlyWhenNoWriteRevives(Calls(steps));
    NoneIsLateExactlyWhenNoneFindsAnother(steps);
    if R.Always(R.RetiredAreDead, Calls(steps)) {
      WhileRetiredAreDead(steps);
    }
  }

  /** Had a lookup also compared the credential the device holds, none would ever be late. */
  lemma {:induction false} HoldersAreNeverLate(steps: seq<Step>)
    requires IsRun(steps)
    ensures forall a :: a in After(steps).admitted && a.device.credential == a.credential ==> !a.late
  {
    if steps != [] {
      var prefix, step := steps[..|steps| - 1], steps[|steps| - 1];
      HoldersAreNeverLate(prefix);
      MachineKeepsInv(prefix);
      RunKeepsKnown(prefix);
      if step.FinishLookup? && Found(After(prefix), step.q).Some? {
        assert Known(After(prefix).m, After(prefix).lookups[step.q]);
        FoundHoldsItsLatest(After(prefix), step.q);
      }
    }
  }

  // -------------------------------------------------------------------------
  // A revoked credential that is let in
  // -------------------------------------------------------------------------

  /** What the second read of a lookup goes by. */
  predicate SameLookup(k: Lookup, l: Lookup) {
    k.credential == l.credential && k.id == l.id && k.late == l.late
  }

  /** The same lookups are under way, and nothing more has been let in. */
  predicate Waited(s: Service, t: Service) {
    && t.lookups.Keys == s.lookups.Keys && t.admitted == s.admitted
    && forall q :: q in s.lookups ==> SameLookup(t.lookups[q], s.lookups[q])
  }

  lemma WaitedOn(s: Service, t: Service, u: Service)
    requires Waited(s, t) && Waited(t, u)
    ensures Waited(s, u)
  {
  }

  lemma LastCall(calls: seq<R.Step>)
    requires R.IsRun(calls) && calls != []
    ensures R.IsRun(calls[..|calls| - 1]) && calls[..|calls| - 1] + [calls[|calls| - 1]] == calls
    ensures R.Enabled(R.After(calls[..|calls| - 1]), calls[|calls| - 1])
    ensures R.Next(R.After(calls[..|calls| - 1]), calls[|calls| - 1]) == R.After(calls)
  {
  }

  /** The second run has made these calls, taken while the lookups of the first wait. */
  ghost predicate WentOn(steps: seq<Step>, longer: seq<Step>, calls: seq<R.Step>)
    requires IsRun(steps) && R.IsRun(calls)
  {
    && IsRun(longer) && Calls(longer) == calls && After(longer).m == R.After(calls)
    && Waited(After(steps), After(longer))
  }

  lemma GoOneFurther(steps: seq<Step>, shorter: seq<Step>, calls: seq<R.Step>) returns (longer: seq<Step>)
    requires IsRun(steps) && R.IsRun(calls) && calls != []
    requires R.IsRun(calls[..|calls| - 1]) && WentOn(steps, shorter, calls[..|calls| - 1])
    ensures WentOn(steps, longer, calls)
  {
    LastCall(calls);
    longer := OneMoreCall(shorter, calls[|calls| - 1]);
    WaitedOn(After(steps), After(shorter), After(longer));
  }

  /** The calls of a longer run of enrolments and revocations, taken while the lookups wait. */
  lemma GoOn(steps: seq<Step>, calls: seq<R.Step>) returns (longer: seq<Step>)
    requires IsRun(steps) && R.IsRun(calls) && Calls(steps) <= calls
    ensures WentOn(steps, longer, calls)
    decreases |calls|
  {
    if calls == Calls(steps) {
      CallsAreARun(steps);
      longer := steps;
    } else {
      LastCall(calls);
      longer := GoOn(steps, calls[..|calls| - 1]);
      longer := GoOneFurther(steps, longer, calls);
    }
  }

  lemma OneMoreCall(steps: seq<Step>, call: R.Step) returns (longer: seq<Step>)
    requires IsRun(steps) && R.Enabled(After(steps).m, call)
    ensures IsRun(longer) && Calls(longer) == Calls(steps) + [call] && After(longer).m == R.Next(After(steps).m, call)
    ensures Waited(After(steps), After(longer))
  {
    longer := steps + [Call(call)];
    assert longer[..|longer| - 1] == steps;
  }

  lemma StaleCoversReviving(steps: seq<R.Step>)
    requires R.IsRun(steps) && R.Never(R.TakesAStaleWrite, steps)
    ensures R.Never(R.TakesARevivingWrite, steps)
  {
    if steps != [] {
      StaleCoversReviving(steps[..|steps| - 1]);
    }
  }

  predicate RetiredWithItsEntry(m: R.Machine, credential: Digest, id: string) {
    && credential != "" && credential in m.retired
    && credential in m.store.credentials && m.store.credentials[credential] == id
  }

  /** One more admission: late, of an active device that holds another credential. */
  predicate LetsInLate(s: Service, t: Service, credential: Digest, id: string, token: Digest) {
    && |t.admitted| == |s.admitted| + 1
    && var a := t.admitted[|s.admitted|];
       && a.credential == credential != token && a.late && a.device.active
       && a.device.id == id && a.device.credential == token
  }

  /**
   * Whenever the entry of a retired credential is still stored and a challenge is open to enrol its device again, a
   * lookup that spans that enrolment lets the retired credential in.
   */
  lemma LookupAcrossAnEnrolment(steps: seq<Step>, q: nat, credential: Digest, exchange: R.Step)
    returns (longer: seq<Step>)
    requires IsRun(steps) && q !in After(steps).lookups && Runs.MayStart(After(steps).m, exchange)
    requires RetiredWithItsEntry(After(steps).m, credential, Trim(exchange.rawId))
    ensures IsRun(longer)
    ensures LetsInLate(After(steps), After(longer), credential, Trim(exchange.rawId), exchange.token)
    ensures Runs.Locked(Calls(steps), exchange.p) ==> Runs.Locked(Calls(longer), exchange.p)
    ensures R.Never(R.TakesAStaleWrite, Calls(steps)) ==> R.Never(R.TakesAStaleWrite, Calls(longer))
  {
    CallsAreARun(steps);
    RetiredIsUsed(steps);
    longer := steps + [BeginLookup(q, credential)];
    assert longer[..|steps|] == steps;
    assert Calls(longer) == Calls(steps);
    var before := After(longer);
    var calls := Runs.ExchangeAlone(Calls(longer), exchange);
    longer := GoOn(longer, calls);
    assert q in before.lookups && q in After(longer).lookups;
    assert SameLookup(After(longer).lookups[q], before.lookups[q]);
    EnrolledIsFound(After(longer), q, before.m, exchange);
    var last := longer + [FinishLookup(q)];
    assert last[..|longer|] == longer;
    assert Calls(last) == Calls(longer);
    longer := last;
  }

  lemma RetiredIsUsed(steps: seq<Step>)
    requires IsRun(steps)
    ensures After(steps).m.retired <= After(steps).m.used
  {
    MachineKeepsInv(steps);
  }

  lemma EnrolledIsFound(s: Service, q: nat, before: R.Machine, exchange: R.Step)
    requires q in s.lookups && exchange.StartExchange? && exchange.challenge in before.store.challenges
    requires s.m == Runs.Enrolment(before, exchange) && s.lookups[q].id == Trim(exchange.rawId) != ""
    ensures Found(s, q).Some?
    ensures var d := Found(s, q).value;
      d.active && d.id == Trim(exchange.rawId) && d.credential == exchange.token
  {
  }

  /** A first device, completely revoked, with another challenge of its owner open. */
  lemma FirstDeviceRevoked() returns (calls: seq<R.Step>, credential: Digest)
    ensures R.IsRun(calls) && Runs.Locked(calls, 2) && R.Never(R.TakesAStaleWrite, calls)
    ensures Runs.MayEnrolAgain(R.After(calls)) && RetiredWithItsEntry(R.After(calls), credential, "d")
  {
    calls := Runs.FirstDevice();
    Runs.DeviceIsKnown(calls, "d");
    credential := R.After(calls).store.devices["d"].credential;
    calls := Runs.RevokeAlone(calls, 1, "d", 1);
  }

  /**
   * A first device, completely revoked and enrolled again across a lookup: its first credential, retired and dead at
   * every point, is let in, with one exchange at a time and no stale write.
   */
  lemma RevokedCredentialIsLetIn() returns (steps: seq<Step>)
    ensures IsRun(steps) && !NoneLate(After(steps))
    ensures R.Always(R.OneExchange, Calls(steps)) && R.Never(R.TakesAStaleWrite, Calls(steps))
    ensures R.Always(R.RetiredAreDead, Calls(steps))
  {
    var calls, credential := FirstDeviceRevoked();
    steps := GoOn([], calls);
    assert Trim("d") == "d" && Trim("n") == "n";
    steps := LookupAcrossAnEnrolment(steps, 0, credential, R.StartExchange(2, "t2", "d", "n", "c2", true, 2));
    assert After(steps).admitted[|After(steps).admitted| - 1] in After(steps).admitted;
    NoStaleWriteKeepsThemDead(steps);
  }

  lemma NoStaleWriteKeepsThemDead(steps: seq<Step>)
    requires IsRun(steps) && R.Never(R.TakesAStaleWrite, Calls(steps))
    ensures R.Always(R.RetiredAreDead, Calls(steps))
  {
    CallsAreARun(steps);
    StaleCoversReviving(Calls(steps));
    R.RetiredStayDeadExactlyWhenNoWriteRevives(Calls(steps));
  }
}
