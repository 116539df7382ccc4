/**
 * Enrolment and revocation over the document store, where every read and every single write of theirs is a step of
 * its own and any number of calls are under way at once: exchanges of one process wait for its lock, revocations do
 * not. What a credential authenticates is meant at one point here; `DeviceLookups` has the two reads of a lookup.
 */
module DeviceRaces {
  import opened Options
  import opened Text
  import opened DeviceStore
  import D = DeviceAuth

  /** Where a call stands between two awaits; `writes` are those of its save that are still to come. */
  datatype Phase =
    | Checking(record: Challenge)   // an exchange that has its challenge, and next reads its device
    | Consuming(record: Challenge)  // an exchange that next writes its challenge as consumed
    | Reading                       // a save that next reads the device it replaces
    | Writing(writes: seq<Write>)

  /** A call under way, with the device it is going to save: an active one enrols, an inactive one revokes. */
  datatype Process = Process(device: Device, challenge: Digest, at: int, phase: Phase)

  datatype Machine = Machine(
    store: Store,
    open: map<nat, Process>,
    used: set<Digest>,               // every token generated so far
    belongs: map<Digest, string>,    // the device each credential was generated for
    born: set<Digest>,               // credentials whose device document has been written
    installed: map<string, Digest>,  // the credential of each device's latest enrolment
    retired: set<Digest>,            // credentials replaced by a later enrolment or revoked
    minted: seq<D.Mint>)

  const START := Machine(EMPTY, map[], {}, map[], {}, map[], {}, [])

  datatype Step =
    | Issue(owner: string, session: int, token: Digest, ttl: nat, at: int)
    | StartExchange(p: nat, challenge: Digest, rawId: string, rawName: string, token: Digest, valid: bool, at: int)
    | StartRevoke(p: nat, device: string, at: int)
    | Advance(p: nat)
    | Abandon(p: nat)  // the process dies; what it has written stays

  /** Generated tokens are fresh, and each call under way has a name of its own. */
  predicate Enabled(m: Machine, step: Step) {
    match step
    case Issue(_, _, token, _, _) => token !in m.used
    case StartExchange(p, _, _, _, token, _, _) => p !in m.open && token !in m.used
    case StartRevoke(p, _, _) => p !in m.open
    case Advance(p) => p in m.open && (m.open[p].phase.Writing? ==> m.open[p].phase.writes != [])
    case Abandon(p) => p in m.open
  }

  /** The checks of an exchange before it looks at the device. */
  predicate ChallengeRefused(s: Store, challenge: Digest, valid: bool, at: int) {
    || challenge !in s.challenges || s.challenges[challenge].consumedAt.Some? || s.challenges[challenge].expiresAt <= at
    || !valid
  }

  /** The checks of an exchange on the device it has read. */
  predicate DeviceRefused(s: Store, d: Device) {
    (d.id in s.devices && s.devices[d.id].owner != d.owner) || d.id == "" || d.name == ""
  }

  /** Both together are the refusals of an exchange that nothing gets in the way of. */
  lemma RefusedInTwoParts(
      s: Store, challenge: Digest, rawId: string, rawName: string, token: Digest, valid: bool, at: int)
    ensures D.ExchangeError(s, challenge, rawId, rawName, valid, at).None? <==>
      && !ChallengeRefused(s, challenge, valid, at)
      && !DeviceRefused(s, D.Enrolled(s.challenges[challenge], rawId, rawName, token, at))
  {
  }

  function Started(m: Machine, step: Step): Machine
    requires step.StartExchange?
  {
    if ChallengeRefused(m.store, step.challenge, step.valid, step.at) then m
    else
      var record := m.store.challenges[step.challenge];
      var device := D.Enrolled(record, step.rawId, step.rawName, step.token, step.at);
      m.(open := m.open[step.p := Process(device, step.challenge, step.at, Checking(record))],
         used := m.used + {step.token},
         belongs := m.belongs[step.token := device.id])
  }

  function Checked(m: Machine, p: nat): Machine
    requires p in m.open && m.open[p].phase.Checking?
  {
    var call := m.open[p];
    if DeviceRefused(m.store, call.device) then m.(open := m.open - {p})
    else m.(open := m.open[p := call.(phase := Consuming(call.phase.record))])
  }

  function Consumed(m: Machine, p: nat): Machine
    requires p in m.open && m.open[p].phase.Consuming?
  {
    var call := m.open[p];
    m.(store := m.store.(challenges :=
         m.store.challenges[call.challenge := call.phase.record.(consumedAt := Some(call.at))]),
       open := m.open[p := call.(phase := Reading)],
       minted := m.minted
         + [D.Mint(call.challenge, call.device.credential, call.device.id, call.device.owner, call.at)])
  }

  /** A device document is written: an active one installs its credential, an inactive one retires it. */
  function Noted(m: Machine, d: Device): Machine {
    if d.active then
      m.(born := m.born + {d.credential},
         installed := m.installed[d.id := d.credential],
         retired := if d.id in m.installed then m.retired + {m.installed[d.id]} else m.retired)
    else m.(retired := m.retired + {d.credential})
  }

  function Written(m: Machine, p: nat): Machine
    requires p in m.open && m.open[p].phase.Writing? && m.open[p].phase.writes != []
  {
    var call := m.open[p];
    var w, rest := call.phase.writes[0], call.phase.writes[1..];
    var noted := if w.PutDevice? then Noted(m, w.device) else m;
    noted.(store := ApplyWrite(m.store, w),
           open := if rest == [] then m.open - {p} else m.open[p := call.(phase := Writing(rest))])
  }

  function Next(m: Machine, step: Step): Machine
    requires Enabled(m, step)
  {
    match step
    case Issue(owner, session, token, ttl, at) =>
      m.(store := m.store.(challenges := m.store.challenges[token := Challenge(owner, session, at, at + ttl, None)]),
         used := m.used + {token})
    case StartExchange(_, _, _, _, _, _, _) => Started(m, step)
    case StartRevoke(p, device, at) =>
      if device !in m.store.devices then m
      else
        var revoked := m.store.devices[device].(active := false, revokedAt := Some(at));
        m.(open := m.open[p := Process(revoked, "", at, Reading)])
    case Advance(p) =>
      (match m.open[p].phase
       case Checking(_) => Checked(m, p)
       case Consuming(_) => Consumed(m, p)
       case Reading => m.(open := m.open[p := m.open[p].(phase := Writing(Writes(m.store, m.open[p].device)))])
       case Writing(_) => Written(m, p))
    case Abandon(p) => m.(open := m.open - {p})
  }

  ghost predicate IsRun(steps: seq<Step>) {
    steps == []
    || (IsRun(steps[..|steps| - 1]) && Enabled(After(steps[..|steps| - 1]), steps[|steps| - 1]))
  }

  /** The machine after a run; a step that is not enabled leaves it as it is. */
  function After(steps: seq<Step>): Machine {
    if steps == [] then START
    else
      var m, step := After(steps[..|steps| - 1]), steps[|steps| - 1];
      if Enabled(m, step) then Next(m, step) else m
  }

  lemma RunAppend(steps: seq<Step>, step: Step)
    requires IsRun(steps) && Enabled(After(steps), step)
    ensures IsRun(steps + [step]) && After(steps + [step]) == Next(After(steps), step)
  {
    assert (steps + [step])[..|steps|] == steps;
  }

  // -------------------------------------------------------------------------
  // What every interleaving keeps
  // -------------------------------------------------------------------------

  ghost predicate TokensKnown(m: Machine) {
    && m.belongs.Keys <= m.used && m.born <= m.belongs.Keys && m.retired <= m.born
    && m.store.challenges.Keys <= m.used
  }

  /** A written credential is its device's latest or has been retired. */
  ghost predicate Accounted(m: Machine)
    requires TokensKnown(m)
  {
    && (forall id :: id in m.installed ==> m.installed[id] in m.born && m.belongs[m.installed[id]] == id)
    && (forall c :: c in m.born ==> m.belongs[c] in m.installed && (c == m.installed[m.belongs[c]] || c in m.retired))
  }

  /** Entries lead to the device their credential was generated for; an active one holds its latest, unretired. */
  ghost predicate Placed(m: Machine)
    requires TokensKnown(m)
  {
    && (forall c :: c in m.store.credentials ==> c in m.born && m.store.credentials[c] == m.belongs[c])
    && (forall id :: id in m.store.devices ==>
          var d := m.store.devices[id];
          && d.id == id != "" && d.credential in m.born && m.belongs[d.credential] == id
          && (d.active ==> id in m.installed && d.credential == m.installed[id] && d.credential !in m.retired))
  }

  /** What is left of a save: its device document, unless already written, and its credential entry. */
  ghost predicate InShape(d: Device, writes: seq<Write>) {
    var put, entry := PutDevice(d), PutCredential(d.credential, d.id);
    || writes == [entry]
    || writes == [put, entry]
    || (|writes| == 3 && writes[0].DeleteCredential? && writes[1] == put && writes[2] == entry)
  }

  predicate HasPut(call: Process) {
    call.phase.Writing? && |call.phase.writes| == 1
  }

  /** An exchange that has not consumed its challenge yet. */
  predicate Early(call: Process) {
    call.phase.Checking? || call.phase.Consuming?
  }

  ghost predicate Sensible(m: Machine, call: Process) {
    && (!call.phase.Checking? ==> call.device.id != "") && call.device.credential in m.belongs
    && m.belongs[call.device.credential] == call.device.id
    && (call.phase.Writing? ==> InShape(call.device, call.phase.writes))
    && (Early(call) ==>
          && call.device.active && call.challenge in m.store.challenges
          && m.store.challenges[call.challenge].(consumedAt := None) == call.phase.record
          && call.device.owner == call.phase.record.owner && call.at < call.phase.record.expiresAt)
    && (call.device.credential in m.born <==> !call.device.active || HasPut(call))
    && (!call.device.active && HasPut(call) ==> call.device.credential in m.retired)
  }

  ghost predicate CallsSensible(m: Machine) {
    && (forall p :: p in m.open ==> Sensible(m, m.open[p]))
    && (forall p, q :: p in m.open && q in m.open && p != q && m.open[p].device.active && m.open[q].device.active ==>
          m.open[p].device.credential != m.open[q].device.credential)
  }

  ghost predicate Basic(m: Machine) {
    TokensKnown(m) && Accounted(m) && Placed(m) && CallsSensible(m)
  }

  lemma WritesInShape(s: Store, d: Device)
    ensures InShape(d, Writes(s, d)) && |Writes(s, d)| >= 2
  {
  }

  lemma PutKeepsBasic(m: Machine, p: nat)
    requires Basic(m) && p in m.open && m.open[p].phase.Writing? && m.open[p].phase.writes != []
    requires m.open[p].phase.writes[0].PutDevice?
    ensures Basic(Written(m, p))
  {
    var d := m.open[p].device;
    assert Sensible(m, m.open[p]) && m.open[p].phase.writes[0] == PutDevice(d);
    var t := Written(m, p);
    PutKeepsAccounts(m, d);
    assert Placed(t);
    PutKeepsCalls(m, p);
  }

  lemma PutKeepsAccounts(m: Machine, d: Device)
    requires TokensKnown(m) && Accounted(m) && d.credential in m.belongs && m.belongs[d.credential] == d.id
    requires d.credential in m.born <==> !d.active
    ensures TokensKnown(Noted(m, d)) && Accounted(Noted(m, d))
  {
  }

  lemma PutKeepsCalls(m: Machine, p: nat)
    requires Basic(m) && p in m.open && m.open[p].phase.Writing? && m.open[p].phase.writes != []
    requires m.open[p].phase.writes[0].PutDevice?
    ensures CallsSensible(Written(m, p))
  {
    var d, t := m.open[p].device, Written(m, p);
    assert Sensible(m, m.open[p]);
    forall q | q in t.open ensures Sensible(t, t.open[q]) {
      assert Sensible(m, m.open[q]);
      if q == p {
        assert t.open[p].phase.writes == [PutCredential(d.credential, d.id)];
      }
    }
  }

  lemma OtherWriteKeepsBasic(m: Machine, p: nat)
    requires Basic(m) && p in m.open && m.open[p].phase.Writing? && m.open[p].phase.writes != []
    requires !m.open[p].phase.writes[0].PutDevice?
    ensures Basic(Written(m, p))
  {
    var t := Written(m, p);
    assert Sensible(m, m.open[p]);
    forall q | q in t.open ensures Sensible(t, t.open[q]) {
      assert Sensible(m, m.open[q]);
    }
  }

  lemma ExchangeKeepsBasic(m: Machine, step: Step)
    requires Basic(m) && Enabled(m, step) && step.StartExchange?
    ensures Basic(Started(m, step))
  {
    var t := Started(m, step);
    forall q | q in t.open ensures Sensible(t, t.open[q]) {
      if q in m.open {
        assert Sensible(m, m.open[q]);
      }
    }
  }

  lemma RevokeKeepsBasic(m: Machine, step: Step)
    requires Basic(m) && Enabled(m, step) && step.StartRevoke?
    ensures Basic(Next(m, step))
  {
    var t := Next(m, step);
    forall q | q in t.open ensures Sensible(t, t.open[q]) {
      if q in m.open {
        assert Sensible(m, m.open[q]);
      }
    }
  }

  lemma StepKeepsBasic(m: Machine, step: Step)
    requires Basic(m) && Enabled(m, step)
    ensures Basic(Next(m, step))
  {
    match step
    case Issue(_, _, _, _, _) =>
      forall q | q in m.open ensures Sensible(Next(m, step), m.open[q]) {
        assert Sensible(m, m.open[q]);
      }
    case StartExchange(_, _, _, _, _, _, _) => ExchangeKeepsBasic(m, step);
    case StartRevoke(_, _, _) => RevokeKeepsBasic(m, step);
    case Advance(p) =>
      if m.open[p].phase.Writing? {
        if m.open[p].phase.writes[0].PutDevice? {
          PutKeepsBasic(m, p);
        } else {
          OtherWriteKeepsBasic(m, p);
        }
      } else {
        TurnKeepsBasic(m, p);
      }
    case Abandon(p) =>
      forall q | q in Next(m, step).open ensures Sensible(Next(m, step), m.open[q]) {
        assert Sensible(m, m.open[q]);
      }
  }

  lemma TurnKeepsBasic(m: Machine, p: nat)
    requires Basic(m) && p in m.open && !m.open[p].phase.Writing?
    ensures Basic(Next(m, Advance(p)))
  {
    if m.open[p].phase.Checking? {
      CheckKeepsBasic(m, p);
    } else if m.open[p].phase.Consuming? {
      ConsumeKeepsBasic(m, p);
    } else {
      ReadKeepsBasic(m, p);
    }
  }

  lemma CheckKeepsBasic(m: Machine, p: nat)
    requires Basic(m) && p in m.open && m.open[p].phase.Checking?
    ensures Basic(Checked(m, p))
  {
    var t := Checked(m, p);
    forall q | q in t.open ensures Sensible(t, t.open[q]) {
      assert Sensible(m, m.open[q]);
    }
  }

  lemma ConsumeKeepsBasic(m: Machine, p: nat)
    requires Basic(m) && p in m.open && m.open[p].phase.Consuming?
    ensures Basic(Consumed(m, p))
  {
    var t := Consumed(m, p);
    assert Sensible(m, m.open[p]);
    forall q | q in t.open ensures Sensible(t, t.open[q]) {
      assert Sensible(m, m.open[q]);
    }
  }

  lemma ReadKeepsBasic(m: Machine, p: nat)
    requires Basic(m) && p in m.open && m.open[p].phase.Reading?
    ensures Basic(Next(m, Advance(p)))
  {
    var t := Next(m, Advance(p));
    WritesInShape(m.store, m.open[p].device);
    forall q | q in t.open ensures Sensible(t, t.open[q]) {
      assert Sensible(m, m.open[q]);
    }
  }

  // -------------------------------------------------------------------------
  // Receipts: what was handed out for which challenge
  // -------------------------------------------------------------------------

  ghost predicate MintedFor(m: Machine, c: Digest, id: string) {
    exists k :: k in m.minted && k.credential == c && k.device == id
  }

  ghost predicate Spent(m: Machine, k: D.Mint) {
    && k.challenge in m.store.challenges
    && m.store.challenges[k.challenge].consumedAt.Some?
    && k.at < m.store.challenges[k.challenge].expiresAt
    && k.owner == m.store.challenges[k.challenge].owner
  }

  ghost predicate Receipts(m: Machine) {
    && (forall k :: k in m.minted ==> Spent(m, k))
    && (forall c :: c in m.store.challenges && m.store.challenges[c].consumedAt.Some? ==>
          exists k :: k in m.minted && k.challenge == c)
    && (forall c :: c in m.born && c in m.belongs ==> MintedFor(m, c, m.belongs[c]))
    && (forall p :: p in m.open && m.open[p].device.active && !Early(m.open[p]) ==>
          MintedFor(m, m.open[p].device.credential, m.open[p].device.id))
  }

  lemma MintKeepsReceipts(m: Machine, p: nat)
    requires Basic(m) && Receipts(m) && p in m.open && m.open[p].phase.Consuming?
    ensures Receipts(Consumed(m, p))
  {
    var call, t := m.open[p], Consumed(m, p);
    var mint := t.minted[|m.minted|];
    assert Sensible(m, call);
    assert t.minted == m.minted + [mint] && mint in t.minted;
    forall k | k in t.minted ensures Spent(t, k) {
      assert k in m.minted ==> Spent(m, k);
    }
    forall c | c in t.store.challenges && t.store.challenges[c].consumedAt.Some?
      ensures exists k :: k in t.minted && k.challenge == c
    {
      if c == call.challenge {
        assert mint.challenge == c;
      } else {
        var k :| k in m.minted && k.challenge == c;
        assert k in t.minted;
      }
    }
    forall c, id | MintedFor(m, c, id) ensures MintedFor(t, c, id) {
      var k :| k in m.minted && k.credential == c && k.device == id;
      assert k in t.minted;
    }
    assert MintedFor(t, call.device.credential, call.device.id);
  }

  /** Steps that mint nothing leave every challenge as it is, except for adding open ones. */
  lemma ChallengesOnlyGrow(m: Machine, step: Step)
    requires Basic(m) && Enabled(m, step) && !(step.Advance? && m.open[step.p].phase.Consuming?)
    ensures Next(m, step).minted == m.minted
    ensures forall c :: c in m.store.challenges ==>
      c in Next(m, step).store.challenges && Next(m, step).store.challenges[c] == m.store.challenges[c]
    ensures forall c :: c in Next(m, step).store.challenges && c !in m.store.challenges ==>
      Next(m, step).store.challenges[c].consumedAt.None?
  {
  }

  /** A credential is written by a call that was given it. */
  lemma CallsBringTheirCredentials(m: Machine, step: Step)
    requires Basic(m) && Enabled(m, step)
    ensures forall c :: c in Next(m, step).born && c !in m.born ==>
      exists p :: p in m.open && m.open[p].device.active && !Early(m.open[p])
        && m.open[p].device.credential == c && c in m.belongs && m.open[p].device.id == m.belongs[c]
  {
    if WritesNow(m, step) {
      assert Sensible(m, m.open[step.p]);
    }
  }

  /** A call past its challenge was so before. */
  lemma NoCallGetsPastItsChallenge(m: Machine, step: Step)
    requires TokensKnown(m) && Enabled(m, step) && !(step.Advance? && m.open[step.p].phase.Consuming?)
    ensures var t := Next(m, step);
      && (forall c :: c in m.belongs ==> c in t.belongs && t.belongs[c] == m.belongs[c])
      && (forall p :: p in t.open && t.open[p].device.active && !Early(t.open[p]) ==>
            p in m.open && m.open[p].device == t.open[p].device && !Early(m.open[p]))
  {
  }

  lemma OtherStepKeepsReceipts(m: Machine, step: Step)
    requires Basic(m) && Receipts(m) && Enabled(m, step)
    requires !(step.Advance? && m.open[step.p].phase.Consuming?)
    ensures Receipts(Next(m, step))
  {
    var t := Next(m, step);
    ChallengesOnlyGrow(m, step);
    CallsBringTheirCredentials(m, step);
    NoCallGetsPastItsChallenge(m, step);
    SameReceipts(m, t);
  }

  lemma SameReceipts(m: Machine, t: Machine)
    requires TokensKnown(m) && Receipts(m) && t.minted == m.minted
    requires forall c :: c in m.store.challenges ==>
      c in t.store.challenges && t.store.challenges[c] == m.store.challenges[c]
    requires forall c :: c in t.store.challenges && c !in m.store.challenges ==> t.store.challenges[c].consumedAt.None?
    requires forall c :: c in t.born && c !in m.born ==>
      exists p :: p in m.open && m.open[p].device.active && !Early(m.open[p])
        && m.open[p].device.credential == c && c in m.belongs && m.open[p].device.id == m.belongs[c]
    requires forall c :: c in m.belongs ==> c in t.belongs && t.belongs[c] == m.belongs[c]
    requires forall p :: p in t.open && t.open[p].device.active && !Early(t.open[p]) ==>
      p in m.open && m.open[p].device == t.open[p].device && !Early(m.open[p])
    ensures Receipts(t)
  {
    forall k | k in t.minted ensures Spent(t, k) {
      assert Spent(m, k);
    }
    forall c, id | MintedFor(m, c, id) ensures MintedFor(t, c, id) {
      var k :| k in m.minted && k.credential == c && k.device == id;
      assert k in t.minted;
    }
  }

  ghost predicate Inv(m: Machine) {
    Basic(m) && Receipts(m)
  }

  lemma StepKeepsInv(m: Machine, step: Step)
    requires Inv(m) && Enabled(m, step)
    ensures Inv(Next(m, step))
  {
    StepKeepsBasic(m, step);
    if step.Advance? && m.open[step.p].phase.Consuming? {
      MintKeepsReceipts(m, step.p);
    } else {
      OtherStepKeepsReceipts(m, step);
    }
  }

  lemma {:induction false} RunKeepsInv(steps: seq<Step>)
    requires IsRun(steps)
    ensures Inv(After(steps))
  {
    if steps != [] {
      RunKeepsInv(steps[..|steps| - 1]);
      StepKeepsInv(After(steps[..|steps| - 1]), steps[|steps| - 1]);
    }
  }

  // -------------------------------------------------------------------------
  // From one step to whole runs
  // -------------------------------------------------------------------------

  /** `good` holds at every point of the run. */
  ghost predicate Always(good: Machine -> bool, steps: seq<Step>) {
    good(After(steps)) && (steps != [] ==> Always(good, steps[..|steps| - 1]))
  }

  /** No step of the run is `bad` where it is taken. */
  ghost predicate Never(bad: (Machine, Step) -> bool, steps: seq<Step>) {
    steps == []
    || (!bad(After(steps[..|steps| - 1]), steps[|steps| - 1]) && Never(bad, steps[..|steps| - 1]))
  }

  /** `bad` steps are exactly those that take a machine out of `good`. */
  ghost predicate Breaks(bad: (Machine, Step) -> bool, good: Machine -> bool) {
    forall m, step :: Inv(m) && Enabled(m, step) && good(m) ==> (good(Next(m, step)) <==> !bad(m, step))
  }

  lemma {:induction false} AlwaysExactlyWhenNever(
      good: Machine -> bool, bad: (Machine, Step) -> bool, steps: seq<Step>)
    requires good(START) && Breaks(bad, good) && IsRun(steps)
    ensures Always(good, steps) <==> Never(bad, steps)
  {
    if steps != [] {
      var prefix := steps[..|steps| - 1];
      AlwaysExactlyWhenNever(good, bad, prefix);
      RunKeepsInv(prefix);
      if Always(good, prefix) {
        assert good(After(prefix));
      }
    }
  }

  // -------------------------------------------------------------------------
  // Entries stay current
  // -------------------------------------------------------------------------

  predicate WritesNow(m: Machine, step: Step) {
    step.Advance? && step.p in m.open && m.open[step.p].phase.Writing? && m.open[step.p].phase.writes != []
  }

  function WriteOf(m: Machine, step: Step): Write
    requires WritesNow(m, step)
  {
    m.open[step.p].phase.writes[0]
  }

  /** Some entry still leads to the device under another credential. */
  ghost predicate LeftOver(s: Store, d: Device) {
    exists c :: c in s.credentials && s.credentials[c] == d.id && c != d.credential
  }

  /** A write that has been overtaken by another save of the same device. */
  ghost predicate Stale(s: Store, w: Write) {
    match w
    case DeleteCredential(_) => false
    case PutDevice(d) => LeftOver(s, d)
    case PutCredential(c, id) => !(id in s.devices && s.devices[id].credential == c)
  }

  ghost predicate EntriesCurrent(m: Machine) {
    EntriesAreCurrent(m.store)
  }

  ghost predicate TakesAStaleWrite(m: Machine, step: Step) {
    WritesNow(m, step) && Stale(m.store, WriteOf(m, step))
  }

  lemma WriteKeepsEntries(s: Store, w: Write)
    requires EntriesAreCurrent(s) && (w.PutDevice? ==> w.device.id != "")
    ensures EntriesAreCurrent(ApplyWrite(s, w)) <==> !Stale(s, w)
  {
    var t := ApplyWrite(s, w);
    match w
    case DeleteCredential(_) =>
    case PutDevice(d) =>
      if LeftOver(s, d) {
        var c :| c in s.credentials && s.credentials[c] == d.id && c != d.credential;
        assert c in t.credentials && t.devices[t.credentials[c]].credential != c;
      }
    case PutCredential(c, id) =>
      if Stale(s, w) {
        assert c in t.credentials;
      }
  }

  lemma StepKeepsEntries(m: Machine, step: Step)
    requires Enabled(m, step) && EntriesCurrent(m)
    requires WritesNow(m, step) && WriteOf(m, step).PutDevice? ==> WriteOf(m, step).device.id != ""
    ensures EntriesCurrent(Next(m, step)) <==> !TakesAStaleWrite(m, step)
  {
    if WritesNow(m, step) {
      WriteKeepsEntries(m.store, WriteOf(m, step));
    }
  }

  /** In every interleaving, entries lead to their current device at every point exactly when no write is stale. */
  lemma EntriesStayCurrentExactlyWhenNoWriteIsStale(steps: seq<Step>)
    requires IsRun(steps)
    ensures Always(EntriesCurrent, steps) <==> Never(TakesAStaleWrite, steps)
  {
    forall m, step | Inv(m) && Enabled(m, step) && EntriesCurrent(m)
      ensures EntriesCurrent(Next(m, step)) <==> !TakesAStaleWrite(m, step)
    {
      if WritesNow(m, step) {
        assert Sensible(m, m.open[step.p]);
      }
      StepKeepsEntries(m, step);
    }
    AlwaysExactlyWhenNever(EntriesCurrent, TakesAStaleWrite, steps);
  }

  // -------------------------------------------------------------------------
  // Earlier credentials stay dead
  // -------------------------------------------------------------------------

  ghost predicate RetiredAreDead(m: Machine) {
    forall c :: c in m.retired ==> D.Authenticate(m.store, c).None?
  }

  /** A stale write that meets an active device. */
  ghost predicate Revives(s: Store, w: Write) {
    match w
    case DeleteCredential(_) => false
    case PutDevice(d) => d.active && LeftOver(s, d)
    case PutCredential(c, id) => id in s.devices && s.devices[id].active && s.devices[id].credential != c
  }

  ghost predicate TakesARevivingWrite(m: Machine, step: Step) {
    WritesNow(m, step) && Revives(m.store, WriteOf(m, step))
  }

  lemma PutRevives(m: Machine, p: nat)
    requires Inv(m) && RetiredAreDead(m) && WritesNow(m, Advance(p)) && WriteOf(m, Advance(p)).PutDevice?
    ensures RetiredAreDead(Written(m, p)) <==> !Revives(m.store, WriteOf(m, Advance(p)))
  {
    var d := m.open[p].device;
    assert Sensible(m, m.open[p]) && WriteOf(m, Advance(p)) == PutDevice(d);
    if d.active && LeftOver(m.store, d) {
      LeftOverRevives(m, p, d);
    } else if d.active {
      CleanEnrolmentRevivesNothing(m, p, d);
    } else {
      RevocationRevivesNothing(m, p, d);
    }
  }

  lemma LeftOverRevives(m: Machine, p: nat, d: Device)
    requires TokensKnown(m) && Accounted(m) && Placed(m)
    requires WritesNow(m, Advance(p)) && WriteOf(m, Advance(p)) == PutDevice(d)
    requires d.active && d.id != "" && LeftOver(m.store, d)
    ensures !RetiredAreDead(Written(m, p))
  {
    var t := Written(m, p);
    var c :| c in m.store.credentials && m.store.credentials[c] == d.id && c != d.credential;
    assert c in m.born && m.belongs[c] == d.id;
    assert c in t.retired;
    assert D.Authenticate(t.store, c).Some?;
  }

  lemma CleanEnrolmentRevivesNothing(m: Machine, p: nat, d: Device)
    requires TokensKnown(m) && Accounted(m) && Placed(m) && RetiredAreDead(m)
    requires WritesNow(m, Advance(p)) && WriteOf(m, Advance(p)) == PutDevice(d)
    requires d.active && d.credential !in m.born && !LeftOver(m.store, d)
    ensures RetiredAreDead(Written(m, p))
  {
    var t := Written(m, p);
    forall c | c in t.retired ensures D.Authenticate(t.store, c).None? {
      if c in m.store.credentials {
        assert m.store.credentials[c] == m.belongs[c] != d.id;
        assert c in m.retired;
        assert D.Authenticate(m.store, c).None?;
      }
    }
  }

  lemma RevocationRevivesNothing(m: Machine, p: nat, d: Device)
    requires TokensKnown(m) && Placed(m) && RetiredAreDead(m)
    requires WritesNow(m, Advance(p)) && WriteOf(m, Advance(p)) == PutDevice(d)
    requires !d.active && d.credential in m.belongs && m.belongs[d.credential] == d.id
    ensures RetiredAreDead(Written(m, p))
  {
    var t := Written(m, p);
    forall c | c in t.retired ensures D.Authenticate(t.store, c).None? {
      if c in m.store.credentials && m.store.credentials[c] != d.id {
        assert c in m.retired;
        assert D.Authenticate(m.store, c).None?;
      }
    }
  }

  lemma EntryRevives(m: Machine, p: nat)
    requires Inv(m) && RetiredAreDead(m) && WritesNow(m, Advance(p)) && WriteOf(m, Advance(p)).PutCredential?
    ensures RetiredAreDead(Written(m, p)) <==> !Revives(m.store, WriteOf(m, Advance(p)))
  {
    var d := m.open[p].device;
    assert Sensible(m, m.open[p]) && WriteOf(m, Advance(p)) == PutCredential(d.credential, d.id);
    if d.id in m.store.devices && m.store.devices[d.id].active && m.store.devices[d.id].credential != d.credential {
      StaleEntryRevives(m, p, d);
    } else {
      OwnEntryRevivesNothing(m, p, d);
    }
  }

  lemma StaleEntryRevives(m: Machine, p: nat, d: Device)
    requires TokensKnown(m) && Accounted(m) && Placed(m) && d.credential in m.born && m.belongs[d.credential] == d.id
    requires WritesNow(m, Advance(p)) && WriteOf(m, Advance(p)) == PutCredential(d.credential, d.id)
    requires d.id in m.store.devices && m.store.devices[d.id].active && m.store.devices[d.id].credential != d.credential
    ensures !RetiredAreDead(Written(m, p))
  {
    var t := Written(m, p);
    assert m.installed[d.id] != d.credential;
    assert d.credential in t.retired && D.Authenticate(t.store, d.credential).Some?;
  }

  lemma OwnEntryRevivesNothing(m: Machine, p: nat, d: Device)
    requires TokensKnown(m) && Placed(m) && RetiredAreDead(m)
    requires WritesNow(m, Advance(p)) && WriteOf(m, Advance(p)) == PutCredential(d.credential, d.id)
    requires d.id in m.store.devices && m.store.devices[d.id].active ==>
      m.store.devices[d.id].credential == d.credential
    ensures RetiredAreDead(Written(m, p))
  {
    var t := Written(m, p);
    forall c | c in t.retired ensures D.Authenticate(t.store, c).None? {
      assert D.Authenticate(m.store, c).None?;
    }
  }

  /**
   * In every interleaving, credentials that were replaced or revoked authenticate nothing at every point exactly
   * when no stale write meets an active device.
   */
  lemma RetiredStayDeadExactlyWhenNoWriteRevives(steps: seq<Step>)
    requires IsRun(steps)
    ensures Always(RetiredAreDead, steps) <==> Never(TakesARevivingWrite, steps)
  {
    forall m, step | Inv(m) && Enabled(m, step) && RetiredAreDead(m)
      ensures RetiredAreDead(Next(m, step)) <==> !TakesARevivingWrite(m, step)
    {
      StepRevives(m, step);
    }
    AlwaysExactlyWhenNever(RetiredAreDead, TakesARevivingWrite, steps);
  }

  lemma QuietStepRevivesNothing(m: Machine, step: Step)
    requires Enabled(m, step) && !WritesNow(m, step)
    ensures var t := Next(m, step);
      t.store.devices == m.store.devices && t.store.credentials == m.store.credentials && t.retired == m.retired
  {
  }

  lemma SameLookups(m: Machine, t: Machine)
    requires t.store.devices == m.store.devices && t.retired == m.retired && RetiredAreDead(m)
    requires t.store.credentials.Keys <= m.store.credentials.Keys
    requires forall c :: c in t.store.credentials ==> t.store.credentials[c] == m.store.credentials[c]
    ensures RetiredAreDead(t)
  {
    forall c | c in t.retired ensures D.Authenticate(t.store, c).None? {
      assert D.Authenticate(m.store, c).None?;
    }
  }

  lemma StepRevives(m: Machine, step: Step)
    requires Inv(m) && Enabled(m, step) && RetiredAreDead(m)
    ensures RetiredAreDead(Next(m, step)) <==> !TakesARevivingWrite(m, step)
  {
    if !WritesNow(m, step) {
      QuietStepRevivesNothing(m, step);
      SameLookups(m, Next(m, step));
    } else {
      match WriteOf(m, step)
      case PutDevice(_) => PutRevives(m, step.p);
      case PutCredential(_, _) => EntryRevives(m, step.p);
      case DeleteCredential(_) => SameLookups(m, Written(m, step.p));
    }
  }

  // -------------------------------------------------------------------------
  // What is retired, and what holds in every interleaving
  // -------------------------------------------------------------------------

  /** The credential a device holds is retired when the device is enrolled again, or revoked with it. */
  lemma ReplacedOrRevokedIsRetired(m: Machine, step: Step)
    requires Inv(m) && Enabled(m, step) && WritesNow(m, step) && WriteOf(m, step).PutDevice?
    ensures var d := WriteOf(m, step).device;
      d.id in m.store.devices && (d.active || d.credential == m.store.devices[d.id].credential) ==>
        m.store.devices[d.id].credential in Next(m, step).retired
  {
    assert Sensible(m, m.open[step.p]);
  }

  lemma {:induction false} RetiredForGood(steps: seq<Step>, n: nat)
    requires IsRun(steps) && n <= |steps|
    ensures After(steps[..n]).retired <= After(steps).retired
  {
    if n < |steps| {
      var prefix := steps[..|steps| - 1];
      assert prefix[..n] == steps[..n];
      RetiredForGood(prefix, n);
    } else {
      assert steps[..n] == steps;
    }
  }

  /**
   * At every point of every interleaving, whatever authenticates there was handed out for that very device; and an
   * active device holds the credential of its latest enrolment, which has been neither replaced nor revoked.
   */
  lemma AuthenticationIsForItsDevice(steps: seq<Step>, credential: Digest)
    requires IsRun(steps)
    ensures var m := After(steps);
      D.Authenticate(m.store, credential).Some? ==>
        var d := D.Authenticate(m.store, credential).value;
        && MintedFor(m, credential, d.id)
        && d.id in m.installed && d.credential == m.installed[d.id] && d.credential !in m.retired
        && (credential != d.credential ==> credential in m.retired)
  {
    RunKeepsInv(steps);
  }

  // -------------------------------------------------------------------------
  // What the lock adds, as long as one process holds it for all
  // -------------------------------------------------------------------------

  /** At most one exchange is under way: the lock, where a single process serves them all. */
  ghost predicate OneExchange(m: Machine) {
    forall p, q :: p in m.open && q in m.open && m.open[p].device.active && m.open[q].device.active ==> p == q
  }

  ghost predicate SpentOnce(m: Machine) {
    forall i, j :: 0 <= i < j < |m.minted| ==> m.minted[i].challenge != m.minted[j].challenge
  }

  /** An exchange consumes a challenge that another one has consumed since it was read. */
  ghost predicate SpendsAgain(m: Machine, step: Step) {
    && step.Advance? && step.p in m.open && m.open[step.p].phase.Consuming?
    && m.open[step.p].challenge in m.store.challenges
    && m.store.challenges[m.open[step.p].challenge].consumedAt.Some?
  }

  lemma SpendStep(m: Machine, step: Step)
    requires Inv(m) && Enabled(m, step) && SpentOnce(m)
    ensures SpentOnce(Next(m, step)) <==> !SpendsAgain(m, step)
  {
    var t := Next(m, step);
    if step.Advance? && m.open[step.p].phase.Consuming? {
      var challenge := m.open[step.p].challenge;
      assert Sensible(m, m.open[step.p]);
      assert t.minted[|m.minted|].challenge == challenge;
      if SpendsAgain(m, step) {
        var k :| k in m.minted && k.challenge == challenge;
        var i :| 0 <= i < |m.minted| && m.minted[i] == k;
        assert t.minted[i].challenge == t.minted[|m.minted|].challenge;
      } else {
        forall i | 0 <= i < |m.minted| ensures m.minted[i].challenge != challenge {
          assert Spent(m, m.minted[i]);
        }
      }
    } else {
      assert t.minted == m.minted;
    }
  }

  /** In every interleaving, no challenge yields two credentials exactly when none is consumed twice. */
  lemma ChallengesYieldOnceExactlyWhenConsumedOnce(steps: seq<Step>)
    requires IsRun(steps)
    ensures Always(SpentOnce, steps) <==> Never(SpendsAgain, steps)
  {
    forall m, step | Inv(m) && Enabled(m, step) && SpentOnce(m)
      ensures SpentOnce(Next(m, step)) <==> !SpendsAgain(m, step)
    {
      SpendStep(m, step);
    }
    AlwaysExactlyWhenNever(SpentOnce, SpendsAgain, steps);
  }

  /** Under the lock: an exchange about to consume finds its challenge open, and owners agree with what is stored. */
  ghost predicate Exclusive(m: Machine) {
    && OneExchange(m)
    && (forall p :: p in m.open ==> Agreeing(m.store, m.open[p]))
  }

  ghost predicate Agreeing(s: Store, call: Process) {
    && (Early(call) ==> call.challenge in s.challenges && s.challenges[call.challenge].consumedAt.None?)
    && (!call.phase.Checking? && call.device.id in s.devices ==> s.devices[call.device.id].owner == call.device.owner)
    && (!call.device.active ==> call.device.id in s.devices)
  }

  /** The devices of the store with their owners, none gone. */
  ghost predicate SameOwners(s: Store, t: Store) {
    forall id :: id in s.devices ==> id in t.devices && t.devices[id].owner == s.devices[id].owner
  }

  lemma AgreeingStart(m: Machine, step: Step, q: nat)
    requires Enabled(m, step) && !step.Advance? && q in Next(m, step).open
    requires m.store.challenges.Keys <= m.used && forall id :: id in m.store.devices ==> m.store.devices[id].id == id
    requires q in m.open ==> Agreeing(m.store, m.open[q])
    ensures Agreeing(Next(m, step).store, Next(m, step).open[q])
  {
  }

  lemma AgreeingTurn(m: Machine, p: nat, q: nat)
    requires p in m.open && !m.open[p].phase.Writing? && OneExchange(m) && q in Next(m, Advance(p)).open
    requires Agreeing(m.store, m.open[p]) && Agreeing(m.store, m.open[q])
    requires Sensible(m, m.open[p]) && Sensible(m, m.open[q])
    ensures Agreeing(Next(m, Advance(p)).store, Next(m, Advance(p)).open[q])
  {
  }

  lemma AgreeingWrite(m: Machine, p: nat, q: nat)
    requires WritesNow(m, Advance(p)) && OneExchange(m) && q in Written(m, p).open
    requires Agreeing(m.store, m.open[p]) && Agreeing(m.store, m.open[q]) && Sensible(m, m.open[p])
    ensures Agreeing(Written(m, p).store, Written(m, p).open[q])
  {
  }

  lemma WriteKeepsOwners(m: Machine, p: nat)
    requires WritesNow(m, Advance(p)) && Agreeing(m.store, m.open[p]) && Sensible(m, m.open[p])
    ensures SameOwners(m.store, Written(m, p).store)
  {
  }

  lemma CallsStayAgreeing(m: Machine, p: nat, q: nat)
    requires OneExchange(m) && Enabled(m, Advance(p)) && q in Next(m, Advance(p)).open
    requires Agreeing(m.store, m.open[p]) && Agreeing(m.store, m.open[q])
    requires Sensible(m, m.open[p]) && Sensible(m, m.open[q])
    ensures Agreeing(Next(m, Advance(p)).store, Next(m, Advance(p)).open[q])
  {
    if m.open[p].phase.Writing? {
      AgreeingWrite(m, p, q);
    } else {
      AgreeingTurn(m, p, q);
    }
  }

  lemma AdvanceKeepsOwners(m: Machine, p: nat)
    requires Enabled(m, Advance(p)) && Agreeing(m.store, m.open[p]) && Sensible(m, m.open[p])
    ensures SameOwners(m.store, Next(m, Advance(p)).store) && !SpendsAgain(m, Advance(p))
  {
    if m.open[p].phase.Writing? {
      WriteKeepsOwners(m, p);
    }
  }

  lemma AdvanceKeepsAgreeing(m: Machine, p: nat)
    requires Exclusive(m) && Enabled(m, Advance(p)) && forall q :: q in m.open ==> Sensible(m, m.open[q])
    ensures var t := Next(m, Advance(p));
      forall q :: q in t.open ==> Agreeing(t.store, t.open[q])
  {
    var t := Next(m, Advance(p));
    forall q | q in t.open ensures Agreeing(t.store, t.open[q]) {
      assert q in m.open;
      CallsStayAgreeing(m, p, q);
    }
  }

  lemma StartKeepsAgreeing(m: Machine, step: Step)
    requires Exclusive(m) && Enabled(m, step) && !step.Advance?
    requires m.store.challenges.Keys <= m.used && forall id :: id in m.store.devices ==> m.store.devices[id].id == id
    ensures var t := Next(m, step);
      forall q :: q in t.open ==> Agreeing(t.store, t.open[q])
    ensures SameOwners(m.store, Next(m, step).store)
  {
    var t := Next(m, step);
    forall q | q in t.open ensures Agreeing(t.store, t.open[q]) {
      AgreeingStart(m, step, q);
    }
  }

  lemma ExclusiveStep(m: Machine, step: Step)
    requires Inv(m) && Exclusive(m) && Enabled(m, step) && OneExchange(Next(m, step))
    ensures Exclusive(Next(m, step)) && !SpendsAgain(m, step) && SameOwners(m.store, Next(m, step).store)
  {
    if step.Advance? {
      AdvanceKeepsAgreeing(m, step.p);
      AdvanceKeepsOwners(m, step.p);
    } else {
      StartKeepsAgreeing(m, step);
    }
  }

  lemma {:induction false} LockKeepsExclusive(steps: seq<Step>)
    requires IsRun(steps) && Always(OneExchange, steps)
    ensures Exclusive(After(steps)) && Never(SpendsAgain, steps)
  {
    if steps != [] {
      var prefix := steps[..|steps| - 1];
      LockKeepsExclusive(prefix);
      RunKeepsInv(prefix);
      ExclusiveStep(After(prefix), steps[|steps| - 1]);
    }
  }

  /**
   * With one exchange at a time, revocations overlapping as they may, a challenge yields at most one credential,
   * before it expires and under the challenge's owner.
   */
  lemma LockedChallengeYieldsAtMostOne(steps: seq<Step>, i: nat, j: nat)
    requires IsRun(steps) && Always(OneExchange, steps)
    requires i < |After(steps).minted| && j < |After(steps).minted|
    requires After(steps).minted[i].challenge == After(steps).minted[j].challenge
    ensures i == j && Spent(After(steps), After(steps).minted[i])
  {
    LockKeepsExclusive(steps);
    ChallengesYieldOnceExactlyWhenConsumedOnce(steps);
    RunKeepsInv(steps);
    assert After(steps).minted[i] in After(steps).minted;
  }

  /** A device document is written over one of another owner. */
  predicate ChangesOwner(m: Machine, step: Step) {
    && WritesNow(m, step) && WriteOf(m, step).PutDevice?
    && var d := WriteOf(m, step).device;
       d.id in m.store.devices && m.store.devices[d.id].owner != d.owner
  }

  lemma StepKeepsOwners(m: Machine, step: Step)
    requires Enabled(m, step)
    ensures SameOwners(m.store, Next(m, step).store) <==> !ChangesOwner(m, step)
  {
    if WritesNow(m, step) && WriteOf(m, step).PutDevice? {
      var d := WriteOf(m, step).device;
      assert d.id in Next(m, step).store.devices && Next(m, step).store.devices[d.id] == d;
    }
  }

  lemma {:induction false} NeverKeepsOwners(steps: seq<Step>, i: nat)
    requires IsRun(steps) && Never(ChangesOwner, steps) && i <= |steps|
    ensures SameOwners(After(steps[..i]).store, After(steps).store)
  {
    if i < |steps| {
      var prefix := steps[..|steps| - 1];
      assert prefix[..i] == steps[..i];
      NeverKeepsOwners(prefix, i);
      StepKeepsOwners(After(prefix), steps[|steps| - 1]);
    } else {
      assert steps[..i] == steps;
    }
  }

  ghost predicate OwnersNeverChange(steps: seq<Step>) {
    forall i, j :: 0 <= i <= j <= |steps| ==> SameOwners(After(steps[..i]).store, After(steps[..j]).store)
  }

  lemma PrefixKeepsOwners(steps: seq<Step>, n: nat)
    requires OwnersNeverChange(steps) && n <= |steps|
    ensures OwnersNeverChange(steps[..n]) && SameOwners(After(steps[..n]).store, After(steps).store)
  {
    assert steps[..|steps|] == steps;
    forall i, j | 0 <= i <= j <= n ensures SameOwners(After(steps[..n][..i]).store, After(steps[..n][..j]).store) {
      SamePrefix(steps, n, i);
      SamePrefix(steps, n, j);
    }
  }

  lemma SamePrefix(steps: seq<Step>, n: nat, i: nat)
    requires i <= n <= |steps|
    ensures steps[..n][..i] == steps[..i]
  {
  }

  lemma {:induction false} KeptOwnersAreNotWrittenOver(steps: seq<Step>)
    requires IsRun(steps) && OwnersNeverChange(steps)
    ensures Never(ChangesOwner, steps)
  {
    if steps != [] {
      var n := |steps| - 1;
      PrefixKeepsOwners(steps, n);
      KeptOwnersAreNotWrittenOver(steps[..n]);
      StepKeepsOwners(After(steps[..n]), steps[n]);
    }
  }

  /** In every interleaving, devices stay and keep their owners exactly when none is written over for another owner. */
  lemma OwnersNeverChangeExactlyWhenNoneIsWrittenOver(steps: seq<Step>)
    requires IsRun(steps)
    ensures OwnersNeverChange(steps) <==> Never(ChangesOwner, steps)
  {
    if OwnersNeverChange(steps) {
      KeptOwnersAreNotWrittenOver(steps);
    }
    if Never(ChangesOwner, steps) {
      forall i, j | 0 <= i <= j <= |steps| ensures SameOwners(After(steps[..i]).store, After(steps[..j]).store) {
        NeverForPrefixes(steps, j);
        assert steps[..j][..i] == steps[..i];
        NeverKeepsOwners(steps[..j], i);
      }
    }
  }

  lemma {:induction false} NeverForPrefixes(steps: seq<Step>, j: nat)
    requires IsRun(steps) && Never(ChangesOwner, steps) && j <= |steps|
    ensures IsRun(steps[..j]) && Never(ChangesOwner, steps[..j])
  {
    if j < |steps| {
      assert steps[..|steps| - 1][..j] == steps[..j];
      NeverForPrefixes(steps[..|steps| - 1], j);
    } else {
      assert steps[..j] == steps;
    }
  }

  /** With one exchange at a time none ever is. */
  lemma {:induction false} LockedOwnerNeverChanges(steps: seq<Step>)
    requires IsRun(steps) && Always(OneExchange, steps)
    ensures Never(ChangesOwner, steps) && OwnersNeverChange(steps)
  {
    if steps != [] {
      var prefix := steps[..|steps| - 1];
      LockedOwnerNeverChanges(prefix);
      LockKeepsExclusive(prefix);
      RunKeepsInv(prefix);
      ExclusiveStep(After(prefix), steps[|steps| - 1]);
      StepKeepsOwners(After(prefix), steps[|steps| - 1]);
    }
    OwnersNeverChangeExactlyWhenNoneIsWrittenOver(steps);
  }
}
