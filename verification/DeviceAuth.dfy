/**
 * Desktop enrolment over the in-memory store: one-time challenges, replaceable device credentials, revocation. That
 * store never suspends, so a call runs from its first look at the devices to its last write as one step; over the
 * document store it does not, and `DeviceRaces` says what is left there.
 */
module DeviceAuth {
  import opened Options
  import opened Text
  import opened DeviceStore

  /** One credential handed out in exchange for a challenge. */
  datatype Mint = Mint(challenge: Digest, credential: Digest, device: string, owner: string, at: int)

  datatype Service = Service(
    store: Store,
    used: set<Digest>,   // every token generated so far
    minted: seq<Mint>)

  const START := Service(EMPTY, {}, [])

  datatype Error = InvalidChallenge | InvalidSession | OwnedByAnother | MissingIdentity | NotFound

  datatype Step =
    | Issue(owner: string, session: int, token: Digest, ttl: nat, at: int)
    | Exchange(challenge: Digest, rawId: string, rawName: string, token: Digest, sessionValid: bool, at: int)
    | Revoke(device: string, at: int)
    | RevokeOwned(device: string, owner: string, at: int)

  function IssueChallenge(s: Service, owner: string, session: int, token: Digest, ttl: nat, at: int): Service {
    s.(store := s.store.(challenges := s.store.challenges[token := Challenge(owner, session, at, at + ttl, None)]),
       used := s.used + {token})
  }

  /** Why an exchange is refused, in the order of the checks; `None` when it succeeds. */
  function ExchangeError(
      s: Store, challenge: Digest, rawId: string, rawName: string, sessionValid: bool, at: int): Option<Error> {
    if challenge !in s.challenges || s.challenges[challenge].consumedAt.Some? || s.challenges[challenge].expiresAt <= at
    then Some(InvalidChallenge)
    else if !sessionValid then Some(InvalidSession)
    else if Trim(rawId) in s.devices && s.devices[Trim(rawId)].owner != s.challenges[challenge].owner
    then Some(OwnedByAnother)
    else if Trim(rawId) == "" || Trim(rawName) == "" then Some(MissingIdentity)
    else None
  }

  function Enrolled(c: Challenge, rawId: string, rawName: string, token: Digest, at: int): Device {
    Device(Trim(rawId), Trim(rawName), c.owner, c.session, token, true, at, None)
  }

  function ExchangeChallenge(
      s: Service, challenge: Digest, rawId: string, rawName: string, token: Digest, sessionValid: bool, at: int)
    : Service {
    if ExchangeError(s.store, challenge, rawId, rawName, sessionValid, at).Some? then s
    else
      var record := s.store.challenges[challenge];
      var consumed := s.store.(challenges := s.store.challenges[challenge := record.(consumedAt := Some(at))]);
      Service(SaveDevice(consumed, Enrolled(record, rawId, rawName, token, at)),
              s.used + {token},
              s.minted + [Mint(challenge, token, Trim(rawId), record.owner, at)])
  }

  function RevokeDevice(s: Service, device: string, at: int): Service {
    if device !in s.store.devices then s
    else s.(store := SaveDevice(s.store, s.store.devices[device].(active := false, revokedAt := Some(at))))
  }

  predicate MayRevoke(s: Store, device: string, owner: string) {
    device in s.devices && s.devices[device].owner == owner
  }

  function Next(s: Service, step: Step): Service {
    match step
    case Issue(owner, session, token, ttl, at) => IssueChallenge(s, owner, session, token, ttl, at)
    case Exchange(challenge, rawId, rawName, token, valid, at) =>
      ExchangeChallenge(s, challenge, rawId, rawName, token, valid, at)
    case Revoke(device, at) => RevokeDevice(s, device, at)
    case RevokeOwned(device, owner, at) => if MayRevoke(s.store, device, owner) then RevokeDevice(s, device, at) else s
  }

  /** Generated tokens are fresh. */
  predicate Possible(s: Service, step: Step) {
    step.Issue? || step.Exchange? ==> step.token !in s.used
  }

  ghost predicate IsTrail(trail: seq<Service>, steps: seq<Step>) {
    && |trail| == |steps| + 1 && trail[0] == START
    && forall k :: 0 <= k < |steps| ==> Possible(trail[k], steps[k]) && trail[k + 1] == Next(trail[k], steps[k])
  }

  /** The device a bearer credential authenticates, the owner's session being valid. */
  function Authenticate(s: Store, credential: Digest): Option<Device> {
    var device := DeviceByCredential(s, credential);
    if device.Some? && device.value.active then device else None
  }

  // -------------------------------------------------------------------------
  // Invariant
  // -------------------------------------------------------------------------

  ghost predicate Honest(s: Service) {
    && Inverse(s.store)
    && s.store.credentials.Keys <= s.used && s.store.challenges.Keys <= s.used
    && (forall m :: m in s.minted ==>
          && m.challenge in s.store.challenges && m.credential in s.used
          && s.store.challenges[m.challenge].consumedAt == Some(m.at)
          && m.at < s.store.challenges[m.challenge].expiresAt
          && s.store.challenges[m.challenge].owner == m.owner)
    && (forall i, j :: 0 <= i < j < |s.minted| ==>
          s.minted[i].challenge != s.minted[j].challenge && s.minted[i].credential != s.minted[j].credential)
  }

  /** The mint that explains why `credential` is stored for its device. */
  ghost predicate Explains(s: Service, m: Mint, credential: Digest)
    requires credential in s.store.credentials
  {
    && m in s.minted && m.credential == credential && m.device == s.store.credentials[credential]
    && m.device in s.store.devices && m.owner == s.store.devices[m.device].owner
  }

  ghost predicate Traced(s: Service) {
    forall c :: c in s.store.credentials ==> exists m :: Explains(s, m, c)
  }

  lemma ExchangeStep(s: Service, step: Step)
    requires Honest(s) && Possible(s, step) && step.Exchange? && Next(s, step) != s
    ensures Honest(Next(s, step))
  {
    var t := Next(s, step);
    var record := s.store.challenges[step.challenge];
    var consumed := s.store.(challenges := s.store.challenges[step.challenge := record.(consumedAt := Some(step.at))]);
    SaveKeepsInverse(consumed, Enrolled(record, step.rawId, step.rawName, step.token, step.at));
    forall m | m in s.minted ensures m.challenge != step.challenge && m.credential != step.token {
    }
  }

  lemma HonestStep(s: Service, step: Step)
    requires Honest(s) && Possible(s, step)
    ensures Honest(Next(s, step))
  {
    match step
    case Issue(_, _, _, _, _) =>
    case Exchange(_, _, _, _, _, _) =>
      if Next(s, step) != s {
        ExchangeStep(s, step);
      }
    case Revoke(device, at) => RevokeIsHonest(s, device, at);
    case RevokeOwned(device, _, at) => RevokeIsHonest(s, device, at);
  }

  lemma RevokeIsHonest(s: Service, device: string, at: int)
    requires Honest(s)
    ensures Honest(RevokeDevice(s, device, at))
  {
    if device in s.store.devices {
      SaveKeepsInverse(s.store, s.store.devices[device].(active := false, revokedAt := Some(at)));
    }
  }

  /** The owner of a device never changes. */
  lemma OwnerStep(s: Service, step: Step, device: string)
    requires Honest(s) && Possible(s, step) && device in s.store.devices
    ensures device in Next(s, step).store.devices
    ensures Next(s, step).store.devices[device].owner == s.store.devices[device].owner
  {
  }

  lemma StaysExplained(s: Service, step: Step, m: Mint, c: Digest)
    requires Honest(s) && Possible(s, step) && c in s.store.credentials && Explains(s, m, c)
    requires c in Next(s, step).store.credentials
    ensures Explains(Next(s, step), m, c)
  {
    OwnerStep(s, step, m.device);
  }

  lemma TracedStep(s: Service, step: Step)
    requires Honest(s) && Traced(s) && Possible(s, step)
    ensures Traced(Next(s, step))
  {
    var t := Next(s, step);
    forall c | c in t.store.credentials ensures exists m :: Explains(t, m, c) {
      if c in s.store.credentials {
        var m :| Explains(s, m, c);
        StaysExplained(s, step, m, c);
      } else {
        assert Explains(t, t.minted[|s.minted|], c);
      }
    }
  }

  lemma {:induction false} TrailIsHonest(trail: seq<Service>, steps: seq<Step>)
    requires IsTrail(trail, steps)
    ensures forall k :: 0 <= k < |trail| ==> Honest(trail[k]) && Traced(trail[k])
  {
    for k := 0 to |steps|
      invariant forall j :: 0 <= j <= k ==> Honest(trail[j]) && Traced(trail[j])
    {
      HonestStep(trail[k], steps[k]);
      TracedStep(trail[k], steps[k]);
    }
  }

  // -------------------------------------------------------------------------
  // Guarantees over whole runs
  // -------------------------------------------------------------------------

  /** A challenge yields at most one credential, and only before it expires. */
  lemma ChallengeYieldsAtMostOneCredential(trail: seq<Service>, steps: seq<Step>, k: nat, i: nat, j: nat)
    requires IsTrail(trail, steps) && k < |trail| && i < |trail[k].minted| && j < |trail[k].minted|
    requires trail[k].minted[i].challenge == trail[k].minted[j].challenge
    ensures i == j
    ensures var m := trail[k].minted[i];
      m.challenge in trail[k].store.challenges && m.at < trail[k].store.challenges[m.challenge].expiresAt
  {
    TrailIsHonest(trail, steps);
    assert trail[k].minted[i] in trail[k].minted;
  }

  lemma OwnerOneStepOn(trail: seq<Service>, steps: seq<Step>, j: nat, device: string)
    requires IsTrail(trail, steps) && j < |steps| && device in trail[j].store.devices
    ensures device in trail[j + 1].store.devices
    ensures trail[j + 1].store.devices[device].owner == trail[j].store.devices[device].owner
  {
    TrailIsHonest(trail, steps);
    OwnerStep(trail[j], steps[j], device);
  }

  lemma {:induction false} OwnerNeverChanges(trail: seq<Service>, steps: seq<Step>, i: nat, j: nat, device: string)
    requires IsTrail(trail, steps) && i <= j < |trail| && device in trail[i].store.devices
    ensures device in trail[j].store.devices
    ensures trail[j].store.devices[device].owner == trail[i].store.devices[device].owner
  {
    if i < j {
      OwnerNeverChanges(trail, steps, i, j - 1, device);
      OwnerOneStepOn(trail, steps, j - 1, device);
    }
  }

  lemma DeadStep(s: Service, step: Step, credential: Digest)
    requires Honest(s) && Possible(s, step) && credential in s.used && Authenticate(s.store, credential).None?
    ensures credential in Next(s, step).used && Authenticate(Next(s, step).store, credential).None?
  {
    HonestStep(s, step);
  }

  /** A generated token that authenticates nothing never authenticates anything again. */
  lemma {:induction false} DeadCredentialsStayDead(
      trail: seq<Service>, steps: seq<Step>, i: nat, j: nat, credential: Digest)
    requires IsTrail(trail, steps) && i <= j < |trail|
    requires credential in trail[i].used && Authenticate(trail[i].store, credential).None?
    ensures credential in trail[j].used && Authenticate(trail[j].store, credential).None?
  {
    if i < j {
      DeadCredentialsStayDead(trail, steps, i, j - 1, credential);
      TrailIsHonest(trail, steps);
      DeadStep(trail[j - 1], steps[j - 1], credential);
    }
  }

  /** Re-enrolling or revoking a device kills its earlier credential for the rest of the run. */
  lemma EarlierCredentialIsDead(trail: seq<Service>, steps: seq<Step>, k: nat, j: nat, device: string)
    requires IsTrail(trail, steps) && k < |steps| && k < j < |trail|
    requires device in trail[k].store.devices && trail[k + 1] != trail[k]
    requires match steps[k]
             case Exchange(_, rawId, _, _, _, _) => Trim(rawId) == device
             case Revoke(id, _) => id == device
             case RevokeOwned(id, _, _) => id == device
             case _ => false
    ensures Authenticate(trail[j].store, trail[k].store.devices[device].credential).None?
  {
    TrailIsHonest(trail, steps);
    var credential := trail[k].store.devices[device].credential;
    assert credential in trail[k].store.credentials;
    DeadCredentialsStayDead(trail, steps, k + 1, j, credential);
  }

  /** A fresh credential authenticates the device it was exchanged for, at once. */
  lemma ExchangeEnrols(trail: seq<Service>, steps: seq<Step>, k: nat)
    requires IsTrail(trail, steps) && k < |steps| && steps[k].Exchange?
    ensures var step := steps[k];
      var refused :=
        ExchangeError(trail[k].store, step.challenge, step.rawId, step.rawName, step.sessionValid, step.at);
      if refused.Some? then trail[k + 1] == trail[k]
      else
        var device := Authenticate(trail[k + 1].store, step.token);
        && device.Some? && device.value.id == Trim(step.rawId)
        && device.value.owner == trail[k].store.challenges[step.challenge].owner
  {
  }

  // -------------------------------------------------------------------------
  // Exactly which exchanges and revocations take effect
  // -------------------------------------------------------------------------

  /** No exchange of the challenge has taken effect after step `j` and before step `k`. */
  ghost predicate Unspent(trail: seq<Service>, steps: seq<Step>, j: nat, k: nat, challenge: Digest)
    requires |trail| == |steps| + 1 && k < |trail|
  {
    forall i :: j < i < k && steps[i].Exchange? && steps[i].challenge == challenge ==> trail[i + 1] == trail[i]
  }

  /** The challenge was issued at step `j`, has not expired at step `k` and has not been exchanged in between. */
  ghost predicate Redeemable(trail: seq<Service>, steps: seq<Step>, j: nat, k: nat)
    requires IsTrail(trail, steps) && k < |steps| && steps[k].Exchange?
  {
    && j < k && steps[j].Issue? && steps[j].token == steps[k].challenge
    && steps[k].at < steps[j].at + steps[j].ttl
    && Unspent(trail, steps, j, k, steps[k].challenge)
  }

  /** A stored challenge is as it was issued, and consumed exactly if an exchange of it has taken effect since. */
  ghost predicate AsIssued(trail: seq<Service>, steps: seq<Step>, j: nat, k: nat, challenge: Digest)
    requires IsTrail(trail, steps) && k < |trail|
  {
    && j < k && steps[j].Issue? && steps[j].token == challenge && challenge in trail[k].store.challenges
    && var c := trail[k].store.challenges[challenge];
    && c.owner == steps[j].owner && c.session == steps[j].session
    && c.createdAt == steps[j].at && c.expiresAt == steps[j].at + steps[j].ttl
    && (c.consumedAt.None? <==> Unspent(trail, steps, j, k, challenge))
  }

  lemma ChallengeStep(s: Service, step: Step, challenge: Digest)
    requires Honest(s) && Possible(s, step) && challenge in s.store.challenges
    ensures challenge in Next(s, step).store.challenges
    ensures var c, d := s.store.challenges[challenge], Next(s, step).store.challenges[challenge];
      if step.Exchange? && step.challenge == challenge && Next(s, step) != s
      then c.consumedAt.None? && d.consumedAt.Some? && d.(consumedAt := None) == c
      else d == c
  {
  }

  lemma StaysAsIssued(trail: seq<Service>, steps: seq<Step>, j: nat, k: nat, challenge: Digest)
    requires IsTrail(trail, steps) && k < |steps| && AsIssued(trail, steps, j, k, challenge)
    ensures AsIssued(trail, steps, j, k + 1, challenge)
  {
    StaysHonest(trail, steps, k);
    ChallengeStep(trail[k], steps[k], challenge);
    SpentOrNot(trail, steps, j, k, challenge);
  }

  /** Whether an exchange of the challenge has taken effect since step `j`, one step on. */
  lemma SpentOrNot(trail: seq<Service>, steps: seq<Step>, j: nat, k: nat, challenge: Digest)
    requires |trail| == |steps| + 1 && j < k < |steps|
    ensures Unspent(trail, steps, j, k + 1, challenge) <==>
      Unspent(trail, steps, j, k, challenge)
      && (steps[k].Exchange? && steps[k].challenge == challenge ==> trail[k + 1] == trail[k])
  {
  }

  lemma StaysHonest(trail: seq<Service>, steps: seq<Step>, k: nat)
    requires IsTrail(trail, steps) && k < |trail|
    ensures Honest(trail[k])
  {
    TrailIsHonest(trail, steps);
  }

  lemma {:induction false} ChallengesAreAsIssued(trail: seq<Service>, steps: seq<Step>, k: nat, challenge: Digest)
    returns (j: nat)
    requires IsTrail(trail, steps) && k < |trail| && challenge in trail[k].store.challenges
    ensures AsIssued(trail, steps, j, k, challenge)
  {
    TrailIsHonest(trail, steps);
    if challenge in trail[k - 1].store.challenges {
      j := ChallengesAreAsIssued(trail, steps, k - 1, challenge);
      StaysAsIssued(trail, steps, j, k - 1, challenge);
    } else {
      j := k - 1;
    }
  }

  lemma {:induction false} IssuedIsStored(trail: seq<Service>, steps: seq<Step>, j: nat, k: nat)
    requires IsTrail(trail, steps) && j < k < |trail| && steps[j].Issue?
    ensures AsIssued(trail, steps, j, k, steps[j].token)
  {
    if j + 1 < k {
      IssuedIsStored(trail, steps, j, k - 1);
      StaysAsIssued(trail, steps, j, k - 1, steps[j].token);
    }
  }

  /** No two steps issue the same token. */
  lemma IssuedOnce(trail: seq<Service>, steps: seq<Step>, i: nat, j: nat)
    requires IsTrail(trail, steps) && i < j < |steps| && steps[i].Issue? && steps[j].Issue?
    ensures steps[i].token != steps[j].token
  {
    IssuedIsStored(trail, steps, i, j);
    TrailIsHonest(trail, steps);
  }

  /**
   * An exchange is refused for the first thing amiss: no challenge of that name issued, unexpired and unspent; the
   * session; a device of another owner; a blank id or name. Otherwise it takes effect.
   */
  lemma ExchangeIsRefusedForTheFirstThingAmiss(trail: seq<Service>, steps: seq<Step>, k: nat)
    requires IsTrail(trail, steps) && k < |steps| && steps[k].Exchange?
    ensures var step, devices := steps[k], trail[k].store.devices;
      var error := ExchangeError(trail[k].store, step.challenge, step.rawId, step.rawName, step.sessionValid, step.at);
      && (error == Some(InvalidChallenge) <==> forall j: nat :: !Redeemable(trail, steps, j, k))
      && forall j: nat :: Redeemable(trail, steps, j, k) ==>
           error == if !step.sessionValid then Some(InvalidSession)
                    else if Trim(step.rawId) in devices && devices[Trim(step.rawId)].owner != steps[j].owner
                    then Some(OwnedByAnother)
                    else if Trim(step.rawId) == "" || Trim(step.rawName) == "" then Some(MissingIdentity)
                    else None
    ensures var step := steps[k];
      trail[k + 1] == trail[k] <==>
        ExchangeError(trail[k].store, step.challenge, step.rawId, step.rawName, step.sessionValid, step.at).Some?
  {
    var step := steps[k];
    forall j: nat | Redeemable(trail, steps, j, k) ensures AsIssued(trail, steps, j, k, step.challenge) {
      IssuedIsStored(trail, steps, j, k);
    }
    if step.challenge in trail[k].store.challenges {
      var j := ChallengesAreAsIssued(trail, steps, k, step.challenge);
      assert Redeemable(trail, steps, j, k) <==>
        trail[k].store.challenges[step.challenge].consumedAt.None? && step.at < steps[j].at + steps[j].ttl;
      forall i: nat | Redeemable(trail, steps, i, k) ensures i == j {
        if i < j {
          IssuedOnce(trail, steps, i, j);
        } else if j < i {
          IssuedOnce(trail, steps, j, i);
        }
      }
    }
  }

  /** What an exchange that takes effect leaves: the device as asked for, and every other device as it was. */
  lemma ExchangeStoresTheDevice(trail: seq<Service>, steps: seq<Step>, k: nat, j: nat)
    requires IsTrail(trail, steps) && k < |steps| && steps[k].Exchange? && trail[k + 1] != trail[k]
    requires Redeemable(trail, steps, j, k)
    ensures var step, s, t := steps[k], trail[k].store, trail[k + 1].store;
      var id, name := Trim(step.rawId), Trim(step.rawName);
      && id in t.devices
      && t.devices[id] == Device(id, name, steps[j].owner, steps[j].session, step.token, true, step.at, None)
      && (forall other :: other != id ==> (other in t.devices <==> other in s.devices))
      && (forall other :: other != id && other in s.devices ==> t.devices[other] == s.devices[other])
      && (forall c :: c in t.credentials && c !in s.credentials ==> c == step.token)
      && (forall c :: c in t.challenges && c != step.challenge ==>
            c in s.challenges && t.challenges[c] == s.challenges[c])
  {
    IssuedIsStored(trail, steps, j, k);
  }

  /** A revocation by an owner takes effect exactly on the owner's device; it only makes that device inactive. */
  lemma RevocationTakesEffectExactlyWhenOwned(trail: seq<Service>, steps: seq<Step>, k: nat)
    requires IsTrail(trail, steps) && k < |steps| && steps[k].RevokeOwned?
    ensures var step, s, t := steps[k], trail[k].store, trail[k + 1].store;
      if step.device in s.devices && s.devices[step.device].owner == step.owner then
        && t.devices == s.devices[step.device := s.devices[step.device].(active := false, revokedAt := Some(step.at))]
        && t.credentials == s.credentials && t.challenges == s.challenges
      else trail[k + 1] == trail[k]
  {
    TrailIsHonest(trail, steps);
    var s, step := trail[k].store, steps[k];
    if step.device in s.devices {
      var c := s.devices[step.device].credential;
      assert s.credentials[c] == step.device;
      assert (s.credentials - {c})[c := step.device] == s.credentials;
    }
  }

  /** Whatever authenticates was minted for that device, from a challenge of the device's own owner. */
  lemma AuthenticationIsTraceable(trail: seq<Service>, steps: seq<Step>, k: nat, credential: Digest)
    returns (m: Mint)
    requires IsTrail(trail, steps) && k < |trail| && Authenticate(trail[k].store, credential).Some?
    ensures m in trail[k].minted && m.credential == credential
    ensures var device := Authenticate(trail[k].store, credential).value;
      && m.device == device.id
      && m.challenge in trail[k].store.challenges && trail[k].store.challenges[m.challenge].owner == device.owner
  {
    TrailIsHonest(trail, steps);
    m :| Explains(trail[k], m, credential);
  }

  // -------------------------------------------------------------------------
  // The service over its in-memory store
  // -------------------------------------------------------------------------

  class InMemoryDeviceAuth {
    var challenges: map<Digest, Challenge>
    var devices: map<string, Device>
    var credentials: map<Digest, string>
    const ttl: nat
    ghost var used: set<Digest>
    ghost var minted: seq<Mint>

    ghost function View(): Service
      reads this
    {
      Service(Store(challenges, devices, credentials), used, minted)
    }

    constructor (ttl: nat)
      ensures this.ttl == ttl && View() == START && Honest(View())
    {
      this.ttl := ttl;
      challenges, devices, credentials := map[], map[], map[];
      used, minted := {}, [];
    }

    method Save(device: Device)
      modifies this`devices, this`credentials
      ensures Store(challenges, devices, credentials)
        == SaveDevice(old(Store(challenges, devices, credentials)), device)
    {
      if device.id in devices {
        credentials := credentials - {devices[device.id].credential};
      }
      devices := devices[device.id := device];
      credentials := credentials[device.credential := device.id];
    }

    method IssueFor(owner: string, session: int, token: Digest, now: int)
      requires Honest(View()) && token !in used
      modifies this
      ensures Honest(View()) && View() == Next(old(View()), Issue(owner, session, token, ttl, now))
    {
      HonestStep(View(), Issue(owner, session, token, ttl, now));
      challenges := challenges[token := Challenge(owner, session, now, now + ttl, None)];
      used := used + {token};
    }

    /** `token` is the credential generated for this exchange. */
    method ExchangeFor(challenge: Digest, rawId: string, rawName: string, token: Digest, sessionValid: bool, now: int)
      returns (error: Option<Error>)
      requires Honest(View()) && token !in used
      modifies this
      ensures Honest(View())
      ensures View() == Next(old(View()), Exchange(challenge, rawId, rawName, token, sessionValid, now))
      ensures error.None? <==> |minted| == |old(minted)| + 1
      ensures error == ExchangeError(old(View()).store, challenge, rawId, rawName, sessionValid, now)
    {
      HonestStep(View(), Exchange(challenge, rawId, rawName, token, sessionValid, now));
      if challenge !in challenges || challenges[challenge].consumedAt.Some? || challenges[challenge].expiresAt <= now {
        return Some(InvalidChallenge);
      }
      var record := challenges[challenge];
      if !sessionValid {
        return Some(InvalidSession);
      }
      var id, name := Trim(rawId), Trim(rawName);
      if id in devices && devices[id].owner != record.owner {
        return Some(OwnedByAnother);
      }
      if id == "" || name == "" {
        return Some(MissingIdentity);
      }
      challenges := challenges[challenge := record.(consumedAt := Some(now))];
      Save(Device(id, name, record.owner, record.session, token, true, now, None));
      used := used + {token};
      minted := minted + [Mint(challenge, token, id, record.owner, now)];
      error := None;
    }

    method RevokeOwnedBy(device: string, owner: string, now: int) returns (error: Option<Error>)
      requires Honest(View())
      modifies this
      ensures Honest(View()) && View() == Next(old(View()), RevokeOwned(device, owner, now))
      ensures error.None? <==> device in old(devices) && old(devices)[device].owner == owner
      ensures error.None? ==> Authenticate(View().store, old(devices)[device].credential).None?
    {
      HonestStep(View(), RevokeOwned(device, owner, now));
      if device !in devices || devices[device].owner != owner {
        return Some(NotFound);
      }
      Save(devices[device].(active := false, revokedAt := Some(now)));
      error := None;
    }
  }
}
