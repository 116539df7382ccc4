/** Device credentials in memory, and as documents written one at a time. */
module DeviceStore {
  import opened Options

  // Hashes are ideal: a token or a lookup key stands for its own digest.
  type Digest = string

  datatype Challenge = Challenge(owner: string, session: int, createdAt: int, expiresAt: int, consumedAt: Option<int>)

  datatype Device = Device(
    id: string,
    name: string,
    owner: string,
    session: int,
    credential: Digest,
    active: bool,
    createdAt: int,
    revokedAt: Option<int>)

  datatype Store = Store(
    challenges: map<Digest, Challenge>,
    devices: map<string, Device>,
    credentials: map<Digest, string>)

  const EMPTY := Store(map[], map[], map[])

  /** The in-memory save: drop the previous credential, then write the device and its credential. */
  function SaveDevice(s: Store, d: Device): Store {
    var index := if d.id in s.devices then s.credentials - {s.devices[d.id].credential} else s.credentials;
    s.(devices := s.devices[d.id := d], credentials := index[d.credential := d.id])
  }

  function DeviceByCredential(s: Store, credential: Digest): Option<Device> {
    if credential in s.credentials && s.credentials[credential] != "" && s.credentials[credential] in s.devices
    then Some(s.devices[s.credentials[credential]]) else None
  }

  /** A credential entry leads to a device whose current credential it is. */
  ghost predicate EntriesAreCurrent(s: Store) {
    && (forall c :: c in s.credentials ==> s.credentials[c] in s.devices && s.devices[s.credentials[c]].credential == c)
    && (forall id :: id in s.devices ==> s.devices[id].id == id != "")
  }

  /** Devices and credential entries are inverse to each other. */
  ghost predicate Inverse(s: Store) {
    && EntriesAreCurrent(s)
    && (forall id :: id in s.devices ==>
          s.devices[id].credential in s.credentials && s.credentials[s.devices[id].credential] == id)
  }

  /** A save keeps the two tables inverse exactly when it does not take another device's credential. */
  lemma SaveKeepsInverse(s: Store, d: Device)
    requires Inverse(s) && d.id != ""
    ensures Inverse(SaveDevice(s, d)) <==> (d.credential in s.credentials ==> s.credentials[d.credential] == d.id)
  {
    var t := SaveDevice(s, d);
    if d.credential in s.credentials && s.credentials[d.credential] != d.id {
      var other := s.credentials[d.credential];
      assert t.devices[other].credential == d.credential && t.credentials[d.credential] == d.id;
    } else {
      forall id | id in t.devices
        ensures t.devices[id].credential in t.credentials && t.credentials[t.devices[id].credential] == id
      {
        if id != d.id {
          assert s.credentials[s.devices[id].credential] == id;
        }
      }
    }
  }

  // -------------------------------------------------------------------------
  // The same store as documents
  // -------------------------------------------------------------------------

  datatype Write =
    | DeleteCredential(credential: Digest)
    | PutDevice(device: Device)
    | PutCredential(credential: Digest, id: string)

  function ApplyWrite(s: Store, w: Write): Store {
    match w
    case DeleteCredential(credential) => s.(credentials := s.credentials - {credential})
    case PutDevice(device) => s.(devices := s.devices[device.id := device])
    case PutCredential(credential, id) => s.(credentials := s.credentials[credential := id])
  }

  /** The writes of one document save, in order. */
  function Writes(s: Store, d: Device): seq<Write> {
    (if d.id in s.devices && s.devices[d.id].credential != d.credential
     then [DeleteCredential(s.devices[d.id].credential)] else [])
    + [PutDevice(d), PutCredential(d.credential, d.id)]
  }

  function ApplyAll(s: Store, writes: seq<Write>): Store {
    if writes == [] then s else ApplyWrite(ApplyAll(s, writes[..|writes| - 1]), writes[|writes| - 1])
  }

  /** The document save stopped after its first `n` writes. */
  function Interrupted(s: Store, d: Device, n: nat): Store
    requires n <= |Writes(s, d)|
  {
    ApplyAll(s, Writes(s, d)[..n])
  }

  function SaveDocuments(s: Store, d: Device): Store {
    ApplyAll(s, Writes(s, d))
  }

  lemma ApplyUpTo(s: Store, writes: seq<Write>, n: nat)
    requires n < |writes|
    ensures ApplyAll(s, writes[..n + 1]) == ApplyWrite(ApplyAll(s, writes[..n]), writes[n])
  {
    assert writes[..n + 1][..n] == writes[..n];
  }

  lemma InterruptedIs(s: Store, d: Device, n: nat)
    requires n <= |Writes(s, d)|
    ensures var replaced := d.id in s.devices && s.devices[d.id].credential != d.credential;
      var index := if replaced then s.credentials - {s.devices[d.id].credential} else s.credentials;
      var k := if replaced then n else n + 1;
      Interrupted(s, d, n) == match k
        case 0 => s
        case 1 => s.(credentials := index)
        case 2 => s.(credentials := index, devices := s.devices[d.id := d])
        case _ => s.(credentials := index[d.credential := d.id], devices := s.devices[d.id := d])
  {
    if n > 0 {
      InterruptedIs(s, d, n - 1);
      ApplyUpTo(s, Writes(s, d), n - 1);
    }
  }

  /** Both forms of the store agree after a save, whatever state they start from. */
  lemma DocumentsMatchMemory(s: Store, d: Device)
    ensures SaveDocuments(s, d) == SaveDevice(s, d)
  {
    InterruptedIs(s, d, |Writes(s, d)|);
    assert Writes(s, d)[..|Writes(s, d)|] == Writes(s, d);
    if d.id in s.devices && s.devices[d.id].credential == d.credential {
      assert (s.credentials - {d.credential})[d.credential := d.id] == s.credentials[d.credential := d.id];
    }
  }

  /**
   * At every point inside a save with no other save under way, an entry still leads only to a device that currently
   * holds it; `DeviceRaces` has the condition for saves that overlap.
   */
  lemma EntriesStayCurrentInsideASave(s: Store, d: Device, n: nat)
    requires EntriesAreCurrent(s) && d.id != "" && n <= |Writes(s, d)|
    requires d.credential in s.credentials ==> s.credentials[d.credential] == d.id
    ensures EntriesAreCurrent(Interrupted(s, d, n))
  {
    InterruptedIs(s, d, n);
  }

  /** A save that was interrupted anywhere is completed by running it again. */
  lemma RetryCompletesTheSave(s: Store, d: Device, n: nat)
    requires n <= |Writes(s, d)|
    ensures SaveDocuments(Interrupted(s, d, n), d) == SaveDocuments(s, d)
  {
    InterruptedIs(s, d, n);
    DocumentsMatchMemory(s, d);
    DocumentsMatchMemory(Interrupted(s, d, n), d);
    var t := Interrupted(s, d, n);
    assert SaveDevice(t, d).devices == SaveDevice(s, d).devices;
    assert SaveDevice(t, d).credentials == SaveDevice(s, d).credentials;
  }

  /** What a read by document key gives; an empty string is no document key. */
  datatype Answer<T> = NoKey | Answer(found: Option<T>)

  function EntryOf(s: Store, credential: Digest): Answer<string> {
    if credential == "" then NoKey
    else Answer(if credential in s.credentials then Some(s.credentials[credential]) else None)
  }

  function DeviceOf(s: Store, id: string): Answer<Device> {
    if id == "" then NoKey else Answer(if id in s.devices then Some(s.devices[id]) else None)
  }

  /** A lookup is two reads: the entry as it was in `first`, and the device it names as it is in `second`. */
  function DocumentLookup(first: Store, second: Store, credential: Digest): Answer<Device> {
    match EntryOf(first, credential)
    case NoKey => NoKey
    case Answer(None) => Answer(None)
    case Answer(Some(id)) => DeviceOf(second, id)
  }

  /**
   * What the two reads come to: no document key where the credential, or the id in its entry, is empty; a device where
   * the entry of the first names one that the second finds; and otherwise nothing.
   */
  lemma LookupIsTwoReads(first: Store, second: Store, credential: Digest)
    ensures var answer := DocumentLookup(first, second, credential);
      && (answer == NoKey <==>
            credential == "" || (credential in first.credentials && first.credentials[credential] == ""))
      && (forall d :: answer == Answer(Some(d)) <==>
            && credential != "" && credential in first.credentials && first.credentials[credential] != ""
            && first.credentials[credential] in second.devices
            && second.devices[first.credentials[credential]] == d)
  {
  }

  function AfterSaves(saves: seq<Device>): Store {
    if saves == [] then EMPTY else SaveDevice(AfterSaves(saves[..|saves| - 1]), saves[|saves| - 1])
  }

  function DocumentsAfter(saves: seq<Device>): Store {
    if saves == [] then EMPTY else SaveDocuments(DocumentsAfter(saves[..|saves| - 1]), saves[|saves| - 1])
  }

  ghost predicate EntriesAreNamed(s: Store) {
    forall c :: c in s.credentials ==> s.credentials[c] != ""
  }

  lemma SaveKeepsEntriesNamed(s: Store, d: Device)
    requires EntriesAreNamed(s) && d.id != ""
    ensures EntriesAreNamed(SaveDevice(s, d))
  {
  }

  lemma {:induction false} EntriesNameSavedDevices(saves: seq<Device>)
    requires forall d :: d in saves ==> d.id != ""
    ensures EntriesAreNamed(AfterSaves(saves))
  {
    if saves != [] {
      EntriesNameSavedDevices(saves[..|saves| - 1]);
      SaveKeepsEntriesNamed(AfterSaves(saves[..|saves| - 1]), saves[|saves| - 1]);
    }
  }

  /**
   * After any sequence of saves, and with no write between the two reads, both forms answer alike, except that an
   * empty credential has no document key. `DeviceLookups` has what a write in between can do.
   */
  lemma {:induction false} LookupsAgree(saves: seq<Device>, credential: Digest)
    requires forall d :: d in saves ==> d.id != ""
    ensures DocumentsAfter(saves) == AfterSaves(saves)
    ensures DocumentLookup(DocumentsAfter(saves), DocumentsAfter(saves), credential) ==
      if credential == "" then NoKey else Answer(DeviceByCredential(AfterSaves(saves), credential))
  {
    EntriesNameSavedDevices(saves);
    if saves != [] {
      LookupsAgree(saves[..|saves| - 1], credential);
      DocumentsMatchMemory(AfterSaves(saves[..|saves| - 1]), saves[|saves| - 1]);
    }
  }

  /** The document collections. A write can be the last one before the process stops. */
  class FirestoreDeviceAuthStore {
    var challenges: map<Digest, Challenge>
    var devices: map<string, Device>
    var credentials: map<Digest, string>

    ghost function Contents(): Store
      reads this
    {
      Store(challenges, devices, credentials)
    }

    constructor ()
      ensures Contents() == EMPTY
    {
      challenges, devices, credentials := map[], map[], map[];
    }

    /** Saves a device, stopping after `budget` writes; the third write completes any save. */
    method SaveDevice(device: Device, budget: nat) returns (written: nat)
      modifies this
      ensures var all := |Writes(old(Contents()), device)|;
        written == if budget < all then budget else all
      ensures Contents() == Interrupted(old(Contents()), device, written)
    {
      ghost var was := Contents();
      ghost var writes := Writes(was, device);
      written := 0;
      if device.id in devices && devices[device.id].credential != device.credential {
        if budget == 0 {
          return;
        }
        credentials := credentials - {devices[device.id].credential};
        written := 1;
      }
      InterruptedIs(was, device, written);
      if written == budget {
        return;
      }
      devices := devices[device.id := device];
      written := written + 1;
      InterruptedIs(was, device, written);
      if written == budget {
        return;
      }
      credentials := credentials[device.credential := device.id];
      written := written + 1;
      InterruptedIs(was, device, written);
    }

    method ReadEntry(credential: Digest) returns (answer: Answer<string>)
      ensures answer == EntryOf(Contents(), credential)
    {
      if credential == "" {
        return NoKey;
      }
      return Answer(if credential in credentials then Some(credentials[credential]) else None);
    }

    method ReadDevice(id: string) returns (answer: Answer<Device>)
      ensures answer == DeviceOf(Contents(), id)
    {
      if id == "" {
        return NoKey;
      }
      return Answer(if id in devices then Some(devices[id]) else None);
    }

    /** A lookup whose two reads nothing gets between. */
    method DeviceWith(credential: Digest) returns (answer: Answer<Device>)
      ensures answer == DocumentLookup(Contents(), Contents(), credential)
    {
      var entry := ReadEntry(credential);
      if entry.NoKey? {
        return NoKey;
      }
      if entry.found.None? {
        return Answer(None);
      }
      answer := ReadDevice(entry.found.value);
    }
  }
}
