/** Erasing a workspace's operational records together with the provider credentials they hold. */
module Eraser {
  import opened Options

  const PENDING_CONNECTIONS := "source_operational_pending_connections"

  /** A value a stored document may hold under a key. */
  datatype Field = Missing | Null | Text(text: string)

  function Printed(f: Field): string {
    match f
    case Missing => ""
    case Null => "None"
    case Text(text) => text
  }

  /** A credential reference: empty or absent, present but unusable, or well formed. */
  datatype Reference = Absent | Unreadable | Reference(provider: string, keyId: string)

  datatype Holder = Holder(workspace: Field, mount: Field, connection: Field, canonical: Field, credential: Reference)

  /** A document's own fields and those of the record inside it. */
  datatype Doc = Doc(data: Holder, record: Holder)

  datatype Mount = Mount(id: string, workspace: Field, connection: Field)

  datatype Key = Key(collection: string, id: string)

  datatype Store = Store(docs: map<Key, Doc>, secrets: set<string>)

  datatype Vault = NoVault | InMemory | SecretManager(base: string)

  // -------------------------------------------------------------------------
  // What belongs to a workspace
  // -------------------------------------------------------------------------

  datatype Scope = Scope(workspace: string, mounts: set<string>, connections: set<string>)

  predicate Names(f: Field, ids: set<string>) {
    f.Text? && f.text != "" && f.text in ids
  }

  predicate Belongs(d: Doc, scope: Scope) {
    || d.record.workspace == Text(scope.workspace)
    || d.data.workspace == Text(scope.workspace)
    || Printed(d.record.mount) in scope.mounts
    || Printed(d.data.mount) in scope.mounts
    || Names(d.record.connection, scope.connections)
    || Names(d.data.connection, scope.connections)
    || Names(d.record.canonical, scope.connections)
    || Names(d.data.canonical, scope.connections)
  }

  ghost predicate MountedBy(mounts: seq<Mount>, workspace: string, connection: string) {
    exists m :: m in mounts && m.workspace == Text(workspace) && m.connection == Text(connection)
  }

  ghost predicate MountedElsewhere(mounts: seq<Mount>, workspace: string, connection: string) {
    exists m :: m in mounts && m.workspace != Text(workspace) && m.connection == Text(connection)
  }

  /** The mounts of a workspace, and the connections that only it still mounts. */
  ghost predicate IsScopeOf(scope: Scope, workspace: string, mounts: seq<Mount>) {
    && scope.workspace == workspace
    && (forall id :: id in scope.mounts <==> exists m :: m in mounts && m.id == id && m.workspace == Text(workspace))
    && (forall c :: c in scope.connections <==>
          c != "" && MountedBy(mounts, workspace, c) && !MountedElsewhere(mounts, workspace, c))
  }

  /** One pass over the canonical mounts. */
  method References(workspace: string, mounts: seq<Mount>) returns (scope: Scope)
    ensures IsScopeOf(scope, workspace, mounts)
  {
    var ids: set<string>, mine: set<string>, others: set<string> := {}, {}, {};
    for i := 0 to |mounts|
      invariant forall id :: id in ids <==> exists m :: m in mounts[..i] && m.id == id && m.workspace == Text(workspace)
      invariant forall c :: c in mine <==> c != "" && MountedBy(mounts[..i], workspace, c)
      invariant forall c :: c in others <==> c != "" && MountedElsewhere(mounts[..i], workspace, c)
    {
      var m := mounts[i];
      assert mounts[..i + 1] == mounts[..i] + [m];
      var named := m.connection.Text? && m.connection.text != "";
      ghost var before, ids0, mine0, others0 := mounts[..i], ids, mine, others;
      if m.workspace == Text(workspace) {
        ids := ids + {m.id};
        if named {
          mine := mine + {m.connection.text};
        }
      } else if named {
        others := others + {m.connection.text};
      }
      OneMoreMount(before, m, workspace);
    }
    assert mounts[..|mounts|] == mounts;
    scope := Scope(workspace, ids, mine - others);
  }

  lemma OneMoreMount(before: seq<Mount>, m: Mount, workspace: string)
    ensures forall c :: MountedBy(before + [m], workspace, c) <==>
      MountedBy(before, workspace, c) || (m.workspace == Text(workspace) && m.connection == Text(c))
    ensures forall c :: MountedElsewhere(before + [m], workspace, c) <==>
      MountedElsewhere(before, workspace, c) || (m.workspace != Text(workspace) && m.connection == Text(c))
  {
    assert forall x :: x in before + [m] <==> x in before || x == m;
    assert m in before + [m];
  }

  function Unless(f: Field, shared: bool): Field {
    if shared then Missing else f
  }

  ghost function WithoutSharedConnections(d: Doc, workspace: string, mounts: seq<Mount>): Doc {
    var blank := (f: Field) => Unless(f, f.Text? && MountedElsewhere(mounts, workspace, f.text));
    Doc(d.data.(connection := blank(d.data.connection), canonical := blank(d.data.canonical)),
        d.record.(connection := blank(d.record.connection), canonical := blank(d.record.canonical)))
  }

  /** A connection another workspace still mounts never decides: hiding every such field changes nothing. */
  lemma SharedConnectionsNeverDecide(d: Doc, scope: Scope, workspace: string, mounts: seq<Mount>)
    requires IsScopeOf(scope, workspace, mounts)
    ensures Belongs(d, scope) <==> Belongs(WithoutSharedConnections(d, workspace, mounts), scope)
  {
  }

  // -------------------------------------------------------------------------
  // Credentials
  // -------------------------------------------------------------------------

  predicate IsHex(c: char) {
    '0' <= c <= '9' || 'a' <= c <= 'f'
  }

  /** Whether the vault takes the reference; the secret manager raises for names it did not issue. */
  predicate Accepts(vault: Vault, provider: string, keyId: string) {
    match vault
    case NoVault => false
    case InMemory => true
    case SecretManager(base) =>
      var prefix := base + "-" + provider + "-";
      |keyId| == |prefix| + 40 && prefix <= keyId && forall i :: |prefix| <= i < |keyId| ==> IsHex(keyId[i])
  }

  /** The document's own reference wins over the record's. */
  function ReferenceOf(d: Doc): Reference {
    if d.data.credential.Absent? then d.record.credential else d.data.credential
  }

  /** The secret erased before the document is, if there is one. */
  function SecretOf(vault: Vault, k: Key, d: Doc): Option<string> {
    var reference := ReferenceOf(d);
    if k.collection == PENDING_CONNECTIONS && reference.Reference?
      && Accepts(vault, reference.provider, reference.keyId)
    then Some(reference.keyId) else None
  }

  /** The vault raises, and the whole erasure stops in front of this document. */
  predicate Refused(vault: Vault, k: Key, d: Doc) {
    var reference := ReferenceOf(d);
    && k.collection == PENDING_CONNECTIONS
    && !vault.NoVault?
    && reference.Reference?
    && !Accepts(vault, reference.provider, reference.keyId)
  }

  // -------------------------------------------------------------------------
  // One attempt, and its specification
  // -------------------------------------------------------------------------

  datatype Job = Job(scope: Scope, vault: Vault, collections: set<string>)

  predicate InReach(job: Job, k: Key, d: Doc) {
    k.collection in job.collections && Belongs(d, job.scope)
  }

  /** The secrets that go: those a document in reach refers to. */
  ghost predicate Doomed(job: Job, s: Store, secret: string) {
    exists k :: k in s.docs && InReach(job, k, s.docs[k]) && SecretOf(job.vault, k, s.docs[k]) == Some(secret)
  }

  /** What is meant to be left: nothing in reach, no secret of theirs, and everything else as it was. */
  ghost function Erased(job: Job, s: Store): Store {
    Store(
      map k | k in s.docs && !InReach(job, k, s.docs[k]) :: s.docs[k],
      set secret | secret in s.secrets && !Doomed(job, s, secret))
  }

  datatype Status = Finished | Stopped | RefusedAt(key: Key)

  datatype Outcome = Outcome(store: Store, left: nat, status: Status)

  function DropDoc(s: Store, k: Key): Store {
    s.(docs := s.docs - {k})
  }

  function DropSecret(s: Store, secret: string): Store {
    s.(secrets := s.secrets - {secret})
  }

  /** The documents of `order` in turn, with the process stopping once `budget` deletions are made. */
  function Attempt(job: Job, s: Store, order: seq<Key>, budget: nat): Outcome
    decreases |order|
  {
    if order == [] then Outcome(s, budget, Finished)
    else
      var k := order[0];
      if k !in s.docs || !Belongs(s.docs[k], job.scope) then Attempt(job, s, order[1..], budget)
      else if Refused(job.vault, k, s.docs[k]) then Outcome(s, budget, RefusedAt(k))
      else if budget == 0 then Outcome(s, 0, Stopped)
      else match SecretOf(job.vault, k, s.docs[k])
        case None => Attempt(job, DropDoc(s, k), order[1..], budget - 1)
        case Some(secret) =>
          var t := DropSecret(s, secret);
          if budget == 1 then Outcome(t, 0, Stopped) else Attempt(job, DropDoc(t, k), order[1..], budget - 2)
  }

  ghost predicate Within(job: Job, order: seq<Key>) {
    forall k :: k in order ==> k.collection in job.collections
  }

  /** The order in which a store streams its documents: each one in reach of the collections is met. */
  ghost predicate IsListing(job: Job, s: Store, order: seq<Key>) {
    && Within(job, order)
    && forall k :: k in s.docs && k.collection in job.collections ==> k in order
  }

  lemma DropSecretKeepsTheGoal(job: Job, s: Store, secret: string)
    requires Doomed(job, s, secret)
    ensures Erased(job, DropSecret(s, secret)) == Erased(job, s)
  {
    forall x ensures Doomed(job, DropSecret(s, secret), x) <==> Doomed(job, s, x) {
    }
  }

  lemma DropDocKeepsTheGoal(job: Job, s: Store, k: Key)
    requires k in s.docs && InReach(job, k, s.docs[k])
    requires SecretOf(job.vault, k, s.docs[k]).Some? ==> SecretOf(job.vault, k, s.docs[k]).value !in s.secrets
    ensures Erased(job, DropDoc(s, k)) == Erased(job, s)
  {
    var t := DropDoc(s, k);
    forall x | x in s.secrets
      ensures Doomed(job, t, x) <==> Doomed(job, s, x)
    {
      if Doomed(job, s, x) {
        var j :| j in s.docs && InReach(job, j, s.docs[j]) && SecretOf(job.vault, j, s.docs[j]) == Some(x);
        assert j in t.docs;
      }
    }
    assert Erased(job, t).docs == Erased(job, s).docs;
    assert Erased(job, t).secrets == Erased(job, s).secrets;
  }

  /** What one state may become in the course of erasing `from`. */
  ghost predicate Progress(job: Job, from: Store, s: Store) {
    && s.docs.Keys <= from.docs.Keys
    && (forall k :: k in s.docs ==> s.docs[k] == from.docs[k])
    && s.secrets <= from.secrets
    && (forall k :: k in from.docs && k !in s.docs ==>
          && InReach(job, k, from.docs[k])
          && !Refused(job.vault, k, from.docs[k])
          && (SecretOf(job.vault, k, from.docs[k]).Some? ==> SecretOf(job.vault, k, from.docs[k]).value !in s.secrets))
    && (forall secret :: secret in from.secrets && secret !in s.secrets ==> Doomed(job, from, secret))
  }

  lemma ProgressComposes(job: Job, a: Store, b: Store, c: Store)
    requires Progress(job, a, b) && Progress(job, b, c)
    ensures Progress(job, a, c)
  {
    forall secret | secret in a.secrets && secret !in c.secrets
      ensures Doomed(job, a, secret)
    {
      if secret in b.secrets {
        var k :| k in b.docs && InReach(job, k, b.docs[k]) && SecretOf(job.vault, k, b.docs[k]) == Some(secret);
        assert k in a.docs && a.docs[k] == b.docs[k];
      }
    }
  }

  /** One document handled, in the order the source handles it. */
  lemma OneDocument(job: Job, s: Store, k: Key)
    requires k in s.docs && InReach(job, k, s.docs[k]) && !Refused(job.vault, k, s.docs[k])
    ensures match SecretOf(job.vault, k, s.docs[k])
      case None => Progress(job, s, DropDoc(s, k)) && Erased(job, DropDoc(s, k)) == Erased(job, s)
      case Some(secret) =>
        var t := DropSecret(s, secret);
        && Progress(job, s, t) && Erased(job, t) == Erased(job, s)
        && Progress(job, s, DropDoc(t, k)) && Erased(job, DropDoc(t, k)) == Erased(job, s)
  {
    match SecretOf(job.vault, k, s.docs[k])
    case None =>
      DropDocKeepsTheGoal(job, s, k);
    case Some(secret) =>
      assert Doomed(job, s, secret);
      DropSecretKeepsTheGoal(job, s, secret);
      DropDocKeepsTheGoal(job, DropSecret(s, secret), k);
  }

  /** However far an attempt gets, it only makes progress, and the goal does not move. */
  lemma {:induction false} AttemptMakesProgress(job: Job, s: Store, order: seq<Key>, budget: nat)
    requires Within(job, order)
    ensures Progress(job, s, Attempt(job, s, order, budget).store)
    ensures Erased(job, Attempt(job, s, order, budget).store) == Erased(job, s)
    decreases |order|
  {
    if order != [] {
      var k := order[0];
      if k !in s.docs || !Belongs(s.docs[k], job.scope) {
        AttemptMakesProgress(job, s, order[1..], budget);
      } else if !Refused(job.vault, k, s.docs[k]) && budget > 0 {
        OneDocument(job, s, k);
        match SecretOf(job.vault, k, s.docs[k])
        case None =>
          AttemptMakesProgress(job, DropDoc(s, k), order[1..], budget - 1);
          ProgressComposes(job, s, DropDoc(s, k), Attempt(job, s, order, budget).store);
        case Some(secret) =>
          if budget > 1 {
            var t := DropDoc(DropSecret(s, secret), k);
            AttemptMakesProgress(job, t, order[1..], budget - 2);
            ProgressComposes(job, s, t, Attempt(job, s, order, budget).store);
          }
      }
    }
  }

  /** An attempt that finishes has left no document of its order in reach. */
  lemma {:induction false} FinishedLeavesNothing(job: Job, s: Store, order: seq<Key>, budget: nat)
    requires Within(job, order)
    requires Attempt(job, s, order, budget).status.Finished?
    ensures var t := Attempt(job, s, order, budget).store;
      forall k :: k in order && k in t.docs ==> !InReach(job, k, t.docs[k])
    decreases |order|
  {
    if order != [] {
      var k := order[0];
      var t := Attempt(job, s, order, budget).store;
      if k !in s.docs || !Belongs(s.docs[k], job.scope) {
        FinishedLeavesNothing(job, s, order[1..], budget);
        AttemptMakesProgress(job, s, order[1..], budget);
      } else {
        var secret := SecretOf(job.vault, k, s.docs[k]);
        var next := DropDoc(if secret.None? then s else DropSecret(s, secret.value), k);
        var left := if secret.None? then budget - 1 else budget - 2;
        FinishedLeavesNothing(job, next, order[1..], left);
        AttemptMakesProgress(job, next, order[1..], left);
        assert k !in t.docs;
      }
    }
  }

  /** An attempt ends in one of three ways: stopped early, in front of a refused document, or finished. */
  lemma {:induction false} RefusalNamesADocument(job: Job, s: Store, order: seq<Key>, budget: nat)
    requires Within(job, order)
    ensures match Attempt(job, s, order, budget).status
      case RefusedAt(k) => k in s.docs && k in order && InReach(job, k, s.docs[k]) && Refused(job.vault, k, s.docs[k])
      case Finished =>
        forall k :: k in order && k in s.docs && InReach(job, k, s.docs[k]) ==> !Refused(job.vault, k, s.docs[k])
      case Stopped => budget < 2 * |order|
    decreases |order|
  {
    if order != [] {
      var k := order[0];
      assert forall j :: j in order <==> j == k || j in order[1..];
      if k !in s.docs || !Belongs(s.docs[k], job.scope) {
        RefusalNamesADocument(job, s, order[1..], budget);
      } else if !Refused(job.vault, k, s.docs[k]) && budget > 0 {
        match SecretOf(job.vault, k, s.docs[k])
        case None => RefusalNamesADocument(job, DropDoc(s, k), order[1..], budget - 1);
        case Some(secret) =>
          if budget > 1 {
            RefusalNamesADocument(job, DropDoc(DropSecret(s, secret), k), order[1..], budget - 2);
          }
      }
    }
  }

  /** A finished attempt reaches the goal. */
  lemma FinishedReachesTheGoal(job: Job, s: Store, order: seq<Key>, budget: nat)
    requires IsListing(job, s, order)
    requires Attempt(job, s, order, budget).status.Finished?
    ensures Attempt(job, s, order, budget).store == Erased(job, s)
  {
    var t := Attempt(job, s, order, budget).store;
    AttemptMakesProgress(job, s, order, budget);
    FinishedLeavesNothing(job, s, order, budget);
    forall k | k in t.docs
      ensures !InReach(job, k, t.docs[k])
    {
      if k.collection in job.collections {
        assert k in s.docs && k in order;
      }
    }
    assert forall secret :: !Doomed(job, t, secret);
    assert Erased(job, t).docs == t.docs;
    assert Erased(job, t).secrets == t.secrets;
  }

  /** Another document, one that goes, refers to the same secret. */
  ghost predicate SharesItsSecret(job: Job, s: Store, k: Key)
    requires k in s.docs && ReferenceOf(s.docs[k]).Reference?
  {
    Doomed(job, s, ReferenceOf(s.docs[k]).keyId)
  }

  predicate HasSecret(s: Store, k: Key) {
    k in s.docs && ReferenceOf(s.docs[k]).Reference? && ReferenceOf(s.docs[k]).keyId in s.secrets
  }

  /** The documents that stay still have the secrets they had. */
  ghost predicate SurvivorsServed(s: Store, t: Store) {
    forall k :: HasSecret(s, k) && k in t.docs ==> ReferenceOf(s.docs[k]).keyId in t.secrets
  }

  /** A finished attempt leaves every surviving document its secret exactly when none shares it with one that goes. */
  lemma SurvivorsKeepUnsharedSecrets(job: Job, s: Store, order: seq<Key>, budget: nat)
    requires IsListing(job, s, order)
    requires Attempt(job, s, order, budget).status.Finished?
    ensures SurvivorsServed(s, Attempt(job, s, order, budget).store) <==>
      forall k :: HasSecret(s, k) && !InReach(job, k, s.docs[k]) ==> !SharesItsSecret(job, s, k)
  {
    FinishedReachesTheGoal(job, s, order, budget);
  }

  /** A pending connection of a workspace, as it is stored. */
  function ConnectionOf(workspace: string, secret: string): Doc {
    Doc(Holder(Text(workspace), Missing, Missing, Missing, Reference("google_drive", secret)),
        Holder(Missing, Missing, Missing, Missing, Absent))
  }

  /** It happens: another workspace's connection that refers to the same secret loses it. */
  lemma SharedSecretIsLost(ours: string, theirs: string, secret: string)
    requires ours != theirs
    ensures var one, two := Key(PENDING_CONNECTIONS, "1"), Key(PENDING_CONNECTIONS, "2");
      var s := Store(map[one := ConnectionOf(ours, secret), two := ConnectionOf(theirs, secret)], {secret});
      var job := Job(Scope(ours, {}, {}), InMemory, {PENDING_CONNECTIONS});
      Attempt(job, s, [one, two], 4) == Outcome(Store(map[two := ConnectionOf(theirs, secret)], {}), 2, Finished)
  {
    var one, two := Key(PENDING_CONNECTIONS, "1"), Key(PENDING_CONNECTIONS, "2");
    var s := Store(map[one := ConnectionOf(ours, secret), two := ConnectionOf(theirs, secret)], {secret});
    var job := Job(Scope(ours, {}, {}), InMemory, {PENDING_CONNECTIONS});
    var t := Store(map[two := ConnectionOf(theirs, secret)], {});
    assert [one, two][1..] == [two] && [two][1..] == [];
    assert DropDoc(DropSecret(s, secret), one) == t;
    assert Attempt(job, t, [two], 2) == Attempt(job, t, [], 2);
  }

  // -------------------------------------------------------------------------
  // The goal, in terms of the mounts and of what documents hold
  // -------------------------------------------------------------------------

  /** The value names this mount id, as `str` prints it. */
  predicate NamesMount(f: Field, id: string) {
    match f
    case Text(text) => text == id
    case Null => id == "None"
    case Missing => id == ""
  }

  /** One part of a document leads to the workspace: by name, by its mounts, or by a connection only it mounts. */
  ghost predicate LeadsTo(h: Holder, workspace: string, mounts: seq<Mount>) {
    || h.workspace == Text(workspace)
    || (exists m :: m in mounts && m.workspace == Text(workspace) && NamesMount(h.mount, m.id))
    || LeadsByConnection(h.connection, workspace, mounts)
    || LeadsByConnection(h.canonical, workspace, mounts)
  }

  /** The document leads to the workspace by its own fields or by those of the record inside it. */
  ghost predicate DocLeadsTo(d: Doc, workspace: string, mounts: seq<Mount>) {
    LeadsTo(d.data, workspace, mounts) || LeadsTo(d.record, workspace, mounts)
  }

  ghost predicate LeadsByConnection(f: Field, workspace: string, mounts: seq<Mount>) {
    && f.Text? && f.text != ""
    && (exists m :: m in mounts && m.workspace == Text(workspace) && m.connection == f)
    && (forall m :: m in mounts && m.connection == f ==> m.workspace == Text(workspace))
  }

  lemma BelongsInFields(d: Doc, scope: Scope, workspace: string, mounts: seq<Mount>)
    requires IsScopeOf(scope, workspace, mounts)
    ensures Belongs(d, scope) <==> DocLeadsTo(d, workspace, mounts)
  {
    forall f: Field ensures Printed(f) in scope.mounts <==>
      exists m :: m in mounts && m.workspace == Text(workspace) && NamesMount(f, m.id)
    {
      if Printed(f) in scope.mounts {
        var m :| m in mounts && m.id == Printed(f) && m.workspace == Text(workspace);
        assert NamesMount(f, m.id);
      }
    }
    forall f: Field ensures Names(f, scope.connections) <==> LeadsByConnection(f, workspace, mounts) {
      if Names(f, scope.connections) {
        assert MountedBy(mounts, workspace, f.text) && !MountedElsewhere(mounts, workspace, f.text);
      }
    }
  }

  /** A finished attempt has removed exactly the documents of its collections that lead to the workspace. */
  lemma FinishedRemovesExactly(
      job: Job, workspace: string, mounts: seq<Mount>, s: Store, order: seq<Key>, budget: nat, k: Key)
    requires IsScopeOf(job.scope, workspace, mounts) && IsListing(job, s, order) && k in s.docs
    requires Attempt(job, s, order, budget).status.Finished?
    ensures var t, d := Attempt(job, s, order, budget).store, s.docs[k];
      && (k !in t.docs <==> k.collection in job.collections && DocLeadsTo(d, workspace, mounts))
      && (k in t.docs ==> t.docs[k] == d)
  {
    FinishedReachesTheGoal(job, s, order, budget);
    BelongsInFields(s.docs[k], job.scope, workspace, mounts);
  }

  /** Of the documents in these collections, those that lead to the workspace are gone; the rest is as it was. */
  ghost predicate ErasedExactly(
      workspace: string, mounts: seq<Mount>, collections: seq<string>, was: map<Key, Doc>, docs: map<Key, Doc>) {
    && docs.Keys <= was.Keys
    && forall k :: k in was ==>
         && (k !in docs <==> k.collection in collections && DocLeadsTo(was[k], workspace, mounts))
         && (k in docs ==> docs[k] == was[k])
  }

  lemma FinishedErasesExactly(
      job: Job, workspace: string, mounts: seq<Mount>, collections: seq<string>, s: Store, order: seq<Key>, budget: nat)
    requires IsScopeOf(job.scope, workspace, mounts) && IsListing(job, s, order)
    requires job.collections == (set c | c in collections)
    requires Attempt(job, s, order, budget).status.Finished?
    ensures ErasedExactly(workspace, mounts, collections, s.docs, Attempt(job, s, order, budget).store.docs)
  {
    FinishedReachesTheGoal(job, s, order, budget);
    forall k | k in s.docs
      ensures var t := Attempt(job, s, order, budget).store;
        && (k !in t.docs <==> k.collection in collections && DocLeadsTo(s.docs[k], workspace, mounts))
        && (k in t.docs ==> t.docs[k] == s.docs[k])
    {
      FinishedRemovesExactly(job, workspace, mounts, s, order, budget, k);
    }
  }

  /** The vault issued this name for this provider: forty hex digits behind its own prefix. */
  predicate Issued(vault: Vault, provider: string, keyId: string) {
    match vault
    case NoVault => false
    case InMemory => true
    case SecretManager(base) =>
      |keyId| >= 40 && keyId[..|keyId| - 40] == base + "-" + provider + "-"
      && forall i :: |keyId| - 40 <= i < |keyId| ==> keyId[i] in "0123456789abcdef"
  }

  /** The document refers to the secret: by its own reference, or by its record's where it has none. */
  predicate RefersTo(vault: Vault, d: Doc, secret: string) {
    var r := if d.data.credential == Absent then d.record.credential else d.data.credential;
    r.Reference? && r.keyId == secret && Issued(vault, r.provider, secret)
  }

  /** A finished attempt has removed exactly the secrets that a pending connection it removed referred to. */
  lemma FinishedRemovesSecretsExactly(
      job: Job, workspace: string, mounts: seq<Mount>, s: Store, order: seq<Key>, budget: nat, secret: string)
    requires IsScopeOf(job.scope, workspace, mounts) && IsListing(job, s, order) && secret in s.secrets
    requires Attempt(job, s, order, budget).status.Finished?
    ensures secret !in Attempt(job, s, order, budget).store.secrets <==>
      exists k :: k in s.docs && k !in Attempt(job, s, order, budget).store.docs
        && k.collection == "source_operational_pending_connections" && RefersTo(job.vault, s.docs[k], secret)
  {
    FinishedReachesTheGoal(job, s, order, budget);
    forall k | k in s.docs && k.collection == PENDING_CONNECTIONS
      ensures SecretOf(job.vault, k, s.docs[k]) == Some(secret) <==> RefersTo(job.vault, s.docs[k], secret)
    {
      var r := ReferenceOf(s.docs[k]);
      if r.Reference? {
        IssuedIsAccepted(job.vault, r.provider, r.keyId);
      }
    }
    if Doomed(job, s, secret) {
      var k :| k in s.docs && InReach(job, k, s.docs[k]) && SecretOf(job.vault, k, s.docs[k]) == Some(secret);
      assert k !in Attempt(job, s, order, budget).store.docs;
    }
  }

  lemma IssuedIsAccepted(vault: Vault, provider: string, keyId: string)
    ensures Accepts(vault, provider, keyId) <==> Issued(vault, provider, keyId)
  {
    if vault.SecretManager? {
      var prefix := vault.base + "-" + provider + "-";
      if |keyId| == |prefix| + 40 {
        assert prefix <= keyId <==> keyId[..|prefix|] == prefix;
        forall i | |prefix| <= i < |keyId| ensures IsHex(keyId[i]) <==> keyId[i] in "0123456789abcdef" {
          HexDigits(keyId[i]);
        }
      }
    }
  }

  lemma HexDigits(c: char)
    ensures IsHex(c) <==> c in "0123456789abcdef"
  {
    var digits := "0123456789abcdef";
    if IsHex(c) {
      var i := if c <= '9' then c as int - '0' as int else c as int - 'a' as int + 10;
      assert 0 <= i < 16 && digits[i] == c;
    }
  }

  // -------------------------------------------------------------------------
  // Runs of attempts, each stopped anywhere
  // -------------------------------------------------------------------------

  ghost predicate IsAttempt(job: Job, s: Store, t: Store) {
    exists order, budget: nat :: IsListing(job, s, order) && t == Attempt(job, s, order, budget).store
  }

  ghost predicate IsHistory(job: Job, trail: seq<Store>) {
    && trail != []
    && forall i :: 0 < i < |trail| ==> IsAttempt(job, trail[i - 1], trail[i])
  }

  lemma {:induction false} HistoryMakesProgress(job: Job, trail: seq<Store>, n: nat)
    requires IsHistory(job, trail) && n < |trail|
    ensures Progress(job, trail[0], trail[n])
    ensures Erased(job, trail[n]) == Erased(job, trail[0])
  {
    if n > 0 {
      HistoryMakesProgress(job, trail, n - 1);
      assert IsAttempt(job, trail[n - 1], trail[n]);
      var order, budget: nat :|
        IsListing(job, trail[n - 1], order) && trail[n] == Attempt(job, trail[n - 1], order, budget).store;
      AttemptMakesProgress(job, trail[n - 1], order, budget);
      ProgressComposes(job, trail[0], trail[n - 1], trail[n]);
    }
  }

  /** After any interrupted attempts, one that finishes ends where an uninterrupted first run would have ended. */
  lemma RetryEndsAsIfUninterrupted(
      job: Job, trail: seq<Store>, order: seq<Key>, budget: nat, first: seq<Key>, enough: nat)
    requires IsHistory(job, trail)
    requires IsListing(job, trail[|trail| - 1], order) && IsListing(job, trail[0], first)
    requires Attempt(job, trail[|trail| - 1], order, budget).status.Finished?
    requires Attempt(job, trail[0], first, enough).status.Finished?
    ensures Attempt(job, trail[|trail| - 1], order, budget).store == Attempt(job, trail[0], first, enough).store
      == Erased(job, trail[0])
  {
    HistoryMakesProgress(job, trail, |trail| - 1);
    FinishedReachesTheGoal(job, trail[|trail| - 1], order, budget);
    FinishedReachesTheGoal(job, trail[0], first, enough);
  }

  /** An undisturbed attempt finishes exactly when the vault refuses no reference in reach. */
  lemma FinishesExactlyWhenNothingIsRefused(job: Job, s: Store, order: seq<Key>, budget: nat)
    requires IsListing(job, s, order) && budget >= 2 * |order|
    ensures Attempt(job, s, order, budget).status.Finished? <==>
      forall k :: k in s.docs && InReach(job, k, s.docs[k]) ==> !Refused(job.vault, k, s.docs[k])
  {
    RefusalNamesADocument(job, s, order, budget);
  }

  /**
   * In fields: it finishes exactly when there is no vault, or every well-formed reference of a pending connection that
   * leads to the workspace was issued by it.
   */
  lemma FinishesExactlyWhenItsReferencesWereIssued(
      job: Job, workspace: string, mounts: seq<Mount>, s: Store, order: seq<Key>, budget: nat)
    requires IsScopeOf(job.scope, workspace, mounts) && IsListing(job, s, order) && budget >= 2 * |order|
    ensures Attempt(job, s, order, budget).status.Finished? <==>
      forall k :: k in s.docs && k.collection in job.collections && DocLeadsTo(s.docs[k], workspace, mounts) ==>
        MayGo(job.vault, k, s.docs[k])
  {
    FinishesExactlyWhenNothingIsRefused(job, s, order, budget);
    forall k | k in s.docs
      ensures InReach(job, k, s.docs[k])
              <==> k.collection in job.collections && DocLeadsTo(s.docs[k], workspace, mounts)
      ensures Refused(job.vault, k, s.docs[k]) <==> !MayGo(job.vault, k, s.docs[k])
    {
      BelongsInFields(s.docs[k], job.scope, workspace, mounts);
      var r := ReferenceOf(s.docs[k]);
      if r.Reference? {
        IssuedIsAccepted(job.vault, r.provider, r.keyId);
      }
    }
  }

  /** No vault is asked, or no reference is read, or the vault issued it. */
  predicate MayGo(vault: Vault, k: Key, d: Doc) {
    var r := if d.data.credential == Absent then d.record.credential else d.data.credential;
    || k.collection != "source_operational_pending_connections" || vault == NoVault || !r.Reference?
    || Issued(vault, r.provider, r.keyId)
  }

  /** A refused document outlives every history, so the workspace is never erased completely. */
  lemma RefusedDocumentIsNeverErased(job: Job, trail: seq<Store>, k: Key, n: nat)
    requires IsHistory(job, trail) && n < |trail|
    requires k in trail[0].docs && InReach(job, k, trail[0].docs[k]) && Refused(job.vault, k, trail[0].docs[k])
    ensures k in trail[n].docs && trail[n] != Erased(job, trail[0])
  {
    HistoryMakesProgress(job, trail, n);
  }

  // -------------------------------------------------------------------------
  // Attempts between which the mounts change
  // -------------------------------------------------------------------------

  /** What attempts under any scopes may make of a store. */
  ghost predicate Shrunk(vault: Vault, from: Store, s: Store) {
    && s.docs.Keys <= from.docs.Keys
    && (forall k :: k in s.docs ==> s.docs[k] == from.docs[k])
    && s.secrets <= from.secrets
    && (forall k :: k in from.docs && k !in s.docs && SecretOf(vault, k, from.docs[k]).Some? ==>
          SecretOf(vault, k, from.docs[k]).value !in s.secrets)
  }

  /** Each attempt reads the mounts anew, so each has a scope of its own. */
  ghost predicate IsScopedHistory(jobs: seq<Job>, trail: seq<Store>) {
    && |trail| == |jobs| + 1
    && (forall i :: 0 <= i < |jobs| ==> IsAttempt(jobs[i], trail[i], trail[i + 1]))
    && (forall i, j :: 0 <= i < j < |jobs| ==> jobs[i].vault == jobs[j].vault)
  }

  lemma AttemptShrinks(job: Job, from: Store, s: Store, t: Store)
    requires Shrunk(job.vault, from, s) && IsAttempt(job, s, t)
    ensures Progress(job, s, t) && Shrunk(job.vault, from, t)
  {
    var order, budget: nat :| IsListing(job, s, order) && t == Attempt(job, s, order, budget).store;
    AttemptMakesProgress(job, s, order, budget);
  }

  lemma {:induction false} HistoryShrinks(vault: Vault, jobs: seq<Job>, trail: seq<Store>, n: nat)
    requires IsScopedHistory(jobs, trail) && n < |trail| && (jobs != [] ==> vault == jobs[0].vault)
    ensures Shrunk(vault, trail[0], trail[n])
  {
    if n > 0 {
      HistoryShrinks(vault, jobs, trail, n - 1);
      assert jobs[n - 1].vault == vault;
      AttemptShrinks(jobs[n - 1], trail[0], trail[n - 1], trail[n]);
    }
  }

  /** Nothing has gone that a run under `job` from the start would have left. */
  ghost predicate WentRightly(job: Job, from: Store, s: Store) {
    && (forall k :: k in from.docs && k !in s.docs ==> InReach(job, k, from.docs[k]))
    && (forall secret :: secret in from.secrets && secret !in s.secrets ==> Doomed(job, from, secret))
  }

  lemma GoalMovesExactlyWhen(job: Job, from: Store, s: Store)
    requires Shrunk(job.vault, from, s)
    ensures Erased(job, s) == Erased(job, from) <==> WentRightly(job, from, s)
  {
    forall secret | secret in s.secrets ensures Doomed(job, s, secret) <==> Doomed(job, from, secret) {
      StillDoomed(job, from, s, secret);
    }
    var now, goal := Erased(job, s), Erased(job, from);
    if now == goal {
      forall k | k in from.docs && k !in s.docs ensures InReach(job, k, from.docs[k]) {
        assert k !in now.docs;
      }
      forall secret | secret in from.secrets && secret !in s.secrets ensures Doomed(job, from, secret) {
        assert secret !in now.secrets;
      }
    }
    if WentRightly(job, from, s) {
      assert now.docs == goal.docs;
      assert now.secrets == goal.secrets;
    }
  }

  lemma StillDoomed(job: Job, from: Store, s: Store, secret: string)
    requires Shrunk(job.vault, from, s) && secret in s.secrets
    ensures Doomed(job, s, secret) <==> Doomed(job, from, secret)
  {
    if Doomed(job, from, secret) {
      var k :| k in from.docs && InReach(job, k, from.docs[k]) && SecretOf(job.vault, k, from.docs[k]) == Some(secret);
      assert k in s.docs;
    }
  }

  /**
   * After any attempts under any scopes, an attempt that finishes ends where an uninterrupted first run under its own
   * scope would have ended exactly when nothing had gone before that such a run would have left.
   */
  lemma RetryAgreesExactlyWhenNothingWentWrongly(
      jobs: seq<Job>, trail: seq<Store>, job: Job, order: seq<Key>, budget: nat)
    requires IsScopedHistory(jobs, trail) && (jobs != [] ==> jobs[0].vault == job.vault)
    requires IsListing(job, trail[|jobs|], order)
    requires Attempt(job, trail[|jobs|], order, budget).status.Finished?
    ensures Attempt(job, trail[|jobs|], order, budget).store == Erased(job, trail[0]) <==>
      WentRightly(job, trail[0], trail[|jobs|])
  {
    HistoryShrinks(job.vault, jobs, trail, |jobs|);
    FinishedReachesTheGoal(job, trail[|jobs|], order, budget);
    GoalMovesExactlyWhen(job, trail[0], trail[|jobs|]);
  }

  /** Everything in reach of one job is in reach of the other. */
  predicate Widens(narrow: Job, wide: Job) {
    && narrow.scope.workspace == wide.scope.workspace && narrow.vault == wide.vault
    && narrow.scope.mounts <= wide.scope.mounts && narrow.scope.connections <= wide.scope.connections
    && narrow.collections <= wide.collections
  }

  lemma {:induction false} WiderJobsGoRightly(jobs: seq<Job>, trail: seq<Store>, job: Job, n: nat)
    requires IsScopedHistory(jobs, trail) && n < |trail|
    requires forall i :: 0 <= i < |jobs| ==> Widens(jobs[i], job)
    ensures Shrunk(job.vault, trail[0], trail[n]) && WentRightly(job, trail[0], trail[n])
  {
    if n > 0 {
      var before, t := trail[n - 1], trail[n];
      WiderJobsGoRightly(jobs, trail, job, n - 1);
      assert Widens(jobs[n - 1], job);
      AttemptShrinks(jobs[n - 1], trail[0], before, t);
      forall secret | secret in before.secrets && secret !in t.secrets ensures Doomed(job, trail[0], secret) {
        var k :| k in before.docs && InReach(jobs[n - 1], k, before.docs[k])
          && SecretOf(job.vault, k, before.docs[k]) == Some(secret);
        assert k in trail[0].docs && trail[0].docs[k] == before.docs[k] && InReach(job, k, before.docs[k]);
      }
    }
  }

  /** As the mounts were read by one attempt and by a later one, for the same workspace. */
  ghost predicate KeepsItsMounts(workspace: string, before: seq<Mount>, after: seq<Mount>) {
    && (forall m :: m in before && m.workspace == Text(workspace) ==>
          exists n :: n in after && n.id == m.id && n.workspace == Text(workspace))
    && (forall c :: c != "" && MountedBy(before, workspace, c) && !MountedElsewhere(before, workspace, c) ==>
          MountedBy(after, workspace, c) && !MountedElsewhere(after, workspace, c))
  }

  /**
   * A later attempt reaches all that an earlier one did exactly when the workspace has kept its mounts and nobody else
   * has mounted a connection that was its alone.
   */
  lemma LaterScopeIsWiderExactlyWhen(
      workspace: string, before: seq<Mount>, after: seq<Mount>, one: Job, two: Job)
    requires IsScopeOf(one.scope, workspace, before) && IsScopeOf(two.scope, workspace, after)
    requires one.vault == two.vault && one.collections == two.collections
    ensures Widens(one, two) <==> KeepsItsMounts(workspace, before, after)
  {
    if Widens(one, two) {
      forall m | m in before && m.workspace == Text(workspace)
        ensures exists n :: n in after && n.id == m.id && n.workspace == Text(workspace)
      {
        assert m.id in one.scope.mounts && m.id in two.scope.mounts;
      }
    }
  }

  /** While the workspace keeps its mounts and its connections to itself, a retry ends as if uninterrupted. */
  lemma RetryAgreesWhileMountsAreKept(
      workspace: string, mounts: seq<seq<Mount>>, jobs: seq<Job>, trail: seq<Store>, order: seq<Key>, budget: nat)
    requires |mounts| == |jobs| == |trail| > 0 && IsScopedHistory(jobs[..|jobs| - 1], trail)
    requires forall i :: 0 <= i < |jobs| ==> IsScopeOf(jobs[i].scope, workspace, mounts[i])
    requires forall i :: 0 <= i < |jobs| ==>
      jobs[i].vault == jobs[|jobs| - 1].vault && jobs[i].collections == jobs[|jobs| - 1].collections
    requires forall i :: 0 <= i < |jobs| ==> KeepsItsMounts(workspace, mounts[i], mounts[|jobs| - 1])
    requires IsListing(jobs[|jobs| - 1], trail[|jobs| - 1], order)
    requires Attempt(jobs[|jobs| - 1], trail[|jobs| - 1], order, budget).status.Finished?
    ensures Attempt(jobs[|jobs| - 1], trail[|jobs| - 1], order, budget).store == Erased(jobs[|jobs| - 1], trail[0])
  {
    var last := |jobs| - 1;
    var earlier := jobs[..last];
    forall i | 0 <= i < |earlier| ensures Widens(earlier[i], jobs[last]) {
      LaterScopeIsWiderExactlyWhen(workspace, mounts[i], mounts[last], jobs[i], jobs[last]);
    }
    WiderJobsGoRightly(earlier, trail, jobs[last], last);
    RetryAgreesExactlyWhenNothingWentWrongly(earlier, trail, jobs[last], order, budget);
  }

  /** A runtime record of a connection. */
  function RuntimeOf(connection: string): Doc {
    Doc(Holder(Missing, Missing, Text(connection), Missing, Absent),
        Holder(Missing, Missing, Missing, Missing, Absent))
  }

  /** It happens otherwise: a connection that another workspace mounts between two attempts has lost its record. */
  lemma MountedMeanwhileIsGone(ours: string, theirs: string, connection: string, vault: Vault)
    requires ours != theirs && connection != ""
    ensures var k, mine, others :=
        Key("source_operational_drive_runtime", "1"), Mount("m", Text(ours), Text(connection)),
        Mount("n", Text(theirs), Text(connection));
      var s := Store(map[k := RuntimeOf(connection)], {});
      var one := Job(Scope(ours, {"m"}, {connection}), vault, {k.collection});
      var two := Job(Scope(ours, {"m"}, {}), vault, {k.collection});
      && IsScopeOf(one.scope, ours, [mine]) && IsScopeOf(two.scope, ours, [mine, others])
      && Attempt(one, s, [k], 1) == Outcome(Store(map[], {}), 0, Finished)
      && Attempt(two, Store(map[], {}), [k], 0).status.Finished?
      && Attempt(two, Store(map[], {}), [k], 0).store != Erased(two, s) == s
  {
    var k, mine, others :=
      Key("source_operational_drive_runtime", "1"), Mount("m", Text(ours), Text(connection)),
      Mount("n", Text(theirs), Text(connection));
    var s := Store(map[k := RuntimeOf(connection)], {});
    var two := Job(Scope(ours, {"m"}, {}), vault, {k.collection});
    assert [k][1..] == [];
    assert mine in [mine] && mine in [mine, others] && others in [mine, others];
    assert DropDoc(s, k) == Store(map[], {});
    assert Erased(two, s).docs == s.docs;
    assert k in s.docs;
  }

  // -------------------------------------------------------------------------
  // The eraser
  // -------------------------------------------------------------------------

  lemma {:induction false} AttemptSplits(job: Job, s: Store, a: seq<Key>, b: seq<Key>, budget: nat)
    ensures Attempt(job, s, a + b, budget) ==
      var o := Attempt(job, s, a, budget);
      if o.status.Finished? then Attempt(job, o.store, b, o.left) else o
    decreases |a|
  {
    if a == [] {
      assert a + b == b;
    } else {
      assert (a + b)[1..] == a[1..] + b;
      var k := a[0];
      if k !in s.docs || !Belongs(s.docs[k], job.scope) {
        AttemptSplits(job, s, a[1..], b, budget);
      } else if !Refused(job.vault, k, s.docs[k]) && budget > 0 {
        match SecretOf(job.vault, k, s.docs[k])
        case None => AttemptSplits(job, DropDoc(s, k), a[1..], b, budget - 1);
        case Some(secret) =>
          if budget > 1 {
            AttemptSplits(job, DropDoc(DropSecret(s, secret), k), a[1..], b, budget - 2);
          }
      }
    }
  }

  function Flat(streams: seq<seq<Key>>): seq<Key> {
    if streams == [] then [] else Flat(streams[..|streams| - 1]) + streams[|streams| - 1]
  }

  function InCollection(docs: map<Key, Doc>, collection: string): set<Key> {
    set k | k in docs && k.collection == collection
  }

  predicate OneCollection(stream: seq<Key>, collection: string) {
    forall k :: k in stream ==> k.collection == collection
  }

  class OperationalEraser {
    var docs: map<Key, Doc>
    var secrets: set<string>

    ghost function Contents(): Store
      reads this
    {
      Store(docs, secrets)
    }

    constructor (docs: map<Key, Doc>, secrets: set<string>)
      ensures Contents() == Store(docs, secrets)
    {
      this.docs, this.secrets := docs, secrets;
    }

    /** One streamed document: skipped, or its secret deleted and then itself. */
    method EraseOne(job: Job, k: Key, budget: nat)
      returns (removed: nat, credentials: nat, left: nat, status: Status)
      modifies this
      ensures Outcome(Contents(), left, status) == Attempt(job, old(Contents()), [k], budget)
      ensures docs == if removed == 0 then old(docs) else old(docs) - {k}
      ensures removed == if k in old(docs) && k !in docs then 1 else 0
      ensures left + removed + credentials == budget && |docs| + removed == |old(docs)|
    {
      removed, credentials, left, status := 0, 0, budget, Finished;
      assert [k][0] == k && [k][1..] == [];
      if k !in docs || !Belongs(docs[k], job.scope) {
        return;
      }
      if Refused(job.vault, k, docs[k]) {
        return removed, credentials, left, RefusedAt(k);
      }
      if left == 0 {
        return removed, credentials, left, Stopped;
      }
      var secret := SecretOf(job.vault, k, docs[k]);
      if secret.Some? {
        secrets := secrets - {secret.value};
        credentials, left := 1, left - 1;
        if left == 0 {
          return removed, credentials, left, Stopped;
        }
      }
      assert (docs - {k}).Keys == docs.Keys - {k};
      docs := docs - {k};
      removed, left := 1, left - 1;
    }

    /** One collection's stream; stops after `budget` deletions or where the vault raises. */
    method EraseCollection(job: Job, collection: string, stream: seq<Key>, budget: nat)
      returns (removed: nat, credentials: nat, left: nat, status: Status)
      requires OneCollection(stream, collection)
      modifies this
      ensures Outcome(Contents(), left, status) == Attempt(job, old(Contents()), stream, budget)
      ensures |InCollection(docs, collection)| + removed == |InCollection(old(docs), collection)|
      ensures forall other :: other != collection ==> InCollection(docs, other) == InCollection(old(docs), other)
      ensures left + removed + credentials == budget && |docs| + removed == |old(docs)|
    {
      removed, credentials, left, status := 0, 0, budget, Finished;
      assert stream[..0] == [];
      for i := 0 to |stream|
        invariant status == Finished
        invariant Outcome(Contents(), left, status) == Attempt(job, old(Contents()), stream[..i], budget)
        invariant |InCollection(docs, collection)| + removed == |InCollection(old(docs), collection)|
        invariant forall other :: other != collection ==> InCollection(docs, other) == InCollection(old(docs), other)
        invariant left + removed + credentials == budget && |docs| + removed == |old(docs)|
      {
        assert stream[..i + 1] == stream[..i] + [stream[i]];
        AttemptSplits(job, old(Contents()), stream[..i], [stream[i]], budget);
        ghost var before := docs;
        var gone, dropped;
        gone, dropped, left, status := EraseOne(job, stream[i], left);
        OneGone(before, docs, stream[i], gone);
        removed, credentials := removed + gone, credentials + dropped;
        if !status.Finished? {
          AttemptSplits(job, old(Contents()), stream[..i + 1], stream[i + 1..], budget);
          assert stream[..i + 1] + stream[i + 1..] == stream;
          return;
        }
      }
      assert stream[..|stream|] == stream;
    }

    /** Every collection in turn; `counts` holds what was removed from each, where anything was. */
    method EraseAll(job: Job, collections: seq<string>, streams: seq<seq<Key>>, budget: nat)
      returns (counts: map<string, nat>, credentials: nat, left: nat, status: Status)
      requires |streams| == |collections|
      requires forall i :: 0 <= i < |streams| ==> OneCollection(streams[i], collections[i])
      requires forall i, j :: 0 <= i < j < |collections| ==> collections[i] != collections[j]
      modifies this
      ensures Outcome(Contents(), left, status) == Attempt(job, old(Contents()), Flat(streams), budget)
      ensures status.Finished? ==> Counted(counts, old(docs), docs, collections)
      ensures status.Finished? ==> left + credentials + |old(docs)| == budget + |docs|
    {
      counts, credentials, left, status := map[], 0, budget, Finished;
      var i := 0;
      while i < |streams|
        invariant 0 <= i <= |streams|
        invariant status == Finished
        invariant Outcome(Contents(), left, status) == Attempt(job, old(Contents()), Flat(streams[..i]), budget)
        invariant left + credentials + |old(docs)| == budget + |docs|
        invariant Counted(counts, old(docs), docs, collections[..i])
        invariant forall c :: c !in collections[..i] ==> InCollection(docs, c) == InCollection(old(docs), c)
      {
        assert streams[..i + 1][..i] == streams[..i];
        assert Flat(streams[..i + 1]) == Flat(streams[..i]) + streams[i];
        assert collections[..i + 1] == collections[..i] + [collections[i]];
        AttemptSplits(job, old(Contents()), Flat(streams[..i]), streams[i], budget);
        ghost var before := docs;
        var removed, dropped;
        removed, dropped, left, status := EraseCollection(job, collections[i], streams[i], left);
        if !status.Finished? {
          StoppedStaysStopped(job, old(Contents()), streams, i + 1, budget);
          return;
        }
        credentials := credentials + dropped;
        OneMoreCounted(counts, old(docs), before, docs, collections[..i], collections[i], removed);
        if removed > 0 {
          counts := counts[collections[i] := removed];
        }
        i := i + 1;
      }
      assert streams[..i] == streams && collections[..i] == collections;
    }

    /** Reads the mounts and erases what leads to the workspace; finished, it has erased exactly that. */
    method Erase(workspace: string, mounts: seq<Mount>, vault: Vault, collections: seq<string>,
                 streams: seq<seq<Key>>, budget: nat)
      returns (ghost scope: Scope, counts: map<string, nat>, credentials: nat, left: nat, status: Status)
      requires |streams| == |collections|
      requires forall i :: 0 <= i < |streams| ==> OneCollection(streams[i], collections[i])
      requires forall i, j :: 0 <= i < j < |collections| ==> collections[i] != collections[j]
      modifies this
      ensures IsScopeOf(scope, workspace, mounts)
      ensures Outcome(Contents(), left, status) ==
        Attempt(Job(scope, vault, set c | c in collections), old(Contents()), Flat(streams), budget)
      ensures status.Finished? && Listed(old(docs), collections, streams) ==>
        ErasedExactly(workspace, mounts, collections, old(docs), docs)
      ensures status.Finished? ==> Counted(counts, old(docs), docs, collections)
      ensures status.Finished? ==> left + credentials + |old(docs)| == budget + |docs|
    {
      var found := References(workspace, mounts);
      scope := found;
      var job := Job(found, vault, set c | c in collections);
      ghost var was := Contents();
      counts, credentials, left, status := EraseAll(job, collections, streams, budget);
      ListedErasesExactly(job, workspace, mounts, collections, was, streams, budget);
    }
  }

  /** The streams hold every document of their collections. */
  ghost predicate Listed(docs: map<Key, Doc>, collections: seq<string>, streams: seq<seq<Key>>) {
    forall k :: k in docs && k.collection in collections ==> k in Flat(streams)
  }

  lemma {:induction false} FlatStaysWithin(collections: seq<string>, streams: seq<seq<Key>>, k: Key)
    requires |streams| == |collections| && forall i :: 0 <= i < |streams| ==> OneCollection(streams[i], collections[i])
    requires k in Flat(streams)
    ensures k.collection in collections
  {
    var n := |streams| - 1;
    if k !in streams[n] {
      FlatStaysWithin(collections[..n], streams[..n], k);
    }
  }

  lemma ListedErasesExactly(
      job: Job, workspace: string, mounts: seq<Mount>, collections: seq<string>, s: Store, streams: seq<seq<Key>>,
      budget: nat)
    requires |streams| == |collections| && forall i :: 0 <= i < |streams| ==> OneCollection(streams[i], collections[i])
    requires IsScopeOf(job.scope, workspace, mounts) && job.collections == (set c | c in collections)
    ensures Attempt(job, s, Flat(streams), budget).status.Finished? && Listed(s.docs, collections, streams) ==>
      ErasedExactly(workspace, mounts, collections, s.docs, Attempt(job, s, Flat(streams), budget).store.docs)
  {
    if Attempt(job, s, Flat(streams), budget).status.Finished? && Listed(s.docs, collections, streams) {
      forall k | k in Flat(streams) ensures k.collection in job.collections {
        FlatStaysWithin(collections, streams, k);
      }
      FinishedErasesExactly(job, workspace, mounts, collections, s, Flat(streams), budget);
    }
  }

  /** The counts are exactly the documents that have gone from each collection. */
  ghost predicate Counted(counts: map<string, nat>, was: map<Key, Doc>, docs: map<Key, Doc>, collections: seq<string>) {
    && (forall c :: c in counts ==> c in collections && counts[c] > 0)
    && (forall c :: c in collections ==>
          |InCollection(docs, c)| + (if c in counts then counts[c] else 0) == |InCollection(was, c)|)
  }

  lemma OneGone(before: map<Key, Doc>, docs: map<Key, Doc>, k: Key, gone: nat)
    requires gone == if k in before && k !in docs then 1 else 0
    requires docs == if gone == 0 then before else before - {k}
    ensures |InCollection(docs, k.collection)| + gone == |InCollection(before, k.collection)|
    ensures forall other :: other != k.collection ==> InCollection(docs, other) == InCollection(before, other)
  {
    if gone == 1 {
      assert InCollection(docs, k.collection) == InCollection(before, k.collection) - {k};
    }
  }

  lemma OneMoreCounted(
      counts: map<string, nat>, was: map<Key, Doc>, before: map<Key, Doc>, docs: map<Key, Doc>,
      collections: seq<string>, collection: string, removed: nat)
    requires Counted(counts, was, before, collections) && collection !in collections
    requires InCollection(before, collection) == InCollection(was, collection)
    requires |InCollection(docs, collection)| + removed == |InCollection(before, collection)|
    requires forall other :: other != collection ==> InCollection(docs, other) == InCollection(before, other)
    ensures Counted(
      if removed > 0 then counts[collection := removed] else counts, was, docs, collections + [collection])
  {
  }

  lemma {:induction false} StoppedStaysStopped(job: Job, s: Store, streams: seq<seq<Key>>, n: nat, budget: nat)
    requires n <= |streams| && !Attempt(job, s, Flat(streams[..n]), budget).status.Finished?
    ensures Attempt(job, s, Flat(streams), budget) == Attempt(job, s, Flat(streams[..n]), budget)
    decreases |streams| - n
  {
    if n == |streams| {
      assert streams[..n] == streams;
    } else {
      assert streams[..n + 1][..n] == streams[..n];
      AttemptSplits(job, s, Flat(streams[..n]), streams[n], budget);
      StoppedStaysStopped(job, s, streams, n + 1, budget);
    }
  }
}
