/** Deterministic keys over an ideal hash, and the Drive identities made of them. */
module StableKey {
  import opened Options
  import opened Text
  import Json

  /** A digest is not empty and holds neither a colon nor white space. */
  predicate Plain(digest: string) {
    digest != "" && forall i :: 0 <= i < |digest| ==> digest[i] != ':' && !IsSpace(digest[i])
  }

  /** Distinct payloads never share a digest. Digests have no fixed length: see `ExtendedIsIdeal`. */
  ghost predicate Ideal(hash: string -> string) {
    && (forall a, b :: hash(a) == hash(b) ==> a == b)
    && (forall a :: Plain(hash(a)))
  }

  /** Two payloads that do not collide under a hash. */
  predicate Apart(hash: string -> string, a: string, b: string) {
    Plain(hash(a)) && Plain(hash(b)) && (hash(a) == hash(b) ==> a == b)
  }

  // -------------------------------------------------------------------------
  // Ideal hashes exist, and stand for one of 64 characters
  // -------------------------------------------------------------------------

  function Ones(n: nat): string {
    seq(n, _ => '1')
  }

  /** Each character as so many ones, and a zero after it. */
  function Unary(s: string): string {
    if s == "" then "" else Ones(s[0] as int) + "0" + Unary(s[1..])
  }

  lemma {:induction false} UnaryIsBinary(s: string)
    ensures forall i :: 0 <= i < |Unary(s)| ==> Unary(s)[i] == '0' || Unary(s)[i] == '1'
  {
    if s != "" {
      UnaryIsBinary(s[1..]);
    }
  }

  lemma {:induction false} UnaryIsInjective(a: string, b: string)
    requires Unary(a) == Unary(b)
    ensures a == b
  {
    if a == "" || b == "" {
      assert a != "" ==> |Unary(a)| > 0;
      assert b != "" ==> |Unary(b)| > 0;
    } else {
      var n, m, u := a[0] as int, b[0] as int, Unary(a);
      assert u[n] == '0' && u[m] == '0';
      assert forall i :: 0 <= i < n ==> u[i] == '1';
      assert forall i :: 0 <= i < m ==> u[i] == '1';
      assert n == m;
      assert u[n + 1..] == Unary(a[1..]) && u[m + 1..] == Unary(b[1..]);
      UnaryIsInjective(a[1..], b[1..]);
      assert a == [a[0]] + a[1..] && b == [b[0]] + b[1..];
    }
  }

  /** A hash that is ideal, with digests of more than 64 characters. */
  function Spelled(payload: string): string {
    Ones(65) + Unary(payload)
  }

  lemma SpelledIsIdeal()
    ensures Ideal(Spelled)
  {
    forall a ensures Plain(Spelled(a)) {
      UnaryIsBinary(a);
    }
    forall a, b | Spelled(a) == Spelled(b) ensures a == b {
      assert Spelled(a)[65..] == Unary(a) && Spelled(b)[65..] == Unary(b);
      UnaryIsInjective(a, b);
    }
  }

  /** Digests of 64 characters, among which the payloads that are `met` do not collide. */
  ghost predicate SeparatesWhatIsMet(hash: string -> string, met: string -> bool) {
    && (forall a :: met(a) ==> |hash(a)| == 64 && Plain(hash(a)))
    && (forall a, b :: met(a) && met(b) && hash(a) == hash(b) ==> a == b)
  }

  function Extended(hash: string -> string, met: string -> bool): string -> string {
    payload => if met(payload) then hash(payload) else Spelled(payload)
  }

  /**
   * A hash of 64 characters agrees with an ideal one on any payloads that do not collide; so what is proved of ideal
   * hashes holds of SHA-256 as long as no two of the payloads that are ever hashed do.
   */
  lemma ExtendedIsIdeal(hash: string -> string, met: string -> bool)
    requires SeparatesWhatIsMet(hash, met)
    ensures Ideal(Extended(hash, met))
    ensures forall payload :: met(payload) ==> Extended(hash, met)(payload) == hash(payload)
  {
    SpelledIsIdeal();
    var f := Extended(hash, met);
    forall a, b | f(a) == f(b) ensures a == b {
      assert |Spelled(a)| > 64 && |Spelled(b)| > 64;
    }
    forall a ensures Plain(f(a)) {
    }
  }

  // -------------------------------------------------------------------------
  // Keys
  // -------------------------------------------------------------------------

  function TrimAll(parts: seq<string>): seq<string> {
    seq(|parts|, i requires 0 <= i < |parts| => Trim(parts[i]))
  }

  predicate AnyBlank(parts: seq<string>) {
    exists i :: 0 <= i < |parts| && Trim(parts[i]) == ""
  }

  function Payload(namespace: string, parts: seq<string>): string {
    Json.PrintArray(["v1", Trim(namespace)] + TrimAll(parts), false)
  }

  /** The key, or `None` where a blank component raises. */
  function Key(hash: string -> string, namespace: string, parts: seq<string>): Option<string> {
    if Trim(namespace) == "" || AnyBlank(parts) then None
    else Some(Trim(namespace) + ":v1:" + hash(Payload(namespace, parts)))
  }

  /** The payload reads back as the version, the namespace and the parts it was made of, up to trimming. */
  lemma PayloadReadsBack(namespace: string, parts: seq<string>)
    ensures Json.ParseArray(Payload(namespace, parts)) ==
      Json.Parsed(["v1", Trim(namespace)] + TrimAll(parts), "")
  {
    Json.ParseInvertsArray(["v1", Trim(namespace)] + TrimAll(parts), false);
  }

  lemma SameSuffix(a: string, b: string, x: string, y: string)
    requires a + x == b + y && |x| == |y|
    ensures a == b && x == y
  {
    assert |a| == |b|;
    assert (a + x)[..|a|] == a && (b + y)[..|b|] == b;
    assert (a + x)[|a|..] == x && (b + y)[|b|..] == y;
  }

  lemma SameLastPart(a: string, b: string, x: string, y: string)
    requires a + ":" + x == b + ":" + y && Plain(x) && Plain(y)
    ensures a == b && x == y
  {
    var s := a + ":" + x;
    assert s[|a|] == ':' && s[|b|] == ':';
    assert forall i :: |a| < i < |s| ==> s[i] == x[i - |a| - 1];
    assert forall i :: |b| < i < |s| ==> s[i] == y[i - |b| - 1];
    assert |a| == |b|;
    SameSuffix(a + ":", b + ":", x, y);
    SameSuffix(a, b, ":", ":");
  }

  /** Unless their payloads collide, keys agree exactly when namespace and parts do, up to trimming. */
  lemma KeysAreInjective(hash: string -> string, n1: string, p1: seq<string>, n2: string, p2: seq<string>)
    requires Apart(hash, Payload(n1, p1), Payload(n2, p2))
    requires Key(hash, n1, p1).Some? && Key(hash, n2, p2).Some?
    ensures Key(hash, n1, p1) == Key(hash, n2, p2) <==> Trim(n1) == Trim(n2) && TrimAll(p1) == TrimAll(p2)
  {
    var a, b := Payload(n1, p1), Payload(n2, p2);
    if Key(hash, n1, p1) == Key(hash, n2, p2) {
      assert Trim(n1) + ":v1:" == Trim(n1) + ":v1" + ":" && Trim(n2) + ":v1:" == Trim(n2) + ":v1" + ":";
      SameLastPart(Trim(n1) + ":v1", Trim(n2) + ":v1", hash(a), hash(b));
      PayloadReadsBack(n1, p1);
      PayloadReadsBack(n2, p2);
      var l1, l2 := ["v1", Trim(n1)] + TrimAll(p1), ["v1", Trim(n2)] + TrimAll(p2);
      assert l1 == l2;
      assert l1[1] == Trim(n1) && l2[1] == Trim(n2);
      assert l1[2..] == TrimAll(p1) && l2[2..] == TrimAll(p2);
    }
  }

  // -------------------------------------------------------------------------
  // Drive identities
  // -------------------------------------------------------------------------

  const DRIVE := "GOOGLE_DRIVE:"
  const FOLDER := "drive-folder:"

  function RegistrationKey(hash: string -> string, folder: string, workspace: string): Option<string> {
    Key(hash, "source-registration", DriveParts(folder, workspace))
  }

  function DriveParts(folder: string, workspace: string): seq<string> {
    [DRIVE + folder, workspace, FOLDER + folder]
  }

  function RegistrationPayload(folder: string, workspace: string): string {
    Payload("source-registration", DriveParts(folder, workspace))
  }

  lemma {:induction false} TrimRightStopsAt(prefix: string, s: string)
    requires prefix != [] && !IsSpace(prefix[|prefix| - 1])
    ensures TrimRight(prefix + s) == prefix + TrimRight(s)
    decreases |s|
  {
    if s == [] {
      assert prefix + s == prefix;
    } else {
      var whole := prefix + s;
      assert whole[|whole| - 1] == s[|s| - 1];
      if IsSpace(s[|s| - 1]) {
        assert whole[..|whole| - 1] == prefix + s[..|s| - 1];
        TrimRightStopsAt(prefix, s[..|s| - 1]);
      }
    }
  }

  /** A label in front keeps leading white space; only trailing white space goes. */
  lemma TrimLabelled(tag: string, s: string)
    requires tag != [] && !IsSpace(tag[0]) && !IsSpace(tag[|tag| - 1])
    ensures Trim(tag + s) == tag + TrimRight(s)
  {
    assert (tag + s)[0] == tag[0];
    TrimRightStopsAt(tag, s);
  }

  lemma TrimDrive(folder: string)
    ensures Trim(DRIVE + folder) == DRIVE + TrimRight(folder)
    ensures Trim(FOLDER + folder) == FOLDER + TrimRight(folder)
  {
    TrimLabelled(DRIVE, folder);
    TrimLabelled(FOLDER, folder);
  }

  lemma RegistrationKeyExists(hash: string -> string, folder: string, workspace: string)
    ensures RegistrationKey(hash, folder, workspace).Some? <==> Trim(workspace) != ""
  {
    TrimDrive(folder);
    TrimLabelled("source-registration", "");
    assert "source-registration" + "" == "source-registration";
    var parts := DriveParts(folder, workspace);
    assert Trim(parts[0]) != "" && Trim(parts[2]) != "" && parts[1] == workspace;
  }

  lemma TrimmedParts(folder: string, workspace: string)
    ensures TrimAll(DriveParts(folder, workspace)) == DriveParts(TrimRight(folder), Trim(workspace))
  {
    TrimDrive(folder);
  }

  lemma PartsAgree(f1: string, w1: string, f2: string, w2: string)
    ensures DriveParts(f1, w1) == DriveParts(f2, w2) <==> f1 == f2 && w1 == w2
  {
    var p1, p2 := DriveParts(f1, w1), DriveParts(f2, w2);
    assert p1[0][|DRIVE|..] == f1 && p2[0][|DRIVE|..] == f2;
    assert p1[1] == w1 && p2[1] == w2;
  }

  /**
   * Unless their payloads collide, folder and workspace pairs share a Drive registration key exactly when the
   * folders agree up to trailing white space and the workspaces up to surrounding white space.
   */
  lemma RegistrationKeysAreDistinct(hash: string -> string, f1: string, w1: string, f2: string, w2: string)
    requires Apart(hash, RegistrationPayload(f1, w1), RegistrationPayload(f2, w2)) && Trim(w1) != "" && Trim(w2) != ""
    ensures RegistrationKey(hash, f1, w1) == RegistrationKey(hash, f2, w2) <==>
      TrimRight(f1) == TrimRight(f2) && Trim(w1) == Trim(w2)
  {
    RegistrationKeyExists(hash, f1, w1);
    RegistrationKeyExists(hash, f2, w2);
    KeysAreInjective(hash, "source-registration", DriveParts(f1, w1), "source-registration", DriveParts(f2, w2));
    TrimmedParts(f1, w1);
    TrimmedParts(f2, w2);
    PartsAgree(TrimRight(f1), Trim(w1), TrimRight(f2), Trim(w2));
  }

  lemma TrimRightDropsABlank(s: string)
    ensures TrimRight(s + " ") == TrimRight(s)
  {
    assert (s + " ")[..|s|] == s;
  }

  /** What a Drive registration key is made of: its name, and the digest of folder and workspace under fixed labels. */
  lemma RegistrationKeyHolds(hash: string -> string, folder: string, workspace: string)
    requires Trim(workspace) != ""
    ensures RegistrationKey(hash, folder, workspace)
      == Some("source-registration:v1:" + hash(RegistrationPayload(folder, workspace)))
    ensures Json.ParseArray(RegistrationPayload(folder, workspace)) ==
      Json.Parsed(
        ["v1", "source-registration", "GOOGLE_DRIVE:" + TrimRight(folder), Trim(workspace),
         "drive-folder:" + TrimRight(folder)], "")
  {
    RegistrationKeyExists(hash, folder, workspace);
    TrimUntouched("source-registration");
    assert "source-registration" + ":v1:" == "source-registration:v1:";
    PayloadReadsBack("source-registration", DriveParts(folder, workspace));
    TrimmedParts(folder, workspace);
    assert ["v1", "source-registration"] + DriveParts(TrimRight(folder), Trim(workspace)) ==
      ["v1", "source-registration", DRIVE + TrimRight(folder), Trim(workspace), FOLDER + TrimRight(folder)];
  }

  /** Two folders that differ only in a trailing blank do share a key, whatever the hash. */
  lemma TrailingBlankSharesAKey(hash: string -> string, folder: string, workspace: string)
    ensures folder + " " != folder
    ensures RegistrationKey(hash, folder, workspace) == RegistrationKey(hash, folder + " ", workspace)
  {
    assert |folder + " "| == |folder| + 1;
    TrimRightDropsABlank(folder);
    TrimmedParts(folder, workspace);
    TrimmedParts(folder + " ", workspace);
    RegistrationKeyExists(hash, folder, workspace);
    RegistrationKeyExists(hash, folder + " ", workspace);
  }

  function ConnectionId(hash: string -> string, folder: string): Option<string> {
    Key(hash, "source-connection", ["GOOGLE_DRIVE", DRIVE + folder])
  }

  function ConnectionPayload(folder: string): string {
    Payload("source-connection", ["GOOGLE_DRIVE", DRIVE + folder])
  }

  function ScopeKey(folder: string, workspace: string): string {
    "vws:" + workspace + "|scope:" + FOLDER + folder
  }

  /** The canonical source workspace of a folder mounted in a workspace. */
  function SourceWorkspaceId(hash: string -> string, folder: string, workspace: string): Option<string> {
    if ConnectionId(hash, folder).None? then None
    else Key(hash, "source-workspace", [ConnectionId(hash, folder).value, ScopeKey(folder, workspace)])
  }

  function SourcePayload(connection: string, folder: string, workspace: string): string {
    Payload("source-workspace", [connection, ScopeKey(folder, workspace)])
  }

  lemma TrimUntouched(s: string)
    requires s != [] && !IsSpace(s[0]) && !IsSpace(s[|s| - 1])
    ensures Trim(s) == s
  {
  }

  lemma ConnectionIdExists(hash: string -> string, folder: string)
    requires Ideal(hash)
    ensures ConnectionId(hash, folder).Some?
    ensures Trim(ConnectionId(hash, folder).value) == ConnectionId(hash, folder).value != ""
  {
    TrimDrive(folder);
    TrimUntouched("source-connection");
    TrimUntouched("GOOGLE_DRIVE");
    var parts := ["GOOGLE_DRIVE", DRIVE + folder];
    assert Trim(parts[0]) != "" && Trim(parts[1]) != "";
    var digest := hash(Payload("source-connection", parts));
    var id := "source-connection:v1:" + digest;
    assert "source-connection" + ":v1:" == "source-connection:v1:";
    assert ConnectionId(hash, folder).value == id;
    assert id[0] == 's' && id[|id| - 1] == digest[|digest| - 1];
    TrimUntouched(id);
  }

  lemma ConnectionIdsAreDistinct(hash: string -> string, f1: string, f2: string)
    requires Ideal(hash)
    ensures ConnectionId(hash, f1) == ConnectionId(hash, f2) <==> TrimRight(f1) == TrimRight(f2)
  {
    ConnectionIdExists(hash, f1);
    ConnectionIdExists(hash, f2);
    var p1, p2 := ["GOOGLE_DRIVE", DRIVE + f1], ["GOOGLE_DRIVE", DRIVE + f2];
    KeysAreInjective(hash, "source-connection", p1, "source-connection", p2);
    TrimDrive(f1);
    TrimDrive(f2);
    var t1, t2 := TrimAll(p1), TrimAll(p2);
    assert t1[1] == DRIVE + TrimRight(f1) && t2[1] == DRIVE + TrimRight(f2);
    assert (DRIVE + TrimRight(f1))[|DRIVE|..] == TrimRight(f1) && (DRIVE + TrimRight(f2))[|DRIVE|..] == TrimRight(f2);
    if TrimRight(f1) == TrimRight(f2) {
      assert t1 == t2;
    }
  }

  lemma TrimScopeKey(folder: string, workspace: string)
    ensures Trim(ScopeKey(folder, workspace)) == ("vws:" + workspace + "|scope:") + (FOLDER + TrimRight(folder))
  {
    var tag := "vws:" + workspace + "|scope:" + FOLDER;
    assert tag[0] == 'v' && tag[|tag| - 1] == ':';
    assert ScopeKey(folder, workspace) == tag + folder;
    TrimLabelled(tag, folder);
    assert tag + TrimRight(folder) == ("vws:" + workspace + "|scope:") + (FOLDER + TrimRight(folder));
  }

  lemma SourceWorkspaceIdExists(hash: string -> string, folder: string, workspace: string)
    requires Ideal(hash)
    ensures SourceWorkspaceId(hash, folder, workspace).Some?
  {
    ConnectionIdExists(hash, folder);
    TrimScopeKey(folder, workspace);
    TrimUntouched("source-workspace");
    var parts := [ConnectionId(hash, folder).value, ScopeKey(folder, workspace)];
    assert Trim(parts[0]) != "" && Trim(parts[1]) != "";
  }

  lemma TwoPartsReadBack(namespace: string, a: string, b: string)
    ensures Json.ParseArray(Payload(namespace, [a, b])) == Json.Parsed(["v1", Trim(namespace), Trim(a), Trim(b)], "")
  {
    PayloadReadsBack(namespace, [a, b]);
    assert TrimAll([a, b]) == [Trim(a), Trim(b)];
    assert ["v1", Trim(namespace)] + [Trim(a), Trim(b)] == ["v1", Trim(namespace), Trim(a), Trim(b)];
  }

  /** What the id of a Drive connection is a digest of. */
  lemma ConnectionIdHolds(folder: string)
    ensures Json.ParseArray(ConnectionPayload(folder)) ==
      Json.Parsed(["v1", "source-connection", "GOOGLE_DRIVE", "GOOGLE_DRIVE:" + TrimRight(folder)], "")
  {
    TwoPartsReadBack("source-connection", "GOOGLE_DRIVE", DRIVE + folder);
    TrimUntouched("source-connection");
    TrimUntouched("GOOGLE_DRIVE");
    TrimDrive(folder);
  }

  /** What the id of a source workspace is a digest of. */
  lemma SourceWorkspaceIdHolds(connection: string, folder: string, workspace: string)
    ensures Json.ParseArray(SourcePayload(connection, folder, workspace)) ==
      Json.Parsed(["v1", "source-workspace", Trim(connection),
                   ("vws:" + workspace + "|scope:") + ("drive-folder:" + TrimRight(folder))], "")
  {
    TwoPartsReadBack("source-workspace", connection, ScopeKey(folder, workspace));
    TrimUntouched("source-workspace");
    TrimScopeKey(folder, workspace);
  }

  /** A source workspace belongs to one Risk Workspace and has one registration key. */
  lemma SourceWorkspaceDeterminesTheKey(hash: string -> string, f1: string, w1: string, f2: string, w2: string)
    requires Ideal(hash) && Trim(w1) != "" && Trim(w2) != ""
    requires SourceWorkspaceId(hash, f1, w1) == SourceWorkspaceId(hash, f2, w2)
    ensures w1 == w2 && RegistrationKey(hash, f1, w1) == RegistrationKey(hash, f2, w2)
  {
    ConnectionIdExists(hash, f1);
    ConnectionIdExists(hash, f2);
    SourceWorkspaceIdExists(hash, f1, w1);
    SourceWorkspaceIdExists(hash, f2, w2);
    var c1, c2 := ConnectionId(hash, f1).value, ConnectionId(hash, f2).value;
    var p1, p2 := [c1, ScopeKey(f1, w1)], [c2, ScopeKey(f2, w2)];
    KeysAreInjective(hash, "source-workspace", p1, "source-workspace", p2);
    assert TrimAll(p1)[0] == c1 && TrimAll(p2)[0] == c2;
    ConnectionIdsAreDistinct(hash, f1, f2);
    assert TrimAll(p1)[1] == Trim(ScopeKey(f1, w1)) && TrimAll(p2)[1] == Trim(ScopeKey(f2, w2));
    TrimScopeKey(f1, w1);
    TrimScopeKey(f2, w2);
    SameSuffix("vws:" + w1 + "|scope:", "vws:" + w2 + "|scope:", FOLDER + TrimRight(f1), FOLDER + TrimRight(f2));
    assert ("vws:" + w1 + "|scope:")[4..4 + |w1|] == w1 && ("vws:" + w2 + "|scope:")[4..4 + |w2|] == w2;
    RegistrationKeysAreDistinct(hash, f1, w1, f2, w2);
  }
}
