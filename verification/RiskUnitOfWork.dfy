/** Excluding and reviving all risks of an artifact or a mount, inside one unit of work. */
module RiskUnitOfWork {
  import opened Options
  import opened RiskLedger
  import opened RiskRuns
  import opened RiskSteps

  /** The rows of `hit` are closed, and no other row has changed. */
  ghost predicate ClosesExactly(was: seq<Risk>, risks: seq<Risk>, at: int, hit: Risk -> bool) {
    && |risks| == |was|
    && forall i :: 0 <= i < |was| ==> if hit(was[i]) then ClosedAt(was[i], risks[i], at) else risks[i] == was[i]
  }

  ghost predicate RevivesExactly(was: seq<Risk>, risks: seq<Risk>, at: int, hit: Risk -> bool) {
    && |risks| == |was|
    && forall i :: 0 <= i < |was| ==> if hit(was[i]) then BackAt(was[i], risks[i], at) else risks[i] == was[i]
  }

  predicate Selected(r: Risk, workspace: string, artifacts: set<string>) {
    r.workspace == workspace && r.artifact in artifacts
  }

  // -------------------------------------------------------------------------
  // Bulk operations as sequences of single-risk steps; `ids[i]` is the event id offered to risk `i`
  // -------------------------------------------------------------------------

  function ExcludeUpTo(l: Ledger, n: nat, workspace: string, artifacts: set<string>, at: int,
                       ids: seq<string>): (t: Ledger)
    requires n <= |l.risks| == |ids|
    ensures |t.risks| == |l.risks|
  {
    if n == 0 then l
    else
      var t := ExcludeUpTo(l, n - 1, workspace, artifacts, at, ids);
      if Selected(l.risks[n - 1], workspace, artifacts) then ExcludeOne(t, n - 1, at, ids[n - 1]) else t
  }

  function ReviveUpTo(l: Ledger, n: nat, workspace: string, artifact: string, back: Option<string>, at: int,
                      ids: seq<string>): (t: Ledger)
    requires n <= |l.risks| == |ids|
    ensures |t.risks| == |l.risks|
  {
    if n == 0 then l
    else
      var t := ReviveUpTo(l, n - 1, workspace, artifact, back, at, ids);
      if Selected(l.risks[n - 1], workspace, {artifact}) then ReviveOne(t, n - 1, back, at, ids[n - 1]) else t
  }

  predicate Closes(r: Risk, workspace: string, artifacts: set<string>) {
    Selected(r, workspace, artifacts) && r.disposition != EXCLUDED
  }

  /** The records of the risks that an exclusion closes, in listing order. */
  function Closings(risks: seq<Risk>, workspace: string, artifacts: set<string>, at: int, ids: seq<string>): seq<Event>
    requires |risks| == |ids|
  {
    if risks == [] then []
    else
      var n := |risks| - 1;
      Closings(risks[..n], workspace, artifacts, at, ids[..n])
      + (if Closes(risks[n], workspace, artifacts) then [ExclusionEvent(risks[n], at, ids[n])] else [])
  }

  /** Exactly the selected, not yet excluded risks change; each change appends exactly its own record. */
  lemma {:induction false} ExclusionIsExact(
      l: Ledger, n: nat, workspace: string, artifacts: set<string>, at: int, ids: seq<string>)
    requires n <= |l.risks| == |ids|
    ensures var t := ExcludeUpTo(l, n, workspace, artifacts, at, ids);
      && t.events == l.events + Closings(l.risks[..n], workspace, artifacts, at, ids[..n])
      && forall i :: 0 <= i < |l.risks| ==>
           t.risks[i] == if i < n && Closes(l.risks[i], workspace, artifacts) then ExcludedRisk(l.risks[i], at)
                         else l.risks[i]
  {
    if n > 0 {
      ExclusionIsExact(l, n - 1, workspace, artifacts, at, ids);
      assert l.risks[..n][..n - 1] == l.risks[..n - 1] && ids[..n][..n - 1] == ids[..n - 1];
    }
  }

  lemma {:induction false} NothingToClose(
      l: Ledger, n: nat, workspace: string, artifacts: set<string>, at: int, ids: seq<string>)
    requires n <= |l.risks| == |ids|
    requires forall i :: 0 <= i < n ==> !Closes(l.risks[i], workspace, artifacts)
    ensures ExcludeUpTo(l, n, workspace, artifacts, at, ids) == l
  {
    if n > 0 {
      NothingToClose(l, n - 1, workspace, artifacts, at, ids);
    }
  }

  /** A bulk exclusion closes exactly the not yet excluded risks of those artifacts, and leaves every other row. */
  lemma ExclusionInFields(l: Ledger, workspace: string, artifacts: set<string>, at: int, ids: seq<string>)
    requires |ids| == |l.risks|
    ensures ClosesExactly(
      l.risks, ExcludeUpTo(l, |ids|, workspace, artifacts, at, ids).risks, at,
      (r: Risk) => r.workspace == workspace && r.artifact in artifacts && r.disposition != EXCLUDED)
  {
    ExclusionIsExact(l, |ids|, workspace, artifacts, at, ids);
    forall i | 0 <= i < |l.risks| ensures ClosedAt(l.risks[i], ExcludedRisk(l.risks[i], at), at) {
      ClosingLeaves(l.risks[i], at, ids[i]);
    }
  }

  /** Excluding the same set again, at any later or earlier time, changes nothing. */
  lemma ExcludingTwiceEqualsOnce(
      l: Ledger, workspace: string, artifacts: set<string>, at: int, ids: seq<string>, again: int, more: seq<string>)
    requires |l.risks| == |ids| == |more|
    ensures var once := ExcludeUpTo(l, |l.risks|, workspace, artifacts, at, ids);
      ExcludeUpTo(once, |l.risks|, workspace, artifacts, again, more) == once
  {
    ExclusionIsExact(l, |l.risks|, workspace, artifacts, at, ids);
    var once := ExcludeUpTo(l, |l.risks|, workspace, artifacts, at, ids);
    NothingToClose(once, |l.risks|, workspace, artifacts, again, more);
  }

  ghost predicate FreshIds(l: Ledger, ids: seq<string>) {
    && |ids| == |l.risks|
    && (forall i, j :: 0 <= i < j < |ids| ==> ids[i] != ids[j])
    && forall i :: 0 <= i < |ids| ==> Fresh(l, ids[i])
  }

  /** Every ledger invariant survives a bulk exclusion, and unused ids stay fresh. */
  lemma {:induction false} ExcludeKeepsInv(
      l: Ledger, n: nat, workspace: string, artifacts: set<string>, at: int, ids: seq<string>)
    requires Inv(l) && FreshIds(l, ids) && n <= |l.risks|
    ensures Inv(ExcludeUpTo(l, n, workspace, artifacts, at, ids))
    ensures forall i :: n <= i < |ids| ==> Fresh(ExcludeUpTo(l, n, workspace, artifacts, at, ids), ids[i])
  {
    if n > 0 {
      ExcludeKeepsInv(l, n - 1, workspace, artifacts, at, ids);
      var t := ExcludeUpTo(l, n - 1, workspace, artifacts, at, ids);
      if Selected(l.risks[n - 1], workspace, artifacts) {
        StepKeepsInv(t, Exclude(n - 1, at, ids[n - 1]));
      }
    }
  }

  lemma {:induction false} ReviveKeepsInv(
      l: Ledger, n: nat, workspace: string, artifact: string, back: Option<string>, at: int, ids: seq<string>)
    requires Inv(l) && FreshIds(l, ids) && n <= |l.risks|
    ensures Inv(ReviveUpTo(l, n, workspace, artifact, back, at, ids))
    ensures forall i :: n <= i < |ids| ==> Fresh(ReviveUpTo(l, n, workspace, artifact, back, at, ids), ids[i])
  {
    if n > 0 {
      ReviveKeepsInv(l, n - 1, workspace, artifact, back, at, ids);
      var t := ReviveUpTo(l, n - 1, workspace, artifact, back, at, ids);
      if Selected(l.risks[n - 1], workspace, {artifact}) {
        StepKeepsInv(t, Revive(n - 1, back, at, ids[n - 1]));
      }
    }
  }

  lemma {:induction false} ListingIgnoresOthers(events: seq<Event>, e: Event, risk: string)
    requires e.risk != risk
    ensures ListEvents(events + [e], risk) == ListEvents(events, risk)
  {
    assert (events + [e])[..|events|] == events;
  }

  /** Reviving one risk reads its own row and listing only, and adds to no other listing. */
  lemma RevivalIsLocal(l: Ledger, t: Ledger, k: nat, back: Option<string>, at: int, id: string)
    requires k < |l.risks| == |t.risks| && t.risks[k] == l.risks[k]
    requires ListEvents(t.events, l.risks[k].id) == ListEvents(l.events, l.risks[k].id)
    ensures ReviveOne(t, k, back, at, id).risks == t.risks[k := ReviveOne(l, k, back, at, id).risks[k]]
    ensures forall risk :: risk != l.risks[k].id ==>
      ListEvents(ReviveOne(t, k, back, at, id).events, risk) == ListEvents(t.events, risk)
    ensures ReviveOne(t, k, back, at, id).events == t.events
      + if t.risks[k].disposition == EXCLUDED then [Reopening(ReviveOne(l, k, back, at, id).risks[k], id)] else []
  {
    var u := ReviveOne(t, k, back, at, id);
    if u != t {
      forall risk | risk != l.risks[k].id ensures ListEvents(u.events, risk) == ListEvents(t.events, risk) {
        ListingIgnoresOthers(t.events, u.events[|t.events|], risk);
      }
    }
  }

  predicate Reopens(r: Risk, workspace: string, artifact: string) {
    Selected(r, workspace, {artifact}) && r.disposition == EXCLUDED
  }

  /** The record of one revival: it states the disposition that came back, at the time the risk was updated. */
  function Reopening(revived: Risk, id: string): Event {
    Event(id, revived.id, Reopened, revived.updated, Some(EXCLUDED), None, Some(revived.disposition))
  }

  /** The records of the risks revived among the first `n`, in listing order. */
  function Reopenings(
      l: Ledger, n: nat, workspace: string, artifact: string, back: Option<string>, at: int, ids: seq<string>)
    : seq<Event>
    requires n <= |l.risks| == |ids|
  {
    if n == 0 then []
    else
      Reopenings(l, n - 1, workspace, artifact, back, at, ids)
      + if Reopens(l.risks[n - 1], workspace, artifact)
        then [Reopening(ReviveOne(l, n - 1, back, at, ids[n - 1]).risks[n - 1], ids[n - 1])] else []
  }

  /** What reviving the selected ones among the first `n` risks leaves. */
  ghost predicate RevivedExactly(
      l: Ledger, t: Ledger, n: nat, workspace: string, artifact: string, back: Option<string>, at: int,
      ids: seq<string>)
    requires n <= |l.risks| == |ids|
  {
    && |t.risks| == |l.risks|
    && t.events == l.events + Reopenings(l, n, workspace, artifact, back, at, ids)
    && (forall i :: 0 <= i < |l.risks| ==>
          t.risks[i] == if i < n && Selected(l.risks[i], workspace, {artifact})
                        then ReviveOne(l, i, back, at, ids[i]).risks[i] else l.risks[i])
    && (forall i :: n <= i < |l.risks| ==>
          ListEvents(t.events, l.risks[i].id) == ListEvents(l.events, l.risks[i].id))
  }

  lemma OneMoreRevived(
      l: Ledger, t: Ledger, n: nat, workspace: string, artifact: string, back: Option<string>, at: int,
      ids: seq<string>)
    requires n < |l.risks| == |ids| && forall i :: n < i < |l.risks| ==> l.risks[i].id != l.risks[n].id
    requires RevivedExactly(l, t, n, workspace, artifact, back, at, ids)
    ensures RevivedExactly(
      l, if Selected(l.risks[n], workspace, {artifact}) then ReviveOne(t, n, back, at, ids[n]) else t,
      n + 1, workspace, artifact, back, at, ids)
  {
    if Selected(l.risks[n], workspace, {artifact}) {
      var u := ReviveOne(t, n, back, at, ids[n]);
      RevivalIsLocal(l, t, n, back, at, ids[n]);
      assert t.risks[n] == l.risks[n];
      OneMoreReopening(l, t, n, workspace, artifact, back, at, ids);
      assert forall i :: n < i < |l.risks| ==>
        ListEvents(u.events, l.risks[i].id) == ListEvents(l.events, l.risks[i].id);
    }
  }

  lemma OneMoreReopening(
      l: Ledger, t: Ledger, n: nat, workspace: string, artifact: string, back: Option<string>, at: int,
      ids: seq<string>)
    requires n < |l.risks| == |ids| && |t.risks| == |l.risks| && t.risks[n] == l.risks[n]
    requires Selected(l.risks[n], workspace, {artifact})
    requires t.events == l.events + Reopenings(l, n, workspace, artifact, back, at, ids)
    requires ReviveOne(t, n, back, at, ids[n]).events == t.events
      + if t.risks[n].disposition == EXCLUDED
        then [Reopening(ReviveOne(l, n, back, at, ids[n]).risks[n], ids[n])] else []
    ensures ReviveOne(t, n, back, at, ids[n]).events
      == l.events + Reopenings(l, n + 1, workspace, artifact, back, at, ids)
  {
    var before := Reopenings(l, n, workspace, artifact, back, at, ids);
    var more := Reopening(ReviveOne(l, n, back, at, ids[n]).risks[n], ids[n]);
    assert (l.events + before) + [more] == l.events + (before + [more]);
    assert before + [] == before && t.events + [] == t.events;
  }

  /**
   * Reviving in bulk gives each risk what reviving it alone gives, leaves every other risk alone, and appends
   * exactly one record for each risk that comes back.
   */
  lemma {:induction false} RevivalIsExact(
      l: Ledger, n: nat, workspace: string, artifact: string, back: Option<string>, at: int, ids: seq<string>)
    requires Inv(l) && n <= |l.risks| == |ids|
    ensures RevivedExactly(
      l, ReviveUpTo(l, n, workspace, artifact, back, at, ids), n, workspace, artifact, back, at, ids)
  {
    if n > 0 {
      RevivalIsExact(l, n - 1, workspace, artifact, back, at, ids);
      var t := ReviveUpTo(l, n - 1, workspace, artifact, back, at, ids);
      OneMoreRevived(l, t, n - 1, workspace, artifact, back, at, ids);
    }
  }

  /** A bulk revival brings back exactly the excluded risks of the artifact, and leaves every other row. */
  lemma RevivalInFields(
      l: Ledger, workspace: string, artifact: string, back: Option<string>, at: int, ids: seq<string>)
    requires Inv(l) && |ids| == |l.risks|
    ensures RevivesExactly(
      l.risks, ReviveUpTo(l, |ids|, workspace, artifact, back, at, ids).risks, at,
      (r: Risk) => r.workspace == workspace && r.artifact == artifact && r.disposition == EXCLUDED)
  {
    RevivalIsExact(l, |ids|, workspace, artifact, back, at, ids);
    forall i | 0 <= i < |l.risks| && l.risks[i].disposition == EXCLUDED
      ensures BackAt(l.risks[i], ReviveOne(l, i, back, at, ids[i]).risks[i], at)
    {
      RevivalLeaves(l, i, back, at, ids[i]);
    }
  }

  lemma RevivalStep(
      l: Ledger, i: nat, workspace: string, artifact: string, back: Option<string>, at: int, ids: seq<string>)
    requires Inv(l) && i < |l.risks| == |ids|
    ensures var t, u := ReviveUpTo(l, i, workspace, artifact, back, at, ids),
                        ReviveUpTo(l, i + 1, workspace, artifact, back, at, ids);
      && t.risks[i] == l.risks[i]
      && u == if Selected(t.risks[i], workspace, {artifact}) && t.risks[i].disposition == EXCLUDED
              then ReviveOne(t, i, back, at, ids[i]) else t
  {
    RevivalIsExact(l, i, workspace, artifact, back, at, ids);
  }

  // -------------------------------------------------------------------------
  // The unit of work
  // -------------------------------------------------------------------------

  class UnitOfWork {
    var risks: seq<Risk>   // in listing order
    var events: seq<Event> // in the order they were appended

    ghost function View(): Ledger
      reads this
    {
      Ledger(risks, events)
    }

    /** Replaces the `i`-th risk, or refuses: an unknown risk, another identity or a wrong version. */
    method Save(i: nat, next: Risk) returns (ok: bool)
      modifies this`risks
      ensures ok <==> i < |old(risks)| && IsSuccessor(old(risks)[i], next)
      ensures risks == if ok then old(risks)[i := next] else old(risks)
    {
      ok := i < |risks| && SaveAllowed(risks[i], next) && WellFormed(next);
      if ok {
        risks := risks[i := next];
      }
    }

    /** Appends, or refuses an id already used or a risk that does not exist. */
    method AppendEvent(e: Event) returns (ok: bool)
      modifies this`events
      ensures ok <==> Fresh(old(View()), e.id) && exists r :: r in risks && r.id == e.risk
      ensures events == if ok then old(events) + [e] else old(events)
    {
      ok := (forall x :: x in events ==> x.id != e.id) && exists r :: r in risks && r.id == e.risk;
      if ok {
        events := events + [e];
      }
    }

    method ExcludeRisks(workspace: string, artifacts: set<string>, at: int, ids: seq<string>)
      returns (excluded: seq<string>)
      requires Inv(View()) && FreshIds(View(), ids)
      modifies this
      ensures Inv(View())
      ensures View() == ExcludeUpTo(old(View()), |ids|, workspace, artifacts, at, ids)
      ensures ClosesExactly(
        old(risks), risks, at,
        (r: Risk) => r.workspace == workspace && r.artifact in artifacts && r.disposition != EXCLUDED)
      ensures |events| == |old(events)| + |excluded|
      ensures forall k :: 0 <= k < |excluded| ==> events[|old(events)| + k].risk == excluded[k]
    {
      excluded := [];
      for i := 0 to |risks|
        invariant |risks| == |ids|
        invariant View() == ExcludeUpTo(old(View()), i, workspace, artifacts, at, ids)
        invariant |events| == |old(events)| + |excluded|
        invariant forall k :: 0 <= k < |excluded| ==> events[|old(events)| + k].risk == excluded[k]
      {
        ExcludeKeepsInv(old(View()), i, workspace, artifacts, at, ids);
        ExclusionIsExact(old(View()), i, workspace, artifacts, at, ids);
        var r := risks[i];
        if Selected(r, workspace, artifacts) && r.disposition != EXCLUDED {
          SavesAreAllowed(View(), Exclude(i, at, ids[i]), i);
          var saved := Save(i, ExcludedRisk(r, at));
          assert saved && risks[i] in risks && risks[i].id == r.id;
          var appended := AppendEvent(ExclusionEvent(r, at, ids[i]));
          assert appended;
          excluded := excluded + [r.id];
        }
      }
      ExcludeKeepsInv(old(View()), |ids|, workspace, artifacts, at, ids);
      ExclusionInFields(old(View()), workspace, artifacts, at, ids);
    }

    /** `mounts` gives the mount of each artifact of the workspace. */
    method ExcludeMountRisks(workspace: string, mounts: map<string, string>, mount: string, at: int, ids: seq<string>)
      returns (excluded: seq<string>)
      requires Inv(View()) && FreshIds(View(), ids)
      modifies this
      ensures Inv(View())
      ensures View() == ExcludeUpTo(old(View()), |ids|, workspace,
                                    (set a | a in mounts && mounts[a] == mount), at, ids)
      ensures ClosesExactly(
        old(risks), risks, at,
        (r: Risk) => r.workspace == workspace && r.disposition != EXCLUDED
                     && r.artifact in mounts && mounts[r.artifact] == mount)
      ensures |events| == |old(events)| + |excluded|
      ensures forall k :: 0 <= k < |excluded| ==> events[|old(events)| + k].risk == excluded[k]
    {
      var artifacts := set a | a in mounts && mounts[a] == mount;
      if artifacts == {} {
        NothingToClose(View(), |ids|, workspace, {}, at, ids);
        return [];
      }
      excluded := ExcludeRisks(workspace, artifacts, at, ids);
    }

    method ReviveRisk(i: nat, back: Option<string>, at: int, id: string)
      requires Inv(View()) && i < |risks| && risks[i].disposition == EXCLUDED && Fresh(View(), id)
      modifies this
      ensures View() == ReviveOne(old(View()), i, back, at, id)
    {
      SavesAreAllowed(View(), Revive(i, back, at, id), i);
      var r := risks[i];
      var found := None;
      if back.Some? && r.revision == back {
        found := ScanHistory(ListEvents(events, r.id), back.value);
      }
      var moment := Max(at, Max(r.lastSeen, r.updated));
      var next := r.(lifecycle := EXISTING,
                     disposition := if found.Some? then found.value else UNREVIEWED,
                     version := r.version + 1, resolved := None, lastSeen := moment, updated := moment);
      var saved := Save(i, next);
      assert saved && risks[i] in risks && risks[i].id == r.id;
      var appended := AppendEvent(Event(id, r.id, Reopened, moment, Some(EXCLUDED), None, Some(next.disposition)));
      assert appended;
    }

    method ReviveArtifactRisks(workspace: string, artifact: string, back: Option<string>, at: int, ids: seq<string>)
      returns (revived: seq<string>)
      requires Inv(View()) && FreshIds(View(), ids)
      modifies this
      ensures Inv(View())
      ensures View() == ReviveUpTo(old(View()), |ids|, workspace, artifact, back, at, ids)
      ensures RevivesExactly(
        old(risks), risks, at,
        (r: Risk) => r.workspace == workspace && r.artifact == artifact && r.disposition == EXCLUDED)
      ensures |events| == |old(events)| + |revived|
      ensures forall k :: 0 <= k < |revived| ==> events[|old(events)| + k].risk == revived[k]
    {
      revived := [];
      for i := 0 to |risks|
        invariant |risks| == |ids|
        invariant View() == ReviveUpTo(old(View()), i, workspace, artifact, back, at, ids)
        invariant |events| == |old(events)| + |revived|
        invariant forall k :: 0 <= k < |revived| ==> events[|old(events)| + k].risk == revived[k]
      {
        ReviveKeepsInv(old(View()), i, workspace, artifact, back, at, ids);
        RevivalStep(old(View()), i, workspace, artifact, back, at, ids);
        if Selected(risks[i], workspace, {artifact}) && risks[i].disposition == EXCLUDED {
          ReviveRisk(i, back, at, ids[i]);
          revived := revived + [risks[i].id];
        }
      }
      ReviveKeepsInv(old(View()), |ids|, workspace, artifact, back, at, ids);
      RevivalInFields(old(View()), workspace, artifact, back, at, ids);
    }
  }

  /** Reads a risk's listed events from the newest to the oldest. */
  method ScanHistory(listed: seq<Event>, revision: string) returns (found: Option<Disposition>)
    ensures found == ScanBack(listed, revision)
  {
    var n := |listed|;
    assert listed[..n] == listed;
    while n > 0
      invariant 0 <= n <= |listed|
      invariant ScanBack(listed, revision) == ScanBack(listed[..n], revision)
    {
      n := n - 1;
      var e := listed[n];
      assert listed[..n + 1][..n] == listed[..n];
      if IsExclusion(e) {
        if e.revision != Some(revision) {
          return None;
        }
        return if e.was == Some(EXCLUDED) then None else e.was;
      }
    }
    found := None;
  }
}
