/** What each step on a single risk does, field by field: when it changes the risk, to what, and with which record. */
module RiskSteps {
  import opened Options
  import opened RiskLedger

  // -------------------------------------------------------------------------
  // What may be saved
  // -------------------------------------------------------------------------

  /**
   * What the repository takes in the place of `r`: the same risk of the same artifact, first seen when it was, with the
   * version one higher exactly if the disposition differs, its times in order, and a time of resolution exactly if it
   * is resolved.
   */
  predicate IsSuccessor(r: Risk, t: Risk) {
    && t.id == r.id && t.workspace == r.workspace && t.artifact == r.artifact && t.firstSeen == r.firstSeen
    && (t.disposition == r.disposition ==> t.version == r.version)
    && (t.disposition != r.disposition ==> t.version == r.version + 1)
    && t.firstSeen <= t.lastSeen && t.firstSeen <= t.updated
    && (t.lifecycle == RESOLVED ==> t.resolved.Some?)
    && (t.resolved.Some? ==>
          t.lifecycle == RESOLVED && t.lastSeen <= t.resolved.value && t.resolved.value <= t.updated)
  }

  lemma SuccessorsAreAllowed(r: Risk, t: Risk)
    ensures IsSuccessor(r, t) <==> SaveAllowed(r, t) && WellFormed(t)
  {
  }

  // -------------------------------------------------------------------------
  // Exclusion and revival
  // -------------------------------------------------------------------------

  /** `t` is `r` as an exclusion at `at` leaves it. */
  ghost predicate ClosedAt(r: Risk, t: Risk, at: int) {
    && t.id == r.id && t.workspace == r.workspace && t.artifact == r.artifact
    && t.firstSeen == r.firstSeen && t.lastSeen == r.lastSeen && t.revision == r.revision
    && t.lifecycle == RESOLVED && t.disposition == EXCLUDED && t.version == r.version + 1
    && t.resolved == Some(t.updated) && t.updated in {at, r.firstSeen, r.lastSeen}
    && at <= t.updated && r.firstSeen <= t.updated && r.lastSeen <= t.updated
  }

  /** `t` is `r` as a revival at `at` leaves it, up to the disposition that comes back. */
  ghost predicate BackAt(r: Risk, t: Risk, at: int) {
    && t.id == r.id && t.workspace == r.workspace && t.artifact == r.artifact
    && t.firstSeen == r.firstSeen && t.revision == r.revision
    && t.lifecycle == EXISTING && t.disposition != EXCLUDED && t.version == r.version + 1
    && t.resolved == None && t.lastSeen == t.updated && t.updated in {at, r.lastSeen, r.updated}
    && at <= t.updated && r.lastSeen <= t.updated && r.updated <= t.updated
  }

  /** The record of a closed risk: what was held, at which revision, and when it was closed. */
  ghost predicate RecordsClosing(r: Risk, t: Risk, e: Event) {
    && e.risk == r.id && e.kind == DispositionChanged && e.at == t.updated
    && e.was == Some(r.disposition) && e.revision == r.revision && e.now == Some(EXCLUDED)
  }

  /** The record of a revived risk: what came back, and when. */
  ghost predicate RecordsRevival(t: Risk, e: Event) {
    && e.risk == t.id && e.kind == Reopened && e.at == t.updated
    && e.was == Some(EXCLUDED) && e.revision == None && e.now == Some(t.disposition)
  }

  lemma ClosingLeaves(r: Risk, at: int, id: string)
    ensures ClosedAt(r, ExcludedRisk(r, at), at)
    ensures RecordsClosing(r, ExcludedRisk(r, at), ExclusionEvent(r, at, id)) && ExclusionEvent(r, at, id).id == id
  {
  }

  lemma RevivalLeaves(l: Ledger, i: nat, back: Option<string>, at: int, id: string)
    requires i < |l.risks| && l.risks[i].disposition == EXCLUDED
    ensures var t := ReviveOne(l, i, back, at, id);
      && BackAt(l.risks[i], t.risks[i], at)
      && |t.events| == |l.events| + 1 && RecordsRevival(t.risks[i], t.events[|l.events|])
      && t.events[|l.events|].id == id
  {
  }

  // -------------------------------------------------------------------------
  // Review
  // -------------------------------------------------------------------------

  ghost predicate ReviewedAt(r: Risk, t: Risk, choice: Disposition, at: int) {
    && t.id == r.id && t.workspace == r.workspace && t.artifact == r.artifact && t.lifecycle == r.lifecycle
    && t.firstSeen == r.firstSeen && t.lastSeen == r.lastSeen && t.resolved == r.resolved && t.revision == r.revision
    && t.disposition == choice && t.version == r.version + 1
    && t.updated in {at, r.updated} && at <= t.updated && r.updated <= t.updated
  }

  /** Only the first `n` events and the `i`-th row differ from before. */
  ghost predicate OneRow(l: Ledger, t: Ledger, i: nat, e: Event) {
    && i < |l.risks| == |t.risks| && t.events == l.events + [e] && e.risk == l.risks[i].id
    && forall j :: 0 <= j < |l.risks| && j != i ==> t.risks[j] == l.risks[j]
  }

  /** A choice takes effect exactly when it was made on the current version and neither side of it is EXCLUDED. */
  lemma ReviewTakesEffectExactlyWhen(l: Ledger, i: nat, expected: nat, choice: Disposition, at: int, id: string)
    requires i < |l.risks|
    ensures var r, t := l.risks[i], ReviewOne(l, i, expected, choice, at, id);
      if r.version == expected && choice != EXCLUDED && r.disposition != EXCLUDED && choice != r.disposition then
        && |t.events| == |l.events| + 1 && OneRow(l, t, i, t.events[|l.events|])
        && ReviewedAt(r, t.risks[i], choice, at)
        && var e := t.events[|l.events|];
           && e.id == id && e.kind == DispositionChanged && e.at == t.risks[i].updated
           && e.was == Some(r.disposition) && e.revision == None && e.now == Some(choice)
      else t == l
  {
  }

  // -------------------------------------------------------------------------
  // Sighting and absence
  // -------------------------------------------------------------------------

  /** Seen again at `revision`: an excluded risk starts anew, any other one goes on as it was judged. */
  ghost predicate SeenAt(r: Risk, t: Risk, revision: string, at: int) {
    && t.id == r.id && t.workspace == r.workspace && t.artifact == r.artifact && t.firstSeen == r.firstSeen
    && t.revision == Some(revision) && t.resolved == None && t.lastSeen == t.updated
    && at <= t.updated && r.lastSeen <= t.updated && r.updated <= t.updated
    && (r.resolved.Some? ==> r.resolved.value <= t.updated)
    && (t.updated in {at, r.lastSeen, r.updated} || r.resolved == Some(t.updated))
    && (if r.disposition == EXCLUDED
        then t.lifecycle == NEW && t.disposition == UNREVIEWED && t.version == r.version + 1
        else t.lifecycle == EXISTING && t.disposition == r.disposition && t.version == r.version)
  }

  /** Every sighting saves the risk; it is recorded exactly when the risk has no event of that id yet. */
  lemma SightingIsRecordedExactlyOnce(l: Ledger, i: nat, revision: string, at: int, id: string)
    requires i < |l.risks|
    ensures var r, t := l.risks[i], SeenOne(l, i, revision, at, id);
      && SeenAt(r, t.risks[i], revision, at)
      && if exists e :: e in l.events && e.risk == r.id && e.id == id then
           t.events == l.events && |t.risks| == |l.risks|
           && forall j :: 0 <= j < |l.risks| && j != i ==> t.risks[j] == l.risks[j]
         else
           && |t.events| == |l.events| + 1 && OneRow(l, t, i, t.events[|l.events|])
           && var e := t.events[|l.events|];
              && e.id == id && e.at == t.risks[i].updated && e.was == None && e.revision == None && e.now == None
              && e.kind == if r.lifecycle == RESOLVED then Reopened else Confirmed
  {
  }

  ghost predicate ResolvedAt(r: Risk, t: Risk, at: int) {
    && t.id == r.id && t.workspace == r.workspace && t.artifact == r.artifact && t.disposition == r.disposition
    && t.firstSeen == r.firstSeen && t.lastSeen == r.lastSeen && t.revision == r.revision && t.version == r.version
    && t.lifecycle == RESOLVED && t.resolved == Some(t.updated)
    && t.updated in {at, r.lastSeen, r.updated}
    && at <= t.updated && r.lastSeen <= t.updated && r.updated <= t.updated
  }

  /** An absence resolves a risk exactly when it was not resolved, and leaves its judgement. */
  lemma AbsenceResolvesExactlyWhen(l: Ledger, i: nat, at: int, id: string)
    requires i < |l.risks|
    ensures var r, t := l.risks[i], AbsentOne(l, i, at, id);
      if r.lifecycle != RESOLVED then
        && |t.events| == |l.events| + 1 && OneRow(l, t, i, t.events[|l.events|]) && ResolvedAt(r, t.risks[i], at)
        && var e := t.events[|l.events|];
           && e.id == id && e.kind == Resolved && e.at == t.risks[i].updated
           && e.was == None && e.revision == None && e.now == None
      else t == l
  {
  }

  /** A detection adds one new, unreviewed risk of that revision and records it. */
  lemma DetectionAddsOne(
      l: Ledger, risk: string, workspace: string, artifact: string, revision: string, at: int, id: string)
    ensures var t := DetectOne(l, risk, workspace, artifact, revision, at, id);
      && |t.risks| == |l.risks| + 1 && t.risks[..|l.risks|] == l.risks
      && |t.events| == |l.events| + 1 && t.events[..|l.events|] == l.events
      && var r, e := t.risks[|l.risks|], t.events[|l.events|];
         && r.id == risk && r.workspace == workspace && r.artifact == artifact && r.revision == Some(revision)
         && r.lifecycle == NEW && r.disposition == UNREVIEWED && r.resolved == None && r.version == 0
         && r.firstSeen == r.lastSeen == r.updated == at
         && e.id == id && e.risk == risk && e.kind == Detected && e.at == at
         && e.was == None && e.revision == None && e.now == None
  {
  }
}
