/**
 * Risks and their append-only history: exclusion, revival, review and re-analysis.
 * The disposition held before an exclusion lives only in the history.
 */
module RiskLedger {
  import opened Options
  import opened Text

  datatype Lifecycle = NEW | EXISTING | RESOLVED

  datatype Disposition = UNREVIEWED | MONITORING | ACCEPTED_RISK | EXCLUDED

  datatype Risk = Risk(
    id: string,
    workspace: string,
    artifact: string,
    lifecycle: Lifecycle,
    disposition: Disposition,
    firstSeen: int,
    lastSeen: int,
    updated: int,
    resolved: Option<int>,
    revision: Option<string>,
    version: nat)

  datatype EventKind = Detected | Confirmed | Resolved | Reopened | DispositionChanged

  datatype Event = Event(
    id: string,
    risk: string,
    kind: EventKind,
    at: int,
    was: Option<Disposition>,
    revision: Option<string>,  // evidence revision recorded with the previous state
    now: Option<Disposition>)

  datatype Ledger = Ledger(risks: seq<Risk>, events: seq<Event>)

  function Max(a: int, b: int): int {
    if a < b then b else a
  }

  // -------------------------------------------------------------------------
  // Rules the entities and the repository enforce
  // -------------------------------------------------------------------------

  /** What constructing a risk demands. */
  predicate WellFormed(r: Risk) {
    && r.firstSeen <= r.lastSeen && r.firstSeen <= r.updated
    && (r.lifecycle == RESOLVED <==> r.resolved.Some?)
    && (r.resolved.Some? ==> r.lastSeen <= r.resolved.value <= r.updated)
  }

  /** What saving `next` over `previous` demands. */
  predicate SaveAllowed(previous: Risk, next: Risk) {
    && next.id == previous.id && next.workspace == previous.workspace && next.artifact == previous.artifact
    && next.firstSeen == previous.firstSeen
    && next.version == previous.version + (if next.disposition == previous.disposition then 0 else 1)
  }

  // -------------------------------------------------------------------------
  // Single-risk transitions
  // -------------------------------------------------------------------------

  function ExcludedRisk(r: Risk, at: int): Risk {
    var moment := Max(at, Max(r.firstSeen, r.lastSeen));
    r.(lifecycle := RESOLVED, disposition := EXCLUDED, version := r.version + 1,
       resolved := Some(moment), updated := moment)
  }

  function ExclusionEvent(r: Risk, at: int, id: string): Event {
    Event(id, r.id, DispositionChanged, ExcludedRisk(r, at).updated, Some(r.disposition), r.revision, Some(EXCLUDED))
  }

  function ExcludeOne(l: Ledger, i: nat, at: int, id: string): Ledger
    requires i < |l.risks|
  {
    var r := l.risks[i];
    if r.disposition == EXCLUDED then l
    else Ledger(l.risks[i := ExcludedRisk(r, at)], l.events + [ExclusionEvent(r, at, id)])
  }

  function ReviveOne(l: Ledger, i: nat, revision: Option<string>, at: int, id: string): Ledger
    requires i < |l.risks|
  {
    var r := l.risks[i];
    if r.disposition != EXCLUDED then l
    else
      var found := DispositionBeforeExclusion(l.events, r, revision);
      var moment := Max(at, Max(r.lastSeen, r.updated));
      var next := r.(lifecycle := EXISTING,
                     disposition := if found.Some? then found.value else UNREVIEWED,
                     version := r.version + 1, resolved := None, lastSeen := moment, updated := moment);
      Ledger(l.risks[i := next],
             l.events + [Event(id, r.id, Reopened, moment, Some(EXCLUDED), None, Some(next.disposition))])
  }

  /** A user's choice; a stale version, a system-only choice or an excluded risk changes nothing. */
  function ReviewOne(l: Ledger, i: nat, expected: nat, choice: Disposition, at: int, id: string): Ledger
    requires i < |l.risks|
  {
    var r := l.risks[i];
    if r.version != expected || choice == EXCLUDED || r.disposition == EXCLUDED || r.disposition == choice then l
    else
      var moment := Max(at, r.updated);
      Ledger(l.risks[i := r.(disposition := choice, version := r.version + 1, updated := moment)],
             l.events + [Event(id, r.id, DispositionChanged, moment, Some(r.disposition), None, Some(choice))])
  }

  predicate HasEvent(events: seq<Event>, risk: string, id: string) {
    exists e :: e in events && e.risk == risk && e.id == id
  }

  /**
   * An analysis reports the risk again at `revision`. The event id is made of what was observed, so an observation
   * that repeats an earlier one saves the risk and appends nothing.
   */
  function SeenOne(l: Ledger, i: nat, revision: string, at: int, id: string): Ledger
    requires i < |l.risks|
  {
    var r := l.risks[i];
    var moment := Max(Max(at, r.lastSeen), Max(r.updated, if r.resolved.Some? then r.resolved.value else at));
    var revived := r.disposition == EXCLUDED;
    var next := r.(lifecycle := if revived then NEW else EXISTING,
                   disposition := if revived then UNREVIEWED else r.disposition,
                   version := if revived then r.version + 1 else r.version,
                   lastSeen := moment, updated := moment, resolved := None, revision := Some(revision));
    var kind := if r.lifecycle == RESOLVED then Reopened else Confirmed;
    Ledger(l.risks[i := next],
           if HasEvent(l.events, r.id, id) then l.events
           else l.events + [Event(id, r.id, kind, moment, None, None, None)])
  }

  /** An authoritative analysis no longer reports the risk. */
  function AbsentOne(l: Ledger, i: nat, at: int, id: string): Ledger
    requires i < |l.risks|
  {
    var r := l.risks[i];
    if r.lifecycle == RESOLVED then l
    else
      var moment := Max(at, Max(r.lastSeen, r.updated));
      Ledger(l.risks[i := r.(lifecycle := RESOLVED, resolved := Some(moment), updated := moment)],
             l.events + [Event(id, r.id, Resolved, moment, None, None, None)])
  }

  function DetectOne(l: Ledger, risk: string, workspace: string, artifact: string, revision: string, at: int,
                     id: string): Ledger {
    Ledger(l.risks + [Risk(risk, workspace, artifact, NEW, UNREVIEWED, at, at, at, None, Some(revision), 0)],
           l.events + [Event(id, risk, Detected, at, None, None, None)])
  }

  // -------------------------------------------------------------------------
  // Reading the history back
  // -------------------------------------------------------------------------

  /** The repository lists a risk's events by time, ties by event id. */
  predicate Before(a: Event, b: Event) {
    a.at < b.at || (a.at == b.at && Less(a.id, b.id))
  }

  function Insert(e: Event, sorted: seq<Event>): seq<Event> {
    if sorted == [] then [e]
    else if Before(sorted[|sorted| - 1], e) then sorted + [e]
    else Insert(e, sorted[..|sorted| - 1]) + [sorted[|sorted| - 1]]
  }

  function ListEvents(events: seq<Event>, risk: string): seq<Event> {
    if events == [] then []
    else
      var rest := ListEvents(events[..|events| - 1], risk);
      var last := events[|events| - 1];
      if last.risk == risk then Insert(last, rest) else rest
  }

  predicate IsExclusion(e: Event) {
    e.kind == DispositionChanged && e.now == Some(EXCLUDED)
  }

  /** What one exclusion record says about a file that is back at `revision`. */
  function Verdict(e: Event, revision: string): Option<Disposition> {
    if e.revision != Some(revision) || e.was == Some(EXCLUDED) then None else e.was
  }

  /** Undoing an exclusion never restores an exclusion. */
  function ScanBack(listed: seq<Event>, revision: string): (found: Option<Disposition>)
    ensures found != Some(EXCLUDED)
  {
    if listed == [] then None
    else if IsExclusion(listed[|listed| - 1]) then Verdict(listed[|listed| - 1], revision)
    else ScanBack(listed[..|listed| - 1], revision)
  }

  function DispositionBeforeExclusion(events: seq<Event>, r: Risk, revision: Option<string>): Option<Disposition> {
    if revision.None? || r.revision != revision then None
    else ScanBack(ListEvents(events, r.id), revision.value)
  }

  /** A risk's exclusion records in the order they were appended. */
  function Exclusions(events: seq<Event>, risk: string): seq<Event> {
    if events == [] then []
    else
      var rest := Exclusions(events[..|events| - 1], risk);
      var last := events[|events| - 1];
      if last.risk == risk && IsExclusion(last) then rest + [last] else rest
  }

  lemma ExclusionsAppend(events: seq<Event>, e: Event, risk: string)
    ensures Exclusions(events + [e], risk)
      == Exclusions(events, risk) + (if e.risk == risk && IsExclusion(e) then [e] else [])
  {
    assert (events + [e])[..|events|] == events;
  }

  lemma {:induction false} ExclusionsAreListed(events: seq<Event>, risk: string, e: Event)
    ensures e in ListEvents(events, risk) && IsExclusion(e) <==> e in Exclusions(events, risk)
  {
    if events != [] {
      var rest, last := events[..|events| - 1], events[|events| - 1];
      ExclusionsAreListed(rest, risk, e);
      InsertHolds(last, ListEvents(rest, risk), e);
    }
  }

  lemma {:induction false} InsertHolds(e: Event, sorted: seq<Event>, x: Event)
    ensures x in Insert(e, sorted) <==> x == e || x in sorted
  {
    if sorted != [] && !Before(sorted[|sorted| - 1], e) {
      InsertHolds(e, sorted[..|sorted| - 1], x);
      assert sorted == sorted[..|sorted| - 1] + [sorted[|sorted| - 1]];
    }
  }

  /** Listed in order: nothing comes before an event that precedes it. */
  ghost predicate InOrder(listed: seq<Event>) {
    forall i, j :: 0 <= i < j < |listed| ==> !Before(listed[j], listed[i])
  }

  lemma BeforeTransitive(a: Event, b: Event, c: Event)
    requires !Before(b, a) && !Before(c, b)
    ensures !Before(c, a)
  {
    if Before(c, a) {
      LessTotal(a.id, b.id);
      LessTotal(b.id, c.id);
      LessIrreflexive(a.id);
      if Less(c.id, a.id) && Less(a.id, b.id) {
        LessTransitive(c.id, a.id, b.id);
      }
    }
  }

  lemma BeforeAsymmetric(a: Event, b: Event)
    requires Before(a, b)
    ensures !Before(b, a)
  {
    if a.at == b.at {
      LessAsymmetric(a.id, b.id);
    }
  }

  lemma {:induction false} InsertInOrder(e: Event, sorted: seq<Event>)
    requires InOrder(sorted)
    ensures InOrder(Insert(e, sorted))
  {
    if sorted != [] {
      var n := |sorted| - 1;
      if Before(sorted[n], e) {
        forall i | 0 <= i <= n ensures !Before(e, sorted[i]) {
          BeforeAsymmetric(sorted[n], e);
          if i < n {
            BeforeTransitive(sorted[i], sorted[n], e);
          }
        }
      } else {
        InsertInOrder(e, sorted[..n]);
        var inner := Insert(e, sorted[..n]);
        forall i | 0 <= i < |inner| ensures !Before(sorted[n], inner[i]) {
          InsertHolds(e, sorted[..n], inner[i]);
        }
      }
    }
  }

  lemma {:induction false} ListedInOrder(events: seq<Event>, risk: string)
    ensures InOrder(ListEvents(events, risk))
  {
    if events != [] {
      var rest, last := events[..|events| - 1], events[|events| - 1];
      ListedInOrder(rest, risk);
      if last.risk == risk {
        InsertInOrder(last, ListEvents(rest, risk));
      }
    }
  }

  /** The scan stops at an exclusion that no other exclusion comes after. */
  lemma {:induction false} ScanFindsLatest(listed: seq<Event>, revision: string) returns (found: Event)
    requires InOrder(listed) && exists e :: e in listed && IsExclusion(e)
    ensures found in listed && IsExclusion(found) && ScanBack(listed, revision) == Verdict(found, revision)
    ensures forall e :: e in listed && IsExclusion(e) ==> !Before(found, e)
  {
    var n := |listed| - 1;
    if IsExclusion(listed[n]) {
      found := listed[n];
      LessIrreflexive(found.id);
    } else {
      var e :| e in listed && IsExclusion(e);
      assert e in listed[..n];
      found := ScanFindsLatest(listed[..n], revision);
    }
  }
}
