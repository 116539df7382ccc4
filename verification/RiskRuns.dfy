/** What every run over the risk ledger keeps, and when revival restores the earlier judgement. */
module RiskRuns {
  import opened Options
  import opened Text
  import opened RiskLedger

  datatype Step =
    | Detect(risk: string, workspace: string, artifact: string, seenAt: string, at: int, id: string)
    | Exclude(i: nat, at: int, id: string)
    | Revive(i: nat, back: Option<string>, at: int, id: string)
    | Review(i: nat, expected: nat, choice: Disposition, at: int, id: string)
    | Seen(i: nat, seenAt: string, at: int, id: string)
    | Absent(i: nat, at: int, id: string)

  ghost predicate Fresh(l: Ledger, id: string) {
    forall e :: e in l.events ==> e.id != id
  }

  /** An analysis reports what it has reported before. */
  predicate Repeats(l: Ledger, step: Step) {
    step.Seen? && step.i < |l.risks| && HasEvent(l.events, l.risks[step.i].id, step.id)
  }

  /** Event ids are fresh, but for an observation repeated; a detected risk is new. The clock may run backwards. */
  ghost predicate Possible(l: Ledger, step: Step) {
    && (Fresh(l, step.id) || Repeats(l, step))
    && if step.Detect? then forall r :: r in l.risks ==> r.id != step.risk else step.i < |l.risks|
  }

  function Next(l: Ledger, step: Step): Ledger
    requires !step.Detect? ==> step.i < |l.risks|
  {
    match step
    case Detect(risk, workspace, artifact, seenAt, at, id) => DetectOne(l, risk, workspace, artifact, seenAt, at, id)
    case Exclude(i, at, id) => ExcludeOne(l, i, at, id)
    case Revive(i, back, at, id) => ReviveOne(l, i, back, at, id)
    case Review(i, expected, choice, at, id) => ReviewOne(l, i, expected, choice, at, id)
    case Seen(i, seenAt, at, id) => SeenOne(l, i, seenAt, at, id)
    case Absent(i, at, id) => AbsentOne(l, i, at, id)
  }

  /** `trail` lists the ledgers, one per step taken from an empty ledger. */
  ghost predicate IsTrail(trail: seq<Ledger>, steps: seq<Step>) {
    && |trail| == |steps| + 1 && trail[0] == Ledger([], [])
    && forall k :: 0 <= k < |steps| ==> Possible(trail[k], steps[k]) && trail[k + 1] == Next(trail[k], steps[k])
  }

  // -------------------------------------------------------------------------
  // The invariant tying the history to the risks
  // -------------------------------------------------------------------------

  /** Exclusions were recorded in time order; the last one describes a risk that is still excluded. */
  ghost predicate Recorded(r: Risk, exclusions: seq<Event>) {
    && (forall j, k :: 0 <= j < k < |exclusions| ==> exclusions[j].at <= exclusions[k].at)
    && if r.disposition == EXCLUDED then
         && r.lifecycle == RESOLVED && exclusions != []
         && var last := exclusions[|exclusions| - 1];
            last.at == r.updated && last.revision == r.revision && last.was.Some? && last.was != Some(EXCLUDED)
       else forall k :: 0 <= k < |exclusions| ==> exclusions[k].at <= r.lastSeen
  }

  ghost predicate Distinct(l: Ledger) {
    && (forall i, j :: 0 <= i < j < |l.risks| ==> l.risks[i].id != l.risks[j].id)
    && (forall k, m :: 0 <= k < m < |l.events| ==> l.events[k].id != l.events[m].id)
  }

  ghost predicate Owned(l: Ledger) {
    forall e :: e in l.events ==> exists i :: 0 <= i < |l.risks| && l.risks[i].id == e.risk
  }

  ghost predicate Sound(l: Ledger, i: nat)
    requires i < |l.risks|
  {
    WellFormed(l.risks[i]) && Recorded(l.risks[i], Exclusions(l.events, l.risks[i].id))
  }

  ghost predicate Inv(l: Ledger) {
    Distinct(l) && Owned(l) && forall i :: 0 <= i < |l.risks| ==> Sound(l, i)
  }

  lemma {:induction false} NoExclusions(events: seq<Event>, risk: string)
    requires forall e :: e in events ==> e.risk != risk
    ensures Exclusions(events, risk) == []
  {
    if events != [] {
      assert events[|events| - 1] in events;
      NoExclusions(events[..|events| - 1], risk);
    }
  }

  /** One risk changes, and at most one event, about that risk, is appended. */
  ghost predicate Touches(l: Ledger, t: Ledger, i: nat, e: Event) {
    && i < |l.risks| && |t.risks| == |l.risks|
    && t == Ledger(l.risks[i := t.risks[i]], l.events + [e])
    && e.risk == l.risks[i].id == t.risks[i].id && Fresh(l, e.id)
  }

  lemma TouchKeepsInv(l: Ledger, t: Ledger, i: nat, e: Event)
    requires Inv(l) && Touches(l, t, i, e)
    requires WellFormed(t.risks[i])
    requires Recorded(t.risks[i], Exclusions(l.events, e.risk) + (if IsExclusion(e) then [e] else []))
    ensures Inv(t)
  {
    OwnedGrows(l, t, e);
    forall j | 0 <= j < |t.risks| ensures Sound(t, j) {
      ExclusionsAppend(l.events, e, t.risks[j].id);
      assert Sound(l, j);
      assert j != i ==> t.risks[j] == l.risks[j] && l.risks[j].id != e.risk;
    }
  }

  lemma OwnedGrows(l: Ledger, t: Ledger, e: Event)
    requires Owned(l) && t.events == l.events + [e] && |l.risks| <= |t.risks|
    requires forall i :: 0 <= i < |l.risks| ==> t.risks[i].id == l.risks[i].id
    requires exists i :: 0 <= i < |t.risks| && t.risks[i].id == e.risk
    ensures Owned(t)
  {
    forall x | x in t.events ensures exists i :: 0 <= i < |t.risks| && t.risks[i].id == x.risk {
      if x in l.events {
        var i :| 0 <= i < |l.risks| && l.risks[i].id == x.risk;
        assert t.risks[i].id == x.risk;
      }
    }
  }

  lemma DetectKeepsInv(l: Ledger, t: Ledger, e: Event)
    requires Inv(l) && |t.risks| == |l.risks| + 1
    requires t == Ledger(l.risks + [t.risks[|l.risks|]], l.events + [e]) && Fresh(l, e.id)
    requires t.risks[|l.risks|].id == e.risk && !IsExclusion(e)
    requires forall r :: r in l.risks ==> r.id != e.risk
    requires WellFormed(t.risks[|l.risks|]) && t.risks[|l.risks|].disposition != EXCLUDED
    ensures Inv(t)
  {
    assert t.risks[|l.risks|].id == e.risk;
    OwnedGrows(l, t, e);
    forall j | 0 <= j < |t.risks| ensures Sound(t, j) {
      ExclusionsAppend(l.events, e, t.risks[j].id);
      if j == |l.risks| {
        forall x | x in l.events ensures x.risk != e.risk {
          var i :| 0 <= i < |l.risks| && l.risks[i].id == x.risk;
          assert l.risks[i] in l.risks;
        }
        NoExclusions(l.events, e.risk);
      } else {
        assert Sound(l, j) && l.risks[j] in l.risks;
      }
    }
  }

  /** Every step but a detection rewrites one row in an allowed way and records why, unless it is a repetition. */
  lemma StepTouches(l: Ledger, step: Step)
    requires Inv(l) && Possible(l, step) && !step.Detect? && !Repeats(l, step) && Next(l, step) != l
    ensures var t := Next(l, step);
      && |t.events| == |l.events| + 1
      && var e := t.events[|l.events|];
      && Touches(l, t, step.i, e) && WellFormed(t.risks[step.i])
      && Recorded(t.risks[step.i], Exclusions(l.events, e.risk) + (if IsExclusion(e) then [e] else []))
  {
    assert Sound(l, step.i);
  }

  /** A repetition rewrites one row and leaves the history as it is. */
  lemma RepetitionKeepsInv(l: Ledger, step: Step)
    requires Inv(l) && Repeats(l, step)
    ensures Next(l, step).events == l.events && Inv(Next(l, step))
  {
    var t := Next(l, step);
    assert Sound(l, step.i);
    forall e | e in t.events ensures exists i :: 0 <= i < |t.risks| && t.risks[i].id == e.risk {
      var i :| 0 <= i < |l.risks| && l.risks[i].id == e.risk;
      assert t.risks[i].id == e.risk;
    }
    forall j | 0 <= j < |t.risks| ensures Sound(t, j) {
      assert Sound(l, j);
    }
  }

  /**
   * A disposition changes without a record exactly when an analysis repeats an observation of an excluded risk: that
   * risk comes back, and the history does not say so.
   */
  lemma UnrecordedExactlyWhenRepeated(l: Ledger, step: Step, i: nat)
    requires Inv(l) && Possible(l, step) && i < |l.risks|
    ensures Next(l, step).events == l.events && Next(l, step).risks[i].disposition != l.risks[i].disposition <==>
      Repeats(l, step) && step.i == i && l.risks[i].disposition == EXCLUDED
  {
    if !step.Detect? && !Repeats(l, step) && Next(l, step) != l {
      StepTouches(l, step);
    }
  }

  lemma StepKeepsInv(l: Ledger, step: Step)
    requires Inv(l) && Possible(l, step)
    ensures Inv(Next(l, step))
  {
    if step.Detect? {
      var t := Next(l, step);
      DetectKeepsInv(l, t, t.events[|l.events|]);
    } else if Repeats(l, step) {
      RepetitionKeepsInv(l, step);
    } else if Next(l, step) != l {
      StepTouches(l, step);
      var t := Next(l, step);
      TouchKeepsInv(l, t, step.i, t.events[|l.events|]);
    }
  }

  /**
   * Every save obeys the repository's rule: identity kept, version raised by one exactly when the disposition
   * changes.
   */
  lemma SavesAreAllowed(l: Ledger, step: Step, i: nat)
    requires Inv(l) && Possible(l, step) && i < |l.risks|
    ensures SaveAllowed(l.risks[i], Next(l, step).risks[i]) && WellFormed(Next(l, step).risks[i])
    ensures Next(l, step).risks[i] != l.risks[i] ==> step.i == i
  {
    StepKeepsInv(l, step);
    assert Sound(Next(l, step), i);
  }

  lemma {:induction false} TrailKeepsInv(trail: seq<Ledger>, steps: seq<Step>)
    requires IsTrail(trail, steps)
    ensures forall k :: 0 <= k < |trail| ==> Inv(trail[k])
  {
    for k := 0 to |steps|
      invariant forall j :: 0 <= j <= k ==> Inv(trail[j])
    {
      StepKeepsInv(trail[k], steps[k]);
    }
  }

  // -------------------------------------------------------------------------
  // The judgement held before the exclusion
  // -------------------------------------------------------------------------

  /** Risk `i` as it was when last not excluded, up to the `k`-th ledger: the reference the history must match. */
  ghost function LastHeld(trail: seq<Ledger>, k: nat, i: nat): Option<Risk>
    requires k < |trail|
  {
    if i < |trail[k].risks| && trail[k].risks[i].disposition != EXCLUDED then Some(trail[k].risks[i])
    else if k == 0 then None
    else LastHeld(trail, k - 1, i)
  }

  ghost function LastExclusion(l: Ledger, i: nat): Event
    requires i < |l.risks| && Exclusions(l.events, l.risks[i].id) != []
  {
    var exclusions := Exclusions(l.events, l.risks[i].id);
    exclusions[|exclusions| - 1]
  }

  lemma StaysExcluded(l: Ledger, step: Step, i: nat)
    requires Inv(l) && Possible(l, step) && i < |l.risks|
    requires l.risks[i].disposition == EXCLUDED && Next(l, step).risks[i].disposition == EXCLUDED
    ensures Exclusions(Next(l, step).events, l.risks[i].id) == Exclusions(l.events, l.risks[i].id)
    ensures Next(l, step).risks[i] == l.risks[i]
  {
    var t := Next(l, step);
    assert Sound(l, i);
    if t.events != l.events {
      ExclusionsAppend(l.events, t.events[|l.events|], l.risks[i].id);
    }
  }

  lemma BecomesExcluded(l: Ledger, step: Step, i: nat)
    requires Inv(l) && Possible(l, step) && i < |l.risks|
    requires l.risks[i].disposition != EXCLUDED && Next(l, step).risks[i].disposition == EXCLUDED
    ensures step == Exclude(i, step.at, step.id)
    ensures Exclusions(Next(l, step).events, l.risks[i].id)
      == Exclusions(l.events, l.risks[i].id) + [ExclusionEvent(l.risks[i], step.at, step.id)]
  {
    var t := Next(l, step);
    ExclusionsAppend(l.events, t.events[|l.events|], l.risks[i].id);
  }

  /** The last exclusion recorded states what was held, and the revision it was held at is still the same. */
  ghost predicate KnowsThePredecessor(l: Ledger, i: nat, held: Option<Risk>)
    requires i < |l.risks|
  {
    && Exclusions(l.events, l.risks[i].id) != []
    && held.Some?
    && LastExclusion(l, i).was == Some(held.value.disposition)
    && LastExclusion(l, i).revision == held.value.revision == l.risks[i].revision
  }

  lemma PredecessorStep(l: Ledger, step: Step, i: nat, held: Option<Risk>)
    requires Inv(l) && Possible(l, step) && i < |l.risks| && Next(l, step).risks[i].disposition == EXCLUDED
    requires if l.risks[i].disposition == EXCLUDED then KnowsThePredecessor(l, i, held) else held == Some(l.risks[i])
    ensures KnowsThePredecessor(Next(l, step), i, held)
  {
    if l.risks[i].disposition == EXCLUDED {
      StaysExcluded(l, step, i);
    } else {
      BecomesExcluded(l, step, i);
    }
  }

  /** An excluded risk's last exclusion record states its true predecessor. */
  lemma {:induction false} HistoryKnowsThePredecessor(trail: seq<Ledger>, steps: seq<Step>, k: nat, i: nat)
    requires IsTrail(trail, steps) && k < |trail| && i < |trail[k].risks|
    requires trail[k].risks[i].disposition == EXCLUDED
    ensures KnowsThePredecessor(trail[k], i, LastHeld(trail, k, i))
  {
    TrailKeepsInv(trail, steps);
    var l, step := trail[k - 1], steps[k - 1];
    assert i < |l.risks|;
    if l.risks[i].disposition == EXCLUDED {
      HistoryKnowsThePredecessor(trail, steps, k - 1, i);
    }
    PredecessorStep(l, step, i, LastHeld(trail, k - 1, i));
  }

  // -------------------------------------------------------------------------
  // Revival
  // -------------------------------------------------------------------------

  /**
   * No earlier exclusion of the risk carries the last one's time with a greater event id,
   * so the repository lists the last exclusion after all others.
   */
  ghost predicate ListedLast(l: Ledger, i: nat)
    requires i < |l.risks| && Exclusions(l.events, l.risks[i].id) != []
  {
    var exclusions, last := Exclusions(l.events, l.risks[i].id), LastExclusion(l, i);
    forall e :: e in exclusions && e.at == last.at && e != last ==> Less(e.id, last.id)
  }

  lemma {:induction false} ExclusionsComeFromEvents(events: seq<Event>, risk: string)
    ensures forall e :: e in Exclusions(events, risk) ==> e in events
  {
    if events != [] {
      ExclusionsComeFromEvents(events[..|events| - 1], risk);
    }
  }

  /** The scan reads the last exclusion appended exactly when the repository lists it last. */
  lemma ScanReadsLatest(l: Ledger, i: nat, revision: string) returns (found: Event)
    requires Inv(l) && i < |l.risks| && l.risks[i].disposition == EXCLUDED
    ensures found in Exclusions(l.events, l.risks[i].id)
    ensures forall e :: e in Exclusions(l.events, l.risks[i].id) ==> !Before(found, e)
    ensures ScanBack(ListEvents(l.events, l.risks[i].id), revision) == Verdict(found, revision)
    ensures found == LastExclusion(l, i) <==> ListedLast(l, i)
  {
    assert Sound(l, i);
    var risk := l.risks[i].id;
    var exclusions, last := Exclusions(l.events, risk), LastExclusion(l, i);
    ListedInOrder(l.events, risk);
    ExclusionsAreListed(l.events, risk, last);
    found := ScanFindsLatest(ListEvents(l.events, risk), revision);
    ExclusionsAreListed(l.events, risk, found);
    ExclusionsComeFromEvents(l.events, risk);
    forall e | e in exclusions ensures e.at <= last.at && !Before(found, e) && (e.id == last.id ==> e == last) {
      ExclusionsAreListed(l.events, risk, e);
    }
    if found == last {
      forall e | e in exclusions && e.at == last.at && e != last ensures Less(e.id, last.id) {
        LessTotal(e.id, last.id);
      }
    }
  }

  ghost function RevivedDisposition(l: Ledger, i: nat, back: Option<string>): Disposition
    requires i < |l.risks|
  {
    ReviveOne(l, i, back, 0, "").risks[i].disposition
  }

  /** Back at the recorded revision, revival restores the judgement held before the exclusion. */
  lemma RevivalRestores(trail: seq<Ledger>, steps: seq<Step>, k: nat, i: nat, back: Option<string>)
    requires IsTrail(trail, steps) && k < |trail| && i < |trail[k].risks|
    requires trail[k].risks[i].disposition == EXCLUDED
    ensures Exclusions(trail[k].events, trail[k].risks[i].id) != [] && LastHeld(trail, k, i).Some?
    ensures var held := LastHeld(trail, k, i).value;
      && (back.None? || back != held.revision ==> RevivedDisposition(trail[k], i, back) == UNREVIEWED)
      && (back.Some? && back == held.revision && ListedLast(trail[k], i) ==>
            RevivedDisposition(trail[k], i, back) == held.disposition)
  {
    TrailKeepsInv(trail, steps);
    HistoryKnowsThePredecessor(trail, steps, k, i);
    assert Sound(trail[k], i);
    if back.Some? && back == trail[k].risks[i].revision {
      var _ := ScanReadsLatest(trail[k], i, back.value);
    }
  }

  /** What a revival at `revision` makes of an exclusion record. */
  function Reading(e: Event, revision: Option<string>): Disposition {
    if e.revision == revision && e.was.Some? && e.was != Some(EXCLUDED) then e.was.value else UNREVIEWED
  }

  /**
   * At the recorded revision the judgement comes back exactly when no exclusion record tied with the last one in time
   * has a greater event id, or the tied record with the greatest id happens to read as the same judgement.
   */
  lemma RevivalRestoresExactly(trail: seq<Ledger>, steps: seq<Step>, k: nat, i: nat) returns (greatest: Event)
    requires IsTrail(trail, steps) && k < |trail| && i < |trail[k].risks|
    requires trail[k].risks[i].disposition == EXCLUDED && trail[k].risks[i].revision.Some?
    ensures Exclusions(trail[k].events, trail[k].risks[i].id) != [] && LastHeld(trail, k, i).Some?
    ensures TiedWithTheLast(trail[k], i, greatest)
    ensures forall e :: TiedWithTheLast(trail[k], i, e) && e != greatest ==> Less(e.id, greatest.id)
    ensures var held := LastHeld(trail, k, i).value;
      RevivedDisposition(trail[k], i, held.revision) == held.disposition <==>
        ListedLast(trail[k], i) || Reading(greatest, held.revision) == held.disposition
  {
    TrailKeepsInv(trail, steps);
    HistoryKnowsThePredecessor(trail, steps, k, i);
    assert Sound(trail[k], i);
    greatest := ScanReadsLatest(trail[k], i, trail[k].risks[i].revision.value);
    ScannedIsGreatest(trail[k], i, greatest);
  }

  /** An exclusion record of the risk that carries the time of the last one appended. */
  ghost predicate TiedWithTheLast(l: Ledger, i: nat, e: Event)
    requires i < |l.risks| && Exclusions(l.events, l.risks[i].id) != []
  {
    e in Exclusions(l.events, l.risks[i].id) && e.at == LastExclusion(l, i).at
  }

  lemma ScannedIsGreatest(l: Ledger, i: nat, found: Event)
    requires Inv(l) && i < |l.risks| && l.risks[i].disposition == EXCLUDED
    requires Exclusions(l.events, l.risks[i].id) != [] && found in Exclusions(l.events, l.risks[i].id)
    requires forall e :: e in Exclusions(l.events, l.risks[i].id) ==> !Before(found, e)
    ensures TiedWithTheLast(l, i, found)
    ensures forall e :: TiedWithTheLast(l, i, e) && e != found ==> Less(e.id, found.id)
  {
    assert Sound(l, i);
    var exclusions := Exclusions(l.events, l.risks[i].id);
    ExclusionsComeFromEvents(l.events, l.risks[i].id);
    assert LastExclusion(l, i) in exclusions;
    forall e | TiedWithTheLast(l, i, e) && e != found ensures Less(e.id, found.id) {
      LessTotal(e.id, found.id);
    }
  }

  /** A clock that has moved past the risk's last sighting at exclusion time is enough. */
  lemma LaterExclusionIsListedLast(l: Ledger, i: nat, at: int, id: string)
    requires Inv(l) && i < |l.risks| && l.risks[i].disposition != EXCLUDED
    requires l.risks[i].lastSeen < at
    ensures var t := ExcludeOne(l, i, at, id);
      Exclusions(t.events, t.risks[i].id) != [] && ListedLast(t, i)
  {
    ExclusionsAppend(l.events, ExclusionEvent(l.risks[i], at, id), l.risks[i].id);
    assert Sound(l, i);
    var earlier := Exclusions(l.events, l.risks[i].id);
    forall e | e in earlier ensures e.at <= l.risks[i].lastSeen {
      var k :| 0 <= k < |earlier| && earlier[k] == e;
    }
  }

  /** One frozen clock: reviewed between two exclusions whose event ids sort the other way round. */
  function FrozenClock(): seq<Step> {
    [Detect("r", "w", "a", "v", 0, "1"), Exclude(0, 0, "9"), Revive(0, None, 0, "2"),
     Review(0, 2, ACCEPTED_RISK, 0, "3"), Exclude(0, 0, "4")]
  }

  function FrozenEvents(): seq<Event> {
    [Event("1", "r", Detected, 0, None, None, None),
     Event("9", "r", DispositionChanged, 0, Some(UNREVIEWED), Some("v"), Some(EXCLUDED)),
     Event("2", "r", Reopened, 0, Some(EXCLUDED), None, Some(UNREVIEWED)),
     Event("3", "r", DispositionChanged, 0, Some(UNREVIEWED), None, Some(ACCEPTED_RISK)),
     Event("4", "r", DispositionChanged, 0, Some(ACCEPTED_RISK), Some("v"), Some(EXCLUDED))]
  }

  /** The ledger after the first `k` steps of `FrozenClock`. */
  function FrozenLedger(k: nat): Ledger
    requires k <= 5
  {
    var risk := (lifecycle, disposition, resolved, version: nat) =>
      [Risk("r", "w", "a", lifecycle, disposition, 0, 0, 0, resolved, Some("v"), version)];
    var risks := match k
      case 0 => []
      case 1 => risk(NEW, UNREVIEWED, None, 0)
      case 2 => risk(RESOLVED, EXCLUDED, Some(0), 1)
      case 3 => risk(EXISTING, UNREVIEWED, None, 2)
      case 4 => risk(EXISTING, ACCEPTED_RISK, None, 3)
      case _ => risk(RESOLVED, EXCLUDED, Some(0), 4);
    Ledger(risks, FrozenEvents()[..k])
  }

  lemma FrozenStep(k: nat)
    requires k < 5
    ensures Possible(FrozenLedger(k), FrozenClock()[k])
    ensures Next(FrozenLedger(k), FrozenClock()[k]) == FrozenLedger(k + 1)
  {
    assert FrozenEvents()[..k + 1] == FrozenEvents()[..k] + [FrozenEvents()[k]];
    assert FrozenLedger(k + 1).risks == Next(FrozenLedger(k), FrozenClock()[k]).risks;
  }

  lemma FrozenExclusions(k: nat)
    requires k <= 5
    ensures Exclusions(FrozenEvents()[..k], "r")
      == if k < 2 then [] else if k < 5 then [FrozenEvents()[1]] else [FrozenEvents()[1], FrozenEvents()[4]]
  {
    if k > 0 {
      FrozenExclusions(k - 1);
      assert FrozenEvents()[..k] == FrozenEvents()[..k - 1] + [FrozenEvents()[k - 1]];
      ExclusionsAppend(FrozenEvents()[..k - 1], FrozenEvents()[k - 1], "r");
    }
  }

  function FrozenTrail(): seq<Ledger> {
    [FrozenLedger(0), FrozenLedger(1), FrozenLedger(2), FrozenLedger(3), FrozenLedger(4), FrozenLedger(5)]
  }

  lemma FrozenTrailIsTrail()
    ensures IsTrail(FrozenTrail(), FrozenClock())
  {
    forall k | 0 <= k < 5
      ensures Possible(FrozenTrail()[k], FrozenClock()[k])
      ensures FrozenTrail()[k + 1] == Next(FrozenTrail()[k], FrozenClock()[k])
    {
      FrozenStep(k);
    }
  }

  lemma FrozenScan()
    requires Inv(FrozenLedger(5))
    ensures RevivedDisposition(FrozenLedger(5), 0, Some("v")) == UNREVIEWED
  {
    var l, older, last := FrozenLedger(5), FrozenEvents()[1], FrozenEvents()[4];
    FrozenExclusions(5);
    assert Exclusions(l.events, "r") == [older, last];
    assert older in Exclusions(l.events, "r") && LastExclusion(l, 0) == last;
    assert !Less("9", "4");
    var found := ScanReadsLatest(l, 0, "v");
    assert found == older;
  }

  /** With tied times the scan may read an older exclusion, and the accepted judgement is lost. */
  lemma TiedExclusionsLoseTheJudgement()
    ensures var trail := FrozenTrail();
      && IsTrail(trail, FrozenClock())
      && trail[5].risks[0].disposition == EXCLUDED
      && LastHeld(trail, 5, 0).Some? && LastHeld(trail, 5, 0).value.disposition == ACCEPTED_RISK
      && LastHeld(trail, 5, 0).value.revision == Some("v")
      && RevivedDisposition(trail[5], 0, Some("v")) == UNREVIEWED
  {
    FrozenTrailIsTrail();
    TrailKeepsInv(FrozenTrail(), FrozenClock());
    assert LastHeld(FrozenTrail(), 4, 0) == Some(FrozenLedger(4).risks[0]);
    assert Inv(FrozenTrail()[5]);
    FrozenScan();
  }

  // -------------------------------------------------------------------------
  // A revival the history does not mention
  // -------------------------------------------------------------------------

  /** Resolved, reported again, excluded, and then the same report once more. */
  function SameReportTwice(): seq<Step> {
    [Detect("r", "w", "a", "v", 0, "1"), Absent(0, 0, "2"), Seen(0, "v", 0, "3"), Exclude(0, 0, "4"),
     Seen(0, "v", 0, "3")]
  }

  function ReportEvents(): seq<Event> {
    [Event("1", "r", Detected, 0, None, None, None), Event("2", "r", Resolved, 0, None, None, None),
     Event("3", "r", Reopened, 0, None, None, None),
     Event("4", "r", DispositionChanged, 0, Some(UNREVIEWED), Some("v"), Some(EXCLUDED))]
  }

  function ReportLedger(k: nat): Ledger
    requires k <= 5
  {
    var risk := (lifecycle, disposition, resolved, version: nat) =>
      [Risk("r", "w", "a", lifecycle, disposition, 0, 0, 0, resolved, Some("v"), version)];
    var risks := match k
      case 0 => []
      case 1 => risk(NEW, UNREVIEWED, None, 0)
      case 2 => risk(RESOLVED, UNREVIEWED, Some(0), 0)
      case 3 => risk(EXISTING, UNREVIEWED, None, 0)
      case 4 => risk(RESOLVED, EXCLUDED, Some(0), 1)
      case _ => risk(NEW, UNREVIEWED, None, 2);
    Ledger(risks, ReportEvents()[..if k < 5 then k else 4])
  }

  lemma ReportStep(k: nat)
    requires k < 5
    ensures Possible(ReportLedger(k), SameReportTwice()[k])
    ensures Next(ReportLedger(k), SameReportTwice()[k]) == ReportLedger(k + 1)
  {
    if k < 4 {
      assert ReportEvents()[..k + 1] == ReportEvents()[..k] + [ReportEvents()[k]];
    } else {
      assert ReportLedger(4).events[2] == ReportEvents()[2];
      assert HasEvent(ReportLedger(4).events, "r", "3");
    }
    assert ReportLedger(k + 1).risks == Next(ReportLedger(k), SameReportTwice()[k]).risks;
  }

  /** The excluded risk comes back by the repeated report, and the history still ends with its exclusion. */
  lemma RepeatedReportHidesARevival() returns (trail: seq<Ledger>)
    ensures IsTrail(trail, SameReportTwice())
    ensures trail[4].risks[0].disposition == EXCLUDED && trail[5].risks[0].disposition == UNREVIEWED
    ensures trail[5].events == trail[4].events && IsExclusion(trail[5].events[|trail[5].events| - 1])
  {
    trail := [ReportLedger(0), ReportLedger(1), ReportLedger(2), ReportLedger(3), ReportLedger(4), ReportLedger(5)];
    forall k | 0 <= k < 5
      ensures Possible(trail[k], SameReportTwice()[k])
      ensures trail[k + 1] == Next(trail[k], SameReportTwice()[k])
    {
      ReportStep(k);
    }
  }
}
