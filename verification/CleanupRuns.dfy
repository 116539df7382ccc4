/** Cleanup sweeps step by step: every page read and every deletion is one step, with other writers in between. */
module CleanupRuns {
  import opened Options
  import opened Text
  import opened Paging
  import opened Cleanup

  /** Between two awaits: at rest between calls, with more sources of its page to read, or with records in hand. */
  datatype Phase =
    | Resting(at: Option<Position>)
    | ReadingPage(from: Position, remaining: nat, read: seq<Record<Operational>>)
    | Deleting(inHand: seq<Record<Operational>>, now: int, next: Option<Position>)

  datatype Sweep = Sweep(stores: Stores, phase: Phase, clock: int)

  datatype Step =
    | Begin(limit: nat)
    | ReadSource(at: int)
    | DeleteNext(fails: bool)
    | Finish
    | Others(stores: Stores)  // any change of the stores by other writers

  ghost predicate Possible(s: Sweep, step: Step) {
    match step
    case Begin(limit) => s.phase.Resting? && s.phase.at.Some? && s.phase.at.value.source < 3 && limit > 0
    case ReadSource(at) => s.phase.ReadingPage? && s.phase.from.source < 3 && s.phase.remaining > 0 && s.clock <= at
    case DeleteNext(_) => s.phase.Deleting? && s.phase.inHand != [] && s.phase.inHand[0].source < 3
    case Finish => s.phase.Deleting? && s.phase.inHand == []
    case Others(stores) => AllSorted(stores)
  }

  /** Where a page goes on after a source has been read; the clock is read once the page is complete. */
  function PageGoesOn(s: Sweep, at: int): Phase
    requires s.phase.ReadingPage? && s.phase.from.source < 3 && s.phase.remaining > 0
  {
    var from := s.phase.from;
    var (docs, next) := ScanPage(s.stores[from.source], from.after, s.phase.remaining);
    var read, left := s.phase.read + Tag(from.source, docs), s.phase.remaining - |docs|;
    if next.Some? then Deleting(read, at, Some(Position(from.source, next)))
    else if from.source == 2 then Deleting(read, at, None)
    else if left == 0 then Deleting(read, at, Some(Position(from.source + 1, None)))
    else ReadingPage(Position(from.source + 1, None), left, read)
  }

  function Next(s: Sweep, step: Step): Sweep
    requires Possible(s, step)
  {
    match step
    case Begin(limit) => s.(phase := ReadingPage(s.phase.at.value, limit, []))
    case ReadSource(at) => s.(phase := PageGoesOn(s, at), clock := at)
    case DeleteNext(fails) =>
      s.(stores := Handled(s.stores, s.phase.inHand[0], s.phase.now, fails),
         phase := s.phase.(inHand := s.phase.inHand[1..]))
    case Finish => s.(phase := Resting(s.phase.next))
    case Others(stores) => s.(stores := stores)
  }

  ghost predicate IsSweep(trail: seq<Sweep>, steps: seq<Step>) {
    && |trail| == |steps| + 1 && trail[0].phase == Resting(Some(START)) && AllSorted(trail[0].stores)
    && forall k :: 0 <= k < |steps| ==> Possible(trail[k], steps[k]) && trail[k + 1] == Next(trail[k], steps[k])
  }

  // -------------------------------------------------------------------------
  // What each step keeps
  // -------------------------------------------------------------------------

  lemma HandledIs(stores: Stores, r: Record<Operational>, now: int, fails: bool, c: nat, d: Doc<Operational>)
    requires AllSorted(stores) && r.source < 3 && c < 3
    ensures AllSorted(Handled(stores, r, now, fails))
    ensures d in Handled(stores, r, now, fails)[c] <==>
      d in stores[c] && !(c == r.source && d.id == r.doc.id && IsCandidate(c, r.doc.data, now) && !fails)
  {
    WithoutSorted(stores[r.source], r.doc.id);
    WithoutHolds(stores[r.source], r.doc.id, d);
  }

  lemma StaysSorted(s: Sweep, step: Step)
    requires AllSorted(s.stores) && Possible(s, step)
    ensures AllSorted(Next(s, step).stores)
  {
    if step.DeleteNext? {
      WithoutSorted(s.stores[s.phase.inHand[0].source], s.phase.inHand[0].doc.id);
    }
  }

  /** Only other writers bring documents in. */
  lemma OwnStepsBringNothing(s: Sweep, step: Step, c: nat, d: Doc<Operational>)
    requires AllSorted(s.stores) && Possible(s, step) && !step.Others? && c < 3
    ensures d in Next(s, step).stores[c] ==> d in s.stores[c]
  {
    if step.DeleteNext? {
      HandledIs(s.stores, s.phase.inHand[0], s.phase.now, step.fails, c, d);
    }
  }

  // -------------------------------------------------------------------------
  // A full sweep misses no candidate
  // -------------------------------------------------------------------------

  /** The document is in hand, or still ahead of the sweep. */
  ghost predicate Covered(s: Sweep, c: nat, d: Doc<Operational>) {
    match s.phase
    case Resting(at) => at.Some? && Ahead(at.value, c, d.id)
    case ReadingPage(from, _, read) => Record(c, d) in read || Ahead(from, c, d.id)
    case Deleting(inHand, _, next) => Record(c, d) in inHand || (next.Some? && Ahead(next.value, c, d.id))
  }

  lemma ScanCovers(docs: Collection<Operational>, after: Option<string>, limit: nat, d: Doc<Operational>)
    requires Sorted(docs) && limit > 0 && d in docs && IsAfter(after, d.id)
    ensures var (page, next) := ScanPage(docs, after, limit);
      d in page || (next.Some? && IsAfter(next, d.id))
  {
    AfterHolds(docs, after, d);
    AfterSorted(docs, after);
    var rest := After(docs, after);
    var i :| 0 <= i < |rest| && rest[i] == d;
    if i < limit && |rest| > limit {
      assert rest[..limit][i] == d;
    }
  }

  lemma ReadKeepsCovered(s: Sweep, at: int, c: nat, d: Doc<Operational>)
    requires AllSorted(s.stores) && Possible(s, ReadSource(at)) && c < 3 && d in s.stores[c] && Covered(s, c, d)
    ensures Covered(Next(s, ReadSource(at)), c, d)
  {
    var from := s.phase.from;
    var (docs, next) := ScanPage(s.stores[from.source], from.after, s.phase.remaining);
    if Record(c, d) !in s.phase.read && c == from.source {
      ScanCovers(s.stores[c], from.after, s.phase.remaining, d);
      if d in docs {
        var i :| 0 <= i < |docs| && docs[i] == d;
        assert Tag(c, docs)[i] == Record(c, d);
      }
    }
  }

  lemma StepKeepsCovered(s: Sweep, step: Step, c: nat, d: Doc<Operational>)
    requires AllSorted(s.stores) && Possible(s, step) && c < 3 && d in s.stores[c] && Covered(s, c, d)
    requires s.phase.Deleting? ==> IsCandidate(c, d.data, s.phase.now)
    requires step.DeleteNext? && s.phase.inHand[0] == Record(c, d) ==> !step.fails
    requires d in Next(s, step).stores[c]
    ensures Covered(Next(s, step), c, d)
  {
    match step
    case ReadSource(at) => ReadKeepsCovered(s, at, c, d);
    case DeleteNext(fails) => HandledIs(s.stores, s.phase.inHand[0], s.phase.now, fails, c, d);
    case _ =>
  }

  /** The other writers leave document `d` of source `c` as it is. */
  ghost predicate LeftAlone(trail: seq<Sweep>, steps: seq<Step>, c: nat, d: Doc<Operational>)
    requires IsSweep(trail, steps) && c < 3
  {
    forall k :: 0 <= k < |steps| && steps[k].Others? ==>
      (d in steps[k].stores[c] <==> d in trail[k].stores[c])
  }

  /** No deletion of the document fails. */
  ghost predicate NeverFails(trail: seq<Sweep>, steps: seq<Step>, c: nat, d: Doc<Operational>)
    requires IsSweep(trail, steps)
  {
    forall k :: 0 <= k < |steps| && steps[k].DeleteNext? && trail[k].phase.inHand[0] == Record(c, d) ==> !steps[k].fails
  }

  ghost predicate SinceThen(s: Sweep, clock: int) {
    clock <= s.clock && (s.phase.Deleting? ==> clock <= s.phase.now)
  }

  lemma {:induction false} GoneOrCovered(trail: seq<Sweep>, steps: seq<Step>, k: nat, c: nat, d: Doc<Operational>)
    requires IsSweep(trail, steps) && k < |trail| && c < 3
    requires LeftAlone(trail, steps, c, d) && NeverFails(trail, steps, c, d)
    requires IsCandidate(c, d.data, trail[0].clock)
    ensures AllSorted(trail[k].stores) && SinceThen(trail[k], trail[0].clock)
    ensures d in trail[k].stores[c] ==> Covered(trail[k], c, d)
  {
    if k > 0 {
      GoneOrCovered(trail, steps, k - 1, c, d);
      StaysSorted(trail[k - 1], steps[k - 1]);
      if d in trail[k].stores[c] {
        if !steps[k - 1].Others? {
          OwnStepsBringNothing(trail[k - 1], steps[k - 1], c, d);
        }
        StepKeepsCovered(trail[k - 1], steps[k - 1], c, d);
      }
    }
  }

  /**
   * A finished sweep, with other writers between any two of its steps, has removed every document that was a
   * candidate when it began, that they left alone and whose deletion did not fail.
   */
  lemma FinishedSweepRemovesEveryCandidate(trail: seq<Sweep>, steps: seq<Step>, c: nat, d: Doc<Operational>)
    requires IsSweep(trail, steps) && c < 3 && trail[|steps|].phase == Resting(None)
    requires LeftAlone(trail, steps, c, d) && NeverFails(trail, steps, c, d)
    requires IsCandidate(c, d.data, trail[0].clock)
    ensures d !in trail[|steps|].stores[c]
  {
    GoneOrCovered(trail, steps, |steps|, c, d);
  }

  /** In fields: everything that had expired when the sweep began is gone, of the connections all PENDING ones. */
  lemma FinishedSweepRemovesWhatHadExpired(
      trail: seq<Sweep>, steps: seq<Step>, c: nat, d: Doc<Operational>, t: int)
    requires IsSweep(trail, steps) && c < 3 && trail[|steps|].phase == Resting(None)
    requires LeftAlone(trail, steps, c, d) && NeverFails(trail, steps, c, d)
    requires d.data.expiresAt == Some(t) && t <= trail[0].clock && (c == 0 ==> d.data.status == PENDING)
    ensures d !in trail[|steps|].stores[c]
  {
    FinishedSweepRemovesEveryCandidate(trail, steps, c, d);
  }

  // -------------------------------------------------------------------------
  // What a deletion hits
  // -------------------------------------------------------------------------

  /** The deletion takes document `d` of source `c` away. */
  ghost predicate Removes(s: Sweep, step: Step, c: nat, d: Doc<Operational>)
    requires Possible(s, step) && c < 3
  {
    step.DeleteNext? && d in s.stores[c] && d !in Next(s, step).stores[c]
  }

  /** The record in hand was a candidate, but the document now stored under its id is none. */
  ghost predicate Overtaken(s: Sweep, step: Step, d: Doc<Operational>)
    requires Possible(s, step)
  {
    && step.DeleteNext? && !step.fails
    && var r := s.phase.inHand[0];
    && IsCandidate(r.source, r.doc.data, s.phase.now)
    && d in s.stores[r.source] && d.id == r.doc.id && !IsCandidate(r.source, d.data, s.phase.now)
  }

  /** At this step, only candidates go. */
  ghost predicate HitsCandidates(s: Sweep, step: Step)
    requires Possible(s, step)
  {
    forall c: nat, d :: c < 3 && Removes(s, step, c, d) ==> IsCandidate(c, d.data, s.phase.now)
  }

  /** A deletion removes a document that is no candidate exactly when it has been overtaken. */
  lemma DeletionHitsACandidateUnlessOvertaken(s: Sweep, step: Step)
    requires AllSorted(s.stores) && Possible(s, step) && step.DeleteNext?
    ensures HitsCandidates(s, step) <==> !exists d :: Overtaken(s, step, d)
  {
    var r := s.phase.inHand[0];
    if d :| Overtaken(s, step, d) {
      HandledIs(s.stores, r, s.phase.now, step.fails, r.source, d);
      assert Removes(s, step, r.source, d);
    } else {
      forall c: nat, d | c < 3 && Removes(s, step, c, d) ensures IsCandidate(c, d.data, s.phase.now) {
        HandledIs(s.stores, r, s.phase.now, step.fails, c, d);
        assert !Overtaken(s, step, d);
      }
    }
  }

  lemma {:induction false} SweepStaysSorted(trail: seq<Sweep>, steps: seq<Step>, k: nat)
    requires IsSweep(trail, steps) && k < |trail|
    ensures AllSorted(trail[k].stores)
  {
    if k > 0 {
      SweepStaysSorted(trail, steps, k - 1);
      StaysSorted(trail[k - 1], steps[k - 1]);
    }
  }

  /** In every run, the sweep removes candidates only exactly when no deletion is overtaken. */
  lemma RemovesOnlyCandidatesExactlyWhenNoneOvertaken(trail: seq<Sweep>, steps: seq<Step>)
    requires IsSweep(trail, steps)
    ensures (forall k :: 0 <= k < |steps| && steps[k].DeleteNext? ==> HitsCandidates(trail[k], steps[k])) <==>
      (forall k, d :: 0 <= k < |steps| && steps[k].DeleteNext? ==> !Overtaken(trail[k], steps[k], d))
  {
    forall k | 0 <= k < |steps| && steps[k].DeleteNext?
      ensures HitsCandidates(trail[k], steps[k]) <==> !exists d :: Overtaken(trail[k], steps[k], d)
    {
      SweepStaysSorted(trail, steps, k);
      DeletionHitsACandidateUnlessOvertaken(trail[k], steps[k]);
    }
  }

  /** So of the connections only PENDING ones go, unless another writer changed one that was in hand. */
  lemma ActiveConnectionsGoOnlyWhenOvertaken(trail: seq<Sweep>, steps: seq<Step>, k: nat, d: Doc<Operational>)
    requires IsSweep(trail, steps) && k < |steps| && Removes(trail[k], steps[k], PENDING_CONNECTIONS, d)
    ensures d.data.status == PENDING || Overtaken(trail[k], steps[k], d)
  {
    SweepStaysSorted(trail, steps, k);
    HandledIs(trail[k].stores, trail[k].phase.inHand[0], trail[k].phase.now, steps[k].fails, PENDING_CONNECTIONS, d);
  }

  /** What may go at `now`, in fields: it has a time of expiry that is past, and a connection is PENDING. */
  predicate Expired(c: nat, data: Operational, now: int) {
    data.expiresAt.Some? && data.expiresAt.value <= now && (c == 0 ==> data.status == PENDING)
  }

  /**
   * A document that goes had expired by the clock of its page, and a connection was PENDING; or else what was read
   * under its id had, and this document has taken its place.
   */
  lemma OnlyTheExpiredGo(trail: seq<Sweep>, steps: seq<Step>, k: nat, c: nat, d: Doc<Operational>)
    requires IsSweep(trail, steps) && k < |steps| && c < 3 && Removes(trail[k], steps[k], c, d)
    ensures trail[k].phase.now <= trail[k].clock
    ensures var r, now := trail[k].phase.inHand[0], trail[k].phase.now;
      && r.source == c && r.doc.id == d.id && Expired(c, r.doc.data, now)
      && (Expired(c, d.data, now) || (r.doc != d && Overtaken(trail[k], steps[k], d)))
  {
    SweepStaysSorted(trail, steps, k);
    PageClockIsPast(trail, steps, k);
    HandledIs(trail[k].stores, trail[k].phase.inHand[0], trail[k].phase.now, steps[k].fails, c, d);
  }

  lemma {:induction false} PageClockIsPast(trail: seq<Sweep>, steps: seq<Step>, k: nat)
    requires IsSweep(trail, steps) && k < |trail|
    ensures trail[k].phase.Deleting? ==> trail[k].phase.now <= trail[k].clock
  {
    if k > 0 {
      PageClockIsPast(trail, steps, k - 1);
    }
  }

  // -------------------------------------------------------------------------
  // Only another writer can overtake
  // -------------------------------------------------------------------------

  function InHand(s: Sweep): seq<Record<Operational>> {
    match s.phase
    case Resting(_) => []
    case ReadingPage(_, _, read) => read
    case Deleting(inHand, _, _) => inHand
  }

  /** Another writer brought the document in after step `from`. */
  ghost predicate WrittenSince(trail: seq<Sweep>, steps: seq<Step>, from: nat, k: nat, c: nat, d: Doc<Operational>)
    requires IsSweep(trail, steps) && k < |trail| && c < 3
  {
    exists j :: from < j < k && steps[j].Others? && d !in trail[j].stores[c] && d in trail[j + 1].stores[c]
  }

  /** The record was read at step `from`, and whatever else is stored under its id has been written since. */
  ghost predicate ReadAt(trail: seq<Sweep>, steps: seq<Step>, from: nat, k: nat, r: Record<Operational>)
    requires IsSweep(trail, steps) && k < |trail| && r.source < 3
  {
    && from < k && steps[from].ReadSource? && r.doc in trail[from].stores[r.source]
    && forall d :: d in trail[k].stores[r.source] && d.id == r.doc.id ==>
         d == r.doc || WrittenSince(trail, steps, from, k, r.source, d)
  }

  lemma ReadAtGoesOn(trail: seq<Sweep>, steps: seq<Step>, from: nat, k: nat, r: Record<Operational>)
    requires IsSweep(trail, steps) && k < |steps| && r.source < 3 && ReadAt(trail, steps, from, k, r)
    ensures ReadAt(trail, steps, from, k + 1, r)
  {
    SweepStaysSorted(trail, steps, k);
    forall d | d in trail[k + 1].stores[r.source] && d.id == r.doc.id
      ensures d == r.doc || WrittenSince(trail, steps, from, k + 1, r.source, d)
    {
      if d in trail[k].stores[r.source] {
        if d != r.doc {
          var j :| from < j < k && steps[j].Others?
            && d !in trail[j].stores[r.source] && d in trail[j + 1].stores[r.source];
        }
      } else if !steps[k].Others? {
        OwnStepsBringNothing(trail[k], steps[k], r.source, d);
      } else {
        assert from < k < k + 1;
      }
    }
  }

  lemma FreshlyRead(trail: seq<Sweep>, steps: seq<Step>, k: nat, r: Record<Operational>)
    requires IsSweep(trail, steps) && k < |steps| && steps[k].ReadSource? && r in InHand(trail[k + 1])
    requires r !in InHand(trail[k])
    ensures r.source < 3 && ReadAt(trail, steps, k, k + 1, r)
  {
    SweepStaysSorted(trail, steps, k);
    var from := trail[k].phase.from;
    var (docs, next) := ScanPage(trail[k].stores[from.source], from.after, trail[k].phase.remaining);
    var i :| 0 <= i < |docs| && Tag(from.source, docs)[i] == r;
    AfterHolds(trail[k].stores[from.source], from.after, r.doc);
    assert r.doc in After(trail[k].stores[from.source], from.after);
    forall d | d in trail[k + 1].stores[r.source] && d.id == r.doc.id ensures d == r.doc {
      SortedIdsAreUnique(trail[k].stores[r.source], d, r.doc);
    }
  }

  lemma OnlyReadsFillTheHand(s: Sweep, step: Step, r: Record<Operational>)
    requires Possible(s, step) && r in InHand(Next(s, step)) && r !in InHand(s)
    ensures step.ReadSource?
  {
  }

  /** Every record in hand was read during the run, and only other writers can have put anything else in its place. */
  lemma {:induction false} RecordsInHandWereRead(trail: seq<Sweep>, steps: seq<Step>, k: nat, r: Record<Operational>)
    returns (from: nat)
    requires IsSweep(trail, steps) && k < |trail| && r in InHand(trail[k])
    ensures r.source < 3 && ReadAt(trail, steps, from, k, r)
  {
    assert k > 0;
    var before := k - 1;
    assert trail[before + 1] == Next(trail[before], steps[before]);
    if r in InHand(trail[before]) {
      from := RecordsInHandWereRead(trail, steps, before, r);
      ReadAtGoesOn(trail, steps, from, before, r);
    } else {
      from := before;
      OnlyReadsFillTheHand(trail[before], steps[before], r);
      FreshlyRead(trail, steps, before, r);
    }
  }

  /** A deletion is overtaken only by another writer, who wrote that document after the record had been read. */
  lemma OvertakenByAWriteSinceTheRead(trail: seq<Sweep>, steps: seq<Step>, k: nat, d: Doc<Operational>)
    returns (from: nat)
    requires IsSweep(trail, steps) && k < |steps| && Overtaken(trail[k], steps[k], d)
    ensures var r := trail[k].phase.inHand[0];
      && from < k && steps[from].ReadSource? && r.doc in trail[from].stores[r.source]
      && WrittenSince(trail, steps, from, k, r.source, d)
  {
    var r := trail[k].phase.inHand[0];
    from := RecordsInHandWereRead(trail, steps, k, r);
  }

  /** It happens: an expired connection, activated between its read and its deletion, is removed. */
  lemma ActivatedMeanwhileIsRemoved(id: string, expired: int) returns (trail: seq<Sweep>, steps: seq<Step>)
    ensures var active := Doc(id, Operational(Some(expired), ACTIVE));
      && IsSweep(trail, steps) && |steps| == 4 && Removes(trail[3], steps[3], PENDING_CONNECTIONS, active)
  {
    var pending, active := Doc(id, Operational(Some(expired), PENDING)), Doc(id, Operational(Some(expired), ACTIVE));
    var before: Stores, after: Stores := [[pending], [], []], [[active], [], []];
    var hand := [Record(PENDING_CONNECTIONS, pending)];
    var on := Some(Position(1, None));
    steps := [Begin(1), ReadSource(expired), Others(after), DeleteNext(false)];
    var s0 := Sweep(before, Resting(Some(START)), expired);
    var s1 := Sweep(before, ReadingPage(START, 1, []), expired);
    var s2 := Sweep(before, Deleting(hand, expired, on), expired);
    var s3 := Sweep(after, Deleting(hand, expired, on), expired);
    assert After([pending], None) == [pending];
    assert Tag(PENDING_CONNECTIONS, [pending]) == hand;
    assert [] + hand == hand;
    assert ScanPage([pending], None, 1) == ([pending], None);
    assert Next(s1, steps[1]) == s2;
    trail := [s0, s1, s2, s3, Next(s3, steps[3])];
    HandledIs(after, hand[0], expired, false, PENDING_CONNECTIONS, active);
  }

  // -------------------------------------------------------------------------
  // With nobody else writing
  // -------------------------------------------------------------------------

  /** The steps lead from one state to the other, and none is another writer's. */
  ghost predicate Leads(s: Sweep, steps: seq<Step>, t: Sweep)
    decreases |steps|
  {
    if steps == [] then s == t
    else !steps[0].Others? && Possible(s, steps[0]) && Leads(Next(s, steps[0]), steps[1..], t)
  }

  lemma LeadsOn(s: Sweep, step: Step, steps: seq<Step>, t: Sweep)
    requires !step.Others? && Possible(s, step) && Leads(Next(s, step), steps, t)
    ensures Leads(s, [step] + steps, t)
  {
    assert ([step] + steps)[1..] == steps;
  }

  /** After one source has been read, what is still to come of the page, if anything, is what the rest of it holds. */
  lemma PageUnfolds(s: Sweep, now: int)
    requires Possible(s, ReadSource(now))
    ensures var (records, next) := Page(s.stores, s.phase.from, s.phase.remaining);
      match PageGoesOn(s, now)
      case ReadingPage(from, remaining, read) =>
        && from.source < 3 && remaining > 0
        && read + Page(s.stores, from, remaining).0 == s.phase.read + records
        && Page(s.stores, from, remaining).1 == next
      case Deleting(inHand, at, end) => inHand == s.phase.read + records && at == now && end == next
      case Resting(_) => false
  {
    var from, read := s.phase.from, s.phase.read;
    var (docs, next) := ScanPage(s.stores[from.source], from.after, s.phase.remaining);
    var here, left := Tag(from.source, docs), s.phase.remaining - |docs|;
    if next.None? {
      var more := Page(s.stores, Position(from.source + 1, None), left).0;
      assert read + (here + more) == (read + here) + more;
      assert here + [] == here;
    }
  }

  lemma {:induction false} PageAlone(s: Sweep, now: int) returns (steps: seq<Step>)
    requires s.phase.ReadingPage? && s.phase.from.source < 3 && s.phase.remaining > 0 && s.clock <= now
    ensures var (records, next) := Page(s.stores, s.phase.from, s.phase.remaining);
      Leads(s, steps, s.(phase := Deleting(s.phase.read + records, now, next), clock := now))
    decreases 3 - s.phase.from.source
  {
    var t := Next(s, ReadSource(now));
    PageUnfolds(s, now);
    var rest := [];
    if t.phase.ReadingPage? {
      rest := PageAlone(t, now);
    }
    var page := Page(s.stores, s.phase.from, s.phase.remaining);
    LeadsOn(s, ReadSource(now), rest, s.(phase := Deleting(s.phase.read + page.0, now, page.1), clock := now));
    steps := [ReadSource(now)] + rest;
  }

  lemma {:induction false} DeletionsAlone(
      s: Sweep, stores: Stores, records: seq<Record<Operational>>, i: nat, failing: set<(nat, string)>)
    returns (steps: seq<Step>)
    requires i <= |records| && (forall r :: r in records ==> r.source < 3)
    requires s.phase.Deleting? && s.phase.inHand == records[i..]
    requires s.stores == Cleaned(stores, records, i, s.phase.now, failing)
    ensures Leads(s, steps, s.(
      stores := Cleaned(stores, records, |records|, s.phase.now, failing), phase := s.phase.(inHand := [])))
    decreases |records| - i
  {
    if i == |records| {
      steps := [];
    } else {
      var r := records[i];
      assert records[i..][0] == r && records[i..][1..] == records[i + 1..];
      var step := DeleteNext((r.source, r.doc.id) in failing);
      var rest := DeletionsAlone(Next(s, step), stores, records, i + 1, failing);
      LeadsOn(s, step, rest, s.(
        stores := Cleaned(stores, records, |records|, s.phase.now, failing), phase := s.phase.(inHand := [])));
      steps := [step] + rest;
    }
  }

  lemma {:induction false} LeadsJoin(s: Sweep, a: seq<Step>, t: Sweep, b: seq<Step>, u: Sweep)
    requires Leads(s, a, t) && Leads(t, b, u)
    ensures Leads(s, a + b, u)
    decreases |a|
  {
    if a == [] {
      assert a + b == b;
    } else {
      LeadsJoin(Next(s, a[0]), a[1..], t, b, u);
      assert (a + b)[1..] == a[1..] + b;
    }
  }

  /** With nobody else writing, the steps of a call come to exactly the undisturbed call. */
  lemma CallAlone(s: Sweep, limit: nat, now: int, failing: set<(nat, string)>) returns (steps: seq<Step>)
    requires AllSorted(s.stores) && s.phase.Resting? && s.phase.at.Some? && s.phase.at.value.source < 3
    requires limit > 0 && s.clock <= now
    ensures var (stores, next) := CallFrom(s.stores, s.phase.at.value, limit, now, failing);
      Leads(s, steps, Sweep(stores, Resting(next), now))
  {
    var at := s.phase.at.value;
    var (records, next) := Page(s.stores, at, limit);
    PageRecords(s.stores, at, limit);
    var reading := Next(s, Begin(limit));
    var read := PageAlone(reading, now);
    assert [] + records == records;
    var deleting := reading.(phase := Deleting(records, now, next), clock := now);
    assert records[0..] == records;
    var deleted := DeletionsAlone(deleting, s.stores, records, 0, failing);
    var done := deleting.(
      stores := Cleaned(s.stores, records, |records|, now, failing), phase := Deleting([], now, next));
    var end := Next(done, Finish);
    LeadsOn(done, Finish, [], end);
    assert [Finish] + [] == [Finish];
    LeadsJoin(deleting, deleted, done, [Finish], end);
    LeadsJoin(reading, read, deleting, deleted + [Finish], end);
    LeadsOn(s, Begin(limit), read + (deleted + [Finish]), end);
    steps := [Begin(limit)] + (read + (deleted + [Finish]));
  }
}
