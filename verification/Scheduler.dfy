/** The scheduler's bounded calls: paging over sources by cursor, and cleaning expired records. */
module Scheduler {
  import opened Options
  import opened Paging
  import opened Cleanup
  import Cursor

  /** `BadCursor` is the error answer (status 422). */
  datatype Answer<D> = BadCursor | Answer(records: seq<Record<D>>, next: Option<string>)

  function EncodeNext(operation: string, next: Option<Position>): Option<string> {
    if next.Some? then Some(Cursor.Encode(operation, next.value)) else None
  }

  /** What a call answers for a decoded position. */
  function AnswerFrom<D>(operation: string, sources: seq<Collection<D>>, at: Option<Position>, limit: nat): Answer<D> {
    if at.None? || at.value.source >= |sources| then BadCursor
    else
      var (records, next) := Page(sources, at.value, limit);
      Answer(records, EncodeNext(operation, next))
  }

  /** A call is refused exactly when its cursor does not decode, or decodes to a source that there is not. */
  lemma RefusedExactlyWhenTheCursorIsBad<D>(
      operation: string, sources: seq<Collection<D>>, cursor: Option<string>, limit: nat)
    ensures AnswerFrom(operation, sources, Cursor.Decode(operation, cursor), limit) == BadCursor <==>
      || Cursor.Decode(operation, cursor) == None
      || |sources| <= Cursor.Decode(operation, cursor).value.source
  {
  }

  /** `records` is the part of the page from `start` that precedes the page from `at`. */
  ghost predicate Gathered<D>(
      sources: seq<Collection<D>>, start: Position, limit: nat, at: Position, remaining: nat, records: seq<Record<D>>) {
    var (all, end) := Page(sources, start, limit);
    var (more, last) := Page(sources, at, remaining);
    all == records + more && end == last
  }

  /** The page from `start` is complete with these records and this continuation. */
  ghost predicate IsPage<D>(
      sources: seq<Collection<D>>, start: Position, limit: nat, records: seq<Record<D>>, stop: Option<Position>) {
    Page(sources, start, limit) == (records, stop)
  }

  lemma GatheredStep<D>(
      sources: seq<Collection<D>>, start: Position, limit: nat, at: Position, remaining: nat,
      records: seq<Record<D>>, docs: Collection<D>, next: Option<string>)
    requires Gathered(sources, start, limit, at, remaining, records) && at.source < |sources| && remaining > 0
    requires ScanPage(sources[at.source], at.after, remaining) == (docs, next)
    ensures |docs| <= remaining
    ensures next.Some? ==>
      IsPage(sources, start, limit, records + Tag(at.source, docs), Some(Position(at.source, next)))
    ensures next.None? ==>
      Gathered(sources, start, limit, Position(at.source + 1, None), remaining - |docs|, records + Tag(at.source, docs))
  {
    if next.None? {
      var (more, last) := Page(sources, Position(at.source + 1, None), remaining - |docs|);
      assert records + (Tag(at.source, docs) + more) == (records + Tag(at.source, docs)) + more;
    }
  }

  lemma GatheredStart<D>(sources: seq<Collection<D>>, start: Position, limit: nat)
    ensures Gathered(sources, start, limit, start, limit, [])
  {
    assert [] + Page(sources, start, limit).0 == Page(sources, start, limit).0;
  }

  lemma GatheredEnd<D>(
      sources: seq<Collection<D>>, start: Position, limit: nat, at: Position, remaining: nat, records: seq<Record<D>>)
    requires Gathered(sources, start, limit, at, remaining, records) && (at.source >= |sources| || remaining == 0)
    ensures IsPage(sources, start, limit, records, if at.source < |sources| then Some(at) else None)
  {
    assert records + [] == records;
  }

  /** Reads the sources one after another until the limit or the last source is reached. */
  method ReadSources<D>(sources: seq<Collection<D>>, start: Position, limit: nat)
    returns (records: seq<Record<D>>, stop: Option<Position>)
    requires start.source < |sources|
    ensures IsPage(sources, start, limit, records, stop)
  {
    var source: nat, remaining: nat := start.source, limit;
    var after := start.after;
    records := [];
    GatheredStart(sources, start, limit);
    while source < |sources| && remaining > 0
      invariant source <= |sources|
      invariant Gathered(sources, start, limit, Position(source, after), remaining, records)
      decreases |sources| - source
    {
      var (page, next) := ScanPage(sources[source], after, remaining);
      GatheredStep(sources, start, limit, Position(source, after), remaining, records, page, next);
      records := records + Tag(source, page);
      remaining := remaining - |page|;
      if next.Some? {
        return records, Some(Position(source, next));
      }
      source, after := source + 1, None;
    }
    GatheredEnd(sources, start, limit, Position(source, after), remaining, records);
    stop := if source < |sources| then Some(Position(source, after)) else None;
  }

  /** One bounded call: decode the cursor, read on from there, encode where the page stopped. */
  method PageSources<D>(operation: string, sources: seq<Collection<D>>, cursor: Option<string>, limit: nat)
    returns (answer: Answer<D>)
    ensures answer == AnswerFrom(operation, sources, Cursor.Decode(operation, cursor), limit)
  {
    var start := Cursor.Decode(operation, cursor);
    if start.None? || start.value.source >= |sources| {
      return BadCursor;
    }
    var records, stop := ReadSources(sources, start.value, limit);
    answer := Answer(records, EncodeNext(operation, stop));
  }

  /** A handed-out cursor resumes exactly where its page stopped, for the same operation only. */
  lemma CursorsResumeThePage<D>(
      operation: string, sources: seq<Collection<D>>, at: Position, limit: nat, again: nat, other: string)
    requires AllSorted(sources) && Page(sources, at, limit).1.Some?
    ensures var next := Page(sources, at, limit).1;
      var cursor := EncodeNext(operation, next);
      && AnswerFrom(operation, sources, Cursor.Decode(operation, cursor), again)
         == (var (records, more) := Page(sources, next.value, again); Answer(records, EncodeNext(operation, more)))
      && (other != operation ==> AnswerFrom(other, sources, Cursor.Decode(other, cursor), again) == BadCursor)
  {
    PageSplits(sources, at, limit);
    Cursor.CursorRoundTrip(operation, Page(sources, at, limit).1.value, operation);
    Cursor.CursorRoundTrip(operation, Page(sources, at, limit).1.value, other);
  }

  /** The measure of a walk: what remains from where the cursor points. */
  ghost function LeftToRead<D>(operation: string, sources: seq<Collection<D>>, cursor: Option<string>): nat {
    var at := Cursor.Decode(operation, cursor);
    if at.None? then 0 else |Remaining(sources, at.value)|
  }

  lemma NextCallIsCloser<D>(operation: string, sources: seq<Collection<D>>, at: Position, limit: nat)
    requires AllSorted(sources) && limit > 0 && Page(sources, at, limit).1.Some?
    ensures var next := Page(sources, at, limit).1;
      && Cursor.Decode(operation, EncodeNext(operation, next)) == next
      && next.value.source < |sources|
      && |Remaining(sources, next.value)| < |Remaining(sources, at)|
  {
    PageSplits(sources, at, limit);
    Cursor.CursorRoundTrip(operation, Page(sources, at, limit).1.value, operation);
  }

  /** The pages a caller collects by sending each answer's cursor back until it gets none. */
  ghost function Walk<D>(operation: string, sources: seq<Collection<D>>, cursor: Option<string>, limit: nat)
    : seq<seq<Record<D>>>
    requires AllSorted(sources) && limit > 0
    decreases LeftToRead(operation, sources, cursor)
  {
    var at := Cursor.Decode(operation, cursor);
    match AnswerFrom(operation, sources, at, limit)
    case BadCursor => []
    case Answer(records, next) =>
      if next.None? then [records]
      else
        NextCallIsCloser(operation, sources, at.value, limit);
        [records] + Walk(operation, sources, next, limit)
  }

  lemma {:induction false} WalkIsSweep<D>(
      operation: string, sources: seq<Collection<D>>, cursor: Option<string>, at: Position, limit: nat)
    requires AllSorted(sources) && limit > 0
    requires Cursor.Decode(operation, cursor) == Some(at) && at.source < |sources|
    ensures Walk(operation, sources, cursor, limit) == Sweep(sources, at, limit)
    decreases |Remaining(sources, at)|
  {
    var next := Page(sources, at, limit).1;
    if next.Some? {
      NextCallIsCloser(operation, sources, at, limit);
      WalkIsSweep(operation, sources, EncodeNext(operation, next), next.value, limit);
    }
  }

  /**
   * Sending each call's cursor string back, from none until none, visits every record of every source once, in
   * order, in pages of at most `limit`, all but the last of them full.
   */
  lemma CallsVisitEverythingOnce<D>(operation: string, sources: seq<Collection<D>>, limit: nat)
    requires AllSorted(sources) && limit > 0 && sources != []
    ensures var pages := Walk(operation, sources, None, limit);
      && |pages| > 0 && Flatten(pages) == All(sources, 0)
      && (forall k :: 0 <= k < |pages| ==> |pages[k]| <= limit)
      && (forall k :: 0 <= k < |pages| - 1 ==> |pages[k]| == limit)
  {
    WalkIsSweep(operation, sources, None, START, limit);
    SweepVisitsEverythingOnce(sources, limit);
  }

  /** Of the page's documents those that have expired are gone, of the connections only PENDING ones; the rest stays. */
  ghost predicate RemovedExactly(
      was: Stores, stores: Stores, page: seq<Record<Operational>>, now: int, failing: set<(nat, string)>) {
    forall c: nat, d: Doc<Operational> :: c < 3 ==>
      (d in stores[c] <==>
        d in was[c]
        && !(Record(c, d) in page && (c, d.id) !in failing
             && d.data.expiresAt.Some? && d.data.expiresAt.value <= now && (c == 0 ==> d.data.status == PENDING)))
  }

  lemma CallRemovesExactlyTheExpired(stores: Stores, at: Position, limit: nat, now: int, failing: set<(nat, string)>)
    requires AllSorted(stores)
    ensures RemovedExactly(
      stores, CallFrom(stores, at, limit, now, failing).0, Page(stores, at, limit).0, now, failing)
  {
    forall c: nat, d: Doc<Operational> | c < 3
      ensures d in CallFrom(stores, at, limit, now, failing).0[c] ==> d in stores[c]
    {
      CallBringsNothing(stores, at, limit, now, failing, c, d);
    }
    forall c: nat, d: Doc<Operational> | c < 3 && d in stores[c]
      ensures d !in CallFrom(stores, at, limit, now, failing).0[c] <==>
        && Record(c, d) in Page(stores, at, limit).0 && (c, d.id) !in failing
        && d.data.expiresAt.Some? && d.data.expiresAt.value <= now && (c == 0 ==> d.data.status == PENDING)
    {
      CallRemovesExactly(stores, at, limit, now, failing, c, d);
    }
  }

  const CLEANUP := "expired-state-cleanup"

  class MaintenanceStore {
    var collections: Stores

    /** Deletes a document; `fails` stands for an error of the backend. */
    method Delete(source: nat, id: string, fails: bool) returns (ok: bool)
      requires source < 3
      modifies this
      ensures ok == !fails
      ensures collections == if fails then old(collections)
        else old(collections)[source := Without(old(collections)[source], id)]
    {
      ok := !fails;
      if ok {
        collections := collections[source := Without(collections[source], id)];
      }
    }

    /** One record of the page: `fails` tells whether its deletion would raise. */
    method CleanOne(r: Record<Operational>, now: int, fails: bool) returns (ok: bool)
      requires r.source < 3
      modifies this
      ensures collections == Handled(old(collections), r, now, fails)
      ensures ok <==> !(IsCandidate(r.source, r.doc.data, now) && fails)
    {
      ok := true;
      if IsCandidate(r.source, r.doc.data, now) {
        ok := Delete(r.source, r.doc.id, fails);
      }
    }

    /** Goes through a page's records, deleting the candidates; a deletion that raises is only counted. */
    method CleanRecords(records: seq<Record<Operational>>, now: int, failing: set<(nat, string)>)
      returns (processed: nat, failed: nat)
      requires forall r :: r in records ==> r.source < 3
      modifies this
      ensures collections == Cleaned(old(collections), records, |records|, now, failing)
      ensures failed == Failures(records, |records|, now, failing) && processed == |records| - failed
    {
      processed, failed := 0, 0;
      for i := 0 to |records|
        invariant failed == Failures(records, i, now, failing) && processed == i - failed
        invariant collections == Cleaned(old(collections), records, i, now, failing)
      {
        var ok := CleanOne(records[i], now, (records[i].source, records[i].doc.id) in failing);
        if ok {
          processed := processed + 1;
        } else {
          failed := failed + 1;
        }
      }
    }

    /** One cleanup call; the deletions of the documents in `failing` raise. */
    method CleanupExpired(cursor: Option<string>, limit: nat, now: int, failing: set<(nat, string)>)
      returns (processed: nat, failed: nat, next: Option<string>, bad: bool)
      requires AllSorted(collections) && limit > 0
      modifies this
      ensures var at := Cursor.Decode(CLEANUP, cursor);
        && (bad <==> at.None? || at.value.source >= 3)
        && (bad ==> collections == old(collections))
        && (!bad ==>
              var records := Page(old(collections), at.value, limit).0;
              && collections == CallFrom(old(collections), at.value, limit, now, failing).0
              && next == EncodeNext(CLEANUP, CallFrom(old(collections), at.value, limit, now, failing).1)
              && failed == Failures(records, |records|, now, failing) && processed == |records| - failed)
      ensures !bad ==>
        var page := Page(old(collections), Cursor.Decode(CLEANUP, cursor).value, limit).0;
        RemovedExactly(old(collections), collections, page, now, failing)
    {
      var at := Cursor.Decode(CLEANUP, cursor);
      var answer := PageSources(CLEANUP, collections, cursor, limit);
      processed, failed, next, bad := 0, 0, None, answer.BadCursor?;
      if bad {
        return;
      }
      PageRecords(collections, at.value, limit);
      next := answer.next;
      CallRemovesExactlyTheExpired(collections, at.value, limit, now, failing);
      processed, failed := CleanRecords(answer.records, now, failing);
    }
  }
}
