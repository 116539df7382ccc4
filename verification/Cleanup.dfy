/** Deleting expired operational records while paging over the very collections they are in. */
module Cleanup {
  import opened Options
  import opened Text
  import opened Paging

  const PENDING_CONNECTIONS := 0
  const OAUTH_STATES := 1
  const DEVICE_CHALLENGES := 2

  datatype Status = PENDING | ACTIVE | EXPIRED | REVOKED | NoStatus

  /** `expiresAt` is `None` when the stored value is missing or not a time. */
  datatype Operational = Operational(expiresAt: Option<int>, status: Status)

  type Stores = s: seq<Collection<Operational>> | |s| == 3 witness [[], [], []]

  predicate IsCandidate(source: nat, data: Operational, now: int) {
    && data.expiresAt.Some? && data.expiresAt.value <= now
    && (if source == PENDING_CONNECTIONS then data.status == PENDING
        else source == OAUTH_STATES || source == DEVICE_CHALLENGES)
  }

  function Without(docs: Collection<Operational>, id: string): Collection<Operational> {
    if docs == [] then []
    else (if docs[0].id == id then [] else [docs[0]]) + Without(docs[1..], id)
  }

  /** One record handled: a candidate's document is deleted by its id, unless the deletion fails. */
  function Handled(stores: Stores, r: Record<Operational>, now: int, fails: bool): Stores
    requires r.source < 3
  {
    if IsCandidate(r.source, r.doc.data, now) && !fails
    then stores[r.source := Without(stores[r.source], r.doc.id)] else stores
  }

  /** The stores after the first `n` records of a page have been handled. */
  function Cleaned(
      stores: Stores, records: seq<Record<Operational>>, n: nat, now: int, failing: set<(nat, string)>): Stores
    requires n <= |records| && forall r :: r in records ==> r.source < 3
  {
    if n == 0 then stores
    else
      var r := records[n - 1];
      Handled(Cleaned(stores, records, n - 1, now, failing), r, now, (r.source, r.doc.id) in failing)
  }

  /** How many of the first `n` deletions raised. */
  function Failures(records: seq<Record<Operational>>, n: nat, now: int, failing: set<(nat, string)>): nat
    requires n <= |records|
  {
    if n == 0 then 0
    else
      var r := records[n - 1];
      Failures(records, n - 1, now, failing)
      + if IsCandidate(r.source, r.doc.data, now) && (r.source, r.doc.id) in failing then 1 else 0
  }

  // -------------------------------------------------------------------------
  // Facts about a page and its deletions
  // -------------------------------------------------------------------------

  lemma {:induction false} WithoutHolds(docs: Collection<Operational>, id: string, d: Doc<Operational>)
    ensures d in Without(docs, id) <==> d in docs && d.id != id
  {
    if docs != [] {
      WithoutHolds(docs[1..], id, d);
      assert docs == [docs[0]] + docs[1..];
    }
  }

  lemma {:induction false} WithoutSorted(docs: Collection<Operational>, id: string)
    requires Sorted(docs)
    ensures Sorted(Without(docs, id))
  {
    if docs != [] {
      WithoutSorted(docs[1..], id);
      var rest := Without(docs[1..], id);
      forall j | 0 <= j < |rest| ensures Less(docs[0].id, rest[j].id) {
        WithoutHolds(docs[1..], id, rest[j]);
        var k :| 0 <= k < |docs[1..]| && docs[1..][k] == rest[j];
        assert docs[k + 1] == rest[j];
      }
    }
  }

  lemma SortedIdsAreUnique(docs: Collection<Operational>, a: Doc<Operational>, b: Doc<Operational>)
    requires Sorted(docs) && a in docs && b in docs && a.id == b.id
    ensures a == b
  {
    var i :| 0 <= i < |docs| && docs[i] == a;
    var j :| 0 <= j < |docs| && docs[j] == b;
    LessIrreflexive(a.id);
  }

  predicate Ahead(at: Position, source: nat, id: string) {
    at.source < source || (at.source == source && IsAfter(at.after, id))
  }

  lemma {:induction false} RemainingHolds(stores: seq<Collection<Operational>>, at: Position, r: Record<Operational>)
    ensures r in Remaining(stores, at) <==>
      r.source < |stores| && r.doc in stores[r.source] && Ahead(at, r.source, r.doc.id)
    decreases |stores| - at.source
  {
    if at.source < |stores| {
      RemainingHolds(stores, Position(at.source + 1, None), r);
      var here := After(stores[at.source], at.after);
      if r.source == at.source {
        AfterHolds(stores[at.source], at.after, r.doc);
      }
      if r.doc in here && r.source == at.source {
        var i :| 0 <= i < |here| && here[i] == r.doc;
        assert Tag(at.source, here)[i] == r;
      }
    }
  }

  // -------------------------------------------------------------------------
  // A call with nobody else writing
  // -------------------------------------------------------------------------

  /** One bounded call from a position: what it leaves and where the next one starts. */
  function CallFrom(stores: Stores, at: Position, limit: nat, now: int, failing: set<(nat, string)>)
    : (Stores, Option<Position>)
    requires AllSorted(stores)
  {
    PageRecords(stores, at, limit);
    var (records, next) := Page(stores, at, limit);
    (Cleaned(stores, records, |records|, now, failing), next)
  }

  lemma PageRecords(stores: Stores, at: Position, limit: nat)
    requires AllSorted(stores)
    ensures var (records, next) := Page(stores, at, limit);
      && (forall r :: r in records ==> r.source < 3 && r.doc in stores[r.source])
      && (forall r :: r in records || r in Rest(stores, next) <==> r in Remaining(stores, at))
  {
    PageSplits(stores, at, limit);
    var (records, next) := Page(stores, at, limit);
    forall r | r in records ensures r.source < 3 && r.doc in stores[r.source] {
      assert r in Remaining(stores, at);
      RemainingHolds(stores, at, r);
    }
  }

  lemma {:induction false} CleanedHolds(
      stores: Stores, records: seq<Record<Operational>>, n: nat, now: int, failing: set<(nat, string)>,
      c: nat, d: Doc<Operational>)
    requires n <= |records| && c < 3 && forall r :: r in records ==> r.source < 3
    ensures d in Cleaned(stores, records, n, now, failing)[c] <==>
      d in stores[c] && !exists k :: 0 <= k < n && Takes(records[k], c, d.id, now, failing)
  {
    if n > 0 {
      CleanedHolds(stores, records, n - 1, now, failing, c, d);
      var before := Cleaned(stores, records, n - 1, now, failing);
      WithoutHolds(before[records[n - 1].source], records[n - 1].doc.id, d);
    }
  }

  /** The handling of the record takes the document of source `c` with this id away. */
  predicate Takes(r: Record<Operational>, c: nat, id: string, now: int, failing: set<(nat, string)>) {
    r.source == c && r.doc.id == id && IsCandidate(c, r.doc.data, now) && (c, id) !in failing
  }

  /**
   * With nobody else writing, a call removes exactly the documents of its page that have expired by its clock, of the
   * connections only PENDING ones, and whose deletion does not fail.
   */
  lemma CallRemovesExactly(
      stores: Stores, at: Position, limit: nat, now: int, failing: set<(nat, string)>, c: nat, d: Doc<Operational>)
    requires AllSorted(stores) && c < 3 && d in stores[c]
    ensures d !in CallFrom(stores, at, limit, now, failing).0[c] <==>
      && Record(c, d) in Page(stores, at, limit).0 && (c, d.id) !in failing
      && d.data.expiresAt.Some? && d.data.expiresAt.value <= now && (c == 0 ==> d.data.status == PENDING)
  {
    PageRecords(stores, at, limit);
    var records := Page(stores, at, limit).0;
    CleanedHolds(stores, records, |records|, now, failing, c, d);
    if k :| 0 <= k < |records| && Takes(records[k], c, d.id, now, failing) {
      assert records[k] in records;
      SortedIdsAreUnique(stores[c], records[k].doc, d);
      assert records[k] == Record(c, d);
    }
    if Record(c, d) in records {
      var k :| 0 <= k < |records| && records[k] == Record(c, d);
      assert Takes(records[k], c, d.id, now, failing) <==> IsCandidate(c, d.data, now) && (c, d.id) !in failing;
    }
  }

  /** The records among the first `n` that had expired and whose deletion fails. */
  ghost function FailedOnes(records: seq<Record<Operational>>, n: nat, now: int, failing: set<(nat, string)>): set<nat>
    requires n <= |records|
  {
    set k: nat | k < n && FailsToGo(records[k], now, failing)
  }

  predicate FailsToGo(r: Record<Operational>, now: int, failing: set<(nat, string)>) {
    && r.source < 3 && (r.source, r.doc.id) in failing
    && r.doc.data.expiresAt.Some? && r.doc.data.expiresAt.value <= now
    && (r.source == 0 ==> r.doc.data.status == PENDING)
  }

  /** What is counted as failed are exactly those. */
  lemma {:induction false} FailuresAreCounted(
      records: seq<Record<Operational>>, n: nat, now: int, failing: set<(nat, string)>)
    requires n <= |records|
    ensures Failures(records, n, now, failing) == |FailedOnes(records, n, now, failing)|
  {
    if n > 0 {
      FailuresAreCounted(records, n - 1, now, failing);
      var before, after := FailedOnes(records, n - 1, now, failing), FailedOnes(records, n, now, failing);
      if FailsToGo(records[n - 1], now, failing) {
        assert after == before + {n - 1};
      } else {
        assert after == before;
      }
    } else {
      assert FailedOnes(records, 0, now, failing) == {};
    }
  }

  /** A call brings no document in. */
  lemma CallBringsNothing(
      stores: Stores, at: Position, limit: nat, now: int, failing: set<(nat, string)>, c: nat, d: Doc<Operational>)
    requires AllSorted(stores) && c < 3
    ensures d in CallFrom(stores, at, limit, now, failing).0[c] ==> d in stores[c]
  {
    PageRecords(stores, at, limit);
    CleanedHolds(stores, Page(stores, at, limit).0, |Page(stores, at, limit).0|, now, failing, c, d);
  }

  // -------------------------------------------------------------------------
  // Without other writers the sweep ends
  // -------------------------------------------------------------------------

  lemma {:induction false} WithoutBehind(docs: Collection<Operational>, id: string, after: Option<string>)
    requires !IsAfter(after, id)
    ensures After(Without(docs, id), after) == After(docs, after)
  {
    if docs != [] {
      WithoutBehind(docs[1..], id, after);
      var rest := Without(docs[1..], id);
      assert ([docs[0]] + rest)[1..] == rest && [] + rest == rest;
    }
  }

  lemma {:induction false} RemainingWithout(
      stores: seq<Collection<Operational>>, at: Position, c: nat, id: string)
    requires c < |stores| && !Ahead(at, c, id)
    ensures Remaining(stores[c := Without(stores[c], id)], at) == Remaining(stores, at)
    decreases |stores| - at.source
  {
    if at.source < |stores| {
      if at.source == c {
        WithoutBehind(stores[c], id, at.after);
      }
      RemainingPast(stores, stores[c := Without(stores[c], id)], at.source + 1);
    }
  }

  lemma {:induction false} RemainingPast(a: seq<Collection<Operational>>, b: seq<Collection<Operational>>, from: nat)
    requires |a| == |b| && forall i :: from <= i < |a| ==> a[i] == b[i]
    ensures Remaining(a, Position(from, None)) == Remaining(b, Position(from, None))
    decreases |a| - from
  {
    if from < |a| {
      RemainingPast(a, b, from + 1);
    }
  }

  lemma {:induction false} CleanedKeepsRest(
      stores: Stores, records: seq<Record<Operational>>, n: nat, now: int, failing: set<(nat, string)>, at: Position)
    requires n <= |records| && forall r :: r in records ==> r.source < 3 && !Ahead(at, r.source, r.doc.id)
    ensures Remaining(Cleaned(stores, records, n, now, failing), at) == Remaining(stores, at)
  {
    if n > 0 {
      CleanedKeepsRest(stores, records, n - 1, now, failing, at);
      var r := records[n - 1];
      RemainingWithout(Cleaned(stores, records, n - 1, now, failing), at, r.source, r.doc.id);
    }
  }

  lemma {:induction false} RemainingDistinct(stores: seq<Collection<Operational>>, at: Position)
    requires AllSorted(stores)
    ensures AllDistinct(Remaining(stores, at))
    decreases |stores| - at.source
  {
    if at.source < |stores| {
      var docs, next := After(stores[at.source], at.after), Position(at.source + 1, None);
      var here, rest := Tag(at.source, docs), Remaining(stores, next);
      RemainingDistinct(stores, next);
      AfterSorted(stores[at.source], at.after);
      forall i, j | 0 <= i < j < |here| ensures here[i] != here[j] {
        LessIrreflexive(docs[i].id);
      }
      forall j | 0 <= j < |rest| ensures rest[j].source > at.source {
        assert rest[j] in rest;
        RemainingHolds(stores, next, rest[j]);
      }
      forall i, j | 0 <= i < |here| && 0 <= j < |rest| ensures here[i] != rest[j] {
        assert here[i].source == at.source;
      }
      DistinctParts(here, rest);
    }
  }

  ghost predicate AllDistinct<T>(s: seq<T>) {
    forall i, j :: 0 <= i < j < |s| ==> s[i] != s[j]
  }

  lemma DistinctParts<T>(a: seq<T>, b: seq<T>)
    requires AllDistinct(a) && AllDistinct(b)
    requires forall i, j :: 0 <= i < |a| && 0 <= j < |b| ==> a[i] != b[j]
    ensures AllDistinct(a + b)
  {
    forall i, j | 0 <= i < j < |a + b| ensures (a + b)[i] != (a + b)[j] {
      assert (a + b)[i] == if i < |a| then a[i] else b[i - |a|];
      assert (a + b)[j] == if j < |a| then a[j] else b[j - |a|];
    }
  }

  lemma DisjointParts<T>(a: seq<T>, b: seq<T>)
    requires AllDistinct(a + b)
    ensures forall x :: x in a ==> x !in b
  {
    forall i, j | 0 <= i < |a| && 0 <= j < |b| ensures a[i] != b[j] {
      assert (a + b)[i] == a[i] && (a + b)[|a| + j] == b[j];
    }
  }

  /** With nobody else writing, each call ends the sweep or leaves `limit` fewer records ahead of it. */
  lemma CallsShrinkTheSweep(stores: Stores, at: Position, limit: nat, now: int, failing: set<(nat, string)>)
    requires AllSorted(stores) && limit > 0
    ensures var (after, next) := CallFrom(stores, at, limit, now, failing);
      next.Some? ==> |Remaining(after, next.value)| + limit == |Remaining(stores, at)|
  {
    PageRecords(stores, at, limit);
    PageSplits(stores, at, limit);
    var (records, next) := Page(stores, at, limit);
    if next.Some? {
      var all, rest := Remaining(stores, at), Remaining(stores, next.value);
      RemainingDistinct(stores, at);
      DisjointParts(records, rest);
      forall r | r in records ensures !Ahead(next.value, r.source, r.doc.id) {
        assert r in all && r !in rest;
        RemainingHolds(stores, next.value, r);
      }
      CleanedKeepsRest(stores, records, |records|, now, failing, next.value);
    }
  }
}
