/** Keyed collections read in pages, several collections behind one position. */
module Paging {
  import opened Options
  import opened Text

  datatype Doc<D> = Doc(id: string, data: D)

  /** A collection as its name-ordered index lists it. */
  type Collection<D> = seq<Doc<D>>

  ghost predicate Sorted<D>(docs: Collection<D>) {
    forall i, j :: 0 <= i < j < |docs| ==> Less(docs[i].id, docs[j].id)
  }

  /** Where the next page starts: a source, and the last document of it already read. */
  datatype Position = Position(source: nat, after: Option<string>)

  const START := Position(0, None)

  datatype Record<D> = Record(source: nat, doc: Doc<D>)

  predicate IsAfter(after: Option<string>, id: string) {
    after.None? || Less(after.value, id)
  }

  function After<D>(docs: Collection<D>, after: Option<string>): (rest: Collection<D>)
    ensures |rest| <= |docs|
  {
    if docs == [] then []
    else (if IsAfter(after, docs[0].id) then [docs[0]] else []) + After(docs[1..], after)
  }

  /** One page of a collection: `limit` documents past the cursor, and a cursor if more follow. */
  function ScanPage<D>(docs: Collection<D>, after: Option<string>, limit: nat): (Collection<D>, Option<string>)
    requires limit > 0
  {
    var rest := After(docs, after);
    if |rest| > limit then (rest[..limit], Some(rest[limit - 1].id)) else (rest, None)
  }

  function Tag<D>(source: nat, docs: Collection<D>): (records: seq<Record<D>>)
    ensures |records| == |docs| && forall i :: 0 <= i < |docs| ==> records[i] == Record(source, docs[i])
  {
    seq(|docs|, i requires 0 <= i < |docs| => Record(source, docs[i]))
  }

  /** Everything from a position on, source after source. */
  function Remaining<D>(sources: seq<Collection<D>>, at: Position): seq<Record<D>>
    decreases |sources| - at.source
  {
    if at.source >= |sources| then []
    else Tag(at.source, After(sources[at.source], at.after)) + Remaining(sources, Position(at.source + 1, None))
  }

  /** One bounded page over the sources, and the position to continue from, if any. */
  function Page<D>(sources: seq<Collection<D>>, at: Position, limit: nat): (seq<Record<D>>, Option<Position>)
    decreases |sources| - at.source
  {
    if at.source >= |sources| then ([], None)
    else if limit == 0 then ([], Some(at))
    else
      var (docs, next) := ScanPage(sources[at.source], at.after, limit);
      if next.Some? then (Tag(at.source, docs), Some(Position(at.source, next)))
      else
        var (more, end) := Page(sources, Position(at.source + 1, None), limit - |docs|);
        (Tag(at.source, docs) + more, end)
  }

  // -------------------------------------------------------------------------
  // What a page is
  // -------------------------------------------------------------------------

  lemma {:induction false} AfterHolds<D>(docs: Collection<D>, after: Option<string>, d: Doc<D>)
    ensures d in After(docs, after) <==> d in docs && IsAfter(after, d.id)
  {
    if docs != [] {
      AfterHolds(docs[1..], after, d);
      assert docs == [docs[0]] + docs[1..];
    }
  }

  lemma {:induction false} AfterNone<D>(docs: Collection<D>)
    ensures After(docs, None) == docs
  {
    if docs != [] {
      AfterNone(docs[1..]);
    }
  }

  lemma {:induction false} AfterSorted<D>(docs: Collection<D>, after: Option<string>)
    requires Sorted(docs)
    ensures Sorted(After(docs, after))
  {
    if docs != [] {
      AfterSorted(docs[1..], after);
      var rest := After(docs[1..], after);
      forall d | d in rest ensures d in docs[1..] {
        AfterHolds(docs[1..], after, d);
      }
      forall j | 0 <= j < |rest| ensures Less(docs[0].id, rest[j].id) {
        assert rest[j] in docs[1..];
      }
    }
  }

  lemma HeadIsLess<D>(docs: Collection<D>, d: Doc<D>)
    requires Sorted(docs) && docs != [] && d in docs[1..]
    ensures Less(docs[0].id, d.id) && !Less(d.id, docs[0].id)
  {
    var j :| 0 <= j < |docs[1..]| && docs[1..][j] == d;
    assert docs[j + 1] == d;
    LessAsymmetric(docs[0].id, d.id);
  }

  lemma AfterHead<D>(docs: Collection<D>, after: Option<string>)
    requires Sorted(docs) && docs != [] && IsAfter(after, docs[0].id)
    ensures After(docs, Some(docs[0].id)) == After(docs[1..], after)
  {
    LessIrreflexive(docs[0].id);
    forall d | d in docs[1..] ensures Less(docs[0].id, d.id) {
      HeadIsLess(docs, d);
    }
    AllAfter(docs[1..], after, docs[0].id);
  }

  /** In a sorted collection, resuming after the `n`-th remaining document skips exactly the first `n`. */
  lemma {:induction false} AfterResumes<D>(docs: Collection<D>, after: Option<string>, n: nat)
    requires Sorted(docs) && 0 < n <= |After(docs, after)|
    ensures After(docs, Some(After(docs, after)[n - 1].id)) == After(docs, after)[n..]
  {
    var rest, tail := After(docs, after), After(docs[1..], after);
    if !IsAfter(after, docs[0].id) {
      AfterResumes(docs[1..], after, n);
      AfterHolds(docs[1..], after, rest[n - 1]);
      HeadIsLess(docs, rest[n - 1]);
    } else if n == 1 {
      AfterHead(docs, after);
    } else {
      AfterResumes(docs[1..], after, n - 1);
      AfterHolds(docs[1..], after, tail[n - 2]);
      HeadIsLess(docs, tail[n - 2]);
      assert rest[n..] == tail[n - 1..];
    }
  }

  /** If every document follows `id`, and `id` follows the cursor, both cursors list the same. */
  lemma {:induction false} AllAfter<D>(docs: Collection<D>, after: Option<string>, id: string)
    requires IsAfter(after, id) && forall d :: d in docs ==> Less(id, d.id)
    ensures After(docs, Some(id)) == After(docs, after)
  {
    if docs != [] {
      AllAfter(docs[1..], after, id);
      assert docs[0] in docs;
      if after.Some? {
        LessTransitive(after.value, id, docs[0].id);
      }
    }
  }

  lemma ScanSplits<D>(docs: Collection<D>, after: Option<string>, limit: nat)
    requires Sorted(docs) && limit > 0
    ensures var (page, next) := ScanPage(docs, after, limit);
      && |page| <= limit && (next.Some? ==> |page| == limit)
      && After(docs, after) == page + (if next.Some? then After(docs, next) else [])
  {
    var rest := After(docs, after);
    if |rest| > limit {
      AfterResumes(docs, after, limit);
      assert rest == rest[..limit] + rest[limit..];
    }
  }

  ghost predicate AllSorted<D>(sources: seq<Collection<D>>) {
    forall i :: 0 <= i < |sources| ==> Sorted(sources[i])
  }

  function Rest<D>(sources: seq<Collection<D>>, next: Option<Position>): seq<Record<D>> {
    if next.Some? then Remaining(sources, next.value) else []
  }

  lemma TagSplit<D>(source: nat, a: Collection<D>, b: Collection<D>)
    ensures Tag(source, a + b) == Tag(source, a) + Tag(source, b)
  {
  }

  /** A page is exactly the next stretch of what remains; a page with a continuation is full. */
  lemma {:induction false} PageSplits<D>(sources: seq<Collection<D>>, at: Position, limit: nat)
    requires AllSorted(sources)
    ensures var (records, next) := Page(sources, at, limit);
      && Remaining(sources, at) == records + Rest(sources, next)
      && |records| <= limit
      && (next.Some? ==> |records| == limit && next.value.source < |sources|)
    decreases |sources| - at.source
  {
    if at.source < |sources| && limit > 0 {
      var docs := sources[at.source];
      ScanSplits(docs, at.after, limit);
      var (page, next) := ScanPage(docs, at.after, limit);
      if next.Some? {
        TagSplit(at.source, page, After(docs, next));
        assert Remaining(sources, Position(at.source, next))
          == Tag(at.source, After(docs, next)) + Remaining(sources, Position(at.source + 1, None));
      } else {
        assert page + [] == page;
        var rest := Position(at.source + 1, None);
        PageSplits(sources, rest, limit - |page|);
        var (more, end) := Page(sources, rest, limit - |page|);
        assert Tag(at.source, page) + (more + Rest(sources, end)) == (Tag(at.source, page) + more) + Rest(sources, end);
      }
    }
  }

  // -------------------------------------------------------------------------
  // Following the continuation from none to none
  // -------------------------------------------------------------------------

  /** The pages of a whole sweep over unchanged sources. */
  ghost function Sweep<D>(sources: seq<Collection<D>>, at: Position, limit: nat): seq<seq<Record<D>>>
    requires AllSorted(sources) && limit > 0
    decreases |Remaining(sources, at)|
  {
    PageSplits(sources, at, limit);
    var (records, next) := Page(sources, at, limit);
    if next.None? then [records] else [records] + Sweep(sources, next.value, limit)
  }

  ghost function Flatten<T>(pages: seq<seq<T>>): seq<T> {
    if pages == [] then [] else pages[0] + Flatten(pages[1..])
  }

  function All<D>(sources: seq<Collection<D>>, source: nat): seq<Record<D>>
    decreases |sources| - source
  {
    if source >= |sources| then [] else Tag(source, sources[source]) + All(sources, source + 1)
  }

  lemma {:induction false} RemainingAll<D>(sources: seq<Collection<D>>, source: nat)
    ensures Remaining(sources, Position(source, None)) == All(sources, source)
    decreases |sources| - source
  {
    if source < |sources| {
      AfterNone(sources[source]);
      RemainingAll(sources, source + 1);
    }
  }

  lemma SweepStep<D>(sources: seq<Collection<D>>, at: Position, limit: nat)
    requires AllSorted(sources) && limit > 0
    ensures var (records, next) := Page(sources, at, limit);
      && Remaining(sources, at) == records + Rest(sources, next)
      && |records| <= limit && (next.Some? ==> |records| == limit)
      && Sweep(sources, at, limit) == [records] + (if next.Some? then Sweep(sources, next.value, limit) else [])
  {
    PageSplits(sources, at, limit);
  }

  lemma {:induction false} SweepCovers<D>(sources: seq<Collection<D>>, at: Position, limit: nat)
    requires AllSorted(sources) && limit > 0
    ensures |Sweep(sources, at, limit)| > 0
    ensures Flatten(Sweep(sources, at, limit)) == Remaining(sources, at)
    decreases |Remaining(sources, at)|
  {
    SweepStep(sources, at, limit);
    var (records, next) := Page(sources, at, limit);
    if next.None? {
      assert [records][1..] == [];
    } else {
      var rest := Sweep(sources, next.value, limit);
      SweepCovers(sources, next.value, limit);
      assert ([records] + rest)[1..] == rest;
    }
  }

  lemma {:induction false} SweepFillsPages<D>(sources: seq<Collection<D>>, at: Position, limit: nat)
    requires AllSorted(sources) && limit > 0
    ensures var pages := Sweep(sources, at, limit);
      && (forall k :: 0 <= k < |pages| ==> |pages[k]| <= limit)
      && (forall k :: 0 <= k < |pages| - 1 ==> |pages[k]| == limit)
    decreases |Remaining(sources, at)|
  {
    SweepStep(sources, at, limit);
    var (records, next) := Page(sources, at, limit);
    if next.Some? {
      SweepFillsPages(sources, next.value, limit);
    }
  }

  lemma {:induction false} FullPages<T>(pages: seq<seq<T>>, limit: nat)
    requires |pages| > 0 && forall k :: 0 <= k < |pages| - 1 ==> |pages[k]| == limit
    ensures |Flatten(pages)| == (|pages| - 1) * limit + |pages[|pages| - 1]|
  {
    if |pages| == 1 {
      assert pages[1..] == [];
    } else {
      FullPages(pages[1..], limit);
      assert (|pages| - 2) * limit + limit == (|pages| - 1) * limit;
    }
  }

  /** Following the continuation from none to none visits every record once, in order, in full pages. */
  lemma SweepVisitsEverythingOnce<D>(sources: seq<Collection<D>>, limit: nat)
    requires AllSorted(sources) && limit > 0
    ensures var pages := Sweep(sources, START, limit);
      && |pages| > 0 && Flatten(pages) == All(sources, 0)
      && (forall k :: 0 <= k < |pages| ==> |pages[k]| <= limit)
      && (forall k :: 0 <= k < |pages| - 1 ==> |pages[k]| == limit)
      && |All(sources, 0)| == (|pages| - 1) * limit + |pages[|pages| - 1]|
  {
    RemainingAll(sources, 0);
    SweepCovers(sources, START, limit);
    SweepFillsPages(sources, START, limit);
    FullPages(Sweep(sources, START, limit), limit);
  }
}
