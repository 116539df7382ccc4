/** The boundary that lets only complete analyzer result sets through. */
module Completeness {
  import opened Options

  datatype Artifact = Artifact(jobId: string, id: string, revision: string, requested: seq<string>)

  datatype Result = Result(kind: string, jobId: string, artifactId: string, revision: string)

  function Kinds(results: seq<Result>): (kinds: seq<string>)
    ensures |kinds| == |results| && forall i :: 0 <= i < |results| ==> kinds[i] == results[i].kind
  {
    if results == [] then [] else [results[0].kind] + Kinds(results[1..])
  }

  function Elements(s: seq<string>): set<string> {
    set x | x in s
  }

  /** The facade exists only when the requested analyzer set is non-empty and matches the active one. */
  predicate CanStart(configured: seq<string>, active: seq<string>) {
    Elements(configured) != {} && Elements(configured) == Elements(active)
  }

  /** The check made before the analyzers run. */
  predicate RequestAccepted(active: set<string>, artifact: Artifact) {
    && Elements(artifact.requested) != {}
    && |artifact.requested| == |Elements(artifact.requested)|
    && Elements(artifact.requested) <= active
  }

  /** The checks made on what they returned. */
  predicate ResultsAccepted(artifact: Artifact, results: seq<Result>) {
    && |Kinds(results)| == |Elements(Kinds(results))|
    && Elements(Kinds(results)) == Elements(artifact.requested)
    && forall r :: r in results ==>
         r.jobId == artifact.jobId && r.artifactId == artifact.id && r.revision == artifact.revision
  }

  ghost predicate Distinct(s: seq<string>) {
    forall i, j :: 0 <= i < j < |s| ==> s[i] != s[j]
  }

  lemma {:induction false} CountingDetectsRepeats(s: seq<string>)
    ensures |Elements(s)| <= |s|
    ensures |s| == |Elements(s)| <==> Distinct(s)
  {
    if s != [] {
      var rest, last := s[..|s| - 1], s[|s| - 1];
      CountingDetectsRepeats(rest);
      assert s == rest + [last];
      assert Elements(s) == Elements(rest) + {last};
      if last in rest {
        assert Elements(s) == Elements(rest);
        var i :| 0 <= i < |rest| && rest[i] == last;
        assert s[i] == s[|s| - 1];
      } else {
        assert forall i :: 0 <= i < |rest| ==> s[i] == rest[i] && s[i] in rest;
      }
    }
  }

  /** The set of analyzers a started facade checks requests against; `None` where it refuses to start. */
  function Start(configured: seq<string>, active: seq<string>): Option<set<string>> {
    if CanStart(configured, active) then Some(Elements(active)) else None
  }

  /** It starts exactly with one or more analyzers configured, and those the active ones, in any order and number. */
  lemma StartsExactlyWithTheActiveAnalyzers(configured: seq<string>, active: seq<string>)
    ensures Start(configured, active).Some? <==>
      && configured != []
      && (forall x :: x in configured ==> x in active) && (forall x :: x in active ==> x in configured)
    ensures Start(configured, active).Some? ==> forall x :: x in Start(configured, active).value <==> x in active
  {
    assert configured != [] ==> configured[0] in Elements(configured);
    assert forall x :: x in Elements(configured) <==> x in configured;
    assert forall x :: x in Elements(active) <==> x in active;
  }

  /** A started facade runs exactly the requests for one or more configured analyzers, none of them twice. */
  lemma StartedFacadeRunsConfiguredAnalyzers(configured: seq<string>, active: seq<string>, artifact: Artifact)
    requires Start(configured, active).Some?
    ensures RequestAccepted(Start(configured, active).value, artifact) <==>
      && artifact.requested != [] && Distinct(artifact.requested)
      && forall x :: x in artifact.requested ==> x in configured
  {
    CountingDetectsRepeats(artifact.requested);
    assert artifact.requested != [] ==> artifact.requested[0] in Elements(artifact.requested);
    assert forall x :: x in configured <==> x in Elements(configured);
  }

  lemma {:induction false} DistinctMeansOnce(s: seq<string>)
    ensures Distinct(s) <==> forall x :: x in s ==> multiset(s)[x] == 1
  {
    if s != [] {
      var rest, last := s[..|s| - 1], s[|s| - 1];
      DistinctMeansOnce(rest);
      assert s == rest + [last];
      if Distinct(s) {
        assert last !in rest;
      } else if Distinct(rest) {
        var i, j :| 0 <= i < j < |s| && s[i] == s[j];
        assert j == |s| - 1 && rest[i] == last;
        assert multiset(s)[last] == 2;
      } else {
        var x :| x in rest && multiset(rest)[x] != 1;
        assert x in multiset(rest) && x in s;
        assert multiset(s)[x] > 1;
      }
    }
  }

  /** A result for every requested analyzer, no other and none twice, each for this very artifact. */
  ghost predicate Complete(artifact: Artifact, results: seq<Result>) {
    && multiset(Kinds(results)) == multiset(artifact.requested)
    && forall r :: r in results ==>
         r.jobId == artifact.jobId && r.artifactId == artifact.id && r.revision == artifact.revision
  }

  lemma SameMembersOnceEach(a: seq<string>, b: seq<string>)
    requires Distinct(b)
    ensures Distinct(a) && Elements(a) == Elements(b) <==> multiset(a) == multiset(b)
  {
    DistinctMeansOnce(a);
    DistinctMeansOnce(b);
    if multiset(a) == multiset(b) {
      assert forall x :: x in a <==> x in multiset(a);
      assert forall x :: x in b <==> x in multiset(b);
      assert Elements(a) == Elements(b);
    }
    if Distinct(a) && Elements(a) == Elements(b) {
      assert forall x :: x in Elements(a) <==> x in a;
      assert forall x :: x in Elements(b) <==> x in b;
      forall x ensures multiset(a)[x] == multiset(b)[x] {
        assert x in a <==> x in multiset(a);
        assert x in b <==> x in multiset(b);
      }
      assert multiset(a) == multiset(b);
    }
  }

  /** For an accepted request, the result checks pass exactly for the complete sets. */
  lemma AcceptedExactlyWhenComplete(active: set<string>, artifact: Artifact, results: seq<Result>)
    requires RequestAccepted(active, artifact)
    ensures ResultsAccepted(artifact, results) <==> Complete(artifact, results)
  {
    CountingDetectsRepeats(artifact.requested);
    CountingDetectsRepeats(Kinds(results));
    SameMembersOnceEach(Kinds(results), artifact.requested);
  }
}
