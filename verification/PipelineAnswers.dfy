/** What a run answers and which calls it makes, read off the collaborators' answers one after the other. */
module PipelineAnswers {
  import opened Options
  import opened Pipeline
  import C = Completeness

  // -------------------------------------------------------------------------
  // How far a run gets
  // -------------------------------------------------------------------------

  /** The change is claimed, nothing newer is known, and its source has an adapter. */
  ghost predicate Reads(env: Env) {
    env.claim.Claimed? && env.newerFirst == Ok(false) && env.adapter.Ok?
  }

  /** What was fetched is the very revision of the very artifact that was claimed. */
  ghost predicate Matches(env: Env) {
    Reads(env) && env.fetch == Ok(env.claim.change)
  }

  ghost predicate IsRecorded(env: Env) {
    Matches(env) && env.receipt.Ok?
  }

  ghost predicate IsApproved(env: Env) {
    IsRecorded(env) && env.gate.Ok? && env.gate.value.Approved?
  }

  /** Nothing newer is known after the gate either. */
  ghost predicate IsCurrent(env: Env) {
    IsApproved(env) && env.newerSecond == Ok(false)
  }

  /** The artifact asks for active analyzers, at least one and none twice. */
  ghost predicate MayAnalyze(env: Env) {
    && IsCurrent(env)
    && var requested := env.gate.value.artifact.requested;
    && requested != [] && C.Distinct(requested) && forall x :: x in requested ==> x in env.active
  }

  ghost predicate IsAnalyzed(env: Env) {
    MayAnalyze(env) && env.delegate.Ok? && C.Complete(env.gate.value.artifact, env.delegate.value)
  }

  /** The first `n` results have been accepted. */
  ghost predicate HasAccepted(env: Env, n: nat) {
    && IsAnalyzed(env) && n <= |env.delegate.value| && n <= |env.accepts|
    && forall i :: 0 <= i < n ==> env.accepts[i].Ok?
  }

  ghost predicate AllAccepted(env: Env) {
    IsAnalyzed(env) && HasAccepted(env, |env.delegate.value|)
  }

  ghost predicate AnyAffected(env: Env)
    requires AllAccepted(env)
  {
    exists i :: 0 <= i < |env.delegate.value| && env.accepts[i].value.affected > 0
  }

  /** The error of the first result that is not accepted; a missing answer is an unexpected error. */
  function FirstRefusal(accepts: seq<Reply<Receipt>>, from: nat, n: nat): Error
    decreases n - from
  {
    if from >= n || from >= |accepts| then OtherError
    else if accepts[from].Raise? then accepts[from].error
    else FirstRefusal(accepts, from + 1, n)
  }

  // -------------------------------------------------------------------------
  // The answer
  // -------------------------------------------------------------------------

  /** How a run ends on an error: the code to show, and whether to try again. */
  function Failing(e: Error): Outcome {
    match e
    case SourceError(category, true) => Retryable("SOURCE:" + category)
    case SourceError(category, false) => TerminalFailure("SOURCE:" + category)
    case RegistryError => TerminalFailure("CONFIGURATION:SOURCE_ADAPTER_MISSING")
    case CompletenessError => TerminalFailure("CONTRACT:ANALYZER_RESULT_SET_MISMATCH")
    case IntelligenceError(category, true) => Retryable("INTELLIGENCE:" + category)
    case IntelligenceError(category, false) => TerminalFailure("INTELLIGENCE:" + category)
    case SupersededError => TerminalFailure("SOURCE:REVISION_SUPERSEDED")
    case InvariantError => TerminalFailure("CONTRACT:CANONICAL_INTAKE_REJECTED")
    case OtherError => Retryable("INTERNAL:UNEXPECTED_PIPELINE_FAILURE")
  }

  /** The first thing that is not as it should be decides. */
  ghost function Answer(env: Env): Outcome
    requires env.claim.Claimed?
  {
    if env.newerFirst.Raise? then Escaped(env.newerFirst.error)
    else if env.newerFirst.value then TerminalFailure("SOURCE:REVISION_SUPERSEDED")
    else if env.adapter.Raise? then Failing(env.adapter.error)
    else if env.fetch.Raise? then Failing(env.fetch.error)
    else if env.fetch.value.identity != env.claim.change.identity
    then TerminalFailure("CONTRACT:ANALYZER_RESULT_SET_MISMATCH")
    else if env.fetch.value.revision != env.claim.change.revision then TerminalFailure("SOURCE:REVISION_SUPERSEDED")
    else if env.receipt.Raise? then Failing(env.receipt.error)
    else if env.gate.Raise? then Failing(env.gate.error)
    else if env.gate.value.Denied? then GateDenied(env.gate.value.reason)
    else if env.gate.value.ApprovedWithoutArtifact? then Retryable("INTERNAL:UNEXPECTED_PIPELINE_FAILURE")
    else if env.newerSecond.Raise? then Failing(env.newerSecond.error)
    else if env.newerSecond.value then TerminalFailure("SOURCE:REVISION_SUPERSEDED")
    else if !MayAnalyze(env) then TerminalFailure("CONTRACT:ANALYZER_RESULT_SET_MISMATCH")
    else if env.delegate.Raise? then Failing(env.delegate.error)
    else if !IsAnalyzed(env) then TerminalFailure("CONTRACT:ANALYZER_RESULT_SET_MISMATCH")
    else Delivery(env)
  }

  /** The same for a run that has a complete result set. */
  ghost function Delivery(env: Env): Outcome
    requires IsAnalyzed(env)
  {
    if !AllAccepted(env) then Failing(FirstRefusal(env.accepts, 0, |env.delegate.value|))
    else if AnyAffected(env) && env.explanations && env.explain.Raise? then Failing(env.explain.error)
    else if env.delegate.value == [] then TerminalFailure("CONTRACT:ANALYZER_RESULT_SET_MISMATCH")
    else
      var status := env.accepts[|env.delegate.value| - 1].value.status;
      if status in {"SUCCEEDED", "INCONCLUSIVE", "FAILED"} then Completed(status)
      else TerminalFailure("CONTRACT:ANALYZER_RESULT_SET_MISMATCH")
  }

  /** The verdict a body must reach for a run to answer so. */
  ghost predicate Ends(run: Run, outcome: Outcome) {
    match run.verdict
    case Pass => false
    case Raised(e) => outcome == Failing(e)
    case Superseded => outcome == TerminalFailure("SOURCE:REVISION_SUPERSEDED")
    case Refused(reason) => outcome == GateDenied(reason)
    case Finished(status) => outcome == Completed(status)
  }

  lemma EndsAreSettled(env: Env, body: Run, outcome: Outcome)
    requires Ends(body, outcome)
    ensures Settled(env, body).1 == outcome
  {
  }

  lemma {:induction false} RefusalsFromTheBack(env: Env, results: seq<C.Result>, n: nat)
    requires n <= |results|
    ensures var run := Accepting(env, results, n);
      if n <= |env.accepts| && forall i :: 0 <= i < n ==> env.accepts[i].Ok? then run.verdict.Pass?
      else run.verdict == Raised(FirstRefusal(env.accepts, 0, n))
  {
    if n > 0 {
      RefusalsFromTheBack(env, results, n - 1);
      if n - 1 <= |env.accepts| && forall i :: 0 <= i < n - 1 ==> env.accepts[i].Ok? {
        FirstOfGood(env.accepts, 0, n);
      } else {
        RefusedEarlier(env.accepts, 0, n);
      }
    }
  }

  lemma {:induction false} FirstOfGood(accepts: seq<Reply<Receipt>>, from: nat, n: nat)
    requires from < n && n - 1 <= |accepts| && forall i :: from <= i < n - 1 ==> accepts[i].Ok?
    ensures FirstRefusal(accepts, from, n) ==
      if n - 1 < |accepts| && accepts[n - 1].Raise? then accepts[n - 1].error else OtherError
    decreases n - from
  {
    if from < n - 1 {
      FirstOfGood(accepts, from + 1, n);
    }
  }

  lemma {:induction false} RefusedEarlier(accepts: seq<Reply<Receipt>>, from: nat, n: nat)
    requires from < n && !(n - 1 <= |accepts| && forall i :: from <= i < n - 1 ==> accepts[i].Ok?)
    ensures FirstRefusal(accepts, from, n) == FirstRefusal(accepts, from, n - 1)
    decreases n - from
  {
    if from < n - 1 && from < |accepts| && accepts[from].Ok? {
      RefusedEarlier(accepts, from + 1, n);
    }
  }

  lemma {:induction false} AffectedAdds(env: Env, n: nat)
    requires n <= |env.accepts| && forall i :: 0 <= i < n ==> env.accepts[i].Ok?
    ensures Affected(env, n) > 0 <==> exists i :: 0 <= i < n && env.accepts[i].value.affected > 0
  {
    if n > 0 {
      AffectedAdds(env, n - 1);
    }
  }

  /** Past the last look, the completeness boundary answers as its checks say. */
  lemma AnalyzedIs(env: Env)
    requires IsCurrent(env)
    ensures IsAnalyzed(env) <==> Analyzed(env, env.gate.value.artifact).Ok?
    ensures IsAnalyzed(env) ==> ResultsOf(env) == env.delegate.value
    ensures !IsAnalyzed(env) ==>
      Analyzed(env, env.gate.value.artifact)
      == Raise(if MayAnalyze(env) && env.delegate.Raise? then env.delegate.error else CompletenessError)
  {
    var artifact := env.gate.value.artifact;
    C.CountingDetectsRepeats(artifact.requested);
    assert artifact.requested != [] ==> artifact.requested[0] in C.Elements(artifact.requested);
    if C.RequestAccepted(env.active, artifact) {
      assert forall x :: x in artifact.requested ==> x in C.Elements(artifact.requested);
      if env.delegate.Ok? {
        C.AcceptedExactlyWhenComplete(env.active, artifact, env.delegate.value);
      }
    }
  }

  lemma HandingOverEnds(env: Env)
    requires IsAnalyzed(env)
    ensures Ends(HandingOver(env), Delivery(env))
  {
    AnalyzedIs(env);
    var results := env.delegate.value;
    RefusalsFromTheBack(env, results, |results|);
    if AllAccepted(env) {
      ConclusionEnds(env);
    }
  }

  /** With every result accepted, the explanation and the last job status decide. */
  lemma ConclusionEnds(env: Env)
    requires AllAccepted(env) && ResultsOf(env) == env.delegate.value
    ensures Ends(Then(Explaining(env), Concluding(env)), Delivery(env))
  {
    AffectedAdds(env, |env.delegate.value|);
    LastStatusIs(env, |env.delegate.value|);
  }

  lemma LastStatusIs(env: Env, n: nat)
    requires n <= |env.accepts| && forall i :: 0 <= i < n ==> env.accepts[i].Ok?
    ensures LastStatus(env, n) == if n == 0 then "" else env.accepts[n - 1].value.status
  {
  }

  lemma PayingEnds(env: Env)
    requires IsApproved(env)
    ensures Ends(Paying(env), Answer(env))
  {
    LookAnswers(env.newerSecond);
    if IsCurrent(env) {
      AnalyzedIs(env);
      if IsAnalyzed(env) {
        HandingOverEnds(env);
      }
    }
  }

  lemma BodyEnds(env: Env)
    requires env.claim.Claimed? && env.newerFirst == Ok(false)
    ensures Ends(Body(env, env.claim.change), Answer(env))
  {
    if IsApproved(env) {
      PayingEnds(env);
    }
  }

  /** Every claimed run answers what the first thing amiss asks for, and completes when nothing is. */
  lemma RunsAnswerByTheFirstThingAmiss(env: Env)
    requires env.claim.Claimed?
    ensures Executed(env).1 == Answer(env)
  {
    LookAnswers(env.newerFirst);
    if env.newerFirst == Ok(false) {
      BodyEnds(env);
      EndsAreSettled(env, Body(env, env.claim.change), Answer(env));
    }
  }

  /** A task for an unknown change is invalid, a change somebody else has is left alone, and neither costs a call. */
  lemma UnclaimedRunsDoNothing(env: Env)
    requires !env.claim.Claimed?
    ensures Executed(env).0 == []
    ensures Executed(env).1 ==
      match env.claim
      case UnknownEvent => InvalidTask
      case ClaimRaises(error) => Escaped(error)
      case AlreadyTaken => Duplicate
  {
  }

  // -------------------------------------------------------------------------
  // The calls
  // -------------------------------------------------------------------------

  ghost predicate FetchesIn(calls: seq<Call>) {
    exists c :: c in calls && c.Fetch?
  }

  /** Each call of the run is made exactly when the run gets that far. */
  ghost predicate MadeExactlyWhenReached(env: Env, calls: seq<Call>) {
    && (FetchesIn(calls) <==> Reads(env))
    && (RegisterAccess in calls <==> Matches(env))
    && (BuildArtifact in calls <==> IsRecorded(env))
    && (RunAnalyzers in calls <==> IsCurrent(env))
    && (Explain in calls <==> AllAccepted(env) && AnyAffected(env) && env.explanations)
  }

  lemma HandingOverExplains(env: Env)
    requires IsAnalyzed(env)
    ensures Explain in HandingOver(env).calls <==> AllAccepted(env) && AnyAffected(env) && env.explanations
  {
    AnalyzedIs(env);
    var results := env.delegate.value;
    RefusalsFromTheBack(env, results, |results|);
    AcceptingOnlyAccepts(env, results, |results|);
    if AllAccepted(env) {
      AffectedAdds(env, |results|);
    }
    ThenCalls(Accepting(env, results, |results|), Then(Explaining(env), Concluding(env)));
  }

  lemma PayingMakes(env: Env)
    requires IsApproved(env)
    ensures var calls := Paying(env).calls;
      && !FetchesIn(calls) && RegisterAccess !in calls && BuildArtifact !in calls
      && (RunAnalyzers in calls <==> IsCurrent(env))
      && (Explain in calls <==> AllAccepted(env) && AnyAffected(env) && env.explanations)
  {
    LookAnswers(env.newerSecond);
    HandingOverFacts(env);
    ThenCalls(Checking(env.newerSecond), Then(Analyzing(env), HandingOver(env)));
    ThenCalls(Analyzing(env), HandingOver(env));
    if IsCurrent(env) {
      AnalyzedIs(env);
      if IsAnalyzed(env) {
        HandingOverExplains(env);
      }
    }
  }

  lemma OpeningMakes(env: Env)
    requires Matches(env)
    ensures var calls := Opening(env).calls;
      && !FetchesIn(calls) && RegisterAccess in calls
      && (BuildArtifact in calls <==> IsRecorded(env))
      && (RunAnalyzers in calls <==> IsCurrent(env))
      && (Explain in calls <==> AllAccepted(env) && AnyAffected(env) && env.explanations)
  {
    if IsApproved(env) {
      PayingMakes(env);
    }
    var first := Run([RegisterAccess], Passing(env.receipt));
    ThenCalls(first, Then(Gating(env), Paying(env)));
    ThenCalls(Gating(env), Paying(env));
    assert first.calls[0] == RegisterAccess && Gating(env).calls[0] == BuildArtifact;
  }

  lemma BodyMakes(env: Env)
    requires env.claim.Claimed? && env.newerFirst == Ok(false)
    ensures MadeExactlyWhenReached(env, Body(env, env.claim.change).calls)
  {
    if Matches(env) {
      OpeningMakes(env);
    }
    var checked := Then(Validating(env.claim.change, env), Opening(env));
    var looked := Run([], Passing(env.adapter));
    ThenCalls(Validating(env.claim.change, env), Opening(env));
    ThenCalls(Fetching(env), checked);
    ThenCalls(looked, Then(Fetching(env), checked));
    assert Fetching(env).calls[0] == Fetch(env.fetch.Ok?);
  }

  lemma SettledIsQuiet(env: Env, body: Run)
    ensures forall c :: c in Settled(env, body).0 ==> c.Fail? || c.Cleanup?
  {
  }

  /** The first look before and the failure record and the cleanup after make no difference. */
  lemma ConcludedMakes(env: Env, body: Run)
    requires MadeExactlyWhenReached(env, body.calls)
    ensures MadeExactlyWhenReached(env, Concluded(env, body).0)
  {
    SettledIsQuiet(env, body);
    Framed(env, body.calls, Settled(env, body).0);
  }

  lemma Framed(env: Env, work: seq<Call>, rest: seq<Call>)
    requires MadeExactlyWhenReached(env, work) && forall c :: c in rest ==> c.Fail? || c.Cleanup?
    ensures MadeExactlyWhenReached(env, [AskNewer(Ok(false))] + work + rest)
  {
    var all := [AskNewer(Ok(false))] + work + rest;
    forall c: Call | !c.AskNewer? && !c.Fail? && !c.Cleanup? ensures c in all <==> c in work {
    }
  }

  /**
   * Every call of a claimed run is made exactly when all that comes before it went well: nothing is recorded, gated,
   * analyzed or explained for a snapshot of another revision or of another artifact than was claimed.
   */
  lemma CallsAreMadeExactlyWhenReached(env: Env)
    requires env.claim.Claimed?
    ensures MadeExactlyWhenReached(env, Executed(env).0)
  {
    LookAnswers(env.newerFirst);
    if env.newerFirst == Ok(false) {
      BodyMakes(env);
      ConcludedMakes(env, Body(env, env.claim.change));
    } else {
      UnstartedRunDoesNothing(env);
    }
  }

  /** The results handed over by these calls, in order. */
  function Handed(calls: seq<Call>): seq<C.Result> {
    if calls == [] then []
    else
      var last := calls[|calls| - 1];
      Handed(calls[..|calls| - 1]) + if last.Accept? then [last.result] else []
  }

  lemma {:induction false} HandedAdds(a: seq<Call>, b: seq<Call>)
    ensures Handed(a + b) == Handed(a) + Handed(b)
  {
    if b == [] {
      assert a + b == a;
    } else {
      assert (a + b)[..|a + b| - 1] == a + b[..|b| - 1];
      HandedAdds(a, b[..|b| - 1]);
    }
  }

  lemma {:induction false} OthersHandNothing(calls: seq<Call>)
    requires forall c :: c in calls ==> !c.Accept?
    ensures Handed(calls) == []
  {
    if calls != [] {
      assert calls[|calls| - 1] in calls;
      OthersHandNothing(calls[..|calls| - 1]);
    }
  }

  /** As many of the results as there are up to and including the first that is refused. */
  ghost predicate HandsOver(env: Env, handed: seq<C.Result>) {
    if !IsAnalyzed(env) then handed == []
    else
      && handed <= env.delegate.value
      && (handed != [] ==> HasAccepted(env, |handed| - 1))
      && (handed != env.delegate.value ==> !HasAccepted(env, |handed|))
  }

  /** The first `n` answers are there and accept. */
  ghost predicate AllOk(accepts: seq<Reply<Receipt>>, n: nat) {
    n <= |accepts| && forall i :: 0 <= i < n ==> accepts[i].Ok?
  }

  lemma {:induction false} AcceptingHands(env: Env, results: seq<C.Result>, n: nat)
    requires n <= |results|
    ensures var run := Accepting(env, results, n);
      var handed := Handed(run.calls);
      && |handed| <= n && handed == results[..|handed|]
      && (handed != [] ==> AllOk(env.accepts, |handed| - 1))
      && (run.verdict.Pass? ==> |handed| == n && AllOk(env.accepts, n))
      && (!run.verdict.Pass? ==> !AllOk(env.accepts, |handed|))
  {
    if n > 0 {
      AcceptingHands(env, results, n - 1);
      if Accepting(env, results, n - 1).verdict.Pass? {
        OneMoreHanded(env, results, n);
      }
    }
  }

  lemma OneMoreHanded(env: Env, results: seq<C.Result>, n: nat)
    requires 0 < n <= |results| && AllOk(env.accepts, n - 1)
    requires Accepting(env, results, n - 1).verdict.Pass?
    requires Handed(Accepting(env, results, n - 1).calls) == results[..n - 1]
    ensures var run := Accepting(env, results, n);
      Handed(run.calls) == results[..n] && (run.verdict.Pass? <==> AllOk(env.accepts, n))
  {
    var before, result := Accepting(env, results, n - 1), results[n - 1];
    HandedAdds(before.calls, [Accept(result)]);
    assert Handed([Accept(result)]) == [] + [result];
    assert results[..n] == results[..n - 1] + [result];
  }

  lemma HandingOverHands(env: Env)
    requires IsAnalyzed(env)
    ensures HandsOver(env, Handed(HandingOver(env).calls))
  {
    AnalyzedIs(env);
    var results := env.delegate.value;
    AcceptingHands(env, results, |results|);
    var first, rest := Accepting(env, results, |results|), Then(Explaining(env), Concluding(env));
    OthersHandNothing(rest.calls);
    HandedAdds(first.calls, rest.calls);
    assert Handed(first.calls) + [] == Handed(first.calls);
    HandsEnough(env, Handed(first.calls));
  }

  lemma HandsEnough(env: Env, handed: seq<C.Result>)
    requires IsAnalyzed(env) && |handed| <= |env.delegate.value| && handed == env.delegate.value[..|handed|]
    requires handed != [] ==> AllOk(env.accepts, |handed| - 1)
    requires |handed| < |env.delegate.value| ==> !AllOk(env.accepts, |handed|)
    ensures HandsOver(env, handed)
  {
    if |handed| == |env.delegate.value| {
      assert handed == env.delegate.value;
    }
  }

  /** A stage in front that hands nothing over, and that a run with results must pass. */
  lemma HandsThrough(env: Env, first: Run, second: Run)
    requires forall c :: c in first.calls ==> !c.Accept?
    requires first.verdict.Pass? ==> HandsOver(env, Handed(second.calls))
    requires !first.verdict.Pass? ==> !IsAnalyzed(env)
    ensures HandsOver(env, Handed(Then(first, second).calls))
  {
    OthersHandNothing(first.calls);
    HandedAdds(first.calls, second.calls);
    assert [] + Handed(second.calls) == Handed(second.calls);
  }

  lemma PayingHands(env: Env)
    requires IsApproved(env)
    ensures HandsOver(env, Handed(Paying(env).calls))
  {
    LookAnswers(env.newerSecond);
    if IsCurrent(env) {
      AnalyzedIs(env);
      if IsAnalyzed(env) {
        HandingOverHands(env);
      }
      HandsThrough(env, Analyzing(env), HandingOver(env));
    }
    HandsThrough(env, Checking(env.newerSecond), Then(Analyzing(env), HandingOver(env)));
  }

  lemma GatedHands(env: Env)
    requires IsRecorded(env)
    ensures HandsOver(env, Handed(Then(Gating(env), Paying(env)).calls))
  {
    if IsApproved(env) {
      PayingHands(env);
    }
    HandsThrough(env, Gating(env), Paying(env));
  }

  lemma OpeningHands(env: Env)
    requires Matches(env)
    ensures HandsOver(env, Handed(Opening(env).calls))
  {
    if IsRecorded(env) {
      GatedHands(env);
    }
    HandsThrough(env, Run([RegisterAccess], Passing(env.receipt)), Then(Gating(env), Paying(env)));
  }

  lemma CheckedHands(env: Env)
    requires Reads(env) && env.fetch.Ok?
    ensures HandsOver(env, Handed(Then(Validating(env.claim.change, env), Opening(env)).calls))
  {
    if Matches(env) {
      OpeningHands(env);
    }
    HandsThrough(env, Validating(env.claim.change, env), Opening(env));
  }

  lemma BodyHands(env: Env)
    requires env.claim.Claimed? && env.newerFirst == Ok(false)
    ensures HandsOver(env, Handed(Body(env, env.claim.change).calls))
  {
    var checked := Then(Validating(env.claim.change, env), Opening(env));
    if Reads(env) {
      if env.fetch.Ok? {
        CheckedHands(env);
      }
      HandsThrough(env, Fetching(env), checked);
    }
    HandsThrough(env, Run([], Passing(env.adapter)), Then(Fetching(env), checked));
  }

  lemma ConcludedHands(env: Env, body: Run)
    ensures Handed(Concluded(env, body).0) == Handed(body.calls)
  {
    var first, rest := [AskNewer(Ok(false))], Settled(env, body).0;
    SettledIsQuiet(env, body);
    OthersHandNothing(first);
    OthersHandNothing(rest);
    HandedAdds(first, body.calls);
    HandedAdds(first + body.calls, rest);
    assert [] + Handed(body.calls) + [] == Handed(body.calls);
  }

  /** The results of a complete set are handed over in their order, up to and including the first one refused. */
  lemma ResultsAreHandedOverInOrder(env: Env)
    requires env.claim.Claimed?
    ensures HandsOver(env, Handed(Executed(env).0))
  {
    LookAnswers(env.newerFirst);
    if env.newerFirst == Ok(false) {
      BodyHands(env);
      ConcludedHands(env, Body(env, env.claim.change));
    } else {
      UnstartedRunDoesNothing(env);
      OthersHandNothing(Executed(env).0);
    }
  }
}
