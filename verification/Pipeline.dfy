/** The analysis worker's run over one change, against an environment that may answer anything. */
module Pipeline {
  import C = Completeness

  datatype Error =
    | SourceError(category: string, retryable: bool)
    | RegistryError
    | CompletenessError
    | IntelligenceError(category: string, retryable: bool)
    | SupersededError
    | InvariantError
    | OtherError

  datatype Reply<T> = Ok(value: T) | Raise(error: Error)

  datatype Identity = Identity(
    workspace: string, mount: string, sourceWorkspace: string, sourceType: string, artifact: string)

  datatype Snapshot = Snapshot(identity: Identity, revision: string)

  datatype Gate = Approved(artifact: C.Artifact) | ApprovedWithoutArtifact | Denied(reason: string)

  datatype Receipt = Receipt(status: string, affected: nat)

  datatype Claim = UnknownEvent | ClaimRaises(error: Error) | AlreadyTaken | Claimed(change: Snapshot)

  /** Everything the collaborators will answer; a call that is never made leaves its answer unused. */
  datatype Env = Env(
    claim: Claim,
    newerFirst: Reply<bool>,
    adapter: Reply<bool>,
    fetch: Reply<Snapshot>,
    receipt: Reply<()>,
    gate: Reply<Gate>,
    newerSecond: Reply<bool>,
    active: set<string>,
    delegate: Reply<seq<C.Result>>,
    accepts: seq<Reply<Receipt>>,
    explanations: bool,
    explain: Reply<()>)

  datatype Call =
    | AskNewer(reply: Reply<bool>)
    | Fetch(fetched: bool)
    | RegisterAccess
    | BuildArtifact
    | RunAnalyzers
    | Accept(result: C.Result)
    | Explain
    | Fail(code: string)
    | Cleanup

  datatype Outcome =
    | InvalidTask
    | Escaped(error: Error)
    | Duplicate
    | Completed(status: string)
    | GateDenied(reason: string)
    | TerminalFailure(code: string)
    | Retryable(code: string)

  // -------------------------------------------------------------------------
  // The body of the run, as a chain of stages
  // -------------------------------------------------------------------------

  datatype Verdict = Pass | Raised(error: Error) | Superseded | Refused(reason: string) | Finished(status: string)

  datatype Run = Run(calls: seq<Call>, verdict: Verdict)

  /** The second stage runs only when the first one passes. */
  function Then(first: Run, second: Run): Run {
    if first.verdict.Pass? then Run(first.calls + second.calls, second.verdict) else first
  }

  function Passing<T>(reply: Reply<T>): Verdict {
    if reply.Ok? then Pass else Raised(reply.error)
  }

  function Checking(reply: Reply<bool>): Run {
    Run([AskNewer(reply)], if reply == Ok(true) then Superseded else Passing(reply))
  }

  function Fetching(env: Env): Run {
    Run([Fetch(env.fetch.Ok?)], Passing(env.fetch))
  }

  function Validating(change: Snapshot, env: Env): Run {
    Run([], if env.fetch.Raise? then Pass
            else if env.fetch.value.identity != change.identity then Raised(CompletenessError)
            else if env.fetch.value.revision != change.revision then Superseded
            else Pass)
  }

  function Gating(env: Env): Run {
    Run([BuildArtifact],
        match env.gate
        case Raise(error) => Raised(error)
        case Ok(Denied(reason)) => Refused(reason)
        case Ok(ApprovedWithoutArtifact) => Raised(OtherError)
        case Ok(Approved(_)) => Pass)
  }

  /** What the completeness boundary answers for this artifact. */
  function Analyzed(env: Env, artifact: C.Artifact): Reply<seq<C.Result>> {
    if !C.RequestAccepted(env.active, artifact) then Raise(CompletenessError)
    else if env.delegate.Raise? then env.delegate
    else if !C.ResultsAccepted(artifact, env.delegate.value) then Raise(CompletenessError)
    else env.delegate
  }

  /** Results the run goes on to hand over. */
  function ResultsOf(env: Env): seq<C.Result> {
    if env.gate.Ok? && env.gate.value.Approved? && Analyzed(env, env.gate.value.artifact).Ok?
    then Analyzed(env, env.gate.value.artifact).value else []
  }

  function Analyzing(env: Env): Run {
    Run([RunAnalyzers],
        if env.gate.Ok? && env.gate.value.Approved? then Passing(Analyzed(env, env.gate.value.artifact)) else Pass)
  }

  function AcceptReply(env: Env, i: nat): Reply<Receipt> {
    if i < |env.accepts| then env.accepts[i] else Raise(OtherError)
  }

  /** Handing over the first `n` results, in order, until one is refused. */
  function Accepting(env: Env, results: seq<C.Result>, n: nat): Run
    requires n <= |results|
  {
    if n == 0 then Run([], Pass)
    else Then(Accepting(env, results, n - 1), Run([Accept(results[n - 1])], Passing(AcceptReply(env, n - 1))))
  }

  function Affected(env: Env, n: nat): nat {
    if n == 0 then 0
    else Affected(env, n - 1) + match AcceptReply(env, n - 1) case Ok(receipt) => receipt.affected case Raise(_) => 0
  }

  function Explaining(env: Env): Run {
    if Affected(env, |ResultsOf(env)|) > 0 && env.explanations then Run([Explain], Passing(env.explain))
    else Run([], Pass)
  }

  const TERMINAL: set<string> := {"SUCCEEDED", "INCONCLUSIVE", "FAILED"}

  /** The job status the last accepted result left behind. */
  function LastStatus(env: Env, n: nat): string {
    if n == 0 then "" else match AcceptReply(env, n - 1) case Ok(receipt) => receipt.status case Raise(_) => ""
  }

  function Concluding(env: Env): Run {
    var status := LastStatus(env, |ResultsOf(env)|);
    Run([], if status in TERMINAL then Finished(status) else Raised(CompletenessError))
  }

  /** Handing over the results, explaining and concluding. */
  function HandingOver(env: Env): Run {
    Then(Accepting(env, ResultsOf(env), |ResultsOf(env)|), Then(Explaining(env), Concluding(env)))
  }

  /** The paid part: the last look for a newer change, then the analyzers. */
  function Paying(env: Env): Run {
    Then(Checking(env.newerSecond), Then(Analyzing(env), HandingOver(env)))
  }

  function Opening(env: Env): Run {
    Then(Run([RegisterAccess], Passing(env.receipt)), Then(Gating(env), Paying(env)))
  }

  /** From the adapter lookup to the conclusion. */
  function Body(env: Env, change: Snapshot): Run {
    Then(Run([], Passing(env.adapter)), Then(Fetching(env), Then(Validating(change, env), Opening(env))))
  }

  // -------------------------------------------------------------------------
  // The exception ladder
  // -------------------------------------------------------------------------

  const SUPERSEDED := "SOURCE:REVISION_SUPERSEDED"

  function CodeOf(e: Error): string {
    match e
    case SourceError(category, _) => "SOURCE:" + category
    case RegistryError => "CONFIGURATION:SOURCE_ADAPTER_MISSING"
    case CompletenessError => "CONTRACT:ANALYZER_RESULT_SET_MISMATCH"
    case IntelligenceError(category, _) => "INTELLIGENCE:" + category
    case SupersededError => SUPERSEDED
    case InvariantError => "CONTRACT:CANONICAL_INTAKE_REJECTED"
    case OtherError => "INTERNAL:UNEXPECTED_PIPELINE_FAILURE"
  }

  predicate IsRetried(e: Error) {
    match e
    case SourceError(_, retryable) => retryable
    case IntelligenceError(_, retryable) => retryable
    case OtherError => true
    case _ => false
  }

  predicate HasFetched(calls: seq<Call>) {
    Fetch(true) in calls
  }

  function Tidy(hook: bool): seq<Call> {
    if hook then [Cleanup] else []
  }

  function Hook(env: Env): bool {
    env.adapter == Ok(true)
  }

  /** What the run does about a verdict: record a failure, clean up, answer or raise. */
  function Settled(env: Env, body: Run): (seq<Call>, Outcome) {
    match body.verdict
    case Pass => ([], Completed(""))
    case Finished(status) => (Tidy(Hook(env)), Completed(status))
    case Refused(reason) => (Tidy(Hook(env)), GateDenied(reason))
    case Superseded => ([Fail(SUPERSEDED)] + Tidy(Hook(env)), TerminalFailure(SUPERSEDED))
    case Raised(e) =>
      if IsRetried(e) then ([Fail(CodeOf(e))], Retryable(CodeOf(e)))
      else
        ([Fail(CodeOf(e))] + Tidy(Hook(env) && HasFetched(body.calls) && !e.RegistryError?),
         TerminalFailure(CodeOf(e)))
  }

  function Concluded(env: Env, body: Run): (seq<Call>, Outcome) {
    ([AskNewer(Ok(false))] + body.calls + Settled(env, body).0, Settled(env, body).1)
  }

  /** A whole run: its calls in order and how it ends. */
  function Executed(env: Env): (seq<Call>, Outcome) {
    match env.claim
    case UnknownEvent => ([], InvalidTask)
    case ClaimRaises(error) => ([], Escaped(error))
    case AlreadyTaken => ([], Duplicate)
    case Claimed(change) =>
      match env.newerFirst
      case Raise(error) => ([AskNewer(env.newerFirst)], Escaped(error))
      case Ok(true) => ([AskNewer(env.newerFirst), Fail(SUPERSEDED)], TerminalFailure(SUPERSEDED))
      case Ok(false) =>
        Concluded(env, Body(env, change))
  }

  // -------------------------------------------------------------------------
  // What holds of every run
  // -------------------------------------------------------------------------

  function Failures(calls: seq<Call>): nat {
    if calls == [] then 0 else (if calls[0].Fail? then 1 else 0) + Failures(calls[1..])
  }

  function Cleanups(calls: seq<Call>): nat {
    if calls == [] then 0 else (if calls[0].Cleanup? then 1 else 0) + Cleanups(calls[1..])
  }

  lemma {:induction false} CountsAdd(a: seq<Call>, b: seq<Call>)
    ensures Failures(a + b) == Failures(a) + Failures(b)
    ensures Cleanups(a + b) == Cleanups(a) + Cleanups(b)
  {
    if a == [] {
      assert a + b == b;
    } else {
      assert (a + b)[1..] == a[1..] + b;
      CountsAdd(a[1..], b);
    }
  }

  /** Work calls neither record a failure nor clean up. */
  ghost predicate Quiet(calls: seq<Call>) {
    forall c :: c in calls ==> !c.Fail? && !c.Cleanup?
  }

  lemma {:induction false} QuietCountsNothing(calls: seq<Call>)
    requires Quiet(calls)
    ensures Failures(calls) == 0 && Cleanups(calls) == 0
  {
    if calls != [] {
      assert calls[0] in calls;
      QuietCountsNothing(calls[1..]);
    }
  }

  lemma {:induction false} AcceptingOnlyAccepts(env: Env, results: seq<C.Result>, n: nat)
    requires n <= |results|
    ensures var run := Accepting(env, results, n);
      && |run.calls| <= n
      && (forall i :: 0 <= i < |run.calls| ==> run.calls[i] == Accept(results[i]))
      && (run.verdict.Pass? ==> |run.calls| == n)
      && (run.verdict.Pass? || run.verdict.Raised?)
  {
    if n > 0 {
      AcceptingOnlyAccepts(env, results, n - 1);
    }
  }

  lemma ThenCalls(first: Run, second: Run)
    ensures forall c :: c in Then(first, second).calls <==>
      c in first.calls || (first.verdict.Pass? && c in second.calls)
  {
  }

  lemma LookAnswers(reply: Reply<bool>)
    ensures reply.Raise? || reply == Ok(true) || reply == Ok(false)
  {
    if reply.Ok? {
      if reply.value {
        assert reply == Ok(true);
      } else {
        assert reply == Ok(false);
      }
    }
  }

  ghost predicate IsHandOver(env: Env, c: Call) {
    c == Explain || (c.Accept? && c.result in ResultsOf(env))
  }

  lemma HandingOverFacts(env: Env)
    ensures HandingOver(env).verdict.Raised? ||
      (HandingOver(env).verdict.Finished? && HandingOver(env).verdict.status in TERMINAL)
    ensures forall c :: c in HandingOver(env).calls ==> IsHandOver(env, c)
  {
    AcceptingOnlyAccepts(env, ResultsOf(env), |ResultsOf(env)|);
    var first, second := Accepting(env, ResultsOf(env), |ResultsOf(env)|), Then(Explaining(env), Concluding(env));
    forall c | c in HandingOver(env).calls ensures IsHandOver(env, c) {
      assert c in first.calls || c in second.calls;
      if c in first.calls {
        var i :| 0 <= i < |first.calls| && first.calls[i] == c;
        assert ResultsOf(env)[i] in ResultsOf(env);
      }
    }
  }

  ghost predicate IsWork(env: Env, c: Call) {
    IsHandOver(env, c) || c == RunAnalyzers || c == AskNewer(env.newerSecond) || IsPlain(c)
  }

  /** Calls that neither decide nor pay. */
  predicate IsPlain(c: Call) {
    c.Fetch? || c == RegisterAccess || c == BuildArtifact
  }

  /** What the calls of a run that has come to its end show. */
  ghost predicate Orderly(env: Env, run: Run) {
    && !run.verdict.Pass?
    && (run.verdict.Finished? ==> run.verdict.status in TERMINAL)
    && (forall c :: c in run.calls ==> IsWork(env, c))
    && (RunAnalyzers in run.calls ==> AskNewer(Ok(false)) in run.calls)
    && (AskNewer(Ok(true)) in run.calls ==> run.verdict.Superseded? && RunAnalyzers !in run.calls)
    && (forall c :: c in run.calls && c.Accept? ==>
          env.gate.Ok? && env.gate.value.Approved? && C.Complete(env.gate.value.artifact, ResultsOf(env)))
  }

  lemma AnalyzingIsComplete(env: Env)
    requires ResultsOf(env) != []
    ensures env.gate.Ok? && env.gate.value.Approved? && C.Complete(env.gate.value.artifact, ResultsOf(env))
  {
    C.AcceptedExactlyWhenComplete(env.active, env.gate.value.artifact, env.delegate.value);
  }

  lemma PayingIsOrderly(env: Env)
    ensures Orderly(env, Paying(env))
    ensures forall c :: c in Paying(env).calls ==> !c.Fetch?
  {
    HandingOverFacts(env);
    LookAnswers(env.newerSecond);
    if ResultsOf(env) != [] {
      AnalyzingIsComplete(env);
    }
    var rest := Then(Analyzing(env), HandingOver(env));
    ThenCalls(Analyzing(env), HandingOver(env));
    ThenCalls(Checking(env.newerSecond), rest);
    assert Paying(env).calls[0] == AskNewer(env.newerSecond);
  }

  lemma PlainPrefix(env: Env, first: Run, second: Run)
    requires Orderly(env, second) && !first.verdict.Finished?
    requires forall c :: c in first.calls ==> IsPlain(c)
    ensures Orderly(env, Then(first, second))
    ensures HasFetched(Then(first, second).calls) <==>
      HasFetched(first.calls) || (first.verdict.Pass? && HasFetched(second.calls))
  {
    ThenCalls(first, second);
  }

  lemma OpeningIsOrderly(env: Env)
    ensures Orderly(env, Opening(env)) && !HasFetched(Opening(env).calls)
  {
    PayingIsOrderly(env);
    PlainPrefix(env, Gating(env), Paying(env));
    PlainPrefix(env, Run([RegisterAccess], Passing(env.receipt)), Then(Gating(env), Paying(env)));
  }

  /** All there is to know of the body; whether it fetched shows in its calls, and before that it can only raise. */
  lemma BodyIsOrderly(env: Env, change: Snapshot)
    ensures Orderly(env, Body(env, change))
    ensures HasFetched(Body(env, change).calls) <==> env.adapter.Ok? && env.fetch.Ok?
    ensures !HasFetched(Body(env, change).calls) ==> Body(env, change).verdict.Raised?
  {
    OpeningIsOrderly(env);
    var checked := Then(Validating(change, env), Opening(env));
    var fetched := Then(Fetching(env), checked);
    PlainPrefix(env, Validating(change, env), Opening(env));
    PlainPrefix(env, Fetching(env), checked);
    PlainPrefix(env, Run([], Passing(env.adapter)), fetched);
  }

  predicate RecordsFailure(outcome: Outcome) {
    outcome.TerminalFailure? || outcome.Retryable?
  }

  lemma SettledCounts(env: Env, body: Run)
    ensures Failures(Settled(env, body).0) == if RecordsFailure(Settled(env, body).1) then 1 else 0
    ensures RecordsFailure(Settled(env, body).1) ==> Fail(Settled(env, body).1.code) in Settled(env, body).0
    ensures Cleanups(Settled(env, body).0) ==
      if Hook(env) && !body.verdict.Pass? && !Settled(env, body).1.Retryable?
        && (body.verdict.Raised? ==> HasFetched(body.calls) && !body.verdict.error.RegistryError?)
      then 1 else 0
  {
    assert Failures(Tidy(true)) == 0 && Cleanups(Tidy(true)) == 1;
    if body.verdict.Superseded? {
      CountsAdd([Fail(SUPERSEDED)], Tidy(Hook(env)));
    } else if body.verdict.Raised? && !IsRetried(body.verdict.error) {
      CountsAdd([Fail(CodeOf(body.verdict.error))],
                Tidy(Hook(env) && HasFetched(body.calls) && !body.verdict.error.RegistryError?));
    }
  }

  lemma CodesDiffer(e: Error)
    ensures CodeOf(e) == CodeOf(RegistryError) <==> e.RegistryError?
    ensures SUPERSEDED != CodeOf(RegistryError)
  {
    assert CodeOf(RegistryError)[0] == 'C' && CodeOf(RegistryError)[3] == 'F' && SUPERSEDED[0] == 'S';
    match e
    case SourceError(category, _) => assert CodeOf(e)[0] == 'S';
    case IntelligenceError(category, _) => assert CodeOf(e)[0] == 'I';
    case CompletenessError => assert CodeOf(e)[3] == 'T';
    case InvariantError => assert CodeOf(e)[3] == 'T';
    case OtherError => assert CodeOf(e)[0] == 'I';
    case SupersededError =>
    case RegistryError =>
  }

  lemma OnlyRegistryHasItsCode(env: Env, body: Run)
    ensures Settled(env, body).1 == TerminalFailure(CodeOf(RegistryError)) <==> body.verdict == Raised(RegistryError)
  {
    CodesDiffer(RegistryError);
    if body.verdict.Raised? {
      CodesDiffer(body.verdict.error);
    }
  }

  lemma ConcludedCounts(env: Env, body: Run)
    requires Orderly(env, body)
    ensures Failures(Concluded(env, body).0) == Failures(Settled(env, body).0)
    ensures Cleanups(Concluded(env, body).0) == Cleanups(Settled(env, body).0)
    ensures HasFetched(Concluded(env, body).0) <==> HasFetched(body.calls)
    ensures forall c :: c in Settled(env, body).0 ==> c in Concluded(env, body).0 && (c.Fail? || c.Cleanup?)
  {
    QuietCountsNothing(body.calls);
    var first := [AskNewer(Ok(false))];
    CountsAdd(first, body.calls);
    CountsAdd(first + body.calls, Settled(env, body).0);
  }

  lemma ConcludedShows(env: Env, body: Run)
    requires Orderly(env, body)
    ensures RunAnalyzers in Concluded(env, body).0 ==>
      AskNewer(Ok(false)) in body.calls && AskNewer(Ok(true)) !in Concluded(env, body).0
    ensures AskNewer(Ok(true)) in Concluded(env, body).0 ==>
      Settled(env, body).1 == TerminalFailure(SUPERSEDED) && RunAnalyzers !in Concluded(env, body).0
    ensures forall c :: c in Concluded(env, body).0 && c.Accept? ==>
      c.result in ResultsOf(env) && env.gate.Ok? && env.gate.value.Approved?
      && C.Complete(env.gate.value.artifact, ResultsOf(env))
  {
    assert forall c :: c in Settled(env, body).0 ==> c.Fail? || c.Cleanup?;
    assert forall c :: c in Concluded(env, body).0 <==>
      c == AskNewer(Ok(false)) || c in body.calls || c in Settled(env, body).0;
  }

  /** The change is claimed and the first look finds nothing newer. */
  ghost predicate Started(env: Env) {
    env.claim.Claimed? && env.newerFirst == Ok(false)
  }

  /**
   * A claimed run ends as completed, as denied or with exactly one recorded failure, whose code its
   * answer repeats. It ends otherwise exactly when the first look for a newer change raises, and then
   * nothing records the failure.
   */
  lemma ClaimedRunEndsExactlyOnce(env: Env)
    requires env.claim.Claimed?
    ensures var (calls, outcome) := Executed(env);
      && (outcome.Escaped? <==> env.newerFirst.Raise?)
      && (!outcome.Escaped? ==> outcome.Completed? || outcome.GateDenied? || RecordsFailure(outcome))
      && Failures(calls) == (if RecordsFailure(outcome) then 1 else 0)
      && (RecordsFailure(outcome) ==> Fail(outcome.code) in calls)
      && (outcome.Completed? ==> outcome.status in TERMINAL)
  {
    LookAnswers(env.newerFirst);
    if env.newerFirst == Ok(true) {
      CountsAdd([AskNewer(env.newerFirst)], [Fail(SUPERSEDED)]);
    } else if env.newerFirst.Ok? {
      var body := Body(env, env.claim.change);
      BodyIsOrderly(env, env.claim.change);
      ConcludedCounts(env, body);
      SettledCounts(env, body);
    }
  }

  /**
   * The snapshot is cleaned up at most once, and only by an adapter that can; once it was fetched, exactly when the
   * run is not to be retried and did not end on a missing adapter, and before that never.
   */
  lemma CleanupExactlyWhenDone(env: Env)
    requires env.claim.Claimed?
    ensures var (calls, outcome) := Executed(env);
      Cleanups(calls) ==
        if env.adapter == Ok(true) && Fetch(true) in calls
          && !outcome.Retryable? && outcome != TerminalFailure("CONFIGURATION:SOURCE_ADAPTER_MISSING") then 1 else 0
  {
    LookAnswers(env.newerFirst);
    if env.newerFirst == Ok(true) {
      CountsAdd([AskNewer(env.newerFirst)], [Fail(SUPERSEDED)]);
    } else if env.newerFirst.Ok? {
      var body := Body(env, env.claim.change);
      BodyIsOrderly(env, env.claim.change);
      ConcludedCounts(env, body);
      SettledCounts(env, body);
      OnlyRegistryHasItsCode(env, body);
    }
  }

  /** A run that never started makes no call but the first look and a failure record. */
  lemma UnstartedRunDoesNothing(env: Env)
    requires !Started(env)
    ensures forall c :: c in Executed(env).0 ==> c == AskNewer(env.newerFirst) || c == Fail(SUPERSEDED)
    ensures AskNewer(Ok(true)) in Executed(env).0 ==> Executed(env).1 == TerminalFailure(SUPERSEDED)
  {
    LookAnswers(env.newerFirst);
  }

  lemma StartedRun(env: Env)
    requires Started(env)
    ensures Executed(env) == Concluded(env, Body(env, env.claim.change))
    ensures Orderly(env, Body(env, env.claim.change))
  {
    BodyIsOrderly(env, env.claim.change);
  }

  /** The analyzers start only after both looks for a newer change said no. */
  lemma AnalyzersNeverStartAfterANewerChange(env: Env)
    ensures RunAnalyzers in Executed(env).0 ==>
      && Started(env) && AskNewer(Ok(false)) in Body(env, env.claim.change).calls
      && AskNewer(Ok(true)) !in Executed(env).0
  {
    if Started(env) {
      StartedRun(env);
      ConcludedShows(env, Body(env, env.claim.change));
    } else {
      UnstartedRunDoesNothing(env);
    }
  }

  /** Any yes ends the run as superseded, for good and unpaid. */
  lemma NewerChangeEndsTheRun(env: Env)
    ensures AskNewer(Ok(true)) in Executed(env).0 ==>
      Executed(env).1 == TerminalFailure(SUPERSEDED) && RunAnalyzers !in Executed(env).0
  {
    if Started(env) {
      StartedRun(env);
      ConcludedShows(env, Body(env, env.claim.change));
    } else {
      UnstartedRunDoesNothing(env);
    }
  }

  /** The artifact that passed the gate and was analyzed completely. */
  ghost predicate Delivered(env: Env) {
    env.gate.Ok? && env.gate.value.Approved? && C.Complete(env.gate.value.artifact, ResultsOf(env))
  }

  /** Whatever is handed over comes from one complete result set for the gated artifact. */
  lemma OnlyCompleteSetsAreHandedOver(env: Env)
    ensures forall c :: c in Executed(env).0 && c.Accept? ==> c.result in ResultsOf(env) && Delivered(env)
  {
    if Started(env) {
      StartedRun(env);
      ConcludedShows(env, Body(env, env.claim.change));
    } else {
      UnstartedRunDoesNothing(env);
    }
  }

  // -------------------------------------------------------------------------
  // The order of the calls
  // -------------------------------------------------------------------------

  function Stage(c: Call): nat {
    match c
    case Fetch(_) => 1
    case RegisterAccess => 2
    case BuildArtifact => 3
    case AskNewer(_) => 4
    case RunAnalyzers => 5
    case Accept(_) => 6
    case Explain => 7
    case Fail(_) => 8
    case Cleanup => 9
  }

  /** Stages strictly increase, except among the results handed over. */
  ghost predicate Staged(calls: seq<Call>) {
    forall i, j :: 0 <= i < j < |calls| ==>
      Stage(calls[i]) < Stage(calls[j]) || (calls[i].Accept? && calls[j].Accept?)
  }

  ghost predicate From(calls: seq<Call>, stage: nat) {
    Staged(calls) && forall c :: c in calls ==> stage <= Stage(c)
  }

  lemma StagesJoin(a: seq<Call>, b: seq<Call>, stage: nat)
    requires Staged(a) && From(b, stage) && forall c :: c in a ==> Stage(c) < stage
    ensures Staged(a + b)
  {
  }

  /** One call of a stage in front of a run of later stages. */
  lemma StagePrefix(first: Run, second: Run, stage: nat)
    requires |first.calls| <= 1 && (forall c :: c in first.calls ==> Stage(c) == stage) && From(second.calls, stage + 1)
    ensures From(Then(first, second).calls, stage)
  {
    StagesJoin(first.calls, second.calls, stage + 1);
  }

  lemma SilentPrefix(first: Run, second: Run, stage: nat)
    requires first.calls == [] && From(second.calls, stage)
    ensures From(Then(first, second).calls, stage)
  {
    assert [] + second.calls == second.calls;
  }

  lemma AcceptingIsStaged(env: Env)
    ensures Staged(Accepting(env, ResultsOf(env), |ResultsOf(env)|).calls)
    ensures forall c :: c in Accepting(env, ResultsOf(env), |ResultsOf(env)|).calls ==> Stage(c) == 6
  {
    AcceptingOnlyAccepts(env, ResultsOf(env), |ResultsOf(env)|);
    AcceptsAreStaged(Accepting(env, ResultsOf(env), |ResultsOf(env)|).calls);
  }

  lemma AcceptsAreStaged(calls: seq<Call>)
    requires forall i :: 0 <= i < |calls| ==> calls[i].Accept?
    ensures Staged(calls) && forall c :: c in calls ==> Stage(c) == 6
  {
  }

  lemma HandingOverIsStaged(env: Env)
    ensures From(HandingOver(env).calls, 6)
  {
    AcceptingIsStaged(env);
    var rest := Then(Explaining(env), Concluding(env));
    StagePrefix(Explaining(env), Concluding(env), 7);
    var first := Accepting(env, ResultsOf(env), |ResultsOf(env)|);
    StagesJoin(first.calls, rest.calls, 7);
    ThenCalls(first, rest);
  }

  lemma PayingIsStaged(env: Env)
    ensures From(Paying(env).calls, 4)
  {
    HandingOverIsStaged(env);
    StagePrefix(Analyzing(env), HandingOver(env), 5);
    StagePrefix(Checking(env.newerSecond), Then(Analyzing(env), HandingOver(env)), 4);
  }

  lemma OpeningIsStaged(env: Env)
    ensures From(Opening(env).calls, 2)
  {
    PayingIsStaged(env);
    StagePrefix(Gating(env), Paying(env), 3);
    StagePrefix(Run([RegisterAccess], Passing(env.receipt)), Then(Gating(env), Paying(env)), 2);
  }

  lemma BodyIsStaged(env: Env, change: Snapshot)
    ensures Staged(Body(env, change).calls)
  {
    OpeningIsStaged(env);
    var checked := Then(Validating(change, env), Opening(env));
    SilentPrefix(Validating(change, env), Opening(env), 2);
    StagePrefix(Fetching(env), checked, 1);
    SilentPrefix(Run([], Passing(env.adapter)), Then(Fetching(env), checked), 1);
  }

  /**
   * After the first look, the calls come in the order of the stages: fetch, record the access, gate, look
   * again, analyze, hand over, explain, record a failure, clean up; none but the hand-over repeats.
   */
  lemma CallsComeInOrder(env: Env)
    ensures Executed(env).0 != [] ==> Executed(env).0[0].AskNewer? && Staged(Executed(env).0[1..])
  {
    if Started(env) {
      StartedRun(env);
      var body := Body(env, env.claim.change);
      BodyIsStaged(env, env.claim.change);
      ConcludedIsStaged(env, body);
    } else {
      LookAnswers(env.newerFirst);
    }
  }

  lemma ConcludedIsStaged(env: Env, body: Run)
    requires Orderly(env, body) && Staged(body.calls)
    ensures Staged(Concluded(env, body).0[1..]) && Concluded(env, body).0[0].AskNewer?
  {
    var rest := Settled(env, body).0;
    assert Concluded(env, body).0[1..] == body.calls + rest;
    StagesJoin(body.calls, rest, 8);
  }

  /** A completed run has handed over every result of a complete set, and answers the last one's status. */
  lemma CompletedRunDeliversEverything(env: Env)
    ensures Executed(env).1.Completed? ==>
      && Delivered(env)
      && (forall r :: r in ResultsOf(env) ==> Accept(r) in Executed(env).0)
      && Executed(env).1.status == LastStatus(env, |ResultsOf(env)|)
  {
    if Started(env) {
      StartedRun(env);
      BodyFinishes(env, env.claim.change);
    } else {
      LookAnswers(env.newerFirst);
    }
  }

  lemma HandingOverFinishes(env: Env)
    requires HandingOver(env).verdict.Finished?
    ensures forall r :: r in ResultsOf(env) ==> Accept(r) in HandingOver(env).calls
    ensures HandingOver(env).verdict.status == LastStatus(env, |ResultsOf(env)|)
  {
    var results := ResultsOf(env);
    var accepted := Accepting(env, results, |results|);
    AcceptingOnlyAccepts(env, results, |results|);
    forall r | r in results ensures Accept(r) in HandingOver(env).calls {
      var i :| 0 <= i < |results| && results[i] == r;
      assert accepted.calls[i] == Accept(r);
      assert HandingOver(env).calls[i] == Accept(r);
    }
  }

  lemma PayingFinishes(env: Env)
    requires Paying(env).verdict.Finished?
    ensures HandingOver(env).verdict == Paying(env).verdict
    ensures forall c :: c in HandingOver(env).calls ==> c in Paying(env).calls
    ensures env.gate.Ok? && env.gate.value.Approved? ==> Delivered(env)
  {
    var rest := Then(Analyzing(env), HandingOver(env));
    ThenCalls(Analyzing(env), HandingOver(env));
    ThenCalls(Checking(env.newerSecond), rest);
    if env.gate.Ok? && env.gate.value.Approved? {
      C.AcceptedExactlyWhenComplete(env.active, env.gate.value.artifact, env.delegate.value);
    }
  }

  lemma BodyFinishes(env: Env, change: Snapshot)
    ensures Body(env, change).verdict.Finished? ==>
      && Delivered(env)
      && (forall r :: r in ResultsOf(env) ==> Accept(r) in Body(env, change).calls)
      && Body(env, change).verdict.status == LastStatus(env, |ResultsOf(env)|)
  {
    if Body(env, change).verdict.Finished? {
      BodyPasses(env, change);
      PayingFinishes(env);
      HandingOverFinishes(env);
    }
  }

  lemma BodyPasses(env: Env, change: Snapshot)
    requires Body(env, change).verdict.Finished?
    ensures Paying(env).verdict == Body(env, change).verdict && env.gate.Ok? && env.gate.value.Approved?
    ensures forall c :: c in Paying(env).calls ==> c in Body(env, change).calls
  {
    var gated := Then(Gating(env), Paying(env));
    ThenCalls(Gating(env), Paying(env));
    ThenCalls(Run([RegisterAccess], Passing(env.receipt)), gated);
    var checked := Then(Validating(change, env), Opening(env));
    ThenCalls(Validating(change, env), Opening(env));
    ThenCalls(Fetching(env), checked);
    ThenCalls(Run([], Passing(env.adapter)), Then(Fetching(env), checked));
  }

  // -------------------------------------------------------------------------
  // The worker
  // -------------------------------------------------------------------------

  /** The guarded part up to the analyzers' results. */
  method Prepare(env: Env, change: Snapshot) returns (calls: seq<Call>, fetched: bool, verdict: Verdict)
    ensures fetched == (env.adapter.Ok? && env.fetch.Ok?)
    ensures RegisterAccess in calls || BuildArtifact in calls || RunAnalyzers in calls || verdict.Pass? ==>
      env.fetch == Ok(change)
    ensures fetched && env.fetch.value.identity != change.identity ==> verdict == Raised(CompletenessError)
    ensures fetched && env.fetch.value.identity == change.identity && env.fetch.value.revision != change.revision ==>
      verdict == Superseded
    ensures Run(calls, verdict) ==
      Then(Run([], Passing(env.adapter)),
      Then(Fetching(env),
      Then(Validating(change, env),
      Then(Run([RegisterAccess], Passing(env.receipt)),
      Then(Gating(env),
      Then(Checking(env.newerSecond),
           Analyzing(env)))))))
  {
    calls, fetched, verdict := [], false, Pass;
    if env.adapter.Raise? {
      return calls, fetched, Raised(env.adapter.error);
    }
    calls := calls + [Fetch(env.fetch.Ok?)];
    if env.fetch.Raise? {
      return calls, fetched, Raised(env.fetch.error);
    }
    var snapshot := env.fetch.value;
    fetched := true;
    if snapshot.identity != change.identity {
      return calls, fetched, Raised(CompletenessError);
    }
    if snapshot.revision != change.revision {
      return calls, fetched, Superseded;
    }
    calls := calls + [RegisterAccess];
    if env.receipt.Raise? {
      return calls, fetched, Raised(env.receipt.error);
    }
    calls := calls + [BuildArtifact];
    if env.gate.Raise? {
      return calls, fetched, Raised(env.gate.error);
    }
    if env.gate.value.Denied? {
      return calls, fetched, Refused(env.gate.value.reason);
    }
    if env.gate.value.ApprovedWithoutArtifact? {
      return calls, fetched, Raised(OtherError);
    }
    calls := calls + [AskNewer(env.newerSecond)];
    if env.newerSecond.Raise? {
      return calls, fetched, Raised(env.newerSecond.error);
    }
    if env.newerSecond.value {
      return calls, fetched, Superseded;
    }
    calls := calls + [RunAnalyzers];
    var results := Analyzed(env, env.gate.value.artifact);
    if results.Raise? {
      return calls, fetched, Raised(results.error);
    }
  }

  /** Hands the results over one by one. */
  method AcceptAll(env: Env, results: seq<C.Result>)
    returns (calls: seq<Call>, verdict: Verdict, explained: nat, finalStatus: string)
    ensures Run(calls, verdict) == Accepting(env, results, |results|)
    ensures verdict.Pass? ==> explained == Affected(env, |results|) && finalStatus == LastStatus(env, |results|)
  {
    calls, verdict, explained, finalStatus := [], Pass, 0, "";
    for i := 0 to |results|
      invariant verdict == Pass && Run(calls, Pass) == Accepting(env, results, i)
      invariant finalStatus == LastStatus(env, i) && explained == Affected(env, i)
    {
      var reply := AcceptReply(env, i);
      calls := calls + [Accept(results[i])];
      if reply.Raise? {
        RefusalStops(env, results, i, |results|);
        return calls, Raised(reply.error), explained, finalStatus;
      }
      finalStatus := reply.value.status;
      explained := explained + reply.value.affected;
    }
  }

  /** Hands the results over, then explains and concludes. */
  method HandOver(env: Env) returns (calls: seq<Call>, verdict: Verdict)
    ensures Run(calls, verdict) == HandingOver(env)
  {
    var results, explained, finalStatus := ResultsOf(env), 0, "";
    calls, verdict, explained, finalStatus := AcceptAll(env, results);
    AcceptingOnlyAccepts(env, results, |results|);
    if verdict.Raised? {
      return;
    }
    ghost var accepted := calls;
    assert Then(Explaining(env), Concluding(env)).calls == Explaining(env).calls;
    assert accepted + [] == accepted;
    if explained > 0 && env.explanations {
      calls := calls + [Explain];
      if env.explain.Raise? {
        return calls, Raised(env.explain.error);
      }
    }
    verdict := if finalStatus in TERMINAL then Finished(finalStatus) else Raised(CompletenessError);
  }

  lemma {:induction false} RefusalStops(env: Env, results: seq<C.Result>, i: nat, n: nat)
    requires i < n <= |results| && Accepting(env, results, i).verdict.Pass? && AcceptReply(env, i).Raise?
    ensures Accepting(env, results, n) ==
      Run(Accepting(env, results, i).calls + [Accept(results[i])], Raised(AcceptReply(env, i).error))
  {
    if i < n - 1 {
      RefusalStops(env, results, i, n - 1);
    }
  }

  /** The two parts in a row are the body. */
  lemma PartsMakeTheBody(env: Env, change: Snapshot, first: Run)
    requires first ==
      Then(Run([], Passing(env.adapter)),
      Then(Fetching(env),
      Then(Validating(change, env),
      Then(Run([RegisterAccess], Passing(env.receipt)),
      Then(Gating(env),
      Then(Checking(env.newerSecond),
           Analyzing(env)))))))
    ensures Body(env, change) == Then(first, HandingOver(env))
  {
    ThenAssociates(Checking(env.newerSecond), Analyzing(env), HandingOver(env));
    var paid := Then(Checking(env.newerSecond), Analyzing(env));
    ThenAssociates(Gating(env), paid, HandingOver(env));
    var gated := Then(Gating(env), paid);
    ThenAssociates(Run([RegisterAccess], Passing(env.receipt)), gated, HandingOver(env));
    var recorded := Then(Run([RegisterAccess], Passing(env.receipt)), gated);
    ThenAssociates(Validating(change, env), recorded, HandingOver(env));
    var checked := Then(Validating(change, env), recorded);
    ThenAssociates(Fetching(env), checked, HandingOver(env));
    ThenAssociates(Run([], Passing(env.adapter)), Then(Fetching(env), checked), HandingOver(env));
  }

  lemma ThenAssociates(a: Run, b: Run, c: Run)
    ensures Then(a, Then(b, c)) == Then(Then(a, b), c)
  {
    if a.verdict.Pass? && b.verdict.Pass? {
      assert a.calls + (b.calls + c.calls) == (a.calls + b.calls) + c.calls;
    }
  }

  /** The exception ladder and the answers. */
  method Settle(env: Env, fetched: bool, verdict: Verdict, ghost body: Run) returns (calls: seq<Call>, outcome: Outcome)
    requires verdict == body.verdict && !verdict.Pass? && (verdict.Raised? ==> fetched == HasFetched(body.calls))
    ensures (calls, outcome) == Settled(env, body)
  {
    calls := [];
    var hook := env.adapter == Ok(true);
    match verdict {
      case Finished(status) => outcome := Completed(status);
      case Refused(reason) => outcome := GateDenied(reason);
      case Superseded =>
        calls := [Fail(SUPERSEDED)];
        outcome := TerminalFailure(SUPERSEDED);
      case Raised(error) =>
        calls := [Fail(CodeOf(error))];
        if IsRetried(error) {
          return calls, Retryable(CodeOf(error));
        }
        outcome := TerminalFailure(CodeOf(error));
        hook := hook && fetched && !error.RegistryError?;
    }
    assert calls + [] == calls && [] + Tidy(hook) == Tidy(hook);
    if hook {
      calls := calls + [Cleanup];
    }
  }

  /** One run, from the claim to the answer. */
  method Execute(env: Env) returns (calls: seq<Call>, outcome: Outcome)
    ensures (calls, outcome) == Executed(env)
  {
    calls := [];
    match env.claim
    case UnknownEvent => return calls, InvalidTask;
    case ClaimRaises(error) => return calls, Escaped(error);
    case AlreadyTaken => return calls, Duplicate;
    case Claimed(change) =>
      LookAnswers(env.newerFirst);
      calls := [AskNewer(env.newerFirst)];
      if env.newerFirst.Raise? {
        return calls, Escaped(env.newerFirst.error);
      }
      if env.newerFirst.value {
        calls := calls + [Fail(SUPERSEDED)];
        assert calls == [AskNewer(env.newerFirst), Fail(SUPERSEDED)];
        return calls, TerminalFailure(SUPERSEDED);
      }
      var work, fetched, verdict := Prepare(env, change);
      PartsMakeTheBody(env, change, Run(work, verdict));
      if verdict.Pass? {
        var more;
        more, verdict := HandOver(env);
        work := work + more;
      }
      assert Run(work, verdict) == Body(env, change);
      BodyIsOrderly(env, change);
      var rest;
      rest, outcome := Settle(env, fetched, verdict, Run(work, verdict));
      calls := calls + work + rest;
  }
}
