/** The sliding-window limiter in front of the API: one queue of accepted request times per client. */
module RateLimit {
  datatype Config = Config(requests: int, window: real)

  datatype Request = Request(client: string, at: real)

  type Buckets = map<string, seq<real>>

  function BucketOf(buckets: Buckets, client: string): seq<real> {
    if client in buckets then buckets[client] else []
  }

  /** Drops from the front what is no later than `cutoff`. */
  function Expire(bucket: seq<real>, cutoff: real): seq<real> {
    if bucket != [] && bucket[0] <= cutoff then Expire(bucket[1..], cutoff) else bucket
  }

  function Live(cfg: Config, buckets: Buckets, r: Request): seq<real> {
    Expire(BucketOf(buckets, r.client), r.at - cfg.window)
  }

  predicate Allowed(cfg: Config, buckets: Buckets, r: Request) {
    |Live(cfg, buckets, r)| < cfg.requests
  }

  function Next(cfg: Config, buckets: Buckets, r: Request): Buckets {
    var live := Live(cfg, buckets, r);
    if Allowed(cfg, buckets, r) then buckets[r.client := live + [r.at]]
    else if live == [] then buckets - {r.client}
    else buckets[r.client := live]
  }

  function After(cfg: Config, run: seq<Request>): Buckets {
    if run == [] then map[] else Next(cfg, After(cfg, run[..|run| - 1]), run[|run| - 1])
  }

  /** The times at which a client's requests were accepted over a whole run. */
  function Accepted(cfg: Config, run: seq<Request>, client: string): seq<real> {
    if run == [] then []
    else
      var before, last := run[..|run| - 1], run[|run| - 1];
      if last.client == client && Allowed(cfg, After(cfg, before), last) then Accepted(cfg, before, client) + [last.at]
      else Accepted(cfg, before, client)
  }

  /** How many of the times lie after `low` and no later than `high`. */
  function Count(times: seq<real>, low: real, high: real): (n: nat)
    ensures n <= |times|
  {
    if times == [] then 0
    else
      var last := times[|times| - 1];
      Count(times[..|times| - 1], low, high) + if low < last <= high then 1 else 0
  }

  function Most(cfg: Config): nat {
    if cfg.requests < 0 then 0 else cfg.requests
  }

  ghost predicate InOrder(run: seq<Request>) {
    forall i, j :: 0 <= i < j < |run| ==> run[i].at <= run[j].at
  }

  ghost predicate NoneAfter(run: seq<Request>, now: real) {
    forall i :: 0 <= i < |run| ==> run[i].at <= now
  }

  ghost predicate Sorted(times: seq<real>) {
    forall i, j :: 0 <= i < j < |times| ==> times[i] <= times[j]
  }

  /** Accepted times that are at least `n` apart in number are a window apart in time. */
  ghost predicate Spaced(times: seq<real>, n: nat, window: real) {
    forall i, j :: 0 <= i <= j < |times| && j - i >= n ==> times[i] <= times[j] - window
  }

  // -------------------------------------------------------------------------
  // Counting in a window
  // -------------------------------------------------------------------------

  lemma {:induction false} CountSkips(times: seq<real>, k: nat, low: real, high: real)
    requires k <= |times| && forall i :: 0 <= i < k ==> times[i] <= low
    ensures Count(times, low, high) <= |times| - k
  {
    if k < |times| {
      CountSkips(times[..|times| - 1], k, low, high);
    } else if times != [] {
      CountSkips(times[..|times| - 1], k - 1, low, high);
    }
  }

  lemma {:induction false} CountIsTheTail(times: seq<real>, k: nat, low: real, high: real)
    requires k <= |times|
    requires forall i :: 0 <= i < k ==> times[i] <= low
    requires forall i :: k <= i < |times| ==> low < times[i] <= high
    ensures Count(times, low, high) == |times| - k
  {
    if k < |times| {
      CountIsTheTail(times[..|times| - 1], k, low, high);
    } else {
      CountSkips(times, k, low, high);
    }
  }

  /** Spaced times crowd no window, wherever it ends. */
  lemma {:induction false} SpacedTimesNeverCrowd(times: seq<real>, n: nat, window: real, t: real)
    requires Sorted(times) && Spaced(times, n, window) && window >= 0.0
    ensures Count(times, t - window, t) <= n
  {
    if |times| <= n {
    } else {
      var last := |times| - 1;
      if times[last] <= t {
        assert times[last - n] <= times[last] - window;
        CountSkips(times, last - n + 1, t - window, t);
      } else {
        SpacedTimesNeverCrowd(times[..last], n, window, t);
      }
    }
  }

  // -------------------------------------------------------------------------
  // What the buckets hold
  // -------------------------------------------------------------------------

  lemma {:induction false} ExpireKeepsTheLive(bucket: seq<real>, cutoff: real) returns (k: nat)
    requires Sorted(bucket)
    ensures k <= |bucket| && Expire(bucket, cutoff) == bucket[k..]
    ensures forall i :: 0 <= i < k ==> bucket[i] <= cutoff
    ensures forall i :: k <= i < |bucket| ==> cutoff < bucket[i]
  {
    if bucket != [] && bucket[0] <= cutoff {
      var rest := ExpireKeepsTheLive(bucket[1..], cutoff);
      k := rest + 1;
      assert bucket[1..][rest..] == bucket[k..];
      forall i | 0 <= i < k ensures bucket[i] <= cutoff {
        if i > 0 {
          assert bucket[i] == bucket[1..][i - 1];
        }
      }
      forall i | k <= i < |bucket| ensures cutoff < bucket[i] {
        assert bucket[i] == bucket[1..][i - 1];
      }
    } else {
      k := 0;
    }
  }

  /** A bucket is the accepted times of its client without some that are out of every window from `now` on. */
  ghost predicate Holds(bucket: seq<real>, accepted: seq<real>, expired: nat, cutoff: real) {
    && expired <= |accepted|
    && bucket == accepted[expired..]
    && forall i :: 0 <= i < expired ==> accepted[i] <= cutoff
  }

  ghost predicate IsTail(bucket: seq<real>, accepted: seq<real>, cutoff: real) {
    exists expired :: Holds(bucket, accepted, expired, cutoff)
  }

  ghost predicate Faithful(cfg: Config, bucket: seq<real>, accepted: seq<real>, now: real) {
    && Sorted(accepted)
    && (forall i :: 0 <= i < |accepted| ==> accepted[i] <= now)
    && Spaced(accepted, Most(cfg), cfg.window)
    && IsTail(bucket, accepted, now - cfg.window)
  }

  /** Expiring at a later cutoff leaves exactly the accepted times after it. */
  lemma ExpireAgain(bucket: seq<real>, accepted: seq<real>, earlier: real, cutoff: real) returns (k: nat)
    requires Sorted(accepted) && IsTail(bucket, accepted, earlier) && earlier <= cutoff
    ensures Holds(Expire(bucket, cutoff), accepted, k, cutoff)
    ensures forall i :: k <= i < |accepted| ==> cutoff < accepted[i]
  {
    var expired :| Holds(bucket, accepted, expired, earlier);
    var more := ExpireKeepsTheLive(bucket, cutoff);
    k := expired + more;
    assert bucket[more..] == accepted[k..];
    forall i | 0 <= i < k ensures accepted[i] <= cutoff {
      if i >= expired {
        assert accepted[i] == bucket[i - expired];
      }
    }
    forall i | k <= i < |accepted| ensures cutoff < accepted[i] {
      assert accepted[i] == bucket[i - expired];
    }
  }

  /** At a later time the live part of a bucket is exactly what lies in the window that ends there. */
  lemma LiveIsTheWindow(cfg: Config, bucket: seq<real>, accepted: seq<real>, before: real, at: real) returns (k: nat)
    requires Faithful(cfg, bucket, accepted, before) && before <= at
    ensures Holds(Expire(bucket, at - cfg.window), accepted, k, at - cfg.window)
    ensures |Expire(bucket, at - cfg.window)| == Count(accepted, at - cfg.window, at)
  {
    var cutoff := at - cfg.window;
    k := ExpireAgain(bucket, accepted, before - cfg.window, cutoff);
    CountIsTheTail(accepted, k, cutoff, at);
  }

  lemma AppendKeepsSpacing(times: seq<real>, k: nat, n: nat, window: real, t: real)
    requires Sorted(times) && Spaced(times, n, window) && window >= 0.0
    requires k <= |times| && (forall i :: 0 <= i < k ==> times[i] <= t - window)
    requires (forall i :: 0 <= i < |times| ==> times[i] <= t) && |times| - k < n
    ensures Sorted(times + [t]) && Spaced(times + [t], n, window)
  {
  }

  lemma LaterIsStillFaithful(cfg: Config, bucket: seq<real>, accepted: seq<real>, before: real, at: real)
    requires Faithful(cfg, bucket, accepted, before) && before <= at
    ensures Faithful(cfg, bucket, accepted, at)
  {
    var expired :| Holds(bucket, accepted, expired, before - cfg.window);
    assert Holds(bucket, accepted, expired, at - cfg.window);
  }

  lemma RefusedIsFaithful(cfg: Config, bucket: seq<real>, accepted: seq<real>, before: real, at: real)
    requires Faithful(cfg, bucket, accepted, before) && before <= at
    ensures Faithful(cfg, Expire(bucket, at - cfg.window), accepted, at)
  {
    var k := LiveIsTheWindow(cfg, bucket, accepted, before, at);
  }

  lemma AcceptedIsFaithful(cfg: Config, bucket: seq<real>, accepted: seq<real>, before: real, at: real)
    requires cfg.window >= 0.0 && Faithful(cfg, bucket, accepted, before) && before <= at
    requires |Expire(bucket, at - cfg.window)| < cfg.requests
    ensures Faithful(cfg, Expire(bucket, at - cfg.window) + [at], accepted + [at], at)
  {
    var k := LiveIsTheWindow(cfg, bucket, accepted, before, at);
    AppendKeepsSpacing(accepted, k, Most(cfg), cfg.window, at);
    assert Holds(Expire(bucket, at - cfg.window) + [at], accepted + [at], k, at - cfg.window);
  }

  /** A client's bucket and its accepted times after one more request, which may be another client's. */
  function NextBucket(cfg: Config, bucket: seq<real>, r: Request, client: string): seq<real> {
    var live := Expire(bucket, r.at - cfg.window);
    if r.client != client then bucket else if |live| < cfg.requests then live + [r.at] else live
  }

  function NextAccepted(cfg: Config, bucket: seq<real>, accepted: seq<real>, r: Request, client: string): seq<real> {
    if r.client == client && |Expire(bucket, r.at - cfg.window)| < cfg.requests then accepted + [r.at] else accepted
  }

  lemma StepIsFaithful(cfg: Config, bucket: seq<real>, accepted: seq<real>, r: Request, client: string)
    requires cfg.window >= 0.0 && Faithful(cfg, bucket, accepted, r.at)
    ensures Faithful(cfg, NextBucket(cfg, bucket, r, client), NextAccepted(cfg, bucket, accepted, r, client), r.at)
  {
    if r.client == client {
      if |Expire(bucket, r.at - cfg.window)| < cfg.requests {
        AcceptedIsFaithful(cfg, bucket, accepted, r.at, r.at);
      } else {
        RefusedIsFaithful(cfg, bucket, accepted, r.at, r.at);
      }
    }
  }

  lemma BucketStep(cfg: Config, buckets: Buckets, r: Request, client: string)
    ensures BucketOf(Next(cfg, buckets, r), client) == NextBucket(cfg, BucketOf(buckets, client), r, client)
  {
  }

  lemma {:induction false} RunIsFaithful(cfg: Config, run: seq<Request>, client: string, now: real)
    requires cfg.window >= 0.0 && InOrder(run) && NoneAfter(run, now)
    ensures Faithful(cfg, BucketOf(After(cfg, run), client), Accepted(cfg, run, client), now)
  {
    if run == [] {
      assert Holds([], [], 0, now - cfg.window);
    } else {
      var before, last := run[..|run| - 1], run[|run| - 1];
      RunIsFaithful(cfg, before, client, last.at);
      StepIsFaithful(cfg, BucketOf(After(cfg, before), client), Accepted(cfg, before, client), last, client);
      BucketStep(cfg, After(cfg, before), last, client);
      LaterIsStillFaithful(cfg, BucketOf(After(cfg, run), client), Accepted(cfg, run, client), last.at, now);
    }
  }

  // -------------------------------------------------------------------------
  // The bound
  // -------------------------------------------------------------------------

  /** In every run, every window of every client, wherever it ends, holds at most the configured requests. */
  lemma EveryWindowIsBounded(cfg: Config, run: seq<Request>, client: string, t: real)
    requires cfg.window >= 0.0 && InOrder(run)
    ensures Count(Accepted(cfg, run, client), t - cfg.window, t) <= Most(cfg)
  {
    if run != [] {
      RunIsFaithful(cfg, run, client, run[|run| - 1].at);
      SpacedTimesNeverCrowd(Accepted(cfg, run, client), Most(cfg), cfg.window, t);
    }
  }

  lemma AllowedIsFull(cfg: Config, buckets: Buckets, accepted: seq<real>, r: Request)
    requires cfg.window >= 0.0 && Faithful(cfg, BucketOf(buckets, r.client), accepted, r.at)
    ensures !Allowed(cfg, buckets, r) <==> Count(accepted, r.at - cfg.window, r.at) == Most(cfg)
  {
    FullBucket(cfg, BucketOf(buckets, r.client), accepted, r.at);
  }

  lemma FullBucket(cfg: Config, bucket: seq<real>, accepted: seq<real>, at: real)
    requires cfg.window >= 0.0 && Faithful(cfg, bucket, accepted, at)
    ensures |Expire(bucket, at - cfg.window)| >= cfg.requests <==>
      Count(accepted, at - cfg.window, at) == Most(cfg)
  {
    var k := LiveIsTheWindow(cfg, bucket, accepted, at, at);
    SpacedTimesNeverCrowd(accepted, Most(cfg), cfg.window, at);
  }

  /** A request is refused exactly when its own window is full, and then it holds exactly the configured number. */
  lemma RefusedExactlyWhenFull(cfg: Config, run: seq<Request>, r: Request)
    requires cfg.window >= 0.0 && InOrder(run) && NoneAfter(run, r.at)
    ensures !Allowed(cfg, After(cfg, run), r) <==>
      Count(Accepted(cfg, run, r.client), r.at - cfg.window, r.at) == Most(cfg)
  {
    RunIsFaithful(cfg, run, r.client, r.at);
    AllowedIsFull(cfg, After(cfg, run), Accepted(cfg, run, r.client), r);
  }

  /** When nothing is ever allowed, no client is remembered. */
  lemma {:induction false} ClosedLimiterKeepsNothing(cfg: Config, run: seq<Request>)
    requires cfg.requests <= 0
    ensures After(cfg, run) == map[]
  {
    if run != [] {
      ClosedLimiterKeepsNothing(cfg, run[..|run| - 1]);
    }
  }

  // -------------------------------------------------------------------------
  // The middleware's state
  // -------------------------------------------------------------------------

  class LocalRateLimit {
    const cfg: Config
    var buckets: Buckets

    constructor (cfg: Config)
      ensures this.cfg == cfg && buckets == After(cfg, [])
    {
      this.cfg := cfg;
      buckets := map[];
    }

    method Admit(client: string, now: real) returns (allowed: bool)
      modifies this
      ensures allowed == Allowed(cfg, old(buckets), Request(client, now))
      ensures buckets == Next(cfg, old(buckets), Request(client, now))
    {
      var bucket := if client in buckets then buckets[client] else [];
      while bucket != [] && bucket[0] <= now - cfg.window
        invariant Expire(bucket, now - cfg.window) == Live(cfg, old(buckets), Request(client, now))
      {
        bucket := bucket[1..];
      }
      allowed := |bucket| < cfg.requests;
      if allowed {
        buckets := buckets[client := bucket + [now]];
      } else if bucket == [] {
        buckets := buckets - {client};
      } else {
        buckets := buckets[client := bucket];
      }
    }
  }
}
