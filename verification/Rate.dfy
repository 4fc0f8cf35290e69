/** Token buckets per identity (`rate.rs`), over real numbers. */
module Rate {
  import opened Wrappers
  import opened Bytes

  datatype Bucket = Bucket(tokens: real, lastRefill: real)

  function Refill(tokens: real, elapsed: real, perSecond: real, capacity: real): real
  {
    var r := tokens + elapsed * perSecond;
    if r <= capacity then r else capacity
  }

  /** `saturating_duration_since`. */
  function Elapsed(now: real, since: real): (e: real)
    ensures e >= 0.0
  {
    if now >= since then now - since else 0.0
  }

  function PerSecond(limit: nat): real { limit as real / 60.0 }

  /** The bucket an attempt works on, refilled; a first attempt finds it full. */
  function Refilled(limit: nat, b: Option<Bucket>, now: real): Bucket
  {
    var old' := if b.Some? then b.value else Bucket(limit as real, now);
    Bucket(Refill(old'.tokens, Elapsed(now, old'.lastRefill), PerSecond(limit), limit as real), now)
  }

  predicate Allowed(limit: nat, b: Option<Bucket>, now: real)
  {
    Refilled(limit, b, now).tokens >= 1.0
  }

  function Taken(limit: nat, b: Option<Bucket>, now: real): Bucket
  {
    var r := Refilled(limit, b, now);
    if r.tokens >= 1.0 then r.(tokens := r.tokens - 1.0) else r
  }

  function BucketOf(buckets: map<Digest, Bucket>, id: Digest): Option<Bucket>
  {
    if id in buckets then Some(buckets[id]) else None
  }

  class RateLimiter {
    const limit: nat
    const capacity: real
    const refillPerSec: real
    var buckets: map<Digest, Bucket>

    ghost predicate Valid()
    {
      capacity == limit as real && refillPerSec == PerSecond(limit)
    }

    constructor (recordsPerMinute: nat)
      ensures Valid() && limit == recordsPerMinute && buckets == map[]
    {
      limit := recordsPerMinute;
      capacity := recordsPerMinute as real;
      refillPerSec := recordsPerMinute as real / 60.0;
      buckets := map[];
    }

    /** One attempt: it may change the bucket of its own identity only. A limit
        of 0 turns the limiter off. */
    method Check(id: Digest, now: real) returns (ok: bool)
      requires Valid()
      modifies this`buckets
      ensures limit == 0 ==> ok && buckets == old(buckets)
      ensures limit > 0 ==> ok == Allowed(limit, BucketOf(old(buckets), id), now)
      ensures limit > 0 ==> buckets == old(buckets)[id := Taken(limit, BucketOf(old(buckets), id), now)]
    {
      if limit == 0 { return true; }
      var bucket := if id in buckets then buckets[id] else Bucket(capacity, now);
      var elapsed := Elapsed(now, bucket.lastRefill);
      var tokens := Refill(bucket.tokens, elapsed, refillPerSec, capacity);
      if tokens >= 1.0 {
        tokens := tokens - 1.0;
        ok := true;
      } else {
        ok := false;
      }
      buckets := buckets[id := Bucket(tokens, now)];
    }
  }

  // ------------------------------------------------------------------
  // Runs
  // ------------------------------------------------------------------

  datatype Attempt = Attempt(id: Digest, now: real)

  /** The outcomes of a run of attempts by anyone. */
  function Outcomes(limit: nat, buckets: map<Digest, Bucket>, attempts: seq<Attempt>): (r: seq<bool>)
    ensures |r| == |attempts|
    decreases |attempts|
  {
    if attempts == [] then []
    else
      var a := attempts[0];
      if limit == 0 then [true] + Outcomes(limit, buckets, attempts[1..])
      else
        var b := BucketOf(buckets, a.id);
        [Allowed(limit, b, a.now)] + Outcomes(limit, buckets[a.id := Taken(limit, b, a.now)], attempts[1..])
  }

  /** The outcomes of one identity's attempts, had it been alone. */
  function Alone(limit: nat, b: Option<Bucket>, times: seq<real>): (r: seq<bool>)
    ensures |r| == |times|
    decreases |times|
  {
    if times == [] then []
    else if limit == 0 then [true] + Alone(limit, b, times[1..])
    else [Allowed(limit, b, times[0])] + Alone(limit, Some(Taken(limit, b, times[0])), times[1..])
  }

  function TimesOf(attempts: seq<Attempt>, id: Digest): seq<real>
  {
    if attempts == [] then []
    else if attempts[0].id == id then [attempts[0].now] + TimesOf(attempts[1..], id)
    else TimesOf(attempts[1..], id)
  }

  function OutcomesOf(attempts: seq<Attempt>, outcomes: seq<bool>, id: Digest): seq<bool>
    requires |attempts| == |outcomes|
  {
    if attempts == [] then []
    else if attempts[0].id == id then [outcomes[0]] + OutcomesOf(attempts[1..], outcomes[1..], id)
    else OutcomesOf(attempts[1..], outcomes[1..], id)
  }

  /** How many attempts were granted at times in [from, to]. */
  function Granted(times: seq<real>, outcomes: seq<bool>, from: real, to: real): nat
    requires |times| == |outcomes|
  {
    if times == [] then 0
    else (if outcomes[0] && from <= times[0] <= to then 1 else 0) + Granted(times[1..], outcomes[1..], from, to)
  }

  predicate NonDecreasing(times: seq<real>)
  {
    forall i, j :: 0 <= i < j < |times| ==> times[i] <= times[j]
  }

  /** By how much the clock of attempts in order of effect jumps back, all told. */
  function Rewound(times: seq<real>): (r: real)
    ensures r >= 0.0
  {
    if times == [] then 0.0 else RewoundFrom(times[0], times[1..])
  }

  function RewoundFrom(last: real, times: seq<real>): (r: real)
    ensures r >= 0.0
    decreases |times|
  {
    if times == [] then 0.0
    else Elapsed(last, times[0]) + RewoundFrom(times[0], times[1..])
  }
}
