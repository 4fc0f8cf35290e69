/** Exactly which attempts the limiter grants. */
module RateExact {
  import opened Wrappers
  import opened Bytes
  import opened Rate
  import opened RateProofs

  /** The seconds by which the clock moved forward over successive readings. */
  function Gone(times: seq<real>): real
  {
    if |times| < 2 then 0.0
    else (if times[1] > times[0] then times[1] - times[0] else 0.0) + Gone(times[1..])
  }

  function Grants(outcomes: seq<bool>): nat
  {
    if outcomes == [] then 0 else (if outcomes[0] then 1 else 0) + Grants(outcomes[1..])
  }

  /** Counted from attempt `j` on, one more grant at attempt `k` stays within a
      minute's worth and what flows in at `limit` per 60 seconds. */
  ghost predicate Room(limit: nat, times: seq<real>, outcomes: seq<bool>, j: nat, k: nat)
    requires j <= k < |times| == |outcomes|
  {
    Grants(outcomes[j..k]) as real + 1.0 <= limit as real + Gone(times[j..k + 1]) * (limit as real / 60.0)
  }

  ghost predicate RoomFrom(limit: nat, times: seq<real>, outcomes: seq<bool>, first: nat, k: nat)
    requires k < |times| == |outcomes|
  {
    forall j: nat :: first <= j <= k ==> Room(limit, times, outcomes, j, k)
  }

  /** The same count from a bucket that was last filled at some time. */
  ghost predicate BucketRoom(limit: nat, b: Bucket, times: seq<real>, outcomes: seq<bool>, k: nat)
    requires k < |times| == |outcomes|
  {
    Grants(outcomes[..k]) as real + 1.0 <= b.tokens + Flow(limit, Gone([b.lastRefill] + times[..k + 1]))
  }

  lemma {:induction false} GoneCons(s: real, times: seq<real>)
    requires times != []
    ensures Gone([s] + times) == Elapsed(times[0], s) + Gone(times)
  {
    assert ([s] + times)[1..] == times;
  }

  lemma {:induction false} GrantsCons(g: bool, outcomes: seq<bool>)
    ensures Grants([g] + outcomes) == (if g then 1 else 0) + Grants(outcomes)
  {
    assert ([g] + outcomes)[1..] == outcomes;
  }

  lemma RoomIs(limit: nat, times: seq<real>, outcomes: seq<bool>, j: nat, k: nat)
    requires j <= k < |times| == |outcomes|
    ensures Room(limit, times, outcomes, j, k)
       <==> Grants(outcomes[j..k]) as real + 1.0 <= limit as real + Flow(limit, Gone(times[j..k + 1]))
  {
  }

  /** Leaving out the first attempt changes no count that starts later. */
  lemma {:induction false} RoomTail(limit: nat, times: seq<real>, outcomes: seq<bool>, k: nat)
    requires 0 < k < |times| == |outcomes|
    ensures RoomFrom(limit, times[1..], outcomes[1..], 0, k - 1) <==> RoomFrom(limit, times, outcomes, 1, k)
  {
    forall j: nat | 1 <= j <= k
      ensures Room(limit, times, outcomes, j, k) <==> Room(limit, times[1..], outcomes[1..], j - 1, k - 1)
    {
      assert outcomes[1..][j - 1..k - 1] == outcomes[j..k];
      assert times[1..][j - 1..k] == times[j..k + 1];
    }
    if RoomFrom(limit, times, outcomes, 1, k) {
      var ts, os, m := times[1..], outcomes[1..], k - 1;
      forall j: nat | j <= m
        ensures Room(limit, ts, os, j, m)
      {
        assert Room(limit, times, outcomes, j + 1, k);
      }
    }
  }

  /** A token bucket: what is left, up to a full bucket, and what flowed in. */
  lemma {:induction false} NextRoom(limit: nat, b: Bucket, now: real, c: Bucket, g: bool, x: real, n: real)
    requires c == Taken(limit, Some(b), now) && g == Allowed(limit, Some(b), now)
    ensures n + 1.0 <= c.tokens + Flow(limit, x)
       <==> n + (if g then 1.0 else 0.0) + 1.0 <= b.tokens + Flow(limit, Elapsed(now, b.lastRefill) + x)
            && n + (if g then 1.0 else 0.0) + 1.0 <= limit as real + Flow(limit, x)
  {
    hide Flow, Elapsed;
    RefillIsFlow(limit, b, now);
    FlowAdds(limit, Elapsed(now, b.lastRefill), x);
  }

  lemma {:induction false} FromBucket(limit: nat, b: Bucket, times: seq<real>, k: nat)
    requires limit > 0 && k < |times|
    ensures var outcomes := Alone(limit, Some(b), times);
      outcomes[k] <==> BucketRoom(limit, b, times, outcomes, k) && RoomFrom(limit, times, outcomes, 0, k)
    decreases k
  {
    hide Allowed, Taken, Flow, Elapsed, Room;
    var now, rest := times[0], times[1..];
    var c, g := Taken(limit, Some(b), now), Allowed(limit, Some(b), now);
    var outcomes, later := Alone(limit, Some(b), times), Alone(limit, Some(c), rest);
    assert outcomes == [g] + later && outcomes[1..] == later;
    GoneCons(b.lastRefill, times[..k + 1]);
    if k == 0 {
      OnlyOne(limit, b, times, outcomes);
    } else {
      FromBucket(limit, c, rest, k - 1);
      RoomTail(limit, times, outcomes, k);
      assert outcomes[..k] == [g] + later[..k - 1];
      GrantsCons(g, later[..k - 1]);
      assert times[..k + 1] == [now] + rest[..k];
      NextRoom(limit, b, now, c, g, Gone([now] + rest[..k]), Grants(later[..k - 1]) as real);
      RoomIs(limit, times, outcomes, 0, k);
      assert outcomes[0..k] == outcomes[..k] && times[0..k + 1] == times[..k + 1];
      TakenNow(limit, b, now);
      FirstToo(limit, times, outcomes, k);
    }
  }

  lemma TakenNow(limit: nat, b: Bucket, now: real)
    ensures Taken(limit, Some(b), now).lastRefill == now
  {
  }

  lemma FirstToo(limit: nat, times: seq<real>, outcomes: seq<bool>, k: nat)
    requires k < |times| == |outcomes|
    ensures RoomFrom(limit, times, outcomes, 0, k)
       <==> Room(limit, times, outcomes, 0, k) && RoomFrom(limit, times, outcomes, 1, k)
  {
    hide Room;
    assert RoomFrom(limit, times, outcomes, 0, k) ==> Room(limit, times, outcomes, 0, k);
  }

  lemma {:induction false} OnlyOne(limit: nat, b: Bucket, times: seq<real>, outcomes: seq<bool>)
    requires limit > 0 && times != [] && outcomes == Alone(limit, Some(b), times)
    ensures outcomes[0] <==> BucketRoom(limit, b, times, outcomes, 0)
    ensures RoomFrom(limit, times, outcomes, 0, 0)
  {
    hide Flow;
    RefillIsFlow(limit, b, times[0]);
    assert times[..1] == [times[0]] == times[0..1];
    assert ([b.lastRefill] + times[..1])[1..] == [times[0]];
    assert Gone([b.lastRefill] + times[..1]) == Elapsed(times[0], b.lastRefill);
    assert outcomes[..0] == [] && outcomes[0..0] == [];
    assert Room(limit, times, outcomes, 0, 0);
  }

  lemma {:induction false} AloneExactly(limit: nat, times: seq<real>, k: nat)
    requires limit > 0 && k < |times|
    ensures var outcomes := Alone(limit, None, times);
      outcomes[k] <==> RoomFrom(limit, times, outcomes, 0, k)
  {
    hide Flow, Room, RoomFrom;
    var b := Bucket(limit as real, times[0]);
    var outcomes := Alone(limit, None, times);
    assert outcomes == Alone(limit, Some(b), times);
    FromBucket(limit, b, times, k);
    GoneCons(times[0], times[..k + 1]);
    assert times[0..k + 1] == times[..k + 1] && outcomes[0..k] == outcomes[..k];
    RoomIs(limit, times, outcomes, 0, k);
    FirstToo(limit, times, outcomes, k);
  }

  lemma RoomMeans(limit: nat, times: seq<real>, outcomes: seq<bool>, k: nat)
    requires k < |times| == |outcomes|
    ensures RoomFrom(limit, times, outcomes, 0, k)
       <==> forall j: nat :: j <= k ==>
              Grants(outcomes[j..k]) as real + 1.0 <= limit as real + Gone(times[j..k + 1]) * (limit as real / 60.0)
  {
    hide Gone, Grants;
    forall j: nat | j <= k
      ensures Room(limit, times, outcomes, j, k)
         <==> Grants(outcomes[j..k]) as real + 1.0 <= limit as real + Gone(times[j..k + 1]) * (limit as real / 60.0)
    {
    }
  }

  /** An attempt is granted if and only if there is room for it, from whichever
      earlier attempt of the same identity one counts; whatever others attempt
      and in whatever order attempts take effect. */
  lemma {:induction false} GrantedExactly(limit: nat, attempts: seq<Attempt>, id: Digest, k: nat)
    requires limit > 0 && k < |TimesOf(attempts, id)|
    ensures var times := TimesOf(attempts, id);
      var outcomes := OutcomesOf(attempts, Outcomes(limit, map[], attempts), id);
      |outcomes| == |times|
      && (outcomes[k] <==>
            forall j: nat :: j <= k ==>
              Grants(outcomes[j..k]) as real + 1.0 <= limit as real + Gone(times[j..k + 1]) * (limit as real / 60.0))
  {
    hide Outcomes, OutcomesOf, Alone, TimesOf, Gone, Grants;
    Independent(limit, map[], attempts, id);
    AloneExactly(limit, TimesOf(attempts, id), k);
    RoomMeans(limit, TimesOf(attempts, id), Alone(limit, None, TimesOf(attempts, id)), k);
  }
}
