/** The bound of the token bucket, over every run. */
module RateProofs {
  import opened Wrappers
  import opened Bytes
  import opened Rate

  /** The attempts of others change nothing for an identity. */
  lemma {:induction false} Independent(limit: nat, buckets: map<Digest, Bucket>, attempts: seq<Attempt>, id: Digest)
    ensures OutcomesOf(attempts, Outcomes(limit, buckets, attempts), id)
         == Alone(limit, BucketOf(buckets, id), TimesOf(attempts, id))
    decreases |attempts|
  {
    hide Allowed, Taken;
    if attempts != [] {
      var a, rest := attempts[0], attempts[1..];
      var b := BucketOf(buckets, a.id);
      var next := if limit == 0 then buckets else buckets[a.id := Taken(limit, b, a.now)];
      Independent(limit, next, rest, id);
      assert Outcomes(limit, buckets, attempts)[1..] == Outcomes(limit, next, rest);
      if a.id == id {
        assert TimesOf(attempts, id)[1..] == TimesOf(rest, id);
      }
    }
  }

  /** What flows into a bucket in `d` seconds. */
  function Flow(limit: nat, d: real): real { d * PerSecond(limit) }

  lemma {:induction false} FlowAdds(limit: nat, a: real, b: real)
    ensures Flow(limit, a) + Flow(limit, b) == Flow(limit, a + b)
  {
    var r := PerSecond(limit);
    assert a * r + b * r == (a + b) * r;
  }

  lemma FlowPositive(limit: nat, d: real)
    requires d >= 0.0
    ensures Flow(limit, d) >= 0.0
  {
  }

  /** One attempt on a bucket: a granted one takes a whole token from what was
      there and what flowed in since; a clock that went back lets nothing in. */
  lemma {:induction false} OneAttempt(limit: nat, b: Bucket, now: real)
    requires 0.0 <= b.tokens
    ensures var c := Taken(limit, Some(b), now);
      var g := if Allowed(limit, Some(b), now) then 1.0 else 0.0;
      0.0 <= c.tokens && c.lastRefill == now
      && g + c.tokens <= b.tokens + Flow(limit, Elapsed(now, b.lastRefill))
      && g + c.tokens <= limit as real
  {
    hide Flow;
    FlowPositive(limit, Elapsed(now, b.lastRefill));
    RefillIsFlow(limit, b, now);
  }

  lemma {:induction false} RefillIsFlow(limit: nat, b: Bucket, now: real)
    ensures Refilled(limit, Some(b), now).tokens
         == (var r := b.tokens + Flow(limit, Elapsed(now, b.lastRefill)); if r <= limit as real then r else limit as real)
  {
  }

  /** From a bucket on, in whatever order attempts take effect, no more is granted
      up to `to` than its tokens and what flows in until then, every second the
      clock went back counted once more. */
  lemma {:induction false} FlowBounds(limit: nat, b: Bucket, times: seq<real>, from: real, to: real)
    requires limit > 0 && 0.0 <= b.tokens
    ensures var n := Granted(times, Alone(limit, Some(b), times), from, to);
      n == 0 || (to - b.lastRefill + RewoundFrom(b.lastRefill, times) >= 0.0
                 && n as real <= b.tokens + Flow(limit, to - b.lastRefill + RewoundFrom(b.lastRefill, times)))
    decreases |times|
  {
    hide Allowed, Taken, PerSecond, Flow;
    if times != [] {
      var now, rest := times[0], times[1..];
      var c := Taken(limit, Some(b), now);
      OneAttempt(limit, b, now);
      assert Alone(limit, Some(b), times)[1..] == Alone(limit, Some(c), rest);
      FlowBounds(limit, c, rest, from, to);
      var more := to - now + RewoundFrom(now, rest);
      FlowAdds(limit, Elapsed(now, b.lastRefill), more);
      FlowAdds(limit, Elapsed(now, b.lastRefill), to - now);
      FlowMonotone(limit, Elapsed(now, b.lastRefill), to - b.lastRefill + RewoundFrom(b.lastRefill, times));
    }
  }

  lemma {:induction false} FlowMonotone(limit: nat, a: real, b: real)
    ensures a <= b ==> Flow(limit, a) <= Flow(limit, b)
  {
    if a <= b { FlowPositive(limit, b - a); FlowAdds(limit, a, b - a); }
  }

  ghost predicate Sound(limit: nat, b: Option<Bucket>)
  {
    b.Some? ==> 0.0 <= b.value.tokens <= limit as real
  }

  lemma {:induction false} FirstAttempt(limit: nat, b: Option<Bucket>, now: real)
    requires limit > 0 && Sound(limit, b)
    ensures var c := Taken(limit, b, now);
      var g := if Allowed(limit, b, now) then 1.0 else 0.0;
      0.0 <= c.tokens && c.lastRefill == now && g + c.tokens <= limit as real
  {
    if b.Some? {
      OneAttempt(limit, b.value, now);
    }
  }

  lemma {:induction false} WindowBounds(limit: nat, b: Option<Bucket>, times: seq<real>, from: real, to: real)
    requires limit > 0 && from <= to && Sound(limit, b)
    ensures Granted(times, Alone(limit, b, times), from, to) as real
         <= limit as real + Flow(limit, to - from + Rewound(times))
    decreases |times|
  {
    hide Allowed, Taken, PerSecond, Flow;
    FlowPositive(limit, to - from + Rewound(times));
    if times != [] {
      var now, rest := times[0], times[1..];
      var c := Taken(limit, b, now);
      FirstAttempt(limit, b, now);
      assert Alone(limit, b, times)[1..] == Alone(limit, Some(c), rest);
      if from <= now <= to {
        FlowBounds(limit, c, rest, from, to);
        FlowMonotone(limit, to - now + RewoundFrom(now, rest), to - from + Rewound(times));
      } else {
        WindowBounds(limit, Some(c), rest, from, to);
        RewoundTail(now, rest);
        FlowMonotone(limit, to - from + Rewound(rest), to - from + Rewound(times));
      }
    }
  }

  lemma RewoundTail(last: real, times: seq<real>)
    ensures Rewound(times) <= RewoundFrom(last, times)
  {
  }

  /** The token-bucket bound, over every run and whatever else others attempt: an
      identity is granted at most a minute's worth plus what flows in during the
      interval, where every second by which its clock readings took effect out
      of order counts once more. */
  lemma {:induction false} GrantsBounded(limit: nat, attempts: seq<Attempt>, id: Digest, from: real, to: real)
    requires limit > 0 && from <= to
    ensures var times := TimesOf(attempts, id);
      var outcomes := OutcomesOf(attempts, Outcomes(limit, map[], attempts), id);
      |outcomes| == |times|
      && Granted(times, outcomes, from, to) as real
         <= limit as real + (to - from + Rewound(times)) * (limit as real / 60.0)
  {
    hide Outcomes, OutcomesOf, Alone, Granted, TimesOf, Rewound;
    Independent(limit, map[], attempts, id);
    WindowBounds(limit, None, TimesOf(attempts, id), from, to);
  }

  /** Attempts in order of time rewind nothing, and no others do so. */
  lemma {:induction false} InOrderRewindsNothing(times: seq<real>)
    ensures Rewound(times) == 0.0 <==> NonDecreasing(times)
    decreases |times|
  {
    if times != [] {
      var rest := times[1..];
      InOrderRewindsNothing(rest);
      if rest != [] {
        if NonDecreasing(times) {
          assert times[0] <= times[1];
          forall i, j | 0 <= i < j < |rest|
            ensures rest[i] <= rest[j]
          {
            assert times[i + 1] <= times[j + 1];
          }
        }
        if NonDecreasing(rest) && times[0] <= rest[0] {
          forall i, j | 0 <= i < j < |times|
            ensures times[i] <= times[j]
          {
            assert i == 0 || rest[i - 1] <= rest[j - 1];
            assert rest[0] <= rest[j - 1];
          }
        }
      }
    }
  }

  ghost predicate Spaced(limit: nat, times: seq<real>)
    requires limit > 0
  {
    forall i :: 0 <= i < |times| - 1 ==> times[i + 1] - times[i] >= 60.0 / limit as real
  }

  lemma {:induction false} FlowsOne(limit: nat, gap: real)
    requires limit > 0 && gap >= 60.0 / limit as real
    ensures Flow(limit, gap) >= 1.0
  {
    var l := limit as real;
    var g := 60.0 / l;
    assert g * l == 60.0;
    assert (gap - g) * l >= 0.0;
    assert gap * l >= 60.0;
    assert gap * (l / 60.0) == gap * l / 60.0;
  }

  lemma {:induction false} EnoughFlowed(limit: nat, b: Option<Bucket>, now: real)
    requires limit > 0
    requires b.Some? ==> b.value.tokens >= 0.0 && now - b.value.lastRefill >= 60.0 / limit as real
    ensures Allowed(limit, b, now)
    ensures Taken(limit, b, now).tokens >= 0.0 && Taken(limit, b, now).lastRefill == now
  {
    if b.Some? {
      hide PerSecond, Flow;
      assert 60.0 / limit as real >= 0.0;
      FlowsOne(limit, now - b.value.lastRefill);
      RefillIsFlow(limit, b.value, now);
    }
  }

  lemma {:induction false} SpacedAllowed(limit: nat, b: Option<Bucket>, times: seq<real>)
    requires limit > 0 && Spaced(limit, times)
    requires b.Some? ==> b.value.tokens >= 0.0 && (times != [] ==> times[0] - b.value.lastRefill >= 60.0 / limit as real)
    ensures forall i :: 0 <= i < |times| ==> Alone(limit, b, times)[i]
    decreases |times|
  {
    hide Allowed, Taken;
    if times != [] {
      var now, rest := times[0], times[1..];
      EnoughFlowed(limit, b, now);
      if |times| > 1 { assert times[0 + 1] - times[0] >= 60.0 / limit as real; }
      forall i | 0 <= i < |rest| - 1
        ensures rest[i + 1] - rest[i] >= 60.0 / limit as real
      {
        assert times[(i + 1) + 1] - times[i + 1] >= 60.0 / limit as real;
      }
      SpacedAllowed(limit, Some(Taken(limit, b, now)), rest);
    }
  }

  /** Attempts at least 60/limit seconds apart are never refused, whatever others
      do. */
  lemma {:induction false} SpacedNeverRefused(limit: nat, attempts: seq<Attempt>, id: Digest)
    requires limit > 0 && Spaced(limit, TimesOf(attempts, id))
    ensures var outcomes := OutcomesOf(attempts, Outcomes(limit, map[], attempts), id);
      forall i :: 0 <= i < |outcomes| ==> outcomes[i]
  {
    hide Outcomes, OutcomesOf, Alone, TimesOf, Spaced;
    Independent(limit, map[], attempts, id);
    SpacedAllowed(limit, None, TimesOf(attempts, id));
  }

  // ------------------------------------------------------------------
  // Attempts that take effect out of order
  // ------------------------------------------------------------------

  /** The bound that holds for attempts in order of time. */
  ghost predicate KeepsBound(limit: nat, times: seq<real>, from: real, to: real)
  {
    Granted(times, Alone(limit, None, times), from, to) as real <= limit as real + Flow(limit, to - from)
  }

  function Repeated(n: nat, x: real): (r: seq<real>)
    ensures |r| == n
  {
    if n == 0 then [] else [x] + Repeated(n - 1, x)
  }

  lemma {:induction false} AloneStep(limit: nat, b: Option<Bucket>, now: real, rest: seq<real>, from: real, to: real)
    requires limit > 0
    ensures Granted([now] + rest, Alone(limit, b, [now] + rest), from, to)
         == (if Allowed(limit, b, now) && from <= now <= to then 1 else 0)
            + Granted(rest, Alone(limit, Some(Taken(limit, b, now)), rest), from, to)
  {
    hide Allowed, Taken;
    assert ([now] + rest)[1..] == rest;
    var outcomes := Alone(limit, b, [now] + rest);
    assert outcomes[1..] == Alone(limit, Some(Taken(limit, b, now)), rest);
  }

  lemma {:induction false} NowOnce(limit: nat, tokens: nat, now: real)
    requires limit >= tokens > 0
    ensures Allowed(limit, Some(Bucket(tokens as real, now)), now)
    ensures Taken(limit, Some(Bucket(tokens as real, now)), now) == Bucket((tokens - 1) as real, now)
  {
  }

  /** A bucket is drained by as many attempts at one moment as it has tokens. */
  lemma {:induction false} Drained(limit: nat, tokens: nat, now: real, rest: seq<real>, from: real, to: real)
    requires limit >= tokens && limit > 0 && from <= now <= to
    ensures Granted(Repeated(tokens, now) + rest, Alone(limit, Some(Bucket(tokens as real, now)), Repeated(tokens, now) + rest), from, to)
         == tokens + Granted(rest, Alone(limit, Some(Bucket(0.0, now)), rest), from, to)
    decreases tokens
  {
    hide Allowed, Taken, Alone, Granted;
    if tokens == 0 {
      assert Repeated(0, now) + rest == rest;
    } else {
      var t := Repeated(tokens - 1, now) + rest;
      assert Repeated(tokens, now) + rest == [now] + t;
      NowOnce(limit, tokens, now);
      AloneStep(limit, Some(Bucket(tokens as real, now)), now, t, from, to);
      Drained(limit, tokens - 1, now, rest, from, to);
    }
  }

  lemma {:induction false} FirstOfFull(limit: nat, now: real)
    requires limit > 0
    ensures Allowed(limit, None, now) && Taken(limit, None, now) == Bucket((limit - 1) as real, now)
  {
  }

  lemma {:induction false} RewoundByRepeat(n: nat, now: real, rest: seq<real>)
    ensures RewoundFrom(now, Repeated(n, now) + rest) == RewoundFrom(now, rest)
    decreases n
  {
    if n == 0 {
      assert Repeated(0, now) + rest == rest;
    } else {
      var t := Repeated(n - 1, now) + rest;
      assert Repeated(n, now) + rest == [now] + t;
      assert ([now] + t)[1..] == t;
      RewoundByRepeat(n - 1, now, rest);
    }
  }

  /** The attempt that takes effect `d` seconds late finds the bucket empty, and
      makes the seconds since count again for the next one. */
  lemma {:induction false} LateAttempt(limit: nat, d: real, last: real, from: real, to: real)
    requires limit > 0 && d > 0.0 && last >= 60.0 / limit as real && last >= d && 0.0 < from <= last <= to
    ensures Granted([0.0, last], Alone(limit, Some(Bucket(0.0, d)), [0.0, last]), from, to) == 1
  {
    hide Allowed, Taken, Alone, Granted;
    var b := Some(Bucket(0.0, d));
    EmptyThen(limit, d);
    var c := Some(Bucket(0.0, 0.0));
    EnoughFlowed(limit, c, last);
    AloneStep(limit, b, 0.0, [last], from, to);
    AloneStep(limit, c, last, [], from, to);
    assert [0.0] + [last] == [0.0, last] && [last] + [] == [last];
    NothingGranted(limit, Some(Taken(limit, c, last)), from, to);
  }

  lemma EmptyThen(limit: nat, d: real)
    requires d > 0.0
    ensures var b := Some(Bucket(0.0, d)); !Allowed(limit, b, 0.0) && Taken(limit, b, 0.0) == Bucket(0.0, 0.0)
  {
  }

  lemma NothingGranted(limit: nat, b: Option<Bucket>, from: real, to: real)
    ensures Granted([], Alone(limit, b, []), from, to) == 0
  {
  }

  /** No disorder is small enough: for every limit and every time span some run
      whose clock goes back by just that span is granted more than the bound.
      It drains the bucket, makes one attempt that takes effect late, and one
      more as soon as a token could have flowed in. */
  lemma {:induction false} OutOfOrderOvergrants(limit: nat, d: real) returns (times: seq<real>, from: real, to: real)
    requires limit > 0 && d > 0.0
    ensures from <= to && Rewound(times) == d && !KeepsBound(limit, times, from, to)
  {
    hide Allowed, Taken, Alone, Granted, PerSecond, Flow;
    var gap := 60.0 / limit as real;
    assert gap > 0.0;
    from, to := d, if d >= gap then d else gap;
    var rest := [0.0, to];
    var t := Repeated(limit - 1, d) + rest;
    times := [d] + t;
    assert times[1..] == t;
    RewoundByRepeat(limit - 1, d, rest);
    assert rest[1..] == [to] && [to][1..] == [];
    assert RewoundFrom(0.0, [to]) == 0.0;
    FirstOfFull(limit, d);
    AloneStep(limit, None, d, t, from, to);
    Drained(limit, limit - 1, d, rest, from, to);
    LateAttempt(limit, d, to, from, to);
    LessThanOneFlows(limit, to - from);
  }

  lemma {:induction false} LessThanOneFlows(limit: nat, span: real)
    requires limit > 0 && span < 60.0 / limit as real
    ensures Flow(limit, span) < 1.0
  {
    var l := limit as real;
    var g := 60.0 / l;
    assert g * l == 60.0;
    assert (g - span) * l > 0.0;
    assert span * (l / 60.0) == span * l / 60.0;
  }

  /** So a tolerance for disorder keeps the bound if and only if it is none. */
  lemma {:induction false} BoundNeedsOrder(limit: nat, d: real)
    requires limit > 0 && d >= 0.0
    ensures (forall times, from, to :: Rewound(times) <= d && from <= to ==> KeepsBound(limit, times, from, to)) <==> d == 0.0
  {
    hide Rewound, Alone, Granted;
    if d == 0.0 {
      forall times, from, to | Rewound(times) <= d && from <= to
        ensures KeepsBound(limit, times, from, to)
      {
        WindowBounds(limit, None, times, from, to);
      }
    } else {
      var times, from, to := OutOfOrderOvergrants(limit, d);
    }
  }

  /** A limit of 0 turns the limiter off. */
  lemma {:induction false} ZeroAllowsAll(buckets: map<Digest, Bucket>, attempts: seq<Attempt>)
    ensures forall i :: 0 <= i < |attempts| ==> Outcomes(0, buckets, attempts)[i]
    decreases |attempts|
  {
    if attempts != [] { ZeroAllowsAll(buckets, attempts[1..]); }
  }
}
