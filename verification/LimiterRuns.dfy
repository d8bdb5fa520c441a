/** What the limits of the settings mean for whole runs of checks of one identity, on
    both limiters (src/kvgate/ratelimit/limiter.py). */
module LimiterRuns {
  import opened Basics
  import opened TokenBucket

  /** Admissions from check `j` on, before check `k`. */
  function Count(allowed: seq<bool>, j: nat, k: nat): nat
    requires j <= k <= |allowed|
  {
    if j == k then 0 else Count(allowed, j, k - 1) + if allowed[k - 1] then 1 else 0
  }

  /** `r` requests a minute with bursts of `b`: a zero or absent key limit means the
      default, and no burst means one minute's worth. */
  ghost predicate Limits(s: Settings, rpm: Option<int>, r: nat, b: nat) {
    && r == (if rpm == None || rpm == Some(0) then s.defaultRpm else rpm.value)
    && b == (if s.burst == 0 then r else s.burst)
  }

  /** What `r` a minute come to in some seconds. */
  function Allowance(r: nat, seconds: real): real {
    r as real * seconds / 60.0
  }

  /** One more admission at check `k` makes more than `b` + `r` a minute since check `j`. */
  ghost predicate TooMany(r: nat, b: nat, times: seq<real>, allowed: seq<bool>, j: nat, k: nat)
    requires j <= k < |times| == |allowed|
  {
    Count(allowed, j, k) as real + 1.0 > b as real + Allowance(r, times[k] - times[j])
  }

  /** Exactly the checks are denied that would make too many in some window. */
  ghost predicate Enforces(r: nat, b: nat, times: seq<real>, allowed: seq<bool>) {
    && |times| == |allowed|
    && forall k :: 0 <= k < |times| ==>
         (!allowed[k] <==> exists j :: 0 <= j <= k && TooMany(r, b, times, allowed, j, k))
  }

  // ----- the limiters enforce the limits -----

  method CheckEach(limiter: MemoryRateLimiter, identity: string, rpm: Option<int>, times: seq<real>, r: nat, b: nat)
    returns (allowed: seq<bool>)
    requires limiter.settings.enabled && identity !in limiter.buckets && Limits(limiter.settings, rpm, r, b)
    modifies limiter
    ensures Enforces(r, b, times, allowed)
  {
    ghost var capacity, rate := b as real, r as real / 60.0;
    allowed := [];
    assert times[..0] == [];
    for k := 0 to |times|
      invariant |allowed| == k && limiter.BucketOf(identity) == After(capacity, rate, times[..k])
      invariant forall i :: 0 <= i < k ==> allowed[i] == Admitted(capacity, rate, times, i)
    {
      var d := limiter.Check(identity, rpm, times[k]);
      assert times[..k + 1][..k] == times[..k];
      allowed := allowed + [d.allowed];
    }
    BucketEnforces(r, b, rate, times, allowed);
  }

  method CheckEachOnRedis(limiter: RedisRateLimiter, identity: string, rpm: Option<int>, times: seq<real>, r: nat,
                          b: nat)
    returns (allowed: seq<bool>)
    requires limiter.settings.enabled && identity !in limiter.keys && Limits(limiter.settings, rpm, r, b)
    requires NonDecreasing(times) && b <= 2 * r
    modifies limiter
    ensures Enforces(r, b, times, allowed)
  {
    ghost var capacity, rate := b as real, r as real / 60.0;
    RedisAgreesWithMemory(capacity, r, rate, times);
    allowed := [];
    assert times[..0] == [];
    for k := 0 to |times|
      invariant |allowed| == k
      invariant (if identity in limiter.keys then Some(limiter.keys[identity]) else None)
             == RedisAfter(capacity, rate, times[..k])
      invariant forall i :: 0 <= i < k ==> allowed[i] == Admitted(capacity, rate, times, i)
    {
      var d := limiter.Check(identity, rpm, times[k]);
      assert times[..k + 1][..k] == times[..k];
      assert RedisLevelAt(capacity, rate, times, k) == LevelAt(capacity, rate, times, k);
      allowed := allowed + [d.allowed];
    }
    BucketEnforces(r, b, rate, times, allowed);
  }

  lemma BucketEnforces(r: nat, b: nat, rate: real, times: seq<real>, allowed: seq<bool>)
    requires |times| == |allowed| && rate == r as real / 60.0
    requires forall i :: 0 <= i < |times| ==> allowed[i] == Admitted(b as real, rate, times, i)
    ensures Enforces(r, b, times, allowed)
  {
    forall k | 0 <= k < |times|
      ensures !allowed[k] <==> exists j :: 0 <= j <= k && TooMany(r, b, times, allowed, j, k)
    {
      hide WindowFull, TooMany;
      DeniedIffWindowFull(b as real, rate, times, k);
      forall j | 0 <= j <= k
        ensures WindowFull(b as real, rate, times, j, k) <==> TooMany(r, b, times, allowed, j, k)
      {
        SameWindow(r, b, rate, times, allowed, j, k);
      }
      if !allowed[k] {
        var j :| 0 <= j <= k && WindowFull(b as real, rate, times, j, k);
        assert TooMany(r, b, times, allowed, j, k);
      }
      if j :| 0 <= j <= k && TooMany(r, b, times, allowed, j, k) {
        assert WindowFull(b as real, rate, times, j, k);
      }
    }
  }

  lemma SameWindow(r: nat, b: nat, rate: real, times: seq<real>, allowed: seq<bool>, j: nat, k: nat)
    requires j <= k < |times| == |allowed| && rate == r as real / 60.0
    requires forall i :: 0 <= i < |times| ==> allowed[i] == Admitted(b as real, rate, times, i)
    ensures WindowFull(b as real, rate, times, j, k) <==> TooMany(r, b, times, allowed, j, k)
  {
    hide Gain, Allowance;
    CountIsAdmissions(b as real, rate, times, allowed, j, k);
    GainIsAllowance(r, rate, times[j], times[k]);
  }

  lemma GainIsAllowance(r: nat, rate: real, s: real, t: real)
    requires rate == r as real / 60.0
    ensures Gain(rate, s, t) == Allowance(r, t - s)
  {
    assert (t - s) * (r as real / 60.0) == r as real * (t - s) / 60.0;
  }

  lemma {:induction false} CountIsAdmissions(capacity: real, rate: real, times: seq<real>, allowed: seq<bool>,
                                            j: nat, k: nat)
    requires j <= k <= |times| == |allowed|
    requires forall i :: 0 <= i < |times| ==> allowed[i] == Admitted(capacity, rate, times, i)
    ensures Count(allowed, j, k) == Admissions(capacity, rate, times, j, k)
    decreases k
  {
    if j == k {
    } else {
      CountIsAdmissions(capacity, rate, times, allowed, j, k - 1);
    }
  }

  // ----- what that means -----

  /** Any window of s seconds admits at most b + r·s/60 checks. */
  lemma {:induction false} WindowsAreLimited(r: nat, b: nat, times: seq<real>, allowed: seq<bool>, j: nat, k: nat)
    requires Enforces(r, b, times, allowed) && NonDecreasing(times) && j <= k < |times| == |allowed|
    ensures Count(allowed, j, k + 1) as real <= b as real + Allowance(r, times[k] - times[j])
    decreases k
  {
    hide Allowance, Enforces;
    MoreTime(r, 0.0, times[k] - times[j]);
    if allowed[k] {
      AdmittedFits(r, b, times, allowed, j, k);
    } else if j == k {
      assert Count(allowed, j, j) == 0;
    } else {
      WindowsAreLimited(r, b, times, allowed, j, k - 1);
      assert times[k - 1] <= times[k];
      MoreTime(r, times[k - 1] - times[j], times[k] - times[j]);
    }
  }

  lemma AdmittedFits(r: nat, b: nat, times: seq<real>, allowed: seq<bool>, j: nat, k: nat)
    requires Enforces(r, b, times, allowed) && j <= k < |times| == |allowed| && allowed[k]
    ensures Count(allowed, j, k) as real + 1.0 <= b as real + Allowance(r, times[k] - times[j])
  {
    assert !TooMany(r, b, times, allowed, j, k);
  }

  lemma MoreTime(r: nat, s: real, t: real)
    requires s <= t
    ensures Allowance(r, s) <= Allowance(r, t)
    ensures Allowance(r, 0.0) == 0.0
  {
    var x := r as real;
    assert x * (t - s) >= 0.0;
    assert x * t == x * s + x * (t - s);
    assert x * 0.0 == 0.0;
  }

  /** A burst of `b` checks at one time is admitted and drains the bucket; the next check
      is admitted exactly from 60/r seconds later on. */
  lemma DrainedFor60OverR(r: nat, b: nat, times: seq<real>, allowed: seq<bool>, start: real)
    requires Enforces(r, b, times, allowed) && NonDecreasing(times) && r > 0 && b > 0
    requires |times| == b + 1 && forall i :: 0 <= i < b ==> times[i] == start
    ensures forall i :: 0 <= i < b ==> allowed[i]
    ensures allowed[b] <==> times[b] >= start + 60.0 / r as real
  {
    hide Allowance;
    var elapsed := times[b] - start;
    assert times[0] <= times[b];
    MoreTime(r, 0.0, elapsed);
    forall i | 0 <= i < b ensures allowed[i] {
      forall j | 0 <= j <= i ensures !TooMany(r, b, times, allowed, j, i) {
        CountAtMost(allowed, j, i);
      }
    }
    CountAll(allowed, 0, b);
    OneToken(r, elapsed);
    assert TooMany(r, b, times, allowed, 0, b) <==> Allowance(r, elapsed) < 1.0;
    forall j | 0 < j <= b && TooMany(r, b, times, allowed, j, b) ensures TooMany(r, b, times, allowed, 0, b) {
      assert start == times[0] <= times[j] <= times[b];
      CountAtMost(allowed, j, b);
      MoreTime(r, 0.0, times[b] - times[j]);
    }
  }

  lemma OneToken(r: nat, elapsed: real)
    requires r > 0
    ensures Allowance(r, elapsed) < 1.0 <==> elapsed < 60.0 / r as real
  {
    var x := r as real;
    var wait := 60.0 / x;
    assert wait * x == 60.0;
    assert (elapsed - wait) * x == x * elapsed - 60.0;
    if elapsed < wait {
      assert (wait - elapsed) * x > 0.0;
      assert (wait - elapsed) * x == 60.0 - x * elapsed;
    } else {
      assert (elapsed - wait) * x >= 0.0;
    }
  }

  lemma {:induction false} CountAtMost(allowed: seq<bool>, j: nat, k: nat)
    requires j <= k <= |allowed|
    ensures Count(allowed, j, k) <= k - j
    decreases k
  {
    if j == k {
    } else {
      CountAtMost(allowed, j, k - 1);
    }
  }

  lemma {:induction false} CountAll(allowed: seq<bool>, j: nat, k: nat)
    requires j <= k <= |allowed| && forall i :: j <= i < k ==> allowed[i]
    ensures Count(allowed, j, k) == k - j
    decreases k
  {
    if j == k {
    } else {
      CountAll(allowed, j, k - 1);
    }
  }
}
