/** Token-bucket rate limiting, in memory and in Redis (src/kvgate/ratelimit/limiter.py). */
module TokenBucket {
  import opened Basics

  datatype Bucket = Bucket(tokens: real, last: real)

  datatype Decision = Decision(allowed: bool, remaining: real, retryAfter: real, limitRpm: int)

  function Min(x: real, y: real): real {
    if x <= y then x else y
  }

  /** What a bucket gains from `last` to `now`. */
  function Gain(rate: real, last: real, now: real): real {
    (now - last) * rate
  }

  /** Tokens at `now`, before the check takes one. */
  function Level(capacity: real, rate: real, b: Option<Bucket>, now: real): real {
    match b
    case None => Min(capacity, capacity + Gain(rate, now, now))
    case Some(Bucket(tokens, last)) => Min(capacity, tokens + Gain(rate, last, now))
  }

  function AfterCheck(capacity: real, rate: real, b: Option<Bucket>, now: real): Bucket {
    var level := Level(capacity, rate, b, now);
    Bucket(if level >= 1.0 then level - 1.0 else level, now)
  }

  function RetryAfter(rate: real, tokens: real): real {
    if rate > 0.0 then (1.0 - tokens) / rate else 60.0
  }

  // ----- the limiters -----

  datatype Settings = Settings(enabled: bool, defaultRpm: int, burst: int) {
    /** `rpm or default_rpm` */
    function Rpm(rpm: Option<int>): int {
      if rpm.Some? && rpm.value != 0 then rpm.value else defaultRpm
    }

    /** `burst or rpm` */
    function Capacity(rpm: Option<int>): real {
      if burst != 0 then burst as real else Rpm(rpm) as real
    }

    /** Tokens per second. */
    function Rate(rpm: Option<int>): real {
      Rpm(rpm) as real / 60.0
    }
  }

  /** What a check answers, given the level it finds and the tokens it leaves. */
  ghost predicate Answers(s: Settings, rpm: Option<int>, level: real, left: real, d: Decision) {
    && (d.allowed <==> level >= 1.0)
    && d.remaining == left && d.limitRpm == s.Rpm(rpm)
    && d.retryAfter == (if d.allowed then 0.0 else RetryAfter(s.Rate(rpm), level))
  }

  class MemoryRateLimiter {
    const settings: Settings
    var buckets: map<string, Bucket>

    constructor (settings: Settings)
      ensures this.settings == settings && buckets == map[]
    {
      this.settings := settings;
      buckets := map[];
    }

    function BucketOf(identity: string): Option<Bucket>
      reads this
    {
      if identity in buckets then Some(buckets[identity]) else None
    }

    /** `check` */
    method Check(identity: string, rpm: Option<int>, now: real) returns (d: Decision)
      modifies this
      ensures !settings.enabled ==> d.allowed && buckets == old(buckets)
      ensures settings.enabled ==>
        var capacity, rate, b := settings.Capacity(rpm), settings.Rate(rpm), old(BucketOf(identity));
        && buckets == old(buckets)[identity := AfterCheck(capacity, rate, b, now)]
        && Answers(settings, rpm, Level(capacity, rate, b, now), buckets[identity].tokens, d)
    {
      if !settings.enabled {
        return Decision(true, 0.0, 0.0, 0);
      }
      var limit := settings.Rpm(rpm);
      var capacity := settings.Capacity(rpm);
      var refill := limit as real / 60.0;
      var tokens, last := capacity, now;
      if identity in buckets {
        tokens, last := buckets[identity].tokens, buckets[identity].last;
      }
      tokens := Min(capacity, tokens + Gain(refill, last, now));
      if tokens >= 1.0 {
        tokens := tokens - 1.0;
        buckets := buckets[identity := Bucket(tokens, now)];
        return Decision(true, tokens, 0.0, limit);
      }
      buckets := buckets[identity := Bucket(tokens, now)];
      var deficit := 1.0 - tokens;
      var retryAfter := if refill > 0.0 then deficit / refill else 60.0;
      return Decision(false, tokens, retryAfter, limit);
    }
  }

  const IDLE_EXPIRY := 120.0

  /** The Redis keys of the Lua script: HMSET writes the bucket, EXPIRE gives it 120
      seconds, after which the next script run finds nothing. */
  class RedisRateLimiter {
    const settings: Settings
    var keys: map<string, Bucket>

    constructor (settings: Settings)
      ensures this.settings == settings && keys == map[]
    {
      this.settings := settings;
      keys := map[];
    }

    function BucketOf(identity: string, now: real): Option<Bucket>
      reads this
    {
      Unexpired(if identity in keys then Some(keys[identity]) else None, now)
    }

    /** The Lua script. */
    method Script(identity: string, capacity: real, refill: real, now: real) returns (allowed: bool, tokens: real)
      modifies this
      ensures var level := Level(capacity, refill, old(BucketOf(identity, now)), now);
        && keys == old(keys)[identity := AfterCheck(capacity, refill, old(BucketOf(identity, now)), now)]
        && (allowed <==> level >= 1.0) && tokens == keys[identity].tokens
    {
      var bucket := BucketOf(identity, now);
      var ts;
      if bucket.None? {
        tokens, ts := capacity, now;
      } else {
        tokens, ts := bucket.value.tokens, bucket.value.last;
      }
      tokens := Min(capacity, tokens + Gain(refill, ts, now));
      allowed := false;
      if tokens >= 1.0 {
        tokens, allowed := tokens - 1.0, true;
      }
      keys := keys[identity := Bucket(tokens, now)];
    }

    /** `check`, which runs the script. */
    method Check(identity: string, rpm: Option<int>, now: real) returns (d: Decision)
      modifies this
      ensures !settings.enabled ==> d.allowed && keys == old(keys)
      ensures settings.enabled ==>
        var capacity, rate, b := settings.Capacity(rpm), settings.Rate(rpm), old(BucketOf(identity, now));
        && keys == old(keys)[identity := AfterCheck(capacity, rate, b, now)]
        && Answers(settings, rpm, Level(capacity, rate, b, now), keys[identity].tokens, d)
    {
      if !settings.enabled {
        return Decision(true, 0.0, 0.0, 0);
      }
      var limit := settings.Rpm(rpm);
      var refill := limit as real / 60.0;
      var allowed, tokens := Script(identity, settings.Capacity(rpm), refill, now);
      if allowed {
        return Decision(true, tokens, 0.0, limit);
      }
      return Decision(false, tokens, if refill > 0.0 then (1.0 - tokens) / refill else 60.0, limit);
    }
  }

  /** Every script run sets the expiry, so a bucket lives 120 s beyond its last check. */
  function Unexpired(b: Option<Bucket>, now: real): Option<Bucket> {
    if b.Some? && now > b.value.last + IDLE_EXPIRY then None else b
  }

  // ----- traces: the times of the checks of one identity -----

  function After(capacity: real, rate: real, ts: seq<real>): Option<Bucket> {
    if ts == [] then None
    else Some(AfterCheck(capacity, rate, After(capacity, rate, ts[..|ts| - 1]), ts[|ts| - 1]))
  }

  /** The level check `k` finds. */
  function LevelAt(capacity: real, rate: real, ts: seq<real>, k: nat): real
    requires k < |ts|
  {
    Level(capacity, rate, After(capacity, rate, ts[..k]), ts[k])
  }

  predicate Admitted(capacity: real, rate: real, ts: seq<real>, k: nat)
    requires k < |ts|
  {
    LevelAt(capacity, rate, ts, k) >= 1.0
  }

  /** Admissions among checks `j` to `k`, `k` excluded. */
  function Admissions(capacity: real, rate: real, ts: seq<real>, j: nat, k: nat): nat
    requires j <= k <= |ts|
  {
    if j == k then 0
    else Admissions(capacity, rate, ts, j, k - 1) + if Admitted(capacity, rate, ts, k - 1) then 1 else 0
  }

  ghost predicate NonDecreasing(ts: seq<real>) {
    forall i, j :: 0 <= i < j < |ts| ==> ts[i] <= ts[j]
  }

  /** What is left of the budget of the window from check `j` to check `k`. */
  function Slack(capacity: real, rate: real, ts: seq<real>, j: nat, k: nat): real
    requires j <= k < |ts|
  {
    capacity + Gain(rate, ts[j], ts[k]) - Admissions(capacity, rate, ts, j, k) as real
  }

  lemma NextLevel(capacity: real, rate: real, ts: seq<real>, k: nat)
    requires k + 1 < |ts|
    ensures LevelAt(capacity, rate, ts, k + 1) ==
      Min(capacity, LevelAt(capacity, rate, ts, k) - (if Admitted(capacity, rate, ts, k) then 1.0 else 0.0)
                    + Gain(rate, ts[k], ts[k + 1]))
  {
    hide Gain;
    assert ts[..k + 1][..k] == ts[..k];
  }

  lemma NextSlack(capacity: real, rate: real, ts: seq<real>, j: nat, k: nat)
    requires j <= k && k + 1 < |ts|
    ensures Slack(capacity, rate, ts, j, k + 1) ==
      Slack(capacity, rate, ts, j, k) - (if Admitted(capacity, rate, ts, k) then 1.0 else 0.0) +
        Gain(rate, ts[k], ts[k + 1])
  {
    hide Gain;
    Split(rate, ts[j], ts[k], ts[k + 1]);
  }

  lemma Split(rate: real, a: real, b: real, c: real)
    ensures Gain(rate, a, c) == Gain(rate, a, b) + Gain(rate, b, c)
    ensures Gain(rate, a, a) == 0.0
    ensures rate >= 0.0 && b <= c ==> Gain(rate, b, c) >= 0.0
  {
    assert (c - a) * rate == (b - a) * rate + (c - b) * rate;
    assert (a - a) * rate == 0.0;
    if rate >= 0.0 && b <= c {
      assert (c - b) * rate >= 0.0;
    }
  }

  /** The level is the least slack of any window that ends at this check. */
  lemma {:induction false} LevelFormula(capacity: real, rate: real, ts: seq<real>, k: nat)
    requires k < |ts|
    ensures forall j :: 0 <= j <= k ==> LevelAt(capacity, rate, ts, k) <= Slack(capacity, rate, ts, j, k)
    ensures exists j :: 0 <= j <= k && LevelAt(capacity, rate, ts, k) == Slack(capacity, rate, ts, j, k)
  {
    hide Gain;
    Split(rate, ts[k], ts[k], ts[k]);
    if k == 0 {
      assert ts[..0] == [];
      assert LevelAt(capacity, rate, ts, 0) == Slack(capacity, rate, ts, 0, 0);
    } else {
      LevelFormula(capacity, rate, ts, k - 1);
      NextLevel(capacity, rate, ts, k - 1);
      assert Slack(capacity, rate, ts, k, k) == capacity;
      forall j | 0 <= j < k
        ensures LevelAt(capacity, rate, ts, k) <= Slack(capacity, rate, ts, j, k)
      {
        NextSlack(capacity, rate, ts, j, k - 1);
      }
      var i :| 0 <= i <= k - 1 && LevelAt(capacity, rate, ts, k - 1) == Slack(capacity, rate, ts, i, k - 1);
      NextSlack(capacity, rate, ts, i, k - 1);
    }
  }

  /** A check is denied exactly when admitting it would break the bound of some window. */
  lemma DeniedIffWindowFull(capacity: real, rate: real, ts: seq<real>, k: nat)
    requires k < |ts|
    ensures !Admitted(capacity, rate, ts, k) <==>
      exists j :: 0 <= j <= k && WindowFull(capacity, rate, ts, j, k)
  {
    hide Gain;
    LevelFormula(capacity, rate, ts, k);
    if !Admitted(capacity, rate, ts, k) {
      var j :| 0 <= j <= k && LevelAt(capacity, rate, ts, k) == Slack(capacity, rate, ts, j, k);
      assert WindowFull(capacity, rate, ts, j, k);
    }
    if j :| 0 <= j <= k && WindowFull(capacity, rate, ts, j, k) {
      assert Slack(capacity, rate, ts, j, k) < 1.0;
    }
  }

  /** One more admission at check `k` would exceed capacity + rate·elapsed since check `j`. */
  ghost predicate WindowFull(capacity: real, rate: real, ts: seq<real>, j: nat, k: nat)
    requires j <= k < |ts|
  {
    Admissions(capacity, rate, ts, j, k) as real + 1.0 > capacity + Gain(rate, ts[j], ts[k])
  }

  /** Any window from check `j` to check `k` inclusive admits at most capacity + rate·(t − u). */
  lemma {:induction false} WindowBound(capacity: real, rate: real, ts: seq<real>, j: nat, k: nat)
    requires j <= k < |ts| && capacity >= 0.0 && rate >= 0.0 && NonDecreasing(ts)
    ensures Admissions(capacity, rate, ts, j, k + 1) as real <= capacity + Gain(rate, ts[j], ts[k])
  {
    hide Gain;
    LevelFormula(capacity, rate, ts, k);
    Split(rate, ts[j], ts[j], ts[k]);
    if !Admitted(capacity, rate, ts, k) {
      if j < k {
        WindowBound(capacity, rate, ts, j, k - 1);
        Split(rate, ts[j], ts[k - 1], ts[k]);
        assert ts[k - 1] <= ts[k];
      }
    } else {
      assert Slack(capacity, rate, ts, j, k) >= 1.0;
    }
  }

  // ----- denied checks are invisible -----

  /** The trace without its denied checks. */
  function Kept(capacity: real, rate: real, ts: seq<real>): seq<real> {
    if ts == [] then []
    else
      Kept(capacity, rate, ts[..|ts| - 1])
        + if Admitted(capacity, rate, ts, |ts| - 1) then [ts[|ts| - 1]] else []
  }

  lemma DenialRefills(capacity: real, rate: real, b: Option<Bucket>, now: real, later: real)
    requires rate >= 0.0 && now <= later && Level(capacity, rate, b, now) < 1.0
    ensures Level(capacity, rate, Some(AfterCheck(capacity, rate, b, now)), later) == Level(capacity, rate, b, later)
  {
    hide Gain;
    Split(rate, now, now, later);
    Split(rate, later, later, later);
    if b.Some? {
      Split(rate, b.value.last, now, later);
    }
  }

  /** Erasing every denied check changes no level a later check finds. */
  lemma {:induction false} DeniedAreInvisible(capacity: real, rate: real, ts: seq<real>, now: real)
    requires rate >= 0.0 && NonDecreasing(ts) && forall t :: t in ts ==> t <= now
    ensures Level(capacity, rate, After(capacity, rate, ts), now)
         == Level(capacity, rate, After(capacity, rate, Kept(capacity, rate, ts)), now)
  {
    hide Gain;
    if ts == [] {
    } else {
      var front, last := ts[..|ts| - 1], ts[|ts| - 1];
      assert NonDecreasing(front) && last in ts && forall t :: t in front ==> t in ts;
      DeniedAreInvisible(capacity, rate, front, last);
      DeniedAreInvisible(capacity, rate, front, now);
      var kept := Kept(capacity, rate, front);
      if Admitted(capacity, rate, ts, |ts| - 1) {
        assert (kept + [last])[..|kept|] == kept;
      } else {
        assert kept + [] == kept;
        DenialRefills(capacity, rate, After(capacity, rate, front), last, now);
      }
    }
  }

  /** And every check that was admitted still is. */
  lemma {:induction false} KeptAreAdmitted(capacity: real, rate: real, ts: seq<real>, k: nat)
    requires rate >= 0.0 && NonDecreasing(ts)
    requires k < |Kept(capacity, rate, ts)|
    ensures Admitted(capacity, rate, Kept(capacity, rate, ts), k)
  {
    var front, last := ts[..|ts| - 1], ts[|ts| - 1];
    var kept, all := Kept(capacity, rate, front), Kept(capacity, rate, ts);
    if k < |kept| {
      KeptAreAdmitted(capacity, rate, front, k);
      assert all[..k] == kept[..k];
    } else {
      assert all[..k] == kept;
      DeniedAreInvisible(capacity, rate, front, last);
    }
  }

  // ----- retry-after is exact -----

  lemma LevelReachesOne(capacity: real, rate: real, tokens: real, at: real, now: real)
    requires capacity >= 1.0 && rate > 0.0 && tokens < 1.0 && at <= now
    ensures Level(capacity, rate, Some(Bucket(tokens, at)), now) >= 1.0 <==> now >= at + RetryAfter(rate, tokens)
  {
    var wait := RetryAfter(rate, tokens);
    assert wait * rate == 1.0 - tokens;
    assert (now - at - wait) * rate == (now - at) * rate - wait * rate;
    if now >= at + wait {
      assert (now - at - wait) * rate >= 0.0;
    } else {
      assert (now - at - wait) * rate < 0.0;
    }
  }

  /** A tail of denied checks leaves the kept trace unchanged. */
  lemma {:induction false} DeniedTail(capacity: real, rate: real, ts: seq<real>, more: seq<real>)
    requires forall i :: |ts| <= i < |ts + more| ==> !Admitted(capacity, rate, ts + more, i)
    ensures Kept(capacity, rate, ts + more) == Kept(capacity, rate, ts)
  {
    if more == [] {
      assert ts + more == ts;
    } else {
      var front := more[..|more| - 1];
      assert (ts + more)[..|ts + more| - 1] == ts + front;
      forall i | |ts| <= i < |ts + front| ensures !Admitted(capacity, rate, ts + front, i) {
        assert (ts + front)[..i] == (ts + more)[..i] && (ts + front)[i] == (ts + more)[i];
        assert !Admitted(capacity, rate, ts + more, i);
      }
      DeniedTail(capacity, rate, ts, front);
      assert Kept(capacity, rate, ts + front) + [] == Kept(capacity, rate, ts + front);
    }
  }

  lemma PartsOrdered(ts: seq<real>, more: seq<real>, now: real)
    requires NonDecreasing(ts + more + [now])
    ensures NonDecreasing(ts + more) && NonDecreasing(ts)
    ensures (forall t :: t in ts + more ==> t <= now) && (forall t :: t in ts ==> t <= now)
  {
    var all := ts + more + [now];
    assert forall i :: 0 <= i < |ts + more| ==> all[i] == (ts + more)[i];
    assert forall i :: 0 <= i < |ts| ==> all[i] == ts[i];
    assert all[|ts + more|] == now;
  }

  /** After a denial, and only denials since, a check is admitted exactly from
      denial time + retry_after on; so the Retry-After header, int(r) + 1, suffices. */
  lemma RetryAfterIsExact(capacity: real, rate: real, ts: seq<real>, more: seq<real>, now: real)
    requires capacity >= 1.0 && rate > 0.0 && ts != [] && NonDecreasing(ts + more + [now])
    requires forall i :: |ts| - 1 <= i < |ts + more| ==> !Admitted(capacity, rate, ts + more, i)
    ensures var k := |ts| - 1;
      var retry := RetryAfter(rate, LevelAt(capacity, rate, ts, k));
      && (Admitted(capacity, rate, ts + more + [now], |ts + more|) <==> now >= ts[k] + retry)
      && (now >= ts[k] + retry.Floor as real + 1.0 ==> Admitted(capacity, rate, ts + more + [now], |ts + more|))
  {
    hide RetryAfter, Gain, NonDecreasing, Kept;
    var k, all := |ts| - 1, ts + more + [now];
    assert all[..|ts + more|] == ts + more;
    assert (ts + more)[..k] == ts[..k];
    PartsOrdered(ts, more, now);
    DeniedAreInvisible(capacity, rate, ts + more, now);
    DeniedAreInvisible(capacity, rate, ts, now);
    DeniedTail(capacity, rate, ts, more);
    assert !Admitted(capacity, rate, ts + more, k);
    assert ts[k] in ts;
    LevelReachesOne(capacity, rate, LevelAt(capacity, rate, ts, k), ts[k], now);
  }

  /** Without a refill rate the header does not help: a denied identity stays denied. */
  lemma {:induction false} NoRefillNoRetry(capacity: real, ts: seq<real>, k: nat, i: nat)
    requires k <= i < |ts| && !Admitted(capacity, 0.0, ts, k)
    ensures !Admitted(capacity, 0.0, ts, i)
    decreases i
  {
    if i == k {
    } else {
      NoRefillNoRetry(capacity, ts, k, i - 1);
      assert ts[..i][..i - 1] == ts[..i - 1];
      assert Gain(0.0, ts[i - 1], ts[i]) == 0.0;
    }
  }

  /** So after a denial some later check is admitted if and only if the bucket refills
      and holds at least one token. */
  lemma RetryHelpsIffRefilled(capacity: real, rate: real, ts: seq<real>)
    requires rate >= 0.0 && ts != [] && NonDecreasing(ts)
    requires !Admitted(capacity, rate, ts, |ts| - 1)
    ensures (exists now :: now >= ts[|ts| - 1] && Admitted(capacity, rate, ts + [now], |ts|)) <==>
      rate > 0.0 && capacity >= 1.0
  {
    var k := |ts| - 1;
    if capacity < 1.0 {
      assert forall now :: LevelAt(capacity, rate, ts + [now], |ts|) <= capacity;
    } else if rate > 0.0 {
      var retry := RetryAfter(rate, LevelAt(capacity, rate, ts, k));
      var now := Later(ts[k], ts[k] + retry);
      assert ts + [] == ts;
      RetryAfterIsExact(capacity, rate, ts, [], now);
      assert Admitted(capacity, rate, ts + [now], |ts|);
    } else {
      forall now ensures !Admitted(capacity, rate, ts + [now], |ts|) {
        assert (ts + [now])[..k] == ts[..k];
        NoRefillNoRetry(capacity, ts + [now], k, |ts|);
      }
    }
  }

  function Later(s: real, t: real): real {
    if s <= t then t else s
  }

  /** A limiter whose default is 0 requests a minute with a burst of 1 gets there on its
      second check: it answers to retry after 60 s, which no wait makes true. */
  lemma NoRefillRun(settings: Settings, s: real, t: real)
    requires settings.defaultRpm == 0 && settings.burst == 1
    ensures settings.Capacity(None) == 1.0 && settings.Rate(None) == 0.0
    ensures Admitted(1.0, 0.0, [s, t], 0) && !Admitted(1.0, 0.0, [s, t], 1)
    ensures RetryAfter(settings.Rate(None), LevelAt(1.0, 0.0, [s, t], 1)) == 60.0
  {
    assert [s, t][..1] == [s] && [s][..0] == [] && [s, t][..0] == [];
    assert Gain(0.0, s, s) == 0.0 && Gain(0.0, s, t) == 0.0;
  }

  // ----- Redis and memory -----

  function RedisAfter(capacity: real, rate: real, ts: seq<real>): Option<Bucket> {
    if ts == [] then None
    else
      var now := ts[|ts| - 1];
      Some(AfterCheck(capacity, rate, Unexpired(RedisAfter(capacity, rate, ts[..|ts| - 1]), now), now))
  }

  function RedisLevelAt(capacity: real, rate: real, ts: seq<real>, k: nat): real
    requires k < |ts|
  {
    Level(capacity, rate, Unexpired(RedisAfter(capacity, rate, ts[..k]), ts[k]), ts[k])
  }

  lemma {:induction false} TokensFromBelow(capacity: real, rate: real, ts: seq<real>)
    requires rate >= 0.0 && NonDecreasing(ts)
    ensures var b := After(capacity, rate, ts);
            b.Some? ==> b.value.tokens >= Min(0.0, capacity) && b.value.last == ts[|ts| - 1]
  {
    if ts == [] {
    } else {
      hide Gain;
      var front, now := ts[..|ts| - 1], ts[|ts| - 1];
      TokensFromBelow(capacity, rate, front);
      Split(rate, now, now, now);
      if front != [] {
        Split(rate, now, front[|front| - 1], now);
        assert front[|front| - 1] <= now;
      }
    }
  }

  lemma IdleRefill(rpm: nat, rate: real, last: real)
    requires rate == rpm as real / 60.0
    ensures Gain(rate, last, last + IDLE_EXPIRY) == 2.0 * rpm as real
  {
    var elapsed := last + IDLE_EXPIRY - last;
    assert elapsed == 120.0 && elapsed * rate == 120.0 * rate;
  }

  /** 120 idle seconds refill 2·rpm tokens: an expired bucket would have been full. */
  lemma ExpiryIsFull(capacity: real, rpm: nat, rate: real, b: Option<Bucket>, now: real)
    requires rate == rpm as real / 60.0 && capacity <= 2.0 * rpm as real
    requires b.Some? ==> b.value.tokens >= Min(0.0, capacity)
    ensures Level(capacity, rate, Unexpired(b, now), now) == Level(capacity, rate, b, now)
  {
    hide Gain;
    Split(rate, now, now, now);
    if b.Some? && now > b.value.last + IDLE_EXPIRY {
      IdleRefill(rpm, rate, b.value.last);
      Split(rate, b.value.last, b.value.last + IDLE_EXPIRY, now);
    }
  }

  /** With capacity ≤ 2·rpm the two back ends find the same level at every check. */
  lemma {:induction false} RedisAgreesWithMemory(capacity: real, rpm: nat, rate: real, ts: seq<real>)
    requires rate == rpm as real / 60.0 && capacity <= 2.0 * rpm as real && NonDecreasing(ts)
    ensures RedisAfter(capacity, rate, ts) == After(capacity, rate, ts)
    ensures forall k :: 0 <= k < |ts| ==> RedisLevelAt(capacity, rate, ts, k) == LevelAt(capacity, rate, ts, k)
  {
    if ts == [] {
    } else {
      var n := |ts| - 1;
      var front, now := ts[..n], ts[n];
      RedisAgreesWithMemory(capacity, rpm, rate, front);
      TokensFromBelow(capacity, rate, front);
      ExpiryIsFull(capacity, rpm, rate, After(capacity, rate, front), now);
      forall k | 0 <= k < |ts| ensures RedisLevelAt(capacity, rate, ts, k) == LevelAt(capacity, rate, ts, k) {
        if k < n {
          assert front[..k] == ts[..k];
          assert RedisLevelAt(capacity, rate, front, k) == LevelAt(capacity, rate, front, k);
        }
      }
    }
  }

  // ----- and with a larger capacity they do not -----

  function Copies(n: nat, t: real): seq<real> {
    seq(n, i => t)
  }

  /** Just after the expiry, late enough to refill at most half a token more. */
  function JustLater(rpm: nat): real {
    if rpm == 0 then 121.0 else 120.0 + 30.0 / rpm as real
  }

  lemma RefillUntilLater(rpm: nat)
    ensures JustLater(rpm) > 120.0
    ensures 2.0 * rpm as real <= Gain(rpm as real / 60.0, 0.0, JustLater(rpm)) <= 2.0 * rpm as real + 0.5
  {
    if rpm > 0 {
      var r := rpm as real;
      var x := 30.0 / r;
      assert x * r == 30.0 && x > 0.0;
      assert (120.0 + x) * (r / 60.0) == 2.0 * r + x * r / 60.0;
    }
  }

  lemma {:induction false} Drain(capacity: nat, rate: real, i: nat)
    requires 1 <= i <= capacity
    ensures After(capacity as real, rate, Copies(i, 0.0)) == Some(Bucket((capacity - i) as real, 0.0))
    ensures RedisAfter(capacity as real, rate, Copies(i, 0.0)) == Some(Bucket((capacity - i) as real, 0.0))
  {
    assert (0.0 - 0.0) * rate == 0.0;
    assert Copies(i, 0.0)[..i - 1] == Copies(i - 1, 0.0);
    if i == 1 {
    } else {
      Drain(capacity, rate, i - 1);
    }
  }

  /** `capacity` checks at time 0, then `j` once the Redis bucket has just expired. */
  function Burst(capacity: nat, rpm: nat, j: nat): seq<real> {
    Copies(capacity, 0.0) + Copies(j, JustLater(rpm))
  }

  lemma BurstOneMore(capacity: nat, rpm: nat, j: nat)
    ensures Burst(capacity, rpm, j + 1) == Burst(capacity, rpm, j) + [JustLater(rpm)]
    ensures Burst(capacity, rpm, j + 1)[..|Burst(capacity, rpm, j + 1)| - 1] == Burst(capacity, rpm, j)
  {
  }

  lemma {:induction false} BurstLevels(capacity: nat, rpm: nat, rate: real, later: real, j: nat)
    requires capacity > 2 * rpm && j <= 2 * rpm && rate == rpm as real / 60.0 && later == JustLater(rpm)
    ensures Level(capacity as real, rate, After(capacity as real, rate, Burst(capacity, rpm, j)), later) ==
      Gain(rate, 0.0, later) - j as real
    ensures var b := Unexpired(RedisAfter(capacity as real, rate, Burst(capacity, rpm, j)), later);
            Level(capacity as real, rate, b, later) == (capacity - j) as real
  {
    RefillUntilLater(rpm);
    Split(rate, later, later, later);
    if j == 0 {
      hide Gain, JustLater;
      assert Burst(capacity, rpm, 0) == Copies(capacity, 0.0);
      Drain(capacity, rate, capacity);
    } else {
      hide Gain, JustLater, Burst, Copies, Level;
      BurstLevels(capacity, rpm, rate, later, j - 1);
      BurstOneMore(capacity, rpm, j - 1);
      var burst := Burst(capacity, rpm, j - 1);
      TakesOne(capacity as real, rate, After(capacity as real, rate, burst), later);
      TakesOne(capacity as real, rate, Unexpired(RedisAfter(capacity as real, rate, burst), later), later);
    }
  }

  /** An admitted check leaves one token less for the next check at the same time. */
  lemma TakesOne(capacity: real, rate: real, b: Option<Bucket>, now: real)
    requires 1.0 <= Level(capacity, rate, b, now)
    ensures Level(capacity, rate, Some(AfterCheck(capacity, rate, b, now)), now) == Level(capacity, rate, b, now) - 1.0
  {
    hide Gain;
    Split(rate, now, now, now);
  }

  lemma BurstOrdered(capacity: nat, rpm: nat, j: nat)
    ensures NonDecreasing(Burst(capacity, rpm, j))
  {
    RefillUntilLater(rpm);
  }

  /** Whatever the settings with capacity > 2·rpm, some run is decided differently:
      the condition above is exact. */
  lemma RedisDiffersBeyond(capacity: nat, rpm: nat) returns (ts: seq<real>)
    requires capacity > 2 * rpm
    ensures ts != [] && NonDecreasing(ts)
    ensures var rate, k := rpm as real / 60.0, |ts| - 1;
      !Admitted(capacity as real, rate, ts, k) && RedisLevelAt(capacity as real, rate, ts, k) >= 1.0
  {
    ts := Burst(capacity, rpm, 2 * rpm + 1);
    BurstOrdered(capacity, rpm, 2 * rpm + 1);
    BurstDecides(capacity, rpm, rpm as real / 60.0, JustLater(rpm), ts);
  }

  lemma BurstDecides(capacity: nat, rpm: nat, rate: real, later: real, ts: seq<real>)
    requires capacity > 2 * rpm && rate == rpm as real / 60.0 && later == JustLater(rpm)
    requires ts == Burst(capacity, rpm, 2 * rpm + 1)
    ensures ts != [] && !Admitted(capacity as real, rate, ts, |ts| - 1) &&
      RedisLevelAt(capacity as real, rate, ts, |ts| - 1) >= 1.0
  {
    hide Gain, JustLater, Burst, After, RedisAfter, Level, Unexpired, LevelAt, RedisLevelAt;
    RefillUntilLater(rpm);
    BurstOneMore(capacity, rpm, 2 * rpm);
    BurstLevels(capacity, rpm, rate, later, 2 * rpm);
    LastDecision(capacity as real, rate, Burst(capacity, rpm, 2 * rpm), later);
  }

  lemma LastDecision(capacity: real, rate: real, front: seq<real>, now: real)
    ensures LevelAt(capacity, rate, front + [now], |front|) == Level(capacity, rate, After(capacity, rate, front), now)
    ensures RedisLevelAt(capacity, rate, front + [now], |front|)
         == Level(capacity, rate, Unexpired(RedisAfter(capacity, rate, front), now), now)
  {
    assert (front + [now])[..|front|] == front;
  }
}
