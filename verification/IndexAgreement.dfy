/** The memory and the Redis index, fed the same run on one clock, hold the same
    fresh entries up to the choice among entries of equal age at the cap. */
module IndexAgreement {
  import opened Basics
  import opened Affinity
  import opened AffinityHistory
  import opened RedisAffinity

  /** When each hash was last registered. */
  function LastTimes(run: seq<Registration>): Fields {
    if run == [] then map[]
    else LastTimes(run[..|run| - 1]) + FromKeys(run[|run| - 1].chain, run[|run| - 1].now)
  }

  /** `states` are the replica's key before the run and after each registration. */
  ghost predicate RedisRun(ttl: real, cap: nat, run: seq<Registration>, states: seq<Key>) {
    && |states| == |run| + 1
    && states[0] == NO_KEY
    && forall i :: 0 <= i < |run| ==> MayRegister(ttl, cap, states[i], run[i].chain, run[i].now, states[i + 1])
  }

  /** `f` keeps part of `last`; what it dropped is stale at `now`, or is no younger
      than any of the `cap` entries it kept. */
  ghost predicate Covers(ttl: real, cap: nat, f: Fields, last: Fields, now: real) {
    && |f| <= cap
    && (forall h :: h in f ==> h in last && f[h] == last[h])
    && forall h :: h in last && h !in f ==> !Fresh(ttl, last[h], now) || Outlived(cap, f, last[h])
  }

  ghost predicate Outlived(cap: nat, f: Fields, t: real) {
    |f| == cap && forall x :: x in f ==> t <= f[x]
  }

  /** The two sets of fresh entries are equal, or both are full and differ only in
      which entries of the common minimum age they kept. */
  ghost predicate Agree(cap: nat, a: Fields, b: Fields) {
    a == b || exists low: real :: FullAbove(cap, a, b, low)
  }

  ghost predicate FullAbove(cap: nat, a: Fields, b: Fields, low: real) {
    && |a| == |b| == cap
    && Above(a, low) == Above(b, low)
    && |AtTime(a, low)| == |AtTime(b, low)| > 0
    && Above(a, low).Keys + AtTime(a, low) == a.Keys
    && Above(b, low).Keys + AtTime(b, low) == b.Keys
  }

  function Above(f: Fields, low: real): Fields {
    map h | h in f && f[h] > low :: f[h]
  }

  function AtTime(f: Fields, t: real): set<Hash> {
    set h | h in f && f[h] == t
  }

  // ----- two covers of one history agree -----

  lemma SameKeys(a: Fields, all: Fields)
    requires a.Keys <= all.Keys && forall h :: h in a ==> a[h] == all[h]
    ensures a != all ==> exists h :: h in all && h !in a
  {
    if a.Keys == all.Keys {
      assert a == all;
    }
  }

  lemma FreshFull(ttl: real, cap: nat, f: Fields, last: Fields, t: real, now: real)
    requires Covers(ttl, cap, f, last, t) && t <= now
    requires FreshPart(ttl, f, now) != FreshPart(ttl, last, now)
    ensures FreshPart(ttl, f, now) == f && |f| == cap
    ensures forall h, x :: h in last && h !in f && x in f ==> Fresh(ttl, last[h], now) ==> last[h] <= f[x]
    ensures |FreshPart(ttl, last, now)| > cap
  {
    var a, all := FreshPart(ttl, f, now), FreshPart(ttl, last, now);
    assert a.Keys <= all.Keys;
    SameKeys(a, all);
    var h :| h in all && h !in a;
    assert Outlived(cap, f, last[h]);
    assert a == f;
    SubsetSize(a.Keys, all.Keys);
  }

  ghost function Lowest(f: Fields): (low: real)
    requires |f| > 0
    ensures (exists h :: h in f && f[h] == low) && forall h :: h in f ==> low <= f[h]
    decreases |f|
  {
    assert f.Keys != {};
    var h :| h in f;
    var rest := f - {h};
    assert forall x :: x in f ==> x == h || x in rest;
    if |rest| == 0 then
      assert rest.Keys == {};
      f[h]
    else
      assert rest.Keys == f.Keys - {h};
      var low := Lowest(rest);
      if low <= f[h] then low else f[h]
  }

  /** Someone in `a` that `b` lacks has a counterpart in `b` that `a` lacks. */
  lemma Counterpart(a: Fields, b: Fields, x: Hash) returns (y: Hash)
    requires |a| == |b| && x in a && x !in b
    ensures y in b && y !in a
  {
    if b.Keys <= a.Keys {
      SubsetSize(b.Keys, a.Keys);
      assert false;
    }
    y :| y in b.Keys && y !in a.Keys;
  }

  /** `a` and `b` are `cap`-sized choices from `all`, each leaving out nothing younger. */
  ghost predicate Youngest(a: Fields, all: Fields) {
    && (forall h :: h in a ==> h in all && a[h] == all[h])
    && forall h, x :: h in all && h !in a && x in a ==> all[h] <= a[x]
  }

  lemma LowestAgrees(a: Fields, b: Fields, all: Fields)
    requires |a| == |b| > 0 && Youngest(a, all) && Youngest(b, all)
    ensures Lowest(a) <= Lowest(b)
  {
    var x :| x in b && b[x] == Lowest(b);
    if x !in a {
      var y := Counterpart(b, a, x);
      assert Lowest(a) <= a[y] == all[y] <= b[x];
    }
  }

  lemma AboveAgrees(a: Fields, b: Fields, all: Fields, low: real)
    requires |a| == |b| > 0 && Youngest(a, all) && Youngest(b, all)
    requires exists x :: x in b && b[x] == low
    ensures forall h :: h in a && a[h] > low ==> h in b
  {
  }

  lemma LevelCount(f: Fields, low: real)
    requires forall h :: h in f ==> low <= f[h]
    ensures Above(f, low).Keys + AtTime(f, low) == f.Keys
    ensures |Above(f, low)| + |AtTime(f, low)| == |f|
  {
    assert Above(f, low).Keys !! AtTime(f, low);
  }

  lemma SameAbove(a: Fields, b: Fields, all: Fields, low: real)
    requires Youngest(a, all) && Youngest(b, all)
    requires forall h :: h in a && a[h] > low ==> h in b
    requires forall h :: h in b && b[h] > low ==> h in a
    ensures Above(a, low) == Above(b, low)
  {
    assert Above(a, low).Keys == Above(b, low).Keys;
  }

  lemma YoungestAgree(cap: nat, a: Fields, b: Fields, all: Fields)
    requires cap >= 1 && |a| == |b| == cap && Youngest(a, all) && Youngest(b, all)
    ensures Agree(cap, a, b)
  {
    var low := Lowest(a);
    LowestAgrees(a, b, all);
    LowestAgrees(b, a, all);
    AboveAgrees(a, b, all, low);
    AboveAgrees(b, a, all, low);
    LevelCount(a, low);
    LevelCount(b, low);
    SameAbove(a, b, all, low);
    var h :| h in a && a[h] == low;
    assert h in AtTime(a, low);
    assert FullAbove(cap, a, b, low);
  }

  lemma CoversAgree(ttl: real, cap: nat, f: Fields, g: Fields, last: Fields, t: real, now: real)
    requires cap >= 1 && Covers(ttl, cap, f, last, t) && Covers(ttl, cap, g, last, t) && t <= now
    ensures Agree(cap, FreshPart(ttl, f, now), FreshPart(ttl, g, now))
  {
    var a, b, all := FreshPart(ttl, f, now), FreshPart(ttl, g, now), FreshPart(ttl, last, now);
    if a != all {
      FreshFull(ttl, cap, f, last, t, now);
      if b == all {
        SubsetSize(b.Keys, g.Keys);
      } else {
        FreshFull(ttl, cap, g, last, t, now);
        YoungestAgree(cap, a, b, all);
      }
    } else if b != all {
      FreshFull(ttl, cap, g, last, t, now);
      SubsetSize(a.Keys, f.Keys);
    }
  }

  // ----- the Redis index covers the history -----

  /** The deadline cannot pass while any registered hash is fresh. */
  ghost predicate DeadlineIsLate(ttl: real, k: Key, last: Fields) {
    k.deadline.At? ==> ttl > 0.0 && forall h :: h in last ==> last[h] + ttl < k.deadline.t
  }

  lemma StaleStays(ttl: real, cap: nat, f: Fields, last: Fields, t: real, now: real)
    requires Covers(ttl, cap, f, last, t) && t <= now
    ensures Covers(ttl, cap, f, last, now)
  {
  }

  lemma ExpiryIsHarmless(ttl: real, cap: nat, k: Key, last: Fields, t: real, now: real)
    requires Covers(ttl, cap, k.fields, last, t) && DeadlineIsLate(ttl, k, last) && t <= now
    ensures Covers(ttl, cap, Visible(k, now).fields, last, now)
    ensures DeadlineIsLate(ttl, Visible(k, now), last)
  {
  }

  /** Between HSET and the trim the size may exceed the cap. */
  ghost predicate CoversUntrimmed(ttl: real, cap: nat, g: Fields, all: Fields, now: real) {
    && (forall h :: h in g ==> h in all && g[h] == all[h])
    && forall h :: h in all && h !in g && Fresh(ttl, all[h], now) ==> NoYounger(cap, g, all[h])
  }

  lemma WriteCovers(ttl: real, cap: nat, f: Fields, last: Fields, chain: seq<Hash>, now: real)
    requires Covers(ttl, cap, f, last, now) && forall x :: x in last ==> last[x] <= now
    ensures CoversUntrimmed(ttl, cap, f + FromKeys(chain, now), last + FromKeys(chain, now), now)
  {
    var g, all := f + FromKeys(chain, now), last + FromKeys(chain, now);
    SubsetSize(f.Keys, g.Keys);
    forall h | h in all && h !in g && Fresh(ttl, all[h], now) ensures NoYounger(cap, g, all[h]) {
      // HSET wrote the whole chain, so what is missing now was missing before.
      assert Outlived(cap, f, last[h]);
    }
  }

  lemma TrimCovers(ttl: real, cap: nat, g: Fields, all: Fields, now: real, left: Fields)
    requires CoversUntrimmed(ttl, cap, g, all, now) && MayLeave(ttl, cap, g, now, left)
    ensures Covers(ttl, cap, left, all, now)
  {
    forall h | h in all && h !in left && Fresh(ttl, all[h], now) ensures Outlived(cap, left, all[h]) {
      if h !in g && |g| > cap {
        // Everything the trim looks at is at least as young as h, hence live.
        assert FreshPart(ttl, g, now) == g;
      }
    }
  }

  lemma RegisterCovers(ttl: real, cap: nat, k: Key, last: Fields, t: real, chain: seq<Hash>, now: real, k': Key)
    requires Covers(ttl, cap, k.fields, last, t) && DeadlineIsLate(ttl, k, last) && t <= now
    requires forall h :: h in last ==> last[h] <= t
    requires MayRegister(ttl, cap, k, chain, now, k')
    ensures Covers(ttl, cap, k'.fields, last + FromKeys(chain, now), now)
    ensures DeadlineIsLate(ttl, k', last + FromKeys(chain, now))
  {
    if chain == [] {
      assert last + FromKeys(chain, now) == last;
      StaleStays(ttl, cap, k.fields, last, t, now);
    } else {
      var v := Visible(k, now);
      ExpiryIsHarmless(ttl, cap, k, last, t, now);
      WrittenCovers(ttl, cap, v.fields, last, chain, now, k'.fields);
      DeadlineMoves(ttl, v, last, chain, now, k');
    }
  }

  lemma WrittenCovers(ttl: real, cap: nat, f: Fields, last: Fields, chain: seq<Hash>, now: real, f': Fields)
    requires Covers(ttl, cap, f, last, now) && forall x :: x in last ==> last[x] <= now
    requires MayLeave(ttl, cap, f + FromKeys(chain, now), now, f')
    ensures Covers(ttl, cap, f', last + FromKeys(chain, now), now)
  {
    WriteCovers(ttl, cap, f, last, chain, now);
    TrimCovers(ttl, cap, f + FromKeys(chain, now), last + FromKeys(chain, now), now, f');
  }

  lemma DeadlineMoves(ttl: real, v: Key, last: Fields, chain: seq<Hash>, now: real, k': Key)
    requires DeadlineIsLate(ttl, v, last) && forall h :: h in last ==> last[h] <= now
    requires k'.deadline == NewDeadline(ttl, v, now)
    ensures DeadlineIsLate(ttl, k', last + FromKeys(chain, now))
  {
    if ttl > 0.0 {
      assert now + ttl < now + ttl.Floor as real + 1.0;
    }
  }

  lemma {:induction false} LastTimesBound(run: seq<Registration>)
    requires NonDecreasing(run)
    ensures forall h :: h in LastTimes(run) ==> run != [] && LastTimes(run)[h] <= run[|run| - 1].now
  {
    if run == [] {
    } else {
      var front := run[..|run| - 1];
      LastTimesBound(front);
      if front != [] {
        assert front[|front| - 1] == run[|run| - 2];
      }
    }
  }

  lemma {:induction false} RedisCovers(ttl: real, cap: nat, run: seq<Registration>, states: seq<Key>)
    requires NonDecreasing(run) && RedisRun(ttl, cap, run, states) && run != []
    ensures Covers(ttl, cap, states[|run|].fields, LastTimes(run), run[|run| - 1].now)
    ensures DeadlineIsLate(ttl, states[|run|], LastTimes(run))
  {
    var front, last := run[..|run| - 1], run[|run| - 1];
    assert MayRegister(ttl, cap, states[|front|], run[|front|].chain, run[|front|].now, states[|run|]);
    if front == [] {
      RegisterCovers(ttl, cap, NO_KEY, map[], last.now, last.chain, last.now, states[1]);
    } else {
      var before := states[..|states| - 1];
      assert RedisRun(ttl, cap, front, before) by {
        forall i | 0 <= i < |front|
          ensures MayRegister(ttl, cap, before[i], front[i].chain, front[i].now, before[i + 1])
        {
          assert front[i] == run[i];
        }
      }
      RedisCovers(ttl, cap, front, before);
      LastTimesBound(front);
      RegisterCovers(ttl, cap, states[|front|], LastTimes(front), front[|front| - 1].now, last.chain, last.now,
                     states[|run|]);
    }
  }

  // ----- the memory index covers the history -----

  /** An OrderedDict as a map. */
  function AsFields(d: OrderedDict): Fields {
    map h | h in Hashes(d) :: TimeOf(d, h)
  }

  function TimeOf(d: OrderedDict, h: Hash): real
    requires h in Hashes(d)
  {
    if d[0].hash == h then d[0].ts
    else assert d == [d[0]] + d[1..]; TimeOf(d[1..], h)
  }

  lemma {:induction false} TimeOfEntry(d: OrderedDict, e: Entry)
    requires Distinct(d) && e in d
    ensures e.hash in Hashes(d) && TimeOf(d, e.hash) == e.ts
  {
    if d[0] == e {
    } else {
      assert Distinct(d[1..]) && e in d[1..];
      TimeOfEntry(d[1..], e);
    }
  }

  lemma AsFieldsSize(d: OrderedDict)
    requires Distinct(d)
    ensures |AsFields(d)| == |d|
  {
    HashesCount(d);
    assert AsFields(d).Keys == Hashes(d);
  }

  lemma {:induction false} TouchAllTimes(d: OrderedDict, chain: seq<Hash>, now: real)
    requires Distinct(d)
    ensures Distinct(TouchAll(d, chain, now))
    ensures forall e :: e in TouchAll(d, chain, now) <==>
      (e.hash in chain && e.ts == now) || (e.hash !in chain && e in d)
    decreases |chain|
  {
    if chain == [] {
    } else {
      TouchDistinct(d, chain[0], now);
      MinusContents(d, {chain[0]});
      TouchAllTimes(Touch(d, chain[0], now), chain[1..], now);
      assert chain == [chain[0]] + chain[1..];
    }
  }

  lemma {:induction false} LastOccurrencesAreLastTimes(run: seq<Registration>)
    ensures forall e :: e in LastOccurrences(Flatten(run)) <==>
      e.hash in LastTimes(run) && LastTimes(run)[e.hash] == e.ts
  {
    if run == [] {
    } else {
      var front, last := run[..|run| - 1], run[|run| - 1];
      LastOccurrencesAreLastTimes(front);
      LastAllMore(Flatten(front), last.chain, last.now);
      LastDistinct(Flatten(front));
      TouchAllTimes(LastOccurrences(Flatten(front)), last.chain, last.now);
    }
  }

  lemma MemoryCovers(ttl: real, cap: nat, run: seq<Registration>)
    requires NonDecreasing(run) && run != []
    ensures Distinct(AfterRun(ttl, cap, run))
    ensures Covers(ttl, cap, AsFields(AfterRun(ttl, cap, run)), LastTimes(run), run[|run| - 1].now)
  {
    var all, now := LastOccurrences(Flatten(run)), run[|run| - 1].now;
    HistoryCharacterisation(ttl, cap, run);
    LastOccurrencesAreLastTimes(run);
    LastDistinct(Flatten(run));
    FlattenSorted(run);
    LastSorted(Flatten(run));
    var d := AfterRun(ttl, cap, run);
    var p := CutDropsTheRest(ttl, cap, all, now);
    CutIsSuffixOf(p, d, all);
    AsFieldsSize(d);
    var f := AsFields(d);
    assert |d| <= cap;
    forall h | h in f ensures h in LastTimes(run) && f[h] == LastTimes(run)[h] {
      var e :| e in d && e.hash == h;
      TimeOfEntry(d, e);
      assert e in all;
    }
    forall h | h in LastTimes(run) && h !in f && Fresh(ttl, LastTimes(run)[h], now)
      ensures Outlived(cap, f, LastTimes(run)[h])
    {
      var e := Entry(h, LastTimes(run)[h]);
      assert e in all && e !in d && e in p;
      forall x | x in f ensures LastTimes(run)[h] <= f[x] {
        var g :| g in d && g.hash == x;
        TimeOfEntry(d, g);
      }
    }
  }

  lemma CutIsSuffixOf(p: OrderedDict, d: OrderedDict, all: OrderedDict)
    requires all == p + d && Sorted(all) && Distinct(all)
    ensures Distinct(d)
    ensures forall e :: e in all <==> e in p || e in d
    ensures forall e, g :: e in p && g in d ==> e.ts <= g.ts
  {
    forall i, j | 0 <= i < j < |d| ensures d[i].hash != d[j].hash {
      assert all[|p| + i] == d[i] && all[|p| + j] == d[j];
    }
    forall e, g | e in p && g in d ensures e.ts <= g.ts {
      var i :| 0 <= i < |p| && p[i] == e;
      var j :| 0 <= j < |d| && d[j] == g;
      assert all[i] == e && all[|p| + j] == g;
    }
  }

  // ----- the theorem -----

  /** Fed the same run, the two indexes agree at every later time, whatever ties the
      trims broke and whatever EXPIRE removed. */
  lemma MemoryAndRedisAgree(ttl: real, cap: nat, run: seq<Registration>, states: seq<Key>, now: real)
    requires cap >= 1 && NonDecreasing(run) && RedisRun(ttl, cap, run, states)
    requires run != [] ==> run[|run| - 1].now <= now
    ensures Agree(cap, FreshPart(ttl, AsFields(AfterRun(ttl, cap, run)), now),
                       FreshPart(ttl, Visible(states[|run|], now).fields, now))
  {
    if run != [] {
      var t := run[|run| - 1].now;
      MemoryCovers(ttl, cap, run);
      RedisCovers(ttl, cap, run, states);
      StaleStays(ttl, cap, AsFields(AfterRun(ttl, cap, run)), LastTimes(run), t, now);
      ExpiryIsHarmless(ttl, cap, states[|run|], LastTimes(run), t, now);
      CoversAgree(ttl, cap, AsFields(AfterRun(ttl, cap, run)), Visible(states[|run|], now).fields, LastTimes(run), now,
                  now);
    }
  }

  /** Indexes with equal fresh contents give equal `matched_blocks`. */
  lemma EqualContentsMatchAlike(ttl: real, d: OrderedDict, f: Fields, chain: seq<Hash>, now: real, n: nat, m: nat)
    requires Distinct(d) && FreshPart(ttl, AsFields(d), now) == FreshPart(ttl, f, now)
    requires LeadingRun(ttl, d, chain, now, n) && LeadingFields(ttl, f, chain, now, m)
    ensures n == m
  {
    forall h ensures Holds(ttl, d, h, now) <==> h in FreshPart(ttl, f, now) {
      if e :| e in d && e.hash == h && Fresh(ttl, e.ts, now) {
        TimeOfEntry(d, e);
        assert h in FreshPart(ttl, AsFields(d), now);
      }
      if h in FreshPart(ttl, AsFields(d), now) {
        var e :| e in d && e.hash == h;
        TimeOfEntry(d, e);
      }
    }
  }

  /** As long as no more than `cap` hashes are live, the two back ends answer every
      query alike. */
  lemma MatchAlikeWithinCap(ttl: real, cap: nat, run: seq<Registration>, states: seq<Key>, chain: seq<Hash>, now: real,
                            n: nat, m: nat)
    requires cap >= 1 && NonDecreasing(run) && RedisRun(ttl, cap, run, states) && run != [] && run[|run| - 1].now <= now
    requires |FreshPart(ttl, LastTimes(run), now)| <= cap
    requires LeadingRun(ttl, AfterRun(ttl, cap, run), chain, now, n)
    requires LeadingFields(ttl, Visible(states[|run|], now).fields, chain, now, m)
    ensures n == m
  {
    var t, last := run[|run| - 1].now, LastTimes(run);
    var d, f := AfterRun(ttl, cap, run), Visible(states[|run|], now).fields;
    MemoryCovers(ttl, cap, run);
    RedisCovers(ttl, cap, run, states);
    ExpiryIsHarmless(ttl, cap, states[|run|], last, t, now);
    if FreshPart(ttl, AsFields(d), now) != FreshPart(ttl, last, now) {
      FreshFull(ttl, cap, AsFields(d), last, t, now);
    }
    if FreshPart(ttl, f, now) != FreshPart(ttl, last, now) {
      FreshFull(ttl, cap, f, last, now, now);
    }
    EqualContentsMatchAlike(ttl, d, f, chain, now, n, m);
  }

  // ----- how long a registration lasts -----

  /** A chain registered at `t` that fits the cap is matched in full for `ttl` seconds,
      and not at all after that; without a TTL it is matched for ever. */
  lemma MatchedForTtl(ttl: real, cap: nat, d: OrderedDict, chain: seq<Hash>, t: real, now: real, n: nat)
    requires Distinct(d) && NoRepeats(chain) && 0 < |chain| <= cap && t <= now
    requires LeadingRun(ttl, Registered(ttl, cap, d, chain, t), chain, now, n)
    ensures n == if ttl <= 0.0 || now <= t + ttl then |chain| else 0
  {
    var fed, r := Touches(chain, t), Registered(ttl, cap, d, chain, t);
    var x := TouchAllFreshChain(d, chain, t);
    TouchAllTimes(d, chain, t);
    SweepConcat(ttl, x, fed, t);
    NothingExpires(ttl, fed, t);
    CutOfConcat(Sweep(ttl, x, t), fed, cap);
    SweepContents(ttl, TouchAll(d, chain, t), t);
    forall i | 0 <= i < |chain| ensures Holds(ttl, r, chain[i], now) <==> Fresh(ttl, t, now) {
      assert fed[i] in fed && fed[i] in r && fed[i].hash == chain[i];
    }
    assert 0 < n ==> Holds(ttl, r, chain[0], now);
  }

  /** The same for the Redis index while nothing is trimmed. */
  lemma MatchedForTtlOnRedis(ttl: real, cap: nat, k: Key, chain: seq<Hash>, t: real, k': Key, now: real, n: nat)
    requires chain != [] && t <= now && MayRegister(ttl, cap, k, chain, t, k')
    requires |Visible(k, t).fields + FromKeys(chain, t)| <= cap
    requires ttl <= 0.0 ==> k.deadline == Never
    requires LeadingFields(ttl, Visible(k', now).fields, chain, now, n)
    ensures n == if ttl <= 0.0 || now <= t + ttl then |chain| else 0
  {
    assert forall i :: 0 <= i < |chain| ==> chain[i] in k'.fields && k'.fields[chain[i]] == t;
    assert ttl > 0.0 ==> t + ttl < t + ttl.Floor as real + 1.0;
    assert 0 < n ==> chain[0] in Visible(k', now).fields;
  }

  /** With a TTL, a replica's key is gone exactly int(ttl) + 1 seconds after its last
      registration. */
  lemma QuietKeyGoes(ttl: real, cap: nat, k: Key, chain: seq<Hash>, t: real, k': Key, now: real)
    requires cap >= 1 && chain != [] && ttl > 0.0 && MayRegister(ttl, cap, k, chain, t, k')
    ensures Visible(k', now) == NO_KEY <==> now > t + ttl.Floor as real + 1.0
  {
    var f := Visible(k, t).fields + FromKeys(chain, t);
    if |f| <= cap {
      assert chain[0] in k'.fields;
    } else {
      ChainSurvives(ttl, cap, Visible(k, t).fields, chain, t, k'.fields);
    }
  }
}
