/** The in-memory prefix-affinity index (src/kvgate/routing/affinity.py).
    An OrderedDict from block hash to last-seen time is a sequence of entries,
    least recently used first. */
module Affinity {

  type Hash = string
  type Replica = string

  datatype Entry = Entry(hash: Hash, ts: real)

  type OrderedDict = seq<Entry>

  predicate Distinct(d: OrderedDict) {
    forall i, j :: 0 <= i < j < |d| ==> d[i].hash != d[j].hash
  }

  /** Oldest first. */
  ghost predicate Sorted(d: seq<Entry>) {
    forall i, j :: 0 <= i < j < |d| ==> d[i].ts <= d[j].ts
  }

  predicate Fresh(ttl: real, ts: real, now: real) {
    ttl <= 0.0 || now - ts <= ttl
  }

  predicate NoRepeats(chain: seq<Hash>) {
    forall i, j :: 0 <= i < j < |chain| ==> chain[i] != chain[j]
  }

  // ----- dictionary operations -----

  function Hashes(d: OrderedDict): set<Hash> {
    set e | e in d :: e.hash
  }

  /** The entries whose hash is not in `gone`, in order. */
  function Minus(d: OrderedDict, gone: set<Hash>): OrderedDict {
    if d == [] then []
    else (if d[0].hash in gone then [] else [d[0]]) + Minus(d[1..], gone)
  }

  /** Pop the key if present, then append it: move-to-end on refresh. */
  function Touch(d: OrderedDict, h: Hash, now: real): OrderedDict {
    Minus(d, {h}) + [Entry(h, now)]
  }

  function TouchAll(d: OrderedDict, chain: seq<Hash>, now: real): OrderedDict
    decreases |chain|
  {
    if chain == [] then d else TouchAll(Touch(d, chain[0], now), chain[1..], now)
  }

  /** The entries still fresh at `now`, in order. */
  function Sweep(ttl: real, d: OrderedDict, now: real): OrderedDict {
    if d == [] then []
    else (if Fresh(ttl, d[0].ts, now) then [d[0]] else []) + Sweep(ttl, d[1..], now)
  }

  /** The last `cap` entries. */
  function Cut(d: OrderedDict, cap: nat): OrderedDict {
    if |d| <= cap then d else d[|d| - cap..]
  }

  function Registered(ttl: real, cap: nat, d: OrderedDict, chain: seq<Hash>, now: real): OrderedDict {
    Cut(Sweep(ttl, TouchAll(d, chain, now), now), cap)
  }

  ghost predicate Holds(ttl: real, d: OrderedDict, h: Hash, now: real) {
    exists e :: e in d && e.hash == h && Fresh(ttl, e.ts, now)
  }

  /** `n` is the length of the leading run of `chain` that `d` holds unexpired. */
  ghost predicate LeadingRun(ttl: real, d: OrderedDict, chain: seq<Hash>, now: real, n: nat) {
    && n <= |chain|
    && (forall i :: 0 <= i < n ==> Holds(ttl, d, chain[i], now))
    && (n < |chain| ==> !Holds(ttl, d, chain[n], now))
  }

  /** The length `matched_blocks` returns. */
  ghost function Matched(ttl: real, d: OrderedDict, chain: seq<Hash>, now: real): (n: nat)
    ensures LeadingRun(ttl, d, chain, now, n)
  {
    if chain == [] || !Holds(ttl, d, chain[0], now) then 0
    else
      var m := Matched(ttl, d, chain[1..], now);
      assert forall i :: 0 < i < |chain| ==> chain[i] == chain[1..][i - 1];
      m + 1
  }

  lemma LeadingRunIsMatched(ttl: real, d: OrderedDict, chain: seq<Hash>, now: real, n: nat)
    requires LeadingRun(ttl, d, chain, now, n)
    ensures n == Matched(ttl, d, chain, now)
  {
  }

  // ----- the history of one replica -----

  datatype Registration = Registration(chain: seq<Hash>, now: real)

  function AfterRun(ttl: real, cap: nat, run: seq<Registration>): OrderedDict {
    if run == [] then []
    else
      var last := run[|run| - 1];
      Registered(ttl, cap, AfterRun(ttl, cap, run[..|run| - 1]), last.chain, last.now)
  }

  // ----- the class -----

  class PrefixAffinityIndex {
    const ttl: real
    const maxBlocks: nat
    var seen: map<Replica, OrderedDict>

    /** Every registration so far, replica by replica. */
    ghost var served: map<Replica, seq<Registration>>

    ghost predicate Valid()
      reads this
    {
      && maxBlocks >= 1
      && seen.Keys == served.Keys
      && forall r :: r in seen ==> Distinct(seen[r]) && seen[r] == AfterRun(ttl, maxBlocks, served[r])
    }

    ghost function Served(r: Replica): seq<Registration>
      reads this
    {
      if r in served then served[r] else []
    }

    function Dict(r: Replica): OrderedDict
      reads this
    {
      if r in seen then seen[r] else []
    }

    constructor (ttl: real, maxBlocksPerReplica: int)
      ensures Valid()
      ensures this.ttl == ttl && maxBlocks == (if maxBlocksPerReplica > 1 then maxBlocksPerReplica else 1)
      ensures seen == map[] && served == map[]
    {
      this.ttl := ttl;
      maxBlocks := if maxBlocksPerReplica > 1 then maxBlocksPerReplica else 1;
      seen := map[];
      served := map[];
    }

    /** `matched_blocks` */
    method MatchedBlocks(replica: Replica, chain: seq<Hash>, now: real) returns (count: nat)
      requires Valid()
      ensures LeadingRun(ttl, Dict(replica), chain, now, count)
    {
      if replica !in seen || seen[replica] == [] {
        return 0;
      }
      var d := seen[replica];
      count := 0;
      while count < |chain|
        invariant count <= |chain|
        invariant forall i :: 0 <= i < count ==> Holds(ttl, d, chain[i], now)
      {
        var k := Find(d, chain[count]);
        if k == |d| || !Fresh(ttl, d[k].ts, now) {
          return;
        }
        count := count + 1;
      }
    }

    /** `register` */
    method Register(replica: Replica, chain: seq<Hash>, now: real)
      requires Valid()
      modifies this
      ensures Valid()
      ensures seen == old(seen)[replica := Registered(ttl, maxBlocks, old(Dict(replica)), chain, now)]
      ensures served == old(served)[replica := old(Served(replica)) + [Registration(chain, now)]]
    {
      TouchEach(replica, chain, now);
      Evict(replica, now);
      UpdateTwice(old(seen), replica, TouchAll(old(Dict(replica)), chain, now), seen[replica]);
      served := served[replica := Served(replica) + [Registration(chain, now)]];
      AfterOneMore(ttl, maxBlocks, old(Served(replica)), chain, now);
    }

    /** The loop of `register`. */
    method TouchEach(replica: Replica, chain: seq<Hash>, now: real)
      requires replica in seen ==> Distinct(seen[replica])
      modifies this`seen
      ensures seen == old(seen)[replica := TouchAll(old(Dict(replica)), chain, now)]
      ensures Distinct(seen[replica])
    {
      var d := Dict(replica);
      ghost var before := d;
      seen := seen[replica := d];
      for k := 0 to |chain|
        invariant seen == old(seen)[replica := d]
        invariant TouchAll(d, chain[k..], now) == TouchAll(before, chain, now)
        invariant Distinct(d)
      {
        TouchDistinct(d, chain[k], now);
        assert chain[k..][1..] == chain[k + 1..];
        UpdateTwice(old(seen), replica, d, Touch(d, chain[k], now));
        d := Touch(d, chain[k], now);
        seen := seen[replica := d];
      }
      assert chain[|chain|..] == [];
    }

    /** `_evict`: pop every stale hash, then the least recently used ones over the cap. */
    method Evict(replica: Replica, now: real)
      requires replica in seen && Distinct(seen[replica])
      modifies this`seen
      ensures seen == old(seen)[replica := Cut(Sweep(ttl, old(seen[replica]), now), maxBlocks)]
      ensures Distinct(seen[replica])
    {
      ghost var before := seen[replica];
      if ttl > 0.0 {
        EvictStale(replica, now);
      } else {
        NothingExpires(ttl, before, now);
      }
      SweepDistinct(ttl, before, now);
      ghost var swept := Sweep(ttl, before, now);
      assert seen == old(seen)[replica := swept];
      EvictOldest(replica);
      UpdateTwice(old(seen), replica, swept, Cut(swept, maxBlocks));
    }

    /** The `while` loop of `_evict`. */
    method EvictOldest(replica: Replica)
      requires replica in seen && Distinct(seen[replica])
      modifies this`seen
      ensures seen == old(seen)[replica := Cut(old(seen[replica]), maxBlocks)]
      ensures Distinct(seen[replica])
    {
      var d := seen[replica];
      ghost var all := d;
      while |d| > maxBlocks
        invariant seen == old(seen)[replica := d]
        invariant |d| <= |all| && d == all[|all| - |d|..]
        invariant Cut(d, maxBlocks) == Cut(all, maxBlocks)
        decreases |d|
      {
        UpdateTwice(old(seen), replica, d, d[1..]);
        d := d[1..];
        seen := seen[replica := d];
      }
    }

    /** The list comprehension and the pops of `_evict`. */
    method EvictStale(replica: Replica, now: real)
      requires replica in seen && Distinct(seen[replica])
      modifies this`seen
      ensures seen == old(seen)[replica := Sweep(ttl, old(seen[replica]), now)]
    {
      var d := seen[replica];
      ghost var before := d;
      var stale := Stale(d, now);
      ghost var gone: set<Hash> := {};
      MinusNothing(before);
      for k := 0 to |stale|
        invariant seen == old(seen)[replica := d] && d == Minus(before, gone)
        invariant gone == set h | h in stale[..k]
      {
        MinusTwice(before, gone, {stale[k]});
        UpdateTwice(old(seen), replica, d, Minus(d, {stale[k]}));
        d := Minus(d, {stale[k]});
        seen := seen[replica := d];
        gone := gone + {stale[k]};
      }
      assert stale[..|stale|] == stale;
      SweepMatchesMinus(ttl, before, now, gone);
    }

    method Stale(d: OrderedDict, now: real) returns (stale: seq<Hash>)
      requires Distinct(d)
      ensures forall e :: e in d ==> (e.hash in stale <==> !Fresh(ttl, e.ts, now))
    {
      stale := [];
      for k := 0 to |d|
        invariant forall h :: h in stale ==> exists j :: 0 <= j < k && d[j].hash == h
        invariant forall j :: 0 <= j < k ==> (d[j].hash in stale <==> !Fresh(ttl, d[j].ts, now))
      {
        if !Fresh(ttl, d[k].ts, now) {
          stale := stale + [d[k].hash];
        }
      }
    }

    method BlockCount(replica: Replica) returns (n: nat)
      ensures n == |Dict(replica)|
    {
      n := if replica in seen then |seen[replica]| else 0;
    }
  }

  /** Where `h` is in `d`, or |d|. */
  function Find(d: OrderedDict, h: Hash): (k: nat)
    requires Distinct(d)
    ensures k <= |d|
    ensures k < |d| ==> d[k].hash == h && forall e :: e in d && e.hash == h ==> e == d[k]
    ensures k == |d| ==> h !in Hashes(d)
  {
    if d == [] then 0
    else if d[0].hash == h then 0
    else assert Distinct(d[1..]); 1 + Find(d[1..], h)
  }

  // ----- facts about the dictionary operations -----

  lemma UpdateTwice<K, V>(m: map<K, V>, k: K, v: V, w: V)
    ensures m[k := v][k := w] == m[k := w]
  {
  }

  lemma {:induction false} MinusContents(d: OrderedDict, gone: set<Hash>)
    ensures forall e :: e in Minus(d, gone) <==> e in d && e.hash !in gone
  {
    if d == [] {
    } else {
      MinusContents(d[1..], gone);
    }
  }

  lemma {:induction false} MinusDistinct(d: OrderedDict, gone: set<Hash>)
    requires Distinct(d)
    ensures Distinct(Minus(d, gone))
  {
    if d == [] {
    } else {
      assert Distinct(d[1..]);
      MinusDistinct(d[1..], gone);
      MinusContents(d[1..], gone);
      forall e | e in Minus(d[1..], gone) ensures e.hash != d[0].hash {
        assert e in d[1..];
      }
    }
  }

  lemma {:induction false} MinusNothing(d: OrderedDict)
    ensures Minus(d, {}) == d
  {
    if d == [] {
    } else {
      MinusNothing(d[1..]);
    }
  }

  lemma {:induction false} MinusTwice(d: OrderedDict, a: set<Hash>, b: set<Hash>)
    ensures Minus(Minus(d, a), b) == Minus(d, a + b)
  {
    if d == [] {
    } else {
      MinusTwice(d[1..], a, b);
      MinusConcat(if d[0].hash in a then [] else [d[0]], Minus(d[1..], a), b);
    }
  }

  lemma {:induction false} MinusConcat(a: OrderedDict, b: OrderedDict, gone: set<Hash>)
    ensures Minus(a + b, gone) == Minus(a, gone) + Minus(b, gone)
  {
    if a == [] {
      assert a + b == b;
    } else {
      assert (a + b)[1..] == a[1..] + b;
      MinusConcat(a[1..], b, gone);
    }
  }

  lemma {:induction false} MinusOneLength(d: OrderedDict, h: Hash)
    requires Distinct(d)
    ensures |Minus(d, {h})| == if h in Hashes(d) then |d| - 1 else |d|
  {
    if d == [] {
    } else {
      assert Distinct(d[1..]);
      MinusOneLength(d[1..], h);
      assert d == [d[0]] + d[1..];
      if d[0].hash == h {
        forall e | e in d[1..] ensures e.hash != h {}
      }
      assert h in Hashes(d) <==> d[0].hash == h || h in Hashes(d[1..]);
    }
  }

  lemma TouchDistinct(d: OrderedDict, h: Hash, now: real)
    requires Distinct(d)
    ensures Distinct(Touch(d, h, now))
  {
    MinusDistinct(d, {h});
    MinusContents(d, {h});
    forall e | e in Minus(d, {h}) ensures e.hash != h {}
  }

  lemma {:induction false} SweepContents(ttl: real, d: OrderedDict, now: real)
    ensures forall e :: e in Sweep(ttl, d, now) <==> e in d && Fresh(ttl, e.ts, now)
  {
    if d == [] {
    } else {
      SweepContents(ttl, d[1..], now);
    }
  }

  lemma {:induction false} SweepDistinct(ttl: real, d: OrderedDict, now: real)
    requires Distinct(d)
    ensures Distinct(Sweep(ttl, d, now))
  {
    if d == [] {
    } else {
      assert Distinct(d[1..]);
      SweepDistinct(ttl, d[1..], now);
      SweepContents(ttl, d[1..], now);
      forall e | e in Sweep(ttl, d[1..], now) ensures e.hash != d[0].hash {
        assert e in d[1..];
      }
    }
  }

  lemma {:induction false} SweepConcat(ttl: real, a: OrderedDict, b: OrderedDict, now: real)
    ensures Sweep(ttl, a + b, now) == Sweep(ttl, a, now) + Sweep(ttl, b, now)
  {
    if a == [] {
      assert a + b == b;
    } else {
      hide Fresh;
      var head, rest := if Fresh(ttl, a[0].ts, now) then [a[0]] else [], Sweep(ttl, a[1..], now);
      calc {
        Sweep(ttl, a + b, now);
        { assert (a + b)[0] == a[0] && (a + b)[1..] == a[1..] + b; }
        head + Sweep(ttl, a[1..] + b, now);
        { SweepConcat(ttl, a[1..], b, now); }
        head + (rest + Sweep(ttl, b, now));
        (head + rest) + Sweep(ttl, b, now);
      }
    }
  }

  lemma {:induction false} SweepMatchesMinus(ttl: real, d: OrderedDict, now: real, gone: set<Hash>)
    requires forall e :: e in d ==> (e.hash in gone <==> !Fresh(ttl, e.ts, now))
    ensures Sweep(ttl, d, now) == Minus(d, gone)
  {
    if d == [] {
    } else {
      SweepMatchesMinus(ttl, d[1..], now, gone);
    }
  }

  lemma {:induction false} NothingExpires(ttl: real, d: OrderedDict, now: real)
    requires ttl <= 0.0 || forall e :: e in d ==> Fresh(ttl, e.ts, now)
    ensures Sweep(ttl, d, now) == d
  {
    if d == [] {
    } else {
      NothingExpires(ttl, d[1..], now);
    }
  }

  lemma {:induction false} HashesCount(s: seq<Entry>)
    requires Distinct(s)
    ensures |Hashes(s)| == |s|
  {
    if s == [] {
    } else {
      assert s == [s[0]] + s[1..] && Distinct(s[1..]);
      HashesCount(s[1..]);
      assert Hashes(s) == {s[0].hash} + Hashes(s[1..]);
      assert s[0].hash !in Hashes(s[1..]);
    }
  }

  lemma AfterOneMore(ttl: real, cap: nat, run: seq<Registration>, chain: seq<Hash>, now: real)
    ensures AfterRun(ttl, cap, run + [Registration(chain, now)])
         == Registered(ttl, cap, AfterRun(ttl, cap, run), chain, now)
  {
    var more := run + [Registration(chain, now)];
    assert more[..|more| - 1] == run;
  }
}
