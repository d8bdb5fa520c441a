/** What the in-memory index is after any run of registrations: the registered
    hashes, each at its last occurrence, minus the stale ones, cut to the cap. */
module AffinityHistory {
  import opened Affinity

  /** Every (hash, time) a run wrote, in order. */
  function Touches(chain: seq<Hash>, now: real): seq<Entry> {
    seq(|chain|, i requires 0 <= i < |chain| => Entry(chain[i], now))
  }

  function Flatten(run: seq<Registration>): seq<Entry> {
    if run == [] then []
    else Flatten(run[..|run| - 1]) + Touches(run[|run| - 1].chain, run[|run| - 1].now)
  }

  /** Keep the last occurrence of each hash. */
  function LastOccurrences(f: seq<Entry>): OrderedDict {
    if f == [] then []
    else (if f[0].hash in Hashes(f[1..]) then [] else [f[0]]) + LastOccurrences(f[1..])
  }

  ghost predicate NonDecreasing(run: seq<Registration>) {
    forall i, j :: 0 <= i < j < |run| ==> run[i].now <= run[j].now
  }

  ghost predicate IsSuffix(s: OrderedDict, d: OrderedDict) {
    |s| <= |d| && s == d[|d| - |s|..]
  }

  /** The closed form. */
  function Characterised(ttl: real, cap: nat, run: seq<Registration>): OrderedDict {
    if run == [] then []
    else Cut(Sweep(ttl, LastOccurrences(Flatten(run)), run[|run| - 1].now), cap)
  }

  // ----- last occurrences -----

  lemma {:induction false} LastHashes(f: seq<Entry>)
    ensures Hashes(LastOccurrences(f)) == Hashes(f)
    ensures forall e :: e in LastOccurrences(f) ==> e in f
  {
    if f == [] {
    } else {
      LastHashes(f[1..]);
      assert f == [f[0]] + f[1..];
      assert Hashes(f) == {f[0].hash} + Hashes(f[1..]);
    }
  }

  lemma {:induction false} LastDistinct(f: seq<Entry>)
    ensures Distinct(LastOccurrences(f))
  {
    if f == [] {
    } else {
      LastDistinct(f[1..]);
      LastHashes(f[1..]);
      forall e | e in LastOccurrences(f[1..]) ensures e.hash in Hashes(f[1..]) {}
    }
  }

  lemma {:induction false} LastSorted(f: seq<Entry>)
    requires Sorted(f)
    ensures Sorted(LastOccurrences(f))
  {
    if f == [] {
    } else {
      LastSorted(f[1..]);
      LastHashes(f[1..]);
      forall e | e in LastOccurrences(f[1..]) ensures f[0].ts <= e.ts {
        assert e in f[1..];
      }
    }
  }

  lemma HashesOfConcat(a: seq<Entry>, b: seq<Entry>)
    ensures Hashes(a + b) == Hashes(a) + Hashes(b)
  {
  }

  /** Prepending an entry unless its hash is in `later`, then dropping `gone`. */
  lemma MinusHead(e: Entry, later: set<Hash>, d: OrderedDict, gone: set<Hash>)
    ensures Minus((if e.hash in later then [] else [e]) + d, gone)
         == (if e.hash in later + gone then [] else [e]) + Minus(d, gone)
  {
    MinusConcat(if e.hash in later then [] else [e], d, gone);
  }

  lemma LastUnfold(a: seq<Entry>)
    requires a != []
    ensures LastOccurrences(a) == (if a[0].hash in Hashes(a[1..]) then [] else [a[0]]) + LastOccurrences(a[1..])
  {
  }

  lemma {:induction false} LastOfConcat(a: seq<Entry>, b: seq<Entry>)
    ensures LastOccurrences(a + b) == Minus(LastOccurrences(a), Hashes(b)) + LastOccurrences(b)
    decreases |a|
  {
    if a == [] {
      assert a + b == b;
    } else {
      LastOfConcatStep(a, b);
    }
  }

  lemma LastOfConcatStep(a: seq<Entry>, b: seq<Entry>)
    requires a != []
    ensures LastOccurrences(a + b) == Minus(LastOccurrences(a), Hashes(b)) + LastOccurrences(b)
    decreases |a|, 0
  {
    hide LastOccurrences, Minus, Hashes;
    LastOfConcat(a[1..], b);
    assert (a + b)[1..] == a[1..] + b && (a + b)[0] == a[0];
    HashesOfConcat(a[1..], b);
    LastUnfold(a + b);
    LastUnfold(a);
    MinusHead(a[0], Hashes(a[1..]), LastOccurrences(a[1..]), Hashes(b));
  }

  lemma LastOneMore(f: seq<Entry>, e: Entry)
    ensures LastOccurrences(f + [e]) == Minus(LastOccurrences(f), {e.hash}) + [e]
  {
    LastOfConcat(f, [e]);
    assert Hashes([e]) == {e.hash} && [e][1..] == [];
  }

  lemma {:induction false} LastAllMore(f: seq<Entry>, chain: seq<Hash>, now: real)
    ensures LastOccurrences(f + Touches(chain, now)) == TouchAll(LastOccurrences(f), chain, now)
    decreases |chain|
  {
    if chain == [] {
      assert f + Touches(chain, now) == f;
    } else {
      var e := Entry(chain[0], now);
      assert f + Touches(chain, now) == (f + [e]) + Touches(chain[1..], now);
      LastAllMore(f + [e], chain[1..], now);
      LastOneMore(f, e);
    }
  }

  lemma {:induction false} FlattenSorted(run: seq<Registration>)
    requires NonDecreasing(run)
    ensures Sorted(Flatten(run))
    ensures forall e :: e in Flatten(run) ==> run != [] && e.ts <= run[|run| - 1].now
  {
    if run == [] {
    } else {
      var front := run[..|run| - 1];
      FlattenSorted(front);
      forall e | e in Flatten(front) ensures e.ts <= run[|run| - 1].now {
        assert front != [] && e.ts <= front[|front| - 1].now;
        assert front[|front| - 1] == run[|front| - 1];
      }
    }
  }

  // ----- sweeping and cutting -----

  lemma {:induction false} SweepIsSuffix(ttl: real, d: OrderedDict, now: real)
    requires Sorted(d)
    ensures IsSuffix(Sweep(ttl, d, now), d)
    ensures forall i :: 0 <= i < |d| - |Sweep(ttl, d, now)| ==> !Fresh(ttl, d[i].ts, now)
  {
    if d == [] {
    } else {
      assert Sorted(d[1..]);
      if Fresh(ttl, d[0].ts, now) {
        forall e | e in d ensures Fresh(ttl, e.ts, now) {}
        NothingExpires(ttl, d, now);
      } else {
        SweepIsSuffix(ttl, d[1..], now);
      }
    }
  }

  lemma {:induction false} SweepOfStale(ttl: real, d: OrderedDict, now: real)
    requires forall e :: e in d ==> !Fresh(ttl, e.ts, now)
    ensures Sweep(ttl, d, now) == []
  {
    if d == [] {
    } else {
      SweepOfStale(ttl, d[1..], now);
    }
  }

  /** What eviction has dropped so far can be dropped again: it is stale, or at
      least `cap` younger entries follow it. */
  ghost predicate Dropped(ttl: real, cap: nat, p: OrderedDict, d: OrderedDict, now: real) {
    (forall e :: e in p ==> !Fresh(ttl, e.ts, now)) || |d| >= cap
  }

  lemma {:induction false} DroppedStaysDropped(ttl: real, cap: nat, p: OrderedDict, d: OrderedDict, t: real,
                                               chain: seq<Hash>, now: real)
    returns (q: OrderedDict)
    requires Distinct(p + d) && Dropped(ttl, cap, p, d, t) && t <= now
    ensures TouchAll(p + d, chain, now) == q + TouchAll(d, chain, now)
    ensures Dropped(ttl, cap, q, TouchAll(d, chain, now), t)
    decreases |chain|
  {
    q := p;
    if chain == [] {
    } else {
      var h := chain[0];
      var p', d' := Minus(p, {h}), Touch(d, h, now);
      MinusConcat(p, d, {h});
      assert Touch(p + d, h, now) == p' + d';
      TouchDistinct(p + d, h, now);
      assert Distinct(d) by { assert d == (p + d)[|p|..]; }
      MinusOneLength(d, h);
      MinusContents(p, {h});
      q := DroppedStaysDropped(ttl, cap, p', d', t, chain[1..], now);
    }
  }

  lemma DroppedIsInvisible(ttl: real, cap: nat, p: OrderedDict, d: OrderedDict, t: real, now: real)
    requires Sorted(p + d) && Dropped(ttl, cap, p, d, t) && t <= now
    ensures Cut(Sweep(ttl, p + d, now), cap) == Cut(Sweep(ttl, d, now), cap)
  {
    hide Sweep;
    SweepConcat(ttl, p, d, now);
    if i :| 0 <= i < |p| && Fresh(ttl, p[i].ts, now) {
      YoungerIsFresh(ttl, p, d, i, now);
      assert p[i] in p;
      NothingExpires(ttl, d, now);
    } else {
      SweepOfStale(ttl, p, now);
    }
  }

  lemma YoungerIsFresh(ttl: real, p: OrderedDict, d: OrderedDict, i: nat, now: real)
    requires Sorted(p + d) && i < |p| && Fresh(ttl, p[i].ts, now)
    ensures forall e :: e in d ==> Fresh(ttl, e.ts, now)
  {
    forall e | e in d ensures Fresh(ttl, e.ts, now) {
      var k :| 0 <= k < |d| && d[k] == e;
      assert (p + d)[i] == p[i] && (p + d)[|p| + k] == e;
    }
  }

  lemma CutDropsTheRest(ttl: real, cap: nat, all: OrderedDict, now: real) returns (p: OrderedDict)
    requires Sorted(all)
    ensures all == p + Cut(Sweep(ttl, all, now), cap)
    ensures Dropped(ttl, cap, p, Cut(Sweep(ttl, all, now), cap), now)
  {
    hide Sweep, Fresh;
    SweepIsSuffix(ttl, all, now);
    CutIsSuffix(Sweep(ttl, all, now), cap, all);
    var d := Cut(Sweep(ttl, all, now), cap);
    p := all[..|all| - |d|];
    assert all == p + all[|all| - |d|..];
  }

  // ----- the theorem -----

  /** The index after a run with non-decreasing times is the closed form of its history. */
  lemma {:induction false} HistoryCharacterisation(ttl: real, cap: nat, run: seq<Registration>)
    requires NonDecreasing(run)
    ensures AfterRun(ttl, cap, run) == Characterised(ttl, cap, run)
  {
    if run == [] {
    } else {
      var front, last := run[..|run| - 1], run[|run| - 1];
      HistoryCharacterisation(ttl, cap, front);
      var all := LastOccurrences(Flatten(front));
      LastAllMore(Flatten(front), last.chain, last.now);
      FlattenSorted(front);
      FlattenSorted(run);
      LastSorted(Flatten(front));
      LastSorted(Flatten(run));
      LastDistinct(Flatten(front));
      if front != [] {
        var t := front[|front| - 1].now;
        assert t == run[|front| - 1].now <= last.now;
        var d := AfterRun(ttl, cap, front);
        var p := CutDropsTheRest(ttl, cap, all, t);
        var q := DroppedStaysDropped(ttl, cap, p, d, t, last.chain, last.now);
        DroppedIsInvisible(ttl, cap, q, TouchAll(d, last.chain, last.now), t, last.now);
      }
    }
  }

  // ----- consequences: the cap and the TTL -----

  /** `ttl` keeps entries at least as long as `shorter`; a TTL of 0 or less never expires. */
  predicate AtLeastAsLong(ttl: real, shorter: real) {
    ttl <= 0.0 || 0.0 < shorter <= ttl
  }

  lemma SuffixesNest(a: OrderedDict, b: OrderedDict, d: OrderedDict)
    requires IsSuffix(a, d) && IsSuffix(b, d) && |a| <= |b|
    ensures IsSuffix(a, b)
  {
    assert b[|b| - |a|..] == d[|d| - |a|..];
  }

  lemma {:induction false} LongerSweep(ttl: real, shorter: real, d: OrderedDict, now: real)
    requires AtLeastAsLong(ttl, shorter)
    ensures |Sweep(shorter, d, now)| <= |Sweep(ttl, d, now)|
  {
    if d == [] {
    } else {
      LongerSweep(ttl, shorter, d[1..], now);
    }
  }

  lemma CutsNest(ttl: real, shorter: real, cap: nat, smaller: nat, d: OrderedDict, now: real)
    requires Sorted(d) && smaller <= cap && AtLeastAsLong(ttl, shorter)
    ensures IsSuffix(Cut(Sweep(shorter, d, now), smaller), Cut(Sweep(ttl, d, now), cap))
  {
    SweepIsSuffix(shorter, d, now);
    SweepIsSuffix(ttl, d, now);
    LongerSweep(ttl, shorter, d, now);
    SuffixesNest(Sweep(shorter, d, now), Sweep(ttl, d, now), d);
    CutIsSuffix(Sweep(shorter, d, now), smaller, d);
    CutIsSuffix(Sweep(ttl, d, now), cap, d);
    SuffixesNest(Cut(Sweep(shorter, d, now), smaller), Cut(Sweep(ttl, d, now), cap), d);
  }

  lemma CutIsSuffix(s: OrderedDict, cap: nat, d: OrderedDict)
    requires IsSuffix(s, d)
    ensures IsSuffix(Cut(s, cap), d)
  {
    assert Cut(s, cap) == d[|d| - |Cut(s, cap)|..];
  }

  /** Fed the same run, the index with the smaller cap and the shorter TTL is a
      suffix of the other. */
  lemma Inclusion(ttl: real, shorter: real, cap: nat, smaller: nat, run: seq<Registration>)
    requires NonDecreasing(run) && smaller <= cap && AtLeastAsLong(ttl, shorter)
    ensures IsSuffix(AfterRun(shorter, smaller, run), AfterRun(ttl, cap, run))
  {
    HistoryCharacterisation(shorter, smaller, run);
    HistoryCharacterisation(ttl, cap, run);
    if run != [] {
      FlattenSorted(run);
      LastSorted(Flatten(run));
      CutsNest(ttl, shorter, cap, smaller, LastOccurrences(Flatten(run)), run[|run| - 1].now);
    }
  }

  /** Hence `matched_blocks` is monotone in the cap and in the TTL. */
  lemma MatchedIsMonotone(ttl: real, shorter: real, cap: nat, smaller: nat, run: seq<Registration>, chain: seq<Hash>,
                          now: real, n: nat, m: nat)
    requires NonDecreasing(run) && smaller <= cap && AtLeastAsLong(ttl, shorter)
    requires LeadingRun(shorter, AfterRun(shorter, smaller, run), chain, now, m)
    requires LeadingRun(ttl, AfterRun(ttl, cap, run), chain, now, n)
    ensures m <= n
  {
    Inclusion(ttl, shorter, cap, smaller, run);
    if n < m {
      var h := chain[n];
      var e :| e in AfterRun(shorter, smaller, run) && e.hash == h && Fresh(shorter, e.ts, now);
      assert e in AfterRun(ttl, cap, run) && Fresh(ttl, e.ts, now);
      assert false;
    }
  }

  // ----- a chain against the cap -----

  lemma {:induction false} TouchAllFreshChain(d: OrderedDict, chain: seq<Hash>, now: real) returns (x: OrderedDict)
    requires NoRepeats(chain)
    ensures TouchAll(d, chain, now) == x + Touches(chain, now)
    decreases |chain|
  {
    if chain == [] {
      x := d;
    } else {
      var front, h := chain[..|chain| - 1], chain[|chain| - 1];
      var y := TouchAllFreshChain(d, front, now);
      TouchAllLast(d, chain, now);
      assert chain == front + [h];
      TouchLast(y, front, h, now);
      x := Minus(y, {h});
    }
  }

  /** A new hash goes last and leaves the touches before it alone. */
  lemma TouchLast(y: OrderedDict, front: seq<Hash>, h: Hash, now: real)
    requires h !in front
    ensures Touch(y + Touches(front, now), h, now) == Minus(y, {h}) + Touches(front + [h], now)
  {
    hide Minus;
    var fed := Touches(front, now);
    MinusConcat(y, fed, {h});
    MinusKeepsAll(fed, {h});
    assert Touches(front + [h], now) == fed + [Entry(h, now)];
    assert (Minus(y, {h}) + fed) + [Entry(h, now)] == Minus(y, {h}) + (fed + [Entry(h, now)]);
  }

  lemma {:induction false} MinusKeepsAll(d: OrderedDict, gone: set<Hash>)
    requires forall e :: e in d ==> e.hash !in gone
    ensures Minus(d, gone) == d
  {
    if d == [] {
    } else {
      MinusKeepsAll(d[1..], gone);
    }
  }

  lemma {:induction false} TouchAllLast(d: OrderedDict, chain: seq<Hash>, now: real)
    requires chain != []
    ensures TouchAll(d, chain, now) == Touch(TouchAll(d, chain[..|chain| - 1], now), chain[|chain| - 1], now)
    decreases |chain|
  {
    if |chain| == 1 {
    } else {
      TouchAllLast(Touch(d, chain[0], now), chain[1..], now);
      assert chain[1..][..|chain| - 2] == chain[..|chain| - 1][1..];
    }
  }

  /** Right after registering a duplicate-free chain the index matches all of it
      if it fits the cap, and none of it otherwise: its head goes first. */
  lemma MatchedAfterRegister(ttl: real, cap: nat, d: OrderedDict, chain: seq<Hash>, now: real, n: nat)
    requires NoRepeats(chain)
    requires LeadingRun(ttl, Registered(ttl, cap, d, chain, now), chain, now, n)
    ensures n == if |chain| <= cap then |chain| else 0
  {
    var fed := Touches(chain, now);
    var x := TouchAllFreshChain(d, chain, now);
    SweepConcat(ttl, x, fed, now);
    NothingExpires(ttl, fed, now);
    CutOfConcat(Sweep(ttl, x, now), fed, cap);
    var r := Registered(ttl, cap, d, chain, now);
    if |chain| <= cap {
      forall i | 0 <= i < |chain| ensures Holds(ttl, r, chain[i], now) {
        assert fed[i] in fed && fed[i] in r && fed[i].hash == chain[i];
      }
    } else {
      forall e | e in r ensures e.hash != chain[0] {
        var i :| |fed| - cap <= i < |fed| && fed[i] == e;
      }
    }
  }

  lemma CutOfConcat(a: OrderedDict, b: OrderedDict, cap: nat)
    ensures |b| <= cap ==> forall e :: e in b ==> e in Cut(a + b, cap)
    ensures |b| >= cap ==> Cut(a + b, cap) == b[|b| - cap..]
  {
    if |b| <= cap {
      var c := Cut(a + b, cap);
      forall e | e in b ensures e in c {
        var i :| 0 <= i < |b| && b[i] == e;
        assert c[|c| - |b| + i] == e;
      }
    }
  }
}
