/** Conversations stick: a follow-up whose units extend an earlier request goes to the
    replica that served it (src/kvgate/routing/router.py, keying.py, affinity.py). */
module StickyRouting {
  import opened Basics
  import opened Affinity
  import opened AffinityHistory
  import K = Keying
  import P = PrefixRefinement
  import opened Router
  import opened Strategies

  // ----- what was registered last is still held -----

  lemma FlattenUnfold(run: seq<Registration>, last: Registration)
    ensures Flatten(run + [last]) == Flatten(run) + Touches(last.chain, last.now)
  {
    assert (run + [last])[..|run|] == run;
  }

  lemma {:induction false} FlattenConcat(before: seq<Registration>, after: seq<Registration>)
    ensures Flatten(before + after) == Flatten(before) + Flatten(after)
  {
    if after == [] {
      assert before + after == before;
    } else {
      FlattenConcat(before, after[..|after| - 1]);
      FlattenOneMore(before, after[..|after| - 1], after[|after| - 1]);
      assert after == after[..|after| - 1] + [after[|after| - 1]];
    }
  }

  lemma FlattenOneMore(before: seq<Registration>, front: seq<Registration>, last: Registration)
    requires Flatten(before + front) == Flatten(before) + Flatten(front)
    ensures Flatten(before + (front + [last])) == Flatten(before) + Flatten(front + [last])
  {
    hide Flatten, Touches;
    FlattenUnfold(before + front, last);
    FlattenUnfold(front, last);
    assert before + (front + [last]) == (before + front) + [last];
  }

  /** What was written since `x` was last written, that write included; nothing if `x`
      never was. */
  function SinceLast(s: seq<Entry>, x: Hash): seq<Entry> {
    if s == [] then []
    else if s[0].hash == x && x !in Hashes(s[1..]) then s
    else SinceLast(s[1..], x)
  }

  lemma {:induction false} SinceLastSplits(s: seq<Entry>, x: Hash) returns (f: seq<Entry>)
    ensures s == f + SinceLast(s, x)
    ensures SinceLast(s, x) == [] <==> x !in Hashes(s)
    ensures SinceLast(s, x) != [] ==> SinceLast(s, x)[0].hash == x && x !in Hashes(SinceLast(s, x)[1..])
  {
    if s == [] {
      f := [];
    } else if s[0].hash == x && x !in Hashes(s[1..]) {
      f := [];
    } else {
      f := SinceLastSplits(s[1..], x);
      f := [s[0]] + f;
      assert s == [s[0]] + s[1..];
    }
  }

  /** Of entries in order of age, all of different hashes, the first of `b` is still held
      after a sweep and a cut exactly if it is fresh and `b` fits the cap. */
  lemma HeldAfterCut(ttl: real, cap: nat, a: OrderedDict, b: OrderedDict, t: real, now: real)
    requires Sorted(a + b) && Distinct(a + b) && b != [] && t <= now
    ensures Holds(ttl, Cut(Sweep(ttl, a + b, t), cap), b[0].hash, now) <==> Fresh(ttl, b[0].ts, now) && |b| <= cap
  {
    var d := Cut(Sweep(ttl, a + b, t), cap);
    assert (a + b)[|a|] == b[0];
    if Fresh(ttl, b[0].ts, now) {
      SuffixFacts(a, b);
      SweepConcat(ttl, a, b, t);
      NothingExpires(ttl, b, t);
      CutOfConcat(Sweep(ttl, a, t), b, cap);
    } else {
      SweepContents(ttl, a + b, t);
    }
  }

  lemma SuffixFacts(a: OrderedDict, b: OrderedDict)
    requires Sorted(a + b) && Distinct(a + b) && b != []
    ensures forall e :: e in b ==> b[0].ts <= e.ts
    ensures forall e :: e in b[1..] ==> e.hash != b[0].hash
  {
    assert forall i :: 0 <= i < |b| ==> (a + b)[|a| + i] == b[i];
  }

  /** A hash is held fresh exactly if its last write is within the TTL and no more than
      `cap` distinct hashes were written since, itself included. */
  lemma RecentIsHeld(ttl: real, cap: nat, run: seq<Registration>, x: Hash, now: real)
    requires run != [] && NonDecreasing(run) && run[|run| - 1].now <= now
    ensures var since := SinceLast(Flatten(run), x);
      Holds(ttl, AfterRun(ttl, cap, run), x, now) <==>
      since != [] && Fresh(ttl, since[0].ts, now) && |Hashes(since)| <= cap
  {
    var s, t := Flatten(run), run[|run| - 1].now;
    var since := SinceLast(s, x);
    var f := SinceLastSplits(s, x);
    HistoryCharacterisation(ttl, cap, run);
    if since == [] {
      SweepContents(ttl, LastOccurrences(s), t);
      LastHashes(s);
    } else {
      FlattenSorted(run);
      LastSorted(s);
      LastDistinct(s);
      LastOfConcat(f, since);
      LastUnfold(since);
      LastCount(since);
      HeldAfterCut(ttl, cap, Minus(LastOccurrences(f), Hashes(since)), LastOccurrences(since), t, now);
    }
  }

  lemma LastCount(s: seq<Entry>)
    ensures |LastOccurrences(s)| == |Hashes(s)|
  {
    LastHashes(s);
    LastDistinct(s);
    HashesCount(LastOccurrences(s));
  }

  /** In particular if no more than `cap` distinct hashes were registered since the
      registration that served it, however long the run was before. */
  lemma CountedIsHeld(ttl: real, cap: nat, before: seq<Registration>, since: seq<Registration>, x: Hash, now: real)
    requires since != [] && NonDecreasing(before + since) && since[|since| - 1].now <= now
    requires x in since[0].chain && Fresh(ttl, since[0].now, now)
    requires |Hashes(Flatten(since))| <= cap
    ensures Holds(ttl, AfterRun(ttl, cap, before + since), x, now)
  {
    var run, g := before + since, Flatten(since);
    assert run[|run| - 1].now == since[|since| - 1].now;
    RecentIsHeld(ttl, cap, run, x, now);
    var e := Entry(x, since[0].now);
    assert P.Wrote(since, 0, e);
    P.FlattenContents(since, e);
    FlattenConcat(before, since);
    SinceLastOfConcat(Flatten(before), g, x);
    SinceSorted(before, since);
    FlattenSorted(since);
    LastIsLatest(g, e);
    var f := SinceLastSplits(g, x);
    HashesOfConcat(f, SinceLast(g, x));
    SubsetSize(Hashes(SinceLast(g, x)), Hashes(g));
  }

  lemma {:induction false} SinceLastOfConcat(f: seq<Entry>, g: seq<Entry>, x: Hash)
    requires x in Hashes(g)
    ensures SinceLast(f + g, x) == SinceLast(g, x)
  {
    if f == [] {
      assert f + g == g;
    } else {
      assert (f + g)[1..] == f[1..] + g;
      HashesOfConcat(f[1..], g);
      SinceLastOfConcat(f[1..], g, x);
    }
  }

  lemma LastIsLatest(s: seq<Entry>, e: Entry)
    requires Sorted(s) && e in s
    ensures SinceLast(s, e.hash) != [] && e.ts <= SinceLast(s, e.hash)[0].ts
  {
    var f := SinceLastSplits(s, e.hash);
    var w := SinceLast(s, e.hash);
    var i :| 0 <= i < |s| && s[i] == e;
    assert s[|f|] == w[0];
    forall k | |f| < k < |s| ensures s[k].hash != e.hash {
      assert s[k] == w[1..][k - |f| - 1];
    }
  }

  lemma SinceSorted(before: seq<Registration>, since: seq<Registration>)
    requires NonDecreasing(before + since)
    ensures NonDecreasing(since)
  {
    forall i, j | 0 <= i < j < |since| ensures since[i].now <= since[j].now {
      assert (before + since)[|before| + i] == since[i] && (before + since)[|before| + j] == since[j];
    }
  }

  // ----- the follow-up matches on that replica -----

  /** The replica's index holds every whole block of request `q`. */
  ghost predicate HoldsBlocks(ttl: real, d: OrderedDict, h: string -> K.Digest, seed: string,
                              q: seq<K.Unit>, step: nat, now: real)
    requires step >= 1
  {
    var c := K.ChainOfUnits(h, seed, q, step);
    forall i :: 0 <= i < |c| && i < K.Whole(|q|, step) ==> Holds(ttl, d, c[i], now)
  }

  /** The follow-up matches at least the whole blocks of the earlier request. */
  lemma FollowUpMatches(ttl: real, d: OrderedDict, h: string -> K.Digest, seed: string,
                        q: seq<K.Unit>, r: seq<K.Unit>, step: nat, now: real, n: nat)
    requires step >= 1 && q <= r && HoldsBlocks(ttl, d, h, seed, q, step, now)
    requires LeadingRun(ttl, d, K.ChainOfUnits(h, seed, r, step), now, n)
    ensures n >= K.Whole(|q|, step)
  {
    hide K.Whole;
    var m := K.Whole(|q|, step);
    assert q[..|q|] == r[..|q|];
    K.SharedUnitsShareHashes(h, h(seed), q, r, step, |q|);
    var c, c' := K.ChainOfUnits(h, seed, q, step), K.ChainOfUnits(h, seed, r, step);
    forall i | 0 <= i < m ensures Holds(ttl, d, c'[i], now) {
      assert c'[..m][i] == c[..m][i];
    }
  }

  /** The blocks of a request are held if it is within the TTL and no more than `cap`
      distinct hashes were registered since. */
  lemma CountedBlocksAreHeld(ttl: real, cap: nat, before: seq<Registration>, since: seq<Registration>,
                             h: string -> K.Digest, seed: string, q: seq<K.Unit>, step: nat, now: real)
    requires step >= 1
    requires since != [] && NonDecreasing(before + since) && since[|since| - 1].now <= now
    requires since[0].chain == K.ChainOfUnits(h, seed, q, step) && Fresh(ttl, since[0].now, now)
    requires |Hashes(Flatten(since))| <= cap
    ensures HoldsBlocks(ttl, AfterRun(ttl, cap, before + since), h, seed, q, step, now)
  {
    forall x | x in since[0].chain ensures Holds(ttl, AfterRun(ttl, cap, before + since), x, now) {
      CountedIsHeld(ttl, cap, before, since, x, now);
    }
  }

  // ----- and wins -----

  lemma WarmScoreWins(pkv: PrefixSettings, s: View, o: View, matched: nat, blocks: nat)
    requires pkv.weightPrefix >= 0.0 && matched >= blocks
    requires Outweighs(pkv, s, o, blocks)
    ensures Score(pkv, o, 0) < Score(pkv, s, matched)
  {
    var w, l := pkv.weightPrefix, pkv.weightLoad;
    var a, b := s.status.inFlight as real, o.status.inFlight as real;
    assert (s.status.inFlight - o.status.inFlight) as real == a - b;
    assert l * (a - b) == l * a - l * b;
    assert w * matched as real - w * blocks as real == w * (matched - blocks) as real >= 0.0;
    assert w * 0.0 == 0.0;
  }

  /** Every other eligible deployment is cold and not so idle that its lower load
      outweighs `blocks` warm blocks. */
  ghost predicate RivalsAreWeak(pkv: PrefixSettings, e: seq<View>, matched: seq<nat>, i: nat, blocks: nat)
    requires |matched| == |e| && i < |e|
  {
    forall j :: 0 <= j < |e| && j != i ==> matched[j] == 0 && Outweighs(pkv, e[i], e[j], blocks)
  }

  ghost predicate Outweighs(pkv: PrefixSettings, s: View, o: View, blocks: nat) {
    pkv.weightPrefix * blocks as real > pkv.weightLoad * (s.status.inFlight - o.status.inFlight) as real
  }

  lemma WarmIsFirstMax(pkv: PrefixSettings, e: seq<View>, matched: seq<nat>, i: nat, blocks: nat, b: nat)
    requires |matched| == |e| && i < |e| && pkv.weightPrefix >= 0.0
    requires matched[i] >= blocks && RivalsAreWeak(pkv, e, matched, i, blocks)
    requires FirstMax(Scores(pkv, e, matched), b)
    ensures b == i
  {
    if b != i {
      WarmScoreWins(pkv, e[i], e[b], matched[i], blocks);
    }
  }

  /** `i` is the eligible deployment that served the earlier request. */
  lemma OnlyWarmIsPicked(pkv: PrefixSettings, e: seq<View>, matched: seq<nat>, counter: nat, i: nat, blocks: nat,
                         v: View)
    requires |matched| == |e| && i < |e| && blocks >= 1 && pkv.weightPrefix >= 0.0
    requires matched[i] >= blocks && RivalsAreWeak(pkv, e, matched, i, blocks)
    requires PrefixPicks(pkv, e, matched, counter, v)
    ensures v == e[i]
  {
    var k: nat :| k < |e| && e[k] == v && PrefixChoice(pkv, e, matched, counter, k);
    var b: nat :| FirstMax(Scores(pkv, e, matched), b) &&
      if matched[b] == 0 then MayChoose(pkv.coldFallback, e, counter, k) else k == b;
    WarmIsFirstMax(pkv, e, matched, i, blocks, b);
  }

  /** What the router found: at `s` the leading run of `chain` in `d`, elsewhere nothing
      that outweighs `blocks` warm blocks. */
  ghost predicate WarmOnlyAt(pkv: PrefixSettings, e: seq<View>, matched: seq<nat>, s: View,
                             ttl: real, d: OrderedDict, chain: seq<Hash>, now: real, blocks: nat)
    requires |matched| == |e|
  {
    forall i: nat :: i < |e| && e[i] == s ==>
      LeadingRun(ttl, d, chain, now, matched[i]) && RivalsAreWeak(pkv, e, matched, i, blocks)
  }

  /** After request `q` was sent to replica `s`, a request `r` that extends it goes to
      `s` again if `s` is in the pool and within the skew, its index `d` still holds the
      whole blocks of `q`, no other eligible replica matches, and `blocks` of them
      outweigh the difference in load; the largest such `blocks` is
      ⌊units of q / block size⌋. */
  lemma ConversationsStick(pkv: PrefixSettings, ttl: real, d: OrderedDict, h: string -> K.Digest, seed: string,
                           q: seq<K.Unit>, r: seq<K.Unit>, now: real, pool: seq<View>, e: seq<View>, s: View,
                           matched: seq<nat>, counter: nat, v: View, step: nat, blocks: nat)
    requires step >= 1 && step == K.Step(pkv.blockSize) && q <= r && blocks >= 1 && blocks * step <= |q|
    requires HoldsBlocks(ttl, d, h, seed, q, step, now)
    requires pkv.maxInflightSkew >= 0 && pkv.weightPrefix >= 0.0
    requires s in pool && WithinSkew(pkv.maxInflightSkew, pool, s)
    requires pool != [] && e == Eligible(pkv.maxInflightSkew, pool) && |matched| == |e|
    requires WarmOnlyAt(pkv, e, matched, s, ttl, d, K.ChainOfUnits(h, seed, r, step), now, blocks)
    requires PrefixPicks(pkv, e, matched, counter, v)
    ensures v == s
  {
    EligibleContents(pkv.maxInflightSkew, pool);
    assert s in e;
    var i: nat :| i < |e| && e[i] == s;
    FollowUpMatches(ttl, d, h, seed, q, r, step, now, matched[i]);
    WholeBlocksFit(|q|, step, blocks);
    OnlyWarmIsPicked(pkv, e, matched, counter, i, blocks, v);
  }

  lemma WholeBlocksFit(n: nat, step: nat, blocks: nat)
    requires step >= 1 && blocks * step <= n
    ensures blocks <= K.Whole(n, step)
  {
    hide K.Whole;
    AtMostQuotient(n, step, blocks, K.Whole(n, step));
  }

  lemma AtMostQuotient(n: nat, step: nat, blocks: nat, m: nat)
    requires blocks * step <= n < (m + 1) * step
    ensures blocks <= m
  {
    if blocks > m {
      K.BlockBound(m, blocks, step);
    }
  }
}
