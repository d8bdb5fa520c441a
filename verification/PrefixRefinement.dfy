/** The index refines brute force: counting leading hashes it holds is the longest
    common block prefix with anything the replica served within the TTL. */
module PrefixRefinement {
  import opened Keying
  import opened Affinity
  import opened AffinityHistory

  /** A request served by one replica, as its blocks of units. */
  datatype Request = Request(blocks: seq<Block>, now: real)

  /** The registrations those requests cause. */
  function Registrations(h: string -> Digest, seed: string, reqs: seq<Request>): seq<Registration> {
    seq(|reqs|, k requires 0 <= k < |reqs| => Registration(Chain(h, h(seed), reqs[k].blocks), reqs[k].now))
  }

  /** The number of leading blocks two requests share. */
  function Common(a: seq<Block>, b: seq<Block>): (n: nat)
    ensures n <= |a| && n <= |b| && a[..n] == b[..n]
    ensures n < |a| && n < |b| ==> a[n] != b[n]
    decreases |a|
  {
    if a == [] || b == [] || a[0] != b[0] then 0
    else
      var m := Common(a[1..], b[1..]);
      assert a[..m + 1] == [a[0]] + a[1..][..m] && b[..m + 1] == [b[0]] + b[1..][..m];
      m + 1
  }

  /** Brute force: the best common prefix with a request served within the TTL. */
  function Best(ttl: real, reqs: seq<Request>, q: seq<Block>, now: real): (best: nat)
    ensures forall k :: 0 <= k < |reqs| && Fresh(ttl, reqs[k].now, now) ==> Common(reqs[k].blocks, q) <= best
    ensures best > 0 ==>
      exists k :: 0 <= k < |reqs| && Fresh(ttl, reqs[k].now, now) && Common(reqs[k].blocks, q) == best
  {
    if reqs == [] then 0
    else
      var front, last := reqs[..|reqs| - 1], reqs[|reqs| - 1];
      var rest := Best(ttl, front, q, now);
      assert forall k :: 0 <= k < |front| ==> front[k] == reqs[k];
      if Fresh(ttl, last.now, now) && Common(last.blocks, q) > rest then Common(last.blocks, q) else rest
  }

  // ----- registered hashes -----

  ghost predicate Wrote(run: seq<Registration>, k: nat, e: Entry) {
    k < |run| && e.ts == run[k].now && e.hash in run[k].chain
  }

  lemma TouchesContents(chain: seq<Hash>, now: real, e: Entry)
    ensures e in Touches(chain, now) <==> e.ts == now && e.hash in chain
  {
    if e.ts == now && e.hash in chain {
      var j :| 0 <= j < |chain| && chain[j] == e.hash;
      assert Touches(chain, now)[j] == e;
    }
  }

  lemma {:induction false} FlattenContents(run: seq<Registration>, e: Entry)
    ensures e in Flatten(run) <==> exists k: nat :: Wrote(run, k, e)
  {
    if run == [] {
    } else {
      var front, n := run[..|run| - 1], |run| - 1;
      FlattenContents(front, e);
      TouchesContents(run[n].chain, run[n].now, e);
      if e in Flatten(run) {
        if k: nat :| Wrote(front, k, e) {
          assert Wrote(run, k, e);
        } else {
          assert Wrote(run, n, e);
        }
      }
      if k: nat :| Wrote(run, k, e) && k < n {
        assert Wrote(front, k, e);
      }
    }
  }

  /** A hash written with a fresh time is still fresh at its last occurrence. */
  lemma {:induction false} FreshAtLast(ttl: real, f: seq<Entry>, e: Entry, now: real)
    requires Sorted(f) && e in f && Fresh(ttl, e.ts, now)
    ensures Holds(ttl, LastOccurrences(f), e.hash, now)
  {
    var g := f[1..];
    if e.hash in Hashes(g) {
      var e' :| e' in g && e'.hash == e.hash && (e in g ==> e' == e);
      assert e.ts <= e'.ts;
      FreshAtLast(ttl, g, e', now);
      var w :| w in LastOccurrences(g) && w.hash == e.hash && Fresh(ttl, w.ts, now);
      assert w in LastOccurrences(f);
    } else {
      assert e == f[0] && e in LastOccurrences(f);
    }
  }

  /** The dictionary holds `x` fresh only if some registration within the TTL wrote it;
      when the live history fits the cap, exactly then. */
  lemma HeldIffRegistered(ttl: real, cap: nat, run: seq<Registration>, x: Hash, now: real)
    requires NonDecreasing(run) && run != [] && run[|run| - 1].now <= now
    ensures var registered := exists k :: 0 <= k < |run| && x in run[k].chain && Fresh(ttl, run[k].now, now);
            && (Holds(ttl, AfterRun(ttl, cap, run), x, now) ==> registered)
            && (FitsCap(ttl, cap, run) && registered ==> Holds(ttl, AfterRun(ttl, cap, run), x, now))
  {
    var f, t := Flatten(run), run[|run| - 1].now;
    HistoryCharacterisation(ttl, cap, run);
    SweepContents(ttl, LastOccurrences(f), t);
    LastHashes(f);
    if e :| e in AfterRun(ttl, cap, run) && e.hash == x && Fresh(ttl, e.ts, now) {
      assert e in f;
      FlattenContents(run, e);
      var k: nat :| Wrote(run, k, e);
      assert x in run[k].chain && Fresh(ttl, run[k].now, now);
    }
    if k :| FitsCap(ttl, cap, run) && 0 <= k < |run| && x in run[k].chain && Fresh(ttl, run[k].now, now) {
      assert Wrote(run, k, Entry(x, run[k].now));
      FlattenContents(run, Entry(x, run[k].now));
      FlattenSorted(run);
      FreshAtLast(ttl, f, Entry(x, run[k].now), now);
      var w :| w in LastOccurrences(f) && w.hash == x && Fresh(ttl, w.ts, now);
      assert w in AfterRun(ttl, cap, run);
    }
  }

  /** No more than `cap` distinct hashes are live after the run. */
  predicate FitsCap(ttl: real, cap: nat, run: seq<Registration>) {
    run != [] ==> |Sweep(ttl, LastOccurrences(Flatten(run)), run[|run| - 1].now)| <= cap
  }

  // ----- the theorem -----

  lemma HeldMeansShared(h: string -> Digest, seed: string, ttl: real, cap: nat, reqs: seq<Request>, q: seq<Block>,
                        now: real, i: nat)
    requires IdealHash(h) && CHAIN_SEP !in seed
    requires CleanBlocks(q) && forall r :: r in reqs ==> CleanBlocks(r.blocks)
    requires NonDecreasing(Registrations(h, seed, reqs)) && forall r :: r in reqs ==> r.now <= now
    requires i < |q|
    requires Holds(ttl, AfterRun(ttl, cap, Registrations(h, seed, reqs)), Chain(h, h(seed), q)[i], now)
    ensures i < Best(ttl, reqs, q, now)
  {
    hide IdealHash, Chain, Common, Fresh, CleanBlock;
    var run := Registrations(h, seed, reqs);
    assert run != [];
    HeldIffRegistered(ttl, cap, run, Chain(h, h(seed), q)[i], now);
    var k :| 0 <= k < |run| && Chain(h, h(seed), q)[i] in run[k].chain && Fresh(ttl, run[k].now, now);
    var j :| 0 <= j < |run[k].chain| && run[k].chain[j] == Chain(h, h(seed), q)[i];
    ChainExact(h, seed, reqs[k].blocks, q, j, i);
    SamePrefix(reqs[k].blocks, q, i + 1);
  }

  lemma SamePrefix(a: seq<Block>, b: seq<Block>, n: nat)
    requires n <= |a| && n <= |b|
    ensures a[..n] == b[..n] <==> n <= Common(a, b)
  {
    var m := Common(a, b);
    if n <= m {
      assert a[..n] == a[..m][..n] && b[..n] == b[..m][..n];
    } else {
      assert a[..n][m] == a[m] && b[..n][m] == b[m];
    }
  }

  /** `matched_blocks` never exceeds the longest common block prefix with a request
      served within the TTL, and equals it when the cap evicts nothing live. */
  lemma MatchedRefinesBruteForce(h: string -> Digest, seed: string, ttl: real, cap: nat, reqs: seq<Request>,
                                 q: seq<Block>, now: real, n: nat)
    requires IdealHash(h) && CHAIN_SEP !in seed
    requires CleanBlocks(q) && forall r :: r in reqs ==> CleanBlocks(r.blocks)
    requires NonDecreasing(Registrations(h, seed, reqs)) && forall r :: r in reqs ==> r.now <= now
    requires LeadingRun(ttl, AfterRun(ttl, cap, Registrations(h, seed, reqs)), Chain(h, h(seed), q), now, n)
    ensures n <= Best(ttl, reqs, q, now)
    ensures FitsCap(ttl, cap, Registrations(h, seed, reqs)) ==> n == Best(ttl, reqs, q, now)
  {
    hide IdealHash, AfterRun, Chain, FitsCap;
    var run := Registrations(h, seed, reqs);
    if n > 0 {
      HeldMeansShared(h, seed, ttl, cap, reqs, q, now, n - 1);
    }
    var best := Best(ttl, reqs, q, now);
    if FitsCap(ttl, cap, run) && n < best {
      var k :| 0 <= k < |reqs| && Fresh(ttl, reqs[k].now, now) && Common(reqs[k].blocks, q) == best;
      SamePrefix(reqs[k].blocks, q, n + 1);
      ChainExact(h, seed, reqs[k].blocks, q, n, n);
      var x := Chain(h, h(seed), q)[n];
      assert run[k].chain[n] == x;
      HeldIffRegistered(ttl, cap, run, x, now);
    }
  }
}
