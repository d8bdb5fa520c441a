/** Consecutive round-robin picks of one router take turns
    (src/kvgate/routing/router.py, strategies.py). */
module RoundRobin {
  import opened Basics
  import opened Deployment
  import opened Strategies
  import R = Router

  /** The picks so far, and where in the pool each of them was. */
  ghost predicate TookTurns(pool: seq<View>, c: nat, picked: seq<View>, at: seq<nat>) {
    && |picked| == |at| <= |pool|
    && forall u :: 0 <= u < |at| ==> MayChoose(RoundRobin, pool, c + u, at[u]) && pool[at[u]] == picked[u]
  }

  /** One pick, and whose turn it was. */
  method PickNext(router: R.Router, model: string, exclude: set<string>, poolNow: real, now: real,
                  ghost pool: seq<View>)
    returns (chosen: DeploymentState, ghost i: nat)
    requires router.Valid() && router.routing == R.Plain(RoundRobin)
    requires pool == R.Pool(R.Views(router.States(model)), exclude, poolNow) && pool != []
    modifies router, router.affinity
    ensures router.Valid() && router.Counter(model) == old(router.Counter(model)) + 1
    ensures MayChoose(RoundRobin, pool, old(router.Counter(model)), i) && pool[i] == R.ViewOf(chosen)
  {
    hide R.MayPick;
    assert R.Candidates(R.Views(router.States(model)), exclude) != [];
    var found := router.Pick(model, exclude, None, poolNow, now);
    chosen := found.value;
    i :| MayChoose(RoundRobin, pool, old(router.Counter(model)), i) && pool[i] == old(R.ViewOf(found.value));
  }

  /** As many picks as the pool has members, with nothing changing in between: every
      member is picked, hence each exactly once. */
  method PickRound(router: R.Router, model: string, exclude: set<string>, poolNow: real, now: real, n: nat)
    returns (picks: seq<DeploymentState>)
    requires router.Valid() && router.routing == R.Plain(RoundRobin)
    requires n == |R.Pool(R.Views(router.States(model)), exclude, poolNow)|
    modifies router, router.affinity
    ensures router.Valid() && |picks| == n
    ensures forall v :: v in R.Pool(R.Views(router.States(model)), exclude, poolNow) ==> v in R.Views(picks)
  {
    hide R.Pool, R.Views, MayChoose, TookTurns;
    ghost var views, c := R.Views(router.States(model)), router.Counter(model);
    ghost var pool := R.Pool(views, exclude, poolNow);
    picks := [];
    ghost var picked: seq<View>, at: seq<nat> := R.Views(picks), [];
    NoTurnsYet(pool, c, picked);
    for t := 0 to n
      invariant router.Valid() && router.Counter(model) == c + t
      invariant |picks| == |at| == t && picked == R.Views(picks) && views == R.Views(router.States(model))
      invariant TookTurns(pool, c, picked, at)
    {
      var chosen;
      ghost var i;
      chosen, i := PickNext(router, model, exclude, poolNow, now, pool);
      R.ViewsAppend(picks, chosen);
      TurnTaken(pool, c, picked, at, R.ViewOf(chosen), i);
      picks, picked, at := picks + [chosen], picked + [R.ViewOf(chosen)], at + [i];
    }
    EveryoneHadATurn(pool, c, picked, at);
  }

  lemma NoTurnsYet(pool: seq<View>, c: nat, picked: seq<View>)
    requires picked == []
    ensures TookTurns(pool, c, picked, [])
  {
  }

  lemma TurnTaken(pool: seq<View>, c: nat, picked: seq<View>, at: seq<nat>, v: View, i: nat)
    requires TookTurns(pool, c, picked, at) && |picked| < |pool|
    requires MayChoose(RoundRobin, pool, c + |at|, i) && pool[i] == v
    ensures TookTurns(pool, c, picked + [v], at + [i])
  {
  }

  lemma EveryoneHadATurn(pool: seq<View>, c: nat, picked: seq<View>, at: seq<nat>)
    requires TookTurns(pool, c, picked, at) && |picked| == |pool|
    ensures forall v :: v in pool ==> v in picked
  {
    forall v | v in pool ensures v in picked {
      var i: nat :| i < |pool| && pool[i] == v;
      var t := RoundRobinComesAround(pool, c, i);
      assert at[t] == i && picked[t] == v;
    }
  }
}
