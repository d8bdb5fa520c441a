/** The deployment-selection strategies (src/kvgate/routing/strategies.py), as the
    choices each allows on a snapshot of the deployments. */
module Strategies {
  import opened Deployment

  datatype Strategy = RoundRobin | Weighted | Latency | LeastBusy | Cost

  /** A deployment as a strategy sees it. */
  datatype View = View(key: string, dep: Dep, status: Status)

  function Max0(x: real): real {
    if x > 0.0 then x else 0.0
  }

  function TotalWeight(views: seq<View>): real {
    if views == [] then 0.0 else Max0(views[0].dep.weight) + TotalWeight(views[1..])
  }

  /** What `min` minimises; None for the strategies that do not minimise. */
  function Measure(strategy: Strategy, v: View): real {
    match strategy
    // Unmeasured deployments (average 0) are treated as fastest.
    case Latency => if v.status.ewmaLatency > 0.0 then v.status.ewmaLatency else -1.0
    case LeastBusy => v.status.inFlight as real
    case Cost => v.dep.costPer1kInput + v.dep.costPer1kOutput
    case _ => 0.0
  }

  ghost predicate FirstMinimum(strategy: Strategy, views: seq<View>, i: nat) {
    && i < |views|
    && (forall j :: 0 <= j < |views| ==> Measure(strategy, views[i]) <= Measure(strategy, views[j]))
    && (forall j :: 0 <= j < i ==> Measure(strategy, views[i]) < Measure(strategy, views[j]))
  }

  /** The indexes a strategy may return.  `weighted` draws at random among the
      deployments with positive weight. */
  ghost predicate MayChoose(strategy: Strategy, views: seq<View>, counter: nat, i: nat) {
    && i < |views|
    && match strategy
       case RoundRobin => i == counter % |views|
       case Weighted => if TotalWeight(views) <= 0.0 then i == counter % |views| else views[i].dep.weight > 0.0
       case _ => FirstMinimum(strategy, views, i)
  }

  /** The latency strategy tries unmeasured deployments first, and otherwise takes the
      fastest measured one. */
  lemma UnmeasuredFirst(views: seq<View>, counter: nat, i: nat, j: nat)
    requires MayChoose(Latency, views, counter, i) && j < |views|
    ensures views[j].status.ewmaLatency <= 0.0 ==> views[i].status.ewmaLatency <= 0.0 && i <= j
    ensures views[i].status.ewmaLatency <= views[j].status.ewmaLatency || views[i].status.ewmaLatency <= 0.0
  {
    assert Measure(Latency, views[i]) <= Measure(Latency, views[j]);
    if j < i {
      assert Measure(Latency, views[i]) < Measure(Latency, views[j]);
    }
  }

  /** The least-busy strategy takes the first deployment with the fewest in flight. */
  lemma LeastBusyPicksLeast(views: seq<View>, counter: nat, i: nat)
    ensures MayChoose(LeastBusy, views, counter, i) <==>
      && i < |views|
      && (forall j :: 0 <= j < |views| ==> views[i].status.inFlight <= views[j].status.inFlight)
      && (forall j :: 0 <= j < i ==> views[i].status.inFlight < views[j].status.inFlight)
  {
    assert forall v :: Measure(LeastBusy, v) == v.status.inFlight as real;
    if i < |views| && MayChoose(LeastBusy, views, counter, i) {
      forall j | 0 <= j < |views| ensures views[i].status.inFlight <= views[j].status.inFlight {
        assert Measure(LeastBusy, views[i]) <= Measure(LeastBusy, views[j]);
      }
    }
  }

  /** The cost strategy takes the first deployment of the least total price. */
  lemma CostPicksCheapest(views: seq<View>, counter: nat, i: nat)
    ensures MayChoose(Cost, views, counter, i) <==>
      && i < |views|
      && (forall j :: 0 <= j < |views| ==>
            views[i].dep.costPer1kInput + views[i].dep.costPer1kOutput
            <= views[j].dep.costPer1kInput + views[j].dep.costPer1kOutput)
      && (forall j :: 0 <= j < i ==>
            views[i].dep.costPer1kInput + views[i].dep.costPer1kOutput
            < views[j].dep.costPer1kInput + views[j].dep.costPer1kOutput)
  {
    assert forall v :: Measure(Cost, v) == v.dep.costPer1kInput + v.dep.costPer1kOutput;
    if i < |views| && MayChoose(Cost, views, counter, i) {
      forall j | 0 <= j < |views|
        ensures views[i].dep.costPer1kInput + views[i].dep.costPer1kOutput
             <= views[j].dep.costPer1kInput + views[j].dep.costPer1kOutput
      {
        assert Measure(Cost, views[i]) <= Measure(Cost, views[j]);
      }
    }
  }

  /** The weighted strategy draws among the positive weights, and falls back to round
      robin exactly if there are none. */
  lemma WeightedDrawsPositive(views: seq<View>, counter: nat, i: nat)
    requires i < |views|
    ensures MayChoose(Weighted, views, counter, i) <==>
      if exists j :: 0 <= j < |views| && views[j].dep.weight > 0.0 then views[i].dep.weight > 0.0
      else i == counter % |views|
  {
    if TotalWeight(views) > 0.0 {
      PositiveTotal(views);
    }
    if j :| 0 <= j < |views| && views[j].dep.weight > 0.0 {
      TotalIsPositive(views, j);
    }
  }

  lemma {:induction false} TotalIsPositive(views: seq<View>, j: nat)
    requires j < |views| && views[j].dep.weight > 0.0
    ensures TotalWeight(views) > 0.0
  {
    TotalNotNegative(views[1..]);
    if j == 0 {
    } else {
      TotalIsPositive(views[1..], j - 1);
    }
  }

  lemma {:induction false} TotalNotNegative(views: seq<View>)
    ensures TotalWeight(views) >= 0.0
  {
    if views == [] {
    } else {
      TotalNotNegative(views[1..]);
    }
  }

  /** Round robin on n deployments comes to each of them within n turns. */
  lemma RoundRobinComesAround(views: seq<View>, counter: nat, i: nat) returns (t: nat)
    requires i < |views|
    ensures t < |views| && MayChoose(RoundRobin, views, counter + t, i)
  {
    var n := |views|;
    var c := counter % n;
    t := if c <= i then i - c else i + n - c;
    TurnAt(counter, t, n);
  }

  /** And to no one twice. */
  lemma RoundRobinTakesTurns(views: seq<View>, counter: nat, t: nat, u: nat, i: nat, j: nat)
    requires t < u < |views|
    requires MayChoose(RoundRobin, views, counter + t, i) && MayChoose(RoundRobin, views, counter + u, j)
    ensures i != j
  {
    TurnAt(counter, t, |views|);
    TurnAt(counter, u, |views|);
  }

  lemma TurnAt(counter: nat, t: nat, n: nat)
    requires t < n
    ensures (counter + t) % n == var s := counter % n + t; if s < n then s else s - n
  {
    var q, s := counter / n, counter % n + t;
    assert counter == q * n + counter % n;
    if s < n {
      Remainder(q, n, s);
    } else {
      assert (q + 1) * n == q * n + n;
      Remainder(q + 1, n, s - n);
    }
  }

  lemma Remainder(q: nat, n: nat, s: nat)
    requires s < n
    ensures (q * n + s) % n == s
  {
    var x := q * n + s;
    var d := x / n - q;
    assert x == x / n * n + x % n;
    assert x / n * n == q * n + d * n;
    Multiple(d, n);
  }

  lemma Multiple(d: int, n: nat)
    ensures d >= 1 ==> d * n >= n
    ensures d <= -1 ==> d * n + n <= 0
  {
  }

  lemma {:induction false} PositiveTotal(views: seq<View>)
    requires TotalWeight(views) > 0.0
    ensures exists i :: 0 <= i < |views| && views[i].dep.weight > 0.0
  {
    if views[0].dep.weight > 0.0 {
    } else {
      PositiveTotal(views[1..]);
      var i :| 0 <= i < |views[1..]| && views[1..][i].dep.weight > 0.0;
      assert views[i + 1].dep.weight > 0.0;
    }
  }

  method Choose(strategy: Strategy, views: seq<View>, counter: nat) returns (i: nat)
    requires views != []
    ensures MayChoose(strategy, views, counter, i)
  {
    match strategy
    case RoundRobin => i := counter % |views|;
    case Weighted =>
      if TotalWeight(views) <= 0.0 {
        i := counter % |views|;
      } else {
        PositiveTotal(views);
        i :| 0 <= i < |views| && views[i].dep.weight > 0.0;
      }
    case _ =>
      i := 0;
      for j := 1 to |views|
        invariant i < j
        invariant forall k :: 0 <= k < j ==> Measure(strategy, views[i]) <= Measure(strategy, views[k])
        invariant forall k :: 0 <= k < i ==> Measure(strategy, views[i]) < Measure(strategy, views[k])
      {
        if Measure(strategy, views[j]) < Measure(strategy, views[i]) {
          i := j;
        }
      }
  }
}
