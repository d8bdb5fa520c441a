/** Many gateways sharing one Redis index: the pipeline of `register` is not a
    transaction and `_trim` reads before it deletes, so the commands of different
    gateways interleave (src/kvgate/routing/affinity_redis.py). */
module SharedRedis {
  import opened Basics
  import opened Affinity
  import opened RedisAffinity

  type Gateway = nat

  /** Where a gateway is inside `register`.  A gateway is synchronous: one call at a time. */
  datatype Phase =
    | Idle
    | Started(replica: Replica, chain: seq<Hash>, now: real)  // before HSET
    | Written(replica: Replica, now: real)                    // before EXPIRE
    | Counting(replica: Replica, now: real)                   // before HLEN
    | Trimming(replica: Replica, now: real)                   // before HGETALL
    | Dropping(replica: Replica, drop: seq<Hash>)             // before HDEL

  /** An HSET in the order the server executed them. */
  datatype Write = Write(replica: Replica, chain: seq<Hash>, now: real)

  datatype State = State(
    keys: map<Replica, Key>, gateways: seq<Phase>, clock: real,
    log: seq<Write>)

  datatype Action =
    | Tick(clock: real)
    | Begin(g: Gateway, replica: Replica, chain: seq<Hash>)
    | HSet(g: Gateway)
    | Expire(g: Gateway)
    | HLen(g: Gateway)
    | HGetAll(g: Gateway, drop: seq<Hash>)
    | HDel(g: Gateway)

  function Get(s: State, r: Replica): Key {
    if r in s.keys then Visible(s.keys[r], s.clock) else NO_KEY
  }

  ghost predicate Init(s: State) {
    s.keys == map[] && s.log == [] && forall g :: 0 <= g < |s.gateways| ==> s.gateways[g] == Idle
  }

  /** Gateway `g` moves to `p`; the key it works on becomes `k`. */
  function Move(s: State, g: Gateway, p: Phase, r: Replica, k: Key): State
    requires g < |s.gateways|
  {
    s.(gateways := s.gateways[g := p], keys := s.keys[r := k])
  }

  /** What one gateway may decide to delete after reading `f`. */
  ghost predicate MayDrop(ttl: real, cap: nat, f: Fields, now: real, drop: seq<Hash>) {
    (forall h :: h in drop ==> h in f) && Trimmed(ttl, cap, f, now, Except(f, drop))
  }

  ghost predicate Enabled(ttl: real, cap: nat, s: State, a: Action) {
    match a
    case Tick(clock) => s.clock <= clock
    case Begin(g, replica, chain) => g < |s.gateways| && s.gateways[g].Idle? && chain != []
    case HSet(g) => g < |s.gateways| && s.gateways[g].Started?
    case Expire(g) => g < |s.gateways| && s.gateways[g].Written?
    case HLen(g) => g < |s.gateways| && s.gateways[g].Counting?
    case HGetAll(g, drop) =>
      && g < |s.gateways| && s.gateways[g].Trimming?
      && MayDrop(ttl, cap, Get(s, s.gateways[g].replica).fields, s.gateways[g].now, drop)
    case HDel(g) => g < |s.gateways| && s.gateways[g].Dropping?
  }

  ghost function Next(ttl: real, cap: nat, s: State, a: Action): State
    requires Enabled(ttl, cap, s, a)
  {
    match a
    case Tick(clock) => s.(clock := clock)
    case Begin(g, replica, chain) => s.(gateways := s.gateways[g := Started(replica, chain, s.clock)])
    case HSet(g) =>
      var p := s.gateways[g];
      var k := Get(s, p.replica);
      Move(s, g, if ttl > 0.0 then Written(p.replica, p.now) else Counting(p.replica, p.now),
           p.replica, k.(fields := k.fields + FromKeys(p.chain, p.now)))
        .(log := s.log + [Write(p.replica, p.chain, p.now)])
    case Expire(g) =>
      var p := s.gateways[g];
      var k := Get(s, p.replica);
      // EXPIRE of a key that is gone does nothing.
      Move(s, g, Counting(p.replica, p.now), p.replica,
           if k.fields == map[] then NO_KEY else k.(deadline := NewDeadline(ttl, k, s.clock)))
    case HLen(g) =>
      var p := s.gateways[g];
      Move(s, g, if |Get(s, p.replica).fields| > cap then Trimming(p.replica, p.now) else Idle,
           p.replica, Get(s, p.replica))
    case HGetAll(g, drop) =>
      var p := s.gateways[g];
      Move(s, g, if drop == [] then Idle else Dropping(p.replica, drop), p.replica, Get(s, p.replica))
    case HDel(g) =>
      var p := s.gateways[g];
      var k := Get(s, p.replica);
      Move(s, g, Idle, p.replica, Stored(Except(k.fields, p.drop), k.deadline))
  }

  /** The commands `actions`, interleaved in this order, lead from `s` to `s'`. */
  ghost predicate Run(ttl: real, cap: nat, s: State, actions: seq<Action>, s': State)
    decreases |actions|
  {
    if actions == [] then s' == s
    else Enabled(ttl, cap, s, actions[0]) && Run(ttl, cap, Next(ttl, cap, s, actions[0]), actions[1..], s')
  }

  // ----- what the log says -----

  /** The time of the last write of `h` for `r`. */
  function LastWrite(log: seq<Write>, r: Replica, h: Hash): Option<real> {
    if log == [] then None
    else
      var w := log[|log| - 1];
      if w.replica == r && h in w.chain then Some(w.now) else LastWrite(log[..|log| - 1], r, h)
  }

  ghost predicate MatchesLog(s: State) {
    forall r, h :: r in s.keys && h in s.keys[r].fields ==> LastWrite(s.log, r, h) == Some(s.keys[r].fields[h])
  }

  // ----- who will bring a key back under the cap -----

  ghost predicate WillFit(cap: nat, s: State, r: Replica, g: Gateway) {
    && g < |s.gateways|
    && !s.gateways[g].Idle? && !s.gateways[g].Started? && s.gateways[g].replica == r
    && (s.gateways[g].Dropping? ==> |Except(Get(s, r).fields, s.gateways[g].drop)| <= cap)
  }

  ghost predicate Fits(cap: nat, s: State, r: Replica) {
    |Get(s, r).fields| <= cap || exists g :: WillFit(cap, s, r, g)
  }

  ghost predicate Inv(cap: nat, s: State) {
    MatchesLog(s) && forall r :: Fits(cap, s, r)
  }

  // ----- every step keeps the invariant -----

  lemma LogStep(ttl: real, cap: nat, s: State, a: Action)
    requires MatchesLog(s) && Enabled(ttl, cap, s, a)
    ensures MatchesLog(Next(ttl, cap, s, a))
  {
    var s' := Next(ttl, cap, s, a);
    if a.HSet? {
      hide Visible;
      assert s'.log[..|s'.log| - 1] == s.log;
    }
  }

  lemma SmallerFields(f: Fields, g: Fields)
    requires g.Keys <= f.Keys
    ensures |g| <= |f|
  {
    assert f.Keys == g.Keys + (f.Keys - g.Keys);
    assert |f.Keys| == |f| && |g.Keys| == |g|;
  }

  /** Without a new HSET, nothing the fixer of a key relies on can grow. */
  lemma StillFits(cap: nat, s: State, s': State, r: Replica, g: Gateway)
    requires WillFit(cap, s, r, g)
    requires |s'.gateways| == |s.gateways| && s'.gateways[g] == s.gateways[g]
    requires Get(s', r).fields.Keys <= Get(s, r).fields.Keys
    ensures WillFit(cap, s', r, g)
  {
    if s.gateways[g].Dropping? {
      SmallerFields(Except(Get(s, r).fields, s.gateways[g].drop), Except(Get(s', r).fields, s.gateways[g].drop));
    }
  }

  /** The step of the fixer itself. */
  lemma FixerStep(ttl: real, cap: nat, s: State, a: Action, r: Replica)
    requires Enabled(ttl, cap, s, a) && (a.Expire? || a.HLen? || a.HGetAll? || a.HDel?)
    requires s.gateways[a.g].replica == r && WillFit(cap, s, r, a.g)
    ensures Fits(cap, Next(ttl, cap, s, a), r)
  {
    var s' := Next(ttl, cap, s, a);
    match a
    case Expire(g) =>
      assert WillFit(cap, s', r, g);
    case HLen(g) =>
      if |Get(s, r).fields| > cap {
        assert WillFit(cap, s', r, g);
      }
    case HGetAll(g, drop) =>
      if drop == [] {
        assert Except(Get(s, r).fields, drop) == Get(s, r).fields;
      } else {
        assert WillFit(cap, s', r, g);
      }
    case HDel(g) =>
  }

  lemma FitsStep(ttl: real, cap: nat, s: State, a: Action, r: Replica)
    requires Enabled(ttl, cap, s, a) && Fits(cap, s, r)
    ensures Fits(cap, Next(ttl, cap, s, a), r)
  {
    var s' := Next(ttl, cap, s, a);
    if a.HSet? && s.gateways[a.g].replica == r {
      assert WillFit(cap, s', r, a.g);
    } else {
      SmallerFields(Get(s, r).fields, Get(s', r).fields);
      if |Get(s, r).fields| > cap {
        var g :| WillFit(cap, s, r, g);
        if !a.Tick? && a.g == g {
          FixerStep(ttl, cap, s, a, r);
        } else {
          StillFits(cap, s, s', r, g);
        }
      }
    }
  }

  lemma {:induction false} RunKeepsInv(ttl: real, cap: nat, s: State, actions: seq<Action>, s': State)
    requires Inv(cap, s) && Run(ttl, cap, s, actions, s')
    ensures Inv(cap, s')
    decreases |actions|
  {
    if actions == [] {
    } else {
      LogStep(ttl, cap, s, actions[0]);
      forall r ensures Fits(cap, Next(ttl, cap, s, actions[0]), r) {
        FitsStep(ttl, cap, s, actions[0], r);
      }
      RunKeepsInv(ttl, cap, Next(ttl, cap, s, actions[0]), actions[1..], s');
    }
  }

  // ----- the theorems -----

  /** At every moment of every interleaving, `matched_blocks` counts only hashes whose
      last write was a registration for that replica within the TTL. */
  lemma MatchedOnlyRegistered(ttl: real, cap: nat, s0: State, actions: seq<Action>, s: State, r: Replica,
                              chain: seq<Hash>, now: real, n: nat)
    requires Init(s0) && Run(ttl, cap, s0, actions, s)
    requires LeadingFields(ttl, Get(s, r).fields, chain, now, n)
    ensures forall j :: 0 <= j < n ==>
      var last := LastWrite(s.log, r, chain[j]);
      last.Some? && Fresh(ttl, last.value, now)
  {
    RunKeepsInv(ttl, cap, s0, actions, s);
  }

  /** Once every gateway has finished, no replica's hash is over the cap. */
  lemma QuiescentFitsCap(ttl: real, cap: nat, s0: State, actions: seq<Action>, s: State, r: Replica)
    requires Init(s0) && Run(ttl, cap, s0, actions, s)
    requires forall g :: 0 <= g < |s.gateways| ==> s.gateways[g].Idle?
    ensures |Get(s, r).fields| <= cap
  {
    RunKeepsInv(ttl, cap, s0, actions, s);
    assert Fits(cap, s, r);
  }

  // ----- one gateway alone -----

  /** The pipeline of `register`, uninterrupted. */
  ghost function Pipeline(ttl: real, cap: nat, s: State, g: Gateway, r: Replica, chain: seq<Hash>): State
    requires g < |s.gateways| && s.gateways[g].Idle? && chain != []
  {
    var written := Next(ttl, cap, Next(ttl, cap, s, Begin(g, r, chain)), HSet(g));
    Next(ttl, cap, if ttl > 0.0 then Next(ttl, cap, written, Expire(g)) else written, HLen(g))
  }

  /** `_trim`, uninterrupted. */
  ghost function Trim(ttl: real, cap: nat, s: State, g: Gateway, drop: seq<Hash>): State
    requires Enabled(ttl, cap, s, HGetAll(g, drop))
  {
    var read := Next(ttl, cap, s, HGetAll(g, drop));
    if drop == [] then read else Next(ttl, cap, read, HDel(g))
  }

  lemma BeginKey(ttl: real, cap: nat, s: State, g: Gateway, r: Replica, chain: seq<Hash>)
    requires g < |s.gateways| && s.gateways[g].Idle? && chain != []
    ensures var s' := Next(ttl, cap, s, Begin(g, r, chain));
            s' == s.(gateways := s.gateways[g := Started(r, chain, s.clock)])
  {
  }

  lemma WriteKey(ttl: real, cap: nat, s: State, g: Gateway, r: Replica, chain: seq<Hash>)
    requires g < |s.gateways| && s.gateways[g].Idle? && chain != []
    ensures var s' := Next(ttl, cap, Next(ttl, cap, s, Begin(g, r, chain)), HSet(g));
            && Get(s', r) == Get(s, r).(fields := Get(s, r).fields + FromKeys(chain, s.clock))
            && s'.clock == s.clock && s'.log == s.log + [Write(r, chain, s.clock)]
            && s'.gateways == s.gateways[g := if ttl > 0.0 then Written(r, s.clock) else Counting(r, s.clock)]
  {
  }

  lemma ExpireKey(ttl: real, cap: nat, s: State, g: Gateway, r: Replica)
    requires g < |s.gateways| && s.gateways[g].Written? && s.gateways[g].replica == r && ttl > 0.0
    ensures var s', k := Next(ttl, cap, s, Expire(g)), Get(s, r);
            && Get(s', r) == (if k.fields == map[] then NO_KEY else k.(deadline := NewDeadline(ttl, k, s.clock)))
            && s'.clock == s.clock && s'.log == s.log
            && s'.gateways == s.gateways[g := Counting(r, s.gateways[g].now)]
  {
  }

  lemma CountKey(ttl: real, cap: nat, s: State, g: Gateway, r: Replica)
    requires g < |s.gateways| && s.gateways[g].Counting? && s.gateways[g].replica == r
    ensures var s' := Next(ttl, cap, s, HLen(g));
            && Get(s', r) == Get(s, r) && s'.clock == s.clock && s'.log == s.log
            && s'.gateways == s.gateways[g :=
                 if |Get(s, r).fields| > cap then Trimming(r, s.gateways[g].now) else Idle]
  {
  }

  lemma ReadKey(ttl: real, cap: nat, s: State, g: Gateway, r: Replica, drop: seq<Hash>)
    requires Enabled(ttl, cap, s, HGetAll(g, drop)) && s.gateways[g].replica == r
    ensures var s' := Next(ttl, cap, s, HGetAll(g, drop));
            && Get(s', r) == Get(s, r) && s'.clock == s.clock && s'.log == s.log
            && s'.gateways == s.gateways[g := if drop == [] then Idle else Dropping(r, drop)]
  {
  }

  lemma DropKey(ttl: real, cap: nat, s: State, g: Gateway, r: Replica)
    requires g < |s.gateways| && s.gateways[g].Dropping? && s.gateways[g].replica == r
    ensures var s', k := Next(ttl, cap, s, HDel(g)), Get(s, r);
            && Get(s', r) == Stored(Except(k.fields, s.gateways[g].drop), k.deadline)
            && s'.clock == s.clock && s'.log == s.log && s'.gateways == s.gateways[g := Idle]
  {
  }

  lemma TickKey(ttl: real, cap: nat, s: State, r: Replica, clock: real)
    requires s.clock <= clock
    ensures var s' := Next(ttl, cap, s, Tick(clock));
            && Get(s', r) == Visible(Get(s, r), clock)
            && s'.clock == clock && s'.log == s.log && s'.gateways == s.gateways
  {
  }

  lemma PipelineKey(ttl: real, cap: nat, s: State, g: Gateway, r: Replica, chain: seq<Hash>)
    requires g < |s.gateways| && s.gateways[g].Idle? && chain != []
    ensures var f, s' := Get(s, r).fields + FromKeys(chain, s.clock), Pipeline(ttl, cap, s, g, r, chain);
            && Get(s', r) == Key(f, NewDeadline(ttl, Get(s, r), s.clock))
            && s'.clock == s.clock && s'.log == s.log + [Write(r, chain, s.clock)]
            && s'.gateways == s.gateways[g := if |f| > cap then Trimming(r, s.clock) else Idle]
  {
    hide Next;
    BeginKey(ttl, cap, s, g, r, chain);
    var written := Next(ttl, cap, Next(ttl, cap, s, Begin(g, r, chain)), HSet(g));
    WriteKey(ttl, cap, s, g, r, chain);
    assert chain[0] in Get(written, r).fields.Keys;
    if ttl > 0.0 {
      ExpireKey(ttl, cap, written, g, r);
      CountKey(ttl, cap, Next(ttl, cap, written, Expire(g)), g, r);
    } else {
      CountKey(ttl, cap, written, g, r);
    }
  }

  lemma TrimKey(ttl: real, cap: nat, s: State, g: Gateway, r: Replica, drop: seq<Hash>)
    requires Enabled(ttl, cap, s, HGetAll(g, drop)) && s.gateways[g] == Trimming(r, s.clock)
    ensures var s' := Trim(ttl, cap, s, g, drop);
            && |s'.gateways| == |s.gateways| && s'.gateways[g].Idle?
            && Get(s', r).fields == Except(Get(s, r).fields, drop)
            && (Get(s', r).fields != map[] ==> Get(s', r).deadline == Get(s, r).deadline)
  {
    if drop == [] {
      assert Except(Get(s, r).fields, drop) == Get(s, r).fields;
    }
  }

  /** A gateway that is not interrupted performs exactly a `register` of the
      single-gateway model. */
  lemma UninterruptedIsRegister(ttl: real, cap: nat, s: State, g: Gateway, r: Replica, chain: seq<Hash>,
                                drop: seq<Hash>)
    requires cap >= 1
    requires g < |s.gateways| && s.gateways[g].Idle? && chain != []
    ensures var s' := Pipeline(ttl, cap, s, g, r, chain);
            && |s'.gateways| == |s.gateways|
            && (s'.gateways[g].Idle? ==> MayRegister(ttl, cap, Get(s, r), chain, s.clock, Get(s', r)))
            && (Enabled(ttl, cap, s', HGetAll(g, drop)) ==>
                  MayRegister(ttl, cap, Get(s, r), chain, s.clock, Get(Trim(ttl, cap, s', g, drop), r)))
  {
    PipelineKey(ttl, cap, s, g, r, chain);
    var s' := Pipeline(ttl, cap, s, g, r, chain);
    if Enabled(ttl, cap, s', HGetAll(g, drop)) {
      TrimKey(ttl, cap, s', g, r, drop);
      ChainSurvives(ttl, cap, Get(s, r).fields, chain, s.clock, Except(Get(s', r).fields, drop));
    }
  }
}
