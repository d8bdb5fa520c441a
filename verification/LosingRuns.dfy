/** Runs in which the shared Redis index forgets a write, and so exactly when it never
    does (src/kvgate/routing/affinity_redis.py). */
module LosingRuns {
  import opened Basics
  import opened Affinity
  import opened RedisAffinity
  import opened SharedRedis
  import opened Forgetting

  // ----- building runs -----

  /** A run so far, prompt for `r`. */
  ghost predicate Reaches(ttl: real, cap: nat, r: Replica, s0: State, actions: seq<Action>, s: State) {
    Run(ttl, cap, s0, actions, s) && Prompt(ttl, cap, s0, actions, r)
  }

  lemma {:induction false} RunOneMore(ttl: real, cap: nat, s0: State, actions: seq<Action>, s: State, a: Action)
    requires Run(ttl, cap, s0, actions, s) && Enabled(ttl, cap, s, a)
    ensures Run(ttl, cap, s0, actions + [a], Next(ttl, cap, s, a))
    decreases |actions|
  {
    if actions == [] {
      assert ([] + [a])[1..] == [];
    } else {
      RunOneMore(ttl, cap, Next(ttl, cap, s0, actions[0]), actions[1..], s, a);
      assert (actions + [a])[1..] == actions[1..] + [a];
    }
  }

  lemma {:induction false} PromptOneMore(ttl: real, cap: nat, r: Replica, s0: State, actions: seq<Action>, s: State,
                                         a: Action)
    requires Reaches(ttl, cap, r, s0, actions, s) && Enabled(ttl, cap, s, a)
    requires a.Tick? ==> !Pending(s, r)
    ensures Prompt(ttl, cap, s0, actions + [a], r)
    decreases |actions|
  {
    if actions == [] {
      assert ([] + [a])[1..] == [];
    } else {
      PromptOneMore(ttl, cap, r, Next(ttl, cap, s0, actions[0]), actions[1..], s, a);
      assert (actions + [a])[1..] == actions[1..] + [a];
    }
  }

  lemma OneMore(ttl: real, cap: nat, r: Replica, s0: State, actions: seq<Action>, s: State, a: Action)
      returns (actions': seq<Action>, s': State)
    requires Reaches(ttl, cap, r, s0, actions, s) && Enabled(ttl, cap, s, a)
    requires a.Tick? ==> !Pending(s, r)
    ensures s' == Next(ttl, cap, s, a) && Reaches(ttl, cap, r, s0, actions', s')
  {
    actions', s' := actions + [a], Next(ttl, cap, s, a);
    RunOneMore(ttl, cap, s0, actions, s, a);
    PromptOneMore(ttl, cap, r, s0, actions, s, a);
  }

  /** One gateway runs its pipeline, uninterrupted. */
  lemma RunPipeline(ttl: real, cap: nat, r: Replica, s0: State, actions: seq<Action>, s: State, g: Gateway,
                    chain: seq<Hash>)
      returns (actions': seq<Action>, s': State)
    requires Reaches(ttl, cap, r, s0, actions, s)
    requires g < |s.gateways| && s.gateways[g].Idle? && chain != []
    ensures s' == Pipeline(ttl, cap, s, g, r, chain) && Reaches(ttl, cap, r, s0, actions', s')
  {
    hide Reaches;
    actions', s' := OneMore(ttl, cap, r, s0, actions, s, Begin(g, r, chain));
    actions', s' := OneMore(ttl, cap, r, s0, actions', s', HSet(g));
    if ttl > 0.0 {
      actions', s' := OneMore(ttl, cap, r, s0, actions', s', Expire(g));
    }
    actions', s' := OneMore(ttl, cap, r, s0, actions', s', HLen(g));
  }

  lemma Extend(ttl: real, cap: nat, s0: State, actions: seq<Action>, s: State, a: Action)
      returns (actions': seq<Action>, s': State)
    requires Run(ttl, cap, s0, actions, s) && Enabled(ttl, cap, s, a)
    ensures s' == Next(ttl, cap, s, a) && Run(ttl, cap, s0, actions', s')
  {
    actions', s' := actions + [a], Next(ttl, cap, s, a);
    RunOneMore(ttl, cap, s0, actions, s, a);
  }

  // ----- a key that expires between HSET and EXPIRE -----

  /** All gateways are between calls. */
  ghost predicate Quiet(s: State) {
    forall g :: 0 <= g < |s.gateways| ==> s.gateways[g].Idle?
  }

  /** The key expires under a gateway that has written `h` and not yet renewed it. */
  lemma ExpiresUnderway(ttl: real, cap: nat, s0: State, before: seq<Action>, s1: State, r: Replica, h: Hash)
      returns (actions: seq<Action>, s: State)
    requires ttl > 0.0 && cap >= 1 && Run(ttl, cap, s0, before, s1)
    requires s1.gateways == [Idle] && Get(s1, r).deadline == At(s1.clock)
    ensures Run(ttl, cap, s0, actions, s)
    ensures Quiet(s) && Missing(ttl, s, r, h) && Get(s, r) == NO_KEY
    ensures s.log == s1.log + [Write(r, [h], s1.clock)]
  {
    hide Run, Next;
    var now := s1.clock;
    WriteKey(ttl, cap, s1, 0, r, [h]);
    actions, s := Extend(ttl, cap, s0, before, s1, Begin(0, r, [h]));
    BeginKey(ttl, cap, s1, 0, r, [h]);
    actions, s := Extend(ttl, cap, s0, actions, s, HSet(0));
    TickKey(ttl, cap, s, r, now + ttl);
    actions, s := Extend(ttl, cap, s0, actions, s, Tick(now + ttl));
    ExpireKey(ttl, cap, s, 0, r);
    actions, s := Extend(ttl, cap, s0, actions, s, Expire(0));
    CountKey(ttl, cap, s, 0, r);
    actions, s := Extend(ttl, cap, s0, actions, s, HLen(0));
    LoggedMore(s1.log, Write(r, [h], now), r);
  }

  /** One gateway and one hash suffice: with a TTL, a clock that moves between an HSET
      and its EXPIRE can lose the write, for good. */
  lemma LateExpireForgets(ttl: real, cap: nat, r: Replica, h: Hash)
      returns (s0: State, actions: seq<Action>, s: State)
    requires ttl > 0.0 && cap >= 1
    ensures Init(s0) && |s0.gateways| == 1 && Run(ttl, cap, s0, actions, s)
    ensures Logged(s.log, r) == {h} && Quiet(s) && Forgot(ttl, cap, s, r, h)
  {
    s0 := State(map[], [Idle], 0.0, []);
    var s1;
    actions, s1 := RunPipeline(ttl, cap, r, s0, [], s0, 0, [h]);
    hide Run, Pipeline, Next;
    PipelineKey(ttl, cap, s0, 0, r, [h]);
    assert Get(s1, r).fields == map[h := 0.0];
    var deadline := ttl.Floor as real + 1.0;
    var s2;
    actions, s2 := Extend(ttl, cap, s0, actions, s1, Tick(deadline));
    TickKey(ttl, cap, s1, r, deadline);
    actions, s := ExpiresUnderway(ttl, cap, s0, actions, s2, r, h);
    LoggedMore([], Write(r, [h], 0.0), r);
    LoggedMore(s1.log, Write(r, [h], deadline), r);
  }

  // ----- a hash rewritten between HGETALL and HDEL -----

  lemma {:induction false} ElementCount(hashes: seq<Hash>)
    requires NoRepeats(hashes)
    ensures |Elements(hashes)| == |hashes|
  {
    if hashes == [] {
    } else {
      var front, last := hashes[..|hashes| - 1], hashes[|hashes| - 1];
      ElementCount(front);
      assert hashes == front + [last];
      assert Elements(hashes) == Elements(front) + {last};
    }
  }

  /** `f` holds `hashes` and `extra`, one more than the cap, all written at time 0. */
  ghost predicate OverFull(cap: nat, f: Fields, hashes: seq<Hash>, extra: Hash) {
    && |hashes| == cap && |f| == cap + 1
    && f == FromKeys(hashes + [extra], 0.0)
  }

  lemma MayDropFirst(ttl: real, cap: nat, f: Fields, hashes: seq<Hash>, extra: Hash)
    requires cap >= 1 && OverFull(cap, f, hashes, extra)
    ensures MayDrop(ttl, cap, f, 0.0, [hashes[0]])
    ensures |Except(f, [hashes[0]])| == cap
  {
    var a := hashes[0];
    assert a in hashes + [extra];
    assert FreshPart(ttl, f, 0.0) == f;
    var left := Except(f, [a]);
    assert left.Keys == f.Keys - {a};
    assert |left.Keys| == |f.Keys| - 1;
  }

  /** Gateway 0 fills the key to the cap. */
  lemma FillOnce(ttl: real, cap: nat, r: Replica, hashes: seq<Hash>)
      returns (s0: State, actions: seq<Action>, s: State)
    requires cap >= 1 && |hashes| == cap && |FromKeys(hashes, 0.0)| == cap
    ensures Init(s0) && |s0.gateways| == 2 && Reaches(ttl, cap, r, s0, actions, s)
    ensures s.gateways == [Idle, Idle] && s.clock == 0.0 && s.log == [Write(r, hashes, 0.0)]
    ensures Get(s, r) == Key(FromKeys(hashes, 0.0), NewDeadline(ttl, NO_KEY, 0.0))
  {
    s0 := State(map[], [Idle, Idle], 0.0, []);
    assert Reaches(ttl, cap, r, s0, [], s0);
    hide Reaches, Pipeline, Next;
    PipelineKey(ttl, cap, s0, 0, r, hashes);
    assert Get(s0, r).fields + FromKeys(hashes, 0.0) == FromKeys(hashes, 0.0);
    actions, s := RunPipeline(ttl, cap, r, s0, [], s0, 0, hashes);
  }

  /** Gateway 1 adds one more, and so has to trim. */
  lemma Fill(ttl: real, cap: nat, r: Replica, hashes: seq<Hash>, extra: Hash)
      returns (s0: State, actions: seq<Action>, s: State)
    requires cap >= 1 && |hashes| == cap && NoRepeats(hashes) && extra !in hashes
    ensures Init(s0) && |s0.gateways| == 2 && Reaches(ttl, cap, r, s0, actions, s)
    ensures s.gateways == [Idle, Trimming(r, 0.0)] && s.clock == 0.0
    ensures OverFull(cap, Get(s, r).fields, hashes, extra)
    ensures Get(s, r).deadline == NewDeadline(ttl, NO_KEY, 0.0)
    ensures s.log == [Write(r, hashes, 0.0), Write(r, [extra], 0.0)]
  {
    hide Reaches, Pipeline, Next, FromKeys, NoRepeats;
    FillCounts(hashes, extra);
    s0, actions, s := FillOnce(ttl, cap, r, hashes);
    PipelineKey(ttl, cap, s, 1, r, [extra]);
    actions, s := RunPipeline(ttl, cap, r, s0, actions, s, 1, [extra]);
  }

  lemma FillCounts(hashes: seq<Hash>, extra: Hash)
    requires NoRepeats(hashes) && extra !in hashes
    ensures |FromKeys(hashes, 0.0)| == |hashes| && |FromKeys(hashes + [extra], 0.0)| == |hashes| + 1
    ensures FromKeys(hashes, 0.0) + FromKeys([extra], 0.0) == FromKeys(hashes + [extra], 0.0)
  {
    var f, g := FromKeys(hashes, 0.0), FromKeys(hashes + [extra], 0.0);
    ElementCount(hashes);
    assert f.Keys == Elements(hashes);
    assert g.Keys == f.Keys + {extra};
    assert |f| == |f.Keys| && |g| == |g.Keys|;
  }

  /** Gateway 1 reads the hash and decides to drop its first field. */
  lemma FillAndRead(ttl: real, cap: nat, r: Replica, hashes: seq<Hash>, extra: Hash)
      returns (s0: State, actions: seq<Action>, s: State)
    requires cap >= 1 && |hashes| == cap && NoRepeats(hashes) && extra !in hashes
    ensures Init(s0) && |s0.gateways| == 2 && Reaches(ttl, cap, r, s0, actions, s)
    ensures s.gateways == [Idle, Dropping(r, [hashes[0]])] && s.clock == 0.0
    ensures OverFull(cap, Get(s, r).fields, hashes, extra)
    ensures Get(s, r).deadline == NewDeadline(ttl, NO_KEY, 0.0)
    ensures s.log == [Write(r, hashes, 0.0), Write(r, [extra], 0.0)]
  {
    hide Reaches, Next, OverFull, MayDrop, NoRepeats, NewDeadline;
    s0, actions, s := Fill(ttl, cap, r, hashes, extra);
    MayDropFirst(ttl, cap, Get(s, r).fields, hashes, extra);
    ReadKey(ttl, cap, s, 1, r, [hashes[0]]);
    actions, s := OneMore(ttl, cap, r, s0, actions, s, HGetAll(1, [hashes[0]]));
  }

  /** From any state: a hash written between another gateway's HGETALL and its HDEL is
      deleted although its last write is as fresh as can be. */
  lemma RefreshDuringTrimIsLost(ttl: real, cap: nat, s: State, trimmer: Gateway, writer: Gateway, r: Replica, h: Hash)
    requires trimmer < |s.gateways| && writer < |s.gateways|
    requires s.gateways[trimmer].Dropping? && s.gateways[trimmer].replica == r && h in s.gateways[trimmer].drop
    requires s.gateways[writer].Started? && s.gateways[writer].replica == r && h in s.gateways[writer].chain
    ensures Enabled(ttl, cap, s, HSet(writer)) && Enabled(ttl, cap, Next(ttl, cap, s, HSet(writer)), HDel(trimmer))
    ensures var s' := Next(ttl, cap, Next(ttl, cap, s, HSet(writer)), HDel(trimmer));
            LastWrite(s'.log, r, h) == Some(s.gateways[writer].now) && h !in Get(s', r).fields
  {
    LoggedMore(s.log, Write(r, s.gateways[writer].chain, s.gateways[writer].now), r);
  }

  /** Gateway 0 writes `h` again before gateway 1 deletes it. */
  lemma RewriteAndDrop(ttl: real, cap: nat, r: Replica, s0: State, before: seq<Action>, s1: State, h: Hash, now: real)
      returns (actions: seq<Action>, s: State)
    requires Reaches(ttl, cap, r, s0, before, s1) && s1.gateways == [Idle, Dropping(r, [h])]
    requires h in Get(s1, r).fields && |Except(Get(s1, r).fields, [h])| == cap >= 1
    requires s1.clock <= now && (ttl > 0.0 ==> Get(s1, r).deadline.At?)
    requires Get(s1, r).deadline.At? ==> now <= Get(s1, r).deadline.t
    ensures Reaches(ttl, cap, r, s0, actions, s) && Quiet(s) && Missing(ttl, s, r, h)
    ensures s.log == s1.log + [Write(r, [h], now)] && LastWrite(s.log, r, h) == Some(now)
    ensures Get(s, r).fields == Except(Get(s1, r).fields, [h])
  {
    hide Reaches, Next, LastWrite, NewDeadline, MayDrop;
    TickKey(ttl, cap, s1, r, now);
    actions, s := OneMore(ttl, cap, r, s0, before, s1, Tick(now));
    WriteKey(ttl, cap, s, 0, r, [h]);
    BeginKey(ttl, cap, s, 0, r, [h]);
    actions, s := OneMore(ttl, cap, r, s0, actions, s, Begin(0, r, [h]));
    RefreshDuringTrimIsLost(ttl, cap, s, 1, 0, r, h);
    actions, s := OneMore(ttl, cap, r, s0, actions, s, HSet(0));
    assert Except(Get(s, r).fields, [h]) == Except(Get(s1, r).fields, [h]);
    DropKey(ttl, cap, s, 1, r);
    actions, s := OneMore(ttl, cap, r, s0, actions, s, HDel(1));
    actions, s := FinishWrite(ttl, cap, r, s0, actions, s);
  }

  /** Gateway 0 renews the expiry and finds the key within the cap. */
  lemma FinishWrite(ttl: real, cap: nat, r: Replica, s0: State, before: seq<Action>, s1: State)
      returns (actions: seq<Action>, s: State)
    requires Reaches(ttl, cap, r, s0, before, s1) && |s1.gateways| == 2 && s1.gateways[1] == Idle
    requires var p := s1.gateways[0]; (if ttl > 0.0 then p.Written? else p.Counting?) && p.replica == r
    requires 1 <= |Get(s1, r).fields| <= cap
    ensures Reaches(ttl, cap, r, s0, actions, s) && Quiet(s)
    ensures s.log == s1.log && s.clock == s1.clock && Get(s, r).fields == Get(s1, r).fields
  {
    hide Reaches, Next;
    actions, s := before, s1;
    if ttl > 0.0 {
      ExpireKey(ttl, cap, s, 0, r);
      actions, s := OneMore(ttl, cap, r, s0, actions, s, Expire(0));
    }
    CountKey(ttl, cap, s, 0, r);
    actions, s := OneMore(ttl, cap, r, s0, actions, s, HLen(0));
  }

  /** Two gateways and `cap` + 1 distinct hashes suffice: the youngest write of all can
      be lost for good, without any time passing inside a pipeline. */
  lemma RewriteForgets(ttl: real, cap: nat, r: Replica, hashes: seq<Hash>, extra: Hash)
      returns (s0: State, actions: seq<Action>, s: State)
    requires cap >= 1 && |hashes| == cap && NoRepeats(hashes) && extra !in hashes
    ensures Init(s0) && |s0.gateways| == 2 && Reaches(ttl, cap, r, s0, actions, s)
    ensures Quiet(s) && Forgot(ttl, cap, s, r, hashes[0])
    ensures |Logged(s.log, r)| == cap + 1
    ensures forall h :: h in Logged(s.log, r) && h != hashes[0] ==>
      LastWrite(s.log, r, h).Some? && LastWrite(s.log, r, h).value < LastWrite(s.log, r, hashes[0]).value
  {
    hide Reaches, Logged, LastWrite, NoRepeats, Next;
    var a, now := hashes[0], if ttl > 0.0 then ttl else 1.0;
    var before, s1;
    s0, before, s1 := FillAndRead(ttl, cap, r, hashes, extra);
    MayDropFirst(ttl, cap, Get(s1, r).fields, hashes, extra);
    assert a in hashes + [extra];
    actions, s := RewriteAndDrop(ttl, cap, r, s0, before, s1, a, now);
    Rewritten(r, s1.log, hashes, extra, now);
    assert extra in hashes + [extra] && extra in Get(s, r).fields;
  }

  /** In such a log the rewritten hash is the youngest. */
  lemma Rewritten(r: Replica, log: seq<Write>, hashes: seq<Hash>, extra: Hash, now: real)
    requires hashes != [] && NoRepeats(hashes) && extra !in hashes && now > 0.0
    requires log == [Write(r, hashes, 0.0), Write(r, [extra], 0.0)]
    ensures var more := log + [Write(r, [hashes[0]], now)];
      && |Logged(more, r)| == |hashes| + 1
      && forall h :: h in Logged(more, r) && h != hashes[0] ==>
           LastWrite(more, r, h).Some? && LastWrite(more, r, h).value < LastWrite(more, r, hashes[0]).value
  {
    hide LastWrite, Logged, NoRepeats;
    var more := log + [Write(r, [hashes[0]], now)];
    TwoWritten(r, Write(r, hashes, 0.0), Write(r, [extra], 0.0));
    LoggedMore(log, Write(r, [hashes[0]], now), r);
    ElementCount(hashes);
    assert Logged(more, r) == Elements(hashes) + {extra};
    forall h | h in Logged(more, r) && h != hashes[0]
      ensures LastWrite(more, r, h) == Some(0.0)
    {
      LoggedIffWritten(log, r, h);
      WrittenAtOnce(log, r, h, 0.0);
    }
  }

  lemma {:induction false} WrittenAtOnce(log: seq<Write>, r: Replica, h: Hash, now: real)
    requires forall w :: w in log ==> w.now == now
    ensures LastWrite(log, r, h).Some? ==> LastWrite(log, r, h).value == now
  {
    if log == [] {
    } else {
      WrittenAtOnce(log[..|log| - 1], r, h, now);
    }
  }

  lemma TwoWritten(r: Replica, w: Write, x: Write)
    requires w.replica == x.replica == r
    ensures Logged([w, x], r) == Elements(w.chain) + Elements(x.chain)
  {
    LoggedMore([], w, r);
    LoggedMore([w], x, r);
    assert [] + [w] == [w] && [w] + [x] == [w, x];
  }

  // ----- the exact condition -----

  function Name(n: nat): Hash {
    seq(n, i => 'x')
  }

  function Names(n: nat): seq<Hash> {
    seq(n, i requires 0 <= i < n => Name(i))
  }

  lemma NamesDiffer(n: nat)
    ensures NoRepeats(Names(n)) && Name(n) !in Names(n)
  {
    forall i, j | 0 <= i < j <= n ensures Name(i) != Name(j) {
      assert |Name(i)| == i && |Name(j)| == j;
    }
  }

  /** No run of at most `gateways` gateways that writes at most `n` distinct hashes for
      `r`, and is prompt if asked to be, forgets a write. */
  ghost predicate NeverForgets(ttl: real, cap: nat, r: Replica, gateways: nat, n: nat, prompt: bool) {
    forall s0, actions, s, h ::
      Admits(ttl, cap, r, gateways, n, prompt, s0, actions, s) ==> !Forgot(ttl, cap, s, r, h)
  }

  ghost predicate Admits(ttl: real, cap: nat, r: Replica, gateways: nat, n: nat, prompt: bool,
                         s0: State, actions: seq<Action>, s: State) {
    && Init(s0) && Run(ttl, cap, s0, actions, s)
    && |s0.gateways| <= gateways && |Logged(s.log, r)| <= n
    && (prompt ==> Prompt(ttl, cap, s0, actions, r))
  }

  /** The shared index never forgets a write that a full index would keep if and only if
      there is one gateway or no more than `cap` distinct hashes are written for the
      replica, and there is no TTL or no time passes between an HSET and its EXPIRE. */
  lemma NeverForgetsExactly(ttl: real, cap: nat, r: Replica, gateways: nat, n: nat, prompt: bool)
    requires cap >= 1 && gateways >= 1 && n >= 1
    ensures NeverForgets(ttl, cap, r, gateways, n, prompt) <==>
      (gateways == 1 || n <= cap) && (ttl <= 0.0 || prompt)
  {
    if ttl > 0.0 && !prompt {
      var s0, actions, s := LateExpireForgets(ttl, cap, r, Name(0));
      assert Admits(ttl, cap, r, gateways, n, prompt, s0, actions, s);
    } else if gateways >= 2 && n > cap {
      NamesDiffer(cap);
      var s0, actions, s := RewriteForgets(ttl, cap, r, Names(cap), Name(cap));
      assert Admits(ttl, cap, r, gateways, n, prompt, s0, actions, s);
    } else {
      forall s0, actions, s, h | Admits(ttl, cap, r, gateways, n, prompt, s0, actions, s)
        ensures !Forgot(ttl, cap, s, r, h)
      {
        if gateways == 1 {
          OneGatewayForgetsNothing(ttl, cap, s0, actions, s, r, h);
        } else {
          FewHashesNeverOver(ttl, cap, s0, actions, s, r);
          NothingForgotten(ttl, cap, s0, actions, s, r);
        }
      }
    }
  }
}
