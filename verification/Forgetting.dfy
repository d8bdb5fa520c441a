/** When the shared Redis index forgets a write it should keep.  The memory index drops a
    write only when its TTL is over or a full index holds nothing older.  Here each HSET,
    EXPIRE, HGETALL and HDEL is its own command, so two more things can happen: a trim
    deletes what was rewritten after it read the hash, and a key expires between an HSET
    and the EXPIRE that would have kept it (src/kvgate/routing/affinity_redis.py).
    This module proves when neither happens; LosingRuns.dfy shows that both do. */
module Forgetting {
  import opened Basics
  import opened Affinity
  import opened RedisAffinity
  import opened SharedRedis

  function Elements(chain: seq<Hash>): set<Hash> {
    set h | h in chain
  }

  /** The distinct hashes written for `r`. */
  function Logged(log: seq<Write>, r: Replica): set<Hash> {
    if log == [] then {}
    else
      var w := log[|log| - 1];
      Logged(log[..|log| - 1], r) + if w.replica == r then Elements(w.chain) else {}
  }

  ghost predicate FreshWrite(ttl: real, s: State, r: Replica, h: Hash) {
    var last := LastWrite(s.log, r, h);
    last.Some? && Fresh(ttl, last.value, s.clock)
  }

  ghost predicate Missing(ttl: real, s: State, r: Replica, h: Hash) {
    FreshWrite(ttl, s, r, h) && h !in Get(s, r).fields
  }

  /** Every hash written for `r` within the TTL is in its key. */
  ghost predicate Complete(ttl: real, s: State, r: Replica) {
    forall h :: FreshWrite(ttl, s, r, h) ==> h in Get(s, r).fields
  }

  /** What `f` lacks is stale, or no younger than anything in a full `f`. */
  ghost predicate KeptBy(ttl: real, cap: nat, s: State, r: Replica, f: Fields) {
    forall h :: FreshWrite(ttl, s, r, h) && h !in f ==> NoYounger(cap, f, LastWrite(s.log, r, h).value)
  }

  /** `h` is gone although its last write is within the TTL and the key is not full, or
      holds something older. */
  ghost predicate Forgot(ttl: real, cap: nat, s: State, r: Replica, h: Hash) {
    Missing(ttl, s, r, h) && !NoYounger(cap, Get(s, r).fields, LastWrite(s.log, r, h).value)
  }

  /** Some gateway is between its HSET for `r` and its EXPIRE. */
  ghost predicate Pending(s: State, r: Replica) {
    exists g :: 0 <= g < |s.gateways| && Awaits(s.gateways[g], r)
  }

  /** The clock never moves between an HSET for `r` and its EXPIRE. */
  ghost predicate Prompt(ttl: real, cap: nat, s: State, actions: seq<Action>, r: Replica)
    decreases |actions|
  {
    actions == [] ||
    (Enabled(ttl, cap, s, actions[0]) && (actions[0].Tick? ==> !Pending(s, r)) &&
     Prompt(ttl, cap, Next(ttl, cap, s, actions[0]), actions[1..], r))
  }

  // ----- the log -----

  lemma LoggedMore(log: seq<Write>, w: Write, r: Replica)
    ensures Logged(log + [w], r) == Logged(log, r) + if w.replica == r then Elements(w.chain) else {}
    ensures forall h ::
      LastWrite(log + [w], r, h) == if w.replica == r && h in w.chain then Some(w.now) else LastWrite(log, r, h)
  {
    assert (log + [w])[..|log|] == log;
  }

  lemma {:induction false} LoggedIffWritten(log: seq<Write>, r: Replica, h: Hash)
    ensures h in Logged(log, r) <==> LastWrite(log, r, h).Some?
  {
    if log == [] {
    } else {
      LoggedIffWritten(log[..|log| - 1], r, h);
    }
  }

  lemma NextLogged(ttl: real, cap: nat, s: State, a: Action, r: Replica)
    requires Enabled(ttl, cap, s, a)
    ensures Logged(s.log, r) <= Logged(Next(ttl, cap, s, a).log, r)
  {
    if a.HSet? {
      var p := s.gateways[a.g];
      LoggedMore(s.log, Write(p.replica, p.chain, p.now), r);
    }
  }

  lemma {:induction false} RunLogged(ttl: real, cap: nat, s: State, actions: seq<Action>, s': State, r: Replica)
    requires Run(ttl, cap, s, actions, s')
    ensures Logged(s.log, r) <= Logged(s'.log, r)
    decreases |actions|
  {
    if actions == [] {
    } else {
      NextLogged(ttl, cap, s, actions[0], r);
      RunLogged(ttl, cap, Next(ttl, cap, s, actions[0]), actions[1..], s', r);
    }
  }

  // ----- clocks and deadlines -----

  predicate OnTime(p: Phase, clock: real) {
    p.Idle? || p.Dropping? || p.now <= clock
  }

  predicate Trims(p: Phase, r: Replica) {
    (p.Trimming? || p.Dropping?) && p.replica == r
  }

  predicate Awaits(p: Phase, r: Replica) {
    p.Written? && p.replica == r
  }

  /** No write lies ahead of the clock, and none will. */
  ghost predicate Timely(s: State, r: Replica) {
    && (forall h :: LastWrite(s.log, r, h).Some? ==> LastWrite(s.log, r, h).value <= s.clock)
    && forall g :: 0 <= g < |s.gateways| ==> OnTime(s.gateways[g], s.clock)
  }

  /** The expiry cannot strike while a write is within its TTL, unless an EXPIRE is due. */
  ghost predicate Late(ttl: real, s: State, r: Replica) {
    var deadline := Get(s, r).deadline;
    deadline.At? ==>
      && ttl > 0.0
      && (Pending(s, r) ||
          forall h :: LastWrite(s.log, r, h).Some? ==> LastWrite(s.log, r, h).value + ttl < deadline.t)
  }

  ghost predicate OnSchedule(ttl: real, s: State, r: Replica) {
    MatchesLog(s) && Timely(s, r) && Late(ttl, s, r)
  }

  /** No time passes while an EXPIRE for `r` is due. */
  ghost predicate Punctual(ttl: real, s: State, a: Action, r: Replica) {
    a.Tick? ==> ttl <= 0.0 || !Pending(s, r)
  }

  lemma TimelyStep(ttl: real, cap: nat, s: State, a: Action, r: Replica)
    requires Enabled(ttl, cap, s, a) && Timely(s, r)
    ensures Timely(Next(ttl, cap, s, a), r)
  {
    if a.HSet? {
      var p := s.gateways[a.g];
      assert OnTime(p, s.clock);
      LoggedMore(s.log, Write(p.replica, p.chain, p.now), r);
    }
  }

  /** A gateway that was not between HSET and EXPIRE for `r` ends no one's wait. */
  lemma StillPending(s: State, s': State, g: Gateway, r: Replica)
    requires g < |s.gateways| == |s'.gateways|
    requires forall i :: 0 <= i < |s.gateways| && i != g ==> s'.gateways[i] == s.gateways[i]
    ensures Pending(s, r) && !Awaits(s.gateways[g], r) ==> Pending(s', r)
  {
    if Pending(s, r) && !Awaits(s.gateways[g], r) {
      var i :| 0 <= i < |s.gateways| && Awaits(s.gateways[i], r);
      assert Awaits(s'.gateways[i], r);
    }
  }

  lemma LateStep(ttl: real, cap: nat, s: State, a: Action, r: Replica)
    requires Enabled(ttl, cap, s, a) && Punctual(ttl, s, a, r) && Timely(s, r) && Late(ttl, s, r)
    ensures Late(ttl, Next(ttl, cap, s, a), r)
  {
    var s' := Next(ttl, cap, s, a);
    if !a.Tick? {
      StillPending(s, s', a.g, r);
    }
    if a.HSet? {
      var p := s.gateways[a.g];
      LoggedMore(s.log, Write(p.replica, p.chain, p.now), r);
      assert p.replica == r && ttl > 0.0 ==> Awaits(s'.gateways[a.g], r);
    }
    assert ttl > 0.0 ==> s.clock + ttl < s.clock + ttl.Floor as real + 1.0;
  }

  lemma ScheduleStep(ttl: real, cap: nat, s: State, a: Action, r: Replica)
    requires Enabled(ttl, cap, s, a) && Punctual(ttl, s, a, r) && OnSchedule(ttl, s, r)
    ensures OnSchedule(ttl, Next(ttl, cap, s, a), r)
  {
    LogStep(ttl, cap, s, a);
    TimelyStep(ttl, cap, s, a, r);
    LateStep(ttl, cap, s, a, r);
  }

  // ----- a key that is never trimmed misses nothing -----

  /** The key of `r` never holds more than `cap` fields, so no HLEN asks for a trim. */
  ghost predicate NeverOver(ttl: real, cap: nat, s: State, actions: seq<Action>, r: Replica)
    decreases |actions|
  {
    |Get(s, r).fields| <= cap &&
    (actions == [] ||
     (Enabled(ttl, cap, s, actions[0]) && NeverOver(ttl, cap, Next(ttl, cap, s, actions[0]), actions[1..], r)))
  }

  ghost predicate Untrimmed(s: State, r: Replica) {
    forall g :: 0 <= g < |s.gateways| ==> !Trims(s.gateways[g], r)
  }

  lemma UntrimmedStep(ttl: real, cap: nat, s: State, a: Action, r: Replica)
    requires Enabled(ttl, cap, s, a) && Untrimmed(s, r) && |Get(s, r).fields| <= cap
    ensures Untrimmed(Next(ttl, cap, s, a), r)
  {
  }

  lemma CompleteStep(ttl: real, cap: nat, s: State, a: Action, r: Replica)
    requires Enabled(ttl, cap, s, a) && Punctual(ttl, s, a, r) && Late(ttl, s, r)
    requires Untrimmed(s, r) && Complete(ttl, s, r)
    ensures Complete(ttl, Next(ttl, cap, s, a), r)
  {
    if a.HSet? {
      var p := s.gateways[a.g];
      LoggedMore(s.log, Write(p.replica, p.chain, p.now), r);
    }
    if a.HDel? {
      assert !Trims(s.gateways[a.g], r);
    }
  }

  lemma {:induction false} RunKeepsComplete(ttl: real, cap: nat, s: State, actions: seq<Action>, s': State, r: Replica)
    requires Run(ttl, cap, s, actions, s') && NeverOver(ttl, cap, s, actions, r)
    requires ttl <= 0.0 || Prompt(ttl, cap, s, actions, r)
    requires OnSchedule(ttl, s, r) && Untrimmed(s, r) && Complete(ttl, s, r)
    ensures Complete(ttl, s', r)
    decreases |actions|
  {
    if actions == [] {
    } else {
      var a := actions[0];
      ScheduleStep(ttl, cap, s, a, r);
      UntrimmedStep(ttl, cap, s, a, r);
      CompleteStep(ttl, cap, s, a, r);
      RunKeepsComplete(ttl, cap, Next(ttl, cap, s, a), actions[1..], s', r);
    }
  }

  /** Over every interleaving of any number of gateways: as long as the key of a replica
      never holds more than `cap` fields, and there is no TTL or no time passes between an
      HSET and its EXPIRE, every write within the TTL is in the key. */
  lemma NothingForgotten(ttl: real, cap: nat, s0: State, actions: seq<Action>, s: State, r: Replica)
    requires Init(s0) && Run(ttl, cap, s0, actions, s) && NeverOver(ttl, cap, s0, actions, r)
    requires ttl <= 0.0 || Prompt(ttl, cap, s0, actions, r)
    ensures Complete(ttl, s, r)
  {
    RunKeepsComplete(ttl, cap, s0, actions, s, r);
  }

  /** There `matched_blocks` counts exactly the leading hashes written within the TTL. */
  lemma MatchIsExact(ttl: real, cap: nat, s0: State, actions: seq<Action>, s: State, r: Replica, chain: seq<Hash>,
                     n: nat)
    requires Init(s0) && Run(ttl, cap, s0, actions, s) && NeverOver(ttl, cap, s0, actions, r)
    requires ttl <= 0.0 || Prompt(ttl, cap, s0, actions, r)
    requires LeadingFields(ttl, Get(s, r).fields, chain, s.clock, n)
    ensures forall j :: 0 <= j < n ==> FreshWrite(ttl, s, r, chain[j])
    ensures n < |chain| ==> !FreshWrite(ttl, s, r, chain[n])
  {
    NothingForgotten(ttl, cap, s0, actions, s, r);
    RunKeepsInv(ttl, cap, s0, actions, s);
  }

  lemma FieldsWithinLog(s: State, r: Replica)
    requires MatchesLog(s)
    ensures |Get(s, r).fields| <= |Logged(s.log, r)|
  {
    forall h | h in Get(s, r).fields ensures h in Logged(s.log, r) {
      LoggedIffWritten(s.log, r, h);
    }
    assert Get(s, r).fields.Keys <= Logged(s.log, r);
    SubsetSize(Get(s, r).fields.Keys, Logged(s.log, r));
    assert |Get(s, r).fields| == |Get(s, r).fields.Keys|;
  }

  /** In particular if no more than `cap` distinct hashes are ever written. */
  lemma {:induction false} FewHashesNeverOver(ttl: real, cap: nat, s: State, actions: seq<Action>, s': State,
                                              r: Replica)
    requires Run(ttl, cap, s, actions, s') && MatchesLog(s) && |Logged(s'.log, r)| <= cap
    ensures NeverOver(ttl, cap, s, actions, r)
    decreases |actions|
  {
    RunLogged(ttl, cap, s, actions, s', r);
    SubsetSize(Logged(s.log, r), Logged(s'.log, r));
    FieldsWithinLog(s, r);
    if actions == [] {
    } else {
      LogStep(ttl, cap, s, actions[0]);
      FewHashesNeverOver(ttl, cap, Next(ttl, cap, s, actions[0]), actions[1..], s', r);
    }
  }

  // ----- one gateway forgets nothing a full index would keep -----

  /** What the phase of the only gateway adds: nothing is written after a register has
      read the clock and before its HSET, and what is about to be dropped may be. */
  ghost predicate PhaseKeeps(ttl: real, cap: nat, s: State, r: Replica, p: Phase) {
    && (p.Started? ==> forall h :: LastWrite(s.log, r, h).Some? ==> LastWrite(s.log, r, h).value <= p.now)
    && (p.Dropping? && p.replica == r ==> KeptBy(ttl, cap, s, r, Except(Get(s, r).fields, p.drop)))
  }

  ghost predicate Keeps(ttl: real, cap: nat, s: State, r: Replica) {
    && |s.gateways| <= 1
    && KeptBy(ttl, cap, s, r, Get(s, r).fields)
    && forall g :: 0 <= g < |s.gateways| ==> PhaseKeeps(ttl, cap, s, r, s.gateways[g])
  }

  lemma TickKeeps(ttl: real, cap: nat, s: State, a: Action, r: Replica)
    requires Enabled(ttl, cap, s, a) && a.Tick? && Punctual(ttl, s, a, r)
    requires OnSchedule(ttl, s, r) && Keeps(ttl, cap, s, r)
    ensures Keeps(ttl, cap, Next(ttl, cap, s, a), r)
  {
    var s' := Next(ttl, cap, s, a);
    if Get(s', r) != Get(s, r) {
      // The key has expired, and everything in it had before.
      assert forall h :: !FreshWrite(ttl, s', r, h);
    }
  }

  lemma HSetKeeps(ttl: real, cap: nat, s: State, a: Action, r: Replica)
    requires Enabled(ttl, cap, s, a) && a.HSet? && OnSchedule(ttl, s, r) && Keeps(ttl, cap, s, r)
    ensures Keeps(ttl, cap, Next(ttl, cap, s, a), r)
  {
    var p, s' := s.gateways[a.g], Next(ttl, cap, s, a);
    var f, f' := Get(s, r).fields, Get(s', r).fields;
    assert PhaseKeeps(ttl, cap, s, r, p);
    LoggedMore(s.log, Write(p.replica, p.chain, p.now), r);
    SmallerFields(f', f);
    forall h | FreshWrite(ttl, s', r, h) && h !in f' ensures NoYounger(cap, f', LastWrite(s'.log, r, h).value) {
      assert FreshWrite(ttl, s, r, h);
    }
  }

  /** A trim may drop what it read. */
  lemma ReadKeeps(ttl: real, cap: nat, s: State, r: Replica, f: Fields, now: real, drop: seq<Hash>)
    requires KeptBy(ttl, cap, s, r, f) && MayDrop(ttl, cap, f, now, drop) && now <= s.clock
    requires forall h :: h in f ==> LastWrite(s.log, r, h) == Some(f[h])
    ensures KeptBy(ttl, cap, s, r, Except(f, drop))
  {
    var left, live := Except(f, drop), FreshPart(ttl, f, now);
    forall h | FreshWrite(ttl, s, r, h) && h !in left ensures NoYounger(cap, left, LastWrite(s.log, r, h).value) {
      if h !in f {
        // Everything read is at least as young as h, hence live.
        assert live == f;
      }
    }
  }

  lemma HGetAllKeeps(ttl: real, cap: nat, s: State, a: Action, r: Replica)
    requires Enabled(ttl, cap, s, a) && a.HGetAll? && OnSchedule(ttl, s, r) && Keeps(ttl, cap, s, r)
    ensures Keeps(ttl, cap, Next(ttl, cap, s, a), r)
  {
    var p := s.gateways[a.g];
    assert OnTime(p, s.clock);
    if p.replica == r {
      ReadKeeps(ttl, cap, s, r, Get(s, r).fields, p.now, a.drop);
    }
  }

  lemma HDelKeeps(ttl: real, cap: nat, s: State, a: Action, r: Replica)
    requires Enabled(ttl, cap, s, a) && a.HDel? && Keeps(ttl, cap, s, r)
    ensures Keeps(ttl, cap, Next(ttl, cap, s, a), r)
  {
    assert PhaseKeeps(ttl, cap, s, r, s.gateways[a.g]);
  }

  lemma OtherKeeps(ttl: real, cap: nat, s: State, a: Action, r: Replica)
    requires Enabled(ttl, cap, s, a) && (a.Begin? || a.Expire? || a.HLen?)
    requires OnSchedule(ttl, s, r) && Keeps(ttl, cap, s, r)
    ensures Keeps(ttl, cap, Next(ttl, cap, s, a), r)
  {
    assert Get(Next(ttl, cap, s, a), r).fields == Get(s, r).fields;
  }

  lemma {:induction false} RunKeeps(ttl: real, cap: nat, s: State, actions: seq<Action>, s': State, r: Replica)
    requires Run(ttl, cap, s, actions, s') && (ttl <= 0.0 || Prompt(ttl, cap, s, actions, r))
    requires OnSchedule(ttl, s, r) && Keeps(ttl, cap, s, r)
    ensures Keeps(ttl, cap, s', r)
    decreases |actions|
  {
    if actions == [] {
    } else {
      var a := actions[0];
      ScheduleStep(ttl, cap, s, a, r);
      match a {
        case Tick(_) => TickKeeps(ttl, cap, s, a, r);
        case HSet(_) => HSetKeeps(ttl, cap, s, a, r);
        case HGetAll(_, _) => HGetAllKeeps(ttl, cap, s, a, r);
        case HDel(_) => HDelKeeps(ttl, cap, s, a, r);
        case _ => OtherKeeps(ttl, cap, s, a, r);
      }
      RunKeeps(ttl, cap, Next(ttl, cap, s, a), actions[1..], s', r);
    }
  }

  /** One gateway, between any two commands: whatever its key lacks is stale, or no
      younger than anything in a full key, however many hashes were written. */
  lemma OneGatewayForgetsNothing(ttl: real, cap: nat, s0: State, actions: seq<Action>, s: State, r: Replica, h: Hash)
    requires Init(s0) && Run(ttl, cap, s0, actions, s) && |s0.gateways| <= 1
    requires ttl <= 0.0 || Prompt(ttl, cap, s0, actions, r)
    ensures !Forgot(ttl, cap, s, r, h)
  {
    RunKeeps(ttl, cap, s0, actions, s, r);
  }
}
