/** Per-tenant spend caps (src/kvgate/ratelimit/budget.py), and how far concurrent
    requests can overshoot them (src/kvgate/api/chat.py). */
module Budget {
  import opened Basics

  datatype Window = Window(start: real, spent: real)

  datatype Decision = Decision(allowed: bool, spent: real, cap: Option<real>, remaining: Option<real>, resetIn: real)

  predicate Expired(windowS: real, w: Option<Window>, now: real) {
    w.Some? && now - w.value.start >= windowS
  }

  /** The window `_window` returns: the stored one unless there is none or it expired. */
  function Current(windowS: real, w: Option<Window>, now: real): Window {
    if w.None? || Expired(windowS, w, now) then Window(now, 0.0) else w.value
  }

  /** What `_window` leaves stored: only an expired window is overwritten. */
  function Refreshed(windowS: real, w: Option<Window>, now: real): Option<Window> {
    if Expired(windowS, w, now) then Some(Window(now, 0.0)) else w
  }

  function Recorded(windowS: real, w: Option<Window>, cost: real, now: real): Option<Window> {
    if cost <= 0.0 then Refreshed(windowS, w, now)
    else
      var c := Current(windowS, w, now);
      Some(Window(c.start, c.spent + cost))
  }

  function Put(m: map<string, Window>, tenant: string, w: Option<Window>): map<string, Window> {
    if w.Some? then m[tenant := w.value] else m
  }

  class BudgetTracker {
    const enabled: bool
    const defaultUsd: Option<real>
    const windowS: real
    var state: map<string, Window>

    constructor (enabled: bool, defaultUsd: Option<real>, windowS: int)
      ensures this.enabled == enabled && this.defaultUsd == defaultUsd
      ensures this.windowS == (if windowS > 1 then windowS else 1) as real && state == map[]
    {
      this.enabled, this.defaultUsd := enabled, defaultUsd;
      this.windowS := (if windowS > 1 then windowS else 1) as real;
      state := map[];
    }

    function WindowOf(tenant: string): Option<Window>
      reads this
    {
      if tenant in state then Some(state[tenant]) else None
    }

    /** `_window` */
    method Roll(tenant: string, now: real) returns (w: Window)
      requires windowS > 0.0
      modifies this
      ensures w == Current(windowS, old(WindowOf(tenant)), now)
      ensures state == Put(old(state), tenant, Refreshed(windowS, old(WindowOf(tenant)), now))
    {
      w := if tenant in state then state[tenant] else Window(now, 0.0);
      if now - w.start >= windowS {
        w := Window(now, 0.0);
        state := state[tenant := w];
      }
    }

    /** `check`; `later` is the clock when the time to reset is computed. */
    method Check(tenant: string, capUsd: Option<real>, now: real, later: real) returns (d: Decision)
      requires windowS > 0.0
      modifies this
      ensures var cap := if capUsd.Some? then capUsd else defaultUsd;
        if !enabled || cap.None? then d.allowed && d.cap == cap && state == old(state)
        else
          var w := Current(windowS, old(WindowOf(tenant)), now);
          && (d.allowed <==> w.spent < cap.value)
          && d.spent == w.spent && d.cap == cap
          && d.remaining == Some(if d.allowed then cap.value - w.spent else 0.0)
          && d.resetIn == (if later - w.start <= windowS then windowS - (later - w.start) else 0.0)
          && state == Put(old(state), tenant, Refreshed(windowS, old(WindowOf(tenant)), now))
    {
      var cap := if capUsd.Some? then capUsd else defaultUsd;
      if !enabled || cap.None? {
        return Decision(true, 0.0, cap, None, 0.0);
      }
      var w := Roll(tenant, now);
      var left := windowS - (later - w.start);
      var resetIn := if left > 0.0 then left else 0.0;
      if w.spent >= cap.value {
        return Decision(false, w.spent, cap, Some(0.0), resetIn);
      }
      return Decision(true, w.spent, cap, Some(cap.value - w.spent), resetIn);
    }

    /** `record` */
    method Record(tenant: string, cost: real, now: real) returns (spent: real)
      requires windowS > 0.0
      modifies this
      ensures !enabled ==>
        && state == Put(old(state), tenant, Refreshed(windowS, old(WindowOf(tenant)), now))
        && spent == Current(windowS, old(WindowOf(tenant)), now).spent
      ensures enabled ==>
        && state == Put(old(state), tenant, Recorded(windowS, old(WindowOf(tenant)), cost, now))
        && spent == Current(windowS, WindowOf(tenant), now).spent
    {
      var w := Roll(tenant, now);
      if !enabled || cost <= 0.0 {
        return w.spent;
      }
      state := state[tenant := Window(w.start, w.spent + cost)];
      return w.spent + cost;
    }
  }

  // ----- runs of one tenant -----

  /** A cost and when it was recorded. */
  datatype Paid = Paid(at: real, cost: real)

  /** The stored window; how many admitted requests have not recorded yet; and the
      history: what was recorded in each closed window and in the current one. */
  datatype Tracker = Tracker(window: Option<Window>, pending: nat, closed: seq<seq<Paid>>, current: seq<Paid>)

  /** `Abandon`: an admitted request that ends in an error and never records. */
  datatype Event = Check(at: real) | Record(at: real, cost: real) | Abandon(at: real)

  const EMPTY := Tracker(None, 0, [], [])

  /** The history when `_window` runs at `at`: an expired window is closed. */
  function Rolled(windowS: real, s: Tracker, at: real): Tracker {
    if Expired(windowS, s.window, at)
    then s.(window := Refreshed(windowS, s.window, at), closed := s.closed + [s.current], current := [])
    else s
  }

  function Spent(s: Tracker): real {
    if s.window.Some? then s.window.value.spent else 0.0
  }

  /** A check admits below the cap; a record ends one admitted request. */
  function Next(windowS: real, cap: real, s: Tracker, e: Event): Tracker {
    match e
    case Check(at) =>
      var r := Rolled(windowS, s, at);
      r.(pending := r.pending + if Current(windowS, s.window, at).spent < cap then 1 else 0)
    case Record(at, cost) =>
      var r := Rolled(windowS, s, at);
      r.(window := Recorded(windowS, s.window, cost, at),
         current := r.current + (if cost > 0.0 then [Paid(at, cost)] else []),
         pending := if r.pending > 0 then r.pending - 1 else 0)
    case Abandon(at) => s.(pending := if s.pending > 0 then s.pending - 1 else 0)
  }

  function After(windowS: real, cap: real, events: seq<Event>): Tracker {
    if events == [] then EMPTY
    else Next(windowS, cap, After(windowS, cap, events[..|events| - 1]), events[|events| - 1])
  }

  /** Every record and every abandoned request was admitted, no more than K requests are
      between check and record at any time, no cost exceeds m, and time does not go back. */
  ghost predicate Legal(windowS: real, cap: real, K: nat, m: real, events: seq<Event>) {
    events != [] ==>
      var front, e := events[..|events| - 1], events[|events| - 1];
      var s := After(windowS, cap, front);
      && Legal(windowS, cap, K, m, front)
      && (!e.Check? ==> s.pending > 0)
      && (e.Record? ==> e.cost <= m)
      && After(windowS, cap, events).pending <= K
      && (forall f :: f in front ==> f.at <= e.at)
  }

  // ----- nothing is lost or counted twice -----

  function Sum(paid: seq<Paid>): real {
    if paid == [] then 0.0 else Sum(paid[..|paid| - 1]) + paid[|paid| - 1].cost
  }

  function Concat(periods: seq<seq<Paid>>): seq<Paid> {
    if periods == [] then [] else Concat(periods[..|periods| - 1]) + periods[|periods| - 1]
  }

  /** The positive costs recorded, in order. */
  function Positive(events: seq<Event>): seq<Paid> {
    if events == [] then []
    else
      var e := events[|events| - 1];
      Positive(events[..|events| - 1]) + if e.Record? && e.cost > 0.0 then [Paid(e.at, e.cost)] else []
  }

  /** The stored total is the sum of what was recorded since the window started, less
      than a window ago. */
  ghost predicate Accurate(windowS: real, s: Tracker) {
    match s.window
    case None => s.current == []
    case Some(w) => w.spent == Sum(s.current) && forall p :: p in s.current ==> w.start <= p.at < w.start + windowS
  }

  lemma SumOneMore(paid: seq<Paid>, p: Paid)
    ensures Sum(paid + [p]) == Sum(paid) + p.cost
  {
    assert (paid + [p])[..|paid|] == paid;
  }

  lemma ConcatOneMore(periods: seq<seq<Paid>>, p: seq<Paid>)
    ensures Concat(periods + [p]) == Concat(periods) + p
  {
    assert (periods + [p])[..|periods|] == periods;
  }

  lemma RolledKeeps(windowS: real, s: Tracker, at: real)
    requires windowS > 0.0 && Accurate(windowS, s)
    ensures var r := Rolled(windowS, s, at);
      Accurate(windowS, r) && Concat(r.closed) + r.current == Concat(s.closed) + s.current
  {
    if Expired(windowS, s.window, at) {
      ConcatOneMore(s.closed, s.current);
      assert Concat(s.closed + [s.current]) + [] == Concat(s.closed + [s.current]);
    }
  }

  /** The start of a window is the time of some earlier event. */
  lemma {:induction false} StartsInThePast(windowS: real, cap: real, K: nat, m: real, events: seq<Event>)
    requires Legal(windowS, cap, K, m, events)
    ensures After(windowS, cap, events).window.Some? ==>
      exists e :: e in events && After(windowS, cap, events).window.value.start == e.at
  {
    if events == [] {
    } else {
      var front, e := events[..|events| - 1], events[|events| - 1];
      StartsInThePast(windowS, cap, K, m, front);
      assert events == front + [e];
      assert e in events;
    }
  }

  lemma PaidAccurate(windowS: real, r: Tracker, at: real, cost: real, s': Tracker)
    requires windowS > 0.0 && Accurate(windowS, r) && !Expired(windowS, r.window, at)
    requires r.window.Some? ==> r.window.value.start <= at
    requires s'.current == r.current + [Paid(at, cost)]
    requires s'.window == if r.window.Some?
                          then Some(Window(r.window.value.start, r.window.value.spent + cost))
                          else Some(Window(at, 0.0 + cost))
    ensures Accurate(windowS, s')
  {
    SumOneMore(r.current, Paid(at, cost));
    if r.window.None? {
      assert s'.current == [Paid(at, cost)];
    }
  }

  lemma RecordAccurate(windowS: real, cap: real, s: Tracker, at: real, cost: real)
    requires windowS > 0.0 && Accurate(windowS, s) && cost > 0.0
    requires s.window.Some? ==> s.window.value.start <= at
    ensures var s' := Next(windowS, cap, s, Record(at, cost));
      Accurate(windowS, s') && Concat(s'.closed) + s'.current == Concat(s.closed) + s.current + [Paid(at, cost)]
  {
    RolledKeeps(windowS, s, at);
    PaidAccurate(windowS, Rolled(windowS, s, at), at, cost, Next(windowS, cap, s, Record(at, cost)));
  }

  lemma NextAccurate(windowS: real, cap: real, s: Tracker, e: Event)
    requires windowS > 0.0 && Accurate(windowS, s)
    requires s.window.Some? ==> s.window.value.start <= e.at
    ensures var s' := Next(windowS, cap, s, e);
      && Accurate(windowS, s')
      && Concat(s'.closed) + s'.current
           == Concat(s.closed) + s.current + if e.Record? && e.cost > 0.0 then [Paid(e.at, e.cost)] else []
  {
    if e.Record? && e.cost > 0.0 {
      RecordAccurate(windowS, cap, s, e.at, e.cost);
    } else {
      RolledKeeps(windowS, s, e.at);
      assert Rolled(windowS, s, e.at).current + [] == Rolled(windowS, s, e.at).current;
    }
  }

  /** Over all resets, the records of the closed windows and of the current one are
      exactly the positive costs in order, and the stored total is that of its window. */
  lemma {:induction false} SpendIsConserved(windowS: real, cap: real, K: nat, m: real, events: seq<Event>)
    requires windowS > 0.0 && Legal(windowS, cap, K, m, events)
    ensures var s := After(windowS, cap, events);
      Accurate(windowS, s) && Concat(s.closed) + s.current == Positive(events)
  {
    if events == [] {
    } else {
      var front, e := events[..|events| - 1], events[|events| - 1];
      SpendIsConserved(windowS, cap, K, m, front);
      StartsInThePast(windowS, cap, K, m, front);
      NextAccurate(windowS, cap, After(windowS, cap, front), e);
    }
  }

  // ----- the overshoot is bounded -----

  ghost predicate PeriodsWithin(limit: real, closed: seq<seq<Paid>>) {
    forall p :: p in closed ==> Sum(p) <= limit
  }

  /** Once the cap is reached nothing more is admitted, so what is still pending is all
      that can be added. */
  ghost predicate Contained(cap: real, K: nat, m: real, s: Tracker) {
    && s.pending <= K
    && (Spent(s) >= cap ==> Spent(s) + Times(s.pending, m) <= cap + Times(K, m))
  }

  function Times(k: nat, m: real): real {
    k as real * m
  }

  lemma Products(a: nat, b: nat, m: real)
    requires a <= b && m >= 0.0
    ensures 0.0 <= Times(a, m) <= Times(b, m)
    ensures a >= 1 ==> Times(a - 1, m) == Times(a, m) - m
  {
    assert (b - a) as real * m >= 0.0;
    assert b as real * m == a as real * m + (b - a) as real * m;
  }

  lemma ContainedWithinLimit(cap: real, K: nat, m: real, s: Tracker)
    requires m >= 0.0 && Contained(cap, K, m, s)
    ensures Spent(s) <= cap + Times(K, m)
  {
    hide Times;
    Products(s.pending, K, m);
  }

  lemma RolledContained(windowS: real, cap: real, K: nat, m: real, s: Tracker, at: real)
    requires windowS > 0.0 && cap >= 0.0 && m >= 0.0 && Contained(cap, K, m, s)
    ensures Contained(cap, K, m, Rolled(windowS, s, at))
    ensures Spent(Rolled(windowS, s, at)) == Current(windowS, s.window, at).spent
  {
    hide Times;
    Products(s.pending, K, m);
  }

  lemma RecordContained(cap: real, K: nat, m: real, r: Tracker, s': Tracker, cost: real)
    requires m >= 0.0 && Contained(cap, K, m, r) && r.pending > 0 && cost <= m
    requires s'.pending == r.pending - 1 && Spent(s') == Spent(r) + if cost > 0.0 then cost else 0.0
    ensures Contained(cap, K, m, s')
  {
    hide Times;
    Products(r.pending, K, m);
  }

  lemma NextContained(windowS: real, cap: real, K: nat, m: real, s: Tracker, e: Event)
    requires windowS > 0.0 && cap >= 0.0 && m >= 0.0 && Contained(cap, K, m, s)
    requires !e.Check? ==> s.pending > 0
    requires e.Record? ==> e.cost <= m
    requires Next(windowS, cap, s, e).pending <= K
    ensures Contained(cap, K, m, Next(windowS, cap, s, e))
  {
    hide Times;
    RolledContained(windowS, cap, K, m, s, e.at);
    match e
    case Check(at) =>
    case Record(at, cost) => RecordContained(cap, K, m, Rolled(windowS, s, at), Next(windowS, cap, s, e), cost);
    case Abandon(at) => RecordContained(cap, K, m, s, Next(windowS, cap, s, e), 0.0);
  }

  /** The spend of every window, closed or current, is at most cap + K·m. */
  lemma {:induction false} OvershootIsBounded(windowS: real, cap: real, K: nat, m: real, events: seq<Event>)
    requires windowS > 0.0 && cap >= 0.0 && m >= 0.0 && Legal(windowS, cap, K, m, events)
    ensures var s := After(windowS, cap, events);
      Contained(cap, K, m, s) && Spent(s) <= cap + Times(K, m) && PeriodsWithin(cap + Times(K, m), s.closed)
  {
    hide Times;
    Products(0, K, m);
    if events == [] {
    } else {
      var front, e := events[..|events| - 1], events[|events| - 1];
      var s := After(windowS, cap, front);
      OvershootIsBounded(windowS, cap, K, m, front);
      NextContained(windowS, cap, K, m, s, e);
      ContainedWithinLimit(cap, K, m, Next(windowS, cap, s, e));
      SpendIsConserved(windowS, cap, K, m, front);
      assert Spent(s) == Sum(s.current);
    }
  }
}
