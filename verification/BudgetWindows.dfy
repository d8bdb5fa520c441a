/** When spend windows begin and end, over whole runs of a tracker
    (src/kvgate/ratelimit/budget.py). */
module BudgetWindows {
  import opened Basics
  import opened Budget

  // ----- what one event does to the stored window -----

  /** Less than a window has passed since the stored start. */
  predicate Open(windowS: real, w: Option<Window>, at: real) {
    w.Some? && at - w.value.start < windowS
  }

  /** What was paid by the event. */
  function Cost(e: Event): real {
    if e.Record? && e.cost > 0.0 then e.cost else 0.0
  }

  /** While its time lasts a window keeps its start and only gathers costs.  After that
      the next check or record starts a new one; without a stored window the next
      positive cost does. */
  predicate Keeps(windowS: real, w: Option<Window>, e: Event, w': Option<Window>) {
    if e.Abandon? then w' == w
    else if Open(windowS, w, e.at) then w' == Some(Window(w.value.start, w.value.spent + Cost(e)))
    else if w.Some? || Cost(e) > 0.0 then w' == Some(Window(e.at, Cost(e)))
    else w' == None
  }

  /** A check is admitted if what the open window holds is below the cap. */
  predicate Admits(windowS: real, cap: real, w: Option<Window>, e: Event) {
    e.Check? && (if Open(windowS, w, e.at) then w.value.spent else 0.0) < cap
  }

  /** `ws` are the stored windows before the run and after each event; `admitted` says
      which events were admitted checks. */
  ghost predicate FollowsWindows(windowS: real, cap: real, events: seq<Event>, ws: seq<Option<Window>>,
                                 admitted: seq<bool>)
  {
    && |ws| == |events| + 1 && |admitted| == |events|
    && forall k :: 0 <= k < |events| ==>
         Keeps(windowS, ws[k], events[k], ws[k + 1]) && admitted[k] == Admits(windowS, cap, ws[k], events[k])
  }

  /** A tracker, fed the events of one tenant, does that. */
  method FeedTenant(tracker: BudgetTracker, tenant: string, cap: real, events: seq<Event>)
    returns (ws: seq<Option<Window>>, admitted: seq<bool>)
    requires tracker.enabled && tracker.windowS > 0.0 && tenant !in tracker.state
    modifies tracker
    ensures FollowsWindows(tracker.windowS, cap, events, ws, admitted)
    ensures ws[0] == None && ws[|events|] == tracker.WindowOf(tenant)
    ensures forall k :: 0 <= k <= |events| ==> ws[k] == After(tracker.windowS, cap, events[..k]).window
  {
    ws, admitted := [None], [];
    hide Keeps, Admits, FollowsWindows, Next;
    NothingFollowed(tracker.windowS, cap, ws, admitted);
    assert events[..0] == [];
    for k := 0 to |events|
      invariant |ws| == k + 1 && |admitted| == k && ws[0] == None && ws[k] == tracker.WindowOf(tenant)
      invariant FollowsWindows(tracker.windowS, cap, events[..k], ws, admitted)
      invariant forall i :: 0 <= i <= k ==> ws[i] == After(tracker.windowS, cap, events[..i]).window
    {
      var ok := FeedEvent(tracker, tenant, cap, events[k]);
      assert events[..k + 1][..k] == events[..k];
      FollowsOneMore(tracker.windowS, cap, events, ws, admitted, k, tracker.WindowOf(tenant), ok);
      ws, admitted := ws + [tracker.WindowOf(tenant)], admitted + [ok];
    }
    assert events[..|events|] == events;
  }

  lemma NothingFollowed(windowS: real, cap: real, ws: seq<Option<Window>>, admitted: seq<bool>)
    requires |ws| == 1 && admitted == []
    ensures FollowsWindows(windowS, cap, [], ws, admitted)
  {
  }

  lemma FollowsOneMore(windowS: real, cap: real, events: seq<Event>, ws: seq<Option<Window>>, admitted: seq<bool>,
                       k: nat, w': Option<Window>, ok: bool)
    requires k < |events| && FollowsWindows(windowS, cap, events[..k], ws, admitted)
    requires Keeps(windowS, ws[k], events[k], w') && ok == Admits(windowS, cap, ws[k], events[k])
    ensures FollowsWindows(windowS, cap, events[..k + 1], ws + [w'], admitted + [ok])
  {
    hide Keeps, Admits;
    var more := ws + [w'];
    forall i | 0 <= i < k + 1
      ensures Keeps(windowS, more[i], events[..k + 1][i], more[i + 1])
      ensures (admitted + [ok])[i] == Admits(windowS, cap, more[i], events[..k + 1][i])
    {
      if i < k {
        assert events[..k + 1][i] == events[..k][i];
      }
    }
  }

  method FeedEvent(tracker: BudgetTracker, tenant: string, cap: real, e: Event) returns (admitted: bool)
    requires tracker.enabled && tracker.windowS > 0.0
    modifies tracker
    ensures Keeps(tracker.windowS, old(tracker.WindowOf(tenant)), e, tracker.WindowOf(tenant))
    ensures admitted == Admits(tracker.windowS, cap, old(tracker.WindowOf(tenant)), e)
    ensures forall s: Tracker :: s.window == old(tracker.WindowOf(tenant)) ==>
      Next(tracker.windowS, cap, s, e).window == tracker.WindowOf(tenant)
  {
    match e
    case Check(at) =>
      var d := tracker.Check(tenant, Some(cap), at, at);
      admitted := d.allowed;
    case Record(at, cost) =>
      var spent := tracker.Record(tenant, cost, at);
      admitted := false;
    case Abandon(_) => admitted := false;
  }

  // ----- over whole runs -----

  ghost predicate Ordered(events: seq<Event>) {
    forall i, j :: 0 <= i < j < |events| ==> events[i].at <= events[j].at
  }

  /** Once a window is stored, what is stored later has the same start and no less
      spend, or starts at least a window later. */
  lemma {:induction false} WindowsAreApart(windowS: real, cap: real, events: seq<Event>, ws: seq<Option<Window>>,
                                          admitted: seq<bool>, i: nat, j: nat)
    requires FollowsWindows(windowS, cap, events, ws, admitted) && windowS > 0.0
    requires i <= j <= |events| && ws[i].Some?
    ensures ws[j].Some?
    ensures var w, w' := ws[i].value, ws[j].value;
      (w'.start == w.start && w'.spent >= w.spent) || w'.start >= w.start + windowS
    decreases j
  {
    if i == j {
    } else {
      WindowsAreApart(windowS, cap, events, ws, admitted, i, j - 1);
      assert Keeps(windowS, ws[j - 1], events[j - 1], ws[j]);
    }
  }

  /** Until a window has passed since its start, no event moves it or lowers its spend. */
  lemma {:induction false} WindowStays(windowS: real, cap: real, events: seq<Event>, ws: seq<Option<Window>>,
                                       admitted: seq<bool>, i: nat, j: nat)
    requires FollowsWindows(windowS, cap, events, ws, admitted) && Ordered(events)
    requires i <= j <= |events| && ws[i].Some?
    requires j > i ==> events[j - 1].at < ws[i].value.start + windowS
    ensures ws[j].Some? && ws[j].value.start == ws[i].value.start && ws[j].value.spent >= ws[i].value.spent
    decreases j
  {
    if i == j {
    } else {
      if j - 1 > i {
        assert events[j - 2].at <= events[j - 1].at;
      }
      WindowStays(windowS, cap, events, ws, admitted, i, j - 1);
      assert Keeps(windowS, ws[j - 1], events[j - 1], ws[j]);
    }
  }

  /** A tenant at its cap is denied until a window has passed since the start, and the
      first check from then on is admitted (for a positive cap). */
  lemma DeniedUntilReset(windowS: real, cap: real, events: seq<Event>, ws: seq<Option<Window>>, admitted: seq<bool>,
                         i: nat, j: nat)
    requires FollowsWindows(windowS, cap, events, ws, admitted) && Ordered(events)
    requires i <= j < |events| && ws[i].Some? && ws[i].value.spent >= cap > 0.0 && events[j].Check?
    requires forall k :: i <= k < j ==> events[k].at < ws[i].value.start + windowS
    ensures admitted[j] <==> events[j].at >= ws[i].value.start + windowS
  {
    WindowStays(windowS, cap, events, ws, admitted, i, j);
    assert admitted[j] == Admits(windowS, cap, ws[j], events[j]);
  }
}
