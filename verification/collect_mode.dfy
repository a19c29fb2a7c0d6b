/** The watchdog of a collection run. Times are nanoseconds. */
module CollectMode {
  import opened Wrappers

  /** Two observations in a row at least this slow make the run essential. */
  const SLOW_QUERY := 30_000_000_000

  datatype Reason = TimedOut(name: string, d: int) | TwoSlow(first: string, second: string) | Given(why: string)

  /** What can happen to a watchdog after it is made. */
  datatype Event =
    | Register
    | Start
    | Observe(name: string, d: int, timedOut: bool)
    | Trip(why: string)

  /** fired holds the reasons the registered callback was called with. */
  datatype State = State(budget: int, tripBudget: int, started: Option<int>, tripped: bool, reason: Option<Reason>,
                         lastSlow: string, callback: bool, locked: bool, fired: seq<Reason>)

  function Fresh(budget: int, tripBudget: int, locked: bool): State {
    State(budget, tripBudget, None, false, None, "", false, locked, [])
  }

  // ----- one event

  function TripFor(s: State, reason: Reason, now: int): State {
    if s.locked then s
    else
      var t := s.(tripped := true, reason := Some(reason));
      var u := if t.budget <= 0 && t.tripBudget > 0 then t.(budget := t.tripBudget, started := Some(now)) else t;
      if u.callback then u.(fired := u.fired + [reason]) else u
  }

  function Step(s: State, e: Event, now: int): State {
    match e
    case Register => s.(callback := true)
    case Start => s.(started := Some(now))
    case Trip(why) => if s.tripped then s else TripFor(s, Given(why), now)
    case Observe(name, d, timedOut) =>
      if s.tripped then s
      else if timedOut then TripFor(s, TimedOut(name, d), now)
      else if d >= SLOW_QUERY then
        if s.lastSlow != "" then TripFor(s, TwoSlow(s.lastSlow, name), now) else s.(lastSlow := name)
      else s.(lastSlow := "")
  }

  predicate Over(s: State, now: int) {
    s.budget > 0 && s.started.Some? && now - s.started.value > s.budget
  }

  // ----- the object

  /** A clock that never goes back. */
  class Clock {
    var now: int

    constructor () {
      now := 0;
    }

    method Now() returns (t: int)
      modifies this
      ensures t == now >= old(now)
    {
      var passed :| passed >= 0;
      now := now + passed;
      t := now;
    }
  }

  class Watchdog {
    var budget: int
    var tripBudget: int
    var started: Option<int>
    var tripped: bool
    var reason: Option<Reason>
    var lastSlow: string
    var onTrip: bool
    var locked: bool
    var calls: seq<Reason>
    const clock: Clock

    ghost function Value(): State
      reads this
    {
      State(budget, tripBudget, started, tripped, reason, lastSlow, onTrip, locked, calls)
    }

    constructor (budget: int, clock: Clock)
      ensures Value() == Fresh(budget, 0, false) && this.clock == clock
    {
      this.budget := budget;
      this.clock := clock;
      tripBudget, started, tripped, reason := 0, None, false, None;
      lastSlow, onTrip, locked, calls := "", false, false, [];
    }

    method Locked()
      modifies this
      ensures Value() == old(Value()).(locked := true)
    {
      locked := true;
    }

    method WithTripBudget(d: int)
      modifies this
      ensures Value() == old(Value()).(tripBudget := d)
    {
      tripBudget := d;
    }

    method OnTrip()
      modifies this
      ensures Value() == Step(old(Value()), Register, clock.now)
    {
      onTrip := true;
    }

    method Start()
      modifies this, clock
      ensures clock.now >= old(clock.now)
      ensures Value() == Step(old(Value()), Event.Start, clock.now)
    {
      var t := clock.Now();
      started := Some(t);
    }

    method Observe(name: string, d: int, timedOut: bool)
      modifies this, clock
      ensures clock.now >= old(clock.now)
      ensures Value() == Step(old(Value()), Event.Observe(name, d, timedOut), clock.now)
    {
      if tripped {
        return;
      }
      if timedOut {
        TripNow(TimedOut(name, d));
        return;
      }
      if d >= SLOW_QUERY {
        if lastSlow != "" {
          TripNow(TwoSlow(lastSlow, name));
          return;
        }
        lastSlow := name;
        return;
      }
      lastSlow := "";
    }

    method TripNow(why: Reason)
      modifies this, clock
      ensures clock.now >= old(clock.now)
      ensures Value() == TripFor(old(Value()), why, clock.now)
    {
      if locked {
        return;
      }
      tripped, reason := true, Some(why);
      if budget <= 0 && tripBudget > 0 {
        var t := clock.Now();
        budget, started := tripBudget, Some(t);
      }
      if onTrip {
        calls := calls + [why];
      }
    }

    method Trip(why: string)
      modifies this, clock
      ensures clock.now >= old(clock.now)
      ensures Value() == Step(old(Value()), Event.Trip(why), clock.now)
    {
      if !tripped {
        TripNow(Given(why));
      }
    }

    method OverBudget() returns (over: bool)
      modifies clock
      ensures clock.now >= old(clock.now)
      ensures over == Over(Value(), clock.now)
      ensures forall b, tb, l, es :: Value() == Run(Fresh(b, tb, l), es) ==> (over <==> Spent(b, tb, l, es, clock.now))
    {
      forall b, tb, l, es, now | Value() == Run(Fresh(b, tb, l), es)
        ensures Over(Value(), now) <==> Spent(b, tb, l, es, now)
      {
        SpentExactly(b, tb, l, es, now);
      }
      hide Spent, Run;
      if budget <= 0 || started.None? {
        return false;
      }
      var t := clock.Now();
      over := t - started.value > budget;
    }
  }

  // ----- whole runs

  /** An event and the time the clock showed. */
  datatype Moment = Moment(event: Event, now: int)

  function Run(s: State, es: seq<Moment>): State {
    if es == [] then s
    else
      var n := |es| - 1;
      Step(Run(s, es[..n]), es[n].event, es[n].now)
  }

  function Observed(es: seq<Moment>): seq<Event> {
    if es == [] then []
    else
      var n := |es| - 1;
      if es[n].event.Observe? then Observed(es[..n]) + [es[n].event] else Observed(es[..n])
  }

  predicate Slow(e: Event) {
    e.Observe? && e.d >= SLOW_QUERY
  }

  predicate TripsAlone(e: Event) {
    e.Trip? || (e.Observe? && e.timedOut)
  }

  /** Two consecutive slow observations, the first of a query with a name. */
  predicate SlowPair(obs: seq<Event>, j: int) {
    0 <= j < |obs| - 1 && Slow(obs[j]) && obs[j].name != "" && Slow(obs[j + 1])
  }

  ghost predicate Crawled(obs: seq<Event>) {
    exists j :: SlowPair(obs, j)
  }

  ghost predicate SomeTrip(es: seq<Moment>) {
    exists i :: 0 <= i < |es| && TripsAlone(es[i].event)
  }

  lemma CrawledOn(obs: seq<Event>, e: Event)
    ensures Crawled(obs + [e]) <==> Crawled(obs) || SlowPair(obs + [e], |obs| - 1)
  {
    var more := obs + [e];
    if Crawled(obs) {
      var j :| SlowPair(obs, j);
      assert SlowPair(more, j);
    }
    if Crawled(more) {
      var j :| SlowPair(more, j);
      assert j == |obs| - 1 || SlowPair(obs, j);
    }
  }

  lemma SomeTripOn(es: seq<Moment>, n: nat)
    requires |es| == n + 1
    ensures SomeTrip(es) <==> SomeTrip(es[..n]) || TripsAlone(es[n].event)
  {
    if SomeTrip(es) {
      var i :| 0 <= i < |es| && TripsAlone(es[i].event);
      assert i < n ==> es[..n][i] == es[i];
    }
    if SomeTrip(es[..n]) {
      var i :| 0 <= i < n && TripsAlone(es[..n][i].event);
      assert es[..n][i] == es[i];
    }
  }

  lemma {:induction false} Runs(s: State, es: seq<Moment>)
    requires !s.tripped && !s.locked && s.lastSlow == ""
    ensures var r, obs := Run(s, es), Observed(es);
            && !r.locked && (forall e :: e in obs ==> e.Observe?)
            && (r.tripped <==> SomeTrip(es) || Crawled(obs))
            && (!r.tripped ==> r.lastSlow == if obs != [] && Slow(obs[|obs| - 1]) then obs[|obs| - 1].name else "")
  {
    hide Crawled, SomeTrip, Step;
    if es == [] {
      NothingYet();
    } else {
      var n := |es| - 1;
      Runs(s, es[..n]);
      SomeTripOn(es, n);
      RunsStep(Run(s, es[..n]), Observed(es[..n]), SomeTrip(es[..n]), es[n].event, es[n].now);
    }
  }

  lemma RunsStep(q: State, obs: seq<Event>, some: bool, e: Event, now: int)
    requires !q.locked && (forall o :: o in obs ==> o.Observe?) && (q.tripped <==> some || Crawled(obs))
    requires !q.tripped ==> q.lastSlow == if obs != [] && Slow(obs[|obs| - 1]) then obs[|obs| - 1].name else ""
    ensures var r, more := Step(q, e, now), if e.Observe? then obs + [e] else obs;
            && !r.locked
            && (r.tripped <==> (some || TripsAlone(e)) || Crawled(more))
            && (!r.tripped ==> r.lastSlow == if more != [] && Slow(more[|more| - 1]) then more[|more| - 1].name else "")
  {
    hide Crawled;
    CrawledOn(obs, e);
  }

  lemma NothingYet()
    ensures !Crawled([]) && !SomeTrip([])
  {
  }

  /** An unlocked watchdog is tripped exactly when it was told to, a query timed
      out, or two observations in a row were slow. For queries that all have
      names the last condition needs no exception. */
  lemma TrippedExactly(budget: int, tripBudget: int, es: seq<Moment>)
    ensures Run(Fresh(budget, tripBudget, false), es).tripped <==> SomeTrip(es) || Crawled(Observed(es))
    ensures (forall e :: e in Observed(es) ==> e.Observe? && e.name != "") ==>
              (Crawled(Observed(es)) <==>
               exists j :: 0 <= j < |Observed(es)| - 1 && Slow(Observed(es)[j]) && Slow(Next(Observed(es), j)))
  {
    hide Run, Observed, SomeTrip;
    Runs(Fresh(budget, tripBudget, false), es);
    var obs := Observed(es);
    if forall e :: e in obs ==> e.Observe? && e.name != "" {
      if Crawled(obs) {
        var j :| SlowPair(obs, j);
        assert Slow(obs[j]) && Slow(Next(obs, j));
      }
      if j :| 0 <= j < |obs| - 1 && Slow(obs[j]) && Slow(Next(obs, j)) {
        assert obs[j] in obs;
        assert SlowPair(obs, j);
      }
    }
  }

  function Next(obs: seq<Event>, j: int): Event
    requires 0 <= j < |obs| - 1
  {
    obs[j + 1]
  }

  /** A query without a name breaks the streak: these two slow queries in a row
      leave the run full. */
  lemma NamelessBreaksStreak()
    ensures var es := [Moment(Observe("", SLOW_QUERY, false), 0), Moment(Observe("b.sql", SLOW_QUERY, false), 1)];
            !Run(Fresh(0, 0, false), es).tripped && Slow(es[0].event) && Slow(es[1].event)
  {
    var a, b := Moment(Observe("", SLOW_QUERY, false), 0), Moment(Observe("b.sql", SLOW_QUERY, false), 1);
    assert [a, b][..1] == [a] && [a][..0] == [];
    assert Run(Fresh(0, 0, false), [a]).lastSlow == "";
  }

  /** A locked watchdog never trips, never calls back and keeps its budget. */
  lemma {:induction false} LockedNeverTrips(budget: int, tripBudget: int, es: seq<Moment>)
    ensures var r := Run(Fresh(budget, tripBudget, true), es);
            !r.tripped && r.fired == [] && r.budget == budget && r.locked
  {
    if es != [] {
      LockedNeverTrips(budget, tripBudget, es[..|es| - 1]);
    }
  }

  lemma {:induction false} RunAppend(s: State, es: seq<Moment>, more: seq<Moment>)
    ensures Run(s, es + more) == Run(Run(s, es), more)
  {
    hide Step;
    if more == [] {
      assert es + more == es;
    } else {
      var n := |more| - 1;
      RunAppend(s, es, more[..n]);
      assert (es + more)[..|es| + n] == es + more[..n];
    }
  }

  /** Once tripped a run stays so, for the first reason, and the callback is not
      called again. */
  lemma {:induction false} TrippedForGood(s: State, es: seq<Moment>)
    requires s.tripped
    ensures var r := Run(s, es); r.tripped && r.reason == s.reason && r.fired == s.fired && r.budget == s.budget
  {
    if es != [] {
      TrippedForGood(s, es[..|es| - 1]);
    }
  }

  /** A callback registered first is called exactly once in a run that trips, with
      the reason the run then keeps, and never in one that does not. */
  lemma {:induction false} CalledOnce(budget: int, tripBudget: int, locked: bool, es: seq<Moment>)
    requires es != [] && es[0].event.Register?
    ensures var r := Run(Fresh(budget, tripBudget, locked), es);
            && r.callback
            && (r.tripped <==> r.reason.Some?)
            && r.fired == if r.tripped then [r.reason.value] else []
  {
    var n := |es| - 1;
    if n == 0 {
      assert es[..0] == [];
    } else {
      assert es[..n][0] == es[0];
      CalledOnce(budget, tripBudget, locked, es[..n]);
    }
  }

  /** A given budget is never replaced; without one, tripping brings the trip budget. */
  lemma {:induction false} BudgetKept(budget: int, tripBudget: int, locked: bool, es: seq<Moment>)
    ensures var r := Run(Fresh(budget, tripBudget, locked), es);
            && r.tripBudget == tripBudget
            && r.budget == if budget <= 0 && tripBudget > 0 && r.tripped then tripBudget else budget
  {
    if es != [] {
      BudgetKept(budget, tripBudget, locked, es[..|es| - 1]);
    }
  }

  // ----- when the budget is spent

  /** Something made the run essential. */
  ghost predicate Alarmed(es: seq<Moment>) {
    SomeTrip(es) || Crawled(Observed(es))
  }

  /** The run became essential at moment k. */
  ghost predicate TripAt(es: seq<Moment>, k: int) {
    0 <= k < |es| && Alarmed(es[..k + 1]) && !Alarmed(es[..k])
  }

  ghost predicate LastStart(es: seq<Moment>, i: int) {
    0 <= i < |es| && es[i].event.Start? && forall j :: i < j < |es| ==> !es[j].event.Start?
  }

  /** The later of moment k and the last start after it. */
  ghost predicate StartFrom(es: seq<Moment>, k: int, i: int) {
    0 <= k <= i < |es| && (i == k || es[i].event.Start?) && forall j :: i < j < |es| ==> !es[j].event.Start?
  }

  /** A given budget runs from the last start; without one, the trip budget of an
      unlocked run from the trip, or from a start after it. */
  ghost predicate Spent(budget: int, tripBudget: int, locked: bool, es: seq<Moment>, now: int) {
    if budget > 0 then exists i :: LastStart(es, i) && now - es[i].now > budget
    else
      && !locked && tripBudget > 0
      && exists k, i :: TripAt(es, k) && StartFrom(es, k, i) && now - es[i].now > tripBudget
  }

  lemma {:induction false} GivenClock(budget: int, tripBudget: int, locked: bool, es: seq<Moment>)
    requires budget > 0
    ensures var r := Run(Fresh(budget, tripBudget, locked), es);
            && r.budget == budget
            && (r.started.Some? ==> exists i :: LastStart(es, i) && r.started.value == es[i].now)
            && (r.started.None? ==> forall i :: !LastStart(es, i))
  {
    if es != [] {
      var n := |es| - 1;
      GivenClock(budget, tripBudget, locked, es[..n]);
      var r := Run(Fresh(budget, tripBudget, locked), es);
      if es[n].event.Start? {
        assert LastStart(es, n);
      } else if r.started.Some? {
        var i :| LastStart(es[..n], i) && r.started.value == es[..n][i].now;
        assert es[..n][i] == es[i] && LastStart(es, i);
      } else {
        forall i ensures !LastStart(es, i) {
          assert 0 <= i < n ==> es[..n][i] == es[i] && !LastStart(es[..n], i);
        }
      }
    }
  }

  lemma OneStart(es: seq<Moment>, i: int, j: int)
    requires LastStart(es, i) && LastStart(es, j)
    ensures i == j
  {
  }

  lemma {:induction false} AlarmedStays(es: seq<Moment>, n: nat, m: nat)
    requires n <= m <= |es| && Alarmed(es[..n])
    ensures Alarmed(es[..m])
  {
    hide SomeTrip, Crawled;
    if n < m {
      AlarmedStays(es, n, m - 1);
      assert es[..m][..m - 1] == es[..m - 1];
      SomeTripOn(es[..m], m - 1);
      CrawledOn(Observed(es[..m - 1]), es[m - 1].event);
    }
  }

  lemma OneTrip(es: seq<Moment>, k: int, l: int)
    requires TripAt(es, k) && TripAt(es, l)
    ensures k == l
  {
    hide Alarmed;
    if k < l { AlarmedStays(es, k + 1, l); }
    if l < k { AlarmedStays(es, l + 1, k); }
  }

  lemma OneFrom(es: seq<Moment>, k: int, i: int, j: int)
    requires StartFrom(es, k, i) && StartFrom(es, k, j)
    ensures i == j
  {
  }

  lemma {:induction false} TripClock(budget: int, tripBudget: int, es: seq<Moment>)
    requires budget <= 0 && tripBudget > 0
    ensures var r := Run(Fresh(budget, tripBudget, false), es);
            && (r.tripped <==> Alarmed(es)) && !r.locked && r.tripBudget == tripBudget
            && (!r.tripped ==> r.budget <= 0)
            && (r.tripped ==> r.budget == tripBudget && r.started.Some?
                              && exists k, i :: TripAt(es, k) && StartFrom(es, k, i) && r.started.value == es[i].now)
  {
    hide SomeTrip, Crawled, Alarmed, Step;
    TrippedExactly(budget, tripBudget, es);
    AlarmedIs(es);
    if es == [] {
    } else {
      var n := |es| - 1;
      var s := Fresh(budget, tripBudget, false);
      TripClock(budget, tripBudget, es[..n]);
      var q, r := Run(s, es[..n]), Run(s, es);
      assert es[..n + 1] == es;
      StepFacts(q, es[n].event, es[n].now);
      if q.tripped {
        var k, i :| TripAt(es[..n], k) && StartFrom(es[..n], k, i) && q.started.value == es[..n][i].now;
        assert es[..n][..k] == es[..k] && es[..n][..k + 1] == es[..k + 1] && es[..n][i] == es[i];
        assert TripAt(es, k);
        StartFromOn(es, n, k, i);
        assert StartFrom(es, k, if es[n].event.Start? then n else i);
      } else if r.tripped {
        assert TripAt(es, n) && StartFrom(es, n, n);
      }
    }
  }

  lemma StepFacts(q: State, e: Event, now: int)
    requires !q.locked
    ensures var r := Step(q, e, now);
            && !r.locked && r.tripBudget == q.tripBudget
            && (q.tripped ==> r.tripped && r.budget == q.budget)
            && (q.tripped ==> r.started == if e.Start? then Some(now) else q.started)
            && (!r.tripped ==> r.budget == q.budget)
            && (!q.tripped && r.tripped && q.budget <= 0 && q.tripBudget > 0 ==>
                  r.budget == q.tripBudget && r.started == Some(now))
  {
  }

  lemma AlarmedIs(es: seq<Moment>)
    ensures Alarmed(es) <==> SomeTrip(es) || Crawled(Observed(es))
  {
  }

  lemma StartFromOn(es: seq<Moment>, n: nat, k: int, i: int)
    requires |es| == n + 1 && StartFrom(es[..n], k, i)
    ensures StartFrom(es, k, if es[n].event.Start? then n else i)
  {
    assert forall j :: 0 <= j < n ==> es[..n][j] == es[j];
  }

  /** Why the run became essential at moment k: what it was told, the query that timed
      out, or the two slow ones in the order they were observed. */
  ghost predicate Because(es: seq<Moment>, k: int, reason: Reason)
    requires 0 <= k < |es|
  {
    match es[k].event
    case Trip(why) => reason == Given(why)
    case Observe(name, d, timedOut) =>
      if timedOut then reason == TimedOut(name, d)
      else
        var obs := Observed(es[..k]);
        obs != [] && obs[|obs| - 1].Observe? && reason == TwoSlow(obs[|obs| - 1].name, name)
    case _ => false
  }

  /** A run keeps the reason of the moment it became essential. */
  lemma {:induction false} ReasonExactly(budget: int, tripBudget: int, es: seq<Moment>, k: int)
    requires TripAt(es, k)
    ensures var r := Run(Fresh(budget, tripBudget, false), es); r.reason.Some? && Because(es, k, r.reason.value)
  {
    hide Alarmed, SomeTrip, Crawled, Step;
    var s := Fresh(budget, tripBudget, false);
    var before, after := es[..k], es[..k + 1];
    Runs(s, before);
    Runs(s, after);
    AlarmedIs(before);
    AlarmedIs(after);
    assert after[..k] == before && after[k] == es[k];
    TripStep(Run(s, before), es, k);
    RunAppend(s, after, es[k + 1..]);
    assert after + es[k + 1..] == es;
    TrippedForGood(Run(s, after), es[k + 1..]);
  }

  lemma TripStep(q: State, es: seq<Moment>, k: int)
    requires 0 <= k < |es| && !q.tripped && !q.locked
    requires var obs := Observed(es[..k]);
             && (forall e :: e in obs ==> e.Observe?)
             && q.lastSlow == if obs != [] && Slow(obs[|obs| - 1]) then obs[|obs| - 1].name else ""
    requires Step(q, es[k].event, es[k].now).tripped
    ensures var r := Step(q, es[k].event, es[k].now); r.reason.Some? && Because(es, k, r.reason.value)
  {
    hide Observed;
  }

  /** Over all runs the budget is spent exactly as the times of the events say. */
  lemma SpentExactly(budget: int, tripBudget: int, locked: bool, es: seq<Moment>, now: int)
    ensures var r := Run(Fresh(budget, tripBudget, locked), es);
            (r.budget > 0 && r.started.Some? && now - r.started.value > r.budget) <==>
            Spent(budget, tripBudget, locked, es, now)
  {
    hide Alarmed, Run;
    var r := Run(Fresh(budget, tripBudget, locked), es);
    if budget > 0 {
      GivenClock(budget, tripBudget, locked, es);
      if i :| LastStart(es, i) && now - es[i].now > budget {
        var j :| LastStart(es, j) && r.started.value == es[j].now;
        OneStart(es, i, j);
      }
    } else if locked {
      LockedNeverTrips(budget, tripBudget, es);
    } else if tripBudget <= 0 {
      BudgetKept(budget, tripBudget, locked, es);
    } else {
      TripClock(budget, tripBudget, es);
      if k, i :| TripAt(es, k) && StartFrom(es, k, i) && now - es[i].now > tripBudget {
        TripAlarms(es, k);
        var l, j :| TripAt(es, l) && StartFrom(es, l, j) && r.started.value == es[j].now;
        OneTrip(es, k, l);
        OneFrom(es, k, i, j);
      }
    }
  }

  lemma TripAlarms(es: seq<Moment>, k: int)
    requires TripAt(es, k)
    ensures Alarmed(es)
  {
    AlarmedStays(es, k + 1, |es|);
    assert es[..|es|] == es;
  }

  /** Once over budget, a run that is not started anew stays over budget,
      whatever is observed. */
  lemma {:induction false} OverForGood(s: State, es: seq<Moment>, now: int, later: int)
    requires Over(s, now) && now <= later
    requires forall i :: 0 <= i < |es| ==> !es[i].event.Start?
    ensures Over(Run(s, es), later)
  {
    if es != [] {
      var n := |es| - 1;
      assert forall i :: 0 <= i < n ==> es[..n][i] == es[i];
      OverForGood(s, es[..n], now, later);
      assert !es[n].event.Start?;
    }
  }
}
