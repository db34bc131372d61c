/** Every run of a circuit breaker shared by overlapping executions: calls begin and end in
    any order, and an execution may end generations after it began. The clock never goes
    back. */
module BreakerRuns {
  import opened Counting
  import opened Options
  import opened Breaker

  datatype Event = Begins(now: int) | Ends(now: int, token: nat, ok: bool)

  /** The breaker with what the run has done to it: the tokens of the executions in flight,
      the outcomes counted in the current generation and when each was, the last clock
      reading, the reading at which the generation began, and the times at which the breaker
      tripped. */
  datatype System = System(
    b: Breaker, inFlight: multiset<nat>, history: seq<bool>, times: seq<int>, clock: int, since: int,
    trips: seq<int>)

  function Start(cfg: Config, now: int): System {
    System(New(cfg, now), multiset{}, [], [], now, now, [])
  }

  predicate Possible(s: System, e: Event) {
    e.now >= s.clock && (e.Ends? ==> e.token in s.inFlight)
  }

  /** The clock is read: the current generation may end. */
  function Refreshed(cfg: Config, s: System, now: int): System {
    var b := CurrentState(cfg, s.b, now);
    if b.generation == s.b.generation then s.(b := b, clock := now)
    else s.(b := b, clock := now, since := now, history := [], times := [])
  }

  /** A call is let through and takes the current generation as its token. */
  function Admitted(s: System): System {
    s.(b := s.b.(metrics := s.b.metrics.Executed()), inFlight := s.inFlight + multiset{s.b.generation})
  }

  /** An execution ends; its outcome counts only in the generation it began in. */
  function Finished(cfg: Config, s: System, token: nat, ok: bool): System {
    var left := s.(inFlight := s.inFlight - multiset{token});
    if token != s.b.generation then left
    else
      var b := if ok then Success(cfg, s.b, s.clock) else Failure(cfg, s.b, s.clock);
      left.(b := b,
        history := if b.generation == s.b.generation then s.history + [ok] else [],
        times := if b.generation == s.b.generation then s.times + [s.clock] else [],
        since := if b.generation == s.b.generation then s.since else s.clock,
        trips := if b.state == Tripped && s.b.state != Tripped then s.trips + [s.clock] else s.trips)
  }

  predicate Admits(cfg: Config, s: System, e: Event) {
    e.Begins? && Refreshed(cfg, s, e.now).b.state != Tripped
  }

  function Step(cfg: Config, s: System, e: Event): System {
    var r := Refreshed(cfg, s, e.now);
    if Admits(cfg, s, e) then Admitted(r)
    else if e.Ends? then Finished(cfg, r, e.token, e.ok)
    else r
  }

  /** The steps of a run are the two methods of the breaker. */
  lemma StepIsMethod(cfg: Config, s: System, e: Event)
    ensures e.Begins? ==> Begin(cfg, s.b, e.now) == (Step(cfg, s, e).b, Admits(cfg, s, e))
    ensures e.Ends? ==> End(cfg, s.b, e.now, e.token, e.ok) == Step(cfg, s, e).b
  {}

  predicate Valid(cfg: Config, s: System, es: seq<Event>)
    decreases |es|
  {
    es == [] || (Possible(s, es[0]) && Valid(cfg, Step(cfg, s, es[0]), es[1..]))
  }

  function Run(cfg: Config, s: System, es: seq<Event>): System
    requires Valid(cfg, s, es)
    decreases |es|
  {
    if es == [] then s else Run(cfg, Step(cfg, s, es[0]), es[1..])
  }

  ghost predicate Reachable(cfg: Config, s: System) {
    exists t: int, es: seq<Event> :: Valid(cfg, Start(cfg, t), es) && Run(cfg, Start(cfg, t), es) == s
  }

  /** The length of the run of `ok` at the end of the history. */
  function Trail(h: seq<bool>, ok: bool): nat {
    if h == [] || h[|h| - 1] != ok then 0 else Trail(h[..|h| - 1], ok) + 1
  }

  lemma Append(h: seq<bool>, x: bool, ok: bool)
    ensures Count(h + [x], ok) == Count(h, ok) + (if x == ok then 1 else 0)
    ensures Trail(h + [x], ok) == if x == ok then Trail(h, ok) + 1 else 0
  {
    CountAppend(h, x, ok);
  }

  lemma {:induction false} Counted(h: seq<bool>)
    ensures Count(h, true) + Count(h, false) == |h|
  {
    if h != [] {
      var init, last := h[..|h| - 1], h[|h| - 1];
      Counted(init);
      assert h == init + [last];
      CountAppend(init, last, true);
      CountAppend(init, last, false);
    }
  }

  lemma {:induction false} TrailWithin(h: seq<bool>, ok: bool)
    ensures Trail(h, ok) <= Count(h, ok)
  {
    if h != [] {
      var init, last := h[..|h| - 1], h[|h| - 1];
      TrailWithin(init, ok);
      assert h == init + [last];
      CountAppend(init, last, ok);
    }
  }

  // ---------- The invariant ----------

  predicate MetricsExact(m: Metrics, h: seq<bool>, pending: nat) {
    && m.executions == (|h| + pending) % WORD
    && m.successes == Count(h, true) % WORD
    && m.failures == Count(h, false) % WORD
    && m.consecutiveSuccesses == Trail(h, true) % WORD
    && m.consecutiveFailures == Trail(h, false) % WORD
  }

  predicate Timed(cfg: Config, s: System) {
    && s.since <= s.clock
    && |s.times| == |s.history|
    && (forall i :: 0 <= i < |s.times| ==> s.since <= s.times[i] <= s.clock)
    && (s.b.state == Standby ==> s.b.expiry == Some(s.since + cfg.interval))
    && (s.b.state == Standby && cfg.interval >= 0 ==> s.clock <= s.since + cfg.interval)
    && (s.b.state == Recovering <==> s.b.expiry.None?)
    && (s.b.state == Tripped ==> s.trips != [] && s.b.expiry == Some(s.trips[|s.trips| - 1] + cfg.trippedPeriod))
    && (s.b.state != Tripped ==> forall i :: 0 <= i < |s.trips| ==> s.trips[i] + cfg.trippedPeriod < s.clock)
    && (forall i :: 0 <= i < |s.trips| ==> s.trips[i] <= s.clock)
    && (forall i, j :: 0 <= i < j < |s.trips| ==> s.trips[i] <= s.trips[j])
  }

  predicate Inv(cfg: Config, s: System) {
    && MetricsExact(s.b.metrics, s.history, s.inFlight[s.b.generation])
    && (forall g :: g in s.inFlight ==> g <= s.b.generation)
    && (s.b.state == Tripped ==> s.b.generation !in s.inFlight && s.history == [])
    && s.b.onTripped == s.b.onStandBy + (if s.b.state == Standby then 0 else 1)
    && Timed(cfg, s)
  }

  lemma StartInv(cfg: Config, now: int)
    ensures Inv(cfg, Start(cfg, now))
  {}

  lemma IncMod(x: nat)
    ensures Inc(x % WORD) == (x + 1) % WORD
  {}

  lemma CountedOutcome(m: Metrics, h: seq<bool>, pending: nat, ok: bool)
    requires pending > 0 && MetricsExact(m, h, pending)
    ensures MetricsExact(if ok then m.Succeeded() else m.Failed(), h + [ok], pending - 1)
  {
    Append(h, ok, true);
    Append(h, ok, false);
    IncMod(Count(h, ok));
    IncMod(Trail(h, ok));
  }

  lemma NothingCounted()
    ensures MetricsExact(ZERO, [], 0)
  {}

  lemma RefreshedTimed(cfg: Config, s: System, now: int)
    requires Timed(cfg, s) && now >= s.clock
    ensures Timed(cfg, Refreshed(cfg, s, now))
  {}

  lemma RefreshedInv(cfg: Config, s: System, now: int)
    requires Inv(cfg, s) && now >= s.clock
    ensures Inv(cfg, Refreshed(cfg, s, now))
  {
    RefreshedTimed(cfg, s, now);
    NothingCounted();
  }

  lemma AdmittedInv(cfg: Config, s: System)
    requires Inv(cfg, s) && s.b.state != Tripped
    ensures Inv(cfg, Admitted(s))
  {
    IncMod(|s.history| + s.inFlight[s.b.generation]);
  }

  /** An outcome that leaves the generation as it is. */
  function CountedIn(s: System, ok: bool): System {
    s.(b := s.b.(metrics := if ok then s.b.metrics.Succeeded() else s.b.metrics.Failed()),
       inFlight := s.inFlight - multiset{s.b.generation},
       history := s.history + [ok], times := s.times + [s.clock])
  }

  /** An outcome that changes the state. */
  function MovedTo(cfg: Config, s: System, to: State): System {
    var b := NextGeneration(cfg, s.b.(state := to), s.clock);
    System(
      if to == Standby then b.(onStandBy := b.onStandBy + 1)
      else if s.b.state == Standby then b.(onTripped := b.onTripped + 1) else b,
      s.inFlight - multiset{s.b.generation}, [], [], s.clock, s.clock,
      if to == Tripped then s.trips + [s.clock] else s.trips)
  }

  lemma FinishedIs(cfg: Config, s: System, ok: bool)
    requires s.b.state != Tripped
    ensures var t, to := Finished(cfg, s, s.b.generation, ok), if ok then Standby else Tripped;
      t == CountedIn(s, ok) || (s.b.state != to && t == MovedTo(cfg, s, to))
  {}

  lemma CountedInInv(cfg: Config, s: System, ok: bool)
    requires Inv(cfg, s) && s.b.state != Tripped && s.b.generation in s.inFlight
    ensures Inv(cfg, CountedIn(s, ok))
  {
    CountedOutcome(s.b.metrics, s.history, s.inFlight[s.b.generation], ok);
  }

  lemma MovedToTimed(cfg: Config, s: System, to: State)
    requires Timed(cfg, s) && s.b.state != Tripped && s.b.state != to && to != Recovering
    ensures Timed(cfg, MovedTo(cfg, s, to))
  {}

  lemma MovedToInv(cfg: Config, s: System, to: State)
    requires Inv(cfg, s) && s.b.state != Tripped && s.b.state != to && to != Recovering
    ensures Inv(cfg, MovedTo(cfg, s, to))
  {
    MovedToTimed(cfg, s, to);
    NothingCounted();
  }

  lemma FinishedInv(cfg: Config, s: System, token: nat, ok: bool)
    requires Inv(cfg, s) && token in s.inFlight
    ensures Inv(cfg, Finished(cfg, s, token, ok))
  {
    if token == s.b.generation {
      var to := if ok then Standby else Tripped;
      FinishedIs(cfg, s, ok);
      CountedInInv(cfg, s, ok);
      if s.b.state != to {
        MovedToInv(cfg, s, to);
      }
    }
  }

  lemma StepInv(cfg: Config, s: System, e: Event)
    requires Inv(cfg, s) && Possible(s, e)
    ensures Inv(cfg, Step(cfg, s, e))
  {
    var r := Refreshed(cfg, s, e.now);
    RefreshedInv(cfg, s, e.now);
    if Admits(cfg, s, e) {
      AdmittedInv(cfg, r);
    } else if e.Ends? {
      FinishedInv(cfg, r, e.token, e.ok);
    }
  }

  lemma {:induction false} RunInv(cfg: Config, s: System, es: seq<Event>)
    requires Inv(cfg, s) && Valid(cfg, s, es)
    ensures Inv(cfg, Run(cfg, s, es))
    decreases |es|
  {
    if es != [] {
      StepInv(cfg, s, es[0]);
      RunInv(cfg, Step(cfg, s, es[0]), es[1..]);
    }
  }

  lemma ReachableInv(cfg: Config, s: System)
    requires Reachable(cfg, s)
    ensures Inv(cfg, s)
  {
    var t: int, es: seq<Event> :| Valid(cfg, Start(cfg, t), es) && Run(cfg, Start(cfg, t), es) == s;
    StartInv(cfg, t);
    RunInv(cfg, Start(cfg, t), es);
  }

  // ---------- Main results ----------

  /** In every reachable state the executions of the current generation are those counted as
      a success, those counted as a failure and those still in flight; the consecutive
      counters are the runs that end its history; and nothing is in flight while tripped.
      The 32-bit counters agree with the true numbers modulo their width. */
  lemma Conservation(cfg: Config, s: System)
    requires Reachable(cfg, s)
    ensures var m, pending := s.b.metrics, s.inFlight[s.b.generation];
      && m.executions == (Count(s.history, true) + Count(s.history, false) + pending) % WORD
      && m.executions == (m.successes + m.failures + pending) % WORD
      && m.consecutiveSuccesses == Trail(s.history, true) % WORD
      && m.consecutiveFailures == Trail(s.history, false) % WORD
    ensures s.b.state == Tripped ==> s.b.generation !in s.inFlight
  {
    ReachableInv(cfg, s);
    AgreeModulo(s.b.metrics, s.history, s.inFlight[s.b.generation]);
  }

  /** Until a generation holds 2^32 executions the counters are the true numbers. */
  lemma ConservationExact(cfg: Config, s: System)
    requires Reachable(cfg, s) && |s.history| + s.inFlight[s.b.generation] < WORD
    ensures var m := s.b.metrics;
      && m.executions == m.successes + m.failures + s.inFlight[s.b.generation]
      && m.successes == Count(s.history, true) && m.failures == Count(s.history, false)
      && m.consecutiveSuccesses == Trail(s.history, true) && m.consecutiveFailures == Trail(s.history, false)
  {
    ReachableInv(cfg, s);
    AgreeExactly(s.b.metrics, s.history, s.inFlight[s.b.generation]);
  }

  lemma AgreeModulo(m: Metrics, h: seq<bool>, pending: nat)
    requires MetricsExact(m, h, pending)
    ensures m.executions == (Count(h, true) + Count(h, false) + pending) % WORD
    ensures m.executions == (m.successes + m.failures + pending) % WORD
  {
    Counted(h);
    ModSum(Count(h, true), Count(h, false), pending);
  }

  lemma Small(x: nat)
    requires x < WORD
    ensures x % WORD == x
  {}

  lemma AgreeExactly(m: Metrics, h: seq<bool>, pending: nat)
    requires MetricsExact(m, h, pending) && |h| + pending < WORD
    ensures m.executions == m.successes + m.failures + pending
    ensures m.successes == Count(h, true) && m.failures == Count(h, false)
    ensures m.consecutiveSuccesses == Trail(h, true) && m.consecutiveFailures == Trail(h, false)
  {
    Counted(h);
    TrailWithin(h, true);
    TrailWithin(h, false);
    Small(|h| + pending);
    Small(Count(h, true));
    Small(Count(h, false));
    Small(Trail(h, true));
    Small(Trail(h, false));
  }

  lemma ModSum(a: nat, b: nat, c: nat)
    ensures (a + b + c) % WORD == (a % WORD + b % WORD + c) % WORD
  {}

  /** An execution that ends in a later generation than it began in changes nothing beyond
      what reading the clock alone would have. */
  lemma LateCompletionIgnored(cfg: Config, s: System, e: Event)
    requires Reachable(cfg, s) && Possible(s, e) && e.Ends? && e.token != s.b.generation
    ensures Step(cfg, s, e) == Refreshed(cfg, s, e.now).(inFlight := s.inFlight - multiset{e.token})
  {
    ReachableInv(cfg, s);
    assert e.token <= s.b.generation;
  }

  /** After a trip at time `t` no call is admitted at any clock reading up to and including
      `t + trippedPeriod`, whatever happens in between. */
  lemma NoAdmissionWhileTripped(cfg: Config, s: System, now: int, i: nat)
    requires Reachable(cfg, s) && Possible(s, Begins(now)) && Admits(cfg, s, Begins(now))
    requires i < |s.trips|
    ensures now > s.trips[i] + cfg.trippedPeriod
  {
    ReachableInv(cfg, s);
  }

  /** A call is rejected exactly while the tripped period after the last trip is not over; the
      first call after it is let through and starts the recovery. */
  lemma AdmittedIff(cfg: Config, s: System, now: int)
    requires Reachable(cfg, s) && Possible(s, Begins(now))
    ensures s.b.state == Tripped ==> s.trips != []
    ensures Admits(cfg, s, Begins(now)) <==>
      (s.b.state == Tripped ==> now > s.trips[|s.trips| - 1] + cfg.trippedPeriod)
    ensures s.b.state == Tripped && Admits(cfg, s, Begins(now)) ==> Step(cfg, s, Begins(now)).b.state == Recovering
  {
    ReachableInv(cfg, s);
  }

  /** In standby the counted outcomes, one time for each, all fall into one interval, and so
      does the moment at which they are looked at. */
  lemma StandbyWindow(cfg: Config, s: System)
    requires Reachable(cfg, s) && cfg.interval >= 0 && s.b.state == Standby
    ensures |s.times| == |s.history|
    ensures forall i :: 0 <= i < |s.times| ==> s.since <= s.times[i] <= s.clock <= s.since + cfg.interval
    ensures s.since <= s.clock <= s.since + cfg.interval
  {
    ReachableInv(cfg, s);
  }

  predicate LegalMove(from: State, to: State) {
    || (from == Standby && to == Tripped)
    || (from == Tripped && to == Recovering)
    || (from == Recovering && to != Recovering)
  }

  /** Nothing, or one legal move into the next generation, or a renewal of standby. */
  predicate OneMove(b: Breaker, c: Breaker) {
    || (c.state == b.state && c.generation == b.generation)
    || (c.state == b.state == Standby && c.generation == b.generation + 1)
    || (LegalMove(b.state, c.state) && c.generation == b.generation + 1)
  }

  lemma RefreshMoves(cfg: Config, b: Breaker, t: int)
    ensures OneMove(b, CurrentState(cfg, b, t))
  {}

  lemma OutcomeMoves(cfg: Config, b: Breaker, t: int, ok: bool)
    ensures OneMove(b, if ok then Success(cfg, b, t) else Failure(cfg, b, t))
  {}

  /** An event changes the state at most once and only along the four edges of the diagram,
      and every change opens the next generation. */
  lemma OnlyLegalMoves(cfg: Config, s: System, e: Event)
    requires Reachable(cfg, s) && Possible(s, e)
    ensures OneMove(s.b, Step(cfg, s, e).b)
  {
    ReachableInv(cfg, s);
    RefreshMoves(cfg, s.b, e.now);
    var r := Refreshed(cfg, s, e.now);
    if e.Ends? && e.token == r.b.generation {
      assert e.token <= s.b.generation;
      OutcomeMoves(cfg, r.b, e.now, e.ok);
    }
  }

  /** `OnTripped` and `OnStandBy` alternate: their difference tells standby from the rest,
      however often a recovery trips again. */
  lemma CallbacksBalance(cfg: Config, s: System)
    requires Reachable(cfg, s)
    ensures s.b.onTripped - s.b.onStandBy == if s.b.state == Standby then 0 else 1
  {
    ReachableInv(cfg, s);
  }

  lemma ModAtMost(x: nat)
    ensures x % WORD <= x
  {}

  lemma AtLeast(f: real, n: real, ratio: real)
    requires n > 0.0 && f / n >= ratio
    ensures f >= ratio * n
  {
    Scale(n, ratio, f / n);
  }

  lemma Scale(c: real, x: real, y: real)
    requires c > 0.0 && x <= y
    ensures c * x <= c * y
  {}

  lemma RatioNeeds(m: Metrics, ratio: real, min: nat, k: nat)
    requires RatioTripper(ratio, min)(m) && min > 0 && ratio > 0.0
    requires ratio * min as real > k as real - 1.0
    ensures m.failures >= k
  {
    var f, n := m.failures as real, m.executions as real;
    assert f >= ratio * n by { AtLeast(f, n, ratio); }
    Scale(ratio, min as real, n);
  }

  /** Under the default settings, leaving standby takes at least nine failures counted in one
      generation, tripping again from recovery at least two, and returning to standby three
      successes in a row. */
  lemma DefaultThresholds(cfg: Config, jitter: int -> int, s: System, e: Event)
    requires CheckAndSetDefaults(DefaultSettings(), jitter) == Some(cfg)
    requires Reachable(cfg, s) && Possible(s, e)
    ensures var to := Step(cfg, s, e).b.state;
      && (s.b.state == Standby && to == Tripped ==> e.Ends? && !e.ok && Count(s.history + [false], false) >= 9)
      && (s.b.state == Recovering && to == Tripped ==> e.Ends? && !e.ok && Count(s.history + [false], false) >= 2)
      && (s.b.state == Recovering && to == Standby ==> e.Ends? && e.ok && Trail(s.history + [true], true) >= 3)
  {
    ReachableInv(cfg, s);
    var to := Step(cfg, s, e).b.state;
    if to != s.b.state && s.b.state != Tripped {
      CountedOutcome(s.b.metrics, s.history, s.inFlight[s.b.generation], e.ok);
      ModAtMost(Count(s.history + [false], false));
      ModAtMost(Trail(s.history + [true], true));
      if to == Tripped {
        if s.b.state == Standby {
          RatioNeeds(s.b.metrics.Failed(), DEFAULT_RATIO, DEFAULT_MIN_EXECUTIONS, 9);
        } else {
          RatioNeeds(s.b.metrics.Failed(), DEFAULT_RATIO / 2.0, DEFAULT_MIN_EXECUTIONS / 3, 2);
        }
      }
    }
  }

  // ---------- When a ratio trips ----------

  predicate Enough(failures: nat, executions: nat, ratio: real, min: nat) {
    executions >= min && failures as real >= ratio * executions as real
  }

  lemma RatioExact(m: Metrics, ratio: real, min: nat)
    requires min > 0
    ensures RatioTripper(ratio, min)(m) <==> Enough(m.failures, m.executions, ratio, min)
  {
    if m.executions >= min {
      Quotient(m.failures as real, m.executions as real, ratio);
    }
  }

  lemma Quotient(f: real, n: real, ratio: real)
    requires n > 0.0
    ensures f / n >= ratio <==> f >= ratio * n
  {
    if f / n >= ratio {
      AtLeast(f, n, ratio);
    } else {
      assert f / n * n == f;
      Below(f / n, ratio, n);
    }
  }

  lemma Below(x: real, y: real, c: real)
    requires c > 0.0 && x < y
    ensures x * c < y * c
  {}

  /** The trip function that applies in a state. */
  function TripIn(cfg: Config, state: State): TripFn {
    if state == Standby then cfg.trip else cfg.recover
  }

  predicate CountsNow(cfg: Config, s: System, e: Event) {
    && Possible(s, e) && e.Ends? && !e.ok && e.token == s.b.generation
    && s.b.state != Tripped && (s.b.state == Standby ==> e.now <= s.since + cfg.interval)
  }

  lemma TripsIff(cfg: Config, s: System, e: Event)
    requires Inv(cfg, s) && CountsNow(cfg, s, e)
    ensures Step(cfg, s, e).b.state == Tripped <==> TripIn(cfg, s.b.state)(s.b.metrics.Failed())
  {
    assert Refreshed(cfg, s, e.now).b == s.b;
  }

  lemma FailedCounts(m: Metrics, h: seq<bool>, pending: nat)
    requires MetricsExact(m, h, pending) && pending > 0 && |h| + pending < WORD
    ensures m.Failed().executions == |h| + pending && m.Failed().failures == Count(h, false) + 1
  {
    AgreeExactly(m, h, pending);
    Counted(h);
    Small(Count(h, false) + 1);
  }

  lemma RatioDecides(m: Metrics, h: seq<bool>, pending: nat, ratio: real, min: nat)
    requires MetricsExact(m, h, pending) && pending > 0 && |h| + pending < WORD && min > 0
    ensures RatioTripper(ratio, min)(m.Failed()) <==> Enough(Count(h, false) + 1, |h| + pending, ratio, min)
  {
    FailedCounts(m, h, pending);
    RatioExact(m.Failed(), ratio, min);
  }

  /** A failure that is counted trips the breaker exactly when, with it, the generation has the
      minimum of executions, those in flight included, and the ratio of failures. */
  lemma RatioTripsIff(cfg: Config, ratio: real, min: nat, s: System, e: Event)
    requires Reachable(cfg, s) && CountsNow(cfg, s, e)
    requires TripIn(cfg, s.b.state) == RatioTripper(ratio, min) && min > 0
    requires |s.history| + s.inFlight[s.b.generation] < WORD
    ensures var n, f := |s.history| + s.inFlight[s.b.generation], Count(s.history, false) + 1;
      Step(cfg, s, e).b.state == Tripped <==> Enough(f, n, ratio, min)
  {
    ReachableInv(cfg, s);
    TripsIff(cfg, s, e);
    RatioDecides(s.b.metrics, s.history, s.inFlight[s.b.generation], ratio, min);
  }

  predicate EnoughByDefault(state: State, f: nat, n: nat) {
    if state == Standby then n >= 10 && 10 * f >= 9 * n else n >= 3 && 20 * f >= 9 * n
  }

  lemma InTwentieths(f: nat, n: nat)
    ensures EnoughByDefault(Standby, f, n) <==> Enough(f, n, DEFAULT_RATIO, DEFAULT_MIN_EXECUTIONS)
    ensures EnoughByDefault(Recovering, f, n) <==> Enough(f, n, DEFAULT_RATIO / 2.0, DEFAULT_MIN_EXECUTIONS / 3)
  {
    assert (10 * f) as real == 10.0 * f as real && (9 * n) as real == 9.0 * n as real;
    assert (20 * f) as real == 20.0 * f as real;
  }

  /** By default a counted failure trips from standby exactly at nine tenths of at least ten
      executions, and from recovery at nine twentieths of at least three. */
  lemma DefaultTripsIff(cfg: Config, jitter: int -> int, s: System, e: Event)
    requires CheckAndSetDefaults(DefaultSettings(), jitter) == Some(cfg)
    requires Reachable(cfg, s) && CountsNow(cfg, s, e)
    requires |s.history| + s.inFlight[s.b.generation] < WORD
    ensures var n, f := |s.history| + s.inFlight[s.b.generation], Count(s.history, false) + 1;
      Step(cfg, s, e).b.state == Tripped <==> EnoughByDefault(s.b.state, f, n)
  {
    if s.b.state == Standby {
      RatioTripsIff(cfg, DEFAULT_RATIO, DEFAULT_MIN_EXECUTIONS, s, e);
    } else {
      RatioTripsIff(cfg, DEFAULT_RATIO / 2.0, DEFAULT_MIN_EXECUTIONS / 3, s, e);
    }
    InTwentieths(Count(s.history, false) + 1, |s.history| + s.inFlight[s.b.generation]);
  }

  /** What validation makes of a configuration: it fails exactly for a missing part, keeps what
      is given and fills in the rest. */
  lemma Validated(given: Settings, jitter: int -> int)
    ensures var c := CheckAndSetDefaults(given, jitter);
      && (c.None? <==> given.interval <= 0 || given.trip.None? || given.recover.None?)
      && (c.Some? ==>
          && c.value.interval == given.interval > 0
          && Some(c.value.trip) == given.trip && Some(c.value.recover) == given.recover
          && c.value.recoveryLimit > 0
          && (given.recoveryLimit > 0 ==> c.value.recoveryLimit == given.recoveryLimit)
          && c.value.trippedPeriod == jitter(if given.trippedPeriod > 0 then given.trippedPeriod else 60_000_000_000))
  {}

  // ---------- The end of a recovery ----------

  predicate ShortOfLimit(cfg: Config, s: System) {
    s.b.state == Recovering ==> Trail(s.history, true) < cfg.recoveryLimit
  }

  lemma NoWrap(x: nat)
    requires x < WORD - 1
    ensures Inc(x % WORD) == x + 1
  {}

  lemma CountedSuccess(cfg: Config, s: System)
    requires 0 < cfg.recoveryLimit < WORD && ShortOfLimit(cfg, s) && s.b.state == Recovering
    requires s.b.metrics.consecutiveSuccesses == Trail(s.history, true) % WORD
    ensures var t := Finished(cfg, s, s.b.generation, true);
      && Trail(s.history + [true], true) <= cfg.recoveryLimit
      && t.b.state == (if Trail(s.history + [true], true) == cfg.recoveryLimit then Standby else Recovering)
      && ShortOfLimit(cfg, t)
  {
    Append(s.history, true, true);
    NoWrap(Trail(s.history, true));
  }

  lemma FinishedShort(cfg: Config, s: System, token: nat, ok: bool)
    requires 0 < cfg.recoveryLimit < WORD && ShortOfLimit(cfg, s)
    requires s.b.metrics.consecutiveSuccesses == Trail(s.history, true) % WORD
    ensures ShortOfLimit(cfg, Finished(cfg, s, token, ok))
  {
    if token == s.b.generation && s.b.state == Recovering {
      if ok {
        CountedSuccess(cfg, s);
      } else {
        Append(s.history, false, true);
      }
    }
  }

  lemma StepShort(cfg: Config, s: System, e: Event)
    requires 0 < cfg.recoveryLimit < WORD
    requires Inv(cfg, s) && ShortOfLimit(cfg, s) && Possible(s, e)
    ensures ShortOfLimit(cfg, Step(cfg, s, e))
  {
    var r := Refreshed(cfg, s, e.now);
    RefreshedInv(cfg, s, e.now);
    assert ShortOfLimit(cfg, r);
    if !Admits(cfg, s, e) && e.Ends? {
      FinishedShort(cfg, r, e.token, e.ok);
    }
  }

  lemma {:induction false} RunShort(cfg: Config, s: System, es: seq<Event>)
    requires 0 < cfg.recoveryLimit < WORD
    requires Inv(cfg, s) && ShortOfLimit(cfg, s) && Valid(cfg, s, es)
    ensures ShortOfLimit(cfg, Run(cfg, s, es))
    decreases |es|
  {
    if es != [] {
      StepShort(cfg, s, es[0]);
      StepInv(cfg, s, es[0]);
      RunShort(cfg, Step(cfg, s, es[0]), es[1..]);
    }
  }

  /** A counted success ends a recovery exactly when it is the `recoveryLimit`-th in a row, for
      every limit that the 32-bit field can hold. */
  lemma RecoveryEnds(cfg: Config, s: System, e: Event)
    requires 0 < cfg.recoveryLimit < WORD
    requires Reachable(cfg, s) && Possible(s, e)
    requires s.b.state == Recovering && e.Ends? && e.ok && e.token == s.b.generation
    ensures Trail(s.history + [true], true) <= cfg.recoveryLimit
    ensures Step(cfg, s, e).b.state
      == if Trail(s.history + [true], true) == cfg.recoveryLimit then Standby else Recovering
  {
    var t: int, es: seq<Event> :| Valid(cfg, Start(cfg, t), es) && Run(cfg, Start(cfg, t), es) == s;
    StartInv(cfg, t);
    RunInv(cfg, Start(cfg, t), es);
    RunShort(cfg, Start(cfg, t), es);
    CountedSuccess(cfg, s.(clock := e.now));
  }

  // ---------- The consecutive-failure tripper ----------

  predicate FewFailures(s: System, max: nat) {
    s.b.state == Standby ==> Trail(s.history, false) <= max
  }

  lemma FailureKeepsFew(cfg: Config, max: nat, s: System)
    requires cfg.trip == ConsecutiveFailureTripper(max) && max < WORD - 1
    requires s.b.metrics.consecutiveFailures == Trail(s.history, false) % WORD
    requires FewFailures(s, max)
    ensures FewFailures(Finished(cfg, s, s.b.generation, false), max)
  {
    Append(s.history, false, false);
    if s.b.state == Standby {
      NoWrap(Trail(s.history, false));
    }
  }

  lemma FinishedFewFailures(cfg: Config, max: nat, s: System, token: nat, ok: bool)
    requires cfg.trip == ConsecutiveFailureTripper(max) && max < WORD - 1
    requires s.b.metrics.consecutiveFailures == Trail(s.history, false) % WORD
    requires FewFailures(s, max)
    ensures FewFailures(Finished(cfg, s, token, ok), max)
  {
    if token == s.b.generation {
      if ok {
        Append(s.history, true, false);
      } else {
        FailureKeepsFew(cfg, max, s);
      }
    }
  }

  lemma StepFewFailures(cfg: Config, max: nat, s: System, e: Event)
    requires cfg.trip == ConsecutiveFailureTripper(max) && max < WORD - 1
    requires Inv(cfg, s) && FewFailures(s, max) && Possible(s, e)
    ensures FewFailures(Step(cfg, s, e), max)
  {
    var r := Refreshed(cfg, s, e.now);
    RefreshedInv(cfg, s, e.now);
    assert FewFailures(r, max);
    if !Admits(cfg, s, e) && e.Ends? {
      FinishedFewFailures(cfg, max, r, e.token, e.ok);
    }
  }

  lemma {:induction false} RunFewFailures(cfg: Config, max: nat, s: System, es: seq<Event>)
    requires cfg.trip == ConsecutiveFailureTripper(max) && max < WORD - 1
    requires Inv(cfg, s) && FewFailures(s, max) && Valid(cfg, s, es)
    ensures FewFailures(Run(cfg, s, es), max)
    decreases |es|
  {
    if es != [] {
      var e := es[0];
      StepFewFailures(cfg, max, s, e);
      StepInv(cfg, s, e);
      RunFewFailures(cfg, max, Step(cfg, s, e), es[1..]);
    }
  }

  /** `n` executions that begin and fail at the same instant. */
  function Failures(cfg: Config, now: int, n: nat): System
  {
    var b := New(cfg, now);
    var k := n % WORD;
    System(b.(metrics := Metrics(k, 0, k, 0, k)), multiset{}, seq(n, i => false), seq(n, i => now), now, now, [])
  }

  lemma {:induction false} AllFalse(n: nat)
    ensures Trail(seq(n, i => false), false) == n
  {
    if n > 0 {
      AllFalse(n - 1);
      assert seq(n, i => false)[..n - 1] == seq(n - 1, i => false);
    }
  }

  lemma {:induction false} Extend(cfg: Config, s: System, es: seq<Event>, e: Event) returns (more: seq<Event>)
    requires Valid(cfg, s, es) && Possible(Run(cfg, s, es), e)
    ensures Valid(cfg, s, more) && Run(cfg, s, more) == Step(cfg, Run(cfg, s, es), e)
    decreases |es|
  {
    if es == [] {
      more := [e];
      assert more[1..] == [];
    } else {
      var rest := Extend(cfg, Step(cfg, s, es[0]), es[1..], e);
      more := [es[0]] + rest;
      assert more[1..] == rest;
    }
  }

  lemma TwoMore(cfg: Config, s: System, es: seq<Event>, mid: System, e1: Event, e2: Event) returns (more: seq<Event>)
    requires Valid(cfg, s, es) && Run(cfg, s, es) == mid
    requires Possible(mid, e1) && Possible(Step(cfg, mid, e1), e2)
    ensures Valid(cfg, s, more) && Run(cfg, s, more) == Step(cfg, Step(cfg, mid, e1), e2)
  {
    more := Extend(cfg, s, es, e1);
    more := Extend(cfg, s, more, e2);
  }

  lemma {:induction false} FailureRun(cfg: Config, now: int, n: nat) returns (es: seq<Event>)
    requires cfg.trip == ConsecutiveFailureTripper(WORD - 1) && cfg.interval > 0
    ensures Valid(cfg, Start(cfg, now), es) && Run(cfg, Start(cfg, now), es) == Failures(cfg, now, n)
  {
    if n == 0 {
      es := [];
    } else {
      es := FailureRun(cfg, now, n - 1);
      OneMoreFailure(cfg, now, n);
      es := TwoMore(cfg, Start(cfg, now), es, Failures(cfg, now, n - 1), Begins(now), Ends(now, 1, false));
    }
  }

  lemma OneMoreBegun(cfg: Config, now: int, n: nat)
    requires cfg.interval > 0
    ensures var s := Failures(cfg, now, n);
      && Possible(s, Begins(now))
      && Step(cfg, s, Begins(now)) == s.(b := s.b.(metrics := s.b.metrics.Executed()), inFlight := multiset{1})
  {
    assert multiset{} + multiset{1} == multiset{1};
  }

  lemma OneMoreFailed(cfg: Config, s: System, now: int)
    requires cfg.trip == ConsecutiveFailureTripper(WORD - 1) && s.clock == now && s.inFlight == multiset{1}
    requires s.b.generation == 1 && s.b.state == Standby && s.b.expiry.Some? && now <= s.b.expiry.value
    ensures Step(cfg, s, Ends(now, 1, false)) == s.(b := s.b.(metrics := s.b.metrics.Failed()),
      inFlight := multiset{}, history := s.history + [false], times := s.times + [now])
  {
    assert multiset{1} - multiset{1} == multiset{};
  }

  lemma OneMoreFailure(cfg: Config, now: int, n: nat)
    requires cfg.trip == ConsecutiveFailureTripper(WORD - 1) && cfg.interval > 0 && n > 0
    ensures var s := Failures(cfg, now, n - 1);
      && Possible(s, Begins(now))
      && Possible(Step(cfg, s, Begins(now)), Ends(now, 1, false))
      && Step(cfg, Step(cfg, s, Begins(now)), Ends(now, 1, false)) == Failures(cfg, now, n)
  {
    OneMoreBegun(cfg, now, n - 1);
    IncMod(n - 1);
    var s := Failures(cfg, now, n - 1);
    OneMoreFailed(cfg, s.(b := s.b.(metrics := s.b.metrics.Executed()), inFlight := multiset{1}), now);
    assert s.history + [false] == seq(n, i => false) && s.times + [now] == seq(n, i => now);
  }

  /** With `ConsecutiveFailureTripper(max)`, standby never holds more than `max` failures in
      a row, on every run, exactly when the 32-bit `max` leaves the counter room to exceed
      it. At the largest `max` the counter wraps and the breaker never trips. */
  lemma ConsecutiveBound(cfg: Config, max: nat)
    requires cfg.trip == ConsecutiveFailureTripper(max) && max < WORD && cfg.interval > 0
    ensures (forall s :: Reachable(cfg, s) ==> FewFailures(s, max)) <==> max < WORD - 1
  {
    if max < WORD - 1 {
      forall s | Reachable(cfg, s) ensures FewFailures(s, max) {
        var t: int, es: seq<Event> :| Valid(cfg, Start(cfg, t), es) && Run(cfg, Start(cfg, t), es) == s;
        StartInv(cfg, t);
        RunFewFailures(cfg, max, Start(cfg, t), es);
      }
    } else {
      var es := FailureRun(cfg, 0, WORD);
      var s := Failures(cfg, 0, WORD);
      AllFalse(WORD);
      assert Reachable(cfg, s) && !FewFailures(s, max);
    }
  }
}
