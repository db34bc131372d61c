/** The circuit breaker of api/breaker/breaker.go: its configuration, its trip functions and
    the effect of every locked method on the breaker's fields, as functions on values. Clock
    readings are integers; counters are 32-bit and wrap. */
module Breaker {
  import opened Options

  const WORD := 0x1_0000_0000

  function Inc(x: nat): nat { (x + 1) % WORD }

  datatype Metrics = Metrics(
    executions: nat, successes: nat, failures: nat,
    consecutiveSuccesses: nat, consecutiveFailures: nat)
  {
    function Executed(): Metrics { this.(executions := Inc(executions)) }

    function Succeeded(): Metrics {
      this.(successes := Inc(successes), consecutiveSuccesses := Inc(consecutiveSuccesses), consecutiveFailures := 0)
    }

    function Failed(): Metrics {
      this.(failures := Inc(failures), consecutiveFailures := Inc(consecutiveFailures), consecutiveSuccesses := 0)
    }
  }

  const ZERO := Metrics(0, 0, 0, 0, 0)

  datatype State = Standby | Tripped | Recovering

  type TripFn = Metrics -> bool

  /** Float division is modelled over the reals; its two answers for a zero divisor, infinity
      and not-a-number, compare with a ratio as written out here. */
  function RatioTripper(ratio: real, minExecutions: nat): TripFn {
    (m: Metrics) =>
      if m.executions < minExecutions then false
      else if m.executions == 0 then m.failures > 0
      else m.failures as real / m.executions as real >= ratio
  }

  function ConsecutiveFailureTripper(max: nat): TripFn {
    (m: Metrics) => m.consecutiveFailures > max
  }

  /** A configuration as a caller writes it; absent trip functions are `None`. */
  datatype Settings = Settings(
    interval: int, trippedPeriod: int, recoveryLimit: nat, trip: Option<TripFn>, recover: Option<TripFn>)

  datatype Config = Config(
    interval: int, trippedPeriod: int, recoveryLimit: nat, trip: TripFn, recover: TripFn)

  const SECOND := 1_000_000_000
  const DEFAULT_TRIPPED_PERIOD := 60 * SECOND
  const DEFAULT_RECOVERY_LIMIT := 3
  const DEFAULT_RATIO := 0.9
  const DEFAULT_MIN_EXECUTIONS := 10

  /** `CheckAndSetDefaults`; `jitter` is what the random jitter makes of the period. */
  function CheckAndSetDefaults(s: Settings, jitter: int -> int): Option<Config> {
    if s.interval <= 0 || s.trip.None? || s.recover.None? then None
    else Some(Config(
      s.interval,
      jitter(if s.trippedPeriod <= 0 then DEFAULT_TRIPPED_PERIOD else s.trippedPeriod),
      if s.recoveryLimit == 0 then DEFAULT_RECOVERY_LIMIT else s.recoveryLimit,
      s.trip.value, s.recover.value))
  }

  function DefaultSettings(): Settings {
    Settings(60 * SECOND, 0, 0,
      Some(RatioTripper(DEFAULT_RATIO, DEFAULT_MIN_EXECUTIONS)),
      Some(RatioTripper(DEFAULT_RATIO / 2.0, DEFAULT_MIN_EXECUTIONS / 3)))
  }

  /** The fields of a breaker, and how often it has launched its two state callbacks. */
  datatype Breaker = Breaker(
    state: State, generation: nat, metrics: Metrics, expiry: Option<int>,
    onTripped: nat, onStandBy: nat)

  function NextGeneration(cfg: Config, b: Breaker, t: int): Breaker {
    b.(metrics := ZERO, generation := b.generation + 1,
       expiry := match b.state
         case Recovering => None
         case Tripped => Some(t + cfg.trippedPeriod)
         case Standby => Some(t + cfg.interval))
  }

  function SetState(cfg: Config, b: Breaker, s: State, t: int): Breaker {
    if b.state == s then b else NextGeneration(cfg, b.(state := s), t)
  }

  predicate Expired(b: Breaker, t: int) {
    b.expiry.Some? && b.expiry.value < t
  }

  function CurrentState(cfg: Config, b: Breaker, t: int): Breaker {
    if b.state == Tripped && Expired(b, t) then SetState(cfg, b, Recovering, t)
    else if b.state == Standby && Expired(b, t) then NextGeneration(cfg, b, t)
    else b
  }

  function New(cfg: Config, t: int): Breaker {
    NextGeneration(cfg, Breaker(Standby, 0, ZERO, None, 0, 0), t)
  }

  /** `beforeExecution`. The token handed to an admitted call is the new generation. */
  function Begin(cfg: Config, b: Breaker, now: int): (Breaker, bool) {
    var c := CurrentState(cfg, b, now);
    if c.state == Tripped then (c, false) else (c.(metrics := c.metrics.Executed()), true)
  }

  function Success(cfg: Config, b: Breaker, t: int): Breaker {
    match b.state
    case Tripped => b
    case Standby => b.(metrics := b.metrics.Succeeded())
    case Recovering =>
      var c := b.(metrics := b.metrics.Succeeded());
      if c.metrics.consecutiveSuccesses >= cfg.recoveryLimit
      then SetState(cfg, c, Standby, t).(onStandBy := b.onStandBy + 1) else c
  }

  function Failure(cfg: Config, b: Breaker, t: int): Breaker {
    var c := b.(metrics := b.metrics.Failed());
    match b.state
    case Tripped => c
    case Recovering => if cfg.recover(c.metrics) then SetState(cfg, c, Tripped, t) else c
    case Standby =>
      if cfg.trip(c.metrics) then SetState(cfg, c, Tripped, t).(onTripped := b.onTripped + 1) else c
  }

  /** `afterExecution` of a call that was admitted with token `prior`. */
  function End(cfg: Config, b: Breaker, now: int, prior: nat, ok: bool): Breaker {
    var c := CurrentState(cfg, b, now);
    if c.generation != prior then c
    else if ok then Success(cfg, c, now) else Failure(cfg, c, now)
  }

  /** The breaker object itself. Every method runs under the mutex, so each is one step on
      the fields; its contract gives the whole new state. */
  class CircuitBreaker {
    const cfg: Config
    var state: State
    var generation: nat
    var metrics: Metrics
    var expiry: Option<int>
    ghost var onTripped: nat
    ghost var onStandBy: nat

    ghost function View(): Breaker
      reads this
    {
      Breaker(state, generation, metrics, expiry, onTripped, onStandBy)
    }

    constructor (cfg: Config, now: int)
      ensures this.cfg == cfg && View() == New(cfg, now)
    {
      this.cfg := cfg;
      state, generation, metrics, expiry := Standby, 0, ZERO, None;
      onTripped, onStandBy := 0, 0;
      new;
      AdvanceGeneration(now);
    }

    method AdvanceGeneration(t: int)
      modifies this
      ensures View() == NextGeneration(cfg, old(View()), t)
    {
      metrics := ZERO;
      generation := generation + 1;
      match state
      case Recovering => expiry := None;
      case Tripped => expiry := Some(t + cfg.trippedPeriod);
      case Standby => expiry := Some(t + cfg.interval);
    }

    method ChangeState(s: State, t: int)
      modifies this
      ensures View() == SetState(cfg, old(View()), s, t)
    {
      if state == s {
        return;
      }
      state := s;
      AdvanceGeneration(t);
    }

    method Refresh(t: int)
      modifies this
      ensures View() == CurrentState(cfg, old(View()), t)
    {
      if state == Tripped && expiry.Some? && expiry.value < t {
        ChangeState(Recovering, t);
      } else if state == Standby && expiry.Some? && expiry.value < t {
        AdvanceGeneration(t);
      }
    }

    method BeforeExecution(now: int) returns (token: nat, admitted: bool)
      modifies this
      ensures (View(), admitted) == Begin(cfg, old(View()), now) && token == generation
    {
      Refresh(now);
      token := generation;
      if state == Tripped {
        return token, false;
      }
      metrics := metrics.Executed();
      admitted := true;
    }

    method AfterExecution(prior: nat, ok: bool, now: int)
      modifies this
      ensures View() == End(cfg, old(View()), now, prior, ok)
    {
      Refresh(now);
      if generation != prior {
        return;
      }
      if ok {
        CountSuccess(now);
      } else {
        CountFailure(now);
      }
    }

    method CountSuccess(t: int)
      modifies this
      ensures View() == Success(cfg, old(View()), t)
    {
      match state
      case Tripped =>
      case Standby => metrics := metrics.Succeeded();
      case Recovering =>
        metrics := metrics.Succeeded();
        if metrics.consecutiveSuccesses >= cfg.recoveryLimit {
          ChangeState(Standby, t);
          onStandBy := onStandBy + 1;
        }
    }

    method CountFailure(t: int)
      modifies this
      ensures View() == Failure(cfg, old(View()), t)
    {
      metrics := metrics.Failed();
      match state
      case Tripped =>
      case Recovering =>
        if cfg.recover(metrics) {
          ChangeState(Tripped, t);
        }
      case Standby =>
        if cfg.trip(metrics) {
          ChangeState(Tripped, t);
          onTripped := onTripped + 1;
        }
    }
  }
}
