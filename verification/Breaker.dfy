/**
 The circuit breaker of api/breaker/breaker.go: its three states, generations, expiry and tallies.

 `CircuitBreaker` is the object callers share; every method body runs under its mutex, so each of
 `BeforeExecution` and `AfterExecution` is one atomic step.  The functions in front of it give the
 same transitions on values.  Counters wrap as Go's uint32 and uint64 do.  Times are offsets from
 Go's zero time, which `expiry` uses for "never".
 */
module Breaker {
  const UINT32 := 0x1_0000_0000
  const UINT64 := 0x1_0000_0000_0000_0000
  const ZERO_TIME: int := 0

  datatype Metrics = Metrics(
    executions: nat,
    successes: nat,
    failures: nat,
    consecutiveSuccesses: nat,
    consecutiveFailures: nat)

  const NO_METRICS := Metrics(0, 0, 0, 0, 0)

  function Inc32(n: nat): nat { (n + 1) % UINT32 }

  function WithSuccess(m: Metrics): Metrics {
    m.(successes := Inc32(m.successes),
       consecutiveSuccesses := Inc32(m.consecutiveSuccesses),
       consecutiveFailures := 0)
  }

  function WithFailure(m: Metrics): Metrics {
    m.(failures := Inc32(m.failures),
       consecutiveFailures := Inc32(m.consecutiveFailures),
       consecutiveSuccesses := 0)
  }

  function WithExecution(m: Metrics): Metrics {
    m.(executions := Inc32(m.executions))
  }

  datatype Status = Standby | Tripped | Recovering

  datatype Config = Config(
    interval: nat,
    trippedPeriod: nat,
    recoveryLimit: nat,
    trip: Metrics -> bool,
    recover: Metrics -> bool)
  {
    /** What `CheckAndSetDefaults` leaves behind. */
    predicate Valid() {
      interval > 0 && trippedPeriod > 0 && 0 < recoveryLimit < UINT32
    }
  }

  /** Trips on a failure ratio, counting executions still in flight in the denominator. */
  function RatioTripper(ratio: real, minExecutions: nat): Metrics -> bool {
    (m: Metrics) =>
      if m.executions < minExecutions then false
      else if m.executions == 0 then m.failures > 0   // 0/0 is not a number, n/0 is infinite
      else m.failures as real / m.executions as real >= ratio
  }

  function ConsecutiveFailureTripper(max: nat): Metrics -> bool {
    (m: Metrics) => m.consecutiveFailures > max
  }

  datatype Callback = Nothing | OnTripped | OnStandBy

  /** The fields guarded by the mutex. */
  datatype Core = Core(state: Status, generation: nat, metrics: Metrics, expiry: int)

  function NextGeneration(cfg: Config, c: Core, t: nat): Core {
    Core(c.state, (c.generation + 1) % UINT64, NO_METRICS,
         match c.state
         case Recovering => ZERO_TIME
         case Tripped => t + cfg.trippedPeriod
         case Standby => t + cfg.interval)
  }

  function SetState(cfg: Config, c: Core, s: Status, t: nat): Core {
    if c.state == s then c else NextGeneration(cfg, c.(state := s), t)
  }

  function CurrentState(cfg: Config, c: Core, t: nat): Core {
    if c.state.Tripped? && c.expiry < t then SetState(cfg, c, Recovering, t)
    else if c.state.Standby? && c.expiry != ZERO_TIME && c.expiry < t then NextGeneration(cfg, c, t)
    else c
  }

  function Succeed(cfg: Config, c: Core, t: nat): (Core, Callback) {
    var d := c.(metrics := WithSuccess(c.metrics));
    match c.state
    case Tripped => (c, Nothing)
    case Standby => (d, Nothing)
    case Recovering =>
      if d.metrics.consecutiveSuccesses >= cfg.recoveryLimit then (SetState(cfg, d, Standby, t), OnStandBy)
      else (d, Nothing)
  }

  function Fail(cfg: Config, c: Core, t: nat): (Core, Callback) {
    var d := c.(metrics := WithFailure(c.metrics));
    match c.state
    case Tripped => (d, Nothing)
    case Recovering => if cfg.recover(d.metrics) then (SetState(cfg, d, Tripped, t), Nothing) else (d, Nothing)
    case Standby => if cfg.trip(d.metrics) then (SetState(cfg, d, Tripped, t), OnTripped) else (d, Nothing)
  }

  function Fresh(cfg: Config, now: nat): Core {
    NextGeneration(cfg, Core(Standby, 0, NO_METRICS, ZERO_TIME), now)
  }

  function Enter(cfg: Config, c: Core, now: nat): Core {
    var d := CurrentState(cfg, c, now);
    if d.state.Tripped? then d else d.(metrics := WithExecution(d.metrics))
  }

  function Leave(cfg: Config, c: Core, prior: nat, ok: bool, now: nat): (Core, Callback) {
    var d := CurrentState(cfg, c, now);
    if d.generation != prior then (d, Nothing)
    else if ok then Succeed(cfg, d, now)
    else Fail(cfg, d, now)
  }

  class CircuitBreaker {
    const cfg: Config
    var state: Status
    var generation: nat
    var metrics: Metrics
    var expiry: int

    function View(): Core
      reads this
    {
      Core(state, generation, metrics, expiry)
    }

    constructor (cfg: Config, now: nat)
      ensures this.cfg == cfg && View() == Fresh(cfg, now)
    {
      this.cfg := cfg;
      state, generation, metrics, expiry := Standby, 0, NO_METRICS, ZERO_TIME;
      new;
      StartGeneration(now);
    }

    method StartGeneration(t: nat)
      modifies this
      ensures View() == NextGeneration(cfg, old(View()), t)
    {
      metrics := NO_METRICS;
      generation := (generation + 1) % UINT64;
      match state {
        case Recovering => expiry := ZERO_TIME;
        case Tripped => expiry := t + cfg.trippedPeriod;
        case Standby => expiry := t + cfg.interval;
      }
    }

    method MoveTo(s: Status, t: nat)
      modifies this
      ensures View() == SetState(cfg, old(View()), s, t)
    {
      if state == s {
        return;
      }
      state := s;
      StartGeneration(t);
    }

    method Refresh(t: nat) returns (g: nat, s: Status)
      modifies this
      ensures View() == CurrentState(cfg, old(View()), t)
      ensures g == generation && s == state
    {
      if state.Tripped? && expiry < t {
        MoveTo(Recovering, t);
      } else if state.Standby? && expiry != ZERO_TIME && expiry < t {
        StartGeneration(t);
      }
      return generation, state;
    }

    /** Admits the execution unless the breaker is tripped; `g` is the token the caller keeps. */
    method BeforeExecution(now: nat) returns (g: nat, admitted: bool)
      modifies this
      ensures View() == Enter(cfg, old(View()), now)
      ensures g == generation && admitted == !state.Tripped?
    {
      var s;
      g, s := Refresh(now);
      if s.Tripped? {
        return g, false;
      }
      metrics := metrics.(executions := Inc32(metrics.executions));
      return g, true;
    }

    method Success(s: Status, t: nat) returns (fired: Callback)
      requires s == state
      modifies this
      ensures (View(), fired) == Succeed(cfg, old(View()), t)
    {
      fired := Nothing;
      match s {
        case Tripped =>
        case Standby =>
          metrics := WithSuccess(metrics);
        case Recovering =>
          metrics := WithSuccess(metrics);
          if metrics.consecutiveSuccesses >= cfg.recoveryLimit {
            MoveTo(Standby, t);
            fired := OnStandBy;
          }
      }
    }

    method Failure(s: Status, t: nat) returns (fired: Callback)
      requires s == state
      modifies this
      ensures (View(), fired) == Fail(cfg, old(View()), t)
    {
      fired := Nothing;
      metrics := WithFailure(metrics);
      match s {
        case Tripped =>
        case Recovering =>
          if cfg.recover(metrics) {
            MoveTo(Tripped, t);
          }
        case Standby =>
          if cfg.trip(metrics) {
            MoveTo(Tripped, t);
            fired := OnTripped;
          }
      }
    }

    method AfterExecution(prior: nat, ok: bool, now: nat) returns (fired: Callback)
      modifies this
      ensures (View(), fired) == Leave(cfg, old(View()), prior, ok, now)
    {
      var g, s := Refresh(now);
      if g != prior {
        return Nothing;
      }
      if ok {
        fired := Success(s, now);
      } else {
        fired := Failure(s, now);
      }
    }
  }
}
