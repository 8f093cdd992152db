/** One provider's circuit breaker and the permits it hands out. */
module CircuitBreakers {
  import opened Wrappers

  datatype ErrorCode =
    | InvalidRequest | UnsupportedCapability | Configuration | Authentication | PermissionDenied | SafetyRejected
    | RateLimited | Overloaded | Timeout | Cancelled | Upstream | Protocol | Input | Artifact | Session
    | IdempotencyConflict | Internal

  datatype Config = Config(
    enabled: bool, failureThreshold: nat, openDuration: nat, halfOpenMaxCalls: nat, successThreshold: nat) {
    predicate Valid() {
      enabled ==> 0 < failureThreshold && 0 < openDuration && 0 < halfOpenMaxCalls && 0 < successThreshold
    }
  }

  datatype Phase =
    | Closed(consecutiveFailures: nat)
    | Open(until: nat)
    | HalfOpen(inFlight: nat, successes: nat)

  datatype PermitKind = ClosedPermit(epoch: nat) | ProbePermit(epoch: nat) | DisabledPermit

  datatype Outcome = Healthy | Failed | Neutral

  datatype Rejection = Rejection(probing: bool, retryAfter: nat)

  datatype State = State(phase: Phase, epoch: nat, rejectedCalls: nat, transitions: nat) {
    function Enter(next: Phase): State {
      State(next, epoch + 1, rejectedCalls, transitions + 1)
    }

    function Reject(): State {
      this.(rejectedCalls := rejectedCalls + 1)
    }
  }

  const INITIAL := State(Closed(0), 0, 0, 0)

  predicate CountsAsFailure(code: ErrorCode) {
    code in {RateLimited, Overloaded, Timeout, Upstream, Protocol}
  }

  function Classify(result: Result<(), ErrorCode>): Outcome {
    if result.Ok? then Healthy else if CountsAsFailure(result.error) then Failed else Neutral
  }

  /** An open circuit whose delay has passed starts probing. */
  function Recover(s: State, now: nat): State {
    if s.phase.Open? && now >= s.phase.until then s.Enter(HalfOpen(0, 0)) else s
  }

  function Acquire(s: State, now: nat, config: Config): (State, Result<PermitKind, Rejection>) {
    if !config.enabled then (s, Ok(DisabledPermit))
    else
      var r := Recover(s, now);
      match r.phase
      case Closed(_) => (r, Ok(ClosedPermit(r.epoch)))
      case Open(until) => (r.Reject(), Err(Rejection(false, if until >= now then until - now else 0)))
      case HalfOpen(inFlight, successes) =>
        if inFlight < config.halfOpenMaxCalls
        then (r.(phase := HalfOpen(inFlight + 1, successes)), Ok(ProbePermit(r.epoch)))
        else (r.Reject(), Err(Rejection(true, config.openDuration)))
  }

  function Complete(s: State, kind: PermitKind, outcome: Outcome, now: nat, config: Config): State {
    if kind.DisabledPermit? || kind.epoch != s.epoch then s
    else match (s.phase, kind, outcome)
      case (Closed(_), ClosedPermit(_), Healthy) => s.(phase := Closed(0))
      case (Closed(n), ClosedPermit(_), Failed) =>
        if n + 1 >= config.failureThreshold
        then s.Enter(Open(now + config.openDuration))
        else s.(phase := Closed(n + 1))
      case (HalfOpen(inFlight, successes), ProbePermit(_), Healthy) =>
        var left := if inFlight > 0 then inFlight - 1 else 0;
        if successes + 1 >= config.successThreshold && left == 0 then s.Enter(Closed(0))
        else s.(phase := HalfOpen(left, successes + 1))
      case (HalfOpen(_, _), ProbePermit(_), _) => s.Enter(Open(now + config.openDuration))
      case _ => s
  }

  function Abandon(s: State, kind: PermitKind): State {
    if kind.ProbePermit? && kind.epoch == s.epoch && s.phase.HalfOpen? && s.phase.inFlight > 0 then
      s.(phase := HalfOpen(s.phase.inFlight - 1, s.phase.successes))
    else s
  }

  class CircuitBreaker {
    const config: Config
    var phase: Phase
    var epoch: nat
    var rejectedCalls: nat
    var transitions: nat

    ghost function Current(): State
      reads this
    {
      State(phase, epoch, rejectedCalls, transitions)
    }

    constructor (config: Config)
      requires config.Valid()
      ensures this.config == config && Current() == INITIAL
    {
      this.config := config;
      phase, epoch, rejectedCalls, transitions := Closed(0), 0, 0, 0;
    }

    method Enter(next: Phase)
      modifies this
      ensures Current() == old(Current()).Enter(next)
    {
      phase := next;
      epoch := epoch + 1;
      transitions := transitions + 1;
    }

    method AcquirePermit(now: nat) returns (r: Result<CircuitPermit, Rejection>)
      modifies this
      ensures Current() == Acquire(old(Current()), now, config).0
      ensures var granted := Acquire(old(Current()), now, config).1;
        match r
        case Ok(permit) => fresh(permit) && permit.breaker == this && granted == Ok(permit.kind) && !permit.finished
        case Err(rejection) => granted == Err(rejection)
    {
      if !config.enabled {
        var permit := new CircuitPermit(this, DisabledPermit);
        return Ok(permit);
      }
      if phase.Open? && now >= phase.until {
        Enter(HalfOpen(0, 0));
      }
      match phase {
        case Closed(_) =>
          var permit := new CircuitPermit(this, ClosedPermit(epoch));
          return Ok(permit);
        case Open(until) =>
          rejectedCalls := rejectedCalls + 1;
          return Err(Rejection(false, if until >= now then until - now else 0));
        case HalfOpen(inFlight, successes) =>
          if inFlight < config.halfOpenMaxCalls {
            phase := HalfOpen(inFlight + 1, successes);
            var permit := new CircuitPermit(this, ProbePermit(epoch));
            return Ok(permit);
          }
          rejectedCalls := rejectedCalls + 1;
          return Err(Rejection(true, config.openDuration));
      }
    }

    method CompletePermit(kind: PermitKind, result: Result<(), ErrorCode>, now: nat)
      modifies this
      ensures Current() == Complete(old(Current()), kind, Classify(result), now, config)
    {
      var outcome := Classify(result);
      if kind.DisabledPermit? || kind.epoch != epoch {
        return;
      }
      match phase {
        case Closed(consecutiveFailures) =>
          if kind.ClosedPermit? && outcome == Healthy {
            phase := Closed(0);
          } else if kind.ClosedPermit? && outcome == Failed {
            phase := Closed(consecutiveFailures + 1);
            if consecutiveFailures + 1 >= config.failureThreshold {
              Enter(Open(now + config.openDuration));
            }
          }
        case HalfOpen(inFlight, successes) =>
          if kind.ProbePermit? && outcome == Healthy {
            var left := if inFlight > 0 then inFlight - 1 else 0;
            phase := HalfOpen(left, successes + 1);
            if successes + 1 >= config.successThreshold && left == 0 {
              Enter(Closed(0));
            }
          } else if kind.ProbePermit? {
            Enter(Open(now + config.openDuration));
          }
        case Open(_) =>
      }
    }

    method AbandonPermit(kind: PermitKind)
      modifies this
      ensures Current() == Abandon(old(Current()), kind)
    {
      if kind.ProbePermit? && kind.epoch == epoch && phase.HalfOpen? {
        phase := HalfOpen(if phase.inFlight > 0 then phase.inFlight - 1 else 0, phase.successes);
      }
    }
  }

  /** One admitted attempt. */
  class CircuitPermit {
    const breaker: CircuitBreaker
    const kind: PermitKind
    var finished: bool

    constructor (breaker: CircuitBreaker, kind: PermitKind)
      ensures this.breaker == breaker && this.kind == kind && !finished
    {
      this.breaker := breaker;
      this.kind := kind;
      finished := false;
    }

    /** Finishing a permit consumes it, so that letting go of it afterwards does nothing more. */
    method Finish(result: Result<(), ErrorCode>, now: nat)
      requires !finished
      modifies this, breaker
      ensures finished
      ensures breaker.Current() == Complete(old(breaker.Current()), kind, Classify(result), now, breaker.config)
    {
      breaker.CompletePermit(kind, result, now);
      finished := true;
      Drop();
    }

    method Drop()
      modifies breaker
      ensures breaker.Current() == if finished then old(breaker.Current()) else Abandon(old(breaker.Current()), kind)
    {
      if !finished {
        breaker.AbandonPermit(kind);
      }
    }
  }
}
