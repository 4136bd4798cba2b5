/** One upstream: active health, passive health and circuit breaker as three filters in a row. */
module Upstreams {
  import opened Wrappers
  import opened Outcomes
  import Active = ActiveHealth
  import Passive = PassiveHealth
  import Breaker = CircuitBreaker

  /** The mutable parts of an upstream as a value; a disabled part is `None`. */
  datatype UpstreamValue = UpstreamValue(
    active: Option<Active.Flags>, passive: Option<Passive.Passive>, breaker: Option<Breaker.Breaker>)
  {
    /** Active and passive health let a request through. */
    predicate Passes(now: int) {
      (active.Some? ==> active.value.Available()) && (passive.Some? ==> passive.value.Available(now))
    }

    predicate Acquires(now: int) {
      Passes(now) && (breaker.Some? ==> breaker.value.Allows(now))
    }

    /** The breaker is asked only when both health filters let the request through. */
    function AfterAcquire(now: int): UpstreamValue {
      if Passes(now) && breaker.Some? then this.(breaker := Some(breaker.value.AfterAllow(now))) else this
    }

    function AfterPassiveReport(o: Outcome): UpstreamValue {
      if passive.Some? then this.(passive := Some(passive.value.After(o))) else this
    }

    function AfterBreakerReport(o: Outcome): UpstreamValue {
      if breaker.Some? then this.(breaker := Some(breaker.value.After(Breaker.Report(o)))) else this
    }

    function AfterReport(o: Outcome): UpstreamValue {
      AfterPassiveReport(o).AfterBreakerReport(o)
    }

    ghost predicate Inv() {
      && (breaker.Some? ==> breaker.value.Inv())
      && (passive.Some? ==> && passive.value.cfg.Valid()
                            && 0 <= passive.value.consecutiveSuccesses < passive.value.cfg.successThreshold)
    }
  }

  datatype Options = Options(activeHealth: bool, passiveHealth: Passive.Options, circuitBreaker: Breaker.Options)

  ghost function InitialValue(o: Options): (u: UpstreamValue)
    ensures u.Inv()
  {
    UpstreamValue(if o.activeHealth then Some(Active.Flags(false, false)) else None,
                  if o.passiveHealth.enabled then Some(Passive.Initial(Passive.Defaulted(o.passiveHealth))) else None,
                  if o.circuitBreaker.enabled then Some(Breaker.Initial(Breaker.Defaulted(o.circuitBreaker))) else None)
  }

  class Upstream {
    const activeHealth: Active.Checker?
    const passiveHealth: Passive.PassiveHealthState?
    const circuitBreaker: Breaker.CircuitBreakerState?

    constructor (a: Active.Checker?, p: Passive.PassiveHealthState?, c: Breaker.CircuitBreakerState?)
      ensures activeHealth == a && passiveHealth == p && circuitBreaker == c
    {
      activeHealth, passiveHealth, circuitBreaker := a, p, c;
    }

    ghost function Value(): UpstreamValue
      reads activeHealth, passiveHealth, circuitBreaker
    {
      UpstreamValue(if activeHealth == null then None else Some(activeHealth.Value()),
                    if passiveHealth == null then None else Some(passiveHealth.Value()),
                    if circuitBreaker == null then None else Some(circuitBreaker.Value()))
    }

    method TryAcquire(now: int) returns (ok: bool)
      modifies circuitBreaker
      ensures ok == old(Value()).Acquires(now)
      ensures Value() == old(Value()).AfterAcquire(now)
    {
      if activeHealth != null {
        var available := activeHealth.Available();
        if !available {
          return false;
        }
      }
      if passiveHealth != null {
        var available := passiveHealth.Available(now);
        if !available {
          return false;
        }
      }
      if circuitBreaker != null {
        var allowed := circuitBreaker.Allow(now);
        if !allowed {
          return false;
        }
      }
      return true;
    }

    method RecordSuccess(now: int)
      modifies passiveHealth, circuitBreaker
      ensures Value() == old(Value()).AfterReport(Outcome(true, now))
    {
      if passiveHealth != null {
        passiveHealth.RecordSuccess(now);
      }
      if circuitBreaker != null {
        circuitBreaker.RecordSuccess(now);
      }
    }

    method RecordFailure(now: int)
      modifies passiveHealth, circuitBreaker
      ensures Value() == old(Value()).AfterReport(Outcome(false, now))
    {
      if passiveHealth != null {
        passiveHealth.RecordFailure(now);
      }
      if circuitBreaker != null {
        circuitBreaker.RecordFailure(now);
      }
    }

    /** A response counts as a failure exactly when its status is 500 or more. */
    method ReportResponse(status: int, now: int)
      modifies passiveHealth, circuitBreaker
      ensures Value() == old(Value()).AfterReport(Outcome(status < 500, now))
    {
      if status >= 500 {
        RecordFailure(now);
      } else {
        RecordSuccess(now);
      }
    }
  }

  method NewUpstream(o: Options) returns (u: Upstream)
    ensures fresh(u) && u.Value() == InitialValue(o)
    ensures u.activeHealth != null ==> fresh(u.activeHealth)
    ensures u.passiveHealth != null ==> fresh(u.passiveHealth)
    ensures u.circuitBreaker != null ==> fresh(u.circuitBreaker)
  {
    var a: Active.Checker? := null;
    if o.activeHealth {
      a := new Active.Checker();
    }
    var p := Passive.NewPassiveHealthState(o.passiveHealth);
    var c := Breaker.NewCircuitBreakerState(o.circuitBreaker);
    u := new Upstream(a, p, c);
  }

  /** A rejected candidate keeps its whole state. */
  lemma RejectionLeavesUpstreamUnchanged(u: UpstreamValue, now: int)
    requires !u.Acquires(now) && (u.breaker.Some? ==> u.breaker.value.cfg.halfOpenMaxRequests > 0)
    ensures u.AfterAcquire(now) == u
  {
    if u.Passes(now) {
      Breaker.RefusalLeavesBreakerUnchanged(u.breaker.value, now);
    }
  }

  /** One probing request: when it is admitted, and when its success is reported. */
  datatype Round = Round(acquired: int, reported: int)

  ghost function AfterRounds(u: UpstreamValue, rounds: seq<Round>): UpstreamValue {
    if rounds == [] then u
    else
      var r := rounds[|rounds| - 1];
      AfterRounds(u, rounds[..|rounds| - 1]).AfterAcquire(r.acquired).AfterReport(Outcome(true, r.reported))
  }

  ghost predicate AllAdmitted(u: UpstreamValue, rounds: seq<Round>) {
    rounds == []
    || (&& AllAdmitted(u, rounds[..|rounds| - 1])
        && AfterRounds(u, rounds[..|rounds| - 1]).Acquires(rounds[|rounds| - 1].acquired))
  }

  /** No slot is taken and active health does not object. */
  ghost predicate Idle(u: UpstreamValue) {
    && u.Inv() && (u.active.Some? ==> u.active.value.Available())
    && (u.breaker.Some? ==> u.breaker.value.halfOpenInFlight == 0)
  }

  ghost predicate PastDeadlines(u: UpstreamValue, now: int) {
    && (u.passive.Some? && u.passive.value.unhealthy ==> now >= u.passive.value.retryAfter)
    && (u.breaker.Some? && u.breaker.value.state.Open? ==> now >= u.breaker.value.nextAttemptAt)
  }

  /** How many successful rounds the breaker and the passive tracker still need. */
  ghost function BreakerDebt(u: UpstreamValue): int {
    if u.breaker.None? || u.breaker.value.state.Closed? then 0
    else u.breaker.value.cfg.halfOpenMaxRequests - u.breaker.value.halfOpenSuccesses
  }

  ghost function PassiveDebt(u: UpstreamValue): int {
    if u.passive.None? || !u.passive.value.unhealthy then 0
    else u.passive.value.cfg.successThreshold - u.passive.value.consecutiveSuccesses
  }

  /** Each successful round is admitted and pays off one unit of either debt. */
  lemma RoundPaysDebt(u: UpstreamValue, r: Round, now: int)
    requires Idle(u) && PastDeadlines(u, r.acquired) && PastDeadlines(u, now)
    ensures var v := u.AfterAcquire(r.acquired).AfterReport(Outcome(true, r.reported));
      && u.Acquires(r.acquired) && Idle(v) && PastDeadlines(v, now)
      && (v.breaker.None? <==> u.breaker.None?) && (v.passive.None? <==> u.passive.None?)
      && BreakerDebt(v) == (if BreakerDebt(u) == 0 then 0 else BreakerDebt(u) - 1)
      && PassiveDebt(v) == (if PassiveDebt(u) == 0 then 0 else PassiveDebt(u) - 1)
  {
  }

  ghost function Shortfall(debt: int, paid: nat): int {
    if debt <= paid then 0 else debt - paid
  }

  lemma {:induction false} RoundsPayDebt(u: UpstreamValue, rounds: seq<Round>, now: int)
    requires Idle(u) && PastDeadlines(u, now) && forall r | r in rounds :: PastDeadlines(u, r.acquired)
    ensures var v := AfterRounds(u, rounds);
      && AllAdmitted(u, rounds) && Idle(v) && PastDeadlines(v, now)
      && (v.breaker.None? <==> u.breaker.None?) && (v.passive.None? <==> u.passive.None?)
      && BreakerDebt(v) == Shortfall(BreakerDebt(u), |rounds|)
      && PassiveDebt(v) == Shortfall(PassiveDebt(u), |rounds|)
  {
    if rounds != [] {
      var first, r := rounds[..|rounds| - 1], rounds[|rounds| - 1];
      RoundsPayDebt(u, first, now);
      RoundsPayDebt(u, first, r.acquired);
      RoundPaysDebt(AfterRounds(u, first), r, now);
    }
  }

  /** The upstream is fully back: passive health is healthy and the breaker closed. */
  ghost predicate Recovered(u: UpstreamValue) {
    (u.breaker.Some? ==> u.breaker.value.state.Closed?) && (u.passive.Some? ==> !u.passive.value.unhealthy)
  }

  /**
   * From any idle state past both deadlines every round is admitted, and the upstream is back exactly when
   * there were as many rounds as the larger debt.
   */
  lemma RoundsRecover(u: UpstreamValue, rounds: seq<Round>, now: int)
    requires Idle(u) && PastDeadlines(u, now) && forall r | r in rounds :: PastDeadlines(u, r.acquired)
    ensures AllAdmitted(u, rounds)
    ensures Recovered(AfterRounds(u, rounds)) <==> |rounds| >= BreakerDebt(u) && |rounds| >= PassiveDebt(u)
  {
    RoundsPayDebt(u, rounds, now);
  }
}
