/** The three-state circuit breaker of one upstream. */
module CircuitBreaker {
  import opened Outcomes

  datatype Options = Options(enabled: bool, failureThreshold: int, openDuration: int, halfOpenMaxRequests: int)

  datatype Config = Config(failureThreshold: int, openDuration: int, halfOpenMaxRequests: int) {
    ghost predicate Valid() {
      failureThreshold > 0 && openDuration > 0 && halfOpenMaxRequests > 0
    }
  }

  const TEN_SECONDS := 10_000_000_000

  /** The limits a breaker is built with: non-positive options fall back to 5, ten seconds and 1. */
  function Defaulted(o: Options): (c: Config)
    ensures c.Valid()
    ensures c.failureThreshold == o.failureThreshold || (o.failureThreshold <= 0 && c.failureThreshold == 5)
    ensures c.openDuration == o.openDuration || (o.openDuration <= 0 && c.openDuration == TEN_SECONDS)
    ensures c.halfOpenMaxRequests == o.halfOpenMaxRequests
            || (o.halfOpenMaxRequests <= 0 && c.halfOpenMaxRequests == 1)
  {
    Config(if o.failureThreshold <= 0 then 5 else o.failureThreshold,
           if o.openDuration <= 0 then TEN_SECONDS else o.openDuration,
           if o.halfOpenMaxRequests <= 0 then 1 else o.halfOpenMaxRequests)
  }

  datatype State = Closed | Open | HalfOpen

  /** The breaker's fields as a value. */
  datatype Breaker = Breaker(
    cfg: Config, state: State, consecutiveFailures: int, halfOpenInFlight: int, halfOpenSuccesses: int,
    nextAttemptAt: int, lastFailureAt: int, lastSuccessAt: int)
  {
    /** What every operation keeps. */
    ghost predicate Inv() {
      && cfg.Valid()
      && (state.Closed? ==> 0 <= consecutiveFailures < cfg.failureThreshold)
      && (!state.Closed? ==> consecutiveFailures == cfg.failureThreshold
                             && nextAttemptAt == lastFailureAt + cfg.openDuration)
      && (!state.HalfOpen? ==> halfOpenInFlight == 0 && halfOpenSuccesses == 0)
      && 0 <= halfOpenInFlight <= cfg.halfOpenMaxRequests
      && 0 <= halfOpenSuccesses < cfg.halfOpenMaxRequests
    }

    predicate Allows(now: int) {
      match state
      case Closed => true
      case Open => now >= nextAttemptAt && 0 < cfg.halfOpenMaxRequests
      case HalfOpen => halfOpenInFlight < cfg.halfOpenMaxRequests
    }

    /** The breaker after `allow(now)`, granted or not. */
    function AfterAllow(now: int): Breaker {
      match state
      case Closed => this
      case Open =>
        if now < nextAttemptAt then this
        else this.(state := HalfOpen, halfOpenSuccesses := 0,
                   halfOpenInFlight := if 0 < cfg.halfOpenMaxRequests then 1 else 0)
      case HalfOpen =>
        if halfOpenInFlight < cfg.halfOpenMaxRequests then this.(halfOpenInFlight := halfOpenInFlight + 1) else this
    }

    function Reopened(now: int): Breaker {
      this.(state := Open, nextAttemptAt := now + cfg.openDuration, halfOpenInFlight := 0, halfOpenSuccesses := 0,
            lastFailureAt := now)
    }

    function AfterSuccess(now: int): Breaker {
      match state
      case Closed => this.(lastSuccessAt := now, consecutiveFailures := 0)
      case Open => this.(lastSuccessAt := now)
      case HalfOpen =>
        if halfOpenSuccesses + 1 >= cfg.halfOpenMaxRequests then
          this.(lastSuccessAt := now, state := Closed, consecutiveFailures := 0, halfOpenInFlight := 0,
                halfOpenSuccesses := 0, nextAttemptAt := ZERO_TIME)
        else
          this.(lastSuccessAt := now, halfOpenSuccesses := halfOpenSuccesses + 1,
                halfOpenInFlight := if halfOpenInFlight > 0 then halfOpenInFlight - 1 else halfOpenInFlight)
    }

    function AfterFailure(now: int): Breaker {
      match state
      case Closed =>
        var b := this.(lastFailureAt := now, consecutiveFailures := consecutiveFailures + 1);
        if b.consecutiveFailures >= cfg.failureThreshold then b.Reopened(now) else b
      case Open => this.(lastFailureAt := now, nextAttemptAt := now + cfg.openDuration)
      case HalfOpen => Reopened(now)
    }

    function After(e: Event): Breaker {
      match e
      case Admit(now) => AfterAllow(now)
      case Report(o) => if o.ok then AfterSuccess(o.at) else AfterFailure(o.at)
    }

    /** 1 when the event is an admission that is granted. */
    function Grants(e: Event): nat {
      if e.Admit? && Allows(e.now) then 1 else 0
    }
  }

  function Initial(cfg: Config): Breaker {
    Breaker(cfg, Closed, 0, 0, 0, ZERO_TIME, ZERO_TIME, ZERO_TIME)
  }

  /** One locked call on the breaker: `allow`, or one of the two record methods. */
  datatype Event = Admit(now: int) | Report(outcome: Outcome) {
    function At(): int {
      match this
      case Admit(now) => now
      case Report(o) => o.at
    }
  }

  datatype Snapshot = Snapshot(
    state: State, available: bool, consecutiveFailures: int, halfOpenInFlight: int, halfOpenSuccesses: int)

  /** The mutable breaker. Every method holds the lock for its whole body, so each is one atomic step. */
  class CircuitBreakerState {
    const failureThreshold: int
    const openDuration: int
    const halfOpenMaxRequests: int
    var state: State
    var consecutiveFailures: int
    var halfOpenInFlight: int
    var halfOpenSuccesses: int
    var nextAttemptAt: int
    var lastFailureAt: int
    var lastSuccessAt: int

    constructor (o: Options)
      ensures Value() == Initial(Defaulted(o))
    {
      failureThreshold := if o.failureThreshold <= 0 then 5 else o.failureThreshold;
      openDuration := if o.openDuration <= 0 then TEN_SECONDS else o.openDuration;
      halfOpenMaxRequests := if o.halfOpenMaxRequests <= 0 then 1 else o.halfOpenMaxRequests;
      state, consecutiveFailures, halfOpenInFlight, halfOpenSuccesses := Closed, 0, 0, 0;
      nextAttemptAt, lastFailureAt, lastSuccessAt := ZERO_TIME, ZERO_TIME, ZERO_TIME;
    }

    ghost function Value(): Breaker
      reads this
    {
      Breaker(Config(failureThreshold, openDuration, halfOpenMaxRequests), state, consecutiveFailures,
              halfOpenInFlight, halfOpenSuccesses, nextAttemptAt, lastFailureAt, lastSuccessAt)
    }

    method Allow(now: int) returns (ok: bool)
      modifies this
      ensures ok == old(Value()).Allows(now)
      ensures Value() == old(Value()).AfterAllow(now)
    {
      if state.Closed? {
        return true;
      }
      if state.Open? {
        if now < nextAttemptAt {
          return false;
        }
        state := HalfOpen;
        halfOpenInFlight := 0;
        halfOpenSuccesses := 0;
      }
      if halfOpenInFlight >= halfOpenMaxRequests {
        return false;
      }
      halfOpenInFlight := halfOpenInFlight + 1;
      return true;
    }

    method RecordSuccess(now: int)
      modifies this
      ensures Value() == old(Value()).AfterSuccess(now)
    {
      lastSuccessAt := now;
      match state {
        case Closed =>
          consecutiveFailures := 0;
        case HalfOpen =>
          if halfOpenInFlight > 0 {
            halfOpenInFlight := halfOpenInFlight - 1;
          }
          halfOpenSuccesses := halfOpenSuccesses + 1;
          if halfOpenSuccesses >= halfOpenMaxRequests {
            CloseLocked();
          }
        case Open =>
      }
    }

    method RecordFailure(now: int)
      modifies this
      ensures Value() == old(Value()).AfterFailure(now)
    {
      lastFailureAt := now;
      match state {
        case Closed =>
          consecutiveFailures := consecutiveFailures + 1;
          if consecutiveFailures >= failureThreshold {
            OpenLocked(now);
          }
        case HalfOpen =>
          if halfOpenInFlight > 0 {
            halfOpenInFlight := halfOpenInFlight - 1;
          }
          OpenLocked(now);
        case Open =>
          nextAttemptAt := now + openDuration;
      }
    }

    method OpenLocked(now: int)
      modifies this
      ensures Value() == old(Value()).(state := Open, nextAttemptAt := now + openDuration,
                                       halfOpenInFlight := 0, halfOpenSuccesses := 0)
    {
      state := Open;
      nextAttemptAt := now + openDuration;
      halfOpenInFlight := 0;
      halfOpenSuccesses := 0;
    }

    method CloseLocked()
      modifies this
      ensures Value() == old(Value()).(state := Closed, consecutiveFailures := 0, halfOpenInFlight := 0,
                                       halfOpenSuccesses := 0, nextAttemptAt := ZERO_TIME)
    {
      state := Closed;
      consecutiveFailures := 0;
      halfOpenInFlight := 0;
      halfOpenSuccesses := 0;
      nextAttemptAt := ZERO_TIME;
    }

    /** The availability a snapshot publishes is the answer `Allow` would give at that moment. */
    method TakeSnapshot(now: int) returns (s: Snapshot)
      requires halfOpenMaxRequests > 0
      ensures s.available == Value().Allows(now)
      ensures s.state == Value().state
      ensures s.consecutiveFailures == Value().consecutiveFailures
      ensures s.halfOpenInFlight == Value().halfOpenInFlight && s.halfOpenSuccesses == Value().halfOpenSuccesses
    {
      var available := true;
      if state.Open? {
        available := !(now < nextAttemptAt);
      } else if state.HalfOpen? {
        available := halfOpenInFlight < halfOpenMaxRequests;
      }
      s := Snapshot(state, available, consecutiveFailures, halfOpenInFlight, halfOpenSuccesses);
    }
  }

  /** A disabled breaker is a nil pointer. */
  method NewCircuitBreakerState(o: Options) returns (c: CircuitBreakerState?)
    ensures c == null <==> !o.enabled
    ensures c != null ==> fresh(c) && c.Value() == Initial(Defaulted(o))
  {
    if !o.enabled {
      return null;
    }
    c := new CircuitBreakerState(o);
  }

  /** The breaker after the events `h`, oldest first. */
  ghost function Run(b: Breaker, h: seq<Event>): Breaker {
    if h == [] then b else Run(b, h[..|h| - 1]).After(h[|h| - 1])
  }

  /** The number of admissions granted along the way. */
  ghost function Granted(b: Breaker, h: seq<Event>): nat {
    if h == [] then 0 else Granted(b, h[..|h| - 1]) + Run(b, h[..|h| - 1]).Grants(h[|h| - 1])
  }

  /** What a call adds to the admissions granted less the reports. */
  ghost function Change(b: Breaker, e: Event): int {
    b.Grants(e) - (if e.Report? then 1 else 0)
  }

  /** The admissions granted in a log, less the reports. */
  ghost function Net(b: Breaker, h: seq<Event>): int {
    if h == [] then 0 else Net(b, h[..|h| - 1]) + Change(Run(b, h[..|h| - 1]), h[|h| - 1])
  }

  /** With x requests running at the start, no report comes without a running request that can make it. */
  ghost predicate Covered(b: Breaker, h: seq<Event>, x: int) {
    x + Net(b, h) >= 0 && (h == [] || Covered(b, h[..|h| - 1], x))
  }

  lemma {:induction false} CoveredByMore(b: Breaker, h: seq<Event>, x: int, y: int)
    requires Covered(b, h, x) && x <= y
    ensures Covered(b, h, y)
  {
    if h != [] {
      CoveredByMore(b, h[..|h| - 1], x, y);
    }
  }

  lemma {:induction false} CoveredAppend(b: Breaker, h: seq<Event>, k: seq<Event>, x: int)
    requires Covered(b, h, x) && Covered(Run(b, h), k, x + Net(b, h))
    ensures Covered(b, h + k, x) && Net(b, h + k) == Net(b, h) + Net(Run(b, h), k)
  {
    if k == [] {
      assert h + k == h;
    } else {
      var g := k[..|k| - 1];
      CoveredAppend(b, h, g, x);
      RunAppend(b, h, g);
      assert (h + k)[..|h + k| - 1] == h + g;
    }
  }

  /** Admissions and reports in any order, late reports included, keep the invariant. */
  lemma {:induction false} RunKeepsInv(b: Breaker, h: seq<Event>)
    requires b.Inv()
    ensures Run(b, h).Inv() && Run(b, h).cfg == b.cfg
  {
    if h != [] {
      RunKeepsInv(b, h[..|h| - 1]);
    }
  }

  /** A refused admission leaves every field as it was, because at least one half-open slot is configured. */
  lemma RefusalLeavesBreakerUnchanged(b: Breaker, now: int)
    requires b.cfg.halfOpenMaxRequests > 0 && !b.Allows(now)
    ensures b.AfterAllow(now) == b
  {
  }

  lemma {:induction false} RunAppend(b: Breaker, h: seq<Event>, k: seq<Event>)
    ensures Run(b, h + k) == Run(Run(b, h), k)
    ensures Granted(b, h + k) == Granted(b, h) + Granted(Run(b, h), k)
  {
    if k == [] {
      assert h + k == h;
    } else {
      var g := k[..|k| - 1];
      RunAppend(b, h, g);
      assert (h + k)[..|h + k| - 1] == h + g;
    }
  }
}

/** The breaker's state read off its event log, without its counters or its deadline. */
module BreakerHistory {
  import opened Outcomes
  import opened CircuitBreaker

  /** The outcomes reported in a log, in order. */
  ghost function Reports(h: seq<Event>): seq<Outcome> {
    if h == [] then [] else Extended(Reports(h[..|h| - 1]), h[|h| - 1])
  }

  ghost function Successes(r: seq<Outcome>): nat {
    if r == [] then 0 else Successes(r[..|r| - 1]) + (if r[|r| - 1].ok then 1 else 0)
  }

  ghost predicate SomeFailure(r: seq<Outcome>) {
    exists o :: o in r && !o.ok
  }

  /** The last n reports are all failures. */
  ghost predicate EndsInFailures(r: seq<Outcome>, n: nat) {
    FailureWindow(r, |r| - n, n)
  }

  /** The time of the last failure reported in the log. */
  ghost function LastFailureAt(h: seq<Event>): int {
    if h == [] then ZERO_TIME else FailedAt(LastFailureAt(h[..|h| - 1]), h[|h| - 1])
  }

  ghost function FailedAt(before: int, e: Event): int {
    if e.Report? && !e.outcome.ok then e.outcome.at else before
  }

  /** The reports of a stay, event e included. */
  ghost function Extended(r: seq<Outcome>, e: Event): seq<Outcome> {
    if e.Report? then r + [e.outcome] else r
  }

  /** The state the breaker is in, and the position in the log where this stay began. */
  datatype Stay = Stay(state: State, since: nat)

  ghost function StayOf(cfg: Config, h: seq<Event>): (s: Stay)
    ensures s.since <= |h| && (s.since == 0 ==> s.state.Closed?)
  {
    if h == [] then Stay(Closed, 0)
    else
      var g, e := h[..|h| - 1], h[|h| - 1];
      var s := StayOf(cfg, g);
      var next := NextState(cfg, s.state, Reports(h[s.since..]), LastFailureAt(g), e);
      if next == s.state then s else Stay(next, |h|)
  }

  /**
   * Where a stay ends. `r` holds the reports of the stay, the one of event `e` included, and `failedAt`
   * is the time of the last failure before `e`.
   */
  ghost function NextState(cfg: Config, state: State, r: seq<Outcome>, failedAt: int, e: Event): State {
    match state
    case Closed => if cfg.failureThreshold >= 0 && EndsInFailures(r, cfg.failureThreshold) then Open else Closed
    case Open => if e.Admit? && e.now >= failedAt + cfg.openDuration then HalfOpen else Open
    case HalfOpen =>
      if SomeFailure(r) then Open
      else if Successes(r) >= cfg.halfOpenMaxRequests then Closed
      else HalfOpen
  }

  /** The fields of the breaker hold what the reports of the current stay say. */
  ghost predicate Agrees(b: Breaker, state: State, r: seq<Outcome>, failedAt: int) {
    && b.Inv() && b.state == state && b.lastFailureAt == failedAt
    && (state.Closed? ==> b.consecutiveFailures == TrailingFailures(r))
    && (state.HalfOpen? ==> b.halfOpenSuccesses == Successes(r) && !SomeFailure(r))
  }

  /** The breaker's state and counters are these functions of its log, for every log. */
  lemma {:induction false} StateFollowsHistory(cfg: Config, h: seq<Event>)
    requires cfg.Valid()
    ensures var s := StayOf(cfg, h);
      Agrees(Run(Initial(cfg), h), s.state, Reports(h[s.since..]), LastFailureAt(h))
  {
    if h == [] {
      assert h[0..] == [];
    } else {
      var g, e := h[..|h| - 1], h[|h| - 1];
      StateFollowsHistory(cfg, g);
      RunKeepsInv(Initial(cfg), g);
      var s := StayOf(cfg, g);
      StayGrows(h, s.since);
      assert h[|h|..] == [];
      NextEventAgrees(Run(Initial(cfg), g), Reports(g[s.since..]), LastFailureAt(g), e);
    }
  }

  lemma StayGrows(h: seq<Event>, since: nat)
    requires since < |h|
    ensures Reports(h[since..]) == Extended(Reports(h[..|h| - 1][since..]), h[|h| - 1])
  {
    assert h[since..][..|h| - 1 - since] == h[..|h| - 1][since..];
  }

  lemma OneMoreReport(r: seq<Outcome>, o: Outcome)
    ensures SomeFailure(r + [o]) <==> SomeFailure(r) || !o.ok
    ensures Successes(r + [o]) == Successes(r) + (if o.ok then 1 else 0)
    ensures TrailingFailures(r + [o]) == (if o.ok then 0 else TrailingFailures(r) + 1)
  {
    assert (r + [o])[..|r|] == r;
    assert o in r + [o];
    assert forall x | x in r :: x in r + [o];
  }

  lemma NextEventAgrees(b: Breaker, r: seq<Outcome>, failedAt: int, e: Event)
    requires Agrees(b, b.state, r, failedAt)
    ensures var next := NextState(b.cfg, b.state, Extended(r, e), failedAt, e);
      Agrees(b.After(e), next, if next == b.state then Extended(r, e) else [], FailedAt(failedAt, e))
  {
    if e.Report? {
      OneMoreReport(r, e.outcome);
    }
    TrailingFailuresAreAWindow(Extended(r, e), b.cfg.failureThreshold);
  }

  lemma EventLeavesExactlyWhen(b: Breaker, r: seq<Outcome>, failedAt: int, e: Event)
    requires Agrees(b, b.state, r, failedAt)
    ensures Transitions(b.cfg, b.state, b.After(e).state, Extended(r, e), failedAt, e)
  {
    if e.Report? {
      OneMoreReport(r, e.outcome);
    }
    TrailingFailuresAreAWindow(Extended(r, e), b.cfg.failureThreshold);
  }

  /** The conditions of the four transitions, `r` being the reports of the stay with event e included. */
  ghost predicate Transitions(cfg: Config, from: State, to: State, r: seq<Outcome>, failedAt: int, e: Event)
    requires cfg.Valid()
  {
    var failure, success := e.Report? && !e.outcome.ok, e.Report? && e.outcome.ok;
    && (from.Closed? ==> !to.HalfOpen? && (to.Open? <==> failure && EndsInFailures(r, cfg.failureThreshold)))
    && (from.Open? ==> !to.Closed? && (to.HalfOpen? <==> e.Admit? && e.now >= failedAt + cfg.openDuration))
    && (from.HalfOpen? ==> && (to.Open? <==> failure)
                           && (to.Closed? <==> success && Successes(r) == cfg.halfOpenMaxRequests))
  }

  /** The time of the last success reported in the log. */
  ghost function LastSuccessAt(h: seq<Event>): int {
    if h == [] then ZERO_TIME
    else if h[|h| - 1].Report? && h[|h| - 1].outcome.ok then h[|h| - 1].outcome.at
    else LastSuccessAt(h[..|h| - 1])
  }

  /** A closed breaker has no deadline, and the last success is the latest one reported. */
  lemma {:induction false} TimesFollowHistory(cfg: Config, h: seq<Event>)
    ensures var b := Run(Initial(cfg), h);
      b.lastSuccessAt == LastSuccessAt(h) && (b.state.Closed? ==> b.nextAttemptAt == ZERO_TIME)
  {
    if h != [] {
      TimesFollowHistory(cfg, h[..|h| - 1]);
    }
  }

  /**
   * When an admission is granted, as a condition on the log: always while closed, from D after the last failure on
   * while open, and while slots are free when half-open.
   */
  lemma GrantedExactlyWhen(cfg: Config, h: seq<Event>, now: int)
    requires cfg.Valid()
    ensures Run(Initial(cfg), h).Grants(Admit(now)) == 1
            <==> match StayOf(cfg, h).state
                 case Closed => true
                 case Open => LastFailureAt(h) + cfg.openDuration <= now
                 case HalfOpen => Run(Initial(cfg), h).halfOpenInFlight < cfg.halfOpenMaxRequests
  {
    StateFollowsHistory(cfg, h);
    RunKeepsInv(Initial(cfg), h);
  }

  /**
   * A new breaker after failures in a row, the last at t: it is closed exactly while they are fewer than the
   * configured threshold, and once open it admits a request exactly from the configured time after t on.
   */
  lemma NewBreakerTrips(o: Options, h: seq<Event>, now: int)
    requires h != [] && forall e | e in h :: e.Report? && !e.outcome.ok
    ensures var n := if o.failureThreshold > 0 then o.failureThreshold else 5;
      var d := if o.openDuration > 0 then o.openDuration else 10_000_000_000;
      var b := Run(Initial(Defaulted(o)), h);
      && (b.state.Closed? <==> |h| < n)
      && (|h| >= n ==> (b.Grants(Admit(now)) == 1 <==> h[|h| - 1].At() + d <= now))
  {
    FailuresInARow(Defaulted(o), h);
  }

  lemma {:induction false} FailuresInARow(cfg: Config, h: seq<Event>)
    requires cfg.Valid() && forall e | e in h :: e.Report? && !e.outcome.ok
    ensures var b := Run(Initial(cfg), h);
      && b.cfg == cfg && b.Inv()
      && (if |h| < cfg.failureThreshold then b.state.Closed? && b.consecutiveFailures == |h|
          else b.state.Open? && b.lastFailureAt == h[|h| - 1].At())
  {
    if h != [] {
      FailuresInARow(cfg, h[..|h| - 1]);
      assert h[|h| - 1] in h;
    }
  }

  /** Each of the four transitions, as a condition on the log alone. */
  lemma LeavesExactlyWhen(cfg: Config, h: seq<Event>, e: Event)
    requires cfg.Valid()
    ensures Transitions(cfg, Run(Initial(cfg), h).state, Run(Initial(cfg), h + [e]).state,
                        Extended(Reports(h[StayOf(cfg, h).since..]), e), LastFailureAt(h), e)
  {
    StateFollowsHistory(cfg, h);
    RunKeepsInv(Initial(cfg), h);
    assert (h + [e])[..|h|] == h;
    EventLeavesExactlyWhen(Run(Initial(cfg), h), Reports(h[StayOf(cfg, h).since..]), LastFailureAt(h), e);
  }
}
