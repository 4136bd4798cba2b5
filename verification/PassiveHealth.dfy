/** Passive health of one upstream: a run-length state machine with a retry deadline. */
module PassiveHealth {
  import opened Outcomes

  datatype Options = Options(enabled: bool, failureThreshold: int, successThreshold: int, unhealthyDuration: int)

  datatype Config = Config(failureThreshold: int, successThreshold: int, unhealthyDuration: int) {
    ghost predicate Valid() {
      failureThreshold > 0 && successThreshold > 0 && unhealthyDuration > 0
    }
  }

  const TEN_SECONDS := 10_000_000_000

  /** The thresholds a tracker is built with: non-positive options fall back to 3, 1 and ten seconds. */
  function Defaulted(o: Options): (c: Config)
    ensures c.Valid()
    ensures c.failureThreshold == o.failureThreshold || (o.failureThreshold <= 0 && c.failureThreshold == 3)
    ensures c.successThreshold == o.successThreshold || (o.successThreshold <= 0 && c.successThreshold == 1)
    ensures c.unhealthyDuration == o.unhealthyDuration
            || (o.unhealthyDuration <= 0 && c.unhealthyDuration == TEN_SECONDS)
  {
    Config(if o.failureThreshold <= 0 then 3 else o.failureThreshold,
           if o.successThreshold <= 0 then 1 else o.successThreshold,
           if o.unhealthyDuration <= 0 then TEN_SECONDS else o.unhealthyDuration)
  }

  /** The tracker's fields as a value. */
  datatype Passive = Passive(
    cfg: Config, unhealthy: bool, consecutiveFailures: int, consecutiveSuccesses: int,
    retryAfter: int, lastFailureAt: int, lastSuccessAt: int)
  {
    predicate Available(now: int) {
      !unhealthy || now >= retryAfter
    }

    function AfterSuccess(now: int): Passive {
      if !unhealthy then
        this.(lastSuccessAt := now, consecutiveFailures := 0, consecutiveSuccesses := 0)
      else if consecutiveSuccesses + 1 >= cfg.successThreshold then
        this.(lastSuccessAt := now, consecutiveFailures := 0, consecutiveSuccesses := 0,
              unhealthy := false, retryAfter := ZERO_TIME)
      else
        this.(lastSuccessAt := now, consecutiveFailures := 0, consecutiveSuccesses := consecutiveSuccesses + 1)
    }

    function AfterFailure(now: int): Passive {
      var s := this.(lastFailureAt := now, consecutiveFailures := consecutiveFailures + 1, consecutiveSuccesses := 0);
      if s.consecutiveFailures >= cfg.failureThreshold then
        s.(unhealthy := true, retryAfter := now + cfg.unhealthyDuration)
      else s
    }

    function After(o: Outcome): Passive {
      if o.ok then AfterSuccess(o.at) else AfterFailure(o.at)
    }
  }

  function Initial(cfg: Config): Passive {
    Passive(cfg, false, 0, 0, ZERO_TIME, ZERO_TIME, ZERO_TIME)
  }

  /** What a snapshot reports that later decisions can be compared with. */
  datatype Snapshot = Snapshot(
    healthy: bool, available: bool, consecutiveFailures: int, consecutiveSuccesses: int,
    failureThreshold: int, successThreshold: int)

  /** The mutable tracker. Every method holds the lock for its whole body, so each is one atomic step. */
  class PassiveHealthState {
    const failureThreshold: int
    const successThreshold: int
    const unhealthyDuration: int
    var unhealthy: bool
    var consecutiveFailures: int
    var consecutiveSuccesses: int
    var retryAfter: int
    var lastFailureAt: int
    var lastSuccessAt: int

    constructor (o: Options)
      ensures Value() == Initial(Defaulted(o))
    {
      failureThreshold := if o.failureThreshold <= 0 then 3 else o.failureThreshold;
      successThreshold := if o.successThreshold <= 0 then 1 else o.successThreshold;
      unhealthyDuration := if o.unhealthyDuration <= 0 then TEN_SECONDS else o.unhealthyDuration;
      unhealthy, consecutiveFailures, consecutiveSuccesses := false, 0, 0;
      retryAfter, lastFailureAt, lastSuccessAt := ZERO_TIME, ZERO_TIME, ZERO_TIME;
    }

    ghost function Value(): Passive
      reads this
    {
      Passive(Config(failureThreshold, successThreshold, unhealthyDuration),
              unhealthy, consecutiveFailures, consecutiveSuccesses, retryAfter, lastFailureAt, lastSuccessAt)
    }

    method Available(now: int) returns (ok: bool)
      ensures ok == Value().Available(now)
    {
      if !unhealthy {
        return true;
      }
      return !(now < retryAfter);
    }

    method RecordSuccess(now: int)
      modifies this
      ensures Value() == old(Value()).AfterSuccess(now)
    {
      lastSuccessAt := now;
      consecutiveFailures := 0;
      if !unhealthy {
        consecutiveSuccesses := 0;
        return;
      }
      consecutiveSuccesses := consecutiveSuccesses + 1;
      if consecutiveSuccesses >= successThreshold {
        unhealthy := false;
        retryAfter := ZERO_TIME;
        consecutiveSuccesses := 0;
      }
    }

    method RecordFailure(now: int)
      modifies this
      ensures Value() == old(Value()).AfterFailure(now)
    {
      lastFailureAt := now;
      consecutiveFailures := consecutiveFailures + 1;
      consecutiveSuccesses := 0;
      if consecutiveFailures >= failureThreshold {
        unhealthy := true;
        retryAfter := now + unhealthyDuration;
      }
    }

    /** The availability a snapshot publishes is the one the selector would act on. */
    method TakeSnapshot(now: int) returns (s: Snapshot)
      ensures s.available == Value().Available(now)
      ensures s.healthy == !Value().unhealthy
      ensures s.consecutiveFailures == Value().consecutiveFailures
      ensures s.consecutiveSuccesses == Value().consecutiveSuccesses
      ensures s.failureThreshold == Value().cfg.failureThreshold
      ensures s.successThreshold == Value().cfg.successThreshold
    {
      s := Snapshot(!unhealthy, !unhealthy || !(now < retryAfter), consecutiveFailures, consecutiveSuccesses,
                    failureThreshold, successThreshold);
    }
  }

  /** A disabled tracker is a nil pointer. */
  method NewPassiveHealthState(o: Options) returns (s: PassiveHealthState?)
    ensures s == null <==> !o.enabled
    ensures s != null ==> fresh(s) && s.Value() == Initial(Defaulted(o))
  {
    if !o.enabled {
      return null;
    }
    s := new PassiveHealthState(o);
  }

  /** The tracker after the reports `h`, oldest first. */
  ghost function Run(cfg: Config, h: seq<Outcome>): Passive {
    if h == [] then Initial(cfg) else Run(cfg, h[..|h| - 1]).After(h[|h| - 1])
  }

  /** Some window of n failures has no window of m successes after it. */
  ghost predicate Unrecovered(h: seq<Outcome>, n: nat, m: nat) {
    exists i :: UnrecoveredFrom(h, i, n, m)
  }

  ghost predicate UnrecoveredFrom(h: seq<Outcome>, i: int, n: nat, m: nat) {
    FailureWindow(h, i, n) && forall j | j >= i + n :: !SuccessWindow(h, j, m)
  }

  /** The window at i is the latest window of n failures in the log. */
  ghost predicate LatestFailureWindow(h: seq<Outcome>, i: int, n: nat) {
    FailureWindow(h, i, n) && forall k | k > i :: !FailureWindow(h, k, n)
  }

  /** The run counters are the trailing runs of the log. */
  ghost predicate Counts(s: Passive, cfg: Config, h: seq<Outcome>) {
    && s.cfg == cfg
    && s.consecutiveFailures == TrailingFailures(h)
    && s.consecutiveSuccesses == (if s.unhealthy then TrailingSuccesses(h) else 0)
    && s.consecutiveSuccesses < cfg.successThreshold
    && (!s.unhealthy ==> s.retryAfter == ZERO_TIME && s.consecutiveFailures < cfg.failureThreshold)
  }

  lemma {:induction false} CountersAreTrailingRuns(cfg: Config, h: seq<Outcome>)
    requires cfg.Valid()
    ensures Counts(Run(cfg, h), cfg, h)
  {
    if h != [] {
      CountersAreTrailingRuns(cfg, h[..|h| - 1]);
    }
  }

  /** Appending one report adds no window except one that ends with it. */
  lemma OtherWindowsUnchanged(h: seq<Outcome>, i: int, n: nat)
    requires h != [] && n > 0 && i + n != |h|
    ensures FailureWindow(h, i, n) <==> FailureWindow(h[..|h| - 1], i, n)
    ensures SuccessWindow(h, i, n) <==> SuccessWindow(h[..|h| - 1], i, n)
  {
    var g := h[..|h| - 1];
    assert forall k | 0 <= k < |g| :: h[k] == g[k];
  }

  /** The tracker is unhealthy exactly when some failure window has not been followed by a recovery window. */
  lemma {:induction false} UnhealthyIffUnrecovered(cfg: Config, h: seq<Outcome>)
    requires cfg.Valid()
    ensures Run(cfg, h).unhealthy <==> Unrecovered(h, cfg.failureThreshold, cfg.successThreshold)
  {
    var n, m := cfg.failureThreshold, cfg.successThreshold;
    if h != [] {
      var g := h[..|h| - 1];
      UnhealthyIffUnrecovered(cfg, g);
      CountersAreTrailingRuns(cfg, g);
      TrailingFailuresAreAWindow(h, n);
      TrailingSuccessesAreAWindow(h, m);
      if TrailingFailures(h) >= n {
        assert UnrecoveredFrom(h, |h| - n, n, m);
      } else if TrailingSuccesses(h) >= m {
        RecoveryWindowEndsEverything(h, n, m);
      } else {
        NoWindowEndsHere(h, n, m);
      }
    }
  }

  lemma RecoveryWindowEndsEverything(h: seq<Outcome>, n: nat, m: nat)
    requires n > 0 && m > 0 && SuccessWindow(h, |h| - m, m)
    ensures !Unrecovered(h, n, m)
  {
    forall i ensures !UnrecoveredFrom(h, i, n, m) {
      if FailureWindow(h, i, n) {
        assert !h[i + n - 1].ok;
        assert i + n <= |h| - m;
      }
    }
  }

  lemma NoWindowEndsHere(h: seq<Outcome>, n: nat, m: nat)
    requires h != [] && n > 0 && m > 0
    requires !FailureWindow(h, |h| - n, n) && !SuccessWindow(h, |h| - m, m)
    ensures Unrecovered(h, n, m) <==> Unrecovered(h[..|h| - 1], n, m)
  {
    var g := h[..|h| - 1];
    forall i ensures FailureWindow(h, i, n) <==> FailureWindow(g, i, n) {
      if i + n != |h| { OtherWindowsUnchanged(h, i, n); }
    }
    forall j ensures SuccessWindow(h, j, m) <==> SuccessWindow(g, j, m) {
      if j + m != |h| { OtherWindowsUnchanged(h, j, m); }
    }
    forall i ensures UnrecoveredFrom(h, i, n, m) <==> UnrecoveredFrom(g, i, n, m) {
    }
  }

  /** While unhealthy, the retry deadline counts from the end of the latest failure window. */
  lemma {:induction false} RetryDeadline(cfg: Config, h: seq<Outcome>) returns (i: int)
    requires cfg.Valid() && Run(cfg, h).unhealthy
    ensures LatestFailureWindow(h, i, cfg.failureThreshold)
    ensures Run(cfg, h).retryAfter == h[i + cfg.failureThreshold - 1].at + cfg.unhealthyDuration
  {
    var n := cfg.failureThreshold;
    var g := h[..|h| - 1];
    CountersAreTrailingRuns(cfg, g);
    TrailingFailuresAreAWindow(h, n);
    if TrailingFailures(h) >= n {
      i := |h| - n;
    } else {
      i := RetryDeadline(cfg, g);
      forall k ensures FailureWindow(h, k, n) <==> FailureWindow(g, k, n) {
        if k + n != |h| { OtherWindowsUnchanged(h, k, n); }
      }
    }
  }

  /**
   * The filter in terms of the reports alone: a tracker lets a request through at `now` exactly when every failure
   * window is followed by a recovery window, or `unhealthyDuration` has passed since the end of the latest one.
   */
  lemma AvailableIff(cfg: Config, h: seq<Outcome>, now: int)
    requires cfg.Valid()
    ensures Run(cfg, h).Available(now)
            <==> (Unrecovered(h, cfg.failureThreshold, cfg.successThreshold) ==>
                    forall i | LatestFailureWindow(h, i, cfg.failureThreshold) ::
                      h[i + cfg.failureThreshold - 1].at + cfg.unhealthyDuration <= now)
  {
    UnhealthyIffUnrecovered(cfg, h);
    if Run(cfg, h).unhealthy {
      var i := RetryDeadline(cfg, h);
      assert forall k | LatestFailureWindow(h, k, cfg.failureThreshold) :: k == i;
    }
  }

  /** The time of the latest report with the given outcome. */
  ghost function LatestAt(h: seq<Outcome>, ok: bool): int {
    if h == [] then ZERO_TIME
    else if h[|h| - 1].ok == ok then h[|h| - 1].at
    else LatestAt(h[..|h| - 1], ok)
  }

  lemma {:induction false} TimesAreLatest(cfg: Config, h: seq<Outcome>)
    ensures Run(cfg, h).lastFailureAt == LatestAt(h, false) && Run(cfg, h).lastSuccessAt == LatestAt(h, true)
  {
    if h != [] {
      TimesAreLatest(cfg, h[..|h| - 1]);
    }
  }

  /**
   * A new tracker after n failures in a row, the last at t: it turns a request away exactly when n has reached the
   * configured threshold and the configured time has not passed since t.
   */
  lemma NewTrackerEjects(o: Options, h: seq<Outcome>, now: int)
    requires h != [] && forall r | r in h :: !r.ok
    ensures var n := if o.failureThreshold > 0 then o.failureThreshold else 3;
      var d := if o.unhealthyDuration > 0 then o.unhealthyDuration else 10_000_000_000;
      !Run(Defaulted(o), h).Available(now) <==> |h| >= n && now < h[|h| - 1].at + d
  {
    FailuresInARow(Defaulted(o), h);
  }

  lemma {:induction false} FailuresInARow(cfg: Config, h: seq<Outcome>)
    requires cfg.Valid() && forall r | r in h :: !r.ok
    ensures var s := Run(cfg, h);
      && s.cfg == cfg && s.consecutiveFailures == |h| && (s.unhealthy <==> |h| >= cfg.failureThreshold)
      && (s.unhealthy ==> s.retryAfter == h[|h| - 1].at + cfg.unhealthyDuration)
  {
    if h != [] {
      FailuresInARow(cfg, h[..|h| - 1]);
      assert h[|h| - 1] in h;
    }
  }

  /** The tracker after one success reported at each of the given times. */
  ghost function AfterSuccesses(s: Passive, times: seq<int>): Passive {
    if times == [] then s else AfterSuccesses(s, times[..|times| - 1]).AfterSuccess(times[|times| - 1])
  }

  /** From any state, exactly the missing number of successes makes the tracker healthy again. */
  lemma {:induction false} SuccessesNeededToRecover(s: Passive, times: seq<int>)
    requires s.cfg.Valid() && 0 <= s.consecutiveSuccesses < s.cfg.successThreshold
    ensures var t := AfterSuccesses(s, times);
      && t.cfg == s.cfg
      && (t.unhealthy <==> s.unhealthy && |times| < s.cfg.successThreshold - s.consecutiveSuccesses)
      && (t.unhealthy ==> t.retryAfter == s.retryAfter && t.consecutiveSuccesses == s.consecutiveSuccesses + |times|)
  {
    if times != [] {
      SuccessesNeededToRecover(s, times[..|times| - 1]);
    }
  }
}
