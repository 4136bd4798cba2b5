/** Runs that attain the load-shedding bound, and with them the exact condition under which it holds. */
module WorstShedding {
  import opened Arithmetic
  import opened Outcomes
  import opened CircuitBreaker
  import opened LoadShedding

  ghost function Repeated(e: Event, n: nat): seq<Event> {
    if n == 0 then [] else Repeated(e, n - 1) + [e]
  }

  /**
   * The events lead from b to c without closing the breaker and grant n admissions; x requests are running before
   * them and y after them, and each report is made by a running request.
   */
  ghost predicate Leads(b: Breaker, h: seq<Event>, c: Breaker, n: int, x: int, y: int) {
    Run(b, h) == c && Granted(b, h) == n && StaysTripped(b, h) && Covered(b, h, x) && x + Net(b, h) == y
  }

  lemma LeadsOn(b: Breaker, h: seq<Event>, e: Event, c: Breaker, n: int, x: int, y: int)
    requires Leads(b, h, c, n, x, y) && !c.After(e).state.Closed? && y + Change(c, e) >= 0
    ensures Leads(b, h + [e], c.After(e), n + c.Grants(e), x, y + Change(c, e))
  {
    assert (h + [e])[..|h|] == h;
  }

  lemma {:induction false} TrippedAppend(b: Breaker, h: seq<Event>, k: seq<Event>)
    requires StaysTripped(b, h) && StaysTripped(Run(b, h), k)
    ensures StaysTripped(b, h + k)
  {
    RunAppend(b, h, k);
    if k == [] {
      assert h + k == h;
    } else {
      TrippedAppend(b, h, k[..|k| - 1]);
      assert (h + k)[..|h + k| - 1] == h + k[..|k| - 1];
    }
  }

  lemma LeadsFurther(b: Breaker, h: seq<Event>, c: Breaker, n: int, k: seq<Event>, d: Breaker, m: int,
                     x: int, y: int, z: int)
    requires Leads(b, h, c, n, x, y) && Leads(c, k, d, m, y, z)
    ensures Leads(b, h + k, d, n + m, x, z)
  {
    RunAppend(b, h, k);
    TrippedAppend(b, h, k);
    CoveredAppend(b, h, k, x);
  }

  /** n admissions at one moment, granted while slots last. */
  lemma {:induction false} AdmitBurst(b: Breaker, at: int, n: nat, x: nat)
    requires b.Inv() && b.state.HalfOpen? && b.halfOpenInFlight + n <= b.cfg.halfOpenMaxRequests
    ensures Leads(b, Repeated(Admit(at), n), b.(halfOpenInFlight := b.halfOpenInFlight + n), n, x, x + n)
  {
    if n > 0 {
      var c := b.(halfOpenInFlight := b.halfOpenInFlight + n - 1);
      AdmitBurst(b, at, n - 1, x);
      LeadsOn(b, Repeated(Admit(at), n - 1), Admit(at), c, n - 1, x, x + n - 1);
    }
  }

  /** n successes at one moment, one fewer than would close the breaker. */
  lemma {:induction false} SuccessBurst(b: Breaker, at: int, n: nat, x: nat)
    requires b.Inv() && b.state.HalfOpen? && n <= x
    requires n <= b.halfOpenInFlight && b.halfOpenSuccesses + n < b.cfg.halfOpenMaxRequests
    ensures Leads(b, Repeated(Report(Outcome(true, at)), n), AfterSuccesses(b, at, n), 0, x, x - n)
  {
    if n > 0 {
      SuccessBurst(b, at, n - 1, x);
      var success := Report(Outcome(true, at));
      LeadsOn(b, Repeated(success, n - 1), success, AfterSuccesses(b, at, n - 1), 0, x, x - (n - 1));
    }
  }

  ghost function AfterSuccesses(b: Breaker, at: int, n: nat): Breaker {
    b.(halfOpenInFlight := b.halfOpenInFlight - n, halfOpenSuccesses := b.halfOpenSuccesses + n,
       lastSuccessAt := if n == 0 then b.lastSuccessAt else at)
  }

  ghost predicate AllWithin(h: seq<Event>, from: int, to: int) {
    forall e | e in h :: from <= e.At() <= to
  }

  lemma {:induction false} RepeatedAllAt(e: Event, n: nat)
    ensures AllWithin(Repeated(e, n), e.At(), e.At())
  {
    if n > 0 {
      RepeatedAllAt(e, n - 1);
    }
  }

  lemma {:induction false} LagsAppend(h: seq<Event>, k: seq<Event>, start: int, at: int, lag: nat)
    requires Lags(h, start, lag) && Latest(h, start) <= at && AllWithin(k, at - lag, at)
    ensures Lags(h + k, start, lag) && Latest(h + k, start) <= at
  {
    if k == [] {
      assert h + k == h;
    } else {
      var g := k[..|k| - 1];
      LagsAppend(h, g, start, at, lag);
      assert (h + k)[..|h + k| - 1] == h + g;
      assert k[|k| - 1] in k;
    }
  }

  lemma {:induction false} LagsLonger(h: seq<Event>, start: int, lag: int, longer: int)
    requires Lags(h, start, lag) && lag <= longer
    ensures Lags(h, start, longer)
  {
    if h != [] {
      LagsLonger(h[..|h| - 1], start, lag, longer);
    }
  }

  /** Admissions that fill the slots of a new episode, all at one moment. */
  ghost function EpisodeStart(cfg: Config, at: int): seq<Event>
    requires cfg.Valid()
  {
    [Admit(at)] + Repeated(Admit(at), cfg.halfOpenMaxRequests - 1)
  }

  /** Successes that free all slots but one, and admissions that fill them again. */
  ghost function EpisodeMiddle(cfg: Config, at: int): seq<Event>
    requires cfg.Valid()
  {
    Repeated(Report(Outcome(true, at)), cfg.halfOpenMaxRequests - 1) + Repeated(Admit(at), cfg.halfOpenMaxRequests - 1)
  }

  /** One episode that admits 2m-1 requests, and the failure read at `fail` that trips the breaker again. */
  ghost function WorstEpisode(cfg: Config, at: int, fail: int): seq<Event>
    requires cfg.Valid()
  {
    EpisodeStart(cfg, at) + EpisodeMiddle(cfg, at) + [Report(Outcome(false, fail))]
  }

  /** The breaker of a new episode with n requests in flight. */
  ghost function Started(b: Breaker, n: nat): Breaker {
    b.(state := HalfOpen, halfOpenInFlight := n)
  }

  /** The breaker after a worst episode. */
  ghost function Retripped(b: Breaker, at: int, fail: int): Breaker {
    b.(state := Open, halfOpenInFlight := 0, nextAttemptAt := fail + b.cfg.openDuration, lastFailureAt := fail,
       lastSuccessAt := if b.cfg.halfOpenMaxRequests == 1 then b.lastSuccessAt else at)
  }

  lemma FirstAdmission(b: Breaker, at: int, x: nat)
    requires b.Inv() && b.state.Open? && b.nextAttemptAt <= at
    ensures Leads(b, [Admit(at)], Started(b, 1), 1, x, x + 1)
  {
    LeadsOn(b, [], Admit(at), b, 0, x, x);
    assert [] + [Admit(at)] == [Admit(at)];
  }

  lemma EpisodeFills(b: Breaker, at: int, x: nat)
    requires b.Inv() && b.state.Open? && b.nextAttemptAt <= at
    ensures var m := b.cfg.halfOpenMaxRequests; Leads(b, EpisodeStart(b.cfg, at), Started(b, m), m, x, x + m)
  {
    var m := b.cfg.halfOpenMaxRequests;
    FirstAdmission(b, at, x);
    AdmitBurst(Started(b, 1), at, m - 1, x + 1);
    LeadsFurther(b, [Admit(at)], Started(b, 1), 1, Repeated(Admit(at), m - 1), Started(b, m), m - 1, x, x + 1, x + m);
  }

  /** The breaker of a full episode whose next success closes it. */
  ghost function Undecided(b: Breaker, at: int): Breaker
    requires b.Inv()
  {
    AfterSuccesses(Started(b, b.cfg.halfOpenMaxRequests), at, b.cfg.halfOpenMaxRequests - 1)
    .(halfOpenInFlight := b.cfg.halfOpenMaxRequests)
  }

  lemma EpisodeGoesOn(b: Breaker, at: int, x: nat)
    requires b.Inv() && b.state.Open? && b.cfg.halfOpenMaxRequests <= x
    ensures Leads(Started(b, b.cfg.halfOpenMaxRequests), EpisodeMiddle(b.cfg, at), Undecided(b, at),
                  b.cfg.halfOpenMaxRequests - 1, x, x)
  {
    var k := b.cfg.halfOpenMaxRequests - 1;
    var full := Started(b, k + 1);
    var freed := AfterSuccesses(full, at, k);
    SuccessBurst(full, at, k, x);
    AdmitBurst(freed, at, k, x - k);
    LeadsFurther(full, Repeated(Report(Outcome(true, at)), k), freed, 0, Repeated(Admit(at), k), Undecided(b, at), k,
                 x, x - k, x);
  }

  lemma WorstEpisodeLeads(b: Breaker, at: int, fail: int, x: nat)
    requires b.Inv() && b.state.Open? && b.nextAttemptAt <= at
    ensures Leads(b, WorstEpisode(b.cfg, at, fail), Retripped(b, at, fail), PerEpisode(b.cfg),
                  x, x + b.cfg.halfOpenMaxRequests - 1)
  {
    var m := b.cfg.halfOpenMaxRequests;
    var start, middle := EpisodeStart(b.cfg, at), EpisodeMiddle(b.cfg, at);
    EpisodeFills(b, at, x);
    EpisodeGoesOn(b, at, x + m);
    LeadsFurther(b, start, Started(b, m), m, middle, Undecided(b, at), m - 1, x, x + m, x + m);
    LeadsOn(b, start + middle, Report(Outcome(false, fail)), Undecided(b, at), 2 * m - 1, x, x + m);
  }

  lemma WorstEpisodeIsWithin(cfg: Config, at: int, fail: int)
    requires cfg.Valid() && fail <= at
    ensures AllWithin(WorstEpisode(cfg, at, fail), fail, at)
  {
    RepeatedAllAt(Admit(at), cfg.halfOpenMaxRequests - 1);
    RepeatedAllAt(Report(Outcome(true, at)), cfg.halfOpenMaxRequests - 1);
  }

  /**
   * The run grants n admissions by t0+T, never closes, and leaves the breaker opened by a failure `lag` old. Its
   * reports need one running request to begin with.
   */
  ghost predicate Attains(b: Breaker, h: seq<Event>, t0: int, T: int, lag: nat, n: int)
    requires b.Inv()
  {
    var c := Run(b, h);
    && c.Inv() && c.cfg == b.cfg && c.state.Open? && c.lastFailureAt == t0 + T - lag
    && Shed(b, h, t0, T, lag) && Granted(b, h) == n && Covered(b, h, 1)
  }

  /** A failure that was read `lag` before t0 moves the deadline forward. */
  lemma LateFailure(b: Breaker, t0: int, lag: nat)
    requires b.Inv() && b.state.Open?
    ensures Attains(b, [Report(Outcome(false, t0 - lag))], t0, 0, lag, 0)
  {
    LeadsOn(b, [], Report(Outcome(false, t0 - lag)), b, 0, 1, 1);
    LagsAppend([], [Report(Outcome(false, t0 - lag))], t0, t0, lag);
    assert [] + [Report(Outcome(false, t0 - lag))] == [Report(Outcome(false, t0 - lag))];
  }

  lemma AttainsOn(b: Breaker, h: seq<Event>, t0: int, T: int, lag: nat, n: int,
                  k: seq<Event>, c: Breaker, m: int, y: int, later: int) returns (longer: seq<Event>)
    requires b.Inv() && Attains(b, h, t0, T, lag, n) && T <= later
    requires Leads(Run(b, h), k, c, m, 1 + Net(b, h), y) && AllWithin(k, t0 + later - lag, t0 + later)
    requires c.Inv() && c.cfg == b.cfg && c.state.Open? && c.lastFailureAt == t0 + later - lag
    ensures Attains(b, longer, t0, later, lag, n + m)
  {
    longer := h + k;
    LeadsFurther(b, h, Run(b, h), n, k, c, m, 1, 1 + Net(b, h), y);
    LagsAppend(h, k, t0, t0 + later, lag);
  }

  lemma OneMoreEpisode(b: Breaker, h: seq<Event>, t0: int, T: int, lag: nat, n: int) returns (longer: seq<Event>)
    requires b.Inv() && Attains(b, h, t0, T, lag, n) && lag <= b.cfg.openDuration
    ensures Attains(b, longer, t0, T + b.cfg.openDuration - lag, lag, n + PerEpisode(b.cfg))
  {
    var later := T + b.cfg.openDuration - lag;
    var at, c := t0 + later, Run(b, h);
    WorstEpisodeLeads(c, at, at - lag, 1 + Net(b, h));
    WorstEpisodeIsWithin(b.cfg, at, at - lag);
    longer := AttainsOn(b, h, t0, T, lag, n, WorstEpisode(b.cfg, at, at - lag), Retripped(c, at, at - lag),
                        PerEpisode(b.cfg), Net(b, h) + b.cfg.halfOpenMaxRequests, later);
  }

  /**
   * The load-shedding bound is attained for every configuration, every lag up to `openDuration` and every
   * number of episodes. At a lag of `openDuration` all k episodes fit into one moment.
   */
  lemma {:induction false} BoundIsAttained(b: Breaker, t0: int, lag: nat, k: nat) returns (h: seq<Event>)
    requires b.Inv() && b.state.Open? && lag <= b.cfg.openDuration
    ensures Attains(b, h, t0, k * (b.cfg.openDuration - lag), lag, k * PerEpisode(b.cfg))
  {
    if k == 0 {
      LateFailure(b, t0, lag);
      h := [Report(Outcome(false, t0 - lag))];
    } else {
      var gap := b.cfg.openDuration - lag;
      h := BoundIsAttained(b, t0, lag, k - 1);
      OneMoreFactor(gap, k - 1);
      OneMoreFactor(PerEpisode(b.cfg), k - 1);
      h := OneMoreEpisode(b, h, t0, (k - 1) * gap, lag, (k - 1) * PerEpisode(b.cfg));
    }
  }

  /** At most 2m-1 admissions for each full `gap`, in every run with readings at most `lag` late. */
  ghost predicate BoundHolds(b: Breaker, t0: int, lag: nat, gap: int)
    requires b.Inv() && gap > 0
  {
    forall h, T: nat | Shed(b, h, t0, T, lag) :: Granted(b, h) <= PerEpisode(b.cfg) * (T / gap)
  }

  lemma LongerGapFails(b: Breaker, t0: int, lag: nat, gap: int)
    requires b.Inv() && b.state.Open? && gap > 0 && b.cfg.openDuration - lag < gap
    ensures !BoundHolds(b, t0, lag, gap)
  {
    var shorter := Min(lag, b.cfg.openDuration);
    var T := b.cfg.openDuration - shorter;
    var h := BoundIsAttained(b, t0, shorter, 1);
    LagsLonger(h, t0, shorter, lag);
    assert Shed(b, h, t0, T, lag);
    QuotientIsUnique(T, gap, 0, T);
  }

  /** The bound holds for exactly the gaps up to `openDuration - lag`, so for none once the lag reaches D. */
  lemma BoundHoldsIff(b: Breaker, t0: int, lag: nat, gap: int)
    requires b.Inv() && b.state.Open? && t0 - lag <= b.lastFailureAt && gap > 0
    ensures BoundHolds(b, t0, lag, gap) <==> gap <= b.cfg.openDuration - lag
  {
    if gap <= b.cfg.openDuration - lag {
      forall h, T: nat | Shed(b, h, t0, T, lag) ensures Granted(b, h) <= PerEpisode(b.cfg) * (T / gap) {
        LoadSheddingBound(b, h, t0, T, lag);
        QuotientByMore(T, gap, b.cfg.openDuration - lag);
        ProductIsMonotone(PerEpisode(b.cfg), T / (b.cfg.openDuration - lag), T / gap);
      }
    } else {
      LongerGapFails(b, t0, lag, gap);
    }
  }

  /** The bound by full open durations holds exactly when no clock reading waits for the lock. */
  lemma NominalBoundIff(b: Breaker, t0: int, lag: nat)
    requires b.Inv() && b.state.Open? && t0 - lag <= b.lastFailureAt
    ensures BoundHolds(b, t0, lag, b.cfg.openDuration) <==> lag == 0
  {
    BoundHoldsIff(b, t0, lag, b.cfg.openDuration);
  }
}
