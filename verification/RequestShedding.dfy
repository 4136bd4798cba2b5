/** The load-shedding bound over all runs of requests, from the first one on. */
module RequestShedding {
  import opened Arithmetic
  import opened Wrappers
  import opened Outcomes
  import opened Upstreams
  import opened RequestInterleavings
  import opened RequestLogs
  import opened LoadShedding
  import opened WorstShedding
  import B = CircuitBreaker

  lemma {:induction false} ClosedAdmits(b: B.Breaker, at: int, n: nat, x: nat)
    requires b.state.Closed?
    ensures var h := Repeated(B.Admit(at), n); B.Run(b, h) == b && B.Net(b, h) == n && B.Covered(b, h, x)
  {
    if n > 0 {
      ClosedAdmits(b, at, n - 1, x);
      var h := Repeated(B.Admit(at), n);
      assert h[..|h| - 1] == Repeated(B.Admit(at), n - 1);
    }
  }

  lemma {:induction false} ClosedFails(b: B.Breaker, at: int, n: nat, x: nat)
    requires b.Inv() && b.state.Closed? && b.consecutiveFailures == 0 && n <= b.cfg.failureThreshold && n <= x
    ensures var h := Repeated(B.Report(Outcome(false, at)), n); var c := B.Run(b, h);
      && c.Inv() && c.cfg == b.cfg && B.Net(b, h) == 0 - n && B.Covered(b, h, x)
      && if n < b.cfg.failureThreshold then c.state.Closed? && c.consecutiveFailures == n
         else c.state.Open? && c.lastFailureAt == at
  {
    if n > 0 {
      ClosedFails(b, at, n - 1, x);
      var h := Repeated(B.Report(Outcome(false, at)), n);
      assert h[..|h| - 1] == Repeated(B.Report(Outcome(false, at)), n - 1);
    }
  }

  /** One admission more than the threshold, and as many failures as it takes to open the breaker at t0. */
  ghost function Tripping(cfg: B.Config, admitted: int, t0: int): seq<B.Event>
    requires cfg.Valid()
  {
    Repeated(B.Admit(admitted), cfg.failureThreshold + 1)
    + Repeated(B.Report(Outcome(false, t0)), cfg.failureThreshold)
  }

  /** A new breaker is opened with one request left in service. */
  lemma TrippingOpens(cfg: B.Config, admitted: int, t0: int)
    requires cfg.Valid()
    ensures var l, first := Tripping(cfg, admitted, t0), B.Initial(cfg); var b := B.Run(first, l);
      && B.Covered(first, l, 0) && B.Net(first, l) == 1
      && b.Inv() && b.cfg == cfg && b.state.Open? && b.lastFailureAt == t0
  {
    var first, n := B.Initial(cfg), cfg.failureThreshold;
    var admits, fails := Repeated(B.Admit(admitted), n + 1), Repeated(B.Report(Outcome(false, t0)), n);
    ClosedAdmits(first, admitted, n + 1, 0);
    ClosedFails(first, t0, n, n + 1);
    B.RunAppend(first, admits, fails);
    B.CoveredAppend(first, admits, fails, 0);
  }

  /**
   * The run `pre` of requests opens the breaker at t0. The run h after it stays within T, never closes the breaker,
   * has readings at most `lag` late, and sends a backend n requests.
   */
  ghost predicate Sends(o: Options, pre: seq<Step>, h: seq<Step>, t0: int, T: int, lag: nat, n: int) {
    Interleaving(Initially(o), pre) && Interleaving(Run(Initially(o), pre), h) &&
    var s := Run(Initially(o), pre);
    && s.up.breaker.Some? && s.up.breaker.value.state.Open? && s.up.breaker.value.lastFailureAt == t0
    && Shed(s.up.breaker.value, BreakerLog(s, h), t0, T, lag) && Sent(s, h) == n
  }

  lemma CallsAreSent(o: Options, l: seq<B.Event>, d: seq<B.Event>, t0: int, T: int, lag: nat)
    returns (pre: seq<Step>, h: seq<Step>)
    requires o.circuitBreaker.enabled && B.Covered(FirstBreaker(o), l, 0)
    requires var b := B.Run(FirstBreaker(o), l);
      && B.Covered(b, d, B.Net(FirstBreaker(o), l))
      && b.state.Open? && b.lastFailureAt == t0 && Shed(b, d, t0, T, lag)
    ensures Sends(o, pre, h, t0, T, lag, B.Granted(B.Run(FirstBreaker(o), l), d))
  {
    pre, h := CoveredCallsAreMade(o, l, d);
    BreakerFollowsItsLog(Initially(o), pre);
    BreakerFollowsItsLog(Run(Initially(o), pre), h);
  }

  /**
   * The load-shedding bound is attained by requests: whatever health filters are configured, for every lag up to
   * `openDuration` and every k there are runs that send k times 2m-1 requests within k times `openDuration - lag`.
   */
  lemma SentBoundIsAttained(o: Options, t0: int, lag: nat, k: nat) returns (pre: seq<Step>, h: seq<Step>)
    requires o.circuitBreaker.enabled && lag <= B.Defaulted(o.circuitBreaker).openDuration
    ensures var cfg := B.Defaulted(o.circuitBreaker);
      Sends(o, pre, h, t0, k * (cfg.openDuration - lag), lag, k * PerEpisode(cfg))
  {
    var cfg := B.Defaulted(o.circuitBreaker);
    var l := Tripping(cfg, t0 - lag, t0);
    TrippingOpens(cfg, t0 - lag, t0);
    var d := BoundIsAttained(B.Run(FirstBreaker(o), l), t0, lag, k);
    pre, h := CallsAreSent(o, l, d, t0, k * (cfg.openDuration - lag), lag);
  }

  /** Whatever runs send from an open breaker is at most 2m-1 requests per full `gap`. */
  ghost predicate ShedsPer(o: Options, pre: seq<Step>, h: seq<Step>, t0: int, T: nat, lag: nat, gap: int)
    requires gap > 0
  {
    forall n: nat | Sends(o, pre, h, t0, T, lag, n) :: n <= PerEpisode(B.Defaulted(o.circuitBreaker)) * (T / gap)
  }

  lemma ShortGapHolds(o: Options, pre: seq<Step>, h: seq<Step>, t0: int, T: nat, lag: nat, gap: int)
    requires o.circuitBreaker.enabled && 0 < gap <= B.Defaulted(o.circuitBreaker).openDuration - lag
    ensures ShedsPer(o, pre, h, t0, T, lag, gap)
  {
    var cfg := B.Defaulted(o.circuitBreaker);
    QuotientByMore(T, gap, cfg.openDuration - lag);
    ProductIsMonotone(PerEpisode(cfg), T / (cfg.openDuration - lag), T / gap);
    forall n: nat | Sends(o, pre, h, t0, T, lag, n) ensures n <= PerEpisode(cfg) * (T / gap) {
      SentWithinBound(o, pre, h, t0, T, lag, n);
    }
  }

  lemma SentWithinBound(o: Options, pre: seq<Step>, h: seq<Step>, t0: int, T: nat, lag: nat, n: nat)
    requires o.circuitBreaker.enabled && lag < B.Defaulted(o.circuitBreaker).openDuration
    requires Sends(o, pre, h, t0, T, lag, n)
    ensures var cfg := B.Defaulted(o.circuitBreaker); n <= PerEpisode(cfg) * (T / (cfg.openDuration - lag))
  {
    BreakerFollowsItsLog(Initially(o), pre);
    B.RunKeepsInv(FirstBreaker(o), BreakerLog(Initially(o), pre));
    UpstreamShedsLoad(Run(Initially(o), pre), h, t0, T, lag);
  }

  lemma LongGapFails(o: Options, t0: int, lag: nat, gap: int) returns (pre: seq<Step>, h: seq<Step>, T: nat)
    requires o.circuitBreaker.enabled && gap > 0 && B.Defaulted(o.circuitBreaker).openDuration - lag < gap
    ensures !ShedsPer(o, pre, h, t0, T, lag, gap)
  {
    var cfg := B.Defaulted(o.circuitBreaker);
    var shorter := Min(lag, cfg.openDuration);
    T := cfg.openDuration - shorter;
    pre, h := SentBoundIsAttained(o, t0, shorter, 1);
    LagsLonger(BreakerLog(Run(Initially(o), pre), h), t0, shorter, lag);
    assert Sends(o, pre, h, t0, T, lag, PerEpisode(cfg));
    QuotientIsUnique(T, gap, 0, T);
  }

  /**
   * Over all runs of requests through an upstream with a breaker, whatever else it has, 2m-1 requests per full gap
   * bound what is sent for exactly the gaps up to `openDuration - lag`.
   */
  lemma SentBoundHoldsIff(o: Options, t0: int, lag: nat, gap: int)
    requires o.circuitBreaker.enabled && gap > 0
    ensures (forall pre, h, T: nat :: ShedsPer(o, pre, h, t0, T, lag, gap))
            <==> gap <= B.Defaulted(o.circuitBreaker).openDuration - lag
  {
    if gap <= B.Defaulted(o.circuitBreaker).openDuration - lag {
      forall pre, h, T: nat ensures ShedsPer(o, pre, h, t0, T, lag, gap) {
        ShortGapHolds(o, pre, h, t0, T, lag, gap);
      }
    } else {
      var pre, h, T := LongGapFails(o, t0, lag, gap);
    }
  }

  /** The bound by full open durations holds exactly when no reading is ever late. */
  lemma NominalBoundHoldsIff(o: Options, t0: int, lag: nat)
    requires o.circuitBreaker.enabled
    ensures (forall pre, h, T: nat :: ShedsPer(o, pre, h, t0, T, lag, B.Defaulted(o.circuitBreaker).openDuration))
            <==> lag == 0
  {
    SentBoundHoldsIff(o, t0, lag, B.Defaulted(o.circuitBreaker).openDuration);
  }
}
