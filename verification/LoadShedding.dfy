/** How many requests an upstream sees while its breaker stays tripped. */
module LoadShedding {
  import opened Arithmetic
  import opened Outcomes
  import opened CircuitBreaker

  /** The latest time seen so far, from `start` on. */
  ghost function Latest(h: seq<Event>, start: int): int {
    if h == [] then start else Max(Latest(h[..|h| - 1], start), h[|h| - 1].At())
  }

  /**
   * No event's time is more than `lag` behind the latest time before it. A caller reads the clock before it
   * takes the lock, so `lag` is how long a reading can wait; with lag 0 the times never decrease.
   */
  ghost predicate Lags(h: seq<Event>, start: int, lag: int) {
    h == [] || (Lags(h[..|h| - 1], start, lag) && Latest(h[..|h| - 1], start) - lag <= h[|h| - 1].At())
  }

  /** The breaker is never closed, before or after any event. */
  ghost predicate StaysTripped(b: Breaker, h: seq<Event>) {
    !Run(b, h).state.Closed? && (h == [] || StaysTripped(b, h[..|h| - 1]))
  }

  /** A run within T of t0 that never closes the breaker, with readings at most `lag` late. */
  ghost predicate Shed(b: Breaker, h: seq<Event>, t0: int, T: int, lag: int) {
    Lags(h, t0, lag) && Latest(h, t0) <= t0 + T && StaysTripped(b, h)
  }

  /** The most requests one half-open episode can admit. */
  ghost function PerEpisode(cfg: Config): nat
    requires cfg.Valid()
  {
    2 * cfg.halfOpenMaxRequests - 1
  }

  /** How many episodes at least `gap` apart can still begin up to `end` if the next may begin at `next`. */
  ghost function EpisodesLeft(gap: int, next: int, end: int): nat
    requires gap > 0
  {
    if end < next then 0 else 1 + (end - next) / gap
  }

  /** How many requests can still be admitted up to `end`, `now` being the latest time so far. */
  ghost function Budget(b: Breaker, gap: int, now: int, end: int): nat
    requires b.Inv() && gap > 0
  {
    match b.state
    case Closed => 0
    case Open => PerEpisode(b.cfg) * EpisodesLeft(gap, Min(b.nextAttemptAt, now + gap), end)
    case HalfOpen =>
      PerEpisode(b.cfg) - b.halfOpenInFlight - b.halfOpenSuccesses
      + PerEpisode(b.cfg) * EpisodesLeft(gap, now + gap, end)
  }

  lemma FewerEpisodesLater(cfg: Config, gap: int, next: int, later: int, end: int)
    requires cfg.Valid() && gap > 0 && next <= later
    ensures PerEpisode(cfg) * EpisodesLeft(gap, later, end) <= PerEpisode(cfg) * EpisodesLeft(gap, next, end)
  {
    if later <= end {
      QuotientIsMonotone(end - later, end - next, gap);
    }
    ProductIsMonotone(PerEpisode(cfg), EpisodesLeft(gap, later, end), EpisodesLeft(gap, next, end));
  }

  lemma EpisodesByQuotient(gap: int, now: int, end: int)
    requires gap > 0 && now <= end
    ensures EpisodesLeft(gap, now + gap, end) == (end - now) / gap
  {
    QuotientOfLess(end - now, gap);
    if end < now + gap {
      QuotientIsUnique(end - now, gap, 0, end - now);
    }
  }

  /** Starting an episode uses up one of the episodes left. */
  lemma OneEpisodeFewer(cfg: Config, gap: int, next: int, now: int, end: int)
    requires cfg.Valid() && gap > 0 && next <= now <= end
    ensures PerEpisode(cfg) + PerEpisode(cfg) * EpisodesLeft(gap, now + gap, end)
         <= PerEpisode(cfg) * EpisodesLeft(gap, next, end)
  {
    FewerEpisodesLater(cfg, gap, next, now, end);
    EpisodesByQuotient(gap, now, end);
    OneMoreFactor(PerEpisode(cfg), EpisodesLeft(gap, now + gap, end));
  }

  /** Episodes begin at least `openDuration - lag` apart. */
  lemma EventSpendsBudget(b: Breaker, e: Event, lag: nat, now: int, end: int)
    requires b.Inv() && !b.state.Closed? && !b.After(e).state.Closed?
    requires lag < b.cfg.openDuration && now - lag <= e.At() && Max(now, e.At()) <= end
    ensures var gap, later := b.cfg.openDuration - lag, Max(now, e.At());
      b.After(e).Inv() && b.Grants(e) + Budget(b.After(e), gap, later, end) <= Budget(b, gap, now, end)
  {
    var gap, later := b.cfg.openDuration - lag, Max(now, e.At());
    FewerEpisodesLater(b.cfg, gap, now + gap, later + gap, end);
    if b.state.Open? {
      var next := Min(b.nextAttemptAt, now + gap);
      FewerEpisodesLater(b.cfg, gap, next, later + gap, end);
      FewerEpisodesLater(b.cfg, gap, next, Min(b.nextAttemptAt, later + gap), end);
      if b.Grants(e) == 1 {
        OneEpisodeFewer(b.cfg, gap, next, later, end);
      }
    }
  }

  lemma {:induction false} RunSpendsBudget(b: Breaker, h: seq<Event>, lag: nat, start: int, end: int)
    requires b.Inv() && lag < b.cfg.openDuration
    requires Lags(h, start, lag) && Latest(h, start) <= end && StaysTripped(b, h)
    ensures var gap, c := b.cfg.openDuration - lag, Run(b, h);
      && c.Inv() && c.cfg == b.cfg
      && Granted(b, h) + Budget(c, gap, Latest(h, start), end) <= Budget(b, gap, start, end)
  {
    if h != [] {
      var g, e := h[..|h| - 1], h[|h| - 1];
      RunSpendsBudget(b, g, lag, start, end);
      EventSpendsBudget(Run(b, g), e, lag, Latest(g, start), end);
    }
  }

  /**
   * A breaker that opens at t0 and does not close in the next T nanoseconds admits at most 2m-1 requests
   * for each full `openDuration - lag` in T, however admissions and reports (late ones included) interleave.
   * The report that opened it may itself have waited for the lock.
   */
  lemma LoadSheddingBound(b: Breaker, h: seq<Event>, t0: int, T: nat, lag: nat)
    requires b.Inv() && b.state.Open? && t0 - lag <= b.lastFailureAt && lag < b.cfg.openDuration
    requires Shed(b, h, t0, T, lag)
    ensures Granted(b, h) <= PerEpisode(b.cfg) * (T / (b.cfg.openDuration - lag))
  {
    var gap := b.cfg.openDuration - lag;
    RunSpendsBudget(b, h, lag, t0, t0 + T);
    EpisodesByQuotient(gap, t0, t0 + T);
  }

  /** How often the breaker turns from open to half-open. */
  ghost function Episodes(b: Breaker, h: seq<Event>): nat {
    if h == [] then 0
    else
      var c := Run(b, h[..|h| - 1]);
      Episodes(b, h[..|h| - 1]) + (if c.state.Open? && c.After(h[|h| - 1]).state.HalfOpen? then 1 else 0)
  }

  /** What a half-open episode has left of its 2m-1 admissions. */
  ghost function LeftInEpisode(b: Breaker): nat
    requires b.Inv()
  {
    if b.state.HalfOpen? then PerEpisode(b.cfg) - b.halfOpenInFlight - b.halfOpenSuccesses else 0
  }

  lemma EventInEpisode(b: Breaker, e: Event)
    requires b.Inv() && !b.state.Closed? && !b.After(e).state.Closed?
    ensures b.After(e).Inv() && b.After(e).cfg == b.cfg
    ensures var opens := b.state.Open? && b.After(e).state.HalfOpen?;
      b.Grants(e) + LeftInEpisode(b.After(e)) <= LeftInEpisode(b) + (if opens then PerEpisode(b.cfg) else 0)
  {
  }

  lemma {:induction false} EpisodesCoverAdmissions(b: Breaker, h: seq<Event>)
    requires b.Inv() && b.state.Open? && StaysTripped(b, h)
    ensures Run(b, h).Inv() && Run(b, h).cfg == b.cfg
    ensures Granted(b, h) + LeftInEpisode(Run(b, h)) <= PerEpisode(b.cfg) * Episodes(b, h)
  {
    if h != [] {
      var g := h[..|h| - 1];
      EpisodesCoverAdmissions(b, g);
      EventInEpisode(Run(b, g), h[|h| - 1]);
      OneMoreFactor(PerEpisode(b.cfg), Episodes(b, g));
    }
  }

  /** Each half-open episode admits at most 2m-1 requests, whatever the clock readings are. */
  lemma EpisodeBound(b: Breaker, h: seq<Event>)
    requires b.Inv() && b.state.Open? && StaysTripped(b, h)
    ensures Granted(b, h) <= PerEpisode(b.cfg) * Episodes(b, h)
  {
    EpisodesCoverAdmissions(b, h);
  }
}
