/** What reports of earlier episodes do: the exact slot count, and runs in which a late report matters. */
module LateReports {
  import opened Arithmetic
  import opened Wrappers
  import opened Outcomes
  import opened Upstreams
  import opened RequestInterleavings
  import opened BreakerHistory
  import opened RequestLogs
  import opened RequestShedding
  import B = CircuitBreaker

  /** The admissions granted from call k on, less the reports from there on. */
  ghost function Taken(b: B.Breaker, h: seq<B.Event>, k: nat): int
    requires k <= |h|
  {
    B.Net(b, h) - B.Net(b, h[..k])
  }

  /** The window from call i on is the fullest of those that begin at call `since` or later; it holds x. */
  ghost predicate Fullest(b: B.Breaker, h: seq<B.Event>, since: nat, i: nat, x: int) {
    since <= i <= |h| && Taken(b, h, i) == x && forall k: nat | since <= k <= |h| :: Taken(b, h, k) <= x
  }

  lemma TakenGrows(b: B.Breaker, h: seq<B.Event>, e: B.Event, k: nat)
    requires k <= |h|
    ensures Taken(b, h + [e], k) == Taken(b, h, k) + B.Change(B.Run(b, h), e)
  {
    assert (h + [e])[..|h|] == h && (h + [e])[..k] == h[..k];
  }

  lemma EmptyWindow(b: B.Breaker, h: seq<B.Event>)
    ensures Taken(b, h, |h|) == 0
  {
    assert h[..|h|] == h;
  }

  lemma FullestGrows(b: B.Breaker, h: seq<B.Event>, since: nat, i: nat, x: int, e: B.Event) returns (j: nat)
    requires Fullest(b, h, since, i, x)
    ensures Fullest(b, h + [e], since, j, Max(0, x + B.Change(B.Run(b, h), e)))
  {
    var d := B.Change(B.Run(b, h), e);
    forall k: nat | k <= |h| ensures Taken(b, h + [e], k) == Taken(b, h, k) + d {
      TakenGrows(b, h, e, k);
    }
    EmptyWindow(b, h + [e]);
    j := if x + d < 0 then |h| + 1 else i;
  }

  lemma FullestStarts(b: B.Breaker, h: seq<B.Event>, e: B.Event)
    requires B.Change(B.Run(b, h), e) == 1
    ensures Fullest(b, h + [e], |h|, |h|, 1)
  {
    EmptyWindow(b, h);
    TakenGrows(b, h, e, |h|);
    EmptyWindow(b, h + [e]);
  }

  /** A half-open breaker frees a slot on every report, unless none is taken. */
  lemma SlotsAfter(b: B.Breaker, e: B.Event)
    requires b.Inv() && b.After(e).state.HalfOpen?
    ensures b.state.HalfOpen? ==> b.After(e).halfOpenInFlight == Max(0, b.halfOpenInFlight + B.Change(b, e))
    ensures !b.state.HalfOpen? ==> b.state.Open? && b.After(e).halfOpenInFlight == 1 == B.Change(b, e)
  {
  }

  lemma StayGoesOn(cfg: B.Config, g: seq<B.Event>, e: B.Event)
    requires cfg.Valid() && B.Run(B.Initial(cfg), g + [e]).state.HalfOpen?
    ensures var b := B.Run(B.Initial(cfg), g);
      && b.Inv() && B.Run(B.Initial(cfg), g + [e]) == b.After(e)
      && StayOf(cfg, g + [e]).since == if b.state.HalfOpen? then StayOf(cfg, g).since else |g| + 1
  {
    StateFollowsHistory(cfg, g);
    StateFollowsHistory(cfg, g + [e]);
    assert (g + [e])[..|g|] == g;
  }

  /**
   * The in-flight count of a half-open breaker is the maximum, over all windows of this stay's calls up to now,
   * of admissions granted less reports, whichever episode the reports come from. The admission that turned
   * the breaker half-open is the first call of the stay.
   */
  lemma {:induction false} SlotsAreTheFullestWindow(cfg: B.Config, h: seq<B.Event>) returns (i: nat)
    requires cfg.Valid() && B.Run(B.Initial(cfg), h).state.HalfOpen?
    ensures StayOf(cfg, h).since > 0
    ensures Fullest(B.Initial(cfg), h, StayOf(cfg, h).since - 1, i, B.Run(B.Initial(cfg), h).halfOpenInFlight)
  {
    var g, e := h[..|h| - 1], h[|h| - 1];
    var b := B.Run(B.Initial(cfg), g);
    assert h == g + [e];
    StayGoesOn(cfg, g, e);
    SlotsAfter(b, e);
    if b.state.HalfOpen? {
      i := SlotsAreTheFullestWindow(cfg, g);
      i := FullestGrows(B.Initial(cfg), g, StayOf(cfg, g).since - 1, i, b.halfOpenInFlight, e);
    } else {
      FullestStarts(B.Initial(cfg), g, e);
      i := |g|;
    }
  }

  /** A report that reaches the breaker in a later era than the one its request was admitted in. */
  ghost predicate Late(s: System, step: Step) {
    step.ReportToBreaker? && Enabled(s, step) && s.requests[step.id].era != s.era
  }

  /** The late reports since the era began or, if that is later, since no request of the era was outstanding. */
  ghost function LateSinceClear(s: System, h: seq<Step>): nat {
    if h == [] then 0
    else
      var g, step := h[..|h| - 1], h[|h| - 1];
      if Run(s, h).era != Run(s, g).era || Outstanding(Run(s, h)) == {} then 0
      else LateSinceClear(s, g) + (if Late(Run(s, g), step) then 1 else 0)
  }

  /** The slots of a half-open breaker count the outstanding requests if `late` is 0 and fall short otherwise. */
  ghost predicate SlotsCount(s: System, late: nat) {
    s.up.breaker.Some? && s.up.breaker.value.state.HalfOpen? ==>
      if late == 0 then s.up.breaker.value.halfOpenInFlight == |Outstanding(s)|
      else s.up.breaker.value.halfOpenInFlight < |Outstanding(s)|
  }

  lemma StepCountsSlots(s: System, step: Step, late: nat)
    requires Enabled(s, step) && SlotsAccountedFor(s) && SlotsCount(s, late)
    ensures var t := After(s, step);
      SlotsCount(t, if t.era != s.era || Outstanding(t) == {} then 0 else late + (if Late(s, step) then 1 else 0))
  {
    StepKeepsSlots(s, step);
    if After(s, step).era == s.era {
      OutstandingInSameEra(s, step);
    } else {
      OutstandingInNewEra(s, step);
    }
  }

  lemma {:induction false} RunCountsSlots(o: Options, h: seq<Step>)
    requires Interleaving(Initially(o), h)
    ensures SlotsCount(Run(Initially(o), h), LateSinceClear(Initially(o), h))
  {
    if h != [] {
      var g := h[..|h| - 1];
      RunCountsSlots(o, g);
      ReachableSlots(o, g);
      StepCountsSlots(Run(Initially(o), g), h[|h| - 1], LateSinceClear(Initially(o), g));
    }
  }

  /**
   * In every reachable half-open state the slots taken are exactly the outstanding requests of the episode if
   * and only if no late report has arrived since the episode began or since it last had nothing outstanding.
   */
  lemma SlotsAreOutstandingIff(o: Options, h: seq<Step>)
    requires Interleaving(Initially(o), h)
    requires var u := Run(Initially(o), h).up; u.breaker.Some? && u.breaker.value.state.HalfOpen?
    ensures var s := Run(Initially(o), h);
      s.up.breaker.value.halfOpenInFlight == |Outstanding(s)| <==> LateSinceClear(Initially(o), h) == 0
  {
    RunCountsSlots(o, h);
  }

  /** A half-open breaker with so many late reports, slots taken and successes, and these outstanding requests. */
  ghost predicate HalfOpenWith(s: System, late: nat, taken: int, successes: int, outstanding: set<nat>) {
    && s.up.breaker.Some? && s.up.breaker.value.state.HalfOpen? && s.stale == late
    && s.up.breaker.value.halfOpenInFlight == taken && s.up.breaker.value.halfOpenSuccesses == successes
    && Outstanding(s) == outstanding
  }

  /** Request r of an earlier era is running, and request id the only one of the episode. */
  ghost predicate OneOfEach(s: System, r: nat, id: nat) {
    && r != id && r in s.requests && s.requests[r].Running? && s.requests[r].era < s.era
    && id in s.requests && s.requests[id] == Running(s.era)
  }

  /** A new episode whose first request is running while one of an earlier era still is. */
  lemma EpisodeBesideOldRequest(o: Options) returns (h: seq<Step>, r: nat, id: nat)
    requires o.circuitBreaker.enabled
    ensures Interleaving(Initially(o), h)
    ensures HalfOpenWith(Run(Initially(o), h), 0, 1, 0, {id}) && OneOfEach(Run(Initially(o), h), r, id)
  {
    var cfg := B.Defaulted(o.circuitBreaker);
    var l := Tripping(cfg, 0, 0);
    TrippingOpens(cfg, 0, 0);
    var admit := B.Admit(cfg.openDuration);
    h := FirstCalls(o, l, [admit]);
    var s := Run(Initially(o), h);
    id := |l|;
    assert (l + [admit])[id] == admit && s.requests[id] == Filtered(cfg.openDuration);
    r :| r in Admitted(s);
    h := RunOn(Initially(o), h, Admit(id));
    assert Outstanding(Run(Initially(o), h)) == {id};
  }

  /** A success reported by a request that is not the last the episode needs. */
  lemma SuccessReported(s: System, h: seq<Step>, id: nat, late: nat, taken: int, successes: int, out: set<nat>)
    returns (longer: seq<Step>)
    requires Interleaving(s, h) && HalfOpenWith(Run(s, h), late, taken, successes, out)
    requires id in Run(s, h).requests && Run(s, h).requests[id].Running?
    requires successes + 1 < Run(s, h).up.breaker.value.cfg.halfOpenMaxRequests
    ensures Interleaving(s, longer)
    ensures HalfOpenWith(Run(s, longer), if id in out then late else late + 1, if taken > 0 then taken - 1 else taken,
                         successes + 1, out - {id})
    ensures Run(s, longer).requests == Run(s, h).requests - {id} && Run(s, longer).era == Run(s, h).era
    ensures Run(s, longer).up.breaker.value.cfg == Run(s, h).up.breaker.value.cfg
  {
    var t := Run(s, h);
    longer := RunOn(s, h, ReportToPassive(id, Outcome(true, 0)));
    longer := RunOn(s, longer, ReportToBreaker(id));
    assert Outstanding(Run(s, longer)) == out - {id};
  }

  /** The run reaches a half-open breaker with so many late reports, slots taken and outstanding requests. */
  ghost predicate ReachesHalfOpen(o: Options, h: seq<Step>, late: nat, taken: int, outstanding: nat) {
    Interleaving(Initially(o), h) &&
    var s := Run(Initially(o), h);
    && s.up.breaker.Some? && s.up.breaker.value.state.HalfOpen?
    && s.stale == late && s.up.breaker.value.halfOpenInFlight == taken && |Outstanding(s)| == outstanding
  }

  /**
   * With any health filters, a late report can free a slot that it never took. Once the requests of the episode
   * have reported, the count is exact again although the late report remains on record.
   */
  lemma LateReportFreesASlot(o: Options) returns (short: seq<Step>, exact: seq<Step>)
    requires o.circuitBreaker.enabled && B.Defaulted(o.circuitBreaker).halfOpenMaxRequests >= 2
    ensures ReachesHalfOpen(o, short, 1, 0, 1)
    ensures B.Defaulted(o.circuitBreaker).halfOpenMaxRequests >= 3 ==> ReachesHalfOpen(o, exact, 1, 0, 0)
  {
    var start := Initially(o);
    var h, r, id := EpisodeBesideOldRequest(o);
    BreakerFollowsItsLog(start, h);
    B.RunKeepsInv(FirstBreaker(o), BreakerLog(start, h));
    short := SuccessReported(start, h, r, 0, 1, 0, {id});
    assert {id} - {r} == {id};
    if B.Defaulted(o.circuitBreaker).halfOpenMaxRequests >= 3 {
      exact := SuccessReported(start, short, id, 1, 0, 1, {id});
    } else {
      exact := [];
    }
  }
}
