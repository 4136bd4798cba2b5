/** Any number of selections on one route whose probes interleave with each other, with reports and checks. */
module SelectionInterleavings {
  import opened Wrappers
  import opened Outcomes
  import opened Ring
  import opened Upstreams
  import opened Selector
  import Active = ActiveHealth
  import Breaker = CircuitBreaker

  /** A selection that began at counter `start`: at a probe, past the health filters of its candidate, or done. */
  datatype Progress =
    | Probing(start: nat, probe: nat)
    | Passed(start: nat, probe: nat, now: int)
    | Finished(start: nat, picked: Option<nat>)

  /** The route and all selections so far, in the order in which they took the counter. */
  datatype System = System(upstreams: seq<UpstreamValue>, next: nat, selections: seq<Progress>)

  /** One atomic step of a selection, of a report, or of a health checker. */
  datatype Step =
    | Begin
    | AskHealth(t: nat, now: int)
    | AskBreaker(t: nat)
    | ReportToPassive(j: nat, outcome: Outcome)
    | ReportToBreaker(j: nat, outcome: Outcome)
    | PublishHealth(j: nat, flags: Active.Flags)

  ghost predicate Enabled(s: System, step: Step) {
    match step
    case Begin => true
    case AskHealth(t, _) => t < |s.selections| && s.selections[t].Probing? && s.upstreams != []
    case AskBreaker(t) => t < |s.selections| && s.selections[t].Passed? && s.upstreams != []
    case ReportToPassive(j, _) => j < |s.upstreams|
    case ReportToBreaker(j, _) => j < |s.upstreams|
    case PublishHealth(j, _) => j < |s.upstreams| && s.upstreams[j].active.Some?
  }

  /** The upstream that selection t asks. */
  ghost function Candidate(s: System, t: nat): nat
    requires t < |s.selections| && !s.selections[t].Finished? && s.upstreams != []
  {
    Probe(s.selections[t].start, s.selections[t].probe, |s.upstreams|)
  }

  ghost predicate BreakerAllows(u: UpstreamValue, now: int) {
    u.breaker.Some? ==> u.breaker.value.Allows(now)
  }

  /** A refused candidate is left behind; after the last one the selection has found nothing. */
  ghost function Refused(p: Progress, n: nat): Progress
    requires !p.Finished?
  {
    if p.probe + 1 < n then Probing(p.start, p.probe + 1) else Finished(p.start, None)
  }

  ghost function WithUpstream(s: System, j: nat, u: UpstreamValue): System
    requires j < |s.upstreams|
  {
    s.(upstreams := s.upstreams[j := u])
  }

  ghost function WithSelection(s: System, t: nat, p: Progress): System
    requires t < |s.selections|
  {
    s.(selections := s.selections[t := p])
  }

  ghost function After(s: System, step: Step): System {
    if !Enabled(s, step) then s else
    match step
    case Begin =>
      if s.upstreams == [] then s.(selections := s.selections + [Finished(s.next, None)])
      else s.(next := (s.next + 1) % WORD, selections := s.selections + [Probing(s.next, 0)])
    case AskHealth(t, now) =>
      var p := s.selections[t];
      WithSelection(s, t, if s.upstreams[Candidate(s, t)].Passes(now) then Passed(p.start, p.probe, now)
                          else Refused(p, |s.upstreams|))
    case AskBreaker(t) =>
      var p, j := s.selections[t], Candidate(s, t);
      var u := s.upstreams[j];
      var v := if u.breaker.Some? then u.(breaker := Some(u.breaker.value.AfterAllow(p.now))) else u;
      WithUpstream(WithSelection(s, t, if BreakerAllows(u, p.now) then Finished(p.start, Some(j))
                                       else Refused(p, |s.upstreams|)), j, v)
    case ReportToPassive(j, o) => WithUpstream(s, j, s.upstreams[j].AfterPassiveReport(o))
    case ReportToBreaker(j, o) => WithUpstream(s, j, s.upstreams[j].AfterBreakerReport(o))
    case PublishHealth(j, f) => WithUpstream(s, j, s.upstreams[j].(active := Some(f)))
  }

  ghost function Run(s: System, h: seq<Step>): System {
    if h == [] then s else After(Run(s, h[..|h| - 1]), h[|h| - 1])
  }

  /** What the step finds out about its candidate is what `avail` says. */
  ghost predicate Agrees(s: System, step: Step, avail: seq<bool>)
    requires |avail| == |s.upstreams| && Enabled(s, step)
  {
    match step
    case AskHealth(t, now) => !s.upstreams[Candidate(s, t)].Passes(now) ==> !avail[Candidate(s, t)]
    case AskBreaker(t) =>
      BreakerAllows(s.upstreams[Candidate(s, t)], s.selections[t].now) <==> avail[Candidate(s, t)]
    case _ => true
  }

  /** Every selection meets exactly the marked upstreams as available, whatever else goes on. */
  ghost predicate Steady(s: System, h: seq<Step>, avail: seq<bool>) {
    h == [] || (&& Steady(s, h[..|h| - 1], avail) && Enabled(Run(s, h[..|h| - 1]), h[|h| - 1])
                && |avail| == |Run(s, h[..|h| - 1]).upstreams|
                && Agrees(Run(s, h[..|h| - 1]), h[|h| - 1], avail))
  }

  /** A selection from counter `start` has so far met only unavailable upstreams, or it has what the ring says. */
  ghost predicate OnTrack(p: Progress, start: nat, avail: seq<bool>)
    requires avail != []
  {
    var n := |avail|;
    && p.start == start
    && if p.Finished? then p.picked == (if Chosen(avail, start) == n then None else Some(Chosen(avail, start)))
       else p.probe < n && forall i | 0 <= i < p.probe :: !avail[Probe(start, i, n)]
  }

  ghost predicate AllOnTrack(s: System, start: nat, avail: seq<bool>)
    requires avail != []
  {
    && |s.upstreams| == |avail| && s.next == (start + |s.selections|) % WORD
    && forall t: nat | t < |s.selections| :: OnTrack(s.selections[t], (start + t) % WORD, avail)
  }

  lemma RefusedOnTrack(p: Progress, start: nat, avail: seq<bool>)
    requires avail != [] && OnTrack(p, start, avail) && !p.Finished? && !avail[Probe(start, p.probe, |avail|)]
    ensures OnTrack(Refused(p, |avail|), start, avail)
  {
    if p.probe + 1 == |avail| {
      FirstHitIs(Hits(avail, start), |avail|);
    }
  }

  lemma PickedOnTrack(p: Progress, start: nat, avail: seq<bool>)
    requires avail != [] && OnTrack(p, start, avail) && !p.Finished? && avail[Probe(start, p.probe, |avail|)]
    ensures OnTrack(Finished(start, Some(Probe(start, p.probe, |avail|))), start, avail)
  {
    FirstHitIs(Hits(avail, start), p.probe);
  }

  lemma BeginOnTrack(s: System, start: nat, avail: seq<bool>)
    requires avail != [] && AllOnTrack(s, start, avail)
    ensures AllOnTrack(After(s, Begin), start, avail)
  {
    ModuloSum(start + |s.selections|, 1, WORD);
  }

  lemma HealthOnTrack(s: System, t: nat, now: int, start: nat, avail: seq<bool>)
    requires avail != [] && AllOnTrack(s, start, avail)
    requires Enabled(s, AskHealth(t, now)) && Agrees(s, AskHealth(t, now), avail)
    ensures AllOnTrack(After(s, AskHealth(t, now)), start, avail)
  {
    if !s.upstreams[Candidate(s, t)].Passes(now) {
      RefusedOnTrack(s.selections[t], (start + t) % WORD, avail);
    }
  }

  lemma BreakerOnTrack(s: System, t: nat, start: nat, avail: seq<bool>)
    requires avail != [] && AllOnTrack(s, start, avail)
    requires Enabled(s, AskBreaker(t)) && Agrees(s, AskBreaker(t), avail)
    ensures AllOnTrack(After(s, AskBreaker(t)), start, avail)
  {
    if avail[Candidate(s, t)] {
      PickedOnTrack(s.selections[t], (start + t) % WORD, avail);
    } else {
      RefusedOnTrack(s.selections[t], (start + t) % WORD, avail);
    }
  }

  lemma StepStaysOnTrack(s: System, step: Step, start: nat, avail: seq<bool>)
    requires avail != [] && AllOnTrack(s, start, avail) && Enabled(s, step)
    requires |avail| == |s.upstreams| && Agrees(s, step, avail)
    ensures AllOnTrack(After(s, step), start, avail)
  {
    match step
    case Begin => BeginOnTrack(s, start, avail);
    case AskHealth(t, now) => HealthOnTrack(s, t, now, start, avail);
    case AskBreaker(t) => BreakerOnTrack(s, t, start, avail);
    case _ => assert After(s, step).selections == s.selections && After(s, step).next == s.next;
  }

  /** However probes and reports interleave, each selection follows the ring from the counter it took. */
  lemma {:induction false} SelectionsStayOnTrack(s: System, h: seq<Step>, avail: seq<bool>)
    requires avail != [] && |s.upstreams| == |avail| && s.next < WORD && s.selections == [] && Steady(s, h, avail)
    ensures AllOnTrack(Run(s, h), s.next, avail)
  {
    if h == [] {
      SmallModulo(s.next, WORD);
    } else {
      SelectionsStayOnTrack(s, h[..|h| - 1], avail);
      StepStaysOnTrack(Run(s, h[..|h| - 1]), h[|h| - 1], s.next, avail);
    }
  }

  ghost function TimesPicked(ps: seq<Progress>, j: nat): nat {
    if ps == [] then 0
    else TimesPicked(ps[..|ps| - 1], j)
         + (if ps[|ps| - 1].Finished? && ps[|ps| - 1].picked == Some(j) then 1 else 0)
  }

  lemma {:induction false} PicksAreChosen(ps: seq<Progress>, start: nat, avail: seq<bool>, j: nat)
    requires avail != [] && j < |avail|
    requires forall t: nat | t < |ps| :: OnTrack(ps[t], (start + t) % WORD, avail)
    ensures TimesPicked(ps, j) <= TimesChosen(avail, start, |ps|, j)
    ensures (forall p | p in ps :: p.Finished?) ==> TimesPicked(ps, j) == TimesChosen(avail, start, |ps|, j)
  {
    if ps != [] {
      PicksAreChosen(ps[..|ps| - 1], start, avail, j);
      assert ps[|ps| - 1] in ps && forall p | p in ps[..|ps| - 1] :: p in ps;
    }
  }

  /** Finished selections have picked as the ring does from the counters they took. */
  lemma InterleavedPicks(s: System, h: seq<Step>, avail: seq<bool>, j: nat)
    requires 0 < |s.upstreams| == |avail| && s.next < WORD && s.selections == [] && Steady(s, h, avail) && j < |avail|
    ensures var ps := Run(s, h).selections; var chosen := TimesChosen(avail, s.next, |ps|, j);
      TimesPicked(ps, j) <= chosen && ((forall p | p in ps :: p.Finished?) ==> TimesPicked(ps, j) == chosen)
  {
    SelectionsStayOnTrack(s, h, avail);
    PicksAreChosen(Run(s, h).selections, s.next, avail, j);
  }

  /**
   * The exact round-robin share for selections that interleave freely: once n selections of a route with n
   * upstreams are done, each available upstream was picked once plus once for each unavailable upstream just
   * before it, and no upstream is ever picked more often than that.
   */
  lemma InterleavedShare(s: System, h: seq<Step>, avail: seq<bool>, j: nat, g: nat)
    requires 0 < |s.upstreams| == |avail| < WORD && s.next < WORD && s.selections == [] && Steady(s, h, avail)
    requires NoSkew(s.next, |avail|, |avail|) && j < |avail| && GapBefore(avail, j, g)
    requires |Run(s, h).selections| == |avail|
    ensures var ps, share := Run(s, h).selections, if avail[j] then 1 + g else 0;
      TimesPicked(ps, j) <= share && ((forall p | p in ps :: p.Finished?) ==> TimesPicked(ps, j) == share)
  {
    InterleavedPicks(s, h, avail, j);
    ExactShare(avail, s.next, j, g);
  }

  /** With every upstream available, k finished selections give each upstream floor(k/n) or ceil(k/n). */
  lemma InterleavedEvenShare(s: System, h: seq<Step>, avail: seq<bool>, j: nat)
    requires 0 < |s.upstreams| == |avail| && s.next < WORD && s.selections == [] && Steady(s, h, avail)
    requires (forall i | 0 <= i < |avail| :: avail[i]) && j < |avail|
    requires s.next + |Run(s, h).selections| <= WORD || WORD % |avail| == 0
    requires forall p | p in Run(s, h).selections :: p.Finished?
    ensures var ps := Run(s, h).selections; FloorOrCeiling(|ps|, |avail|, TimesPicked(ps, j))
  {
    InterleavedPicks(s, h, avail, j);
    EvenShareWhenAllAvailable(avail, s.next, |Run(s, h).selections|, j);
  }

  /** A selection that runs alone, having got as far as probe k. */
  lemma {:induction false} ProbesAlone(v: HandlerValue, clock: seq<int>, k: nat) returns (h: seq<Step>)
    requires |clock| == |v.upstreams| && k < |v.upstreams| && v.Misses(clock, k)
    requires forall u | u in v.upstreams && u.breaker.Some? :: u.breaker.value.cfg.halfOpenMaxRequests > 0
    ensures Run(System(v.upstreams, v.next, []), h)
         == System(v.upstreams, (v.next + 1) % WORD, [Probing(v.next, k)])
  {
    if k == 0 {
      h := RunOn(System(v.upstreams, v.next, []), [], Begin);
    } else {
      h := ProbesAlone(v, clock, k - 1);
      h := ProbeAlone(v, clock, k - 1, Probe(v.next, k - 1, |v.upstreams|), h);
    }
  }

  lemma RunOn(s: System, h: seq<Step>, step: Step) returns (longer: seq<Step>)
    ensures Run(s, longer) == After(Run(s, h), step)
  {
    longer := h + [step];
    assert longer[..|h|] == h;
  }

  /** One probe of a selection that runs alone is the one step that `SelectUpstream` makes of it. */
  lemma ProbeAlone(v: HandlerValue, clock: seq<int>, k: nat, j: nat, h: seq<Step>) returns (longer: seq<Step>)
    requires |clock| == |v.upstreams| && k < |v.upstreams| && j == Probe(v.next, k, |v.upstreams|)
    requires forall u | u in v.upstreams && u.breaker.Some? :: u.breaker.value.cfg.halfOpenMaxRequests > 0
    requires Run(System(v.upstreams, v.next, []), h)
          == System(v.upstreams, (v.next + 1) % WORD, [Probing(v.next, k)])
    ensures Run(System(v.upstreams, v.next, []), longer)
         == System(v.upstreams[j := v.upstreams[j].AfterAcquire(clock[k])], (v.next + 1) % WORD,
                   [if v.Hit(clock, k) then Finished(v.next, Some(j)) else Refused(Probing(v.next, k), |v.upstreams|)])
    ensures !v.Hit(clock, k) ==> v.upstreams[j := v.upstreams[j].AfterAcquire(clock[k])] == v.upstreams
  {
    var s := System(v.upstreams, v.next, []);
    assert v.upstreams[j] in v.upstreams;
    longer := RunOn(s, h, AskHealth(0, clock[k]));
    if v.upstreams[j].Passes(clock[k]) {
      longer := RunOn(s, longer, AskBreaker(0));
    }
    if !v.Hit(clock, k) {
      RejectionLeavesUpstreamUnchanged(v.upstreams[j], clock[k]);
    }
  }

  /** Run alone, a selection does what `SelectUpstream` promises. */
  lemma SelectionAlone(v: HandlerValue, clock: seq<int>, i: nat, after: HandlerValue) returns (h: seq<Step>)
    requires 0 < |clock| == |v.upstreams| && v.Selects(clock, i, after)
    requires forall u | u in v.upstreams && u.breaker.Some? :: u.breaker.value.cfg.halfOpenMaxRequests > 0
    ensures var n := |v.upstreams|;
      Run(System(v.upstreams, v.next, []), h)
      == System(after.upstreams, after.next, [Finished(v.next, if i == n then None else Some(Probe(v.next, i, n)))])
  {
    var last := if i == |clock| then i - 1 else i;
    v.MissesAre(clock, last);
    h := ProbesAlone(v, clock, last);
    h := ProbeAlone(v, clock, last, Probe(v.next, last, |v.upstreams|), h);
  }

  /** Either every upstream has an active-health checker or none does. */
  ghost predicate SameCheckers(us: seq<UpstreamValue>, checked: bool) {
    forall u | u in us :: u.active.Some? <==> checked
  }

  lemma {:induction false} CheckersStay(s: System, h: seq<Step>, checked: bool)
    requires SameCheckers(s.upstreams, checked)
    ensures SameCheckers(Run(s, h).upstreams, checked)
  {
    if h != [] {
      CheckersStay(s, h[..|h| - 1], checked);
    }
  }

  /** A route as it is built, all upstreams from the same options. */
  ghost function Initially(o: Options, n: nat): System {
    System(seq(n, _ => InitialValue(o)), 0, [])
  }

  /** In every reachable state of a route that is reported unhealthy no selection would succeed. */
  lemma ReportedUnhealthyPicksNothing(o: Options, n: nat, h: seq<Step>, clock: seq<int>, i: nat, after: HandlerValue)
    requires var s := Run(Initially(o, n), h);
      && RouteUnhealthy(s.upstreams) && |clock| == |s.upstreams|
      && HandlerValue(s.upstreams, s.next).Selects(clock, i, after)
    ensures i == |Run(Initially(o, n), h).upstreams| && after.upstreams == Run(Initially(o, n), h).upstreams
  {
    var s := Run(Initially(o, n), h);
    CheckersStay(Initially(o, n), h, o.activeHealth);
    UnhealthyRouteSelectsNothing(HandlerValue(s.upstreams, s.next), clock, i, after);
  }

  /** In every such state no selection under way gets past the health filters of its candidate. */
  lemma ReportedUnhealthyStopsProbes(o: Options, n: nat, h: seq<Step>, t: nat, now: int)
    requires RouteUnhealthy(Run(Initially(o, n), h).upstreams) && Enabled(Run(Initially(o, n), h), AskHealth(t, now))
    ensures !After(Run(Initially(o, n), h), AskHealth(t, now)).selections[t].Passed?
  {
    var s := Run(Initially(o, n), h);
    CheckersStay(Initially(o, n), h, o.activeHealth);
    assert s.upstreams[Candidate(s, t)] in s.upstreams;
  }
}
