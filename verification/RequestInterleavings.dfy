/** All interleavings of the requests that pass through one upstream, late reports included. */
module RequestInterleavings {
  import opened Wrappers
  import opened Outcomes
  import opened Upstreams
  import opened LoadShedding
  import Active = ActiveHealth
  import Passive = PassiveHealth
  import B = CircuitBreaker

  /**
   * Where a request is: past the health filters but not yet at the breaker, admitted and running, or between
   * the two halves of its report. `era` names the stay of the breaker in which the request was admitted.
   */
  datatype Phase =
    | Filtered(now: int)
    | Running(era: nat)
    | Reporting(era: nat, outcome: Outcome)

  /**
   * `era` counts the breaker's changes of state. `stale` counts the reports that reached the breaker in this
   * era from requests of earlier eras. Reports carry no such tag in the program.
   */
  datatype System = System(up: UpstreamValue, era: nat, stale: nat, requests: map<nat, Phase>)

  /** One atomic step. A report reaches passive health first and the breaker later. */
  datatype Step =
    | Filter(id: nat, now: int)
    | Admit(id: nat)
    | ReportToPassive(id: nat, outcome: Outcome)
    | ReportToBreaker(id: nat)
    | PublishHealth(flags: Active.Flags)

  ghost predicate Enabled(s: System, step: Step) {
    match step
    case Filter(id, _) => id !in s.requests
    case Admit(id) => id in s.requests && s.requests[id].Filtered?
    case ReportToPassive(id, _) => id in s.requests && s.requests[id].Running?
    case ReportToBreaker(id) => id in s.requests && s.requests[id].Reporting?
    case PublishHealth(_) => s.up.active.Some?
  }

  /** The same system with a new breaker value: a change of state begins a new era. */
  ghost function WithBreaker(s: System, b: B.Breaker): System
    requires s.up.breaker.Some?
  {
    var t := s.(up := s.up.(breaker := Some(b)));
    if b.state == s.up.breaker.value.state then t else t.(era := s.era + 1, stale := 0)
  }

  ghost function After(s: System, step: Step): System {
    if !Enabled(s, step) then s else
    match step
    case Filter(id, now) => if s.up.Passes(now) then s.(requests := s.requests[id := Filtered(now)]) else s
    case Admit(id) =>
      var now := s.requests[id].now;
      if s.up.breaker.None? then s.(requests := s.requests[id := Running(s.era)])
      else
        var b := s.up.breaker.value;
        var t := WithBreaker(s, b.AfterAllow(now));
        if b.Allows(now) then t.(requests := s.requests[id := Running(t.era)]) else t.(requests := s.requests - {id})
    case ReportToPassive(id, o) =>
      s.(up := s.up.AfterPassiveReport(o), requests := s.requests[id := Reporting(s.requests[id].era, o)])
    case ReportToBreaker(id) =>
      var p := s.requests[id];
      if s.up.breaker.None? then s.(requests := s.requests - {id})
      else
        var late := if p.era == s.era then 0 else 1;
        WithBreaker(s.(stale := s.stale + late), s.up.breaker.value.After(B.Report(p.outcome)))
        .(requests := s.requests - {id})
    case PublishHealth(f) => s.(up := s.up.(active := Some(f)))
  }

  ghost function Initially(o: Options): System {
    System(InitialValue(o), 0, 0, map[])
  }

  ghost function Run(s: System, h: seq<Step>): System {
    if h == [] then s else After(Run(s, h[..|h| - 1]), h[|h| - 1])
  }

  /** Each step is one that some request, or the health checker, can take at that point. */
  ghost predicate Interleaving(s: System, h: seq<Step>) {
    h == [] || (Interleaving(s, h[..|h| - 1]) && Enabled(Run(s, h[..|h| - 1]), h[|h| - 1]))
  }

  /** The request holds a place in the breaker's current stay: admitted in it and not yet reported to it. */
  ghost predicate OfThisEra(s: System, id: nat) {
    id in s.requests && !s.requests[id].Filtered? && s.requests[id].era == s.era
  }

  ghost function Outstanding(s: System): set<nat> {
    set id | id in s.requests && OfThisEra(s, id)
  }

  /** Every in-flight slot belongs to a request of this era; slots fall short only by late reports. */
  ghost predicate SlotsAccountedFor(s: System) {
    && s.up.Inv()
    && (forall id | id in s.requests && !s.requests[id].Filtered? :: s.requests[id].era <= s.era)
    && (s.up.breaker.Some? && s.up.breaker.value.state.HalfOpen? ==>
          s.up.breaker.value.halfOpenInFlight <= |Outstanding(s)| <= s.up.breaker.value.halfOpenInFlight + s.stale)
  }

  ghost predicate Joins(s: System, step: Step) {
    step.Admit? && OfThisEra(After(s, step), step.id)
  }

  ghost predicate Leaves(s: System, step: Step) {
    step.ReportToBreaker? && OfThisEra(s, step.id)
  }

  /** What one step does to the number of outstanding requests. */
  lemma OutstandingInSameEra(s: System, step: Step)
    requires Enabled(s, step) && After(s, step).era == s.era
    ensures |Outstanding(After(s, step))|
         == |Outstanding(s)| + (if Joins(s, step) then 1 else 0) - (if Leaves(s, step) then 1 else 0)
  {
    var t := After(s, step);
    if Joins(s, step) {
      assert Outstanding(t) == Outstanding(s) + {step.id};
    } else if Leaves(s, step) {
      assert Outstanding(t) == Outstanding(s) - {step.id};
    } else {
      assert Outstanding(t) == Outstanding(s);
    }
  }

  lemma OutstandingInNewEra(s: System, step: Step)
    requires Enabled(s, step) && After(s, step).era != s.era
    requires forall id | id in s.requests && !s.requests[id].Filtered? :: s.requests[id].era <= s.era
    ensures |Outstanding(After(s, step))| == if Joins(s, step) then 1 else 0
  {
    assert Outstanding(After(s, step)) == if Joins(s, step) then {step.id} else {};
  }

  lemma StepKeepsSlots(s: System, step: Step)
    requires Enabled(s, step) && SlotsAccountedFor(s)
    ensures SlotsAccountedFor(After(s, step))
  {
    if After(s, step).era == s.era {
      OutstandingInSameEra(s, step);
    } else {
      OutstandingInNewEra(s, step);
    }
  }

  lemma {:induction false} ReachableSlots(o: Options, h: seq<Step>)
    requires Interleaving(Initially(o), h)
    ensures SlotsAccountedFor(Run(Initially(o), h))
  {
    if h != [] {
      ReachableSlots(o, h[..|h| - 1]);
      StepKeepsSlots(Run(Initially(o), h[..|h| - 1]), h[|h| - 1]);
    }
  }

  /**
   * Half-open slots never leak: in every reachable half-open state the counter is at most the configured
   * maximum and at most the number of outstanding requests of this episode, and it is exactly that number
   * when no late report arrived.
   */
  lemma SlotsNeverLeak(o: Options, h: seq<Step>)
    requires Interleaving(Initially(o), h)
    requires var u := Run(Initially(o), h).up; u.breaker.Some? && u.breaker.value.state.HalfOpen?
    ensures var s := Run(Initially(o), h); var b := s.up.breaker.value;
      && b.halfOpenInFlight <= b.cfg.halfOpenMaxRequests && b.halfOpenInFlight <= |Outstanding(s)|
      && (s.stale == 0 ==> b.halfOpenInFlight == |Outstanding(s)|)
  {
    ReachableSlots(o, h);
  }

  /** A half-open breaker refuses only while all its slots are held by requests that still have to report. */
  lemma NeverStuckHalfOpen(o: Options, h: seq<Step>, now: int)
    requires Interleaving(Initially(o), h)
    requires var u := Run(Initially(o), h).up;
      u.breaker.Some? && u.breaker.value.state.HalfOpen? && !u.breaker.value.Allows(now)
    ensures var s := Run(Initially(o), h); |Outstanding(s)| >= s.up.breaker.value.cfg.halfOpenMaxRequests > 0
  {
    ReachableSlots(o, h);
  }

  /**
   * Recovery from every reachable state: with no request under way, active health not objecting and both
   * deadlines past, probing rounds are all admitted, and max(successThreshold, m) of them always suffice.
   */
  lemma RecoversFromEveryReachableState(o: Options, h: seq<Step>, rounds: seq<Round>, now: int)
    requires Interleaving(Initially(o), h) && Run(Initially(o), h).requests == map[]
    requires var u := Run(Initially(o), h).up;
      && (u.active.Some? ==> u.active.value.Available()) && PastDeadlines(u, now)
      && (forall r | r in rounds :: r.acquired >= now)
    ensures var u := Run(Initially(o), h).up;
      && AllAdmitted(u, rounds)
      && (Recovered(AfterRounds(u, rounds)) <==> |rounds| >= BreakerDebt(u) && |rounds| >= PassiveDebt(u))
      && ((u.breaker.Some? ==> |rounds| >= u.breaker.value.cfg.halfOpenMaxRequests)
          && (u.passive.Some? ==> |rounds| >= u.passive.value.cfg.successThreshold)
          ==> Recovered(AfterRounds(u, rounds)))
  {
    var s := Run(Initially(o), h);
    ReachableSlots(o, h);
    assert Outstanding(s) == {};
    RoundsRecover(s.up, rounds, now);
  }

  /** A request that is acquired and reports, successfully or not, is four steps. */
  lemma RoundIsFourSteps(s: System, id: nat, now: int, o: Outcome)
    requires id !in s.requests && s.up.Acquires(now)
    ensures var h := [Filter(id, now), Admit(id), ReportToPassive(id, o), ReportToBreaker(id)];
      && Interleaving(s, h) && Run(s, h).requests == s.requests
      && Run(s, h).up == s.up.AfterAcquire(now).AfterReport(o)
  {
    var h := [Filter(id, now), Admit(id), ReportToPassive(id, o), ReportToBreaker(id)];
    var h1, h2, h3 := h[..1], h[..2], h[..3];
    assert h1 == [Filter(id, now)] && h2[..1] == h1 && h3[..2] == h2 && h1[..0] == [];
    assert Interleaving(s, []) && Interleaving(s, h1);
    var s1 := After(s, Filter(id, now));
    assert Run(s, h1) == s1;
    assert Interleaving(s, h2);
    var s2 := After(s1, Admit(id));
    assert Run(s, h2) == s2;
    assert Interleaving(s, h3);
    var s3 := After(s2, ReportToPassive(id, o));
    assert Run(s, h3) == s3;
    assert Interleaving(s, h);
    assert Run(s, h) == After(s3, ReportToBreaker(id));
    assert Run(s, h).requests == s.requests;
  }

  /** The reports that reached passive health, in order. */
  ghost function PassiveLog(h: seq<Step>): seq<Outcome> {
    if h == [] then []
    else PassiveLog(h[..|h| - 1]) + (if h[|h| - 1].ReportToPassive? then [h[|h| - 1].outcome] else [])
  }

  /** The flags that the health checker published last. */
  ghost function PublishedFlags(h: seq<Step>): Active.Flags {
    if h == [] then Active.Flags(false, false)
    else if h[|h| - 1].PublishHealth? then h[|h| - 1].flags
    else PublishedFlags(h[..|h| - 1])
  }

  /** Inside an upstream, passive health is the tracker of the reports it saw, and active health what was published. */
  lemma {:induction false} FiltersFollowTheirLogs(o: Options, h: seq<Step>)
    requires Interleaving(Initially(o), h)
    ensures var u := Run(Initially(o), h).up;
      && (u.active == if o.activeHealth then Some(PublishedFlags(h)) else None)
      && (u.passive == if o.passiveHealth.enabled
                       then Some(Passive.Run(Passive.Defaulted(o.passiveHealth), PassiveLog(h))) else None)
  {
    if h != [] {
      var g := h[..|h| - 1];
      FiltersFollowTheirLogs(o, g);
      if h[|h| - 1].ReportToPassive? {
        assert PassiveLog(h)[..|PassiveLog(h)| - 1] == PassiveLog(g);
      } else {
        assert PassiveLog(h) == PassiveLog(g);
      }
    }
  }

  /**
   * A request passes the health filters exactly when the flags published last do not say unhealthy, and the reports
   * so far leave no failure window without recovery, or `unhealthyDuration` has passed since the end of the latest.
   */
  lemma LetThroughIff(o: Options, h: seq<Step>, id: nat, now: int)
    requires Interleaving(Initially(o), h) && id !in Run(Initially(o), h).requests
    ensures var f, r, c := PublishedFlags(h), PassiveLog(h), Passive.Defaulted(o.passiveHealth);
      id in After(Run(Initially(o), h), Filter(id, now)).requests
      <==> && (o.activeHealth ==> !(f.checked && !f.healthy))
           && (o.passiveHealth.enabled && Passive.Unrecovered(r, c.failureThreshold, c.successThreshold) ==>
                 forall i | Passive.LatestFailureWindow(r, i, c.failureThreshold) ::
                   r[i + c.failureThreshold - 1].at + c.unhealthyDuration <= now)
  {
    FiltersFollowTheirLogs(o, h);
    Passive.AvailableIff(Passive.Defaulted(o.passiveHealth), PassiveLog(h), now);
  }

  /** An upstream can be acquired exactly when a request passes the filters and then the breaker. */
  lemma AcquiresIffBothSteps(s: System, id: nat, now: int)
    requires id !in s.requests
    ensures var t := After(s, Filter(id, now));
      s.up.Acquires(now) <==> id in t.requests && id in After(t, Admit(id)).requests
  {
  }

  /** The call a step makes on the breaker, if any. */
  ghost function BreakerCall(s: System, step: Step): Option<B.Event>
    requires Enabled(s, step)
  {
    match step
    case Admit(id) => Some(B.Admit(s.requests[id].now))
    case ReportToBreaker(id) => Some(B.Report(s.requests[id].outcome))
    case _ => None
  }

  ghost function BreakerLog(s: System, h: seq<Step>): seq<B.Event>
    requires Interleaving(s, h)
  {
    if h == [] then []
    else
      var call := BreakerCall(Run(s, h[..|h| - 1]), h[|h| - 1]);
      BreakerLog(s, h[..|h| - 1]) + (if call.Some? then [call.value] else [])
  }

  /** 1 when the step sends a request to the backend. */
  ghost function Sends(s: System, step: Step): nat {
    if step.Admit? && step.id in After(s, step).requests then 1 else 0
  }

  ghost function Sent(s: System, h: seq<Step>): nat {
    if h == [] then 0 else Sent(s, h[..|h| - 1]) + Sends(Run(s, h[..|h| - 1]), h[|h| - 1])
  }

  lemma StepCallsBreaker(s: System, step: Step)
    requires Enabled(s, step) && s.up.breaker.Some?
    ensures var b, call := s.up.breaker.value, BreakerCall(s, step);
      && After(s, step).up.breaker == Some(if call.Some? then b.After(call.value) else b)
      && Sends(s, step) == (if call.Some? then b.Grants(call.value) else 0)
  {
  }

  /** The breaker inside the upstream behaves as the breaker alone does on the calls it sees. */
  lemma {:induction false} BreakerFollowsItsLog(s: System, h: seq<Step>)
    requires Interleaving(s, h) && s.up.breaker.Some?
    ensures var l := BreakerLog(s, h);
      && Run(s, h).up.breaker == Some(B.Run(s.up.breaker.value, l))
      && Sent(s, h) == B.Granted(s.up.breaker.value, l)
  {
    if h != [] {
      var g, step := h[..|h| - 1], h[|h| - 1];
      BreakerFollowsItsLog(s, g);
      StepCallsBreaker(Run(s, g), step);
      var l, m := BreakerLog(s, g), BreakerLog(s, h);
      if BreakerCall(Run(s, g), step).Some? {
        assert m[..|m| - 1] == l;
      } else {
        assert m == l;
      }
    }
  }

  /**
   * The load-shedding bound, for the upstream: after the breaker opens at t0, a backend is sent at most
   * 2m-1 requests per full `openDuration - lag` until the breaker closes, if no clock reading waits longer
   * than `lag` for the breaker's lock.
   */
  lemma UpstreamShedsLoad(s: System, h: seq<Step>, t0: int, T: nat, lag: nat)
    requires Interleaving(s, h) && s.up.breaker.Some?
    requires var b := s.up.breaker.value;
      && b.Inv() && b.state.Open? && t0 - lag <= b.lastFailureAt && lag < b.cfg.openDuration
      && Shed(b, BreakerLog(s, h), t0, T, lag)
    ensures var cfg := s.up.breaker.value.cfg;
      Sent(s, h) <= (2 * cfg.halfOpenMaxRequests - 1) * (T / (cfg.openDuration - lag))
  {
    BreakerFollowsItsLog(s, h);
    LoadSheddingBound(s.up.breaker.value, BreakerLog(s, h), t0, T, lag);
  }
}
