/** Which sequences of calls requests can make on the breaker of an upstream. */
module RequestLogs {
  import opened Wrappers
  import opened Outcomes
  import opened Upstreams
  import opened RequestInterleavings
  import B = CircuitBreaker

  /** The requests that the breaker has admitted and that have not reported to it. */
  ghost function Admitted(s: System): set<nat> {
    set id | id in s.requests && !s.requests[id].Filtered?
  }

  lemma AdmitChangesAdmitted(s: System, id: nat, b: B.Breaker)
    requires Enabled(s, Admit(id)) && s.up.breaker == Some(b)
    ensures |Admitted(After(s, Admit(id)))| == |Admitted(s)| + B.Change(b, B.Admit(s.requests[id].now))
  {
    assert Admitted(After(s, Admit(id)))
        == if b.Allows(s.requests[id].now) then Admitted(s) + {id} else Admitted(s);
  }

  lemma ReportChangesAdmitted(s: System, id: nat, b: B.Breaker)
    requires Enabled(s, ReportToBreaker(id)) && s.up.breaker == Some(b)
    ensures |Admitted(After(s, ReportToBreaker(id)))| == |Admitted(s)| - 1
  {
    assert Admitted(After(s, ReportToBreaker(id))) == Admitted(s) - {id};
  }

  lemma StepChangesAdmitted(s: System, step: Step, b: B.Breaker)
    requires Enabled(s, step) && s.up.breaker == Some(b)
    ensures var call := BreakerCall(s, step);
      |Admitted(After(s, step))| == |Admitted(s)| + if call.Some? then B.Change(b, call.value) else 0
  {
    match step
    case Admit(id) => AdmitChangesAdmitted(s, id, b);
    case ReportToBreaker(id) => ReportChangesAdmitted(s, id, b);
    case _ => assert Admitted(After(s, step)) == Admitted(s);
  }

  /** The requests in service are the admissions granted less the reports, so no report is without a request. */
  lemma {:induction false} AdmittedByNet(s: System, h: seq<Step>, b: B.Breaker)
    requires Interleaving(s, h) && s.up.breaker == Some(b)
    ensures |Admitted(Run(s, h))| == |Admitted(s)| + B.Net(b, BreakerLog(s, h))
    ensures B.Covered(b, BreakerLog(s, h), |Admitted(s)|)
  {
    if h != [] {
      var g, step := h[..|h| - 1], h[|h| - 1];
      AdmittedByNet(s, g, b);
      BreakerFollowsItsLog(s, g);
      StepChangesAdmitted(Run(s, g), step, B.Run(b, BreakerLog(s, g)));
      var l, m := BreakerLog(s, g), BreakerLog(s, h);
      if BreakerCall(Run(s, g), step).Some? {
        assert m[..|m| - 1] == l;
      } else {
        assert m == l;
      }
    }
  }

  /** One more step, with the call it makes on the breaker. */
  lemma RunOn(s: System, h: seq<Step>, step: Step) returns (longer: seq<Step>)
    requires Interleaving(s, h) && Enabled(Run(s, h), step)
    ensures Interleaving(s, longer) && Run(s, longer) == After(Run(s, h), step)
    ensures var call := BreakerCall(Run(s, h), step);
      BreakerLog(s, longer) == BreakerLog(s, h) + (if call.Some? then [call.value] else [])
  {
    longer := h + [step];
    assert longer[..|h|] == h;
  }

  /** For each admission among the first n calls of a log, a request past the filters that read that time. */
  ghost function Waiting(l: seq<B.Event>, n: nat): map<nat, Phase>
    requires n <= |l|
  {
    map i: nat | i < n && l[i].Admit? :: Filtered(l[i].now)
  }

  /** At the start nothing keeps a request from passing the filters, whatever health is configured. */
  lemma {:induction false} AllPassAtFirst(o: Options, l: seq<B.Event>, n: nat) returns (h: seq<Step>)
    requires n <= |l|
    ensures Interleaving(Initially(o), h) && BreakerLog(Initially(o), h) == []
    ensures Run(Initially(o), h) == Initially(o).(requests := Waiting(l, n))
  {
    if n == 0 {
      h := [];
    } else {
      h := AllPassAtFirst(o, l, n - 1);
      if l[n - 1].Admit? {
        h := RunOn(Initially(o), h, Filter(n - 1, l[n - 1].now));
        assert Waiting(l, n) == Waiting(l, n - 1)[n - 1 := Filtered(l[n - 1].now)];
      } else {
        assert Waiting(l, n) == Waiting(l, n - 1);
      }
    }
  }

  /**
   * x requests are in service, all of them running; the requests for the admissions from call k on are waiting.
   * Requests that run while the breaker is open were admitted in an earlier era.
   */
  ghost predicate Ready(s: System, l: seq<B.Event>, k: nat, b: B.Breaker, x: int) {
    && s.up.breaker == Some(b) && |Admitted(s)| == x
    && (forall i: nat | k <= i < |l| && l[i].Admit? :: i in s.requests && s.requests[i] == Filtered(l[i].now))
    && (forall id | id in s.requests :: !s.requests[id].Reporting?)
    && (forall id | id in s.requests && s.requests[id].Running? ::
          s.requests[id].era <= s.era && (b.state.Open? ==> s.requests[id].era < s.era))
  }

  lemma AdmitNext(s: System, h: seq<Step>, l: seq<B.Event>, k: nat, b: B.Breaker, x: int) returns (longer: seq<Step>)
    requires Interleaving(s, h) && Ready(Run(s, h), l, k, b, x) && k < |l| && l[k].Admit?
    ensures Interleaving(s, longer) && Ready(Run(s, longer), l, k + 1, b.After(l[k]), x + B.Change(b, l[k]))
    ensures BreakerLog(s, longer) == BreakerLog(s, h) + [l[k]]
  {
    AdmitChangesAdmitted(Run(s, h), k, b);
    longer := RunOn(s, h, Admit(k));
  }

  lemma ReportNext(s: System, h: seq<Step>, l: seq<B.Event>, k: nat, b: B.Breaker, x: int) returns (longer: seq<Step>)
    requires Interleaving(s, h) && Ready(Run(s, h), l, k, b, x) && k < |l| && l[k].Report? && x > 0
    ensures Interleaving(s, longer) && Ready(Run(s, longer), l, k + 1, b.After(l[k]), x - 1)
    ensures BreakerLog(s, longer) == BreakerLog(s, h) + [l[k]]
  {
    var id :| id in Admitted(Run(s, h));
    StepChangesAdmitted(Run(s, h), ReportToPassive(id, l[k].outcome), b);
    longer := RunOn(s, h, ReportToPassive(id, l[k].outcome));
    ReportChangesAdmitted(Run(s, longer), id, b);
    longer := RunOn(s, longer, ReportToBreaker(id));
    assert BreakerLog(s, h) + [] + [l[k]] == BreakerLog(s, h) + [l[k]];
  }

  lemma PlayNext(s: System, h: seq<Step>, t: System, l: seq<B.Event>, k: nat, b: B.Breaker, x: int)
    returns (longer: seq<Step>, u: System)
    requires Interleaving(s, h) && Run(s, h) == t && Ready(t, l, k, b, x) && k < |l| && x + B.Change(b, l[k]) >= 0
    ensures Interleaving(s, longer) && Run(s, longer) == u
    ensures Ready(u, l, k + 1, b.After(l[k]), x + B.Change(b, l[k]))
    ensures BreakerLog(s, longer) == BreakerLog(s, h) + [l[k]]
  {
    if l[k].Admit? {
      longer := AdmitNext(s, h, l, k, b, x);
    } else {
      longer := ReportNext(s, h, l, k, b, x);
    }
    u := Run(s, longer);
  }

  /** The calls d come in the log l from call k on. */
  ghost predicate ComesAt(l: seq<B.Event>, k: nat, d: seq<B.Event>) {
    k + |d| <= |l| && forall i | 0 <= i < |d| :: l[k + i] == d[i]
  }

  /** Waiting requests can make any calls that they, and the x requests in service, cover. */
  lemma {:induction false} Play(s: System, h: seq<Step>, l: seq<B.Event>, k: nat, d: seq<B.Event>, b: B.Breaker, x: int)
    returns (longer: seq<Step>, t: System)
    requires Interleaving(s, h) && Ready(Run(s, h), l, k, b, x) && ComesAt(l, k, d) && B.Covered(b, d, x)
    ensures Interleaving(s, longer) && Run(s, longer) == t && BreakerLog(s, longer) == BreakerLog(s, h) + d
    ensures Ready(t, l, k + |d|, B.Run(b, d), x + B.Net(b, d))
  {
    if d == [] {
      longer, t := h, Run(s, h);
    } else {
      var g, e := d[..|d| - 1], d[|d| - 1];
      longer, t := Play(s, h, l, k, g, b, x);
      assert e == l[k + |g|];
      longer, t := PlayNext(s, longer, t, l, k + |g|, B.Run(b, g), x + B.Net(b, g));
      OneMoreCall(BreakerLog(s, h), d);
    }
  }

  lemma OneMoreCall(log: seq<B.Event>, d: seq<B.Event>)
    requires d != []
    ensures log + d[..|d| - 1] + [d[|d| - 1]] == log + d
  {
  }

  /** After the run `pre`, which makes the calls l, the run h makes the calls d. */
  ghost predicate Makes(o: Options, pre: seq<Step>, h: seq<Step>, l: seq<B.Event>, d: seq<B.Event>) {
    && Interleaving(Initially(o), pre) && BreakerLog(Initially(o), pre) == l
    && Interleaving(Run(Initially(o), pre), h) && BreakerLog(Run(Initially(o), pre), h) == d
  }

  ghost function FirstBreaker(o: Options): (b: B.Breaker)
    ensures b.Inv()
  {
    B.Initial(B.Defaulted(o.circuitBreaker))
  }

  /** All requests of two logs in a row pass the filters first, then those of the first log make their calls. */
  lemma FirstCalls(o: Options, l: seq<B.Event>, d: seq<B.Event>) returns (pre: seq<Step>)
    requires o.circuitBreaker.enabled && B.Covered(FirstBreaker(o), l, 0)
    ensures Interleaving(Initially(o), pre) && BreakerLog(Initially(o), pre) == l
    ensures Ready(Run(Initially(o), pre), l + d, |l|, B.Run(FirstBreaker(o), l), B.Net(FirstBreaker(o), l))
  {
    pre := AllPassAtFirst(o, l + d, |l + d|);
    assert Admitted(Run(Initially(o), pre)) == {};
    var t;
    pre, t := Play(Initially(o), pre, l + d, 0, l, FirstBreaker(o), 0);
    assert [] + l == l;
  }

  lemma CoveredCallsAreMade(o: Options, l: seq<B.Event>, d: seq<B.Event>) returns (pre: seq<Step>, h: seq<Step>)
    requires o.circuitBreaker.enabled && B.Covered(FirstBreaker(o), l, 0)
    requires B.Covered(B.Run(FirstBreaker(o), l), d, B.Net(FirstBreaker(o), l))
    ensures Makes(o, pre, h, l, d)
  {
    pre := FirstCalls(o, l, d);
    var t;
    h, t := Play(Run(Initially(o), pre), [], l + d, |l|, d, B.Run(FirstBreaker(o), l), B.Net(FirstBreaker(o), l));
    assert [] + d == d;
  }

  /**
   * With whatever health filters beside the breaker, requests can make exactly those calls on the breaker in which
   * every report has an earlier granted admission to itself.
   */
  lemma RequestsMakeExactlyCoveredCalls(o: Options, l: seq<B.Event>)
    requires o.circuitBreaker.enabled
    ensures (exists h :: Interleaving(Initially(o), h) && BreakerLog(Initially(o), h) == l)
            <==> B.Covered(FirstBreaker(o), l, 0)
  {
    if h :| Interleaving(Initially(o), h) && BreakerLog(Initially(o), h) == l {
      assert Admitted(Initially(o)) == {};
      AdmittedByNet(Initially(o), h, FirstBreaker(o));
    }
    if B.Covered(FirstBreaker(o), l, 0) {
      var h := FirstCalls(o, l, []);
    }
  }
}
