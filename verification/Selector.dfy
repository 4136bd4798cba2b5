/** The round-robin selector over a route's upstreams, and the route health the admin endpoint reports. */
module Selector {
  import opened Wrappers
  import opened Ring
  import opened Upstreams
  import Active = ActiveHealth
  import Breaker = CircuitBreaker

  /** A route's upstreams and its selection counter as a value. */
  datatype HandlerValue = HandlerValue(upstreams: seq<UpstreamValue>, next: nat) {

    /** Probe k, which reads the clock as `clock[k]`, finds an upstream it can acquire. */
    ghost predicate Hit(clock: seq<int>, k: nat)
      requires |clock| == |upstreams| && k < |upstreams|
    {
      upstreams[Probe(next, k, |upstreams|)].Acquires(clock[k])
    }

    /** The first k probes all fail. */
    ghost predicate Misses(clock: seq<int>, k: nat)
      requires |clock| == |upstreams| && k <= |upstreams|
    {
      k == 0 || (Misses(clock, k - 1) && !Hit(clock, k - 1))
    }

    lemma {:induction false} MissesAre(clock: seq<int>, k: nat)
      requires |clock| == |upstreams| && k <= |upstreams|
      ensures Misses(clock, k) <==> forall i | 0 <= i < k :: !Hit(clock, i)
    {
      if k > 0 {
        MissesAre(clock, k - 1);
      }
    }

    /**
     * A selection that ends at probe i with the route in state `after`: every earlier probe fails, probe i
     * takes a slot on its upstream unless there is no probe i, and nothing else changes but the counter.
     */
    ghost predicate Selects(clock: seq<int>, i: nat, after: HandlerValue)
      requires |clock| == |upstreams|
    {
      var n := |upstreams|;
      && i <= n && (forall k | 0 <= k < i :: !Hit(clock, k)) && (i < n ==> Hit(clock, i))
      && after.next == (if n == 0 then next else (next + 1) % WORD)
      && after.upstreams == if i == n then upstreams else
           var j := Probe(next, i, n); upstreams[j := upstreams[j].AfterAcquire(clock[i])]
    }

    /** Probe k takes a slot on its upstream, which leaves `us`. */
    ghost predicate Takes(clock: seq<int>, k: nat, us: seq<UpstreamValue>)
      requires |clock| == |upstreams| && k < |upstreams|
    {
      var j := Probe(next, k, |upstreams|);
      Hit(clock, k) && us == upstreams[j := upstreams[j].AfterAcquire(clock[k])]
    }

    lemma SelectsBy(clock: seq<int>, i: nat, after: HandlerValue)
      requires 0 < |clock| == |upstreams| && i <= |upstreams| && Misses(clock, i)
      requires if i == |upstreams| then after.upstreams == upstreams else Takes(clock, i, after.upstreams)
      requires after.next == (next + 1) % WORD
      ensures Selects(clock, i, after)
    {
      MissesAre(clock, i);
    }
  }

  class Handler {
    const upstreams: seq<Upstream>
    var nextIndex: nat

    constructor (us: seq<Upstream>)
      requires Separate(us) && |us| < WORD
      ensures Valid() && upstreams == us && nextIndex == 0
    {
      upstreams, nextIndex := us, 0;
    }

    ghost predicate Valid()
      reads this
    {
      nextIndex < WORD && |upstreams| < WORD && Separate(upstreams)
    }

    ghost function Value(): HandlerValue
      reads this, Parts(upstreams)
    {
      HandlerValue(Values(upstreams), nextIndex)
    }

    /** Probes the upstreams from the counter on and returns the first that can be acquired. */
    method SelectUpstream(clock: seq<int>) returns (selected: Upstream?, ghost i: nat)
      requires Valid() && |clock| == |upstreams|
      modifies this`nextIndex, Breakers(upstreams)
      ensures Valid()
      ensures old(Value()).Selects(clock, i, Value())
      ensures selected == if i == |upstreams| then null else upstreams[Probe(old(nextIndex), i, |upstreams|)]
    {
      ghost var before := Value();
      var count := |upstreams|;
      if count == 0 {
        return null, 0;
      }
      var start := nextIndex;
      nextIndex := (nextIndex + 1) % WORD;
      var probe := ProbeFrom(upstreams, start, before, clock);
      before.SelectsBy(clock, probe, Value());
      return if probe == count then null else upstreams[Probe(start, probe, count)], probe;
    }
  }

  /** Each upstream has a breaker of its own, with at least one half-open slot. */
  ghost predicate Separate(us: seq<Upstream>) {
    && (forall i, j | 0 <= i < j < |us| :: us[i].circuitBreaker == null || us[i].circuitBreaker != us[j].circuitBreaker)
    && (forall i | 0 <= i < |us| :: us[i].circuitBreaker != null ==> us[i].circuitBreaker.halfOpenMaxRequests > 0)
  }

  ghost function Breakers(us: seq<Upstream>): set<object> {
    set u | u in us && u.circuitBreaker != null :: u.circuitBreaker as object
  }

  ghost function Parts(us: seq<Upstream>): set<object> {
    Breakers(us) + (set u | u in us && u.passiveHealth != null :: u.passiveHealth as object)
    + (set u | u in us && u.activeHealth != null :: u.activeHealth as object)
  }

  ghost function Values(us: seq<Upstream>): (vs: seq<UpstreamValue>)
    reads Parts(us)
    ensures |vs| == |us| && forall i | 0 <= i < |us| :: vs[i] == us[i].Value()
  {
    if us == [] then [] else Values(us[..|us| - 1]) + [us[|us| - 1].Value()]
  }

  /** One probe of the selection loop: candidate j is acquired or stays as it was, the others stay. */
  method TryCandidate(us: seq<Upstream>, j: nat, ghost v: HandlerValue, k: nat, clock: seq<int>)
    returns (ok: bool)
    requires Separate(us) && Values(us) == v.upstreams && |clock| == |us| && k < |us| && j == Probe(v.next, k, |us|)
    modifies Breakers(us)
    ensures if ok then v.Takes(clock, k, Values(us)) else !v.Hit(clock, k) && Values(us) == v.upstreams
  {
    ok := us[j].TryAcquire(clock[k]);
    assert forall i | 0 <= i < |us| && i != j :: us[i].Value() == v.upstreams[i];
    if !ok {
      RejectionLeavesUpstreamUnchanged(v.upstreams[j], clock[k]);
    }
  }

  /** The probing loop: ends at the first candidate that is acquired, or after the last. */
  method ProbeFrom(us: seq<Upstream>, start: nat, ghost v: HandlerValue, clock: seq<int>) returns (i: nat)
    requires Separate(us) && us != [] && Values(us) == v.upstreams && |clock| == |us| && start == v.next
    modifies Breakers(us)
    ensures i <= |us| && v.Misses(clock, i)
    ensures if i == |us| then Values(us) == v.upstreams else v.Takes(clock, i, Values(us))
  {
    for probe := 0 to |us|
      invariant Values(us) == v.upstreams && v.Misses(clock, probe)
    {
      var ok := TryCandidate(us, Probe(start, probe, |us|), v, probe, clock);
      if ok {
        return probe;
      }
    }
    return |us|;
  }

  /** A route without a list of upstreams has its single target, if there is one. */
  function Targets(target: string, urls: seq<string>): seq<string> {
    if urls == [] && target != "" then [target] else urls
  }

  /**
   * Builds the upstreams of a route, all from the route's options. `usable` says whether a URL parses, has a
   * scheme and a host, and makes a health check where one is configured; one that is not fails the route.
   */
  method BuildUpstreams(o: Options, target: string, urls: seq<string>, usable: string -> bool)
    returns (r: Option<seq<Upstream>>)
    ensures urls != [] ==> (r.Some? <==> forall url | url in urls :: usable(url))
    ensures urls == [] ==> (r.Some? <==> target != "" && usable(target))
    ensures r.Some? ==> |r.value| == (if urls == [] then 1 else |urls|) && Separate(r.value)
    ensures r.Some? ==> forall i | 0 <= i < |r.value| :: r.value[i].Value() == InitialValue(o)
  {
    var options := Targets(target, urls);
    if options == [] {
      return None;
    }
    var us: seq<Upstream> := [];
    for i := 0 to |options|
      invariant |us| == i && Separate(us)
      invariant forall k | 0 <= k < i :: us[k].Value() == InitialValue(o) && usable(options[k])
    {
      if !usable(options[i]) {
        return None;
      }
      var u := NewUpstream(o);
      us := us + [u];
    }
    assert urls == [] ==> options[0] == target && usable(options[0]);
    return Some(us);
  }

  /** One selection: the route just before and after it, the clock readings, and the probe that decided it. */
  datatype Selection = Selection(before: HandlerValue, clock: seq<int>, probe: nat, after: HandlerValue) {

    /** The selection is one the selector makes, and exactly the marked upstreams can be acquired during it. */
    ghost predicate Valid(avail: seq<bool>) {
      && 0 < |before.upstreams| == |clock| == |avail| && before.next < WORD
      && before.Selects(clock, probe, after)
      && forall k | 0 <= k < |avail| :: before.Hit(clock, k) <==> avail[Probe(before.next, k, |avail|)]
    }

    /** The index of the picked upstream, or the number of upstreams if none is picked. */
    ghost function Picked(): nat
      requires before.upstreams != []
    {
      if probe < |before.upstreams| then Probe(before.next, probe, |before.upstreams|) else |before.upstreams|
    }
  }

  lemma SelectionIsChosen(s: Selection, avail: seq<bool>)
    requires s.Valid(avail)
    ensures s.Picked() == Chosen(avail, s.before.next)
  {
    FirstHitIs(Hits(avail, s.before.next), s.probe);
  }

  /** Selections in a row from counter `start` on, with any reports and health checks in between. */
  ghost predicate InARow(ss: seq<Selection>, avail: seq<bool>, start: nat) {
    && (forall s | s in ss :: s.Valid(avail))
    && (ss != [] ==> ss[0].before.next == start)
    && (forall t | 0 < t < |ss| :: ss[t].before.next == ss[t - 1].after.next)
  }

  ghost function TimesPicked(ss: seq<Selection>, j: nat): nat
    requires forall s | s in ss :: s.before.upstreams != []
  {
    if ss == [] then 0
    else TimesPicked(ss[..|ss| - 1], j) + (if ss[|ss| - 1].Picked() == j then 1 else 0)
  }

  lemma {:induction false} CounterAt(ss: seq<Selection>, avail: seq<bool>, start: nat, t: nat)
    requires InARow(ss, avail, start) && start < WORD && t < |ss|
    ensures ss[t].before.next == (start + t) % WORD
  {
    if t > 0 {
      CounterAt(ss, avail, start, t - 1);
      var previous := ss[t - 1];
      assert previous.Valid(avail);
      assert previous.after.next == (previous.before.next + 1) % WORD;
      ModuloSum(start + t - 1, 1, WORD);
    }
  }

  lemma {:induction false} PicksFollowTheRing(ss: seq<Selection>, avail: seq<bool>, start: nat, j: nat)
    requires avail != [] && InARow(ss, avail, start) && start < WORD
    ensures TimesPicked(ss, j) == TimesChosen(avail, start, |ss|, j)
  {
    if ss != [] {
      var t := |ss| - 1;
      var first, last := ss[..t], ss[t];
      assert InARow(first, avail, start);
      PicksFollowTheRing(first, avail, start, j);
      CounterAt(ss, avail, start, t);
      SelectionIsChosen(last, avail);
    }
  }

  /**
   * Exact round-robin share: while availability stays the same, n selections in a row pick each available
   * upstream once plus once for each unavailable upstream just before it.
   */
  lemma RoundRobinShare(ss: seq<Selection>, avail: seq<bool>, start: nat, j: nat, g: nat)
    requires InARow(ss, avail, start) && start < WORD && 0 < |ss| == |avail| < WORD
    requires NoSkew(start, |avail|, |avail|)
    requires j < |avail| && GapBefore(avail, j, g)
    ensures TimesPicked(ss, j) == if avail[j] then 1 + g else 0
  {
    PicksFollowTheRing(ss, avail, start, j);
    ExactShare(avail, start, j, g);
  }

  /** The flags of the upstreams that have a checker. */
  ghost function CheckerFlags(us: seq<UpstreamValue>): seq<Active.Flags> {
    if us == [] then []
    else
      var u := us[|us| - 1];
      CheckerFlags(us[..|us| - 1]) + (if u.active.Some? then [u.active.value] else [])
  }

  lemma {:induction false} CheckerFlagsAre(us: seq<UpstreamValue>, f: Active.Flags)
    ensures f in CheckerFlags(us) <==> exists u :: u in us && u.active == Some(f)
  {
    if us != [] {
      CheckerFlagsAre(us[..|us| - 1], f);
      assert us == us[..|us| - 1] + [us[|us| - 1]];
    }
  }

  /** What the admin endpoint calls an unhealthy route: it has checkers, and all of them report unhealthy. */
  ghost predicate RouteUnhealthy(us: seq<UpstreamValue>) {
    && (exists u :: u in us && u.active.Some?)
    && (forall u | u in us && u.active.Some? :: u.active.value.checked && !u.active.value.healthy)
  }

  lemma UnhealthyByFlags(us: seq<UpstreamValue>)
    ensures RouteUnhealthy(us)
            <==> CheckerFlags(us) != [] && forall f | f in CheckerFlags(us) :: f.checked && !f.healthy
  {
    forall f ensures f in CheckerFlags(us) <==> exists u :: u in us && u.active == Some(f) {
      CheckerFlagsAre(us, f);
    }
    if CheckerFlags(us) != [] {
      assert CheckerFlags(us)[0] in CheckerFlags(us);
    }
    forall u | u in us && u.active.Some? ensures u.active.value in CheckerFlags(us) {
    }
  }

  /** The flags listed for a route, and whether any of its checkers has published a check. */
  method CheckerItems(us: seq<Upstream>) returns (items: seq<Active.Flags>, checked: bool)
    ensures items == CheckerFlags(Values(us))
    ensures checked <==> exists f :: f in items && f.checked
  {
    ghost var vs := Values(us);
    items, checked := [], false;
    for i := 0 to |us|
      invariant Values(us) == vs && items == CheckerFlags(vs[..i])
      invariant checked <==> exists f :: f in items && f.checked
    {
      assert vs[..i + 1][..i] == vs[..i] && vs[i] == us[i].Value();
      if us[i].activeHealth != null {
        var s := us[i].activeHealth.TakeSnapshot();
        checked := checked || s.checked;
        items := items + [s];
        assert s in items;
      }
    }
    assert vs[..|us|] == vs;
  }

  /** The health item of one route: the flags of its checkers, and the verdict drawn from them. */
  method RouteHealth(us: seq<Upstream>) returns (items: seq<Active.Flags>, checked: bool, healthy: bool)
    ensures items == CheckerFlags(Values(us))
    ensures checked <==> exists f :: f in items && f.checked
    ensures healthy <==> !RouteUnhealthy(Values(us))
  {
    items, checked := CheckerItems(us);
    UnhealthyByFlags(Values(us));
    healthy := true;
    if |items| > 0 {
      healthy := false;
      for i := 0 to |items|
        invariant !healthy && forall k | 0 <= k < i :: items[k].checked && !items[k].healthy
      {
        if !items[i].checked || items[i].healthy {
          healthy := true;
          break;
        }
      }
    }
  }

  /** The same route with passive health and circuit breaker switched off. */
  ghost function ActiveOnly(h: HandlerValue): (r: HandlerValue)
    ensures |r.upstreams| == |h.upstreams| && r.next == h.next
  {
    h.(upstreams := seq(|h.upstreams|, i requires 0 <= i < |h.upstreams| =>
                          UpstreamValue(h.upstreams[i].active, None, None)))
  }

  /**
   * The verdict agrees with the selector. Active health is configured per route, so either every upstream
   * has a checker or none does; then an unhealthy route never selects anything, whatever the other filters
   * say, and a healthy one is never blocked by active health alone.
   */
  lemma UnhealthyRouteSelectsNothing(h: HandlerValue, clock: seq<int>, i: nat, after: HandlerValue)
    requires |clock| == |h.upstreams| && h.Selects(clock, i, after)
    requires forall u, v | u in h.upstreams && v in h.upstreams :: u.active.Some? <==> v.active.Some?
    requires RouteUnhealthy(h.upstreams)
    ensures i == |h.upstreams| && after.upstreams == h.upstreams
  {
    forall k | 0 <= k < |h.upstreams| ensures !h.Hit(clock, k) {
      assert h.upstreams[Probe(h.next, k, |h.upstreams|)] in h.upstreams;
    }
  }

  lemma HealthyRouteIsNotBlocked(h: HandlerValue, clock: seq<int>, i: nat, after: HandlerValue)
    requires 0 < |clock| == |h.upstreams| < WORD && ActiveOnly(h).Selects(clock, i, after)
    requires h.next < WORD && (h.next + |h.upstreams| <= WORD || WORD % |h.upstreams| == 0)
    requires !RouteUnhealthy(h.upstreams)
    ensures i < |h.upstreams|
  {
    var n := |h.upstreams|;
    var u := if exists u :: u in h.upstreams && u.active.Some? then
               var u :| u in h.upstreams && u.active.Some? && !(u.active.value.checked && !u.active.value.healthy); u
             else h.upstreams[0];
    var j :| 0 <= j < n && h.upstreams[j] == u;
    ProbesEveryUpstreamIff(h.next, n);
    assert Visits(h.next, n, j);
    var k: nat :| k < n && Probe(h.next, k, n) == j;
    assert ActiveOnly(h).upstreams[j].Acquires(clock[k]);
    assert ActiveOnly(h).Hit(clock, k);
  }
}
