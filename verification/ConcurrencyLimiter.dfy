/** The concurrency limiter: a semaphore channel, and the middleware that holds a slot while a request is served. */
module ConcurrencyLimiter {

  /** A limiter's capacity and the number of slots taken. */
  datatype LimiterValue = LimiterValue(capacity: int, inUse: int) {
    predicate Full() {
      inUse >= capacity
    }

    function AfterTryAcquire(): LimiterValue {
      if Full() then this else this.(inUse := inUse + 1)
    }

    /** Releasing an empty limiter does nothing. */
    function AfterRelease(): LimiterValue {
      if inUse > 0 then this.(inUse := inUse - 1) else this
    }
  }

  class Limiter {
    const capacity: int
    /** The number of elements in the semaphore channel. */
    var semaphore: int

    constructor (capacity: int)
      requires capacity > 0
      ensures Value() == LimiterValue(capacity, 0)
    {
      this.capacity, semaphore := capacity, 0;
    }

    ghost function Value(): LimiterValue
      reads this
    {
      LimiterValue(capacity, semaphore)
    }
  }

  method NewLimiter(maxConcurrency: int) returns (l: Limiter?)
    ensures l == null <==> maxConcurrency <= 0
    ensures l != null ==> fresh(l) && l.Value() == LimiterValue(maxConcurrency, 0)
  {
    if maxConcurrency <= 0 {
      return null;
    }
    l := new Limiter(maxConcurrency);
  }

  /** A nil limiter lets everything through. */
  method TryAcquire(l: Limiter?) returns (ok: bool)
    modifies l
    ensures l == null ==> ok
    ensures l != null ==> ok == !old(l.Value()).Full() && l.Value() == old(l.Value()).AfterTryAcquire()
  {
    if l == null {
      return true;
    }
    if l.semaphore < l.capacity {
      l.semaphore := l.semaphore + 1;
      return true;
    }
    return false;
  }

  method Release(l: Limiter?)
    modifies l
    ensures l != null ==> l.Value() == old(l.Value()).AfterRelease()
  {
    if l == null {
      return;
    }
    if l.semaphore > 0 {
      l.semaphore := l.semaphore - 1;
    }
  }

  /** The numbers a snapshot publishes add up to the capacity. */
  method TakeSnapshot(l: Limiter?) returns (capacity: int, inUse: int, available: int)
    ensures available + inUse == capacity
    ensures l != null ==> capacity == l.capacity && inUse == l.semaphore
    ensures l == null ==> capacity == 0 && inUse == 0
  {
    if l == null {
      return 0, 0, 0;
    }
    return l.capacity, l.semaphore, l.capacity - l.semaphore;
  }
}

/** Requests passing through the global and route limiters of successive runtime generations. */
module Generations {
  import opened ConcurrencyLimiter

  /** The settings a runtime is built from, as far as its limiters go; non-positive means no limiter. */
  datatype RuntimeConfig = RuntimeConfig(maxConcurrency: int, routeLimits: seq<int>)

  /** A limiter is named by its generation, and by its route unless it is the global one. */
  datatype LimiterId = Global(gen: nat) | Route(gen: nat, route: nat)

  /** How far a request has come inside the handlers of its generation. */
  datatype Stage = Arrived | InGlobal | InRoute(route: nat)

  /** A request stays with the generation whose handler it loaded on arrival. */
  datatype Request = Request(gen: nat, stage: Stage)

  /** All generations built so far, the last one serving new requests. */
  datatype Gateway = Gateway(
    configs: seq<RuntimeConfig>, limiters: map<LimiterId, LimiterValue>, requests: map<nat, Request>)
  {
    ghost predicate Passes(id: LimiterId) {
      id in limiters ==> !limiters[id].Full()
    }

    ghost function Acquired(id: LimiterId): Gateway {
      if id in limiters then this.(limiters := limiters[id := limiters[id].AfterTryAcquire()]) else this
    }

    ghost function Released(id: LimiterId): Gateway {
      if id in limiters then this.(limiters := limiters[id := limiters[id].AfterRelease()]) else this
    }

    ghost function WithRequest(r: nat, request: Request): Gateway {
      this.(requests := requests[r := request])
    }

    ghost function WithoutRequest(r: nat): Gateway {
      this.(requests := requests - {r})
    }
  }

  datatype Step =
    | Arrive(id: nat)
    | EnterGlobal(id: nat)
    | EnterRoute(id: nat, route: nat)
    | LeaveRoute(id: nat)
    | LeaveGlobal(id: nat)
    | Abandon(id: nat)
    | Swap(cfg: RuntimeConfig)

  ghost predicate Enabled(g: Gateway, step: Step) {
    match step
    case Arrive(r) => r !in g.requests
    case EnterGlobal(r) => r in g.requests && g.requests[r].stage.Arrived?
    case EnterRoute(r, route) => r in g.requests && g.requests[r].stage.InGlobal?
                                 && g.requests[r].gen < |g.configs|
                                 && route < |g.configs[g.requests[r].gen].routeLimits|
    case LeaveRoute(r) => r in g.requests && g.requests[r].stage.InRoute?
    case LeaveGlobal(r) => r in g.requests && g.requests[r].stage.InGlobal?
    case Abandon(r) => r in g.requests && g.requests[r].stage.Arrived?
    case Swap(_) => true
  }

  /** The limiters of a newly built runtime, all empty. */
  ghost function Built(cfg: RuntimeConfig, gen: nat): map<LimiterId, LimiterValue> {
    (map route: nat | route < |cfg.routeLimits| && cfg.routeLimits[route] > 0
       :: Route(gen, route) := LimiterValue(cfg.routeLimits[route], 0))
    + (if cfg.maxConcurrency > 0 then map[Global(gen) := LimiterValue(cfg.maxConcurrency, 0)] else map[])
  }

  /**
   * A rejected request leaves. A deferred release returns the slot of the limiter that was entered; `Abandon`
   * is a request turned away before the limiters. `Swap` builds a runtime and makes it the serving one.
   */
  ghost function After(g: Gateway, step: Step): Gateway {
    if !Enabled(g, step) then g else
    match step
    case Arrive(r) => if g.configs == [] then g else g.WithRequest(r, Request(|g.configs| - 1, Arrived))
    case EnterGlobal(r) =>
      var gen := g.requests[r].gen;
      if g.Passes(Global(gen)) then g.Acquired(Global(gen)).WithRequest(r, Request(gen, InGlobal))
      else g.WithoutRequest(r)
    case EnterRoute(r, route) =>
      var gen := g.requests[r].gen;
      if g.Passes(Route(gen, route)) then g.Acquired(Route(gen, route)).WithRequest(r, Request(gen, InRoute(route)))
      else g
    case LeaveRoute(r) =>
      var gen, route := g.requests[r].gen, g.requests[r].stage.route;
      g.Released(Route(gen, route)).WithRequest(r, Request(gen, InGlobal))
    case LeaveGlobal(r) => g.Released(Global(g.requests[r].gen)).WithoutRequest(r)
    case Abandon(r) => g.WithoutRequest(r)
    case Swap(cfg) => g.(configs := g.configs + [cfg], limiters := g.limiters + Built(cfg, |g.configs|))
  }

  const Initially := Gateway([], map[], map[])

  ghost function Run(h: seq<Step>): Gateway {
    if h == [] then Initially else After(Run(h[..|h| - 1]), h[|h| - 1])
  }

  /** The request is inside the part of its handlers that the limiter guards. */
  ghost predicate Holds(q: Request, id: LimiterId) {
    match id
    case Global(gen) => q.gen == gen && !q.stage.Arrived?
    case Route(gen, route) => q.gen == gen && q.stage == InRoute(route)
  }

  ghost function Holders(g: Gateway, id: LimiterId): set<nat> {
    set r | r in g.requests && Holds(g.requests[r], id)
  }

  /** The limit configured for a limiter, or 0 if its generation has none. */
  ghost function Limit(configs: seq<RuntimeConfig>, id: LimiterId): int {
    if id.gen >= |configs| then 0
    else
      match id
      case Global(gen) => configs[gen].maxConcurrency
      case Route(gen, route) => if route < |configs[gen].routeLimits| then configs[gen].routeLimits[route] else 0
  }

  /** Exactly the configured limiters exist, with their configured capacity. */
  ghost predicate Configured(g: Gateway, id: LimiterId) {
    && (id in g.limiters <==> Limit(g.configs, id) > 0)
    && (id in g.limiters ==> g.limiters[id].capacity == Limit(g.configs, id))
  }

  /** A limiter's count is the number of requests that hold it, and stays within its capacity. */
  ghost predicate Accounted(g: Gateway, id: LimiterId) {
    id in g.limiters ==> g.limiters[id].inUse == |Holders(g, id)| <= g.limiters[id].capacity
  }

  ghost predicate Conserved(g: Gateway) {
    && (forall r | r in g.requests :: g.requests[r].gen < |g.configs|)
    && (forall id :: Configured(g, id))
    && (forall id :: Accounted(g, id))
  }

  /** At most the request r differs between two gateways. */
  ghost predicate SameOtherRequests(g: Gateway, t: Gateway, r: nat) {
    g.requests - {r} == t.requests - {r}
  }

  lemma OnlyOneMoves(g: Gateway, step: Step)
    requires !step.Swap?
    ensures SameOtherRequests(g, After(g, step), step.id)
  {
  }

  lemma HoldersAfter(g: Gateway, t: Gateway, id: LimiterId, r: nat)
    requires SameOtherRequests(g, t, r)
    ensures |Holders(t, id)| - (if r in Holders(t, id) then 1 else 0)
         == |Holders(g, id)| - (if r in Holders(g, id) then 1 else 0)
  {
    forall q | q != r ensures q in Holders(t, id) <==> q in Holders(g, id) {
      assert q in g.requests <==> q in g.requests - {r};
      assert q in t.requests <==> q in t.requests - {r};
      assert q in g.requests ==> g.requests[q] == (g.requests - {r})[q];
      assert q in t.requests ==> t.requests[q] == (t.requests - {r})[q];
    }
    assert Holders(t, id) - {r} == Holders(g, id) - {r};
    WithoutOne(Holders(t, id), r);
    WithoutOne(Holders(g, id), r);
  }

  lemma WithoutOne(s: set<nat>, r: nat)
    ensures |s - {r}| == |s| - (if r in s then 1 else 0)
  {
    if r !in s {
      assert s - {r} == s;
    }
  }

  lemma BuiltMatchesConfig(configs: seq<RuntimeConfig>, cfg: RuntimeConfig, id: LimiterId)
    ensures var built, limit := Built(cfg, |configs|), Limit(configs + [cfg], id);
      && (id in built <==> id.gen == |configs| && limit > 0)
      && (id in built ==> built[id] == LimiterValue(limit, 0))
  {
  }

  lemma BuiltIsConfigured(g: Gateway, cfg: RuntimeConfig, id: LimiterId)
    requires Configured(g, id)
    ensures Configured(After(g, Swap(cfg)), id)
    ensures var t := After(g, Swap(cfg));
      && (id in g.limiters ==> id in t.limiters && t.limiters[id] == g.limiters[id])
      && (id in t.limiters && id !in g.limiters ==> id.gen == |g.configs| && t.limiters[id].inUse == 0)
  {
    BuiltMatchesConfig(g.configs, cfg, id);
  }

  /** A swap leaves every existing limiter alone; the new ones start empty, and nobody holds them yet. */
  lemma SwapConserves(g: Gateway, cfg: RuntimeConfig)
    requires Conserved(g)
    ensures var t := After(g, Swap(cfg));
      && Conserved(t) && t.requests == g.requests
      && (forall id | id in g.limiters :: id in t.limiters && t.limiters[id] == g.limiters[id])
      && (forall id | id in t.limiters && id !in g.limiters :: id.gen == |g.configs| && t.limiters[id].inUse == 0)
  {
    var t := After(g, Swap(cfg));
    forall id
      ensures Configured(t, id) && Accounted(t, id)
      ensures id in g.limiters ==> id in t.limiters && t.limiters[id] == g.limiters[id]
      ensures id in t.limiters && id !in g.limiters ==> id.gen == |g.configs| && t.limiters[id].inUse == 0
    {
      assert Configured(g, id) && Accounted(g, id);
      BuiltIsConfigured(g, cfg, id);
      assert Holders(t, id) == Holders(g, id);
      if id !in g.limiters && id in t.limiters {
        assert Holders(g, id) == {};
      }
    }
  }

  lemma MoveConserves(g: Gateway, step: Step)
    requires Conserved(g) && !step.Swap?
    ensures Conserved(After(g, step))
  {
    var t := After(g, step);
    forall id ensures Configured(t, id) && Accounted(t, id) {
      assert Configured(g, id) && Accounted(g, id);
      OnlyOneMoves(g, step);
      HoldersAfter(g, t, id, step.id);
      HolderNeedsASlot(g, step.id, id);
    }
  }

  /** A request inside a limiter's part occupies one of its slots, so a release never finds the limiter empty. */
  lemma HolderNeedsASlot(g: Gateway, r: nat, id: LimiterId)
    requires Conserved(g)
    ensures r in Holders(g, id) && id in g.limiters ==> g.limiters[id].inUse > 0
  {
    assert Accounted(g, id);
  }

  /** In every run with any number of reloads each limiter counts exactly the requests that hold it. */
  lemma {:induction false} SlotsAreConserved(h: seq<Step>)
    ensures Conserved(Run(h))
  {
    if h == [] {
      forall id ensures Configured(Initially, id) {
      }
    } else {
      var g, step := Run(h[..|h| - 1]), h[|h| - 1];
      SlotsAreConserved(h[..|h| - 1]);
      if step.Swap? {
        SwapConserves(g, step.cfg);
      } else {
        MoveConserves(g, step);
      }
    }
  }

  /** The limiter that a leaving request releases. */
  ghost function ReleasedBy(g: Gateway, step: Step): LimiterId
    requires Enabled(g, step) && (step.LeaveRoute? || step.LeaveGlobal?)
  {
    var q := g.requests[step.id];
    if step.LeaveRoute? then Route(q.gen, q.stage.route) else Global(q.gen)
  }

  /**
   * A release goes to the limiter of the generation that the request entered, even after reloads, and really
   * gives a slot back: it never meets an empty semaphore.
   */
  lemma ReleaseGivesBackASlot(h: seq<Step>, step: Step)
    requires Enabled(Run(h), step) && (step.LeaveRoute? || step.LeaveGlobal?)
    ensures var g := Run(h); var id := ReleasedBy(g, step);
      && step.id in Holders(g, id) && step.id !in Holders(After(g, step), id)
      && (id in g.limiters ==> After(g, step).limiters[id].inUse == g.limiters[id].inUse - 1 >= 0)
  {
    SlotsAreConserved(h);
    HolderNeedsASlot(Run(h), step.id, ReleasedBy(Run(h), step));
  }

  /** The numbers in the limiter are those of the requests, so it is full exactly when they reach the limit. */
  lemma FullIff(h: seq<Step>, id: LimiterId)
    ensures Run(h).Passes(id)
            <==> Limit(Run(h).configs, id) <= 0 || |Holders(Run(h), id)| < Limit(Run(h).configs, id)
  {
    SlotsAreConserved(h);
    assert Configured(Run(h), id) && Accounted(Run(h), id);
  }

  /** An arrived request gets past the global limiter exactly when there is no limit or fewer requests hold it. */
  lemma GlobalAdmitsIff(h: seq<Step>, id: nat)
    requires id in Run(h).requests && Run(h).requests[id].stage.Arrived?
    ensures var g := Run(h); var gen := g.requests[id].gen; var t := After(g, EnterGlobal(id));
      && gen < |g.configs|
      && var limit := g.configs[gen].maxConcurrency;
         (id in t.requests && t.requests[id].stage.InGlobal?
          <==> limit <= 0 || |Holders(g, Global(gen))| < limit)
  {
    SlotsAreConserved(h);
    FullIff(h, Global(Run(h).requests[id].gen));
  }

  /** The same for the limiter of the route that a request is for. */
  lemma RouteAdmitsIff(h: seq<Step>, id: nat, route: nat)
    requires Enabled(Run(h), EnterRoute(id, route))
    ensures var g := Run(h); var gen := g.requests[id].gen; var t := After(g, EnterRoute(id, route));
      var limit := g.configs[gen].routeLimits[route];
      t.requests[id].stage == InRoute(route) <==> limit <= 0 || |Holders(g, Route(gen, route))| < limit
  {
    FullIff(h, Route(Run(h).requests[id].gen, route));
  }

  /** The requests inside any route handler of a generation. */
  ghost function InRoutes(g: Gateway, gen: nat): set<nat> {
    set r | r in g.requests && g.requests[r].gen == gen && g.requests[r].stage.InRoute?
  }

  /** With a global limit, the requests inside all route handlers of one generation never exceed it. */
  lemma GlobalLimitCoversRoutes(h: seq<Step>, gen: nat)
    requires gen < |Run(h).configs| && Run(h).configs[gen].maxConcurrency > 0
    ensures |InRoutes(Run(h), gen)| <= Run(h).configs[gen].maxConcurrency
  {
    var g := Run(h);
    SlotsAreConserved(h);
    assert Configured(g, Global(gen)) && Accounted(g, Global(gen));
    assert InRoutes(g, gen) <= Holders(g, Global(gen));
    SubsetIsSmaller(InRoutes(g, gen), Holders(g, Global(gen)));
  }

  lemma SubsetIsSmaller(a: set<nat>, b: set<nat>)
    requires a <= b
    ensures |a| <= |b|
  {
    assert b == a + (b - a);
  }

  /** When every request has left, every limiter of every generation is empty again. */
  lemma DrainedLimitersAreEmpty(h: seq<Step>, id: LimiterId)
    requires Run(h).requests == map[] && id in Run(h).limiters
    ensures Run(h).limiters[id].inUse == 0
  {
    SlotsAreConserved(h);
    assert Accounted(Run(h), id);
    assert Holders(Run(h), id) == {};
  }
}
