/** Replacing the running configuration without a restart, with any number of overlapping attempts. */
module Reload {
  import opened Wrappers
  import opened Generations

  datatype Admin = Admin(enabled: bool, addr: string, token: string, metricsRequireToken: bool, pprofEnabled: bool)

  datatype RouteSettings = RouteSettings(maxConcurrency: int, rateLimitRPS: int)

  datatype Config = Config(
    serverAddr: string, shutdownTimeout: string, admin: Admin,
    maxConcurrency: int, rateLimitRPS: int, routes: seq<RouteSettings>)
  {
    function Addr(): string {
      if serverAddr == "" then ":8080" else serverAddr
    }

    /** The address of the admin listener, if there is one. */
    function AdminAddr(): string {
      if admin.enabled then admin.addr else ""
    }

    /** The concurrency limits of the runtime built from this configuration. */
    function Limits(): RuntimeConfig {
      RuntimeConfig(maxConcurrency, seq(|routes|, i requires 0 <= i < |routes| => routes[i].maxConcurrency))
    }
  }

  datatype Error =
    | NoConfigPath | LoadFailed | AddrChanged | ShutdownTimeoutChanged | AdminEnabledChanged | AdminAddrChanged
    | TokenChanged | MetricsRequireTokenChanged | PprofEnabledChanged | BuildFailed

  /** The settings that only a restart can change. */
  datatype RestartOnly = RestartOnly(
    addr: string, shutdownTimeout: string, adminEnabled: bool, adminAddr: string, token: string,
    metricsRequireToken: bool, pprofEnabled: bool)

  function RestartOnlyOf(c: Config): RestartOnly {
    RestartOnly(c.Addr(), c.shutdownTimeout, c.admin.enabled, c.AdminAddr(), c.admin.token,
                c.admin.metricsRequireToken, c.admin.pprofEnabled)
  }

  datatype Kind = MainHandler | RouteRuntime | ProxyHandler | RouteBucket | GlobalBucket | GlobalLimiter

  /** An object that a build creates: the number of the build, what it is, and of which route. */
  datatype Resource = Resource(build: nat, kind: Kind, index: nat)

  /** A built runtime. */
  datatype Bundle = Bundle(
    handler: Resource, routes: seq<Resource>, proxyHandlers: seq<Resource>, rateLimiters: seq<Resource>,
    healthCheckers: seq<Resource>, globalRateLimiter: Option<Resource>, globalConcurrencyLimiter: Option<Resource>)
  {
    /** What is closed when the runtime is replaced, in order. */
    function Closable(): seq<Resource> {
      proxyHandlers + rateLimiters + healthCheckers
    }
  }

  /** The objects of one kind, one for each of the first n routes. */
  function OnePerRoute(build: nat, kind: Kind, n: nat): seq<Resource> {
    seq(n, i requires 0 <= i < n => Resource(build, kind, i))
  }

  /** The token buckets of the routes that limit their rate. */
  ghost function RouteBuckets(routes: seq<RouteSettings>, build: nat): (buckets: seq<Resource>)
    ensures forall r :: r in buckets <==>
              r.build == build && r.kind.RouteBucket? && r.index < |routes| && routes[r.index].rateLimitRPS > 0
    ensures forall i, j | 0 <= i < j < |buckets| :: buckets[i] != buckets[j]
  {
    if routes == [] then []
    else
      var n := |routes| - 1;
      RouteBuckets(routes[..n], build) + (if routes[n].rateLimitRPS > 0 then [Resource(build, RouteBucket, n)] else [])
  }

  /** The runtime that build number `build` makes of a configuration. */
  ghost function BundleOf(c: Config, build: nat): Bundle {
    var bucket := if c.rateLimitRPS > 0 then Some(Resource(build, GlobalBucket, 0)) else None;
    Bundle(Resource(build, MainHandler, 0),
           OnePerRoute(build, RouteRuntime, |c.routes|), OnePerRoute(build, ProxyHandler, |c.routes|),
           RouteBuckets(c.routes, build) + (if bucket.Some? then [bucket.value] else []),
           [],
           bucket,
           if c.maxConcurrency > 0 then Some(Resource(build, GlobalLimiter, 0)) else None)
  }

  lemma OneMoreRoute(cs: seq<RouteSettings>, build: nat, i: nat)
    requires i < |cs|
    ensures OnePerRoute(build, RouteRuntime, i + 1) == OnePerRoute(build, RouteRuntime, i)
                                                       + [Resource(build, RouteRuntime, i)]
    ensures OnePerRoute(build, ProxyHandler, i + 1) == OnePerRoute(build, ProxyHandler, i)
                                                       + [Resource(build, ProxyHandler, i)]
    ensures RouteBuckets(cs[..i + 1], build)
         == RouteBuckets(cs[..i], build) + (if cs[i].rateLimitRPS > 0 then [Resource(build, RouteBucket, i)] else [])
  {
    assert cs[..i + 1][..i] == cs[..i];
  }

  method RegisterRoutes(cs: seq<RouteSettings>, build: nat)
    returns (routes: seq<Resource>, proxyHandlers: seq<Resource>, rateLimiters: seq<Resource>)
    ensures routes == OnePerRoute(build, RouteRuntime, |cs|) && proxyHandlers == OnePerRoute(build, ProxyHandler, |cs|)
    ensures rateLimiters == RouteBuckets(cs, build)
  {
    routes, proxyHandlers, rateLimiters := [], [], [];
    for i := 0 to |cs|
      invariant routes == OnePerRoute(build, RouteRuntime, i) && proxyHandlers == OnePerRoute(build, ProxyHandler, i)
      invariant rateLimiters == RouteBuckets(cs[..i], build)
    {
      OneMoreRoute(cs, build, i);
      if cs[i].rateLimitRPS > 0 {
        rateLimiters := rateLimiters + [Resource(build, RouteBucket, i)];
      }
      routes := routes + [Resource(build, RouteRuntime, i)];
      proxyHandlers := proxyHandlers + [Resource(build, ProxyHandler, i)];
    }
    assert cs[..|cs|] == cs;
  }

  method BuildRuntime(c: Config, build: nat) returns (b: Bundle)
    ensures b == BundleOf(c, build)
  {
    var routes, proxyHandlers, rateLimiters := RegisterRoutes(c.routes, build);
    var globalConcurrencyLimiter, globalRateLimiter := None, None;
    if c.maxConcurrency > 0 {
      globalConcurrencyLimiter := Some(Resource(build, GlobalLimiter, 0));
    }
    if c.rateLimitRPS > 0 {
      globalRateLimiter := Some(Resource(build, GlobalBucket, 0));
      rateLimiters := rateLimiters + [globalRateLimiter.value];
    }
    b := Bundle(Resource(build, MainHandler, 0), routes, proxyHandlers, rateLimiters, [], globalRateLimiter,
                globalConcurrencyLimiter);
  }

  /**
   * Closing a runtime reaches each of its proxy handlers and token buckets exactly once, and nothing of another
   * build.
   */
  lemma ClosableOnce(c: Config, build: nat)
    ensures var rs := BundleOf(c, build).Closable();
      && (forall i, j | 0 <= i < j < |rs| :: rs[i] != rs[j])
      && (forall r :: r in rs <==>
            && r.build == build
            && (|| (r.kind.ProxyHandler? && r.index < |c.routes|)
                || (r.kind.RouteBucket? && r.index < |c.routes| && c.routes[r.index].rateLimitRPS > 0)
                || (r.kind.GlobalBucket? && r.index == 0 && c.rateLimitRPS > 0)))
  {
    var proxies := OnePerRoute(build, ProxyHandler, |c.routes|);
    forall r ensures r in proxies <==> r.build == build && r.kind.ProxyHandler? && r.index < |c.routes| {
      if r.build == build && r.kind.ProxyHandler? && r.index < |c.routes| {
        assert proxies[r.index] == r;
      }
    }
  }

  /**
   * The runtime of a configuration has a route and a proxy handler for each route, and a global limiter or bucket
   * exactly when one is configured, the bucket among those that are closed.
   */
  lemma BundleMatches(c: Config, build: nat)
    ensures var b := BundleOf(c, build);
      && |b.routes| == |b.proxyHandlers| == |c.routes|
      && (forall i: nat | i < |c.routes| :: b.routes[i] == Resource(build, RouteRuntime, i)
                                            && b.proxyHandlers[i] == Resource(build, ProxyHandler, i))
      && (b.globalConcurrencyLimiter.Some? <==> c.maxConcurrency > 0)
      && (b.globalRateLimiter.Some? <==> c.rateLimitRPS > 0)
      && (b.globalRateLimiter.Some? ==> b.globalRateLimiter.value in b.rateLimiters)
    ensures c.Limits().maxConcurrency == c.maxConcurrency && |c.Limits().routeLimits| == |c.routes|
    ensures forall i | 0 <= i < |c.routes| :: c.Limits().routeLimits[i] == c.routes[i].maxConcurrency
  {
  }

  /** The fields of the server that a reload reads or writes. */
  datatype ServerValue = ServerValue(
    httpAddr: string, adminEnabled: bool, adminAddr: string, adminToken: string, metricsRequireToken: bool,
    pprofEnabled: bool, currentConfig: Config, fields: Bundle)
  {
    /** What the listeners were started with, and the shutdown timeout in force. */
    function Running(): RestartOnly {
      RestartOnly(httpAddr, currentConfig.shutdownTimeout, adminEnabled, adminAddr, adminToken, metricsRequireToken,
                  pprofEnabled)
    }

    predicate Accepts(c: Config) {
      RestartOnlyOf(c) == Running()
    }

    function Installed(c: Config, b: Bundle): ServerValue {
      this.(currentConfig := c, fields := b)
    }
  }

  /** The server of a newly started process; its runtime is build 0. */
  ghost function Started(c: Config): ServerValue {
    ServerValue(c.Addr(), c.admin.enabled, c.AdminAddr(), c.admin.token, c.admin.metricsRequireToken,
                c.admin.pprofEnabled, c, BundleOf(c, 0))
  }

  class Server {
    const configPath: string
    const httpAddr: string
    const adminEnabled: bool
    const adminAddr: string
    const adminToken: string
    const metricsRequireToken: bool
    const pprofEnabled: bool
    var currentConfig: Config
    var mainHandler: Resource
    var routes: seq<Resource>
    var proxyHandlers: seq<Resource>
    var rateLimiters: seq<Resource>
    var healthCheckers: seq<Resource>
    var globalRateLimiter: Option<Resource>
    var globalConcurrencyLimiter: Option<Resource>

    constructor (cfg: Config, configPath: string)
      ensures Value() == Started(cfg) && this.configPath == configPath
    {
      var b := BuildRuntime(cfg, 0);
      this.configPath := configPath;
      httpAddr := cfg.Addr();
      adminEnabled, adminAddr, adminToken := cfg.admin.enabled, cfg.AdminAddr(), cfg.admin.token;
      metricsRequireToken, pprofEnabled := cfg.admin.metricsRequireToken, cfg.admin.pprofEnabled;
      currentConfig, mainHandler, routes, proxyHandlers := cfg, b.handler, b.routes, b.proxyHandlers;
      rateLimiters, healthCheckers := b.rateLimiters, b.healthCheckers;
      globalRateLimiter, globalConcurrencyLimiter := b.globalRateLimiter, b.globalConcurrencyLimiter;
    }

    function Value(): ServerValue
      reads this
    {
      ServerValue(httpAddr, adminEnabled, adminAddr, adminToken, metricsRequireToken, pprofEnabled, currentConfig,
                  Bundle(mainHandler, routes, proxyHandlers, rateLimiters, healthCheckers, globalRateLimiter,
                         globalConcurrencyLimiter))
    }

    /** Reads the fields under a read lock, and compares afterwards. */
    method ValidateReloadConfig(c: Config) returns (e: Option<Error>)
      ensures e.None? <==> Value().Accepts(c)
      ensures e.Some? ==> e.value != NoConfigPath && e.value != LoadFailed && e.value != BuildFailed
    {
      if c.Addr() != httpAddr {
        return Some(AddrChanged);
      }
      if c.shutdownTimeout != currentConfig.shutdownTimeout {
        return Some(ShutdownTimeoutChanged);
      }
      if c.admin.enabled != adminEnabled {
        return Some(AdminEnabledChanged);
      }
      if c.AdminAddr() != adminAddr {
        return Some(AdminAddrChanged);
      }
      if c.admin.token != adminToken {
        return Some(TokenChanged);
      }
      if c.admin.metricsRequireToken != metricsRequireToken {
        return Some(MetricsRequireTokenChanged);
      }
      if c.admin.pprofEnabled != pprofEnabled {
        return Some(PprofEnabledChanged);
      }
      return None;
    }

    /** The part of a reload that holds the lock: installs a runtime and hands back what it replaces. */
    method Swap(c: Config, b: Bundle) returns (replaced: seq<Resource>)
      modifies this
      ensures Value() == old(Value()).Installed(c, b) && replaced == old(Value()).fields.Closable()
    {
      replaced := proxyHandlers + rateLimiters + healthCheckers;
      routes := b.routes;
      proxyHandlers := b.proxyHandlers;
      rateLimiters := b.rateLimiters;
      healthCheckers := b.healthCheckers;
      globalRateLimiter := b.globalRateLimiter;
      globalConcurrencyLimiter := b.globalConcurrencyLimiter;
      currentConfig := c;
      mainHandler := b.handler;
    }

    /**
     * A reload that no other overlaps. `loaded` is what reading the file gave, `builds` whether a runtime can be
     * built from it, and `build` the number of that build. The new runtime is installed whole and the replaced
     * one closed, or the reload fails, changes nothing and closes nothing.
     */
    method Reload(loaded: Option<Config>, builds: bool, build: nat) returns (e: Option<Error>, closed: seq<Resource>)
      modifies this
      ensures e.None? <==> configPath != "" && loaded.Some? && old(Value()).Accepts(loaded.value) && builds
      ensures e.None? ==> && Value() == old(Value()).Installed(loaded.value, BundleOf(loaded.value, build))
                          && closed == old(Value()).fields.Closable()
      ensures e.Some? ==> Value() == old(Value()) && closed == []
    {
      closed := [];
      if configPath == "" {
        return Some(NoConfigPath), closed;
      }
      if loaded.None? {
        return Some(LoadFailed), closed;
      }
      e := ValidateReloadConfig(loaded.value);
      if e.Some? {
        return;
      }
      if !builds {
        return Some(BuildFailed), closed;
      }
      var b := BuildRuntime(loaded.value, build);
      closed := Swap(loaded.value, b);
    }
  }

  /** How far an attempt has come. Only validation and the swap hold the lock; everything else overlaps freely. */
  datatype Phase =
    | Loaded(cfg: Config)
    | Validated(cfg: Config)
    | Built(build: nat)
    | Closing(build: nat, replaced: seq<Resource>, next: nat)

  /** What a build was made from, and what it made. */
  datatype Made = Made(cfg: Config, bundle: Bundle)

  /**
   * The server and all attempts under way. `builds` lists all builds, `served` those that were installed, and
   * `closed` what has been closed, each in order.
   */
  datatype System = System(
    server: ServerValue, attempts: map<nat, Phase>, builds: seq<Made>, served: seq<nat>, closed: seq<Resource>)

  datatype Step =
    | Load(id: nat, cfg: Config)
    | Validate(id: nat)
    | Build(id: nat, ok: bool)
    | SwapIn(id: nat)
    | CloseNext(id: nat)

  ghost predicate Enabled(s: System, step: Step) {
    match step
    case Load(id, _) => id !in s.attempts
    case Validate(id) => id in s.attempts && s.attempts[id].Loaded?
    case Build(id, _) => id in s.attempts && s.attempts[id].Validated?
    case SwapIn(id) => id in s.attempts && s.attempts[id].Built? && s.attempts[id].build < |s.builds|
    case CloseNext(id) => id in s.attempts && s.attempts[id].Closing?
  }

  ghost function At(s: System, id: nat, p: Phase): System {
    s.(attempts := s.attempts[id := p])
  }

  ghost function Ended(s: System, id: nat): System {
    s.(attempts := s.attempts - {id})
  }

  ghost function After(s: System, step: Step): System {
    if !Enabled(s, step) then s else
    match step
    case Load(id, cfg) => At(s, id, Loaded(cfg))
    case Validate(id) =>
      var cfg := s.attempts[id].cfg;
      if s.server.Accepts(cfg) then At(s, id, Validated(cfg)) else Ended(s, id)
    case Build(id, ok) =>
      var cfg, g := s.attempts[id].cfg, |s.builds|;
      if ok then At(s, id, Built(g)).(builds := s.builds + [Made(cfg, BundleOf(cfg, g))]) else Ended(s, id)
    case SwapIn(id) =>
      var g := s.attempts[id].build;
      At(s, id, Closing(s.server.fields.handler.build, s.server.fields.Closable(), 0))
      .(server := s.server.Installed(s.builds[g].cfg, s.builds[g].bundle), served := s.served + [g])
    case CloseNext(id) =>
      var p := s.attempts[id];
      if p.next < |p.replaced| then At(s, id, p.(next := p.next + 1)).(closed := s.closed + [p.replaced[p.next]])
      else Ended(s, id)
  }

  ghost function Initially(first: Config): System {
    System(Started(first), map[], [Made(first, BundleOf(first, 0))], [0], [])
  }

  ghost function Run(first: Config, h: seq<Step>): System {
    if h == [] then Initially(first) else After(Run(first, h[..|h| - 1]), h[|h| - 1])
  }

  ghost function Serving(s: System): nat
    requires s.served != []
  {
    s.served[|s.served| - 1]
  }

  ghost function ClosableOf(s: System, g: nat): seq<Resource>
    requires g < |s.builds|
  {
    s.builds[g].bundle.Closable()
  }

  /** The resources are those of build g, each once. */
  ghost predicate Owned(rs: seq<Resource>, g: nat) {
    (forall r | r in rs :: r.build == g) && forall i, j | 0 <= i < j < |rs| :: rs[i] != rs[j]
  }

  ghost predicate OwnedApart(s: System) {
    forall g: nat | g < |s.builds| :: Owned(ClosableOf(s, g), g)
  }

  /** The server serves, reports and accepts what belongs to the last build installed. */
  ghost predicate WellServed(s: System, first: Config) {
    s.served != [] && Serving(s) < |s.builds| &&
    var made := s.builds[Serving(s)];
    s.server == Started(first).Installed(made.cfg, made.bundle) && made.bundle.handler.build == Serving(s)
  }

  /** Every build made the runtime of its configuration. */
  ghost predicate WellBuilt(s: System) {
    forall g: nat | g < |s.builds| :: s.builds[g].bundle == BundleOf(s.builds[g].cfg, g)
  }

  /** Whatever was built or validated has the restart-only settings of the first configuration. */
  ghost predicate SettingsKept(s: System, first: Config) {
    && (forall made | made in s.builds :: RestartOnlyOf(made.cfg) == RestartOnlyOf(first))
    && (forall id | id in s.attempts && s.attempts[id].Validated? ::
          RestartOnlyOf(s.attempts[id].cfg) == RestartOnlyOf(first))
  }

  /** An attempt that holds a build which has never been installed. */
  ghost predicate Holds(s: System, id: nat, g: nat) {
    id in s.attempts && s.attempts[id] == Built(g)
  }

  /** An attempt that replaced build g and is closing it. */
  ghost predicate Retires(s: System, id: nat, g: nat) {
    id in s.attempts && s.attempts[id].Closing? && s.attempts[id].build == g
  }

  /** No build is installed twice; one not installed is held by one attempt. */
  ghost predicate HeldOnce(s: System) {
    && s.served != []
    && (forall i, j | 0 <= i < j < |s.served| :: s.served[i] != s.served[j])
    && (forall g | g in s.served :: g < |s.builds|)
    && (forall id, g: nat | Holds(s, id, g) :: g < |s.builds| && g !in s.served)
    && (forall i, j, g | Holds(s, i, g) && Holds(s, j, g) :: i == j)
    && (forall g: nat | g < |s.builds| && g !in s.served :: exists id :: Holds(s, id, g))
  }

  ghost predicate Replaced(s: System, g: nat) {
    g in s.served && s.served != [] && g != Serving(s)
  }

  /** An attempt that closes a build goes through what the build owns, and has closed all before `next`. */
  ghost predicate ClosesInOrder(s: System, id: nat, g: nat)
    requires Retires(s, id, g)
  {
    var p := s.attempts[id];
    && Replaced(s, g) && g < |s.builds| && p.replaced == ClosableOf(s, g) && p.next <= |p.replaced|
    && forall k | 0 <= k < |p.replaced| :: p.replaced[k] in s.closed <==> k < p.next
  }

  /** The build is being closed, or has been closed entirely. */
  ghost predicate Underway(s: System, g: nat)
    requires g < |s.builds|
  {
    (exists id :: Retires(s, id, g)) || forall r | r in ClosableOf(s, g) :: r in s.closed
  }

  /** Only replaced builds are closed, each by one attempt and nothing of it twice. */
  ghost predicate ClosedOnce(s: System) {
    && (forall i, j | 0 <= i < j < |s.closed| :: s.closed[i] != s.closed[j])
    && (forall r | r in s.closed :: Replaced(s, r.build))
    && (forall i, j, g | Retires(s, i, g) && Retires(s, j, g) :: i == j)
    && (forall id, g | Retires(s, id, g) :: ClosesInOrder(s, id, g))
    && (forall g: nat | Replaced(s, g) && g < |s.builds| :: Underway(s, g))
  }

  lemma StepKeepsServing(s: System, step: Step, first: Config)
    requires WellServed(s, first) && WellBuilt(s)
    ensures WellServed(After(s, step), first)
  {
    if step.SwapIn? && Enabled(s, step) {
      SwapServes(s, step.id, first);
    } else {
      assert s.builds[Serving(s)] == s.builds[..|s.builds|][Serving(s)];
      OthersLeaveServer(s, step);
    }
  }

  lemma OthersLeaveServer(s: System, step: Step)
    requires !(step.SwapIn? && Enabled(s, step))
    ensures var t := After(s, step);
      t.server == s.server && t.served == s.served && |t.builds| >= |s.builds| && t.builds[..|s.builds|] == s.builds
  {
  }

  lemma SwapServes(s: System, id: nat, first: Config)
    requires WellServed(s, first) && WellBuilt(s) && Enabled(s, SwapIn(id))
    ensures WellServed(After(s, SwapIn(id)), first)
  {
    var t, g := After(s, SwapIn(id)), s.attempts[id].build;
    assert t.served == s.served + [g] && t.builds == s.builds;
    assert s.builds[g].bundle.handler.build == g;
  }

  lemma StepKeepsBuilds(s: System, step: Step)
    requires WellBuilt(s)
    ensures WellBuilt(After(s, step))
  {
  }

  lemma BuildsOwnApart(s: System)
    requires WellBuilt(s)
    ensures OwnedApart(s)
  {
    forall g: nat | g < |s.builds| ensures Owned(ClosableOf(s, g), g) {
      ClosableOnce(s.builds[g].cfg, g);
    }
  }

  lemma RunningKept(s: System, first: Config)
    requires WellServed(s, first) && SettingsKept(s, first)
    ensures s.server.Running() == RestartOnlyOf(first)
  {
    assert s.builds[Serving(s)] in s.builds;
  }

  lemma StepKeepsSettings(s: System, step: Step, first: Config)
    requires WellServed(s, first) && SettingsKept(s, first)
    ensures SettingsKept(After(s, step), first)
  {
    if step.Validate? && Enabled(s, step) {
      RunningKept(s, first);
    }
  }

  /** A step that builds nothing and installs nothing leaves every build with its holder. */
  lemma HoldersStay(s: System, step: Step)
    requires HeldOnce(s) && Enabled(s, step) && !step.SwapIn? && !(step.Build? && step.ok)
    ensures HeldOnce(After(s, step))
  {
    var t := After(s, step);
    assert t.served == s.served && t.builds == s.builds;
    assert forall id, g: nat :: Holds(t, id, g) <==> Holds(s, id, g);
  }

  lemma NewBuildIsHeld(s: System, id: nat)
    requires HeldOnce(s) && Enabled(s, Build(id, true))
    ensures HeldOnce(After(s, Build(id, true)))
  {
    var t := After(s, Build(id, true));
    assert forall i, g: nat :: Holds(t, i, g) <==> Holds(s, i, g) || (i == id && g == |s.builds|);
    assert t.served == s.served && |t.builds| == |s.builds| + 1;
    forall g: nat | g < |t.builds| && g !in t.served ensures exists i :: Holds(t, i, g) {
      if g == |s.builds| {
        assert Holds(t, id, g);
      } else {
        var i :| Holds(s, i, g);
        assert Holds(t, i, g);
      }
    }
  }

  lemma InstalledBuildIsServed(s: System, id: nat)
    requires HeldOnce(s) && Enabled(s, SwapIn(id))
    ensures HeldOnce(After(s, SwapIn(id)))
  {
    var t, n := After(s, SwapIn(id)), s.attempts[id].build;
    assert Holds(s, id, n);
    assert forall i, g: nat :: Holds(t, i, g) <==> Holds(s, i, g) && i != id;
    assert t.served == s.served + [n] && t.builds == s.builds;
    forall g: nat | g < |t.builds| && g !in t.served ensures exists i :: Holds(t, i, g) {
      assert g !in s.served && g != n;
      var i :| Holds(s, i, g);
      assert Holds(t, i, g);
    }
  }

  lemma StepKeepsHolders(s: System, step: Step)
    requires HeldOnce(s)
    ensures HeldOnce(After(s, step))
  {
    if Enabled(s, step) {
      if step.SwapIn? {
        InstalledBuildIsServed(s, step.id);
      } else if step.Build? && step.ok {
        NewBuildIsHeld(s, step.id);
      } else {
        HoldersStay(s, step);
      }
    }
  }

  /** A step that neither installs nor closes anything leaves all closing where it is. */
  lemma ClosingStays(s: System, step: Step)
    requires HeldOnce(s) && ClosedOnce(s) && Enabled(s, step) && !step.SwapIn? && !step.CloseNext?
    ensures ClosedOnce(After(s, step))
  {
    var t := After(s, step);
    assert t.served == s.served && t.closed == s.closed;
    assert forall g: nat | g < |s.builds| :: g < |t.builds| && t.builds[g] == s.builds[g];
    assert forall id, g: nat :: Retires(t, id, g) <==> Retires(s, id, g);
    forall g: nat | Replaced(t, g) && g < |t.builds| ensures Underway(t, g) {
      assert Replaced(s, g) && g < |s.builds| && Underway(s, g) && ClosableOf(t, g) == ClosableOf(s, g);
    }
    forall id, g: nat | Retires(t, id, g) ensures ClosesInOrder(t, id, g) {
      assert Retires(s, id, g) && ClosesInOrder(s, id, g);
      assert t.attempts[id] == s.attempts[id];
    }
  }

  lemma NothingServedIsClosed(s: System, g: nat, r: Resource)
    requires OwnedApart(s) && ClosedOnce(s) && g < |s.builds| && !Replaced(s, g) && r in ClosableOf(s, g)
    ensures r !in s.closed
  {
    assert Owned(ClosableOf(s, g), g);
  }

  lemma SwapStartsClosing(s: System, id: nat, first: Config)
    requires WellServed(s, first) && OwnedApart(s) && HeldOnce(s) && ClosedOnce(s) && Enabled(s, SwapIn(id))
    ensures ClosedOnce(After(s, SwapIn(id)))
  {
    var t, before, now := After(s, SwapIn(id)), Serving(s), s.attempts[id].build;
    assert Holds(s, id, now) && before in s.served;
    assert t.served == s.served + [now] && t.builds == s.builds && t.closed == s.closed;
    assert forall g: nat :: Replaced(t, g) <==> Replaced(s, g) || g == before;
    assert forall i, g: nat :: Retires(t, i, g) <==> Retires(s, i, g) || (i == id && g == before);
    assert t.attempts[id] == Closing(before, ClosableOf(s, before), 0);
    forall i, g: nat | Retires(t, i, g) ensures ClosesInOrder(t, i, g) {
      if i == id {
        forall r | r in ClosableOf(s, before) ensures r !in s.closed {
          NothingServedIsClosed(s, before, r);
        }
      } else {
        assert ClosesInOrder(s, i, g) && t.attempts[i] == s.attempts[i];
      }
    }
    forall i, j, g: nat | Retires(t, i, g) && Retires(t, j, g) ensures i == j {
      assert i != id && Retires(s, i, g) ==> ClosesInOrder(s, i, g);
      assert j != id && Retires(s, j, g) ==> ClosesInOrder(s, j, g);
    }
    forall g: nat | Replaced(t, g) && g < |t.builds| ensures Underway(t, g) {
      if g == before {
        assert Retires(t, id, g);
      } else {
        assert Underway(s, g);
      }
    }
  }

  lemma OneMoreClosed(s: System, id: nat)
    requires OwnedApart(s) && ClosedOnce(s) && Enabled(s, CloseNext(id))
    requires s.attempts[id].next < |s.attempts[id].replaced|
    ensures ClosedOnce(After(s, CloseNext(id)))
  {
    var t, p := After(s, CloseNext(id)), s.attempts[id];
    assert Retires(s, id, p.build) && ClosesInOrder(s, id, p.build) && Owned(p.replaced, p.build);
    var x := p.replaced[p.next];
    assert x !in s.closed && x.build == p.build && t.closed == s.closed + [x];
    assert t.served == s.served && t.builds == s.builds;
    assert forall i, g: nat :: Retires(t, i, g) <==> Retires(s, i, g);
    forall i, g: nat | Retires(t, i, g) ensures ClosesInOrder(t, i, g) {
      assert ClosesInOrder(s, i, g) && Owned(ClosableOf(s, g), g);
    }
    forall g: nat | Replaced(t, g) && g < |t.builds| ensures Underway(t, g) {
      assert Underway(s, g);
    }
  }

  lemma AllClosed(s: System, id: nat)
    requires ClosedOnce(s) && Enabled(s, CloseNext(id)) && s.attempts[id].next >= |s.attempts[id].replaced|
    ensures ClosedOnce(After(s, CloseNext(id)))
  {
    var t, p := After(s, CloseNext(id)), s.attempts[id];
    assert Retires(s, id, p.build) && ClosesInOrder(s, id, p.build);
    assert t.served == s.served && t.builds == s.builds && t.closed == s.closed;
    assert forall i, g: nat :: Retires(t, i, g) <==> Retires(s, i, g) && i != id;
    forall i, g: nat | Retires(t, i, g) ensures ClosesInOrder(t, i, g) {
      assert ClosesInOrder(s, i, g);
    }
    forall g: nat | Replaced(t, g) && g < |t.builds| ensures Underway(t, g) {
      assert Underway(s, g);
    }
  }

  lemma StepKeepsClosing(s: System, step: Step, first: Config)
    requires WellServed(s, first) && WellBuilt(s) && HeldOnce(s) && ClosedOnce(s)
    ensures ClosedOnce(After(s, step))
  {
    BuildsOwnApart(s);
    if Enabled(s, step) {
      match step
      case SwapIn(id) => SwapStartsClosing(s, id, first);
      case CloseNext(id) =>
        if s.attempts[id].next < |s.attempts[id].replaced| {
          OneMoreClosed(s, id);
        } else {
          AllClosed(s, id);
        }
      case _ => ClosingStays(s, step);
    }
  }

  ghost predicate Sound(s: System, first: Config) {
    WellServed(s, first) && WellBuilt(s) && SettingsKept(s, first) && HeldOnce(s) && ClosedOnce(s)
  }

  lemma {:induction false} EveryRunIsSound(first: Config, h: seq<Step>)
    ensures Sound(Run(first, h), first)
  {
    if h != [] {
      var s, step := Run(first, h[..|h| - 1]), h[|h| - 1];
      EveryRunIsSound(first, h[..|h| - 1]);
      StepKeepsServing(s, step, first);
      StepKeepsBuilds(s, step);
      StepKeepsSettings(s, step, first);
      StepKeepsHolders(s, step);
      StepKeepsClosing(s, step, first);
    }
  }

  /**
   * However attempts overlap, the restart-only settings stay what the process started with, although an attempt
   * may install over a configuration that it was not validated against; and all fields of the server belong to
   * the one runtime built from the configuration in force.
   */
  lemma ReloadsKeepServerWhole(first: Config, h: seq<Step>)
    ensures var s := Run(first, h);
      && s.server.Running() == RestartOnlyOf(s.server.currentConfig) == RestartOnlyOf(first)
      && s.served != [] && s.server.fields == BundleOf(s.server.currentConfig, Serving(s))
  {
    EveryRunIsSound(first, h);
    RunningKept(Run(first, h), first);
  }

  /**
   * Validation compares each restart-only setting with the one the process started with: in every reachable state a
   * configuration is accepted exactly when all of them agree, an empty listen address standing for `:8080` and the
   * admin address mattering only while admin is enabled.
   */
  lemma AcceptedIff(first: Config, h: seq<Step>, c: Config)
    ensures Run(first, h).server.Accepts(c)
            <==> && (|| c.serverAddr == first.serverAddr
                     || (c.serverAddr == "" && first.serverAddr == ":8080")
                     || (c.serverAddr == ":8080" && first.serverAddr == ""))
                 && c.shutdownTimeout == first.shutdownTimeout
                 && c.admin.enabled == first.admin.enabled
                 && (first.admin.enabled ==> c.admin.addr == first.admin.addr)
                 && c.admin.token == first.admin.token
                 && c.admin.metricsRequireToken == first.admin.metricsRequireToken
                 && c.admin.pprofEnabled == first.admin.pprofEnabled
  {
    EveryRunIsSound(first, h);
    RunningKept(Run(first, h), first);
  }

  /** In every reachable state an acceptable configuration that builds is installed by an attempt that goes on. */
  lemma AttemptInstalls(first: Config, h: seq<Step>, id: nat, c: Config)
    requires id !in Run(first, h).attempts && Run(first, h).server.Accepts(c)
    ensures var s := Run(first, h);
      var t := After(After(After(After(s, Load(id, c)), Validate(id)), Build(id, true)), SwapIn(id));
      && t.server.currentConfig == c && t.server.fields == BundleOf(c, |s.builds|)
      && t.attempts.Keys == s.attempts.Keys + {id} && t.closed == s.closed
  {
  }

  /**
   * However attempts overlap, nothing is closed twice, nothing of the serving runtime or of one not yet installed
   * is closed, and when no attempt is under way everything of every other runtime ever built has been closed.
   */
  lemma ReplacedRuntimesAreClosedOnce(first: Config, h: seq<Step>)
    ensures var s := Run(first, h);
      && (forall i, j | 0 <= i < j < |s.closed| :: s.closed[i] != s.closed[j])
      && (forall r | r in s.closed :: Replaced(s, r.build))
      && (forall r | r in s.server.fields.Closable() :: r !in s.closed)
      && s.served != []
      && (s.attempts == map[] ==>
            forall g: nat, r | g < |s.builds| && r in ClosableOf(s, g) :: r in s.closed <==> g != Serving(s))
  {
    EveryRunIsSound(first, h);
    var s := Run(first, h);
    BuildsOwnApart(s);
    forall r | r in s.server.fields.Closable() ensures r !in s.closed {
      NothingServedIsClosed(s, Serving(s), r);
    }
    if s.attempts == map[] {
      forall g: nat, r | g < |s.builds| && r in ClosableOf(s, g) ensures r in s.closed <==> g != Serving(s) {
        assert forall id :: !Holds(s, id, g) && !Retires(s, id, g);
        if g == Serving(s) {
          NothingServedIsClosed(s, g, r);
        } else {
          assert Replaced(s, g);
        }
      }
    }
  }

  /** The limits of the installed runtimes, in order of installation. */
  ghost function LimitsInstalled(builds: seq<Made>, served: seq<nat>): seq<RuntimeConfig> {
    if served == [] then []
    else
      var g := served[|served| - 1];
      LimitsInstalled(builds, served[..|served| - 1]) + (if g < |builds| then [builds[g].cfg.Limits()] else [])
  }

  /** The configurations that a run of the limiters swaps in. */
  ghost function SwappedIn(run: seq<Generations.Step>): seq<RuntimeConfig> {
    if run == [] then []
    else
      var step := run[|run| - 1];
      SwappedIn(run[..|run| - 1]) + (if step.Swap? then [step.cfg] else [])
  }

  lemma {:induction false} ConfigsAreSwappedIn(run: seq<Generations.Step>)
    ensures Generations.Run(run).configs == SwappedIn(run)
  {
    if run != [] {
      ConfigsAreSwappedIn(run[..|run| - 1]);
    }
  }

  /**
   * New requests meet the limiters of the configuration in force: in every run of requests through the limiters in
   * which the runtimes are swapped in as the reloads install them, whatever the requests do in between.
   */
  lemma ServingLimitsAreInForce(first: Config, h: seq<Step>, run: seq<Generations.Step>, id: nat)
    requires var s := Run(first, h); SwappedIn(run) == LimitsInstalled(s.builds, s.served)
    requires id !in Generations.Run(run).requests
    ensures var g := Generations.After(Generations.Run(run), Arrive(id));
      && id in g.requests && g.requests[id].gen < |g.configs|
      && g.configs[g.requests[id].gen] == Run(first, h).server.currentConfig.Limits()
  {
    LastInstalledIsInForce(first, h);
    ConfigsAreSwappedIn(run);
    ArrivalMeetsLast(Generations.Run(run), id);
  }

  lemma LastInstalledIsInForce(first: Config, h: seq<Step>)
    ensures var s := Run(first, h); var limits := LimitsInstalled(s.builds, s.served);
      limits != [] && limits[|limits| - 1] == s.server.currentConfig.Limits()
  {
    EveryRunIsSound(first, h);
    LastLimits(Run(first, h).builds, Run(first, h).served);
  }

  lemma LastLimits(builds: seq<Made>, served: seq<nat>)
    requires served != [] && served[|served| - 1] < |builds|
    ensures var limits := LimitsInstalled(builds, served);
      limits != [] && limits[|limits| - 1] == builds[served[|served| - 1]].cfg.Limits()
  {
  }

  lemma ArrivalMeetsLast(g: Gateway, id: nat)
    requires id !in g.requests && g.configs != []
    ensures var t := Generations.After(g, Arrive(id));
      id in t.requests && t.configs == g.configs && t.requests[id].gen == |g.configs| - 1
  {
  }
}
