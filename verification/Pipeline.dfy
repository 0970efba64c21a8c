/** The semantic checks on a configuration and the handlers built from it: both compute the
    effective chain of a route, and the checks guarantee the shape of what is built. */
module Pipeline {
  import opened GatewayConfig
  import opened Resolve
  import opened Router
  import opened Settings
  import opened Wrappers
  import TB = TokenBucket

  // ---------- The effective chain ----------

  /** The entries that a route does not skip. */
  function Kept(resolved: seq<ResolvedMiddleware>, skip: seq<string>): seq<ResolvedMiddleware> {
    if resolved == [] then []
    else
      var before, m := Kept(resolved[..|resolved| - 1], skip), resolved[|resolved| - 1];
      if m.name in skip then before else before + [m]
  }

  function OfKind(chain: seq<ResolvedMiddleware>, transforms: bool): seq<ResolvedMiddleware> {
    if chain == [] then []
    else
      var before, m := OfKind(chain[..|chain| - 1], transforms), chain[|chain| - 1];
      if (m.kind == "transform") == transforms then before + [m] else before
  }

  predicate IsCors(m: ResolvedMiddleware) {
    m.kind == "cors"
  }

  predicate KeyedByClaim(m: ResolvedMiddleware) {
    m.kind == "rate_limit" && m.config.RateLimit? && "claim:" <= m.config.rateLimit.keySource
  }

  /** CORS comes first, and therefore at most once. */
  predicate CorsFirst(chain: seq<ResolvedMiddleware>) {
    forall i :: 0 <= i < |chain| && chain[i].kind == "cors" ==> i == 0
  }

  /** Every limiter keyed by a claim has an auth entry before it. */
  predicate ClaimsGuarded(chain: seq<ResolvedMiddleware>) {
    forall i :: (0 <= i < |chain| && chain[i].kind == "rate_limit" && chain[i].config.RateLimit?
                 && "claim:" <= chain[i].config.rateLimit.keySource) ==> AuthBefore(chain, i)
  }

  predicate AuthBefore(chain: seq<ResolvedMiddleware>, i: nat)
    requires i <= |chain|
  {
    exists j :: 0 <= j < i && chain[j].kind == "auth"
  }

  // ---------- Validation ----------

  datatype SemanticError =
    | DuplicateRoute(name: string)
    | GlobalUnresolved(cause: ResolveError)
    | BadPathRegex(name: string)
    | BadHost(name: string)
    | BadHeaderRegex(name: string, header: string)
    | UnknownSkip(name: string, skip: string)
    | RouteUnresolved(name: string, cause: ResolveError)
    | CorsNotFirst(name: string, middleware: string, position: nat)
    | ManyCors(name: string, count: nat)
    | ClaimWithoutAuth(name: string, middleware: string)
    // The route is absent for an entry of the global list.
    | BadSetting(route: Option<string>, middleware: string, error: SettingError)

  predicate HeadersCompile(c: Context, headers: map<string, string>) {
    forall h :: h in headers && headers[h] != "*" ==> c.compiles("^(?:" + headers[h] + ")$")
  }

  function Chain(globals: seq<ResolvedMiddleware>, skip: seq<string>, own: seq<ResolvedMiddleware>): seq<ResolvedMiddleware> {
    Kept(globals, skip) + own
  }

  predicate Names<Y>(refs: seq<MiddlewareRef<Y>>, name: string) {
    exists i :: 0 <= i < |refs| && refs[i].ref == name
  }

  ghost predicate AllFaultless(resolved: seq<ResolvedMiddleware>, c: Context) {
    forall m :: m in resolved ==> Faultless(m, c)
  }

  ghost predicate RouteValid<N>(cfg: GatewayConfig<Shallow<N>>, d: Decoders<N>, c: Context, route: RouteConfig<Shallow<N>>,
                          globals: seq<ResolvedMiddleware>) {
    && (route.matching.pathRegex != "" ==> c.compiles(route.matching.pathRegex))
    && (route.matching.host != "" ==> ValidHostPattern(route.matching.host))
    && HeadersCompile(c, route.matching.headers)
    && (forall s :: s in route.skipMiddlewares ==> exists i :: 0 <= i < |cfg.middlewares| && cfg.middlewares[i].ref == s)
    && var own := ResolveAll(route.middlewares, cfg.definitions, d);
       && own.Ok?
       && AllFaultless(own.value, c)
       && CorsFirst(Chain(globals, route.skipMiddlewares, own.value))
       && ClaimsGuarded(Chain(globals, route.skipMiddlewares, own.value))
  }

  ghost predicate RouteValidAt<N>(cfg: GatewayConfig<Shallow<N>>, d: Decoders<N>, c: Context, globals: seq<ResolvedMiddleware>, i: nat)
    requires i < |cfg.routes|
  {
    RouteValid(cfg, d, c, cfg.routes[i], globals)
  }

  ghost predicate ConfigValid<N>(cfg: GatewayConfig<Shallow<N>>, d: Decoders<N>, c: Context) {
    && DistinctNames(cfg.routes)
    && var globals := ResolveAll(cfg.middlewares, cfg.definitions, d);
       && globals.Ok?
       && AllFaultless(globals.value, c)
       && forall i :: 0 <= i < |cfg.routes| ==> RouteValidAt(cfg, d, c, globals.value, i)
  }

  // What each check owes its reader.

  function CorsCount(chain: seq<ResolvedMiddleware>): nat {
    if chain == [] then 0
    else CorsCount(chain[..|chain| - 1]) + if IsCors(chain[|chain| - 1]) then 1 else 0
  }

  predicate FirstCorsAt(chain: seq<ResolvedMiddleware>, i: nat) {
    i < |chain| && IsCors(chain[i]) && forall j :: 0 <= j < i ==> !IsCors(chain[j])
  }

  predicate CorsReports(name: string, chain: seq<ResolvedMiddleware>, e: SemanticError) {
    match e
    case CorsNotFirst(n, m, i) => n == name && i > 0 && FirstCorsAt(chain, i) && m == chain[i].name
    case ManyCors(n, count) => n == name && count == CorsCount(chain) && count > 1
    case _ => false
  }

  ghost predicate ClaimReports(name: string, chain: seq<ResolvedMiddleware>, e: SemanticError) {
    exists i :: 0 <= i < |chain| && KeyedByClaim(chain[i]) && !AuthBefore(chain, i)
                && e == ClaimWithoutAuth(name, chain[i].name)
  }

  predicate SkipReports<Y>(name: string, skip: seq<string>, refs: seq<MiddlewareRef<Y>>, e: SemanticError) {
    e.UnknownSkip? && e.name == name && e.skip in skip && !Names(refs, e.skip)
  }

  predicate HeaderReports(name: string, c: Context, headers: map<string, string>, e: SemanticError) {
    e.BadHeaderRegex? && e.name == name && e.header in headers && headers[e.header] != "*"
    && !c.compiles("^(?:" + headers[e.header] + ")$")
  }

  ghost predicate SettingReports(route: Option<string>, resolved: seq<ResolvedMiddleware>, c: Context, e: SemanticError) {
    e.BadSetting? && e.route == route && exists m :: m in resolved && m.name == e.middleware && Fault(m, c, e.error)
  }

  method ValidateResolved(route: Option<string>, resolved: seq<ResolvedMiddleware>, c: Context) returns (errs: seq<SemanticError>)
    ensures errs == [] <==> AllFaultless(resolved, c)
    ensures forall e :: e in errs <==> SettingReports(route, resolved, c, e)
  {
    hide Fault, Faultless;
    errs := [];
    for i := 0 to |resolved|
      invariant errs == [] <==> AllFaultless(resolved[..i], c)
      invariant forall e :: e in errs <==> SettingReports(route, resolved[..i], c, e)
    {
      var m := resolved[i];
      assert resolved[..i + 1] == resolved[..i] + [m];
      var faults := SettingErrors(m, c);
      var found := seq(|faults|, k requires 0 <= k < |faults| => BadSetting(route, m.name, faults[k]));
      forall e ensures e in found <==> SettingReports(route, [m], c, e) {
        if SettingReports(route, [m], c, e) {
          var k :| 0 <= k < |faults| && faults[k] == e.error;
          assert found[k] == e;
        }
      }
      errs := errs + found;
    }
    assert resolved[..|resolved|] == resolved;
  }

  method CorsErrors(name: string, chain: seq<ResolvedMiddleware>) returns (errs: seq<SemanticError>)
    ensures errs == [] <==> CorsFirst(chain)
    ensures forall e :: e in errs <==> CorsReports(name, chain, e)
  {
    errs := [];
    var corsCount := 0;
    for i := 0 to |chain|
      invariant corsCount == CorsCount(chain[..i])
      invariant corsCount == 0 <==> forall k :: 0 <= k < i ==> !IsCors(chain[k])
      invariant corsCount == 1 && errs == [] ==> IsCors(chain[0]) && forall k :: 0 < k < i ==> !IsCors(chain[k])
      invariant corsCount == 0 ==> errs == []
      invariant corsCount >= 2 ==> exists k :: 0 < k < i && IsCors(chain[k])
      invariant errs != [] ==> exists k :: 0 < k < i && IsCors(chain[k])
      invariant forall e :: e in errs <==> e.CorsNotFirst? && e.position < i && CorsReports(name, chain, e)
    {
      assert chain[..i + 1][..i] == chain[..i];
      if IsCors(chain[i]) {
        corsCount := corsCount + 1;
        if i != 0 && corsCount == 1 {
          errs := errs + [CorsNotFirst(name, chain[i].name, i)];
        }
      }
    }
    assert chain[..|chain|] == chain;
    if corsCount > 1 {
      errs := errs + [ManyCors(name, corsCount)];
    }
  }

  method ClaimErrors(name: string, chain: seq<ResolvedMiddleware>) returns (errs: seq<SemanticError>)
    ensures errs == [] <==> ClaimsGuarded(chain)
    ensures forall e :: e in errs <==> ClaimReports(name, chain, e)
  {
    errs := [];
    var authSeen := false;
    for i := 0 to |chain|
      invariant authSeen <==> AuthBefore(chain, i)
      invariant errs == [] <==> forall k :: 0 <= k < i && KeyedByClaim(chain[k]) ==> AuthBefore(chain, k)
      invariant forall e :: e in errs <==>
        exists k :: 0 <= k < i && KeyedByClaim(chain[k]) && !AuthBefore(chain, k) && e == ClaimWithoutAuth(name, chain[k].name)
    {
      if chain[i].kind == "auth" {
        authSeen := true;
      }
      if KeyedByClaim(chain[i]) && !authSeen {
        errs := errs + [ClaimWithoutAuth(name, chain[i].name)];
      }
    }
  }

  method GlobalNames<Y>(refs: seq<MiddlewareRef<Y>>) returns (names: set<string>)
    ensures forall s :: s in names <==> Names(refs, s)
  {
    names := {};
    for i := 0 to |refs|
      invariant forall s :: s in names <==> exists k :: 0 <= k < i && refs[k].ref == s
    {
      names := names + {refs[i].ref};
    }
  }

  method SkipErrors<Y>(name: string, skip: seq<string>, refs: seq<MiddlewareRef<Y>>) returns (errs: seq<SemanticError>)
    ensures errs == [] <==> forall s :: s in skip ==> Names(refs, s)
    ensures forall e :: e in errs <==> SkipReports(name, skip, refs, e)
  {
    var globalRefNames := GlobalNames(refs);
    errs := [];
    for i := 0 to |skip|
      invariant errs == [] <==> forall k :: 0 <= k < i ==> skip[k] in globalRefNames
      invariant forall e :: e in errs <==>
        e.UnknownSkip? && e.name == name && e.skip in skip[..i] && e.skip !in globalRefNames
    {
      assert skip[..i + 1] == skip[..i] + [skip[i]];
      if skip[i] !in globalRefNames {
        errs := errs + [UnknownSkip(name, skip[i])];
      }
    }
    assert skip[..|skip|] == skip;
  }

  method HeaderErrors(name: string, c: Context, headers: map<string, string>) returns (errs: seq<SemanticError>)
    ensures errs == [] <==> HeadersCompile(c, headers)
    ensures forall e :: e in errs <==> HeaderReports(name, c, headers, e)
  {
    errs := [];
    var left := headers.Keys;
    while left != {}
      invariant left <= headers.Keys
      invariant errs == [] <==>
        forall h :: h in headers && h !in left && headers[h] != "*" ==> c.compiles("^(?:" + headers[h] + ")$")
      invariant forall e :: e in errs <==> HeaderReports(name, c, headers, e) && e.header !in left
      decreases left
    {
      var h :| h in left;
      left := left - {h};
      if headers[h] != "*" && !c.compiles("^(?:" + headers[h] + ")$") {
        errs := errs + [BadHeaderRegex(name, h)];
      }
    }
  }

  /** The validator's own loop over the globals. */
  method EffectiveChain(globals: seq<ResolvedMiddleware>, skip: seq<string>, own: seq<ResolvedMiddleware>)
    returns (chain: seq<ResolvedMiddleware>)
    ensures chain == Chain(globals, skip, own)
  {
    var skipSet := set s | s in skip;
    chain := [];
    for i := 0 to |globals|
      invariant chain == Kept(globals[..i], skip)
    {
      assert globals[..i + 1][..i] == globals[..i];
      if globals[i].name !in skipSet {
        chain := chain + [globals[i]];
      }
    }
    assert globals[..|globals|] == globals;
    chain := chain + own;
  }

  /** Unresolved globals are left out of the chain that is checked. */
  ghost predicate RouteReports<N>(cfg: GatewayConfig<Shallow<N>>, d: Decoders<N>, c: Context, route: RouteConfig<Shallow<N>>,
                                  globals: Result<seq<ResolvedMiddleware>, ResolveError>, e: SemanticError) {
    || (e == BadPathRegex(route.name) && route.matching.pathRegex != "" && !c.compiles(route.matching.pathRegex))
    || (e == BadHost(route.name) && route.matching.host != "" && !ValidHostPattern(route.matching.host))
    || HeaderReports(route.name, c, route.matching.headers, e)
    || SkipReports(route.name, route.skipMiddlewares, cfg.middlewares, e)
    || match ResolveAll(route.middlewares, cfg.definitions, d)
       case Err(cause) => e == RouteUnresolved(route.name, cause)
       case Ok(own) =>
         var chain := if globals.Ok? then Chain(globals.value, route.skipMiddlewares, own) else own;
         SettingReports(Some(route.name), own, c, e) || CorsReports(route.name, chain, e) || ClaimReports(route.name, chain, e)
  }

  method RouteErrors<N>(cfg: GatewayConfig<Shallow<N>>, d: Decoders<N>, c: Context, route: RouteConfig<Shallow<N>>,
                        globals: Result<seq<ResolvedMiddleware>, ResolveError>) returns (errs: seq<SemanticError>)
    ensures globals.Ok? ==> (errs == [] <==> RouteValid(cfg, d, c, route, globals.value))
    ensures forall e :: e in errs <==> RouteReports(cfg, d, c, route, globals, e)
  {
    hide SettingReports, AllFaultless, CorsReports, ClaimReports, HeaderReports, CorsFirst, ClaimsGuarded, HeadersCompile, ValidHostPattern;
    errs := [];
    if route.matching.pathRegex != "" && !c.compiles(route.matching.pathRegex) {
      errs := errs + [BadPathRegex(route.name)];
    }
    if route.matching.host != "" && !ValidHostPattern(route.matching.host) {
      errs := errs + [BadHost(route.name)];
    }
    var headerErrs := HeaderErrors(route.name, c, route.matching.headers);
    var skipErrs := SkipErrors(route.name, route.skipMiddlewares, cfg.middlewares);
    errs := errs + headerErrs + skipErrs;
    var own := ResolveAll(route.middlewares, cfg.definitions, d);
    if own.Err? {
      errs := errs + [RouteUnresolved(route.name, own.error)];
      return;
    }
    var settingErrs := ValidateResolved(Some(route.name), own.value, c);
    var chain := EffectiveChain(if globals.Ok? then globals.value else [], route.skipMiddlewares, own.value);
    assert Chain([], route.skipMiddlewares, own.value) == own.value;
    var corsErrs := CorsErrors(route.name, chain);
    var claimErrs := ClaimErrors(route.name, chain);
    errs := errs + settingErrs + corsErrs + claimErrs;
  }

  method DuplicateErrors<Y>(routes: seq<RouteConfig<Y>>) returns (errs: seq<SemanticError>)
    ensures errs == [] <==> DistinctNames(routes)
    ensures forall e :: e in errs <==> DuplicateReports(routes, e)
  {
    errs := [];
    var routeNames := {};
    for i := 0 to |routes|
      invariant forall s :: s in routeNames <==> exists k :: 0 <= k < i && routes[k].name == s
      invariant errs == [] <==> forall j, k :: 0 <= j < k < i ==> routes[j].name != routes[k].name
      invariant forall e :: e in errs <==>
        e.DuplicateRoute? && exists j, k :: 0 <= j < k < i && routes[j].name == routes[k].name == e.name
    {
      if routes[i].name in routeNames {
        errs := errs + [DuplicateRoute(routes[i].name)];
      }
      routeNames := routeNames + {routes[i].name};
    }
  }

  ghost predicate DuplicateReports<Y>(routes: seq<RouteConfig<Y>>, e: SemanticError) {
    e.DuplicateRoute? && exists j, k :: 0 <= j < k < |routes| && routes[j].name == routes[k].name == e.name
  }

  ghost predicate RouteReportsAt<N>(cfg: GatewayConfig<Shallow<N>>, d: Decoders<N>, c: Context,
                                    globals: Result<seq<ResolvedMiddleware>, ResolveError>, i: nat, e: SemanticError)
    requires i < |cfg.routes|
  {
    RouteReports(cfg, d, c, cfg.routes[i], globals, e)
  }

  ghost predicate SemanticReports<N>(cfg: GatewayConfig<Shallow<N>>, d: Decoders<N>, c: Context, e: SemanticError) {
    var globals := ResolveAll(cfg.middlewares, cfg.definitions, d);
    || DuplicateReports(cfg.routes, e)
    || (globals.Err? && e == GlobalUnresolved(globals.error))
    || (globals.Ok? && SettingReports(None, globals.value, c, e))
    || exists i :: 0 <= i < |cfg.routes| && RouteReportsAt(cfg, d, c, globals, i, e)
  }

  /** The loop over the routes. */
  method AllRouteErrors<N>(cfg: GatewayConfig<Shallow<N>>, d: Decoders<N>, c: Context,
                           globals: Result<seq<ResolvedMiddleware>, ResolveError>) returns (errs: seq<SemanticError>)
    ensures globals.Ok? ==>
      (errs == [] <==> forall i :: 0 <= i < |cfg.routes| ==> RouteValidAt(cfg, d, c, globals.value, i))
    ensures forall e :: e in errs <==> exists i :: 0 <= i < |cfg.routes| && RouteReportsAt(cfg, d, c, globals, i, e)
  {
    errs := [];
    for i := 0 to |cfg.routes|
      invariant globals.Ok? ==> (errs == [] <==> forall k :: 0 <= k < i ==> RouteValidAt(cfg, d, c, globals.value, k))
      invariant forall e :: e in errs <==> exists k :: 0 <= k < i && RouteReportsAt(cfg, d, c, globals, k, e)
    {
      var routeErrs := RouteErrors(cfg, d, c, cfg.routes[i], globals);
      assert globals.Ok? ==> (routeErrs == [] <==> RouteValidAt(cfg, d, c, globals.value, i));
      assert forall e :: e in routeErrs <==> RouteReportsAt(cfg, d, c, globals, i, e);
      errs := errs + routeErrs;
    }
  }

  /** No error is reported exactly when the configuration is valid, and every error reported
      is owed. */
  method SemanticErrors<N>(cfg: GatewayConfig<Shallow<N>>, d: Decoders<N>, c: Context) returns (errs: seq<SemanticError>)
    ensures errs == [] <==> ConfigValid(cfg, d, c)
    ensures forall e :: e in errs <==> SemanticReports(cfg, d, c, e)
  {
    var duplicates := DuplicateErrors(cfg.routes);
    errs := duplicates;
    var globals := ResolveAll(cfg.middlewares, cfg.definitions, d);
    if globals.Err? {
      errs := errs + [GlobalUnresolved(globals.error)];
    } else {
      var settingErrs := ValidateResolved(None, globals.value, c);
      errs := errs + settingErrs;
    }
    var routeErrs := AllRouteErrors(cfg, d, c, globals);
    errs := errs + routeErrs;
    assert globals.Ok? && DistinctNames(cfg.routes) && AllFaultless(globals.value, c) ==>
      (ConfigValid(cfg, d, c) <==> forall i :: 0 <= i < |cfg.routes| ==> RouteValidAt(cfg, d, c, globals.value, i));
  }

  // ---------- Building ----------

  datatype Handler =
    | Proxy(route: string)
    | Resilient(retries: bool, breaker: bool, inner: Handler)
    | RequestTransform(mw: ResolvedMiddleware, inner: Handler)
    | ResponseTransform(mw: ResolvedMiddleware, inner: Handler)
    | Wrapped(mw: ResolvedMiddleware, inner: Handler)

  datatype BuildError = Unresolved(cause: ResolveError) | BadTransform(name: string) | BadMiddleware(name: string) | Panic

  /** The types with a factory. */
  predicate Registered(kind: string) {
    kind == "cors" || kind == "rate_limit" || kind == "auth"
  }

  /** Applies the last of the transforms first, so that the first ends up outermost. */
  function WithTransforms(transforms: seq<ResolvedMiddleware>, inner: Handler): Handler {
    if transforms == [] then inner
    else RequestTransform(transforms[0], ResponseTransform(transforms[0], WithTransforms(transforms[1..], inner)))
  }

  function WithChain(chain: seq<ResolvedMiddleware>, inner: Handler): Handler {
    if chain == [] then inner else Wrapped(chain[0], WithChain(chain[1..], inner))
  }

  function Resilience<Y>(route: RouteConfig<Y>): Handler {
    if route.circuitBreaker.None? && route.retry.None? then Proxy(route.name)
    else Resilient(route.retry.Some?, route.circuitBreaker.Some?, Proxy(route.name))
  }

  /** The handler of a route with a given effective chain. */
  function RouteHandler<Y>(route: RouteConfig<Y>, chain: seq<ResolvedMiddleware>): Handler {
    WithChain(OfKind(chain, false), WithTransforms(OfKind(chain, true), Resilience(route)))
  }

  /** The entries that can be built: transforms and the types with a factory, each with its own
      type of configuration. */
  predicate Buildable(m: ResolvedMiddleware) {
    match m.kind
    case "transform" => m.config.Transform?
    case "cors" => m.config.Cors?
    case "rate_limit" => m.config.RateLimit?
    case "auth" => m.config.Auth?
    case _ => false
  }

  lemma BuildableIff(m: ResolvedMiddleware)
    ensures Buildable(m) <==> if m.kind == "transform" then m.config.Transform? else Registered(m.kind) && WellTyped(m)
  {
  }

  method FilterSkipped(resolved: seq<ResolvedMiddleware>, skipNames: seq<string>) returns (filtered: seq<ResolvedMiddleware>)
    ensures filtered == Kept(resolved, skipNames)
  {
    if |skipNames| == 0 {
      NothingSkipped(resolved);
      return resolved;
    }
    var skipSet := {};
    for i := 0 to |skipNames|
      invariant forall s :: s in skipSet <==> s in skipNames[..i]
    {
      skipSet := skipSet + {skipNames[i]};
    }
    filtered := [];
    for i := 0 to |resolved|
      invariant filtered == Kept(resolved[..i], skipNames)
    {
      assert resolved[..i + 1][..i] == resolved[..i];
      if resolved[i].name !in skipSet {
        filtered := filtered + [resolved[i]];
      }
    }
    assert resolved[..|resolved|] == resolved;
  }

  lemma {:induction false} NothingSkipped(resolved: seq<ResolvedMiddleware>)
    ensures Kept(resolved, []) == resolved
  {
    if resolved != [] {
      NothingSkipped(resolved[..|resolved| - 1]);
    }
  }

  method BuildRoute<Y>(route: RouteConfig<Y>, chain: seq<ResolvedMiddleware>) returns (r: Result<Handler, BuildError>)
    ensures (forall m :: m in chain ==> Buildable(m)) ==> r == Ok(RouteHandler(route, chain))
    ensures r.Ok? ==> forall m :: m in chain ==> Buildable(m)
    ensures r.Err? ==> exists m :: m in chain && !Buildable(m) && r.error == if m.kind == "transform" then BadTransform(m.name) else BadMiddleware(m.name)
  {
    hide Resilience, Buildable, Registered, WellTyped;
    var rh := Resilience(route);
    var transforms, chainMiddlewares := [], [];
    for i := 0 to |chain|
      invariant transforms == OfKind(chain[..i], true) && chainMiddlewares == OfKind(chain[..i], false)
      invariant forall m :: m in chain[..i] <==> m in transforms || m in chainMiddlewares
      invariant forall m :: m in transforms ==> m.kind == "transform"
      invariant forall m :: m in chainMiddlewares ==> m.kind != "transform"
    {
      assert chain[..i + 1][..i] == chain[..i] && chain[..i + 1] == chain[..i] + [chain[i]];
      if chain[i].kind == "transform" {
        transforms := transforms + [chain[i]];
      } else {
        chainMiddlewares := chainMiddlewares + [chain[i]];
      }
    }
    assert chain[..|chain|] == chain;
    var j := |transforms|;
    while j > 0
      invariant 0 <= j <= |transforms|
      invariant rh == WithTransforms(transforms[j..], Resilience(route))
      invariant forall k :: j <= k < |transforms| ==> Buildable(transforms[k])
    {
      j := j - 1;
      var t := transforms[j];
      BuildableIff(t);
      if !t.config.Transform? {
        assert t in chain && !Buildable(t);
        return Err(BadTransform(t.name));
      }
      assert transforms[j..][1..] == transforms[j + 1..];
      rh := RequestTransform(t, ResponseTransform(t, rh));
    }
    assert transforms[0..] == transforms;
    var inner := rh;
    j := |chainMiddlewares|;
    while j > 0
      invariant 0 <= j <= |chainMiddlewares|
      invariant rh == WithChain(chainMiddlewares[j..], inner)
      invariant forall k :: j <= k < |chainMiddlewares| ==> Buildable(chainMiddlewares[k])
    {
      j := j - 1;
      var m := chainMiddlewares[j];
      BuildableIff(m);
      if !Registered(m.kind) || !WellTyped(m) {
        assert m in chain && !Buildable(m);
        return Err(BadMiddleware(m.name));
      }
      assert chainMiddlewares[j..][1..] == chainMiddlewares[j + 1..];
      rh := Wrapped(m, rh);
    }
    assert chainMiddlewares[0..] == chainMiddlewares;
    return Ok(rh);
  }

  /** The router compiles every pattern and gives up on the first that does not. */
  predicate RegexesCompile<Y>(c: Context, routes: seq<RouteConfig<Y>>) {
    forall i :: 0 <= i < |routes| ==>
      c.compiles(routes[i].matching.pathRegex) && HeadersCompile(c, routes[i].matching.headers)
  }

  function RouteChain<N>(cfg: GatewayConfig<Shallow<N>>, d: Decoders<N>, route: RouteConfig<Shallow<N>>): Option<seq<ResolvedMiddleware>> {
    var globals := ResolveAll(cfg.middlewares, cfg.definitions, d);
    var own := ResolveAll(route.middlewares, cfg.definitions, d);
    if globals.Ok? && own.Ok? then Some(Chain(globals.value, route.skipMiddlewares, own.value)) else None
  }

  predicate Builds<N>(cfg: GatewayConfig<Shallow<N>>, d: Decoders<N>, route: RouteConfig<Shallow<N>>) {
    var chain := RouteChain(cfg, d, route);
    chain.Some? && forall m :: m in chain.value ==> Buildable(m)
  }

  predicate BuildsAt<N>(cfg: GatewayConfig<Shallow<N>>, d: Decoders<N>, i: nat)
    requires i < |cfg.routes|
  {
    Builds(cfg, d, cfg.routes[i])
  }

  /** No later route below n has the name of the i-th. */
  predicate LastNamed<Y>(routes: seq<RouteConfig<Y>>, i: nat, n: nat)
    requires i < n <= |routes|
  {
    forall j :: i < j < n ==> routes[j].name != routes[i].name
  }

  predicate HandledAt<N>(cfg: GatewayConfig<Shallow<N>>, d: Decoders<N>, handlers: map<string, Handler>, i: nat)
    requires i < |cfg.routes|
  {
    var route := cfg.routes[i];
    var chain := RouteChain(cfg, d, route);
    route.name in handlers && chain.Some? && handlers[route.name] == RouteHandler(route, chain.value)
  }

  /** The handler in the table for a name is that of the last route with the name. */
  predicate HandlersOf<N>(cfg: GatewayConfig<Shallow<N>>, d: Decoders<N>, handlers: map<string, Handler>, n: nat)
    requires n <= |cfg.routes|
  {
    forall i :: 0 <= i < n ==> LastNamed(cfg.routes, i, n) ==> HandledAt(cfg, d, handlers, i)
  }

  /** The body of the loop over the routes. */
  method BuildOne<N>(cfg: GatewayConfig<Shallow<N>>, d: Decoders<N>, route: RouteConfig<Shallow<N>>, globals: seq<ResolvedMiddleware>)
    returns (r: Result<Handler, BuildError>)
    requires ResolveAll(cfg.middlewares, cfg.definitions, d) == Ok(globals)
    ensures r.Ok? <==> Builds(cfg, d, route)
    ensures r.Ok? ==> r.value == RouteHandler(route, RouteChain(cfg, d, route).value)
  {
    var own := ResolveAll(route.middlewares, cfg.definitions, d);
    if own.Err? {
      return Err(Unresolved(own.error));
    }
    var effectiveGlobals := FilterSkipped(globals, route.skipMiddlewares);
    var all := effectiveGlobals + own.value;
    assert RouteChain(cfg, d, route) == Some(all);
    r := BuildRoute(route, all);
  }

  lemma AddHandler<N>(cfg: GatewayConfig<Shallow<N>>, d: Decoders<N>, handlers: map<string, Handler>, n: nat, h: Handler)
    requires n < |cfg.routes| && HandlersOf(cfg, d, handlers, n) && BuildsAt(cfg, d, n)
    requires h == RouteHandler(cfg.routes[n], RouteChain(cfg, d, cfg.routes[n]).value)
    ensures HandlersOf(cfg, d, handlers[cfg.routes[n].name := h], n + 1)
  {
    var handlers' := handlers[cfg.routes[n].name := h];
    forall i | 0 <= i < n + 1 && LastNamed(cfg.routes, i, n + 1)
      ensures HandledAt(cfg, d, handlers', i)
    {
      if i < n {
        assert LastNamed(cfg.routes, i, n);
        assert HandledAt(cfg, d, handlers, i);
      }
    }
  }

  /** The loop over the routes. */
  method BuildRoutes<N>(cfg: GatewayConfig<Shallow<N>>, d: Decoders<N>, globals: seq<ResolvedMiddleware>)
    returns (r: Result<map<string, Handler>, BuildError>)
    requires ResolveAll(cfg.middlewares, cfg.definitions, d) == Ok(globals)
    ensures r.Ok? <==> forall i :: 0 <= i < |cfg.routes| ==> BuildsAt(cfg, d, i)
    ensures r.Ok? ==> HandlersOf(cfg, d, r.value, |cfg.routes|)
  {
    var handlers := map[];
    for i := 0 to |cfg.routes|
      invariant forall k :: 0 <= k < i ==> BuildsAt(cfg, d, k)
      invariant HandlersOf(cfg, d, handlers, i)
    {
      var built := BuildOne(cfg, d, cfg.routes[i], globals);
      if built.Err? {
        assert !BuildsAt(cfg, d, i);
        return Err(built.error);
      }
      AddHandler(cfg, d, handlers, i, built.value);
      handlers := handlers[cfg.routes[i].name := built.value];
    }
    return Ok(handlers);
  }

  /** Building succeeds exactly when every reference resolves to something buildable and
      every pattern compiles. */
  method BuildHandler<N>(cfg: GatewayConfig<Shallow<N>>, d: Decoders<N>, c: Context) returns (r: Result<map<string, Handler>, BuildError>)
    ensures r.Ok? <==>
      && ResolveAll(cfg.middlewares, cfg.definitions, d).Ok?
      && (forall i :: 0 <= i < |cfg.routes| ==> BuildsAt(cfg, d, i))
      && (forall i :: 0 <= i < |cfg.routes| ==>
            var m := cfg.routes[i].matching;
            c.compiles(m.pathRegex) && forall h :: h in m.headers && m.headers[h] != "*" ==> c.compiles("^(?:" + m.headers[h] + ")$"))
    ensures r.Ok? ==> HandlersOf(cfg, d, r.value, |cfg.routes|)
  {
    var globals := ResolveAll(cfg.middlewares, cfg.definitions, d);
    if globals.Err? {
      return Err(Unresolved(globals.error));
    }
    r := BuildRoutes(cfg, d, globals.value);
    if r.Ok? && !RegexesCompile(c, cfg.routes) {
      return Err(Panic);
    }
  }

  // ---------- What a request passes through ----------

  datatype Event =
    | Enter(mw: ResolvedMiddleware)
    | Exit(mw: ResolvedMiddleware)
    | RewriteRequest(mw: ResolvedMiddleware)
    | RewriteResponse(mw: ResolvedMiddleware)
    | Guarded(retries: bool, breaker: bool)
    | Upstream(route: string)

  /** The events of a request that no layer turns away. */
  function Trace(h: Handler): seq<Event> {
    match h
    case Proxy(route) => [Upstream(route)]
    case Resilient(retries, breaker, inner) => [Guarded(retries, breaker)] + Trace(inner)
    case RequestTransform(mw, inner) => [RewriteRequest(mw)] + Trace(inner)
    case ResponseTransform(mw, inner) => Trace(inner) + [RewriteResponse(mw)]
    case Wrapped(mw, inner) => [Enter(mw)] + Trace(inner) + [Exit(mw)]
  }

  function Each(chain: seq<ResolvedMiddleware>, f: ResolvedMiddleware -> Event): (r: seq<Event>)
    ensures |r| == |chain| && forall i :: 0 <= i < |r| ==> r[i] == f(chain[i])
  {
    seq(|chain|, i requires 0 <= i < |chain| => f(chain[i]))
  }

  function Mirrored(chain: seq<ResolvedMiddleware>): (r: seq<ResolvedMiddleware>)
    ensures |r| == |chain| && forall i :: 0 <= i < |r| ==> r[i] == chain[|chain| - 1 - i]
  {
    seq(|chain|, i requires 0 <= i < |chain| => chain[|chain| - 1 - i])
  }

  lemma EachOfHeadAndTail(chain: seq<ResolvedMiddleware>, f: ResolvedMiddleware -> Event)
    requires chain != []
    ensures Each(chain, f) == [f(chain[0])] + Each(chain[1..], f)
  {
  }

  lemma EachOfMirrored(chain: seq<ResolvedMiddleware>, f: ResolvedMiddleware -> Event)
    requires chain != []
    ensures Each(Mirrored(chain), f) == Each(Mirrored(chain[1..]), f) + [f(chain[0])]
  {
  }

  /** The events on both sides of what a chain encloses. */
  function Around(way: seq<Event>, inner: seq<Event>, back: seq<Event>): seq<Event> {
    way + inner + back
  }

  lemma AroundOneMore(e: Event, way: seq<Event>, inner: seq<Event>, back: seq<Event>, f: Event)
    ensures Around([e] + way, inner, back + [f]) == [e] + Around(way, inner, back) + [f]
  {
  }

  lemma {:induction false} ChainTrace(chain: seq<ResolvedMiddleware>, inner: Handler)
    ensures Trace(WithChain(chain, inner)) == Around(Each(chain, m => Enter(m)), Trace(inner), Each(Mirrored(chain), m => Exit(m)))
  {
    if chain != [] {
      ChainTrace(chain[1..], inner);
      var enter, exit := m => Enter(m), m => Exit(m);
      EachOfHeadAndTail(chain, enter);
      EachOfMirrored(chain, exit);
      AroundOneMore(Enter(chain[0]), Each(chain[1..], enter), Trace(inner), Each(Mirrored(chain[1..]), exit), Exit(chain[0]));
    }
  }

  lemma {:induction false} TransformsTrace(transforms: seq<ResolvedMiddleware>, inner: Handler)
    ensures Trace(WithTransforms(transforms, inner)) ==
              Around(Each(transforms, m => RewriteRequest(m)), Trace(inner), Each(Mirrored(transforms), m => RewriteResponse(m)))
  {
    if transforms != [] {
      TransformsTrace(transforms[1..], inner);
      var request, response := m => RewriteRequest(m), m => RewriteResponse(m);
      EachOfHeadAndTail(transforms, request);
      EachOfMirrored(transforms, response);
      AroundOneMore(RewriteRequest(transforms[0]), Each(transforms[1..], request), Trace(inner),
                    Each(Mirrored(transforms[1..]), response), RewriteResponse(transforms[0]));
    }
  }

  /** What lies inside all middlewares: the upstream, behind retries if the route configures
      them and behind a breaker if it configures one. */
  function Core<Y>(route: RouteConfig<Y>): seq<Event> {
    if route.retry == None && route.circuitBreaker == None then [Upstream(route.name)]
    else [Guarded(route.retry != None, route.circuitBreaker != None), Upstream(route.name)]
  }

  lemma CoreIsInnermost<Y>(route: RouteConfig<Y>)
    ensures Trace(Resilience(route)) == Core(route)
  {
  }

  /** Transforms run innermost, everything else around them, and the way out mirrors the way
      in. */
  lemma RouteTrace<Y>(route: RouteConfig<Y>, chain: seq<ResolvedMiddleware>)
    ensures var outer, transforms := OfKind(chain, false), OfKind(chain, true);
            Trace(RouteHandler(route, chain)) ==
              Each(outer, m => Enter(m)) + Each(transforms, m => RewriteRequest(m)) + Core(route)
              + Each(Mirrored(transforms), m => RewriteResponse(m)) + Each(Mirrored(outer), m => Exit(m))
  {
    hide OfKind, Trace, WithChain, WithTransforms, Resilience, Core, Each, Mirrored;
    var outer, transforms := OfKind(chain, false), OfKind(chain, true);
    ChainTrace(outer, WithTransforms(transforms, Resilience(route)));
    TransformsTrace(transforms, Resilience(route));
    CoreIsInnermost(route);
  }

  // ---------- The same, on the chain itself ----------

  /** How many entries are transforms, or how many are not. */
  function Number(chain: seq<ResolvedMiddleware>, transforms: bool): nat {
    if chain == [] then 0
    else Number(chain[..|chain| - 1], transforms) + if (chain[|chain| - 1].kind == "transform") == transforms then 1 else 0
  }

  lemma {:induction false} NumberGrows(chain: seq<ResolvedMiddleware>, i: nat, transforms: bool)
    requires i < |chain|
    ensures Number(chain[..i], transforms) <= Number(chain, transforms)
    ensures (chain[i].kind == "transform") == transforms ==> Number(chain[..i], transforms) < Number(chain, transforms)
  {
    var n := |chain| - 1;
    if i < n {
      NumberGrows(chain[..n], i, transforms);
      assert chain[..n][..i] == chain[..i];
    }
  }

  lemma {:induction false} NumbersAddUp(chain: seq<ResolvedMiddleware>)
    ensures Number(chain, true) + Number(chain, false) == |chain|
  {
    if chain != [] {
      NumbersAddUp(chain[..|chain| - 1]);
    }
  }

  /** An entry stands in its part of the chain behind exactly the entries of that part that come
      before it in the chain. */
  lemma {:induction false} OfKindAt(chain: seq<ResolvedMiddleware>, i: nat)
    requires i < |chain|
    ensures var transforms := chain[i].kind == "transform";
            && Number(chain[..i], transforms) < |OfKind(chain, transforms)|
            && OfKind(chain, transforms)[Number(chain[..i], transforms)] == chain[i]
  {
    var n := |chain| - 1;
    OfKindSize(chain[..i], chain[i].kind == "transform");
    if i < n {
      OfKindAt(chain[..n], i);
      assert chain[..n][..i] == chain[..i];
    }
  }

  lemma {:induction false} OfKindSize(chain: seq<ResolvedMiddleware>, transforms: bool)
    ensures |OfKind(chain, transforms)| == Number(chain, transforms)
  {
    if chain != [] {
      OfKindSize(chain[..|chain| - 1], transforms);
    }
  }

  /** How many events come before that of the i-th entry on the way in: those of the entries
      before it of its own kind, and for a transform those of all other entries too. */
  function Place(chain: seq<ResolvedMiddleware>, i: nat): nat
    requires i < |chain|
  {
    if chain[i].kind == "transform" then Number(chain, false) + Number(chain[..i], true) else Number(chain[..i], false)
  }

  lemma PlacesInOrder(chain: seq<ResolvedMiddleware>, i: nat, j: nat)
    requires i < |chain| && j < |chain|
    ensures Place(chain, i) < |chain|
    ensures i < j && (chain[i].kind == "transform" <==> chain[j].kind == "transform") ==> Place(chain, i) < Place(chain, j)
    ensures chain[i].kind != "transform" && chain[j].kind == "transform" ==> Place(chain, i) < Place(chain, j)
  {
    NumbersAddUp(chain);
    NumberGrows(chain, i, chain[i].kind == "transform");
    NumberGrows(chain, j, chain[j].kind == "transform");
    if i < j {
      NumberGrows(chain[..j], i, chain[i].kind == "transform");
      assert chain[..j][..i] == chain[..i];
    }
  }

  function WayIn(m: ResolvedMiddleware): Event {
    if m.kind == "transform" then RewriteRequest(m) else Enter(m)
  }

  function WayOut(m: ResolvedMiddleware): Event {
    if m.kind == "transform" then RewriteResponse(m) else Exit(m)
  }

  lemma Enclosed(e: Event, inner: seq<Event>, f: Event, k: nat)
    ensures var t := [e] + inner + [f];
            && |t| == |inner| + 2 && t[0] == e && t[|t| - 1] == f
            && (k < |inner| ==> t[k + 1] == inner[k] && t[|inner| - k] == inner[|inner| - 1 - k])
  {
  }

  /** Each layer of a chain at its place on both sides, and what they enclose in between. */
  lemma {:induction false} ChainAt(chain: seq<ResolvedMiddleware>, inner: Handler, k: nat)
    ensures var trace := Trace(WithChain(chain, inner));
            && |trace| == 2 * |chain| + |Trace(inner)|
            && (k < |chain| ==> trace[k] == Enter(chain[k]) && trace[|trace| - 1 - k] == Exit(chain[k]))
            && (|chain| <= k < |chain| + |Trace(inner)| ==> trace[k] == Trace(inner)[k - |chain|])
  {
    if chain != [] {
      var within := Trace(WithChain(chain[1..], inner));
      assert Trace(WithChain(chain, inner)) == [Enter(chain[0])] + within + [Exit(chain[0])];
      hide *;
      ChainAt(chain[1..], inner, if k > 0 then k - 1 else 0);
      Enclosed(Enter(chain[0]), within, Exit(chain[0]), if k > 0 then k - 1 else 0);
    }
  }

  lemma {:induction false} TransformAt(transforms: seq<ResolvedMiddleware>, inner: Handler, k: nat)
    ensures var trace := Trace(WithTransforms(transforms, inner));
            && |trace| == 2 * |transforms| + |Trace(inner)|
            && (k < |transforms| ==> trace[k] == RewriteRequest(transforms[k]) && trace[|trace| - 1 - k] == RewriteResponse(transforms[k]))
            && (|transforms| <= k < |transforms| + |Trace(inner)| ==> trace[k] == Trace(inner)[k - |transforms|])
  {
    if transforms != [] {
      var within := Trace(WithTransforms(transforms[1..], inner));
      assert Trace(WithTransforms(transforms, inner)) == [RewriteRequest(transforms[0])] + within + [RewriteResponse(transforms[0])];
      hide *;
      TransformAt(transforms[1..], inner, if k > 0 then k - 1 else 0);
      Enclosed(RewriteRequest(transforms[0]), within, RewriteResponse(transforms[0]), if k > 0 then k - 1 else 0);
    }
  }

  lemma OuterAt(outer: seq<ResolvedMiddleware>, transforms: seq<ResolvedMiddleware>, inner: Handler, k: nat)
    requires k < |outer|
    ensures var trace := Trace(WithChain(outer, WithTransforms(transforms, inner)));
            && |trace| == 2 * (|outer| + |transforms|) + |Trace(inner)|
            && trace[k] == Enter(outer[k]) && trace[|trace| - 1 - k] == Exit(outer[k])
  {
    hide *;
    TransformAt(transforms, inner, k);
    ChainAt(outer, WithTransforms(transforms, inner), k);
  }

  lemma InnerAt(outer: seq<ResolvedMiddleware>, transforms: seq<ResolvedMiddleware>, inner: Handler, k: nat)
    requires k < |transforms|
    ensures var trace := Trace(WithChain(outer, WithTransforms(transforms, inner)));
            && |trace| == 2 * (|outer| + |transforms|) + |Trace(inner)|
            && trace[|outer| + k] == RewriteRequest(transforms[k])
            && trace[|trace| - 1 - (|outer| + k)] == RewriteResponse(transforms[k])
  {
    hide *;
    var within := WithTransforms(transforms, inner);
    TransformAt(transforms, inner, k);
    ChainAt(outer, within, |outer| + k);
    ChainAt(outer, within, |outer| + |Trace(within)| - 1 - k);
  }

  lemma MiddleAt(outer: seq<ResolvedMiddleware>, transforms: seq<ResolvedMiddleware>, inner: Handler, k: nat)
    requires k < |Trace(inner)|
    ensures var trace := Trace(WithChain(outer, WithTransforms(transforms, inner)));
            && |trace| == 2 * (|outer| + |transforms|) + |Trace(inner)|
            && trace[|outer| + |transforms| + k] == Trace(inner)[k]
  {
    hide *;
    TransformAt(transforms, inner, |transforms| + k);
    ChainAt(outer, WithTransforms(transforms, inner), |outer| + |transforms| + k);
  }

  /** The whole trace of a route, entry by entry: each has its event at its place on the way in and
      at the mirrored place on the way out. By PlacesInOrder the places are all different. */
  lemma TraceAt<Y>(route: RouteConfig<Y>, chain: seq<ResolvedMiddleware>, i: nat)
    requires i < |chain|
    ensures var trace, p := Trace(RouteHandler(route, chain)), Place(chain, i);
            && |trace| == 2 * |chain| + |Core(route)| && p < |chain|
            && trace[p] == WayIn(chain[i]) && trace[|trace| - 1 - p] == WayOut(chain[i])
  {
    hide OfKind, Trace, WithChain, WithTransforms, Resilience, Number, Core;
    OfKindSize(chain, false);
    OfKindSize(chain, true);
    NumbersAddUp(chain);
    PlacesInOrder(chain, i, i);
    OfKindAt(chain, i);
    CoreIsInnermost(route);
    var k := Number(chain[..i], chain[i].kind == "transform");
    if chain[i].kind == "transform" {
      InnerAt(OfKind(chain, false), OfKind(chain, true), Resilience(route), k);
    } else {
      OuterAt(OfKind(chain, false), OfKind(chain, true), Resilience(route), k);
    }
  }

  /** And the core in the middle. */
  lemma CoreAt<Y>(route: RouteConfig<Y>, chain: seq<ResolvedMiddleware>, j: nat)
    requires j < |Core(route)|
    ensures var trace := Trace(RouteHandler(route, chain));
            |trace| == 2 * |chain| + |Core(route)| && trace[|chain| + j] == Core(route)[j]
  {
    hide OfKind, Trace, WithChain, WithTransforms, Resilience, Number, Core;
    OfKindSize(chain, false);
    OfKindSize(chain, true);
    NumbersAddUp(chain);
    CoreIsInnermost(route);
    MiddleAt(OfKind(chain, false), OfKind(chain, true), Resilience(route), j);
  }

  lemma CountEnclosed<T>(a: T, s: seq<T>, b: T, x: T)
    ensures multiset([a] + s + [b])[x] == multiset(s)[x] + (if a == x then 1 else 0) + (if b == x then 1 else 0)
  {
    assert multiset([a] + s + [b]) == multiset{a} + multiset(s) + multiset{b};
  }

  lemma CountHead<T>(s: seq<T>, x: T)
    requires s != []
    ensures multiset(s)[x] == multiset(s[1..])[x] + if s[0] == x then 1 else 0
  {
    assert s == [s[0]] + s[1..];
  }

  lemma CountLast<T>(s: seq<T>, x: T)
    ensures s != [] ==> multiset(s)[x] == multiset(s[..|s| - 1])[x] + if s[|s| - 1] == x then 1 else 0
  {
    if s != [] {
      assert s == s[..|s| - 1] + [s[|s| - 1]];
    }
  }

  lemma {:induction false} ChainCounts(chain: seq<ResolvedMiddleware>, inner: Handler, e: Event)
    ensures multiset(Trace(WithChain(chain, inner)))[e] ==
              multiset(Trace(inner))[e] + if e.Enter? || e.Exit? then multiset(chain)[e.mw] else 0
  {
    if chain != [] {
      var within := Trace(WithChain(chain[1..], inner));
      assert Trace(WithChain(chain, inner)) == [Enter(chain[0])] + within + [Exit(chain[0])];
      hide *;
      ChainCounts(chain[1..], inner, e);
      CountEnclosed(Enter(chain[0]), within, Exit(chain[0]), e);
      if e.Enter? || e.Exit? {
        CountHead(chain, e.mw);
      }
    }
  }

  lemma {:induction false} TransformCounts(transforms: seq<ResolvedMiddleware>, inner: Handler, e: Event)
    ensures multiset(Trace(WithTransforms(transforms, inner)))[e] ==
              multiset(Trace(inner))[e] + if e.RewriteRequest? || e.RewriteResponse? then multiset(transforms)[e.mw] else 0
  {
    if transforms != [] {
      var m, within := transforms[0], Trace(WithTransforms(transforms[1..], inner));
      assert Trace(WithTransforms(transforms, inner)) == [RewriteRequest(m)] + within + [RewriteResponse(m)];
      hide *;
      TransformCounts(transforms[1..], inner, e);
      CountEnclosed(RewriteRequest(m), within, RewriteResponse(m), e);
      if e.RewriteRequest? || e.RewriteResponse? {
        CountHead(transforms, e.mw);
      }
    }
  }

  lemma {:induction false} OfKindCounts(chain: seq<ResolvedMiddleware>, transforms: bool, m: ResolvedMiddleware)
    ensures multiset(OfKind(chain, transforms))[m] == if (m.kind == "transform") == transforms then multiset(chain)[m] else 0
  {
    if chain != [] {
      OfKindCounts(chain[..|chain| - 1], transforms, m);
      CountLast(chain, m);
      var before, last := OfKind(chain[..|chain| - 1], transforms), chain[|chain| - 1];
      CountLast(before + [last], m);
      assert (before + [last])[..|before|] == before;
    }
  }

  /** On both ways a request meets every middleware as often as the chain lists it. */
  lemma EventCounts<Y>(route: RouteConfig<Y>, chain: seq<ResolvedMiddleware>, m: ResolvedMiddleware)
    ensures var events := multiset(Trace(RouteHandler(route, chain)));
            events[WayIn(m)] == events[WayOut(m)] == multiset(chain)[m]
  {
    var outer, transforms := OfKind(chain, false), OfKind(chain, true);
    CoreIsInnermost(route);
    hide OfKind, Trace, WithChain, WithTransforms, Resilience;
    OfKindCounts(chain, m.kind == "transform", m);
    ChainCounts(outer, WithTransforms(transforms, Resilience(route)), WayIn(m));
    ChainCounts(outer, WithTransforms(transforms, Resilience(route)), WayOut(m));
    TransformCounts(transforms, Resilience(route), WayIn(m));
    TransformCounts(transforms, Resilience(route), WayOut(m));
  }

  // ---------- What validation guarantees ----------

  lemma {:induction false} OfKindIsSubsequence(chain: seq<ResolvedMiddleware>, transforms: bool)
    ensures forall m :: m in OfKind(chain, transforms) <==> m in chain && (m.kind == "transform") == transforms
  {
    if chain != [] {
      var n := |chain| - 1;
      OfKindIsSubsequence(chain[..n], transforms);
      assert chain == chain[..n] + [chain[n]];
    }
  }

  lemma {:induction false} CorsStaysFirst(chain: seq<ResolvedMiddleware>)
    requires CorsFirst(chain)
    ensures CorsFirst(OfKind(chain, false))
  {
    if chain != [] {
      var n := |chain| - 1;
      var before := chain[..n];
      assert forall i :: 0 <= i < n ==> before[i] == chain[i];
      CorsStaysFirst(before);
      if n == 0 {
        assert before == [];
      }
    }
  }

  lemma {:induction false} ClaimsStayGuarded(chain: seq<ResolvedMiddleware>)
    requires ClaimsGuarded(chain)
    ensures ClaimsGuarded(OfKind(chain, false))
  {
    if chain != [] {
      var n := |chain| - 1;
      var before := chain[..n];
      forall i | 0 <= i < n && KeyedByClaim(before[i])
        ensures AuthBefore(before, i)
      {
        assert AuthBefore(chain, i);
        var j :| 0 <= j < i && chain[j].kind == "auth";
        assert before[j].kind == "auth";
      }
      ClaimsStayGuarded(before);
      var kept, kept' := OfKind(before, false), OfKind(chain, false);
      forall k | 0 <= k < |kept'| && KeyedByClaim(kept'[k])
        ensures AuthBefore(kept', k)
      {
        if k < |kept| {
          var j :| 0 <= j < k && kept[j].kind == "auth";
          assert kept'[j].kind == "auth";
        } else {
          assert AuthBefore(chain, n);
          var j :| 0 <= j < n && chain[j].kind == "auth";
          assert before[j] in before;
          OfKindIsSubsequence(before, false);
          assert before[j] in kept;
          var q :| 0 <= q < |kept| && kept[q] == before[j];
          assert kept'[q].kind == "auth";
        }
      }
    }
  }

  lemma {:induction false} KeptFrom(resolved: seq<ResolvedMiddleware>, skip: seq<string>)
    ensures forall m :: m in Kept(resolved, skip) <==> m in resolved && m.name !in skip
  {
    if resolved != [] {
      var n := |resolved| - 1;
      KeptFrom(resolved[..n], skip);
      assert resolved == resolved[..n] + [resolved[n]];
    }
  }

  /** How many entries are not skipped. */
  function Remaining(resolved: seq<ResolvedMiddleware>, skip: seq<string>): nat {
    if resolved == [] then 0
    else Remaining(resolved[..|resolved| - 1], skip) + if resolved[|resolved| - 1].name in skip then 0 else 1
  }

  lemma {:induction false} KeptSize(resolved: seq<ResolvedMiddleware>, skip: seq<string>)
    ensures |Kept(resolved, skip)| == Remaining(resolved, skip)
  {
    if resolved != [] {
      KeptSize(resolved[..|resolved| - 1], skip);
    }
  }

  /** Every entry that is not skipped stands behind exactly those of them that come before it. */
  lemma {:induction false} KeptAt(resolved: seq<ResolvedMiddleware>, skip: seq<string>, i: nat)
    requires i < |resolved| && resolved[i].name !in skip
    ensures Remaining(resolved[..i], skip) < |Kept(resolved, skip)|
    ensures Kept(resolved, skip)[Remaining(resolved[..i], skip)] == resolved[i]
  {
    var n := |resolved| - 1;
    KeptSize(resolved[..i], skip);
    if i < n {
      KeptAt(resolved[..n], skip, i);
      assert resolved[..n][..i] == resolved[..i];
    }
  }

  lemma {:induction false} KeptCounts(resolved: seq<ResolvedMiddleware>, skip: seq<string>, m: ResolvedMiddleware)
    ensures multiset(Kept(resolved, skip))[m] == if m.name in skip then 0 else multiset(resolved)[m]
  {
    if resolved != [] {
      KeptCounts(resolved[..|resolved| - 1], skip, m);
      CountLast(resolved, m);
      var before, last := Kept(resolved[..|resolved| - 1], skip), resolved[|resolved| - 1];
      CountLast(before + [last], m);
      assert (before + [last])[..|before|] == before;
    }
  }

  /** The effective chain entry by entry: the globals that are not skipped in order, each once,
      and the route's own behind them. */
  lemma ChainEntries(globals: seq<ResolvedMiddleware>, skip: seq<string>, own: seq<ResolvedMiddleware>)
    ensures var chain, kept := Chain(globals, skip, own), Remaining(globals, skip);
            && |chain| == kept + |own|
            && (forall i :: 0 <= i < |globals| && globals[i].name !in skip ==>
                  Remaining(globals[..i], skip) < kept && chain[Remaining(globals[..i], skip)] == globals[i])
            && (forall j :: 0 <= j < |own| ==> chain[kept + j] == own[j])
  {
    KeptSize(globals, skip);
    forall i | 0 <= i < |globals| && globals[i].name !in skip
      ensures Remaining(globals[..i], skip) < Remaining(globals, skip)
      ensures Chain(globals, skip, own)[Remaining(globals[..i], skip)] == globals[i]
    {
      KeptAt(globals, skip, i);
    }
  }

  lemma ResolvedIsBuildable<N>(refs: seq<MiddlewareRef<Shallow<N>>>, defs: map<string, MiddlewareDefinition<Shallow<N>>>, d: Decoders<N>)
    requires ResolveAll(refs, defs, d).Ok?
    ensures forall m :: m in ResolveAll(refs, defs, d).value ==> Buildable(m)
  {
    var resolved := ResolveAll(refs, defs, d).value;
    forall m | m in resolved
      ensures Buildable(m)
    {
      var i :| 0 <= i < |resolved| && resolved[i] == m;
      assert ResolveOne(refs[i], defs, d) == Ok(m);
    }
  }

  /** A configuration without semantic errors is built without an error. */
  lemma ValidConfigBuilds<N>(cfg: GatewayConfig<Shallow<N>>, d: Decoders<N>, c: Context)
    requires ConfigValid(cfg, d, c) && c.compiles("")
    ensures ResolveAll(cfg.middlewares, cfg.definitions, d).Ok?
    ensures forall i :: 0 <= i < |cfg.routes| ==> BuildsAt(cfg, d, i)
    ensures RegexesCompile(c, cfg.routes)
  {
    var globals := ResolveAll(cfg.middlewares, cfg.definitions, d).value;
    ResolvedIsBuildable(cfg.middlewares, cfg.definitions, d);
    forall i | 0 <= i < |cfg.routes|
      ensures BuildsAt(cfg, d, i) && c.compiles(cfg.routes[i].matching.pathRegex)
      ensures HeadersCompile(c, cfg.routes[i].matching.headers)
    {
      var route := cfg.routes[i];
      assert RouteValidAt(cfg, d, c, globals, i);
      ResolvedIsBuildable(route.middlewares, cfg.definitions, d);
      KeptFrom(globals, route.skipMiddlewares);
    }
  }

  /** A limiter whose window and number of requests the limiters' own results ask for, and an
      auth entry whose providers all exist. */
  predicate Serviceable(m: ResolvedMiddleware, c: Context) {
    && (m.kind == "rate_limit" ==>
          && m.config.RateLimit?
          && TB.Params(m.config.rateLimit.requests, m.config.rateLimit.window).Valid()
          && (m.config.rateLimit.algorithm == "sliding_window" ||
              (m.config.rateLimit.algorithm == "leaky_bucket" && c.backend == "redis")))
    && (m.kind == "auth" ==>
          && m.config.Auth?
          && m.config.auth.providers != []
          && (m.config.auth.providers == ["none"] || forall p :: p in m.config.auth.providers ==> p in c.authProviders))
  }

  lemma FaultlessIsServiceable(m: ResolvedMiddleware, c: Context)
    requires Faultless(m, c)
    ensures Serviceable(m, c)
  {
    assert !Fault(m, c, Mistyped);
    if m.kind == "rate_limit" {
      assert !Fault(m, c, BadRequests) && !Fault(m, c, BadWindow) && !Fault(m, c, BadAlgorithm) && !Fault(m, c, NeedsRedis);
    } else if m.kind == "auth" {
      var providers := m.config.auth.providers;
      assert !Fault(m, c, NoProviders) && !Fault(m, c, EmptyProvider) && !Fault(m, c, NoneCombined);
      forall p | p in providers && p != "none"
        ensures p in c.authProviders
      {
        assert !Fault(m, c, UnknownProvider(p));
      }
    }
  }

  /** In a valid configuration every entry of every effective chain is serviceable. */
  lemma ValidConfigServes<N>(cfg: GatewayConfig<Shallow<N>>, d: Decoders<N>, c: Context, i: nat)
    requires ConfigValid(cfg, d, c) && i < |cfg.routes|
    ensures var chain := RouteChain(cfg, d, cfg.routes[i]);
            chain.Some? && forall m :: m in chain.value ==> Serviceable(m, c)
  {
    var globals := ResolveAll(cfg.middlewares, cfg.definitions, d).value;
    assert RouteValidAt(cfg, d, c, globals, i);
    KeptFrom(globals, cfg.routes[i].skipMiddlewares);
    forall m | m in RouteChain(cfg, d, cfg.routes[i]).value
      ensures Serviceable(m, c)
    {
      FaultlessIsServiceable(m, c);
    }
  }

  /** CORS is the outermost layer if there is one and is entered once, and every limiter
      keyed by a claim is entered after an auth layer. */
  predicate WellShaped(h: Handler) {
    var trace := Trace(h);
    && (forall k :: 0 <= k < |trace| && trace[k].Enter? && trace[k].mw.kind == "cors" ==> k == 0)
    && (forall k :: (0 <= k < |trace| && trace[k].Enter? && trace[k].mw.kind == "rate_limit" && trace[k].mw.config.RateLimit?
                     && "claim:" <= trace[k].mw.config.rateLimit.keySource) ==> AuthEntered(trace, k))
  }

  predicate AuthEntered(trace: seq<Event>, k: nat)
    requires k <= |trace|
  {
    exists j :: 0 <= j < k && trace[j].Enter? && trace[j].mw.kind == "auth"
  }

  lemma CheckedChainShapes<Y>(route: RouteConfig<Y>, chain: seq<ResolvedMiddleware>)
    requires CorsFirst(chain) && ClaimsGuarded(chain)
    ensures WellShaped(RouteHandler(route, chain))
  {
    hide OfKind, Trace, RouteHandler;
    CorsStaysFirst(chain);
    ClaimsStayGuarded(chain);
    RouteTrace(route, chain);
    var outer, trace := OfKind(chain, false), Trace(RouteHandler(route, chain));
    assert forall k :: 0 <= k < |outer| ==> trace[k] == Enter(outer[k]);
    assert forall k :: |outer| <= k < |trace| ==> !trace[k].Enter?;
    hide Core, Each, Mirrored;
    forall k | 0 <= k < |trace| && trace[k].Enter? && KeyedByClaim(trace[k].mw)
      ensures AuthEntered(trace, k)
    {
      assert AuthBefore(outer, k);
      var j :| 0 <= j < k && outer[j].kind == "auth";
      assert trace[j].mw.kind == "auth";
    }
  }

  /** In the table built from a valid configuration every route finds its own handler, and
      the handler is well shaped. */
  lemma ValidConfigShapes<N>(cfg: GatewayConfig<Shallow<N>>, d: Decoders<N>, c: Context, handlers: map<string, Handler>, i: nat)
    requires ConfigValid(cfg, d, c) && HandlersOf(cfg, d, handlers, |cfg.routes|) && i < |cfg.routes|
    ensures HandledAt(cfg, d, handlers, i) && WellShaped(handlers[cfg.routes[i].name])
  {
    var globals := ResolveAll(cfg.middlewares, cfg.definitions, d).value;
    assert RouteValidAt(cfg, d, c, globals, i);
    assert LastNamed(cfg.routes, i, |cfg.routes|);
    assert HandledAt(cfg, d, handlers, i);
    CheckedChainShapes(cfg.routes[i], RouteChain(cfg, d, cfg.routes[i]).value);
  }
}
