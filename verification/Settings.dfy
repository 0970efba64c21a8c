/** The checks on the settings of single middlewares. */
module Settings {
  import opened Resolve

  /** What the checks look up outside routes and middlewares: whether the regular-expression
      engine takes a pattern, the rate limiters' backend and the names of the auth providers. */
  datatype Context = Context(compiles: string -> bool, backend: string, authProviders: set<string>)

  datatype SettingError =
    | Mistyped
    | BadRequests
    | BadWindow
    | BadAlgorithm
    | NeedsRedis
    | BadKeySource
    | NoProviders
    | EmptyProvider
    | DuplicateProvider(provider: string)
    | UnknownProvider(provider: string)
    | NoneCombined
    | NoOrigins

  predicate KeySourceValid(source: string) {
    source == "" || source == "ip" || ("header:" <= source && source != "header:") || ("claim:" <= source && source != "claim:")
  }

  /** What is wrong with a limiter. */
  predicate LimitFault(limit: RateLimitConfig, c: Context, e: SettingError) {
    match e
    case BadRequests => limit.requests <= 0
    case BadWindow => limit.window <= 0
    case BadAlgorithm => limit.algorithm != "sliding_window" && limit.algorithm != "leaky_bucket"
    case NeedsRedis => limit.algorithm == "leaky_bucket" && c.backend != "redis"
    case BadKeySource => !KeySourceValid(limit.keySource)
    case _ => false
  }

  predicate Repeats(providers: seq<string>, p: string) {
    exists i, j :: 0 <= i < j < |providers| && providers[i] == providers[j] == p
  }

  /** What is wrong with a list of auth providers. */
  predicate ProviderFault(providers: seq<string>, known: set<string>, e: SettingError) {
    match e
    case NoProviders => providers == []
    case EmptyProvider => "" in providers
    case DuplicateProvider(p) => p != "" && Repeats(providers, p)
    case UnknownProvider(p) => p in providers && p != "" && p != "none" && p !in known
    case NoneCombined => "none" in providers && |providers| > 1
    case _ => false
  }

  predicate Fault(m: ResolvedMiddleware, c: Context, e: SettingError) {
    match m.kind
    case "rate_limit" => if m.config.RateLimit? then LimitFault(m.config.rateLimit, c, e) else e == Mistyped
    case "auth" => if m.config.Auth? then ProviderFault(m.config.auth.providers, c.authProviders, e) else e == Mistyped
    case "cors" => if m.config.Cors? then e == NoOrigins && m.config.cors.allowedOrigins == [] else e == Mistyped
    case _ => false
  }

  ghost predicate Faultless(m: ResolvedMiddleware, c: Context) {
    forall e :: !Fault(m, c, e)
  }

  /** What a middleware without faults looks like, field by field. */
  predicate Sound(m: ResolvedMiddleware, c: Context) {
    match m.kind
    case "rate_limit" =>
      && m.config.RateLimit?
      && var l := m.config.rateLimit;
         && l.requests > 0 && l.window > 0
         && (l.algorithm == "sliding_window" || (l.algorithm == "leaky_bucket" && c.backend == "redis"))
         && (l.keySource in {"", "ip"}
             || ("header:" <= l.keySource && |l.keySource| > 7) || ("claim:" <= l.keySource && |l.keySource| > 6))
    case "auth" =>
      && m.config.Auth?
      && var names := m.config.auth.providers;
         && names != [] && "" !in names
         && (forall i, j :: 0 <= i < j < |names| ==> names[i] != names[j])
         && (names == ["none"] || forall p :: p in names ==> p != "none" && p in c.authProviders)
    case "cors" => m.config.Cors? && m.config.cors.allowedOrigins != []
    case _ => true
  }

  lemma LimitFaultlessIff(l: RateLimitConfig, c: Context)
    ensures (forall e :: !LimitFault(l, c, e)) <==>
            && l.requests > 0 && l.window > 0
            && (l.algorithm == "sliding_window" || (l.algorithm == "leaky_bucket" && c.backend == "redis"))
            && KeySourceValid(l.keySource)
  {
    if forall e :: !LimitFault(l, c, e) {
      assert !LimitFault(l, c, BadRequests) && !LimitFault(l, c, BadWindow) && !LimitFault(l, c, BadAlgorithm);
      assert !LimitFault(l, c, NeedsRedis) && !LimitFault(l, c, BadKeySource);
    }
  }

  lemma ProvidersFaultlessIff(names: seq<string>, known: set<string>)
    ensures (forall e :: !ProviderFault(names, known, e)) <==>
            && names != [] && "" !in names
            && (forall i, j :: 0 <= i < j < |names| ==> names[i] != names[j])
            && (names == ["none"] || forall p :: p in names ==> p != "none" && p in known)
  {
    if forall e :: !ProviderFault(names, known, e) {
      assert !ProviderFault(names, known, NoProviders) && !ProviderFault(names, known, EmptyProvider);
      assert !ProviderFault(names, known, NoneCombined);
      forall i, j | 0 <= i < j < |names|
        ensures names[i] != names[j]
      {
        assert !ProviderFault(names, known, DuplicateProvider(names[i]));
        assert names[i] in names;
      }
      forall p | p in names && p != "none"
        ensures p in known
      {
        assert !ProviderFault(names, known, UnknownProvider(p));
      }
    }
  }

  /** The faults that the checks look for leave exactly the sound middlewares. */
  lemma FaultlessIff(m: ResolvedMiddleware, c: Context)
    ensures Faultless(m, c) <==> Sound(m, c)
  {
    if m.kind == "rate_limit" && m.config.RateLimit? {
      assert forall e :: Fault(m, c, e) <==> LimitFault(m.config.rateLimit, c, e);
      LimitFaultlessIff(m.config.rateLimit, c);
      KeySourceIff(m.config.rateLimit.keySource);
    } else if m.kind == "auth" && m.config.Auth? {
      assert forall e :: Fault(m, c, e) <==> ProviderFault(m.config.auth.providers, c.authProviders, e);
      ProvidersFaultlessIff(m.config.auth.providers, c.authProviders);
    } else if m.kind == "cors" && m.config.Cors? {
      assert Fault(m, c, NoOrigins) <==> m.config.cors.allowedOrigins == [];
    } else {
      assert Fault(m, c, Mistyped) <==> m.kind in {"rate_limit", "auth", "cors"};
    }
  }

  lemma KeySourceIff(source: string)
    ensures KeySourceValid(source) <==>
            source in {"", "ip"} || ("header:" <= source && |source| > 7) || ("claim:" <= source && |source| > 6)
  {
  }

  lemma NameAfter(source: string, prefix: string)
    requires prefix <= source
    ensures source[|prefix|..] == "" <==> source == prefix
  {
    assert source == prefix + source[|prefix|..];
  }

  method LimitErrors(limit: RateLimitConfig, c: Context) returns (errs: seq<SettingError>)
    ensures forall e :: e in errs <==> LimitFault(limit, c, e)
  {
    errs := [];
    if limit.requests <= 0 {
      errs := errs + [BadRequests];
    }
    if limit.window <= 0 {
      errs := errs + [BadWindow];
    }
    if limit.algorithm != "sliding_window" && limit.algorithm != "leaky_bucket" {
      errs := errs + [BadAlgorithm];
    }
    if limit.algorithm == "leaky_bucket" && c.backend != "redis" {
      errs := errs + [NeedsRedis];
    }
    if "header:" <= limit.keySource {
      NameAfter(limit.keySource, "header:");
      assert limit.keySource[0] == 'h';
    } else if "claim:" <= limit.keySource {
      NameAfter(limit.keySource, "claim:");
    }
    if limit.keySource != "" && limit.keySource != "ip" {
      if !("header:" <= limit.keySource) && !("claim:" <= limit.keySource) {
        errs := errs + [BadKeySource];
      } else if "header:" <= limit.keySource && limit.keySource[|"header:"|..] == "" {
        errs := errs + [BadKeySource];
      } else if "claim:" <= limit.keySource && limit.keySource[|"claim:"|..] == "" {
        errs := errs + [BadKeySource];
      }
    }
  }

  method ProviderErrors(providers: seq<string>, known: set<string>) returns (errs: seq<SettingError>)
    ensures forall e :: e in errs <==> ProviderFault(providers, known, e)
  {
    if |providers| == 0 {
      return [NoProviders];
    }
    errs := [];
    var seen := {};
    for i := 0 to |providers|
      invariant forall p :: p in seen <==> p in providers[..i] && p != ""
      invariant forall e :: e in errs <==> !e.NoProviders? && !e.NoneCombined? && ProviderFault(providers[..i], known, e)
    {
      var p := providers[i];
      OneMoreProvider(providers, known, i);
      if p == "" {
        errs := errs + [EmptyProvider];
        continue;
      }
      if p in seen {
        errs := errs + [DuplicateProvider(p)];
        continue;
      }
      seen := seen + {p};
      if p != "none" && p !in known {
        errs := errs + [UnknownProvider(p)];
      }
    }
    assert providers[..|providers|] == providers;
    if "none" in seen && |providers| > 1 {
      errs := errs + [NoneCombined];
    }
  }

  /** What a further provider adds to the faults found in the list so far. */
  lemma OneMoreProvider(providers: seq<string>, known: set<string>, i: nat)
    requires i < |providers|
    ensures var before, after, p := providers[..i], providers[..i + 1], providers[i];
            && after == before + [p]
            && (forall q :: Repeats(after, q) <==> Repeats(before, q) || (q == p && p in before))
  {
    var before, after, p := providers[..i], providers[..i + 1], providers[i];
    assert after == before + [p];
    forall q
      ensures Repeats(after, q) <==> Repeats(before, q) || (q == p && p in before)
    {
      if Repeats(before, q) {
        var j, k :| 0 <= j < k < |before| && before[j] == before[k] == q;
        assert after[j] == after[k] == q;
      }
      if q == p && p in before {
        var j :| 0 <= j < i && before[j] == p;
        assert after[j] == after[i] == q;
      }
    }
  }

  method SettingErrors(m: ResolvedMiddleware, c: Context) returns (errs: seq<SettingError>)
    ensures forall e :: e in errs <==> Fault(m, c, e)
    ensures errs == [] <==> Faultless(m, c)
  {
    match m.kind {
      case "rate_limit" =>
        if m.config.RateLimit? {
          errs := LimitErrors(m.config.rateLimit, c);
        } else {
          errs := [Mistyped];
        }
      case "auth" =>
        if m.config.Auth? {
          errs := ProviderErrors(m.config.auth.providers, c.authProviders);
        } else {
          errs := [Mistyped];
        }
      case "cors" =>
        if m.config.Cors? {
          errs := if |m.config.cors.allowedOrigins| == 0 then [NoOrigins] else [];
        } else {
          errs := [Mistyped];
        }
      case _ =>
        errs := [];
    }
    assert errs != [] ==> Fault(m, c, errs[0]);
  }
}
