/** Resolving middleware references against the definitions: look up, merge the override,
    decode into the typed configuration. */
module Resolve {
  import opened GatewayConfig
  import opened Wrappers
  import opened YamlMerge

  /** A node with the nodes right below it. */
  datatype Shallow<N> = Shallow(kind: Kind, tag: string, value: string, content: seq<NodeData<N>>)

  datatype CorsConfig = CorsConfig(allowedOrigins: seq<string>)
  datatype RateLimitConfig = RateLimitConfig(requests: int, window: int, keySource: string, algorithm: string)
  datatype AuthConfig = AuthConfig(providers: seq<string>)
  datatype TransformConfig = TransformConfig(maxBodySize: int)

  datatype TypedConfig =
    | Cors(cors: CorsConfig)
    | RateLimit(rateLimit: RateLimitConfig)
    | Auth(auth: AuthConfig)
    | Transform(transform: TransformConfig)

  datatype ResolvedMiddleware = ResolvedMiddleware(name: string, kind: string, config: TypedConfig)

  /** The YAML decoder for each typed configuration. */
  datatype Decoders<!N> = Decoders(
    cors: Shallow<N> -> Option<CorsConfig>,
    rateLimit: Shallow<N> -> Option<RateLimitConfig>,
    auth: Shallow<N> -> Option<AuthConfig>,
    transform: Shallow<N> -> Option<TransformConfig>)

  datatype ResolveError = NotFound(ref: string) | MergeFailed(ref: string) | DecodeFailed(ref: string)

  function Defaulted(c: RateLimitConfig): RateLimitConfig {
    if c.algorithm == "" then c.(algorithm := "sliding_window") else c
  }

  /** A node that is absent decodes to the zero configuration. */
  function DecodeTyped<N>(d: Decoders<N>, kind: string, node: Shallow<N>): Option<TypedConfig> {
    match kind
    case "cors" =>
      var c := if node.kind == Absent then Some(CorsConfig([])) else d.cors(node);
      if c.Some? then Some(Cors(c.value)) else None
    case "rate_limit" =>
      var c := if node.kind == Absent then Some(RateLimitConfig(0, 0, "", "")) else d.rateLimit(node);
      if c.Some? then Some(RateLimit(Defaulted(c.value))) else None
    case "auth" =>
      var c := if node.kind == Absent then Some(AuthConfig([])) else d.auth(node);
      if c.Some? then Some(Auth(c.value)) else None
    case "transform" =>
      var c := if node.kind == Absent then Some(TransformConfig(0)) else d.transform(node);
      if c.Some? then Some(Transform(c.value)) else None
    case _ => None
  }

  /** The configuration has the type that the middleware's kind names. */
  predicate WellTyped(m: ResolvedMiddleware) {
    match m.config
    case Cors(_) => m.kind == "cors"
    case RateLimit(_) => m.kind == "rate_limit"
    case Auth(_) => m.kind == "auth"
    case Transform(_) => m.kind == "transform"
  }

  function MergeNodes<N>(base: Shallow<N>, over: Shallow<N>): Result<Shallow<N>, MergeError> {
    if base.kind == Absent then Ok(over)
    else if base.kind != Mapping then Err(BaseNotMapping)
    else if over.kind != Mapping then Err(OverrideNotMapping)
    else Ok(Shallow(Mapping, base.tag, "", MergeContent(base.content, over.content)))
  }

  function ResolveOne<N>(ref: MiddlewareRef<Shallow<N>>, defs: map<string, MiddlewareDefinition<Shallow<N>>>, d: Decoders<N>)
    : (r: Result<ResolvedMiddleware, ResolveError>)
    ensures r.Ok? ==> r.value.name == ref.ref && ref.ref in defs && r.value.kind == defs[ref.ref].kind && WellTyped(r.value)
  {
    if ref.ref !in defs then Err(NotFound(ref.ref))
    else
      var def := defs[ref.ref];
      var merged := if ref.config.kind == Absent then Ok(def.config) else MergeNodes(def.config, ref.config);
      if merged.Err? then Err(MergeFailed(ref.ref))
      else
        var typed := DecodeTyped(d, def.kind, merged.value);
        if typed.None? then Err(DecodeFailed(ref.ref)) else Ok(ResolvedMiddleware(ref.ref, def.kind, typed.value))
  }

  // ---------- What a reference resolves to ----------

  /** The typed configuration that the decoder of a kind makes of a node: the zero configuration
      of an absent one, and for a limiter the sliding window where no algorithm is named. */
  predicate Decodes<N>(d: Decoders<N>, kind: string, node: Shallow<N>, typed: TypedConfig) {
    match typed
    case Cors(c) => kind == "cors" && (if node.kind == Absent then c == CorsConfig([]) else d.cors(node) == Some(c))
    case Auth(c) => kind == "auth" && (if node.kind == Absent then c == AuthConfig([]) else d.auth(node) == Some(c))
    case Transform(c) => kind == "transform" && (if node.kind == Absent then c == TransformConfig(0) else d.transform(node) == Some(c))
    case RateLimit(c) =>
      kind == "rate_limit" &&
      if node.kind == Absent then c == RateLimitConfig(0, 0, "", "sliding_window")
      else
        && d.rateLimit(node).Some?
        && var raw := d.rateLimit(node).value;
           && c.requests == raw.requests && c.window == raw.window && c.keySource == raw.keySource
           && c.algorithm == if raw.algorithm == "" then "sliding_window" else raw.algorithm
  }

  lemma DecodesIff<N>(d: Decoders<N>, kind: string, node: Shallow<N>, typed: TypedConfig)
    ensures DecodeTyped(d, kind, node) == Some(typed) <==> Decodes(d, kind, node, typed)
  {
  }

  /** The outcome for a reference when the given node is decoded. */
  ghost predicate DecodedFrom<N>(d: Decoders<N>, name: string, kind: string, node: Shallow<N>, r: Result<ResolvedMiddleware, ResolveError>) {
    match r
    case Ok(m) => m.name == name && m.kind == kind && Decodes(d, kind, node, m.config)
    case Err(error) => error == DecodeFailed(name) && forall typed :: !Decodes(d, kind, node, typed)
  }

  /** A mapping in which every name looks up to the override's value if it has one and otherwise
      to the base's, and which keeps the base's keys in place. */
  ghost predicate Overlays<N>(node: Shallow<N>, base: Shallow<N>, over: Shallow<N>) {
    var n, b, o := Pairs(node.content), Pairs(base.content), Pairs(over.content);
    && node.kind == Mapping && node.tag == base.tag && |node.content| % 2 == 0
    && (forall name :: Lookup(n, name) == if Lookup(o, name).Some? then Lookup(o, name) else Lookup(b, name))
    && |n| >= |b| && (forall i :: 0 <= i < |b| ==> n[i].key == b[i].key)
    && (DistinctKeys(o) ==> DistinctKeys(n))
  }

  lemma MergedOverlays<N>(base: Shallow<N>, over: Shallow<N>)
    requires base.kind == over.kind == Mapping && |base.content| % 2 == 0 && DistinctKeys(Pairs(base.content))
    ensures MergeNodes(base, over).Ok? && Overlays(MergeNodes(base, over).value, base, over)
  {
    var b, o := Pairs(base.content), Pairs(over.content);
    AppliedIsMerge(base.content, over.content, |over.content| / 2);
    MergeContentIsMerge(base.content, over.content);
    forall name
      ensures Lookup(Merge(b, o), name) == if Lookup(o, name).Some? then Lookup(o, name) else Lookup(b, name)
    {
      MergeLookup(b, o, name);
    }
    if DistinctKeys(o) {
      MergeKeys(b, o);
    }
  }

  lemma DecodingIsExact<N>(ref: MiddlewareRef<Shallow<N>>, defs: map<string, MiddlewareDefinition<Shallow<N>>>, d: Decoders<N>, node: Shallow<N>)
    requires ref.ref in defs
    requires (if ref.config.kind == Absent then Ok(defs[ref.ref].config) else MergeNodes(defs[ref.ref].config, ref.config)) == Ok(node)
    ensures DecodedFrom(d, ref.ref, defs[ref.ref].kind, node, ResolveOne(ref, defs, d))
  {
    forall typed
      ensures DecodeTyped(d, defs[ref.ref].kind, node) == Some(typed) <==> Decodes(d, defs[ref.ref].kind, node, typed)
    {
      DecodesIff(d, defs[ref.ref].kind, node, typed);
    }
  }

  /** Exactly what one reference resolves to. Without an override its definition's node is
      decoded, without a definition's the override; of two mappings, one that overlays the
      definition's with the override; and other nodes cannot be merged. */
  lemma ResolvesExactly<N>(ref: MiddlewareRef<Shallow<N>>, defs: map<string, MiddlewareDefinition<Shallow<N>>>, d: Decoders<N>)
    returns (node: Shallow<N>)
    ensures var r, over := ResolveOne(ref, defs, d), ref.config;
            if ref.ref !in defs then r == Err(NotFound(ref.ref))
            else
              var kind, base := defs[ref.ref].kind, defs[ref.ref].config;
              && (over.kind == Absent ==> DecodedFrom(d, ref.ref, kind, base, r))
              && (over.kind != Absent && base.kind == Absent ==> DecodedFrom(d, ref.ref, kind, over, r))
              && (over.kind != Absent && base.kind == Other ==> r == Err(MergeFailed(ref.ref)))
              && (over.kind == Other && base.kind == Mapping ==> r == Err(MergeFailed(ref.ref)))
              && (over.kind == base.kind == Mapping && |base.content| % 2 == 0 && DistinctKeys(Pairs(base.content)) ==>
                    Overlays(node, base, over) && DecodedFrom(d, ref.ref, kind, node, r))
  {
    node := ref.config;
    if ref.ref in defs {
      var base := defs[ref.ref].config;
      var merged := if ref.config.kind == Absent then Ok(base) else MergeNodes(base, ref.config);
      if merged.Ok? {
        node := merged.value;
        DecodingIsExact(ref, defs, d, node);
        if ref.config.kind == base.kind == Mapping && |base.content| % 2 == 0 && DistinctKeys(Pairs(base.content)) {
          MergedOverlays(base, ref.config);
        }
      }
    }
  }

  /** All references in order, or the first error. */
  function ResolveAll<N>(refs: seq<MiddlewareRef<Shallow<N>>>, defs: map<string, MiddlewareDefinition<Shallow<N>>>, d: Decoders<N>)
    : (r: Result<seq<ResolvedMiddleware>, ResolveError>)
    ensures r.Ok? ==> |r.value| == |refs| && forall i :: 0 <= i < |refs| ==> ResolveOne(refs[i], defs, d) == Ok(r.value[i])
  {
    if refs == [] then Ok([])
    else
      var before := ResolveAll(refs[..|refs| - 1], defs, d);
      if before.Err? then before
      else
        var last := ResolveOne(refs[|refs| - 1], defs, d);
        if last.Err? then Err(last.error) else Ok(before.value + [last.value])
  }

  /** The list resolves if and only if every reference does, and its error is that of the first
      reference that does not. */
  lemma {:induction false} ResolveAllExactly<N>(refs: seq<MiddlewareRef<Shallow<N>>>, defs: map<string, MiddlewareDefinition<Shallow<N>>>, d: Decoders<N>)
    ensures var r := ResolveAll(refs, defs, d);
            && (r.Ok? <==> forall i :: 0 <= i < |refs| ==> ResolveOne(refs[i], defs, d).Ok?)
            && (r.Err? ==> exists i :: 0 <= i < |refs| && ResolveOne(refs[i], defs, d) == Err(r.error)
                                       && forall j :: 0 <= j < i ==> ResolveOne(refs[j], defs, d).Ok?)
  {
    if refs != [] {
      var n := |refs| - 1;
      ResolveAllExactly(refs[..n], defs, d);
      assert forall i :: 0 <= i < n ==> refs[..n][i] == refs[i];
      if ResolveAll(refs[..n], defs, d).Err? {
        var i :| 0 <= i < n && ResolveOne(refs[..n][i], defs, d) == Err(ResolveAll(refs[..n], defs, d).error)
                 && forall j :: 0 <= j < i ==> ResolveOne(refs[..n][j], defs, d).Ok?;
        assert ResolveOne(refs[i], defs, d).Err?;
      }
    }
  }

  // ---------- On the heap ----------

  function Look(data: NodeData<Node>): Shallow<Node>
    reads data.content
  {
    Shallow(data.kind, data.tag, data.value,
            seq(|data.content|, i requires 0 <= i < |data.content| reads data.content => data.content[i].data))
  }

  ghost predicate Shows(data: NodeData<Node>, node: Shallow<Node>)
    reads data.content
  {
    data.kind == node.kind && data.tag == node.tag && data.value == node.value && Hold(data.content, node.content)
  }

  lemma LookShows(data: NodeData<Node>, node: Shallow<Node>)
    requires Shows(data, node)
    ensures Look(data) == node
  {
    assert Look(data).content == node.content;
  }

  ghost predicate ShowsDef(def: MiddlewareDefinition<NodeData<Node>>, view: MiddlewareDefinition<Shallow<Node>>)
    reads def.config.content
  {
    def.kind == view.kind && Shows(def.config, view.config)
  }

  ghost predicate ShowsRef(ref: MiddlewareRef<NodeData<Node>>, view: MiddlewareRef<Shallow<Node>>)
    reads ref.config.content
  {
    ref.ref == view.ref && Shows(ref.config, view.config)
  }

  /** One reference. Nothing that existed before is changed, so the definition keeps its
      configuration whatever the override says. */
  method ResolveRef(ref: MiddlewareRef<NodeData<Node>>, def: MiddlewareDefinition<NodeData<Node>>, d: Decoders<Node>,
                    ghost refView: MiddlewareRef<Shallow<Node>>, ghost defs: map<string, MiddlewareDefinition<Shallow<Node>>>)
    returns (r: Result<ResolvedMiddleware, ResolveError>)
    requires ShowsRef(ref, refView) && ref.ref in defs && ShowsDef(def, defs[ref.ref])
    ensures r == ResolveOne(refView, defs, d)
  {
    ghost var defView := defs[ref.ref];
    var cfgNode := def.config;
    ghost var shown := defView.config;
    if ref.config.kind != Absent {
      var merged := MergeYamlNodes(def.config, ref.config, defView.config.content, refView.config.content);
      if merged.Err? {
        return Err(MergeFailed(ref.ref));
      }
      cfgNode := merged.value;
      shown := MergeNodes(defView.config, refView.config).value;
    }
    LookShows(cfgNode, shown);
    var typed := DecodeTyped(d, def.kind, Look(cfgNode));
    if typed.None? {
      return Err(DecodeFailed(ref.ref));
    }
    return Ok(ResolvedMiddleware(ref.ref, def.kind, typed.value));
  }

  method ResolveMiddlewares(refs: seq<MiddlewareRef<NodeData<Node>>>, defs: map<string, MiddlewareDefinition<NodeData<Node>>>,
                            d: Decoders<Node>, ghost refViews: seq<MiddlewareRef<Shallow<Node>>>,
                            ghost defViews: map<string, MiddlewareDefinition<Shallow<Node>>>)
    returns (r: Result<seq<ResolvedMiddleware>, ResolveError>)
    requires |refs| == |refViews| && forall i :: 0 <= i < |refs| ==> ShowsRef(refs[i], refViews[i])
    requires defs.Keys == defViews.Keys && forall name :: name in defs ==> ShowsDef(defs[name], defViews[name])
    ensures r == ResolveAll(refViews, defViews, d)
  {
    var resolved := [];
    for i := 0 to |refs|
      invariant ResolveAll(refViews[..i], defViews, d) == Ok(resolved)
    {
      assert refViews[..i + 1][..i] == refViews[..i];
      var ref := refs[i];
      if ref.ref !in defs {
        FirstError(refViews, defViews, d, i + 1);
        return Err(NotFound(ref.ref));
      }
      var one := ResolveRef(ref, defs[ref.ref], d, refViews[i], defViews);
      if one.Err? {
        FirstError(refViews, defViews, d, i + 1);
        return Err(one.error);
      }
      resolved := resolved + [one.value];
    }
    assert refViews[..|refs|] == refViews;
    return Ok(resolved);
  }

  lemma {:induction false} FirstError<N>(refs: seq<MiddlewareRef<Shallow<N>>>, defs: map<string, MiddlewareDefinition<Shallow<N>>>,
                                         d: Decoders<N>, n: nat)
    requires n <= |refs| && ResolveAll(refs[..n], defs, d).Err?
    ensures ResolveAll(refs, defs, d) == ResolveAll(refs[..n], defs, d)
  {
    if n < |refs| {
      assert refs[..|refs| - 1][..n] == refs[..n];
      FirstError(refs[..|refs| - 1], defs, d, n);
    } else {
      assert refs[..n] == refs;
    }
  }
}
