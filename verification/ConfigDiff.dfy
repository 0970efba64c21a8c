/** The summary of what a reload changed. YAML nodes are compared by the text they marshal to;
    a node that fails to marshal counts as different from every node. */
module ConfigDiff {
  import opened Wrappers
  import opened GatewayConfig
  import opened Orders

  predicate YamlNodeEqual<Y>(marshal: Y -> Option<string>, a: Y, b: Y) {
    marshal(a).Some? && marshal(b).Some? && marshal(a).value == marshal(b).value
  }

  // ---- What it means for two configurations to be the same ----

  ghost predicate SameRefs<Y>(marshal: Y -> Option<string>, a: seq<MiddlewareRef<Y>>, b: seq<MiddlewareRef<Y>>) {
    |a| == |b| &&
    forall i :: 0 <= i < |a| ==> a[i].ref == b[i].ref && YamlNodeEqual(marshal, a[i].config, b[i].config)
  }

  /** The two routes agree on everything but their names. */
  ghost predicate SameRoute<Y>(marshal: Y -> Option<string>, a: RouteConfig<Y>, b: RouteConfig<Y>) {
    a.matching == b.matching && a.upstream == b.upstream && a.retry == b.retry &&
    a.circuitBreaker == b.circuitBreaker && a.skipMiddlewares == b.skipMiddlewares &&
    SameRefs(marshal, a.middlewares, b.middlewares)
  }

  predicate SameDefinition<Y>(marshal: Y -> Option<string>, a: MiddlewareDefinition<Y>, b: MiddlewareDefinition<Y>) {
    a.kind == b.kind && YamlNodeEqual(marshal, a.config, b.config)
  }

  ghost predicate SameConfig<Y>(marshal: Y -> Option<string>, a: GatewayConfig<Y>, b: GatewayConfig<Y>) {
    && |a.routes| == |b.routes|
    && (forall i :: 0 <= i < |a.routes| ==>
         a.routes[i].name == b.routes[i].name && SameRoute(marshal, a.routes[i], b.routes[i]))
    && a.definitions.Keys == b.definitions.Keys
    && (forall n :: n in a.definitions ==> SameDefinition(marshal, a.definitions[n], b.definitions[n]))
    && SameRefs(marshal, a.middlewares, b.middlewares)
  }

  /** Every node marshals, and different nodes marshal differently. */
  ghost predicate Faithful<Y(!new)>(marshal: Y -> Option<string>) {
    (forall a :: marshal(a).Some?) && (forall a, b :: marshal(a) == marshal(b) ==> a == b)
  }

  /** No setting is left out of the comparison: with a faithful marshaller, only equal
      configurations are the same. */
  lemma SameIsEqual<Y(!new)>(marshal: Y -> Option<string>, a: GatewayConfig<Y>, b: GatewayConfig<Y>)
    requires Faithful(marshal)
    ensures SameConfig(marshal, a, b) <==> a == b
  {
    if SameConfig(marshal, a, b) {
      SameRefsAreEqual(marshal, a.middlewares, b.middlewares);
      forall i | 0 <= i < |a.routes| ensures a.routes[i] == b.routes[i] {
        SameRefsAreEqual(marshal, a.routes[i].middlewares, b.routes[i].middlewares);
      }
      assert a.routes == b.routes;
      assert forall n :: n in a.definitions ==> a.definitions[n] == b.definitions[n];
      assert a.definitions == b.definitions;
    }
  }

  lemma SameRefsAreEqual<Y(!new)>(marshal: Y -> Option<string>, a: seq<MiddlewareRef<Y>>, b: seq<MiddlewareRef<Y>>)
    requires Faithful(marshal) && SameRefs(marshal, a, b)
    ensures a == b
  {
    assert forall i :: 0 <= i < |a| ==> a[i] == b[i];
  }

  // ---- The comparison helpers ----

  method StringSliceEqual(a: seq<string>, b: seq<string>) returns (equal: bool)
    ensures equal <==> a == b
  {
    if |a| != |b| {
      return false;
    }
    for i := 0 to |a|
      invariant a[..i] == b[..i]
    {
      if a[i] != b[i] {
        return false;
      }
    }
    return true;
  }

  lemma SubsetOfEqualSize<T>(a: set<T>, b: set<T>)
    requires a <= b && |a| == |b|
    ensures a == b
  {
    assert b == a + (b - a);
  }

  /** Only the keys of the first map are visited; equal sizes make that enough. */
  method StringMapEqual(a: map<string, string>, b: map<string, string>) returns (equal: bool)
    ensures equal <==> a == b
  {
    if |a| != |b| {
      return false;
    }
    var rest := a.Keys;
    while rest != {}
      invariant rest <= a.Keys
      invariant forall k :: k in a && k !in rest ==> k in b && a[k] == b[k]
    {
      var k :| k in rest;
      if k !in b || a[k] != b[k] {
        return false;
      }
      rest := rest - {k};
    }
    SubsetOfEqualSize(a.Keys, b.Keys);
    return true;
  }

  method RetryEqual(a: Option<RetryConfig>, b: Option<RetryConfig>) returns (equal: bool)
    ensures equal <==> a == b
  {
    if a.None? && b.None? {
      return true;
    }
    if a.None? || b.None? {
      return false;
    }
    var x, y := a.value, b.value;
    if x.maxRetries != y.maxRetries || x.initialDelay != y.initialDelay || x.multiplier != y.multiplier {
      return false;
    }
    if |x.retryableStatusCodes| != |y.retryableStatusCodes| {
      return false;
    }
    for i := 0 to |x.retryableStatusCodes|
      invariant x.retryableStatusCodes[..i] == y.retryableStatusCodes[..i]
    {
      if x.retryableStatusCodes[i] != y.retryableStatusCodes[i] {
        return false;
      }
    }
    assert x.retryableStatusCodes == y.retryableStatusCodes by {
      assert x.retryableStatusCodes[..|x.retryableStatusCodes|] == x.retryableStatusCodes;
      assert y.retryableStatusCodes[..|x.retryableStatusCodes|] == y.retryableStatusCodes;
    }
    return true;
  }

  predicate CbEqual(a: Option<CircuitBreakerConfig>, b: Option<CircuitBreakerConfig>)
    ensures CbEqual(a, b) <==> a == b
  {
    if a.None? && b.None? then true
    else if a.None? || b.None? then false
    else
      a.value.failureThreshold == b.value.failureThreshold &&
      a.value.successThreshold == b.value.successThreshold && a.value.timeout == b.value.timeout
  }

  method MiddlewareRefsEqual<Y>(marshal: Y -> Option<string>, a: seq<MiddlewareRef<Y>>, b: seq<MiddlewareRef<Y>>)
    returns (equal: bool)
    ensures equal <==> SameRefs(marshal, a, b)
  {
    if |a| != |b| {
      return false;
    }
    for i := 0 to |a|
      invariant forall j :: 0 <= j < i ==> a[j].ref == b[j].ref && YamlNodeEqual(marshal, a[j].config, b[j].config)
    {
      if a[i].ref != b[i].ref {
        return false;
      }
      if !YamlNodeEqual(marshal, a[i].config, b[i].config) {
        return false;
      }
    }
    return true;
  }

  method RouteChanged<Y>(marshal: Y -> Option<string>, a: RouteConfig<Y>, b: RouteConfig<Y>) returns (changed: bool)
    ensures changed <==> !SameRoute(marshal, a, b)
  {
    if a.matching.pathRegex != b.matching.pathRegex {
      return true;
    }
    var same := StringSliceEqual(a.matching.methods, b.matching.methods);
    if !same {
      return true;
    }
    if a.matching.host != b.matching.host {
      return true;
    }
    same := StringMapEqual(a.matching.headers, b.matching.headers);
    if !same {
      return true;
    }
    if a.upstream.url != b.upstream.url || a.upstream.pathRewrite != b.upstream.pathRewrite ||
       a.upstream.timeout != b.upstream.timeout {
      return true;
    }
    same := RetryEqual(a.retry, b.retry);
    if !same {
      return true;
    }
    if !CbEqual(a.circuitBreaker, b.circuitBreaker) {
      return true;
    }
    same := StringSliceEqual(a.skipMiddlewares, b.skipMiddlewares);
    if !same {
      return true;
    }
    same := MiddlewareRefsEqual(marshal, a.middlewares, b.middlewares);
    return !same;
  }

  // ---- The summary ----

  datatype Change =
    | RouteAdded(name: string) | RouteModified(name: string) | RouteRemoved(name: string) | OrderChanged
    | DefinitionAdded(name: string) | DefinitionModified(name: string) | DefinitionRemoved(name: string)
    | GlobalsChanged

  ghost predicate Named<Y>(routes: seq<RouteConfig<Y>>, name: string) {
    exists i :: 0 <= i < |routes| && routes[i].name == name
  }

  /** The routes by name; of several routes with one name the last wins. */
  function Indexed<Y>(routes: seq<RouteConfig<Y>>): (m: map<string, RouteConfig<Y>>)
    ensures forall n :: n in m ==> Named(routes, n) && m[n].name == n
    ensures forall i :: 0 <= i < |routes| ==> routes[i].name in m
  {
    if routes == [] then map[]
    else
      var last := |routes| - 1;
      assert forall i :: 0 <= i < last ==> routes[..last][i] == routes[i];
      Indexed(routes[..last])[routes[last].name := routes[last]]
  }

  lemma IndexedLast<Y>(routes: seq<RouteConfig<Y>>)
    requires routes != []
    ensures var last := |routes| - 1;
            Indexed(routes) == Indexed(routes[..last])[routes[last].name := routes[last]]
  {
  }

  /** A route is found by its name unless a later one has the name too. */
  lemma {:induction false} IndexedFinds<Y>(routes: seq<RouteConfig<Y>>, i: nat)
    requires i < |routes| && forall j :: i < j < |routes| ==> routes[j].name != routes[i].name
    ensures Indexed(routes)[routes[i].name] == routes[i]
  {
    hide Indexed;
    var last := |routes| - 1;
    IndexedLast(routes);
    if i < last {
      IndexedFinds(routes[..last], i);
    }
  }

  ghost predicate RouteReported<Y>(marshal: Y -> Option<string>, before: seq<RouteConfig<Y>>,
                                   after: seq<RouteConfig<Y>>, c: Change) {
    match c
    case RouteAdded(n) => Named(after, n) && !Named(before, n)
    case RouteModified(n) =>
      Named(before, n) &&
      exists j :: 0 <= j < |after| && after[j].name == n && !SameRoute(marshal, Indexed(before)[n], after[j])
    case RouteRemoved(n) => Named(before, n) && !Named(after, n)
    case _ => false
  }

  ghost predicate OrderDiffers<Y>(before: seq<RouteConfig<Y>>, after: seq<RouteConfig<Y>>) {
    |before| == |after| && exists i :: 0 <= i < |before| && before[i].name != after[i].name
  }

  ghost predicate DefinitionReported<Y>(marshal: Y -> Option<string>, before: map<string, MiddlewareDefinition<Y>>,
                                        after: map<string, MiddlewareDefinition<Y>>, c: Change) {
    match c
    case DefinitionAdded(n) => n in after && n !in before
    case DefinitionModified(n) => n in before && n in after && !SameDefinition(marshal, before[n], after[n])
    case DefinitionRemoved(n) => n in before && n !in after
    case _ => false
  }

  /** The changes a summary owes its reader. A new order is mentioned only when no route was
      added, modified or removed. */
  ghost predicate Reported<Y>(marshal: Y -> Option<string>, before: GatewayConfig<Y>, after: GatewayConfig<Y>, c: Change) {
    match c
    case OrderChanged =>
      OrderDiffers(before.routes, after.routes) &&
      forall d :: !RouteReported(marshal, before.routes, after.routes, d)
    case GlobalsChanged => !SameRefs(marshal, before.middlewares, after.middlewares)
    case _ =>
      RouteReported(marshal, before.routes, after.routes, c) ||
      DefinitionReported(marshal, before.definitions, after.definitions, c)
  }

  /** A node that does not marshal counts as changed, even by itself. */
  lemma UnmarshalledIsReported<Y>(marshal: Y -> Option<string>, before: GatewayConfig<Y>, after: GatewayConfig<Y>)
    ensures forall n :: n in before.definitions && n in after.definitions && marshal(after.definitions[n].config) == None ==>
              Reported(marshal, before, after, DefinitionModified(n))
    ensures (exists i :: 0 <= i < |after.middlewares| && marshal(after.middlewares[i].config) == None) ==>
              Reported(marshal, before, after, GlobalsChanged)
  {
    if i :| 0 <= i < |after.middlewares| && marshal(after.middlewares[i].config) == None {
      assert i < |before.middlewares| ==> !YamlNodeEqual(marshal, before.middlewares[i].config, after.middlewares[i].config);
    }
  }

  ghost predicate Once(changes: seq<Change>) {
    forall i, j :: 0 <= i < j < |changes| ==> changes[i] != changes[j]
  }

  /** What a route of the new configuration contributes, given the old routes by name. */
  ghost predicate Contributes<Y>(marshal: Y -> Option<string>, oldRoutes: map<string, RouteConfig<Y>>,
                                 route: RouteConfig<Y>, c: Change) {
    if route.name !in oldRoutes then c == RouteAdded(route.name)
    else !SameRoute(marshal, oldRoutes[route.name], route) && c == RouteModified(route.name)
  }

  ghost predicate ContributedBy<Y>(marshal: Y -> Option<string>, oldRoutes: map<string, RouteConfig<Y>>,
                                   routes: seq<RouteConfig<Y>>, n: nat, c: Change)
    requires n <= |routes|
  {
    exists j :: 0 <= j < n && Contributes(marshal, oldRoutes, routes[j], c)
  }

  lemma ContributedNext<Y>(marshal: Y -> Option<string>, oldRoutes: map<string, RouteConfig<Y>>,
                           routes: seq<RouteConfig<Y>>, i: nat, changes: seq<Change>, found: seq<Change>)
    requires i < |routes| && |found| <= 1
    requires forall c :: c in changes <==> ContributedBy(marshal, oldRoutes, routes, i, c)
    requires forall c :: c in found <==> Contributes(marshal, oldRoutes, routes[i], c)
    ensures forall c :: c in changes + found <==> ContributedBy(marshal, oldRoutes, routes, i + 1, c)
    ensures DistinctNames(routes) && Once(changes) ==> Once(changes + found)
  {
    forall c ensures c in changes + found <==> ContributedBy(marshal, oldRoutes, routes, i + 1, c) {
      assert ContributedBy(marshal, oldRoutes, routes, i + 1, c) <==>
        ContributedBy(marshal, oldRoutes, routes, i, c) || Contributes(marshal, oldRoutes, routes[i], c);
    }
    if DistinctNames(routes) {
      forall c | c in changes ensures c !in found {
        var j :| 0 <= j < i && Contributes(marshal, oldRoutes, routes[j], c);
      }
      OnceApart(changes, found);
    }
  }

  method IndexRoutes<Y>(routes: seq<RouteConfig<Y>>) returns (m: map<string, RouteConfig<Y>>)
    ensures m == Indexed(routes)
  {
    m := map[];
    for i := 0 to |routes|
      invariant m == Indexed(routes[..i])
    {
      m := m[routes[i].name := routes[i]];
      assert routes[..i + 1][..i] == routes[..i];
    }
    assert routes[..|routes|] == routes;
  }

  method CompareRoute<Y>(marshal: Y -> Option<string>, oldRoutes: map<string, RouteConfig<Y>>, route: RouteConfig<Y>)
    returns (found: seq<Change>)
    ensures |found| <= 1
    ensures forall c :: c in found <==> Contributes(marshal, oldRoutes, route, c)
  {
    if route.name !in oldRoutes {
      return [RouteAdded(route.name)];
    }
    var changed := RouteChanged(marshal, oldRoutes[route.name], route);
    return if changed then [RouteModified(route.name)] else [];
  }

  method AddedOrModified<Y>(marshal: Y -> Option<string>, oldRoutes: map<string, RouteConfig<Y>>,
                            after: seq<RouteConfig<Y>>)
    returns (newRoutes: map<string, RouteConfig<Y>>, changes: seq<Change>)
    ensures newRoutes == Indexed(after)
    ensures forall c :: c in changes <==> ContributedBy(marshal, oldRoutes, after, |after|, c)
    ensures DistinctNames(after) ==> Once(changes)
  {
    changes := [];
    newRoutes := map[];
    for i := 0 to |after|
      invariant newRoutes == Indexed(after[..i])
      invariant forall c :: c in changes <==> ContributedBy(marshal, oldRoutes, after, i, c)
      invariant DistinctNames(after) ==> Once(changes)
    {
      newRoutes := newRoutes[after[i].name := after[i]];
      assert after[..i + 1][..i] == after[..i];
      var found := CompareRoute(marshal, oldRoutes, after[i]);
      ContributedNext(marshal, oldRoutes, after, i, changes, found);
      changes := changes + found;
    }
    assert after[..|after|] == after;
  }

  method Removed<Y>(before: seq<RouteConfig<Y>>, newRoutes: map<string, RouteConfig<Y>>)
    returns (changes: seq<Change>)
    ensures forall c :: c in changes <==> c.RouteRemoved? && Named(before, c.name) && c.name !in newRoutes
    ensures DistinctNames(before) ==> Once(changes)
  {
    changes := [];
    for i := 0 to |before|
      invariant forall c :: c in changes <==> c.RouteRemoved? && Named(before[..i], c.name) && c.name !in newRoutes
      invariant DistinctNames(before) ==> Once(changes)
    {
      assert forall n :: Named(before[..i + 1], n) <==> Named(before[..i], n) || n == before[i].name by {
        NamedExtends(before, i);
      }
      if before[i].name !in newRoutes {
        changes := changes + [RouteRemoved(before[i].name)];
      }
    }
    assert before[..|before|] == before;
  }

  lemma NamedExtends<Y>(routes: seq<RouteConfig<Y>>, i: nat)
    requires i < |routes|
    ensures forall n :: Named(routes[..i + 1], n) <==> Named(routes[..i], n) || n == routes[i].name
  {
    forall n ensures Named(routes[..i + 1], n) <==> Named(routes[..i], n) || n == routes[i].name {
      if Named(routes[..i], n) {
        var j :| 0 <= j < i && routes[..i][j].name == n;
        assert routes[..i + 1][j].name == n;
      }
      assert routes[..i + 1][i].name == routes[i].name;
    }
  }

  lemma ContributesIsReported<Y>(marshal: Y -> Option<string>, before: seq<RouteConfig<Y>>,
                                 after: seq<RouteConfig<Y>>, c: Change)
    ensures !c.RouteRemoved? ==>
      (RouteReported(marshal, before, after, c) <==>
       ContributedBy(marshal, Indexed(before), after, |after|, c))
    ensures c.RouteRemoved? ==> !ContributedBy(marshal, Indexed(before), after, |after|, c)
  {
    if c.RouteAdded? && Named(after, c.name) && !Named(before, c.name) {
      var j :| 0 <= j < |after| && after[j].name == c.name;
      assert Contributes(marshal, Indexed(before), after[j], c);
    }
    if c.RouteModified? && RouteReported(marshal, before, after, c) {
      var j :| 0 <= j < |after| && after[j].name == c.name && !SameRoute(marshal, Indexed(before)[c.name], after[j]);
      assert Contributes(marshal, Indexed(before), after[j], c);
    }
  }

  lemma RoutesAssembled<Y>(marshal: Y -> Option<string>, before: seq<RouteConfig<Y>>, after: seq<RouteConfig<Y>>,
                           found: seq<Change>, removed: seq<Change>)
    requires forall c :: c in found <==> ContributedBy(marshal, Indexed(before), after, |after|, c)
    requires forall c :: c in removed <==> c.RouteRemoved? && Named(before, c.name) && c.name !in Indexed(after)
    ensures forall c :: c in found + removed <==> RouteReported(marshal, before, after, c)
    ensures Once(found) && Once(removed) ==> Once(found + removed)
  {
    forall c ensures c in found + removed <==> RouteReported(marshal, before, after, c) {
      ContributesIsReported(marshal, before, after, c);
      if c.RouteRemoved? {
        assert Named(after, c.name) <==> c.name in Indexed(after);
      }
    }
    forall c | c in found ensures c !in removed {
      ContributesIsReported(marshal, before, after, c);
    }
    OnceApart(found, removed);
  }

  /** The part of DiffSummary that compares the routes by name. */
  method DiffRoutes<Y>(marshal: Y -> Option<string>, before: seq<RouteConfig<Y>>, after: seq<RouteConfig<Y>>)
    returns (changes: seq<Change>)
    ensures forall c :: c in changes <==> RouteReported(marshal, before, after, c)
    ensures DistinctNames(before) && DistinctNames(after) ==> Once(changes)
  {
    var oldRoutes := IndexRoutes(before);
    var newRoutes, found := AddedOrModified(marshal, oldRoutes, after);
    var removed := Removed(before, newRoutes);
    changes := found + removed;
    RoutesAssembled(marshal, before, after, found, removed);
  }

  lemma OnceApart(a: seq<Change>, b: seq<Change>)
    requires forall c :: c in a ==> c !in b
    ensures Once(a) && Once(b) ==> Once(a + b)
  {
    if Once(a) && Once(b) {
      forall i, j | 0 <= i < j < |a + b| ensures (a + b)[i] != (a + b)[j] {
        if i < |a| <= j {
          assert a[i] in a && b[j - |a|] in b;
        }
      }
    }
  }

  /** Both loops range over a map, so they visit the names in an arbitrary order. */
  method DiffMiddlewareDefinitions<Y>(marshal: Y -> Option<string>, before: map<string, MiddlewareDefinition<Y>>,
                                      after: map<string, MiddlewareDefinition<Y>>) returns (changes: seq<Change>)
    ensures forall c :: c in changes <==> DefinitionReported(marshal, before, after, c)
    ensures Once(changes)
  {
    changes := [];
    var rest := after.Keys;
    while rest != {}
      invariant rest <= after.Keys
      invariant forall c :: c in changes <==>
        !c.DefinitionRemoved? && DefinitionReported(marshal, before, after, c) && c.name !in rest
      invariant Once(changes)
    {
      var name :| name in rest;
      if name !in before {
        changes := changes + [DefinitionAdded(name)];
      } else if !SameDefinition(marshal, before[name], after[name]) {
        changes := changes + [DefinitionModified(name)];
      }
      rest := rest - {name};
    }
    rest := before.Keys;
    while rest != {}
      invariant rest <= before.Keys
      invariant forall c :: c in changes <==>
        DefinitionReported(marshal, before, after, c) && (c.DefinitionRemoved? ==> c.name !in rest)
      invariant Once(changes)
    {
      var name :| name in rest;
      if name !in after {
        changes := changes + [DefinitionRemoved(name)];
      }
      rest := rest - {name};
    }
  }

  /** The part of DiffSummary that compares the order of routes otherwise found unchanged. */
  method DiffOrder<Y>(before: seq<RouteConfig<Y>>, after: seq<RouteConfig<Y>>, found: seq<Change>)
    returns (order: seq<Change>)
    ensures order == if found == [] && OrderDiffers(before, after) then [OrderChanged] else []
  {
    order := [];
    if |before| == |after| && |found| == 0 {
      for i := 0 to |before|
        invariant forall j :: 0 <= j < i ==> before[j].name == after[j].name
        invariant order == []
      {
        if before[i].name != after[i].name {
          order := [OrderChanged];
          break;
        }
      }
    }
  }

  method DiffSummary<Y>(marshal: Y -> Option<string>, before: GatewayConfig<Y>, after: GatewayConfig<Y>)
    returns (changes: seq<Change>)
    ensures forall c :: c in changes <==> Reported(marshal, before, after, c)
    ensures DistinctNames(before.routes) && DistinctNames(after.routes) ==>
      Once(changes) && (changes == [] <==> SameConfig(marshal, before, after))
  {
    var ofRoutes := DiffRoutes(marshal, before.routes, after.routes);
    var order := DiffOrder(before.routes, after.routes, ofRoutes);
    var definitions := DiffMiddlewareDefinitions(marshal, before.definitions, after.definitions);
    var same := MiddlewareRefsEqual(marshal, before.middlewares, after.middlewares);
    changes := ofRoutes + order + definitions + (if same then [] else [GlobalsChanged]);
    Assembled(marshal, before, after, ofRoutes, order, definitions, if same then [] else [GlobalsChanged]);
    EmptyWhenNone(changes);
    if DistinctNames(before.routes) && DistinctNames(after.routes) {
      QuietIsSame(marshal, before, after);
    }
  }

  /** The four parts of a summary report everything that is owed and never the same change
      twice. */
  lemma Assembled<Y>(marshal: Y -> Option<string>, before: GatewayConfig<Y>, after: GatewayConfig<Y>,
                     ofRoutes: seq<Change>, order: seq<Change>, definitions: seq<Change>, globals: seq<Change>)
    requires forall c :: c in ofRoutes <==> RouteReported(marshal, before.routes, after.routes, c)
    requires order == if ofRoutes == [] && OrderDiffers(before.routes, after.routes) then [OrderChanged] else []
    requires forall c :: c in definitions <==> DefinitionReported(marshal, before.definitions, after.definitions, c)
    requires globals == if SameRefs(marshal, before.middlewares, after.middlewares) then [] else [GlobalsChanged]
    ensures forall c :: c in ofRoutes + order + definitions + globals <==> Reported(marshal, before, after, c)
    ensures Once(ofRoutes) && Once(definitions) ==> Once(ofRoutes + order + definitions + globals)
  {
    EmptyWhenNone(ofRoutes);
    assert forall c :: c in ofRoutes ==> OfRoutes(c);
    assert forall c :: c in definitions ==> OfDefinitions(c);
    assert forall c :: Reported(marshal, before, after, c) <==> c in ofRoutes || c in order || c in definitions || c in globals;
    hide Reported, RouteReported, DefinitionReported, OrderDiffers, SameRefs;
    AssembledOnce(ofRoutes, order, definitions, globals);
  }

  predicate OfRoutes(c: Change) {
    c.RouteAdded? || c.RouteModified? || c.RouteRemoved?
  }

  predicate OfDefinitions(c: Change) {
    c.DefinitionAdded? || c.DefinitionModified? || c.DefinitionRemoved?
  }

  lemma AssembledOnce(ofRoutes: seq<Change>, order: seq<Change>, definitions: seq<Change>, globals: seq<Change>)
    requires (forall c :: c in ofRoutes ==> OfRoutes(c)) && (forall c :: c in definitions ==> OfDefinitions(c))
    requires (order == [] || order == [OrderChanged]) && (globals == [] || globals == [GlobalsChanged])
    ensures forall c :: c in ofRoutes + order + definitions + globals <==> c in ofRoutes || c in order || c in definitions || c in globals
    ensures Once(ofRoutes) && Once(definitions) ==> Once(ofRoutes + order + definitions + globals)
  {
    OnceApart(ofRoutes, order);
    OnceApart(ofRoutes + order, definitions);
    OnceApart(ofRoutes + order + definitions, globals);
    hide Once;
  }

  lemma EmptyWhenNone(changes: seq<Change>)
    ensures changes == [] <==> forall c :: c !in changes
  {
    assert changes != [] ==> changes[0] in changes;
  }

  // ---- Nothing is reported exactly when nothing changed ----

  ghost predicate Quiet<Y>(marshal: Y -> Option<string>, before: GatewayConfig<Y>, after: GatewayConfig<Y>) {
    forall c :: !Reported(marshal, before, after, c)
  }

  ghost function Names<Y>(routes: seq<RouteConfig<Y>>, n: nat): set<string>
    requires n <= |routes|
  {
    set i | 0 <= i < n :: routes[i].name
  }

  lemma {:induction false} NamesCount<Y>(routes: seq<RouteConfig<Y>>, n: nat)
    requires n <= |routes|
    ensures |Names(routes, n)| <= n
    ensures |Names(routes, n)| == n <==> forall i, j :: 0 <= i < j < n ==> routes[i].name != routes[j].name
  {
    if n > 0 {
      NamesCount(routes, n - 1);
      assert Names(routes, n) == Names(routes, n - 1) + {routes[n - 1].name};
      if routes[n - 1].name in Names(routes, n - 1) {
        var i :| 0 <= i < n - 1 && routes[i].name == routes[n - 1].name;
      } else {
        assert forall i :: 0 <= i < n - 1 ==> routes[i].name in Names(routes, n - 1);
      }
    }
  }

  /** With names that do not repeat, a summary with nothing to report means that the two
      configurations are the same, route by route in order. */
  lemma QuietIsSame<Y>(marshal: Y -> Option<string>, before: GatewayConfig<Y>, after: GatewayConfig<Y>)
    requires DistinctNames(before.routes) && DistinctNames(after.routes)
    ensures Quiet(marshal, before, after) <==> SameConfig(marshal, before, after)
  {
    if Quiet(marshal, before, after) {
      QuietRoutes(marshal, before, after);
      QuietDefinitions(marshal, before, after);
      assert !Reported(marshal, before, after, GlobalsChanged);
    }
    if SameConfig(marshal, before, after) {
      forall c ensures !Reported(marshal, before, after, c) {
        SameIsQuiet(marshal, before, after, c);
      }
    }
  }

  lemma SameIsQuiet<Y>(marshal: Y -> Option<string>, before: GatewayConfig<Y>, after: GatewayConfig<Y>, c: Change)
    requires DistinctNames(before.routes) && SameConfig(marshal, before, after)
    ensures !Reported(marshal, before, after, c)
  {
    var b, a := before.routes, after.routes;
    match c
    case RouteAdded(n) =>
      if Named(a, n) {
        var i :| 0 <= i < |a| && a[i].name == n;
        assert b[i].name == n;
      }
    case RouteRemoved(n) =>
      if Named(b, n) {
        var i :| 0 <= i < |b| && b[i].name == n;
        assert a[i].name == n;
      }
    case RouteModified(n) =>
      forall j | 0 <= j < |a| && a[j].name == n ensures SameRoute(marshal, Indexed(b)[n], a[j]) {
        IndexedFinds(b, j);
      }
    case _ =>
  }

  lemma QuietNames<Y>(marshal: Y -> Option<string>, before: GatewayConfig<Y>, after: GatewayConfig<Y>)
    requires DistinctNames(before.routes) && DistinctNames(after.routes)
    requires Quiet(marshal, before, after)
    ensures |before.routes| == |after.routes|
    ensures forall n :: Named(before.routes, n) <==> Named(after.routes, n)
  {
    var b, a := before.routes, after.routes;
    forall n ensures Named(b, n) <==> Named(a, n) {
      assert !Reported(marshal, before, after, RouteAdded(n));
      assert !Reported(marshal, before, after, RouteRemoved(n));
    }
    assert Names(b, |b|) == Names(a, |a|) by {
      forall n ensures n in Names(b, |b|) <==> n in Names(a, |a|) {
        assert n in Names(b, |b|) <==> Named(b, n);
        assert n in Names(a, |a|) <==> Named(a, n);
      }
    }
    NamesCount(b, |b|);
    NamesCount(a, |a|);
  }

  lemma QuietRoutes<Y>(marshal: Y -> Option<string>, before: GatewayConfig<Y>, after: GatewayConfig<Y>)
    requires DistinctNames(before.routes) && DistinctNames(after.routes)
    requires Quiet(marshal, before, after)
    ensures |before.routes| == |after.routes|
    ensures forall i :: 0 <= i < |before.routes| ==>
      before.routes[i].name == after.routes[i].name && SameRoute(marshal, before.routes[i], after.routes[i])
  {
    var b, a := before.routes, after.routes;
    QuietNames(marshal, before, after);
    forall d ensures !RouteReported(marshal, b, a, d) {
      assert !Reported(marshal, before, after, d);
    }
    assert !Reported(marshal, before, after, OrderChanged);
    forall i | 0 <= i < |b| ensures b[i].name == a[i].name && SameRoute(marshal, b[i], a[i]) {
      assert !RouteReported(marshal, b, a, RouteModified(a[i].name));
      IndexedFinds(b, i);
    }
  }

  lemma QuietDefinitions<Y>(marshal: Y -> Option<string>, before: GatewayConfig<Y>, after: GatewayConfig<Y>)
    requires Quiet(marshal, before, after)
    ensures before.definitions.Keys == after.definitions.Keys
    ensures forall n :: n in before.definitions ==>
      SameDefinition(marshal, before.definitions[n], after.definitions[n])
  {
    forall n ensures n in before.definitions <==> n in after.definitions {
      assert !Reported(marshal, before, after, DefinitionAdded(n));
      assert !Reported(marshal, before, after, DefinitionRemoved(n));
    }
    forall n | n in before.definitions ensures SameDefinition(marshal, before.definitions[n], after.definitions[n]) {
      assert !Reported(marshal, before, after, DefinitionModified(n));
    }
  }

  /** Names that repeat hide changes: the summary of replacing the first of two routes that
      share a name is empty. Validation refuses such a configuration. */
  lemma RepeatedNamesHideAChange<Y>(marshal: Y -> Option<string>, x: RouteConfig<Y>, y: RouteConfig<Y>)
    requires x.name == y.name && x.matching != y.matching && SameRoute(marshal, y, y)
    ensures
      var before := GatewayConfig(map[], [], [x, y]);
      var after := GatewayConfig(map[], [], [y, y]);
      !SameConfig(marshal, before, after) && Quiet(marshal, before, after)
  {
    var before := GatewayConfig(map[], [], [x, y]);
    var after := GatewayConfig(map[], [], [y, y]);
    assert before.routes[0] == x && after.routes[0] == y;
    assert before.routes[1] == y && after.routes[1] == y;
    assert before.routes[..1] == [x];
    assert Indexed(before.routes)[y.name] == y;
    forall n ensures Named(before.routes, n) <==> n == y.name {}
    forall n ensures Named(after.routes, n) <==> n == y.name {}
  }

  /** The last route of each name, in some order. */
  ghost function Latest<Y>(routes: seq<RouteConfig<Y>>): (r: seq<RouteConfig<Y>>) {
    var names := Ordered(Indexed(routes).Keys);
    seq(|names|, i requires 0 <= i < |names| => Indexed(routes)[names[i]])
  }

  lemma LatestIsShorter<Y>(routes: seq<RouteConfig<Y>>)
    requires !DistinctNames(routes)
    ensures |Latest(routes)| < |routes|
  {
    NamesCount(routes, |routes|);
    assert Names(routes, |routes|) == Indexed(routes).Keys by {
      forall n ensures n in Names(routes, |routes|) <==> Named(routes, n) {}
    }
  }

  lemma LatestIsDistinct<Y>(routes: seq<RouteConfig<Y>>)
    ensures DistinctNames(Latest(routes))
    ensures forall n :: Named(Latest(routes), n) <==> Named(routes, n)
    ensures forall i :: 0 <= i < |Latest(routes)| ==>
      Named(routes, Latest(routes)[i].name) && Latest(routes)[i] == Indexed(routes)[Latest(routes)[i].name]
  {
    var names := Ordered(Indexed(routes).Keys);
    forall i | 0 <= i < |names| ensures Latest(routes)[i].name == names[i] {
      assert names[i] in names;
    }
    forall n | Named(routes, n) ensures Named(Latest(routes), n) {
      assert n in names;
      var i :| 0 <= i < |names| && names[i] == n;
      assert Latest(routes)[i].name == n;
    }
  }

  lemma LatestIsUnreported<Y(!new)>(marshal: Y -> Option<string>, routes: seq<RouteConfig<Y>>, d: Change)
    requires forall y :: marshal(y).Some?
    ensures !RouteReported(marshal, routes, Latest(routes), d)
  {
    LatestIsDistinct(routes);
    if d.RouteModified? && Named(routes, d.name) {
      var last := Indexed(routes)[d.name];
      assert SameRoute(marshal, last, last);
    }
  }

  lemma OnlyRoutesAreReported<Y>(marshal: Y -> Option<string>, before: GatewayConfig<Y>, after: GatewayConfig<Y>,
                                 c: Change)
    requires before.definitions == after.definitions && before.middlewares == after.middlewares
    requires SameRefs(marshal, before.middlewares, after.middlewares)
    requires forall n :: n in before.definitions ==>
      SameDefinition(marshal, before.definitions[n], before.definitions[n])
    requires |before.routes| != |after.routes|
    requires !RouteReported(marshal, before.routes, after.routes, c)
    ensures !Reported(marshal, before, after, c)
  {
  }

  lemma LatestIsQuiet<Y(!new)>(marshal: Y -> Option<string>, before: GatewayConfig<Y>, after: GatewayConfig<Y>)
    requires forall y :: marshal(y).Some?
    requires after.routes == Latest(before.routes) && |before.routes| != |after.routes|
    requires before.definitions == after.definitions && before.middlewares == after.middlewares
    ensures Quiet(marshal, before, after)
  {
    assert forall n :: n in before.definitions ==>
      SameDefinition(marshal, before.definitions[n], before.definitions[n]);
    assert SameRefs(marshal, before.middlewares, after.middlewares);
    forall c ensures !Reported(marshal, before, after, c) {
      assert !RouteReported(marshal, before.routes, after.routes, c) by {
        LatestIsUnreported(marshal, before.routes, c);
      }
      OnlyRoutesAreReported(marshal, before, after, c);
    }
  }

  lemma LatestIsMistaken<Y(!new)>(marshal: Y -> Option<string>, before: GatewayConfig<Y>)
    returns (after: GatewayConfig<Y>)
    requires forall y :: marshal(y).Some?
    requires !DistinctNames(before.routes)
    ensures DistinctNames(after.routes) && Quiet(marshal, before, after) && |after.routes| < |before.routes|
  {
    after := before.(routes := Latest(before.routes));
    LatestIsDistinct(before.routes);
    LatestIsShorter(before.routes);
    LatestIsQuiet(marshal, before, after);
  }

  /** A running configuration whose nodes all marshal can trust an empty summary of every valid
      successor exactly when its own route names do not repeat. */
  lemma EmptySummaryIsTrustedIff<Y(!new)>(marshal: Y -> Option<string>, before: GatewayConfig<Y>)
    requires forall y :: marshal(y).Some?
    ensures DistinctNames(before.routes) <==>
      forall after: GatewayConfig<Y> :: DistinctNames(after.routes) && Quiet(marshal, before, after) ==>
        SameConfig(marshal, before, after)
  {
    if DistinctNames(before.routes) {
      forall after: GatewayConfig<Y> | DistinctNames(after.routes) && Quiet(marshal, before, after)
        ensures SameConfig(marshal, before, after)
      {
        QuietIsSame(marshal, before, after);
      }
    } else {
      var after := LatestIsMistaken(marshal, before);
    }
  }
}
