/** The parts of the configuration that routes and their middlewares are built from. Y is
    the representation of a YAML node. */
module GatewayConfig {
  import opened Wrappers

  datatype MiddlewareDefinition<Y> = MiddlewareDefinition(kind: string, config: Y)

  datatype MiddlewareRef<Y> = MiddlewareRef(ref: string, config: Y)

  datatype MatchConfig = MatchConfig(pathRegex: string, methods: seq<string>, host: string, headers: map<string, string>)

  datatype UpstreamConfig = UpstreamConfig(url: string, pathRewrite: string, timeout: int)

  datatype RetryConfig = RetryConfig(maxRetries: int, initialDelay: int, multiplier: real, retryableStatusCodes: seq<int>)

  datatype CircuitBreakerConfig = CircuitBreakerConfig(failureThreshold: int, successThreshold: int, timeout: int) {
    // The outcomes in a row that the two thresholds ask for. The schema's minimum is 1, but
    // an omitted threshold is 0, and that is as good as 1.
    function Failures(): (n: nat)
      ensures n >= 1
    {
      if failureThreshold < 1 then 1 else failureThreshold
    }

    function Successes(): (n: nat)
      ensures n >= 1
    {
      if successThreshold < 1 then 1 else successThreshold
    }
  }

  datatype RouteConfig<Y> = RouteConfig(
    name: string,
    matching: MatchConfig,
    upstream: UpstreamConfig,
    retry: Option<RetryConfig>,
    circuitBreaker: Option<CircuitBreakerConfig>,
    skipMiddlewares: seq<string>,
    middlewares: seq<MiddlewareRef<Y>>)

  datatype GatewayConfig<Y> = GatewayConfig(
    definitions: map<string, MiddlewareDefinition<Y>>,
    middlewares: seq<MiddlewareRef<Y>>,
    routes: seq<RouteConfig<Y>>)

  predicate DistinctNames<Y>(routes: seq<RouteConfig<Y>>) {
    forall i, j :: 0 <= i < j < |routes| ==> routes[i].name != routes[j].name
  }
}
