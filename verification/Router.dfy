/** Host patterns and first-match routing. The regular-expression engine is a parameter. */
module Router {
  import opened GatewayConfig
  import opened Orders
  import opened Wrappers

  // ---------- Strings ----------

  function Split(s: string): (r: seq<string>)
    ensures |r| >= 1
  {
    if s == "" then [""]
    else
      var rest := Split(s[1..]);
      if s[0] == '.' then [""] + rest else [[s[0]] + rest[0]] + rest[1..]
  }

  function LowerChar(c: char): char {
    if 'A' <= c <= 'Z' then c - 'A' + 'a' else c
  }

  function ToLower(s: string): (r: string)
    ensures |r| == |s|
    ensures forall i :: 0 <= i < |s| ==> r[i] == LowerChar(s[i])
  {
    seq(|s|, i requires 0 <= i < |s| => LowerChar(s[i]))
  }

  predicate HasPrefix(s: string, p: string) {
    p <= s
  }

  predicate HasSuffix(s: string, p: string) {
    |p| <= |s| && s[|s| - |p|..] == p
  }

  /** What comes before the last colon, or all of it. */
  function StripPort(s: string): (r: string)
    ensures if ':' in s then r + ":" <= s && ':' !in s[|r| + 1..] else r == s
  {
    if s == "" then ""
    else if s[|s| - 1] == ':' then s[..|s| - 1]
    else if ':' in s then StripPort(s[..|s| - 1]) else s
  }

  // ---------- Validation ----------

  predicate ValidHostPattern(host: string) {
    if '*' in host then
      && HasPrefix(host, "*.")
      && host[2..] != ""
      && '*' !in host[2..]
      && '.' in host[2..]
      && "" !in Split(host[2..])
    else
      "" !in Split(host)
  }

  // ---------- Compilation and matching ----------

  datatype HostMatcher = AnyHost | Exact(host: string) | Wildcard(suffix: string)

  function CompileHost(pattern: string): HostMatcher {
    if pattern == "" then AnyHost
    else
      var h := ToLower(pattern);
      if HasPrefix(h, "*.") then Wildcard(h[1..]) else Exact(h)
  }

  /** One nonempty label before the dotted suffix. */
  predicate OneLabelBefore(host: string, dotted: string) {
    && HasSuffix(host, dotted)
    && var prefix := host[..|host| - |dotted|];
       prefix != "" && '.' !in prefix
  }

  predicate OneLabelMore(labels: seq<string>, suffix: seq<string>) {
    |labels| >= 2 && labels[0] != "" && labels[1..] == suffix
  }

  predicate HostMatches(m: HostMatcher, requestHost: string) {
    var host := ToLower(StripPort(requestHost));
    match m
    case AnyHost => true
    case Exact(h) => host == h
    case Wildcard(suffix) => OneLabelBefore(host, suffix)
  }

  /** A wildcard takes one label more than its suffix; any other pattern takes itself. */
  predicate LabelsMatch(pattern: string, host: string) {
    if HasPrefix(pattern, "*.") then
      OneLabelMore(Split(ToLower(host)), Split(ToLower(pattern[2..])))
    else
      Split(ToLower(host)) == Split(ToLower(pattern))
  }

  lemma {:induction false} SplitLabel(first: string, rest: string)
    requires '.' !in first
    ensures Split(first + "." + rest) == [first] + Split(rest)
  {
    var s := first + "." + rest;
    if first == "" {
      assert s[1..] == rest;
    } else {
      SplitLabel(first[1..], rest);
      assert s[0] == first[0] && s[1..] == first[1..] + "." + rest;
      assert [s[0]] + first[1..] == first;
    }
  }

  function Join(labels: seq<string>): string
    requires labels != []
  {
    if |labels| == 1 then labels[0] else labels[0] + "." + Join(labels[1..])
  }

  lemma {:induction false} JoinSplit(s: string)
    ensures Join(Split(s)) == s
    ensures forall i :: 0 <= i < |Split(s)| ==> '.' !in Split(s)[i]
  {
    if s != "" {
      JoinSplit(s[1..]);
      var rest := Split(s[1..]);
      if s[0] == '.' {
        assert Split(s)[1..] == rest;
        assert Join(Split(s)) == "" + "." + s[1..];
      } else if |rest| > 1 {
        assert Split(s)[1..] == rest[1..];
        assert Join(Split(s)) == [s[0]] + rest[0] + "." + Join(rest[1..]);
        assert rest[0] + "." + Join(rest[1..]) == s[1..];
      }
      assert s == [s[0]] + s[1..];
    }
  }

  lemma SplitInjective(s: string, t: string)
    ensures Split(s) == Split(t) <==> s == t
  {
    JoinSplit(s);
    JoinSplit(t);
  }

  lemma SuffixGivesLabels(host: string, s: string)
    requires OneLabelBefore(host, "." + s)
    ensures OneLabelMore(Split(host), Split(s))
  {
    var dotted := "." + s;
    var first := host[..|host| - |dotted|];
    assert host == first + dotted == first + "." + s;
    SplitLabel(first, s);
  }

  lemma LabelsGiveSuffix(host: string, s: string)
    requires OneLabelMore(Split(host), Split(s))
    ensures OneLabelBefore(host, "." + s)
  {
    var dotted, first := "." + s, Split(host)[0];
    JoinSplit(host);
    JoinSplit(s);
    assert host == first + "." + s == first + dotted;
    assert host[|first|..] == dotted && host[..|first|] == first;
  }

  // ---------- Without regard to case ----------

  /** The same letter in upper and lower case, or the same character. */
  predicate SameLetter(c: char, d: char) {
    || c == d
    || ('A' <= c <= 'Z' && d as int == c as int + 32)
    || ('A' <= d <= 'Z' && c as int == d as int + 32)
  }

  predicate SameUpToCase(s: string, t: string) {
    |s| == |t| && forall i :: 0 <= i < |s| ==> SameLetter(s[i], t[i])
  }

  lemma LowerIsUpToCase(s: string, t: string)
    ensures ToLower(s) == ToLower(t) <==> SameUpToCase(s, t)
  {
    forall i | 0 <= i < |s| && i < |t|
      ensures ToLower(s)[i] == ToLower(t)[i] <==> SameLetter(s[i], t[i])
    {
    }
  }

  /** An exact pattern takes exactly the hosts that are equal to it up to case, their ports
      cut off. */
  lemma ExactHostIff(pattern: string, requestHost: string)
    requires pattern != "" && !HasPrefix(pattern, "*.")
    ensures HostMatches(CompileHost(pattern), requestHost) <==> SameUpToCase(StripPort(requestHost), pattern)
  {
    LowerKeepsWildcard(pattern);
    LowerIsUpToCase(StripPort(requestHost), pattern);
  }

  lemma LowerKeepsDots(s: string)
    ensures '.' in ToLower(s) <==> '.' in s
  {
    var h := ToLower(s);
    forall i | 0 <= i < |s|
      ensures h[i] == '.' <==> s[i] == '.'
    {
    }
    if '.' in s {
      var i :| 0 <= i < |s| && s[i] == '.';
      assert h[i] == '.';
    }
  }

  lemma LowerParts(s: string, n: nat)
    requires n <= |s|
    ensures ToLower(s)[..n] == ToLower(s[..n]) && ToLower(s)[n..] == ToLower(s[n..])
  {
  }

  /** A wildcard takes exactly the hosts that are one nonempty label without a dot before its
      dotted suffix, up to case. */
  lemma WildcardHostIff(pattern: string, requestHost: string)
    requires HasPrefix(pattern, "*.")
    ensures HostMatches(CompileHost(pattern), requestHost) <==>
            var host := StripPort(requestHost);
            var n := |host| - |pattern| + 1;
            n > 0 && '.' !in host[..n] && SameUpToCase(host[n..], pattern[1..])
  {
    LowerKeepsWildcard(pattern);
    LowerParts(pattern, 1);
    var host := StripPort(requestHost);
    var n := |host| - |pattern| + 1;
    assert CompileHost(pattern) == Wildcard(ToLower(pattern[1..]));
    if n > 0 {
      LowerParts(host, n);
      LowerKeepsDots(host[..n]);
      LowerIsUpToCase(host[n..], pattern[1..]);
      hide CompileHost, LowerChar, SameUpToCase, StripPort;
      assert |ToLower(host)| - |ToLower(pattern[1..])| == n;
    }
  }

  lemma LowerKeepsWildcard(pattern: string)
    ensures HasPrefix(ToLower(pattern), "*.") <==> HasPrefix(pattern, "*.")
  {
    var h := ToLower(pattern);
    if |pattern| >= 2 {
      assert h[0] == LowerChar(pattern[0]) && h[1] == LowerChar(pattern[1]);
      assert HasPrefix(h, "*.") <==> h[0] == '*' && h[1] == '.';
      assert HasPrefix(pattern, "*.") <==> pattern[0] == '*' && pattern[1] == '.';
    }
  }

  /** A route that configures no host takes every host. */
  lemma AnyHostMatches(requestHost: string)
    ensures HostMatches(CompileHost(""), requestHost)
  {
  }

  /** For every nonempty pattern and every request host, matching is matching of labels once
      what follows the last colon is cut off. */
  lemma HostMatchingIsLabelMatching(pattern: string, requestHost: string)
    requires pattern != ""
    ensures HostMatches(CompileHost(pattern), requestHost) <==> LabelsMatch(pattern, StripPort(requestHost))
  {
    LowerKeepsWildcard(pattern);
    var h := ToLower(StripPort(requestHost));
    if HasPrefix(pattern, "*.") {
      var s := ToLower(pattern[2..]);
      LowerParts(pattern, 1);
      LowerParts(pattern, 2);
      assert pattern[1] == '.';
      assert ToLower(pattern)[1..] == "." + s;
      if OneLabelBefore(h, "." + s) {
        SuffixGivesLabels(h, s);
      }
      if OneLabelMore(Split(h), Split(s)) {
        LabelsGiveSuffix(h, s);
      }
    } else {
      SplitInjective(h, ToLower(pattern));
    }
  }

  lemma {:induction false} PortIsStripped(host: string, port: string)
    requires ':' !in port
    ensures StripPort(host + ":" + port) == host
  {
    var s := host + ":" + port;
    assert s[|host|] == ':';
    if port == "" {
      assert s[..|s| - 1] == host;
    } else {
      assert s[..|s| - 1] == host + ":" + port[..|port| - 1];
      PortIsStripped(host, port[..|port| - 1]);
    }
  }

  /** A port makes no difference, whatever the host before it. */
  lemma PortIsIgnored(pattern: string, host: string, port: string)
    requires pattern != "" && ':' !in port
    ensures HostMatches(CompileHost(pattern), host + ":" + port) <==> LabelsMatch(pattern, host)
  {
    PortIsStripped(host, port);
    HostMatchingIsLabelMatching(pattern, host + ":" + port);
  }

  /** A request for exactly the configured host, without a port, matches if and only if the
      host has no colon: of any other the part after the last colon is taken for a port. */
  lemma OwnHostMatchesIff(pattern: string)
    requires pattern != "" && !HasPrefix(pattern, "*.")
    ensures HostMatches(CompileHost(pattern), pattern) <==> ':' !in pattern
  {
    LowerKeepsWildcard(pattern);
  }

  /** Validation lets such a host through: its labels are not looked at for colons. */
  lemma ColonHostPasses(pattern: string)
    requires pattern != "" && '*' !in pattern && '.' !in pattern && ':' in pattern
    ensures ValidHostPattern(pattern) && !HostMatches(CompileHost(pattern), pattern)
  {
    NoDotNoSplit(pattern);
    assert pattern[0] in pattern;
    OwnHostMatchesIff(pattern);
  }

  /** The pattern [::1] passes validation, and a request for the host [::1] does not match it. */
  lemma BracketedHostIsCut() returns (pattern: string)
    ensures pattern == "[::1]" && ValidHostPattern(pattern) && !HostMatches(CompileHost(pattern), pattern)
  {
    pattern := "[::1]";
    assert pattern[1] == ':';
    ColonHostPasses(pattern);
  }

  lemma {:induction false} NoDotNoSplit(s: string)
    requires '.' !in s
    ensures Split(s) == [s]
  {
    if s != "" {
      NoDotNoSplit(s[1..]);
      assert [s[0]] + s[1..] == s;
    }
  }

  lemma {:induction false} LowerKeepsLabels(s: string)
    ensures |Split(ToLower(s))| == |Split(s)|
    ensures forall i :: 0 <= i < |Split(s)| ==> |Split(ToLower(s))[i]| == |Split(s)[i]|
  {
    if s != "" {
      LowerParts(s, 1);
      LowerKeepsLabels(s[1..]);
    }
  }

  /** A dot with nothing or another dot after it. */
  predicate LooseDot(s: string, i: nat)
    requires i < |s|
  {
    s[i] == '.' && (i + 1 == |s| || s[i + 1] == '.')
  }

  lemma {:induction false} LabelsAfterDots(s: string)
    ensures Split(s)[0] == "" <==> s == "" || s[0] == '.'
    ensures "" in Split(s)[1..] <==> exists i :: 0 <= i < |s| && LooseDot(s, i)
  {
    if s != "" {
      var rest := s[1..];
      LabelsAfterDots(rest);
      assert forall i :: 0 <= i < |rest| ==> (LooseDot(rest, i) <==> LooseDot(s, i + 1));
      assert Split(rest) == [Split(rest)[0]] + Split(rest)[1..];
      if exists i :: 0 <= i < |s| && LooseDot(s, i) {
        var i :| 0 <= i < |s| && LooseDot(s, i);
        assert i > 0 ==> LooseDot(rest, i - 1);
      }
      if s[0] == '.' {
        assert Split(s)[1..] == Split(rest);
        assert (rest == "" || rest[0] == '.') ==> LooseDot(s, 0);
      } else {
        assert Split(s)[1..] == Split(rest)[1..];
      }
    }
  }

  /** No label is empty: there is no dot at an end, and none next to another. */
  predicate NoEmptyLabel(s: string) {
    s != "" && s[0] != '.' && forall i :: 0 <= i < |s| ==> !LooseDot(s, i)
  }

  /** What validation accepts, character by character: hosts without an empty label, or one
      star and a dot before such a host with a dot in it. */
  lemma ValidHostIff(host: string)
    ensures ValidHostPattern(host) <==>
            if '*' in host then "*." <= host && '*' !in host[2..] && '.' in host[2..] && NoEmptyLabel(host[2..])
            else NoEmptyLabel(host)
  {
    NoEmptyLabelIff(host);
    if "*." <= host {
      NoEmptyLabelIff(host[2..]);
    }
  }

  lemma NoEmptyLabelIff(s: string)
    ensures "" !in Split(s) <==> NoEmptyLabel(s)
  {
    LabelsAfterDots(s);
    assert Split(s) == [Split(s)[0]] + Split(s)[1..];
  }

  lemma {:induction false} DotSplits(s: string)
    requires '.' in s
    ensures |Split(s)| >= 2
  {
    if s[0] != '.' {
      DotSplits(s[1..]);
    }
  }

  /** A wildcard that passes validation takes only hosts of three nonempty labels or more,
      and never its own suffix, ports cut off. */
  lemma ValidWildcardTakesSubdomains(pattern: string, requestHost: string)
    requires ValidHostPattern(pattern) && HasPrefix(pattern, "*.")
    requires HostMatches(CompileHost(pattern), requestHost)
    ensures var host := ToLower(StripPort(requestHost));
            |Split(host)| >= 3 && "" !in Split(host) && host != ToLower(pattern[2..])
  {
    HostMatchingIsLabelMatching(pattern, requestHost);
    assert pattern[0] in pattern;
    var suffix := pattern[2..];
    var labels := Split(ToLower(StripPort(requestHost)));
    DotSplits(suffix);
    LowerKeepsLabels(suffix);
    assert labels == [labels[0]] + labels[1..];
    forall i | 0 <= i < |Split(suffix)|
      ensures Split(ToLower(suffix))[i] != ""
    {
      assert Split(suffix)[i] in Split(suffix);
    }
  }

  // ---------- First match ----------

  /** What the request's headers and path show to the router. */
  datatype Request = Request(host: string, httpMethod: string, path: string, headers: map<string, string>)

  /** The regular-expression engine. */
  datatype Engine = Engine(find: (string, string) -> bool)

  datatype HeaderMatcher = Present(name: string) | Pattern(name: string, regex: string)

  datatype CompiledRoute = CompiledRoute(
    name: string,
    regex: string,
    methods: Option<set<string>>,
    host: HostMatcher,
    headers: seq<HeaderMatcher>)

  function HeaderValue(r: Request, name: string): string {
    if name in r.headers then r.headers[name] else ""
  }

  predicate HeaderMatches(e: Engine, m: HeaderMatcher, r: Request) {
    match m
    case Present(name) => HeaderValue(r, name) != ""
    case Pattern(name, regex) => e.find(regex, HeaderValue(r, name))
  }

  /** A configured header condition: any value that is not empty, or a value that the whole
      pattern takes. A header that is missing has the empty value. */
  predicate HeaderHolds(e: Engine, r: Request, name: string, pattern: string) {
    var value := if name in r.headers then r.headers[name] else "";
    if pattern == "*" then value != "" else e.find("^(?:" + pattern + ")$", value)
  }

  /** The conditions of a route as configured. */
  predicate Accepts<Y>(e: Engine, route: RouteConfig<Y>, r: Request) {
    var m := route.matching;
    && e.find(m.pathRegex, r.path)
    && (m.host == "" || LabelsMatch(m.host, StripPort(r.host)))
    && (m.methods == [] || r.httpMethod in m.methods || r.httpMethod == "OPTIONS")
    && forall name :: name in m.headers ==> HeaderHolds(e, r, name, m.headers[name])
  }

  lemma HostsAreConditions(host: string, r: Request)
    ensures HostMatches(CompileHost(host), r.host) <==> host == "" || LabelsMatch(host, StripPort(r.host))
  {
    if host == "" {
      AnyHostMatches(r.host);
    } else {
      HostMatchingIsLabelMatching(host, r.host);
    }
  }

  ghost predicate CompiledFrom<Y>(c: CompiledRoute, route: RouteConfig<Y>) {
    var m := route.matching;
    && c.name == route.name
    && c.regex == m.pathRegex
    && c.host == CompileHost(m.host)
    && c.methods == (if m.methods == [] then None else Some(set x | x in m.methods))
    && (forall h :: h in c.headers ==> h.name in m.headers && h == HeaderRule(h.name, m.headers[h.name]))
    && (forall name :: name in m.headers ==> HeaderRule(name, m.headers[name]) in c.headers)
    && Distinct(c.headers)
  }

  function HeaderRule(name: string, pattern: string): HeaderMatcher {
    if pattern == "*" then Present(name) else Pattern(name, "^(?:" + pattern + ")$")
  }

  /** One rule for each configured header, in any order of the map. */
  method CompileHeaders(headers: map<string, string>) returns (r: seq<HeaderMatcher>)
    ensures forall h :: h in r ==> h.name in headers && h == HeaderRule(h.name, headers[h.name])
    ensures forall name :: name in headers ==> HeaderRule(name, headers[name]) in r
    ensures Distinct(r)
  {
    r := [];
    var left := headers.Keys;
    while left != {}
      invariant left <= headers.Keys
      invariant forall h :: h in r ==> h.name in headers && h.name !in left && h == HeaderRule(h.name, headers[h.name])
      invariant Distinct(r)
      invariant forall name :: name in headers && name !in left ==> HeaderRule(name, headers[name]) in r
      decreases left
    {
      var name :| name in left;
      left := left - {name};
      var rule := HeaderRule(name, headers[name]);
      ghost var before := r;
      r := r + [rule];
      assert rule in r && forall h :: h in before ==> h in r;
    }
  }

  class Router<Y> {
    var routes: seq<CompiledRoute>

    ghost predicate Serves(configs: seq<RouteConfig<Y>>)
      reads this
    {
      |routes| == |configs| && forall i :: 0 <= i < |routes| ==> CompiledFrom(routes[i], configs[i])
    }

    constructor (configs: seq<RouteConfig<Y>>)
      ensures Serves(configs)
    {
      routes := [];
      new;
      for i := 0 to |configs|
        invariant |routes| == i && forall k :: 0 <= k < i ==> CompiledFrom(routes[k], configs[k])
      {
        var m := configs[i].matching;
        var headers := CompileHeaders(m.headers);
        var methods := if m.methods == [] then None else Some(set x | x in m.methods);
        var compiled := CompiledRoute(configs[i].name, m.pathRegex, methods, CompileHost(m.host), headers);
        routes := routes + [compiled];
      }
    }

    method HeadersMatch(e: Engine, headers: seq<HeaderMatcher>, r: Request) returns (ok: bool)
      ensures ok <==> forall h :: h in headers ==> HeaderMatches(e, h, r)
    {
      ok := true;
      for i := 0 to |headers|
        invariant ok && forall k :: 0 <= k < i ==> HeaderMatches(e, headers[k], r)
      {
        if !HeaderMatches(e, headers[i], r) {
          return false;
        }
      }
    }

    /** Dispatches to the least index whose route accepts the request, or to none. */
    method ServeHTTP(e: Engine, r: Request, ghost configs: seq<RouteConfig<Y>>) returns (matched: Option<nat>)
      requires Serves(configs)
      ensures matched.Some? ==>
                && matched.value < |configs| && Accepts(e, configs[matched.value], r)
                && forall i :: 0 <= i < matched.value ==> !Accepts(e, configs[i], r)
      ensures matched.None? ==> forall i :: 0 <= i < |configs| ==> !Accepts(e, configs[i], r)
    {
      for i := 0 to |routes|
        invariant forall k :: 0 <= k < i ==> !Accepts(e, configs[k], r)
      {
        var cr := routes[i];
        if !e.find(cr.regex, r.path) {
          continue;
        }
        HostsAreConditions(configs[i].matching.host, r);
        if !HostMatches(cr.host, r.host) {
          continue;
        }
        if cr.methods.Some? && r.httpMethod !in cr.methods.value && r.httpMethod != "OPTIONS" {
          continue;
        }
        var headersMatch := HeadersMatch(e, cr.headers, r);
        RulesAreConditions(e, cr, configs[i], r);
        if !headersMatch {
          continue;
        }
        return Some(i);
      }
      return None;
    }
  }

  lemma RulesAreConditions<Y>(e: Engine, c: CompiledRoute, route: RouteConfig<Y>, r: Request)
    requires CompiledFrom(c, route)
    ensures (forall h :: h in c.headers ==> HeaderMatches(e, h, r)) <==>
            forall name :: name in route.matching.headers ==> HeaderHolds(e, r, name, route.matching.headers[name])
  {
    var headers := route.matching.headers;
    if forall h :: h in c.headers ==> HeaderMatches(e, h, r) {
      forall name | name in headers
        ensures HeaderMatches(e, HeaderRule(name, headers[name]), r)
      {
        assert HeaderRule(name, headers[name]) in c.headers;
      }
    }
  }
}
