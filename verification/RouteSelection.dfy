/** Which rule and which backends a request reaches: the two traversals of internal/check/gateway.go
    that find rule matches and backend paths, and the sites they both visit. */
module RouteSelection {
  import opened Text
  import opened Sorting
  import opened Gateway
  import opened RulePrecedence

  // ----- The sites: every (listener, rule) pair that matches -------------------------------

  /** The single-match predicates, fixed for one request. */
  datatype Judge = Judge(listener: Listener -> bool, attached: (Route, Gateway, string) -> bool,
                         hostname: Route -> bool, rule: (string, RouteRule) -> bool,
                         score: (Route, RouteRule) -> Score)

  function JudgeFor(intent: Intent): Judge {
    Judge((l: Listener) => ListenerMatches(l, intent),
          (r: Route, g: Gateway, listenerName: string) => Attached(r, g, listenerName),
          (r: Route) => HostnameMatches(r, intent.host),
          (kind: string, rule: RouteRule) => RuleMatches(kind, rule, intent),
          (r: Route, rule: RouteRule) => ScoreOf(r, rule, intent))
  }

  datatype Site = Site(gateway: Gateway, listener: Listener, route: Route, ruleIndex: nat, rule: RouteRule)

  function RuleSites(g: Gateway, l: Listener, r: Route, n: nat, judge: Judge): seq<Site>
    requires n <= |r.rules|
  {
    if n == 0 then []
    else if r.rules[n - 1].Some? && judge.rule(r.kind, r.rules[n - 1].value)
    then RuleSites(g, l, r, n - 1, judge) + [Site(g, l, r, n - 1, r.rules[n - 1].value)]
    else RuleSites(g, l, r, n - 1, judge)
  }

  function RouteSites(g: Gateway, l: Listener, routes: seq<Route>, n: nat, judge: Judge): seq<Site>
    requires n <= |routes|
  {
    if n == 0 then []
    else
      var r := routes[n - 1];
      if judge.attached(r, g, l.name) && judge.hostname(r)
      then RouteSites(g, l, routes, n - 1, judge) + RuleSites(g, l, r, |r.rules|, judge)
      else RouteSites(g, l, routes, n - 1, judge)
  }

  function ListenerSites(g: Gateway, n: nat, routes: seq<Route>, judge: Judge): seq<Site>
    requires n <= |g.listeners|
  {
    if n == 0 then []
    else if g.listeners[n - 1].Some? && judge.listener(g.listeners[n - 1].value)
    then ListenerSites(g, n - 1, routes, judge) + RouteSites(g, g.listeners[n - 1].value, routes, |routes|, judge)
    else ListenerSites(g, n - 1, routes, judge)
  }

  function Sites(gateways: seq<Gateway>, n: nat, routes: seq<Route>, judge: Judge): seq<Site>
    requires n <= |gateways|
  {
    if n == 0 then []
    else
      var g := gateways[n - 1];
      Sites(gateways, n - 1, routes, judge) + ListenerSites(g, |g.listeners|, routes, judge)
  }

  function AllSites(gateways: seq<Gateway>, routes: seq<Route>, intent: Intent): seq<Site> {
    Sites(gateways, |gateways|, routes, JudgeFor(WithPath(intent)))
  }

  lemma {:induction false} RuleSiteMembers(g: Gateway, l: Listener, r: Route, n: nat, judge: Judge, s: Site)
    requires n <= |r.rules|
    ensures s in RuleSites(g, l, r, n, judge) <==>
            s.gateway == g && s.listener == l && s.route == r && s.ruleIndex < n &&
            r.rules[s.ruleIndex] == Some(s.rule) && judge.rule(r.kind, s.rule)
  {
    if n > 0 {
      RuleSiteMembers(g, l, r, n - 1, judge, s);
    }
  }

  predicate OnRoute(s: Site, judge: Judge) {
    && judge.attached(s.route, s.gateway, s.listener.name) && judge.hostname(s.route)
    && s.ruleIndex < |s.route.rules| && s.route.rules[s.ruleIndex] == Some(s.rule)
    && judge.rule(s.route.kind, s.rule)
  }

  lemma {:induction false} RouteSiteMembers(g: Gateway, l: Listener, routes: seq<Route>, n: nat, judge: Judge, s: Site)
    requires n <= |routes|
    ensures s in RouteSites(g, l, routes, n, judge) <==>
            s.gateway == g && s.listener == l && s.route in routes[..n] && OnRoute(s, judge)
  {
    if n > 0 {
      var r := routes[n - 1];
      assert routes[..n] == routes[..n - 1] + [r];
      RouteSiteMembers(g, l, routes, n - 1, judge, s);
      RuleSiteMembers(g, l, r, |r.rules|, judge, s);
    }
  }

  lemma {:induction false} ListenerSiteMembers(g: Gateway, n: nat, routes: seq<Route>, judge: Judge, s: Site)
    requires n <= |g.listeners|
    ensures s in ListenerSites(g, n, routes, judge) <==>
            s.gateway == g && Some(s.listener) in g.listeners[..n] && judge.listener(s.listener) &&
            s.route in routes && OnRoute(s, judge)
  {
    if n > 0 {
      assert g.listeners[..n] == g.listeners[..n - 1] + [g.listeners[n - 1]];
      assert routes[..|routes|] == routes;
      ListenerSiteMembers(g, n - 1, routes, judge, s);
      if g.listeners[n - 1].Some? {
        RouteSiteMembers(g, g.listeners[n - 1].value, routes, |routes|, judge, s);
      }
    }
  }

  lemma {:induction false} GatewaySiteMembers(gateways: seq<Gateway>, n: nat, routes: seq<Route>, judge: Judge, s: Site)
    requires n <= |gateways|
    ensures s in Sites(gateways, n, routes, judge) <==>
            s.gateway in gateways[..n] && Some(s.listener) in s.gateway.listeners && judge.listener(s.listener) &&
            s.route in routes && OnRoute(s, judge)
  {
    if n > 0 {
      var g := gateways[n - 1];
      assert gateways[..n] == gateways[..n - 1] + [g];
      assert g.listeners[..|g.listeners|] == g.listeners;
      GatewaySiteMembers(gateways, n - 1, routes, judge, s);
      ListenerSiteMembers(g, |g.listeners|, routes, judge, s);
    }
  }

  /** A site, stated without any traversal. */
  ghost predicate IsSite(s: Site, gateways: seq<Gateway>, routes: seq<Route>, intent: Intent) {
    && s.gateway in gateways && Some(s.listener) in s.gateway.listeners && s.route in routes
    && s.ruleIndex < |s.route.rules| && s.route.rules[s.ruleIndex] == Some(s.rule)
    && ListenerMatches(s.listener, intent)
    && Attached(s.route, s.gateway, s.listener.name)
    && HostnameMatches(s.route, intent.host)
    && RuleMatches(s.route.kind, s.rule, intent)
  }

  /** The traversal visits the sites and nothing else. */
  lemma SiteMembers(gateways: seq<Gateway>, routes: seq<Route>, intent: Intent, s: Site)
    ensures s in AllSites(gateways, routes, intent) <==> IsSite(s, gateways, routes, WithPath(intent))
  {
    GatewaySiteMembers(gateways, |gateways|, routes, JudgeFor(WithPath(intent)), s);
    assert gateways[..|gateways|] == gateways;
  }

  // ----- Rule matches ----------------------------------------------------------------------

  function ToRuleMatch(judge: Judge): Site -> RuleMatch {
    (s: Site) => RuleMatch(s.gateway.namespace, s.gateway.name, s.listener.name, s.route.kind, s.route.namespace,
                           s.route.name, s.ruleIndex + 1, s.rule, s.route.created, judge.score(s.route, s.rule))
  }

  function FoundRules(gateways: seq<Gateway>, routes: seq<Route>, intent: Intent): seq<RuleMatch> {
    SortBy(TextLess, Map(ToRuleMatch(JudgeFor(WithPath(intent))), AllSites(gateways, routes, intent)))
  }

  /** The innermost loop of gatewayFindRuleMatches. */
  method RulesOfRoute(g: Gateway, l: Listener, r: Route, judge: Judge) returns (found: seq<RuleMatch>)
    ensures found == Map(ToRuleMatch(judge), RuleSites(g, l, r, |r.rules|, judge))
  {
    found := [];
    for n := 0 to |r.rules|
      invariant found == Map(ToRuleMatch(judge), RuleSites(g, l, r, n, judge))
    {
      var raw := r.rules[n];
      if raw.None? || !judge.rule(r.kind, raw.value) {
        continue;
      }
      found := found + [RuleMatch(g.namespace, g.name, l.name, r.kind, r.namespace, r.name, n + 1, raw.value,
                                  r.created, judge.score(r, raw.value))];
    }
  }

  /** The loop over the routes. */
  method RulesOfListener(g: Gateway, l: Listener, routes: seq<Route>, judge: Judge) returns (found: seq<RuleMatch>)
    ensures found == Map(ToRuleMatch(judge), RouteSites(g, l, routes, |routes|, judge))
  {
    found := [];
    for k := 0 to |routes|
      invariant found == Map(ToRuleMatch(judge), RouteSites(g, l, routes, k, judge))
    {
      var r := routes[k];
      if !judge.attached(r, g, l.name) {
        continue;
      }
      if !judge.hostname(r) {
        continue;
      }
      var more := RulesOfRoute(g, l, r, judge);
      MapAppend(ToRuleMatch(judge), RouteSites(g, l, routes, k, judge), RuleSites(g, l, r, |r.rules|, judge));
      found := found + more;
    }
  }

  /** The loop over the listeners. */
  method RulesOfGateway(g: Gateway, routes: seq<Route>, judge: Judge) returns (found: seq<RuleMatch>)
    ensures found == Map(ToRuleMatch(judge), ListenerSites(g, |g.listeners|, routes, judge))
  {
    found := [];
    for n := 0 to |g.listeners|
      invariant found == Map(ToRuleMatch(judge), ListenerSites(g, n, routes, judge))
    {
      var raw := g.listeners[n];
      if raw.None? || !judge.listener(raw.value) {
        continue;
      }
      var more := RulesOfListener(g, raw.value, routes, judge);
      MapAppend(ToRuleMatch(judge), ListenerSites(g, n, routes, judge),
                RouteSites(g, raw.value, routes, |routes|, judge));
      found := found + more;
    }
  }

  /** gatewayFindRuleMatches. */
  method FindRuleMatches(gateways: seq<Gateway>, routes: seq<Route>, intent: Intent) returns (found: seq<RuleMatch>)
    ensures found == FoundRules(gateways, routes, intent)
  {
    var judge := JudgeFor(WithPath(intent));
    found := [];
    for k := 0 to |gateways|
      invariant found == Map(ToRuleMatch(judge), Sites(gateways, k, routes, judge))
    {
      var more := RulesOfGateway(gateways[k], routes, judge);
      MapAppend(ToRuleMatch(judge), Sites(gateways, k, routes, judge),
                ListenerSites(gateways[k], |gateways[k].listeners|, routes, judge));
      found := found + more;
    }
    found := SortBy(TextLess, found);
  }

  // ----- Backend paths ---------------------------------------------------------------------

  function PathAt(s: Site, b: nat): PathMatch
    requires b < |s.rule.backendRefs| && s.rule.backendRefs[b].Some?
  {
    var ref := s.rule.backendRefs[b].value;
    PathMatch(s.gateway.namespace, s.gateway.name, s.listener.name, s.route.kind, s.route.namespace, s.route.name,
              s.ruleIndex + 1, b + 1, DefaultString(ref.namespace, s.route.namespace), ref.name,
              (if ref.port.Some? then ref.port.value else 0), Weight(ref))
  }

  /** The paths of the first `n` backendRefs of a site. */
  function SitePaths(s: Site, n: nat): seq<PathMatch>
    requires n <= |s.rule.backendRefs|
  {
    if n == 0 then []
    else SitePaths(s, n - 1) + (if Live(s.rule.backendRefs[n - 1]) then [PathAt(s, n - 1)] else [])
  }

  function AllPaths(sites: seq<Site>): seq<PathMatch> {
    if sites == [] then []
    else
      var s := sites[|sites| - 1];
      AllPaths(sites[..|sites| - 1]) + SitePaths(s, |s.rule.backendRefs|)
  }

  function FoundPaths(gateways: seq<Gateway>, routes: seq<Route>, intent: Intent): seq<PathMatch> {
    SortBy(PathTextLess, AllPaths(AllSites(gateways, routes, intent)))
  }

  lemma AllPathsLast(sites: seq<Site>, s: Site)
    ensures AllPaths(sites + [s]) == AllPaths(sites) + SitePaths(s, |s.rule.backendRefs|)
  {
    assert (sites + [s])[..|sites|] == sites;
  }

  lemma {:induction false} AllPathsAppend(a: seq<Site>, b: seq<Site>)
    ensures AllPaths(a + b) == AllPaths(a) + AllPaths(b)
  {
    if b == [] {
      assert a + b == a;
    } else {
      var front, s := b[..|b| - 1], b[|b| - 1];
      LastSplit(b);
      AllPathsAppend(a, front);
      AllPathsLast(a + front, s);
      AllPathsLast(front, s);
      assert a + b == (a + front) + [s];
    }
  }

  lemma PathsOfOne(s: Site)
    ensures AllPaths([s]) == SitePaths(s, |s.rule.backendRefs|)
  {
    AllPathsLast([], s);
    assert [] + [s] == [s];
  }

  /** The backend loop of gatewayFindCandidatePaths. */
  method PathsOfRule(s: Site) returns (found: seq<PathMatch>)
    ensures found == SitePaths(s, |s.rule.backendRefs|)
  {
    found := [];
    for n := 0 to |s.rule.backendRefs|
      invariant found == SitePaths(s, n)
    {
      var raw := s.rule.backendRefs[n];
      if raw.None? {
        continue;
      }
      var backend := raw.value;
      if Weight(backend) == 0 {
        continue;
      }
      if backend.name == "" {
        continue;
      }
      var port := if backend.port.Some? then backend.port.value else 0;
      var namespace := DefaultString(backend.namespace, s.route.namespace);
      found := found + [PathMatch(s.gateway.namespace, s.gateway.name, s.listener.name, s.route.kind,
                                  s.route.namespace, s.route.name, s.ruleIndex + 1, n + 1,
                                  namespace, backend.name, port, Weight(backend))];
    }
  }

  /** The rule loop of gatewayFindCandidatePaths. */
  method PathsOfRoute(g: Gateway, l: Listener, r: Route, judge: Judge) returns (found: seq<PathMatch>)
    ensures found == AllPaths(RuleSites(g, l, r, |r.rules|, judge))
  {
    found := [];
    for n := 0 to |r.rules|
      invariant found == AllPaths(RuleSites(g, l, r, n, judge))
    {
      var raw := r.rules[n];
      if raw.None? || !judge.rule(r.kind, raw.value) {
        continue;
      }
      var more := PathsOfRule(Site(g, l, r, n, raw.value));
      AllPathsAppend(RuleSites(g, l, r, n, judge), [Site(g, l, r, n, raw.value)]);
      PathsOfOne(Site(g, l, r, n, raw.value));
      found := found + more;
    }
  }

  /** The loop over the routes. */
  method PathsOfListener(g: Gateway, l: Listener, routes: seq<Route>, judge: Judge) returns (found: seq<PathMatch>)
    ensures found == AllPaths(RouteSites(g, l, routes, |routes|, judge))
  {
    found := [];
    for k := 0 to |routes|
      invariant found == AllPaths(RouteSites(g, l, routes, k, judge))
    {
      var r := routes[k];
      if !judge.attached(r, g, l.name) {
        continue;
      }
      if !judge.hostname(r) {
        continue;
      }
      var more := PathsOfRoute(g, l, r, judge);
      AllPathsAppend(RouteSites(g, l, routes, k, judge), RuleSites(g, l, r, |r.rules|, judge));
      found := found + more;
    }
  }

  /** The loop over the listeners. */
  method PathsOfGateway(g: Gateway, routes: seq<Route>, judge: Judge) returns (found: seq<PathMatch>)
    ensures found == AllPaths(ListenerSites(g, |g.listeners|, routes, judge))
  {
    found := [];
    for n := 0 to |g.listeners|
      invariant found == AllPaths(ListenerSites(g, n, routes, judge))
    {
      var raw := g.listeners[n];
      if raw.Some? && judge.listener(raw.value) {
        var more := PathsOfListener(g, raw.value, routes, judge);
        AllPathsAppend(ListenerSites(g, n, routes, judge), RouteSites(g, raw.value, routes, |routes|, judge));
        found := found + more;
      }
    }
  }

  /** gatewayFindCandidatePaths. */
  method FindCandidatePaths(gateways: seq<Gateway>, routes: seq<Route>, intent: Intent) returns (found: seq<PathMatch>)
    ensures found == FoundPaths(gateways, routes, intent)
  {
    var judge := JudgeFor(WithPath(intent));
    found := [];
    for k := 0 to |gateways|
      invariant found == AllPaths(Sites(gateways, k, routes, judge))
    {
      var more := PathsOfGateway(gateways[k], routes, judge);
      AllPathsAppend(Sites(gateways, k, routes, judge),
                     ListenerSites(gateways[k], |gateways[k].listeners|, routes, judge));
      found := found + more;
    }
    found := SortBy(PathTextLess, found);
  }
}
