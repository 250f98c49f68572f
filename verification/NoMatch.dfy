/** gatewayExplainNoTrafficMatch: the staged search for the reason why nothing matched.  Whenever some
    rule does match, every stage finds something, so no stage is ever blamed. */
module NoMatch {
  import opened Text
  import opened Gateway
  import opened RouteSelection
  import Hostnames
  import RouteWinners

  /** The class of the explanation. */
  datatype Reason =
    | NoGateways | ListenerHostOnly | NoListener | NoAttachment | NoHostname
    | NoService | NoGRPCMethod | NoGRPCHeaders
    | NoPath | NoMethod | NoHeaders | NoQuery
    | NoBackend

  datatype Candidate = Candidate(gateway: Gateway, listener: Listener)

  function RefOf(r: Route): string {
    RefText(r.namespace, r.name)
  }

  /** Route references identify routes. */
  ghost predicate UniqueRefs(routes: seq<Route>) {
    forall r, t :: r in routes && t in routes && RefOf(r) == RefOf(t) ==> r == t
  }

  /** A rule without matches stands for one empty match. */
  const EMPTY_MATCH := RouteMatch(None, "", None, [], [])

  function MatchesOf(rule: RouteRule): seq<Option<RouteMatch>> {
    if rule.matches == [] then [Some(EMPTY_MATCH)] else rule.matches
  }

  predicate RuleHas(rule: RouteRule, test: RouteMatch -> bool) {
    exists k :: 0 <= k < |MatchesOf(rule)| && MatchesOf(rule)[k].Some? && test(MatchesOf(rule)[k].value)
  }

  /** Some match of some rule of the route passes the test. */
  predicate RouteHas(r: Route, test: RouteMatch -> bool) {
    exists i :: 0 <= i < |r.rules| && r.rules[i].Some? && RuleHas(r.rules[i].value, test)
  }

  // ----- The stages ------------------------------------------------------------------------

  ghost predicate IsCandidate(c: Candidate, gateways: seq<Gateway>, intent: Intent) {
    c.gateway in gateways && Some(c.listener) in c.gateway.listeners && ListenerMatches(c.listener, intent)
  }

  /** gatewayTrafficMatchingListeners. */
  method MatchingListeners(gateways: seq<Gateway>, intent: Intent) returns (out: seq<Candidate>)
    ensures forall c :: c in out <==> IsCandidate(c, gateways, intent)
  {
    out := [];
    for k := 0 to |gateways|
      invariant forall c :: c in out <==> IsCandidate(c, gateways[..k], intent)
    {
      var g := gateways[k];
      assert gateways[..k + 1] == gateways[..k] + [g];
      var more := ListenersOf(g, intent);
      out := out + more;
    }
    assert gateways[..|gateways|] == gateways;
  }

  method ListenersOf(g: Gateway, intent: Intent) returns (out: seq<Candidate>)
    ensures forall c :: c in out <==> IsCandidate(c, [g], intent)
  {
    var accepts := (l: Listener) => ListenerMatches(l, intent);
    out := [];
    for n := 0 to |g.listeners|
      invariant forall c :: c in out <==> c.gateway == g && Some(c.listener) in g.listeners[..n] && accepts(c.listener)
    {
      assert g.listeners[..n + 1] == g.listeners[..n] + [g.listeners[n]];
      if g.listeners[n].Some? && accepts(g.listeners[n].value) {
        out := out + [Candidate(g, g.listeners[n].value)];
      }
    }
    assert g.listeners[..|g.listeners|] == g.listeners;
  }

  /** What a stage that drops repeated references returns: only routes that pass, and one for every
      reference that passes. */
  ghost predicate Passed(out: seq<Route>, routes: seq<Route>, test: Route -> bool) {
    && (forall r :: r in out ==> r in routes && test(r))
    && (forall r :: r in routes && test(r) ==> exists t :: t in out && RefOf(t) == RefOf(r))
  }

  function AttachedToAny(listeners: seq<Candidate>): Route -> bool {
    (r: Route) => exists k :: 0 <= k < |listeners| && Attached(r, listeners[k].gateway, listeners[k].listener.name)
  }

  method AttachesToAny(r: Route, listeners: seq<Candidate>) returns (ok: bool)
    ensures ok == AttachedToAny(listeners)(r)
  {
    for k := 0 to |listeners|
      invariant forall j :: 0 <= j < k ==> !Attached(r, listeners[j].gateway, listeners[j].listener.name)
    {
      if Attached(r, listeners[k].gateway, listeners[k].listener.name) {
        return true;
      }
    }
    return false;
  }

  ghost predicate SeenIn(seen: set<string>, out: seq<Route>) {
    forall key :: key in seen ==> exists t :: t in out && RefOf(t) == key
  }

  lemma RouteKept(out: seq<Route>, routes: seq<Route>, r: Route, test: Route -> bool)
    requires Passed(out, routes, test) && test(r)
    ensures Passed(out + [r], routes + [r], test)
  {
    var more := out + [r];
    assert more[|out|] == r;
    assert forall t :: t in more <==> t in out || t == r;
    assert forall t :: t in routes + [r] <==> t in routes || t == r;
  }

  lemma RouteSkipped(out: seq<Route>, routes: seq<Route>, r: Route, test: Route -> bool)
    requires Passed(out, routes, test)
    requires test(r) ==> exists t :: t in out && RefOf(t) == RefOf(r)
    ensures Passed(out, routes + [r], test)
  {
    assert forall t :: t in routes + [r] <==> t in routes || t == r;
  }

  lemma SeenOneMore(seen: set<string>, out: seq<Route>, r: Route)
    requires SeenIn(seen, out)
    ensures SeenIn(seen + {RefOf(r)}, out + [r])
  {
    assert (out + [r])[|out|] == r;
    assert forall t :: t in out ==> t in out + [r];
  }

  /** The step of the stages that drop repeated references: keep a passing route whose reference is new. */
  method KeepNew(out: seq<Route>, seen: set<string>, r: Route, ok: bool, ghost routes: seq<Route>, ghost test: Route -> bool)
    returns (out': seq<Route>, seen': set<string>)
    requires Passed(out, routes, test) && SeenIn(seen, out) && ok == test(r)
    ensures Passed(out', routes + [r], test) && SeenIn(seen', out')
  {
    out', seen' := out, seen;
    if ok && RefOf(r) !in seen {
      RouteKept(out, routes, r, test);
      SeenOneMore(seen, out, r);
      seen' := seen + {RefOf(r)};
      out' := out + [r];
    } else {
      RouteSkipped(out, routes, r, test);
    }
  }

  /** gatewayTrafficAttachedRoutes. */
  method AttachedRoutes(routes: seq<Route>, listeners: seq<Candidate>) returns (out: seq<Route>)
    ensures Passed(out, routes, AttachedToAny(listeners))
  {
    var seen: set<string> := {};
    out := [];
    for k := 0 to |routes|
      invariant Passed(out, routes[..k], AttachedToAny(listeners)) && SeenIn(seen, out)
    {
      assert routes[..k + 1] == routes[..k] + [routes[k]];
      var ok := AttachesToAny(routes[k], listeners);
      out, seen := KeepNew(out, seen, routes[k], ok, routes[..k], AttachedToAny(listeners));
    }
    assert routes[..|routes|] == routes;
  }

  /** gatewayTrafficHostnameRoutes. */
  method HostnameRoutes(routes: seq<Route>, host: string) returns (out: seq<Route>)
    ensures forall r :: r in out <==> r in routes && HostnameMatches(r, host)
  {
    var test := (r: Route) => HostnameMatches(r, host);
    out := [];
    for k := 0 to |routes|
      invariant forall r :: r in out <==> r in routes[..k] && test(r)
    {
      assert routes[..k + 1] == routes[..k] + [routes[k]];
      if test(routes[k]) {
        out := out + [routes[k]];
      }
    }
    assert routes[..|routes|] == routes;
  }

  /** The rule and match loops shared by the stages. */
  method SearchRoute(r: Route, test: RouteMatch -> bool) returns (found: bool)
    ensures found <==> RouteHas(r, test)
  {
    for i := 0 to |r.rules|
      invariant forall n :: 0 <= n < i && r.rules[n].Some? ==> !RuleHas(r.rules[n].value, test)
    {
      if r.rules[i].None? {
        continue;
      }
      var rule := r.rules[i].value;
      var matches := MatchesOf(rule);
      for k := 0 to |matches|
        invariant forall j :: 0 <= j < k && matches[j].Some? ==> !test(matches[j].value)
      {
        if matches[k].Some? && test(matches[k].value) {
          assert RuleHas(rule, test);
          return true;
        }
      }
    }
    return false;
  }

  function HasMatch(test: RouteMatch -> bool): Route -> bool {
    (r: Route) => RouteHas(r, test)
  }

  /** gatewayTrafficRoutesMatching. */
  method RoutesMatching(routes: seq<Route>, test: RouteMatch -> bool) returns (out: seq<Route>)
    ensures Passed(out, routes, HasMatch(test))
  {
    var seen: set<string> := {};
    out := [];
    for k := 0 to |routes|
      invariant Passed(out, routes[..k], HasMatch(test)) && SeenIn(seen, out)
    {
      assert routes[..k + 1] == routes[..k] + [routes[k]];
      var ok := SearchRoute(routes[k], test);
      out, seen := KeepNew(out, seen, routes[k], ok, routes[..k], HasMatch(test));
    }
    assert routes[..|routes|] == routes;
  }

  /** gatewayGRPCRoutesHaveMatch. */
  method SomeRouteHas(routes: seq<Route>, test: RouteMatch -> bool) returns (found: bool)
    ensures found <==> exists r :: r in routes && RouteHas(r, test)
  {
    for k := 0 to |routes|
      invariant forall j :: 0 <= j < k ==> !RouteHas(routes[j], test)
    {
      var ok := SearchRoute(routes[k], test);
      if ok {
        return true;
      }
    }
    return false;
  }

  /** gatewayAnyListenerHostnameMatches. */
  method AnyListenerHostname(gateways: seq<Gateway>, host: string) returns (found: bool)
    ensures found <==> ListenerHostKnown(gateways, host)
  {
    for k := 0 to |gateways|
      invariant forall j :: 0 <= j < k ==> !HostOnGateway(gateways[j], host)
    {
      var g := gateways[k];
      for n := 0 to |g.listeners|
        invariant forall j :: 0 <= j < n && g.listeners[j].Some? ==> !Hostnames.Matches(g.listeners[j].value.hostname, host)
      {
        if g.listeners[n].Some? && Hostnames.Matches(g.listeners[n].value.hostname, host) {
          assert HostOnGateway(g, host);
          return true;
        }
      }
    }
    return false;
  }

  predicate HostOnGateway(g: Gateway, host: string) {
    exists j :: 0 <= j < |g.listeners| && g.listeners[j].Some? && Hostnames.Matches(g.listeners[j].value.hostname, host)
  }

  predicate ListenerHostKnown(gateways: seq<Gateway>, host: string) {
    exists k :: 0 <= k < |gateways| && HostOnGateway(gateways[k], host)
  }

  // ----- The tests of the match stages -----------------------------------------------------

  function PathTest(intent: Intent): RouteMatch -> bool {
    (m: RouteMatch) => PathMatches(m, intent)
  }

  function MethodTest(intent: Intent): RouteMatch -> bool {
    (m: RouteMatch) => MethodMatches(m, intent)
  }

  function HeadersTest(intent: Intent): RouteMatch -> bool {
    (m: RouteMatch) => HeadersMatch(m, intent)
  }

  function QueryTest(intent: Intent): RouteMatch -> bool {
    (m: RouteMatch) => QueryMatches(m, intent)
  }

  function ServiceTest(intent: Intent): RouteMatch -> bool {
    (m: RouteMatch) => ServiceMatches(m, intent)
  }

  function ServiceMethodTest(intent: Intent): RouteMatch -> bool {
    (m: RouteMatch) => ServiceMatches(m, intent) && GRPCMethodMatches(m, intent)
  }

  function ServiceMethodHeadersTest(intent: Intent): RouteMatch -> bool {
    (m: RouteMatch) => ServiceMatches(m, intent) && GRPCMethodMatches(m, intent) && HeadersMatch(m, intent)
  }

  // ----- What the explanation means --------------------------------------------------------

  /** Route `r` is attached to a listener that matches the request. */
  ghost predicate AtListener(r: Route, gateways: seq<Gateway>, routes: seq<Route>, intent: Intent) {
    r in routes && exists c :: IsCandidate(c, gateways, intent) && Attached(r, c.gateway, c.listener.name)
  }

  ghost predicate AtHost(r: Route, gateways: seq<Gateway>, routes: seq<Route>, intent: Intent) {
    AtListener(r, gateways, routes, intent) && HostnameMatches(r, intent.host)
  }

  ghost predicate HasEach(r: Route, tests: seq<RouteMatch -> bool>) {
    forall k :: 0 <= k < |tests| ==> RouteHas(r, tests[k])
  }

  /** Some route at the listener and the host has, for each of the tests, a match that passes it. */
  ghost predicate SomeoneHas(gateways: seq<Gateway>, routes: seq<Route>, intent: Intent, tests: seq<RouteMatch -> bool>) {
    exists r :: AtHost(r, gateways, routes, intent) && HasEach(r, tests)
  }

  ghost predicate SomeCandidate(gateways: seq<Gateway>, intent: Intent) {
    exists c :: IsCandidate(c, gateways, intent)
  }

  ghost predicate SomeAtListener(gateways: seq<Gateway>, routes: seq<Route>, intent: Intent) {
    exists r :: AtListener(r, gateways, routes, intent)
  }

  /** The HTTP stages: each filter works on what the one before it left. */
  ghost function HTTPReason(gateways: seq<Gateway>, routes: seq<Route>, intent: Intent,
                            path: RouteMatch -> bool, method_: RouteMatch -> bool,
                            headers: RouteMatch -> bool, query: RouteMatch -> bool): Reason {
    if !SomeoneHas(gateways, routes, intent, [path]) then NoPath
    else if !SomeoneHas(gateways, routes, intent, [path, method_]) then NoMethod
    else if !SomeoneHas(gateways, routes, intent, [path, method_, headers]) then NoHeaders
    else if !SomeoneHas(gateways, routes, intent, [path, method_, headers, query]) then NoQuery
    else NoBackend
  }

  /** The reason, by what exists in the cluster at each stage. */
  ghost function ReasonFor(gateways: seq<Gateway>, routes: seq<Route>, intent: Intent): Reason {
    if gateways == [] then NoGateways
    else if !SomeCandidate(gateways, intent) then
      if ListenerHostKnown(gateways, intent.host) then ListenerHostOnly else NoListener
    else if !SomeAtListener(gateways, routes, intent) then NoAttachment
    else if !SomeoneHas(gateways, routes, intent, []) then NoHostname
    else match FamilyOf(PrimaryFamily(intent))
      case TLS => NoBackend
      case GRPC =>
        if !SomeoneHas(gateways, routes, intent, [ServiceTest(intent)]) then NoService
        else if !SomeoneHas(gateways, routes, intent, [ServiceMethodTest(intent)]) then NoGRPCMethod
        else if !SomeoneHas(gateways, routes, intent, [ServiceMethodHeadersTest(intent)]) then NoGRPCHeaders
        else NoBackend
      case HTTP =>
        HTTPReason(gateways, routes, intent, PathTest(intent), MethodTest(intent), HeadersTest(intent), QueryTest(intent))
  }

  // ----- What each reason says -------------------------------------------------------------

  /** The listener is one of the gateway's and matches the request. */
  ghost predicate Listens(g: Gateway, l: Listener, gateways: seq<Gateway>, intent: Intent) {
    g in gateways && Some(l) in g.listeners && ListenerMatches(l, intent)
  }

  ghost predicate SomeListener(gateways: seq<Gateway>, intent: Intent) {
    exists g, l :: Listens(g, l, gateways, intent)
  }

  ghost predicate SomeHostname(gateways: seq<Gateway>, host: string) {
    exists g, l :: g in gateways && Some(l) in g.listeners && Hostnames.Matches(l.hostname, host)
  }

  ghost predicate Attaches(r: Route, gateways: seq<Gateway>, routes: seq<Route>, intent: Intent) {
    r in routes && exists g, l :: Listens(g, l, gateways, intent) && Attached(r, g, l.name)
  }

  ghost predicate SomeAttached(gateways: seq<Gateway>, routes: seq<Route>, intent: Intent) {
    exists r :: Attaches(r, gateways, routes, intent)
  }

  /** The route is attached to a listener of the request and its hostnames match. */
  ghost predicate Stands(r: Route, gateways: seq<Gateway>, routes: seq<Route>, intent: Intent) {
    Attaches(r, gateways, routes, intent) && HostnameMatches(r, intent.host)
  }

  /** A match of one of the route's rules; a rule without matches has one that asks for nothing. */
  ghost predicate MatchOf(r: Route, m: RouteMatch) {
    exists rule :: Some(rule) in r.rules &&
      (if rule.matches == [] then m == RouteMatch(None, "", None, [], []) else Some(m) in rule.matches)
  }

  ghost predicate ServesPath(r: Route, intent: Intent) {
    exists m :: MatchOf(r, m) && PathMatches(m, intent)
  }

  ghost predicate ServesMethod(r: Route, intent: Intent) {
    exists m :: MatchOf(r, m) && MethodMatches(m, intent)
  }

  ghost predicate ServesHeaders(r: Route, intent: Intent) {
    exists m :: MatchOf(r, m) && HeadersMatch(m, intent)
  }

  ghost predicate ServesQuery(r: Route, intent: Intent) {
    exists m :: MatchOf(r, m) && QueryMatches(m, intent)
  }

  ghost predicate ServesService(r: Route, intent: Intent) {
    exists m :: MatchOf(r, m) && ServiceMatches(m, intent)
  }

  ghost predicate ServesGRPCMethod(r: Route, intent: Intent) {
    exists m :: MatchOf(r, m) && ServiceMatches(m, intent) && GRPCMethodMatches(m, intent)
  }

  ghost predicate ServesGRPCHeaders(r: Route, intent: Intent) {
    exists m :: MatchOf(r, m) && ServiceMatches(m, intent) && GRPCMethodMatches(m, intent) && HeadersMatch(m, intent)
  }

  /** Some standing route gets as far as the stage: 0 for the hostname, 1 to 4 for path, method, headers and query. */
  ghost predicate Reaches(gateways: seq<Gateway>, routes: seq<Route>, intent: Intent, stage: nat) {
    exists r ::
      && Stands(r, gateways, routes, intent)
      && (stage >= 1 ==> ServesPath(r, intent))
      && (stage >= 2 ==> ServesMethod(r, intent))
      && (stage >= 3 ==> ServesHeaders(r, intent))
      && (stage >= 4 ==> ServesQuery(r, intent))
  }

  /** The gRPC stages: 0 for the hostname, 1 for the service, 2 for the method and 3 for the headers of one match. */
  ghost predicate ReachesGRPC(gateways: seq<Gateway>, routes: seq<Route>, intent: Intent, stage: nat) {
    exists r ::
      && Stands(r, gateways, routes, intent)
      && (stage == 1 ==> ServesService(r, intent))
      && (stage == 2 ==> ServesGRPCMethod(r, intent))
      && (stage == 3 ==> ServesGRPCHeaders(r, intent))
  }

  /** Exactly when each of the first reasons is given. */
  ghost predicate TellsListener(reason: Reason, gateways: seq<Gateway>, routes: seq<Route>, intent: Intent) {
    && (reason == NoGateways <==> gateways == [])
    && (reason == ListenerHostOnly <==>
          gateways != [] && !SomeListener(gateways, intent) && SomeHostname(gateways, intent.host))
    && (reason == NoListener <==>
          gateways != [] && !SomeListener(gateways, intent) && !SomeHostname(gateways, intent.host))
    && (reason == NoAttachment <==> SomeListener(gateways, intent) && !SomeAttached(gateways, routes, intent))
    && (reason == NoHostname <==>
          SomeAttached(gateways, routes, intent) && !Reaches(gateways, routes, intent, 0))
  }

  /** Exactly when each HTTP reason is given: some standing route gets to the stage before, and none to this one. */
  ghost predicate TellsHTTP(reason: Reason, gateways: seq<Gateway>, routes: seq<Route>, intent: Intent) {
    var http := FamilyOf(PrimaryFamily(intent)) == HTTP;
    && (reason == NoPath <==>
          http && Reaches(gateways, routes, intent, 0) && !Reaches(gateways, routes, intent, 1))
    && (reason == NoMethod <==>
          http && Reaches(gateways, routes, intent, 1) && !Reaches(gateways, routes, intent, 2))
    && (reason == NoHeaders <==>
          http && Reaches(gateways, routes, intent, 2) && !Reaches(gateways, routes, intent, 3))
    && (reason == NoQuery <==>
          http && Reaches(gateways, routes, intent, 3) && !Reaches(gateways, routes, intent, 4))
  }

  /** Exactly when each gRPC reason is given. */
  ghost predicate TellsGRPC(reason: Reason, gateways: seq<Gateway>, routes: seq<Route>, intent: Intent) {
    var grpc := FamilyOf(PrimaryFamily(intent)) == GRPC;
    && (reason == NoService <==>
          grpc && ReachesGRPC(gateways, routes, intent, 0) && !ReachesGRPC(gateways, routes, intent, 1))
    && (reason == NoGRPCMethod <==>
          grpc && ReachesGRPC(gateways, routes, intent, 1) && !ReachesGRPC(gateways, routes, intent, 2))
    && (reason == NoGRPCHeaders <==>
          grpc && ReachesGRPC(gateways, routes, intent, 2) && !ReachesGRPC(gateways, routes, intent, 3))
  }

  lemma MatchOfReads(r: Route, test: RouteMatch -> bool)
    ensures RouteHas(r, test) <==> exists m :: MatchOf(r, m) && test(m)
  {
    if RouteHas(r, test) {
      var m := PassingMatch(r, test);
    }
    if m :| MatchOf(r, m) && test(m) {
      MatchPasses(r, m, test);
    }
  }

  lemma PassingMatch(r: Route, test: RouteMatch -> bool) returns (m: RouteMatch)
    requires RouteHas(r, test)
    ensures MatchOf(r, m) && test(m)
  {
    var i :| 0 <= i < |r.rules| && r.rules[i].Some? && RuleHas(r.rules[i].value, test);
    var rule := r.rules[i].value;
    var j :| 0 <= j < |MatchesOf(rule)| && MatchesOf(rule)[j].Some? && test(MatchesOf(rule)[j].value);
    m := MatchesOf(rule)[j].value;
    assert Some(rule) in r.rules;
  }

  lemma MatchPasses(r: Route, m: RouteMatch, test: RouteMatch -> bool)
    requires MatchOf(r, m) && test(m)
    ensures RouteHas(r, test)
  {
    var rule :| Some(rule) in r.rules &&
      (if rule.matches == [] then m == RouteMatch(None, "", None, [], []) else Some(m) in rule.matches);
    var i :| 0 <= i < |r.rules| && r.rules[i] == Some(rule);
    assert Some(m) in MatchesOf(rule);
    var j :| 0 <= j < |MatchesOf(rule)| && MatchesOf(rule)[j] == Some(m);
    assert RuleHas(rule, test);
  }

  lemma TestsRead(r: Route, intent: Intent)
    ensures RouteHas(r, PathTest(intent)) <==> ServesPath(r, intent)
    ensures RouteHas(r, MethodTest(intent)) <==> ServesMethod(r, intent)
    ensures RouteHas(r, HeadersTest(intent)) <==> ServesHeaders(r, intent)
    ensures RouteHas(r, QueryTest(intent)) <==> ServesQuery(r, intent)
  {
    MatchOfReads(r, PathTest(intent));
    MatchOfReads(r, MethodTest(intent));
    MatchOfReads(r, HeadersTest(intent));
    MatchOfReads(r, QueryTest(intent));
  }

  lemma GRPCTestsRead(r: Route, intent: Intent)
    ensures RouteHas(r, ServiceTest(intent)) <==> ServesService(r, intent)
    ensures RouteHas(r, ServiceMethodTest(intent)) <==> ServesGRPCMethod(r, intent)
    ensures RouteHas(r, ServiceMethodHeadersTest(intent)) <==> ServesGRPCHeaders(r, intent)
  {
    MatchOfReads(r, ServiceTest(intent));
    MatchOfReads(r, ServiceMethodTest(intent));
    MatchOfReads(r, ServiceMethodHeadersTest(intent));
  }

  lemma StandsReads(r: Route, gateways: seq<Gateway>, routes: seq<Route>, intent: Intent)
    ensures AtListener(r, gateways, routes, intent) <==> Attaches(r, gateways, routes, intent)
    ensures AtHost(r, gateways, routes, intent) <==> Stands(r, gateways, routes, intent)
  {
    if c :| IsCandidate(c, gateways, intent) && Attached(r, c.gateway, c.listener.name) {
      assert Listens(c.gateway, c.listener, gateways, intent);
    }
    if g, l :| Listens(g, l, gateways, intent) && Attached(r, g, l.name) {
      assert IsCandidate(Candidate(g, l), gateways, intent);
    }
  }

  lemma ListenersRead(gateways: seq<Gateway>, intent: Intent)
    ensures SomeCandidate(gateways, intent) <==> SomeListener(gateways, intent)
    ensures ListenerHostKnown(gateways, intent.host) <==> SomeHostname(gateways, intent.host)
  {
    if c :| IsCandidate(c, gateways, intent) {
      assert Listens(c.gateway, c.listener, gateways, intent);
    }
    if g, l :| Listens(g, l, gateways, intent) {
      assert IsCandidate(Candidate(g, l), gateways, intent);
    }
    if k :| 0 <= k < |gateways| && HostOnGateway(gateways[k], intent.host) {
      var j :| 0 <= j < |gateways[k].listeners| && gateways[k].listeners[j].Some? &&
        Hostnames.Matches(gateways[k].listeners[j].value.hostname, intent.host);
      assert Some(gateways[k].listeners[j].value) in gateways[k].listeners;
    }
    if g, l :| g in gateways && Some(l) in g.listeners && Hostnames.Matches(l.hostname, intent.host) {
      var k :| 0 <= k < |gateways| && gateways[k] == g;
      var j :| 0 <= j < |g.listeners| && g.listeners[j] == Some(l);
      assert HostOnGateway(gateways[k], intent.host);
    }
  }

  lemma EachOfOne(r: Route, a: RouteMatch -> bool)
    ensures HasEach(r, [a]) <==> RouteHas(r, a)
  {
    assert [] + [a] == [a];
    HasOneMore(r, [], a);
  }

  /** The four HTTP tests, one after the other. */
  lemma EachOfFour(r: Route, a: RouteMatch -> bool, b: RouteMatch -> bool, c: RouteMatch -> bool, d: RouteMatch -> bool)
    ensures HasEach(r, [a]) <==> RouteHas(r, a)
    ensures HasEach(r, [a, b]) <==> RouteHas(r, a) && RouteHas(r, b)
    ensures HasEach(r, [a, b, c]) <==> RouteHas(r, a) && RouteHas(r, b) && RouteHas(r, c)
    ensures HasEach(r, [a, b, c, d]) <==> RouteHas(r, a) && RouteHas(r, b) && RouteHas(r, c) && RouteHas(r, d)
  {
    EachOfOne(r, a);
    HasOneMore(r, [a], b);
    assert [a] + [b] == [a, b];
    HasOneMore(r, [a, b], c);
    assert [a, b] + [c] == [a, b, c];
    HasOneMore(r, [a, b, c], d);
    assert [a, b, c] + [d] == [a, b, c, d];
  }

  lemma StageReads(gateways: seq<Gateway>, routes: seq<Route>, intent: Intent, tests: seq<RouteMatch -> bool>, stage: nat)
    requires forall r :: HasEach(r, tests) <==>
               && (stage >= 1 ==> ServesPath(r, intent)) && (stage >= 2 ==> ServesMethod(r, intent))
               && (stage >= 3 ==> ServesHeaders(r, intent)) && (stage >= 4 ==> ServesQuery(r, intent))
    ensures SomeoneHas(gateways, routes, intent, tests) <==> Reaches(gateways, routes, intent, stage)
  {
    forall r ensures AtHost(r, gateways, routes, intent) <==> Stands(r, gateways, routes, intent) {
      StandsReads(r, gateways, routes, intent);
    }
  }

  lemma HTTPStagesRead(gateways: seq<Gateway>, routes: seq<Route>, intent: Intent)
    ensures var path, method_, headers, query :=
              PathTest(intent), MethodTest(intent), HeadersTest(intent), QueryTest(intent);
            && (SomeoneHas(gateways, routes, intent, []) <==> Reaches(gateways, routes, intent, 0))
            && (SomeoneHas(gateways, routes, intent, [path]) <==> Reaches(gateways, routes, intent, 1))
            && (SomeoneHas(gateways, routes, intent, [path, method_]) <==> Reaches(gateways, routes, intent, 2))
            && (SomeoneHas(gateways, routes, intent, [path, method_, headers]) <==> Reaches(gateways, routes, intent, 3))
            && (SomeoneHas(gateways, routes, intent, [path, method_, headers, query]) <==>
                  Reaches(gateways, routes, intent, 4))
  {
    var path, method_, headers, query := PathTest(intent), MethodTest(intent), HeadersTest(intent), QueryTest(intent);
    forall r
      ensures HasEach(r, [path]) <==> ServesPath(r, intent)
      ensures HasEach(r, [path, method_]) <==> ServesPath(r, intent) && ServesMethod(r, intent)
      ensures HasEach(r, [path, method_, headers]) <==>
              ServesPath(r, intent) && ServesMethod(r, intent) && ServesHeaders(r, intent)
      ensures HasEach(r, [path, method_, headers, query]) <==>
              ServesPath(r, intent) && ServesMethod(r, intent) && ServesHeaders(r, intent) && ServesQuery(r, intent)
    {
      EachOfFour(r, path, method_, headers, query);
      TestsRead(r, intent);
    }
    StageReads(gateways, routes, intent, [], 0);
    StageReads(gateways, routes, intent, [path], 1);
    StageReads(gateways, routes, intent, [path, method_], 2);
    StageReads(gateways, routes, intent, [path, method_, headers], 3);
    StageReads(gateways, routes, intent, [path, method_, headers, query], 4);
  }

  lemma GRPCStageReads(gateways: seq<Gateway>, routes: seq<Route>, intent: Intent, test: RouteMatch -> bool, stage: nat)
    requires 1 <= stage <= 3
    requires forall r :: RouteHas(r, test) <==>
               && (stage == 1 ==> ServesService(r, intent)) && (stage == 2 ==> ServesGRPCMethod(r, intent))
               && (stage == 3 ==> ServesGRPCHeaders(r, intent))
    ensures SomeoneHas(gateways, routes, intent, [test]) <==> ReachesGRPC(gateways, routes, intent, stage)
  {
    forall r
      ensures AtHost(r, gateways, routes, intent) <==> Stands(r, gateways, routes, intent)
      ensures HasEach(r, [test]) <==> RouteHas(r, test)
    {
      StandsReads(r, gateways, routes, intent);
      EachOfOne(r, test);
    }
  }

  lemma GRPCStagesRead(gateways: seq<Gateway>, routes: seq<Route>, intent: Intent)
    ensures Reaches(gateways, routes, intent, 0) <==> ReachesGRPC(gateways, routes, intent, 0)
    ensures SomeoneHas(gateways, routes, intent, [ServiceTest(intent)]) <==> ReachesGRPC(gateways, routes, intent, 1)
    ensures SomeoneHas(gateways, routes, intent, [ServiceMethodTest(intent)]) <==> ReachesGRPC(gateways, routes, intent, 2)
    ensures SomeoneHas(gateways, routes, intent, [ServiceMethodHeadersTest(intent)]) <==>
            ReachesGRPC(gateways, routes, intent, 3)
  {
    forall r
      ensures RouteHas(r, ServiceTest(intent)) <==> ServesService(r, intent)
      ensures RouteHas(r, ServiceMethodTest(intent)) <==> ServesGRPCMethod(r, intent)
      ensures RouteHas(r, ServiceMethodHeadersTest(intent)) <==> ServesGRPCHeaders(r, intent)
    {
      GRPCTestsRead(r, intent);
    }
    GRPCStageReads(gateways, routes, intent, ServiceTest(intent), 1);
    GRPCStageReads(gateways, routes, intent, ServiceMethodTest(intent), 2);
    GRPCStageReads(gateways, routes, intent, ServiceMethodHeadersTest(intent), 3);
  }

  lemma LaterReachesEarlier(gateways: seq<Gateway>, routes: seq<Route>, intent: Intent)
    ensures forall i: nat, j: nat :: i <= j && Reaches(gateways, routes, intent, j) ==> Reaches(gateways, routes, intent, i)
    ensures forall j: nat :: ReachesGRPC(gateways, routes, intent, j) ==> ReachesGRPC(gateways, routes, intent, 0)
    ensures Reaches(gateways, routes, intent, 0) ==> SomeAttached(gateways, routes, intent)
    ensures SomeAttached(gateways, routes, intent) ==> SomeListener(gateways, intent)
    ensures SomeListener(gateways, intent) ==> gateways != []
  {
  }

  lemma AttachedReads(gateways: seq<Gateway>, routes: seq<Route>, intent: Intent)
    ensures SomeAtListener(gateways, routes, intent) <==> SomeAttached(gateways, routes, intent)
  {
    forall r ensures AtListener(r, gateways, routes, intent) <==> Attaches(r, gateways, routes, intent) {
      StandsReads(r, gateways, routes, intent);
    }
  }

  /** What the stages find. */
  datatype Facts = Facts(gateways: bool, listener: bool, known: bool, attached: bool, host: bool,
                         path: bool, method_: bool, headers: bool, query: bool,
                         service: bool, grpcMethod: bool, grpcHeaders: bool)

  ghost function FactsOf(gateways: seq<Gateway>, routes: seq<Route>, intent: Intent): Facts {
    Facts(gateways != [], SomeListener(gateways, intent), SomeHostname(gateways, intent.host),
          SomeAttached(gateways, routes, intent), Reaches(gateways, routes, intent, 0),
          Reaches(gateways, routes, intent, 1), Reaches(gateways, routes, intent, 2),
          Reaches(gateways, routes, intent, 3), Reaches(gateways, routes, intent, 4),
          ReachesGRPC(gateways, routes, intent, 1), ReachesGRPC(gateways, routes, intent, 2),
          ReachesGRPC(gateways, routes, intent, 3))
  }

  function ReasonBy(f: Facts, family: Family): Reason {
    if !f.gateways then NoGateways
    else if !f.listener then (if f.known then ListenerHostOnly else NoListener)
    else if !f.attached then NoAttachment
    else if !f.host then NoHostname
    else match family
      case TLS => NoBackend
      case GRPC => if !f.service then NoService else if !f.grpcMethod then NoGRPCMethod
                   else if !f.grpcHeaders then NoGRPCHeaders else NoBackend
      case HTTP => if !f.path then NoPath else if !f.method_ then NoMethod
                   else if !f.headers then NoHeaders else if !f.query then NoQuery else NoBackend
  }

  lemma ReasonIsByFacts(gateways: seq<Gateway>, routes: seq<Route>, intent: Intent)
    ensures ReasonFor(gateways, routes, intent) ==
            ReasonBy(FactsOf(gateways, routes, intent), FamilyOf(PrimaryFamily(intent)))
  {
    ListenersRead(gateways, intent);
    AttachedReads(gateways, routes, intent);
    HostReads(gateways, routes, intent);
    match FamilyOf(PrimaryFamily(intent)) {
      case TLS =>
      case GRPC => GRPCStagesRead(gateways, routes, intent);
      case HTTP => HTTPReasonReads(gateways, routes, intent);
    }
  }

  lemma HostReads(gateways: seq<Gateway>, routes: seq<Route>, intent: Intent)
    ensures SomeoneHas(gateways, routes, intent, []) <==> Reaches(gateways, routes, intent, 0)
  {
    HTTPStagesRead(gateways, routes, intent);
  }

  lemma HTTPReasonReads(gateways: seq<Gateway>, routes: seq<Route>, intent: Intent)
    ensures HTTPReason(gateways, routes, intent, PathTest(intent), MethodTest(intent), HeadersTest(intent),
                       QueryTest(intent)) ==
            if !Reaches(gateways, routes, intent, 1) then NoPath
            else if !Reaches(gateways, routes, intent, 2) then NoMethod
            else if !Reaches(gateways, routes, intent, 3) then NoHeaders
            else if !Reaches(gateways, routes, intent, 4) then NoQuery else NoBackend
  {
    HTTPStagesRead(gateways, routes, intent);
  }

  /** Each fact implies the ones before it. */
  predicate Nested(f: Facts) {
    && (f.query ==> f.headers) && (f.headers ==> f.method_) && (f.method_ ==> f.path) && (f.path ==> f.host)
    && (f.service ==> f.host) && (f.grpcMethod ==> f.service) && (f.grpcHeaders ==> f.grpcMethod)
    && (f.host ==> f.attached) && (f.attached ==> f.listener) && (f.listener ==> f.gateways)
  }

  lemma FactsAreNested(gateways: seq<Gateway>, routes: seq<Route>, intent: Intent)
    ensures Nested(FactsOf(gateways, routes, intent))
  {
    LaterReachesEarlier(gateways, routes, intent);
    GRPCIsNested(gateways, routes, intent);
    GRPCStagesRead(gateways, routes, intent);
  }

  lemma GRPCIsNested(gateways: seq<Gateway>, routes: seq<Route>, intent: Intent)
    ensures ReachesGRPC(gateways, routes, intent, 3) ==> ReachesGRPC(gateways, routes, intent, 2)
    ensures ReachesGRPC(gateways, routes, intent, 2) ==> ReachesGRPC(gateways, routes, intent, 1)
  {
    forall r
      ensures ServesGRPCHeaders(r, intent) ==> ServesGRPCMethod(r, intent)
      ensures ServesGRPCMethod(r, intent) ==> ServesService(r, intent)
    {
    }
  }

  lemma FactsTell(f: Facts, family: Family)
    requires Nested(f)
    ensures var reason := ReasonBy(f, family);
            && (reason == NoGateways <==> !f.gateways)
            && (reason == ListenerHostOnly <==> f.gateways && !f.listener && f.known)
            && (reason == NoListener <==> f.gateways && !f.listener && !f.known)
            && (reason == NoAttachment <==> f.listener && !f.attached)
            && (reason == NoHostname <==> f.attached && !f.host)
            && (reason == NoPath <==> family == HTTP && f.host && !f.path)
            && (reason == NoMethod <==> family == HTTP && f.path && !f.method_)
            && (reason == NoHeaders <==> family == HTTP && f.method_ && !f.headers)
            && (reason == NoQuery <==> family == HTTP && f.headers && !f.query)
            && (reason == NoService <==> family == GRPC && f.host && !f.service)
            && (reason == NoGRPCMethod <==> family == GRPC && f.service && !f.grpcMethod)
            && (reason == NoGRPCHeaders <==> family == GRPC && f.grpcMethod && !f.grpcHeaders)
  {
  }

  lemma ReasonTells(gateways: seq<Gateway>, routes: seq<Route>, intent: Intent)
    ensures var reason := ReasonFor(gateways, routes, intent);
            && TellsListener(reason, gateways, routes, intent)
            && TellsHTTP(reason, gateways, routes, intent)
            && TellsGRPC(reason, gateways, routes, intent)
  {
    ReasonIsByFacts(gateways, routes, intent);
    FactsAreNested(gateways, routes, intent);
    FactsTell(FactsOf(gateways, routes, intent), FamilyOf(PrimaryFamily(intent)));
    assert ReachesGRPC(gateways, routes, intent, 0) <==> Reaches(gateways, routes, intent, 0) by {
      GRPCStagesRead(gateways, routes, intent);
    }
  }

  // ----- The program -----------------------------------------------------------------------

  /** `out` is exactly the routes at the host that have a match for each test. */
  ghost predicate Survivors(out: seq<Route>, gateways: seq<Gateway>, routes: seq<Route>, intent: Intent,
                            tests: seq<RouteMatch -> bool>) {
    forall r :: r in out <==> AtHost(r, gateways, routes, intent) && HasEach(r, tests)
  }

  lemma EmptyMeansNobody(out: seq<Route>, gateways: seq<Gateway>, routes: seq<Route>, intent: Intent, tests: seq<RouteMatch -> bool>)
    requires Survivors(out, gateways, routes, intent, tests)
    ensures out == [] <==> !SomeoneHas(gateways, routes, intent, tests)
  {
    if out != [] {
      assert out[0] in out;
    }
  }

  lemma HasOneMore(r: Route, tests: seq<RouteMatch -> bool>, test: RouteMatch -> bool)
    ensures HasEach(r, tests + [test]) <==> HasEach(r, tests) && RouteHas(r, test)
  {
    var more := tests + [test];
    assert more[|tests|] == test && forall k :: 0 <= k < |tests| ==> more[k] == tests[k];
  }

  lemma UniquePassed(out: seq<Route>, before: seq<Route>, test: RouteMatch -> bool, r: Route)
    requires UniqueRefs(before) && Passed(out, before, HasMatch(test))
    ensures r in out <==> r in before && RouteHas(r, test)
  {
    assert HasMatch(test)(r) == RouteHas(r, test);
    if r in before && RouteHas(r, test) {
      var t :| t in out && RefOf(t) == RefOf(r);
      assert t in before;
    }
  }

  /** One more filter: what is left, and that nothing is left exactly when nobody passes. */
  method NextStage(ghost gateways: seq<Gateway>, ghost routes: seq<Route>, before: seq<Route>, ghost intent: Intent,
                   ghost tests: seq<RouteMatch -> bool>, test: RouteMatch -> bool, ghost more: seq<RouteMatch -> bool>)
    returns (out: seq<Route>)
    requires UniqueRefs(routes) && Survivors(before, gateways, routes, intent, tests) && more == tests + [test]
    ensures Survivors(out, gateways, routes, intent, more)
    ensures out == [] <==> !SomeoneHas(gateways, routes, intent, more)
  {
    out := RoutesMatching(before, test);
    forall r ensures r in out <==> AtHost(r, gateways, routes, intent) && HasEach(r, more) {
      UniquePassed(out, before, test, r);
      HasOneMore(r, tests, test);
    }
    EmptyMeansNobody(out, gateways, routes, intent, more);
  }

  /** The filters of the HTTP branch, for the tests of path, method, headers and query. */
  method ExplainHTTP(ghost gateways: seq<Gateway>, ghost routes: seq<Route>, hostRoutes: seq<Route>, ghost intent: Intent,
                     path: RouteMatch -> bool, method_: RouteMatch -> bool,
                     headers: RouteMatch -> bool, query: RouteMatch -> bool)
    returns (reason: Reason)
    requires UniqueRefs(routes) && Survivors(hostRoutes, gateways, routes, intent, [])
    ensures reason == HTTPReason(gateways, routes, intent, path, method_, headers, query)
  {
    var pathRoutes := NextStage(gateways, routes, hostRoutes, intent, [], path, [path]);
    if |pathRoutes| == 0 {
      return NoPath;
    }
    var methodRoutes := NextStage(gateways, routes, pathRoutes, intent, [path], method_, [path, method_]);
    if |methodRoutes| == 0 {
      return NoMethod;
    }
    reason := ExplainFields(gateways, routes, methodRoutes, intent, [path, method_], [path, method_, headers],
                            [path, method_, headers, query], headers, query);
  }

  /** The last two filters: headers, then query parameters. */
  method ExplainFields(ghost gateways: seq<Gateway>, ghost routes: seq<Route>, methodRoutes: seq<Route>,
                       ghost intent: Intent, ghost before: seq<RouteMatch -> bool>,
                       ghost withHeaders: seq<RouteMatch -> bool>, ghost all: seq<RouteMatch -> bool>,
                       headers: RouteMatch -> bool, query: RouteMatch -> bool)
    returns (reason: Reason)
    requires UniqueRefs(routes) && Survivors(methodRoutes, gateways, routes, intent, before)
    requires withHeaders == before + [headers] && all == withHeaders + [query]
    ensures reason == (if !SomeoneHas(gateways, routes, intent, withHeaders) then NoHeaders
                       else if !SomeoneHas(gateways, routes, intent, all) then NoQuery else NoBackend)
  {
    var headerRoutes := NextStage(gateways, routes, methodRoutes, intent, before, headers, withHeaders);
    if |headerRoutes| == 0 {
      return NoHeaders;
    }
    var queryRoutes := NextStage(gateways, routes, headerRoutes, intent, withHeaders, query, all);
    if |queryRoutes| == 0 {
      return NoQuery;
    }
    return NoBackend;
  }

  lemma SomeoneIn(hostRoutes: seq<Route>, gateways: seq<Gateway>, routes: seq<Route>, intent: Intent, test: RouteMatch -> bool)
    requires Survivors(hostRoutes, gateways, routes, intent, [])
    ensures (exists r :: r in hostRoutes && RouteHas(r, test)) <==> SomeoneHas(gateways, routes, intent, [test])
  {
    if r :| r in hostRoutes && RouteHas(r, test) {
      assert [test][0] == test;
    }
    if r :| AtHost(r, gateways, routes, intent) && HasEach(r, [test]) {
      assert RouteHas(r, [test][0]) && r in hostRoutes;
    }
  }

  /** The checks of the gRPC branch. */
  method ExplainGRPC(ghost gateways: seq<Gateway>, ghost routes: seq<Route>, hostRoutes: seq<Route>, intent: Intent)
    returns (reason: Reason)
    requires Survivors(hostRoutes, gateways, routes, intent, [])
    ensures reason == (if !SomeoneHas(gateways, routes, intent, [ServiceTest(intent)]) then NoService
                       else if !SomeoneHas(gateways, routes, intent, [ServiceMethodTest(intent)]) then NoGRPCMethod
                       else if !SomeoneHas(gateways, routes, intent, [ServiceMethodHeadersTest(intent)]) then NoGRPCHeaders
                       else NoBackend)
  {
    SomeoneIn(hostRoutes, gateways, routes, intent, ServiceTest(intent));
    SomeoneIn(hostRoutes, gateways, routes, intent, ServiceMethodTest(intent));
    SomeoneIn(hostRoutes, gateways, routes, intent, ServiceMethodHeadersTest(intent));
    var service := SomeRouteHas(hostRoutes, ServiceTest(intent));
    if !service {
      return NoService;
    }
    var method_ := SomeRouteHas(hostRoutes, ServiceMethodTest(intent));
    if !method_ {
      return NoGRPCMethod;
    }
    var headers := SomeRouteHas(hostRoutes, ServiceMethodHeadersTest(intent));
    if !headers {
      return NoGRPCHeaders;
    }
    return NoBackend;
  }

  /** The listener, attachment and hostname stages. */
  method HostStage(gateways: seq<Gateway>, routes: seq<Route>, intent: Intent, listeners: seq<Candidate>)
    returns (attached: seq<Route>, hostRoutes: seq<Route>)
    requires UniqueRefs(routes) && forall c :: c in listeners <==> IsCandidate(c, gateways, intent)
    ensures forall r :: r in attached <==> AtListener(r, gateways, routes, intent)
    ensures Survivors(hostRoutes, gateways, routes, intent, [])
  {
    attached := AttachedRoutes(routes, listeners);
    var test := AttachedToAny(listeners);
    forall r ensures r in attached <==> AtListener(r, gateways, routes, intent) {
      if r in routes && test(r) {
        var t :| t in attached && RefOf(t) == RefOf(r);
        assert t in routes;
      }
      if r in attached {
        assert test(r);
        var k :| 0 <= k < |listeners| && Attached(r, listeners[k].gateway, listeners[k].listener.name);
        assert listeners[k] in listeners;
      }
    }
    hostRoutes := HostnameRoutes(attached, intent.host);
  }

  /** gatewayExplainNoTrafficMatch. */
  method Explain(gateways: seq<Gateway>, routes: seq<Route>, intent: Intent) returns (reason: Reason)
    requires UniqueRefs(routes)
    ensures TellsListener(reason, gateways, routes, intent)
    ensures TellsHTTP(reason, gateways, routes, intent)
    ensures TellsGRPC(reason, gateways, routes, intent)
    ensures reason == ReasonFor(gateways, routes, intent)
  {
    ReasonTells(gateways, routes, intent);
    reason := Search(gateways, routes, intent);
  }

  /** Its stages. */
  method Search(gateways: seq<Gateway>, routes: seq<Route>, intent: Intent) returns (reason: Reason)
    requires UniqueRefs(routes)
    ensures reason == ReasonFor(gateways, routes, intent)
  {
    if |gateways| == 0 {
      return NoGateways;
    }
    var listeners := MatchingListeners(gateways, intent);
    if |listeners| == 0 {
      var known := AnyListenerHostname(gateways, intent.host);
      return if known then ListenerHostOnly else NoListener;
    }
    assert IsCandidate(listeners[0], gateways, intent);
    var attached, hostRoutes := HostStage(gateways, routes, intent, listeners);
    if |attached| == 0 {
      return NoAttachment;
    }
    assert AtListener(attached[0], gateways, routes, intent);
    EmptyMeansNobody(hostRoutes, gateways, routes, intent, []);
    if |hostRoutes| == 0 {
      return NoHostname;
    }
    match FamilyOf(PrimaryFamily(intent)) {
      case GRPC => reason := ExplainGRPC(gateways, routes, hostRoutes, intent);
      case TLS => reason := NoBackend;
      case HTTP => reason := ExplainHTTP(gateways, routes, hostRoutes, intent, PathTest(intent), MethodTest(intent),
                                         HeadersTest(intent), QueryTest(intent));
    }
  }

  // ----- Main results ----------------------------------------------------------------------

  /** The routes handed to the search are of the family the request asks for. */
  predicate KindsAgree(routes: seq<Route>, intent: Intent) {
    forall k :: 0 <= k < |routes| ==> FamilyOf(routes[k].kind) == FamilyOf(PrimaryFamily(intent))
  }

  lemma PathDefaultKeepsFamily(intent: Intent)
    ensures PrimaryFamily(WithPath(intent)) == PrimaryFamily(intent)
  {
  }

  /** The match of a site's rule that the request satisfies. */
  lemma SatisfiedMatch(rule: RouteRule, kind: string, intent: Intent) returns (k: nat)
    requires RuleMatches(kind, rule, WithPath(intent))
    ensures k < |MatchesOf(rule)| && MatchesOf(rule)[k].Some?
    ensures FamilyOf(kind) == HTTP ==> HTTPMatch(MatchesOf(rule)[k].value, intent)
    ensures FamilyOf(kind) == GRPC ==> GRPCMatch(MatchesOf(rule)[k].value, intent)
    requires FamilyOf(kind) != TLS
  {
    if rule.matches == [] {
      k := 0;
    } else {
      var i :| 0 <= i < |rule.matches| && rule.matches[i].Some? && SingleMatch(kind, rule.matches[i].value, WithPath(intent));
      k := i;
      SameWithoutDefault(rule.matches[i].value, intent);
    }
  }

  lemma SameWithoutDefault(m: RouteMatch, intent: Intent)
    ensures HTTPMatch(m, WithPath(intent)) ==> HTTPMatch(m, intent)
    ensures GRPCMatch(m, WithPath(intent)) ==> GRPCMatch(m, intent)
  {
  }

  lemma SiteSurvives(s: Site, gateways: seq<Gateway>, routes: seq<Route>, intent: Intent)
    requires IsSite(s, gateways, routes, WithPath(intent))
    ensures IsCandidate(Candidate(s.gateway, s.listener), gateways, intent)
    ensures AtHost(s.route, gateways, routes, intent)
  {
    PathDefaultKeepsFamily(intent);
    assert ListenerMatches(s.listener, intent);
    var c := Candidate(s.gateway, s.listener);
    assert IsCandidate(c, gateways, intent) && Attached(s.route, c.gateway, c.listener.name);
  }

  lemma SiteHas(s: Site, gateways: seq<Gateway>, routes: seq<Route>, intent: Intent, tests: seq<RouteMatch -> bool>, k: nat)
    requires IsSite(s, gateways, routes, WithPath(intent))
    requires k < |MatchesOf(s.rule)| && MatchesOf(s.rule)[k].Some?
    requires forall j :: 0 <= j < |tests| ==> tests[j](MatchesOf(s.rule)[k].value)
    ensures SomeoneHas(gateways, routes, intent, tests)
  {
    SiteSurvives(s, gateways, routes, intent);
    forall j | 0 <= j < |tests| ensures RouteHas(s.route, tests[j]) {
      assert RuleHas(s.rule, tests[j]);
      assert s.route.rules[s.ruleIndex] == Some(s.rule);
    }
  }

  /** Main result: if any rule matches the request, no stage is blamed. */
  lemma NoStageIsBlamed(s: Site, gateways: seq<Gateway>, routes: seq<Route>, intent: Intent)
    requires IsSite(s, gateways, routes, WithPath(intent)) && KindsAgree(routes, intent)
    ensures ReasonFor(gateways, routes, intent) == NoBackend
  {
    SiteSurvives(s, gateways, routes, intent);
    assert AtListener(s.route, gateways, routes, intent);
    assert SomeoneHas(gateways, routes, intent, []);
    var i :| 0 <= i < |routes| && routes[i] == s.route;
    assert FamilyOf(s.route.kind) == FamilyOf(PrimaryFamily(intent));
    if FamilyOf(s.route.kind) != TLS {
      var k := SatisfiedMatch(s.rule, s.route.kind, intent);
      if FamilyOf(s.route.kind) == HTTP {
        HTTPStages(s, gateways, routes, intent, k);
      } else {
        GRPCStages(s, gateways, routes, intent, k);
      }
    }
  }

  lemma HTTPStages(s: Site, gateways: seq<Gateway>, routes: seq<Route>, intent: Intent, k: nat)
    requires IsSite(s, gateways, routes, WithPath(intent))
    requires k < |MatchesOf(s.rule)| && MatchesOf(s.rule)[k].Some? && HTTPMatch(MatchesOf(s.rule)[k].value, intent)
    ensures SomeoneHas(gateways, routes, intent, [PathTest(intent)])
    ensures SomeoneHas(gateways, routes, intent, [PathTest(intent), MethodTest(intent)])
    ensures SomeoneHas(gateways, routes, intent, [PathTest(intent), MethodTest(intent), HeadersTest(intent)])
    ensures SomeoneHas(gateways, routes, intent, [PathTest(intent), MethodTest(intent), HeadersTest(intent), QueryTest(intent)])
  {
    SiteHas(s, gateways, routes, intent, [PathTest(intent)], k);
    SiteHas(s, gateways, routes, intent, [PathTest(intent), MethodTest(intent)], k);
    SiteHas(s, gateways, routes, intent, [PathTest(intent), MethodTest(intent), HeadersTest(intent)], k);
    SiteHas(s, gateways, routes, intent, [PathTest(intent), MethodTest(intent), HeadersTest(intent), QueryTest(intent)], k);
  }

  lemma GRPCStages(s: Site, gateways: seq<Gateway>, routes: seq<Route>, intent: Intent, k: nat)
    requires IsSite(s, gateways, routes, WithPath(intent))
    requires k < |MatchesOf(s.rule)| && MatchesOf(s.rule)[k].Some? && GRPCMatch(MatchesOf(s.rule)[k].value, intent)
    ensures SomeoneHas(gateways, routes, intent, [ServiceTest(intent)])
    ensures SomeoneHas(gateways, routes, intent, [ServiceMethodTest(intent)])
    ensures SomeoneHas(gateways, routes, intent, [ServiceMethodHeadersTest(intent)])
  {
    assert ServiceMatches(MatchesOf(s.rule)[k].value, intent);
    SiteHas(s, gateways, routes, intent, [ServiceTest(intent)], k);
    SiteHas(s, gateways, routes, intent, [ServiceMethodTest(intent)], k);
    SiteHas(s, gateways, routes, intent, [ServiceMethodHeadersTest(intent)], k);
  }

  /** The same, from the finder's point of view: a blamed stage means that no rule was found. */
  lemma BlameMeansNoRule(gateways: seq<Gateway>, routes: seq<Route>, intent: Intent)
    requires KindsAgree(routes, intent) && ReasonFor(gateways, routes, intent) != NoBackend
    ensures FoundRules(gateways, routes, intent) == []
  {
    if FoundRules(gateways, routes, intent) != [] {
      var s := RouteWinners.RuleOrigin(gateways, routes, intent, FoundRules(gateways, routes, intent)[0]);
      SiteMembers(gateways, routes, intent, s);
      NoStageIsBlamed(s, gateways, routes, intent);
    }
  }

  /** References identify routes whenever names hold no slash and are unique. */
  lemma WellNamedRefsAreUnique(gateways: seq<Gateway>, routes: seq<Route>)
    requires RouteWinners.WellNamed(gateways, routes)
    ensures UniqueRefs(routes)
  {
    forall r, t | r in routes && t in routes && RefOf(r) == RefOf(t) ensures r == t {
      assert r.name in [r.namespace, r.name] && t.name in [t.namespace, t.name];
      assert r.namespace in [r.namespace, r.name] && t.namespace in [t.namespace, t.name];
      RefPieces(r.namespace, r.name);
      RefPieces(t.namespace, t.name);
      assert r.namespace != "" ==> [r.namespace, r.name][0] == r.namespace && [r.namespace, r.name][1] == r.name;
      assert t.namespace != "" ==> [t.namespace, t.name][0] == t.namespace && [t.namespace, t.name][1] == t.name;
      assert [r.name][0] == r.name && [t.name][0] == t.name;
    }
  }

  lemma RefPieces(namespace: string, name: string)
    requires '/' !in namespace && '/' !in name
    ensures Split(RefText(namespace, name), '/') == if namespace == "" then [name] else [namespace, name]
  {
    SplitOfPlain(namespace, '/');
    SplitOfPlain(name, '/');
    if namespace != "" {
      SplitAcross(namespace, name, '/');
      assert namespace + ['/'] + name == namespace + "/" + name;
    }
  }
}
