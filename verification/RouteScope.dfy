/** The route-scope index of internal/check/gateway.go against the direct attachment predicate. */
module RouteScope {
  import opened Text
  import opened Gateway

  datatype ObjectRef = ObjectRef(namespace: string, name: string)

  /** parseGatewayObjectRef. */
  function ParseObjectRef(raw: string, defaultNamespace: string): ObjectRef {
    var text := TrimSpace(raw);
    if text == "" then ObjectRef("", "")
    else
      var parts := Split(text, '/');
      if |parts| == 2 then ObjectRef(parts[0], parts[1]) else ObjectRef(defaultNamespace, text)
  }

  /** gatewayObjectRefMatches. */
  predicate Selected(r: Route, filter: ObjectRef) {
    filter.name == "" || (r.name == filter.name && (filter.namespace == "" || r.namespace == filter.namespace))
  }

  /** gatewayRouteScope; sets and maps of true entries. */
  datatype Scope = Scope(active: bool, gateways: set<string>, allListeners: set<string>,
                         listeners: map<string, set<string>>, routes: set<string>)

  const INACTIVE := Scope(false, {}, {}, map[], {})

  function ParentKey(p: ParentRef, routeNamespace: string): string {
    DefaultString(p.namespace, routeNamespace) + "/" + p.name
  }

  /** The parentRef is recorded in the index. */
  predicate Recorded(p: Option<ParentRef>) {
    p.Some? && ParentKind(p.value) == "Gateway" && p.value.name != ""
  }

  /** A recorded parentRef of the route among the first `n` that has this key. */
  ghost predicate Points(r: Route, n: nat, key: string)
    requires n <= |r.parentRefs|
  {
    exists i :: 0 <= i < n && Recorded(r.parentRefs[i]) && ParentKey(r.parentRefs[i].value, r.namespace) == key
  }

  /** ... and this section name. */
  ghost predicate PointsAt(r: Route, n: nat, key: string, section: string)
    requires n <= |r.parentRefs|
  {
    exists i :: 0 <= i < n && Recorded(r.parentRefs[i]) && ParentKey(r.parentRefs[i].value, r.namespace) == key &&
                r.parentRefs[i].value.sectionName == section
  }

  predicate InListeners(scope: Scope, key: string, section: string) {
    key in scope.listeners && section in scope.listeners[key]
  }

  /** What a route's first `n` parentRefs add to the index. */
  ghost predicate Adds(before: Scope, after: Scope, r: Route, n: nat)
    requires n <= |r.parentRefs|
  {
    && after.active == before.active
    && (forall key :: key in after.gateways <==> key in before.gateways || Points(r, n, key))
    && (forall key :: key in after.allListeners <==> key in before.allListeners || PointsAt(r, n, key, ""))
    && (forall key, section :: InListeners(after, key, section) <==>
          InListeners(before, key, section) || (section != "" && PointsAt(r, n, key, section)))
  }

  /** The parentRefs loop of addRoutes. */
  method AddParents(r: Route, before: Scope) returns (scope: Scope)
    ensures Adds(before, scope, r, |r.parentRefs|)
    ensures scope.routes == before.routes
  {
    scope := before;
    for n := 0 to |r.parentRefs|
      invariant Adds(before, scope, r, n) && scope.routes == before.routes
    {
      var raw := r.parentRefs[n];
      if raw.None? || ParentKind(raw.value) != "Gateway" {
        continue;
      }
      var parent := raw.value;
      if parent.name == "" {
        continue;
      }
      var gatewayKey := DefaultString(parent.namespace, r.namespace) + "/" + parent.name;
      ghost var prior := scope;
      scope := scope.(gateways := scope.gateways + {gatewayKey});
      if parent.sectionName == "" {
        scope := scope.(allListeners := scope.allListeners + {gatewayKey});
      } else {
        var sections := if gatewayKey in scope.listeners then scope.listeners[gatewayKey] else {};
        scope := scope.(listeners := scope.listeners[gatewayKey := sections + {parent.sectionName}]);
      }
      SectionAdded(prior, scope, gatewayKey, parent.sectionName);
      OneMoreParent(before, prior, scope, r, n, gatewayKey, parent.sectionName);
    }
  }

  lemma SectionAdded(prior: Scope, after: Scope, key: string, section: string)
    requires after.listeners == if section == "" then prior.listeners else
      prior.listeners[key := (if key in prior.listeners then prior.listeners[key] else {}) + {section}]
    ensures forall k, s :: InListeners(after, k, s) <==> InListeners(prior, k, s) || (section != "" && k == key && s == section)
  {
  }

  lemma OneMoreParent(before: Scope, prior: Scope, after: Scope, r: Route, n: nat, key: string, section: string)
    requires n < |r.parentRefs| && Adds(before, prior, r, n)
    requires Recorded(r.parentRefs[n]) && ParentKey(r.parentRefs[n].value, r.namespace) == key
    requires r.parentRefs[n].value.sectionName == section
    requires after.active == prior.active && after.gateways == prior.gateways + {key}
    requires after.allListeners == if section == "" then prior.allListeners + {key} else prior.allListeners
    requires forall k, s :: InListeners(after, k, s) <==> InListeners(prior, k, s) || (section != "" && k == key && s == section)
    ensures Adds(before, after, r, n + 1)
  {
    forall k ensures Points(r, n + 1, k) <==> Points(r, n, k) || k == key {
    }
    forall k, s ensures PointsAt(r, n + 1, k, s) <==> PointsAt(r, n, k, s) || (k == key && s == section) {
    }
  }

  // ----- Over the selected routes ----------------------------------------------------------

  ghost predicate SomePoints(routes: seq<Route>, filter: ObjectRef, key: string) {
    exists r :: r in routes && Selected(r, filter) && Points(r, |r.parentRefs|, key)
  }

  ghost predicate SomePointsAt(routes: seq<Route>, filter: ObjectRef, key: string, section: string) {
    exists r :: r in routes && Selected(r, filter) && PointsAt(r, |r.parentRefs|, key, section)
  }

  /** The index holds what the selected routes record, and nothing else. */
  ghost predicate Indexes(scope: Scope, routes: seq<Route>, filter: ObjectRef) {
    && (forall key :: key in scope.gateways <==> SomePoints(routes, filter, key))
    && (forall key :: key in scope.allListeners <==> SomePointsAt(routes, filter, key, ""))
    && (forall key, section :: InListeners(scope, key, section) <==> section != "" && SomePointsAt(routes, filter, key, section))
  }

  function RouteKey(kind: string, r: Route): string {
    kind + "/" + r.namespace + "/" + r.name
  }

  lemma OneMoreRoute(before: Scope, after: Scope, done: seq<Route>, r: Route, filter: ObjectRef)
    requires Indexes(before, done, filter)
    requires if Selected(r, filter) then Adds(before, after, r, |r.parentRefs|) else
             after.gateways == before.gateways && after.allListeners == before.allListeners && after.listeners == before.listeners
    ensures Indexes(after, done + [r], filter)
  {
    assert forall t :: t in done + [r] <==> t in done || t == r;
    forall key ensures SomePoints(done + [r], filter, key) <==>
                       SomePoints(done, filter, key) || (Selected(r, filter) && Points(r, |r.parentRefs|, key)) {
    }
    forall key, section ensures SomePointsAt(done + [r], filter, key, section) <==>
                                SomePointsAt(done, filter, key, section) ||
                                (Selected(r, filter) && PointsAt(r, |r.parentRefs|, key, section)) {
    }
    forall key, section ensures InListeners(after, key, section) <==>
                                section != "" && SomePointsAt(done + [r], filter, key, section) {
      if !Selected(r, filter) {
        assert InListeners(after, key, section) <==> InListeners(before, key, section);
      }
    }
  }

  /** The keys of the selected routes. */
  function SelectedKeys(kind: string, routes: seq<Route>, filter: ObjectRef): set<string> {
    set r | r in routes && Selected(r, filter) :: RouteKey(kind, r)
  }

  /** addRoutes. */
  method AddRoutes(kind: string, routes: seq<Route>, filter: ObjectRef, before: Scope, ghost done: seq<Route>)
    returns (scope: Scope)
    requires Indexes(before, done, filter)
    ensures Indexes(scope, done + routes, filter) && scope.active == before.active
    ensures scope.routes == before.routes + SelectedKeys(kind, routes, filter)
  {
    scope := before;
    assert done + routes[..0] == done;
    for k := 0 to |routes|
      invariant Indexes(scope, done + routes[..k], filter) && scope.active == before.active
      invariant scope.routes == before.routes + SelectedKeys(kind, routes[..k], filter)
    {
      var r := routes[k];
      assert routes[..k + 1] == routes[..k] + [r];
      assert done + routes[..k + 1] == (done + routes[..k]) + [r];
      ghost var prior := scope;
      if Selected(r, filter) {
        scope := scope.(routes := scope.routes + {RouteKey(kind, r)});
        scope := AddParents(r, scope);
      }
      OneMoreRoute(prior, scope, done + routes[..k], r, filter);
    }
    assert routes[..|routes|] == routes;
  }

  /** gatewayRouteScopeForRouteFilter, for the gateway part of the index. */
  method RouteScopeForFilter(httpRoutes: seq<Route>, grpcRoutes: seq<Route>, tlsRoutes: seq<Route>, tcpRoutes: seq<Route>,
                             udpRoutes: seq<Route>, routeRef: string, namespace: string) returns (scope: Scope)
    ensures scope.active <==> routeRef != ""
    ensures scope.active ==> Indexes(scope, httpRoutes + grpcRoutes + tlsRoutes + tcpRoutes + udpRoutes,
                                     ParseObjectRef(routeRef, namespace))
    ensures var filter := ParseObjectRef(routeRef, namespace);
            scope.active ==> (
              scope.routes == SelectedKeys("HTTPRoute", httpRoutes, filter) + SelectedKeys("GRPCRoute", grpcRoutes, filter) +
                              SelectedKeys("TLSRoute", tlsRoutes, filter) + SelectedKeys("TCPRoute", tcpRoutes, filter) +
                              SelectedKeys("UDPRoute", udpRoutes, filter))
  {
    if routeRef == "" {
      return INACTIVE;
    }
    var filter := ParseObjectRef(routeRef, namespace);
    scope := INACTIVE.(active := true);
    scope := AddRoutes("HTTPRoute", httpRoutes, filter, scope, []);
    assert [] + httpRoutes == httpRoutes;
    scope := AddRoutes("GRPCRoute", grpcRoutes, filter, scope, httpRoutes);
    scope := AddRoutes("TLSRoute", tlsRoutes, filter, scope, httpRoutes + grpcRoutes);
    scope := AddRoutes("TCPRoute", tcpRoutes, filter, scope, httpRoutes + grpcRoutes + tlsRoutes);
    scope := AddRoutes("UDPRoute", udpRoutes, filter, scope, httpRoutes + grpcRoutes + tlsRoutes + tcpRoutes);
  }

  // ----- Reading the index -----------------------------------------------------------------

  /** listenerFilter; None is Go's nil, which also stands for a gateway that is not in the map. */
  function ListenerFilter(scope: Scope, gateway: string): Option<set<string>> {
    if !scope.active || gateway in scope.allListeners then None
    else if gateway in scope.listeners then Some(scope.listeners[gateway])
    else None
  }

  /** scanGateways and scanGatewayListeners look at this listener. */
  predicate Scanned(scope: Scope, g: Gateway, listenerName: string) {
    var key := RefText(g.namespace, g.name);
    && (scope.active ==> key in scope.gateways)
    && (ListenerFilter(scope, key).Some? ==> listenerName in ListenerFilter(scope, key).value)
  }

  /** The parentRef attaches, and for an unnamed listener it does so without naming a section. */
  predicate AttachesBySection(p: ParentRef, routeNamespace: string, g: Gateway, listenerName: string) {
    ParentAttaches(p, routeNamespace, g, listenerName) && (p.sectionName == "" || p.sectionName == listenerName)
  }

  predicate AttachedBySection(r: Route, g: Gateway, listenerName: string) {
    exists i :: 0 <= i < |r.parentRefs| && r.parentRefs[i].Some? &&
                AttachesBySection(r.parentRefs[i].value, r.namespace, g, listenerName)
  }

  predicate PlainName(g: Gateway) {
    g.namespace != "" && g.name != "" && '/' !in g.namespace && '/' !in g.name
  }

  /** A recorded key is the gateway's reference exactly when namespace and name agree. */
  lemma KeyNamesGateway(p: ParentRef, routeNamespace: string, g: Gateway)
    requires PlainName(g)
    ensures ParentKey(p, routeNamespace) == RefText(g.namespace, g.name) <==>
            DefaultString(p.namespace, routeNamespace) == g.namespace && p.name == g.name
  {
    var namespace := DefaultString(p.namespace, routeNamespace);
    if ParentKey(p, routeNamespace) == RefText(g.namespace, g.name) {
      assert namespace + ['/'] + p.name == namespace + "/" + p.name;
      assert g.namespace + ['/'] + g.name == g.namespace + "/" + g.name;
      SplitAcross(namespace, p.name, '/');
      SplitAcross(g.namespace, g.name, '/');
      SplitOfPlain(g.namespace, '/');
      SplitOfPlain(g.name, '/');
      TwoSingles(Split(namespace, '/'), Split(p.name, '/'), g.namespace, g.name);
      JoinSplit(namespace, '/');
      JoinSplit(p.name, '/');
    }
  }

  lemma TwoSingles(a: seq<string>, b: seq<string>, x: string, y: string)
    requires |a| >= 1 && |b| >= 1 && a + b == [x] + [y]
    ensures a == [x] && b == [y]
  {
    assert |a + b| == 2;
    assert (a + b)[0] == a[0] && (a + b)[1] == b[0];
  }

  lemma PointsIffAttaches(r: Route, g: Gateway, section: string)
    requires PlainName(g)
    ensures PointsAt(r, |r.parentRefs|, RefText(g.namespace, g.name), section) <==>
            exists i :: 0 <= i < |r.parentRefs| && r.parentRefs[i].Some? && r.parentRefs[i].value.sectionName == section &&
                        ParentAttaches(r.parentRefs[i].value, r.namespace, g, section)
  {
    forall i | 0 <= i < |r.parentRefs| && r.parentRefs[i].Some?
      ensures ParentKey(r.parentRefs[i].value, r.namespace) == RefText(g.namespace, g.name) <==>
              DefaultString(r.parentRefs[i].value.namespace, r.namespace) == g.namespace && r.parentRefs[i].value.name == g.name
    {
      KeyNamesGateway(r.parentRefs[i].value, r.namespace, g);
    }
  }

  lemma AttachedIffPoints(r: Route, g: Gateway, listenerName: string)
    requires PlainName(g)
    ensures var key := RefText(g.namespace, g.name);
            AttachedBySection(r, g, listenerName) <==>
            PointsAt(r, |r.parentRefs|, key, "") || PointsAt(r, |r.parentRefs|, key, listenerName)
  {
    PointsIffAttaches(r, g, "");
    PointsIffAttaches(r, g, listenerName);
    var key := RefText(g.namespace, g.name);
    if AttachedBySection(r, g, listenerName) {
      var i :| 0 <= i < |r.parentRefs| && r.parentRefs[i].Some? &&
               AttachesBySection(r.parentRefs[i].value, r.namespace, g, listenerName);
      var section := r.parentRefs[i].value.sectionName;
      assert ParentAttaches(r.parentRefs[i].value, r.namespace, g, section);
    }
  }

  /** Main result: an active index scans a listener exactly when some selected route attaches to it
      (for an unnamed listener: attaches without naming a section). */
  lemma ScannedIffAttachedBySection(scope: Scope, routes: seq<Route>, filter: ObjectRef, g: Gateway, listenerName: string)
    requires scope.active && Indexes(scope, routes, filter) && PlainName(g)
    ensures Scanned(scope, g, listenerName) <==>
            exists r :: r in routes && Selected(r, filter) && AttachedBySection(r, g, listenerName)
  {
    var key := RefText(g.namespace, g.name);
    assert InListeners(scope, key, listenerName) <==> listenerName != "" && SomePointsAt(routes, filter, key, listenerName);
    if r :| r in routes && Selected(r, filter) && AttachedBySection(r, g, listenerName) {
      AttachedIffPoints(r, g, listenerName);
      PointsAtPoints(r, key, "");
      PointsAtPoints(r, key, listenerName);
      assert SomePoints(routes, filter, key);
    }
    if Scanned(scope, g, listenerName) {
      ScannedHasRoute(scope, routes, filter, g, listenerName);
    }
  }

  lemma PointsAtPoints(r: Route, key: string, section: string)
    ensures PointsAt(r, |r.parentRefs|, key, section) ==> Points(r, |r.parentRefs|, key)
  {
  }

  lemma PointsSomewhere(r: Route, key: string) returns (section: string)
    requires Points(r, |r.parentRefs|, key)
    ensures PointsAt(r, |r.parentRefs|, key, section)
  {
    var i :| 0 <= i < |r.parentRefs| && Recorded(r.parentRefs[i]) && ParentKey(r.parentRefs[i].value, r.namespace) == key;
    section := r.parentRefs[i].value.sectionName;
  }

  lemma ScannedHasRoute(scope: Scope, routes: seq<Route>, filter: ObjectRef, g: Gateway, listenerName: string)
    requires scope.active && Indexes(scope, routes, filter) && PlainName(g) && Scanned(scope, g, listenerName)
    ensures exists r :: r in routes && Selected(r, filter) && AttachedBySection(r, g, listenerName)
  {
    var key := RefText(g.namespace, g.name);
    var section := "";
    if key !in scope.allListeners {
      var r :| r in routes && Selected(r, filter) && Points(r, |r.parentRefs|, key);
      var other := PointsSomewhere(r, key);
      assert SomePointsAt(routes, filter, key, other);
      assert InListeners(scope, key, other);
      assert InListeners(scope, key, listenerName);
      section := listenerName;
    }
    assert SomePointsAt(routes, filter, key, section);
    var r :| r in routes && Selected(r, filter) && PointsAt(r, |r.parentRefs|, key, section);
    AttachedIffPoints(r, g, listenerName);
  }

  /** Main result for named listeners: the index agrees with gatewayRouteAttachedToGateway. */
  lemma ScannedIffAttached(scope: Scope, routes: seq<Route>, filter: ObjectRef, g: Gateway, listenerName: string)
    requires scope.active && Indexes(scope, routes, filter) && PlainName(g) && listenerName != ""
    ensures Scanned(scope, g, listenerName) <==>
            exists r :: r in routes && Selected(r, filter) && Attached(r, g, listenerName)
  {
    ScannedIffAttachedBySection(scope, routes, filter, g, listenerName);
    forall r ensures Attached(r, g, listenerName) <==> AttachedBySection(r, g, listenerName) {
      if Attached(r, g, listenerName) {
        var i :| 0 <= i < |r.parentRefs| && r.parentRefs[i].Some? &&
                 ParentAttaches(r.parentRefs[i].value, r.namespace, g, listenerName);
        assert AttachesBySection(r.parentRefs[i].value, r.namespace, g, listenerName);
      }
    }
  }

  /** Without a route filter every listener is scanned. */
  lemma InactiveScansAll(g: Gateway, listenerName: string)
    ensures Scanned(INACTIVE, g, listenerName)
  {
  }

  // ----- The route filter ------------------------------------------------------------------

  /** A filter `namespace/name` selects that route. */
  lemma QualifiedFilterReads(r: Route, namespace: string, name: string, default_: string)
    requires '/' !in namespace && '/' !in name && PlainText(namespace) && PlainText(name)
    ensures Selected(r, ParseObjectRef(namespace + "/" + name, default_)) <==> r.namespace == namespace && r.name == name
  {
    assert namespace + "/" + name == namespace + ['/'] + name;
    SplitAcross(namespace, name, '/');
    SplitOfPlain(namespace, '/');
    SplitOfPlain(name, '/');
    PlainStays(namespace + "/" + name);
  }

  /** A bare name selects the route in the given namespace, or in any when none is given. */
  lemma BareFilterReads(r: Route, name: string, default_: string)
    requires '/' !in name && PlainText(name)
    ensures Selected(r, ParseObjectRef(name, default_)) <==> r.name == name && (default_ == "" || r.namespace == default_)
  {
    SplitOfPlain(name, '/');
    PlainStays(name);
  }

  predicate PlainText(s: string) {
    s != "" && !IsSpace(s[0]) && !IsSpace(s[|s| - 1])
  }

  lemma PlainStays(s: string)
    requires PlainText(s)
    ensures TrimSpace(s) == s
  {
  }

  /** The key of a selected route. */
  lemma RouteKeyReads(r: Route)
    ensures RouteKey("HTTPRoute", r) == "HTTPRoute" + "/" + r.namespace + "/" + r.name
  {
  }
}
