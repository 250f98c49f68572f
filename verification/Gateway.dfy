/** Gateway API objects, the traffic intent, and the single-match predicates of
    internal/check/gateway.go.  List entries of the wrong shape, which the program skips, are None. */
module Gateway {
  import opened Text
  import Hostnames
  import PathPrefix

  datatype ParentRef = ParentRef(group: string, kind: string, namespace: string, name: string, sectionName: string)

  /** A header or query parameter condition. */
  datatype FieldMatch = FieldMatch(name: string, kind: string, value: string)

  datatype PathSpec = PathSpec(kind: string, value: string)

  datatype MethodSpec = MethodSpec(kind: string, service: string, method_: string)

  /** One entry of a rule's matches: `method_` for HTTP, `grpc` for gRPC. */
  datatype RouteMatch = RouteMatch(path: Option<PathSpec>, method_: string, grpc: Option<MethodSpec>,
                                   headers: seq<Option<FieldMatch>>, queryParams: seq<Option<FieldMatch>>)

  datatype BackendRef = BackendRef(group: string, kind: string, namespace: string, name: string,
                                   port: Option<int>, weight: Option<int>)

  datatype RouteRule = RouteRule(matches: seq<Option<RouteMatch>>, backendRefs: seq<Option<BackendRef>>)

  /** `created` is None for a missing creation time. */
  datatype Route = Route(kind: string, namespace: string, name: string, created: Option<int>,
                         hostnames: seq<Option<string>>, parentRefs: seq<Option<ParentRef>>,
                         rules: seq<Option<RouteRule>>)

  /** `port` is 0 when the listener has none. */
  datatype Listener = Listener(name: string, protocol: string, hostname: string, port: int)

  datatype Gateway = Gateway(namespace: string, name: string, listeners: seq<Option<Listener>>)

  /** The request, together with the regular expression engine it is judged by. */
  datatype Intent = Intent(scheme: string, host: string, port: int, protocol: string, families: seq<string>,
                           path: string, method_: string, headers: map<string, string>,
                           query: map<string, seq<string>>, grpcService: string, grpcMethod: string,
                           regex: (string, string) -> bool)

  const GROUP_NAME := "gateway.networking.k8s.io"

  /** objectRefText. */
  function RefText(namespace: string, name: string): string {
    if namespace == "" then name else namespace + "/" + name
  }

  // ----- Route families --------------------------------------------------------------------

  datatype Family = HTTP | GRPC | TLS

  function FamilyOf(kind: string): Family {
    if kind == "GRPCRoute" then GRPC else if kind == "TLSRoute" then TLS else HTTP
  }

  /** gatewayInferApplicationProtocol. */
  function InferProtocol(intent: Intent): string {
    if intent.grpcService != "" || intent.grpcMethod != "" then "grpc"
    else if intent.scheme == "http" || intent.scheme == "https" then intent.scheme
    else if intent.path != "" || intent.method_ != "" || intent.headers != map[] || intent.query != map[] then "http"
    else if intent.port == 443 then "tls"
    else "http"
  }

  /** gatewayRouteFamiliesForProtocol. */
  function FamilyForProtocol(protocol: string, intent: Intent): string {
    if protocol == "grpc" then "GRPCRoute"
    else if protocol == "tls" then "TLSRoute"
    else if protocol == "http" || protocol == "https" then "HTTPRoute"
    else if intent.grpcService != "" || intent.grpcMethod != "" then "GRPCRoute"
    else "HTTPRoute"
  }

  /** gatewayPrimaryRouteFamily. */
  function PrimaryFamily(intent: Intent): string {
    if intent.families != [] then intent.families[0]
    else
      var protocol := if intent.protocol == "" || intent.protocol == "auto" then InferProtocol(intent) else intent.protocol;
      FamilyForProtocol(protocol, intent)
  }

  /** gatewayTrafficIntentUsesHTTP. */
  predicate UsesHTTP(intent: Intent) {
    "HTTPRoute" in intent.families
  }

  /** The default both finders apply before they start. */
  function WithPath(intent: Intent): Intent {
    if UsesHTTP(intent) && intent.path == "" then intent.(path := "/") else intent
  }

  // ----- Listeners -------------------------------------------------------------------------

  /** gatewayProtocolMatches. */
  predicate SchemeMatches(scheme: string, protocol: string) {
    var s, p := ToLower(TrimSpace(scheme)), ToUpper(TrimSpace(protocol));
    if s == "" || p == "" then true
    else if s == "http" then p == "HTTP" || p == "HTTP2" || p == "H2C"
    else if s == "https" then p == "HTTPS" || p == "TLS"
    else false
  }

  /** gatewayProtocolMatchesIntent. */
  predicate ProtocolMatches(intent: Intent, protocol: string) {
    var p := ToUpper(TrimSpace(protocol));
    if p == "" then true
    else match FamilyOf(PrimaryFamily(intent))
      case GRPC => p == "HTTPS" || p == "HTTP2" || p == "H2C" || p == "HTTP"
      case TLS => p == "TLS"
      case HTTP => SchemeMatches(intent.scheme, p)
  }

  /** gatewayListenerMatchesIntent. */
  predicate ListenerMatches(l: Listener, intent: Intent) {
    && ProtocolMatches(intent, l.protocol)
    && (intent.port == 0 || l.port == 0 || intent.port == l.port)
    && Hostnames.Matches(l.hostname, intent.host)
  }

  // ----- Attachment and hostnames ----------------------------------------------------------

  /** parentKind. */
  function ParentKind(p: ParentRef): string {
    var kind := DefaultString(p.kind, "Gateway");
    if p.group != "" && p.group != GROUP_NAME then p.group + "/" + kind else kind
  }

  predicate ParentAttaches(p: ParentRef, routeNamespace: string, g: Gateway, listenerName: string) {
    && ParentKind(p) == "Gateway"
    && DefaultString(p.namespace, routeNamespace) == g.namespace && p.name == g.name
    && (p.sectionName == "" || listenerName == "" || p.sectionName == listenerName)
  }

  /** gatewayRouteAttachedToGateway. */
  predicate Attached(r: Route, g: Gateway, listenerName: string) {
    exists i :: 0 <= i < |r.parentRefs| && r.parentRefs[i].Some? &&
                ParentAttaches(r.parentRefs[i].value, r.namespace, g, listenerName)
  }

  /** gatewayHTTPRouteHostnameMatches. */
  predicate HostnameMatches(r: Route, host: string) {
    r.hostnames == [] ||
    exists i :: 0 <= i < |r.hostnames| && r.hostnames[i].Some? && Hostnames.Matches(r.hostnames[i].value, host)
  }

  // ----- Single matches --------------------------------------------------------------------

  /** gatewayHTTPRouteValueMatches. */
  predicate ValueMatches(intent: Intent, kind: string, want: string, got: string) {
    if kind == "" || kind == "Exact" then got == want
    else kind == "RegularExpression" && intent.regex(want, got)
  }

  /** gatewayHTTPRoutePathMatches. */
  predicate PathMatches(m: RouteMatch, intent: Intent) {
    var path := DefaultString(intent.path, "/");
    if m.path.None? then PathPrefix.Matches("/", path)
    else
      var value := DefaultString(m.path.value.value, "/");
      var kind := m.path.value.kind;
      if kind == "" || kind == "PathPrefix" then PathPrefix.Matches(value, path)
      else if kind == "Exact" then path == value
      else kind == "RegularExpression" && intent.regex(value, path)
  }

  /** gatewayHTTPRouteMethodMatches. */
  predicate MethodMatches(m: RouteMatch, intent: Intent) {
    var want := ToUpper(TrimSpace(m.method_));
    want == "" || want == ToUpper(TrimSpace(intent.method_))
  }

  /** gatewayHTTPRouteHeadersMatch; the intent's header names are in lower case. */
  predicate HeadersMatch(m: RouteMatch, intent: Intent) {
    forall i :: 0 <= i < |m.headers| ==>
      && m.headers[i].Some? && ToLower(m.headers[i].value.name) in intent.headers
      && ValueMatches(intent, m.headers[i].value.kind, m.headers[i].value.value,
                      intent.headers[ToLower(m.headers[i].value.name)])
  }

  predicate ParamMatches(f: FieldMatch, intent: Intent) {
    f.name in intent.query &&
    exists k :: 0 <= k < |intent.query[f.name]| && ValueMatches(intent, f.kind, f.value, intent.query[f.name][k])
  }

  /** gatewayHTTPRouteQueryParamsMatch. */
  predicate QueryMatches(m: RouteMatch, intent: Intent) {
    forall i :: 0 <= i < |m.queryParams| ==> m.queryParams[i].Some? && ParamMatches(m.queryParams[i].value, intent)
  }

  /** gatewayHTTPRouteSingleMatch. */
  predicate HTTPMatch(m: RouteMatch, intent: Intent) {
    PathMatches(m, intent) && MethodMatches(m, intent) && HeadersMatch(m, intent) && QueryMatches(m, intent)
  }

  /** gatewayGRPCServiceMatches. */
  predicate ServiceMatches(m: RouteMatch, intent: Intent) {
    if m.grpc.None? || m.grpc.value.service == "" then true
    else intent.grpcService != "" &&
         ValueMatches(intent, DefaultString(m.grpc.value.kind, "Exact"), m.grpc.value.service, intent.grpcService)
  }

  /** gatewayGRPCRouteMethodMatch: service and method. */
  predicate GRPCMethodMatches(m: RouteMatch, intent: Intent) {
    m.grpc.None? ||
    var spec := m.grpc.value;
    var kind := DefaultString(spec.kind, "Exact");
    && (spec.service != "" ==> intent.grpcService != "" && ValueMatches(intent, kind, spec.service, intent.grpcService))
    && (spec.method_ != "" ==> intent.grpcMethod != "" && ValueMatches(intent, kind, spec.method_, intent.grpcMethod))
  }

  /** gatewayGRPCRouteSingleMatch. */
  predicate GRPCMatch(m: RouteMatch, intent: Intent) {
    GRPCMethodMatches(m, intent) && HeadersMatch(m, intent)
  }

  predicate SingleMatch(kind: string, m: RouteMatch, intent: Intent) {
    match FamilyOf(kind)
    case GRPC => GRPCMatch(m, intent)
    case TLS => true
    case HTTP => HTTPMatch(m, intent)
  }

  /** gatewayRouteRuleMatches. */
  predicate RuleMatches(kind: string, rule: RouteRule, intent: Intent) {
    match FamilyOf(kind)
    case TLS => true
    case GRPC => rule.matches == [] || AnyMatch(kind, rule, intent)
    case HTTP => if rule.matches == [] then PathPrefix.Matches("/", intent.path) else AnyMatch(kind, rule, intent)
  }

  predicate AnyMatch(kind: string, rule: RouteRule, intent: Intent) {
    exists i :: 0 <= i < |rule.matches| && rule.matches[i].Some? && SingleMatch(kind, rule.matches[i].value, intent)
  }

  // ----- Backends --------------------------------------------------------------------------

  /** gatewayBackendRefWeight. */
  function Weight(b: BackendRef): int {
    if b.weight.Some? then b.weight.value else 1
  }

  /** A backendRef that carries traffic of a path: it has a name and a weight that is not zero. */
  predicate Live(b: Option<BackendRef>) {
    b.Some? && Weight(b.value) != 0 && b.value.name != ""
  }
}
