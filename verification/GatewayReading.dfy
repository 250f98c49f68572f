/** What the single-match predicates of the Gateway API model answer on requests and objects written out. */
module GatewayReading {
  import opened Text
  import opened Gateway
  import Hostnames
  import PathPrefix

  function Request(scheme: string, port: int, families: seq<string>): Intent {
    Intent(scheme, "shop.example.com", port, "", families, "/", "GET", map[], map[], "", "", (pattern, text) => false)
  }

  function Bare(port: int): Intent {
    Intent("", "shop.example.com", port, "", [], "", "", map[], map[], "", "", (pattern, text) => false)
  }

  // ----- Families --------------------------------------------------------------------------

  /** The family asked for first decides; without one, gRPC fields, then the scheme, then HTTP fields, then the port. */
  lemma FamilyExamples(intent: Intent)
    ensures intent.families != [] ==> PrimaryFamily(intent) == intent.families[0]
    ensures PrimaryFamily(Bare(80)) == "HTTPRoute" && PrimaryFamily(Bare(443)) == "TLSRoute"
    ensures PrimaryFamily(Bare(443).(scheme := "https")) == "HTTPRoute"
    ensures PrimaryFamily(Bare(443).(path := "/")) == "HTTPRoute"
    ensures PrimaryFamily(Bare(443).(method_ := "GET")) == "HTTPRoute"
    ensures PrimaryFamily(Bare(443).(scheme := "https", grpcService := "s")) == "GRPCRoute"
    ensures PrimaryFamily(Bare(80).(grpcMethod := "m")) == "GRPCRoute"
    ensures PrimaryFamily(Bare(80).(protocol := "tls")) == "TLSRoute"
    ensures PrimaryFamily(Bare(443).(protocol := "http")) == "HTTPRoute"
    ensures PrimaryFamily(Bare(443).(protocol := "auto")) == "TLSRoute"
    ensures PrimaryFamily(Bare(80).(protocol := "grpc")) == "GRPCRoute"
    ensures PrimaryFamily(Bare(443).(protocol := "tcp")) == "HTTPRoute"
  {
  }

  lemma FieldsMeanHTTP(intent: Intent)
    requires intent == Bare(443).(headers := map["a" := "b"]) || intent == Bare(443).(query := map["a" := ["b"]])
    ensures PrimaryFamily(intent) == "HTTPRoute"
  {
    assert "a" in map["a" := "b"] && "a" in map["a" := ["b"]];
  }

  lemma KindExamples()
    ensures FamilyOf("HTTPRoute") == HTTP && FamilyOf("GRPCRoute") == GRPC && FamilyOf("TLSRoute") == TLS && FamilyOf("") == HTTP
  {
  }

  // ----- Listeners -------------------------------------------------------------------------

  lemma PlainWords()
    ensures TrimSpace("http") == "http" && TrimSpace("https") == "https" && TrimSpace("") == ""
    ensures TrimSpace("HTTP") == "HTTP" && TrimSpace("HTTPS") == "HTTPS" && TrimSpace("TLS") == "TLS"
    ensures TrimSpace("HTTP2") == "HTTP2" && TrimSpace("H2C") == "H2C" && TrimSpace("TCP") == "TCP"
  {
  }

  lemma PlainCases()
    ensures ToLower("http") == "http" && ToLower("https") == "https" && ToLower("") == ""
    ensures ToUpper("HTTP") == "HTTP" && ToUpper("HTTPS") == "HTTPS" && ToUpper("TLS") == "TLS" && ToUpper("") == ""
    ensures ToUpper("HTTP2") == "HTTP2" && ToUpper("H2C") == "H2C" && ToUpper("TCP") == "TCP"
  {
  }

  lemma SchemeExamples()
    ensures SchemeMatches("http", "HTTP") && SchemeMatches("http", "HTTP2") && SchemeMatches("http", "H2C")
    ensures !SchemeMatches("http", "HTTPS") && !SchemeMatches("http", "TLS")
    ensures SchemeMatches("https", "HTTPS") && SchemeMatches("https", "TLS") && !SchemeMatches("https", "HTTP")
    ensures SchemeMatches("", "HTTP") && SchemeMatches("http", "") && !SchemeMatches("http", "TCP")
  {
    PlainWords();
    PlainCases();
  }

  /** An HTTP request needs a listener of its scheme, a gRPC request one that speaks HTTP or HTTPS, a TLS request TLS. */
  lemma ProtocolExamples()
    ensures var http := Request("http", 80, ["HTTPRoute"]);
            ProtocolMatches(http, "HTTP") && !ProtocolMatches(http, "HTTPS") && ProtocolMatches(http, "")
    ensures var grpc := Request("https", 443, ["GRPCRoute"]);
            ProtocolMatches(grpc, "HTTPS") && ProtocolMatches(grpc, "HTTP2") && ProtocolMatches(grpc, "H2C") &&
            ProtocolMatches(grpc, "HTTP") && !ProtocolMatches(grpc, "TLS")
    ensures var tls := Request("https", 443, ["TLSRoute"]);
            ProtocolMatches(tls, "TLS") && !ProtocolMatches(tls, "HTTPS") && ProtocolMatches(tls, "")
  {
    PlainWords();
    PlainCases();
    SchemeExamples();
  }

  /** Protocol, port and hostname are all required; a port that is not set on one side never stands in the way. */
  lemma ListenerReads(l: Listener, intent: Intent)
    ensures ListenerMatches(l, intent) ==> ProtocolMatches(intent, l.protocol) && Hostnames.Matches(l.hostname, intent.host)
    ensures l.port != 0 && intent.port != 0 && l.port != intent.port ==> !ListenerMatches(l, intent)
    ensures ProtocolMatches(intent, l.protocol) && Hostnames.Matches(l.hostname, intent.host) ==>
              (l.port == 0 || intent.port == 0 || l.port == intent.port ==> ListenerMatches(l, intent))
  {
  }

  // ----- Parents and hostnames -------------------------------------------------------------

  function Parent(name: string): ParentRef {
    ParentRef("", "", "", name, "")
  }

  /** A parentRef means a Gateway of the route's namespace unless it says otherwise, and all its listeners unless it
      names one. */
  lemma ParentExamples(g: Gateway)
    requires g.namespace == "edge" && g.name == "public"
    ensures ParentAttaches(Parent("public"), "edge", g, "http")
    ensures !ParentAttaches(Parent("public"), "app", g, "http") && !ParentAttaches(Parent("other"), "edge", g, "http")
    ensures ParentAttaches(Parent("public").(namespace := "edge"), "app", g, "http")
    ensures ParentAttaches(Parent("public").(kind := "Gateway", group := GROUP_NAME), "edge", g, "http")
    ensures !ParentAttaches(Parent("public").(kind := "Service"), "edge", g, "http")
    ensures !ParentAttaches(Parent("public").(group := "example.com"), "edge", g, "http")
    ensures ParentAttaches(Parent("public").(sectionName := "http"), "edge", g, "http")
    ensures !ParentAttaches(Parent("public").(sectionName := "https"), "edge", g, "http")
    ensures ParentAttaches(Parent("public").(sectionName := "https"), "edge", g, "")
    ensures GROUP_NAME == "gateway.networking.k8s.io"
  {
  }

  lemma AttachedReads(r: Route, g: Gateway, listenerName: string)
    ensures Attached(r, g, listenerName) <==>
            exists p :: Some(p) in r.parentRefs && ParentAttaches(p, r.namespace, g, listenerName)
  {
    if Attached(r, g, listenerName) {
      var i :| 0 <= i < |r.parentRefs| && r.parentRefs[i].Some? &&
        ParentAttaches(r.parentRefs[i].value, r.namespace, g, listenerName);
      assert Some(r.parentRefs[i].value) in r.parentRefs;
    }
  }

  /** A route without hostnames matches every host; otherwise one of its hostnames has to. */
  lemma HostnamesRead(r: Route, host: string)
    ensures HostnameMatches(r, host) <==>
            r.hostnames == [] || exists h :: Some(h) in r.hostnames && Hostnames.Matches(h, host)
  {
    if i :| 0 <= i < |r.hostnames| && r.hostnames[i].Some? && Hostnames.Matches(r.hostnames[i].value, host) {
      assert Some(r.hostnames[i].value) in r.hostnames;
    }
  }

  // ----- Conditions of a match -------------------------------------------------------------

  /** Exact unless the type says otherwise; an unknown type matches nothing. */
  lemma ValueExamples(intent: Intent, want: string, got: string)
    ensures (ValueMatches(intent, "", want, got) <==> want == got) && (ValueMatches(intent, "Exact", want, got) <==> want == got)
    ensures ValueMatches(intent, "RegularExpression", want, got) <==> intent.regex(want, got)
    ensures !ValueMatches(intent, "Prefix", want, got)
  {
  }

  function PathMatch(kind: string, value: string): RouteMatch {
    RouteMatch(Some(PathSpec(kind, value)), "", None, [], [])
  }

  lemma PathExamples(intent: Intent, value: string)
    requires intent.path != "" && value != ""
    ensures PathMatches(PathMatch("Exact", value), intent) <==> intent.path == value
    ensures PathMatches(PathMatch("PathPrefix", value), intent) <==> PathPrefix.Matches(value, intent.path)
    ensures PathMatches(PathMatch("", value), intent) <==> PathPrefix.Matches(value, intent.path)
    ensures PathMatches(PathMatch("RegularExpression", value), intent) <==> intent.regex(value, intent.path)
    ensures !PathMatches(PathMatch("Suffix", value), intent)
    ensures PathMatches(PathMatch("Exact", ""), intent) <==> intent.path == "/"
    ensures PathMatches(PathMatch("Exact", value), intent.(path := "")) <==> value == "/"
  {
  }

  /** Without a path condition every absolute path matches. */
  lemma NoPathCondition(m: RouteMatch, intent: Intent)
    requires m.path.None? && intent.path != ""
    ensures PathMatches(m, intent) <==> intent.path[0] == '/'
  {
    PathPrefix.MatchesIsElementPrefix("/", intent.path);
    SlashIsRoot(intent.path);
  }

  lemma SlashIsRoot(path: string)
    requires path != ""
    ensures PathPrefix.Matches("/", path) <==> path[0] == '/'
  {
    assert PathPrefix.TrimSlashes("/") == "" by {
      assert "/"[..0] == "";
    }
    assert "" + "/" == "/";
  }

  lemma MethodExamples(m: RouteMatch, intent: Intent)
    ensures m.method_ == "" ==> MethodMatches(m, intent)
    ensures m.method_ == "GET" && intent.method_ == "get" ==> MethodMatches(m, intent)
    ensures m.method_ == "GET" && intent.method_ == "PUT" ==> !MethodMatches(m, intent)
    ensures m.method_ == "GET" && intent.method_ == "" ==> !MethodMatches(m, intent)
  {
    assert TrimSpace("GET") == "GET" && TrimSpace("get") == "get" && TrimSpace("PUT") == "PUT" && TrimSpace("") == "";
    assert ToUpper("GET") == "GET" && ToUpper("get") == "GET" && ToUpper("PUT") == "PUT" && ToUpper("") == "";
  }

  /** Every header condition has to be met, by the header of that name in any case. */
  lemma HeadersRead(m: RouteMatch, intent: Intent)
    ensures HeadersMatch(m, intent) <==>
            forall f :: f in m.headers ==>
              f.Some? && ToLower(f.value.name) in intent.headers &&
              ValueMatches(intent, f.value.kind, f.value.value, intent.headers[ToLower(f.value.name)])
  {
  }

  function HeaderMatch(header: Option<FieldMatch>): RouteMatch {
    RouteMatch(None, "", None, [header], [])
  }

  lemma OneHeader(header: Option<FieldMatch>, intent: Intent)
    ensures HeadersMatch(HeaderMatch(header), intent) <==>
            header.Some? && ToLower(header.value.name) in intent.headers &&
            ValueMatches(intent, header.value.kind, header.value.value, intent.headers[ToLower(header.value.name)])
  {
    assert [header][0] == header;
  }

  lemma HeaderExamples(intent: Intent)
    requires intent.headers == map["x-env" := "prod"]
    ensures HeadersMatch(HeaderMatch(Some(FieldMatch("X-Env", "", "prod"))), intent)
    ensures !HeadersMatch(HeaderMatch(Some(FieldMatch("X-Env", "", "test"))), intent)
    ensures !HeadersMatch(HeaderMatch(Some(FieldMatch("X-Other", "", "prod"))), intent)
    ensures HeadersMatch(RouteMatch(None, "", None, [], []), intent)
    ensures !HeadersMatch(HeaderMatch(None), intent)
  {
    assert ToLower("X-Env") == "x-env" && ToLower("X-Other") == "x-other";
    assert |"x-other"| != |"x-env"|;
    OneHeader(Some(FieldMatch("X-Env", "", "prod")), intent);
    OneHeader(Some(FieldMatch("X-Env", "", "test")), intent);
    OneHeader(Some(FieldMatch("X-Other", "", "prod")), intent);
    OneHeader(None, intent);
    assert "prod"[0] != "test"[0];
  }

  /** Every query condition has to be met, by one of the values of its parameter. */
  lemma QueryRead(m: RouteMatch, intent: Intent)
    ensures QueryMatches(m, intent) <==>
            forall f :: f in m.queryParams ==>
              f.Some? && f.value.name in intent.query &&
              exists got :: got in intent.query[f.value.name] && ValueMatches(intent, f.value.kind, f.value.value, got)
  {
    forall f: FieldMatch | f.name in intent.query
      ensures ParamMatches(f, intent) <==>
              exists got :: got in intent.query[f.name] && ValueMatches(intent, f.kind, f.value, got)
    {
      if k :| 0 <= k < |intent.query[f.name]| && ValueMatches(intent, f.kind, f.value, intent.query[f.name][k]) {
        assert intent.query[f.name][k] in intent.query[f.name];
      }
    }
  }

  /** An HTTP match is met when its path, method, headers and query conditions all are. */
  lemma HTTPMatchReads(m: RouteMatch, intent: Intent)
    ensures SingleMatch("HTTPRoute", m, intent) <==>
            PathMatches(m, intent) && MethodMatches(m, intent) && HeadersMatch(m, intent) && QueryMatches(m, intent)
  {
  }

  function GRPCMatchOn(kind: string, service: string, method_: string): RouteMatch {
    RouteMatch(None, "", Some(MethodSpec(kind, service, method_)), [], [])
  }

  /** A gRPC match names a service, a method, both or neither; what it names the request has to name too. */
  lemma GRPCExamples(intent: Intent, s: string, t: string)
    requires intent.grpcService == "cart" && intent.grpcMethod == "Add" && s != "" && t != ""
    ensures SingleMatch("GRPCRoute", GRPCMatchOn("", s, ""), intent) <==> s == "cart"
    ensures SingleMatch("GRPCRoute", GRPCMatchOn("", "", t), intent) <==> t == "Add"
    ensures SingleMatch("GRPCRoute", GRPCMatchOn("Exact", s, t), intent) <==> s == "cart" && t == "Add"
    ensures SingleMatch("GRPCRoute", GRPCMatchOn("", "", ""), intent)
    ensures SingleMatch("GRPCRoute", GRPCMatchOn("RegularExpression", s, ""), intent) <==> intent.regex(s, "cart")
    ensures !SingleMatch("GRPCRoute", GRPCMatchOn("", s, ""), intent.(grpcService := ""))
    ensures !SingleMatch("GRPCRoute", GRPCMatchOn("", "", t), intent.(grpcMethod := ""))
    ensures ServiceMatches(GRPCMatchOn("", s, t), intent) <==> s == "cart"
    ensures ServiceMatches(GRPCMatchOn("", "", t), intent)
    ensures !ServiceMatches(GRPCMatchOn("", s, ""), intent.(grpcService := ""))
  {
  }

  /** A rule without matches takes every absolute HTTP path, every gRPC call and every TLS connection. */
  lemma RuleReads(rule: RouteRule, intent: Intent)
    ensures rule.matches == [] && intent.path != "" ==>
              (RuleMatches("HTTPRoute", rule, intent) <==> intent.path[0] == '/')
    ensures rule.matches == [] ==> RuleMatches("GRPCRoute", rule, intent)
    ensures RuleMatches("TLSRoute", rule, intent)
    ensures rule.matches != [] ==>
              (RuleMatches("HTTPRoute", rule, intent) <==>
               exists m :: Some(m) in rule.matches && SingleMatch("HTTPRoute", m, intent))
    ensures rule.matches != [] ==>
              (RuleMatches("GRPCRoute", rule, intent) <==>
               exists m :: Some(m) in rule.matches && SingleMatch("GRPCRoute", m, intent))
  {
    if intent.path != "" {
      SlashIsRoot(intent.path);
    }
    AnyMatchReads("HTTPRoute", rule, intent);
    AnyMatchReads("GRPCRoute", rule, intent);
  }

  lemma AnyMatchReads(kind: string, rule: RouteRule, intent: Intent)
    ensures AnyMatch(kind, rule, intent) <==> exists m :: Some(m) in rule.matches && SingleMatch(kind, m, intent)
  {
    if i :| 0 <= i < |rule.matches| && rule.matches[i].Some? && SingleMatch(kind, rule.matches[i].value, intent) {
      assert Some(rule.matches[i].value) in rule.matches;
    }
  }

  /** The path an HTTP search starts from. */
  lemma DefaultPath(intent: Intent)
    ensures "HTTPRoute" in intent.families ==> WithPath(intent).path == (if intent.path == "" then "/" else intent.path)
    ensures WithPath(intent) == intent.(path := WithPath(intent).path)
    ensures "HTTPRoute" !in intent.families ==> WithPath(intent) == intent
  {
  }
}
