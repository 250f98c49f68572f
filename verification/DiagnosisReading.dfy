/** Which diagnosis hides which, on the messages themselves, and the class of each message that KubeNetMods prints. */
module DiagnosisReading {
  import opened Text
  import opened Diagnoses
  import opened DiagnosisWording

  // ----- Which message hides which ---------------------------------------------------------

  ghost predicate HidesRoute(v: Vocabulary, cause: string, m: string) {
    && v.routeOf(m) != "" && v.routeOf(cause) == v.routeOf(m)
    && (|| (v.worded(ConcreteBackend, cause) && v.worded(StatusReference, m))
        || (v.worded(RouteUnattached, cause) && v.worded(NoParentStatus, m))
        || (v.worded(RouteRejected, cause) && (v.worded(NoAcceptedParent, m) || v.worded(ConcreteBackend, m))))
  }

  ghost predicate HidesListener(v: Vocabulary, cause: string, m: string) {
    || (&& v.listenerGatewayOf(m) != "" && v.gatewayOf(cause) == v.listenerGatewayOf(m)
        && v.worded(GatewayTLS, cause) && v.worded(ListenerStatus, m))
    || (&& v.listenerSetOf(m) != "" && v.listenerSetOf(cause) == v.listenerSetOf(m)
        && v.worded(SetRejected, cause) && (v.worded(SetProgrammed, m) || v.worded(SetTLSReference, m)))
  }

  ghost predicate HidesOther(v: Vocabulary, cause: string, m: string) {
    || (&& v.policyOf(m) != "" && v.policyOf(cause) == v.policyOf(m)
        && v.worded(PolicyConcrete, cause) && v.worded(PolicyStatus, m))
    || (v.worded(TrafficTLS, cause) && (v.worded(TrafficTLSStatus, m) || v.worded(TrafficUnattached, m)))
  }

  /** The pairs of classes, one by one. */
  lemma PairsRead(read: Reader, cause: string, m: string)
    ensures Suppresses(read, cause, m) <==>
            || SuppressesAs(read, StatusReference, cause, m) || SuppressesAs(read, NoParentStatus, cause, m)
            || SuppressesAs(read, NoAcceptedParent, cause, m) || SuppressesAs(read, ConcreteBackend, cause, m)
            || SuppressesAs(read, ListenerStatus, cause, m) || SuppressesAs(read, SetProgrammed, cause, m)
            || SuppressesAs(read, SetTLSReference, cause, m) || SuppressesAs(read, PolicyStatus, cause, m)
            || SuppressesAs(read, TrafficTLSStatus, cause, m) || SuppressesAs(read, TrafficUnattached, cause, m)
  {
  }

  lemma RoutePairsRead(v: Vocabulary, cause: string, m: string)
    ensures HidesRoute(v, cause, m) <==>
            || SuppressesAs(v.Read, StatusReference, cause, m) || SuppressesAs(v.Read, NoParentStatus, cause, m)
            || SuppressesAs(v.Read, NoAcceptedParent, cause, m) || SuppressesAs(v.Read, ConcreteBackend, cause, m)
  {
  }

  lemma ListenerPairsRead(v: Vocabulary, cause: string, m: string)
    ensures HidesListener(v, cause, m) <==>
            || SuppressesAs(v.Read, ListenerStatus, cause, m) || SuppressesAs(v.Read, SetProgrammed, cause, m)
            || SuppressesAs(v.Read, SetTLSReference, cause, m)
  {
  }

  lemma OtherPairsRead(v: Vocabulary, cause: string, m: string)
    ensures HidesOther(v, cause, m) <==>
            || SuppressesAs(v.Read, PolicyStatus, cause, m)
            || SuppressesAs(v.Read, TrafficTLSStatus, cause, m) || SuppressesAs(v.Read, TrafficUnattached, cause, m)
  {
  }

  ghost predicate Hides(v: Vocabulary, cause: string, m: string) {
    HidesRoute(v, cause, m) || HidesListener(v, cause, m) || HidesOther(v, cause, m)
  }

  /** Main result: a diagnosis is dropped from a report of two or more exactly when one of the report hides it: a
      concrete backend hides the status reference of its route, an unattached route its missing status, a rejected
      route its missing acceptance and its backends, a Gateway's Secret the status of its listeners, a rejected
      ListenerSet its programming and its Secrets, a concrete policy its status, and a Secret of the traced listener
      the listener's status and the missing routes. */
  lemma KeptReads(v: Vocabulary, list: seq<string>, m: string)
    ensures m in Dedupe(v.Read, list) <==>
            m in list && (|list| < 2 || forall cause :: cause in list ==> !Hides(v, cause, m))
  {
    InDedupe(v.Read, list, m);
    forall cause ensures Suppresses(v.Read, cause, m) <==> Hides(v, cause, m) {
      PairsRead(v.Read, cause, m);
      RoutePairsRead(v, cause, m);
      ListenerPairsRead(v, cause, m);
      OtherPairsRead(v, cause, m);
    }
  }

  // ----- The class of each printed message -------------------------------------------------

  predicate OneWord(s: string) {
    s != "" && forall c :: c in s ==> !IsSpace(c)
  }

  lemma SpaceFirst(wording: string, head: string, tail: string)
    requires wording == head + tail && head != "" && IsSpace(head[0])
    ensures wording != "" && IsSpace(wording[0])
  {
  }

  lemma NotAcceptedWording()
    ensures var wording := " is not currently accepted by any Gateway parent"; wording != "" && IsSpace(wording[0])
  {
    SpaceFirst(" is not currently accepted by any Gateway parent", " is not currently accepted by any Gat", "eway parent");
  }

  lemma SecretWording()
    ensures var wording := " references missing or unreadable TLS Secret "; wording != "" && IsSpace(wording[0])
  {
    SpaceFirst(" references missing or unreadable TLS Secret ", " references missing or unreadable TLS", " Secret ");
  }

  /** The same message with its two first gaps in sight. */
  lemma Gaps(kind: string, name: string, wording: string, rest: string)
    requires wording != ""
    ensures kind + " " + name + wording + rest
            == kind + [' '] + (name + [wording[0]] + (wording[1..] + rest))
  {
    assert wording == [wording[0]] + wording[1..];
  }

  lemma Starts(prefix: string, rest: string)
    ensures HasPrefix(prefix + rest, prefix)
  {
  }

  lemma BeginsWithKind(kind: string, name: string, wording: string, rest: string)
    ensures HasPrefix(kind + " " + name + wording + rest, kind + " ")
  {
    Starts(kind + " ", name + wording + rest);
    assert kind + " " + name + wording + rest == (kind + " ") + (name + wording + rest);
  }

  lemma NameIsSecond(kind: string, name: string, wording: string, rest: string)
    requires OneWord(kind) && OneWord(name) && wording != "" && IsSpace(wording[0])
    ensures SecondField(kind + " " + name + wording + rest) == name
  {
    Gaps(kind, name, wording, rest);
    FieldBeforeSpace(kind, ' ', name + [wording[0]] + (wording[1..] + rest));
    FieldBeforeSpace(name, wording[0], wording[1..] + rest);
  }

  /** The second field of a message that starts with a kind and a name. */
  lemma Named(kind: string, name: string, wording: string, rest: string)
    requires OneWord(kind) && OneWord(name) && wording != "" && IsSpace(wording[0])
    ensures SecondField(kind + " " + name + wording + rest) == name
    ensures Contains(kind + " " + name + wording + rest, wording)
    ensures HasPrefix(kind + " " + name + wording + rest, kind + " ")
  {
    NameIsSecond(kind, name, wording, rest);
    ContainsInside(kind + " " + name, wording, rest);
    BeginsWithKind(kind, name, wording, rest);
  }

  predicate RouteKind(kind: string) {
    kind == "HTTPRoute" || kind == "GRPCRoute" || kind == "TLSRoute"
  }

  /** A message about a route. */
  lemma OfTheRoute(kind: string, name: string, wording: string, rest: string)
    requires RouteKind(kind) && OneWord(name) && wording != "" && IsSpace(wording[0])
    ensures RouteOf(kind + " " + name + wording + rest) == name && Contains(kind + " " + name + wording + rest, wording)
  {
    Named(kind, name, wording, rest);
    assert "HTTPRoute" + " " == "HTTPRoute " && "GRPCRoute" + " " == "GRPCRoute " && "TLSRoute" + " " == "TLSRoute ";
  }

  lemma UnattachedMessage(kind: string, name: string)
    requires RouteKind(kind) && OneWord(name)
    ensures var m := kind + " " + name + " is not attached to any Gateway" + ", so it will not receive Gateway traffic.";
            GatewayMessages().Read(RouteUnattached, m) == Some(name)
  {
    OfTheRoute(kind, name, " is not attached to any Gateway", ", so it will not receive Gateway traffic.");
  }

  lemma NoParentMessage(kind: string, name: string)
    requires RouteKind(kind) && OneWord(name)
    ensures var m := kind + " " + name + " has no parent status" + ", so no Gateway has reported accepting it yet.";
            GatewayMessages().Read(NoParentStatus, m) == Some(name)
  {
    OfTheRoute(kind, name, " has no parent status", ", so no Gateway has reported accepting it yet.");
  }

  lemma RejectedMessage(kind: string, name: string, gatewayAndReason: string)
    requires RouteKind(kind) && OneWord(name)
    ensures GatewayMessages().Read(RouteRejected, kind + " " + name + " is not accepted by Gateway " + gatewayAndReason)
            == Some(name)
  {
    OfTheRoute(kind, name, " is not accepted by Gateway ", gatewayAndReason);
  }

  lemma NoAcceptedMessage(kind: string, name: string)
    requires RouteKind(kind) && OneWord(name)
    ensures GatewayMessages().Read(NoAcceptedParent,
              kind + " " + name + " is not currently accepted by any Gateway parent" + ".") == Some(name)
  {
    NotAcceptedWording();
    OfTheRoute(kind, name, " is not currently accepted by any Gateway parent", ".");
  }

  lemma StatusReferenceMessage(kind: string, name: string, gatewayAndReason: string)
    requires RouteKind(kind) && OneWord(name)
    ensures GatewayMessages().Read(StatusReference,
              kind + " " + name + " has unresolved references for Gateway " + gatewayAndReason) == Some(name)
  {
    OfTheRoute(kind, name, " has unresolved references for Gateway ", gatewayAndReason);
  }

  /** The wordings of a concrete backend, behind the number of the rule. */
  predicate BackendWording(wording: string) {
    || wording == " routes to Service " || wording == " routes to backend kind " || wording == " backendRef "
    || wording == " backendRef with no name" || wording == " has no backendRefs"
  }

  lemma ConcreteBackendMessage(kind: string, name: string, rule: string, wording: string, rest: string)
    requires RouteKind(kind) && OneWord(name) && BackendWording(wording)
    ensures GatewayMessages().Read(ConcreteBackend, kind + " " + name + (" rule " + rule) + (wording + rest)) == Some(name)
  {
    var m := kind + " " + name + (" rule " + rule) + (wording + rest);
    OfTheRoute(kind, name, " rule " + rule, wording + rest);
    ContainsInside(kind + " " + name + (" rule " + rule), wording, rest);
    assert m == kind + " " + name + (" rule " + rule) + wording + rest;
    BackendWorded(m, wording);
  }

  lemma BackendWorded(m: string, wording: string)
    requires BackendWording(wording) && Contains(m, wording)
    ensures Worded(ConcreteBackend, m)
  {
  }

  lemma GatewaySecretMessage(name: string, secret: string)
    requires OneWord(name)
    ensures GatewayMessages().Read(GatewayTLS,
              "Gateway" + " " + name + " references missing or unreadable TLS Secret " + secret) == Some(name)
  {
    SecretWording();
    Named("Gateway", name, " references missing or unreadable TLS Secret ", secret);
    assert "Gateway" + " " == "Gateway ";
  }

  lemma ListenerSetRejectedMessage(name: string, reason: string)
    requires OneWord(name)
    ensures GatewayMessages().Read(SetRejected, "ListenerSet" + " " + name + " is not Accepted:" + reason) == Some(name)
  {
    Named("ListenerSet", name, " is not Accepted:", reason);
    assert "ListenerSet" + " " == "ListenerSet ";
  }

  lemma ListenerSetProgrammedMessage(name: string, reason: string)
    requires OneWord(name)
    ensures GatewayMessages().Read(SetProgrammed, "ListenerSet" + " " + name + " is not Programmed:" + reason) == Some(name)
  {
    Named("ListenerSet", name, " is not Programmed:", reason);
    assert "ListenerSet" + " " == "ListenerSet ";
  }

  lemma ListenerSetSecretMessage(name: string, secret: string)
    requires OneWord(name)
    ensures GatewayMessages().Read(SetTLSReference,
              "ListenerSet" + " " + name + " references missing or unreadable TLS Secret " + secret) == Some(name)
  {
    SecretWording();
    Named("ListenerSet", name, " references missing or unreadable TLS Secret ", secret);
    assert "ListenerSet" + " " == "ListenerSet ";
  }

  predicate PolicyWording(wording: string) {
    || wording == " targets Service " || wording == " CA ConfigMap " || wording == " does not specify caCertificateRefs"
    || wording == " specifies both caCertificateRefs" || wording == " uses unrecognized wellKnownCACertificates"
  }

  lemma PolicySpaceFirst(wording: string)
    requires PolicyWording(wording)
    ensures wording != "" && IsSpace(wording[0])
  {
  }

  lemma PolicyWorded(m: string, wording: string)
    requires PolicyWording(wording) && Contains(m, wording) && HasPrefix(m, "BackendTLSPolicy ") && SecondField(m) != ""
    ensures GatewayMessages().Read(PolicyConcrete, m) == Some(SecondField(m))
  {
  }

  lemma PolicyNamed(name: string, wording: string, rest: string)
    requires OneWord(name) && wording != "" && IsSpace(wording[0])
    ensures var m := "BackendTLSPolicy" + " " + name + wording + rest;
            SecondField(m) == name && Contains(m, wording) && HasPrefix(m, "BackendTLSPolicy ")
  {
    Named("BackendTLSPolicy", name, wording, rest);
    assert "BackendTLSPolicy" + " " == "BackendTLSPolicy ";
  }

  lemma PolicyMessage(name: string, wording: string, rest: string)
    requires OneWord(name) && PolicyWording(wording)
    ensures GatewayMessages().Read(PolicyConcrete, "BackendTLSPolicy" + " " + name + wording + rest) == Some(name)
  {
    PolicySpaceFirst(wording);
    PolicyNamed(name, wording, rest);
    PolicyWorded("BackendTLSPolicy" + " " + name + wording + rest, wording);
  }

  lemma PolicyStatusMessage(name: string, condition: string, reason: string)
    requires OneWord(name) && (condition == " is not Accepted:" || condition == " is not ResolvedRefs:")
    ensures GatewayMessages().Read(PolicyStatus, "BackendTLSPolicy" + " " + name + condition + reason) == Some(name)
  {
    PolicyNamed(name, condition, reason);
  }

  // ----- Messages about listeners ----------------------------------------------------------

  lemma {:induction false} LastSlashBefore(gateway: string, listener: string)
    requires '/' !in listener
    ensures LastSlash(gateway + "/" + listener) == |gateway|
  {
    var s := gateway + "/" + listener;
    if listener != "" {
      var n := |listener| - 1;
      assert s[..|s| - 1] == gateway + "/" + listener[..n];
      LastSlashBefore(gateway, listener[..n]);
    }
  }

  lemma ListenerGaps(name: string, wording: string, rest: string)
    requires wording != ""
    ensures "Gateway listener " + name + wording + rest
            == "Gateway" + [' '] + ("listener" + [' '] + (name + [wording[0]] + (wording[1..] + rest)))
  {
    assert wording == [wording[0]] + wording[1..];
  }

  lemma NameIsThird(name: string, wording: string, rest: string)
    requires OneWord(name) && wording != "" && IsSpace(wording[0])
    ensures var fields := Fields("Gateway listener " + name + wording + rest); |fields| >= 3 && fields[2] == name
  {
    var third := name + [wording[0]] + (wording[1..] + rest);
    ListenerGaps(name, wording, rest);
    FieldBeforeSpace("Gateway", ' ', "listener" + [' '] + third);
    FieldBeforeSpace("listener", ' ', third);
    FieldBeforeSpace(name, wording[0], wording[1..] + rest);
  }

  lemma ListenerNamed(gateway: string, listener: string, wording: string, rest: string)
    requires gateway != "" && '/' !in listener && OneWord(gateway + "/" + listener) && wording != "" && IsSpace(wording[0])
    ensures ListenerGatewayOf("Gateway listener " + (gateway + "/" + listener) + wording + rest) == gateway
  {
    var name := gateway + "/" + listener;
    NameIsThird(name, wording, rest);
    LastSlashBefore(gateway, listener);
    Starts("Gateway listener ", name + wording + rest);
    assert "Gateway listener " + name + wording + rest == "Gateway listener " + (name + wording + rest);
  }

  predicate ListenerCondition(wording: string) {
    wording == " is not Programmed:" || wording == " is not ResolvedRefs:"
  }

  lemma ListenerStatusMessage(gateway: string, listener: string, condition: string, reason: string)
    requires gateway != "" && '/' !in listener && OneWord(gateway + "/" + listener) && ListenerCondition(condition)
    ensures GatewayMessages().Read(ListenerStatus,
              "Gateway listener " + (gateway + "/" + listener) + condition + reason) == Some(gateway)
  {
    ListenerNamed(gateway, listener, condition, reason);
    ContainsInside("Gateway listener " + (gateway + "/" + listener), condition, reason);
  }

  // ----- Secrets of another namespace ------------------------------------------------------

  lemma GrantWorded(m: string)
    requires Contains(m, " references TLS Secret ") && Contains(m, "does not grant that reference")
    ensures TellsMissingSecret(m)
  {
  }

  lemma GrantInside(head: string, secret: string)
    ensures TellsMissingSecret(head + " references TLS Secret " + (secret + "does not grant that reference" + "."))
  {
    var m := head + " references TLS Secret " + (secret + "does not grant that reference" + ".");
    ContainsInside(head, " references TLS Secret ", secret + "does not grant that reference" + ".");
    assert m == (head + " references TLS Secret " + secret) + "does not grant that reference" + ".";
    ContainsInside(head + " references TLS Secret " + secret, "does not grant that reference", ".");
    GrantWorded(m);
  }

  lemma GatewayGrantMessage(name: string, secret: string)
    requires OneWord(name)
    ensures GatewayMessages().Read(GatewayTLS, "Gateway" + " " + name + " references TLS Secret " +
              (secret + "does not grant that reference" + ".")) == Some(name)
  {
    Named("Gateway", name, " references TLS Secret ", secret + "does not grant that reference" + ".");
    GrantInside("Gateway" + " " + name, secret);
    assert "Gateway" + " " == "Gateway ";
  }

  lemma ListenerSetGrantMessage(name: string, secret: string)
    requires OneWord(name)
    ensures GatewayMessages().Read(SetTLSReference, "ListenerSet" + " " + name + " references TLS Secret " +
              (secret + "does not grant that reference" + ".")) == Some(name)
  {
    Named("ListenerSet", name, " references TLS Secret ", secret + "does not grant that reference" + ".");
    GrantInside("ListenerSet" + " " + name, secret);
    assert "ListenerSet" + " " == "ListenerSet ";
  }

  // ----- Messages about the traced request -------------------------------------------------

  lemma TrafficTLSWorded(m: string)
    requires HasPrefix(m, "HTTPS request matched Gateway listener ") && Contains(m, "TLS Secret ")
    requires Contains(m, "missing or unreadable") || Contains(m, "without a matching ReferenceGrant")
    ensures GatewayMessages().Read(TrafficTLS, m) == Some("")
  {
  }

  lemma MissingSecretMessage(listener: string, secret: string)
    ensures GatewayMessages().Read(TrafficTLS,
              "HTTPS request matched Gateway listener " + (listener + ", but " + "TLS Secret " +
              (secret + " is " + "missing or unreadable" + "."))) == Some("")
  {
    SecretInside("HTTPS request matched Gateway listener ", listener + ", but ", secret + " is ", "missing or unreadable");
    TrafficTLSWorded("HTTPS request matched Gateway listener " + (listener + ", but " + "TLS Secret " +
                     (secret + " is " + "missing or unreadable" + ".")));
  }

  lemma UngrantedSecretMessage(listener: string, secret: string)
    ensures GatewayMessages().Read(TrafficTLS,
              "HTTPS request matched Gateway listener " + (listener + ", but it references " + "TLS Secret " +
              (secret + " across namespaces " + "without a matching ReferenceGrant" + "."))) == Some("")
  {
    SecretInside("HTTPS request matched Gateway listener ", listener + ", but it references ", secret + " across namespaces ",
                 "without a matching ReferenceGrant");
    TrafficTLSWorded("HTTPS request matched Gateway listener " + (listener + ", but it references " + "TLS Secret " +
                     (secret + " across namespaces " + "without a matching ReferenceGrant" + ".")));
  }

  lemma SecretInside(start: string, listener: string, secret: string, wording: string)
    ensures var m := start + (listener + "TLS Secret " + (secret + wording + "."));
            HasPrefix(m, start) && Contains(m, "TLS Secret ") && Contains(m, wording)
  {
    var m := start + (listener + "TLS Secret " + (secret + wording + "."));
    Starts(start, listener + "TLS Secret " + (secret + wording + "."));
    Chained(start, listener, "TLS Secret ", secret + wording + ".");
    ContainsInside(start + listener, "TLS Secret ", secret + wording + ".");
    Chained(start + listener + "TLS Secret ", secret, wording, ".");
    ContainsInside(start + listener + "TLS Secret " + secret, wording, ".");
  }

  lemma Chained(a: string, b: string, c: string, d: string)
    ensures a + (b + c + d) == (a + b) + c + d
  {
  }

  lemma TrafficStatusMessage(listener: string, wording: string, reason: string)
    requires wording == "listener is not Programmed:" || wording == "references are not resolved:"
    ensures GatewayMessages().Read(TrafficTLSStatus,
              "HTTPS request matched Gateway listener " + (listener + wording + reason)) == Some("")
  {
    Starts("HTTPS request matched Gateway listener ", listener + wording + reason);
    Chained("HTTPS request matched Gateway listener ", listener, wording, reason);
    ContainsInside("HTTPS request matched Gateway listener " + listener, wording, reason);
  }

  lemma TrafficUnattachedMessage(intent: string)
    ensures GatewayMessages().Read(TrafficUnattached,
              "Gateway listener(s) matched " + (intent + ", " + "but no HTTPRoute attaches to them" + ".")) == Some("")
  {
    Starts("Gateway listener(s) matched ", intent + ", " + "but no HTTPRoute attaches to them" + ".");
    Chained("Gateway listener(s) matched ", intent + ", ", "but no HTTPRoute attaches to them", ".");
    ContainsInside("Gateway listener(s) matched " + (intent + ", "), "but no HTTPRoute attaches to them", ".");
  }
}
