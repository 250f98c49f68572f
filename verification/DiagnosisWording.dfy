/** What the substring tests of the diagnosis classes make of the messages that KubeNetMods prints: a status
    diagnosis quotes the controller's own text, and that text may put it into a second class. */
module DiagnosisWording {
  import opened Text
  import opened Diagnoses
  import SuppressionLoops

  // ----- Substrings and fields -------------------------------------------------------------

  lemma {:induction false} ContainsInside(left: string, part: string, right: string)
    ensures Contains(left + part + right, part)
  {
    if left == "" {
      assert left + part + right == part + right;
    } else {
      ContainsInside(left[1..], part, right);
      assert (left + part + right)[1..] == left[1..] + part + right;
    }
  }

  lemma {:induction false} ContainsRight(left: string, s: string, part: string)
    requires Contains(s, part)
    ensures Contains(left + s, part)
  {
    if left == "" {
      assert left + s == s;
    } else {
      ContainsRight(left[1..], s, part);
      assert (left + s)[1..] == left[1..] + s;
    }
  }

  lemma {:induction false} WordBeforeSpace(word: string, space: char, rest: string)
    requires IsSpace(space) && forall c :: c in word ==> !IsSpace(c)
    ensures Word(word + [space] + rest) == word
  {
    if word != "" {
      WordBeforeSpace(word[1..], space, rest);
      assert (word + [space] + rest)[1..] == word[1..] + [space] + rest;
    }
  }

  lemma FieldBeforeSpace(word: string, space: char, rest: string)
    requires word != "" && IsSpace(space) && forall c :: c in word ==> !IsSpace(c)
    ensures Fields(word + [space] + rest) == [word] + Fields(rest)
  {
    var s := word + [space] + rest;
    WordBeforeSpace(word, space, rest);
    assert s[|word|..] == [space] + rest;
    assert ([space] + rest)[1..] == rest;
  }

  lemma RouteNamed(route: string, wording: string, rest: string)
    requires route != "" && forall c :: c in route ==> !IsSpace(c)
    requires wording != "" && IsSpace(wording[0])
    ensures RouteOf("HTTPRoute " + route + wording + rest) == route
  {
    var tail := route + [wording[0]] + (wording[1..] + rest);
    assert "HTTPRoute " + route + wording + rest == "HTTPRoute" + [' '] + tail by {
      assert wording == [wording[0]] + wording[1..];
    }
    FieldBeforeSpace("HTTPRoute", ' ', tail);
    FieldBeforeSpace(route, wording[0], wording[1..] + rest);
  }

  const UNRESOLVED := " has unresolved references for Gateway "

  /** The diagnosis for a ResolvedRefs condition that is False; the detail is the controller's own text. */
  function UnresolvedMessage(route: string, gateway: string, detail: string): string {
    "HTTPRoute " + route + UNRESOLVED + (gateway + ": " + detail)
  }

  /** When the controller's text speaks of a backendRef, the status diagnosis also reads as a concrete backend
      diagnosis of the same route, and so it suppresses itself. */
  lemma QuotedStatusHidesItself(route: string, gateway: string, detail: string)
    requires route != "" && forall c :: c in route ==> !IsSpace(c)
    requires Contains(detail, " backendRef ")
    ensures Suppresses(GatewayMessages().Read, UnresolvedMessage(route, gateway, detail),
                       UnresolvedMessage(route, gateway, detail))
  {
    var message := UnresolvedMessage(route, gateway, detail);
    RouteNamed(route, UNRESOLVED, gateway + ": " + detail);
    ContainsInside("HTTPRoute " + route, UNRESOLVED, gateway + ": " + detail);
    ContainsRight("HTTPRoute " + route + UNRESOLVED, gateway + ": " + detail, " backendRef ") by {
      ContainsRight(gateway + ": ", detail, " backendRef ");
    }
    StatusAndBackend(message, route);
  }

  lemma StatusAndBackend(message: string, route: string)
    requires RouteOf(message) == route && route != ""
    requires Contains(message, UNRESOLVED) && Contains(message, " backendRef ")
    ensures Suppresses(GatewayMessages().Read, message, message)
  {
    assert Worded(StatusReference, message) && Worded(ConcreteBackend, message);
    assert SuppressesAs(GatewayMessages().Read, StatusReference, message, message);
  }

  /** Two Gateways that report such a condition for a route leave nothing of the report. */
  lemma QuotedStatusesEmptyTheReport(route: string, gateways: (string, string), details: (string, string))
    requires route != "" && forall c :: c in route ==> !IsSpace(c)
    requires Contains(details.0, " backendRef ") && Contains(details.1, " backendRef ")
    ensures Dedupe(GatewayMessages().Read, [UnresolvedMessage(route, gateways.0, details.0),
                                            UnresolvedMessage(route, gateways.1, details.1)]) == []
  {
    var first := UnresolvedMessage(route, gateways.0, details.0);
    var second := UnresolvedMessage(route, gateways.1, details.1);
    QuotedStatusHidesItself(route, gateways.0, details.0);
    QuotedStatusHidesItself(route, gateways.1, details.1);
    var list := [first, second];
    assert first in list && second in list;
    SuppressionLoops.AllSuppressed(GatewayMessages().Read, list);
  }

  /** The diagnosis for a backendRef whose Service cannot be used; the detail says why. */
  function BackendMessage(route: string, rule: string, detail: string): string {
    "HTTPRoute " + route + (" rule " + rule) + (" routes to Service " + detail)
  }

  lemma BackendMessageReads(route: string, rule: string, detail: string)
    requires route != "" && forall c :: c in route ==> !IsSpace(c)
    ensures RouteOf(BackendMessage(route, rule, detail)) == route
    ensures Worded(ConcreteBackend, BackendMessage(route, rule, detail))
  {
    RouteNamed(route, " rule " + rule, " routes to Service " + detail);
    var left := "HTTPRoute " + route + (" rule " + rule);
    ContainsInside(left, " routes to Service ", detail);
    assert left + (" routes to Service " + detail) == left + " routes to Service " + detail;
  }

  /** An unresolved-references diagnosis whose controller text tells of a rejection suppresses the concrete
      diagnosis of the route as a rejection, and is suppressed by it as a status reference: nothing is left. */
  lemma QuotedRejectionEmptiesTheReport(route: string, gateway: string, detail: string, rule: string, why: string)
    requires route != "" && forall c :: c in route ==> !IsSpace(c)
    requires Contains(detail, " is not accepted by Gateway ")
    ensures var status, backend := UnresolvedMessage(route, gateway, detail), BackendMessage(route, rule, why);
            && Suppresses(GatewayMessages().Read, backend, status)
            && Suppresses(GatewayMessages().Read, status, backend)
            && Dedupe(GatewayMessages().Read, [status, backend]) == []
  {
    var status, backend := UnresolvedMessage(route, gateway, detail), BackendMessage(route, rule, why);
    StatusReads(route, gateway, detail);
    ContainsRight("HTTPRoute " + route + UNRESOLVED, gateway + ": " + detail, " is not accepted by Gateway ") by {
      ContainsRight(gateway + ": ", detail, " is not accepted by Gateway ");
    }
    BackendMessageReads(route, rule, why);
    RejectionAndBackend(status, backend, route);
  }

  lemma StatusReads(route: string, gateway: string, detail: string)
    requires route != "" && forall c :: c in route ==> !IsSpace(c)
    ensures RouteOf(UnresolvedMessage(route, gateway, detail)) == route
    ensures Contains(UnresolvedMessage(route, gateway, detail), UNRESOLVED)
  {
    RouteNamed(route, UNRESOLVED, gateway + ": " + detail);
    ContainsInside("HTTPRoute " + route, UNRESOLVED, gateway + ": " + detail);
  }

  lemma RejectionAndBackend(status: string, backend: string, route: string)
    requires RouteOf(status) == route == RouteOf(backend) && route != ""
    requires Contains(status, UNRESOLVED) && Contains(status, " is not accepted by Gateway ")
    requires Worded(ConcreteBackend, backend)
    ensures Suppresses(GatewayMessages().Read, backend, status) && Suppresses(GatewayMessages().Read, status, backend)
    ensures Dedupe(GatewayMessages().Read, [status, backend]) == []
  {
    var read := GatewayMessages().Read;
    assert Worded(StatusReference, status) && Worded(RouteRejected, status);
    assert SuppressesAs(read, StatusReference, backend, status) && SuppressesAs(read, ConcreteBackend, status, backend);
    assert status in [status, backend] && backend in [status, backend];
    SuppressionLoops.AllSuppressed(read, [status, backend]);
  }

  // ----- Messages that do not suppress themselves ------------------------------------------

  /** A character of the part that the text lacks. */
  lemma {:induction false} Scarce(s: string, part: string, c: char)
    requires c in part && c !in s
    ensures !Contains(s, part)
  {
    if s != "" {
      Scarce(s[1..], part, c);
    }
  }

  /** A character that occurs once, and is followed by another one than in the part. */
  lemma {:induction false} FollowedOtherwise(left: string, c: char, right: string, part: string, i: nat)
    requires c !in left && c !in right && i + 1 < |part| && part[i] == c
    requires right == "" || right[0] != part[i + 1]
    ensures !Contains(left + [c] + right, part)
  {
    var s := left + [c] + right;
    if left == "" {
      assert s[1..] == right;
      Scarce(right, part, c);
    } else {
      FollowedOtherwise(left[1..], c, right, part, i);
      assert s[1..] == left[1..] + [c] + right;
    }
  }

  predicate OfRoute(c: Class) {
    c in {StatusReference, ConcreteBackend, RouteRejected, NoAcceptedParent, NoParentStatus, RouteUnattached}
  }

  lemma OnlyRouteClasses(c: Class, message: string)
    requires HasPrefix(message, "HTTPRoute ") && !OfRoute(c)
    ensures GatewayMessages().Read(c, message) == None
  {
    DiffersAt("HTTPRoute ", "HTTPS request matched Gateway listener ", message, 4);
    DiffersAt("HTTPRoute ", "Gateway ", message, 0);
    DiffersAt("HTTPRoute ", "Gateway listener ", message, 0);
    DiffersAt("HTTPRoute ", "Gateway listener(s) matched ", message, 0);
    DiffersAt("HTTPRoute ", "ListenerSet ", message, 0);
    DiffersAt("HTTPRoute ", "BackendTLSPolicy ", message, 0);
  }

  lemma DiffersAt(prefix: string, other: string, message: string, i: nat)
    requires HasPrefix(message, prefix) && i < |prefix| && i < |other| && prefix[i] != other[i]
    ensures !HasPrefix(message, other)
  {
  }

  lemma ReadIsWorded(v: Vocabulary, c: Class, message: string)
    requires v.Read(c, message).Some?
    ensures v.worded(c, message)
  {
  }

  /** The pairs of a class and its suppressor that a message about a route can fall into. */
  predicate MixedRoute(worded: Class -> bool) {
    || (worded(StatusReference) && worded(ConcreteBackend))
    || (worded(ConcreteBackend) && worded(RouteRejected))
    || (worded(NoAcceptedParent) && worded(RouteRejected))
    || (worded(NoParentStatus) && worded(RouteUnattached))
  }

  lemma MixedOfRoute(worded: Class -> bool, c: Class)
    requires OfRoute(c) && Suppressor(c).Some? && worded(c) && worded(Suppressor(c).value)
    ensures MixedRoute(worded)
  {
  }

  /** A message about a route suppresses itself only when it falls into a class and into its suppressor. */
  lemma RouteSelfSuppression(message: string, worded: Class -> bool)
    requires HasPrefix(message, "HTTPRoute ") && forall c :: worded(c) == Worded(c, message)
    requires Suppresses(GatewayMessages().Read, message, message)
    ensures MixedRoute(worded)
  {
    var c :| SuppressesAs(GatewayMessages().Read, c, message, message);
    ReadIsWorded(GatewayMessages(), c, message);
    ReadIsWorded(GatewayMessages(), Suppressor(c).value, message);
    if !OfRoute(c) {
      OnlyRouteClasses(c, message);
    }
    MixedOfRoute(worded, c);
  }

  // ----- Two messages that suppress each other ---------------------------------------------

  const HEAD := "X: r is not acce"
  const TAIL := "ted by Gateway w"
  const QUOTED_REJECTION := UnresolvedMessage("a/r", "g/w", HEAD + ['p'] + TAIL)
  const LOST := "a/s, but that Service" + " is missing or unreadable."
  const MISSING_SERVICE := BackendMessage("a/r", "1", LOST)

  lemma UnresolvedLacks(route: string, gateway: string, detail: string, c: char)
    requires c !in "HTTPRoute " && c !in route && c !in UNRESOLVED && c !in gateway && c !in ": " && c !in detail
    ensures c !in UnresolvedMessage(route, gateway, detail)
  {
  }

  lemma BackendLacks(route: string, rule: string, detail: string, c: char)
    requires c !in "HTTPRoute " && c !in route && c !in " rule " && c !in rule && c !in " routes to Service " && c !in detail
    ensures c !in BackendMessage(route, rule, detail)
  {
  }

  /** The only `p` of the message is the one in the detail. */
  lemma UnresolvedFollowed(route: string, gateway: string, head: string, tail: string, part: string, i: nat)
    requires 'p' !in "HTTPRoute " && 'p' !in route && 'p' !in UNRESOLVED && 'p' !in gateway && 'p' !in ": "
    requires 'p' !in head && 'p' !in tail && (tail == "" || (i + 1 < |part| && tail[0] != part[i + 1]))
    requires i + 1 < |part| && part[i] == 'p'
    ensures !Contains(UnresolvedMessage(route, gateway, head + ['p'] + tail), part)
  {
    var left := UnresolvedMessage(route, gateway, head);
    UnresolvedLacks(route, gateway, head, 'p');
    FollowedOtherwise(left, 'p', tail, part, i);
    UnresolvedSplits(route, gateway, head, 'p', tail);
  }

  lemma UnresolvedSplits(route: string, gateway: string, head: string, c: char, tail: string)
    ensures UnresolvedMessage(route, gateway, head + [c] + tail) == UnresolvedMessage(route, gateway, head) + [c] + tail
  {
    var before, between := "HTTPRoute " + route + UNRESOLVED, gateway + ": ";
    assert between + (head + [c] + tail) == between + head + [c] + tail;
    assert before + (between + head + [c] + tail) == before + (between + head) + [c] + tail;
  }

  lemma DetailLacks()
    ensures 'k' !in HEAD + ['p'] + TAIL && 'S' !in HEAD + ['p'] + TAIL
  {
    assert 'k' !in HEAD && 'S' !in HEAD;
    assert 'k' !in TAIL && 'S' !in TAIL;
  }

  lemma QuotedRejectionLacks()
    ensures 'k' !in QUOTED_REJECTION && 'S' !in QUOTED_REJECTION
  {
    DetailLacks();
    assert 'k' !in UNRESOLVED && 'S' !in UNRESOLVED;
    UnresolvedLacks("a/r", "g/w", HEAD + ['p'] + TAIL, 'k');
    UnresolvedLacks("a/r", "g/w", HEAD + ['p'] + TAIL, 'S');
  }

  lemma LostLacks()
    ensures 'G' !in LOST && 'p' !in LOST
  {
    assert 'G' !in "a/s, but that Service" && 'p' !in "a/s, but that Service";
    assert 'G' !in " is missing or unreadable." && 'p' !in " is missing or unreadable.";
  }

  lemma MissingServiceLacks()
    ensures 'G' !in MISSING_SERVICE && 'p' !in MISSING_SERVICE
  {
    LostLacks();
    BackendLacks("a/r", "1", LOST, 'G');
    BackendLacks("a/r", "1", LOST, 'p');
  }

  lemma NoBackendWording(s: string)
    requires 'k' !in s && 'S' !in s
    ensures !Worded(ConcreteBackend, s)
  {
    Scarce(s, " routes to Service ", 'S');
    Scarce(s, " routes to backend kind ", 'k');
    Scarce(s, " backendRef ", 'k');
    Scarce(s, " backendRef with no name", 'k');
    Scarce(s, " has no backendRefs", 'k');
  }

  lemma QuotedRejectionIsNoOtherStatus()
    ensures !Worded(NoAcceptedParent, QUOTED_REJECTION)
  {
    UnresolvedFollowed("a/r", "g/w", HEAD, TAIL, " is not currently accepted by any Gateway parent", 42);
  }

  lemma QuotedRejectionHasParent()
    ensures !Worded(NoParentStatus, QUOTED_REJECTION)
  {
    UnresolvedFollowed("a/r", "g/w", HEAD, TAIL, " has no parent status", 8);
  }

  lemma NoStatusWording(s: string)
    requires 'G' !in s && 'p' !in s
    ensures !Worded(StatusReference, s) && !Worded(RouteRejected, s) && !Worded(NoParentStatus, s)
  {
    Scarce(s, UNRESOLVED, 'G');
    Scarce(s, " is not accepted by Gateway ", 'G');
    Scarce(s, " has no parent status", 'p');
  }

  lemma QuotedRejectionAlone()
    ensures !Suppresses(GatewayMessages().Read, QUOTED_REJECTION, QUOTED_REJECTION)
  {
    QuotedRejectionLacks();
    NoBackendWording(QUOTED_REJECTION);
    QuotedRejectionIsNoOtherStatus();
    QuotedRejectionHasParent();
    if Suppresses(GatewayMessages().Read, QUOTED_REJECTION, QUOTED_REJECTION) {
      RouteSelfSuppression(QUOTED_REJECTION, c => Worded(c, QUOTED_REJECTION));
    }
  }

  lemma MissingServiceAlone()
    ensures !Suppresses(GatewayMessages().Read, MISSING_SERVICE, MISSING_SERVICE)
  {
    MissingServiceLacks();
    NoStatusWording(MISSING_SERVICE);
    if Suppresses(GatewayMessages().Read, MISSING_SERVICE, MISSING_SERVICE) {
      RouteSelfSuppression(MISSING_SERVICE, c => Worded(c, MISSING_SERVICE));
    }
  }

  lemma Nested(left: string, front: string, c: char, back: string, right: string)
    ensures left + front + [c] + (back + right) == left + (front + [c] + back) + right
  {
  }

  lemma DetailTellsOfRejection()
    ensures Contains(HEAD + ['p'] + TAIL, " is not accepted by Gateway ")
  {
    var front, back := " is not acce", "ted by Gateway ";
    assert HEAD == "X: r" + front && TAIL == back + "w";
    assert " is not accepted by Gateway " == front + ['p'] + back;
    Nested("X: r", front, 'p', back, "w");
    ContainsInside("X: r", front + ['p'] + back, "w");
  }

  /** A status that quotes a rejection, and a missing Service of the same route: neither suppresses itself, and
      together they empty the report. */
  lemma TwoMessageLoop()
    ensures !Suppresses(GatewayMessages().Read, QUOTED_REJECTION, QUOTED_REJECTION)
    ensures !Suppresses(GatewayMessages().Read, MISSING_SERVICE, MISSING_SERVICE)
    ensures Dedupe(GatewayMessages().Read, [QUOTED_REJECTION, MISSING_SERVICE]) == []
  {
    QuotedRejectionAlone();
    MissingServiceAlone();
    DetailTellsOfRejection();
    QuotedRejectionEmptiesTheReport("a/r", "g/w", HEAD + ['p'] + TAIL, "1", LOST);
  }

  // ----- Which message can be kept beside another one --------------------------------------

  /** A text this short is of no class. */
  lemma ShortTextHasNoClass(c: Class, s: string)
    requires |s| <= 1
    ensures GatewayMessages().Read(c, s) == None
  {
    assert RouteOf(s) == GatewayOf(s) == ListenerGatewayOf(s) == ListenerSetOf(s) == PolicyOf(s) == "";
    assert AboutRequest(c) ==> !Worded(c, s);
    NoObjectNoClass(GatewayMessages(), c, s);
  }

  lemma NoObjectNoClass(v: Vocabulary, c: Class, s: string)
    requires v.routeOf(s) == v.gatewayOf(s) == v.listenerGatewayOf(s) == v.listenerSetOf(s) == v.policyOf(s) == ""
    requires AboutRequest(c) ==> !v.worded(c, s)
    ensures v.Read(c, s) == None
  {
  }

  /** A message can stand in a report beside a different one if and only if it does not suppress itself. */
  lemma KeptBesideAnother(m: string)
    ensures (exists list :: |list| >= 2 && Distinct(list) && m in Dedupe(GatewayMessages().Read, list)) <==>
            !Suppresses(GatewayMessages().Read, m, m)
  {
    var read := GatewayMessages().Read;
    forall list: seq<string>
      ensures |list| >= 2 && m in Dedupe(read, list) ==> !Suppresses(read, m, m)
    {
      InDedupe(read, list, m);
    }
    if !Suppresses(read, m, m) {
      var other := if m == "" then "-" else "";
      forall c: Class ensures read(c, other) == None {
        ShortTextHasNoClass(c, other);
      }
      assert Distinct([m, other]) && |[m, other]| >= 2;
      InDedupe(read, [m, other], m);
    }
  }
}
