/** Suppression of secondary diagnoses, internal/check/gateway.go: a diagnosis that only restates the effect of
    another one of the same object is dropped from the report. */
module Diagnoses {
  import opened Text
  import Sorting

  // ----- Reading a message -----------------------------------------------------------------

  predicate Contains(s: string, part: string) {
    HasPrefix(s, part) || (s != "" && Contains(s[1..], part))
  }

  /** The characters up to the first space. */
  function Word(s: string): string {
    if s == "" || IsSpace(s[0]) then "" else [s[0]] + Word(s[1..])
  }

  lemma {:induction false} WordLength(s: string)
    ensures |Word(s)| <= |s|
  {
    if s != "" && !IsSpace(s[0]) {
      WordLength(s[1..]);
    }
  }

  /** strings.Fields. */
  function Fields(s: string): seq<string>
    decreases |s|
  {
    if s == "" then []
    else if IsSpace(s[0]) then Fields(s[1..])
    else
      WordLength(s);
      [Word(s)] + Fields(s[|Word(s)|..])
  }

  /** strings.LastIndex for a slash; -1 when there is none. */
  function LastSlash(s: string): int {
    if s == "" then -1 else if s[|s| - 1] == '/' then |s| - 1 else LastSlash(s[..|s| - 1])
  }

  lemma {:induction false} LastSlashRange(s: string)
    ensures -1 <= LastSlash(s) < |s|
  {
    if s != "" && s[|s| - 1] != '/' {
      LastSlashRange(s[..|s| - 1]);
    }
  }

  function SecondField(message: string): string {
    if |Fields(message)| < 2 then "" else Fields(message)[1]
  }

  predicate NamesRoute(message: string) {
    HasPrefix(message, "HTTPRoute ") || HasPrefix(message, "GRPCRoute ") || HasPrefix(message, "TLSRoute ")
  }

  function RouteOf(message: string): string {
    if NamesRoute(message) then SecondField(message) else ""
  }

  function ListenerSetOf(message: string): string {
    if HasPrefix(message, "ListenerSet ") then SecondField(message) else ""
  }

  function PolicyOf(message: string): string {
    if HasPrefix(message, "BackendTLSPolicy ") then SecondField(message) else ""
  }

  function GatewayOf(message: string): string {
    if HasPrefix(message, "Gateway ") then SecondField(message) else ""
  }

  /** The Gateway of a listener written as namespace/gateway/listener. */
  function ListenerGatewayOf(message: string): string {
    if !HasPrefix(message, "Gateway listener ") || |Fields(message)| < 3 then ""
    else
      var listener := Fields(message)[2];
      LastSlashRange(listener);
      if LastSlash(listener) <= 0 then "" else listener[..LastSlash(listener)]
  }

  predicate TellsMissingSecret(message: string) {
    || Contains(message, " references missing or unreadable TLS Secret ")
    || (Contains(message, " references TLS Secret ") && Contains(message, "does not grant that reference"))
  }

  // ----- Classes ---------------------------------------------------------------------------

  datatype Class =
    | StatusReference | ConcreteBackend | RouteRejected | NoAcceptedParent | NoParentStatus | RouteUnattached
    | GatewayTLS | ListenerStatus
    | SetRejected | SetProgrammed | SetTLSReference
    | PolicyConcrete | PolicyStatus
    | TrafficTLS | TrafficTLSStatus | TrafficUnattached

  /** The wording by which the class is recognised. */
  predicate Worded(c: Class, message: string) {
    match c
    case StatusReference => Contains(message, " has unresolved references for Gateway ")
    case ConcreteBackend =>
      || Contains(message, " routes to Service ")
      || Contains(message, " routes to backend kind ")
      || Contains(message, " backendRef ")
      || Contains(message, " backendRef with no name")
      || Contains(message, " has no backendRefs")
    case RouteRejected => Contains(message, " is not accepted by Gateway ")
    case NoAcceptedParent => Contains(message, " is not currently accepted by any Gateway parent")
    case NoParentStatus => Contains(message, " has no parent status")
    case RouteUnattached => Contains(message, " is not attached to any Gateway")
    case GatewayTLS => TellsMissingSecret(message)
    case ListenerStatus =>
      && HasPrefix(message, "Gateway listener ")
      && (Contains(message, " is not Programmed:") || Contains(message, " is not ResolvedRefs:"))
    case SetRejected => HasPrefix(message, "ListenerSet ") && Contains(message, " is not Accepted:")
    case SetProgrammed => HasPrefix(message, "ListenerSet ") && Contains(message, " is not Programmed:")
    case SetTLSReference => HasPrefix(message, "ListenerSet ") && TellsMissingSecret(message)
    case PolicyConcrete =>
      && HasPrefix(message, "BackendTLSPolicy ")
      && (|| Contains(message, " targets Service ")
          || Contains(message, " CA ConfigMap ")
          || Contains(message, " does not specify caCertificateRefs")
          || Contains(message, " specifies both caCertificateRefs")
          || Contains(message, " uses unrecognized wellKnownCACertificates"))
    case PolicyStatus =>
      && HasPrefix(message, "BackendTLSPolicy ")
      && (Contains(message, " is not Accepted:") || Contains(message, " is not ResolvedRefs:"))
    case TrafficTLS =>
      && HasPrefix(message, "HTTPS request matched Gateway listener ")
      && Contains(message, "TLS Secret ")
      && (Contains(message, "missing or unreadable") || Contains(message, "without a matching ReferenceGrant"))
    case TrafficTLSStatus =>
      && HasPrefix(message, "HTTPS request matched Gateway listener ")
      && (Contains(message, "listener is not Programmed:") || Contains(message, "references are not resolved:"))
    case TrafficUnattached =>
      && HasPrefix(message, "Gateway listener(s) matched ")
      && Contains(message, "but no HTTPRoute attaches to them")
  }

  predicate AboutRequest(c: Class) {
    c.TrafficTLS? || c.TrafficTLSStatus? || c.TrafficUnattached?
  }

  /** How messages are read: the object they are about, by kind, and the wording of the classes. */
  datatype Vocabulary = Vocabulary(routeOf: string -> string, gatewayOf: string -> string,
                                   listenerGatewayOf: string -> string, listenerSetOf: string -> string,
                                   policyOf: string -> string, worded: (Class, string) -> bool)
  {
    /** The object a message of the class is about; "" for the classes about the traced request. */
    function ObjectOf(c: Class, message: string): string {
      match c
      case StatusReference | ConcreteBackend | RouteRejected | NoAcceptedParent | NoParentStatus | RouteUnattached =>
        routeOf(message)
      case GatewayTLS => gatewayOf(message)
      case ListenerStatus => listenerGatewayOf(message)
      case SetRejected | SetProgrammed | SetTLSReference => listenerSetOf(message)
      case PolicyConcrete | PolicyStatus => policyOf(message)
      case TrafficTLS | TrafficTLSStatus | TrafficUnattached => ""
    }

    /** The object of a message of the class; None for a message that is not of the class. */
    function Read(c: Class, message: string): Option<string> {
      if (AboutRequest(c) || ObjectOf(c, message) != "") && worded(c, message) then Some(ObjectOf(c, message))
      else None
    }
  }

  /** The vocabulary of the Gateway API scan. */
  function GatewayMessages(): Vocabulary {
    Vocabulary(RouteOf, GatewayOf, ListenerGatewayOf, ListenerSetOf, PolicyOf, Worded)
  }

  // ----- Suppression -----------------------------------------------------------------------

  type Reader = (Class, string) -> Option<string>

  /** The class that makes a class redundant, for the same object. */
  function Suppressor(c: Class): Option<Class> {
    match c
    case StatusReference => Some(ConcreteBackend)
    case ConcreteBackend => Some(RouteRejected)
    case NoAcceptedParent => Some(RouteRejected)
    case NoParentStatus => Some(RouteUnattached)
    case ListenerStatus => Some(GatewayTLS)
    case SetProgrammed => Some(SetRejected)
    case SetTLSReference => Some(SetRejected)
    case PolicyStatus => Some(PolicyConcrete)
    case TrafficTLSStatus => Some(TrafficTLS)
    case TrafficUnattached => Some(TrafficTLS)
    case _ => None
  }

  /** `cause` makes `m` redundant through class `c` of `m`. */
  predicate SuppressesAs(read: Reader, c: Class, cause: string, m: string) {
    && Suppressor(c).Some?
    && read(c, m).Some?
    && read(Suppressor(c).value, cause) == read(c, m)
  }

  ghost predicate Suppresses(read: Reader, cause: string, m: string) {
    exists c: Class :: SuppressesAs(read, c, cause, m)
  }

  ghost predicate Suppressed(read: Reader, list: seq<string>, m: string) {
    exists cause :: cause in list && Suppresses(read, cause, m)
  }

  ghost function Dedupe(read: Reader, list: seq<string>): seq<string> {
    if |list| < 2 then list else Sorting.Filter(m => !Suppressed(read, list, m), list)
  }

  ghost predicate Distinct(list: seq<string>) {
    forall i, j :: 0 <= i < j < |list| ==> list[i] != list[j]
  }

  lemma InDedupe(read: Reader, list: seq<string>, m: string)
    ensures m in Dedupe(read, list) <==> m in list && (|list| < 2 || !Suppressed(read, list, m))
  {
    Sorting.FilterMembers(m => !Suppressed(read, list, m), list);
  }

  /** Suppressing twice is suppressing once, whatever the messages are. */
  lemma Idempotent(read: Reader, list: seq<string>)
    ensures Dedupe(read, Dedupe(read, list)) == Dedupe(read, list)
  {
    var kept := Dedupe(read, list);
    if |list| >= 2 && |kept| >= 2 {
      forall m | m in kept
        ensures !Suppressed(read, kept, m)
      {
        InDedupe(read, list, m);
        forall cause | cause in kept
          ensures !Suppresses(read, cause, m)
        {
          InDedupe(read, list, cause);
        }
      }
      Sorting.FilterAll(m => !Suppressed(read, kept, m), kept);
    }
  }

  ghost predicate Subsequence(a: seq<string>, b: seq<string>) {
    || a == []
    || (b != [] && Subsequence(a, b[..|b| - 1]))
    || (b != [] && a[|a| - 1] == b[|b| - 1] && Subsequence(a[..|a| - 1], b[..|b| - 1]))
  }

  lemma {:induction false} FilterKeepsOrder(keep: string -> bool, s: seq<string>)
    ensures Subsequence(Sorting.Filter(keep, s), s)
  {
    if s != [] {
      var n := |s| - 1;
      FilterKeepsOrder(keep, s[..n]);
      var front := Sorting.Filter(keep, s[..n]);
      assert (front + [s[n]])[..|front|] == front;
    }
  }

  lemma {:induction false} Whole(s: seq<string>)
    ensures Subsequence(s, s)
  {
    if s != [] {
      Whole(s[..|s| - 1]);
    }
  }

  /** Suppression only deletes: what is left keeps its order. */
  lemma DedupeKeepsOrder(read: Reader, list: seq<string>)
    ensures Subsequence(Dedupe(read, list), list)
  {
    Whole(list);
    FilterKeepsOrder(m => !Suppressed(read, list, m), list);
  }

  // ----- Survivors -------------------------------------------------------------------------

  /** How far a class is from being suppressed by nothing. */
  function Level(c: Class): nat {
    match c
    case StatusReference => 0
    case ConcreteBackend => 1
    case RouteRejected => 2
    case _ => if Suppressor(c).Some? then 0 else 2
  }

  /** A message whose classes, if it has several, neither suppress nor are suppressed differently; in particular a
      message of one class. */
  ghost predicate OneLevel(read: Reader, m: string) {
    forall a: Class, b: Class :: read(a, m).Some? && read(b, m).Some? ==> Level(a) == Level(b)
  }

  lemma OneClassIsOneLevel(read: Reader, m: string)
    requires forall a: Class, b: Class :: read(a, m).Some? && read(b, m).Some? ==> a == b
    ensures OneLevel(read, m)
  {
  }

  lemma SuppressorIsHigher(c: Class)
    requires Suppressor(c).Some?
    ensures Level(Suppressor(c).value) > Level(c)
    ensures Level(Suppressor(c).value) == 2 || (c == StatusReference && Suppressor(c) == Some(ConcreteBackend))
  {
  }

  /** A message of the highest level is never suppressed. */
  lemma TopStays(read: Reader, list: seq<string>, m: string, c: Class)
    requires m in list && OneLevel(read, m) && read(c, m).Some? && Level(c) == 2
    ensures m in Dedupe(read, list)
  {
    InDedupe(read, list, m);
    if Suppressed(read, list, m) {
      var cause :| cause in list && Suppresses(read, cause, m);
      var b :| SuppressesAs(read, b, cause, m);
      SuppressorIsHigher(b);
      assert false;
    }
  }

  /** Every suppressed diagnosis is explained by one that is left: directly, or through one intermediate diagnosis
      that was itself suppressed by it. */
  lemma SuppressedIsExplained(read: Reader, list: seq<string>, m: string) returns (survivor: string, through: string)
    requires forall x :: x in list ==> OneLevel(read, x)
    requires m in list && m !in Dedupe(read, list)
    ensures survivor in Dedupe(read, list)
    ensures Suppresses(read, survivor, m) || (
      through in list && Suppresses(read, through, m) && Suppresses(read, survivor, through))
  {
    InDedupe(read, list, m);
    var cause :| cause in list && Suppresses(read, cause, m);
    var c :| SuppressesAs(read, c, cause, m);
    SuppressorIsHigher(c);
    survivor, through := cause, cause;
    if Level(Suppressor(c).value) == 2 {
      TopStays(read, list, cause, Suppressor(c).value);
    } else if cause !in Dedupe(read, list) {
      InDedupe(read, list, cause);
      var top :| top in list && Suppresses(read, top, cause);
      var d :| SuppressesAs(read, d, top, cause);
      assert Level(d) == Level(ConcreteBackend);
      SuppressorIsHigher(d);
      TopStays(read, list, top, Suppressor(d).value);
      survivor := top;
    }
  }

  /** A report with a diagnosis never loses all of them. */
  lemma NeverEmpties(read: Reader, list: seq<string>)
    requires list != [] && forall x :: x in list ==> OneLevel(read, x)
    ensures Dedupe(read, list) != []
  {
    if list[0] !in Dedupe(read, list) {
      var survivor, through := SuppressedIsExplained(read, list, list[0]);
    }
  }

  // ----- The two passes --------------------------------------------------------------------

  /** The objects that messages of a class are about. */
  ghost function Objects(read: Reader, c: Class, list: seq<string>): set<string> {
    if list == [] then {}
    else
      var n := |list| - 1;
      Objects(read, c, list[..n]) + (if read(c, list[n]).Some? then {read(c, list[n]).value} else {})
  }

  lemma {:induction false} InObjects(read: Reader, c: Class, list: seq<string>, key: string)
    ensures key in Objects(read, c, list) <==> exists m :: m in list && read(c, m) == Some(key)
  {
    if list != [] {
      var n := |list| - 1;
      InObjects(read, c, list[..n], key);
      assert list == list[..n] + [list[n]];
    }
  }

  /** `m` is redundant as a message of class `c`. */
  ghost predicate Redundant(read: Reader, list: seq<string>, c: Class, m: string) {
    && Suppressor(c).Some?
    && read(c, m).Some?
    && read(c, m).value in Objects(read, Suppressor(c).value, list)
  }

  lemma SuppressedWhenRedundant(read: Reader, list: seq<string>, m: string)
    ensures Suppressed(read, list, m) <==> exists c: Class :: Redundant(read, list, c, m)
  {
    if Suppressed(read, list, m) {
      var cause :| cause in list && Suppresses(read, cause, m);
      var c :| SuppressesAs(read, c, cause, m);
      InObjects(read, Suppressor(c).value, list, read(c, m).value);
      assert Redundant(read, list, c, m);
    }
    if c: Class :| Redundant(read, list, c, m) {
      InObjects(read, Suppressor(c).value, list, read(c, m).value);
      var cause :| cause in list && read(Suppressor(c).value, cause) == Some(read(c, m).value);
      assert SuppressesAs(read, c, cause, m);
    }
  }

  /** The seven tables of the first pass. */
  datatype Tables = Tables(routeConcrete: set<string>, routeNoParents: set<string>, routeRejected: set<string>,
                           gatewayConcrete: set<string>, setRejected: set<string>, policyConcrete: set<string>,
                           trafficTLS: bool)

  ghost predicate Holds(read: Reader, tables: Tables, list: seq<string>) {
    && tables.routeConcrete == Objects(read, ConcreteBackend, list)
    && tables.routeNoParents == Objects(read, RouteUnattached, list)
    && tables.routeRejected == Objects(read, RouteRejected, list)
    && tables.gatewayConcrete == Objects(read, GatewayTLS, list)
    && tables.setRejected == Objects(read, SetRejected, list)
    && tables.policyConcrete == Objects(read, PolicyConcrete, list)
    && tables.trafficTLS == ("" in Objects(read, TrafficTLS, list))
  }

  /** What one message adds to a table. */
  method Note(v: Vocabulary, table: set<string>, c: Class, about: string, message: string, ghost list: seq<string>)
    returns (grown: set<string>)
    requires table == Objects(v.Read, c, list) && about == v.ObjectOf(c, message) && !AboutRequest(c)
    ensures grown == Objects(v.Read, c, list + [message])
  {
    assert (list + [message])[..|list|] == list;
    grown := table;
    if about != "" && v.worded(c, message) {
      grown := grown + {about};
    }
  }

  lemma TrafficStep(v: Vocabulary, message: string, list: seq<string>)
    ensures "" in Objects(v.Read, TrafficTLS, list + [message]) <==>
            "" in Objects(v.Read, TrafficTLS, list) || v.worded(TrafficTLS, message)
  {
    assert (list + [message])[..|list|] == list;
  }

  /** The route tables in one round of the first loop. */
  method MarkRoute(v: Vocabulary, tables: Tables, message: string, ghost list: seq<string>) returns (marked: Tables)
    requires Holds(v.Read, tables, list)
    ensures marked == tables.(routeConcrete := marked.routeConcrete, routeNoParents := marked.routeNoParents,
                              routeRejected := marked.routeRejected)
    ensures marked.routeConcrete == Objects(v.Read, ConcreteBackend, list + [message])
    ensures marked.routeNoParents == Objects(v.Read, RouteUnattached, list + [message])
    ensures marked.routeRejected == Objects(v.Read, RouteRejected, list + [message])
  {
    var route := v.routeOf(message);
    var routeConcrete := Note(v, tables.routeConcrete, ConcreteBackend, route, message, list);
    var routeNoParents := Note(v, tables.routeNoParents, RouteUnattached, route, message, list);
    var routeRejected := Note(v, tables.routeRejected, RouteRejected, route, message, list);
    marked := tables.(routeConcrete := routeConcrete, routeNoParents := routeNoParents, routeRejected := routeRejected);
  }

  /** One round of the first loop. */
  method Mark(v: Vocabulary, tables: Tables, message: string, ghost list: seq<string>) returns (marked: Tables)
    requires Holds(v.Read, tables, list)
    ensures Holds(v.Read, marked, list + [message])
  {
    marked := MarkRoute(v, tables, message, list);
    var gatewayConcrete := Note(v, tables.gatewayConcrete, GatewayTLS, v.gatewayOf(message), message, list);
    var setRejected := Note(v, tables.setRejected, SetRejected, v.listenerSetOf(message), message, list);
    var policyConcrete := Note(v, tables.policyConcrete, PolicyConcrete, v.policyOf(message), message, list);
    var trafficTLS := tables.trafficTLS || v.worded(TrafficTLS, message);
    TrafficStep(v, message, list);
    marked := marked.(gatewayConcrete := gatewayConcrete, setRejected := setRejected, policyConcrete := policyConcrete,
                      trafficTLS := trafficTLS);
  }

  /** The table that a class is looked up in. */
  predicate Listed(tables: Tables, c: Class, about: string) {
    match c
    case StatusReference => about in tables.routeConcrete
    case NoParentStatus => about in tables.routeNoParents
    case NoAcceptedParent | ConcreteBackend => about in tables.routeRejected
    case ListenerStatus => about in tables.gatewayConcrete
    case SetProgrammed | SetTLSReference => about in tables.setRejected
    case PolicyStatus => about in tables.policyConcrete
    case TrafficTLSStatus | TrafficUnattached => tables.trafficTLS
    case _ => false
  }

  lemma ListedIsRedundant(v: Vocabulary, tables: Tables, list: seq<string>, c: Class, m: string)
    requires Holds(v.Read, tables, list)
    ensures Redundant(v.Read, list, c, m) <==> v.Read(c, m).Some? && Listed(tables, c, v.ObjectOf(c, m))
  {
  }

  /** One condition of the second loop. */
  method Hides(v: Vocabulary, tables: Tables, c: Class, about: string, message: string, ghost list: seq<string>)
    returns (hides: bool)
    requires Holds(v.Read, tables, list) && about == v.ObjectOf(c, message)
    ensures hides <==> Redundant(v.Read, list, c, message)
  {
    ListedIsRedundant(v, tables, list, c, message);
    return (AboutRequest(c) || about != "") && Listed(tables, c, about) && v.worded(c, message);
  }

  ghost predicate RouteRedundant(read: Reader, list: seq<string>, m: string) {
    || Redundant(read, list, StatusReference, m) || Redundant(read, list, NoParentStatus, m)
    || Redundant(read, list, NoAcceptedParent, m) || Redundant(read, list, ConcreteBackend, m)
  }

  ghost predicate ListenerRedundant(read: Reader, list: seq<string>, m: string) {
    || Redundant(read, list, ListenerStatus, m)
    || Redundant(read, list, SetProgrammed, m) || Redundant(read, list, SetTLSReference, m)
  }

  ghost predicate OtherRedundant(read: Reader, list: seq<string>, m: string) {
    || Redundant(read, list, PolicyStatus, m)
    || Redundant(read, list, TrafficTLSStatus, m) || Redundant(read, list, TrafficUnattached, m)
  }

  lemma NothingElse(read: Reader, list: seq<string>, m: string)
    ensures Suppressed(read, list, m) <==>
            RouteRedundant(read, list, m) || ListenerRedundant(read, list, m) || OtherRedundant(read, list, m)
  {
    SuppressedWhenRedundant(read, list, m);
  }

  method SkipRoute(v: Vocabulary, tables: Tables, message: string, ghost list: seq<string>) returns (skip: bool)
    requires Holds(v.Read, tables, list)
    ensures skip <==> RouteRedundant(v.Read, list, message)
  {
    var route := v.routeOf(message);
    var status := Hides(v, tables, StatusReference, route, message, list);
    var noParent := Hides(v, tables, NoParentStatus, route, message, list);
    var noAccepted := Hides(v, tables, NoAcceptedParent, route, message, list);
    var backend := Hides(v, tables, ConcreteBackend, route, message, list);
    skip := status || noParent || noAccepted || backend;
  }

  method SkipListener(v: Vocabulary, tables: Tables, message: string, ghost list: seq<string>) returns (skip: bool)
    requires Holds(v.Read, tables, list)
    ensures skip <==> ListenerRedundant(v.Read, list, message)
  {
    var listener := Hides(v, tables, ListenerStatus, v.listenerGatewayOf(message), message, list);
    var programmed := Hides(v, tables, SetProgrammed, v.listenerSetOf(message), message, list);
    var reference := Hides(v, tables, SetTLSReference, v.listenerSetOf(message), message, list);
    skip := listener || programmed || reference;
  }

  method SkipOther(v: Vocabulary, tables: Tables, message: string, ghost list: seq<string>) returns (skip: bool)
    requires Holds(v.Read, tables, list)
    ensures skip <==> OtherRedundant(v.Read, list, message)
  {
    var policy := Hides(v, tables, PolicyStatus, v.policyOf(message), message, list);
    var status := Hides(v, tables, TrafficTLSStatus, "", message, list);
    var unattached := Hides(v, tables, TrafficUnattached, "", message, list);
    skip := policy || status || unattached;
  }

  /** The conditions of the second loop. */
  method Skip(v: Vocabulary, tables: Tables, message: string, ghost list: seq<string>) returns (skip: bool)
    requires Holds(v.Read, tables, list)
    ensures skip <==> Suppressed(v.Read, list, message)
  {
    NothingElse(v.Read, list, message);
    var route := SkipRoute(v, tables, message, list);
    var listener := SkipListener(v, tables, message, list);
    var other := SkipOther(v, tables, message, list);
    skip := route || listener || other;
  }

  /** The report's diagnoses. */
  class Report {
    var diagnoses: seq<string>

    constructor ()
      ensures diagnoses == []
    {
      diagnoses := [];
    }

    /** Diagnose: an identical message is not added again, so the report never holds one twice. */
    method Diagnose(message: string)
      requires Distinct(diagnoses)
      modifies this
      ensures Distinct(diagnoses)
      ensures diagnoses == if message in old(diagnoses) then old(diagnoses) else old(diagnoses) + [message]
    {
      for i := 0 to |diagnoses|
        invariant diagnoses == old(diagnoses) && message !in diagnoses[..i]
      {
        if diagnoses[i] == message {
          return;
        }
        assert diagnoses[..i + 1] == diagnoses[..i] + [diagnoses[i]];
      }
      assert diagnoses[..|diagnoses|] == diagnoses;
      diagnoses := diagnoses + [message];
    }

    /** dedupeGatewayDiagnoses, for any vocabulary. */
    method DedupeBy(v: Vocabulary)
      modifies this
      ensures diagnoses == Dedupe(v.Read, old(diagnoses))
    {
      if |diagnoses| < 2 {
        return;
      }
      var tables := Tables({}, {}, {}, {}, {}, {}, false);
      for i := 0 to |diagnoses|
        invariant diagnoses == old(diagnoses)
        invariant Holds(v.Read, tables, diagnoses[..i])
      {
        tables := Mark(v, tables, diagnoses[i], diagnoses[..i]);
        assert diagnoses[..i] + [diagnoses[i]] == diagnoses[..i + 1];
      }
      ghost var list := diagnoses;
      assert list[..|list|] == list;
      var kept: seq<string> := [];
      for i := 0 to |diagnoses|
        invariant diagnoses == list
        invariant kept == Sorting.Filter(m => !Suppressed(v.Read, list, m), list[..i])
      {
        var skip := Skip(v, tables, diagnoses[i], list);
        assert list[..i + 1][..i] == list[..i];
        if skip {
          continue;
        }
        kept := kept + [diagnoses[i]];
      }
      diagnoses := kept;
    }

    /** dedupeGatewayDiagnoses. */
    method DedupeDiagnoses()
      modifies this
      ensures diagnoses == Dedupe(GatewayMessages().Read, old(diagnoses))
    {
      DedupeBy(GatewayMessages());
    }
  }
}
