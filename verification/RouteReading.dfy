/** What the selection of a rule per listener means, read off the score fields, the routes and the backendRefs. */
module RouteReading {
  import opened Text
  import opened Sorting
  import opened Gateway
  import opened RulePrecedence
  import opened RouteSelection
  import opened RouteWinners
  import Hostnames

  // ----- Scores by their fields ------------------------------------------------------------

  /** At the first field where the scores differ, `a` has the larger value. */
  predicate Outranks(a: Score, b: Score) {
    if a.hostNonWildcardChars != b.hostNonWildcardChars then a.hostNonWildcardChars > b.hostNonWildcardChars
    else if a.hostChars != b.hostChars then a.hostChars > b.hostChars
    else OutranksByMatch(a, b)
  }

  predicate OutranksByMatch(a: Score, b: Score) {
    if a.pathRank != b.pathRank then a.pathRank > b.pathRank
    else if a.pathChars != b.pathChars then a.pathChars > b.pathChars
    else if a.method_ != b.method_ then a.method_ > b.method_
    else if a.headers != b.headers then a.headers > b.headers
    else a.queryParams > b.queryParams
  }

  lemma ValuesCompare(a: seq<int>, b: seq<int>)
    requires |a| == |b| > 0
    ensures CompareValues(a, b) == if a[0] > b[0] then 1 else if a[0] < b[0] then -1 else CompareValues(a[1..], b[1..])
  {
  }

  lemma CompareReads(a: Score, b: Score)
    ensures CompareScores(a, b) > 0 <==> Outranks(a, b)
  {
    var v, w := Values(a), Values(b);
    CompareFrom(v, w, 0);
    CompareFrom(v, w, 1);
    CompareFrom(v, w, 2);
    CompareFrom(v, w, 3);
    CompareFrom(v, w, 4);
    CompareFrom(v, w, 5);
    CompareFrom(v, w, 6);
    assert v[0..] == v && w[0..] == w && v[7..] == [] && w[7..] == [];
  }

  lemma CompareFrom(v: seq<int>, w: seq<int>, i: nat)
    requires |v| == |w| && i < |v|
    ensures CompareValues(v[i..], w[i..]) ==
            if v[i] > w[i] then 1 else if v[i] < w[i] then -1 else CompareValues(v[i + 1..], w[i + 1..])
  {
    assert v[i..][1..] == v[i + 1..] && w[i..][1..] == w[i + 1..];
  }

  /** With equal scores: the older route, a missing creation time last, then the route name; and within one route
      the lower rule number. */
  ghost predicate Precedes(a: RuleMatch, b: RuleMatch) {
    if a.routeNamespace + "/" + a.routeName == b.routeNamespace + "/" + b.routeName then a.ruleNumber < b.ruleNumber
    else if a.created == b.created then
      LexLess(a.routeNamespace + "/" + a.routeName, b.routeNamespace + "/" + b.routeName)
    else a.created.Some? && (b.created.None? || a.created.value < b.created.value)
  }

  /** Main result: the winner of a listener outranks every other match there at the first score field that differs,
      and precedes those of the same score by age, route and rule number. */
  lemma WinnerReads(ms: seq<RuleMatch>, m: RuleMatch)
    requires Consistent(ms) && m in ms && m != Winner(ms, GroupKey(m))
    ensures var w := Winner(ms, GroupKey(m));
            && w in ms && GroupKey(w) == GroupKey(m)
            && (Outranks(w.score, m.score) || (w.score == m.score && Precedes(w, m)))
  {
    assert GroupKey(m) in GroupKeys(ms);
    WinnerIsUniqueLeast(ms, GroupKey(m));
    var w := Winner(ms, GroupKey(m));
    CompareReads(w.score, m.score);
    ScoreOrder(w.score, m.score, w.score);
  }

  lemma OutranksIsAsymmetric(a: Score, b: Score)
    requires Outranks(a, b)
    ensures !Outranks(b, a) && a != b
  {
  }

  /** Main result: a match that another one of its listener outranks is not selected. */
  lemma OutrankedLoses(ms: seq<RuleMatch>, a: RuleMatch, b: RuleMatch)
    requires Consistent(ms) && a in ms && b in ms && GroupKey(a) == GroupKey(b) && Outranks(a.score, b.score)
    ensures Winner(ms, GroupKey(b)) != b
  {
    OutranksIsAsymmetric(a.score, b.score);
    if Winner(ms, GroupKey(b)) == b {
      WinnerReads(ms, a);
    }
  }

  // ----- Scores by the routes --------------------------------------------------------------

  predicate IsExact(m: RouteMatch) {
    m.path.Some? && m.path.value.kind == "Exact"
  }

  predicate IsPrefix(m: RouteMatch) {
    m.path.Some? && (m.path.value.kind == "" || m.path.value.kind == "PathPrefix")
  }

  /** The match is one of the rule's, and the request satisfies it. */
  ghost predicate Satisfied(kind: string, rule: RouteRule, intent: Intent, m: RouteMatch) {
    Some(m) in rule.matches && SingleMatch(kind, m, intent)
  }

  /** The rule's score is that of one of its satisfied matches, and none of the others outranks it. */
  lemma {:induction false} BestIsSome(kind: string, rule: RouteRule, intent: Intent, n: nat)
    requires n <= |rule.matches|
    ensures var best := BestMatchScore(kind, rule, intent, n);
            best.Some? ==> exists m :: Satisfied(kind, rule, intent, m) && best.value == MatchScore(kind, m)
  {
    if n > 0 {
      BestIsSome(kind, rule, intent, n - 1);
      var raw := rule.matches[n - 1];
      if raw.Some? && SingleMatch(kind, raw.value, intent) {
        assert Satisfied(kind, rule, intent, raw.value);
      }
    }
  }

  lemma ScoreIsBest(kind: string, rule: RouteRule, intent: Intent)
    requires FamilyOf(kind) == HTTP && rule.matches != [] && RuleScore(kind, rule, intent).Some?
    ensures var best := RuleScore(kind, rule, intent).value;
            && (exists m :: Satisfied(kind, rule, intent, m) && best == HTTPScore(m))
            && forall m :: Satisfied(kind, rule, intent, m) ==> !Outranks(HTTPScore(m), best)
  {
    var n := |rule.matches|;
    var best := RuleScore(kind, rule, intent).value;
    BestIsSome(kind, rule, intent, n);
    BestMatchIsHighest(kind, rule, intent, n);
    forall m | Satisfied(kind, rule, intent, m) ensures !Outranks(HTTPScore(m), best) {
      var i :| 0 <= i < n && rule.matches[i] == Some(m);
      ScoreOrder(best, HTTPScore(m), best);
      CompareReads(HTTPScore(m), best);
    }
  }

  /** What a path condition is worth: an exact path more than a prefix, a longer one more than a shorter one, and
      a regular expression least. */
  lemma PathScores(a: RouteMatch, b: RouteMatch)
    ensures IsExact(a) && !IsExact(b) ==> HTTPScore(a).pathRank > HTTPScore(b).pathRank
    ensures IsPrefix(a) && IsPrefix(b) && |DefaultString(a.path.value.value, "/")| > |DefaultString(b.path.value.value, "/")|
            ==> OutranksByMatch(HTTPScore(a), HTTPScore(b))
    ensures IsExact(a) && IsExact(b) && |DefaultString(a.path.value.value, "/")| > |DefaultString(b.path.value.value, "/")|
            ==> OutranksByMatch(HTTPScore(a), HTTPScore(b))
    ensures IsPrefix(a) && b.path.None? && |DefaultString(a.path.value.value, "/")| > 1
            ==> OutranksByMatch(HTTPScore(a), HTTPScore(b))
    ensures (IsPrefix(a) || a.path.None?) && b.path.Some? && b.path.value.kind == "RegularExpression"
            ==> OutranksByMatch(HTTPScore(a), HTTPScore(b))
  {
  }

  /** No path condition is worth the prefix of every path, and a rule without matches one match on that prefix. */
  lemma NoPathScores(a: RouteMatch, rule: RouteRule, intent: Intent)
    requires a.path.None?
    ensures HTTPScore(a) == HTTPScore(a.(path := Some(PathSpec("PathPrefix", "/"))))
    ensures rule.matches == [] ==> RuleScore("HTTPRoute", rule, intent)
                                   == Some(HTTPScore(RouteMatch(Some(PathSpec("PathPrefix", "/")), "", None, [], [])))
    ensures rule.matches == [] ==> RuleScore("GRPCRoute", rule, intent) == Some(Score(0, 0, 0, 0, 0, 0, 0))
    ensures RuleScore("TLSRoute", rule, intent) == Some(Score(0, 0, 0, 0, 0, 0, 0))
  {
    assert TrimSpace("") == "";
  }

  /** With equal paths: a method condition, then more headers, then more query parameters. */
  lemma FieldScores(a: RouteMatch, b: RouteMatch)
    requires a.path == b.path
    ensures TrimSpace(a.method_) != "" && TrimSpace(b.method_) == "" ==> OutranksByMatch(HTTPScore(a), HTTPScore(b))
    ensures a.method_ == b.method_ && |a.headers| > |b.headers| ==> OutranksByMatch(HTTPScore(a), HTTPScore(b))
    ensures a.method_ == b.method_ && |a.headers| == |b.headers| && |a.queryParams| > |b.queryParams|
            ==> OutranksByMatch(HTTPScore(a), HTTPScore(b))
  {
  }

  /** For gRPC: a longer service name, then a method, then more headers. */
  lemma GRPCScores(a: RouteMatch, b: RouteMatch)
    requires a.grpc.Some? && b.grpc.Some?
    ensures |a.grpc.value.service| > |b.grpc.value.service| ==> OutranksByMatch(GRPCScore(a), GRPCScore(b))
    ensures a.grpc.value.service == b.grpc.value.service && a.grpc.value.method_ != "" && b.grpc.value.method_ == ""
            ==> OutranksByMatch(GRPCScore(a), GRPCScore(b))
    ensures a.grpc == b.grpc && |a.headers| > |b.headers| ==> OutranksByMatch(GRPCScore(a), GRPCScore(b))
  {
  }

  // ----- Winners by the routes -------------------------------------------------------------

  /** Where a reported match comes from, and what its score is made of. */
  lemma FoundScore(gateways: seq<Gateway>, routes: seq<Route>, intent: Intent, a: RuleMatch) returns (r: Route, best: Score)
    requires a in FoundRules(gateways, routes, intent)
    ensures r in routes && r.kind == a.kind && r.namespace == a.routeNamespace && r.name == a.routeName
    ensures RuleScore(a.kind, a.rule, WithPath(intent)) == Some(best)
    ensures var host := BestHostnameScore(r, intent.host, |r.hostnames|);
            a.score == best.(hostNonWildcardChars := host.hostNonWildcardChars, hostChars := host.hostChars)
  {
    var s := RuleOrigin(gateways, routes, intent, a);
    SiteMembers(gateways, routes, intent, s);
    r := s.route;
    MatchedRuleHasScore(a.kind, a.rule, WithPath(intent));
    best := RuleScore(a.kind, a.rule, WithPath(intent)).value;
  }

  predicate SameHostScore(a: Score, b: Score) {
    a.hostNonWildcardChars == b.hostNonWildcardChars && a.hostChars == b.hostChars
  }

  function PathLength(m: RouteMatch): nat {
    if m.path.None? then 1 else |DefaultString(m.path.value.value, "/")|
  }

  lemma ExactRank(kind: string, rule: RouteRule, intent: Intent, m: RouteMatch)
    requires FamilyOf(kind) == HTTP && RuleScore(kind, rule, intent).Some?
    requires Satisfied(kind, rule, intent, m) && IsExact(m)
    ensures RuleScore(kind, rule, intent).value.pathRank >= 2
  {
    ScoreIsBest(kind, rule, intent);
  }

  lemma InexactRank(kind: string, rule: RouteRule, intent: Intent)
    requires FamilyOf(kind) == HTTP && RuleScore(kind, rule, intent).Some?
    requires forall m :: Satisfied(kind, rule, intent, m) ==> !IsExact(m)
    ensures RuleScore(kind, rule, intent).value.pathRank <= 1
  {
    if rule.matches != [] {
      ScoreIsBest(kind, rule, intent);
    }
  }

  /** Main result, from the routes: of two HTTP rules that a listener's request matches, with equal host scores, one
      with an exact path that the request meets outranks one without; so the other is not selected. */
  lemma ExactPathWins(gateways: seq<Gateway>, routes: seq<Route>, intent: Intent, a: RuleMatch, b: RuleMatch, m: RouteMatch)
    requires WellNamed(gateways, routes)
    requires a in FoundRules(gateways, routes, intent) && b in FoundRules(gateways, routes, intent)
    requires GroupKey(a) == GroupKey(b) && FamilyOf(a.kind) == FamilyOf(b.kind) == HTTP && SameHostScore(a.score, b.score)
    requires Satisfied(a.kind, a.rule, WithPath(intent), m) && IsExact(m)
    requires forall n :: Satisfied(b.kind, b.rule, WithPath(intent), n) ==> !IsExact(n)
    ensures Outranks(a.score, b.score)
    ensures Winner(FoundRules(gateways, routes, intent), GroupKey(b)) != b
  {
    var r, best := FoundScore(gateways, routes, intent, a);
    var t, other := FoundScore(gateways, routes, intent, b);
    ExactRank(a.kind, a.rule, WithPath(intent), m);
    InexactRank(b.kind, b.rule, WithPath(intent));
    FoundRulesAreConsistent(gateways, routes, intent);
    OutrankedLoses(FoundRules(gateways, routes, intent), a, b);
  }

  lemma PrefixRank(kind: string, rule: RouteRule, intent: Intent, m: RouteMatch)
    requires FamilyOf(kind) == HTTP && RuleScore(kind, rule, intent).Some?
    requires Satisfied(kind, rule, intent, m) && IsPrefix(m)
    ensures var best := RuleScore(kind, rule, intent).value;
            best.pathRank >= 2 || (best.pathRank == 1 && best.pathChars >= PathLength(m))
  {
    ScoreIsBest(kind, rule, intent);
  }

  lemma ShorterRank(kind: string, rule: RouteRule, intent: Intent, length: nat)
    requires FamilyOf(kind) == HTTP && RuleScore(kind, rule, intent).Some? && length > 1
    requires forall m :: Satisfied(kind, rule, intent, m) ==>
               !IsExact(m) && ((m.path.None? || IsPrefix(m)) ==> PathLength(m) < length)
    ensures var best := RuleScore(kind, rule, intent).value;
            best.pathRank < 1 || (best.pathRank == 1 && best.pathChars < length)
  {
    if rule.matches != [] {
      ScoreIsBest(kind, rule, intent);
    }
  }

  /** Main result, from the routes: a prefix that the request meets outranks shorter ones, a missing path, and regular
      expressions. */
  lemma LongerPrefixWins(gateways: seq<Gateway>, routes: seq<Route>, intent: Intent, a: RuleMatch, b: RuleMatch, m: RouteMatch)
    requires WellNamed(gateways, routes)
    requires a in FoundRules(gateways, routes, intent) && b in FoundRules(gateways, routes, intent)
    requires GroupKey(a) == GroupKey(b) && FamilyOf(a.kind) == FamilyOf(b.kind) == HTTP && SameHostScore(a.score, b.score)
    requires Satisfied(a.kind, a.rule, WithPath(intent), m) && IsPrefix(m) && PathLength(m) > 1
    requires forall n :: Satisfied(b.kind, b.rule, WithPath(intent), n) ==>
               !IsExact(n) && ((n.path.None? || IsPrefix(n)) ==> PathLength(n) < PathLength(m))
    ensures Outranks(a.score, b.score)
    ensures Winner(FoundRules(gateways, routes, intent), GroupKey(b)) != b
  {
    var r, best := FoundScore(gateways, routes, intent, a);
    var t, other := FoundScore(gateways, routes, intent, b);
    PrefixRank(a.kind, a.rule, WithPath(intent), m);
    ShorterRank(b.kind, b.rule, WithPath(intent), PathLength(m));
    FoundRulesAreConsistent(gateways, routes, intent);
    OutrankedLoses(FoundRules(gateways, routes, intent), a, b);
  }

  // ----- Hostnames -------------------------------------------------------------------------

  predicate HostAt(r: Route, host: string, i: nat) {
    i < |r.hostnames| && r.hostnames[i].Some? && Hostnames.Matches(r.hostnames[i].value, host)
  }

  function HostScoreAt(r: Route, i: nat): Score
    requires i < |r.hostnames| && r.hostnames[i].Some?
  {
    HostnameScore(r.hostnames[i].value)
  }

  lemma OneMoreHost(r: Route, host: string, n: nat)
    requires 0 < n <= |r.hostnames|
    ensures var best, before := BestHostnameScore(r, host, n), BestHostnameScore(r, host, n - 1);
            if HostAt(r, host, n - 1) && CompareScores(HostScoreAt(r, n - 1), before) > 0
            then best == HostScoreAt(r, n - 1) else best == before
  {
  }

  lemma {:induction false} BestHostIsOne(r: Route, host: string, n: nat) returns (i: int)
    requires n <= |r.hostnames|
    ensures if i < 0 then BestHostnameScore(r, host, n) == NO_SCORE
            else HostAt(r, host, i) && BestHostnameScore(r, host, n) == HostScoreAt(r, i)
  {
    i := -1;
    if n > 0 {
      OneMoreHost(r, host, n);
      i := BestHostIsOne(r, host, n - 1);
      if HostAt(r, host, n - 1) && CompareScores(HostScoreAt(r, n - 1), BestHostnameScore(r, host, n - 1)) > 0 {
        i := n - 1;
      }
    }
  }

  predicate AtLeast(a: Score, b: Score) {
    CompareScores(a, b) >= 0
  }

  lemma StaysAhead(best: Score, before: Score, next: Option<Score>, other: Score)
    requires best == if next.Some? && CompareScores(next.value, before) > 0 then next.value else before
    requires AtLeast(before, other) || next == Some(other)
    ensures AtLeast(best, other)
  {
    ScoreOrder(best, before, other);
    ScoreOrder(other, before, other);
    ScoreOrder(other, other, other);
  }

  lemma {:induction false} BestHostIsHighest(r: Route, host: string, n: nat, i: nat)
    requires i < n <= |r.hostnames| && HostAt(r, host, i)
    ensures AtLeast(BestHostnameScore(r, host, n), HostScoreAt(r, i))
  {
    var next := if HostAt(r, host, n - 1) then Some(HostScoreAt(r, n - 1)) else None;
    OneMoreHost(r, host, n);
    if i < n - 1 {
      BestHostIsHighest(r, host, n - 1, i);
    }
    StaysAhead(BestHostnameScore(r, host, n), BestHostnameScore(r, host, n - 1), next, HostScoreAt(r, i));
  }

  /** The route's score by hostname: that of a hostname that matches, or nothing; and none of them outranks it. */
  lemma BestHostReads(r: Route, host: string)
    ensures var best := BestHostnameScore(r, host, |r.hostnames|);
            && (best == NO_SCORE || exists i: nat :: HostAt(r, host, i) && best == HostScoreAt(r, i))
            && (forall i: nat :: HostAt(r, host, i) ==>
                  !Outranks(HostScoreAt(r, i), best) &&
                  HostScoreAt(r, i).hostNonWildcardChars <= best.hostNonWildcardChars)
  {
    var best := BestHostnameScore(r, host, |r.hostnames|);
    var one := BestHostIsOne(r, host, |r.hostnames|);
    forall i: nat | HostAt(r, host, i)
      ensures !Outranks(HostScoreAt(r, i), best) && HostScoreAt(r, i).hostNonWildcardChars <= best.hostNonWildcardChars
    {
      BestHostIsHighest(r, host, |r.hostnames|, i);
      ScoreOrder(HostScoreAt(r, i), best, best);
      CompareReads(HostScoreAt(r, i), best);
    }
  }

  /** Main result, from the routes: a route that names the host outranks one that only covers it by wildcards, or that
      names no host. */
  lemma ExactHostWins(gateways: seq<Gateway>, routes: seq<Route>, intent: Intent, a: RuleMatch, b: RuleMatch,
                      r: Route, t: Route, i: nat)
    requires WellNamed(gateways, routes)
    requires a in FoundRules(gateways, routes, intent) && b in FoundRules(gateways, routes, intent)
    requires GroupKey(a) == GroupKey(b)
    requires r in routes && t in routes && r.namespace == a.routeNamespace && r.name == a.routeName
    requires t.namespace == b.routeNamespace && t.name == b.routeName
    requires var host := Hostnames.Normalize(intent.host); host != "" && !HasPrefix(host, "*.")
    requires i < |r.hostnames| && r.hostnames[i].Some? &&
             Hostnames.Normalize(r.hostnames[i].value) == Hostnames.Normalize(intent.host)
    requires forall j :: 0 <= j < |t.hostnames| && t.hostnames[j].Some? ==>
               Hostnames.Normalize(t.hostnames[j].value) == "" || HasPrefix(Hostnames.Normalize(t.hostnames[j].value), "*.")
    ensures Outranks(a.score, b.score)
    ensures Winner(FoundRules(gateways, routes, intent), GroupKey(b)) != b
  {
    var ra, best := FoundScore(gateways, routes, intent, a);
    var rb, other := FoundScore(gateways, routes, intent, b);
    assert ra == r && rb == t;
    BestHostReads(r, intent.host);
    assert HostAt(r, intent.host, i);
    WildcardHostScore(t, intent.host);
    FoundRulesAreConsistent(gateways, routes, intent);
    OutrankedLoses(FoundRules(gateways, routes, intent), a, b);
  }

  lemma WildcardHostScore(t: Route, host: string)
    requires Hostnames.Normalize(host) != ""
    requires forall j :: 0 <= j < |t.hostnames| && t.hostnames[j].Some? ==>
               Hostnames.Normalize(t.hostnames[j].value) == "" || HasPrefix(Hostnames.Normalize(t.hostnames[j].value), "*.")
    ensures BestHostnameScore(t, host, |t.hostnames|).hostNonWildcardChars < |Hostnames.Normalize(host)|
  {
    BestHostReads(t, host);
  }

  // ----- Backends --------------------------------------------------------------------------

  /** Main result, on the fields: a reported rule yields a path exactly when it has a backendRef with a name whose
      weight is absent or not zero. */
  lemma PathByWeight(gateways: seq<Gateway>, routes: seq<Route>, intent: Intent, m: RuleMatch)
    requires WellNamed(gateways, routes) && m in FoundRules(gateways, routes, intent)
    ensures (exists p :: p in FoundPaths(gateways, routes, intent) && SameRule(p, m)) <==>
            exists b :: 0 <= b < |m.rule.backendRefs| && m.rule.backendRefs[b].Some? &&
                        m.rule.backendRefs[b].value.name != "" &&
                        (m.rule.backendRefs[b].value.weight.None? || m.rule.backendRefs[b].value.weight.value != 0)
  {
    RuleYieldsPathIffLive(gateways, routes, intent, m);
    forall b | 0 <= b < |m.rule.backendRefs|
      ensures Live(m.rule.backendRefs[b]) <==>
              m.rule.backendRefs[b].Some? && m.rule.backendRefs[b].value.name != "" &&
              (m.rule.backendRefs[b].value.weight.None? || m.rule.backendRefs[b].value.weight.value != 0)
    {
    }
  }

  /** What a path shows of its backend: an absent weight is 1, an absent port 0, an absent namespace the route's. */
  lemma PathShows(gateways: seq<Gateway>, routes: seq<Route>, intent: Intent, p: PathMatch)
    requires p in FoundPaths(gateways, routes, intent)
    ensures exists m, b: nat :: m in FoundRules(gateways, routes, intent) && SameRule(p, m) &&
              b < |m.rule.backendRefs| && Shows(p, m, b)
  {
    var s, b := PathOrigin(gateways, routes, intent, p);
    SiteIsReported(gateways, routes, intent, s);
    assert Shows(p, ToRuleMatch(JudgeFor(WithPath(intent)))(s), b);
  }

  predicate Shows(p: PathMatch, m: RuleMatch, b: nat)
    requires b < |m.rule.backendRefs|
  {
    && p.backendNumber == b + 1 && m.rule.backendRefs[b].Some?
    && var ref := m.rule.backendRefs[b].value;
       && p.backendName == ref.name
       && p.backendNamespace == (if ref.namespace == "" then m.routeNamespace else ref.namespace)
       && p.backendPort == (match ref.port case Some(port) => port case None => 0)
       && p.backendWeight == (match ref.weight case Some(weight) => weight case None => 1)
  }
}
