/** The precedence of matching rules (internal/check/gateway.go): a strict total order, and the winner
    per listener. */
module RulePrecedence {
  import opened Text
  import opened Sorting
  import opened Gateway
  import Hostnames

  // ----- Scores ----------------------------------------------------------------------------

  /** gatewayRulePrecedenceScore, in the order in which its fields are compared. */
  datatype Score = Score(hostNonWildcardChars: int, hostChars: int, pathRank: int, pathChars: int,
                         method_: int, headers: int, queryParams: int)

  const NO_SCORE := Score(0, 0, 0, 0, 0, 0, 0)

  function Values(s: Score): seq<int> {
    [s.hostNonWildcardChars, s.hostChars, s.pathRank, s.pathChars, s.method_, s.headers, s.queryParams]
  }

  /** 1, -1 or 0 at the first difference. */
  function CompareValues(left: seq<int>, right: seq<int>): int
    requires |left| == |right|
  {
    if left == [] then 0
    else if left[0] > right[0] then 1
    else if left[0] < right[0] then -1
    else CompareValues(left[1..], right[1..])
  }

  /** gatewayCompareRuleScore. */
  method CompareRuleScore(left: Score, right: Score) returns (cmp: int)
    ensures cmp == CompareScores(left, right)
  {
    var leftValues, rightValues := Values(left), Values(right);
    for i := 0 to |leftValues|
      invariant CompareScores(left, right) == CompareValues(leftValues[i..], rightValues[i..])
    {
      if leftValues[i] > rightValues[i] {
        return 1;
      }
      if leftValues[i] < rightValues[i] {
        return -1;
      }
    }
    return 0;
  }

  function CompareScores(left: Score, right: Score): int {
    CompareValues(Values(left), Values(right))
  }

  lemma {:induction false} CompareFlips(a: seq<int>, b: seq<int>)
    requires |a| == |b|
    ensures CompareValues(a, b) == -CompareValues(b, a) && -1 <= CompareValues(a, b) <= 1
    ensures CompareValues(a, b) == 0 <==> a == b
  {
    if a != [] {
      CompareFlips(a[1..], b[1..]);
      assert a == [a[0]] + a[1..] && b == [b[0]] + b[1..];
    }
  }

  lemma {:induction false} CompareTransitive(a: seq<int>, b: seq<int>, c: seq<int>)
    requires |a| == |b| == |c| && CompareValues(a, b) >= 0 && CompareValues(b, c) >= 0
    ensures CompareValues(a, c) >= 0
    ensures CompareValues(a, c) == 0 ==> CompareValues(a, b) == 0 && CompareValues(b, c) == 0
  {
    if a != [] && a[0] == b[0] == c[0] {
      CompareTransitive(a[1..], b[1..], c[1..]);
    }
  }

  /** Scores are compared like a total order. */
  lemma ScoreOrder(a: Score, b: Score, c: Score)
    ensures CompareScores(a, b) == -CompareScores(b, a) && -1 <= CompareScores(a, b) <= 1
    ensures CompareScores(a, b) == 0 <==> a == b
    ensures CompareScores(a, b) >= 0 && CompareScores(b, c) >= 0 ==> CompareScores(a, c) >= 0
    ensures CompareScores(a, b) >= 0 && CompareScores(b, c) >= 0 && CompareScores(a, c) == 0 ==> a == b == c
  {
    CompareFlips(Values(a), Values(b));
    CompareFlips(Values(b), Values(c));
    if CompareScores(a, b) >= 0 && CompareScores(b, c) >= 0 {
      CompareTransitive(Values(a), Values(b), Values(c));
    }
    assert Values(a) == Values(b) ==> a == b by {
      if Values(a) == Values(b) {
        assert forall i :: 0 <= i < 7 ==> Values(a)[i] == Values(b)[i];
      }
    }
    assert Values(b) == Values(c) ==> b == c by {
      if Values(b) == Values(c) {
        assert forall i :: 0 <= i < 7 ==> Values(b)[i] == Values(c)[i];
      }
    }
  }

  /** gatewayHostnamePrecedenceScore. */
  function HostnameScore(pattern: string): Score {
    var p := Hostnames.Normalize(pattern);
    if p == "" then NO_SCORE
    else if HasPrefix(p, "*.") then NO_SCORE.(hostNonWildcardChars := |p| - 2, hostChars := |p|)
    else NO_SCORE.(hostNonWildcardChars := |p|, hostChars := |p|)
  }

  /** gatewayRouteHostnamePrecedenceScore over the first `n` hostnames. */
  function BestHostnameScore(r: Route, host: string, n: nat): Score
    requires n <= |r.hostnames|
  {
    if n == 0 then NO_SCORE
    else
      var best := BestHostnameScore(r, host, n - 1);
      var raw := r.hostnames[n - 1];
      if raw.None? || !Hostnames.Matches(raw.value, host) then best
      else if CompareScores(HostnameScore(raw.value), best) > 0 then HostnameScore(raw.value)
      else best
  }

  /** gatewayHTTPMatchPrecedenceScore. */
  function HTTPScore(m: RouteMatch): Score {
    var rank, chars :=
      (if m.path.None? then 1
       else if m.path.value.kind == "Exact" then 2
       else if m.path.value.kind == "" || m.path.value.kind == "PathPrefix" then 1
       else 0),
      (if m.path.None? then 1
       else if m.path.value.kind in ["Exact", "", "PathPrefix", "RegularExpression"]
       then |DefaultString(m.path.value.value, "/")|
       else 0);
    NO_SCORE.(pathRank := rank, pathChars := chars, method_ := if TrimSpace(m.method_) != "" then 1 else 0,
              headers := |m.headers|, queryParams := |m.queryParams|)
  }

  /** gatewayGRPCMatchPrecedenceScore. */
  function GRPCScore(m: RouteMatch): Score {
    NO_SCORE.(pathChars := if m.grpc.Some? then |m.grpc.value.service| else 0,
              method_ := if m.grpc.Some? && m.grpc.value.method_ != "" then 1 else 0,
              headers := |m.headers|)
  }

  function MatchScore(kind: string, m: RouteMatch): Score {
    if FamilyOf(kind) == GRPC then GRPCScore(m) else HTTPScore(m)
  }

  /** The loops of gatewayBestHTTPMatchPrecedenceScore and its gRPC twin, over the first `n` matches. */
  function BestMatchScore(kind: string, rule: RouteRule, intent: Intent, n: nat): Option<Score>
    requires n <= |rule.matches|
  {
    if n == 0 then None
    else
      var best := BestMatchScore(kind, rule, intent, n - 1);
      var raw := rule.matches[n - 1];
      if raw.None? || !SingleMatch(kind, raw.value, intent) then best
      else if best.None? || CompareScores(MatchScore(kind, raw.value), best.value) > 0
      then Some(MatchScore(kind, raw.value))
      else best
  }

  /** gatewayBestRouteMatchPrecedenceScore. */
  function RuleScore(kind: string, rule: RouteRule, intent: Intent): Option<Score> {
    match FamilyOf(kind)
    case TLS => Some(NO_SCORE)
    case GRPC => if rule.matches == [] then Some(NO_SCORE) else BestMatchScore(kind, rule, intent, |rule.matches|)
    case HTTP => if rule.matches == [] then Some(NO_SCORE.(pathRank := 1, pathChars := 1))
                 else BestMatchScore(kind, rule, intent, |rule.matches|)
  }

  /** gatewayRulePrecedenceScoreForRoute. */
  function ScoreOf(r: Route, rule: RouteRule, intent: Intent): Score {
    var host := BestHostnameScore(r, intent.host, |r.hostnames|);
    var best := RuleScore(r.kind, rule, intent);
    if best.None? then host
    else best.value.(hostNonWildcardChars := host.hostNonWildcardChars, hostChars := host.hostChars)
  }

  lemma BetterOfTwo(a: Score, b: Score, top: Score)
    requires top == if CompareScores(a, b) > 0 then a else b
    ensures CompareScores(top, a) >= 0 && CompareScores(top, b) >= 0
  {
    ScoreOrder(a, b, b);
    ScoreOrder(a, a, a);
    ScoreOrder(b, b, b);
  }

  /** The best score is the highest among the matches the request satisfies. */
  lemma {:induction false} BestMatchIsHighest(kind: string, rule: RouteRule, intent: Intent, n: nat)
    requires n <= |rule.matches|
    ensures var best := BestMatchScore(kind, rule, intent, n);
            && (best.Some? <==> exists i :: 0 <= i < n && rule.matches[i].Some? && SingleMatch(kind, rule.matches[i].value, intent))
            && (forall i :: 0 <= i < n && rule.matches[i].Some? && SingleMatch(kind, rule.matches[i].value, intent) ==>
                  CompareScores(best.value, MatchScore(kind, rule.matches[i].value)) >= 0)
  {
    if n > 0 {
      BestMatchIsHighest(kind, rule, intent, n - 1);
      var best, raw := BestMatchScore(kind, rule, intent, n - 1), rule.matches[n - 1];
      if raw.Some? && SingleMatch(kind, raw.value, intent) {
        var score := MatchScore(kind, raw.value);
        var top := BestMatchScore(kind, rule, intent, n).value;
        if best.Some? {
          BetterOfTwo(score, best.value, top);
        } else {
          ScoreOrder(score, score, score);
        }
        forall i | 0 <= i < n && rule.matches[i].Some? && SingleMatch(kind, rule.matches[i].value, intent)
          ensures CompareScores(top, MatchScore(kind, rule.matches[i].value)) >= 0
        {
          if i < n - 1 {
            ScoreOrder(top, best.value, MatchScore(kind, rule.matches[i].value));
          }
        }
      }
    }
  }

  /** A rule the request matches always has a score. */
  lemma MatchedRuleHasScore(kind: string, rule: RouteRule, intent: Intent)
    requires RuleMatches(kind, rule, intent)
    ensures RuleScore(kind, rule, intent).Some?
  {
    BestMatchIsHighest(kind, rule, intent, |rule.matches|);
  }

  // ----- Found rules and paths -------------------------------------------------------------

  datatype RuleMatch = RuleMatch(gatewayNamespace: string, gatewayName: string, listener: string, kind: string,
                                 routeNamespace: string, routeName: string, ruleNumber: nat, rule: RouteRule,
                                 created: Option<int>, score: Score)

  datatype PathMatch = PathMatch(gatewayNamespace: string, gatewayName: string, listener: string, kind: string,
                                 routeNamespace: string, routeName: string, ruleNumber: nat, backendNumber: nat,
                                 backendNamespace: string, backendName: string, backendPort: int, backendWeight: int)

  /** %03d and %05d. */
  function Padded(n: int, width: nat): string {
    var digits := if n < 0 then "-" + Decimal(-n) else Decimal(n);
    seq((if |digits| < width then width - |digits| else 0), _ => '0') + digits
  }

  function RuleText(m: RuleMatch): string {
    Join([m.gatewayNamespace, m.gatewayName, m.listener, m.routeNamespace, m.routeName, Padded(m.ruleNumber, 3)], "/")
  }

  predicate TextLess(a: RuleMatch, b: RuleMatch) {
    LexLess(RuleText(a), RuleText(b))
  }

  /** gatewayPathMatchSortKey. */
  function PathText(m: PathMatch): string {
    Join([m.gatewayNamespace, m.gatewayName, m.listener, m.routeNamespace, m.routeName, Padded(m.ruleNumber, 3),
          Padded(m.backendNumber, 3), m.backendNamespace, m.backendName, Padded(m.backendPort, 5)], "/")
  }

  predicate PathTextLess(a: PathMatch, b: PathMatch) {
    LexLess(PathText(a), PathText(b))
  }

  function RouteText(m: RuleMatch): string {
    m.routeNamespace + "/" + m.routeName
  }

  // ----- Precedence ------------------------------------------------------------------------

  /** Older creation first, a missing time last; false when the times do not decide. */
  predicate Older(a: Option<int>, b: Option<int>) {
    a.Some? && (b.None? || a.value < b.value)
  }

  /** gatewayRulePrecedenceLess. */
  predicate PrecedenceLess(a: RuleMatch, b: RuleMatch) {
    if CompareScores(a.score, b.score) != 0 then CompareScores(a.score, b.score) > 0
    else if RouteText(a) != RouteText(b) then
      if a.created != b.created then Older(a.created, b.created)
      else LexLess(RouteText(a), RouteText(b))
    else a.ruleNumber < b.ruleNumber
  }

  /** One route has one creation time. */
  ghost predicate OneCreationTime(ms: seq<RuleMatch>) {
    forall a, b :: a in ms && b in ms && RouteText(a) == RouteText(b) ==> a.created == b.created
  }

  ghost predicate Coherent(a: RuleMatch, b: RuleMatch) {
    RouteText(a) == RouteText(b) ==> a.created == b.created
  }

  lemma PrecedenceAsymmetric(a: RuleMatch, b: RuleMatch)
    ensures !(PrecedenceLess(a, b) && PrecedenceLess(b, a))
    ensures !PrecedenceLess(a, a)
  {
    ScoreOrder(a.score, b.score, a.score);
    ScoreOrder(a.score, a.score, a.score);
    LexLessTotal(RouteText(a), RouteText(b));
  }

  /** Two rules of one listener are always ordered: only the same rule of the same route ties. */
  lemma PrecedenceTotal(a: RuleMatch, b: RuleMatch)
    ensures PrecedenceLess(a, b) || PrecedenceLess(b, a) ||
            (RouteText(a) == RouteText(b) && a.ruleNumber == b.ruleNumber && a.score == b.score)
  {
    ScoreOrder(a.score, b.score, a.score);
    LexLessTotal(RouteText(a), RouteText(b));
  }

  lemma PrecedenceTransitive(a: RuleMatch, b: RuleMatch, c: RuleMatch)
    requires Coherent(a, b) && Coherent(b, c) && Coherent(a, c)
    requires PrecedenceLess(a, b) && PrecedenceLess(b, c)
    ensures PrecedenceLess(a, c)
  {
    ScoreOrder(a.score, b.score, c.score);
    ScoreOrder(b.score, c.score, a.score);
    ScoreOrder(a.score, c.score, b.score);
    if a.score == b.score == c.score && LexLess(RouteText(a), RouteText(b)) && LexLess(RouteText(b), RouteText(c)) {
      LexLessTransitive(RouteText(a), RouteText(b), RouteText(c));
    }
    LexLessTotal(RouteText(a), RouteText(c));
    LexLessTotal(RouteText(a), RouteText(b));
    LexLessTotal(RouteText(b), RouteText(c));
  }
}
