/** The order in which found rules and paths are reported, by numbers instead of texts. */
module ReportOrder {
  import opened Text
  import opened Sorting
  import opened Gateway
  import opened RulePrecedence
  import opened RouteSelection
  import opened RouteWinners
  import PathPrefix

  lemma PaddedReads(n: nat)
    requires n < 1000
    ensures Padded(n, 3) == [Digit(n / 100), Digit(n / 10 % 10), Digit(n % 10)]
  {
    if n < 10 {
      assert Decimal(n) == [Digit(n)];
    } else if n < 100 {
      assert Decimal(n) == [Digit(n / 10), Digit(n % 10)];
    } else {
      assert Decimal(n / 10) == [Digit(n / 100), Digit(n / 10 % 10)];
    }
  }

  lemma HigherDigit(a: nat, b: nat)
    requires a < b < 1000
    ensures a / 100 <= b / 100
    ensures a / 100 == b / 100 ==> a / 10 % 10 <= b / 10 % 10
    ensures a / 100 == b / 100 && a / 10 % 10 == b / 10 % 10 ==> a % 10 < b % 10
  {
  }

  lemma DigitsAscend(x: seq<nat>, y: seq<nat>, k: nat)
    requires |x| == |y| == 3 && k < 3 && (forall i :: 0 <= i < 3 ==> x[i] < 10 && y[i] < 10)
    requires (forall i :: 0 <= i < k ==> x[i] == y[i]) && x[k] < y[k]
    ensures SmallerAt([Digit(x[0]), Digit(x[1]), Digit(x[2])], [Digit(y[0]), Digit(y[1]), Digit(y[2])], k)
  {
  }

  /** Padding makes the order of the texts that of the numbers, up to 999. */
  lemma PaddedAscends(a: nat, b: nat) returns (k: nat)
    requires a < b < 1000
    ensures SmallerAt(Padded(a, 3), Padded(b, 3), k)
  {
    PaddedReads(a);
    PaddedReads(b);
    HigherDigit(a, b);
    k := if a / 100 < b / 100 then 0 else if a / 10 % 10 < b / 10 % 10 then 1 else 2;
    DigitsAscend([a / 100, a / 10 % 10, a % 10], [b / 100, b / 10 % 10, b % 10], k);
  }

  lemma SmallerInside(p: string, x: string, y: string, r: string, t: string, k: nat)
    requires SmallerAt(x, y, k)
    ensures LexLess(p + (x + r), p + (y + t))
  {
    var left, right := p + (x + r), p + (y + t);
    assert left[..|p| + k] == p + x[..k] && right[..|p| + k] == p + y[..k];
    assert SmallerAt(left, right, |p| + k);
    LexLessReads(left, right);
  }

  /** Of two numbers behind the same text, the smaller one sorts first, whatever follows. */
  lemma NumbersAscend(p: string, a: nat, b: nat, r: string, t: string)
    requires a < b < 1000
    ensures LexLess(p + (Padded(a, 3) + r), p + (Padded(b, 3) + t))
  {
    var k := PaddedAscends(a, b);
    SmallerInside(p, Padded(a, 3), Padded(b, 3), r, t, k);
  }

  // ----- Rules -----------------------------------------------------------------------------

  predicate SameRoute(a: RuleMatch, b: RuleMatch) {
    && a.gatewayNamespace == b.gatewayNamespace && a.gatewayName == b.gatewayName && a.listener == b.listener
    && a.routeNamespace == b.routeNamespace && a.routeName == b.routeName
  }

  function RuleHead(m: RuleMatch): string {
    Join([m.gatewayNamespace, m.gatewayName, m.listener, m.routeNamespace, m.routeName], "/") + "/"
  }

  lemma RuleTextReads(m: RuleMatch)
    ensures RuleText(m) == RuleHead(m) + (Padded(m.ruleNumber, 3) + "")
  {
    var names, rule := [m.gatewayNamespace, m.gatewayName, m.listener, m.routeNamespace, m.routeName], [Padded(m.ruleNumber, 3)];
    assert names + rule ==
           [m.gatewayNamespace, m.gatewayName, m.listener, m.routeNamespace, m.routeName, Padded(m.ruleNumber, 3)];
    PathPrefix.JoinAcross(names, rule);
    assert rule[0] + "" == rule[0];
  }

  /** Main result: of one route at one listener, the found rules come in the order of their numbers, up to 999. */
  lemma RulesAscend(gateways: seq<Gateway>, routes: seq<Route>, intent: Intent, i: nat, j: nat)
    requires i < j < |FoundRules(gateways, routes, intent)|
    ensures var a, b := FoundRules(gateways, routes, intent)[i], FoundRules(gateways, routes, intent)[j];
            SameRoute(a, b) && a.ruleNumber < 1000 ==> a.ruleNumber <= b.ruleNumber
  {
    var found := Map(ToRuleMatch(JudgeFor(WithPath(intent))), AllSites(gateways, routes, intent));
    var a, b := FoundRules(gateways, routes, intent)[i], FoundRules(gateways, routes, intent)[j];
    TextIsOrder(found);
    SortSorts(TextLess, found);
    if SameRoute(a, b) && b.ruleNumber < a.ruleNumber < 1000 {
      RuleTextReads(a);
      RuleTextReads(b);
      NumbersAscend(RuleHead(a), b.ruleNumber, a.ruleNumber, "", "");
      assert false;
    }
  }

  // ----- Paths -----------------------------------------------------------------------------

  function PathHead(m: PathMatch): string {
    Join([m.gatewayNamespace, m.gatewayName, m.listener, m.routeNamespace, m.routeName], "/") + "/"
  }

  predicate OnOneRoute(a: PathMatch, b: PathMatch) {
    && a.gatewayNamespace == b.gatewayNamespace && a.gatewayName == b.gatewayName && a.listener == b.listener
    && a.routeNamespace == b.routeNamespace && a.routeName == b.routeName
  }

  function PathTail(m: PathMatch): string {
    "/" + Join([m.backendNamespace, m.backendName, Padded(m.backendPort, 5)], "/")
  }

  function RuleTail(m: PathMatch): string {
    "/" + (Padded(m.backendNumber, 3) + PathTail(m))
  }

  lemma PathTextReads(m: PathMatch)
    ensures PathText(m) == PathHead(m) + (Padded(m.ruleNumber, 3) + RuleTail(m))
  {
    var names := [m.gatewayNamespace, m.gatewayName, m.listener, m.routeNamespace, m.routeName];
    var rule, number := [Padded(m.ruleNumber, 3)], [Padded(m.backendNumber, 3)];
    var backend := [m.backendNamespace, m.backendName, Padded(m.backendPort, 5)];
    assert names + (rule + (number + backend)) ==
           [m.gatewayNamespace, m.gatewayName, m.listener, m.routeNamespace, m.routeName, Padded(m.ruleNumber, 3),
            Padded(m.backendNumber, 3), m.backendNamespace, m.backendName, Padded(m.backendPort, 5)];
    PathPrefix.JoinAcross(names, rule + (number + backend));
    PathPrefix.JoinAcross(rule, number + backend);
    PathPrefix.JoinAcross(number, backend);
    Regroup(Join(names, "/"), rule[0], number[0], Join(backend, "/"));
  }

  lemma Regroup(a: string, b: string, c: string, d: string)
    ensures a + "/" + (b + "/" + (c + "/" + d)) == (a + "/") + (b + ("/" + (c + ("/" + d))))
  {
  }

  lemma PathTextIsOrder(ps: seq<PathMatch>)
    ensures WeakOrderOn(PathTextLess, ps)
  {
    forall a, b | a in ps && b in ps && PathTextLess(a, b) ensures !PathTextLess(b, a) {
      LexLessTotal(PathText(a), PathText(b));
    }
    forall a, b, c | a in ps && b in ps && c in ps && !PathTextLess(a, b) && !PathTextLess(b, c)
      ensures !PathTextLess(a, c)
    {
      var x, y, z := PathText(a), PathText(b), PathText(c);
      LexLessTotal(x, y);
      LexLessTotal(y, z);
      LexLessTotal(x, z);
      if x != y && y != z {
        LexLessTransitive(z, y, x);
      }
    }
  }

  lemma SmallerRuleFirst(a: PathMatch, b: PathMatch)
    requires OnOneRoute(a, b) && b.ruleNumber < a.ruleNumber < 1000
    ensures PathTextLess(b, a)
  {
    PathTextReads(a);
    PathTextReads(b);
    NumbersAscend(PathHead(a), b.ruleNumber, a.ruleNumber, RuleTail(b), RuleTail(a));
  }

  lemma SmallerBackendFirst(a: PathMatch, b: PathMatch)
    requires OnOneRoute(a, b) && a.ruleNumber == b.ruleNumber && b.backendNumber < a.backendNumber < 1000
    ensures PathTextLess(b, a)
  {
    PathTextReads(a);
    PathTextReads(b);
    var before := PathHead(a) + Padded(a.ruleNumber, 3) + "/";
    Uncover(PathHead(a), Padded(a.ruleNumber, 3), Padded(a.backendNumber, 3) + PathTail(a));
    Uncover(PathHead(a), Padded(a.ruleNumber, 3), Padded(b.backendNumber, 3) + PathTail(b));
    NumbersAscend(before, b.backendNumber, a.backendNumber, PathTail(b), PathTail(a));
  }

  lemma Uncover(a: string, b: string, c: string)
    ensures a + (b + ("/" + c)) == (a + b + "/") + c
  {
  }

  /** Main result: of one route at one listener, the paths come by rule and then by backendRef, up to 999 of each. */
  lemma PathsAscend(gateways: seq<Gateway>, routes: seq<Route>, intent: Intent, i: nat, j: nat)
    requires i < j < |FoundPaths(gateways, routes, intent)|
    ensures var a, b := FoundPaths(gateways, routes, intent)[i], FoundPaths(gateways, routes, intent)[j];
            OnOneRoute(a, b) && a.ruleNumber < 1000 && a.backendNumber < 1000 ==>
              a.ruleNumber < b.ruleNumber || (a.ruleNumber == b.ruleNumber && a.backendNumber <= b.backendNumber)
  {
    var found := AllPaths(AllSites(gateways, routes, intent));
    var a, b := FoundPaths(gateways, routes, intent)[i], FoundPaths(gateways, routes, intent)[j];
    PathTextIsOrder(found);
    SortSorts(PathTextLess, found);
    if OnOneRoute(a, b) && b.ruleNumber < a.ruleNumber < 1000 {
      SmallerRuleFirst(a, b);
    }
    if OnOneRoute(a, b) && a.ruleNumber == b.ruleNumber && b.backendNumber < a.backendNumber < 1000 {
      SmallerBackendFirst(a, b);
    }
  }

  /** Beyond that the texts go by their first digit. */
  lemma FourDigitsSortFirst()
    ensures LexLess(Padded(1000, 3), Padded(999, 3))
  {
    PaddedReads(999);
    assert Decimal(10) == ['1', '0'];
    assert Decimal(100) == ['1', '0', '0'];
    assert Decimal(1000) == ['1', '0', '0', '0'];
  }
}
