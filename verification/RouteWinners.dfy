/** One winner per listener, and the backend paths that survive it (internal/check/gateway.go). */
module RouteWinners {
  import opened Text
  import opened Sorting
  import opened Gateway
  import opened RulePrecedence
  import opened RouteSelection

  // ----- Keys ------------------------------------------------------------------------------

  function ListenerKey(gatewayNamespace: string, gatewayName: string, listener: string): string {
    gatewayNamespace + "/" + gatewayName + "/" + listener
  }

  function GroupKey(m: RuleMatch): string {
    ListenerKey(m.gatewayNamespace, m.gatewayName, m.listener)
  }

  /** gatewayRuleKey. */
  function RuleKey(gatewayNamespace: string, gatewayName: string, listener: string,
                   routeNamespace: string, routeName: string, ruleNumber: nat): string {
    Join([gatewayNamespace, gatewayName, listener, routeNamespace, routeName, Decimal(ruleNumber)], "/")
  }

  function KeyOfRule(m: RuleMatch): string {
    RuleKey(m.gatewayNamespace, m.gatewayName, m.listener, m.routeNamespace, m.routeName, m.ruleNumber)
  }

  function KeyOfPath(p: PathMatch): string {
    RuleKey(p.gatewayNamespace, p.gatewayName, p.listener, p.routeNamespace, p.routeName, p.ruleNumber)
  }

  predicate SlashFree(names: seq<string>) {
    forall name :: name in names ==> '/' !in name
  }

  predicate PlainRule(m: RuleMatch) {
    SlashFree([m.gatewayNamespace, m.gatewayName, m.listener, m.routeNamespace, m.routeName])
  }

  predicate PlainPath(p: PathMatch) {
    SlashFree([p.gatewayNamespace, p.gatewayName, p.listener, p.routeNamespace, p.routeName])
  }

  /** The path runs through the rule. */
  predicate SameRule(p: PathMatch, m: RuleMatch) {
    && p.gatewayNamespace == m.gatewayNamespace && p.gatewayName == m.gatewayName && p.listener == m.listener
    && p.routeNamespace == m.routeNamespace && p.routeName == m.routeName && p.ruleNumber == m.ruleNumber
  }

  lemma DigitsHaveNoSlash(n: nat)
    ensures '/' !in Decimal(n)
  {
    DecimalDigits(n);
  }

  lemma JoinInjective(a: seq<string>, b: seq<string>)
    requires |a| >= 1 && |b| >= 1 && SlashFree(a) && SlashFree(b) && Join(a, "/") == Join(b, "/")
    ensures a == b
  {
    SplitJoin(a, '/');
    SplitJoin(b, '/');
  }

  function RulePieces(m: RuleMatch): seq<string> {
    [m.gatewayNamespace, m.gatewayName, m.listener, m.routeNamespace, m.routeName, Decimal(m.ruleNumber)]
  }

  function PathPieces(p: PathMatch): seq<string> {
    [p.gatewayNamespace, p.gatewayName, p.listener, p.routeNamespace, p.routeName, Decimal(p.ruleNumber)]
  }

  /** Equal keys mean the same rule. */
  lemma KeyMeansSameRule(p: PathMatch, m: RuleMatch)
    requires PlainPath(p) && PlainRule(m)
    ensures KeyOfPath(p) == KeyOfRule(m) <==> SameRule(p, m)
  {
    if KeyOfPath(p) == KeyOfRule(m) {
      DigitsHaveNoSlash(p.ruleNumber);
      DigitsHaveNoSlash(m.ruleNumber);
      var a, b := PathPieces(p), RulePieces(m);
      assert SlashFree(a) by {
        assert a == [p.gatewayNamespace, p.gatewayName, p.listener, p.routeNamespace, p.routeName] + [Decimal(p.ruleNumber)];
      }
      assert SlashFree(b) by {
        assert b == [m.gatewayNamespace, m.gatewayName, m.listener, m.routeNamespace, m.routeName] + [Decimal(m.ruleNumber)];
      }
      JoinInjective(a, b);
      assert a[0] == b[0] && a[1] == b[1] && a[2] == b[2] && a[3] == b[3] && a[4] == b[4] && a[5] == b[5];
      DecimalInjective(p.ruleNumber, m.ruleNumber);
    }
  }

  lemma ListenerKeyIsJoin(a: string, b: string, c: string)
    ensures ListenerKey(a, b, c) == Join([a, b, c], "/")
  {
    assert [a, b, c][..2] == [a, b] && [a, b][..1] == [a];
    assert Join([a], "/") == a && Join([a, b], "/") == a + "/" + b;
  }

  lemma ListenerKeyInjective(a: string, b: string, c: string, x: string, y: string, z: string)
    requires SlashFree([a, b, c]) && SlashFree([x, y, z]) && ListenerKey(a, b, c) == ListenerKey(x, y, z)
    ensures a == x && b == y && c == z
  {
    ListenerKeyIsJoin(a, b, c);
    ListenerKeyIsJoin(x, y, z);
    JoinInjective([a, b, c], [x, y, z]);
    assert [a, b, c][0] == [x, y, z][0] && [a, b, c][1] == [x, y, z][1] && [a, b, c][2] == [x, y, z][2];
  }

  // ----- The winner of a listener ----------------------------------------------------------

  function InGroup(key: string): RuleMatch -> bool {
    (m: RuleMatch) => GroupKey(m) == key
  }

  function Group(ms: seq<RuleMatch>, key: string): seq<RuleMatch> {
    Filter(InGroup(key), ms)
  }

  const NOTHING := RuleMatch("", "", "", "", "", "", 0, RouteRule([], []), None, NO_SCORE)

  /** The first rule of a listener's group after sorting by precedence. */
  function Winner(ms: seq<RuleMatch>, key: string): RuleMatch {
    var sorted := SortBy(PrecedenceLess, Group(ms, key));
    if sorted == [] then NOTHING else sorted[0]
  }

  function WinnerFor(ms: seq<RuleMatch>): string -> RuleMatch {
    (key: string) => Winner(ms, key)
  }

  function GroupKeys(ms: seq<RuleMatch>): set<string> {
    set m | m in ms :: GroupKey(m)
  }

  /** Two entries for one rule of one listener are the same entry, and one route has one creation time. */
  ghost predicate Consistent(ms: seq<RuleMatch>) {
    && OneCreationTime(ms)
    && forall a, b ::
         (a in ms && b in ms && GroupKey(a) == GroupKey(b) && RouteText(a) == RouteText(b) && a.ruleNumber == b.ruleNumber)
         ==> a == b
  }

  lemma PrecedenceIsOrder(ms: seq<RuleMatch>)
    requires OneCreationTime(ms)
    ensures WeakOrderOn(PrecedenceLess, ms)
  {
    forall a, b | a in ms && b in ms && PrecedenceLess(a, b) ensures !PrecedenceLess(b, a) {
      PrecedenceAsymmetric(a, b);
    }
    forall a, b, c | a in ms && b in ms && c in ms && !PrecedenceLess(a, b) && !PrecedenceLess(b, c)
      ensures !PrecedenceLess(a, c)
    {
      NotLessTransitive(a, b, c);
    }
  }

  lemma NotLessTransitive(a: RuleMatch, b: RuleMatch, c: RuleMatch)
    requires Coherent(a, b) && Coherent(b, c) && Coherent(a, c)
    requires !PrecedenceLess(a, b) && !PrecedenceLess(b, c)
    ensures !PrecedenceLess(a, c)
  {
    PrecedenceTotal(a, b);
    PrecedenceTotal(b, c);
    PrecedenceAsymmetric(a, c);
    if PrecedenceLess(b, a) && PrecedenceLess(c, b) {
      PrecedenceTransitive(c, b, a);
    }
  }

  /** Main result: the winner of a listener with a match is one of its matches and precedes every
      other one; no two entries tie. */
  lemma WinnerIsUniqueLeast(ms: seq<RuleMatch>, key: string)
    requires Consistent(ms) && key in GroupKeys(ms)
    ensures Winner(ms, key) in ms && GroupKey(Winner(ms, key)) == key
    ensures forall m :: m in ms && GroupKey(m) == key && m != Winner(ms, key) ==>
              PrecedenceLess(Winner(ms, key), m) && !PrecedenceLess(m, Winner(ms, key))
  {
    var group := Group(ms, key);
    FilterMembers(InGroup(key), ms);
    var some :| some in ms && GroupKey(some) == key;
    assert some in group;
    PrecedenceIsOrder(group);
    SortHead(PrecedenceLess, group);
    LeastIsLeast(PrecedenceLess, group);
    var w := Winner(ms, key);
    forall m | m in ms && GroupKey(m) == key && m != w
      ensures PrecedenceLess(w, m) && !PrecedenceLess(m, w)
    {
      PrecedenceTotal(w, m);
      assert m in group;
    }
  }

  lemma {:induction false} FilterPermutes<T>(keep: T -> bool, s: seq<T>, t: seq<T>)
    requires multiset(s) == multiset(t)
    ensures multiset(Filter(keep, s)) == multiset(Filter(keep, t))
  {
    assert |multiset(s)| == |s| && |multiset(t)| == |t|;
    if s != [] {
      WithoutMultiset(s, 0);
      var j := IndexIn(t, s[0]);
      WithoutMultiset(t, j);
      FilterPermutes(keep, Without(s, 0), Without(t, j));
      FilterWithout(keep, s, 0);
      FilterWithout(keep, t, j);
    }
  }

  lemma FilterWithout<T>(keep: T -> bool, s: seq<T>, i: nat)
    requires i < |s|
    ensures multiset(Filter(keep, s)) ==
            multiset(Filter(keep, Without(s, i))) + (if keep(s[i]) then multiset{s[i]} else multiset{})
  {
    AroundAt(s, i);
    FilterMiddle(keep, s[..i], s[i], s[i + 1..]);
  }

  lemma AroundAt<T>(s: seq<T>, i: nat)
    requires i < |s|
    ensures s == s[..i] + [s[i]] + s[i + 1..]
  {
  }

  lemma FilterMiddle<T>(keep: T -> bool, a: seq<T>, x: T, b: seq<T>)
    ensures multiset(Filter(keep, a + [x] + b)) ==
            multiset(Filter(keep, a + b)) + (if keep(x) then multiset{x} else multiset{})
  {
    FilterAppend(keep, a, b);
    FilterAppend(keep, a + [x], b);
    assert (a + [x])[..|a|] == a;
  }

  /** Main result: the winner does not depend on the order of the matches. */
  lemma WinnerIgnoresOrder(ms: seq<RuleMatch>, others: seq<RuleMatch>, key: string)
    requires Consistent(ms) && multiset(ms) == multiset(others)
    ensures Winner(ms, key) == Winner(others, key)
  {
    var group := Group(ms, key);
    FilterPermutes(InGroup(key), ms, others);
    FilterMembers(InGroup(key), ms);
    PrecedenceIsOrder(group);
    assert TotalOn(PrecedenceLess, group) by {
      forall a, b | a in group && b in group && a != b ensures PrecedenceLess(a, b) || PrecedenceLess(b, a) {
        PrecedenceTotal(a, b);
      }
    }
    SortUnique(PrecedenceLess, group, Group(others, key));
  }

  // ----- Selecting the winners -------------------------------------------------------------

  /** The grouping loop of gatewaySelectPrecedenceRules. */
  method GroupByListener(ms: seq<RuleMatch>) returns (groups: map<string, seq<RuleMatch>>)
    ensures groups.Keys == GroupKeys(ms)
    ensures forall key :: key in groups ==> groups[key] == Group(ms, key)
  {
    groups := map[];
    for k := 0 to |ms|
      invariant groups.Keys == GroupKeys(ms[..k])
      invariant forall key :: key in groups ==> groups[key] == Group(ms[..k], key)
    {
      var key := GroupKey(ms[k]);
      assert ms[..k + 1] == ms[..k] + [ms[k]];
      assert (ms[..k] + [ms[k]])[..k] == ms[..k];
      if Group(ms[..k], key) != [] {
        GroupHasKey(ms[..k], key);
      }
      groups := groups[key := (if key in groups then groups[key] else []) + [ms[k]]];
    }
    assert ms[..|ms|] == ms;
  }

  lemma GroupHasKey(ms: seq<RuleMatch>, key: string)
    requires Group(ms, key) != []
    ensures key in GroupKeys(ms)
  {
    FilterMembers(InGroup(key), ms);
    assert Group(ms, key)[0] in Group(ms, key);
  }

  /** gatewaySelectPrecedenceRules: the groups are visited in the map's iteration order. */
  method SelectPrecedenceRules(ms: seq<RuleMatch>) returns (selected: seq<RuleMatch>, ghost keys: seq<string>)
    ensures Enumerates(keys, GroupKeys(ms))
    ensures selected == SortBy(TextLess, Map(WinnerFor(ms), keys))
    ensures forall w :: w in selected <==> exists key :: key in GroupKeys(ms) && w == Winner(ms, key)
  {
    selected, keys := [], [];
    if |ms| == 0 {
      return;
    }
    var groups := GroupByListener(ms);
    selected, keys := PickWinners(ms, groups);
    selected := SortBy(TextLess, selected);
    forall w ensures w in selected <==> exists key :: key in GroupKeys(ms) && w == Winner(ms, key) {
      SelectionMembers(ms, keys, w);
    }
  }

  /** The loop over the groups map. */
  method PickWinners(ghost ms: seq<RuleMatch>, groups: map<string, seq<RuleMatch>>)
    returns (selected: seq<RuleMatch>, ghost keys: seq<string>)
    requires groups.Keys == GroupKeys(ms)
    requires forall key :: key in groups ==> groups[key] == Group(ms, key)
    ensures Enumerates(keys, GroupKeys(ms))
    ensures selected == Map(WinnerFor(ms), keys)
  {
    selected, keys := [], [];
    var remaining := groups.Keys;
    while remaining != {}
      invariant remaining <= groups.Keys
      invariant Enumerates(keys, groups.Keys - remaining)
      invariant selected == Map(WinnerFor(ms), keys)
      decreases |remaining|
    {
      var key :| key in remaining;
      GroupNotEmpty(ms, key);
      EnumeratesMore(keys, groups.Keys, remaining, key);
      MapAppend(WinnerFor(ms), keys, [key]);
      var group := SortBy(PrecedenceLess, groups[key]);
      selected := selected + [group[0]];
      keys := keys + [key];
      remaining := remaining - {key};
    }
  }

  lemma GroupNotEmpty(ms: seq<RuleMatch>, key: string)
    requires key in GroupKeys(ms)
    ensures |SortBy(PrecedenceLess, Group(ms, key))| > 0
    ensures Map(WinnerFor(ms), [key]) == [SortBy(PrecedenceLess, Group(ms, key))[0]]
  {
    var some :| some in ms && GroupKey(some) == key;
    FilterMembers(InGroup(key), ms);
    assert some in Group(ms, key);
    SortPermutes(PrecedenceLess, Group(ms, key));
  }

  /** The selection holds the winner of every listener with a match, and nothing else. */
  lemma SelectionMembers(ms: seq<RuleMatch>, keys: seq<string>, w: RuleMatch)
    requires Enumerates(keys, GroupKeys(ms))
    ensures w in SortBy(TextLess, Map(WinnerFor(ms), keys)) <==>
            exists key :: key in GroupKeys(ms) && w == Winner(ms, key)
  {
    SortPermutes(TextLess, Map(WinnerFor(ms), keys));
    if key :| key in GroupKeys(ms) && w == Winner(ms, key) {
      WinnerIsMapped(ms, keys, key);
    }
    if w in Map(WinnerFor(ms), keys) {
      var key := MappedIsWinner(ms, keys, w);
    }
  }

  lemma WinnerIsMapped(ms: seq<RuleMatch>, keys: seq<string>, key: string)
    requires key in keys
    ensures Winner(ms, key) in Map(WinnerFor(ms), keys)
  {
    var i :| 0 <= i < |keys| && keys[i] == key;
    assert Map(WinnerFor(ms), keys)[i] == Winner(ms, key);
  }

  lemma MappedIsWinner(ms: seq<RuleMatch>, keys: seq<string>, w: RuleMatch) returns (key: string)
    requires w in Map(WinnerFor(ms), keys)
    ensures key in keys && w == Winner(ms, key)
  {
    var i :| 0 <= i < |keys| && Map(WinnerFor(ms), keys)[i] == w;
    key := keys[i];
  }

  lemma TextIsOrder(ms: seq<RuleMatch>)
    ensures WeakOrderOn(TextLess, ms)
  {
    forall a, b | a in ms && b in ms && TextLess(a, b) ensures !TextLess(b, a) {
      LexLessTotal(RuleText(a), RuleText(b));
    }
    forall a, b, c | a in ms && b in ms && c in ms && !TextLess(a, b) && !TextLess(b, c) ensures !TextLess(a, c) {
      var x, y, z := RuleText(a), RuleText(b), RuleText(c);
      LexLessTotal(x, y);
      LexLessTotal(y, z);
      LexLessTotal(x, z);
      if x != y && y != z {
        LexLessTransitive(z, y, x);
      }
    }
  }

  lemma PaddedHasNoSlash(n: nat, width: nat)
    ensures '/' !in Padded(n, width)
  {
    DigitsHaveNoSlash(n);
  }

  /** The listener can be read off the sort text. */
  lemma TextTellsGroup(a: RuleMatch, b: RuleMatch)
    requires PlainRule(a) && PlainRule(b) && RuleText(a) == RuleText(b)
    ensures GroupKey(a) == GroupKey(b)
  {
    var x, y := TextPieces(a), TextPieces(b);
    PaddedHasNoSlash(a.ruleNumber, 3);
    PaddedHasNoSlash(b.ruleNumber, 3);
    assert SlashFree(x) by {
      assert x == [a.gatewayNamespace, a.gatewayName, a.listener, a.routeNamespace, a.routeName] + [Padded(a.ruleNumber, 3)];
    }
    assert SlashFree(y) by {
      assert y == [b.gatewayNamespace, b.gatewayName, b.listener, b.routeNamespace, b.routeName] + [Padded(b.ruleNumber, 3)];
    }
    JoinInjective(x, y);
    assert x[0] == y[0] && x[1] == y[1] && x[2] == y[2];
  }

  function TextPieces(m: RuleMatch): seq<string> {
    [m.gatewayNamespace, m.gatewayName, m.listener, m.routeNamespace, m.routeName, Padded(m.ruleNumber, 3)]
  }

  /** Main result: neither the order of the matches nor the order in which the groups map is walked
      changes the selection. */
  lemma SelectionIgnoresOrder(ms: seq<RuleMatch>, others: seq<RuleMatch>, keys: seq<string>, order: seq<string>)
    requires Consistent(ms) && multiset(ms) == multiset(others) && forall m :: m in ms ==> PlainRule(m)
    requires Enumerates(keys, GroupKeys(ms)) && Enumerates(order, GroupKeys(others))
    ensures SortBy(TextLess, Map(WinnerFor(ms), keys)) == SortBy(TextLess, Map(WinnerFor(others), order))
  {
    assert forall m :: m in ms <==> m in multiset(ms);
    assert forall m :: m in others <==> m in multiset(others);
    assert GroupKeys(ms) == GroupKeys(others);
    SameElements(keys, order, GroupKeys(ms));
    var winners, others' := Map(WinnerFor(ms), keys), Map(WinnerFor(others), order);
    MapPermutes(WinnerFor(ms), keys, order);
    forall i | 0 <= i < |order| ensures Map(WinnerFor(ms), order)[i] == others'[i] {
      WinnerIgnoresOrder(ms, others, order[i]);
    }
    assert Map(WinnerFor(ms), order) == others';
    TextIsOrder(winners);
    assert TotalOn(TextLess, winners) by {
      forall a, b | a in winners && b in winners && a != b ensures TextLess(a, b) || TextLess(b, a) {
        WinnersDiffer(ms, keys, a, b);
        LexLessTotal(RuleText(a), RuleText(b));
      }
    }
    SortUnique(TextLess, winners, others');
  }

  lemma WinnersDiffer(ms: seq<RuleMatch>, keys: seq<string>, a: RuleMatch, b: RuleMatch)
    requires Consistent(ms) && (forall m :: m in ms ==> PlainRule(m)) && Enumerates(keys, GroupKeys(ms))
    requires a in Map(WinnerFor(ms), keys) && b in Map(WinnerFor(ms), keys) && a != b
    ensures RuleText(a) != RuleText(b)
  {
    var i :| 0 <= i < |keys| && a == Winner(ms, keys[i]);
    var j :| 0 <= j < |keys| && b == Winner(ms, keys[j]);
    assert keys[i] in GroupKeys(ms) && keys[j] in GroupKeys(ms);
    WinnerIsUniqueLeast(ms, keys[i]);
    WinnerIsUniqueLeast(ms, keys[j]);
    if RuleText(a) == RuleText(b) {
      TextTellsGroup(a, b);
    }
  }

  // ----- Filtering the paths ---------------------------------------------------------------

  function KeptBy(selected: seq<RuleMatch>): PathMatch -> bool {
    (p: PathMatch) => exists w :: w in selected && KeyOfRule(w) == KeyOfPath(p)
  }

  /** gatewayFilterMatchesToSelectedRules. */
  method FilterToSelected(paths: seq<PathMatch>, selected: seq<RuleMatch>) returns (kept: seq<PathMatch>)
    ensures kept == if selected == [] then paths else Filter(KeptBy(selected), paths)
  {
    if |paths| == 0 || |selected| == 0 {
      return paths;
    }
    var keep: set<string> := {};
    for k := 0 to |selected|
      invariant keep == set w | w in selected[..k] :: KeyOfRule(w)
    {
      assert selected[..k + 1] == selected[..k] + [selected[k]];
      keep := keep + {KeyOfRule(selected[k])};
    }
    assert selected[..|selected|] == selected;
    kept := [];
    for k := 0 to |paths|
      invariant kept == Filter(KeptBy(selected), paths[..k])
    {
      assert paths[..k + 1][..k] == paths[..k];
      if KeyOfPath(paths[k]) in keep {
        kept := kept + [paths[k]];
      }
    }
    assert paths[..|paths|] == paths;
  }

  // ----- What the cluster guarantees -------------------------------------------------------

  /** Names hold no slash, and a namespace and name identify one route. */
  ghost predicate WellNamed(gateways: seq<Gateway>, routes: seq<Route>) {
    && (forall g :: g in gateways ==> SlashFree([g.namespace, g.name]))
    && (forall g, l :: g in gateways && Some(l) in g.listeners ==> '/' !in l.name)
    && (forall r :: r in routes ==> SlashFree([r.namespace, r.name]))
    && (forall r, t :: r in routes && t in routes && r.namespace == t.namespace && r.name == t.name ==> r == t)
  }

  lemma RuleOrigin(gateways: seq<Gateway>, routes: seq<Route>, intent: Intent, m: RuleMatch) returns (s: Site)
    requires m in FoundRules(gateways, routes, intent)
    ensures s in AllSites(gateways, routes, intent) && m == ToRuleMatch(JudgeFor(WithPath(intent)))(s)
  {
    var sites := AllSites(gateways, routes, intent);
    var unsorted := Map(ToRuleMatch(JudgeFor(WithPath(intent))), sites);
    SortPermutes(TextLess, unsorted);
    var i :| 0 <= i < |unsorted| && unsorted[i] == m;
    s := sites[i];
  }

  lemma SiteIsReported(gateways: seq<Gateway>, routes: seq<Route>, intent: Intent, s: Site)
    requires s in AllSites(gateways, routes, intent)
    ensures ToRuleMatch(JudgeFor(WithPath(intent)))(s) in FoundRules(gateways, routes, intent)
  {
    var sites := AllSites(gateways, routes, intent);
    var unsorted := Map(ToRuleMatch(JudgeFor(WithPath(intent))), sites);
    SortPermutes(TextLess, unsorted);
    var i :| 0 <= i < |sites| && sites[i] == s;
    assert unsorted[i] in unsorted;
  }

  lemma FoundRuleIsPlain(gateways: seq<Gateway>, routes: seq<Route>, intent: Intent, m: RuleMatch)
    requires WellNamed(gateways, routes) && m in FoundRules(gateways, routes, intent)
    ensures PlainRule(m)
  {
    var s := RuleOrigin(gateways, routes, intent, m);
    SiteMembers(gateways, routes, intent, s);
    assert s.gateway.namespace in [s.gateway.namespace, s.gateway.name] && s.gateway.name in [s.gateway.namespace, s.gateway.name];
    assert s.route.namespace in [s.route.namespace, s.route.name] && s.route.name in [s.route.namespace, s.route.name];
  }

  lemma JoinOfTwo(a: string, b: string)
    ensures Join([a, b], "/") == a + "/" + b
  {
    assert [a, b][..1] == [a];
    assert Join([a], "/") == a;
  }

  lemma RouteTextInjective(a: RuleMatch, b: RuleMatch)
    requires PlainRule(a) && PlainRule(b) && RouteText(a) == RouteText(b)
    ensures a.routeNamespace == b.routeNamespace && a.routeName == b.routeName
  {
    var x, y := [a.routeNamespace, a.routeName], [b.routeNamespace, b.routeName];
    assert a.routeNamespace in [a.gatewayNamespace, a.gatewayName, a.listener, a.routeNamespace, a.routeName];
    assert a.routeName in [a.gatewayNamespace, a.gatewayName, a.listener, a.routeNamespace, a.routeName];
    assert b.routeNamespace in [b.gatewayNamespace, b.gatewayName, b.listener, b.routeNamespace, b.routeName];
    assert b.routeName in [b.gatewayNamespace, b.gatewayName, b.listener, b.routeNamespace, b.routeName];
    JoinOfTwo(a.routeNamespace, a.routeName);
    JoinOfTwo(b.routeNamespace, b.routeName);
    JoinInjective(x, y);
    assert x[0] == y[0] && x[1] == y[1];
  }

  /** Found matches are consistent: whatever the winner lemmas need holds of every request. */
  lemma FoundRulesAreConsistent(gateways: seq<Gateway>, routes: seq<Route>, intent: Intent)
    requires WellNamed(gateways, routes)
    ensures Consistent(FoundRules(gateways, routes, intent))
  {
    var ms := FoundRules(gateways, routes, intent);
    forall a, b | a in ms && b in ms && RouteText(a) == RouteText(b)
      ensures a.created == b.created
      ensures GroupKey(a) == GroupKey(b) && a.ruleNumber == b.ruleNumber ==> a == b
    {
      SameRouteText(gateways, routes, intent, a, b);
    }
  }

  lemma SameRouteText(gateways: seq<Gateway>, routes: seq<Route>, intent: Intent, a: RuleMatch, b: RuleMatch)
    requires WellNamed(gateways, routes)
    requires a in FoundRules(gateways, routes, intent) && b in FoundRules(gateways, routes, intent)
    requires RouteText(a) == RouteText(b)
    ensures a.created == b.created
    ensures GroupKey(a) == GroupKey(b) && a.ruleNumber == b.ruleNumber ==> a == b
  {
    var s := RuleOrigin(gateways, routes, intent, a);
    var t := RuleOrigin(gateways, routes, intent, b);
    SiteMembers(gateways, routes, intent, s);
    SiteMembers(gateways, routes, intent, t);
    FoundRuleIsPlain(gateways, routes, intent, a);
    FoundRuleIsPlain(gateways, routes, intent, b);
    RouteTextInjective(a, b);
    assert s.route == t.route;
    if GroupKey(a) == GroupKey(b) && a.ruleNumber == b.ruleNumber {
      PlainTriple(a);
      PlainTriple(b);
      ListenerKeyInjective(a.gatewayNamespace, a.gatewayName, a.listener, b.gatewayNamespace, b.gatewayName, b.listener);
    }
  }

  lemma PlainTriple(m: RuleMatch)
    requires PlainRule(m)
    ensures SlashFree([m.gatewayNamespace, m.gatewayName, m.listener])
  {
    var all := [m.gatewayNamespace, m.gatewayName, m.listener, m.routeNamespace, m.routeName];
    assert all[0] in all && all[1] in all && all[2] in all;
  }

  // ----- Paths and rules agree -------------------------------------------------------------

  lemma {:induction false} SitePathMembers(s: Site, n: nat, p: PathMatch)
    requires n <= |s.rule.backendRefs|
    ensures p in SitePaths(s, n) <==> exists b: nat :: b < n && Live(s.rule.backendRefs[b]) && p == PathAt(s, b)
  {
    if n > 0 {
      SitePathMembers(s, n - 1, p);
      if b: nat :| b < n && Live(s.rule.backendRefs[b]) && p == PathAt(s, b) {
        assert b < n - 1 || b == n - 1;
      }
    }
  }

  lemma {:induction false} PathMembers(sites: seq<Site>, p: PathMatch)
    ensures p in AllPaths(sites) <==>
            exists s, b: nat :: s in sites && b < |s.rule.backendRefs| && Live(s.rule.backendRefs[b]) && p == PathAt(s, b)
  {
    if sites != [] {
      var front, last := sites[..|sites| - 1], sites[|sites| - 1];
      LastSplit(sites);
      PathMembers(front, p);
      SitePathMembers(last, |last.rule.backendRefs|, p);
      if s, b: nat :| s in sites && b < |s.rule.backendRefs| && Live(s.rule.backendRefs[b]) && p == PathAt(s, b) {
        assert s in front || s == last;
      }
    }
  }

  lemma PathOrigin(gateways: seq<Gateway>, routes: seq<Route>, intent: Intent, p: PathMatch) returns (s: Site, b: nat)
    requires p in FoundPaths(gateways, routes, intent)
    ensures s in AllSites(gateways, routes, intent) && b < |s.rule.backendRefs|
    ensures Live(s.rule.backendRefs[b]) && p == PathAt(s, b)
  {
    var sites := AllSites(gateways, routes, intent);
    SortPermutes(PathTextLess, AllPaths(sites));
    PathMembers(sites, p);
    s, b :| s in sites && b < |s.rule.backendRefs| && Live(s.rule.backendRefs[b]) && p == PathAt(s, b);
  }

  /** Main result: every backend path found runs through a rule that is reported. */
  lemma PathsRunThroughRules(gateways: seq<Gateway>, routes: seq<Route>, intent: Intent, p: PathMatch)
    requires p in FoundPaths(gateways, routes, intent)
    ensures exists m :: m in FoundRules(gateways, routes, intent) && SameRule(p, m)
  {
    var s, b := PathOrigin(gateways, routes, intent, p);
    SiteIsReported(gateways, routes, intent, s);
    assert SameRule(p, ToRuleMatch(JudgeFor(WithPath(intent)))(s));
  }

  /** Main result: a reported rule yields a path exactly when one of its backendRefs has a name and a
      weight that is not zero. */
  lemma RuleYieldsPathIffLive(gateways: seq<Gateway>, routes: seq<Route>, intent: Intent, m: RuleMatch)
    requires WellNamed(gateways, routes) && m in FoundRules(gateways, routes, intent)
    ensures (exists p :: p in FoundPaths(gateways, routes, intent) && SameRule(p, m)) <==>
            (exists b :: 0 <= b < |m.rule.backendRefs| && Live(m.rule.backendRefs[b]))
  {
    if b: nat :| b < |m.rule.backendRefs| && Live(m.rule.backendRefs[b]) {
      LiveBackendYieldsPath(gateways, routes, intent, m, b);
    }
    if p :| p in FoundPaths(gateways, routes, intent) && SameRule(p, m) {
      var b := PathHasLiveBackend(gateways, routes, intent, m, p);
    }
  }

  lemma LiveBackendYieldsPath(gateways: seq<Gateway>, routes: seq<Route>, intent: Intent, m: RuleMatch, b: nat)
    requires m in FoundRules(gateways, routes, intent)
    requires b < |m.rule.backendRefs| && Live(m.rule.backendRefs[b])
    ensures exists p :: p in FoundPaths(gateways, routes, intent) && SameRule(p, m)
  {
    var s := RuleOrigin(gateways, routes, intent, m);
    SortPermutes(PathTextLess, AllPaths(AllSites(gateways, routes, intent)));
    PathMembers(AllSites(gateways, routes, intent), PathAt(s, b));
    assert SameRule(PathAt(s, b), m);
  }

  lemma PathHasLiveBackend(gateways: seq<Gateway>, routes: seq<Route>, intent: Intent, m: RuleMatch, p: PathMatch)
    returns (b: nat)
    requires WellNamed(gateways, routes) && m in FoundRules(gateways, routes, intent)
    requires p in FoundPaths(gateways, routes, intent) && SameRule(p, m)
    ensures b < |m.rule.backendRefs| && Live(m.rule.backendRefs[b])
  {
    var s := RuleOrigin(gateways, routes, intent, m);
    var t;
    t, b := PathOrigin(gateways, routes, intent, p);
    SitesShareRule(gateways, routes, intent, s, t);
  }

  lemma SitesShareRule(gateways: seq<Gateway>, routes: seq<Route>, intent: Intent, s: Site, t: Site)
    requires WellNamed(gateways, routes)
    requires s in AllSites(gateways, routes, intent) && t in AllSites(gateways, routes, intent)
    requires s.route.namespace == t.route.namespace && s.route.name == t.route.name && s.ruleIndex == t.ruleIndex
    ensures s.rule == t.rule
  {
    SiteMembers(gateways, routes, intent, s);
    SiteMembers(gateways, routes, intent, t);
    assert t.route == s.route;
  }

  /** gatewayFindCandidatePaths, gatewayFindRuleMatches, the selection and the filter, as
      scanGatewayTrafficIntent chains them.  A path survives exactly when its rule is the single
      winner of its listener, even when that winner has no backends. */
  method TracePaths(gateways: seq<Gateway>, routes: seq<Route>, intent: Intent) returns (paths: seq<PathMatch>)
    requires WellNamed(gateways, routes)
    ensures forall p :: p in paths <==>
              p in FoundPaths(gateways, routes, intent) &&
              SameRule(p, Winner(FoundRules(gateways, routes, intent),
                                 ListenerKey(p.gatewayNamespace, p.gatewayName, p.listener)))
  {
    var ruleMatches := FindRuleMatches(gateways, routes, intent);
    var matches := FindCandidatePaths(gateways, routes, intent);
    var selected, keys := SelectPrecedenceRules(ruleMatches);
    paths := FilterToSelected(matches, selected);
    forall p
      ensures p in paths <==>
              (p in matches &&
               SameRule(p, Winner(ruleMatches, ListenerKey(p.gatewayNamespace, p.gatewayName, p.listener))))
    {
      SurvivesIffWinner(gateways, routes, intent, keys, selected, p);
    }
  }

  lemma SurvivesIffWinner(gateways: seq<Gateway>, routes: seq<Route>, intent: Intent, keys: seq<string>,
                          selected: seq<RuleMatch>, p: PathMatch)
    requires WellNamed(gateways, routes)
    requires Enumerates(keys, GroupKeys(FoundRules(gateways, routes, intent)))
    requires selected == SortBy(TextLess, Map(WinnerFor(FoundRules(gateways, routes, intent)), keys))
    ensures var matches := FoundPaths(gateways, routes, intent);
            p in (if selected == [] then matches else Filter(KeptBy(selected), matches)) <==>
            p in matches && SameRule(p, Winner(FoundRules(gateways, routes, intent),
                                               ListenerKey(p.gatewayNamespace, p.gatewayName, p.listener)))
  {
    var rules, matches := FoundRules(gateways, routes, intent), FoundPaths(gateways, routes, intent);
    FilterMembers(KeptBy(selected), matches);
    if p in matches {
      PathsRunThroughRules(gateways, routes, intent, p);
      var m :| m in rules && SameRule(p, m);
      FoundRuleIsPlain(gateways, routes, intent, m);
      FoundRulesAreConsistent(gateways, routes, intent);
      var key := GroupKey(m);
      WinnerIsUniqueLeast(rules, key);
      SelectionMembers(rules, keys, Winner(rules, key));
      assert Winner(rules, key) in selected;
      if KeptBy(selected)(p) {
        var w :| w in selected && KeyOfRule(w) == KeyOfPath(p);
        SelectionMembers(rules, keys, w);
        var other :| other in GroupKeys(rules) && w == Winner(rules, other);
        WinnerIsUniqueLeast(rules, other);
        FoundRuleIsPlain(gateways, routes, intent, w);
        KeyMeansSameRule(p, w);
        assert key == other;
      }
    }
  }
}
