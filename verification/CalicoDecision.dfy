/** The verdict of calicoDirectionDecision, and what it does not depend on. */
module CalicoDecision {
  import opened Text
  import opened Sorting
  import opened CalicoPolicy

  datatype Status = PASS | WARN | FAIL

  /** What a verdict rests on. */
  datatype Basis =
    | NothingSelects        // no policy selects this side of the path
    | ProfileFallback       // the workload profiles decide
    | Unresolved            // Pass with nothing behind it
    | Explicit(winner: Match)
    | DefaultDeny

  datatype Insight = Insight(status: Status, basis: Basis)

  /** The verdict for an outcome of the tier walk; `fallback` is the workload profiles' own verdict. */
  function Verdict(outcome: Outcome, fallback: Option<Status>): Insight {
    match outcome
    case NoMatch => Insight(FAIL, DefaultDeny)
    case Decided(m) =>
      if m.action == Deny then Insight(FAIL, Explicit(m))
      else if m.action == Allow then Insight(PASS, Explicit(m))
      else Insight(FAIL, DefaultDeny)
    case FellThrough(_) =>
      if fallback.Some? then Insight(fallback.value, ProfileFallback) else Insight(WARN, Unresolved)
  }

  /** The reference: walk the tiers over every matching rule. */
  function DirectionVerdict(policies: seq<Policy>, ctx: Context, fallback: Option<Status>): Insight {
    if policies == [] then
      if fallback.Some? then Insight(fallback.value, ProfileFallback) else Insight(PASS, NothingSelects)
    else Verdict(WalkTiers(EveryMatch(policies, ctx)), fallback)
  }

  // ----- The early break loses nothing -----------------------------------------------------

  function Merge(a: Option<Match>, b: Option<Match>): Option<Match> {
    if a.None? then b
    else if b.None? then a
    else if MatchLess(b.value, a.value) then b else a
  }

  lemma {:induction false} LeastAppend(a: seq<Match>, b: seq<Match>)
    requires a != [] && b != []
    ensures Least(MatchLess, a + b) ==
            if MatchLess(Least(MatchLess, b), Least(MatchLess, a)) then Least(MatchLess, b) else Least(MatchLess, a)
  {
    var n := |b| - 1;
    assert (a + b)[..|a + b| - 1] == a + b[..n];
    if n == 0 {
      assert a + b[..n] == a;
    } else {
      LeastAppend(a, b[..n]);
      MatchOrder(Least(MatchLess, b[..n]), Least(MatchLess, a), b[n]);
      MatchOrder(b[n], Least(MatchLess, b[..n]), Least(MatchLess, a));
      MatchOrder(b[n], Least(MatchLess, a), Least(MatchLess, b[..n]));
    }
  }

  lemma HeadAppend(a: seq<Match>, b: seq<Match>, t: real)
    ensures Head(a + b, t) == Merge(Head(a, t), Head(b, t))
  {
    FilterAppend(InTier(t), a, b);
    var fa, fb := Filter(InTier(t), a), Filter(InTier(t), b);
    if fa == [] {
      assert fa + fb == fb;
    } else if fb == [] {
      assert fa + fb == fa;
    } else {
      LeastAppend(fa, fb);
    }
  }

  /** All matches of one policy share its tier and order, and come in rule order. */
  lemma {:induction false} OnePolicy(p: Policy, i: nat, ctx: Context, stops: Action -> bool)
    requires i <= |p.rules|
    ensures forall m :: m in MatchesFrom(p, i, ctx, stops) ==>
              m.tierOrder == TierOrder(PolicyTier(p), ctx.tiers) && m.policyOrder == PolicyOrder(p) &&
              m.policy == DisplayName(p) && m.ruleIndex > i
    ensures var ms := MatchesFrom(p, i, ctx, stops); ms != [] ==> Least(MatchLess, ms) == ms[0]
    decreases |p.rules| - i
  {
    if i < |p.rules| {
      OnePolicy(p, i + 1, ctx, stops);
      var rest := MatchesFrom(p, i + 1, ctx, stops);
      if Hits(p, i, ctx) && rest != [] {
        LeastAppend([MatchAt(p, i, ctx)], rest);
      }
    }
  }

  /** The first match is there whether or not the scan stops early. */
  lemma {:induction false} SameFirst(p: Policy, i: nat, ctx: Context, stops: Action -> bool)
    requires i <= |p.rules|
    ensures var a, b := MatchesFrom(p, i, ctx, stops), MatchesFrom(p, i, ctx, Never);
            (a == [] <==> b == []) && (a != [] ==> a[0] == b[0])
    decreases |p.rules| - i
  {
    if i < |p.rules| && !Hits(p, i, ctx) {
      SameFirst(p, i + 1, ctx, stops);
    }
  }

  /** A policy heads its own tier with its first match, and no other tier. */
  lemma PolicyHead(p: Policy, ctx: Context, stops: Action -> bool, t: real)
    ensures var ms := MatchesFrom(p, 0, ctx, stops);
            Head(ms, t) == if ms != [] && TierOrder(PolicyTier(p), ctx.tiers) == t then Some(ms[0]) else None
  {
    var ms := MatchesFrom(p, 0, ctx, stops);
    OnePolicy(p, 0, ctx, stops);
    if TierOrder(PolicyTier(p), ctx.tiers) == t {
      FilterAll(InTier(t), ms);
    } else {
      FilterNone(InTier(t), ms);
    }
  }

  lemma {:induction false} SameHeads(policies: seq<Policy>, ctx: Context, stops: Action -> bool, t: real)
    ensures Head(Collected(policies, ctx, stops), t) == Head(EveryMatch(policies, ctx), t)
  {
    if policies != [] {
      var n := |policies| - 1;
      SameHeads(policies[..n], ctx, stops, t);
      HeadAppend(Collected(policies[..n], ctx, stops), MatchesFrom(policies[n], 0, ctx, stops), t);
      HeadAppend(EveryMatch(policies[..n], ctx), MatchesFrom(policies[n], 0, ctx, Never), t);
      PolicyHead(policies[n], ctx, stops, t);
      PolicyHead(policies[n], ctx, Never, t);
      SameFirst(policies[n], 0, ctx, stops);
    }
  }

  lemma HeadExists(ms: seq<Match>, t: real)
    ensures Head(ms, t).Some? <==> exists m :: m in ms && m.tierOrder == t
    ensures Head(ms, t).Some? ==> Head(ms, t).value in ms && Head(ms, t).value.tierOrder == t
  {
    var members := Filter(InTier(t), ms);
    FilterMembers(InTier(t), ms);
    if members != [] {
      assert members[0] in members;
      MatchesAreOrdered(members);
      LeastIsLeast(MatchLess, members);
    }
    if m :| m in ms && m.tierOrder == t {
      assert m in members;
    }
  }

  /** The tier walk sees nothing but the heads of the tiers. */
  lemma {:induction false} WalkSeesHeads(a: seq<Match>, b: seq<Match>)
    requires forall t :: Head(a, t) == Head(b, t)
    ensures WalkTiers(a) == WalkTiers(b)
    decreases |a|
  {
    if a == [] || b == [] {
      SameEmptiness(a, b);
      SameEmptiness(b, a);
    } else {
      var t := LowestTier(a);
      LowestAgrees(a, b);
      LowestAgrees(b, a);
      TierShrinks(a, t);
      TierShrinks(b, t);
      var ha, hb := Filter(Above(t), a), Filter(Above(t), b);
      forall u ensures Head(ha, u) == Head(hb, u) {
        HeadAbove(a, t, u);
        HeadAbove(b, t, u);
      }
      SameEmptiness(ha, hb);
      SameEmptiness(hb, ha);
      if ha != [] {
        WalkSeesHeads(ha, hb);
      }
    }
  }

  lemma SameEmptiness(a: seq<Match>, b: seq<Match>)
    requires forall t :: Head(a, t) == Head(b, t)
    ensures a != [] ==> b != []
  {
    if a != [] {
      assert a[0] in a;
      HeadExists(a, a[0].tierOrder);
      HeadExists(b, a[0].tierOrder);
    }
  }

  lemma LowestAgrees(a: seq<Match>, b: seq<Match>)
    requires a != [] && b != [] && forall t :: Head(a, t) == Head(b, t)
    ensures LowestTier(b) <= LowestTier(a)
  {
    var t := LowestTier(a);
    HeadExists(a, t);
    HeadExists(b, t);
  }

  lemma HeadAbove(ms: seq<Match>, t: real, u: real)
    ensures Head(Filter(Above(t), ms), u) == if t < u then Head(ms, u) else None
  {
    if t < u {
      FilterInTierAbove(ms, t, u);
    } else {
      FilterMembers(Above(t), ms);
      HeadExists(Filter(Above(t), ms), u);
    }
  }

  /** Main result: stopping a policy's scan early, whatever the rule for stopping, does not change
      the tier walk.  A dropped match never heads its tier. */
  lemma EarlyStopIsHarmless(policies: seq<Policy>, ctx: Context, stops: Action -> bool)
    ensures WalkTiers(Collected(policies, ctx, stops)) == WalkTiers(EveryMatch(policies, ctx))
  {
    forall t ensures Head(Collected(policies, ctx, stops), t) == Head(EveryMatch(policies, ctx), t) {
      SameHeads(policies, ctx, stops, t);
    }
    WalkSeesHeads(Collected(policies, ctx, stops), EveryMatch(policies, ctx));
  }

  // ----- The walk without recursion --------------------------------------------------------

  lemma {:induction false} WalkNeverStopsOnPass(ms: seq<Match>)
    ensures WalkTiers(ms).Decided? ==> WalkTiers(ms).winner.action != Pass
    ensures WalkTiers(ms).NoMatch? ==> ms == []
    decreases |ms|
  {
    if ms != [] {
      var t := LowestTier(ms);
      TierShrinks(ms, t);
      WalkNeverStopsOnPass(Filter(Above(t), ms));
    }
  }

  /** `m` heads its tier and does not pass, and every lower tier with a match has a passing head. */
  ghost predicate StopsAt(ms: seq<Match>, m: Match) {
    && m.action != Pass
    && Head(ms, m.tierOrder) == Some(m)
    && forall u :: u < m.tierOrder && Head(ms, u).Some? ==> Head(ms, u).value.action == Pass
  }

  /** A passing head of the lowest tier has no part in it. */
  lemma StopsAbove(ms: seq<Match>, higher: seq<Match>, t: real, m: Match)
    requires forall u :: Head(higher, u) == if t < u then Head(ms, u) else None
    requires Head(ms, t).Some? && Head(ms, t).value.action == Pass && forall u :: u < t ==> Head(ms, u).None?
    ensures StopsAt(ms, m) <==> StopsAt(higher, m)
  {
  }

  /** Main result: the walk decides by the head of the lowest tier whose head does not pass. */
  lemma {:induction false} WalkStopsAt(ms: seq<Match>, m: Match)
    ensures WalkTiers(ms) == Decided(m) <==> StopsAt(ms, m)
    decreases |ms|
  {
    if ms == [] {
      HeadExists(ms, m.tierOrder);
    } else {
      var t := LowestTier(ms);
      var higher := Filter(Above(t), ms);
      TierShrinks(ms, t);
      HeadExists(ms, t);
      forall u | u < t ensures Head(ms, u).None? {
        HeadExists(ms, u);
      }
      if Head(ms, t).value.action == Pass {
        WalkStopsAt(higher, m);
        forall u ensures Head(higher, u) == if t < u then Head(ms, u) else None {
          HeadAbove(ms, t, u);
        }
        StopsAbove(ms, higher, t, m);
      }
    }
  }

  lemma HeadOfOne(m: Match, t: real)
    ensures Head([m], t) == if m.tierOrder == t then Some(m) else None
  {
    FilterOne(InTier(t), m);
  }

  lemma LowestIs(ms: seq<Match>, m: Match)
    requires m in ms && forall x :: x in ms ==> m.tierOrder <= x.tierOrder
    ensures LowestTier(ms) == m.tierOrder
  {
    var t := LowestTier(ms);
    var x :| x in ms && x.tierOrder == t;
  }

  /** A match below all others heads the lowest tier, and the others are what lies above it. */
  lemma LowestOfMany(ms: seq<Match>, a: Match, rest: seq<Match>)
    requires ms == [a] + rest && forall m :: m in rest ==> a.tierOrder < m.tierOrder
    ensures LowestTier(ms) == a.tierOrder
    ensures Head(ms, a.tierOrder) == Some(a) && Filter(Above(a.tierOrder), ms) == rest
  {
    var t := a.tierOrder;
    assert ms[0] == a;
    LowestIs(ms, a);
    HeadAppend([a], rest, t);
    HeadOfOne(a, t);
    HeadExists(rest, t);
    FilterAppend(Above(t), [a], rest);
    FilterOne(Above(t), a);
    FilterAll(Above(t), rest);
  }

  // ----- The program -----------------------------------------------------------------------

  /** calicoDirectionDecision: its verdict is the tier walk over every matching rule. */
  method DirectionDecision(policies: seq<Policy>, ctx: Context, fallback: Option<Status>) returns (insight: Insight)
    ensures insight == DirectionVerdict(policies, ctx, fallback)
  {
    if |policies| == 0 {
      if fallback.Some? {
        return Insight(fallback.value, ProfileFallback);
      }
      return Insight(PASS, NothingSelects);
    }
    var ms := CollectMatches(policies, ctx);
    EarlyStopIsHarmless(policies, ctx, Decides);
    if ms != [] {
      JumpIsWalk(ms);
    }
    ms := SortBy(MatchLess, ms);
    if |ms| > 0 {
      var first, ok := EffectiveMatchAfterPass(ms);
      if !ok {
        if fallback.Some? {
          return Insight(fallback.value, ProfileFallback);
        }
        return Insight(WARN, Unresolved);
      }
      if first.value.action == Deny {
        return Insight(FAIL, Explicit(first.value));
      }
      if first.value.action == Allow {
        return Insight(PASS, Explicit(first.value));
      }
    }
    return Insight(FAIL, DefaultDeny);
  }

  // ----- Listing order is irrelevant -------------------------------------------------------

  ghost predicate DistinctNames(policies: seq<Policy>) {
    forall i, j :: 0 <= i < j < |policies| ==> DisplayName(policies[i]) != DisplayName(policies[j])
  }

  lemma {:induction false} CollectedAppend(a: seq<Policy>, b: seq<Policy>, ctx: Context)
    ensures EveryMatch(a + b, ctx) == EveryMatch(a, ctx) + EveryMatch(b, ctx)
  {
    if b == [] {
      assert a + b == a;
    } else {
      var n := |b| - 1;
      assert (a + b)[..|a + b| - 1] == a + b[..n];
      CollectedAppend(a, b[..n], ctx);
    }
  }

  lemma CollectedWithout(policies: seq<Policy>, i: nat, ctx: Context)
    requires i < |policies|
    ensures multiset(EveryMatch(policies, ctx)) ==
            multiset(EveryMatch(Without(policies, i), ctx)) + multiset(MatchesFrom(policies[i], 0, ctx, Never))
  {
    var a, b := policies[..i], policies[i + 1..];
    assert policies == a + [policies[i]] + b;
    CollectedAppend(a + [policies[i]], b, ctx);
    CollectedAppend(a, [policies[i]], ctx);
    CollectedAppend(a, b, ctx);
    assert [policies[i]][..0] == [];
    assert EveryMatch([policies[i]], ctx) == MatchesFrom(policies[i], 0, ctx, Never);
  }

  lemma {:induction false} CollectedPermutes(a: seq<Policy>, b: seq<Policy>, ctx: Context)
    requires multiset(a) == multiset(b)
    ensures multiset(EveryMatch(a, ctx)) == multiset(EveryMatch(b, ctx))
  {
    assert |multiset(a)| == |a| && |multiset(b)| == |b|;
    if a != [] {
      WithoutMultiset(a, 0);
      var j := IndexIn(b, a[0]);
      WithoutMultiset(b, j);
      CollectedPermutes(Without(a, 0), Without(b, j), ctx);
      CollectedWithout(a, 0, ctx);
      CollectedWithout(b, j, ctx);
    }
  }

  /** Where a match comes from. */
  ghost predicate ComesFrom(m: Match, policies: seq<Policy>, k: nat, i: nat, ctx: Context) {
    k < |policies| && i < |policies[k].rules| && Hits(policies[k], i, ctx) && m == MatchAt(policies[k], i, ctx)
  }

  lemma {:induction false} OriginInPolicy(p: Policy, i: nat, ctx: Context, m: Match)
    requires i <= |p.rules| && m in MatchesFrom(p, i, ctx, Never)
    ensures exists r: nat :: r < |p.rules| && Hits(p, r, ctx) && m == MatchAt(p, r, ctx)
    decreases |p.rules| - i
  {
    if i < |p.rules| && !(Hits(p, i, ctx) && m == MatchAt(p, i, ctx)) {
      OriginInPolicy(p, i + 1, ctx, m);
    }
  }

  lemma {:induction false} Origin(policies: seq<Policy>, ctx: Context, m: Match)
    requires m in EveryMatch(policies, ctx)
    ensures exists k, i :: ComesFrom(m, policies, k, i, ctx)
  {
    var n := |policies| - 1;
    if m in MatchesFrom(policies[n], 0, ctx, Never) {
      OriginInPolicy(policies[n], 0, ctx, m);
      var r: nat :| r < |policies[n].rules| && Hits(policies[n], r, ctx) && m == MatchAt(policies[n], r, ctx);
      assert ComesFrom(m, policies, n, r, ctx);
    } else {
      Origin(policies[..n], ctx, m);
      var k, i :| ComesFrom(m, policies[..n], k, i, ctx);
      assert ComesFrom(m, policies, k, i, ctx);
    }
  }

  /** With distinct display names no two different matches tie. */
  lemma MatchesAreDistinct(policies: seq<Policy>, ctx: Context)
    requires DistinctNames(policies)
    ensures TotalOn(MatchLess, EveryMatch(policies, ctx))
  {
    var ms := EveryMatch(policies, ctx);
    forall a, b | a in ms && b in ms && a != b
      ensures MatchLess(a, b) || MatchLess(b, a)
    {
      Origin(policies, ctx, a);
      Origin(policies, ctx, b);
      var k, i :| ComesFrom(a, policies, k, i, ctx);
      var l, j :| ComesFrom(b, policies, l, j, ctx);
      LexLessTotal(a.policy, b.policy);
    }
  }

  /** Main result: with distinct display names the verdict does not depend on the listing order. */
  lemma VerdictIgnoresOrder(a: seq<Policy>, b: seq<Policy>, ctx: Context, fallback: Option<Status>)
    requires multiset(a) == multiset(b) && DistinctNames(a)
    ensures DirectionVerdict(a, ctx, fallback) == DirectionVerdict(b, ctx, fallback)
  {
    assert |multiset(a)| == |a| && |multiset(b)| == |b|;
    var ma, mb := EveryMatch(a, ctx), EveryMatch(b, ctx);
    CollectedPermutes(a, b, ctx);
    assert |multiset(ma)| == |ma| && |multiset(mb)| == |mb|;
    if ma != [] {
      MatchesAreDistinct(a, ctx);
      MatchesAreOrdered(ma);
      SortUnique(MatchLess, ma, mb);
      JumpIsWalk(ma);
      JumpIsWalk(mb);
    }
  }

  /** Objects are unique by namespace and name; no name holds a slash and no namespace is `global`. */
  ghost predicate UniqueObjects(policies: seq<Policy>) {
    && (forall i, j :: 0 <= i < j < |policies| ==>
          policies[i].namespace != policies[j].namespace || policies[i].name != policies[j].name)
    && (forall i :: 0 <= i < |policies| ==>
          && policies[i].namespace != "global"
          && '/' !in policies[i].namespace && '/' !in policies[i].name)
  }

  lemma NameIsTwoPieces(p: Policy)
    requires '/' !in p.namespace && '/' !in p.name
    ensures Split(DisplayName(p), '/') == [DefaultString(p.namespace, "global"), p.name]
  {
    var namespace := DefaultString(p.namespace, "global");
    assert "global" + ['/'] == "global/";
    assert '/' !in "global";
    assert DisplayName(p) == namespace + ['/'] + p.name;
    SplitAcross(namespace, p.name, '/');
    SplitOfPlain(namespace, '/');
    SplitOfPlain(p.name, '/');
  }

  lemma UniqueObjectsHaveDistinctNames(policies: seq<Policy>)
    requires UniqueObjects(policies)
    ensures DistinctNames(policies)
  {
    forall i, j | 0 <= i < j < |policies|
      ensures DisplayName(policies[i]) != DisplayName(policies[j])
    {
      var p, q := policies[i], policies[j];
      NameIsTwoPieces(p);
      NameIsTwoPieces(q);
      assert [DefaultString(p.namespace, "global"), p.name][0] == DefaultString(p.namespace, "global");
      assert [DefaultString(p.namespace, "global"), p.name] != [DefaultString(q.namespace, "global"), q.name];
    }
  }

  /** Main result for the objects a cluster can hold. */
  lemma VerdictIgnoresListing(a: seq<Policy>, b: seq<Policy>, ctx: Context, fallback: Option<Status>)
    requires multiset(a) == multiset(b) && UniqueObjects(a)
    ensures DirectionVerdict(a, ctx, fallback) == DirectionVerdict(b, ctx, fallback)
  {
    UniqueObjectsHaveDistinctNames(a);
    VerdictIgnoresOrder(a, b, ctx, fallback);
  }

  lemma OneRuleEach(p: Policy, q: Policy, ctx: Context)
    requires |p.rules| == 1 && Hits(p, 0, ctx) && |q.rules| == 1 && Hits(q, 0, ctx)
    ensures EveryMatch([p, q], ctx) == [MatchAt(p, 0, ctx), MatchAt(q, 0, ctx)]
  {
    assert MatchesFrom(p, 1, ctx, Never) == [] && MatchesFrom(q, 1, ctx, Never) == [];
    assert [p, q][..1] == [p] && [p][..0] == [];
    assert EveryMatch([], ctx) == [];
    assert EveryMatch([p], ctx) == [MatchAt(p, 0, ctx)];
  }

  /** When two matches of one tier tie, the one listed first decides. */
  lemma TieGoesToFirst(a: Match, b: Match)
    requires !MatchLess(b, a) && a.tierOrder == b.tierOrder && a.action != Pass
    ensures WalkTiers([a, b]) == Decided(a)
  {
    var ms := [a, b];
    assert ms == [a] + [b];
    HeadAppend([a], [b], a.tierOrder);
    HeadOfOne(a, a.tierOrder);
    HeadOfOne(b, a.tierOrder);
    assert LowestTier(ms) == a.tierOrder;
  }

  /** A policy `x` in a namespace called `global` shares its display name with the global policy
      `x`; then the listing order decides. */
  lemma SharedNameDependsOnOrder(ctx: Context, p: Policy, q: Policy)
    requires p == Policy("", "x", "", None, [Rule("allow", "")])
    requires q == Policy("global", "x", "", None, [Rule("deny", "")])
    requires ctx.path(p.rules[0]) && ctx.path(q.rules[0])
    ensures DirectionVerdict([p, q], ctx, None).status == PASS
    ensures DirectionVerdict([q, p], ctx, None).status == FAIL
  {
    assert ToLower("allow") == "allow" && ToLower("deny") == "deny";
    assert "global/" + "x" == "global" + "/" + "x";
    LexLessTotal(MatchAt(p, 0, ctx).policy, MatchAt(q, 0, ctx).policy);
    FirstOfTwoDecides(p, q, ctx);
    FirstOfTwoDecides(q, p, ctx);
  }

  /** Two policies whose only matches tie: the one listed first decides. */
  lemma FirstOfTwoDecides(p: Policy, q: Policy, ctx: Context)
    requires |p.rules| == 1 && Hits(p, 0, ctx) && |q.rules| == 1 && Hits(q, 0, ctx)
    requires !MatchLess(MatchAt(q, 0, ctx), MatchAt(p, 0, ctx))
    requires MatchAt(p, 0, ctx).tierOrder == MatchAt(q, 0, ctx).tierOrder && MatchAt(p, 0, ctx).action != Pass
    ensures DirectionVerdict([p, q], ctx, None) == Verdict(Decided(MatchAt(p, 0, ctx)), None)
  {
    OneRuleEach(p, q, ctx);
    TieGoesToFirst(MatchAt(p, 0, ctx), MatchAt(q, 0, ctx));
  }
}
