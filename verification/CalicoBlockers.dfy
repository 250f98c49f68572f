/** The "show blockers" evaluator (internal/policy/calico/blockers.go) against the path evaluator:
    it collects past a deny, so a clean report bounds what the path evaluation can say. */
module CalicoBlockers {
  import opened Text
  import opened Sorting
  import opened CalicoPolicy
  import opened CalicoDecision

  datatype Direction = Egress | Ingress

  /** The tested traffic.  `path` is ruleMatchesPath on it, `named` the check for named ports only,
      `swapped` ruleMatchesPath with the two sides exchanged. */
  datatype Probe = Probe(direction: Direction, ports: seq<int>, portNames: seq<string>,
                         path: Rule -> bool, named: Rule -> bool, swapped: Rule -> bool)

  /** blockerRuleMatchesPath. */
  predicate RuleMatches(probe: Probe, rule: Rule) {
    if |probe.portNames| > 0 && |probe.ports| == 0 then probe.named(rule)
    else if probe.direction == Egress then probe.path(rule)
    else probe.swapped(rule)
  }

  function BlockerContext(probe: Probe, tiers: seq<Tier>): Context {
    Context(tiers, (rule: Rule) => RuleMatches(probe, rule))
  }

  predicate StopsOnAllow(action: Action) {
    action == Allow
  }

  predicate IsDeny(m: Match) {
    m.action == Deny
  }

  predicate IsAllow(m: Match) {
    m.action == Allow
  }

  datatype Finding = ExplicitDeny(deny: Match) | NoAllow | Allowed(rules: seq<Match>)

  function FindingStatus(f: Finding): Status {
    if f.Allowed? then PASS else FAIL
  }

  function DenyFindings(denies: seq<Match>): seq<Finding> {
    Map((m: Match) => ExplicitDeny(m), denies)
  }

  /** The report for the collected denies and allows. */
  function Report(denies: seq<Match>, allows: seq<Match>): seq<Finding> {
    if denies != [] then DenyFindings(denies)
    else if allows == [] then [NoAllow]
    else [Allowed(allows)]
  }

  function BlockerReport(policies: seq<Policy>, ctx: Context): seq<Finding> {
    var ms := Collected(policies, ctx, StopsOnAllow);
    Report(SortBy(MatchLess, Filter(IsDeny, ms)), SortBy(MatchLess, Filter(IsAllow, ms)))
  }

  ghost predicate Clean(findings: seq<Finding>) {
    forall f :: f in findings ==> FindingStatus(f) == PASS
  }

  // ----- The program -----------------------------------------------------------------------

  /** The collecting loops of pathSpecificBlockers. */
  method CollectBlockers(policies: seq<Policy>, ctx: Context) returns (denies: seq<Match>, allows: seq<Match>)
    ensures denies == Filter(IsDeny, Collected(policies, ctx, StopsOnAllow))
    ensures allows == Filter(IsAllow, Collected(policies, ctx, StopsOnAllow))
  {
    denies, allows := [], [];
    for k := 0 to |policies|
      invariant denies == Filter(IsDeny, Collected(policies[..k], ctx, StopsOnAllow))
      invariant allows == Filter(IsAllow, Collected(policies[..k], ctx, StopsOnAllow))
    {
      assert policies[..k + 1][..k] == policies[..k];
      ghost var before := Collected(policies[..k], ctx, StopsOnAllow);
      var d, a := ScanPolicy(policies[k], ctx);
      FilterAppend(IsDeny, before, MatchesFrom(policies[k], 0, ctx, StopsOnAllow));
      FilterAppend(IsAllow, before, MatchesFrom(policies[k], 0, ctx, StopsOnAllow));
      denies, allows := denies + d, allows + a;
    }
    assert policies[..|policies|] == policies;
  }

  method ScanPolicy(item: Policy, ctx: Context) returns (denies: seq<Match>, allows: seq<Match>)
    ensures denies == Filter(IsDeny, MatchesFrom(item, 0, ctx, StopsOnAllow))
    ensures allows == Filter(IsAllow, MatchesFrom(item, 0, ctx, StopsOnAllow))
  {
    denies, allows := [], [];
    ghost var got := [];
    ghost var all := MatchesFrom(item, 0, ctx, StopsOnAllow);
    for index := 0 to |item.rules|
      invariant all == got + MatchesFrom(item, index, ctx, StopsOnAllow)
      invariant denies == Filter(IsDeny, got) && allows == Filter(IsAllow, got)
    {
      var raw := item.rules[index];
      if !raw.Rule? || !ctx.path(raw) {
        continue;
      }
      var action := ActionOf(raw.action);
      var found := Match(DisplayName(item), PolicyTier(item), TierOrder(PolicyTier(item), ctx.tiers),
                         PolicyOrder(item), index + 1, action);
      ghost var grown := if action == Log then got else got + [found];
      if action == Deny {
        denies := denies + [found];
      }
      if action == Allow {
        allows := allows + [found];
      }
      assert action != Log ==> grown[..|got|] == got;
      if action == Allow {
        assert all == grown;
        return;
      }
      got := grown;
    }
    assert all == got;
  }

  /** pathSpecificBlockers. */
  method PathSpecificBlockers(policies: seq<Policy>, tiers: seq<Tier>, probe: Probe) returns (findings: seq<Finding>)
    ensures findings == BlockerReport(policies, BlockerContext(probe, tiers))
  {
    var denies, allows := CollectBlockers(policies, BlockerContext(probe, tiers));
    denies := SortBy(MatchLess, denies);
    allows := SortBy(MatchLess, allows);
    findings := [];
    for k := 0 to |denies|
      invariant findings == DenyFindings(denies[..k])
    {
      findings := findings + [ExplicitDeny(denies[k])];
    }
    assert denies[..|denies|] == denies;
    if |denies| == 0 && |allows| == 0 {
      findings := findings + [NoAllow];
    }
    if |denies| == 0 && |allows| > 0 {
      findings := findings + [Allowed(allows)];
    }
  }

  // ----- Against the path evaluator --------------------------------------------------------

  ghost predicate SameOnRules(a: Context, b: Context) {
    a.tiers == b.tiers && forall r :: a.path(r) == b.path(r)
  }

  lemma {:induction false} SameMatches(p: Policy, i: nat, a: Context, b: Context, stops: Action -> bool)
    requires i <= |p.rules| && SameOnRules(a, b)
    ensures MatchesFrom(p, i, a, stops) == MatchesFrom(p, i, b, stops)
    decreases |p.rules| - i
  {
    if i < |p.rules| {
      SameMatches(p, i + 1, a, b, stops);
    }
  }

  lemma {:induction false} SameCollected(policies: seq<Policy>, a: Context, b: Context, stops: Action -> bool)
    requires SameOnRules(a, b)
    ensures Collected(policies, a, stops) == Collected(policies, b, stops)
  {
    if policies != [] {
      SameCollected(policies[..|policies| - 1], a, b, stops);
      SameMatches(policies[|policies| - 1], 0, a, b, stops);
    }
  }

  /** For egress with numeric ports both evaluators ask the same question of a rule. */
  lemma EgressContextsAgree(probe: Probe, tiers: seq<Tier>)
    requires probe.direction == Egress && (probe.portNames == [] || probe.ports != [])
    ensures SameOnRules(BlockerContext(probe, tiers), Context(tiers, probe.path))
  {
  }

  lemma {:induction false} PolicyPathInBlockers(p: Policy, i: nat, ctx: Context, m: Match)
    requires i <= |p.rules| && m in MatchesFrom(p, i, ctx, Decides)
    ensures m in MatchesFrom(p, i, ctx, StopsOnAllow)
    decreases |p.rules| - i
  {
    if i < |p.rules| && m in MatchesFrom(p, i + 1, ctx, Decides) {
      PolicyPathInBlockers(p, i + 1, ctx, m);
    }
  }

  /** Everything the path evaluator collects, the blockers evaluator collects. */
  lemma {:induction false} PathInBlockers(policies: seq<Policy>, ctx: Context, m: Match)
    requires m in Collected(policies, ctx, Decides)
    ensures m in Collected(policies, ctx, StopsOnAllow)
  {
    var n := |policies| - 1;
    if m in MatchesFrom(policies[n], 0, ctx, Decides) {
      PolicyPathInBlockers(policies[n], 0, ctx, m);
    } else {
      PathInBlockers(policies[..n], ctx, m);
    }
  }

  lemma {:induction false} PolicyWithoutDeny(p: Policy, i: nat, ctx: Context)
    requires i <= |p.rules| && forall m :: m in MatchesFrom(p, i, ctx, StopsOnAllow) ==> m.action != Deny
    ensures MatchesFrom(p, i, ctx, StopsOnAllow) == MatchesFrom(p, i, ctx, Decides)
    decreases |p.rules| - i
  {
    if i < |p.rules| {
      if Hits(p, i, ctx) {
        assert MatchesFrom(p, i, ctx, StopsOnAllow)[0] == MatchAt(p, i, ctx);
      }
      if !Hits(p, i, ctx) || MatchAt(p, i, ctx).action != Allow {
        assert forall m :: m in MatchesFrom(p, i + 1, ctx, StopsOnAllow) ==> m in MatchesFrom(p, i, ctx, StopsOnAllow);
        PolicyWithoutDeny(p, i + 1, ctx);
      }
    }
  }

  /** Without a deny the two evaluators collect the same list. */
  lemma {:induction false} WithoutDeny(policies: seq<Policy>, ctx: Context)
    requires forall m :: m in Collected(policies, ctx, StopsOnAllow) ==> m.action != Deny
    ensures Collected(policies, ctx, StopsOnAllow) == Collected(policies, ctx, Decides)
  {
    if policies != [] {
      var n := |policies| - 1;
      WithoutDeny(policies[..n], ctx);
      PolicyWithoutDeny(policies[n], 0, ctx);
    }
  }

  lemma {:induction false} WalkIsMember(ms: seq<Match>)
    ensures WalkTiers(ms).Decided? ==> WalkTiers(ms).winner in ms
    ensures WalkTiers(ms).NoMatch? <==> ms == []
    decreases |ms|
  {
    if ms != [] {
      var t := LowestTier(ms);
      TierShrinks(ms, t);
      HeadExists(ms, t);
      FilterMembers(Above(t), ms);
      WalkIsMember(Filter(Above(t), ms));
    }
  }

  lemma SortedMembers(keep: Match -> bool, ms: seq<Match>)
    ensures forall m :: m in SortBy(MatchLess, Filter(keep, ms)) <==> m in ms && keep(m)
    ensures SortBy(MatchLess, Filter(keep, ms)) == [] <==> Filter(keep, ms) == []
  {
    FilterMembers(keep, ms);
    SortPermutes(MatchLess, Filter(keep, ms));
  }

  /** Main result: a deny that decides the path is reported by the blockers, as that very rule; and
      when no rule matches at all, the blockers report that no allow was found. */
  lemma PathDenyIsReported(policies: seq<Policy>, tiers: seq<Tier>, probe: Probe, fallback: Option<Status>)
    requires probe.direction == Egress && (probe.portNames == [] || probe.ports != []) && policies != []
    ensures var verdict := DirectionVerdict(policies, Context(tiers, probe.path), fallback);
            var report := BlockerReport(policies, BlockerContext(probe, tiers));
            && (verdict.basis.Explicit? && verdict.basis.winner.action == Deny ==>
                  ExplicitDeny(verdict.basis.winner) in report)
            && (EveryMatch(policies, Context(tiers, probe.path)) == [] ==> report == [NoAllow])
  {
    var ctx, bctx := Context(tiers, probe.path), BlockerContext(probe, tiers);
    var all := Collected(policies, bctx, StopsOnAllow);
    EgressContextsAgree(probe, tiers);
    SameCollected(policies, bctx, ctx, StopsOnAllow);
    EarlyStopIsHarmless(policies, ctx, Decides);
    EarlyStopIsHarmless(policies, ctx, StopsOnAllow);
    WalkIsMember(Collected(policies, ctx, Decides));
    WalkIsMember(Collected(policies, ctx, StopsOnAllow));
    WalkIsMember(EveryMatch(policies, ctx));
    SortedMembers(IsDeny, all);
    SortedMembers(IsAllow, all);
    var verdict := DirectionVerdict(policies, ctx, fallback);
    if verdict.basis.Explicit? && verdict.basis.winner.action == Deny {
      var m := verdict.basis.winner;
      PathInBlockers(policies, ctx, m);
      var denies := SortBy(MatchLess, Filter(IsDeny, all));
      assert m in denies;
      var k :| 0 <= k < |denies| && denies[k] == m;
      assert DenyFindings(denies)[k] == ExplicitDeny(m);
    }
  }

  /** Main result: when the blockers report no failure, the path evaluation is not decided by a deny
      and is not the empty default deny: it allows, falls through to the profiles, or stops at an
      action that is neither allow, deny nor pass. */
  lemma CleanReportBoundsPath(policies: seq<Policy>, tiers: seq<Tier>, probe: Probe)
    requires probe.direction == Egress && (probe.portNames == [] || probe.ports != [])
    requires Clean(BlockerReport(policies, BlockerContext(probe, tiers)))
    ensures var outcome := WalkTiers(EveryMatch(policies, Context(tiers, probe.path)));
            outcome.FellThrough? ||
            (outcome.Decided? && (outcome.winner.action == Allow || outcome.winner.action.Other?))
  {
    var ctx, bctx := Context(tiers, probe.path), BlockerContext(probe, tiers);
    var all := Collected(policies, bctx, StopsOnAllow);
    EgressContextsAgree(probe, tiers);
    SameCollected(policies, bctx, ctx, StopsOnAllow);
    SortedMembers(IsDeny, all);
    SortedMembers(IsAllow, all);
    var report := BlockerReport(policies, bctx);
    assert report != [] && FindingStatus(report[0]) == PASS by {
      assert report[0] in report;
    }
    assert Filter(IsDeny, all) == [];
    WithoutDeny(policies, ctx);
    EarlyStopIsHarmless(policies, ctx, Decides);
    WalkIsMember(all);
    WalkNeverStopsOnPass(all);
    OnlyRealActions(policies, ctx);
  }

  lemma {:induction false} PolicyHasNoLog(p: Policy, i: nat, ctx: Context)
    requires i <= |p.rules|
    ensures forall m :: m in MatchesFrom(p, i, ctx, StopsOnAllow) ==> m.action != Log
    decreases |p.rules| - i
  {
    if i < |p.rules| {
      PolicyHasNoLog(p, i + 1, ctx);
    }
  }

  lemma {:induction false} OnlyRealActions(policies: seq<Policy>, ctx: Context)
    ensures forall m :: m in Collected(policies, ctx, StopsOnAllow) ==> m.action != Log
  {
    if policies != [] {
      OnlyRealActions(policies[..|policies| - 1], ctx);
      PolicyHasNoLog(policies[|policies| - 1], 0, ctx);
    }
  }

  /** A collected deny is a failure in the report. */
  lemma DenyIsFailure(policies: seq<Policy>, ctx: Context, d: Match)
    requires d in Collected(policies, ctx, StopsOnAllow) && d.action == Deny
    ensures !Clean(BlockerReport(policies, ctx))
  {
    var all := Collected(policies, ctx, StopsOnAllow);
    SortedMembers(IsDeny, all);
    var denies := SortBy(MatchLess, Filter(IsDeny, all));
    assert d in denies;
    assert DenyFindings(denies)[0] == ExplicitDeny(denies[0]);
    assert DenyFindings(denies)[0] in BlockerReport(policies, ctx);
  }

  /** The bound is one-sided: a deny in a tier behind an allow is reported although the path passes. */
  lemma ReportIsStricter(p: Policy, q: Policy, ctx: Context)
    requires |p.rules| == 1 && Hits(p, 0, ctx) && |q.rules| == 1 && Hits(q, 0, ctx)
    requires MatchAt(p, 0, ctx).action == Allow && MatchAt(q, 0, ctx).action == Deny
    requires MatchAt(p, 0, ctx).tierOrder < MatchAt(q, 0, ctx).tierOrder
    ensures DirectionVerdict([p, q], ctx, None).status == PASS
    ensures !Clean(BlockerReport([p, q], ctx))
  {
    AllowInFrontPasses(p, q, ctx);
    DenyBehindIsCollected(p, q, ctx);
    DenyIsFailure([p, q], ctx, MatchAt(q, 0, ctx));
  }

  lemma AllowInFrontPasses(p: Policy, q: Policy, ctx: Context)
    requires |p.rules| == 1 && Hits(p, 0, ctx) && |q.rules| == 1 && Hits(q, 0, ctx)
    requires MatchAt(p, 0, ctx).action == Allow && MatchAt(p, 0, ctx).tierOrder < MatchAt(q, 0, ctx).tierOrder
    ensures DirectionVerdict([p, q], ctx, None).status == PASS
  {
    var a, d := MatchAt(p, 0, ctx), MatchAt(q, 0, ctx);
    OneRuleEach(p, q, ctx);
    AllowInFront([a, d], a, d);
  }

  lemma AllowInFront(ms: seq<Match>, a: Match, d: Match)
    requires ms == [a, d] && a.action == Allow && a.tierOrder < d.tierOrder
    ensures WalkTiers(ms) == Decided(a)
  {
    assert ms == [a] + [d];
    LowestOfMany(ms, a, [d]);
  }

  lemma DenyBehindIsCollected(p: Policy, q: Policy, ctx: Context)
    requires |q.rules| == 1 && Hits(q, 0, ctx)
    ensures MatchAt(q, 0, ctx) in Collected([p, q], ctx, StopsOnAllow)
  {
    assert MatchAt(q, 0, ctx) in MatchesFrom(q, 0, ctx, StopsOnAllow);
    assert [p, q][..1] == [p];
  }

  // ----- Reading the report ----------------------------------------------------------------

  /** Main result: a rule is reported as a deny exactly when it was collected as one; a missing allow is reported
      exactly when neither a deny nor an allow was collected; otherwise the collected allows are, and that alone is no
      failure. */
  lemma ReportReads(policies: seq<Policy>, ctx: Context)
    ensures var report, all := BlockerReport(policies, ctx), Collected(policies, ctx, StopsOnAllow);
            && (forall m :: ExplicitDeny(m) in report <==> m in all && m.action == Deny)
            && (NoAllow in report <==> forall m :: m in all ==> m.action != Deny && m.action != Allow)
            && (forall rules :: Allowed(rules) in report ==>
                  (forall m :: m in all ==> m.action != Deny) && forall m :: m in rules <==> m in all && m.action == Allow)
            && report != []
            && (Clean(report) <==> (forall m :: m in all ==> m.action != Deny) && exists m :: m in all && m.action == Allow)
  {
    var all := Collected(policies, ctx, StopsOnAllow);
    SortedMembers(IsDeny, all);
    SortedMembers(IsAllow, all);
    ReportOfLists(SortBy(MatchLess, Filter(IsDeny, all)), SortBy(MatchLess, Filter(IsAllow, all)));
    assert forall m :: m in all && m.action == Deny <==> m in SortBy(MatchLess, Filter(IsDeny, all));
    assert forall m :: m in all && m.action == Allow <==> m in SortBy(MatchLess, Filter(IsAllow, all));
  }

  lemma ReportOfLists(denies: seq<Match>, allows: seq<Match>)
    ensures var report := Report(denies, allows);
            && (forall m :: ExplicitDeny(m) in report <==> m in denies)
            && (NoAllow in report <==> (forall m :: m !in denies) && forall m :: m !in allows)
            && (forall rules :: Allowed(rules) in report ==> (forall m :: m !in denies) && rules == allows)
            && report != []
            && (Clean(report) <==> (forall m :: m !in denies) && exists m :: m in allows)
  {
    var report := Report(denies, allows);
    if denies != [] {
      assert denies[0] in denies && report[0] == ExplicitDeny(denies[0]) && report[0] in report;
      forall m | m in denies ensures ExplicitDeny(m) in report {
        var i :| 0 <= i < |denies| && denies[i] == m;
        assert report[i] == ExplicitDeny(m);
      }
    } else if allows == [] {
      assert report == [NoAllow] && NoAllow in report;
    } else {
      assert allows[0] in allows && report == [Allowed(allows)];
    }
  }

  /** A policy is left at its first matching allow: a deny behind it, in the same policy, is not reported. */
  lemma DenyBehindOwnAllow(ctx: Context, p: Policy)
    requires |p.rules| == 2 && Hits(p, 0, ctx) && Hits(p, 1, ctx)
    requires ActionOf(p.rules[0].action) == Allow && ActionOf(p.rules[1].action) == Deny
    ensures Clean(BlockerReport([p], ctx))
  {
    var allow := MatchAt(p, 0, ctx);
    assert MatchesFrom(p, 0, ctx, StopsOnAllow) == [allow];
    assert [p][..0] == [] && Collected([], ctx, StopsOnAllow) == [];
    assert Collected([p], ctx, StopsOnAllow) == [allow];
    ReportReads([p], ctx);
    assert allow in [allow];
  }

  /** A deny in front of an allow of the same policy is reported. */
  lemma DenyBeforeOwnAllow(ctx: Context, p: Policy)
    requires |p.rules| == 2 && Hits(p, 0, ctx) && Hits(p, 1, ctx)
    requires ActionOf(p.rules[0].action) == Deny && ActionOf(p.rules[1].action) == Allow
    ensures ExplicitDeny(MatchAt(p, 0, ctx)) in BlockerReport([p], ctx)
  {
    assert MatchAt(p, 0, ctx) in MatchesFrom(p, 0, ctx, StopsOnAllow);
    assert [p][..0] == [] && MatchAt(p, 0, ctx) in Collected([p], ctx, StopsOnAllow);
    ReportReads([p], ctx);
  }

  /** Which check of a rule is made: named ports only, or the direction of the traffic. */
  lemma RuleMatchesReads(probe: Probe, rule: Rule)
    ensures probe.portNames != [] && probe.ports == [] ==> RuleMatches(probe, rule) == probe.named(rule)
    ensures (probe.portNames == [] || probe.ports != []) && probe.direction == Egress ==>
              RuleMatches(probe, rule) == probe.path(rule)
    ensures (probe.portNames == [] || probe.ports != []) && probe.direction == Ingress ==>
              RuleMatches(probe, rule) == probe.swapped(rule)
  {
  }
}
