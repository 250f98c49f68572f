/** calicoDNSDecision (internal/policy/calico/analyze.go): the DNS evaluation of the same tiers, which
    follows a single Pass only, against the tier walk. */
module CalicoDNS {
  import opened Text
  import opened Sorting
  import opened CalicoPolicy
  import opened CalicoDecision

  // ----- A single jump ---------------------------------------------------------------------

  /** calicoDNSDecision resolves one Pass only. */
  function OneJump(ms: seq<Match>): Outcome {
    if ms == [] then NoMatch
    else
      var t := LowestTier(ms);
      TierShrinks(ms, t);
      var head := Head(ms, t).value;
      var higher := Filter(Above(t), ms);
      if head.action != Pass then Decided(head)
      else if higher == [] then FellThrough(head)
      else
        TierShrinks(higher, LowestTier(higher));
        Decided(Head(higher, LowestTier(higher)).value)
  }

  // ----- The program -----------------------------------------------------------------------

  /** The collecting loops of calicoDNSDecision, which never break. */
  method CollectDNSMatches(policies: seq<Policy>, ctx: Context) returns (ms: seq<Match>)
    ensures ms == EveryMatch(policies, ctx)
  {
    ms := [];
    for k := 0 to |policies|
      invariant ms == EveryMatch(policies[..k], ctx)
    {
      var item := policies[k];
      assert policies[..k + 1][..k] == policies[..k];
      ghost var before := ms;
      ghost var got := [];
      for index := 0 to |item.rules|
        invariant ms == before + got
        invariant MatchesFrom(item, 0, ctx, Never) == got + MatchesFrom(item, index, ctx, Never)
      {
        var raw := item.rules[index];
        if !raw.Rule? || !ctx.path(raw) {
          continue;
        }
        var action := ActionOf(raw.action);
        if action == Log {
          continue;
        }
        var found := Match(DisplayName(item), PolicyTier(item), TierOrder(PolicyTier(item), ctx.tiers),
                           PolicyOrder(item), index + 1, action);
        ms := ms + [found];
        got := got + [found];
      }
    }
    assert policies[..|policies|] == policies;
  }

  /** The overwriting loop of calicoDNSDecision: the first later entry of a higher tier replaces a
      Pass at the front of the list. */
  method ReplacePass(ms: seq<Match>) returns (replaced: seq<Match>)
    requires ms != []
    ensures |replaced| == |ms| && replaced[1..] == ms[1..]
    ensures var higher := Filter(Above(ms[0].tierOrder), ms);
            replaced[0] == if higher == [] then ms[0] else higher[0]
  {
    replaced := ms;
    var pass := ms[0];
    assert Filter(Above(pass.tierOrder), ms[..1]) == [] by {
      assert ms[..1] == [pass];
      FilterOne(Above(pass.tierOrder), pass);
    }
    for k := 1 to |ms|
      invariant replaced == ms
      invariant Filter(Above(pass.tierOrder), ms[..k]) == []
    {
      assert ms[..k + 1][..k] == ms[..k];
      if ms[k].tierOrder > pass.tierOrder {
        FirstKept(Above(pass.tierOrder), ms, k);
        replaced := ms[0 := ms[k]];
        return;
      }
    }
    assert ms[..|ms|] == ms;
  }

  /** calicoDNSDecision. */
  method DNSDecision(policies: seq<Policy>, ctx: Context, fallback: Option<Status>) returns (insight: Insight)
    ensures insight == Verdict(OneJump(EveryMatch(policies, ctx)), fallback)
  {
    var ms := CollectDNSMatches(policies, ctx);
    if |ms| > 0 {
      SortedHeads(ms);
      ms := SortBy(MatchLess, ms);
      if ms[0].action == Pass {
        var pass := ms[0];
        if Filter(Above(pass.tierOrder), ms) != [] {
          HigherShrinks(ms, pass.tierOrder);
        }
        ms := ReplacePass(ms);
        if ms[0] == pass {
          if fallback.Some? {
            return Insight(fallback.value, ProfileFallback);
          }
          return Insight(WARN, Unresolved);
        }
      }
    }
    if |ms| > 0 {
      var first := ms[0];
      if first.action == Deny {
        return Insight(FAIL, Explicit(first));
      }
      if first.action == Allow {
        return Insight(PASS, Explicit(first));
      }
    }
    return Insight(FAIL, DefaultDeny);
  }

  /** The head of the sorted list, and the head of what lies above it. */
  lemma SortedHeads(ms: seq<Match>)
    requires ms != []
    ensures |SortBy(MatchLess, ms)| == |ms|
    ensures Head(ms, LowestTier(ms)) == Some(SortBy(MatchLess, ms)[0])
    ensures SortBy(MatchLess, ms)[0].tierOrder == LowestTier(ms)
    ensures var higher := Filter(Above(LowestTier(ms)), ms);
            var found := Filter(Above(LowestTier(ms)), SortBy(MatchLess, ms));
            (higher == [] <==> found == []) &&
            (higher != [] ==> Head(higher, LowestTier(higher)) == Some(found[0]))
  {
    var t := LowestTier(ms);
    var higher := Filter(Above(t), ms);
    MatchesAreOrdered(ms);
    SortHead(MatchLess, ms);
    LeastHeadsLowest(ms);
    HeadExists(ms, t);
    FilterSort(MatchLess, Above(t), ms);
    if higher != [] {
      MatchesAreOrdered(higher);
      SortHead(MatchLess, higher);
      LeastHeadsLowest(higher);
    }
  }

  // ----- When the single jump and the walk agree -------------------------------------------

  /** The head of the lowest tier with a match passes, and so does the head of the next one. */
  predicate DoublePass(ms: seq<Match>) {
    && ms != []
    && var t := LowestTier(ms);
       var higher := Filter(Above(t), ms);
       && Passes(Head(ms, t))
       && higher != []
       && Passes(Head(higher, LowestTier(higher)))
  }

  predicate Passes(head: Option<Match>) {
    head.Some? && head.value.action == Pass
  }

  lemma JumpAndWalk(ms: seq<Match>)
    ensures !DoublePass(ms) ==> OneJump(ms) == WalkTiers(ms)
    ensures DoublePass(ms) ==> ms != [] && OneJump(ms).Decided? && OneJump(ms).winner.action == Pass
  {
    if ms != [] {
      var t := LowestTier(ms);
      TierShrinks(ms, t);
      var higher := Filter(Above(t), ms);
      if higher != [] {
        TierShrinks(higher, LowestTier(higher));
      }
    }
  }

  /** Main result: the single jump gives the tier walk's outcome exactly when the heads of the two
      lowest tiers do not both pass. */
  lemma OneJumpIsWalkUnlessDoublePass(ms: seq<Match>)
    ensures OneJump(ms) == WalkTiers(ms) <==> !DoublePass(ms)
  {
    JumpAndWalk(ms);
    WalkNeverStopsOnPass(ms);
  }

  /** The first head that does not pass is neither an allow nor a deny. */
  ghost predicate StopsUndecided(ms: seq<Match>) {
    exists m :: StopsAt(ms, m) && !Decides(m.action)
  }

  /** The first head that does not pass is no allow. */
  ghost predicate StopsWithoutAllow(ms: seq<Match>) {
    exists m :: StopsAt(ms, m) && m.action != Allow
  }

  /** Every head passes. */
  ghost predicate NeverStops(ms: seq<Match>) {
    forall m :: !StopsAt(ms, m)
  }

  /** The walk, by the head it stops at. */
  lemma WalkKinds(ms: seq<Match>)
    requires ms != []
    ensures var outcome := WalkTiers(ms);
            && (StopsUndecided(ms) <==> outcome.Decided? && !Decides(outcome.winner.action))
            && (StopsWithoutAllow(ms) <==> outcome.Decided? && outcome.winner.action != Allow)
            && (NeverStops(ms) <==> outcome.FellThrough?)
  {
    WalkNeverStopsOnPass(ms);
    var outcome := WalkTiers(ms);
    forall m ensures StopsAt(ms, m) <==> outcome == Decided(m) {
      WalkStopsAt(ms, m);
    }
    if outcome.Decided? {
      assert StopsAt(ms, outcome.winner);
    }
  }

  lemma VerdictKinds(outcome: Outcome, fallback: Option<Status>)
    requires !outcome.NoMatch?
    ensures var verdict := Verdict(outcome, fallback);
            && (verdict == Insight(FAIL, DefaultDeny) <==> outcome.Decided? && !Decides(outcome.winner.action))
            && (verdict.status == FAIL <==>
                  (outcome.Decided? && outcome.winner.action != Allow) || (outcome.FellThrough? && fallback == Some(FAIL)))
  {
  }

  lemma VerdictsAgree(ms: seq<Match>, fallback: Option<Status>)
    ensures Verdict(OneJump(ms), fallback) == Verdict(WalkTiers(ms), fallback) <==> !DoublePass(ms) || StopsUndecided(ms)
    ensures Verdict(OneJump(ms), fallback).status == Verdict(WalkTiers(ms), fallback).status <==>
            !DoublePass(ms) || StopsWithoutAllow(ms) || (NeverStops(ms) && fallback == Some(FAIL))
  {
    JumpAndWalk(ms);
    WalkNeverStopsOnPass(ms);
    if DoublePass(ms) {
      WalkKinds(ms);
      VerdictKinds(WalkTiers(ms), fallback);
    }
  }

  /** Main result, for every list of policies: the DNS verdict is the verdict of the tier walk exactly
      when the two lowest matching tiers do not both pass, or the first head that does not pass is
      neither an allow nor a deny; and the two statuses agree exactly when the tiers do not both pass,
      or that head is no allow, or every head passes and the profiles fail. */
  lemma DNSAgreesExactly(policies: seq<Policy>, ctx: Context, fallback: Option<Status>)
    ensures var ms := EveryMatch(policies, ctx);
            Verdict(OneJump(ms), fallback) == Verdict(WalkTiers(ms), fallback) <==> !DoublePass(ms) || StopsUndecided(ms)
    ensures var ms := EveryMatch(policies, ctx);
            Verdict(OneJump(ms), fallback).status == Verdict(WalkTiers(ms), fallback).status <==>
            !DoublePass(ms) || StopsWithoutAllow(ms) || (NeverStops(ms) && fallback == Some(FAIL))
  {
    VerdictsAgree(EveryMatch(policies, ctx), fallback);
  }

  // ----- Three policies on which they differ -----------------------------------------------

  function TierPolicy(tier: string, action: string): Policy {
    Policy("", tier, tier, None, [Rule(action, "")])
  }

  function ThreeTiers(): Context {
    Context([Tier("a", Some(1.0)), Tier("b", Some(2.0)), Tier("c", Some(3.0))], r => true)
  }

  lemma OneRuleMatches(p: Policy, ctx: Context)
    requires |p.rules| == 1 && Hits(p, 0, ctx)
    ensures EveryMatch([p], ctx) == [MatchAt(p, 0, ctx)]
  {
    assert [p][..0] == [] && EveryMatch([], ctx) == [];
    assert MatchesFrom(p, 1, ctx, Never) == [];
  }

  lemma ThreeRulesMatch(p: Policy, q: Policy, r: Policy, ctx: Context)
    requires |p.rules| == |q.rules| == |r.rules| == 1 && Hits(p, 0, ctx) && Hits(q, 0, ctx) && Hits(r, 0, ctx)
    ensures EveryMatch([p, q, r], ctx) == [MatchAt(p, 0, ctx)] + ([MatchAt(q, 0, ctx)] + [MatchAt(r, 0, ctx)])
  {
    OneRuleMatches(p, ctx);
    OneRuleMatches(q, ctx);
    OneRuleMatches(r, ctx);
    assert [p, q, r] == [p] + ([q] + [r]);
    CollectedAppend([p], [q] + [r], ctx);
    CollectedAppend([q], [r], ctx);
  }

  lemma TierOrders()
    ensures var tiers := ThreeTiers().tiers;
            TierOrder("a", tiers) == 1.0 && TierOrder("b", tiers) == 2.0 && TierOrder("c", tiers) == 3.0
  {
    var tiers := ThreeTiers().tiers;
    assert tiers[1..][0] == tiers[1] && tiers[1..][1..][0] == tiers[2];
  }

  lemma ActionWords()
    ensures ActionOf("pass") == Pass && ActionOf("allow") == Allow
  {
    assert ToLower("pass") == "pass" && ToLower("allow") == "allow";
  }

  /** Whenever the lowest tier passes to a tier that passes as well, the DNS evaluation stops there and
      the walk does not. */
  lemma DoublePassDiverges(ms: seq<Match>, a: Match, rest: seq<Match>, b: Match)
    requires ms == [a] + rest && forall m :: m in rest ==> a.tierOrder < m.tierOrder
    requires a.action == Pass && rest != [] && Head(rest, LowestTier(rest)) == Some(b) && b.action == Pass
    ensures OneJump(ms) == Decided(b) && WalkTiers(ms) == WalkTiers(rest) && OneJump(ms) != WalkTiers(ms)
  {
    LowestOfMany(ms, a, rest);
    WalkNeverStopsOnPass(rest);
  }

  lemma PassThenAllow(two: seq<Match>, b: Match, c: Match)
    requires two == [b] + [c] && b.tierOrder < c.tierOrder && b.action == Pass && c.action == Allow
    ensures WalkTiers(two) == Decided(c) && Head(two, LowestTier(two)) == Some(b)
  {
    LowestOfMany([c], c, []);
    assert WalkTiers([c]) == Decided(c);
    LowestOfMany(two, b, [c]);
  }

  /** Pass in tier `a`, Pass in tier `b`, Allow in tier `c`: the path evaluation passes and the DNS
      evaluation fails. */
  lemma ThreePoliciesDiffer()
    ensures var policies := [TierPolicy("a", "pass"), TierPolicy("b", "pass"), TierPolicy("c", "allow")];
            && DirectionVerdict(policies, ThreeTiers(), None).status == PASS
            && Verdict(OneJump(EveryMatch(policies, ThreeTiers())), None).status == FAIL
  {
    ActionWords();
    TierOrders();
    PassPassAllowPolicies(TierPolicy("a", "pass"), TierPolicy("b", "pass"), TierPolicy("c", "allow"), ThreeTiers());
  }

  /** Three policies with one matching rule each: Pass, Pass and Allow in ascending tiers. */
  lemma PassPassAllowPolicies(p: Policy, q: Policy, r: Policy, ctx: Context)
    requires |p.rules| == |q.rules| == |r.rules| == 1 && Hits(p, 0, ctx) && Hits(q, 0, ctx) && Hits(r, 0, ctx)
    requires MatchAt(p, 0, ctx).tierOrder < MatchAt(q, 0, ctx).tierOrder < MatchAt(r, 0, ctx).tierOrder
    requires MatchAt(p, 0, ctx).action == Pass && MatchAt(q, 0, ctx).action == Pass
    requires MatchAt(r, 0, ctx).action == Allow
    ensures DirectionVerdict([p, q, r], ctx, None).status == PASS
    ensures Verdict(OneJump(EveryMatch([p, q, r], ctx)), None).status == FAIL
  {
    ThreeRulesMatch(p, q, r, ctx);
    PassPassAllowVerdicts(EveryMatch([p, q, r], ctx), MatchAt(p, 0, ctx), MatchAt(q, 0, ctx), MatchAt(r, 0, ctx));
  }

  lemma PassPassAllowVerdicts(ms: seq<Match>, a: Match, b: Match, c: Match)
    requires ms == [a] + ([b] + [c]) && a.tierOrder < b.tierOrder < c.tierOrder
    requires a.action == Pass && b.action == Pass && c.action == Allow
    ensures Verdict(WalkTiers(ms), None) == Insight(PASS, Explicit(c))
    ensures Verdict(OneJump(ms), None) == Insight(FAIL, DefaultDeny)
  {
    PassPassAllow(ms, a, b, c);
  }

  lemma PassPassAllow(ms: seq<Match>, a: Match, b: Match, c: Match)
    requires ms == [a] + ([b] + [c]) && a.tierOrder < b.tierOrder < c.tierOrder
    requires a.action == Pass && b.action == Pass && c.action == Allow
    ensures WalkTiers(ms) == Decided(c) && OneJump(ms) == Decided(b)
  {
    PassThenAllow([b] + [c], b, c);
    DoublePassDiverges(ms, a, [b] + [c], b);
  }

  // ----- Listing order ---------------------------------------------------------------------

  /** Main result: with distinct display names the DNS verdict does not depend on the listing order. */
  lemma DNSIgnoresOrder(a: seq<Policy>, b: seq<Policy>, ctx: Context, fallback: Option<Status>)
    requires multiset(a) == multiset(b) && DistinctNames(a)
    ensures Verdict(OneJump(EveryMatch(a, ctx)), fallback) == Verdict(OneJump(EveryMatch(b, ctx)), fallback)
  {
    var ma, mb := EveryMatch(a, ctx), EveryMatch(b, ctx);
    CollectedPermutes(a, b, ctx);
    assert |multiset(ma)| == |ma| && |multiset(mb)| == |mb|;
    if ma != [] {
      MatchesAreDistinct(a, ctx);
      MatchesAreOrdered(ma);
      SortUnique(MatchLess, ma, mb);
      JumpSeesSorted(ma, mb);
    }
  }

  lemma JumpSeesSorted(a: seq<Match>, b: seq<Match>)
    requires a != [] && b != [] && SortBy(MatchLess, a) == SortBy(MatchLess, b)
    ensures OneJump(a) == OneJump(b)
  {
    SortedHeads(a);
    SortedHeads(b);
  }
}
