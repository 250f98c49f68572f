/** What the verdicts of calicoDirectionDecision mean, read off the fields of policies and matches. */
module CalicoReading {
  import opened Text
  import opened Sorting
  import opened CalicoPolicy
  import opened CalicoDecision

  /** No match of the same tier has a lower policy order, nor the same one and a lower rule number, nor
      the same of both and a policy name that sorts before. */
  ghost predicate FirstInTier(ms: seq<Match>, m: Match) {
    && m in ms
    && forall x :: x in ms && x.tierOrder == m.tierOrder ==>
         || m.policyOrder < x.policyOrder
         || (m.policyOrder == x.policyOrder && m.ruleIndex < x.ruleIndex)
         || (m.policyOrder == x.policyOrder && m.ruleIndex == x.ruleIndex && !LexLess(x.policy, m.policy))
  }

  ghost predicate FirstPasses(ms: seq<Match>, t: real) {
    exists h :: FirstInTier(ms, h) && h.tierOrder == t && h.action == Pass
  }

  /** Every tier below with a match has a first match that passes. */
  ghost predicate PassedBelow(ms: seq<Match>, t: real) {
    forall x :: x in ms && x.tierOrder < t ==> FirstPasses(ms, x.tierOrder)
  }

  lemma HeadIsFirst(ms: seq<Match>, t: real)
    requires Head(ms, t).Some?
    ensures FirstInTier(ms, Head(ms, t).value) && Head(ms, t).value.tierOrder == t
  {
    var members := Filter(InTier(t), ms);
    var h := Head(ms, t).value;
    FilterMembers(InTier(t), ms);
    MatchesAreOrdered(members);
    LeastIsLeast(MatchLess, members);
    assert h in members;
    forall x | x in ms && x.tierOrder == t
      ensures || h.policyOrder < x.policyOrder
              || (h.policyOrder == x.policyOrder && h.ruleIndex < x.ruleIndex)
              || (h.policyOrder == x.policyOrder && h.ruleIndex == x.ruleIndex && !LexLess(x.policy, h.policy))
    {
      assert x in members && !MatchLess(x, h);
    }
  }

  /** Main result: a verdict that rests on a rule rests on the first match of its tier, by policy order, rule
      number and policy name, and every lower tier with a match starts with one that passes. */
  lemma DecidingMatchIsFirst(policies: seq<Policy>, ctx: Context, fallback: Option<Status>)
    requires DirectionVerdict(policies, ctx, fallback).basis.Explicit?
    ensures var verdict, ms := DirectionVerdict(policies, ctx, fallback), EveryMatch(policies, ctx);
            var m := verdict.basis.winner;
            && FirstInTier(ms, m) && PassedBelow(ms, m.tierOrder)
            && ((m.action == Deny && verdict.status == FAIL) || (m.action == Allow && verdict.status == PASS))
  {
    var ms := EveryMatch(policies, ctx);
    var m := DirectionVerdict(policies, ctx, fallback).basis.winner;
    WalkStopsAt(ms, m);
    HeadIsFirst(ms, m.tierOrder);
    StopsPassed(ms, m);
  }

  lemma StopsPassed(ms: seq<Match>, m: Match)
    requires StopsAt(ms, m)
    ensures PassedBelow(ms, m.tierOrder)
  {
    forall x | x in ms && x.tierOrder < m.tierOrder
      ensures FirstPasses(ms, x.tierOrder)
    {
      HeadExists(ms, x.tierOrder);
      HeadIsFirst(ms, x.tierOrder);
    }
  }

  /** Without ties, the first match of a tier heads it. */
  lemma FirstIsHead(ms: seq<Match>, m: Match)
    requires TotalOn(MatchLess, ms) && FirstInTier(ms, m)
    ensures Head(ms, m.tierOrder) == Some(m)
  {
    HeadExists(ms, m.tierOrder);
    HeadIsFirst(ms, m.tierOrder);
    var h := Head(ms, m.tierOrder).value;
    LexLessTotal(h.policy, m.policy);
    assert m != h ==> MatchLess(m, h) || MatchLess(h, m);
  }

  /** Main result, for policies of different display names: which rule a verdict rests on, exactly. */
  lemma VerdictRestsOn(policies: seq<Policy>, ctx: Context, fallback: Option<Status>, m: Match)
    requires policies != [] && DistinctNames(policies)
    ensures var ms := EveryMatch(policies, ctx);
            DirectionVerdict(policies, ctx, fallback).basis == Explicit(m) <==>
            FirstInTier(ms, m) && PassedBelow(ms, m.tierOrder) && (m.action == Allow || m.action == Deny)
  {
    var ms := EveryMatch(policies, ctx);
    MatchesAreDistinct(policies, ctx);
    if DirectionVerdict(policies, ctx, fallback).basis == Explicit(m) {
      DecidingMatchIsFirst(policies, ctx, fallback);
    }
    if FirstInTier(ms, m) && PassedBelow(ms, m.tierOrder) && (m.action == Allow || m.action == Deny) {
      PassedStops(ms, m);
      WalkStopsAt(ms, m);
    }
  }

  lemma FirstPassIsHead(ms: seq<Match>, t: real)
    requires TotalOn(MatchLess, ms) && FirstPasses(ms, t)
    ensures Head(ms, t).Some? && Head(ms, t).value.action == Pass
  {
    var h :| FirstInTier(ms, h) && h.tierOrder == t && h.action == Pass;
    FirstIsHead(ms, h);
  }

  lemma PassedStops(ms: seq<Match>, m: Match)
    requires TotalOn(MatchLess, ms) && FirstInTier(ms, m) && PassedBelow(ms, m.tierOrder) && m.action != Pass
    ensures StopsAt(ms, m)
  {
    FirstIsHead(ms, m);
    forall u | u < m.tierOrder && Head(ms, u).Some? ensures Head(ms, u).value.action == Pass {
      HeadExists(ms, u);
      assert Head(ms, u).value in ms;
      FirstPassIsHead(ms, u);
    }
  }

  /** The verdicts that rest on no rule. */
  lemma VerdictWithoutRule(policies: seq<Policy>, ctx: Context, fallback: Option<Status>)
    ensures policies == [] ==>
              (DirectionVerdict(policies, ctx, fallback).status == if fallback.Some? then fallback.value else PASS)
    ensures policies != [] && EveryMatch(policies, ctx) == [] ==>
              DirectionVerdict(policies, ctx, fallback) == Insight(FAIL, DefaultDeny)
    ensures var ms := EveryMatch(policies, ctx);
            policies != [] && ms != [] && (forall m :: FirstInTier(ms, m) ==> m.action == Pass) ==>
              (DirectionVerdict(policies, ctx, fallback).status == if fallback.Some? then fallback.value else WARN)
  {
    var ms := EveryMatch(policies, ctx);
    if policies != [] && ms != [] && (forall m :: FirstInTier(ms, m) ==> m.action == Pass) {
      WalkNeverStopsOnPass(ms);
      forall m ensures !StopsAt(ms, m) {
        if Head(ms, m.tierOrder).Some? {
          HeadIsFirst(ms, m.tierOrder);
        }
      }
      if WalkTiers(ms).Decided? {
        WalkStopsAt(ms, WalkTiers(ms).winner);
      }
    }
  }

  // ----- Literal policies ------------------------------------------------------------------

  function Ordered(name: string, order: Option<real>, action: string): Policy {
    Policy("", name, "", order, [Rule(action, "")])
  }

  function Tiered(name: string, tier: string, action: string): Policy {
    Policy("", name, tier, None, [Rule(action, "")])
  }

  function NoTiers(): Context {
    Context([], r => true)
  }

  lemma Words()
    ensures ActionOf("allow") == Allow && ActionOf("") == Allow && ActionOf("Deny") == Deny && ActionOf("PASS") == Pass
    ensures ActionOf("deny") == Deny && ActionOf("Log") == Log
  {
    assert ToLower("allow") == "allow" && ToLower("Deny") == "deny" && ToLower("PASS") == "pass";
    assert ToLower("deny") == "deny" && ToLower("Log") == "log" && ToLower("") == "";
  }

  /** Two policies with one matching rule each, the first of them first in the tier as well. */
  lemma LowerOrderDecides(p: Policy, q: Policy, ctx: Context)
    requires |p.rules| == 1 && Hits(p, 0, ctx) && |q.rules| == 1 && Hits(q, 0, ctx)
    requires PolicyTier(p) == PolicyTier(q) && PolicyOrder(p) < PolicyOrder(q)
    requires MatchAt(p, 0, ctx).action != Pass
    ensures DirectionVerdict([p, q], ctx, None) == Verdict(Decided(MatchAt(p, 0, ctx)), None)
  {
    FirstOfTwoDecides(p, q, ctx);
  }

  /** A deny of order 10 decides before an allow of order 20. */
  lemma LowerOrderExample()
    ensures DirectionVerdict([Ordered("a", Some(10.0), "deny"), Ordered("b", Some(20.0), "allow")], NoTiers(), None).status
            == FAIL
  {
    Words();
    LowerOrderDecides(Ordered("a", Some(10.0), "deny"), Ordered("b", Some(20.0), "allow"), NoTiers());
  }

  /** A policy without an order stands at 1000000. */
  lemma MissingOrderExample()
    ensures DirectionVerdict([Ordered("a", Some(999999.0), "deny"), Ordered("b", None, "allow")], NoTiers(), None).status
            == FAIL
    ensures DirectionVerdict([Ordered("a", None, "allow"), Ordered("b", Some(1000001.0), "deny")], NoTiers(), None).status
            == PASS
  {
    Words();
    LowerOrderDecides(Ordered("a", Some(999999.0), "deny"), Ordered("b", None, "allow"), NoTiers());
    LowerOrderDecides(Ordered("a", None, "allow"), Ordered("b", Some(1000001.0), "deny"), NoTiers());
  }

  /** Two policies with one matching rule each, in two tiers. */
  lemma LowerTierDecides(p: Policy, q: Policy, ctx: Context)
    requires |p.rules| == 1 && Hits(p, 0, ctx) && |q.rules| == 1 && Hits(q, 0, ctx)
    requires MatchAt(p, 0, ctx).tierOrder < MatchAt(q, 0, ctx).tierOrder && MatchAt(p, 0, ctx).action != Pass
    ensures DirectionVerdict([p, q], ctx, None) == Verdict(Decided(MatchAt(p, 0, ctx)), None)
  {
    OneRuleEach(p, q, ctx);
    LowestDecides([MatchAt(p, 0, ctx), MatchAt(q, 0, ctx)], MatchAt(p, 0, ctx), MatchAt(q, 0, ctx));
  }

  lemma LowestDecides(ms: seq<Match>, a: Match, b: Match)
    requires ms == [a, b] && a.tierOrder < b.tierOrder && a.action != Pass
    ensures WalkTiers(ms) == Decided(a)
  {
    assert ms == [a] + [b];
    LowestOfMany(ms, a, [b]);
  }

  /** A tier without an order stands at 500000, the default tier at 1000000. */
  lemma MissingTierExample()
    ensures DirectionVerdict([Tiered("a", "x", "allow"), Tiered("b", "", "deny")], NoTiers(), None).status == PASS
  {
    Words();
    LowerTierDecides(Tiered("a", "x", "allow"), Tiered("b", "", "deny"), NoTiers());
  }

  function LowTier(): Context {
    Context([Tier("low", None), Tier("low", Some(499999.0))], r => true)
  }

  lemma LowTierExample()
    ensures DirectionVerdict([Tiered("a", "low", "deny"), Tiered("b", "x", "allow")], LowTier(), None).status == FAIL
  {
    Words();
    var tiers := LowTier().tiers;
    assert tiers[1..][0] == tiers[1];
    assert TierOrder("low", tiers[1..]) == 499999.0 && TierOrder("x", tiers[1..][1..]) == 500000.0;
    LowerTierDecides(Tiered("a", "low", "deny"), Tiered("b", "x", "allow"), LowTier());
  }

  function HighTier(): Context {
    Context([Tier("high", Some(1000001.0))], r => true)
  }

  lemma HighTierExample()
    ensures DirectionVerdict([Tiered("a", "default", "deny"), Tiered("b", "high", "allow")], HighTier(), None).status == FAIL
  {
    Words();
    LowerTierDecides(Tiered("a", "default", "deny"), Tiered("b", "high", "allow"), HighTier());
  }
}
