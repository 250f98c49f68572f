/** Calico tiered policy evaluation (internal/policy/calico/analyze.go): matches are collected
    policy by policy with an early break, sorted into one flat list, and Pass is resolved by
    jumping in that list.  The reference walks the tiers in ascending order. */
module CalicoPolicy {
  import opened Text
  import opened Sorting

  // ----- Policies, tiers, rules ------------------------------------------------------------

  datatype Action = Allow | Deny | Pass | Log | Other(text: string)

  /** The action of a rule: lower-cased, with a missing one read as allow. */
  function ActionOf(text: string): Action {
    var lower := ToLower(text);
    if lower == "" || lower == "allow" then Allow
    else if lower == "deny" then Deny
    else if lower == "pass" then Pass
    else if lower == "log" then Log
    else Other(lower)
  }

  /** A raw list entry: a rule with its action and its other fields, or something that is no rule. */
  datatype Rule = Rule(action: string, criteria: string) | NotARule

  datatype Policy = Policy(namespace: string, name: string, tier: string, order: Option<real>, rules: seq<Rule>)

  datatype Tier = Tier(name: string, order: Option<real>)

  /** calicoPolicyDisplayName. */
  function DisplayName(p: Policy): string {
    if p.namespace == "" then "global/" + p.name else p.namespace + "/" + p.name
  }

  /** calicoPolicyTier. */
  function PolicyTier(p: Policy): string {
    DefaultString(p.tier, "default")
  }

  /** calicoPolicyOrder. */
  function PolicyOrder(p: Policy): real {
    if p.order.Some? then p.order.value else 1000000.0
  }

  /** calicoTierOrder: the first tier of that name that has an order. */
  function TierOrder(name: string, tiers: seq<Tier>): real {
    if tiers == [] then (if name == "default" then 1000000.0 else 500000.0)
    else if tiers[0].name == name && tiers[0].order.Some? then tiers[0].order.value
    else TierOrder(name, tiers[1..])
  }

  datatype Match = Match(policy: string, tier: string, tierOrder: real, policyOrder: real,
                         ruleIndex: nat, action: Action)

  /** The comparison of sortRuleMatches. */
  predicate MatchLess(a: Match, b: Match) {
    if a.tierOrder != b.tierOrder then a.tierOrder < b.tierOrder
    else if a.policyOrder != b.policyOrder then a.policyOrder < b.policyOrder
    else if a.ruleIndex != b.ruleIndex then a.ruleIndex < b.ruleIndex
    else LexLess(a.policy, b.policy)
  }

  // ----- What a policy contributes ---------------------------------------------------------

  /** The fixed part of an evaluation: the tier objects, and the rules that match the tested path. */
  datatype Context = Context(tiers: seq<Tier>, path: Rule -> bool)

  predicate Hits(p: Policy, i: nat, ctx: Context)
    requires i < |p.rules|
  {
    p.rules[i].Rule? && ctx.path(p.rules[i]) && ActionOf(p.rules[i].action) != Log
  }

  function MatchAt(p: Policy, i: nat, ctx: Context): Match
    requires i < |p.rules| && p.rules[i].Rule?
  {
    Match(DisplayName(p), PolicyTier(p), TierOrder(PolicyTier(p), ctx.tiers), PolicyOrder(p), i + 1,
          ActionOf(p.rules[i].action))
  }

  /** The matches of the rules from `i` on, up to and including the first whose action stops the scan. */
  function MatchesFrom(p: Policy, i: nat, ctx: Context, stops: Action -> bool): seq<Match>
    requires i <= |p.rules|
    decreases |p.rules| - i
  {
    if i == |p.rules| then []
    else if !Hits(p, i, ctx) then MatchesFrom(p, i + 1, ctx, stops)
    else if stops(MatchAt(p, i, ctx).action) then [MatchAt(p, i, ctx)]
    else [MatchAt(p, i, ctx)] + MatchesFrom(p, i + 1, ctx, stops)
  }

  function Collected(policies: seq<Policy>, ctx: Context, stops: Action -> bool): seq<Match> {
    if policies == [] then []
    else
      var n := |policies| - 1;
      Collected(policies[..n], ctx, stops) + MatchesFrom(policies[n], 0, ctx, stops)
  }

  predicate Decides(action: Action) {
    action == Allow || action == Deny
  }

  predicate Never(action: Action) {
    false
  }

  /** Every matching rule of every policy, with no early stop. */
  function EveryMatch(policies: seq<Policy>, ctx: Context): seq<Match> {
    Collected(policies, ctx, Never)
  }

  // ----- The reference: walk the tiers -----------------------------------------------------

  datatype Outcome = NoMatch | Decided(winner: Match) | FellThrough(last: Match)

  function InTier(t: real): Match -> bool {
    (m: Match) => m.tierOrder == t
  }

  function Above(t: real): Match -> bool {
    (m: Match) => m.tierOrder > t
  }

  function LowestTier(ms: seq<Match>): (t: real)
    requires ms != []
    ensures forall m :: m in ms ==> t <= m.tierOrder
    ensures exists m :: m in ms && m.tierOrder == t
  {
    LastSplit(ms);
    var n := |ms| - 1;
    if n == 0 then ms[0].tierOrder
    else
      var t := LowestTier(ms[..n]);
      if ms[n].tierOrder < t then ms[n].tierOrder else t
  }

  /** The first match of a tier: the earliest of its least matches. */
  function Head(ms: seq<Match>, t: real): Option<Match> {
    var members := Filter(InTier(t), ms);
    if members == [] then None else Some(Least(MatchLess, members))
  }

  /** Tier by tier in ascending order: the first match decides, unless it passes to the next tier
      that has a match. */
  function WalkTiers(ms: seq<Match>): Outcome
    decreases |ms|
  {
    if ms == [] then NoMatch
    else
      var t := LowestTier(ms);
      TierShrinks(ms, t);
      var head := Head(ms, t).value;
      if head.action != Pass then Decided(head)
      else
        var higher := Filter(Above(t), ms);
        if higher == [] then FellThrough(head) else WalkTiers(higher)
  }

  lemma TierShrinks(ms: seq<Match>, t: real)
    requires ms != [] && t == LowestTier(ms)
    ensures Head(ms, t).Some? && |Filter(Above(t), ms)| < |ms|
  {
    var m :| m in ms && m.tierOrder == t;
    FilterMembers(InTier(t), ms);
    FilterDrops(Above(t), ms, m);
  }

  // ----- The order of matches --------------------------------------------------------------

  lemma MatchOrder(a: Match, b: Match, c: Match)
    ensures MatchLess(a, b) ==> !MatchLess(b, a)
    ensures !MatchLess(a, b) && !MatchLess(b, c) ==> !MatchLess(a, c)
  {
    LexLessTotal(a.policy, b.policy);
    LexLessTotal(b.policy, c.policy);
    LexLessTotal(a.policy, c.policy);
    if LexLess(c.policy, b.policy) && LexLess(b.policy, a.policy) {
      LexLessTransitive(c.policy, b.policy, a.policy);
    }
  }

  lemma MatchesAreOrdered(ms: seq<Match>)
    ensures WeakOrderOn(MatchLess, ms)
  {
    forall a, b | a in ms && b in ms && MatchLess(a, b) ensures !MatchLess(b, a) {
      MatchOrder(a, b, b);
    }
    forall a, b, c | a in ms && b in ms && c in ms && !MatchLess(a, b) && !MatchLess(b, c)
      ensures !MatchLess(a, c)
    {
      MatchOrder(a, b, c);
    }
  }

  // ----- Jumping over Pass in the flat list ------------------------------------------------

  /** The loop of effectiveCalicoMatchAfterPass, from `current` on. */
  function JumpFrom(ms: seq<Match>, current: Match): Outcome
    decreases |Filter(Above(current.tierOrder), ms)|
  {
    if current.action != Pass then Decided(current)
    else
      var higher := Filter(Above(current.tierOrder), ms);
      if higher == [] then FellThrough(current)
      else
        HigherShrinks(ms, current.tierOrder);
        JumpFrom(ms, higher[0])
  }

  lemma HigherShrinks(ms: seq<Match>, t: real)
    requires Filter(Above(t), ms) != []
    ensures Filter(Above(t), ms)[0].tierOrder > t && Filter(Above(t), ms)[0] in ms
    ensures |Filter(Above(Filter(Above(t), ms)[0].tierOrder), ms)| < |Filter(Above(t), ms)|
  {
    var next := Filter(Above(t), ms)[0];
    FilterMembers(Above(t), ms);
    FilterTwice(ms, t, next.tierOrder);
    FilterDrops(Above(next.tierOrder), Filter(Above(t), ms), next);
  }

  lemma {:induction false} FilterTwice(ms: seq<Match>, t: real, u: real)
    requires t <= u
    ensures Filter(Above(u), Filter(Above(t), ms)) == Filter(Above(u), ms)
  {
    if ms != [] {
      var n := |ms| - 1;
      FilterTwice(ms[..n], t, u);
      var kept := Filter(Above(t), ms[..n]);
      assert (kept + [ms[n]])[..|kept|] == kept;
    }
  }

  lemma {:induction false} FilterInTierAbove(ms: seq<Match>, t: real, u: real)
    requires t < u
    ensures Filter(InTier(u), Filter(Above(t), ms)) == Filter(InTier(u), ms)
  {
    if ms != [] {
      var n := |ms| - 1;
      FilterInTierAbove(ms[..n], t, u);
      var kept := Filter(Above(t), ms[..n]);
      assert (kept + [ms[n]])[..|kept|] == kept;
    }
  }

  /** The least match overall heads the lowest tier. */
  lemma LeastHeadsLowest(ms: seq<Match>)
    requires ms != []
    ensures Head(ms, LowestTier(ms)) == Some(Least(MatchLess, ms))
  {
    var t := LowestTier(ms);
    var m :| m in ms && m.tierOrder == t;
    MatchesAreOrdered(ms);
    LeastIsLeast(MatchLess, ms);
    assert !MatchLess(m, Least(MatchLess, ms));
    LeastSurvives(MatchLess, InTier(LowestTier(ms)), ms);
  }

  /** Jumping in the sorted list walks the tiers. */
  lemma {:induction false} JumpWalks(ms: seq<Match>, part: seq<Match>)
    requires part != []
    requires part == ms || exists t :: part == Filter(Above(t), ms)
    ensures JumpFrom(SortBy(MatchLess, ms), Least(MatchLess, part)) == WalkTiers(part)
    decreases |part|
  {
    var sorted := SortBy(MatchLess, ms);
    var t := LowestTier(part);
    var head := Least(MatchLess, part);
    LeastHeadsLowest(part);
    TierShrinks(part, t);
    FilterMembers(InTier(t), part);
    MatchesAreOrdered(Filter(InTier(t), part));
    LeastIsLeast(MatchLess, Filter(InTier(t), part));
    assert head.tierOrder == t && head in part;
    MatchesAreOrdered(ms);
    FilterSort(MatchLess, Above(t), ms);
    var higher := Filter(Above(t), ms);
    assert higher == Filter(Above(t), part) by {
      if part != ms {
        var u :| part == Filter(Above(u), ms);
        FilterMembers(Above(u), ms);
        FilterTwice(ms, u, t);
      }
    }
    if head.action == Pass && higher != [] {
      MatchesAreOrdered(higher);
      SortHead(MatchLess, higher);
      JumpWalks(ms, higher);
    } else if higher == [] {
      assert SortBy(MatchLess, higher) == [];
    } else {
      SortPermutes(MatchLess, higher);
    }
  }

  lemma JumpIsWalk(ms: seq<Match>)
    requires ms != []
    ensures |SortBy(MatchLess, ms)| == |ms|
    ensures JumpFrom(SortBy(MatchLess, ms), SortBy(MatchLess, ms)[0]) == WalkTiers(ms)
  {
    MatchesAreOrdered(ms);
    SortHead(MatchLess, ms);
    JumpWalks(ms, ms);
  }

  // ----- The programs ----------------------------------------------------------------------

  /** effectiveCalicoMatchAfterPass: `ok` is false for an empty list and when the chain of Pass
      actions ends without a match in a higher tier. */
  method EffectiveMatchAfterPass(ms: seq<Match>) returns (current: Option<Match>, ok: bool)
    ensures ms == [] ==> current == None && !ok
    ensures ms != [] ==> current.Some?
    ensures ms != [] ==> JumpFrom(ms, ms[0]) == (if ok then Decided(current.value) else FellThrough(current.value))
  {
    if ms == [] {
      return None, false;
    }
    var now := ms[0];
    while now.action == Pass
      invariant JumpFrom(ms, ms[0]) == JumpFrom(ms, now)
      decreases |Filter(Above(now.tierOrder), ms)|
    {
      ghost var before := now;
      var found := false;
      for k := 0 to |ms|
        invariant !found && now == before
        invariant Filter(Above(now.tierOrder), ms[..k]) == []
      {
        assert ms[..k + 1][..k] == ms[..k];
        if ms[k].tierOrder > now.tierOrder {
          FirstKept(Above(before.tierOrder), ms, k);
          HigherShrinks(ms, before.tierOrder);
          now := ms[k];
          found := true;
          break;
        }
      }
      if !found {
        assert ms[..|ms|] == ms;
        return Some(now), false;
      }
    }
    return Some(now), true;
  }

  /** The collecting loops of calicoDirectionDecision. */
  method CollectMatches(policies: seq<Policy>, ctx: Context) returns (ms: seq<Match>)
    ensures ms == Collected(policies, ctx, Decides)
  {
    ms := [];
    for k := 0 to |policies|
      invariant ms == Collected(policies[..k], ctx, Decides)
    {
      var item := policies[k];
      assert policies[..k + 1][..k] == policies[..k];
      ghost var before := ms;
      ghost var got := [];
      ghost var all := MatchesFrom(item, 0, ctx, Decides);
      var index := 0;
      while index < |item.rules|
        invariant index <= |item.rules|
        invariant ms == before + got
        invariant all == got + MatchesFrom(item, index, ctx, Decides)
      {
        var raw := item.rules[index];
        if !raw.Rule? || !ctx.path(raw) {
          index := index + 1;
          continue;
        }
        var action := ActionOf(raw.action);
        if action == Log {
          index := index + 1;
          continue;
        }
        var found := Match(DisplayName(item), PolicyTier(item), TierOrder(PolicyTier(item), ctx.tiers),
                           PolicyOrder(item), index + 1, action);
        ms := ms + [found];
        got := got + [found];
        if action == Allow || action == Deny {
          assert all == got;
          break;
        }
        index := index + 1;
      }
      assert all == got;
    }
    assert policies[..|policies|] == policies;
  }
}
