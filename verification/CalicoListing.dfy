/** When the verdict of calicoDirectionDecision depends on the order in which the policies are listed. */
module CalicoListing {
  import opened Text
  import opened Sorting
  import opened CalicoPolicy
  import opened CalicoDecision

  /** The namespace and the name of a policy object; a global policy has no namespace. */
  datatype ObjectName = ObjectName(namespace: string, name: string)

  function ShownAs(o: ObjectName): string {
    DisplayName(Policy(o.namespace, o.name, "", None, []))
  }

  /** `policies` are objects of these names, with any tiers, orders and rules. */
  ghost predicate Named(policies: seq<Policy>, objects: seq<ObjectName>) {
    && |policies| == |objects|
    && forall i :: 0 <= i < |objects| ==>
         policies[i].namespace == objects[i].namespace && policies[i].name == objects[i].name
  }

  ghost predicate SameVerdict(a: seq<Policy>, b: seq<Policy>, ctx: Context, fallback: Option<Status>) {
    DirectionVerdict(a, ctx, fallback) == DirectionVerdict(b, ctx, fallback)
  }

  /** Whatever the objects hold, and whatever the tiers and the tested path are, the listing order does
      not matter. */
  ghost predicate OrderNeverMatters(objects: seq<ObjectName>) {
    forall a, b, ctx, fallback ::
      Named(a, objects) && multiset(a) == multiset(b) ==> SameVerdict(a, b, ctx, fallback)
  }

  ghost predicate ShownApart(objects: seq<ObjectName>) {
    forall i, j :: 0 <= i < j < |objects| ==> ShownAs(objects[i]) != ShownAs(objects[j])
  }

  /** Main result: the listing order never matters if and only if the display names are distinct. */
  lemma OrderMattersExactly(objects: seq<ObjectName>)
    ensures OrderNeverMatters(objects) <==> ShownApart(objects)
  {
    if ShownApart(objects) {
      forall a, b, ctx, fallback | Named(a, objects) && multiset(a) == multiset(b)
        ensures SameVerdict(a, b, ctx, fallback)
      {
        NamedApart(a, objects);
        VerdictIgnoresOrder(a, b, ctx, fallback);
      }
    } else {
      var i, j :| 0 <= i < j < |objects| && ShownAs(objects[i]) == ShownAs(objects[j]);
      SharedNameMatters(objects, i, j);
    }
  }

  lemma NamedApart(policies: seq<Policy>, objects: seq<ObjectName>)
    requires Named(policies, objects) && ShownApart(objects)
    ensures DistinctNames(policies)
  {
    forall i, j | 0 <= i < j < |policies| ensures DisplayName(policies[i]) != DisplayName(policies[j]) {
      assert ShownAs(objects[i]) != ShownAs(objects[j]);
    }
  }

  // ----- Two objects of one display name ---------------------------------------------------

  function Holding(o: ObjectName, rules: seq<Rule>): Policy {
    Policy(o.namespace, o.name, "", None, rules)
  }

  /** Object `i` allows, object `j` denies, and the others have no rules. */
  function Clash(objects: seq<ObjectName>, i: nat, j: nat): (policies: seq<Policy>)
    ensures |policies| == |objects|
    ensures forall k :: 0 <= k < |objects| ==> policies[k] == Holding(objects[k], ClashRules(k, i, j))
  {
    seq(|objects|, k requires 0 <= k < |objects| => Holding(objects[k], ClashRules(k, i, j)))
  }

  function ClashRules(k: nat, i: nat, j: nat): seq<Rule> {
    if k == i then [Rule("allow", "")] else if k == j then [Rule("deny", "")] else []
  }

  function AnyPath(): Context {
    Context([], r => true)
  }

  lemma {:induction false} Silent(policies: seq<Policy>, ctx: Context)
    requires forall k :: 0 <= k < |policies| ==> policies[k].rules == []
    ensures EveryMatch(policies, ctx) == []
  {
    if policies != [] {
      Silent(policies[..|policies| - 1], ctx);
    }
  }

  lemma OneSpeaks(a: seq<Policy>, p: Policy, ctx: Context)
    requires forall k :: 0 <= k < |a| ==> a[k].rules == []
    requires |p.rules| == 1 && Hits(p, 0, ctx)
    ensures EveryMatch(a + [p], ctx) == [MatchAt(p, 0, ctx)]
  {
    Silent(a, ctx);
    assert (a + [p])[..|a|] == a;
    assert MatchesFrom(p, 1, ctx, Never) == [];
  }

  /** Of the policies only the two at `i` and `j` have a rule. */
  lemma TwoSpeak(policies: seq<Policy>, i: nat, j: nat, ctx: Context)
    requires i < j < |policies|
    requires forall k :: 0 <= k < |policies| && k != i && k != j ==> policies[k].rules == []
    requires |policies[i].rules| == 1 && Hits(policies[i], 0, ctx)
    requires |policies[j].rules| == 1 && Hits(policies[j], 0, ctx)
    ensures EveryMatch(policies, ctx) == [MatchAt(policies[i], 0, ctx), MatchAt(policies[j], 0, ctx)]
  {
    var first, second, last := policies[..i], policies[i + 1..j], policies[j + 1..];
    var p, q := policies[i], policies[j];
    assert policies == first + [p] + (second + [q]) + last;
    CollectedAppend(first + [p] + (second + [q]), last, ctx);
    CollectedAppend(first + [p], second + [q], ctx);
    OneSpeaks(first, p, ctx);
    OneSpeaks(second, q, ctx);
    Silent(last, ctx);
  }

  /** The one listed first decides. */
  lemma FirstSpeakerDecides(policies: seq<Policy>, i: nat, j: nat, ctx: Context)
    requires i < j < |policies|
    requires forall k :: 0 <= k < |policies| && k != i && k != j ==> policies[k].rules == []
    requires |policies[i].rules| == 1 && Hits(policies[i], 0, ctx)
    requires |policies[j].rules| == 1 && Hits(policies[j], 0, ctx)
    requires !MatchLess(MatchAt(policies[j], 0, ctx), MatchAt(policies[i], 0, ctx))
    requires MatchAt(policies[i], 0, ctx).tierOrder == MatchAt(policies[j], 0, ctx).tierOrder
    requires MatchAt(policies[i], 0, ctx).action != Pass
    ensures DirectionVerdict(policies, ctx, None) == Verdict(Decided(MatchAt(policies[i], 0, ctx)), None)
  {
    TwoSpeak(policies, i, j, ctx);
    TieGoesToFirst(MatchAt(policies[i], 0, ctx), MatchAt(policies[j], 0, ctx));
  }

  lemma AllowAndDeny()
    ensures ActionOf("allow") == Allow && ActionOf("deny") == Deny
  {
    assert ToLower("allow") == "allow" && ToLower("deny") == "deny";
  }

  function Swapped(policies: seq<Policy>, i: nat, j: nat): seq<Policy>
    requires i < j < |policies|
  {
    policies[i := policies[j]][j := policies[i]]
  }

  lemma SwapPermutes(policies: seq<Policy>, i: nat, j: nat)
    requires i < j < |policies|
    ensures multiset(Swapped(policies, i, j)) == multiset(policies)
  {
  }

  /** Two objects of one display name can be given rules so that their order decides. */
  lemma SharedNameMatters(objects: seq<ObjectName>, i: nat, j: nat)
    requires i < j < |objects| && ShownAs(objects[i]) == ShownAs(objects[j])
    ensures var policies := Clash(objects, i, j);
            && Named(policies, objects) && multiset(Swapped(policies, i, j)) == multiset(policies)
            && DirectionVerdict(policies, AnyPath(), None).status == PASS
            && DirectionVerdict(Swapped(policies, i, j), AnyPath(), None).status == FAIL
            && !SameVerdict(policies, Swapped(policies, i, j), AnyPath(), None)
  {
    var policies := Clash(objects, i, j);
    SwapPermutes(policies, i, j);
    AllowAndDeny();
    ClashDecided(policies, i, j);
    ClashDecided(Swapped(policies, i, j), i, j);
  }

  /** Two policies of one display name, with one rule each and nothing else set. */
  lemma ClashDecided(policies: seq<Policy>, i: nat, j: nat)
    requires i < j < |policies|
    requires forall k :: 0 <= k < |policies| && k != i && k != j ==> policies[k].rules == []
    requires policies[i] == Holding(ObjectName(policies[i].namespace, policies[i].name), policies[i].rules)
    requires policies[j] == Holding(ObjectName(policies[j].namespace, policies[j].name), policies[j].rules)
    requires DisplayName(policies[i]) == DisplayName(policies[j])
    requires |policies[i].rules| == 1 && Hits(policies[i], 0, AnyPath())
    requires |policies[j].rules| == 1 && Hits(policies[j], 0, AnyPath())
    requires ActionOf(policies[i].rules[0].action) != Pass
    ensures DirectionVerdict(policies, AnyPath(), None) == Verdict(Decided(MatchAt(policies[i], 0, AnyPath())), None)
  {
    LexLessTotal(DisplayName(policies[i]), DisplayName(policies[j]));
    FirstSpeakerDecides(policies, i, j, AnyPath());
  }
}
