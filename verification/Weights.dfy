/** Percentages of weighted backends (internal/check/gateway.go): tenths of a percent, rounded. */
module Weights {

  /** Go's integer division and remainder truncate toward zero. */
  function Quot(a: int, b: int): int
    requires b > 0
  {
    if a >= 0 then a / b else -((-a) / b)
  }

  function Rem(a: int, b: int): int
    requires b > 0
  {
    a - Quot(a, b) * b
  }

  /** The number of tenths that gatewayWeightPercentText prints for a positive total. */
  function Tenths(weight: int, total: int): int
    requires total > 0
  {
    var tenths := Quot(weight * 1000, total);
    if Rem(weight * 1000, total) >= (total + 1) / 2 then tenths + 1 else tenths
  }

  function Abs(x: int): nat {
    if x < 0 then -x else x
  }

  lemma DivBounds(a: nat, b: nat)
    requires b > 0
    ensures a / b * b <= a < a / b * b + b
  {
    assert a == a / b * b + a % b;
  }

  /** The rounding error, in units of 1/total. */
  function Error(weight: int, total: int): int
    requires total > 0
  {
    Tenths(weight, total) * total - 1000 * weight
  }

  /** Main result: for a weight that is not negative the result is the nearest number of tenths, and
      half a tenth rounds up. */
  lemma TenthsIsNearest(weight: int, total: int)
    requires weight >= 0 && total > 0
    ensures -total < 2 * Error(weight, total) <= total
  {
    var q := Quot(weight * 1000, total);
    DivBounds(weight * 1000, total);
    var r := weight * 1000 - q * total;
    if r >= (total + 1) / 2 {
      assert (q + 1) * total == q * total + total;
    }
  }

  /** A negative weight is truncated instead: the result is nearest exactly when the cut part is at
      most half a tenth. */
  lemma NegativeTenths(weight: int, total: int)
    requires weight < 0 && total > 0
    ensures Error(weight, total) == -1000 * weight % total
    ensures 2 * Abs(Error(weight, total)) <= total <==> 2 * (-1000 * weight % total) <= total
  {
    var a := -1000 * weight;
    DivBounds(a, total);
    assert weight * 1000 == -a;
    assert Quot(weight * 1000, total) == -(a / total);
    assert -(a / total) * total == -(a / total * total);
    assert a == a / total * total + a % total;
  }

  lemma ScaleDown(x: int, y: int, total: int)
    requires total > 0 && x * total < (y + 1) * total
    ensures x <= y
  {
    if x >= y + 1 {
      ScaleUp(y + 1, x, total);
    }
  }

  lemma ScaleUp(x: int, y: int, total: int)
    requires total > 0 && x <= y
    ensures x * total <= y * total
  {
    assert (y - x) * total >= 0;
    assert (y - x) * total == y * total - x * total;
  }

  /** The bounds of the rounding error for every weight: a negative one is cut, any other one rounded. */
  lemma ErrorBounds(weight: int, total: int)
    requires total > 0
    ensures weight >= 0 ==> -total < 2 * Error(weight, total) <= total
    ensures weight < 0 ==> 0 <= Error(weight, total) < total
  {
    if weight >= 0 {
      TenthsIsNearest(weight, total);
    } else {
      NegativeTenths(weight, total);
    }
  }

  /** A negative weight never shows a positive percentage, and no other weight a negative one. */
  lemma TenthsSign(weight: int, total: int)
    requires total > 0
    ensures if weight < 0 then Tenths(weight, total) <= 0 else Tenths(weight, total) >= 0
  {
    ErrorBounds(weight, total);
    if weight < 0 {
      ScaleDown(Tenths(weight, total), 0, total);
    } else {
      assert (Tenths(weight, total) + 1) * total == Tenths(weight, total) * total + total;
      ScaleDown(0, Tenths(weight, total), total);
    }
  }

  /** A heavier backend never shows a smaller percentage, for all weights. */
  lemma TenthsMonotone(light: int, heavy: int, total: int)
    requires light <= heavy && total > 0
    ensures Tenths(light, total) <= Tenths(heavy, total)
  {
    if light < 0 <= heavy {
      TenthsSign(light, total);
      TenthsSign(heavy, total);
    } else if light != heavy {
      ErrorBounds(light, total);
      ErrorBounds(heavy, total);
      CloseErrors(light, heavy, Tenths(light, total), Tenths(heavy, total), total);
    }
  }

  lemma CloseErrors(light: int, heavy: int, x: int, y: int, total: int)
    requires light < heavy && total > 0
    requires (x * total - 1000 * light) - (y * total - 1000 * heavy) <= total
    ensures x <= y
  {
    Distribute(y, 1, total);
    ScaleDown(x, y, total);
  }

  /** gatewayTotalBackendWeight. */
  function PositiveSum(weights: seq<int>): nat {
    if weights == [] then 0
    else
      var n := |weights| - 1;
      PositiveSum(weights[..n]) + (if weights[n] > 0 then weights[n] else 0)
  }

  method TotalBackendWeight(weights: seq<int>) returns (total: int)
    ensures total == PositiveSum(weights)
  {
    total := 0;
    for k := 0 to |weights|
      invariant total == PositiveSum(weights[..k])
    {
      assert weights[..k + 1][..k] == weights[..k];
      if weights[k] > 0 {
        total := total + weights[k];
      }
    }
    assert weights[..|weights|] == weights;
  }

  function SumOfTenths(weights: seq<int>, total: int): int
    requires total > 0
  {
    if weights == [] then 0
    else SumOfTenths(weights[..|weights| - 1], total) + Tenths(weights[|weights| - 1], total)
  }

  function SumOfErrors(weights: seq<int>, total: int): int
    requires total > 0
  {
    if weights == [] then 0
    else SumOfErrors(weights[..|weights| - 1], total) + Error(weights[|weights| - 1], total)
  }

  /** What the total leaves out. */
  function NegativeSum(weights: seq<int>): (sum: int)
    ensures sum <= 0
  {
    if weights == [] then 0
    else
      var n := |weights| - 1;
      NegativeSum(weights[..n]) + (if weights[n] < 0 then weights[n] else 0)
  }

  function Negatives(weights: seq<int>): (count: nat)
    ensures count <= |weights|
  {
    if weights == [] then 0
    else
      var n := |weights| - 1;
      Negatives(weights[..n]) + (if weights[n] < 0 then 1 else 0)
  }

  ghost predicate NoNegative(weights: seq<int>) {
    forall k :: 0 <= k < |weights| ==> weights[k] >= 0
  }

  lemma {:induction false} NothingNegative(weights: seq<int>)
    requires NoNegative(weights)
    ensures NegativeSum(weights) == 0 && Negatives(weights) == 0
  {
    if weights != [] {
      NothingNegative(weights[..|weights| - 1]);
    }
  }

  lemma Distribute(x: int, y: int, total: int)
    ensures (x + y) * total == x * total + y * total
  {
  }

  lemma {:induction false} ErrorsCollect(weights: seq<int>, total: int)
    requires total > 0
    ensures SumOfTenths(weights, total) * total ==
            1000 * PositiveSum(weights) + 1000 * NegativeSum(weights) + SumOfErrors(weights, total)
  {
    if weights != [] {
      var n := |weights| - 1;
      ErrorsCollect(weights[..n], total);
      Distribute(SumOfTenths(weights[..n], total), Tenths(weights[n], total), total);
    }
  }

  lemma {:induction false} ErrorsBounded(weights: seq<int>, total: int)
    requires total > 0
    ensures (Negatives(weights) - |weights|) * total <= 2 * SumOfErrors(weights, total)
    ensures 2 * SumOfErrors(weights, total) <= (|weights| + Negatives(weights)) * total
  {
    if weights != [] {
      var n := |weights| - 1;
      var k := Negatives(weights[..n]);
      ErrorsBounded(weights[..n], total);
      ErrorBounds(weights[n], total);
      Distribute(k - n, -1, total);
      Distribute(n + k, 1, total);
      Distribute(n + k, 2, total);
    }
  }

  /** Main result, for all weights: the printed percentages of n backends add up to 100 and the share of
      the negative weights, which the total leaves out, within n half-tenths, and up to one more for
      each negative weight that is cut. */
  lemma PercentagesWithNegatives(weights: seq<int>)
    requires PositiveSum(weights) > 0
    ensures var total, k := PositiveSum(weights), Negatives(weights);
            var excess := 2 * ((SumOfTenths(weights, total) - 1000) * total - 1000 * NegativeSum(weights));
            (k - |weights|) * total <= excess <= (|weights| + k) * total
  {
    var total := PositiveSum(weights);
    ErrorsCollect(weights, total);
    ErrorsBounded(weights, total);
    Distribute(SumOfTenths(weights, total) - 1000, 1000, total);
  }

  /** Main result: without negative weights the percentages add up to 100 within n half-tenths. */
  lemma PercentagesAddUp(weights: seq<int>)
    requires PositiveSum(weights) > 0 && NoNegative(weights)
    ensures 2 * Abs(SumOfTenths(weights, PositiveSum(weights)) - 1000) <= |weights|
  {
    var total := PositiveSum(weights);
    NothingNegative(weights);
    PercentagesWithNegatives(weights);
    Within(SumOfTenths(weights, total) - 1000, |weights|, total);
  }

  lemma Within(gap: int, n: int, total: int)
    requires total > 0 && (0 - n) * total <= 2 * (gap * total) <= n * total
    ensures 2 * Abs(gap) <= n
  {
    Distribute(gap, -gap, total);
    Distribute(n, -n, total);
    Halved(gap, n, total);
    Halved(-gap, n, total);
  }

  lemma Halved(x: int, n: int, total: int)
    requires total > 0 && 2 * (x * total) <= n * total
    ensures 2 * x <= n
  {
    Distribute(x, x, total);
    Distribute(n, 1, total);
    ScaleDown(2 * x, n, total);
  }
}
