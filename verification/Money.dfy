/** Money in minor units: half-up rounding and the largest-remainder split. */
module Money {
  import opened Prelude

  /** ROUND_HALF_UP of Python's decimal module: ties move away from zero. */
  function RoundHalfUp(x: real): int {
    if x >= 0.0 then (x + 0.5).Floor else -((-x + 0.5).Floor)
  }

  /** ROUND_DOWN: towards zero. */
  function RoundDown(x: real): int {
    if x >= 0.0 then x.Floor else -((-x).Floor)
  }

  lemma RoundMonotone(x: real, y: real)
    requires x <= y
    ensures RoundHalfUp(x) <= RoundHalfUp(y)
  {
    if x < 0.0 && y < 0.0 {
      assert -y + 0.5 <= -x + 0.5;
    }
  }

  lemma RoundShift(x: real, n: int)
    requires x >= 0.0 && x + n as real >= 0.0
    ensures RoundHalfUp(x + n as real) == RoundHalfUp(x) + n
  {
    assert (x + n as real + 0.5).Floor == (x + 0.5).Floor + n;
  }

  lemma RoundNear(x: real)
    ensures x - 0.5 <= RoundHalfUp(x) as real <= x + 0.5
  {
  }

  /** The nearest whole number; a half goes away from zero. */
  lemma HalfUpIs(x: real)
    ensures var w := RoundHalfUp(x) as real;
      if x >= 0.0 then w - 0.5 <= x < w + 0.5 else w - 0.5 < x <= w + 0.5
  {
  }

  lemma DivideBound(y: real, q: real, m: real, rest: real, part: real)
    requires m > 0.0 && y * m == q * m + rest
    ensures rest >= part * m ==> y >= q + part
    ensures rest < part * m ==> y < q + part
    ensures rest <= part * m ==> y <= q + part
  {
    var d := y - q - part;
    assert d * m == rest - part * m by {
      assert d * m == y * m - q * m - part * m;
    }
    if d > 0.0 {
      assert d * m > 0.0;
    } else if d < 0.0 {
      assert d * m < 0.0;
    }
  }

  lemma {:induction false} CastProduct(a: nat, b: nat)
    ensures (a * b) as real == a as real * b as real
  {
    if a > 0 {
      CastProduct(a - 1, b);
      assert a * b == (a - 1) * b + b;
    }
  }

  // ---- the split ------------------------------------------------------

  /** The exact proportional share of each weight. */
  function Raw(total: real, weights: seq<real>): seq<real>
    requires SumReal(weights) != 0.0
  {
    seq(|weights|, i requires 0 <= i < |weights| => Portion(total, weights[i], SumReal(weights)))
  }

  function Portion(total: real, weight: real, wsum: real): real
    requires wsum != 0.0
  {
    total * weight / wsum
  }

  function Floors(raw: seq<real>): seq<int> {
    seq(|raw|, i requires 0 <= i < |raw| => RoundDown(raw[i]))
  }

  /** An index with the fraction its floor dropped. */
  datatype Loss = Loss(index: nat, fraction: real)

  function Losses(raw: seq<real>): seq<Loss> {
    seq(|raw|, i requires 0 <= i < |raw| => Loss(i, raw[i] - RoundDown(raw[i]) as real))
  }

  predicate LossLeq(x: Loss, y: Loss) {
    x.fraction > y.fraction || (x.fraction == y.fraction && x.index <= y.index)
  }

  /** The order in which leftover units are handed out. */
  function Order(raw: seq<real>): seq<Loss> {
    SortBy(Losses(raw), LossLeq)
  }

  /** The floors after `steps` leftover units went round the order. */
  function Bumped(floors: seq<int>, order: seq<Loss>, steps: nat): (r: seq<int>)
    requires order != [] && forall k :: 0 <= k < |order| ==> order[k].index < |floors|
    ensures |r| == |floors|
  {
    if steps == 0 then floors
    else
      var s := Bumped(floors, order, steps - 1);
      var i := Turn(order, steps - 1);
      s[i := s[i] + 1]
  }

  /** The index that gets leftover unit k; the order is walked round and round. */
  function Turn(order: seq<Loss>, k: nat): (i: nat)
    requires order != []
    ensures exists j :: 0 <= j < |order| && order[j].index == i
  {
    order[k % |order|].index
  }

  function Steps(total: real, raw: seq<real>): int {
    RoundHalfUp(total) - Sum(Floors(raw))
  }

  function Shares(total: real, raw: seq<real>): (r: seq<int>)
    requires raw != []
    ensures |r| == |raw|
  {
    OrderIndexes(raw);
    var steps := Steps(total, raw);
    Bumped(Floors(raw), Order(raw), if steps < 0 then 0 else steps)
  }

  function Split(total: real, weights: seq<real>): (r: seq<int>)
    ensures |r| == |weights|
  {
    if weights == [] then []
    else if SumReal(weights) == 0.0 then seq(|weights|, i => 0)
    else Shares(total, Raw(total, weights))
  }

  lemma OrderIndexes(raw: seq<real>)
    ensures |Order(raw)| == |raw|
    ensures forall k :: 0 <= k < |raw| ==> Order(raw)[k].index < |raw|
    ensures forall k :: 0 <= k < |raw| ==>
      Order(raw)[k].fraction == raw[Order(raw)[k].index] - RoundDown(raw[Order(raw)[k].index]) as real
  {
    SortByCorrect(Losses(raw), LossLeq);
    forall k | 0 <= k < |raw|
      ensures Order(raw)[k].index < |raw|
      ensures Order(raw)[k].fraction == raw[Order(raw)[k].index] - RoundDown(raw[Order(raw)[k].index]) as real
    {
      assert Order(raw)[k] in Losses(raw);
    }
  }

  /** The loop of money.allocate that hands out the leftover units in place. */
  method HandOut(floored: array<int>, order: seq<Loss>, steps: nat)
    requires order != [] && forall k :: 0 <= k < |order| ==> order[k].index < floored.Length
    modifies floored
    ensures floored[..] == Bumped(old(floored[..]), order, steps)
  {
    for k := 0 to steps
      invariant floored[..] == Bumped(old(floored[..]), order, k)
    {
      ghost var before := floored[..];
      var i := Turn(order, k);
      floored[i] := floored[i] + 1;
      assert floored[..] == before[i := before[i] + 1];
    }
  }

  method Allocate(total: real, weights: seq<real>) returns (shares: seq<int>)
    ensures shares == Split(total, weights)
  {
    if |weights| == 0 {
      return [];
    }
    var wsum := SumReal(weights);
    if wsum == 0.0 {
      return seq(|weights|, i => 0);
    }
    var raw := Raw(total, weights);
    var floored := new int[|raw|](i requires 0 <= i < |raw| => RoundDown(raw[i]));
    assert floored[..] == Floors(raw);
    var steps := RoundHalfUp(total) - Sum(floored[..]);
    var order := Order(raw);
    OrderIndexes(raw);
    if steps > 0 {
      HandOut(floored, order, steps);
    }
    shares := floored[..];
  }

  // ---- what the split promises ----------------------------------------

  function SumLoss(xs: seq<Loss>): real {
    if xs == [] then 0.0 else xs[0].fraction + SumLoss(xs[1..])
  }

  lemma {:induction false} SumLossRemove(xs: seq<Loss>, j: nat)
    requires j < |xs|
    ensures SumLoss(xs) == xs[j].fraction + SumLoss(xs[..j] + xs[j + 1..])
  {
    if j == 0 {
      assert xs[..0] + xs[1..] == xs[1..];
    } else {
      SumLossRemove(xs[1..], j - 1);
      assert (xs[..j] + xs[j + 1..])[1..] == xs[1..][..j - 1] + xs[1..][j..];
    }
  }

  lemma {:induction false} SumLossPermutes(xs: seq<Loss>, ys: seq<Loss>)
    requires multiset(xs) == multiset(ys)
    ensures SumLoss(xs) == SumLoss(ys)
  {
    if xs == [] {
      SameMultiset(xs, ys);
    } else {
      var j := RemoveHead(xs, ys);
      SumLossRemove(ys, j);
      SumLossPermutes(xs[1..], ys[..j] + ys[j + 1..]);
    }
  }

  lemma {:induction false} SumLossOf(raw: seq<real>, xs: seq<Loss>, fl: seq<int>)
    requires |xs| == |raw| == |fl|
    requires forall i :: 0 <= i < |raw| ==> xs[i].fraction == raw[i] - fl[i] as real
    ensures SumLoss(xs) == SumReal(raw) - Sum(fl) as real
  {
    if raw != [] {
      SumLossOf(raw[1..], xs[1..], fl[1..]);
    }
  }

  lemma PortionAdds(c: real, x: real, y: real, w: real)
    requires w != 0.0
    ensures Portion(c, x, w) + Portion(c, y, w) == Portion(c, x + y, w)
  {
    var p, q := c * x, c * y;
    assert c * (x + y) == p + q;
    QuotientAdds(p, q, w);
  }

  lemma QuotientAdds(p: real, q: real, w: real)
    requires w != 0.0
    ensures p / w + q / w == (p + q) / w
  {
  }

  lemma PortionEnds(c: real, w: real)
    requires w != 0.0
    ensures Portion(c, 0.0, w) == 0.0 && Portion(c, w, w) == c && Portion(0.0, c, w) == 0.0
  {
  }

  lemma {:induction false} SumScaled(c: real, w: real, xs: seq<real>, ys: seq<real>)
    requires w != 0.0 && |xs| == |ys|
    requires forall i :: 0 <= i < |xs| ==> ys[i] == Portion(c, xs[i], w)
    ensures SumReal(ys) == Portion(c, SumReal(xs), w)
  {
    if xs != [] {
      SumScaled(c, w, xs[1..], ys[1..]);
      PortionAdds(c, xs[0], SumReal(xs[1..]), w);
    } else {
      PortionEnds(c, w);
    }
  }

  lemma LossOrder()
    ensures TotalOrder(LossLeq)
  {
  }

  ghost predicate Proper(total: real, weights: seq<real>) {
    && total >= 0.0
    && (forall i :: 0 <= i < |weights| ==> weights[i] >= 0.0)
    && SumReal(weights) > 0.0
  }

  /** Exact shares that are non-negative and add up to the total. */
  ghost predicate Exact(total: real, raw: seq<real>) {
    && raw != [] && total >= 0.0
    && (forall i :: 0 <= i < |raw| ==> raw[i] >= 0.0)
    && SumReal(raw) == total
  }

  lemma RawIsExact(total: real, weights: seq<real>)
    requires Proper(total, weights)
    ensures Exact(total, Raw(total, weights))
  {
    RawSum(total, weights);
    forall i | 0 <= i < |weights|
      ensures Raw(total, weights)[i] >= 0.0
    {
      RawNonNegative(total, weights, i);
    }
  }

  lemma RawSum(total: real, weights: seq<real>)
    requires SumReal(weights) > 0.0
    ensures SumReal(Raw(total, weights)) == total
  {
    var w := SumReal(weights);
    SumScaled(total, w, weights, Raw(total, weights));
    PortionEnds(total, w);
  }

  lemma RawNonNegative(total: real, weights: seq<real>, i: nat)
    requires Proper(total, weights) && i < |weights|
    ensures Raw(total, weights)[i] >= 0.0
  {
    Scaled(0.0, weights[i], total);
    NonNegativeQuotient(total * weights[i], SumReal(weights));
  }

  lemma Scaled(x: real, y: real, d: real)
    requires x <= y && d >= 0.0
    ensures x * d <= y * d
  {
  }

  lemma NonNegativeQuotient(x: real, w: real)
    requires x >= 0.0 && w > 0.0
    ensures x / w >= 0.0
  {
  }

  lemma {:induction false} SumLossTail(xs: seq<Loss>, k: nat)
    requires k <= |xs|
    requires forall j :: 0 <= j < |xs| ==> 0.0 <= xs[j].fraction < 1.0
    requires forall j :: k <= j < |xs| ==> xs[j].fraction == 0.0
    ensures 0.0 <= SumLoss(xs) <= k as real
    ensures 0 < k ==> SumLoss(xs) < k as real
  {
    if xs != [] {
      SumLossTail(xs[1..], if k == 0 then 0 else k - 1);
    }
  }

  /** The leftover units never run past the shares that lost something. */
  lemma StepsReachOnlyLosers(total: real, raw: seq<real>)
    requires Exact(total, raw)
    ensures |Order(raw)| == |raw|
    ensures 0 <= Steps(total, raw) <= |raw|
    ensures forall k :: 0 <= k < Steps(total, raw) ==> Order(raw)[k].fraction > 0.0
  {
    var order, steps := Order(raw), Steps(total, raw);
    OrderIndexes(raw);
    SortByCorrect(Losses(raw), LossLeq);
    LossOrder();
    SumLossOf(raw, Losses(raw), Floors(raw));
    SumLossPermutes(Losses(raw), order);
    assert SumLoss(order) == total - Sum(Floors(raw)) as real;
    SumLossTail(order, |order|);
    RoundShift(SumLoss(order), Sum(Floors(raw)));
    forall k | 0 <= k < steps
      ensures order[k].fraction > 0.0
    {
      if order[k].fraction <= 0.0 {
        forall j | k <= j < |order|
          ensures order[j].fraction == 0.0
        {
          assert k < j ==> LossLeq(order[k], order[j]);
        }
        SumLossTail(order, k);
        assert false;
      }
    }
  }

  ghost predicate Handed(order: seq<Loss>, steps: nat, i: nat) {
    exists k :: 0 <= k < steps && k < |order| && order[k].index == i
  }

  lemma SmallMod(a: nat, n: nat)
    requires a < n
    ensures a % n == a
  {
  }

  lemma {:induction false} BumpedAt(floors: seq<int>, order: seq<Loss>, steps: nat, i: nat)
    requires order != [] && forall k :: 0 <= k < |order| ==> order[k].index < |floors|
    requires forall j, k :: 0 <= j < k < |order| ==> order[j].index != order[k].index
    requires steps <= |order| && i < |floors|
    ensures Bumped(floors, order, steps)[i] == floors[i] + (if Handed(order, steps, i) then 1 else 0)
  {
    if steps > 0 {
      BumpedAt(floors, order, steps - 1, i);
      SmallMod(steps - 1, |order|);
      if order[steps - 1].index == i {
        assert !Handed(order, steps - 1, i);
        assert Handed(order, steps, i);
      } else {
        assert Handed(order, steps, i) <==> Handed(order, steps - 1, i);
      }
    }
  }

  lemma {:induction false} BumpedSum(floors: seq<int>, order: seq<Loss>, steps: nat)
    requires order != [] && forall k :: 0 <= k < |order| ==> order[k].index < |floors|
    ensures Sum(Bumped(floors, order, steps)) == Sum(floors) + steps
  {
    if steps > 0 {
      BumpedSum(floors, order, steps - 1);
      var s := Bumped(floors, order, steps - 1);
      var i := Turn(order, steps - 1);
      SumUpdate(s, i, s[i] + 1);
    }
  }

  lemma OrderDistinct(raw: seq<real>)
    ensures forall j, k :: 0 <= j < k < |Order(raw)| ==> Order(raw)[j].index != Order(raw)[k].index
  {
    SortByCorrect(Losses(raw), LossLeq);
    assert Distinct(Losses(raw));
    PermutationDistinct(Losses(raw), Order(raw));
    OrderIndexes(raw);
    forall j, k | 0 <= j < k < |raw|
      ensures Order(raw)[j].index != Order(raw)[k].index
    {
      assert Order(raw)[j] != Order(raw)[k];
    }
  }

  /** Where a share landed: on its floor, or one above it when it was handed a unit. */
  lemma ShareAt(total: real, raw: seq<real>, i: nat)
    requires Exact(total, raw) && i < |raw|
    ensures 0 <= Steps(total, raw)
    ensures Shares(total, raw)[i] ==
      raw[i].Floor + (if Handed(Order(raw), Steps(total, raw), i) then 1 else 0)
  {
    OrderIndexes(raw);
    StepsReachOnlyLosers(total, raw);
    OrderDistinct(raw);
    BumpedAt(Floors(raw), Order(raw), Steps(total, raw), i);
  }

  /** A share that was handed a unit sits among the first `Steps` of the order. */
  lemma Position(raw: seq<real>, i: nat) returns (m: nat)
    requires i < |raw|
    ensures |Order(raw)| == |raw|
    ensures m < |raw| && Order(raw)[m].index == i
    ensures Order(raw)[m].fraction == raw[i] - RoundDown(raw[i]) as real
    ensures forall j, k :: 0 <= j < k < |raw| ==> LossLeq(Order(raw)[j], Order(raw)[k])
    ensures forall k :: 0 <= k < |raw| && Order(raw)[k].index == i ==> k == m
  {
    OrderIndexes(raw);
    SortByCorrect(Losses(raw), LossLeq);
    LossOrder();
    OrderDistinct(raw);
    assert Losses(raw)[i] in Order(raw);
    m :| 0 <= m < |raw| && Order(raw)[m] == Losses(raw)[i];
  }

  lemma SharesNear(total: real, raw: seq<real>, i: nat)
    requires Exact(total, raw) && i < |raw|
    ensures 0 <= Shares(total, raw)[i]
    ensures raw[i] - 1.0 < Shares(total, raw)[i] as real < raw[i] + 1.0
  {
    ShareAt(total, raw, i);
    StepsReachOnlyLosers(total, raw);
    var m := Position(raw, i);
    if Handed(Order(raw), Steps(total, raw), i) {
      assert Order(raw)[m].fraction > 0.0;
    }
  }

  lemma SharesMonotone(total: real, raw: seq<real>, i: nat, j: nat)
    requires Exact(total, raw) && i < |raw| && j < |raw|
    requires raw[i] > raw[j] || (raw[i] == raw[j] && i < j)
    ensures Shares(total, raw)[i] >= Shares(total, raw)[j]
  {
    ShareAt(total, raw, i);
    ShareAt(total, raw, j);
    if raw[i].Floor == raw[j].Floor && Handed(Order(raw), Steps(total, raw), j) {
      var a := Position(raw, i);
      var b := Position(raw, j);
      assert b < a ==> LossLeq(Order(raw)[b], Order(raw)[a]);
      assert Handed(Order(raw), Steps(total, raw), i);
    }
  }

  // ---- the four promises of the split ---------------------------------

  /** The shares add up to the rounded total: nothing is lost or created. */
  lemma SplitSum(total: real, weights: seq<real>)
    requires Proper(total, weights)
    ensures Sum(Split(total, weights)) == RoundHalfUp(total)
  {
    var raw := Raw(total, weights);
    RawIsExact(total, weights);
    OrderIndexes(raw);
    StepsReachOnlyLosers(total, raw);
    BumpedSum(Floors(raw), Order(raw), Steps(total, raw));
  }

  /** For any total: the shares add up exactly when the hand-out loop's count is not negative. */
  lemma SplitSumExactly(total: real, weights: seq<real>)
    requires weights != [] && SumReal(weights) != 0.0
    ensures Sum(Split(total, weights)) == RoundHalfUp(total) <==> Steps(total, Raw(total, weights)) >= 0
  {
    var raw := Raw(total, weights);
    OrderIndexes(raw);
    BumpedSum(Floors(raw), Order(raw), if Steps(total, raw) < 0 then 0 else Steps(total, raw));
  }

  lemma PortionNegates(c: real, x: real, w: real)
    requires w != 0.0
    ensures Portion(-c, x, w) == -Portion(c, x, w)
  {
    PortionScaled(c, x, w);
  }

  lemma PortionScaled(c: real, x: real, w: real)
    requires w != 0.0
    ensures Portion(-c, x, w) + Portion(c, x, w) == 0.0
  {
    var p := c * x;
    assert -c * x == -p;
    QuotientAdds(p, -p, w);
  }

  lemma {:induction false} SumNegates(xs: seq<int>, ys: seq<int>)
    requires |xs| == |ys| && forall i :: 0 <= i < |xs| ==> ys[i] == -xs[i]
    ensures Sum(ys) == -Sum(xs)
  {
    if xs != [] {
      SumNegates(xs[1..], ys[1..]);
    }
  }

  /** What rounding the exact shares down drops, in all. */
  function Lost(raw: seq<real>): real {
    SumLoss(Losses(raw))
  }

  lemma {:induction false} NothingLost(xs: seq<Loss>)
    requires forall k :: 0 <= k < |xs| ==> xs[k].fraction >= 0.0
    ensures SumLoss(xs) >= 0.0
    ensures SumLoss(xs) == 0.0 <==> forall k :: 0 <= k < |xs| ==> xs[k].fraction == 0.0
  {
    if xs != [] {
      NothingLost(xs[1..]);
      assert forall k :: 0 < k < |xs| ==> xs[1..][k - 1] == xs[k];
    }
  }

  lemma StepsAreLost(total: real, raw: seq<real>)
    requires Exact(total, raw)
    ensures Lost(raw) >= 0.0 && Steps(total, raw) == RoundHalfUp(Lost(raw))
  {
    SumLossOf(raw, Losses(raw), Floors(raw));
    NothingLost(Losses(raw));
    RoundShift(Lost(raw), Sum(Floors(raw)));
  }

  lemma StepsOfNegative(total: real, weights: seq<real>)
    requires total < 0.0 && Proper(-total, weights)
    ensures Steps(total, Raw(total, weights)) == -Steps(-total, Raw(-total, weights))
  {
    var raw, exact := Raw(total, weights), Raw(-total, weights);
    RawIsExact(-total, weights);
    forall i | 0 <= i < |weights|
      ensures Floors(raw)[i] == -Floors(exact)[i]
    {
      PortionNegates(-total, weights[i], SumReal(weights));
    }
    SumNegates(Floors(exact), Floors(raw));
  }

  /** A negative total keeps its sum exactly when its exact shares drop less than half a unit in all. */
  lemma NegativeSumExactly(total: real, weights: seq<real>)
    requires total < 0.0 && Proper(-total, weights)
    ensures Sum(Split(total, weights)) == RoundHalfUp(total) <==> Lost(Raw(-total, weights)) < 0.5
  {
    hide Split, Raw, Lost, Steps;
    RawIsExact(-total, weights);
    StepsAreLost(-total, Raw(-total, weights));
    StepsOfNegative(total, weights);
    SplitSumExactly(total, weights);
  }

  predicate Whole(x: real) {
    x == x.Floor as real
  }

  predicate AllWhole(xs: seq<real>) {
    forall i :: 0 <= i < |xs| ==> Whole(xs[i])
  }

  lemma WholeLost(total: nat, raw: seq<real>)
    requires Exact(total as real, raw)
    ensures Lost(raw) < 0.5 <==> AllWhole(raw)
  {
    SumLossOf(raw, Losses(raw), Floors(raw));
    NothingLost(Losses(raw));
    assert Lost(raw) == (total - Sum(Floors(raw))) as real;
    forall i | 0 <= i < |raw|
      ensures Whole(raw[i]) <==> Losses(raw)[i].fraction == 0.0
    {
    }
  }

  /** A negative whole total keeps its sum exactly when every exact share is whole. */
  lemma WholeNegativeSumExactly(total: nat, weights: seq<real>)
    requires total > 0 && Proper(total as real, weights)
    ensures Sum(Split(-(total as real), weights)) == -(total as int)
      <==> AllWhole(Raw(total as real, weights))
  {
    hide Split, Raw, Lost, AllWhole;
    RawIsExact(total as real, weights);
    NegativeSumExactly(-(total as real), weights);
    WholeLost(total, Raw(total as real, weights));
  }

  /** A refund of one cent split in two: both halves round towards zero and the cent disappears. */
  lemma NegativeTotalLosesItsCent()
    ensures Sum(Split(-1.0, [1.0, 1.0])) == 0 != RoundHalfUp(-1.0)
  {
    assert SumReal([1.0, 1.0]) == 2.0;
    var raw := Raw(-1.0, [1.0, 1.0]);
    assert raw == [-0.5, -0.5];
    assert Floors(raw) == [0, 0];
    assert Sum([0, 0]) == 0;
  }

  /** Each share is the floor or the ceiling of its exact share, so a zero weight gets nothing. */
  lemma SplitNearExact(total: real, weights: seq<real>, i: nat)
    requires Proper(total, weights) && i < |weights|
    ensures 0 <= Split(total, weights)[i]
    ensures var exact := Raw(total, weights)[i];
      exact - 1.0 < Split(total, weights)[i] as real < exact + 1.0
    ensures weights[i] == 0.0 ==> Split(total, weights)[i] == 0
  {
    RawIsExact(total, weights);
    SharesNear(total, Raw(total, weights), i);
    if weights[i] == 0.0 {
      PortionEnds(total, SumReal(weights));
    }
  }

  /** A larger weight never gets less; between equal weights the earlier index never gets less. */
  lemma SplitMonotone(total: real, weights: seq<real>, i: nat, j: nat)
    requires Proper(total, weights) && i < |weights| && j < |weights|
    requires weights[i] > weights[j] || (weights[i] == weights[j] && i < j)
    ensures Split(total, weights)[i] >= Split(total, weights)[j]
  {
    RawIsExact(total, weights);
    RawMonotone(total, weights, i, j);
    SharesOrdered(total, Raw(total, weights), i, j);
  }

  lemma RawMonotone(total: real, weights: seq<real>, i: nat, j: nat)
    requires Proper(total, weights) && i < |weights| && j < |weights|
    requires weights[i] > weights[j] || (weights[i] == weights[j] && i < j)
    ensures var raw := Raw(total, weights);
      raw[i] > raw[j] || (raw[i] == raw[j] && i < j) || (raw[i] == 0.0 == raw[j])
  {
    if total == 0.0 {
      PortionEnds(weights[i], SumReal(weights));
      PortionEnds(weights[j], SumReal(weights));
    } else if weights[i] > weights[j] {
      PortionStrict(total, weights[j], weights[i], SumReal(weights));
    }
  }

  lemma SharesOrdered(total: real, raw: seq<real>, i: nat, j: nat)
    requires Exact(total, raw) && i < |raw| && j < |raw|
    requires raw[i] > raw[j] || (raw[i] == raw[j] && i < j) || (raw[i] == 0.0 == raw[j])
    ensures Shares(total, raw)[i] >= Shares(total, raw)[j]
  {
    if raw[i] == 0.0 == raw[j] {
      SharesNear(total, raw, i);
      SharesNear(total, raw, j);
    } else {
      SharesMonotone(total, raw, i, j);
    }
  }

  lemma PortionStrict(c: real, x: real, y: real, w: real)
    requires c > 0.0 && w > 0.0 && x < y
    ensures Portion(c, x, w) < Portion(c, y, w)
  {
    assert c * (y - x) > 0.0;
    QuotientStrict(c * x, c * y, w);
  }

  lemma QuotientStrict(p: real, q: real, w: real)
    requires w > 0.0 && p < q
    ensures p / w < q / w
  {
  }

  function Gap(x: int, exact: real): real {
    var d := x as real - exact;
    if d >= 0.0 then d else -d
  }

  function Deviation(xs: seq<int>, raw: seq<real>): real
    requires |xs| == |raw|
  {
    if xs == [] then 0.0 else Gap(xs[0], raw[0]) + Deviation(xs[1..], raw[1..])
  }

  /** One price for a unit, at which no share wants to move. */
  ghost predicate Priced(price: real, s: int, exact: real) {
    && -1.0 <= price <= 1.0
    && var f := exact - exact.Floor as real;
       || (s == exact.Floor && price <= 1.0 - 2.0 * f)
       || (s == exact.Floor + 1 && 1.0 - 2.0 * f <= price)
  }

  lemma Bounded(p: real, d: real) returns (e: real)
    requires -1.0 <= p <= 1.0 && d >= 0.0
    ensures e == p * d && -d <= e <= d
  {
    e := p * d;
    assert (p + 1.0) * d == e + d;
    assert (1.0 - p) * d == d - e;
    Scaled(0.0, p + 1.0, d);
    Scaled(0.0, 1.0 - p, d);
  }

  /** Moving d > 0 units off a priced share; `e` stands for price * (d - 1). */
  lemma PricedMove(price: real, s: int, exact: real, d: real, e: real)
    requires Priced(price, s, exact) && 1.0 <= d && 1.0 - d <= e <= d - 1.0
    ensures (s as real + d - exact) - Gap(s, exact) >= price + e
    ensures (exact - s as real + d) - Gap(s, exact) >= -(price + e)
  {
  }

  lemma PricedIsBest(price: real, s: int, exact: real, t: int)
    requires Priced(price, s, exact)
    ensures Gap(t, exact) - Gap(s, exact) >= Cost(price, s, t)
  {
    if t != s {
      var d := if t < s then s as real - t as real else t as real - s as real;
      var e := Bounded(price, d - 1.0);
      PricedMove(price, s, exact, d, e);
      Distribute(price, 1.0, d - 1.0);
      Distribute(price, d, -d);
      assert t < s ==> t as real - s as real == -d;
    }
  }

  lemma Distribute(p: real, a: real, b: real)
    ensures p * (a + b) == p * a + p * b
  {
  }

  function Cost(price: real, s: int, t: int): real {
    price * (t as real - s as real)
  }

  function TotalCost(price: real, s: seq<int>, t: seq<int>): real
    requires |s| == |t|
  {
    if s == [] then 0.0 else Cost(price, s[0], t[0]) + TotalCost(price, s[1..], t[1..])
  }

  lemma {:induction false} TotalCostIs(price: real, s: seq<int>, t: seq<int>)
    requires |s| == |t|
    ensures TotalCost(price, s, t) == price * (Sum(t) as real - Sum(s) as real)
    ensures Sum(s) == Sum(t) ==> TotalCost(price, s, t) == 0.0
  {
    if s != [] {
      TotalCostIs(price, s[1..], t[1..]);
      Distribute(price, t[0] as real - s[0] as real, Sum(t[1..]) as real - Sum(s[1..]) as real);
    }
  }

  lemma {:induction false} DeviationBound(price: real, s: seq<int>, raw: seq<real>, t: seq<int>)
    requires |s| == |raw| == |t|
    requires forall i :: 0 <= i < |s| ==> Priced(price, s[i], raw[i])
    ensures Deviation(t, raw) - Deviation(s, raw) >= TotalCost(price, s, t)
  {
    if s != [] {
      DeviationBound(price, s[1..], raw[1..], t[1..]);
      PricedIsBest(price, s[0], raw[0], t[0]);
    }
  }

  /** The marginal cost of the last unit handed out. */
  ghost function Price(total: real, raw: seq<real>): real
    requires Exact(total, raw)
  {
    StepsReachOnlyLosers(total, raw);
    var steps := Steps(total, raw);
    if steps == 0 then -1.0 else 1.0 - 2.0 * Order(raw)[steps - 1].fraction
  }

  lemma SharesClosest(total: real, raw: seq<real>, other: seq<int>)
    requires Exact(total, raw)
    requires |other| == |raw| && Sum(other) == Sum(Shares(total, raw))
    ensures Deviation(Shares(total, raw), raw) <= Deviation(other, raw)
  {
    var s := Shares(total, raw);
    var price := Price(total, raw);
    forall i | 0 <= i < |raw|
      ensures Priced(price, s[i], raw[i])
    {
      SharePriced(total, raw, i);
    }
    DeviationBound(price, s, raw, other);
    TotalCostIs(price, s, other);
  }

  /** Largest remainder is the closest whole-unit split there is. */
  lemma SplitClosest(total: real, weights: seq<real>, other: seq<int>)
    requires Proper(total, weights)
    requires |other| == |weights| && Sum(other) == RoundHalfUp(total)
    ensures Deviation(Split(total, weights), Raw(total, weights)) <= Deviation(other, Raw(total, weights))
  {
    var raw := Raw(total, weights);
    RawIsExact(total, weights);
    SplitSum(total, weights);
    SharesClosest(total, raw, other);
  }

  lemma SharePriced(total: real, raw: seq<real>, i: nat)
    requires Exact(total, raw) && i < |raw|
    ensures Priced(Price(total, raw), Shares(total, raw)[i], raw[i])
  {
    var order, steps := Order(raw), Steps(total, raw);
    ShareAt(total, raw, i);
    StepsReachOnlyLosers(total, raw);
    OrderIndexes(raw);
    var m := Position(raw, i);
    if steps > 0 {
      if m < steps {
        assert Handed(order, steps, i);
        assert m < steps - 1 ==> LossLeq(order[m], order[steps - 1]);
      } else {
        assert !Handed(order, steps, i);
        assert LossLeq(order[steps - 1], order[m]);
      }
    }
  }
}
