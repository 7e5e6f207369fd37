/** SMALLEST_BALANCE clears the most debts. */
module DebtChoices {
  import opened Prelude
  import opened Money
  import opened Debt
  import opened DebtLaws
  import opened DebtBounds

  /** 1 for every debt that had a balance and has none left. */
  function ClearedMarks(before: seq<int>, after: seq<int>): (r: seq<int>)
    requires |before| == |after|
    ensures |r| == |before|
  {
    seq(|before|, i requires 0 <= i < |before| => if before[i] > 0 && after[i] == 0 then 1 else 0)
  }

  function ClearedCount(before: seq<int>, after: seq<int>): int
    requires |before| == |after|
  {
    Sum(ClearedMarks(before, after))
  }

  function Weights(bal: seq<int>): (r: seq<real>)
    ensures |r| == |bal| && forall i :: 0 <= i < |bal| ==> r[i] == bal[i] as real
  {
    seq(|bal|, i requires 0 <= i < |bal| => bal[i] as real)
  }

  /** The money it took to clear the marked debts. */
  function Marked(bal: seq<int>, marks: seq<int>): (r: seq<int>)
    requires |bal| == |marks|
    ensures |r| == |bal|
  {
    seq(|bal|, i requires 0 <= i < |bal| => if marks[i] == 1 then bal[i] else 0)
  }

  lemma {:induction false} DotMarked(bal: seq<int>, marks: seq<int>)
    requires |bal| == |marks| && forall i :: 0 <= i < |marks| ==> marks[i] == 0 || marks[i] == 1
    ensures Dot(Weights(bal), marks) == Sum(Marked(bal, marks)) as real
  {
    if bal != [] {
      DotMarked(bal[1..], marks[1..]);
      assert Weights(bal)[1..] == Weights(bal[1..]) && Marked(bal, marks)[1..] == Marked(bal[1..], marks[1..]);
    }
  }

  /** What the greedy loop spent: the cleared balances, plus less than the first uncleared one. */
  lemma GreedySpent(ids: seq<nat>, k: Desk, c: nat)
    requires Sized(k, |k.bal|) && Lists(ids, k.bal) && k.left >= 0 && c < |ids|
    requires var r := Greedy(ids, k);
      && r.left == 0
      && (forall j :: 0 <= j < c ==> r.bal[ids[j]] == 0)
      && (forall j :: c < j < |ids| ==> r.bal[ids[j]] == k.bal[ids[j]])
      && 0 < r.bal[ids[c]] <= k.bal[ids[c]]
    ensures var r := Greedy(ids, k);
      k.left == Sum(Marked(k.bal, ClearedMarks(k.bal, r.bal))) + (k.bal[ids[c]] - r.bal[ids[c]])
  {
    hide Greedy, Marked, ClearedMarks, Sum;
    var r, i := Greedy(ids, k), ids[c];
    var marked := Marked(k.bal, ClearedMarks(k.bal, r.bal));
    var spike := Zeros(|k.bal|)[i := k.bal[i] - r.bal[i]];
    var spent := Minus(k.bal, r.bal);
    GreedySpends(ids, k);
    forall h | 0 <= h < |k.bal|
      ensures spent[h] == marked[h] + spike[h]
    {
      SpentOn(ids, k, c, h);
    }
    SumPointwise(marked, spike, spent);
    SumPointwise(spent, r.bal, k.bal);
    SumZeros(|k.bal|);
    SumUpdate(Zeros(|k.bal|), i, k.bal[i] - r.bal[i]);
  }

  lemma SpentOn(ids: seq<nat>, k: Desk, c: nat, h: nat)
    requires Sized(k, |k.bal|) && Lists(ids, k.bal) && k.left >= 0 && c < |ids| && h < |k.bal|
    requires var r := Greedy(ids, k);
      && (forall j :: 0 <= j < c ==> r.bal[ids[j]] == 0)
      && (forall j :: c < j < |ids| ==> r.bal[ids[j]] == k.bal[ids[j]])
      && 0 < r.bal[ids[c]] <= k.bal[ids[c]]
    ensures var r := Greedy(ids, k);
      k.bal[h] - r.bal[h] == Marked(k.bal, ClearedMarks(k.bal, r.bal))[h] + if h == ids[c] then k.bal[h] - r.bal[h] else 0
  {
    hide Greedy;
    var r := Greedy(ids, k);
    ListedPositive(ids, k.bal);
    GreedyTouch(ids, k);
    if h in ids {
      var j :| 0 <= j < |ids| && ids[j] == h;
      assert c < j ==> r.bal[ids[j]] == k.bal[ids[j]];
    }
  }

  lemma MarksBeaten(ids: seq<nat>, k: Desk, x: seq<int>)
    requires Sized(k, |k.bal|) && Lists(ids, k.bal) && Feasible(x, k) && k.left >= 0
    requires forall i, j :: 0 <= i < j < |ids| ==> k.bal[ids[i]] <= k.bal[ids[j]]
    ensures ClearedCount(k.bal, Minus(k.bal, x)) <= ClearedCount(k.bal, Greedy(ids, k).bal)
  {
    hide Greedy, Dot, Sum;
    var r, a := Greedy(ids, k), Minus(k.bal, x);
    var mine, other := ClearedMarks(k.bal, r.bal), ClearedMarks(k.bal, a);
    ListedPositive(ids, k.bal);
    var c := GreedyShape(ids, k);
    GreedyTouch(ids, k);
    if c == |ids| {
      forall i | 0 <= i < |k.bal|
        ensures other[i] <= mine[i]
      {
        if k.bal[i] > 0 {
          assert i in ids;
          var j :| 0 <= j < |ids| && ids[j] == i;
        }
      }
      SumMonotone(other, mine);
    } else {
      MarksPriced(ids, k, r, other, c);
      GreedySpent(ids, k, c);
      DotMarked(k.bal, mine);
      DotMarked(k.bal, other);
      SumMonotone(Marked(k.bal, other), x);
      MoreMarksCostMore(Weights(k.bal), k.bal[ids[c]], other, mine);
    }
  }

  lemma MarksPriced(ids: seq<nat>, k: Desk, r: Desk, other: seq<int>, c: nat)
    requires Sized(k, |k.bal|) && Sized(r, |k.bal|) && Lists(ids, k.bal) && c < |ids| && |other| == |k.bal|
    requires forall i, j :: 0 <= i < j < |ids| ==> k.bal[ids[i]] <= k.bal[ids[j]]
    requires forall i :: 0 <= i < |other| ==> other[i] == 0 || (other[i] == 1 && k.bal[i] > 0)
    requires forall j :: 0 <= j < c ==> r.bal[ids[j]] == 0
    requires forall j :: c < j < |ids| ==> r.bal[ids[j]] == k.bal[ids[j]]
    requires r.bal[ids[c]] > 0
    ensures var mine, w, price := ClearedMarks(k.bal, r.bal), Weights(k.bal), k.bal[ids[c]] as real;
      forall i :: 0 <= i < |k.bal| ==>
        (w[i] > price ==> other[i] >= mine[i]) && (w[i] < price ==> other[i] <= mine[i])
  {
    var mine, w, price := ClearedMarks(k.bal, r.bal), Weights(k.bal), k.bal[ids[c]] as real;
    ListedPositive(ids, k.bal);
    forall i | 0 <= i < |k.bal|
      ensures (w[i] > price ==> other[i] >= mine[i]) && (w[i] < price ==> other[i] <= mine[i])
    {
      if i in ids {
        var j :| 0 <= j < |ids| && ids[j] == i;
        assert j < c ==> k.bal[ids[j]] <= k.bal[ids[c]];
        assert c < j ==> k.bal[ids[c]] <= k.bal[ids[j]];
      }
    }
  }

  lemma MoreMarksCostMore(w: seq<real>, price: int, a: seq<int>, b: seq<int>)
    requires |w| == |a| == |b| && price > 0
    requires forall i :: 0 <= i < |w| ==>
      (w[i] > price as real ==> a[i] >= b[i]) && (w[i] < price as real ==> a[i] <= b[i])
    ensures Sum(a) > Sum(b) ==> Dot(w, a) >= Dot(w, b) + price as real
  {
    hide Dot, Sum;
    Exchange(w, price as real, a, b);
    if Sum(a) > Sum(b) {
      AtLeastOne(price as real, Sum(a) as real - Sum(b) as real);
    }
  }

  lemma AtLeastOne(pr: real, d: real)
    requires pr > 0.0 && d >= 1.0
    ensures pr * d >= pr
  {
    Scaled(1.0, d, pr);
  }

  /**
   * SMALLEST_BALANCE clears at least as many debts as any way of spending the budget left after the
   * minimums and the reserve for one debt, whenever there is one.
   */
  lemma SmallestBalanceClearsMost(p: Plan, bal: seq<int>, x: seq<int>)
    requires GoodPlan(p) && |bal| == |p.debts| && p.strategy.SmallestBalance?
    requires Feasible(x, Ready(p, bal))
    ensures var k := Ready(p, bal);
      ClearedCount(k.bal, Minus(k.bal, x)) <= ClearedCount(k.bal, MonthEnd(p, bal).bal)
  {
    hide MonthEnd, Ready, Dot, Greedy, ClearedCount, Alive;
    var k := Ready(p, bal);
    var targets := MonthTargets(p, bal);
    if targets == [] || k.left == 0 {
      NothingFeasible(x, k);
    } else {
      var ids := Ordered(p, targets, k.bal);
      RateOrder();
      SortedIdsFall(p.debts, targets, k.bal, BalanceLeq);
      MarksBeaten(ids, k, x);
    }
  }
}
