/** When an order of paying is best: closed form of the greedy loop, wrong orders, promotional zeros. */
module DebtOrders {
  import opened Prelude
  import opened Money
  import opened Debt
  import opened DebtBounds

  // ---- what the greedy loop leaves, in closed form --------------------

  /** The balance of the first m debts of the order. */
  function PrefixTotal(ids: seq<nat>, bal: seq<int>, m: nat): int
    requires InRange(ids, |bal|) && m <= |ids|
  {
    if m == 0 then 0 else PrefixTotal(ids, bal, m - 1) + bal[ids[m - 1]]
  }

  ghost predicate NoneNegative(ids: seq<nat>, bal: seq<int>)
    requires InRange(ids, |bal|)
  {
    forall j :: 0 <= j < |ids| ==> bal[ids[j]] >= 0
  }

  lemma {:induction false} PrefixTail(ids: seq<nat>, a: seq<int>, b: seq<int>, m: nat)
    requires |a| == |b| && InRange(ids, |a|) && 0 < m <= |ids|
    requires forall j :: 0 < j < |ids| ==> b[ids[j]] == a[ids[j]]
    ensures PrefixTotal(ids, a, m) == a[ids[0]] + PrefixTotal(ids[1..], b, m - 1)
  {
    if m > 1 {
      PrefixTail(ids, a, b, m - 1);
    }
  }

  lemma {:induction false} PrefixGrows(ids: seq<nat>, bal: seq<int>, m: nat, n: nat)
    requires InRange(ids, |bal|) && m <= n <= |ids| && NoneNegative(ids, bal)
    ensures 0 <= PrefixTotal(ids, bal, m) <= PrefixTotal(ids, bal, n)
  {
    if m < n {
      PrefixGrows(ids, bal, m, n - 1);
    } else if m > 0 {
      PrefixGrows(ids, bal, m - 1, m - 1);
    }
  }

  /** What a debt gets of the money that reaches it. */
  function Share(money: int, balance: int): int {
    if money <= 0 then 0 else Min(money, balance)
  }

  /** Each debt gets what the balances before it in the order leave. */
  lemma {:induction false} GreedyAt(ids: seq<nat>, k: Desk, j: nat)
    requires Sized(k, |k.bal|) && InRange(ids, |k.bal|) && Distinct(ids)
    requires k.left >= 0 && NoneNegative(ids, k.bal) && j < |ids|
    ensures Greedy(ids, k).bal[ids[j]] == k.bal[ids[j]] - Share(k.left - PrefixTotal(ids, k.bal, j), k.bal[ids[j]])
    decreases |ids|
  {
    var i, rest := ids[0], ids[1..];
    var next := Pay(k, i, Min(k.left, k.bal[i]));
    assert Greedy(ids, k) == Greedy(rest, next);
    hide Greedy;
    if j == 0 {
      assert i !in rest;
      GreedyTouch(rest, next);
    } else {
      TailSame(ids, k.bal, next.bal);
      GreedyAt(rest, next, j - 1);
      PrefixTail(ids, k.bal, next.bal, j);
      PrefixGrows(rest, next.bal, j - 1, j - 1);
    }
  }

  lemma TailSame(ids: seq<nat>, a: seq<int>, b: seq<int>)
    requires |a| == |b| && InRange(ids, |a|) && Distinct(ids) && ids != [] && NoneNegative(ids, a)
    requires forall h :: 0 <= h < |a| && h != ids[0] ==> b[h] == a[h]
    ensures InRange(ids[1..], |b|) && Distinct(ids[1..]) && NoneNegative(ids[1..], b)
    ensures forall j :: 0 < j < |ids| ==> ids[1..][j - 1] == ids[j] && b[ids[j]] == a[ids[j]]
  {
    forall j | 0 < j < |ids|
      ensures ids[1..][j - 1] == ids[j] && b[ids[j]] == a[ids[j]]
    {
      assert ids[j] != ids[0];
    }
  }

  // ---- one cent moved -------------------------------------------------

  /** One cent more on debt i weighs w[i] more. */
  lemma {:induction false} DotCent(w: seq<real>, a: seq<int>, i: nat)
    requires |w| == |a| && i < |a|
    ensures Dot(w, a[i := a[i] + 1]) == Dot(w, a) + w[i]
  {
    if i == 0 {
      assert a[i := a[i] + 1][1..] == a[1..];
      Distribute(w[0], a[0] as real, 1.0);
    } else {
      assert a[i := a[i] + 1][1..] == a[1..][i - 1 := a[i] + 1];
      DotCent(w[1..], a[1..], i - 1);
    }
  }

  /** Moving one cent of remaining balance from debt j to debt i. */
  lemma CentMoved(w: seq<real>, r: seq<int>, i: nat, j: nat) returns (a: seq<int>)
    requires |w| == |r| && i < |r| && j < |r| && i != j && w[i] < w[j]
    ensures a == r[i := r[i] + 1][j := r[j] - 1]
    ensures Dot(w, a) < Dot(w, r) && Sum(a) == Sum(r)
  {
    hide Dot;
    var mid := r[i := r[i] + 1];
    a := mid[j := r[j] - 1];
    DotCent(w, r, i);
    DotCent(w, a, j);
    assert a[j := a[j] + 1] == mid;
    SumUpdate(r, i, r[i] + 1);
    SumUpdate(mid, j, r[j] - 1);
  }

  lemma GreedyLeft(ids: seq<nat>, k: Desk)
    requires Sized(k, |k.bal|) && InRange(ids, |k.bal|) && k.left >= 0
    ensures 0 <= Greedy(ids, k).left
    decreases |ids|
  {
  }

  /** Money reaches the debt at position p, a lighter one, and does not clear the one at position q. */
  ghost predicate WrongFirst(w: seq<real>, ids: seq<nat>, k: Desk, p: int, q: int)
    requires |w| == |k.bal| && InRange(ids, |k.bal|)
  {
    && 0 <= p < q < |ids| && w[ids[p]] < w[ids[q]]
    && PrefixTotal(ids, k.bal, p) < k.left < PrefixTotal(ids, k.bal, q + 1)
  }

  /** Then moving one cent from the first to the second is better. */
  lemma WrongOrderLoses(w: seq<real>, ids: seq<nat>, k: Desk, p: nat, q: nat) returns (x: seq<int>)
    requires Sized(k, |k.bal|) && |w| == |k.bal| && k.left >= 0 && Lists(ids, k.bal)
    requires WrongFirst(w, ids, k, p, q)
    ensures Feasible(x, k) && Dot(w, Minus(k.bal, x)) < Dot(w, Greedy(ids, k).bal)
  {
    hide Greedy, Dot, PrefixTotal;
    ListedPositive(ids, k.bal);
    GreedyAt(ids, k, p);
    PrefixStep(ids, k.bal, q);
    GreedyAt(ids, k, q);
    var a := CentMoved(w, Greedy(ids, k).bal, ids[p], ids[q]);
    x := Minus(k.bal, a);
    assert Minus(k.bal, x) == a;
    MovedIsFeasible(ids, k, ids[p], ids[q], a);
  }

  lemma PrefixStep(ids: seq<nat>, bal: seq<int>, m: nat)
    requires InRange(ids, |bal|) && m < |ids|
    ensures PrefixTotal(ids, bal, m + 1) == PrefixTotal(ids, bal, m) + bal[ids[m]]
  {
  }

  lemma MovedIsFeasible(ids: seq<nat>, k: Desk, i: nat, j: nat, a: seq<int>)
    requires Sized(k, |k.bal|) && k.left >= 0 && Lists(ids, k.bal)
    requires i < |k.bal| && j < |k.bal| && i != j
    requires var r := Greedy(ids, k).bal;
      a == r[i := r[i] + 1][j := r[j] - 1] && Sum(a) == Sum(r) && r[i] < k.bal[i] && 0 < r[j]
    ensures Feasible(Minus(k.bal, a), k)
  {
    var r := Greedy(ids, k);
    GreedySpends(ids, k);
    GreedyLeft(ids, k);
    SumPointwise(a, Minus(k.bal, a), k.bal);
    hide Greedy;
    forall h | 0 <= h < |k.bal|
      ensures 0 <= r.bal[h] <= k.bal[h] || r.bal[h] == k.bal[h] <= 0
    {
      GreedyWithin(ids, k, h);
    }
  }

  lemma GreedyWithin(ids: seq<nat>, k: Desk, h: nat)
    requires Sized(k, |k.bal|) && k.left >= 0 && Lists(ids, k.bal) && h < |k.bal|
    ensures 0 <= Greedy(ids, k).bal[h] <= k.bal[h] || Greedy(ids, k).bal[h] == k.bal[h] <= 0
  {
    hide Greedy, PrefixTotal;
    ListedPositive(ids, k.bal);
    GreedyTouch(ids, k);
    if h in ids {
      var g :| 0 <= g < |ids| && ids[g] == h;
      GreedyAt(ids, k, g);
    }
  }

  // ---- exactly when an order is best ----------------------------------

  /** Greedy along `ids` leaves the least weighted balance of all ways of spending the money left. */
  ghost predicate BestAt(w: seq<real>, ids: seq<nat>, k: Desk)
    requires Sized(k, |k.bal|) && |w| == |k.bal| && InRange(ids, |k.bal|)
  {
    forall x: seq<int> :: Feasible(x, k) ==> Dot(w, Greedy(ids, k).bal) <= Dot(w, Minus(k.bal, x))
  }

  /** The heaviest debt from position c on, or zero when there is none. */
  lemma {:induction false} Heaviest(w: seq<real>, ids: seq<nat>, c: nat) returns (price: real)
    requires InRange(ids, |w|) && c <= |ids| && forall i :: 0 <= i < |w| ==> w[i] >= 0.0
    ensures price >= 0.0 && forall j :: c <= j < |ids| ==> w[ids[j]] <= price
    ensures price == 0.0 || exists j :: c <= j < |ids| && w[ids[j]] == price
    decreases |ids| - c
  {
    if c == |ids| {
      price := 0.0;
    } else {
      price := Heaviest(w, ids, c + 1);
      if w[ids[c]] > price {
        price := w[ids[c]];
      }
    }
  }

  /** Where the money runs out: positions from c on are those it does not clear. */
  lemma {:induction false} RunsOut(ids: seq<nat>, k: Desk, n: nat) returns (c: nat)
    requires Sized(k, |k.bal|) && InRange(ids, |k.bal|) && k.left >= 0 && NoneNegative(ids, k.bal) && n <= |ids|
    ensures c <= n
    ensures forall m :: 0 <= m <= c ==> PrefixTotal(ids, k.bal, m) <= k.left
    ensures forall m :: c < m <= n ==> k.left < PrefixTotal(ids, k.bal, m)
  {
    if n == 0 {
      c := 0;
    } else {
      c := RunsOut(ids, k, n - 1);
      hide PrefixTotal;
      if PrefixTotal(ids, k.bal, n) <= k.left {
        PrefixGrows(ids, k.bal, n - 1, n);
        c := n;
      }
    }
  }

  lemma NotWrong(w: seq<real>, ids: seq<nat>, k: Desk, p: nat, q: nat)
    requires |w| == |k.bal| && InRange(ids, |k.bal|) && p < q < |ids| && !WrongFirst(w, ids, k, p, q)
    ensures PrefixTotal(ids, k.bal, p) < k.left < PrefixTotal(ids, k.bal, q + 1) ==> w[ids[p]] >= w[ids[q]]
  {
  }

  /** Debts that keep a balance are no heavier than the price, debts that were paid no lighter. */
  lemma PriceSeparates(w: seq<real>, ids: seq<nat>, k: Desk) returns (price: real)
    requires Sized(k, |k.bal|) && |w| == |k.bal| && k.left >= 0 && Lists(ids, k.bal)
    requires forall i :: 0 <= i < |w| ==> w[i] >= 0.0
    requires forall p, q :: !WrongFirst(w, ids, k, p, q)
    ensures price >= 0.0
    ensures forall j :: 0 <= j < |ids| && k.left < PrefixTotal(ids, k.bal, j + 1) ==> w[ids[j]] <= price
    ensures forall j :: 0 <= j < |ids| && PrefixTotal(ids, k.bal, j) < k.left ==> w[ids[j]] >= price
    ensures price == 0.0 || k.left < PrefixTotal(ids, k.bal, |ids|)
  {
    hide PrefixTotal;
    ListedPositive(ids, k.bal);
    var c := RunsOut(ids, k, |ids|);
    price := Heaviest(w, ids, c);
    forall j | 0 <= j < |ids| && PrefixTotal(ids, k.bal, j) < k.left
      ensures w[ids[j]] >= price
    {
      if price != 0.0 {
        var h :| c <= h < |ids| && w[ids[h]] == price;
        if j < h {
          NotWrong(w, ids, k, j, h);
        }
      }
    }
    if price != 0.0 {
      var h :| c <= h < |ids| && w[ids[h]] == price;
      PrefixGrows(ids, k.bal, h + 1, |ids|);
    }
  }

  lemma {:induction false} AllSpent(ids: seq<nat>, k: Desk)
    requires Sized(k, |k.bal|) && InRange(ids, |k.bal|) && Distinct(ids) && k.left >= 0 && NoneNegative(ids, k.bal)
    requires k.left < PrefixTotal(ids, k.bal, |ids|)
    ensures Greedy(ids, k).left == 0
    decreases |ids|
  {
    if ids != [] {
      var next := Pay(k, ids[0], Min(k.left, k.bal[ids[0]]));
      TailSame(ids, k.bal, next.bal);
      PrefixTail(ids, k.bal, next.bal, |ids|);
      if k.left < k.bal[ids[0]] {
        GreedyStops(ids[1..], next);
      } else {
        AllSpent(ids[1..], next);
      }
    }
  }

  lemma RightOrderIsBest(w: seq<real>, ids: seq<nat>, k: Desk, x: seq<int>)
    requires Sized(k, |k.bal|) && |w| == |k.bal| && k.left >= 0 && Lists(ids, k.bal) && Feasible(x, k)
    requires forall i :: 0 <= i < |w| ==> w[i] >= 0.0
    requires forall p, q :: !WrongFirst(w, ids, k, p, q)
    ensures Dot(w, Greedy(ids, k).bal) <= Dot(w, Minus(k.bal, x))
  {
    hide Greedy, Dot, PrefixTotal, WrongFirst;
    var r, a := Greedy(ids, k), Minus(k.bal, x);
    var price := PriceSeparates(w, ids, k);
    ListedPositive(ids, k.bal);
    GreedySpends(ids, k);
    GreedyTouch(ids, k);
    SumPointwise(a, x, k.bal);
    if price != 0.0 {
      AllSpent(ids, k);
    }
    forall i | 0 <= i < |w|
      ensures (w[i] > price ==> a[i] >= r.bal[i]) && (w[i] < price ==> a[i] <= r.bal[i])
    {
      if i in ids {
        var j :| 0 <= j < |ids| && ids[j] == i;
        GreedyAt(ids, k, j);
        PrefixStep(ids, k.bal, j);
      }
    }
    ExchangeWins(w, price, a, r.bal);
  }

  /**
   * For a given amount of money: the order is best if and only if that money never reaches a lighter
   * debt while it leaves a heavier one, later in the order, uncleared.
   */
  lemma BestAtExactly(w: seq<real>, ids: seq<nat>, k: Desk)
    requires Sized(k, |k.bal|) && |w| == |k.bal| && k.left >= 0 && Lists(ids, k.bal)
    requires forall i :: 0 <= i < |w| ==> w[i] >= 0.0
    ensures BestAt(w, ids, k) <==> forall p, q :: !WrongFirst(w, ids, k, p, q)
  {
    hide Greedy, Dot, WrongFirst;
    if p, q :| WrongFirst(w, ids, k, p, q) {
      InPlace(w, ids, k, p, q);
      var x := WrongOrderLoses(w, ids, k, p, q);
    } else {
      forall x: seq<int> | Feasible(x, k)
        ensures Dot(w, Greedy(ids, k).bal) <= Dot(w, Minus(k.bal, x))
      {
        RightOrderIsBest(w, ids, k, x);
      }
    }
  }

  lemma InPlace(w: seq<real>, ids: seq<nat>, k: Desk, p: int, q: int)
    requires |w| == |k.bal| && InRange(ids, |k.bal|) && WrongFirst(w, ids, k, p, q)
    ensures 0 <= p < q < |ids|
  {
  }

  /** Best whatever money is left. */
  ghost predicate BestForEveryBudget(w: seq<real>, ids: seq<nat>, bal: seq<int>)
    requires |w| == |bal| && InRange(ids, |bal|)
  {
    forall left: nat :: BestAt(w, ids, Desk(bal, Zeros(|bal|), left))
  }

  /** Greedy is best for every budget exactly when the weights fall along the order. */
  lemma BestExactlyWhenFalling(w: seq<real>, ids: seq<nat>, bal: seq<int>)
    requires |w| == |bal| && Lists(ids, bal)
    requires forall i :: 0 <= i < |w| ==> w[i] >= 0.0
    ensures BestForEveryBudget(w, ids, bal) <==> Falling(w, ids)
  {
    hide BestAt, PrefixTotal;
    forall left: nat
      ensures BestAt(w, ids, Desk(bal, Zeros(|bal|), left)) <==>
        forall p, q :: !WrongFirst(w, ids, Desk(bal, Zeros(|bal|), left), p, q)
    {
      BestAtExactly(w, ids, Desk(bal, Zeros(|bal|), left));
    }
    if !Falling(w, ids) {
      var p, q :| 0 <= p < q < |ids| && w[ids[p]] < w[ids[q]];
      ListedPositive(ids, bal);
      PrefixGrows(ids, bal, 0, p);
      PrefixStep(ids, bal, p);
      PrefixGrows(ids, bal, p + 1, q);
      PrefixStep(ids, bal, q);
      assert WrongFirst(w, ids, Desk(bal, Zeros(|bal|), PrefixTotal(ids, bal, p + 1)), p, q);
    }
  }
}
