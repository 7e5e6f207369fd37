/** How good the simulator's orders are, and how soon every debt is gone. */
module DebtBounds {
  import opened Prelude
  import opened Money
  import opened Debt
  import opened DebtLaws

  // ---- payoff bound under rounding ------------------------------------

  lemma {:induction false} OwedAdds(open: seq<int>, bal: seq<int>, interest: seq<int>)
    requires |open| == |bal| == |interest|
    requires forall i :: 0 <= i < |bal| ==>
      open[i] == bal[i] + interest[i] && (if bal[i] > 0 then interest[i] >= 0 else interest[i] == 0)
    ensures Owed(open) == Owed(bal) + Sum(interest)
  {
    if bal != [] {
      OwedAdds(open[1..], bal[1..], interest[1..]);
    }
  }

  /** One month's unrounded interest on a total at one rate. */
  function Yield(owed: nat, monthly: real): real {
    owed as real * monthly
  }

  lemma YieldAdds(x: nat, y: nat, monthly: real)
    ensures Yield(x + y, monthly) == Yield(x, monthly) + Yield(y, monthly)
  {
    Money.Distribute(monthly, x as real, y as real);
  }

  lemma YieldGrows(x: nat, y: nat, monthly: real)
    requires x <= y && monthly >= 0.0
    ensures Yield(x, monthly) <= Yield(y, monthly)
  {
    Scaled(x as real, y as real, monthly);
  }

  lemma InterestBound(d: Loan, bal: int, monthly: real)
    requires bal > 0 && 0.0 <= d.apr / 12.0 <= monthly
    ensures Interest(d, bal) as real <= Yield(bal, monthly) + 0.5
  {
    var r := d.Rate() / 12.0;
    Scaled(r, monthly, bal as real);
    RoundNear(bal as real * r);
  }

  lemma {:induction false} AccrualsBound(debts: seq<Loan>, bal: seq<int>, monthly: real)
    requires |debts| == |bal| && monthly >= 0.0
    requires forall i :: 0 <= i < |debts| ==> 0.0 <= debts[i].apr / 12.0 <= monthly
    ensures Sum(Accruals(debts, bal)) as real <= Yield(Owed(bal), monthly) + |bal| as real * 0.5
  {
    hide Interest;
    if bal != [] {
      AccrualsBound(debts[1..], bal[1..], monthly);
      assert Accruals(debts, bal)[1..] == Accruals(debts[1..], bal[1..]);
      if bal[0] > 0 {
        InterestBound(debts[0], bal[0], monthly);
        YieldAdds(bal[0], Owed(bal[1..]), monthly);
      }
    }
  }

  function Larger(x: real, y: real): real {
    if x >= y then x else y
  }

  /** A ceiling on any month's interest: on the opening total, half a cent of rounding per debt. */
  function Ceiling(p: Plan, monthly: real): real {
    Yield(Owed(Balances(p.debts)), monthly) + |p.debts| as real * 0.5
  }

  /** The sure monthly progress: the budget less that ceiling. */
  function Progress(p: Plan, monthly: real): real {
    p.budget as real - Ceiling(p, monthly)
  }

  ghost predicate RateCeiling(p: Plan, monthly: real) {
    monthly >= 0.0 && forall i :: 0 <= i < |p.debts| ==> p.debts[i].apr / 12.0 <= monthly
  }

  lemma InterestWithinCeiling(p: Plan, bal: seq<int>, monthly: real)
    requires GoodPlan(p) && |bal| == |p.debts| && RateCeiling(p, monthly)
    requires Owed(bal) <= Owed(Balances(p.debts))
    ensures Sum(Accruals(p.debts, bal)) as real <= Ceiling(p, monthly)
  {
    hide Yield, Accruals;
    AccrualsBound(p.debts, bal, monthly);
    YieldGrows(Owed(bal), Owed(Balances(p.debts)), monthly);
  }

  lemma MonthProgress(p: Plan, bal: seq<int>, monthly: real)
    requires GoodPlan(p) && |bal| == |p.debts| && !p.strategy.PreserveLiquidity? && RateCeiling(p, monthly)
    requires Owed(bal) <= Owed(Balances(p.debts))
    ensures Owed(MonthEnd(p, bal).bal) as real <= Larger(0.0, Owed(bal) as real - Progress(p, monthly))
  {
    hide MonthEnd, Interest, Ceiling, Owed, Sum;
    var open, interest := Added(bal, Accruals(p.debts, bal)), Accruals(p.debts, bal);
    OpeningFair(p, bal);
    PaysInFull(p, bal);
    OwedAdds(open, bal, interest);
    InterestWithinCeiling(p, bal, monthly);
  }

  /** k months of sure progress. */
  function Sure(k: nat, c: real): real {
    if k == 0 then 0.0 else Sure(k - 1, c) + c
  }

  lemma {:induction false} SureIs(k: nat, c: real)
    ensures Sure(k, c) == k as real * c
  {
    if k > 0 {
      SureIs(k - 1, c);
      Money.Distribute(c, (k - 1) as real, 1.0);
    }
  }

  lemma {:induction false} SureGrows(j: nat, k: nat, c: real)
    requires j <= k && c > 0.0
    ensures 0.0 <= Sure(j, c) <= Sure(k, c)
    decreases k
  {
    if j < k {
      SureGrows(j, k - 1, c);
    } else if k > 0 {
      SureGrows(k - 1, k - 1, c);
    }
  }

  ghost predicate OnTrack(p: Plan, s: Sim, c: real) {
    Owed(s.bal) as real <= Larger(0.0, Owed(Balances(p.debts)) as real - Sure(s.month, c))
  }

  lemma {:induction false} SimulateProgress(p: Plan, s: Sim, limit: int, monthly: real)
    requires GoodPlan(p) && |s.bal| == |p.debts| && !p.strategy.PreserveLiquidity? && RateCeiling(p, monthly)
    requires Progress(p, monthly) > 0.0 && OnTrack(p, s, Progress(p, monthly))
    ensures var r := Simulate(p, s, limit);
      && s.month <= r.month && OnTrack(p, r, Progress(p, monthly))
      && (Alive(r.bal) != [] ==> r.month >= limit)
      && (s.month < r.month ==> Sure(r.month - 1, Progress(p, monthly)) < Owed(Balances(p.debts)) as real)
    decreases limit - s.month
  {
    hide Alive, MonthEnd, Progress, Owed;
    if Alive(s.bal) != [] && s.month < limit {
      var c, t := Progress(p, monthly), NextMonth(p, s);
      SureGrows(s.month, s.month, c);
      MonthProgress(p, s.bal, monthly);
      AliveOwed(s.bal);
      SimulateProgress(p, t, limit, monthly);
    }
  }

  lemma AliveOwed(bal: seq<int>)
    ensures Alive(bal) == [] <==> Owed(bal) == 0
  {
    AliveIs(bal);
    NothingOwed(bal);
    if Alive(bal) != [] {
      assert Alive(bal)[0] in Alive(bal);
    }
  }

  /**
   * When the budget beats a ceiling on the interest by c > 0 cents a month, every strategy that
   * spends its budget is debt-free within any whole number of months M with M * c >= the total owed,
   * and the run is not truncated.
   */
  lemma PayoffBound(p: Plan, horizon: Option<int>, monthly: real, M: nat)
    requires GoodPlan(p) && !p.strategy.PreserveLiquidity? && RateCeiling(p, monthly)
    requires Progress(p, monthly) > 0.0
    requires M as real * Progress(p, monthly) >= Owed(Balances(p.debts)) as real
    requires M <= Limit(horizon)
    ensures var s := Simulate(p, Start(p), Limit(horizon));
      Alive(s.bal) == [] && Owed(s.bal) == 0 && s.month <= M
  {
    SureIs(M, Progress(p, monthly));
    PayoffBySure(p, Limit(horizon), monthly, M);
  }

  lemma PayoffBySure(p: Plan, limit: int, monthly: real, M: nat)
    requires GoodPlan(p) && !p.strategy.PreserveLiquidity? && RateCeiling(p, monthly)
    requires Progress(p, monthly) > 0.0 && M <= limit
    requires Sure(M, Progress(p, monthly)) >= Owed(Balances(p.debts)) as real
    ensures var s := Simulate(p, Start(p), limit);
      Alive(s.bal) == [] && Owed(s.bal) == 0 && s.month <= M
  {
    hide Simulate, Alive, Progress, Owed, Sure;
    var s, c := Simulate(p, Start(p), limit), Progress(p, monthly);
    SureIs(0, c);
    SimulateProgress(p, Start(p), limit, monthly);
    AliveOwed(s.bal);
    if s.month > M {
      SureGrows(M, s.month - 1, c);
    } else if Alive(s.bal) != [] {
      SureGrows(M, s.month, c);
    }
  }

  // ---- the exchange argument ------------------------------------------

  function Dot(w: seq<real>, a: seq<int>): real
    requires |w| == |a|
  {
    if w == [] then 0.0 else w[0] * a[0] as real + Dot(w[1..], a[1..])
  }

  function Product(x: real, y: real): real {
    x * y
  }

  lemma ExchangeOne(w: real, price: real, a: int, b: int)
    requires (w > price ==> a >= b) && (w < price ==> a <= b)
    ensures Product(w, a as real) - Product(w, b as real) >= Product(price, a as real - b as real)
  {
    var d, e := w - price, a as real - b as real;
    if d > 0.0 {
      Scaled(0.0, d, e);
    } else if d < 0.0 {
      Scaled(0.0, -d, -e);
    }
    assert d * e == w * a as real - w * b as real - price * e;
  }

  lemma HeadAndTail(w: real, price: real, a: int, b: int, dots: real, tails: real, sum: real)
    requires (w > price ==> a >= b) && (w < price ==> a <= b)
    requires dots >= Product(price, tails) && sum == a as real - b as real + tails
    ensures Product(w, a as real) - Product(w, b as real) + dots >= Product(price, sum)
  {
    ExchangeOne(w, price, a, b);
    Distribute(price, a as real - b as real, tails);
  }

  lemma Heads(w: seq<real>, a: seq<int>)
    requires |w| == |a| && w != []
    ensures Dot(w, a) == Product(w[0], a[0] as real) + Dot(w[1..], a[1..])
    ensures Sum(a) == a[0] + Sum(a[1..])
  {
  }

  /** If `a` holds more wherever the weight beats the price, and less below it, it weighs more. */
  lemma {:induction false} Exchange(w: seq<real>, price: real, a: seq<int>, b: seq<int>)
    requires |w| == |a| == |b|
    requires forall i :: 0 <= i < |w| ==> (w[i] > price ==> a[i] >= b[i]) && (w[i] < price ==> a[i] <= b[i])
    ensures Dot(w, a) - Dot(w, b) >= Product(price, Sum(a) as real - Sum(b) as real)
  {
    if w != [] {
      hide Dot, Sum, Product;
      Exchange(w[1..], price, a[1..], b[1..]);
      Heads(w, a);
      Heads(w, b);
      HeadAndTail(w[0], price, a[0], b[0], Dot(w[1..], a[1..]) - Dot(w[1..], b[1..]),
                  Sum(a[1..]) as real - Sum(b[1..]) as real, Sum(a) as real - Sum(b) as real);
    }
  }

  lemma PriceOf(price: real, d: real)
    requires price >= 0.0 && (price == 0.0 || d >= 0.0)
    ensures Product(price, d) >= 0.0
  {
    if price > 0.0 {
      Scaled(0.0, d, price);
    }
  }

  lemma ExchangeWins(w: seq<real>, price: real, a: seq<int>, b: seq<int>)
    requires |w| == |a| == |b| && price >= 0.0 && (price == 0.0 || Sum(a) >= Sum(b))
    requires forall i :: 0 <= i < |w| ==> (w[i] > price ==> a[i] >= b[i]) && (w[i] < price ==> a[i] <= b[i])
    ensures Dot(w, b) <= Dot(w, a)
  {
    hide Dot, Sum, Product;
    Exchange(w, price, a, b);
    PriceOf(price, Sum(a) as real - Sum(b) as real);
  }

  /** Where the greedy loop ran out: everything before is cleared, everything after untouched. */
  lemma {:induction false} GreedyShape(ids: seq<nat>, k: Desk) returns (c: nat)
    requires Sized(k, |k.bal|) && InRange(ids, |k.bal|) && Distinct(ids)
    requires k.left >= 0 && forall j :: 0 <= j < |ids| ==> k.bal[ids[j]] >= 0
    ensures var r := Greedy(ids, k);
      && c <= |ids|
      && (forall j :: 0 <= j < c ==> r.bal[ids[j]] == 0)
      && (forall j :: c < j < |ids| ==> r.bal[ids[j]] == k.bal[ids[j]])
      && (c < |ids| ==> r.left == 0 && 0 < r.bal[ids[c]] <= k.bal[ids[c]])
    decreases |ids|
  {
    if ids == [] {
      c := 0;
    } else {
      var i := ids[0];
      var next := Pay(k, i, Min(k.left, k.bal[i]));
      assert i !in ids[1..];
      GreedyTouch(ids[1..], next);
      assert Greedy(ids, k) == Greedy(ids[1..], next);
      hide Greedy;
      if k.bal[i] <= k.left {
        assert forall j :: 0 <= j < |ids[1..]| ==> next.bal[ids[1..][j]] == k.bal[ids[1..][j]];
        var d := GreedyShape(ids[1..], next);
        c := d + 1;
        ShapeFromTail(ids, k.bal, Greedy(ids, k).bal, c);
      } else {
        GreedyStops(ids[1..], next);
        c := 0;
      }
    }
  }

  lemma ShapeFromTail(ids: seq<nat>, bal: seq<int>, r: seq<int>, c: nat)
    requires ids != [] && |bal| == |r| && InRange(ids, |bal|) && 1 <= c <= |ids| && r[ids[0]] == 0
    requires forall j :: 0 <= j < c - 1 ==> r[ids[1..][j]] == 0
    requires forall j :: c - 1 < j < |ids| - 1 ==> r[ids[1..][j]] == bal[ids[1..][j]]
    ensures forall j :: 0 <= j < c ==> r[ids[j]] == 0
    ensures forall j :: c < j < |ids| ==> r[ids[j]] == bal[ids[j]]
  {
    forall j | 1 <= j < |ids|
      ensures ids[j] == ids[1..][j - 1]
    {
    }
  }

  /** An allocation x of the leftover budget: between nothing and the balance on each debt. */
  ghost predicate Feasible(x: seq<int>, k: Desk) {
    && |x| == |k.bal| && Sum(x) <= k.left
    && forall i :: 0 <= i < |x| ==> 0 <= x[i] <= (if k.bal[i] > 0 then k.bal[i] else 0)
  }

  function Minus(a: seq<int>, b: seq<int>): (r: seq<int>)
    requires |a| == |b|
    ensures |r| == |a|
  {
    seq(|a|, i requires 0 <= i < |a| => a[i] - b[i])
  }

  /** `ids` lists exactly the debts with a positive balance, once each. */
  ghost predicate Lists(ids: seq<nat>, bal: seq<int>) {
    InRange(ids, |bal|) && Distinct(ids) && forall i :: 0 <= i < |bal| ==> (i in ids <==> bal[i] > 0)
  }

  lemma ListedPositive(ids: seq<nat>, bal: seq<int>)
    requires Lists(ids, bal)
    ensures forall j :: 0 <= j < |ids| ==> bal[ids[j]] > 0
  {
    forall j | 0 <= j < |ids|
      ensures bal[ids[j]] > 0
    {
      assert ids[j] in ids;
    }
  }

  lemma {:induction false} GreedySpends(ids: seq<nat>, k: Desk)
    requires Sized(k, |k.bal|) && InRange(ids, |k.bal|)
    ensures Sum(Greedy(ids, k).bal) - Greedy(ids, k).left == Sum(k.bal) - k.left
    decreases |ids|
  {
    if ids != [] {
      var give := Min(k.left, k.bal[ids[0]]);
      SumUpdate(k.bal, ids[0], k.bal[ids[0]] - give);
      GreedySpends(ids[1..], Pay(k, ids[0], give));
    }
  }

  ghost predicate Falling(w: seq<real>, ids: seq<nat>)
    requires InRange(ids, |w|)
  {
    forall i, j :: 0 <= i < j < |ids| ==> w[ids[i]] >= w[ids[j]]
  }

  /** The weight at which the greedy loop ran out of money. */
  ghost function PriceAt(w: seq<real>, ids: seq<nat>, c: nat): real
    requires InRange(ids, |w|)
  {
    if c < |ids| then w[ids[c]] else 0.0
  }

  /** Against any balances within [0, balance], the greedy result holds its ground at the price. */
  lemma GreedyPriced(w: seq<real>, ids: seq<nat>, k: Desk, a: seq<int>) returns (c: nat)
    requires Sized(k, |k.bal|) && |w| == |k.bal| == |a| && k.left >= 0
    requires forall i :: 0 <= i < |w| ==> w[i] >= 0.0
    requires Lists(ids, k.bal) && Falling(w, ids)
    requires forall i :: 0 <= i < |a| ==> if k.bal[i] > 0 then 0 <= a[i] <= k.bal[i] else a[i] == k.bal[i]
    ensures var r, price := Greedy(ids, k), PriceAt(w, ids, c);
      && (c < |ids| ==> r.left == 0)
      && forall i :: 0 <= i < |w| ==> (w[i] > price ==> a[i] >= r.bal[i]) && (w[i] < price ==> a[i] <= r.bal[i])
  {
    hide Greedy;
    ListedPositive(ids, k.bal);
    c := GreedyShape(ids, k);
    GreedyTouch(ids, k);
    var r, price := Greedy(ids, k), PriceAt(w, ids, c);
    forall i | 0 <= i < |w|
      ensures (w[i] > price ==> a[i] >= r.bal[i]) && (w[i] < price ==> a[i] <= r.bal[i])
    {
      if i in ids {
        var j :| 0 <= j < |ids| && ids[j] == i;
        assert j < c && c < |ids| ==> w[ids[j]] >= w[ids[c]];
        assert c < j ==> w[ids[c]] >= w[ids[j]];
      }
    }
  }

  /** Paying in order of falling weight leaves the least weighted balance of all allocations. */
  lemma GreedyOptimal(w: seq<real>, ids: seq<nat>, k: Desk, x: seq<int>)
    requires Sized(k, |k.bal|) && |w| == |k.bal| && k.left >= 0
    requires forall i :: 0 <= i < |w| ==> w[i] >= 0.0
    requires Lists(ids, k.bal) && Falling(w, ids) && Feasible(x, k)
    ensures Dot(w, Greedy(ids, k).bal) <= Dot(w, Minus(k.bal, x))
  {
    hide Greedy, Dot, Falling;
    var r, a := Greedy(ids, k), Minus(k.bal, x);
    var c := GreedyPriced(w, ids, k, a);
    GreedySpends(ids, k);
    SumPointwise(a, x, k.bal);
    ExchangeWins(w, PriceAt(w, ids, c), a, r.bal);
  }

  // ---- HIGHEST_RATE ---------------------------------------------------

  /** The saved order is a permutation of the targets, sorted by the strategy's key. */
  lemma SortedIdsFall(debts: seq<Loan>, ids: seq<nat>, bal: seq<int>, leq: (Loan, Loan) -> bool)
    requires |debts| == |bal| && InRange(ids, |debts|) && Distinct(ids) && TotalOrder(leq)
    ensures var r := Ids(SortBy(Snapshots(debts, ids, bal), leq));
      && InRange(r, |debts|) && Distinct(r) && (forall i :: i in r <==> i in ids)
      && forall i, j :: 0 <= i < j < |r| ==>
           leq(debts[r[i]].(id := r[i], balance := bal[r[i]]), debts[r[j]].(id := r[j], balance := bal[r[j]]))
  {
    var ds := Snapshots(debts, ids, bal);
    var sorted := SortBy(ds, leq);
    var r := Ids(sorted);
    SortByCorrect(ds, leq);
    SortedIdsHold(debts, ids, bal, leq);
    assert Distinct(ds) by {
      forall i, j | 0 <= i < j < |ds|
        ensures ds[i] != ds[j]
      {
        assert ds[i].id == ids[i] && ds[j].id == ids[j];
      }
    }
    PermutationDistinct(ds, sorted);
    forall k | 0 <= k < |r|
      ensures sorted[k] == debts[r[k]].(id := r[k], balance := bal[r[k]])
    {
      assert sorted[k] in ds;
    }
  }

  function Aprs(debts: seq<Loan>): (r: seq<real>)
    ensures |r| == |debts| && forall i :: 0 <= i < |debts| ==> r[i] == debts[i].apr
  {
    seq(|debts|, i requires 0 <= i < |debts| => debts[i].apr)
  }

  /** The desk from which the strategy spends: after the minimums and the reserve for one debt. */
  function Ready(p: Plan, bal: seq<int>): (r: Desk)
    requires |bal| == |p.debts|
    ensures Sized(r, |p.debts|)
  {
    var k := AfterMinimums(p, bal);
    if Targets(Alive(bal), k.bal) == [] || k.left <= 0 then k else Reserved(p, Alive(bal), k)
  }

  lemma ReadyFair(p: Plan, bal: seq<int>)
    requires GoodPlan(p) && |bal| == |p.debts|
    ensures var open := Added(bal, Accruals(p.debts, bal));
      && Fair(open, p.budget, Ready(p, bal))
      && forall i :: 0 <= i < |bal| ==> (if bal[i] > 0 then open[i] >= bal[i] else open[i] == bal[i])
  {
    hide Targets, Accruals, Minimums;
    var k := AfterMinimums(p, bal);
    var open := Added(bal, Accruals(p.debts, bal));
    OpeningFair(p, bal);
    MinimumsFair(p.debts, Alive(bal), open, p.budget, Opening(p, bal));
    TargetsAre(Alive(bal), k.bal);
    if p.reserve.Some? && p.reserve.value.0 in Targets(Alive(bal), k.bal) {
      var (i, amount) := p.reserve.value;
      var give := Min(Min(amount, k.bal[i]), k.left);
      PayFair(open, p.budget, k, i, give, k.left - give);
    }
  }

  lemma MonthTargets(p: Plan, bal: seq<int>) returns (targets: seq<nat>)
    requires GoodPlan(p) && |bal| == |p.debts|
    ensures var k, r := Ready(p, bal), MonthEnd(p, bal);
      && Fair(Added(bal, Accruals(p.debts, bal)), p.budget, k)
      && targets == Alive(k.bal) && Lists(targets, k.bal)
      && (if targets == [] || k.left == 0 then r == k else r == Distributed(p, targets, k))
  {
    hide Distributed, Targets, AliveFrom, Accruals, AfterMinimums, Reserved;
    var k := Ready(p, bal);
    targets := Targets(Alive(bal), k.bal);
    ReadyFair(p, bal);
    forall i | 0 <= i < |bal| && bal[i] <= 0
      ensures k.bal[i] <= 0
    {
      assert Added(bal, Accruals(p.debts, bal))[i] <= 0;
    }
    StillAlive(bal, k.bal, 0);
    AliveIs(k.bal);
  }

  lemma NothingFeasible(x: seq<int>, k: Desk)
    requires Feasible(x, k) && (k.left == 0 || forall i :: 0 <= i < |k.bal| ==> k.bal[i] <= 0)
    ensures Minus(k.bal, x) == k.bal
  {
    forall i | 0 <= i < |x|
      ensures x[i] == 0
    {
      SumMember(x, i);
    }
  }

  lemma RateOrder()
    ensures TotalOrder(RateLeq) && TotalOrder(BalanceLeq)
  {
  }

  /**
   * HIGHEST_RATE leaves the least sum of apr times balance among all ways of spending the budget
   * left after the minimums and the reserve for one debt, whenever there is one.
   */
  lemma HighestRateOptimal(p: Plan, bal: seq<int>, x: seq<int>)
    requires GoodPlan(p) && |bal| == |p.debts| && p.strategy.HighestRate?
    requires Feasible(x, Ready(p, bal))
    ensures Dot(Aprs(p.debts), MonthEnd(p, bal).bal)
         <= Dot(Aprs(p.debts), Minus(Ready(p, bal).bal, x))
  {
    hide MonthEnd, Ready, Dot, Greedy;
    var k := Ready(p, bal);
    var targets := MonthTargets(p, bal);
    if targets == [] || k.left == 0 {
      NothingFeasible(x, k);
    } else {
      var ids := Ordered(p, targets, k.bal);
      RateOrder();
      SortedIdsFall(p.debts, targets, k.bal, RateLeq);
      GreedyOptimal(Aprs(p.debts), ids, k, x);
    }
  }
}
