/** Two comparisons in which the benchmark is not the cheapest: by a promotional zero, and by a rounded cent. */
module DebtPremiums {
  import opened Prelude
  import opened Debt
  import opened DebtLaws
  import opened DebtBounds
  import opened DebtPromotions
  import opened DebtBenchmark

  /** Two debts without required payments, paid in order, nothing set aside. */
  ghost predicate Pair(p: Plan, bal: seq<int>) {
    && GoodPlan(p) && |p.debts| == |bal| == 2 && p.reserve.None? && p.budget > 0
    && p.debts[0].minimum == p.debts[1].minimum == 0 && bal[0] > 0 && bal[1] > 0
    && (p.strategy.HighestRate? || p.strategy.Custom?)
  }

  lemma PairReady(p: Plan, bal: seq<int>)
    requires Pair(p, bal)
    ensures Ready(p, bal).bal == Opened(p.debts, bal) && Ready(p, bal).left == p.budget
    ensures Opened(p.debts, bal)[0] > 0 && Opened(p.debts, bal)[1] > 0
  {
    hide AfterMinimums, Accruals;
    OpenedIs(p.debts, bal);
    assert Dues(p.debts, bal) == [0, 0];
    assert Sum([0, 0]) == 0 by { assert [0, 0][1..] == [0]; }
    AfterMinimumsAre(p, bal);
    ReadyIs(p, bal);
  }

  lemma PairAlive(a: int, b: int)
    requires a > 0 && b > 0
    ensures Alive([a, b]) == [0, 1]
  {
    assert AliveFrom([a, b], 2) == [];
    assert AliveFrom([a, b], 1) == [1];
  }

  /** A month pays the two debts in the order of the strategy. */
  lemma PairMonth(p: Plan, bal: seq<int>, ids: seq<nat>)
    requires Pair(p, bal) && ids == Ordered(p, [0, 1], Opened(p.debts, bal)) && InRange(ids, 2)
    ensures MonthEnd(p, bal).bal == Greedy(ids, Ready(p, bal)).bal
  {
    var open := Opened(p.debts, bal);
    PairReady(p, bal);
    assert open == [open[0], open[1]];
    PairAlive(open[0], open[1]);
    hide Ready, MonthEnd, Ordered, Greedy, Alive, Accruals, Opened;
    var targets := MonthTargets(p, bal);
    DistributedInOrder(p, targets, Ready(p, bal));
  }

  lemma PairGreedy(i: nat, k: Desk)
    requires i < 2 && Sized(k, 2) && k.left >= 0 && k.bal[0] >= 0 && k.bal[1] >= 0
    ensures var j := 1 - i; var first := Min(k.left, k.bal[i]);
      Greedy([i, j], k).bal == k.bal[i := k.bal[i] - first][j := k.bal[j] - Min(k.left - first, k.bal[j])]
  {
    var j := 1 - i;
    assert [i, j][1..] == [j] && [j][1..] == [];
    var next := Pay(k, i, Min(k.left, k.bal[i]));
    assert Greedy([j], next) == Pay(next, j, Min(next.left, next.bal[j]));
  }

  lemma RatePair(p: Plan, bal: seq<int>)
    requires |p.debts| == |bal| == 2 && p.strategy.HighestRate? && p.debts[0].apr > p.debts[1].apr
    ensures Ordered(p, [0, 1], bal) == [0, 1]
  {
    var a, b := p.debts[0].(id := 0, balance := bal[0]), p.debts[1].(id := 1, balance := bal[1]);
    assert Snapshots(p.debts, [0, 1], bal) == [a, b];
    assert [a, b][1..] == [b] && [b][1..] == [];
    assert SortBy([b], RateLeq) == [b];
    assert SortBy([a, b], RateLeq) == [a, b];
  }

  lemma {:induction false} KeepNone(ids: seq<nat>, among: seq<nat>)
    requires forall i :: i in ids ==> i in among
    ensures Keep(ids, among, false) == []
  {
    if ids != [] {
      KeepNone(ids[1..], among);
    }
  }

  /** The second debt first. */
  lemma CustomPair(p: Plan, bal: seq<int>)
    requires |p.debts| == |bal| == 2 && p.strategy.Custom? && p.custom == [1, 0]
    ensures Ordered(p, [0, 1], bal) == [1, 0]
  {
    assert [1, 0][1..] == [0] && [0][1..] == [];
    assert Keep([0], [0, 1], true) == [0];
    assert Keep([1, 0], [0, 1], true) == [1, 0];
    SortedIdsHold(p.debts, [0, 1], Balances(p.debts), RateLeq);
    KeepNone(SortedIds(p.debts, [0, 1], Balances(p.debts), HighestRate), [1, 0]);
  }

  /** Two months of interest, when something is owed after the first. */
  lemma TwoMonths(p: Plan, next: seq<int>)
    requires GoodPlan(p) && MonthEnd(p, Balances(p.debts)).bal == next
    ensures Simulate(p, Start(p), 2).interest == Sum(Accruals(p.debts, Balances(p.debts))) + Sum(Accruals(p.debts, next))
  {
    hide Simulate, MonthEnd, Accruals, Sum, InterestOver, AliveFrom;
    SimulationStops(p, Start(p), 2);
    SimulatedCost(p, Start(p), 2, 2);
    OverOne(p, Balances(p.debts), 2);
    OverOne(p, next, 1);
    OverOne(p, MonthEnd(p, next).bal, 0);
  }

  function Custom(p: Plan): Plan {
    p.(strategy := Strategy.Custom, custom := [1, 0])
  }

  lemma PairSum(debts: seq<Loan>, bal: seq<int>, a: int, b: int)
    requires |debts| == |bal| == 2 && bal[0] >= 0 && bal[1] >= 0
    requires a == (if bal[0] > 0 then Interest(debts[0], bal[0]) else 0)
    requires b == (if bal[1] > 0 then Interest(debts[1], bal[1]) else 0)
    ensures Sum(Accruals(debts, bal)) == a + b
    ensures Opened(debts, bal) == [bal[0] + a, bal[1] + b]
  {
    hide Interest;
    assert Accruals(debts, bal) == [a, b];
    assert [a, b][1..] == [b] && [b][1..] == [];
    assert Sum([b]) == b;
    assert Opened(debts, bal) == [bal[0] + a, bal[1] + b];
  }

  /** What the first and the second debt of an order leave. */
  lemma PairPaid(p: Plan, bal: seq<int>, i: nat, a: int, b: int)
    requires Pair(p, bal) && i < 2 && Ordered(p, [0, 1], [a, b]) == [i, 1 - i] && Opened(p.debts, bal) == [a, b]
    ensures i == 0 ==> MonthEnd(p, bal).bal == [a - Min(p.budget, a), b - Min(p.budget - Min(p.budget, a), b)]
    ensures i == 1 ==> MonthEnd(p, bal).bal == [a - Min(p.budget - Min(p.budget, b), a), b - Min(p.budget, b)]
  {
    PairReady(p, bal);
    hide MonthEnd, Ready, Greedy, Ordered, Opened;
    PairGreedy(i, Ready(p, bal));
    PairMonth(p, bal, [i, 1 - i]);
  }

  lemma PairOf(p: Plan, bal: seq<int>)
    requires p == TwoDebts() || p == Custom(TwoDebts()) || p == CentDebts() || p == Custom(CentDebts())
    requires |bal| == 2 && bal[0] > 0 && bal[1] > 0
    ensures Pair(p, bal)
  {
  }

  // ---- a promotional zero ---------------------------------------------

  lemma PromotionInterest()
    ensures var debts := TwoDebts().debts;
      && Balances(debts) == [100000, 100000]
      && Opened(debts, [100000, 100000]) == [100000, 101000] && Sum(Accruals(debts, [100000, 100000])) == 1000
      && Sum(Accruals(debts, [50000, 101000])) == 1010
      && Sum(Accruals(debts, [100000, 51000])) == 510
  {
    var debts := TwoDebts().debts;
    assert Interest(debts[0], 100000) == Interest(debts[0], 50000) == 0;
    assert Interest(debts[1], 100000) == 1000;
    assert Interest(debts[1], 101000) == 1010;
    assert Interest(debts[1], 51000) == 510;
    hide Interest;
    PairSum(debts, [100000, 100000], 0, 1000);
    PairSum(debts, [50000, 101000], 0, 1010);
    PairSum(debts, [100000, 51000], 0, 510);
  }

  lemma OtherDebtFirst()
    ensures MonthEnd(Custom(TwoDebts()), [100000, 100000]).bal == [100000, 51000]
  {
    var q, bal := Custom(TwoDebts()), [100000, 100000];
    hide MonthEnd, Ordered, Opened, Accruals, Pair, Sum, Balances;
    PromotionInterest();
    CustomPair(q, [100000, 101000]);
    PairOf(q, bal);
    PairPaid(q, bal, 1, 100000, 101000);
  }

  /** Over two months the benchmark charges 20.10 of interest, and the other order 15.10. */
  lemma PromotionCostsMore()
    ensures var p := TwoDebts();
      Simulate(p, Start(p), 2).interest == 2010 && Simulate(Custom(p), Start(Custom(p)), 2).interest == 1510
  {
    PromotionInterest();
    ZeroTakesAll();
    OtherDebtFirst();
    hide Simulate, MonthEnd, Accruals, Sum, Opened;
    TwoMonths(TwoDebts(), [50000, 101000]);
    TwoMonths(Custom(TwoDebts()), [100000, 51000]);
  }

  // ---- a rounded cent -------------------------------------------------

  /** 20 cents at 24 percent, whose interest rounds to nothing, and 70 cents at 12; the budget is 22 cents. */
  function CentDebts(): Plan {
    Plan([Loan(0, 20, 0.24, 0, false, None), Loan(1, 70, 0.12, 0, false, None)], 22, HighestRate, [], None)
  }

  lemma CentInterest()
    ensures var debts := CentDebts().debts;
      && Balances(debts) == [20, 70]
      && Opened(debts, [20, 70]) == [20, 71] && Sum(Accruals(debts, [20, 70])) == 1
      && Sum(Accruals(debts, [0, 69])) == 1
      && Sum(Accruals(debts, [20, 49])) == 0
  {
    var debts := CentDebts().debts;
    assert Interest(debts[0], 20) == 0;
    assert Interest(debts[1], 70) == Interest(debts[1], 69) == 1;
    assert Interest(debts[1], 49) == 0;
    hide Interest;
    PairSum(debts, [20, 70], 0, 1);
    PairSum(debts, [0, 69], 0, 1);
    PairSum(debts, [20, 49], 0, 0);
  }

  lemma CentPaid()
    ensures MonthEnd(CentDebts(), [20, 70]).bal == [0, 69]
    ensures MonthEnd(Custom(CentDebts()), [20, 70]).bal == [20, 49]
  {
    var p, q, bal := CentDebts(), Custom(CentDebts()), [20, 70];
    hide MonthEnd, Ordered, Opened, Accruals, Pair, Sum, Balances;
    CentInterest();
    RatePair(p, [20, 71]);
    CustomPair(q, [20, 71]);
    PairOf(p, bal);
    PairOf(q, bal);
    PairPaid(p, bal, 0, 20, 71);
    PairPaid(q, bal, 1, 20, 71);
  }

  /** With honest rates the benchmark can still lose, by rounding: two cents of interest against one. */
  lemma RoundingCostsMore()
    ensures var p := CentDebts();
      && Benchmark(p)
      && Simulate(p, Start(p), 2).interest == 2 && Simulate(Custom(p), Start(Custom(p)), 2).interest == 1
  {
    CentInterest();
    CentPaid();
    hide Simulate, MonthEnd, Accruals, Sum, Opened;
    TwoMonths(CentDebts(), [0, 69]);
    TwoMonths(Custom(CentDebts()), [20, 49]);
  }
}
