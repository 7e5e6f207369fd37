/** HIGHEST_RATE as the cost-minimising benchmark: total interest over whole runs, cent rounding included. */
module DebtBenchmark {
  import opened Prelude
  import opened Money
  import opened Debt
  import opened DebtLaws
  import opened DebtBounds

  // ---- what every way of paying has in common -------------------------

  /** The balances once the month's interest is added. */
  function Opened(debts: seq<Loan>, bal: seq<int>): (r: seq<int>)
    requires |debts| == |bal|
    ensures |r| == |bal|
  {
    Added(bal, Accruals(debts, bal))
  }

  /** The required payments of the month. */
  function Dues(debts: seq<Loan>, bal: seq<int>): (r: seq<int>)
    requires |debts| == |bal|
    ensures |r| == |bal|
  {
    seq(|bal|, i requires 0 <= i < |bal| => if bal[i] > 0 then Min(debts[i].minimum, Opened(debts, bal)[i]) else 0)
  }

  /** The budget covers the required payments of the month. */
  predicate Covered(debts: seq<Loan>, budget: int, bal: seq<int>)
    requires |debts| == |bal|
  {
    Sum(Dues(debts, bal)) <= budget
  }

  /** A month's payments: at least what is required on each debt, never more than is owed, within the budget. */
  predicate Allowed(debts: seq<Loan>, budget: int, bal: seq<int>, next: seq<int>)
    requires |debts| == |bal|
  {
    && |next| == |bal|
    && Sum(Opened(debts, bal)) - Sum(next) <= budget
    && forall i :: 0 <= i < |bal| ==>
         if bal[i] > 0 then 0 <= next[i] <= Opened(debts, bal)[i] - Dues(debts, bal)[i] else next[i] == bal[i]
  }

  ghost predicate GoodDebts(debts: seq<Loan>) {
    forall i :: 0 <= i < |debts| ==> debts[i].apr >= 0.0 && debts[i].minimum >= 0
  }

  lemma OpenedIs(debts: seq<Loan>, bal: seq<int>)
    requires |debts| == |bal| && GoodDebts(debts)
    ensures forall i :: 0 <= i < |bal| ==> if bal[i] > 0 then Opened(debts, bal)[i] >= bal[i] else Opened(debts, bal)[i] == bal[i]
    ensures forall i :: 0 <= i < |bal| ==> Accruals(debts, bal)[i] >= 0
  {
    hide Interest;
    forall i | 0 <= i < |bal|
      ensures Accruals(debts, bal)[i] >= 0
    {
      if bal[i] > 0 {
        InterestNonNegative(debts[i], bal[i]);
      }
    }
  }

  /** Once the required payments are covered they stay covered. */
  lemma CoveredStays(debts: seq<Loan>, budget: int, bal: seq<int>, next: seq<int>)
    requires |debts| == |bal| && GoodDebts(debts)
    requires Covered(debts, budget, bal) && Allowed(debts, budget, bal, next)
    ensures Covered(debts, budget, next)
  {
    hide Accruals;
    OpenedIs(debts, bal);
    OpenedIs(debts, next);
    SumMonotone(Dues(debts, next), Dues(debts, bal));
  }

  // ---- what the simulator's months do ---------------------------------

  /** The required payments, as far as the money goes. */
  lemma {:induction false} MinimumsAre(debts: seq<Loan>, ids: seq<nat>, k: Desk, dues: seq<int>)
    requires Sized(k, |debts|) && |dues| == |debts| && InRange(ids, |debts|) && Distinct(ids) && k.left >= 0
    requires forall j :: 0 <= j < |ids| ==> dues[ids[j]] == Min(debts[ids[j]].minimum, k.bal[ids[j]]) >= 0
    ensures var r := Minimums(debts, ids, k);
      && (SumAt(ids, dues) > k.left ==> r.left == 0)
      && (SumAt(ids, dues) <= k.left ==> r.left == k.left - SumAt(ids, dues))
      && (SumAt(ids, dues) <= k.left ==>
            forall i :: 0 <= i < |debts| ==> r.bal[i] == if i in ids then k.bal[i] - dues[i] else k.bal[i])
    decreases |ids|
  {
    if ids != [] {
      var i := ids[0];
      var due := Min(Min(debts[i].minimum, k.bal[i]), k.left);
      assert i !in ids[1..];
      DuesNonNegative(ids[1..], dues);
      if due == dues[i] {
        MinimumsAre(debts, ids[1..], Pay(k, i, due), dues);
      } else {
        NothingLeft(debts, ids[1..], Pay(k, i, due));
      }
    }
  }

  lemma {:induction false} DuesNonNegative(ids: seq<nat>, dues: seq<int>)
    requires InRange(ids, |dues|) && forall j :: 0 <= j < |ids| ==> dues[ids[j]] >= 0
    ensures SumAt(ids, dues) >= 0
  {
    if ids != [] {
      DuesNonNegative(ids[1..], dues);
    }
  }

  lemma {:induction false} NothingLeft(debts: seq<Loan>, ids: seq<nat>, k: Desk)
    requires Sized(k, |debts|) && InRange(ids, |debts|) && Distinct(ids) && k.left == 0
    requires forall j :: 0 <= j < |ids| ==> Min(debts[ids[j]].minimum, k.bal[ids[j]]) >= 0
    ensures Minimums(debts, ids, k).left == 0
    decreases |ids|
  {
    if ids != [] {
      var i := ids[0];
      assert Min(Min(debts[i].minimum, k.bal[i]), 0) == 0;
      NothingLeft(debts, ids[1..], Pay(k, i, 0));
    }
  }

  lemma AfterMinimumsAre(p: Plan, bal: seq<int>)
    requires GoodPlan(p) && |bal| == |p.debts|
    ensures var m, dues := AfterMinimums(p, bal), Dues(p.debts, bal);
      && (!Covered(p.debts, p.budget, bal) ==> m.left == 0)
      && (Covered(p.debts, p.budget, bal) ==> m.left == p.budget - Sum(dues))
      && (Covered(p.debts, p.budget, bal) ==>
            forall i :: 0 <= i < |bal| ==> m.bal[i] == Opened(p.debts, bal)[i] - dues[i])
  {
    hide Minimums, Accruals, AliveFrom;
    var dues := Dues(p.debts, bal);
    OpenedIs(p.debts, bal);
    AliveIs(bal);
    forall j | 0 <= j < |Alive(bal)|
      ensures bal[Alive(bal)[j]] > 0
    {
      assert Alive(bal)[j] in Alive(bal);
    }
    MinimumsAre(p.debts, Alive(bal), Opening(p, bal), dues);
    SumAtAliveFrom(bal, dues, 0);
    assert dues[0..] == dues;
  }

  /** While the budget does not cover the required payments, every strategy does the same. */
  lemma SameWhenShort(p: Plan, q: Plan, bal: seq<int>)
    requires GoodPlan(p) && |bal| == |p.debts| && p.debts == q.debts && p.budget == q.budget
    requires !Covered(p.debts, p.budget, bal)
    ensures MonthEnd(p, bal) == MonthEnd(q, bal)
  {
    AfterMinimumsAre(p, bal);
    hide Minimums, Accruals, Alive, Targets, Covered;
    assert AfterMinimums(p, bal) == AfterMinimums(q, bal);
  }

  // ---- the extra money only lowers balances ---------------------------

  ghost predicate Lower(r: Desk, k: Desk) {
    |r.bal| == |k.bal| && forall i :: 0 <= i < |k.bal| ==> r.bal[i] <= k.bal[i]
  }

  ghost predicate Payable(ids: seq<nat>, k: Desk) {
    Sized(k, |k.bal|) && InRange(ids, |k.bal|) && forall j :: 0 <= j < |ids| ==> k.bal[ids[j]] >= 0
  }

  lemma {:induction false} GreedyLowers(ids: seq<nat>, k: Desk)
    requires Payable(ids, k) && k.left >= 0
    ensures Lower(Greedy(ids, k), k)
    decreases |ids|
  {
    if ids != [] {
      GreedyLowers(ids[1..], Pay(k, ids[0], Min(k.left, k.bal[ids[0]])));
    }
  }

  lemma {:induction false} SharedLowers(ids: seq<nat>, shares: seq<int>, k: Desk)
    requires Payable(ids, k) && |shares| == |ids| && k.left >= 0
    requires forall j :: 0 <= j < |shares| ==> shares[j] >= 0
    ensures var r := Shared(ids, shares, k); Lower(r, k) && r.left >= 0 && Payable(ids, r)
    decreases |ids|
  {
    if ids != [] {
      var give := Min(shares[0], k.bal[ids[0]]);
      var next := Pay(k, ids[0], give).(left := k.left + (shares[0] - give));
      SharedLowers(ids[1..], shares[1..], next);
      SharedStays(ids[1..], shares[1..], next, ids[0]);
    }
  }

  lemma {:induction false} SharedStays(ids: seq<nat>, shares: seq<int>, k: Desk, i: nat)
    requires Payable(ids, k) && |shares| == |ids| && i < |k.bal| && k.bal[i] >= 0
    requires forall j :: 0 <= j < |shares| ==> shares[j] >= 0
    ensures Shared(ids, shares, k).bal[i] >= 0
    decreases |ids|
  {
    if ids != [] {
      var give := Min(shares[0], k.bal[ids[0]]);
      SharedStays(ids[1..], shares[1..], Pay(k, ids[0], give).(left := k.left + (shares[0] - give)), i);
    }
  }

  lemma DistributedLowers(p: Plan, targets: seq<nat>, k: Desk)
    requires |p.debts| == |k.bal| && Payable(targets, k) && k.left >= 0 && targets != []
    ensures Lower(Distributed(p, targets, k), k)
  {
    hide Ordered, SpillOrder, Shared, Greedy, EqualSplit;
    OrderedHolds(p, targets, k.bal);
    if p.strategy.EqualShares? {
      var shares, k0 := EqualSplit(targets, k.left), k.(left := 0);
      var shared := Shared(targets, shares, k0);
      EqualSplitIs(targets, k.left);
      SharedLowers(targets, shares, k0);
      OrderedHolds(p, targets, shared.bal);
      PayableToo(targets, SpillOrder(p, targets, shared.bal), shared);
      GreedyLowers(SpillOrder(p, targets, shared.bal), shared);
    } else {
      PayableToo(targets, Ordered(p, targets, k.bal), k);
      GreedyLowers(Ordered(p, targets, k.bal), k);
    }
  }

  lemma PayableToo(ids: seq<nat>, others: seq<nat>, k: Desk)
    requires Payable(ids, k) && InRange(others, |k.bal|) && forall i :: i in others <==> i in ids
    ensures Payable(others, k)
  {
    forall j | 0 <= j < |others|
      ensures k.bal[others[j]] >= 0
    {
      assert others[j] in others;
    }
  }

  lemma ExtraLowers(p: Plan, alive: seq<nat>, k: Desk)
    requires GoodPlan(p) && Sized(k, |p.debts|) && InRange(alive, |p.debts|)
    ensures Lower(Extra(p, alive, k), k)
  {
    hide Distributed;
    if Targets(alive, k.bal) != [] && k.left > 0 {
      var reserved := Reserved(p, alive, k);
      TargetsAre(alive, k.bal);
      var targets := Targets(alive, reserved.bal);
      TargetsAre(alive, reserved.bal);
      if reserved.left > 0 && targets != [] {
        DistributedLowers(p, targets, reserved);
      }
    }
  }

  /** Every strategy, with or without a reserve, pays in an allowed way once the required payments are covered. */
  lemma StrategyAllowed(p: Plan, bal: seq<int>)
    requires GoodPlan(p) && |bal| == |p.debts| && Covered(p.debts, p.budget, bal)
    ensures Allowed(p.debts, p.budget, bal, MonthEnd(p, bal).bal)
  {
    hide Accruals, Extra, AfterMinimums, Alive, Covered;
    var open, k := Opened(p.debts, bal), MonthEnd(p, bal);
    OpenedIs(p.debts, bal);
    MonthFair(p, bal);
    AfterMinimumsAre(p, bal);
    ExtraLowers(p, Alive(bal), AfterMinimums(p, bal));
    SumPointwise(k.bal, k.paid, open);
  }

  // ---- one month of HIGHEST_RATE --------------------------------------

  /** HIGHEST_RATE with every promotional zero below the rates that accrue, and nothing set aside for one debt. */
  ghost predicate Benchmark(p: Plan) {
    && GoodPlan(p) && p.strategy.HighestRate? && p.reserve.None?
    && forall i, j :: 0 <= i < |p.debts| && 0 <= j < |p.debts| && p.debts[i].promoZero && p.debts[j].Rate() > 0.0 ==>
         p.debts[i].apr < p.debts[j].apr
  }

  predicate Dead(bal: seq<int>) {
    forall i :: 0 <= i < |bal| ==> bal[i] <= 0
  }

  /** From `bal` to `next`: nothing left above the rate, only the required payments made below it. */
  ghost predicate Separates(debts: seq<Loan>, bal: seq<int>, next: seq<int>, rate: real)
    requires |debts| == |bal| == |next|
  {
    forall i :: 0 <= i < |bal| ==>
      && (debts[i].Rate() > rate ==> next[i] == Min(0, bal[i]))
      && (debts[i].Rate() < rate ==> next[i] == Opened(debts, bal)[i] - Dues(debts, bal)[i])
  }

  lemma ReadyIs(p: Plan, bal: seq<int>)
    requires |bal| == |p.debts| && p.reserve.None?
    ensures Ready(p, bal) == AfterMinimums(p, bal)
  {
  }

  /** The rate at which the month's money runs out. */
  lemma HighestRateMonth(p: Plan, bal: seq<int>, rate: real) returns (now: real)
    requires Benchmark(p) && |bal| == |p.debts| && Covered(p.debts, p.budget, bal)
    requires rate >= 0.0 && forall i :: 0 <= i < |bal| && p.debts[i].Rate() > rate ==> bal[i] <= 0
    ensures 0.0 <= now <= rate && Separates(p.debts, bal, MonthEnd(p, bal).bal, now)
  {
    hide MonthEnd, Ready, Greedy, Accruals, AfterMinimums, Covered, Opened, Dues, Separates, Ordered, Distributed;
    var k := Ready(p, bal);
    ReadyIs(p, bal);
    AfterMinimumsAre(p, bal);
    var targets := MonthTargets(p, bal);
    if targets == [] {
      now := 0.0;
      NothingLeftOwed(p.debts, bal, k.bal, targets);
    } else if k.left == 0 {
      now := rate;
      RequiredOnly(p.debts, bal, k.bal, rate);
    } else {
      var ids := RateOrdered(p, targets, k);
      now := RunsOutAt(p, bal, k, ids, rate);
    }
  }

  lemma NothingLeftOwed(debts: seq<Loan>, bal: seq<int>, next: seq<int>, targets: seq<nat>)
    requires GoodDebts(debts) && |debts| == |bal| == |next| && Lists(targets, next) && targets == []
    requires forall i :: 0 <= i < |bal| ==> next[i] == Opened(debts, bal)[i] - Dues(debts, bal)[i]
    ensures Separates(debts, bal, next, 0.0)
  {
    hide Accruals;
    OpenedIs(debts, bal);
    forall i | 0 <= i < |bal|
      ensures next[i] <= 0
    {
      assert i !in targets;
    }
  }

  lemma RequiredOnly(debts: seq<Loan>, bal: seq<int>, next: seq<int>, rate: real)
    requires GoodDebts(debts) && |debts| == |bal| == |next|
    requires forall i :: 0 <= i < |bal| ==> next[i] == Opened(debts, bal)[i] - Dues(debts, bal)[i]
    requires forall i :: 0 <= i < |bal| && debts[i].Rate() > rate ==> bal[i] <= 0
    ensures Separates(debts, bal, next, rate)
  {
    hide Accruals;
    OpenedIs(debts, bal);
  }

  /** The order in which the month's extra money is paid. */
  lemma RateOrdered(p: Plan, targets: seq<nat>, k: Desk) returns (ids: seq<nat>)
    requires Benchmark(p) && Sized(k, |p.debts|) && Lists(targets, k.bal)
    ensures Lists(ids, k.bal) && Distributed(p, targets, k) == Greedy(ids, k)
    ensures forall i, j :: 0 <= i < j < |ids| ==> p.debts[ids[i]].Rate() >= p.debts[ids[j]].Rate()
  {
    OrderedHolds(p, targets, k.bal);
    hide Greedy;
    RateOrder();
    SortedIdsFall(p.debts, targets, k.bal, RateLeq);
    ids := Ordered(p, targets, k.bal);
    hide Ordered, Distributed;
    forall i, j | 0 <= i < j < |ids|
      ensures p.debts[ids[i]].Rate() >= p.debts[ids[j]].Rate()
    {
      RatesFall(p, ids[i], ids[j]);
    }
  }

  lemma RatesFall(p: Plan, a: nat, b: nat)
    requires Benchmark(p) && a < |p.debts| && b < |p.debts| && p.debts[a].apr >= p.debts[b].apr
    ensures p.debts[a].Rate() >= p.debts[b].Rate()
  {
  }

  lemma RunsOutAt(p: Plan, bal: seq<int>, k: Desk, ids: seq<nat>, rate: real) returns (now: real)
    requires Benchmark(p) && |bal| == |p.debts| && Sized(k, |p.debts|) && k.left >= 0 && Lists(ids, k.bal)
    requires forall i :: 0 <= i < |bal| ==> k.bal[i] == Opened(p.debts, bal)[i] - Dues(p.debts, bal)[i]
    requires forall i, j :: 0 <= i < j < |ids| ==> p.debts[ids[i]].Rate() >= p.debts[ids[j]].Rate()
    requires rate >= 0.0 && forall i :: 0 <= i < |bal| && p.debts[i].Rate() > rate ==> bal[i] <= 0
    ensures 0.0 <= now <= rate && Separates(p.debts, bal, Greedy(ids, k).bal, now)
  {
    hide Accruals, Greedy;
    OpenedIs(p.debts, bal);
    ListedPositive(ids, k.bal);
    var c := GreedyShape(ids, k);
    GreedyTouch(ids, k);
    now := if c < |ids| then p.debts[ids[c]].Rate() else 0.0;
    var next := Greedy(ids, k).bal;
    forall i | 0 <= i < |bal|
      ensures p.debts[i].Rate() > now ==> next[i] == Min(0, bal[i])
      ensures p.debts[i].Rate() < now ==> next[i] == k.bal[i]
    {
      if i in ids {
        var j :| 0 <= j < |ids| && ids[j] == i;
        assert c < j ==> p.debts[ids[c]].Rate() >= p.debts[ids[j]].Rate();
        assert j < c < |ids| ==> p.debts[ids[j]].Rate() >= p.debts[ids[c]].Rate();
      }
    }
  }

  /** All but liquidity preservation spend the whole budget, or everything owed. */
  lemma SpendsTheBudget(p: Plan, bal: seq<int>)
    requires GoodPlan(p) && |bal| == |p.debts| && !p.strategy.PreserveLiquidity?
    ensures var next := MonthEnd(p, bal).bal;
      Dead(next) || Sum(Opened(p.debts, bal)) - Sum(next) == p.budget
  {
    hide Accruals, MonthEnd;
    var open, k := Opened(p.debts, bal), MonthEnd(p, bal);
    MonthFair(p, bal);
    OpenedIs(p.debts, bal);
    SumPointwise(k.bal, k.paid, open);
    AliveIs(bal);
    if k.left != 0 {
      forall i | 0 <= i < |bal|
        ensures k.bal[i] <= 0
      {
        if i in Alive(bal) {
          var j :| 0 <= j < |Alive(bal)| && Alive(bal)[j] == i;
        }
      }
    }
  }

  // ---- two ways of paying, side by side -------------------------------

  /** The benchmark h owes nothing above the rate, and no less than x below it; a credit is never touched. */
  ghost predicate Between(debts: seq<Loan>, rate: real, x: seq<int>, h: seq<int>)
    requires |debts| == |x| == |h|
  {
    forall i :: 0 <= i < |x| ==>
      && (debts[i].Rate() > rate ==> h[i] <= 0 && h[i] <= x[i])
      && (debts[i].Rate() < rate ==> x[i] <= h[i])
      && (x[i] < 0 || h[i] < 0 ==> x[i] == h[i])
  }

  lemma LeastMonotone(debts: seq<Loan>, a: seq<int>, b: seq<int>, i: nat)
    requires GoodDebts(debts) && |debts| == |a| == |b| && i < |a| && a[i] <= b[i]
    ensures Opened(debts, a)[i] - Dues(debts, a)[i] <= Opened(debts, b)[i] - Dues(debts, b)[i]
  {
    OpenedIs(debts, b);
    if a[i] > 0 {
      InterestMonotone(debts[i], a[i], b[i]);
    }
    hide Interest;
  }

  lemma InterestIs(d: Loan, w: real, balance: int)
    requires w == d.Rate() / 12.0
    ensures Interest(d, balance) == RoundHalfUp(Product(w, balance as real))
  {
  }

  lemma ProductGrows(w: real, a: real, b: real)
    requires w >= 0.0 && a <= b
    ensures Product(w, a) <= Product(w, b)
  {
    Scaled(a, b, w);
  }

  lemma InterestMonotone(d: Loan, a: int, b: int)
    requires d.apr >= 0.0 && a <= b
    ensures Interest(d, a) <= Interest(d, b)
  {
    hide Interest, Product, RoundHalfUp;
    var w := d.Rate() / 12.0;
    InterestIs(d, w, a);
    InterestIs(d, w, b);
    ProductGrows(w, a as real, b as real);
    RoundMonotone(Product(w, a as real), Product(w, b as real));
  }

  lemma BetweenNext(debts: seq<Loan>, budget: int, x: seq<int>, x': seq<int>, h: seq<int>, h': seq<int>, rate: real, now: real)
    requires GoodDebts(debts) && |debts| == |x| == |h| && now <= rate
    requires Between(debts, rate, x, h) && Allowed(debts, budget, x, x') && Allowed(debts, budget, h, h')
    requires Separates(debts, h, h', now)
    ensures Between(debts, now, x', h')
  {
    hide Opened, Dues;
    forall i | 0 <= i < |x|
      ensures debts[i].Rate() > now ==> h'[i] <= 0 && h'[i] <= x'[i]
      ensures debts[i].Rate() < now ==> x'[i] <= h'[i]
      ensures x'[i] < 0 || h'[i] < 0 ==> x'[i] == h'[i]
    {
      if debts[i].Rate() < now {
        LeastMonotone(debts, x, h, i);
        if x[i] <= 0 {
          LeastOfDead(debts, x, i);
        }
      }
    }
  }

  lemma LeastOfDead(debts: seq<Loan>, bal: seq<int>, i: nat)
    requires |debts| == |bal| && i < |bal| && bal[i] <= 0
    ensures Opened(debts, bal)[i] - Dues(debts, bal)[i] == bal[i]
  {
  }

  // ---- the interest of one month --------------------------------------

  lemma InterestNear(d: Loan, balance: int)
    ensures Product(d.Rate() / 12.0, balance as real) - 0.5 <= Interest(d, balance) as real
         <= Product(d.Rate() / 12.0, balance as real) + 0.5
  {
    var w := d.Rate() / 12.0;
    InterestIs(d, w, balance);
    RoundNear(Product(w, balance as real));
  }

  function Monthly(debts: seq<Loan>): (w: seq<real>)
    ensures |w| == |debts| && forall i :: 0 <= i < |debts| ==> w[i] == debts[i].Rate() / 12.0
  {
    seq(|debts|, i requires 0 <= i < |debts| => debts[i].Rate() / 12.0)
  }

  lemma DebtGap(debts: seq<Loan>, x: seq<int>, h: seq<int>, i: nat)
    requires |debts| == |x| == |h| && i < |x| && debts[i].Rate() >= 0.0 && (x[i] < 0 || h[i] < 0 ==> x[i] == h[i])
    ensures Accruals(debts, x)[i] as real - Accruals(debts, h)[i] as real
         >= Product(Monthly(debts)[i], x[i] as real) - Product(Monthly(debts)[i], h[i] as real) - 1.0
  {
    InterestNear(debts[i], x[i]);
    InterestNear(debts[i], h[i]);
    NoProduct(Monthly(debts)[i]);
    hide Product, Interest;
  }

  lemma NoProduct(w: real)
    ensures Product(w, 0.0) == 0.0
  {
  }

  lemma {:induction false} SumGap(w: seq<real>, a: seq<int>, b: seq<int>, ja: seq<int>, jb: seq<int>)
    requires |w| == |a| == |b| == |ja| == |jb|
    requires forall i :: 0 <= i < |w| ==>
      ja[i] as real - jb[i] as real >= Product(w[i], a[i] as real) - Product(w[i], b[i] as real) - 1.0
    ensures Sum(ja) as real - Sum(jb) as real >= Dot(w, a) - Dot(w, b) - |w| as real
  {
    hide Product, Sum, Dot;
    if w != [] {
      SumGap(w[1..], a[1..], b[1..], ja[1..], jb[1..]);
      Heads(w, a);
      Heads(w, b);
      Heads(w, ja);
      Heads(w, jb);
    } else {
      NoSums(w, a, b);
      NoSums(w, ja, jb);
    }
  }

  lemma NoSums(w: seq<real>, a: seq<int>, b: seq<int>)
    requires w == [] && a == [] && b == []
    ensures Dot(w, a) == Dot(w, b) == 0.0 && Sum(a) == Sum(b) == 0
  {
  }

  /** A month's interest under any other way, less that of the benchmark, up to a cent a debt of rounding. */
  lemma MonthGap(debts: seq<Loan>, rate: real, x: seq<int>, h: seq<int>)
    requires |debts| == |x| == |h| && Between(debts, rate, x, h)
    requires forall i :: 0 <= i < |debts| ==> debts[i].Rate() >= 0.0
    ensures Sum(Accruals(debts, x)) as real - Sum(Accruals(debts, h)) as real
         >= Product(rate / 12.0, Sum(x) as real - Sum(h) as real) - |debts| as real
  {
    hide Sum, Dot, Product, Accruals;
    var w := Monthly(debts);
    forall i | 0 <= i < |debts|
      ensures Accruals(debts, x)[i] as real - Accruals(debts, h)[i] as real
           >= Product(w[i], x[i] as real) - Product(w[i], h[i] as real) - 1.0
    {
      DebtGap(debts, x, h, i);
    }
    SumGap(w, x, h, Accruals(debts, x), Accruals(debts, h));
    Exchange(w, rate / 12.0, x, h);
  }

  // ---- whole runs -----------------------------------------------------

  /** Balances month by month, each month paid in an allowed way. */
  ghost predicate AllowedRun(debts: seq<Loan>, budget: int, xs: seq<seq<int>>) {
    && xs != []
    && (forall t :: 0 <= t < |xs| ==> |xs[t]| == |debts|)
    && (forall t :: 0 <= t < |xs| - 1 ==> Allowed(debts, budget, xs[t], xs[t + 1]))
  }

  /** The interest of every month of a run. */
  function InterestOfRun(debts: seq<Loan>, xs: seq<seq<int>>): int
    requires forall t :: 0 <= t < |xs| ==> |xs[t]| == |debts|
  {
    if |xs| <= 1 then 0 else Sum(Accruals(debts, xs[0])) + InterestOfRun(debts, xs[1..])
  }

  /** The interest the simulator charges in n months from these balances. */
  function InterestOver(p: Plan, bal: seq<int>, n: nat): int
    requires |bal| == |p.debts|
    decreases n
  {
    if n == 0 then 0 else Sum(Accruals(p.debts, bal)) + InterestOver(p, MonthEnd(p, bal).bal, n - 1)
  }

  /** A shortfall e after n more months: a cent a debt each month, compounded at the top rate. */
  function Grown(e: real, cents: nat, top: real, n: nat): real
    decreases n
  {
    if n == 0 then e else Grown(e + Product(top / 12.0, e) + cents as real, cents, top, n - 1)
  }

  lemma Worsens(rate: real, top: real, owed: real, e: real)
    requires 0.0 <= rate <= top && e >= 0.0 && owed >= -e
    ensures Product(rate / 12.0, owed) >= -Product(top / 12.0, e) && Product(top / 12.0, e) >= 0.0
  {
    Scaled(-e, owed, rate / 12.0);
    Scaled(rate / 12.0, top / 12.0, e);
    Scaled(0.0, top / 12.0, e);
  }

  lemma {:induction false} GrownMore(e: real, f: real, cents: nat, top: real, n: nat)
    requires 0.0 <= e <= f && top >= 0.0
    ensures Grown(e, cents, top, n) <= Grown(f, cents, top, n)
    decreases n
  {
    if n > 0 {
      Scaled(e, f, top / 12.0);
      Scaled(0.0, e, top / 12.0);
      GrownMore(e + Product(top / 12.0, e) + cents as real, f + Product(top / 12.0, f) + cents as real, cents, top, n - 1);
    }
  }

  lemma DeadCostsNothing(debts: seq<Loan>, bal: seq<int>)
    requires |debts| == |bal| && GoodDebts(debts)
    ensures Sum(Accruals(debts, bal)) >= 0
    ensures Dead(bal) ==> Sum(Accruals(debts, bal)) == 0
  {
    OpenedIs(debts, bal);
    SumZeros(|bal|);
    SumMonotone(Zeros(|bal|), Accruals(debts, bal));
    if Dead(bal) {
      assert Accruals(debts, bal) == Zeros(|bal|);
    }
  }

  /**
   * Side by side in some month: `ahead` is the other way's interest so far less the benchmark's, short by
   * no more than e; and while the benchmark still owes something, the other way owes that much more.
   */
  ghost predicate Keeps(p: Plan, x: seq<int>, h: seq<int>, rate: real, top: real, ahead: int, e: real)
    requires |p.debts| == |x| == |h|
  {
    && Between(p.debts, rate, x, h) && 0.0 <= rate <= top
    && e >= 0.0 && ahead as real >= -e
    && (Dead(h) || Sum(x) - Sum(h) >= ahead)
  }

  lemma OpenedSum(debts: seq<Loan>, bal: seq<int>)
    requires |debts| == |bal|
    ensures Sum(Opened(debts, bal)) == Sum(bal) + Sum(Accruals(debts, bal))
  {
    hide Accruals;
    SumPointwise(bal, Accruals(debts, bal), Opened(debts, bal));
  }

  lemma StillAhead(p: Plan, x: seq<int>, h: seq<int>, rate: real, top: real, ahead: int, e: real)
    requires Benchmark(p) && |p.debts| == |x| == |h| && Keeps(p, x, h, rate, top, ahead, e)
    ensures (ahead + Sum(Accruals(p.debts, x)) - Sum(Accruals(p.debts, h))) as real
         >= -(e + Product(top / 12.0, e) + |p.debts| as real)
    ensures e + Product(top / 12.0, e) + |p.debts| as real >= 0.0
  {
    hide Accruals, Sum, Product, Between;
    var owed := (Sum(x) - Sum(h)) as real;
    DeadCostsNothing(p.debts, x);
    DeadCostsNothing(p.debts, h);
    if Dead(h) {
      Worsens(rate, top, 0.0, e);
    } else {
      MonthGap(p.debts, rate, x, h);
      if owed >= 0.0 {
        Worsens(rate, top, owed, 0.0);
        NoProduct(top / 12.0);
        Worsens(rate, top, 0.0, e);
      } else {
        Worsens(rate, top, owed, e);
      }
    }
  }

  lemma NextMonthKeeps(p: Plan, x: seq<int>, x': seq<int>, h: seq<int>, rate: real, top: real, ahead: int, e: real)
    returns (now: real)
    requires Benchmark(p) && |p.debts| == |x| == |h| && Covered(p.debts, p.budget, h)
    requires Allowed(p.debts, p.budget, x, x') && Keeps(p, x, h, rate, top, ahead, e)
    ensures Keeps(p, x', MonthEnd(p, h).bal, now, top,
                  ahead + Sum(Accruals(p.debts, x)) - Sum(Accruals(p.debts, h)),
                  e + Product(top / 12.0, e) + |p.debts| as real)
  {
    var h' := MonthEnd(p, h).bal;
    StillAhead(p, x, h, rate, top, ahead, e);
    StillOwes(p, x, x', h, ahead);
    hide Accruals, Sum, Product, MonthEnd, Covered, Dues, Opened, Separates, Allowed, Dead;
    now := HighestRateMonth(p, h, rate);
    StrategyAllowed(p, h);
    BetweenNext(p.debts, p.budget, x, x', h, h', rate, now);
  }

  lemma StillOwes(p: Plan, x: seq<int>, x': seq<int>, h: seq<int>, ahead: int)
    requires GoodPlan(p) && !p.strategy.PreserveLiquidity? && |p.debts| == |x| == |h|
    requires Allowed(p.debts, p.budget, x, x') && (Dead(h) || Sum(x) - Sum(h) >= ahead)
    ensures var h' := MonthEnd(p, h).bal;
      Dead(h') || Sum(x') - Sum(h') >= ahead + Sum(Accruals(p.debts, x)) - Sum(Accruals(p.debts, h))
  {
    hide Accruals, Sum, MonthEnd, Opened, Dead;
    SpendsTheBudget(p, h);
    OpenedSum(p.debts, x);
    OpenedSum(p.debts, h);
    if Dead(h) {
      DeadStays(p, h);
    }
  }

  /** Any number of months on. */
  lemma {:induction false} MonthsKeep(p: Plan, xs: seq<seq<int>>, h: seq<int>, rate: real, top: real, ahead: int, e: real)
    requires Benchmark(p) && AllowedRun(p.debts, p.budget, xs) && |h| == |p.debts|
    requires Covered(p.debts, p.budget, h) && Keeps(p, xs[0], h, rate, top, ahead, e)
    ensures (ahead + InterestOfRun(p.debts, xs) - InterestOver(p, h, |xs| - 1)) as real >= -Grown(e, |p.debts|, top, |xs| - 1)
    decreases |xs|
  {
    hide Accruals, Sum, Product, MonthEnd, Covered, Allowed, AllowedRun, InterestOver, InterestOfRun, Grown;
    if |xs| > 1 {
      hide Keeps;
      RestAllowed(p.debts, p.budget, xs);
      var next, costs := MonthEnd(p, h).bal, Sum(Accruals(p.debts, xs[0])) - Sum(Accruals(p.debts, h));
      var now := NextMonthKeeps(p, xs[0], xs[1], h, rate, top, ahead, e);
      StrategyAllowed(p, h);
      CoveredStays(p.debts, p.budget, h, next);
      MonthsKeep(p, xs[1..], next, now, top, ahead + costs, e + Product(top / 12.0, e) + |p.debts| as real);
      OneMonthMore(p, xs, h, e, top);
    } else {
      RunLengths(p.debts, p.budget, xs);
      NoMonths(p, xs, h, e, top);
    }
  }

  lemma OneMonthMore(p: Plan, xs: seq<seq<int>>, h: seq<int>, e: real, top: real)
    requires |xs| > 1 && |h| == |p.debts| && forall t :: 0 <= t < |xs| ==> |xs[t]| == |p.debts|
    ensures InterestOfRun(p.debts, xs) == Sum(Accruals(p.debts, xs[0])) + InterestOfRun(p.debts, xs[1..])
    ensures InterestOver(p, h, |xs| - 1) == Sum(Accruals(p.debts, h)) + InterestOver(p, MonthEnd(p, h).bal, |xs[1..]| - 1)
    ensures Grown(e, |p.debts|, top, |xs| - 1)
         == Grown(e + Product(top / 12.0, e) + |p.debts| as real, |p.debts|, top, |xs[1..]| - 1)
  {
    hide Accruals, Sum, Product, MonthEnd;
  }

  lemma RunLengths(debts: seq<Loan>, budget: int, xs: seq<seq<int>>)
    requires AllowedRun(debts, budget, xs)
    ensures xs != [] && |xs[0]| == |debts|
  {
  }

  lemma NoMonths(p: Plan, xs: seq<seq<int>>, h: seq<int>, e: real, top: real)
    requires |xs| == 1 && |h| == |p.debts| == |xs[0]|
    ensures InterestOfRun(p.debts, xs) == 0 && InterestOver(p, h, |xs| - 1) == 0 && Grown(e, |p.debts|, top, |xs| - 1) == e
  {
  }

  lemma RestAllowed(debts: seq<Loan>, budget: int, xs: seq<seq<int>>)
    requires AllowedRun(debts, budget, xs) && |xs| > 1
    ensures AllowedRun(debts, budget, xs[1..]) && Allowed(debts, budget, xs[0], xs[1])
    ensures forall t :: 0 <= t < |xs| ==> |xs[t]| == |debts|
  {
    hide Allowed;
    forall t | 0 <= t < |xs| - 2
      ensures Allowed(debts, budget, xs[1..][t], xs[1..][t + 1])
    {
      assert Allowed(debts, budget, xs[t + 1], xs[t + 2]);
    }
  }

  /** No rate is above the top. */
  ghost predicate Tops(top: real, debts: seq<Loan>) {
    top >= 0.0 && forall i :: 0 <= i < |debts| ==> debts[i].Rate() <= top
  }

  /**
   * From any balances whose required payments the budget covers: whatever way the same budget is spent,
   * over any number of months, HIGHEST_RATE never costs more interest than that way and its rounding,
   * a cent a debt each month, compounded.
   */
  lemma BenchmarkCostsLeast(p: Plan, xs: seq<seq<int>>, top: real)
    requires Benchmark(p) && AllowedRun(p.debts, p.budget, xs) && Covered(p.debts, p.budget, xs[0]) && Tops(top, p.debts)
    ensures InterestOver(p, xs[0], |xs| - 1) as real <= InterestOfRun(p.debts, xs) as real + Grown(0.0, |p.debts|, top, |xs| - 1)
  {
    hide Accruals, Product, MonthEnd, Covered, Allowed;
    MonthsKeep(p, xs, xs[0], top, top, 0, 0.0);
  }

  // ---- the strategies of the simulator --------------------------------

  /** The balances of n months of a plan. */
  function BalancesOf(p: Plan, bal: seq<int>, n: nat): (r: seq<seq<int>>)
    requires |bal| == |p.debts|
    ensures |r| == n + 1 && r[0] == bal && forall t :: 0 <= t < |r| ==> |r[t]| == |p.debts|
    decreases n
  {
    if n == 0 then [bal] else [bal] + BalancesOf(p, MonthEnd(p, bal).bal, n - 1)
  }

  lemma {:induction false} StrategyRun(p: Plan, bal: seq<int>, n: nat)
    requires GoodPlan(p) && |bal| == |p.debts| && Covered(p.debts, p.budget, bal)
    ensures AllowedRun(p.debts, p.budget, BalancesOf(p, bal, n))
    ensures InterestOfRun(p.debts, BalancesOf(p, bal, n)) == InterestOver(p, bal, n)
    decreases n
  {
    hide Accruals, Sum, MonthEnd, Covered, Allowed, BalancesOf, InterestOver;
    OverOne(p, bal, n);
    BalancesOne(p, bal, n);
    if n > 0 {
      var next := MonthEnd(p, bal).bal;
      var rest := BalancesOf(p, next, n - 1);
      StrategyAllowed(p, bal);
      CoveredStays(p.debts, p.budget, bal, next);
      StrategyRun(p, next, n - 1);
      FirstMonthAllowed(p.debts, p.budget, bal, rest);
      assert ([bal] + rest)[1..] == rest;
    }
  }

  lemma BalancesOne(p: Plan, bal: seq<int>, n: nat)
    requires |bal| == |p.debts|
    ensures BalancesOf(p, bal, n) == if n == 0 then [bal] else [bal] + BalancesOf(p, MonthEnd(p, bal).bal, n - 1)
  {
  }

  lemma FirstMonthAllowed(debts: seq<Loan>, budget: int, bal: seq<int>, rest: seq<seq<int>>)
    requires |debts| == |bal| && AllowedRun(debts, budget, rest) && Allowed(debts, budget, bal, rest[0])
    ensures AllowedRun(debts, budget, [bal] + rest)
  {
    hide Allowed;
    var xs := [bal] + rest;
    forall t | 0 <= t < |xs| - 1
      ensures Allowed(debts, budget, xs[t], xs[t + 1])
    {
      if t > 0 {
        assert Allowed(debts, budget, rest[t - 1], rest[t]);
      }
    }
  }

  /** Two strategies on the same debts and budget, from the same balances, over the same months. */
  lemma {:induction false} StrategyCosts(p: Plan, q: Plan, bal: seq<int>, n: nat, top: real)
    requires Benchmark(p) && GoodPlan(q) && q.debts == p.debts && q.budget == p.budget
    requires |bal| == |p.debts| && Tops(top, p.debts)
    ensures InterestOver(p, bal, n) as real <= InterestOver(q, bal, n) as real + Grown(0.0, |p.debts|, top, n)
    decreases n
  {
    hide Accruals, MonthEnd, Product, Sum;
    if Covered(p.debts, p.budget, bal) {
      hide Covered, InterestOver, InterestOfRun, Grown, BalancesOf, AllowedRun;
      StrategyRun(q, bal, n);
      BenchmarkCostsLeast(p, BalancesOf(q, bal, n), top);
    } else if n > 0 {
      hide Covered;
      SameWhenShort(p, q, bal);
      StrategyCosts(p, q, MonthEnd(p, bal).bal, n - 1, top);
      NoProduct(top / 12.0);
      GrownMore(0.0, |p.debts| as real, |p.debts|, top, n - 1);
    }
  }

  // ---- the results the simulator reports ------------------------------

  lemma {:induction false} DeadMonths(p: Plan, bal: seq<int>, n: nat)
    requires GoodPlan(p) && |bal| == |p.debts| && Dead(bal)
    ensures InterestOver(p, bal, n) == 0
    decreases n
  {
    hide Accruals, Sum, MonthEnd, InterestOver, Dead;
    OverOne(p, bal, n);
    if n > 0 {
      DeadCostsNothing(p.debts, bal);
      DeadStays(p, bal);
      DeadMonths(p, MonthEnd(p, bal).bal, n - 1);
    }
  }

  lemma DeadStays(p: Plan, bal: seq<int>)
    requires GoodPlan(p) && |bal| == |p.debts| && Dead(bal)
    ensures Dead(MonthEnd(p, bal).bal)
  {
    hide Accruals, MonthEnd;
    OpenedIs(p.debts, bal);
    MonthFair(p, bal);
  }

  lemma OneMonthOfInterest(p: Plan, s: Sim)
    requires |s.bal| == |p.debts|
    ensures NextMonth(p, s).interest == s.interest + Sum(Accruals(p.debts, s.bal))
    ensures NextMonth(p, s).bal == MonthEnd(p, s.bal).bal
  {
    hide MonthEnd, Rows, Cleared, Interest, AliveFrom, Sum, SumAt;
    var interest := Accruals(p.debts, s.bal);
    SumAtAliveFrom(s.bal, interest, 0);
    assert interest[0..] == interest;
  }

  /** Where a simulation stops: nothing is owed any more, or the horizon is reached. */
  lemma {:induction false} SimulationStops(p: Plan, s: Sim, limit: int)
    requires |s.bal| == |p.debts|
    ensures var r := Simulate(p, s, limit);
      && s.month <= r.month && (r.month == s.month || r.month <= limit)
      && (Alive(r.bal) == [] || r.month >= limit)
    decreases limit - s.month
  {
    hide NextMonth, AliveFrom;
    if Alive(s.bal) != [] && s.month < limit {
      SimulationStops(p, NextMonth(p, s), limit);
    }
  }

  /** A simulation's interest is that of its months, and idle months after the last debt add nothing. */
  lemma {:induction false} SimulatedCost(p: Plan, s: Sim, limit: int, n: nat)
    requires GoodPlan(p) && |s.bal| == |p.debts|
    requires var r := Simulate(p, s, limit); r.month <= s.month + n && (r.month < s.month + n ==> Alive(r.bal) == [])
    ensures Simulate(p, s, limit).interest == s.interest + InterestOver(p, s.bal, n)
    decreases limit - s.month
  {
    hide Simulate, NextMonth, MonthEnd, Accruals, Sum, AliveFrom, InterestOver;
    SimulateOne(p, s, limit);
    if Alive(s.bal) == [] || s.month >= limit {
      AliveIs(s.bal);
      if n == 0 {
        OverOne(p, s.bal, n);
      } else {
        DeadMonths(p, s.bal, n);
      }
    } else {
      var next := NextMonth(p, s);
      SimulationStops(p, next, limit);
      OneMonthOfInterest(p, s);
      OverOne(p, s.bal, n);
      SimulatedCost(p, next, limit, n - 1);
    }
  }

  lemma SimulateOne(p: Plan, s: Sim, limit: int)
    requires |s.bal| == |p.debts|
    ensures Simulate(p, s, limit) == if Alive(s.bal) == [] || s.month >= limit then s else Simulate(p, NextMonth(p, s), limit)
  {
  }

  lemma OverOne(p: Plan, bal: seq<int>, n: nat)
    requires |bal| == |p.debts|
    ensures InterestOver(p, bal, n) == if n == 0 then 0 else Sum(Accruals(p.debts, bal)) + InterestOver(p, MonthEnd(p, bal).bal, n - 1)
  {
  }

  /**
   * The benchmark is the cheapest of all strategies up to rounding: whatever the other strategy, its reserve
   * and its custom order, on the same debts, budget and horizon, HIGHEST_RATE's total interest exceeds the
   * other's by no more than a cent a debt each month, compounded at the top rate.
   */
  lemma PremiumWithinRounding(p: Plan, q: Plan, limit: int, top: real)
    requires Benchmark(p) && GoodPlan(q) && q.debts == p.debts && q.budget == p.budget && Tops(top, p.debts)
    ensures var a, b := Simulate(p, Start(p), limit), Simulate(q, Start(q), limit);
      a.interest as real <= b.interest as real + Grown(0.0, |p.debts|, top, if a.month >= b.month then a.month else b.month)
  {
    hide Simulate, InterestOver, Grown, AliveFrom;
    var a, b := Simulate(p, Start(p), limit), Simulate(q, Start(q), limit);
    var n := if a.month >= b.month then a.month else b.month;
    SimulationStops(p, Start(p), limit);
    SimulationStops(q, Start(q), limit);
    SimulatedCost(p, Start(p), limit, n);
    SimulatedCost(q, Start(q), limit, n);
    StrategyCosts(p, q, Balances(p.debts), n, top);
  }
}
