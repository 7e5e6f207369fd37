/** HIGHEST_RATE orders promotional zeros by their contract rate: exactly when that costs interest. */
module DebtPromotions {
  import opened Prelude
  import opened Debt
  import opened DebtLaws
  import opened DebtBounds
  import opened DebtOrders

  // ---- the order, read off the debts ----------------------------------

  /** HIGHEST_RATE pays debt a before debt b: higher contract rate, then smaller balance, then list order. */
  predicate PaidFirst(debts: seq<Loan>, bal: seq<int>, a: nat, b: nat)
    requires |debts| == |bal| && a < |bal| && b < |bal|
  {
    || debts[a].apr > debts[b].apr
    || (debts[a].apr == debts[b].apr && (bal[a] < bal[b] || (bal[a] == bal[b] && a < b)))
  }

  function AheadMarks(debts: seq<Loan>, bal: seq<int>, a: nat): (r: seq<int>)
    requires |debts| == |bal| && a < |bal|
    ensures |r| == |bal|
  {
    seq(|bal|, i requires 0 <= i < |bal| => if bal[i] > 0 && PaidFirst(debts, bal, i, a) then bal[i] else 0)
  }

  /** What the debts paid before this one owe. */
  function Ahead(debts: seq<Loan>, bal: seq<int>, a: nat): int
    requires |debts| == |bal| && a < |bal|
  {
    Sum(AheadMarks(debts, bal, a))
  }

  ghost predicate InPayingOrder(debts: seq<Loan>, bal: seq<int>, ids: seq<nat>)
    requires |debts| == |bal| && InRange(ids, |bal|)
  {
    forall i, j :: 0 <= i < j < |ids| ==> PaidFirst(debts, bal, ids[i], ids[j])
  }

  lemma {:induction false} AliveAscends(bal: seq<int>, from: nat)
    requires from <= |bal|
    ensures forall i, j :: 0 <= i < j < |AliveFrom(bal, from)| ==> AliveFrom(bal, from)[i] < AliveFrom(bal, from)[j]
    decreases |bal| - from
  {
    if from < |bal| {
      AliveAscends(bal, from + 1);
    }
  }

  lemma RateOrderIs(p: Plan, bal: seq<int>)
    requires |bal| == |p.debts| && p.strategy.HighestRate?
    ensures var ids := Ordered(p, Alive(bal), bal);
      Lists(ids, bal) && InPayingOrder(p.debts, bal, ids)
  {
    hide AliveFrom, SortBy;
    var targets := Alive(bal);
    var ds := Snapshots(p.debts, targets, bal);
    var ids := Ordered(p, targets, bal);
    AliveIs(bal);
    AliveAscends(bal, 0);
    RateOrder();
    SortedIdsFall(p.debts, targets, bal, RateLeq);
    SortByCorrect(ds, RateLeq);
    forall i, j | 0 <= i < j < |ids|
      ensures PaidFirst(p.debts, bal, ids[i], ids[j])
    {
      var g, h := SortByStable(ds, RateLeq, i, j);
      assert ids[i] == targets[g] && ids[j] == targets[h];
      assert ids[i] != ids[j];
    }
  }

  function MarksUpTo(ids: seq<nat>, bal: seq<int>, m: nat): (r: seq<int>)
    requires InRange(ids, |bal|) && m <= |ids|
    ensures |r| == |bal|
  {
    seq(|bal|, h requires 0 <= h < |bal| => if h in ids[..m] then bal[h] else 0)
  }

  lemma {:induction false} MarksAdd(ids: seq<nat>, bal: seq<int>, m: nat)
    requires InRange(ids, |bal|) && Distinct(ids) && m <= |ids|
    ensures Sum(MarksUpTo(ids, bal, m)) == PrefixTotal(ids, bal, m)
  {
    if m == 0 {
      assert MarksUpTo(ids, bal, 0) == Zeros(|bal|);
      SumZeros(|bal|);
    } else {
      MarksAdd(ids, bal, m - 1);
      var before, i := MarksUpTo(ids, bal, m - 1), ids[m - 1];
      assert ids[..m] == ids[..m - 1] + [i];
      assert i !in ids[..m - 1];
      assert MarksUpTo(ids, bal, m) == before[i := bal[i]];
      SumUpdate(before, i, bal[i]);
    }
  }

  lemma AheadIs(debts: seq<Loan>, bal: seq<int>, ids: seq<nat>, i: nat)
    requires |debts| == |bal| && Lists(ids, bal) && InPayingOrder(debts, bal, ids) && i < |ids|
    ensures Ahead(debts, bal, ids[i]) == PrefixTotal(ids, bal, i)
  {
    MarksAdd(ids, bal, i);
    forall h | 0 <= h < |bal|
      ensures AheadMarks(debts, bal, ids[i])[h] == MarksUpTo(ids, bal, i)[h]
    {
      if bal[h] > 0 {
        var j :| 0 <= j < |ids| && ids[j] == h;
        assert j < i ==> ids[..i][j] == h;
        assert i < j ==> PaidFirst(debts, bal, ids[i], ids[j]);
      }
    }
    assert AheadMarks(debts, bal, ids[i]) == MarksUpTo(ids, bal, i);
  }

  // ---- the rates that accrue ------------------------------------------

  function Rates(debts: seq<Loan>): (r: seq<real>)
    ensures |r| == |debts| && forall i :: 0 <= i < |debts| ==> r[i] == debts[i].Rate()
  {
    seq(|debts|, i requires 0 <= i < |debts| => debts[i].Rate())
  }

  /** a is a promotional zero with a balance, b accrues on its balance, and a is paid first. */
  ghost predicate ZeroBefore(debts: seq<Loan>, bal: seq<int>, a: int, b: int)
    requires |debts| == |bal|
  {
    && 0 <= a < |bal| && 0 <= b < |bal| && bal[a] > 0 && bal[b] > 0
    && debts[a].promoZero && debts[b].Rate() > 0.0 && PaidFirst(debts, bal, a, b)
  }

  lemma ZerosOutOfOrder(p: Plan, bal: seq<int>, ids: seq<nat>, i: nat, j: nat)
    requires GoodPlan(p) && |bal| == |p.debts| && Lists(ids, bal) && InPayingOrder(p.debts, bal, ids)
    requires i < j < |ids|
    ensures Rates(p.debts)[ids[i]] < Rates(p.debts)[ids[j]] <==> ZeroBefore(p.debts, bal, ids[i], ids[j])
  {
    ListedPositive(ids, bal);
    assert PaidFirst(p.debts, bal, ids[i], ids[j]);
    assert p.debts[ids[i]].apr >= p.debts[ids[j]].apr >= 0.0;
  }

  lemma PlacesOf(debts: seq<Loan>, bal: seq<int>, ids: seq<nat>, a: nat, b: nat) returns (i: nat, j: nat)
    requires |debts| == |bal| && Lists(ids, bal) && InPayingOrder(debts, bal, ids)
    requires ZeroBefore(debts, bal, a, b)
    ensures i < j < |ids| && ids[i] == a && ids[j] == b
  {
    assert a in ids && b in ids;
    i :| 0 <= i < |ids| && ids[i] == a;
    j :| 0 <= j < |ids| && ids[j] == b;
  }

  /**
   * HIGHEST_RATE leaves the least accruing balance for every budget exactly when no promotional zero
   * is paid before a debt that accrues.
   */
  lemma PromotionalZeros(p: Plan, bal: seq<int>)
    requires GoodPlan(p) && |bal| == |p.debts| && p.strategy.HighestRate?
    ensures var ids := Ordered(p, Alive(bal), bal);
      && Lists(ids, bal)
      && (BestForEveryBudget(Rates(p.debts), ids, bal) <==> forall a, b :: !ZeroBefore(p.debts, bal, a, b))
  {
    hide BestForEveryBudget, ZeroBefore, InPayingOrder, Ordered, Alive;
    var ids, w := Ordered(p, Alive(bal), bal), Rates(p.debts);
    RateOrderIs(p, bal);
    BestExactlyWhenFalling(w, ids, bal);
    if a, b :| ZeroBefore(p.debts, bal, a, b) {
      Listed(p.debts, bal, a, b);
      var i, j := PlacesOf(p.debts, bal, ids, a, b);
      ZerosOutOfOrder(p, bal, ids, i, j);
    }
    forall i, j | 0 <= i < j < |ids| && (forall a, b :: !ZeroBefore(p.debts, bal, a, b))
      ensures w[ids[i]] >= w[ids[j]]
    {
      ZerosOutOfOrder(p, bal, ids, i, j);
    }
  }

  lemma Listed(debts: seq<Loan>, bal: seq<int>, a: int, b: int)
    requires |debts| == |bal| && ZeroBefore(debts, bal, a, b)
    ensures 0 <= a < |bal| && 0 <= b < |bal|
  {
  }

  // ---- one month ------------------------------------------------------

  /** No other way of spending what is left after the minimums and the reserve leaves less accruing. */
  ghost predicate BestThisMonth(p: Plan, bal: seq<int>)
    requires |bal| == |p.debts|
  {
    forall x: seq<int> :: Feasible(x, Ready(p, bal)) ==>
      Dot(Rates(p.debts), MonthEnd(p, bal).bal) <= Dot(Rates(p.debts), Minus(Ready(p, bal).bal, x))
  }

  /** The money reaches the promotional zero a and does not clear the accruing b. */
  ghost predicate Misspent(debts: seq<Loan>, k: Desk, a: int, b: int)
    requires |debts| == |k.bal|
  {
    && 0 <= a < |k.bal| && 0 <= b < |k.bal| && k.bal[a] > 0 && k.bal[b] > 0
    && debts[a].promoZero && debts[b].Rate() > 0.0
    && Ahead(debts, k.bal, a) < k.left < Ahead(debts, k.bal, b) + k.bal[b]
  }

  lemma MisspentIsWrong(p: Plan, k: Desk, ids: seq<nat>, a: nat, b: nat) returns (i: nat, j: nat)
    requires GoodPlan(p) && Sized(k, |p.debts|) && Lists(ids, k.bal) && InPayingOrder(p.debts, k.bal, ids)
    requires Misspent(p.debts, k, a, b)
    ensures WrongFirst(Rates(p.debts), ids, k, i, j)
  {
    hide PrefixTotal, Ahead;
    ListedPositive(ids, k.bal);
    assert a in ids && b in ids;
    i :| 0 <= i < |ids| && ids[i] == a;
    j :| 0 <= j < |ids| && ids[j] == b;
    AheadIs(p.debts, k.bal, ids, i);
    AheadIs(p.debts, k.bal, ids, j);
    PrefixStep(ids, k.bal, j);
    if j < i {
      PrefixGrows(ids, k.bal, j + 1, i);
    }
  }

  lemma WrongIsMisspent(p: Plan, k: Desk, ids: seq<nat>, i: int, j: int)
    requires GoodPlan(p) && Sized(k, |p.debts|) && Lists(ids, k.bal) && InPayingOrder(p.debts, k.bal, ids)
    requires WrongFirst(Rates(p.debts), ids, k, i, j)
    ensures 0 <= i < j < |ids| && Misspent(p.debts, k, ids[i], ids[j])
  {
    hide PrefixTotal, Ahead;
    AheadIs(p.debts, k.bal, ids, i);
    AheadIs(p.debts, k.bal, ids, j);
    PrefixStep(ids, k.bal, j);
    ZerosOutOfOrder(p, k.bal, ids, i, j);
  }

  /**
   * One month of HIGHEST_RATE leaves the least accruing balance exactly when its money does not
   * reach a promotional zero while some accruing debt stays uncleared.
   */
  lemma PromotionalZerosThisMonth(p: Plan, bal: seq<int>)
    requires GoodPlan(p) && |bal| == |p.debts| && p.strategy.HighestRate?
    ensures BestThisMonth(p, bal) <==> forall a, b :: !Misspent(p.debts, Ready(p, bal), a, b)
  {
    hide Ready, MonthEnd, Dot, Greedy, Misspent, Ordered, Alive, InPayingOrder, WrongFirst;
    var k, w := Ready(p, bal), Rates(p.debts);
    var targets := MonthTargets(p, bal);
    if targets == [] || k.left == 0 {
      NothingToMisspend(p, k, targets);
      forall x: seq<int> | Feasible(x, k)
        ensures Minus(k.bal, x) == k.bal
      {
        NothingFeasible(x, k);
      }
    } else {
      var ids := Ordered(p, targets, k.bal);
      RateOrderIs(p, k.bal);
      BestAtExactly(w, ids, k);
      if a, b :| Misspent(p.debts, k, a, b) {
        InList(p.debts, k, a, b);
        var i, j := MisspentIsWrong(p, k, ids, a, b);
      }
      if i, j :| WrongFirst(w, ids, k, i, j) {
        WrongIsMisspent(p, k, ids, i, j);
      }
    }
  }

  lemma InList(debts: seq<Loan>, k: Desk, a: int, b: int)
    requires |debts| == |k.bal| && Misspent(debts, k, a, b)
    ensures 0 <= a < |k.bal| && 0 <= b < |k.bal|
  {
  }

  lemma {:induction false} AheadNonNegative(debts: seq<Loan>, bal: seq<int>, a: nat)
    requires |debts| == |bal| && a < |bal|
    ensures Ahead(debts, bal, a) >= 0
  {
    SumZeros(|bal|);
    SumMonotone(Zeros(|bal|), AheadMarks(debts, bal, a));
  }

  lemma NothingToMisspend(p: Plan, k: Desk, targets: seq<nat>)
    requires Sized(k, |p.debts|) && Lists(targets, k.bal) && (targets == [] || k.left == 0)
    ensures forall a, b :: !Misspent(p.debts, k, a, b)
  {
    forall a, b
      ensures !Misspent(p.debts, k, a, b)
    {
      if 0 <= a < |k.bal| {
        AheadNonNegative(p.debts, k.bal, a);
        assert targets == [] ==> a !in targets;
      }
    }
  }

  /** Two debts of 1000: a promotional zero with contract rate 24 percent, and one that accrues at 12. */
  function TwoDebts(): Plan {
    Plan([Loan(0, 100000, 0.24, 0, true, None), Loan(1, 100000, 0.12, 0, false, None)], 50000, HighestRate, [], None)
  }

  lemma TwoDebtsReady()
    ensures Ready(TwoDebts(), [100000, 100000]) == Desk([100000, 101000], [0, 0], 50000)
  {
    var p, bal := TwoDebts(), [100000, 100000];
    assert AliveFrom(bal, 2) == [] && AliveFrom(bal, 1) == [1] && Alive(bal) == [0, 1];
    assert Interest(p.debts[0], 100000) == 0;
    assert Interest(p.debts[1], 100000) == 1000;
    assert Added(bal, Accruals(p.debts, bal)) == [100000, 101000];
    assert Zeros(2) == [0, 0];
    var k := Desk([100000, 101000], [0, 0], 50000);
    assert Opening(p, bal) == k;
    assert Minimums(p.debts, [], k) == k && [0, 1][1..] == [1] && [1][1..] == [];
    assert Pay(k, 1, 0) == k && Pay(k, 0, 0) == k;
    assert Minimums(p.debts, [1], k) == k;
    assert Minimums(p.debts, [0, 1], k) == k;
  }

  lemma ZeroComesFirst()
    ensures Ordered(TwoDebts(), [0, 1], [100000, 101000]) == [0, 1]
  {
    var debts := TwoDebts().debts;
    var a, b := debts[0], debts[1].(balance := 101000);
    assert [0, 1][1..] == [1] && [1][1..] == [];
    assert Snapshots(debts, [1], [100000, 101000]) == [b];
    assert Snapshots(debts, [0, 1], [100000, 101000]) == [a, b];
    assert [a, b][1..] == [b] && [b][1..] == [];
    assert SortBy([b], RateLeq) == [b];
    assert SortBy([a, b], RateLeq) == [a, b];
  }

  lemma DistributedInOrder(p: Plan, targets: seq<nat>, k: Desk)
    requires (p.strategy.HighestRate? || p.strategy.Custom?) && Sized(k, |p.debts|) && InRange(targets, |p.debts|)
    ensures InRange(Ordered(p, targets, k.bal), |p.debts|)
    ensures Distributed(p, targets, k) == Greedy(Ordered(p, targets, k.bal), k)
  {
    OrderedHolds(p, targets, k.bal);
    hide Ordered, Greedy;
  }

  lemma GreedyOnZero()
    ensures Greedy([0, 1], Desk([100000, 101000], [0, 0], 50000)) == Desk([50000, 101000], [50000, 0], 0)
  {
    var k, paid := Desk([100000, 101000], [0, 0], 50000), Desk([50000, 101000], [50000, 0], 0);
    assert Pay(k, 0, 50000) == paid && Pay(paid, 1, 0) == paid;
    assert [0, 1][1..] == [1] && [1][1..] == [];
    assert Greedy([1], paid) == paid;
  }

  lemma BothOwed()
    ensures Alive([100000, 101000]) == [0, 1]
  {
    var owed := [100000, 101000];
    assert AliveFrom(owed, 2) == [];
    assert AliveFrom(owed, 1) == [1];
  }

  /** All 500 of the budget goes to the promotional zero. */
  lemma ZeroTakesAll()
    ensures MonthEnd(TwoDebts(), [100000, 100000]).bal == [50000, 101000]
  {
    hide Ordered, Ready, MonthEnd, Alive, AliveFrom, Greedy, Distributed, Fair, Lists, Added, Accruals;
    var p, bal := TwoDebts(), [100000, 100000];
    BothOwed();
    TwoDebtsReady();
    ZeroComesFirst();
    GreedyOnZero();
    var targets := MonthTargets(p, bal);
    DistributedInOrder(p, targets, Ready(p, bal));
  }

  lemma AccruingOnly(x: int, y: int)
    ensures Dot(Rates(TwoDebts().debts), [x, y]) == 0.12 * y as real
  {
    var w := Rates(TwoDebts().debts);
    assert w == [0.0, 0.12] && w[1..] == [0.12] && w[1..][1..] == [];
    assert [x, y][1..] == [y] && [y][1..] == [];
    assert Dot([0.12], [y]) == 0.12 * y as real;
  }

  /** On the other debt it would have been better spent. */
  lemma PromotionalZeroCosts()
    ensures Feasible([0, 50000], Ready(TwoDebts(), [100000, 100000]))
    ensures MonthEnd(TwoDebts(), [100000, 100000]).bal == [50000, 101000]
    ensures Dot(Rates(TwoDebts().debts), MonthEnd(TwoDebts(), [100000, 100000]).bal)
          > Dot(Rates(TwoDebts().debts), Minus(Ready(TwoDebts(), [100000, 100000]).bal, [0, 50000]))
    ensures !BestThisMonth(TwoDebts(), [100000, 100000])
  {
    TwoDebtsReady();
    ZeroTakesAll();
    AccruingOnly(50000, 101000);
    AccruingOnly(100000, 51000);
    hide Ready, MonthEnd, Dot, Rates;
    assert Minus([100000, 101000], [0, 50000]) == [100000, 51000];
  }
}
