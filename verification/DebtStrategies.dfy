/** Which debt each strategy pays first, what equal shares are, and what a reserve gives, read off the debts. */
module DebtStrategies {
  import opened Prelude
  import opened Money
  import opened Debt
  import opened DebtLaws
  import opened DebtBounds
  import opened DebtPromotions

  // ---- orders ---------------------------------------------------------

  /** Of two debts, the one that comes first when they compare like this, ties in list order. */
  predicate Before(less: bool, equal: bool, a: nat, b: nat) {
    less || (equal && a < b)
  }

  /** The larger required payment per cent of balance. */
  predicate FreesMore(debts: seq<Loan>, bal: seq<int>, a: nat, b: nat)
    requires |debts| == |bal| && a < |bal| && b < |bal|
  {
    debts[a].minimum as real / (if bal[a] == 0 then 1.0 else bal[a] as real)
      > debts[b].minimum as real / (if bal[b] == 0 then 1.0 else bal[b] as real)
  }

  /** The last day there is, for a debt whose promotion does not expire. */
  function Expires(d: Loan): int {
    if d.promoExpires.Some? then d.promoExpires.value else 3652059
  }

  /** The strategy pays debt a before debt b. */
  predicate PaysFirst(s: Strategy, debts: seq<Loan>, bal: seq<int>, a: nat, b: nat)
    requires |debts| == |bal| && a < |bal| && b < |bal|
  {
    match s
    case HighestRate =>
      debts[a].apr > debts[b].apr
      || (debts[a].apr == debts[b].apr && Before(bal[a] < bal[b], bal[a] == bal[b], a, b))
    case CashFlowRelief =>
      FreesMore(debts, bal, a, b)
      || (!FreesMore(debts, bal, b, a) && Before(bal[a] < bal[b], bal[a] == bal[b], a, b))
    case PromoDeadlineFirst =>
      Expires(debts[a]) < Expires(debts[b])
      || (Expires(debts[a]) == Expires(debts[b])
          && Before(debts[a].apr > debts[b].apr, debts[a].apr == debts[b].apr, a, b))
    case _ =>
      bal[a] < bal[b]
      || (bal[a] == bal[b] && Before(debts[a].apr > debts[b].apr, debts[a].apr == debts[b].apr, a, b))
  }

  ghost predicate Ascends(ids: seq<nat>) {
    forall i, j :: 0 <= i < j < |ids| ==> ids[i] < ids[j]
  }

  lemma OrderKeys(s: Strategy)
    ensures TotalOrder(OrderKey(s))
  {
  }

  lemma KeyDecides(s: Strategy, debts: seq<Loan>, bal: seq<int>, a: nat, b: nat)
    requires |debts| == |bal| && a < |bal| && b < |bal| && a != b
    requires var x, y := debts[a].(id := a, balance := bal[a]), debts[b].(id := b, balance := bal[b]);
      OrderKey(s)(x, y) && (OrderKey(s)(y, x) ==> a < b)
    ensures PaysFirst(s, debts, bal, a, b)
  {
  }

  /** The sorted debts of a strategy come in its order. */
  lemma SortedIdsAre(s: Strategy, debts: seq<Loan>, ids: seq<nat>, bal: seq<int>)
    requires |debts| == |bal| && InRange(ids, |debts|) && Ascends(ids)
    ensures var r := SortedIds(debts, ids, bal, s);
      && InRange(r, |debts|) && (forall i :: i in r <==> i in ids)
      && forall i, j :: 0 <= i < j < |r| ==> PaysFirst(s, debts, bal, r[i], r[j])
  {
    hide SortBy, OrderKey, PaysFirst;
    var ds, key := Snapshots(debts, ids, bal), OrderKey(s);
    var r := SortedIds(debts, ids, bal, s);
    OrderKeys(s);
    SortedIdsFall(debts, ids, bal, key);
    SortByCorrect(ds, key);
    forall i, j | 0 <= i < j < |r|
      ensures PaysFirst(s, debts, bal, r[i], r[j])
    {
      var g, h := SortByStable(ds, key, i, j);
      assert r[i] == ids[g] && r[j] == ids[h] && r[i] != r[j];
      KeyDecides(s, debts, bal, r[i], r[j]);
    }
  }

  /** Every order but a custom one, as the extra money is paid. */
  lemma OrderIs(p: Plan, targets: seq<nat>, bal: seq<int>)
    requires |p.debts| == |bal| && InRange(targets, |p.debts|) && Ascends(targets)
    requires !(p.strategy.Custom? && p.custom != [])
    ensures var ids := Ordered(p, targets, bal);
      && InRange(ids, |p.debts|) && (forall i :: i in ids <==> i in targets)
      && forall i, j :: 0 <= i < j < |ids| ==> PaysFirst(p.strategy, p.debts, bal, ids[i], ids[j])
  {
    SortedIdsAre(p.strategy, p.debts, targets, bal);
    hide SortedIds;
  }

  lemma {:induction false} KeepInOrder(ids: seq<nat>, among: seq<nat>, wanted: bool, i: nat, j: nat) returns (g: nat, h: nat)
    requires i < j < |Keep(ids, among, wanted)|
    ensures g < h < |ids| && ids[g] == Keep(ids, among, wanted)[i] && ids[h] == Keep(ids, among, wanted)[j]
  {
    var kept := (ids[0] in among) == wanted;
    var rest := Keep(ids[1..], among, wanted);
    if kept && i == 0 {
      h := KeptAt(ids[1..], among, wanted, j - 1);
      g, h := 0, h + 1;
    } else {
      g, h := KeepInOrder(ids[1..], among, wanted, if kept then i - 1 else i, if kept then j - 1 else j);
      g, h := g + 1, h + 1;
    }
  }

  lemma {:induction false} KeptAt(ids: seq<nat>, among: seq<nat>, wanted: bool, j: nat) returns (h: nat)
    requires j < |Keep(ids, among, wanted)|
    ensures h < |ids| && ids[h] == Keep(ids, among, wanted)[j]
  {
    var kept := (ids[0] in among) == wanted;
    if kept && j == 0 {
      h := 0;
    } else {
      h := KeptAt(ids[1..], among, wanted, if kept then j - 1 else j);
      h := h + 1;
    }
  }

  ghost predicate ListedBefore(ids: seq<nat>, a: nat, b: nat) {
    exists g, h :: 0 <= g < h < |ids| && ids[g] == a && ids[h] == b
  }

  lemma {:induction false} ListedPart(custom: seq<nat>, targets: seq<nat>)
    ensures var first := Keep(custom, targets, true);
      && (forall i :: i in first <==> i in custom && i in targets)
      && forall i, j :: 0 <= i < j < |first| ==> ListedBefore(custom, first[i], first[j])
  {
    hide Keep;
    var first := Keep(custom, targets, true);
    KeepIs(custom, targets, true);
    forall i, j | 0 <= i < j < |first|
      ensures ListedBefore(custom, first[i], first[j])
    {
      var g, h := KeepInOrder(custom, targets, true, i, j);
    }
  }

  lemma OthersPart(p: Plan, targets: seq<nat>, first: seq<nat>)
    requires InRange(targets, |p.debts|) && Ascends(targets)
    ensures var rest := Keep(SortedIds(p.debts, targets, Balances(p.debts), HighestRate), first, false);
      && (forall i :: i in rest <==> i in targets && i !in first)
      && InRange(rest, |p.debts|)
      && forall i, j :: 0 <= i < j < |rest| ==> PaysFirst(HighestRate, p.debts, Balances(p.debts), rest[i], rest[j])
  {
    hide PaysFirst, Keep, SortedIds;
    var byRate := SortedIds(p.debts, targets, Balances(p.debts), HighestRate);
    var rest := Keep(byRate, first, false);
    KeepIs(byRate, first, false);
    SortedIdsAre(HighestRate, p.debts, targets, Balances(p.debts));
    RangeIn(rest, |p.debts|);
    assert InRange(rest, |p.debts|) by {
      forall i | i in rest
        ensures i < |p.debts|
      {
        assert i in targets;
      }
    }
    forall i, j | 0 <= i < j < |rest|
      ensures PaysFirst(HighestRate, p.debts, Balances(p.debts), rest[i], rest[j])
    {
      var g, h := KeepInOrder(byRate, first, false, i, j);
    }
  }

  /**
   * A custom order: first the targets the user listed, in that order, then the others as HIGHEST_RATE
   * orders them by the balances the plan started from.
   */
  lemma CustomOrderIs(p: Plan, targets: seq<nat>, bal: seq<int>) returns (first: seq<nat>, rest: seq<nat>)
    requires |p.debts| == |bal| && InRange(targets, |p.debts|) && Ascends(targets) && p.strategy.Custom? && p.custom != []
    ensures Ordered(p, targets, bal) == first + rest && InRange(rest, |p.debts|)
    ensures forall i :: i in first <==> i in targets && i in p.custom
    ensures forall i :: i in rest <==> i in targets && i !in p.custom
    ensures forall i, j :: 0 <= i < j < |first| ==> ListedBefore(p.custom, first[i], first[j])
    ensures forall i, j :: 0 <= i < j < |rest| ==> PaysFirst(HighestRate, p.debts, Balances(p.debts), rest[i], rest[j])
  {
    hide PaysFirst, Keep, SortedIds, ListedBefore;
    first := Keep(p.custom, targets, true);
    rest := Keep(SortedIds(p.debts, targets, Balances(p.debts), HighestRate), first, false);
    ListedPart(p.custom, targets);
    OthersPart(p, targets, first);
  }

  /** What equal shares leave over goes to the smallest of the remaining balances first. */
  lemma SpillOrderIs(p: Plan, targets: seq<nat>, bal: seq<int>)
    requires |p.debts| == |bal| && InRange(targets, |p.debts|) && Ascends(targets)
    ensures var ids := SpillOrder(p, targets, bal);
      && InRange(ids, |p.debts|) && (forall i :: i in ids <==> i in targets)
      && forall i, j :: 0 <= i < j < |ids| ==>
           bal[ids[i]] < bal[ids[j]] || (bal[ids[i]] == bal[ids[j]] && ids[i] < ids[j])
  {
    hide SortBy;
    var key := (x: Loan, y: Loan) => x.balance <= y.balance;
    var ds, r := Snapshots(p.debts, targets, bal), SpillOrder(p, targets, bal);
    assert TotalOrder(key);
    SortedIdsFall(p.debts, targets, bal, key);
    SortByCorrect(ds, key);
    forall i, j | 0 <= i < j < |r|
      ensures bal[r[i]] < bal[r[j]] || (bal[r[i]] == bal[r[j]] && r[i] < r[j])
    {
      var g, h := SortByStable(ds, key, i, j);
      assert r[i] == targets[g] && r[j] == targets[h] && r[i] != r[j];
    }
  }

  // ---- interest and required payments ---------------------------------

  /** A month's interest: nothing on a promotional zero, else a twelfth of the contract rate, to the nearest cent. */
  lemma InterestIs(d: Loan, balance: int)
    requires balance > 0 && d.apr >= 0.0
    ensures if d.promoZero then Interest(d, balance) == 0
      else Interest(d, balance) as real - 0.5 <= balance as real * (d.apr / 12.0) < Interest(d, balance) as real + 0.5
  {
    if d.promoZero {
      assert balance as real * (0.0 / 12.0) == 0.0;
    } else {
      NonNegativeProduct(balance as real, d.apr / 12.0);
    }
  }

  lemma NonNegativeProduct(x: real, y: real)
    requires x >= 0.0 && y >= 0.0
    ensures x * y >= 0.0
  {
  }

  /** What the first n debts of a list were paid between two desks. */
  function PaidFirst(k: Desk, r: Desk, ids: seq<nat>, n: nat): int
    requires n <= |ids| && InRange(ids, |k.bal|) && InRange(ids, |r.bal|)
  {
    if n == 0 then 0 else PaidFirst(k, r, ids, n - 1) + k.bal[ids[n - 1]] - r.bal[ids[n - 1]]
  }

  lemma {:induction false} PaidFirstShift(k: Desk, next: Desk, r: Desk, ids: seq<nat>, n: nat)
    requires ids != [] && n <= |ids[1..]| && InRange(ids, |k.bal|) && InRange(ids, |r.bal|) && |next.bal| == |k.bal| && Distinct(ids)
    requires forall i :: 0 <= i < |k.bal| && i != ids[0] ==> next.bal[i] == k.bal[i]
    ensures PaidFirst(k, r, ids, n + 1) == k.bal[ids[0]] - r.bal[ids[0]] + PaidFirst(next, r, ids[1..], n)
  {
    if n > 0 {
      PaidFirstShift(k, next, r, ids, n - 1);
      assert ids[1..][n - 1] == ids[n] != ids[0];
    } else {
      assert PaidFirst(k, r, ids, 0) == 0;
    }
  }

  /** A debt is paid its minimum, no more than it owes, and no more than the debts before it leave of the budget. */
  predicate PaidMinimum(debts: seq<Loan>, ids: seq<nat>, k: Desk, r: Desk, j: nat)
    requires j < |ids| && Sized(k, |debts|) && Sized(r, |debts|) && InRange(ids, |debts|)
  {
    var i := ids[j];
    var left, give := k.left - PaidFirst(k, r, ids, j), k.bal[i] - r.bal[i];
    && r.paid[i] == k.paid[i] + give
    && give <= debts[i].minimum && give <= k.bal[i] && give <= left
    && (give == debts[i].minimum || give == k.bal[i] || give == left)
  }

  lemma {:induction false} MinimumsKeepOthers(debts: seq<Loan>, ids: seq<nat>, k: Desk)
    requires Sized(k, |debts|) && InRange(ids, |debts|)
    ensures Untouched(k, Minimums(debts, ids, k), ids)
    decreases |ids|
  {
    if ids != [] {
      var due := Min(Min(debts[ids[0]].minimum, k.bal[ids[0]]), k.left);
      MinimumsKeepOthers(debts, ids[1..], Pay(k, ids[0], due));
    }
  }

  /** Each listed debt gets its required payment in turn, and no other debt gets any. */
  lemma {:induction false} RequiredPayments(debts: seq<Loan>, ids: seq<nat>, k: Desk, j: nat)
    requires Sized(k, |debts|) && InRange(ids, |debts|) && Distinct(ids) && j < |ids|
    ensures PaidMinimum(debts, ids, k, Minimums(debts, ids, k), j)
    ensures Untouched(k, Minimums(debts, ids, k), ids)
    decreases |ids|
  {
    MinimumsKeepOthers(debts, ids, k);
    var due := Min(Min(debts[ids[0]].minimum, k.bal[ids[0]]), k.left);
    var next, r := Pay(k, ids[0], due), Minimums(debts, ids, k);
    MinimumsKeepOthers(debts, ids[1..], next);
    hide Minimums;
    assert ids[0] !in ids[1..];
    if j > 0 {
      RequiredPayments(debts, ids[1..], next, j - 1);
      PaidFirstShift(k, next, r, ids, j - 1);
      assert ids[1..][j - 1] == ids[j] != ids[0];
    }
  }

  /** PRESERVE_LIQUIDITY pays the required payments and the reserve, and nothing else. */
  lemma LiquidityPaysNoExtra(p: Plan, bal: seq<int>)
    requires |bal| == |p.debts| && p.strategy.PreserveLiquidity?
    ensures MonthEnd(p, bal) == Ready(p, bal)
  {
    hide AfterMinimums, Targets, Reserved;
  }

  /** A run stops with the last debt or at its horizon, which is 720 months when none, or zero, is given. */
  lemma {:induction false} RunStops(p: Plan, s: Sim, horizon: Option<int>)
    requires |s.bal| == |p.debts|
    ensures var r := Simulate(p, s, Limit(horizon));
      var most := if horizon.Some? && horizon.value != 0 then horizon.value else 720;
      && (forall i :: 0 <= i < |r.bal| && r.bal[i] > 0 ==> r.month >= most)
      && s.month <= r.month && (r.month <= most || r == s)
    decreases Limit(horizon) - s.month
  {
    AliveIs(s.bal);
    hide NextMonth, Alive;
    if Alive(s.bal) != [] && s.month < Limit(horizon) {
      RunStops(p, NextMonth(p, s), horizon);
    } else {
      forall i | 0 <= i < |s.bal| && s.bal[i] > 0
        ensures s.month >= Limit(horizon)
      {
        assert i in Alive(s.bal);
      }
    }
  }

  // ---- a reserve ------------------------------------------------------

  /** The reserved debt, when it still owes, gets the reserved amount, no more than it owes nor than is left; no other debt does. */
  lemma ReserveGives(p: Plan, alive: seq<nat>, k: Desk)
    requires Sized(k, |p.debts|) && InRange(alive, |p.debts|)
    ensures var r := Reserved(p, alive, k);
      if p.reserve.Some? && p.reserve.value.0 in alive && k.bal[p.reserve.value.0] > 0 then
        var (i, amount) := p.reserve.value;
        var give := if amount <= k.bal[i] && amount <= k.left then amount else if k.bal[i] <= k.left then k.bal[i] else k.left;
        && r.bal[i] == k.bal[i] - give && r.paid[i] == k.paid[i] + give && r.left == k.left - give
        && (forall j :: 0 <= j < |k.bal| && j != i ==> r.bal[j] == k.bal[j] && r.paid[j] == k.paid[j])
      else r == k
  {
    TargetsAre(alive, k.bal);
  }

  // ---- the month, debt by debt ----------------------------------------

  predicate Ordering(p: Plan) {
    !p.strategy.EqualShares? && !p.strategy.PreserveLiquidity? && !(p.strategy.Custom? && p.custom != [])
  }

  lemma OneFirst(s: Strategy, debts: seq<Loan>, bal: seq<int>, a: nat, b: nat)
    requires |debts| == |bal| && a < |bal| && b < |bal| && PaysFirst(s, debts, bal, a, b)
    ensures !PaysFirst(s, debts, bal, b, a)
  {
  }

  lemma TargetsAscend(bal: seq<int>)
    ensures Ascends(Alive(bal))
  {
    AliveAscends(bal, 0);
  }

  /** Under every order, a debt gets extra money only when every debt the strategy pays before it is cleared. */
  lemma ServedInOrder(p: Plan, bal: seq<int>, a: nat, b: nat)
    requires GoodPlan(p) && |bal| == |p.debts| && Ordering(p) && a < |bal| && b < |bal|
    requires var k := Ready(p, bal); k.bal[a] > 0 && k.bal[b] > 0 && PaysFirst(p.strategy, p.debts, k.bal, a, b)
    ensures MonthEnd(p, bal).bal[b] < Ready(p, bal).bal[b] ==> MonthEnd(p, bal).bal[a] == 0
  {
    hide MonthEnd, Ready, Greedy, PaysFirst, Ordered, AliveFrom;
    var k := Ready(p, bal);
    var targets := MonthTargets(p, bal);
    if targets != [] && k.left > 0 {
      TargetsAscend(k.bal);
      OrderIs(p, targets, k.bal);
      OrderedDistinct(p, targets, k.bal);
      GreedyServes(p, k, Ordered(p, targets, k.bal), a, b);
    }
  }

  lemma OrderedDistinct(p: Plan, targets: seq<nat>, bal: seq<int>)
    requires |p.debts| == |bal| && InRange(targets, |p.debts|) && Ordering(p) && Distinct(targets)
    ensures Distinct(Ordered(p, targets, bal))
  {
    hide SortBy;
    OrderKeys(p.strategy);
    SortedIdsFall(p.debts, targets, bal, OrderKey(p.strategy));
  }

  lemma GreedyServes(p: Plan, k: Desk, ids: seq<nat>, a: nat, b: nat)
    requires Sized(k, |p.debts|) && k.left >= 0 && InRange(ids, |k.bal|) && Distinct(ids)
    requires a < |k.bal| && b < |k.bal| && k.bal[a] > 0 && k.bal[b] > 0
    requires forall i :: 0 <= i < |k.bal| ==> (i in ids <==> k.bal[i] > 0)
    requires forall i, j :: 0 <= i < j < |ids| ==> PaysFirst(p.strategy, p.debts, k.bal, ids[i], ids[j])
    requires PaysFirst(p.strategy, p.debts, k.bal, a, b)
    ensures Greedy(ids, k).bal[b] < k.bal[b] ==> Greedy(ids, k).bal[a] == 0
  {
    hide Greedy, PaysFirst;
    OneFirst(p.strategy, p.debts, k.bal, a, b);
    forall j | 0 <= j < |ids|
      ensures k.bal[ids[j]] >= 0
    {
      assert ids[j] in ids;
    }
    var c := GreedyShape(ids, k);
    var i :| 0 <= i < |ids| && ids[i] == a;
    var j :| 0 <= j < |ids| && ids[j] == b;
    assert i < j;
  }

  // ---- equal shares ---------------------------------------------------

  /** The even part of the money, and one cent more for each of the earliest. */
  function EvenPart(left: int, n: nat, i: nat): int
    requires n > 0
  {
    left / n + if i < left % n then 1 else 0
  }

  /** Whole shares that fall by at most one and add up are the even parts, the extra cents first. */
  lemma {:induction false} EvenSum(xs: seq<int>, q: int, m: nat)
    requires m <= |xs| && forall i :: 0 <= i < |xs| ==> xs[i] == q + if i < m then 1 else 0
    ensures Sum(xs) == q * |xs| + m
  {
    if xs != [] {
      EvenSum(xs[1..], q, if m > 0 then m - 1 else 0);
      assert q * |xs| == q + q * |xs[1..]|;
    }
  }

  /** Where the shares drop from one cent more. */
  lemma {:induction false} DropAt(xs: seq<int>, q: int) returns (m: nat)
    requires forall i :: 0 <= i < |xs| ==> xs[i] == q || xs[i] == q + 1
    requires forall i, j :: 0 <= i < j < |xs| ==> xs[i] >= xs[j]
    ensures m <= |xs| && forall i :: 0 <= i < |xs| ==> xs[i] == q + if i < m then 1 else 0
  {
    if xs == [] || xs[0] == q {
      m := 0;
    } else {
      m := DropAt(xs[1..], q);
      m := m + 1;
      assert forall i :: 0 < i < |xs| ==> xs[i] == xs[1..][i - 1];
    }
  }

  lemma ShareNear(left: nat, n: nat, i: nat)
    requires i < n
    ensures var x := Split(left as real, Ones(n))[i]; x == left / n || x == left / n + 1
    ensures Sum(Split(left as real, Ones(n))) == left
  {
    hide Split;
    SumOnes(n);
    SplitSum(left as real, Ones(n));
    SplitNearExact(left as real, Ones(n), i);
    var x := Split(left as real, Ones(n))[i];
    assert x as real - 1.0 < left as real / n as real < x as real + 1.0;
    FloorOf(left, n, x);
  }

  lemma FloorOf(left: nat, n: nat, x: int)
    requires n > 0 && x as real - 1.0 < left as real / n as real < x as real + 1.0
    ensures x == left / n || x == left / n + 1
  {
    var q, r := left / n, left % n;
    var y := left as real / n as real;
    CastProduct(q, n);
    assert left == q * n + r;
    assert y * n as real == left as real;
    DivideBound(y, q as real, n as real, r as real, 0.0);
    DivideBound(y, q as real, n as real, r as real, 1.0);
  }

  /** Equal shares are even to the cent, the extra cents on the earliest targets. */
  lemma EqualShareIs(targets: seq<nat>, left: nat)
    requires targets != []
    ensures forall i :: 0 <= i < |targets| ==> EqualSplit(targets, left)[i] == EvenPart(left, |targets|, i)
  {
    hide Split, Sum, EvenPart;
    var n := |targets|;
    var xs := Split(left as real, Ones(n));
    SumOnes(n);
    forall i, j | 0 <= i < j < n
      ensures xs[i] >= xs[j]
    {
      SplitMonotone(left as real, Ones(n), i, j);
    }
    forall i | 0 <= i < n
      ensures xs[i] == left / n || xs[i] == left / n + 1
    {
      ShareNear(left, n, i);
    }
    ShareNear(left, n, 0);
    EvenShares(xs, left);
  }

  lemma EvenShares(xs: seq<int>, left: nat)
    requires xs != [] && Sum(xs) == left
    requires forall i :: 0 <= i < |xs| ==> xs[i] == left / |xs| || xs[i] == left / |xs| + 1
    requires forall i, j :: 0 <= i < j < |xs| ==> xs[i] >= xs[j]
    ensures forall i :: 0 <= i < |xs| ==> xs[i] == EvenPart(left, |xs|, i)
  {
    hide Sum;
    var q := left / |xs|;
    var m := DropAt(xs, q);
    EvenSum(xs, q, m);
    assert left == q * |xs| + left % |xs|;
  }

  /** Shares that no balance falls short of are paid in full, and nothing spills. */
  lemma {:induction false} SharedInFull(ids: seq<nat>, shares: seq<int>, k: Desk)
    requires Sized(k, |k.bal|) && InRange(ids, |k.bal|) && Distinct(ids) && |shares| == |ids|
    requires forall j :: 0 <= j < |ids| ==> shares[j] <= k.bal[ids[j]]
    ensures var r := Shared(ids, shares, k);
      && r.left == k.left
      && (forall j :: 0 <= j < |ids| ==> r.bal[ids[j]] == k.bal[ids[j]] - shares[j])
    decreases |ids|
  {
    if ids != [] {
      var i, next := ids[0], Pay(k, ids[0], shares[0]).(left := k.left);
      assert Shared(ids, shares, k) == Shared(ids[1..], shares[1..], next);
      hide Shared;
      forall j | 0 < j < |ids|
        ensures ids[1..][j - 1] == ids[j] && ids[j] != i && shares[1..][j - 1] == shares[j]
      {
      }
      SharedTouch(ids[1..], shares[1..], next);
      SharedInFull(ids[1..], shares[1..], next);
    }
  }

  /** Every target owes at least its share. */
  predicate OweTheirShare(targets: seq<nat>, k: Desk) {
    InRange(targets, |k.bal|) && forall i :: 0 <= i < |targets| ==> k.bal[targets[i]] >= EvenPart(k.left, |targets|, i)
  }

  /** Every target pays its share, the same for all to the cent. */
  predicate PaidEvenly(targets: seq<nat>, k: Desk, r: Desk) {
    && InRange(targets, |k.bal|) && |r.bal| == |k.bal|
    && forall i :: 0 <= i < |targets| ==> k.bal[targets[i]] - r.bal[targets[i]] == EvenPart(k.left, |targets|, i)
  }

  lemma SharesPaid(p: Plan, targets: seq<nat>, k: Desk)
    requires p.strategy.EqualShares? && Sized(k, |p.debts|) && Lists(targets, k.bal) && k.left >= 0 && targets != []
    requires OweTheirShare(targets, k)
    ensures PaidEvenly(targets, k, Distributed(p, targets, k))
  {
    hide Shared, Greedy, EqualSplit, SpillOrder, Ordered;
    EqualShareIs(targets, k.left);
    var shares, k0 := EqualSplit(targets, k.left), k.(left := 0);
    SharedInFull(targets, shares, k0);
    NothingSpills(p, targets, shares, k0);
  }

  lemma NothingToShare(targets: seq<nat>, k: Desk)
    requires InRange(targets, |k.bal|) && k.left == 0
    ensures PaidEvenly(targets, k, k)
  {
  }

  /** EQUAL_SHARES pays every target the same to the cent, when each owes at least its share. */
  lemma EqualSharesMonth(p: Plan, bal: seq<int>)
    requires GoodPlan(p) && |bal| == |p.debts| && p.strategy.EqualShares?
    ensures var k := Ready(p, bal); var targets := Alive(k.bal);
      OweTheirShare(targets, k) ==> PaidEvenly(targets, k, MonthEnd(p, bal))
  {
    hide MonthEnd, Ready, Distributed, AliveFrom, OweTheirShare, PaidEvenly;
    var k := Ready(p, bal);
    var targets := MonthTargets(p, bal);
    if targets == [] {
      NoTargets(k);
    } else if k.left == 0 {
      NothingToShare(targets, k);
    } else if OweTheirShare(targets, k) {
      SharesPaid(p, targets, k);
    }
  }

  lemma NoTargets(k: Desk)
    ensures PaidEvenly([], k, k)
  {
  }

  lemma NothingSpills(p: Plan, targets: seq<nat>, shares: seq<int>, k: Desk)
    requires Sized(k, |p.debts|) && Lists(targets, k.bal) && |shares| == |targets| && k.left == 0
    requires forall j :: 0 <= j < |targets| ==> 0 <= shares[j] <= k.bal[targets[j]]
    ensures var shared := Shared(targets, shares, k);
      InRange(SpillOrder(p, targets, shared.bal), |p.debts|) && Greedy(SpillOrder(p, targets, shared.bal), shared) == shared
  {
    hide Shared, SpillOrder;
    var shared := Shared(targets, shares, k);
    SharedInFull(targets, shares, k);
    OrderedHolds(p, targets, shared.bal);
    var spill := SpillOrder(p, targets, shared.bal);
    forall j | 0 <= j < |spill|
      ensures shared.bal[spill[j]] >= 0
    {
      assert spill[j] in targets;
    }
    GreedyStops(spill, shared);
  }
}
