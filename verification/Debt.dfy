/** The multi-debt repayment simulator, in whole cents. A debt is known by its position in the list. */
module Debt {
  import opened Prelude
  import opened Money

  datatype Strategy =
    | HighestRate | SmallestBalance | EqualShares | CashFlowRelief
    | PreserveLiquidity | PromoDeadlineFirst | Custom

  datatype Loan = Loan(
    id: nat, balance: int, apr: real, minimum: int, promoZero: bool, promoExpires: Option<int>)
  {
    /** A promotional zero accrues nothing, whatever its contract rate. */
    function Rate(): real {
      if promoZero then 0.0 else apr
    }
  }

  datatype Plan = Plan(
    debts: seq<Loan>, budget: int, strategy: Strategy, custom: seq<nat>, reserve: Option<(nat, int)>)

  const MAX_MONTHS := 720
  const DATE_MAX := 3652059

  // ---- the order of the extra money -----------------------------------

  function MinimumShare(d: Loan): real {
    d.minimum as real / (if d.balance == 0 then 1.0 else d.balance as real)
  }

  function Deadline(d: Loan): int {
    if d.promoExpires.Some? then d.promoExpires.value else DATE_MAX
  }

  predicate RateLeq(x: Loan, y: Loan) {
    x.apr > y.apr || (x.apr == y.apr && x.balance <= y.balance)
  }

  predicate BalanceLeq(x: Loan, y: Loan) {
    x.balance < y.balance || (x.balance == y.balance && x.apr >= y.apr)
  }

  predicate ReliefLeq(x: Loan, y: Loan) {
    MinimumShare(x) > MinimumShare(y) || (MinimumShare(x) == MinimumShare(y) && x.balance <= y.balance)
  }

  predicate PromoLeq(x: Loan, y: Loan) {
    Deadline(x) < Deadline(y) || (Deadline(x) == Deadline(y) && x.apr >= y.apr)
  }

  function OrderKey(s: Strategy): (Loan, Loan) -> bool {
    match s
    case HighestRate => RateLeq
    case CashFlowRelief => ReliefLeq
    case PromoDeadlineFirst => PromoLeq
    case _ => BalanceLeq
  }

  predicate InRange(ids: seq<nat>, n: nat) {
    forall k :: 0 <= k < |ids| ==> ids[k] < n
  }

  lemma RangeIn(ids: seq<nat>, n: nat)
    ensures (forall i :: i in ids ==> i < n) ==> InRange(ids, n)
  {
    if forall i :: i in ids ==> i < n {
      forall k | 0 <= k < |ids|
        ensures ids[k] < n
      {
        assert ids[k] in ids;
      }
    }
  }

  /** The debts with these ids, at the given balances. */
  function Snapshots(debts: seq<Loan>, ids: seq<nat>, bal: seq<int>): (r: seq<Loan>)
    requires |debts| == |bal| && InRange(ids, |debts|)
    ensures |r| == |ids|
    ensures forall k :: 0 <= k < |ids| ==> r[k] == debts[ids[k]].(id := ids[k], balance := bal[ids[k]])
  {
    seq(|ids|, k requires 0 <= k < |ids| => debts[ids[k]].(id := ids[k], balance := bal[ids[k]]))
  }

  function Ids(ds: seq<Loan>): (r: seq<nat>)
    ensures |r| == |ds| && forall k :: 0 <= k < |ds| ==> r[k] == ds[k].id
  {
    seq(|ds|, k requires 0 <= k < |ds| => ds[k].id)
  }

  function SortedIds(debts: seq<Loan>, ids: seq<nat>, bal: seq<int>, s: Strategy): seq<nat>
    requires |debts| == |bal| && InRange(ids, |debts|)
  {
    Ids(SortBy(Snapshots(debts, ids, bal), OrderKey(s)))
  }

  function Keep(ids: seq<nat>, among: seq<nat>, wanted: bool): seq<nat> {
    if ids == [] then []
    else (if (ids[0] in among) == wanted then [ids[0]] else []) + Keep(ids[1..], among, wanted)
  }

  function Balances(debts: seq<Loan>): seq<int> {
    seq(|debts|, i requires 0 <= i < |debts| => debts[i].balance)
  }

  /** The order in which the extra money visits the targets. */
  function Ordered(p: Plan, targets: seq<nat>, bal: seq<int>): seq<nat>
    requires |p.debts| == |bal| && InRange(targets, |p.debts|)
  {
    if p.strategy.Custom? && p.custom != [] then
      var first := Keep(p.custom, targets, true);
      first + Keep(SortedIds(p.debts, targets, Balances(p.debts), HighestRate), first, false)
    else SortedIds(p.debts, targets, bal, p.strategy)
  }

  // ---- one month, as values -------------------------------------------

  /** The indexes of the debts that still have a balance, from i on. */
  function AliveFrom(bal: seq<int>, i: nat): (r: seq<nat>)
    requires i <= |bal|
    ensures forall k :: 0 <= k < |r| ==> i <= r[k] < |bal|
    decreases |bal| - i
  {
    if i == |bal| then [] else (if bal[i] > 0 then [i] else []) + AliveFrom(bal, i + 1)
  }

  function Alive(bal: seq<int>): (r: seq<nat>)
    ensures InRange(r, |bal|)
  {
    AliveFrom(bal, 0)
  }

  function Interest(d: Loan, balance: int): int {
    RoundHalfUp(balance as real * (d.Rate() / 12.0))
  }

  function Accruals(debts: seq<Loan>, bal: seq<int>): (r: seq<int>)
    requires |debts| == |bal|
    ensures |r| == |bal|
  {
    seq(|bal|, i requires 0 <= i < |bal| => if bal[i] > 0 then Interest(debts[i], bal[i]) else 0)
  }

  function Added(xs: seq<int>, ys: seq<int>): (r: seq<int>)
    requires |xs| == |ys|
    ensures |r| == |xs|
  {
    seq(|xs|, i requires 0 <= i < |xs| => xs[i] + ys[i])
  }

  function Zeros(n: nat): (r: seq<int>)
    ensures |r| == n && forall i :: 0 <= i < n ==> r[i] == 0
  {
    seq(n, i => 0)
  }

  /** Balances, this month's payments and the budget still unspent. */
  datatype Desk = Desk(bal: seq<int>, paid: seq<int>, left: int)

  predicate Sized(k: Desk, n: nat) {
    |k.bal| == |k.paid| == n
  }

  /** Debts outside `ids` keep their balance and are paid nothing more. */
  ghost predicate Untouched(k: Desk, r: Desk, ids: seq<nat>)
    requires Sized(k, |k.bal|) && Sized(r, |k.bal|)
  {
    forall i :: 0 <= i < |k.bal| && i !in ids ==> r.bal[i] == k.bal[i] && r.paid[i] == k.paid[i]
  }

  function Pay(k: Desk, i: nat, give: int): (r: Desk)
    requires Sized(k, |k.bal|) && i < |k.bal|
    ensures Sized(r, |k.bal|)
  {
    Desk(k.bal[i := k.bal[i] - give], k.paid[i := k.paid[i] + give], k.left - give)
  }

  function Minimums(debts: seq<Loan>, ids: seq<nat>, k: Desk): (r: Desk)
    requires Sized(k, |debts|) && InRange(ids, |debts|)
    ensures Sized(r, |debts|)
    decreases |ids|
  {
    if ids == [] then k
    else
      var due := Min(Min(debts[ids[0]].minimum, k.bal[ids[0]]), k.left);
      Minimums(debts, ids[1..], Pay(k, ids[0], due))
  }

  function Greedy(ids: seq<nat>, k: Desk): (r: Desk)
    requires Sized(k, |k.bal|) && InRange(ids, |k.bal|)
    ensures Sized(r, |k.bal|)
    decreases |ids|
  {
    if ids == [] then k
    else Greedy(ids[1..], Pay(k, ids[0], Min(k.left, k.bal[ids[0]])))
  }

  /** Equal shares: what a share exceeds its balance by is collected in `left`. */
  function Shared(ids: seq<nat>, shares: seq<int>, k: Desk): (r: Desk)
    requires Sized(k, |k.bal|) && InRange(ids, |k.bal|) && |shares| == |ids|
    ensures Sized(r, |k.bal|)
    decreases |ids|
  {
    if ids == [] then k
    else
      var give := Min(shares[0], k.bal[ids[0]]);
      Shared(ids[1..], shares[1..], Pay(k, ids[0], give).(left := k.left + (shares[0] - give)))
  }

  function Targets(ids: seq<nat>, bal: seq<int>): (r: seq<nat>)
    requires InRange(ids, |bal|)
    ensures InRange(r, |bal|)
  {
    if ids == [] then []
    else (if bal[ids[0]] > 0 then [ids[0]] else []) + Targets(ids[1..], bal)
  }

  lemma {:induction false} TargetsAre(ids: seq<nat>, bal: seq<int>)
    requires InRange(ids, |bal|)
    ensures forall i :: i in Targets(ids, bal) <==> i in ids && i < |bal| && bal[i] > 0
    ensures Distinct(ids) ==> Distinct(Targets(ids, bal))
  {
    if ids != [] {
      assert ids == [ids[0]] + ids[1..];
      TargetsAre(ids[1..], bal);
      assert Distinct(ids) ==> Distinct(ids[1..]) && ids[0] !in ids[1..];
    }
  }

  lemma {:induction false} KeepIs(ids: seq<nat>, among: seq<nat>, wanted: bool)
    ensures forall i :: i in Keep(ids, among, wanted) <==> i in ids && ((i in among) == wanted)
  {
    if ids != [] {
      assert ids == [ids[0]] + ids[1..];
      KeepIs(ids[1..], among, wanted);
    }
  }

  lemma {:induction false} AliveFromIs(bal: seq<int>, i: nat)
    requires i <= |bal|
    ensures forall j: nat :: j in AliveFrom(bal, i) <==> i <= j < |bal| && bal[j] > 0
    ensures Distinct(AliveFrom(bal, i))
    decreases |bal| - i
  {
    if i < |bal| {
      AliveFromIs(bal, i + 1);
    }
  }

  lemma AliveIs(bal: seq<int>)
    ensures forall j: nat :: j in Alive(bal) <==> j < |bal| && bal[j] > 0
    ensures Distinct(Alive(bal))
  {
    AliveFromIs(bal, 0);
  }

  function Ones(n: nat): (r: seq<real>)
    ensures |r| == n && forall i :: 0 <= i < n ==> r[i] == 1.0
  {
    seq(n, i => 1.0)
  }

  /** The spill of equal shares visits the targets by what is left on them. */
  function SpillOrder(p: Plan, targets: seq<nat>, bal: seq<int>): seq<nat>
    requires |p.debts| == |bal| && InRange(targets, |p.debts|)
  {
    Ids(SortBy(Snapshots(p.debts, targets, bal), (x: Loan, y: Loan) => x.balance <= y.balance))
  }

  lemma SortedIdsHold(debts: seq<Loan>, ids: seq<nat>, bal: seq<int>, leq: (Loan, Loan) -> bool)
    requires |debts| == |bal| && InRange(ids, |debts|)
    ensures var r := Ids(SortBy(Snapshots(debts, ids, bal), leq));
      && |r| == |ids| && InRange(r, |debts|)
      && (forall i :: i in r <==> i in ids)
  {
    var ds := Snapshots(debts, ids, bal);
    SortByCorrect(ds, leq);
    var r := Ids(SortBy(ds, leq));
    forall i
      ensures i in r <==> i in ids
    {
      if i in r {
        var k :| 0 <= k < |r| && r[k] == i;
        assert SortBy(ds, leq)[k] in ds;
      }
      if i in ids {
        var k :| 0 <= k < |ids| && ids[k] == i;
        assert ds[k] in SortBy(ds, leq);
        var j :| 0 <= j < |ds| && SortBy(ds, leq)[j] == ds[k];
        assert r[j] == i;
      }
    }
    RangeIn(r, |debts|);
  }

  lemma OrderedHolds(p: Plan, targets: seq<nat>, bal: seq<int>)
    requires |p.debts| == |bal| && InRange(targets, |p.debts|)
    ensures InRange(Ordered(p, targets, bal), |bal|)
    ensures forall i :: i in Ordered(p, targets, bal) <==> i in targets
    ensures InRange(SpillOrder(p, targets, bal), |bal|)
    ensures forall i :: i in SpillOrder(p, targets, bal) <==> i in targets
  {
    SortedIdsHold(p.debts, targets, Balances(p.debts), OrderKey(HighestRate));
    SortedIdsHold(p.debts, targets, bal, OrderKey(p.strategy));
    SortedIdsHold(p.debts, targets, bal, (x: Loan, y: Loan) => x.balance <= y.balance);
    var first := Keep(p.custom, targets, true);
    KeepIs(p.custom, targets, true);
    KeepIs(SortedIds(p.debts, targets, Balances(p.debts), HighestRate), first, false);
    RangeIn(Ordered(p, targets, bal), |bal|);
    RangeIn(SpillOrder(p, targets, bal), |bal|);
  }

  function EqualSplit(targets: seq<nat>, left: int): (r: seq<int>)
    ensures |r| == |targets|
  {
    Split(left as real, Ones(|targets|))
  }

  /** The hybrid of section 7: part of the extra money is reserved for one named debt. */
  function Reserved(p: Plan, alive: seq<nat>, k: Desk): (r: Desk)
    requires Sized(k, |p.debts|) && InRange(alive, |p.debts|)
    ensures Sized(r, |p.debts|)
  {
    if p.reserve.Some? && p.reserve.value.0 in Targets(alive, k.bal) then
      var (i, amount) := p.reserve.value;
      TargetsAre(alive, k.bal);
      Pay(k, i, Min(Min(amount, k.bal[i]), k.left))
    else k
  }

  /** The strategy's own distribution of the extra money over non-empty targets. */
  function Distributed(p: Plan, targets: seq<nat>, k: Desk): (r: Desk)
    requires Sized(k, |p.debts|) && InRange(targets, |p.debts|)
    ensures Sized(r, |p.debts|)
  {
    OrderedHolds(p, targets, k.bal);
    if p.strategy.EqualShares? then
      var shared := Shared(targets, EqualSplit(targets, k.left), k.(left := 0));
      OrderedHolds(p, targets, shared.bal);
      Greedy(SpillOrder(p, targets, shared.bal), shared)
    else if p.strategy.PreserveLiquidity? then k
    else Greedy(Ordered(p, targets, k.bal), k)
  }

  function Extra(p: Plan, alive: seq<nat>, k: Desk): (r: Desk)
    requires Sized(k, |p.debts|) && InRange(alive, |p.debts|)
    ensures Sized(r, |p.debts|)
  {
    if Targets(alive, k.bal) == [] || k.left <= 0 then k
    else
      var reserved := Reserved(p, alive, k);
      var targets := Targets(alive, reserved.bal);
      if reserved.left <= 0 || targets == [] then reserved else Distributed(p, targets, reserved)
  }

  function Opening(p: Plan, bal: seq<int>): (r: Desk)
    requires |bal| == |p.debts|
    ensures Sized(r, |p.debts|)
  {
    Desk(Added(bal, Accruals(p.debts, bal)), Zeros(|bal|), p.budget)
  }

  function AfterMinimums(p: Plan, bal: seq<int>): (r: Desk)
    requires |bal| == |p.debts|
    ensures Sized(r, |p.debts|)
  {
    Minimums(p.debts, Alive(bal), Opening(p, bal))
  }

  /** One whole month, from opening balances to closing balances and payments. */
  function MonthEnd(p: Plan, bal: seq<int>): (r: Desk)
    requires |bal| == |p.debts|
    ensures Sized(r, |p.debts|)
  {
    Extra(p, Alive(bal), AfterMinimums(p, bal))
  }

  // ---- the whole run, as values ---------------------------------------

  datatype MonthRow = MonthRow(month: nat, debt: nat, opening: int, interest: int, payment: int, closing: int)

  datatype Payoff = Payoff(debt: nat, month: nat)

  datatype Sim = Sim(
    bal: seq<int>, month: nat, interest: int, paid: int, payoffs: seq<Payoff>, schedule: seq<MonthRow>)

  function Rows(month: nat, ids: seq<nat>, opening: seq<int>, interest: seq<int>, k: Desk): seq<MonthRow>
    requires Sized(k, |opening|) && |interest| == |opening| && InRange(ids, |opening|)
  {
    if ids == [] then []
    else [MonthRow(month, ids[0], opening[ids[0]], interest[ids[0]], k.paid[ids[0]], k.bal[ids[0]])]
         + Rows(month, ids[1..], opening, interest, k)
  }

  function Cleared(month: nat, ids: seq<nat>, bal: seq<int>): seq<Payoff>
    requires InRange(ids, |bal|)
  {
    if ids == [] then []
    else (if bal[ids[0]] <= 0 then [Payoff(ids[0], month)] else []) + Cleared(month, ids[1..], bal)
  }

  function SumAt(ids: seq<nat>, xs: seq<int>): int
    requires InRange(ids, |xs|)
  {
    if ids == [] then 0 else xs[ids[0]] + SumAt(ids[1..], xs)
  }

  function NextMonth(p: Plan, s: Sim): (r: Sim)
    requires |s.bal| == |p.debts|
    ensures |r.bal| == |p.debts| && r.month == s.month + 1
  {
    var alive, interest, k := Alive(s.bal), Accruals(p.debts, s.bal), MonthEnd(p, s.bal);
    Sim(k.bal, s.month + 1,
        s.interest + SumAt(alive, interest),
        s.paid + SumAt(alive, k.paid),
        s.payoffs + Cleared(s.month + 1, alive, k.bal),
        s.schedule + Rows(s.month + 1, alive, s.bal, interest, k))
  }

  function Start(p: Plan): (r: Sim)
    ensures |r.bal| == |p.debts|
  {
    Sim(Balances(p.debts), 0, 0, 0, [], [])
  }

  function Simulate(p: Plan, s: Sim, limit: int): (r: Sim)
    requires |s.bal| == |p.debts|
    ensures |r.bal| == |p.debts|
    decreases limit - s.month
  {
    if Alive(s.bal) == [] || s.month >= limit then s else Simulate(p, NextMonth(p, s), limit)
  }

  /** `horizon_months or MAX_MONTHS`: a missing or zero horizon means the maximum. */
  function Limit(horizon: Option<int>): int {
    if horizon.None? || horizon.value == 0 then MAX_MONTHS else horizon.value
  }

  // ---- the simulator --------------------------------------------------

  method PayMinimums(debts: seq<Loan>, alive: seq<nat>, k: Desk) returns (r: Desk)
    requires Sized(k, |debts|) && InRange(alive, |debts|)
    ensures r == Minimums(debts, alive, k)
  {
    var state, paid, left := k.bal, k.paid, k.left;
    for j := 0 to |alive|
      invariant |state| == |paid| == |debts|
      invariant Minimums(debts, alive[j..], Desk(state, paid, left)) == Minimums(debts, alive, k)
    {
      var i := alive[j];
      assert alive[j..][1..] == alive[j + 1..];
      var due := Min(Min(debts[i].minimum, state[i]), left);
      paid := paid[i := paid[i] + due];
      state := state[i := state[i] - due];
      left := left - due;
    }
    r := Desk(state, paid, left);
  }

  lemma {:induction false} GreedyStops(ids: seq<nat>, k: Desk)
    requires Sized(k, |k.bal|) && InRange(ids, |k.bal|) && k.left == 0
    requires forall j :: 0 <= j < |ids| ==> k.bal[ids[j]] >= 0
    ensures Greedy(ids, k) == k
    decreases |ids|
  {
    if ids != [] {
      assert Pay(k, ids[0], 0) == k;
      GreedyStops(ids[1..], k);
    }
  }

  /** The greedy loop leaves as soon as the budget is spent. */
  method PayInOrder(ordered: seq<nat>, k: Desk) returns (r: Desk)
    requires Sized(k, |k.bal|) && InRange(ordered, |k.bal|)
    requires k.left >= 0 && forall j :: 0 <= j < |ordered| ==> k.bal[ordered[j]] >= 0
    ensures r == Greedy(ordered, k)
  {
    var state, paid, left := k.bal, k.paid, k.left;
    var j := 0;
    while j < |ordered|
      invariant 0 <= j <= |ordered| && |state| == |paid| == |k.bal|
      invariant left >= 0 && forall h :: 0 <= h < |ordered| ==> state[ordered[h]] >= 0
      invariant Greedy(ordered[j..], Desk(state, paid, left)) == Greedy(ordered, k)
    {
      if left == 0 {
        GreedyStops(ordered[j..], Desk(state, paid, left));
        return Desk(state, paid, left);
      }
      var i := ordered[j];
      assert ordered[j..][1..] == ordered[j + 1..];
      var give := Min(left, state[i]);
      paid := paid[i := paid[i] + give];
      state := state[i := state[i] - give];
      left := left - give;
      j := j + 1;
    }
    r := Desk(state, paid, left);
  }

  method PayShares(targets: seq<nat>, shares: seq<int>, k: Desk) returns (r: Desk)
    requires Sized(k, |k.bal|) && InRange(targets, |k.bal|) && |shares| == |targets|
    ensures r == Shared(targets, shares, k)
  {
    var state, paid, leftovers := k.bal, k.paid, k.left;
    for j := 0 to |targets|
      invariant |state| == |paid| == |k.bal|
      invariant Shared(targets[j..], shares[j..], Desk(state, paid, leftovers)) == Shared(targets, shares, k)
    {
      var i := targets[j];
      assert targets[j..][1..] == targets[j + 1..] && shares[j..][1..] == shares[j + 1..];
      var give := Min(shares[j], state[i]);
      leftovers := leftovers + (shares[j] - give);
      paid := paid[i := paid[i] + give];
      state := state[i := state[i] - give];
    }
    r := Desk(state, paid, leftovers);
  }

  lemma {:induction false} SharedLeaves(ids: seq<nat>, shares: seq<int>, k: Desk)
    requires Sized(k, |k.bal|) && InRange(ids, |k.bal|) && |shares| == |ids| && k.left >= 0
    ensures var r := Shared(ids, shares, k);
      && r.left >= 0
      && (forall i :: 0 <= i < |k.bal| && k.bal[i] >= 0 ==> r.bal[i] >= 0)
    decreases |ids|
  {
    if ids != [] {
      var give := Min(shares[0], k.bal[ids[0]]);
      SharedLeaves(ids[1..], shares[1..], Pay(k, ids[0], give).(left := k.left + (shares[0] - give)));
    }
  }

  lemma OrderedNonNegative(ids: seq<nat>, targets: seq<nat>, bal: seq<int>)
    requires InRange(ids, |bal|) && InRange(targets, |bal|)
    requires forall i :: i in ids <==> i in targets
    requires forall i :: 0 <= i < |bal| && i in targets ==> bal[i] >= 0
    ensures forall j :: 0 <= j < |ids| ==> bal[ids[j]] >= 0
  {
    forall j | 0 <= j < |ids|
      ensures bal[ids[j]] >= 0
    {
      assert ids[j] in ids;
    }
  }

  method SpendByStrategy(p: Plan, targets: seq<nat>, k: Desk) returns (r: Desk)
    requires Sized(k, |p.debts|) && InRange(targets, |p.debts|) && k.left >= 0
    requires forall i :: 0 <= i < |k.bal| && i in targets ==> k.bal[i] >= 0
    ensures r == Distributed(p, targets, k)
  {
    OrderedHolds(p, targets, k.bal);
    if p.strategy.EqualShares? {
      var shares := Allocate(k.left as real, Ones(|targets|));
      r := PayShares(targets, shares, k.(left := 0));
      SharedLeaves(targets, shares, k.(left := 0));
      OrderedHolds(p, targets, r.bal);
      OrderedNonNegative(SpillOrder(p, targets, r.bal), targets, r.bal);
      r := PayInOrder(SpillOrder(p, targets, r.bal), r);
    } else if p.strategy.PreserveLiquidity? {
      r := k;
    } else {
      OrderedNonNegative(Ordered(p, targets, k.bal), targets, k.bal);
      r := PayInOrder(Ordered(p, targets, k.bal), k);
    }
  }

  method SpendExtra(p: Plan, alive: seq<nat>, k: Desk) returns (r: Desk)
    requires Sized(k, |p.debts|) && InRange(alive, |p.debts|)
    ensures r == Extra(p, alive, k)
  {
    r := k;
    var targets := Targets(alive, k.bal);
    if targets != [] && k.left > 0 {
      if p.reserve.Some? && p.reserve.value.0 in targets {
        var (i, amount) := p.reserve.value;
        TargetsAre(alive, k.bal);
        r := Pay(k, i, Min(Min(amount, k.bal[i]), k.left));
        targets := Targets(alive, r.bal);
      }
      if r.left > 0 && targets != [] {
        TargetsAre(alive, r.bal);
        r := SpendByStrategy(p, targets, r);
      }
    }
  }

  lemma SumAtHead(ids: seq<nat>, xs: seq<int>)
    requires InRange(ids, |xs|)
    ensures SumAt(ids, xs) == if ids == [] then 0 else xs[ids[0]] + SumAt(ids[1..], xs)
  {
  }

  method AccrueInterest(debts: seq<Loan>, alive: seq<nat>, bal: seq<int>)
    returns (interest: seq<int>, state: seq<int>, total: int)
    requires |debts| == |bal| && alive == Alive(bal)
    ensures interest == Accruals(debts, bal) && state == Added(bal, interest)
    ensures total == SumAt(alive, interest)
  {
    hide Interest, Alive, SumAt;
    ghost var due := Accruals(debts, bal);
    AliveIs(bal);
    interest, state, total := Zeros(|bal|), bal, 0;
    for j := 0 to |alive|
      invariant |interest| == |state| == |bal|
      invariant forall h :: 0 <= h < j ==> interest[alive[h]] == due[alive[h]]
      invariant forall h :: j <= h < |alive| ==> interest[alive[h]] == 0
      invariant forall i :: 0 <= i < |bal| ==> state[i] == bal[i] + interest[i]
      invariant forall i :: 0 <= i < |bal| && bal[i] <= 0 ==> interest[i] == 0
      invariant total + SumAt(alive[j..], due) == SumAt(alive, due)
    {
      var i := alive[j];
      SumAtHead(alive[j..], due);
      assert alive[j..][1..] == alive[j + 1..];
      assert i in alive;
      var intr := Interest(debts[i], state[i]);
      interest := interest[i := intr];
      state := state[i := state[i] + intr];
      total := total + intr;
    }
    forall i | 0 <= i < |bal|
      ensures interest[i] == due[i]
    {
      if bal[i] > 0 {
        assert i in alive;
      }
    }
    assert interest == due;
    assert alive[|alive|..] == [];
    SumAtHead([], due);
  }

  lemma NothingToRecord(month: nat, ids: seq<nat>, opening: seq<int>, interest: seq<int>, k: Desk)
    requires Sized(k, |opening|) && |interest| == |opening| && ids == []
    ensures SumAt(ids, k.paid) == 0 && Rows(month, ids, opening, interest, k) == []
    ensures Cleared(month, ids, k.bal) == [] && Targets(ids, k.bal) == []
  {
  }

  lemma RecordStep(month: nat, ids: seq<nat>, opening: seq<int>, interest: seq<int>, k: Desk)
    requires Sized(k, |opening|) && |interest| == |opening| && InRange(ids, |opening|) && ids != []
    ensures var i, rest := ids[0], ids[1..];
      && SumAt(ids, k.paid) == k.paid[i] + SumAt(rest, k.paid)
      && Rows(month, ids, opening, interest, k)
         == [MonthRow(month, i, opening[i], interest[i], k.paid[i], k.bal[i])] + Rows(month, rest, opening, interest, k)
      && Cleared(month, ids, k.bal) == (if k.bal[i] > 0 then [] else [Payoff(i, month)]) + Cleared(month, rest, k.bal)
      && Targets(ids, k.bal) == (if k.bal[i] > 0 then [i] else []) + Targets(rest, k.bal)
  {
  }

  method RecordMonth(month: nat, alive: seq<nat>, opening: seq<int>, interest: seq<int>, k: Desk)
    returns (paid: int, rows: seq<MonthRow>, payoffs: seq<Payoff>, still: seq<nat>)
    requires Sized(k, |opening|) && |interest| == |opening| && InRange(alive, |opening|)
    ensures paid == SumAt(alive, k.paid) && rows == Rows(month, alive, opening, interest, k)
    ensures payoffs == Cleared(month, alive, k.bal) && still == Targets(alive, k.bal)
  {
    hide SumAt, Rows, Cleared, Targets;
    paid, rows, payoffs, still := 0, [], [], [];
    for j := 0 to |alive|
      invariant paid + SumAt(alive[j..], k.paid) == SumAt(alive, k.paid)
      invariant rows + Rows(month, alive[j..], opening, interest, k) == Rows(month, alive, opening, interest, k)
      invariant payoffs + Cleared(month, alive[j..], k.bal) == Cleared(month, alive, k.bal)
      invariant still + Targets(alive[j..], k.bal) == Targets(alive, k.bal)
    {
      var i := alive[j];
      RecordStep(month, alive[j..], opening, interest, k);
      assert alive[j..][1..] == alive[j + 1..];
      ghost var rest := alive[j + 1..];
      Joined(rows, MonthRow(month, i, opening[i], interest[i], k.paid[i], k.bal[i]), Rows(month, rest, opening, interest, k));
      Joined(payoffs, Payoff(i, month), Cleared(month, rest, k.bal));
      Joined(still, i, Targets(rest, k.bal));
      paid := paid + k.paid[i];
      rows := rows + [MonthRow(month, i, opening[i], interest[i], k.paid[i], k.bal[i])];
      if k.bal[i] > 0 {
        still := still + [i];
      } else {
        payoffs := payoffs + [Payoff(i, month)];
      }
    }
    NothingToRecord(month, alive[|alive|..], opening, interest, k);
  }

  lemma {:induction false} MinimumsTouch(debts: seq<Loan>, ids: seq<nat>, k: Desk)
    requires Sized(k, |debts|) && InRange(ids, |debts|)
    ensures Untouched(k, Minimums(debts, ids, k), ids)
    decreases |ids|
  {
    if ids != [] {
      var due := Min(Min(debts[ids[0]].minimum, k.bal[ids[0]]), k.left);
      MinimumsTouch(debts, ids[1..], Pay(k, ids[0], due));
    }
  }

  lemma {:induction false} GreedyTouch(ids: seq<nat>, k: Desk)
    requires Sized(k, |k.bal|) && InRange(ids, |k.bal|)
    ensures Untouched(k, Greedy(ids, k), ids)
    decreases |ids|
  {
    if ids != [] {
      GreedyTouch(ids[1..], Pay(k, ids[0], Min(k.left, k.bal[ids[0]])));
    }
  }

  lemma {:induction false} SharedTouch(ids: seq<nat>, shares: seq<int>, k: Desk)
    requires Sized(k, |k.bal|) && InRange(ids, |k.bal|) && |shares| == |ids|
    ensures Untouched(k, Shared(ids, shares, k), ids)
    decreases |ids|
  {
    if ids != [] {
      var give := Min(shares[0], k.bal[ids[0]]);
      SharedTouch(ids[1..], shares[1..], Pay(k, ids[0], give).(left := k.left + (shares[0] - give)));
    }
  }

  lemma DistributedTouch(p: Plan, targets: seq<nat>, k: Desk)
    requires Sized(k, |p.debts|) && InRange(targets, |p.debts|)
    ensures Untouched(k, Distributed(p, targets, k), targets)
  {
    hide Ordered, SpillOrder, Shared, Greedy;
    OrderedHolds(p, targets, k.bal);
    if p.strategy.EqualShares? {
      var shared := Shared(targets, EqualSplit(targets, k.left), k.(left := 0));
      SharedTouch(targets, EqualSplit(targets, k.left), k.(left := 0));
      OrderedHolds(p, targets, shared.bal);
      GreedyTouch(SpillOrder(p, targets, shared.bal), shared);
    } else if !p.strategy.PreserveLiquidity? {
      GreedyTouch(Ordered(p, targets, k.bal), k);
    }
  }

  lemma ExtraTouch(p: Plan, alive: seq<nat>, k: Desk)
    requires Sized(k, |p.debts|) && InRange(alive, |p.debts|)
    ensures Untouched(k, Extra(p, alive, k), alive)
  {
    hide Distributed, Targets;
    TargetsAre(alive, k.bal);
    var reserved := Reserved(p, alive, k);
    TargetsAre(alive, reserved.bal);
    DistributedTouch(p, Targets(alive, reserved.bal), reserved);
  }

  lemma {:induction false} StillAlive(bal: seq<int>, next: seq<int>, i: nat)
    requires |bal| == |next| && i <= |bal|
    requires forall j :: 0 <= j < |bal| && bal[j] <= 0 ==> next[j] <= 0
    requires InRange(AliveFrom(bal, i), |bal|)
    ensures Targets(AliveFrom(bal, i), next) == AliveFrom(next, i)
    decreases |bal| - i
  {
    if i < |bal| {
      StillAlive(bal, next, i + 1);
      if bal[i] > 0 {
        assert AliveFrom(bal, i)[1..] == AliveFrom(bal, i + 1);
      } else {
        assert AliveFrom(bal, i) == AliveFrom(bal, i + 1);
      }
    }
  }

  /** A cleared debt never comes back: the survivors of a month are exactly the debts still owed. */
  lemma AliveShrinks(p: Plan, bal: seq<int>)
    requires |bal| == |p.debts|
    ensures var next := MonthEnd(p, bal).bal;
      && Targets(Alive(bal), next) == Alive(next)
      && (forall i :: 0 <= i < |bal| && bal[i] <= 0 ==> next[i] == bal[i])
      && (forall i :: i in Alive(next) ==> i in Alive(bal))
  {
    hide Extra, Minimums, Accruals, Targets, AliveFrom;
    AliveIs(bal);
    MinimumsTouch(p.debts, Alive(bal), Opening(p, bal));
    ExtraTouch(p, Alive(bal), AfterMinimums(p, bal));
    var open, mid := Opening(p, bal), AfterMinimums(p, bal);
    var next := MonthEnd(p, bal);
    forall i | 0 <= i < |bal| && bal[i] <= 0
      ensures next.bal[i] == bal[i]
    {
      assert i !in Alive(bal);
      AccruesNothing(p.debts, bal, i);
      assert next.bal[i] == mid.bal[i] == open.bal[i] == bal[i];
    }
    StillAlive(bal, next.bal, 0);
    AliveIs(next.bal);
  }

  lemma AccruesNothing(debts: seq<Loan>, bal: seq<int>, i: nat)
    requires |debts| == |bal| && i < |bal| && bal[i] <= 0
    ensures Accruals(debts, bal)[i] == 0
  {
  }

  /** The month loop; `truncated` tells whether a debt outlived the horizon. */
  method Run(p: Plan, horizon: Option<int>) returns (s: Sim, truncated: bool)
    ensures s == Simulate(p, Start(p), Limit(horizon))
    ensures truncated == (Alive(s.bal) != [])
  {
    hide Extra, Minimums, Accruals, Alive, Targets, Rows, Cleared, SumAt;
    s := Start(p);
    var limit := Limit(horizon);
    var alive := Alive(s.bal);
    while alive != [] && s.month < limit
      invariant |s.bal| == |p.debts| && alive == Alive(s.bal)
      invariant Simulate(p, s, limit) == Simulate(p, Start(p), limit)
      decreases limit - s.month
    {
      var interest, state, accrued := AccrueInterest(p.debts, alive, s.bal);
      var k := PayMinimums(p.debts, alive, Desk(state, Zeros(|state|), p.budget));
      k := SpendExtra(p, alive, k);
      var paid, rows, payoffs, still := RecordMonth(s.month + 1, alive, s.bal, interest, k);
      AliveShrinks(p, s.bal);
      s := Sim(k.bal, s.month + 1, s.interest + accrued, s.paid + paid, s.payoffs + payoffs, s.schedule + rows);
      alive := still;
    }
    truncated := alive != [];
  }
}
