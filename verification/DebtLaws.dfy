/** Conservation, exact spending and whole-run accounts of the debt simulator. */
module DebtLaws {
  import opened Prelude
  import opened Money
  import opened Debt

  ghost predicate GoodPlan(p: Plan) {
    && p.budget >= 0
    && (forall i :: 0 <= i < |p.debts| ==> p.debts[i].apr >= 0.0 && p.debts[i].minimum >= 0)
    && (p.reserve.Some? ==> p.reserve.value.1 >= 0)
  }

  // ---- one payment at a time ------------------------------------------

  /** The desk still accounts for every cent of the opening balances and of the pool. */
  ghost predicate Fair(open: seq<int>, pool: int, k: Desk) {
    && Sized(k, |open|)
    && k.left >= 0 && Sum(k.paid) + k.left == pool
    && forall i :: 0 <= i < |open| ==>
         && k.bal[i] + k.paid[i] == open[i]
         && k.paid[i] >= 0
         && (open[i] >= 0 ==> k.bal[i] >= 0)
         && (open[i] <= 0 ==> k.paid[i] == 0)
  }

  /** Every listed debt opened with something owed. */
  ghost predicate Owing(open: seq<int>, ids: seq<nat>) {
    InRange(ids, |open|) && forall j :: 0 <= j < |ids| ==> open[ids[j]] >= 0
  }

  lemma PayFair(open: seq<int>, pool: int, k: Desk, i: nat, give: int, left: int)
    requires Fair(open, pool, k) && i < |open|
    requires 0 <= give <= k.bal[i] && left >= 0
    ensures Fair(open, pool - k.left + give + left, Pay(k, i, give).(left := left))
  {
    SumUpdate(k.paid, i, k.paid[i] + give);
  }

  lemma {:induction false} MinimumsFair(debts: seq<Loan>, ids: seq<nat>, open: seq<int>, pool: int, k: Desk)
    requires |debts| == |open| && Fair(open, pool, k) && Owing(open, ids)
    requires forall i :: 0 <= i < |debts| ==> debts[i].minimum >= 0
    ensures Fair(open, pool, Minimums(debts, ids, k))
    decreases |ids|
  {
    if ids != [] {
      var i := ids[0];
      assert open[i] >= 0;
      var due := Min(Min(debts[i].minimum, k.bal[i]), k.left);
      PayFair(open, pool, k, i, due, k.left - due);
      assert Owing(open, ids[1..]);
      MinimumsFair(debts, ids[1..], open, pool, Pay(k, i, due));
    }
  }

  ghost predicate Done(ids: seq<nat>, k: Desk)
    requires InRange(ids, |k.bal|)
  {
    k.left == 0 || forall j :: 0 <= j < |ids| ==> k.bal[ids[j]] == 0
  }

  lemma {:induction false} GreedyKeeps(ids: seq<nat>, open: seq<int>, pool: int, k: Desk, i: nat)
    requires Fair(open, pool, k) && Owing(open, ids) && i < |open| && (k.bal[i] == 0 || k.left == 0)
    ensures Greedy(ids, k).bal[i] == 0 || Greedy(ids, k).left == 0
    decreases |ids|
  {
    if ids != [] {
      var give := Min(k.left, k.bal[ids[0]]);
      assert open[ids[0]] >= 0;
      PayFair(open, pool, k, ids[0], give, k.left - give);
      assert Owing(open, ids[1..]);
      GreedyKeeps(ids[1..], open, pool, Pay(k, ids[0], give), i);
    }
  }

  /** The greedy loop stays fair and ends with the pool or every listed balance at zero. */
  lemma {:induction false} GreedyFair(ids: seq<nat>, open: seq<int>, pool: int, k: Desk)
    requires Fair(open, pool, k) && Owing(open, ids)
    ensures Fair(open, pool, Greedy(ids, k)) && Done(ids, Greedy(ids, k))
    decreases |ids|
  {
    if ids != [] {
      var give := Min(k.left, k.bal[ids[0]]);
      var next := Pay(k, ids[0], give);
      assert open[ids[0]] >= 0;
      PayFair(open, pool, k, ids[0], give, k.left - give);
      assert Owing(open, ids[1..]);
      GreedyFair(ids[1..], open, pool, next);
      GreedyKeeps(ids[1..], open, pool, next, ids[0]);
      var r := Greedy(ids, k);
      forall j | 0 <= j < |ids| && r.left != 0
        ensures r.bal[ids[j]] == 0
      {
        if j > 0 {
          assert ids[1..][j - 1] == ids[j];
        }
      }
    }
  }

  lemma {:induction false} SharedFair(ids: seq<nat>, shares: seq<int>, open: seq<int>, pool: int, k: Desk)
    requires Fair(open, pool, k) && Owing(open, ids) && |shares| == |ids|
    requires forall j :: 0 <= j < |shares| ==> shares[j] >= 0
    ensures Fair(open, pool + Sum(shares), Shared(ids, shares, k))
    decreases |ids|
  {
    if ids != [] {
      var i := ids[0];
      var give := Min(shares[0], k.bal[i]);
      assert open[i] >= 0;
      PayFair(open, pool, k, i, give, k.left + (shares[0] - give));
      assert Owing(open, ids[1..]);
      SharedFair(ids[1..], shares[1..], open, pool + shares[0], Pay(k, i, give).(left := k.left + (shares[0] - give)));
    }
  }

  lemma {:induction false} SumOnes(n: nat)
    ensures SumReal(Ones(n)) == n as real
  {
    if n > 0 {
      SumOnes(n - 1);
      assert Ones(n)[1..] == Ones(n - 1);
    }
  }

  lemma EqualSplitIs(targets: seq<nat>, left: nat)
    requires targets != []
    ensures Sum(EqualSplit(targets, left)) == left
    ensures forall j :: 0 <= j < |targets| ==> EqualSplit(targets, left)[j] >= 0
  {
    hide Split, Raw;
    SumOnes(|targets|);
    SplitSum(left as real, Ones(|targets|));
    forall j | 0 <= j < |targets|
      ensures EqualSplit(targets, left)[j] >= 0
    {
      SplitNearExact(left as real, Ones(|targets|), j);
    }
  }

  lemma OwingSame(open: seq<int>, ids: seq<nat>, others: seq<nat>)
    requires Owing(open, ids) && InRange(others, |open|) && forall i :: i in others ==> i in ids
    ensures Owing(open, others)
  {
    forall j | 0 <= j < |others|
      ensures open[others[j]] >= 0
    {
      assert others[j] in others;
    }
  }

  lemma DoneSame(ids: seq<nat>, others: seq<nat>, k: Desk)
    requires InRange(ids, |k.bal|) && InRange(others, |k.bal|) && Done(others, k)
    requires forall i :: i in ids ==> i in others
    ensures Done(ids, k)
  {
    forall j | 0 <= j < |ids| && k.left != 0
      ensures k.bal[ids[j]] == 0
    {
      assert ids[j] in ids;
    }
  }

  lemma DistributedFair(p: Plan, targets: seq<nat>, open: seq<int>, pool: int, k: Desk)
    requires |p.debts| == |open| && Fair(open, pool, k) && Owing(open, targets) && targets != []
    ensures Fair(open, pool, Distributed(p, targets, k))
    ensures !p.strategy.PreserveLiquidity? ==> Done(targets, Distributed(p, targets, k))
  {
    hide EqualSplit, Ordered, SpillOrder, Shared, Greedy;
    OrderedHolds(p, targets, k.bal);
    if p.strategy.EqualShares? {
      var shares := EqualSplit(targets, k.left);
      var k0 := k.(left := 0);
      var shared := Shared(targets, shares, k0);
      EqualSplitIs(targets, k.left);
      SharedFair(targets, shares, open, pool - k.left, k0);
      OrderedHolds(p, targets, shared.bal);
      var spill := SpillOrder(p, targets, shared.bal);
      OwingSame(open, targets, spill);
      GreedyFair(spill, open, pool, shared);
      DoneSame(targets, spill, Greedy(spill, shared));
    } else if !p.strategy.PreserveLiquidity? {
      var ids := Ordered(p, targets, k.bal);
      OwingSame(open, targets, ids);
      GreedyFair(ids, open, pool, k);
      DoneSame(targets, ids, Greedy(ids, k));
    }
  }

  lemma ExtraFair(p: Plan, alive: seq<nat>, open: seq<int>, pool: int, k: Desk)
    requires GoodPlan(p) && |p.debts| == |open| && Fair(open, pool, k) && Owing(open, alive)
    ensures Fair(open, pool, Extra(p, alive, k))
    ensures !p.strategy.PreserveLiquidity? ==> Done(alive, Extra(p, alive, k))
  {
    hide Distributed, Targets;
    TargetsAre(alive, k.bal);
    var reserved := Reserved(p, alive, k);
    if p.reserve.Some? && p.reserve.value.0 in Targets(alive, k.bal) {
      var (i, amount) := p.reserve.value;
      var give := Min(Min(amount, k.bal[i]), k.left);
      PayFair(open, pool, k, i, give, k.left - give);
    }
    assert Fair(open, pool, reserved);
    TargetsAre(alive, reserved.bal);
    var targets := Targets(alive, reserved.bal);
    OwingSame(open, alive, targets);
    var r := Extra(p, alive, k);
    if Targets(alive, k.bal) == [] {
      NoTargets(alive, open, pool, k);
    } else if targets == [] {
      NoTargets(alive, open, pool, reserved);
    } else {
      DistributedFair(p, targets, open, pool, reserved);
      DistributedTouch(p, targets, reserved);
      TargetsDone(p, alive, open, pool, reserved);
    }
  }

  lemma NoTargets(alive: seq<nat>, open: seq<int>, pool: int, k: Desk)
    requires Fair(open, pool, k) && Owing(open, alive)
    requires forall i :: i in alive && i < |open| ==> k.bal[i] <= 0
    ensures Done(alive, k)
  {
    forall j | 0 <= j < |alive|
      ensures k.bal[alive[j]] == 0
    {
      assert alive[j] in alive && open[alive[j]] >= 0;
    }
  }

  lemma TargetsDone(p: Plan, alive: seq<nat>, open: seq<int>, pool: int, k: Desk)
    requires |p.debts| == |open| && Fair(open, pool, k) && Owing(open, alive)
    requires var targets := Targets(alive, k.bal); var r := Distributed(p, targets, k);
      && Fair(open, pool, r) && Untouched(k, r, targets)
      && (!p.strategy.PreserveLiquidity? ==> Done(targets, r))
    ensures !p.strategy.PreserveLiquidity? ==> Done(alive, Distributed(p, Targets(alive, k.bal), k))
  {
    hide Distributed, Targets;
    TargetsAre(alive, k.bal);
    var targets := Targets(alive, k.bal);
    var r := Distributed(p, targets, k);
    forall j | 0 <= j < |alive| && r.left != 0 && !p.strategy.PreserveLiquidity?
      ensures r.bal[alive[j]] == 0
    {
      var i := alive[j];
      assert i in alive && open[i] >= 0;
      if i in targets {
        var h :| 0 <= h < |targets| && targets[h] == i;
      }
    }
  }

  // ---- one month ------------------------------------------------------

  function Owed(bal: seq<int>): (r: nat) {
    if bal == [] then 0 else (if bal[0] > 0 then bal[0] else 0) + Owed(bal[1..])
  }

  lemma InterestNonNegative(d: Loan, bal: int)
    requires d.apr >= 0.0 && bal >= 0
    ensures Interest(d, bal) >= 0
  {
    Scaled(0.0, bal as real, d.Rate() / 12.0);
  }

  lemma OpeningFair(p: Plan, bal: seq<int>)
    requires GoodPlan(p) && |bal| == |p.debts|
    ensures var open := Added(bal, Accruals(p.debts, bal));
      && Fair(open, p.budget, Opening(p, bal)) && Owing(open, Alive(bal))
      && forall i :: 0 <= i < |bal| ==> (if bal[i] > 0 then open[i] >= bal[i] else open[i] == bal[i])
  {
    hide Interest, Alive;
    AliveIs(bal);
    var open := Added(bal, Accruals(p.debts, bal));
    SumZeros(|bal|);
    forall i | 0 <= i < |bal|
      ensures if bal[i] > 0 then open[i] >= bal[i] else open[i] == bal[i]
    {
      if bal[i] > 0 {
        InterestNonNegative(p.debts[i], bal[i]);
      }
    }
    forall j | 0 <= j < |Alive(bal)|
      ensures open[Alive(bal)[j]] >= 0
    {
      assert Alive(bal)[j] in Alive(bal);
    }
  }

  lemma {:induction false} SumZeros(n: nat)
    ensures Sum(Zeros(n)) == 0
  {
    if n > 0 {
      SumZeros(n - 1);
      assert Zeros(n)[1..] == Zeros(n - 1);
    }
  }

  /** A month loses no cent: closing balances, interest and payments account for the opening ones. */
  lemma MonthFair(p: Plan, bal: seq<int>)
    requires GoodPlan(p) && |bal| == |p.debts|
    ensures Fair(Added(bal, Accruals(p.debts, bal)), p.budget, MonthEnd(p, bal))
    ensures !p.strategy.PreserveLiquidity? ==> Done(Alive(bal), MonthEnd(p, bal))
  {
    hide Alive, Accruals, Extra, Minimums;
    var open := Added(bal, Accruals(p.debts, bal));
    OpeningFair(p, bal);
    MinimumsFair(p.debts, Alive(bal), open, p.budget, Opening(p, bal));
    ExtraFair(p, Alive(bal), open, p.budget, AfterMinimums(p, bal));
  }

  lemma {:induction false} OwedSplits(open: seq<int>, bal: seq<int>, paid: seq<int>)
    requires |open| == |bal| == |paid|
    requires forall i :: 0 <= i < |open| ==>
      bal[i] + paid[i] == open[i] && (open[i] >= 0 ==> bal[i] >= 0) && (open[i] <= 0 ==> paid[i] == 0)
    ensures Owed(open) == Owed(bal) + Sum(paid)
  {
    if open != [] {
      OwedSplits(open[1..], bal[1..], paid[1..]);
    }
  }

  lemma {:induction false} NothingOwed(bal: seq<int>)
    ensures (forall i :: 0 <= i < |bal| ==> bal[i] <= 0) <==> Owed(bal) == 0
  {
    if bal != [] {
      NothingOwed(bal[1..]);
      assert forall i :: 0 <= i < |bal[1..]| ==> bal[1..][i] == bal[i + 1];
      if forall i :: 0 <= i < |bal[1..]| ==> bal[1..][i] <= 0 {
        forall i | 0 <= i < |bal| && bal[0] <= 0
          ensures bal[i] <= 0
        {
          if i > 0 { assert bal[1..][i - 1] <= 0; }
        }
      }
    }
  }

  /**
   * Every strategy but PRESERVE_LIQUIDITY pays exactly the smaller of the budget and everything
   * owed this month, and what is still owed is what was owed, plus interest, less that payment.
   */
  lemma PaysInFull(p: Plan, bal: seq<int>)
    requires GoodPlan(p) && |bal| == |p.debts| && !p.strategy.PreserveLiquidity?
    ensures var owed := Owed(Added(bal, Accruals(p.debts, bal)));
      && Sum(MonthEnd(p, bal).paid) == Min(p.budget, owed)
      && Owed(MonthEnd(p, bal).bal) == owed - Min(p.budget, owed)
  {
    hide MonthEnd, Accruals;
    var open, k := Added(bal, Accruals(p.debts, bal)), MonthEnd(p, bal);
    MonthFair(p, bal);
    OwedSplits(open, k.bal, k.paid);
    if k.left != 0 {
      AliveIs(bal);
      OpeningFair(p, bal);
      forall i | 0 <= i < |bal|
        ensures k.bal[i] <= 0
      {
        if bal[i] > 0 {
          assert i in Alive(bal);
          var j :| 0 <= j < |Alive(bal)| && Alive(bal)[j] == i;
        }
      }
      NothingOwed(k.bal);
    }
  }

  // ---- the whole run --------------------------------------------------

  lemma {:induction false} SumAtAliveFrom(bal: seq<int>, xs: seq<int>, i: nat)
    requires |bal| == |xs| && i <= |bal|
    requires forall j :: 0 <= j < |bal| && bal[j] <= 0 ==> xs[j] == 0
    requires InRange(AliveFrom(bal, i), |xs|)
    ensures SumAt(AliveFrom(bal, i), xs) == Sum(xs[i..])
    decreases |bal| - i
  {
    if i < |bal| {
      var rest := AliveFrom(bal, i + 1);
      assert AliveFrom(bal, i) == if bal[i] > 0 then [i] + rest else rest;
      hide AliveFrom;
      SumAtAliveFrom(bal, xs, i + 1);
      assert xs[i..][1..] == xs[i + 1..];
      assert ([i] + rest)[1..] == rest;
    }
  }

  /** The rows of one debt, in order. */
  function RowsOf(rows: seq<MonthRow>, i: nat): seq<MonthRow> {
    if rows == [] then []
    else (if rows[0].debt == i then [rows[0]] else []) + RowsOf(rows[1..], i)
  }

  lemma {:induction false} RowsOfAppend(a: seq<MonthRow>, b: seq<MonthRow>, i: nat)
    ensures RowsOf(a + b, i) == RowsOf(a, i) + RowsOf(b, i)
  {
    if a == [] {
      assert a + b == b;
    } else {
      assert (a + b)[1..] == a[1..] + b && (a + b)[0] == a[0];
      var head := if a[0].debt == i then [a[0]] else [];
      assert RowsOf(a + b, i) == head + RowsOf(a[1..] + b, i);
      assert RowsOf(a, i) == head + RowsOf(a[1..], i);
      hide RowsOf;
      RowsOfAppend(a[1..], b, i);
    }
  }

  lemma {:induction false} RowsOfMonth(month: nat, ids: seq<nat>, opening: seq<int>, interest: seq<int>, k: Desk, i: nat)
    requires Sized(k, |opening|) && |interest| == |opening| && InRange(ids, |opening|) && Distinct(ids)
    requires i < |opening|
    ensures RowsOf(Rows(month, ids, opening, interest, k), i)
      == if i in ids then [MonthRow(month, i, opening[i], interest[i], k.paid[i], k.bal[i])] else []
  {
    if ids != [] {
      assert ids == [ids[0]] + ids[1..];
      assert ids[0] !in ids[1..];
      RowsOfMonth(month, ids[1..], opening, interest, k, i);
    }
  }

  function MonthsOf(payoffs: seq<Payoff>, i: nat): seq<nat> {
    if payoffs == [] then []
    else (if payoffs[0].debt == i then [payoffs[0].month] else []) + MonthsOf(payoffs[1..], i)
  }

  lemma {:induction false} MonthsOfAppend(a: seq<Payoff>, b: seq<Payoff>, i: nat)
    ensures MonthsOf(a + b, i) == MonthsOf(a, i) + MonthsOf(b, i)
  {
    if a == [] {
      assert a + b == b;
    } else {
      assert (a + b)[1..] == a[1..] + b;
      MonthsOfAppend(a[1..], b, i);
      var head := if a[0].debt == i then [a[0].month] else [];
      var x, y := MonthsOf(a[1..], i), MonthsOf(b, i);
      assert MonthsOf(a, i) == head + x && MonthsOf(a + b, i) == head + (x + y);
      hide MonthsOf;
    }
  }

  lemma {:induction false} MonthsOfCleared(month: nat, ids: seq<nat>, bal: seq<int>, i: nat)
    requires InRange(ids, |bal|) && Distinct(ids) && i < |bal|
    ensures MonthsOf(Cleared(month, ids, bal), i) == if i in ids && bal[i] <= 0 then [month] else []
  {
    if ids != [] {
      assert ids == [ids[0]] + ids[1..];
      assert ids[0] !in ids[1..];
      MonthsOfCleared(month, ids[1..], bal, i);
      MonthsOfAppend(if bal[ids[0]] <= 0 then [Payoff(ids[0], month)] else [], Cleared(month, ids[1..], bal), i);
    }
  }

  /** One debt's rows run month by month from its opening balance to its present one. */
  ghost predicate Chain(rows: seq<MonthRow>, opening: int, now: int) {
    && (rows == [] ==> opening == now)
    && (rows != [] ==> rows[0].opening == opening && rows[|rows| - 1].closing == now)
    && (forall k :: 0 <= k < |rows| ==>
          rows[k].month == k + 1 && rows[k].opening > 0 && rows[k].payment >= 0 && rows[k].closing >= 0
          && rows[k].opening + rows[k].interest == rows[k].payment + rows[k].closing)
    && (forall k :: 0 <= k < |rows| - 1 ==> rows[k].closing == rows[k + 1].opening)
  }

  /** What one debt's history says: its rows chain, it is open to date or was cleared exactly once. */
  ghost predicate History(p: Plan, s: Sim, i: nat)
    requires |s.bal| == |p.debts| && i < |s.bal|
  {
    var start, rows, months := p.debts[i].balance, RowsOf(s.schedule, i), MonthsOf(s.payoffs, i);
    && Chain(rows, start, s.bal[i])
    && (start <= 0 ==> s.bal[i] == start && rows == [] && months == [])
    && (start > 0 && s.bal[i] > 0 ==> |rows| == s.month && months == [])
    && (start > 0 && s.bal[i] <= 0 ==> s.bal[i] == 0 && 0 < |rows| <= s.month && months == [|rows|])
  }

  ghost predicate Accounts(p: Plan, s: Sim) {
    && |s.bal| == |p.debts|
    && Sum(Balances(p.debts)) + s.interest == s.paid + Sum(s.bal)
    && 0 <= s.paid <= p.budget * s.month
    && (forall i :: 0 <= i < |s.bal| ==> History(p, s, i))
  }

  lemma StartAccounts(p: Plan)
    requires GoodPlan(p)
    ensures Accounts(p, Start(p))
  {
  }

  lemma MonthTotals(p: Plan, bal: seq<int>)
    requires GoodPlan(p) && |bal| == |p.debts|
    ensures var k := MonthEnd(p, bal);
      && Sum(bal) + SumAt(Alive(bal), Accruals(p.debts, bal)) == SumAt(Alive(bal), k.paid) + Sum(k.bal)
      && 0 <= SumAt(Alive(bal), k.paid) <= p.budget
  {
    hide MonthEnd, Interest, Sum, SumAt, AliveFrom;
    var interest, k := Accruals(p.debts, bal), MonthEnd(p, bal);
    var open := Added(bal, interest);
    MonthFair(p, bal);
    OpeningFair(p, bal);
    SumAtAliveFrom(bal, interest, 0);
    SumAtAliveFrom(bal, k.paid, 0);
    assert interest[0..] == interest && k.paid[0..] == k.paid;
    SumPointwise(bal, interest, open);
    SumPointwise(k.bal, k.paid, open);
    SumZeros(|bal|);
    SumMonotone(Zeros(|bal|), k.paid);
  }

  lemma ChainAppend(rows: seq<MonthRow>, opening: int, r: MonthRow)
    requires Chain(rows, opening, r.opening) && r.month == |rows| + 1
    requires r.opening > 0 && r.payment >= 0 && r.closing >= 0 && r.opening + r.interest == r.payment + r.closing
    ensures Chain(rows + [r], opening, r.closing)
  {
  }

  /** One debt through one month: a row and perhaps a payoff when it was alive, nothing otherwise. */
  lemma DebtMonth(p: Plan, s: Sim, i: nat)
    requires GoodPlan(p) && |s.bal| == |p.debts| && i < |s.bal|
    ensures var t, k := NextMonth(p, s), MonthEnd(p, s.bal);
      && t.bal[i] == k.bal[i]
      && (s.bal[i] <= 0 ==>
            && t.bal[i] == s.bal[i]
            && RowsOf(t.schedule, i) == RowsOf(s.schedule, i)
            && MonthsOf(t.payoffs, i) == MonthsOf(s.payoffs, i))
      && (s.bal[i] > 0 ==>
            var r := MonthRow(s.month + 1, i, s.bal[i], Accruals(p.debts, s.bal)[i], k.paid[i], k.bal[i]);
            && RowsOf(t.schedule, i) == RowsOf(s.schedule, i) + [r]
            && MonthsOf(t.payoffs, i) == MonthsOf(s.payoffs, i) + (if k.bal[i] <= 0 then [s.month + 1] else [])
            && r.opening + r.interest == r.payment + r.closing && r.payment >= 0 && r.closing >= 0)
  {
    hide MonthEnd, Interest, Alive, Rows, Cleared, SumAt;
    var interest, k := Accruals(p.debts, s.bal), MonthEnd(p, s.bal);
    AliveIs(s.bal);
    MonthFair(p, s.bal);
    OpeningFair(p, s.bal);
    RowsOfAppend(s.schedule, Rows(s.month + 1, Alive(s.bal), s.bal, interest, k), i);
    RowsOfMonth(s.month + 1, Alive(s.bal), s.bal, interest, k, i);
    MonthsOfAppend(s.payoffs, Cleared(s.month + 1, Alive(s.bal), k.bal), i);
    MonthsOfCleared(s.month + 1, Alive(s.bal), k.bal, i);
  }

  lemma HistoryStep(p: Plan, s: Sim, i: nat)
    requires GoodPlan(p) && |s.bal| == |p.debts| && i < |s.bal| && History(p, s, i)
    ensures History(p, NextMonth(p, s), i)
  {
    hide NextMonth, MonthEnd, Interest, Accruals, RowsOf, MonthsOf, Chain;
    DebtMonth(p, s, i);
    if s.bal[i] > 0 {
      var k := MonthEnd(p, s.bal);
      ChainAppend(RowsOf(s.schedule, i), p.debts[i].balance,
        MonthRow(s.month + 1, i, s.bal[i], Accruals(p.debts, s.bal)[i], k.paid[i], k.bal[i]));
    }
  }

  lemma AccountsStep(p: Plan, s: Sim)
    requires GoodPlan(p) && Accounts(p, s)
    ensures Accounts(p, NextMonth(p, s))
  {
    hide MonthEnd, Accruals, History, Alive, SumAt, Rows, Cleared;
    MonthTotals(p, s.bal);
    assert p.budget * (s.month + 1) == p.budget * s.month + p.budget;
    forall i | 0 <= i < |s.bal|
      ensures History(p, NextMonth(p, s), i)
    {
      HistoryStep(p, s, i);
    }
  }

  lemma {:induction false} SimulateAccounts(p: Plan, s: Sim, limit: int)
    requires GoodPlan(p) && Accounts(p, s)
    ensures Accounts(p, Simulate(p, s, limit))
    decreases limit - s.month
  {
    hide NextMonth, History, Alive;
    if Alive(s.bal) != [] && s.month < limit {
      AccountsStep(p, s);
      SimulateAccounts(p, NextMonth(p, s), limit);
    }
  }

  /**
   * The whole run, for every strategy and horizon: opening balances plus interest equal payments
   * plus what is left; no balance goes negative; each debt's rows chain month by month; a cleared
   * debt is reported once, in its last month, and never comes back.
   */
  lemma RunAccounts(p: Plan, horizon: Option<int>)
    requires GoodPlan(p)
    ensures Accounts(p, Simulate(p, Start(p), Limit(horizon)))
  {
    StartAccounts(p);
    SimulateAccounts(p, Start(p), Limit(horizon));
  }
}
