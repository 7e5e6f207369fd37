/** The shared ledger over a month: what each deposit adds, never too much, and nothing lost. */
module AllocatorMonth {
  import opened Prelude
  import opened Allocator
  import opened AllocatorLaws

  // ---- the shared ledger ----------------------------------------------

  /** What the rows give to one policy. */
  function Given(rows: seq<Allocation>, id: string): real {
    if rows == [] then 0.0
    else (if rows[0].policyId == id then rows[0].amount else 0.0) + Given(rows[1..], id)
  }

  ghost predicate NonNegative(rows: seq<Allocation>) {
    forall k :: 0 <= k < |rows| ==> rows[k].amount >= 0.0
  }

  lemma {:induction false} GivenNonNegative(rows: seq<Allocation>, id: string)
    requires NonNegative(rows)
    ensures Given(rows, id) >= 0.0
  {
    if rows != [] {
      GivenNonNegative(rows[1..], id);
    }
  }

  lemma {:induction false} GivenNothing(rows: seq<Allocation>, id: string)
    requires forall k :: 0 <= k < |rows| ==> rows[k].policyId != id
    ensures Given(rows, id) == 0.0
  {
    if rows != [] {
      GivenNothing(rows[1..], id);
    }
  }

  lemma {:induction false} GivenOnce(rows: seq<Allocation>, k: nat)
    requires OneEach(rows) && k < |rows|
    ensures Given(rows, rows[k].policyId) == rows[k].amount
  {
    if k == 0 {
      GivenNothing(rows[1..], rows[0].policyId);
    } else {
      GivenOnce(rows[1..], k - 1);
    }
  }

  lemma {:induction false} CommitAt(ts: seq<Target>, rows: seq<Allocation>, x: nat)
    requires x < |ts| && NonNegative(rows)
    ensures Commit(ts, rows)[x] == ts[x].(funded := ts[x].funded + Given(rows, ts[x].policyId))
    decreases |rows|
  {
    if rows != [] {
      CommitAt(CreditRow(ts, rows[0]), rows[1..], x);
    }
  }

  /** A month the engine accepts: unique ids, deposits in date order, none negative. */
  ghost predicate GoodMonth(m: Month, ts: seq<Target>) {
    && GoodTargets(ts)
    && (forall i :: 0 <= i < |m.deposits| ==> m.deposits[i].amount >= 0.0)
    && (forall i, j :: 0 <= i < j < |m.deposits| ==> m.deposits[i].date <= m.deposits[j].date)
  }

  /** Sorting the events gives the date order GoodMonth asks for and keeps every event. */
  lemma InDateOrderSorts(ds: seq<Deposit>)
    ensures multiset(InDateOrder(ds)) == multiset(ds)
    ensures |InDateOrder(ds)| == |ds|
    ensures forall i, j :: 0 <= i < j < |ds| ==> InDateOrder(ds)[i].date <= InDateOrder(ds)[j].date
  {
    var leq := (x: Deposit, y: Deposit) => x.date <= y.date;
    SortByCorrect(ds, leq);
    assert TotalOrder(leq);
    forall i, j | 0 <= i < j < |ds|
      ensures InDateOrder(ds)[i].date <= InDateOrder(ds)[j].date
    {
      assert leq(SortBy(ds, leq)[i], SortBy(ds, leq)[j]);
    }
  }

  /** Each event of the month is run as often as it was given. */
  lemma EventsKept(events: seq<Deposit>, projected: seq<Deposit>, first: int, last: int)
    ensures var ours := Filter(events, Within(first, last));
      multiset(MonthEvents(events, projected, first, last)) == multiset(if ours == [] then projected else ours)
  {
    hide InDateOrder, Filter;
    var ours := Filter(events, Within(first, last));
    InDateOrderSorts(if ours == [] then projected else ours);
  }

  /** Whatever order the events come in, the month that is run is in date order and loses none of them. */
  lemma EventsMakeGoodMonth(events: seq<Deposit>, projected: seq<Deposit>, first: int, last: int,
                            checkingFloor: Option<real>, skipped: (string, int) -> bool, ts: seq<Target>)
    requires GoodTargets(ts)
    requires forall i :: 0 <= i < |events| ==> events[i].amount >= 0.0
    requires forall i :: 0 <= i < |projected| ==> projected[i].amount >= 0.0
    ensures var m := Month(MonthEvents(events, projected, first, last), checkingFloor, skipped);
      && GoodMonth(m, ts)
      && (forall d :: d in events && first <= d.date <= last ==> d in m.deposits)
      && (forall d :: d in m.deposits ==> d in projected || (d in events && first <= d.date <= last))
  {
    var ours := Filter(events, Within(first, last));
    FilterIs(events, Within(first, last));
    var ds := if ours == [] then projected else ours;
    InDateOrderSorts(ds);
    SameMultiset(InDateOrder(ds), ds);
    forall i | 0 <= i < |InDateOrder(ds)|
      ensures InDateOrder(ds)[i].amount >= 0.0
    {
      assert InDateOrder(ds)[i] in ds;
    }
  }

  ghost predicate SameButFunded(now: seq<Target>, ts: seq<Target>) {
    |now| == |ts| && forall x :: 0 <= x < |ts| ==> now[x] == ts[x].(funded := now[x].funded)
  }

  lemma GoodNow(now: seq<Target>, ts: seq<Target>)
    requires GoodTargets(ts) && SameButFunded(now, ts)
    ensures GoodTargets(now)
  {
    forall i, j | 0 <= i < j < |now|
      ensures now[i].policyId != now[j].policyId
    {
      assert now[i].policyId == ts[i].policyId && now[j].policyId == ts[j].policyId;
    }
  }

  lemma CommitKeeps(now: seq<Target>, ts: seq<Target>, rows: seq<Allocation>)
    requires SameButFunded(now, ts) && NonNegative(rows)
    ensures SameButFunded(Commit(now, rows), ts)
  {
    forall x | 0 <= x < |ts|
      ensures Commit(now, rows)[x] == ts[x].(funded := Commit(now, rows)[x].funded)
    {
      CommitAt(now, rows, x);
    }
  }

  lemma {:induction false} LedgerGood(m: Month, ts: seq<Target>, i: nat)
    requires GoodMonth(m, ts) && i <= |m.deposits|
    ensures SameButFunded(Ledger(m, ts, i), ts) && GoodTargets(Ledger(m, ts, i))
    decreases i, 0
  {
    hide Paycheck;
    if i > 0 {
      RunLaws(m, ts, i - 1);
      CommitKeeps(Ledger(m, ts, i - 1), ts, Run(m, ts, i - 1).rows);
    }
    GoodNow(Ledger(m, ts, i), ts);
  }

  /** Every run of the month obeys the laws of one paycheck. */
  lemma RunLaws(m: Month, ts: seq<Target>, i: nat)
    requires GoodMonth(m, ts) && i < |m.deposits|
    ensures var b, now := Run(m, ts, i), Ledger(m, ts, i);
      && SameButFunded(now, ts) && GoodTargets(now)
      && Sound(b, m.deposits[i].amount) && OneEach(b.rows) && NonNegative(b.rows)
      && (forall k :: 0 <= k < |b.rows| ==> FromPlan(b.rows[k], now, FloorOf(now, m.checkingFloor)))
    decreases i, 1
  {
    hide Paycheck;
    LedgerGood(m, ts, i);
    var now := Ledger(m, ts, i);
    PaycheckLaws(DayOf(m, i), FloorOf(now, m.checkingFloor), now, m.deposits[i].amount);
  }

  lemma LedgerStep(m: Month, ts: seq<Target>, i: nat, x: nat)
    requires GoodMonth(m, ts) && i < |m.deposits| && x < |ts|
    ensures Ledger(m, ts, i + 1)[x].funded
         == Ledger(m, ts, i)[x].funded + Given(Run(m, ts, i).rows, ts[x].policyId)
    ensures Given(Run(m, ts, i).rows, ts[x].policyId) >= 0.0
  {
    hide Paycheck;
    RunLaws(m, ts, i);
    CommitAt(Ledger(m, ts, i), Run(m, ts, i).rows, x);
    GivenNonNegative(Run(m, ts, i).rows, ts[x].policyId);
  }

  /** A row in a run never gives a target more than it still lacked. */
  lemma GivenWithinRemaining(m: Month, ts: seq<Target>, i: nat, x: nat)
    requires GoodMonth(m, ts) && i < |m.deposits| && x < |ts|
    ensures 0.0 <= Given(Run(m, ts, i).rows, ts[x].policyId) <= Ledger(m, ts, i)[x].Remaining()
  {
    hide Paycheck;
    RunLaws(m, ts, i);
    LedgerStep(m, ts, i, x);
    var rows, now, id := Run(m, ts, i).rows, Ledger(m, ts, i), ts[x].policyId;
    if k :| 0 <= k < |rows| && rows[k].policyId == id {
      GivenOnce(rows, k);
      assert FromPlan(rows[k], now, FloorOf(now, m.checkingFloor));
      var t :| t in now && RowFor(rows[k], t);
      SameId(now, t, now[x]);
      assert RowOk(rows[k]);
    } else {
      GivenNothing(rows, id);
    }
  }

  /** Over the whole month, funding only grows and no target passes max(target, prior funding). */
  lemma {:induction false} NeverOverfunded(m: Month, ts: seq<Target>, i: nat, x: nat)
    requires GoodMonth(m, ts) && i <= |m.deposits| && x < |ts|
    ensures ts[x].funded <= Ledger(m, ts, i)[x].funded
    ensures Ledger(m, ts, i)[x].funded <= ts[x].funded || Ledger(m, ts, i)[x].funded <= ts[x].target
  {
    hide Paycheck, Commit;
    if i > 0 {
      NeverOverfunded(m, ts, i - 1, x);
      LedgerGood(m, ts, i - 1);
      LedgerStep(m, ts, i - 1, x);
      GivenWithinRemaining(m, ts, i - 1, x);
    }
  }

  // ---- conservation ---------------------------------------------------

  function FundedTotal(ts: seq<Target>): real {
    if ts == [] then 0.0 else ts[0].funded + FundedTotal(ts[1..])
  }

  lemma {:induction false} FundedTotalUpdate(ts: seq<Target>, us: seq<Target>, x: nat, amount: real)
    requires |us| == |ts| && x < |ts|
    requires us[x].funded == ts[x].funded + amount
    requires forall y :: 0 <= y < |ts| && y != x ==> us[y].funded == ts[y].funded
    ensures FundedTotal(us) == FundedTotal(ts) + amount
  {
    if x == 0 {
      SameFunding(ts[1..], us[1..]);
    } else {
      FundedTotalUpdate(ts[1..], us[1..], x - 1, amount);
    }
  }

  lemma {:induction false} SameFunding(ts: seq<Target>, us: seq<Target>)
    requires |us| == |ts| && forall y :: 0 <= y < |ts| ==> us[y].funded == ts[y].funded
    ensures FundedTotal(us) == FundedTotal(ts)
  {
    if ts != [] {
      SameFunding(ts[1..], us[1..]);
    }
  }

  lemma CreditAt(ts: seq<Target>, r: Allocation)
    requires r.amount >= 0.0
    ensures var us := CreditRow(ts, r);
      forall y :: 0 <= y < |ts| ==>
        us[y] == ts[y].(funded := ts[y].funded + if ts[y].policyId == r.policyId then r.amount else 0.0)
  {
  }

  lemma CreditTotal(ts: seq<Target>, r: Allocation)
    requires GoodTargets(ts) && r.amount >= 0.0
    requires r.policyId == "floor" || exists x :: 0 <= x < |ts| && ts[x].policyId == r.policyId
    ensures FundedTotal(CreditRow(ts, r))
         == FundedTotal(ts) + if r.policyId == "floor" then 0.0 else r.amount
    ensures GoodTargets(CreditRow(ts, r))
  {
    var us := CreditRow(ts, r);
    hide CreditRow, FundedTotal;
    CreditAt(ts, r);
    if r.policyId == "floor" {
      SameFunding(ts, us);
    } else {
      var x :| 0 <= x < |ts| && ts[x].policyId == r.policyId;
      FundedTotalUpdate(ts, us, x, r.amount);
    }
  }

  lemma {:induction false} CommitConserves(ts: seq<Target>, rows: seq<Allocation>)
    requires GoodTargets(ts) && NonNegative(rows)
    requires forall k :: 0 <= k < |rows| ==>
      rows[k].policyId == "floor" || exists x :: 0 <= x < |ts| && ts[x].policyId == rows[k].policyId
    ensures FundedTotal(Commit(ts, rows)) + Given(rows, "floor") == FundedTotal(ts) + SumAmounts(rows)
    decreases |rows|
  {
    if rows != [] {
      var next := CreditRow(ts, rows[0]);
      CreditTotal(ts, rows[0]);
      forall k | 0 <= k < |rows[1..]|
        ensures rows[1..][k].policyId == "floor" || exists x :: 0 <= x < |next| && next[x].policyId == rows[1..][k].policyId
      {
        assert rows[1..][k] == rows[k + 1];
        if rows[k + 1].policyId != "floor" {
          var x :| 0 <= x < |ts| && ts[x].policyId == rows[k + 1].policyId;
          assert next[x].policyId == ts[x].policyId;
        }
      }
      CommitConserves(next, rows[1..]);
    }
  }

  function Deposited(ds: seq<Deposit>, n: nat): real
    requires n <= |ds|
  {
    if n == 0 then 0.0 else Deposited(ds, n - 1) + ds[n - 1].amount
  }

  /** Cash left in checking, spent on no target: the floor holds and the leftovers. */
  function Kept(m: Month, ts: seq<Target>, n: nat): real
    requires n <= |m.deposits|
  {
    if n == 0 then 0.0
    else Kept(m, ts, n - 1) + Run(m, ts, n - 1).cash + Given(Run(m, ts, n - 1).rows, "floor")
  }

  lemma RowsNamed(now: seq<Target>, rows: seq<Allocation>, floor: real)
    requires forall k :: 0 <= k < |rows| ==> FromPlan(rows[k], now, floor)
    ensures forall k :: 0 <= k < |rows| ==>
      rows[k].policyId == "floor" || exists x :: 0 <= x < |now| && now[x].policyId == rows[k].policyId
  {
    forall k | 0 <= k < |rows|
      ensures rows[k].policyId == "floor" || exists x :: 0 <= x < |now| && now[x].policyId == rows[k].policyId
    {
      assert FromPlan(rows[k], now, floor);
      if rows[k].policyId != "floor" {
        var t :| t in now && RowFor(rows[k], t);
      }
    }
  }

  /** Every cent deposited is in a target's funding or still in checking, after any number of deposits. */
  lemma {:induction false} MonthConserves(m: Month, ts: seq<Target>, n: nat)
    requires GoodMonth(m, ts) && n <= |m.deposits|
    ensures FundedTotal(Ledger(m, ts, n)) + Kept(m, ts, n) == FundedTotal(ts) + Deposited(m.deposits, n)
  {
    hide Paycheck;
    if n > 0 {
      MonthConserves(m, ts, n - 1);
      RunLaws(m, ts, n - 1);
      var now, rows := Ledger(m, ts, n - 1), Run(m, ts, n - 1).rows;
      RowsNamed(now, rows, FloorOf(now, m.checkingFloor));
      CommitConserves(now, rows);
    }
  }
}
