/** Precedence: required and protected money before the optional percentage rules, per deposit and per month. */
module AllocatorPrecedence {
  import opened Prelude
  import opened Allocator
  import opened AllocatorLaws
  import opened AllocatorMonth
  import opened AllocatorDeadlines

  // ---- one deposit ----------------------------------------------------

  ghost predicate ElasticRow(r: Allocation, ts: seq<Target>) {
    exists t :: t in ts && t.policyId == r.policyId && Elastic(t)
  }

  lemma RowKind(r: Allocation, us: seq<Target>, ts: seq<Target>)
    requires GoodTargets(ts) && (forall t :: t in us ==> t in ts) && Writes(r, us)
    ensures (forall t :: t in us ==> Elastic(t)) ==> ElasticRow(r, ts)
    ensures (forall t :: t in us ==> !Elastic(t)) ==> !ElasticRow(r, ts)
  {
    var t :| t in us && RowFor(r, t);
    assert t in ts;
    if ElasticRow(r, ts) {
      var s :| s in ts && s.policyId == r.policyId && Elastic(s);
      SameId(ts, s, t);
    }
  }

  /** Where the elastic rules start in the saved order. */
  lemma FirstElastic(us: seq<Target>) returns (e: nat)
    requires IsSorted(us, RestLeq)
    ensures e <= |us|
    ensures forall t :: t in us[..e] ==> !Elastic(t)
    ensures forall t :: t in us[e..] ==> Elastic(t)
  {
    e := 0;
    while e < |us| && !Elastic(us[e])
      invariant e <= |us| && forall t :: t in us[..e] ==> !Elastic(t)
    {
      e := e + 1;
    }
    forall t | t in us[e..]
      ensures Elastic(t)
    {
      var j :| e <= j < |us| && us[j] == t;
      assert e < j ==> RestLeq(us[e], us[j]);
    }
  }

  /** Rows of elastic percentage rules come after every other row. */
  lemma ElasticLast(day: Day, floor: real, ts: seq<Target>, available: real) returns (n: nat)
    requires GoodTargets(ts) && available >= 0.0
    ensures var b := Paycheck(day, floor, ts, available);
      && n <= |b.rows|
      && (forall k :: 0 <= k < n ==> !ElasticRow(b.rows[k], ts))
      && (forall k :: n <= k < |b.rows| ==> ElasticRow(b.rows[k], ts))
  {
    UrgentPass(day, ts, available);
    FloorPass(day, floor, ts, available);
    LaterPass(day, floor, ts, available);
    RestPass(day, floor, ts, available);
    var u, f, l, b := AfterUrgent(day, ts, available), AfterFloor(day, floor, ts, available),
      AfterLater(day, floor, ts, available), Paycheck(day, floor, ts, available);
    var us := RestList(ts, l.rows);
    var e := FirstElastic(us);
    PassSplit(day, Rest, us, e, l);
    var mid := RunPass(day, Rest, us[..e], l);
    PassSound(day, Rest, us[..e], l, available);
    PassSound(day, Rest, us[e..], mid, available);
    n := |mid.rows|;
    forall k | 0 <= k < |b.rows|
      ensures if k < n then !ElasticRow(b.rows[k], ts) else ElasticRow(b.rows[k], ts)
    {
      if k < |u.rows| {
        UrgentRowsKept(day, floor, ts, available);
        RowKind(b.rows[k], UrgentList(day, ts), ts);
      } else if k < |f.rows| {
        assert b.rows[k] == mid.rows[k] == l.rows[k] == f.rows[k];
      } else if k < |l.rows| {
        assert b.rows[k] == mid.rows[k] == l.rows[k];
        RowKind(b.rows[k], LaterList(day, ts), ts);
      } else if k < n {
        assert b.rows[k] == mid.rows[k];
        RowKind(b.rows[k], us[..e], ts);
      } else {
        RowKind(b.rows[k], us[e..], ts);
      }
    }
  }

  /**
   * Precedence: if an optional percentage rule gets anything from a deposit, every other row of
   * that deposit got all it asked for, the floor included, unless it was deferred or skipped.
   */
  lemma Precedence(day: Day, floor: real, ts: seq<Target>, available: real, i: nat, j: nat)
    requires GoodTargets(ts) && available >= 0.0
    requires var rows := Paycheck(day, floor, ts, available).rows;
      i < |rows| && j < |rows| && ElasticRow(rows[j], ts) && rows[j].amount > 0.0 && !ElasticRow(rows[i], ts)
    ensures var r := Paycheck(day, floor, ts, available).rows[i];
      r.amount == r.requested || r.status.Deferred? || r.status.Paused?
  {
    var n := ElasticLast(day, floor, ts, available);
    PaycheckLaws(day, floor, ts, available);
  }

  // ---- a month --------------------------------------------------------

  /** Some optional percentage rule got money from deposit j. */
  ghost predicate PaidElastic(m: Month, ts: seq<Target>, j: nat)
    requires j < |m.deposits|
  {
    exists i :: 0 <= i < |Run(m, ts, j).rows| && Run(m, ts, j).rows[i].amount > 0.0 && ElasticRow(Run(m, ts, j).rows[i], ts)
  }

  /** Some optional percentage rule got money from one of the first n deposits. */
  ghost predicate PaidElasticBefore(m: Month, ts: seq<Target>, n: nat) {
    exists j :: 0 <= j < n && j < |m.deposits| && PaidElastic(m, ts, j)
  }

  lemma StaysElastic(r: Allocation, us: seq<Target>, vs: seq<Target>)
    requires |us| == |vs| && forall x :: 0 <= x < |us| ==> us[x] == vs[x].(funded := us[x].funded)
    ensures ElasticRow(r, us) ==> ElasticRow(r, vs)
  {
    if ElasticRow(r, us) {
      var t :| t in us && t.policyId == r.policyId && Elastic(t);
      var x :| 0 <= x < |us| && us[x] == t;
      assert vs[x] in vs && Elastic(vs[x]);
    }
  }

  lemma SameElastic(r: Allocation, now: seq<Target>, ts: seq<Target>)
    requires SameButFunded(now, ts)
    ensures ElasticRow(r, now) <==> ElasticRow(r, ts)
  {
    hide ElasticRow;
    forall x | 0 <= x < |ts|
      ensures ts[x] == now[x].(funded := ts[x].funded)
    {
      assert now[x] == ts[x].(funded := now[x].funded);
    }
    StaysElastic(r, now, ts);
    StaysElastic(r, ts, now);
  }

  /** Where a percentage rule is paid, a target that was given all the cash could give is filled. */
  lemma FilledFirst(m: Month, ts: seq<Target>, x: nat, k: nat, q: nat, p: Pass, cash: real)
    requires GoodMonth(m, ts) && x < |ts| && k < |m.deposits| && !Elastic(ts[x]) && PaidElastic(m, ts, k)
    requires q < |Run(m, ts, k).rows| && FullRow(Run(m, ts, k).rows[q], p, Ledger(m, ts, k)[x], cash)
    ensures Run(m, ts, k).rows[q].amount == Ledger(m, ts, k)[x].Remaining()
  {
    hide Paycheck, Commit, Ledger, ElasticRow;
    var now, rows := Ledger(m, ts, k), Run(m, ts, k).rows;
    LedgerGood(m, ts, k);
    var i :| 0 <= i < |rows| && rows[i].amount > 0.0 && ElasticRow(rows[i], ts);
    SameElastic(rows[i], now, ts);
    NotElastic(rows[q], now, x);
    Precedence(DayOf(m, k), FloorOf(now, m.checkingFloor), now, m.deposits[k].amount, q, i);
  }

  lemma NotElastic(r: Allocation, now: seq<Target>, x: nat)
    requires GoodTargets(now) && x < |now| && r.policyId == now[x].policyId && !Elastic(now[x])
    ensures !ElasticRow(r, now)
  {
    forall t | t in now && t.policyId == r.policyId
      ensures t == now[x]
    {
      SameId(now, t, now[x]);
    }
  }

  /** Row q gave target x what `before` leaves of deposit k: when that is enough, and when it keeps precedence. */
  lemma FirstExactly(m: Month, ts: seq<Target>, x: nat, k: nat, q: nat, p: Pass, before: real)
    requires GoodMonth(m, ts) && x < |ts| && k < |m.deposits| && !Elastic(ts[x])
    requires Ledger(m, ts, k)[x].funded < ts[x].target
    requires q < |Run(m, ts, k).rows|
    requires FullRow(Run(m, ts, k).rows[q], p, Ledger(m, ts, k)[x], Positive(m.deposits[k].amount - before))
    ensures (PaidElasticBefore(m, ts, k + 1) ==> Ledger(m, ts, k + 1)[x].funded >= ts[x].target)
      <==> (PaidElasticBefore(m, ts, k) ==> m.deposits[k].amount >= before + Ledger(m, ts, k)[x].Remaining())
  {
    hide Paycheck, Commit, Ledger, PaidElastic;
    var now, rows := Ledger(m, ts, k), Run(m, ts, k).rows;
    LedgerGood(m, ts, k);
    LedgerStep(m, ts, k, x);
    RunLaws(m, ts, k);
    GivenOnce(rows, q);
    if PaidElastic(m, ts, k) {
      FilledFirst(m, ts, x, k, q, p, Positive(m.deposits[k].amount - before));
    }
  }

  /**
   * A dated required or protected target that its deadline deposit k still finds lacking, at place h
   * of the urgent list: a percentage rule paid up to k means it is filled exactly when, if one was
   * paid before k, deposit k covers the claims up to and including its own.
   */
  lemma DatedFirstExactly(m: Month, ts: seq<Target>, x: nat, k: nat) returns (h: nat)
    requires GoodMonth(m, ts) && x < |ts|
    requires ts[x].due.Some? && (ts[x].required || ts[x].protected)
    requires IsDeadlineDeposit(m.deposits, ts[x].due.value, k)
    requires !Skipped(DayOf(m, k), ts[x]) && Ledger(m, ts, k)[x].funded < ts[x].target
    ensures var day, us := DayOf(m, k), UrgentList(DayOf(m, k), Ledger(m, ts, k));
      && h < |us| && us[h] == Ledger(m, ts, k)[x]
      && ((PaidElasticBefore(m, ts, k + 1) ==> Ledger(m, ts, k + 1)[x].funded >= ts[x].target)
          <==> (PaidElasticBefore(m, ts, k) ==> m.deposits[k].amount >= Claims(day, us[..h + 1])))
  {
    hide Paycheck, Commit, Ledger, UrgentList, DayOf, PaidElasticBefore, FullRow;
    var now, day := Ledger(m, ts, k), DayOf(m, k);
    var us := UrgentList(day, now);
    LedgerGood(m, ts, k);
    UrgentNow(m, ts, x, k);
    UrgentPass(day, now, m.deposits[k].amount);
    assert now[x] in us;
    h :| 0 <= h < |us| && us[h] == now[x];
    var q := UrgentRowKept(day, FloorOf(now, m.checkingFloor), now, m.deposits[k].amount, h);
    ClaimsSplit(day, us, h);
    FirstExactly(m, ts, x, k, q, Urgent, Claims(day, us[..h]));
  }

  // ---- the last deposits pay everything in one line -------------------

  /** What the urgent claims and the floor take before the other required targets. */
  function FloorClaims(day: Day, floor: real, ts: seq<Target>): real {
    Claims(day, UrgentList(day, ts)) + Positive(floor)
  }

  lemma FloorLeaves(day: Day, floor: real, ts: seq<Target>, available: real)
    requires available >= 0.0
    ensures AfterFloor(day, floor, ts, available).cash == Positive(available - FloorClaims(day, floor, ts))
  {
    hide UrgentList, RunPass, Claims;
    CashAfter(day, Urgent, UrgentList(day, ts), Book(available, []));
  }

  lemma LaterLeaves(day: Day, floor: real, ts: seq<Target>, available: real)
    requires available >= 0.0 && day.after == 0
    ensures AfterLater(day, floor, ts, available).cash
         == Positive(available - FloorClaims(day, floor, ts) - Claims(day, LaterList(day, ts)))
  {
    hide UrgentList, LaterList, RunPass, Claims, FloorClaims, AfterFloor;
    FloorLeaves(day, floor, ts, available);
    CashAfter(day, Later, LaterList(day, ts), AfterFloor(day, floor, ts, available));
  }

  /** The row of a required target without a deadline, as it stands in the finished paycheck. */
  lemma LaterRowKept(day: Day, floor: real, ts: seq<Target>, available: real, h: nat) returns (q: nat)
    requires GoodTargets(ts) && available >= 0.0 && day.after == 0
    requires h < |LaterList(day, ts)| && !Skipped(day, LaterList(day, ts)[h])
    ensures var us, rows := LaterList(day, ts), Paycheck(day, floor, ts, available).rows;
      && q < |rows|
      && FullRow(rows[q], Later, us[h], Positive(available - (FloorClaims(day, floor, ts) + Claims(day, us[..h]))))
  {
    hide UrgentList, LaterList, RestList, RunPass, Claims, FloorClaims, AfterFloor, Skipped, FullRow, Sound;
    var us, f := LaterList(day, ts), AfterFloor(day, floor, ts, available);
    FloorPass(day, floor, ts, available);
    LaterPass(day, floor, ts, available);
    RestPass(day, floor, ts, available);
    FloorLeaves(day, floor, ts, available);
    q := PassRow(day, Later, us, f, available, h);
    PositiveTwice(available - FloorClaims(day, floor, ts), Claims(day, us[..h]));
    assert Paycheck(day, floor, ts, available).rows[q] == AfterLater(day, floor, ts, available).rows[q];
  }

  lemma PositiveTwice(a: real, b: real)
    requires b >= 0.0
    ensures Positive(Positive(a) - b) == Positive(a - b)
  {
  }

  /** The row of a target of the last pass, as it stands in the finished paycheck. */
  lemma RestRowKept(day: Day, floor: real, ts: seq<Target>, available: real, h: nat) returns (q: nat)
    requires GoodTargets(ts) && available >= 0.0 && day.after == 0
    requires var us := RestList(ts, AfterLater(day, floor, ts, available).rows);
      h < |us| && !Skipped(day, us[h])
    ensures var us, rows := RestList(ts, AfterLater(day, floor, ts, available).rows), Paycheck(day, floor, ts, available).rows;
      && q < |rows|
      && FullRow(rows[q], Rest, us[h], Positive(available
           - (FloorClaims(day, floor, ts) + Claims(day, LaterList(day, ts)) + Claims(day, us[..h]))))
  {
    hide UrgentList, LaterList, RestList, RunPass, Claims, FloorClaims, AfterLater, Skipped, FullRow, Sound;
    var l := AfterLater(day, floor, ts, available);
    var us := RestList(ts, l.rows);
    LaterPass(day, floor, ts, available);
    RestPass(day, floor, ts, available);
    LaterLeaves(day, floor, ts, available);
    q := PassRow(day, Rest, us, l, available, h);
    PositiveTwice(available - FloorClaims(day, floor, ts) - Claims(day, LaterList(day, ts)), Claims(day, us[..h]));
  }

  /** The last deposit is such a deposit. */
  lemma LastPaysAll(m: Month, ts: seq<Target>)
    requires GoodMonth(m, ts) && m.deposits != []
    ensures DayOf(m, |m.deposits| - 1).after == 0
  {
    var dates := Dates(m.deposits);
    var last := dates[|dates| - 1];
    FilterIs(dates, (d: int) => d > last);
    if LaterDates(dates, last) != [] {
      HeadIn(LaterDates(dates, last));
    }
  }

  /**
   * A required target that is not urgent, undated ones included, still lacking at a deposit k with no
   * later date: the same, with the urgent claims and the floor ahead of it.
   */
  lemma RequiredFirstExactly(m: Month, ts: seq<Target>, x: nat, k: nat) returns (h: nat)
    requires GoodMonth(m, ts) && x < |ts| && k < |m.deposits| && DayOf(m, k).after == 0
    requires ts[x].required && !IsUrgent(DayOf(m, k), ts[x])
    requires !Skipped(DayOf(m, k), ts[x]) && Ledger(m, ts, k)[x].funded < ts[x].target
    ensures var day, now := DayOf(m, k), Ledger(m, ts, k);
      var us := LaterList(day, now);
      && h < |us| && us[h] == now[x]
      && ((PaidElasticBefore(m, ts, k + 1) ==> Ledger(m, ts, k + 1)[x].funded >= ts[x].target)
          <==> (PaidElasticBefore(m, ts, k) ==>
                m.deposits[k].amount >= FloorClaims(day, FloorOf(now, m.checkingFloor), now) + Claims(day, us[..h + 1])))
  {
    hide Paycheck, Commit, Ledger, LaterList, DayOf, PaidElasticBefore, FullRow, FloorClaims, FloorOf;
    var now, day := Ledger(m, ts, k), DayOf(m, k);
    var us, floor := LaterList(day, now), FloorOf(now, m.checkingFloor);
    LedgerGood(m, ts, k);
    LaterPass(day, floor, now, m.deposits[k].amount);
    assert LaterTest(day)(now[x]);
    assert now[x] in us;
    h :| 0 <= h < |us| && us[h] == now[x];
    var q := LaterRowKept(day, floor, now, m.deposits[k].amount, h);
    ClaimsSplit(day, us, h);
    FirstExactly(m, ts, x, k, q, Later, FloorClaims(day, floor, now) + Claims(day, us[..h]));
  }

  /** A protected reserve that is neither urgent nor required: the same, behind all required targets. */
  lemma ReserveFirstExactly(m: Month, ts: seq<Target>, x: nat, k: nat) returns (h: nat)
    requires GoodMonth(m, ts) && x < |ts| && k < |m.deposits| && DayOf(m, k).after == 0
    requires ts[x].protected && !ts[x].required && !IsUrgent(DayOf(m, k), ts[x])
    requires !Skipped(DayOf(m, k), ts[x]) && Ledger(m, ts, k)[x].funded < ts[x].target
    ensures var day, now := DayOf(m, k), Ledger(m, ts, k);
      var floor := FloorOf(now, m.checkingFloor);
      var us := RestList(now, AfterLater(day, floor, now, m.deposits[k].amount).rows);
      && h < |us| && us[h] == now[x]
      && ((PaidElasticBefore(m, ts, k + 1) ==> Ledger(m, ts, k + 1)[x].funded >= ts[x].target)
          <==> (PaidElasticBefore(m, ts, k) ==>
                m.deposits[k].amount >= FloorClaims(day, floor, now) + Claims(day, LaterList(day, now)) + Claims(day, us[..h + 1])))
  {
    hide Paycheck, Commit, Ledger, LaterList, RestList, DayOf, PaidElasticBefore, FullRow, FloorClaims, FloorOf, AfterLater;
    var now, day := Ledger(m, ts, k), DayOf(m, k);
    var floor := FloorOf(now, m.checkingFloor);
    var l := AfterLater(day, floor, now, m.deposits[k].amount);
    var us := RestList(now, l.rows);
    LedgerGood(m, ts, k);
    RestPass(day, floor, now, m.deposits[k].amount);
    WaitsForRest(day, floor, now, m.deposits[k].amount, x);
    assert RestTest(l.rows)(now[x]);
    assert now[x] in us;
    h :| 0 <= h < |us| && us[h] == now[x];
    var q := RestRowKept(day, floor, now, m.deposits[k].amount, h);
    ClaimsSplit(day, us, h);
    FirstExactly(m, ts, x, k, q, Rest, FloorClaims(day, floor, now) + Claims(day, LaterList(day, now)) + Claims(day, us[..h]));
  }

  // ---- an instance ----------------------------------------------------

  /** A required bill of 150 due on day 20, with this much funded. */
  function LateBill(funded: real): Target {
    Target("bill", "bill", Bill, 150.0, Some(20), 1, true, false, false, false, funded)
  }

  /** A percentage rule for 100. */
  function Rule(funded: real): Target {
    Target("rule", "rule", Goal, 100.0, None, 2, false, false, true, false, funded)
  }

  /** Deposits of 100 on day 0 and on day 10. */
  function TwoDeposits(): Month {
    Month([Deposit(0, 100.0), Deposit(10, 100.0)], None, (id: string, d: int) => false)
  }

  lemma TwoDays()
    ensures var m := TwoDeposits();
      && DayOf(m, 0) == Day(0, Some(10), 1, m.skipped)
      && DayOf(m, 1) == Day(10, None, 0, m.skipped)
  {
    var dates := [0, 10];
    assert Dates(TwoDeposits().deposits) == dates && dates[1..] == [10];
    assert LaterDates(dates, 0) == [10];
    assert LaterDates(dates, 10) == [];
  }

  lemma PairFilter(a: Target, b: Target, keep: Target -> bool)
    ensures Filter([a, b], keep) == if keep(a) then (if keep(b) then [a, b] else [a]) else if keep(b) then [b] else []
  {
    assert [a, b][1..] == [b];
    assert Filter([b], keep) == if keep(b) then [b] else [];
  }

  lemma OneSorted(a: Target, leq: (Target, Target) -> bool)
    ensures SortBy([], leq) == [] && SortBy([a], leq) == [a]
  {
  }

  lemma FirstDeposit(day: Day)
    requires day == DayOf(TwoDeposits(), 0)
    ensures Paycheck(day, 0.0, [LateBill(0.0), Rule(0.0)], 100.0).rows
      == [Allocation("bill", Bill, 0.0, Deferred, DueThisPeriod, Some(20), 150.0),
          Allocation("rule", Goal, 50.0, Funded, Discretionary, None, 50.0)]
  {
    TwoDays();
    var a, b := LateBill(0.0), Rule(0.0);
    var later := Book(100.0, [Allocation("bill", Bill, 0.0, Deferred, DueThisPeriod, Some(20), 150.0)]);
    hide Filter, SortBy;
    PairFilter(a, b, UrgentTest(day));
    PairFilter(a, b, LaterTest(day));
    OneSorted(a, DueLeq);
    assert UrgentList(day, [a, b]) == [] && LaterList(day, [a, b]) == [a];
    assert AfterFloor(day, 0.0, [a, b], 100.0) == Book(100.0, []) && [a][1..] == [];
    assert Step(day, Later, a, Book(100.0, [])) == later;
    assert RunPass(day, Later, [a], Book(100.0, [])) == later;
    assert AfterLater(day, 0.0, [a, b], 100.0) == later;
    assert HasRow(later.rows, "bill") by { assert later.rows[0] in later.rows; }
    PairFilter(a, b, RestTest(later.rows));
    OneSorted(b, RestLeq);
    assert RestList([a, b], later.rows) == [b];
    assert ShareForThisPaycheck(b, 1) == 50.0;
  }

  lemma SecondDeposit(day: Day)
    requires day == DayOf(TwoDeposits(), 1)
    ensures Paycheck(day, 0.0, [LateBill(0.0), Rule(50.0)], 100.0).rows
      == [Allocation("bill", Bill, 100.0, Partial, DueBeforeNextIncome, Some(20), 150.0),
          Allocation("rule", Goal, 0.0, UnfundedShortfall, Discretionary, None, 50.0)]
  {
    TwoDays();
    var a, b := LateBill(0.0), Rule(50.0);
    var urgent := Book(0.0, [Allocation("bill", Bill, 100.0, Partial, DueBeforeNextIncome, Some(20), 150.0)]);
    hide Filter, SortBy;
    PairFilter(a, b, UrgentTest(day));
    PairFilter(a, b, LaterTest(day));
    OneSorted(a, DueLeq);
    assert UrgentList(day, [a, b]) == [a] && LaterList(day, [a, b]) == [];
    assert [a][1..] == [];
    assert Step(day, Urgent, a, Book(100.0, [])) == urgent;
    assert RunPass(day, Urgent, [a], Book(100.0, [])) == urgent;
    assert AfterLater(day, 0.0, [a, b], 100.0) == urgent;
    assert HasRow(urgent.rows, "bill") by { assert urgent.rows[0] in urgent.rows; }
    PairFilter(a, b, RestTest(urgent.rows));
    OneSorted(b, RestLeq);
    assert RestList([a, b], urgent.rows) == [b];
  }

  lemma PairCommit(a: Target, b: Target, r: Allocation, s: Allocation)
    requires r.policyId == a.policyId != b.policyId == s.policyId && r.amount >= 0.0 && s.amount >= 0.0
    ensures Commit([a, b], [r, s]) == [a.(funded := a.funded + r.amount), b.(funded := b.funded + s.amount)]
  {
    CommitAt([a, b], [r, s], 0);
    CommitAt([a, b], [r, s], 1);
    assert [r, s][1..] == [s] && [s][1..] == [];
    assert Given([s], s.policyId) == s.amount && Given([s], r.policyId) == 0.0;
  }

  lemma AfterFirst()
    ensures var m, ts := TwoDeposits(), [LateBill(0.0), Rule(0.0)];
      PaidElastic(m, ts, 0) && Ledger(m, ts, 1) == [LateBill(0.0), Rule(50.0)]
  {
    var m, ts := TwoDeposits(), [LateBill(0.0), Rule(0.0)];
    FirstDeposit(DayOf(m, 0));
    NoBuffer(0.0);
    hide Paycheck, DayOf, Commit;
    assert Ledger(m, ts, 0) == ts;
    var rows := Run(m, ts, 0).rows;
    PairCommit(ts[0], ts[1], rows[0], rows[1]);
    assert ts[1] in ts && ElasticRow(rows[1], ts);
  }

  lemma AfterSecond()
    ensures Ledger(TwoDeposits(), [LateBill(0.0), Rule(0.0)], 2) == [LateBill(100.0), Rule(50.0)]
  {
    var m, ts := TwoDeposits(), [LateBill(0.0), Rule(0.0)];
    AfterFirst();
    SecondDeposit(DayOf(m, 1));
    NoBuffer(50.0);
    NextLedger(m, ts, 1);
    hide Paycheck, DayOf, Commit, PaidElastic, Ledger, Run;
    var rows := Run(m, ts, 1).rows;
    PairCommit(LateBill(0.0), Rule(50.0), rows[0], rows[1]);
  }

  /**
   * The rule gets 50 while the bill waits for the next deposit, which is too small for it: of the
   * 200 deposited the bill ends with 100 of its 150.
   */
  lemma RulePaidBillShort()
    ensures var m, ts := TwoDeposits(), [LateBill(0.0), Rule(0.0)];
      GoodMonth(m, ts) && PaidElastic(m, ts, 0) && Ledger(m, ts, 2) == [LateBill(100.0), Rule(50.0)]
  {
    hide PaidElastic, Ledger;
    AfterFirst();
    AfterSecond();
  }

  lemma NextLedger(m: Month, ts: seq<Target>, i: nat)
    requires i < |m.deposits|
    ensures var now, run := Ledger(m, ts, i), Run(m, ts, i);
      && run == Paycheck(DayOf(m, i), FloorOf(now, m.checkingFloor), now, m.deposits[i].amount)
      && Ledger(m, ts, i + 1) == Commit(now, run.rows)
  {
  }

  lemma NoBuffer(paid: real)
    ensures FloorOf([LateBill(0.0), Rule(paid)], None) == 0.0
  {
    assert [LateBill(0.0), Rule(paid)][1..] == [Rule(paid)];
    assert FloorFromPolicies([Rule(paid)]) == 0.0;
  }
}
