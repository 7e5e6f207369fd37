/** Deadlines: which deposit must carry a due date, and when it does. */
module AllocatorDeadlines {
  import opened Prelude
  import opened Allocator
  import opened AllocatorLaws
  import opened AllocatorMonth

  // ---- which deposit must carry a due date ----------------------------

  /** The last deposit on or before the due date, or the first one if it is already past. */
  ghost predicate IsDeadlineDeposit(ds: seq<Deposit>, due: int, k: nat) {
    && k < |ds|
    && (k == 0 || ds[k].date <= due)
    && (k + 1 < |ds| ==> due < ds[k + 1].date)
  }

  lemma DeadlineDepositExists(m: Month, ts: seq<Target>, due: int) returns (k: nat)
    requires GoodMonth(m, ts) && m.deposits != []
    ensures IsDeadlineDeposit(m.deposits, due, k)
    ensures forall j :: IsDeadlineDeposit(m.deposits, due, j) ==> j == k
  {
    var ds := m.deposits;
    k := 0;
    while k + 1 < |ds| && ds[k + 1].date <= due
      invariant k < |ds| && (k == 0 || ds[k].date <= due)
    {
      k := k + 1;
    }
  }

  lemma HeadIn(xs: seq<int>)
    requires xs != []
    ensures xs[0] in xs
  {
  }

  lemma LastHasNoNext(m: Month, ts: seq<Target>, i: nat)
    requires GoodMonth(m, ts) && i < |m.deposits|
    ensures DayOf(m, i).next == if i + 1 < |m.deposits| then Some(m.deposits[i + 1].date) else None
  {
    var dates := Dates(m.deposits);
    if i + 1 == |dates| && LaterDates(dates, dates[i]) != [] {
      FilterIs(dates, (d: int) => d > dates[i]);
      HeadIn(LaterDates(dates, dates[i]));
    }
  }

  // ---- the urgent pass is a waterfall ---------------------------------

  function Positive(x: real): real {
    if x >= 0.0 then x else 0.0
  }

  function Claim(day: Day, t: Target): real {
    if Skipped(day, t) then 0.0 else t.Remaining()
  }

  function Claims(day: Day, us: seq<Target>): (r: real)
    ensures r >= 0.0
  {
    if us == [] then 0.0 else Claim(day, us[0]) + Claims(day, us[1..])
  }

  lemma {:induction false} ClaimsSplit(day: Day, us: seq<Target>, p: nat)
    requires p < |us|
    ensures Claims(day, us[..p + 1]) == Claims(day, us[..p]) + Claim(day, us[p])
  {
    if p > 0 {
      assert us[..p + 1][1..] == us[1..][..p] && us[..p][1..] == us[1..][..p - 1];
      ClaimsSplit(day, us[1..], p - 1);
    } else {
      assert us[..1] == [us[0]] && us[..1][1..] == [];
    }
  }

  /** Passes that give each target all it lacks: the urgent one, and every pass of the last deposits. */
  predicate GivesAll(day: Day, p: Pass) {
    p.Urgent? || day.after == 0
  }

  lemma StepCash(day: Day, p: Pass, t: Target, b: Book)
    requires b.cash >= 0.0 && GivesAll(day, p)
    ensures Step(day, p, t, b).cash == Positive(b.cash - Claim(day, t))
  {
    hide Skipped;
  }

  lemma {:induction false} CashAfter(day: Day, p: Pass, us: seq<Target>, b: Book)
    requires b.cash >= 0.0 && GivesAll(day, p)
    ensures RunPass(day, p, us, b).cash == Positive(b.cash - Claims(day, us))
    decreases |us|
  {
    hide Step, Claim, GivesAll;
    if us != [] {
      StepCash(day, p, us[0], b);
      CashAfter(day, p, us[1..], Step(day, p, us[0], b));
    }
  }

  /** The row such a pass writes for a target: everything it lacks, or all the cash in hand. */
  ghost predicate FullRow(r: Allocation, p: Pass, t: Target, cash: real) {
    && RowFor(r, t) && r.requested == t.Remaining() && r.amount == MinReal(t.Remaining(), cash)
    && (p.Urgent? ==> r.urgency.DueBeforeNextIncome?)
    && (r.amount == t.Remaining() || r.status.Partial? || r.status.UnfundedShortfall?)
    && !r.status.Deferred? && !r.status.Paused?
  }

  /** What a step writes for an unskipped target that still lacks something. */
  lemma FullStep(day: Day, p: Pass, t: Target, b: Book)
    requires b.cash >= 0.0 && t.Remaining() > 0.0 && !Skipped(day, t) && GivesAll(day, p)
    ensures var c, q := Step(day, p, t, b), |b.rows|;
      |c.rows| == q + 1 && c.rows[..q] == b.rows && FullRow(c.rows[q], p, t, b.cash)
  {
    hide Skipped;
  }

  lemma RowsKept(b: Book, mid: Book, next: Book, c: Book, us: seq<Target>, rest: seq<Target>)
    requires Continues(b, mid, us) && Continues(next, c, rest)
    requires |next.rows| == |mid.rows| + 1 && next.rows[..|mid.rows|] == mid.rows
    ensures |b.rows| <= |mid.rows| < |c.rows| && c.rows[|mid.rows|] == next.rows[|mid.rows|]
    ensures forall j :: |b.rows| <= j < |mid.rows| ==> Writes(c.rows[j], us)
  {
    forall j | 0 <= j < |mid.rows|
      ensures c.rows[j] == mid.rows[j]
    {
      assert c.rows[..|next.rows|][j] == next.rows[j] == next.rows[..|mid.rows|][j];
    }
    assert c.rows[..|next.rows|][|mid.rows|] == next.rows[|mid.rows|];
  }

  /** The row of the target at position h of a pass, after those before it took theirs. */
  lemma PassRow(day: Day, p: Pass, us: seq<Target>, b: Book, available: real, h: nat) returns (q: nat)
    requires Sound(b, available) && AllRemaining(us) && h < |us| && !Skipped(day, us[h]) && GivesAll(day, p)
    ensures var c := RunPass(day, p, us, b);
      && |b.rows| <= q < |c.rows|
      && FullRow(c.rows[q], p, us[h], Positive(b.cash - Claims(day, us[..h])))
      && (forall j :: |b.rows| <= j < q ==> Writes(c.rows[j], us[..h]))
  {
    var mid := RunPass(day, p, us[..h], b);
    var next := Step(day, p, us[h], mid);
    assert RunPass(day, p, us[h..], mid) == RunPass(day, p, us[h + 1..], next) by {
      assert us[h..][1..] == us[h + 1..];
    }
    assert b.cash >= 0.0;
    hide RunPass, Step, Claims, Sound, Skipped, Continues, Writes, FullRow, GivesAll;
    assert AllRemaining(us[..h]) && AllRemaining(us[h + 1..]);
    assert us[h].Remaining() > 0.0 by { assert us[h] in us; }
    PassSplit(day, p, us, h, b);
    PassSound(day, p, us[..h], b, available);
    CashAfter(day, p, us[..h], b);
    FullStep(day, p, us[h], mid);
    StepSound(day, p, us[h], mid, available);
    PassSound(day, p, us[h + 1..], next, available);
    RowsKept(b, mid, next, RunPass(day, p, us, b), us[..h], us[h + 1..]);
    q := |mid.rows|;
  }

  lemma {:induction false} ShortfallListed(rows: seq<Allocation>, k: nat)
    requires k < |rows| && IsShortfall(rows[k])
    ensures Shortfall(rows[k].policyId, rows[k].requested, rows[k].amount, rows[k].due) in ShortfallsOf(rows)
  {
    if k > 0 {
      ShortfallListed(rows[1..], k - 1);
    }
  }

  // ---- deadline safety ------------------------------------------------

  /** y is due before x, or on the same day with no larger priority number; undated targets come after dated ones. */
  predicate DueNoLater(y: Target, x: Target) {
    match x.due
    case Some(d) => y.due.Some? && (y.due.value < d || (y.due.value == d && y.priority <= x.priority))
    case None => y.due.Some? || y.priority <= x.priority
  }

  predicate Ahead(y: Target, x: Target) {
    (y.required || y.protected) && DueNoLater(y, x)
  }

  /** The deposit left no cash and every positive amount went to a required or protected target due no later. */
  ghost predicate SpentOnEarlier(b: Book, ts: seq<Target>, x: nat)
    requires x < |ts|
  {
    && b.cash == 0.0
    && forall k :: 0 <= k < |b.rows| && b.rows[k].amount > 0.0 ==>
         exists y :: 0 <= y < |ts| && ts[y].policyId == b.rows[k].policyId && Ahead(ts[y], ts[x])
  }

  /** The shortfall register names this target with a positive gap. */
  ghost predicate Registered(rows: seq<Allocation>, id: string) {
    exists s :: s in ShortfallsOf(rows) && s.policyId == id && s.Gap() > 0.0
  }

  /** The target's place in the urgent list of one paycheck and what it got there. */
  lemma UrgentInPaycheck(day: Day, floor: real, ts: seq<Target>, available: real, x: nat) returns (p: nat)
    requires GoodTargets(ts) && available >= 0.0 && x < |ts|
    requires UrgentTest(day)(ts[x]) && !Skipped(day, ts[x])
    ensures p < |UrgentList(day, ts)| && UrgentList(day, ts)[p] == ts[x]
    ensures var b := Paycheck(day, floor, ts, available);
      && Sound(b, available) && OneEach(b.rows)
      && var given := Given(b.rows, ts[x].policyId);
         && given == MinReal(ts[x].Remaining(), Positive(available - Claims(day, UrgentList(day, ts)[..p])))
         && (given < ts[x].Remaining() ==> SpentOnEarlier(b, ts, x) && Registered(b.rows, ts[x].policyId))
  {
    hide Paycheck, UrgentList, Skipped, IsUrgent, AfterUrgent, FromPlan, GoodTargets;
    var us, b := UrgentList(day, ts), Paycheck(day, floor, ts, available);
    UrgentPass(day, ts, available);
    PaycheckLaws(day, floor, ts, available);
    assert ts[x] in us;
    p :| 0 <= p < |us| && us[p] == ts[x];
    var q := UrgentRowKept(day, floor, ts, available, p);
    GivenOnce(b.rows, q);
    if b.rows[q].amount < ts[x].Remaining() {
      ShortfallListed(b.rows, q);
      SpentWhenShort(us, ts, b, available, p, q, x);
    }
  }

  /** The row of the urgent target at position p, as it stands in the finished paycheck. */
  lemma UrgentRowKept(day: Day, floor: real, ts: seq<Target>, available: real, p: nat) returns (q: nat)
    requires GoodTargets(ts) && available >= 0.0
    requires p < |UrgentList(day, ts)| && !Skipped(day, UrgentList(day, ts)[p])
    ensures var us, b := UrgentList(day, ts), Paycheck(day, floor, ts, available);
      && q < |b.rows| && FullRow(b.rows[q], Urgent, us[p], Positive(available - Claims(day, us[..p])))
      && (forall j :: 0 <= j < q ==> Writes(b.rows[j], us[..p]))
  {
    hide Paycheck, UrgentList, Skipped, IsUrgent, RunPass, Writes, FullRow;
    UrgentPass(day, ts, available);
    UrgentRowsKept(day, floor, ts, available);
    q := PassRow(day, Urgent, UrgentList(day, ts), Book(available, []), available, p);
  }

  lemma SpentWhenShort(us: seq<Target>, ts: seq<Target>, b: Book, available: real, p: nat, q: nat, x: nat)
    requires Drawn(us, ts) && IsSorted(us, DueLeq) && Sound(b, available)
    requires forall t :: t in us ==> t.required || t.protected
    requires p < |us| && x < |ts| && us[p] == ts[x]
    requires q < |b.rows| && Short(b.rows[q]) && RowFor(b.rows[q], us[p])
    requires forall k :: 0 <= k < q ==> Writes(b.rows[k], us[..p])
    ensures SpentOnEarlier(b, ts, x)
  {
    forall k | 0 <= k < |b.rows| && b.rows[k].amount > 0.0
      ensures exists y :: 0 <= y < |ts| && ts[y].policyId == b.rows[k].policyId && Ahead(ts[y], ts[x])
    {
      assert k <= q;
      EarlierRow(us, ts, b.rows[k], p, k == q);
    }
  }

  /** The rows of the urgent pass are still there, unchanged, when the paycheck is done. */
  lemma UrgentRowsKept(day: Day, floor: real, ts: seq<Target>, available: real)
    requires GoodTargets(ts) && available >= 0.0
    ensures var u, b := AfterUrgent(day, ts, available), Paycheck(day, floor, ts, available);
      |u.rows| <= |b.rows| && forall k :: 0 <= k < |u.rows| ==> b.rows[k] == u.rows[k]
  {
    FloorPass(day, floor, ts, available);
    LaterPass(day, floor, ts, available);
    RestPass(day, floor, ts, available);
    hide AfterUrgent, RunPass, Hold, LaterList, RestList;
    var u, f, l, b := AfterUrgent(day, ts, available), AfterFloor(day, floor, ts, available),
      AfterLater(day, floor, ts, available), Paycheck(day, floor, ts, available);
    forall k | 0 <= k < |u.rows|
      ensures b.rows[k] == u.rows[k]
    {
      assert b.rows[k] == l.rows[k] == f.rows[k] == f.rows[..|u.rows|][k];
    }
  }

  lemma EarlierRow(us: seq<Target>, ts: seq<Target>, r: Allocation, p: nat, own: bool)
    requires Drawn(us, ts) && IsSorted(us, DueLeq) && p < |us|
    requires forall t :: t in us ==> t.required || t.protected
    requires if own then RowFor(r, us[p]) else Writes(r, us[..p])
    ensures exists y :: 0 <= y < |ts| && ts[y].policyId == r.policyId && Ahead(ts[y], us[p])
  {
    var t := us[p];
    if !own {
      t :| t in us[..p] && RowFor(r, t);
      var i :| 0 <= i < p && us[i] == t;
      assert DueLeq(us[i], us[p]);
    }
    assert t in us && t in ts;
    var y :| 0 <= y < |ts| && ts[y] == t;
  }

  /**
   * Deadline safety over the month. At its deadline deposit, and at every later one, a dated
   * required or protected target that was not skipped is either fully funded, or the deposit was
   * spent to the last cent on targets with an earlier or equal (due date, priority), and the gap is
   * in the shortfall register.
   */
  lemma DeadlineSafety(m: Month, ts: seq<Target>, x: nat, k: nat, i: nat)
    requires GoodMonth(m, ts) && x < |ts|
    requires ts[x].due.Some? && (ts[x].required || ts[x].protected)
    requires IsDeadlineDeposit(m.deposits, ts[x].due.value, k) && k <= i < |m.deposits|
    requires !Skipped(DayOf(m, i), ts[x])
    ensures Ledger(m, ts, i + 1)[x].funded >= ts[x].target
      || (SpentOnEarlier(Run(m, ts, i), ts, x) && Registered(Run(m, ts, i).rows, ts[x].policyId))
  {
    hide Paycheck, Commit;
    var now, day := Ledger(m, ts, i), DayOf(m, i);
    LedgerGood(m, ts, i);
    LedgerStep(m, ts, i, x);
    LastHasNoNext(m, ts, i);
    if now[x].Remaining() > 0.0 {
      assert IsUrgent(day, now[x]);
      var p := UrgentInPaycheck(day, FloorOf(now, m.checkingFloor), now, m.deposits[i].amount, x);
      if Ledger(m, ts, i + 1)[x].funded < ts[x].target {
        SpentOnSame(Run(m, ts, i), now, ts, x);
      }
    }
  }

  lemma SpentOnSame(b: Book, now: seq<Target>, ts: seq<Target>, x: nat)
    requires x < |ts| && SameButFunded(now, ts) && SpentOnEarlier(b, now, x)
    ensures SpentOnEarlier(b, ts, x)
  {
    forall k | 0 <= k < |b.rows| && b.rows[k].amount > 0.0
      ensures exists y :: 0 <= y < |ts| && ts[y].policyId == b.rows[k].policyId && Ahead(ts[y], ts[x])
    {
      var y :| 0 <= y < |now| && now[y].policyId == b.rows[k].policyId && Ahead(now[y], now[x]);
      assert ts[y].policyId == b.rows[k].policyId && Ahead(ts[y], ts[x]);
    }
  }

  /**
   * Exactly when the deadline is met: p is the target's place in the urgent list of its deadline
   * deposit, and the deposit covers the unskipped claims of that list up to and including p.
   */
  lemma DeadlineMetExactly(m: Month, ts: seq<Target>, x: nat, k: nat) returns (p: nat)
    requires GoodMonth(m, ts) && x < |ts|
    requires ts[x].due.Some? && (ts[x].required || ts[x].protected)
    requires IsDeadlineDeposit(m.deposits, ts[x].due.value, k)
    requires !Skipped(DayOf(m, k), ts[x])
    ensures var us := UrgentList(DayOf(m, k), Ledger(m, ts, k));
      if Ledger(m, ts, k)[x].funded >= ts[x].target then Ledger(m, ts, k + 1)[x].funded >= ts[x].target
      else
        && p < |us| && us[p].policyId == ts[x].policyId
        && (Ledger(m, ts, k + 1)[x].funded >= ts[x].target <==> m.deposits[k].amount >= Claims(DayOf(m, k), us[..p + 1]))
  {
    hide Paycheck, Commit, UrgentList, AfterUrgent, DayOf, FloorOf;
    var now, day := Ledger(m, ts, k), DayOf(m, k);
    LedgerGood(m, ts, k);
    LedgerStep(m, ts, k, x);
    p := 0;
    if now[x].funded < ts[x].target {
      UrgentNow(m, ts, x, k);
      p := UrgentInPaycheck(day, FloorOf(now, m.checkingFloor), now, m.deposits[k].amount, x);
      ClaimsSplit(day, UrgentList(day, now), p);
    }
  }

  /** At its deadline deposit a target that still lacks something passes the urgent test. */
  lemma UrgentNow(m: Month, ts: seq<Target>, x: nat, k: nat)
    requires GoodMonth(m, ts) && x < |ts| && k < |m.deposits|
    requires ts[x].due.Some? && (ts[x].required || ts[x].protected)
    requires IsDeadlineDeposit(m.deposits, ts[x].due.value, k)
    ensures var now, day := Ledger(m, ts, k), DayOf(m, k);
      && (now[x].funded < ts[x].target ==> UrgentTest(day)(now[x]))
      && Skipped(day, now[x]) == Skipped(day, ts[x])
  {
    hide Ledger;
    LedgerGood(m, ts, k);
    LastHasNoNext(m, ts, k);
  }
}
