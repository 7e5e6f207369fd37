/** The paycheck and monthly allocation engine. Amounts are exact, in minor units. */
module Allocator {
  import opened Prelude
  import opened Money

  datatype Purpose =
    | RequiredDebt | ExtraPrincipal | CardStatement | Bill | EmergencyReserve | AnnualReserve
    | TaxReserve | Goal | InvestmentCash | Spending | Buffer

  datatype Status = Funded | Partial | Deferred | UnfundedShortfall | Paused

  datatype Urgency = DueBeforeNextIncome | ProtectedFloor | DueThisPeriod | Discretionary

  /** One line of the monthly plan. `percentRule` and `scheduled` come from the policy behind it. */
  datatype Target = Target(
    policyId: string, name: string, purpose: Purpose, target: real, due: Option<int>,
    priority: int, required: bool, protected: bool, percentRule: bool, scheduled: bool,
    funded: real)
  {
    function Remaining(): real {
      if target - funded >= 0.0 then target - funded else 0.0
    }
  }

  datatype Allocation = Allocation(
    policyId: string, purpose: Purpose, amount: real, status: Status, urgency: Urgency,
    due: Option<int>, requested: real)

  datatype Shortfall = Shortfall(policyId: string, needed: real, funded: real, due: Option<int>)
  {
    function Gap(): real {
      if needed - funded >= 0.0 then needed - funded else 0.0
    }
  }

  /** What one deposit knows about its place in the month, and which occurrences the user skipped. */
  datatype Day = Day(payDate: int, next: Option<int>, after: nat, skipped: (string, int) -> bool)

  datatype Deposit = Deposit(date: int, amount: real)

  // ---- helpers of the engine ------------------------------------------

  predicate IsUrgent(day: Day, t: Target) {
    if t.protected && t.purpose.Buffer? then true
    else if t.due.None? then false
    else if day.next.None? then true
    else t.due.value < day.next.value
  }

  function ShareForThisPaycheck(t: Target, after: nat): real {
    if after == 0 then t.Remaining()
    else RoundHalfUp(t.Remaining() / (after + 1) as real) as real
  }

  function FloorFromPolicies(ts: seq<Target>): real {
    if ts == [] then 0.0
    else if ts[0].purpose.Buffer? then ts[0].target
    else FloorFromPolicies(ts[1..])
  }

  function FloorOf(ts: seq<Target>, checkingFloor: Option<real>): real {
    if checkingFloor.Some? then checkingFloor.value else FloorFromPolicies(ts)
  }

  function Filter<T>(xs: seq<T>, keep: T -> bool): seq<T> {
    if xs == [] then []
    else (if keep(xs[0]) then [xs[0]] else []) + Filter(xs[1..], keep)
  }

  function LaterDates(dates: seq<int>, payDate: int): seq<int> {
    Filter(dates, (d: int) => d > payDate)
  }

  function NextIncome(dates: seq<int>, payDate: int, given: Option<int>): Option<int> {
    if given.Some? then given
    else if LaterDates(dates, payDate) == [] then None
    else Some(LaterDates(dates, payDate)[0])
  }

  predicate Skipped(day: Day, t: Target) {
    day.skipped(t.policyId, if t.scheduled && t.due.Some? then t.due.value else day.payDate)
  }

  // ---- what one paycheck does, as a value -----------------------------

  /** Cash still in hand and the rows written so far. */
  datatype Book = Book(cash: real, rows: seq<Allocation>)

  function Write(b: Book, t: Target, amount: real, s: Status, u: Urgency, requested: real): Book {
    Book(b.cash - amount, b.rows + [Allocation(t.policyId, t.purpose, amount, s, u, t.due, requested)])
  }

  function Fund(day: Day, t: Target, u: Urgency, cap: Option<real>, b: Book): Book {
    if Skipped(day, t) then Write(b, t, 0.0, Paused, u, t.Remaining())
    else
      var want := if cap.None? then t.Remaining() else MinReal(t.Remaining(), cap.value);
      if want == 0.0 then b
      else
        var give := MinReal(want, b.cash);
        Write(b, t, give, if give == 0.0 then UnfundedShortfall else if give < want then Partial else Funded,
              u, want)
  }

  datatype Pass = Urgent | Later | Rest

  function Step(day: Day, p: Pass, t: Target, b: Book): Book {
    match p
    case Urgent => Fund(day, t, DueBeforeNextIncome, None, b)
    case Later =>
      if day.after > 0 then Write(b, t, 0.0, Deferred, DueThisPeriod, t.Remaining())
      else Fund(day, t, DueThisPeriod, None, b)
    case Rest =>
      var u := if t.required || t.protected then DueThisPeriod else Discretionary;
      if b.cash == 0.0 then Write(b, t, 0.0, UnfundedShortfall, u, t.Remaining())
      else Fund(day, t, u, Some(ShareForThisPaycheck(t, day.after)), b)
  }

  function RunPass(day: Day, p: Pass, ts: seq<Target>, b: Book): Book {
    if ts == [] then b else RunPass(day, p, ts[1..], Step(day, p, ts[0], b))
  }

  function Hold(floor: real, b: Book): Book {
    if floor > 0.0 then
      var hold := MinReal(floor, b.cash);
      Book(b.cash - hold,
           b.rows + [Allocation("floor", Buffer, hold, Funded, ProtectedFloor, None, floor)])
    else b
  }

  predicate DueLeq(x: Target, y: Target) {
    match (x.due, y.due)
    case (Some(d), Some(e)) => d < e || (d == e && x.priority <= y.priority)
    case (Some(_), None) => true
    case (None, Some(_)) => false
    case (None, None) => x.priority <= y.priority
  }

  predicate NameLeq(x: string, y: string) {
    x == [] || (y != [] && (x[0] < y[0] || (x[0] == y[0] && NameLeq(x[1..], y[1..]))))
  }

  predicate Elastic(t: Target) {
    t.percentRule && !t.protected && !t.required
  }

  predicate RestLeq(x: Target, y: Target) {
    if Elastic(x) != Elastic(y) then Elastic(y)
    else x.priority < y.priority || (x.priority == y.priority && NameLeq(x.name, y.name))
  }

  function UrgentTest(day: Day): Target -> bool {
    (t: Target) => t.Remaining() > 0.0 && (t.required || t.protected) && IsUrgent(day, t)
  }

  function LaterTest(day: Day): Target -> bool {
    (t: Target) => t.Remaining() > 0.0 && t.required && !IsUrgent(day, t)
  }

  predicate HasRow(rows: seq<Allocation>, id: string) {
    exists r :: r in rows && r.policyId == id
  }

  function RestTest(rows: seq<Allocation>): Target -> bool {
    (t: Target) => t.Remaining() > 0.0 && !HasRow(rows, t.policyId)
  }

  function UrgentList(day: Day, ts: seq<Target>): seq<Target> {
    SortBy(Filter(ts, UrgentTest(day)), DueLeq)
  }

  function LaterList(day: Day, ts: seq<Target>): seq<Target> {
    SortBy(Filter(ts, LaterTest(day)), DueLeq)
  }

  function RestList(ts: seq<Target>, rows: seq<Allocation>): seq<Target> {
    SortBy(Filter(ts, RestTest(rows)), RestLeq)
  }

  function AfterUrgent(day: Day, ts: seq<Target>, available: real): Book {
    RunPass(day, Urgent, UrgentList(day, ts), Book(available, []))
  }

  function AfterFloor(day: Day, floor: real, ts: seq<Target>, available: real): Book {
    Hold(floor, AfterUrgent(day, ts, available))
  }

  function AfterLater(day: Day, floor: real, ts: seq<Target>, available: real): Book {
    RunPass(day, Later, LaterList(day, ts), AfterFloor(day, floor, ts, available))
  }

  function Paycheck(day: Day, floor: real, ts: seq<Target>, available: real): Book {
    var b := AfterLater(day, floor, ts, available);
    RunPass(day, Rest, RestList(ts, b.rows), b)
  }

  predicate HasConsequence(p: Purpose) {
    p.RequiredDebt? || p.CardStatement? || p.Bill? || p.TaxReserve?
  }

  predicate IsShortfall(a: Allocation) {
    || ((a.status.Partial? || a.status.UnfundedShortfall?)
        && (a.urgency.DueBeforeNextIncome? || a.urgency.ProtectedFloor?))
    || (!a.status.Deferred? && a.amount < a.requested && HasConsequence(a.purpose))
  }

  function ShortfallsOf(rows: seq<Allocation>): seq<Shortfall> {
    if rows == [] then []
    else (if IsShortfall(rows[0])
          then [Shortfall(rows[0].policyId, rows[0].requested, rows[0].amount, rows[0].due)] else [])
         + ShortfallsOf(rows[1..])
  }

  // ---- what a month does, as a value ----------------------------------

  /** The part of a month that does not change while it runs. */
  datatype Month = Month(
    deposits: seq<Deposit>, checkingFloor: Option<real>, skipped: (string, int) -> bool)

  function Dates(ds: seq<Deposit>): seq<int> {
    seq(|ds|, i requires 0 <= i < |ds| => ds[i].date)
  }

  function InDateOrder(ds: seq<Deposit>): seq<Deposit> {
    SortBy(ds, (x: Deposit, y: Deposit) => x.date <= y.date)
  }

  function Within(first: int, last: int): Deposit -> bool {
    (d: Deposit) => first <= d.date <= last
  }

  /** The month's income events, or the projected ones when it has none, in date order. */
  function MonthEvents(events: seq<Deposit>, projected: seq<Deposit>, first: int, last: int): seq<Deposit> {
    var ours := Filter(events, Within(first, last));
    InDateOrder(if ours == [] then projected else ours)
  }

  function DayOf(m: Month, i: nat): Day
    requires i < |m.deposits|
  {
    var dates := Dates(m.deposits);
    var given := if i + 1 < |dates| then Some(dates[i + 1]) else None;
    Day(dates[i], NextIncome(dates, dates[i], given), |LaterDates(dates, dates[i])|, m.skipped)
  }

  function CreditRow(ts: seq<Target>, a: Allocation): (r: seq<Target>)
    ensures |r| == |ts|
  {
    seq(|ts|, i requires 0 <= i < |ts| =>
      if ts[i].policyId == a.policyId && a.amount > 0.0
      then ts[i].(funded := ts[i].funded + a.amount) else ts[i])
  }

  function Commit(ts: seq<Target>, rows: seq<Allocation>): (r: seq<Target>)
    ensures |r| == |ts|
    decreases |rows|
  {
    if rows == [] then ts else Commit(CreditRow(ts, rows[0]), rows[1..])
  }

  /** The shared ledger before deposit i, and what deposit i does with it. */
  function Ledger(m: Month, ts: seq<Target>, i: nat): (r: seq<Target>)
    requires i <= |m.deposits|
    ensures |r| == |ts|
    decreases i, 0
  {
    if i == 0 then ts else Commit(Ledger(m, ts, i - 1), Run(m, ts, i - 1).rows)
  }

  function Run(m: Month, ts: seq<Target>, i: nat): Book
    requires i < |m.deposits|
    decreases i, 1
  {
    var now := Ledger(m, ts, i);
    Paycheck(DayOf(m, i), FloorOf(now, m.checkingFloor), now, m.deposits[i].amount)
  }

  /** A finished paycheck allocation. */
  datatype Outcome = Outcome(available: real, allocations: seq<Allocation>, shortfalls: seq<Shortfall>)

  function OutcomeOf(m: Month, ts: seq<Target>, i: nat): Outcome
    requires i < |m.deposits|
  {
    var rows := Run(m, ts, i).rows;
    Outcome(m.deposits[i].amount, rows, ShortfallsOf(rows))
  }

  function Outcomes(m: Month, ts: seq<Target>, n: nat): (r: seq<Outcome>)
    requires n <= |m.deposits|
    ensures |r| == n
    ensures forall i :: 0 <= i < n ==> r[i] == OutcomeOf(m, ts, i)
  {
    if n == 0 then [] else Outcomes(m, ts, n - 1) + [OutcomeOf(m, ts, n - 1)]
  }

  // ---- the engine itself ----------------------------------------------

  class PaycheckAllocation {
    const available: real
    var allocations: seq<Allocation>
    var shortfalls: seq<Shortfall>

    constructor (available: real)
      ensures this.available == available && allocations == [] && shortfalls == []
    {
      this.available := available;
      allocations, shortfalls := [], [];
    }

    method Append(t: Target, amount: real, s: Status, u: Urgency, requested: real)
      modifies this`allocations
      ensures allocations ==
        old(allocations) + [Allocation(t.policyId, t.purpose, amount, s, u, t.due, requested)]
    {
      allocations := allocations + [Allocation(t.policyId, t.purpose, amount, s, u, t.due, requested)];
    }
  }

  class MonthlyPlan {
    var targets: seq<Target>

    constructor (targets: seq<Target>)
      ensures this.targets == targets
    {
      this.targets := targets;
    }

    method Credit(a: Allocation)
      modifies this
      ensures targets == CreditRow(old(targets), a)
    {
      ghost var before := targets;
      for i := 0 to |targets|
        invariant |targets| == |before|
        invariant forall k :: 0 <= k < i ==> targets[k] == CreditRow(before, a)[k]
        invariant forall k :: i <= k < |targets| ==> targets[k] == before[k]
      {
        if targets[i].policyId == a.policyId && a.amount > 0.0 {
          targets := targets[i := targets[i].(funded := targets[i].funded + a.amount)];
        }
      }
      assert targets == CreditRow(before, a);
    }

    /** The commit loop: each positive row is credited to the targets with its policy id. */
    method CommitRun(rows: seq<Allocation>)
      modifies this
      ensures targets == Commit(old(targets), rows)
    {
      for k := 0 to |rows|
        invariant Commit(targets, rows[k..]) == Commit(old(targets), rows)
      {
        assert rows[k..][1..] == rows[k + 1..];
        Credit(rows[k]);
      }
    }
  }

  class AllocationEngine {
    const skipped: (string, int) -> bool

    constructor (skipped: (string, int) -> bool)
      ensures this.skipped == skipped
    {
      this.skipped := skipped;
    }

    method FundTarget(day: Day, t: Target, remaining: real, result: PaycheckAllocation, u: Urgency,
                      cap: Option<real>) returns (left: real)
      modifies result`allocations
      ensures Book(left, result.allocations) == Fund(day, t, u, cap, Book(remaining, old(result.allocations)))
    {
      if Skipped(day, t) {
        result.Append(t, 0.0, Paused, u, t.Remaining());
        return remaining;
      }
      var want := if cap.None? then t.Remaining() else MinReal(t.Remaining(), cap.value);
      if want == 0.0 {
        return remaining;
      }
      var give := MinReal(want, remaining);
      var status := if give == 0.0 then UnfundedShortfall else if give < want then Partial else Funded;
      result.Append(t, give, status, u, want);
      left := remaining - give;
    }

    method Take(day: Day, p: Pass, t: Target, remaining: real, result: PaycheckAllocation)
      returns (left: real)
      modifies result`allocations
      ensures Book(left, result.allocations) == Step(day, p, t, Book(remaining, old(result.allocations)))
    {
      match p
      case Urgent =>
        left := FundTarget(day, t, remaining, result, DueBeforeNextIncome, None);
      case Later =>
        if day.after > 0 {
          result.Append(t, 0.0, Deferred, DueThisPeriod, t.Remaining());
          left := remaining;
        } else {
          left := FundTarget(day, t, remaining, result, DueThisPeriod, None);
        }
      case Rest =>
        var u := if t.required || t.protected then DueThisPeriod else Discretionary;
        if remaining == 0.0 {
          result.Append(t, 0.0, UnfundedShortfall, u, t.Remaining());
          left := remaining;
        } else {
          var share := ShareForThisPaycheck(t, day.after);
          left := FundTarget(day, t, remaining, result, u, Some(share));
        }
    }

    method TakeAll(day: Day, p: Pass, ts: seq<Target>, remaining: real, result: PaycheckAllocation)
      returns (left: real)
      modifies result`allocations
      ensures Book(left, result.allocations) == RunPass(day, p, ts, Book(remaining, old(result.allocations)))
    {
      left := remaining;
      for i := 0 to |ts|
        invariant RunPass(day, p, ts[i..], Book(left, result.allocations))
               == RunPass(day, p, ts, Book(remaining, old(result.allocations)))
      {
        assert ts[i..][1..] == ts[i + 1..];
        left := Take(day, p, ts[i], left, result);
      }
    }

    method HoldFloor(floor: real, remaining: real, result: PaycheckAllocation) returns (left: real)
      modifies result`allocations
      ensures Book(left, result.allocations) == Hold(floor, Book(remaining, old(result.allocations)))
    {
      left := remaining;
      if floor > 0.0 {
        var hold := MinReal(floor, remaining);
        result.allocations := result.allocations +
          [Allocation("floor", Buffer, hold, Funded, ProtectedFloor, None, floor)];
        left := remaining - hold;
      }
    }

    method RegisterShortfalls(result: PaycheckAllocation)
      modifies result`shortfalls
      ensures result.shortfalls == old(result.shortfalls) + ShortfallsOf(result.allocations)
    {
      var rows := result.allocations;
      for i := 0 to |rows|
        invariant result.shortfalls + ShortfallsOf(rows[i..]) == old(result.shortfalls) + ShortfallsOf(rows)
      {
        assert rows[i..][1..] == rows[i + 1..];
        var a := rows[i];
        if IsShortfall(a) {
          result.shortfalls := result.shortfalls + [Shortfall(a.policyId, a.requested, a.amount, a.due)];
        }
      }
    }

    /** The four passes, in order, then the shortfall register. */
    method AllocatePaycheck(effective: real, plan: MonthlyPlan, payDate: int, dates: seq<int>,
                            next: Option<int>, carryIn: Option<real>, checkingFloor: Option<real>)
      returns (result: PaycheckAllocation, remaining: real)
      ensures fresh(result) && result.available == effective + (if carryIn.Some? then carryIn.value else 0.0)
      ensures var day := Day(payDate, NextIncome(dates, payDate, next), |LaterDates(dates, payDate)|, skipped);
        Book(remaining, result.allocations)
          == Paycheck(day, FloorOf(plan.targets, checkingFloor), plan.targets, result.available)
      ensures result.shortfalls == ShortfallsOf(result.allocations)
    {
      var available := effective;
      if carryIn.Some? {
        available := available + carryIn.value;
      }
      result := new PaycheckAllocation(available);
      var day := Day(payDate, NextIncome(dates, payDate, next), |LaterDates(dates, payDate)|, skipped);
      var ts := plan.targets;
      remaining := TakeAll(day, Urgent, UrgentList(day, ts), available, result);
      remaining := HoldFloor(FloorOf(ts, checkingFloor), remaining, result);
      remaining := TakeAll(day, Later, LaterList(day, ts), remaining, result);
      remaining := TakeAll(day, Rest, RestList(ts, result.allocations), remaining, result);
      RegisterShortfalls(result);
    }

    /** One turn of the month loop: allocate deposit i, then commit it to the ledger. */
    method RunDeposit(m: Month, plan: MonthlyPlan, i: nat, ghost start: seq<Target>)
      returns (run: Outcome)
      requires m.skipped == skipped && i < |m.deposits|
      requires plan.targets == Ledger(m, start, i)
      modifies plan
      ensures plan.targets == Ledger(m, start, i + 1)
      ensures run == OutcomeOf(m, start, i)
    {
      hide Paycheck, Commit, ShortfallsOf;
      var dates := Dates(m.deposits);
      var next := if i + 1 < |dates| then Some(dates[i + 1]) else None;
      var result, left :=
        AllocatePaycheck(m.deposits[i].amount, plan, dates[i], dates, next, None, m.checkingFloor);
      plan.CommitRun(result.allocations);
      run := Outcome(result.available, result.allocations, result.shortfalls);
    }

    /** month_income_dates: keep the events of the month, then sort them by date. */
    method MonthIncome(events: seq<Deposit>, projected: seq<Deposit>, first: int, last: int)
      returns (deposits: seq<Deposit>)
      ensures deposits == MonthEvents(events, projected, first, last)
    {
      var ours := [];
      for i := 0 to |events|
        invariant ours + Filter(events[i..], Within(first, last)) == Filter(events, Within(first, last))
      {
        assert events[i..][1..] == events[i + 1..];
        if first <= events[i].date <= last {
          ours := ours + [events[i]];
        }
      }
      assert ours == Filter(events, Within(first, last)) by {
        assert events[|events|..] == [];
      }
      if ours == [] {
        ours := projected;
      }
      deposits := InDateOrder(ours);
    }

    /** Every deposit of the month, in date order, runs against the one shared ledger. */
    method AllocateMonth(events: seq<Deposit>, projected: seq<Deposit>, first: int, last: int,
                         checkingFloor: Option<real>, plan: MonthlyPlan)
      returns (runs: seq<Outcome>)
      modifies plan
      ensures var m := Month(MonthEvents(events, projected, first, last), checkingFloor, skipped);
        && plan.targets == Ledger(m, old(plan.targets), |m.deposits|)
        && runs == Outcomes(m, old(plan.targets), |m.deposits|)
    {
      var deposits := MonthIncome(events, projected, first, last);
      var m := Month(deposits, checkingFloor, skipped);
      runs := [];
      for i := 0 to |m.deposits|
        invariant plan.targets == Ledger(m, old(plan.targets), i)
        invariant runs == Outcomes(m, old(plan.targets), i)
      {
        var run := RunDeposit(m, plan, i, old(plan.targets));
        runs := runs + [run];
      }
    }
  }
}
