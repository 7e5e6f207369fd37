/** The even spread of an undated target over a month's deposits, and when cash suffices. */
module AllocatorSpread {
  import opened Prelude
  import opened Money
  import opened Allocator
  import opened AllocatorLaws
  import opened AllocatorMonth
  import opened AllocatorDeadlines

  // ---- an undated target in one paycheck ------------------------------

  /** Neither dated, nor required, nor the operating buffer: such a target waits for the last pass. */
  predicate Undated(t: Target) {
    t.due.None? && !t.required && !(t.protected && t.purpose.Buffer?)
  }

  ghost predicate NeverShort(rows: seq<Allocation>, id: string) {
    forall k :: 0 <= k < |rows| && rows[k].policyId == id ==> !Short(rows[k])
  }

  lemma RestStep(day: Day, t: Target, b: Book)
    requires b.cash >= 0.0 && t.Remaining() > 0.0 && !Skipped(day, t)
    ensures var c, want := Step(day, Rest, t, b), MinReal(t.Remaining(), ShareForThisPaycheck(t, day.after));
      if |c.rows| > |b.rows| then c.rows[|b.rows|].policyId == t.policyId
        && (Short(c.rows[|b.rows|]) || c.rows[|b.rows|].amount == want)
      else want == 0.0
  {
    hide ShareForThisPaycheck, Skipped;
  }

  lemma RestRow(day: Day, us: seq<Target>, l: Book, available: real, ts: seq<Target>, p: nat)
    requires GoodTargets(ts) && Drawn(us, ts) && AllRemaining(us) && p < |us|
    requires Sound(l, available) && !HasRow(l.rows, us[p].policyId) && !Skipped(day, us[p])
    requires var c := RunPass(day, Rest, us, l); OneEach(c.rows) && NeverShort(c.rows, us[p].policyId)
    ensures Given(RunPass(day, Rest, us, l).rows, us[p].policyId)
         == MinReal(us[p].Remaining(), ShareForThisPaycheck(us[p], day.after))
  {
    var t, c, mid := us[p], RunPass(day, Rest, us, l), RunPass(day, Rest, us[..p], l);
    var next := Step(day, Rest, t, mid);
    assert t in us && us[p..][1..] == us[p + 1..];
    PassSplit(day, Rest, us, p, l);
    PassSound(day, Rest, us[..p], l, available);
    StepSound(day, Rest, t, mid, available);
    PassSound(day, Rest, us[p + 1..], next, available);
    RestStep(day, t, mid);
    hide RunPass, Step, Sound, Skipped, ShareForThisPaycheck, Short;
    if |next.rows| > |mid.rows| {
      assert c.rows[|mid.rows|] == next.rows[|mid.rows|];
      GivenOnce(c.rows, |mid.rows|);
    } else {
      SharePositive(t, day.after);
      forall k | 0 <= k < |c.rows|
        ensures c.rows[k].policyId != t.policyId
      {
        if k < |l.rows| {
          assert c.rows[k] == mid.rows[k] == l.rows[k] && l.rows[k] in l.rows;
        } else if k < |mid.rows| {
          assert c.rows[k] == mid.rows[k];
          NotWritten(c.rows[k], us[..p], ts, t);
        } else {
          NotWritten(c.rows[k], us[p + 1..], ts, t);
        }
      }
      GivenNothing(c.rows, t.policyId);
    }
  }

  /** What one paycheck gives an undated target that is never short: its share of what it lacks. */
  lemma UndatedGets(day: Day, floor: real, ts: seq<Target>, available: real, x: nat)
    requires GoodTargets(ts) && available >= 0.0 && x < |ts| && Undated(ts[x]) && !Skipped(day, ts[x])
    requires NeverShort(Paycheck(day, floor, ts, available).rows, ts[x].policyId)
    ensures Given(Paycheck(day, floor, ts, available).rows, ts[x].policyId)
         == MinReal(ts[x].Remaining(), ShareForThisPaycheck(ts[x], day.after))
  {
    var l, c, t := AfterLater(day, floor, ts, available), Paycheck(day, floor, ts, available), ts[x];
    WaitsForRest(day, floor, ts, available, x);
    LaterPass(day, floor, ts, available);
    RestPass(day, floor, ts, available);
    hide AfterLater, RunPass, RestList, LaterList;
    var us := RestList(ts, l.rows);
    if t.Remaining() > 0.0 {
      assert t in us;
      var p :| 0 <= p < |us| && us[p] == t;
      RestRow(day, us, l, available, ts, p);
    } else {
      SharePositive(t, day.after);
      forall k | 0 <= k < |c.rows|
        ensures c.rows[k].policyId != t.policyId
      {
        if k < |l.rows| {
          assert c.rows[k] == l.rows[k] && l.rows[k] in l.rows;
        } else {
          NotWritten(c.rows[k], us, ts, t);
        }
      }
      GivenNothing(c.rows, t.policyId);
    }
  }

  // ---- rounding an even share -----------------------------------------

  /** Dividing an inequality of products by their common positive factor. */
  lemma RoundBetween(y: real, lo: nat, rest: real, m: real)
    requires 0.0 <= rest <= m && 0.0 < m && y * m == lo as real * m + rest
    ensures RoundHalfUp(y) == lo + (if 2.0 * rest >= m then 1 else 0)
  {
    DivideBound(y, lo as real, m, rest, 0.0);
    DivideBound(y, lo as real, m, rest, 0.5);
    DivideBound(y, lo as real, m, rest, 1.0);
  }

  lemma RoundQuotient(lo: nat, r: nat, m: nat)
    requires 0 < m && r <= m
    ensures RoundHalfUp((lo * m + r) as real / m as real) == lo + (if 2 * r >= m then 1 else 0)
  {
    var y, mm := (lo * m + r) as real / m as real, m as real;
    CastProduct(lo, m);
    assert y * mm == (lo * m + r) as real;
    RoundBetween(y, lo, r as real, mm);
  }

  /** `left` minor units are between lo and hi for each of the d deposits still to come. */
  predicate Within(left: nat, d: nat, lo: nat, hi: nat) {
    lo * d <= left <= hi * d
  }

  /** One even share keeps the rest even. */
  lemma EvenStep(R: nat, m: nat, lo: nat, hi: nat) returns (s: nat)
    requires 0 < m && lo <= hi <= lo + 1 && Within(R, m, lo, hi)
    ensures s == RoundHalfUp(R as real / m as real)
    ensures lo <= s <= hi && s <= R && Within(R - s, m - 1, lo, hi)
  {
    hide RoundHalfUp;
    var r := R - lo * m;
    ProductStep(lo, m);
    ProductStep(hi, m);
    assert hi == lo + 1 ==> hi * m == lo * m + m;
    RoundQuotient(lo, r, m);
    s := lo + if 2 * r >= m then 1 else 0;
  }

  lemma ProductStep(a: nat, m: nat)
    requires 0 < m
    ensures a * (m - 1) == a * m - a && 0 <= a * (m - 1)
  {
  }

  // ---- the spread over the month --------------------------------------

  ghost predicate DistinctDates(ds: seq<Deposit>) {
    forall i, j :: 0 <= i < j < |ds| ==> ds[i].date < ds[j].date
  }

  lemma {:induction false} FilterSuffix(xs: seq<int>, keep: int -> bool, n: nat)
    requires n <= |xs|
    requires forall i :: 0 <= i < |xs| ==> (keep(xs[i]) <==> n <= i)
    ensures Filter(xs, keep) == xs[n..]
  {
    if xs != [] {
      FilterSuffix(xs[1..], keep, if n == 0 then 0 else n - 1);
      if n == 0 {
        assert xs == [xs[0]] + xs[1..];
      }
    }
  }

  lemma AfterCount(m: Month, i: nat)
    requires DistinctDates(m.deposits) && i < |m.deposits|
    ensures DayOf(m, i).after == |m.deposits| - 1 - i
  {
    var dates := Dates(m.deposits);
    FilterSuffix(dates, (d: int) => d > dates[i], i + 1);
  }

  /** The hypotheses of the spread: whole cents, undated, never skipped, never short of cash. */
  ghost predicate Spreadable(m: Month, ts: seq<Target>, x: nat, R: nat) {
    && GoodMonth(m, ts) && DistinctDates(m.deposits)
    && x < |ts| && Undated(ts[x]) && ts[x].Remaining() == R as real
    && (forall j :: 0 <= j < |m.deposits| ==> !Skipped(DayOf(m, j), ts[x]))
    && (forall j :: 0 <= j < |m.deposits| ==> NeverShort(Run(m, ts, j).rows, ts[x].policyId))
  }

  function CeilDiv(a: nat, n: nat): nat
    requires n > 0
  {
    (a + n - 1) / n
  }

  lemma EvenBounds(a: nat, n: nat)
    requires n > 0
    ensures var lo, hi := a / n, CeilDiv(a, n);
      lo <= hi <= lo + 1 && Within(a, n, lo, hi)
  {
    var lo, r := a / n, a % n;
    if r == 0 {
      QuotientIs(a + n - 1, n, lo, n - 1);
    } else {
      assert (lo + 1) * n == lo * n + n;
      QuotientIs(a + n - 1, n, lo + 1, r - 1);
    }
  }

  lemma SpreadStep(m: Month, ts: seq<Target>, x: nat, R: nat, k: nat, left: nat, lo: nat, hi: nat)
    returns (s: nat)
    requires Spreadable(m, ts, x, R) && k < |m.deposits|
    requires lo <= hi <= lo + 1 && Within(left, |m.deposits| - k, lo, hi)
    ensures Ledger(m, ts, k)[x].Remaining() == left as real ==> Given(Run(m, ts, k).rows, ts[x].policyId) == s as real
    ensures lo <= s <= hi && s <= left && Within(left - s, |m.deposits| - k - 1, lo, hi)
  {
    hide Paycheck, Commit, Ledger, Within, Spreadable;
    s := EvenStep(left, |m.deposits| - k, lo, hi);
    LastShare(left, |m.deposits| - k, s);
    ShareInRun(m, ts, x, R, k, left, s);
  }

  lemma ShareInRun(m: Month, ts: seq<Target>, x: nat, R: nat, k: nat, left: nat, s: nat)
    requires Spreadable(m, ts, x, R) && k < |m.deposits| && s <= left
    requires |m.deposits| - k == 1 ==> s == left
    ensures Ledger(m, ts, k)[x].Remaining() == left as real && s == RoundHalfUp(left as real / (|m.deposits| - k) as real)
      ==> Given(Run(m, ts, k).rows, ts[x].policyId) == s as real
  {
    hide Paycheck, Commit, Ledger, RoundHalfUp;
    var now, day := Ledger(m, ts, k), DayOf(m, k);
    LedgerGood(m, ts, k);
    AfterCount(m, k);
    assert Skipped(day, now[x]) == Skipped(day, ts[x]);
    assert NeverShort(Run(m, ts, k).rows, ts[x].policyId);
    UndatedGets(day, FloorOf(now, m.checkingFloor), now, m.deposits[k].amount, x);
  }

  lemma LastShare(R: nat, m: nat, s: nat)
    requires 0 < m && s == RoundHalfUp(R as real / m as real)
    ensures m == 1 ==> s == R
  {
    if m == 1 {
      assert R as real / 1.0 == R as real;
    }
  }

  lemma {:induction false} SpreadSoFar(m: Month, ts: seq<Target>, x: nat, R: nat, k: nat, lo: nat, hi: nat)
    returns (left: nat)
    requires Spreadable(m, ts, x, R) && k <= |m.deposits|
    requires lo <= hi <= lo + 1 && Within(R, |m.deposits|, lo, hi)
    ensures Ledger(m, ts, k)[x].Remaining() == left as real && Within(left, |m.deposits| - k, lo, hi)
  {
    hide Paycheck, Commit, Within;
    if k == 0 {
      left := R;
    } else {
      var before := SpreadSoFar(m, ts, x, R, k - 1, lo, hi);
      var s := SpreadStep(m, ts, x, R, k - 1, before, lo, hi);
      LedgerGood(m, ts, k - 1);
      LedgerGood(m, ts, k);
      LedgerStep(m, ts, k - 1, x);
      left := before - s;
    }
  }

  /**
   * Even spread: when dates are distinct and cash never runs short, every deposit gives a whole-cent
   * undated target the floor or the ceiling of an even split, and the last one completes it.
   */
  lemma EvenSpread(m: Month, ts: seq<Target>, x: nat, R: nat, k: nat)
    requires Spreadable(m, ts, x, R) && k < |m.deposits|
    ensures var n, s := |m.deposits|, Given(Run(m, ts, k).rows, ts[x].policyId);
      s == s.Floor as real && R / n <= s.Floor <= CeilDiv(R, n)
    ensures Ledger(m, ts, |m.deposits|)[x].Remaining() == 0.0
  {
    hide Paycheck, Commit, Ledger, CeilDiv;
    var n := |m.deposits|;
    EvenBounds(R, n);
    var before := SpreadSoFar(m, ts, x, R, k, R / n, CeilDiv(R, n));
    var s := SpreadStep(m, ts, x, R, k, before, R / n, CeilDiv(R, n));
    var none := SpreadSoFar(m, ts, x, R, n, R / n, CeilDiv(R, n));
  }

  // ---- when cash suffices ---------------------------------------------

  function TotalRemaining(ts: seq<Target>): real {
    if ts == [] then 0.0 else ts[0].Remaining() + TotalRemaining(ts[1..])
  }

  lemma {:induction false} FundedBound(now: seq<Target>, next: seq<Target>)
    requires |now| == |next|
    requires forall x :: 0 <= x < |now| ==> next[x].funded <= now[x].funded + now[x].Remaining()
    ensures FundedTotal(next) <= FundedTotal(now) + TotalRemaining(now)
    ensures (exists x :: 0 <= x < |now| && next[x].funded < now[x].funded + now[x].Remaining())
      ==> FundedTotal(next) < FundedTotal(now) + TotalRemaining(now)
  {
    if now != [] {
      FundedBound(now[1..], next[1..]);
      if x :| 0 <= x < |now| && next[x].funded < now[x].funded + now[x].Remaining() {
        if x > 0 {
          assert next[1..][x - 1].funded < now[1..][x - 1].funded + now[1..][x - 1].Remaining();
        }
      }
    }
  }

  lemma {:induction false} RemainingShrinks(now: seq<Target>, ts: seq<Target>)
    requires |now| == |ts|
    requires forall x :: 0 <= x < |ts| ==> now[x].Remaining() <= ts[x].Remaining()
    ensures TotalRemaining(now) <= TotalRemaining(ts)
  {
    if ts != [] {
      RemainingShrinks(now[1..], ts[1..]);
    }
  }

  lemma {:induction false} FloorUnchanged(now: seq<Target>, ts: seq<Target>)
    requires SameButFunded(now, ts)
    ensures FloorFromPolicies(now) == FloorFromPolicies(ts)
  {
    if ts != [] {
      assert now[0].purpose == ts[0].purpose && now[0].target == ts[0].target;
      assert SameButFunded(now[1..], ts[1..]);
      FloorUnchanged(now[1..], ts[1..]);
    }
  }

  /** A deposit that covers everything still missing and the floor leaves no row short. */
  lemma NothingShort(m: Month, ts: seq<Target>, i: nat)
    requires GoodMonth(m, ts) && i < |m.deposits|
    requires m.deposits[i].amount >= TotalRemaining(ts) + Positive(FloorOf(ts, m.checkingFloor))
    ensures forall k :: 0 <= k < |Run(m, ts, i).rows| ==> !Short(Run(m, ts, i).rows[k])
  {
    hide Paycheck, Commit, Ledger;
    var now, b := Ledger(m, ts, i), Run(m, ts, i);
    var floor := FloorOf(now, m.checkingFloor);
    LedgerGood(m, ts, i);
    RunLaws(m, ts, i);
    FloorUnchanged(now, ts);
    forall x | 0 <= x < |ts|
      ensures now[x].Remaining() <= ts[x].Remaining()
    {
      NeverOverfunded(m, ts, i, x);
    }
    RemainingShrinks(now, ts);
    if q :| 0 <= q < |b.rows| && Short(b.rows[q]) {
      ShortCosts(now, b, m.deposits[i].amount, floor, q);
    }
  }

  lemma ShortCosts(now: seq<Target>, b: Book, available: real, floor: real, q: nat)
    requires GoodTargets(now) && Sound(b, available) && OneEach(b.rows)
    requires forall k :: 0 <= k < |b.rows| ==> FromPlan(b.rows[k], now, floor)
    requires q < |b.rows| && Short(b.rows[q])
    ensures available < TotalRemaining(now) + Positive(floor)
  {
    var rows, next := b.rows, Commit(now, b.rows);
    forall x | 0 <= x < |now|
      ensures next[x].funded == now[x].funded + Given(rows, now[x].policyId)
      ensures Given(rows, now[x].policyId) <= now[x].Remaining()
      ensures rows[q].policyId == now[x].policyId ==> Given(rows, now[x].policyId) < now[x].Remaining()
    {
      CommitAt(now, rows, x);
      GivenWithin(now, rows, floor, now[x].policyId, now[x].Remaining());
      if rows[q].policyId == now[x].policyId {
        GivenOnce(rows, q);
        var t :| t in now && RowFor(rows[q], t);
        SameId(now, t, now[x]);
      }
    }
    GivenWithin(now, rows, floor, "floor", Positive(floor));
    FundedBound(now, next);
    RowsNamed(now, rows, floor);
    CommitConserves(now, rows);
    if FloorRow(rows[q], floor) {
      GivenOnce(rows, q);
    } else {
      var t :| t in now && RowFor(rows[q], t);
      var x :| 0 <= x < |now| && now[x] == t;
      assert next[x].funded < now[x].funded + now[x].Remaining();
    }
  }

  lemma RowAmount(now: seq<Target>, r: Allocation, floor: real)
    requires GoodTargets(now) && FromPlan(r, now, floor) && r.amount <= r.requested
    ensures forall x :: 0 <= x < |now| && now[x].policyId == r.policyId ==> r.amount <= now[x].Remaining()
    ensures r.policyId == "floor" ==> r.amount <= Positive(floor)
  {
    if !FloorRow(r, floor) {
      var t :| t in now && RowFor(r, t);
      forall x | 0 <= x < |now| && now[x].policyId == r.policyId
        ensures r.amount <= now[x].Remaining()
      {
        SameId(now, t, now[x]);
      }
    }
  }

  lemma GivenWithin(now: seq<Target>, rows: seq<Allocation>, floor: real, id: string, bound: real)
    requires GoodTargets(now) && OneEach(rows) && bound >= 0.0
    requires forall k :: 0 <= k < |rows| ==> rows[k].amount <= rows[k].requested && FromPlan(rows[k], now, floor)
    requires (id == "floor" && bound == Positive(floor))
      || exists x :: 0 <= x < |now| && now[x].policyId == id && now[x].Remaining() == bound
    ensures Given(rows, id) <= bound
  {
    hide FromPlan;
    if k :| 0 <= k < |rows| && rows[k].policyId == id {
      GivenOnce(rows, k);
      RowAmount(now, rows[k], floor);
    } else {
      GivenNothing(rows, id);
    }
  }

  // ---- when cash suffices ---------------------------------------------

  /** What the rows of a deposit ask for, leaving out what is deferred or skipped. */
  function Asked(rows: seq<Allocation>): real {
    if rows == [] then 0.0
    else (if rows[0].status.Deferred? || rows[0].status.Paused? then 0.0 else rows[0].requested) + Asked(rows[1..])
  }

  lemma {:induction false} AskedIs(rows: seq<Allocation>)
    requires forall k :: 0 <= k < |rows| ==> RowOk(rows[k])
    ensures SumAmounts(rows) <= Asked(rows)
    ensures (exists k :: 0 <= k < |rows| && Short(rows[k])) <==> SumAmounts(rows) < Asked(rows)
  {
    if rows != [] {
      var tail := rows[1..];
      AskedIs(tail);
      assert RowOk(rows[0]);
      assert forall k :: 0 < k < |rows| ==> rows[k] == tail[k - 1];
      assert (exists k :: 0 <= k < |rows| && Short(rows[k])) <==>
        Short(rows[0]) || exists k :: 0 <= k < |tail| && Short(tail[k]) by {
        assert forall k :: 0 <= k < |tail| ==> tail[k] == rows[k + 1];
      }
    }
  }

  /** No row of a deposit is short exactly when the deposit covers what its rows ask for. */
  lemma CashSufficesExactly(day: Day, floor: real, ts: seq<Target>, available: real)
    requires GoodTargets(ts) && available >= 0.0
    ensures var rows := Paycheck(day, floor, ts, available).rows;
      (forall k :: 0 <= k < |rows| ==> !Short(rows[k])) <==> Asked(rows) <= available
  {
    hide Paycheck;
    PaycheckLaws(day, floor, ts, available);
    AskedIs(Paycheck(day, floor, ts, available).rows);
  }

  /** The even spread when every deposit covers the shares it is actually asked for. */
  lemma EvenSpreadWhenCashSuffices(m: Month, ts: seq<Target>, x: nat, R: nat, k: nat)
    requires GoodMonth(m, ts) && DistinctDates(m.deposits) && k < |m.deposits|
    requires x < |ts| && Undated(ts[x]) && ts[x].Remaining() == R as real
    requires forall j :: 0 <= j < |m.deposits| ==> !Skipped(DayOf(m, j), ts[x])
    requires forall j :: 0 <= j < |m.deposits| ==> Asked(Run(m, ts, j).rows) <= m.deposits[j].amount
    ensures var n, s := |m.deposits|, Given(Run(m, ts, k).rows, ts[x].policyId);
      s == s.Floor as real && R / n <= s.Floor <= CeilDiv(R, n)
    ensures Ledger(m, ts, |m.deposits|)[x].Remaining() == 0.0
  {
    hide Ledger, CeilDiv, Paycheck, Commit;
    forall j | 0 <= j < |m.deposits|
      ensures NeverShort(Run(m, ts, j).rows, ts[x].policyId)
    {
      LedgerGood(m, ts, j);
      CashSufficesExactly(DayOf(m, j), FloorOf(Ledger(m, ts, j), m.checkingFloor), Ledger(m, ts, j), m.deposits[j].amount);
    }
    EvenSpread(m, ts, x, R, k);
  }

  /** The even spread from inputs alone: every deposit covers all that is missing plus the floor. */
  lemma EvenSpreadFromInputs(m: Month, ts: seq<Target>, x: nat, R: nat, k: nat)
    requires GoodMonth(m, ts) && DistinctDates(m.deposits) && k < |m.deposits|
    requires x < |ts| && Undated(ts[x]) && ts[x].Remaining() == R as real
    requires forall j :: 0 <= j < |m.deposits| ==> !Skipped(DayOf(m, j), ts[x])
    requires forall j :: 0 <= j < |m.deposits| ==>
      m.deposits[j].amount >= TotalRemaining(ts) + Positive(FloorOf(ts, m.checkingFloor))
    ensures var n, s := |m.deposits|, Given(Run(m, ts, k).rows, ts[x].policyId);
      s == s.Floor as real && R / n <= s.Floor <= CeilDiv(R, n)
    ensures Ledger(m, ts, |m.deposits|)[x].Remaining() == 0.0
  {
    hide Paycheck, Commit, Ledger;
    forall j | 0 <= j < |m.deposits|
      ensures NeverShort(Run(m, ts, j).rows, ts[x].policyId)
    {
      NothingShort(m, ts, j);
    }
    EvenSpread(m, ts, x, R, k);
  }
}
