/** Business-day rolling and counting over day numbers, for any calendar without endless closures. */
module Calendar {

  datatype BusinessDayRule = NoRule | Preceding | Following | ModifiedFollowing

  /** A jurisdiction: which days are business days, and the running number of the month of a day. */
  datatype Jurisdiction = Jurisdiction(business: int -> bool, month: int -> int, span: nat)

  ghost predicate OpenWithin(c: Jurisdiction, d: int) {
    exists b :: d <= b < d + c.span && c.business(b)
  }

  /** Every window of `span` days holds a business day and is shorter than a year; months run in date order. */
  ghost predicate Usable(c: Jurisdiction) {
    && (forall d :: OpenWithin(c, d))
    && (forall d, e :: d <= e ==> c.month(d) <= c.month(e))
    && (forall d :: c.month(d + c.span) < c.month(d) + 12)
  }

  /** date.month, counted from zero. */
  function MonthOfYear(c: Jurisdiction, d: int): nat {
    c.month(d) % 12
  }

  // ---- the nearest business days --------------------------------------

  /** The last business day on or before d, looking back at most `fuel` days. */
  function Back(c: Jurisdiction, d: int, fuel: nat): int
    decreases fuel
  {
    if c.business(d) || fuel == 0 then d else Back(c, d - 1, fuel - 1)
  }

  function Ahead(c: Jurisdiction, d: int, fuel: nat): int
    decreases fuel
  {
    if c.business(d) || fuel == 0 then d else Ahead(c, d + 1, fuel - 1)
  }

  ghost predicate NoneBetween(c: Jurisdiction, lo: int, hi: int) {
    forall b :: lo <= b <= hi ==> !c.business(b)
  }

  lemma {:induction false} BackIs(c: Jurisdiction, d: int, fuel: nat)
    requires exists b :: d - fuel <= b <= d && c.business(b)
    ensures var r := Back(c, d, fuel); r <= d && c.business(r) && NoneBetween(c, r + 1, d)
    decreases fuel
  {
    if !c.business(d) {
      var b :| d - fuel <= b <= d && c.business(b);
      BackIs(c, d - 1, fuel - 1);
    }
  }

  lemma {:induction false} AheadIs(c: Jurisdiction, d: int, fuel: nat)
    requires exists b :: d <= b <= d + fuel && c.business(b)
    ensures var r := Ahead(c, d, fuel); d <= r <= d + fuel && c.business(r) && NoneBetween(c, d, r - 1)
    decreases fuel
  {
    if !c.business(d) {
      var b :| d <= b <= d + fuel && c.business(b);
      AheadIs(c, d + 1, fuel - 1);
    }
  }

  function Prev(c: Jurisdiction, d: int): int {
    Back(c, d, c.span)
  }

  function Next(c: Jurisdiction, d: int): int {
    Ahead(c, d, c.span)
  }

  /** Prev is the latest business day not after d; Next is the earliest not before it. */
  lemma PrevNext(c: Jurisdiction, d: int)
    requires Usable(c)
    ensures Prev(c, d) <= d && c.business(Prev(c, d)) && NoneBetween(c, Prev(c, d) + 1, d)
    ensures d <= Next(c, d) <= d + c.span && c.business(Next(c, d)) && NoneBetween(c, d, Next(c, d) - 1)
  {
    assert OpenWithin(c, d) && OpenWithin(c, d - c.span + 1);
    AheadIs(c, d, c.span);
    BackIs(c, d, c.span);
  }

  /** What `adjust` computes, under each rolling rule. */
  function Adjusted(c: Jurisdiction, d: int, rule: BusinessDayRule): int {
    match rule
    case NoRule => d
    case Preceding => Prev(c, d)
    case Following => Next(c, d)
    case ModifiedFollowing => if MonthOfYear(c, Next(c, d)) != MonthOfYear(c, d) then Prev(c, d) else Next(c, d)
  }

  /** r is open and on or after d, and no day from d up to it is open. */
  ghost predicate OpensNext(c: Jurisdiction, d: int, r: int) {
    d <= r && c.business(r) && forall b :: d <= b < r ==> !c.business(b)
  }

  ghost predicate OpenedLast(c: Jurisdiction, d: int, r: int) {
    r <= d && c.business(r) && forall b :: r < b <= d ==> !c.business(b)
  }

  /** Where each rule takes a date, by the calendar alone. */
  ghost predicate RollsTo(c: Jurisdiction, d: int, rule: BusinessDayRule, r: int) {
    match rule
    case NoRule => r == d
    case Preceding => OpenedLast(c, d, r)
    case Following => OpensNext(c, d, r)
    case ModifiedFollowing =>
      exists f :: OpensNext(c, d, f) && if c.month(f) % 12 == c.month(d) % 12 then r == f else OpenedLast(c, d, r)
  }

  /** Each rule takes a date to the one place it should. */
  lemma AdjustRolls(c: Jurisdiction, d: int, rule: BusinessDayRule)
    requires Usable(c)
    ensures forall r :: RollsTo(c, d, rule, r) <==> r == Adjusted(c, d, rule)
  {
    PrevNext(c, d);
    assert OpensNext(c, d, Next(c, d)) && OpenedLast(c, d, Prev(c, d));
    forall r
      ensures OpensNext(c, d, r) <==> r == Next(c, d)
      ensures OpenedLast(c, d, r) <==> r == Prev(c, d)
    {
    }
    hide Next, Prev, OpensNext, OpenedLast, Usable;
  }

  /** Calendar.adjust: its loops stop because no closure lasts for ever. */
  method Adjust(c: Jurisdiction, d: int, rule: BusinessDayRule) returns (r: int)
    requires Usable(c)
    ensures r == Adjusted(c, d, rule)
    ensures RollsTo(c, d, rule, r)
    decreases if rule.ModifiedFollowing? then 1 else 0
  {
    PrevNext(c, d);
    AdjustRolls(c, d, rule);
    hide RollsTo;
    match rule
    case NoRule =>
      r := d;
    case Preceding =>
      r := d;
      while !c.business(r)
        invariant Prev(c, d) <= r <= d && NoneBetween(c, r + 1, d)
        decreases r - Prev(c, d)
      {
        r := r - 1;
      }
    case Following =>
      r := StepAhead(c, d);
    case ModifiedFollowing =>
      r := StepAhead(c, d);
      if MonthOfYear(c, r) != MonthOfYear(c, d) {
        r := Adjust(c, d, Preceding);
      }
  }

  method StepAhead(c: Jurisdiction, d: int) returns (r: int)
    requires Usable(c)
    ensures r == Next(c, d)
  {
    PrevNext(c, d);
    r := d;
    while !c.business(r)
      invariant d <= r <= Next(c, d) && NoneBetween(c, d, r - 1)
      decreases Next(c, d) - r
    {
      r := r + 1;
    }
  }

  /** Comparing the months of the year is comparing the months: no closure is a year long. */
  lemma SameMonth(c: Jurisdiction, d: int)
    requires Usable(c)
    ensures MonthOfYear(c, Next(c, d)) == MonthOfYear(c, d) <==> c.month(Next(c, d)) == c.month(d)
  {
    PrevNext(c, d);
    assert c.month(d) <= c.month(Next(c, d)) <= c.month(d + c.span) < c.month(d) + 12;
  }

  /** Rolling lands on a business day and rolling again changes nothing. */
  lemma AdjustLands(c: Jurisdiction, d: int, rule: BusinessDayRule)
    requires Usable(c) && !rule.NoRule?
    ensures c.business(Adjusted(c, d, rule))
    ensures Adjusted(c, Adjusted(c, d, rule), rule) == Adjusted(c, d, rule)
  {
    PrevNext(c, d);
  }

  /** Every rule keeps the order of dates, MODIFIED_FOLLOWING included. */
  lemma AdjustMonotone(c: Jurisdiction, d: int, e: int, rule: BusinessDayRule)
    requires Usable(c) && d <= e
    ensures Adjusted(c, d, rule) <= Adjusted(c, e, rule)
  {
    PrevNext(c, d);
    PrevNext(c, e);
    SameMonth(c, d);
    SameMonth(c, e);
    if rule.ModifiedFollowing? {
      assert c.month(d) <= c.month(e) <= c.month(Next(c, e));
      if Next(c, d) > Prev(c, e) {
        assert Next(c, d) > e;
        assert Next(c, d) >= Next(c, e);
        assert c.month(Next(c, e)) <= c.month(Next(c, d));
      }
    }
  }

  /** MODIFIED_FOLLOWING leaves the month only when the month has no business day from d on nor before. */
  lemma ModifiedStaysInMonth(c: Jurisdiction, d: int)
    requires Usable(c)
    ensures c.month(Adjusted(c, d, ModifiedFollowing)) == c.month(d)
      <==> exists b :: c.business(b) && c.month(b) == c.month(d)
  {
    PrevNext(c, d);
    SameMonth(c, d);
    var r := Adjusted(c, d, ModifiedFollowing);
    if c.month(r) != c.month(d) {
      forall b | c.business(b)
        ensures c.month(b) != c.month(d)
      {
        if b >= d {
          assert b >= Next(c, d);
        } else {
          assert b <= Prev(c, d);
        }
      }
    }
  }

  // ---- counting business days -----------------------------------------

  /** Business days in (lo, hi]. */
  function Count(c: Jurisdiction, lo: int, hi: int): nat
    decreases hi - lo
  {
    if hi <= lo then 0 else Count(c, lo, hi - 1) + (if c.business(hi) then 1 else 0)
  }

  lemma {:induction false} CountSplits(c: Jurisdiction, lo: int, mid: int, hi: int)
    requires lo <= mid <= hi
    ensures Count(c, lo, hi) == Count(c, lo, mid) + Count(c, mid, hi)
    decreases hi - mid
  {
    if mid < hi {
      CountSplits(c, lo, mid, hi - 1);
    }
  }

  lemma {:induction false} CountNone(c: Jurisdiction, lo: int, hi: int)
    requires NoneBetween(c, lo + 1, hi)
    ensures Count(c, lo, hi) == 0
    decreases hi - lo
  {
    if lo < hi {
      CountNone(c, lo, hi - 1);
    }
  }

  /** r is n business days after d. */
  ghost predicate DaysAfter(c: Jurisdiction, d: int, n: nat, r: int) {
    d <= r && Count(c, d, r) == n && (n > 0 ==> c.business(r)) && (n == 0 ==> r == d)
  }

  /** r is n business days before d: n of them lie in [r, d). */
  ghost predicate DaysBefore(c: Jurisdiction, d: int, n: nat, r: int) {
    r <= d && Count(c, r - 1, d - 1) == n && (n > 0 ==> c.business(r)) && (n == 0 ==> r == d)
  }

  /** add_business_days, forwards or backwards with the sign of n. */
  method AddBusinessDays(c: Jurisdiction, d: int, n: int) returns (cur: int)
    requires Usable(c)
    ensures n >= 0 ==> DaysAfter(c, d, n, cur)
    ensures n < 0 ==> DaysBefore(c, d, -n, cur)
  {
    var step := if n >= 0 then 1 else -1;
    var total := if n >= 0 then n else -n;
    var remaining := total;
    cur := d;
    while remaining > 0
      invariant 0 <= remaining <= total
      invariant n >= 0 ==> d <= cur && Count(c, d, cur) == total - remaining
      invariant n < 0 ==> cur <= d && Count(c, cur - 1, d - 1) == total - remaining
      invariant remaining == 0 && total > 0 ==> c.business(cur)
      invariant total == 0 ==> cur == d
      decreases remaining, if n >= 0 then Next(c, cur + 1) - cur else cur - Prev(c, cur - 1)
    {
      PrevNext(c, cur + step);
      PrevNext(c, cur + 2 * step);
      cur := cur + step;
      if n < 0 {
        CountSplits(c, cur - 1, cur, d - 1);
      }
      if c.business(cur) {
        remaining := remaining - 1;
      }
    }
  }

  /** Later starting points leave strictly fewer days once a business day is passed. */
  lemma CountDrops(c: Jurisdiction, lo: int, x: int, hi: int)
    requires lo < x <= hi && c.business(x)
    ensures Count(c, x, hi) < Count(c, lo, hi)
  {
    CountSplits(c, lo, x - 1, hi);
    CountSplits(c, x - 1, x, hi);
    assert Count(c, x - 1, x) == Count(c, x - 1, x - 1) + 1;
  }

  lemma CountShift(c: Jurisdiction, lo: int, hi: int)
    requires lo <= hi && c.business(lo) && c.business(hi)
    ensures Count(c, lo - 1, hi - 1) == Count(c, lo, hi)
  {
    if lo < hi {
      CountSplits(c, lo - 1, lo, hi - 1);
      assert Count(c, lo - 1, lo) == Count(c, lo - 1, lo - 1) + 1;
    }
  }

  /** From a business day, subtracting undoes adding and adding undoes subtracting. */
  lemma AddSubtractInverse(c: Jurisdiction, d: int, n: nat, r: int, q: int)
    requires c.business(d)
    ensures DaysAfter(c, d, n, r) && DaysBefore(c, r, n, q) ==> q == d
    ensures DaysBefore(c, d, n, r) && DaysAfter(c, r, n, q) ==> q == d
  {
    if DaysAfter(c, d, n, r) && DaysBefore(c, r, n, q) && n > 0 {
      CountShift(c, d, r);
      CountShift(c, q, r);
      if q < d { CountDrops(c, q, d, r); }
      if d < q { CountDrops(c, d, q, r); }
    }
    if DaysBefore(c, d, n, r) && DaysAfter(c, r, n, q) && n > 0 {
      CountShift(c, r, d);
      if q < d {
        CountSplits(c, r, q, d);
        CountDrops(c, q, d, d);
      }
      if d < q {
        CountSplits(c, r, d, q);
        CountDrops(c, d, q, q);
      }
    }
  }

  /** The latest day to start so that rail, cutoff and safety days all fit before the due date. */
  method LatestSafeInitiation(c: Jurisdiction, due: int, rail: int, cutoff: int, safety: int) returns (r: int)
    requires Usable(c)
    ensures rail + cutoff + safety >= 0 ==>
      && c.business(r) && r <= due
      && forall x :: x <= due && c.business(x) ==> (Count(c, x, due) >= rail + cutoff + safety <==> x <= r)
    ensures rail + cutoff + safety < 0 ==> DaysAfter(c, Prev(c, due), -(rail + cutoff + safety), r)
  {
    var n := rail + cutoff + safety;
    var d := Adjust(c, due, Preceding);
    PrevNext(c, due);
    r := AddBusinessDays(c, d, -n);
    if n >= 0 {
      forall x | x <= due && c.business(x)
        ensures Count(c, x, due) >= n <==> x <= r
      {
        SafeExactly(c, due, d, n, r, x);
      }
    }
  }

  lemma SafeExactly(c: Jurisdiction, due: int, d: int, n: nat, r: int, x: int)
    requires d <= due && c.business(d) && NoneBetween(c, d + 1, due)
    requires x <= due && c.business(x)
    requires DaysBefore(c, d, n, r) && c.business(r)
    ensures Count(c, x, due) >= n <==> x <= r
  {
    assert x <= d;
    CountSplits(c, x, d, due);
    CountNone(c, d, due);
    CountShift(c, r, d);
    if x < r {
      CountDrops(c, x, r, d);
    }
    if r < x {
      CountDrops(c, r, x, d);
    }
  }
}
