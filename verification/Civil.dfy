/** The proleptic Gregorian calendar. Day 0 is Monday 1 January of year 1; month 0 is that January. */
module Civil {

  predicate Leap(year: nat) {
    year % 4 == 0 && (year % 100 != 0 || year % 400 == 0)
  }

  function YearOf(k: nat): nat {
    k / 12 + 1
  }

  function DaysIn(k: nat): (n: nat)
    ensures 28 <= n <= 31
  {
    var m := k % 12 + 1;
    if m == 2 then (if Leap(YearOf(k)) then 29 else 28)
    else if m == 4 || m == 6 || m == 9 || m == 11 then 30
    else 31
  }

  /** The day number of the first of month k. */
  function MonthStart(k: nat): nat {
    if k == 0 then 0 else MonthStart(k - 1) + DaysIn(k - 1)
  }

  lemma {:induction false} MonthsGrow(j: nat, k: nat)
    requires j < k
    ensures MonthStart(j) + DaysIn(j) <= MonthStart(k)
    decreases k
  {
    if j < k - 1 {
      MonthsGrow(j, k - 1);
    }
  }

  lemma {:induction false} MonthStartBound(k: nat)
    ensures MonthStart(k) >= k
  {
    if k > 0 {
      MonthStartBound(k - 1);
    }
  }

  ghost predicate InMonth(d: int, k: nat) {
    MonthStart(k) <= d < MonthStart(k) + DaysIn(k)
  }

  /** The month of a day, searched downwards from k. */
  function MonthFrom(d: nat, k: nat): nat {
    if k == 0 || MonthStart(k) <= d then k else MonthFrom(d, k - 1)
  }

  function MonthOf(d: nat): nat {
    MonthFrom(d, d)
  }

  lemma {:induction false} MonthFromIs(d: nat, k: nat)
    requires d < MonthStart(k) + DaysIn(k)
    ensures InMonth(d, MonthFrom(d, k))
  {
    if k > 0 && MonthStart(k) > d {
      MonthFromIs(d, k - 1);
    }
  }

  /** Every day lies in exactly one month. */
  lemma MonthOfIs(d: nat)
    ensures InMonth(d, MonthOf(d))
    ensures forall k: nat :: InMonth(d, k) ==> k == MonthOf(d)
  {
    MonthStartBound(d);
    MonthFromIs(d, d);
    forall k: nat | InMonth(d, k)
      ensures k == MonthOf(d)
    {
      if k < MonthOf(d) { MonthsGrow(k, MonthOf(d)); }
      if MonthOf(d) < k { MonthsGrow(MonthOf(d), k); }
    }
  }
}
