/** Which observed holidays of the US calendar are business days after all. */
module UsObserved {
  import opened Prelude
  import opened Civil
  import opened UsCalendar

  /** h is one of the eleven holidays of the year, before any shift. */
  predicate NamedDay(year: nat, h: int)
    requires year >= 1
  {
    h in FixedDays(year) || h in FloatingDays(year)
  }

  lemma FloatingBeforeDecember(year: nat, i: nat)
    requires year >= 1 && i < 6
    ensures FloatingDays(year)[i] < Date(year, 12, 1)
  {
    hide MonthStart;
    var k := 12 * (year - 1);
    MonthsGrow(k, k + 11);
    MonthsGrow(k + 1, k + 11);
    MonthsGrow(k + 4, k + 11);
    MonthsGrow(k + 8, k + 11);
    MonthsGrow(k + 9, k + 11);
    MonthsGrow(k + 10, k + 11);
  }

  lemma EveIsLastDay(year: nat)
    requires year >= 1
    ensures var eve := Date(year + 1, 1, 1) - 1;
      eve >= 0 && eve == Date(year, 12, 31) && YearOfDay(eve) == year
  {
    hide DaysIn, MonthStart;
    var k := 12 * (year - 1);
    var eve := Date(year + 1, 1, 1) - 1;
    assert 12 * year == k + 12;
    JuneAndDecember(year);
    MonthOfIs(eve);
    MonthAfter(k + 11);
    assert InMonth(eve, k + 11);
  }

  /**
   * When 1 January is a Saturday its observed day is the Friday before, in the old year, whose own
   * holidays do not list it: that Friday stays a business day.
   */
  lemma ObservedNewYearStaysOpen(year: nat)
    requires year >= 1 && Weekday(Date(year + 1, 1, 1)) == 5
    ensures IsHoliday(year + 1, Date(year + 1, 1, 1) - 1)
    ensures IsBusinessDay(Date(year + 1, 1, 1) - 1)
  {
    hide Date, FloatingDays, FixedDays, YearOfDay, MonthStart, DaysIn;
    var first := Date(year + 1, 1, 1);
    var eve := first - 1;
    EveIsLastDay(year);
    YearShape(year);
    YearShape(year + 1);
    Mod7(first / 7, 4);
    forall i | 0 <= i < 6
      ensures FloatingDays(year)[i] < Date(year, 12, 1)
    {
      FloatingBeforeDecember(year, i);
    }
    assert Observed(FixedDays(year + 1)[0]) == eve;
    LateDecemberOpen(year, eve);
  }

  lemma LateDecemberOpen(year: nat, eve: int)
    requires year >= 1 && eve >= 0 && Weekday(eve) == 4
    ensures YearOfDay(eve) == year && eve == Date(year, 12, 31)
        && (forall i :: 0 <= i < 6 ==> FloatingDays(year)[i] < Date(year, 12, 1))
        && (forall i :: 0 <= i < 5 ==> FixedDays(year)[i] + 6 <= eve)
      ==> IsBusinessDay(eve)
  {
    hide FloatingDays, FixedDays, YearOfDay, Date;
    if !IsBusinessDay(eve) && YearOfDay(eve) == year {
      if i :| 0 <= i < 5 && Observed(FixedDays(year)[i]) == eve {
        assert FixedDays(year)[i] + 6 > eve;
      } else {
        var i :| 0 <= i < 6 && Observed(FloatingDays(year)[i]) == eve;
        NearItsObserved(FloatingDays(year)[i]);
        DecemberLength(year);
      }
    }
  }

  lemma NearItsObserved(h: int)
    ensures Observed(h) - 1 <= h <= Observed(h) + 1
  {
  }

  lemma DecemberLength(year: nat)
    requires year >= 1
    ensures Date(year, 12, 31) == Date(year, 12, 1) + 30
  {
  }

  // ---- every holiday --------------------------------------------------

  lemma YearOfRange(year: nat, d: nat)
    requires year >= 1 && Date(year, 1, 1) <= d < Date(year + 1, 1, 1)
    ensures YearOfDay(d) == year
  {
    hide MonthStart, DaysIn, MonthOf;
    var k, m := 12 * (year - 1), MonthOf(d);
    assert 12 * year == k + 12;
    MonthOfIs(d);
    if m < k {
      MonthsGrow(m, k);
    }
    if k + 12 <= m {
      if k + 12 < m {
        MonthsGrow(k + 12, m);
      }
    }
    assert k <= m < k + 12;
  }

  lemma FloatingInYear(year: nat, i: nat)
    requires year >= 1 && i < 6
    ensures Date(year, 1, 1) <= FloatingDays(year)[i] < Date(year, 12, 1)
  {
    FloatingBeforeDecember(year, i);
    hide MonthStart;
    var k := 12 * (year - 1);
    MonthsGrow(k, k + 1);
    MonthsGrow(k, k + 4);
    MonthsGrow(k, k + 8);
    MonthsGrow(k, k + 9);
    MonthsGrow(k, k + 10);
  }

  lemma DecemberInYear(year: nat)
    requires year >= 1
    ensures 0 <= Date(year, 1, 1) && Date(year, 12, 1) < Date(year + 1, 1, 1)
  {
    hide MonthStart;
    assert 12 * year == 12 * (year - 1) + 12;
    MonthsGrow(12 * (year - 1) + 11, 12 * year);
  }

  /** Unless it is 1 January on a Saturday, a holiday is observed on a weekday of its own year. */
  lemma ObservedInYear(year: nat, h: int)
    requires year >= 1 && NamedDay(year, h) && !(h == Date(year, 1, 1) && Weekday(h) == 5)
    ensures 0 <= Date(year, 1, 1) <= Observed(h) < Date(year + 1, 1, 1) && IsHoliday(year, Observed(h))
  {
    YearShape(year);
    DecemberInYear(year);
    hide Date, FixedDays, FloatingDays;
    if h in FixedDays(year) {
      var i :| 0 <= i < |FixedDays(year)| && FixedDays(year)[i] == h;
    } else {
      var i :| 0 <= i < |FloatingDays(year)| && FloatingDays(year)[i] == h;
      FloatingWeekdays(year, i);
      FloatingInYear(year, i);
    }
  }

  lemma EarlyYears(year: nat)
    requires year >= 1 && Weekday(Date(year, 1, 1)) == 5
    ensures year >= 2
  {
    assert MonthStart(0) == 0;
  }

  /** The observed day of a holiday is a business day exactly when the holiday is 1 January on a Saturday. */
  lemma ObservedOpensExactly(year: nat, h: int)
    requires year >= 1 && NamedDay(year, h)
    ensures IsBusinessDay(Observed(h)) <==> h == Date(year, 1, 1) && Weekday(h) == 5
  {
    hide Date, FixedDays, FloatingDays, IsHoliday, YearOfDay;
    if h == Date(year, 1, 1) && Weekday(h) == 5 {
      EarlyYears(year);
      ObservedNewYearStaysOpen(year - 1);
    } else {
      ObservedInYear(year, h);
      YearOfRange(year, Observed(h));
    }
  }

  // ---- the first such year --------------------------------------------

  lemma MonthLength(q: nat, r: nat)
    requires r < 12
    ensures DaysIn(12 * q + r) == if r == 1 then (if Leap(q + 1) then 29 else 28)
                                  else if r == 3 || r == 5 || r == 8 || r == 10 then 30 else 31
  {
    Mod12(q, r);
    assert (12 * q + r) / 12 == q;
  }

  lemma MonthStep(q: nat, r: nat)
    requires r < 12
    ensures MonthStart(12 * q + (r + 1)) == MonthStart(12 * q + r)
      + if r == 1 then (if Leap(q + 1) then 29 else 28) else if r == 3 || r == 5 || r == 8 || r == 10 then 30 else 31
  {
    hide MonthStart, DaysIn, Leap;
    MonthLength(q, r);
    MonthAfter(12 * q + r);
  }

  lemma YearLength(year: nat)
    requires year >= 1
    ensures Date(year + 1, 1, 1) == Date(year, 1, 1) + if Leap(year) then 366 else 365
  {
    var q := year - 1;
    assert 12 * year == 12 * q + 12;
    hide MonthStart, DaysIn, Leap;
    var before := [0, 31, 59, 90, 120, 151, 181, 212, 243, 273, 304, 334, 365];
    for r := 0 to 12
      invariant MonthStart(12 * q + r) == MonthStart(12 * q) + before[r] + (if r >= 2 && Leap(year) then 1 else 0)
    {
      MonthStep(q, r);
    }
  }

  lemma FirstFourYears()
    ensures Date(5, 1, 1) == 1461
  {
    assert Date(1, 1, 1) == 0;
    assert !Leap(1) && !Leap(2) && !Leap(3) && Leap(4);
    hide Date, Leap;
    YearLength(1);
    YearLength(2);
    YearLength(3);
    YearLength(4);
  }

  /** 1 January of year 5 is a Saturday: Friday 31 December of year 4 is observed, and stays open. */
  lemma NewYearOfYearFive()
    ensures Weekday(Date(5, 1, 1)) == 5 && Observed(Date(5, 1, 1)) == 1460
    ensures IsHoliday(5, 1460) && IsBusinessDay(1460)
  {
    FirstFourYears();
    hide Date, IsHoliday, IsBusinessDay;
    ObservedNewYearStaysOpen(4);
  }

  // ---- the calendar and the holidays, read off the year ---------------

  lemma FloorStep(n: nat, m: nat)
    requires m > 0
    ensures (n + 1) / m == n / m + if (n + 1) % m == 0 then 1 else 0
  {
    var q, r := n / m, n % m;
    assert n == q * m + r;
    if r + 1 < m {
      QuotientIs(n + 1, m, q, r + 1);
    } else {
      assert n + 1 == (q + 1) * m + 0;
      QuotientIs(n + 1, m, q + 1, 0);
    }
  }

  /** The Gregorian rule: a day more for every fourth year, but for the centuries that 400 does not divide. */
  lemma {:induction false} YearStarts(year: nat)
    requires year >= 1
    ensures var n := year - 1; Date(year, 1, 1) == 365 * n + n / 4 - n / 100 + n / 400
  {
    if year > 1 {
      var n := year - 2;
      YearStarts(year - 1);
      YearLength(year - 1);
      FloorStep(n, 4);
      FloorStep(n, 100);
      FloorStep(n, 400);
      EveryHundredth(year - 1);
      hide Date;
    } else {
      assert Date(1, 1, 1) == 0;
    }
  }

  lemma EveryHundredth(y: nat)
    ensures (y % 400 == 0 ==> y % 100 == 0) && (y % 100 == 0 ==> y % 4 == 0)
  {
    if y % 400 == 0 {
      QuotientIs(y, 100, 4 * (y / 400), 0);
    }
    if y % 100 == 0 {
      QuotientIs(y, 4, 25 * (y / 100), 0);
    }
  }

  /** The w-th weekday after a first day, at most six days on. */
  lemma NextWeekday(d: int, w: nat)
    requires w < 7
    ensures var r := d + (w - Weekday(d)) % 7; d <= r <= d + 6 && r % 7 == w
    ensures var r := d - (Weekday(d) - w) % 7; d - 6 <= r <= d && r % 7 == w
  {
    StepToWeekday(d, w, 0);
  }

  /** The n-th such weekday of a month falls in its n-th seven days. */
  lemma NthIs(year: nat, month: nat, weekday: nat, n: nat)
    requires year >= 1 && month >= 1 && weekday < 7 && n >= 1
    ensures var d := NthWeekday(year, month, weekday, n);
      d % 7 == weekday && Date(year, month, 7 * n - 6) <= d <= Date(year, month, 7 * n)
  {
    NthFalls(year, month, weekday, n);
    NextWeekday(Date(year, month, 1), weekday);
    hide MonthStart;
  }

  lemma MayIs(year: nat)
    requires year >= 1
    ensures DaysIn(12 * (year - 1) + 4) == 31
  {
    MonthLength(year - 1, 4);
  }

  /** The six floating holidays: their weekdays and the days of the month they fall between. */
  lemma FloatingAre(year: nat)
    requires year >= 1
    ensures var h := FloatingDays(year);
      && h[0] % 7 == 0 && Date(year, 1, 15) <= h[0] <= Date(year, 1, 21)
      && h[1] % 7 == 0 && Date(year, 2, 15) <= h[1] <= Date(year, 2, 21)
      && h[2] % 7 == 0 && Date(year, 5, 25) <= h[2] <= Date(year, 5, 31)
      && h[3] % 7 == 0 && Date(year, 9, 1) <= h[3] <= Date(year, 9, 7)
      && h[4] % 7 == 0 && Date(year, 10, 8) <= h[4] <= Date(year, 10, 14)
      && h[5] % 7 == 3 && Date(year, 11, 22) <= h[5] <= Date(year, 11, 28)
  {
    NthIs(year, 1, 0, 3);
    NthIs(year, 2, 0, 3);
    NthIs(year, 9, 0, 1);
    NthIs(year, 10, 0, 2);
    NthIs(year, 11, 3, 4);
    MemorialDayIs(year);
    hide NthWeekday, LastWeekday, Date;
  }

  lemma MemorialDayIs(year: nat)
    requires year >= 1
    ensures var d := LastWeekday(year, 5, 0); d % 7 == 0 && Date(year, 5, 25) <= d <= Date(year, 5, 31)
  {
    MayIs(year);
    NextWeekday(Date(year, 5, 31), 0);
    hide MonthStart, DaysIn;
  }

  /** A holiday on a Saturday is observed on the Friday, one on a Sunday on the Monday, any other on its day. */
  lemma ObservedIs(h: int)
    ensures Observed(h) % 7 < 5 && h - 1 <= Observed(h) <= h + 1 && (h % 7 < 5 ==> Observed(h) == h)
  {
    if h % 7 == 5 {
      Mod7(h / 7, 4);
    } else if h % 7 == 6 {
      Mod7(h / 7 + 1, 0);
    }
  }

  /** d is the observed day of New Year, Juneteenth, Independence, Veterans or Christmas Day, or of a floating holiday. */
  ghost predicate ListsHoliday(year: nat, d: int)
    requires year >= 1
  {
    exists h :: Observed(h) == d &&
      (h in {Date(year, 1, 1), Date(year, 6, 19), Date(year, 7, 4), Date(year, 11, 11), Date(year, 12, 25)}
       || h in FloatingDays(year))
  }

  /** A day is a business day exactly when it is a weekday that is no observed holiday of its own year. */
  lemma BusinessDayIs(year: nat, d: int)
    requires year >= 1 && Date(year, 1, 1) <= d < Date(year + 1, 1, 1)
    ensures Us().business(d) <==> d % 7 < 5 && !ListsHoliday(year, d)
  {
    assert d >= 0 by { assert Date(year, 1, 1) >= 0; }
    YearOfRange(year, d);
    hide Date, FloatingDays;
    var f, g := FixedDays(year), FloatingDays(year);
    if ListsHoliday(year, d) {
      var h :| Observed(h) == d && (h in f || h in g);
      if h in f {
        var i :| 0 <= i < |f| && f[i] == h;
      } else {
        var i :| 0 <= i < |g| && g[i] == h;
      }
    }
    if IsHoliday(year, d) {
      if i :| 0 <= i < 5 && Observed(f[i]) == d {
        assert f[i] in f;
      } else {
        var i :| 0 <= i < 6 && Observed(g[i]) == d;
        assert g[i] in g;
      }
    }
  }
}
