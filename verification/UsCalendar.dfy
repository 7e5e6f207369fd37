/** The US settlement calendar satisfies what the business-day algebra asks for. */
module UsCalendar {
  import opened Civil
  import opened Calendar

  /** date(year, month, day) as a day number. */
  function Date(year: nat, month: nat, day: nat): int
    requires year >= 1 && month >= 1
  {
    MonthStart(12 * (year - 1) + month - 1) + day - 1
  }

  function Weekday(d: int): nat {
    d % 7
  }

  function NthWeekday(year: nat, month: nat, weekday: nat, n: nat): int
    requires year >= 1 && month >= 1 && n >= 1
  {
    var d := Date(year, month, 1);
    d + (weekday - Weekday(d)) % 7 + 7 * (n - 1)
  }

  function LastWeekday(year: nat, month: nat, weekday: nat): int
    requires year >= 1 && month >= 1
  {
    var last := Date(year, month, DaysIn(12 * (year - 1) + month - 1));
    last - (Weekday(last) - weekday) % 7
  }

  function FixedDays(year: nat): (r: seq<int>)
    requires year >= 1
    ensures |r| == 5
  {
    [Date(year, 1, 1), Date(year, 6, 19), Date(year, 7, 4), Date(year, 11, 11), Date(year, 12, 25)]
  }

  function FloatingDays(year: nat): (r: seq<int>)
    requires year >= 1
    ensures |r| == 6
  {
    [NthWeekday(year, 1, 0, 3), NthWeekday(year, 2, 0, 3), LastWeekday(year, 5, 0),
     NthWeekday(year, 9, 0, 1), NthWeekday(year, 10, 0, 2), NthWeekday(year, 11, 3, 4)]
  }

  function Observed(d: int): int {
    if Weekday(d) == 5 then d - 1 else if Weekday(d) == 6 then d + 1 else d
  }

  /** us_holidays: the observed dates computed from one year's holidays. */
  predicate IsHoliday(year: nat, d: int)
    requires year >= 1
  {
    || (exists i :: 0 <= i < 5 && Observed(FixedDays(year)[i]) == d)
    || (exists i :: 0 <= i < 6 && Observed(FloatingDays(year)[i]) == d)
  }

  function YearOfDay(d: nat): nat {
    YearOf(MonthOf(d))
  }

  /** is_business_day looks the day up among the holidays of its own year. */
  predicate IsBusinessDay(d: int) {
    Weekday(d) < 5 && (d >= 0 ==> !IsHoliday(YearOfDay(d), d))
  }

  function Us(): Jurisdiction {
    Jurisdiction((d: int) => IsBusinessDay(d), (d: int) => if d >= 0 then MonthOf(d) as int else -1, 7)
  }

  lemma MonthAfter(k: nat)
    ensures MonthStart(k + 1) == MonthStart(k) + DaysIn(k)
  {
  }

  lemma Mod12(q: nat, r: nat)
    requires r < 12
    ensures (12 * q + r) % 12 == r
  {
  }

  lemma JuneAndDecember(year: nat)
    requires year >= 1
    ensures var k := 12 * (year - 1);
      && MonthStart(k + 6) == MonthStart(k + 5) + 30
      && MonthStart(k + 12) == MonthStart(k + 11) + 31
  {
    Mod12(year - 1, 5);
    Mod12(year - 1, 11);
    hide MonthStart;
    MonthAfter(12 * (year - 1) + 5);
    MonthAfter(12 * (year - 1) + 11);
  }

  /** The shape of one year: the fixed holidays are a week or more apart, the next year's included. */
  lemma YearShape(year: nat)
    requires year >= 1
    ensures var f := FixedDays(year);
      && f[0] + 7 <= f[1] && f[1] + 7 <= f[2] && f[2] + 7 <= f[3] && f[3] + 7 <= f[4]
      && f[4] + 7 == Date(year + 1, 1, 1) && f[0] == Date(year, 1, 1)
  {
    hide DaysIn, MonthStart;
    var k := 12 * (year - 1);
    assert 12 * year == k + 12;
    JuneAndDecember(year);
    MonthsGrow(k, k + 5);
    MonthsGrow(k + 6, k + 10);
    MonthsGrow(k + 10, k + 11);
  }

  lemma {:induction false} YearsGrow(a: nat, b: nat)
    requires 1 <= a <= b
    ensures Date(a, 1, 1) <= Date(b, 1, 1)
  {
    if a < b {
      MonthsGrow(12 * (a - 1), 12 * (b - 1));
    }
  }

  lemma FixedApart(y: nat, z: nat, i: nat, j: nat)
    requires 1 <= y && 1 <= z && i < 5 && j < 5
    ensures FixedDays(y)[i] < FixedDays(z)[j] ==> FixedDays(y)[i] + 7 <= FixedDays(z)[j]
  {
    hide Date, FixedDays;
    YearShape(y);
    YearShape(z);
    if y < z {
      YearsGrow(y + 1, z);
    } else if z < y {
      YearsGrow(z + 1, y);
    }
  }

  lemma Mod7(q: int, r: nat)
    requires r < 7
    ensures (7 * q + r) % 7 == r
  {
  }

  lemma StepToWeekday(d: int, w: nat, n: int)
    requires w < 7
    ensures Weekday(d + (w - Weekday(d)) % 7 + 7 * n) == w
    ensures Weekday(d - (Weekday(d) - w) % 7) == w
  {
    var q, r := d / 7, d % 7;
    assert d == 7 * q + r;
    if w >= r {
      Mod7(q + n, w);
      Mod7(q - 1, w);
    } else {
      Mod7(q + 1 + n, w);
      Mod7(q, w);
    }
    Mod7(q, w);
    assert (w - r) % 7 == if w >= r then w - r else w - r + 7;
    assert (r - w) % 7 == if r >= w then r - w else r - w + 7;
  }

  lemma NthFalls(year: nat, month: nat, weekday: nat, n: nat)
    requires year >= 1 && month >= 1 && weekday < 7 && n >= 1
    ensures Weekday(NthWeekday(year, month, weekday, n)) == weekday
  {
    hide Date, Weekday;
    StepToWeekday(Date(year, month, 1), weekday, n - 1);
  }

  lemma LastFalls(year: nat, month: nat, weekday: nat)
    requires year >= 1 && month >= 1 && weekday < 7
    ensures Weekday(LastWeekday(year, month, weekday)) == weekday
  {
    hide Date, Weekday, DaysIn;
    StepToWeekday(Date(year, month, DaysIn(12 * (year - 1) + month - 1)), weekday, 0);
  }

  lemma FloatingWeekdays(year: nat, i: nat)
    requires year >= 1 && i < 6
    ensures Weekday(FloatingDays(year)[i]) == 0 || Weekday(FloatingDays(year)[i]) == 3
  {
    hide Date, DaysIn, Weekday, NthWeekday, LastWeekday;
    NthFalls(year, 1, 0, 3);
    NthFalls(year, 2, 0, 3);
    LastFalls(year, 5, 0);
    NthFalls(year, 9, 0, 1);
    NthFalls(year, 10, 0, 2);
    NthFalls(year, 11, 3, 4);
  }

  /** A holiday on a Tuesday or a Wednesday is a fixed date on its own day. */
  lemma MidweekHoliday(d: nat) returns (year: nat, i: nat)
    requires Weekday(d) == 1 || Weekday(d) == 2
    ensures year >= 1 && i < |FixedDays(year)|
    ensures !IsBusinessDay(d) ==> FixedDays(year)[i] == d
  {
    hide FixedDays, FloatingDays, MonthOf;
    year, i := YearOfDay(d), 0;
    if j :| 0 <= j < 5 && Observed(FixedDays(year)[j]) == d {
      i := j;
      ObservedMidweek(FixedDays(year)[j]);
    } else if !IsBusinessDay(d) {
      var j :| 0 <= j < 6 && Observed(FloatingDays(year)[j]) == d;
      FloatingWeekdays(year, j);
      ObservedMidweek(FloatingDays(year)[j]);
    }
  }

  lemma ObservedMidweek(h: int)
    ensures Weekday(Observed(h)) == 1 || Weekday(Observed(h)) == 2 ==> Observed(h) == h
  {
    if Weekday(h) == 5 {
      Mod7(h / 7, 4);
    } else if Weekday(h) == 6 {
      Mod7(h / 7 + 1, 0);
    }
  }

  /** Any seven days in a row hold a business day: their Tuesday or their Wednesday is open. */
  lemma AnyWeekOpens(d: int)
    ensures OpenWithin(Us(), d)
  {
    var tuesday := d + (1 - d) % 7;
    var wednesday := d + (2 - d) % 7;
    assert Weekday(tuesday) == 1 && Weekday(wednesday) == 2;
    if !IsBusinessDay(tuesday) && !IsBusinessDay(wednesday) {
      var y, i := MidweekHoliday(tuesday);
      var z, j := MidweekHoliday(wednesday);
      if tuesday < wednesday {
        FixedApart(y, z, i, j);
      } else {
        FixedApart(z, y, j, i);
      }
      assert false;
    }
    assert Us().business(tuesday) || Us().business(wednesday);
  }

  /** A week reaches at most into the next month. */
  lemma WeekStaysNear(d: int)
    ensures Us().month(d) <= Us().month(d + 7) < Us().month(d) + 12
  {
    hide MonthStart, MonthOf, DaysIn;
    if 0 <= d {
      var m, n := MonthOf(d), MonthOf(d + 7);
      MonthOfIs(d);
      MonthOfIs(d + 7);
      if n < m {
        MonthsGrow(n, m);
      }
      if m + 2 <= n {
        MonthsGrow(m, m + 1);
        MonthsGrow(m + 1, n);
      }
    } else if 0 <= d + 7 {
      MonthOfIs(d + 7);
      if MonthOf(d + 7) > 0 {
        FirstWeek(MonthOf(d + 7));
      }
    }
  }

  lemma FirstWeek(k: nat)
    requires k > 0
    ensures MonthStart(k) >= 28
  {
    MonthsGrow(0, k);
  }

  /** So every theorem about a usable calendar holds of the US one. */
  lemma UsIsUsable()
    ensures Usable(Us())
  {
    forall d
      ensures OpenWithin(Us(), d)
    {
      AnyWeekOpens(d);
    }
    forall d, e | d <= e
      ensures Us().month(d) <= Us().month(e)
    {
      if 0 <= d {
        MonthOfIs(d);
        MonthOfIs(e);
        if MonthOf(e) < MonthOf(d) {
          MonthsGrow(MonthOf(e), MonthOf(d));
        }
      }
    }
    forall d
      ensures Us().month(d + Us().span) < Us().month(d) + 12
    {
      WeekStaysNear(d);
    }
  }
}
