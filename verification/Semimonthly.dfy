/** SEMIMONTHLY: what the loop lists, which date it can miss and which dates it repeats. */
module Semimonthly {
  import opened Prelude
  import opened Calendar
  import opened Civil
  import opened Schedule

  function Lower(s: Plan): nat {
    if FirstDay(s) <= SecondDay(s) then FirstDay(s) else SecondDay(s)
  }

  function Upper(s: Plan): nat {
    if FirstDay(s) <= SecondDay(s) then SecondDay(s) else FirstDay(s)
  }

  /** The date of one day of month k, if it falls in the window. */
  function DateIn(s: Plan, k: nat, day: nat, start: int, until: int): seq<int> {
    var occ := DayInMonth(k, day, s.rule);
    if occ.Some? && InWindow(s, start, until, occ.value) then [occ.value] else []
  }

  /** sorted({d1, d2}): equal days are one day. */
  function MonthDates(s: Plan, k: nat, start: int, until: int): seq<int> {
    DateIn(s, k, Lower(s), start, until)
    + if Lower(s) != Upper(s) then DateIn(s, k, Upper(s), start, until) else []
  }

  /** Everything the loop lists from month k on, repeats included. */
  function Listing(s: Plan, start: int, until: int, k: nat): seq<int>
    decreases until - MonthStart(k)
  {
    if MonthStart(k) > until then [] else MonthDates(s, k, start, until) + Listing(s, start, until, k + 1)
  }

  // ---- the loops ------------------------------------------------------

  /** The dates of month k, in day order, that fall in the window. */
  method SemiMonth(s: Plan, k: nat, start: int, until: int) returns (xs: seq<int>)
    requires s.Valid()
    ensures xs == MonthDates(s, k, start, until)
  {
    var d1, d2 := FirstDay(s), SecondDay(s);
    var days := if d1 == d2 then [d1] else if d1 < d2 then [d1, d2] else [d2, d1];
    xs := [];
    for i := 0 to |days|
      invariant xs == (if i > 0 then DateIn(s, k, days[0], start, until) else [])
                    + (if i > 1 then DateIn(s, k, days[1], start, until) else [])
    {
      var occ := DayInMonth(k, days[i], s.rule);
      if occ.Some? && start <= occ.value <= until && (s.end.None? || occ.value <= s.end.value) {
        xs := xs + [occ.value];
      }
    }
  }

  /** The semimonthly branch starts at the month of `start` itself. */
  method SemimonthlyDates(s: Plan, start: nat, until: int) returns (xs: seq<int>)
    requires s.Valid()
    ensures xs == Listing(s, start, until, MonthOf(start))
  {
    hide Listing, MonthDates, MonthOf, MonthStart;
    var k := MonthOf(start);
    xs := [];
    while MonthStart(k) <= until
      invariant xs + Listing(s, start, until, k) == Listing(s, start, until, MonthOf(start))
      decreases until - MonthStart(k)
    {
      var more := SemiMonth(s, k, start, until);
      ListingStep(s, start, until, k, xs);
      MonthsGrow(k, k + 1);
      xs := xs + more;
      k := k + 1;
    }
    ListingEnd(s, start, until, k);
  }

  lemma ListingEnd(s: Plan, start: int, until: int, k: nat)
    requires MonthStart(k) > until
    ensures Listing(s, start, until, k) == []
  {
  }

  lemma ListingStep(s: Plan, start: int, until: int, k: nat, xs: seq<int>)
    requires MonthStart(k) <= until
    ensures xs + Listing(s, start, until, k) == xs + MonthDates(s, k, start, until) + Listing(s, start, until, k + 1)
  {
  }

  // ---- membership and order -------------------------------------------

  lemma MonthDatesAre(s: Plan, k: nat, start: int, until: int)
    requires s.Valid()
    ensures forall x :: x in MonthDates(s, k, start, until) <==> SemiDate(s, k, x) && InWindow(s, start, until, x)
    ensures forall x :: x in MonthDates(s, k, start, until) ==> MonthStart(k) <= x <= MonthStart(k + 1)
  {
    DayBounds(k, Lower(s), s.rule);
    DayBounds(k, Upper(s), s.rule);
  }

  lemma LateMonths(s: Plan, k: nat, until: int)
    requires s.Valid() && MonthStart(k) > until
    ensures forall h: nat, x :: k <= h && SemiDate(s, h, x) ==> x > until
  {
    forall h: nat, x | k <= h && SemiDate(s, h, x)
      ensures x > until
    {
      DayBounds(h, FirstDay(s), s.rule);
      DayBounds(h, SecondDay(s), s.rule);
      if k < h {
        MonthsGrow(k, h);
      }
    }
  }

  lemma {:induction false} ListingIs(s: Plan, start: int, until: int, k: nat)
    requires s.Valid()
    ensures forall x :: x in Listing(s, start, until, k) <==>
      InWindow(s, start, until, x) && exists h: nat :: k <= h && SemiDate(s, h, x)
    decreases until - MonthStart(k)
  {
    hide DayInMonth, SemiDate, MonthDates;
    if MonthStart(k) > until {
      LateMonths(s, k, until);
    } else {
      MonthDatesAre(s, k, start, until);
      ListingIs(s, start, until, k + 1);
    }
  }

  lemma ListingNotBefore(s: Plan, start: int, until: int, k: nat)
    requires s.Valid()
    ensures forall x :: x in Listing(s, start, until, k) ==> MonthStart(k) <= x
  {
    hide Listing, MonthStart;
    ListingIs(s, start, until, k);
    forall x | x in Listing(s, start, until, k)
      ensures MonthStart(k) <= x
    {
      var h: nat :| k <= h && SemiDate(s, h, x);
      DayBounds(h, FirstDay(s), s.rule);
      DayBounds(h, SecondDay(s), s.rule);
      if k < h {
        MonthsGrow(k, h);
      }
    }
  }

  // ---- repeated dates -------------------------------------------------

  /** The date that month k repeats, when it does: its last day, or the first of the next month. */
  function RepeatedDate(s: Plan, k: nat): int {
    if s.rule.LastDayOfMonth? then MonthStart(k) + DaysIn(k) - 1 else MonthStart(k + 1)
  }

  /**
   * Month k lists a date of the window twice, or once more at the start of the next month: both days
   * fall on or after its last day, or its later day rolls onto a first that is itself asked for.
   */
  predicate Repeats(s: Plan, start: int, until: int, k: nat) {
    && Lower(s) != Upper(s)
    && (match s.rule
        case LastDayOfMonth => Lower(s) >= DaysIn(k)
        case Skip => false
        case FirstOfNext => Lower(s) > DaysIn(k) || (Lower(s) == 1 && Upper(s) > DaysIn(k)))
    && InWindow(s, start, until, RepeatedDate(s, k))
  }

  lemma JoinApart(a: seq<int>, b: seq<int>, i: nat, j: nat)
    requires Increasing(a + b) && i < |a| && j < |b|
    ensures a[i] < b[j]
  {
    assert (a + b)[i] == a[i] && (a + b)[|a| + j] == b[j];
  }

  lemma NothingShared(a: seq<int>, b: seq<int>, mid: int)
    requires Increasing(a + b)
    ensures !(mid in a && mid in b)
  {
    hide Increasing;
    if mid in a && mid in b {
      var i :| 0 <= i < |a| && a[i] == mid;
      var j :| 0 <= j < |b| && b[j] == mid;
      JoinApart(a, b, i, j);
    }
  }

  lemma IncreasingJoin(a: seq<int>, b: seq<int>, mid: int)
    requires forall x :: x in a ==> x <= mid
    requires forall x :: x in b ==> mid <= x
    ensures Increasing(a + b) <==> Increasing(a) && Increasing(b) && !(mid in a && mid in b)
  {
    var all := a + b;
    if Increasing(all) {
      assert forall i :: 0 <= i < |a| ==> all[i] == a[i];
      assert forall i :: 0 <= i < |b| ==> all[|a| + i] == b[i];
      NothingShared(a, b, mid);
    }
    if Increasing(a) && Increasing(b) && !(mid in a && mid in b) {
      forall i, j | 0 <= i < j < |all|
        ensures all[i] < all[j]
      {
        if i < |a| <= j {
          assert a[i] in a && b[j - |a|] in b;
        }
      }
    }
  }

  /** Within a month: two different days that give the same date. */
  lemma MonthIncreases(s: Plan, start: int, until: int, k: nat)
    requires s.Valid()
    ensures var occ := DayInMonth(k, Lower(s), s.rule);
      !Increasing(MonthDates(s, k, start, until)) <==>
      Lower(s) != Upper(s) && occ.Some? && occ == DayInMonth(k, Upper(s), s.rule) && InWindow(s, start, until, occ.value)
  {
    DaysInOrder(k, Lower(s), Upper(s), s.rule);
    hide MonthStart, DaysIn, DayInMonth;
    var xs := MonthDates(s, k, start, until);
    if |xs| == 2 {
      var lo, hi := DateIn(s, k, Lower(s), start, until), DateIn(s, k, Upper(s), start, until);
      assert xs == [lo[0], hi[0]];
      TwoIncrease(lo[0], hi[0]);
    }
  }

  lemma DaysInOrder(k: nat, lo: nat, hi: nat, rule: DayRule)
    requires lo <= hi
    ensures var x, y := DayInMonth(k, lo, rule), DayInMonth(k, hi, rule); x.Some? && y.Some? ==> x.value <= y.value
  {
    MonthsGrow(k, k + 1);
  }

  lemma TwoIncrease(x: int, y: int)
    ensures Increasing([x, y]) <==> x < y
  {
    assert Increasing([x, y]) ==> [x, y][0] < [x, y][1];
  }

  lemma SameDateExactly(s: Plan, k: nat)
    requires s.Valid() && Lower(s) != Upper(s)
    ensures var occ := DayInMonth(k, Lower(s), s.rule);
      (occ.Some? && occ == DayInMonth(k, Upper(s), s.rule)) <==>
        ((s.rule.LastDayOfMonth? && Lower(s) >= DaysIn(k)) || (s.rule.FirstOfNext? && Lower(s) > DaysIn(k)))
    ensures var occ := DayInMonth(k, Lower(s), s.rule);
      occ.Some? && occ == DayInMonth(k, Upper(s), s.rule) ==> occ.value == RepeatedDate(s, k)
  {
    MonthsGrow(k, k + 1);
    hide DaysIn;
  }

  lemma RollsOver(s: Plan, start: int, until: int, k: nat)
    requires s.Valid()
    ensures MonthStart(k + 1) in MonthDates(s, k, start, until) <==>
      InWindow(s, start, until, MonthStart(k + 1)) && s.rule.FirstOfNext? && Upper(s) > DaysIn(k)
  {
    hide MonthDates;
    MonthDatesAre(s, k, start, until);
    MonthsGrow(k, k + 1);
    hide MonthStart, DaysIn;
  }

  lemma MonthRepeats(s: Plan, start: int, until: int, k: nat)
    requires s.Valid()
    ensures Repeats(s, start, until, k) <==>
      !Increasing(MonthDates(s, k, start, until))
      || (MonthStart(k + 1) in MonthDates(s, k, start, until) && DayInMonth(k + 1, Lower(s), s.rule) == Some(MonthStart(k + 1)))
  {
    MonthsGrow(k, k + 1);
    DayBounds(k + 1, Lower(s), s.rule);
    MonthIncreases(s, start, until, k);
    RollsOver(s, start, until, k);
    hide DayInMonth, MonthDates, Increasing, MonthStart;
    if Lower(s) != Upper(s) {
      SameDateExactly(s, k);
    }
  }

  /** The next months list the first of month k exactly when it is asked for and in the window. */
  lemma FirstIsListed(s: Plan, start: int, until: int, k: nat)
    requires s.Valid()
    ensures MonthStart(k) in Listing(s, start, until, k) <==>
      InWindow(s, start, until, MonthStart(k)) && DayInMonth(k, Lower(s), s.rule) == Some(MonthStart(k))
  {
    hide Listing, MonthStart;
    ListingIs(s, start, until, k);
    DayBounds(k, Lower(s), s.rule);
    if MonthStart(k) in Listing(s, start, until, k) {
      var h: nat :| k <= h && SemiDate(s, h, MonthStart(k));
      DayBounds(h, FirstDay(s), s.rule);
      DayBounds(h, SecondDay(s), s.rule);
      if k < h {
        MonthsGrow(k, h);
      }
    }
    assert DayInMonth(k, Lower(s), s.rule) == Some(MonthStart(k)) ==> SemiDate(s, k, MonthStart(k));
  }

  /** The listing from month k on is strictly increasing exactly when no month from k on repeats a date. */
  lemma {:induction false} ListingIncreases(s: Plan, start: int, until: int, k: nat)
    requires s.Valid()
    ensures Increasing(Listing(s, start, until, k)) <==> forall h: nat :: k <= h ==> !Repeats(s, start, until, h)
    decreases until - MonthStart(k)
  {
    hide DayInMonth, MonthDates, Repeats, Increasing;
    if MonthStart(k) > until {
      forall h: nat | k <= h
        ensures !Repeats(s, start, until, h)
      {
        LateNeverRepeats(s, start, until, k, h);
      }
      NothingIncreases();
    } else {
      var now, later := MonthDates(s, k, start, until), Listing(s, start, until, k + 1);
      ListingIncreases(s, start, until, k + 1);
      MonthDatesAre(s, k, start, until);
      ListingNotBefore(s, start, until, k + 1);
      FirstIsListed(s, start, until, k + 1);
      MonthRepeats(s, start, until, k);
      IncreasingJoin(now, later, MonthStart(k + 1));
    }
  }

  lemma NothingIncreases()
    ensures Increasing([])
  {
  }

  lemma LateNeverRepeats(s: Plan, start: int, until: int, k: nat, h: nat)
    requires MonthStart(k) > until && k <= h
    ensures !Repeats(s, start, until, h)
  {
    if k < h {
      MonthsGrow(k, h);
    }
  }

  // ---- the missed date ------------------------------------------------

  /** The one date the semimonthly branch can miss: rolled in from the month before the window. */
  ghost predicate MissesRolledDate(s: Plan, start: nat, until: int) {
    var k := MonthOf(start);
    && s.rule.FirstOfNext? && 0 < k && start == MonthStart(k)
    && InWindow(s, start, until, start)
    && (FirstDay(s) > DaysIn(k - 1) || SecondDay(s) > DaysIn(k - 1))
    && FirstDay(s) != 1 && SecondDay(s) != 1
  }

  /** A date that only an earlier month can give is the first of the window's own month. */
  lemma FromEarlierMonth(s: Plan, start: nat, until: int, h: nat, x: int)
    requires s.Valid() && InWindow(s, start, until, x) && SemiDate(s, h, x)
    requires h < MonthOf(start) && !SemiDate(s, MonthOf(start), x)
    ensures MissesRolledDate(s, start, until)
  {
    hide MonthOf, MonthStart, DaysIn, DayInMonth;
    var k := MonthOf(start);
    MonthOfIs(start);
    DayBounds(h, FirstDay(s), s.rule);
    DayBounds(h, SecondDay(s), s.rule);
    if h + 1 < k {
      MonthsGrow(h + 1, k);
    }
    assert x == start == MonthStart(k) && h + 1 == k;
    if DayInMonth(h, FirstDay(s), s.rule) == Some(x) {
      RollsIn(h, FirstDay(s), s.rule);
    } else {
      RollsIn(h, SecondDay(s), s.rule);
    }
    DayBounds(k, FirstDay(s), s.rule);
    DayBounds(k, SecondDay(s), s.rule);
  }

  /** A date at the start of the next month got there by the first-of-next rule. */
  lemma RollsIn(h: nat, day: nat, rule: DayRule)
    requires DayInMonth(h, day, rule) == Some(MonthStart(h + 1))
    ensures rule.FirstOfNext? && day > DaysIn(h)
  {
  }

  lemma RolledDateIsMissed(s: Plan, start: nat, until: int)
    requires s.Valid() && MissesRolledDate(s, start, until)
    ensures SemiDate(s, MonthOf(start) - 1, start)
    ensures forall h: nat :: MonthOf(start) <= h ==> !SemiDate(s, h, start)
  {
    var k := MonthOf(start);
    forall h: nat | k <= h
      ensures !SemiDate(s, h, start)
    {
      DayBounds(h, FirstDay(s), s.rule);
      DayBounds(h, SecondDay(s), s.rule);
      if k < h {
        MonthsGrow(k, h);
      }
    }
  }

  lemma MissedInWindow(s: Plan, start: nat, until: int)
    requires MissesRolledDate(s, start, until)
    ensures InWindow(s, start, until, start) && MonthOf(start) > 0
  {
  }

  lemma ListsAllExactly(s: Plan, start: nat, until: int)
    requires s.Valid() && s.cadence.Semimonthly?
    ensures (forall x :: x in Listing(s, start, until, MonthOf(start)) <==> Wanted(s, start, until, x))
      <==> !MissesRolledDate(s, start, until)
  {
    hide DayInMonth, SemiDate, MissesRolledDate, MonthOf, Listing;
    var xs := Listing(s, start, until, MonthOf(start));
    ListingIs(s, start, until, MonthOf(start));
    forall x | Wanted(s, start, until, x) && x !in xs
      ensures MissesRolledDate(s, start, until)
    {
      var h: nat :| SemiDate(s, h, x);
      FromEarlierMonth(s, start, until, h, x);
    }
    if MissesRolledDate(s, start, until) {
      RolledDateIsMissed(s, start, until);
      MissedInWindow(s, start, until);
      assert Wanted(s, start, until, start);
    }
  }

  /**
   * SEMIMONTHLY gives exactly the dates of its rule in the window, each once and in order, exactly
   * when none rolls in from the month before and no month repeats one.
   */
  lemma SemimonthlyExactly(s: Plan, start: nat, until: int)
    requires s.Valid() && s.cadence.Semimonthly?
    ensures Complete(s, start, until, Listing(s, start, until, MonthOf(start)))
      <==> !MissesRolledDate(s, start, until) && forall h: nat :: MonthOf(start) <= h ==> !Repeats(s, start, until, h)
  {
    hide Listing, Wanted, MissesRolledDate, Repeats, Increasing;
    ListsAllExactly(s, start, until);
    ListingIncreases(s, start, until, MonthOf(start));
  }

  // ---- instances ------------------------------------------------------

  function Twice(first: nat, second: nat, rule: DayRule): Plan {
    Plan(Semimonthly, 0, 1, Some(first), Some(second), rule, NoRule, None)
  }

  lemma EarlyMonths()
    ensures MonthStart(1) == 31 && MonthStart(2) == 59 && MonthStart(3) == 90 && MonthStart(4) == 120
    ensures DaysIn(1) == 28 && DaysIn(3) == 30
    ensures MonthOf(31) == 1 && MonthOf(120) == 4
  {
    assert MonthStart(1) == 31;
    assert MonthStart(2) == 59;
    assert MonthStart(3) == 90;
    assert MonthStart(4) == 120;
    assert MonthStart(5) == 151;
    MonthOfIs(31);
    MonthOfIs(120);
    assert InMonth(31, 1) && InMonth(120, 4);
  }

  /** The 28th and the 31st in a February of 28 days: the last day is listed twice. */
  lemma FebruaryRepeats()
    ensures var s := Twice(28, 31, LastDayOfMonth); s.Valid() && Repeats(s, 31, 58, 1)
    ensures Listing(Twice(28, 31, LastDayOfMonth), 31, 58, MonthOf(31)) == [58, 58]
  {
    var s := Twice(28, 31, LastDayOfMonth);
    EarlyMonths();
    hide MonthOf, MonthStart, DaysIn;
    assert Listing(s, 31, 58, 2) == [];
    assert MonthDates(s, 1, 31, 58) == [58, 58];
  }

  lemma MayWindow()
    ensures var s := Twice(15, 31, FirstOfNext); s.Valid() && MissesRolledDate(s, 120, 150)
  {
    EarlyMonths();
    hide MonthOf, MonthStart, DaysIn;
  }

  /** The 15th and the 31st rolled to the next month: a window that opens on 1 May misses 1 May. */
  lemma FirstOfMayIsMissed()
    ensures var s := Twice(15, 31, FirstOfNext);
      && s.Valid() && MissesRolledDate(s, 120, 150)
      && Wanted(s, 120, 150, 120) && 120 !in Listing(s, 120, 150, MonthOf(120))
  {
    hide MonthOf, MonthStart, DaysIn, Listing, DayInMonth, MissesRolledDate, SemiDate;
    var s := Twice(15, 31, FirstOfNext);
    EarlyMonths();
    MayWindow();
    RolledDateIsMissed(s, 120, 150);
    ListingIs(s, 120, 150, 4);
    assert SemiDate(s, 3, 120);
  }
}
