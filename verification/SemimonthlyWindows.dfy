/** When the dates of a SEMIMONTHLY plan split with the window. */
module SemimonthlyWindows {
  import opened Civil
  import opened Schedule
  import opened Semimonthly

  /** The month before the day d rolls a date onto it, within the plan's end and the window. */
  predicate RollsOnto(s: Plan, d: nat, until: int) {
    var k := MonthOf(d);
    && s.rule.FirstOfNext? && 0 < k && d == MonthStart(k) && Upper(s) > DaysIn(k - 1)
    && InWindow(s, d, until, d)
  }

  // ---- joining lists --------------------------------------------------

  predicate Joins(whole: seq<int>, a: seq<int>, b: seq<int>) {
    whole == a + b
  }

  predicate JoinsThree(whole: seq<int>, a: seq<int>, b: seq<int>, c: seq<int>) {
    whole == a + b + c
  }

  /** The month whose late dates come after the split, or all of whose list does. */
  lemma JoinLast(whole: seq<int>, month: seq<int>, tail: seq<int>, left: seq<int>, early: seq<int>, leftTail: seq<int>,
                 late: seq<int>, right: seq<int>)
    requires Joins(whole, month, tail) && Joins(month, early, late) && Joins(left, early, leftTail)
    requires Joins(tail, leftTail, right) && (late == [] || leftTail == [])
    ensures JoinsThree(whole, left, late, right)
  {
  }

  /** A month before the split. */
  lemma JoinEarlier(whole: seq<int>, month: seq<int>, tail: seq<int>, left: seq<int>, leftTail: seq<int>,
                    rolled: seq<int>, right: seq<int>)
    requires Joins(whole, month, tail) && Joins(left, month, leftTail) && JoinsThree(tail, leftTail, rolled, right)
    ensures JoinsThree(whole, left, rolled, right)
  {
  }

  /** The month that the split falls in. */
  lemma JoinWithin(whole: seq<int>, month: seq<int>, tail: seq<int>, left: seq<int>, early: seq<int>, late: seq<int>,
                   right: seq<int>)
    requires Joins(whole, month, tail) && Joins(month, early, late) && Joins(right, late, tail) && Joins(left, early, [])
    ensures Joins(whole, left, right)
  {
  }

  lemma NothingJoins(right: seq<int>)
    ensures Joins(right, [], right)
  {
  }

  // ---- one month ------------------------------------------------------

  /** One month's dates split at mid. */
  lemma MonthSplits(s: Plan, k: nat, start: int, mid: int, until: int)
    requires s.Valid() && start <= mid < until
    ensures Joins(MonthDates(s, k, start, until), MonthDates(s, k, start, mid), MonthDates(s, k, mid + 1, until))
  {
    hide DayInMonth;
    DaysInOrder(k, Lower(s), Upper(s), s.rule);
  }

  /** A month that ends before the split gives nothing after it. */
  lemma NothingLate(s: Plan, k: nat, from: int, until: int)
    requires s.Valid() && MonthStart(k + 1) < from
    ensures MonthDates(s, k, from, until) == []
  {
    DayBounds(k, Lower(s), s.rule);
    DayBounds(k, Upper(s), s.rule);
  }

  lemma NothingLateSplits(s: Plan, k: nat, start: int, mid: int, until: int)
    requires s.Valid() && start <= mid < until && MonthStart(k + 1) < mid + 1
    ensures MonthDates(s, k, start, until) == MonthDates(s, k, start, mid)
  {
    hide MonthDates;
    NothingLate(s, k, mid + 1, until);
    MonthSplits(s, k, start, mid, until);
  }

  lemma ListingHead(s: Plan, start: int, until: int, k: nat)
    requires MonthStart(k) <= until
    ensures Joins(Listing(s, start, until, k), MonthDates(s, k, start, until), Listing(s, start, until, k + 1))
  {
  }

  /** From month k on, a window that opens before the month might as well open with it. */
  lemma {:induction false} OpensWith(s: Plan, a: int, b: int, until: int, k: nat)
    requires s.Valid() && a <= MonthStart(k) && b <= MonthStart(k)
    ensures Listing(s, a, until, k) == Listing(s, b, until, k)
    decreases until - MonthStart(k)
  {
    if MonthStart(k) <= until {
      DayBounds(k, Lower(s), s.rule);
      DayBounds(k, Upper(s), s.rule);
      assert MonthDates(s, k, a, until) == MonthDates(s, k, b, until);
      hide MonthDates;
      MonthsGrow(k, k + 1);
      OpensWith(s, a, b, until, k + 1);
    }
  }

  // ---- the whole window -----------------------------------------------

  /** Month k holds the day after mid. */
  predicate SplitIn(mid: int, k: nat) {
    MonthStart(k) <= mid + 1 < MonthStart(k + 1)
  }

  /** From the month of the day after mid on, the two parts list what the whole window lists. */
  lemma FromSplitMonth(s: Plan, start: nat, mid: nat, until: int, k: nat)
    requires s.Valid() && start <= mid < until && SplitIn(mid, k)
    ensures Joins(Listing(s, start, until, k), Listing(s, start, mid, k), Listing(s, mid + 1, until, k))
  {
    hide MonthStart, Listing, MonthDates, Joins;
    if MonthStart(k) == mid + 1 {
      OpensWith(s, start, mid + 1, until, k);
      ListingEnd(s, start, mid, k);
      NothingJoins(Listing(s, start, until, k));
    } else {
      OpensWith(s, start, mid + 1, until, k + 1);
      MonthSplits(s, k, start, mid, until);
      ListingEnd(s, start, mid, k + 1);
      ListingHead(s, start, mid, k);
      ListingHead(s, start, until, k);
      ListingHead(s, mid + 1, until, k);
      JoinWithin(Listing(s, start, until, k), MonthDates(s, k, start, until), Listing(s, start, until, k + 1),
                 Listing(s, start, mid, k), MonthDates(s, k, start, mid), MonthDates(s, k, mid + 1, until),
                 Listing(s, mid + 1, until, k));
    }
  }

  /** The list from the last month before the split on. */
  lemma LastBefore(s: Plan, start: nat, mid: nat, until: int, k: nat)
    requires s.Valid() && start <= mid < until && SplitIn(mid, k + 1)
    ensures JoinsThree(Listing(s, start, until, k), Listing(s, start, mid, k),
                       MonthDates(s, k, mid + 1, until), Listing(s, mid + 1, until, k + 1))
  {
    FromSplitMonth(s, start, mid, until, k + 1);
    hide MonthDates, MonthStart, DaysIn, Listing, Joins, JoinsThree;
    MonthsGrow(k, k + 1);
    ListingHead(s, start, until, k);
    ListingHead(s, start, mid, k);
    MonthSplits(s, k, start, mid, until);
    if MonthStart(k + 1) == mid + 1 {
      ListingEnd(s, start, mid, k + 1);
    } else {
      NothingLate(s, k, mid + 1, until);
    }
    JoinLast(Listing(s, start, until, k), MonthDates(s, k, start, until), Listing(s, start, until, k + 1),
             Listing(s, start, mid, k), MonthDates(s, k, start, mid), Listing(s, start, mid, k + 1),
             MonthDates(s, k, mid + 1, until), Listing(s, mid + 1, until, k + 1));
  }

  /** From an earlier month on: the two parts, with what rolls onto the split between them. */
  lemma {:induction false} SplitFrom(s: Plan, start: nat, mid: nat, until: int, k: nat, last: nat)
    requires s.Valid() && start <= mid < until && k < last && SplitIn(mid, last)
    ensures JoinsThree(Listing(s, start, until, k), Listing(s, start, mid, k),
                       MonthDates(s, last - 1, mid + 1, until), Listing(s, mid + 1, until, last))
    decreases last - k
  {
    hide MonthDates, MonthStart, DaysIn, Listing, Joins, JoinsThree;
    if k + 1 == last {
      LastBefore(s, start, mid, until, k);
    } else {
      SplitFrom(s, start, mid, until, k + 1, last);
      MonthsGrow(k, k + 1);
      MonthsGrow(k + 1, last);
      ListingHead(s, start, until, k);
      ListingHead(s, start, mid, k);
      NothingLateSplits(s, k, start, mid, until);
      JoinEarlier(Listing(s, start, until, k), MonthDates(s, k, start, until), Listing(s, start, until, k + 1),
                  Listing(s, start, mid, k), Listing(s, start, mid, k + 1),
                  MonthDates(s, last - 1, mid + 1, until), Listing(s, mid + 1, until, last));
    }
  }

  /** What month k gives after a split on or after its end: the next month's first, if it rolls there. */
  lemma RollsOntoIs(s: Plan, mid: nat, until: int, k: nat)
    requires s.Valid() && mid < until && SplitIn(mid, k + 1)
    ensures MonthDates(s, k, mid + 1, until) != []
      <==> mid + 1 == MonthStart(k + 1) && s.rule.FirstOfNext? && Upper(s) > DaysIn(k) && InWindow(s, mid + 1, until, mid + 1)
  {
    hide MonthStart, DaysIn, DayInMonth, MonthDates, SemiDate;
    if MonthStart(k + 1) == mid + 1 {
      RollsOver(s, mid + 1, until, k);
      MonthDatesAre(s, k, mid + 1, until);
      var xs := MonthDates(s, k, mid + 1, until);
      if xs != [] {
        assert xs[0] in xs;
        assert xs[0] == MonthStart(k + 1);
      }
    } else {
      NothingLate(s, k, mid + 1, until);
    }
  }

  lemma MonthOfSplit(mid: nat)
    ensures SplitIn(mid, MonthOf(mid + 1))
  {
    MonthOfIs(mid + 1);
    MonthsGrow(MonthOf(mid + 1), MonthOf(mid + 1) + 1);
  }

  lemma MonthsInOrder(start: nat, later: nat)
    requires start <= later
    ensures MonthOf(start) <= MonthOf(later) && MonthStart(MonthOf(start)) <= start
  {
    MonthOfIs(start);
    MonthOfIs(later);
    hide MonthOf;
    if MonthOf(later) < MonthOf(start) {
      MonthsGrow(MonthOf(later), MonthOf(start));
    }
  }

  /** The parts of a split window list what the whole window lists exactly when nothing rolls onto the split. */
  lemma ListingSplitsExactly(s: Plan, start: nat, mid: nat, until: int)
    requires s.Valid() && start <= mid < until
    ensures Listing(s, start, until, MonthOf(start))
         == Listing(s, start, mid, MonthOf(start)) + Listing(s, mid + 1, until, MonthOf(mid + 1))
      <==> !RollsOnto(s, mid + 1, until)
    ensures RollsOnto(s, mid + 1, until) ==>
      |Listing(s, start, until, MonthOf(start))|
        > |Listing(s, start, mid, MonthOf(start))| + |Listing(s, mid + 1, until, MonthOf(mid + 1))|
  {
    hide MonthOf, Listing, MonthDates, MonthStart, DaysIn, SplitIn;
    var k, last := MonthOf(start), MonthOf(mid + 1);
    MonthOfSplit(mid);
    MonthsInOrder(start, mid + 1);
    if k == last {
      FromSplitMonth(s, start, mid, until, k);
    } else {
      SplitFrom(s, start, mid, until, k, last);
      RollsOntoIs(s, mid, until, last - 1);
    }
  }

  /** The 15th and the 31st rolled to the next month: 1 May is in April and May together, and in neither part. */
  lemma AprilAndMay()
    ensures var s := Twice(15, 31, FirstOfNext);
      s.Valid() && RollsOnto(s, 120, 150)
      && Listing(s, 90, 150, MonthOf(90)) != Listing(s, 90, 119, MonthOf(90)) + Listing(s, 120, 150, MonthOf(120))
  {
    EarlyMonths();
    hide MonthOf, MonthStart, DaysIn, Listing;
    ListingSplitsExactly(Twice(15, 31, FirstOfNext), 90, 119, 150);
  }
}
