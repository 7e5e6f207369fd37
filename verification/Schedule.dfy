/** The dated occurrence generator for policies, bills and income streams. */
module Schedule {
  import opened Prelude
  import opened Calendar
  import opened Civil

  datatype Cadence =
    | Once | Weekly | Biweekly | Semimonthly | Monthly | Quarterly | Annually | OnIncome | OnDependency

  datatype DayRule = LastDayOfMonth | Skip | FirstOfNext

  datatype Plan = Plan(
    cadence: Cadence, anchorMonth: nat, anchorDay: nat, dayOfMonth: Option<nat>, secondDay: Option<nat>,
    rule: DayRule, rolling: BusinessDayRule, end: Option<int>)
  {
    /** A real date, and days of the month that date() accepts. */
    ghost predicate Valid() {
      && 1 <= anchorDay <= DaysIn(anchorMonth)
      && (dayOfMonth.Some? ==> dayOfMonth.value >= 1)
      && (secondDay.Some? ==> secondDay.value >= 1)
    }

    function Anchor(): int {
      MonthStart(anchorMonth) + anchorDay - 1
    }

    function Day(): nat {
      if dayOfMonth.Some? then dayOfMonth.value else anchorDay
    }
  }

  /** day_in_month, with the documented rule for a day the month does not have. */
  function DayInMonth(k: nat, day: nat, rule: DayRule): Option<int> {
    var last := DaysIn(k);
    if day <= last then Some(MonthStart(k) + day - 1)
    else match rule
      case LastDayOfMonth => Some(MonthStart(k) + last - 1)
      case Skip => None
      case FirstOfNext => Some(MonthStart(k + 1))
  }

  /** The requested day of the month itself, or what the rule puts in its place. */
  lemma DayInMonthIs(k: nat, day: nat, rule: DayRule)
    requires day >= 1
    ensures var occ := DayInMonth(k, day, rule);
      if day <= DaysIn(k) then occ.Some? && occ.value >= 0 && MonthOf(occ.value) == k && occ.value - MonthStart(k) + 1 == day
      else match rule
        case LastDayOfMonth => occ.Some? && occ.value >= 0 && MonthOf(occ.value) == k && occ.value + 1 == MonthStart(k + 1)
        case Skip => occ.None?
        case FirstOfNext => occ.Some? && occ.value >= 0 && MonthOf(occ.value) == k + 1 && occ.value == MonthStart(k + 1)
  {
    assert MonthStart(k + 1) == MonthStart(k) + DaysIn(k);
    hide MonthStart, DaysIn, MonthOf;
    var occ := DayInMonth(k, day, rule);
    if occ.Some? {
      MonthOfIs(occ.value);
      assert InMonth(occ.value, k) || InMonth(occ.value, k + 1);
    }
  }

  function StepMonths(c: Cadence): nat {
    match c
    case Monthly => 1
    case Quarterly => 3
    case _ => 12
  }

  /** The month of the i-th occurrence of a monthly, quarterly or annual plan. */
  function MonthAt(s: Plan, i: nat): nat {
    if i == 0 then s.anchorMonth else MonthAt(s, i - 1) + StepMonths(s.cadence)
  }

  function MonthDate(s: Plan, i: nat): Option<int> {
    DayInMonth(MonthAt(s, i), s.Day(), s.rule)
  }

  function StepDays(c: Cadence): nat {
    if c.Weekly? then 7 else 14
  }

  function WeekDate(s: Plan, i: nat): int {
    if i == 0 then s.Anchor() else WeekDate(s, i - 1) + StepDays(s.cadence)
  }

  function FirstDay(s: Plan): nat {
    if s.dayOfMonth.Some? then s.dayOfMonth.value else 1
  }

  function SecondDay(s: Plan): nat {
    if s.secondDay.Some? then s.secondDay.value else 15
  }

  predicate InWindow(s: Plan, start: int, until: int, x: int) {
    start <= x <= until && (s.end.Some? ==> x <= s.end.value)
  }

  ghost predicate Increasing(xs: seq<int>) {
    forall i, j :: 0 <= i < j < |xs| ==> xs[i] < xs[j]
  }

  // ---- strictly increasing rule dates ---------------------------------

  lemma DayBounds(k: nat, day: nat, rule: DayRule)
    requires day >= 1
    ensures DayInMonth(k, day, rule).Some? ==>
      MonthStart(k) <= DayInMonth(k, day, rule).value <= MonthStart(k + 1)
    ensures DayInMonth(k, day, rule).Some? && DayInMonth(k, day, rule).value == MonthStart(k) ==> day == 1
    ensures day == 1 ==> DayInMonth(k, day, rule) == Some(MonthStart(k) as int)
  {
  }

  lemma {:induction false} MonthsAdvance(s: Plan, i: nat, j: nat)
    requires i < j
    ensures MonthAt(s, i) < MonthAt(s, j)
    decreases j
  {
    if i < j - 1 {
      MonthsAdvance(s, i, j - 1);
    }
  }

  /** Under each of the three day rules, a later month never gives an earlier or equal date. */
  lemma MonthDatesIncrease(s: Plan, i: nat, j: nat)
    requires s.Valid() && i < j && MonthDate(s, i).Some? && MonthDate(s, j).Some?
    ensures MonthDate(s, i).value < MonthDate(s, j).value
  {
    MonthsAdvance(s, i, j);
    var a, b := MonthAt(s, i), MonthAt(s, j);
    DayBounds(a, s.Day(), s.rule);
    DayBounds(b, s.Day(), s.rule);
    if a + 1 < b {
      MonthsGrow(a + 1, b);
    }
  }

  lemma {:induction false} WeekDatesIncrease(s: Plan, i: nat, j: nat)
    requires i < j
    ensures WeekDate(s, i) < WeekDate(s, j)
    decreases j
  {
    if i < j - 1 {
      WeekDatesIncrease(s, i, j - 1);
    }
  }

  // ---- what a list of occurrences must be -----------------------------

  /** A whole number of steps of `days` days after the anchor. */
  predicate EveryDays(s: Plan, days: nat, x: int)
    requires days > 0
  {
    x >= s.Anchor() && (x - s.Anchor()) % days == 0
  }

  /** x is the plan's day in month k, a whole number of steps of `months` months after the anchor's. */
  predicate InStep(s: Plan, months: nat, k: nat, x: int)
    requires months > 0
  {
    && k >= s.anchorMonth && (k - s.anchorMonth) % months == 0
    && DayInMonth(k, if s.dayOfMonth.Some? then s.dayOfMonth.value else s.anchorDay, s.rule) == Some(x)
  }

  ghost predicate EveryMonths(s: Plan, months: nat, x: int)
    requires months > 0
  {
    exists k: nat :: InStep(s, months, k, x)
  }

  /** x is a date of the plan, with no window and no end. */
  ghost predicate RuleDate(s: Plan, x: int) {
    match s.cadence
    case OnIncome => false
    case OnDependency => false
    case Once => x == s.Anchor()
    case Weekly => EveryDays(s, 7, x)
    case Biweekly => EveryDays(s, 14, x)
    case Semimonthly => exists k: nat :: SemiDate(s, k, x)
    case Monthly => EveryMonths(s, 1, x)
    case Quarterly => EveryMonths(s, 3, x)
    case Annually => EveryMonths(s, 12, x)
  }

  lemma {:induction false} WeekDateIs(s: Plan, i: nat)
    ensures WeekDate(s, i) == s.Anchor() + i * StepDays(s.cadence)
  {
    if i > 0 {
      WeekDateIs(s, i - 1);
    }
  }

  lemma {:induction false} MonthAtIs(s: Plan, i: nat)
    ensures MonthAt(s, i) == s.anchorMonth + i * StepMonths(s.cadence)
  {
    if i > 0 {
      MonthAtIs(s, i - 1);
    }
  }

  lemma WholeSteps(i: nat, step: nat)
    requires step > 0
    ensures (i * step) % step == 0 && (i * step) / step == i
  {
    QuotientIs(i * step, step, i, 0);
  }

  ghost predicate ByWeeks(s: Plan, x: int) {
    exists i: nat :: WeekDate(s, i) == x
  }

  ghost predicate ByMonths(s: Plan, x: int) {
    exists i: nat :: MonthDate(s, i) == Some(x)
  }

  /** The generator's steps from the anchor reach exactly the rule dates. */
  lemma StepsReach(s: Plan, x: int)
    ensures s.cadence.Weekly? || s.cadence.Biweekly? ==> (RuleDate(s, x) <==> ByWeeks(s, x))
    ensures s.cadence.Monthly? || s.cadence.Quarterly? || s.cadence.Annually? ==>
      (RuleDate(s, x) <==> ByMonths(s, x))
  {
    if s.cadence.Weekly? || s.cadence.Biweekly? {
      WeeksReach(s, x);
    } else if s.cadence.Monthly? || s.cadence.Quarterly? || s.cadence.Annually? {
      MonthsReach(s, x);
    }
  }

  lemma WeeksReach(s: Plan, x: int)
    requires s.cadence.Weekly? || s.cadence.Biweekly?
    ensures RuleDate(s, x) <==> ByWeeks(s, x)
  {
    var step := StepDays(s.cadence);
    if i: nat :| WeekDate(s, i) == x {
      WeekDateIs(s, i);
      WholeSteps(i, step);
    }
    if RuleDate(s, x) {
      var i := StepsTo(s.Anchor(), x, step);
      WeekDateIs(s, i);
    }
  }

  lemma StepsTo(a: int, x: int, step: nat) returns (i: nat)
    requires step > 0 && x >= a && (x - a) % step == 0
    ensures x == a + i * step
  {
    i := (x - a) / step;
  }

  lemma MonthReached(s: Plan, step: nat, i: nat, x: int)
    requires step == StepMonths(s.cadence) && MonthDate(s, i) == Some(x)
    ensures step > 0 && InStep(s, step, MonthAt(s, i), x)
  {
    hide DayInMonth;
    MonthAtIs(s, i);
    WholeSteps(i, step);
  }

  lemma InStepReached(s: Plan, step: nat, k: nat, x: int)
    requires step == StepMonths(s.cadence) && step > 0 && InStep(s, step, k, x)
    ensures ByMonths(s, x)
  {
    hide DayInMonth, StepMonths;
    var i := StepsTo(s.anchorMonth, k, step);
    MonthAtIs(s, i);
    assert MonthDate(s, i) == Some(x);
  }

  lemma MonthsReach(s: Plan, x: int)
    requires s.cadence.Monthly? || s.cadence.Quarterly? || s.cadence.Annually?
    ensures RuleDate(s, x) <==> ByMonths(s, x)
  {
    var step := StepMonths(s.cadence);
    assert RuleDate(s, x) <==> EveryMonths(s, step, x);
    hide InStep, MonthDate, StepMonths, RuleDate;
    if i: nat :| MonthDate(s, i) == Some(x) {
      MonthReached(s, step, i, x);
    }
    if k: nat :| InStep(s, step, k, x) {
      InStepReached(s, step, k, x);
    }
  }

  /** One of the two days of month k: the 1st and the 15th where the plan names none. */
  ghost predicate SemiDate(s: Plan, k: nat, x: int) {
    || DayInMonth(k, if s.dayOfMonth.Some? then s.dayOfMonth.value else 1, s.rule) == Some(x)
    || DayInMonth(k, if s.secondDay.Some? then s.secondDay.value else 15, s.rule) == Some(x)
  }

  /** ONCE ignores the end date; every other cadence stops there. */
  ghost predicate Wanted(s: Plan, start: int, until: int, x: int) {
    RuleDate(s, x) && if s.cadence.Once? then start <= x <= until else InWindow(s, start, until, x)
  }

  /** Exactly the wanted dates, each once, in order. */
  ghost predicate Complete(s: Plan, start: int, until: int, xs: seq<int>) {
    Increasing(xs) && forall x :: x in xs <==> Wanted(s, start, until, x)
  }

  function Rolled(c: Jurisdiction, rule: BusinessDayRule, xs: seq<int>): (r: seq<int>)
    ensures |r| == |xs|
  {
    seq(|xs|, i requires 0 <= i < |xs| => Adjusted(c, xs[i], rule))
  }

  /** The nominal dates so far: everything wanted among the first n rule dates, and nothing else. */
  ghost predicate SoFar(s: Plan, start: int, until: int, xs: seq<int>, n: nat) {
    && Increasing(xs)
    && (forall x :: x in xs ==> InWindow(s, start, until, x) && exists i: nat :: i < n && MonthDate(s, i) == Some(x))
    && (forall i: nat :: i < n && MonthDate(s, i).Some? && InWindow(s, start, until, MonthDate(s, i).value)
          ==> MonthDate(s, i).value in xs)
  }

  lemma SoFarStep(s: Plan, start: int, until: int, xs: seq<int>, n: nat)
    requires s.Valid() && SoFar(s, start, until, xs, n)
    ensures var occ := MonthDate(s, n);
      SoFar(s, start, until,
            if occ.Some? && InWindow(s, start, until, occ.value) then xs + [occ.value] else xs, n + 1)
  {
    var occ := MonthDate(s, n);
    if occ.Some? && InWindow(s, start, until, occ.value) {
      var ys := xs + [occ.value];
      forall i | 0 <= i < |xs|
        ensures xs[i] < occ.value
      {
        assert xs[i] in xs;
        var j: nat :| j < n && MonthDate(s, j) == Some(xs[i]);
        MonthDatesIncrease(s, j, n);
      }
      forall x | x in ys
        ensures InWindow(s, start, until, x) && exists i: nat :: i < n + 1 && MonthDate(s, i) == Some(x)
      {
        if x in xs {
          var j: nat :| j < n && MonthDate(s, j) == Some(x);
        }
      }
    }
  }

  /** Past this point no rule date can fall in the window any more. */
  ghost predicate Exhausted(s: Plan, start: int, until: int, n: nat) {
    forall i: nat :: n <= i && MonthDate(s, i).Some? ==> !InWindow(s, start, until, MonthDate(s, i).value)
  }

  lemma LaterToo(s: Plan, start: int, until: int, n: nat)
    requires s.Valid() && MonthDate(s, n).Some?
    requires MonthDate(s, n).value > until || (s.end.Some? && MonthDate(s, n).value > s.end.value)
    ensures Exhausted(s, start, until, n)
  {
    forall i: nat | n <= i && MonthDate(s, i).Some?
      ensures !InWindow(s, start, until, MonthDate(s, i).value)
    {
      if n < i {
        MonthDatesIncrease(s, n, i);
      }
    }
  }

  lemma BeyondWindow(s: Plan, start: int, until: int, n: nat)
    requires s.Valid() && MonthStart(MonthAt(s, n)) > until
    ensures Exhausted(s, start, until, n)
  {
    forall i: nat | n <= i && MonthDate(s, i).Some?
      ensures !InWindow(s, start, until, MonthDate(s, i).value)
    {
      DayBounds(MonthAt(s, i), s.Day(), s.rule);
      if n < i {
        MonthsAdvance(s, n, i);
        MonthsGrow(MonthAt(s, n), MonthAt(s, i));
      }
    }
  }

  lemma WantedIsFound(s: Plan, start: int, until: int, xs: seq<int>, n: nat, x: int)
    requires s.cadence.Monthly? || s.cadence.Quarterly? || s.cadence.Annually?
    requires SoFar(s, start, until, xs, n) && Exhausted(s, start, until, n)
    ensures x in xs <==> Wanted(s, start, until, x)
  {
    StepsReach(s, x);
    hide MonthDate, Increasing, RuleDate;
    if x in xs {
      var i: nat :| i < n && MonthDate(s, i) == Some(x);
    }
    if Wanted(s, start, until, x) {
      var i: nat :| MonthDate(s, i) == Some(x);
      assert i < n;
    }
  }

  lemma DoneIsComplete(s: Plan, start: int, until: int, xs: seq<int>, n: nat)
    requires s.cadence.Monthly? || s.cadence.Quarterly? || s.cadence.Annually?
    requires SoFar(s, start, until, xs, n) && Exhausted(s, start, until, n)
    ensures Complete(s, start, until, xs)
  {
    forall x
      ensures x in xs <==> Wanted(s, start, until, x)
    {
      WantedIsFound(s, start, until, xs, n, x);
    }
    hide Exhausted, Wanted, MonthDate, Increasing;
  }

  /** The first n rule dates, where they exist, all fall before the window. */
  ghost predicate AllBefore(s: Plan, start: int, n: nat) {
    forall i: nat :: i < n && MonthDate(s, i).Some? ==> MonthDate(s, i).value < start
  }

  /** Wind forward to the window: stop at the first date that is missing or not before `start`. */
  method WindForward(s: Plan, start: int) returns (k: nat)
    requires s.Valid()
    ensures exists n: nat :: k == MonthAt(s, n) && AllBefore(s, start, n)
  {
    k := s.anchorMonth;
    ghost var n: nat := 0;
    while true
      invariant k == MonthAt(s, n) && AllBefore(s, start, n)
      decreases start - MonthStart(k)
    {
      var occ := DayInMonth(k, s.Day(), s.rule);
      if occ.None? || occ.value >= start {
        break;
      }
      DayBounds(k, s.Day(), s.rule);
      MonthsGrow(k, k + StepMonths(s.cadence));
      k := k + StepMonths(s.cadence);
      n := n + 1;
    }
  }

  /** The monthly, quarterly and annual branch: wind forward, then walk until past the window. */
  method MonthlyDates(s: Plan, start: int, until: int) returns (xs: seq<int>)
    requires s.Valid() && (s.cadence.Monthly? || s.cadence.Quarterly? || s.cadence.Annually?)
    ensures Complete(s, start, until, xs)
  {
    hide Complete, SoFar, Exhausted, AllBefore;
    var k := WindForward(s, start);
    ghost var n: nat :| k == MonthAt(s, n) && AllBefore(s, start, n);
    xs := [];
    NothingYet(s, start, until, n);
    while true
      invariant k == MonthAt(s, n)
      invariant SoFar(s, start, until, xs, n)
      decreases until + 401 - MonthStart(k)
    {
      SoFarStep(s, start, until, xs, n);
      var occ := DayInMonth(k, s.Day(), s.rule);
      if occ.Some? {
        if occ.value > until || (s.end.Some? && occ.value > s.end.value) {
          LaterToo(s, start, until, n);
          DoneIsComplete(s, start, until, xs, n);
          return;
        }
        if occ.value >= start {
          xs := xs + [occ.value];
        }
      }
      MonthsGrow(k, k + StepMonths(s.cadence));
      k := k + StepMonths(s.cadence);
      n := n + 1;
      if MonthStart(k) > until + 400 {
        BeyondWindow(s, start, until, n);
        DoneIsComplete(s, start, until, xs, n);
        return;
      }
    }
  }

  lemma NothingYet(s: Plan, start: int, until: int, n: nat)
    requires AllBefore(s, start, n)
    ensures SoFar(s, start, until, [], n)
  {
  }

  // ---- weekly and biweekly --------------------------------------------

  method WeeklyDates(s: Plan, start: int, until: int) returns (xs: seq<int>)
    requires s.cadence.Weekly? || s.cadence.Biweekly?
    ensures Complete(s, start, until, xs)
  {
    var cur := s.Anchor();
    ghost var n := 0;
    while cur < start
      invariant cur == WeekDate(s, n)
      invariant forall i: nat :: i < n ==> WeekDate(s, i) < start
      decreases start - cur
    {
      cur := cur + StepDays(s.cadence);
      n := n + 1;
    }
    xs := [];
    ghost var first := n;
    while cur <= until && (s.end.None? || cur <= s.end.value)
      invariant cur == WeekDate(s, n) && first <= n && start <= cur
      invariant |xs| == n - first && forall i :: 0 <= i < |xs| ==> xs[i] == WeekDate(s, first + i)
      invariant forall i :: 0 <= i < |xs| ==> InWindow(s, start, until, xs[i])
      decreases until - cur
    {
      xs := xs + [cur];
      cur := cur + StepDays(s.cadence);
      n := n + 1;
    }
    WeeksComplete(s, start, until, xs, first, n);
  }

  lemma WeeksComplete(s: Plan, start: int, until: int, xs: seq<int>, first: nat, n: nat)
    requires s.cadence.Weekly? || s.cadence.Biweekly?
    requires first <= n && |xs| == n - first && forall i :: 0 <= i < |xs| ==> xs[i] == WeekDate(s, first + i)
    requires forall i :: 0 <= i < |xs| ==> InWindow(s, start, until, xs[i])
    requires forall i: nat :: i < first ==> WeekDate(s, i) < start
    requires WeekDate(s, n) > until || (s.end.Some? && WeekDate(s, n) > s.end.value)
    ensures Complete(s, start, until, xs)
  {
    forall i, j | 0 <= i < j < |xs|
      ensures xs[i] < xs[j]
    {
      WeekDatesIncrease(s, first + i, first + j);
    }
    forall x
      ensures x in xs <==> Wanted(s, start, until, x)
    {
      WantedWeek(s, start, until, xs, first, n, x);
    }
  }

  lemma WantedWeek(s: Plan, start: int, until: int, xs: seq<int>, first: nat, n: nat, x: int)
    requires s.cadence.Weekly? || s.cadence.Biweekly?
    requires first <= n && |xs| == n - first && forall i :: 0 <= i < |xs| ==> xs[i] == WeekDate(s, first + i)
    requires forall i :: 0 <= i < |xs| ==> InWindow(s, start, until, xs[i])
    requires forall i: nat :: i < first ==> WeekDate(s, i) < start
    requires WeekDate(s, n) > until || (s.end.Some? && WeekDate(s, n) > s.end.value)
    ensures x in xs <==> Wanted(s, start, until, x)
  {
    StepsReach(s, x);
    hide RuleDate;
    if x in xs {
      var i :| 0 <= i < |xs| && xs[i] == x;
      assert WeekDate(s, first + i) == x && InWindow(s, start, until, xs[i]);
      assert ByWeeks(s, x);
    }
    if Wanted(s, start, until, x) {
      var i: nat :| WeekDate(s, i) == x;
      if n < i {
        WeekDatesIncrease(s, n, i);
      }
      assert first <= i < n;
      assert xs[i - first] == x && x in xs;
    }
  }

  // ---- windows compose ------------------------------------------------

  lemma HeadIn(xs: seq<int>)
    requires xs != []
    ensures xs[0] in xs
  {
  }

  lemma {:induction false} SameDates(xs: seq<int>, ys: seq<int>)
    requires Increasing(xs) && Increasing(ys) && forall x :: x in xs <==> x in ys
    ensures xs == ys
    decreases |xs|
  {
    if xs == [] {
      if ys != [] {
        HeadIn(ys);
      }
    } else {
      assert xs[0] in xs && xs[0] in ys;
      assert ys[0] in ys && ys[0] in xs;
      assert xs[0] == ys[0];
      forall x
        ensures x in xs[1..] <==> x in ys[1..]
      {
        assert x in xs[1..] <==> x in xs && x != xs[0];
        assert x in ys[1..] <==> x in ys && x != ys[0];
      }
      SameDates(xs[1..], ys[1..]);
    }
  }

  /** There is only one complete list, and splitting a window splits it: nothing lost, nothing twice. */
  lemma WindowsCompose(s: Plan, a: int, b: int, d: int, whole: seq<int>, left: seq<int>, right: seq<int>)
    requires a <= b + 1 && b <= d
    requires Complete(s, a, d, whole) && Complete(s, a, b, left) && Complete(s, b + 1, d, right)
    ensures whole == left + right
  {
    var both := left + right;
    forall i, j | 0 <= i < j < |both|
      ensures both[i] < both[j]
    {
      if i < |left| <= j {
        assert left[i] in left && right[j - |left|] in right;
      }
    }
    forall x
      ensures x in whole <==> x in both
    {
      assert x in both <==> x in left || x in right;
    }
    SameDates(whole, both);
  }

  /** The rolled dates split with the window too, and come out in order. */
  lemma RolledCompose(c: Jurisdiction, rule: BusinessDayRule, left: seq<int>, right: seq<int>)
    requires Usable(c) && Increasing(left + right)
    ensures Rolled(c, rule, left + right) == Rolled(c, rule, left) + Rolled(c, rule, right)
    ensures var r := Rolled(c, rule, left + right); forall i, j :: 0 <= i < j < |r| ==> r[i] <= r[j]
  {
    var xs := left + right;
    forall i, j | 0 <= i < j < |xs|
      ensures Rolled(c, rule, xs)[i] <= Rolled(c, rule, xs)[j]
    {
      AdjustMonotone(c, xs[i], xs[j], rule);
    }
  }
}
