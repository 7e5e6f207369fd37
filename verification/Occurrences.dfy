/** The generator behind Schedule.occurrences, for every cadence. */
module Occurrences {
  import opened Calendar
  import opened Civil
  import opened Schedule
  import opened Semimonthly
  import opened SemimonthlyWindows

  /** The dates before rolling: complete, but for SEMIMONTHLY what its loop lists. */
  ghost predicate Nominal(s: Plan, start: nat, until: int, xs: seq<int>) {
    if s.cadence.Semimonthly? then xs == Listing(s, start, until, MonthOf(start)) else Complete(s, start, until, xs)
  }

  /** Each date stands where the rule takes the nominal one, in the same order. */
  ghost predicate RollsEach(c: Jurisdiction, rule: BusinessDayRule, nominal: seq<int>, dates: seq<int>) {
    |dates| == |nominal| && forall i :: 0 <= i < |nominal| ==> RollsTo(c, nominal[i], rule, dates[i])
  }

  /** Every nominal date of the window, each rolled by the plan's business-day rule. */
  method Generate(c: Jurisdiction, s: Plan, start: nat, until: int)
    returns (dates: seq<int>)
    requires s.Valid() && Usable(c)
    ensures exists nominal ::
      Nominal(s, start, until, nominal) && dates == Rolled(c, s.rolling, nominal) && RollsEach(c, s.rolling, nominal, dates)
  {
    var xs: seq<int> := [];
    match s.cadence {
      case OnIncome =>
      case OnDependency =>
      case Once =>
        if start <= s.Anchor() <= until {
          xs := [s.Anchor()];
        }
      case Weekly =>
        xs := WeeklyDates(s, start, until);
      case Biweekly =>
        xs := WeeklyDates(s, start, until);
      case Semimonthly =>
        xs := SemimonthlyDates(s, start, until);
      case _ =>
        xs := MonthlyDates(s, start, until);
    }
    assert Nominal(s, start, until, xs);
    dates := [];
    for i := 0 to |xs|
      invariant |dates| == i && forall j :: 0 <= j < i ==> dates[j] == Adjusted(c, xs[j], s.rolling)
      invariant forall j :: 0 <= j < i ==> RollsTo(c, xs[j], s.rolling, dates[j])
    {
      var d := Adjust(c, xs[i], s.rolling);
      dates := dates + [d];
    }
    assert dates == Rolled(c, s.rolling, xs);
  }

  /** The nominal dates are complete for every plan but a SEMIMONTHLY one that misses or repeats a date. */
  lemma CompleteExactly(s: Plan, start: nat, until: int, xs: seq<int>)
    requires s.Valid() && Nominal(s, start, until, xs)
    ensures Complete(s, start, until, xs) <==>
      !s.cadence.Semimonthly? || (!MissesRolledDate(s, start, until) && forall h: nat :: MonthOf(start) <= h ==> !Repeats(s, start, until, h))
  {
    hide Complete, Listing, MissesRolledDate, Repeats;
    if s.cadence.Semimonthly? {
      SemimonthlyExactly(s, start, until);
    }
  }

  /** The dates of a window split with it exactly when nothing rolls onto the split; only SEMIMONTHLY can fail. */
  lemma DatesSplitExactly(c: Jurisdiction, s: Plan, start: nat, mid: nat, until: int,
                          whole: seq<int>, left: seq<int>, right: seq<int>)
    requires s.Valid() && start <= mid < until
    requires Nominal(s, start, until, whole) && Nominal(s, start, mid, left) && Nominal(s, mid + 1, until, right)
    ensures Rolled(c, s.rolling, whole) == Rolled(c, s.rolling, left) + Rolled(c, s.rolling, right)
      <==> !s.cadence.Semimonthly? || !RollsOnto(s, mid + 1, until)
  {
    hide Complete, Listing, RollsOnto, Rolled;
    if s.cadence.Semimonthly? {
      ListingSplitsExactly(s, start, mid, until);
    } else {
      WindowsCompose(s, start, mid, until, whole, left, right);
    }
    RolledJoins(c, s.rolling, left, right);
  }

  lemma RolledJoins(c: Jurisdiction, rule: BusinessDayRule, left: seq<int>, right: seq<int>)
    ensures Rolled(c, rule, left + right) == Rolled(c, rule, left) + Rolled(c, rule, right)
  {
  }
}
