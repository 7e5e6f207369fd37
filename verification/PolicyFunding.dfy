/** What a recurring policy was funded with, month by month, beside an older single-month record. */
module PolicyFunding {
  import opened Prelude

  /** The older record holds one amount for one month; byPeriod holds every month seen since. */
  datatype Funding = Funding(legacy: real, legacyPeriod: Option<int>, byPeriod: map<int, real>)

  function LegacyKey(f: Funding, asOf: Option<int>): Option<int> {
    if f.legacyPeriod.Some? then f.legacyPeriod else asOf
  }

  function For(f: Funding, month: int, asOf: Option<int>): real {
    if month in f.byPeriod then f.byPeriod[month]
    else if LegacyKey(f, asOf) == Some(month) then f.legacy
    else 0.0
  }

  function Clamped(x: real): real {
    if x >= 0.0 then x else 0.0
  }

  /** Whether the operation moves the older record to its own month. */
  predicate RecordMoves(f: Funding, month: int) {
    f.legacyPeriod.None? || month >= f.legacyPeriod.value
  }

  predicate ReverseMoves(f: Funding, month: int) {
    f.legacyPeriod.None? || month == f.legacyPeriod.value
  }

  function Written(f: Funding, month: int, total: real, moves: bool): Funding {
    if moves then Funding(total, Some(month), f.byPeriod[month := total])
    else f.(byPeriod := f.byPeriod[month := total])
  }

  function Recorded(f: Funding, amount: real, month: int, asOf: Option<int>): Funding {
    Written(f, month, For(f, month, asOf) + amount, RecordMoves(f, month))
  }

  function Reversed(f: Funding, amount: real, month: int, asOf: Option<int>): Funding {
    Written(f, month, Clamped(For(f, month, asOf) - amount), ReverseMoves(f, month))
  }

  class RecurringPolicy {
    var fundedThisPeriod: real
    var fundedPeriod: Option<int>
    var fundedByPeriod: map<int, real>

    constructor ()
      ensures Value() == Funding(0.0, None, map[])
    {
      fundedThisPeriod, fundedPeriod, fundedByPeriod := 0.0, None, map[];
    }

    function Value(): Funding
      reads this
    {
      Funding(fundedThisPeriod, fundedPeriod, fundedByPeriod)
    }

    /** The month's own record, or the older record when it is of the month, or of no month on a day of it. */
    predicate Reads(month: int, asOf: Option<int>, amount: real)
      reads this
    {
      if month in fundedByPeriod then amount == fundedByPeriod[month]
      else if fundedPeriod == Some(month) || (fundedPeriod == None && asOf == Some(month)) then amount == fundedThisPeriod
      else amount == 0.0
    }

    /** funding_for_period */
    method FundingForPeriod(month: int, asOf: Option<int>) returns (amount: real)
      ensures amount == For(Value(), month, asOf) && Reads(month, asOf, amount)
    {
      if month in fundedByPeriod {
        return fundedByPeriod[month];
      }
      var period := if fundedPeriod.Some? then fundedPeriod else asOf;
      amount := if period == Some(month) then fundedThisPeriod else 0.0;
    }

    method RecordFunding(amount: real, month: int, asOf: Option<int>)
      modifies this
      ensures Value() == Recorded(old(Value()), amount, month, asOf)
      ensures month in fundedByPeriod && fundedByPeriod == old(fundedByPeriod)[month := fundedByPeriod[month]]
      ensures old(Reads(month, asOf, For(Value(), month, asOf))) && fundedByPeriod[month] == old(For(Value(), month, asOf)) + amount
      ensures if old(fundedPeriod) == None || old(fundedPeriod).value <= month
        then fundedPeriod == Some(month) && fundedThisPeriod == fundedByPeriod[month]
        else fundedPeriod == old(fundedPeriod) && fundedThisPeriod == old(fundedThisPeriod)
    {
      var before := FundingForPeriod(month, asOf);
      fundedByPeriod := fundedByPeriod[month := before + amount];
      if fundedPeriod.None? || month >= fundedPeriod.value {
        fundedPeriod := Some(month);
        fundedThisPeriod := fundedByPeriod[month];
      }
    }

    method ReverseFunding(amount: real, month: int, asOf: Option<int>)
      modifies this
      ensures Value() == Reversed(old(Value()), amount, month, asOf)
      ensures month in fundedByPeriod && fundedByPeriod == old(fundedByPeriod)[month := fundedByPeriod[month]]
      ensures old(Reads(month, asOf, For(Value(), month, asOf)))
      ensures var rest := old(For(Value(), month, asOf)) - amount; fundedByPeriod[month] == if rest >= 0.0 then rest else 0.0
      ensures if old(fundedPeriod) == None || old(fundedPeriod) == Some(month)
        then fundedPeriod == Some(month) && fundedThisPeriod == fundedByPeriod[month]
        else fundedPeriod == old(fundedPeriod) && fundedThisPeriod == old(fundedThisPeriod)
    {
      var before := FundingForPeriod(month, asOf);
      fundedByPeriod := fundedByPeriod[month := if before >= amount then before - amount else 0.0];
      if fundedPeriod == Some(month) || fundedPeriod.None? {
        fundedPeriod := Some(month);
        fundedThisPeriod := fundedByPeriod[month];
      }
    }
  }

  // ---- runs -----------------------------------------------------------

  /** Each event comes with the as-of date of its own call. */
  datatype Event =
    | Record(amount: real, month: int, asOf: Option<int>)
    | Reverse(amount: real, month: int, asOf: Option<int>)

  function Step(f: Funding, e: Event): Funding {
    match e
    case Record(amount, month, asOf) => Recorded(f, amount, month, asOf)
    case Reverse(amount, month, asOf) => Reversed(f, amount, month, asOf)
  }

  function After(f: Funding, run: seq<Event>): Funding {
    if run == [] then f else Step(After(f, run[..|run| - 1]), run[|run| - 1])
  }

  /** What one event makes of its own month's amount. */
  function Applied(e: Event, total: real): real {
    if e.Record? then total + e.amount else Clamped(total - e.amount)
  }

  /** One month's own events, added up and never below zero after a reversal. */
  function OwnTotal(start: real, run: seq<Event>, month: int): real {
    if run == [] then start
    else
      var before, e := OwnTotal(start, run[..|run| - 1], month), run[|run| - 1];
      if e.month != month then before else Applied(e, before)
  }

  // ---- the as-of date -------------------------------------------------

  /** A month reads the same on two days exactly when the older record has a month, or neither or both name it. */
  lemma SameReadingExactly(f: Funding, month: int, a: Option<int>, b: Option<int>)
    ensures For(f, month, a) == For(f, month, b) <==>
      f.legacyPeriod.Some? || month in f.byPeriod || f.legacy == 0.0 || (a == Some(month) <==> b == Some(month))
  {
  }

  /** After its first event a policy has a month of its own for the older record. */
  lemma {:induction false} PeriodIsSet(f: Funding, run: seq<Event>)
    requires run != [] || f.legacyPeriod.Some?
    ensures After(f, run).legacyPeriod.Some?
  {
    if run != [] {
      var before := run[..|run| - 1];
      if before != [] || f.legacyPeriod.Some? {
        PeriodIsSet(f, before);
      }
    }
  }

  /** From then on no reading depends on the day. */
  lemma SameOnAnyDay(f: Funding, run: seq<Event>, month: int, a: Option<int>, b: Option<int>)
    requires run != []
    ensures For(After(f, run), month, a) == For(After(f, run), month, b)
  {
    PeriodIsSet(f, run);
  }

  // ---- a consistent policy --------------------------------------------

  /** The older record agrees with the dictionary. */
  ghost predicate Agrees(f: Funding) {
    if f.legacyPeriod.None? then f.legacy == 0.0
    else f.legacyPeriod.value in f.byPeriod && f.byPeriod[f.legacyPeriod.value] == f.legacy
  }

  lemma {:induction false} AgreesAlways(f: Funding, run: seq<Event>)
    requires Agrees(f)
    ensures Agrees(After(f, run))
  {
    if run != [] {
      AgreesAlways(f, run[..|run| - 1]);
    }
  }

  /** When the older record agrees with the dictionary, every month's funding is the sum of its own events, on any day. */
  lemma {:induction false} MonthsIndependent(f: Funding, run: seq<Event>, start: Option<int>, now: Option<int>, month: int)
    requires Agrees(f)
    ensures For(After(f, run), month, now) == OwnTotal(For(f, month, start), run, month)
  {
    if run != [] {
      var before, e := run[..|run| - 1], run[|run| - 1];
      MonthsIndependent(f, before, start, e.asOf, month);
      MonthsIndependent(f, before, start, now, month);
      AgreesAlways(f, before);
    }
  }

  // ---- any policy -----------------------------------------------------

  /** The event moves the older record to its own month. */
  predicate Moves(f: Funding, e: Event) {
    if e.Record? then RecordMoves(f, e.month) else ReverseMoves(f, e.month)
  }

  /** The older record alone holds the month, with something in it. */
  predicate OnlyOlder(f: Funding, asOf: Option<int>, month: int) {
    month !in f.byPeriod && LegacyKey(f, asOf) == Some(month) && f.legacy != 0.0
  }

  /** The older record is the only place month's funding is kept, and the operation overwrites it. */
  predicate Overwrites(f: Funding, e: Event, asOf: Option<int>, month: int) {
    OnlyOlder(f, asOf, month) && Moves(f, e)
  }

  /** An event leaves another month's funding alone exactly when it does not overwrite it. */
  lemma OtherMonthKeptExactly(f: Funding, e: Event, asOf: Option<int>, now: Option<int>, month: int)
    requires month != e.month
    ensures For(Step(f, e), month, now) == For(f, month, asOf) <==> !Overwrites(f, e, asOf, month)
  {
  }

  lemma OwnMonthMoves(f: Funding, e: Event, now: Option<int>)
    ensures For(Step(f, e), e.month, now) == Applied(e, For(f, e.month, e.asOf))
  {
  }

  /** No event of the run, when its turn comes, overwrites the month as it read at the start. */
  ghost predicate NeverOverwrites(f: Funding, run: seq<Event>, start: Option<int>, month: int) {
    forall k :: 0 <= k < |run| && run[k].month != month ==> !Overwrites(After(f, run[..k]), run[k], start, month)
  }

  /**
   * The first event is for the month, and reads an undated older record on a day of another month than
   * the start: it applies to the wrong amount, and the difference shows.
   */
  predicate Turned(f: Funding, run: seq<Event>, start: Option<int>, month: int) {
    && run != [] && run[0].month == month && f.legacyPeriod.None? && month !in f.byPeriod
    && ((start == Some(month)) != (run[0].asOf == Some(month)))
    && Applied(run[0], f.legacy) != Applied(run[0], 0.0)
  }

  /** On any day after an event of the run, the month's funding is the sum of its own events. */
  ghost predicate Keeps(f: Funding, run: seq<Event>, start: Option<int>, month: int) {
    forall k, now :: 1 <= k <= |run| ==>
      For(After(f, run[..k]), month, now) == OwnTotal(For(f, month, start), run[..k], month)
  }

  lemma FirstApplies(f: Funding, run: seq<Event>, start: Option<int>, month: int)
    requires run != [] && run[0].month == month
    ensures Applied(run[0], For(f, month, run[0].asOf)) == Applied(run[0], For(f, month, start)) <==> !Turned(f, run, start, month)
  {
    hide Applied;
    SameReadingExactly(f, month, start, run[0].asOf);
  }

  lemma OneStep(f: Funding, run: seq<Event>, k: nat, start: real, month: int)
    requires k < |run|
    ensures After(f, run[..k + 1]) == Step(After(f, run[..k]), run[k])
    ensures OwnTotal(start, run[..k + 1], month)
      == if run[k].month != month then OwnTotal(start, run[..k], month) else Applied(run[k], OwnTotal(start, run[..k], month))
    ensures run[..0] == [] && After(f, []) == f && OwnTotal(start, [], month) == start
  {
    assert run[..k + 1][..k] == run[..k];
  }

  /** From a point where the month is kept, the next event keeps it exactly when it neither overwrites it nor has turned. */
  lemma NextKeepsExactly(f: Funding, run: seq<Event>, k: nat, start: Option<int>, now: Option<int>, month: int)
    requires k < |run|
    requires forall day :: k > 0 || day == start ==>
      For(After(f, run[..k]), month, day) == OwnTotal(For(f, month, start), run[..k], month)
    ensures For(After(f, run[..k + 1]), month, now) == OwnTotal(For(f, month, start), run[..k + 1], month)
      <==> if run[k].month == month then k > 0 || !Turned(f, run, start, month)
           else !Overwrites(After(f, run[..k]), run[k], start, month)
  {
    var mid, e := After(f, run[..k]), run[k];
    OneStep(f, run, k, For(f, month, start), month);
    hide For, OwnTotal, After, Step, Overwrites, Turned, Applied;
    if e.month == month {
      OwnMonthMoves(mid, e, now);
      if k == 0 {
        FirstApplies(f, run, start, month);
      }
    } else {
      OtherMonthKeptExactly(mid, e, start, now, month);
    }
  }

  /** Any policy, over a run that never overwrites the month and does not apply to the wrong amount. */
  lemma {:induction false} FundingKept(f: Funding, run: seq<Event>, start: Option<int>, now: Option<int>, month: int)
    requires NeverOverwrites(f, run, start, month) && !Turned(f, run, start, month)
    requires run != [] || now == start
    ensures For(After(f, run), month, now) == OwnTotal(For(f, month, start), run, month)
  {
    if run != [] {
      var n := |run| - 1;
      var before := run[..n];
      assert forall k :: 0 <= k < n ==> before[k] == run[k] && before[..k] == run[..k];
      hide For, OwnTotal, After, Overwrites, Applied;
      forall day | n > 0 || day == start
        ensures For(After(f, before), month, day) == OwnTotal(For(f, month, start), before, month)
      {
        FundingKept(f, before, start, day, month);
      }
      NextKeepsExactly(f, run, n, start, now, month);
      assert run[..n + 1] == run;
    }
  }

  /**
   * After every event of a run, on any day, the month's funding is the sum of its own events exactly when
   * no event overwrote the only record of it and the first did not read it on a day of another month.
   */
  lemma FundingKeptExactly(f: Funding, run: seq<Event>, start: Option<int>, month: int)
    ensures Keeps(f, run, start, month) <==> NeverOverwrites(f, run, start, month) && !Turned(f, run, start, month)
  {
    hide For, OwnTotal, After, Overwrites, Turned;
    if NeverOverwrites(f, run, start, month) && !Turned(f, run, start, month) {
      forall k, now | 1 <= k <= |run|
        ensures For(After(f, run[..k]), month, now) == OwnTotal(For(f, month, start), run[..k], month)
      {
        PrefixKeeps(f, run, start, month, k);
        FundingKept(f, run[..k], start, now, month);
      }
    }
    if Keeps(f, run, start, month) {
      forall k | 0 <= k < |run|
        ensures if run[k].month == month then k > 0 || !Turned(f, run, start, month)
                else !Overwrites(After(f, run[..k]), run[k], start, month)
      {
        OneStep(f, run, k, For(f, month, start), month);
        NextKeepsExactly(f, run, k, start, start, month);
      }
      NotTurned(f, run, start, month);
    }
  }

  lemma PrefixKeeps(f: Funding, run: seq<Event>, start: Option<int>, month: int, k: nat)
    requires 1 <= k <= |run| && NeverOverwrites(f, run, start, month) && !Turned(f, run, start, month)
    ensures NeverOverwrites(f, run[..k], start, month) && !Turned(f, run[..k], start, month)
  {
    hide After, Overwrites;
    assert forall h :: 0 <= h < k ==> run[..k][h] == run[h] && run[..k][..h] == run[..h];
  }

  lemma NotTurned(f: Funding, run: seq<Event>, start: Option<int>, month: int)
    requires run != [] && run[0].month == month ==> !Turned(f, run, start, month)
    ensures !Turned(f, run, start, month)
  {
  }

  // ---- the same, from the inputs --------------------------------------

  /** Event k, of another month, moves the older record as it first stood, and no earlier event is for the month. */
  predicate MovesFirst(f: Funding, run: seq<Event>, month: int, k: int) {
    && 0 <= k < |run| && run[k].month != month && Moves(f, run[k])
    && forall j :: 0 <= j < k ==> run[j].month != month
  }

  predicate TouchesMonth(run: seq<Event>, month: int) {
    exists j :: 0 <= j < |run| && run[j].month == month
  }

  predicate AnyMoves(f: Funding, run: seq<Event>) {
    exists j :: 0 <= j < |run| && Moves(f, run[j])
  }

  /** Where the month is kept after a run, when the older record alone held it before. */
  lemma {:induction false} WhereKept(f: Funding, run: seq<Event>, start: Option<int>, month: int)
    requires month !in f.byPeriod && LegacyKey(f, start) == Some(month)
    ensures var g := After(f, run);
      && (month in g.byPeriod <==> TouchesMonth(run, month))
      && (!TouchesMonth(run, month) && AnyMoves(f, run) ==> LegacyKey(g, start) != Some(month))
      && (!TouchesMonth(run, month) && !AnyMoves(f, run) ==> g.legacy == f.legacy && g.legacyPeriod == f.legacyPeriod)
  {
    if run != [] {
      var n := |run| - 1;
      var before := run[..n];
      assert TouchesMonth(run, month) <==> TouchesMonth(before, month) || run[n].month == month;
      assert AnyMoves(f, run) <==> AnyMoves(f, before) || Moves(f, run[n]);
      assert After(f, run) == Step(After(f, before), run[n]);
      hide After, TouchesMonth, AnyMoves, For;
      WhereKept(f, before, start, month);
    }
  }

  /** A month that is in the dictionary, or of which nothing is recorded, is never overwritten. */
  lemma {:induction false} StaysSafe(f: Funding, run: seq<Event>, start: Option<int>, month: int)
    requires month in f.byPeriod || LegacyKey(f, start) != Some(month)
    ensures var g := After(f, run); month in g.byPeriod || LegacyKey(g, start) != Some(month)
  {
    if run != [] {
      StaysSafe(f, run[..|run| - 1], start, month);
    }
  }

  /** The month is overwritten in some turn exactly when a condition on the first policy and the events holds. */
  lemma NeverOverwritesExactly(f: Funding, run: seq<Event>, start: Option<int>, month: int)
    ensures NeverOverwrites(f, run, start, month)
      <==> !(OnlyOlder(f, start, month) && exists k :: MovesFirst(f, run, month, k))
  {
    hide After, Moves;
    if OnlyOlder(f, start, month) {
      if k :| MovesFirst(f, run, month, k) {
        FirstMover(f, run, start, month, k);
      }
    }
    forall k | 0 <= k < |run| && run[k].month != month && Overwrites(After(f, run[..k]), run[k], start, month)
      ensures OnlyOlder(f, start, month) && MovesFirst(f, run, month, k)
    {
      OverwriterIsFirst(f, run, start, month, k);
    }
  }

  /** The same promise, decided by the first policy, the events and the day of the start alone. */
  lemma FundingLostExactly(f: Funding, run: seq<Event>, start: Option<int>, month: int)
    ensures Keeps(f, run, start, month)
      <==> !(OnlyOlder(f, start, month) && exists k :: MovesFirst(f, run, month, k)) && !Turned(f, run, start, month)
  {
    hide Keeps, NeverOverwrites, OnlyOlder, MovesFirst, Turned;
    FundingKeptExactly(f, run, start, month);
    NeverOverwritesExactly(f, run, start, month);
  }

  lemma OverwriterIsFirst(f: Funding, run: seq<Event>, start: Option<int>, month: int, k: nat)
    requires k < |run| && run[k].month != month && Overwrites(After(f, run[..k]), run[k], start, month)
    ensures OnlyOlder(f, start, month) && MovesFirst(f, run, month, k)
  {
    hide After;
    if month in f.byPeriod || LegacyKey(f, start) != Some(month) {
      StaysSafe(f, run[..k], start, month);
    } else {
      WhereKept(f, run[..k], start, month);
      assert forall j :: 0 <= j < k ==> run[..k][j] == run[j];
    }
  }

  /** The first such mover overwrites the month in its turn. */
  lemma FirstMover(f: Funding, run: seq<Event>, start: Option<int>, month: int, k: nat)
    requires OnlyOlder(f, start, month) && MovesFirst(f, run, month, k)
    ensures !NeverOverwrites(f, run, start, month)
    decreases k
  {
    hide After;
    WhereKept(f, run[..k], start, month);
    assert forall j :: 0 <= j < k ==> run[..k][j] == run[j];
    if j :| 0 <= j < k && Moves(f, run[j]) {
      FirstMover(f, run, start, month, j);
    } else {
      assert Overwrites(After(f, run[..k]), run[k], start, month);
    }
  }

  // ---- instances ------------------------------------------------------

  /** A policy with 50 for May in the older record only: recording 10 for June drops them. */
  lemma OlderRecordDropped()
    ensures var f := Funding(50.0, Some(5), map[]);
      For(f, 5, None) == 50.0 && For(Recorded(f, 10.0, 6, None), 5, None) == 0.0
  {
  }

  /** An older record without a month: on 1 June its 50 are June's, and a late 10 for May leaves May at 10. */
  lemma MayTurnsToJune()
    ensures var f := Funding(50.0, None, map[]);
      && For(f, 5, Some(5)) == 50.0 && For(f, 5, Some(6)) == 0.0 && For(f, 6, Some(6)) == 50.0
      && For(After(f, [Record(10.0, 5, Some(6))]), 5, Some(6)) == 10.0
      && Turned(f, [Record(10.0, 5, Some(6))], Some(5), 5)
  {
    assert [Record(10.0, 5, Some(6))][..0] == [];
  }
}
