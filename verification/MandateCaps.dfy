/** When a mandate's monthly cap holds on every run over a list of scheduled months. */
module MandateCaps {
  import opened Prelude
  import opened Mandate
  import opened MandateRooms

  // ---- the period cap, exactly ----------------------------------------

  /** Every month's room is within the cap. */
  ghost predicate RoomsWithin(t: Terms, cap: real, ms: seq<Option<int>>)
    requires t.periodCap.Some?
  {
    forall m: int :: RoomOf(t, ms, m).Total() <= cap
  }

  lemma OpenNonNegative(t: Terms, run: seq<Event>)
    requires NonNegative(run)
    ensures NoneNegative(After(t, run).open)
  {
    AllNonNegative(t, run);
  }

  /** A negative cap is broken before anything is paid. */
  lemma NegativeCap(t: Terms, ms: seq<Option<int>>, w: Option<int>)
    requires t.periodCap.Some?
    ensures Months(BestRun(t, ms)) == ms && NonNegative(BestRun(t, ms))
    ensures Total(After(t, BestRun(t, ms)).open, w) >= 0.0
  {
    hide After, Months, Total, BestRun, NonNegative;
    BestRunIs(t, ms);
    OpenNonNegative(t, BestRun(t, ms));
    TotalNonNegative(After(t, BestRun(t, ms)).open, w);
  }

  /**
   * The monthly cap holds on every run scheduled in these months exactly when no month has room for
   * more than the cap: each visit starts its usage again from zero.
   */
  lemma CapHoldsExactly(t: Terms, cap: real, ms: seq<Option<int>>)
    requires t.periodCap == Some(cap)
    ensures CapHolds(t, cap, ms) <==> cap >= 0.0 && (!GoesOn(t) || RoomsWithin(t, cap, ms))
  {
    hide After, Months, Total, RoomOf, BestRun, NonNegative;
    if cap < 0.0 {
      NegativeCap(t, ms, Some(0));
    } else if !GoesOn(t) {
      forall run | Months(run) == ms && NonNegative(run)
        ensures WithinCap(After(t, run), cap)
      {
        PaysOnce(t, run);
      }
    } else {
      forall run, m: int | Months(run) == ms && NonNegative(run) && RoomsWithin(t, cap, ms)
        ensures Total(After(t, run).open, Some(m)) <= cap
      {
        RunBounded(t, run, m);
      }
      BestRunIs(t, ms);
      forall m: int
        ensures Total(After(t, BestRun(t, ms)).open, Some(m)) == RoomOf(t, ms, m).Total()
      {
        BestRunTakes(t, ms, m);
      }
    }
  }

  // ---- without a cap per run that binds -------------------------------

  predicate NoRunCap(t: Terms, cap: real) {
    t.perRunCap.None? || t.perRunCap.value >= cap
  }

  lemma DatedEntriesOfNext(ms: seq<Option<int>>, w: Option<int>, m: int)
    ensures Entries(ms + [w], Some(m)) == Entries(ms, Some(m)) + if w == Some(m) && !InVisit(ms, m) then 1 else 0
  {
    assert (ms + [w])[..|ms|] == ms;
  }

  /** Each visit has room for the whole cap. */
  lemma {:induction false} FullRoom(t: Terms, cap: real, ms: seq<Option<int>>, m: int)
    requires t.periodCap == Some(cap) && cap >= 0.0 && NoRunCap(t, cap)
    ensures RoomOf(t, ms, m).Total() == Times(Entries(ms, Some(m)), cap)
    ensures InVisit(ms, m) ==> RoomOf(t, ms, m).now == cap
  {
    if ms != [] {
      var before, w := ms[..|ms| - 1], ms[|ms| - 1];
      assert ms == before + [w] && Allow(t, 0.0) == cap && Allow(t, cap) == 0.0;
      hide RoomOf, Entries, Times, Allow;
      FullRoom(t, cap, before, m);
      RoomOfNext(t, before, w, m);
      DatedEntriesOfNext(before, w, m);
      TimesNext(Entries(before, Some(m)), cap);
    }
  }

  lemma {:induction false} EntriesGrow(ms: seq<Option<int>>, k: nat, w: Option<int>)
    requires k <= |ms|
    ensures Entries(ms[..k], w) <= Entries(ms, w)
  {
    if k < |ms| {
      var n := |ms| - 1;
      assert ms[..n][..k] == ms[..k];
      EntriesGrow(ms[..n], k, w);
    } else {
      assert ms[..k] == ms;
    }
  }

  /** Being scheduled at all means at least one entry. */
  lemma {:induction false} SeenEnters(ms: seq<Option<int>>, w: Option<int>, i: nat)
    requires i < |ms| && ms[i] == w
    ensures Entries(ms, w) >= 1
  {
    if i > 0 && ms[i - 1] == w && w.Some? {
      SeenEnters(ms, w, i - 1);
    } else {
      assert Entries(ms[..i + 1], w) >= 1;
      EntriesGrow(ms, i + 1, w);
    }
  }

  /** Entered at k after being scheduled at i, with something else just before k unless there is no date. */
  lemma EntersAgain(ms: seq<Option<int>>, w: Option<int>, i: nat, k: nat)
    requires i < k < |ms| && ms[i] == ms[k] == w && (w.None? || ms[k - 1] != w)
    ensures Entries(ms, w) >= 2
  {
    SeenEnters(ms[..k], w, i);
    assert ms[..k + 1][..k] == ms[..k];
    assert Entries(ms[..k + 1], w) >= 2;
    EntriesGrow(ms, k + 1, w);
  }

  lemma {:induction false} ReturnEntersTwice(ms: seq<Option<int>>, m: int, i: nat, j: nat, k: nat)
    requires i < j < k < |ms| && ms[i] == ms[k] == Some(m) && ms[j] != Some(m)
    ensures Entries(ms, Some(m)) >= 2
    decreases k
  {
    if ms[k - 1] == Some(m) {
      ReturnEntersTwice(ms, m, i, j, k - 1);
    } else {
      EntersAgain(ms, Some(m), i, k);
    }
  }

  lemma {:induction false} NeverEntered(ms: seq<Option<int>>, m: int)
    requires forall i :: 0 <= i < |ms| ==> ms[i] != Some(m)
    ensures Entries(ms, Some(m)) == 0
  {
    if ms != [] {
      NeverEntered(ms[..|ms| - 1], m);
    }
  }

  lemma NotBefore(before: seq<Option<int>>, m: int)
    requires NoReturn(before + [Some(m)]) && !InVisit(before, m)
    ensures forall i :: 0 <= i < |before| ==> before[i] != Some(m)
  {
    var ms, n := before + [Some(m)], |before|;
    assert n > 0 ==> ms[n - 1] != Some(m);
    assert forall i :: 0 <= i < n ==> ms[i] == before[i];
    assert ms[n] == Some(m);
  }

  /** A month that is not returned to is entered at most once. */
  lemma {:induction false} EntersOnce(ms: seq<Option<int>>, m: int)
    requires NoReturn(ms)
    ensures Entries(ms, Some(m)) <= 1
  {
    if ms != [] {
      var before, w := ms[..|ms| - 1], ms[|ms| - 1];
      assert ms == before + [w];
      hide Entries, NoReturn;
      LongerMonths(before, [w]);
      DatedEntriesOfNext(before, w, m);
      if w == Some(m) && !InVisit(before, m) {
        NotBefore(before, m);
        NeverEntered(before, m);
      } else {
        EntersOnce(before, m);
      }
    }
  }

  /** Then the cap holds exactly when no month is returned to. */
  lemma NoReturnExactly(t: Terms, cap: real, ms: seq<Option<int>>)
    requires t.periodCap == Some(cap) && cap > 0.0 && GoesOn(t) && NoRunCap(t, cap)
    ensures CapHolds(t, cap, ms) <==> NoReturn(ms)
  {
    hide CapHolds, RoomOf, Entries;
    CapHoldsExactly(t, cap, ms);
    assert Times(0, cap) == 0.0 && Times(1, cap) == cap;
    if NoReturn(ms) {
      forall m: int
        ensures RoomOf(t, ms, m).Total() <= cap
      {
        EntersOnce(ms, m);
        FullRoom(t, cap, ms, m);
      }
    } else {
      var i, j, k :| 0 <= i < j < k < |ms| && ms[i] == ms[k] && ms[i].Some? && ms[j] != ms[i];
      var m := ms[i].value;
      ReturnEntersTwice(ms, m, i, j, k);
      TwiceIsOver(Entries(ms, Some(m)), cap);
      FullRoom(t, cap, ms, m);
    }
  }

  // ---- payments without a date ----------------------------------------

  /** Every run that schedules payments in these months keeps the undated ones within the cap. */
  ghost predicate UndatedCapHolds(t: Terms, cap: real, ms: seq<Option<int>>) {
    forall run :: Months(run) == ms && NonNegative(run) ==> Total(After(t, run).open, None) <= cap
  }

  lemma UndatedPay(t: Terms, d: Desk, p: Payment)
    requires t.periodCap.Some? && SameCaps(t, d) && p.amount >= 0.0
    ensures Total(Step(d, Pay(p)).open, None) <= Total(d.open, None) + (if p.when.None? then Allow(t, 0.0) else 0.0)
  {
    TotalOfNext(d.open, p, None);
    hide Total;
    if Judge(d.terms, d.usage, p.amount, p.when) == Authorized {
      AuthorizedWithin(d.terms, d.usage, p.amount, p.when);
    }
  }

  lemma UndatedStep(t: Terms, d: Desk, e: Event)
    requires t.periodCap.Some? && SameCaps(t, d) && (e.Pay? ==> e.payment.amount >= 0.0) && NoneNegative(d.open)
    ensures Total(Step(d, e).open, None) <= Total(d.open, None) + (if e.Pay? && e.payment.when.None? then Allow(t, 0.0) else 0.0)
  {
    match e
    case Pay(p) => UndatedPay(t, d, p);
    case Undo(i) =>
      if i < |d.open| {
        TotalOfRemoval(d.open, i, None);
      }
      hide Total;
    case Switch(_) =>
  }

  /** Each undated payment is judged alone: together they stay within what one can take times their number. */
  lemma {:induction false} UndatedBounded(t: Terms, run: seq<Event>)
    requires t.periodCap.Some? && NonNegative(run)
    ensures Total(After(t, run).open, None) <= Times(Entries(Months(run), None), Allow(t, 0.0))
  {
    if run != [] {
      var before, e := run[..|run| - 1], run[|run| - 1];
      var d, ms, more := After(t, before), Months(before), if e.Pay? then [e.payment.when] else [];
      assert NonNegative(before) && (e.Pay? ==> e.payment.amount >= 0.0);
      assert After(t, run) == Step(d, e) && Months(run) == ms + more;
      hide After, Step, Months, Total, Entries, Times, NonNegative, NoneNegative, Allow;
      UndatedBounded(t, before);
      OpenNonNegative(t, before);
      TermsStay(t, before);
      UndatedStep(t, d, e);
      EntriesOfNext(ms, more);
      TimesNext(Entries(ms, None), Allow(t, 0.0));
    }
  }

  /** The cap holds for undated payments on every run exactly when each of them at its most stays within it in all. */
  lemma UndatedCapExactly(t: Terms, cap: real, ms: seq<Option<int>>)
    requires t.periodCap == Some(cap)
    ensures UndatedCapHolds(t, cap, ms)
      <==> cap >= 0.0 && (!GoesOn(t) || Times(Entries(ms, None), Allow(t, 0.0)) <= cap)
  {
    hide After, Months, Total, Entries, Times, BestRun, NonNegative, Allow;
    if cap < 0.0 {
      NegativeCap(t, ms, None);
    } else if !GoesOn(t) {
      forall run | Months(run) == ms && NonNegative(run)
        ensures Total(After(t, run).open, None) <= cap
      {
        PaysOnce(t, run);
      }
    } else {
      forall run | Months(run) == ms && NonNegative(run)
        ensures Total(After(t, run).open, None) <= Times(Entries(ms, None), Allow(t, 0.0))
      {
        UndatedBounded(t, run);
      }
      BestRunIs(t, ms);
      BestRunTakes(t, ms, 0);
    }
  }

  ghost predicate AtMostOneUndated(ms: seq<Option<int>>) {
    forall i, j :: 0 <= i < j < |ms| ==> ms[i].Some? || ms[j].Some?
  }

  lemma {:induction false} FewUndated(ms: seq<Option<int>>)
    requires AtMostOneUndated(ms)
    ensures Entries(ms, None) <= 1
    ensures (forall k :: 0 <= k < |ms| ==> ms[k].Some?) ==> Entries(ms, None) == 0
  {
    if ms != [] {
      FewUndated(ms[..|ms| - 1]);
    }
  }

  /** When no cap per run binds, that is at most one payment. */
  lemma OneUndatedExactly(t: Terms, cap: real, ms: seq<Option<int>>)
    requires t.periodCap == Some(cap) && cap > 0.0 && GoesOn(t) && NoRunCap(t, cap)
    ensures UndatedCapHolds(t, cap, ms) <==> AtMostOneUndated(ms)
  {
    hide UndatedCapHolds, Entries;
    UndatedCapExactly(t, cap, ms);
    assert Times(0, cap) == 0.0 && Times(1, cap) == cap;
    if AtMostOneUndated(ms) {
      FewUndated(ms);
    } else {
      var i, j :| 0 <= i < j < |ms| && ms[i].None? && ms[j].None?;
      EntersAgain(ms, None, i, j);
      TwiceIsOver(Entries(ms, None), cap);
    }
  }

  // ---- instances ------------------------------------------------------

  /** May, June and May again at a cap of 100: 200 of May are outstanding. */
  lemma ReturnToMay()
    ensures var t, ms := Terms(true, Standing, None, Some(100.0)), [Some(5), Some(6), Some(5)];
      Total(After(t, BestRun(t, ms)).open, Some(5)) == 200.0 && !CapHolds(t, 100.0, ms)
  {
    var t, ms := Terms(true, Standing, None, Some(100.0)), [Some(5), Some(6), Some(5)];
    ThreeRooms(t, Some(5), Some(6), Some(5));
    hide RoomOf, Total, After, BestRun, CapHolds, Allow;
    BestRunTakes(t, ms, 5);
    CapHoldsExactly(t, 100.0, ms);
  }

  /** The rooms of the first month of three attempts. */
  lemma ThreeRooms(t: Terms, a: Option<int>, b: Option<int>, c: Option<int>)
    requires t.periodCap.Some? && a == c == Some(5) && b == Some(6)
    ensures RoomOf(t, [a, b, c], 5) == Room(Allow(t, 0.0), Allow(t, 0.0))
  {
    hide Allow, RoomOf;
    NothingYet(t);
    assert [] + [a] == [a] && [a] + [b] == [a, b] && [a, b] + [c] == [a, b, c];
    RoomOfNext(t, [], a, 5);
    RoomOfNext(t, [a], b, 5);
    RoomOfNext(t, [a, b], c, 5);
  }

  lemma NothingYet(t: Terms)
    requires t.periodCap.Some?
    ensures forall m :: RoomOf(t, [], m) == Room(0.0, 0.0)
  {
  }

  /** Two payments without a date at a cap of 100: 200 are outstanding. */
  lemma TwoUndated()
    ensures var t, ms: seq<Option<int>> := Terms(true, Standing, None, Some(100.0)), [None, None];
      Total(After(t, BestRun(t, ms)).open, None) == 200.0 && !UndatedCapHolds(t, 100.0, ms)
  {
    var t, ms: seq<Option<int>> := Terms(true, Standing, None, Some(100.0)), [None, None];
    Undateds();
    assert Times(2, 100.0) == 200.0;
    hide RoomOf, Total, After, BestRun, UndatedCapHolds, Entries, Times;
    BestRunTakes(t, ms, 5);
    UndatedCapExactly(t, 100.0, ms);
  }

  lemma Undateds()
    ensures Entries([None, None], None) == 2 && Entries([None, None, None], None) == 3
  {
    var none: Option<int> := None;
    assert [] + [none] == [none] && [none] + [none] == [none, none] && [none, none] + [none] == [none, none, none];
    EntriesOfNext([], [none]);
    EntriesOfNext([none], [none]);
    EntriesOfNext([none, none], [none]);
  }

  /** The demo household's mandate: 2500 a payment and 7000 a month. */
  function DemoTerms(): Terms {
    Terms(true, Standing, Some(2500.0), Some(7000.0))
  }

  lemma FourRooms(t: Terms)
    requires t.periodCap.Some? && Allow(t, 0.0) == Allow(t, 2500.0) == 2500.0
    ensures RoomOf(t, [Some(5), Some(5), Some(6), Some(5)], 5) == Room(5000.0, 2500.0)
  {
    hide Allow, RoomOf;
    NothingYet(t);
    var a, b: Option<int> := Some(5), Some(6);
    assert [] + [a] == [a] && [a] + [a] == [a, a] && [a, a] + [b] == [a, a, b] && [a, a, b] + [a] == [a, a, b, a];
    RoomOfNext(t, [], a, 5);
    RoomOfNext(t, [a], a, 5);
    RoomOfNext(t, [a, a], b, 5);
    RoomOfNext(t, [a, a, b], a, 5);
  }

  lemma DemoRooms(m: int)
    ensures RoomOf(DemoTerms(), [Some(5), Some(6), Some(5)], m).Total() <= 5000.0
  {
    var t, a, b: Option<int> := DemoTerms(), Some(5), Some(6);
    assert Allow(t, 0.0) == 2500.0;
    hide Allow, RoomOf;
    NothingYet(t);
    assert [] + [a] == [a] && [a] + [b] == [a, b] && [a, b] + [a] == [a, b, a];
    RoomOfNext(t, [], a, m);
    RoomOfNext(t, [a], b, m);
    RoomOfNext(t, [a, b], a, m);
  }

  /** Returning to May is within it once, but not after two payments in May; three undated payments break it. */
  lemma DemoMandate()
    ensures CapHolds(DemoTerms(), 7000.0, [Some(5), Some(6), Some(5)])
    ensures !CapHolds(DemoTerms(), 7000.0, [Some(5), Some(5), Some(6), Some(5)])
    ensures UndatedCapHolds(DemoTerms(), 7000.0, [None, None]) && !UndatedCapHolds(DemoTerms(), 7000.0, [None, None, None])
  {
    var t := DemoTerms();
    assert Allow(t, 0.0) == Allow(t, 2500.0) == 2500.0;
    assert Times(2, 2500.0) == 5000.0;
    assert Times(3, 2500.0) == 7500.0;
    Undateds();
    FourRooms(t);
    hide Allow, RoomOf, CapHolds, UndatedCapHolds, Times, Entries;
    forall m: int
      ensures RoomOf(t, [Some(5), Some(6), Some(5)], m).Total() <= 7000.0
    {
      DemoRooms(m);
    }
    CapHoldsExactly(t, 7000.0, [Some(5), Some(6), Some(5)]);
    CapHoldsExactly(t, 7000.0, [Some(5), Some(5), Some(6), Some(5)]);
    UndatedCapExactly(t, 7000.0, [None, None]);
    UndatedCapExactly(t, 7000.0, [None, None, None]);
  }
}
