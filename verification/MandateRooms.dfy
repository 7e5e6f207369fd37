/** How much a mandate can let out over a list of scheduled months: what no run exceeds and one run takes. */
module MandateRooms {
  import opened Prelude
  import opened Mandate

  // ---- what one payment can take --------------------------------------

  function Clamped(x: real): real {
    if x >= 0.0 then x else 0.0
  }

  /** The largest payment that goes through when this much of the cap is used. */
  function Allow(t: Terms, used: real): real
    requires t.periodCap.Some?
  {
    var left := t.periodCap.value - used;
    Clamped(if t.perRunCap.Some? && t.perRunCap.value < left then t.perRunCap.value else left)
  }

  /** Mandates that go on paying: EXPLORE never pays, and ONE_TIME pays once. */
  predicate GoesOn(t: Terms) {
    t.mode.Scheduled? || t.mode.Standing?
  }

  lemma AuthorizedWithin(t: Terms, u: Usage, amount: real, when: Option<int>)
    requires t.periodCap.Some? && amount >= 0.0 && Judge(t, u, amount, when) == Authorized
    ensures amount <= Allow(t, PeriodUsage(u, when))
  {
  }

  /** What the month's own usage allows goes through. */
  lemma AllowGoesThrough(t: Terms, u: Usage, when: Option<int>)
    requires t.periodCap.Some? && t.active && GoesOn(t) && PeriodUsage(u, when) <= t.periodCap.value
    requires t.perRunCap.Some? ==> t.perRunCap.value >= 0.0
    ensures Judge(t, u, Allow(t, PeriodUsage(u, when)), when) == Authorized
  {
  }

  // ---- what a month can take ------------------------------------------

  /** Taken before the last visit to the month, and in it; a visit is a stretch of attempts for one month. */
  datatype Room = Room(before: real, now: real)
  {
    function Total(): real {
      before + now
    }
  }

  function RoomOf(t: Terms, ms: seq<Option<int>>, m: int): Room
    requires t.periodCap.Some?
  {
    if ms == [] then Room(0.0, 0.0)
    else
      var n := |ms| - 1;
      var r := RoomOf(t, ms[..n], m);
      if ms[n] != Some(m) then r
      else if n > 0 && ms[n - 1] == Some(m) then Room(r.before, r.now + Allow(t, r.now))
      else Room(r.before + r.now, Allow(t, 0.0))
  }

  predicate InVisit(ms: seq<Option<int>>, m: int) {
    ms != [] && ms[|ms| - 1] == Some(m)
  }

  lemma RoomOfNext(t: Terms, ms: seq<Option<int>>, w: Option<int>, m: int)
    requires t.periodCap.Some?
    ensures var r := RoomOf(t, ms, m);
      RoomOf(t, ms + [w], m) == if w != Some(m) then r
        else if InVisit(ms, m) then Room(r.before, r.now + Allow(t, r.now))
        else Room(r.before + r.now, Allow(t, 0.0))
  {
    assert (ms + [w])[..|ms|] == ms;
  }

  lemma {:induction false} RoomWithin(t: Terms, ms: seq<Option<int>>, m: int)
    requires t.periodCap.Some? && t.periodCap.value >= 0.0
    ensures var r := RoomOf(t, ms, m); r.before >= 0.0 && 0.0 <= r.now <= t.periodCap.value
  {
    if ms != [] {
      RoomWithin(t, ms[..|ms| - 1], m);
    }
  }

  // ---- no run takes more ----------------------------------------------

  ghost predicate NoneNegative(ps: seq<Payment>) {
    forall k :: 0 <= k < |ps| ==> ps[k].amount >= 0.0
  }

  /** The month stays within its room, and what its current usage does not count within what came before. */
  ghost predicate Bounded(d: Desk, m: int, visit: bool, r: Room) {
    && NoneNegative(d.open) && d.usage.used >= 0.0
    && Total(d.open, Some(m)) <= r.Total()
    && (visit ==> Total(d.open, Some(m)) - PeriodUsage(d.usage, Some(m)) <= r.before)
  }

  ghost predicate SameCaps(t: Terms, d: Desk) {
    d.terms.mode == t.mode && d.terms.perRunCap == t.perRunCap && d.terms.periodCap == t.periodCap
  }

  lemma TotalOfNext(ps: seq<Payment>, p: Payment, when: Option<int>)
    ensures Total(ps + [p], when) == Total(ps, when) + if p.when == when then p.amount else 0.0
  {
    assert (ps + [p])[..|ps|] == ps;
  }

  /** An attempt for the month, in a visit that goes on or in a new one. */
  lemma AttemptBounded(t: Terms, d: Desk, amount: real, m: int, visit: bool, r: Room)
    requires t.periodCap.Some? && SameCaps(t, d) && amount >= 0.0 && Bounded(d, m, visit, r)
    requires r.before >= 0.0 && 0.0 <= r.now <= t.periodCap.value
    ensures Bounded(Step(d, Pay(Payment(amount, Some(m)))), m, true,
      if visit then Room(r.before, r.now + Allow(t, r.now)) else Room(r.before + r.now, Allow(t, 0.0)))
  {
    var p := Payment(amount, Some(m));
    TotalOfNext(d.open, p, Some(m));
    hide Total;
    if Judge(d.terms, d.usage, amount, p.when) == Authorized {
      AuthorizedWithin(d.terms, d.usage, amount, p.when);
    }
  }

  lemma OtherAttemptBounded(t: Terms, d: Desk, p: Payment, m: int, visit: bool, r: Room)
    requires p.amount >= 0.0 && p.when != Some(m) && Bounded(d, m, visit, r)
    ensures Bounded(Step(d, Pay(p)), m, false, r)
  {
    TotalOfNext(d.open, p, Some(m));
    hide Total, Judge;
  }

  lemma UndoBounded(d: Desk, i: nat, m: int, visit: bool, r: Room)
    requires Bounded(d, m, visit, r)
    ensures Bounded(Step(d, Undo(i)), m, visit, r)
  {
    if i < |d.open| {
      TotalOfRemoval(d.open, i, Some(m));
      hide Total;
      TotalNonNegative(Step(d, Undo(i)).open, Some(m));
    }
  }

  lemma EventBounded(t: Terms, d: Desk, e: Event, ms: seq<Option<int>>, m: int)
    requires t.periodCap.Some? && t.periodCap.value >= 0.0 && SameCaps(t, d) && (e.Pay? ==> e.payment.amount >= 0.0)
    requires Bounded(d, m, InVisit(ms, m), RoomOf(t, ms, m))
    ensures var all := ms + if e.Pay? then [e.payment.when] else [];
      Bounded(Step(d, e), m, InVisit(all, m), RoomOf(t, all, m))
  {
    hide Bounded, Step, RoomOf, Allow;
    match e
    case Pay(p) =>
      RoomOfNext(t, ms, p.when, m);
      RoomWithin(t, ms, m);
      if p.when == Some(m) {
        AttemptBounded(t, d, p.amount, m, InVisit(ms, m), RoomOf(t, ms, m));
        assert p == Payment(p.amount, Some(m));
      } else {
        OtherAttemptBounded(t, d, p, m, InVisit(ms, m), RoomOf(t, ms, m));
      }
    case Undo(i) =>
      assert ms + [] == ms;
      UndoBounded(d, i, m, InVisit(ms, m), RoomOf(t, ms, m));
    case Switch(active) =>
      assert ms + [] == ms;
      SwitchBounded(d, active, m, InVisit(ms, m), RoomOf(t, ms, m));
  }

  lemma SwitchBounded(d: Desk, active: bool, m: int, visit: bool, r: Room)
    requires Bounded(d, m, visit, r)
    ensures Bounded(Step(d, Switch(active)), m, visit, r)
  {
  }

  /** On any run, a month's outstanding payments stay within its room. */
  lemma {:induction false} RunBounded(t: Terms, run: seq<Event>, m: int)
    requires t.periodCap.Some? && t.periodCap.value >= 0.0 && NonNegative(run)
    ensures var ms := Months(run); Bounded(After(t, run), m, InVisit(ms, m), RoomOf(t, ms, m))
  {
    if run != [] {
      var before, e := run[..|run| - 1], run[|run| - 1];
      assert After(t, run) == Step(After(t, before), e);
      hide Bounded, Step, RoomOf, After;
      RunBounded(t, before, m);
      TermsStay(t, before);
      EventBounded(t, After(t, before), e, Months(before), m);
    }
  }

  // ---- some run takes all of it ---------------------------------------

  /** How often a month is entered; a payment without a date counts every time. */
  function Entries(ms: seq<Option<int>>, when: Option<int>): nat {
    if ms == [] then 0
    else
      var n := |ms| - 1;
      Entries(ms[..n], when) + if ms[n] == when && (when.None? || n == 0 || ms[n - 1] != when) then 1 else 0
  }

  function Times(k: nat, cap: real): real {
    if k == 0 then 0.0 else Times(k - 1, cap) + cap
  }

  lemma {:induction false} TwiceIsOver(k: nat, cap: real)
    requires k >= 2 && cap > 0.0
    ensures Times(k, cap) > cap
  {
    if k > 2 {
      TwiceIsOver(k - 1, cap);
    } else {
      assert Times(1, cap) == cap;
    }
  }

  /** The room an attempt adds. */
  function Gain(t: Terms, ms: seq<Option<int>>, w: Option<int>): real
    requires t.periodCap.Some?
  {
    if w.Some? && InVisit(ms, w.value) then Allow(t, RoomOf(t, ms, w.value).now) else Allow(t, 0.0)
  }

  /** An active mandate asked for exactly the room of each attempt. */
  function BestRun(t: Terms, ms: seq<Option<int>>): seq<Event>
    requires t.periodCap.Some?
  {
    if ms == [] then [Switch(true)]
    else
      var before := ms[..|ms| - 1];
      BestRun(t, before) + [Pay(Payment(Gain(t, before, ms[|ms| - 1]), ms[|ms| - 1]))]
  }

  lemma MonthsOfNext(run: seq<Event>, p: Payment)
    requires NonNegative(run) && p.amount >= 0.0
    ensures Months(run + [Pay(p)]) == Months(run) + [p.when] && NonNegative(run + [Pay(p)])
  {
    assert (run + [Pay(p)])[..|run|] == run;
  }

  lemma NoAttempt()
    ensures Months([Switch(true)]) == [] && NonNegative([Switch(true)])
  {
    assert [Switch(true)][..0] == [];
  }

  lemma {:induction false} BestRunIs(t: Terms, ms: seq<Option<int>>)
    requires t.periodCap.Some?
    ensures Months(BestRun(t, ms)) == ms && NonNegative(BestRun(t, ms))
  {
    hide Months, NonNegative, Allow;
    if ms != [] {
      var before, w := ms[..|ms| - 1], ms[|ms| - 1];
      assert ms == before + [w];
      BestRunIs(t, before);
      GainNonNegative(t, before, w);
      MonthsOfNext(BestRun(t, before), Payment(Gain(t, before, w), w));
      hide Gain;
    } else {
      NoAttempt();
    }
  }

  lemma GainNonNegative(t: Terms, ms: seq<Option<int>>, w: Option<int>)
    requires t.periodCap.Some?
    ensures Gain(t, ms, w) >= 0.0
  {
  }

  /** Ready for the next attempt: only the last month attempted has usage, and that is its room now. */
  ghost predicate UsageTakes(t: Terms, ms: seq<Option<int>>, d: Desk)
    requires t.periodCap.Some?
  {
    && SameCaps(t, d) && d.terms.active
    && forall w :: PeriodUsage(d.usage, w) == if w.Some? && InVisit(ms, w.value) then RoomOf(t, ms, w.value).now else 0.0
  }

  ghost predicate TotalsTake(t: Terms, ms: seq<Option<int>>, d: Desk, m: int)
    requires t.periodCap.Some?
  {
    && Total(d.open, Some(m)) == RoomOf(t, ms, m).Total()
    && Total(d.open, None) == Times(Entries(ms, None), Allow(t, 0.0))
  }

  lemma GainGoesThrough(t: Terms, ms: seq<Option<int>>, d: Desk, w: Option<int>)
    requires t.periodCap.Some? && t.periodCap.value >= 0.0 && GoesOn(t) && UsageTakes(t, ms, d)
    ensures var gain := Gain(t, ms, w);
      && gain == Allow(t, PeriodUsage(d.usage, w))
      && (Judge(d.terms, d.usage, gain, w) != Authorized ==> gain == 0.0 && forall u :: Allow(t, u) == 0.0)
  {
    hide RoomOf;
    if w.Some? {
      RoomWithin(t, ms, w.value);
    }
    if t.perRunCap.None? || t.perRunCap.value >= 0.0 {
      AllowGoesThrough(d.terms, d.usage, w);
    }
  }

  lemma {:induction false} NoRoom(t: Terms, ms: seq<Option<int>>, m: int)
    requires t.periodCap.Some? && forall u :: Allow(t, u) == 0.0
    ensures RoomOf(t, ms, m) == Room(0.0, 0.0)
  {
    hide Allow;
    if ms != [] {
      NoRoom(t, ms[..|ms| - 1], m);
    }
  }

  lemma UsageTaken(t: Terms, ms: seq<Option<int>>, d: Desk, w: Option<int>)
    requires t.periodCap.Some? && t.periodCap.value >= 0.0 && GoesOn(t) && UsageTakes(t, ms, d)
    ensures UsageTakes(t, ms + [w], Step(d, Pay(Payment(Gain(t, ms, w), w))))
  {
    var all, gain := ms + [w], Gain(t, ms, w);
    var next := Step(d, Pay(Payment(gain, w)));
    GainGoesThrough(t, ms, d, w);
    hide RoomOf, Allow;
    forall v
      ensures PeriodUsage(next.usage, v) == if v.Some? && InVisit(all, v.value) then RoomOf(t, all, v.value).now else 0.0
    {
      if v.Some? {
        RoomOfNext(t, ms, w, v.value);
        if Judge(d.terms, d.usage, gain, w) != Authorized {
          NoRoom(t, ms, v.value);
          NoRoom(t, all, v.value);
        }
      }
    }
  }

  lemma TotalsTaken(t: Terms, ms: seq<Option<int>>, d: Desk, m: int, w: Option<int>)
    requires t.periodCap.Some? && t.periodCap.value >= 0.0 && GoesOn(t) && UsageTakes(t, ms, d) && TotalsTake(t, ms, d, m)
    ensures TotalsTake(t, ms + [w], Step(d, Pay(Payment(Gain(t, ms, w), w))), m)
  {
    hide RoomOf, Total, Entries, Times, UsageTakes, Allow, Judge, Recorded, PeriodUsage;
    var p, each := Payment(Gain(t, ms, w), w), Allow(t, 0.0);
    var next := Step(d, Pay(p)).open;
    GainGoesThrough(t, ms, d, w);
    TotalOfNext(d.open, p, Some(m));
    TotalOfNext(d.open, p, None);
    assert Total(next, Some(m)) == Total(d.open, Some(m)) + if w == Some(m) then p.amount else 0.0;
    assert Total(next, None) == Total(d.open, None) + if w == None then p.amount else 0.0;
    hide Step;
    RoomOfNext(t, ms, w, m);
    EntriesOfNext(ms, [w]);
    TimesNext(Entries(ms, None), each);
  }

  lemma TimesNext(k: nat, x: real)
    ensures Times(k + 1, x) == Times(k, x) + x
  {
  }

  lemma EntriesOfNext(ms: seq<Option<int>>, more: seq<Option<int>>)
    requires |more| <= 1
    ensures Entries(ms + more, None) == Entries(ms, None) + if more == [None] then 1 else 0
  {
    if more == [] {
      assert ms + more == ms;
    } else {
      assert (ms + more)[..|ms|] == ms;
    }
  }

  lemma {:induction false} BestRunTakes(t: Terms, ms: seq<Option<int>>, m: int)
    requires t.periodCap.Some? && t.periodCap.value >= 0.0 && GoesOn(t)
    ensures var d := After(t, BestRun(t, ms)); UsageTakes(t, ms, d) && TotalsTake(t, ms, d, m)
  {
    BestRunOne(t, ms);
    hide After, BestRun;
    if ms == [] {
      hide Gain;
    } else {
      var before, w := ms[..|ms| - 1], ms[|ms| - 1];
      assert ms == before + [w];
      hide UsageTakes, TotalsTake, Step, Gain;
      BestRunTakes(t, before, m);
      UsageTaken(t, before, After(t, BestRun(t, before)), w);
      TotalsTaken(t, before, After(t, BestRun(t, before)), m, w);
    }
  }

  lemma BestRunOne(t: Terms, ms: seq<Option<int>>)
    requires t.periodCap.Some?
    ensures After(t, BestRun(t, ms)) == if ms == [] then Step(Opened(t), Switch(true))
      else var before, w := ms[..|ms| - 1], ms[|ms| - 1];
        Step(After(t, BestRun(t, before)), Pay(Payment(Gain(t, before, w), w)))
  {
    hide Step, Gain;
    var run := BestRun(t, ms);
    if ms == [] {
      assert run[..0] == [];
    } else {
      assert run[..|run| - 1] == BestRun(t, ms[..|ms| - 1]);
    }
  }

  // ---- mandates that pay once or never --------------------------------

  ghost predicate OncePaid(d: Desk, cap: real) {
    && SinglePayment(d) && forall k :: 0 <= k < |d.open| ==> d.open[k].amount <= cap
  }

  lemma {:induction false} SingleTotal(ps: seq<Payment>, w: Option<int>, cap: real)
    requires cap >= 0.0 && NoneNegative(ps) && forall k :: 0 <= k < |ps| ==> ps[k].amount <= cap
    requires forall j, k :: 0 <= j < k < |ps| ==> ps[j].amount == 0.0 || ps[k].amount == 0.0
    ensures 0.0 <= Total(ps, w) <= cap
    ensures (forall k :: 0 <= k < |ps| ==> ps[k].amount == 0.0) ==> Total(ps, w) == 0.0
  {
    if ps != [] {
      SingleTotal(ps[..|ps| - 1], w, cap);
    }
  }

  lemma {:induction false} PaysOnce(t: Terms, run: seq<Event>)
    requires t.periodCap.Some? && t.periodCap.value >= 0.0 && NonNegative(run) && !GoesOn(t)
    ensures forall w :: Total(After(t, run).open, w) <= t.periodCap.value
  {
    OnlyOnce(t, run);
    hide After, Total;
    var d := After(t, run);
    forall w
      ensures Total(d.open, w) <= t.periodCap.value
    {
      SingleTotal(d.open, w, t.periodCap.value);
    }
  }

  lemma {:induction false} OnlyOnce(t: Terms, run: seq<Event>)
    requires t.periodCap.Some? && t.periodCap.value >= 0.0 && NonNegative(run) && !GoesOn(t)
    ensures OncePaid(After(t, run), t.periodCap.value)
  {
    if run != [] {
      var before, e := run[..|run| - 1], run[|run| - 1];
      assert After(t, run) == Step(After(t, before), e);
      hide After;
      OnlyOnce(t, before);
      TermsStay(t, before);
      OnceStep(t, After(t, before), e);
    }
  }

  lemma OnceStep(t: Terms, d: Desk, e: Event)
    requires t.periodCap.Some? && t.periodCap.value >= 0.0 && !GoesOn(t) && SameCaps(t, d)
    requires OncePaid(d, t.periodCap.value) && (e.Pay? ==> e.payment.amount >= 0.0)
    ensures OncePaid(Step(d, e), t.periodCap.value)
  {
    if t.mode.OneTime? {
      OneTimeStep(d, e);
      hide SinglePayment;
    } else if e.Undo? && e.index < |d.open| {
      OneTimeUndo(d, e.index);
      hide SinglePayment;
    }
  }
}
