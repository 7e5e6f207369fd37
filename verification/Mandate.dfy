/** Payment mandates: what a signer allowed, and the usage counted against a monthly cap. */
module Mandate {
  import opened Prelude

  datatype Mode = Explore | OneTime | Scheduled | Standing

  datatype Terms = Terms(active: bool, mode: Mode, perRunCap: Option<real>, periodCap: Option<real>)

  /** The amount used, and the calendar month it was used in; a payment without a date has no month. */
  datatype Usage = Usage(used: real, key: Option<int>)

  datatype Verdict = Authorized | Inactive | ExploreOnly | OverRunCap | AlreadyUsed | OverPeriodCap

  function PeriodUsage(u: Usage, when: Option<int>): real {
    if when.Some? && when == u.key then u.used else 0.0
  }

  function Judge(t: Terms, u: Usage, amount: real, when: Option<int>): Verdict {
    if !t.active then Inactive
    else if t.mode == Explore then ExploreOnly
    else if t.perRunCap.Some? && amount > t.perRunCap.value then OverRunCap
    else if t.mode == OneTime && u.used > 0.0 then AlreadyUsed
    else if t.periodCap.Some? && PeriodUsage(u, when) + amount > t.periodCap.value then OverPeriodCap
    else Authorized
  }

  function Recorded(u: Usage, amount: real, when: Option<int>): Usage {
    Usage((if when == u.key then u.used else 0.0) + amount, when)
  }

  function Released(u: Usage, amount: real, when: Option<int>): Usage {
    if when != u.key then u
    else u.(used := if u.used - amount >= 0.0 then u.used - amount else 0.0)
  }

  class Mandate {
    var mode: Mode
    var authorizedAt: Option<int>
    var revokedAt: Option<int>
    var perRunCap: Option<real>
    var periodCap: Option<real>
    var usedThisPeriod: real
    var periodKey: Option<int>

    constructor (mode: Mode, perRunCap: Option<real>, periodCap: Option<real>)
      ensures CurrentTerms() == Terms(false, mode, perRunCap, periodCap)
      ensures CurrentUsage() == Usage(0.0, None)
    {
      this.mode, this.perRunCap, this.periodCap := mode, perRunCap, periodCap;
      authorizedAt, revokedAt, usedThisPeriod, periodKey := None, None, 0.0, None;
    }

    function CurrentTerms(): Terms
      reads this
    {
      Terms(authorizedAt.Some? && revokedAt.None?, mode, perRunCap, periodCap)
    }

    function CurrentUsage(): Usage
      reads this
    {
      Usage(usedThisPeriod, periodKey)
    }

    method Authorizes(amount: real, when: Option<int>) returns (v: Verdict)
      ensures v == Judge(CurrentTerms(), CurrentUsage(), amount, when)
      ensures v == Inactive <==> authorizedAt.None? || revokedAt.Some?
      ensures v == ExploreOnly <==> authorizedAt.Some? && revokedAt.None? && mode == Explore
      ensures v == OverRunCap ==> perRunCap.Some? && amount > perRunCap.value
      ensures v == AlreadyUsed ==> mode == OneTime && usedThisPeriod > 0.0 && (perRunCap.Some? ==> amount <= perRunCap.value)
      ensures v == OverPeriodCap ==>
        && periodCap.Some? && (perRunCap.Some? ==> amount <= perRunCap.value) && (mode == OneTime ==> usedThisPeriod <= 0.0)
      ensures v == Authorized <==>
        && authorizedAt.Some? && revokedAt.None? && mode != Explore
        && (perRunCap.Some? ==> amount <= perRunCap.value)
        && (mode == OneTime ==> usedThisPeriod <= 0.0)
        && (periodCap.Some? ==> (if when.Some? && when == periodKey then usedThisPeriod else 0.0) + amount <= periodCap.value)
    {
      if authorizedAt.None? || revokedAt.Some? {
        return Inactive;
      }
      if mode == Explore {
        return ExploreOnly;
      }
      if perRunCap.Some? && amount > perRunCap.value {
        return OverRunCap;
      }
      if mode == OneTime && usedThisPeriod > 0.0 {
        return AlreadyUsed;
      }
      if periodCap.Some? {
        var alreadyUsed := if when.Some? && when == periodKey then usedThisPeriod else 0.0;
        if alreadyUsed + amount > periodCap.value {
          return OverPeriodCap;
        }
      }
      v := Authorized;
    }

    method RecordUse(amount: real, when: Option<int>)
      modifies this`usedThisPeriod, this`periodKey
      ensures CurrentUsage() == Recorded(old(CurrentUsage()), amount, when)
      ensures periodKey == when
      ensures usedThisPeriod == amount + if old(periodKey) == when then old(usedThisPeriod) else 0.0
    {
      if when != periodKey {
        usedThisPeriod := 0.0;
        periodKey := when;
      }
      usedThisPeriod := usedThisPeriod + amount;
    }

    method ReleaseUse(amount: real, when: Option<int>)
      modifies this`usedThisPeriod
      ensures CurrentUsage() == Released(old(CurrentUsage()), amount, when)
      ensures when != periodKey ==> usedThisPeriod == old(usedThisPeriod)
      ensures when == periodKey && amount <= old(usedThisPeriod) ==> usedThisPeriod == old(usedThisPeriod) - amount
      ensures when == periodKey && amount > old(usedThisPeriod) ==> usedThisPeriod == 0.0
    {
      if when == periodKey {
        usedThisPeriod := usedThisPeriod - amount;
        if usedThisPeriod < 0.0 {
          usedThisPeriod := 0.0;
        }
      }
    }
  }

  // ---- runs -----------------------------------------------------------

  datatype Payment = Payment(amount: real, when: Option<int>)

  /** A payment is recorded only when authorized; an undo releases one that is still open. */
  datatype Event = Pay(payment: Payment) | Undo(index: nat) | Switch(active: bool)

  datatype Desk = Desk(terms: Terms, usage: Usage, open: seq<Payment>)

  function Opened(t: Terms): Desk {
    Desk(t, Usage(0.0, None), [])
  }

  function Step(d: Desk, e: Event): Desk {
    match e
    case Pay(p) =>
      if Judge(d.terms, d.usage, p.amount, p.when) != Authorized then d
      else Desk(d.terms, Recorded(d.usage, p.amount, p.when), d.open + [p])
    case Undo(i) =>
      if i >= |d.open| then d
      else Desk(d.terms, Released(d.usage, d.open[i].amount, d.open[i].when), d.open[..i] + d.open[i + 1..])
    case Switch(active) => d.(terms := d.terms.(active := active))
  }

  function After(t: Terms, run: seq<Event>): Desk {
    if run == [] then Opened(t) else Step(After(t, run[..|run| - 1]), run[|run| - 1])
  }

  /** The months of the payments attempted, in order. */
  function Months(run: seq<Event>): seq<Option<int>> {
    if run == [] then []
    else
      var e := run[|run| - 1];
      Months(run[..|run| - 1]) + if e.Pay? then [e.payment.when] else []
  }

  ghost predicate NonNegative(run: seq<Event>) {
    forall k :: 0 <= k < |run| && run[k].Pay? ==> run[k].payment.amount >= 0.0
  }

  /** The payments of one month, or those without a date. */
  function Total(ps: seq<Payment>, when: Option<int>): real {
    if ps == [] then 0.0
    else
      var p := ps[|ps| - 1];
      Total(ps[..|ps| - 1], when) + if p.when == when then p.amount else 0.0
  }

  lemma {:induction false} TotalOfRemoval(ps: seq<Payment>, i: nat, when: Option<int>)
    requires i < |ps|
    ensures Total(ps, when)
      == Total(ps[..i] + ps[i + 1..], when) + (if ps[i].when == when then ps[i].amount else 0.0)
  {
    var n := |ps| - 1;
    if i == n {
      assert ps[..i] + ps[i + 1..] == ps[..n];
    } else {
      var init, rest := ps[..n], ps[..i] + ps[i + 1..];
      assert Total(ps, when) == Total(init, when) + if ps[n].when == when then ps[n].amount else 0.0;
      assert rest[n - 1] == ps[n] && rest[..n - 1] == init[..i] + init[i + 1..];
      assert Total(rest, when) == Total(rest[..n - 1], when) + if ps[n].when == when then ps[n].amount else 0.0;
      hide Total;
      TotalOfRemoval(init, i, when);
    }
  }

  lemma {:induction false} TotalNonNegative(ps: seq<Payment>, when: Option<int>)
    requires forall k :: 0 <= k < |ps| ==> ps[k].amount >= 0.0
    ensures Total(ps, when) >= 0.0
  {
    if ps != [] {
      TotalNonNegative(ps[..|ps| - 1], when);
    }
  }

  lemma {:induction false} TotalOfNone(ps: seq<Payment>, when: Option<int>)
    requires forall k :: 0 <= k < |ps| ==> ps[k].when != when
    ensures Total(ps, when) == 0.0
  {
    if ps != [] {
      TotalOfNone(ps[..|ps| - 1], when);
    }
  }

  lemma {:induction false} TermsStay(t: Terms, run: seq<Event>)
    ensures var r := After(t, run).terms; t.mode == r.mode && t.perRunCap == r.perRunCap && t.periodCap == r.periodCap
  {
    if run != [] {
      TermsStay(t, run[..|run| - 1]);
    }
  }

  // ---- inactive mandates ----------------------------------------------

  /** No event of the run activates the mandate. */
  ghost predicate NeverActivated(run: seq<Event>) {
    forall k :: 0 <= k < |run| ==> run[k] != Switch(true)
  }

  function From(d: Desk, run: seq<Event>): Desk {
    if run == [] then d else Step(From(d, run[..|run| - 1]), run[|run| - 1])
  }

  lemma {:induction false} RunsOn(t: Terms, run: seq<Event>, more: seq<Event>)
    ensures After(t, run + more) == From(After(t, run), more)
  {
    hide Step;
    if more == [] {
      assert run + more == run;
    } else {
      assert (run + more)[..|run + more| - 1] == run + more[..|more| - 1];
      RunsOn(t, run, more[..|more| - 1]);
    }
  }

  /** While a mandate is inactive no payment is ever added: what is open only shrinks, and usage never grows. */
  lemma {:induction false} InactiveOnlyShrinks(d: Desk, run: seq<Event>)
    requires !d.terms.active && NeverActivated(run) && d.usage.used >= 0.0
    requires forall k :: 0 <= k < |d.open| ==> d.open[k].amount >= 0.0
    ensures var e := From(d, run);
      && !e.terms.active && multiset(e.open) <= multiset(d.open) && e.usage.key == d.usage.key
      && 0.0 <= e.usage.used <= d.usage.used
  {
    if run != [] {
      var before := run[..|run| - 1];
      InactiveOnlyShrinks(d, before);
      InactiveStep(From(d, before), run[|run| - 1], d);
      hide Step;
    }
  }

  lemma InactiveStep(d: Desk, e: Event, first: Desk)
    requires !d.terms.active && e != Switch(true) && 0.0 <= d.usage.used <= first.usage.used
    requires multiset(d.open) <= multiset(first.open) && d.usage.key == first.usage.key
    requires forall k :: 0 <= k < |first.open| ==> first.open[k].amount >= 0.0
    ensures var next := Step(d, e);
      && !next.terms.active && multiset(next.open) <= multiset(first.open) && next.usage.key == first.usage.key
      && 0.0 <= next.usage.used <= first.usage.used
  {
    if e.Undo? && e.index < |d.open| {
      var p := d.open[e.index];
      OneLess(d.open, e.index);
      assert p in multiset(d.open) && p in multiset(first.open);
      assert p in first.open;
    }
  }

  lemma OneLess(ps: seq<Payment>, i: nat)
    requires i < |ps|
    ensures multiset(ps[..i] + ps[i + 1..]) <= multiset(ps)
  {
    assert ps == ps[..i] + ([ps[i]] + ps[i + 1..]);
  }

  /** Between a switch off and the next switch on nothing is paid, and a mandate never switched on never pays. */
  lemma InactivePaysNothing(t: Terms, run: seq<Event>, more: seq<Event>)
    requires NonNegative(run) && NeverActivated(more)
    ensures multiset(After(t, run + [Switch(false)] + more).open) <= multiset(After(t, run).open)
    ensures !t.active && NeverActivated(run) ==> After(t, run).open == []
  {
    var off := run + [Switch(false)];
    assert off[..|run|] == run;
    AllNonNegative(t, run);
    RunsOn(t, off, more);
    InactiveOnlyShrinks(After(t, off), more);
    if !t.active && NeverActivated(run) {
      RunsOn(t, [], run);
      assert [] + run == run;
      InactiveOnlyShrinks(Opened(t), run);
      NothingIn(After(t, run).open);
    }
  }

  lemma NothingIn(ps: seq<Payment>)
    requires multiset(ps) <= multiset([])
    ensures ps == []
  {
    assert multiset(ps) == multiset{};
    assert |multiset(ps)| == 0;
  }

  lemma {:induction false} AllNonNegative(t: Terms, run: seq<Event>)
    requires NonNegative(run)
    ensures After(t, run).usage.used >= 0.0
    ensures forall k :: 0 <= k < |After(t, run).open| ==> After(t, run).open[k].amount >= 0.0
  {
    if run != [] {
      AllNonNegative(t, run[..|run| - 1]);
    }
  }

  // ---- one-time mandates ----------------------------------------------

  /** At most one open payment moves money, and the recorded usage is exactly that payment. */
  ghost predicate SinglePayment(d: Desk) {
    && (forall k :: 0 <= k < |d.open| ==> d.open[k].amount >= 0.0)
    && d.usage.used >= 0.0
    && (forall k :: 0 <= k < |d.open| && d.open[k].amount > 0.0 ==>
          d.open[k].amount == d.usage.used && d.open[k].when == d.usage.key)
    && (forall j, k :: 0 <= j < k < |d.open| ==> d.open[j].amount == 0.0 || d.open[k].amount == 0.0)
  }

  lemma OneTimePay(d: Desk, p: Payment)
    requires d.terms.mode == OneTime && SinglePayment(d) && p.amount >= 0.0
    ensures SinglePayment(Step(d, Pay(p)))
  {
  }

  lemma OneTimeUndo(d: Desk, i: nat)
    requires SinglePayment(d) && i < |d.open|
    ensures SinglePayment(Step(d, Undo(i)))
  {
    var left, p := Step(d, Undo(i)).open, d.open[i];
    forall k | 0 <= k < |left|
      ensures var k' := if k < i then k else k + 1;
        left[k] == d.open[k'] && (p.amount > 0.0 ==> left[k].amount == 0.0)
    {
    }
  }

  lemma OneTimeStep(d: Desk, e: Event)
    requires d.terms.mode == OneTime && SinglePayment(d) && (e.Pay? ==> e.payment.amount >= 0.0)
    ensures SinglePayment(Step(d, e))
  {
    match e
    case Pay(p) =>
      OneTimePay(d, p);
    case Undo(i) =>
      if i < |d.open| {
        OneTimeUndo(d, i);
      }
    case Switch(_) =>
      hide Judge, Recorded, Released;
  }

  /** Whatever is attempted or undone, a one-time mandate has at most one outstanding payment. */
  lemma {:induction false} OneTimePaysOnce(t: Terms, run: seq<Event>)
    requires t.mode == OneTime && NonNegative(run)
    ensures SinglePayment(After(t, run))
  {
    if run != [] {
      OneTimePaysOnce(t, run[..|run| - 1]);
      TermsStay(t, run[..|run| - 1]);
      OneTimeStep(After(t, run[..|run| - 1]), run[|run| - 1]);
      hide Step, SinglePayment;
    }
  }

  // ---- the period cap -------------------------------------------------

  /** No dated month is scheduled again after something else was scheduled in between. */
  ghost predicate NoReturn(ms: seq<Option<int>>) {
    forall i, j, k :: 0 <= i < j < k < |ms| && ms[i] == ms[k] && ms[i].Some? ==> ms[j] == ms[i]
  }

  ghost predicate WithinCap(d: Desk, cap: real) {
    forall m: int :: Total(d.open, Some(m)) <= cap
  }

  /** Every run that schedules payments in these months, in this order, stays within the cap. */
  ghost predicate CapHolds(t: Terms, cap: real, ms: seq<Option<int>>) {
    forall run :: Months(run) == ms && NonNegative(run) ==> WithinCap(After(t, run), cap)
  }

  /** Seen: some payment was scheduled in this month; left: another one was scheduled after it. */
  ghost predicate Seen(ms: seq<Option<int>>, m: Option<int>) {
    exists i :: 0 <= i < |ms| && ms[i] == m
  }

  ghost predicate Left(ms: seq<Option<int>>, m: Option<int>) {
    exists i, j :: 0 <= i < j < |ms| && ms[i] == m && ms[j] != m
  }

  ghost predicate Tracks(d: Desk, cap: real, ms: seq<Option<int>>) {
    && (forall k :: 0 <= k < |d.open| ==> d.open[k].amount >= 0.0)
    && (d.usage.key.Some? ==> d.usage.used == Total(d.open, d.usage.key) && Seen(ms, d.usage.key))
    && (forall k :: 0 <= k < |d.open| && d.open[k].when.Some? && d.open[k].when != d.usage.key
          ==> Left(ms, d.open[k].when))
    && WithinCap(d, cap)
  }

  lemma LongerMonths(ms: seq<Option<int>>, more: seq<Option<int>>)
    ensures forall m :: Seen(ms, m) ==> Seen(ms + more, m)
    ensures forall m :: Left(ms, m) ==> Left(ms + more, m)
    ensures NoReturn(ms + more) ==> NoReturn(ms)
  {
    var all := ms + more;
    forall m | Seen(ms, m)
      ensures Seen(all, m)
    {
      var i :| 0 <= i < |ms| && ms[i] == m;
      assert all[i] == m;
    }
    forall m | Left(ms, m)
      ensures Left(all, m)
    {
      var i, j :| 0 <= i < j < |ms| && ms[i] == m && ms[j] != m;
      assert all[i] == m && all[j] != m;
    }
    assert forall i :: 0 <= i < |ms| ==> all[i] == ms[i];
  }

  lemma NewMonthIsFresh(ms: seq<Option<int>>, m: Option<int>)
    requires NoReturn(ms + [m]) && m.Some?
    ensures !Left(ms, m)
  {
    var all := ms + [m];
    forall i, j | 0 <= i < j < |ms| && ms[i] == m
      ensures ms[j] == m
    {
      assert all[i] == ms[i] && all[j] == ms[j] && all[|ms|] == m;
    }
  }

  /** Recording a payment in a month that was never left keeps the books. */
  lemma PayTracks(d: Desk, cap: real, ms: seq<Option<int>>, p: Payment)
    requires Tracks(d, cap, ms) && NoReturn(ms + [p.when]) && p.amount >= 0.0
    requires d.terms.periodCap == Some(cap) && Judge(d.terms, d.usage, p.amount, p.when) == Authorized
    ensures Tracks(Step(d, Pay(p)), cap, ms + [p.when])
  {
    var after, all := Step(d, Pay(p)), ms + [p.when];
    LongerMonths(ms, [p.when]);
    assert all[|ms|] == p.when;
    if p.when.Some? {
      NewMonthIsFresh(ms, p.when);
      if p.when != d.usage.key {
        TotalOfNone(d.open, p.when);
      }
    }
    assert after.open[..|d.open|] == d.open;
    forall k | 0 <= k < |after.open| && after.open[k].when.Some? && after.open[k].when != after.usage.key
      ensures Left(all, after.open[k].when)
    {
      var q := d.open[k];
      if q.when == d.usage.key {
        OpenIsSeen(d, cap, ms, k, all);
      }
    }
  }

  lemma OpenIsSeen(d: Desk, cap: real, ms: seq<Option<int>>, k: nat, all: seq<Option<int>>)
    requires Tracks(d, cap, ms) && k < |d.open| && |all| == |ms| + 1 && all[..|ms|] == ms
    requires d.open[k].when.Some? && d.open[k].when == d.usage.key && d.open[k].when != all[|ms|]
    ensures Left(all, d.open[k].when)
  {
    var i :| 0 <= i < |ms| && ms[i] == d.usage.key;
    assert all[i] == all[..|ms|][i];
  }

  lemma UndoTracks(d: Desk, cap: real, ms: seq<Option<int>>, i: nat)
    requires Tracks(d, cap, ms) && i < |d.open|
    ensures Tracks(Step(d, Undo(i)), cap, ms)
  {
    var after, p := Step(d, Undo(i)), d.open[i];
    forall m: int
      ensures Total(after.open, Some(m)) <= cap
    {
      TotalOfRemoval(d.open, i, Some(m));
    }
    if d.usage.key.Some? {
      TotalOfRemoval(d.open, i, d.usage.key);
      TotalNonNegative(after.open, d.usage.key);
    }
  }

  lemma {:induction false} RunTracks(t: Terms, cap: real, run: seq<Event>)
    requires t.periodCap == Some(cap) && cap >= 0.0 && NonNegative(run) && NoReturn(Months(run))
    ensures Tracks(After(t, run), cap, Months(run))
  {
    if run != [] {
      var before, e := run[..|run| - 1], run[|run| - 1];
      var d, ms := After(t, before), Months(before);
      LongerMonths(ms, if e.Pay? then [e.payment.when] else []);
      assert ms + [] == ms;
      RunTracks(t, cap, before);
      TermsStay(t, before);
      match e
      case Pay(p) => if Judge(d.terms, d.usage, p.amount, p.when) == Authorized { PayTracks(d, cap, ms, p); }
      case Undo(i) => if i < |d.open| { UndoTracks(d, cap, ms, i); }
      case Switch(_) =>
    }
  }

  /** In particular, months that never go backwards are never returned to. */
  lemma OrderedMonthsNoReturn(ms: seq<Option<int>>)
    requires forall i :: 0 <= i < |ms| ==> ms[i].Some?
    requires forall i, j :: 0 <= i < j < |ms| ==> ms[i].value <= ms[j].value
    ensures NoReturn(ms)
  {
  }

  /** A run whose payments never go back to an earlier month stays within the cap. */
  lemma OrderedRunsStayWithinCap(t: Terms, cap: real, run: seq<Event>)
    requires t.periodCap == Some(cap) && cap >= 0.0 && NonNegative(run)
    requires forall i :: 0 <= i < |Months(run)| ==> Months(run)[i].Some?
    requires forall i, j :: 0 <= i < j < |Months(run)| ==> Months(run)[i].value <= Months(run)[j].value
    ensures WithinCap(After(t, run), cap)
  {
    OrderedMonthsNoReturn(Months(run));
    RunTracks(t, cap, run);
  }

  lemma MonthWithinCap(d: Desk, cap: real, m: int)
    requires WithinCap(d, cap)
    ensures Total(d.open, Some(m)) <= cap
  {
  }

  /** With ordered months the usage on record is the current month's net payments, within the cap. */
  lemma UsageIsNetOfMonth(t: Terms, cap: real, run: seq<Event>)
    requires t.periodCap == Some(cap) && cap >= 0.0 && NonNegative(run) && NoReturn(Months(run))
    ensures var d := After(t, run);
      d.usage.key.Some? ==> d.usage.used == Total(d.open, d.usage.key) <= cap
  {
    RunTracks(t, cap, run);
    match After(t, run).usage.key {
      case None =>
      case Some(m) => MonthWithinCap(After(t, run), cap, m);
    }
  }
}
