/** The dated cash-flow forecast and the spending allowance drawn from its lowest point. */
module Ledger {
  import opened Prelude

  /** A signed, dated amount; bill tells its kind. */
  datatype Entry = Entry(date: int, amount: real, bill: bool)

  datatype Reserve = Reserve(accountId: string, protected: bool, funded: real)

  datatype DayPoint = DayPoint(
    date: int, opening: real, inflow: real, outflow: real, closing: real, entries: seq<Entry>)

  function OnDay(es: seq<Entry>, d: int): seq<Entry> {
    if es == [] then [] else (if es[0].date == d then [es[0]] else []) + OnDay(es[1..], d)
  }

  function Inflow(es: seq<Entry>): real {
    if es == [] then 0.0 else (if es[0].amount > 0.0 then es[0].amount else 0.0) + Inflow(es[1..])
  }

  function Outflow(es: seq<Entry>): real {
    if es == [] then 0.0 else (if es[0].amount < 0.0 then -es[0].amount else 0.0) + Outflow(es[1..])
  }

  /** Everything dated from start through d, counted once. */
  function Net(es: seq<Entry>, start: int, d: int): real {
    if es == [] then 0.0
    else (if start <= es[0].date <= d then es[0].amount else 0.0) + Net(es[1..], start, d)
  }

  lemma {:induction false} NetStep(es: seq<Entry>, start: int, d: int)
    requires start <= d
    ensures Net(es, start, d) == Net(es, start, d - 1) + Inflow(OnDay(es, d)) - Outflow(OnDay(es, d))
  {
    if es != [] {
      NetStep(es[1..], start, d);
      if es[0].date == d {
        assert OnDay(es, d)[1..] == OnDay(es[1..], d);
      } else {
        assert OnDay(es, d) == OnDay(es[1..], d);
      }
    }
  }

  lemma {:induction false} NetBefore(es: seq<Entry>, start: int)
    ensures Net(es, start, start - 1) == 0.0
  {
    if es != [] {
      NetBefore(es[1..], start);
    }
  }

  lemma {:induction false} NetAppend(a: seq<Entry>, b: seq<Entry>, start: int, d: int)
    ensures Net(a + b, start, d) == Net(a, start, d) + Net(b, start, d)
  {
    if a == [] {
      assert a + b == b;
    } else {
      assert (a + b)[1..] == a[1..] + b;
      NetAppend(a[1..], b, start, d);
    }
  }

  /** One point a day, each closing the prefix sum of all entries so far. */
  ghost predicate ClosesAtPrefixSums(ps: seq<DayPoint>, available: real, es: seq<Entry>, start: int, days: int) {
    && |ps| == (if days >= 0 then days + 1 else 0)
    && forall i :: 0 <= i < |ps| ==> ps[i].closing == available + Net(es, start, start + i)
  }

  /** Each day opens where the day before closed and moves by that day's own entries. */
  ghost predicate DaysBalance(ps: seq<DayPoint>, available: real, es: seq<Entry>, start: int) {
    forall i :: 0 <= i < |ps| ==>
      && ps[i].date == start + i
      && ps[i].opening == available + Net(es, start, start + i - 1)
      && ps[i].inflow >= 0.0 && ps[i].outflow >= 0.0
      && ps[i].closing == ps[i].opening + ps[i].inflow - ps[i].outflow
      && ps[i].entries == OnDay(es, start + i)
  }

  ghost predicate Forecasts(ps: seq<DayPoint>, available: real, es: seq<Entry>, start: int, days: int) {
    ClosesAtPrefixSums(ps, available, es, start, days) && DaysBalance(ps, available, es, start)
  }

  lemma {:induction false} FlowsNonNegative(es: seq<Entry>)
    ensures Inflow(es) >= 0.0 && Outflow(es) >= 0.0
  {
    if es != [] {
      FlowsNonNegative(es[1..]);
    }
  }

  lemma {:induction false} OnDayAppend(es: seq<Entry>, e: Entry, d: int)
    ensures OnDay(es + [e], d) == OnDay(es, d) + (if e.date == d then [e] else [])
  {
    if es == [] {
      assert es + [e] == [e];
    } else {
      assert (es + [e])[1..] == es[1..] + [e];
      OnDayAppend(es[1..], e, d);
      var head := if es[0].date == d then [es[0]] else [];
      var x, y := OnDay(es[1..], d), if e.date == d then [e] else [];
      assert OnDay(es, d) == head + x && OnDay(es + [e], d) == head + (x + y);
      hide OnDay;
    }
  }

  /** by_day.setdefault(e.date, []).append(e) */
  method GroupByDay(es: seq<Entry>) returns (byDay: map<int, seq<Entry>>)
    ensures forall d :: (if d in byDay then byDay[d] else []) == OnDay(es, d)
  {
    byDay := map[];
    for i := 0 to |es|
      invariant forall d :: (if d in byDay then byDay[d] else []) == OnDay(es[..i], d)
    {
      var e := es[i];
      assert es[..i + 1] == es[..i] + [e];
      forall d
        ensures OnDay(es[..i + 1], d) == OnDay(es[..i], d) + (if e.date == d then [e] else [])
      {
        OnDayAppend(es[..i], e, d);
      }
      byDay := byDay[e.date := (if e.date in byDay then byDay[e.date] else []) + [e]];
    }
    assert es[..|es|] == es;
  }

  lemma PointAdded(ps: seq<DayPoint>, available: real, es: seq<Entry>, start: int, d: int) returns (p: DayPoint)
    requires start <= d && |ps| == d - start && Forecasts(ps, available, es, start, d - start - 1)
    ensures var todays, opening := OnDay(es, d), available + Net(es, start, d - 1);
      p == DayPoint(d, opening, Inflow(todays), Outflow(todays),
                    opening + Inflow(todays) - Outflow(todays), todays)
    ensures Forecasts(ps + [p], available, es, start, d - start)
    ensures p.closing == available + Net(es, start, d)
  {
    hide OnDay, Net, Inflow, Outflow;
    var todays, opening := OnDay(es, d), available + Net(es, start, d - 1);
    p := DayPoint(d, opening, Inflow(todays), Outflow(todays), opening + Inflow(todays) - Outflow(todays), todays);
    FlowsNonNegative(todays);
    NetStep(es, start, d);
  }

  /** Forecast: one running balance over the window; entries outside it are never looked at. */
  method Forecast(available: real, es: seq<Entry>, start: int, days: int) returns (ps: seq<DayPoint>)
    ensures Forecasts(ps, available, es, start, days)
  {
    var byDay := GroupByDay(es);
    var balance := available;
    var d := start;
    ps := [];
    NetBefore(es, start);
    hide OnDay, Net, Inflow, Outflow;
    while d <= start + days
      invariant start <= d && |ps| == d - start && (d <= start + days + 1 || d == start)
      invariant balance == available + Net(es, start, d - 1)
      invariant Forecasts(ps, available, es, start, d - start - 1)
      decreases start + days - d
    {
      ghost var p := PointAdded(ps, available, es, start, d);
      var todays := if d in byDay then byDay[d] else [];
      var inflow, outflow, opening := Inflow(todays), Outflow(todays), balance;
      balance := balance + inflow - outflow;
      ps := ps + [DayPoint(d, opening, inflow, outflow, balance, todays)];
      d := d + 1;
    }
  }

  // ---- the allowance --------------------------------------------------

  ghost predicate FirstLowest(ps: seq<DayPoint>, k: int) {
    && 0 <= k < |ps|
    && (forall i :: 0 <= i < |ps| ==> ps[k].closing <= ps[i].closing)
    && (forall i :: 0 <= i < k ==> ps[k].closing < ps[i].closing)
  }

  /** low_point: the first day of least closing balance. */
  method LowPoint(ps: seq<DayPoint>) returns (low: DayPoint)
    requires ps != []
    ensures exists k :: FirstLowest(ps, k) && low == ps[k]
  {
    low := ps[0];
    ghost var k := 0;
    for i := 1 to |ps|
      invariant 0 <= k < i && low == ps[k]
      invariant forall j :: 0 <= j < i ==> ps[k].closing <= ps[j].closing
      invariant forall j :: 0 <= j < k ==> ps[k].closing < ps[j].closing
    {
      if ps[i].closing < low.closing {
        low, k := ps[i], i;
      }
    }
    assert FirstLowest(ps, k);
  }

  ghost predicate NeverBelow(low: real, available: real, es: seq<Entry>, start: int, days: nat) {
    forall d :: start <= d <= start + days ==> low <= available + Net(es, start, d)
  }

  ghost predicate Touches(low: real, available: real, es: seq<Entry>, start: int, days: nat) {
    exists d :: start <= d <= start + days && available + Net(es, start, d) == low
  }

  ghost predicate IsLow(low: real, available: real, es: seq<Entry>, start: int, days: nat) {
    NeverBelow(low, available, es, start, days) && Touches(low, available, es, start, days)
  }

  ghost predicate FirstTouches(low: real, lowDate: int, available: real, es: seq<Entry>, start: int) {
    available + Net(es, start, lowDate) == low
    && forall d :: start <= d < lowDate ==> available + Net(es, start, d) > low
  }

  /** The protected money asked for, plus every protected reserve kept on the account. */
  function ProtectedOn(account: string, base: real, reserves: seq<Reserve>): real {
    if reserves == [] then base
    else
      var r := reserves[|reserves| - 1];
      ProtectedOn(account, base, reserves[..|reserves| - 1])
      + if r.accountId == account && r.protected then r.funded else 0.0
  }

  /** Each protected reserve on the account adds what it holds, and no other reserve adds anything. */
  lemma {:induction false} ProtectedIs(account: string, base: real, reserves: seq<Reserve>, more: seq<Reserve>)
    ensures ProtectedOn(account, base, []) == base
    ensures (forall r :: r in more ==> !r.protected || r.accountId != account) ==>
      ProtectedOn(account, base, reserves + more) == ProtectedOn(account, base, reserves)
    ensures forall r: Reserve :: r.protected && r.accountId == account ==>
      ProtectedOn(account, base, reserves + [r]) == ProtectedOn(account, base, reserves) + r.funded
  {
    forall r: Reserve | r.protected && r.accountId == account
      ensures ProtectedOn(account, base, reserves + [r]) == ProtectedOn(account, base, reserves) + r.funded
    {
      assert (reserves + [r])[..|reserves|] == reserves;
    }
    if more == [] {
      assert reserves + more == reserves;
    } else {
      var n := |more| - 1;
      assert (reserves + more)[..|reserves + more| - 1] == reserves + more[..n];
      assert more[n] in more && forall r :: r in more[..n] ==> r in more;
      ProtectedIs(account, base, reserves, more[..n]);
    }
  }

  /** What the bills among these entries take. */
  function Bills(es: seq<Entry>): real {
    if es == [] then 0.0 else (if es[0].amount < 0.0 && es[0].bill then -es[0].amount else 0.0) + Bills(es[1..])
  }

  /** What the bills dated from start through d take, each counted once. */
  function BillsThrough(es: seq<Entry>, start: int, d: int): real {
    if es == [] then 0.0
    else
      (if start <= es[0].date <= d && es[0].amount < 0.0 && es[0].bill then -es[0].amount else 0.0)
      + BillsThrough(es[1..], start, d)
  }

  lemma {:induction false} BillsStep(es: seq<Entry>, start: int, d: int)
    requires start <= d
    ensures BillsThrough(es, start, d) == BillsThrough(es, start, d - 1) + Bills(OnDay(es, d))
  {
    if es != [] {
      BillsStep(es[1..], start, d);
      if es[0].date == d {
        assert OnDay(es, d)[1..] == OnDay(es[1..], d);
      } else {
        assert OnDay(es, d) == OnDay(es[1..], d);
      }
    }
  }

  /** A bill of the window adds its amount, an income, another outflow or an entry of another day adds nothing. */
  lemma BillsAre(e: Entry, es: seq<Entry>, start: int, d: int)
    ensures BillsThrough([], start, d) == 0.0
    ensures e.bill && e.amount < 0.0 && start <= e.date <= d ==>
      BillsThrough([e] + es, start, d) == BillsThrough(es, start, d) - e.amount
    ensures !e.bill || e.amount >= 0.0 || e.date < start || d < e.date ==>
      BillsThrough([e] + es, start, d) == BillsThrough(es, start, d)
  {
    assert ([e] + es)[1..] == es;
  }

  lemma {:induction false} BillsBefore(es: seq<Entry>, start: int)
    ensures BillsThrough(es, start, start - 1) == 0.0
  {
    if es != [] {
      BillsBefore(es[1..], start);
    }
  }

  method AddReserves(account: string, base: real, reserves: seq<Reserve>) returns (total: real)
    ensures total == ProtectedOn(account, base, reserves)
  {
    total := base;
    for i := 0 to |reserves|
      invariant total == ProtectedOn(account, base, reserves[..i])
    {
      assert reserves[..i + 1][..i] == reserves[..i];
      if reserves[i].accountId == account && reserves[i].protected {
        total := total + reserves[i].funded;
      }
    }
    assert reserves[..|reserves|] == reserves;
  }

  /** The bills of every day of the forecast. */
  method RequiredBefore(ps: seq<DayPoint>, ghost available: real, ghost es: seq<Entry>, start: int, days: nat)
    returns (total: real)
    requires Forecasts(ps, available, es, start, days)
    ensures total == BillsThrough(es, start, start + days)
  {
    total := 0.0;
    BillsBefore(es, start);
    hide OnDay, Bills, BillsThrough, Net;
    for i := 0 to |ps|
      invariant total == BillsThrough(es, start, start + i - 1)
    {
      BillsStep(es, start, start + i);
      total := total + Bills(ps[i].entries);
    }
  }

  /** The allowance: what the lowest balance leaves above the protected money. */
  method SpendingAllowance(account: string, available: real, es: seq<Entry>, start: int, days: nat,
                           asked: Option<real>, reserves: seq<Reserve>)
    returns (amount: real, lowDate: int, low: real, protected: real, requiredBefore: real)
    ensures protected == ProtectedOn(account, if asked.Some? then asked.value else 0.0, reserves)
    ensures IsLow(low, available, es, start, days)
    ensures start <= lowDate <= start + days && FirstTouches(low, lowDate, available, es, start)
    ensures amount == if low - protected >= 0.0 then low - protected else 0.0
    ensures requiredBefore == BillsThrough(es, start, start + days)
  {
    hide ClosesAtPrefixSums, DaysBalance, IsLow, FirstTouches, FirstLowest, BillsThrough, ProtectedOn;
    var ps := Forecast(available, es, start, days);
    protected := AddReserves(account, if asked.Some? then asked.value else 0.0, reserves);
    NotEmpty(ps, available, es, start, days);
    var lp := LowPoint(ps);
    low, lowDate := lp.closing, lp.date;
    requiredBefore := RequiredBefore(ps, available, es, start, days);
    amount := if lp.closing - protected >= 0.0 then lp.closing - protected else 0.0;
    ghost var k :| FirstLowest(ps, k) && lp == ps[k];
    LowOfForecast(ps, available, es, start, days, k);
  }

  lemma NotEmpty(ps: seq<DayPoint>, available: real, es: seq<Entry>, start: int, days: nat)
    requires Forecasts(ps, available, es, start, days)
    ensures ps != [] && forall k :: FirstLowest(ps, k) ==> 0 <= k < |ps|
  {
  }

  /** The lowest point of a forecast is the lowest prefix sum, on the first day it is reached. */
  lemma LowOfForecast(ps: seq<DayPoint>, available: real, es: seq<Entry>, start: int, days: nat, k: nat)
    requires Forecasts(ps, available, es, start, days) && FirstLowest(ps, k)
    ensures IsLow(ps[k].closing, available, es, start, days)
    ensures ps[k].date == start + k && k <= days
    ensures FirstTouches(ps[k].closing, start + k, available, es, start)
  {
    forall d | start <= d <= start + days
      ensures available + Net(es, start, d) == ps[d - start].closing
    {
    }
    assert available + Net(es, start, start + k) == ps[k].closing;
  }

  function Spent(extra: seq<Entry>): real {
    if extra == [] then 0.0 else -extra[0].amount + Spent(extra[1..])
  }

  lemma {:induction false} NetOfSpending(extra: seq<Entry>, start: int, d: int)
    requires forall i :: 0 <= i < |extra| ==> extra[i].amount <= 0.0
    ensures -Spent(extra) <= Net(extra, start, d) <= 0.0
  {
    if extra != [] {
      NetOfSpending(extra[1..], start, d);
    }
  }

  lemma ClosingKept(available: real, es: seq<Entry>, start: int, days: nat, low: real, protected: real,
                    extra: seq<Entry>, d: int)
    requires NeverBelow(low, available, es, start, days) && start <= d <= start + days
    requires forall i :: 0 <= i < |extra| ==> extra[i].amount <= 0.0
    requires Spent(extra) <= low - protected
    ensures available + Net(es + extra, start, d) >= protected
  {
    NetAppend(es, extra, start, d);
    NetOfSpending(extra, start, d);
  }

  /** Any extra outflows within the allowance, on any days, keep every closing at the protected level. */
  lemma {:induction false} AllowanceIsSafe(available: real, es: seq<Entry>, start: int, days: nat, low: real, protected: real,
                        extra: seq<Entry>, ps: seq<DayPoint>)
    requires IsLow(low, available, es, start, days) && low >= protected
    requires forall i :: 0 <= i < |extra| ==> extra[i].amount <= 0.0
    requires Spent(extra) <= low - protected
    requires Forecasts(ps, available, es + extra, start, days)
    ensures forall i :: 0 <= i < |ps| ==> ps[i].closing >= protected
  {
    hide DaysBalance, NeverBelow, Touches, Net, Spent, OnDay;
    forall i | 0 <= i < |ps|
      ensures ps[i].closing >= protected
    {
      ClosingKept(available, es, start, days, low, protected, extra, start + i);
    }
  }

  /** Spending on the first day is safe exactly up to the allowance. */
  lemma {:induction false} FirstDaySpendExactly(available: real, es: seq<Entry>, start: int, days: nat, low: real, protected: real,
                             spend: real, ps: seq<DayPoint>)
    requires IsLow(low, available, es, start, days) && low >= protected && spend >= 0.0
    requires Forecasts(ps, available, es + [Entry(start, -spend, false)], start, days)
    ensures (forall i :: 0 <= i < |ps| ==> ps[i].closing >= protected) <==> spend <= low - protected
  {
    var extra := [Entry(start, -spend, false)];
    assert extra[1..] == [];
    assert Spent(extra) == spend;
    if spend <= low - protected {
      AllowanceIsSafe(available, es, start, days, low, protected, extra, ps);
    } else {
      var d :| start <= d <= start + days && available + Net(es, start, d) == low;
      NetAppend(es, extra, start, d);
      assert Net(extra, start, d) == -spend + Net([], start, d);
      assert ps[d - start].closing < protected;
    }
  }
}
