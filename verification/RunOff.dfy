/** One loan paid down at a fixed installment, and the mortgage choices built on it. */
module RunOff {
  import opened Prelude
  import opened Money

  const CAP_MONTHS := 720

  /** Balance, months used and interest paid so far. */
  datatype Path = Path(bal: real, months: nat, interest: int)

  function InterestOn(bal: real, apr: real): int {
    RoundHalfUp(bal * (apr / 12.0))
  }

  function OneMonth(p: Path, apr: real, pay: real): Path {
    var i := InterestOn(p.bal, apr);
    Path(p.bal + i as real - MinReal(pay, p.bal + i as real), p.months + 1, p.interest + i)
  }

  function Down(p: Path, apr: real, pay: real, cap: int): Path
    decreases cap - p.months
  {
    if p.bal > 0.0 && p.months < cap then Down(OneMonth(p, apr, pay), apr, pay, cap) else p
  }

  /** _run_off: months until clear (or the cap) and the interest paid, in minor units. */
  method Months(principal: real, apr: real, payment: real, extra: real, cap: int)
    returns (m: nat, interest: int)
    ensures var end := Down(Path(principal, 0, 0), apr, payment + extra, cap);
      m == end.months && interest == end.interest
  {
    var bal := principal;
    m, interest := 0, 0;
    while bal > 0.0 && m < cap
      invariant Down(Path(bal, m, interest), apr, payment + extra, cap)
             == Down(Path(principal, 0, 0), apr, payment + extra, cap)
      decreases cap - m
    {
      m := m + 1;
      var i := RoundHalfUp(bal * (apr / 12.0));
      interest := interest + i;
      bal := bal + i as real;
      var pay := MinReal(payment + extra, bal);
      bal := bal - pay;
    }
  }

  lemma Counts(q: Path, apr: real, pay: real)
    ensures OneMonth(q, apr, pay).months == q.months + 1
  {
  }

  /** A month adds the nearest cent of a twelfth of a year's interest, then takes the payment or what is owed. */
  lemma MonthIs(p: Path, apr: real, pay: real)
    requires p.bal >= 0.0 && apr >= 0.0
    ensures var q := OneMonth(p, apr, pay); var added := q.interest - p.interest;
      && added as real - 0.5 <= p.bal * (apr / 12.0) < added as real + 0.5
      && q.months == p.months + 1
      && q.bal == if pay <= p.bal + added as real then p.bal + added as real - pay else 0.0
  {
    Scaled(0.0, p.bal, apr / 12.0);
    HalfUpIs(p.bal * (apr / 12.0));
    hide RoundHalfUp;
  }

  /** A run-off stops when nothing is owed or at the cap, and goes no further. */
  lemma {:induction false} DownStops(p: Path, apr: real, pay: real, cap: int)
    ensures var end := Down(p, apr, pay, cap);
      && (end.bal <= 0.0 || end.months >= cap) && p.months <= end.months && (end.months <= cap || end == p)
    decreases cap - p.months
  {
    if p.bal > 0.0 && p.months < cap {
      Counts(p, apr, pay);
      hide OneMonth;
      DownStops(OneMonth(p, apr, pay), apr, pay, cap);
    }
  }

  lemma InterestMonotone(x: real, y: real, apr: real)
    requires 0.0 <= x <= y && apr >= 0.0
    ensures 0 <= InterestOn(x, apr) <= InterestOn(y, apr)
  {
    Scaled(0.0, x, apr / 12.0);
    Scaled(x, y, apr / 12.0);
    RoundMonotone(x * (apr / 12.0), y * (apr / 12.0));
  }

  /** A path that is nowhere worse: no more owed, no more months, no more interest. */
  predicate NoWorse(p: Path, q: Path) {
    0.0 <= p.bal <= q.bal && p.months <= q.months && p.interest <= q.interest
  }

  lemma MonthNoWorse(p: Path, q: Path, apr: real, more: real, pay: real)
    requires NoWorse(p, q) && apr >= 0.0 && more >= pay
    ensures NoWorse(OneMonth(p, apr, more), OneMonth(q, apr, pay))
  {
    hide InterestOn;
    InterestMonotone(p.bal, q.bal, apr);
    InterestMonotone(0.0, p.bal, apr);
  }

  lemma MonthNonNegative(q: Path, apr: real, pay: real)
    requires q.bal >= 0.0 && apr >= 0.0
    ensures OneMonth(q, apr, pay).bal >= 0.0 && OneMonth(q, apr, pay).interest >= q.interest
  {
    hide InterestOn;
    InterestMonotone(q.bal, q.bal, apr);
  }

  /** A path that is already clear only falls further behind the months and interest of any other. */
  lemma {:induction false} ClearStaysAhead(p: Path, q: Path, apr: real, pay: real, cap: int)
    requires NoWorse(p, q) && p.bal == 0.0 && apr >= 0.0
    ensures p.months <= Down(q, apr, pay, cap).months && p.interest <= Down(q, apr, pay, cap).interest
    decreases cap - q.months
  {
    hide OneMonth;
    if q.bal > 0.0 && q.months < cap {
      MonthNonNegative(q, apr, pay);
      var next := OneMonth(q, apr, pay);
      assert next.months == q.months + 1 by { Counts(q, apr, pay); }
      ClearStaysAhead(p, next, apr, pay, cap);
    }
  }

  lemma {:induction false} DownNoWorse(p: Path, q: Path, apr: real, more: real, pay: real, cap: int)
    requires NoWorse(p, q) && p.months == q.months && apr >= 0.0 && more >= pay
    ensures Down(p, apr, more, cap).months <= Down(q, apr, pay, cap).months
    ensures Down(p, apr, more, cap).interest <= Down(q, apr, pay, cap).interest
    decreases cap - p.months
  {
    hide OneMonth;
    if p.bal > 0.0 && p.months < cap {
      MonthNoWorse(p, q, apr, more, pay);
      Counts(p, apr, more);
      Counts(q, apr, pay);
      DownNoWorse(OneMonth(p, apr, more), OneMonth(q, apr, pay), apr, more, pay, cap);
    } else if p.bal == 0.0 {
      ClearStaysAhead(p, q, apr, pay, cap);
    }
  }

  /**
   * Dominance under cent rounding: a smaller principal and a larger payment never take more months
   * and never cost more interest.
   */
  lemma SmallerOrFasterNeverWorse(principal: real, reduced: real, apr: real, pay: real, more: real, cap: int)
    requires 0.0 <= reduced <= principal && apr >= 0.0 && more >= pay
    ensures var base, other := Down(Path(principal, 0, 0), apr, pay, cap), Down(Path(reduced, 0, 0), apr, more, cap);
      other.months <= base.months && other.interest <= base.interest
  {
    DownNoWorse(Path(reduced, 0, 0), Path(principal, 0, 0), apr, more, pay, cap);
  }

  datatype Scenario = Scenario(payment: real, months: nat, interest: int, upfront: real, cashLeft: real)

  function ClampZero(x: real): real {
    if x >= 0.0 then x else 0.0
  }

  /** The scenarios of mortgage_scenarios that keep the installment: baseline, extra, lump sum. */
  method MortgageScenarios(principal: real, apr: real, payment: real, lump: real, extra: real, cash: real)
    returns (out: seq<Scenario>)
    ensures 1 <= |out| <= 3
    ensures |out| == 1 + (if extra > 0.0 then 1 else 0) + (if lump > 0.0 then 1 else 0)
    ensures principal >= 0.0 && apr >= 0.0 ==>
      forall k :: 1 <= k < |out| ==> out[k].months <= out[0].months && out[k].interest <= out[0].interest
    ensures out[0].payment == payment && out[0].upfront == 0.0 && out[0].cashLeft == cash
    ensures var base := Down(Path(principal, 0, 0), apr, payment + 0.0, 720);
      out[0].months == base.months && out[0].interest == base.interest
    ensures extra > 0.0 ==>
      var faster := Down(Path(principal, 0, 0), apr, payment + extra, 720);
      out[1] == Scenario(payment + extra, faster.months, faster.interest, 0.0, cash)
    ensures lump > 0.0 ==>
      var smaller := Down(Path(ClampZero(principal - lump), 0, 0), apr, payment + 0.0, 720);
      out[|out| - 1] == Scenario(payment, smaller.months, smaller.interest, lump, ClampZero(cash - lump))
  {
    var m, i := Months(principal, apr, payment, 0.0, CAP_MONTHS);
    out := [Scenario(payment, m, i, 0.0, cash)];
    if extra > 0.0 {
      var m2, i2 := Months(principal, apr, payment, extra, CAP_MONTHS);
      if principal >= 0.0 && apr >= 0.0 {
        SmallerOrFasterNeverWorse(principal, principal, apr, payment + 0.0, payment + extra, CAP_MONTHS);
      }
      out := out + [Scenario(payment + extra, m2, i2, 0.0, cash)];
    }
    if lump > 0.0 {
      var reduced := ClampZero(principal - lump);
      var m3, i3 := Months(reduced, apr, payment, 0.0, CAP_MONTHS);
      if principal >= 0.0 && apr >= 0.0 {
        SmallerOrFasterNeverWorse(principal, reduced, apr, payment + 0.0, payment + 0.0, CAP_MONTHS);
      }
      out := out + [Scenario(payment, m3, i3, lump, ClampZero(cash - lump))];
    }
  }
}
