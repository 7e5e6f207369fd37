/** When one deposit leaves nothing short, from the targets, the floor and the deposit alone. */
module AllocatorCash {
  import opened Prelude
  import opened Allocator
  import opened AllocatorLaws
  import opened AllocatorDeadlines
  import opened AllocatorPrecedence

  // ---- one pass -------------------------------------------------------

  ghost predicate NoneShort(rows: seq<Allocation>, from: nat) {
    forall k :: from <= k < |rows| ==> !Short(rows[k])
  }

  /** What an unskipped target of the last pass takes: its share, but no more than it lacks. */
  function Share(day: Day, t: Target): real {
    if Skipped(day, t) then 0.0 else MinReal(t.Remaining(), ShareForThisPaycheck(t, day.after))
  }

  function Shares(day: Day, us: seq<Target>): real {
    if us == [] then 0.0 else Share(day, us[0]) + Shares(day, us[1..])
  }

  lemma ShareNonNegative(day: Day, t: Target)
    ensures Share(day, t) >= 0.0
  {
    SharePositive(t, day.after);
  }

  /** What the other required targets take: all they lack on the last deposits, nothing before. */
  function LaterClaims(day: Day, us: seq<Target>): real {
    if day.after == 0 then Claims(day, us) else 0.0
  }

  /** A row of a pass that gives each target all it lacks is short exactly when the cash does not cover the claims. */
  lemma {:induction false} FullPassExactly(day: Day, p: Pass, us: seq<Target>, b: Book)
    requires b.cash >= 0.0 && AllRemaining(us) && GivesAll(day, p) && !p.Rest?
    ensures var c := RunPass(day, p, us, b);
      |b.rows| <= |c.rows| && c.rows[..|b.rows|] == b.rows && (NoneShort(c.rows, |b.rows|) <==> Claims(day, us) <= b.cash)
    decreases |us|
  {
    if us != [] {
      assert us[0] in us;
      var next := Step(day, p, us[0], b);
      FullStepExactly(day, p, us[0], b);
      hide Step, Claim, GivesAll, Short;
      FullPassExactly(day, p, us[1..], next);
      JoinShort(b.rows, next.rows, RunPass(day, p, us, b).rows);
    }
  }

  lemma JoinShort(b: seq<Allocation>, mid: seq<Allocation>, c: seq<Allocation>)
    requires |b| <= |mid| <= |c| && mid[..|b|] == b && c[..|mid|] == mid
    ensures c[..|b|] == b && (NoneShort(c, |b|) <==> NoneShort(mid, |b|) && NoneShort(c, |mid|))
  {
    assert forall k :: 0 <= k < |mid| ==> c[k] == mid[k];
  }

  lemma FullStepExactly(day: Day, p: Pass, t: Target, b: Book)
    requires b.cash >= 0.0 && t.Remaining() > 0.0 && GivesAll(day, p) && !p.Rest?
    ensures var c, n := Step(day, p, t, b), |b.rows|;
      && |c.rows| == n + 1 && c.rows[..n] == b.rows
      && (NoneShort(c.rows, n) <==> Claim(day, t) <= b.cash)
      && c.cash == Positive(b.cash - Claim(day, t))
  {
    hide Skipped;
    var c, n := Step(day, p, t, b), |b.rows|;
    assert |c.rows| == n + 1;
    assert NoneShort(c.rows, n) <==> !Short(c.rows[n]);
  }

  /** Deferring is never short. */
  lemma {:induction false} DeferredPass(day: Day, us: seq<Target>, b: Book)
    requires day.after > 0 && b.cash >= 0.0
    ensures var c := RunPass(day, Later, us, b);
      |b.rows| <= |c.rows| && c.rows[..|b.rows|] == b.rows && NoneShort(c.rows, |b.rows|) && c.cash == b.cash
    decreases |us|
  {
    if us != [] {
      var next := Step(day, Later, us[0], b);
      DeferredPass(day, us[1..], next);
      JoinShort(b.rows, next.rows, RunPass(day, Later, us, b).rows);
    }
  }

  /** The last pass: there is cash when each target's turn comes, and enough for its share. */
  predicate Enough(day: Day, us: seq<Target>, cash: real) {
    us != [] ==> cash > 0.0 && Share(day, us[0]) <= cash && Enough(day, us[1..], cash - Share(day, us[0]))
  }

  lemma RestStepExactly(day: Day, t: Target, b: Book)
    requires b.cash >= 0.0 && t.Remaining() > 0.0
    ensures var c, n := Step(day, Rest, t, b), |b.rows|;
      && |c.rows| >= n && c.rows[..n] == b.rows
      && (NoneShort(c.rows, n) <==> b.cash > 0.0 && Share(day, t) <= b.cash)
      && c.cash == Positive(b.cash - Share(day, t))
  {
    SharePositive(t, day.after);
    hide Skipped, ShareForThisPaycheck;
    var c, n := Step(day, Rest, t, b), |b.rows|;
    if c != b {
      assert |c.rows| == n + 1;
      assert NoneShort(c.rows, n) <==> !Short(c.rows[n]);
    }
  }

  lemma {:induction false} RestPassExactly(day: Day, us: seq<Target>, b: Book)
    requires b.cash >= 0.0 && AllRemaining(us)
    ensures var c := RunPass(day, Rest, us, b);
      |b.rows| <= |c.rows| && c.rows[..|b.rows|] == b.rows && (NoneShort(c.rows, |b.rows|) <==> Enough(day, us, b.cash))
    decreases |us|
  {
    if us != [] {
      assert us[0] in us;
      var next := Step(day, Rest, us[0], b);
      RestStepExactly(day, us[0], b);
      hide Step, Share, Short;
      RestPassExactly(day, us[1..], next);
      JoinShort(b.rows, next.rows, RunPass(day, Rest, us, b).rows);
    }
  }

  /** That is: the shares are covered, and those before the last leave something. */
  lemma {:induction false} EnoughExactly(day: Day, us: seq<Target>, cash: real)
    requires cash >= 0.0
    ensures Enough(day, us, cash)
      <==> Shares(day, us) <= cash && (us != [] ==> Shares(day, us[..|us| - 1]) < cash)
    decreases |us|
  {
    if us != [] {
      var rest := us[1..];
      ShareNonNegative(day, us[0]);
      SharesSum(day, rest);
      if rest != [] {
        assert us[..|us| - 1][1..] == rest[..|rest| - 1];
        SharesSum(day, rest[..|rest| - 1]);
      } else {
        assert us[..|us| - 1] == [];
      }
      hide Share;
      if Share(day, us[0]) <= cash {
        EnoughExactly(day, rest, cash - Share(day, us[0]));
      }
    }
  }

  lemma {:induction false} SharesSum(day: Day, us: seq<Target>)
    ensures Shares(day, us) >= 0.0
  {
    if us != [] {
      ShareNonNegative(day, us[0]);
      SharesSum(day, us[1..]);
    }
  }

  // ---- one deposit ----------------------------------------------------

  /** The targets that wait for the last pass, in the saved order. */
  function Waiting(day: Day, ts: seq<Target>): seq<Target> {
    SortBy(Filter(ts, WaitsTest(day)), RestLeq)
  }

  function WaitsTest(day: Day): Target -> bool {
    (t: Target) => t.Remaining() > 0.0 && !UrgentTest(day)(t) && !LaterTest(day)(t)
  }

  lemma {:induction false} SameFilter(xs: seq<Target>, f: Target -> bool, g: Target -> bool)
    requires forall x :: x in xs ==> (f(x) <==> g(x))
    ensures Filter(xs, f) == Filter(xs, g)
  {
    if xs != [] {
      assert xs[0] in xs && forall x :: x in xs[1..] ==> x in xs;
      SameFilter(xs[1..], f, g);
    }
  }

  lemma StepWritten(day: Day, p: Pass, t: Target, b: Book)
    requires b.cash >= 0.0 && t.Remaining() > 0.0 && !p.Rest?
    ensures var c, n := Step(day, p, t, b), |b.rows|;
      |c.rows| == n + 1 && c.rows[..n] == b.rows && c.rows[n].policyId == t.policyId && c.cash >= 0.0
  {
    hide Skipped;
  }

  lemma StillHasRow(b: seq<Allocation>, c: seq<Allocation>, id: string)
    requires |b| <= |c| && c[..|b|] == b && HasRow(b, id)
    ensures HasRow(c, id)
  {
    var r :| r in b && r.policyId == id;
    assert r in c[..|b|];
  }

  /** The urgent and the later pass write a row for each of their targets. */
  lemma {:induction false} EachWritten(day: Day, p: Pass, us: seq<Target>, b: Book)
    requires b.cash >= 0.0 && AllRemaining(us) && !p.Rest?
    ensures var c := RunPass(day, p, us, b);
      |b.rows| <= |c.rows| && c.rows[..|b.rows|] == b.rows && forall t :: t in us ==> HasRow(c.rows, t.policyId)
    decreases |us|
  {
    if us != [] {
      assert us[0] in us;
      var next, c := Step(day, p, us[0], b), RunPass(day, p, us, b);
      StepWritten(day, p, us[0], b);
      hide Step;
      EachWritten(day, p, us[1..], next);
      JoinShort(b.rows, next.rows, c.rows);
      assert next.rows[|b.rows|] in next.rows;
      hide HasRow;
      assert HasRow(next.rows, us[0].policyId) by { OwnRow(next.rows, |b.rows|); }
      StillHasRow(next.rows, c.rows, us[0].policyId);
      forall t | t in us
        ensures HasRow(c.rows, t.policyId)
      {
        assert t == us[0] || t in us[1..];
      }
    }
  }

  lemma OwnRow(rows: seq<Allocation>, k: nat)
    requires k < |rows|
    ensures HasRow(rows, rows[k].policyId)
  {
    assert rows[k] in rows;
  }

  /** The last pass takes exactly the targets that are neither urgent nor in the later pass. */
  lemma RestIsWaiting(day: Day, floor: real, ts: seq<Target>, available: real)
    requires GoodTargets(ts) && available >= 0.0
    ensures RestList(ts, AfterLater(day, floor, ts, available).rows) == Waiting(day, ts)
  {
    var rows := AfterLater(day, floor, ts, available).rows;
    forall t | t in ts && t.Remaining() > 0.0
      ensures RestTest(rows)(t) <==> WaitsTest(day)(t)
    {
      var x :| 0 <= x < |ts| && ts[x] == t;
      if UrgentTest(day)(t) || LaterTest(day)(t) {
        HasRowBefore(day, floor, ts, available, t);
      } else {
        WaitsForRest(day, floor, ts, available, x);
      }
    }
    hide AfterLater, HasRow, IsUrgent;
    SameFilter(ts, RestTest(rows), WaitsTest(day));
  }

  lemma HasRowBefore(day: Day, floor: real, ts: seq<Target>, available: real, t: Target)
    requires GoodTargets(ts) && available >= 0.0 && t in ts && (UrgentTest(day)(t) || LaterTest(day)(t))
    ensures HasRow(AfterLater(day, floor, ts, available).rows, t.policyId)
  {
    UrgentPass(day, ts, available);
    FloorPass(day, floor, ts, available);
    LaterPass(day, floor, ts, available);
    hide RunPass, UrgentList, LaterList, Hold, Sound, OneEach, Writes, HasRow, Continues;
    var u, f, l := AfterUrgent(day, ts, available), AfterFloor(day, floor, ts, available), AfterLater(day, floor, ts, available);
    EachWritten(day, Urgent, UrgentList(day, ts), Book(available, []));
    CashNonNegative(f, available);
    EachWritten(day, Later, LaterList(day, ts), f);
    if UrgentTest(day)(t) {
      StillHasRow(u.rows, f.rows, t.policyId);
      StillHasRow(f.rows, l.rows, t.policyId);
    }
  }

  lemma UrgentShortExactly(day: Day, ts: seq<Target>, available: real)
    requires GoodTargets(ts) && available >= 0.0
    ensures var u, claims := AfterUrgent(day, ts, available), Claims(day, UrgentList(day, ts));
      && u.cash == Positive(available - claims) && (NoneShort(u.rows, 0) <==> claims <= available)
  {
    hide UrgentList, RunPass, Claims, Short;
    UrgentPass(day, ts, available);
    FullPassExactly(day, Urgent, UrgentList(day, ts), Book(available, []));
    CashAfter(day, Urgent, UrgentList(day, ts), Book(available, []));
  }

  lemma FloorShortExactly(floor: real, u: Book)
    requires u.cash >= 0.0
    ensures var f := Hold(floor, u);
      && |u.rows| <= |f.rows| && f.rows[..|u.rows|] == u.rows
      && f.cash == Positive(u.cash - Positive(floor)) && (NoneShort(f.rows, |u.rows|) <==> Positive(floor) <= u.cash)
  {
    if floor > 0.0 {
      var f := Hold(floor, u);
      assert NoneShort(f.rows, |u.rows|) <==> !Short(f.rows[|u.rows|]);
    }
  }

  lemma LaterShortExactly(day: Day, ts: seq<Target>, f: Book)
    requires f.cash >= 0.0 && AllRemaining(LaterList(day, ts))
    ensures var l, claims := RunPass(day, Later, LaterList(day, ts), f), LaterClaims(day, LaterList(day, ts));
      && |f.rows| <= |l.rows| && l.rows[..|f.rows|] == f.rows
      && l.cash == Positive(f.cash - claims) && (NoneShort(l.rows, |f.rows|) <==> claims <= f.cash)
  {
    hide LaterList, RunPass, Claims, Short;
    if day.after == 0 {
      FullPassExactly(day, Later, LaterList(day, ts), f);
      CashAfter(day, Later, LaterList(day, ts), f);
    } else {
      DeferredPass(day, LaterList(day, ts), f);
    }
  }

  /** Urgent claims, floor, later claims and shares are covered, and something is left for the last turn. */
  predicate Covers(day: Day, floor: real, ts: seq<Target>, available: real) {
    var rest := Waiting(day, ts);
    var left := available - FloorClaims(day, floor, ts) - LaterClaims(day, LaterList(day, ts));
    Shares(day, rest) <= left && (rest != [] ==> Shares(day, rest[..|rest| - 1]) < left)
  }

  /**
   * No row of a deposit is short exactly when it covers the urgent claims, the floor, the other required
   * claims when no deposit follows, and the shares of the rest, with something left when the last one's
   * turn comes: a target whose turn comes without cash is marked short even if its share is nothing.
   */
  lemma CashCoversExactly(day: Day, floor: real, ts: seq<Target>, available: real)
    requires GoodTargets(ts) && available >= 0.0
    ensures NoneShort(Paycheck(day, floor, ts, available).rows, 0) <==> Covers(day, floor, ts, available)
  {
    hide UrgentList, LaterList, RunPass, Hold, Claims, Shares, Short, Sound, OneEach, Continues, NoneShort, Waiting, RestList, LaterClaims;
    var u, f := AfterUrgent(day, ts, available), AfterFloor(day, floor, ts, available);
    var l, b := AfterLater(day, floor, ts, available), Paycheck(day, floor, ts, available);
    var rest := Waiting(day, ts);
    LaterPass(day, floor, ts, available);
    RestPass(day, floor, ts, available);
    UrgentShortExactly(day, ts, available);
    FloorShortExactly(floor, u);
    LaterShortExactly(day, ts, f);
    RestIsWaiting(day, floor, ts, available);
    RestPassExactly(day, rest, l);
    EnoughExactly(day, rest, l.cash);
    SharesSum(day, rest);
    LaterNonNegative(day, LaterList(day, ts));
    FourParts(u.rows, f.rows, l.rows, b.rows);
  }

  lemma LaterNonNegative(day: Day, us: seq<Target>)
    ensures LaterClaims(day, us) >= 0.0
  {
  }

  lemma FourParts(u: seq<Allocation>, f: seq<Allocation>, l: seq<Allocation>, b: seq<Allocation>)
    requires |u| <= |f| <= |l| <= |b| && f[..|u|] == u && l[..|f|] == f && b[..|l|] == l
    ensures NoneShort(b, 0) <==> NoneShort(u, 0) && NoneShort(f, |u|) && NoneShort(l, |f|) && NoneShort(b, |l|)
  {
    hide NoneShort;
    JoinShort([], u, f);
    JoinShort([], f, l);
    JoinShort([], l, b);
  }
}
