/** The protected floor: when it cannot be held in full, and what the shortfall register says of it. */
module AllocatorFloor {
  import opened Prelude
  import opened Allocator
  import opened AllocatorLaws
  import opened AllocatorDeadlines

  /** The paycheck holds less of the floor than it asked for. */
  ghost predicate FloorLacks(rows: seq<Allocation>) {
    exists k :: 0 <= k < |rows| && rows[k].policyId == "floor" && rows[k].amount < rows[k].requested
  }

  ghost predicate FloorListed(rows: seq<Allocation>) {
    exists s :: s in ShortfallsOf(rows) && s.policyId == "floor"
  }

  /** The row that holds this much of the floor; it is always marked funded. */
  function HoldRow(floor: real, held: real): Allocation {
    Allocation("floor", Buffer, held, Funded, ProtectedFloor, None, floor)
  }

  /** What the claims due before the next income leave for the floor. */
  function Held(day: Day, floor: real, ts: seq<Target>, available: real): real {
    MinReal(floor, Positive(available - Claims(day, UrgentList(day, ts))))
  }

  lemma TargetIsNoFloor(r: Allocation, ts: seq<Target>)
    requires GoodTargets(ts) && Writes(r, ts)
    ensures r.policyId != "floor"
  {
    var t :| t in ts && RowFor(r, t);
  }

  lemma LaterRows(b: Book, c: Book, us: seq<Target>, ts: seq<Target>, k: nat)
    requires GoodTargets(ts) && Continues(b, c, us) && (forall t :: t in us ==> t in ts) && k < |c.rows|
    ensures |b.rows| <= |c.rows|
    ensures if k < |b.rows| then c.rows[k] == b.rows[k] else c.rows[k].policyId != "floor"
  {
    if k < |b.rows| {
      assert c.rows[..|b.rows|][k] == c.rows[k];
    } else {
      WritesMore(c.rows[k], us, ts);
      TargetIsNoFloor(c.rows[k], ts);
    }
  }

  /** The floor's own row comes right after the urgent rows, and holds what their claims leave. */
  lemma FloorRowIs(day: Day, floor: real, ts: seq<Target>, available: real, k: nat)
    requires GoodTargets(ts) && available >= 0.0
    requires k < |Paycheck(day, floor, ts, available).rows|
    ensures var u, r := |AfterUrgent(day, ts, available).rows|, Paycheck(day, floor, ts, available).rows[k];
      && (r.policyId == "floor" <==> floor > 0.0 && k == u)
      && (r.policyId == "floor" ==> r == HoldRow(floor, Held(day, floor, ts, available)))
  {
    hide UrgentList, LaterList, RestList, RunPass, Claims, Continues, Writes, Sound;
    var us, f := UrgentList(day, ts), AfterFloor(day, floor, ts, available);
    var l, b := AfterLater(day, floor, ts, available), Paycheck(day, floor, ts, available);
    UrgentPass(day, ts, available);
    CashAfter(day, Urgent, us, Book(available, []));
    LaterPass(day, floor, ts, available);
    RestPass(day, floor, ts, available);
    LaterRows(l, b, RestList(ts, l.rows), ts, k);
    if k < |l.rows| {
      LaterRows(f, l, LaterList(day, ts), ts, k);
    }
    if k < |AfterUrgent(day, ts, available).rows| {
      WritesMore(f.rows[k], us, ts);
      TargetIsNoFloor(f.rows[k], ts);
    }
  }

  lemma FloorRowExists(day: Day, floor: real, ts: seq<Target>, available: real)
    requires GoodTargets(ts) && available >= 0.0
    ensures floor > 0.0 ==> |AfterUrgent(day, ts, available).rows| < |Paycheck(day, floor, ts, available).rows|
  {
    hide UrgentList, LaterList, RestList, RunPass;
    LaterPass(day, floor, ts, available);
    RestPass(day, floor, ts, available);
  }

  /**
   * The floor is not held in full exactly when it is positive and the deposit, less the unskipped
   * claims due before the next income, does not reach it.
   */
  lemma FloorLacksExactly(day: Day, floor: real, ts: seq<Target>, available: real)
    requires GoodTargets(ts) && available >= 0.0
    ensures FloorLacks(Paycheck(day, floor, ts, available).rows)
      <==> floor > 0.0 && available - Claims(day, UrgentList(day, ts)) < floor
  {
    hide Paycheck, AfterUrgent, UrgentList, Claims;
    var rows, u := Paycheck(day, floor, ts, available).rows, |AfterUrgent(day, ts, available).rows|;
    FloorRowExists(day, floor, ts, available);
    if floor > 0.0 {
      FloorRowIs(day, floor, ts, available, u);
    }
    if k :| 0 <= k < |rows| && rows[k].policyId == "floor" && rows[k].amount < rows[k].requested {
      FloorRowIs(day, floor, ts, available, k);
    }
  }

  lemma {:induction false} ListedFrom(rows: seq<Allocation>, s: Shortfall) returns (k: nat)
    requires s in ShortfallsOf(rows)
    ensures k < |rows| && IsShortfall(rows[k]) && rows[k].policyId == s.policyId
  {
    if IsShortfall(rows[0]) && s.policyId == rows[0].policyId {
      k := 0;
    } else {
      k := ListedFrom(rows[1..], s);
      k := k + 1;
    }
  }

  /** Whatever the deposit, the register never names the floor: its row is marked funded. */
  lemma FloorNeverListed(day: Day, floor: real, ts: seq<Target>, available: real)
    requires GoodTargets(ts) && available >= 0.0
    ensures !FloorListed(Paycheck(day, floor, ts, available).rows)
  {
    hide Paycheck, AfterUrgent, UrgentList, Claims, ShortfallsOf;
    var rows := Paycheck(day, floor, ts, available).rows;
    if s :| s in ShortfallsOf(rows) && s.policyId == "floor" {
      var k := ListedFrom(rows, s);
      FloorRowIs(day, floor, ts, available, k);
    }
  }

  /** The register covers the floor, naming it whenever it lacks something, exactly when it lacks nothing. */
  lemma FloorGapRegisteredExactly(day: Day, floor: real, ts: seq<Target>, available: real)
    requires GoodTargets(ts) && available >= 0.0
    ensures var rows := Paycheck(day, floor, ts, available).rows;
      (FloorLacks(rows) ==> FloorListed(rows))
        <==> floor <= 0.0 || available - Claims(day, UrgentList(day, ts)) >= floor
  {
    hide Paycheck, AfterUrgent, UrgentList, Claims, FloorLacks, FloorListed;
    FloorLacksExactly(day, floor, ts, available);
    FloorNeverListed(day, floor, ts, available);
  }

  /** A floor of 500 and a deposit of 100: 400 are missing and the register is empty. */
  lemma MissingFloorUnlisted(day: Day)
    ensures Paycheck(day, 500.0, [], 100.0).rows
      == [HoldRow(500.0, 100.0)]
    ensures ShortfallsOf(Paycheck(day, 500.0, [], 100.0).rows) == []
  {
    assert UrgentList(day, []) == [] && LaterList(day, []) == [];
    var b := AfterFloor(day, 500.0, [], 100.0);
    assert RestList([], b.rows) == [];
  }
}
