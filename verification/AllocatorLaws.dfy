/** What the allocation engine promises about one deposit and about a whole month. */
module AllocatorLaws {
  import opened Prelude
  import opened Money
  import opened Allocator

  /** Policy ids are unique and none collides with the id the engine gives the floor. */
  ghost predicate GoodTargets(ts: seq<Target>) {
    && (forall i, j :: 0 <= i < j < |ts| ==> ts[i].policyId != ts[j].policyId)
    && (forall i :: 0 <= i < |ts| ==> ts[i].policyId != "floor")
  }

  // ---- filters and orders ---------------------------------------------

  lemma {:induction false} FilterIs<T>(xs: seq<T>, keep: T -> bool)
    ensures forall x :: x in Filter(xs, keep) <==> x in xs && keep(x)
    ensures |Filter(xs, keep)| <= |xs|
    ensures Distinct(xs) ==> Distinct(Filter(xs, keep))
  {
    if xs != [] {
      FilterIs(xs[1..], keep);
      assert xs == [xs[0]] + xs[1..];
      if Distinct(xs) {
        assert Distinct(xs[1..]);
        assert xs[0] !in Filter(xs[1..], keep);
      }
    }
  }

  lemma {:induction false} NameTotal(x: string, y: string)
    ensures NameLeq(x, y) || NameLeq(y, x)
  {
    if x != [] && y != [] && x[0] == y[0] {
      NameTotal(x[1..], y[1..]);
    }
  }

  lemma {:induction false} NameTransitive(x: string, y: string, z: string)
    requires NameLeq(x, y) && NameLeq(y, z)
    ensures NameLeq(x, z)
  {
    if x != [] && y != [] && z != [] && x[0] == y[0] == z[0] {
      NameTransitive(x[1..], y[1..], z[1..]);
    }
  }

  lemma Orders()
    ensures TotalOrder(DueLeq) && TotalOrder(RestLeq)
  {
    forall x: Target, y: Target
      ensures RestLeq(x, y) || RestLeq(y, x)
    {
      NameTotal(x.name, y.name);
    }
    forall x: Target, y: Target, z: Target | RestLeq(x, y) && RestLeq(y, z)
      ensures RestLeq(x, z)
    {
      if NameLeq(x.name, y.name) && NameLeq(y.name, z.name) {
        NameTransitive(x.name, y.name, z.name);
      }
    }
  }

  /** A list of targets drawn from the plan: no repeats, and an id names one target. */
  ghost predicate Drawn(us: seq<Target>, ts: seq<Target>) {
    && Distinct(us)
    && (forall t :: t in us ==> t in ts)
  }

  lemma SameId(ts: seq<Target>, x: Target, y: Target)
    requires GoodTargets(ts) && x in ts && y in ts && x.policyId == y.policyId
    ensures x == y
  {
  }

  lemma OtherId(ts: seq<Target>, x: Target, y: Target)
    requires GoodTargets(ts) && x in ts && y in ts && x != y
    ensures x.policyId != y.policyId
  {
    if x.policyId == y.policyId {
      SameId(ts, x, y);
    }
  }

  lemma SortedFilter(ts: seq<Target>, keep: Target -> bool, leq: (Target, Target) -> bool)
    requires GoodTargets(ts) && TotalOrder(leq)
    ensures var us := SortBy(Filter(ts, keep), leq);
      && Drawn(us, ts) && IsSorted(us, leq)
      && (forall t :: t in us <==> t in ts && keep(t))
  {
    assert Distinct(ts);
    FilterIs(ts, keep);
    SortByCorrect(Filter(ts, keep), leq);
    PermutationDistinct(Filter(ts, keep), SortBy(Filter(ts, keep), leq));
  }

  // ---- one row at a time ----------------------------------------------

  function SumAmounts(rows: seq<Allocation>): real {
    if rows == [] then 0.0 else rows[0].amount + SumAmounts(rows[1..])
  }

  lemma {:induction false} SumAmountsAppend(rows: seq<Allocation>, r: Allocation)
    ensures SumAmounts(rows + [r]) == SumAmounts(rows) + r.amount
  {
    if rows == [] {
      assert rows + [r] == [r];
    } else {
      assert (rows + [r])[1..] == rows[1..] + [r];
      SumAmountsAppend(rows[1..], r);
    }
  }

  /** A row that did not get what it asked for because the cash ran out. */
  predicate Short(r: Allocation) {
    || r.status.Partial?
    || r.status.UnfundedShortfall?
    || (r.urgency.ProtectedFloor? && r.amount < r.requested)
  }

  predicate RowOk(r: Allocation) {
    && 0.0 <= r.amount <= r.requested
    && (Short(r) ==> r.amount < r.requested)
    && (!Short(r) ==> r.amount == r.requested || r.status.Deferred? || r.status.Paused?)
    && (r.status.Deferred? || r.status.Paused? ==> r.amount == 0.0 && !r.urgency.ProtectedFloor?)
  }

  /** Nothing is lost or negative, and once a row is short every later row is zero. */
  ghost predicate Sound(b: Book, available: real) {
    && b.cash >= 0.0
    && SumAmounts(b.rows) + b.cash == available
    && (forall i :: 0 <= i < |b.rows| ==> RowOk(b.rows[i]))
    && (forall i :: 0 <= i < |b.rows| && Short(b.rows[i]) ==> b.cash == 0.0)
    && (forall i, j :: 0 <= i < j < |b.rows| && Short(b.rows[i]) ==> b.rows[j].amount == 0.0)
  }

  lemma AppendSound(b: Book, r: Allocation, available: real)
    requires Sound(b, available) && RowOk(r) && r.amount <= b.cash
    requires Short(r) ==> r.amount == b.cash
    ensures Sound(Book(b.cash - r.amount, b.rows + [r]), available)
  {
    SumAmountsAppend(b.rows, r);
  }

  predicate RowFor(r: Allocation, t: Target) {
    && r.policyId == t.policyId && r.purpose == t.purpose && r.due == t.due
    && r.requested <= t.Remaining()
  }

  lemma SharePositive(t: Target, after: nat)
    ensures ShareForThisPaycheck(t, after) >= 0.0
  {
    if after > 0 {
      NonNegativeQuotient(t.Remaining(), (after + 1) as real);
    }
  }

  /** A step writes at most one row, for its own target, and keeps the book sound. */
  lemma StepSound(day: Day, p: Pass, t: Target, b: Book, available: real)
    requires Sound(b, available) && t.Remaining() > 0.0
    ensures var c := Step(day, p, t, b);
      && Sound(c, available)
      && (c == b || (|c.rows| == |b.rows| + 1 && b.rows == c.rows[..|b.rows|] && RowFor(c.rows[|b.rows|], t)))
    ensures p.Urgent? ==> |Step(day, p, t, b).rows| == |b.rows| + 1
  {
    var c := Step(day, p, t, b);
    StepWrites(day, p, t, b);
    hide Step, RowOk, Short, RowFor, Sound;
    if c != b {
      assert b.cash >= 0.0;
      AppendSound(b, c.rows[|b.rows|], available);
    }
  }

  /** The row a step writes, and the cash it leaves. */
  lemma StepWrites(day: Day, p: Pass, t: Target, b: Book)
    requires b.cash >= 0.0 && t.Remaining() > 0.0
    ensures var c := Step(day, p, t, b);
      c == b ||
      (|c.rows| == |b.rows| + 1 && var r := c.rows[|b.rows|];
       c == Book(b.cash - r.amount, b.rows + [r]) && RowFor(r, t) && RowOk(r) && r.amount <= b.cash
       && (Short(r) ==> r.amount == b.cash))
    ensures p.Urgent? ==> |Step(day, p, t, b).rows| == |b.rows| + 1
  {
    SharePositive(t, day.after);
    hide Skipped, ShareForThisPaycheck;
  }

  // ---- one pass -------------------------------------------------------

  ghost predicate AllRemaining(us: seq<Target>) {
    forall t :: t in us ==> t.Remaining() > 0.0
  }

  ghost predicate Writes(r: Allocation, us: seq<Target>) {
    exists t :: t in us && RowFor(r, t)
  }

  /** c continues b with rows that each belong to some target of us. */
  ghost predicate Continues(b: Book, c: Book, us: seq<Target>) {
    && |b.rows| <= |c.rows| && b.rows == c.rows[..|b.rows|]
    && (forall k :: |b.rows| <= k < |c.rows| ==> Writes(c.rows[k], us))
  }

  lemma {:induction false} PassSound(day: Day, p: Pass, us: seq<Target>, b: Book, available: real)
    requires Sound(b, available) && AllRemaining(us)
    ensures var c := RunPass(day, p, us, b); Sound(c, available) && Continues(b, c, us)
    decreases |us|
  {
    if us != [] {
      var mid := Step(day, p, us[0], b);
      var c := RunPass(day, p, us, b);
      StepSound(day, p, us[0], b, available);
      PassSound(day, p, us[1..], mid, available);
      forall k | |b.rows| <= k < |c.rows|
        ensures Writes(c.rows[k], us)
      {
        if k < |mid.rows| {
          assert c.rows[k] == mid.rows[k] && us[0] in us;
        } else {
          assert Writes(c.rows[k], us[1..]);
          WritesMore(c.rows[k], us[1..], us);
        }
      }
    }
  }

  lemma {:induction false} PassSplit(day: Day, p: Pass, us: seq<Target>, n: nat, b: Book)
    requires n <= |us|
    ensures RunPass(day, p, us, b) == RunPass(day, p, us[n..], RunPass(day, p, us[..n], b))
    decreases n
  {
    if n == 0 {
      assert us[0..] == us && us[..0] == [];
    } else {
      PassSplit(day, p, us[1..], n - 1, Step(day, p, us[0], b));
      assert us[1..][n - 1..] == us[n..] && us[..n][1..] == us[1..][..n - 1];
    }
  }

  ghost predicate OneEach(rows: seq<Allocation>) {
    forall i, j :: 0 <= i < j < |rows| ==> rows[i].policyId != rows[j].policyId
  }

  ghost predicate Untouched(rows: seq<Allocation>, us: seq<Target>) {
    forall i, t :: 0 <= i < |rows| && t in us ==> rows[i].policyId != t.policyId
  }

  lemma {:induction false} PassOneEach(day: Day, p: Pass, us: seq<Target>, b: Book, available: real, ts: seq<Target>)
    requires Sound(b, available) && AllRemaining(us)
    requires GoodTargets(ts) && Drawn(us, ts)
    requires OneEach(b.rows) && Untouched(b.rows, us)
    ensures OneEach(RunPass(day, p, us, b).rows)
    decreases |us|
  {
    if us != [] {
      var mid := Step(day, p, us[0], b);
      StepSound(day, p, us[0], b, available);
      hide Step, Sound;
      assert us[0] in us;
      assert Drawn(us[1..], ts);
      forall t | t in us[1..]
        ensures us[0].policyId != t.policyId
      {
        OtherId(ts, us[0], t);
      }
      PassOneEach(day, p, us[1..], mid, available, ts);
    }
  }

  // ---- one paycheck ---------------------------------------------------

  predicate FloorRow(r: Allocation, floor: real) {
    r.policyId == "floor" && r.urgency.ProtectedFloor? && r.requested == floor > 0.0
  }

  /** A row is the floor's hold or belongs to a target of the plan. */
  ghost predicate FromPlan(r: Allocation, ts: seq<Target>, floor: real) {
    FloorRow(r, floor) || Writes(r, ts)
  }

  lemma WritesMore(r: Allocation, us: seq<Target>, ts: seq<Target>)
    requires Writes(r, us) && forall t :: t in us ==> t in ts
    ensures Writes(r, ts)
  {
    var t :| t in us && RowFor(r, t);
    assert t in ts;
  }

  lemma UrgentPass(day: Day, ts: seq<Target>, available: real)
    requires GoodTargets(ts) && available >= 0.0
    ensures var us, b := UrgentList(day, ts), AfterUrgent(day, ts, available);
      && Drawn(us, ts) && AllRemaining(us) && IsSorted(us, DueLeq)
      && (forall t :: t in us <==> t in ts && UrgentTest(day)(t))
      && Sound(b, available) && OneEach(b.rows)
      && (forall k :: 0 <= k < |b.rows| ==> Writes(b.rows[k], us))
  {
    Orders();
    SortedFilter(ts, UrgentTest(day), DueLeq);
    PassSound(day, Urgent, UrgentList(day, ts), Book(available, []), available);
    PassOneEach(day, Urgent, UrgentList(day, ts), Book(available, []), available, ts);
  }

  lemma NewIdStaysOneEach(rows: seq<Allocation>, r: Allocation)
    requires OneEach(rows) && forall k :: 0 <= k < |rows| ==> rows[k].policyId != r.policyId
    ensures OneEach(rows + [r])
  {
  }

  lemma NotTheFloor(r: Allocation, us: seq<Target>, ts: seq<Target>)
    requires GoodTargets(ts) && Drawn(us, ts) && Writes(r, us)
    ensures r.policyId != "floor"
  {
    var t :| t in us && RowFor(r, t);
    assert t in ts;
  }

  lemma FloorPass(day: Day, floor: real, ts: seq<Target>, available: real)
    requires GoodTargets(ts) && available >= 0.0
    ensures var u, b := AfterUrgent(day, ts, available), AfterFloor(day, floor, ts, available);
      && Sound(b, available) && OneEach(b.rows)
      && |u.rows| <= |b.rows| && b.rows[..|u.rows|] == u.rows
      && (forall k :: |u.rows| <= k < |b.rows| ==> FloorRow(b.rows[k], floor))
  {
    hide AfterUrgent, UrgentList, Sound, OneEach, Writes, GoodTargets, Drawn;
    UrgentPass(day, ts, available);
    var u, b := AfterUrgent(day, ts, available), AfterFloor(day, floor, ts, available);
    if floor > 0.0 {
      var r := Allocation("floor", Buffer, MinReal(floor, u.cash), Funded, ProtectedFloor, None, floor);
      assert b == Book(u.cash - r.amount, u.rows + [r]);
      hide Hold, AfterFloor;
      CashNonNegative(u, available);
      AppendSound(u, r, available);
      forall i | 0 <= i < |u.rows|
        ensures u.rows[i].policyId != "floor"
      {
        NotTheFloor(u.rows[i], UrgentList(day, ts), ts);
      }
      NewIdStaysOneEach(u.rows, r);
    }
  }

  lemma CashNonNegative(b: Book, available: real)
    requires Sound(b, available)
    ensures b.cash >= 0.0
  {
  }

  lemma LaterPass(day: Day, floor: real, ts: seq<Target>, available: real)
    requires GoodTargets(ts) && available >= 0.0
    ensures var f, b, us := AfterFloor(day, floor, ts, available), AfterLater(day, floor, ts, available), LaterList(day, ts);
      && Sound(b, available) && OneEach(b.rows) && Continues(f, b, us)
      && Drawn(us, ts) && AllRemaining(us)
      && (forall t :: t in us <==> t in ts && LaterTest(day)(t))
  {
    Orders();
    UrgentPass(day, ts, available);
    FloorPass(day, floor, ts, available);
    SortedFilter(ts, LaterTest(day), DueLeq);
    var u, f, us := AfterUrgent(day, ts, available), AfterFloor(day, floor, ts, available), LaterList(day, ts);
    forall i, t | 0 <= i < |f.rows| && t in us
      ensures f.rows[i].policyId != t.policyId
    {
      if i < |u.rows| {
        var x :| x in UrgentList(day, ts) && RowFor(u.rows[i], x);
        if x.policyId == t.policyId {
          SameId(ts, x, t);
          assert false;
        }
      }
    }
    PassSound(day, Later, us, f, available);
    PassOneEach(day, Later, us, f, available, ts);
  }

  lemma RestPass(day: Day, floor: real, ts: seq<Target>, available: real)
    requires GoodTargets(ts) && available >= 0.0
    ensures var l, b := AfterLater(day, floor, ts, available), Paycheck(day, floor, ts, available);
      var us := RestList(ts, l.rows);
      && Sound(b, available) && OneEach(b.rows) && Continues(l, b, us)
      && Drawn(us, ts) && AllRemaining(us) && IsSorted(us, RestLeq)
      && (forall t :: t in us <==> t in ts && RestTest(l.rows)(t))
  {
    Orders();
    LaterPass(day, floor, ts, available);
    var l := AfterLater(day, floor, ts, available);
    var us := RestList(ts, l.rows);
    SortedFilter(ts, RestTest(l.rows), RestLeq);
    forall i, t | 0 <= i < |l.rows| && t in us
      ensures l.rows[i].policyId != t.policyId
    {
      assert RestTest(l.rows)(t);
      assert l.rows[i] in l.rows;
    }
    PassSound(day, Rest, us, l, available);
    PassOneEach(day, Rest, us, l, available, ts);
  }

  /**
   * One deposit: amounts are non-negative and never exceed what was asked; with the leftover cash
   * they add up to the deposit; each policy gets at most one row, for no more than its remaining
   * target; and once a row is short, every later row is zero and no cash is left.
   */
  lemma PaycheckLaws(day: Day, floor: real, ts: seq<Target>, available: real)
    requires GoodTargets(ts) && available >= 0.0
    ensures var b := Paycheck(day, floor, ts, available);
      && Sound(b, available) && OneEach(b.rows)
      && (forall k :: 0 <= k < |b.rows| ==> FromPlan(b.rows[k], ts, floor))
  {
    UrgentPass(day, ts, available);
    FloorPass(day, floor, ts, available);
    LaterPass(day, floor, ts, available);
    RestPass(day, floor, ts, available);
    var u, f, l, b := AfterUrgent(day, ts, available), AfterFloor(day, floor, ts, available),
      AfterLater(day, floor, ts, available), Paycheck(day, floor, ts, available);
    forall k | 0 <= k < |b.rows|
      ensures FromPlan(b.rows[k], ts, floor)
    {
      if k < |u.rows| {
        assert b.rows[k] == l.rows[k] == f.rows[k] == u.rows[k];
        WritesMore(b.rows[k], UrgentList(day, ts), ts);
      } else if k < |f.rows| {
        assert b.rows[k] == l.rows[k] == f.rows[k];
      } else if k < |l.rows| {
        assert b.rows[k] == l.rows[k];
        WritesMore(b.rows[k], LaterList(day, ts), ts);
      } else {
        WritesMore(b.rows[k], RestList(ts, l.rows), ts);
      }
    }
  }

  lemma NotWritten(r: Allocation, us: seq<Target>, ts: seq<Target>, t: Target)
    requires GoodTargets(ts) && (forall u :: u in us ==> u in ts) && t in ts && t !in us
    requires Writes(r, us)
    ensures r.policyId != t.policyId
  {
    var u :| u in us && RowFor(r, u);
    if r.policyId == t.policyId {
      SameId(ts, u, t);
    }
  }

  /** What neither the urgent nor the later pass takes has no row before the last pass. */
  lemma WaitsForRest(day: Day, floor: real, ts: seq<Target>, available: real, x: nat)
    requires GoodTargets(ts) && available >= 0.0 && x < |ts|
    requires !UrgentTest(day)(ts[x]) && !LaterTest(day)(ts[x])
    ensures !HasRow(AfterLater(day, floor, ts, available).rows, ts[x].policyId)
  {
    UrgentPass(day, ts, available);
    FloorPass(day, floor, ts, available);
    LaterPass(day, floor, ts, available);
    hide RunPass, UrgentList, LaterList, Hold, AfterUrgent, AfterLater, AfterFloor, Writes;
    var u, f, l := AfterUrgent(day, ts, available), AfterFloor(day, floor, ts, available),
      AfterLater(day, floor, ts, available);
    forall k | 0 <= k < |l.rows|
      ensures l.rows[k].policyId != ts[x].policyId
    {
      if k < |u.rows| {
        assert l.rows[k] == f.rows[k] == u.rows[k];
        NotWritten(u.rows[k], UrgentList(day, ts), ts, ts[x]);
      } else if k < |f.rows| {
        assert l.rows[k] == f.rows[k];
      } else {
        NotWritten(l.rows[k], LaterList(day, ts), ts, ts[x]);
      }
    }
  }
}
