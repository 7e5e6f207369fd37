/** Whose turn comes when in a paycheck, what each row says, and what the register lists, read off the targets. */
module AllocatorTurns {
  import opened Prelude
  import opened Money
  import opened Allocator
  import opened AllocatorLaws
  import opened AllocatorMonth
  import opened AllocatorDeadlines
  import opened AllocatorCash

  // ---- turns ----------------------------------------------------------

  /** Due before the next income, or the protected operating buffer. */
  predicate Pressing(day: Day, t: Target) {
    || (t.protected && t.purpose == Buffer)
    || (t.due.Some? && (day.next.None? || t.due.value < day.next.value))
  }

  /** First what presses, then the other required targets, then everything else. */
  function Turn(day: Day, t: Target): nat {
    if (t.required || t.protected) && Pressing(day, t) then 0 else if t.required then 1 else 2
  }

  predicate Optional(t: Target) {
    t.percentRule && !t.protected && !t.required
  }

  /** The saved order: percentage rules last, then by priority number, then by name. */
  predicate SavedNoLater(y: Target, x: Target) {
    || (!Optional(y) && Optional(x))
    || (Optional(y) == Optional(x) && (y.priority < x.priority || (y.priority == x.priority && NameLeq(y.name, x.name))))
  }

  predicate ServedNoLater(day: Day, y: Target, x: Target) {
    || Turn(day, y) < Turn(day, x)
    || (Turn(day, y) == Turn(day, x) && if Turn(day, y) < 2 then DueNoLater(y, x) else SavedNoLater(y, x))
  }

  /** The names agree up to k, where x has the smaller letter. */
  predicate SmallerAt(x: string, y: string, k: nat) {
    k < |x| && k < |y| && x[..k] == y[..k] && x[k] < y[k]
  }

  /** Names compare as strings do: a prefix first, otherwise by the first letter in which they differ. */
  lemma {:induction false} NameLeqIs(x: string, y: string)
    ensures NameLeq(x, y) <==> (|x| <= |y| && x == y[..|x|]) || exists k :: SmallerAt(x, y, k)
  {
    if x != [] && y != [] && x[0] == y[0] {
      NameLeqIs(x[1..], y[1..]);
      assert x == [x[0]] + x[1..] && (|x| <= |y| ==> y[..|x|] == [y[0]] + y[1..][..|x| - 1]);
      if k: nat :| SmallerAt(x, y, k) {
        assert x[..k][1..] == x[1..][..k - 1] && y[..k][1..] == y[1..][..k - 1];
        assert SmallerAt(x[1..], y[1..], k - 1);
      }
      if k: nat :| SmallerAt(x[1..], y[1..], k) {
        assert x[..k + 1] == [x[0]] + x[1..][..k] && y[..k + 1] == [y[0]] + y[1..][..k];
        assert SmallerAt(x, y, k + 1);
      }
    } else if x != [] && y != [] {
      assert SmallerAt(x, y, 0) <==> x[0] < y[0];
      forall k: nat | 0 < k < |x| && k < |y|
        ensures !SmallerAt(x, y, k)
      {
        assert x[..k][0] == x[0] && y[..k][0] == y[0];
      }
      assert |x| <= |y| ==> y[..|x|][0] == y[0];
    }
  }

  /** Rows from here on come in the order of the list. */
  ghost predicate InListOrder(rows: seq<Allocation>, from: nat, us: seq<Target>) {
    forall j, i :: from <= j < i < |rows| ==> Listed(us, rows[j].policyId, rows[i].policyId)
  }

  ghost predicate Listed(us: seq<Target>, a: string, b: string) {
    exists g, h :: 0 <= g < h < |us| && us[g].policyId == a && us[h].policyId == b
  }

  lemma ListedLater(us: seq<Target>, a: string, b: string)
    requires us != [] && Listed(us[1..], a, b)
    ensures Listed(us, a, b)
  {
    var g, h :| 0 <= g < h < |us[1..]| && us[1..][g].policyId == a && us[1..][h].policyId == b;
    assert us[g + 1].policyId == a && us[h + 1].policyId == b;
  }

  lemma HeadListed(us: seq<Target>, r: Allocation)
    requires us != [] && Writes(r, us[1..])
    ensures Listed(us, us[0].policyId, r.policyId)
  {
    var t :| t in us[1..] && RowFor(r, t);
    var h :| 0 <= h < |us[1..]| && us[1..][h] == t;
    assert us[h + 1].policyId == r.policyId;
  }

  /** A pass writes its rows in the order of its list. */
  lemma {:induction false} PassInOrder(day: Day, p: Pass, us: seq<Target>, b: Book, available: real)
    requires Sound(b, available) && AllRemaining(us)
    ensures InListOrder(RunPass(day, p, us, b).rows, |b.rows|, us)
    decreases |us|
  {
    if us != [] {
      assert us[0] in us;
      var mid, c := Step(day, p, us[0], b), RunPass(day, p, us, b);
      StepSound(day, p, us[0], b, available);
      PassSound(day, p, us[1..], mid, available);
      hide Step, Sound, RunPass;
      PassInOrder(day, p, us[1..], mid, available);
      forall j, i | |b.rows| <= j < i < |c.rows|
        ensures Listed(us, c.rows[j].policyId, c.rows[i].policyId)
      {
        if j < |mid.rows| {
          assert c.rows[j] == mid.rows[j] == mid.rows[|b.rows|];
          HeadListed(us, c.rows[i]);
        } else {
          ListedLater(us, c.rows[j].policyId, c.rows[i].policyId);
        }
      }
    }
  }

  // ---- which pass a row belongs to ------------------------------------

  lemma UrgentTurn(day: Day, t: Target)
    requires UrgentTest(day)(t)
    ensures Turn(day, t) == 0
  {
  }

  lemma LaterTurn(day: Day, t: Target)
    requires LaterTest(day)(t)
    ensures Turn(day, t) == 1
  {
  }

  lemma RestTurn(day: Day, t: Target)
    requires WaitsTest(day)(t)
    ensures Turn(day, t) == 2
  {
    assert !UrgentTest(day)(t) && !LaterTest(day)(t);
  }

  ghost predicate InTurn(day: Day, us: seq<Target>, turn: nat) {
    forall t :: t in us ==> Turn(day, t) == turn
  }

  /** The four parts of a paycheck: each row of a pass belongs to a target of its turn. */
  lemma Parts(day: Day, floor: real, ts: seq<Target>, available: real)
    requires GoodTargets(ts) && available >= 0.0
    ensures var us, vs, ws := UrgentList(day, ts), LaterList(day, ts), Waiting(day, ts);
      && Drawn(us, ts) && AllRemaining(us) && IsSorted(us, DueLeq) && InTurn(day, us, 0)
      && Drawn(vs, ts) && AllRemaining(vs) && IsSorted(vs, DueLeq) && InTurn(day, vs, 1)
      && Drawn(ws, ts) && AllRemaining(ws) && IsSorted(ws, RestLeq) && InTurn(day, ws, 2)
    ensures forall t :: t in ts && t.Remaining() > 0.0 ==>
      t in UrgentList(day, ts) || t in LaterList(day, ts) || t in Waiting(day, ts)
  {
    Orders();
    SortedFilter(ts, UrgentTest(day), DueLeq);
    SortedFilter(ts, LaterTest(day), DueLeq);
    SortedFilter(ts, WaitsTest(day), RestLeq);
    var us, vs, ws := UrgentList(day, ts), LaterList(day, ts), Waiting(day, ts);
    hide UrgentList, LaterList, Waiting, IsUrgent, Drawn, IsSorted, Turn;
    forall t | t in us
      ensures Turn(day, t) == 0
    {
      UrgentTurn(day, t);
    }
    forall t | t in vs
      ensures Turn(day, t) == 1
    {
      LaterTurn(day, t);
    }
    forall t | t in ws
      ensures Turn(day, t) == 2
    {
      RestTurn(day, t);
    }
  }

  // ---- what each row says ---------------------------------------------

  /** w is the whole number nearest to an even part of what the target lacks; halves go up. */
  predicate NearestPart(t: Target, after: nat, w: int) {
    w as real - 0.5 <= (t.target - t.funded) / (after + 1) as real < w as real + 0.5
  }

  /** What a target asks of this deposit: all it lacks or, spread over the deposits left, the nearest cent to an even part. */
  ghost predicate AsksFor(day: Day, t: Target, turn: nat, amount: real) {
    var lacks := t.target - t.funded;
    if turn < 2 || day.after == 0 then amount == lacks
    else exists w: int :: NearestPart(t, day.after, w) && amount == if w as real < lacks then w as real else lacks
  }

  predicate SkippedHere(day: Day, t: Target) {
    var on := if t.scheduled && t.due.Some? then t.due.value else day.payDate;
    day.skipped(t.policyId, on)
  }

  /** The row of a target whose turn comes with this much cash in hand. */
  ghost predicate Says(day: Day, t: Target, turn: nat, cash: real, r: Allocation) {
    && r.policyId == t.policyId && r.purpose == t.purpose && r.due == t.due
    && r.urgency == (if turn == 0 then DueBeforeNextIncome
                     else if t.required || t.protected then DueThisPeriod else Discretionary)
    && if turn == 1 && day.after > 0 then
         r.status == Deferred && r.amount == 0.0 && r.requested == t.target - t.funded
       else if turn == 2 && cash == 0.0 then
         r.status == UnfundedShortfall && r.amount == 0.0 && r.requested == t.target - t.funded
       else if SkippedHere(day, t) then
         r.status == Paused && r.amount == 0.0 && r.requested == t.target - t.funded
       else
         && AsksFor(day, t, turn, r.requested)
         && (if r.requested <= cash then r.status == Funded && r.amount == r.requested > 0.0
             else r.status == (if cash == 0.0 then UnfundedShortfall else Partial) && r.amount == cash)
  }

  function TurnOf(p: Pass): nat {
    match p
    case Urgent => 0
    case Later => 1
    case Rest => 2
  }

  lemma ShareIsNearest(t: Target, after: nat)
    requires t.Remaining() > 0.0 && after > 0
    ensures exists w: int :: NearestPart(t, after, w) && ShareForThisPaycheck(t, after) == w as real
  {
    NonNegativeQuotient(t.Remaining(), (after + 1) as real);
    var w := RoundHalfUp(t.Remaining() / (after + 1) as real);
    assert NearestPart(t, after, w);
  }

  /** A target writes no row only when its part of the deposit rounds to nothing. */
  ghost predicate AsksNothing(day: Day, t: Target) {
    day.after > 0 && !SkippedHere(day, t) && (t.target - t.funded) / (day.after + 1) as real < 0.5
  }

  lemma UrgentSays(day: Day, t: Target, b: Book)
    requires b.cash >= 0.0 && t.Remaining() > 0.0
    ensures var c := Step(day, Urgent, t, b);
      |c.rows| == |b.rows| + 1 && Says(day, t, 0, b.cash, c.rows[|b.rows|])
  {
    hide AsksNothing;
    assert Skipped(day, t) == SkippedHere(day, t);
    hide Skipped, SkippedHere;
  }

  lemma LaterSays(day: Day, t: Target, b: Book)
    requires b.cash >= 0.0 && t.Remaining() > 0.0 && t.required
    ensures var c := Step(day, Later, t, b);
      |c.rows| == |b.rows| + 1 && Says(day, t, 1, b.cash, c.rows[|b.rows|])
  {
    assert Skipped(day, t) == SkippedHere(day, t);
    hide Skipped, SkippedHere;
  }

  lemma RestSays(day: Day, t: Target, b: Book)
    requires b.cash >= 0.0 && t.Remaining() > 0.0
    ensures var c := Step(day, Rest, t, b);
      if c == b then AsksNothing(day, t)
      else |c.rows| == |b.rows| + 1 && Says(day, t, 2, b.cash, c.rows[|b.rows|])
  {
    assert Skipped(day, t) == SkippedHere(day, t);
    if day.after > 0 {
      ShareIsNearest(t, day.after);
      hide ShareForThisPaycheck;
    }
    hide Skipped, SkippedHere;
  }

  lemma StepSays(day: Day, p: Pass, t: Target, b: Book)
    requires b.cash >= 0.0 && t.Remaining() > 0.0 && Turn(day, t) == TurnOf(p)
    ensures var c := Step(day, p, t, b);
      if c == b then p.Rest? && AsksNothing(day, t)
      else |c.rows| == |b.rows| + 1 && Says(day, t, TurnOf(p), b.cash, c.rows[|b.rows|])
  {
    assert p.Later? ==> t.required;
    hide Step, Says, AsksNothing, Turn;
    match p
    case Urgent => UrgentSays(day, t, b);
    case Later => LaterSays(day, t, b);
    case Rest => RestSays(day, t, b);
  }

  /** One step of a pass: the book stays sound, and any row it writes says what it should. */
  lemma StepTells(day: Day, p: Pass, t: Target, b: Book, available: real)
    requires Sound(b, available) && t.Remaining() > 0.0 && Turn(day, t) == TurnOf(p)
    ensures var c := Step(day, p, t, b);
      && Sound(c, available)
      && if c == b then p.Rest? && AsksNothing(day, t)
         else |c.rows| == |b.rows| + 1 && c.rows[..|b.rows|] == b.rows && c.rows[|b.rows|].policyId == t.policyId
              && Says(day, t, TurnOf(p), b.cash, c.rows[|b.rows|])
  {
    CashNonNegative(b, available);
    hide Step, Sound, AsksNothing, Turn;
    StepSays(day, p, t, b);
    StepSound(day, p, t, b, available);
  }

  lemma PassKeeps(day: Day, p: Pass, us: seq<Target>, b: Book, available: real)
    requires Sound(b, available) && AllRemaining(us)
    ensures var c := RunPass(day, p, us, b); |b.rows| <= |c.rows| && c.rows[..|b.rows|] == b.rows
  {
    hide RunPass, Sound, Writes, AllRemaining;
    PassSound(day, p, us, b, available);
  }

  /** Row k belongs to one of these targets and says what the cash left before it gives. */
  ghost predicate RowSays(day: Day, us: seq<Target>, turn: nat, available: real, rows: seq<Allocation>, k: nat)
    requires k < |rows|
  {
    exists t :: t in us && Says(day, t, turn, available - SumAmounts(rows[..k]), rows[k])
  }

  ghost predicate AllSay(day: Day, us: seq<Target>, turn: nat, available: real, rows: seq<Allocation>, from: nat) {
    forall k :: from <= k < |rows| ==> RowSays(day, us, turn, available, rows, k)
  }

  lemma FirstSays(day: Day, us: seq<Target>, turn: nat, available: real, b: Book, rows: seq<Allocation>)
    requires Sound(b, available) && us != []
    requires |b.rows| < |rows| && rows[..|b.rows|] == b.rows && Says(day, us[0], turn, b.cash, rows[|b.rows|])
    ensures RowSays(day, us, turn, available, rows, |b.rows|)
  {
    hide Says;
    assert us[0] in us && b.cash == available - SumAmounts(rows[..|b.rows|]);
  }

  lemma OneMore(day: Day, us: seq<Target>, turn: nat, available: real, rows: seq<Allocation>, k: nat)
    requires k < |rows| && RowSays(day, us, turn, available, rows, k) && AllSay(day, us, turn, available, rows, k + 1)
    ensures AllSay(day, us, turn, available, rows, k)
  {
    hide RowSays;
  }

  lemma TailSays(day: Day, us: seq<Target>, turn: nat, available: real, rows: seq<Allocation>, from: nat)
    requires us != [] && AllSay(day, us[1..], turn, available, rows, from)
    ensures AllSay(day, us, turn, available, rows, from)
  {
    hide Says;
    forall k | from <= k < |rows|
      ensures RowSays(day, us, turn, available, rows, k)
    {
      assert RowSays(day, us[1..], turn, available, rows, k);
      var t :| t in us[1..] && Says(day, t, turn, available - SumAmounts(rows[..k]), rows[k]);
      assert t in us;
    }
  }

  lemma {:induction false} PassSays(day: Day, p: Pass, us: seq<Target>, b: Book, available: real)
    requires Sound(b, available) && AllRemaining(us) && InTurn(day, us, TurnOf(p))
    ensures AllSay(day, us, TurnOf(p), available, RunPass(day, p, us, b).rows, |b.rows|)
    decreases |us|
  {
    if us != [] {
      assert us[0] in us;
      var mid, c := Step(day, p, us[0], b), RunPass(day, p, us, b);
      StepTells(day, p, us[0], b, available);
      PassKeeps(day, p, us[1..], mid, available);
      hide Step, Sound, Says, AsksNothing, RowSays, AllSay, Turn, RunPass;
      PassSays(day, p, us[1..], mid, available);
      TailSays(day, us, TurnOf(p), available, c.rows, |mid.rows|);
      if mid != b {
        assert c.rows[..|b.rows|] == b.rows && c.rows[|b.rows|] == mid.rows[|b.rows|];
        FirstSays(day, us, TurnOf(p), available, b, c.rows);
        OneMore(day, us, TurnOf(p), available, c.rows, |b.rows|);
      }
    }
  }

  /** A pass writes a row for each of its targets that asks for something. */
  lemma {:induction false} PassTells(day: Day, p: Pass, us: seq<Target>, b: Book, available: real)
    requires Sound(b, available) && AllRemaining(us) && InTurn(day, us, TurnOf(p))
    ensures forall t :: t in us ==> HasRow(RunPass(day, p, us, b).rows, t.policyId) || (p.Rest? && AsksNothing(day, t))
    decreases |us|
  {
    if us != [] {
      assert us[0] in us;
      var mid, c := Step(day, p, us[0], b), RunPass(day, p, us, b);
      StepTells(day, p, us[0], b, available);
      PassKeeps(day, p, us[1..], mid, available);
      hide Step, Sound, Says, AsksNothing, HasRow, Turn;
      PassTells(day, p, us[1..], mid, available);
      if mid != b {
        assert c.rows[|b.rows|] == mid.rows[|b.rows|] && mid.rows[|b.rows|].policyId == us[0].policyId;
        OwnRow(c.rows, |b.rows|);
      }
    }
  }

  lemma SaysKept(day: Day, us: seq<Target>, turn: nat, available: real, rows: seq<Allocation>, longer: seq<Allocation>, k: nat)
    requires k < |rows| <= |longer| && longer[..|rows|] == rows && RowSays(day, us, turn, available, rows, k)
    ensures RowSays(day, us, turn, available, longer, k)
  {
    hide Says;
    assert longer[..k] == rows[..k] && longer[k] == rows[k];
  }

  /** The four books of a paycheck, each continuing the one before. */
  lemma Books(day: Day, floor: real, ts: seq<Target>, available: real)
    requires GoodTargets(ts) && available >= 0.0
    ensures var u, f, l, b := AfterUrgent(day, ts, available), AfterFloor(day, floor, ts, available),
        AfterLater(day, floor, ts, available), Paycheck(day, floor, ts, available);
      && |u.rows| <= |f.rows| <= |l.rows| <= |b.rows|
      && f.rows[..|u.rows|] == u.rows && l.rows[..|f.rows|] == f.rows && b.rows[..|l.rows|] == l.rows
      && Sound(u, available) && Sound(f, available) && Sound(l, available) && Sound(b, available) && OneEach(b.rows)
      && l == RunPass(day, Later, LaterList(day, ts), f) && b == RunPass(day, Rest, Waiting(day, ts), l)
  {
    UrgentPass(day, ts, available);
    FloorPass(day, floor, ts, available);
    LaterPass(day, floor, ts, available);
    RestPass(day, floor, ts, available);
    RestIsWaiting(day, floor, ts, available);
    hide AfterUrgent, AfterFloor, Sound, OneEach, RestList, LaterList, Waiting, RunPass, UrgentList, Hold, Writes;
  }

  /** The row of the floor: all of it, or the cash the urgent rows left. */
  predicate FloorSays(floor: real, cash: real, r: Allocation) {
    && r.policyId == "floor" && r.urgency == ProtectedFloor && r.requested == floor > 0.0 && r.due == None
    && r.status == Funded && r.amount == if floor <= cash then floor else cash
  }

  lemma FloorRowSays(day: Day, floor: real, ts: seq<Target>, available: real)
    requires GoodTargets(ts) && available >= 0.0
    ensures var u, f := AfterUrgent(day, ts, available), AfterFloor(day, floor, ts, available);
      if floor <= 0.0 then f == u
      else |f.rows| == |u.rows| + 1 && FloorSays(floor, available - SumAmounts(u.rows), f.rows[|u.rows|])
  {
    hide AfterUrgent, UrgentList;
    UrgentPass(day, ts, available);
  }

  ghost predicate TargetSays(day: Day, ts: seq<Target>, available: real, rows: seq<Allocation>, k: nat)
    requires k < |rows|
  {
    exists t :: t in ts && Says(day, t, Turn(day, t), available - SumAmounts(rows[..k]), rows[k])
  }

  lemma OfThePlan(day: Day, us: seq<Target>, ts: seq<Target>, turn: nat, available: real, rows: seq<Allocation>, k: nat)
    requires k < |rows| && RowSays(day, us, turn, available, rows, k) && InTurn(day, us, turn) && forall t :: t in us ==> t in ts
    ensures TargetSays(day, ts, available, rows, k)
  {
    hide Says, Turn;
    var t :| t in us && Says(day, t, turn, available - SumAmounts(rows[..k]), rows[k]);
    assert t in ts && Turn(day, t) == turn;
  }

  /** The targets of one pass. */
  ghost predicate PartOf(day: Day, p: Pass, us: seq<Target>, ts: seq<Target>) {
    AllRemaining(us) && InTurn(day, us, TurnOf(p)) && forall t :: t in us ==> t in ts
  }

  lemma PartsAre(day: Day, floor: real, ts: seq<Target>, available: real)
    requires GoodTargets(ts) && available >= 0.0
    ensures PartOf(day, Urgent, UrgentList(day, ts), ts)
    ensures PartOf(day, Later, LaterList(day, ts), ts)
    ensures PartOf(day, Rest, Waiting(day, ts), ts)
  {
    hide UrgentList, LaterList, Waiting, IsSorted, Turn, AllRemaining, InTurn, GoodTargets;
    Parts(day, floor, ts, available);
  }

  /** The rows of a part of a paycheck tell what the finished paycheck holds there. */
  lemma PartTells(day: Day, p: Pass, us: seq<Target>, ts: seq<Target>, b: Book, available: real, rows: seq<Allocation>, k: nat)
    requires Sound(b, available) && PartOf(day, p, us, ts)
    requires var c := RunPass(day, p, us, b);
      |b.rows| <= k < |c.rows| <= |rows| && rows[..|c.rows|] == c.rows
    ensures TargetSays(day, ts, available, rows, k)
  {
    hide Sound, AllRemaining, InTurn, RunPass, RowSays, TargetSays;
    PassSays(day, p, us, b, available);
    var c := RunPass(day, p, us, b);
    SaysKept(day, us, TurnOf(p), available, c.rows, rows, k);
    OfThePlan(day, us, ts, TurnOf(p), available, rows, k);
  }

  lemma FloorTells(day: Day, floor: real, ts: seq<Target>, available: real, rows: seq<Allocation>)
    requires GoodTargets(ts) && available >= 0.0
    requires var f := AfterFloor(day, floor, ts, available).rows; |f| <= |rows| && rows[..|f|] == f
    ensures var u, f := AfterUrgent(day, ts, available).rows, AfterFloor(day, floor, ts, available).rows;
      forall k :: |u| <= k < |f| ==> FloorSays(floor, available - SumAmounts(rows[..k]), rows[k])
  {
    var u, f := AfterUrgent(day, ts, available).rows, AfterFloor(day, floor, ts, available).rows;
    hide AfterUrgent, AfterFloor, FloorSays, SumAmounts, OneEach, GoodTargets, Sound, FloorRow;
    FloorPass(day, floor, ts, available);
    FloorRowSays(day, floor, ts, available);
    if |u| < |f| {
      assert rows[..|u|] == f[..|u|] && rows[|u|] == f[|u|];
    }
  }

  /** The finished paycheck still holds the rows of every earlier book. */
  lemma RowsStand(u: seq<Allocation>, f: seq<Allocation>, l: seq<Allocation>, b: seq<Allocation>)
    requires |u| <= |f| <= |l| <= |b| && f[..|u|] == u && l[..|f|] == f && b[..|l|] == l
    ensures b[..|u|] == u && b[..|f|] == f
    ensures forall id :: (HasRow(u, id) || HasRow(l, id)) ==> HasRow(b, id)
  {
    assert f == b[..|f|] && u == b[..|u|];
    forall id | HasRow(u, id) || HasRow(l, id)
      ensures HasRow(b, id)
    {
      var r :| (r in u || r in l) && r.policyId == id;
      assert r in b[..|u|] || r in b[..|l|];
    }
  }

  /** Row k tells of the floor or of a target whose turn it is. */
  ghost predicate Told(day: Day, floor: real, ts: seq<Target>, available: real, rows: seq<Allocation>, k: nat)
    requires k < |rows|
  {
    FloorSays(floor, available - SumAmounts(rows[..k]), rows[k]) || TargetSays(day, ts, available, rows, k)
  }

  lemma FirstRowsTell(day: Day, floor: real, ts: seq<Target>, available: real, rows: seq<Allocation>)
    requires GoodTargets(ts) && available >= 0.0
    requires var u, f := AfterUrgent(day, ts, available).rows, AfterFloor(day, floor, ts, available).rows;
      |u| <= |f| <= |rows| && rows[..|u|] == u && rows[..|f|] == f
    ensures forall k :: 0 <= k < |AfterFloor(day, floor, ts, available).rows| ==> Told(day, floor, ts, available, rows, k)
  {
    var none, u, f := Book(available, []), AfterUrgent(day, ts, available).rows, AfterFloor(day, floor, ts, available).rows;
    assert u == RunPass(day, Urgent, UrgentList(day, ts), none).rows;
    EmptySound(available);
    hide AfterUrgent, AfterFloor, FloorSays, TargetSays, SumAmounts, GoodTargets, Sound, RunPass, PartOf, UrgentList;
    PartsAre(day, floor, ts, available);
    FloorTells(day, floor, ts, available, rows);
    forall k | 0 <= k < |f|
      ensures Told(day, floor, ts, available, rows, k)
    {
      if k < |u| {
        PartTells(day, Urgent, UrgentList(day, ts), ts, none, available, rows, k);
      }
    }
  }

  /**
   * Every row of a paycheck, from the target behind it and the cash the rows before it left: its
   * amount, its status, what it asked for and its urgency.
   */
  lemma RowsTell(day: Day, floor: real, ts: seq<Target>, available: real, k: nat)
    requires GoodTargets(ts) && available >= 0.0 && k < |Paycheck(day, floor, ts, available).rows|
    ensures var rows := Paycheck(day, floor, ts, available).rows;
      FloorSays(floor, available - SumAmounts(rows[..k]), rows[k]) || TargetSays(day, ts, available, rows, k)
  {
    hide Paycheck, FloorSays, TargetSays, GoodTargets, SumAmounts;
    AllTold(day, floor, ts, available, k);
  }

  lemma AllTold(day: Day, floor: real, ts: seq<Target>, available: real, k: nat)
    requires GoodTargets(ts) && available >= 0.0 && k < |Paycheck(day, floor, ts, available).rows|
    ensures Told(day, floor, ts, available, Paycheck(day, floor, ts, available).rows, k)
  {
    hide AfterUrgent, AfterFloor, AfterLater, Paycheck, Sound, OneEach, Told,
      RunPass, UrgentList, LaterList, Waiting, GoodTargets, HasRow;
    var u, f, l, b := AfterUrgent(day, ts, available), AfterFloor(day, floor, ts, available),
      AfterLater(day, floor, ts, available), Paycheck(day, floor, ts, available);
    if k < |f.rows| {
      Books(day, floor, ts, available);
      RowsStand(u.rows, f.rows, l.rows, b.rows);
      FirstRowsTell(day, floor, ts, available, b.rows);
    } else {
      LastRowsTell(day, floor, ts, available, k);
    }
  }

  lemma LastRowsTell(day: Day, floor: real, ts: seq<Target>, available: real, k: nat)
    requires GoodTargets(ts) && available >= 0.0
    requires |AfterFloor(day, floor, ts, available).rows| <= k < |Paycheck(day, floor, ts, available).rows|
    ensures Told(day, floor, ts, available, Paycheck(day, floor, ts, available).rows, k)
  {
    var f, l, b := AfterFloor(day, floor, ts, available), AfterLater(day, floor, ts, available), Paycheck(day, floor, ts, available);
    var vs, ws := LaterList(day, ts), Waiting(day, ts);
    hide AfterFloor, AfterLater, AfterUrgent, Paycheck, FloorSays, TargetSays, SumAmounts, GoodTargets, Sound, RunPass, PartOf,
      LaterList, Waiting, UrgentList, OneEach;
    PartsAre(day, floor, ts, available);
    Books(day, floor, ts, available);
    if k < |l.rows| {
      PartTells(day, Later, vs, ts, f, available, b.rows, k);
    } else {
      assert b.rows[..|b.rows|] == b.rows;
      PartTells(day, Rest, ws, ts, l, available, b.rows, k);
    }
  }

  lemma EmptySound(available: real)
    requires available >= 0.0
    ensures Sound(Book(available, []), available)
  {
  }

  /** A target that lacks something is told of, unless its part of the deposit rounds to nothing. */
  lemma EachIsTold(day: Day, floor: real, ts: seq<Target>, available: real, t: Target)
    requires GoodTargets(ts) && available >= 0.0 && t in ts && t.target > t.funded
    ensures HasRow(Paycheck(day, floor, ts, available).rows, t.policyId) || (Turn(day, t) == 2 && AsksNothing(day, t))
  {
    var u, f, l, b := AfterUrgent(day, ts, available), AfterFloor(day, floor, ts, available),
      AfterLater(day, floor, ts, available), Paycheck(day, floor, ts, available);
    var us, vs, ws, none := UrgentList(day, ts), LaterList(day, ts), Waiting(day, ts), Book(available, []);
    assert u == RunPass(day, Urgent, us, none);
    EmptySound(available);
    assert t.Remaining() > 0.0;
    Parts(day, floor, ts, available);
    hide AfterUrgent, AfterFloor, AfterLater, Paycheck, Sound, OneEach, RunPass, UrgentList, LaterList, Waiting, Turn,
      SumAmounts, GoodTargets, IsSorted, HasRow, AsksNothing, Drawn, PartOf;
    PartsAre(day, floor, ts, available);
    Books(day, floor, ts, available);
    RowsStand(u.rows, f.rows, l.rows, b.rows);
    if t in us {
      ToldIn(day, Urgent, us, ts, none, available, t);
    } else if t in vs {
      ToldIn(day, Later, vs, ts, f, available, t);
    } else {
      ToldIn(day, Rest, ws, ts, l, available, t);
    }
  }

  lemma ToldIn(day: Day, p: Pass, us: seq<Target>, ts: seq<Target>, b: Book, available: real, t: Target)
    requires Sound(b, available) && PartOf(day, p, us, ts) && t in us
    ensures HasRow(RunPass(day, p, us, b).rows, t.policyId) || (p.Rest? && AsksNothing(day, t) && Turn(day, t) == 2)
  {
    hide Sound, RunPass, HasRow, AsksNothing, Turn;
    PassTells(day, p, us, b, available);
  }

  // ---- the order of the rows ------------------------------------------

  /** Row k is one of the rows of this turn. */
  predicate Placed(u: Book, f: Book, l: Book, turn: nat, k: nat) {
    match turn
    case 0 => k < |u.rows|
    case 1 => |f.rows| <= k < |l.rows|
    case _ => |l.rows| <= k
  }

  lemma IsListed(us: seq<Target>, ts: seq<Target>, r: Allocation, t: Target)
    requires GoodTargets(ts) && Drawn(us, ts) && Writes(r, us) && t in ts && t.policyId == r.policyId
    ensures t in us
  {
    var v :| v in us && RowFor(r, v);
    SameId(ts, v, t);
  }

  lemma FloorIsNoTarget(day: Day, floor: real, ts: seq<Target>, available: real, k: nat, t: Target)
    requires GoodTargets(ts) && available >= 0.0 && t in ts && k < |Paycheck(day, floor, ts, available).rows|
    ensures |AfterUrgent(day, ts, available).rows| <= k < |AfterFloor(day, floor, ts, available).rows|
      ==> Paycheck(day, floor, ts, available).rows[k].policyId != t.policyId
  {
    var f, l, b := AfterFloor(day, floor, ts, available), AfterLater(day, floor, ts, available), Paycheck(day, floor, ts, available);
    hide AfterUrgent, AfterFloor, AfterLater, Paycheck, RunPass, UrgentList, LaterList, Waiting, Sound, OneEach;
    Books(day, floor, ts, available);
    FloorRowSays(day, floor, ts, available);
    if k < |f.rows| {
      assert b.rows[k] == l.rows[k] == f.rows[k];
    }
  }

  /** The rows of a target stand in the part of its turn. */
  lemma RowPlaced(day: Day, floor: real, ts: seq<Target>, available: real, k: nat, t: Target)
    requires GoodTargets(ts) && available >= 0.0 && t in ts
    requires k < |Paycheck(day, floor, ts, available).rows| && Paycheck(day, floor, ts, available).rows[k].policyId == t.policyId
    ensures Placed(AfterUrgent(day, ts, available), AfterFloor(day, floor, ts, available),
                   AfterLater(day, floor, ts, available), Turn(day, t), k)
  {
    var u, f, l, b := AfterUrgent(day, ts, available), AfterFloor(day, floor, ts, available),
      AfterLater(day, floor, ts, available), Paycheck(day, floor, ts, available);
    var us, vs, ws := UrgentList(day, ts), LaterList(day, ts), Waiting(day, ts);
    Books(day, floor, ts, available);
    FloorIsNoTarget(day, floor, ts, available, k, t);
    Parts(day, floor, ts, available);
    UrgentPass(day, ts, available);
    LaterPass(day, floor, ts, available);
    assert AllRemaining(ws);
    hide AfterUrgent, AfterFloor, AfterLater, Paycheck, Sound, OneEach, RunPass, UrgentList, LaterList, Waiting, Turn, IsSorted, Writes, Drawn;
    PassSound(day, Rest, ws, l, available);
    if k < |u.rows| {
      assert b.rows[k] == l.rows[k] == f.rows[k] == u.rows[k];
      IsListed(us, ts, u.rows[k], t);
    } else if k < |l.rows| {
      assert b.rows[k] == l.rows[k];
      IsListed(vs, ts, l.rows[k], t);
    } else {
      IsListed(ws, ts, b.rows[k], t);
    }
  }

  /** Two rows of one pass: the earlier target is served no later. */
  lemma ListServes(day: Day, us: seq<Target>, ts: seq<Target>, y: Target, x: Target, turn: nat)
    requires GoodTargets(ts) && Drawn(us, ts) && y in ts && x in ts && Listed(us, y.policyId, x.policyId)
    requires InTurn(day, us, turn) && IsSorted(us, if turn < 2 then DueLeq else RestLeq)
    ensures ServedNoLater(day, y, x)
  {
    var g, h :| 0 <= g < h < |us| && us[g].policyId == y.policyId && us[h].policyId == x.policyId;
    assert us[g] in us && us[h] in us;
    SameId(ts, us[g], y);
    SameId(ts, us[h], x);
    hide Turn;
    assert Turn(day, x) == Turn(day, y) == turn;
    if turn < 2 {
      assert DueLeq(us[g], us[h]);
    } else {
      assert RestLeq(us[g], us[h]);
    }
  }

  /** The floor's row is the one right after the urgent rows. */
  lemma FloorPlaced(day: Day, floor: real, ts: seq<Target>, available: real, k: nat)
    requires GoodTargets(ts) && available >= 0.0
    requires k < |Paycheck(day, floor, ts, available).rows| && Paycheck(day, floor, ts, available).rows[k].policyId == "floor"
    ensures k == |AfterUrgent(day, ts, available).rows| < |AfterFloor(day, floor, ts, available).rows|
  {
    var u, f, l, b := AfterUrgent(day, ts, available), AfterFloor(day, floor, ts, available),
      AfterLater(day, floor, ts, available), Paycheck(day, floor, ts, available);
    var us, vs, ws := UrgentList(day, ts), LaterList(day, ts), Waiting(day, ts);
    UrgentPass(day, ts, available);
    LaterPass(day, floor, ts, available);
    hide AfterUrgent, AfterFloor, AfterLater, Paycheck, Sound, RunPass, UrgentList, LaterList, Waiting, Writes, OneEach, Turn;
    Books(day, floor, ts, available);
    Parts(day, floor, ts, available);
    FloorRowSays(day, floor, ts, available);
    PassSound(day, Rest, ws, l, available);
    if k < |u.rows| {
      NotTheFloor(u.rows[k], us, ts);
    } else if |f.rows| <= k < |l.rows| {
      NotTheFloor(l.rows[k], vs, ts);
    } else if |l.rows| <= k {
      NotTheFloor(b.rows[k], ws, ts);
    }
  }

  /** The rows come in turn: what presses by date, then the floor, then by date, then in the saved order. */
  lemma RowsInTurn(day: Day, floor: real, ts: seq<Target>, available: real, j: nat, i: nat, y: Target, x: Target)
    requires GoodTargets(ts) && available >= 0.0 && y in ts && x in ts
    requires var rows := Paycheck(day, floor, ts, available).rows;
      j < i < |rows| && rows[j].policyId == y.policyId && rows[i].policyId == x.policyId
    ensures ServedNoLater(day, y, x)
  {
    var u, f, l, b := AfterUrgent(day, ts, available), AfterFloor(day, floor, ts, available),
      AfterLater(day, floor, ts, available), Paycheck(day, floor, ts, available);
    var us, vs, ws := UrgentList(day, ts), LaterList(day, ts), Waiting(day, ts);
    assert u == RunPass(day, Urgent, us, Book(available, []));
    assert Sound(Book(available, []), available) by { EmptySound(available); }
    hide AfterUrgent, AfterFloor, AfterLater, Paycheck, Sound, OneEach, RunPass, UrgentList, LaterList, Waiting, Turn,
      IsSorted, Drawn, Listed;
    Books(day, floor, ts, available);
    Parts(day, floor, ts, available);
    RowPlaced(day, floor, ts, available, j, y);
    RowPlaced(day, floor, ts, available, i, x);
    if Turn(day, x) == 0 {
      PassInOrder(day, Urgent, us, Book(available, []), available);
      assert b.rows[j] == l.rows[j] == f.rows[j] == u.rows[j];
      assert b.rows[i] == l.rows[i] == f.rows[i] == u.rows[i];
      ListServes(day, us, ts, y, x, 0);
    } else if Turn(day, x) == 1 && Turn(day, y) == 1 {
      PassInOrder(day, Later, vs, f, available);
      assert b.rows[j] == l.rows[j] && b.rows[i] == l.rows[i];
      ListServes(day, vs, ts, y, x, 1);
    } else if Turn(day, y) == 2 {
      PassInOrder(day, Rest, ws, l, available);
      ListServes(day, ws, ts, y, x, 2);
    }
  }

  /** And the floor stands between what presses and everything else. */
  lemma FloorInTurn(day: Day, floor: real, ts: seq<Target>, available: real, k: nat, i: nat, x: Target)
    requires GoodTargets(ts) && available >= 0.0 && x in ts
    requires var rows := Paycheck(day, floor, ts, available).rows;
      k < |rows| && i < |rows| && rows[k].policyId == "floor" && rows[i].policyId == x.policyId
    ensures i < k <==> Turn(day, x) == 0
  {
    var u, f, l, b := AfterUrgent(day, ts, available), AfterFloor(day, floor, ts, available),
      AfterLater(day, floor, ts, available), Paycheck(day, floor, ts, available);
    hide AfterUrgent, AfterFloor, AfterLater, Paycheck, Sound, RunPass, UrgentList, LaterList, Waiting, Turn;
    Books(day, floor, ts, available);
    RowPlaced(day, floor, ts, available, i, x);
    FloorPlaced(day, floor, ts, available, k);
  }

  /** Cash that runs out at x has gone to those served no later. */
  lemma ServedInOrder(day: Day, floor: real, ts: seq<Target>, available: real, j: nat, i: nat, y: Target, x: Target)
    requires GoodTargets(ts) && available >= 0.0 && y in ts && x in ts
    requires var rows := Paycheck(day, floor, ts, available).rows;
      && j < |rows| && rows[j].policyId == y.policyId && rows[j].amount > 0.0
      && i < |rows| && rows[i].policyId == x.policyId && (rows[i].status.Partial? || rows[i].status.UnfundedShortfall?)
    ensures y == x || ServedNoLater(day, y, x)
  {
    PaycheckLaws(day, floor, ts, available);
    hide Paycheck;
    if i == j {
      SameId(ts, y, x);
    } else {
      assert j < i;
      RowsInTurn(day, floor, ts, available, j, i, y, x);
    }
  }

  // ---- what a deposit knows of its month ------------------------------

  /** The deposit after this one, if any, and how many fall on a later day. */
  lemma DayIs(m: Month, ts: seq<Target>, i: nat)
    requires GoodMonth(m, ts) && i < |m.deposits|
    ensures var day, ds := DayOf(m, i), m.deposits;
      && day.payDate == ds[i].date && day.skipped == m.skipped
      && day.next == (if i + 1 < |ds| then Some(ds[i + 1].date) else None)
      && day.after < |ds| - i
      && (forall j :: 0 <= j < |ds| ==> (ds[j].date > ds[i].date <==> |ds| - day.after <= j))
  {
    LastHasNoNext(m, ts, i);
    LaterCounted(Dates(m.deposits), m.deposits[i].date);
    var ds, after := m.deposits, DayOf(m, i).after;
    forall j | 0 <= j < |ds|
      ensures ds[j].date > ds[i].date <==> |ds| - after <= j
    {
      assert Dates(ds)[j] == ds[j].date;
    }
  }

  lemma {:induction false} LaterCounted(dates: seq<int>, date: int)
    requires forall i, j :: 0 <= i < j < |dates| ==> dates[i] <= dates[j]
    ensures |LaterDates(dates, date)| <= |dates|
    ensures forall j :: 0 <= j < |dates| ==> (dates[j] > date <==> |dates| - |LaterDates(dates, date)| <= j)
  {
    var later := (d: int) => d > date;
    FilterIs(dates, later);
    if dates != [] {
      LaterCounted(dates[1..], date);
      assert LaterDates(dates, date) == (if dates[0] > date then [dates[0]] else []) + LaterDates(dates[1..], date);
    }
  }

  /** Without a given date, the next income is the first later one. */
  lemma NextIncomeIs(dates: seq<int>, payDate: int, given: Option<int>)
    requires forall i, j :: 0 <= i < j < |dates| ==> dates[i] <= dates[j]
    ensures match NextIncome(dates, payDate, given)
      case Some(d) => given == Some(d)
        || (given == None && d > payDate && d in dates && forall e :: e in dates && e > payDate ==> d <= e)
      case None => given == None && forall e :: e in dates ==> e <= payDate
  {
    FirstLater(dates, payDate);
  }

  lemma {:induction false} FirstLater(dates: seq<int>, payDate: int)
    requires forall i, j :: 0 <= i < j < |dates| ==> dates[i] <= dates[j]
    ensures var later := LaterDates(dates, payDate);
      if later == [] then forall e :: e in dates ==> e <= payDate
      else later[0] > payDate && later[0] in dates && forall e :: e in dates && e > payDate ==> later[0] <= e
  {
    if dates != [] {
      FirstLater(dates[1..], payDate);
      assert LaterDates(dates, payDate) == (if dates[0] > payDate then [dates[0]] else []) + LaterDates(dates[1..], payDate);
      assert forall e :: e in dates <==> e == dates[0] || e in dates[1..];
      forall e | e in dates
        ensures dates[0] <= e
      {
        var j :| 0 <= j < |dates| && dates[j] == e;
        assert j > 0 ==> dates[0] <= dates[j];
      }
    }
  }

  ghost predicate FirstBuffer(ts: seq<Target>, i: nat)
    requires i < |ts|
  {
    ts[i].purpose == Buffer && forall j :: 0 <= j < i ==> ts[j].purpose != Buffer
  }

  /** The floor a paycheck holds back: the one given, else the amount of the first buffer of the plan. */
  lemma {:induction false} FloorIs(ts: seq<Target>, checkingFloor: Option<real>)
    ensures checkingFloor.Some? ==> FloorOf(ts, checkingFloor) == checkingFloor.value
    ensures checkingFloor.None? && (forall t :: t in ts ==> t.purpose != Buffer) ==> FloorOf(ts, checkingFloor) == 0.0
    ensures forall i :: 0 <= i < |ts| && checkingFloor.None? && FirstBuffer(ts, i) ==> FloorOf(ts, checkingFloor) == ts[i].target
  {
    if checkingFloor.None? && ts != [] && ts[0].purpose != Buffer {
      FloorIs(ts[1..], None);
      forall i | 0 <= i < |ts| && FirstBuffer(ts, i)
        ensures FloorOf(ts, checkingFloor) == ts[i].target
      {
        assert FirstBuffer(ts[1..], i - 1);
      }
    }
  }

  /** A required target due on or after the next deposit gets nothing while a later day still brings money. */
  lemma WaitsForItsDeposit(m: Month, ts: seq<Target>, x: nat, i: nat)
    requires GoodMonth(m, ts) && x < |ts| && i + 1 < |m.deposits|
    requires ts[x].required && ts[x].due.Some? && !(ts[x].protected && ts[x].purpose == Buffer)
    requires m.deposits[i + 1].date <= ts[x].due.value
    requires m.deposits[i].date < m.deposits[|m.deposits| - 1].date
    ensures Ledger(m, ts, i + 1)[x].funded == Ledger(m, ts, i)[x].funded
  {
    hide Paycheck, Ledger, Run, DayOf;
    var rows := Run(m, ts, i).rows;
    LedgerStep(m, ts, i, x);
    DayIs(m, ts, i);
    if k :| 0 <= k < |rows| && rows[k].policyId == ts[x].policyId {
      DeferredRun(m, ts, x, i, k);
      OneRun(m, ts, i, k);
    } else {
      GivenNothing(rows, ts[x].policyId);
    }
  }

  lemma OneRun(m: Month, ts: seq<Target>, i: nat, k: nat)
    requires GoodMonth(m, ts) && i < |m.deposits| && k < |Run(m, ts, i).rows|
    ensures Given(Run(m, ts, i).rows, Run(m, ts, i).rows[k].policyId) == Run(m, ts, i).rows[k].amount
  {
    hide Paycheck, Ledger, FloorOf, DayOf;
    RunLaws(m, ts, i);
    GivenOnce(Run(m, ts, i).rows, k);
  }

  lemma NotTheFloorId(ts: seq<Target>, t: Target)
    requires GoodTargets(ts) && t in ts
    ensures t.policyId != "floor"
  {
  }

  lemma OwnSays(day: Day, t: Target, turn: nat, cash: real, r: Allocation)
    requires Says(day, t, turn, cash, r)
    ensures r.policyId == t.policyId
    ensures turn == 1 && day.after > 0 ==> r.amount == 0.0
  {
  }

  /** The row with a target's id says what that target should. */
  lemma TargetRow(day: Day, floor: real, ts: seq<Target>, available: real, k: nat, t: Target)
    requires GoodTargets(ts) && available >= 0.0 && k < |Paycheck(day, floor, ts, available).rows| && t in ts
    requires Paycheck(day, floor, ts, available).rows[k].policyId == t.policyId
    ensures var rows := Paycheck(day, floor, ts, available).rows;
      Says(day, t, Turn(day, t), available - SumAmounts(rows[..k]), rows[k])
  {
    var rows := Paycheck(day, floor, ts, available).rows;
    NotTheFloorId(ts, t);
    RowsTell(day, floor, ts, available, k);
    assert TargetSays(day, ts, available, rows, k);
    hide Paycheck, Turn, Says, GoodTargets, SumAmounts, FloorSays;
    var cash := available - SumAmounts(rows[..k]);
    var s :| s in ts && Says(day, s, Turn(day, s), cash, rows[k]);
    OwnSays(day, s, Turn(day, s), cash, rows[k]);
    SameId(ts, s, t);
  }

  lemma DeferredRow(day: Day, floor: real, ts: seq<Target>, available: real, k: nat, t: Target)
    requires GoodTargets(ts) && available >= 0.0 && k < |Paycheck(day, floor, ts, available).rows|
    requires t in ts && Turn(day, t) == 1 && day.after > 0
    requires Paycheck(day, floor, ts, available).rows[k].policyId == t.policyId
    ensures Paycheck(day, floor, ts, available).rows[k].amount == 0.0
  {
    hide Paycheck, Turn, Says, GoodTargets, SumAmounts;
    var rows := Paycheck(day, floor, ts, available).rows;
    TargetRow(day, floor, ts, available, k, t);
    OwnSays(day, t, 1, available - SumAmounts(rows[..k]), rows[k]);
  }

  lemma DeferredRun(m: Month, ts: seq<Target>, x: nat, i: nat, k: nat)
    requires GoodMonth(m, ts) && x < |ts| && i < |m.deposits|
    requires Turn(DayOf(m, i), ts[x]) == 1 && DayOf(m, i).after > 0
    requires k < |Run(m, ts, i).rows| && Run(m, ts, i).rows[k].policyId == ts[x].policyId
    ensures Run(m, ts, i).rows[k].amount == 0.0
  {
    LedgerGood(m, ts, i);
    hide Paycheck, Ledger, FloorOf, DayOf;
    var now := Ledger(m, ts, i);
    assert now[x] == ts[x].(funded := now[x].funded);
    DeferredRow(DayOf(m, i), FloorOf(now, m.checkingFloor), now, m.deposits[i].amount, k, now[x]);
  }

  // ---- the shortfall register -----------------------------------------

  /** Short before the next income, or short of an amount whose absence has consequences. */
  predicate Misses(r: Allocation) {
    || ((r.status == Partial || r.status == UnfundedShortfall) && r.urgency in {DueBeforeNextIncome, ProtectedFloor})
    || (r.status != Deferred && r.amount < r.requested && r.purpose in {RequiredDebt, CardStatement, Bill, TaxReserve})
  }

  /** The register, row by row: nothing for no rows, and one more entry for each further row that misses. */
  lemma {:induction false} RegisterIs(rows: seq<Allocation>, r: Allocation)
    ensures ShortfallsOf([]) == []
    ensures ShortfallsOf(rows + [r])
         == ShortfallsOf(rows) + (if Misses(r) then [Shortfall(r.policyId, r.requested, r.amount, r.due)] else [])
  {
    if rows == [] {
      assert [] + [r] == [r];
    } else {
      RegisterIs(rows[1..], r);
      assert (rows + [r])[1..] == rows[1..] + [r];
    }
  }
}
