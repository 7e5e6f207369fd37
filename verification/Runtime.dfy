/** Household snapshots under optimistic transactions, and the caches that each process keeps of them. */
module Runtime {
  import opened Prelude
  import opened OrderedDict

  // ---- the stored row -------------------------------------------------

  /** What a transaction leaves behind: its audit row, the snapshot it read and the one it wrote. */
  datatype Change = Change(revision: nat, action: string, read: string, wrote: string)

  /** A household's row; base is its revision when the run starts, log every commit since. */
  datatype Row = Row(base: nat, first: string, revision: nat, snapshot: string, log: seq<Change>)
  {
    ghost predicate Has(r: nat) {
      base <= r <= base + |log|
    }

    /** The snapshot stored at revision r. */
    function At(r: nat): string
      requires base <= r <= base + |log|
    {
      if r == base then first else log[r - base - 1].wrote
    }
  }

  datatype Begun = Begun(previous: nat, seen: string) | StaleRevision

  function BeginOn(row: Row, expected: Option<nat>): Begun {
    if expected.Some? && row.revision != expected.value then StaleRevision else Begun(row.revision, row.snapshot)
  }

  /** UPDATE ... WHERE revision = previous, with its audit row. */
  function CommitOn(row: Row, previous: nat, seen: string, snapshot: string, action: string): Option<Row> {
    if row.revision != previous then None
    else Some(row.(revision := previous + 1, snapshot := snapshot,
                   log := row.log + [Change(previous + 1, action, seen, snapshot)]))
  }

  class HouseholdRow {
    var revision: nat
    var snapshot: string
    var audit: seq<(nat, string)>
    ghost var row: Row

    ghost predicate Valid()
      reads this
    {
      && row.revision == revision && row.snapshot == snapshot && |audit| == |row.log|
      && forall i :: 0 <= i < |audit| ==> audit[i] == (row.log[i].revision, row.log[i].action)
    }

    constructor (revision: nat, snapshot: string)
      ensures Valid() && row == Row(revision, snapshot, revision, snapshot, [])
    {
      this.revision, this.snapshot, audit := revision, snapshot, [];
      row := Row(revision, snapshot, revision, snapshot, []);
    }

    method Begin(expected: Option<nat>) returns (r: Begun)
      requires Valid()
      ensures r == BeginOn(row, expected)
    {
      if expected.Some? && revision != expected.value {
        return StaleRevision;
      }
      r := Begun(revision, snapshot);
    }

    /** rowcount != 1 raises a conflict and leaves everything as it was. */
    method Commit(previous: nat, ghost seen: string, newSnapshot: string, action: string) returns (won: bool)
      requires Valid()
      modifies this
      ensures Valid()
      ensures var next := CommitOn(old(row), previous, seen, newSnapshot, action);
        won == next.Some? && row == (if won then next.value else old(row))
    {
      if revision != previous {
        return false;
      }
      revision, snapshot := previous + 1, newSnapshot;
      audit := audit + [(previous + 1, action)];
      row := row.(revision := previous + 1, snapshot := newSnapshot,
                  log := row.log + [Change(previous + 1, action, seen, newSnapshot)]);
      won := true;
    }
  }

  // ---- what a process caches ------------------------------------------

  datatype Key = Key(household: nat, revision: nat, day: int)

  datatype Dashboard = Dashboard(revision: nat, asOf: int, body: string)

  datatype Bootstrap = Bootstrap(revision: nat, dashboard: Dashboard, workspace: string)

  datatype Caches = Caches(dash: seq<Pair<Key, Dashboard>>, boot: seq<Pair<Key, Bootstrap>>)

  const MAX_ENTRIES: nat := 128

  /** get, and move_to_end on a hit. */
  function Touch<V>(d: seq<Pair<Key, V>>, key: Key): seq<Pair<Key, V>> {
    var item := Get(d, key);
    if item.None? then d else PutLast(d, key, item.value)
  }

  function Store<V>(d: seq<Pair<Key, V>>, key: Key, value: V): seq<Pair<Key, V>> {
    Trim(Assign(d, key, value), MAX_ENTRIES)
  }

  function Dropped<V>(d: seq<Pair<Key, V>>, household: nat): seq<Pair<Key, V>> {
    if d == [] then []
    else (if d[0].key.household == household then [] else [d[0]]) + Dropped(d[1..], household)
  }

  function Invalidated(c: Caches, household: nat): Caches {
    Caches(Dropped(c.dash, household), Dropped(c.boot, household))
  }

  class Process {
    var dash: seq<Pair<Key, Dashboard>>
    var boot: seq<Pair<Key, Bootstrap>>

    constructor ()
      ensures Value() == Caches([], [])
    {
      dash, boot := [], [];
    }

    function Value(): Caches
      reads this
    {
      Caches(dash, boot)
    }

    method LookupBootstrap(key: Key) returns (r: Option<Bootstrap>)
      modifies this`boot
      ensures r == Get(old(boot), key) && boot == Touch(old(boot), key)
    {
      r := Get(boot, key);
      if r.Some? {
        boot := PutLast(boot, key, r.value);
      }
    }

    method LookupDashboard(key: Key) returns (r: Option<Dashboard>)
      modifies this`dash
      ensures r == Get(old(dash), key) && dash == Touch(old(dash), key)
    {
      r := Get(dash, key);
      if r.Some? {
        dash := PutLast(dash, key, r.value);
      }
    }

    method StoreBootstrap(key: Key, value: Bootstrap)
      modifies this`boot
      ensures boot == Store(old(boot), key, value)
    {
      boot := Assign(boot, key, value);
      ghost var full, gone := boot, 0;
      while |boot| > MAX_ENTRIES
        invariant gone <= |full| && boot == full[gone..]
        invariant gone > 0 ==> |boot| >= MAX_ENTRIES
        decreases |boot|
      {
        boot := boot[1..];
        gone := gone + 1;
      }
    }

    method StoreDashboard(key: Key, value: Dashboard)
      modifies this`dash
      ensures dash == Store(old(dash), key, value)
    {
      dash := Assign(dash, key, value);
      ghost var full, gone := dash, 0;
      while |dash| > MAX_ENTRIES
        invariant gone <= |full| && dash == full[gone..]
        invariant gone > 0 ==> |dash| >= MAX_ENTRIES
        decreases |dash|
      {
        dash := dash[1..];
        gone := gone + 1;
      }
    }

    /** for key in list(cache): the household's keys are popped one by one. */
    static method PopHousehold<V>(cache: seq<Pair<Key, V>>, household: nat) returns (d: seq<Pair<Key, V>>)
      ensures d == Dropped(cache, household)
    {
      hide Dropped, Without;
      d := cache;
      for i := 0 to |cache|
        invariant Dropped(d, household) == Dropped(cache, household)
        invariant forall p :: p in d ==> p in cache
        invariant forall j :: 0 <= j < i && cache[j].key.household == household ==> cache[j] !in d
      {
        var key := cache[i].key;
        if key.household == household {
          WithoutHolds(d, key);
          PopKeepsOthers(d, key);
          d := Without(d, key);
        }
      }
      NoneToDrop(d, household);
    }

    /** After a commit: every entry of the household goes, whatever its revision. */
    method Invalidate(household: nat)
      modifies this
      ensures Value() == Invalidated(old(Value()), household)
      ensures forall p :: p in dash <==> p in old(dash) && p.key.household != household
      ensures forall p :: p in boot <==> p in old(boot) && p.key.household != household
    {
      hide Dropped;
      dash := PopHousehold(dash, household);
      boot := PopHousehold(boot, household);
      DashLeft(old(dash), dash, household);
      BootLeft(old(boot), boot, household);
    }
  }

  lemma {:induction false} DroppedIn<V>(d: seq<Pair<Key, V>>, h: nat)
    ensures forall p :: p in Dropped(d, h) <==> p in d && p.key.household != h
    ensures forall j :: 0 <= j < |Dropped(d, h)| ==> Dropped(d, h)[j] in d
    ensures |Dropped(d, h)| <= |d|
  {
    if d != [] {
      assert d == [d[0]] + d[1..];
      DroppedIn(d[1..], h);
    }
  }

  lemma DashLeft(d: seq<Pair<Key, Dashboard>>, left: seq<Pair<Key, Dashboard>>, h: nat)
    requires left == Dropped(d, h)
    ensures forall p :: p in left <==> p in d && p.key.household != h
  {
    DroppedIn(d, h);
  }

  lemma BootLeft(d: seq<Pair<Key, Bootstrap>>, left: seq<Pair<Key, Bootstrap>>, h: nat)
    requires left == Dropped(d, h)
    ensures forall p :: p in left <==> p in d && p.key.household != h
  {
    DroppedIn(d, h);
  }

  lemma {:induction false} PopKeepsOthers<V>(d: seq<Pair<Key, V>>, key: Key)
    ensures Dropped(Without(d, key), key.household) == Dropped(d, key.household)
  {
    if d != [] {
      PopKeepsOthers(d[1..], key);
      var w := Without(d[1..], key);
      if d[0].key != key {
        assert Without(d, key) == [d[0]] + w;
        assert ([d[0]] + w)[1..] == w;
      } else {
        assert Without(d, key) == w;
      }
    }
  }

  lemma {:induction false} NoneToDrop<V>(d: seq<Pair<Key, V>>, household: nat)
    requires forall p :: p in d ==> p.key.household != household
    ensures Dropped(d, household) == d
  {
    if d != [] {
      assert d[0] in d && forall p :: p in d[1..] ==> p in d;
      NoneToDrop(d[1..], household);
    }
  }

  // ---- the views ------------------------------------------------------

  /** The engines behind a page, as functions of the stored snapshot and the day it is read for. */
  datatype App = App(asOf: (string, int) -> int, dashboard: (string, int) -> string,
                     workspace: (string, int) -> string)

  function DashboardOf(app: App, snapshot: string, revision: nat, asOf: int): Dashboard {
    Dashboard(revision, asOf, app.dashboard(snapshot, asOf))
  }

  function BootstrapOf(app: App, snapshot: string, revision: nat, today: int): Bootstrap {
    var asOf := app.asOf(snapshot, today);
    Bootstrap(revision, DashboardOf(app, snapshot, revision, asOf), app.workspace(snapshot, asOf))
  }

  // ---- steps ----------------------------------------------------------

  /** A request in progress: household, process, and for readers the revision and day it started with. */
  datatype Session =
    | Writer(proc: nat, household: nat, action: string, previous: nat, seen: string)
    | Committed(proc: nat, household: nat)
    | Started(proc: nat, household: nat, from: nat, day: int)
    | Missed(proc: nat, household: nat, from: nat, day: int)
    | Loaded(proc: nat, household: nat, from: nat, day: int, revision: nat, snapshot: string, asOf: int)
    | Computed(proc: nat, household: nat, from: nat, day: int, revision: nat, snapshot: string, dash: Dashboard)
    | Dashed(proc: nat, household: nat, from: nat, day: int, revision: nat, snapshot: string, dash: Dashboard)
    | Replied(household: nat, from: nat, day: int, reply: Bootstrap)

  datatype State = State(
    db: map<nat, Row>, procs: map<nat, Caches>, sessions: map<nat, Session>, today: int)
  {
    function CachesOf(p: nat): Caches {
      if p in procs then procs[p] else Caches([], [])
    }

    function With(s: nat, session: Session): State {
      this.(sessions := sessions[s := session])
    }

    function Ended(s: nat): State {
      this.(sessions := sessions - {s})
    }
  }

  datatype Event =
    | Begin(s: nat, proc: nat, household: nat, action: string, expected: Option<nat>)
    | Commit(s: nat, snapshot: string)
    | Rollback(s: nat)
    | Invalidate(s: nat)
    | BootStart(s: nat, proc: nat, household: nat)
    | BootLookup(s: nat)
    | ReadRow(s: nat)
    | DashLookup(s: nat)
    | DashStore(s: nat)
    | BootStore(s: nat)
    | Midnight

  function StepBegin(st: State, s: nat, proc: nat, h: nat, action: string, expected: Option<nat>): State {
    if s in st.sessions || h !in st.db then st
    else
      match BeginOn(st.db[h], expected)
      case StaleRevision => st
      case Begun(previous, seen) => st.With(s, Writer(proc, h, action, previous, seen))
  }

  function StepCommit(st: State, s: nat, snapshot: string): State {
    if s !in st.sessions || !st.sessions[s].Writer? || st.sessions[s].household !in st.db then st
    else
      var w := st.sessions[s];
      match CommitOn(st.db[w.household], w.previous, w.seen, snapshot, w.action)
      case None => st.Ended(s)
      case Some(row) => st.With(s, Committed(w.proc, w.household)).(db := st.db[w.household := row])
  }

  function StepInvalidate(st: State, s: nat): State {
    if s !in st.sessions || !st.sessions[s].Committed? then st
    else
      var w := st.sessions[s];
      st.Ended(s).(procs := st.procs[w.proc := Invalidated(st.CachesOf(w.proc), w.household)])
  }

  function StepBootStart(st: State, s: nat, proc: nat, h: nat): State {
    if s in st.sessions || h !in st.db then st
    else st.With(s, Started(proc, h, st.db[h].revision, st.today))
  }

  function StepBootLookup(st: State, s: nat): State {
    if s !in st.sessions || !st.sessions[s].Started? then st
    else
      var r := st.sessions[s];
      var c, key := st.CachesOf(r.proc), Key(r.household, r.from, r.day);
      match Get(c.boot, key)
      case None => st.With(s, Missed(r.proc, r.household, r.from, r.day))
      case Some(data) =>
        st.With(s, Replied(r.household, r.from, r.day, data)).(
          procs := st.procs[r.proc := c.(boot := Touch(c.boot, key))])
  }

  function StepReadRow(app: App, st: State, s: nat): State {
    if s !in st.sessions || !st.sessions[s].Missed? || st.sessions[s].household !in st.db then st
    else
      var r := st.sessions[s];
      var row := st.db[r.household];
      st.With(s, Loaded(r.proc, r.household, r.from, r.day, row.revision, row.snapshot,
                        app.asOf(row.snapshot, st.today)))
  }

  function StepDashLookup(app: App, st: State, s: nat): State {
    if s !in st.sessions || !st.sessions[s].Loaded? then st
    else
      var r := st.sessions[s];
      var c, key := st.CachesOf(r.proc), Key(r.household, r.revision, r.asOf);
      match Get(c.dash, key)
      case None =>
        st.With(s, Computed(r.proc, r.household, r.from, r.day, r.revision, r.snapshot,
                            DashboardOf(app, r.snapshot, r.revision, r.asOf)))
      case Some(data) =>
        st.With(s, Dashed(r.proc, r.household, r.from, r.day, r.revision, r.snapshot, data)).(
          procs := st.procs[r.proc := c.(dash := Touch(c.dash, key))])
  }

  function StepDashStore(st: State, s: nat): State {
    if s !in st.sessions || !st.sessions[s].Computed? then st
    else
      var r := st.sessions[s];
      var c, key := st.CachesOf(r.proc), Key(r.household, r.revision, r.dash.asOf);
      st.With(s, Dashed(r.proc, r.household, r.from, r.day, r.revision, r.snapshot, r.dash)).(
        procs := st.procs[r.proc := c.(dash := Store(c.dash, key, r.dash))])
  }

  /** The entry goes under the revision that was read, and the day the request started on. */
  function StepBootStore(app: App, st: State, s: nat): State {
    if s !in st.sessions || !st.sessions[s].Dashed? then st
    else
      var r := st.sessions[s];
      var c, key := st.CachesOf(r.proc), Key(r.household, r.revision, r.day);
      var data := Bootstrap(r.revision, r.dash, app.workspace(r.snapshot, r.dash.asOf));
      st.With(s, Replied(r.household, r.from, r.day, data)).(
        procs := st.procs[r.proc := c.(boot := Store(c.boot, key, data))])
  }

  function Step(app: App, st: State, e: Event): State {
    match e
    case Begin(s, proc, h, action, expected) => StepBegin(st, s, proc, h, action, expected)
    case Commit(s, snapshot) => StepCommit(st, s, snapshot)
    case Rollback(s) => if s in st.sessions && st.sessions[s].Writer? then st.Ended(s) else st
    case Invalidate(s) => StepInvalidate(st, s)
    case BootStart(s, proc, h) => StepBootStart(st, s, proc, h)
    case BootLookup(s) => StepBootLookup(st, s)
    case ReadRow(s) => StepReadRow(app, st, s)
    case DashLookup(s) => StepDashLookup(app, st, s)
    case DashStore(s) => StepDashStore(st, s)
    case BootStore(s) => StepBootStore(app, st, s)
    case Midnight => st.(today := st.today + 1)
  }

  function After(app: App, st: State, run: seq<Event>): State {
    if run == [] then st else Step(app, After(app, st, run[..|run| - 1]), run[|run| - 1])
  }
}
