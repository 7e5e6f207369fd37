/** What every interleaving of transactions and page requests keeps. */
module RuntimeLaws {
  import opened Prelude
  import opened OrderedDict
  import opened Runtime

  // ---- the row: one commit per revision, each from the one before -----

  /** Commit i made the next revision, from the snapshot stored just before it. */
  ghost predicate InOrder(row: Row, i: nat)
    requires i < |row.log|
  {
    row.log[i].revision == row.base + 1 + i && row.log[i].read == row.At(row.base + i)
  }

  ghost predicate RowGood(row: Row) {
    && row.revision == row.base + |row.log|
    && row.snapshot == row.At(row.revision)
    && forall i: nat :: i < |row.log| ==> InOrder(row, i)
  }

  ghost predicate Extends(a: Row, b: Row) {
    a.base == b.base && a.first == b.first && a.log <= b.log
  }

  lemma ExtendsKeeps(a: Row, b: Row, r: nat)
    requires Extends(a, b) && a.Has(r)
    ensures b.Has(r) && b.At(r) == a.At(r)
  {
  }

  lemma NextEntry(row: Row, next: Row, i: nat)
    requires RowGood(row) && Extends(row, next) && |next.log| == |row.log| + 1 && i <= |row.log|
    requires next.log[|row.log|].revision == row.revision + 1 && next.log[|row.log|].read == row.snapshot
    ensures InOrder(next, i)
  {
    ExtendsKeeps(row, next, row.base + i);
    hide Row.At;
    if i < |row.log| {
      assert InOrder(row, i) && next.log[i] == row.log[i];
    }
  }

  lemma NextRow(row: Row, c: Change)
    requires RowGood(row) && c.revision == row.revision + 1 && c.read == row.snapshot
    ensures var next := row.(revision := c.revision, snapshot := c.wrote, log := row.log + [c]);
      RowGood(next) && Extends(row, next)
  {
    var next := row.(revision := c.revision, snapshot := c.wrote, log := row.log + [c]);
    assert next.At(next.revision) == c.wrote;
    hide Row.At;
    forall i: nat | i < |next.log|
      ensures InOrder(next, i)
    {
      NextEntry(row, next, i);
    }
  }

  /** The compare-and-set: exactly one new revision, computed from the snapshot just before it. */
  lemma CommitKeepsRow(row: Row, previous: nat, seen: string, snapshot: string, action: string)
    requires RowGood(row) && row.Has(previous) && seen == row.At(previous)
    ensures var next := CommitOn(row, previous, seen, snapshot, action);
      && (next.Some? <==> previous == row.revision)
      && (next.Some? ==> RowGood(next.value) && Extends(row, next.value) && next.value.revision == row.revision + 1)
  {
    if previous == row.revision {
      NextRow(row, Change(previous + 1, action, seen, snapshot));
    }
    hide RowGood, Extends, Row.At;
  }

  // ---- entries and sessions -------------------------------------------

  ghost predicate Known(db: map<nat, Row>, h: nat, r: nat) {
    h in db && db[h].Has(r)
  }

  ghost predicate DashGood(app: App, db: map<nat, Row>, h: nat, r: nat, asOf: int, d: Dashboard) {
    Known(db, h, r) && d == DashboardOf(app, db[h].At(r), r, asOf)
  }

  /** A page of one revision throughout; on quiet runs, the page recomputed for the key's day. */
  ghost predicate BootGood(app: App, db: map<nat, Row>, quiet: bool, key: Key, b: Bootstrap) {
    && Known(db, key.household, key.revision)
    && var snapshot := db[key.household].At(key.revision);
    && b.revision == key.revision
    && b.dashboard == DashboardOf(app, snapshot, b.revision, b.dashboard.asOf)
    && b.workspace == app.workspace(snapshot, b.dashboard.asOf)
    && (quiet ==> b == BootstrapOf(app, snapshot, key.revision, key.day))
  }

  ghost predicate DashCacheGood(app: App, db: map<nat, Row>, d: seq<Pair<Key, Dashboard>>) {
    && |d| <= MAX_ENTRIES
    && forall p :: p in d ==> DashGood(app, db, p.key.household, p.key.revision, p.key.day, p.value)
  }

  ghost predicate BootCacheGood(app: App, db: map<nat, Row>, quiet: bool, d: seq<Pair<Key, Bootstrap>>) {
    && |d| <= MAX_ENTRIES
    && forall p :: p in d ==> BootGood(app, db, quiet, p.key, p.value)
  }

  ghost predicate CachesGood(app: App, db: map<nat, Row>, quiet: bool, c: Caches) {
    DashCacheGood(app, db, c.dash) && BootCacheGood(app, db, quiet, c.boot)
  }

  /** A reader past its database read: one revision's data, no older than the one it started from. */
  ghost predicate ReadGood(app: App, db: map<nat, Row>, quiet: bool, h: nat, from: nat, day: int,
                           revision: nat, snapshot: string, asOf: int) {
    && from <= revision && Known(db, h, revision) && snapshot == db[h].At(revision)
    && (quiet ==> asOf == app.asOf(snapshot, day))
  }

  ghost predicate SessionGood(app: App, db: map<nat, Row>, quiet: bool, s: Session) {
    match s
    case Writer(_, h, _, previous, seen) => Known(db, h, previous) && seen == db[h].At(previous)
    case Committed(_, _) => true
    case Started(_, h, from, _) => Known(db, h, from)
    case Missed(_, h, from, _) => Known(db, h, from)
    case Loaded(_, h, from, day, r, snapshot, asOf) => ReadGood(app, db, quiet, h, from, day, r, snapshot, asOf)
    case Computed(_, h, from, day, r, snapshot, d) =>
      ReadGood(app, db, quiet, h, from, day, r, snapshot, d.asOf) && d == DashboardOf(app, snapshot, r, d.asOf)
    case Dashed(_, h, from, day, r, snapshot, d) =>
      ReadGood(app, db, quiet, h, from, day, r, snapshot, d.asOf) && d == DashboardOf(app, snapshot, r, d.asOf)
    case Replied(h, from, day, reply) =>
      from <= reply.revision && BootGood(app, db, quiet, Key(h, reply.revision, day), reply)
  }

  ghost predicate DbGood(db: map<nat, Row>) {
    forall h :: h in db ==> RowGood(db[h])
  }

  ghost predicate Good(app: App, quiet: bool, st: State) {
    && DbGood(st.db)
    && (forall p :: p in st.procs ==> CachesGood(app, st.db, quiet, st.procs[p]))
    && (forall s :: s in st.sessions ==> SessionGood(app, st.db, quiet, st.sessions[s]))
  }

  /** Every household's history continues the earlier one. */
  ghost predicate Continues(a: map<nat, Row>, b: map<nat, Row>) {
    forall h :: h in a ==> h in b && Extends(a[h], b[h])
  }

  lemma EntriesContinue(app: App, quiet: bool, a: map<nat, Row>, b: map<nat, Row>, c: Caches)
    requires Continues(a, b) && CachesGood(app, a, quiet, c)
    ensures CachesGood(app, b, quiet, c)
  {
    hide DashboardOf, BootstrapOf, Row.At;
    forall p | p in c.dash
      ensures DashGood(app, b, p.key.household, p.key.revision, p.key.day, p.value)
    {
      ExtendsKeeps(a[p.key.household], b[p.key.household], p.key.revision);
    }
    forall p | p in c.boot
      ensures BootGood(app, b, quiet, p.key, p.value)
    {
      ExtendsKeeps(a[p.key.household], b[p.key.household], p.key.revision);
    }
  }

  lemma SessionContinues(app: App, quiet: bool, a: map<nat, Row>, b: map<nat, Row>, s: Session)
    requires Continues(a, b) && SessionGood(app, a, quiet, s)
    ensures SessionGood(app, b, quiet, s)
  {
    hide DashboardOf, BootstrapOf, Row.At;
    match s
    case Writer(_, h, _, r, _) => ExtendsKeeps(a[h], b[h], r);
    case Committed(_, _) =>
    case Started(_, h, r, _) => ExtendsKeeps(a[h], b[h], r);
    case Missed(_, h, r, _) => ExtendsKeeps(a[h], b[h], r);
    case Loaded(_, h, _, _, r, _, _) => ExtendsKeeps(a[h], b[h], r);
    case Computed(_, h, _, _, r, _, _) => ExtendsKeeps(a[h], b[h], r);
    case Dashed(_, h, _, _, r, _, _) => ExtendsKeeps(a[h], b[h], r);
    case Replied(h, _, _, reply) => ExtendsKeeps(a[h], b[h], reply.revision);
  }

  /** A step that continues the database and moves one session to a good place. */
  lemma SessionMoves(app: App, quiet: bool, st: State, next: State, s: nat)
    requires Good(app, quiet, st) && Continues(st.db, next.db) && DbGood(next.db)
    requires s in next.sessions ==> SessionGood(app, next.db, quiet, next.sessions[s])
    requires next.sessions - {s} == st.sessions - {s}
    requires next.procs == st.procs
    ensures Good(app, quiet, next)
  {
    hide SessionGood, CachesGood, Extends, RowGood;
    forall q | q in next.procs
      ensures CachesGood(app, next.db, quiet, next.procs[q])
    {
      EntriesContinue(app, quiet, st.db, next.db, st.procs[q]);
    }
    forall t | t in next.sessions
      ensures SessionGood(app, next.db, quiet, next.sessions[t])
    {
      if t != s {
        assert t in next.sessions - {s} && next.sessions[t] == (st.sessions - {s})[t];
        SessionContinues(app, quiet, st.db, next.db, st.sessions[t]);
      }
    }
  }

  /** A step that also leaves one process with good caches. */
  lemma ProcessMoves(app: App, quiet: bool, st: State, next: State, s: nat, p: nat, c: Caches)
    requires Good(app, quiet, st) && next.db == st.db
    requires s in next.sessions ==> SessionGood(app, st.db, quiet, next.sessions[s])
    requires next.sessions - {s} == st.sessions - {s}
    requires next.procs == st.procs[p := c] && CachesGood(app, st.db, quiet, c)
    ensures Good(app, quiet, next)
  {
    SameDb(st.db);
    hide SessionGood, CachesGood, RowGood, Continues;
    SessionMoves(app, quiet, st, next.(procs := st.procs), s);
  }

  lemma SameDb(db: map<nat, Row>)
    ensures Continues(db, db)
  {
  }

  // ---- the caches' operations -----------------------------------------

  lemma TouchIn<V>(d: seq<Pair<Key, V>>, key: Key)
    ensures forall p :: p in Touch(d, key) ==> p in d
    ensures |Touch(d, key)| <= |d|
  {
    GetIs(d, key);
    WithoutIs(d, key);
    if Get(d, key).Some? {
      TouchCounts(d, key);
      var w, q := Without(d, key), Pair(key, Get(d, key).value);
      assert q in d;
      WithoutHolds(d, key);
      assert forall i :: 0 <= i < |w + [q]| ==> (w + [q])[i] in d;
    }
  }

  lemma {:induction false} TouchCounts<V>(d: seq<Pair<Key, V>>, key: Key)
    requires Get(d, key).Some?
    ensures |Without(d, key)| < |d|
  {
    WithoutIs(d[1..], key);
    if d[0].key != key {
      TouchCounts(d[1..], key);
    }
  }

  lemma StoreIn<V>(d: seq<Pair<Key, V>>, key: Key, value: V)
    ensures forall p :: p in Store(d, key, value) ==> p in d || p == Pair(key, value)
    ensures |Store(d, key, value)| <= MAX_ENTRIES
  {
    AssignIs(d, key, value);
  }

  // ---- steps ----------------------------------------------------------

  lemma OneRowContinues(db: map<nat, Row>, h: nat, row: Row)
    requires DbGood(db) && h in db && RowGood(row) && Extends(db[h], row)
    ensures DbGood(db[h := row]) && Continues(db, db[h := row])
  {
    hide RowGood;
  }

  lemma CommitStaysGood(app: App, quiet: bool, st: State, s: nat, snapshot: string)
    requires Good(app, quiet, st)
    ensures Good(app, quiet, StepCommit(st, s, snapshot)) && Continues(st.db, StepCommit(st, s, snapshot).db)
  {
    hide RowGood, CachesGood, Row.At, Extends, Continues, DbGood;
    SameDb(st.db);
    var next := StepCommit(st, s, snapshot);
    if s in st.sessions && st.sessions[s].Writer? && st.sessions[s].household in st.db {
      var w := st.sessions[s];
      assert SessionGood(app, st.db, quiet, w);
      CommitKeeps(st.db, w, snapshot);
      SessionMoves(app, quiet, st, next, s);
    }
  }

  lemma CommitKeeps(db: map<nat, Row>, w: Session, snapshot: string)
    requires DbGood(db) && w.Writer? && Known(db, w.household, w.previous) && w.seen == db[w.household].At(w.previous)
    ensures var next := CommitOn(db[w.household], w.previous, w.seen, snapshot, w.action);
      next.Some? ==> DbGood(db[w.household := next.value]) && Continues(db, db[w.household := next.value])
  {
    hide RowGood, Row.At, Extends, Continues;
    CommitKeepsRow(db[w.household], w.previous, w.seen, snapshot, w.action);
    var next := CommitOn(db[w.household], w.previous, w.seen, snapshot, w.action);
    if next.Some? {
      OneRowContinues(db, w.household, next.value);
    }
  }

  lemma DashTouched(app: App, db: map<nat, Row>, quiet: bool, c: Caches, key: Key)
    requires CachesGood(app, db, quiet, c)
    ensures CachesGood(app, db, quiet, c.(dash := Touch(c.dash, key)))
    ensures Get(c.dash, key).Some? ==> DashGood(app, db, key.household, key.revision, key.day, Get(c.dash, key).value)
  {
    hide DashGood, BootCacheGood, Touch;
    TouchIn(c.dash, key);
    GetIs(c.dash, key);
  }

  lemma BootTouched(app: App, db: map<nat, Row>, quiet: bool, c: Caches, key: Key)
    requires CachesGood(app, db, quiet, c)
    ensures CachesGood(app, db, quiet, c.(boot := Touch(c.boot, key)))
    ensures Get(c.boot, key).Some? ==> BootGood(app, db, quiet, key, Get(c.boot, key).value)
  {
    hide BootGood, DashCacheGood, Touch;
    TouchIn(c.boot, key);
    GetIs(c.boot, key);
  }

  lemma DashStored(app: App, db: map<nat, Row>, quiet: bool, c: Caches, key: Key, d: Dashboard)
    requires CachesGood(app, db, quiet, c) && DashGood(app, db, key.household, key.revision, key.day, d)
    ensures CachesGood(app, db, quiet, c.(dash := Store(c.dash, key, d)))
  {
    hide DashGood, BootCacheGood, Store;
    StoreIn(c.dash, key, d);
  }

  lemma BootStored(app: App, db: map<nat, Row>, quiet: bool, c: Caches, key: Key, b: Bootstrap)
    requires CachesGood(app, db, quiet, c) && BootGood(app, db, quiet, key, b)
    ensures CachesGood(app, db, quiet, c.(boot := Store(c.boot, key, b)))
  {
    hide BootGood, DashCacheGood, Store;
    StoreIn(c.boot, key, b);
  }

  lemma Dropping(app: App, db: map<nat, Row>, quiet: bool, c: Caches, h: nat)
    requires CachesGood(app, db, quiet, c)
    ensures CachesGood(app, db, quiet, Invalidated(c, h))
  {
    hide BootGood, DashGood;
    DroppedIn(c.dash, h);
    DroppedIn(c.boot, h);
  }

  lemma ProcessGood(app: App, quiet: bool, st: State, p: nat)
    requires Good(app, quiet, st)
    ensures CachesGood(app, st.db, quiet, st.CachesOf(p))
  {
    hide DashGood, BootGood;
    if p !in st.procs {
      assert CachesGood(app, st.db, quiet, Caches([], []));
    }
  }

  /** The row is read for the day the request started on: no midnight in between, or a household of fixed date. */
  ghost predicate QuietStep(app: App, st: State, e: Event) {
    e.ReadRow? && e.s in st.sessions && st.sessions[e.s].Missed? && st.sessions[e.s].household in st.db ==>
      var r := st.sessions[e.s];
      var snapshot := st.db[r.household].snapshot;
      app.asOf(snapshot, st.today) == app.asOf(snapshot, r.day)
  }

  lemma WriterStepsStayGood(app: App, quiet: bool, st: State, e: Event)
    requires Good(app, quiet, st) && (e.Begin? || e.Rollback? || e.Midnight?)
    ensures Good(app, quiet, Step(app, st, e)) && Step(app, st, e).db == st.db
  {
    hide CachesGood, Row.At, Extends;
    SameDb(st.db);
    match e
    case Begin(s, _, h, _, _) =>
      if Step(app, st, e) != st {
        RowKnows(st.db[h]);
        SessionMoves(app, quiet, st, Step(app, st, e), s);
      }
    case Rollback(s) => SessionMoves(app, quiet, st, Step(app, st, e), s);
    case Midnight =>
  }

  lemma RowKnows(row: Row)
    requires RowGood(row)
    ensures row.Has(row.revision) && row.At(row.revision) == row.snapshot
    ensures forall r: nat :: row.Has(r) ==> r <= row.revision
  {
  }

  lemma InvalidateStaysGood(app: App, quiet: bool, st: State, s: nat)
    requires Good(app, quiet, st)
    ensures Good(app, quiet, StepInvalidate(st, s)) && StepInvalidate(st, s).db == st.db
  {
    hide CachesGood, SessionGood, RowGood, Invalidated;
    if s in st.sessions && st.sessions[s].Committed? {
      var w := st.sessions[s];
      ProcessGood(app, quiet, st, w.proc);
      Dropping(app, st.db, quiet, st.CachesOf(w.proc), w.household);
      ProcessMoves(app, quiet, st, StepInvalidate(st, s), s, w.proc, Invalidated(st.CachesOf(w.proc), w.household));
    }
  }

  lemma BootStartStaysGood(app: App, quiet: bool, st: State, s: nat, proc: nat, h: nat)
    requires Good(app, quiet, st)
    ensures Good(app, quiet, StepBootStart(st, s, proc, h)) && StepBootStart(st, s, proc, h).db == st.db
  {
    hide CachesGood, Row.At, Extends;
    SameDb(st.db);
    if s !in st.sessions && h in st.db {
      RowKnows(st.db[h]);
      SessionMoves(app, quiet, st, StepBootStart(st, s, proc, h), s);
    }
  }

  lemma BootLookupStaysGood(app: App, quiet: bool, st: State, s: nat)
    requires Good(app, quiet, st)
    ensures Good(app, quiet, StepBootLookup(st, s)) && StepBootLookup(st, s).db == st.db
  {
    hide CachesGood, RowGood, Touch, DashboardOf, BootstrapOf, Row.At, Extends;
    SameDb(st.db);
    if s in st.sessions && st.sessions[s].Started? {
      var r, next := st.sessions[s], StepBootLookup(st, s);
      var c, key := st.CachesOf(r.proc), Key(r.household, r.from, r.day);
      ProcessGood(app, quiet, st, r.proc);
      BootTouched(app, st.db, quiet, c, key);
      if Get(c.boot, key).None? {
        SessionMoves(app, quiet, st, next, s);
      } else {
        ProcessMoves(app, quiet, st, next, s, r.proc, c.(boot := Touch(c.boot, key)));
      }
    }
  }

  lemma ReadRowStaysGood(app: App, quiet: bool, st: State, s: nat)
    requires Good(app, quiet, st) && (quiet ==> QuietStep(app, st, ReadRow(s)))
    ensures Good(app, quiet, StepReadRow(app, st, s)) && StepReadRow(app, st, s).db == st.db
  {
    hide CachesGood, DashboardOf, BootstrapOf, Row.At, Extends;
    SameDb(st.db);
    if s in st.sessions && st.sessions[s].Missed? {
      var r := st.sessions[s];
      assert SessionGood(app, st.db, quiet, r);
      RowKnows(st.db[r.household]);
      SessionMoves(app, quiet, st, StepReadRow(app, st, s), s);
    }
  }

  lemma DashLookupStaysGood(app: App, quiet: bool, st: State, s: nat)
    requires Good(app, quiet, st)
    ensures Good(app, quiet, StepDashLookup(app, st, s)) && StepDashLookup(app, st, s).db == st.db
  {
    hide CachesGood, RowGood, Touch, Row.At, Extends;
    SameDb(st.db);
    if s in st.sessions && st.sessions[s].Loaded? {
      var r, next := st.sessions[s], StepDashLookup(app, st, s);
      var c, key := st.CachesOf(r.proc), Key(r.household, r.revision, r.asOf);
      assert SessionGood(app, st.db, quiet, r);
      ProcessGood(app, quiet, st, r.proc);
      DashTouched(app, st.db, quiet, c, key);
      if Get(c.dash, key).None? {
        SessionMoves(app, quiet, st, next, s);
      } else {
        ProcessMoves(app, quiet, st, next, s, r.proc, c.(dash := Touch(c.dash, key)));
      }
    }
  }

  lemma DashStoreStaysGood(app: App, quiet: bool, st: State, s: nat)
    requires Good(app, quiet, st)
    ensures Good(app, quiet, StepDashStore(st, s)) && StepDashStore(st, s).db == st.db
  {
    hide CachesGood, RowGood, Store, Row.At, Extends;
    if s in st.sessions && st.sessions[s].Computed? {
      var r := st.sessions[s];
      var c, key := st.CachesOf(r.proc), Key(r.household, r.revision, r.dash.asOf);
      assert SessionGood(app, st.db, quiet, r);
      ProcessGood(app, quiet, st, r.proc);
      DashStored(app, st.db, quiet, c, key, r.dash);
      ProcessMoves(app, quiet, st, StepDashStore(st, s), s, r.proc, c.(dash := Store(c.dash, key, r.dash)));
    }
  }

  lemma BootStoreStaysGood(app: App, quiet: bool, st: State, s: nat)
    requires Good(app, quiet, st)
    ensures Good(app, quiet, StepBootStore(app, st, s)) && StepBootStore(app, st, s).db == st.db
  {
    hide CachesGood, RowGood, Store, Row.At, Extends;
    if s in st.sessions && st.sessions[s].Dashed? {
      var r := st.sessions[s];
      var c, key := st.CachesOf(r.proc), Key(r.household, r.revision, r.day);
      var data := Bootstrap(r.revision, r.dash, app.workspace(r.snapshot, r.dash.asOf));
      assert SessionGood(app, st.db, quiet, r);
      ProcessGood(app, quiet, st, r.proc);
      BootStored(app, st.db, quiet, c, key, data);
      ProcessMoves(app, quiet, st, StepBootStore(app, st, s), s, r.proc, c.(boot := Store(c.boot, key, data)));
    }
  }

  /** Any step of any session keeps the state good and continues every household's history. */
  lemma StepStaysGood(app: App, quiet: bool, st: State, e: Event)
    requires Good(app, quiet, st) && (quiet ==> QuietStep(app, st, e))
    ensures Good(app, quiet, Step(app, st, e)) && Continues(st.db, Step(app, st, e).db)
  {
    SameDb(st.db);
    hide Good, QuietStep, Continues, StepBegin, StepCommit, StepInvalidate, StepBootStart, StepBootLookup, StepReadRow,
         StepDashLookup, StepDashStore, StepBootStore;
    match e
    case Commit(s, snapshot) => CommitStaysGood(app, quiet, st, s, snapshot);
    case Invalidate(s) => InvalidateStaysGood(app, quiet, st, s);
    case BootStart(s, proc, h) => BootStartStaysGood(app, quiet, st, s, proc, h);
    case BootLookup(s) => BootLookupStaysGood(app, quiet, st, s);
    case ReadRow(s) => ReadRowStaysGood(app, quiet, st, s);
    case DashLookup(s) => DashLookupStaysGood(app, quiet, st, s);
    case DashStore(s) => DashStoreStaysGood(app, quiet, st, s);
    case BootStore(s) => BootStoreStaysGood(app, quiet, st, s);
    case _ => WriterStepsStayGood(app, quiet, st, e);
  }

  // ---- runs -----------------------------------------------------------

  /** Nothing in flight and nothing cached; every row as it was first stored. */
  ghost predicate Fresh(st: State) {
    && st.procs == map[] && st.sessions == map[]
    && forall h :: h in st.db ==> var row := st.db[h]; row == Row(row.revision, row.snapshot, row.revision, row.snapshot, [])
  }

  ghost predicate Quiet(app: App, st: State, run: seq<Event>) {
    forall k :: 0 <= k < |run| ==> QuietStep(app, After(app, st, run[..k]), run[k])
  }

  lemma {:induction false} RunStaysGood(app: App, quiet: bool, st: State, run: seq<Event>)
    requires Good(app, quiet, st) && (quiet ==> Quiet(app, st, run))
    ensures Good(app, quiet, After(app, st, run)) && Continues(st.db, After(app, st, run).db)
  {
    hide Good, Step, QuietStep;
    SameDb(st.db);
    if run != [] {
      var n := |run| - 1;
      var before := run[..n];
      forall k | 0 <= k < n
        ensures before[k] == run[k] && before[..k] == run[..k]
      {
      }
      RunStaysGood(app, quiet, st, before);
      StepStaysGood(app, quiet, After(app, st, before), run[n]);
      ContinuesOn(st.db, After(app, st, before).db, After(app, st, run).db);
    }
  }

  lemma ContinuesOn(a: map<nat, Row>, b: map<nat, Row>, c: map<nat, Row>)
    requires Continues(a, b) && Continues(b, c)
    ensures Continues(a, c)
  {
  }

  lemma FreshIsGood(app: App, quiet: bool, st: State)
    requires Fresh(st)
    ensures Good(app, quiet, st)
  {
  }

  // ---- the promises ---------------------------------------------------

  /** Every reachable row: consecutive revisions, one audit row each, each computed from the one before. */
  lemma SerialCommits(app: App, st: State, run: seq<Event>, h: nat)
    requires Fresh(st) && h in st.db
    ensures var db := After(app, st, run).db;
      h in db && RowGood(db[h]) && Extends(st.db[h], db[h])
  {
    FreshIsGood(app, false, st);
    RunStaysGood(app, false, st, run);
  }

  /** Every cached dashboard is the one recomputed from the revision and the date in its key. */
  lemma DashboardsAgree(app: App, st: State, run: seq<Event>, p: nat)
    requires Fresh(st) && p in After(app, st, run).procs
    ensures DashCacheGood(app, After(app, st, run).db, After(app, st, run).procs[p].dash)
  {
    hide DashGood, BootGood, After;
    FreshIsGood(app, false, st);
    RunStaysGood(app, false, st, run);
  }

  /** On a quiet run every cached page is the one recomputed from the revision and the day in its key. */
  lemma PagesAgree(app: App, st: State, run: seq<Event>, p: nat)
    requires Fresh(st) && Quiet(app, st, run) && p in After(app, st, run).procs
    ensures BootCacheGood(app, After(app, st, run).db, true, After(app, st, run).procs[p].boot)
  {
    hide DashGood, BootGood, After, Quiet;
    FreshIsGood(app, true, st);
    RunStaysGood(app, true, st, run);
  }

  predicate Reads(session: Session, h: nat, from: nat, day: int) {
    match session
    case Writer(_, _, _, _, _) => false
    case Committed(_, _) => false
    case Replied(h', from', day', _) => h' == h && from' == from && day' == day
    case _ => session.household == h && session.from == from && session.day == day
  }

  lemma StillReads(app: App, st: State, e: Event, s: nat, h: nat, from: nat, day: int)
    requires s in st.sessions && Reads(st.sessions[s], h, from, day)
    ensures s in Step(app, st, e).sessions && Reads(Step(app, st, e).sessions[s], h, from, day)
  {
    hide Touch, Store, Invalidated, CommitOn;
  }

  lemma {:induction false} KeepsReading(app: App, st: State, run: seq<Event>, s: nat, h: nat, from: nat, day: int)
    requires s in st.sessions && Reads(st.sessions[s], h, from, day)
    ensures s in After(app, st, run).sessions && Reads(After(app, st, run).sessions[s], h, from, day)
  {
    hide Step, Reads;
    if run != [] {
      KeepsReading(app, st, run[..|run| - 1], s, h, from, day);
      StillReads(app, After(app, st, run[..|run| - 1]), run[|run| - 1], s, h, from, day);
    }
  }

  // ---- the day of a page ----------------------------------------------

  /** Past its read: the request still holds that revision, that snapshot and that date. */
  ghost predicate Carries(app: App, session: Session, day: int, revision: nat, snapshot: string, asOf: int) {
    match session
    case Loaded(_, _, _, day', r, snap, a) => day' == day && r == revision && snap == snapshot && a == asOf
    case Computed(_, _, _, day', r, snap, d) =>
      day' == day && r == revision && snap == snapshot && d == DashboardOf(app, snapshot, revision, asOf)
    case Dashed(_, _, _, day', r, snap, d) =>
      day' == day && r == revision && snap == snapshot && d == DashboardOf(app, snapshot, revision, asOf)
    case Replied(_, _, day', reply) =>
      day' == day
      && reply == Bootstrap(revision, DashboardOf(app, snapshot, revision, asOf), app.workspace(snapshot, asOf))
    case _ => false
  }

  lemma StillCarries(app: App, st: State, e: Event, s: nat, day: int, revision: nat, snapshot: string, asOf: int)
    requires Good(app, false, st) && s in st.sessions && Carries(app, st.sessions[s], day, revision, snapshot, asOf)
    ensures s in Step(app, st, e).sessions
    ensures Carries(app, Step(app, st, e).sessions[s], day, revision, snapshot, asOf)
  {
    hide Good, Store, Touch, Invalidated, CommitOn;
    if e == DashLookup(s) && st.sessions[s].Loaded? {
      CachedIsComputed(app, st, s);
    }
  }

  /** A dashboard found in the cache is the one that would have been computed. */
  lemma CachedIsComputed(app: App, st: State, s: nat)
    requires Good(app, false, st) && s in st.sessions && st.sessions[s].Loaded?
    ensures var r := st.sessions[s]; var found := Get(st.CachesOf(r.proc).dash, Key(r.household, r.revision, r.asOf));
      found.Some? ==> found.value == DashboardOf(app, r.snapshot, r.revision, r.asOf)
  {
    hide CachesGood, RowGood, Row.At, Touch;
    var r := st.sessions[s];
    assert SessionGood(app, st.db, false, r);
    ProcessGood(app, false, st, r.proc);
    DashTouched(app, st.db, false, st.CachesOf(r.proc), Key(r.household, r.revision, r.asOf));
  }

  lemma {:induction false} KeepsCarrying(app: App, st: State, run: seq<Event>, s: nat, day: int, revision: nat,
                                         snapshot: string, asOf: int)
    requires Good(app, false, st) && s in st.sessions && Carries(app, st.sessions[s], day, revision, snapshot, asOf)
    ensures s in After(app, st, run).sessions
    ensures Carries(app, After(app, st, run).sessions[s], day, revision, snapshot, asOf)
  {
    hide Step, Carries, Good;
    if run != [] {
      var before := run[..|run| - 1];
      KeepsCarrying(app, st, before, s, day, revision, snapshot, asOf);
      RunStaysGood(app, false, st, before);
      StillCarries(app, After(app, st, before), run[|run| - 1], s, day, revision, snapshot, asOf);
    }
  }

  /**
   * A request that reads the row: whatever the other sessions do from there, the page it finally gets
   * is the one recomputed for the day the request started on exactly when the household's date on
   * the day of the read is its date on that day.
   */
  lemma PageForItsDayExactly(app: App, st: State, s: nat, more: seq<Event>)
    requires Good(app, false, st) && s in st.sessions && st.sessions[s].Missed? && st.sessions[s].household in st.db
    requires var last := After(app, Step(app, st, ReadRow(s)), more).sessions;
      s in last && last[s].Replied?
    ensures var r := st.sessions[s];
      var row, reply := st.db[r.household], After(app, Step(app, st, ReadRow(s)), more).sessions[s].reply;
      reply == BootstrapOf(app, row.snapshot, row.revision, r.day) <==>
      app.asOf(row.snapshot, st.today) == app.asOf(row.snapshot, r.day)
  {
    hide After, Good;
    var r := st.sessions[s];
    var row := st.db[r.household];
    ReadRowStaysGood(app, false, st, s);
    KeepsCarrying(app, Step(app, st, ReadRow(s)), more, s, r.day, row.revision, row.snapshot, app.asOf(row.snapshot, st.today));
  }

  lemma {:induction false} RunsCompose(app: App, st: State, a: seq<Event>, b: seq<Event>)
    ensures After(app, st, a + b) == After(app, After(app, st, a), b)
  {
    hide Step;
    if b == [] {
      assert a + b == a;
    } else {
      assert (a + b)[..|a + b| - 1] == a + b[..|b| - 1];
      RunsCompose(app, st, a, b[..|b| - 1]);
    }
  }

  /**
   * However other sessions interleave, the page a request finally gets is a page of one revision, and
   * that revision is no older than the one stored when the request started.
   */
  lemma NoOlderThanAtStart(app: App, st: State, run: seq<Event>, s: nat, proc: nat, h: nat, more: seq<Event>)
    requires Fresh(st) && s !in After(app, st, run).sessions && h in After(app, st, run).db
    requires var last := After(app, After(app, st, run + [BootStart(s, proc, h)]), more).sessions;
      s in last && last[s].Replied?
    ensures var start, last := After(app, st, run), After(app, After(app, st, run + [BootStart(s, proc, h)]), more);
      var reply := last.sessions[s].reply;
      reply.revision >= start.db[h].revision && BootGood(app, last.db, false, Key(h, reply.revision, start.today), reply)
  {
    var start, begun := After(app, st, run), After(app, st, run + [BootStart(s, proc, h)]);
    assert (run + [BootStart(s, proc, h)])[..|run|] == run;
    KeepsReading(app, begun, more, s, h, start.db[h].revision, start.today);
    RunsCompose(app, st, run + [BootStart(s, proc, h)], more);
    hide After, Step, CachesGood, RowGood, BootGood;
    FreshIsGood(app, false, st);
    RunStaysGood(app, false, st, run + [BootStart(s, proc, h)] + more);
    var last := After(app, begun, more);
    assert SessionGood(app, last.db, false, last.sessions[s]);
  }

  /** Once a revision has been superseded, a transaction that expects it is refused ever after. */
  lemma StaleExpectationRefused(app: App, st: State, run: seq<Event>, h: nat, expected: nat, begin: Event)
    requires Good(app, false, st) && h in st.db && expected < st.db[h].revision
    requires begin.Begin? && begin.household == h && begin.expected == Some(expected)
    ensures Step(app, After(app, st, run), begin) == After(app, st, run)
  {
    hide After, CachesGood, SessionGood;
    RunStaysGood(app, false, st, run);
    RevisionGrows(st.db[h], After(app, st, run).db[h]);
  }

  lemma RevisionGrows(a: Row, b: Row)
    requires RowGood(a) && RowGood(b) && Extends(a, b)
    ensures a.revision <= b.revision
  {
  }

  /**
   * Two transactions that loaded the same revision: when one commits, the other, whenever it tries,
   * changes neither the stored rows nor any cache.
   */
  lemma OneWinner(app: App, st: State, s: nat, t: nat, x: string, more: seq<Event>, y: string)
    requires Good(app, false, st) && s in st.sessions && t in st.sessions
    requires st.sessions[s].Writer? && st.sessions[t].Writer?
    requires st.sessions[s].household == st.sessions[t].household && st.sessions[s].previous == st.sessions[t].previous
    requires Step(app, st, Commit(s, x)).db != st.db
    requires var end := After(app, Step(app, st, Commit(s, x)), more);
      t in end.sessions && end.sessions[t] == st.sessions[t]
    ensures var end := After(app, Step(app, st, Commit(s, x)), more);
      var next := Step(app, end, Commit(t, y));
      next.db == end.db && next.procs == end.procs && t !in next.sessions
  {
    hide After, CachesGood, RowGood, Row.At, Extends;
    var won, w := Step(app, st, Commit(s, x)), st.sessions[s];
    assert SessionGood(app, st.db, false, w);
    CommitKeepsRow(st.db[w.household], w.previous, w.seen, x, w.action);
    StepStaysGood(app, false, st, Commit(s, x));
    RunStaysGood(app, false, won, more);
    RevisionGrows(won.db[w.household], After(app, won, more).db[w.household]);
  }

  lemma FirstStep(app: App, st: State, e: Event, rest: seq<Event>, run: seq<Event>)
    requires run == [e] + rest
    ensures After(app, st, run) == After(app, Step(app, st, e), rest)
  {
    hide Step;
    assert [e][..0] == [];
    assert After(app, st, []) == st;
    RunsCompose(app, st, [e], rest);
  }

  /** The same request with midnight between its start and its read: the cached page is for the wrong day. */
  lemma MidnightMixesDays(app: App, snapshot: string)
    requires forall day :: app.asOf(snapshot, day) == day
    ensures var st := State(map[0 := Row(1, snapshot, 1, snapshot, [])], map[], map[], 0);
      var run := [BootStart(0, 0, 0), BootLookup(0), Midnight, ReadRow(0), DashLookup(0), DashStore(0), BootStore(0)];
      var boot := After(app, st, run).CachesOf(0).boot;
      && Fresh(st) && |boot| == 1 && boot[0].key == Key(0, 1, 0)
      && boot[0].value == BootstrapOf(app, snapshot, 1, 1) != BootstrapOf(app, snapshot, 1, 0)
  {
    var db := map[0 := Row(1, snapshot, 1, snapshot, [])];
    var st := State(db, map[], map[], 0);
    var dash := DashboardOf(app, snapshot, 1, 1);
    var read := State(db, map[], map[0 := Loaded(0, 0, 1, 0, 1, snapshot, 1)], 1);
    ReadAfterMidnight(app, snapshot, st, read);
    var rest := [DashLookup(0), DashStore(0), BootStore(0)];
    var run := [BootStart(0, 0, 0), BootLookup(0), Midnight, ReadRow(0)];
    assert run + rest == [BootStart(0, 0, 0), BootLookup(0), Midnight, ReadRow(0), DashLookup(0), DashStore(0), BootStore(0)];
    RunsCompose(app, st, run, rest);
    StoreFromRead(app, snapshot, read, dash);
  }

  lemma ReadAfterMidnight(app: App, snapshot: string, st: State, read: State)
    requires st == State(map[0 := Row(1, snapshot, 1, snapshot, [])], map[], map[], 0)
    requires read == State(st.db, map[], map[0 := Loaded(0, 0, 1, 0, 1, snapshot, 1)], 1)
    requires forall day :: app.asOf(snapshot, day) == day
    ensures After(app, st, [BootStart(0, 0, 0), BootLookup(0), Midnight, ReadRow(0)]) == read
  {
    hide After;
    FirstStep(app, st, BootStart(0, 0, 0), [BootLookup(0), Midnight, ReadRow(0)], [BootStart(0, 0, 0), BootLookup(0), Midnight, ReadRow(0)]);
    var s1 := State(st.db, map[], map[0 := Started(0, 0, 1, 0)], 0);
    assert Step(app, st, BootStart(0, 0, 0)) == s1;
    FirstStep(app, s1, BootLookup(0), [Midnight, ReadRow(0)], [BootLookup(0), Midnight, ReadRow(0)]);
    var s2 := State(st.db, map[], map[0 := Missed(0, 0, 1, 0)], 0);
    assert Step(app, s1, BootLookup(0)) == s2;
    FirstStep(app, s2, Midnight, [ReadRow(0)], [Midnight, ReadRow(0)]);
    var s3 := State(st.db, map[], map[0 := Missed(0, 0, 1, 0)], 1);
    FirstStep(app, s3, ReadRow(0), [], [ReadRow(0)]);
    assert Step(app, s3, ReadRow(0)) == read;
    NoEvents(app, read);
  }

  lemma NoEvents(app: App, st: State)
    ensures After(app, st, []) == st
  {
  }

  lemma StoreFromRead(app: App, snapshot: string, read: State, dash: Dashboard)
    requires read == State(map[0 := Row(1, snapshot, 1, snapshot, [])], map[], map[0 := Loaded(0, 0, 1, 0, 1, snapshot, 1)], 1)
    requires dash == DashboardOf(app, snapshot, 1, 1)
    ensures After(app, read, [DashLookup(0), DashStore(0), BootStore(0)]).CachesOf(0).boot
      == [Pair(Key(0, 1, 0), Bootstrap(1, dash, app.workspace(snapshot, 1)))]
  {
    hide After;
    FirstStep(app, read, DashLookup(0), [DashStore(0), BootStore(0)], [DashLookup(0), DashStore(0), BootStore(0)]);
    var s1 := read.(sessions := map[0 := Computed(0, 0, 1, 0, 1, snapshot, dash)]);
    assert Step(app, read, DashLookup(0)) == s1;
    FirstStep(app, s1, DashStore(0), [BootStore(0)], [DashStore(0), BootStore(0)]);
    var s2 := Step(app, s1, DashStore(0));
    FirstStep(app, s2, BootStore(0), [], [BootStore(0)]);
    NoEvents(app, Step(app, s2, BootStore(0)));
  }
}
