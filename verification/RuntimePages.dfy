/** Which read a page comes from, over any run, and whether that read was for the page's day. */
module RuntimePages {
  import opened OrderedDict
  import opened Runtime
  import opened RuntimeLaws

  /** A page request's read of the row: what it read, for the day it started on, dated asOf. */
  datatype Read = Read(household: nat, revision: nat, day: int, asOf: int)

  function NewReads(app: App, st: State, e: Event): set<Read> {
    if e.ReadRow? && e.s in st.sessions && st.sessions[e.s].Missed? && st.sessions[e.s].household in st.db then
      var r := st.sessions[e.s];
      var row := st.db[r.household];
      {Read(r.household, row.revision, r.day, app.asOf(row.snapshot, st.today))}
    else {}
  }

  function ReadsOf(app: App, st: State, run: seq<Event>): set<Read> {
    if run == [] then {}
    else
      var before := run[..|run| - 1];
      ReadsOf(app, st, before) + NewReads(app, After(app, st, before), run[|run| - 1])
  }

  predicate CacheTraced(d: seq<Pair<Key, Bootstrap>>, seen: set<Read>) {
    forall p :: p in d ==> Read(p.key.household, p.key.revision, p.key.day, p.value.dashboard.asOf) in seen
  }

  predicate SessionTraced(s: Session, seen: set<Read>) {
    match s
    case Loaded(_, h, _, day, r, _, asOf) => Read(h, r, day, asOf) in seen
    case Computed(_, h, _, day, r, _, d) => Read(h, r, day, d.asOf) in seen
    case Dashed(_, h, _, day, r, _, d) => Read(h, r, day, d.asOf) in seen
    case Replied(h, _, day, reply) => Read(h, reply.revision, day, reply.dashboard.asOf) in seen
    case _ => true
  }

  /** Every page in a cache, in the making or replied comes from one of the reads. */
  ghost predicate Traced(st: State, seen: set<Read>) {
    && (forall p :: p in st.procs ==> CacheTraced(st.procs[p].boot, seen))
    && (forall s :: s in st.sessions ==> SessionTraced(st.sessions[s], seen))
  }

  lemma MoreReads(st: State, seen: set<Read>, more: set<Read>)
    requires Traced(st, seen)
    ensures Traced(st, seen + more)
  {
    forall s | s in st.sessions
      ensures SessionTraced(st.sessions[s], seen + more)
    {
      assert SessionTraced(st.sessions[s], seen);
    }
  }

  /** A step that moves one session, and one process to a traced cache. */
  lemma MovesTraced(st: State, next: State, s: nat, p: nat, boot: seq<Pair<Key, Bootstrap>>, seen: set<Read>)
    requires Traced(st, seen) && CacheTraced(boot, seen)
    requires next.sessions - {s} == st.sessions - {s}
    requires s in next.sessions ==> SessionTraced(next.sessions[s], seen)
    requires next.procs == st.procs || (p in next.procs && next.procs[p].boot == boot && next.procs - {p} == st.procs - {p})
    ensures Traced(next, seen)
  {
    hide CacheTraced, SessionTraced;
    forall q | q in next.procs
      ensures CacheTraced(next.procs[q].boot, seen)
    {
      if next.procs != st.procs && q != p {
        assert q in next.procs - {p} && (st.procs - {p})[q] == next.procs[q];
      }
    }
    forall t | t in next.sessions
      ensures SessionTraced(next.sessions[t], seen)
    {
      if t != s {
        assert t in next.sessions - {s} && (st.sessions - {s})[t] == next.sessions[t];
      }
    }
  }

  lemma CacheOf(st: State, p: nat, seen: set<Read>)
    requires Traced(st, seen)
    ensures CacheTraced(st.CachesOf(p).boot, seen)
  {
  }

  lemma LookupTraced(app: App, st: State, s: nat, seen: set<Read>)
    requires Good(app, false, st) && Traced(st, seen) && s in st.sessions && st.sessions[s].Started?
    ensures Traced(StepBootLookup(st, s), seen)
  {
    hide CacheTraced, CachesGood, RowGood, Touch, Row.At, BootGood;
    var r, next := st.sessions[s], StepBootLookup(st, s);
    var c, key := st.CachesOf(r.proc), Key(r.household, r.from, r.day);
    ProcessGood(app, false, st, r.proc);
    BootTouched(app, st.db, false, c, key);
    CacheOf(st, r.proc, seen);
    TouchTraced(c.boot, key, seen);
    if Get(c.boot, key).Some? {
      SameRevision(app, st.db, key, Get(c.boot, key).value);
    }
    MovesTraced(st, next, s, r.proc, if Get(c.boot, key).Some? then Touch(c.boot, key) else c.boot, seen);
  }

  lemma SameRevision(app: App, db: map<nat, Row>, key: Key, b: Bootstrap)
    requires BootGood(app, db, false, key, b)
    ensures b.revision == key.revision
  {
  }

  lemma TouchTraced(d: seq<Pair<Key, Bootstrap>>, key: Key, seen: set<Read>)
    requires CacheTraced(d, seen)
    ensures CacheTraced(Touch(d, key), seen)
    ensures Get(d, key).Some? ==> Read(key.household, key.revision, key.day, Get(d, key).value.dashboard.asOf) in seen
  {
    hide Touch;
    TouchIn(d, key);
    GetIs(d, key);
  }

  lemma StoreTraced(d: seq<Pair<Key, Bootstrap>>, key: Key, b: Bootstrap, seen: set<Read>)
    requires CacheTraced(d, seen) && Read(key.household, key.revision, key.day, b.dashboard.asOf) in seen
    ensures CacheTraced(Store(d, key, b), seen)
  {
    hide Store;
    StoreIn(d, key, b);
  }

  lemma DropTraced(d: seq<Pair<Key, Bootstrap>>, h: nat, seen: set<Read>)
    requires CacheTraced(d, seen)
    ensures CacheTraced(Dropped(d, h), seen)
  {
    hide Dropped;
    DroppedIn(d, h);
  }

  lemma DashLookupTraced(app: App, st: State, s: nat, seen: set<Read>)
    requires Good(app, false, st) && Traced(st, seen) && s in st.sessions && st.sessions[s].Loaded?
    ensures Traced(StepDashLookup(app, st, s), seen)
  {
    hide CacheTraced, Good, Touch;
    var r, next := st.sessions[s], StepDashLookup(app, st, s);
    assert SessionTraced(r, seen);
    CachedIsComputed(app, st, s);
    CacheOf(st, r.proc, seen);
    MovesTraced(st, next, s, r.proc, st.CachesOf(r.proc).boot, seen);
  }

  lemma StoresTraced(app: App, st: State, e: Event, seen: set<Read>)
    requires Traced(st, seen) && (e.DashStore? || e.BootStore?)
    ensures Traced(Step(app, st, e), seen)
  {
    hide CacheTraced, Store;
    if e.s in st.sessions {
      var r, next := st.sessions[e.s], Step(app, st, e);
      assert SessionTraced(r, seen);
      if e.DashStore? && r.Computed? {
        CacheOf(st, r.proc, seen);
        MovesTraced(st, next, e.s, r.proc, st.CachesOf(r.proc).boot, seen);
      } else if e.BootStore? && r.Dashed? {
        var key := Key(r.household, r.revision, r.day);
        var data := Bootstrap(r.revision, r.dash, app.workspace(r.snapshot, r.dash.asOf));
        CacheOf(st, r.proc, seen);
        StoreTraced(st.CachesOf(r.proc).boot, key, data, seen);
        MovesTraced(st, next, e.s, r.proc, Store(st.CachesOf(r.proc).boot, key, data), seen);
      }
    }
  }

  lemma InvalidateTraced(st: State, s: nat, seen: set<Read>)
    requires Traced(st, seen)
    ensures Traced(StepInvalidate(st, s), seen)
  {
    hide CacheTraced, SessionTraced, Dropped;
    if s in st.sessions && st.sessions[s].Committed? {
      var w := st.sessions[s];
      CacheOf(st, w.proc, seen);
      DropTraced(st.CachesOf(w.proc).boot, w.household, seen);
      MovesTraced(st, StepInvalidate(st, s), s, w.proc, Dropped(st.CachesOf(w.proc).boot, w.household), seen);
    }
  }

  lemma NoEntries(seen: set<Read>)
    ensures CacheTraced([], seen)
  {
  }

  /** Steps that touch no cache and no page. */
  lemma OthersTraced(app: App, st: State, e: Event, seen: set<Read>)
    requires Traced(st, seen) && (e.Begin? || e.Commit? || e.Rollback? || e.BootStart? || e.Midnight?)
    ensures Traced(Step(app, st, e), seen)
  {
    hide CacheTraced, BeginOn, CommitOn;
    if !e.Midnight? {
      NoEntries(seen);
      MovesTraced(st, Step(app, st, e), e.s, 0, [], seen);
    }
  }

  lemma ReadTraced(app: App, st: State, s: nat, seen: set<Read>)
    requires Traced(st, seen)
    ensures Traced(StepReadRow(app, st, s), seen + NewReads(app, st, ReadRow(s)))
  {
    hide CacheTraced;
    var all := seen + NewReads(app, st, ReadRow(s));
    MoreReads(st, seen, NewReads(app, st, ReadRow(s)));
    NoEntries(all);
    MovesTraced(st, StepReadRow(app, st, s), s, 0, [], all);
  }

  /** A step keeps pages traced to the reads so far and the one it makes. */
  lemma StepTraced(app: App, st: State, e: Event, seen: set<Read>)
    requires Good(app, false, st) && Traced(st, seen)
    ensures Traced(Step(app, st, e), seen + NewReads(app, st, e))
  {
    hide Good, Traced, StepBegin, StepCommit, StepInvalidate, StepBootStart, StepDashStore, StepBootStore;
    match e
    case ReadRow(s) => ReadTraced(app, st, s, seen);
    case _ =>
      assert seen + NewReads(app, st, e) == seen;
      PageStepTraced(app, st, e, seen);
  }

  lemma PageStepTraced(app: App, st: State, e: Event, seen: set<Read>)
    requires Good(app, false, st) && Traced(st, seen) && !e.ReadRow?
    ensures Traced(Step(app, st, e), seen)
  {
    hide Good, Traced, StepBegin, StepCommit, StepInvalidate, StepBootStart, StepDashStore, StepBootStore;
    match e
    case Invalidate(s) => InvalidateTraced(st, s, seen);
    case BootLookup(s) => if s in st.sessions && st.sessions[s].Started? { LookupTraced(app, st, s, seen); }
    case DashLookup(s) => if s in st.sessions && st.sessions[s].Loaded? { DashLookupTraced(app, st, s, seen); }
    case DashStore(s) => StoresTraced(app, st, e, seen);
    case BootStore(s) => StoresTraced(app, st, e, seen);
    case _ => OthersTraced(app, st, e, seen);
  }

  lemma {:induction false} RunTraced(app: App, st: State, run: seq<Event>)
    requires Fresh(st)
    ensures Traced(After(app, st, run), ReadsOf(app, st, run))
  {
    if run != [] {
      var before := run[..|run| - 1];
      RunTraced(app, st, before);
      hide Good, Traced, Step, NewReads, Fresh;
      FreshIsGood(app, false, st);
      RunStaysGood(app, false, st, before);
      StepTraced(app, After(app, st, before), run[|run| - 1], ReadsOf(app, st, before));
    }
  }

  lemma {:induction false} ReadAt(app: App, st: State, run: seq<Event>, r: Read) returns (i: nat)
    requires r in ReadsOf(app, st, run)
    ensures i < |run| && r in NewReads(app, After(app, st, run[..i]), run[i])
  {
    hide NewReads, After;
    var n := |run| - 1;
    if r in ReadsOf(app, st, run[..n]) {
      i := ReadAt(app, st, run[..n], r);
      assert run[..n][..i] == run[..i];
    } else {
      i := n;
    }
  }

  /** Event i reads, for a request of this household and day, the revision that the page is of. */
  ghost predicate ReadFor(app: App, st: State, run: seq<Event>, i: nat, key: Key) {
    && i < |run| && run[i].ReadRow?
    && var mid := After(app, st, run[..i]);
    && run[i].s in mid.sessions && mid.sessions[run[i].s].Missed?
    && mid.sessions[run[i].s].household == key.household && mid.sessions[run[i].s].day == key.day
    && key.household in mid.db && mid.db[key.household].revision == key.revision
  }

  /** The page recomputed from what event i read, for the day of the key. */
  ghost function PageFor(app: App, st: State, run: seq<Event>, i: nat, key: Key): Bootstrap
    requires ReadFor(app, st, run, i, key)
  {
    BootstrapOf(app, After(app, st, run[..i]).db[key.household].snapshot, key.revision, key.day)
  }

  /** A traced page is the one for its day exactly when its read saw the same household date as that day. */
  lemma TracedPage(app: App, st: State, run: seq<Event>, key: Key, b: Bootstrap) returns (i: nat)
    requires Fresh(st) && BootGood(app, After(app, st, run).db, false, key, b)
    requires Read(key.household, key.revision, key.day, b.dashboard.asOf) in ReadsOf(app, st, run)
    ensures ReadFor(app, st, run, i, key)
    ensures b == PageFor(app, st, run, i, key) <==> QuietStep(app, After(app, st, run[..i]), run[i])
  {
    i := ReadAt(app, st, run, Read(key.household, key.revision, key.day, b.dashboard.asOf));
    hide After, ReadsOf, Step;
    SnapshotStays(app, st, run, i, key.household);
  }

  /** What is stored at a point of a run stays on record as that revision's snapshot. */
  lemma SnapshotStays(app: App, st: State, run: seq<Event>, i: nat, h: nat)
    requires Fresh(st) && i <= |run| && h in After(app, st, run[..i]).db
    ensures var row, last := After(app, st, run[..i]).db[h], After(app, st, run).db;
      h in last && last[h].Has(row.revision) && last[h].At(row.revision) == row.snapshot
  {
    var mid := After(app, st, run[..i]);
    assert run == run[..i] + run[i..];
    RunsCompose(app, st, run[..i], run[i..]);
    hide After, CachesGood, SessionGood, Fresh;
    FreshIsGood(app, false, st);
    RunStaysGood(app, false, st, run[..i]);
    RunStaysGood(app, false, mid, run[i..]);
    RowKnows(mid.db[h]);
    ExtendsKeeps(mid.db[h], After(app, st, run).db[h], mid.db[h].revision);
  }

  /**
   * Any page request that got its reply, computed or found in the cache: the page is the one for the
   * day the request started on exactly when the read it comes from saw that day's household date.
   */
  lemma ReplyForItsDayExactly(app: App, st: State, run: seq<Event>, s: nat) returns (i: nat)
    requires Fresh(st) && s in After(app, st, run).sessions && After(app, st, run).sessions[s].Replied?
    ensures var r := After(app, st, run).sessions[s]; var key := Key(r.household, r.reply.revision, r.day);
      && ReadFor(app, st, run, i, key)
      && (r.reply == PageFor(app, st, run, i, key) <==> QuietStep(app, After(app, st, run[..i]), run[i]))
  {
    var r := After(app, st, run).sessions[s];
    RunTraced(app, st, run);
    hide After, ReadsOf, BootGood, CachesGood, RowGood, CacheTraced, Fresh;
    FreshIsGood(app, false, st);
    RunStaysGood(app, false, st, run);
    assert SessionTraced(r, ReadsOf(app, st, run)) && SessionGood(app, After(app, st, run).db, false, r);
    i := TracedPage(app, st, run, Key(r.household, r.reply.revision, r.day), r.reply);
  }

  /** Any cached page, in any process, in the same way. */
  lemma CachedForItsDayExactly(app: App, st: State, run: seq<Event>, p: nat, entry: Pair<Key, Bootstrap>) returns (i: nat)
    requires Fresh(st) && entry in After(app, st, run).CachesOf(p).boot
    ensures ReadFor(app, st, run, i, entry.key)
    ensures entry.value == PageFor(app, st, run, i, entry.key) <==> QuietStep(app, After(app, st, run[..i]), run[i])
  {
    RunTraced(app, st, run);
    hide After, ReadsOf, BootGood, DashGood, RowGood, Fresh;
    FreshIsGood(app, false, st);
    RunStaysGood(app, false, st, run);
    assert CachesGood(app, After(app, st, run).db, false, After(app, st, run).CachesOf(p));
    i := TracedPage(app, st, run, entry.key, entry.value);
  }
}
