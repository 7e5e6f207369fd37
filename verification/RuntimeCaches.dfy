/** What a process finds in its caches: what was stored last, the newest entries, and nothing of a changed household. */
module RuntimeCaches {
  import opened Prelude
  import opened OrderedDict
  import opened Runtime

  // ---- one cache ------------------------------------------------------

  /** A hit takes its entry out of the order and puts it last; a miss changes nothing. */
  lemma TouchIs<V>(d: seq<Pair<Key, V>>, key: Key)
    requires KeysDistinct(d)
    ensures !HasKey(d, key) ==> Touch(d, key) == d
    ensures forall i :: 0 <= i < |d| && d[i].key == key ==> Touch(d, key) == d[..i] + d[i + 1..] + [d[i]]
  {
    GetIs(d, key);
    forall i | 0 <= i < |d| && d[i].key == key
      ensures Touch(d, key) == d[..i] + d[i + 1..] + [d[i]]
    {
      assert d[i] in d;
      TakenOut(d, key, i);
    }
  }

  lemma {:induction false} TakenOut<V>(d: seq<Pair<Key, V>>, key: Key, i: nat)
    requires KeysDistinct(d) && i < |d| && d[i].key == key
    ensures Without(d, key) == d[..i] + d[i + 1..]
  {
    if i == 0 {
      WithoutAbsent(d[1..], key);
      assert d[..0] + d[1..] == d[1..];
    } else {
      TakenOut(d[1..], key, i - 1);
      assert d[..i] + d[i + 1..] == [d[0]] + (d[1..][..i - 1] + d[1..][i..]);
    }
  }

  /** A new key goes last and, in a full cache, the oldest entry makes room; a known key keeps its place. */
  lemma StoreIs<V>(d: seq<Pair<Key, V>>, key: Key, value: V)
    requires KeysDistinct(d) && |d| <= 128
    ensures !HasKey(d, key) ==> Store(d, key, value) == (if |d| < 128 then d else d[1..]) + [Pair(key, value)]
    ensures forall i :: 0 <= i < |d| && d[i].key == key ==> Store(d, key, value) == d[i := Pair(key, value)]
  {
    if !HasKey(d, key) {
      NewKey(d, key, value);
    }
    forall i | 0 <= i < |d| && d[i].key == key
      ensures Store(d, key, value) == d[i := Pair(key, value)]
    {
      KnownKey(d, key, value, i);
    }
  }

  lemma {:induction false} NewKey<V>(d: seq<Pair<Key, V>>, key: Key, value: V)
    requires !HasKey(d, key)
    ensures Assign(d, key, value) == d + [Pair(key, value)]
  {
    if d != [] {
      TailHasKey(d, key);
      assert d[0].key != key;
      NewKey(d[1..], key, value);
      assert d == [d[0]] + d[1..];
    }
  }

  lemma {:induction false} KnownKey<V>(d: seq<Pair<Key, V>>, key: Key, value: V, i: nat)
    requires KeysDistinct(d) && i < |d| && d[i].key == key
    ensures Assign(d, key, value) == d[i := Pair(key, value)]
  {
    if i > 0 {
      KnownKey(d[1..], key, value, i - 1);
      assert d[0].key != key;
    }
  }

  /** What was stored last under a key is what the next lookup finds. */
  lemma StoredIsFound<V>(d: seq<Pair<Key, V>>, key: Key, value: V)
    requires KeysDistinct(d) && |d| <= 128
    ensures KeysDistinct(Store(d, key, value)) && |Store(d, key, value)| <= 128 && Get(Store(d, key, value), key) == Some(value)
  {
    StoreIs(d, key, value);
    var r := Store(d, key, value);
    if HasKey(d, key) {
      var i :| 0 <= i < |d| && d[i].key == key;
      assert r == d[i := Pair(key, value)];
      assert r[i] in r;
    } else {
      assert r[|r| - 1] == Pair(key, value) && Pair(key, value) in r;
      assert forall i :: 0 <= i < |d| ==> d[i].key != key;
    }
    GetIs(r, key);
  }

  // ---- steps ----------------------------------------------------------

  ghost predicate Tidy(c: Caches) {
    KeysDistinct(c.dash) && KeysDistinct(c.boot) && |c.dash| <= 128 && |c.boot| <= 128
  }

  lemma TouchedTidy<V>(d: seq<Pair<Key, V>>, key: Key)
    requires KeysDistinct(d)
    ensures KeysDistinct(Touch(d, key)) && |Touch(d, key)| == |d|
  {
    TouchIs(d, key);
    if HasKey(d, key) {
      var i :| 0 <= i < |d| && d[i].key == key;
      assert Touch(d, key) == d[..i] + d[i + 1..] + [d[i]];
    }
  }

  lemma {:induction false} DroppedTidy<V>(d: seq<Pair<Key, V>>, h: nat)
    requires KeysDistinct(d)
    ensures KeysDistinct(Dropped(d, h)) && |Dropped(d, h)| <= |d|
  {
    if d != [] {
      var tail, left := d[1..], Dropped(d[1..], h);
      DroppedTidy(tail, h);
      DroppedIn(tail, h);
      assert d == [d[0]] + tail;
      assert Dropped(d, h) == left || Dropped(d, h) == [d[0]] + left;
      hide Dropped;
      HeadStaysDistinct(d[0], tail, left);
    }
  }

  ghost predicate AllTidy(st: State) {
    forall p :: Tidy(st.CachesOf(p))
  }

  /** Every step keeps every cache within 128 entries, one for each key. */
  lemma StepStaysTidy(app: App, st: State, e: Event)
    requires AllTidy(st)
    ensures AllTidy(Step(app, st, e))
  {
    hide KeysDistinct, Touch, Store, Dropped, Get;
    forall p
      ensures Tidy(Step(app, st, e).CachesOf(p))
    {
      var c := st.CachesOf(p);
      assert Tidy(c);
      forall key
        ensures KeysDistinct(Touch(c.dash, key)) && |Touch(c.dash, key)| == |c.dash|
        ensures KeysDistinct(Touch(c.boot, key)) && |Touch(c.boot, key)| == |c.boot|
      {
        TouchedTidy(c.dash, key);
        TouchedTidy(c.boot, key);
      }
      forall key, d
        ensures KeysDistinct(Store(c.dash, key, d)) && |Store(c.dash, key, d)| <= 128
      {
        StoredIsFound(c.dash, key, d);
      }
      forall key, b
        ensures KeysDistinct(Store(c.boot, key, b)) && |Store(c.boot, key, b)| <= 128
      {
        StoredIsFound(c.boot, key, b);
      }
      forall h
        ensures KeysDistinct(Dropped(c.dash, h)) && |Dropped(c.dash, h)| <= |c.dash|
        ensures KeysDistinct(Dropped(c.boot, h)) && |Dropped(c.boot, h)| <= |c.boot|
      {
        DroppedTidy(c.dash, h);
        DroppedTidy(c.boot, h);
      }
    }
  }

  lemma {:induction false} RunStaysTidy(app: App, st: State, run: seq<Event>)
    requires AllTidy(st)
    ensures AllTidy(After(app, st, run))
  {
    hide Step, AllTidy;
    if run != [] {
      RunStaysTidy(app, st, run[..|run| - 1]);
      StepStaysTidy(app, After(app, st, run[..|run| - 1]), run[|run| - 1]);
    }
  }

  lemma HitTouches<V>(d: seq<Pair<Key, V>>, key: Key, i: nat)
    requires KeysDistinct(d) && i < |d| && d[i].key == key
    ensures Get(d, key) == Some(d[i].value) && Touch(d, key) == d[..i] + d[i + 1..] + [d[i]]
  {
    TouchIs(d, key);
    GetIs(d, key);
    assert d[i] in d;
  }

  /** A request answered with a cached page makes that page the newest of the process. */
  lemma PageHitIsNewest(app: App, st: State, s: nat, i: nat)
    requires s in st.sessions && st.sessions[s].Started? && Tidy(st.CachesOf(st.sessions[s].proc))
    requires var r := st.sessions[s]; var boot := st.CachesOf(r.proc).boot;
      i < |boot| && boot[i].key == Key(r.household, r.from, r.day)
    ensures var r := st.sessions[s]; var c, next := st.CachesOf(r.proc), Step(app, st, BootLookup(s));
      && next.CachesOf(r.proc) == c.(boot := c.boot[..i] + c.boot[i + 1..] + [c.boot[i]])
      && s in next.sessions && next.sessions[s] == Replied(r.household, r.from, r.day, c.boot[i].value)
  {
    var r := st.sessions[s];
    HitTouches(st.CachesOf(r.proc).boot, Key(r.household, r.from, r.day), i);
    hide Touch, Get, KeysDistinct;
  }

  /** A read answered with a cached dashboard makes that dashboard the newest of the process. */
  lemma DashboardHitIsNewest(app: App, st: State, s: nat, i: nat)
    requires s in st.sessions && st.sessions[s].Loaded? && Tidy(st.CachesOf(st.sessions[s].proc))
    requires var r := st.sessions[s]; var dash := st.CachesOf(r.proc).dash;
      i < |dash| && dash[i].key == Key(r.household, r.revision, r.asOf)
    ensures var r := st.sessions[s]; var c, next := st.CachesOf(r.proc), Step(app, st, DashLookup(s));
      && next.CachesOf(r.proc) == c.(dash := c.dash[..i] + c.dash[i + 1..] + [c.dash[i]])
      && s in next.sessions && next.sessions[s].Dashed? && next.sessions[s].dash == c.dash[i].value
  {
    var r := st.sessions[s];
    HitTouches(st.CachesOf(r.proc).dash, Key(r.household, r.revision, r.asOf), i);
    hide Touch, Get, KeysDistinct;
  }

  /** A page stored by one request answers the next request of the process for the same household, revision and day. */
  lemma PageServed(app: App, st: State, s: nat, t: nat)
    requires s != t && s in st.sessions && t in st.sessions && st.sessions[s].Dashed? && st.sessions[t].Started?
    requires var r, q := st.sessions[s], st.sessions[t];
      q.proc == r.proc && q.household == r.household && q.from == r.revision && q.day == r.day && Tidy(st.CachesOf(r.proc))
    ensures var stored := Step(app, st, BootStore(s)); var answered := Step(app, stored, BootLookup(t));
      && s in stored.sessions && stored.sessions[s].Replied? && t in answered.sessions && answered.sessions[t].Replied?
      && answered.sessions[t].reply == stored.sessions[s].reply
  {
    var r := st.sessions[s];
    var key, data := Key(r.household, r.revision, r.day), Bootstrap(r.revision, r.dash, app.workspace(r.snapshot, r.dash.asOf));
    StoredIsFound(st.CachesOf(r.proc).boot, key, data);
    hide Get, Store, KeysDistinct, Touch;
  }

  /** A dashboard stored by one request answers the next that read the same revision for the same date. */
  lemma DashboardServed(app: App, st: State, s: nat, t: nat)
    requires s != t && s in st.sessions && t in st.sessions && st.sessions[s].Computed? && st.sessions[t].Loaded?
    requires var r, q := st.sessions[s], st.sessions[t];
      q.proc == r.proc && q.household == r.household && q.revision == r.revision && q.asOf == r.dash.asOf && Tidy(st.CachesOf(r.proc))
    ensures var answered := Step(app, Step(app, st, DashStore(s)), DashLookup(t));
      t in answered.sessions && answered.sessions[t].Dashed? && answered.sessions[t].dash == st.sessions[s].dash
  {
    var r := st.sessions[s];
    StoredIsFound(st.CachesOf(r.proc).dash, Key(r.household, r.revision, r.dash.asOf), r.dash);
    hide Get, Store, KeysDistinct, Touch;
  }

  /** After a commit's invalidation the process holds no entry of the household, and all it held of the others. */
  lemma InvalidationClears(app: App, st: State, s: nat)
    requires s in st.sessions && st.sessions[s].Committed?
    ensures var w, next := st.sessions[s], Step(app, st, Invalidate(s));
      var c, left := st.CachesOf(w.proc), next.CachesOf(w.proc);
      && (forall p :: p in left.dash <==> p in c.dash && p.key.household != w.household)
      && (forall p :: p in left.boot <==> p in c.boot && p.key.household != w.household)
      && (forall q :: q != w.proc ==> next.CachesOf(q) == st.CachesOf(q))
      && next.db == st.db && s !in next.sessions
  {
    var c, h := st.CachesOf(st.sessions[s].proc), st.sessions[s].household;
    DashLeft(c.dash, Dropped(c.dash, h), h);
    BootLeft(c.boot, Dropped(c.boot, h), h);
  }
}
