/** The in-process cache of verified model wording: least recently used, with a time limit. */
module WordingCache {
  import opened Prelude
  import opened OrderedDict

  /** When the value was put, and the value. */
  datatype Stamp = Stamp(at: real, text: string)

  type Items = seq<Pair<string, Stamp>>

  // ---- one operation, as values ---------------------------------------

  predicate Expired(s: Stamp, now: real, ttl: real) {
    now - s.at > ttl
  }

  function Hit(d: Items, key: string, now: real, ttl: real): Option<string> {
    var item := Get(d, key);
    if key == "" || item.None? || Expired(item.value, now, ttl) then None else Some(item.value.text)
  }

  function AfterGet(d: Items, key: string, now: real, ttl: real): Items {
    if key == "" then d
    else if Hit(d, key, now, ttl).None? then Without(d, key)
    else PutLast(d, key, Get(d, key).value)
  }

  predicate Stored(key: string, text: string) {
    key != "" && text != ""
  }

  function AfterPut(d: Items, key: string, text: string, now: real, max: nat): Items {
    if Stored(key, text) then Trim(PutLast(d, key, Stamp(now, text)), max) else d
  }

  class Cache {
    const maxEntries: nat
    const ttl: real
    var items: Items
    var hits: nat
    var misses: nat

    constructor (maxEntries: nat, ttl: real)
      ensures this.maxEntries == maxEntries && this.ttl == ttl && items == [] && hits == 0 && misses == 0
    {
      this.maxEntries, this.ttl := maxEntries, ttl;
      items, hits, misses := [], 0, 0;
    }

    /** Cache.get: an expired or missing entry is dropped and counted as a miss. */
    method Lookup(key: string, now: real) returns (r: Option<string>)
      modifies this
      ensures r == Hit(old(items), key, now, ttl)
      ensures items == AfterGet(old(items), key, now, ttl)
      ensures hits == old(hits) + (if r.Some? then 1 else 0)
      ensures misses == old(misses) + (if key != "" && r.None? then 1 else 0)
      ensures key != "" && r.None? ==> !HasKey(items, key)
      ensures r.Some? ==> items != [] && items[|items| - 1].key == key && items[|items| - 1].value.text == r.value
    {
      if key == "" {
        return None;
      }
      var item := Get(items, key);
      if item.None? || now - item.value.at > ttl {
        WithoutHolds(items, key);
        items := Without(items, key);
        misses := misses + 1;
        return None;
      }
      items := PutLast(items, key, item.value);
      hits := hits + 1;
      r := Some(item.value.text);
    }

    /** Cache.put: store as the newest entry, then evict the oldest while there are too many. */
    method Put(key: string, text: string, now: real)
      modifies this`items
      ensures items == AfterPut(old(items), key, text, now, maxEntries)
      ensures key == "" || text == "" ==> items == old(items)
      ensures key != "" && text != "" && maxEntries > 0 ==>
        items != [] && items[|items| - 1] == Pair(key, Stamp(now, text)) && |items| <= maxEntries
    {
      if key == "" || text == "" {
        return;
      }
      items := PutLast(items, key, Stamp(now, text));
      ghost var full := items;
      ghost var gone := 0;
      while |items| > maxEntries
        invariant gone <= |full| && items == full[gone..]
        invariant gone > 0 ==> |items| >= maxEntries
        decreases |items|
      {
        items := items[1..];
        gone := gone + 1;
      }
    }
  }

  // ---- whole runs -----------------------------------------------------

  datatype Op = GetOp(key: string, now: real) | PutOp(key: string, text: string, now: real)

  datatype Limits = Limits(max: nat, ttl: real)

  function After(l: Limits, d: Items, op: Op): Items {
    match op
    case GetOp(key, now) => AfterGet(d, key, now, l.ttl)
    case PutOp(key, text, now) => AfterPut(d, key, text, now, l.max)
  }

  function Run(l: Limits, d: Items, ops: seq<Op>): Items {
    if ops == [] then d else After(l, Run(l, d, ops[..|ops| - 1]), ops[|ops| - 1])
  }

  /** The last effective put of a key. */
  function LastPut(ops: seq<Op>, key: string): Option<Stamp> {
    if ops == [] then None
    else
      var op := ops[|ops| - 1];
      if op.PutOp? && op.key == key && Stored(key, op.text) then Some(Stamp(op.now, op.text))
      else LastPut(ops[..|ops| - 1], key)
  }

  ghost predicate Faithful(l: Limits, d: Items, ops: seq<Op>) {
    && KeysDistinct(d) && |d| <= l.max
    && forall p :: p in d ==> LastPut(ops, p.key) == Some(p.value)
  }

  lemma PutLastIs(d: Items, key: string, s: Stamp)
    requires KeysDistinct(d)
    ensures var r := PutLast(d, key, s);
      && KeysDistinct(r)
      && (forall p :: p in r <==> p == Pair(key, s) || (p in d && p.key != key))
      && |r| == |d| + (if HasKey(d, key) then 0 else 1)
  {
    WithoutIs(d, key);
    var w, r := Without(d, key), PutLast(d, key, s);
    forall i, j | 0 <= i < j < |r|
      ensures r[i].key != r[j].key
    {
      assert w[i] in w;
    }
  }

  lemma TrimIs(d: Items, max: nat)
    requires KeysDistinct(d)
    ensures KeysDistinct(Trim(d, max)) && |Trim(d, max)| <= max
    ensures forall p :: p in Trim(d, max) ==> p in d
  {
  }

  /** Whatever the operations, entries hold their key's last put and never outnumber the limit. */
  lemma {:induction false} RunFaithful(l: Limits, ops: seq<Op>)
    ensures Faithful(l, Run(l, [], ops), ops)
  {
    if ops != [] {
      var before, op := ops[..|ops| - 1], ops[|ops| - 1];
      var d := Run(l, [], before);
      RunFaithful(l, before);
      WithoutIs(d, op.key);
      GetIs(d, op.key);
      match op
      case GetOp(key, now) =>
        if key != "" && Hit(d, key, now, l.ttl).Some? {
          PutLastIs(d, key, Get(d, key).value);
        }
      case PutOp(key, text, now) =>
        PutLastIs(d, key, Stamp(now, text));
        TrimIs(PutLast(d, key, Stamp(now, text)), l.max);
    }
  }

  /** A hit returns the last value put for that key, and that put is no older than the time limit. */
  lemma HitIsLastPut(l: Limits, ops: seq<Op>, key: string, now: real)
    requires Hit(Run(l, [], ops), key, now, l.ttl).Some?
    ensures LastPut(ops, key).Some?
    ensures Hit(Run(l, [], ops), key, now, l.ttl) == Some(LastPut(ops, key).value.text)
    ensures now - LastPut(ops, key).value.at <= l.ttl
  {
    RunFaithful(l, ops);
    GetIs(Run(l, [], ops), key);
  }

  // ---- survival -------------------------------------------------------

  /** The keys put or hit by the operations, starting from d. */
  function Touched(l: Limits, d: Items, ops: seq<Op>): set<string> {
    if ops == [] then {}
    else
      var before, op := ops[..|ops| - 1], ops[|ops| - 1];
      Touched(l, d, before) +
      match op
      case GetOp(key, now) => if Hit(Run(l, d, before), key, now, l.ttl).Some? then {key} else {}
      case PutOp(key, text, now) => if Stored(key, text) then {key} else {}
  }

  /** p is in d and every entry newer than it has a key among `newer`. */
  ghost predicate Behind(d: Items, p: Pair<string, Stamp>, newer: set<string>) {
    exists i :: 0 <= i < |d| && d[i] == p && forall j :: i < j < |d| ==> d[j].key in newer
  }

  lemma NewerTail(head: Pair<string, Stamp>, tail: Items, p: Pair<string, Stamp>, newer: set<string>)
    requires Behind(tail, p, newer)
    ensures Behind([head] + tail, p, newer)
  {
    var k :| 0 <= k < |tail| && tail[k] == p && forall j :: k < j < |tail| ==> tail[j].key in newer;
    assert ([head] + tail)[k + 1] == p;
  }

  lemma {:induction false} WithoutKeepsOrder(d: Items, key: string, p: Pair<string, Stamp>, newer: set<string>)
    requires Behind(d, p, newer) && p.key != key
    ensures Behind(Without(d, key), p, newer)
  {
    var i :| 0 <= i < |d| && d[i] == p && forall j :: i < j < |d| ==> d[j].key in newer;
    var tail := d[1..];
    var w := Without(tail, key);
    assert Without(d, key) == if d[0].key == key then w else [d[0]] + w by {
      assert [] + w == w;
    }
    hide Without;
    if i == 0 {
      WithoutHolds(tail, key);
      forall j | 0 <= j < |w|
        ensures w[j].key in newer
      {
        var h :| 0 <= h < |tail| && tail[h] == w[j];
        assert tail[h] == d[h + 1];
      }
      assert ([p] + w)[0] == p;
    } else {
      assert tail[i - 1] == p && forall j :: i - 1 < j < |tail| ==> tail[j].key in newer;
      WithoutKeepsOrder(tail, key, p, newer);
      NewerTail(d[0], w, p, newer);
    }
  }

  lemma AddedLast(d: Items, q: Pair<string, Stamp>, p: Pair<string, Stamp>, newer: set<string>)
    requires Behind(d, p, newer)
    ensures Behind(d + [q], p, newer + {q.key})
  {
    var i :| 0 <= i < |d| && d[i] == p && forall j :: i < j < |d| ==> d[j].key in newer;
    assert (d + [q])[i] == p;
  }

  lemma {:induction false} FewKeys(d: Items, newer: set<string>)
    requires KeysDistinct(d) && forall j :: 0 <= j < |d| ==> d[j].key in newer
    ensures |d| <= |newer|
  {
    if d != [] {
      var tail := d[1..];
      forall j | 0 <= j < |tail|
        ensures tail[j].key in newer - {d[0].key}
      {
        assert tail[j] == d[j + 1];
      }
      FewKeys(tail, newer - {d[0].key});
    }
  }

  lemma TrimSpares(d: Items, max: nat, p: Pair<string, Stamp>, newer: set<string>)
    requires KeysDistinct(d) && Behind(d, p, newer) && |newer| < max
    ensures Behind(Trim(d, max), p, newer)
  {
    var i :| 0 <= i < |d| && d[i] == p && forall j :: i < j < |d| ==> d[j].key in newer;
    var after := d[i + 1..];
    assert KeysDistinct(after) && forall j :: 0 <= j < |after| ==> after[j].key in newer;
    FewKeys(after, newer);
    if |d| > max {
      var cut := |d| - max;
      assert Trim(d, max)[i - cut] == p;
    }
  }

  ghost predicate Avoids(ops: seq<Op>, key: string) {
    forall k :: 0 <= k < |ops| ==> ops[k].key != key
  }

  lemma {:induction false} StaysBehind(l: Limits, d: Items, ops: seq<Op>, p: Pair<string, Stamp>)
    requires KeysDistinct(d) && Behind(d, p, {}) && Avoids(ops, p.key) && |Touched(l, d, ops)| < l.max
    ensures KeysDistinct(Run(l, d, ops)) && Behind(Run(l, d, ops), p, Touched(l, d, ops))
  {
    if ops != [] {
      var before, op := ops[..|ops| - 1], ops[|ops| - 1];
      var mid, seen := Run(l, d, before), Touched(l, d, before);
      SubsetSize(seen, Touched(l, d, ops));
      StaysBehind(l, d, before, p);
      WithoutKeepsOrder(mid, op.key, p, seen);
      WithoutIs(mid, op.key);
      match op
      case GetOp(key, now) =>
        if key != "" && Hit(mid, key, now, l.ttl).Some? {
          var q := Pair(key, Get(mid, key).value);
          AddedLast(Without(mid, key), q, p, seen);
          PutLastIs(mid, key, q.value);
        }
      case PutOp(key, text, now) =>
        if Stored(key, text) {
          var q := Pair(key, Stamp(now, text));
          AddedLast(Without(mid, key), q, p, seen);
          PutLastIs(mid, key, q.value);
          TrimSpares(PutLast(mid, key, q.value), l.max, p, seen + {key});
          TrimIs(PutLast(mid, key, q.value), l.max);
        }
    }
  }

  lemma SubsetSize(a: set<string>, b: set<string>)
    requires a <= b
    ensures |a| <= |b|
  {
    if a != b {
      assert b == a + (b - a);
    }
  }

  lemma {:induction false} RunSplits(l: Limits, d: Items, a: seq<Op>, b: seq<Op>)
    ensures Run(l, d, a + b) == Run(l, Run(l, d, a), b)
  {
    if b == [] {
      assert a + b == a;
    } else {
      assert (a + b)[..|a + b| - 1] == a + b[..|b| - 1];
      RunSplits(l, d, a, b[..|b| - 1]);
    }
  }

  lemma {:induction false} LastPutAvoids(a: seq<Op>, b: seq<Op>, key: string)
    requires Avoids(b, key)
    ensures LastPut(a + b, key) == LastPut(a, key)
  {
    if b == [] {
      assert a + b == a;
    } else {
      assert (a + b)[..|a + b| - 1] == a + b[..|b| - 1];
      LastPutAvoids(a, b[..|b| - 1], key);
    }
  }

  /**
   * Survival: after its own put or hit, an unexpired key is still there, with the same value, as
   * long as fewer than max_entries distinct other keys were put or hit since.
   */
  lemma Survives(l: Limits, ops: seq<Op>, touch: Op, since: seq<Op>, now: real)
    requires touch.key in Touched(l, Run(l, [], ops), [touch]) && touch.key != ""
    requires Avoids(since, touch.key)
    requires |Touched(l, Run(l, [], ops + [touch]), since)| < l.max
    requires LastPut(ops + [touch], touch.key).Some? ==> now - LastPut(ops + [touch], touch.key).value.at <= l.ttl
    ensures LastPut(ops + [touch] + since, touch.key).Some?
    ensures Hit(Run(l, [], ops + [touch] + since), touch.key, now, l.ttl)
      == Some(LastPut(ops + [touch] + since, touch.key).value.text)
  {
    var k, d, d1 := touch.key, Run(l, [], ops), Run(l, [], ops + [touch]);
    assert (ops + [touch])[..|ops|] == ops;
    assert [touch][..0] == [] && Run(l, d, []) == d;
    RunFaithful(l, ops);
    RunFaithful(l, ops + [touch]);
    TouchedIsNewest(l, d, touch);
    var p := d1[|d1| - 1];
    assert p in d1 && Behind(d1, p, {});
    StaysBehind(l, d1, since, p);
    RunSplits(l, [], ops + [touch], since);
    LastPutAvoids(ops + [touch], since, k);
    var last := Run(l, [], ops + [touch] + since);
    assert p in last;
    GetIs(last, k);
  }

  lemma TouchedIsNewest(l: Limits, d: Items, touch: Op)
    requires KeysDistinct(d) && l.max > 0
    requires if touch.GetOp? then Hit(d, touch.key, touch.now, l.ttl).Some? else Stored(touch.key, touch.text)
    ensures var r := After(l, d, touch); r != [] && r[|r| - 1].key == touch.key
  {
  }
}
