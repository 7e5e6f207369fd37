/** Python's OrderedDict as a sequence of pairs, oldest first. */
module OrderedDict {
  import opened Prelude

  datatype Pair<K, V> = Pair(key: K, value: V)

  ghost predicate KeysDistinct<K, V>(d: seq<Pair<K, V>>) {
    forall i, j :: 0 <= i < j < |d| ==> d[i].key != d[j].key
  }

  predicate HasKey<K(==), V>(d: seq<Pair<K, V>>, key: K) {
    exists i :: 0 <= i < |d| && d[i].key == key
  }

  function Get<K(==), V>(d: seq<Pair<K, V>>, key: K): Option<V> {
    if d == [] then None else if d[0].key == key then Some(d[0].value) else Get(d[1..], key)
  }

  function Without<K(==), V>(d: seq<Pair<K, V>>, key: K): seq<Pair<K, V>> {
    if d == [] then [] else (if d[0].key == key then [] else [d[0]]) + Without(d[1..], key)
  }

  /** d[key] = value followed by move_to_end(key). */
  function PutLast<K(==), V>(d: seq<Pair<K, V>>, key: K, value: V): seq<Pair<K, V>> {
    Without(d, key) + [Pair(key, value)]
  }

  /** d[key] = value: an existing key keeps its place, a new one goes last. */
  function Assign<K(==), V>(d: seq<Pair<K, V>>, key: K, value: V): seq<Pair<K, V>> {
    if d == [] then [Pair(key, value)]
    else if d[0].key == key then [Pair(key, value)] + d[1..]
    else [d[0]] + Assign(d[1..], key, value)
  }

  /** while len(d) > max: popitem(last=False). */
  function Trim<K, V>(d: seq<Pair<K, V>>, max: nat): seq<Pair<K, V>> {
    if |d| > max then d[|d| - max..] else d
  }

  lemma {:induction false} WithoutHolds<K, V>(d: seq<Pair<K, V>>, key: K)
    ensures forall p :: p in Without(d, key) <==> p in d && p.key != key
    ensures forall j :: 0 <= j < |Without(d, key)| ==> Without(d, key)[j] in d && Without(d, key)[j].key != key
    ensures |Without(d, key)| <= |d|
  {
    if d != [] {
      assert d == [d[0]] + d[1..];
      WithoutHolds(d[1..], key);
    }
  }

  lemma {:induction false} WithoutAbsent<K, V>(d: seq<Pair<K, V>>, key: K)
    requires forall i :: 0 <= i < |d| ==> d[i].key != key
    ensures Without(d, key) == d
  {
    if d != [] {
      WithoutAbsent(d[1..], key);
    }
  }

  lemma {:induction false} WithoutIs<K, V>(d: seq<Pair<K, V>>, key: K)
    ensures forall p :: p in Without(d, key) <==> p in d && p.key != key
    ensures |Without(d, key)| <= |d|
    ensures KeysDistinct(d) ==> KeysDistinct(Without(d, key)) && (HasKey(d, key) ==> |Without(d, key)| == |d| - 1)
    ensures !HasKey(d, key) ==> Without(d, key) == d
  {
    WithoutHolds(d, key);
    if !HasKey(d, key) {
      WithoutAbsent(d, key);
    }
    if d != [] && KeysDistinct(d) {
      var tail := d[1..];
      assert KeysDistinct(tail);
      WithoutIs(tail, key);
      WithoutHolds(tail, key);
      assert d == [d[0]] + tail;
      if d[0].key == key {
        WithoutAbsent(tail, key);
      } else {
        HeadStaysDistinct(d[0], tail, Without(tail, key));
        if HasKey(d, key) {
          var i :| 0 <= i < |d| && d[i].key == key;
          assert tail[i - 1].key == key;
        }
      }
    }
  }

  lemma HeadStaysDistinct<K, V>(h: Pair<K, V>, tail: seq<Pair<K, V>>, w: seq<Pair<K, V>>)
    requires KeysDistinct([h] + tail) && KeysDistinct(w)
    requires forall j :: 0 <= j < |w| ==> w[j] in tail
    ensures KeysDistinct([h] + w)
  {
    var d, r := [h] + tail, [h] + w;
    forall i, j | 0 <= i < j < |r|
      ensures r[i].key != r[j].key
    {
      if i == 0 {
        var k :| 0 <= k < |tail| && tail[k] == w[j - 1];
        assert d[0].key != d[k + 1].key;
      } else {
        assert w[i - 1].key != w[j - 1].key;
      }
    }
  }

  lemma TailHasKey<K, V>(d: seq<Pair<K, V>>, key: K)
    requires d != []
    ensures HasKey(d, key) <==> d[0].key == key || HasKey(d[1..], key)
  {
    if i :| 0 < i < |d| && d[i].key == key {
      assert d[1..][i - 1].key == key;
    }
    if i :| 0 <= i < |d| - 1 && d[1..][i].key == key {
      assert d[i + 1].key == key;
    }
  }

  lemma HeadIsOnly<K, V>(d: seq<Pair<K, V>>, p: Pair<K, V>)
    requires d != [] && KeysDistinct(d) && p in d
    ensures KeysDistinct(d[1..])
    ensures if p.key == d[0].key then p == d[0] else p in d[1..]
  {
    var i :| 0 <= i < |d| && d[i] == p;
    assert i > 0 ==> d[1..][i - 1] == p;
  }

  lemma {:induction false} GetIs<K, V>(d: seq<Pair<K, V>>, key: K)
    ensures Get(d, key).Some? <==> HasKey(d, key)
    ensures Get(d, key).Some? ==> Pair(key, Get(d, key).value) in d
    ensures KeysDistinct(d) ==> forall p :: p in d && p.key == key ==> Get(d, key) == Some(p.value)
  {
    if d != [] {
      var tail := d[1..];
      assert Get(d, key) == if d[0].key == key then Some(d[0].value) else Get(tail, key);
      hide Get, HasKey, KeysDistinct;
      GetIs(tail, key);
      TailHasKey(d, key);
      assert d[0] == Pair(d[0].key, d[0].value);
      if KeysDistinct(d) {
        forall p | p in d && p.key == key
          ensures Get(d, key) == Some(p.value)
        {
          HeadIsOnly(d, p);
        }
      }
    }
  }

  lemma {:induction false} AssignIs<K, V>(d: seq<Pair<K, V>>, key: K, value: V)
    ensures forall p :: p in Assign(d, key, value) ==> p in d || p == Pair(key, value)
    ensures |Assign(d, key, value)| <= |d| + 1
    ensures Pair(key, value) in Assign(d, key, value)
  {
    if d != [] {
      assert d == [d[0]] + d[1..];
      AssignIs(d[1..], key, value);
    }
  }
}
