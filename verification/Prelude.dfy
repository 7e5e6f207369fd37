/** Options, finite sums and Python's stable `sorted`, shared by the engines. */
module Prelude {

  datatype Option<+T> = None | Some(value: T)

  function Min(a: int, b: int): int {
    if a <= b then a else b
  }

  function MinReal(a: real, b: real): real {
    if a <= b then a else b
  }

  // ---- sums -----------------------------------------------------------

  function Sum(xs: seq<int>): int {
    if xs == [] then 0 else xs[0] + Sum(xs[1..])
  }

  function SumReal(xs: seq<real>): real {
    if xs == [] then 0.0 else xs[0] + SumReal(xs[1..])
  }

  lemma {:induction false} SumUpdate(xs: seq<int>, i: nat, x: int)
    requires i < |xs|
    ensures Sum(xs[i := x]) == Sum(xs) - xs[i] + x
  {
    if i > 0 {
      assert xs[i := x][1..] == xs[1..][i - 1 := x];
      SumUpdate(xs[1..], i - 1, x);
    } else {
      assert xs[i := x][1..] == xs[1..];
    }
  }

  lemma {:induction false} SumMonotone(xs: seq<int>, ys: seq<int>)
    requires |xs| == |ys|
    requires forall i :: 0 <= i < |xs| ==> xs[i] <= ys[i]
    ensures Sum(xs) <= Sum(ys)
  {
    if xs != [] {
      SumMonotone(xs[1..], ys[1..]);
    }
  }

  lemma {:induction false} SumPointwise(xs: seq<int>, ys: seq<int>, zs: seq<int>)
    requires |xs| == |ys| == |zs|
    requires forall i :: 0 <= i < |xs| ==> zs[i] == xs[i] + ys[i]
    ensures Sum(zs) == Sum(xs) + Sum(ys)
  {
    if xs != [] {
      SumPointwise(xs[1..], ys[1..], zs[1..]);
    }
  }

  lemma {:induction false} SumMember(xs: seq<int>, i: nat)
    requires i < |xs|
    requires forall j :: 0 <= j < |xs| ==> 0 <= xs[j]
    ensures 0 <= xs[i] <= Sum(xs)
  {
    if i > 0 {
      SumMember(xs[1..], i - 1);
    } else if |xs| > 1 {
      SumMember(xs[1..], 0);
    }
  }

  /** One step of a list that a loop builds from the front. */
  lemma Joined<T>(done: seq<T>, x: T, rest: seq<T>)
    ensures done + ([x] + rest) == done + [x] + rest
    ensures done + ([] + rest) == done + rest
  {
  }

  // ---- whole quotients ------------------------------------------------

  lemma Multiple(d: int, n: nat)
    ensures d >= 1 ==> d * n >= n
    ensures d <= -1 ==> d * n <= -(n as int)
  {
  }

  lemma QuotientIs(a: nat, n: nat, q: nat, r: nat)
    requires a == q * n + r && r < n
    ensures a / n == q && a % n == r
  {
    var d := a / n - q;
    assert a == (a / n) * n + a % n;
    assert d * n == r - a % n by {
      assert (a / n) * n == q * n + d * n;
    }
    if d != 0 {
      Multiple(d, n);
    }
  }

  // ---- Python's sorted(): stable, by a total preorder -----------------

  ghost predicate TotalOrder<T(!new)>(leq: (T, T) -> bool) {
    && (forall x, y :: leq(x, y) || leq(y, x))
    && (forall x, y, z :: leq(x, y) && leq(y, z) ==> leq(x, z))
  }

  ghost predicate IsSorted<T>(xs: seq<T>, leq: (T, T) -> bool) {
    forall i, j :: 0 <= i < j < |xs| ==> leq(xs[i], xs[j])
  }

  function Insert<T>(x: T, xs: seq<T>, leq: (T, T) -> bool): seq<T> {
    if xs == [] || leq(x, xs[0]) then [x] + xs else [xs[0]] + Insert(x, xs[1..], leq)
  }

  function SortBy<T>(xs: seq<T>, leq: (T, T) -> bool): seq<T> {
    if xs == [] then [] else Insert(xs[0], SortBy(xs[1..], leq), leq)
  }

  lemma {:induction false} InsertPermutes<T>(x: T, xs: seq<T>, leq: (T, T) -> bool)
    ensures multiset(Insert(x, xs, leq)) == multiset{x} + multiset(xs)
  {
    if xs != [] && !leq(x, xs[0]) {
      assert xs == [xs[0]] + xs[1..];
      InsertPermutes(x, xs[1..], leq);
    }
  }

  lemma {:induction false} InsertSorted<T(!new)>(x: T, xs: seq<T>, leq: (T, T) -> bool)
    requires TotalOrder(leq) && IsSorted(xs, leq)
    ensures IsSorted(Insert(x, xs, leq), leq)
  {
    if xs != [] && !leq(x, xs[0]) {
      var rest := Insert(x, xs[1..], leq);
      InsertSorted(x, xs[1..], leq);
      InsertPermutes(x, xs[1..], leq);
      forall j | 0 <= j < |rest|
        ensures leq(xs[0], rest[j])
      {
        assert rest[j] in multiset(rest);
        assert rest[j] == x || rest[j] in xs[1..];
      }
    }
  }

  /** The result holds the same elements, in order. */
  lemma {:induction false} SortByCorrect<T(!new)>(xs: seq<T>, leq: (T, T) -> bool)
    ensures multiset(SortBy(xs, leq)) == multiset(xs)
    ensures |SortBy(xs, leq)| == |xs|
    ensures forall x :: x in SortBy(xs, leq) <==> x in xs
    ensures TotalOrder(leq) ==> IsSorted(SortBy(xs, leq), leq)
  {
    if xs != [] {
      assert xs == [xs[0]] + xs[1..];
      SortByCorrect(xs[1..], leq);
      InsertPermutes(xs[0], SortBy(xs[1..], leq), leq);
      if TotalOrder(leq) {
        InsertSorted(xs[0], SortBy(xs[1..], leq), leq);
      }
    }
    SameMultiset(SortBy(xs, leq), xs);
  }

  lemma {:induction false} InsertAt<T>(x: T, xs: seq<T>, leq: (T, T) -> bool) returns (m: nat)
    ensures m <= |xs| && Insert(x, xs, leq) == xs[..m] + [x] + xs[m..]
    ensures forall n :: 0 <= n < m ==> !leq(x, xs[n])
  {
    if xs == [] || leq(x, xs[0]) {
      m := 0;
    } else {
      var tail := xs[1..];
      var d := InsertAt(x, tail, leq);
      m := d + 1;
      assert xs[..m] == [xs[0]] + tail[..d] && xs[m..] == tail[d..];
      forall n | 0 <= n < m
        ensures !leq(x, xs[n])
      {
        if n > 0 {
          assert xs[n] == tail[n - 1];
        }
      }
    }
  }

  lemma Spliced<T>(t: seq<T>, x: T, m: nat, a: nat)
    requires m <= |t| && a <= |t|
    ensures var all := t[..m] + [x] + t[m..];
      |all| == |t| + 1 && all[a] == if a == m then x else t[if a < m then a else a - 1]
  {
  }

  /** The sort is stable: of two elements in a tie, the one that comes out first came in first. */
  lemma {:induction false} SortByStable<T>(xs: seq<T>, leq: (T, T) -> bool, a: nat, b: nat) returns (i: nat, j: nat)
    requires |SortBy(xs, leq)| == |xs| && a < b < |xs|
    ensures i < |xs| && j < |xs| && xs[i] == SortBy(xs, leq)[a] && xs[j] == SortBy(xs, leq)[b]
    ensures leq(xs[j], xs[i]) ==> i < j
  {
    var tail := xs[1..];
    var t := SortBy(tail, leq);
    var m := InsertAt(xs[0], t, leq);
    assert SortBy(xs, leq) == t[..m] + [xs[0]] + t[m..];
    hide Insert, SortBy;
    Spliced(t, xs[0], m, a);
    Spliced(t, xs[0], m, b);
    if a == m {
      i := 0;
      j := SortedFrom(tail, leq, b - 1);
      j := j + 1;
    } else if b == m {
      i := SortedFrom(tail, leq, a);
      i, j := i + 1, 0;
    } else {
      i, j := SortByStable(tail, leq, if a < m then a else a - 1, if b < m then b else b - 1);
      i, j := i + 1, j + 1;
    }
  }

  /** Every element of the sorted sequence comes from the original one. */
  lemma {:induction false} SortedFrom<T>(xs: seq<T>, leq: (T, T) -> bool, a: nat) returns (i: nat)
    requires |SortBy(xs, leq)| == |xs| && a < |xs|
    ensures i < |xs| && xs[i] == SortBy(xs, leq)[a]
  {
    var tail := xs[1..];
    var m := InsertAt(xs[0], SortBy(tail, leq), leq);
    if a == m {
      i := 0;
    } else {
      i := SortedFrom(tail, leq, if a < m then a else a - 1);
      i := i + 1;
    }
  }

  lemma SameMultiset<T>(xs: seq<T>, ys: seq<T>)
    requires multiset(xs) == multiset(ys)
    ensures |xs| == |ys|
    ensures forall x :: x in xs <==> x in ys
  {
    assert |multiset(xs)| == |multiset(ys)|;
    forall x
      ensures x in xs <==> x in ys
    {
      assert x in xs <==> x in multiset(xs);
      assert x in ys <==> x in multiset(ys);
    }
  }

  /** Where the head of one sequence sits in another ordering of the same elements. */
  lemma RemoveHead<T>(xs: seq<T>, ys: seq<T>) returns (j: nat)
    requires xs != [] && multiset(xs) == multiset(ys)
    ensures j < |ys| && ys[j] == xs[0]
    ensures multiset(xs[1..]) == multiset(ys[..j] + ys[j + 1..])
  {
    SameMultiset(xs, ys);
    assert xs[0] in ys;
    j :| 0 <= j < |ys| && ys[j] == xs[0];
    TakenOut(ys, j);
    TakenOut(xs, 0);
    assert xs[..0] + xs[0 + 1..] == xs[1..];
  }

  lemma TakenOut<T>(xs: seq<T>, j: nat)
    requires j < |xs|
    ensures multiset(xs[..j] + xs[j + 1..]) == multiset(xs) - multiset{xs[j]}
  {
    assert xs == xs[..j] + ([xs[j]] + xs[j + 1..]);
  }

  ghost predicate Distinct<T>(xs: seq<T>) {
    forall i, j :: 0 <= i < j < |xs| ==> xs[i] != xs[j]
  }

  lemma {:induction false} DistinctCounts<T>(xs: seq<T>)
    ensures Distinct(xs) <==> forall x :: x in xs ==> multiset(xs)[x] == 1
  {
    if xs != [] {
      var tail := xs[1..];
      assert xs == [xs[0]] + tail;
      DistinctCounts(tail);
      if Distinct(xs) {
        forall i, j | 0 <= i < j < |tail| ensures tail[i] != tail[j] {
          assert xs[i + 1] != xs[j + 1];
        }
        assert xs[0] !in tail;
        assert multiset(xs)[xs[0]] == 1 + multiset(tail)[xs[0]];
      }
      if forall x :: x in xs ==> multiset(xs)[x] == 1 {
        assert xs[0] !in tail by {
          assert xs[0] in xs;
          assert multiset(xs)[xs[0]] == 1 + multiset(tail)[xs[0]];
          assert multiset(tail)[xs[0]] == 0;
        }
        forall x | x in tail
          ensures multiset(tail)[x] == 1
        {
          assert x in xs && multiset(xs)[x] == multiset{xs[0]}[x] + multiset(tail)[x];
        }
        forall i, j | 0 <= i < j < |xs| ensures xs[i] != xs[j] {
          assert xs[j] == tail[j - 1];
          if i > 0 { assert xs[i] == tail[i - 1]; }
        }
      }
    }
  }

  lemma PermutationDistinct<T>(xs: seq<T>, ys: seq<T>)
    requires multiset(xs) == multiset(ys) && Distinct(xs)
    ensures Distinct(ys)
  {
    DistinctCounts(xs);
    DistinctCounts(ys);
    SameMultiset(xs, ys);
  }
}
