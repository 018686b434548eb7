/** Sorting of lists by a caller-supplied order, as Array.prototype.sort does it: a stable
    reordering whose outcome is fixed by the elements alone once the order tells them apart. */
module Ordering {

  ghost predicate TotalPreorder<T(!new)>(leq: (T, T) -> bool) {
    && (forall a, b :: leq(a, b) || leq(b, a))
    && (forall a, b, c :: leq(a, b) && leq(b, c) ==> leq(a, c))
  }

  /** The order separates any two different elements of the list. */
  ghost predicate Separates<T(!new)>(leq: (T, T) -> bool, xs: seq<T>) {
    forall a, b :: a in xs && b in xs && leq(a, b) && leq(b, a) ==> a == b
  }

  ghost predicate TotalOrder<T(!new)>(leq: (T, T) -> bool) {
    && TotalPreorder(leq)
    && (forall a, b :: leq(a, b) && leq(b, a) ==> a == b)
  }

  predicate Distinct<T(==)>(xs: seq<T>) {
    forall i, j :: 0 <= i < j < |xs| ==> xs[i] != xs[j]
  }

  ghost predicate Sorted<T>(leq: (T, T) -> bool, xs: seq<T>) {
    forall i, j :: 0 <= i < j < |xs| ==> leq(xs[i], xs[j])
  }

  function Insert<T>(leq: (T, T) -> bool, x: T, xs: seq<T>): (r: seq<T>)
    ensures multiset(r) == multiset{x} + multiset(xs)
  {
    if xs == [] then [x]
    else if leq(x, xs[0]) then [x] + xs
    else
      assert xs == [xs[0]] + xs[1..];
      [xs[0]] + Insert(leq, x, xs[1..])
  }

  function Sort<T>(leq: (T, T) -> bool, xs: seq<T>): (r: seq<T>)
    ensures multiset(r) == multiset(xs)
  {
    if xs == [] then []
    else
      assert xs == [xs[0]] + xs[1..];
      Insert(leq, xs[0], Sort(leq, xs[1..]))
  }

  lemma {:induction false} InsertKeepsSorted<T(!new)>(leq: (T, T) -> bool, x: T, xs: seq<T>)
    requires TotalPreorder(leq) && Sorted(leq, xs)
    ensures Sorted(leq, Insert(leq, x, xs))
  {
    if xs != [] && !leq(x, xs[0]) {
      var tail := Insert(leq, x, xs[1..]);
      InsertKeepsSorted(leq, x, xs[1..]);
      forall i | 0 <= i < |tail| ensures leq(xs[0], tail[i]) {
        assert tail[i] in multiset(tail);
        assert tail[i] == x || tail[i] in xs[1..];
      }
    } else if xs != [] {
      forall i | 0 <= i < |xs| ensures leq(x, xs[i]) {
        assert leq(x, xs[0]) && (i == 0 || leq(xs[0], xs[i]));
      }
    }
  }

  lemma {:induction false} SortSorts<T(!new)>(leq: (T, T) -> bool, xs: seq<T>)
    requires TotalPreorder(leq)
    ensures Sorted(leq, Sort(leq, xs))
  {
    if xs != [] {
      SortSorts(leq, xs[1..]);
      InsertKeepsSorted(leq, xs[0], Sort(leq, xs[1..]));
    }
  }

  /** Sorting changes nothing exactly on a list already in order. */
  lemma {:induction false} SortedIsFixed<T>(leq: (T, T) -> bool, xs: seq<T>)
    requires Sorted(leq, xs)
    ensures Sort(leq, xs) == xs
  {
    if xs != [] {
      SortedIsFixed(leq, xs[1..]);
      assert xs == [xs[0]] + xs[1..];
      if |xs| > 1 { assert leq(xs[0], xs[1]); }
    }
  }

  lemma SameElements<T>(xs: seq<T>, ys: seq<T>)
    requires multiset(xs) == multiset(ys)
    ensures |xs| == |ys|
    ensures forall x :: x in xs <==> x in ys
  {
    assert |multiset(xs)| == |multiset(ys)|;
    forall x ensures x in xs <==> x in ys {
      assert x in xs <==> x in multiset(xs);
      assert x in ys <==> x in multiset(ys);
    }
  }

  lemma HeadIsLeast<T(!new)>(leq: (T, T) -> bool, xs: seq<T>, x: T)
    requires Sorted(leq, xs) && x in xs
    ensures x == xs[0] || leq(xs[0], x)
  {
  }

  lemma TailElements<T>(xs: seq<T>)
    requires xs != []
    ensures multiset(xs[1..]) == multiset(xs) - multiset{xs[0]}
    ensures forall x :: x in xs[1..] ==> x in xs
  {
    assert xs == [xs[0]] + xs[1..];
  }

  /** A sorted list is determined by its elements. */
  lemma {:induction false} SortedUnique<T(!new)>(leq: (T, T) -> bool, xs: seq<T>, ys: seq<T>)
    requires Sorted(leq, xs) && Sorted(leq, ys) && multiset(xs) == multiset(ys)
    requires Separates(leq, xs)
    ensures xs == ys
  {
    SameElements(xs, ys);
    if xs != [] {
      HeadIsLeast(leq, xs, ys[0]);
      HeadIsLeast(leq, ys, xs[0]);
      assert xs[0] == ys[0];
      TailElements(xs);
      TailElements(ys);
      SortedUnique(leq, xs[1..], ys[1..]);
      assert xs == [xs[0]] + xs[1..] && ys == [ys[0]] + ys[1..];
    }
  }

  /** Sorting forgets the order the list arrived in. */
  lemma SortForgetsOrder<T(!new)>(leq: (T, T) -> bool, xs: seq<T>, ys: seq<T>)
    requires TotalPreorder(leq) && multiset(xs) == multiset(ys)
    requires Separates(leq, xs)
    ensures Sort(leq, xs) == Sort(leq, ys)
  {
    SortSorts(leq, xs);
    SortSorts(leq, ys);
    SameElements(xs, Sort(leq, xs));
    SortedUnique(leq, Sort(leq, xs), Sort(leq, ys));
  }

  /** Duplicate-free lists with the same members are permutations of each other. */
  lemma {:induction false} DistinctSameSet<T>(xs: seq<T>, ys: seq<T>)
    requires Distinct(xs) && Distinct(ys)
    requires forall x :: x in xs <==> x in ys
    ensures multiset(xs) == multiset(ys)
  {
    forall x ensures multiset(xs)[x] == multiset(ys)[x] {
      DistinctCount(xs, x);
      DistinctCount(ys, x);
    }
  }

  lemma {:induction false} DistinctCount<T>(xs: seq<T>, x: T)
    requires Distinct(xs)
    ensures multiset(xs)[x] == if x in xs then 1 else 0
  {
    if xs != [] {
      DistinctCount(xs[1..], x);
      assert xs == [xs[0]] + xs[1..];
      assert xs[0] !in xs[1..];
    }
  }

  lemma {:induction false} DistinctByCount<T>(xs: seq<T>)
    requires forall x :: multiset(xs)[x] <= 1
    ensures Distinct(xs)
  {
    if xs != [] {
      assert xs == [xs[0]] + xs[1..];
      assert multiset(xs) == multiset{xs[0]} + multiset(xs[1..]);
      forall x ensures multiset(xs[1..])[x] <= 1 && (x == xs[0] ==> multiset(xs[1..])[x] == 0) {
        assert multiset(xs)[x] <= 1;
      }
      assert xs[0] !in multiset(xs[1..]);
      DistinctByCount(xs[1..]);
      forall i, j | 0 <= i < j < |xs| ensures xs[i] != xs[j] {
        assert xs[j] == xs[1..][j - 1];
      }
    }
  }

  /** Permuting a list keeps it duplicate-free. */
  lemma DistinctPermutes<T>(xs: seq<T>, ys: seq<T>)
    requires Distinct(xs) && multiset(xs) == multiset(ys)
    ensures Distinct(ys)
  {
    forall x ensures multiset(ys)[x] <= 1 { DistinctCount(xs, x); }
    DistinctByCount(ys);
  }

  /** Lists obtained element by element from permuted lists are permutations of each other. */
  lemma {:induction false} PointwisePermutes<A, B>(xs: seq<A>, ys: seq<A>, us: seq<B>, vs: seq<B>)
    requires multiset(xs) == multiset(ys) && |us| == |xs| && |vs| == |ys|
    requires forall i, j :: 0 <= i < |xs| && 0 <= j < |ys| && xs[i] == ys[j] ==> us[i] == vs[j]
    ensures multiset(us) == multiset(vs)
    decreases |xs|
  {
    SameElements(xs, ys);
    if xs != [] {
      assert xs[0] in ys;
      var j :| 0 <= j < |ys| && ys[j] == xs[0];
      RemoveOne(xs, 0);
      RemoveOne(ys, j);
      RemoveOne(us, 0);
      RemoveOne(vs, j);
      PointwisePermutes(Without(xs, 0), Without(ys, j), Without(us, 0), Without(vs, j));
    }
  }

  function Without<T>(xs: seq<T>, k: nat): (r: seq<T>)
    requires k < |xs|
    ensures |r| == |xs| - 1
    ensures forall i :: 0 <= i < |r| ==> r[i] == xs[if i < k then i else i + 1]
  {
    xs[..k] + xs[k + 1..]
  }

  lemma RemoveOne<T>(xs: seq<T>, k: nat)
    requires k < |xs|
    ensures multiset(xs) == multiset(Without(xs, k)) + multiset{xs[k]}
    ensures multiset(Without(xs, k)) == multiset(xs) - multiset{xs[k]}
  {
    assert xs == xs[..k] + [xs[k]] + xs[k + 1..];
  }

  function ToSet<T>(xs: seq<T>): set<T> { set x | x in xs }

  /** `new Set(xs).size === xs.length` holds exactly for lists without repetition. */
  lemma {:induction false} SetSizeTellsDistinct<T>(xs: seq<T>)
    ensures |ToSet(xs)| <= |xs|
    ensures |ToSet(xs)| == |xs| <==> Distinct(xs)
  {
    if xs != [] {
      var rest := xs[1..];
      SetSizeTellsDistinct(rest);
      assert ToSet(xs) == ToSet(rest) + {xs[0]};
      if xs[0] in rest {
        var j :| 0 <= j < |rest| && rest[j] == xs[0];
        assert xs[0] == xs[j + 1];
        assert ToSet(xs) == ToSet(rest);
      } else {
        assert |ToSet(xs)| == |ToSet(rest)| + 1;
        if Distinct(rest) {
          forall i, j | 0 <= i < j < |xs| ensures xs[i] != xs[j] {
            assert xs[j] == rest[j - 1] && (i > 0 ==> xs[i] == rest[i - 1]);
          }
        }
      }
      if Distinct(xs) {
        forall i, j | 0 <= i < j < |rest| ensures rest[i] != rest[j] { assert xs[i + 1] != xs[j + 1]; }
      }
    }
  }
}
