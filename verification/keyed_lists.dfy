/** Lists whose entries carry a key: the duplicate check of src/duplicate-keys.ts, the lookup Maps
    built once it passes, and what matching two such lists key by key amounts to. */
module KeyedLists {
  import opened Ordering

  function Keys<T, K>(items: seq<T>, keyOf: T -> K): (keys: seq<K>)
    ensures |keys| == |items| && forall i :: 0 <= i < |items| ==> keys[i] == keyOf(items[i])
  {
    seq(|items|, i requires 0 <= i < |items| => keyOf(items[i]))
  }

  ghost predicate KeysDistinct<T, K>(items: seq<T>, keyOf: T -> K) {
    Distinct(Keys(items, keyOf))
  }

  // ----- Counting -----

  /** The counter holds the number of occurrences of every key met so far. */
  ghost predicate Counts<K(!new)>(counts: map<K, nat>, order: seq<K>, keys: seq<K>) {
    && Distinct(order)
    && (forall k :: k in order <==> k in counts)
    && (forall k :: k in counts <==> k in keys)
    && (forall k :: k in counts ==> counts[k] == multiset(keys)[k])
  }

  lemma CountOneMore<K(!new)>(counts: map<K, nat>, order: seq<K>, keys: seq<K>, key: K)
    requires Counts(counts, order, keys)
    ensures Counts(counts[key := (if key in counts then counts[key] else 0) + 1],
      if key in counts then order else order + [key], keys + [key])
  {
    assert multiset(keys + [key]) == multiset(keys) + multiset{key};
    assert key !in counts ==> key !in multiset(keys);
  }

  lemma NothingCounted<K(!new)>()
    ensures Counts<K>(map[], [], [])
  {
  }

  method CountKeys<T, K(==,!new)>(items: seq<T>, keyOf: T -> K) returns (counts: map<K, nat>, order: seq<K>)
    ensures Counts(counts, order, Keys(items, keyOf))
  {
    hide Counts;
    ghost var keys := Keys(items, keyOf);
    NothingCounted<K>();
    counts, order := map[], [];
    for i := 0 to |items|
      invariant Counts(counts, order, keys[..i])
    {
      var key := keyOf(items[i]);
      CountOneMore(counts, order, keys[..i], key);
      assert keys[..i + 1] == keys[..i] + [key];
      order := if key in counts then order else order + [key];
      counts := counts[key := (if key in counts then counts[key] else 0) + 1];
    }
    assert keys[..|items|] == keys;
  }

  /** The repeated keys, each once. */
  method FindDuplicateKeys<T, K(==,!new)>(items: seq<T>, keyOf: T -> K) returns (duplicates: seq<K>)
    ensures Distinct(duplicates)
    ensures forall k :: k in duplicates <==> multiset(Keys(items, keyOf))[k] > 1
    ensures duplicates == [] <==> KeysDistinct(items, keyOf)
  {
    var counts, order := CountKeys(items, keyOf);
    duplicates := Repeated(counts, order);
    NoneRepeated(Keys(items, keyOf), duplicates);
  }

  method Repeated<K(==)>(counts: map<K, nat>, order: seq<K>) returns (duplicates: seq<K>)
    requires Distinct(order) && forall k :: k in order ==> k in counts
    ensures Distinct(duplicates)
    ensures forall k :: k in duplicates <==> k in order && counts[k] > 1
  {
    duplicates := [];
    for i := 0 to |order|
      invariant Distinct(duplicates)
      invariant forall k :: k in duplicates <==> k in order[..i] && counts[k] > 1
    {
      assert order[..i + 1] == order[..i] + [order[i]];
      assert order[i] !in order[..i];
      if counts[order[i]] > 1 { duplicates := duplicates + [order[i]]; }
    }
    assert order[..|order|] == order;
  }

  lemma NoneRepeated<K>(keys: seq<K>, duplicates: seq<K>)
    requires forall k :: k in duplicates <==> k in keys && multiset(keys)[k] > 1
    ensures duplicates == [] <==> Distinct(keys)
    ensures forall k :: k in duplicates <==> multiset(keys)[k] > 1
  {
    if Distinct(keys) {
      forall k ensures k !in duplicates { DistinctCount(keys, k); }
      assert duplicates != [] ==> duplicates[0] in duplicates;
    }
    if duplicates == [] {
      forall k ensures multiset(keys)[k] <= 1 { assert k in keys <==> k in multiset(keys); }
      DistinctByCount(keys);
    }
    forall k ensures k in duplicates <==> multiset(keys)[k] > 1 { assert k in keys <==> k in multiset(keys); }
  }

  // ----- Lookup -----

  /** `new Map(items.map(item => [keyOf(item), item]))`: a later entry replaces an earlier one. */
  function IndexBy<T, K(==)>(items: seq<T>, keyOf: T -> K): map<K, T> {
    if items == [] then map[]
    else
      var last := items[|items| - 1];
      IndexBy(items[..|items| - 1], keyOf)[keyOf(last) := last]
  }

  lemma {:induction false} IndexFinds<T, K>(items: seq<T>, keyOf: T -> K, key: K)
    ensures key in IndexBy(items, keyOf) <==> key in Keys(items, keyOf)
    ensures key in IndexBy(items, keyOf) ==>
      IndexBy(items, keyOf)[key] in items && keyOf(IndexBy(items, keyOf)[key]) == key
  {
    if items != [] {
      var n := |items| - 1;
      IndexFinds(items[..n], keyOf, key);
      assert items == items[..n] + [items[n]];
      assert Keys(items, keyOf) == Keys(items[..n], keyOf) + [keyOf(items[n])];
    }
  }

  /** The Map is as large as the list exactly when no key repeats. */
  lemma IndexSize<T, K(!new)>(items: seq<T>, keyOf: T -> K)
    ensures |IndexBy(items, keyOf)| == |items| <==> KeysDistinct(items, keyOf)
  {
    var m, keys := IndexBy(items, keyOf), Keys(items, keyOf);
    SetSizeTellsDistinct(keys);
    assert m.Keys == ToSet(keys) by {
      forall k ensures k in m <==> k in ToSet(keys) { IndexFinds(items, keyOf, k); }
    }
    assert |m| == |m.Keys|;
  }

  lemma KeyOwner<T, K>(items: seq<T>, keyOf: T -> K, a: T, b: T)
    requires KeysDistinct(items, keyOf) && a in items && b in items && keyOf(a) == keyOf(b)
    ensures a == b
  {
    var i :| 0 <= i < |items| && items[i] == a;
    var j :| 0 <= j < |items| && items[j] == b;
    assert Keys(items, keyOf)[i] == Keys(items, keyOf)[j];
    assert !(i < j) && !(j < i);
  }

  lemma KeyListed<T, K>(items: seq<T>, keyOf: T -> K, key: K)
    ensures key in Keys(items, keyOf) <==> exists x :: x in items && keyOf(x) == key
  {
    if key in Keys(items, keyOf) {
      var i :| 0 <= i < |items| && Keys(items, keyOf)[i] == key;
      assert items[i] in items;
    }
    if x :| x in items && keyOf(x) == key {
      var i :| 0 <= i < |items| && items[i] == x;
      assert Keys(items, keyOf)[i] == key;
    }
  }

  // ----- Correspondence -----

  /** Every observed key is planned, and every planned entry has an observed one that agrees. */
  ghost predicate MatchedByKey<T, K, N>(planned: seq<T>, observed: seq<T>, keyOf: T -> K, view: T -> N) {
    && (forall o :: o in observed ==> keyOf(o) in Keys(planned, keyOf))
    && (forall p :: p in planned ==> exists o :: o in observed && keyOf(o) == keyOf(p) && view(o) == view(p))
  }

  lemma {:induction false} ViewsDistinct<T, K, N>(items: seq<T>, keyOf: T -> K, view: T -> N)
    requires KeysDistinct(items, keyOf)
    requires forall a, b :: a in items && b in items && view(a) == view(b) ==> keyOf(a) == keyOf(b)
    ensures KeysDistinct(items, view)
  {
    forall i, j | 0 <= i < j < |items| ensures Keys(items, view)[i] != Keys(items, view)[j] {
      assert Keys(items, keyOf)[i] != Keys(items, keyOf)[j];
      assert items[i] in items && items[j] in items;
    }
  }

  /** Matching key by key is a one-to-one correspondence: the two lists hold the same entries. */
  lemma Corresponds<T(!new), K(!new), N(!new)>(planned: seq<T>, observed: seq<T>, keyOf: T -> K, view: T -> N)
    requires KeysDistinct(planned, keyOf) && KeysDistinct(observed, keyOf)
    requires forall a, b :: view(a) == view(b) ==> keyOf(a) == keyOf(b)
    ensures MatchedByKey(planned, observed, keyOf, view)
      <==> multiset(Keys(planned, view)) == multiset(Keys(observed, view))
  {
    ViewsDistinct(planned, keyOf, view);
    ViewsDistinct(observed, keyOf, view);
    if MatchedByKey(planned, observed, keyOf, view) {
      forall v ensures v in Keys(planned, view) <==> v in Keys(observed, view) {
        SameViews(planned, observed, keyOf, view, v);
      }
      DistinctSameSet(Keys(planned, view), Keys(observed, view));
    }
    if multiset(Keys(planned, view)) == multiset(Keys(observed, view)) {
      SameElements(Keys(planned, view), Keys(observed, view));
      forall o | o in observed ensures keyOf(o) in Keys(planned, keyOf) {
        KeyListed(observed, view, view(o));
        KeyListed(planned, view, view(o));
        KeyListed(planned, keyOf, keyOf(o));
      }
      forall p | p in planned ensures exists o :: o in observed && keyOf(o) == keyOf(p) && view(o) == view(p) {
        KeyListed(planned, view, view(p));
        KeyListed(observed, view, view(p));
      }
    }
  }

  lemma SameViews<T, K, N>(planned: seq<T>, observed: seq<T>, keyOf: T -> K, view: T -> N, v: N)
    requires KeysDistinct(planned, keyOf) && MatchedByKey(planned, observed, keyOf, view)
    requires KeysDistinct(observed, keyOf)
    ensures v in Keys(planned, view) <==> v in Keys(observed, view)
  {
    KeyListed(planned, view, v);
    KeyListed(observed, view, v);
    if o :| o in observed && view(o) == v {
      KeyListed(planned, keyOf, keyOf(o));
      var p :| p in planned && keyOf(p) == keyOf(o);
      var o' :| o' in observed && keyOf(o') == keyOf(p) && view(o') == view(p);
      KeyOwner(observed, keyOf, o, o');
    }
  }

  /** Permuting the items permutes their keys. */
  lemma KeysPermute<T, K>(xs: seq<T>, ys: seq<T>, keyOf: T -> K)
    requires multiset(xs) == multiset(ys)
    ensures multiset(Keys(xs, keyOf)) == multiset(Keys(ys, keyOf))
    ensures KeysDistinct(xs, keyOf) <==> KeysDistinct(ys, keyOf)
  {
    PointwisePermutes(xs, ys, Keys(xs, keyOf), Keys(ys, keyOf));
    if KeysDistinct(xs, keyOf) { DistinctPermutes(Keys(xs, keyOf), Keys(ys, keyOf)); }
    if KeysDistinct(ys, keyOf) { DistinctPermutes(Keys(ys, keyOf), Keys(xs, keyOf)); }
  }

  // ----- Comparing a planned with an observed list -----

  ghost predicate Answered<T, K>(planned: T, observed: seq<T>, keyOf: T -> K, accept: (T, T) -> bool) {
    exists o :: o in observed && keyOf(o) == keyOf(planned) && accept(planned, o)
  }

  ghost predicate AllPlanned<T, K>(planned: seq<T>, observed: seq<T>, keyOf: T -> K) {
    forall o :: o in observed ==> keyOf(o) in Keys(planned, keyOf)
  }

  /** Every observed key is planned, and every planned entry has an accepted observed one. */
  ghost predicate Covers<T, K>(planned: seq<T>, observed: seq<T>, keyOf: T -> K, accept: (T, T) -> bool) {
    CoversFirst(planned, observed, keyOf, accept, |planned|)
  }

  ghost predicate CoversFirst<T, K>(planned: seq<T>, observed: seq<T>, keyOf: T -> K, accept: (T, T) -> bool, n: nat)
    requires n <= |planned|
  {
    && AllPlanned(planned, observed, keyOf)
    && (forall i :: 0 <= i < n ==> Answered(planned[i], observed, keyOf, accept))
  }

  method FindUnplanned<T, K(==)>(planned: seq<T>, observed: seq<T>, keyOf: T -> K) returns (unplanned: seq<K>)
    ensures unplanned == [] <==> AllPlanned(planned, observed, keyOf)
  {
    unplanned := [];
    var plannedKeys := ToSet(Keys(planned, keyOf));
    for i := 0 to |observed|
      invariant unplanned == [] <==> forall j :: 0 <= j < i ==> keyOf(observed[j]) in plannedKeys
    {
      if keyOf(observed[i]) !in plannedKeys { unplanned := unplanned + [keyOf(observed[i])]; }
    }
    assert forall j :: 0 <= j < |observed| ==> observed[j] in observed;
  }

  /** Looking a key up in the Map finds the one observed entry that carries it. */
  lemma LookupExactly<T, K>(planned: T, observed: seq<T>, keyOf: T -> K, accept: (T, T) -> bool)
    requires KeysDistinct(observed, keyOf)
    ensures var byKey := IndexBy(observed, keyOf);
      Answered(planned, observed, keyOf, accept) <==>
        keyOf(planned) in byKey && accept(planned, byKey[keyOf(planned)])
  {
    var byKey := IndexBy(observed, keyOf);
    IndexFinds(observed, keyOf, keyOf(planned));
    if Answered(planned, observed, keyOf, accept) {
      var o :| o in observed && keyOf(o) == keyOf(planned) && accept(planned, o);
      KeyListed(observed, keyOf, keyOf(planned));
      KeyOwner(observed, keyOf, o, byKey[keyOf(planned)]);
    }
  }

  function Itself<T>(x: T): T { x }

  lemma KeysItself<T>(items: seq<T>)
    ensures Keys(items, Itself) == items
  {
  }

  /** When an accepted observed entry is one that looks like the planned entry, covering is a
      one-to-one correspondence of views. */
  lemma CoversExactly<T(!new), K(!new), N(!new)>(planned: seq<T>, observed: seq<T>, keyOf: T -> K, view: T -> N, accept: (T, T) -> bool)
    requires KeysDistinct(planned, keyOf) && KeysDistinct(observed, keyOf)
    requires forall a, b :: view(a) == view(b) ==> keyOf(a) == keyOf(b)
    requires forall p, o :: p in planned && o in observed && keyOf(o) == keyOf(p) ==> (accept(p, o) <==> view(o) == view(p))
    ensures Covers(planned, observed, keyOf, accept) <==>
      multiset(Keys(observed, view)) == multiset(Keys(planned, view))
  {
    Corresponds(planned, observed, keyOf, view);
    assert Covers(planned, observed, keyOf, accept) <==> MatchedByKey(planned, observed, keyOf, view) by {
      if Covers(planned, observed, keyOf, accept) {
        forall p | p in planned ensures exists o :: o in observed && keyOf(o) == keyOf(p) && view(o) == view(p) {
          var i :| 0 <= i < |planned| && planned[i] == p;
          assert Answered(planned[i], observed, keyOf, accept);
        }
      }
      if MatchedByKey(planned, observed, keyOf, view) {
        forall i | 0 <= i < |planned| ensures Answered(planned[i], observed, keyOf, accept) {
          assert planned[i] in planned;
        }
      }
    }
  }

  // ----- Sets given as lists -----

  ghost predicate SameDistinct<T(!new)>(left: seq<T>, right: seq<T>) {
    Distinct(left) && Distinct(right) && forall x :: x in left <==> x in right
  }

  /** Equal as sets, with no repetition tolerated on either side. */
  method SetsExactlyEqual<T(==,!new)>(left: seq<T>, right: seq<T>) returns (equal: bool)
    ensures equal <==> SameDistinct(left, right)
  {
    var leftSet, rightSet := ToSet(left), ToSet(right);
    SetSizeTellsDistinct(left);
    SetSizeTellsDistinct(right);
    if |leftSet| != |left| || |rightSet| != |right| { return false; }
    if |leftSet| != |rightSet| {
      assert SameDistinct(left, right) ==> leftSet == rightSet;
      return false;
    }
    for i := 0 to |left|
      invariant forall j :: 0 <= j < i ==> left[j] in rightSet
    {
      if left[i] !in rightSet { return false; }
    }
    SubsetOfSameSize(leftSet, rightSet);
    assert forall x :: x in left <==> x in leftSet;
    return true;
  }

  lemma SubsetOfSameSize<T>(a: set<T>, b: set<T>)
    requires a <= b && |a| == |b|
    ensures a == b
  {
    assert b == a + (b - a);
    assert |b - a| == 0;
  }
}
