/** Sorted containers over a strict weak order, as sequences: what `std::multiset` and `std::set` keep. */
module OrderedSets {

  ghost predicate StrictWeakOrder<T(!new)>(less: (T, T) -> bool) {
    && (forall a, b :: less(a, b) ==> !less(b, a))
    && (forall a, b, c :: less(a, c) ==> less(a, b) || less(b, c))
  }

  predicate Equivalent<T>(less: (T, T) -> bool, a: T, b: T) {
    !less(a, b) && !less(b, a)
  }

  /** No element comes before a smaller one. */
  ghost predicate Sorted<T>(less: (T, T) -> bool, s: seq<T>) {
    forall i, j :: 0 <= i < j < |s| ==> !less(s[j], s[i])
  }

  /** Sorted, and no two elements are equivalent. */
  ghost predicate StrictlySorted<T>(less: (T, T) -> bool, s: seq<T>) {
    forall i, j :: 0 <= i < j < |s| ==> less(s[i], s[j])
  }

  /** The position behind every element that is not greater than `x`. */
  function UpperBound<T>(less: (T, T) -> bool, s: seq<T>, x: T): (k: nat)
    ensures k <= |s|
    ensures forall i :: 0 <= i < k ==> !less(x, s[i])
    ensures k < |s| ==> less(x, s[k])
  {
    if s == [] || less(x, s[0]) then 0 else 1 + UpperBound(less, s[1..], x)
  }

  /** `std::multiset::insert`: behind the equivalent elements. */
  function InsertMulti<T>(less: (T, T) -> bool, s: seq<T>, x: T): seq<T> {
    var k := UpperBound(less, s, x);
    s[..k] + [x] + s[k..]
  }

  predicate Contains<T>(less: (T, T) -> bool, s: seq<T>, x: T) {
    exists i :: 0 <= i < |s| && Equivalent(less, s[i], x)
  }

  /** `std::set::insert`: nothing happens if an equivalent element is there. */
  function InsertUnique<T>(less: (T, T) -> bool, s: seq<T>, x: T): seq<T> {
    if Contains(less, s, x) then s else InsertMulti(less, s, x)
  }

  lemma AllAfterUpperBound<T(!new)>(less: (T, T) -> bool, s: seq<T>, x: T, j: nat)
    requires StrictWeakOrder(less) && Sorted(less, s) && UpperBound(less, s, x) <= j < |s|
    ensures less(x, s[j])
  {
    var k := UpperBound(less, s, x);
    if k < j {
      assert !less(s[j], s[k]);
    }
  }

  /** Where each element of the longer sequence comes from. */
  lemma InsertedAt<T>(less: (T, T) -> bool, s: seq<T>, x: T, i: nat)
    requires i <= |s|
    ensures var k := UpperBound(less, s, x);
            InsertMulti(less, s, x)[i] == if i < k then s[i] else if i == k then x else s[i - 1]
  {}

  lemma InsertKeepsSorted<T(!new)>(less: (T, T) -> bool, s: seq<T>, x: T)
    requires StrictWeakOrder(less) && Sorted(less, s)
    ensures Sorted(less, InsertMulti(less, s, x))
  {
    var k, r := UpperBound(less, s, x), InsertMulti(less, s, x);
    forall i, j | 0 <= i < j < |r| ensures !less(r[j], r[i]) {
      InsertedAt(less, s, x, i);
      InsertedAt(less, s, x, j);
      if i == k {
        AllAfterUpperBound(less, s, x, j - 1);
      }
    }
  }

  lemma InsertKeepsElements<T>(less: (T, T) -> bool, s: seq<T>, x: T)
    ensures multiset(InsertMulti(less, s, x)) == multiset(s) + multiset{x}
  {
    var k := UpperBound(less, s, x);
    assert s == s[..k] + s[k..];
  }

  lemma StrictlySortedIsSorted<T(!new)>(less: (T, T) -> bool, s: seq<T>)
    requires StrictWeakOrder(less) && StrictlySorted(less, s)
    ensures Sorted(less, s)
  {}

  lemma InsertUniqueKeepsSorted<T(!new)>(less: (T, T) -> bool, s: seq<T>, x: T)
    requires StrictWeakOrder(less) && StrictlySorted(less, s)
    ensures StrictlySorted(less, InsertUnique(less, s, x))
    ensures Contains(less, InsertUnique(less, s, x), x)
    ensures forall y :: y in InsertUnique(less, s, x) ==> y in s || y == x
    ensures forall y :: y in s ==> y in InsertUnique(less, s, x)
    ensures |InsertUnique(less, s, x)| == if Contains(less, s, x) then |s| else |s| + 1
  {
    if !Contains(less, s, x) {
      var k, r := UpperBound(less, s, x), InsertMulti(less, s, x);
      StrictlySortedIsSorted(less, s);
      forall i, j | 0 <= i < j < |r| ensures less(r[i], r[j]) {
        InsertedAt(less, s, x, i);
        InsertedAt(less, s, x, j);
        if i == k {
          AllAfterUpperBound(less, s, x, j - 1);
        } else if j == k {
          assert !Equivalent(less, s[i], x);
        }
      }
      assert r[k] == x && !less(x, x);
      assert s == s[..k] + s[k..];
    }
  }
}
