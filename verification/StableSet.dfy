/** The bounded multiset that keeps the best `k` elements, with its callbacks. */
module StableSet {
  import opened OrderedSets

  /** The first `k` elements, or all. */
  function Take<T>(s: seq<T>, k: nat): seq<T> {
    if |s| <= k then s else s[..k]
  }

  /** Everything inserted, sorted; among equivalent elements, older ones first. */
  function SortAll<T>(less: (T, T) -> bool, h: seq<T>): seq<T> {
    if h == [] then [] else InsertMulti(less, SortAll(less, h[..|h| - 1]), h[|h| - 1])
  }

  // What "stable sort" means, without mentioning insertion

  type Tagged<T> = (T, nat)

  function Tags<T>(h: seq<T>): (r: seq<Tagged<T>>)
    ensures |r| == |h| && forall i :: 0 <= i < |h| ==> r[i] == (h[i], i)
  {
    seq(|h|, i requires 0 <= i < |h| => (h[i], i))
  }

  function Untag<T>(s: seq<Tagged<T>>): (r: seq<T>)
    ensures |r| == |s| && forall i :: 0 <= i < |s| ==> r[i] == s[i].0
  {
    seq(|s|, i requires 0 <= i < |s| => s[i].0)
  }

  /** `a` belongs before `b`: it is smaller, or equivalent and older. */
  predicate Before<T>(less: (T, T) -> bool, a: Tagged<T>, b: Tagged<T>) {
    less(a.0, b.0) || (Equivalent(less, a.0, b.0) && a.1 < b.1)
  }

  ghost predicate InOrder<T>(less: (T, T) -> bool, out: seq<Tagged<T>>) {
    forall i, j :: 0 <= i < j < |out| ==> Before(less, out[i], out[j])
  }

  /** `out` holds every inserted element with its time, in the order of a stable sort. */
  ghost predicate IsStableSort<T>(less: (T, T) -> bool, h: seq<T>, out: seq<Tagged<T>>) {
    multiset(out) == multiset(Tags(h)) && InOrder(less, out)
  }

  lemma {:induction false} SortAllSorted<T(!new)>(less: (T, T) -> bool, h: seq<T>)
    requires StrictWeakOrder(less)
    ensures Sorted(less, SortAll(less, h)) && |SortAll(less, h)| == |h|
  {
    if h != [] {
      SortAllSorted(less, h[..|h| - 1]);
      InsertKeepsSorted(less, SortAll(less, h[..|h| - 1]), h[|h| - 1]);
    }
  }

  lemma {:induction false} SortAllElements<T>(less: (T, T) -> bool, h: seq<T>)
    ensures multiset(SortAll(less, h)) == multiset(h)
  {
    if h != [] {
      SortAllElements(less, h[..|h| - 1]);
      InsertKeepsElements(less, SortAll(less, h[..|h| - 1]), h[|h| - 1]);
      assert h == h[..|h| - 1] + [h[|h| - 1]];
    }
  }

  function InsertAt<T>(s: seq<T>, k: nat, x: T): seq<T>
    requires k <= |s|
  {
    s[..k] + [x] + s[k..]
  }

  lemma {:induction false} SortAllIsStable<T(!new)>(less: (T, T) -> bool, h: seq<T>) returns (out: seq<Tagged<T>>)
    requires StrictWeakOrder(less)
    ensures IsStableSort(less, h, out) && Untag(out) == SortAll(less, h)
  {
    if h == [] {
      out := [];
    } else {
      var n := |h| - 1;
      var before := SortAllIsStable(less, h[..n]);
      out := StableStep(less, h, before);
    }
  }

  lemma StableStep<T(!new)>(less: (T, T) -> bool, h: seq<T>, before: seq<Tagged<T>>) returns (out: seq<Tagged<T>>)
    requires StrictWeakOrder(less) && h != []
    requires IsStableSort(less, h[..|h| - 1], before) && Untag(before) == SortAll(less, h[..|h| - 1])
    ensures IsStableSort(less, h, out) && Untag(out) == SortAll(less, h)
  {
    hide InOrder, Sorted, StrictWeakOrder, UpperBound;
    var n, s := |h| - 1, SortAll(less, h[..|h| - 1]);
    SortAllSorted(less, h[..n]);
    var k := UpperBound(less, s, h[n]);
    out := InsertAt(before, k, (h[n], n));
    OneMoreTag(h, before, k);
    StableInsert(less, before, s, h[n], n);
    UntagInsert(before, k, (h[n], n));
  }

  lemma UntagInsert<T>(s: seq<Tagged<T>>, k: nat, t: Tagged<T>)
    requires k <= |s|
    ensures Untag(InsertAt(s, k, t)) == InsertAt(Untag(s), k, t.0)
  {}

  lemma OneMoreTag<T>(h: seq<T>, before: seq<Tagged<T>>, k: nat)
    requires h != [] && k <= |before| && multiset(before) == multiset(Tags(h[..|h| - 1]))
    ensures multiset(InsertAt(before, k, (h[|h| - 1], |h| - 1))) == multiset(Tags(h))
    ensures forall t :: t in before ==> t.1 < |h| - 1
  {
    var n := |h| - 1;
    assert before == before[..k] + before[k..];
    assert Tags(h) == Tags(h[..n]) + [(h[n], n)];
    forall t | t in before ensures t.1 < n {
      assert t in multiset(before);
      assert t in Tags(h[..n]);
    }
  }

  lemma StableInsert<T(!new)>(less: (T, T) -> bool, before: seq<Tagged<T>>, s: seq<T>, x: T, n: nat)
    requires StrictWeakOrder(less) && Sorted(less, s) && Untag(before) == s && InOrder(less, before)
    requires forall t :: t in before ==> t.1 < n
    ensures InOrder(less, InsertAt(before, UpperBound(less, s, x), (x, n)))
  {
    var k := UpperBound(less, s, x);
    var out := InsertAt(before, k, (x, n));
    forall j | 0 <= j < |before|
      ensures if j < k then Before(less, before[j], (x, n)) else Before(less, (x, n), before[j])
    {
      assert before[j].0 == s[j] && before[j] in before;
      if j >= k {
        AllAfterUpperBound(less, s, x, j);
      }
    }
    forall i, j | 0 <= i < j < |out| ensures Before(less, out[i], out[j]) {
      InsertedElement(before, k, (x, n), i);
      InsertedElement(before, k, (x, n), j);
    }
  }

  lemma InsertedElement<T>(s: seq<T>, k: nat, x: T, i: nat)
    requires k <= |s| && i <= |s|
    ensures InsertAt(s, k, x)[i] == if i < k then s[i] else if i == k then x else s[i - 1]
  {}

  /** Cutting off early loses nothing: inserting into the best `k` gives the best `k`. */
  lemma InsertThenTake<T(!new)>(less: (T, T) -> bool, s: seq<T>, x: T, k: nat)
    ensures Take(InsertMulti(less, Take(s, k), x), k) == Take(InsertMulti(less, s, x), k)
  {
    hide UpperBound;
    if k < |s| {
      UpperBoundOfPrefix(less, s, x, k);
      var u := UpperBound(less, s, x);
      if u < k {
        InsertBeforeCut(s, u, x, k);
      } else {
        InsertBehindCut(s, u, x, k);
      }
    }
  }

  lemma InsertBeforeCut<T>(s: seq<T>, u: nat, x: T, k: nat)
    requires u < k < |s|
    ensures Take(s[..k][..u] + [x] + s[..k][u..], k) == Take(s[..u] + [x] + s[u..], k)
  {
    assert s[..k][..u] == s[..u];
    var l, r := s[..u] + [x] + s[..k][u..], s[..u] + [x] + s[u..];
    assert forall i :: 0 <= i < k ==> l[i] == r[i];
    assert l[..k] == r[..k];
  }

  lemma InsertBehindCut<T>(s: seq<T>, u: nat, x: T, k: nat)
    requires k <= u <= |s| && k < |s|
    ensures Take(s[..k][..k] + [x] + s[..k][k..], k) == Take(s[..u] + [x] + s[u..], k)
  {
    var l, r := s[..k][..k] + [x] + s[..k][k..], s[..u] + [x] + s[u..];
    assert l[..k] == s[..k];
    assert r[..k] == s[..k];
  }

  lemma {:induction false} UpperBoundOfPrefix<T>(less: (T, T) -> bool, s: seq<T>, x: T, k: nat)
    requires k <= |s|
    ensures UpperBound(less, s[..k], x) == if UpperBound(less, s, x) < k then UpperBound(less, s, x) else k
  {
    if k > 0 && !less(x, s[0]) {
      UpperBoundOfPrefix(less, s[1..], x, k - 1);
      assert s[..k][1..] == s[1..][..k - 1];
    }
  }

  lemma BestOfMore<T(!new)>(less: (T, T) -> bool, h: seq<T>, x: T, k: nat)
    requires StrictWeakOrder(less)
    ensures Take(SortAll(less, h + [x]), k) == Take(InsertMulti(less, Take(SortAll(less, h), k), x), k)
  {
    SortAllSorted(less, h);
    InsertThenTake(less, SortAll(less, h), x, k);
    assert (h + [x])[..|h|] == h;
  }

  /** Every inserted element has been removed or is still there. */
  ghost predicate Balanced<T>(inserted: seq<T>, removed: seq<T>, contents: seq<T>) {
    multiset(inserted) == multiset(removed) + multiset(contents)
  }

  /** Elements have only moved from the contents to the removed ones. */
  ghost predicate Moved<T>(removed: seq<T>, contents: seq<T>, removed': seq<T>, contents': seq<T>) {
    multiset(removed') + multiset(contents') == multiset(removed) + multiset(contents)
  }

  lemma BalanceKept<T>(inserted: seq<T>, removed: seq<T>, contents: seq<T>, x: T, all: seq<T>, removed': seq<T>,
                       contents': seq<T>)
    requires Balanced(inserted, removed, contents) && multiset(all) == multiset(contents) + multiset{x}
    requires Moved(removed, all, removed', contents')
    ensures Balanced(inserted + [x], removed', contents')
  {}

  /** `stable_multiset`, with the calls of its two callbacks recorded. */
  class StableMultiset<T(==, !new)> {
    const less: (T, T) -> bool
    const maxsize: nat
    var contents: seq<T>
    var insertFn: bool
    var removeFn: bool
    /** The arguments of the insert and the remove callback, oldest first. */
    var insertCalls: seq<T>
    var removeCalls: seq<T>
    /** Everything inserted since the last clear. */
    ghost var history: seq<T>

    ghost predicate Valid()
      reads this
    {
      && StrictWeakOrder(less)
      && contents == Take(SortAll(less, history), maxsize)
      && (insertFn && removeFn ==> Balanced(insertCalls, removeCalls, contents))
    }

    lemma ValidParts()
      requires Valid()
      ensures StrictWeakOrder(less) && contents == Take(SortAll(less, history), maxsize)
      ensures insertFn && removeFn ==> Balanced(insertCalls, removeCalls, contents)
    {}

    lemma PartsValid()
      requires StrictWeakOrder(less) && contents == Take(SortAll(less, history), maxsize)
      requires insertFn && removeFn ==> Balanced(insertCalls, removeCalls, contents)
      ensures Valid()
    {}

    constructor (less: (T, T) -> bool, maxsize: nat, insertFn: bool, removeFn: bool)
      requires StrictWeakOrder(less)
      ensures Valid() && history == [] && contents == []
      ensures this.less == less && this.maxsize == maxsize
      ensures this.insertFn == insertFn && this.removeFn == removeFn && insertCalls == removeCalls == []
    {
      this.less, this.maxsize := less, maxsize;
      this.insertFn, this.removeFn := insertFn, removeFn;
      contents, insertCalls, removeCalls, history := [], [], [], [];
    }

    /** Cut off the greatest elements beyond the limit. */
    method Trunc()
      modifies this`contents, this`removeCalls
      ensures contents == Take(old(contents), maxsize)
      ensures removeFn ==> Moved(old(removeCalls), old(contents), removeCalls, contents)
      ensures !removeFn ==> removeCalls == old(removeCalls)
    {
      while |contents| > maxsize
        invariant |contents| >= maxsize || contents == old(contents)
        invariant contents <= old(contents)
        invariant removeFn ==> Moved(old(removeCalls), old(contents), removeCalls, contents)
        invariant !removeFn ==> removeCalls == old(removeCalls)
        decreases |contents|
      {
        var last := |contents| - 1;
        assert contents == contents[..last] + [contents[last]];
        if removeFn {
          removeCalls := removeCalls + [contents[last]];
        }
        contents := contents[..last];
      }
    }

    method Insert(value: T)
      requires Valid()
      modifies this
      ensures Valid() && history == old(history) + [value]
      ensures insertFn == old(insertFn) && removeFn == old(removeFn)
      ensures insertCalls == if insertFn then old(insertCalls) + [value] else old(insertCalls)
    {
      hide *;
      ValidParts();
      if insertFn {
        insertCalls := insertCalls + [value];
      }
      BestOfMore(less, history, value, maxsize);
      InsertKeepsElements(less, contents, value);
      contents := InsertMulti(less, contents, value);
      ghost var all, removed := contents, removeCalls;
      Trunc();
      history := history + [value];
      if insertFn && removeFn {
        BalanceKept(old(insertCalls), removed, old(contents), value, all, removeCalls, contents);
      }
      PartsValid();
    }

    method Clear()
      requires Valid()
      modifies this
      ensures Valid() && history == [] && contents == []
      ensures insertFn == old(insertFn) && removeFn == old(removeFn) && insertCalls == old(insertCalls)
      ensures removeCalls == if removeFn then old(removeCalls) + old(contents) else old(removeCalls)
    {
      if removeFn {
        for i := 0 to |contents|
          invariant contents == old(contents) && insertCalls == old(insertCalls) && removeFn
                    && insertFn == old(insertFn)
          invariant removeCalls == old(removeCalls) + contents[..i]
        {
          removeCalls := removeCalls + [contents[i]];
        }
        assert contents[..|contents|] == contents;
      }
      contents, history := [], [];
    }
  }

  // The bounded set

  /** Everything inserted, sorted, with the first comer of each class of equivalent elements. */
  function SortUnique<T>(less: (T, T) -> bool, h: seq<T>): seq<T> {
    if h == [] then [] else InsertUnique(less, SortUnique(less, h[..|h| - 1]), h[|h| - 1])
  }

  /** The element that the unbounded set keeps for `x` is the first one inserted that is equivalent to it. */
  ghost predicate FirstComer<T>(less: (T, T) -> bool, h: seq<T>, x: T) {
    exists i :: 0 <= i < |h| && h[i] == x && forall j :: 0 <= j < i ==> !Equivalent(less, h[j], x)
  }

  lemma {:induction false} SortUniqueIsFirstComers<T(!new)>(less: (T, T) -> bool, h: seq<T>, x: T)
    requires StrictWeakOrder(less)
    ensures StrictlySorted(less, SortUnique(less, h))
    ensures x in SortUnique(less, h) <==> FirstComer(less, h, x)
  {
    hide StrictWeakOrder, StrictlySorted, Contains, InsertUnique, FirstComer;
    if h == [] {
      NobodyComes(less, x);
    } else {
      var n := |h| - 1;
      SortUniqueIsFirstComers(less, h[..n], x);
      FirstComerStep(less, h, x);
      AllSeen(less, h[..n], h[n]);
      InsertUniqueKeepsSorted(less, SortUnique(less, h[..n]), h[n]);
      InsertedIfNew(less, SortUnique(less, h[..n]), h[n], x);
    }
  }

  lemma NobodyComes<T(!new)>(less: (T, T) -> bool, x: T)
    ensures StrictlySorted(less, SortUnique(less, [])) && !FirstComer(less, [], x)
  {}

  /** The last element is a first comer if nothing equivalent came before it. */
  lemma FirstComerStep<T>(less: (T, T) -> bool, h: seq<T>, x: T)
    requires h != []
    ensures var n := |h| - 1;
            FirstComer(less, h, x)
            <==> FirstComer(less, h[..n], x) || (x == h[n] && !exists j :: 0 <= j < n && Equivalent(less, h[..n][j], x))
  {
    hide Equivalent;
    var n := |h| - 1;
    var before := h[..n];
    assert forall j :: 0 <= j < n ==> before[j] == h[j];
    if FirstComer(less, before, x) {
      var i :| 0 <= i < n && before[i] == x && forall j :: 0 <= j < i ==> !Equivalent(less, before[j], x);
      assert h[i] == x && forall j :: 0 <= j < i ==> !Equivalent(less, h[j], x);
    }
    if FirstComer(less, h, x) {
      var i :| 0 <= i < |h| && h[i] == x && forall j :: 0 <= j < i ==> !Equivalent(less, h[j], x);
      assert i < n ==> before[i] == x && forall j :: 0 <= j < i ==> !Equivalent(less, before[j], x);
    }
  }

  lemma InsertedIfNew<T>(less: (T, T) -> bool, s: seq<T>, y: T, x: T)
    ensures x in InsertUnique(less, s, y) <==> x in s || (x == y && !Contains(less, s, y))
  {
    if !Contains(less, s, y) {
      var k := UpperBound(less, s, y);
      assert s == s[..k] + s[k..];
    }
  }

  /** Every inserted element has an equivalent one in the set. */
  lemma {:induction false} AllSeen<T(!new)>(less: (T, T) -> bool, h: seq<T>, x: T)
    requires StrictWeakOrder(less)
    ensures StrictlySorted(less, SortUnique(less, h))
    ensures Contains(less, SortUnique(less, h), x) <==> exists j :: 0 <= j < |h| && Equivalent(less, h[j], x)
  {
    if h != [] {
      var n := |h| - 1;
      var s, s' := SortUnique(less, h[..n]), SortUnique(less, h);
      AllSeen(less, h[..n], x);
      InsertUniqueKeepsSorted(less, s, h[n]);
      assert forall j :: 0 <= j < n ==> h[..n][j] == h[j];
      if i :| 0 <= i < |s| && Equivalent(less, s[i], x) {
        assert s[i] in s';
      }
      if i :| 0 <= i < |s'| && Equivalent(less, s'[i], x) {
        assert s'[i] in s' && (s'[i] in s || s'[i] == h[n]);
      }
      if Equivalent(less, h[n], x) {
        var i :| 0 <= i < |s'| && Equivalent(less, s'[i], h[n]);
        assert Equivalent(less, s'[i], x);
      }
    }
  }

  lemma InsertUniqueThenTake<T(!new)>(less: (T, T) -> bool, s: seq<T>, x: T, k: nat)
    requires StrictWeakOrder(less) && StrictlySorted(less, s)
    ensures Take(InsertUnique(less, Take(s, k), x), k) == Take(InsertUnique(less, s, x), k)
  {
    StrictlySortedIsSorted(less, s);
    InsertThenTake(less, s, x, k);
    if k < |s| {
      var p := s[..k];
      if Contains(less, p, x) {
        var i :| 0 <= i < |p| && Equivalent(less, p[i], x);
        assert Equivalent(less, s[i], x);
      } else if i :| 0 <= i < |s| && Equivalent(less, s[i], x) {
        if i < k {
          PrefixHas(less, s, x, k, i);
        }
        EquivalentIsBefore(less, s, x, i);
        UpperBoundOfPrefix(less, s, x, k);
        assert InsertMulti(less, p, x) == p + [x];
      }
    }
  }

  lemma PrefixHas<T>(less: (T, T) -> bool, s: seq<T>, x: T, k: nat, i: nat)
    requires i < k <= |s| && Equivalent(less, s[i], x)
    ensures Contains(less, s[..k], x)
  {
    assert s[..k][i] == s[i];
  }

  lemma EquivalentIsBefore<T(!new)>(less: (T, T) -> bool, s: seq<T>, x: T, i: nat)
    requires StrictWeakOrder(less) && Sorted(less, s) && i < |s| && Equivalent(less, s[i], x)
    ensures i < UpperBound(less, s, x)
  {
    if UpperBound(less, s, x) <= i {
      AllAfterUpperBound(less, s, x, i);
    }
  }

  /** `stable_set`: no two equivalent elements. */
  class StableUniqueSet<T(==, !new)> {
    const less: (T, T) -> bool
    const maxsize: nat
    var contents: seq<T>
    ghost var history: seq<T>

    /** The contents are the first `maxsize` of what an unbounded set would hold. */
    ghost predicate Valid()
      reads this
    {
      StrictWeakOrder(less) && contents == Take(SortUnique(less, history), maxsize)
    }

    constructor (less: (T, T) -> bool, maxsize: nat)
      requires StrictWeakOrder(less)
      ensures Valid() && history == [] && this.less == less && this.maxsize == maxsize
    {
      this.less, this.maxsize := less, maxsize;
      contents, history := [], [];
    }

    method Trunc()
      modifies this`contents
      ensures contents == Take(old(contents), maxsize)
    {
      while |contents| > maxsize
        invariant |contents| >= maxsize || contents == old(contents)
        invariant contents <= old(contents)
        decreases |contents|
      {
        contents := contents[..|contents| - 1];
      }
    }

    method Insert(value: T)
      requires Valid()
      modifies this
      ensures Valid() && history == old(history) + [value]
    {
      AllSeen(less, history, value);
      InsertUniqueThenTake(less, SortUnique(less, history), value, maxsize);
      contents := InsertUnique(less, contents, value);
      Trunc();
      assert (history + [value])[..|history|] == history;
      history := history + [value];
    }
  }

  /** After any run of inserts the contents are the first `maxsize` elements of the stable sort of what
      was inserted, and the callbacks balance to the size. */
  lemma ContentsAreTheBest<T(!new)>(m: StableMultiset<T>) returns (out: seq<Tagged<T>>)
    requires m.Valid()
    ensures IsStableSort(m.less, m.history, out) && m.contents == Take(Untag(out), m.maxsize)
    ensures m.insertFn && m.removeFn ==> |m.insertCalls| - |m.removeCalls| == |m.contents|
  {
    out := SortAllIsStable(m.less, m.history);
    if m.insertFn && m.removeFn {
      assert |multiset(m.insertCalls)| == |multiset(m.removeCalls)| + |multiset(m.contents)|;
    }
  }
}
