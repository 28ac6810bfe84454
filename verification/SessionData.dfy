/** The comparators that order the best inputs of a session. */
module SessionData {
  import opened Basics
  import opened OrderedSets
  import opened StableSet

  datatype InputNode = InputNode(primary: real, secondary: real, length: nat)

  /** Higher primary score first, then higher secondary score, then shorter. */
  predicate InputNodeLess(lhs: InputNode, rhs: Option<InputNode>) {
    if rhs.None? then false
    else if lhs.primary == rhs.value.primary then
      if lhs.secondary == rhs.value.secondary then lhs.length < rhs.value.length
      else lhs.secondary > rhs.value.secondary
    else lhs.primary > rhs.value.primary
  }

  /** Higher secondary score first, then higher primary score, then shorter. */
  predicate InputNodeLessSecondary(lhs: InputNode, rhs: Option<InputNode>) {
    if rhs.None? then false
    else if lhs.secondary == rhs.value.secondary then
      if lhs.primary == rhs.value.primary then lhs.length < rhs.value.length
      else lhs.primary > rhs.value.primary
    else lhs.secondary > rhs.value.secondary
  }

  /** Longer first, then higher primary score, then higher secondary score. */
  predicate InputNodeLength(lhs: InputNode, rhs: Option<InputNode>) {
    if rhs.None? then false
    else if lhs.length == rhs.value.length then
      if lhs.primary == rhs.value.primary then lhs.secondary > rhs.value.secondary
      else lhs.primary > rhs.value.primary
    else lhs.length > rhs.value.length
  }

  /** A comparator on the nodes that are there. */
  function OnNodes(less: (InputNode, Option<InputNode>) -> bool): (InputNode, InputNode) -> bool {
    (a, b) => less(a, Some(b))
  }

  lemma LengthOn(a: InputNode, b: InputNode, c: InputNode)
    ensures InputNodeLength(a, Some(b)) ==> !InputNodeLength(b, Some(a))
    ensures InputNodeLength(a, Some(c)) ==> InputNodeLength(a, Some(b)) || InputNodeLength(b, Some(c))
    ensures InputNodeLength(a, Some(b)) || InputNodeLength(b, Some(a)) || a == b
  {}

  /** All three comparators are strict weak orders, and two nodes are equivalent only if all three values agree. */
  lemma ComparatorsAreOrders(less: (InputNode, Option<InputNode>) -> bool)
    requires less == InputNodeLess || less == InputNodeLessSecondary || less == InputNodeLength
    ensures StrictWeakOrder(OnNodes(less))
    ensures forall a, b :: Equivalent(OnNodes(less), a, b) ==> a == b
  {
    var on := OnNodes(less);
    forall a, b, c
      ensures on(a, b) ==> !on(b, a)
      ensures on(a, c) ==> on(a, b) || on(b, c)
      ensures on(a, b) || on(b, a) || a == b
    {
      LengthOn(a, b, c);
    }
  }

  /** What is cut off a sorted sequence is not smaller than what is kept. */
  lemma CutIsNotSmaller<T>(less: (T, T) -> bool, s: seq<T>, k: nat, x: T, y: T)
    requires Sorted(less, s) && k <= |s| && x in s[..k] && multiset(s)[y] > multiset(s[..k])[y]
    ensures !less(y, x)
  {
    assert s == s[..k] + s[k..];
    assert y in multiset(s[k..]);
    var i :| 0 <= i < k && s[i] == x;
    var j :| k <= j < |s| && s[j] == y;
  }

  /** `x` is kept before `y`, or `x` is kept and a copy of `y` is left out. */
  ghost predicate Preferred(m: StableMultiset<InputNode>, x: InputNode, y: InputNode)
    reads m
  {
    || (exists i, j :: 0 <= i < j < |m.contents| && m.contents[i] == x && m.contents[j] == y)
    || (x in m.contents && multiset(m.history)[y] > multiset(m.contents)[y])
  }

  lemma PreferredIsNotWorse(m: StableMultiset<InputNode>, x: InputNode, y: InputNode)
    requires m.Valid() && Preferred(m, x, y)
    ensures !m.less(y, x)
  {
    hide SortAll;
    var all := SortAll(m.less, m.history);
    SortAllSorted(m.less, m.history);
    SortAllElements(m.less, m.history);
    if x in m.contents && multiset(m.history)[y] > multiset(m.contents)[y] {
      CutIsNotSmaller(m.less, all, |m.contents|, x, y);
    } else {
      var i, j :| 0 <= i < j < |m.contents| && m.contents[i] == x && m.contents[j] == y;
      assert all[i] == x && all[j] == y;
    }
  }

  /** What the three kinds of top list prefer after any run of inserts, in the three values of a node: a higher
      primary score, at equal ones a higher secondary score, then less length; or the secondary score before the
      primary one; or more length, then a higher primary and at last a higher secondary score. */
  lemma TopListIsBest(m: StableMultiset<InputNode>, x: InputNode, y: InputNode)
    requires m.Valid() && Preferred(m, x, y)
    ensures m.less == OnNodes(InputNodeLess) ==>
              || x.primary > y.primary
              || (x.primary == y.primary && x.secondary > y.secondary)
              || (x.primary == y.primary && x.secondary == y.secondary && x.length <= y.length)
    ensures m.less == OnNodes(InputNodeLessSecondary) ==>
              || x.secondary > y.secondary
              || (x.secondary == y.secondary && x.primary > y.primary)
              || (x.secondary == y.secondary && x.primary == y.primary && x.length <= y.length)
    ensures m.less == OnNodes(InputNodeLength) ==>
              || x.length > y.length
              || (x.length == y.length && x.primary > y.primary)
              || (x.length == y.length && x.primary == y.primary && x.secondary >= y.secondary)
  {
    PreferredIsNotWorse(m, x, y);
    assert m.less == OnNodes(InputNodeLess) ==> m.less(y, x) == InputNodeLess(y, Some(x));
    assert m.less == OnNodes(InputNodeLessSecondary) ==> m.less(y, x) == InputNodeLessSecondary(y, Some(x));
    assert m.less == OnNodes(InputNodeLength) ==> m.less(y, x) == InputNodeLength(y, Some(x));
  }
}
