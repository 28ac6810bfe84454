/** Choosing the sources of the next generation: budgets for the delta-debugging controllers, their best
    results, then other inputs at a falling score threshold, and of all these the better half. */
module FilterFunctions {
  import opened Basics
  import opened OrderedSets
  import opened SourceOrders

  // ---------------------------------------------------------------------------------------------
  // The budget loop

  /** How often position `j` of `n` is visited by `t` steps that go round in turn. */
  function Visits(t: nat, j: nat, n: nat): int
    requires j < n
  {
    (t + n - 1 - j) / n
  }

  /** After `t` steps, `r` full rounds are done and the next position is `idx`. */
  ghost predicate InRound(t: nat, r: nat, idx: nat, n: nat) {
    idx < n && t == r * n + idx
  }

  lemma NextStep(t: nat, r: nat, idx: nat, n: nat)
    requires InRound(t, r, idx, n)
    ensures if idx + 1 == n then InRound(t + 1, r + 1, 0, n) else InRound(t + 1, r, idx + 1, n)
  {
    assert (r + 1) * n == r * n + n;
  }

  lemma VisitsOfRound(t: nat, r: nat, idx: nat, j: nat, n: nat)
    requires j < n && InRound(t, r, idx, n)
    ensures Visits(t, j, n) == r + if j < idx then 1 else 0
  {
    var q := r + if j < idx then 1 else 0;
    assert (r + 1) * n == r * n + n;
    DivUnique(t + n - 1 - j, n, q);
  }

  lemma VisitsMonotone(t: nat, t': nat, j: nat, n: nat)
    requires j < n && t <= t'
    ensures Visits(t, j, n) <= Visits(t', j, n)
  {
    var a, b := t + n - 1 - j, t' + n - 1 - j;
    var q, r := a / n, b / n;
    assert q * n <= a && b < r * n + n;
    if r < q {
      MulMonotone(r + 1, q, n);
    }
  }

  /** The share of controller `j` that has `total` tests. */
  function Share(total: nat, t: nat, j: nat, n: nat): int
    requires j < n
  {
    Min(total, Visits(t, j, n))
  }

  /** Give out `targetval` in turn, skipping controllers that have no more tests; a skipped turn is lost. */
  method DistributeBudget(totals: seq<nat>, targetval: int) returns (boundaries: seq<int>)
    ensures |boundaries| == |totals|
    ensures forall j :: 0 <= j < |totals| ==> boundaries[j] == Share(totals[j], Max(targetval, 0), j, |totals|)
  {
    hide Visits, InRound, Share;
    var n := |totals|;
    boundaries := seq(n, _ => 0);
    var idx := 0;
    var fixed: set<nat> := {};
    var i := 0;
    ghost var r, t := 0, Max(targetval, 0);
    StartRound(n);
    while i < targetval
      invariant 0 <= i <= t && |boundaries| == n
      invariant n > 0 ==> idx < n && InRound(i, r, idx, n)
      invariant n == 0 ==> idx == 0
      invariant forall j :: 0 <= j < n ==> boundaries[j] == Min(totals[j], r + if j < idx then 1 else 0)
      invariant forall j :: j in fixed ==> j < n && boundaries[j] == totals[j]
    {
      if n > 0 {
        NextStep(i, r, idx, n);
      }
      if idx in fixed {
        idx := idx + 1;
      } else if idx < n {
        if boundaries[idx] >= totals[idx] {
          fixed := fixed + {idx};
          idx := idx + 1;
        } else {
          boundaries := boundaries[idx := boundaries[idx] + 1];
          idx := idx + 1;
        }
      }
      i := i + 1;
      if idx == n {
        idx := 0;
        r := r + 1;
      }
      if |fixed| == n {
        SaturatedShares(totals, boundaries, fixed, i, r, idx, t);
        return;
      }
    }
    RoundShares(totals, boundaries, r, idx, t);
  }

  /** Once every controller has all its tests, further turns would change nothing. */
  lemma SaturatedShares(totals: seq<nat>, boundaries: seq<int>, fixed: set<nat>, i: nat, r: nat, idx: nat, t: nat)
    requires |boundaries| == |totals| == |fixed| && i <= t && (|totals| > 0 ==> InRound(i, r, idx, |totals|))
    requires forall j :: 0 <= j < |totals| ==> boundaries[j] == Min(totals[j], r + if j < idx then 1 else 0)
    requires forall j :: j in fixed ==> j < |totals| && boundaries[j] == totals[j]
    ensures forall j :: 0 <= j < |totals| ==> boundaries[j] == Share(totals[j], t, j, |totals|)
  {
    var n := |totals|;
    forall j | 0 <= j < n ensures boundaries[j] == Share(totals[j], t, j, n) {
      AllFixed(fixed, n, j);
      VisitsOfRound(i, r, idx, j, n);
      VisitsMonotone(i, t, j, n);
    }
  }

  lemma RoundShares(totals: seq<nat>, boundaries: seq<int>, r: nat, idx: nat, t: nat)
    requires |boundaries| == |totals| && (|totals| > 0 ==> InRound(t, r, idx, |totals|))
    requires forall j :: 0 <= j < |totals| ==> boundaries[j] == Min(totals[j], r + if j < idx then 1 else 0)
    ensures forall j :: 0 <= j < |totals| ==> boundaries[j] == Share(totals[j], t, j, |totals|)
  {
    forall j | 0 <= j < |totals| ensures boundaries[j] == Share(totals[j], t, j, |totals|) {
      VisitsOfRound(t, r, idx, j, |totals|);
    }
  }

  lemma StartRound(n: nat)
    ensures n > 0 ==> InRound(0, 0, 0, n)
  {}

  /** A set of `n` numbers below `n` has them all. */
  lemma {:induction false} AllFixed(fixed: set<nat>, n: nat, j: nat)
    requires |fixed| == n && j < n && forall k :: k in fixed ==> k < n
    ensures j in fixed
  {
    if j !in fixed {
      var all := Below(n);
      assert fixed <= all - {j};
      SubsetSize(fixed, all - {j});
    }
  }

  ghost function Below(n: nat): (s: set<nat>)
    ensures forall k: nat :: k in s <==> k < n
    ensures |s| == n
  {
    if n == 0 then {} else Below(n - 1) + {n - 1}
  }

  function Sum(s: seq<int>): int {
    if s == [] then 0 else Sum(s[..|s| - 1]) + s[|s| - 1]
  }

  ghost function AllVisits(t: nat, n: nat, m: nat): seq<int>
    requires m <= n
  {
    seq(m, j requires 0 <= j < n => Visits(t, j, n))
  }

  /** Without saturation everything is given out. */
  lemma {:induction false} VisitsAddUp(t: nat, r: nat, idx: nat, n: nat, m: nat)
    requires InRound(t, r, idx, n) && m <= n
    ensures Sum(AllVisits(t, n, m)) == r * m + Min(m, idx)
  {
    if m > 0 {
      VisitsAddUp(t, r, idx, n, m - 1);
      VisitsOfRound(t, r, idx, m - 1, n);
      assert AllVisits(t, n, m)[..m - 1] == AllVisits(t, n, m - 1);
      assert r * m == r * (m - 1) + r;
    }
  }

  lemma {:induction false} SumMonotone(a: seq<int>, b: seq<int>)
    requires |a| == |b| && forall j :: 0 <= j < |a| ==> a[j] <= b[j]
    ensures Sum(a) <= Sum(b)
  {
    if a != [] {
      SumMonotone(a[..|a| - 1], b[..|b| - 1]);
    }
  }

  /** The split is fair to within one among controllers that are not saturated, never exceeds what a controller
      has, and never exceeds the target in sum; it is the whole target if nobody is saturated. What is left over
      goes to the first ones. */
  lemma SplitIsFair(totals: seq<nat>, t: nat, shares: seq<int>)
    requires |shares| == |totals| > 0
    requires forall j :: 0 <= j < |totals| ==> shares[j] == Share(totals[j], t, j, |totals|)
    ensures forall j, k :: 0 <= j < |totals| && 0 <= k < |totals| && shares[j] < totals[j] ==>
              shares[k] <= shares[j] + 1
    ensures forall j, k :: 0 <= j < k < |totals| && shares[j] < totals[j] ==> shares[k] <= shares[j]
    ensures forall j :: 0 <= j < |totals| ==> 0 <= shares[j] <= totals[j]
    ensures Sum(shares) <= t
    ensures (forall j :: 0 <= j < |totals| ==> shares[j] < totals[j]) ==> Sum(shares) == t
  {
    var n := |totals|;
    var r, idx := t / n, t % n;
    assert t == r * n + idx;
    assert r >= 0;
    forall j | 0 <= j < n ensures Visits(t, j, n) == r + if j < idx then 1 else 0 {
      VisitsOfRound(t, r, idx, j, n);
    }
    VisitsAddUp(t, r, idx, n, n);
    SumMonotone(shares, AllVisits(t, n, n));
    if forall j :: 0 <= j < n ==> shares[j] < totals[j] {
      assert shares == AllVisits(t, n, n);
    }
  }

  // ---------------------------------------------------------------------------------------------
  // The drain loop: the best results of each controller, in turn, up to its budget

  ghost predicate Quotas<T>(boundaries: seq<int>, rootNums: seq<int>, chosen: seq<seq<T>>) {
    && |boundaries| == |rootNums| == |chosen|
    && forall j :: 0 <= j < |boundaries| ==> 0 <= rootNums[j] == |chosen[j]| <= boundaries[j]
  }

  /** What the controllers may still contribute. */
  ghost function Gap(boundaries: seq<int>, rootNums: seq<int>): nat
    requires |boundaries| == |rootNums| && forall j :: 0 <= j < |boundaries| ==> rootNums[j] <= boundaries[j]
  {
    if boundaries == [] then 0
    else
      var last := |boundaries| - 1;
      Gap(boundaries[..last], rootNums[..last]) + boundaries[last] - rootNums[last]
  }

  lemma {:induction false} GapCloses(boundaries: seq<int>, rootNums: seq<int>, j: nat)
    requires |boundaries| == |rootNums| && j < |boundaries| && rootNums[j] < boundaries[j]
    requires forall j :: 0 <= j < |boundaries| ==> rootNums[j] <= boundaries[j]
    ensures Gap(boundaries, rootNums[j := rootNums[j] + 1]) == Gap(boundaries, rootNums) - 1
  {
    var last := |boundaries| - 1;
    var more := rootNums[j := rootNums[j] + 1];
    if j < last {
      GapCloses(boundaries[..last], rootNums[..last], j);
      assert more[..last] == rootNums[..last][j := rootNums[j] + 1];
    } else {
      assert more[..last] == rootNums[..last];
    }
  }

  lemma {:induction false} GapOfNothing(boundaries: seq<int>, rootNums: seq<int>)
    requires |boundaries| == |rootNums| && forall j :: 0 <= j < |boundaries| ==> rootNums[j] == 0 <= boundaries[j]
    ensures Gap(boundaries, rootNums) == Sum(boundaries)
  {
    if boundaries != [] {
      GapOfNothing(boundaries[..|boundaries| - 1], rootNums[..|boundaries| - 1]);
    }
  }

  lemma {:induction false} NoGap(boundaries: seq<int>, rootNums: seq<int>, j: nat)
    requires |boundaries| == |rootNums| && j < |boundaries|
    requires forall j :: 0 <= j < |boundaries| ==> rootNums[j] <= boundaries[j]
    requires Gap(boundaries, rootNums) == 0
    ensures rootNums[j] == boundaries[j]
  {
    var last := |boundaries| - 1;
    if j < last {
      NoGap(boundaries[..last], rootNums[..last], j);
    }
  }

  /** The way from `index` round to `u`. */
  ghost function Distance(index: int, u: int, n: int): int {
    if index <= u then u - index else n - index + u
  }

  lemma CloserToFree(index: int, u: int, n: int)
    requires 0 <= index < n && 0 <= u < n && u != index
    ensures 0 <= Distance(if index + 1 >= n then 0 else index + 1, u, n) < Distance(index, u, n)
  {}

  /** The candidates taken so far are the chosen ones, up to equivalence. */
  ghost predicate Gathered<T(!new)>(less: (T, T) -> bool, tmp: seq<T>, chosen: seq<seq<T>>, others: set<T>) {
    && StrictlySorted(less, tmp)
    && (forall x :: x in tmp ==> x in others || exists j :: 0 <= j < |chosen| && x in chosen[j])
    && (forall j, x :: 0 <= j < |chosen| && x in chosen[j] ==> Contains(less, tmp, x))
    && (forall x :: x in others ==> Contains(less, tmp, x))
  }

  lemma ContainsMore<T(!new)>(less: (T, T) -> bool, s: seq<T>, x: T, y: T)
    requires StrictWeakOrder(less) && StrictlySorted(less, s) && Contains(less, s, y)
    ensures Contains(less, InsertUnique(less, s, x), y)
  {
    InsertUniqueKeepsSorted(less, s, x);
    var i :| 0 <= i < |s| && Equivalent(less, s[i], y);
    var s' := InsertUnique(less, s, x);
    assert s[i] in s';
  }

  lemma GatherChosen<T(!new)>(less: (T, T) -> bool, tmp: seq<T>, chosen: seq<seq<T>>, others: set<T>, j: nat, x: T)
    requires StrictWeakOrder(less) && Gathered(less, tmp, chosen, others) && j < |chosen|
    ensures Gathered(less, InsertUnique(less, tmp, x), chosen[j := chosen[j] + [x]], others)
    ensures |InsertUnique(less, tmp, x)| == if Contains(less, tmp, x) then |tmp| else |tmp| + 1
  {
    var tmp', chosen' := InsertUnique(less, tmp, x), chosen[j := chosen[j] + [x]];
    InsertUniqueKeepsSorted(less, tmp, x);
    forall y | y in tmp' && y !in others ensures exists k :: 0 <= k < |chosen'| && y in chosen'[k] {
      if y == x {
        assert x in chosen'[j];
      } else {
        var k :| 0 <= k < |chosen| && y in chosen[k];
        assert y in chosen'[k];
      }
    }
    forall k, y | 0 <= k < |chosen'| && y in chosen'[k] ensures Contains(less, tmp', y) {
      if y != x {
        assert y in chosen[k];
        ContainsMore(less, tmp, x, y);
      }
    }
    forall y | y in others ensures Contains(less, tmp', y) {
      ContainsMore(less, tmp, x, y);
    }
  }

  lemma GatherOther<T(!new)>(less: (T, T) -> bool, tmp: seq<T>, chosen: seq<seq<T>>, others: set<T>, x: T)
    requires StrictWeakOrder(less) && Gathered(less, tmp, chosen, others)
    ensures Gathered(less, InsertUnique(less, tmp, x), chosen, others + {x})
    ensures |InsertUnique(less, tmp, x)| == if Contains(less, tmp, x) then |tmp| else |tmp| + 1
  {
    var tmp' := InsertUnique(less, tmp, x);
    InsertUniqueKeepsSorted(less, tmp, x);
    forall k, y | 0 <= k < |chosen| && y in chosen[k] ensures Contains(less, tmp', y) {
      ContainsMore(less, tmp, x, y);
    }
    forall y | y in others + {x} ensures Contains(less, tmp', y) {
      if y != x {
        ContainsMore(less, tmp, x, y);
      }
    }
  }

  /** What the drain has done so far: a prefix of each controller's results has moved to `chosen`. */
  ghost predicate Drained<T>(results: seq<seq<T>>, ressets: seq<seq<T>>, rootNums: seq<int>, chosen: seq<seq<T>>) {
    && |results| == |ressets| == |rootNums| == |chosen|
    && forall j :: 0 <= j < |results| ==>
                     0 <= rootNums[j] <= |results[j]| && chosen[j] == results[j][..rootNums[j]]
                       && ressets[j] == results[j][rootNums[j]..]
  }

  lemma DrainOne<T>(results: seq<seq<T>>, ressets: seq<seq<T>>, rootNums: seq<int>, chosen: seq<seq<T>>,
                    boundaries: seq<int>, j: nat)
    requires Drained(results, ressets, rootNums, chosen) && Quotas(boundaries, rootNums, chosen)
    requires j < |results| && ressets[j] != [] && rootNums[j] < boundaries[j]
    ensures var x := ressets[j][0];
            var rootNums', chosen' := rootNums[j := rootNums[j] + 1], chosen[j := chosen[j] + [x]];
            && Drained(results, ressets[j := ressets[j][1..]], rootNums', chosen')
            && Quotas(boundaries, rootNums', chosen')
            && Gap(boundaries, rootNums') == Gap(boundaries, rootNums) - 1
            && forall i :: 0 <= i < |boundaries| ==> rootNums'[i] <= boundaries[i]
  {
    GapCloses(boundaries, rootNums, j);
    var r := results[j];
    assert r[..rootNums[j]] + [r[rootNums[j]]] == r[..rootNums[j] + 1];
  }

  /** A fixed controller has reached its budget or has no more results. */
  ghost predicate AllSpent<T>(fixed: set<nat>, boundaries: seq<int>, rootNums: seq<int>, ressets: seq<seq<T>>)
    requires |boundaries| == |rootNums| == |ressets|
  {
    forall j :: j in fixed ==> j < |boundaries| && (rootNums[j] == boundaries[j] || ressets[j] == [])
  }

  lemma SpentElsewhere<T>(fixed: set<nat>, boundaries: seq<int>, rootNums: seq<int>, ressets: seq<seq<T>>, j: nat)
    requires |boundaries| == |rootNums| == |ressets| && AllSpent(fixed, boundaries, rootNums, ressets)
    requires j < |boundaries| && j !in fixed && ressets[j] != []
    ensures AllSpent(fixed, boundaries, rootNums[j := rootNums[j] + 1], ressets[j := ressets[j][1..]])
  {}

  lemma SpentBounded<T>(fixed: set<nat>, boundaries: seq<int>, rootNums: seq<int>, ressets: seq<seq<T>>)
    requires |boundaries| == |rootNums| == |ressets| && AllSpent(fixed, boundaries, rootNums, ressets)
    ensures |fixed| <= |boundaries| && forall k :: k in fixed ==> k < |boundaries|
  {
    FixedIsBounded(fixed, |boundaries|);
  }

  /** Move the best remaining result of controller `index` to the candidates. */
  method TakeResult<T(==, !new)>(less: (T, T) -> bool, ghost results: seq<seq<T>>, ghost boundaries: seq<int>,
                                 tmp: seq<T>, chosen: seq<seq<T>>, ressets: seq<seq<T>>, rootNums: seq<int>, index: nat)
    returns (tmp': seq<T>, chosen': seq<seq<T>>, ressets': seq<seq<T>>, rootNums': seq<int>)
    requires StrictWeakOrder(less) && Gathered(less, tmp, chosen, {})
    requires Drained(results, ressets, rootNums, chosen) && Quotas(boundaries, rootNums, chosen)
    requires index < |ressets| == |chosen| == |rootNums| == |boundaries| && ressets[index] != []
             && rootNums[index] < boundaries[index]
    ensures Gathered(less, tmp', chosen', {}) && |tmp'| <= |tmp| + 1
    ensures Drained(results, ressets', rootNums', chosen') && Quotas(boundaries, rootNums', chosen')
    ensures ressets' == ressets[index := ressets[index][1..]] && rootNums' == rootNums[index := rootNums[index] + 1]
    ensures |chosen'| == |chosen| && forall j :: 0 <= j < |boundaries| ==> rootNums'[j] <= boundaries[j]
    ensures Gap(boundaries, rootNums') == Gap(boundaries, rootNums) - 1
  {
    var best := ressets[index][0];
    DrainOne(results, ressets, rootNums, chosen, boundaries, index);
    GatherChosen(less, tmp, chosen, {}, index, best);
    tmp', chosen' := InsertUnique(less, tmp, best), chosen[index := chosen[index] + [best]];
    ressets', rootNums' := ressets[index := ressets[index][1..]], rootNums[index := rootNums[index] + 1];
  }

  /** What holds before every turn of the drain. */
  ghost predicate Draining<T(!new)>(less: (T, T) -> bool, results: seq<seq<T>>, boundaries: seq<int>, tmp: seq<T>,
                                    chosen: seq<seq<T>>, ressets: seq<seq<T>>, rootNums: seq<int>, fixed: set<nat>) {
    && Drained(results, ressets, rootNums, chosen) && Quotas(boundaries, rootNums, chosen) && |results| == |boundaries|
    && (forall j :: 0 <= j < |boundaries| ==> rootNums[j] <= boundaries[j])
    && Gathered(less, tmp, chosen, {}) && |tmp| + Gap(boundaries, rootNums) <= Sum(boundaries)
    && AllSpent(fixed, boundaries, rootNums, ressets) && |fixed| <= |results|
  }

  lemma DrainingParts<T(!new)>(less: (T, T) -> bool, results: seq<seq<T>>, boundaries: seq<int>, tmp: seq<T>,
                               chosen: seq<seq<T>>, ressets: seq<seq<T>>, rootNums: seq<int>, fixed: set<nat>)
    requires Draining(less, results, boundaries, tmp, chosen, ressets, rootNums, fixed)
    ensures |results| == |ressets| == |rootNums| == |chosen| == |boundaries| && |fixed| <= |results|
    ensures forall j :: j in fixed ==> j < |results|
    ensures forall j :: 0 <= j < |boundaries| ==> rootNums[j] <= boundaries[j]
  {}

  lemma SpendTurn<T(!new)>(less: (T, T) -> bool, results: seq<seq<T>>, boundaries: seq<int>, tmp: seq<T>,
                           chosen: seq<seq<T>>, ressets: seq<seq<T>>, rootNums: seq<int>, fixed: set<nat>, index: nat)
    requires Draining(less, results, boundaries, tmp, chosen, ressets, rootNums, fixed)
    requires index < |results| && index !in fixed
    requires |results| == |ressets| == |rootNums| == |boundaries|
    requires ressets[index] == [] || rootNums[index] == boundaries[index]
    ensures Draining(less, results, boundaries, tmp, chosen, ressets, rootNums, fixed + {index})
    ensures |fixed + {index}| > |fixed|
  {
    hide Gathered, Gap, Sum, Drained;
    SpentBounded(fixed + {index}, boundaries, rootNums, ressets);
  }

  /** One turn at controller `index`; `u` is one that is not yet spent. */
  method DrainTurn<T(==, !new)>(less: (T, T) -> bool, ghost results: seq<seq<T>>, boundaries: seq<int>,
                                tmp: seq<T>, chosen: seq<seq<T>>, ressets: seq<seq<T>>, rootNums: seq<int>,
                                fixed: set<nat>, index: nat, ghost u: nat)
    returns (tmp': seq<T>, chosen': seq<seq<T>>, ressets': seq<seq<T>>, rootNums': seq<int>, fixed': set<nat>,
             index': nat)
    requires StrictWeakOrder(less) && Draining(less, results, boundaries, tmp, chosen, ressets, rootNums, fixed)
    requires index < |results| && u < |results| && u !in fixed
    ensures Draining(less, results, boundaries, tmp', chosen', ressets', rootNums', fixed')
    ensures index' < |results| && |tmp'| <= |tmp| + 1
    ensures |boundaries| == |rootNums| == |rootNums'|
    ensures forall j :: 0 <= j < |boundaries| ==> rootNums[j] <= boundaries[j] && rootNums'[j] <= boundaries[j]
    ensures || Gap(boundaries, rootNums') < Gap(boundaries, rootNums)
            || (rootNums' == rootNums && |fixed'| > |fixed|)
            || (rootNums' == rootNums && fixed' == fixed
                && 0 <= Distance(index', u, |results|) < Distance(index, u, |results|))
  {
    hide Gathered, Gap, Sum, StrictWeakOrder, Distance, Draining, Drained, Quotas, AllSpent;
    DrainingParts(less, results, boundaries, tmp, chosen, ressets, rootNums, fixed);
    tmp', chosen', ressets', rootNums', fixed', index' := tmp, chosen, ressets, rootNums, fixed, index;
    if index in fixed {
      CloserToFree(index, u, |boundaries|);
      index' := index + 1;
    } else if index < |boundaries| {
      if |ressets[index]| == 0 {
        SpendTurn(less, results, boundaries, tmp, chosen, ressets, rootNums, fixed, index);
        fixed' := fixed + {index};
      } else if rootNums[index] < boundaries[index] {
        tmp', chosen', ressets', rootNums' :=
          TakeTurn(less, results, boundaries, tmp, chosen, ressets, rootNums, fixed, index);
      } else if rootNums[index] == boundaries[index] {
        SpendTurn(less, results, boundaries, tmp, chosen, ressets, rootNums, fixed, index);
        fixed' := fixed + {index};
      }
    }
    if index' >= |boundaries| {
      index' := 0;
    }
  }

  method TakeTurn<T(==, !new)>(less: (T, T) -> bool, ghost results: seq<seq<T>>, ghost boundaries: seq<int>,
                               tmp: seq<T>, chosen: seq<seq<T>>, ressets: seq<seq<T>>, rootNums: seq<int>,
                               ghost fixed: set<nat>, index: nat)
    returns (tmp': seq<T>, chosen': seq<seq<T>>, ressets': seq<seq<T>>, rootNums': seq<int>)
    requires StrictWeakOrder(less) && Draining(less, results, boundaries, tmp, chosen, ressets, rootNums, fixed)
    requires index < |ressets| == |chosen| == |rootNums| == |boundaries| && index !in fixed
    requires ressets[index] != [] && rootNums[index] < boundaries[index]
    ensures Draining(less, results, boundaries, tmp', chosen', ressets', rootNums', fixed) && |tmp'| <= |tmp| + 1
    ensures |rootNums'| == |boundaries| && forall j :: 0 <= j < |boundaries| ==> rootNums[j] <= boundaries[j]
    ensures forall j :: 0 <= j < |boundaries| ==> rootNums'[j] <= boundaries[j]
    ensures Gap(boundaries, rootNums') < Gap(boundaries, rootNums)
  {
    hide Gathered, Gap, Sum, StrictWeakOrder, Drained, Quotas, AllSpent;
    SpentElsewhere(fixed, boundaries, rootNums, ressets, index);
    tmp', chosen', ressets', rootNums' := TakeResult(less, results, boundaries, tmp, chosen, ressets, rootNums, index);
  }

  method Drain<T(==, !new)>(less: (T, T) -> bool, results: seq<seq<T>>, boundaries: seq<int>, targetval: int)
    returns (tmp: seq<T>, chosen: seq<seq<T>>, rootNums: seq<int>)
    requires StrictWeakOrder(less) && |results| == |boundaries|
    requires forall j :: 0 <= j < |boundaries| ==> boundaries[j] >= 0
    ensures Quotas(boundaries, rootNums, chosen) && Gathered(less, tmp, chosen, {})
    ensures |tmp| <= Max(targetval, 0)
    ensures forall j :: 0 <= j < |results| ==> rootNums[j] <= |results[j]| && chosen[j] == results[j][..rootNums[j]]
    ensures |tmp| < targetval || Sum(boundaries) <= Max(targetval, 0) ==>
              forall j :: 0 <= j < |results| ==> rootNums[j] == Min(boundaries[j], |results[j]|)
  {
    hide Gathered, Gap, Sum, StrictWeakOrder, Distance, Draining, Drained, Quotas, AllSpent;
    var n := |results|;
    tmp, chosen, rootNums := [], seq(n, _ => []), seq(n, _ => 0);
    NothingDrained(less, results, rootNums, chosen, boundaries);
    if n == 0 {
      DrainDone(less, results, boundaries, tmp, chosen, results, rootNums, {}, targetval);
      return;
    }
    var ressets := results;
    var index: nat := 0;
    var fixed: set<nat> := {};
    var found := true;
    ghost var u: nat := 0;
    while |tmp| < targetval && found
      invariant index < n && |tmp| <= Max(targetval, 0)
      invariant Draining(less, results, boundaries, tmp, chosen, ressets, rootNums, fixed)
      invariant |rootNums| == n && forall j :: 0 <= j < n ==> rootNums[j] <= boundaries[j]
      invariant u < n && |fixed| <= n && if found then u !in fixed else |fixed| == n
      decreases Gap(boundaries, rootNums), n - |fixed|, Distance(index, u, n), found
    {
      tmp, chosen, ressets, rootNums, fixed, index :=
        DrainTurn(less, results, boundaries, tmp, chosen, ressets, rootNums, fixed, index, u);
      DrainingParts(less, results, boundaries, tmp, chosen, ressets, rootNums, fixed);
      if |fixed| == n {
        found := false;
      } else {
        u := if u in fixed then OneFree(fixed, n) else u;
      }
    }
    DrainDone(less, results, boundaries, tmp, chosen, ressets, rootNums, fixed, targetval);
  }

  lemma NothingDrained<T(!new)>(less: (T, T) -> bool, results: seq<seq<T>>, rootNums: seq<int>, chosen: seq<seq<T>>,
                                boundaries: seq<int>)
    requires |results| == |rootNums| == |chosen| == |boundaries|
    requires forall j :: 0 <= j < |results| ==> rootNums[j] == 0 && chosen[j] == [] && boundaries[j] >= 0
    ensures Draining(less, results, boundaries, [], chosen, results, rootNums, {})
  {
    hide Gathered;
    NothingGathered(less, chosen);
    GapOfNothing(boundaries, rootNums);
  }

  /** The drain ends with the target reached or every controller spent. */
  lemma DrainDone<T(!new)>(less: (T, T) -> bool, results: seq<seq<T>>, boundaries: seq<int>, tmp: seq<T>,
                           chosen: seq<seq<T>>, ressets: seq<seq<T>>, rootNums: seq<int>, fixed: set<nat>,
                           targetval: int)
    requires Draining(less, results, boundaries, tmp, chosen, ressets, rootNums, fixed)
    requires |tmp| < targetval ==> |fixed| == |results|
    ensures Quotas(boundaries, rootNums, chosen) && Gathered(less, tmp, chosen, {}) && |results| == |boundaries|
    ensures forall j :: 0 <= j < |results| ==> rootNums[j] <= |results[j]| && chosen[j] == results[j][..rootNums[j]]
    ensures |tmp| < targetval || Sum(boundaries) <= Max(targetval, 0) ==>
              forall j :: 0 <= j < |results| ==> rootNums[j] == Min(boundaries[j], |results[j]|)
  {
    hide Gathered, Gap, Sum;
    if |tmp| < targetval {
      forall j | 0 <= j < |results| ensures rootNums[j] == Min(boundaries[j], |results[j]|) {
        AllFixed(fixed, |results|, j);
      }
    } else if Sum(boundaries) <= Max(targetval, 0) {
      forall j | 0 <= j < |results| ensures rootNums[j] == Min(boundaries[j], |results[j]|) {
        NoGap(boundaries, rootNums, j);
      }
    }
  }

  lemma NothingGathered<T(!new)>(less: (T, T) -> bool, chosen: seq<seq<T>>)
    requires forall j :: 0 <= j < |chosen| ==> chosen[j] == []
    ensures Gathered(less, [], chosen, {})
  {}

  lemma FixedIsBounded(fixed: set<nat>, n: nat)
    requires forall k :: k in fixed ==> k < n
    ensures |fixed| <= n
  {
    assert fixed <= Below(n);
    SubsetSize(fixed, Below(n));
  }

  ghost function OneFree(fixed: set<nat>, n: nat): (u: nat)
    requires (forall k :: k in fixed ==> k < n) && |fixed| < n
    ensures u < n && u !in fixed
  {
    assert exists u :: u in Below(n) && u !in fixed by {
      if Below(n) <= fixed {
        SubsetSize(Below(n), fixed);
      }
    }
    var u :| u in Below(n) && u !in fixed;
    u
  }

  // ---------------------------------------------------------------------------------------------
  // The widening loop: other inputs, at a lower and lower score

  /** What the loop is given. */
  datatype Widening<!T> = Widening(less: (T, T) -> bool, eligible: T -> bool, getRoot: T -> int, boundaries: seq<int>,
                                   limit: int, inputsAt: real -> seq<T>, max: real, fraction: real, threshold: real)

  /** What has been gathered: the candidates, and what each controller contributed. */
  datatype Gathering<T> = Gathering(tmp: seq<T>, chosen: seq<seq<T>>, rootNums: seq<int>)

  ghost predicate Setting<T(!new)>(w: Widening<T>) {
    StrictWeakOrder(w.less) && forall x :: -1 <= w.getRoot(x) < |w.boundaries|
  }

  ghost predicate Kept<T(!new)>(w: Widening<T>, g: Gathering<T>, others: set<T>) {
    Gathered(w.less, g.tmp, g.chosen, others) && Quotas(w.boundaries, g.rootNums, g.chosen)
  }

  /** `x` needs no further attention: an equivalent candidate is there, it is not eligible, or the
      controller it comes from has reached its quota. */
  ghost predicate Settled<T(!new)>(w: Widening<T>, g: Gathering<T>, x: T) {
    || Contains(w.less, g.tmp, x)
    || !w.eligible(x)
    || (0 <= w.getRoot(x) < |w.boundaries| == |g.rootNums| && g.rootNums[w.getRoot(x)] == w.boundaries[w.getRoot(x)])
  }

  /** One input of the pool. */
  ghost function Considered<T(!new)>(w: Widening<T>, g: Gathering<T>, x: T): Gathering<T> {
    var index := w.getRoot(x);
    if Contains(w.less, g.tmp, x) || !w.eligible(x) then g
    else if index == -1 then g.(tmp := InsertUnique(w.less, g.tmp, x))
    else if 0 <= index < |w.boundaries| == |g.rootNums| == |g.chosen| && g.rootNums[index] < w.boundaries[index] then
      Gathering(InsertUnique(w.less, g.tmp, x), g.chosen[index := g.chosen[index] + [x]],
                g.rootNums[index := g.rootNums[index] + 1])
    else g
  }

  /** One pass over the pool, until the limit is reached. */
  ghost function Swept<T(!new)>(w: Widening<T>, inputs: seq<T>, g: Gathering<T>): Gathering<T> {
    if inputs == [] || |g.tmp| >= w.limit then g else Swept(w, inputs[1..], Considered(w, g, inputs[0]))
  }

  function Start<T>(w: Widening<T>): real {
    if w.max == 0.0 then 1.0 else w.fraction
  }

  ghost function FracAt<T>(w: Widening<T>, n: nat): real {
    if n == 0 then Start(w) else FracAt(w, n - 1) + w.threshold
  }

  ghost function BoundAt<T>(w: Widening<T>, n: nat): real {
    w.max - w.max * FracAt(w, n)
  }

  /** After `n` passes. */
  ghost function After<T(!new)>(w: Widening<T>, g: Gathering<T>, n: nat): Gathering<T> {
    if n == 0 then g else Swept(w, w.inputsAt(BoundAt(w, n - 1)), After(w, g, n - 1))
  }

  ghost predicate Stops<T(!new)>(w: Widening<T>, g: Gathering<T>, n: nat) {
    |After(w, g, n).tmp| >= w.limit || FracAt(w, n) > 1.0
  }

  ghost predicate Ends<T(!new)>(w: Widening<T>, g: Gathering<T>) {
    exists n: nat :: Stops(w, g, n)
  }

  // What one input and one pass do

  lemma ConsideredIsKept<T(!new)>(w: Widening<T>, g: Gathering<T>, others: set<T>, x: T) returns (others': set<T>)
    requires Setting(w) && Kept(w, g, others)
    ensures Kept(w, Considered(w, g, x), others') && |g.tmp| <= |Considered(w, g, x).tmp| <= |g.tmp| + 1
    ensures OnlyEligible(w.eligible, w.getRoot, g.chosen, Considered(w, g, x).chosen, others, others')
  {
    hide Gathered, InsertUnique, Contains, StrictWeakOrder;
    others' := others;
    if Considered(w, g, x) != g {
      if w.getRoot(x) == -1 {
        GatherOther(w.less, g.tmp, g.chosen, others, x);
        others' := others + {x};
      } else {
        GatherChosen(w.less, g.tmp, g.chosen, others, w.getRoot(x), x);
      }
    }
  }

  lemma ConsideredIsSettled<T(!new)>(w: Widening<T>, g: Gathering<T>, others: set<T>, x: T)
    requires Setting(w) && Kept(w, g, others)
    ensures Settled(w, Considered(w, g, x), x)
  {
    hide InsertUnique, Contains, StrictWeakOrder;
    InsertUniqueKeepsSorted(w.less, g.tmp, x);
  }

  lemma SettledStays<T(!new)>(w: Widening<T>, g: Gathering<T>, others: set<T>, x: T, y: T)
    requires Setting(w) && Kept(w, g, others) && Settled(w, g, y)
    ensures Settled(w, Considered(w, g, x), y)
  {
    hide InsertUnique, Contains, StrictWeakOrder;
    if Contains(w.less, g.tmp, y) {
      ContainsMore(w.less, g.tmp, x, y);
    }
  }

  lemma {:induction false} SweptIsKept<T(!new)>(w: Widening<T>, inputs: seq<T>, g: Gathering<T>, others: set<T>)
    returns (others': set<T>)
    requires Setting(w) && Kept(w, g, others)
    ensures Kept(w, Swept(w, inputs, g), others') && |Swept(w, inputs, g).tmp| <= Max(|g.tmp|, w.limit)
    ensures OnlyEligible(w.eligible, w.getRoot, g.chosen, Swept(w, inputs, g).chosen, others, others')
    decreases |inputs|
  {
    hide Setting, Kept, OnlyEligible, Considered;
    if inputs == [] || |g.tmp| >= w.limit {
      others' := others;
      NothingAdded(w.eligible, w.getRoot, g.chosen, others);
    } else {
      var others1 := ConsideredIsKept(w, g, others, inputs[0]);
      others' := SweptIsKept(w, inputs[1..], Considered(w, g, inputs[0]), others1);
      OnlyEligibleChains(w.eligible, w.getRoot, g.chosen, Considered(w, g, inputs[0]).chosen,
                         Swept(w, inputs, g).chosen, others, others1, others');
    }
  }

  lemma {:induction false} SettledIsSwept<T(!new)>(w: Widening<T>, inputs: seq<T>, g: Gathering<T>, others: set<T>,
                                                   y: T)
    requires Setting(w) && Kept(w, g, others) && Settled(w, g, y)
    ensures Settled(w, Swept(w, inputs, g), y)
    decreases |inputs|
  {
    hide Setting, Kept, Considered, Settled;
    if inputs != [] && |g.tmp| < w.limit {
      var others1 := ConsideredIsKept(w, g, others, inputs[0]);
      SettledStays(w, g, others, inputs[0], y);
      SettledIsSwept(w, inputs[1..], Considered(w, g, inputs[0]), others1, y);
    }
  }

  /** A pass that stays below the limit passes over nothing. */
  lemma {:induction false} SweptSettles<T(!new)>(w: Widening<T>, inputs: seq<T>, g: Gathering<T>, others: set<T>, y: T)
    requires Setting(w) && Kept(w, g, others) && y in inputs && |Swept(w, inputs, g).tmp| < w.limit
    ensures Settled(w, Swept(w, inputs, g), y)
    decreases |inputs|
  {
    hide Setting, Kept, Considered, Settled;
    var others1 := ConsideredIsKept(w, g, others, inputs[0]);
    if y == inputs[0] {
      ConsideredIsSettled(w, g, others, y);
      SettledIsSwept(w, inputs[1..], Considered(w, g, y), others1, y);
    } else {
      SweptSettles(w, inputs[1..], Considered(w, g, inputs[0]), others1, y);
    }
  }

  /** A pass looks at the first `n` inputs and at no other: each of these is settled, nothing else is added, and it
      stops there only because the pool is used up or the limit is reached. */
  ghost predicate TakenTo<T(!new)>(w: Widening<T>, inputs: seq<T>, g: Gathering<T>, g': Gathering<T>, n: nat) {
    && n <= |inputs| && (n == |inputs| || |g'.tmp| >= w.limit)
    && (forall x :: x in inputs[..n] ==> Settled(w, g', x))
    && (forall x :: x in g.tmp ==> x in g'.tmp)
    && (forall x :: x in g'.tmp && x !in g.tmp ==> x in inputs[..n])
  }

  ghost predicate TakenInOrder<T(!new)>(w: Widening<T>, inputs: seq<T>, g: Gathering<T>, g': Gathering<T>) {
    exists n: nat :: TakenTo(w, inputs, g, g', n)
  }

  lemma NothingTaken<T(!new)>(w: Widening<T>, inputs: seq<T>, g: Gathering<T>)
    requires inputs == [] || |g.tmp| >= w.limit
    ensures TakenTo(w, inputs, g, g, 0)
  {}

  lemma ConsideredAdds<T(!new)>(w: Widening<T>, g: Gathering<T>, others: set<T>, x: T)
    requires Setting(w) && Kept(w, g, others)
    ensures forall y :: y in g.tmp ==> y in Considered(w, g, x).tmp
    ensures forall y :: y in Considered(w, g, x).tmp ==> y in g.tmp || y == x
  {
    hide InsertUnique, Contains, StrictWeakOrder;
    InsertUniqueKeepsSorted(w.less, g.tmp, x);
  }

  lemma {:induction false} SweptTakes<T(!new)>(w: Widening<T>, inputs: seq<T>, g: Gathering<T>, others: set<T>)
    returns (n: nat)
    requires Setting(w) && Kept(w, g, others)
    ensures TakenTo(w, inputs, g, Swept(w, inputs, g), n)
    decreases |inputs|
  {
    hide Setting, Kept, Considered, Settled;
    if inputs == [] || |g.tmp| >= w.limit {
      n := 0;
      NothingTaken(w, inputs, g);
    } else {
      var first := inputs[0];
      var g1 := Considered(w, g, first);
      var others1 := ConsideredIsKept(w, g, others, first);
      ConsideredAdds(w, g, others, first);
      ConsideredIsSettled(w, g, others, first);
      SettledIsSwept(w, inputs[1..], g1, others1, first);
      var m := SweptTakes(w, inputs[1..], g1, others1);
      n := m + 1;
      assert inputs[..n] == [first] + inputs[1..][..m];
    }
  }

  /** From a pool in order, no input that is left over comes before one that was added, unless it is not
      eligible, an equivalent candidate is there, or its controller's share is used up. */
  lemma AddedComeFirst<T(!new)>(w: Widening<T>, inputs: seq<T>, g: Gathering<T>, g': Gathering<T>, x: T, y: T)
    requires TakenInOrder(w, inputs, g, g') && StrictlySorted(w.less, inputs)
    requires x in g'.tmp && x !in g.tmp && y in inputs && !Settled(w, g', y)
    ensures w.less(x, y)
  {
    hide Settled;
    var n: nat :| TakenTo(w, inputs, g, g', n);
    var i :| 0 <= i < n && inputs[i] == x;
    var j: nat :| j < |inputs| && inputs[j] == y;
    if j < n {
      AmongFirst(inputs, j, n);
    }
  }

  lemma AmongFirst<T>(inputs: seq<T>, j: nat, n: nat)
    requires j < n <= |inputs|
    ensures inputs[j] in inputs[..n]
  {
    assert inputs[..n][j] == inputs[j];
  }

  /** A pass over settled inputs changes nothing. */
  lemma {:induction false} SweptAgain<T(!new)>(w: Widening<T>, inputs: seq<T>, g: Gathering<T>)
    requires forall x :: x in inputs ==> Settled(w, g, x)
    ensures Swept(w, inputs, g) == g
    decreases |inputs|
  {
    hide Contains, InsertUnique;
    if inputs != [] && |g.tmp| < w.limit {
      assert Settled(w, g, inputs[0]);
      SweptAgain(w, inputs[1..], g);
    }
  }

  /** Candidates and quotas have only grown, by eligible inputs under their own controller. */
  ghost predicate OnlyEligible<T(!new)>(eligible: T -> bool, getRoot: T -> int, chosen: seq<seq<T>>,
                                        chosen': seq<seq<T>>, others: set<T>, others': set<T>) {
    && |chosen| == |chosen'| && others <= others' && (forall j :: 0 <= j < |chosen| ==> chosen[j] <= chosen'[j])
    && (forall x :: x in others' - others ==> eligible(x) && getRoot(x) == -1)
    && (forall j, x :: 0 <= j < |chosen| && x in chosen'[j] && x !in chosen[j] ==> eligible(x) && getRoot(x) == j)
  }

  lemma NothingAdded<T(!new)>(eligible: T -> bool, getRoot: T -> int, chosen: seq<seq<T>>, others: set<T>)
    ensures OnlyEligible(eligible, getRoot, chosen, chosen, others, others)
  {}

  lemma OnlyEligibleChains<T(!new)>(eligible: T -> bool, getRoot: T -> int, chosen: seq<seq<T>>, chosen': seq<seq<T>>,
                                    chosen'': seq<seq<T>>, others: set<T>, others': set<T>, others'': set<T>)
    requires OnlyEligible(eligible, getRoot, chosen, chosen', others, others')
    requires OnlyEligible(eligible, getRoot, chosen', chosen'', others', others'')
    ensures OnlyEligible(eligible, getRoot, chosen, chosen'', others, others'')
  {
    forall x | x in others'' - others ensures eligible(x) && getRoot(x) == -1 {
      assert x in others'' - others' || x in others' - others;
    }
  }

  // When the loop ends

  /** How many more times the threshold fits below 1. */
  ghost function StepsLeft(frac: real, threshold: real): nat
    requires threshold > 0.0
  {
    if frac > 1.0 then 0 else ((1.0 - frac) / threshold).Floor + 1
  }

  lemma StepTaken(frac: real, threshold: real)
    requires threshold > 0.0 && frac <= 1.0
    ensures StepsLeft(frac + threshold, threshold) < StepsLeft(frac, threshold)
  {
    var a, b := (1.0 - frac) / threshold, (1.0 - (frac + threshold)) / threshold;
    QuotientIsUnique(1.0 - (frac + threshold), threshold, a - 1.0);
    assert b == a - 1.0;
  }

  lemma QuotientIsUnique(x: real, t: real, q: real)
    requires t > 0.0 && q * t == x
    ensures x / t == q
  {
    var d := x / t - q;
    assert d * t == 0.0;
  }

  lemma PositiveThresholdEnds<T(!new)>(w: Widening<T>, g: Gathering<T>)
    requires w.threshold > 0.0
    ensures Ends(w, g)
  {
    EndsFrom(w, g, 0);
  }

  lemma {:induction false} EndsFrom<T(!new)>(w: Widening<T>, g: Gathering<T>, n: nat)
    requires w.threshold > 0.0
    ensures Ends(w, g)
    decreases StepsLeft(FracAt(w, n), w.threshold)
  {
    hide After, StepsLeft;
    if FracAt(w, n) > 1.0 {
      assert Stops(w, g, n);
    } else {
      StepTaken(FracAt(w, n), w.threshold);
      EndsFrom(w, g, n + 1);
    }
  }

  /** The bound of each pass: with a positive threshold and best score it falls from pass to pass, in equal
      steps, and is not below zero in any pass that is made. */
  lemma {:induction false} BoundsFall<T>(w: Widening<T>, n: nat)
    ensures FracAt(w, n) == Start(w) + n as real * w.threshold
    ensures BoundAt(w, n) - BoundAt(w, n + 1) == w.max * w.threshold
    ensures w.threshold > 0.0 && w.max > 0.0 ==> BoundAt(w, n + 1) < BoundAt(w, n)
    ensures w.max >= 0.0 && FracAt(w, n) <= 1.0 ==> BoundAt(w, n) >= 0.0
    ensures w.max == 0.0 ==> BoundAt(w, n) == 0.0
    decreases n
  {
    var frac := FracAt(w, n);
    if n > 0 {
      BoundsFall(w, n - 1);
      assert (n - 1) as real * w.threshold + w.threshold == n as real * w.threshold;
    } else {
      assert n as real * w.threshold == 0.0;
    }
    Steps(w.max, frac, w.threshold);
  }

  lemma Steps(max: real, frac: real, threshold: real)
    ensures max - max * frac - (max - max * (frac + threshold)) == max * threshold
    ensures threshold > 0.0 && max > 0.0 ==> max * threshold > 0.0
    ensures max >= 0.0 && frac <= 1.0 ==> max - max * frac >= 0.0
  {
    assert max - max * frac == max * (1.0 - frac);
  }

  /** From pass `m` on, no pass sees an input that pass `m` has not seen. */
  ghost predicate NothingNew<T(!new)>(w: Widening<T>, m: nat) {
    forall n: nat, x :: m <= n && x in w.inputsAt(BoundAt(w, n)) ==> x in w.inputsAt(BoundAt(w, m))
  }

  lemma {:induction false} FracFalls<T>(w: Widening<T>, m: nat, n: nat)
    requires w.threshold <= 0.0 && m <= n
    ensures FracAt(w, n) <= FracAt(w, m) && (w.threshold == 0.0 ==> FracAt(w, n) == FracAt(w, m))
  {
    if m < n {
      FracFalls(w, m, n - 1);
    }
  }

  lemma BoundRises<T>(w: Widening<T>, m: nat, n: nat)
    requires w.threshold <= 0.0 && (w.threshold == 0.0 || w.max >= 0.0) && m <= n
    ensures BoundAt(w, m) <= BoundAt(w, n) && (w.threshold == 0.0 || w.max == 0.0 ==> BoundAt(w, m) == BoundAt(w, n))
  {
    FracFalls(w, m, n);
    var frac, start := FracAt(w, n), FracAt(w, m);
    ProductRises(w.max, frac, start);
  }

  lemma ProductRises(max: real, frac: real, start: real)
    requires frac <= start && (frac == start || max >= 0.0)
    ensures max * frac <= max * start && (frac == start || max == 0.0 ==> max * frac == max * start)
  {
    assert max * start - max * frac == max * (start - frac);
  }

  /** A higher bound selects fewer inputs. */
  ghost predicate Antitone<T(!new)>(inputsAt: real -> seq<T>) {
    forall a, b, x :: a <= b && x in inputsAt(b) ==> x in inputsAt(a)
  }

  /** With a threshold or a best score of zero all passes see the same; with a negative one they see fewer and
      fewer inputs. */
  lemma NothingNewIf<T(!new)>(w: Widening<T>)
    requires w.threshold <= 0.0 && (w.threshold == 0.0 || w.max == 0.0 || (w.max > 0.0 && Antitone(w.inputsAt)))
    ensures NothingNew(w, 0)
  {
    hide BoundAt, FracAt;
    forall n: nat, x | x in w.inputsAt(BoundAt(w, n)) ensures x in w.inputsAt(BoundAt(w, 0)) {
      BoundRises(w, 0, n);
    }
  }

  /** With a negative threshold the bound rises from pass to pass, and at last no score reaches it. */
  lemma NothingLeft<T(!new)>(w: Widening<T>, top: real) returns (m: nat)
    requires w.threshold < 0.0 && w.max > 0.0 && forall b :: b > top ==> w.inputsAt(b) == []
    ensures NothingNew(w, m)
  {
    hide BoundAt;
    m := BoundPasses(w, top, 0);
    forall n: nat | m <= n ensures w.inputsAt(BoundAt(w, n)) == [] {
      BoundRises(w, m, n);
    }
  }

  lemma {:induction false} BoundPasses<T>(w: Widening<T>, top: real, n: nat) returns (m: nat)
    requires w.threshold < 0.0 && w.max > 0.0
    ensures BoundAt(w, m) > top
    decreases StepsLeft(BoundAt(w, n) - top + 1.0, -w.max * w.threshold)
  {
    hide StepsLeft, BoundAt;
    BoundStep(w, n);
    if BoundAt(w, n) > top {
      m := n;
    } else {
      StepTaken(BoundAt(w, n) - top + 1.0, -w.max * w.threshold);
      assert BoundAt(w, n + 1) - top + 1.0 == BoundAt(w, n) - top + 1.0 + -w.max * w.threshold;
      m := BoundPasses(w, top, n + 1);
    }
  }

  lemma BoundStep<T>(w: Widening<T>, n: nat)
    requires w.threshold < 0.0 && w.max > 0.0
    ensures -w.max * w.threshold > 0.0 && BoundAt(w, n + 1) == BoundAt(w, n) + -w.max * w.threshold
  {
    var frac := FracAt(w, n);
    assert w.max * (frac + w.threshold) == w.max * frac + w.max * w.threshold;
    assert w.max * -w.threshold > 0.0;
  }

  lemma {:induction false} StaysBelow<T(!new)>(w: Widening<T>, g: Gathering<T>, m: nat, n: nat)
    requires n > m && w.threshold <= 0.0 && NothingNew(w, m)
    requires forall x :: x in w.inputsAt(BoundAt(w, m)) ==> Settled(w, After(w, g, m + 1), x)
    ensures After(w, g, n) == After(w, g, m + 1)
  {
    hide Settled, Swept, BoundAt;
    if n > m + 1 {
      StaysBelow(w, g, m, n - 1);
      var inputs := w.inputsAt(BoundAt(w, n - 1));
      forall x | x in inputs ensures Settled(w, After(w, g, m + 1), x) {
        assert x in w.inputsAt(BoundAt(w, m));
      }
      SweptAgain(w, inputs, After(w, g, m + 1));
    }
  }

  lemma {:induction false} AfterIsKept<T(!new)>(w: Widening<T>, g: Gathering<T>, others: set<T>, n: nat)
    returns (others': set<T>)
    requires Setting(w) && Kept(w, g, others)
    ensures Kept(w, After(w, g, n), others')
  {
    hide Setting, Kept, Swept, OnlyEligible;
    if n == 0 {
      others' := others;
    } else {
      var others1 := AfterIsKept(w, g, others, n - 1);
      others' := SweptIsKept(w, w.inputsAt(BoundAt(w, n - 1)), After(w, g, n - 1), others1);
    }
  }

  /** Once the limit is reached, more passes change nothing. */
  lemma {:induction false} FullStays<T(!new)>(w: Widening<T>, g: Gathering<T>, m: nat, n: nat)
    requires m <= n && |After(w, g, m).tmp| >= w.limit
    ensures After(w, g, n) == After(w, g, m)
  {
    if m < n {
      FullStays(w, g, m, n - 1);
    }
  }

  /** With a positive threshold the loop ends. Otherwise, when no pass after pass `m` sees anything new, it ends
      exactly if it does not start or the limit is reached by then. */
  lemma EndsIff<T(!new)>(w: Widening<T>, g: Gathering<T>, others: set<T>, m: nat)
    requires Setting(w) && Kept(w, g, others) && (w.threshold <= 0.0 ==> NothingNew(w, m))
    ensures Ends(w, g) <==> w.threshold > 0.0 || Start(w) > 1.0 || |After(w, g, m + 1).tmp| >= w.limit
  {
    hide Setting, Kept, Settled, NothingNew, Swept, After;
    if w.threshold > 0.0 {
      PositiveThresholdEnds(w, g);
    } else if Start(w) > 1.0 {
      assert Stops(w, g, 0);
    } else if |After(w, g, m + 1).tmp| >= w.limit {
      assert Stops(w, g, m + 1);
    } else {
      NeverFull(w, g, others, m);
    }
  }

  lemma NeverFull<T(!new)>(w: Widening<T>, g: Gathering<T>, others: set<T>, m: nat)
    requires Setting(w) && Kept(w, g, others) && w.threshold <= 0.0 && NothingNew(w, m)
    requires Start(w) <= 1.0 && |After(w, g, m + 1).tmp| < w.limit
    ensures !Ends(w, g)
  {
    hide Setting, Kept, Settled, NothingNew, BoundAt, Swept;
    var others' := AfterIsKept(w, g, others, m);
    assert After(w, g, m + 1) == Swept(w, w.inputsAt(BoundAt(w, m)), After(w, g, m));
    forall x | x in w.inputsAt(BoundAt(w, m)) ensures Settled(w, After(w, g, m + 1), x) {
      SweptSettles(w, w.inputsAt(BoundAt(w, m)), After(w, g, m), others', x);
    }
    forall n: nat ensures !Stops(w, g, n) {
      FracFalls(w, 0, n);
      if n > m {
        StaysBelow(w, g, m, n);
      } else if |After(w, g, n).tmp| >= w.limit {
        FullStays(w, g, n, m + 1);
      }
    }
  }

  /** With a threshold of zero and no inputs the loop goes on for ever. */
  lemma WidensForever<T(!new)>(w: Widening<T>)
    requires Setting(w) && w.boundaries == [] && w.limit > 0 && w.threshold == 0.0 && Start(w) <= 1.0
    requires forall b :: w.inputsAt(b) == []
    ensures !Ends(w, Gathering([], [], []))
  {
    var g: Gathering<T> := Gathering([], [], []);
    NothingNewIf(w);
    assert Kept(w, g, {});
    assert After(w, g, 1) == g;
    EndsIff(w, g, {}, 0);
  }

  // The methods

  method Consider<T(==, !new)>(w: Widening<T>, g: Gathering<T>, x: T) returns (g': Gathering<T>)
    requires Setting(w) && |g.rootNums| == |g.chosen| == |w.boundaries|
    ensures g' == Considered(w, g, x)
  {
    g' := g;
    if !Contains(w.less, g.tmp, x) && w.eligible(x) {
      var index := w.getRoot(x);
      if index == -1 {
        g' := g.(tmp := InsertUnique(w.less, g.tmp, x));
      } else if g.rootNums[index] < w.boundaries[index] {
        g' := Gathering(InsertUnique(w.less, g.tmp, x), g.chosen[index := g.chosen[index] + [x]],
                        g.rootNums[index := g.rootNums[index] + 1]);
      }
    }
  }

  lemma ConsideredFits<T(!new)>(w: Widening<T>, g: Gathering<T>, x: T)
    requires |g.rootNums| == |g.chosen|
    ensures |Considered(w, g, x).rootNums| == |Considered(w, g, x).chosen| == |g.chosen|
  {
    hide InsertUnique, Contains;
  }

  method WidenOnce<T(==, !new)>(w: Widening<T>, inputs: seq<T>, g: Gathering<T>, ghost others: set<T>)
    returns (g': Gathering<T>, ghost others': set<T>)
    requires Setting(w) && Kept(w, g, others)
    ensures g' == Swept(w, inputs, g) && Kept(w, g', others')
    ensures OnlyEligible(w.eligible, w.getRoot, g.chosen, g'.chosen, others, others')
    ensures |g'.tmp| <= Max(|g.tmp|, w.limit) && TakenInOrder(w, inputs, g, g')
    ensures |g'.tmp| < w.limit ==> forall x :: x in inputs ==> Settled(w, g', x)
  {
    hide Gathered, OnlyEligible, Settled, StrictWeakOrder, Considered, TakenTo;
    g' := g;
    var itr := 0;
    while itr < |inputs| && |g'.tmp| < w.limit
      invariant itr <= |inputs| && Swept(w, inputs[itr..], g') == Swept(w, inputs, g)
      invariant |g'.rootNums| == |g'.chosen| == |w.boundaries|
    {
      assert inputs[itr..][0] == inputs[itr] && inputs[itr..][1..] == inputs[itr + 1..];
      ConsideredFits(w, g', inputs[itr]);
      g' := Consider(w, g', inputs[itr]);
      itr := itr + 1;
    }
    others' := SweptIsKept(w, inputs, g, others);
    ghost var n := SweptTakes(w, inputs, g, others);
    if |g'.tmp| < w.limit {
      forall x | x in inputs ensures Settled(w, g', x) {
        SweptSettles(w, inputs, g, others, x);
      }
    }
  }

  lemma FirstPass<T(!new)>(w: Widening<T>, g: Gathering<T>)
    ensures After(w, g, 0) == g && FracAt(w, 0) == Start(w)
  {}

  lemma NextPass<T(!new)>(w: Widening<T>, g: Gathering<T>, n: nat)
    ensures Stops(w, g, n) <==> |After(w, g, n).tmp| >= w.limit || FracAt(w, n) > 1.0
    ensures BoundAt(w, n) == w.max - w.max * FracAt(w, n) && FracAt(w, n + 1) == FracAt(w, n) + w.threshold
    ensures After(w, g, n + 1) == Swept(w, w.inputsAt(BoundAt(w, n)), After(w, g, n))
  {}

  /** Pass `k` takes the inputs at its bound in their order. */
  ghost predicate PassInOrder<T(!new)>(w: Widening<T>, g: Gathering<T>, k: nat) {
    TakenInOrder(w, w.inputsAt(BoundAt(w, k)), After(w, g, k), After(w, g, k + 1))
  }

  method Widen<T(==, !new)>(w: Widening<T>, g: Gathering<T>)
    returns (g': Gathering<T>, ghost others: set<T>, ghost passes: nat)
    requires Setting(w) && Kept(w, g, {}) && Ends(w, g)
    ensures g' == After(w, g, passes) && Stops(w, g, passes) && forall k: nat :: k < passes ==> !Stops(w, g, k)
    ensures Kept(w, g', others) && OnlyEligible(w.eligible, w.getRoot, g.chosen, g'.chosen, {}, others)
    ensures |g'.tmp| <= Max(|g.tmp|, w.limit)
    ensures forall k: nat :: k < passes ==> PassInOrder(w, g, k)
    ensures passes > 0 && |g'.tmp| < w.limit ==> forall x :: x in w.inputsAt(BoundAt(w, passes - 1)) ==>
              Settled(w, g', x)
  {
    hide Setting, Kept, OnlyEligible, Settled, Swept, After, FracAt, BoundAt, Stops, TakenInOrder;
    g', others, passes := g, {}, 0;
    NothingAdded(w.eligible, w.getRoot, g.chosen, others);
    ghost var stop: nat :| Stops(w, g, stop);
    FirstPass(w, g);
    var frac := if w.max == 0.0 then 1.0 else w.fraction;
    while |g'.tmp| < w.limit && frac <= 1.0
      invariant g' == After(w, g, passes) && frac == FracAt(w, passes) && forall k: nat :: k < passes ==>
                  !Stops(w, g, k)
      invariant Kept(w, g', others) && OnlyEligible(w.eligible, w.getRoot, g.chosen, g'.chosen, {}, others)
      invariant |g'.tmp| <= Max(|g.tmp|, w.limit) && passes <= stop
      invariant forall k: nat :: k < passes ==> PassInOrder(w, g, k)
      invariant passes > 0 && |g'.tmp| < w.limit ==> forall x :: x in w.inputsAt(BoundAt(w, passes - 1)) ==>
                  Settled(w, g', x)
      decreases stop - passes
    {
      ghost var chosen1, others1 := g'.chosen, others;
      NextPass(w, g, passes);
      g', others := WidenOnce(w, w.inputsAt(w.max - w.max * frac), g', others);
      OnlyEligibleChains(w.eligible, w.getRoot, g.chosen, chosen1, g'.chosen, {}, others1, others);
      passes := passes + 1;
      frac := frac + w.threshold;
    }
    NextPass(w, g, passes);
  }

  // ---------------------------------------------------------------------------------------------
  // The final selection: the bound of the loop shrinks while it runs

  method TakeBetterHalf<T>(tmp: seq<T>, targetval: int) returns (targets: seq<T>, rest: seq<T>)
    ensures var k := Min((|tmp| + 1) / 2, Max(targetval, 0)); targets == tmp[..k] && rest == tmp[k..]
  {
    targets, rest := [], tmp;
    var i := 0;
    while i < |rest| && i < targetval
      invariant 0 <= i <= Max(targetval, 0) && 2 * i <= |tmp| + 1
      invariant targets == tmp[..i] && rest == tmp[i..]
    {
      targets := targets + [rest[0]];
      rest := rest[1..];
      i := i + 1;
    }
  }

  // ---------------------------------------------------------------------------------------------
  // The whole selection

  datatype Limits = Limits(maxFailsPerSource: nat, maxGenerationsPerSource: nat, extensionMin: int, backtrackMin: int,
                           lossThreshold: real)

  /** The low 32 bits as a signed number. */
  function AsInt32(n: nat): (r: int)
    ensures -0x8000_0000 <= r < 0x8000_0000 && (n - r) % 0x1_0000_0000 == 0
  {
    var low := n % 0x1_0000_0000;
    if low < 0x8000_0000 then low else low - 0x1_0000_0000
  }

  /** One of the two minima is compared with the length as an unsigned number, the other as a signed one. */
  predicate Eligible(s: Limits, checkDelta: bool, c: Measured) {
    && (s.maxFailsPerSource == 0 || s.maxFailsPerSource > c.derivedFails)
    && (s.maxGenerationsPerSource == 0 || s.maxGenerationsPerSource > c.derivedInputs)
    && ((c.result == Unfinished && c.length > AsSize(s.extensionMin))
        || (c.result == Failing && AsInt32(c.length) > s.backtrackMin))
    && (!checkDelta || !c.deltaDebugged)
  }

  /** What the selection is given: an order of the inputs, what is known of each, the number of tests and the
      results of each controller, the inputs above a score bound, and the controller that an input counts for. */
  datatype Selection<!T> =
    Selection(less: (T, T) -> bool, measure: T -> Measured, totals: seq<nat>, results: seq<seq<T>>,
              inputsAt: real -> seq<T>, getRoot: T -> int, max: real, frac: real, checkDelta: bool,
              limits: Limits, targetval: int)

  ghost predicate WellPosed<T(!new)>(q: Selection<T>) {
    StrictWeakOrder(q.less) && |q.totals| == |q.results| && forall c :: -1 <= q.getRoot(c) < |q.totals|
  }

  predicate EligibleIn<T>(q: Selection<T>, c: T) {
    Eligible(q.limits, q.checkDelta, q.measure(c))
  }

  /** A limit that is set has been reached, the input is neither unfinished nor failing or too short to be
      extended or taken back, or it comes from delta debugging where that is not wanted. */
  predicate Excluded<T>(q: Selection<T>, c: T) {
    var s, x := q.limits, q.measure(c);
    || 0 < s.maxFailsPerSource <= x.derivedFails
    || 0 < s.maxGenerationsPerSource <= x.derivedInputs
    || (x.result != Unfinished && x.result != Failing)
    || (x.result == Unfinished && x.length <= AsSize(s.extensionMin))
    || (x.result == Failing && AsInt32(x.length) <= s.backtrackMin)
    || (q.checkDelta && x.deltaDebugged)
  }

  lemma ExcludedOrEligible<T>(q: Selection<T>, c: T)
    ensures WideningOf(q).eligible(c) <==> !Excluded(q, c)
    ensures EligibleIn(q, c) <==> !Excluded(q, c)
  {}

  function ShareIn<T>(q: Selection<T>, j: nat): int
    requires j < |q.totals|
  {
    Share(q.totals[j], Max(q.targetval, 0), j, |q.totals|)
  }

  function Shares<T>(q: Selection<T>): seq<int> {
    seq(|q.totals|, j requires 0 <= j < |q.totals| => ShareIn(q, j))
  }

  function WideningOf<T>(q: Selection<T>): Widening<T> {
    Widening(q.less, (c: T) => EligibleIn(q, c), q.getRoot, Shares(q), q.targetval * 2, q.inputsAt, q.max, q.frac,
             q.limits.lossThreshold)
  }

  /** What the drain leaves: of each controller the best results, as many as its share allows. */
  ghost predicate DrainedTo<T(!new)>(q: Selection<T>, g: Gathering<T>) {
    && |q.results| == |q.totals|
    && Kept(WideningOf(q), g, {}) && |g.tmp| <= Max(q.targetval, 0)
    && (forall j :: 0 <= j < |q.results| ==>
                      g.rootNums[j] == Min(ShareIn(q, j), |q.results[j]|)
                        && g.chosen[j] == q.results[j][..g.rootNums[j]])
  }

  ghost predicate SelectionEnds<T(!new)>(q: Selection<T>) {
    forall g :: DrainedTo(q, g) ==> Ends(WideningOf(q), g)
  }

  /** With a positive loss threshold, whatever the inputs; and if the loop does not start, because the fraction
      to begin with is above 1 and there is a best score, or because nothing is to be selected. */
  lemma SelectionEndsIf<T(!new)>(q: Selection<T>)
    requires q.limits.lossThreshold > 0.0 || (q.max != 0.0 && q.frac > 1.0) || q.targetval <= 0
    ensures SelectionEnds(q)
  {
    hide DrainedTo, After;
    forall g | DrainedTo(q, g) ensures Ends(WideningOf(q), g) {
      if q.limits.lossThreshold > 0.0 {
        PositiveThresholdEnds(WideningOf(q), g);
      } else {
        FirstPass(WideningOf(q), g);
        assert Stops(WideningOf(q), g, 0);
      }
    }
  }

  /** Nothing eligible among these inputs was passed over: an equivalent candidate is there, or the
      controller's share is used up. */
  ghost predicate NothingMissed<T(!new)>(q: Selection<T>, pool: seq<T>, candidates: seq<T>, chosen: seq<seq<T>>)
    requires |chosen| == |q.totals|
  {
    forall c :: c in pool && !Excluded(q, c) && !Contains(q.less, candidates, c) ==>
                  0 <= q.getRoot(c) < |q.totals| && |chosen[q.getRoot(c)]| == ShareIn(q, q.getRoot(c))
  }

  /** Every candidate is a result of the controller it counts for, or an eligible input. */
  ghost predicate WellChosen<T(!new)>(q: Selection<T>, chosen: seq<seq<T>>, others: set<T>)
    requires |chosen| == |q.results|
  {
    && (forall j, c :: 0 <= j < |q.results| && c in chosen[j] ==>
         || c in q.results[j]
         || (!Excluded(q, c) && q.getRoot(c) == j))
    && (forall c :: c in others ==> !Excluded(q, c) && q.getRoot(c) == -1)
  }

  /** The sources chosen are the better half of at most `2 * targetval` candidates. These are the best results of
      every controller, within its fair share, widened by whole passes at the falling score bound, up to the
      first one after which there is no more to do. */
  method FilterSet<T(==, !new)>(q: Selection<T>)
    returns (targets: seq<T>, ghost drained: Gathering<T>, ghost passes: nat, ghost others: set<T>)
    requires WellPosed(q) && SelectionEnds(q)
    ensures DrainedTo(q, drained) && Stops(WideningOf(q), drained, passes)
    ensures forall k: nat :: k < passes ==> !Stops(WideningOf(q), drained, k) && PassInOrder(WideningOf(q), drained, k)
    ensures var g := After(WideningOf(q), drained, passes);
            && |g.tmp| <= Max(2 * q.targetval, 0) && Gathered(q.less, g.tmp, g.chosen, others)
            && targets == g.tmp[..(|g.tmp| + 1) / 2] && |g.chosen| == |q.totals| && WellChosen(q, g.chosen, others)
            && (forall j :: 0 <= j < |q.totals| ==> BestOf(q, j) <= g.chosen[j] && |g.chosen[j]| <= ShareIn(q, j))
            && (passes > 0 && |g.tmp| < 2 * q.targetval ==>
                  NothingMissed(q, q.inputsAt(BoundAt(WideningOf(q), passes - 1)), g.tmp, g.chosen))
    ensures forall c, o ::
              c in targets && o in After(WideningOf(q), drained, passes).tmp && o !in targets ==> q.less(c, o)
    ensures |targets| <= Max(q.targetval, 0) && StrictlySorted(q.less, targets)
    ensures forall c :: c in targets ==> !Excluded(q, c) || exists j :: 0 <= j < |q.results| && c in q.results[j]
  {
    hide Gathered, Share, StrictWeakOrder, WellChosen, NothingMissed, OnlyEligible, Settled, Ends, EligibleIn, Quotas,
         BestOf, After, Stops, DrainedTo, Kept, BoundAt, PassInOrder;
    var boundaries := DistributeBudget(q.totals, q.targetval);
    SharesAreWithin(q);
    assert boundaries == Shares(q);
    var tmp, picked, rootNums := Drain(q.less, q.results, boundaries, q.targetval);
    var w, g := WideningOf(q), Gathering(tmp, picked, rootNums);
    drained := g;
    DrainIsDone(q, drained);
    g, others, passes := Widen(w, g);
    ChosenWell(q, drained, g.chosen, others);
    WithinShares(q, drained, g, others);
    if passes > 0 && |g.tmp| < 2 * q.targetval {
      MissedNothing(q, q.inputsAt(BoundAt(w, passes - 1)), g, others);
    }
    var rest;
    targets, rest := TakeBetterHalf(g.tmp, q.targetval);
    TargetsAreGood(q, g.tmp, g.chosen, others, targets);
    GatheredInOrder(q.less, g.tmp, g.chosen, others);
    TargetsComeFirst(q, g.tmp, |targets|);
  }

  lemma TargetsComeFirst<T(!new)>(q: Selection<T>, candidates: seq<T>, k: nat)
    requires StrictlySorted(q.less, candidates) && k <= |candidates|
    ensures forall c, o :: c in candidates[..k] && o in candidates && o !in candidates[..k] ==> q.less(c, o)
  {
    forall c, o | c in candidates[..k] && o in candidates && o !in candidates[..k] ensures q.less(c, o) {
      var i :| 0 <= i < k && candidates[i] == c;
      var j: nat :| j < |candidates| && candidates[j] == o;
      if j < k {
        AmongFirst(candidates, j, k);
      }
    }
  }

  lemma GatheredInOrder<T(!new)>(less: (T, T) -> bool, tmp: seq<T>, chosen: seq<seq<T>>, others: set<T>)
    requires Gathered(less, tmp, chosen, others)
    ensures StrictlySorted(less, tmp)
  {}

  /** The selection compares what is known of two inputs by `cmp`. */
  ghost predicate OrderedBy<T(!new)>(q: Selection<T>, cmp: (Measured, Option<Measured>) -> bool) {
    forall a, b :: q.less(a, b) == cmp(q.measure(a), Some(q.measure(b)))
  }

  /** What each of the four orders makes of the targets: every one of them has a higher score than every
      candidate that is not selected, or needs less length for its score. */
  lemma TargetsInValues<T(!new)>(q: Selection<T>, candidates: seq<T>, k: nat, c: T, o: T)
    requires StrictlySorted(q.less, candidates) && k <= |candidates|
    requires c in candidates[..k] && o in candidates && o !in candidates[..k]
    ensures var x, y := q.measure(c), q.measure(o);
            && (OrderedBy(q, InputGreaterPrimary) ==> x.primary > y.primary)
            && (OrderedBy(q, InputGreaterSecondary) ==> x.secondary > y.secondary)
            && (OrderedBy(q, InputGainGreaterPrimary) ==>
                  CheaperScore(x.effectiveLength, x.primary, y.effectiveLength, y.primary))
            && (OrderedBy(q, InputGainGreaterSecondary) ==>
                  CheaperScore(x.effectiveLength, x.secondary, y.effectiveLength, y.secondary))
  {
    hide Divide, Below, CheaperScore;
    TargetsComeFirst(q, candidates, k);
    var x, y := q.measure(c), q.measure(o);
    if OrderedBy(q, InputGainGreaterPrimary) {
      GainInValues(x.effectiveLength, x.primary, y.effectiveLength, y.primary);
    }
    if OrderedBy(q, InputGainGreaterSecondary) {
      GainInValues(x.effectiveLength, x.secondary, y.effectiveLength, y.secondary);
    }
  }

  /** What order means for the gathering of pass `k` from a sorted pool: an input that the pass leaves over,
      although nothing excludes it, no equivalent candidate is there and the share of its controller is not used up,
      does not come before any input that the pass has added. */
  lemma LeftOverComesLater<T(!new)>(q: Selection<T>, drained: Gathering<T>, k: nat, x: T, y: T)
    requires WellPosed(q) && DrainedTo(q, drained) && PassInOrder(WideningOf(q), drained, k)
    requires var pool := q.inputsAt(BoundAt(WideningOf(q), k)); StrictlySorted(q.less, pool) && y in pool
    requires x in After(WideningOf(q), drained, k + 1).tmp && x !in After(WideningOf(q), drained, k).tmp
    requires var g := After(WideningOf(q), drained, k + 1);
             && !Excluded(q, y) && !Contains(q.less, g.tmp, y)
             && |g.chosen| == |q.totals|
             && (q.getRoot(y) == -1 || |g.chosen[q.getRoot(y)]| < ShareIn(q, q.getRoot(y)))
    ensures q.less(x, y)
  {
    hide Share, Contains, Gathered, TakenTo, EligibleIn, Excluded, DrainedTo, After, BoundAt, StrictWeakOrder;
    var w := WideningOf(q);
    SharesAreWithin(q);
    WideningIsSet(q);
    DrainedIsKept(q, drained);
    var others := AfterIsKept(w, drained, {}, k + 1);
    ExcludedOrEligible(q, y);
    AddedComeFirst(w, q.inputsAt(BoundAt(w, k)), After(w, drained, k), After(w, drained, k + 1), x, y);
  }

  /** The bound of each pass and the end of the passes, in what the selection is given. */
  lemma PassesOfSelection<T(!new)>(q: Selection<T>, drained: Gathering<T>, n: nat)
    ensures var w, first := WideningOf(q), if q.max == 0.0 then 1.0 else q.frac;
            && BoundAt(w, n) == q.max * (1.0 - first - n as real * q.limits.lossThreshold)
            && (Stops(w, drained, n) <==>
                  || |After(w, drained, n).tmp| >= 2 * q.targetval
                  || first + n as real * q.limits.lossThreshold > 1.0)
  {
    hide After;
    var w := WideningOf(q);
    BoundsFall(w, n);
    var frac := FracAt(w, n);
    assert q.max - q.max * frac == q.max * (1.0 - frac);
  }

  lemma WideningIsSet<T(!new)>(q: Selection<T>)
    requires WellPosed(q)
    ensures Setting(WideningOf(q))
  {
    hide StrictWeakOrder;
  }

  lemma DrainedIsKept<T(!new)>(q: Selection<T>, drained: Gathering<T>)
    requires DrainedTo(q, drained)
    ensures Kept(WideningOf(q), drained, {})
  {
    hide Kept;
  }

  /** The best results of a controller, as many as its share allows. */
  ghost function BestOf<T>(q: Selection<T>, j: nat): seq<T>
    requires j < |q.totals| == |q.results|
  {
    SharesAreWithin(q);
    q.results[j][..Min(ShareIn(q, j), |q.results[j]|)]
  }

  lemma DrainIsDone<T(!new)>(q: Selection<T>, g: Gathering<T>)
    requires |q.results| == |q.totals| && Gathered(q.less, g.tmp, g.chosen, {})
             && Quotas(Shares(q), g.rootNums, g.chosen)
    requires |g.tmp| <= Max(q.targetval, 0)
    requires forall j :: 0 <= j < |q.results| ==>
               && g.rootNums[j] <= |q.results[j]|
               && g.chosen[j] == q.results[j][..g.rootNums[j]]
    requires forall j :: 0 <= j < |q.results| ==> g.rootNums[j] == Min(Shares(q)[j], |q.results[j]|)
    ensures DrainedTo(q, g) && Kept(WideningOf(q), g, {})
  {
    hide Gathered, Share;
  }

  lemma WithinShares<T(!new)>(q: Selection<T>, drained: Gathering<T>, g: Gathering<T>, others: set<T>)
    requires DrainedTo(q, drained) && Kept(WideningOf(q), g, others)
    requires OnlyEligible(WideningOf(q).eligible, q.getRoot, drained.chosen, g.chosen, {}, others)
    ensures |g.chosen| == |q.totals| == |q.results| && Gathered(q.less, g.tmp, g.chosen, others)
    ensures forall j :: 0 <= j < |q.totals| ==> BestOf(q, j) <= g.chosen[j] && |g.chosen[j]| <= ShareIn(q, j)
  {
    hide Gathered, Share, EligibleIn;
  }

  lemma SharesAreWithin<T>(q: Selection<T>)
    ensures forall j :: 0 <= j < |q.totals| ==> ShareIn(q, j) >= 0
    ensures Sum(Shares(q)) <= Max(q.targetval, 0)
  {
    hide Share;
    forall j | 0 <= j < |q.totals| ensures ShareIn(q, j) >= 0 {
      ShareIsNat(q.totals[j], Max(q.targetval, 0), j, |q.totals|);
    }
    if q.totals != [] {
      SplitIsFair(q.totals, Max(q.targetval, 0), Shares(q));
    }
  }

  lemma TargetsAreGood<T(!new)>(q: Selection<T>, candidates: seq<T>, chosen: seq<seq<T>>, others: set<T>,
                                targets: seq<T>)
    requires |chosen| == |q.results| && Gathered(q.less, candidates, chosen, others) && targets <= candidates
    requires WellChosen(q, chosen, others)
    ensures StrictlySorted(q.less, targets)
    ensures forall c :: c in targets ==> !Excluded(q, c) || exists j :: 0 <= j < |q.results| && c in q.results[j]
  {
    hide Excluded;
    forall c | c in targets ensures !Excluded(q, c) || exists j :: 0 <= j < |q.results| && c in q.results[j] {
      assert c in candidates;
    }
  }

  lemma ChosenWell<T(!new)>(q: Selection<T>, drained: Gathering<T>, chosen: seq<seq<T>>, others: set<T>)
    requires DrainedTo(q, drained)
             && OnlyEligible(WideningOf(q).eligible, q.getRoot, drained.chosen, chosen, {}, others)
    ensures |chosen| == |q.results| && WellChosen(q, chosen, others)
  {
    hide EligibleIn, Excluded, Gathered, Share;
    forall j, c | 0 <= j < |q.results| && c in chosen[j]
      ensures c in q.results[j] || (!Excluded(q, c) && q.getRoot(c) == j)
    {
      if c !in drained.chosen[j] {
        ExcludedOrEligible(q, c);
        assert WideningOf(q).eligible(c) && q.getRoot(c) == j;
      }
    }
    forall c | c in others ensures !Excluded(q, c) && q.getRoot(c) == -1 {
      ExcludedOrEligible(q, c);
      assert c in others - {};
    }
  }

  lemma MissedNothing<T(!new)>(q: Selection<T>, pool: seq<T>, g: Gathering<T>, others: set<T>)
    requires Kept(WideningOf(q), g, others)
    requires forall c :: c in pool ==> Settled(WideningOf(q), g, c)
    ensures |g.chosen| == |q.totals| && NothingMissed(q, pool, g.tmp, g.chosen)
  {
    hide EligibleIn, Excluded, Share, Gathered;
    forall c | c in pool && !Excluded(q, c) && !Contains(q.less, g.tmp, c)
      ensures 0 <= q.getRoot(c) < |q.totals| && |g.chosen[q.getRoot(c)]| == ShareIn(q, q.getRoot(c))
    {
      ExcludedOrEligible(q, c);
      assert Settled(WideningOf(q), g, c);
    }
  }

  lemma ShareIsNat(total: nat, t: nat, j: nat, n: nat)
    requires j < n
    ensures Share(total, t, j, n) >= 0
  {
    DivNat(t + n - 1 - j, n);
  }

  lemma DivNat(a: nat, n: nat)
    requires n > 0
    ensures a / n >= 0
  {}
}
