/** Each turn of the parser leaves exactly the back pointers that it should. */
module EarleyBackPointers {
  import opened Grammars
  import opened EarleyChart

  // ---------------------------------------------------------------------------------------------
  // Unstarted states: every state that waits for their node is named

  ghost predicate SameItems(a: Column, b: Column) {
    |a| == |b| && forall p :: 0 <= p < |a| ==> a[p].item == b[p].item
  }

  lemma {:induction false} AskersOfItems(a: Column, a': Column, b: Node, c: nat, times: nat)
    requires SameItems(a, a')
    ensures Askers(a, b, c, times) == Askers(a', b, c, times)
  {
    if a != [] {
      AskersOfItems(a[..|a| - 1], a'[..|a| - 1], b, c, times);
    }
  }

  lemma {:induction false} NoAskers(col: Column, b: Node, c: nat, times: nat)
    requires forall p :: 0 <= p < |col| ==> !Expects(col[p].item, b)
    ensures Askers(col, b, c, times) == []
  {
    if col != [] {
      NoAskers(col[..|col| - 1], b, c, times);
    }
  }

  lemma AskersStep(col: Column, m: nat, b: Node, c: nat, times: nat)
    requires m < |col|
    ensures Askers(col[..m + 1], b, c, times)
            == Askers(col[..m], b, c, times) + if Expects(col[m].item, b) then seq(times, _ => At(c, m)) else []
  {
    assert col[..m + 1][..m] == col[..m];
  }

  ghost predicate Begun(col: Column, c: nat) {
    forall p :: 0 <= p < |col| && col[p].item.dot == 0 ==> col[p].item.origin == c
  }

  /** The reasons of a state while the turn on state `m` is predicting `b` and has done so for the rules `done`. */
  ghost function ReasonsSoFar(g: Grammar, root: Node, col: Column, c: nat, m: nat, p: nat, b: Node,
                              done: seq<Expansion>): seq<Back>
    requires m <= |col| && p < |col|
  {
    var x := col[p].item;
    Reasons(g, root, col, c, m, p)
    + if x.lhs == b && !HasItem(col[..p], x) then seq(multiset(done)[x.rule], _ => At(c, m)) else []
  }

  ghost predicate ReasonedSoFar(g: Grammar, root: Node, col: Column, c: nat, m: nat, b: Node, done: seq<Expansion>) {
    && m <= |col|
    && forall p :: 0 <= p < |col| && col[p].item.dot == 0
                   ==> col[p].back == ReasonsSoFar(g, root, col, c, m, p, b, done)
  }

  /** Nothing has asked for `b` yet. */
  ghost predicate Unasked(root: Node, col: Column, c: nat, m: nat, b: Node) {
    m <= |col| && !(c == 0 && b == root) && forall p :: 0 <= p < m ==> !Expects(col[p].item, b)
  }

  lemma SameReasons(g: Grammar, root: Node, col: Column, col': Column, c: nat, m: nat, p: nat)
    requires m <= |col| && p < |col| && Grows(col, col')
    ensures Reasons(g, root, col', c, m, p) == Reasons(g, root, col, c, m, p)
  {
    var x := col[p].item;
    AskersOfItems(col[..m], col'[..m], x.lhs, c, multiset(g.GetProduction(x.lhs))[x.rule]);
    SameBefore(col, col', p, x);
  }

  lemma SameBefore(col: Column, col': Column, p: nat, x: Item)
    requires p <= |col| && Grows(col, col')
    ensures HasItem(col'[..p], x) <==> HasItem(col[..p], x)
  {
    if HasItem(col[..p], x) {
      HasItemGrows(col[..p], col'[..p], x);
    }
    if HasItem(col'[..p], x) {
      HasItemGrows(col'[..p], col[..p], x);
    }
  }

  lemma OneMore(done: seq<Expansion>, e: Expansion, f: Expansion)
    ensures multiset(done + [e])[f] == multiset(done)[f] + if e == f then 1 else 0
  {}

  /** One prediction adds the asking state to the reasons of the first state that is predicted, and to no other. */
  lemma PredictOneReasons(g: Grammar, root: Node, col: Column, c: nat, m: nat, b: Node, done: seq<Expansion>,
                          e: Expansion)
    requires ReasonedSoFar(g, root, col, c, m, b, done) && Begun(col, c)
    requires HasItem(col, Item(b, e, c, 0)) || (Unasked(root, col, c, m, b) && e !in done)
    ensures var col' := PredictOne(col, Item(b, e, c, 0), At(c, m));
            ReasonedSoFar(g, root, col', c, m, b, done + [e]) && Begun(col', c) && Grows(col, col')
  {
    hide ReasonsSoFar, Reasons;
    var x := Item(b, e, c, 0);
    var col' := PredictOne(col, x, At(c, m));
    assert Grows(col, col');
    forall p | 0 <= p < |col'| && col'[p].item.dot == 0
      ensures col'[p].back == ReasonsSoFar(g, root, col', c, m, p, b, done + [e])
    {
      if p < |col| {
        OldReasons(g, root, col, col', c, m, b, done, e, p);
      } else {
        NewReasons(g, root, col, col', c, m, b, done, e);
      }
    }
  }

  lemma OldReasons(g: Grammar, root: Node, col: Column, col': Column, c: nat, m: nat, b: Node, done: seq<Expansion>,
                   e: Expansion, p: nat)
    requires m <= |col| && p < |col| && col[p].item.dot == 0 && col[p].item.origin == c && Grows(col, col')
    requires col[p].back == ReasonsSoFar(g, root, col, c, m, p, b, done)
    requires col'[p].back == col[p].back + if p == IndexOf(col, Item(b, e, c, 0)) then [At(c, m)] else []
    ensures col'[p].back == ReasonsSoFar(g, root, col', c, m, p, b, done + [e])
  {
    hide Reasons, HasItem;
    var y := col[p].item;
    SameReasons(g, root, col, col', c, m, p);
    SameBefore(col, col', p, y);
    ReasonAdded(col, Item(b, e, c, 0), p);
    if y.lhs == b && !HasItem(col[..p], y) {
      OneMore(done, e, y.rule);
      AskedAgain(c, m, multiset(done)[y.rule], if y.rule == e then 1 else 0);
    }
  }

  lemma AskedAgain(c: nat, m: nat, n: nat, k: nat)
    requires k <= 1
    ensures seq(n + k, _ => At(c, m)) == seq(n, _ => At(c, m)) + if k == 1 then [At(c, m)] else []
  {}

  /** Which of the old states a prediction adds a reason to. */
  lemma ReasonAdded(col: Column, x: Item, p: nat)
    requires p < |col|
    ensures p == IndexOf(col, x) <==> col[p].item == x && !HasItem(col[..p], x)
  {
    var r := IndexOf(col, x);
    if 0 <= r < p {
      assert col[..p][r].item == x;
    }
  }

  lemma NewReasons(g: Grammar, root: Node, col: Column, col': Column, c: nat, m: nat, b: Node, done: seq<Expansion>,
                   e: Expansion)
    requires Unasked(root, col, c, m, b) && e !in done && !HasItem(col, Item(b, e, c, 0))
    requires col' == col + [State(Item(b, e, c, 0), [At(c, m)])]
    ensures ReasonsSoFar(g, root, col', c, m, |col|, b, done + [e]) == [At(c, m)]
  {
    var x := Item(b, e, c, 0);
    assert col'[..|col|] == col && col'[..m] == col[..m];
    NoAskers(col[..m], b, c, multiset(g.GetProduction(b))[e]);
    OneMore(done, e, e);
  }

  lemma NothingDone(g: Grammar, root: Node, col: Column, c: nat, m: nat, b: Node)
    requires Reasoned(g, root, col, c, m)
    ensures ReasonedSoFar(g, root, col, c, m, b, [])
  {
    hide Reasons;
    forall p | 0 <= p < |col| && col[p].item.dot == 0
      ensures ReasonsSoFar(g, root, col, c, m, p, b, []) == Reasons(g, root, col, c, m, p)
    {
      var none: seq<Expansion> := [];
      assert multiset(none)[col[p].item.rule] == 0;
    }
  }

  /** A whole prediction adds the asking state once for each time that a rule is listed. */
  lemma {:induction false} PredictReasons(g: Grammar, root: Node, col: Column, c: nat, m: nat, b: Node,
                                          list: seq<Expansion>)
    requires Reasoned(g, root, col, c, m) && Begun(col, c)
    requires (forall e :: e in list ==> HasItem(col, Item(b, e, c, 0))) || Unasked(root, col, c, m, b)
    ensures var col' := Predict(col, b, list, c, At(c, m));
            ReasonedSoFar(g, root, col', c, m, b, list) && Begun(col', c) && Grows(col, col')
  {
    hide ReasonsSoFar, Reasons, PredictOne;
    if list == [] {
      NothingDone(g, root, col, c, m, b);
    } else {
      var last := |list| - 1;
      var done := list[..last];
      var mid := Predict(col, b, done, c, At(c, m));
      PredictReasons(g, root, col, c, m, b, done);
      PredictGrows(col, b, done, c, At(c, m));
      var x := Item(b, list[last], c, 0);
      if HasItem(col, x) {
        HasItemGrows(col, mid, x);
      } else if !HasItem(mid, x) {
        assert Unasked(root, mid, c, m, b);
      }
      PredictOneReasons(g, root, mid, c, m, b, done, list[last]);
      assert done + [list[last]] == list;
    }
  }

  lemma AllAsked(g: Grammar, root: Node, col: Column, c: nat, m: nat, p: nat, b: Node)
    requires m < |col| && p < |col| && Expects(col[m].item, b)
    ensures ReasonsSoFar(g, root, col, c, m, p, b, g.GetProduction(b)) == Reasons(g, root, col, c, m + 1, p)
  {
    hide HasItem, Askers, Grammar.GetProduction;
    var x := col[p].item;
    var times := multiset(g.GetProduction(x.lhs))[x.rule];
    AskersStep(col, m, x.lhs, c, times);
    var first, askers := if c == 0 && x.lhs == root then [NoBack] else [], Askers(col[..m], x.lhs, c, times);
    if x.lhs == b {
      assert first + askers + seq(times, _ => At(c, m)) == first + (askers + seq(times, _ => At(c, m)));
    } else {
      assert askers + [] == askers;
    }
  }

  /** The turn on a state that waits for `b` names it in each state that `b` is expanded to. */
  lemma PredictTurnReasons(g: Grammar, root: Node, col: Column, c: nat, m: nat, b: Node)
    requires Reasoned(g, root, col, c, m) && Begun(col, c) && m < |col| && Expects(col[m].item, b)
    requires (forall e :: e in g.GetProduction(b) ==> HasItem(col, Item(b, e, c, 0))) || Unasked(root, col, c, m, b)
    ensures Reasoned(g, root, Predict(col, b, g.GetProduction(b), c, At(c, m)), c, m + 1)
  {
    hide Predict, ReasonsSoFar, Reasons;
    var list := g.GetProduction(b);
    var col' := Predict(col, b, list, c, At(c, m));
    PredictReasons(g, root, col, c, m, b, list);
    PredictGrows(col, b, list, c, At(c, m));
    forall p | 0 <= p < |col'| && col'[p].item.dot == 0 ensures col'[p].back == Reasons(g, root, col', c, m + 1, p) {
      AllAsked(g, root, col', c, m, p, b);
    }
  }

  /** A turn that pushes started states only, on a state that waits for no node of an unstarted one. */
  lemma OtherTurnReasons(g: Grammar, root: Node, col: Column, more: Column, c: nat, m: nat)
    requires Reasoned(g, root, col, c, m) && m < |col|
    requires forall p :: 0 <= p < |more| ==> more[p].item.dot > 0
    requires forall p :: 0 <= p < |col| && col[p].item.dot == 0 ==> !Expects(col[m].item, col[p].item.lhs)
    ensures Reasoned(g, root, col + more, c, m + 1)
  {
    var col' := col + more;
    forall p | 0 <= p < |col'| && col'[p].item.dot == 0 ensures col'[p].back == Reasons(g, root, col', c, m + 1, p) {
      var x := col'[p].item;
      assert p < |col|;
      SameReasons(g, root, col, col', c, m, p);
      AskersStep(col', m, x.lhs, c, multiset(g.GetProduction(x.lhs))[x.rule]);
    }
  }

  lemma PushReasons(g: Grammar, root: Node, chart: Chart, i: nat, j: nat, d: nat, more: Column)
    requires ReasonedUpTo(g, root, chart, i, j) && i < |chart| && j < |chart[i]| && i <= d < |chart|
    requires var x := chart[i][j].item; x.dot < |x.rule.nodes| ==> g.Terminal(x.rule.nodes[x.dot])
    requires forall p :: 0 <= p < |chart[i]| ==> !g.Terminal(chart[i][p].item.lhs)
    requires forall p :: 0 <= p < |more| ==> more[p].item.dot > 0
    ensures ReasonedUpTo(g, root, chart[d := chart[d] + more], i, j + 1)
  {
    hide Reasoned;
    OtherTurnReasons(g, root, chart[i], if d == i then more else [], i, j);
    assert chart[i] + [] == chart[i];
  }

  // ---------------------------------------------------------------------------------------------
  // Started states: each points to the one state that it comes from

  lemma {:induction false} ReachedConcat(a: Column, b: Column, r: Back)
    ensures Reached(a + b, r) == Reached(a, r) + Reached(b, r)
  {
    if b == [] {
      assert a + b == a;
    } else {
      ReachedConcat(a, b[..|b| - 1], r);
      assert (a + b)[..|a + b| - 1] == a + b[..|b| - 1];
    }
  }

  lemma {:induction false} ReachedNone(col: Column, r: Back)
    requires forall p :: 0 <= p < |col| && col[p].item.dot > 0 ==> col[p].back != [r]
    ensures Reached(col, r) == []
  {
    if col != [] {
      ReachedNone(col[..|col| - 1], r);
    }
  }

  lemma ReachedOne(s: State, b: Back, r: Back)
    requires s.item.dot > 0 && s.back == [b]
    ensures Reached([s], r) == if r == b then [s.item] else []
  {
    assert [s][..0] == [] && Reached([], r) == [];
  }

  lemma {:induction false} ReachedAdvances(from: Column, n: Node, b: Back, r: Back)
    ensures Reached(Advances(from, n, b), r) == if r == b then Behind(from, n) else []
  {
    if from != [] {
      var last := |from| - 1;
      ReachedAdvances(from[..last], n, b, r);
      if Expects(from[last].item, n) {
        var s := State(Advance(from[last].item), [b]);
        ReachedConcat(Advances(from[..last], n, b), [s], r);
        ReachedOne(s, b, r);
      } else {
        assert Advances(from, n, b) == Advances(from[..last], n, b);
      }
    }
  }

  ghost predicate SameStarted(a: State, b: State) {
    a.item == b.item && (a.item.dot > 0 ==> a.back == b.back)
  }

  lemma {:induction false} ReachedOfStarted(a: Column, b: Column, r: Back)
    requires |a| == |b| && forall p :: 0 <= p < |a| ==> SameStarted(a[p], b[p])
    ensures Reached(a, r) == Reached(b, r)
  {
    if a != [] {
      var last := |a| - 1;
      assert SameStarted(a[last], b[last]);
      ReachedOfStarted(a[..last], b[..last], r);
    }
  }

  lemma {:induction false} ReachedPredict(col: Column, b: Node, list: seq<Expansion>, i: nat, from: Back, r: Back)
    ensures Reached(Predict(col, b, list, i, from), r) == Reached(col, r)
  {
    if list != [] {
      var last := |list| - 1;
      var mid := Predict(col, b, list[..last], i, from);
      ReachedPredict(col, b, list[..last], i, from, r);
      var x := Item(b, list[last], i, 0);
      if IndexOf(mid, x) < 0 {
        ReachedConcat(mid, [State(x, [from])], r);
        assert Reached([State(x, [from])], r) == [];
      } else {
        ReachedOfStarted(mid, PredictOne(mid, x, from), r);
      }
    }
  }

  lemma {:induction false} PredictKeepsStarted(col: Column, b: Node, list: seq<Expansion>, i: nat, from: Back)
    ensures var col' := Predict(col, b, list, i, from);
            && |col| <= |col'|
            && (forall p :: 0 <= p < |col| ==> SameStarted(col[p], col'[p]))
            && (forall p :: |col| <= p < |col'| ==> col'[p].item.dot == 0)
  {
    if list != [] {
      PredictKeepsStarted(col, b, list[..|list| - 1], i, from);
    }
  }

  /** No state that is already in the chart changes what it was reached from. */
  ghost predicate SameReached(chart: Chart, chart': Chart, i: nat, j: nat) {
    && |chart| == |chart'|
    && forall d, c, p :: 0 <= d < |chart| && Earlier(c, p, i, j)
                         ==> Reached(chart'[d], At(c, p)) == Reached(chart[d], At(c, p))
  }

  lemma StillContinued(g: Grammar, input: seq<Node>, chart: Chart, chart': Chart, i: nat, j: nat, c: nat, p: nat)
    requires |chart| == |chart'| == |input| + 1 && ChartGrows(chart, chart')
    requires i < |chart| && chart[..i] == chart'[..i]
    requires SameReached(chart, chart', i, j) && Earlier(c, p, i, j) && c < |chart| && p < |chart[c]|
    requires Continued(g, input, chart, c, p)
    ensures p < |chart'[c]| && Continued(g, input, chart', c, p)
  {
    assert Grows(chart[c], chart'[c]);
    var x := chart[c][p].item;
    if x.dot == |x.rule.nodes| {
      assert chart[x.origin] == chart[..i][x.origin] == chart'[..i][x.origin] == chart'[x.origin];
    }
  }

  lemma PushReached(chart: Chart, i: nat, j: nat, d: nat, more: Column)
    requires i < |chart| && d < |chart|
    requires forall r :: 0 <= r < |more| ==> more[r].item.dot > 0 && more[r].back == [At(i, j)]
    ensures SameReached(chart, chart[d := chart[d] + more], i, j)
  {
    var chart' := chart[d := chart[d] + more];
    forall k, c, p | 0 <= k < |chart| && Earlier(c, p, i, j)
      ensures Reached(chart'[k], At(c, p)) == Reached(chart[k], At(c, p))
    {
      if k == d {
        ReachedConcat(chart[d], more, At(c, p));
        ReachedNone(more, At(c, p));
      }
    }
  }

  /** The turns before stay accounted for. */
  lemma EarlierContinued(g: Grammar, input: seq<Node>, chart: Chart, chart': Chart, i: nat, j: nat)
    requires ContinuedUpTo(g, input, chart, i, j) && |chart'| == |chart| && ChartGrows(chart, chart')
    requires i < |chart| && j < |chart[i]| && chart[..i] == chart'[..i] && SameReached(chart, chart', i, j)
    ensures forall c, p :: 0 <= c < |chart'| && 0 <= p < |chart'[c]| && Earlier(c, p, i, j)
                           ==> Continued(g, input, chart', c, p)
  {
    hide Continued, SameReached;
    forall c, p | 0 <= c < |chart'| && 0 <= p < |chart'[c]| && Earlier(c, p, i, j)
      ensures Continued(g, input, chart', c, p)
    {
      assert c < i ==> chart[c] == chart[..i][c] == chart'[..i][c] == chart'[c];
      StillContinued(g, input, chart, chart', i, j, c, p);
    }
  }

  lemma EarlierAndThis(g: Grammar, input: seq<Node>, chart: Chart, i: nat, j: nat)
    requires |chart| == |input| + 1 && i < |chart| && j < |chart[i]| && Continued(g, input, chart, i, j)
    requires forall c, p :: 0 <= c < |chart| && 0 <= p < |chart[c]| && Earlier(c, p, i, j)
                            ==> Continued(g, input, chart, c, p)
    ensures forall c, p :: 0 <= c < |chart| && 0 <= p < |chart[c]| && Earlier(c, p, i, j + 1)
                           ==> Continued(g, input, chart, c, p)
  {
    hide Continued;
  }

  /** The turn that pushes `more` to column `d`, with back pointers to the state it is made on. */
  lemma PushContinues(g: Grammar, input: seq<Node>, chart: Chart, i: nat, j: nat, d: nat, more: Column)
    requires ContinuedUpTo(g, input, chart, i, j) && i < |chart| && j < |chart[i]| && i <= d < |chart|
    requires forall r :: 0 <= r < |more| ==> more[r].item.dot > 0 && more[r].back == [At(i, j)]
    requires var chart' := chart[d := chart[d] + more];
             Reached(chart'[d], At(i, j)) == Reached(more, At(i, j)) ==> Continued(g, input, chart', i, j)
    ensures ContinuedUpTo(g, input, chart[d := chart[d] + more], i, j + 1)
  {
    hide Continued, Reached, SameReached;
    var chart' := chart[d := chart[d] + more];
    assert chart'[..i] == chart[..i];
    PushReached(chart, i, j, d, more);
    EarlierContinued(g, input, chart, chart', i, j);
    ReachedConcat(chart[d], more, At(i, j));
    NotYetReached(g, input, chart, i, j, d);
    assert Continued(g, input, chart', i, j);
    EarlierAndThis(g, input, chart', i, j);
    forall c, p | 0 <= c < |chart'| && 0 <= p < |chart'[c]| ensures PointsBack(chart'[c][p], i, j + 1) {
      if c == d && p >= |chart[d]| {
        assert chart'[c][p] == more[p - |chart[d]|];
      } else {
        assert chart'[c][p] == chart[c][p];
      }
    }
  }

  lemma NotYetReached(g: Grammar, input: seq<Node>, chart: Chart, i: nat, j: nat, d: nat)
    requires ContinuedUpTo(g, input, chart, i, j) && d < |chart|
    ensures Reached(chart[d], At(i, j)) == []
  {
    hide Continued;
    forall p | 0 <= p < |chart[d]| && chart[d][p].item.dot > 0 ensures chart[d][p].back != [At(i, j)] {
      assert PointsBack(chart[d][p], i, j);
    }
    ReachedNone(chart[d], At(i, j));
  }

  /** A prediction leaves what is reached from where as it is. */
  lemma PredictContinues(g: Grammar, input: seq<Node>, chart: Chart, i: nat, j: nat, n: Node)
    requires ContinuedUpTo(g, input, chart, i, j) && i < |chart| && j < |chart[i]|
    requires Expects(chart[i][j].item, n) && !g.Terminal(n)
    ensures ContinuedUpTo(g, input, chart[i := Predict(chart[i], n, g.GetProduction(n), i, At(i, j))], i, j + 1)
  {
    hide Continued, Reached, SameReached, Predict;
    var list := g.GetProduction(n);
    var col' := Predict(chart[i], n, list, i, At(i, j));
    var chart' := chart[i := col'];
    PredictGrows(chart[i], n, list, i, At(i, j));
    PredictKeepsStarted(chart[i], n, list, i, At(i, j));
    assert chart'[..i] == chart[..i];
    PredictReached(chart, i, j, n, list);
    EarlierContinued(g, input, chart, chart', i, j);
    NothingToContinue(g, input, chart', i, j, n);
    EarlierAndThis(g, input, chart', i, j);
    forall c, p | 0 <= c < |chart'| && 0 <= p < |chart'[c]| ensures PointsBack(chart'[c][p], i, j + 1) {
      if p < |chart[c]| {
        assert PointsBack(chart[c][p], i, j) && SameStarted(chart[c][p], chart'[c][p]);
      }
    }
  }

  lemma NothingToContinue(g: Grammar, input: seq<Node>, chart: Chart, i: nat, j: nat, n: Node)
    requires |chart| == |input| + 1 && i < |chart| && j < |chart[i]|
    requires Expects(chart[i][j].item, n) && !g.Terminal(n)
    ensures Continued(g, input, chart, i, j)
  {}

  lemma PredictReached(chart: Chart, i: nat, j: nat, n: Node, list: seq<Expansion>)
    requires i < |chart|
    ensures SameReached(chart, chart[i := Predict(chart[i], n, list, i, At(i, j))], i, j)
  {
    var chart' := chart[i := Predict(chart[i], n, list, i, At(i, j))];
    forall k, c, p | 0 <= k < |chart| && Earlier(c, p, i, j)
      ensures Reached(chart'[k], At(c, p)) == Reached(chart[k], At(c, p))
    {
      ReachedPredict(chart[i], n, list, i, At(i, j), At(c, p));
    }
  }

  // ---------------------------------------------------------------------------------------------
  // The main results

  lemma {:induction false} AskersCount(col: Column, b: Node, c: nat, times: nat, q: nat)
    ensures multiset(Askers(col, b, c, times))[At(c, q)] == if q < |col| && Expects(col[q].item, b) then times else 0
    ensures multiset(Askers(col, b, c, times))[NoBack] == 0
  {
    if col != [] {
      var last := |col| - 1;
      AskersCount(col[..last], b, c, times, q);
      if Expects(col[last].item, b) {
        RepeatedCount(At(c, last), times, At(c, q));
        RepeatedCount(At(c, last), times, NoBack);
      }
    }
  }

  lemma {:induction false} RepeatedCount(b: Back, times: nat, r: Back)
    ensures multiset(seq(times, _ => b))[r] == if r == b then times else 0
    decreases times
  {
    if times > 0 {
      RepeatedCount(b, times - 1, r);
      assert seq(times, _ => b) == seq(times - 1, _ => b) + [b];
    }
  }

  ghost predicate InOrder(back: seq<Back>) {
    forall m, m' :: 0 <= m < m' < |back| ==> back[m'].At? && (back[m].At? ==> back[m].idx <= back[m'].idx)
  }

  lemma {:induction false} AskersInOrder(col: Column, b: Node, c: nat, times: nat)
    ensures InOrder(Askers(col, b, c, times))
    ensures forall m :: 0 <= m < |Askers(col, b, c, times)|
                        ==> Askers(col, b, c, times)[m].At? && Askers(col, b, c, times)[m].idx < |col|
  {
    if col != [] {
      AskersInOrder(col[..|col| - 1], b, c, times);
    }
  }

  /** In a parsed chart, the first state of a predicted rule names each state of its column that waits for the
      rule's node, as often as the rule is listed, names no other, and names them in their order after the root's
      empty reason. */
  lemma EachAskerIsNamed(g: Grammar, root: Node, input: seq<Node>, chart: Chart, i: nat, p: nat)
    requires Parsed(g, root, input, chart) && i < |chart| && p < |chart[i]|
    requires chart[i][p].item.dot == 0 && !HasItem(chart[i][..p], chart[i][p].item)
    ensures var x, back := chart[i][p].item, chart[i][p].back;
            && (forall q :: 0 <= q < |chart[i]| ==>
                  multiset(back)[At(i, q)] == if Expects(chart[i][q].item, x.lhs)
                                              then multiset(g.GetProduction(x.lhs))[x.rule] else 0)
            && (forall m :: 0 <= m < |back| && back[m].At? ==>
                  back[m].col == i && back[m].idx < |chart[i]| && Expects(chart[i][back[m].idx].item, x.lhs))
            && multiset(back)[NoBack] == (if i == 0 && x.lhs == root then 1 else 0)
            && InOrder(back)
  {
    hide Reasons, Askers, HasItem, AllJustified, Saturated, Started;
    assert Reasoned(g, root, chart[i], i, |chart[i]|);
    assert Justified(g, root, input, chart, i, p) by { JustifiedAt(g, root, input, chart, i, p); }
    forall q | 0 <= q < |chart[i]| {
      ReasonsCount(g, root, chart[i], i, p, q);
    }
    ReasonsCount(g, root, chart[i], i, p, p);
    var x, back := chart[i][p].item, chart[i][p].back;
    forall m | 0 <= m < |back| && back[m].At?
      ensures back[m].col == i && back[m].idx < |chart[i]| && Expects(chart[i][back[m].idx].item, x.lhs)
    {
      assert PredictedFrom(root, chart, i, x, back[m]);
    }
  }

  lemma JustifiedAt(g: Grammar, root: Node, input: seq<Node>, chart: Chart, i: nat, p: nat)
    requires AllJustified(g, root, input, chart) && i < |chart| && p < |chart[i]|
    ensures Justified(g, root, input, chart, i, p)
  {}

  lemma ReasonsCount(g: Grammar, root: Node, col: Column, c: nat, p: nat, q: nat)
    requires p < |col| && q < |col| && !HasItem(col[..p], col[p].item)
    ensures var x, back := col[p].item, Reasons(g, root, col, c, |col|, p);
            && multiset(back)[At(c, q)] == (if Expects(col[q].item, x.lhs)
                                            then multiset(g.GetProduction(x.lhs))[x.rule] else 0)
            && multiset(back)[NoBack] == (if c == 0 && x.lhs == root then 1 else 0)
            && InOrder(back)
  {
    var x := col[p].item;
    var times := multiset(g.GetProduction(x.lhs))[x.rule];
    hide Askers, HasItem, Expects, Grammar.GetProduction;
    assert col[..|col|] == col;
    AskersCount(col, x.lhs, c, times, q);
    AskersInOrder(col, x.lhs, c, times);
    var askers, first := Askers(col, x.lhs, c, times), if c == 0 && x.lhs == root then [NoBack] else [];
    assert Reasons(g, root, col, c, |col|, p) == first + askers;
    FirstReason(first, askers, c, q);
  }

  lemma FirstReason(first: seq<Back>, askers: seq<Back>, c: nat, q: nat)
    requires (first == [] || first == [NoBack]) && InOrder(askers) && forall m :: 0 <= m < |askers| ==> askers[m].At?
    ensures multiset(first + askers)[At(c, q)] == multiset(askers)[At(c, q)]
    ensures multiset(first + askers)[NoBack] == |first| + multiset(askers)[NoBack] && InOrder(first + askers)
  {
    assert multiset(first + askers) == multiset(first) + multiset(askers);
  }

  /** So each state that waits for `b` is named by a state of each expansion of `b`. */
  lemma EachExpansionNamesIt(g: Grammar, root: Node, input: seq<Node>, chart: Chart, i: nat, q: nat, b: Node,
                             e: Expansion) returns (p: nat)
    requires Parsed(g, root, input, chart) && i < |chart| && q < |chart[i]| && Expects(chart[i][q].item, b)
    requires e in g.GetProduction(b)
    ensures p < |chart[i]| && chart[i][p].item == Item(b, e, i, 0)
    ensures multiset(chart[i][p].back)[At(i, q)] == multiset(g.GetProduction(b))[e] >= 1
  {
    hide Traced, AllJustified, Started;
    assert Processed(g, input, chart, i, q);
    var x := Item(b, e, i, 0);
    p := IndexOf(chart[i], x);
    EachAskerIsNamed(g, root, input, chart, i, p);
  }

  lemma OneMoreState(front: Column, s: State, t: State)
    ensures multiset(front + [s])[t] == multiset(front)[t] + if s == t then 1 else 0
  {}

  lemma {:induction false} ReachedCount(col: Column, b: Back, x: Item)
    requires x.dot > 0
    ensures multiset(Reached(col, b))[x] == multiset(col)[State(x, [b])]
  {
    if col != [] {
      var front, s := col[..|col| - 1], col[|col| - 1];
      ReachedCount(front, b, x);
      assert col == front + [s];
      OneMoreState(front, s, State(x, [b]));
    }
  }

  lemma {:induction false} BehindCount(col: Column, n: Node, x: Item)
    requires Expects(x, n)
    ensures multiset(Behind(col, n))[Advance(x)] == Copies(col, x)
  {
    if col != [] {
      var y := col[|col| - 1].item;
      BehindCount(col[..|col| - 1], n, x);
      assert Advance(y) == Advance(x) <==> y == x;
    }
  }

  /** In a parsed chart, each finished state is pointed to by one state for every state that waits for it in the
      column where it began. */
  lemma EachFinishedIsPointedTo(g: Grammar, root: Node, input: seq<Node>, chart: Chart, i: nat, p: nat, x: Item)
    requires Parsed(g, root, input, chart) && i < |chart| && p < |chart[i]|
    requires chart[i][p].item.dot == |chart[i][p].item.rule.nodes| && Expects(x, chart[i][p].item.lhs)
    ensures var y := chart[i][p].item;
            y.origin < i && multiset(chart[i])[State(Advance(x), [At(i, p)])] == Copies(chart[y.origin], x)
  {
    var y := chart[i][p].item;
    assert Continued(g, input, chart, i, p);
    ReachedCount(chart[i], At(i, p), Advance(x));
    BehindCount(chart[y.origin], y.lhs, x);
  }
}
