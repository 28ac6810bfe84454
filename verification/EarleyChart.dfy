/** What an Earley chart holds, which charts the parser builds, and why such a chart is exactly
    the set of items that a left-to-right derivation from the root can be in. */
module EarleyChart {
  import opened Grammars

  /** `lhs` is being replaced by `rule`; its first `dot` nodes cover the input from `origin` on. */
  datatype Item = Item(lhs: Node, rule: Expansion, origin: nat, dot: nat)

  /** Where a state came from: nowhere, or the state at an index of a column. */
  datatype Back = NoBack | At(col: nat, idx: nat)

  datatype State = State(item: Item, back: seq<Back>)

  type Column = seq<State>
  type Chart = seq<Column>

  predicate Complete(g: Grammar, x: Item) {
    x.dot == if x.lhs in g.sequences then 0 else |x.rule.nodes|
  }

  /** The next node that `x` waits for is `b`. */
  predicate Expects(x: Item, b: Node) {
    x.dot < |x.rule.nodes| && x.rule.nodes[x.dot] == b
  }

  function Advance(x: Item): Item {
    x.(dot := x.dot + 1)
  }

  ghost predicate HasItem(col: Column, x: Item) {
    exists p :: 0 <= p < |col| && col[p].item == x
  }

  function Copies(col: Column, x: Item): nat {
    if col == [] then 0
    else Copies(col[..|col| - 1], x) + if col[|col| - 1].item == x then 1 else 0
  }

  // ---------------------------------------------------------------------------------------------
  // The columns that the parser's steps build

  /** The states that `CreateChart` puts into the first column. */
  function InitialColumn(root: Node, list: seq<Expansion>): (col: Column)
    ensures |col| == |list|
    ensures forall p :: 0 <= p < |list| ==> col[p] == State(Item(root, list[p], 0, 0), [NoBack])
  {
    seq(|list|, p requires 0 <= p < |list| => State(Item(root, list[p], 0, 0), [NoBack]))
  }

  /** The first index of `x`, or -1. */
  function IndexOf(col: Column, x: Item): (r: int)
    ensures -1 <= r < |col|
    ensures r >= 0 ==> col[r].item == x
    ensures forall p :: 0 <= p < (if r < 0 then |col| else r) ==> col[p].item != x
  {
    if col == [] then -1
    else
      var r := IndexOf(col[..|col| - 1], x);
      if r >= 0 then r else if col[|col| - 1].item == x then |col| - 1 else -1
  }

  /** Insert the prediction `x`, or record one more reason for the state that already has it. */
  function PredictOne(col: Column, x: Item, from: Back): Column {
    var p := IndexOf(col, x);
    if p < 0 then col + [State(x, [from])] else col[p := col[p].(back := col[p].back + [from])]
  }

  function Predict(col: Column, b: Node, list: seq<Expansion>, i: nat, from: Back): Column {
    if list == [] then col
    else
      var last := |list| - 1;
      PredictOne(Predict(col, b, list[..last], i, from), Item(b, list[last], i, 0), from)
  }

  /** The states of `col` that wait for `sym`, each advanced over it. */
  function Advances(col: Column, sym: Node, from: Back): Column {
    if col == [] then []
    else
      var last := |col| - 1;
      Advances(col[..last], sym, from)
      + if Expects(col[last].item, sym) then [State(Advance(col[last].item), [from])] else []
  }

  /** What one turn of the inner loop does to the chart. */
  function Turn(g: Grammar, input: seq<Node>, chart: Chart, i: nat, j: nat): (chart': Chart)
    requires |chart| == |input| + 1 && i < |chart| && j < |chart[i]|
    ensures |chart'| == |chart|
  {
    var x := chart[i][j].item;
    if !Complete(g, x) && x.dot < |x.rule.nodes| then
      var n := x.rule.nodes[x.dot];
      if !g.Terminal(n) then chart[i := Predict(chart[i], n, g.GetProduction(n), i, At(i, j))]
      else if i < |input| && input[i] == n then chart[i + 1 := chart[i + 1] + [State(Advance(x), [At(i, j)])]]
      else chart
    else if x.origin < i then chart[i := chart[i] + Advances(chart[x.origin], x.lhs, At(i, j))]
    else chart
  }

  lemma AdvancesStep(col: Column, from: Column, p: nat, sym: Node, b: Back)
    requires p < |from|
    ensures col + Advances(from[..p + 1], sym, b)
            == if Expects(from[p].item, sym) then col + Advances(from[..p], sym, b)
              + [State(Advance(from[p].item), [b])]
               else col + Advances(from[..p], sym, b)
  {
    assert from[..p + 1][..p] == from[..p];
  }

  lemma {:induction false} AdvancesHasAll(col: Column, sym: Node, from: Back, q: nat)
    requires q < |col| && Expects(col[q].item, sym)
    ensures HasItem(Advances(col, sym, from), Advance(col[q].item))
  {
    var last := |col| - 1;
    var front := Advances(col[..last], sym, from);
    if q < last {
      AdvancesHasAll(col[..last], sym, from, q);
      var p :| 0 <= p < |front| && front[p].item == Advance(col[q].item);
      assert Advances(col, sym, from)[p] == front[p];
    } else {
      assert Advances(col, sym, from)[|front|].item == Advance(col[q].item);
    }
  }

  lemma {:induction false} AdvancesOnly(col: Column, sym: Node, from: Back, r: nat)
    requires r < |Advances(col, sym, from)|
    ensures Advances(col, sym, from)[r].back == [from]
    ensures exists q :: 0 <= q < |col| && Expects(col[q].item, sym)
                        && Advances(col, sym, from)[r].item == Advance(col[q].item)
  {
    var last := |col| - 1;
    if r < |Advances(col[..last], sym, from)| {
      AdvancesOnly(col[..last], sym, from, r);
    }
  }

  // ---------------------------------------------------------------------------------------------
  // Growth: the parser only appends states and adds back pointers

  ghost predicate Grows(col: Column, col': Column) {
    |col| <= |col'| && forall p :: 0 <= p < |col| ==> col'[p].item == col[p].item
  }

  ghost predicate ChartGrows(chart: Chart, chart': Chart) {
    |chart| == |chart'| && forall i :: 0 <= i < |chart| ==> Grows(chart[i], chart'[i])
  }

  lemma HasItemGrows(col: Column, col': Column, x: Item)
    requires Grows(col, col') && HasItem(col, x)
    ensures HasItem(col', x)
  {
    var p :| 0 <= p < |col| && col[p].item == x;
    assert col'[p].item == x;
  }

  lemma {:induction false} PredictGrows(col: Column, b: Node, list: seq<Expansion>, i: nat, from: Back)
    ensures Grows(col, Predict(col, b, list, i, from))
    ensures forall e :: e in list ==> HasItem(Predict(col, b, list, i, from), Item(b, e, i, 0))
  {
    if list != [] {
      var last := |list| - 1;
      PredictGrows(col, b, list[..last], i, from);
      var before, after := Predict(col, b, list[..last], i, from), Predict(col, b, list, i, from);
      var x := Item(b, list[last], i, 0);
      assert Grows(before, after);
      forall e | e in list ensures HasItem(after, Item(b, e, i, 0)) {
        if e in list[..last] {
          HasItemGrows(before, after, Item(b, e, i, 0));
        } else {
          var p := IndexOf(before, x);
          assert after[if p < 0 then |before| else p].item == x;
        }
      }
    }
  }

  // ---------------------------------------------------------------------------------------------
  // Justified back pointers

  ghost predicate Shape(g: Grammar, x: Item, i: nat) {
    && x.rule in g.GetProduction(x.lhs)
    && x.dot <= |x.rule.nodes|
    && (if x.dot == 0 then x.origin == i else x.origin < i)
  }

  /** `b` explains the prediction `x` in column `i`: the root was asked for, or a state of the column waits for
      it. */
  ghost predicate PredictedFrom(root: Node, chart: Chart, i: nat, x: Item, b: Back)
    requires i < |chart|
  {
    match b
    case NoBack => i == 0 && x.lhs == root
    case At(c, q) => c == i && q < |chart[i]| && Expects(chart[i][q].item, x.lhs)
  }

  /** `b` is the state before the token that `x` has just passed. */
  ghost predicate ScannedFrom(input: seq<Node>, chart: Chart, i: nat, x: Item, b: Back)
    requires i < |chart| && 0 < x.dot <= |x.rule.nodes| && |chart| == |input| + 1
  {
    && b.At? && b.col + 1 == i && b.idx < |chart[b.col]|
    && input[b.col] == x.rule.nodes[x.dot - 1]
    && chart[b.col][b.idx].item == x.(dot := x.dot - 1)
  }

  /** `b` is an earlier, finished state for the node that `x` has just passed, and the state
      before that node is in the column where the finished one began. */
  ghost predicate CompletedFrom(g: Grammar, chart: Chart, i: nat, p: nat, x: Item, b: Back)
    requires i < |chart| && p < |chart[i]| && 0 < x.dot <= |x.rule.nodes|
  {
    && b.At? && b.col == i && b.idx < p
    && var y := chart[i][b.idx].item;
       && y.lhs == x.rule.nodes[x.dot - 1]
       && y.dot == |y.rule.nodes|
       && x.origin <= y.origin < i
       && HasItem(chart[y.origin], x.(dot := x.dot - 1))
  }

  ghost predicate Justified(g: Grammar, root: Node, input: seq<Node>, chart: Chart, i: nat, p: nat)
    requires |chart| == |input| + 1 && i < |chart| && p < |chart[i]|
  {
    var x, back := chart[i][p].item, chart[i][p].back;
    && Shape(g, x, i)
    && back != []
    && if x.dot == 0 then
         && (forall m :: 0 <= m < |back| ==> PredictedFrom(root, chart, i, x, back[m]))
         && (back[0].At? ==> back[0].idx < p)
       else
         && |back| == 1
         && if g.Terminal(x.rule.nodes[x.dot - 1]) then ScannedFrom(input, chart, i, x, back[0])
            else CompletedFrom(g, chart, i, p, x, back[0])
  }

  ghost predicate AllJustified(g: Grammar, root: Node, input: seq<Node>, chart: Chart) {
    && |chart| == |input| + 1
    && forall i, p :: 0 <= i < |chart| && 0 <= p < |chart[i]| ==> Justified(g, root, input, chart, i, p)
  }

  lemma JustifiedGrows(g: Grammar, root: Node, input: seq<Node>, chart: Chart, chart': Chart, i: nat, p: nat)
    requires |chart| == |input| + 1 && ChartGrows(chart, chart')
    requires i < |chart| && p < |chart[i]| && chart'[i][p].back == chart[i][p].back
    requires Justified(g, root, input, chart, i, p)
    ensures Justified(g, root, input, chart', i, p)
  {
    var x, b := chart[i][p].item, chart[i][p].back[0];
    assert Grows(chart[i], chart'[i]);
    if x.dot > 0 {
      if g.Terminal(x.rule.nodes[x.dot - 1]) {
        assert Grows(chart[b.col], chart'[b.col]);
      } else {
        var y := chart[i][b.idx].item;
        assert chart'[i][b.idx].item == y;
        HasItemGrows(chart[y.origin], chart'[y.origin], x.(dot := x.dot - 1));
      }
    }
  }

  lemma PushKeepsJustified(g: Grammar, root: Node, input: seq<Node>, chart: Chart, i: nat, s: State)
    requires AllJustified(g, root, input, chart) && i < |chart|
    requires Justified(g, root, input, chart[i := chart[i] + [s]], i, |chart[i]|)
    ensures AllJustified(g, root, input, chart[i := chart[i] + [s]])
  {
    var chart' := chart[i := chart[i] + [s]];
    assert ChartGrows(chart, chart');
    forall c, p | 0 <= c < |chart'| && 0 <= p < |chart'[c]| ensures Justified(g, root, input, chart', c, p) {
      if c != i || p < |chart[i]| {
        JustifiedGrows(g, root, input, chart, chart', c, p);
      }
    }
  }

  lemma AddBackKeepsJustified(g: Grammar, root: Node, input: seq<Node>, chart: Chart, i: nat, p: nat, b: Back)
    requires AllJustified(g, root, input, chart) && i < |chart| && p < |chart[i]|
    requires chart[i][p].item.dot == 0 && PredictedFrom(root, chart, i, chart[i][p].item, b)
    ensures AllJustified(g, root, input, chart[i := chart[i][p := chart[i][p].(back := chart[i][p].back + [b])]])
  {
    var chart' := chart[i := chart[i][p := chart[i][p].(back := chart[i][p].back + [b])]];
    assert ChartGrows(chart, chart');
    forall c, q | 0 <= c < |chart'| && 0 <= q < |chart'[c]| ensures Justified(g, root, input, chart', c, q) {
      if c != i || q != p {
        JustifiedGrows(g, root, input, chart, chart', c, q);
      } else {
        var x, back, back' := chart[i][p].item, chart[i][p].back, chart'[i][p].back;
        assert Justified(g, root, input, chart, i, p);
        forall m | 0 <= m < |back'| ensures PredictedFrom(root, chart', i, x, back'[m]) {
          assert PredictedFrom(root, chart, i, x, if m < |back| then back[m] else b);
        }
      }
    }
  }

  lemma {:induction false} PredictKeepsJustified(g: Grammar, root: Node, input: seq<Node>, chart: Chart, i: nat, j: nat,
                                                 b: Node, list: seq<Expansion>)
    requires AllJustified(g, root, input, chart) && i < |chart| && j < |chart[i]|
    requires Expects(chart[i][j].item, b)
    requires forall e :: e in list ==> e in g.GetProduction(b)
    ensures AllJustified(g, root, input, chart[i := Predict(chart[i], b, list, i, At(i, j))])
  {
    if list == [] {
      assert chart[i := chart[i]] == chart;
    } else {
      var last := |list| - 1;
      PredictKeepsJustified(g, root, input, chart, i, j, b, list[..last]);
      PredictGrows(chart[i], b, list[..last], i, At(i, j));
      var col := Predict(chart[i], b, list[..last], i, At(i, j));
      var mid := chart[i := col];
      var x := Item(b, list[last], i, 0);
      var p := IndexOf(col, x);
      assert PredictedFrom(root, mid, i, x, At(i, j));
      if p < 0 {
        var next := mid[i := col + [State(x, [At(i, j)])]];
        assert next[i][|col|] == State(x, [At(i, j)]);
        PushKeepsJustified(g, root, input, mid, i, State(x, [At(i, j)]));
        assert next == chart[i := Predict(chart[i], b, list, i, At(i, j))];
      } else {
        AddBackKeepsJustified(g, root, input, mid, i, p, At(i, j));
        assert mid[i := PredictOne(col, x, At(i, j))] == chart[i := Predict(chart[i], b, list, i, At(i, j))];
      }
    }
  }

  lemma ScanKeepsJustified(g: Grammar, root: Node, input: seq<Node>, chart: Chart, i: nat, j: nat)
    requires AllJustified(g, root, input, chart) && i < |input| && j < |chart[i]|
    requires Expects(chart[i][j].item, input[i]) && g.Terminal(input[i])
    ensures AllJustified(g, root, input, chart[i + 1 := chart[i + 1] + [State(Advance(chart[i][j].item), [At(i, j)])]])
  {
    var s := State(Advance(chart[i][j].item), [At(i, j)]);
    assert Justified(g, root, input, chart, i, j);
    var chart' := chart[i + 1 := chart[i + 1] + [s]];
    assert chart'[i + 1][|chart[i + 1]|] == s;
    assert s.item.(dot := s.item.dot - 1) == chart[i][j].item;
    PushKeepsJustified(g, root, input, chart, i + 1, s);
  }

  lemma {:induction false} CompleteKeepsJustified(g: Grammar, root: Node, input: seq<Node>, chart: Chart, i: nat,
                                                  j: nat, k: nat, from: Column)
    requires AllJustified(g, root, input, chart) && i < |chart| && j < |chart[i]|
    requires chart[i][j].item.dot == |chart[i][j].item.rule.nodes| && k == chart[i][j].item.origin < i
    requires from <= chart[k]
    ensures AllJustified(g, root, input, chart[i := chart[i] + Advances(from, chart[i][j].item.lhs, At(i, j))])
  {
    if from == [] {
      assert chart[i] + Advances(from, chart[i][j].item.lhs, At(i, j)) == chart[i];
      assert chart[i := chart[i]] == chart;
    } else {
      var last := |from| - 1;
      var y := chart[i][j].item;
      CompleteKeepsJustified(g, root, input, chart, i, j, k, from[..last]);
      var more := Advances(from[..last], y.lhs, At(i, j));
      var mid := chart[i := chart[i] + more];
      var t := from[last].item;
      if Expects(t, y.lhs) {
        var s := State(Advance(t), [At(i, j)]);
        var next := mid[i := mid[i] + [s]];
        assert Justified(g, root, input, chart, i, j);
        assert Justified(g, root, input, chart, k, last);
        assert next[i][|mid[i]|] == s && next[i][j].item == y;
        assert next[k][last].item == t && s.item.(dot := s.item.dot - 1) == t;
        assert y.rule in g.GetProduction(y.lhs);
        assert HasItem(next[k], t);
        PushKeepsJustified(g, root, input, mid, i, s);
        assert mid[i] + [s] == chart[i] + Advances(from, y.lhs, At(i, j));
        assert next == chart[i := chart[i] + Advances(from, y.lhs, At(i, j))];
      } else {
        assert Advances(from, y.lhs, At(i, j)) == more;
      }
    }
  }

  // ---------------------------------------------------------------------------------------------
  // Saturation: nothing is left to do

  ghost predicate Processed(g: Grammar, input: seq<Node>, chart: Chart, i: nat, p: nat)
    requires |chart| == |input| + 1 && i < |chart| && p < |chart[i]|
  {
    var x := chart[i][p].item;
    if x.dot == |x.rule.nodes| then
      x.origin < i &&
      forall q :: 0 <= q < |chart[x.origin]| && Expects(chart[x.origin][q].item, x.lhs)
                  ==> HasItem(chart[i], Advance(chart[x.origin][q].item))
    else
      && x.dot < |x.rule.nodes|
      && var n := x.rule.nodes[x.dot];
         && (forall e :: e in g.GetProduction(n) ==> HasItem(chart[i], Item(n, e, i, 0)))
         && (g.Terminal(n) && i < |input| && input[i] == n ==> HasItem(chart[i + 1], Advance(x)))
  }

  ghost predicate Saturated(g: Grammar, input: seq<Node>, chart: Chart) {
    && |chart| == |input| + 1
    && forall i, p :: 0 <= i < |chart| && 0 <= p < |chart[i]| ==> Processed(g, input, chart, i, p)
  }

  /** Work that is done stays done while columns that are not yet closed grow. */
  lemma ProcessedGrows(g: Grammar, input: seq<Node>, chart: Chart, chart': Chart, i: nat, p: nat)
    requires |chart| == |input| + 1 && i < |chart| && p < |chart[i]|
    requires ChartGrows(chart, chart') && chart[..i] == chart'[..i]
    requires Processed(g, input, chart, i, p)
    ensures Processed(g, input, chart', i, p)
  {
    var x := chart[i][p].item;
    assert Grows(chart[i], chart'[i]) && chart'[i][p].item == x;
    if x.dot == |x.rule.nodes| {
      assert chart'[x.origin] == chart'[..i][x.origin] == chart[..i][x.origin] == chart[x.origin];
      forall q | 0 <= q < |chart'[x.origin]| && Expects(chart'[x.origin][q].item, x.lhs)
        ensures HasItem(chart'[i], Advance(chart'[x.origin][q].item))
      {
        HasItemGrows(chart[i], chart'[i], Advance(chart[x.origin][q].item));
      }
    } else {
      var n := x.rule.nodes[x.dot];
      forall e | e in g.GetProduction(n) ensures HasItem(chart'[i], Item(n, e, i, 0)) {
        HasItemGrows(chart[i], chart'[i], Item(n, e, i, 0));
      }
      if g.Terminal(n) && i < |input| && input[i] == n {
        assert Grows(chart[i + 1], chart'[i + 1]);
        HasItemGrows(chart[i + 1], chart'[i + 1], Advance(x));
      }
    }
  }

  // ---------------------------------------------------------------------------------------------
  // Which items a left-to-right derivation from the root can be in

  /** How the derivation got from the root to a node: the rules it is inside of, with what
      each of them has derived so far. */
  datatype Context = Top | Under(outer: Context, lhs: Node, rule: Expansion, start: nat, before: Derivation)

  ghost predicate Reaches(g: Grammar, root: Node, input: seq<Node>, c: Context, a: Node, k: nat) {
    match c
    case Top => a == root && k == 0
    case Under(outer, b, e, start, d) =>
      && Reaches(g, root, input, outer, b, start)
      && e in g.GetProduction(b)
      && ValidDerivation(g, d)
      && |Roots(d)| < |e.nodes| && Roots(d) == e.nodes[..|Roots(d)|] && e.nodes[|Roots(d)|] == a
      && start <= k <= |input| && Yield(d) == input[start..k]
  }

  ghost predicate Reachable(g: Grammar, root: Node, input: seq<Node>, a: Node, k: nat) {
    exists c :: Reaches(g, root, input, c, a, k)
  }

  ghost predicate ValidItem(g: Grammar, root: Node, input: seq<Node>, x: Item, i: nat) {
    && x.rule in g.GetProduction(x.lhs)
    && x.dot <= |x.rule.nodes|
    && x.origin <= i <= |input|
    && Reachable(g, root, input, x.lhs, x.origin)
    && Derives(g, x.rule.nodes[..x.dot], input[x.origin..i])
  }

  // Soundness

  lemma NothingDerived(g: Grammar, alpha: seq<Node>, input: seq<Node>, i: nat)
    requires i <= |input|
    ensures Derives(g, alpha[..0], input[i..i])
  {
    assert DerivedBy(g, Done, alpha[..0], input[i..i]);
  }

  /** Following the back pointers of any state rebuilds a derivation of what the state claims. */
  lemma {:induction false} Sound(g: Grammar, root: Node, input: seq<Node>, chart: Chart, i: nat, p: nat)
    requires AllJustified(g, root, input, chart) && i < |chart| && p < |chart[i]|
    ensures ValidItem(g, root, input, chart[i][p].item, i)
    decreases i, p
  {
    assert Justified(g, root, input, chart, i, p);
    var x, b := chart[i][p].item, chart[i][p].back[0];
    if x.dot == 0 {
      NothingDerived(g, x.rule.nodes, input, i);
      assert PredictedFrom(root, chart, i, x, b);
      if b.At? {
        Sound(g, root, input, chart, i, b.idx);
        EnterRule(g, root, input, chart[i][b.idx].item, i, x.lhs);
      } else {
        assert Reaches(g, root, input, Top, root, 0);
      }
    } else if g.Terminal(x.rule.nodes[x.dot - 1]) {
      Sound(g, root, input, chart, b.col, b.idx);
      SoundScan(g, root, input, x, i);
    } else {
      var y := chart[i][b.idx].item;
      Sound(g, root, input, chart, i, b.idx);
      var q :| 0 <= q < |chart[y.origin]| && chart[y.origin][q].item == x.(dot := x.dot - 1);
      Sound(g, root, input, chart, y.origin, q);
      SoundComplete(g, root, input, x, y, i);
    }
  }

  lemma EnterRule(g: Grammar, root: Node, input: seq<Node>, x: Item, i: nat, a: Node)
    requires ValidItem(g, root, input, x, i) && Expects(x, a)
    ensures Reachable(g, root, input, a, i)
  {
    var c :| Reaches(g, root, input, c, x.lhs, x.origin);
    var d :| DerivedBy(g, d, x.rule.nodes[..x.dot], input[x.origin..i]);
    assert Reaches(g, root, input, Under(c, x.lhs, x.rule, x.origin, d), a, i);
  }

  lemma SoundScan(g: Grammar, root: Node, input: seq<Node>, x: Item, i: nat)
    requires 0 < i <= |input| && 0 < x.dot <= |x.rule.nodes| && x.origin < i
    requires ValidItem(g, root, input, x.(dot := x.dot - 1), i - 1)
    requires input[i - 1] == x.rule.nodes[x.dot - 1] && g.Terminal(input[i - 1])
    ensures ValidItem(g, root, input, x, i)
  {
    ExtendByToken(g, x.rule.nodes[..x.dot - 1], input[x.origin..i - 1], input[i - 1]);
    assert x.rule.nodes[..x.dot - 1] + [input[i - 1]] == x.rule.nodes[..x.dot];
    assert input[x.origin..i - 1] + [input[i - 1]] == input[x.origin..i];
  }

  lemma SoundComplete(g: Grammar, root: Node, input: seq<Node>, x: Item, y: Item, i: nat)
    requires 0 < x.dot <= |x.rule.nodes| && x.origin <= y.origin < i
    requires ValidItem(g, root, input, x.(dot := x.dot - 1), y.origin)
    requires ValidItem(g, root, input, y, i) && y.dot == |y.rule.nodes| && y.lhs == x.rule.nodes[x.dot - 1]
    ensures ValidItem(g, root, input, x, i)
  {
    assert y.rule.nodes[..y.dot] == y.rule.nodes;
    ExtendByRule(g, x.rule.nodes[..x.dot - 1], input[x.origin..y.origin], y.lhs, y.rule, input[y.origin..i]);
    assert x.rule.nodes[..x.dot - 1] + [y.lhs] == x.rule.nodes[..x.dot];
    assert input[x.origin..y.origin] + input[y.origin..i] == input[x.origin..i];
  }

  /** Every state of a column is valid there. */
  ghost predicate SoundColumn(g: Grammar, root: Node, input: seq<Node>, col: Column, i: nat) {
    forall p :: 0 <= p < |col| ==> Shape(g, col[p].item, i) && ValidItem(g, root, input, col[p].item, i)
  }

  ghost predicate SoundChart(g: Grammar, root: Node, input: seq<Node>, chart: Chart) {
    && |chart| <= |input| + 1
    && forall i {:trigger chart[i]} :: 0 <= i < |chart| ==> SoundColumn(g, root, input, chart[i], i)
  }

  lemma JustifiedIsSound(g: Grammar, root: Node, input: seq<Node>, chart: Chart)
    requires AllJustified(g, root, input, chart)
    ensures SoundChart(g, root, input, chart)
  {
    hide ValidItem;
    forall i, p | 0 <= i < |chart| && 0 <= p < |chart[i]|
      ensures Shape(g, chart[i][p].item, i) && ValidItem(g, root, input, chart[i][p].item, i)
    {
      assert Justified(g, root, input, chart, i, p);
      Sound(g, root, input, chart, i, p);
    }
  }

  // Completeness

  ghost predicate AllShaped(g: Grammar, chart: Chart) {
    forall i, p :: 0 <= i < |chart| && 0 <= p < |chart[i]| ==> Shape(g, chart[i][p].item, i)
  }

  /** `w` stands in `s` at position `i`. */
  ghost predicate Stands(s: seq<Node>, i: nat, w: seq<Node>) {
    i + |w| <= |s| && s[i..i + |w|] == w
  }

  /** `x` after its next `m` nodes. */
  function Moved(x: Item, m: nat): Item {
    x.(dot := x.dot + m)
  }

  /** In a saturated chart an item moves over everything that its next nodes derive. */
  lemma {:induction false} Moves(g: Grammar, input: seq<Node>, chart: Chart, x: Item, i: nat, d: Derivation)
    requires Saturated(g, input, chart) && AllShaped(g, chart)
    requires i < |chart| && HasItem(chart[i], x)
    requires ValidDerivation(g, d)
    requires Stands(x.rule.nodes, x.dot, Roots(d)) && Stands(input, i, Yield(d))
    ensures HasItem(chart[i + |Yield(d)|], Moved(x, |Roots(d)|))
    decreases d, 0
  {
    hide HasItem, AllShaped, Processed, Stands;
    StandsWithin(input, i, Yield(d));
    match d
    case Done =>
      assert Moved(x, |Roots(d)|) == x;
    case Token(n, rest) =>
      Split(x.rule.nodes, x.dot, [n], Roots(rest));
      Split(input, i, [n], Yield(rest));
      PassedToken(g, input, chart, x, i, n);
      Moves(g, input, chart, Advance(x), i + 1, rest);
      assert Moved(Advance(x), |Roots(rest)|) == Moved(x, |Roots(d)|);
    case Expand(n, e, body, rest) =>
      Split(x.rule.nodes, x.dot, [n], Roots(rest));
      Split(input, i, Yield(body), Yield(rest));
      MovesOver(g, input, chart, x, i, n, e, body);
      Moves(g, input, chart, Advance(x), i + |Yield(body)|, rest);
      assert Moved(Advance(x), |Roots(rest)|) == Moved(x, |Roots(d)|);
  }

  lemma StandsWithin(s: seq<Node>, i: nat, w: seq<Node>)
    requires Stands(s, i, w)
    ensures i + |w| <= |s|
  {}

  lemma {:induction false} MovesOver(g: Grammar, input: seq<Node>, chart: Chart, x: Item, i: nat, n: Node, e: Expansion,
                                     body: Derivation)
    requires Saturated(g, input, chart) && AllShaped(g, chart)
    requires i < |chart| && HasItem(chart[i], x)
    requires ValidDerivation(g, body) && Roots(body) == e.nodes && e in g.GetProduction(n)
    requires Stands(x.rule.nodes, x.dot, [n]) && Stands(input, i, Yield(body))
    ensures HasItem(chart[i + |Yield(body)|], Advance(x))
    decreases body, 1
  {
    Entered(g, input, chart, x, i, n, e);
    var y := Item(n, e, i, 0);
    assert Stands(e.nodes, 0, Roots(body));
    Moves(g, input, chart, y, i, body);
    PassedOver(g, input, chart, x, i, Moved(y, |e.nodes|), i + |Yield(body)|);
  }

  lemma PassedToken(g: Grammar, input: seq<Node>, chart: Chart, x: Item, i: nat, n: Node)
    requires Saturated(g, input, chart) && i < |input| && HasItem(chart[i], x)
    requires Stands(x.rule.nodes, x.dot, [n]) && Stands(input, i, [n]) && g.Terminal(n)
    ensures HasItem(chart[i + 1], Advance(x))
  {
    var p :| 0 <= p < |chart[i]| && chart[i][p].item == x;
    assert Processed(g, input, chart, i, p);
    assert x.rule.nodes[x.dot..x.dot + 1][0] == n && input[i..i + 1][0] == n;
  }

  lemma Entered(g: Grammar, input: seq<Node>, chart: Chart, x: Item, i: nat, n: Node, e: Expansion)
    requires Saturated(g, input, chart) && i < |chart| && HasItem(chart[i], x)
    requires Stands(x.rule.nodes, x.dot, [n]) && e in g.GetProduction(n)
    ensures HasItem(chart[i], Item(n, e, i, 0)) && Expects(x, n)
  {
    var p :| 0 <= p < |chart[i]| && chart[i][p].item == x;
    assert Processed(g, input, chart, i, p);
    assert x.rule.nodes[x.dot..x.dot + 1][0] == n;
  }

  lemma PassedOver(g: Grammar, input: seq<Node>, chart: Chart, x: Item, i: nat, y: Item, k: nat)
    requires Saturated(g, input, chart) && i < |chart| && k < |chart|
    requires HasItem(chart[i], x) && HasItem(chart[k], y)
    requires y.dot == |y.rule.nodes| && y.origin == i && Expects(x, y.lhs)
    ensures HasItem(chart[k], Advance(x))
  {
    var p :| 0 <= p < |chart[i]| && chart[i][p].item == x;
    var q :| 0 <= q < |chart[k]| && chart[k][q].item == y;
    assert Processed(g, input, chart, k, q);
  }

  lemma Split(s: seq<Node>, i: nat, a: seq<Node>, b: seq<Node>)
    requires Stands(s, i, a + b)
    ensures Stands(s, i, a) && Stands(s, i + |a|, b)
  {
    var w := s[i..i + |a + b|];
    assert w[..|a|] == s[i..i + |a|];
    assert w[|a|..] == s[i + |a|..i + |a| + |b|];
  }

  ghost predicate Started(g: Grammar, root: Node, chart: Chart) {
    |chart| > 0 && forall e :: e in g.GetProduction(root) ==> HasItem(chart[0], Item(root, e, 0, 0))
  }

  lemma {:induction false} Predicted(g: Grammar, root: Node, input: seq<Node>, chart: Chart, c: Context, a: Node,
                                     k: nat, f: Expansion)
    requires Saturated(g, input, chart) && AllShaped(g, chart) && Started(g, root, chart)
    requires Reaches(g, root, input, c, a, k) && f in g.GetProduction(a)
    ensures k < |chart| && HasItem(chart[k], Item(a, f, k, 0))
    decreases c
  {
    match c
    case Top =>
    case Under(outer, b, e, start, d) =>
      Predicted(g, root, input, chart, outer, b, start, e);
      var x := Item(b, e, start, 0);
      assert Stands(e.nodes, 0, Roots(d)) && Stands(input, start, Yield(d));
      Moves(g, input, chart, x, start, d);
      var y := Moved(x, |Roots(d)|);
      var p :| 0 <= p < |chart[k]| && chart[k][p].item == y;
      assert Processed(g, input, chart, k, p);
  }

  lemma Present(g: Grammar, root: Node, input: seq<Node>, chart: Chart, x: Item, i: nat)
    requires Saturated(g, input, chart) && AllShaped(g, chart) && Started(g, root, chart)
    requires ValidItem(g, root, input, x, i)
    ensures HasItem(chart[i], x)
  {
    var c :| Reaches(g, root, input, c, x.lhs, x.origin);
    var d :| DerivedBy(g, d, x.rule.nodes[..x.dot], input[x.origin..i]);
    var y := x.(dot := 0);
    Predicted(g, root, input, chart, c, x.lhs, x.origin, x.rule);
    assert Stands(y.rule.nodes, 0, Roots(d)) && Stands(input, x.origin, Yield(d));
    Moves(g, input, chart, y, x.origin, d);
    assert Moved(y, |Roots(d)|) == x;
  }

  // ---------------------------------------------------------------------------------------------
  // Which back pointers there are

  /** The states of `col` that wait for `b` as back pointers into column `c`, in order and each of them `times`
      times. */
  ghost function Askers(col: Column, b: Node, c: nat, times: nat): seq<Back> {
    if col == [] then []
    else
      var last := |col| - 1;
      Askers(col[..last], b, c, times)
      + if Expects(col[last].item, b) then seq(times, _ => At(c, last)) else []
  }

  /** Why the unstarted state at `p` of column `c` is there, if the turns on the first `m` states have been
      made: the root was asked for, and then each of the `m` states that waits for its node. Only the first of equal
      states collects reasons. */
  ghost function Reasons(g: Grammar, root: Node, col: Column, c: nat, m: nat, p: nat): seq<Back>
    requires m <= |col| && p < |col|
  {
    var x := col[p].item;
    if HasItem(col[..p], x) then [NoBack]
    else (if c == 0 && x.lhs == root then [NoBack] else [])
         + Askers(col[..m], x.lhs, c, multiset(g.GetProduction(x.lhs))[x.rule])
  }

  ghost predicate Reasoned(g: Grammar, root: Node, col: Column, c: nat, m: nat) {
    m <= |col| && forall p :: 0 <= p < |col| && col[p].item.dot == 0 ==> col[p].back == Reasons(g, root, col, c, m, p)
  }

  /** The started states of `col` whose back pointer is `b`. */
  ghost function Reached(col: Column, b: Back): seq<Item> {
    if col == [] then []
    else
      var last := |col| - 1;
      Reached(col[..last], b) + if col[last].item.dot > 0 && col[last].back == [b] then [col[last].item] else []
  }

  /** The states of `col` that wait for `n`, each behind it. */
  ghost function Behind(col: Column, n: Node): seq<Item> {
    if col == [] then []
    else
      var last := |col| - 1;
      Behind(col[..last], n) + if Expects(col[last].item, n) then [Advance(col[last].item)] else []
  }

  /** What the turn on a state has advanced points back to that state: for a finished one, each state that waits
      in the column where it began, once and in order, and for one before the next token, that state. */
  ghost predicate Continued(g: Grammar, input: seq<Node>, chart: Chart, i: nat, p: nat)
    requires |chart| == |input| + 1 && i < |chart| && p < |chart[i]|
  {
    var x := chart[i][p].item;
    if x.dot == |x.rule.nodes| then
      x.origin < i && Reached(chart[i], At(i, p)) == Behind(chart[x.origin], x.lhs)
    else
      && x.dot < |x.rule.nodes|
      && var n := x.rule.nodes[x.dot];
         g.Terminal(n) && i < |input| && input[i] == n ==> Reached(chart[i + 1], At(i, p)) == [Advance(x)]
  }

  /** The turns before the one on state `j` of column `i`. */
  predicate Earlier(c: nat, p: nat, i: nat, j: nat) {
    c < i || (c == i && p < j)
  }

  predicate PointsBack(s: State, i: nat, j: nat) {
    s.item.dot > 0 && |s.back| == 1 && s.back[0].At? ==> Earlier(s.back[0].col, s.back[0].idx, i, j)
  }

  /** The back pointers of unstarted states when the turns before the one on state `j` of column `i` have been
      made. */
  ghost predicate ReasonedUpTo(g: Grammar, root: Node, chart: Chart, i: nat, j: nat) {
    && (forall c {:trigger chart[c]} :: 0 <= c < |chart| && c < i ==> Reasoned(g, root, chart[c], c, |chart[c]|))
    && (i < |chart| ==> Reasoned(g, root, chart[i], i, j))
    && (forall c, p :: i < c < |chart| && 0 <= p < |chart[c]| ==> chart[c][p].item.dot > 0)
  }

  /** The back pointers of started states at that time. */
  ghost predicate ContinuedUpTo(g: Grammar, input: seq<Node>, chart: Chart, i: nat, j: nat) {
    && |chart| == |input| + 1
    && (forall c, p :: 0 <= c < |chart| && 0 <= p < |chart[c]| && Earlier(c, p, i, j)
                       ==> Continued(g, input, chart, c, p))
    && (forall c, p :: 0 <= c < |chart| && 0 <= p < |chart[c]| ==> PointsBack(chart[c][p], i, j))
  }

  ghost predicate Traced(g: Grammar, root: Node, input: seq<Node>, chart: Chart, i: nat, j: nat) {
    ReasonedUpTo(g, root, chart, i, j) && ContinuedUpTo(g, input, chart, i, j)
  }

  // ---------------------------------------------------------------------------------------------
  // The main results

  /** What `Parse` leaves behind. */
  ghost predicate Parsed(g: Grammar, root: Node, input: seq<Node>, chart: Chart) {
    && AllJustified(g, root, input, chart) && Saturated(g, input, chart) && Started(g, root, chart)
    && Traced(g, root, input, chart, |input| + 1, 0)
  }

  /** A parsed chart holds an item in a column exactly when the item is valid there. */
  lemma ChartIsExact(g: Grammar, root: Node, input: seq<Node>, chart: Chart, x: Item, i: nat)
    requires Parsed(g, root, input, chart) && i < |chart|
    ensures HasItem(chart[i], x) <==> ValidItem(g, root, input, x, i)
  {
    if HasItem(chart[i], x) {
      var p :| 0 <= p < |chart[i]| && chart[i][p].item == x;
      Sound(g, root, input, chart, i, p);
    }
    if ValidItem(g, root, input, x, i) {
      forall c, p | 0 <= c < |chart| && 0 <= p < |chart[c]| ensures Shape(g, chart[c][p].item, c) {
        assert Justified(g, root, input, chart, c, p);
      }
      Present(g, root, input, chart, x, i);
    }
  }

  /** The acceptance test: some finished state of the root is in the last column. */
  ghost predicate Accepts(root: Node, input: seq<Node>, chart: Chart)
    requires |chart| == |input| + 1
  {
    exists p :: 0 <= p < |chart[|input|]| && FinishedRoot(root, chart[|input|][p].item)
  }

  predicate FinishedRoot(root: Node, x: Item) {
    x.lhs == root && x.dot == |x.rule.nodes|
  }

  lemma DerivesBySomeRule(g: Grammar, a: Node, w: seq<Node>)
    requires !g.Terminal(a) && Derives(g, [a], w)
    ensures exists e :: e in g.GetProduction(a) && Derives(g, e.nodes, w)
  {
    var d :| DerivedBy(g, d, [a], w);
    assert Roots(d)[0] == a && |Roots(d.rest)| == 0;
    assert d.Expand? && Yield(d.rest) == [];
    assert DerivedBy(g, d.body, d.rule.nodes, w);
  }

  lemma DerivesFromRule(g: Grammar, a: Node, e: Expansion, w: seq<Node>)
    requires e in g.GetProduction(a) && Derives(g, e.nodes, w)
    ensures Derives(g, [a], w)
  {
    var d :| DerivedBy(g, d, e.nodes, w);
    var f := Expand(a, e, d, Done);
    ExpandAlone(a, e, d);
    assert DerivedBy(g, f, [a], w);
  }

  /** The acceptance test ignores where the finished state began: it accepts exactly when some
      suffix, at whose start a derivation can ask for the root, is derived by the root. */
  lemma AcceptsExactly(g: Grammar, root: Node, input: seq<Node>, chart: Chart)
    requires Parsed(g, root, input, chart) && !g.Terminal(root)
    ensures Accepts(root, input, chart)
            <==> exists k :: 0 <= k <= |input| && Reachable(g, root, input, root, k) && Derives(g, [root], input[k..])
  {
    hide Traced;
    var n := |input|;
    if Accepts(root, input, chart) {
      var p :| 0 <= p < |chart[n]| && FinishedRoot(root, chart[n][p].item);
      var x := chart[n][p].item;
      Sound(g, root, input, chart, n, p);
      assert x.rule.nodes[..x.dot] == x.rule.nodes && input[x.origin..n] == input[x.origin..];
      DerivesFromRule(g, root, x.rule, input[x.origin..]);
    }
    if k :| 0 <= k <= n && Reachable(g, root, input, root, k) && Derives(g, [root], input[k..]) {
      DerivesBySomeRule(g, root, input[k..]);
      var e :| e in g.GetProduction(root) && Derives(g, e.nodes, input[k..]);
      var x := Item(root, e, k, |e.nodes|);
      assert e.nodes[..x.dot] == e.nodes && input[k..n] == input[k..];
      ChartIsExact(g, root, input, chart, x, n);
    }
  }

  /** Every derivable input is accepted. */
  lemma DerivableIsAccepted(g: Grammar, root: Node, input: seq<Node>, chart: Chart)
    requires Parsed(g, root, input, chart) && !g.Terminal(root)
    requires Derives(g, [root], input)
    ensures Accepts(root, input, chart)
  {
    assert Reaches(g, root, input, Top, root, 0) && input[0..] == input;
    AcceptsExactly(g, root, input, chart);
  }

  /** When the root occurs inside no expansion, acceptance is derivability. */
  lemma AcceptanceIsDerivability(g: Grammar, root: Node, input: seq<Node>, chart: Chart)
    requires Parsed(g, root, input, chart) && !g.Terminal(root)
    requires g.OnNoRightHandSide(root)
    ensures Accepts(root, input, chart) <==> Derives(g, [root], input)
  {
    AcceptsExactly(g, root, input, chart);
    if Accepts(root, input, chart) {
      var k :| 0 <= k <= |input| && Reachable(g, root, input, root, k) && Derives(g, [root], input[k..]);
      var c :| Reaches(g, root, input, c, root, k);
      assert c.Top?;
      assert input[0..] == input;
    } else if Derives(g, [root], input) {
      DerivableIsAccepted(g, root, input, chart);
    }
  }
}
