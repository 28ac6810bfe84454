/** Why the worklist of a column runs empty although finished states are pushed without a duplicate check. */
module EarleyTermination {
  import opened Grammars
  import opened EarleyChart

  /** A node that can be rewritten to itself by unit expansions is asked for at `k` and derives the input from
      there to a later `i`. */
  ghost predicate LoopsAt(g: Grammar, root: Node, input: seq<Node>, a: Node, p: seq<Node>, k: nat, i: nat) {
    && k < i <= |input| && g.UnitLeads(p, a, a)
    && Reachable(g, root, input, a, k) && Derives(g, [a], input[k..i])
  }

  ghost predicate Loops(g: Grammar, root: Node, input: seq<Node>) {
    exists a, p, k, i :: LoopsAt(g, root, input, a, p, k, i)
  }

  /** A grammar without unit cycles loops on no input. */
  lemma NoCycleNoLoop(g: Grammar, root: Node, input: seq<Node>)
    requires g.NoUnitCycle()
    ensures !Loops(g, root, input)
  {}

  /** The nodes asked for at `k` from which `b` is reached by one or more unit expansions. */
  ghost function Ancestors(g: Grammar, root: Node, input: seq<Node>, b: Node, k: nat): set<Node> {
    set a | a in g.expansions.Keys && Reachable(g, root, input, a, k) && exists p :: g.UnitLeads(p, a, b)
  }

  ghost function Rank(g: Grammar, root: Node, input: seq<Node>, b: Node, k: nat): nat {
    |Ancestors(g, root, input, b, k)|
  }

  /** Unless the parser loops, the rank falls from a finished node to the node it is the only part of. */
  lemma RankFalls(g: Grammar, root: Node, input: seq<Node>, a: Node, b: Node, k: nat, i: nat)
    requires !Loops(g, root, input) && g.UnitStep(a, b) && k < i <= |input|
    requires Reachable(g, root, input, a, k) && Derives(g, [a], input[k..i])
    ensures Rank(g, root, input, a, k) < Rank(g, root, input, b, k)
  {
    hide Reachable, Derives;
    var above, below := Ancestors(g, root, input, a, k), Ancestors(g, root, input, b, k);
    assert g.UnitLeads([a, b], a, b);
    assert forall p :: g.UnitLeads(p, a, a) ==> LoopsAt(g, root, input, a, p, k, i);
    forall x | x in above ensures x in below {
      var p :| g.UnitLeads(p, x, a);
      assert g.UnitLeads(p + [b], x, b);
    }
    SmallerSet(above, below, a);
  }

  /** A finished state that is not complete in the column it began in. */
  ghost predicate Finished(g: Grammar, root: Node, input: seq<Node>, y: Item, i: nat) {
    ValidItem(g, root, input, y, i) && y.dot == |y.rule.nodes| && y.origin < i
  }

  /** The state `t` waits in the column where the finished state `y` began. */
  ghost predicate WaitsFor(g: Grammar, root: Node, input: seq<Node>, t: Item, y: Item) {
    Shape(g, t, y.origin) && ValidItem(g, root, input, t, y.origin) && Expects(t, y.lhs)
  }

  /** A state that a completion advances is valid; if that finishes it, it began earlier, or in the same column
      and with a smaller rank. */
  lemma AdvancedIsSmaller(g: Grammar, root: Node, input: seq<Node>, t: Item, y: Item, i: nat)
    requires !Loops(g, root, input) && Finished(g, root, input, y, i) && WaitsFor(g, root, input, t, y)
    ensures ValidItem(g, root, input, Advance(t), i)
    ensures t.dot + 1 == |t.rule.nodes| ==>
              && Finished(g, root, input, Advance(t), i)
              && (t.origin < y.origin
                  || (t.origin == y.origin
                      && Rank(g, root, input, t.lhs, t.origin) < Rank(g, root, input, y.lhs, y.origin)))
  {
    hide Reachable, Derives, Rank;
    assert Advance(t).(dot := t.dot) == t;
    SoundComplete(g, root, input, Advance(t), y, i);
    if t.dot + 1 == |t.rule.nodes| && t.origin == y.origin {
      assert t.rule.nodes == [y.lhs];
      assert g.UnitStep(t.lhs, y.lhs);
      assert t.rule.nodes[..t.dot + 1] == t.rule.nodes;
      DerivesFromRule(g, t.lhs, t.rule, input[t.origin..i]);
      RankFalls(g, root, input, t.lhs, y.lhs, t.origin, i);
    }
  }

  /** How many loop turns a state still causes: its own, and those of everything that is pushed
      because it is finished. `prev` are the closed columns. */
  ghost function Weight(g: Grammar, root: Node, input: seq<Node>, prev: Chart, x: Item): (w: nat)
    requires !Loops(g, root, input) && SoundChart(g, root, input, prev) && ValidItem(g, root, input, x, |prev|)
    ensures w >= 1
    decreases x.origin, Rank(g, root, input, x.lhs, x.origin), 1, 0
  {
    if x.dot == |x.rule.nodes| && x.origin < |prev|
    then 1 + AdvancesWeight(g, root, input, prev, prev[x.origin], x)
    else 1
  }

  ghost function AdvancesWeight(g: Grammar, root: Node, input: seq<Node>, prev: Chart, from: Column, y: Item): nat
    requires !Loops(g, root, input) && SoundChart(g, root, input, prev) && Finished(g, root, input, y, |prev|)
    requires SoundColumn(g, root, input, from, y.origin)
    decreases y.origin, Rank(g, root, input, y.lhs, y.origin), 0, |from|
  {
    if from == [] then 0
    else
      var last := |from| - 1;
      var t := from[last].item;
      AdvancesWeight(g, root, input, prev, from[..last], y)
      + if !Expects(t, y.lhs) then 0
        else
          AdvancedIsSmaller(g, root, input, t, y, |prev|);
          if t.dot + 1 < |t.rule.nodes| then 1 else Weight(g, root, input, prev, Advance(t))
  }

  ghost function Pending(g: Grammar, root: Node, input: seq<Node>, prev: Chart, todo: Column): nat
    requires !Loops(g, root, input) && SoundChart(g, root, input, prev) && SoundColumn(g, root, input, todo, |prev|)
  {
    if todo == [] then 0
    else Pending(g, root, input, prev, todo[..|todo| - 1]) + Weight(g, root, input, prev, todo[|todo| - 1].item)
  }

  lemma {:induction false} PendingConcat(g: Grammar, root: Node, input: seq<Node>, prev: Chart, a: Column, b: Column)
    requires !Loops(g, root, input) && SoundChart(g, root, input, prev)
    requires SoundColumn(g, root, input, a, |prev|) && SoundColumn(g, root, input, b, |prev|)
    ensures SoundColumn(g, root, input, a + b, |prev|)
    ensures Pending(g, root, input, prev, a + b) == Pending(g, root, input, prev, a) + Pending(g, root, input, prev, b)
  {
    hide Loops, SoundChart, ValidItem, Shape, Weight;
    if b == [] {
      assert a + b == a;
    } else {
      PendingConcat(g, root, input, prev, a, b[..|b| - 1]);
      assert (a + b)[..|a + b| - 1] == a + b[..|b| - 1];
    }
  }

  lemma PendingDropsFirst(g: Grammar, root: Node, input: seq<Node>, prev: Chart, todo: Column)
    requires !Loops(g, root, input) && SoundChart(g, root, input, prev) && SoundColumn(g, root, input, todo, |prev|)
             && todo != []
    ensures SoundColumn(g, root, input, todo[1..], |prev|)
    ensures Pending(g, root, input, prev, todo) == Weight(g, root, input, prev, todo[0].item)
            + Pending(g, root, input, prev, todo[1..])
  {
    hide Loops, SoundChart, ValidItem, Shape, Weight;
    PendingConcat(g, root, input, prev, todo[..1], todo[1..]);
    assert todo[..1] + todo[1..] == todo;
    assert todo[..1][..0] == [];
  }

  lemma {:induction false} PendingSameItems(g: Grammar, root: Node, input: seq<Node>, prev: Chart, a: Column, b: Column)
    requires !Loops(g, root, input) && SoundChart(g, root, input, prev) && SoundColumn(g, root, input, a, |prev|)
    requires Grows(a, b) && |a| == |b|
    ensures SoundColumn(g, root, input, b, |prev|)
    ensures Pending(g, root, input, prev, a) == Pending(g, root, input, prev, b)
  {
    hide Loops, SoundChart, ValidItem, Shape, Weight;
    if a != [] {
      PendingSameItems(g, root, input, prev, a[..|a| - 1], b[..|b| - 1]);
    }
  }

  lemma {:induction false} PendingAdvances(g: Grammar, root: Node, input: seq<Node>, prev: Chart, from: Column, y: Item,
                                           b: Back)
    requires !Loops(g, root, input) && SoundChart(g, root, input, prev) && Finished(g, root, input, y, |prev|)
    requires SoundColumn(g, root, input, from, y.origin)
    ensures SoundColumn(g, root, input, Advances(from, y.lhs, b), |prev|)
    ensures Pending(g, root, input, prev, Advances(from, y.lhs, b)) == AdvancesWeight(g, root, input, prev, from, y)
  {
    hide Loops, SoundChart, ValidItem, Rank;
    if from != [] {
      var last := |from| - 1;
      var t := from[last].item;
      PendingAdvances(g, root, input, prev, from[..last], y, b);
      var front := Advances(from[..last], y.lhs, b);
      if Expects(t, y.lhs) {
        AdvancedIsSmaller(g, root, input, t, y, |prev|);
      } else {
        assert Advances(from, y.lhs, b) == front;
      }
    }
  }

  // The predictions that a column can still receive

  ghost function PoolLeft(g: Grammar, i: nat, col: Column): set<Item> {
    set n, e | n in g.expansions.Keys && e in g.expansions[n] && !HasItem(col, Item(n, e, i, 0)) :: Item(n, e, i, 0)
  }

  lemma PoolShrinks(g: Grammar, i: nat, col: Column, col': Column)
    requires Grows(col, col')
    ensures PoolLeft(g, i, col') <= PoolLeft(g, i, col)
  {
    forall x | x in PoolLeft(g, i, col') ensures x in PoolLeft(g, i, col) {
      if HasItem(col, x) {
        HasItemGrows(col, col', x);
      }
    }
  }

  /** Either a prediction adds no state, or the pool gets strictly smaller. */
  lemma {:induction false} PredictUsesPool(g: Grammar, col: Column, b: Node, list: seq<Expansion>, i: nat, from: Back)
    requires forall e :: e in list ==> e in g.GetProduction(b)
    ensures PoolLeft(g, i, Predict(col, b, list, i, from)) <= PoolLeft(g, i, col)
    ensures |Predict(col, b, list, i, from)| == |col|
            || PoolLeft(g, i, Predict(col, b, list, i, from)) < PoolLeft(g, i, col)
  {
    PredictGrows(col, b, list, i, from);
    PoolShrinks(g, i, col, Predict(col, b, list, i, from));
    if list != [] {
      var last := |list| - 1;
      PredictUsesPool(g, col, b, list[..last], i, from);
      var mid, after := Predict(col, b, list[..last], i, from), Predict(col, b, list, i, from);
      var x := Item(b, list[last], i, 0);
      if IndexOf(mid, x) < 0 {
        assert Grows(mid, after) && after[|mid|].item == x;
        PoolShrinks(g, i, mid, after);
        assert list[last] in g.GetProduction(b);
        assert x in PoolLeft(g, i, mid) && x !in PoolLeft(g, i, after);
      } else {
        assert Grows(mid, after);
        PoolShrinks(g, i, mid, after);
      }
    }
  }
}

/** The loops of the parser as a machine. */
module EarleyRuns {
  import opened Grammars
  import opened EarleyChart

  /** The parser is about to work on state `j` of column `i`. */
  datatype Position = Position(chart: Chart, i: nat, j: nat)

  /** One turn of the inner loop, or the step to the next column. */
  function Step(g: Grammar, input: seq<Node>, s: Position): (s': Position)
    requires |s.chart| == |input| + 1
    ensures |s'.chart| == |input| + 1
  {
    if s.i > |input| then s
    else if s.j < |s.chart[s.i]| then Position(Turn(g, input, s.chart, s.i, s.j), s.i, s.j + 1)
    else Position(s.chart, s.i + 1, 0)
  }

  function Steps(g: Grammar, input: seq<Node>, s: Position, n: nat): (s': Position)
    requires |s.chart| == |input| + 1
    ensures |s'.chart| == |input| + 1
    decreases n
  {
    if n == 0 then s else Steps(g, input, Step(g, input, s), n - 1)
  }

  /** All columns are done. */
  predicate Over(input: seq<Node>, s: Position) {
    s.i > |input|
  }

  ghost predicate Ends(g: Grammar, input: seq<Node>, s: Position)
    requires |s.chart| == |input| + 1
  {
    exists n :: Over(input, Steps(g, input, s, n))
  }

  lemma NoSteps(g: Grammar, input: seq<Node>, s: Position)
    requires |s.chart| == |input| + 1
    ensures Steps(g, input, s, 0) == s
  {}

  lemma {:induction false} OneMoreStep(g: Grammar, input: seq<Node>, s: Position, n: nat)
    requires |s.chart| == |input| + 1
    ensures Steps(g, input, s, n + 1) == Step(g, input, Steps(g, input, s, n))
    decreases n
  {
    if n > 0 {
      OneMoreStep(g, input, Step(g, input, s), n - 1);
    }
  }
}

/** The parser object and its loops. */
module EarleyParsing {
  import opened Grammars
  import opened EarleyChart
  import opened EarleyBackPointers
  import opened EarleyTermination
  import opened EarleyRuns

  /** The states before index `j` of column `i`, and all states of earlier columns, are processed. */
  ghost predicate ProcessedUpTo(g: Grammar, input: seq<Node>, chart: Chart, i: nat, j: nat) {
    && |chart| == |input| + 1
    && forall c, p :: 0 <= c < |chart| && 0 <= p < |chart[c]| && (c < i || (c == i && p < j))
                      ==> Processed(g, input, chart, c, p)
  }

  lemma StepKeeps(g: Grammar, root: Node, input: seq<Node>, chart: Chart, chart': Chart, i: nat, j: nat)
    requires ProcessedUpTo(g, input, chart, i, j) && Started(g, root, chart)
    requires i < |chart| && j <= |chart[i]| && ChartGrows(chart, chart') && chart[..i] == chart'[..i]
    ensures ProcessedUpTo(g, input, chart', i, j) && Started(g, root, chart')
  {
    forall c, p | 0 <= c < |chart'| && 0 <= p < |chart'[c]| && (c < i || (c == i && p < j))
      ensures Processed(g, input, chart', c, p)
    {
      assert c < i ==> chart[c] == chart[..i][c] == chart'[..i][c] == chart'[c];
      assert chart[..c] == chart[..i][..c] == chart'[..i][..c] == chart'[..c];
      ProcessedGrows(g, input, chart, chart', c, p);
    }
    forall e | e in g.GetProduction(root) ensures HasItem(chart'[0], Item(root, e, 0, 0)) {
      HasItemGrows(chart[0], chart'[0], Item(root, e, 0, 0));
    }
  }

  lemma JustifiedIsShaped(g: Grammar, root: Node, input: seq<Node>, chart: Chart)
    requires AllJustified(g, root, input, chart)
    ensures AllShaped(g, chart)
  {
    forall c, p | 0 <= c < |chart| && 0 <= p < |chart[c]| ensures Shape(g, chart[c][p].item, c) {
      assert Justified(g, root, input, chart, c, p);
    }
  }

  /** After `CreateChart` on a new parser. */
  ghost predicate Fresh(g: Grammar, root: Node, input: seq<Node>, chart: Chart) {
    && |chart| == |input| + 1
    && chart[0] == InitialColumn(root, g.GetProduction(root))
    && forall c :: 1 <= c < |chart| ==> chart[c] == []
  }

  lemma FreshIsJustified(g: Grammar, root: Node, input: seq<Node>, chart: Chart)
    requires Fresh(g, root, input, chart)
    ensures AllJustified(g, root, input, chart) && Started(g, root, chart)
  {
    var list := g.GetProduction(root);
    forall e | e in list ensures HasItem(chart[0], Item(root, e, 0, 0)) {
      var p :| 0 <= p < |list| && list[p] == e;
      assert chart[0][p].item == Item(root, e, 0, 0);
    }
  }

  // One turn of the inner loop, by kind of state

  lemma PredictTurn(g: Grammar, root: Node, input: seq<Node>, chart: Chart, i: nat, j: nat, n: Node)
    requires AllJustified(g, root, input, chart) && ProcessedUpTo(g, input, chart, i, j) && Started(g, root, chart)
    requires i < |chart| && j < |chart[i]| && Expects(chart[i][j].item, n) && !g.Terminal(n)
    ensures var chart' := chart[i := Predict(chart[i], n, g.GetProduction(n), i, At(i, j))];
            && AllJustified(g, root, input, chart') && ProcessedUpTo(g, input, chart', i, j + 1)
               && Started(g, root, chart')
            && Grows(chart[i], chart'[i])
  {
    var list := g.GetProduction(n);
    var chart' := chart[i := Predict(chart[i], n, list, i, At(i, j))];
    PredictGrows(chart[i], n, list, i, At(i, j));
    PredictKeepsJustified(g, root, input, chart, i, j, n, list);
    StepKeeps(g, root, input, chart, chart', i, j);
    assert chart'[i][j].item == chart[i][j].item;
    assert Processed(g, input, chart', i, j);
  }

  lemma ScanTurn(g: Grammar, root: Node, input: seq<Node>, chart: Chart, i: nat, j: nat, n: Node)
    requires AllJustified(g, root, input, chart) && ProcessedUpTo(g, input, chart, i, j) && Started(g, root, chart)
    requires i < |chart| && j < |chart[i]| && Expects(chart[i][j].item, n) && g.Terminal(n)
    ensures var chart' := if i < |input| && input[i] == n
                          then chart[i + 1 := chart[i + 1] + [State(Advance(chart[i][j].item), [At(i, j)])]] else chart;
            && AllJustified(g, root, input, chart') && ProcessedUpTo(g, input, chart', i, j + 1)
               && Started(g, root, chart')
  {
    if i < |input| && input[i] == n {
      var s := State(Advance(chart[i][j].item), [At(i, j)]);
      var chart' := chart[i + 1 := chart[i + 1] + [s]];
      ScanKeepsJustified(g, root, input, chart, i, j);
      StepKeeps(g, root, input, chart, chart', i, j);
      assert chart'[i + 1][|chart[i + 1]|].item == s.item;
      assert Processed(g, input, chart', i, j);
    } else {
      assert Processed(g, input, chart, i, j);
    }
  }

  lemma CompleteTurn(g: Grammar, root: Node, input: seq<Node>, chart: Chart, i: nat, j: nat)
    requires AllJustified(g, root, input, chart) && ProcessedUpTo(g, input, chart, i, j) && Started(g, root, chart)
    requires i < |chart| && j < |chart[i]|
    requires chart[i][j].item.dot == |chart[i][j].item.rule.nodes| && chart[i][j].item.origin < i
    ensures var y := chart[i][j].item;
            var chart' := chart[i := chart[i] + Advances(chart[y.origin], y.lhs, At(i, j))];
            && AllJustified(g, root, input, chart') && ProcessedUpTo(g, input, chart', i, j + 1)
               && Started(g, root, chart')
  {
    var y := chart[i][j].item;
    var more := Advances(chart[y.origin], y.lhs, At(i, j));
    var chart' := chart[i := chart[i] + more];
    CompleteKeepsJustified(g, root, input, chart, i, j, y.origin, chart[y.origin]);
    StepKeeps(g, root, input, chart, chart', i, j);
    forall q | 0 <= q < |chart'[y.origin]| && Expects(chart'[y.origin][q].item, y.lhs)
      ensures HasItem(chart'[i], Advance(chart'[y.origin][q].item))
    {
      AdvancesHasAll(chart[y.origin], y.lhs, At(i, j), q);
      var p :| 0 <= p < |more| && more[p].item == Advance(chart[y.origin][q].item);
      assert chart'[i][|chart[i]| + p] == more[p];
    }
    assert chart'[i][j].item == y;
    assert Processed(g, input, chart', i, j);
  }

  // What each turn does to the back pointers

  lemma JustifiedIsBegun(g: Grammar, root: Node, input: seq<Node>, chart: Chart, i: nat)
    requires AllJustified(g, root, input, chart) && i < |chart|
    ensures Begun(chart[i], i)
    ensures forall p :: 0 <= p < |chart[i]| ==> !g.Terminal(chart[i][p].item.lhs)
  {
    forall p | 0 <= p < |chart[i]| ensures Shape(g, chart[i][p].item, i) {
      assert Justified(g, root, input, chart, i, p);
    }
  }

  /** Before the first state that waits for `n`, nothing of `n` is in the column; afterwards all of it is. */
  lemma AskedOrNot(g: Grammar, root: Node, input: seq<Node>, chart: Chart, i: nat, j: nat, n: Node)
    requires ProcessedUpTo(g, input, chart, i, j) && Started(g, root, chart) && i < |chart| && j <= |chart[i]|
    ensures (forall e :: e in g.GetProduction(n) ==> HasItem(chart[i], Item(n, e, i, 0)))
            || Unasked(root, chart[i], i, j, n)
  {
    if !Unasked(root, chart[i], i, j, n) && !(i == 0 && n == root) {
      var q :| 0 <= q < j && Expects(chart[i][q].item, n);
      assert Processed(g, input, chart, i, q);
    }
  }

  lemma PredictTraces(g: Grammar, root: Node, input: seq<Node>, chart: Chart, i: nat, j: nat, n: Node)
    requires AllJustified(g, root, input, chart) && ProcessedUpTo(g, input, chart, i, j) && Started(g, root, chart)
    requires Traced(g, root, input, chart, i, j)
    requires i < |chart| && j < |chart[i]| && Expects(chart[i][j].item, n) && !g.Terminal(n)
    ensures Traced(g, root, input, chart[i := Predict(chart[i], n, g.GetProduction(n), i, At(i, j))], i, j + 1)
  {
    hide AllJustified, ProcessedUpTo, Started, ContinuedUpTo, Reasoned, Predict, Begun;
    JustifiedIsBegun(g, root, input, chart, i);
    AskedOrNot(g, root, input, chart, i, j, n);
    PredictTurnReasons(g, root, chart[i], i, j, n);
    PredictContinues(g, input, chart, i, j, n);
  }

  /** A turn that pushes started states, if any, to this column or the next. */
  lemma PushTraces(g: Grammar, root: Node, input: seq<Node>, chart: Chart, i: nat, j: nat, d: nat, more: Column)
    requires AllJustified(g, root, input, chart) && Traced(g, root, input, chart, i, j)
    requires i < |chart| && j < |chart[i]| && i <= d < |chart|
    requires var x := chart[i][j].item; x.dot < |x.rule.nodes| ==> g.Terminal(x.rule.nodes[x.dot])
    requires forall r :: 0 <= r < |more| ==> more[r].item.dot > 0 && more[r].back == [At(i, j)]
    requires var chart' := chart[d := chart[d] + more];
             Reached(chart'[d], At(i, j)) == Reached(more, At(i, j)) ==> Continued(g, input, chart', i, j)
    ensures Traced(g, root, input, chart[d := chart[d] + more], i, j + 1)
  {
    hide AllJustified, ContinuedUpTo, ReasonedUpTo, Continued, Reached;
    JustifiedIsBegun(g, root, input, chart, i);
    PushReasons(g, root, chart, i, j, d, more);
    PushContinues(g, input, chart, i, j, d, more);
  }

  lemma ScanTraces(g: Grammar, root: Node, input: seq<Node>, chart: Chart, i: nat, j: nat, n: Node)
    requires AllJustified(g, root, input, chart) && Traced(g, root, input, chart, i, j)
    requires i < |chart| && j < |chart[i]| && Expects(chart[i][j].item, n) && g.Terminal(n)
    ensures var chart' := if i < |input| && input[i] == n
                          then chart[i + 1 := chart[i + 1] + [State(Advance(chart[i][j].item), [At(i, j)])]] else chart;
            Traced(g, root, input, chart', i, j + 1)
  {
    hide Justified, Traced;
    if i < |input| && input[i] == n {
      var s := State(Advance(chart[i][j].item), [At(i, j)]);
      var chart' := chart[i + 1 := chart[i + 1] + [s]];
      ReachedOne(s, At(i, j), At(i, j));
      PushTraces(g, root, input, chart, i, j, i + 1, [s]);
    } else {
      assert chart[i] + [] == chart[i] && chart[i := chart[i]] == chart;
      PushTraces(g, root, input, chart, i, j, i, []);
    }
  }

  lemma CompleteTraces(g: Grammar, root: Node, input: seq<Node>, chart: Chart, i: nat, j: nat)
    requires AllJustified(g, root, input, chart) && Traced(g, root, input, chart, i, j)
    requires i < |chart| && j < |chart[i]|
    requires chart[i][j].item.dot == |chart[i][j].item.rule.nodes| && chart[i][j].item.origin < i
    ensures var y := chart[i][j].item;
            Traced(g, root, input, chart[i := chart[i] + Advances(chart[y.origin], y.lhs, At(i, j))], i, j + 1)
  {
    hide AllJustified, Traced;
    var y := chart[i][j].item;
    var more := Advances(chart[y.origin], y.lhs, At(i, j));
    forall r | 0 <= r < |more| ensures more[r].item.dot > 0 && more[r].back == [At(i, j)] {
      AdvancesOnly(chart[y.origin], y.lhs, At(i, j), r);
    }
    ReachedAdvances(chart[y.origin], y.lhs, At(i, j), At(i, j));
    PushTraces(g, root, input, chart, i, j, i, more);
  }

  // What each turn does to the measure of the inner loop

  ghost predicate Less(pool: set<Item>, pending: nat, pool': set<Item>, pending': nat) {
    pool < pool' || (pool == pool' && pending < pending')
  }

  lemma SoundRest(g: Grammar, root: Node, input: seq<Node>, col: Column, i: nat, j: nat)
    requires SoundColumn(g, root, input, col, i) && j <= |col|
    ensures SoundColumn(g, root, input, col[j..], i)
  {}

  lemma PredictMeasure(g: Grammar, root: Node, input: seq<Node>, prev: Chart, col: Column, j: nat, n: Node)
    requires !Loops(g, root, input) && SoundChart(g, root, input, prev) && SoundColumn(g, root, input, col, |prev|)
             && j < |col|
    ensures var col' := Predict(col, n, g.GetProduction(n), |prev|, At(|prev|, j));
            j < |col'| && (SoundColumn(g, root, input, col', |prev|) ==>
              && SoundColumn(g, root, input, col[j..], |prev|) && SoundColumn(g, root, input, col'[j + 1..], |prev|)
              && Less(PoolLeft(g, |prev|, col'), Pending(g, root, input, prev, col'[j + 1..]),
                      PoolLeft(g, |prev|, col), Pending(g, root, input, prev, col[j..])))
  {
    hide Loops, SoundChart, SoundColumn, Pending, Weight, PoolLeft, Predict;
    var i, list := |prev|, g.GetProduction(n);
    var col' := Predict(col, n, list, i, At(i, j));
    PredictGrows(col, n, list, i, At(i, j));
    PredictUsesPool(g, col, n, list, i, At(i, j));
    SoundRest(g, root, input, col, i, j);
    if SoundColumn(g, root, input, col', i) {
      SoundRest(g, root, input, col', i, j + 1);
      if |col'| == |col| {
        SoundRest(g, root, input, col, i, j + 1);
        PendingSameItems(g, root, input, prev, col[j + 1..], col'[j + 1..]);
        PendingDropsFirst(g, root, input, prev, col[j..]);
        assert col[j..][1..] == col[j + 1..];
      }
    }
  }

  lemma CompleteMeasure(g: Grammar, root: Node, input: seq<Node>, prev: Chart, col: Column, j: nat)
    requires !Loops(g, root, input) && SoundChart(g, root, input, prev) && SoundColumn(g, root, input, col, |prev|)
             && j < |col|
    requires Finished(g, root, input, col[j].item, |prev|)
    ensures var y := col[j].item;
            var col' := col + Advances(prev[y.origin], y.lhs, At(|prev|, j));
            && SoundColumn(g, root, input, col[j..], |prev|) && SoundColumn(g, root, input, col'[j + 1..], |prev|)
            && Less(PoolLeft(g, |prev|, col'), Pending(g, root, input, prev, col'[j + 1..]),
                    PoolLeft(g, |prev|, col), Pending(g, root, input, prev, col[j..]))
  {
    hide Loops, SoundColumn, Pending, PoolLeft, Advances, ValidItem;
    var i, y := |prev|, col[j].item;
    var more := Advances(prev[y.origin], y.lhs, At(i, j));
    PoolShrinks(g, i, col, col + more);
    SoundRest(g, root, input, col, i, j);
    SoundRest(g, root, input, col, i, j + 1);
    PendingDropsFirst(g, root, input, prev, col[j..]);
    assert col[j..][1..] == col[j + 1..];
    assert (col + more)[j + 1..] == col[j + 1..] + more;
    PendingAdvances(g, root, input, prev, prev[y.origin], y, At(i, j));
    PendingConcat(g, root, input, prev, col[j + 1..], more);
  }

  // One turn of the inner loop, whatever the state

  /** What holds before the turn on state `j` of column `i`. */
  ghost predicate Open(g: Grammar, root: Node, input: seq<Node>, chart: Chart, i: nat, j: nat) {
    && AllJustified(g, root, input, chart) && ProcessedUpTo(g, input, chart, i, j) && Started(g, root, chart)
    && Traced(g, root, input, chart, i, j)
    && i < |chart| && j <= |chart[i]|
  }

  lemma TurnKeeps(g: Grammar, root: Node, input: seq<Node>, chart: Chart, i: nat, j: nat)
    requires g.NoEmptyProduction() && Open(g, root, input, chart, i, j) && j < |chart[i]|
    ensures var chart' := Turn(g, input, chart, i, j);
            Open(g, root, input, chart', i, j + 1) && chart'[..i] == chart[..i]
  {
    hide AllJustified, ProcessedUpTo, Started, Traced, Predict, Advances;
    var x := chart[i][j].item;
    StateAt(g, root, input, chart, i, j);
    if !Complete(g, x) {
      var n := x.rule.nodes[x.dot];
      if !g.Terminal(n) {
        PredictTurn(g, root, input, chart, i, j, n);
        PredictTraces(g, root, input, chart, i, j, n);
      } else {
        ScanTurn(g, root, input, chart, i, j, n);
        ScanTraces(g, root, input, chart, i, j, n);
      }
    } else {
      CompleteTurn(g, root, input, chart, i, j);
      CompleteTraces(g, root, input, chart, i, j);
    }
  }

  lemma StateAt(g: Grammar, root: Node, input: seq<Node>, chart: Chart, i: nat, j: nat)
    requires g.NoEmptyProduction() && AllJustified(g, root, input, chart) && i < |chart| && j < |chart[i]|
    ensures var x := chart[i][j].item;
            && x.dot <= |x.rule.nodes| && (Complete(g, x) <==> x.dot == |x.rule.nodes|)
            && (Complete(g, x) ==> x.origin < i)
  {
    assert Justified(g, root, input, chart, i, j);
  }

  /** The two worklist measures of column `i` before the turn on state `j`. */
  ghost predicate Measured(g: Grammar, root: Node, input: seq<Node>, chart: Chart, i: nat, j: nat) {
    && !Loops(g, root, input) && i < |chart| && j <= |chart[i]|
    && SoundChart(g, root, input, chart[..i]) && SoundColumn(g, root, input, chart[i][j..], i)
  }

  ghost function StillPending(g: Grammar, root: Node, input: seq<Node>, chart: Chart, i: nat, j: nat): nat
    requires Measured(g, root, input, chart, i, j)
  {
    Pending(g, root, input, chart[..i], chart[i][j..])
  }

  lemma OpenIsMeasured(g: Grammar, root: Node, input: seq<Node>, chart: Chart, i: nat, j: nat)
    requires !Loops(g, root, input) && Open(g, root, input, chart, i, j)
    ensures Measured(g, root, input, chart, i, j) && SoundColumn(g, root, input, chart[i], i)
  {
    hide Loops, ValidItem, ProcessedUpTo, Started, Traced;
    JustifiedIsSound(g, root, input, chart);
    SoundRest(g, root, input, chart[i], i, j);
  }

  /** Unless the parser loops, each turn uses up predictions or shortens what is pending. */
  lemma TurnMeasure(g: Grammar, root: Node, input: seq<Node>, chart: Chart, i: nat, j: nat)
    requires g.NoEmptyProduction() && !Loops(g, root, input) && Open(g, root, input, chart, i, j) && j < |chart[i]|
    ensures var chart' := Turn(g, input, chart, i, j);
            && Open(g, root, input, chart', i, j + 1) && chart'[..i] == chart[..i]
            && Measured(g, root, input, chart, i, j) && Measured(g, root, input, chart', i, j + 1)
            && Less(PoolLeft(g, i, chart'[i]), StillPending(g, root, input, chart', i, j + 1),
                    PoolLeft(g, i, chart[i]), StillPending(g, root, input, chart, i, j))
  {
    hide Loops, SoundColumn, SoundChart, ValidItem, Pending, PoolLeft, Predict, Advances, Open, AllJustified;
    OpenState(g, root, input, chart, i, j);
    TurnKeeps(g, root, input, chart, i, j);
    var x, chart' := chart[i][j].item, Turn(g, input, chart, i, j);
    OpenIsMeasured(g, root, input, chart, i, j);
    OpenIsMeasured(g, root, input, chart', i, j + 1);
    if !Complete(g, x) {
      if !g.Terminal(x.rule.nodes[x.dot]) {
        PredictMeasure(g, root, input, chart[..i], chart[i], j, x.rule.nodes[x.dot]);
      } else {
        PendingDropsFirst(g, root, input, chart[..i], chart[i][j..]);
        assert chart[i][j..][1..] == chart[i][j + 1..];
        assert chart'[i] == chart[i];
      }
    } else {
      CompleteMeasure(g, root, input, chart[..i], chart[i], j);
    }
  }

  lemma OpenState(g: Grammar, root: Node, input: seq<Node>, chart: Chart, i: nat, j: nat)
    requires g.NoEmptyProduction() && Open(g, root, input, chart, i, j) && j < |chart[i]|
    ensures var x := chart[i][j].item;
            && x.dot <= |x.rule.nodes| && (Complete(g, x) <==> x.dot == |x.rule.nodes|)
            && (Complete(g, x) ==> Finished(g, root, input, x, i) && i <= |input| && x.origin < i)
            && |chart| == |input| + 1 && i < |chart|
  {
    hide ValidItem;
    StateAt(g, root, input, chart, i, j);
    Sound(g, root, input, chart, i, j);
  }

  lemma FreshIsOpen(g: Grammar, root: Node, input: seq<Node>, chart: Chart)
    requires Fresh(g, root, input, chart)
    ensures AllJustified(g, root, input, chart) && Started(g, root, chart) && ProcessedUpTo(g, input, chart, 0, 0)
    ensures Traced(g, root, input, chart, 0, 0)
  {
    hide AllJustified, Started;
    FreshIsJustified(g, root, input, chart);
  }

  lemma ColumnDone(g: Grammar, root: Node, input: seq<Node>, chart: Chart, i: nat)
    requires i < |chart| && ProcessedUpTo(g, input, chart, i, |chart[i]|)
             && Traced(g, root, input, chart, i, |chart[i]|)
    ensures ProcessedUpTo(g, input, chart, i + 1, 0) && Traced(g, root, input, chart, i + 1, 0)
  {}

  lemma AllDone(g: Grammar, root: Node, input: seq<Node>, chart: Chart)
    requires AllJustified(g, root, input, chart) && ProcessedUpTo(g, input, chart, |input| + 1, 0)
             && Started(g, root, chart) && Traced(g, root, input, chart, |input| + 1, 0)
    ensures Parsed(g, root, input, chart)
  {
    hide Traced;
  }

  // Runs

  /** What holds at every position of a run. */
  ghost predicate OnTheWay(g: Grammar, root: Node, input: seq<Node>, s: Position) {
    if s.i <= |input| then Open(g, root, input, s.chart, s.i, s.j) else Parsed(g, root, input, s.chart)
  }

  lemma StepKeepsWay(g: Grammar, root: Node, input: seq<Node>, s: Position)
    requires g.NoEmptyProduction() && OnTheWay(g, root, input, s) && |s.chart| == |input| + 1
    ensures OnTheWay(g, root, input, Step(g, input, s))
  {
    hide AllJustified, Started, ProcessedUpTo, Traced, Turn;
    if s.i <= |input| {
      if s.j < |s.chart[s.i]| {
        TurnKeeps(g, root, input, s.chart, s.i, s.j);
      } else {
        ColumnDone(g, root, input, s.chart, s.i);
        if s.i == |input| {
          AllDone(g, root, input, s.chart);
        }
      }
    }
  }

  lemma {:induction false} StepsKeepWay(g: Grammar, root: Node, input: seq<Node>, s: Position, n: nat)
    requires g.NoEmptyProduction() && OnTheWay(g, root, input, s) && |s.chart| == |input| + 1
    ensures OnTheWay(g, root, input, Steps(g, input, s, n))
    decreases n
  {
    hide OnTheWay, Step;
    if n > 0 {
      StepKeepsWay(g, root, input, s);
      StepsKeepWay(g, root, input, Step(g, input, s), n - 1);
    }
  }

  lemma FreshIsOnTheWay(g: Grammar, root: Node, input: seq<Node>, chart: Chart)
    requires Fresh(g, root, input, chart)
    ensures |chart| == |input| + 1 && OnTheWay(g, root, input, Position(chart, 0, 0))
  {
    FreshIsOpen(g, root, input, chart);
  }

  class EarleyParser {
    const grammar: Grammar
    const inputVector: seq<Node>
    var chart: Chart

    constructor (g: Grammar, input: seq<Node>)
      ensures grammar == g && inputVector == input && chart == []
    {
      grammar, inputVector, chart := g, input, [];
    }

    method CreateChart(root: Node)
      requires chart == []
      modifies this`chart
      ensures Fresh(grammar, root, inputVector, chart)
    {
      chart := seq(|inputVector| + 1, _ => []);
      var expansions := grammar.GetProduction(root);
      for m := 0 to |expansions|
        invariant |chart| == |inputVector| + 1
        invariant chart[0] == InitialColumn(root, expansions)[..m]
        invariant forall c :: 1 <= c < |chart| ==> chart[c] == []
      {
        chart := chart[0 := chart[0] + [State(Item(root, expansions[m], 0, 0), [NoBack])]];
      }
    }

    /** The first state of column `i` with the same node, rule, origin and progress, or -1. */
    method StateExists(i: nat, x: Item) returns (r: int)
      requires i < |chart|
      ensures r == IndexOf(chart[i], x)
    {
      for p := 0 to |chart[i]|
        invariant forall q :: 0 <= q < p ==> chart[i][q].item != x
      {
        if chart[i][p].item == x {
          return p;
        }
      }
      return -1;
    }

    method Predictor(j: nat, i: nat)
      requires i < |chart| && j < |chart[i]|
      modifies this`chart
      ensures var x := old(chart[i][j].item);
              chart == if x.dot >= |x.rule.nodes| then old(chart)
                       else var n := x.rule.nodes[x.dot];
                            old(chart)[i := Predict(old(chart[i]), n, grammar.GetProduction(n), i, At(i, j))]
    {
      var x := chart[i][j].item;
      if x.dot >= |x.rule.nodes| {
        return;
      }
      var n := x.rule.nodes[x.dot];
      var list := grammar.GetProduction(n);
      ghost var col := chart[i];
      assert chart[i := col] == chart;
      for m := 0 to |list|
        invariant chart == old(chart)[i := Predict(col, n, list[..m], i, At(i, j))]
      {
        var item := Item(n, list[m], i, 0);
        var p := StateExists(i, item);
        if p < 0 {
          chart := chart[i := chart[i] + [State(item, [At(i, j)])]];
        } else {
          chart := chart[i := chart[i][p := chart[i][p].(back := chart[i][p].back + [At(i, j)])]];
        }
        assert list[..m + 1][..m] == list[..m];
      }
      assert list[..|list|] == list;
    }

    method Scanner(j: nat, i: nat)
      requires |chart| == |inputVector| + 1 && i < |chart| && j < |chart[i]|
      requires chart[i][j].item.dot < |chart[i][j].item.rule.nodes|
      modifies this`chart
      ensures var x := old(chart[i][j].item);
              chart == if i < |inputVector| && inputVector[i] == x.rule.nodes[x.dot]
                       then old(chart)[i + 1 := old(chart[i + 1]) + [State(Advance(x), [At(i, j)])]]
                       else old(chart)
    {
      if i >= |inputVector| {
        return;
      }
      var x := chart[i][j].item;
      if inputVector[i] == x.rule.nodes[x.dot] {
        chart := chart[i + 1 := chart[i + 1] + [State(Advance(x), [At(i, j)])]];
      }
    }

    /** Appending to the column that is being read is what an empty expansion would cause; it is excluded. */
    method Completer(j: nat, i: nat)
      requires i < |chart| && j < |chart[i]| && chart[i][j].item.origin != i
      modifies this`chart
      ensures var y := old(chart[i][j].item);
              chart == if y.origin >= |old(chart)| then old(chart)
                       else old(chart)[i := old(chart[i]) + Advances(old(chart[y.origin]), y.lhs, At(i, j))]
    {
      var y := chart[i][j].item;
      if y.origin >= |chart| {
        return;
      }
      ghost var col, from := chart[i], chart[y.origin];
      assert from[..0] == [];
      assert col + Advances(from[..0], y.lhs, At(i, j)) == col;
      for p := 0 to |chart[y.origin]|
        invariant |chart| == |old(chart)| && chart[y.origin] == from
        invariant chart == old(chart)[i := col + Advances(from[..p], y.lhs, At(i, j))]
      {
        assert from[..p + 1][..p] == from[..p];
        var t := chart[y.origin][p].item;
        AdvancesStep(col, from, p, y.lhs, At(i, j));
        if |t.rule.nodes| <= t.dot {
          continue;
        }
        if y.lhs == t.rule.nodes[t.dot] {
          chart := chart[i := chart[i] + [State(Advance(t), [At(i, j)])]];
        }
      }
      assert from[..|from|] == from;
    }

    /** The column loop and its growing worklist: a run of the machine to its end. */
    method Parse(ghost root: Node) returns (ghost turns: nat)
      requires grammar.NoEmptyProduction() && !Loops(grammar, root, inputVector)
      requires Fresh(grammar, root, inputVector, chart)
      modifies this`chart
      ensures Steps(grammar, inputVector, Position(old(chart), 0, 0), turns) == Position(chart, |inputVector| + 1, 0)
      ensures Parsed(grammar, root, inputVector, chart)
    {
      hide Loops, Parsed, Measured, StillPending, PoolLeft, Predict, Advances, AllJustified, ProcessedUpTo, Started,
           Traced, Steps;
      FreshIsOpen(grammar, root, inputVector, chart);
      ghost var start := Position(chart, 0, 0);
      turns := 0;
      NoSteps(grammar, inputVector, start);
      for i := 0 to |inputVector| + 1
        invariant |chart| == |inputVector| + 1 && AllJustified(grammar, root, inputVector, chart)
        invariant ProcessedUpTo(grammar, inputVector, chart, i, 0) && Started(grammar, root, chart)
        invariant Traced(grammar, root, inputVector, chart, i, 0)
        invariant Steps(grammar, inputVector, start, turns) == Position(chart, i, 0)
      {
        var j := 0;
        OpenIsMeasured(grammar, root, inputVector, chart, i, 0);
        while j < |chart[i]|
          invariant |chart| == |inputVector| + 1 && Open(grammar, root, inputVector, chart, i, j)
          invariant Measured(grammar, root, inputVector, chart, i, j)
          invariant Steps(grammar, inputVector, start, turns) == Position(chart, i, j)
          decreases PoolLeft(grammar, i, chart[i]), StillPending(grammar, root, inputVector, chart, i, j)
        {
          var x := chart[i][j].item;
          OpenState(grammar, root, inputVector, chart, i, j);
          TurnMeasure(grammar, root, inputVector, chart, i, j);
          OneMoreStep(grammar, inputVector, start, turns);
          turns := turns + 1;
          if !Complete(grammar, x) {
            var n := x.rule.nodes[x.dot];
            if |grammar.GetProduction(n)| != 0 {
              Predictor(j, i);
            } else {
              Scanner(j, i);
            }
          } else {
            Completer(j, i);
          }
          j := j + 1;
        }
        ColumnDone(grammar, root, inputVector, chart, i);
        OneMoreStep(grammar, inputVector, start, turns);
        turns := turns + 1;
      }
      AllDone(grammar, root, inputVector, chart);
    }

    /** The states of the last column from which trees are built. */
    method FinishedRoots(root: Node) returns (found: seq<nat>)
      requires |chart| == |inputVector| + 1
      ensures forall m, m' :: 0 <= m < m' < |found| ==> found[m] < found[m']
      ensures forall p :: p in found <==>
                && 0 <= p < |chart[|inputVector|]|
                && FinishedRoot(root, chart[|inputVector|][p].item)
      ensures found != [] <==> Accepts(root, inputVector, chart)
    {
      found := [];
      var col := chart[|inputVector|];
      for p := 0 to |col|
        invariant forall m, m' :: 0 <= m < m' < |found| ==> found[m] < found[m']
        invariant forall m :: 0 <= m < |found| ==> found[m] < p
        invariant forall q :: q in found <==> 0 <= q < p && FinishedRoot(root, col[q].item)
      {
        if col[p].item.lhs == root && col[p].item.dot == |col[p].item.rule.nodes| {
          found := found + [p];
        }
      }
      assert found != [] ==> found[0] in found;
    }
  }
}
