/** Where the guarantees of the parser end: acceptance without derivability, and exactly when the loops end. */
module EarleyLimits {
  import opened Grammars
  import opened Basics
  import opened EarleyChart
  import opened EarleyTermination
  import opened EarleyRuns
  import opened EarleyParsing
  import opened EarleyCounts

  // A word that is accepted although it is not derivable

  const S: Node := 0
  const A: Node := 1
  const B: Node := 2
  const C: Node := 3

  const NESTED := Expansion(1, [B, S, C])
  const LEAF := Expansion(2, [A])

  /** S is B S C or A. */
  const NESTING := Grammar({}, map[S := [NESTED, LEAF]])

  /** The word B A: its last token is an S that began in the middle. */
  lemma AcceptedButNotDerivable(chart: Chart)
    requires Parsed(NESTING, S, [B, A], chart)
    ensures Accepts(S, [B, A], chart) && !Derives(NESTING, [S], [B, A])
  {
    var g, input := NESTING, [B, A];
    assert g.GetProduction(S) == [NESTED, LEAF];
    assert g.Terminal(A) && g.Terminal(B) && g.Terminal(C);
    InnerIsAsked();
    InnerIsDerived();
    assert input[1..] == [A];
    AcceptsExactly(g, S, input, chart);
    if Derives(g, [S], input) {
      var d :| DerivedBy(g, d, [S], input);
      OuterIsTooLong(d);
    }
  }

  lemma NestingIsTaken()
    ensures NESTING.NoEmptyProduction() && !Loops(NESTING, S, [B, A])
  {
    assert NESTING.GetProduction(S) == [NESTED, LEAF];
    forall n | n != S ensures NESTING.GetProduction(n) == [] {}
    forall a, b | NESTING.UnitStep(a, b) ensures a == S && b == A {}
    forall p | |p| >= 2 && NESTING.UnitPath(p) ensures |p| == 2 && p[0] == S && p[1] == A {
      assert NESTING.UnitStep(p[0], p[1]);
      if |p| > 2 {
        SecondStep(NESTING, p);
      }
    }
    NoCycleNoLoop(NESTING, S, [B, A]);
  }

  lemma SecondStep(g: Grammar, p: seq<Node>)
    requires g.UnitPath(p) && |p| > 2
    ensures g.UnitStep(p[1], p[2])
  {}

  /** The parser takes this grammar and accepts the word. */
  method ParseNested() returns (valid: bool)
    ensures valid && !Derives(NESTING, [S], [B, A])
  {
    NestingIsTaken();
    var forest;
    ghost var trees;
    valid, forest, trees := Recognise(NESTING, S, [B, A]);
    NestedSuffix();
    forall d ensures !DerivedBy(NESTING, d, [S], [B, A]) {
      OuterIsTooLong(d);
    }
  }

  lemma NestedSuffix()
    ensures !NESTING.Terminal(S)
    ensures exists k :: 0 <= k <= |[B, A]| && Reachable(NESTING, S, [B, A], S, k) && Derives(NESTING, [S], [B, A][k..])
  {
    assert NESTING.GetProduction(S) == [NESTED, LEAF];
    InnerIsAsked();
    InnerIsDerived();
    assert [B, A][1..] == [A];
  }

  lemma InnerIsAsked()
    ensures Reachable(NESTING, S, [B, A], S, 1)
  {
    var before := Token(B, Done);
    assert NESTING.GetProduction(S) == [NESTED, LEAF];
    assert NESTED in NESTING.GetProduction(S) && NESTING.Terminal(B);
    assert ValidDerivation(NESTING, Done) && ValidDerivation(NESTING, before);
    assert Roots(before) == [B] && Yield(before) == [B];
    assert Reaches(NESTING, S, [B, A], Under(Top, S, NESTED, 0, before), S, 1);
  }

  lemma InnerIsDerived()
    ensures Derives(NESTING, [S], [A])
  {
    var d := Token(A, Done);
    assert NESTING.GetProduction(S) == [NESTED, LEAF];
    assert Roots(d) == [A] && Yield(d) == [A];
    assert DerivedBy(NESTING, d, LEAF.nodes, [A]);
    assert LEAF in NESTING.GetProduction(S);
    DerivesFromRule(NESTING, S, LEAF, [A]);
  }

  lemma OuterIsTooLong(d: Derivation)
    ensures !DerivedBy(NESTING, d, [S], [B, A])
  {
    if DerivedBy(NESTING, d, [S], [B, A]) {
      assert NESTING.GetProduction(S) == [NESTED, LEAF];
      assert Roots(d)[0] == S && |Roots(d.rest)| == 0;
      assert d.Expand? && d.rest == Done;
      assert Yield(d) == Yield(d.body);
      YieldIsLong(NESTING, d.body);
      assert d.rule == LEAF;
      OneToken(d.body);
    }
  }

  lemma OneToken(d: Derivation)
    requires ValidDerivation(NESTING, d) && Roots(d) == [A]
    ensures Yield(d) == [A]
  {
    assert Roots(d)[0] == A && |Roots(d.rest)| == 0;
    assert d.rest == Done;
  }

  // Without a loop the run ends

  ghost function Pool(g: Grammar, input: seq<Node>, s: Position): set<Item>
    requires |s.chart| == |input| + 1
  {
    if s.i <= |input| then PoolLeft(g, s.i, s.chart[s.i]) else {}
  }

  ghost function Worklist(g: Grammar, root: Node, input: seq<Node>, s: Position): nat {
    if Measured(g, root, input, s.chart, s.i, s.j) then StillPending(g, root, input, s.chart, s.i, s.j) else 0
  }

  lemma {:induction false} RunEnds(g: Grammar, root: Node, input: seq<Node>, s: Position) returns (n: nat)
    requires g.NoEmptyProduction() && !Loops(g, root, input) && OnTheWay(g, root, input, s) && |s.chart| == |input| + 1
    ensures Over(input, Steps(g, input, s, n))
    decreases |input| + 1 - s.i, Pool(g, input, s), Worklist(g, root, input, s)
  {
    hide Loops, Open, Turn, PoolLeft, Measured, StillPending, Parsed;
    if s.i > |input| {
      n := 0;
    } else {
      var s' := Step(g, input, s);
      StepKeepsWay(g, root, input, s);
      if s.j < |s.chart[s.i]| {
        TurnMeasure(g, root, input, s.chart, s.i, s.j);
      }
      var m := RunEnds(g, root, input, s');
      n := m + 1;
    }
  }

  // With a loop it does not

  /** `b` is the only node of an expansion of some node of `cycle`, and the column predicts that expansion. */
  ghost predicate Precedes(g: Grammar, column: Column, k: nat, cycle: set<Node>, b: Node) {
    exists a: Node, e: Expansion :: a in cycle && a !in g.sequences && e.nodes == [b]
      && HasItem(column, Item(a, e, k, 0))
  }

  ghost predicate CycleIn(g: Grammar, column: Column, k: nat, cycle: set<Node>) {
    forall b {:trigger Precedes(g, column, k, cycle, b)} :: b in cycle ==> Precedes(g, column, k, cycle, b)
  }

  /** A finished state of a node of the cycle that is still to be processed. */
  ghost predicate Waiting(g: Grammar, column: Column, j: nat, k: nat, cycle: set<Node>) {
    exists q :: j <= q < |column| && FinishedIn(column[q].item, k, cycle)
  }

  ghost predicate FinishedIn(x: Item, k: nat, cycle: set<Node>) {
    x.lhs in cycle && x.origin == k && x.dot == |x.rule.nodes|
  }

  /** No node of the cycle that began at `k` is finished in the column. */
  ghost predicate NoneFinished(column: Column, k: nat, cycle: set<Node>) {
    forall q :: 0 <= q < |column| ==> !FinishedIn(column[q].item, k, cycle)
  }

  /** Once a node of a unit cycle is finished in a later column than it was begun in, the run never leaves
      that column. */
  lemma {:induction false} UnitCycleNeverEnds(g: Grammar, input: seq<Node>, s: Position, k: nat, cycle: set<Node>,
                                              n: nat)
    requires |s.chart| == |input| + 1 && k < s.i <= |input|
    requires cycle !! g.sequences && CycleIn(g, s.chart[k], k, cycle) && Waiting(g, s.chart[s.i], s.j, k, cycle)
    ensures Steps(g, input, s, n).i == s.i
    decreases n
  {
    hide Turn, CycleIn, Waiting;
    if n > 0 {
      TurnKeepsWaiting(g, input, s.chart, s.i, s.j, k, cycle);
      UnitCycleNeverEnds(g, input, Step(g, input, s), k, cycle, n - 1);
    }
  }

  /** A column that the run has left does not change any more. */
  lemma {:induction false} ColumnsStay(g: Grammar, input: seq<Node>, s: Position, c: nat, n: nat)
    requires |s.chart| == |input| + 1 && c < s.i && c <= |input|
    ensures Steps(g, input, s, n).chart[c] == s.chart[c]
    decreases n
  {
    hide Turn;
    if n > 0 {
      if s.i <= |input| && s.j < |s.chart[s.i]| {
        TurnGrows(g, input, s.chart, s.i, s.j);
      }
      ColumnsStay(g, input, Step(g, input, s), c, n - 1);
    }
  }

  /** A run that gets past column `i` has finished no node of the cycle there. */
  lemma {:induction false} PastMeansNoneFinished(g: Grammar, input: seq<Node>, s: Position, i: nat, k: nat,
                                                 cycle: set<Node>, n: nat)
    requires |s.chart| == |input| + 1 && k < i <= |input| && s.i <= i && s.j <= |s.chart[s.i]|
    requires s.i == i ==> NoneFinished(s.chart[i], k, cycle)
    requires var f := Steps(g, input, s, n);
             f.i > i && cycle !! g.sequences && CycleIn(g, f.chart[k], k, cycle)
    ensures NoneFinished(Steps(g, input, s, n).chart[i], k, cycle)
    decreases n
  {
    hide Turn, CycleIn;
    var s' := Step(g, input, s);
    var f := Steps(g, input, s, n);
    assert n > 0 && f == Steps(g, input, s', n - 1);
    if s.j < |s.chart[s.i]| {
      TurnGrows(g, input, s.chart, s.i, s.j);
    }
    if s'.i > i {
      ColumnsStay(g, input, s', i, n - 1);
    } else if s'.i < i || NoneFinished(s'.chart[i], k, cycle) {
      PastMeansNoneFinished(g, input, s', i, k, cycle, n - 1);
    } else {
      ColumnsStay(g, input, s', k, n - 1);
      assert Waiting(g, s'.chart[i], s'.j, k, cycle);
      UnitCycleNeverEnds(g, input, s', k, cycle, n - 1);
    }
  }

  ghost function Nodes(p: seq<Node>): set<Node> {
    set b | b in p
  }

  lemma {:induction false} UnitStepsAreAsked(g: Grammar, root: Node, input: seq<Node>, p: seq<Node>, k: nat, m: nat)
    requires g.UnitPath(p) && m < |p| && Reachable(g, root, input, p[0], k) && k <= |input|
    ensures Reachable(g, root, input, p[m], k)
  {
    if m > 0 {
      UnitStepsAreAsked(g, root, input, p, k, m - 1);
      assert g.UnitStep(p[m - 1], p[m]);
      var e :| e in g.GetProduction(p[m - 1]) && e.nodes == [p[m]];
      var x := Item(p[m - 1], e, k, 0);
      NothingDerived(g, e.nodes, input, k);
      EnterRule(g, root, input, x, k, p[m]);
    }
  }

  /** A parsed chart predicts the whole cycle in the column where one of its nodes is asked for. */
  lemma CycleIsPredicted(g: Grammar, root: Node, input: seq<Node>, chart: Chart, a: Node, p: seq<Node>, k: nat)
    requires Parsed(g, root, input, chart) && g.UnitLeads(p, a, a) && Reachable(g, root, input, a, k) && k < |chart|
    ensures var cycle := Nodes(p);
            a in cycle && cycle !! g.sequences && CycleIn(g, chart[k], k, cycle)
  {
    hide Reachable, Parsed, Derives;
    ParsedLength(g, root, input, chart);
    var cycle := Nodes(p);
    forall b | b in cycle ensures b !in g.sequences && Precedes(g, chart[k], k, cycle, b) {
      var m :| 0 <= m < |p| && p[m] == b;
      var from, to := if m > 0 then m - 1 else |p| - 2, if m > 0 then m else |p| - 1;
      assert to == from + 1 && p[to] == b;
      assert g.UnitStep(p[from], p[to]);
      var e :| e in g.GetProduction(p[from]) && e.nodes == [b];
      UnitStepsAreAsked(g, root, input, p, k, from);
      NothingDerived(g, e.nodes, input, k);
      ChartIsExact(g, root, input, chart, Item(p[from], e, k, 0), k);
      assert p[from] in cycle;
      var next := if m < |p| - 1 then m else 0;
      assert p[next] == b && g.UnitStep(p[next], p[next + 1]);
    }
  }

  lemma ParsedLength(g: Grammar, root: Node, input: seq<Node>, chart: Chart)
    requires Parsed(g, root, input, chart)
    ensures |chart| == |input| + 1
  {}

  lemma CycleIsFinished(g: Grammar, root: Node, input: seq<Node>, chart: Chart, a: Node, p: seq<Node>, k: nat, i: nat)
    requires Parsed(g, root, input, chart) && LoopsAt(g, root, input, a, p, k, i)
    ensures |chart| == |input| + 1 && !NoneFinished(chart[i], k, Nodes(p))
  {
    hide Reachable, Parsed, Derives, Grammar.Terminal;
    ParsedLength(g, root, input, chart);
    assert g.UnitStep(p[0], p[1]);
    NotTerminal(g, a, p[1]);
    DerivesBySomeRule(g, a, input[k..i]);
    var e :| e in g.GetProduction(a) && Derives(g, e.nodes, input[k..i]);
    var x := Item(a, e, k, |e.nodes|);
    assert e.nodes[..x.dot] == e.nodes;
    ChartIsExact(g, root, input, chart, x, i);
    var q :| 0 <= q < |chart[i]| && chart[i][q].item == x;
    assert p[0] in p && FinishedIn(chart[i][q].item, k, Nodes(p));
  }

  lemma NotTerminal(g: Grammar, a: Node, b: Node)
    requires g.UnitStep(a, b)
    ensures !g.Terminal(a)
  {}

  /** A run that ends did not loop. */
  lemma LoopNeverEnds(g: Grammar, root: Node, input: seq<Node>, chart: Chart, a: Node, p: seq<Node>, k: nat, i: nat,
                      n: nat)
    requires g.NoEmptyProduction() && Fresh(g, root, input, chart) && LoopsAt(g, root, input, a, p, k, i)
    ensures !Over(input, Steps(g, input, Position(chart, 0, 0), n))
  {
    hide Reachable, Parsed, Derives, LoopsAt, Fresh, NoneFinished, CycleIn, Open;
    var s := Position(chart, 0, 0);
    FreshIsOnTheWay(g, root, input, chart);
    LoopBounds(g, root, input, a, p, k, i);
    StepsKeepWay(g, root, input, s, n);
    var f := Steps(g, input, s, n);
    if Over(input, f) {
      CycleIsPredicted(g, root, input, f.chart, a, p, k);
      CycleIsFinished(g, root, input, f.chart, a, p, k, i);
      PastMeansNoneFinished(g, input, s, i, k, Nodes(p), n);
    }
  }

  lemma LoopBounds(g: Grammar, root: Node, input: seq<Node>, a: Node, p: seq<Node>, k: nat, i: nat)
    requires LoopsAt(g, root, input, a, p, k, i)
    ensures k < i <= |input| && g.UnitLeads(p, a, a) && Reachable(g, root, input, a, k)
  {}

  /** The parser ends on an input exactly if no node that can be rewritten to itself by unit expansions is
      asked for somewhere and derives the input from there to a later position. */
  lemma EndsIff(g: Grammar, root: Node, input: seq<Node>, chart: Chart)
    requires g.NoEmptyProduction() && Fresh(g, root, input, chart)
    ensures Ends(g, input, Position(chart, 0, 0)) <==> !Loops(g, root, input)
  {
    hide OnTheWay, LoopsAt, Over;
    FreshIsOnTheWay(g, root, input, chart);
    if Loops(g, root, input) {
      var a, p, k, i :| LoopsAt(g, root, input, a, p, k, i);
      forall n ensures !Over(input, Steps(g, input, Position(chart, 0, 0), n)) {
        LoopNeverEnds(g, root, input, chart, a, p, k, i, n);
      }
    } else {
      var n := RunEnds(g, root, input, Position(chart, 0, 0));
    }
  }

  lemma TurnGrows(g: Grammar, input: seq<Node>, chart: Chart, i: nat, j: nat)
    requires |chart| == |input| + 1 && i < |chart| && j < |chart[i]|
    ensures var chart' := Turn(g, input, chart, i, j);
            Grows(chart[i], chart'[i]) && forall c :: 0 <= c < i ==> chart'[c] == chart[c]
  {
    var x := chart[i][j].item;
    if x.dot < |x.rule.nodes| {
      PredictGrows(chart[i], x.rule.nodes[x.dot], g.GetProduction(x.rule.nodes[x.dot]), i, At(i, j));
    }
  }

  lemma TurnKeepsWaiting(g: Grammar, input: seq<Node>, chart: Chart, i: nat, j: nat, k: nat, cycle: set<Node>)
    requires |chart| == |input| + 1 && k < i < |chart|
    requires cycle !! g.sequences && CycleIn(g, chart[k], k, cycle) && Waiting(g, chart[i], j, k, cycle)
    ensures j < |chart[i]|
    ensures var chart' := Turn(g, input, chart, i, j);
            chart'[k] == chart[k] && Waiting(g, chart'[i], j + 1, k, cycle)
  {
    hide Turn, CycleIn;
    var q :| j <= q < |chart[i]| && FinishedIn(chart[i][q].item, k, cycle);
    var chart': Chart := Turn(g, input, chart, i, j);
    TurnGrows(g, input, chart, i, j);
    if q > j {
      assert chart'[i][q].item == chart[i][q].item;
    } else {
      FinishedFeedsCycle(g, input, chart, i, j, k, cycle);
    }
  }

  /** Processing a finished node of the cycle finishes another one. */
  lemma FinishedFeedsCycle(g: Grammar, input: seq<Node>, chart: Chart, i: nat, j: nat, k: nat, cycle: set<Node>)
    requires |chart| == |input| + 1 && k < i < |chart| && j < |chart[i]|
    requires cycle !! g.sequences && CycleIn(g, chart[k], k, cycle) && FinishedIn(chart[i][j].item, k, cycle)
    ensures Waiting(g, Turn(g, input, chart, i, j)[i], j + 1, k, cycle)
  {
    hide Advances, Predict, CycleIn, Grammar.GetProduction, Grammar.Terminal;
    var y := chart[i][j].item;
    var x := NextInCycle(g, chart[k], k, cycle, y.lhs);
    var p :| 0 <= p < |chart[k]| && chart[k][p].item == x;
    var more := Advances(chart[k], y.lhs, At(i, j));
    AdvancesHasAll(chart[k], y.lhs, At(i, j), p);
    var r :| 0 <= r < |more| && more[r].item == Advance(x);
    var col: Column := Turn(g, input, chart, i, j)[i];
    assert y.lhs !in g.sequences;
    assert col == chart[i] + more;
    assert col[|chart[i]| + r] == more[r];
    assert FinishedIn(col[|chart[i]| + r].item, k, cycle);
  }

  lemma NextInCycle(g: Grammar, column: Column, k: nat, cycle: set<Node>, b: Node) returns (x: Item)
    requires CycleIn(g, column, k, cycle) && b in cycle
    ensures HasItem(column, x) && x.lhs in cycle && x.origin == k && x.dot == 0 && x.rule.nodes == [b]
  {
    assert Precedes(g, column, k, cycle, b);
    var a: Node, e: Expansion :| a in cycle && a !in g.sequences && e.nodes == [b] && HasItem(column, Item(a, e, k, 0));
    x := Item(a, e, k, 0);
  }

  const LOOP := Expansion(3, [S])

  /** S is S or A. */
  const LOOPING := Grammar({}, map[S := [LOOP, LEAF]])

  /** The smallest grammar with a unit cycle: the parser ends on the empty input and not on A. */
  lemma SmallestLoop(empty: Chart, one: Chart)
    requires Fresh(LOOPING, S, [], empty) && Fresh(LOOPING, S, [A], one)
    ensures Ends(LOOPING, [], Position(empty, 0, 0)) && !Ends(LOOPING, [A], Position(one, 0, 0))
  {
    hide Ends;
    var g := LOOPING;
    assert g.GetProduction(S) == [LOOP, LEAF] && g.Terminal(A);
    forall n | n != S ensures g.GetProduction(n) == [] {}
    EndsIff(g, S, [], empty);
    EndsIff(g, S, [A], one);
    assert g.UnitStep(S, S) && g.UnitLeads([S, S], S, S);
    assert Reaches(g, S, [A], Top, S, 0);
    var d := Token(A, Done);
    assert ValidDerivation(g, Done) && Roots(d) == [A] && Yield(d) == [A];
    assert DerivedBy(g, d, LEAF.nodes, [A]);
    assert LEAF in g.GetProduction(S);
    DerivesFromRule(g, S, LEAF, [A]);
    assert [A][0..1] == [A];
    assert LoopsAt(g, S, [A], S, [S, S], 0, 1);
  }
}
