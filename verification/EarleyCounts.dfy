/** How often a state is in its column. Duplicates of finished states are not looked for, so that each state
    stands for one derivation of what it has covered, and each derivation for one state. */
module EarleyCounts {
  import opened Grammars
  import opened EarleyChart
  import opened EarleyTermination
  import opened EarleyRuns
  import opened EarleyParsing

  /** A state, and the derivation of the nodes before its dot that it stands for. */
  datatype Entry = Entry(item: Item, tree: Derivation)

  type Row = seq<Entry>

  ghost predicate Matches(col: Column, row: Row) {
    |row| == |col| && forall p :: 0 <= p < |col| ==> row[p].item == col[p].item
  }

  ghost predicate AllMatch(chart: Chart, rows: seq<Row>) {
    |rows| == |chart| && forall c :: 0 <= c < |chart| ==> Matches(chart[c], rows[c])
  }

  predicate NoRepeats<T(==)>(s: seq<T>) {
    forall p, q :: 0 <= p < q < |s| ==> s[p] != s[q]
  }

  ghost predicate Fits(g: Grammar, input: seq<Node>, w: Entry, c: nat) {
    var x := w.item;
    && x.rule in g.GetProduction(x.lhs) && x.dot <= |x.rule.nodes| && x.origin <= c <= |input|
    && DerivedBy(g, w.tree, x.rule.nodes[..x.dot], input[x.origin..c])
  }

  predicate Whole(x: Item) {
    x.dot == |x.rule.nodes|
  }

  /** The entry `w` moved over the token `n`. */
  function Shifted(w: Entry, n: Node): Entry {
    Entry(Advance(w.item), Concat(w.tree, Token(n, Done)))
  }

  /** The entry `w` moved over the node that the finished entry `y` derives. */
  function Joined(w: Entry, y: Entry): Entry {
    Entry(Advance(w.item), Concat(w.tree, Expand(y.item.lhs, y.item.rule, y.tree, Done)))
  }

  /** The entries of row `c` that are processed before the turn on entry `j` of row `i`. */
  function Front(rows: seq<Row>, i: nat, j: nat, c: nat): Row
    requires c < |rows| && (i < |rows| ==> j <= |rows[i]|)
  {
    if c < i then rows[c] else if c == i then rows[c][..j] else []
  }

  /** Whatever a processed entry moves is there. */
  ghost predicate Closed(g: Grammar, input: seq<Node>, rows: seq<Row>, c: nat, w: Entry)
    requires |rows| == |input| + 1 && c < |rows|
  {
    if Whole(w.item) then
      && w.item.origin < c
      && forall v :: v in rows[w.item.origin] && Expects(v.item, w.item.lhs) ==> Joined(v, w) in rows[c]
    else
      w.item.dot < |w.item.rule.nodes| && var n := w.item.rule.nodes[w.item.dot];
      g.Terminal(n) && c < |input| && input[c] == n ==> Shifted(w, n) in rows[c + 1]
  }

  ghost predicate FromToken(rows: seq<Row>, i: nat, j: nat, c: nat, z: Entry)
    requires c < |rows| && (i < |rows| ==> j <= |rows[i]|)
  {
    c > 0 && exists w, n :: w in Front(rows, i, j, c - 1) && z == Shifted(w, n)
  }

  ghost predicate FromNode(rows: seq<Row>, i: nat, j: nat, c: nat, z: Entry)
    requires c < |rows| && (i < |rows| ==> j <= |rows[i]|)
  {
    exists w, y :: y in Front(rows, i, j, c) && Whole(y.item) && y.item.origin < c && w in rows[y.item.origin]
      && z == Joined(w, y)
  }

  /** An entry that has moved was moved by a processed entry. */
  ghost predicate Explained(rows: seq<Row>, i: nat, j: nat, c: nat, z: Entry)
    requires c < |rows| && (i < |rows| ==> j <= |rows[i]|)
  {
    z.item.dot > 0 ==> FromToken(rows, i, j, c, z) || FromNode(rows, i, j, c, z)
  }

  /** The rows label the states of the chart with different derivations. */
  ghost predicate Labelled(g: Grammar, input: seq<Node>, chart: Chart, rows: seq<Row>, i: nat, j: nat) {
    && AllMatch(chart, rows) && |chart| == |input| + 1 && (i < |rows| ==> j <= |rows[i]|)
    && (forall c {:trigger rows[c]} :: 0 <= c < |rows| ==> NoRepeats(rows[c]))
    && (forall c, w :: 0 <= c < |rows| && w in rows[c] ==> Fits(g, input, w, c))
    && (forall c, w {:trigger Closed(g, input, rows, c, w)} ::
          0 <= c < |rows| && w in Front(rows, i, j, c) ==> Closed(g, input, rows, c, w))
    && (forall c, z {:trigger Explained(rows, i, j, c, z)} ::
          0 <= c < |rows| && z in rows[c] ==> Explained(rows, i, j, c, z))
  }

  // What derivations are joined from

  lemma {:induction false} SameConcat(d: Derivation, d': Derivation, f: Derivation, f': Derivation)
    requires !f.Done? && !f'.Done? && f.rest == f'.rest == Done
    requires Concat(d, f) == Concat(d', f')
    ensures d == d' && f == f'
  {
    if !d.Done? && !d'.Done? {
      SameConcat(d.rest, d'.rest, f, f');
    }
  }

  lemma {:induction false} ConcatDone(d: Derivation)
    ensures Concat(d, Done) == d
  {
    if !d.Done? {
      ConcatDone(d.rest);
    }
  }

  lemma {:induction false} ConcatMore(d: Derivation, e: Derivation, f: Derivation)
    ensures Concat(Concat(d, e), f) == Concat(d, Concat(e, f))
  {
    if !d.Done? {
      ConcatMore(d.rest, e, f);
    }
  }

  lemma ShiftedFits(g: Grammar, input: seq<Node>, w: Entry, c: nat)
    requires Fits(g, input, w, c) && c < |input| && Expects(w.item, input[c]) && g.Terminal(input[c])
    ensures Fits(g, input, Shifted(w, input[c]), c + 1)
  {
    var x, n := w.item, input[c];
    ConcatDerives(g, w.tree, Token(n, Done));
    assert x.rule.nodes[..x.dot] + [n] == x.rule.nodes[..x.dot + 1];
    assert input[x.origin..c] + [n] == input[x.origin..c + 1];
  }

  lemma JoinedFits(g: Grammar, input: seq<Node>, w: Entry, y: Entry, c: nat)
    requires Fits(g, input, y, c) && Whole(y.item) && Fits(g, input, w, y.item.origin) && Expects(w.item, y.item.lhs)
    ensures Fits(g, input, Joined(w, y), c)
  {
    var x, n := w.item, y.item.lhs;
    var f := Expand(n, y.item.rule, y.tree, Done);
    assert y.item.rule.nodes[..y.item.dot] == y.item.rule.nodes;
    assert Roots(f) == [n] && Yield(f) == Yield(y.tree);
    ConcatDerives(g, w.tree, f);
    assert x.rule.nodes[..x.dot] + [n] == x.rule.nodes[..x.dot + 1];
    assert input[x.origin..y.item.origin] + input[y.item.origin..c] == input[x.origin..c];
  }

  /** Different pairs are joined to different entries. */
  lemma JoinedIsInjective(g: Grammar, input: seq<Node>, w: Entry, y: Entry, w': Entry, y': Entry, c: nat)
    requires Fits(g, input, y, c) && Whole(y.item) && Fits(g, input, w, y.item.origin)
    requires Fits(g, input, y', c) && Whole(y'.item) && Fits(g, input, w', y'.item.origin)
    requires Joined(w, y) == Joined(w', y')
    ensures w == w' && y == y'
  {
    assert Advance(w.item).(dot := w.item.dot) == w.item;
    assert Advance(w'.item).(dot := w'.item.dot) == w'.item;
    SameConcat(w.tree, w'.tree, Expand(y.item.lhs, y.item.rule, y.tree, Done),
               Expand(y'.item.lhs, y'.item.rule, y'.tree, Done));
    assert |Yield(w.tree)| == y.item.origin - w.item.origin && |Yield(w'.tree)| == y'.item.origin - w'.item.origin;
  }

  lemma ShiftedIsInjective(w: Entry, n: Node, w': Entry, n': Node)
    requires Shifted(w, n) == Shifted(w', n')
    ensures w == w'
  {
    assert Advance(w.item).(dot := w.item.dot) == w.item;
    assert Advance(w'.item).(dot := w'.item.dot) == w'.item;
    SameConcat(w.tree, w'.tree, Token(n, Done), Token(n', Done));
  }

  lemma ShiftedIsNotJoined(w: Entry, n: Node, w': Entry, y: Entry)
    ensures Shifted(w, n) != Joined(w', y)
  {
    if Shifted(w, n) == Joined(w', y) {
      SameConcat(w.tree, w'.tree, Token(n, Done), Expand(y.item.lhs, y.item.rule, y.tree, Done));
    }
  }

  // One turn

  lemma FrontGrows(rows: seq<Row>, i: nat, j: nat, k: nat, ext: Row, c: nat, w: Entry)
    requires i < |rows| && j < |rows[i]| && c < |rows| && k < |rows| && i <= k
    ensures var rows' := rows[k := rows[k] + ext];
            && (w in Front(rows, i, j, c) ==> w in Front(rows', i, j + 1, c))
            && (w in Front(rows', i, j + 1, c) ==> w in Front(rows, i, j, c) || (c == i && w == rows[i][j]))
            && (w in rows[c] ==> w in rows'[c])
            && (w in Front(rows', i, j + 1, c) ==> w in rows[c])
  {
    var rows' := rows[k := rows[k] + ext];
    if c == i {
      assert rows'[i][..j + 1] == rows[i][..j] + [rows[i][j]];
    }
  }

  lemma ExplainedGrows(rows: seq<Row>, i: nat, j: nat, k: nat, ext: Row, c: nat, z: Entry)
    requires i < |rows| && j < |rows[i]| && c < |rows| && k < |rows| && i <= k && Explained(rows, i, j, c, z)
    ensures var rows' := rows[k := rows[k] + ext]; Explained(rows', i, j + 1, c, z)
  {
    hide Front;
    var rows' := rows[k := rows[k] + ext];
    if z.item.dot > 0 {
      if FromToken(rows, i, j, c, z) {
        var w, n :| w in Front(rows, i, j, c - 1) && z == Shifted(w, n);
        FrontGrows(rows, i, j, k, ext, c - 1, w);
        assert FromToken(rows', i, j + 1, c, z);
      } else {
        var w, y :| y in Front(rows, i, j, c) && Whole(y.item) && y.item.origin < c && w in rows[y.item.origin]
          && z == Joined(w, y);
        FrontGrows(rows, i, j, k, ext, c, y);
        FrontGrows(rows, i, j, k, ext, y.item.origin, w);
        assert FromNode(rows', i, j + 1, c, z);
      }
    }
  }

  lemma ClosedGrows(g: Grammar, input: seq<Node>, rows: seq<Row>, k: nat, ext: Row, c: nat, w: Entry)
    requires |rows| == |input| + 1 && c < |rows| && k < |rows| && c <= k && Closed(g, input, rows, c, w)
    ensures Closed(g, input, rows[k := rows[k] + ext], c, w)
  {}

  /** A turn that appends entries which are new, valid and explained. */
  lemma Extend(g: Grammar, input: seq<Node>, chart: Chart, rows: seq<Row>, chart': Chart, i: nat, j: nat, k: nat,
               ext: Row)
    requires Labelled(g, input, chart, rows, i, j) && i < |rows| && j < |rows[i]| && k < |rows| && i <= k
    requires var rows' := rows[k := rows[k] + ext];
             && AllMatch(chart', rows') && NoRepeats(rows'[k])
             && (forall w :: w in ext ==> Fits(g, input, w, k) && Explained(rows', i, j + 1, k, w))
             && Closed(g, input, rows', i, rows[i][j])
    ensures Labelled(g, input, chart', rows[k := rows[k] + ext], i, j + 1)
  {
    hide Fits, Front, Closed, Explained, Matches, NoRepeats;
    var rows' := rows[k := rows[k] + ext];
    forall c, w | 0 <= c < |rows'| && w in rows'[c] ensures Fits(g, input, w, c) && Explained(rows', i, j + 1, c, w) {
      if w in rows[c] {
        ExplainedGrows(rows, i, j, k, ext, c, w);
      }
    }
    forall c, w | 0 <= c < |rows'| && w in Front(rows', i, j + 1, c) ensures Closed(g, input, rows', c, w) {
      FrontGrows(rows, i, j, k, ext, c, w);
      if w in Front(rows, i, j, c) {
        FrontIsEarly(rows, i, j, c, w);
        ClosedGrows(g, input, rows, k, ext, c, w);
      }
    }
  }

  lemma FrontIsEarly(rows: seq<Row>, i: nat, j: nat, c: nat, w: Entry)
    requires c < |rows| && (i < |rows| ==> j <= |rows[i]|) && w in Front(rows, i, j, c)
    ensures c <= i && w in rows[c]
  {}

  // The three kinds of turns

  /** The entries that a prediction adds. */
  lemma {:induction false} PredictedRow(g: Grammar, input: seq<Node>, col: Column, row: Row, b: Node,
                                        list: seq<Expansion>, i: nat, from: Back)
    returns (ext: Row)
    requires Matches(col, row) && NoRepeats(row) && i <= |input| && (forall w :: w in row ==> Fits(g, input, w, i))
    requires forall e :: e in list ==> e in g.GetProduction(b)
    ensures Matches(Predict(col, b, list, i, from), row + ext) && NoRepeats(row + ext)
    ensures forall w :: w in ext ==> w.item.dot == 0 && Fits(g, input, w, i)
  {
    hide NoRepeats, Fits;
    if list == [] {
      ext := [];
      assert row + ext == row;
    } else {
      var last := |list| - 1;
      var front := PredictedRow(g, input, col, row, b, list[..last], i, from);
      var before, x := Predict(col, b, list[..last], i, from), Item(b, list[last], i, 0);
      if IndexOf(before, x) >= 0 {
        ext := front;
      } else {
        var z := Entry(x, Done);
        ext := front + [z];
        assert row + ext == (row + front) + [z];
        OneMoreEntry(row + front, z);
        DoneFits(g, input, x, i);
      }
    }
  }

  lemma OneMoreEntry(row: Row, z: Entry)
    requires NoRepeats(row) && z !in row
    ensures NoRepeats(row + [z])
  {}

  lemma DoneFits(g: Grammar, input: seq<Node>, x: Item, i: nat)
    requires x.rule in g.GetProduction(x.lhs) && x.dot == 0 && x.origin == i <= |input|
    ensures Fits(g, input, Entry(x, Done), i)
  {}

  lemma PredictLabels(g: Grammar, input: seq<Node>, chart: Chart, rows: seq<Row>, i: nat, j: nat, n: Node)
    returns (rows': seq<Row>)
    requires Labelled(g, input, chart, rows, i, j) && i < |chart| && j < |chart[i]| && Expects(chart[i][j].item, n)
             && !g.Terminal(n)
    ensures Labelled(g, input, chart[i := Predict(chart[i], n, g.GetProduction(n), i, At(i, j))], rows', i, j + 1)
  {
    var chart' := chart[i := Predict(chart[i], n, g.GetProduction(n), i, At(i, j))];
    assert Matches(chart[i], rows[i]);
    var ext := PredictedRow(g, input, chart[i], rows[i], n, g.GetProduction(n), i, At(i, j));
    rows' := rows[i := rows[i] + ext];
    assert Closed(g, input, rows', i, rows[i][j]);
    hide Fits, Closed, NoRepeats, Front, FromToken, FromNode, Predict;
    Extend(g, input, chart, rows, chart', i, j, i, ext);
  }

  lemma ScanLabels(g: Grammar, input: seq<Node>, chart: Chart, rows: seq<Row>, i: nat, j: nat, n: Node)
    returns (rows': seq<Row>)
    requires Labelled(g, input, chart, rows, i, j) && i < |input| && j < |chart[i]|
    requires Expects(chart[i][j].item, n) && g.Terminal(n) && input[i] == n
    ensures Labelled(g, input, chart[i + 1 := chart[i + 1] + [State(Advance(chart[i][j].item), [At(i, j)])]], rows', i,
                     j + 1)
  {
    var chart' := chart[i + 1 := chart[i + 1] + [State(Advance(chart[i][j].item), [At(i, j)])]];
    assert Matches(chart[i], rows[i]) && Matches(chart[i + 1], rows[i + 1]);
    var w := rows[i][j];
    var z := Shifted(w, n);
    rows' := rows[i + 1 := rows[i + 1] + [z]];
    assert w in rows[i];
    ShiftedFits(g, input, w, i);
    NewShifted(g, input, chart, rows, i, j, n);
    assert w == rows'[i][..j + 1][j];
    assert w in Front(rows', i, j + 1, i);
    assert FromToken(rows', i, j + 1, i + 1, z);
    assert z in rows'[i + 1];
    hide Fits, NoRepeats, Front, FromToken, FromNode;
    OneMoreEntry(rows[i + 1], z);
    Extend(g, input, chart, rows, chart', i, j, i + 1, [z]);
  }

  lemma NewShifted(g: Grammar, input: seq<Node>, chart: Chart, rows: seq<Row>, i: nat, j: nat, n: Node)
    requires Labelled(g, input, chart, rows, i, j) && i + 1 < |rows| && j < |rows[i]|
    ensures Shifted(rows[i][j], n) !in rows[i + 1]
  {
    hide Fits, Closed;
    assert NoRepeats(rows[i]);
    var z := Shifted(rows[i][j], n);
    if z in rows[i + 1] {
      assert Explained(rows, i, j, i + 1, z);
      if FromToken(rows, i, j, i + 1, z) {
        var w, m :| w in Front(rows, i, j, i) && z == Shifted(w, m);
        ShiftedIsInjective(rows[i][j], n, w, m);
      }
    }
  }

  /** The entries that the completion of `y` adds: all that wait for it, each joined with it. */
  function JoinedRow(from: Row, y: Entry): Row {
    if from == [] then []
    else
      var last := |from| - 1;
      JoinedRow(from[..last], y) + if Expects(from[last].item, y.item.lhs) then [Joined(from[last], y)] else []
  }

  lemma {:induction false} JoinedRowMatches(col: Column, from: Row, y: Entry, b: Back)
    requires Matches(col, from)
    ensures Matches(Advances(col, y.item.lhs, b), JoinedRow(from, y))
  {
    if from != [] {
      JoinedRowMatches(col[..|col| - 1], from[..|from| - 1], y, b);
    }
  }

  lemma {:induction false} JoinedRowHas(from: Row, y: Entry, z: Entry)
    ensures z in JoinedRow(from, y) <==> exists w :: w in from && Expects(w.item, y.item.lhs) && z == Joined(w, y)
  {
    if from != [] {
      var last := |from| - 1;
      JoinedRowHas(from[..last], y, z);
      if w :| w in from && Expects(w.item, y.item.lhs) && z == Joined(w, y) {
        assert w in from[..last] || w == from[last];
      }
    }
  }

  lemma {:induction false} JoinedRowIsNew(g: Grammar, input: seq<Node>, row: Row, from: Row, y: Entry, c: nat)
    requires NoRepeats(from) && NoRepeats(row) && Fits(g, input, y, c) && Whole(y.item)
    requires forall w :: w in from ==> Fits(g, input, w, y.item.origin) && Joined(w, y) !in row
    ensures NoRepeats(row + JoinedRow(from, y))
  {
    hide Fits;
    if from == [] {
      assert row + JoinedRow(from, y) == row;
    } else {
      var last := |from| - 1;
      var front, w := JoinedRow(from[..last], y), from[last];
      JoinedRowIsNew(g, input, row, from[..last], y, c);
      if Expects(w.item, y.item.lhs) {
        var z := Joined(w, y);
        assert row + JoinedRow(from, y) == (row + front) + [z];
        if z in front {
          JoinedRowHas(from[..last], y, z);
          var v :| v in from[..last] && z == Joined(v, y);
          JoinedIsInjective(g, input, w, y, v, y, c);
        }
        OneMoreEntry(row + front, z);
      } else {
        assert JoinedRow(from, y) == front;
      }
    }
  }

  lemma NewJoined(g: Grammar, input: seq<Node>, chart: Chart, rows: seq<Row>, i: nat, j: nat, w: Entry)
    requires Labelled(g, input, chart, rows, i, j) && i < |rows| && j < |rows[i]|
    requires Whole(rows[i][j].item) && rows[i][j].item.origin < i && w in rows[rows[i][j].item.origin]
    ensures Joined(w, rows[i][j]) !in rows[i]
  {
    hide Fits, Closed;
    assert NoRepeats(rows[i]);
    var y := rows[i][j];
    var z := Joined(w, y);
    if z in rows[i] {
      assert Explained(rows, i, j, i, z);
      if FromToken(rows, i, j, i, z) {
        var v, m :| v in Front(rows, i, j, i - 1) && z == Shifted(v, m);
        ShiftedIsNotJoined(v, m, w, y);
      } else {
        var v, y' :| y' in Front(rows, i, j, i) && Whole(y'.item) && y'.item.origin < i && v in rows[y'.item.origin]
          && z == Joined(v, y');
        assert y' in rows[i];
        JoinedIsInjective(g, input, w, y, v, y', i);
      }
    }
  }

  lemma CompleteLabels(g: Grammar, input: seq<Node>, chart: Chart, rows: seq<Row>, i: nat, j: nat)
    returns (rows': seq<Row>)
    requires Labelled(g, input, chart, rows, i, j) && i < |chart| && j < |chart[i]|
    requires Whole(chart[i][j].item) && chart[i][j].item.origin < i
    ensures var y := chart[i][j].item;
            Labelled(g, input, chart[i := chart[i] + Advances(chart[y.origin], y.lhs, At(i, j))], rows', i, j + 1)
  {
    hide Fits, NoRepeats, Advances, JoinedRow;
    assert Matches(chart[i], rows[i]);
    var y, o := rows[i][j], rows[i][j].item.origin;
    var chart' := chart[i := chart[i] + Advances(chart[o], y.item.lhs, At(i, j))];
    var ext := JoinedRow(rows[o], y);
    rows' := rows[i := rows[i] + ext];
    assert y in rows[i] && rows'[o] == rows[o];
    forall w | w in rows[o] ensures Joined(w, y) !in rows[i] {
      NewJoined(g, input, chart, rows, i, j, w);
    }
    JoinedRowIsNew(g, input, rows[i], rows[o], y, i);
    assert Matches(chart[o], rows[o]);
    JoinedRowMatches(chart[o], rows[o], y, At(i, j));
    assert y == rows'[i][..j + 1][j];
    forall z | z in ext ensures Fits(g, input, z, i) && Explained(rows', i, j + 1, i, z) {
      JoinedRowHas(rows[o], y, z);
      var w :| w in rows[o] && Expects(w.item, y.item.lhs) && z == Joined(w, y);
      JoinedFits(g, input, w, y, i);
      assert y in Front(rows', i, j + 1, i);
      assert FromNode(rows', i, j + 1, i, z);
    }
    forall v | v in rows'[o] && Expects(v.item, y.item.lhs) ensures Joined(v, y) in rows'[i] {
      JoinedRowHas(rows[o], y, Joined(v, y));
    }
    assert Closed(g, input, rows', i, y);
    hide Closed, Front, FromToken, FromNode;
    Extend(g, input, chart, rows, chart', i, j, i, ext);
  }

  /** Nothing happens. */
  lemma IdleLabels(g: Grammar, input: seq<Node>, chart: Chart, rows: seq<Row>, i: nat, j: nat)
    requires Labelled(g, input, chart, rows, i, j) && i < |rows| && j < |rows[i]|
             && Closed(g, input, rows, i, rows[i][j])
    ensures Labelled(g, input, chart, rows, i, j + 1)
  {
    hide Fits, NoRepeats, Front, FromToken, FromNode, Closed;
    assert rows[i] + [] == rows[i];
    assert rows[i := rows[i] + []] == rows;
    Extend(g, input, chart, rows, chart, i, j, i, []);
  }

  lemma TurnLabels(g: Grammar, root: Node, input: seq<Node>, chart: Chart, rows: seq<Row>, i: nat, j: nat)
    returns (rows': seq<Row>)
    requires g.NoEmptyProduction() && Open(g, root, input, chart, i, j) && j < |chart[i]|
             && Labelled(g, input, chart, rows, i, j)
    ensures Labelled(g, input, Turn(g, input, chart, i, j), rows', i, j + 1)
  {
    hide Fits, NoRepeats, Front, FromToken, FromNode, Predict, Advances, ProcessedUpTo, Started;
    StateAt(g, root, input, chart, i, j);
    assert Matches(chart[i], rows[i]);
    var x := chart[i][j].item;
    if !Complete(g, x) {
      var n := x.rule.nodes[x.dot];
      if !g.Terminal(n) {
        rows' := PredictLabels(g, input, chart, rows, i, j, n);
      } else if i < |input| && input[i] == n {
        rows' := ScanLabels(g, input, chart, rows, i, j, n);
      } else {
        rows' := rows;
        IdleLabels(g, input, chart, rows, i, j);
      }
    } else {
      rows' := CompleteLabels(g, input, chart, rows, i, j);
    }
  }

  // Whole runs

  lemma FreshLabels(g: Grammar, root: Node, input: seq<Node>, chart: Chart) returns (rows: seq<Row>)
    requires Fresh(g, root, input, chart) && NoRepeats(g.GetProduction(root))
    ensures Labelled(g, input, chart, rows, 0, 0)
  {
    var list := g.GetProduction(root);
    var row: Row := seq(|list|, p requires 0 <= p < |list| => Entry(Item(root, list[p], 0, 0), Done));
    rows := seq(|chart|, c => if c == 0 then row else []);
    forall w | w in row ensures Fits(g, input, w, 0) {
      DoneFits(g, input, w.item, 0);
    }
    assert NoRepeats(row) && NoRepeats<Entry>([]);
  }

  lemma NextColumn(g: Grammar, input: seq<Node>, chart: Chart, rows: seq<Row>, i: nat)
    requires i < |rows| && Labelled(g, input, chart, rows, i, |rows[i]|)
    ensures Labelled(g, input, chart, rows, i + 1, 0)
  {
    hide Fits, NoRepeats, Closed, Matches;
    assert forall c :: 0 <= c < |rows| ==> Front(rows, i, |rows[i]|, c) == Front(rows, i + 1, 0, c);
    forall c, z | 0 <= c < |rows| && z in rows[c] ensures Explained(rows, i + 1, 0, c, z) {
      assert Explained(rows, i, |rows[i]|, c, z);
    }
  }

  lemma {:induction false} RunLabels(g: Grammar, root: Node, input: seq<Node>, chart: Chart, n: nat)
    returns (rows: seq<Row>)
    requires g.NoEmptyProduction() && Fresh(g, root, input, chart) && NoRepeats(g.GetProduction(root))
    ensures var s := Steps(g, input, Position(chart, 0, 0), n);
            && OnTheWay(g, root, input, s) && s.i <= |input| + 1
            && Labelled(g, input, s.chart, rows, s.i, s.j)
  {
    hide Labelled, Open, Parsed, Turn, NoRepeats, Fresh;
    FreshIsOnTheWay(g, root, input, chart);
    if n == 0 {
      rows := FreshLabels(g, root, input, chart);
    } else {
      var before := RunLabels(g, root, input, chart, n - 1);
      var s := Steps(g, input, Position(chart, 0, 0), n - 1);
      OneMoreStep(g, input, Position(chart, 0, 0), n - 1);
      StepKeepsWay(g, root, input, s);
      rows := StepLabels(g, root, input, s, before);
    }
  }

  lemma StepLabels(g: Grammar, root: Node, input: seq<Node>, s: Position, rows: seq<Row>) returns (rows': seq<Row>)
    requires g.NoEmptyProduction() && |s.chart| == |input| + 1 && OnTheWay(g, root, input, s) && s.i <= |input| + 1
    requires Labelled(g, input, s.chart, rows, s.i, s.j)
    ensures var t := Step(g, input, s); t.i <= |input| + 1 && Labelled(g, input, t.chart, rows', t.i, t.j)
  {
    hide Fits, NoRepeats, Closed, Explained, Front, Turn, AllJustified, ProcessedUpTo, Started;
    rows' := rows;
    if s.i <= |input| {
      assert Matches(s.chart[s.i], rows[s.i]);
      if s.j < |s.chart[s.i]| {
        rows' := TurnLabels(g, root, input, s.chart, rows, s.i, s.j);
      } else {
        NextColumn(g, input, s.chart, rows, s.i);
      }
    }
  }

  // A parsed chart and its labels

  ghost predicate AllLabelled(g: Grammar, root: Node, input: seq<Node>, chart: Chart, rows: seq<Row>) {
    Parsed(g, root, input, chart) && Labelled(g, input, chart, rows, |input| + 1, 0)
  }

  lemma HasEntry(g: Grammar, root: Node, input: seq<Node>, chart: Chart, rows: seq<Row>, x: Item, i: nat)
    returns (d: Derivation)
    requires AllLabelled(g, root, input, chart, rows) && i < |chart| && HasItem(chart[i], x)
    ensures Entry(x, d) in rows[i] && Fits(g, input, Entry(x, d), i)
    ensures x.dot == 0 ==> d == Done
  {
    hide Parsed, Closed, Explained, NoRepeats;
    assert Matches(chart[i], rows[i]);
    var p :| 0 <= p < |chart[i]| && chart[i][p].item == x;
    d := rows[i][p].tree;
    assert rows[i][p] == Entry(x, d) && rows[i][p] in rows[i];
  }

  lemma EntryIsThere(g: Grammar, root: Node, input: seq<Node>, chart: Chart, rows: seq<Row>, w: Entry, i: nat)
    requires AllLabelled(g, root, input, chart, rows) && i < |rows| && w in rows[i]
    ensures |rows| == |chart| == |input| + 1 && HasItem(chart[i], w.item) && Fits(g, input, w, i)
            && Closed(g, input, rows, i, w)
  {
    hide Parsed, Fits, Closed, Explained, NoRepeats;
    assert Matches(chart[i], rows[i]);
    assert w in Front(rows, |input| + 1, 0, i);
  }

  /** The entry `w` moved over all that `d` derives. */
  function MovedOver(w: Entry, d: Derivation): Entry {
    Entry(Moved(w.item, |Roots(d)|), Concat(w.tree, d))
  }

  lemma OverNothing(w: Entry)
    ensures MovedOver(w, Done) == w
  {
    ConcatDone(w.tree);
  }

  lemma OverToken(w: Entry, n: Node, rest: Derivation)
    ensures MovedOver(Shifted(w, n), rest) == MovedOver(w, Token(n, rest))
    ensures Shifted(w, n).item.rule == w.item.rule && Shifted(w, n).item.dot == w.item.dot + 1
  {
    ConcatMore(w.tree, Token(n, Done), rest);
  }

  lemma OverNode(w: Entry, y: Entry, rest: Derivation)
    ensures MovedOver(Joined(w, y), rest) == MovedOver(w, Expand(y.item.lhs, y.item.rule, y.tree, rest))
    ensures Joined(w, y).item.rule == w.item.rule && Joined(w, y).item.dot == w.item.dot + 1
  {
    ConcatMore(w.tree, Expand(y.item.lhs, y.item.rule, y.tree, Done), rest);
  }

  /** An entry moves over every derivation of its next nodes. */
  lemma {:induction false} MovesOverTree(g: Grammar, root: Node, input: seq<Node>, chart: Chart, rows: seq<Row>,
                                         w: Entry, i: nat, d: Derivation)
    requires AllLabelled(g, root, input, chart, rows) && i < |rows| && w in rows[i]
    requires ValidDerivation(g, d) && Stands(w.item.rule.nodes, w.item.dot, Roots(d)) && Stands(input, i, Yield(d))
    ensures i + |Yield(d)| < |rows| && MovedOver(w, d) in rows[i + |Yield(d)|]
    decreases d, 0
  {
    hide AllLabelled, Stands, MovedOver, Concat, Shifted, Joined;
    match d
    case Done =>
      OverNothing(w);
    case Token(n, rest) =>
      Split(w.item.rule.nodes, w.item.dot, [n], Roots(rest));
      Split(input, i, [n], Yield(rest));
      ShiftsOver(g, root, input, chart, rows, w, i, n);
      OverToken(w, n, rest);
      MovesOverTree(g, root, input, chart, rows, Shifted(w, n), i + 1, rest);
    case Expand(n, e, body, rest) =>
      Split(w.item.rule.nodes, w.item.dot, [n], Roots(rest));
      Split(input, i, Yield(body), Yield(rest));
      var y := Entry(Item(n, e, i, |e.nodes|), body);
      JoinsOver(g, root, input, chart, rows, w, i, n, e, body);
      OverNode(w, y, rest);
      MovesOverTree(g, root, input, chart, rows, Joined(w, y), i + |Yield(body)|, rest);
  }

  lemma ShiftsOver(g: Grammar, root: Node, input: seq<Node>, chart: Chart, rows: seq<Row>, w: Entry, i: nat, n: Node)
    requires AllLabelled(g, root, input, chart, rows) && i < |rows| && w in rows[i]
    requires Stands(w.item.rule.nodes, w.item.dot, [n]) && Stands(input, i, [n]) && g.Terminal(n)
    ensures i + 1 < |rows| && Shifted(w, n) in rows[i + 1]
  {
    EntryIsThere(g, root, input, chart, rows, w, i);
    assert w.item.rule.nodes[w.item.dot..w.item.dot + 1][0] == n && input[i..i + 1][0] == n;
  }

  lemma {:induction false} JoinsOver(g: Grammar, root: Node, input: seq<Node>, chart: Chart, rows: seq<Row>, w: Entry,
                                     i: nat, n: Node, e: Expansion, body: Derivation)
    requires AllLabelled(g, root, input, chart, rows) && i < |rows| && w in rows[i]
    requires ValidDerivation(g, body) && Roots(body) == e.nodes && e in g.GetProduction(n)
    requires Stands(w.item.rule.nodes, w.item.dot, [n]) && Stands(input, i, Yield(body))
    ensures i + |Yield(body)| < |rows|
    ensures Joined(w, Entry(Item(n, e, i, |e.nodes|), body)) in rows[i + |Yield(body)|]
    decreases body, 1
  {
    hide Closed, Fits, HasItem, Labelled, AllJustified, Processed, Started;
    EntryIsThere(g, root, input, chart, rows, w, i);
    JustifiedIsShaped(g, root, input, chart);
    Entered(g, input, chart, w.item, i, n, e);
    var start := Item(n, e, i, 0);
    var d := HasEntry(g, root, input, chart, rows, start, i);
    assert Stands(e.nodes, 0, Roots(body));
    MovesOverTree(g, root, input, chart, rows, Entry(start, Done), i, body);
    var y := Entry(Item(n, e, i, |e.nodes|), body);
    assert Moved(start, |e.nodes|) == y.item && Concat(Done, body) == body;
    EntryIsThere(g, root, input, chart, rows, y, i + |Yield(body)|);
    ClosedJoins(g, input, rows, w, y, i + |Yield(body)|);
  }

  lemma ClosedJoins(g: Grammar, input: seq<Node>, rows: seq<Row>, w: Entry, y: Entry, c: nat)
    requires |rows| == |input| + 1 && c < |rows| && Closed(g, input, rows, c, y) && Whole(y.item)
    requires y.item.origin < |rows| && w in rows[y.item.origin] && Expects(w.item, y.item.lhs)
    ensures Joined(w, y) in rows[c]
  {}

  /** `d` derives what the item `x` has covered when it is in column `i`. */
  ghost predicate ItemDerivation(g: Grammar, root: Node, input: seq<Node>, x: Item, i: nat, d: Derivation) {
    ValidItem(g, root, input, x, i) && DerivedBy(g, d, x.rule.nodes[..x.dot], input[x.origin..i])
  }

  /** The entries of an item are exactly the derivations of the nodes before its dot. */
  lemma EntriesAreDerivations(g: Grammar, root: Node, input: seq<Node>, chart: Chart, rows: seq<Row>, x: Item, i: nat,
                              d: Derivation)
    requires AllLabelled(g, root, input, chart, rows) && i < |chart|
    ensures |rows| == |chart|
    ensures Entry(x, d) in rows[i] <==> ItemDerivation(g, root, input, x, i, d)
  {
    hide *;
    LabelledIsParsed(g, root, input, chart, rows);
    if Entry(x, d) in rows[i] {
      EntryIsThere(g, root, input, chart, rows, Entry(x, d), i);
      ChartIsExact(g, root, input, chart, x, i);
      EntryDerives(g, root, input, x, i, d);
    }
    if ItemDerivation(g, root, input, x, i, d) {
      var start := x.(dot := 0);
      StartIsValid(g, root, input, x, i, d);
      ChartIsExact(g, root, input, chart, start, x.origin);
      var e := HasEntry(g, root, input, chart, rows, start, x.origin);
      MovesOverTree(g, root, input, chart, rows, Entry(start, Done), x.origin, d);
    }
  }

  lemma LabelledIsParsed(g: Grammar, root: Node, input: seq<Node>, chart: Chart, rows: seq<Row>)
    requires AllLabelled(g, root, input, chart, rows)
    ensures Parsed(g, root, input, chart) && |rows| == |chart| == |input| + 1
  {
    hide Parsed;
  }

  lemma EntryDerives(g: Grammar, root: Node, input: seq<Node>, x: Item, i: nat, d: Derivation)
    requires ValidItem(g, root, input, x, i) && Fits(g, input, Entry(x, d), i)
    ensures ItemDerivation(g, root, input, x, i, d)
  {}

  /** A derivation of what an item has covered leads from the start of its rule to the item. */
  lemma StartIsValid(g: Grammar, root: Node, input: seq<Node>, x: Item, i: nat, d: Derivation)
    requires ItemDerivation(g, root, input, x, i, d)
    ensures x.origin <= i <= |input| && ValidItem(g, root, input, x.(dot := 0), x.origin)
    ensures ValidDerivation(g, d) && Stands(x.rule.nodes, 0, Roots(d)) && Stands(input, x.origin, Yield(d))
    ensures x.origin + |Yield(d)| == i && MovedOver(Entry(x.(dot := 0), Done), d) == Entry(x, d)
  {
    hide Reachable, ValidDerivation;
    NothingDerived(g, x.rule.nodes, input, x.origin);
  }

  // Counting

  ghost function TreesOf(row: Row, x: Item): (trees: set<Derivation>)
    ensures forall d :: d in trees <==> Entry(x, d) in row
  {
    if row == [] then {}
    else
      var w := row[|row| - 1];
      assert row == row[..|row| - 1] + [w];
      TreesOf(row[..|row| - 1], x) + if w.item == x then {w.tree} else {}
  }

  lemma {:induction false} CopiesAreTrees(col: Column, row: Row, x: Item)
    requires Matches(col, row) && NoRepeats(row)
    ensures |TreesOf(row, x)| == Copies(col, x)
  {
    if row != [] {
      var front, w := row[..|row| - 1], row[|row| - 1];
      CopiesAreTrees(col[..|col| - 1], front, x);
      assert w !in front;
    }
  }

  /** On every input on which the parser ends, the copies of a state in a column are as many as there are
      derivations of what it has covered. */
  lemma CopiesAreDerivations(g: Grammar, root: Node, input: seq<Node>, chart: Chart, n: nat, x: Item, i: nat)
    returns (trees: set<Derivation>)
    requires g.NoEmptyProduction() && Fresh(g, root, input, chart) && NoRepeats(g.GetProduction(root))
    requires i <= |input| && Over(input, Steps(g, input, Position(chart, 0, 0), n))
    ensures forall d :: d in trees <==> ItemDerivation(g, root, input, x, i, d)
    ensures |trees| == Copies(Steps(g, input, Position(chart, 0, 0), n).chart[i], x)
  {
    hide ItemDerivation, Fresh, Parsed, Labelled;
    var final, rows := FinalLabels(g, root, input, chart, n);
    trees := TreesOf(rows[i], x);
    forall d ensures d in trees <==> ItemDerivation(g, root, input, x, i, d) {
      EntriesAreDerivations(g, root, input, final, rows, x, i, d);
    }
    RowIsLabels(g, input, final, rows, i);
    CopiesAreTrees(final[i], rows[i], x);
  }

  lemma FinalLabels(g: Grammar, root: Node, input: seq<Node>, chart: Chart, n: nat)
    returns (final: Chart, rows: seq<Row>)
    requires g.NoEmptyProduction() && Fresh(g, root, input, chart) && NoRepeats(g.GetProduction(root))
    requires Over(input, Steps(g, input, Position(chart, 0, 0), n))
    ensures final == Steps(g, input, Position(chart, 0, 0), n).chart && |final| == |rows| == |input| + 1
    ensures AllLabelled(g, root, input, final, rows)
  {
    hide Fits, NoRepeats, Closed, Explained, Front, Steps;
    final := Steps(g, input, Position(chart, 0, 0), n).chart;
    rows := RunLabels(g, root, input, chart, n);
    LabelsStay(g, input, final, rows, Steps(g, input, Position(chart, 0, 0), n).j);
  }

  lemma LabelsStay(g: Grammar, input: seq<Node>, chart: Chart, rows: seq<Row>, j: nat)
    requires Labelled(g, input, chart, rows, |input| + 1, j)
    ensures Labelled(g, input, chart, rows, |input| + 1, 0) && |rows| == |input| + 1
  {
    hide Fits, NoRepeats, Closed, Matches;
    var top := |input| + 1;
    assert forall c :: 0 <= c < |rows| ==> Front(rows, top, j, c) == Front(rows, top, 0, c);
    forall c, z | 0 <= c < |rows| && z in rows[c] ensures Explained(rows, top, 0, c, z) {
      assert Explained(rows, top, j, c, z);
    }
  }

  lemma RowIsLabels(g: Grammar, input: seq<Node>, chart: Chart, rows: seq<Row>, i: nat)
    requires Labelled(g, input, chart, rows, |input| + 1, 0) && i < |rows|
    ensures |chart| == |rows| && Matches(chart[i], rows[i]) && NoRepeats(rows[i])
  {}

  // The finished roots

  /** The derivations of the root from wherever it can be asked for to the end of the input. */
  ghost predicate RootDerivation(g: Grammar, root: Node, input: seq<Node>, d: Derivation) {
    exists k :: 0 <= k <= |input| && Reachable(g, root, input, root, k) && DerivedBy(g, d, [root], input[k..])
  }

  function RootOf(w: Entry): Derivation {
    Expand(w.item.lhs, w.item.rule, w.tree, Done)
  }

  ghost function RootTrees(root: Node, row: Row): (trees: set<Derivation>)
    ensures forall d :: d in trees <==> exists w :: w in row && FinishedRoot(root, w.item) && d == RootOf(w)
  {
    set w | w in row && FinishedRoot(root, w.item) :: RootOf(w)
  }

  ghost predicate Listed(root: Node, col: Column, found: seq<nat>) {
    && (forall m, m' :: 0 <= m < m' < |found| ==> found[m] < found[m'])
    && (forall p :: p in found <==> 0 <= p < |col| && FinishedRoot(root, col[p].item))
  }

  /** Two finished roots of the last row are different derivations. */
  lemma RootsDiffer(g: Grammar, input: seq<Node>, root: Node, w: Entry, w': Entry)
    requires Fits(g, input, w, |input|) && Fits(g, input, w', |input|) && FinishedRoot(root, w.item)
             && FinishedRoot(root, w'.item)
    requires RootOf(w) == RootOf(w')
    ensures w == w'
  {
    assert |Yield(w.tree)| == |input| - w.item.origin && |Yield(w'.tree)| == |input| - w'.item.origin;
  }

  lemma {:induction false} RootsCount(g: Grammar, input: seq<Node>, root: Node, col: Column, row: Row, found: seq<nat>)
    requires Matches(col, row) && NoRepeats(row) && Listed(root, col, found)
    requires forall w :: w in row ==> Fits(g, input, w, |input|)
    ensures |RootTrees(root, row)| == |found|
    decreases |col|
  {
    hide Fits;
    if col == [] {
      if found != [] {
        FirstFound(root, col, found);
      }
      assert RootTrees(root, row) == {};
    } else {
      var last := |col| - 1;
      var front, w := row[..last], row[last];
      assert row == front + [w] && w in row && w !in front;
      RootTreesStep(root, front, w);
      hide RootTrees, RootOf, Listed;
      if FinishedRoot(root, w.item) {
        LastFound(root, col, found);
        RootsCount(g, input, root, col[..last], front, found[..|found| - 1]);
        if RootOf(w) in RootTrees(root, front) {
          var v :| v in front && FinishedRoot(root, v.item) && RootOf(w) == RootOf(v);
          RootsDiffer(g, input, root, w, v);
        }
      } else {
        NotFound(root, col, found);
        RootsCount(g, input, root, col[..last], front, found);
      }
    }
  }

  lemma RootTreesStep(root: Node, front: Row, w: Entry)
    ensures RootTrees(root, front + [w])
            == RootTrees(root, front) + if FinishedRoot(root, w.item) then {RootOf(w)} else {}
  {
    hide RootOf;
    forall d ensures d in RootTrees(root, front + [w]) <==>
                     d in RootTrees(root, front) || (FinishedRoot(root, w.item) && d == RootOf(w))
    {
      if v :| v in front && FinishedRoot(root, v.item) && d == RootOf(v) {
        assert v in front + [w];
      }
      assert w in front + [w];
    }
  }

  lemma FirstFound(root: Node, col: Column, found: seq<nat>)
    requires found != [] && Listed(root, col, found)
    ensures col != []
  {
    assert found[0] in found;
  }

  lemma NotFound(root: Node, col: Column, found: seq<nat>)
    requires col != [] && Listed(root, col, found) && !FinishedRoot(root, col[|col| - 1].item)
    ensures Listed(root, col[..|col| - 1], found)
  {}

  lemma LastFound(root: Node, col: Column, found: seq<nat>)
    requires col != [] && Listed(root, col, found) && FinishedRoot(root, col[|col| - 1].item)
    ensures found != [] && Listed(root, col[..|col| - 1], found[..|found| - 1])
  {
    var last, top := |col| - 1, |found| - 1;
    assert last in found;
    assert found[top] in found;
    var m :| 0 <= m < |found| && found[m] == last;
    assert m == top;
    forall p ensures p in found[..top] <==> 0 <= p < last && FinishedRoot(root, col[p].item) {
      if p in found[..top] {
        var k :| 0 <= k < top && found[k] == p;
        assert p in found;
      }
    }
  }

  lemma RootEntry(g: Grammar, root: Node, input: seq<Node>, d: Derivation, k: nat) returns (w: Entry)
    requires !g.Terminal(root) && k <= |input| && Reachable(g, root, input, root, k)
             && DerivedBy(g, d, [root], input[k..])
    ensures FinishedRoot(root, w.item) && d == RootOf(w) && ValidItem(g, root, input, w.item, |input|)
    ensures ItemDerivation(g, root, input, w.item, |input|, w.tree)
  {
    assert Roots(d)[0] == root && |Roots(d.rest)| == 0;
    assert d.Expand? && d.rest == Done;
    w := Entry(Item(root, d.rule, k, |d.rule.nodes|), d.body);
    assert d.rule.nodes[..|d.rule.nodes|] == d.rule.nodes && input[k..|input|] == input[k..];
    assert Yield(d) == Yield(d.body) + Yield(d.rest) == Yield(d.body);
    assert DerivedBy(g, d.body, d.rule.nodes[..|d.rule.nodes|], input[k..|input|]);
  }

  lemma EntryRoot(g: Grammar, root: Node, input: seq<Node>, w: Entry)
    requires FinishedRoot(root, w.item) && ItemDerivation(g, root, input, w.item, |input|, w.tree)
    ensures RootDerivation(g, root, input, RootOf(w))
  {
    var k := w.item.origin;
    assert w.item.rule.nodes[..w.item.dot] == w.item.rule.nodes && input[k..|input|] == input[k..];
    assert Roots(RootOf(w)) == [root] && Yield(w.tree) + [] == Yield(w.tree);
    assert DerivedBy(g, RootOf(w), [root], input[k..]);
  }

  /** The finished roots, from which the trees are built, are as many as there are derivations of the root. */
  lemma RootsAreDerivations(g: Grammar, root: Node, input: seq<Node>, chart: Chart, n: nat, found: seq<nat>)
    returns (trees: set<Derivation>)
    requires g.NoEmptyProduction() && Fresh(g, root, input, chart) && NoRepeats(g.GetProduction(root))
             && !g.Terminal(root)
    requires Over(input, Steps(g, input, Position(chart, 0, 0), n))
    requires Listed(root, Steps(g, input, Position(chart, 0, 0), n).chart[|input|], found)
    ensures |trees| == |found| && forall d :: d in trees <==> RootDerivation(g, root, input, d)
  {
    hide ValidItem, ItemDerivation, DerivedBy, Fresh, Listed, Parsed, Labelled, Fits, NoRepeats, RootOf, RootTrees,
         Reachable;
    var last := |input|;
    var final, rows := FinalLabels(g, root, input, chart, n);
    RowIsLabels(g, input, final, rows, last);
    trees := RootTrees(root, rows[last]);
    forall w | w in rows[last] ensures Fits(g, input, w, last) && ItemDerivation(g, root, input, w.item, last, w.tree) {
      EntryIsThere(g, root, input, final, rows, w, last);
      EntriesAreDerivations(g, root, input, final, rows, w.item, last, w.tree);
    }
    RootsCount(g, input, root, final[last], rows[last], found);
    forall d ensures d in trees <==> RootDerivation(g, root, input, d) {
      if d in trees {
        var w: Entry :| w in rows[last] && FinishedRoot(root, w.item) && d == RootOf(w);
        EntryRoot(g, root, input, w);
      }
      if RootDerivation(g, root, input, d) {
        var k :| 0 <= k <= |input| && Reachable(g, root, input, root, k) && DerivedBy(g, d, [root], input[k..]);
        var w := RootEntry(g, root, input, d, k);
        EntriesAreDerivations(g, root, input, final, rows, w.item, last, w.tree);
      }
    }
  }

  /** If the root is on no right-hand side, these are the derivations of the input. */
  lemma RootIsAskedOnce(g: Grammar, root: Node, input: seq<Node>, d: Derivation)
    requires g.OnNoRightHandSide(root)
    ensures RootDerivation(g, root, input, d) <==> DerivedBy(g, d, [root], input)
  {
    hide DerivedBy, Reachable;
    assert input[0..] == input;
    AskedAtStart(g, root, input);
    if RootDerivation(g, root, input, d) {
      var k :| 0 <= k <= |input| && Reachable(g, root, input, root, k) && DerivedBy(g, d, [root], input[k..]);
      OnlyAskedAtStart(g, root, input, k);
    }
  }

  lemma AskedAtStart(g: Grammar, root: Node, input: seq<Node>)
    ensures Reachable(g, root, input, root, 0)
  {
    assert Reaches(g, root, input, Top, root, 0);
  }

  lemma OnlyAskedAtStart(g: Grammar, root: Node, input: seq<Node>, k: nat)
    requires g.OnNoRightHandSide(root) && Reachable(g, root, input, root, k)
    ensures k == 0
  {
    hide ValidDerivation, Roots, Yield;
    var c :| Reaches(g, root, input, c, root, k);
    assert c.Top?;
  }

  /** The recogniser as its caller uses it: build the chart, parse, and take the finished roots. */
  method Recognise(g: Grammar, root: Node, input: seq<Node>)
    returns (valid: bool, forest: seq<nat>, ghost trees: set<Derivation>)
    requires g.NoEmptyProduction() && !Loops(g, root, input)
    ensures valid <==> forest != []
    ensures valid <==> !g.Terminal(root)
                       && exists k ::
                            && 0 <= k <= |input| && Reachable(g, root, input, root, k)
                            && Derives(g, [root], input[k..])
    ensures g.OnNoRightHandSide(root) && !g.Terminal(root) ==> (valid <==> Derives(g, [root], input))
    ensures !g.Terminal(root) && NoRepeats(g.GetProduction(root)) ==>
              && |forest| == |trees| && (forall d :: d in trees <==> RootDerivation(g, root, input, d))
              && (g.OnNoRightHandSide(root) ==> forall d :: d in trees <==> DerivedBy(g, d, [root], input))
  {
    var parser := new EarleyParser(g, input);
    parser.CreateChart(root);
    ghost var start := parser.chart;
    ghost var turns := parser.Parse(root);
    forest := parser.FinishedRoots(root);
    valid, trees := forest != [], {};
    if g.Terminal(root) {
      NoRuleNoAcceptance(g, root, input, parser.chart);
    } else {
      AcceptsExactly(g, root, input, parser.chart);
      if g.OnNoRightHandSide(root) {
        AcceptanceIsDerivability(g, root, input, parser.chart);
      }
      if NoRepeats(g.GetProduction(root)) {
        trees := RootsAreDerivations(g, root, input, start, turns, forest);
        if g.OnNoRightHandSide(root) {
          forall d ensures d in trees <==> DerivedBy(g, d, [root], input) {
            RootIsAskedOnce(g, root, input, d);
          }
        }
      }
    }
  }

  lemma NoRuleNoAcceptance(g: Grammar, root: Node, input: seq<Node>, chart: Chart)
    requires Parsed(g, root, input, chart) && g.Terminal(root)
    ensures !Accepts(root, input, chart)
  {
    JustifiedIsShaped(g, root, input, chart);
  }
}
