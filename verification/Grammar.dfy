/** Context-free grammars as the parser sees them: a node and the expansions it may be replaced by.

    A node that has no expansion, and every sequence node, stands for itself. */
module Grammars {
  import opened Basics

  /** The identity of a grammar node. */
  type Node = nat

  /** One expansion of a node; `id` is its identity, which the parser compares instead of the contents. */
  datatype Expansion = Expansion(id: nat, nodes: seq<Node>)

  datatype Grammar = Grammar(sequences: set<Node>, expansions: map<Node, seq<Expansion>>) {

    function GetProduction(n: Node): seq<Expansion> {
      if n in sequences || n !in expansions then [] else expansions[n]
    }

    predicate Terminal(n: Node) {
      |GetProduction(n)| == 0
    }

    ghost predicate NoEmptyProduction() {
      forall n: Node, e: Expansion :: e in GetProduction(n) ==> e.nodes != []
    }

    /** `a` has an expansion that consists of the single node `b`. */
    ghost predicate UnitStep(a: Node, b: Node) {
      exists e :: e in GetProduction(a) && e.nodes == [b]
    }

    ghost predicate UnitPath(p: seq<Node>) {
      forall i :: 0 <= i < |p| - 1 ==> UnitStep(p[i], p[i + 1])
    }

    ghost predicate UnitLeads(p: seq<Node>, a: Node, b: Node) {
      |p| >= 2 && UnitPath(p) && p[0] == a && p[|p| - 1] == b
    }

    /** No node can be rewritten to itself by unit expansions alone. */
    ghost predicate NoUnitCycle() {
      forall p, a :: !UnitLeads(p, a, a)
    }

    /** `r` never occurs inside an expansion. */
    ghost predicate OnNoRightHandSide(r: Node) {
      forall n: Node, e: Expansion :: e in GetProduction(n) ==> r !in e.nodes
    }
  }

  lemma SmallerSet<T>(small: set<T>, big: set<T>, extra: T)
    requires small <= big && extra in big && extra !in small
    ensures |small| < |big|
  {
    var rest := big - {extra};
    assert small <= rest;
    SubsetSize(small, rest);
  }

  /** A derivation of a list of nodes: the first node is a token of the input, or is expanded,
      and the remaining nodes are derived by `rest`. */
  datatype Derivation =
    | Done
    | Token(node: Node, rest: Derivation)
    | Expand(node: Node, rule: Expansion, body: Derivation, rest: Derivation)

  /** The nodes a derivation starts from. */
  function Roots(d: Derivation): seq<Node> {
    match d
    case Done => []
    case Token(n, rest) => [n] + Roots(rest)
    case Expand(n, _, _, rest) => [n] + Roots(rest)
  }

  /** The tokens a derivation ends in. */
  function Yield(d: Derivation): seq<Node> {
    match d
    case Done => []
    case Token(n, rest) => [n] + Yield(rest)
    case Expand(_, _, body, rest) => Yield(body) + Yield(rest)
  }

  predicate ValidDerivation(g: Grammar, d: Derivation) {
    match d
    case Done => true
    case Token(n, rest) => g.Terminal(n) && ValidDerivation(g, rest)
    case Expand(n, e, body, rest) =>
      && e in g.GetProduction(n)
      && Roots(body) == e.nodes
      && ValidDerivation(g, body) && ValidDerivation(g, rest)
  }

  ghost predicate DerivedBy(g: Grammar, d: Derivation, alpha: seq<Node>, w: seq<Node>) {
    ValidDerivation(g, d) && Roots(d) == alpha && Yield(d) == w
  }

  ghost predicate Derives(g: Grammar, alpha: seq<Node>, w: seq<Node>) {
    exists d :: DerivedBy(g, d, alpha, w)
  }

  function Concat(d: Derivation, f: Derivation): Derivation {
    match d
    case Done => f
    case Token(n, rest) => Token(n, Concat(rest, f))
    case Expand(n, e, body, rest) => Expand(n, e, body, Concat(rest, f))
  }

  lemma {:induction false} ConcatDerives(g: Grammar, d: Derivation, f: Derivation)
    requires ValidDerivation(g, d) && ValidDerivation(g, f)
    ensures ValidDerivation(g, Concat(d, f))
    ensures Roots(Concat(d, f)) == Roots(d) + Roots(f)
    ensures Yield(Concat(d, f)) == Yield(d) + Yield(f)
  {
    match d
    case Done =>
      assert [] + Roots(f) == Roots(f) && [] + Yield(f) == Yield(f);
    case Token(n, rest) =>
      ConcatDerives(g, rest, f);
      Associative([n], Roots(rest), Roots(f));
      Associative([n], Yield(rest), Yield(f));
    case Expand(n, e, body, rest) =>
      ConcatDerives(g, rest, f);
      Associative([n], Roots(rest), Roots(f));
      Associative(Yield(body), Yield(rest), Yield(f));
  }

  lemma ExpandAlone(n: Node, e: Expansion, body: Derivation)
    ensures Roots(Expand(n, e, body, Done)) == [n] && Yield(Expand(n, e, body, Done)) == Yield(body)
  {
    assert Yield(body) + [] == Yield(body);
  }

  lemma ExtendByToken(g: Grammar, alpha: seq<Node>, w: seq<Node>, n: Node)
    requires Derives(g, alpha, w) && g.Terminal(n)
    ensures Derives(g, alpha + [n], w + [n])
  {
    var d :| DerivedBy(g, d, alpha, w);
    ConcatDerives(g, d, Token(n, Done));
    assert DerivedBy(g, Concat(d, Token(n, Done)), alpha + [n], w + [n]);
  }

  lemma ExtendByRule(g: Grammar, alpha: seq<Node>, w: seq<Node>, n: Node, e: Expansion, v: seq<Node>)
    requires Derives(g, alpha, w) && e in g.GetProduction(n) && Derives(g, e.nodes, v)
    ensures Derives(g, alpha + [n], w + v)
  {
    var d :| DerivedBy(g, d, alpha, w);
    var b :| DerivedBy(g, b, e.nodes, v);
    var f := Expand(n, e, b, Done);
    ConcatDerives(g, d, f);
    ExpandAlone(n, e, b);
    assert DerivedBy(g, Concat(d, f), alpha + [n], w + v);
  }

  /** Without empty expansions, a derivation yields at least one token per starting node. */
  lemma {:induction false} YieldIsLong(g: Grammar, d: Derivation)
    requires g.NoEmptyProduction() && ValidDerivation(g, d)
    ensures |Yield(d)| >= |Roots(d)|
  {
    match d
    case Done =>
    case Token(n, rest) => YieldIsLong(g, rest);
    case Expand(n, e, body, rest) =>
      YieldIsLong(g, rest);
      YieldIsLong(g, body);
  }
}

/** Derivation trees against rewriting, which is stated on the grammar's own two fields. */
module Rewriting {
  import opened Basics
  import opened Grammars

  /** No rule replaces `n`. */
  predicate Stays(g: Grammar, n: Node) {
    n in g.sequences || n !in g.expansions || g.expansions[n] == []
  }

  /** Some expansion that `n` has replaces it by `nodes`; a sequence node is never replaced. */
  ghost predicate Replaces(g: Grammar, n: Node, nodes: seq<Node>) {
    && n !in g.sequences && n in g.expansions
    && exists m :: 0 <= m < |g.expansions[n]| && g.expansions[n][m].nodes == nodes
  }

  /** One node of `s` is replaced. */
  ghost predicate RewritesAt(g: Grammar, s: seq<Node>, t: seq<Node>, k: nat, nodes: seq<Node>) {
    k < |s| && Replaces(g, s[k], nodes) && t == s[..k] + nodes + s[k + 1..]
  }

  ghost predicate RewritesTo(g: Grammar, s: seq<Node>, t: seq<Node>) {
    exists k: nat, nodes: seq<Node> :: RewritesAt(g, s, t, k, nodes)
  }

  ghost predicate RewritesIn(g: Grammar, s: seq<Node>, t: seq<Node>, steps: nat)
    decreases steps
  {
    if steps == 0 then s == t
    else exists u: seq<Node> :: RewritesTo(g, s, u) && RewritesIn(g, u, t, steps - 1)
  }

  lemma {:induction false} RewritesOn(g: Grammar, s: seq<Node>, t: seq<Node>, u: seq<Node>, m: nat, n: nat)
    requires RewritesIn(g, s, t, m) && RewritesIn(g, t, u, n)
    ensures RewritesIn(g, s, u, m + n)
    decreases m
  {
    if m > 0 {
      var v :| RewritesTo(g, s, v) && RewritesIn(g, v, t, m - 1);
      RewritesOn(g, v, t, u, m - 1, n);
    }
  }

  lemma NothingRewritten(g: Grammar, s: seq<Node>)
    ensures RewritesIn(g, s, s, 0)
  {}

  lemma OneThen(g: Grammar, s: seq<Node>, t: seq<Node>, u: seq<Node>, n: nat)
    requires RewritesTo(g, s, t) && RewritesIn(g, t, u, n)
    ensures RewritesIn(g, s, u, 1 + n)
  {}

  lemma RewritesWithin(g: Grammar, a: seq<Node>, s: seq<Node>, t: seq<Node>, b: seq<Node>)
    requires RewritesTo(g, s, t)
    ensures RewritesTo(g, a + s + b, a + t + b)
  {
    var k: nat, nodes :| RewritesAt(g, s, t, k, nodes);
    var whole := a + s + b;
    assert whole[..|a| + k] == a + s[..k] && whole[|a| + k + 1..] == s[k + 1..] + b;
    assert a + t + b == whole[..|a| + k] + nodes + whole[|a| + k + 1..];
    assert RewritesAt(g, whole, a + t + b, |a| + k, nodes);
  }

  lemma {:induction false} AllWithin(g: Grammar, a: seq<Node>, s: seq<Node>, t: seq<Node>, b: seq<Node>, n: nat)
    requires RewritesIn(g, s, t, n)
    ensures RewritesIn(g, a + s + b, a + t + b, n)
    decreases n
  {
    if n > 0 {
      var u :| RewritesTo(g, s, u) && RewritesIn(g, u, t, n - 1);
      RewritesWithin(g, a, s, u, b);
      AllWithin(g, a, u, t, b, n - 1);
    }
  }

  lemma AllBehind(g: Grammar, a: seq<Node>, s: seq<Node>, t: seq<Node>, n: nat)
    requires RewritesIn(g, s, t, n)
    ensures RewritesIn(g, a + s, a + t, n)
  {
    hide RewritesIn;
    AllWithin(g, a, s, t, [], n);
    assert a + s + [] == a + s && a + t + [] == a + t;
  }

  lemma AllBefore(g: Grammar, s: seq<Node>, t: seq<Node>, b: seq<Node>, n: nat)
    requires RewritesIn(g, s, t, n)
    ensures RewritesIn(g, s + b, t + b, n)
  {
    hide RewritesIn;
    AllWithin(g, [], s, t, b, n);
    assert [] + s + b == s + b && [] + t + b == t + b;
  }

  lemma ProductionReplaces(g: Grammar, n: Node, e: Expansion)
    requires e in g.GetProduction(n)
    ensures Replaces(g, n, e.nodes)
  {
    var m :| 0 <= m < |g.expansions[n]| && g.expansions[n][m] == e;
  }

  /** From a tree to rewriting steps, the leftmost node first. */
  lemma {:induction false} TreeRewrites(g: Grammar, d: Derivation) returns (n: nat)
    requires ValidDerivation(g, d)
    ensures RewritesIn(g, Roots(d), Yield(d), n) && forall k :: 0 <= k < |Yield(d)| ==> Stays(g, Yield(d)[k])
  {
    hide RewritesTo, RewritesIn;
    match d
    case Done =>
      n := 0;
      NothingRewritten(g, []);
    case Token(a, rest) =>
      n := TreeRewrites(g, rest);
      AllBehind(g, [a], Roots(rest), Yield(rest), n);
    case Expand(a, e, body, rest) =>
      var m := TreeRewrites(g, body);
      var l := TreeRewrites(g, rest);
      ExpandRewrites(g, a, e, Yield(body), Roots(rest), Yield(rest), m, l);
      n := 1 + m + l;
  }

  lemma FirstReplaced(g: Grammar, a: Node, nodes: seq<Node>, s: seq<Node>)
    requires Replaces(g, a, nodes)
    ensures RewritesTo(g, [a] + s, nodes + s)
  {
    assert RewritesAt(g, [a] + s, nodes + s, 0, nodes);
  }

  lemma ExpandRewrites(g: Grammar, a: Node, e: Expansion, body: seq<Node>, s: seq<Node>, t: seq<Node>, m: nat, l: nat)
    requires e in g.GetProduction(a) && RewritesIn(g, e.nodes, body, m) && RewritesIn(g, s, t, l)
    ensures RewritesIn(g, [a] + s, body + t, 1 + m + l)
  {
    ProductionReplaces(g, a, e);
    hide *;
    FirstReplaced(g, a, e.nodes, s);
    AllBefore(g, e.nodes, body, s, m);
    AllBehind(g, body, s, t, l);
    RewritesOn(g, e.nodes + s, body + s, body + t, m, l);
    OneThen(g, [a] + s, e.nodes + s, body + t, m + l);
  }

  /** A derivation of two lists is one of each. */
  lemma {:induction false} SplitTree(g: Grammar, d: Derivation, a: seq<Node>, b: seq<Node>)
      returns (l: Derivation, r: Derivation)
    requires ValidDerivation(g, d) && Roots(d) == a + b
    ensures ValidDerivation(g, l) && ValidDerivation(g, r) && Roots(l) == a && Roots(r) == b
    ensures Yield(l) + Yield(r) == Yield(d)
    decreases d
  {
    if a == [] {
      assert a + b == b;
      l, r := Done, d;
    } else {
      assert Roots(d)[0] == a[0] && Roots(d)[1..] == a[1..] + b && a == [a[0]] + a[1..];
      assert Roots(d.rest) == Roots(d)[1..];
      l, r := SplitTree(g, d.rest, a[1..], b);
      match d
      case Token(n, _) =>
        Associative([n], Yield(l), Yield(r));
        l := Token(n, l);
      case Expand(n, e, body, _) =>
        Associative(Yield(body), Yield(l), Yield(r));
        l := Expand(n, e, body, l);
    }
  }

  lemma ReplacedBy(g: Grammar, n: Node, nodes: seq<Node>) returns (e: Expansion)
    requires Replaces(g, n, nodes)
    ensures e in g.GetProduction(n) && e.nodes == nodes
  {
    var m :| 0 <= m < |g.expansions[n]| && g.expansions[n][m].nodes == nodes;
    e := g.expansions[n][m];
  }

  /** Back over one step: what replaced the node becomes the children of one more tree. */
  lemma StepDerives(g: Grammar, s: seq<Node>, t: seq<Node>, w: seq<Node>)
    requires RewritesTo(g, s, t) && Derives(g, t, w)
    ensures Derives(g, s, w)
  {
    hide Replaces, ValidDerivation, Roots, Yield;
    var k: nat, nodes :| RewritesAt(g, s, t, k, nodes);
    var e := ReplacedBy(g, s[k], nodes);
    var d :| DerivedBy(g, d, t, w);
    Associative(s[..k], nodes, s[k + 1..]);
    var l, r := SplitTree(g, d, s[..k], nodes + s[k + 1..]);
    var body, rest := SplitTree(g, r, nodes, s[k + 1..]);
    NodePutBack(g, s, k, l, e, body, rest);
    assert DerivedBy(g, Concat(l, Expand(s[k], e, body, rest)), s, w);
  }

  lemma NodePutBack(g: Grammar, s: seq<Node>, k: nat, l: Derivation, e: Expansion, body: Derivation, rest: Derivation)
    requires k < |s| && e in g.GetProduction(s[k]) && Roots(body) == e.nodes
    requires ValidDerivation(g, l) && ValidDerivation(g, body) && ValidDerivation(g, rest)
    requires Roots(l) == s[..k] && Roots(rest) == s[k + 1..]
    ensures var f := Concat(l, Expand(s[k], e, body, rest));
            ValidDerivation(g, f) && Roots(f) == s && Yield(f) == Yield(l) + (Yield(body) + Yield(rest))
  {
    var f := Expand(s[k], e, body, rest);
    ConcatDerives(g, l, f);
    Middle(s, k);
  }

  lemma Middle(s: seq<Node>, k: nat)
    requires k < |s|
    ensures s[..k] + ([s[k]] + s[k + 1..]) == s
  {}

  lemma {:induction false} TokensDerive(g: Grammar, w: seq<Node>)
    requires forall k :: 0 <= k < |w| ==> Stays(g, w[k])
    ensures Derives(g, w, w)
  {
    if w == [] {
      assert DerivedBy(g, Done, w, w);
    } else {
      TokensDerive(g, w[1..]);
      var d :| DerivedBy(g, d, w[1..], w[1..]);
      assert DerivedBy(g, Token(w[0], d), w, w);
    }
  }

  lemma {:induction false} RewritingDerives(g: Grammar, s: seq<Node>, w: seq<Node>, n: nat)
    requires RewritesIn(g, s, w, n) && forall k :: 0 <= k < |w| ==> Stays(g, w[k])
    ensures Derives(g, s, w)
    decreases n
  {
    if n == 0 {
      TokensDerive(g, w);
    } else {
      var u :| RewritesTo(g, s, u) && RewritesIn(g, u, w, n - 1);
      RewritingDerives(g, u, w, n - 1);
      StepDerives(g, s, u, w);
    }
  }

  /** `alpha` derives `w` exactly if replacing nodes by their expansions leads from `alpha` to `w` and no node
      of `w` can be replaced. */
  lemma DerivesIffRewrites(g: Grammar, alpha: seq<Node>, w: seq<Node>)
    ensures Derives(g, alpha, w)
            <==> (exists n :: RewritesIn(g, alpha, w, n)) && forall k :: 0 <= k < |w| ==> Stays(g, w[k])
  {
    if d :| DerivedBy(g, d, alpha, w) {
      var n := TreeRewrites(g, d);
      assert RewritesIn(g, alpha, w, n);
    }
    if n :| RewritesIn(g, alpha, w, n) && forall k :: 0 <= k < |w| ==> Stays(g, w[k]) {
      RewritingDerives(g, alpha, w, n);
    }
  }
}
