/** The exclusion tree as a value, and what a whole history of added inputs makes of it. */
module TrieHistory {
  import opened Basics

  /** An input is a sequence of strings; a node of the tree is found by the strings on its path. */
  type Path = seq<string>

  predicate Decided(r: OracleResult) {
    r == Passing || r == Failing
  }

  datatype Info = Info(result: OracleResult, leaf: bool, input: nat)

  const BLANK := Info(Undefined, false, 0)

  type Trie = map<Path, Info>

  const EMPTY_TRIE: Trie := map[[] := BLANK]

  function Prefixes(x: Path): (r: set<Path>)
    ensures forall p :: p in r <==> p <= x
  {
    var r := set i | 0 <= i <= |x| :: x[..i];
    assert forall p :: p <= x ==> p == x[..|p|];
    r
  }

  /** Make every prefix of `x` a node. */
  function Grow(t: Trie, x: Path): Trie {
    map p | p in t.Keys + Prefixes(x) :: if p in t then t[p] else BLANK
  }

  /** Remove everything strictly below `x`. */
  function Prune(t: Trie, x: Path): Trie {
    map p | p in t && !(x < p) :: t[p]
  }

  /** A leaf lies on the path `x`. */
  ghost predicate Excluded(t: Trie, x: Path) {
    exists p :: p in t && p <= x && t[p].leaf
  }

  /** What adding one input does to the tree. */
  ghost function Add(t: Trie, x: Path, result: OracleResult, input: nat): Trie {
    if Excluded(t, x) then t
    else if Decided(result) then Prune(Grow(t, x), x)[x := Info(result, true, input)]
    else Grow(t, x)[x := Info(result, false, input)]
  }

  /** One accepted call of `AddInput`: never for the empty input. */
  datatype RawEntry = Entry(x: Path, result: OracleResult, input: nat)
  type Entry = e: RawEntry | e.x != [] witness Entry([""], Unfinished, 0)

  type History = seq<Entry>

  ghost function Run(h: History): Trie {
    if h == [] then EMPTY_TRIE
    else var e := h[|h| - 1]; Add(Run(h[..|h| - 1]), e.x, e.result, e.input)
  }

  // Walking down the tree one string at a time

  lemma GrowNothing(t: Trie)
    requires [] in t
    ensures Grow(t, []) == t
  {}

  lemma GrowSame(t: Trie, p: Path, s: string)
    requires p + [s] in Grow(t, p)
    ensures p + [s] in t && Grow(t, p)[p + [s]] == t[p + [s]]
    ensures Grow(t, p + [s]) == Grow(t, p)
  {
    PrefixesOfMore(p, s);
  }

  lemma GrowMore(t: Trie, p: Path, s: string)
    requires p + [s] !in Grow(t, p)
    ensures Grow(t, p + [s]) == Grow(t, p)[p + [s] := BLANK]
  {
    PrefixesOfMore(p, s);
  }

  lemma PrefixesOfMore(p: Path, s: string)
    ensures Prefixes(p + [s]) == Prefixes(p) + {p + [s]}
  {
    forall q | q in Prefixes(p + [s]) && q != p + [s] ensures q in Prefixes(p) {
      assert q == (p + [s])[..|q|] == p[..|q|];
    }
  }

  lemma ExcludedMore(t: Trie, p: Path, s: string)
    ensures Excluded(t, p + [s]) <==> Excluded(t, p) || (p + [s] in t && t[p + [s]].leaf)
  {
    PrefixesOfMore(p, s);
    if Excluded(t, p + [s]) {
      var q :| q in t && q <= p + [s] && t[q].leaf;
      assert q in Prefixes(p + [s]);
    }
    if Excluded(t, p) {
      var q :| q in t && q <= p && t[q].leaf;
      assert q in Prefixes(p + [s]);
    }
  }

  lemma ExcludedGrown(t: Trie, x: Path)
    ensures Excluded(Grow(t, x), x) <==> Excluded(t, x)
  {
    if Excluded(t, x) {
      var p :| p in t && p <= x && t[p].leaf;
      assert p in Grow(t, x) && Grow(t, x)[p] == t[p];
    }
  }

  // The same tree, read off the history path by path

  /** Some input of the history has `p` as a prefix. */
  ghost predicate Recorded(h: History, p: Path) {
    exists i :: 0 <= i < |h| && p <= h[i].x
  }

  ghost predicate DecidedAt(h: History, p: Path) {
    exists i :: 0 <= i < |h| && h[i].x == p && Decided(h[i].result)
  }

  ghost predicate DecidedPrefix(h: History, p: Path) {
    exists i :: 0 <= i < |h| && h[i].x <= p && Decided(h[i].result)
  }

  /** A strictly shorter prefix of `p` was decided. */
  ghost predicate Cut(h: History, p: Path) {
    exists i :: 0 <= i < |h| && h[i].x < p && Decided(h[i].result)
  }

  ghost predicate Present(h: History, p: Path) {
    p == [] || (Recorded(h, p) && !Cut(h, p))
  }

  /** What is known at exactly `p`: the last entry there, except that the first decision is final. */
  ghost function InfoAt(h: History, p: Path): Info {
    if h == [] then BLANK
    else
      var before, e := InfoAt(h[..|h| - 1], p), h[|h| - 1];
      if e.x == p && !before.leaf then Info(e.result, Decided(e.result), e.input) else before
  }

  /** How one more entry changes the readings of the history. */
  lemma OneMore(h: History, e: Entry, p: Path)
    ensures Recorded(h + [e], p) <==> Recorded(h, p) || p <= e.x
    ensures Cut(h + [e], p) <==> Cut(h, p) || (Decided(e.result) && e.x < p)
    ensures DecidedAt(h + [e], p) <==> DecidedAt(h, p) || (Decided(e.result) && e.x == p)
    ensures InfoAt(h + [e], p) == if e.x == p && !InfoAt(h, p).leaf then Info(e.result, Decided(e.result), e.input)
            else InfoAt(h, p)
  {
    var g := h + [e];
    assert g[..|g| - 1] == h && g[|h|] == e;
    assert forall i :: 0 <= i < |h| ==> g[i] == h[i];
  }

  lemma {:induction false} LeafIsDecided(h: History, p: Path)
    ensures InfoAt(h, p).leaf <==> DecidedAt(h, p)
    ensures InfoAt(h, p).leaf ==> Decided(InfoAt(h, p).result)
  {
    if h != [] {
      var h', e := h[..|h| - 1], h[|h| - 1];
      assert h == h' + [e];
      OneMore(h', e, p);
      LeafIsDecided(h', p);
    }
  }

  ghost predicate Describes(t: Trie, h: History) {
    && (forall p :: p in t <==> Present(h, p))
    && (forall p :: p in t ==> t[p] == InfoAt(h, p))
  }

  /** If the tree is what the history says, a leaf lies on `x` exactly when a prefix of `x` was decided. */
  lemma ExcludedIff(t: Trie, h: History, x: Path)
    requires Describes(t, h)
    ensures Excluded(t, x) <==> DecidedPrefix(h, x)
  {
    if Excluded(t, x) {
      var p :| p in t && p <= x && t[p].leaf;
      LeafIsDecided(h, p);
      var i :| 0 <= i < |h| && h[i].x == p && Decided(h[i].result);
      assert h[i].x <= x;
    }
    if i :| 0 <= i < |h| && h[i].x <= x && Decided(h[i].result) {
      ShortestDecision(t, h, x, i);
    }
  }

  lemma {:induction false} ShortestDecision(t: Trie, h: History, x: Path, i: nat)
    requires Describes(t, h)
    requires i < |h| && h[i].x <= x && Decided(h[i].result)
    ensures Excluded(t, x)
    decreases |h[i].x|
  {
    var p := h[i].x;
    if Cut(h, p) {
      var j :| 0 <= j < |h| && h[j].x < p && Decided(h[j].result);
      ShortestDecision(t, h, x, j);
    } else {
      assert Recorded(h, p);
      LeafIsDecided(h, p);
      assert p in t && t[p].leaf;
    }
  }

  /** Adding to a tree that the history describes gives the tree that the longer history describes. */
  lemma AddDescribes(t: Trie, h: History, e: Entry)
    requires Describes(t, h)
    ensures Describes(Add(t, e.x, e.result, e.input), h + [e])
  {
    var t' := Add(t, e.x, e.result, e.input);
    ExcludedIff(t, h, e.x);
    forall p ensures (p in t' <==> Present(h + [e], p)) && (p in t' ==> t'[p] == InfoAt(h + [e], p)) {
      OneMore(h, e, p);
      if DecidedPrefix(h, e.x) {
        BlockedAdd(h, e, p);
      } else {
        FreeAdd(t, h, e, p);
      }
    }
  }

  lemma BlockedAdd(h: History, e: Entry, p: Path)
    requires DecidedPrefix(h, e.x)
    ensures Present(h + [e], p) <==> Present(h, p)
    ensures Present(h, p) ==> InfoAt(h + [e], p) == InfoAt(h, p)
  {
    OneMore(h, e, p);
    var i :| 0 <= i < |h| && h[i].x <= e.x && Decided(h[i].result);
    var d := h[i].x;
    if e.x < p {
      assert d < p;
    }
    if p <= e.x {
      if |d| < |p| {
        assert p[..|d|] == e.x[..|d|] == d;
        assert d < p;
      } else {
        assert p == e.x[..|p|] == d[..|p|];
        assert p <= h[i].x;
        if e.x == p {
          LeafIsDecided(h, p);
          assert d == p;
        }
      }
    }
  }

  lemma FreeAdd(t: Trie, h: History, e: Entry, p: Path)
    requires Describes(t, h) && !DecidedPrefix(h, e.x) && !Excluded(t, e.x)
    ensures var t' := Add(t, e.x, e.result, e.input);
            (p in t' <==> Present(h + [e], p)) && (p in t' ==> t'[p] == InfoAt(h + [e], p))
  {
    OneMore(h, e, p);
    var g := Grow(t, e.x);
    assert p <= e.x ==> !Cut(h, p);
    assert p in g <==> p in t || p <= e.x;
    if p == e.x {
      LeafIsDecided(h, p);
      assert !DecidedAt(h, p);
    } else if p in g && p !in t {
      NothingKnown(h, p);
    }
  }

  lemma {:induction false} NothingKnown(h: History, p: Path)
    requires !Recorded(h, p)
    ensures InfoAt(h, p) == BLANK
  {
    if h != [] {
      var h', e := h[..|h| - 1], h[|h| - 1];
      assert h == h' + [e];
      OneMore(h', e, p);
      NothingKnown(h', p);
    }
  }

  /** The tree is a function of the plain history: which paths it has, and what is known at each. */
  lemma {:induction false} TreeIsItsHistory(h: History)
    ensures Describes(Run(h), h)
  {
    if h == [] {
      assert forall p :: Present(h, p) <==> p == [];
    } else {
      var h', e := h[..|h| - 1], h[|h| - 1];
      TreeIsItsHistory(h');
      AddDescribes(Run(h'), h', e);
      assert h == h' + [e];
    }
  }

  /** When entry `i` came, no earlier decision was on its path. */
  ghost predicate Enters(h: History, i: nat)
    requires i < |h|
  {
    !DecidedPrefix(h[..i], h[i].x)
  }

  /** The length of the longest input that entered the tree. */
  ghost predicate Deepest(h: History, depth: nat) {
    && (forall i: nat :: i < |h| && Enters(h, i) ==> |h[i].x| <= depth)
    && (depth > 0 ==> exists i: nat :: i < |h| && Enters(h, i) && |h[i].x| == depth)
  }

  lemma DeepestMore(h: History, e: Entry, depth: nat)
    requires Deepest(h, depth)
    ensures Deepest(h + [e], if !DecidedPrefix(h, e.x) && depth < |e.x| then |e.x| else depth)
  {
    hide DecidedPrefix;
    var g, d := h + [e], if !DecidedPrefix(h, e.x) && depth < |e.x| then |e.x| else depth;
    forall i: nat | i < |h| ensures Enters(g, i) == Enters(h, i) && g[i] == h[i] {
      assert g[..i] == h[..i];
    }
    assert g[..|h|] == h && Enters(g, |h|) == !DecidedPrefix(h, e.x);
    if d > 0 && d == depth {
      var i: nat :| i < |h| && Enters(h, i) && |h[i].x| == depth;
      assert Enters(g, i);
    }
  }

  // What the queries mean

  /** The leaves are exactly the prefix-minimal decided inputs, in whatever order they were added. */
  lemma LeavesAreMinimalDecisions(h: History, p: Path)
    ensures p in Run(h) && Run(h)[p].leaf <==> DecidedAt(h, p) && !Cut(h, p)
  {
    TreeIsItsHistory(h);
    LeafIsDecided(h, p);
    if DecidedAt(h, p) {
      var i :| 0 <= i < |h| && h[i].x == p && Decided(h[i].result);
      assert p <= h[i].x;
    }
  }

  /** Nothing lies below a leaf. */
  lemma LeavesEndPaths(h: History, p: Path, q: Path)
    requires p in Run(h) && Run(h)[p].leaf && p < q
    ensures q !in Run(h)
  {
    TreeIsItsHistory(h);
    LeafIsDecided(h, p);
    var i :| 0 <= i < |h| && h[i].x == p && Decided(h[i].result);
    assert h[i].x < q;
  }

  /** The answer of `HasPrefix`, as a reading of the tree. */
  ghost predicate Answered(t: Trie, x: Path) {
    Excluded(t, x) || (x != [] && x in t && t[x].result == Unfinished)
  }

  /** The last result that was recorded at exactly `x` is Unfinished. */
  ghost predicate LastUnfinished(h: History, x: Path) {
    exists i :: 0 <= i < |h| && h[i].x == x && h[i].result == Unfinished
                && forall j :: i < j < |h| ==> h[j].x != x
  }

  lemma LastOneMore(h: History, e: Entry, x: Path)
    ensures LastUnfinished(h + [e], x) <==> if e.x == x then e.result == Unfinished else LastUnfinished(h, x)
  {
    var g := h + [e];
    assert g[|h|] == e && forall i :: 0 <= i < |h| ==> g[i] == h[i];
    if e.x != x && LastUnfinished(h, x) {
      var i :| 0 <= i < |h| && h[i].x == x && h[i].result == Unfinished && forall j :: i < j < |h| ==> h[j].x != x;
      assert g[i] == h[i] && forall j :: i < j < |g| ==> g[j].x != x;
    }
  }

  lemma {:induction false} UnfinishedIsLast(h: History, x: Path)
    requires !DecidedAt(h, x)
    ensures InfoAt(h, x).result == Unfinished <==> LastUnfinished(h, x)
  {
    if h != [] {
      var h', e := h[..|h| - 1], h[|h| - 1];
      assert h == h' + [e];
      OneMore(h', e, x);
      LastOneMore(h', e, x);
      LeafIsDecided(h', x);
      UnfinishedIsLast(h', x);
    }
  }

  /** `HasPrefix` answers from the history: a prefix was decided, or the input itself was last seen unfinished. */
  lemma AnsweredIff(h: History, x: Path)
    requires x != []
    ensures Answered(Run(h), x) <==> DecidedPrefix(h, x) || LastUnfinished(h, x)
  {
    var t := Run(h);
    TreeIsItsHistory(h);
    ExcludedIff(t, h, x);
    if !DecidedPrefix(h, x) {
      assert !DecidedAt(h, x);
      UnfinishedIsLast(h, x);
      if LastUnfinished(h, x) {
        var i :| 0 <= i < |h| && h[i].x == x && h[i].result == Unfinished;
        assert Recorded(h, x) && !Cut(h, x);
      }
    }
  }

  /** A node that answers for its extensions: a decided input or an unfinished one. */
  predicate Marked(i: Info) {
    i.leaf || i.result == Unfinished
  }

  ghost predicate MarkedExtension(t: Trie, x: Path, q: Path) {
    q in t && x <= q && Marked(t[q])
  }

  // The same on the history alone: pruning loses no answer

  /** The input was decided, or was last seen unfinished. */
  ghost predicate KnownAt(h: History, q: Path) {
    DecidedAt(h, q) || LastUnfinished(h, q)
  }

  ghost predicate KnownExtension(h: History, x: Path, q: Path) {
    x <= q && KnownAt(h, q)
  }

  /** `id` belongs to the first decision on the way to `x`, or to `x` itself if there is none and it is
      unfinished. */
  ghost predicate NamesKnown(h: History, x: Path, id: nat) {
    exists p :: p <= x && InfoAt(h, p).input == id
                && ((DecidedAt(h, p) && !Cut(h, p)) || (p == x && LastUnfinished(h, p) && !DecidedPrefix(h, p)))
  }

  /** `id` belongs to a shortest known extension of `x` among all that were ever added. */
  ghost predicate NamesNearest(h: History, x: Path, id: nat) {
    exists q ::
      && KnownExtension(h, x, q) && InfoAt(h, q).input == id
      && forall r :: KnownExtension(h, x, r) ==> |q| <= |r|
  }

  lemma MarkedIsKnown(h: History, x: Path, q: Path)
    requires MarkedExtension(Run(h), x, q)
    ensures KnownExtension(h, x, q) && Run(h)[q] == InfoAt(h, q)
  {
    TreeIsItsHistory(h);
    LeafIsDecided(h, q);
    if !DecidedAt(h, q) {
      UnfinishedIsLast(h, q);
    }
  }

  /** If no prefix of `x` was decided, everything known below `x` is in the tree or has been cut off by something
      nearer. */
  lemma {:induction false} KnownHasMarked(h: History, x: Path, q: Path) returns (r: Path)
    requires KnownExtension(h, x, q) && !DecidedPrefix(h, x)
    ensures MarkedExtension(Run(h), x, r) && |r| <= |q|
    decreases |q|
  {
    if Cut(h, q) {
      var i :| 0 <= i < |h| && h[i].x < q && Decided(h[i].result);
      assert DecidedAt(h, h[i].x) && !(h[i].x <= x);
      assert x == q[..|x|] && h[i].x == q[..|h[i].x|];
      r := KnownHasMarked(h, x, h[i].x);
    } else {
      r := q;
      TreeIsItsHistory(h);
      LeafIsDecided(h, q);
      assert Recorded(h, q);
      if !DecidedAt(h, q) {
        UnfinishedIsLast(h, q);
      }
    }
  }

  /** The search in the tree finds what a search in the whole history would find. */
  lemma NearestIsKnown(h: History, x: Path, id: nat)
    requires !DecidedPrefix(h, x)
    ensures (exists q :: MarkedExtension(Run(h), x, q)) <==> exists q :: KnownExtension(h, x, q)
    ensures NamesShortest(Run(h), x, id) ==> NamesNearest(h, x, id)
  {
    hide KnownExtension, DecidedPrefix, InfoAt, Run;
    if q :| MarkedExtension(Run(h), x, q) {
      MarkedIsKnown(h, x, q);
    }
    if q :| KnownExtension(h, x, q) {
      var r := KnownHasMarked(h, x, q);
    }
    if NamesShortest(Run(h), x, id) {
      var q :| MarkedExtension(Run(h), x, q) && Run(h)[q].input == id
               && forall r :: MarkedExtension(Run(h), x, r) ==> |q| <= |r|;
      MarkedIsKnown(h, x, q);
      forall r | KnownExtension(h, x, r) ensures |q| <= |r| {
        var r' := KnownHasMarked(h, x, r);
      }
    }
  }

  lemma KnownIsNamed(h: History, x: Path, id: nat)
    requires NamesPrefix(Run(h), x, id)
    ensures NamesKnown(h, x, id)
  {
    var t := Run(h);
    TreeIsItsHistory(h);
    var p :| p in t && p <= x && t[p].input == id && (t[p].leaf || (p == x && t[p].result == Unfinished));
    LeafIsDecided(h, p);
    LeavesAreMinimalDecisions(h, p);
    if !t[p].leaf {
      UnfinishedIsLast(h, p);
      assert p != [] by { RootIsBlank(h); }
      assert !Cut(h, p);
      assert forall i :: 0 <= i < |h| && h[i].x <= p ==> h[i].x == p || h[i].x < p;
    }
  }

  lemma {:induction false} RootIsBlank(h: History)
    ensures InfoAt(h, []) == BLANK
  {
    if h != [] {
      RootIsBlank(h[..|h| - 1]);
    }
  }

  /** `id` belongs to the decided prefix of `x`, or to `x` itself if it is unfinished. */
  ghost predicate NamesPrefix(t: Trie, x: Path, id: nat) {
    exists p :: p in t && p <= x && t[p].input == id && (t[p].leaf || (p == x && t[p].result == Unfinished))
  }

  ghost predicate NamesShortest(t: Trie, x: Path, id: nat) {
    exists q :: MarkedExtension(t, x, q) && t[q].input == id && forall r :: MarkedExtension(t, x, r) ==> |q| <= |r|
  }
}

/** The part of a prefix-closed set of paths that a search still has in front of it. */
module PathFrontier {
  import opened TrieHistory

  ghost predicate PrefixClosed(dom: set<Path>) {
    forall p, q :: q in dom && p <= q ==> p in dom
  }

  /** No element of `f` is a prefix of another one. */
  ghost predicate Frontier(dom: set<Path>, f: seq<Path>) {
    && (forall i :: 0 <= i < |f| ==> f[i] in dom)
    && (forall i, j :: 0 <= i < |f| && 0 <= j < |f| && i != j ==> !(f[i] <= f[j]))
  }

  ghost function Below(dom: set<Path>, f: seq<Path>): set<Path> {
    set q | q in dom && exists i :: 0 <= i < |f| && f[i] <= q
  }

  /** `kids` lists the children of `t`, each once. */
  ghost predicate ChildrenOf(dom: set<Path>, t: Path, kids: seq<Path>) {
    && (forall i :: 0 <= i < |kids| ==> kids[i] in dom && |kids[i]| == |t| + 1 && t < kids[i])
    && (forall i, j :: 0 <= i < j < |kids| ==> kids[i] != kids[j])
    && (forall q :: q in dom && t < q && |q| == |t| + 1 ==> q in kids)
  }

  lemma PrefixesCompare(a: Path, b: Path, q: Path)
    requires a <= q && b <= q
    ensures a <= b || b <= a
  {
    assert a == q[..|a|] && b == q[..|b|];
  }

  lemma PopKeepsFrontier(dom: set<Path>, rest: seq<Path>, t: Path, kids: seq<Path>)
    requires Frontier(dom, rest + [t]) && ChildrenOf(dom, t, kids)
    ensures Frontier(dom, rest + kids)
  {
    var f, f' := rest + [t], rest + kids;
    assert f[|rest|] == t && forall i :: 0 <= i < |rest| ==> f[i] == rest[i] == f'[i];
    assert forall i :: 0 <= i < |rest| ==> !(f[i] <= f[|rest|]) && !(f[|rest|] <= f[i]);
    forall i, j | 0 <= i < |f'| && 0 <= j < |f'| && i != j ensures !(f'[i] <= f'[j]) {
      if i < |rest| <= j && f'[i] <= f'[j] {
        PrefixesCompare(f'[i], t, f'[j]);
      }
    }
  }

  lemma ChildrenStayBelow(dom: set<Path>, rest: seq<Path>, t: Path, kids: seq<Path>, q: Path)
    requires Frontier(dom, rest + [t]) && ChildrenOf(dom, t, kids)
    requires q in Below(dom, rest + kids)
    ensures q in Below(dom, rest + [t]) && q != t
  {
    var f, f' := rest + [t], rest + kids;
    assert f[|rest|] == t;
    var i :| 0 <= i < |f'| && f'[i] <= q;
    if i < |rest| {
      assert f[i] == f'[i];
      assert !(f[i] <= f[|rest|]);
    } else {
      assert t < f'[i] <= q;
      assert f[|rest|] <= q;
    }
  }

  lemma OnlyOneLeaves(dom: set<Path>, rest: seq<Path>, t: Path, kids: seq<Path>, q: Path)
    requires PrefixClosed(dom) && ChildrenOf(dom, t, kids)
    requires q in Below(dom, rest + [t]) && q != t
    ensures q in Below(dom, rest + kids)
  {
    var f, f' := rest + [t], rest + kids;
    var i :| 0 <= i < |f| && f[i] <= q;
    if i < |rest| {
      assert f'[i] == f[i];
    } else {
      var k := q[..|t| + 1];
      assert k in dom && t < k;
      var m :| 0 <= m < |kids| && kids[m] == k;
      assert f'[|rest| + m] == k;
    }
  }

  /** Replacing a node of the frontier by its children takes exactly that node out of the region. */
  lemma PopShrinks(dom: set<Path>, rest: seq<Path>, t: Path, kids: seq<Path>)
    requires PrefixClosed(dom) && Frontier(dom, rest + [t]) && ChildrenOf(dom, t, kids)
    ensures t in Below(dom, rest + [t])
    ensures Below(dom, rest + kids) == Below(dom, rest + [t]) - {t}
  {
    assert (rest + [t])[|rest|] == t;
    forall q | q in Below(dom, rest + kids) ensures q in Below(dom, rest + [t]) - {t} {
      ChildrenStayBelow(dom, rest, t, kids, q);
    }
    forall q | q in Below(dom, rest + [t]) - {t} ensures q in Below(dom, rest + kids) {
      OnlyOneLeaves(dom, rest, t, kids, q);
    }
  }

  lemma RotateFrontier(dom: set<Path>, f: seq<Path>)
    requires f != []
    ensures Frontier(dom, f) ==> Frontier(dom, f[1..] + [f[0]])
    ensures Below(dom, f) == Below(dom, f[1..] + [f[0]])
  {
    var g := f[1..] + [f[0]];
    assert forall i :: 0 <= i < |f| ==> f[i] == g[if i == 0 then |f| - 1 else i - 1];
    assert forall i :: 0 <= i < |g| ==> g[i] == f[if i == |f| - 1 then 0 else i + 1];
  }

  /** A queue in breadth-first order. */
  ghost predicate ByLength(f: seq<Path>) {
    && (forall i, j :: 0 <= i <= j < |f| ==> |f[i]| <= |f[j]|)
    && (forall i :: 0 <= i < |f| ==> |f[i]| <= |f[0]| + 1)
  }

  lemma PopKeepsLengths(f: seq<Path>, kids: seq<Path>)
    requires f != [] && ByLength(f)
    requires forall i :: 0 <= i < |kids| ==> |kids[i]| == |f[0]| + 1
    ensures ByLength(f[1..] + kids)
  {
    var g := f[1..] + kids;
    assert forall i :: 0 <= i < |g| ==> g[i] == if i + 1 < |f| then f[i + 1] else kids[i + 1 - |f|];
  }
}
