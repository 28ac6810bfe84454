/** The nodes of the exclusion tree on the heap, the form registry and the string table, and the tree that
    linked nodes form, seen by path. */
module TreeNodes {
  import opened Basics
  import opened TrieHistory
  import opened PathFrontier

  const BASE_FORM_ID: FormID := 100

  class ExclusionTreeNode {
    const formID: FormID
    /** The strings on the way from the root to this node. */
    ghost const path: Path

    var stringID: FormID
    var children: seq<ExclusionTreeNode>
    var result: OracleResult
    var inputID: FormID
    var isLeaf: bool
    var deleted: bool
    /** The form has been written to, or read from, a save file. */
    var saved: bool
    /** The ids that a loaded node holds in place of its children until they are linked. */
    var childIDs: seq<FormID>

    constructor (id: FormID, ghost p: Path)
      ensures formID == id && path == p
      ensures stringID == 0 && children == [] && inputID == 0 && result == NoResult && !isLeaf && !deleted && !saved
      ensures childIDs == []
    {
      formID, path := id, p;
      stringID, children, inputID, result, isLeaf, deleted, saved, childIDs := 0, [], 0, NoResult, false, false, false,
        [];
    }

    method HasChild(id: FormID) returns (r: Option<ExclusionTreeNode>)
      ensures r.None? ==> forall c :: c in children ==> c.stringID != id
      ensures r.Some? ==> r.value in children && r.value.stringID == id
    {
      for i := 0 to |children|
        invariant forall j :: 0 <= j < i ==> children[j].stringID != id
      {
        if children[i].stringID == id {
          return Some(children[i]);
        }
      }
      return None;
    }
  }

  /** The registry of forms and the table of strings that the tree works with. */
  class Data {
    var nextFormID: FormID
    var hashmap: map<FormID, ExclusionTreeNode>
    var nextStringID: FormID
    var ids: map<string, FormID>
    var strings: map<FormID, string>

    constructor ()
      ensures StringsOk() && FormsOk() && hashmap == map[] && ids == map[]
    {
      nextFormID, nextStringID := BASE_FORM_ID, BASE_FORM_ID;
      hashmap, ids, strings := map[], map[], map[];
    }

    /** The table is a bijection between strings and the ids handed out so far. */
    ghost predicate StringsOk()
      reads this`ids, this`strings, this`nextStringID
    {
      && (forall s :: s in ids ==> ids[s] in strings && strings[ids[s]] == s)
      && (forall i :: i in strings ==> i < nextStringID && strings[i] in ids && ids[strings[i]] == i)
    }

    ghost predicate FormsOk()
      reads this`hashmap, this`nextFormID
    {
      && 0 < nextFormID
      && forall id :: id in hashmap ==> 0 < id < nextFormID && hashmap[id].formID == id
    }

    method GetIDFromString(s: string) returns (id: FormID)
      requires StringsOk()
      modifies this`ids, this`strings, this`nextStringID
      ensures StringsOk()
      ensures s in ids && ids[s] == id
      ensures ids == if s in old(ids) then old(ids) else old(ids)[s := old(nextStringID)]
    {
      if s in ids {
        return ids[s];
      }
      id := nextStringID;
      nextStringID := nextStringID + 1;
      ids, strings := ids[s := id], strings[id := s];
    }

    method CreateForm(ghost p: Path) returns (n: ExclusionTreeNode)
      requires FormsOk()
      modifies this`hashmap, this`nextFormID
      ensures FormsOk() && fresh(n) && n.formID == old(nextFormID) && n.path == p
      ensures hashmap == old(hashmap)[n.formID := n]
      ensures n.stringID == 0 && n.children == [] && n.inputID == 0 && n.result == NoResult && !n.isLeaf && !n.deleted
              && !n.saved
    {
      n := new ExclusionTreeNode(nextFormID, p);
      nextFormID := nextFormID + 1;
      hashmap := hashmap[n.formID := n];
    }

    /** A form that was in a save stays registered, marked, so that the next save can tell that it is gone.
        The caller passes the id of a form that is registered and not deleted, or 0. */
    method DeleteForm(id: FormID)
      requires FormsOk()
      requires id != 0 ==> id in hashmap && !hashmap[id].deleted
      modifies this`hashmap, (if id in hashmap then {hashmap[id]} else {})`deleted
      ensures FormsOk()
      ensures id != 0 ==> old(hashmap[id]).deleted
      ensures hashmap == if id != 0 && !old(hashmap[id].saved) then old(hashmap) - {id} else old(hashmap)
    {
      if id != 0 {
        var form := hashmap[id];
        form.deleted := true;
        if !form.saved {
          hashmap := hashmap - {id};
        }
      }
    }
  }

  datatype Input = Input(sequence: Path, formID: FormID)

  datatype Settings = Settings(disableExclusionTree: bool, enableExclusionTree: bool, lengthLimit: int)

  predicate Off(s: Settings) {
    s.disableExclusionTree || !s.enableExclusionTree
  }

  /** The calls of `AddInput` that reach the tree. */
  predicate Accepted(s: Settings, input: Option<Input>) {
    input.Some? && input.value.sequence != [] && !Off(s) && |input.value.sequence| <= AsSize(s.lengthLimit)
  }

  // ---------------------------------------------------------------------------------------------
  // The nodes of the tree at one moment, by path

  datatype NodeState = NodeState(ref: ExclusionTreeNode, children: seq<ExclusionTreeNode>, stringID: FormID,
                                 deleted: bool, info: Info)

  type View = map<Path, NodeState>

  function Parent(p: Path): Path
    requires p != []
  {
    p[..|p| - 1]
  }

  function Last(p: Path): string
    requires p != []
  {
    p[|p| - 1]
  }

  ghost function PathsOf(s: seq<ExclusionTreeNode>): seq<Path> {
    seq(|s|, i requires 0 <= i < |s| => s[i].path)
  }

  /** The node at `p` hangs under its parent by the id of its last string, and its children are nodes. */
  ghost predicate NodeOk(v: View, ids: map<string, FormID>, p: Path)
    requires p in v
  {
    var n := v[p];
    && n.ref.path == p
    && (p != [] ==>
          && Parent(p) in v && n.ref in v[Parent(p)].children
          && Last(p) in ids && n.stringID == ids[Last(p)])
    && (forall i {:trigger ChildOk(v, p, n.children[i])} :: 0 <= i < |n.children| ==> ChildOk(v, p, n.children[i]))
    && (forall i, j :: 0 <= i < j < |n.children| ==> n.children[i] != n.children[j])
  }

  ghost predicate ChildOk(v: View, p: Path, c: ExclusionTreeNode) {
    c.path in v && v[c.path].ref == c && |c.path| == |p| + 1 && p < c.path
  }

  /** The nodes form one tree; each of them is registered and not deleted. */
  ghost predicate Linked(v: View, hashmap: map<FormID, ExclusionTreeNode>, ids: map<string, FormID>) {
    && [] in v
    && (forall p {:trigger NodeOk(v, ids, p)} :: p in v ==> NodeOk(v, ids, p))
    && Registered(v, hashmap)
  }

  ghost predicate Registered(v: View, hashmap: map<FormID, ExclusionTreeNode>) {
    forall p :: p in v ==> v[p].ref.formID in hashmap && hashmap[v[p].ref.formID] == v[p].ref && !v[p].deleted
  }

  ghost predicate LeavesOk(v: View) {
    forall p :: p in v && v[p].info.leaf ==> v[p].children == [] && Decided(v[p].info.result)
  }

  ghost function Leaves(v: View): set<Path> {
    set p | p in v && v[p].info.leaf
  }

  ghost predicate Sized(v: View, nodecount: int, leafcount: int) {
    nodecount + 1 == |v| && leafcount == |Leaves(v)|
  }

  ghost function TreeOf(v: View): Trie {
    map p | p in v :: v[p].info
  }

  lemma {:induction false} HasPrefixes(v: View, hashmap: map<FormID, ExclusionTreeNode>, ids: map<string, FormID>,
                                       p: Path, q: Path)
    requires Linked(v, hashmap, ids) && q in v && p <= q
    ensures p in v
    decreases |q|
  {
    if p != q {
      assert NodeOk(v, ids, q);
      HasPrefixes(v, hashmap, ids, p, Parent(q));
    }
  }

  lemma KeysClosed(v: View, hashmap: map<FormID, ExclusionTreeNode>, ids: map<string, FormID>)
    requires Linked(v, hashmap, ids)
    ensures PrefixClosed(v.Keys)
  {
    forall p, q | q in v && p <= q ensures p in v {
      HasPrefixes(v, hashmap, ids, p, q);
    }
  }

  /** The child list of a node is the list of its children among the paths. */
  lemma ChildPaths(v: View, hashmap: map<FormID, ExclusionTreeNode>, ids: map<string, FormID>, p: Path)
    requires Linked(v, hashmap, ids) && p in v
    ensures ChildrenOf(v.Keys, p, PathsOf(v[p].children))
  {
    var n := v[p];
    var kids := PathsOf(n.children);
    assert NodeOk(v, ids, p);
    forall i | 0 <= i < |kids| ensures kids[i] in v && |kids[i]| == |p| + 1 && p < kids[i] {
      assert ChildOk(v, p, n.children[i]);
    }
    forall i, j | 0 <= i < j < |kids| ensures kids[i] != kids[j] {
      assert ChildOk(v, p, n.children[i]) && ChildOk(v, p, n.children[j]);
    }
    forall q | q in v && p < q && |q| == |p| + 1 ensures q in kids {
      assert NodeOk(v, ids, q) && Parent(q) == p;
      var i :| 0 <= i < |n.children| && n.children[i] == v[q].ref;
      assert kids[i] == q;
    }
  }

  /** Interned ids are injective, so looking for an id finds the child for its string. */
  lemma ChildByID(v: View, hashmap: map<FormID, ExclusionTreeNode>, ids: map<string, FormID>, p: Path, s: string,
                  c: ExclusionTreeNode)
    requires Linked(v, hashmap, ids) && p in v && s in ids && c in v[p].children
    requires forall a, b :: a in ids && b in ids && ids[a] == ids[b] ==> a == b
    ensures c.path in v && v[c.path].ref == c
    ensures v[c.path].stringID == ids[s] <==> c.path == p + [s]
  {
    assert NodeOk(v, ids, p);
    assert ChildOk(v, p, c);
    assert NodeOk(v, ids, c.path);
    assert c.path == p + [Last(c.path)];
  }

  lemma LinkedMoreIds(v: View, hashmap: map<FormID, ExclusionTreeNode>, ids: map<string, FormID>, ids': map<string,
                      FormID>)
    requires Linked(v, hashmap, ids)
    requires forall s :: s in ids ==> s in ids' && ids'[s] == ids[s]
    ensures Linked(v, hashmap, ids')
  {
    forall q | q in v ensures NodeOk(v, ids', q) {
      assert NodeOk(v, ids, q);
    }
  }

  /** A child list is searched by id exactly as the tree is searched by string. */
  lemma SearchByID(v: View, hashmap: map<FormID, ExclusionTreeNode>, ids: map<string, FormID>, p: Path, s: string,
                   found: Option<ExclusionTreeNode>)
    requires Linked(v, hashmap, ids) && p in v && s in ids
    requires forall a, b :: a in ids && b in ids && ids[a] == ids[b] ==> a == b
    requires found.None? ==> forall c :: c in v[p].children && c.path in v ==> v[c.path].stringID != ids[s]
    requires found.Some? ==>
               && found.value in v[p].children
               && (found.value.path in v ==> v[found.value.path].stringID == ids[s])
    ensures found.Some? ==> p + [s] in v && v[p + [s]].ref == found.value
    ensures found.None? ==> p + [s] !in v
  {
    if found.Some? {
      ChildByID(v, hashmap, ids, p, s, found.value);
    } else if p + [s] in v {
      HangsUnderParent(v, hashmap, ids, p, s);
    }
  }

  lemma HangsUnderParent(v: View, hashmap: map<FormID, ExclusionTreeNode>, ids: map<string, FormID>, p: Path, s: string)
    requires Linked(v, hashmap, ids) && p + [s] in v
    ensures var c := v[p + [s]].ref;
            p in v && c in v[p].children && c.path == p + [s] && s in ids && v[p + [s]].stringID == ids[s]
  {
    assert NodeOk(v, ids, p + [s]);
    assert Parent(p + [s]) == p;
  }

  /** The view after a new child for the string `s` was hung under `p`. */
  ghost function WithChild(v: View, p: Path, s: string, id: FormID, child: ExclusionTreeNode): View
    requires p in v
  {
    v[p := v[p].(children := v[p].children + [child])][p + [s] := NodeState(child, [], id, false, BLANK)]
  }

  lemma WithChildLinked(v: View, hashmap: map<FormID, ExclusionTreeNode>, ids: map<string, FormID>,
                        p: Path, s: string, id: FormID, child: ExclusionTreeNode)
    requires Linked(v, hashmap, ids) && p in v && p + [s] !in v
    requires child.path == p + [s] && child.formID !in hashmap && s in ids && ids[s] == id
    ensures Linked(WithChild(v, p, s, id, child), hashmap[child.formID := child], ids)
  {
    var w := WithChild(v, p, s, id, child);
    forall q | q in w ensures NodeOk(w, ids, q) {
      if q == p + [s] {
        var kids := w[p].children;
        assert kids[|kids| - 1] == child;
        assert Parent(q) == p && Last(q) == s;
      } else {
        assert NodeOk(v, ids, q);
        assert q != [] ==> Parent(q) in v && v[q].ref in w[Parent(q)].children;
        forall i | 0 <= i < |w[q].children| ensures ChildOk(w, q, w[q].children[i]) {
          assert i < |v[q].children| ==> ChildOk(v, q, v[q].children[i]);
        }
        forall i, j | 0 <= i < j < |w[q].children| ensures w[q].children[i] != w[q].children[j] {
          assert ChildOk(v, q, v[q].children[i]);
        }
      }
    }
  }

  lemma WithChildSized(v: View, nodecount: int, leafcount: int, p: Path, s: string, id: FormID,
                       child: ExclusionTreeNode)
    requires p in v && p + [s] !in v && Sized(v, nodecount, leafcount)
    ensures Sized(WithChild(v, p, s, id, child), nodecount + 1, leafcount)
  {
    WithChildCounts(v, p, s, id, child);
  }

  lemma WithChildKeepsRefs(v: View, p: Path, s: string, id: FormID, child: ExclusionTreeNode, q: Path)
    requires p in v && p + [s] !in v && q in v
    ensures q in WithChild(v, p, s, id, child) && WithChild(v, p, s, id, child)[q].ref == v[q].ref
  {}

  lemma WithChildCounts(v: View, p: Path, s: string, id: FormID, child: ExclusionTreeNode)
    requires p in v && p + [s] !in v
    ensures var w := WithChild(v, p, s, id, child);
            && |w| == |v| + 1 && Leaves(w) == Leaves(v)
            && TreeOf(w) == TreeOf(v)[p + [s] := BLANK]
            && (LeavesOk(v) && !v[p].info.leaf ==> LeavesOk(w))
  {
    var w := WithChild(v, p, s, id, child);
    assert w.Keys == v.Keys + {p + [s]};
  }

  /** The view while the nodes strictly below `p` are being removed; those in `below` are still there. */
  ghost function Kept(v: View, p: Path, below: set<Path>): View {
    map q | q in v && (!(p < q) || q in below) :: if q == p then v[q].(children := []) else v[q]
  }

  lemma KeptLinked(v: View, hashmap: map<FormID, ExclusionTreeNode>, hashmap': map<FormID, ExclusionTreeNode>,
                   ids: map<string, FormID>, p: Path)
    requires Linked(v, hashmap, ids) && p in v && Registered(Kept(v, p, {}), hashmap')
    ensures Linked(Kept(v, p, {}), hashmap', ids)
  {
    var w := Kept(v, p, {});
    forall q | q in w ensures NodeOk(w, ids, q) {
      assert NodeOk(v, ids, q);
      forall i | 0 <= i < |w[q].children| ensures ChildOk(w, q, w[q].children[i]) {
        assert ChildOk(v, q, v[q].children[i]);
      }
    }
  }

  /** Taking one node out of the region takes it out of the view, and nothing else. */
  lemma KeptLoses(v: View, p: Path, below: set<Path>, t: Path)
    requires t in below && t in v && p < t
    ensures Kept(v, p, below - {t}) == Kept(v, p, below) - {t}
    ensures t in Kept(v, p, below) && Kept(v, p, below)[t] == v[t]
  {}

  lemma KeptAll(v: View, p: Path, below: set<Path>)
    requires p in v && forall q :: q in v && p < q ==> q in below
    ensures Kept(v, p, below) == v[p := v[p].(children := [])]
  {}

  /** The nodes on the removal stack: nodes of the tree below `p`, none of them below another. */
  ghost predicate StackOk(v: View, p: Path, stack: seq<ExclusionTreeNode>) {
    && (forall i :: 0 <= i < |stack| ==> stack[i].path in v && v[stack[i].path].ref == stack[i] && p < stack[i].path)
    && Frontier(v.Keys, PathsOf(stack))
  }

  /** What is still there while `stack` is being worked off. */
  ghost function Remaining(v: View, p: Path, stack: seq<ExclusionTreeNode>): View {
    Kept(v, p, Below(v.Keys, PathsOf(stack)))
  }

  lemma StartStack(v: View, hashmap: map<FormID, ExclusionTreeNode>, ids: map<string, FormID>, p: Path)
    requires Linked(v, hashmap, ids) && p in v
    ensures StackOk(v, p, v[p].children)
  {
    ChildPaths(v, hashmap, ids, p);
    assert NodeOk(v, ids, p);
    forall i | 0 <= i < |v[p].children| ensures ChildOk(v, p, v[p].children[i]) {}
  }

  lemma StartRemaining(v: View, hashmap: map<FormID, ExclusionTreeNode>, ids: map<string, FormID>, p: Path)
    requires Linked(v, hashmap, ids) && p in v
    ensures Remaining(v, p, v[p].children) == v[p := v[p].(children := [])]
  {
    ChildPaths(v, hashmap, ids, p);
    var f := PathsOf(v[p].children);
    forall q | q in v && p < q ensures q in Below(v.Keys, f) {
      HasPrefixes(v, hashmap, ids, q[..|p| + 1], q);
      var i :| 0 <= i < |f| && f[i] == q[..|p| + 1];
    }
    KeptAll(v, p, Below(v.Keys, f));
  }

  /** Replacing the top of the stack by its children. */
  lemma PopStack(v: View, hashmap: map<FormID, ExclusionTreeNode>, ids: map<string, FormID>, p: Path,
                 rest: seq<ExclusionTreeNode>, tmp: ExclusionTreeNode)
    requires Linked(v, hashmap, ids) && StackOk(v, p, rest + [tmp])
    ensures tmp.path in v && v[tmp.path].ref == tmp && p < tmp.path
    ensures StackOk(v, p, rest + v[tmp.path].children)
  {
    var stack := rest + [tmp];
    assert stack[|rest|] == tmp;
    var t := tmp.path;
    var kids := v[t].children;
    ChildPaths(v, hashmap, ids, t);
    PathsConcat(rest, [tmp]);
    PathsConcat(rest, kids);
    assert PathsOf([tmp]) == [t];
    PopKeepsFrontier(v.Keys, PathsOf(rest), t, PathsOf(kids));
    assert NodeOk(v, ids, t);
    forall i | 0 <= i < |rest + kids|
      ensures (rest + kids)[i].path in v && v[(rest + kids)[i].path].ref == (rest + kids)[i]
              && p < (rest + kids)[i].path
    {
      if i < |rest| {
        assert stack[i] == rest[i];
      } else {
        assert ChildOk(v, t, kids[i - |rest|]);
      }
    }
  }

  lemma PopRemaining(v: View, hashmap: map<FormID, ExclusionTreeNode>, ids: map<string, FormID>, p: Path,
                     rest: seq<ExclusionTreeNode>, tmp: ExclusionTreeNode)
    requires Linked(v, hashmap, ids) && StackOk(v, p, rest + [tmp]) && tmp.path in v && p < tmp.path
    ensures Remaining(v, p, rest + v[tmp.path].children) == Remaining(v, p, rest + [tmp]) - {tmp.path}
    ensures tmp.path in Remaining(v, p, rest + [tmp]) && Remaining(v, p, rest + [tmp])[tmp.path] == v[tmp.path]
  {
    var t, kids := tmp.path, v[tmp.path].children;
    KeysClosed(v, hashmap, ids);
    ChildPaths(v, hashmap, ids, t);
    PathsConcat(rest, [tmp]);
    PathsConcat(rest, kids);
    assert PathsOf([tmp]) == [t];
    PopShrinks(v.Keys, PathsOf(rest), t, PathsOf(kids));
    KeptLoses(v, p, Below(v.Keys, PathsOf(rest + [tmp])), t);
  }

  lemma PathsConcat(a: seq<ExclusionTreeNode>, b: seq<ExclusionTreeNode>)
    ensures PathsOf(a + b) == PathsOf(a) + PathsOf(b)
  {}

  lemma LeavesWithout(v: View, t: Path)
    requires t in v
    ensures Leaves(v - {t}) == Leaves(v) - {t}
    ensures |Leaves(v - {t})| == |Leaves(v)| - if v[t].info.leaf then 1 else 0
  {}

  lemma SizeWithout<K, V>(m: map<K, V>, k: K)
    requires k in m
    ensures |m - {k}| == |m| - 1
  {
    assert m.Keys == (m - {k}).Keys + {k};
    assert |m.Keys| == |(m - {k}).Keys| + 1;
  }

  lemma RegisteredWithout(v: View, hashmap: map<FormID, ExclusionTreeNode>, t: Path)
    requires Registered(v, hashmap) && OwnPaths(v) && t in v
    ensures Registered(v - {t}, hashmap - {v[t].ref.formID}) && Registered(v - {t}, hashmap)
    ensures v[t].ref.formID in hashmap && hashmap[v[t].ref.formID] == v[t].ref && !v[t].deleted
  {}

  lemma SizedWithout(v: View, nodecount: int, leafcount: int, t: Path, p: Path)
    requires Sized(v, nodecount, leafcount) && t in v && p in v && p != t
    ensures nodecount > 0 && (v[t].info.leaf ==> leafcount > 0)
    ensures Sized(v - {t}, nodecount - 1, leafcount - if v[t].info.leaf then 1 else 0)
  {
    LeavesWithout(v, t);
    SizeWithout(v, t);
    assert p in v - {t};
    assert v[t].info.leaf ==> t in Leaves(v);
  }

  lemma RootAlone(v: View, hashmap: map<FormID, ExclusionTreeNode>, ids: map<string, FormID>)
    requires v.Keys == {[]} && v[[]].ref.path == [] && v[[]].children == [] && !v[[]].deleted && v[[]].info == BLANK
    requires v[[]].ref.formID in hashmap && hashmap[v[[]].ref.formID] == v[[]].ref
    ensures Linked(v, hashmap, ids) && LeavesOk(v) && Leaves(v) == {} && TreeOf(v) == Run([])
  {
    assert NodeOk(v, ids, []);
  }

  /** The fields of a node are what the view says. */
  ghost predicate Matches(n: NodeState)
    reads n.ref
  {
    && n.ref.children == n.children && n.ref.stringID == n.stringID && n.ref.deleted == n.deleted
    && n.ref.result == n.info.result && n.ref.isLeaf == n.info.leaf && n.ref.inputID == n.info.input
  }

  ghost predicate Synced(v: View, repr: set<ExclusionTreeNode>)
    reads repr
  {
    forall p :: p in v ==> v[p].ref in repr && Matches(v[p])
  }

  /** Every node object knows its own path. */
  ghost predicate OwnPaths(v: View) {
    forall q {:trigger v[q]} :: q in v ==> v[q].ref.path == q
  }

  lemma LinkedOwnPaths(v: View, hashmap: map<FormID, ExclusionTreeNode>, ids: map<string, FormID>)
    requires Linked(v, hashmap, ids)
    ensures OwnPaths(v)
  {
    forall q | q in v ensures v[q].ref.path == q {
      assert NodeOk(v, ids, q);
    }
  }

  lemma RemainingOwnPaths(v: View, p: Path, stack: seq<ExclusionTreeNode>)
    requires OwnPaths(v)
    ensures OwnPaths(Remaining(v, p, stack))
    ensures p in v ==> p in Remaining(v, p, stack)
  {
    assert !(p < p);
  }

  lemma SyncedWithout(w: View, repr: set<ExclusionTreeNode>, t: Path)
    requires Synced(w, repr) && OwnPaths(w) && t in w
    ensures Synced(w - {t}, repr - {w[t].ref})
    ensures w[t].ref in repr && Matches(w[t])
    ensures var n := w[t];
            && n.ref.children == n.children && n.ref.stringID == n.stringID && n.ref.deleted == n.deleted
            && n.ref.result == n.info.result && n.ref.isLeaf == n.info.leaf && n.ref.inputID == n.info.input
  {}

  /** A node whose fields are these matches the state that has them. */
  lemma MatchesNow(n: NodeState, children: seq<ExclusionTreeNode>, i: Info)
    requires n.ref.children == children && n.ref.stringID == n.stringID && n.ref.deleted == n.deleted
    requires n.ref.result == i.result && n.ref.isLeaf == i.leaf && n.ref.inputID == i.input
    ensures Matches(n.(children := children, info := i))
  {}

  lemma SyncedWithChild(v: View, repr: set<ExclusionTreeNode>, p: Path, s: string, id: FormID, child: ExclusionTreeNode)
    requires p in v && p + [s] !in v && v[p].ref in repr
    requires Synced(v - {p}, repr - {v[p].ref})
    requires Matches(v[p].(children := v[p].children + [child])) && Matches(NodeState(child, [], id, false, BLANK))
    ensures Synced(WithChild(v, p, s, id, child), repr + {child})
  {
    var w := WithChild(v, p, s, id, child);
    forall q | q in w ensures w[q].ref in repr + {child} && Matches(w[q]) {
      assert q != p && q != p + [s] ==> w[q] == (v - {p})[q];
    }
  }

  lemma InformedView(v: View, hashmap: map<FormID, ExclusionTreeNode>, ids: map<string, FormID>, p: Path, i: Info,
                     repr: set<ExclusionTreeNode>)
    requires p in v && v[p].ref in repr && Linked(v, hashmap, ids)
    requires Synced(v - {p}, repr - {v[p].ref}) && Matches(v[p].(info := i))
    ensures var w := v[p := v[p].(info := i)];
              && Linked(w, hashmap, ids) && Synced(w, repr) && [] in w
              && w[[]].ref == v[[]].ref
  {
    var w := v[p := v[p].(info := i)];
    forall q | q in w ensures w[q].ref in repr && Matches(w[q]) {
      assert q != p ==> w[q] == (v - {p})[q];
    }
    forall q | q in w ensures NodeOk(w, ids, q) {
      assert NodeOk(v, ids, q);
      forall i | 0 <= i < |w[q].children| ensures ChildOk(w, q, w[q].children[i]) {
        assert ChildOk(v, q, v[q].children[i]);
      }
    }
  }

  lemma InformedSized(v: View, nodecount: int, leafcount: int, p: Path, i: Info)
    requires p in v && !v[p].info.leaf && Sized(v, nodecount, leafcount - if i.leaf then 1 else 0)
    ensures Sized(v[p := v[p].(info := i)], nodecount, leafcount)
  {
    var w := v[p := v[p].(info := i)];
    assert w.Keys == v.Keys;
    assert |w| == |w.Keys| == |v|;
    assert Leaves(w) == if i.leaf then Leaves(v) + {p} else Leaves(v);
  }

  /** The view in which `p` has lost its children, but the nodes below are still there. */
  lemma EmptiedView(v: View, hashmap: map<FormID, ExclusionTreeNode>, nodecount: int, leafcount: int, p: Path,
                    repr: set<ExclusionTreeNode>)
    requires p in v && v[p].ref in repr
    requires Registered(v, hashmap) && Sized(v, nodecount, leafcount)
    requires Synced(v - {p}, repr - {v[p].ref}) && Matches(v[p].(children := []))
    ensures var w := v[p := v[p].(children := [])];
            Registered(w, hashmap) && Sized(w, nodecount, leafcount) && Synced(w, repr) && w.Keys == v.Keys
  {
    var w := v[p := v[p].(children := [])];
    assert w.Keys == v.Keys;
    assert |w| == |w.Keys| == |v|;
    assert Leaves(w) == Leaves(v);
    forall q | q in w ensures w[q].ref in repr && Matches(w[q]) {
      assert q != p ==> w[q] == (v - {p})[q];
    }
  }

  lemma EndRemaining(v: View, p: Path)
    ensures Remaining(v, p, []) == Kept(v, p, {})
    ensures forall q :: q in v && p < q ==> q !in Remaining(v, p, [])
    ensures [] in v ==> [] in Remaining(v, p, []) && Remaining(v, p, [])[[]].ref == v[[]].ref
  {
    assert Below(v.Keys, PathsOf([])) == {};
  }

  lemma SyncedMore(w: View, repr: set<ExclusionTreeNode>, repr': set<ExclusionTreeNode>)
    requires Synced(w, repr) && repr <= repr'
    ensures Synced(w, repr')
  {}

  ghost predicate Shallow(keys: set<Path>, depth: int) {
    forall p :: p in keys ==> |p| <= depth
  }

  lemma RunMore(h: History, e: Entry)
    ensures Run(h + [e]) == Add(Run(h), e.x, e.result, e.input)
  {
    assert (h + [e])[..|h|] == h;
  }

  lemma KeysOnly(v: View, w: View)
    requires TreeOf(v) == TreeOf(w)
    ensures v.Keys == w.Keys
  {
    assert v.Keys == TreeOf(v).Keys && w.Keys == TreeOf(w).Keys;
  }

  lemma NothingBelow(v: View, hashmap: map<FormID, ExclusionTreeNode>, ids: map<string, FormID>, p: Path)
    requires Linked(v, hashmap, ids) && p in v && v[p].children == []
    ensures v == Kept(v, p, {})
  {
    StartRemaining(v, hashmap, ids, p);
    EndRemaining(v, p);
    assert v[p := v[p].(children := [])] == v;
  }

  lemma DecidedTree(v: View, x: Path, i: Info)
    requires x in v && LeavesOk(v) && i.leaf && Decided(i.result)
    ensures var w := Kept(v[x := v[x].(info := i)], x, {});
            TreeOf(w) == Prune(TreeOf(v), x)[x := i] && LeavesOk(w) && w.Keys <= v.Keys
  {
    assert !(x < x);
  }

  lemma UndecidedTree(v: View, x: Path, i: Info)
    requires x in v && LeavesOk(v) && !i.leaf
    ensures var w := v[x := v[x].(info := i)];
            TreeOf(w) == TreeOf(v)[x := i] && LeavesOk(w) && w.Keys == v.Keys
  {}

  lemma GrownKeys(v: View, v0: View, x: Path)
    requires TreeOf(v) == Grow(TreeOf(v0), x)
    ensures v.Keys == v0.Keys + Prefixes(x)
  {
    assert v.Keys == TreeOf(v).Keys && v0.Keys == TreeOf(v0).Keys;
  }

  lemma AddUnfolds(t: Trie, x: Path, result: OracleResult, id: FormID)
    ensures Excluded(t, x) ==> Add(t, x, result, id) == t
    ensures !Excluded(t, x) && Decided(result)
            ==> Add(t, x, result, id) == Prune(Grow(t, x), x)[x := Info(result, true, id)]
    ensures !Excluded(t, x) && !Decided(result) ==> Add(t, x, result, id) == Grow(t, x)[x := Info(result, false, id)]
    ensures result == Passing || result == Failing <==> Decided(result)
  {}

  // Steps of the walk

  lemma StartWalk(v: View)
    requires [] in v && !v[[]].info.leaf
    ensures Grow(TreeOf(v), []) == TreeOf(v) && !Excluded(TreeOf(v), [])
  {
    GrowNothing(TreeOf(v));
  }

  lemma MatchesIn(v: View, repr: set<ExclusionTreeNode>, p: Path)
    requires Synced(v, repr) && p in v
    ensures v[p].ref in repr
    ensures v[p].ref.isLeaf == v[p].info.leaf && v[p].ref.result == v[p].info.result
            && v[p].ref.inputID == v[p].info.input
    ensures v[p].ref.children == v[p].children
  {
    assert Matches(v[p]);
  }

  lemma StepDown(v: View, t: Trie, p: Path, s: string)
    requires TreeOf(v) == Grow(t, p) && p + [s] in v
    ensures TreeOf(v) == Grow(t, p + [s]) && p + [s] in t && t[p + [s]] == v[p + [s]].info
    ensures p + [s] in TreeOf(v) && TreeOf(v)[p + [s]] == v[p + [s]].info
  {
    assert p + [s] in TreeOf(v);
    GrowSame(t, p, s);
  }

  lemma StepNew(v: View, t: Trie, p: Path, s: string)
    requires TreeOf(v) == Grow(t, p) && p + [s] !in v
    ensures Grow(t, p + [s]) == TreeOf(v)[p + [s] := BLANK]
  {
    assert p + [s] !in TreeOf(v);
    GrowMore(t, p, s);
  }

  lemma LeafDecided(v: View, p: Path)
    requires LeavesOk(v) && p in v && v[p].info.leaf
    ensures Decided(v[p].info.result)
  {}

  lemma WithChildHas(v: View, p: Path, s: string, id: FormID, child: ExclusionTreeNode)
    requires p in v
    ensures p + [s] in WithChild(v, p, s, id, child) && WithChild(v, p, s, id, child)[p + [s]].ref == child
  {}

  lemma ExcludedBlank(t: Trie, p: Path, s: string)
    requires !Excluded(t, p)
    ensures !Excluded(t[p + [s] := BLANK], p + [s])
  {
    var t' := t[p + [s] := BLANK];
    ExcludedMore(t', p, s);
    assert !Excluded(t', p);
  }

  lemma NotExcluded(v: View, x: Path)
    requires x in v && !Excluded(TreeOf(v), x)
    ensures !v[x].info.leaf
  {
    assert x in TreeOf(v) && TreeOf(v)[x] == v[x].info;
  }

  /** A leaf was met, so nothing has been created on the way to it. */
  lemma Blocked(v: View, hashmap: map<FormID, ExclusionTreeNode>, ids: map<string, FormID>, t: Trie, x: Path, i: nat)
    requires Linked(v, hashmap, ids) && i < |x| && x[..i] + [x[i]] in v && v[x[..i] + [x[i]]].info.leaf
    requires TreeOf(v) == Grow(t, x[..i])
    requires PrefixClosed(t.Keys)
    ensures TreeOf(v) == t && Excluded(t, x)
  {
    StepDown(v, t, x[..i], x[i]);
    var q := x[..i] + [x[i]];
    assert q == x[..i + 1] && q <= x;
    forall r | r in Prefixes(x[..i]) ensures r in t {
      assert r <= x[..i] <= q;
    }
    assert Grow(t, x[..i]) == t;
  }

  // Steps of the breadth-first search

  /** The queue: nodes of the tree at or below `x`, none of them below another, shorter paths first. */
  ghost predicate QueueOk(v: View, x: Path, queue: seq<ExclusionTreeNode>) {
    && (forall i :: 0 <= i < |queue| ==> queue[i].path in v && v[queue[i].path].ref == queue[i] && x <= queue[i].path)
    && Frontier(v.Keys, PathsOf(queue)) && ByLength(PathsOf(queue))
  }

  /** The nodes that the search has not yet taken from the queue. */
  ghost function Ahead(v: View, queue: seq<ExclusionTreeNode>): set<Path> {
    Below(v.Keys, PathsOf(queue))
  }

  ghost predicate NoneMissed(v: View, x: Path, queue: seq<ExclusionTreeNode>) {
    forall q :: MarkedExtension(TreeOf(v), x, q) ==> q in Ahead(v, queue)
  }

  lemma StartQueue(v: View, x: Path, node: ExclusionTreeNode)
    requires x in v && v[x].ref == node && node.path == x
    ensures QueueOk(v, x, [node]) && NoneMissed(v, x, [node])
  {
    assert PathsOf([node]) == [x];
    assert forall q :: MarkedExtension(TreeOf(v), x, q) ==> q in v && PathsOf([node])[0] <= q;
  }

  lemma PopQueue(v: View, hashmap: map<FormID, ExclusionTreeNode>, ids: map<string, FormID>, x: Path,
                 node: ExclusionTreeNode, rest: seq<ExclusionTreeNode>)
    requires Linked(v, hashmap, ids) && QueueOk(v, x, [node] + rest)
    ensures node.path in v && v[node.path].ref == node && x <= node.path
    ensures QueueOk(v, x, rest + v[node.path].children)
  {
    hide *;
    QueueNodes(v, hashmap, ids, x, node, rest);
    var t := node.path;
    var kids := v[t].children;
    QueueParts(v, x, node, rest, kids);
    var f := PathsOf([node] + rest);
    ChildPaths(v, hashmap, ids, t);
    RotateFrontier(v.Keys, f);
    PopKeepsFrontier(v.Keys, PathsOf(rest), t, PathsOf(kids));
    ChildLengths(v.Keys, t, PathsOf(kids));
    PopKeepsLengths(f, PathsOf(kids));
    QueueIs(v, x, rest + kids);
  }

  lemma ChildLengths(dom: set<Path>, t: Path, kids: seq<Path>)
    requires ChildrenOf(dom, t, kids)
    ensures forall i :: 0 <= i < |kids| ==> |kids[i]| == |t| + 1
  {}

  lemma QueueIs(v: View, x: Path, queue: seq<ExclusionTreeNode>)
    requires forall c :: c in queue ==> c.path in v && v[c.path].ref == c && x <= c.path
    requires Frontier(v.Keys, PathsOf(queue)) && ByLength(PathsOf(queue))
    ensures QueueOk(v, x, queue)
  {
    hide Frontier, ByLength, PathsOf;
    forall i | 0 <= i < |queue| ensures queue[i].path in v && v[queue[i].path].ref == queue[i] && x <= queue[i].path {
      assert queue[i] in queue;
    }
  }

  lemma PopAhead(v: View, hashmap: map<FormID, ExclusionTreeNode>, ids: map<string, FormID>, x: Path,
                 node: ExclusionTreeNode, rest: seq<ExclusionTreeNode>)
    requires Linked(v, hashmap, ids) && QueueOk(v, x, [node] + rest) && node.path in v
    ensures Ahead(v, rest + v[node.path].children) == Ahead(v, [node] + rest) - {node.path}
    ensures node.path in Ahead(v, [node] + rest)
  {
    hide QueueOk, Linked, Below, ChildrenOf, ByLength, PathsOf, NodeOk;
    var t, kids := node.path, v[node.path].children;
    QueueParts(v, x, node, rest, kids);
    var f := PathsOf([node] + rest);
    KeysClosed(v, hashmap, ids);
    ChildPaths(v, hashmap, ids, t);
    RotateFrontier(v.Keys, f);
    PopShrinks(v.Keys, PathsOf(rest), t, PathsOf(kids));
  }

  lemma QueueParts(v: View, x: Path, node: ExclusionTreeNode, rest: seq<ExclusionTreeNode>,
                   kids: seq<ExclusionTreeNode>)
    requires QueueOk(v, x, [node] + rest)
    ensures var f := PathsOf([node] + rest);
            Frontier(v.Keys, f) && ByLength(f) && |f| == 1 + |rest| && f[0] == node.path && f[1..] == PathsOf(rest)
    ensures PathsOf(rest + kids) == PathsOf(rest) + PathsOf(kids)
  {}

  lemma QueueNodes(v: View, hashmap: map<FormID, ExclusionTreeNode>, ids: map<string, FormID>, x: Path,
                   node: ExclusionTreeNode, rest: seq<ExclusionTreeNode>)
    requires Linked(v, hashmap, ids) && QueueOk(v, x, [node] + rest)
    ensures node.path in v && v[node.path].ref == node && x <= node.path
    ensures forall c :: c in rest + v[node.path].children ==> c.path in v && v[c.path].ref == c && x <= c.path
  {
    var queue := [node] + rest;
    assert queue[0] == node;
    assert NodeOk(v, ids, node.path);
    forall c | c in rest + v[node.path].children ensures c.path in v && v[c.path].ref == c && x <= c.path {
      if c in rest {
        var i :| 0 <= i < |rest| && rest[i] == c;
        assert queue[i + 1] == c;
      } else {
        assert ChildOk(v, node.path, c);
      }
    }
  }

  /** The first marked node taken from the queue is a shortest marked extension. */
  lemma FirstIsShortest(v: View, x: Path, queue: seq<ExclusionTreeNode>)
    requires queue != [] && QueueOk(v, x, queue) && NoneMissed(v, x, queue)
    requires Marked(v[queue[0].path].info)
    ensures MarkedExtension(TreeOf(v), x, queue[0].path)
    ensures forall q :: MarkedExtension(TreeOf(v), x, q) ==> |queue[0].path| <= |q|
  {
    var f := PathsOf(queue);
    forall q | MarkedExtension(TreeOf(v), x, q) ensures |queue[0].path| <= |q| {
      assert q in Ahead(v, queue);
      var i :| 0 <= i < |f| && f[i] <= q;
      assert |f[0]| <= |f[i]|;
    }
  }

  lemma UnmarkedIsPassed(v: View, x: Path, queue: seq<ExclusionTreeNode>, queue': seq<ExclusionTreeNode>, t: Path)
    requires NoneMissed(v, x, queue) && t in v && !Marked(v[t].info)
    requires Ahead(v, queue') == Ahead(v, queue) - {t}
    ensures NoneMissed(v, x, queue')
  {
    forall q | MarkedExtension(TreeOf(v), x, q) ensures q in Ahead(v, queue') {
      assert q != t;
    }
  }

  lemma EmptyQueue(v: View, x: Path)
    requires NoneMissed(v, x, [])
    ensures forall q :: !MarkedExtension(TreeOf(v), x, q)
  {
    assert Ahead(v, []) == {};
  }

  lemma NoExtension(v: View, hashmap: map<FormID, ExclusionTreeNode>, ids: map<string, FormID>, x: Path, i: nat)
    requires Linked(v, hashmap, ids) && i < |x| && x[..i] + [x[i]] !in v
    ensures x !in v && forall q :: !MarkedExtension(TreeOf(v), x, q)
  {
    var p := x[..i] + [x[i]];
    assert p == x[..i + 1] && p <= x;
    forall q | q in v && x <= q ensures false {
      HasPrefixes(v, hashmap, ids, p, q);
    }
  }

  lemma KnownLeaf(v: View, x: Path, i: nat)
    requires i < |x| && x[..i] + [x[i]] in v && v[x[..i] + [x[i]]].info.leaf
    ensures Answered(TreeOf(v), x) && NamesPrefix(TreeOf(v), x, v[x[..i] + [x[i]]].info.input)
  {
    var p := x[..i] + [x[i]];
    assert p == x[..i + 1] && p <= x;
    assert p in TreeOf(v) && TreeOf(v)[p] == v[p].info;
  }

  lemma KnownUnfinished(v: View, x: Path)
    requires x != [] && x in v && v[x].info.result == Unfinished
    ensures Answered(TreeOf(v), x) && NamesPrefix(TreeOf(v), x, v[x].info.input)
  {
    assert x in TreeOf(v) && TreeOf(v)[x] == v[x].info;
  }

  lemma NotKnown(v: View, x: Path)
    requires x !in v || x == [] || v[x].info.result != Unfinished
    requires !Excluded(TreeOf(v), x)
    ensures !Answered(TreeOf(v), x)
  {}

  lemma ShorterPrefix(q: Path, x: Path, i: nat)
    requires q <= x && |q| <= i <= |x|
    ensures q <= x[..i]
  {}

  /** No leaf lies on a path that leaves the tree before it meets one. */
  lemma LeftTheTree(v: View, hashmap: map<FormID, ExclusionTreeNode>, ids: map<string, FormID>, x: Path, i: nat)
    requires Linked(v, hashmap, ids) && i < |x| && x[..i] + [x[i]] !in v && !Excluded(TreeOf(v), x[..i])
    ensures !Excluded(TreeOf(v), x)
  {
    var p := x[..i] + [x[i]];
    assert p == x[..i + 1];
    if Excluded(TreeOf(v), x) {
      var q :| q in TreeOf(v) && q <= x && TreeOf(v)[q].leaf;
      if |q| <= i {
        ShorterPrefix(q, x, i);
      } else {
        assert p <= q;
        HasPrefixes(v, hashmap, ids, p, q);
      }
    }
  }

  lemma InfoInTree(v: View, p: Path)
    requires p in v
    ensures p in TreeOf(v) && TreeOf(v)[p] == v[p].info
    ensures Marked(v[p].info) <==> v[p].info.leaf || v[p].info.result == Unfinished
  {}

  lemma OwnPath(v: View, p: Path)
    requires OwnPaths(v) && p in v
    ensures v[p].ref.path == p
  {}

  lemma Shortest(t: Trie, x: Path, q: Path)
    requires MarkedExtension(t, x, q) && forall r :: MarkedExtension(t, x, r) ==> |q| <= |r|
    ensures NamesShortest(t, x, t[q].input)
  {}
}
