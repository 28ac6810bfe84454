/** The exclusion tree: adding tested inputs and looking inputs up. */
module ExclusionTrees {
  import opened Basics
  import opened TrieHistory
  import opened PathFrontier
  import opened TreeNodes

  datatype Lookup = Known(id: FormID) | Missing | Inside(node: ExclusionTreeNode)

  class ExclusionTree {
    const data: Data
    const root: ExclusionTreeNode
    var depth: nat
    var leafcount: nat
    var nodecount: nat

    /** The nodes of the tree by path, with their fields. */
    ghost var view: View
    /** The node objects of the tree, now or earlier. */
    ghost var Repr: set<ExclusionTreeNode>
    /** The accepted calls of `AddInput`, oldest first. */
    ghost var history: History

    ghost predicate InSync()
      reads this`view, this`Repr, Repr
    {
      Synced(view, Repr)
    }

    /** The counters are exact: all nodes but the root, and the leaves. */
    ghost predicate Counted()
      reads this`view, this`nodecount, this`leafcount
    {
      Sized(view, nodecount, leafcount)
    }

    ghost predicate Consistent()
      reads this`view, this`Repr, this`nodecount, this`leafcount, data, Repr
    {
      && data.StringsOk() && data.FormsOk()
      && InSync() && Linked(view, data.hashmap, data.ids) && view[[]].ref == root
      && Counted()
    }

    ghost predicate Valid()
      reads this, data, Repr
    {
      && Consistent() && LeavesOk(view)
      && Shallow(view.Keys, depth) && Deepest(history, depth)
      && TreeOf(view) == Run(history)
    }

    constructor (d: Data)
      requires d.StringsOk() && d.FormsOk()
      modifies d`hashmap, d`nextFormID
      ensures Valid() && data == d && history == [] && fresh(root) && Repr == {root}
    {
      hide Run, Linked, NodeOk, Registered, Matches, Leaves, TreeOf;
      data := d;
      depth, leafcount, nodecount := 0, 0, 0;
      var n := d.CreateForm([]);
      root := n;
      view, Repr, history := map[[] := NodeState(n, [], 0, false, BLANK)], {n}, [];
      new;
      root.result := Undefined;
      MatchesNow(view[[]], [], view[[]].info);
      RootAlone(view, data.hashmap, data.ids);
    }

    /** A form with the fields of a new tree node. */
    method NewNode(ghost q: Path, id: FormID) returns (child: ExclusionTreeNode)
      requires data.FormsOk()
      modifies data`hashmap, data`nextFormID
      ensures data.FormsOk() && data.hashmap == old(data.hashmap)[child.formID := child]
      ensures fresh(child) && child.path == q && child.formID !in old(data.hashmap)
      ensures Matches(NodeState(child, [], id, false, BLANK))
    {
      child := data.CreateForm(q);
      child.result := Undefined;
      child.stringID := id;
    }

    /** Hang a new node under `node`, for a string that has no child there yet. */
    method AddChild(node: ExclusionTreeNode, ghost p: Path, ghost s: string, id: FormID)
      returns (child: ExclusionTreeNode)
      requires Consistent()
      requires p in view && view[p].ref == node && p + [s] !in view
      requires s in data.ids && data.ids[s] == id
      modifies this`nodecount, this`view, this`Repr, data`hashmap, data`nextFormID, node`children
      ensures Consistent()
      ensures fresh(child) && Repr == old(Repr) + {child} && view == WithChild(old(view), p, s, id, child)
    {
      hide *;
      ConsistentParts();
      ghost var v, hash, n := view, data.hashmap, view[p];
      LinkedOwnPaths(v, hash, data.ids);
      SyncedWithout(v, Repr, p);
      child := NewNode(p + [s], id);
      node.children := node.children + [child];
      nodecount := nodecount + 1;
      WithChildLinked(v, hash, data.ids, p, s, id, child);
      WithChildSized(v, nodecount - 1, leafcount, p, s, id, child);
      MatchesNow(n, node.children, n.info);
      SyncedWithChild(v, Repr, p, s, id, child);
      view, Repr := WithChild(v, p, s, id, child), Repr + {child};
      assert view[[]].ref == v[[]].ref by {
        WithChildKeepsRefs(v, p, s, id, child, []);
      }
      PartsConsistent();
    }

    lemma ConsistentParts()
      requires Consistent()
      ensures data.StringsOk() && data.FormsOk() && Synced(view, Repr) && Linked(view, data.hashmap, data.ids)
      ensures Sized(view, nodecount, leafcount)
      ensures [] in view && view[[]].ref == root
    {}

    lemma PartsConsistent()
      requires data.StringsOk() && data.FormsOk() && Synced(view, Repr) && Linked(view, data.hashmap, data.ids)
      requires Sized(view, nodecount, leafcount)
      requires [] in view && view[[]].ref == root
      ensures Consistent()
    {}

    /** Take one node out of the counters and the registry. */
    method Uncount(tmp: ExclusionTreeNode)
      requires data.FormsOk() && nodecount > 0 && (tmp.isLeaf ==> leafcount > 0)
      requires tmp.formID in data.hashmap && data.hashmap[tmp.formID] == tmp && !tmp.deleted
      modifies this`leafcount, this`nodecount, data`hashmap, tmp`deleted
      ensures data.FormsOk() && tmp.deleted
      ensures nodecount == old(nodecount) - 1 && leafcount == old(leafcount) - if tmp.isLeaf then 1 else 0
      ensures data.hashmap == if tmp.saved then old(data.hashmap) else old(data.hashmap) - {tmp.formID}
    {
      if tmp.isLeaf {
        leafcount := leafcount - 1;
      }
      nodecount := nodecount - 1;
      data.DeleteForm(tmp.formID);
    }

    method PushChildren(rest: seq<ExclusionTreeNode>, tmp: ExclusionTreeNode) returns (stack: seq<ExclusionTreeNode>)
      ensures stack == rest + tmp.children
    {
      stack := rest;
      for i := 0 to |tmp.children|
        invariant stack == rest + tmp.children[..i]
      {
        assert tmp.children[..i + 1] == tmp.children[..i] + [tmp.children[i]];
        stack := stack + [tmp.children[i]];
      }
    }

    /** Remove the node on top of the stack and put its children there; `v` is the view before the removal. */
    method RemoveTop(stack: seq<ExclusionTreeNode>, ghost v: View, ghost hash: map<FormID, ExclusionTreeNode>,
                     ghost ids: map<string, FormID>, ghost p: Path)
      returns (stack': seq<ExclusionTreeNode>)
      requires Linked(v, hash, ids) && p in v && StackOk(v, p, stack) && stack != []
      requires Synced(Remaining(v, p, stack), Repr) && data.FormsOk()
      requires Registered(Remaining(v, p, stack), data.hashmap)
      requires Sized(Remaining(v, p, stack), nodecount, leafcount)
      modifies this`leafcount, this`nodecount, data`hashmap, Repr`deleted
      ensures StackOk(v, p, stack')
      ensures Synced(Remaining(v, p, stack'), Repr) && data.FormsOk()
      ensures Registered(Remaining(v, p, stack'), data.hashmap)
      ensures Sized(Remaining(v, p, stack'), nodecount, leafcount)
      ensures exists t :: t in v && t in Remaining(v, p, stack) && v[t].ref.deleted && v[t].ref in Repr
                          && Remaining(v, p, stack') == Remaining(v, p, stack) - {t}
      ensures forall n :: n in Repr && old(n.deleted) ==> n.deleted
    {
      hide *;
      var tmp := stack[|stack| - 1];
      ghost var rest, t, w := stack[..|stack| - 1], tmp.path, Remaining(v, p, stack);
      assert stack == rest + [tmp];
      PopStack(v, hash, ids, p, rest, tmp);
      PopRemaining(v, hash, ids, p, rest, tmp);
      LinkedOwnPaths(v, hash, ids);
      RemainingOwnPaths(v, p, stack);
      SyncedWithout(w, Repr, t);
      RegisteredWithout(w, data.hashmap, t);
      SizedWithout(w, nodecount, leafcount, t, p);
      stack' := PushChildren(stack[..|stack| - 1], tmp);
      Uncount(tmp);
      SyncedMore(w - {t}, Repr - {tmp}, Repr);
    }

    /** Work off the stack of nodes to remove. */
    method DrainStack(todo: seq<ExclusionTreeNode>, ghost v: View, ghost hash: map<FormID, ExclusionTreeNode>,
                      ghost ids: map<string, FormID>, ghost p: Path)
      requires Linked(v, hash, ids) && p in v && StackOk(v, p, todo)
      requires Synced(Remaining(v, p, todo), Repr) && data.FormsOk() && Registered(Remaining(v, p, todo), data.hashmap)
      requires Sized(Remaining(v, p, todo), nodecount, leafcount)
      requires forall q :: q in v && q !in Remaining(v, p, todo) ==> v[q].ref.deleted
      modifies this`leafcount, this`nodecount, data`hashmap, Repr`deleted
      ensures Synced(Remaining(v, p, []), Repr) && data.FormsOk() && Registered(Remaining(v, p, []), data.hashmap)
      ensures Sized(Remaining(v, p, []), nodecount, leafcount)
      ensures forall q :: q in v && q !in Remaining(v, p, []) ==> v[q].ref.deleted
    {
      hide *;
      var stack := todo;
      while stack != []
        invariant StackOk(v, p, stack)
        invariant Synced(Remaining(v, p, stack), Repr) && data.FormsOk()
                  && Registered(Remaining(v, p, stack), data.hashmap)
        invariant Sized(Remaining(v, p, stack), nodecount, leafcount)
        invariant forall q :: q in v && q !in Remaining(v, p, stack) ==> v[q].ref.deleted
        decreases |Remaining(v, p, stack)|
      {
        stack := RemoveTop(stack, v, hash, ids, p);
      }
    }

    /** Remove every descendant of `node`, with an explicit stack. */
    method DeleteChildrenIntern(node: ExclusionTreeNode, ghost p: Path)
      requires Consistent() && p in view && view[p].ref == node
      modifies this`leafcount, this`nodecount, this`view, data`hashmap, node`children, Repr`deleted
      ensures Consistent()
      ensures view == Kept(old(view), p, {})
      ensures forall q :: q in old(view) && p < q ==> old(view)[q].ref.deleted
    {
      hide *;
      ConsistentParts();
      ghost var v, hash, ids, n := view, data.hashmap, data.ids, view[p];
      LinkedOwnPaths(v, hash, ids);
      SyncedWithout(v, Repr, p);
      var stack := PushChildren([], node);
      assert stack == n.children;
      node.children := [];
      MatchesNow(n, [], n.info);
      StartStack(v, hash, ids, p);
      StartRemaining(v, hash, ids, p);
      EmptiedView(v, hash, nodecount, leafcount, p, Repr);
      DrainStack(stack, v, hash, ids, p);
      view := Remaining(v, p, []);
      EndRemaining(v, p);
      KeptLinked(v, hash, data.hashmap, ids, p);
      PartsConsistent();
    }

    /** Record a result at a node that is not a leaf. */
    method SetResult(node: ExclusionTreeNode, ghost p: Path, result: OracleResult, leaf: bool, id: FormID)
      requires Consistent() && p in view && view[p].ref == node && !view[p].info.leaf
      modifies this`leafcount, this`view, node`result, node`isLeaf, node`inputID
      ensures Consistent()
      ensures view == old(view)[p := old(view)[p].(info := Info(result, leaf, id))]
    {
      hide *;
      ConsistentParts();
      ghost var v, n := view, view[p];
      LinkedOwnPaths(v, data.hashmap, data.ids);
      SyncedWithout(v, Repr, p);
      node.result := result;
      if leaf {
        node.isLeaf := true;
      }
      node.inputID := id;
      if leaf {
        leafcount := leafcount + 1;
      }
      MatchesNow(n, n.children, Info(result, leaf, id));
      InformedView(v, data.hashmap, data.ids, p, Info(result, leaf, id), Repr);
      InformedSized(v, nodecount, leafcount, p, Info(result, leaf, id));
      view := v[p := v[p].(info := Info(result, leaf, id))];
      PartsConsistent();
    }

    method Intern(s: string) returns (id: FormID)
      requires Consistent()
      modifies data`ids, data`strings, data`nextStringID
      ensures Consistent() && s in data.ids && data.ids[s] == id
    {
      hide *;
      ConsistentParts();
      ghost var ids := data.ids;
      id := data.GetIDFromString(s);
      LinkedMoreIds(view, data.hashmap, ids, data.ids);
      PartsConsistent();
    }

    /** The child of `node` for an interned string. */
    method Child(node: ExclusionTreeNode, ghost p: Path, ghost s: string, id: FormID)
      returns (r: Option<ExclusionTreeNode>)
      requires Consistent() && p in view && view[p].ref == node
      requires s in data.ids && data.ids[s] == id
      ensures r.Some? ==> p + [s] in view && view[p + [s]].ref == r.value
      ensures r.None? ==> p + [s] !in view
    {
      r := node.HasChild(id);
      assert forall a, b :: a in data.ids && b in data.ids && data.ids[a] == data.ids[b] ==> a == b;
      assert Matches(view[p]);
      forall c | c in node.children ensures c.path in view && view[c.path].stringID == c.stringID {
        assert NodeOk(view, data.ids, p);
        assert ChildOk(view, p, c);
        assert Matches(view[c.path]);
      }
      SearchByID(view, data.hashmap, data.ids, p, s, r);
    }

    /** One step down the path: to the child for `s`, which is created if it is missing, unless a decided leaf is
        there. */
    method Descend(node: ExclusionTreeNode, ghost t0: Trie, ghost p: Path, s: string)
      returns (next: ExclusionTreeNode, blocked: bool)
      requires Consistent() && LeavesOk(view) && p in view && view[p].ref == node && node in Repr
      requires !Excluded(TreeOf(view), p) && TreeOf(view) == Grow(t0, p)
      modifies this`nodecount, this`view, this`Repr, data, node`children
      ensures Consistent() && LeavesOk(view) && old(Repr) <= Repr && fresh(Repr - old(Repr))
      ensures p + [s] in view && view[p + [s]].ref == next && next in Repr
      ensures if blocked then view[p + [s]].info.leaf && TreeOf(view) == Grow(t0, p)
              else !Excluded(TreeOf(view), p + [s]) && TreeOf(view) == Grow(t0, p + [s])
    {
      hide *;
      var stringID := Intern(s);
      var child := Child(node, p, s, stringID);
      ExcludedMore(TreeOf(view), p, s);
      ConsistentParts();
      if child.Some? {
        MatchesIn(view, Repr, p + [s]);
        StepDown(view, t0, p, s);
        next, blocked := child.value, false;
        if child.value.isLeaf {
          LeafDecided(view, p + [s]);
          if child.value.result == Passing || child.value.result == Failing {
            blocked := true;
          }
        }
      } else {
        StepNew(view, t0, p, s);
        NotExcluded(view, p);
        ghost var v := view;
        next := AddChild(node, p, s, stringID);
        blocked := false;
        WithChildCounts(v, p, s, stringID, next);
        WithChildHas(v, p, s, stringID, next);
        ExcludedBlank(TreeOf(v), p, s);
      }
    }

    /** Walk down the path `x`, creating the nodes that are missing, unless a decided leaf is on the way. */
    method FindOrCreate(x: Path) returns (node: ExclusionTreeNode, blocked: bool)
      requires Consistent() && LeavesOk(view) && !view[[]].info.leaf && PrefixClosed(TreeOf(view).Keys)
      modifies this`nodecount, this`view, this`Repr, data, Repr`children
      ensures Consistent() && LeavesOk(view) && fresh(Repr - old(Repr))
      ensures blocked <==> Excluded(TreeOf(old(view)), x)
      ensures TreeOf(view) == if blocked then TreeOf(old(view)) else Grow(TreeOf(old(view)), x)
      ensures !blocked ==> x in view && view[x].ref == node && !view[x].info.leaf && node in Repr
    {
      hide *;
      ConsistentParts();
      ghost var t0 := TreeOf(view);
      StartWalk(view);
      MatchesIn(view, Repr, []);
      node := root;
      assert x[..0] == [];
      for i := 0 to |x|
        invariant Consistent() && LeavesOk(view) && fresh(Repr - old(Repr)) && old(Repr) <= Repr
        invariant x[..i] in view && view[x[..i]].ref == node && node in Repr && !Excluded(TreeOf(view), x[..i])
        invariant TreeOf(view) == Grow(t0, x[..i])
      {
        assert x[..i + 1] == x[..i] + [x[i]];
        node, blocked := Descend(node, t0, x[..i], x[i]);
        if blocked {
          ConsistentParts();
          Blocked(view, data.hashmap, data.ids, t0, x, i);
          return;
        }
      }
      assert x[..|x|] == x;
      blocked := false;
      ExcludedGrown(t0, x);
      NotExcluded(view, x);
    }

    /** Record a result at the node for `x`; a decision makes it a leaf and prunes what lies below. */
    method Record(node: ExclusionTreeNode, x: Path, result: OracleResult, id: FormID)
      requires Consistent() && LeavesOk(view) && x in view && view[x].ref == node && !view[x].info.leaf
      modifies this`leafcount, this`nodecount, this`view, data`hashmap
      modifies node`children, node`result, node`isLeaf, node`inputID, Repr`deleted
      ensures Consistent() && LeavesOk(view) && view.Keys <= old(view).Keys
      ensures TreeOf(view) == if Decided(result) then Prune(TreeOf(old(view)), x)[x := Info(result, true, id)]
                              else TreeOf(old(view))[x := Info(result, false, id)]
    {
      hide *;
      ghost var v := view;
      if result == Passing || result == Failing {
        SetResult(node, x, result, true, id);
        MatchesAt(x);
        if |node.children| > 0 {
          DeleteChildrenIntern(node, x);
        } else {
          ConsistentParts();
          NothingBelow(view, data.hashmap, data.ids, x);
        }
        DecidedTree(v, x, Info(result, true, id));
      } else {
        SetResult(node, x, result, false, id);
        UndecidedTree(v, x, Info(result, false, id));
      }
      AddUnfolds(TreeOf(v), x, result, id);
    }

    /** Put one non-empty input into the tree. */
    method Insert(x: Path, result: OracleResult, id: FormID)
      requires Valid() && x != []
      modifies this, data, Repr
      ensures Valid() && fresh(Repr - old(Repr))
      ensures history == old(history) + [Entry(x, result, id)]
    {
      hide *;
      ValidParts();
      ghost var v0, t0, e, depth0 := view, TreeOf(view), Entry(x, result, id), depth;
      AddUnfolds(t0, x, result, id);
      RunMore(history, e);
      var node, blocked := FindOrCreate(x);
      if blocked {
        KeysOnly(v0, view);
      } else {
        GrownKeys(view, v0, x);
        Record(node, x, result, id);
        depth := if depth < |x| then |x| else depth;
      }
      EntersIff(history, x);
      DeepestMore(history, e, depth0);
      history := history + [e];
      PartsValid(v0, x);
    }

    /** Add an input with its result. The call is ignored for the empty input, for an input beyond the
        length limit, and while the tree is switched off. */
    method AddInput(input: Option<Input>, result: OracleResult, settings: Settings)
      requires Valid()
      modifies this, data, Repr
      ensures Valid() && fresh(Repr - old(Repr))
      ensures history == if Accepted(settings, input) then old(history)
              + [Entry(input.value.sequence, result, input.value.formID)]
                         else old(history)
    {
      if input.None? {
        return;
      }
      var x := input.value.sequence;
      if x == [] {
        return;
      }
      if settings.disableExclusionTree || !settings.enableExclusionTree {
        return;
      }
      if |x| > AsSize(settings.lengthLimit) {
        return;
      }
      Insert(x, result, input.value.formID);
    }

    lemma ValidParts()
      requires Valid()
      ensures Consistent() && LeavesOk(view) && Shallow(view.Keys, depth) && TreeOf(view) == Run(history)
      ensures Deepest(history, depth)
      ensures [] in view && !view[[]].info.leaf && PrefixClosed(TreeOf(view).Keys) && PrefixClosed(view.Keys)
    {
      KeysClosed(view, data.hashmap, data.ids);
      assert TreeOf(view).Keys == view.Keys;
      TreeIsItsHistory(history);
      LeafIsDecided(history, []);
      assert TreeOf(view)[[]] == view[[]].info;
    }

    lemma EntersIff(h: History, x: Path)
      ensures Excluded(Run(h), x) <==> DecidedPrefix(h, x)
    {
      TreeIsItsHistory(h);
      ExcludedIff(Run(h), h, x);
    }

    lemma MatchesAt(p: Path)
      requires Consistent() && p in view
      ensures view[p].ref.children == view[p].children
    {
      assert Matches(view[p]);
    }

    /** Every path of the new tree is an old path or a prefix of the new input. */
    lemma PartsValid(v0: View, x: Path)
      requires Consistent() && LeavesOk(view) && TreeOf(view) == Run(history)
      requires Deepest(history, depth) && Shallow(v0.Keys, depth) && view.Keys <= v0.Keys + Prefixes(x)
      requires view.Keys <= v0.Keys || |x| <= depth
      ensures Valid()
    {
      forall p | p in view ensures |p| <= depth {
        assert p in v0.Keys || p in Prefixes(x);
      }
    }

    /** The walk that both queries begin with: down the path until a leaf is met or the path ends. */
    method LookUp(x: Path) returns (r: Lookup)
      requires Valid()
      modifies data`ids, data`strings, data`nextStringID
      ensures Valid()
      ensures r.Known? <==> Answered(TreeOf(view), x)
      ensures r.Known? ==> NamesPrefix(TreeOf(view), x, r.id)
      ensures r.Missing? ==> forall q :: !MarkedExtension(TreeOf(view), x, q)
      ensures r.Inside? ==> x in view && view[x].ref == r.node
    {
      hide *;
      ValidParts();
      ConsistentParts();
      StartWalk(view);
      var node := root;
      assert x[..0] == [];
      for i := 0 to |x|
        invariant Valid() && x[..i] in view && view[x[..i]].ref == node && !Excluded(TreeOf(view), x[..i])
        invariant 0 < i == |x| ==> view[x[..i]].info.result != Unfinished
      {
        ghost var p, s := x[..i], x[i];
        assert x[..i + 1] == p + [s];
        ValidParts();
        var stringID := Intern(x[i]);
        StillValid();
        var child := Child(node, p, s, stringID);
        ConsistentParts();
        ExcludedMore(TreeOf(view), p, s);
        if child.None? {
          NoExtension(view, data.hashmap, data.ids, x, i);
          LeftTheTree(view, data.hashmap, data.ids, x, i);
          NotKnown(view, x);
          return Missing;
        }
        MatchesIn(view, Repr, p + [s]);
        InfoInTree(view, p + [s]);
        if child.value.isLeaf {
          KnownLeaf(view, x, i);
          return Known(child.value.inputID);
        }
        node := child.value;
        if i + 1 == |x| {
          assert x[..i + 1] == x;
          if node.result == Unfinished {
            KnownUnfinished(view, x);
            return Known(node.inputID);
          }
        }
      }
      assert x[..|x|] == x;
      NotKnown(view, x);
      return Inside(node);
    }

    lemma StillValid()
      requires Consistent() && LeavesOk(view) && Shallow(view.Keys, depth) && TreeOf(view) == Run(history)
      requires Deepest(history, depth)
      ensures Valid()
    {}

    method PushAll(queue: seq<ExclusionTreeNode>, nodes: seq<ExclusionTreeNode>) returns (all: seq<ExclusionTreeNode>)
      ensures all == queue + nodes
    {
      all := queue;
      for i := 0 to |nodes|
        invariant all == queue + nodes[..i]
      {
        all := all + [nodes[i]];
      }
    }

    /** Breadth-first search for the nearest decided or unfinished node at or below `node`. */
    method ShortestExtension(node: ExclusionTreeNode, x: Path) returns (found: bool, id: FormID)
      requires Valid() && x in view && view[x].ref == node
      ensures found <==> exists q :: MarkedExtension(TreeOf(view), x, q)
      ensures if found then NamesShortest(TreeOf(view), x, id) else id == 0
    {
      hide *;
      ValidParts();
      ConsistentParts();
      ghost var v, hash, ids := view, data.hashmap, data.ids;
      LinkedOwnPaths(v, hash, ids);
      OwnPath(v, x);
      var queue := [node];
      StartQueue(v, x, node);
      while queue != []
        invariant QueueOk(v, x, queue) && NoneMissed(v, x, queue)
        decreases |Ahead(v, queue)|
      {
        var n := queue[0];
        ghost var before, rest, t := queue, queue[1..], n.path;
        assert queue == [n] + rest;
        PopQueue(v, hash, ids, x, n, rest);
        PopAhead(v, hash, ids, x, n, rest);
        MatchesIn(v, Repr, t);
        InfoInTree(v, t);
        queue := queue[1..];
        if n.isLeaf {
          FirstIsShortest(v, x, before);
          Shortest(TreeOf(v), x, t);
          return true, n.inputID;
        } else if n.result == Unfinished {
          FirstIsShortest(v, x, before);
          Shortest(TreeOf(v), x, t);
          return true, n.inputID;
        } else {
          queue := PushAll(queue, n.children);
          UnmarkedIsPassed(v, x, before, queue, t);
        }
      }
      EmptyQueue(v, x);
      return false, 0;
    }

    /** Whether the result of an input is already known, and by which input. */
    method HasPrefix(input: Option<Input>, settings: Settings) returns (found: bool, prefixID: FormID)
      requires Valid()
      modifies data`ids, data`strings, data`nextStringID
      ensures Valid()
      ensures input.None? || Off(settings) ==> !found
      ensures input.Some? && !Off(settings) && input.value.sequence != [] ==>
                var x := input.value.sequence;
                && (found <==> DecidedPrefix(history, x) || LastUnfinished(history, x))
                && (if found then NamesKnown(history, x, prefixID) else prefixID == 0)
      ensures input.Some? && input.value.sequence == [] ==> !found
    {
      hide Consistent, LeavesOk, Shallow, Run, TreeOf, Answered, NamesPrefix, NamesKnown, DecidedPrefix, LastUnfinished;
      if input.None? || settings.disableExclusionTree || !settings.enableExclusionTree {
        return false, 0;
      }
      var x := input.value.sequence;
      var r := LookUp(x);
      WhatIsKnown(x);
      if r.Known? {
        KnownIsNamed(history, x, r.id);
      }
      return r.Known?, if r.Known? then r.id else 0;
    }

    lemma NothingExcludesRoot()
      requires Valid()
      ensures !Answered(TreeOf(view), [])
    {
      ValidParts();
      StartWalk(view);
    }

    /** The same question, and otherwise the shortest known extension of the input. */
    method HasPrefixAndShortestExtension(input: Option<Input>, settings: Settings)
      returns (found: bool, prefixID: FormID, extended: bool, extensionID: FormID)
      requires Valid()
      modifies data`ids, data`strings, data`nextStringID
      ensures Valid()
      ensures input.None? || Off(settings) ==> !found && !extended && prefixID == extensionID == 0
      ensures input.Some? && !Off(settings) ==>
                var x := input.value.sequence;
                && (found <==> DecidedPrefix(history, x) || LastUnfinished(history, x))
                && (if found then NamesKnown(history, x, prefixID) else prefixID == 0)
                && (extended <==> !found && exists q :: KnownExtension(history, x, q))
                && (if extended then NamesNearest(history, x, extensionID) else extensionID == 0)
    {
      hide Consistent, LeavesOk, Shallow, Run, TreeOf, Answered, NamesPrefix, NamesShortest, MarkedExtension,
           NamesKnown, NamesNearest, KnownExtension, DecidedPrefix, LastUnfinished;
      if input.None? || settings.disableExclusionTree || !settings.enableExclusionTree {
        return false, 0, false, 0;
      }
      var x := input.value.sequence;
      var r := LookUp(x);
      WhatIsKnown(x);
      match r {
        case Known(id) =>
          KnownIsNamed(history, x, id);
          return true, id, false, 0;
        case Missing =>
          NearestIsKnown(history, x, 0);
          return false, 0, false, 0;
        case Inside(node) =>
          extended, extensionID := ShortestExtension(node, x);
          NearestIsKnown(history, x, extensionID);
          found, prefixID := false, 0;
      }
    }

    /** What the walk answers is what the history says, for the empty input too. */
    lemma WhatIsKnown(x: Path)
      requires Valid()
      ensures TreeOf(view) == Run(history)
      ensures Answered(TreeOf(view), x) <==> DecidedPrefix(history, x) || LastUnfinished(history, x)
      ensures x == [] ==> !Answered(TreeOf(view), x)
    {
      hide Consistent, LeavesOk, Shallow;
      if x == [] {
        NothingExcludesRoot();
      } else {
        AnsweredIff(history, x);
      }
    }
  }
}
