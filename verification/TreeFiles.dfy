/** Writing the nodes of the exclusion tree to a save file and linking them again after reading. */
module TreeFiles {
  import opened Basics
  import opened Buffers
  import opened TrieHistory
  import opened NodeRecords
  import opened TreeNodes
  import opened ExclusionTrees

  function ChildIDs(children: seq<ExclusionTreeNode>): seq<FormID> {
    seq(|children|, k requires 0 <= k < |children| => children[k].formID)
  }

  function RecordOf(n: ExclusionTreeNode): NodeRecord
    reads n`isLeaf, n`deleted, n`stringID, n`children, n`result, n`inputID
  {
    NodeRecord(n.formID, n.isLeaf, n.deleted, n.stringID, ChildIDs(n.children), n.result, n.inputID)
  }

  /** Write the body of a record of `length` bytes, of which `offset` are written already. */
  method WriteData(n: ExclusionTreeNode, out: OutStream, offset: nat, length: nat) returns (ok: bool)
    requires offset + DynamicSize(RecordOf(n)) == length
    modifies out, n`saved
    ensures ok && out.bytes == old(out.bytes) + Body(RecordOf(n)) && n.saved
    ensures Laid(out.bytes[|old(out.bytes)|..],
                 NodeRecord(n.formID, n.isLeaf, n.deleted, n.stringID, ChildIDs(n.children), n.result, n.inputID))
  {
    hide Fixed, Words, Fields, Flags, Laid;
    BodyIsLaid(RecordOf(n));
    ghost var r := RecordOf(n);
    var start := out.bytes;
    out.Write(Fixed(CLASS_VERSION, 4));
    out.Write(FormPart(RecordOf(n)));
    n.saved := true;
    var abuf := new ArrayBuffer(length - (offset + 24));
    ok := WriteFields(n, abuf);
    out.Write(abuf.Done());
  }

  method WriteFields(n: ExclusionTreeNode, abuf: ArrayBuffer) returns (ok: bool)
    requires abuf.Valid() && abuf.offset == 0 && abuf.size == 32 + WORD * |n.children|
    modifies abuf`offset, abuf.buffer
    ensures ok && abuf.Valid() && abuf.Done() == Words(Fields(RecordOf(n))) && abuf.Free() == 0
  {
    hide Words, Fields, Code, RecordOf;
    ghost var r := RecordOf(n);
    ghost var fields := Fields(r);
    FieldsAre(r);
    NodeFields(n);
    WordsOfNothing();
    assert fields[..0] == [];
    ok := WriteNext(abuf, fields, 0, n.stringID);
    ok := WriteNext(abuf, fields, 1, |n.children|);
    for i := 0 to |n.children|
      invariant abuf.Valid() && abuf.offset == WORD * (2 + i)
      invariant abuf.Done() == Words(fields[..2 + i])
    {
      ChildField(r, i);
      ok := WriteNext(abuf, fields, 2 + i, n.children[i].formID);
    }
    ok := WriteNext(abuf, fields, 2 + |n.children|, Code(n.result));
    ok := WriteNext(abuf, fields, 3 + |n.children|, n.inputID);
    assert fields[..4 + |n.children|] == fields;
  }

  method WriteNext(abuf: ArrayBuffer, ghost vs: seq<nat>, ghost k: nat, v: nat) returns (ok: bool)
    requires abuf.Valid() && abuf.offset == WORD * k && abuf.offset + WORD <= abuf.size
    requires k < |vs| && vs[k] == v && abuf.Done() == Words(vs[..k])
    modifies abuf`offset, abuf.buffer
    ensures ok && abuf.Valid() && abuf.offset == WORD * (k + 1) && abuf.Done() == Words(vs[..k + 1])
  {
    hide Words, Fixed;
    OneMoreWord(vs, k);
    ok := abuf.WriteWord(v);
  }

  lemma NodeFields(n: ExclusionTreeNode)
    ensures var r := RecordOf(n);
            && r.stringID == n.stringID && |r.children| == |n.children| && r.result == n.result
               && r.inputID == n.inputID
            && forall i :: 0 <= i < |n.children| ==> r.children[i] == n.children[i].formID
  {}

  lemma FieldsAre(r: NodeRecord)
    ensures var f, n := Fields(r), |r.children|;
            |f| == 4 + n && f[0] == r.stringID && f[1] == n && f[2 + n] == Code(r.result) && f[3 + n] == r.inputID
  {}

  lemma ChildField(r: NodeRecord, i: nat)
    requires i < |r.children|
    ensures |Fields(r)| == 4 + |r.children| && Fields(r)[2 + i] == r.children[i]
  {}

  lemma WordsOfNothing()
    ensures Words([]) == []
  {}

  lemma OneMoreWord(vs: seq<nat>, k: nat)
    requires k < |vs|
    ensures Words(vs[..k + 1]) == Words(vs[..k]) + Fixed(vs[k], WORD)
  {
    assert vs[..k + 1][..k] == vs[..k];
  }

  method CreateRecord(n: ExclusionTreeNode, out: OutStream)
    modifies out, n`saved
    ensures out.bytes == old(out.bytes) + Whole(RecordOf(n)) && n.saved
    ensures LaidWhole(out.bytes[|old(out.bytes)|..],
                      NodeRecord(n.formID, n.isLeaf, n.deleted, n.stringID, ChildIDs(n.children), n.result, n.inputID))
  {
    hide Fixed, Body, Laid, LaidWhole;
    WholeIsLaid(RecordOf(n));
    var size := DynamicSize(RecordOf(n));
    out.Write(Fixed(size, WORD));
    out.Write(Fixed(RECORD_TYPE, 4));
    var ok := WriteData(n, out, 12, size + 12);
  }

  // Reading

  /** A node as it was read: its children are still ids. */
  ghost predicate LoadedFrom(n: ExclusionTreeNode, r: NodeRecord)
    reads n
  {
    && n.formID == r.formID && n.isLeaf == r.leaf && n.deleted == r.deleted && n.stringID == r.stringID
    && n.result == r.result && n.inputID == r.inputID && n.childIDs == r.children && n.children == [] && n.saved
  }

  ghost function PathFor(paths: map<FormID, Path>, id: FormID): Path {
    if id in paths then paths[id] else []
  }

  /** How far reading a body goes. */
  function Consumed(b: seq<Byte>, length: nat): nat
    requires |b| >= 24 && length >= 24
  {
    if Number(b[..4]) != CLASS_VERSION then 4 else Min(length, |b|)
  }

  method ReadData(source: InStream, length: nat, ghost paths: map<FormID, Path>)
    returns (n: ExclusionTreeNode, ok: bool)
    requires source.Valid() && |source.Rest()| >= 24 && length >= 24
    modifies source`pos
    ensures source.Valid() && fresh(n) && n.path == PathFor(paths, n.formID)
    ensures source.Rest() == old(source.Rest())[Consumed(old(source.Rest()), length)..]
    ensures ok == Parse(old(source.Rest()), length).Some?
    ensures ok ==> LoadedFrom(n, Parse(old(source.Rest()), length).value)
    ensures ok ==> old(source.Rest())[..4] == [3, 0, 0, 0]
    ensures forall r :: length <= |old(source.Rest())| && Laid(old(source.Rest())[..length], r) && Fits(r) ==>
              ok && LoadedFrom(n, r)
  {
    hide *;
    ghost var b := source.Rest();
    if Parse(b, length).Some? {
      WhatIsRead(b, length);
    }
    forall r | length <= |b| && Laid(b[..length], r) && Fits(r) ensures Parse(b, length) == Some(r) {
      LaidIsRead(b[..length], r, b[length..]);
      assert b[..length] + b[length..] == b;
    }
    ParseUnfolds(b, length);
    Slices(b, 0, 4);
    var version := source.Read(4);
    if Number(version) != CLASS_VERSION {
      n := new ExclusionTreeNode(0, PathFor(paths, 0));
      return n, false;
    }
    var f := ReadForm(source, b);
    Slices(b, f.used, length);
    var data := source.Read(length - f.used);
    n, ok := NewFrom(f, data, paths);
  }

  /** A node with the identity and flags of a form and the fields that its data hold. */
  method NewFrom(f: FormData, data: seq<Byte>, ghost paths: map<FormID, Path>) returns (n: ExclusionTreeNode, ok: bool)
    ensures fresh(n) && n.formID == f.formID && n.path == PathFor(paths, f.formID)
    ensures ok == ParseFields(f, WholeWords(data)).Some?
    ensures ok ==> LoadedFrom(n, ParseFields(f, WholeWords(data)).value)
  {
    hide *;
    n := new ExclusionTreeNode(f.formID, PathFor(paths, f.formID));
    n.isLeaf, n.deleted, n.saved := LeafFlag(f.flags), DeletedFlag(f.flags), true;
    var abuf := new ArrayBuffer.Of(data);
    ok := ReadFields(n, abuf, f);
  }

  lemma ParseUnfolds(b: seq<Byte>, length: nat)
    requires |b| >= 24 && length >= 24
    ensures var f := ParseForm(b);
            && f.used <= 24
            && if Number(b[..4]) == CLASS_VERSION
               then Consumed(b, length) == Min(length, |b|)
                 && Parse(b, length) == ParseFields(f, WholeWords(b[f.used..Min(length, |b|)]))
               else Consumed(b, length) == 4 && Parse(b, length) == None
  {}

  /** What a read from `start` up to `end` takes and leaves. */
  lemma Slices(b: seq<Byte>, start: nat, end: nat)
    requires start <= end && start <= |b|
    ensures var rest, n, stop := b[start..], Min(end - start, |b[start..]|), Min(end, |b|);
            && start + n == stop && 0 <= n <= |rest| && rest[..n] == b[start..stop] && rest[n..] == b[stop..]
            && (end <= |b| ==> stop == end)
            && (start == 0 ==> rest == b && b[0..stop] == b[..stop])
  {}

  /** Identity and flags of a form; the version of the class has been read. */
  method ReadForm(source: InStream, ghost b: seq<Byte>) returns (f: FormData)
    requires source.Valid() && |b| >= 24 && source.Rest() == b[4..]
    modifies source`pos
    ensures source.Valid() && f == ParseForm(b) && source.Rest() == b[f.used..]
  {
    hide Number;
    var version := source.Read(4);
    assert version == b[4..8];
    if Number(version) == FORM_VERSION {
      var id := source.Read(8);
      var flags := source.Read(8);
      f := FormData(Number(id), Number(flags), 24);
      assert id == b[8..16] && flags == b[16..24];
    } else {
      f := FormData(0, 0, 8);
    }
  }

  /** A read past the end of the data is caught and reported. */
  method ReadFields(n: ExclusionTreeNode, abuf: ArrayBuffer, f: FormData) returns (ok: bool)
    requires abuf.Valid() && abuf.offset == 0
    requires n.formID == f.formID && n.children == [] && n.childIDs == [] && n.saved
    requires n.isLeaf == LeafFlag(f.flags) && n.deleted == DeletedFlag(f.flags)
    modifies n`stringID, n`childIDs, n`result, n`inputID, abuf`offset
    ensures ok == ParseFields(f, WholeWords(old(abuf.Ahead()))).Some?
    ensures ok ==> LoadedFrom(n, ParseFields(f, WholeWords(old(abuf.Ahead()))).value)
  {
    hide *;
    ghost var b := abuf.Ahead();
    ghost var w := WholeWords(b);
    FieldsParsed(f, w);
    StartAt(abuf);
    var stringID := ReadNext(abuf, b, 0);
    if stringID.None? { return false; }
    n.stringID := stringID.value;
    var size := ReadNext(abuf, b, 1);
    if size.None? { return false; }
    var i := 0;
    while i < Signed(size.value)
      invariant i <= Signed(size.value) && 2 + i <= |w| && At(abuf, b, 2 + i)
      invariant n.stringID == w[0] && n.childIDs == w[2..2 + i]
    {
      var id := ReadNext(abuf, b, 2 + i);
      if id.None? { return false; }
      n.childIDs := n.childIDs + [id.value];
      assert w[2..2 + i] + [w[2 + i]] == w[2..2 + (i + 1)];
      i := i + 1;
    }
    var result := ReadNext(abuf, b, 2 + i);
    if result.None? { return false; }
    n.result := ResultOf(result.value);
    var input := ReadNext(abuf, b, 3 + i);
    if input.None? { return false; }
    n.inputID := input.value;
    LoadedIs(n, ParseFields(f, w).value);
    return true;
  }

  lemma FieldsParsed(f: FormData, w: seq<nat>)
    ensures ParseFields(f, w)
            == if |w| < 2 || |w| < 4 + Signed(w[1]) then None
               else var n := Signed(w[1]);
                    Some(NodeRecord(f.formID, LeafFlag(f.flags), DeletedFlag(f.flags), w[0], w[2..2 + n],
                                    ResultOf(w[2 + n]), w[3 + n]))
  {}

  lemma LoadedIs(n: ExclusionTreeNode, r: NodeRecord)
    requires n.formID == r.formID && n.isLeaf == r.leaf && n.deleted == r.deleted && n.stringID == r.stringID
    requires n.result == r.result && n.inputID == r.inputID && n.childIDs == r.children && n.children == [] && n.saved
    ensures LoadedFrom(n, r)
  {}

  /** The buffer stands before word `k` of its data. */
  ghost predicate At(abuf: ArrayBuffer, b: seq<Byte>, k: nat)
    reads abuf, abuf.buffer
  {
    abuf.Valid() && k <= |WholeWords(b)| && WORD * k <= |b| && abuf.Ahead() == b[WORD * k..]
  }

  lemma StartAt(abuf: ArrayBuffer)
    requires abuf.Valid()
    ensures At(abuf, abuf.Ahead(), 0)
  {}

  method ReadNext(abuf: ArrayBuffer, ghost b: seq<Byte>, ghost k: nat) returns (v: Option<nat>)
    requires At(abuf, b, k)
    modifies abuf`offset
    ensures k <= |WholeWords(b)|
    ensures if k < |WholeWords(b)| then v == Some(WholeWords(b)[k]) && At(abuf, b, k + 1) else v == None
  {
    hide Number;
    NextWord(b, k);
    v := abuf.ReadWord();
  }

  /** Reading word after word. */
  lemma NextWord(b: seq<Byte>, k: nat)
    requires k <= |WholeWords(b)|
    ensures |WholeWords(b)| == |b| / WORD && WORD * k <= |b|
    ensures |b[WORD * k..]| < WORD <==> k == |WholeWords(b)|
    ensures k < |WholeWords(b)| ==>
              && WORD * (k + 1) <= |b| && b[WORD * k..][WORD..] == b[WORD * (k + 1)..]
              && Number(b[WORD * k..][..WORD]) == WholeWords(b)[k]
  {
    hide Number;
    if k < |WholeWords(b)| {
      assert b[WORD * k..][..WORD] == b[WORD * k..WORD * k + WORD];
    }
  }

  // ---------------------------------------------------------------------------------------------
  // All nodes

  function AllWhole(rs: seq<NodeRecord>): seq<Byte> {
    if rs == [] then [] else Whole(rs[0]) + AllWhole(rs[1..])
  }

  lemma {:induction false} AllWholeAppend(rs: seq<NodeRecord>, r: NodeRecord)
    ensures AllWhole(rs + [r]) == AllWhole(rs) + Whole(r)
  {
    if rs == [] {
      assert rs + [r] == [r];
      assert AllWhole([r]) == Whole(r) + AllWhole([]);
    } else {
      assert (rs + [r])[1..] == rs[1..] + [r];
      AllWholeAppend(rs[1..], r);
    }
  }

  /** The records of a table in some order. */
  ghost function Listed(records: map<FormID, NodeRecord>, order: seq<FormID>): seq<NodeRecord>
    requires forall k :: 0 <= k < |order| ==> order[k] in records
  {
    seq(|order|, k requires 0 <= k < |order| => records[order[k]])
  }

  /** The records of all nodes of a table. */
  ghost function Records(table: map<FormID, ExclusionTreeNode>): map<FormID, NodeRecord>
    reads table.Values
  {
    map id | id in table :: RecordOf(table[id])
  }

  ghost predicate Keyed(table: map<FormID, ExclusionTreeNode>) {
    forall id :: id in table ==> table[id].formID == id
  }

  ghost predicate Enumerates(order: seq<FormID>, ids: set<FormID>) {
    && (forall k :: 0 <= k < |order| ==> order[k] in ids)
    && (forall id :: id in ids ==> id in order)
    && forall j, k :: 0 <= j < k < |order| ==> order[j] != order[k]
  }

  /** Write the nodes of the table, in any order. */
  method SaveNodes(table: map<FormID, ExclusionTreeNode>, out: OutStream) returns (count: nat, ghost order: seq<FormID>)
    requires Keyed(table)
    modifies out, table.Values`saved
    ensures Enumerates(order, table.Keys) && count == |order|
    ensures out.bytes == old(out.bytes) + AllWhole(Listed(old(Records(table)), order))
  {
    hide Whole, RecordOf;
    ghost var records := Records(table);
    var todo := table.Keys;
    count, order := 0, [];
    while todo != {}
      invariant todo <= table.Keys && Enumerates(order, table.Keys - todo) && count == |order|
      invariant out.bytes == old(out.bytes) + AllWhole(Listed(records, order))
      decreases todo
    {
      var id :| id in todo;
      todo := todo - {id};
      CreateRecord(table[id], out);
      AllWholeAppend(Listed(records, order), records[id]);
      assert Listed(records, order + [id]) == Listed(records, order) + [records[id]];
      count, order := count + 1, order + [id];
    }
  }

  /** Read one record of a node: its size, its type, its body. */
  method ReadRecord(source: InStream, ghost r: NodeRecord, ghost more: seq<Byte>, ghost paths: map<FormID, Path>)
    returns (n: ExclusionTreeNode)
    requires source.Valid() && Fits(r) && source.Rest() == Whole(r) + more
    modifies source`pos
    ensures source.Valid() && source.Rest() == more
    ensures fresh(n) && LoadedFrom(n, r) && n.path == PathFor(paths, n.formID)
  {
    hide Number, Fixed, Parse, PathFor, Words, LoadedFrom, Flags;
    ghost var b := Body(r) + more;
    SizeIsExact(r);
    var size := source.Read(8);
    var rtype := source.Read(4);
    assert size == Fixed(DynamicSize(r), WORD) && rtype == Fixed(RECORD_TYPE, 4) && source.Rest() == b;
    WordRoundTrip(DynamicSize(r));
    RecordRoundTrip(r, more);
    var rlen := Number(size);
    var ok;
    n, ok := ReadData(source, rlen, paths);
    BodyIsConsumed(r, more);
  }

  lemma BodyIsConsumed(r: NodeRecord, more: seq<Byte>)
    ensures var b := Body(r) + more;
            && |b| >= 24 && Consumed(b, DynamicSize(r)) <= |b|
            && b[Consumed(b, DynamicSize(r))..] == more
  {
    hide Fixed, Words, Number;
    PartsOfBody(r, more);
    PowerOfWord();
    NumberOfFixed(CLASS_VERSION, 4);
    SizeIsExact(r);
  }

  /** The nodes read from the records `rs`: one for each that is not deleted. */
  ghost predicate TableOf(table: map<FormID, ExclusionTreeNode>, rs: seq<NodeRecord>, paths: map<FormID, Path>)
    reads table.Values
  {
    && (forall id :: id in table ==> exists k :: 0 <= k < |rs| && rs[k].formID == id && !rs[k].deleted)
    && forall k :: 0 <= k < |rs| && !rs[k].deleted ==>
                     var id := rs[k].formID;
                     id in table && LoadedFrom(table[id], rs[k]) && table[id].path == PathFor(paths, id)
  }

  ghost predicate DistinctIDs(rs: seq<NodeRecord>) {
    forall j, k :: 0 <= j < k < |rs| ==> rs[j].formID != rs[k].formID
  }

  lemma EmptyTable(paths: map<FormID, Path>)
    ensures TableOf(map[], [], paths)
  {}

  lemma NextRecord(rs: seq<NodeRecord>, i: nat)
    requires i < |rs|
    ensures AllWhole(rs[i..]) == Whole(rs[i]) + AllWhole(rs[i + 1..])
  {
    assert rs[i..][1..] == rs[i + 1..];
  }

  lemma TableGrows(table: map<FormID, ExclusionTreeNode>, rs: seq<NodeRecord>, i: nat, n: ExclusionTreeNode,
                   paths: map<FormID, Path>)
    requires i < |rs| && DistinctIDs(rs) && TableOf(table, rs[..i], paths)
    requires LoadedFrom(n, rs[i]) && n.path == PathFor(paths, n.formID)
    ensures n.formID !in table
    ensures TableOf(if n.deleted then table else table[n.formID := n], rs[..i + 1], paths)
  {
    hide PathFor;
    var before, now := rs[..i], rs[..i + 1];
    assert forall k :: 0 <= k < i ==> before[k] == now[k] == rs[k];
    assert now[i] == rs[i];
  }

  /** Read `count` records and register the nodes that are not deleted. */
  method LoadNodes(source: InStream, count: nat, ghost rs: seq<NodeRecord>, ghost paths: map<FormID, Path>)
    returns (table: map<FormID, ExclusionTreeNode>)
    requires source.Valid() && source.Rest() == AllWhole(rs) && count == |rs| && DistinctIDs(rs)
    requires forall k :: 0 <= k < |rs| ==> Fits(rs[k])
    modifies source`pos
    ensures TableOf(table, rs, paths) && forall id :: id in table ==> fresh(table[id])
  {
    hide *;
    table := map[];
    EmptyTable(paths);
    assert rs[0..] == rs && rs[..0] == [];
    for i := 0 to count
      invariant source.Valid() && source.Rest() == AllWhole(rs[i..])
      invariant TableOf(table, rs[..i], paths) && forall id :: id in table ==> fresh(table[id])
    {
      NextRecord(rs, i);
      var n := ReadRecord(source, rs[i], AllWhole(rs[i + 1..]), paths);
      TableGrows(table, rs, i, n, paths);
      if !n.deleted && n.formID !in table {
        table := table[n.formID := n];
      }
    }
    assert rs[..count] == rs;
  }

  // Linking

  /** The nodes that a list of ids stands for. */
  function Resolved(ids: seq<FormID>, table: map<FormID, ExclusionTreeNode>): seq<ExclusionTreeNode> {
    if ids == [] then []
    else
      var last := ids[|ids| - 1];
      Resolved(ids[..|ids| - 1], table) + if last in table then [table[last]] else []
  }

  lemma {:induction false} ResolvedAll(ids: seq<FormID>, table: map<FormID, ExclusionTreeNode>)
    requires forall k :: 0 <= k < |ids| ==> ids[k] in table
    ensures |Resolved(ids, table)| == |ids|
    ensures forall k :: 0 <= k < |ids| ==> Resolved(ids, table)[k] == table[ids[k]]
  {
    if ids != [] {
      ResolvedAll(ids[..|ids| - 1], table);
    }
  }

  method InitializeEarly(n: ExclusionTreeNode, table: map<FormID, ExclusionTreeNode>)
    requires n.children == []
    modifies n`children
    ensures n.children == Resolved(n.childIDs, table)
  {
    for x := 0 to |n.childIDs|
      invariant n.children == Resolved(n.childIDs[..x], table)
    {
      assert n.childIDs[..x + 1][..x] == n.childIDs[..x];
      if n.childIDs[x] in table {
        n.children := n.children + [table[n.childIDs[x]]];
      }
    }
    assert n.childIDs[..|n.childIDs|] == n.childIDs;
  }

  /** Link every node of the table, in any order. */
  method LinkAll(table: map<FormID, ExclusionTreeNode>)
    requires Keyed(table) && forall id :: id in table ==> table[id].children == []
    modifies table.Values`children
    ensures forall id :: id in table ==> table[id].children == Resolved(table[id].childIDs, table)
  {
    hide Resolved;
    var todo := table.Keys;
    while todo != {}
      invariant todo <= table.Keys
      invariant forall id :: id in table ==>
                               table[id].children == if id in todo then [] else Resolved(table[id].childIDs, table)
      decreases todo
    {
      var id :| id in todo;
      todo := todo - {id};
      InitializeEarly(table[id], table);
    }
  }

  // ---------------------------------------------------------------------------------------------
  // The loaded tree is the saved tree

  /** The saved tree with every node replaced by the node that was read for it. */
  ghost function Relinked(v: View, table: map<FormID, ExclusionTreeNode>): View
    requires forall p :: p in v ==> v[p].ref.formID in table
  {
    map p | p in v :: NodeState(table[v[p].ref.formID], Resolved(ChildIDs(v[p].children), table), v[p].stringID, false,
                                v[p].info)
  }

  /** For every node of the tree there is a node with the same id and the same place in the tree. */
  ghost predicate Replaces(v: View, table: map<FormID, ExclusionTreeNode>) {
    && Keyed(table)
    && forall p :: p in v ==> v[p].ref.formID in table && table[v[p].ref.formID].path == p
  }

  /** The children of a loaded node are the loaded children, in the same order. */
  lemma ChildrenRelinked(v: View, hashmap: map<FormID, ExclusionTreeNode>, ids: map<string, FormID>,
                         table: map<FormID, ExclusionTreeNode>, p: Path)
    requires Linked(v, hashmap, ids) && Replaces(v, table) && p in v
    ensures var kids, w := v[p].children, Relinked(v, table);
            && |w[p].children| == |kids|
            && forall i :: 0 <= i < |kids| ==>
                             && kids[i].path in w && w[p].children[i] == w[kids[i].path].ref
                             && w[p].children[i].path == kids[i].path && v[kids[i].path].ref == kids[i]
  {
    var kids := v[p].children;
    assert NodeOk(v, ids, p);
    forall i | 0 <= i < |kids|
      ensures ChildIDs(kids)[i] in table && kids[i].path in v && v[kids[i].path].ref == kids[i]
    {
      assert ChildOk(v, p, kids[i]);
    }
    ResolvedAll(ChildIDs(kids), table);
  }

  /** The nodes that were read form the same tree. */
  lemma RelinkedIsLinked(v: View, hashmap: map<FormID, ExclusionTreeNode>, ids: map<string, FormID>, table: map<FormID,
                         ExclusionTreeNode>)
    requires Linked(v, hashmap, ids) && Replaces(v, table)
    ensures Linked(Relinked(v, table), table, ids)
  {
    hide Resolved;
    var w := Relinked(v, table);
    forall p | p in w ensures NodeOk(w, ids, p) {
      assert NodeOk(v, ids, p);
      ChildrenRelinked(v, hashmap, ids, table, p);
      if p != [] {
        ChildrenRelinked(v, hashmap, ids, table, Parent(p));
        var i :| 0 <= i < |v[Parent(p)].children| && v[Parent(p)].children[i] == v[p].ref;
        assert w[Parent(p)].children[i] == w[p].ref;
      }
      forall i | 0 <= i < |w[p].children| ensures ChildOk(w, p, w[p].children[i]) {
        assert ChildOk(v, p, v[p].children[i]);
      }
      forall i, j | 0 <= i < j < |w[p].children| ensures w[p].children[i] != w[p].children[j] {
        assert v[p].children[i] != v[p].children[j];
      }
    }
  }

  lemma RelinkedIsSame(v: View, hashmap: map<FormID, ExclusionTreeNode>, ids: map<string, FormID>, table: map<FormID,
                       ExclusionTreeNode>, nodecount: int, leafcount: int)
    requires Linked(v, hashmap, ids) && Replaces(v, table)
    ensures var w := Relinked(v, table);
            && TreeOf(w) == TreeOf(v) && w.Keys == v.Keys
            && (LeavesOk(v) ==> LeavesOk(w))
            && (Sized(v, nodecount, leafcount) ==> Sized(w, nodecount, leafcount))
  {
    hide Resolved, Linked;
    var w := Relinked(v, table);
    assert w.Keys == v.Keys;
    SameSize(v, w);
    assert Leaves(w) == Leaves(v);
    forall p | p in v ensures |w[p].children| == |v[p].children| {
      ChildrenRelinked(v, hashmap, ids, table, p);
    }
  }

  lemma SameSize<K, V, W>(a: map<K, V>, b: map<K, W>)
    requires a.Keys == b.Keys
    ensures |a| == |b|
  {
    assert |a| == |a.Keys| && |b| == |b.Keys|;
  }

  /** Every loaded node has the fields of the node it stands for; its children are still ids. */
  ghost predicate Copied(v: View, table: map<FormID, ExclusionTreeNode>)
    requires Replaces(v, table)
    reads table.Values`stringID, table.Values`deleted, table.Values`result, table.Values`isLeaf, table.Values`inputID,
      table.Values`childIDs
  {
    forall p :: p in v ==>
                  var n := table[v[p].ref.formID];
                  && n.stringID == v[p].stringID && !n.deleted && n.childIDs == ChildIDs(v[p].children)
                  && Info(n.result, n.isLeaf, n.inputID) == v[p].info
  }

  /** The record that the view of a node asks for. */
  ghost function RecordAt(n: NodeState): NodeRecord {
    NodeRecord(n.ref.formID, n.info.leaf, n.deleted, n.stringID, ChildIDs(n.children), n.info.result, n.info.input)
  }

  ghost predicate Recorded(v: View, records: map<FormID, NodeRecord>) {
    forall p :: p in v ==> v[p].ref.formID in records && records[v[p].ref.formID] == RecordAt(v[p]) && !v[p].deleted
  }

  lemma ValidTree(tree: ExclusionTree)
    requires tree.Valid()
    ensures var v, data := tree.view, tree.data;
            && Linked(v, data.hashmap, data.ids) && LeavesOk(v) && Sized(v, tree.nodecount, tree.leafcount)
            && Shallow(v.Keys, tree.depth) && TreeOf(v) == Run(tree.history)
            && Keyed(data.hashmap) && Recorded(v, Records(data.hashmap))
               && Records(data.hashmap).Keys == data.hashmap.Keys
            && forall id :: id in data.hashmap ==>
                 Records(data.hashmap)[id] == RecordOf(data.hashmap[id]) && Records(data.hashmap)[id].formID == id
  {
    hide Run;
    var v, data := tree.view, tree.data;
    forall p | p in v ensures RecordOf(v[p].ref) == RecordAt(v[p]) {
      assert Matches(v[p]);
    }
  }

  lemma ReadBack(v: View, hashmap: map<FormID, ExclusionTreeNode>, ids: map<string, FormID>,
                 records: map<FormID, NodeRecord>, order: seq<FormID>,
                 table: map<FormID, ExclusionTreeNode>, paths: map<FormID, Path>)
    requires Linked(v, hashmap, ids) && Recorded(v, records) && records.Keys == hashmap.Keys
    requires Enumerates(order, records.Keys)
    requires paths == map id | id in hashmap :: hashmap[id].path
    requires TableOf(table, Listed(records, order), paths)
    ensures Keyed(table) && Replaces(v, table) && Copied(v, table)
  {
    hide ChildIDs;
    var rs := Listed(records, order);
    TableIsUnlinked(table, rs, paths);
    forall p | p in v
      ensures var id := v[p].ref.formID;
              && id in table && table[id].path == p
              && table[id].stringID == v[p].stringID && !table[id].deleted
                 && table[id].childIDs == ChildIDs(v[p].children)
              && Info(table[id].result, table[id].isLeaf, table[id].inputID) == v[p].info
    {
      var id := v[p].ref.formID;
      assert NodeOk(v, ids, p);
      assert id in order;
      var k :| 0 <= k < |order| && order[k] == id;
      assert rs[k] == RecordAt(v[p]);
      assert LoadedFrom(table[id], rs[k]);
    }
  }

  lemma TableIsUnlinked(table: map<FormID, ExclusionTreeNode>, rs: seq<NodeRecord>, paths: map<FormID, Path>)
    requires TableOf(table, rs, paths)
    ensures Keyed(table) && forall id :: id in table ==> table[id].children == []
  {
    forall id | id in table ensures table[id].formID == id && table[id].children == [] {
      var k :| 0 <= k < |rs| && rs[k].formID == id && !rs[k].deleted;
      assert LoadedFrom(table[id], rs[k]);
    }
  }

  lemma CopiedIsSynced(v: View, table: map<FormID, ExclusionTreeNode>)
    requires Replaces(v, table) && Copied(v, table)
    requires forall id :: id in table ==> table[id].children == Resolved(table[id].childIDs, table)
    ensures Synced(Relinked(v, table), table.Values)
  {
    hide Resolved;
    var w := Relinked(v, table);
    forall p | p in w ensures w[p].ref in table.Values && Matches(w[p]) {
      var id := v[p].ref.formID;
      assert table[id] in table.Values;
    }
  }

  lemma ListedFacts(records: map<FormID, NodeRecord>, order: seq<FormID>)
    requires forall id :: id in records ==> records[id].formID == id && Fits(records[id])
    requires Enumerates(order, records.Keys)
    ensures var rs := Listed(records, order);
            |rs| == |order| && DistinctIDs(rs) && forall k :: 0 <= k < |rs| ==> order[k] in records && Fits(rs[k])
  {
    hide Fits;
  }

  /** Write every node of the registry to a file, read the file back and link what was read: the nodes that
      are read form a tree with the same paths, labels, results, leaf marks, child order and counts, that is
      the tree of the same history. */
  method SaveAndLoad(tree: ExclusionTree) returns (table: map<FormID, ExclusionTreeNode>)
    requires tree.Valid()
    requires forall id :: id in tree.data.hashmap ==> Fits(RecordOf(tree.data.hashmap[id]))
    modifies tree.data.hashmap.Values`saved
    ensures Replaces(tree.view, table) && forall id :: id in table ==> fresh(table[id])
    ensures var w := Relinked(tree.view, table);
            && Linked(w, table, tree.data.ids) && Synced(w, table.Values)
            && TreeOf(w) == Run(tree.history) && LeavesOk(w)
            && Sized(w, tree.nodecount, tree.leafcount) && Shallow(w.Keys, tree.depth)
  {
    hide *;
    ghost var v, hashmap, ids := tree.view, tree.data.hashmap, tree.data.ids;
    ValidTree(tree);
    ghost var records := Records(hashmap);
    ghost var paths := map id | id in hashmap :: hashmap[id].path;
    var out := new OutStream();
    var count;
    ghost var order;
    count, order := SaveNodes(tree.data.hashmap, out);
    ListedFacts(records, order);
    ghost var rs := Listed(records, order);
    assert out.bytes == AllWhole(rs);
    var source := new InStream(out.bytes);
    table := LoadNodes(source, count, rs, paths);
    ReadBack(v, hashmap, ids, records, order, table, paths);
    TableIsUnlinked(table, rs, paths);
    LinkAll(table);
    CopiedIsSynced(v, table);
    RelinkedIsLinked(v, hashmap, ids, table);
    RelinkedIsSame(v, hashmap, ids, table, tree.nodecount, tree.leafcount);
  }
}
