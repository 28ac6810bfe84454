/** The write queues to the tests: linked lists that are drained by arbitrarily short writes. */
module IPCommManagers {
  import opened Basics

  /** One write request. `data` is the request's own copy of the bytes. */
  class WriteData {
    const test: FormID
    const data: seq<Byte>
    var offset: int
    var length: int
    var next: WriteData?

    constructor (test: FormID, data: seq<Byte>, offset: nat, length: nat)
      requires offset + length <= |data|
      ensures this.test == test && this.data == data[offset..offset + length]
      ensures this.offset == 0 && this.length == length && next == null
    {
      this.test, this.data := test, data[offset..offset + length];
      this.offset, this.length, this.next := 0, length, null;
    }
  }

  // ---------------------------------------------------------------------------------------------
  // The queues as values

  /** A list node with its numbers. */
  datatype Chunk = Chunk(ref: WriteData, offset: int, length: int)

  type Queue = seq<Chunk>

  predicate Sound(c: Chunk) {
    0 <= c.offset && 0 < c.length && c.offset + c.length == |c.ref.data|
  }

  function Rest(c: Chunk): seq<Byte> {
    if Sound(c) then c.ref.data[c.offset..] else []
  }

  /** The bytes that still have to be written, in order. */
  function Pending(q: Queue): seq<Byte> {
    if q == [] then [] else Rest(q[0]) + Pending(q[1..])
  }

  lemma {:induction false} PendingAppend(q: Queue, c: Chunk)
    ensures Pending(q + [c]) == Pending(q) + Rest(c)
  {
    if q == [] {
      assert Pending([c]) == Rest(c);
    } else {
      PendingAppend(q[1..], c);
      assert (q + [c])[1..] == q[1..] + [c];
      Associative(Rest(q[0]), Pending(q[1..]), Rest(c));
    }
  }

  lemma PendingSplit(c: Chunk, q: Queue)
    ensures Pending([c] + q) == Rest(c) + Pending(q)
  {
    assert ([c] + q)[1..] == q;
  }

  /** The nodes are different, belong to the test, and their numbers are in range. */
  ghost predicate QueueOk(id: FormID, q: Queue) {
    && (forall k :: 0 <= k < |q| ==> Sound(q[k]) && q[k].ref.test == id)
    && (forall k, m :: 0 <= k < m < |q| ==> q[k].ref != q[m].ref)
  }

  function Head(q: Queue): (w: WriteData?)
    ensures w == null <==> q == []
  {
    if q == [] then null else q[0].ref
  }

  type Queues = map<FormID, Queue>

  /** Every queue has a node and is sound; the live nodes are exactly the nodes of the queues; none is freed. */
  ghost predicate Good(qs: Queues, live: set<WriteData>, freed: set<WriteData>) {
    && live !! freed
    && (forall id :: id in qs ==> qs[id] != [] && QueueOk(id, qs[id]))
    && (forall id, k :: id in qs && 0 <= k < |qs[id]| ==> qs[id][k].ref in live)
    && (forall w :: w in live ==> w.test in qs && exists k :: 0 <= k < |qs[w.test]| && qs[w.test][k].ref == w)
  }

  /** An object carries the numbers of its list node and points to the next one. */
  ghost predicate LinkedAt(q: Queue, k: nat)
    requires k < |q|
    reads q[k].ref
  {
    q[k].ref.offset == q[k].offset && q[k].ref.length == q[k].length && q[k].ref.next == Head(q[k + 1..])
  }

  ghost predicate Linked(q: Queue, nodes: set<WriteData>)
    reads nodes
  {
    forall k {:trigger LinkedAt(q, k)} :: 0 <= k < |q| ==> q[k].ref in nodes && LinkedAt(q, k)
  }

  ghost predicate AllLinked(qs: Queues, live: set<WriteData>)
    reads live
  {
    forall id :: id in qs ==> Linked(qs[id], Mine(live, id))
  }

  /** The live nodes of one test. */
  ghost function Mine(live: set<WriteData>, id: FormID): set<WriteData> {
    set w | w in live && w.test == id
  }

  type Ledger = map<FormID, seq<Byte>>

  function Log(m: Ledger, id: FormID): seq<Byte> {
    if id in m then m[id] else []
  }

  function QueueOf(qs: Queues, id: FormID): Queue {
    if id in qs then qs[id] else []
  }

  /** What was delivered followed by what is pending is what was submitted. */
  ghost predicate Balanced(submitted: seq<Byte>, delivered: seq<Byte>, q: Queue) {
    submitted == delivered + Pending(q)
  }

  ghost predicate Conserved(qs: Queues, submitted: Ledger, delivered: Ledger) {
    forall id :: Balanced(Log(submitted, id), Log(delivered, id), QueueOf(qs, id))
  }

  lemma ConservedAt(qs: Queues, submitted: Ledger, delivered: Ledger, qs': Queues, submitted': Ledger,
                    delivered': Ledger, id: FormID)
    requires Conserved(qs, submitted, delivered)
    requires forall i :: i != id ==>
               && Log(submitted', i) == Log(submitted, i) && Log(delivered', i) == Log(delivered, i)
               && QueueOf(qs', i) == QueueOf(qs, i)
    requires Balanced(Log(submitted', id), Log(delivered', id), QueueOf(qs', id))
    ensures Conserved(qs', submitted', delivered')
  {}

  lemma SubmitBalances(submitted: seq<Byte>, delivered: seq<Byte>, q: Queue, c: Chunk)
    requires Balanced(submitted, delivered, q)
    ensures Balanced(submitted + Rest(c), delivered, q + [c])
  {
    PendingAppend(q, c);
    Associative(delivered, Pending(q), Rest(c));
  }

  /** `written` bytes of the first node go out. */
  lemma DeliverBalances(submitted: seq<Byte>, delivered: seq<Byte>, c: Chunk, tail: Queue, written: nat)
    requires Balanced(submitted, delivered, [c] + tail) && Sound(c) && written <= c.length
    ensures var delivered' := delivered + c.ref.data[c.offset..c.offset + written];
            var c' := c.(offset := c.offset + written, length := c.length - written);
            if written < c.length then Sound(c') && Balanced(submitted, delivered', [c'] + tail)
            else Balanced(submitted, delivered', tail)
  {
    var out, left := c.ref.data[c.offset..c.offset + written], c.ref.data[c.offset + written..];
    PendingSplit(c, tail);
    assert Rest(c) == out + left;
    assert delivered + ((out + left) + Pending(tail)) == (delivered + out) + (left + Pending(tail));
    if written < c.length {
      PendingSplit(c.(offset := c.offset + written, length := c.length - written), tail);
    } else {
      assert left == [] && left + Pending(tail) == Pending(tail);
    }
  }

  // What the steps on one queue do to the whole

  lemma GoodAppend(qs: Queues, live: set<WriteData>, freed: set<WriteData>, id: FormID, c: Chunk)
    requires Good(qs, live, freed) && Sound(c) && c.ref.test == id && c.ref !in live && c.ref !in freed
    ensures Good(qs[id := QueueOf(qs, id) + [c]], live + {c.ref}, freed)
  {
    var q := QueueOf(qs, id);
    var qs': Queues := qs[id := q + [c]];
    assert QueueOk(id, q + [c]);
    forall w | w in live + {c.ref}
      ensures w.test in qs' && exists k :: 0 <= k < |qs'[w.test]| && qs'[w.test][k].ref == w
    {
      if w == c.ref {
        assert qs'[id][|q|].ref == w;
      } else {
        var k :| 0 <= k < |qs[w.test]| && qs[w.test][k].ref == w;
        assert qs'[w.test][k].ref == w;
      }
    }
  }

  /** The first node is deleted; the queue goes with its last node. */
  function WithoutHead(qs: Queues, id: FormID): Queues
    requires id in qs && qs[id] != []
  {
    if |qs[id]| == 1 then qs - {id} else qs[id := qs[id][1..]]
  }

  lemma GoodPop(qs: Queues, live: set<WriteData>, freed: set<WriteData>, id: FormID)
    requires Good(qs, live, freed) && id in qs
    ensures var w := qs[id][0].ref;
            w in live && w.test == id && Good(WithoutHead(qs, id), live - {w}, freed + {w})
  {
    var q, h := qs[id], qs[id][0].ref;
    var qs': Queues := WithoutHead(qs, id);
    assert QueueOk(id, q);
    assert QueueOk(id, q[1..]);
    forall w | w in live - {h} ensures w.test in qs' && exists k :: 0 <= k < |qs'[w.test]| && qs'[w.test][k].ref == w {
      var k :| 0 <= k < |qs[w.test]| && qs[w.test][k].ref == w;
      if w.test == id {
        assert q[1..][k - 1].ref == w;
      } else {
        assert qs'[w.test][k].ref == w;
      }
    }
    forall i, k | i in qs' && 0 <= k < |qs'[i]| ensures qs'[i][k].ref in live - {h} {
      if i == id {
        assert qs'[i][k] == q[k + 1] && q[k + 1].ref != q[0].ref;
      } else {
        assert QueueOk(i, qs[i]);
      }
    }
  }

  /** The numbers of the first node change. */
  lemma GoodShorten(qs: Queues, live: set<WriteData>, freed: set<WriteData>, id: FormID, c: Chunk)
    requires Good(qs, live, freed) && id in qs && Sound(c) && c.ref == qs[id][0].ref
    ensures Good(qs[id := [c] + qs[id][1..]], live, freed)
  {
    hide QueueOk, Sound;
    var q := qs[id];
    var q' := [c] + q[1..];
    ShortenKeepsOk(id, q, c);
    assert forall k :: 0 <= k < |q| ==> q'[k].ref == q[k].ref;
    var qs': Queues := qs[id := q'];
    forall w | w in live ensures w.test in qs' && exists k :: 0 <= k < |qs'[w.test]| && qs'[w.test][k].ref == w {
      var k :| 0 <= k < |qs[w.test]| && qs[w.test][k].ref == w;
      assert qs'[w.test][k].ref == w;
    }
  }

  lemma ShortenKeepsOk(id: FormID, q: Queue, c: Chunk)
    requires QueueOk(id, q) && q != [] && Sound(c) && c.ref == q[0].ref
    ensures QueueOk(id, [c] + q[1..])
  {
    var q' := [c] + q[1..];
    assert forall k :: 0 <= k < |q| ==> q'[k].ref == q[k].ref && (k > 0 ==> q'[k] == q[k]);
  }

  lemma LinkedTail(q: Queue, nodes: set<WriteData>, id: FormID)
    requires Linked(q, nodes) && q != [] && QueueOk(id, q)
    ensures Linked(q[1..], nodes - {q[0].ref})
    ensures LinkedAt(q, 0) && q[0].ref in nodes
  {
    assert LinkedAt(q, 0);
    forall k | 0 <= k < |q[1..]| ensures q[1..][k].ref in nodes - {q[0].ref} && LinkedAt(q[1..], k) {
      assert LinkedAt(q, k + 1);
      assert q[1..][k + 1..] == q[k + 1 + 1..];
    }
  }

  lemma LinkedCons(c: Chunk, q: Queue, nodes: set<WriteData>)
    requires Linked(q, nodes - {c.ref}) && c.ref in nodes
    requires c.ref.offset == c.offset && c.ref.length == c.length && c.ref.next == Head(q)
    ensures Linked([c] + q, nodes)
  {
    var q' := [c] + q;
    forall k | 0 <= k < |q'| ensures q'[k].ref in nodes && LinkedAt(q', k) {
      if k > 0 {
        assert LinkedAt(q, k - 1);
        assert q'[k + 1..] == q[k..];
      } else {
        assert q'[1..] == q;
      }
    }
  }

  /** Linking a new node behind the last one. */
  lemma LinkedAppend(q: Queue, c: Chunk, nodes: set<WriteData>)
    requires q != [] && c.ref in nodes
    requires forall k {:trigger LinkedAt(q, k)} :: 0 <= k < |q| - 1 ==> q[k].ref in nodes && LinkedAt(q, k)
    requires var l := q[|q| - 1];
               && l.ref in nodes && l.ref.offset == l.offset && l.ref.length == l.length
               && l.ref.next == c.ref
    requires c.ref.offset == c.offset && c.ref.length == c.length && c.ref.next == null
    ensures Linked(q + [c], nodes)
  {
    var q' := q + [c];
    forall k | 0 <= k < |q'| ensures q'[k].ref in nodes && LinkedAt(q', k) {
      if k < |q| - 1 {
        assert LinkedAt(q, k);
      }
    }
  }

  // The lists of the other tests are not touched

  ghost predicate OthersLinked(qs: Queues, live: set<WriteData>, id: FormID)
    reads live - Mine(live, id)
  {
    forall i :: i in qs && i != id ==> Linked(qs[i], Mine(live, i))
  }

  lemma SplitLinked(qs: Queues, live: set<WriteData>, id: FormID)
    requires AllLinked(qs, live)
    ensures OthersLinked(qs, live, id)
    ensures (id in qs ==> Linked(qs[id], Mine(live, id))) && Linked(QueueOf(qs, id), Mine(live, id))
  {}

  lemma JoinLinked(qs: Queues, live: set<WriteData>, qs': Queues, live': set<WriteData>, id: FormID)
    requires OthersLinked(qs, live, id)
    requires forall i :: i != id ==> (i in qs' <==> i in qs) && (i in qs ==> qs'[i] == qs[i])
    requires forall i :: i != id ==> Mine(live', i) == Mine(live, i)
    requires id in qs' ==> Linked(qs'[id], Mine(live', id))
    ensures AllLinked(qs', live')
  {
    forall i | i in qs' ensures Linked(qs'[i], Mine(live', i)) {
      assert i != id ==> Mine(live', i) == Mine(live, i);
    }
  }

  ghost predicate HeadsOk(writeQueue: map<FormID, WriteData?>, qs: Queues) {
    writeQueue.Keys == qs.Keys && forall id :: id in qs ==> writeQueue[id] == Head(qs[id])
  }

  lemma SubmitConserves(qs: Queues, submitted: Ledger, delivered: Ledger, id: FormID, c: Chunk)
    requires Conserved(qs, submitted, delivered)
    ensures Conserved(qs[id := QueueOf(qs, id) + [c]], submitted[id := Log(submitted, id) + Rest(c)], delivered)
  {
    hide Balanced, Pending, Rest;
    var q := QueueOf(qs, id);
    assert Balanced(Log(submitted, id), Log(delivered, id), q);
    SubmitBalances(Log(submitted, id), Log(delivered, id), q, c);
    ConservedAt(qs, submitted, delivered, qs[id := q + [c]], submitted[id := Log(submitted, id) + Rest(c)], delivered,
                id);
  }

  lemma HeadsAppend(writeQueue: map<FormID, WriteData?>, qs: Queues, id: FormID, c: Chunk)
    requires HeadsOk(writeQueue, qs) && forall i :: i in qs ==> qs[i] != []
    ensures var q := QueueOf(qs, id);
            && (id in writeQueue <==> q != []) && (q != [] ==> writeQueue[id] == q[0].ref)
            && HeadsOk(if q == [] then writeQueue[id := c.ref] else writeQueue, qs[id := q + [c]])
  {}

  lemma GoodParts(qs: Queues, live: set<WriteData>, freed: set<WriteData>, id: FormID)
    requires Good(qs, live, freed)
    ensures live !! freed && forall i :: i in qs ==> qs[i] != []
    ensures QueueOk(id, QueueOf(qs, id)) && Different(QueueOf(qs, id))
            && (id in qs ==> qs[id] != [] && QueueOf(qs, id) == qs[id])
    ensures Head(QueueOf(qs, id)) == null <==> id !in qs
  {}

  lemma SoundHead(q: Queue, id: FormID)
    requires QueueOk(id, q) && q != []
    ensures var c := q[0];
            && Sound(c) && c.ref.test == id && 0 <= c.offset && 0 < c.length && c.offset + c.length == |c.ref.data|
            && |Rest(c)| == c.length
  {}

  lemma HeadsParts(writeQueue: map<FormID, WriteData?>, qs: Queues, id: FormID)
    requires HeadsOk(writeQueue, qs) && (id in qs ==> qs[id] != [])
    ensures id in qs <==> id in writeQueue
    ensures id in qs ==> writeQueue[id] == qs[id][0].ref == Head(QueueOf(qs, id))
  {}

  lemma NewChunk(c: Chunk)
    requires c.offset == 0 && 0 < c.length == |c.ref.data|
    ensures Sound(c) && Rest(c) == c.ref.data
  {}

  lemma MineIsLive(live: set<WriteData>, id: FormID)
    ensures Mine(live, id) <= live && forall w :: w in Mine(live, id) ==> w.test == id
  {}

  lemma QueueOfElsewhere(qs: Queues, id: FormID, q: Queue)
    ensures forall i :: i != id ==> QueueOf(qs[id := q], i) == QueueOf(qs, i)
  {}

  lemma QueueOfUpdated(qs: Queues, qs': Queues, id: FormID)
    requires id in qs' && qs' == qs[id := qs'[id]]
    ensures forall i :: i != id ==> (i in qs' <==> i in qs) && (i in qs ==> qs'[i] == qs[i])
  {}

  // Walking a list by its next pointers

  function RefsOf(q: Queue): set<WriteData> {
    set k | 0 <= k < |q| :: q[k].ref
  }

  ghost predicate NextAt(q: Queue, k: nat)
    requires k < |q|
    reads q[k].ref`next
  {
    q[k].ref.next == Head(q[k + 1..])
  }

  ghost predicate NextChain(q: Queue)
    reads RefsOf(q)`next
  {
    forall k {:trigger NextAt(q, k)} :: 0 <= k < |q| ==> NextAt(q, k)
  }

  ghost predicate Different(q: Queue) {
    forall k, m :: 0 <= k < m < |q| ==> q[k].ref != q[m].ref
  }

  lemma RefsStep(q: Queue, k: nat)
    requires k < |q| && Different(q)
    ensures RefsOf(q[..k + 1]) == RefsOf(q[..k]) + {q[k].ref}
    ensures q[k].ref in RefsOf(q) && q[k].ref !in RefsOf(q[..k])
    ensures q[k..][1..] == q[k + 1..]
  {
    forall w | w in RefsOf(q[..k + 1]) ensures w in RefsOf(q[..k]) + {q[k].ref} {
      var m :| 0 <= m < k + 1 && q[..k + 1][m].ref == w;
      assert m < k ==> q[..k][m].ref == w;
    }
    forall w | w in RefsOf(q[..k]) ensures w in RefsOf(q[..k + 1]) && w != q[k].ref {
      var m :| 0 <= m < k && q[..k][m].ref == w;
      assert q[..k + 1][m].ref == w && q[m].ref == w;
    }
    assert q[..k + 1][k].ref == q[k].ref;
  }

  lemma HeadLinked(q: Queue, nodes: set<WriteData>)
    requires Linked(q, nodes) && q != []
    ensures var c := q[0];
            c.ref in nodes && c.ref.offset == c.offset && c.ref.length == c.length && c.ref.next == Head(q[1..])
  {
    assert LinkedAt(q, 0);
  }

  lemma ChainOf(q: Queue, nodes: set<WriteData>, id: FormID)
    requires Linked(q, nodes) && QueueOk(id, q)
    ensures NextChain(q) && Different(q)
  {
    forall k | 0 <= k < |q| ensures NextAt(q, k) {
      assert LinkedAt(q, k);
    }
  }

  lemma DeliverConserves(qs: Queues, submitted: Ledger, delivered: Ledger, id: FormID, written: nat)
    requires Conserved(qs, submitted, delivered) && id in qs && qs[id] != [] && Sound(qs[id][0])
             && written <= qs[id][0].length
    ensures var c := qs[id][0];
            var c' := c.(offset := c.offset + written, length := c.length - written);
            var delivered' := delivered[id := Log(delivered, id) + c.ref.data[c.offset..c.offset + written]];
            && (written < c.length ==> Sound(c') && Conserved(qs[id := [c'] + qs[id][1..]], submitted, delivered'))
            && (written == c.length ==> Conserved(WithoutHead(qs, id), submitted, delivered'))
  {
    hide Balanced, Sound, Pending, Rest;
    var c, tail := qs[id][0], qs[id][1..];
    SoundUnfolds(c);
    assert qs[id] == [c] + tail;
    assert Balanced(Log(submitted, id), Log(delivered, id), QueueOf(qs, id));
    DeliverBalances(Log(submitted, id), Log(delivered, id), c, tail, written);
    var delivered' := delivered[id := Log(delivered, id) + c.ref.data[c.offset..c.offset + written]];
    if written < c.length {
      var c' := c.(offset := c.offset + written, length := c.length - written);
      ConservedAt(qs, submitted, delivered, qs[id := [c'] + tail], submitted, delivered', id);
    } else {
      ConservedAt(qs, submitted, delivered, WithoutHead(qs, id), submitted, delivered', id);
    }
  }

  lemma SoundUnfolds(c: Chunk)
    requires Sound(c)
    ensures 0 <= c.offset && 0 < c.length && c.offset + c.length == |c.ref.data|
    ensures Rest(c) == c.ref.data[c.offset..c.offset + c.length] && |Rest(c)| == c.length
  {}

  lemma HeadsPop(writeQueue: map<FormID, WriteData?>, qs: Queues, id: FormID)
    requires HeadsOk(writeQueue, qs) && id in qs && qs[id] != []
    ensures var tail := qs[id][1..];
            HeadsOk(if tail == [] then writeQueue - {id} else writeQueue[id := Head(tail)], WithoutHead(qs, id))
  {}

  lemma HeadsShorten(writeQueue: map<FormID, WriteData?>, qs: Queues, id: FormID, c: Chunk)
    requires HeadsOk(writeQueue, qs) && id in qs && qs[id] != [] && c.ref == qs[id][0].ref
    ensures HeadsOk(writeQueue, qs[id := [c] + qs[id][1..]])
  {}

  lemma WithoutHeadElsewhere(qs: Queues, id: FormID)
    requires id in qs && qs[id] != []
    ensures forall i :: i != id ==>
              && (i in WithoutHead(qs, id) <==> i in qs)
              && (i in qs ==> WithoutHead(qs, id)[i] == qs[i])
    ensures id in WithoutHead(qs, id) ==> WithoutHead(qs, id)[id] == qs[id][1..]
    ensures Count(WithoutHead(qs, id), id) == Count(qs, id) - 1
    ensures Head(qs[id][1..]) == Head(QueueOf(WithoutHead(qs, id), id))
  {}

  lemma MineIsRefs(qs: Queues, live: set<WriteData>, freed: set<WriteData>, id: FormID)
    requires Good(qs, live, freed) && id in qs
    ensures Mine(live, id) == RefsOf(qs[id]) && RefsOf(qs[id]) <= live
  {
    assert QueueOk(id, qs[id]);
  }

  lemma GoodDrop(qs: Queues, live: set<WriteData>, freed: set<WriteData>, id: FormID)
    requires Good(qs, live, freed) && id in qs
    ensures Good(qs - {id}, live - Mine(live, id), freed + Mine(live, id))
  {
    forall i, k | i in qs - {id} && 0 <= k < |qs[i]| ensures qs[i][k].ref in live - Mine(live, id) {
      assert QueueOk(i, qs[i]);
    }
  }

  lemma DropConserves(qs: Queues, submitted: Ledger, delivered: Ledger, id: FormID)
    requires Conserved(qs, submitted, delivered)
    ensures Conserved(qs - {id}, submitted - {id}, delivered - {id})
  {
    ConservedAt(qs, submitted, delivered, qs - {id}, submitted - {id}, delivered - {id}, id);
  }

  lemma LiveLess(live: set<WriteData>, id: FormID, some: set<WriteData>)
    requires forall w :: w in some ==> w.test == id
    ensures forall i :: i != id ==> Mine(live - some, i) == Mine(live, i)
    ensures Mine(live - some, id) == Mine(live, id) - some
  {}

  // What one queue's turn changes

  /** Nothing changed for tests outside `ids`. */
  ghost predicate Elsewhere(qs: Queues, s: Ledger, d: Ledger, qs': Queues, s': Ledger, d': Ledger, ids: set<FormID>) {
    forall i :: i !in ids ==> QueueOf(qs', i) == QueueOf(qs, i) && Log(s', i) == Log(s, i) && Log(d', i) == Log(d, i)
                              && (i in qs' <==> i in qs)
  }

  /** Either more was delivered of what was submitted, or the queue and its ledger are gone. */
  ghost predicate Progress(id: FormID, dropped: bool, qs': Queues, s: Ledger, d: Ledger, s': Ledger, d': Ledger) {
    if dropped then id !in qs' && Log(s', id) == [] && Log(d', id) == []
    else Log(s', id) == Log(s, id) && Log(d, id) <= Log(d', id)
  }

  function Count(qs: Queues, id: FormID): nat {
    |QueueOf(qs, id)|
  }

  lemma NoChange(qs: Queues, s: Ledger, d: Ledger, id: FormID)
    ensures Elsewhere(qs, s, d, qs, s, d, {id}) && Progress(id, false, qs, s, d, s, d)
  {}

  lemma DropChanges(qs0: Queues, s0: Ledger, d0: Ledger, qs: Queues, s: Ledger, d: Ledger, id: FormID)
    requires Elsewhere(qs0, s0, d0, qs, s, d, {id})
    ensures Elsewhere(qs0, s0, d0, qs - {id}, s - {id}, d - {id}, {id})
    ensures Progress(id, true, qs - {id}, s0, d0, s - {id}, d - {id})
  {}

  lemma DeliverChanges(qs0: Queues, s0: Ledger, d0: Ledger, qs: Queues, s: Ledger, d: Ledger, qs': Queues, d': Ledger,
                       id: FormID, out: seq<Byte>)
    requires Elsewhere(qs0, s0, d0, qs, s, d, {id}) && Progress(id, false, qs, s0, d0, s, d)
    requires d' == d[id := Log(d, id) + out] && id in qs && qs[id] != []
    requires qs' == WithoutHead(qs, id) || exists c: Chunk :: qs' == qs[id := [c] + qs[id][1..]]
    ensures Elsewhere(qs0, s0, d0, qs', s, d', {id}) && Progress(id, false, qs', s0, d0, s, d')
  {
    assert Log(d0, id) <= Log(d, id) <= Log(d', id);
  }

  lemma LiveMore(live: set<WriteData>, w: WriteData)
    ensures Mine(live + {w}, w.test) == Mine(live, w.test) + {w}
    ensures forall i :: i != w.test ==> Mine(live + {w}, i) == Mine(live, i)
  {}

  /** An attempt to write to a test: the bytes handed to its pipe, and how many were taken, or -1. */
  datatype Call = Call(test: FormID, offered: seq<Byte>, written: int)

  /** Since `from`, some write to the test was short. */
  ghost predicate CameUpShort(calls: seq<Call>, from: nat, id: FormID) {
    exists k :: from <= k < |calls| && calls[k].test == id && calls[k].written < |calls[k].offered|
  }

  lemma ShortLast(calls: seq<Call>, from: nat, c: Call)
    requires from <= |calls| && c.written < |c.offered|
    ensures CameUpShort(calls + [c], from, c.test)
  {
    assert (calls + [c])[|calls|] == c;
  }

  /** Since `from`, some write to the test failed. */
  ghost predicate Failed(calls: seq<Call>, from: nat, id: FormID) {
    exists k :: from <= k < |calls| && calls[k].test == id && calls[k].written == -1
  }

  ghost predicate OnlyCalls(calls: seq<Call>, from: nat, id: FormID) {
    forall k :: from <= k < |calls| ==> calls[k].test == id
  }

  lemma OneMoreCall(calls: seq<Call>, from: nat, c: Call)
    requires from <= |calls|
    ensures forall id :: Failed(calls + [c], from, id) <==> Failed(calls, from, id) || (c.test == id && c.written == -1)
    ensures OnlyCalls(calls, from, c.test) ==> OnlyCalls(calls + [c], from, c.test)
  {
    var all := calls + [c];
    assert all[|calls|] == c;
    forall id ensures Failed(all, from, id) <==> Failed(calls, from, id) || (c.test == id && c.written == -1) {
      if Failed(calls, from, id) {
        var k :| from <= k < |calls| && calls[k].test == id && calls[k].written == -1;
        assert all[k] == calls[k];
      }
    }
  }

  lemma NoCalls(calls: seq<Call>, id: FormID)
    ensures OnlyCalls(calls, |calls|, id) && !Failed(calls, |calls|, id)
  {}

  /** What one queue's turn adds to the pass. */
  lemma CallsOfTurn(calls: seq<Call>, calls': seq<Call>, from: nat, id: FormID)
    requires calls <= calls' && from <= |calls| && OnlyCalls(calls', |calls|, id)
    ensures forall i :: Failed(calls', from, i) <==> Failed(calls, from, i) || (i == id && Failed(calls', |calls|, id))
    ensures forall i :: CameUpShort(calls, from, i) || CameUpShort(calls', |calls|, i) ==> CameUpShort(calls', from, i)
  {
    ShortStays(calls, calls', from, from);
    ShortStays(calls', calls', |calls|, from);
    forall i ensures Failed(calls', from, i) <==> Failed(calls, from, i) || (i == id && Failed(calls', |calls|, id)) {
      if Failed(calls, from, i) {
        var k :| from <= k < |calls| && calls[k].test == i && calls[k].written == -1;
        assert calls'[k] == calls[k];
      }
      if Failed(calls', from, i) {
        var k :| from <= k < |calls'| && calls'[k].test == i && calls'[k].written == -1;
        assert k < |calls| ==> calls'[k] == calls[k];
      }
    }
  }

  lemma ShortStays(calls: seq<Call>, calls': seq<Call>, from: nat, from': nat)
    requires calls <= calls' && from' <= from
    ensures forall id :: CameUpShort(calls, from, id) ==> CameUpShort(calls', from', id)
  {
    forall id | CameUpShort(calls, from, id) ensures CameUpShort(calls', from', id) {
      var k :| from <= k < |calls| && calls[k].test == id && calls[k].written < |calls[k].offered|;
      assert calls'[k] == calls[k];
    }
  }

  /** A pass that still has to look at `todo`. */
  ghost predicate PassSoFar(qs0: Queues, s0: Ledger, d0: Ledger, qs: Queues, s: Ledger, d: Ledger, calls: seq<Call>,
                            from: nat, drops: set<FormID>, todo: set<FormID>, alive: FormID -> bool) {
    && todo <= qs.Keys && todo <= qs0.Keys
    && forall id {:trigger id in drops} {:trigger id in qs} {:trigger Failed(calls, from, id)} {:trigger Log(s, id)} ::
         PassAt(id in drops, id in todo, alive(id), id in qs0, id in qs, Failed(calls, from, id),
                CameUpShort(calls, from, id), Log(s0, id), Log(d0, id), Log(s, id), Log(d, id))
  }

  /** What the pass has done for one test: nothing yet, given up, or written as much as the pipe took. */
  predicate PassAt(dropped: bool, waiting: bool, alive: bool, had: bool, has: bool, failed: bool, short: bool,
                   s0: seq<Byte>, d0: seq<Byte>, s: seq<Byte>, d: seq<Byte>) {
    && (dropped <==> had && !waiting && (!alive || failed))
    && (waiting || !had ==> !failed)
    && (dropped ==> !has && s == d == [])
    && (!dropped ==> s == s0 && d0 <= d)
    && (has && !waiting ==> short)
  }

  lemma PassStarts(qs: Queues, s: Ledger, d: Ledger, calls: seq<Call>, alive: FormID -> bool)
    ensures PassSoFar(qs, s, d, qs, s, d, calls, |calls|, {}, qs.Keys, alive)
  {
    forall id ensures !Failed(calls, |calls|, id) {
      NoCalls(calls, id);
    }
  }

  lemma PassTurn(qs0: Queues, s0: Ledger, d0: Ledger, qs: Queues, s: Ledger, d: Ledger, calls: seq<Call>,
                 qs': Queues, s': Ledger, d': Ledger, calls': seq<Call>, from: nat,
                 drops: set<FormID>, todo: set<FormID>, alive: FormID -> bool, id: FormID, dropped: bool)
    requires PassSoFar(qs0, s0, d0, qs, s, d, calls, from, drops, todo, alive) && id in todo
    requires from <= |calls| && calls <= calls' && OnlyCalls(calls', |calls|, id)
    requires Elsewhere(qs, s, d, qs', s', d', {id}) && Progress(id, dropped, qs', s, d, s', d')
    requires dropped <==> !alive(id) || Failed(calls', |calls|, id)
    requires id in qs' ==> CameUpShort(calls', |calls|, id)
    ensures PassSoFar(qs0, s0, d0, qs', s', d', calls', from,
                      if dropped then drops + {id} else drops, todo - {id}, alive)
    ensures todo - {id} <= qs'.Keys
  {
    hide CameUpShort, Failed, OnlyCalls, Log, QueueOf;
    CallsOfTurn(calls, calls', from, id);
    var drops', todo' := if dropped then drops + {id} else drops, todo - {id};
    forall i ensures PassAt(i in drops', i in todo', alive(i), i in qs0, i in qs', Failed(calls', from, i),
                            CameUpShort(calls', from, i), Log(s0, i), Log(d0, i), Log(s', i), Log(d', i))
    {
      assert PassAt(i in drops, i in todo, alive(i), i in qs0, i in qs, Failed(calls, from, i),
                    CameUpShort(calls, from, i), Log(s0, i), Log(d0, i), Log(s, i), Log(d, i));
    }
  }

  lemma PassEnds(qs0: Queues, s0: Ledger, d0: Ledger, qs: Queues, s: Ledger, d: Ledger, calls: seq<Call>, from: nat,
                 drops: set<FormID>, alive: FormID -> bool)
    requires PassSoFar(qs0, s0, d0, qs, s, d, calls, from, drops, {}, alive)
    ensures forall id :: id in drops <==> id in qs0 && (!alive(id) || Failed(calls, from, id))
    ensures forall id :: id in drops ==> id !in qs && Log(s, id) == Log(d, id) == []
    ensures forall id :: id !in drops ==> Log(s, id) == Log(s0, id) && Log(d0, id) <= Log(d, id)
    ensures forall id :: id in qs ==> CameUpShort(calls, from, id)
  {}

  class IPCommManager {
    var writeQueue: map<FormID, WriteData?>

    /** The list of each test that has a queue. */
    ghost var queues: Queues
    /** The bytes submitted for, and delivered to, each test since its queue was last dropped. */
    ghost var submitted: map<FormID, seq<Byte>>
    ghost var delivered: map<FormID, seq<Byte>>
    /** The list nodes that exist, and those that have been deleted. */
    ghost var live: set<WriteData>
    ghost var freed: set<WriteData>
    /** The writes that were tried on the pipes, oldest first. */
    ghost var calls: seq<Call>

    ghost predicate Valid()
      reads this, live
    {
      && Good(queues, live, freed) && HeadsOk(writeQueue, queues) && AllLinked(queues, live)
      && Conserved(queues, submitted, delivered)
    }

    constructor ()
      ensures Valid() && writeQueue == map[] && submitted == map[] && delivered == map[] && freed == {}
    {
      writeQueue, queues, submitted, delivered := map[], map[], map[], map[];
      live, freed, calls := {}, {}, [];
    }

    /** Deleting a node that does not exist is an error. */
    ghost method Delete(w: WriteData)
      requires w in live
      modifies this`live, this`freed
      ensures live == old(live) - {w} && freed == old(freed) + {w}
    {
      live, freed := live - {w}, freed + {w};
    }

    /** So is following one that has been deleted. */
    function Next(w: WriteData): (next: WriteData?)
      requires w in live
      reads this`live, w`next
      ensures next == w.next
    {
      w.next
    }

    /** Put a node behind the last one of the test's list, or start a list with it. */
    method LinkNew(test: FormID, write: WriteData, ghost q: Queue)
      requires test in writeQueue <==> q != []
      requires q != [] ==> writeQueue[test] == q[0].ref
      requires Linked(q, Mine(live, test)) && QueueOk(test, q)
      requires write.test == test && write !in live && write.next == null && write.offset == 0
      modifies this`writeQueue, Mine(live, test)`next
      ensures writeQueue == if q == [] then old(writeQueue)[test := write] else old(writeQueue)
      ensures Linked(q + [Chunk(write, 0, write.length)], Mine(live, test) + {write})
    {
      if test in writeQueue {
        var tmp := writeQueue[test];
        ghost var k := 0;
        assert LinkedAt(q, 0);
        while Next(tmp) != null
          invariant 0 <= k < |q| && tmp == q[k].ref && tmp in live && Linked(q, Mine(live, test))
          decreases |q| - k
        {
          assert LinkedAt(q, k);
          tmp := Next(tmp);
          k := k + 1;
          assert LinkedAt(q, k);
        }
        assert LinkedAt(q, k) && k == |q| - 1;
        forall m | 0 <= m < k ensures q[m].ref in Mine(live, test) && LinkedAt(q, m) && q[m].ref != tmp {
          assert LinkedAt(q, m) && q[m].ref != q[k].ref;
        }
        tmp.next := write;
        LinkedAppend(q, Chunk(write, 0, write.length), Mine(live, test) + {write});
      } else {
        writeQueue := writeQueue[test := write];
      }
    }

    lemma ValidParts()
      requires Valid()
      ensures Good(queues, live, freed) && HeadsOk(writeQueue, queues) && AllLinked(queues, live)
      ensures Conserved(queues, submitted, delivered)
    {}

    lemma PartsValid()
      requires Good(queues, live, freed) && HeadsOk(writeQueue, queues) && AllLinked(queues, live)
      requires Conserved(queues, submitted, delivered)
      ensures Valid()
    {}

    /** Append one request to the test's queue. */
    method Enqueue(test: FormID, write: WriteData)
      requires Valid() && write.test == test && write !in live && write !in freed
      requires write.next == null && write.offset == 0 && 0 < write.length == |write.data|
      modifies this`writeQueue, this`queues, this`submitted, this`live, live`next
      ensures Valid() && live == old(live) + {write}
      ensures submitted == old(submitted)[test := Log(old(submitted), test) + write.data]
      ensures queues == old(queues)[test := QueueOf(old(queues), test) + [Chunk(write, 0, write.length)]]
    {
      hide *;
      ghost var c, q, qs, before := Chunk(write, 0, write.length), QueueOf(queues, test), queues, live;
      ValidParts();
      NewChunk(c);
      GoodParts(qs, live, freed, test);
      GoodAppend(qs, live, freed, test, c);
      SubmitConserves(qs, submitted, delivered, test, c);
      HeadsAppend(writeQueue, qs, test, c);
      SplitLinked(qs, live, test);
      MineIsLive(live, test);
      LinkNew(test, write, q);
      live := live + {write};
      queues := qs[test := q + [c]];
      submitted := submitted[test := Log(submitted, test) + Rest(c)];
      LiveMore(before, write);
      assert queues[test] == q + [c];
      QueueOfUpdated(qs, queues, test);
      JoinLinked(qs, before, queues, live, test);
      PartsValid();
    }

    /** Schedule bytes for a test. A request without a test, data or length is accepted and ignored;
        a request for a test that is no longer valid is refused. */
    method Write(test: FormID, hasTest: bool, valid: bool, data: seq<Byte>, hasData: bool, offset: nat, length: nat)
      returns (ok: bool)
      requires Valid()
      requires hasTest && hasData && length > 0 && valid ==> offset + length <= |data|
      modifies this, live
      ensures Valid() && ok == !(hasTest && hasData && length > 0 && !valid)
      ensures freed == old(freed) && delivered == old(delivered)
      ensures if hasTest && hasData && length > 0 && valid
              then submitted == old(submitted)[test := Log(old(submitted), test) + data[offset..offset + length]]
              else submitted == old(submitted)
      ensures forall id :: id != test ==> QueueOf(queues, id) == QueueOf(old(queues), id)
    {
      if hasTest && hasData && length > 0 {
        if !valid {
          return false;
        }
        hide *;
        var write := new WriteData(test, data, offset, length);
        ghost var qs := queues;
        Enqueue(test, write);
        QueueOfElsewhere(qs, test, QueueOf(qs, test) + [Chunk(write, 0, write.length)]);
      }
      return true;
    }

    /** Delete the nodes of a list one behind the other. */
    method DeleteForward(first: WriteData, ghost q: Queue)
      requires q != [] && first == q[0].ref && NextChain(q) && Different(q) && RefsOf(q) <= live
      modifies this`live, this`freed
      ensures live == old(live) - RefsOf(q) && freed == old(freed) + RefsOf(q)
    {
      var write: WriteData? := first;
      ghost var k := 0;
      assert RefsOf(q[..0]) == {};
      while write != null
        invariant k <= |q| && write == Head(q[k..])
        invariant live == old(live) - RefsOf(q[..k]) && freed == old(freed) + RefsOf(q[..k])
        decreases |q| - k
      {
        assert NextAt(q, k) && write == q[k].ref;
        RefsStep(q, k);
        var next := Next(write);
        Delete(write);
        write := next;
        k := k + 1;
      }
      assert q[..|q|] == q;
    }

    /** The same with a second pointer that runs ahead. */
    method DeleteWithLookahead(first: WriteData, ghost q: Queue)
      requires q != [] && first == q[0].ref && NextChain(q) && Different(q) && RefsOf(q) <= live
      modifies this`live, this`freed
      ensures live == old(live) - RefsOf(q) && freed == old(freed) + RefsOf(q)
    {
      var tmp, tmp2 := first, Next(first);
      ghost var k := 0;
      assert RefsOf(q[..0]) == {};
      assert NextAt(q, 0);
      while tmp2 != null
        invariant k < |q| && tmp == q[k].ref && tmp2 == Head(q[k + 1..])
        invariant live == old(live) - RefsOf(q[..k]) && freed == old(freed) + RefsOf(q[..k])
        decreases |q| - k
      {
        RefsStep(q, k);
        Delete(tmp);
        tmp := tmp2;
        k := k + 1;
        assert NextAt(q, k);
        tmp2 := Next(tmp2);
      }
      RefsStep(q, k);
      Delete(tmp);
      assert q[..|q|] == q;
    }

    /** All is well, except that the numbers in the nodes of `id` may be wrong. */
    ghost predicate ValidBut(id: FormID)
      reads this, live
    {
      && Good(queues, live, freed) && HeadsOk(writeQueue, queues) && OthersLinked(queues, live, id)
      && id in queues && NextChain(queues[id])
      && Conserved(queues, submitted, delivered)
    }

    lemma ValidButParts(id: FormID)
      requires ValidBut(id)
      ensures Good(queues, live, freed) && HeadsOk(writeQueue, queues) && OthersLinked(queues, live, id)
      ensures id in queues && NextChain(queues[id])
      ensures Conserved(queues, submitted, delivered)
    {}

    lemma PartsValidBut(id: FormID)
      requires Good(queues, live, freed) && HeadsOk(writeQueue, queues) && OthersLinked(queues, live, id)
      requires id in queues && NextChain(queues[id])
      requires Conserved(queues, submitted, delivered)
      ensures ValidBut(id)
    {}

    /** The queue of a test is given up: its nodes are deleted and its ledger starts anew. */
    method Drop(id: FormID, lookahead: bool)
      requires ValidBut(id)
      modifies this
      ensures Valid() && live == old(live) - Mine(old(live), id) && freed == old(freed) + Mine(old(live), id)
      ensures queues == old(queues) - {id} && submitted == old(submitted) - {id} && delivered == old(delivered) - {id}
      ensures calls == old(calls)
    {
      hide *;
      ValidButParts(id);
      ghost var q, qs, before := queues[id], queues, live;
      GoodParts(qs, live, freed, id);
      HeadsParts(writeQueue, qs, id);
      MineIsRefs(qs, live, freed, id);
      MineIsLive(live, id);
      var first := writeQueue[id];
      if lookahead {
        DeleteWithLookahead(first, q);
      } else {
        DeleteForward(first, q);
      }
      GoodDrop(qs, before, old(freed), id);
      DropConserves(qs, submitted, delivered, id);
      writeQueue, queues := writeQueue - {id}, qs - {id};
      submitted, delivered := submitted - {id}, delivered - {id};
      LiveLess(before, id, RefsOf(q));
      JoinLinked(qs, before, queues, live, id);
      PartsValid();
    }

    /** The pipe of a test accepts any first part of the bytes that it is handed, nothing, or fails. What it
        accepts, and nothing else, is what is delivered. */
    method TestWrite(test: FormID, data: seq<Byte>, offset: int, length: int) returns (written: int)
      requires 0 <= offset && 0 <= length && offset + length <= |data|
      modifies this`calls, this`delivered
      ensures -1 <= written <= length
      ensures calls == old(calls) + [Call(test, data[offset..offset + length], written)]
      ensures delivered == if written < 0 then old(delivered)
              else old(delivered)[test := Log(old(delivered), test) + data[offset..offset + written]]
    {
      written :| -1 <= written <= length;
      calls := calls + [Call(test, data[offset..offset + length], written)];
      if written >= 0 {
        delivered := delivered[test := Log(delivered, test) + data[offset..offset + written]];
      }
    }

    /** Note in the node what was written; a failure leaves numbers that nobody reads any more. */
    method Account(write: WriteData, written: int)
      requires write in live
      modifies write`offset, write`length
      ensures write.offset == AsSize(old(write.offset) + written) && write.length == AsSize(old(write.length) - written)
    {
      write.offset := AsSize(write.offset + written);
      write.length := AsSize(write.length - written);
    }

    /** The queues are as they should be, except for the numbers in the first node of `id`. */
    ghost predicate ValidButHead(id: FormID, c: Chunk, tail: Queue)
      reads this, live
    {
      && Good(queues, live, freed) && HeadsOk(writeQueue, queues) && OthersLinked(queues, live, id)
      && id in queues && queues[id] == [c] + tail && c.ref in Mine(live, id) && c.ref.next == Head(tail)
      && Linked(tail, Mine(live, id) - {c.ref})
    }

    lemma ValidButHeadParts(id: FormID, c: Chunk, tail: Queue)
      requires ValidButHead(id, c, tail)
      ensures Good(queues, live, freed) && HeadsOk(writeQueue, queues) && OthersLinked(queues, live, id)
      ensures id in queues && queues[id] == [c] + tail && c.ref in Mine(live, id) && c.ref.next == Head(tail)
      ensures Linked(tail, Mine(live, id) - {c.ref})
      ensures c.ref in live && c.ref.test == id && Mine(live, id) <= live
    {}

    /** The first request is done: its node is deleted and the queue moves on. */
    method Retire(id: FormID, write: WriteData, ghost c: Chunk, ghost tail: Queue) returns (next: WriteData?)
      requires ValidButHead(id, c, tail) && c.ref == write
      requires Conserved(WithoutHead(queues, id), submitted, delivered)
      modifies this`writeQueue, this`queues, this`live, this`freed
      ensures Valid() && next == Head(tail) && queues == WithoutHead(old(queues), id)
      ensures live == old(live) - {write} && freed == old(freed) + {write}
    {
      hide *;
      ValidButHeadParts(id, c, tail);
      ghost var qs, before := queues, live;
      HeadsPop(writeQueue, qs, id);
      GoodPop(qs, live, freed, id);
      assert qs[id][1..] == tail;
      next := Next(write);
      if next != null {
        writeQueue := writeQueue[id := next];
      } else {
        writeQueue := writeQueue - {id};
      }
      Delete(write);
      queues := WithoutHead(qs, id);
      LiveLess(before, id, {write});
      WithoutHeadElsewhere(qs, id);
      JoinLinked(qs, before, queues, live, id);
      PartsValid();
    }

    /** The first request stays, with what is left of it. */
    ghost method Keep(id: FormID, c: Chunk, c': Chunk, tail: Queue)
      requires ValidButHead(id, c, tail) && c.ref == c'.ref && Sound(c')
      requires c.ref.offset == c'.offset && c.ref.length == c'.length
      requires Conserved(queues[id := [c'] + tail], submitted, delivered)
      modifies this`queues
      ensures Valid() && queues == old(queues)[id := [c'] + tail]
    {
      hide *;
      ValidButHeadParts(id, c, tail);
      ghost var qs := queues;
      assert qs[id][1..] == tail;
      GoodShorten(qs, live, freed, id, c');
      HeadsShorten(writeQueue, qs, id, c');
      LinkedCons(c', tail, Mine(live, id));
      queues := qs[id := [c'] + tail];
      QueueOfUpdated(qs, queues, id);
      JoinLinked(qs, live, queues, live, id);
      PartsValid();
    }

    lemma HeadReady(id: FormID) returns (c: Chunk, tail: Queue)
      requires Valid() && id in writeQueue
      ensures ValidButHead(id, c, tail) && Sound(c) && queues[id][0] == c && queues[id][1..] == tail
      ensures 0 <= c.offset && 0 < c.length && c.offset + c.length == |c.ref.data|
      ensures c.ref.offset == c.offset && c.ref.length == c.length && writeQueue[id] == c.ref
      ensures NextChain(queues[id])
    {
      ValidParts();
      GoodParts(queues, live, freed, id);
      HeadsParts(writeQueue, queues, id);
      var q := queues[id];
      c, tail := q[0], q[1..];
      SplitLinked(queues, live, id);
      SoundHead(q, id);
      HeadLinked(q, Mine(live, id));
      LinkedTail(q, Mine(live, id), id);
      ChainOf(q, Mine(live, id), id);
      assert q == [c] + tail;
      PartsValidButHead(id, c, tail);
    }

    /** One turn of the write loop on the first request of a test. */
    method ServeHead(id: FormID, write: WriteData) returns (written: int, next: WriteData?, done: bool, dropped: bool)
      requires Valid() && id in writeQueue && writeQueue[id] == write
      modifies this, Mine(live, id)`offset, Mine(live, id)`length
      ensures Valid() && live <= old(live) && old(freed) <= freed
      ensures id in old(queues) && old(queues)[id] != [] && dropped == (written == -1)
      ensures calls == old(calls) + [Call(id, Rest(old(queues)[id][0]), written)]
      ensures dropped ==>
                && queues == old(queues) - {id} && submitted == old(submitted) - {id}
                && delivered == old(delivered) - {id} && next == null
      ensures !dropped ==>
                var c := old(queues)[id][0];
                && done == (written == c.length)
                && 0 <= written <= c.length && submitted == old(submitted)
                   && 0 <= c.offset <= c.offset + written <= |c.ref.data|
                && delivered == old(delivered)[id := Log(old(delivered), id) + c.ref.data[c.offset..c.offset + written]]
                && queues == (if written < c.length
                              then old(queues)[id := [c.(offset := c.offset + written, length := c.length - written)]
                                               + old(queues)[id][1..]]
                              else WithoutHead(old(queues), id))
                && next == if written < c.length then write else Head(old(queues)[id][1..])
    {
      hide *;
      ghost var c, tail := HeadReady(id);
      ValidParts();
      ValidButHeadParts(id, c, tail);
      ghost var d := delivered;
      SoundUnfolds(c);
      written := TestWrite(write.test, write.data, write.offset, write.length);
      Account(write, written);
      if written == -1 {
        PartsValidBut(id);
        Drop(id, false);
        return -1, null, false, true;
      }
      DeliverConserves(queues, submitted, d, id, written);
      PartsValidButHead(id, c, tail);
      dropped := false;
      done := write.length <= 0;
      if done {
        next := Retire(id, write, c, tail);
      } else {
        next := write;
        Keep(id, c, c.(offset := c.offset + written, length := c.length - written), tail);
      }
    }

    lemma PartsValidButHead(id: FormID, c: Chunk, tail: Queue)
      requires Good(queues, live, freed) && HeadsOk(writeQueue, queues) && OthersLinked(queues, live, id)
      requires id in queues && queues[id] == [c] + tail && c.ref in Mine(live, id) && c.ref.next == Head(tail)
      requires Linked(tail, Mine(live, id) - {c.ref})
      ensures ValidButHead(id, c, tail)
    {}

    /** Write to one test as much as its pipe takes, or give its queue up. */
    method ServeQueue(id: FormID, alive: bool) returns (dropped: bool)
      requires Valid() && id in writeQueue
      modifies this, live`offset, live`length
      ensures Valid() && live <= old(live) && old(freed) <= freed
      ensures Elsewhere(old(queues), old(submitted), old(delivered), queues, submitted, delivered, {id})
      ensures Progress(id, dropped, queues, old(submitted), old(delivered), submitted, delivered)
      ensures old(calls) <= calls
      ensures id in queues ==> CameUpShort(calls, |old(calls)|, id)
      ensures dropped <==> !alive || Failed(calls, |old(calls)|, id)
      ensures OnlyCalls(calls, |old(calls)|, id)
    {
      hide *;
      if alive {
        dropped := ServeAlive(id);
      } else {
        ghost var qs, s, d := queues, submitted, delivered;
        NoCalls(calls, id);
        ghost var c, tail := HeadReady(id);
        ValidButHeadParts(id, c, tail);
        ValidParts();
        PartsValidBut(id);
        Drop(id, true);
        NoChange(qs, s, d, id);
        DropChanges(qs, s, d, qs, s, d, id);
        dropped := true;
      }
    }

    method ServeAlive(id: FormID) returns (dropped: bool)
      requires Valid() && id in writeQueue
      modifies this, live`offset, live`length
      ensures Valid() && live <= old(live) && old(freed) <= freed
      ensures Elsewhere(old(queues), old(submitted), old(delivered), queues, submitted, delivered, {id})
      ensures Progress(id, dropped, queues, old(submitted), old(delivered), submitted, delivered)
      ensures old(calls) <= calls
      ensures id in queues ==> CameUpShort(calls, |old(calls)|, id)
      ensures dropped <==> Failed(calls, |old(calls)|, id)
      ensures OnlyCalls(calls, |old(calls)|, id)
    {
      hide *;
      NoCalls(calls, id);
      ghost var qs0, s0, d0 := queues, submitted, delivered;
      NoChange(qs0, s0, d0, id);
      ghost var c, tail := HeadReady(id);
      var write: WriteData? := writeQueue[id];
      var written := 1;
      while written != 0 && write != null
        invariant Valid() && live <= old(live) && old(freed) <= freed
        invariant write != null ==> id in writeQueue && writeQueue[id] == write
        invariant Elsewhere(qs0, s0, d0, queues, submitted, delivered, {id})
        invariant Progress(id, false, queues, s0, d0, submitted, delivered)
        invariant old(calls) <= calls && !Failed(calls, |old(calls)|, id) && OnlyCalls(calls, |old(calls)|, id)
        invariant if written != 0 then (write == null ==> id !in queues) else CameUpShort(calls, |old(calls)|, id)
        decreases Count(queues, id) + if write != null then 1 else 0
      {
        ValidParts();
        GoodParts(queues, live, freed, id);
        SoundHead(queues[id], id);
        ghost var qs1, s1, d1 := queues, submitted, delivered;
        MineIsLive(live, id);
        var next, done;
        written, next, done, dropped := ServeHead(id, write);
        OneMoreCall(calls[..|calls| - 1], |old(calls)|, calls[|calls| - 1]);
        if dropped {
          DropChanges(qs0, s0, d0, qs1, s1, d1, id);
          return true;
        }
        DeliverChanges(qs0, s0, d0, qs1, s1, d1, queues, delivered, id,
                       qs1[id][0].ref.data[qs1[id][0].offset..qs1[id][0].offset + written]);
        if !done {
          ShortLast(calls[..|calls| - 1], |old(calls)|, calls[|calls| - 1]);
          break;
        }
        WithoutHeadElsewhere(qs1, id);
        ValidParts();
        GoodParts(queues, live, freed, id);
        HeadsParts(writeQueue, queues, id);
        write := next;
      }
      dropped := false;
    }

    /** One pass over all queues, in any order. A queue is given up exactly when its test is gone, invalid or
        not running, or its pipe fails; any other queue is left only when its pipe takes no more. */
    method PerformWritesInternal(alive: FormID -> bool) returns (ghost drops: set<FormID>)
      requires Valid()
      modifies this, live`offset, live`length
      ensures Valid() && live <= old(live) && old(freed) <= freed
      ensures forall id :: id in drops <==> id in old(queues) && (!alive(id) || Failed(calls, |old(calls)|, id))
      ensures forall id :: id in drops ==> id !in queues && Log(submitted, id) == Log(delivered, id) == []
      ensures forall id :: id !in drops ==>
                && Log(submitted, id) == Log(old(submitted), id)
                && Log(old(delivered), id) <= Log(delivered, id)
      ensures forall id :: id in queues ==> CameUpShort(calls, |old(calls)|, id)
    {
      hide *;
      var todo := writeQueue.Keys;
      drops := {};
      ValidParts();
      PassStarts(queues, submitted, delivered, calls, alive);
      while todo != {}
        invariant Valid() && live <= old(live) && old(freed) <= freed
        invariant todo <= writeQueue.Keys && old(calls) <= calls
        invariant PassSoFar(old(queues), old(submitted), old(delivered), queues, submitted, delivered, calls,
                            |old(calls)|, drops, todo, alive)
        decreases todo
      {
        var id :| id in todo;
        ghost var qs1, s1, d1, calls1, todo1, drops1 := queues, submitted, delivered, calls, todo, drops;
        todo := todo - {id};
        ValidParts();
        var dropped := ServeQueue(id, alive(id));
        ValidParts();
        drops := if dropped then drops + {id} else drops;
        PassTurn(old(queues), old(submitted), old(delivered), qs1, s1, d1, calls1, queues, submitted, delivered, calls,
                 |old(calls)|, drops1, todo1, alive, id, dropped);
      }
      PassEnds(old(queues), old(submitted), old(delivered), queues, submitted, delivered, calls, |old(calls)|, drops,
               alive);
    }
  }
}
