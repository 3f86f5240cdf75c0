/**
 One collection as values: the version overlay, the durable heap and indexes, a
 transaction's write buffer, and what commit does to each of them. The heap is a map
 from live RIDs to records, a B-tree a set of entries.
 */
module CollectionModel {
  import opened Common
  import opened Overlay

  type IndexName = seq<byte>
  type IndexKey = seq<byte>

  datatype Record = Record(doc: Raw, version: nat)
  datatype Entry = Entry(index: IndexName, key: IndexKey, rid: RID)

  /** The code outside this component: `_id` extraction and encoding,
      and the key extraction of each secondary index. */
  datatype Schema = Schema(
    keyOf: Raw -> Key,
    indexes: set<IndexName>,
    unique: set<IndexName>,
    indexKeys: (IndexName, Raw) -> seq<IndexKey>)

  datatype Durable = Durable(heap: map<RID, Record>, ids: set<(Key, RID)>, sec: set<Entry>)

  datatype Coll = Coll(
    byID: map<Key, Chain>,
    order: seq<Key>,
    dirty: set<Key>,
    ridOwner: map<RID, Key>,
    durable: Durable)

  datatype Removed = Removed(rid: RID, doc: Raw)

  /** One document's buffered net write. */
  datatype PendingOp = PendingOp(insertDoc: Option<Raw>, remove: Option<Removed>, replaced: bool) {
    predicate Noop() { insertDoc.None? && remove.None? }
  }

  /** A transaction's buffered writes: at most one operation a key, in first-write order. */
  datatype Buffer = Buffer(pending: map<Key, PendingOp>, order: seq<Key>) {
    ghost predicate Valid() {
      && Distinct(order)
      && (forall k :: k in order <==> k in pending)
    }
    predicate HasWrites() { exists k :: k in order && k in pending && !pending[k].Noop() }
  }

  const NO_WRITES := Buffer(map[], [])

  type Heads = map<Key, DocVersion>   // latest live version of each document

  function ChainOf(c: Coll, k: Key): Chain {
    if k in c.byID then c.byID[k] else []
  }

  function Live(c: Coll): Heads {
    map k | k in c.byID && c.byID[k] != [] && c.byID[k][0].doc.Some? :: c.byID[k][0]
  }

  // ---- the buffer ----------------------------------------------------------

  function Ensure(b: Buffer, k: Key): Buffer {
    if k in b.pending then b
    else Buffer(b.pending[k := PendingOp(None, None, false)], b.order + [k])
  }

  /** The remove side a write of `k` must carry: the version committed at the snapshot. */
  function Superseded(vs: Chain, startVer: nat): Option<Removed> {
    match LiveAt(vs, startVer)
    case Some(v) => Some(Removed(v.rid, v.doc.value))
    case None => None
  }

  function Supersede(op: PendingOp, vs: Chain, startVer: nat): PendingOp {
    if Superseded(vs, startVer).Some? then op.(remove := Superseded(vs, startVer)) else op
  }

  function Replace(b: Buffer, k: Key, vs: Chain, startVer: nat, doc: Raw, replaced: bool): Buffer {
    var e := Ensure(b, k);
    e.(pending := e.pending[k := Supersede(e.pending[k], vs, startVer).(insertDoc := Some(doc), replaced := replaced)])
  }

  function Delete(b: Buffer, k: Key, vs: Chain, startVer: nat): Buffer {
    var e := Ensure(b, k);
    e.(pending := e.pending[k := Supersede(e.pending[k], vs, startVer).(insertDoc := None)])
  }

  function Insert(b: Buffer, k: Key, doc: Raw): Buffer {
    var e := Ensure(b, k);
    e.(pending := e.pending[k := e.pending[k].(insertDoc := Some(doc))])
  }

  /** The document a transaction sees: its own write, else its snapshot. */
  function View(b: Buffer, vs: Chain, startVer: nat, k: Key): Option<Raw> {
    if k in b.pending then b.pending[k].insertDoc else DocAt(vs, startVer)
  }

  // ---- durable apply -------------------------------------------------------

  function DocEntries(sch: Schema, doc: Raw, rid: RID): (es: set<Entry>)
    ensures forall e :: e in es <==> e.rid == rid && e.index in sch.indexes && e.key in sch.indexKeys(e.index, doc)
  {
    set n, k | n in sch.indexes && k in sch.indexKeys(n, doc) :: Entry(n, k, rid)
  }

  /** A unique tree holds another record under one of the document's keys. */
  ghost predicate Blocked(sch: Schema, sec: set<Entry>, doc: Raw, rid: RID) {
    exists e :: e in sec && e.index in sch.unique && e.index in sch.indexes
                && e.rid != rid && e.key in sch.indexKeys(e.index, doc)
  }

  ghost function ApplyRemove(sch: Schema, d: Durable, k: Key, r: Removed): Option<Durable> {
    if r.rid !in d.heap || (k, r.rid) !in d.ids then None
    else Some(Durable(d.heap - {r.rid}, d.ids - {(k, r.rid)}, d.sec - DocEntries(sch, r.doc, r.rid)))
  }

  ghost function ApplyInsert(sch: Schema, d: Durable, cv: nat, k: Key, doc: Raw, rid: RID): Option<Durable> {
    if rid in d.heap || rid == NULL_RID then None
    else if exists r :: (k, r) in d.ids && r != rid then None
    else if Blocked(sch, d.sec, doc, rid) then None
    else Some(Durable(d.heap[rid := Record(doc, cv)], d.ids + {(k, rid)}, d.sec + DocEntries(sch, doc, rid)))
  }

  /** One buffered operation; `None` when the heap or a tree refuses a step. */
  ghost function ApplyOp(sch: Schema, d: Durable, cv: nat, k: Key, op: PendingOp, rid: RID): Option<Durable> {
    var mid := if op.remove.Some? then ApplyRemove(sch, d, k, op.remove.value) else Some(d);
    if mid.None? || op.insertDoc.None? then mid
    else ApplyInsert(sch, mid.value, cv, k, op.insertDoc.value, rid)
  }

  /** All operations in write order; `rids` is the slot the heap hands each insert. */
  ghost function ApplyAll(sch: Schema, d: Durable, cv: nat, pending: map<Key, PendingOp>, order: seq<Key>,
                          rids: map<Key, RID>): Option<Durable>
    requires forall k :: k in order ==> k in pending && k in rids
    decreases |order|
  {
    if order == [] then Some(d)
    else
      var k := order[0];
      var next := ApplyOp(sch, d, cv, k, pending[k], rids[k]);
      if next.None? then None else ApplyAll(sch, next.value, cv, pending, order[1..], rids)
  }

  // ---- publish -------------------------------------------------------------

  function NewVersion(op: PendingOp, cv: nat, rid: RID): DocVersion {
    DocVersion(cv, if op.insertDoc.Some? then rid else NULL_RID, op.insertDoc)
  }

  function OwnerOp(owner: map<RID, Key>, k: Key, op: PendingOp, rid: RID): map<RID, Key> {
    var o := if op.remove.Some? then owner - {op.remove.value.rid} else owner;
    if op.insertDoc.Some? then o[rid := k] else o
  }

  function PublishOp(c: Coll, cv: nat, k: Key, op: PendingOp, rid: RID): Coll {
    if op.Noop() then c
    else
      var vs := [NewVersion(op, cv, rid)] + ChainOf(c, k);
      Coll(c.byID[k := vs],
           if k in c.byID then c.order else c.order + [k],
           if |vs| > 1 then c.dirty + {k} else c.dirty,
           OwnerOp(c.ridOwner, k, op, rid),
           c.durable)
  }

  function PublishAll(c: Coll, cv: nat, pending: map<Key, PendingOp>, order: seq<Key>, rids: map<Key, RID>): Coll
    requires forall k :: k in order ==> k in pending && k in rids
    decreases |order|
  {
    if order == [] then c
    else PublishAll(PublishOp(c, cv, order[0], pending[order[0]], rids[order[0]]), cv, pending, order[1..], rids)
  }

  /** Garbage collection at watermark `wm` cuts every chain marked dirty. */
  function Collected(c: Coll, wm: nat): Coll {
    c.(byID := map k | k in c.byID :: if k in c.dirty then Pruned(c.byID[k], wm) else c.byID[k],
       dirty := set k | k in c.dirty && k in c.byID && |Pruned(c.byID[k], wm)| > 1)
  }

  // ---- durable state against the overlay -----------------------------------

  /** The heap, the `_id` index and the secondary indexes hold exactly the live heads. */
  ghost predicate Mirrors(sch: Schema, d: Durable, heads: Heads) {
    && (forall k :: k in heads ==>
          && heads[k].doc.Some? && heads[k].rid != NULL_RID
          && sch.keyOf(heads[k].doc.value) == k
          && heads[k].rid in d.heap
          && d.heap[heads[k].rid] == Record(heads[k].doc.value, heads[k].commitVer))
    && (forall r :: r in d.heap ==>
          sch.keyOf(d.heap[r].doc) in heads && heads[sch.keyOf(d.heap[r].doc)].rid == r)
    && (forall k, r :: (k, r) in d.ids <==> k in heads && heads[k].rid == r)
    && (forall e :: e in d.sec <==>
          e.rid in d.heap && e.index in sch.indexes && e.key in sch.indexKeys(e.index, d.heap[e.rid].doc))
  }

  ghost predicate Owns(owner: map<RID, Key>, heads: Heads) {
    && (forall r :: r in owner ==> owner[r] in heads && heads[owner[r]].rid == r)
    && (forall k :: k in heads ==> heads[k].rid in owner)
  }

  /** No two records share a key of a unique index. */
  ghost predicate UniqueKeys(sch: Schema, sec: set<Entry>) {
    forall e, f :: e in sec && f in sec && e.index == f.index && e.key == f.key && e.index in sch.unique
                   ==> e.rid == f.rid
  }

  /** An effective buffered operation speaks of the current head of its key. */
  ghost predicate Fits(sch: Schema, k: Key, op: PendingOp, heads: Heads) {
    !op.Noop() ==>
    && (op.remove.Some? <==> k in heads)
    && (k in heads ==> heads[k].doc == Some(op.remove.value.doc) && heads[k].rid == op.remove.value.rid)
    && (op.insertDoc.Some? ==> sch.keyOf(op.insertDoc.value) == k)
  }

  ghost predicate AllFit(sch: Schema, pending: map<Key, PendingOp>, order: seq<Key>, heads: Heads) {
    && Distinct(order)
    && (forall k :: k in order ==> k in pending && Fits(sch, k, pending[k], heads))
  }

  function HeadOp(heads: Heads, k: Key, op: PendingOp, cv: nat, rid: RID): Heads {
    if op.Noop() then heads
    else if op.insertDoc.Some? then heads[k := NewVersion(op, cv, rid)]
    else heads - {k}
  }

  function HeadsAfter(heads: Heads, cv: nat, pending: map<Key, PendingOp>, order: seq<Key>, rids: map<Key, RID>): Heads
    requires forall k :: k in order ==> k in pending && k in rids
    decreases |order|
  {
    if order == [] then heads
    else HeadsAfter(HeadOp(heads, order[0], pending[order[0]], cv, rids[order[0]]), cv, pending, order[1..], rids)
  }

  function OwnersAfter(owner: map<RID, Key>, pending: map<Key, PendingOp>, order: seq<Key>,
                       rids: map<Key, RID>): map<RID, Key>
    requires forall k :: k in order ==> k in pending && k in rids
    decreases |order|
  {
    if order == [] then owner
    else OwnersAfter(OwnerOp(owner, order[0], pending[order[0]], rids[order[0]]), pending, order[1..], rids)
  }

  /** The remove half of a fitting operation is never refused. */
  lemma RemoveMirrors(sch: Schema, d: Durable, heads: Heads, k: Key, op: PendingOp)
    requires Mirrors(sch, d, heads) && UniqueKeys(sch, d.sec) && Fits(sch, k, op, heads) && op.remove.Some?
    ensures ApplyRemove(sch, d, k, op.remove.value).Some?
    ensures Mirrors(sch, ApplyRemove(sch, d, k, op.remove.value).value, heads - {k})
    ensures UniqueKeys(sch, ApplyRemove(sch, d, k, op.remove.value).value.sec)
  {
    assert (k, heads[k].rid) in d.ids;
  }

  lemma InsertMirrors(sch: Schema, d: Durable, heads: Heads, cv: nat, k: Key, doc: Raw, rid: RID)
    requires Mirrors(sch, d, heads) && UniqueKeys(sch, d.sec) && k !in heads && sch.keyOf(doc) == k
    ensures ApplyInsert(sch, d, cv, k, doc, rid).Some? <==>
            rid !in d.heap && rid != NULL_RID && !Blocked(sch, d.sec, doc, rid)
    ensures var r := ApplyInsert(sch, d, cv, k, doc, rid);
            r.Some? ==> Mirrors(sch, r.value, heads[k := DocVersion(cv, rid, Some(doc))])
                        && UniqueKeys(sch, r.value.sec)
  {
    var r := ApplyInsert(sch, d, cv, k, doc, rid);
    if r.Some? {
      forall e, f | e in r.value.sec && f in r.value.sec && e.index == f.index && e.key == f.key
          && e.index in sch.unique
        ensures e.rid == f.rid
      {
        assert e in d.sec || e in DocEntries(sch, doc, rid);
        assert f in d.sec || f in DocEntries(sch, doc, rid);
      }
    }
  }

  /** One applied operation moves the durable state to the new heads. */
  lemma OpMirrors(sch: Schema, d: Durable, heads: Heads, cv: nat, k: Key, op: PendingOp, rid: RID)
    requires Mirrors(sch, d, heads) && UniqueKeys(sch, d.sec) && Fits(sch, k, op, heads)
    ensures var r := ApplyOp(sch, d, cv, k, op, rid);
            r.Some? ==>
              && Mirrors(sch, r.value, HeadOp(heads, k, op, cv, rid)) && UniqueKeys(sch, r.value.sec)
              && (op.insertDoc.Some? ==> forall x :: x in heads && x != k ==> heads[x].rid != rid)
  {
    if op.Noop() { return; }
    if op.remove.Some? { RemoveMirrors(sch, d, heads, k, op); }
    var mid := if op.remove.Some? then ApplyRemove(sch, d, k, op.remove.value).value else d;
    assert heads - {k} == if op.remove.Some? then heads - {k} else heads;
    if op.insertDoc.Some? {
      InsertMirrors(sch, mid, heads - {k}, cv, k, op.insertDoc.value, rid);
      assert (heads - {k})[k := NewVersion(op, cv, rid)] == heads[k := NewVersion(op, cv, rid)];
    }
  }

  lemma OpOwns(sch: Schema, owner: map<RID, Key>, heads: Heads, cv: nat, k: Key, op: PendingOp, rid: RID)
    requires Owns(owner, heads) && Fits(sch, k, op, heads)
    requires forall x, y :: x in heads && y in heads && heads[x].rid == heads[y].rid ==> x == y
    requires op.insertDoc.Some? ==> forall x :: x in heads && x != k ==> heads[x].rid != rid
    ensures Owns(OwnerOp(owner, k, op, rid), HeadOp(heads, k, op, cv, rid))
  {}

  /** Two live heads never share a record. */
  lemma HeadRids(sch: Schema, d: Durable, heads: Heads)
    requires Mirrors(sch, d, heads)
    ensures forall x, y :: x in heads && y in heads && heads[x].rid == heads[y].rid ==> x == y
  {}

  /** The rest of a fitting commit fits the heads after its first operation. */
  lemma FitsTail(sch: Schema, pending: map<Key, PendingOp>, order: seq<Key>, heads: Heads, cv: nat, rid: RID)
    requires order != [] && AllFit(sch, pending, order, heads)
    ensures AllFit(sch, pending, order[1..], HeadOp(heads, order[0], pending[order[0]], cv, rid))
    ensures Fits(sch, order[0], pending[order[0]], heads)
  {
    forall k | k in order[1..] ensures k in pending
        && Fits(sch, k, pending[k], HeadOp(heads, order[0], pending[order[0]], cv, rid)) {
      assert k in order && k != order[0];
    }
  }

  /** A fitting commit that applies leaves heap, indexes and RID ownership on the new heads. */
  lemma {:induction false} CommitMirrors(sch: Schema, d: Durable, owner: map<RID, Key>, heads: Heads, cv: nat,
                                         pending: map<Key, PendingOp>, order: seq<Key>, rids: map<Key, RID>)
    requires forall k :: k in order ==> k in pending && k in rids
    requires Mirrors(sch, d, heads) && UniqueKeys(sch, d.sec) && Owns(owner, heads)
    requires AllFit(sch, pending, order, heads)
    requires ApplyAll(sch, d, cv, pending, order, rids).Some?
    ensures var d' := ApplyAll(sch, d, cv, pending, order, rids).value;
            var heads' := HeadsAfter(heads, cv, pending, order, rids);
            && Mirrors(sch, d', heads') && UniqueKeys(sch, d'.sec)
            && Owns(OwnersAfter(owner, pending, order, rids), heads')
    decreases |order|
  {
    if order != [] {
      hide Mirrors, UniqueKeys, ApplyOp, HeadOp, OwnerOp;
      var k := order[0];
      HeadRids(sch, d, heads);
      OpMirrors(sch, d, heads, cv, k, pending[k], rids[k]);
      FitsTail(sch, pending, order, heads, cv, rids[k]);
      hide AllFit, Fits, Owns;
      OpOwns(sch, owner, heads, cv, k, pending[k], rids[k]);
      CommitMirrors(sch, ApplyOp(sch, d, cv, k, pending[k], rids[k]).value, OwnerOp(owner, k, pending[k], rids[k]),
                    HeadOp(heads, k, pending[k], cv, rids[k]), cv, pending, order[1..], rids);
    }
  }

  // ---- publish against the heads -------------------------------------------

  /** Publishing changes heads and owners as specified, and pushes one version per effective key. */
  lemma {:induction false} PublishEffect(c: Coll, cv: nat, pending: map<Key, PendingOp>, order: seq<Key>,
                                         rids: map<Key, RID>, sch: Schema)
    requires forall k :: k in order ==> k in pending && k in rids
    requires AllFit(sch, pending, order, Live(c))
    ensures var c' := PublishAll(c, cv, pending, order, rids);
            && Live(c') == HeadsAfter(Live(c), cv, pending, order, rids)
            && c'.ridOwner == OwnersAfter(c.ridOwner, pending, order, rids)
            && c'.durable == c.durable
    decreases |order|
  {
    if order != [] {
      var k := order[0];
      var c1 := PublishOp(c, cv, k, pending[k], rids[k]);
      assert Live(c1) == HeadOp(Live(c), k, pending[k], cv, rids[k]);
      PublishEffect(c1, cv, pending, order[1..], rids, sch);
    }
  }

  /** The version a commit pushes on a key's chain, if it writes the key. */
  function Pushed(vs: Chain, cv: nat, pending: map<Key, PendingOp>, order: seq<Key>, rids: map<Key, RID>,
                  k: Key): Chain {
    if k in order && k in pending && k in rids && !pending[k].Noop() then [NewVersion(pending[k], cv, rids[k])] + vs
    else vs
  }

  lemma {:induction false} PublishChains(c: Coll, cv: nat, pending: map<Key, PendingOp>, order: seq<Key>,
                                         rids: map<Key, RID>)
    requires forall k :: k in order ==> k in pending && k in rids
    requires Distinct(order)
    ensures var c' := PublishAll(c, cv, pending, order, rids);
            forall k :: ChainOf(c', k) == Pushed(ChainOf(c, k), cv, pending, order, rids, k)
    decreases |order|
  {
    if order != [] {
      var k0 := order[0];
      var c1 := PublishOp(c, cv, k0, pending[k0], rids[k0]);
      PublishChains(c1, cv, pending, order[1..], rids);
      forall k
        ensures ChainOf(PublishAll(c, cv, pending, order, rids), k)
                == Pushed(ChainOf(c, k), cv, pending, order, rids, k)
      {
        assert k in order <==> k == k0 || k in order[1..];
      }
    }
  }

  /** Natural order stays free of repeats and covers every chain. */
  ghost predicate OrderOk(c: Coll) {
    && Distinct(c.order)
    && (forall k :: k in c.order <==> k in c.byID)
    && (forall k :: k in c.byID ==> c.byID[k] != [])
    && (forall k :: k in c.byID && |c.byID[k]| > 1 ==> k in c.dirty)
  }

  lemma {:induction false} PublishOrder(c: Coll, cv: nat, pending: map<Key, PendingOp>, order: seq<Key>,
                                        rids: map<Key, RID>)
    requires forall k :: k in order ==> k in pending && k in rids
    requires OrderOk(c)
    ensures var c' := PublishAll(c, cv, pending, order, rids); OrderOk(c') && c.order <= c'.order
    decreases |order|
  {
    if order != [] {
      var c1 := PublishOp(c, cv, order[0], pending[order[0]], rids[order[0]]);
      assert OrderOk(c1);
      PublishOrder(c1, cv, pending, order[1..], rids);
    }
  }

  /** Garbage collection moves no head and reorders nothing; `dirty` still marks every long chain. */
  lemma CollectEffect(c: Coll, wm: nat)
    requires OrderOk(c)
    ensures var c' := Collected(c, wm);
            && OrderOk(c') && c'.order == c.order && c'.ridOwner == c.ridOwner && c'.durable == c.durable
            && Live(c') == Live(c)
            && (forall k :: ChainOf(c', k) == ChainOf(c, k) || ChainOf(c', k) == Pruned(ChainOf(c, k), wm))
  {
    var c' := Collected(c, wm);
    forall k | k in c.byID
      ensures c'.byID[k] != [] && c'.byID[k][0] == c.byID[k][0]
    {
      PruneKeepsReads(c.byID[k], wm, wm);
    }
    assert Live(c').Keys == Live(c).Keys;
  }

  /** A chain of the single version a heap record stands for. */
  ghost predicate FromRecord(sch: Schema, heap: map<RID, Record>, k: Key, vs: Chain) {
    && |vs| == 1 && vs[0].rid in heap
    && vs[0] == DocVersion(heap[vs[0].rid].version, vs[0].rid, Some(heap[vs[0].rid].doc))
    && sch.keyOf(heap[vs[0].rid].doc) == k
  }

  /** The overlay holds exactly the records at `done`. */
  ghost predicate Filled(sch: Schema, heap: map<RID, Record>, done: set<RID>, byID: map<Key, Chain>, order: seq<Key>,
                         owner: map<RID, Key>) {
    && Distinct(order)
    && (forall k :: k in order <==> k in byID)
    && (forall k :: k in byID ==> FromRecord(sch, heap, k, byID[k]))
    && (forall r :: r in done && r in heap ==> sch.keyOf(heap[r].doc) in byID)
    && owner == map r | r in done && r in heap :: sch.keyOf(heap[r].doc)
  }

  /** A collection rebuilt from its heap holds one version per record. */
  ghost predicate Rebuilt(sch: Schema, d: Durable, c: Coll) {
    && c.durable == d && c.dirty == {}
    && Filled(sch, d.heap, d.heap.Keys, c.byID, c.order, c.ridOwner)
  }

  lemma FillNone(sch: Schema, heap: map<RID, Record>, done: set<RID>)
    requires done == {}
    ensures Filled(sch, heap, done, map[], [], map[])
  {}

  lemma FillOne(sch: Schema, heap: map<RID, Record>, done: set<RID>, byID: map<Key, Chain>, order: seq<Key>,
                owner: map<RID, Key>, r: RID)
    requires Filled(sch, heap, done, byID, order, owner) && r in heap
    ensures var k := sch.keyOf(heap[r].doc);
            Filled(sch, heap, done + {r}, byID[k := [DocVersion(heap[r].version, r, Some(heap[r].doc))]],
                   if k in byID then order else order + [k], owner[r := k])
  {
    var k := sch.keyOf(heap[r].doc);
    if k !in byID { DistinctSnoc(order, k); }
  }

  // ---- unique indexes ------------------------------------------------------

  /** RIDs a commit removes. */
  ghost predicate Removing(pending: map<Key, PendingOp>, order: seq<Key>, r: RID) {
    exists k :: k in order && k in pending && pending[k].remove.Some? && pending[k].remove.value.rid == r
  }

  /** All keys the commit's inserts contribute to index `n`, in order, repeats kept. */
  function InsertKeys(sch: Schema, n: IndexName, pending: map<Key, PendingOp>, order: seq<Key>): seq<IndexKey>
    requires forall k :: k in order ==> k in pending
  {
    if order == [] then []
    else (if pending[order[0]].insertDoc.Some? then sch.indexKeys(n, pending[order[0]].insertDoc.value) else [])
         + InsertKeys(sch, n, pending, order[1..])
  }

  /** What `checkUniqueSecondary` accepts. */
  ghost predicate UniqueCheck(sch: Schema, sec: set<Entry>, pending: map<Key, PendingOp>, order: seq<Key>)
    requires forall k :: k in order ==> k in pending
  {
    forall n :: n in sch.unique && n in sch.indexes ==>
      && Distinct(InsertKeys(sch, n, pending, order))
      && (forall e :: e in sec && e.index == n && e.key in InsertKeys(sch, n, pending, order)
                      ==> Removing(pending, order, e.rid))
  }

  /** The heap hands every insert a slot that is free when it asks. */
  ghost predicate FreshSlots(used: set<RID>, pending: map<Key, PendingOp>, order: seq<Key>, rids: map<Key, RID>)
    requires forall k :: k in order ==> k in pending && k in rids
    decreases |order|
  {
    order == [] ||
    var op := pending[order[0]];
    var freed := if op.remove.Some? then used - {op.remove.value.rid} else used;
    if op.insertDoc.Some? then
      rids[order[0]] !in freed && rids[order[0]] != NULL_RID
          && FreshSlots(freed + {rids[order[0]]}, pending, order[1..], rids)
    else FreshSlots(freed, pending, order[1..], rids)
  }

  /** `k` is put under index `n` by an earlier operation than the one that gives it up. */
  ghost predicate TakenBeforeFreed(sch: Schema, pending: map<Key, PendingOp>, order: seq<Key>)
    requires forall k :: k in order ==> k in pending
  {
    exists i, j, n, k ::
      && 0 <= i < j < |order| && n in sch.unique && n in sch.indexes
      && pending[order[i]].insertDoc.Some? && k in sch.indexKeys(n, pending[order[i]].insertDoc.value)
      && pending[order[j]].remove.Some? && k in sch.indexKeys(n, pending[order[j]].remove.value.doc)
  }
}
