/**
 When the durable apply of a commit goes through. The pre-check looks at the state before
 the commit, while the unique trees enforce uniqueness entry by entry, so the two part
 ways on a commit that hands a unique key from a later operation to an earlier one.
 */
module UniqueApply {
  import opened Common
  import opened Overlay
  import opened CollectionModel

  lemma InsertKeysAt(sch: Schema, n: IndexName, pending: map<Key, PendingOp>, order: seq<Key>, i: nat, x: IndexKey)
    requires forall k :: k in order ==> k in pending
    requires i < |order| && pending[order[i]].insertDoc.Some?
    requires x in sch.indexKeys(n, pending[order[i]].insertDoc.value)
    ensures x in InsertKeys(sch, n, pending, order)
  {
    if i > 0 { InsertKeysAt(sch, n, pending, order[1..], i - 1, x); }
  }

  /** The durable state after the remove half of the first operation. */
  ghost function Freed(sch: Schema, d: Durable, k: Key, op: PendingOp): Durable
    requires op.remove.Some? ==> ApplyRemove(sch, d, k, op.remove.value).Some?
  {
    if op.remove.Some? then ApplyRemove(sch, d, k, op.remove.value).value else d
  }

  /** The first operation's insert meets the entry of a record a later operation removes. */
  ghost predicate HeadBlocked(sch: Schema, pending: map<Key, PendingOp>, order: seq<Key>)
    requires order != [] && forall k :: k in order ==> k in pending
  {
    exists j, n, x ::
      && 0 < j < |order| && n in sch.unique && n in sch.indexes
      && pending[order[0]].insertDoc.Some? && x in sch.indexKeys(n, pending[order[0]].insertDoc.value)
      && pending[order[j]].remove.Some? && x in sch.indexKeys(n, pending[order[j]].remove.value.doc)
  }

  lemma TakenHere(sch: Schema, pending: map<Key, PendingOp>, order: seq<Key>)
    requires order != [] && (forall k :: k in order ==> k in pending) && TakenBeforeFreed(sch, pending, order)
    ensures HeadBlocked(sch, pending, order) || TakenBeforeFreed(sch, pending, order[1..])
  {
    var i, j, n, k :|
      && 0 <= i < j < |order| && n in sch.unique && n in sch.indexes
      && pending[order[i]].insertDoc.Some? && k in sch.indexKeys(n, pending[order[i]].insertDoc.value)
      && pending[order[j]].remove.Some? && k in sch.indexKeys(n, pending[order[j]].remove.value.doc);
    if i > 0 { assert order[1..][i - 1] == order[i] && order[1..][j - 1] == order[j]; }
  }

  lemma TakenLater(sch: Schema, pending: map<Key, PendingOp>, order: seq<Key>)
    requires order != [] && (forall k :: k in order ==> k in pending) && TakenBeforeFreed(sch, pending, order[1..])
    ensures TakenBeforeFreed(sch, pending, order)
  {
    var i, j, n, k :|
      && 0 <= i < j < |order[1..]| && n in sch.unique && n in sch.indexes
      && pending[order[1..][i]].insertDoc.Some? && k in sch.indexKeys(n, pending[order[1..][i]].insertDoc.value)
      && pending[order[1..][j]].remove.Some? && k in sch.indexKeys(n, pending[order[1..][j]].remove.value.doc);
    assert order[1..][i] == order[i + 1] && order[1..][j] == order[j + 1];
  }

  lemma TakenFirst(sch: Schema, pending: map<Key, PendingOp>, order: seq<Key>)
    requires order != [] && (forall k :: k in order ==> k in pending) && HeadBlocked(sch, pending, order)
    ensures TakenBeforeFreed(sch, pending, order)
  {}

  lemma TakenSplits(sch: Schema, pending: map<Key, PendingOp>, order: seq<Key>)
    requires order != [] && forall k :: k in order ==> k in pending
    ensures TakenBeforeFreed(sch, pending, order) <==>
            HeadBlocked(sch, pending, order) || TakenBeforeFreed(sch, pending, order[1..])
  {
    hide TakenBeforeFreed, HeadBlocked;
    if TakenBeforeFreed(sch, pending, order) { TakenHere(sch, pending, order); }
    if TakenBeforeFreed(sch, pending, order[1..]) { TakenLater(sch, pending, order); }
    if HeadBlocked(sch, pending, order) { TakenFirst(sch, pending, order); }
  }

  ghost predicate Ready(sch: Schema, d: Durable, heads: Heads, pending: map<Key, PendingOp>, order: seq<Key>,
                        rids: map<Key, RID>) {
    && (forall k :: k in order ==> k in pending && k in rids)
    && Mirrors(sch, d, heads) && UniqueKeys(sch, d.sec)
    && AllFit(sch, pending, order, heads)
    && FreshSlots(d.heap.Keys, pending, order, rids)
    && UniqueCheck(sch, d.sec, pending, order)
  }

  /** An entry of a record some operation in `order` removes carries a key of that operation's old document. */
  lemma RemoverOf(sch: Schema, d: Durable, heads: Heads, pending: map<Key, PendingOp>, order: seq<Key>, e: Entry)
    returns (j: nat)
    requires (forall k :: k in order ==> k in pending) && Mirrors(sch, d, heads) && AllFit(sch, pending, order, heads)
    requires e in d.sec && Removing(pending, order, e.rid)
    ensures j < |order| && pending[order[j]].remove.Some? && pending[order[j]].remove.value.rid == e.rid
    ensures e.key in sch.indexKeys(e.index, pending[order[j]].remove.value.doc)
  {
    var k :| k in order && k in pending && pending[k].remove.Some? && pending[k].remove.value.rid == e.rid;
    j :| 0 <= j < |order| && order[j] == k;
    assert Fits(sch, k, pending[k], heads);
  }

  /** What the remove half leaves in the trees. */
  lemma FreedSec(sch: Schema, d: Durable, k: Key, op: PendingOp, e: Entry)
    requires op.remove.Some? ==> ApplyRemove(sch, d, k, op.remove.value).Some?
    ensures e in Freed(sch, d, k, op).sec <==>
              e in d.sec && !(op.remove.Some? && e.rid == op.remove.value.rid && e.index in sch.indexes
                  && e.key in sch.indexKeys(e.index, op.remove.value.doc))
  {}

  lemma RefusedIsBlocked(sch: Schema, d: Durable, heads: Heads, pending: map<Key, PendingOp>, order: seq<Key>,
                         rids: map<Key, RID>)
    requires order != [] && Ready(sch, d, heads, pending, order, rids) && pending[order[0]].insertDoc.Some?
    requires pending[order[0]].remove.Some? ==> ApplyRemove(sch, d, order[0], pending[order[0]].remove.value).Some?
    requires Blocked(sch, Freed(sch, d, order[0], pending[order[0]]).sec, pending[order[0]].insertDoc.value,
             rids[order[0]])
    ensures HeadBlocked(sch, pending, order)
  {
    hide Freed, Mirrors, UniqueKeys, FreshSlots, AllFit, ApplyRemove, InsertKeys, Removing;
    var k0, op := order[0], pending[order[0]];
    var doc, rid := op.insertDoc.value, rids[k0];
    var e :| e in Freed(sch, d, k0, op).sec && e.index in sch.unique && e.index in sch.indexes && e.rid != rid
        && e.key in sch.indexKeys(e.index, doc);
    FreedSec(sch, d, k0, op, e);
    InsertKeysAt(sch, e.index, pending, order, 0, e.key);
    var j := RemoverOf(sch, d, heads, pending, order, e);
    assert j != 0;
  }

  lemma BlockedIsRefused(sch: Schema, d: Durable, heads: Heads, pending: map<Key, PendingOp>, order: seq<Key>,
                         rids: map<Key, RID>)
    requires order != [] && Ready(sch, d, heads, pending, order, rids) && pending[order[0]].insertDoc.Some?
    requires pending[order[0]].remove.Some? ==> ApplyRemove(sch, d, order[0], pending[order[0]].remove.value).Some?
    requires HeadBlocked(sch, pending, order)
    ensures Blocked(sch, Freed(sch, d, order[0], pending[order[0]]).sec, pending[order[0]].insertDoc.value,
            rids[order[0]])
  {
    hide Freed, UniqueKeys, UniqueCheck, ApplyRemove;
    var k0, op := order[0], pending[order[0]];
    var doc, rid := op.insertDoc.value, rids[k0];
    var j, n, x :|
      && 0 < j < |order| && n in sch.unique && n in sch.indexes
      && x in sch.indexKeys(n, doc)
      && pending[order[j]].remove.Some? && x in sch.indexKeys(n, pending[order[j]].remove.value.doc);
    var r := pending[order[j]].remove.value;
    assert Fits(sch, k0, op, heads) && Fits(sch, order[j], pending[order[j]], heads);
    assert order[j] != k0;
    var e := Entry(n, x, r.rid);
    assert e in d.sec;
    FreedSec(sch, d, k0, op, e);
    assert rid != r.rid;
  }

  /** The first insert is refused exactly when a later operation still holds one of its unique keys. */
  lemma HeadRefused(sch: Schema, d: Durable, heads: Heads, pending: map<Key, PendingOp>, order: seq<Key>,
                    rids: map<Key, RID>)
    requires order != [] && Ready(sch, d, heads, pending, order, rids)
    requires pending[order[0]].insertDoc.Some?
    requires pending[order[0]].remove.Some? ==> ApplyRemove(sch, d, order[0], pending[order[0]].remove.value).Some?
    ensures Blocked(sch, Freed(sch, d, order[0], pending[order[0]]).sec, pending[order[0]].insertDoc.value,
            rids[order[0]])
            <==> HeadBlocked(sch, pending, order)
  {
    hide Blocked, HeadBlocked, Freed, Mirrors, UniqueKeys, FreshSlots, AllFit, UniqueCheck, ApplyRemove;
    if HeadBlocked(sch, pending, order) {
      BlockedIsRefused(sch, d, heads, pending, order, rids);
    } else if Blocked(sch, Freed(sch, d, order[0], pending[order[0]]).sec, pending[order[0]].insertDoc.value,
        rids[order[0]]) {
      RefusedIsBlocked(sch, d, heads, pending, order, rids);
    }
  }

  /** The pre-check's verdict on index `n` carries over to the operations still to come. */
  lemma TailCheck(sch: Schema, d: Durable, heads: Heads, cv: nat, pending: map<Key, PendingOp>, order: seq<Key>,
                  rids: map<Key, RID>,
                  n: IndexName, d1: Durable)
    requires order != [] && Ready(sch, d, heads, pending, order, rids)
    requires ApplyOp(sch, d, cv, order[0], pending[order[0]], rids[order[0]]) == Some(d1)
    requires n in sch.unique && n in sch.indexes
    ensures Distinct(InsertKeys(sch, n, pending, order[1..]))
    ensures forall e :: e in d1.sec && e.index == n && e.key in InsertKeys(sch, n, pending, order[1..])
              ==> Removing(pending, order[1..], e.rid)
  {
    var k0, op := order[0], pending[order[0]];
    var head := if op.insertDoc.Some? then sch.indexKeys(n, op.insertDoc.value) else [];
    var tail := InsertKeys(sch, n, pending, order[1..]);
    assert InsertKeys(sch, n, pending, order) == head + tail;
    DistinctParts(head, tail);
    forall e | e in d1.sec && e.index == n && e.key in tail
      ensures Removing(pending, order[1..], e.rid)
    {
      assert e in d.sec;
      var j := RemoverOf(sch, d, heads, pending, order, e);
      assert j != 0 by { assert Fits(sch, k0, op, heads); }
      assert order[1..][j - 1] == order[j];
    }
  }

  lemma TailKeys(sch: Schema, d: Durable, cv: nat, k: Key, op: PendingOp, rid: RID)
    requires ApplyOp(sch, d, cv, k, op, rid).Some?
    ensures var freed := if op.remove.Some? then d.heap.Keys - {op.remove.value.rid} else d.heap.Keys;
            ApplyOp(sch, d, cv, k, op, rid).value.heap.Keys == if op.insertDoc.Some? then freed + {rid} else freed
  {}

  /** After an operation went through, the rest of the commit is again ready. */
  lemma TailReady(sch: Schema, d: Durable, heads: Heads, cv: nat, pending: map<Key, PendingOp>, order: seq<Key>,
                  rids: map<Key, RID>)
    requires order != [] && Ready(sch, d, heads, pending, order, rids)
    requires ApplyOp(sch, d, cv, order[0], pending[order[0]], rids[order[0]]).Some?
    ensures Ready(sch, ApplyOp(sch, d, cv, order[0], pending[order[0]], rids[order[0]]).value,
                  HeadOp(heads, order[0], pending[order[0]], cv, rids[order[0]]), pending, order[1..], rids)
  {
    hide Mirrors, UniqueKeys, ApplyOp, HeadOp, Fits, InsertKeys, Removing;
    var k0, op := order[0], pending[order[0]];
    var d1 := ApplyOp(sch, d, cv, k0, op, rids[k0]).value;
    OpMirrors(sch, d, heads, cv, k0, op, rids[k0]);
    FitsTail(sch, pending, order, heads, cv, rids[k0]);
    TailKeys(sch, d, cv, k0, op, rids[k0]);
    hide AllFit;
    forall n | n in sch.unique && n in sch.indexes
      ensures Distinct(InsertKeys(sch, n, pending, order[1..]))
      ensures forall e :: e in d1.sec && e.index == n && e.key in InsertKeys(sch, n, pending, order[1..])
                ==> Removing(pending, order[1..], e.rid)
    {
      TailCheck(sch, d, heads, cv, pending, order, rids, n, d1);
    }
  }

  lemma DistinctParts<T>(a: seq<T>, b: seq<T>)
    requires Distinct(a + b)
    ensures Distinct(b)
    ensures forall x :: x in a ==> x !in b
  {
    forall i, j | 0 <= i < j < |b| ensures b[i] != b[j] {
      assert (a + b)[|a| + i] == b[i] && (a + b)[|a| + j] == b[j];
    }
    forall x | x in a ensures x !in b {
      var i :| 0 <= i < |a| && a[i] == x;
      forall j | 0 <= j < |b| ensures b[j] != x {
        assert (a + b)[i] == x && (a + b)[|a| + j] == b[j];
      }
    }
  }

  /**
   A commit whose pre-check passed applies exactly when no operation takes a unique key
   before the operation giving it up runs.
   */
  lemma {:induction false} AppliesIff(sch: Schema, d: Durable, heads: Heads, cv: nat,
                                      pending: map<Key, PendingOp>, order: seq<Key>, rids: map<Key, RID>)
    requires Ready(sch, d, heads, pending, order, rids)
    ensures ApplyAll(sch, d, cv, pending, order, rids).Some? <==> !TakenBeforeFreed(sch, pending, order)
    decreases |order|
  {
    if order != [] {
      var k0, op := order[0], pending[order[0]];
      assert Fits(sch, k0, op, heads);
      if op.remove.Some? { RemoveMirrors(sch, d, heads, k0, op); }
      var mid := Freed(sch, d, k0, op);
      if op.insertDoc.Some? {
        assert heads - {k0} == if op.remove.Some? then heads - {k0} else heads;
        InsertMirrors(sch, mid, heads - {k0}, cv, k0, op.insertDoc.value, rids[k0]);
        HeadRefused(sch, d, heads, pending, order, rids);
      }
      TakenSplits(sch, pending, order);
      var next := ApplyOp(sch, d, cv, k0, op, rids[k0]);
      if next.Some? {
        TailReady(sch, d, heads, cv, pending, order, rids);
        AppliesIff(sch, next.value, HeadOp(heads, k0, op, cv, rids[k0]), cv, pending, order[1..], rids);
      }
    }
  }

  // ---- two documents swapping their unique values ------------------------------

  // A document is its _id byte followed by its value byte; the unique index is on the value.
  const SWAP_SCHEMA: Schema :=
    Schema((r: Raw) => if |r| > 0 then [r[0]] else [], {[9]}, {[9]}, (n, r: Raw) => if |r| > 1 then [[r[1]]] else [])
  const SWAP_STORE := Durable(map[RID(1, 0) := Record([1, 7], 1), RID(1, 1) := Record([2, 8], 1)],
                              {([1], RID(1, 0)), ([2], RID(1, 1))},
                              {Entry([9], [7], RID(1, 0)), Entry([9], [8], RID(1, 1))})
  const SWAP_HEADS: Heads := map[[1] := DocVersion(1, RID(1, 0), Some([1, 7])),
      [2] := DocVersion(1, RID(1, 1), Some([2, 8]))]
  const SWAP_WRITES: map<Key, PendingOp> :=
    map[[1] := PendingOp(Some([1, 8]), Some(Removed(RID(1, 0), [1, 7])), false),
        [2] := PendingOp(Some([2, 7]), Some(Removed(RID(1, 1), [2, 8])), false)]
  const SWAP_ORDER: seq<Key> := [[1], [2]]
  const SWAP_SLOTS: map<Key, RID> := map[[1] := RID(1, 2), [2] := RID(1, 3)]

  lemma SwapMirrors()
    ensures Mirrors(SWAP_SCHEMA, SWAP_STORE, SWAP_HEADS) && UniqueKeys(SWAP_SCHEMA, SWAP_STORE.sec)
  {
    var d0, d1 := Durable(map[], {}, {}),
        Durable(map[RID(1, 0) := Record([1, 7], 1)], {([1], RID(1, 0))}, {Entry([9], [7], RID(1, 0))});
    assert Mirrors(SWAP_SCHEMA, d0, map[]);
    SwapInsert(d0, map[], [1], [1, 7], RID(1, 0), d1);
    SwapInsert(d1, map[[1] := DocVersion(1, RID(1, 0), Some([1, 7]))], [2], [2, 8], RID(1, 1), SWAP_STORE);
  }

  lemma SwapInsert(d: Durable, heads: Heads, k: Key, doc: Raw, rid: RID, d': Durable)
    requires Mirrors(SWAP_SCHEMA, d, heads) && UniqueKeys(SWAP_SCHEMA, d.sec) && k !in heads && |doc| == 2
             && k == [doc[0]]
    requires rid !in d.heap && rid != NULL_RID && forall e :: e in d.sec ==> e.key != [doc[1]]
    requires d' == Durable(d.heap[rid := Record(doc, 1)], d.ids + {(k, rid)}, d.sec + {Entry([9], [doc[1]], rid)})
    ensures Mirrors(SWAP_SCHEMA, d', heads[k := DocVersion(1, rid, Some(doc))]) && UniqueKeys(SWAP_SCHEMA, d'.sec)
  {
    hide Mirrors, UniqueKeys;
    InsertMirrors(SWAP_SCHEMA, d, heads, 1, k, doc, rid);
    assert DocEntries(SWAP_SCHEMA, doc, rid) == {Entry([9], [doc[1]], rid)};
  }

  lemma SwapFits()
    ensures AllFit(SWAP_SCHEMA, SWAP_WRITES, SWAP_ORDER, SWAP_HEADS)
  {}

  lemma SwapFresh()
    ensures FreshSlots(SWAP_STORE.heap.Keys, SWAP_WRITES, SWAP_ORDER, SWAP_SLOTS)
  {
    var last: seq<Key> := [[2]];
    assert SWAP_ORDER[1..] == last;
    assert FreshSlots({RID(1, 1), RID(1, 2)}, SWAP_WRITES, last, SWAP_SLOTS);
    assert SWAP_STORE.heap.Keys - {RID(1, 0)} + {RID(1, 2)} == {RID(1, 1), RID(1, 2)};
  }

  lemma SwapChecks()
    ensures UniqueCheck(SWAP_SCHEMA, SWAP_STORE.sec, SWAP_WRITES, SWAP_ORDER)
  {
    var last: seq<Key> := [[2]];
    assert SWAP_ORDER[1..] == last && last[1..] == [];
    assert InsertKeys(SWAP_SCHEMA, [9], SWAP_WRITES, last) == [[7]];
    assert InsertKeys(SWAP_SCHEMA, [9], SWAP_WRITES, SWAP_ORDER) == [[8]] + [[7]];
    assert Removing(SWAP_WRITES, SWAP_ORDER, RID(1, 0)) by { assert SWAP_ORDER[0] == [1]; }
    assert Removing(SWAP_WRITES, SWAP_ORDER, RID(1, 1)) by { assert SWAP_ORDER[1] == [2]; }
  }

  lemma SwapTakes()
    ensures TakenBeforeFreed(SWAP_SCHEMA, SWAP_WRITES, SWAP_ORDER)
  {
    assert [8] in SWAP_SCHEMA.indexKeys([9], SWAP_WRITES[SWAP_ORDER[0]].insertDoc.value);
    assert [8] in SWAP_SCHEMA.indexKeys([9], SWAP_WRITES[SWAP_ORDER[1]].remove.value.doc);
  }

  /** The swap passes the pre-check, and the apply is then refused half way. */
  lemma SwapRefused()
    ensures Ready(SWAP_SCHEMA, SWAP_STORE, SWAP_HEADS, SWAP_WRITES, SWAP_ORDER, SWAP_SLOTS)
    ensures ApplyAll(SWAP_SCHEMA, SWAP_STORE, 2, SWAP_WRITES, SWAP_ORDER, SWAP_SLOTS).None?
  {
    hide Mirrors, UniqueKeys, AllFit, FreshSlots, UniqueCheck, TakenBeforeFreed, ApplyAll;
    SwapMirrors();
    SwapFits();
    SwapFresh();
    SwapChecks();
    SwapTakes();
    AppliesIff(SWAP_SCHEMA, SWAP_STORE, SWAP_HEADS, 2, SWAP_WRITES, SWAP_ORDER, SWAP_SLOTS);
  }
}
