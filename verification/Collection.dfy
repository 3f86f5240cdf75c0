/**
 The collection and its transactions as the objects they are: fields updated in place by
 loops. Each method is tied to the value-level operation of CollectionModel it performs.
 */
module CollectionObjects {
  import opened Common
  import opened Overlay
  import opened CollectionModel
  import opened VersionOracle

  class Collection {
    const sch: Schema
    var byID: map<Key, Chain>
    var order: seq<Key>
    var dirty: set<Key>
    var ridOwner: map<RID, Key>
    var heap: map<RID, Record>
    var ids: set<(Key, RID)>
    var sec: set<Entry>

    ghost function Stored(): Durable
      reads this
    {
      Durable(heap, ids, sec)
    }

    ghost function State(): Coll
      reads this
    {
      Coll(byID, order, dirty, ridOwner, Stored())
    }

    /** An empty collection under the given schema. */
    constructor (schema: Schema)
      ensures sch == schema
      ensures State() == Coll(map[], [], {}, map[], Durable(map[], {}, {}))
    {
      sch := schema;
      byID, order, dirty, ridOwner := map[], [], {}, map[];
      heap, ids, sec := map[], {}, {};
    }

    // ---- secondary index upkeep ----------------------------------------------

    /** Remove a superseded document's entries from every secondary index; a missing entry is tolerated. */
    method DeleteSecondary(doc: Raw, rid: RID)
      modifies this`sec
      ensures sec == old(sec) - DocEntries(sch, doc, rid)
    {
      var rest := sch.indexes;
      while rest != {}
        invariant rest <= sch.indexes
        invariant forall e :: e in sec <==> e in old(sec) && !(e in DocEntries(sch, doc, rid) && e.index !in rest)
        decreases rest
      {
        var n :| n in rest;
        var keys := sch.indexKeys(n, doc);
        label tree:
        for i := 0 to |keys|
          invariant forall e :: e in sec <==> e in old@tree(sec)
                                              && !(e.index == n && e.rid == rid && e.key in keys[..i])
        {
          assert keys[..i + 1] == keys[..i] + [keys[i]];
          sec := sec - {Entry(n, keys[i], rid)};
        }
        assert keys[..|keys|] == keys;
        rest := rest - {n};
      }
    }

    /** The record stored under `key` in tree `n`, if any. */
    method Get(n: IndexName, key: IndexKey) returns (r: Option<RID>)
      ensures r.Some? ==> Entry(n, key, r.value) in sec
      ensures r.None? ==> forall e :: e in sec ==> !(e.index == n && e.key == key)
    {
      var hits := set e | e in sec && e.index == n && e.key == key;
      if hits == {} {
        assert forall e :: e in sec && e.index == n && e.key == key ==> e in hits;
        return None;
      }
      var e :| e in hits;
      return Some(e.rid);
    }

    /** Put one entry; a unique tree refuses a different record under the same key. */
    method PutEntry(n: IndexName, key: IndexKey, rid: RID) returns (ok: bool)
      requires UniqueKeys(sch, sec)
      modifies this`sec
      ensures ok <==> !(n in sch.unique && exists e :: e in old(sec) && e.index == n && e.key == key && e.rid != rid)
      ensures sec == if ok then old(sec) + {Entry(n, key, rid)} else old(sec)
      ensures UniqueKeys(sch, sec)
    {
      if n in sch.unique {
        var existing := Get(n, key);
        if existing.Some? && existing.value != rid {
          assert Entry(n, key, existing.value) in sec;
          return false;
        }
      }
      sec := sec + {Entry(n, key, rid)};
      return true;
    }

    /** Put a stored document's entries into every secondary index, stopping at the first refusal. */
    method InsertSecondary(doc: Raw, rid: RID) returns (ok: bool)
      requires UniqueKeys(sch, sec)
      modifies this`sec
      ensures ok <==> !Blocked(sch, old(sec), doc, rid)
      ensures ok ==> sec == old(sec) + DocEntries(sch, doc, rid) && UniqueKeys(sch, sec)
      ensures old(sec) <= sec <= old(sec) + DocEntries(sch, doc, rid)
    {
      var rest := sch.indexes;
      while rest != {}
        invariant rest <= sch.indexes && UniqueKeys(sch, sec)
        invariant forall e :: e in sec <==> e in old(sec) || (e in DocEntries(sch, doc, rid) && e.index !in rest)
        invariant forall e :: e in old(sec) && e.index in sch.unique && e.index in sch.indexes - rest && e.rid != rid
                    ==> e.key !in sch.indexKeys(e.index, doc)
        decreases rest
      {
        var n :| n in rest;
        var keys := sch.indexKeys(n, doc);
        label tree:
        for i := 0 to |keys|
          invariant UniqueKeys(sch, sec)
          invariant forall e :: e in sec <==> e in old@tree(sec) || (e.index == n && e.rid == rid && e.key in keys[..i])
          invariant forall e :: e in old(sec) && n in sch.unique && e.index == n && e.rid != rid ==> e.key !in keys[..i]
        {
          assert keys[..i + 1] == keys[..i] + [keys[i]];
          var put := PutEntry(n, keys[i], rid);
          if !put { return false; }
        }
        assert keys[..|keys|] == keys;
        rest := rest - {n};
      }
      assert sec == old(sec) + DocEntries(sch, doc, rid);
      return true;
    }

    /** Whether the commit's inserts collide on a unique index, judged before any page changes. */
    method CheckUniqueSecondary(pending: map<Key, PendingOp>, writes: seq<Key>) returns (ok: bool)
      requires UniqueKeys(sch, sec)
      requires forall k :: k in writes ==> k in pending
      ensures ok == UniqueCheck(sch, sec, pending, writes)
    {
      var removing: set<RID> := {};
      for i := 0 to |writes|
        invariant forall r :: r in removing <==> Removing(pending, writes[..i], r)
      {
        assert writes[..i + 1] == writes[..i] + [writes[i]];
        var p := pending[writes[i]];
        if p.remove.Some? { removing := removing + {p.remove.value.rid}; }
      }
      assert writes[..|writes|] == writes;
      var rest := sch.unique * sch.indexes;
      while rest != {}
        invariant rest <= sch.unique * sch.indexes
        invariant forall n :: n in sch.unique * sch.indexes - rest ==> UniqueOn(n, pending, writes)
        decreases rest
      {
        var n :| n in rest;
        var good := CheckOne(n, pending, writes, removing);
        if !good {
          assert n in sch.unique && n in sch.indexes;
          return false;
        }
        rest := rest - {n};
      }
      forall n | n in sch.unique && n in sch.indexes ensures UniqueOn(n, pending, writes) {
        assert n in sch.unique * sch.indexes - rest;
      }
      return true;
    }

    /** The pre-check's condition on one index. */
    ghost predicate UniqueOn(n: IndexName, pending: map<Key, PendingOp>, writes: seq<Key>)
      requires forall k :: k in writes ==> k in pending
      reads this
    {
      && Distinct(InsertKeys(sch, n, pending, writes))
      && (forall e :: e in sec && e.index == n && e.key in InsertKeys(sch, n, pending, writes)
                      ==> Removing(pending, writes, e.rid))
    }

    /** One document's keys against those `seen` and against the stored entries. */
    method CheckDoc(n: IndexName, keys: seq<IndexKey>, seen: set<IndexKey>, ghost done: seq<IndexKey>,
                    removing: set<RID>)
      returns (ok: bool, seen': set<IndexKey>)
      requires UniqueKeys(sch, sec) && n in sch.unique
      requires Distinct(done) && forall k :: k in seen <==> k in done
      ensures ok <==> Distinct(done + keys)
                      && forall e :: e in sec && e.index == n && e.key in keys ==> e.rid in removing
      ensures ok ==> forall k :: k in seen' <==> k in done + keys
    {
      seen' := seen;
      for j := 0 to |keys|
        invariant Distinct(done + keys[..j]) && forall k :: k in seen' <==> k in done + keys[..j]
        invariant forall e :: e in sec && e.index == n && e.key in keys[..j] ==> e.rid in removing
      {
        assert keys[..j + 1] == keys[..j] + [keys[j]];
        ghost var all := done + keys;
        assert all[|done| + j] == keys[j];
        assert all[..|done| + j] == done + keys[..j];
        if keys[j] in seen' {
          ghost var x :| 0 <= x < |done + keys[..j]| && (done + keys[..j])[x] == keys[j];
          assert all[x] == keys[j];
          return false, seen';
        }
        DistinctSnoc(done + keys[..j], keys[j]);
        assert done + keys[..j + 1] == done + keys[..j] + [keys[j]];
        seen' := seen' + {keys[j]};
        var holder := Get(n, keys[j]);
        if holder.Some? && holder.value !in removing { return false, seen'; }
      }
      assert keys[..|keys|] == keys;
      return true, seen';
    }

    method CheckOne(n: IndexName, pending: map<Key, PendingOp>, writes: seq<Key>, removing: set<RID>) returns (ok: bool)
      requires UniqueKeys(sch, sec) && n in sch.unique
      requires forall k :: k in writes ==> k in pending
      requires forall r :: r in removing <==> Removing(pending, writes, r)
      ensures ok == UniqueOn(n, pending, writes)
    {
      var seen: set<IndexKey> := {};
      ghost var done: seq<IndexKey> := [];
      ghost var all := InsertKeys(sch, n, pending, writes);
      for i := 0 to |writes|
        invariant done + InsertKeys(sch, n, pending, writes[i..]) == all
        invariant Distinct(done) && forall k :: k in seen <==> k in done
        invariant forall e :: e in sec && e.index == n && e.key in done ==> e.rid in removing
      {
        var p := pending[writes[i]];
        assert writes[i..][1..] == writes[i + 1..];
        if p.insertDoc.Some? {
          var keys := sch.indexKeys(n, p.insertDoc.value);
          ghost var after := InsertKeys(sch, n, pending, writes[i + 1..]);
          assert all == (done + keys) + after;
          var good, seen' := CheckDoc(n, keys, seen, done, removing);
          if !good {
            PrefixDistinct(done + keys, after);
            return false;
          }
          seen, done := seen', done + keys;
        }
      }
      return true;
    }

    static lemma PrefixDistinct<T>(a: seq<T>, b: seq<T>)
      ensures Distinct(a + b) ==> Distinct(a)
      ensures forall x :: x in a ==> x in a + b
    {
      if Distinct(a + b) {
        forall i, j | 0 <= i < j < |a| ensures a[i] != a[j] {
          assert (a + b)[i] == a[i] && (a + b)[j] == a[j];
        }
      }
    }

    // ---- commit ----------------------------------------------------------------

    /** The remove half of one operation. */
    method ApplyRemoval(k: Key, r: Removed) returns (ok: bool)
      modifies this`heap, this`ids, this`sec
      ensures ok <==> ApplyRemove(sch, old(Stored()), k, r).Some?
      ensures ok ==> Stored() == ApplyRemove(sch, old(Stored()), k, r).value
      ensures UniqueKeys(sch, old(sec)) ==> UniqueKeys(sch, sec)
    {
      if r.rid !in heap { return false; }
      heap := heap - {r.rid};
      if (k, r.rid) !in ids { return false; }
      ids := ids - {(k, r.rid)};
      DeleteSecondary(r.doc, r.rid);
      return true;
    }

    /** The insert half of one operation, into the slot the heap chose. */
    method ApplyInsertion(k: Key, doc: Raw, cv: nat, rid: RID) returns (ok: bool)
      requires UniqueKeys(sch, sec)
      modifies this`heap, this`ids, this`sec
      ensures ok <==> ApplyInsert(sch, old(Stored()), cv, k, doc, rid).Some?
      ensures ok ==> Stored() == ApplyInsert(sch, old(Stored()), cv, k, doc, rid).value && UniqueKeys(sch, sec)
    {
      if rid in heap || rid == NULL_RID { return false; }
      heap := heap[rid := Record(doc, cv)];
      var others := set p | p in ids && p.0 == k && p.1 != rid;
      if others != {} {
        ghost var p :| p in others;
        assert (k, p.1) in ids;
        return false;
      }
      assert forall r :: (k, r) in ids && r != rid ==> (k, r) in others;
      ids := ids + {(k, rid)};
      ok := InsertSecondary(doc, rid);
    }

    /**
     Apply a transaction's buffered writes in order, stamped `cv`. A failed unique
     pre-check changes nothing; otherwise the outcome is that of the value-level apply.
     */
    method Apply(b: Buffer, cv: nat, rids: map<Key, RID>) returns (checked: bool, ok: bool)
      requires UniqueKeys(sch, sec) && forall k :: k in b.order ==> k in b.pending && k in rids
      modifies this`heap, this`ids, this`sec
      ensures checked == UniqueCheck(sch, old(sec), b.pending, b.order)
      ensures !checked ==> !ok && Stored() == old(Stored())
      ensures checked ==> (ok <==> ApplyAll(sch, old(Stored()), cv, b.pending, b.order, rids).Some?)
      ensures ok ==> Stored() == ApplyAll(sch, old(Stored()), cv, b.pending, b.order, rids).value
    {
      checked := CheckUniqueSecondary(b.pending, b.order);
      if !checked { return false, false; }
      for i := 0 to |b.order|
        invariant UniqueKeys(sch, sec)
        invariant ApplyAll(sch, Stored(), cv, b.pending, b.order[i..], rids)
                  == ApplyAll(sch, old(Stored()), cv, b.pending, b.order, rids)
      {
        var k := b.order[i];
        var p := b.pending[k];
        assert b.order[i..][1..] == b.order[i + 1..];
        ghost var before := Stored();
        if p.remove.Some? {
          var removed := ApplyRemoval(k, p.remove.value);
          if !removed { return true, false; }
        }
        if p.insertDoc.Some? {
          var inserted := ApplyInsertion(k, p.insertDoc.value, cv, rids[k]);
          if !inserted { return true, false; }
        }
        assert ApplyOp(sch, before, cv, k, p, rids[k]) == Some(Stored());
      }
      return true, true;
    }

    /** Install a transaction's versions at the head of each chain. */
    method Publish(b: Buffer, cv: nat, rids: map<Key, RID>)
      requires forall k :: k in b.order ==> k in b.pending && k in rids
      modifies this`byID, this`order, this`dirty, this`ridOwner
      ensures State() == PublishAll(old(State()), cv, b.pending, b.order, rids)
    {
      for i := 0 to |b.order|
        invariant PublishAll(State(), cv, b.pending, b.order[i..], rids)
                  == PublishAll(old(State()), cv, b.pending, b.order, rids)
      {
        var k := b.order[i];
        var p := b.pending[k];
        assert b.order[i..][1..] == b.order[i + 1..];
        ghost var before := State();
        if !p.Noop() {
          var vs: Chain := if k in byID then byID[k] else [];
          if k !in byID { order := order + [k]; }
          var nv := DocVersion(cv, NULL_RID, None);
          if p.remove.Some? { ridOwner := ridOwner - {p.remove.value.rid}; }
          if p.insertDoc.Some? {
            nv := DocVersion(cv, rids[k], p.insertDoc);
            ridOwner := ridOwner[rids[k] := k];
          }
          byID := byID[k := [nv] + vs];
          if |byID[k]| > 1 { dirty := dirty + {k}; }
        }
        assert State() == PublishOp(before, cv, k, p, rids[k]);
      }
    }

    method CollectOne(k: Key, wm: nat)
      modifies this`byID, this`dirty
      ensures byID == if k in old(byID) then old(byID)[k := Pruned(old(byID)[k], wm)] else old(byID)
      ensures dirty == if k in old(byID) && |Pruned(old(byID)[k], wm)| > 1 then old(dirty) else old(dirty) - {k}
    {
      if k !in byID {
        dirty := dirty - {k};
      } else {
        var kept := PruneBelow(byID[k], wm);
        byID := byID[k := kept];
        if |kept| <= 1 { dirty := dirty - {k}; }
      }
    }

    /** Cut every dirty chain at `wm`, in whatever order the set yields them. */
    method Gc(wm: nat)
      modifies this`byID, this`dirty
      ensures State() == Collected(old(State()), wm)
    {
      ghost var byID0, dirty0 := byID, dirty;
      var todo := dirty;
      while todo != {}
        invariant todo <= dirty
        invariant byID.Keys == byID0.Keys
        invariant forall k :: k in byID0 ==> byID[k] == if k in dirty0 && k !in todo then Pruned(byID0[k], wm)
                                                        else byID0[k]
        invariant forall k :: k in dirty <==> k in dirty0 && (k in todo || (k in byID0 && |Pruned(byID0[k], wm)| > 1))
        decreases todo
      {
        var k :| k in todo;
        todo := todo - {k};
        CollectOne(k, wm);
      }
      ghost var goal := Collected(old(State()), wm);
      assert byID == goal.byID;
      assert dirty == goal.dirty;
    }

    /** Fill the overlay from the heap, one version per record, and report the highest version seen. */
    method Rebuild() returns (maxVer: nat)
      modifies this`byID, this`order, this`dirty, this`ridOwner
      ensures Rebuilt(sch, old(Stored()), State())
      ensures forall r :: r in heap ==> heap[r].version <= maxVer
      ensures maxVer == 0 || exists r :: r in heap && heap[r].version == maxVer
    {
      hide Filled;
      byID, order, dirty, ridOwner, maxVer := map[], [], {}, map[], 0;
      var todo := heap.Keys;
      FillNone(sch, heap, heap.Keys - todo);
      while todo != {}
        invariant todo <= heap.Keys && dirty == {}
        invariant Filled(sch, heap, heap.Keys - todo, byID, order, ridOwner)
        invariant forall r :: r in heap && r !in todo ==> heap[r].version <= maxVer
        invariant maxVer == 0 || exists r :: r in heap && heap[r].version == maxVer
        decreases todo
      {
        var r :| r in todo;
        var k := sch.keyOf(heap[r].doc);
        FillOne(sch, heap, heap.Keys - todo, byID, order, ridOwner, r);
        assert heap.Keys - todo + {r} == heap.Keys - (todo - {r});
        todo := todo - {r};
        if k !in byID { order := order + [k]; }
        byID := byID[k := [DocVersion(heap[r].version, r, Some(heap[r].doc))]];
        ridOwner := ridOwner[r := k];
        if heap[r].version > maxVer { maxVer := heap[r].version; }
      }
      assert heap.Keys - todo == heap.Keys;
    }
  }

  /** A transaction: a snapshot of one collection and a buffer of writes. */
  class Transaction {
    const c: Collection
    const startVer: nat
    var pending: map<Key, PendingOp>
    var order: seq<Key>

    ghost function Buf(): Buffer
      reads this
    {
      Buffer(pending, order)
    }

    constructor (coll: Collection, snapshot: nat)
      ensures c == coll && startVer == snapshot && Buf() == NO_WRITES
    {
      c, startVer, pending, order := coll, snapshot, map[], [];
    }

    /** The transaction's own write if it touched the key, else the version at its snapshot. */
    method CurrentDoc(k: Key) returns (doc: Option<Raw>)
      ensures doc == View(Buf(), ChainOf(c.State(), k), startVer, k)
    {
      if k in pending { return pending[k].insertDoc; }
      if k in c.byID {
        doc := VisibleAt(c.byID[k], startVer);
      } else {
        doc := None;
      }
    }

    /** The committed live version at the snapshot. */
    method CommittedVersion(k: Key) returns (r: Option<Removed>)
      ensures r == Superseded(ChainOf(c.State(), k), startVer)
    {
      if k !in c.byID { return None; }
      var vs := c.byID[k];
      for i := 0 to |vs|
        invariant forall j :: 0 <= j < i ==> vs[j].commitVer > startVer
      {
        if vs[i].commitVer <= startVer {
          FirstAtIs(vs, startVer, i);
          return if vs[i].doc.Some? then Some(Removed(vs[i].rid, vs[i].doc.value)) else None;
        }
      }
      FirstAtIs(vs, startVer, |vs|);
      return None;
    }

    method EnsurePending(k: Key)
      modifies this
      ensures Buf() == Ensure(old(Buf()), k)
    {
      if k !in pending {
        pending := pending[k := PendingOp(None, None, false)];
        order := order + [k];
      }
    }

    method BufferReplace(k: Key, doc: Raw, replaced: bool)
      modifies this
      ensures Buf() == Replace(old(Buf()), k, ChainOf(c.State(), k), startVer, doc, replaced)
    {
      EnsurePending(k);
      var old_ := CommittedVersion(k);
      var p := pending[k];
      if old_.Some? { p := p.(remove := old_); }
      pending := pending[k := p.(insertDoc := Some(doc), replaced := replaced)];
    }

    method BufferDelete(k: Key)
      modifies this
      ensures Buf() == Delete(old(Buf()), k, ChainOf(c.State(), k), startVer)
    {
      EnsurePending(k);
      var old_ := CommittedVersion(k);
      var p := pending[k];
      if old_.Some? { p := p.(remove := old_); }
      pending := pending[k := p.(insertDoc := None)];
    }

    /** Buffer an insert, refusing an `_id` the transaction already sees. */
    method InsertBuffered(doc: Raw) returns (ok: bool)
      modifies this
      ensures var k := c.sch.keyOf(doc);
              && ok == View(old(Buf()), ChainOf(c.State(), k), startVer, k).None?
              && Buf() == if ok then Insert(old(Buf()), k, doc) else old(Buf())
    {
      var k := c.sch.keyOf(doc);
      var current := CurrentDoc(k);
      if current.Some? { return false; }
      EnsurePending(k);
      pending := pending[k := pending[k].(insertDoc := Some(doc))];
      return true;
    }

    /** The sorted, duplicate-free hashes of the effective writes. */
    method ConflictKeys(hash: Key -> nat) returns (ws: WriteSet)
      requires Buf().Valid()
      ensures Sorted(ws) && Distinct(ws)
      ensures forall h :: h in ws <==> exists k :: k in pending && !pending[k].Noop() && hash(k) == h
    {
      var hs: set<nat> := {};
      for i := 0 to |order|
        invariant forall h :: h in hs <==> exists k :: k in order[..i] && !pending[k].Noop() && hash(k) == h
      {
        assert order[..i + 1] == order[..i] + [order[i]];
        ghost var before := hs;
        if !pending[order[i]].Noop() { hs := hs + {hash(order[i])}; }
        forall h: nat | exists k :: k in order[..i] && !pending[k].Noop() && hash(k) == h ensures h in hs {}
        forall h | h in hs ensures exists k :: k in order[..i + 1] && !pending[k].Noop() && hash(k) == h {
          if h in before {
            var k :| k in order[..i] && !pending[k].Noop() && hash(k) == h;
            assert k in order[..i + 1];
          } else {
            assert order[i] in order[..i + 1];
          }
        }
      }
      assert order[..|order|] == order;
      ws := SortKeys(hs);
    }

    /** Natural order first, then own keys not in it. */
    method ScanKeys() returns (keys: seq<Key>)
      requires Buf().Valid() && Distinct(c.order)
      ensures Distinct(keys) && c.order <= keys
      ensures forall k :: k in keys <==> k in c.order || k in order
    {
      keys := c.order;
      for i := 0 to |order|
        invariant Distinct(keys) && c.order <= keys
        invariant forall k :: k in keys <==> k in c.order || k in order[..i]
      {
        assert order[..i + 1] == order[..i] + [order[i]];
        if order[i] !in keys {
          DistinctSnoc(keys, order[i]);
          keys := keys + [order[i]];
        }
      }
      assert order[..|order|] == order;
    }
  }

  /** The elements of a set in increasing order. */
  method SortKeys(hs: set<nat>) returns (ws: WriteSet)
    ensures Sorted(ws) && Distinct(ws)
    ensures forall h :: h in ws <==> h in hs
  {
    ws := [];
    var rest := hs;
    while rest != {}
      invariant rest <= hs && Sorted(ws) && Distinct(ws)
      invariant forall h :: h in ws <==> h in hs && h !in rest
      invariant forall a, b :: a in ws && b in rest ==> a < b
      decreases rest
    {
      var least :| least in rest;
      var others := rest - {least};
      while others != {}
        invariant others <= rest && least in rest
        invariant forall h :: h in rest && h !in others ==> least <= h
        decreases others
      {
        var x :| x in others;
        others := others - {x};
        if x < least { least := x; }
      }
      DistinctSnoc(ws, least);
      assert forall i :: 0 <= i < |ws| ==> ws[i] in ws;
      ws := ws + [least];
      rest := rest - {least};
    }
  }
}
