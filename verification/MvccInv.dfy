/** Every step of the transaction machine keeps its invariant. */
module MvccInv {
  import opened Common
  import opened Overlay
  import opened CollectionModel
  import opened VersionOracle
  import opened Mvcc

  // ---- snapshots and the oracle -------------------------------------------------

  lemma HoldersAdd(txns: map<TxnId, Txn>, tid: TxnId, t: Txn, v: nat)
    requires tid !in txns
    ensures |Holders(txns[tid := t], v)| == |Holders(txns, v)| + if t.startVer == v then 1 else 0
  {
    if t.startVer == v {
      assert Holders(txns[tid := t], v) == Holders(txns, v) + {tid};
    } else {
      assert Holders(txns[tid := t], v) == Holders(txns, v);
    }
  }

  lemma HoldersRemove(txns: map<TxnId, Txn>, tid: TxnId, v: nat)
    requires tid in txns
    ensures |Holders(txns - {tid}, v)| == |Holders(txns, v)| - if txns[tid].startVer == v then 1 else 0
  {
    if txns[tid].startVer == v {
      assert Holders(txns - {tid}, v) == Holders(txns, v) - {tid};
    } else {
      assert Holders(txns - {tid}, v) == Holders(txns, v);
    }
  }

  /** A live transaction's snapshot is registered, so the watermark is at or below it. */
  lemma SnapshotIsLive(orc: Oracle, txns: map<TxnId, Txn>, wms: set<nat>, base: nat, tid: TxnId)
    requires SnapshotsOk(orc, txns, wms, base) && tid in txns
    ensures txns[tid].startVer in orc.live && orc.minLive <= txns[tid].startVer <= orc.commitVer
  {
    var v := txns[tid].startVer;
    assert tid in Holders(txns, v);
    assert Count(orc.live, v) > 0;
  }

  lemma WatermarkBelow(orc: Oracle, txns: map<TxnId, Txn>, wms: set<nat>, base: nat)
    requires SnapshotsOk(orc, txns, wms, base)
    ensures SnapshotsOk(orc, txns, wms + {orc.minLive}, base)
  {
    forall t | t in txns ensures orc.minLive <= txns[t].startVer { SnapshotIsLive(orc, txns, wms, base, t); }
  }

  lemma AcquireKeeps(orc: Oracle, txns: map<TxnId, Txn>, wms: set<nat>, base: nat, tid: TxnId, t: Txn, orc': Oracle)
    requires SnapshotsOk(orc, txns, wms, base) && tid !in txns && t.startVer == orc.commitVer && Acquired(orc, orc')
    ensures SnapshotsOk(orc', txns[tid := t], wms, base)
    ensures orc'.minLive == orc.minLive
  {
    forall v ensures Count(orc'.live, v) == |Holders(txns[tid := t], v)| { HoldersAdd(txns, tid, t, v); }
    assert forall v :: v in orc'.live <==> v in orc.live || v == orc.commitVer;
  }

  /** Giving back a snapshot only raises the watermark. */
  lemma ReleaseRaises(o: Oracle, sv: nat, o': Oracle)
    requires Valid(o) && sv in o.live && Released(o, sv, o')
    ensures o.minLive <= o'.minLive
  {
    assert o'.minLive in o.live || o'.minLive == o.commitVer;
  }

  lemma ReleaseKeepsRecent(o: Oracle, sv: nat, o': Oracle, i: nat)
    requires Released(o, sv, o') && i < |o.recent| && o.recent[i].commitVer > o'.minLive
    ensures o.recent[i] in o'.recent
  {
    assert o.recent[i] == o'.recent[i - (|o.recent| - |o'.recent|)];
  }

  lemma ReleaseCounts(orc: Oracle, txns: map<TxnId, Txn>, wms: set<nat>, base: nat, tid: TxnId, orc': Oracle)
    requires SnapshotsOk(orc, txns, wms, base) && tid in txns
    requires Valid(orc') && orc'.commitVer >= orc.commitVer && orc'.live == Without(orc.live, txns[tid].startVer)
    ensures SnapshotsOk(orc', txns - {tid}, wms, base)
  {
    SnapshotIsLive(orc, txns, wms, base, tid);
    forall v ensures Count(orc'.live, v) == |Holders(txns - {tid}, v)| { HoldersRemove(txns, tid, v); }
  }

  lemma SameStarts(orc: Oracle, txns: map<TxnId, Txn>, wms: set<nat>, base: nat, tid: TxnId, t: Txn)
    requires SnapshotsOk(orc, txns, wms, base) && tid in txns && t.startVer == txns[tid].startVer
    ensures SnapshotsOk(orc, txns[tid := t], wms, base)
  {
    forall v ensures Count(orc.live, v) == |Holders(txns[tid := t], v)| {
      assert Holders(txns[tid := t], v) == Holders(txns, v);
    }
  }

  lemma IndexedKept(w: World, recent: seq<Committed>, recent': seq<Committed>, minLive: nat, r: CommitRec)
    requires Indexed(w, recent, r) && r.cv > minLive
    requires forall i :: 0 <= i < |recent| && recent[i].commitVer > minLive ==> recent[i] in recent'
    ensures Indexed(w, recent', r)
  {
    var i :| 0 <= i < |recent| && recent[i].commitVer == r.cv && Covers(w, r.txn, recent[i].writeSet);
    var j :| 0 <= j < |recent'| && recent'[j] == recent[i];
  }

  lemma LogReleased(w: World, log: seq<CommitRec>, orc: Oracle, base: nat, sv: nat, orc': Oracle)
    requires LogOk(w, log, orc, base) && Valid(orc) && sv in orc.live && Released(orc, sv, orc')
    ensures LogOk(w, log, orc', base)
  {
    ReleaseRaises(orc, sv, orc');
    forall i | 0 <= i < |orc.recent| && orc.recent[i].commitVer > orc'.minLive ensures orc.recent[i] in orc'.recent {
      ReleaseKeepsRecent(orc, sv, orc', i);
    }
    forall i | 0 <= i < |log| && log[i].cv > orc'.minLive ensures Indexed(w, orc'.recent, log[i]) {
      IndexedKept(w, orc.recent, orc'.recent, orc'.minLive, log[i]);
    }
  }

  // ---- chains -------------------------------------------------------------------

  lemma ChainsNarrow(commitVer: nat, txns: map<TxnId, Txn>, commitVer': nat, txns': map<TxnId, Txn>, coll: Coll,
                     full: History)
    requires ChainsOk(commitVer, txns, coll, full)
    requires forall v :: Needed(commitVer', txns', v) ==> Needed(commitVer, txns, v)
    ensures ChainsOk(commitVer', txns', coll, full)
  {
    forall k ensures Retains(commitVer', txns', ChainOf(coll, k), full(k)) {
      assert Retains(commitVer, txns, ChainOf(coll, k), full(k));
    }
  }

  lemma ChainsCollect(commitVer: nat, txns: map<TxnId, Txn>, coll: Coll, full: History, wm: nat)
    requires ChainsOk(commitVer, txns, coll, full)
    requires forall v :: Needed(commitVer, txns, v) ==> wm <= v
    ensures ChainsOk(commitVer, txns, Collected(coll, wm), full)
  {
    CollectEffect(coll, wm);
    forall k ensures Retains(commitVer, txns, ChainOf(Collected(coll, wm), k), full(k)) {
      var vs := ChainOf(coll, k);
      assert Retains(commitVer, txns, vs, full(k));
      forall v: nat | Needed(commitVer, txns, v) ensures VersionAt(Pruned(vs, wm), v) == VersionAt(vs, v) {
        PruneKeepsReads(vs, wm, v);
      }
      PruneKeepsReads(vs, wm, wm);
    }
  }

  lemma RetainsPush(commitVer: nat, txns: map<TxnId, Txn>, vs: Chain, full: Chain, n: DocVersion)
    requires Retains(commitVer, txns, vs, full)
    ensures Retains(commitVer, txns, [n] + vs, [n] + full)
  {
    forall v: nat | Needed(commitVer, txns, v) ensures VersionAt([n] + vs, v) == VersionAt([n] + full, v) {
      if v < n.commitVer {
        PushKeepsReads(n, vs, v);
        PushKeepsReads(n, full, v);
      }
    }
  }

  lemma ChainsPush(commitVer: nat, txns: map<TxnId, Txn>, coll: Coll, full: History, b: Buffer, cv: nat,
                   rids: map<Key, RID>)
    requires ChainsOk(commitVer, txns, coll, full) && b.Valid()
    requires forall k :: k in b.order ==> k in b.pending && k in rids
    ensures ChainsOk(commitVer, txns, Published(coll, b, cv, rids), PushedHist(full, b, cv, rids))
  {
    PublishOrder(coll, cv, b.pending, b.order, rids);
    var coll', full' := Published(coll, b, cv, rids), PushedHist(full, b, cv, rids);
    forall k ensures Retains(commitVer, txns, ChainOf(coll', k), full'(k)) {
      PublishChains(coll, cv, b.pending, b.order, rids);
      assert Retains(commitVer, txns, ChainOf(coll, k), full(k));
      if k in b.order && k in b.pending && k in rids && !b.pending[k].Noop() {
        RetainsPush(commitVer, txns, ChainOf(coll, k), full(k), NewVersion(b.pending[k], cv, rids[k]));
      }
    }
  }

  lemma PushKeepsSuperseded(full: History, b: Buffer, cv: nat, rids: map<Key, RID>, startVer: nat, k: Key)
    requires startVer < cv
    ensures VersionAt(PushedHist(full, b, cv, rids)(k), startVer) == VersionAt(full(k), startVer)
  {
    if k in b.order && k in b.pending && k in rids {
      PushKeepsReads(NewVersion(b.pending[k], cv, rids[k]), full(k), startVer);
    }
  }

  /** Publishing above a snapshot leaves what its transaction buffered and sees as it was. */
  lemma BufferPush(sch: Schema, full: History, b0: Buffer, cv: nat, rids: map<Key, RID>, startVer: nat, b: Buffer)
    requires BufferOk(sch, full, startVer, b) && startVer < cv
    ensures BufferOk(sch, PushedHist(full, b0, cv, rids), startVer, b)
  {
    forall k | k in b.pending ensures b.pending[k].remove == Superseded(PushedHist(full, b0, cv, rids)(k), startVer) {
      PushKeepsSuperseded(full, b0, cv, rids, startVer, k);
    }
  }

  // ---- scans --------------------------------------------------------------------

  lemma ListingAgree(keys: seq<Key>, f: Key -> Option<Raw>, g: Key -> Option<Raw>)
    requires forall k :: f(k) == g(k)
    ensures Listing(keys, f) == Listing(keys, g)
  {
    if keys != [] { ListingAgree(keys[..|keys| - 1], f, g); }
  }

  lemma ScanPush(sc: Scan, b: Buffer, full: History, startVer: nat, b0: Buffer, cv: nat, rids: map<Key, RID>)
    requires ScanAt(sc, b, full, startVer) && startVer < cv
    ensures ScanAt(sc, b, PushedHist(full, b0, cv, rids), startVer)
  {
    var f, g := Seen(sc.own, full, startVer), Seen(sc.own, PushedHist(full, b0, cv, rids), startVer);
    forall k ensures f(k) == g(k) { PushKeepsSuperseded(full, b0, cv, rids, startVer, k); }
    ListingAgree(sc.keys[..sc.pos], f, g);
  }

  lemma UnseenKeys(own: seq<Key>, keys: seq<Key>)
    requires Distinct(own) && Distinct(keys)
    ensures Distinct(Unseen(own, keys))
    ensures forall k :: k in Unseen(own, keys) <==> k in own && k !in keys
  {
    if own != [] {
      UnseenKeys(own[1..], keys);
      assert own[0] !in own[1..];
    }
  }

  /** A scan's key list covers every document its transaction sees, whenever it is taken. */
  lemma ScanStarts(commitVer: nat, txns: map<TxnId, Txn>, tid: TxnId, coll: Coll, full: History, b: Buffer, sch: Schema,
                   c: CollId)
    requires ChainsOk(commitVer, txns, coll, full) && tid in txns && BufferOk(sch, full, txns[tid].startVer, b)
    ensures ScanAt(Scan(c, coll.order + Unseen(b.order, coll.order), 0, [], b), b, full, txns[tid].startVer)
  {
    UnseenKeys(b.order, coll.order);
    DistinctJoin(coll.order, Unseen(b.order, coll.order));
    forall k | Seen(b, full, txns[tid].startVer)(k).Some? ensures k in coll.order + Unseen(b.order, coll.order) {
      if k !in b.pending {
        assert Retains(commitVer, txns, ChainOf(coll, k), full(k));
      }
    }
  }

  /** One scan read of the pruned overlay is a read of the full history. */
  lemma ReadIsSeen(commitVer: nat, txns: map<TxnId, Txn>, tid: TxnId, coll: Coll, full: History, b: Buffer, k: Key)
    requires ChainsOk(commitVer, txns, coll, full) && tid in txns
    ensures View(b, ChainOf(coll, k), txns[tid].startVer, k) == Seen(b, full, txns[tid].startVer)(k)
  {
    assert Retains(commitVer, txns, ChainOf(coll, k), full(k));
    assert Needed(commitVer, txns, txns[tid].startVer);
  }

  lemma ScanAdvances(sc: Scan, b: Buffer, full: History, startVer: nat)
    requires ScanAt(sc, b, full, startVer) && sc.pos < |sc.keys|
    ensures var k := sc.keys[sc.pos]; var doc := Seen(b, full, startVer)(k);
            ScanAt(sc.(pos := sc.pos + 1, out := if doc.Some? then sc.out + [(k, doc.value)] else sc.out), b, full,
                startVer)
  {
    assert sc.keys[..sc.pos + 1][..sc.pos] == sc.keys[..sc.pos];
    var k := sc.keys[sc.pos];
    assert sc.WillRead(k);
    var sc' := sc.(pos := sc.pos + 1);
    forall x | sc'.WillRead(x) ensures sc.WillRead(x) {}
  }

  // ---- buffered writes ----------------------------------------------------------

  lemma EnsureKeeps(sch: Schema, full: History, startVer: nat, b: Buffer, k: Key, op: PendingOp)
    requires BufferOk(sch, full, startVer, b)
    requires op.remove == Superseded(full(k), startVer) && (op.insertDoc.Some? ==> sch.keyOf(op.insertDoc.value) == k)
    ensures var e := Ensure(b, k); BufferOk(sch, full, startVer, e.(pending := e.pending[k := op]))
  {
    if k !in b.pending { DistinctSnoc(b.order, k); }
  }

  lemma WriteKeepsBuffer(sch: Schema, full: History, startVer: nat, b: Buffer, wr: Write, vs: History)
    requires BufferOk(sch, full, startVer, b)
    requires forall k :: VersionAt(vs(k), startVer) == VersionAt(full(k), startVer)
    requires wr.Put? ==> sch.keyOf(wr.newDoc) == wr.key
    ensures BufferOk(sch, full, startVer, WriteTo(sch, b, wr, vs, startVer))
  {
    var k := if wr.Ins? then sch.keyOf(wr.doc) else wr.key;
    if !(wr.Ins? && View(b, vs(k), startVer, k).Some?) {
      EnsureKeeps(sch, full, startVer, b, k, WriteTo(sch, b, wr, vs, startVer).pending[k]);
    }
  }

  // ---- first committer wins -----------------------------------------------------

  /** A commit the conflict check lets through meets no later commit, under any hash. */
  lemma NoConflictWins(w: World, log: seq<CommitRec>, orc: Oracle, base: nat, t: Txn, ws: WriteSet)
    requires LogOk(w, log, orc, base) && Covers(w, t, ws) && orc.minLive <= t.startVer
    requires !Conflicts(orc, t.startVer, ws)
    ensures Wins(log, t)
  {
    forall i | 0 <= i < |log| && log[i].cv > t.startVer ensures DisjointWrites(log[i].txn, t) {
      assert Indexed(w, orc.recent, log[i]);
      var j :| 0 <= j < |orc.recent| && orc.recent[j].commitVer == log[i].cv
          && Covers(w, log[i].txn, orc.recent[j].writeSet);
      assert !Overlap(orc.recent[j].writeSet, ws);
    }
  }

  /** What a winning transaction wrote is still what it read: its head is the snapshot's version. */
  lemma HeadUnchanged(log: seq<CommitRec>, base: nat, hist: CollId -> History, t: Txn, c: CollId, k: Key)
    requires HistOk(log, base, None, hist) && Wins(log, t) && base <= t.startVer
    requires t.Wrote(c, k)
    ensures hist(c)(k) != [] ==> hist(c)(k)[0].commitVer <= t.startVer
  {
    if hist(c)(k) != [] {
      assert HasVersion(hist(c)(k), hist(c)(k)[0].commitVer);
    }
  }

  /** Buffered operations of a winning transaction fit the current heads. */
  lemma WinnerFits(w: World, s: Sys, t: Txn, c: CollId)
    requires HistOk(s.log, s.base, None, s.hist) && Wins(s.log, t) && s.base <= t.startVer
    requires c in s.colls && ChainsOk(s.orc.commitVer, s.txns, s.colls[c], s.hist(c))
    requires c in t.bufs && BufferOk(w.schemas(c), s.hist(c), t.startVer, t.Buf(c))
    ensures AllFit(w.schemas(c), t.Buf(c).pending, t.Buf(c).order, Live(s.colls[c]))
  {
    var b, heads := t.Buf(c), Live(s.colls[c]);
    forall k | k in b.order ensures Fits(w.schemas(c), k, b.pending[k], heads) {
      if !b.pending[k].Noop() {
        HeadUnchanged(s.log, s.base, s.hist, t, c, k);
        assert Retains(s.orc.commitVer, s.txns, ChainOf(s.colls[c], k), s.hist(c)(k));
      }
    }
  }

  // ---- one collection or one transaction changes --------------------------------

  lemma DurableIrrelevant(commitVer: nat, txns: map<TxnId, Txn>, coll: Coll, full: History, d: Durable)
    requires ChainsOk(commitVer, txns, coll, full)
    ensures ChainsOk(commitVer, txns, coll.(durable := d), full)
  {
    forall k ensures Retains(commitVer, txns, ChainOf(coll.(durable := d), k), full(k)) {
      assert Retains(commitVer, txns, ChainOf(coll, k), full(k));
    }
  }

  lemma ApplyAhead(w: World, s: Sys, t: Txn, c: CollId, rids: map<Key, RID>)
    requires HistOk(s.log, s.base, None, s.hist) && Wins(s.log, t) && s.base <= t.startVer
    requires c in s.colls && ChainsOk(s.orc.commitVer, s.txns, s.colls[c], s.hist(c))
    requires c in t.bufs && BufferOk(w.schemas(c), s.hist(c), t.startVer, t.Buf(c))
    requires Settled(w.schemas(c), s.colls[c])
    requires forall k :: k in t.Buf(c).order ==> k in t.Buf(c).pending && k in rids
    requires ApplyAll(w.schemas(c), s.colls[c].durable, s.orc.commitVer + 1, t.Buf(c).pending, t.Buf(c).order,
             rids).Some?
    ensures var d := ApplyAll(w.schemas(c), s.colls[c].durable, s.orc.commitVer + 1, t.Buf(c).pending, t.Buf(c).order,
            rids).value;
            Ahead(w.schemas(c), s.colls[c].(durable := d), t.Buf(c), s.orc.commitVer + 1, rids)
  {
    hide HistOk, Wins, ChainsOk, BufferOk, Mirrors, UniqueKeys, Owns, AllFit;
    WinnerFits(w, s, t, c);
    CommitMirrors(w.schemas(c), s.colls[c].durable, s.colls[c].ridOwner, Live(s.colls[c]), s.orc.commitVer + 1,
                  t.Buf(c).pending, t.Buf(c).order, rids);
  }

  lemma PublishSettles(sch: Schema, coll: Coll, b: Buffer, cv: nat, rids: map<Key, RID>)
    requires Ahead(sch, coll, b, cv, rids)
    ensures Settled(sch, Published(coll, b, cv, rids))
  {
    PublishEffect(coll, cv, b.pending, b.order, rids, sch);
  }

  /** Publishing one participant explains its new versions by the commit in flight and drops none. */
  lemma HistPush(log: seq<CommitRec>, base: nat, pub: CommitRec, hist: CollId -> History, c: CollId,
                 rids: map<Key, RID>,
                 hist': CollId -> History)
    requires HistOk(log, base, Some(pub), hist)
    requires c in pub.txn.bufs
    requires hist'(c) == PushedHist(hist(c), pub.txn.bufs[c], pub.cv, rids)
    requires forall x :: x != c ==> hist'(x) == hist(x)
    requires forall k, v: nat :: HasVersion(hist(c)(k), v) ==> v < pub.cv
    ensures HistOk(log, base, Some(pub), hist')
    ensures forall x, k, v :: HasVersion(hist(x)(k), v) ==> HasVersion(hist'(x)(k), v)
  {
    var b := pub.txn.bufs[c];
    forall x, k, v | HasVersion(hist(x)(k), v) ensures HasVersion(hist'(x)(k), v) {
      var i :| 0 <= i < |hist(x)(k)| && hist(x)(k)[i].commitVer == v;
      if x == c && hist'(x)(k) != hist(x)(k) { assert hist'(x)(k)[i + 1] == hist(x)(k)[i]; }
    }
    forall x, k, v | HasVersion(hist'(x)(k), v) ensures Explained(log, base, Some(pub), x, k, v) {
      var i :| 0 <= i < |hist'(x)(k)| && hist'(x)(k)[i].commitVer == v;
      if x == c && hist'(x)(k) != hist(x)(k) {
        if i > 0 { assert hist'(x)(k)[i] == hist(x)(k)[i - 1]; assert HasVersion(hist(x)(k), v); }
      } else {
        assert HasVersion(hist(x)(k), v);
      }
    }
    forall x, k ensures NewestFirst(hist'(x)(k)) {
      assert NewestFirst(hist(x)(k));
      if x == c && hist'(x)(k) != hist(x)(k) {
        forall j | 0 <= j < |hist(x)(k)| ensures hist(x)(k)[j].commitVer < pub.cv {
          assert HasVersion(hist(x)(k), hist(x)(k)[j].commitVer);
        }
      }
    }
  }

  lemma HistLogged(log: seq<CommitRec>, base: nat, pub: CommitRec, hist: CollId -> History)
    requires HistOk(log, base, Some(pub), hist)
    requires forall c, k :: pub.txn.Wrote(c, k) ==> HasVersion(hist(c)(k), pub.cv)
    ensures HistOk(log + [pub], base, None, hist)
  {
    var log' := log + [pub];
    forall c, k, v | HasVersion(hist(c)(k), v) ensures Explained(log', base, None, c, k, v) {
      assert Explained(log, base, Some(pub), c, k, v);
      assert log'[|log|] == pub;
      assert forall i :: 0 <= i < |log| ==> log'[i] == log[i];
    }
  }

  lemma LogExtended(w: World, log: seq<CommitRec>, orc: Oracle, base: nat, t: Txn, ws: WriteSet, cv: nat, orc': Oracle)
    requires LogOk(w, log, orc, base) && Valid(orc) && t.startVer in orc.live && base <= orc.commitVer
    requires Covers(w, t, ws) && Wins(log, t) && CommittedAt(orc, t.startVer, ws, cv, orc')
    ensures LogOk(w, log + [CommitRec(cv, t)], orc', base)
  {
    var mid := orc.(commitVer := cv, recent := orc.recent + [Committed(cv, ws)]);
    var log' := log + [CommitRec(cv, t)];
    assert Valid(mid);
    forall i | 0 <= i < |log'| && log'[i].cv > mid.minLive ensures Indexed(w, mid.recent, log'[i]) {
      if i < |log| {
        var j :| 0 <= j < |orc.recent| && orc.recent[j].commitVer == log[i].cv
            && Covers(w, log[i].txn, orc.recent[j].writeSet);
        assert mid.recent[j] == orc.recent[j];
      } else {
        assert mid.recent[|orc.recent|] == Committed(cv, ws);
      }
    }
    LogReleased(w, log', mid, base, t.startVer, orc');
  }

  // ---- reading single facts off the invariant ------------------------------------

  lemma ScanHasTxn(scans: map<TxnId, Scan>, txns: map<TxnId, Txn>, ids: set<CollId>, hist: CollId -> History,
                   tid: TxnId)
    requires AllScans(scans, txns, ids, hist)
    ensures tid in scans ==> tid in txns
    ensures tid in scans ==> scans[tid].coll in ids
    ensures tid in scans ==> ScanAt(scans[tid], txns[tid].Buf(scans[tid].coll), hist(scans[tid].coll),
                             txns[tid].startVer)
  {}

  lemma AllScansSet(scans: map<TxnId, Scan>, txns: map<TxnId, Txn>, ids: set<CollId>, hist: CollId -> History,
                    tid: TxnId, sc: Scan)
    requires AllScans(scans, txns, ids, hist) && tid in txns && sc.coll in ids
    requires ScanAt(sc, txns[tid].Buf(sc.coll), hist(sc.coll), txns[tid].startVer)
    ensures AllScans(scans[tid := sc], txns, ids, hist)
  {}

  lemma AllTxnsLess(w: World, txns: map<TxnId, Txn>, ids: set<CollId>, hist: CollId -> History, tid: TxnId)
    requires AllTxns(w, txns, ids, hist)
    ensures AllTxns(w, txns - {tid}, ids, hist)
  {}

  lemma TxnIsOk(w: World, txns: map<TxnId, Txn>, ids: set<CollId>, hist: CollId -> History, tid: TxnId, c: CollId)
    requires AllTxns(w, txns, ids, hist) && tid in txns
    ensures TxnOk(w, ids, hist, txns[tid])
    ensures BufferOk(w.schemas(c), hist(c), txns[tid].startVer, txns[tid].Buf(c))
    ensures txns[tid].Buf(c).Valid() && (c in txns[tid].parts ==> c in txns[tid].bufs)
  {}

  lemma ChainIsOk(commitVer: nat, txns: map<TxnId, Txn>, colls: map<CollId, Coll>, hist: CollId -> History, c: CollId)
    requires AllChains(commitVer, txns, colls, hist) && c in colls
    ensures ChainsOk(commitVer, txns, colls[c], hist(c)) && OrderOk(colls[c])
  {}

  lemma AllScansLess(scans: map<TxnId, Scan>, txns: map<TxnId, Txn>, ids: set<CollId>, hist: CollId -> History,
                     tid: TxnId)
    requires AllScans(scans, txns, ids, hist)
    ensures AllScans(scans - {tid}, txns, ids, hist)
  {}

  lemma StartsBelow(orc: Oracle, txns: map<TxnId, Txn>, wms: set<nat>, base: nat)
    requires SnapshotsOk(orc, txns, wms, base)
    ensures Valid(orc) && base <= orc.commitVer
    ensures forall t :: t in txns ==> base <= txns[t].startVer <= orc.commitVer
  {}

  lemma NextIsAhead(w: World, t: Txn, p: Phase, colls: map<CollId, Coll>, hist: CollId -> History, log: seq<CommitRec>,
                    cv: nat)
    requires p.Publishing? && p.todo != [] && Flying(w, t, p, colls, hist, log, cv)
    ensures p.todo[0] in t.parts && p.todo[0] in colls
            && Ahead(w.schemas(p.todo[0]), colls[p.todo[0]], t.Buf(p.todo[0]), cv, p.rids(p.todo[0]))
  {}

  /** Outside the commit in flight no version is beyond the commit version. */
  lemma VersionsBelow(w: World, log: seq<CommitRec>, orc: Oracle, base: nat, pub: Option<CommitRec>,
                      hist: CollId -> History, c: CollId)
    requires LogOk(w, log, orc, base) && HistOk(log, base, pub, hist) && base <= orc.commitVer
    requires pub.Some? ==> forall k :: !HasVersion(hist(c)(k), pub.value.cv)
    ensures forall k, v: nat :: HasVersion(hist(c)(k), v) ==> v <= orc.commitVer
  {
    forall k, v: nat | HasVersion(hist(c)(k), v) ensures v <= orc.commitVer {
      assert Explained(log, base, pub, c, k, v);
    }
  }

  lemma NextIsUnpublished(w: World, t: Txn, p: Phase, colls: map<CollId, Coll>, hist: CollId -> History,
                          log: seq<CommitRec>, cv: nat)
    requires p.Publishing? && p.todo != [] && Flying(w, t, p, colls, hist, log, cv)
    ensures forall k :: !HasVersion(hist(p.todo[0])(k), cv)
  {}

  lemma AllIsPublished(w: World, t: Txn, p: Phase, colls: map<CollId, Coll>, hist: CollId -> History,
                       log: seq<CommitRec>, cv: nat)
    requires p.Publishing? && p.todo == [] && Flying(w, t, p, colls, hist, log, cv)
    ensures Covers(w, t, p.ws) && Wins(log, t) && forall c, k :: t.Wrote(c, k) ==> HasVersion(hist(c)(k), cv)
  {}

  lemma IsSettled(w: World, colls: map<CollId, Coll>, todo: seq<CollId>, c: CollId)
    requires AllSettled(w, colls, todo) && c in colls && c !in todo
    ensures Settled(w.schemas(c), colls[c])
  {}

  lemma WroteIsPart(w: World, t: Txn, ids: set<CollId>, hist: CollId -> History)
    requires TxnOk(w, ids, hist, t)
    ensures Distinct(t.parts) && forall c, k :: t.Wrote(c, k) ==> c in t.parts
  {}

  lemma SettleNext(w: World, colls: map<CollId, Coll>, todo: seq<CollId>, coll: Coll)
    requires todo != [] && AllSettled(w, colls, todo) && Settled(w.schemas(todo[0]), coll)
    ensures AllSettled(w, colls[todo[0] := coll], todo[1..])
  {
    assert forall c :: c in todo ==> c == todo[0] || c in todo[1..];
  }

  lemma PushedVersions(t: Txn, c: CollId, full: History, cv: nat, rids: map<Key, RID>, full': History)
    requires c in t.bufs && t.bufs[c].Valid() && forall k :: k in t.bufs[c].order ==> k in rids
    requires full' == PushedHist(full, t.bufs[c], cv, rids)
    ensures forall k :: t.Wrote(c, k) ==> HasVersion(full'(k), cv)
  {
    forall k | t.Wrote(c, k) ensures HasVersion(full'(k), cv) {
      assert full'(k)[0].commitVer == cv;
    }
  }

  lemma AllChainsNarrow(commitVer: nat, txns: map<TxnId, Txn>, commitVer': nat, txns': map<TxnId, Txn>,
                        colls: map<CollId, Coll>, hist: CollId -> History)
    requires AllChains(commitVer, txns, colls, hist) && commitVer <= commitVer'
    requires forall t :: t in txns' ==>
               (t in txns && txns[t].startVer == txns'[t].startVer) || txns'[t].startVer == commitVer
    ensures AllChains(commitVer', txns', colls, hist)
  {
    forall v: nat | Needed(commitVer', txns', v) ensures Needed(commitVer, txns, v) {}
    forall c | c in colls ensures ChainsOk(commitVer', txns', colls[c], hist(c)) {
      ChainsNarrow(commitVer, txns, commitVer', txns', colls[c], hist(c));
    }
  }

  lemma AllTxnsPut(w: World, txns: map<TxnId, Txn>, ids: set<CollId>, hist: CollId -> History, tid: TxnId, t: Txn)
    requires AllTxns(w, txns, ids, hist) && TxnOk(w, ids, hist, t)
    ensures AllTxns(w, txns[tid := t], ids, hist)
  {}

  lemma AllScansPut(scans: map<TxnId, Scan>, txns: map<TxnId, Txn>, ids: set<CollId>, hist: CollId -> History,
                    tid: TxnId, t: Txn)
    requires AllScans(scans, txns, ids, hist) && tid !in scans
    ensures AllScans(scans, txns[tid := t], ids, hist)
    ensures AllScans(scans, txns - {tid}, ids, hist)
  {}

  lemma LogAcquired(w: World, log: seq<CommitRec>, orc: Oracle, base: nat, orc': Oracle)
    requires LogOk(w, log, orc, base) && orc'.commitVer == orc.commitVer && orc'.minLive == orc.minLive
             && orc'.recent == orc.recent
    ensures LogOk(w, log, orc', base)
  {}

  lemma NoTxnYet(w: World, ids: set<CollId>, hist: CollId -> History, v: nat)
    ensures TxnOk(w, ids, hist, Txn(v, map[], []))
  {
    var t := Txn(v, map[], []);
    assert forall c :: t.Buf(c) == NO_WRITES;
  }

  lemma BeginInv(w: World, s: Sys, tid: TxnId, s': Sys)
    requires Inv(w, s) && BeginStep(w, s, tid, s')
    ensures Inv(w, s')
  {
    hide SnapshotsOk, AllChains, AllTxns, AllSettled, AllScans, LogOk, HistOk, Flying;
    hide ChainsOk, TxnOk, BufferOk, ScanAt, Settled, Ahead;
    StartsBelow(s.orc, s.txns, s.wms, s.base);
    var t := Txn(s.orc.commitVer, map[], []);
    AcquireKeeps(s.orc, s.txns, s.wms, s.base, tid, t, s'.orc);
    AllChainsNarrow(s.orc.commitVer, s.txns, s'.orc.commitVer, s'.txns, s.colls, s.hist);
    NoTxnYet(w, s.colls.Keys, s.hist, s.orc.commitVer);
    AllTxnsPut(w, s.txns, s.colls.Keys, s.hist, tid, t);
    ScanHasTxn(s.scans, s.txns, s.colls.Keys, s.hist, tid);
    AllScansPut(s.scans, s.txns, s.colls.Keys, s.hist, tid, t);
    LogAcquired(w, s.log, s.orc, s.base, s'.orc);
  }

  lemma EndInv(w: World, s: Sys, tid: TxnId, s': Sys)
    requires Inv(w, s) && EndStep(w, s, tid, s')
    ensures Inv(w, s')
  {
    hide SnapshotsOk, AllChains, AllTxns, AllSettled, AllScans, LogOk, HistOk, Flying;
    hide ChainsOk, TxnOk, BufferOk, ScanAt, Settled, Ahead;
    StartsBelow(s.orc, s.txns, s.wms, s.base);
    SnapshotIsLive(s.orc, s.txns, s.wms, s.base, tid);
    ReleaseCounts(s.orc, s.txns, s.wms, s.base, tid, s'.orc);
    LogReleased(w, s.log, s.orc, s.base, s.txns[tid].startVer, s'.orc);
    AllChainsNarrow(s.orc.commitVer, s.txns, s'.orc.commitVer, s'.txns, s.colls, s.hist);
    AllScansPut(s.scans, s.txns, s.colls.Keys, s.hist, tid, s.txns[tid]);
    AllTxnsLess(w, s.txns, s.colls.Keys, s.hist, tid);
  }

  lemma ReadWatermarkInv(w: World, s: Sys, s': Sys)
    requires Inv(w, s) && ReadWatermarkStep(w, s, s')
    ensures Inv(w, s')
  {
    hide SnapshotsOk, AllChains, AllTxns, AllSettled, AllScans, LogOk, HistOk, Flying;
    hide ChainsOk, TxnOk, BufferOk, ScanAt, Settled, Ahead;
    WatermarkBelow(s.orc, s.txns, s.wms, s.base);
  }

  // -- garbage collection

  lemma AllChainsSet(commitVer: nat, txns: map<TxnId, Txn>, colls: map<CollId, Coll>, hist: CollId -> History,
                     c: CollId, coll: Coll,
                     hist': CollId -> History)
    requires AllChains(commitVer, txns, colls, hist) && ChainsOk(commitVer, txns, coll, hist'(c))
    requires forall x :: x != c ==> hist'(x) == hist(x)
    ensures AllChains(commitVer, txns, colls[c := coll], hist')
  {}

  lemma CollectSettled(w: World, colls: map<CollId, Coll>, todo: seq<CollId>, c: CollId, coll: Coll)
    requires AllSettled(w, colls, todo) && c in colls
    requires Live(coll) == Live(colls[c]) && coll.ridOwner == colls[c].ridOwner && coll.durable == colls[c].durable
    ensures AllSettled(w, colls[c := coll], todo)
  {}

  lemma CollectFlying(w: World, t: Txn, p: Phase, colls: map<CollId, Coll>, hist: CollId -> History,
                      log: seq<CommitRec>, cv: nat,
                      c: CollId, coll: Coll)
    requires p.Publishing? && Flying(w, t, p, colls, hist, log, cv) && c in colls
    requires Live(coll) == Live(colls[c]) && coll.ridOwner == colls[c].ridOwner && coll.durable == colls[c].durable
    ensures Flying(w, t, p, colls[c := coll], hist, log, cv)
  {
    forall x | x in p.todo ensures Ahead(w.schemas(x), colls[c := coll][x], t.Buf(x), cv, p.rids(x)) {
      assert Ahead(w.schemas(x), colls[x], t.Buf(x), cv, p.rids(x));
    }
  }

  lemma OldWatermark(orc: Oracle, txns: map<TxnId, Txn>, wms: set<nat>, base: nat, wm: nat)
    requires SnapshotsOk(orc, txns, wms, base) && wm in wms
    ensures forall v :: Needed(orc.commitVer, txns, v) ==> wm <= v
  {}

  /** A collector may run long after it read its watermark. */
  lemma GcInv(w: World, s: Sys, c: CollId, wm: nat, s': Sys)
    requires Inv(w, s) && GcStep(w, s, c, wm, s')
    ensures Inv(w, s')
  {
    hide SnapshotsOk, AllChains, AllTxns, AllSettled, AllScans, LogOk, HistOk, Flying;
    hide ChainsOk, TxnOk, BufferOk, ScanAt, Settled, Ahead;
    OldWatermark(s.orc, s.txns, s.wms, s.base, wm);
    ChainIsOk(s.orc.commitVer, s.txns, s.colls, s.hist, c);
    ChainsCollect(s.orc.commitVer, s.txns, s.colls[c], s.hist(c), wm);
    CollectEffect(s.colls[c], wm);
    var coll := Collected(s.colls[c], wm);
    AllChainsSet(s.orc.commitVer, s.txns, s.colls, s.hist, c, coll, s.hist);
    CollectSettled(w, s.colls, Todo(s.phase), c, coll);
    if s.phase.Publishing? {
      CollectFlying(w, s.txns[s.phase.tid], s.phase, s.colls, s.hist, s.log, s.orc.commitVer + 1, c, coll);
    }
    assert s'.colls.Keys == s.colls.Keys;
  }

  // -- buffered writes

  lemma WriteTxnOk(w: World, s: Sys, tid: TxnId, c: CollId, wr: Write, vs: History, t': Txn)
    requires tid in s.txns && c in s.colls
    requires AllChains(s.orc.commitVer, s.txns, s.colls, s.hist)
    requires TxnOk(w, s.colls.Keys, s.hist, s.txns[tid])
    requires forall k :: vs(k) == ChainOf(s.colls[c], k)
    requires wr.Put? ==> w.schemas(c).keyOf(wr.newDoc) == wr.key
    requires t' == With(s.txns[tid], c, WriteTo(w.schemas(c), s.txns[tid].Buf(c), wr, vs, s.txns[tid].startVer))
    ensures TxnOk(w, s.colls.Keys, s.hist, t')
  {
    hide VersionAt, WriteTo, BufferOk;
    var t := s.txns[tid];
    forall k ensures VersionAt(vs(k), t.startVer) == VersionAt(s.hist(c)(k), t.startVer) {
      assert Retains(s.orc.commitVer, s.txns, ChainOf(s.colls[c], k), s.hist(c)(k));
      assert Needed(s.orc.commitVer, s.txns, t.startVer);
    }
    hide ChainOf, AllChains;
    WriteKeepsBuffer(w.schemas(c), s.hist(c), t.startVer, t.Buf(c), wr, vs);
    if c !in t.bufs { DistinctSnoc(t.parts, c); }
    forall x ensures BufferOk(w.schemas(x), s.hist(x), t.startVer, t'.Buf(x)) {
      if x != c { assert t'.Buf(x) == t.Buf(x); }
    }
  }

  lemma WriteInv(w: World, s: Sys, tid: TxnId, c: CollId, wr: Write, s': Sys)
    requires Inv(w, s) && DoWriteStep(w, s, tid, c, wr, s')
    ensures Inv(w, s')
  {
    hide SnapshotsOk, AllChains, AllTxns, AllSettled, AllScans, LogOk, HistOk, Flying;
    hide ChainsOk, TxnOk, BufferOk, ScanAt, Settled, Ahead;
    var t := s.txns[tid];
    var vs: History := k => ChainOf(s.colls[c], k);
    var t' := s'.txns[tid];
    TxnIsOk(w, s.txns, s.colls.Keys, s.hist, tid, c);
    WriteTxnOk(w, s, tid, c, wr, vs, t');
    SameStarts(s.orc, s.txns, s.wms, s.base, tid, t');
    AllChainsNarrow(s.orc.commitVer, s.txns, s.orc.commitVer, s'.txns, s.colls, s.hist);
    AllTxnsPut(w, s.txns, s.colls.Keys, s.hist, tid, t');
    if tid in s.scans {
      ScanWrite(w.schemas(c), s.scans, s.txns, s.colls.Keys, s.hist, tid, c, wr, vs, t');
    } else {
      AllScansPut(s.scans, s.txns, s.colls.Keys, s.hist, tid, t');
    }
  }

  /** A write touches its own key only. */
  lemma WriteIsLocal(sch: Schema, b: Buffer, wr: Write, vs: History, startVer: nat, k: Key)
    requires k != KeyOf(sch, wr)
    ensures SameWrite(WriteTo(sch, b, wr, vs, startVer), b, k)
  {
    hide VersionAt;
  }

  /** A write of nothing a scan will still read leaves the scan as it was. */
  lemma ScanWrite(sch: Schema, scans: map<TxnId, Scan>, txns: map<TxnId, Txn>, ids: set<CollId>,
                  hist: CollId -> History,
                  tid: TxnId, c: CollId, wr: Write, vs: History, t': Txn)
    requires AllScans(scans, txns, ids, hist) && tid in scans && tid in txns
    requires t' == With(txns[tid], c, WriteTo(sch, txns[tid].Buf(c), wr, vs, txns[tid].startVer))
    requires scans[tid].coll == c ==> !scans[tid].WillRead(KeyOf(sch, wr))
    ensures AllScans(scans, txns[tid := t'], ids, hist)
  {
    hide WriteTo, ScanOk, KeyOf, Seen;
    var sc, t := scans[tid], txns[tid];
    assert t'.startVer == t.startVer;
    forall k | sc.WillRead(k) ensures SameWrite(t'.Buf(sc.coll), sc.own, k) {
      assert SameWrite(t.Buf(sc.coll), sc.own, k);
      if sc.coll == c {
        WriteIsLocal(sch, t.Buf(c), wr, vs, t.startVer, k);
      } else {
        assert t'.Buf(sc.coll) == t.Buf(sc.coll);
      }
    }
    assert ScanAt(sc, t'.Buf(sc.coll), hist(sc.coll), t'.startVer);
  }

  // -- commit

  lemma ApplyPhase(w: World, s: Sys, tid: TxnId, ws: WriteSet, rids: CollId -> map<Key, RID>, s': Sys)
    requires ApplyStep(w, s, tid, ws, rids, s')
    requires AllChains(s.orc.commitVer, s.txns, s.colls, s.hist) && AllTxns(w, s.txns, s.colls.Keys, s.hist)
    requires AllSettled(w, s.colls, []) && HistOk(s.log, s.base, None, s.hist)
    requires Wins(s.log, s.txns[tid]) && s.base <= s.txns[tid].startVer
    requires forall c, k, v: nat :: HasVersion(s.hist(c)(k), v) ==> v <= s.orc.commitVer
    ensures Flying(w, s.txns[tid], s'.phase, s'.colls, s.hist, s.log, s.orc.commitVer + 1)
  {
    hide AllChains, AllTxns, AllSettled, HistOk, ChainsOk, TxnOk, BufferOk, Settled, Ahead, Wins, Covers, Conflicts;
    var t := s.txns[tid];
    forall c | c in t.parts ensures Ahead(w.schemas(c), s'.colls[c], t.Buf(c), s.orc.commitVer + 1, rids(c)) {
      TxnIsOk(w, s.txns, s.colls.Keys, s.hist, tid, c);
      ChainIsOk(s.orc.commitVer, s.txns, s.colls, s.hist, c);
      IsSettled(w, s.colls, [], c);
      ApplyAhead(w, s, t, c, rids(c));
    }
    TxnIsOk(w, s.txns, s.colls.Keys, s.hist, tid, 0);
    WroteIsPart(w, t, s.colls.Keys, s.hist);
  }

  lemma ApplyChains(w: World, s: Sys, tid: TxnId, ws: WriteSet, rids: CollId -> map<Key, RID>, s': Sys)
    requires ApplyStep(w, s, tid, ws, rids, s')
    requires AllChains(s.orc.commitVer, s.txns, s.colls, s.hist) && AllSettled(w, s.colls, [])
    ensures AllChains(s.orc.commitVer, s.txns, s'.colls, s.hist)
    ensures AllSettled(w, s'.colls, s.txns[tid].parts)
    ensures s'.colls.Keys == s.colls.Keys
  {
    forall c | c in s.colls ensures ChainsOk(s.orc.commitVer, s.txns, s'.colls[c], s.hist(c)) {
      DurableIrrelevant(s.orc.commitVer, s.txns, s.colls[c], s.hist(c), s'.colls[c].durable);
    }
  }

  lemma ApplyInv(w: World, s: Sys, tid: TxnId, ws: WriteSet, rids: CollId -> map<Key, RID>, s': Sys)
    requires Inv(w, s) && ApplyStep(w, s, tid, ws, rids, s')
    ensures Inv(w, s')
  {
    hide SnapshotsOk, AllChains, AllTxns, AllSettled, AllScans, LogOk, HistOk, Flying;
    hide ChainsOk, TxnOk, BufferOk, ScanAt, Settled, Ahead;
    StartsBelow(s.orc, s.txns, s.wms, s.base);
    SnapshotIsLive(s.orc, s.txns, s.wms, s.base, tid);
    NoConflictWins(w, s.log, s.orc, s.base, s.txns[tid], ws);
    forall c, k, v: nat | HasVersion(s.hist(c)(k), v) ensures v <= s.orc.commitVer {
      VersionsBelow(w, s.log, s.orc, s.base, None, s.hist, c);
    }
    ApplyPhase(w, s, tid, ws, rids, s');
    ApplyChains(w, s, tid, ws, rids, s');
    HistInFlight(s.log, s.base, CommitRec(s.orc.commitVer + 1, s.txns[tid]), s.hist);
  }

  lemma HistInFlight(log: seq<CommitRec>, base: nat, pub: CommitRec, hist: CollId -> History)
    requires HistOk(log, base, None, hist)
    ensures HistOk(log, base, Some(pub), hist)
  {
    forall c, k, v | HasVersion(hist(c)(k), v) ensures Explained(log, base, Some(pub), c, k, v) {
      assert Explained(log, base, None, c, k, v);
    }
  }

  lemma PublishFlying(w: World, t: Txn, p: Phase, colls: map<CollId, Coll>, hist: CollId -> History,
                      log: seq<CommitRec>, cv: nat,
                      coll: Coll, hist': CollId -> History)
    requires p.Publishing? && p.todo != [] && Flying(w, t, p, colls, hist, log, cv)
    requires forall x, k, v :: HasVersion(hist(x)(k), v) ==> HasVersion(hist'(x)(k), v)
    requires forall k :: t.Wrote(p.todo[0], k) ==> HasVersion(hist'(p.todo[0])(k), cv)
    requires forall x :: x != p.todo[0] ==> hist'(x) == hist(x)
    ensures Flying(w, t, p.(todo := p.todo[1..]), colls[p.todo[0] := coll], hist', log, cv)
  {
    var p' := p.(todo := p.todo[1..]);
    forall c | c in p'.todo ensures Ahead(w.schemas(c), colls[p.todo[0] := coll][c], t.Buf(c), cv, p'.rids(c)) {
      assert c in p.todo && c != p.todo[0];
    }
    forall c, k | c !in p'.todo && t.Wrote(c, k) ensures HasVersion(hist'(c)(k), cv) {
      if c != p.todo[0] { assert c !in p.todo; }
    }
  }

  lemma AllTxnsPush(w: World, txns: map<TxnId, Txn>, ids: set<CollId>, hist: CollId -> History, c: CollId, b: Buffer,
                    cv: nat,
                    rids: map<Key, RID>, hist': CollId -> History)
    requires AllTxns(w, txns, ids, hist) && forall t :: t in txns ==> txns[t].startVer < cv
    requires hist'(c) == PushedHist(hist(c), b, cv, rids) && forall x :: x != c ==> hist'(x) == hist(x)
    ensures AllTxns(w, txns, ids, hist')
  {
    forall t | t in txns ensures TxnOk(w, ids, hist', txns[t]) {
      forall x ensures BufferOk(w.schemas(x), hist'(x), txns[t].startVer, txns[t].Buf(x)) {
        assert BufferOk(w.schemas(x), hist(x), txns[t].startVer, txns[t].Buf(x));
        if x == c { BufferPush(w.schemas(c), hist(c), b, cv, rids, txns[t].startVer, txns[t].Buf(c)); }
      }
    }
  }

  lemma AllScansPush(scans: map<TxnId, Scan>, txns: map<TxnId, Txn>, ids: set<CollId>, hist: CollId -> History,
                     c: CollId, b: Buffer,
                     cv: nat, rids: map<Key, RID>, hist': CollId -> History)
    requires AllScans(scans, txns, ids, hist) && forall t :: t in txns ==> txns[t].startVer < cv
    requires hist'(c) == PushedHist(hist(c), b, cv, rids) && forall x :: x != c ==> hist'(x) == hist(x)
    ensures AllScans(scans, txns, ids, hist')
  {
    forall t | t in scans
      ensures ScanAt(scans[t], txns[t].Buf(scans[t].coll), hist'(scans[t].coll), txns[t].startVer)
    {
      if scans[t].coll == c { ScanPush(scans[t], txns[t].Buf(c), hist(c), txns[t].startVer, b, cv, rids); }
    }
  }

  lemma PublishInv(w: World, s: Sys, s': Sys)
    requires Inv(w, s) && PublishStep(w, s, s')
    ensures Inv(w, s')
  {
    hide SnapshotsOk, AllChains, AllTxns, AllSettled, AllScans, LogOk, HistOk, Flying;
    hide ChainsOk, TxnOk, BufferOk, ScanAt, Settled, Ahead;
    var c, t, cv := s.phase.todo[0], s.txns[s.phase.tid], s.orc.commitVer + 1;
    var b, rids := t.Buf(c), s.phase.rids(c);
    TxnIsOk(w, s.txns, s.colls.Keys, s.hist, s.phase.tid, c);
    ChainIsOk(s.orc.commitVer, s.txns, s.colls, s.hist, c);
    NextIsAhead(w, t, s.phase, s.colls, s.hist, s.log, cv);
    StartsBelow(s.orc, s.txns, s.wms, s.base);
    var coll := Published(s.colls[c], b, cv, rids);
    ChainsPush(s.orc.commitVer, s.txns, s.colls[c], s.hist(c), b, cv, rids);
    AllChainsSet(s.orc.commitVer, s.txns, s.colls, s.hist, c, coll, s'.hist);
    AllTxnsPush(w, s.txns, s.colls.Keys, s.hist, c, b, cv, rids, s'.hist);
    AllScansPush(s.scans, s.txns, s.colls.Keys, s.hist, c, b, cv, rids, s'.hist);
    PublishSettles(w.schemas(c), s.colls[c], b, cv, rids);
    SettleNext(w, s.colls, s.phase.todo, coll);
    NextIsUnpublished(w, t, s.phase, s.colls, s.hist, s.log, cv);
    VersionsBelow(w, s.log, s.orc, s.base, Some(CommitRec(cv, t)), s.hist, c);
    HistPush(s.log, s.base, CommitRec(cv, t), s.hist, c, rids, s'.hist);
    PushedVersions(t, c, s.hist(c), cv, rids, s'.hist(c));
    PublishFlying(w, t, s.phase, s.colls, s.hist, s.log, cv, coll, s'.hist);
    assert s'.colls.Keys == s.colls.Keys;
  }

  lemma FinishInv(w: World, s: Sys, s': Sys)
    requires Inv(w, s) && FinishStep(w, s, s')
    ensures Inv(w, s')
  {
    hide SnapshotsOk, AllChains, AllTxns, AllSettled, AllScans, LogOk, HistOk, Flying;
    hide ChainsOk, TxnOk, BufferOk, ScanAt, Settled, Ahead;
    StartsBelow(s.orc, s.txns, s.wms, s.base);
    var tid := s.phase.tid;
    var t, cv := s.txns[tid], s.orc.commitVer + 1;
    SnapshotIsLive(s.orc, s.txns, s.wms, s.base, tid);
    ReleaseCounts(s.orc, s.txns, s.wms, s.base, tid, s'.orc);
    AllIsPublished(w, t, s.phase, s.colls, s.hist, s.log, cv);
    LogExtended(w, s.log, s.orc, s.base, t, s.phase.ws, cv, s'.orc);
    AllChainsNarrow(s.orc.commitVer, s.txns, s'.orc.commitVer, s'.txns, s.colls, s.hist);
    HistLogged(s.log, s.base, CommitRec(cv, t), s.hist);
    AllScansPut(s.scans, s.txns, s.colls.Keys, s.hist, tid, t);
    AllTxnsLess(w, s.txns, s.colls.Keys, s.hist, tid);
  }

  // -- scans

  lemma ScanOpenInv(w: World, s: Sys, tid: TxnId, c: CollId, s': Sys)
    requires Inv(w, s) && ScanOpenStep(w, s, tid, c, s')
    ensures Inv(w, s')
  {
    hide SnapshotsOk, AllChains, AllTxns, AllSettled, AllScans, LogOk, HistOk, Flying;
    hide ChainsOk, TxnOk, BufferOk, ScanAt, Settled, Ahead;
    TxnIsOk(w, s.txns, s.colls.Keys, s.hist, tid, c);
    ChainIsOk(s.orc.commitVer, s.txns, s.colls, s.hist, c);
    ScanStarts(s.orc.commitVer, s.txns, tid, s.colls[c], s.hist(c), s.txns[tid].Buf(c), w.schemas(c), c);
    AllScansSet(s.scans, s.txns, s.colls.Keys, s.hist, tid, s'.scans[tid]);
  }

  lemma ScanNextInv(w: World, s: Sys, tid: TxnId, s': Sys)
    requires Inv(w, s) && ScanNextStep(w, s, tid, s')
    ensures Inv(w, s')
  {
    hide SnapshotsOk, AllChains, AllTxns, AllSettled, AllScans, LogOk, HistOk, Flying;
    hide ChainsOk, TxnOk, BufferOk, ScanAt, Settled, Ahead;
    var sc, t := s.scans[tid], s.txns[tid];
    ScanHasTxn(s.scans, s.txns, s.colls.Keys, s.hist, tid);
    ChainIsOk(s.orc.commitVer, s.txns, s.colls, s.hist, sc.coll);
    ReadIsSeen(s.orc.commitVer, s.txns, tid, s.colls[sc.coll], s.hist(sc.coll), t.Buf(sc.coll), sc.keys[sc.pos]);
    ScanAdvances(sc, t.Buf(sc.coll), s.hist(sc.coll), t.startVer);
    AllScansSet(s.scans, s.txns, s.colls.Keys, s.hist, tid, s'.scans[tid]);
  }

  lemma ScanCloseInv(w: World, s: Sys, tid: TxnId, s': Sys)
    requires Inv(w, s) && ScanCloseStep(w, s, tid, s')
    ensures Inv(w, s')
  {
    hide SnapshotsOk, AllChains, AllTxns, AllSettled, AllScans, LogOk, HistOk, Flying;
    hide ChainsOk, TxnOk, BufferOk, ScanAt, Settled, Ahead;
    AllScansLess(s.scans, s.txns, s.colls.Keys, s.hist, tid);
  }
}
