/**
 Transactions over many collections sharing one oracle, as a step machine. Reads, buffered
 writes and garbage collection interleave freely with a commit in flight; the steps that
 take the oracle's lock do not.
 */
module Mvcc {
  import opened Common
  import opened Overlay
  import opened CollectionModel
  import opened VersionOracle

  type CollId = nat
  type TxnId = nat
  type History = Key -> Chain

  datatype World = World(hash: Key -> nat, schemas: CollId -> Schema)

  /** A transaction: its snapshot and, per participating collection, its write buffer. */
  datatype Txn = Txn(startVer: nat, bufs: map<CollId, Buffer>, parts: seq<CollId>) {
    function Buf(c: CollId): Buffer { if c in bufs then bufs[c] else NO_WRITES }
    predicate Wrote(c: CollId, k: Key) {
      c in bufs && k in bufs[c].pending && !bufs[c].pending[k].Noop()
    }
  }

  /** The oracle lock is free, or held by a commit that has applied and is publishing. */
  datatype Phase =
    | Idle
    | Publishing(tid: TxnId, ws: WriteSet, rids: CollId -> map<Key, RID>, todo: seq<CollId>)

  /** A natural-order scan that reads one key at a time; `own` is the buffer it was opened over. */
  datatype Scan = Scan(coll: CollId, keys: seq<Key>, pos: nat, out: seq<(Key, Raw)>, own: Buffer) {
    /** The scan will still read `k`. */
    ghost predicate WillRead(k: Key) {
      exists i :: pos <= i < |keys| && keys[i] == k
    }
  }

  datatype CommitRec = CommitRec(cv: nat, txn: Txn)

  datatype Sys = Sys(
    orc: Oracle,
    colls: map<CollId, Coll>,
    txns: map<TxnId, Txn>,
    scans: map<TxnId, Scan>,
    wms: set<nat>,                       // watermarks read by collectors that have not run yet
    phase: Phase,
    // history
    base: nat,                           // commit version at open
    hist: CollId -> History,             // every version since open, never pruned
    log: seq<CommitRec>)

  // ---- what a transaction should see -----------------------------------------

  /** The reference view: the full history at the start version under the transaction's own writes. */
  function Seen(b: Buffer, full: History, startVer: nat): Key -> Option<Raw> {
    k => View(b, full(k), startVer, k)
  }

  /** What the code reads: the pruned overlay under the transaction's own writes. */
  function CurrentDoc(s: Sys, t: Txn, c: CollId, k: Key): Option<Raw>
    requires c in s.colls
  {
    View(t.Buf(c), ChainOf(s.colls[c], k), t.startVer, k)
  }

  // ---- steps ------------------------------------------------------------------

  datatype Write =
    | Ins(doc: Raw)
    | Put(key: Key, newDoc: Raw, replaced: bool)
    | Del(key: Key)

  datatype Step =
    | Begin(tid: TxnId)
    | DoWrite(tid: TxnId, c: CollId, w: Write)
    | End(tid: TxnId)                                       // rollback, read-only commit, refused commit
    | Apply(tid: TxnId, ws: WriteSet, rids: CollId -> map<Key, RID>)
    | Publish
    | Finish
    | ReadWatermark
    | Gc(c: CollId, wm: nat)
    | ScanOpen(tid: TxnId, c: CollId)
    | ScanNext(tid: TxnId)
    | ScanClose(tid: TxnId)
    | Reopen

  /** A transaction can write: it is live and not committing. */
  predicate CanWrite(s: Sys, tid: TxnId) {
    tid in s.txns && !(s.phase.Publishing? && s.phase.tid == tid)
  }

  /** It can be ended or start a scan: it is not in the middle of one either. */
  predicate Free(s: Sys, tid: TxnId) { CanWrite(s, tid) && tid !in s.scans }

  function KeyOf(sch: Schema, w: Write): Key {
    match w case Ins(doc) => sch.keyOf(doc) case Put(k, _, _) => k case Del(k) => k
  }

  function WriteTo(sch: Schema, b: Buffer, w: Write, vs: Key -> Chain, startVer: nat): Buffer {
    match w
    case Ins(doc) =>
      var k := sch.keyOf(doc);
      if View(b, vs(k), startVer, k).Some? then b else CollectionModel.Insert(b, k, doc)
    case Put(k, doc, replaced) => CollectionModel.Replace(b, k, vs(k), startVer, doc, replaced)
    case Del(k) => CollectionModel.Delete(b, k, vs(k), startVer)
  }

  function With(t: Txn, c: CollId, b: Buffer): Txn {
    Txn(t.startVer, t.bufs[c := b], if c in t.bufs then t.parts else t.parts + [c])
  }

  ghost predicate Covers(w: World, t: Txn, ws: WriteSet) {
    && Sorted(ws)
    && (forall c, k :: t.Wrote(c, k) ==> w.hash(k) in ws)
  }

  ghost predicate Placed(t: Txn, rids: CollId -> map<Key, RID>) {
    forall c :: c in t.parts ==> forall k :: k in t.Buf(c).order ==> k in t.Buf(c).pending && k in rids(c)
  }

  ghost function Applied(w: World, c: CollId, coll: Coll, t: Txn, cv: nat,
                         rids: CollId -> map<Key, RID>): Option<Durable>
    requires forall k :: k in t.Buf(c).order ==> k in t.Buf(c).pending && k in rids(c)
  {
    ApplyAll(w.schemas(c), coll.durable, cv, t.Buf(c).pending, t.Buf(c).order, rids(c))
  }

  function Published(coll: Coll, b: Buffer, cv: nat, rids: map<Key, RID>): Coll
    requires forall k :: k in b.order ==> k in b.pending && k in rids
  {
    PublishAll(coll, cv, b.pending, b.order, rids)
  }

  function PushedHist(full: History, b: Buffer, cv: nat, rids: map<Key, RID>): History {
    k => Pushed(full(k), cv, b.pending, b.order, rids, k)
  }

  /** Keys a scan walks: natural order, then the transaction's own keys not yet in it. */
  function Unseen(own: seq<Key>, keys: seq<Key>): seq<Key> {
    if own == [] then []
    else (if own[0] in keys then [] else [own[0]]) + Unseen(own[1..], keys)
  }

  /** A snapshot at the current commit version. */
  ghost predicate BeginStep(w: World, s: Sys, tid: TxnId, s': Sys) {
    && s.phase.Idle? && tid !in s.txns
    && Acquired(s.orc, s'.orc)
    && s' == s.(orc := s'.orc, txns := s.txns[tid := Txn(s.orc.commitVer, map[], [])])
  }

  /**
   Insert, replace or delete into the transaction's own buffer, also in the middle of a scan: then
   of documents the scan is done with, as a multi-document update or delete does.
   */
  ghost predicate DoWriteStep(w: World, s: Sys, tid: TxnId, c: CollId, wr: Write, s': Sys) {
    && CanWrite(s, tid) && c in s.colls
    && (tid in s.scans && s.scans[tid].coll == c ==> !s.scans[tid].WillRead(KeyOf(w.schemas(c), wr)))
    && (wr.Put? ==> w.schemas(c).keyOf(wr.newDoc) == wr.key)
    && var t := s.txns[tid];
       s' == s.(txns := s.txns[tid := With(t, c,
           WriteTo(w.schemas(c), t.Buf(c), wr, k => ChainOf(s.colls[c], k), t.startVer))])
  }

  /** Rollback, read-only commit or refused commit: the snapshot is given back. */
  ghost predicate EndStep(w: World, s: Sys, tid: TxnId, s': Sys) {
    && s.phase.Idle? && Free(s, tid)
    && Released(s.orc, s.txns[tid].startVer, s'.orc)
    && s' == s.(orc := s'.orc, txns := s.txns - {tid})
  }

  /** Conflict check, then the durable apply of every participant under the next version. */
  ghost predicate ApplyStep(w: World, s: Sys, tid: TxnId, ws: WriteSet, rids: CollId -> map<Key, RID>, s': Sys) {
    && s.phase.Idle? && Free(s, tid)
    && var t := s.txns[tid];
       && Covers(w, t, ws) && !Conflicts(s.orc, t.startVer, ws)
       && Placed(t, rids)
       && (forall c :: c in t.parts ==> c in s.colls && Applied(w, c, s.colls[c], t, s.orc.commitVer + 1, rids).Some?)
       && s' == s.(colls := map c | c in s.colls ::
                     if c in t.parts then s.colls[c].(durable :=
                         Applied(w, c, s.colls[c], t, s.orc.commitVer + 1, rids).value)
                     else s.colls[c],
                   phase := Publishing(tid, ws, rids, t.parts))
  }

  /** One participant's versions go on top of their chains. */
  ghost predicate PublishStep(w: World, s: Sys, s': Sys) {
    && s.phase.Publishing? && s.phase.todo != []
    && s.phase.tid in s.txns && s.phase.todo[0] in s.colls
    && var c, b := s.phase.todo[0], s.txns[s.phase.tid].Buf(s.phase.todo[0]);
       && (forall k :: k in b.order ==> k in b.pending && k in s.phase.rids(c))
       && s' == s.(colls := s.colls[c := Published(s.colls[c], b, s.orc.commitVer + 1, s.phase.rids(c))],
                   hist := x => if x == c then PushedHist(s.hist(c), b, s.orc.commitVer + 1, s.phase.rids(c))
                                else s.hist(x),
                   phase := s.phase.(todo := s.phase.todo[1..]))
  }

  /** The commit version advances and the snapshot is given back. */
  ghost predicate FinishStep(w: World, s: Sys, s': Sys) {
    && s.phase.Publishing? && s.phase.todo == [] && s.phase.tid in s.txns
    && var t := s.txns[s.phase.tid];
       && CommittedAt(s.orc, t.startVer, s.phase.ws, s.orc.commitVer + 1, s'.orc)
       && s' == s.(orc := s'.orc, txns := s.txns - {s.phase.tid}, phase := Idle,
                   log := s.log + [CommitRec(s.orc.commitVer + 1, t)])
  }

  /** A collector reads the watermark; it will cut later, without the oracle's lock. */
  ghost predicate ReadWatermarkStep(w: World, s: Sys, s': Sys) {
    s.phase.Idle? && s' == s.(wms := s.wms + {s.orc.minLive})
  }

  /** A collector cuts with a watermark it read at any earlier time. */
  ghost predicate GcStep(w: World, s: Sys, c: CollId, wm: nat, s': Sys) {
    && c in s.colls && wm in s.wms
    && s' == s.(colls := s.colls[c := Collected(s.colls[c], wm)])
  }

  /** A scan copies the natural order once. */
  ghost predicate ScanOpenStep(w: World, s: Sys, tid: TxnId, c: CollId, s': Sys) {
    && Free(s, tid) && c in s.colls
    && var keys := s.colls[c].order;
       s' == s.(scans := s.scans[tid := Scan(c, keys + Unseen(s.txns[tid].Buf(c).order, keys), 0, [],
           s.txns[tid].Buf(c))])
  }

  /** A scan reads one key; anything may happen between two of these. */
  ghost predicate ScanNextStep(w: World, s: Sys, tid: TxnId, s': Sys) {
    && tid in s.scans && tid in s.txns
    && var sc := s.scans[tid];
       && sc.pos < |sc.keys| && sc.coll in s.colls
       && var doc := CurrentDoc(s, s.txns[tid], sc.coll, sc.keys[sc.pos]);
          s' == s.(scans := s.scans[tid := sc.(pos := sc.pos + 1,
                     out := if doc.Some? then sc.out + [(sc.keys[sc.pos], doc.value)] else sc.out)])
  }

  /** A scan ends. */
  ghost predicate ScanCloseStep(w: World, s: Sys, tid: TxnId, s': Sys) {
    tid in s.scans && s' == s.(scans := s.scans - {tid})
  }

  /** The process restarts, possibly while a commit is publishing, and rebuilds every overlay from the durable heaps. */
  ghost predicate ReopenStep(w: World, s: Sys, s': Sys) {
    && s'.orc == Oracle(s'.base, map[], s'.base, [])
    && s'.colls.Keys == s.colls.Keys
    && (forall c :: c in s.colls ==> Rebuilt(w.schemas(c), s.colls[c].durable, s'.colls[c]))
    && (forall c, r :: c in s.colls && r in s.colls[c].durable.heap ==> s.colls[c].durable.heap[r].version <= s'.base)
    && s'.txns == map[] && s'.scans == map[] && s'.wms == {} && s'.phase == Idle && s'.log == []
    && (forall c, k :: s'.hist(c)(k) == if c in s'.colls then ChainOf(s'.colls[c], k) else [])
  }

  ghost predicate Next(w: World, s: Sys, step: Step, s': Sys) {
    match step
    case Begin(tid) => BeginStep(w, s, tid, s')
    case DoWrite(tid, c, wr) => DoWriteStep(w, s, tid, c, wr, s')
    case End(tid) => EndStep(w, s, tid, s')
    case Apply(tid, ws, rids) => ApplyStep(w, s, tid, ws, rids, s')
    case Publish => PublishStep(w, s, s')
    case Finish => FinishStep(w, s, s')
    case ReadWatermark => ReadWatermarkStep(w, s, s')
    case Gc(c, wm) => GcStep(w, s, c, wm, s')
    case ScanOpen(tid, c) => ScanOpenStep(w, s, tid, c, s')
    case ScanNext(tid) => ScanNextStep(w, s, tid, s')
    case ScanClose(tid) => ScanCloseStep(w, s, tid, s')
    case Reopen => ReopenStep(w, s, s')
  }

  /** An empty database: any number of collections with nothing stored. */
  ghost predicate Init(s: Sys) {
    && s.orc == Oracle(0, map[], 0, []) && s.base == 0
    && (forall c :: c in s.colls ==> s.colls[c] == Coll(map[], [], {}, map[], Durable(map[], {}, {})))
    && s.txns == map[] && s.scans == map[] && s.wms == {} && s.phase == Idle && s.log == []
    && (forall c, k :: s.hist(c)(k) == [])
  }

  // ---- invariant ----------------------------------------------------------------

  /** Live transactions holding a snapshot at `v`. */
  ghost function Holders(txns: map<TxnId, Txn>, v: nat): set<TxnId> {
    set t | t in txns && txns[t].startVer == v
  }

  ghost predicate SnapshotsOk(orc: Oracle, txns: map<TxnId, Txn>, wms: set<nat>, base: nat) {
    && Valid(orc)
    && (forall v :: Count(orc.live, v) == |Holders(txns, v)|)
    && (forall wm :: wm in wms ==> wm <= orc.commitVer && forall t :: t in txns ==> wm <= txns[t].startVer)
    && (forall t :: t in txns ==> base <= txns[t].startVer <= orc.commitVer)
    && base <= orc.commitVer
  }

  /** A version some live or future snapshot reads at. */
  ghost predicate Needed(commitVer: nat, txns: map<TxnId, Txn>, v: nat) {
    v >= commitVer || exists t :: t in txns && txns[t].startVer == v
  }

  /** A pruned chain answers every question its history may still be asked. */
  ghost predicate Retains(commitVer: nat, txns: map<TxnId, Txn>, vs: Chain, full: Chain) {
    && (vs == [] <==> full == [])
    && (vs != [] ==> vs[0] == full[0])
    && (forall v :: Needed(commitVer, txns, v) ==> VersionAt(vs, v) == VersionAt(full, v))
  }

  ghost predicate ChainsOk(commitVer: nat, txns: map<TxnId, Txn>, coll: Coll, full: History) {
    && OrderOk(coll)
    && (forall k :: Retains(commitVer, txns, ChainOf(coll, k), full(k)))
  }

  /** Buffered removes name exactly what the snapshot holds. */
  ghost predicate BufferOk(sch: Schema, full: History, startVer: nat, b: Buffer) {
    && b.Valid()
    && (forall k :: k in b.pending ==>
          && b.pending[k].remove == Superseded(full(k), startVer)
          && (b.pending[k].insertDoc.Some? ==> sch.keyOf(b.pending[k].insertDoc.value) == k))
  }

  ghost predicate TxnOk(w: World, colls: set<CollId>, hist: CollId -> History, t: Txn) {
    && Distinct(t.parts)
    && (forall c :: c in t.parts <==> c in t.bufs)
    && (forall c :: c in t.parts ==> c in colls)
    && (forall c :: BufferOk(w.schemas(c), hist(c), t.startVer, t.Buf(c)))
  }

  /** Heap, indexes and RID ownership are exactly the live chain heads. */
  ghost predicate Settled(sch: Schema, coll: Coll) {
    && Mirrors(sch, coll.durable, Live(coll))
    && Owns(coll.ridOwner, Live(coll))
    && UniqueKeys(sch, coll.durable.sec)
  }

  /** The durable side is ahead of the overlay by exactly the commit in flight. */
  ghost predicate Ahead(sch: Schema, coll: Coll, b: Buffer, cv: nat, rids: map<Key, RID>) {
    && (forall k :: k in b.order ==> k in b.pending && k in rids)
    && AllFit(sch, b.pending, b.order, Live(coll))
    && Mirrors(sch, coll.durable, HeadsAfter(Live(coll), cv, b.pending, b.order, rids))
    && Owns(OwnersAfter(coll.ridOwner, b.pending, b.order, rids), HeadsAfter(Live(coll), cv, b.pending, b.order, rids))
    && UniqueKeys(sch, coll.durable.sec)
  }

  ghost predicate DisjointWrites(a: Txn, b: Txn) {
    forall c, k :: !(a.Wrote(c, k) && b.Wrote(c, k))
  }

  /** The committed-since index still holds this commit with all its hashes. */
  ghost predicate Indexed(w: World, recent: seq<Committed>, r: CommitRec) {
    exists i :: 0 <= i < |recent| && recent[i].commitVer == r.cv && Covers(w, r.txn, recent[i].writeSet)
  }

  /** The commits since open: increasing versions, and first committer wins. */
  ghost predicate LogOk(w: World, log: seq<CommitRec>, orc: Oracle, base: nat) {
    && (forall i :: 0 <= i < |log| ==> base < log[i].cv <= orc.commitVer)
    && (forall i, j :: 0 <= i < j < |log| ==> log[i].cv < log[j].cv)
    && (forall i, j :: 0 <= i < j < |log| && log[j].txn.startVer < log[i].cv ==> DisjointWrites(log[i].txn, log[j].txn))
    && (forall i :: 0 <= i < |log| && log[i].cv > orc.minLive ==> Indexed(w, orc.recent, log[i]))
  }

  /** The commit in flight won against every commit after its snapshot. */
  ghost predicate Wins(log: seq<CommitRec>, t: Txn) {
    forall i :: 0 <= i < |log| && log[i].cv > t.startVer ==> DisjointWrites(log[i].txn, t)
  }

  ghost predicate HasVersion(vs: Chain, v: nat) {
    exists i :: 0 <= i < |vs| && vs[i].commitVer == v
  }

  ghost predicate NewestFirst(vs: Chain) {
    forall i, j :: 0 <= i < j < |vs| ==> vs[i].commitVer > vs[j].commitVer
  }

  /** Every version of a document is from before open, from a logged commit, or from the commit in flight. */
  ghost predicate Explained(log: seq<CommitRec>, base: nat, pub: Option<CommitRec>, c: CollId, k: Key, v: nat) {
    || v <= base
    || (exists i :: 0 <= i < |log| && log[i].cv == v && log[i].txn.Wrote(c, k))
    || (pub.Some? && v == pub.value.cv && pub.value.txn.Wrote(c, k))
  }

  ghost predicate HistOk(log: seq<CommitRec>, base: nat, pub: Option<CommitRec>, hist: CollId -> History) {
    && (forall c, k, v :: HasVersion(hist(c)(k), v) ==> Explained(log, base, pub, c, k, v))
    && (forall i, c, k :: 0 <= i < |log| && log[i].txn.Wrote(c, k) ==> HasVersion(hist(c)(k), log[i].cv))
    && (forall c, k :: NewestFirst(hist(c)(k)))
  }

  /** The documents `view` shows along `keys`. */
  function Listing(keys: seq<Key>, view: Key -> Option<Raw>): seq<(Key, Raw)> {
    if keys == [] then []
    else
      var k := keys[|keys| - 1];
      Listing(keys[..|keys| - 1], view) + if view(k).Some? then [(k, view(k).value)] else []
  }

  /** A scan has listed the keys before its position, and its keys cover all there is to see. */
  ghost predicate ScanOk(sc: Scan, view: Key -> Option<Raw>) {
    && Distinct(sc.keys) && sc.pos <= |sc.keys|
    && (forall k :: view(k).Some? ==> k in sc.keys)
    && sc.out == Listing(sc.keys[..sc.pos], view)
  }

  ghost predicate SameWrite(a: Buffer, b: Buffer, k: Key) {
    (k in a.pending <==> k in b.pending) && (k in a.pending ==> a.pending[k] == b.pending[k])
  }

  /** A scan lists what its transaction saw when it was opened; nothing it will still read has been written since. */
  ghost predicate ScanAt(sc: Scan, b: Buffer, full: History, startVer: nat) {
    ScanOk(sc, Seen(sc.own, full, startVer)) && forall k :: sc.WillRead(k) ==> SameWrite(b, sc.own, k)
  }

  function Todo(p: Phase): seq<CollId> {
    if p.Publishing? then p.todo else []
  }

  function InFlight(commitVer: nat, txns: map<TxnId, Txn>, p: Phase): Option<CommitRec> {
    if p.Publishing? && p.tid in txns then Some(CommitRec(commitVer + 1, txns[p.tid])) else None
  }

  ghost predicate AllChains(commitVer: nat, txns: map<TxnId, Txn>, colls: map<CollId, Coll>, hist: CollId -> History) {
    forall c :: c in colls ==> ChainsOk(commitVer, txns, colls[c], hist(c))
  }

  ghost predicate AllTxns(w: World, txns: map<TxnId, Txn>, ids: set<CollId>, hist: CollId -> History) {
    forall t :: t in txns ==> TxnOk(w, ids, hist, txns[t])
  }

  ghost predicate AllSettled(w: World, colls: map<CollId, Coll>, todo: seq<CollId>) {
    forall c :: c in colls && c !in todo ==> Settled(w.schemas(c), colls[c])
  }

  ghost predicate AllScans(scans: map<TxnId, Scan>, txns: map<TxnId, Txn>, ids: set<CollId>, hist: CollId -> History) {
    forall t :: t in scans ==>
      && t in txns && scans[t].coll in ids
      && ScanAt(scans[t], txns[t].Buf(scans[t].coll), hist(scans[t].coll), txns[t].startVer)
  }

  /** The commit in flight: it won, its unpublished participants are ahead, its published versions are in history. */
  ghost predicate Flying(w: World, t: Txn, p: Phase, colls: map<CollId, Coll>, hist: CollId -> History,
                         log: seq<CommitRec>, cv: nat)
    requires p.Publishing?
  {
    && Covers(w, t, p.ws) && Wins(log, t)
    && Distinct(p.todo)
    && (forall c :: c in p.todo ==> c in t.parts && c in colls)
    && (forall c :: c in p.todo ==> Ahead(w.schemas(c), colls[c], t.Buf(c), cv, p.rids(c)))
    && (forall c, k :: c !in p.todo && t.Wrote(c, k) ==> HasVersion(hist(c)(k), cv))
    && (forall c, k :: c in p.todo ==> !HasVersion(hist(c)(k), cv))
  }

  ghost predicate PhaseOk(w: World, s: Sys) {
    s.phase.Publishing? ==>
      && s.phase.tid in s.txns && s.phase.tid !in s.scans
      && Flying(w, s.txns[s.phase.tid], s.phase, s.colls, s.hist, s.log, s.orc.commitVer + 1)
  }

  ghost predicate Inv(w: World, s: Sys) {
    && SnapshotsOk(s.orc, s.txns, s.wms, s.base)
    && AllChains(s.orc.commitVer, s.txns, s.colls, s.hist)
    && AllTxns(w, s.txns, s.colls.Keys, s.hist)
    && AllSettled(w, s.colls, Todo(s.phase))
    && PhaseOk(w, s)
    && LogOk(w, s.log, s.orc, s.base)
    && HistOk(s.log, s.base, InFlight(s.orc.commitVer, s.txns, s.phase), s.hist)
    && AllScans(s.scans, s.txns, s.colls.Keys, s.hist)
  }
}
