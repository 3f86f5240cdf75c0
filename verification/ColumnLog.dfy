/**
 The column store as one line of versioned rows: what inserts, updates, deletes and whole
 commits do to it, and the proof that at every snapshot its visible rows are exactly the
 documents the version history shows.
 */
module ColumnLog {
  import opened Common
  import opened Overlay
  import opened CollectionModel

  type StoreKey = seq<byte>
  type History = Key -> Chain

  /** One row: a document version, the commit it appeared at, and the commit that retired it (0 while live). */
  datatype Row = Row(doc: Raw, write: nat, del: nat)

  /** All rows by RID, and the RID holding each identity's latest row. */
  datatype Log = Log(rows: seq<Row>, live: map<StoreKey, nat>)

  const EMPTY_LOG := Log([], map[])

  predicate Visible(r: Row, snap: nat) {
    r.write <= snap && (r.del == 0 || r.del > snap)
  }

  function Tombstone(rows: seq<Row>, rid: nat, ver: nat): seq<Row> {
    if rid < |rows| && rows[rid].del == 0 then rows[rid := rows[rid].(del := ver)] else rows
  }

  /** `key` is the document's identity key, empty when it has none. */
  function InsertRow(log: Log, key: StoreKey, doc: Raw, ver: nat): Log {
    Log(log.rows + [Row(doc, ver, 0)], if key != [] then log.live[key := |log.rows|] else log.live)
  }

  function UpdateRow(log: Log, oldKey: StoreKey, key: StoreKey, doc: Raw, ver: nat): Log {
    InsertRow(if oldKey in log.live then log.(rows := Tombstone(log.rows, log.live[oldKey], ver))
              else log, key, doc, ver)
  }

  function DeleteRow(log: Log, key: StoreKey, ver: nat): Log {
    if key in log.live then Log(Tombstone(log.rows, log.live[key], ver), log.live - {key}) else log
  }

  function InsertAll(idKey: Raw -> StoreKey, log: Log, docs: seq<Raw>, ver: nat): Log {
    if docs == [] then log
    else
      var d := docs[|docs| - 1];
      InsertRow(InsertAll(idKey, log, docs[..|docs| - 1], ver), idKey(d), d, ver)
  }

  // ---- change records ---------------------------------------------------------------

  datatype ChangeKind = Inserted | Updated | Replaced | Deleted

  /** One document change of a commit: its post-image and its pre-image. */
  datatype Change = Change(kind: ChangeKind, doc: Option<Raw>, before: Option<Raw>)

  function RecordOf(op: PendingOp): (c: Change)
    ensures c.kind.Inserted? ==> c.doc.Some?
    ensures c.kind.Updated? || c.kind.Replaced? ==> c.doc.Some? && c.before.Some?
    ensures c.kind.Deleted? && !op.Noop() ==> c.before.Some?
  {
    var before := if op.remove.Some? then Some(op.remove.value.doc) else None;
    var kind :=
      if op.insertDoc.Some? then (if op.remove.None? then Inserted else if op.replaced then Replaced else Updated)
      else Deleted;
    Change(kind, op.insertDoc, before)
  }

  /** A record has the new document and the one it supersedes, and its kind tells which of them there are. */
  lemma KindsMean(op: PendingOp)
    ensures var c := RecordOf(op);
            && c.doc == op.insertDoc
            && c.before == (if op.remove.Some? then Some(op.remove.value.doc) else None)
            && (c.kind.Inserted? <==> c.doc.Some? && c.before.None?)
            && (c.kind.Deleted? <==> c.doc.None?)
            && (c.kind.Replaced? <==> c.doc.Some? && c.before.Some? && op.replaced)
            && (c.kind.Updated? <==> c.doc.Some? && c.before.Some? && !op.replaced)
  {}

  /** The records of a commit, in first-write order; an operation that cancelled out leaves none. */
  function ChangeRecords(pending: map<Key, PendingOp>, order: seq<Key>): seq<Change>
    requires forall k :: k in order ==> k in pending
  {
    if order == [] then []
    else
      var op := pending[order[|order| - 1]];
      ChangeRecords(pending, order[..|order| - 1]) + if op.Noop() then [] else [RecordOf(op)]
  }

  method ChangeRecordsLoop(pending: map<Key, PendingOp>, order: seq<Key>) returns (recs: seq<Change>)
    requires forall k :: k in order ==> k in pending
    ensures recs == ChangeRecords(pending, order)
  {
    recs := [];
    for i := 0 to |order|
      invariant recs == ChangeRecords(pending, order[..i])
    {
      assert order[..i + 1][..i] == order[..i];
      if !pending[order[i]].Noop() {
        recs := recs + [RecordOf(pending[order[i]])];
      }
    }
    assert order[..|order|] == order;
  }

  function MaintainOne(idKey: Raw -> StoreKey, log: Log, c: Change, cv: nat): Log {
    match c
    case Change(Inserted, Some(d), _) => InsertRow(log, idKey(d), d, cv)
    case Change(Updated, Some(d), Some(b)) => UpdateRow(log, idKey(b), idKey(d), d, cv)
    case Change(Replaced, Some(d), Some(b)) => UpdateRow(log, idKey(b), idKey(d), d, cv)
    case Change(Deleted, _, Some(b)) => DeleteRow(log, idKey(b), cv)
    case _ => log
  }

  function Maintain(idKey: Raw -> StoreKey, log: Log, recs: seq<Change>, cv: nat): Log {
    if recs == [] then log
    else MaintainOne(idKey, Maintain(idKey, log, recs[..|recs| - 1], cv), recs[|recs| - 1], cv)
  }

  /** One buffered operation's effect on the rows. */
  function MaintainOp(idKey: Raw -> StoreKey, log: Log, op: PendingOp, cv: nat): Log {
    if op.Noop() then log else MaintainOne(idKey, log, RecordOf(op), cv)
  }

  function MaintainOps(idKey: Raw -> StoreKey, log: Log, pending: map<Key, PendingOp>, order: seq<Key>, cv: nat): Log
    requires forall k :: k in order ==> k in pending
  {
    if order == [] then log
    else MaintainOp(idKey, MaintainOps(idKey, log, pending, order[..|order| - 1], cv), pending[order[|order| - 1]], cv)
  }

  /** Applying a commit's change records is applying its operations. */
  lemma {:induction false} RecordsApply(idKey: Raw -> StoreKey, log: Log, pending: map<Key, PendingOp>, order: seq<Key>,
                                        cv: nat)
    requires forall k :: k in order ==> k in pending
    ensures Maintain(idKey, log, ChangeRecords(pending, order), cv) == MaintainOps(idKey, log, pending, order, cv)
  {
    hide MaintainOne, RecordOf;
    if order != [] {
      var head, op := order[..|order| - 1], pending[order[|order| - 1]];
      RecordsApply(idKey, log, pending, head, cv);
      if !op.Noop() {
        var recs := ChangeRecords(pending, order);
        assert recs[..|recs| - 1] == ChangeRecords(pending, head);
      } else {
        assert ChangeRecords(pending, order) == ChangeRecords(pending, head);
      }
    }
  }

  // ---- rows against history -----------------------------------------------------------

  function HeadDoc(vs: Chain): Option<Raw> {
    if vs == [] then None else vs[0].doc
  }

  /** At `snap` the visible rows are one for each document the history shows there, and no others. */
  ghost predicate Shows(sch: Schema, full: History, rows: seq<Row>, snap: nat) {
    && (forall i :: 0 <= i < |rows| && Visible(rows[i], snap)
                    ==> DocAt(full(sch.keyOf(rows[i].doc)), snap) == Some(rows[i].doc))
    && (forall k :: DocAt(full(k), snap).Some?
                    ==> exists i :: 0 <= i < |rows| && Visible(rows[i], snap) && sch.keyOf(rows[i].doc) == k)
    && (forall i, j :: 0 <= i < j < |rows| && Visible(rows[i], snap) && Visible(rows[j], snap)
                       ==> sch.keyOf(rows[i].doc) != sch.keyOf(rows[j].doc))
  }

  /** Identity keys tell the documents of `ds` apart, and each has one. */
  ghost predicate Injective(sch: Schema, idKey: Raw -> StoreKey, ds: iset<Raw>) {
    && (forall d :: d in ds ==> idKey(d) != [])
    && (forall d, e :: d in ds && e in ds && idKey(d) == idKey(e) ==> sch.keyOf(d) == sch.keyOf(e))
  }

  /** Every live document has its live row. */
  ghost predicate Kept(idKey: Raw -> StoreKey, full: History, log: Log) {
    forall k :: HeadDoc(full(k)).Some? ==>
      var d := HeadDoc(full(k)).value;
      idKey(d) in log.live && log.live[idKey(d)] < |log.rows| && log.rows[log.live[idKey(d)]].del == 0
      && log.rows[log.live[idKey(d)]].doc == d
  }

  /** Every live row is its document's latest. */
  ghost predicate Justified(sch: Schema, idKey: Raw -> StoreKey, full: History, log: Log) {
    forall i :: 0 <= i < |log.rows| && log.rows[i].del == 0 ==>
      var d := log.rows[i].doc;
      HeadDoc(full(sch.keyOf(d))) == Some(d) && idKey(d) in log.live && log.live[idKey(d)] == i
  }

  ghost predicate Stamped(ds: iset<Raw>, full: History, rows: seq<Row>, lim: nat) {
    && (forall i :: 0 <= i < |rows| ==> rows[i].write <= lim && rows[i].del <= lim)
    && (forall k, i :: 0 <= i < |full(k)| ==> full(k)[i].commitVer <= lim)
    && (forall k :: HeadDoc(full(k)).Some? ==> HeadDoc(full(k)).value in ds)
  }

  ghost predicate KeysOk(sch: Schema, full: History) {
    forall k :: HeadDoc(full(k)).Some? ==> sch.keyOf(HeadDoc(full(k)).value) == k
  }

  ghost predicate ShownBelow(sch: Schema, full: History, rows: seq<Row>, base: nat, lim: nat) {
    forall snap: nat :: base <= snap < lim ==> Shows(sch, full, rows, snap)
  }

  /** What holds between commits, and between two operations of the commit at `lim`. */
  ghost predicate Tracks(sch: Schema, idKey: Raw -> StoreKey, ds: iset<Raw>, full: History, log: Log, base: nat,
                         lim: nat) {
    && Kept(idKey, full, log)
    && Justified(sch, idKey, full, log)
    && Stamped(ds, full, log.rows, lim)
    && KeysOk(sch, full)
    && ShownBelow(sch, full, log.rows, base, lim)
  }

  /** From the last commit on, the live rows are what a snapshot sees. */
  lemma LatestShows(sch: Schema, idKey: Raw -> StoreKey, ds: iset<Raw>, full: History, log: Log, lim: nat, snap: nat)
    requires Kept(idKey, full, log) && Justified(sch, idKey, full, log) && Stamped(ds, full, log.rows, lim)
             && KeysOk(sch, full)
    requires lim <= snap
    ensures Shows(sch, full, log.rows, snap)
  {
    var rows := log.rows;
    forall k ensures DocAt(full(k), snap) == HeadDoc(full(k)) {
      if full(k) != [] { FirstAtIs(full(k), snap, 0); }
    }
    forall i | 0 <= i < |rows| ensures Visible(rows[i], snap) <==> rows[i].del == 0 {}
    forall k | DocAt(full(k), snap).Some?
        ensures exists i :: 0 <= i < |rows| && Visible(rows[i], snap) && sch.keyOf(rows[i].doc) == k {
      var i := log.live[idKey(HeadDoc(full(k)).value)];
      assert Visible(rows[i], snap) && sch.keyOf(rows[i].doc) == k;
    }
  }

  /** Tracking extends to any later limit: nothing is stamped in between. */
  lemma Advance(sch: Schema, idKey: Raw -> StoreKey, ds: iset<Raw>, full: History, log: Log, base: nat, lim: nat,
                lim': nat)
    requires Tracks(sch, idKey, ds, full, log, base, lim) && lim <= lim'
    ensures Tracks(sch, idKey, ds, full, log, base, lim')
  {
    hide Shows, Kept, Justified, KeysOk;
    forall snap: nat | base <= snap < lim' ensures Shows(sch, full, log.rows, snap) {
      if lim <= snap { LatestShows(sch, idKey, ds, full, log, lim, snap); }
    }
  }

  /** While tracking holds, every snapshot from the build on is answered exactly. */
  lemma TracksShows(sch: Schema, idKey: Raw -> StoreKey, ds: iset<Raw>, full: History, log: Log, base: nat, lim: nat,
                    snap: nat)
    requires Tracks(sch, idKey, ds, full, log, base, lim) && base <= snap
    ensures Shows(sch, full, log.rows, snap)
  {
    hide Shows, Kept, Justified, KeysOk, Stamped;
    if lim <= snap { LatestShows(sch, idKey, ds, full, log, lim, snap); }
  }

  // ---- one operation -------------------------------------------------------------------

  /** An effective operation names its key's live document, if there is one. */
  ghost predicate FitsHead(sch: Schema, ds: iset<Raw>, k: Key, op: PendingOp, vs: Chain) {
    !op.Noop() ==>
    && (op.remove.Some? <==> HeadDoc(vs).Some?)
    && (op.remove.Some? ==> HeadDoc(vs) == Some(op.remove.value.doc))
    && (op.insertDoc.Some? ==> sch.keyOf(op.insertDoc.value) == k && op.insertDoc.value in ds)
  }

  function PushedOne(full: History, k: Key, op: PendingOp, cv: nat, rid: RID): History {
    x => if x == k && !op.Noop() then [NewVersion(op, cv, rid)] + full(k) else full(x)
  }

  /** The row an operation retires and the one it appends. */
  function Evolved(rows: seq<Row>, retired: Option<nat>, added: Option<Raw>, cv: nat): seq<Row>
    requires retired.Some? ==> retired.value < |rows|
  {
    (if retired.Some? then rows[retired.value := rows[retired.value].(del := cv)] else rows)
    + (if added.Some? then [Row(added.value, cv, 0)] else [])
  }

  /** The live row of the document an operation supersedes. */
  function RetiredBy(idKey: Raw -> StoreKey, log: Log, op: PendingOp): Option<nat> {
    if op.remove.Some? && idKey(op.remove.value.doc) in log.live then Some(log.live[idKey(op.remove.value.doc)])
    else None
  }

  ghost predicate OpReady(sch: Schema, idKey: Raw -> StoreKey, ds: iset<Raw>, full: History, log: Log, k: Key,
                          op: PendingOp, cv: nat) {
    && Kept(idKey, full, log) && Justified(sch, idKey, full, log) && Stamped(ds, full, log.rows, cv)
       && KeysOk(sch, full)
    && Injective(sch, idKey, ds) && FitsHead(sch, ds, k, op, full(k)) && !op.Noop() && cv > 0
  }

  lemma OpRows(sch: Schema, idKey: Raw -> StoreKey, ds: iset<Raw>, full: History, log: Log, k: Key, op: PendingOp,
               cv: nat)
    requires OpReady(sch, idKey, ds, full, log, k, op, cv)
    ensures op.remove.Some? ==> RetiredBy(idKey, log, op).Some? && RetiredBy(idKey, log, op).value < |log.rows|
                                && log.rows[RetiredBy(idKey, log, op).value].del == 0
                                && log.rows[RetiredBy(idKey, log, op).value].doc == op.remove.value.doc
    ensures MaintainOp(idKey, log, op, cv).rows == Evolved(log.rows, RetiredBy(idKey, log, op), op.insertDoc, cv)
  {
    hide Justified, Stamped, KeysOk;
  }

  lemma OpKept(sch: Schema, idKey: Raw -> StoreKey, ds: iset<Raw>, full: History, log: Log, k: Key, op: PendingOp,
               cv: nat, rid: RID)
    requires OpReady(sch, idKey, ds, full, log, k, op, cv)
    ensures Kept(idKey, PushedOne(full, k, op, cv, rid), MaintainOp(idKey, log, op, cv))
    ensures KeysOk(sch, PushedOne(full, k, op, cv, rid))
  {
    OpRows(sch, idKey, ds, full, log, k, op, cv);
    hide MaintainOne, RecordOf;
    var full', log' := PushedOne(full, k, op, cv, rid), MaintainOp(idKey, log, op, cv);
    OpLive(idKey, log, op, cv);
    forall x | HeadDoc(full'(x)).Some?
      ensures var d := HeadDoc(full'(x)).value;
              idKey(d) in log'.live && log'.live[idKey(d)] < |log'.rows| && log'.rows[log'.live[idKey(d)]].del == 0
              && log'.rows[log'.live[idKey(d)]].doc == d && sch.keyOf(d) == x
    {
      var d := HeadDoc(full'(x)).value;
      if x != k {
        assert idKey(d) in log.live;
        if op.remove.Some? { assert idKey(op.remove.value.doc) != idKey(d); }
        assert log.live[idKey(d)] != (if op.remove.Some? then RetiredBy(idKey, log, op).value else |log.rows|);
      }
    }
  }

  lemma OpLive(idKey: Raw -> StoreKey, log: Log, op: PendingOp, cv: nat)
    requires !op.Noop() && (op.insertDoc.Some? ==> idKey(op.insertDoc.value) != [])
    ensures var live := MaintainOp(idKey, log, op, cv).live;
            live == if op.insertDoc.Some? then log.live[idKey(op.insertDoc.value) := |log.rows|]
                    else log.live - {idKey(op.remove.value.doc)}
  {}

  lemma OpJustified(sch: Schema, idKey: Raw -> StoreKey, ds: iset<Raw>, full: History, log: Log, k: Key, op: PendingOp,
                    cv: nat, rid: RID)
    requires OpReady(sch, idKey, ds, full, log, k, op, cv)
    ensures Justified(sch, idKey, PushedOne(full, k, op, cv, rid), MaintainOp(idKey, log, op, cv))
  {
    OpRows(sch, idKey, ds, full, log, k, op, cv);
    OpLive(idKey, log, op, cv);
    hide MaintainOne, RecordOf, Stamped;
    var full', log' := PushedOne(full, k, op, cv, rid), MaintainOp(idKey, log, op, cv);
    forall i | 0 <= i < |log'.rows| && log'.rows[i].del == 0
      ensures var d := log'.rows[i].doc;
              HeadDoc(full'(sch.keyOf(d))) == Some(d) && idKey(d) in log'.live && log'.live[idKey(d)] == i
    {
      var d := log'.rows[i].doc;
      if i < |log.rows| {
        assert log.rows[i].del == 0 && log.rows[i].doc == d;
        assert HeadDoc(full(sch.keyOf(d))) == Some(d);
      }
    }
  }

  lemma OpStamped(sch: Schema, idKey: Raw -> StoreKey, ds: iset<Raw>, full: History, log: Log, k: Key, op: PendingOp,
                  cv: nat, rid: RID)
    requires OpReady(sch, idKey, ds, full, log, k, op, cv)
    ensures Stamped(ds, PushedOne(full, k, op, cv, rid), MaintainOp(idKey, log, op, cv).rows, cv)
  {
    OpRows(sch, idKey, ds, full, log, k, op, cv);
    hide MaintainOne, RecordOf, Justified, Kept;
  }

  lemma PushedBelow(full: History, k: Key, op: PendingOp, cv: nat, rid: RID, snap: nat, x: Key)
    requires snap < cv
    ensures DocAt(PushedOne(full, k, op, cv, rid)(x), snap) == DocAt(full(x), snap)
  {
    PushKeepsReads(NewVersion(op, cv, rid), full(k), snap);
  }

  lemma EvolvedBelow(rows: seq<Row>, retired: Option<nat>, added: Option<Raw>, cv: nat, snap: nat, i: nat)
    requires snap < cv && (retired.Some? ==> retired.value < |rows| && rows[retired.value].del == 0)
    ensures i < |Evolved(rows, retired, added, cv)| ==>
              var r := Evolved(rows, retired, added, cv)[i];
              if i < |rows| then r.doc == rows[i].doc && Visible(r, snap) == Visible(rows[i], snap)
              else !Visible(r, snap)
    ensures |rows| <= |Evolved(rows, retired, added, cv)|
  {}

  /** An operation at `cv` changes nothing a snapshot below `cv` can see. */
  lemma OpShows(sch: Schema, full: History, rows: seq<Row>, k: Key, op: PendingOp, cv: nat, rid: RID,
                retired: Option<nat>, snap: nat)
    requires snap < cv && Shows(sch, full, rows, snap)
    requires retired.Some? ==> retired.value < |rows| && rows[retired.value].del == 0
    ensures Shows(sch, PushedOne(full, k, op, cv, rid), Evolved(rows, retired, op.insertDoc, cv), snap)
  {
    hide DocAt, Evolved, Visible, PushedOne;
    var full', rows' := PushedOne(full, k, op, cv, rid), Evolved(rows, retired, op.insertDoc, cv);
    forall x ensures DocAt(full'(x), snap) == DocAt(full(x), snap) {
      PushedBelow(full, k, op, cv, rid, snap, x);
    }
    forall i: nat | i < |rows'|
      ensures if i < |rows| then rows'[i].doc == rows[i].doc && Visible(rows'[i], snap) == Visible(rows[i], snap)
              else !Visible(rows'[i], snap)
    {
      EvolvedBelow(rows, retired, op.insertDoc, cv, snap, i);
    }
    EvolvedBelow(rows, retired, op.insertDoc, cv, snap, 0);
    forall x | DocAt(full'(x), snap).Some?
        ensures exists i :: 0 <= i < |rows'| && Visible(rows'[i], snap) && sch.keyOf(rows'[i].doc) == x {
      var i :| 0 <= i < |rows| && Visible(rows[i], snap) && sch.keyOf(rows[i].doc) == x;
      assert Visible(rows'[i], snap);
    }
  }

  /** One operation of the commit at `cv` keeps rows and history in step. */
  lemma OpTracks(sch: Schema, idKey: Raw -> StoreKey, ds: iset<Raw>, full: History, log: Log, base: nat, k: Key,
                 op: PendingOp, cv: nat, rid: RID)
    requires Tracks(sch, idKey, ds, full, log, base, cv) && Injective(sch, idKey, ds) && cv > 0
    requires FitsHead(sch, ds, k, op, full(k))
    ensures Tracks(sch, idKey, ds, PushedOne(full, k, op, cv, rid), MaintainOp(idKey, log, op, cv), base, cv)
  {
    hide Kept, Justified, Stamped, KeysOk, Shows, Injective, MaintainOne, RecordOf, FitsHead, Evolved;
    if op.Noop() {
      SameHistory(sch, idKey, ds, full, PushedOne(full, k, op, cv, rid), log, base, cv);
    } else {
      OpRows(sch, idKey, ds, full, log, k, op, cv);
      OpKept(sch, idKey, ds, full, log, k, op, cv, rid);
      OpJustified(sch, idKey, ds, full, log, k, op, cv, rid);
      OpStamped(sch, idKey, ds, full, log, k, op, cv, rid);
      forall snap: nat | base <= snap < cv
          ensures Shows(sch, PushedOne(full, k, op, cv, rid), MaintainOp(idKey, log, op, cv).rows, snap) {
        OpShows(sch, full, log.rows, k, op, cv, rid, RetiredBy(idKey, log, op), snap);
      }
    }
  }

  /** Tracking depends only on what the history says of each key. */
  lemma SameHistory(sch: Schema, idKey: Raw -> StoreKey, ds: iset<Raw>, full: History, full': History, log: Log,
                    base: nat, lim: nat)
    requires Tracks(sch, idKey, ds, full, log, base, lim) && forall k :: full'(k) == full(k)
    ensures Tracks(sch, idKey, ds, full', log, base, lim)
  {
    forall snap: nat | base <= snap < lim ensures Shows(sch, full', log.rows, snap) {
      assert Shows(sch, full, log.rows, snap);
    }
  }

  // ---- whole commits ----------------------------------------------------------------------

  ghost predicate FitsAll(sch: Schema, ds: iset<Raw>, full: History, pending: map<Key, PendingOp>, order: seq<Key>,
                          rids: map<Key, RID>) {
    && Distinct(order)
    && (forall k :: k in order ==> k in pending && k in rids && FitsHead(sch, ds, k, pending[k], full(k)))
  }

  function PushedAll(full: History, cv: nat, pending: map<Key, PendingOp>, order: seq<Key>,
                     rids: map<Key, RID>): History {
    k => Pushed(full(k), cv, pending, order, rids, k)
  }

  lemma PushedStep(full: History, cv: nat, pending: map<Key, PendingOp>, order: seq<Key>, rids: map<Key, RID>)
    requires order != [] && Distinct(order) && forall k :: k in order ==> k in pending && k in rids
    ensures var last := order[|order| - 1];
            var before := PushedAll(full, cv, pending, order[..|order| - 1], rids);
            && before(last) == full(last)
            && forall k :: PushedAll(full, cv, pending, order, rids)(k)
                           == PushedOne(before, last, pending[last], cv, rids[last])(k)
  {
    var last := order[|order| - 1];
    assert order == order[..|order| - 1] + [last];
    assert last !in order[..|order| - 1];
    var before := PushedAll(full, cv, pending, order[..|order| - 1], rids);
    assert before(last) == full(last);
    forall k ensures PushedAll(full, cv, pending, order, rids)(k)
        == PushedOne(before, last, pending[last], cv, rids[last])(k) {
      assert k in order <==> k == last || k in order[..|order| - 1];
      var all, one := PushedAll(full, cv, pending, order, rids), PushedOne(before, last, pending[last], cv, rids[last]);
      if k == last {
        assert all(k) == if pending[k].Noop() then full(k) else [NewVersion(pending[k], cv, rids[k])] + full(k);
        assert one(k) == if pending[k].Noop() then before(k) else [NewVersion(pending[k], cv, rids[k])] + before(k);
      } else {
        assert one(k) == before(k);
        assert before(k) == Pushed(full(k), cv, pending, order[..|order| - 1], rids, k);
        assert all(k) == Pushed(full(k), cv, pending, order, rids, k);
      }
    }
  }

  /** A whole commit keeps rows and history in step. */
  lemma {:induction false} CommitTracks(sch: Schema, idKey: Raw -> StoreKey, ds: iset<Raw>, full: History, log: Log,
                                        base: nat, cv: nat,
                                        pending: map<Key, PendingOp>, order: seq<Key>, rids: map<Key, RID>)
    requires Tracks(sch, idKey, ds, full, log, base, cv) && Injective(sch, idKey, ds) && cv > 0
    requires FitsAll(sch, ds, full, pending, order, rids)
    ensures Tracks(sch, idKey, ds, PushedAll(full, cv, pending, order, rids),
            MaintainOps(idKey, log, pending, order, cv), base, cv)
    decreases |order|
  {
    hide Tracks, Injective, FitsHead, MaintainOp;
    if order == [] {
      SameHistory(sch, idKey, ds, full, PushedAll(full, cv, pending, order, rids), log, base, cv);
    } else {
      var head, last := order[..|order| - 1], order[|order| - 1];
      CommitTracks(sch, idKey, ds, full, log, base, cv, pending, head, rids);
      PushedStep(full, cv, pending, order, rids);
      var full1, log1 := PushedAll(full, cv, pending, head, rids), MaintainOps(idKey, log, pending, head, cv);
      OpTracks(sch, idKey, ds, full1, log1, base, last, pending[last], cv, rids[last]);
      SameHistory(sch, idKey, ds, PushedOne(full1, last, pending[last], cv, rids[last]),
          PushedAll(full, cv, pending, order, rids),
                  MaintainOps(idKey, log, pending, order, cv), base, cv);
    }
  }

  // ---- every history ------------------------------------------------------------------------

  datatype Commit = Commit(cv: nat, pending: map<Key, PendingOp>, order: seq<Key>, rids: map<Key, RID>)

  function HistAfter(full: History, cs: seq<Commit>): History {
    if cs == [] then full
    else
      var c := cs[|cs| - 1];
      PushedAll(HistAfter(full, cs[..|cs| - 1]), c.cv, c.pending, c.order, c.rids)
  }

  function VersionAfter(base: nat, cs: seq<Commit>): nat {
    if cs == [] then base else cs[|cs| - 1].cv
  }

  /** Commits with increasing versions, each fitting the history before it. */
  ghost predicate Legal(sch: Schema, ds: iset<Raw>, full: History, base: nat, cs: seq<Commit>) {
    cs == [] ||
    var head, c := cs[..|cs| - 1], cs[|cs| - 1];
    && Legal(sch, ds, full, base, head)
    && VersionAfter(base, head) < c.cv
    && FitsAll(sch, ds, HistAfter(full, head), c.pending, c.order, c.rids)
  }

  /** Every key a commit lists has its operation. */
  ghost predicate Buffered(cs: seq<Commit>) {
    forall i :: 0 <= i < |cs| ==> forall k :: k in cs[i].order ==> k in cs[i].pending
  }

  /** The rows after maintenance has applied every commit's change records. */
  ghost function LogAfter(idKey: Raw -> StoreKey, log: Log, cs: seq<Commit>): Log
    requires Buffered(cs)
  {
    if cs == [] then log
    else
      var c := cs[|cs| - 1];
      Maintain(idKey, LogAfter(idKey, log, cs[..|cs| - 1]), ChangeRecords(c.pending, c.order), c.cv)
  }

  lemma {:induction false} LegalOrders(sch: Schema, ds: iset<Raw>, full: History, base: nat, cs: seq<Commit>, i: nat)
    requires Legal(sch, ds, full, base, cs) && i < |cs|
    ensures forall k :: k in cs[i].order ==> k in cs[i].pending
    decreases |cs|
  {
    if i < |cs| - 1 { LegalOrders(sch, ds, full, base, cs[..|cs| - 1], i); }
  }

  lemma {:induction false} HistoryTracks(sch: Schema, idKey: Raw -> StoreKey, ds: iset<Raw>, full: History, log: Log,
                                         base: nat, cs: seq<Commit>)
    requires Tracks(sch, idKey, ds, full, log, base, base) && Injective(sch, idKey, ds)
             && Legal(sch, ds, full, base, cs)
    requires Buffered(cs)
    ensures Tracks(sch, idKey, ds, HistAfter(full, cs), LogAfter(idKey, log, cs), base, VersionAfter(base, cs))
    decreases |cs|
  {
    hide Tracks, Injective, FitsAll, Maintain, ChangeRecords, MaintainOps, PushedAll;
    if cs != [] {
      var head, c := cs[..|cs| - 1], cs[|cs| - 1];
      HistoryTracks(sch, idKey, ds, full, log, base, head);
      var full1, log1 := HistAfter(full, head), LogAfter(idKey, log, head);
      Advance(sch, idKey, ds, full1, log1, base, VersionAfter(base, head), c.cv);
      CommitTracks(sch, idKey, ds, full1, log1, base, c.cv, c.pending, c.order, c.rids);
      RecordsApply(idKey, log1, c.pending, c.order, c.cv);
    }
  }

  // ---- build --------------------------------------------------------------------------------

  /** `docs` lists the live documents of the history, each once. */
  ghost predicate Lists(sch: Schema, full: History, docs: seq<Raw>) {
    && (forall i :: 0 <= i < |docs| ==> HeadDoc(full(sch.keyOf(docs[i]))) == Some(docs[i]))
    && (forall k :: HeadDoc(full(k)).Some? ==> HeadDoc(full(k)).value in docs && sch.keyOf(HeadDoc(full(k)).value) == k)
    && Distinct(docs)
  }

  lemma {:induction false} InsertAllRows(idKey: Raw -> StoreKey, docs: seq<Raw>, ver: nat)
    requires forall i :: 0 <= i < |docs| ==> idKey(docs[i]) != []
    requires forall i, j :: 0 <= i < j < |docs| ==> idKey(docs[i]) != idKey(docs[j])
    ensures var log := InsertAll(idKey, EMPTY_LOG, docs, ver);
            && |log.rows| == |docs|
            && (forall i :: 0 <= i < |docs| ==> log.rows[i] == Row(docs[i], ver, 0) && idKey(docs[i]) in log.live
                                                && log.live[idKey(docs[i])] == i)
    decreases |docs|
  {
    if docs != [] { InsertAllRows(idKey, docs[..|docs| - 1], ver); }
  }

  /** A store built from a listing of the live documents tracks the history from there on. */
  lemma BuildTracks(sch: Schema, idKey: Raw -> StoreKey, ds: iset<Raw>, full: History, docs: seq<Raw>, base: nat)
    requires Lists(sch, full, docs) && Injective(sch, idKey, ds)
    requires forall i :: 0 <= i < |docs| ==> docs[i] in ds
    requires forall k, i :: 0 <= i < |full(k)| ==> full(k)[i].commitVer <= base
    ensures Tracks(sch, idKey, ds, full, InsertAll(idKey, EMPTY_LOG, docs, base), base, base)
  {
    forall i, j | 0 <= i < j < |docs| ensures idKey(docs[i]) != idKey(docs[j]) {
      assert docs[i] in ds && docs[j] in ds;
      assert HeadDoc(full(sch.keyOf(docs[i]))) == Some(docs[i]) && HeadDoc(full(sch.keyOf(docs[j]))) == Some(docs[j]);
    }
    InsertAllRows(idKey, docs, base);
  }

  /**
   The column store is a faithful versioned map: built from the live documents at `base` and
   maintained from every later commit's change records, its visible rows at any snapshot from
   `base` on are exactly one for each document the history shows there.
   */
  lemma StoreRefines(sch: Schema, idKey: Raw -> StoreKey, ds: iset<Raw>, full: History, docs: seq<Raw>, base: nat,
                     cs: seq<Commit>, snap: nat)
    requires Lists(sch, full, docs) && Injective(sch, idKey, ds) && Legal(sch, ds, full, base, cs)
    requires forall i :: 0 <= i < |docs| ==> docs[i] in ds
    requires forall k, i :: 0 <= i < |full(k)| ==> full(k)[i].commitVer <= base
    requires base <= snap
    ensures Buffered(cs)
    ensures Shows(sch, HistAfter(full, cs), LogAfter(idKey, InsertAll(idKey, EMPTY_LOG, docs, base), cs).rows, snap)
  {
    hide Lists, Injective, Shows, Tracks, HistAfter, InsertAll;
    forall i: nat | i < |cs| ensures forall k :: k in cs[i].order
                                                 ==> k in cs[i].pending { LegalOrders(sch, ds, full, base, cs, i); }
    BuildTracks(sch, idKey, ds, full, docs, base);
    var log := InsertAll(idKey, EMPTY_LOG, docs, base);
    HistoryTracks(sch, idKey, ds, full, log, base, cs);
    TracksShows(sch, idKey, ds, HistAfter(full, cs), LogAfter(idKey, log, cs), base, VersionAfter(base, cs), snap);
  }

  // ---- exactly when --------------------------------------------------------------------------

  const NO_HISTORY: History := k => []

  /** From an empty collection, every legal history of documents in `ds` is shown at every snapshot. */
  ghost predicate AlwaysShows(sch: Schema, idKey: Raw -> StoreKey, ds: iset<Raw>) {
    forall cs, snap: nat :: Legal(sch, ds, NO_HISTORY, 0, cs) && Buffered(cs) ==>
      Shows(sch, HistAfter(NO_HISTORY, cs), LogAfter(idKey, EMPTY_LOG, cs).rows, snap)
  }

  function InsertCommit(cv: nat, k: Key, d: Raw): Commit {
    Commit(cv, map[k := PendingOp(Some(d), None, false)], [k], map[k := NULL_RID])
  }

  function DeleteCommit(cv: nat, k: Key, d: Raw): Commit {
    Commit(cv, map[k := PendingOp(None, Some(Removed(NULL_RID, d)), false)], [k], map[k := NULL_RID])
  }

  /** What a single-document commit does. */
  lemma SingleCommit(sch: Schema, idKey: Raw -> StoreKey, ds: iset<Raw>, base: nat, cs: seq<Commit>, c: Commit, k: Key,
                     op: PendingOp)
    requires Legal(sch, ds, NO_HISTORY, base, cs) && Buffered(cs) && VersionAfter(base, cs) < c.cv
    requires c == Commit(c.cv, map[k := op], [k], map[k := NULL_RID])
             && FitsHead(sch, ds, k, op, HistAfter(NO_HISTORY, cs)(k))
    requires !op.Noop()
    ensures Legal(sch, ds, NO_HISTORY, base, cs + [c]) && Buffered(cs + [c]) && VersionAfter(base, cs + [c]) == c.cv
    ensures HistAfter(NO_HISTORY, cs + [c])(k) == [NewVersion(op, c.cv, NULL_RID)] + HistAfter(NO_HISTORY, cs)(k)
    ensures forall x :: x != k ==> HistAfter(NO_HISTORY, cs + [c])(x) == HistAfter(NO_HISTORY, cs)(x)
    ensures LogAfter(idKey, EMPTY_LOG, cs + [c])
            == MaintainOne(idKey, LogAfter(idKey, EMPTY_LOG, cs), RecordOf(op), c.cv)
  {
    hide MaintainOne, RecordOf, Maintain, ChangeRecords, FitsHead;
    SnocCommit(sch, idKey, ds, base, cs, c);
    SingleRecord(k, op);
    SingleMaintain(idKey, LogAfter(idKey, EMPTY_LOG, cs), RecordOf(op), c.cv);
    hide Legal, Buffered, HistAfter, LogAfter;
    var full := HistAfter(NO_HISTORY, cs);
    SinglePush(full, c.cv, k, op);
    SingleFits(sch, ds, full, k, op);
  }

  /** One more commit at the end. */
  lemma SnocCommit(sch: Schema, idKey: Raw -> StoreKey, ds: iset<Raw>, base: nat, cs: seq<Commit>, c: Commit)
    requires Legal(sch, ds, NO_HISTORY, base, cs) && Buffered(cs) && VersionAfter(base, cs) < c.cv
             && forall x :: x in c.order ==> x in c.pending
    ensures Buffered(cs + [c]) && VersionAfter(base, cs + [c]) == c.cv
    ensures FitsAll(sch, ds, HistAfter(NO_HISTORY, cs), c.pending, c.order, c.rids)
            ==> Legal(sch, ds, NO_HISTORY, base, cs + [c])
    ensures HistAfter(NO_HISTORY, cs + [c]) == PushedAll(HistAfter(NO_HISTORY, cs), c.cv, c.pending, c.order, c.rids)
    ensures LogAfter(idKey, EMPTY_LOG, cs + [c])
            == Maintain(idKey, LogAfter(idKey, EMPTY_LOG, cs), ChangeRecords(c.pending, c.order), c.cv)
  {
    hide Maintain, ChangeRecords, FitsAll, PushedAll;
    var cs' := cs + [c];
    assert cs'[..|cs'| - 1] == cs && cs'[|cs'| - 1] == c;
  }

  lemma SingleMaintain(idKey: Raw -> StoreKey, log: Log, r: Change, cv: nat)
    ensures Maintain(idKey, log, [r], cv) == MaintainOne(idKey, log, r, cv)
  {
    hide MaintainOne;
    assert [r][..0] == [];
    assert Maintain(idKey, log, [], cv) == log;
  }

  lemma SinglePush(full: History, cv: nat, k: Key, op: PendingOp)
    requires !op.Noop()
    ensures var h := PushedAll(full, cv, map[k := op], [k], map[k := NULL_RID]);
            h(k) == [NewVersion(op, cv, NULL_RID)] + full(k) && forall x :: x != k ==> h(x) == full(x)
  {}

  lemma SingleFits(sch: Schema, ds: iset<Raw>, full: History, k: Key, op: PendingOp)
    requires FitsHead(sch, ds, k, op, full(k))
    ensures FitsAll(sch, ds, full, map[k := op], [k], map[k := NULL_RID])
  {
    hide FitsHead;
  }

  lemma SingleRecord(k: Key, op: PendingOp)
    requires !op.Noop()
    ensures ChangeRecords(map[k := op], [k]) == [RecordOf(op)]
  {
    assert [k][..0] == [];
    assert ChangeRecords(map[k := op], []) == [];
  }

  lemma NoCommits(sch: Schema, idKey: Raw -> StoreKey, ds: iset<Raw>)
    ensures Legal(sch, ds, NO_HISTORY, 0, []) && Buffered([]) && VersionAfter(0, []) == 0
    ensures HistAfter(NO_HISTORY, []) == NO_HISTORY && LogAfter(idKey, EMPTY_LOG, []) == EMPTY_LOG
  {}

  /** Two documents under one identity key: deleting the first retires the second's row. */
  lemma SharedKeyBreaks(sch: Schema, idKey: Raw -> StoreKey, ds: iset<Raw>, d: Raw, e: Raw)
    requires d in ds && e in ds && idKey(d) == idKey(e) != [] && sch.keyOf(d) != sch.keyOf(e)
    ensures !AlwaysShows(sch, idKey, ds)
  {
    hide Legal, Buffered, HistAfter, LogAfter, VersionAfter;
    NoCommits(sch, idKey, ds);
    var kd, ke := sch.keyOf(d), sch.keyOf(e);
    var i, j, x := PendingOp(Some(d), None, false), PendingOp(Some(e), None, false),
        PendingOp(None, Some(Removed(NULL_RID, d)), false);
    var c1, c2, c3 := InsertCommit(1, kd, d), InsertCommit(2, ke, e), DeleteCommit(3, kd, d);
    SingleCommit(sch, idKey, ds, 0, [], c1, kd, i);
    SingleCommit(sch, idKey, ds, 0, [] + [c1], c2, ke, j);
    SingleCommit(sch, idKey, ds, 0, [] + [c1] + [c2], c3, kd, x);
    var cs := [] + [c1] + [c2] + [c3];
    var rows := LogAfter(idKey, EMPTY_LOG, cs).rows;
    assert rows == [Row(d, 1, 0), Row(e, 2, 3)];
    assert Visible(rows[0], 3);
    assert DocAt(HistAfter(NO_HISTORY, cs)(kd), 3) == None;
    assert !Shows(sch, HistAfter(NO_HISTORY, cs), rows, 3);
  }

  /** A document without an identity key is never retired. */
  lemma NoKeyBreaks(sch: Schema, idKey: Raw -> StoreKey, ds: iset<Raw>, d: Raw)
    requires d in ds && idKey(d) == []
    ensures !AlwaysShows(sch, idKey, ds)
  {
    hide Legal, Buffered, HistAfter, LogAfter, VersionAfter;
    NoCommits(sch, idKey, ds);
    var k := sch.keyOf(d);
    var c1, c2 := InsertCommit(1, k, d), DeleteCommit(2, k, d);
    SingleCommit(sch, idKey, ds, 0, [], c1, k, PendingOp(Some(d), None, false));
    SingleCommit(sch, idKey, ds, 0, [] + [c1], c2, k, PendingOp(None, Some(Removed(NULL_RID, d)), false));
    var cs := [] + [c1] + [c2];
    var rows := LogAfter(idKey, EMPTY_LOG, cs).rows;
    assert rows == [Row(d, 1, 0)];
    assert Visible(rows[0], 2);
    assert DocAt(HistAfter(NO_HISTORY, cs)(k), 2) == None;
    assert !Shows(sch, HistAfter(NO_HISTORY, cs), rows, 2);
  }

  /** The store follows every history of a set of documents exactly when their identity keys tell them apart. */
  lemma AlwaysShowsIff(sch: Schema, idKey: Raw -> StoreKey, ds: iset<Raw>)
    ensures AlwaysShows(sch, idKey, ds) <==> Injective(sch, idKey, ds)
  {
    hide Shows, Legal, Buffered, HistAfter, LogAfter;
    if Injective(sch, idKey, ds) {
      forall cs, snap: nat | Legal(sch, ds, NO_HISTORY, 0, cs) && Buffered(cs)
        ensures Shows(sch, HistAfter(NO_HISTORY, cs), LogAfter(idKey, EMPTY_LOG, cs).rows, snap)
      {
        StoreRefines(sch, idKey, ds, NO_HISTORY, [], 0, cs, snap);
      }
    } else if exists d :: d in ds && idKey(d) == [] {
      var d :| d in ds && idKey(d) == [];
      NoKeyBreaks(sch, idKey, ds, d);
    } else {
      var d, e :| d in ds && e in ds && idKey(d) == idKey(e) && sch.keyOf(d) != sch.keyOf(e);
      SharedKeyBreaks(sch, idKey, ds, d, e);
    }
  }
}
