/**
 The column store object: compressed segments per field, an in-progress buffer, tombstones set in
 place. Every method is proved against the row log, so what a scan returns does not depend on
 which rows have been flushed.
 */
module ColumnStore {
  import opened Common
  import opened Overlay
  import opened CollectionModel
  import opened Bits
  import opened ColumnCodec
  import opened ZoneMap
  import opened ColumnLog

  type Field = seq<byte>

  const SEGMENT_SIZE := 1024

  /** How a document is shredded: its identity key and the value of each field. */
  datatype Projection = Projection(idKey: Raw -> StoreKey, field: (Raw, Field) -> Value)

  ghost predicate Sound(pr: Projection) {
    forall d, f :: WellFormed(pr.field(d, f))
  }

  /** A block of one field's values with its row stamps; only `del` ever changes. */
  datatype Segment = Segment(field: Field, firstRID: nat, n: nat, enc: seq<byte>, rids: seq<nat>, write: seq<nat>,
      del: seq<nat>, zone: Option<Zone>)

  /** A flushed block's RID range. */
  datatype Bound = Bound(first: nat, n: nat)

  datatype FieldPred = FieldPred(field: Field, p: Pred)

  // ---- columns of a block of rows ---------------------------------------------------

  function Vals(pr: Projection, f: Field, rows: seq<Row>): seq<Value> {
    seq(|rows|, i requires 0 <= i < |rows| => pr.field(rows[i].doc, f))
  }

  function Writes(rows: seq<Row>): seq<nat> { seq(|rows|, i requires 0 <= i < |rows| => rows[i].write) }
  function Dels(rows: seq<Row>): seq<nat> { seq(|rows|, i requires 0 <= i < |rows| => rows[i].del) }
  function Rids(first: nat, n: nat): seq<nat> { seq(n, (i: nat) => first + i) }

  lemma ValsColumn(pr: Projection, f: Field, rows: seq<Row>)
    requires Sound(pr) && |rows| <= SEGMENT_SIZE
    ensures Column(Vals(pr, f, rows))
  {
    hide WellFormed;
    forall i | 0 <= i < |rows| ensures WellFormed(Vals(pr, f, rows)[i]) {
      assert WellFormed(pr.field(rows[i].doc, f));
    }
  }

  ghost function SegmentOf(pr: Projection, f: Field, rows: seq<Row>, first: nat): Segment
    requires Sound(pr) && |rows| <= SEGMENT_SIZE
  {
    ValsColumn(pr, f, rows);
    Segment(f, first, |rows|, EncodeColumn(Vals(pr, f, rows)), Rids(first, |rows|), Writes(rows), Dels(rows),
        ZoneOf(Vals(pr, f, rows)))
  }

  method BuildSegment(ghost pr: Projection, f: Field, ghost rows: seq<Row>, vals: seq<Value>, rids: seq<nat>,
                      write: seq<nat>, del: seq<nat>)
    returns (s: Segment)
    requires Sound(pr) && 0 < |rows| <= SEGMENT_SIZE && |rids| == |rows| && rids == Rids(rids[0], |rows|)
    requires vals == Vals(pr, f, rows) && write == Writes(rows) && del == Dels(rows)
    ensures s == SegmentOf(pr, f, rows, rids[0])
  {
    hide EncodeColumn, ZoneOf;
    ValsColumn(pr, f, rows);
    var zone := ComputeZone(vals);
    s := Segment(f, rids[0], |vals|, EncodeColumn(vals), rids, write, del, zone);
  }

  // ---- flushed blocks on the RID line -------------------------------------------------

  function End(bounds: seq<Bound>): nat {
    if bounds == [] then 0 else bounds[|bounds| - 1].first + bounds[|bounds| - 1].n
  }

  /** Consecutive non-empty blocks from RID 0. */
  ghost predicate BoundsOk(bounds: seq<Bound>) {
    forall k :: 0 <= k < |bounds| ==>
      0 < bounds[k].n <= SEGMENT_SIZE && bounds[k].first == if k == 0 then 0 else bounds[k - 1].first + bounds[k - 1].n
  }

  lemma {:induction false} BoundsMonotone(bounds: seq<Bound>, j: nat, k: nat)
    requires BoundsOk(bounds) && j <= k < |bounds|
    ensures j < k ==> bounds[j].first + bounds[j].n <= bounds[k].first
    ensures bounds[k].first + bounds[k].n <= End(bounds)
    decreases |bounds| - j
  {
    if j < k {
      BoundsMonotone(bounds, j + 1, k);
    } else if k < |bounds| - 1 {
      BoundsMonotone(bounds, k + 1, |bounds| - 1);
    }
  }

  ghost predicate SegsOk(pr: Projection, f: Field, bounds: seq<Bound>, segs: seq<Segment>, rows: seq<Row>)
    requires Sound(pr) && BoundsOk(bounds) && End(bounds) <= |rows|
  {
    && |segs| == |bounds|
    && (forall k :: 0 <= k < |bounds| ==> SegAt(pr, f, bounds, segs, rows, k))
  }

  /** Segment `k` holds exactly its block of rows. */
  ghost predicate SegAt(pr: Projection, f: Field, bounds: seq<Bound>, segs: seq<Segment>, rows: seq<Row>, k: int)
    requires Sound(pr) && BoundsOk(bounds) && End(bounds) <= |rows| && 0 <= k < |bounds| && k < |segs|
  {
    BoundsMonotone(bounds, k, k);
    segs[k] == SegmentOf(pr, f, Block(bounds, rows, k), bounds[k].first)
  }

  ghost function Block(bounds: seq<Bound>, rows: seq<Row>, k: int): seq<Row>
    requires BoundsOk(bounds) && End(bounds) <= |rows| && 0 <= k < |bounds|
  {
    BoundsMonotone(bounds, k, k);
    rows[bounds[k].first..bounds[k].first + bounds[k].n]
  }

  /** The block holding `rid`, found as Go's sort.Search does, or -1. */
  method LocateBound(bounds: seq<Bound>, rid: nat) returns (k: int)
    requires BoundsOk(bounds)
    ensures rid < End(bounds) ==> 0 <= k < |bounds| && bounds[k].first <= rid < bounds[k].first + bounds[k].n
    ensures rid >= End(bounds) ==> k == -1
  {
    var i, j := 0, |bounds|;
    while i < j
      invariant 0 <= i <= j <= |bounds|
      invariant forall x :: 0 <= x < i ==> bounds[x].first + bounds[x].n <= rid
      invariant forall x :: j <= x < |bounds| ==> bounds[x].first + bounds[x].n > rid
    {
      var h := i + (j - i) / 2;
      if bounds[h].first + bounds[h].n > rid {
        forall x | h <= x < |bounds| ensures bounds[x].first + bounds[x].n > rid { BoundsMonotone(bounds, h, x); }
        j := h;
      } else {
        forall x | 0 <= x <= h ensures bounds[x].first + bounds[x].n <= rid { BoundsMonotone(bounds, x, h); }
        i := h + 1;
      }
    }
    if i < |bounds| {
      BoundsMonotone(bounds, i, i);
      assert i > 0 ==> bounds[i - 1].first + bounds[i - 1].n <= rid;
    }
    k := if i < |bounds| && rid >= bounds[i].first then i else -1;
  }

  // ---- what a scan should return ---------------------------------------------------------

  predicate Keeps(pr: Projection, r: Row, snap: nat, pred: Option<FieldPred>) {
    Visible(r, snap) && (pred.None? || Matches(pred.value.p, pr.field(r.doc, pred.value.field)))
  }

  function Projected(pr: Projection, need: seq<Field>, d: Raw): seq<Value> {
    seq(|need|, i requires 0 <= i < |need| => pr.field(d, need[i]))
  }

  /** The kept rows in RID order, projected. */
  function Scanned(pr: Projection, rows: seq<Row>, snap: nat, need: seq<Field>,
                   pred: Option<FieldPred>): seq<seq<Value>> {
    if rows == [] then []
    else
      var r := rows[|rows| - 1];
      Scanned(pr, rows[..|rows| - 1], snap, need, pred) + if Keeps(pr, r, snap, pred) then [Projected(pr, need, r.doc)]
                                                          else []
  }

  lemma {:induction false} ScannedJoin(pr: Projection, a: seq<Row>, b: seq<Row>, snap: nat, need: seq<Field>,
                                       pred: Option<FieldPred>)
    ensures Scanned(pr, a + b, snap, need, pred) == Scanned(pr, a, snap, need, pred) + Scanned(pr, b, snap, need, pred)
    decreases |b|
  {
    hide Keeps, Projected;
    if b == [] {
      assert a + b == a;
    } else {
      ScannedJoin(pr, a, b[..|b| - 1], snap, need, pred);
      assert (a + b)[..|a + b| - 1] == a + b[..|b| - 1];
    }
  }

  /** A block the zone map skips contributes nothing. */
  lemma {:induction false} SkippedIsEmpty(pr: Projection, rows: seq<Row>, snap: nat, need: seq<Field>, pred: FieldPred)
    requires forall i :: 0 <= i < |rows| ==> !Matches(pred.p, pr.field(rows[i].doc, pred.field))
    ensures Scanned(pr, rows, snap, need, Some(pred)) == []
    decreases |rows|
  {
    hide Matches;
    if rows != [] { SkippedIsEmpty(pr, rows[..|rows| - 1], snap, need, pred); }
  }

  lemma SkipDropsNothing(pr: Projection, rows: seq<Row>, snap: nat, need: seq<Field>, pred: FieldPred)
    requires Prunable(Vals(pr, pred.field, rows)) && Skips(ZoneOf(Vals(pr, pred.field, rows)), pred.p)
    ensures Scanned(pr, rows, snap, need, Some(pred)) == []
  {
    hide Prunable, Skips, Matches, ZoneOf;
    var vals := Vals(pr, pred.field, rows);
    forall i | 0 <= i < |rows| ensures !Matches(pred.p, pr.field(rows[i].doc, pred.field)) {
      assert vals[i] in vals;
      SkipIsPure(vals, pred.p, vals[i]);
    }
    SkippedIsEmpty(pr, rows, snap, need, pred);
  }

  /** The documents of the visible rows, in RID order. */
  function VisibleDocs(rows: seq<Row>, snap: nat): seq<Raw> {
    if rows == [] then []
    else VisibleDocs(rows[..|rows| - 1], snap) + if Visible(rows[|rows| - 1], snap) then [rows[|rows| - 1].doc] else []
  }

  /** Filter and project a list of documents: the reference a scan is measured against. */
  function Select(pr: Projection, docs: seq<Raw>, need: seq<Field>, pred: Option<FieldPred>): seq<seq<Value>> {
    if docs == [] then []
    else
      var d := docs[|docs| - 1];
      Select(pr, docs[..|docs| - 1], need, pred)
      + if pred.None? || Matches(pred.value.p, pr.field(d, pred.value.field)) then [Projected(pr, need, d)] else []
  }

  lemma {:induction false} ScannedSelects(pr: Projection, rows: seq<Row>, snap: nat, need: seq<Field>,
                                          pred: Option<FieldPred>)
    ensures Scanned(pr, rows, snap, need, pred) == Select(pr, VisibleDocs(rows, snap), need, pred)
    decreases |rows|
  {
    hide Matches, Projected;
    if rows != [] {
      var head, r := rows[..|rows| - 1], rows[|rows| - 1];
      ScannedSelects(pr, head, snap, need, pred);
      if Visible(r, snap) {
        var docs := VisibleDocs(rows, snap);
        assert docs[..|docs| - 1] == VisibleDocs(head, snap);
      } else {
        assert VisibleDocs(rows, snap) == VisibleDocs(head, snap);
      }
    }
  }

  lemma {:induction false} VisibleDocsIs(rows: seq<Row>, snap: nat)
    ensures forall d :: d in VisibleDocs(rows, snap)
                        <==> exists i :: 0 <= i < |rows| && Visible(rows[i], snap) && rows[i].doc == d
    decreases |rows|
  {
    if rows != [] {
      var head, r := rows[..|rows| - 1], rows[|rows| - 1];
      VisibleDocsIs(head, snap);
      forall d ensures d in VisibleDocs(rows, snap)
          <==> exists i :: 0 <= i < |rows| && Visible(rows[i], snap) && rows[i].doc == d {
        if exists i :: 0 <= i < |rows| && Visible(rows[i], snap) && rows[i].doc == d {
          var i :| 0 <= i < |rows| && Visible(rows[i], snap) && rows[i].doc == d;
          if i < |head| { assert head[i] == rows[i]; }
        }
        if d in VisibleDocs(head, snap) {
          var i :| 0 <= i < |head| && Visible(head[i], snap) && head[i].doc == d;
          assert rows[i] == head[i];
        }
      }
    }
  }

  lemma {:induction false} VisibleDocsDistinct(sch: Schema, rows: seq<Row>, snap: nat)
    requires forall i, j :: 0 <= i < j < |rows| && Visible(rows[i], snap) && Visible(rows[j], snap)
                            ==> sch.keyOf(rows[i].doc) != sch.keyOf(rows[j].doc)
    ensures forall i, j :: 0 <= i < j < |VisibleDocs(rows, snap)|
                           ==> sch.keyOf(VisibleDocs(rows, snap)[i]) != sch.keyOf(VisibleDocs(rows, snap)[j])
    decreases |rows|
  {
    hide Visible;
    if rows != [] {
      var head, r := rows[..|rows| - 1], rows[|rows| - 1];
      VisibleDocsDistinct(sch, head, snap);
      VisibleDocsIs(head, snap);
      var docs, rest := VisibleDocs(rows, snap), VisibleDocs(head, snap);
      if Visible(r, snap) {
        forall i, j | 0 <= i < j < |docs| ensures sch.keyOf(docs[i]) != sch.keyOf(docs[j]) {
          assert docs[i] == rest[i] && rest[i] in rest;
          if j == |rest| {
            var x :| 0 <= x < |head| && Visible(head[x], snap) && head[x].doc == rest[i];
            assert rows[x] == head[x];
          }
        }
      }
    }
  }

  /**
   When the rows show the history, a scan selects from a list holding each document the
   snapshot shows exactly once.
   */
  lemma ScanAnswers(pr: Projection, sch: Schema, full: History, rows: seq<Row>, snap: nat, need: seq<Field>,
                    pred: Option<FieldPred>)
    requires Shows(sch, full, rows, snap)
    ensures var docs := VisibleDocs(rows, snap);
            && Scanned(pr, rows, snap, need, pred) == Select(pr, docs, need, pred)
            && (forall d :: d in docs <==> DocAt(full(sch.keyOf(d)), snap) == Some(d))
            && (forall k :: DocAt(full(k), snap).Some? ==> DocAt(full(k), snap).value in docs)
            && (forall i, j :: 0 <= i < j < |docs| ==> sch.keyOf(docs[i]) != sch.keyOf(docs[j]))
  {
    ScannedSelects(pr, rows, snap, need, pred);
    VisibleDocsIs(rows, snap);
    VisibleDocsDistinct(sch, rows, snap);
    hide Visible, Scanned, Select, VisibleDocs, DocAt;
    forall d | DocAt(full(sch.keyOf(d)), snap) == Some(d) ensures d in VisibleDocs(rows, snap) {
      var i :| 0 <= i < |rows| && Visible(rows[i], snap) && sch.keyOf(rows[i].doc) == sch.keyOf(d);
      assert DocAt(full(sch.keyOf(rows[i].doc)), snap) == Some(rows[i].doc);
    }
    forall k | DocAt(full(k), snap).Some? ensures DocAt(full(k), snap).value in VisibleDocs(rows, snap) {
      var i :| 0 <= i < |rows| && Visible(rows[i], snap) && sch.keyOf(rows[i].doc) == k;
      assert DocAt(full(sch.keyOf(rows[i].doc)), snap) == Some(rows[i].doc);
    }
  }

  // ---- the store -----------------------------------------------------------------------------

  /** The in-progress buffer holds the rows from `from` on. */
  ghost predicate BufOk(pr: Projection, fields: seq<Field>, bufVals: map<Field, seq<Value>>, bufRIDs: seq<nat>,
                        bufWrite: seq<nat>, bufDel: seq<nat>,
                        rows: seq<Row>, from: nat)
    requires from <= |rows|
  {
    && (forall f :: f in fields ==> f in bufVals && bufVals[f] == Vals(pr, f, rows[from..]))
    && bufRIDs == Rids(from, |rows| - from)
    && bufWrite == Writes(rows[from..])
    && bufDel == Dels(rows[from..])
  }

  ghost predicate AllSegs(pr: Projection, fields: seq<Field>, bounds: seq<Bound>, segs: map<Field, seq<Segment>>,
                          rows: seq<Row>)
    requires Sound(pr) && BoundsOk(bounds) && End(bounds) <= |rows|
  {
    forall f :: f in fields ==> f in segs && SegsOk(pr, f, bounds, segs[f], rows)
  }

  class Store {
    const pr: Projection
    const fields: seq<Field>
    var segs: map<Field, seq<Segment>>
    var bounds: seq<Bound>
    var bufVals: map<Field, seq<Value>>
    var bufRIDs: seq<nat>
    var bufWrite: seq<nat>
    var bufDel: seq<nat>
    var live: map<StoreKey, nat>
    var nextRID: nat
    ghost var rows: seq<Row>

    ghost predicate Shaped()
      reads this
    {
      && fields != [] && Distinct(fields) && Sound(pr)
      && BoundsOk(bounds) && End(bounds) <= |rows|
      && AllSegs(pr, fields, bounds, segs, rows)
      && BufOk(pr, fields, bufVals, bufRIDs, bufWrite, bufDel, rows, End(bounds))
      && nextRID == |rows|
    }

    ghost predicate Valid()
      reads this
    {
      Shaped() && |bufRIDs| < SEGMENT_SIZE
    }

    ghost function Contents(): Log
      reads this
    {
      Log(rows, live)
    }

    constructor (pr: Projection, fields: seq<Field>)
      requires fields != [] && Distinct(fields) && Sound(pr)
      ensures Valid() && Contents() == EMPTY_LOG && this.pr == pr && this.fields == fields
    {
      this.pr, this.fields := pr, fields;
      segs := map f | f in fields :: [];
      bounds := [];
      bufVals := map f | f in fields :: [];
      bufRIDs, bufWrite, bufDel := [], [], [];
      live := map[];
      nextRID := 0;
      rows := [];
    }

    /** Seal the buffer into one segment per field. */
    method FlushLocked()
      requires Shaped() && |bufRIDs| <= SEGMENT_SIZE
      modifies this
      ensures Valid() && bufRIDs == [] && Contents() == old(Contents())
    {
      hide BoundsOk, AllSegs, BufOk, SegmentOf, End;
      if |bufRIDs| == 0 { return; }
      BufferFacts(pr, fields, bufVals, bufRIDs, bufWrite, bufDel, rows, End(bounds));
      ghost var from := End(bounds);
      var done, cleared := SealFields(pr, fields, rows, bounds, segs, bufVals, bufRIDs, bufWrite, bufDel);
      FlushedSegs(pr, fields, bounds, segs, done, rows, |bufRIDs|);
      FlushedBuffer(pr, fields, cleared, rows);
      assert from == bufRIDs[0];
      segs, bufVals := done, cleared;
      bounds := bounds + [Bound(bufRIDs[0], |bufRIDs|)];
      bufRIDs, bufWrite, bufDel := [], [], [];
    }

    /** Append one document as a row visible from `ver`; a full buffer is flushed. */
    method InsertLocked(key: StoreKey, doc: Raw, ver: nat)
      requires Valid()
      modifies this
      ensures Valid() && Contents() == InsertRow(old(Contents()), key, doc, ver)
    {
      hide BoundsOk, AllSegs, BufOk, SegmentOf, End;
      BufferFacts(pr, fields, bufVals, bufRIDs, bufWrite, bufDel, rows, End(bounds));
      var rid := nextRID;
      var appended := AppendFields(pr, fields, bufVals, doc);
      AppendedRow(pr, fields, bounds, segs, bufVals, appended, bufRIDs, bufWrite, bufDel, rows, Row(doc, ver, 0));
      nextRID := nextRID + 1;
      bufVals := appended;
      bufRIDs, bufWrite, bufDel := bufRIDs + [rid], bufWrite + [ver], bufDel + [0];
      if key != [] { live := live[key := rid]; }
      rows := rows + [Row(doc, ver, 0)];
      if |bufRIDs| >= SEGMENT_SIZE { FlushLocked(); }
    }

    /** Stamp `rid` deleted at `ver`, wherever it is; an earlier stamp stays. */
    method TombstoneLocked(rid: nat, ver: nat)
      requires Valid()
      modifies this`bufDel, this`segs, this`rows
      ensures Valid() && Contents() == Log(Tombstone(old(rows), rid, ver), old(live))
    {
      hide BoundsOk, AllSegs, BufOk, SegmentOf, End;
      BufferFacts(pr, fields, bufVals, bufRIDs, bufWrite, bufDel, rows, End(bounds));
      if |bufRIDs| > 0 && rid >= bufRIDs[0] {
        var off := rid - bufRIDs[0];
        if off < |bufDel| && bufDel[off] == 0 {
          BufferTombstone(pr, fields, bounds, segs, bufVals, bufRIDs, bufWrite, bufDel, rows, rid, ver);
          bufDel := bufDel[off := ver];
        }
      } else {
        var k := LocateBound(bounds, rid);
        if k >= 0 {
          var off := rid - bounds[k].first;
          var stamped := StampFields(pr, fields, bounds, segs, rows, k, off, ver);
          SegmentTombstone(pr, fields, bounds, segs, stamped, bufVals, bufRIDs, bufWrite, bufDel, rows, k, off, ver);
          segs := stamped;
        }
      }
      rows := Tombstone(rows, rid, ver);
    }

    method Insert(doc: Raw, ver: nat)
      requires Valid()
      modifies this
      ensures Valid() && Contents() == InsertRow(old(Contents()), pr.idKey(doc), doc, ver)
    {
      InsertLocked(pr.idKey(doc), doc, ver);
    }

    method Update(before: Raw, doc: Raw, ver: nat)
      requires Valid()
      modifies this
      ensures Valid() && Contents() == UpdateRow(old(Contents()), pr.idKey(before), pr.idKey(doc), doc, ver)
    {
      hide Shaped, InsertRow, Tombstone;
      if pr.idKey(before) in live { TombstoneLocked(live[pr.idKey(before)], ver); }
      InsertLocked(pr.idKey(doc), doc, ver);
    }

    method Delete(doc: Raw, ver: nat)
      requires Valid()
      modifies this
      ensures Valid() && Contents() == DeleteRow(old(Contents()), pr.idKey(doc), ver)
    {
      hide Tombstone, BoundsOk, AllSegs, BufOk, SegmentOf, End;
      var key := pr.idKey(doc);
      if key in live {
        TombstoneLocked(live[key], ver);
        live := live - {key};
      }
    }

    /** Apply one committed transaction's change records. */
    method MaintainColumn(recs: seq<Change>, cv: nat)
      requires Valid()
      modifies this
      ensures Valid() && Contents() == Maintain(pr.idKey, old(Contents()), recs, cv)
    {
      hide Shaped, InsertRow, UpdateRow, DeleteRow, Contents;
      assert recs[..0] == [];
      for i := 0 to |recs|
        invariant Valid() && Contents() == Maintain(pr.idKey, old(Contents()), recs[..i], cv)
      {
        assert recs[..i + 1][..i] == recs[..i];
        var r := recs[i];
        match r {
          case Change(Inserted, Some(d), _) => Insert(d, cv);
          case Change(Updated, Some(d), Some(b)) => Update(b, d, cv);
          case Change(Replaced, Some(d), Some(b)) => Update(b, d, cv);
          case Change(Deleted, _, Some(b)) => Delete(b, cv);
          case _ =>
        }
      }
      assert recs[..|recs|] == recs;
    }

    method Reset()
      requires fields != [] && Distinct(fields) && Sound(pr)
      modifies this
      ensures Valid() && Contents() == EMPTY_LOG
    {
      hide BoundsOk, AllSegs, BufOk, Sound, End;
      var noSegs: map<Field, seq<Segment>> := map f | f in fields :: [];
      var noVals: map<Field, seq<Value>> := map f | f in fields :: [];
      EmptyStore(pr, fields, noSegs, noVals);
      segs, bounds := noSegs, [];
      bufVals, bufRIDs, bufWrite, bufDel := noVals, [], [], [];
      live := map[];
      nextRID := 0;
      rows := [];
    }

    /** Drop everything and load the given documents, all visible from `ver`. */
    method Rebuild(docs: seq<Raw>, ver: nat)
      requires Valid()
      modifies this
      ensures Valid() && Contents() == InsertAll(pr.idKey, EMPTY_LOG, docs, ver)
    {
      ShapedBuffer();
      hide Shaped, InsertRow, Sound;
      Reset();
      assert docs[..0] == [];
      for i := 0 to |docs|
        invariant Valid() && Contents() == InsertAll(pr.idKey, EMPTY_LOG, docs[..i], ver)
      {
        assert docs[..i + 1][..i] == docs[..i];
        InsertLocked(pr.idKey(docs[i]), docs[i], ver);
      }
      assert docs[..|docs|] == docs;
      ShapedBuffer();
      FlushLocked();
    }

    ghost predicate Trusted(field: Field)
      reads this
      requires Shaped()
    {
      forall k :: 0 <= k < |bounds| ==> Prunable(Vals(pr, field, Block(bounds, rows, k)))
    }

    /** Every visible row that satisfies the predicate, projected; segments the zone map rules out are not decoded. */
    method Scan(snap: nat, need: seq<Field>, pred: Option<FieldPred>) returns (out: seq<seq<Value>>)
      requires Valid()
      requires (forall f :: f in need ==> f in fields) && (pred.Some? ==> pred.value.field in fields)
      ensures need == [] ==> out == []
      ensures need != [] && (pred.None? || Trusted(pred.value.field)) ==> out == Scanned(pr, rows, snap, need, pred)
      ensures need != [] ==> out == Unskipped(pr, bounds, rows, |bounds|, snap, need, pred)
                             + Scanned(pr, rows[End(bounds)..], snap, need, pred)
    {
      hide Scanned, SegmentOf, SegAt, BufOk, Block, Prunable, Skips, ZoneOf;
      out := [];
      if need == [] { return; }
      ScannedNone(pr, rows[..0], snap, need, pred);
      for k := 0 to |bounds|
        invariant Start(bounds, k) <= |rows|
        invariant pred.None? || Trusted(pred.value.field)
                  ==> out == Scanned(pr, rows[..Start(bounds, k)], snap, need, pred)
        invariant out == Unskipped(pr, bounds, rows, k, snap, need, pred)
      {
        NextBlock(pr, bounds, rows, k, snap, need, pred);
        var skip := false;
        if pred.Some? {
          skip := ZoneSkips(pr, pred.value, bounds, segs[pred.value.field], rows, k, snap, need);
        }
        if !skip {
          var part := ScanSegment(pr, fields, bounds, segs, rows, k, snap, need, pred);
          out := out + part;
        }
      }
      var tail := ScanBuffer(pr, fields, bufVals, bufRIDs, bufWrite, bufDel, rows, End(bounds), snap, need, pred);
      ScannedJoin(pr, rows[..End(bounds)], rows[End(bounds)..], snap, need, pred);
      assert rows == rows[..End(bounds)] + rows[End(bounds)..];
      out := out + tail;
    }

    lemma ShapedBuffer()
      requires Valid()
      ensures Shaped() && |bufRIDs| <= SEGMENT_SIZE
    {}
  }

  lemma EmptyStore(pr: Projection, fields: seq<Field>, segs: map<Field, seq<Segment>>, bufVals: map<Field, seq<Value>>)
    requires Sound(pr)
    requires forall f :: f in fields ==> f in segs && segs[f] == [] && f in bufVals && bufVals[f] == []
    ensures BoundsOk([]) && End([]) == 0 && AllSegs(pr, fields, [], segs, [])
            && BufOk(pr, fields, bufVals, [], [], [], [], 0)
  {}

  /** Every field's buffer grows by the document's value. */
  method AppendFields(pr: Projection, fields: seq<Field>, bufVals: map<Field, seq<Value>>, doc: Raw)
    returns (appended: map<Field, seq<Value>>)
    requires Distinct(fields) && forall f :: f in fields ==> f in bufVals
    ensures forall f :: f in fields ==> f in appended && appended[f] == bufVals[f] + [pr.field(doc, f)]
  {
    appended := bufVals;
    for i := 0 to |fields|
      invariant forall f :: f in fields ==> f in appended
      invariant forall j :: i <= j < |fields| ==> appended[fields[j]] == bufVals[fields[j]]
      invariant forall j :: 0 <= j < i ==> appended[fields[j]] == bufVals[fields[j]] + [pr.field(doc, fields[j])]
    {
      appended := appended[fields[i] := appended[fields[i]] + [pr.field(doc, fields[i])]];
    }
  }

  /** Segments speak only of rows before the buffer. */
  lemma SegsFrame(pr: Projection, fields: seq<Field>, bounds: seq<Bound>, segs: map<Field, seq<Segment>>,
                  rows: seq<Row>, rows': seq<Row>)
    requires Sound(pr) && BoundsOk(bounds) && End(bounds) <= |rows| && End(bounds) <= |rows'|
    requires AllSegs(pr, fields, bounds, segs, rows) && rows'[..End(bounds)] == rows[..End(bounds)]
    ensures AllSegs(pr, fields, bounds, segs, rows')
  {
    hide SegmentOf;
    forall f | f in fields ensures f in segs && SegsOk(pr, f, bounds, segs[f], rows') {
      forall k | 0 <= k < |bounds| ensures SegAt(pr, f, bounds, segs[f], rows', k) {
        assert SegAt(pr, f, bounds, segs[f], rows, k);
        BoundsMonotone(bounds, k, k);
        BlockFrame(bounds, rows, rows', k);
      }
    }
  }

  lemma BlockFrame(bounds: seq<Bound>, rows: seq<Row>, rows': seq<Row>, k: nat)
    requires BoundsOk(bounds) && End(bounds) <= |rows| && End(bounds) <= |rows'| && k < |bounds|
    requires rows'[..End(bounds)] == rows[..End(bounds)]
    ensures Block(bounds, rows', k) == Block(bounds, rows, k)
  {
    BoundsMonotone(bounds, k, k);
    var a, b := bounds[k].first, bounds[k].first + bounds[k].n;
    assert rows'[..End(bounds)][a..b] == rows'[a..b] && rows[..End(bounds)][a..b] == rows[a..b];
  }

  lemma AppendedRow(pr: Projection, fields: seq<Field>, bounds: seq<Bound>, segs: map<Field, seq<Segment>>,
                    bufVals: map<Field, seq<Value>>, appended: map<Field, seq<Value>>, bufRIDs: seq<nat>,
                        bufWrite: seq<nat>, bufDel: seq<nat>,
                    rows: seq<Row>, r: Row)
    requires Sound(pr) && BoundsOk(bounds) && End(bounds) <= |rows| && AllSegs(pr, fields, bounds, segs, rows)
    requires BufOk(pr, fields, bufVals, bufRIDs, bufWrite, bufDel, rows, End(bounds)) && r.del == 0
    requires forall f :: f in fields ==> f in appended && f in bufVals
                                         && appended[f] == bufVals[f] + [pr.field(r.doc, f)]
    ensures AllSegs(pr, fields, bounds, segs, rows + [r])
    ensures BufOk(pr, fields, appended, bufRIDs + [|rows|], bufWrite + [r.write], bufDel + [0], rows + [r], End(bounds))
  {
    hide AllSegs;
    SegsFrame(pr, fields, bounds, segs, rows, rows + [r]);
    assert (rows + [r])[End(bounds)..] == rows[End(bounds)..] + [r];
  }

  lemma BufferTombstone(pr: Projection, fields: seq<Field>, bounds: seq<Bound>, segs: map<Field, seq<Segment>>,
                        bufVals: map<Field, seq<Value>>, bufRIDs: seq<nat>, bufWrite: seq<nat>, bufDel: seq<nat>,
                            rows: seq<Row>, rid: nat, ver: nat)
    requires Sound(pr) && BoundsOk(bounds) && End(bounds) <= rid < |rows| && AllSegs(pr, fields, bounds, segs, rows)
    requires BufOk(pr, fields, bufVals, bufRIDs, bufWrite, bufDel, rows, End(bounds)) && rows[rid].del == 0
    ensures var rows' := Tombstone(rows, rid, ver);
            AllSegs(pr, fields, bounds, segs, rows')
            && BufOk(pr, fields, bufVals, bufRIDs, bufWrite, bufDel[rid - End(bounds) := ver], rows', End(bounds))
  {
    hide AllSegs;
    var rows', from := Tombstone(rows, rid, ver), End(bounds);
    SegsFrame(pr, fields, bounds, segs, rows, rows');
    assert rows'[from..] == rows[from..][rid - from := rows[rid].(del := ver)];
  }

  /** Every field's segment `k` takes the tombstone. */
  method StampFields(ghost pr: Projection, fields: seq<Field>, ghost bounds: seq<Bound>, segs: map<Field, seq<Segment>>,
                     ghost rows: seq<Row>,
                     k: nat, off: nat, ver: nat)
    returns (stamped: map<Field, seq<Segment>>)
    requires Distinct(fields) && Sound(pr) && BoundsOk(bounds) && End(bounds) <= |rows| && k < |bounds|
             && off < bounds[k].n
    requires AllSegs(pr, fields, bounds, segs, rows)
    ensures forall f :: f in fields ==> f in segs && |segs[f]| == |bounds| && f in stamped
                                        && stamped[f] == segs[f][k := Restamped(segs[f][k], off, ver)]
  {
    hide SegmentOf, SegAt, Restamped;
    stamped := segs;
    for i := 0 to |fields|
      invariant forall f :: f in fields ==> f in stamped && f in segs && |segs[f]| == |bounds|
      invariant forall j :: i <= j < |fields| ==> stamped[fields[j]] == segs[fields[j]]
      invariant forall j :: 0 <= j < i ==> stamped[fields[j]]
                                           == segs[fields[j]][k := Restamped(segs[fields[j]][k], off, ver)]
    {
      var f := fields[i];
      stamped := stamped[f := stamped[f][k := Restamped(stamped[f][k], off, ver)]];
    }
  }

  function Restamped(s: Segment, off: nat, ver: nat): Segment {
    if off < |s.del| && s.del[off] == 0 then s.(del := s.del[off := ver]) else s
  }

  lemma StampedSegment(pr: Projection, f: Field, rows: seq<Row>, first: nat, off: nat, ver: nat)
    requires Sound(pr) && |rows| <= SEGMENT_SIZE && off < |rows|
    ensures |Tombstone(rows, off, ver)| == |rows|
    ensures Restamped(SegmentOf(pr, f, rows, first), off, ver) == SegmentOf(pr, f, Tombstone(rows, off, ver), first)
  {
    hide EncodeColumn, ZoneOf;
    assert Vals(pr, f, Tombstone(rows, off, ver)) == Vals(pr, f, rows);
    assert Writes(Tombstone(rows, off, ver)) == Writes(rows);
    if rows[off].del == 0 { assert Dels(Tombstone(rows, off, ver)) == Dels(rows)[off := ver]; }
  }

  lemma SegmentTombstone(pr: Projection, fields: seq<Field>, bounds: seq<Bound>, segs: map<Field, seq<Segment>>,
                         stamped: map<Field, seq<Segment>>,
                         bufVals: map<Field, seq<Value>>, bufRIDs: seq<nat>, bufWrite: seq<nat>, bufDel: seq<nat>,
                             rows: seq<Row>, k: nat, off: nat, ver: nat)
    requires Sound(pr) && BoundsOk(bounds) && End(bounds) <= |rows| && k < |bounds| && off < bounds[k].n
    requires AllSegs(pr, fields, bounds, segs, rows)
    requires BufOk(pr, fields, bufVals, bufRIDs, bufWrite, bufDel, rows, End(bounds))
    requires forall f :: f in fields ==> f in segs && |segs[f]| == |bounds| && f in stamped
                                         && stamped[f] == segs[f][k := Restamped(segs[f][k], off, ver)]
    ensures var rows' := Tombstone(rows, bounds[k].first + off, ver);
            && |rows'| == |rows| && AllSegs(pr, fields, bounds, stamped, rows')
            && BufOk(pr, fields, bufVals, bufRIDs, bufWrite, bufDel, rows', End(bounds))
  {
    hide SegmentOf, Restamped;
    BoundsMonotone(bounds, k, k);
    var rows' := Tombstone(rows, bounds[k].first + off, ver);
    assert rows'[End(bounds)..] == rows[End(bounds)..];
    forall f | f in fields ensures f in stamped && SegsOk(pr, f, bounds, stamped[f], rows') {
      forall x | 0 <= x < |bounds| ensures SegAt(pr, f, bounds, stamped[f], rows', x) {
        assert SegAt(pr, f, bounds, segs[f], rows, x);
        TombstoneBlock(bounds, rows, k, off, ver, x);
        StampedSegment(pr, f, Block(bounds, rows, k), bounds[k].first, off, ver);
      }
    }
  }

  lemma TombstoneBlock(bounds: seq<Bound>, rows: seq<Row>, k: nat, off: nat, ver: nat, x: nat)
    requires BoundsOk(bounds) && End(bounds) <= |rows| && k < |bounds| && off < bounds[k].n && x < |bounds|
    ensures var rows' := Tombstone(rows, bounds[k].first + off, ver);
            |rows'| == |rows| && Block(bounds, rows', x) == if x == k then Tombstone(Block(bounds, rows, k), off, ver)
                                                            else Block(bounds, rows, x)
  {
    BoundsMonotone(bounds, k, k);
    BoundsMonotone(bounds, x, x);
    if x < k { BoundsMonotone(bounds, x, k); } else if k < x { BoundsMonotone(bounds, k, x); }
  }

  /** One new segment per field, each buffer cleared. */
  method SealFields(ghost pr: Projection, fields: seq<Field>, ghost rows: seq<Row>, ghost bounds: seq<Bound>,
                    segs: map<Field, seq<Segment>>, bufVals: map<Field, seq<Value>>, bufRIDs: seq<nat>,
                        bufWrite: seq<nat>, bufDel: seq<nat>)
    returns (done: map<Field, seq<Segment>>, cleared: map<Field, seq<Value>>)
    requires Distinct(fields) && Sound(pr) && BoundsOk(bounds) && End(bounds) < |rows| <= End(bounds) + SEGMENT_SIZE
    requires AllSegs(pr, fields, bounds, segs, rows)
    requires BufOk(pr, fields, bufVals, bufRIDs, bufWrite, bufDel, rows, End(bounds))
    ensures forall f :: f in fields ==> f in done && f in segs
                                        && done[f] == segs[f] + [SegmentOf(pr, f, rows[End(bounds)..], End(bounds))]
    ensures forall f :: f in fields ==> f in cleared && cleared[f] == []
  {
    hide SegmentOf, BoundsOk, Vals, Writes, Dels, SegsOk, BufOk;
    ghost var block, from := rows[End(bounds)..], End(bounds);
    done, cleared := segs, bufVals;
    BufferFacts(pr, fields, bufVals, bufRIDs, bufWrite, bufDel, rows, from);
    for i := 0 to |fields|
      invariant forall f :: f in fields ==> f in done && f in cleared && f in segs && f in bufVals
      invariant forall j :: i <= j < |fields| ==> done[fields[j]] == segs[fields[j]]
      invariant forall j :: 0 <= j < i ==> done[fields[j]] == segs[fields[j]] + [SegmentOf(pr, fields[j], block, from)]
      invariant forall j :: 0 <= j < i ==> cleared[fields[j]] == []
    {
      var f := fields[i];
      var seg := BuildSegment(pr, f, block, bufVals[f], bufRIDs, bufWrite, bufDel);
      done := done[f := done[f] + [seg]];
      cleared := cleared[f := []];
    }
  }

  lemma BufferFacts(pr: Projection, fields: seq<Field>, bufVals: map<Field, seq<Value>>, bufRIDs: seq<nat>,
                    bufWrite: seq<nat>, bufDel: seq<nat>,
                    rows: seq<Row>, from: nat)
    requires from <= |rows| && BufOk(pr, fields, bufVals, bufRIDs, bufWrite, bufDel, rows, from)
    ensures |bufRIDs| == |rows[from..]| == |rows| - from && |bufWrite| == |bufRIDs| && |bufDel| == |bufRIDs|
    ensures |bufRIDs| > 0 ==> bufRIDs[0] == from && bufRIDs == Rids(bufRIDs[0], |rows[from..]|)
    ensures forall f :: f in fields ==> f in bufVals && bufVals[f] == Vals(pr, f, rows[from..])
                                        && |bufVals[f]| == |bufRIDs|
    ensures bufWrite == Writes(rows[from..]) && bufDel == Dels(rows[from..])
  {}

  /** Appending the buffered block to every field's segments. */
  lemma FlushedSegs(pr: Projection, fields: seq<Field>, bounds: seq<Bound>, segs: map<Field, seq<Segment>>,
                    done: map<Field, seq<Segment>>,
                    rows: seq<Row>, n: nat)
    requires Sound(pr) && BoundsOk(bounds) && End(bounds) + n == |rows| && 0 < n <= SEGMENT_SIZE
    requires AllSegs(pr, fields, bounds, segs, rows)
    requires forall f :: f in fields ==> f in done && f in segs
                                         && done[f] == segs[f] + [SegmentOf(pr, f, rows[End(bounds)..], End(bounds))]
    ensures var bounds' := bounds + [Bound(End(bounds), n)];
            BoundsOk(bounds') && End(bounds') == |rows| && AllSegs(pr, fields, bounds', done, rows)
  {
    hide SegmentOf;
    var bounds' := bounds + [Bound(End(bounds), n)];
    forall f | f in fields ensures f in done && SegsOk(pr, f, bounds', done[f], rows) {
      forall k | 0 <= k < |bounds'| ensures SegAt(pr, f, bounds', done[f], rows, k) {
        if k < |bounds| {
          assert SegAt(pr, f, bounds, segs[f], rows, k);
        } else {
          assert Block(bounds', rows, k) == rows[End(bounds)..];
        }
      }
    }
  }

  lemma FlushedBuffer(pr: Projection, fields: seq<Field>, bufVals: map<Field, seq<Value>>, rows: seq<Row>)
    requires forall f :: f in fields ==> f in bufVals && bufVals[f] == []
    ensures BufOk(pr, fields, bufVals, [], [], [], rows, |rows|)
  {
    assert rows[|rows|..] == [];
  }

  // ---- scanning -----------------------------------------------------------------------------

  /** First RID of block `k`, or the end of the last block. */
  function Start(bounds: seq<Bound>, k: nat): nat
    requires k <= |bounds|
  {
    End(bounds[..k])
  }

  lemma ScannedNone(pr: Projection, rows: seq<Row>, snap: nat, need: seq<Field>, pred: Option<FieldPred>)
    requires rows == []
    ensures Scanned(pr, rows, snap, need, pred) == []
  {}

  /** What the scan gives of the first `k` blocks: each scanned, unless its zone map rules it out. */
  ghost function Unskipped(pr: Projection, bounds: seq<Bound>, rows: seq<Row>, k: nat, snap: nat, need: seq<Field>,
                           pred: Option<FieldPred>): seq<seq<Value>>
    requires BoundsOk(bounds) && End(bounds) <= |rows| && k <= |bounds|
  {
    if k == 0 then []
    else
      var block := Block(bounds, rows, k - 1);
      Unskipped(pr, bounds, rows, k - 1, snap, need, pred)
      + if pred.Some? && Skips(ZoneOf(Vals(pr, pred.value.field, block)), pred.value.p) then []
        else Scanned(pr, block, snap, need, pred)
  }

  /** One more block of the scan. */
  lemma NextBlock(pr: Projection, bounds: seq<Bound>, rows: seq<Row>, k: nat, snap: nat, need: seq<Field>,
                  pred: Option<FieldPred>)
    requires BoundsOk(bounds) && End(bounds) <= |rows| && k < |bounds|
    ensures Start(bounds, k) <= Start(bounds, k + 1) <= |rows|
    ensures Scanned(pr, rows[..Start(bounds, k + 1)], snap, need, pred)
         == Scanned(pr, rows[..Start(bounds, k)], snap, need, pred)
             + Scanned(pr, Block(bounds, rows, k), snap, need, pred)
    ensures Start(bounds, |bounds|) == End(bounds)
  {
    hide Scanned;
    BoundsMonotone(bounds, k, k);
    assert bounds[..k + 1][k] == bounds[k] && bounds[..|bounds|] == bounds;
    assert k > 0 ==> bounds[..k][k - 1] == bounds[k - 1];
    assert rows[..Start(bounds, k + 1)] == rows[..Start(bounds, k)] + Block(bounds, rows, k);
    ScannedJoin(pr, rows[..Start(bounds, k)], Block(bounds, rows, k), snap, need, pred);
  }

  /** Whether the predicate's zone map rules block `k` out. */
  method ZoneSkips(ghost pr: Projection, pred: FieldPred, ghost bounds: seq<Bound>, segs: seq<Segment>,
                   ghost rows: seq<Row>, k: nat,
                   ghost snap: nat, ghost need: seq<Field>)
    returns (skip: bool)
    requires Sound(pr) && BoundsOk(bounds) && End(bounds) <= |rows| && k < |bounds|
             && SegsOk(pr, pred.field, bounds, segs, rows)
    ensures skip == Skips(ZoneOf(Vals(pr, pred.field, Block(bounds, rows, k))), pred.p)
    ensures skip && Prunable(Vals(pr, pred.field, Block(bounds, rows, k)))
            ==> Scanned(pr, Block(bounds, rows, k), snap, need, Some(pred)) == []
  {
    hide Skips, ZoneOf, Prunable, Scanned, EncodeColumn;
    assert SegAt(pr, pred.field, bounds, segs, rows, k);
    skip := Skips(segs[k].zone, pred.p);
    if skip && Prunable(Vals(pr, pred.field, Block(bounds, rows, k))) {
      SkipDropsNothing(pr, Block(bounds, rows, k), snap, need, pred);
    }
  }

  /** Decoding a segment gives back its block's values. */
  lemma SegmentValues(pr: Projection, f: Field, bounds: seq<Bound>, segs: seq<Segment>, rows: seq<Row>, k: nat)
    requires Sound(pr) && BoundsOk(bounds) && End(bounds) <= |rows| && k < |bounds| && SegsOk(pr, f, bounds, segs, rows)
    ensures DecodeColumn(segs[k].enc) == Some(Vals(pr, f, Block(bounds, rows, k)))
    ensures segs[k].n == |Block(bounds, rows, k)| && segs[k].write == Writes(Block(bounds, rows, k))
            && segs[k].del == Dels(Block(bounds, rows, k))
  {
    hide DecodeColumn, EncodeColumn, ZoneOf, Column;
    assert SegAt(pr, f, bounds, segs, rows, k);
    BoundsMonotone(bounds, k, k);
    ValsColumn(pr, f, Block(bounds, rows, k));
    ColumnRoundTrip(Vals(pr, f, Block(bounds, rows, k)));
  }

  /** The decoded columns of block `k`, in the order asked for. */
  method DecodeBlock(ghost pr: Projection, fields: seq<Field>, ghost bounds: seq<Bound>, segs: map<Field, seq<Segment>>,
                     ghost rows: seq<Row>,
                     k: nat, need: seq<Field>)
    returns (cols: seq<seq<Value>>)
    requires Sound(pr) && BoundsOk(bounds) && End(bounds) <= |rows| && k < |bounds|
             && AllSegs(pr, fields, bounds, segs, rows)
    requires forall f :: f in need ==> f in fields
    ensures |cols| == |need| && forall j :: 0 <= j < |need| ==> cols[j] == Vals(pr, need[j], Block(bounds, rows, k))
  {
    hide DecodeColumn, SegAt, Vals, Block;
    cols := [];
    for j := 0 to |need|
      invariant |cols| == j && forall x :: 0 <= x < j ==> cols[x] == Vals(pr, need[x], Block(bounds, rows, k))
    {
      assert need[j] in fields;
      SegmentValues(pr, need[j], bounds, segs[need[j]], rows, k);
      cols := cols + [DecodeColumn(segs[need[j]][k].enc).value];
    }
  }

  /** The rows of block `k` that survive, decoded from its segments. */
  method ScanSegment(ghost pr: Projection, fields: seq<Field>, ghost bounds: seq<Bound>, segs: map<Field, seq<Segment>>,
                     ghost rows: seq<Row>,
                     k: nat, snap: nat, need: seq<Field>, pred: Option<FieldPred>)
    returns (out: seq<seq<Value>>)
    requires fields != [] && Sound(pr) && BoundsOk(bounds) && End(bounds) <= |rows| && k < |bounds|
             && AllSegs(pr, fields, bounds, segs, rows)
    requires (forall f :: f in need ==> f in fields) && (pred.Some? ==> pred.value.field in fields)
    ensures out == Scanned(pr, Block(bounds, rows, k), snap, need, pred)
  {
    hide AllSegs, SegsOk, Matches, Block;
    ghost var block := Block(bounds, rows, k);
    var cols := DecodeBlock(pr, fields, bounds, segs, rows, k, need);
    var predCol := [];
    if pred.Some? {
      var one := DecodeBlock(pr, fields, bounds, segs, rows, k, [pred.value.field]);
      predCol := one[0];
    }
    VisibilityColumn(pr, fields, bounds, segs, rows, k);
    var vis := segs[fields[0]][k];
    out := [];
    ScannedNone(pr, block[..0], snap, need, pred);
    for i := 0 to vis.n
      invariant out == Scanned(pr, block[..i], snap, need, pred)
    {
      ScannedRow(pr, block, i, snap, need, pred, cols);
      if vis.write[i] <= snap && (vis.del[i] == 0 || vis.del[i] > snap)
          && (pred.None? || Matches(pred.value.p, predCol[i])) {
        out := out + [RowAt(cols, i)];
      }
    }
    assert block[..vis.n] == block;
  }

  function RowAt(cols: seq<seq<Value>>, i: nat): seq<Value>
    requires forall j :: 0 <= j < |cols| ==> i < |cols[j]|
  {
    seq(|cols|, j requires 0 <= j < |cols| => cols[j][i])
  }

  lemma ScannedRow(pr: Projection, block: seq<Row>, i: nat, snap: nat, need: seq<Field>, pred: Option<FieldPred>,
                   cols: seq<seq<Value>>)
    requires i < |block| && |cols| == |need| && forall j :: 0 <= j < |need| ==> cols[j] == Vals(pr, need[j], block)
    ensures forall j :: 0 <= j < |cols| ==> i < |cols[j]|
    ensures RowAt(cols, i) == Projected(pr, need, block[i].doc)
    ensures Scanned(pr, block[..i + 1], snap, need, pred)
         == Scanned(pr, block[..i], snap, need, pred) + if Keeps(pr, block[i], snap, pred)
             then [Projected(pr, need, block[i].doc)] else []
  {
    hide Keeps;
    assert block[..i + 1][..i] == block[..i];
  }

  lemma VisibilityColumn(pr: Projection, fields: seq<Field>, bounds: seq<Bound>, segs: map<Field, seq<Segment>>,
                         rows: seq<Row>, k: nat)
    requires fields != [] && Sound(pr) && BoundsOk(bounds) && End(bounds) <= |rows| && k < |bounds|
             && AllSegs(pr, fields, bounds, segs, rows)
    ensures var block := Block(bounds, rows, k);
            && fields[0] in segs && k < |segs[fields[0]]|
            && var vis := segs[fields[0]][k];
               vis.n == |block| && vis.write == Writes(block) && vis.del == Dels(block)
  {
    hide DecodeColumn, SegAt;
    assert fields[0] in fields;
    SegmentValues(pr, fields[0], bounds, segs[fields[0]], rows, k);
  }

  method ScanBuffer(ghost pr: Projection, ghost fields: seq<Field>, bufVals: map<Field, seq<Value>>, bufRIDs: seq<nat>,
                    bufWrite: seq<nat>,
                    bufDel: seq<nat>, ghost rows: seq<Row>, ghost from: nat, snap: nat, need: seq<Field>,
                        pred: Option<FieldPred>)
    returns (out: seq<seq<Value>>)
    requires from <= |rows| && BufOk(pr, fields, bufVals, bufRIDs, bufWrite, bufDel, rows, from)
    requires (forall f :: f in need ==> f in fields) && (pred.Some? ==> pred.value.field in fields)
    ensures out == Scanned(pr, rows[from..], snap, need, pred)
  {
    hide Matches;
    ghost var block := rows[from..];
    var cols := seq(|need|, j requires 0 <= j < |need| => assert need[j] in need; bufVals[need[j]]);
    out := [];
    ScannedNone(pr, block[..0], snap, need, pred);
    for i := 0 to |bufRIDs|
      invariant out == Scanned(pr, block[..i], snap, need, pred)
    {
      ScannedRow(pr, block, i, snap, need, pred, cols);
      if !(bufWrite[i] > snap || (bufDel[i] != 0 && bufDel[i] <= snap))
          && (pred.None? || Matches(pred.value.p, bufVals[pred.value.field][i])) {
        out := out + [RowAt(cols, i)];
      }
    }
    assert block[..|bufRIDs|] == block;
  }
}
