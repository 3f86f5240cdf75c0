/** The vectorised `$group` on a column store, end to end: from version history to output documents. */
module GroupExec {
  import opened Common
  import opened Overlay
  import opened CollectionModel
  import opened Bits
  import B = Bson
  import opened GroupKey
  import C = ColumnCodec
  import opened ColumnLog
  import opened ColumnStore
  import opened VectorGroup

  /** Group the rows visible at `snap`; `None` when the store lacks a column the spec reads. */
  method Exec(s: Store, ar: Arith, snap: nat, spec: GroupSpec) returns (out: Option<seq<B.Value>>)
    requires s.Valid()
    ensures out.None? <==> exists f :: f in GroupNeed(spec) && f !in s.fields
    ensures out.Some? ==> out.value == FastGroups(ar, spec, GroupNeed(spec),
                          RowsFor(s.pr, s.rows, snap, GroupNeed(spec)))
  {
    hide FastGroups, Scanned, GroupNeed;
    var need := GroupNeed(spec);
    for i := 0 to |need|
      invariant forall j :: 0 <= j < i ==> need[j] in s.fields
    {
      if need[i] !in s.fields { return None; }
    }
    var rows := s.Scan(snap, need, None);
    var groups := FoldRows(ar, spec, need, rows);
    out := Some(groups);
  }

  /** What a scan hands the executor: nothing at all when no column is asked for. */
  ghost function RowsFor(pr: Projection, rows: seq<Row>, snap: nat, need: seq<VectorGroup.Field>): seq<seq<C.Value>> {
    if need == [] then [] else Scanned(pr, rows, snap, need, None)
  }

  function ProjectAll(pr: Projection, docs: seq<Raw>, need: seq<VectorGroup.Field>): seq<seq<C.Value>> {
    seq(|docs|, i requires 0 <= i < |docs| => Projected(pr, need, docs[i]))
  }

  lemma {:induction false} SelectAll(pr: Projection, docs: seq<Raw>, need: seq<VectorGroup.Field>)
    ensures Select(pr, docs, need, None) == ProjectAll(pr, docs, need)
    decreases |docs|
  {
    hide Projected;
    if docs != [] { SelectAll(pr, docs[..|docs| - 1], need); }
  }

  // ---- specs that read no column -------------------------------------------------------------

  /** No column is read: one group over everything, of constants and counts. */
  predicate Columnless(spec: GroupSpec) {
    spec.keyField == [] && forall i :: 0 <= i < |spec.accs| ==> spec.accs[i].field == []
  }

  /** Over `n` documents the accumulator ends where it starts: an int32 constant whose sum wraps to zero. */
  predicate AddsNothing(a: AccSpec, n: nat) {
    a.kind.Sum? && a.width == W32 && U64(a.constant * n) == 0
  }

  lemma NeedsColumn(spec: GroupSpec)
    ensures GroupNeed(spec) == [] <==> Columnless(spec)
  {
    GroupNeedCovers(spec);
    Members(GroupNeed(spec));
  }

  lemma Members(need: seq<VectorGroup.Field>)
    ensures need != [] ==> exists f :: f in need
  {
    if need != [] { assert need[0] in need; }
  }

  lemma I64Zero(x: int)
    ensures I64(x) == 0 <==> U64(x) == 0
  {}

  /** A constant's sum or a count, after `n` documents that were never read. */
  ghost predicate Tallied(a: AccSpec, p: PipeAcc, n: nat) {
    if a.kind.Count? then p == CountAcc(n)
    else a.kind.Sum? && p.SumAcc? && p.i == I64(a.constant * n) && p.width == if n == 0 then W32 else a.width
  }

  lemma Tally(ar: Arith, a: AccSpec, p: PipeAcc, doc: seq<B.Elem>, n: nat)
    requires a.field == [] && (a.kind.Sum? ==> a.width != WDOUBLE) && Tallied(a, p, n)
    ensures Tallied(a, PipeStep(ar, p, Eval(ArgOf(a), doc)), n + 1)
  {
    hide I64, Eval;
    EvalConstant(a, doc);
    I64Adds(a.constant * n, a.constant);
    assert a.constant * n + a.constant == a.constant * (n + 1);
  }

  lemma {:induction false} ConstantsAccumulate(ar: Arith, spec: GroupSpec, docs: seq<seq<B.Elem>>, j: nat)
    requires Parsed(spec) && Columnless(spec) && j < |spec.accs|
    ensures |Accumulated(ar, spec, docs)| == |spec.accs|
    ensures Tallied(spec.accs[j], Accumulated(ar, spec, docs)[j], |docs|)
    decreases |docs|
  {
    assert ParsedAcc(spec.accs[j]) && spec.accs[j].field == [];
    if docs == [] {
      assert I64(0) == 0;
    } else {
      hide Tallied, PipeStep, Eval;
      var n := |docs| - 1;
      ConstantsAccumulate(ar, spec, docs[..n], j);
      Tally(ar, spec.accs[j], Accumulated(ar, spec, docs[..n])[j], docs[n], n);
    }
  }

  lemma EvalConstant(a: AccSpec, doc: seq<B.Elem>)
    requires a.field == []
    ensures Eval(ArgOf(a), doc) == if a.width == W32 then B.Int32(a.constant) else B.Int64(a.constant)
  {}

  /** Without a key every document is in the one group. */
  lemma {:induction false} OneBucket(spec: GroupSpec, docs: seq<seq<B.Elem>>)
    requires spec.keyField == []
    ensures Bucket(spec, docs, WriteKey(B.Null)) == docs
    decreases |docs|
  {
    hide WriteKey, IdOf;
    if docs != [] {
      var head, doc := docs[..|docs| - 1], docs[|docs| - 1];
      NullId(spec, doc);
      OneBucket(spec, head);
      BucketStep(spec, docs, WriteKey(B.Null));
      hide Bucket;
      assert docs == head + [doc];
    }
  }

  lemma {:induction false} OneKey(spec: GroupSpec, docs: seq<seq<B.Elem>>)
    requires spec.keyField == []
    ensures FirstSeen(spec, docs) == if docs == [] then [] else [WriteKey(B.Null)]
    decreases |docs|
  {
    hide WriteKey, IdOf;
    if docs != [] {
      NullId(spec, docs[|docs| - 1]);
      OneKey(spec, docs[..|docs| - 1]);
    }
  }

  lemma NullId(spec: GroupSpec, doc: seq<B.Elem>)
    requires spec.keyField == []
    ensures IdOf(spec, doc) == B.Null
  {}

  lemma OneGroup(ar: Arith, spec: GroupSpec, docs: seq<seq<B.Elem>>)
    requires spec.keyField == []
    ensures PipelineGroup(ar, spec, docs) ==
              if docs == [] then [] else [PipeDoc(ar, spec, PipeGroup(B.Null, Accumulated(ar, spec, docs)))]
  {
    hide WriteKey, PipeDoc, Accumulated, PipeRow;
    GroupsMean(ar, spec, docs);
    OneBucket(spec, docs);
    OneKey(spec, docs);
    hide Bucket, FirstSeen, PipeFold;
    if docs != [] { assert PipeFold(ar, spec, docs).list == [GroupOf(ar, spec, docs)]; }
  }

  /** What the executor answers when it is handed no rows: zeros, whatever the collection holds. */
  lemma NoRows(ar: Arith, spec: GroupSpec)
    requires Parsed(spec) && Columnless(spec)
    ensures FastGroups(ar, spec, [], []) == [B.Document([B.Elem(ID_KEY, B.Null)] + Zeros(spec))]
  {
    var out := seq(|spec.accs|, i requires 0 <= i < |spec.accs| =>
                     B.Elem(spec.accs[i].out, Result(ar, spec.accs[i], NEW_ACC)));
    forall i | 0 <= i < |spec.accs| ensures Result(ar, spec.accs[i], NEW_ACC) == B.Int32(0) {
      assert ParsedAcc(spec.accs[i]);
    }
    assert out == Zeros(spec);
    var g := VectorGroup.FastGroup(C.Null, NewAccs(spec));
    assert FastDoc(ar, spec, g) == B.Document([B.Elem(ID_KEY, B.Null)] + out);
  }

  function Zeros(spec: GroupSpec): seq<B.Elem> {
    seq(|spec.accs|, i requires 0 <= i < |spec.accs| => B.Elem(spec.accs[i].out, B.Int32(0)))
  }

  /** One accumulator's result over some documents is that over none exactly when they add nothing. */
  lemma ZeroIff(ar: Arith, spec: GroupSpec, docs: seq<seq<B.Elem>>, j: nat)
    requires Parsed(spec) && Columnless(spec) && j < |spec.accs| && docs != []
    ensures |Accumulated(ar, spec, docs)| == |spec.accs|
    ensures var r := PipeResult(ar, Accumulated(ar, spec, docs)[j]);
            !r.Missing? && (r == B.Int32(0) <==> AddsNothing(spec.accs[j], |docs|))
  {
    ConstantsAccumulate(ar, spec, docs, j);
    assert ParsedAcc(spec.accs[j]);
    I64Zero(spec.accs[j].constant * |docs|);
    hide Accumulated, I64, U64;
  }

  /** A spec that reads no column is answered right exactly when there are documents and all of them add nothing. */
  lemma ColumnlessIff(ar: Arith, spec: GroupSpec, docs: seq<seq<B.Elem>>)
    requires Parsed(spec) && Columnless(spec)
    ensures FastGroups(ar, spec, [], []) == PipelineGroup(ar, spec, docs) <==>
            docs != [] && forall j :: 0 <= j < |spec.accs| ==> AddsNothing(spec.accs[j], |docs|)
  {
    hide FastGroups, PipelineGroup, Accumulated, PipeResult, AddsNothing, Parsed;
    NoRows(ar, spec);
    OneGroup(ar, spec, docs);
    if docs != [] {
      var accs := Accumulated(ar, spec, docs);
      forall j | 0 <= j < |spec.accs|
        ensures |accs| == |spec.accs| && !PipeResult(ar, accs[j]).Missing?
        ensures PipeResult(ar, accs[j]) == B.Int32(0) <==> AddsNothing(spec.accs[j], |docs|)
      {
        ZeroIff(ar, spec, docs, j);
      }
      AccsSize(ar, spec, docs);
      PresentAll(ar, spec.accs, accs);
      SameTail(spec, Present(ar, spec.accs, accs), accs, ar);
    }
  }

  lemma {:induction false} AccsSize(ar: Arith, spec: GroupSpec, docs: seq<seq<B.Elem>>)
    ensures |Accumulated(ar, spec, docs)| == |spec.accs|
    decreases |docs|
  {
    if docs != [] { AccsSize(ar, spec, docs[..|docs| - 1]); }
  }

  /** The output documents are equal exactly when every result is zero. */
  lemma SameTail(spec: GroupSpec, es: seq<B.Elem>, accs: seq<PipeAcc>, ar: Arith)
    requires |es| == |spec.accs| == |accs|
    requires forall i :: 0 <= i < |es| ==> es[i] == B.Elem(spec.accs[i].out, PipeResult(ar, accs[i]))
    ensures [B.Document([B.Elem(ID_KEY, B.Null)] + Zeros(spec))] == [B.Document([B.Elem(ID_KEY, B.Null)] + es)] <==>
            forall i :: 0 <= i < |accs| ==> PipeResult(ar, accs[i]) == B.Int32(0)
  {
    hide PipeResult;
    var id := [B.Elem(ID_KEY, B.Null)];
    assert (id + Zeros(spec))[1..] == Zeros(spec) && (id + es)[1..] == es;
    assert [B.Document(id + Zeros(spec))] == [B.Document(id + es)] <==> Zeros(spec) == es by {
      if [B.Document(id + Zeros(spec))] == [B.Document(id + es)] {
        assert [B.Document(id + Zeros(spec))][0] == [B.Document(id + es)][0];
      }
    }
    if Zeros(spec) == es {
      forall i | 0 <= i < |accs| ensures PipeResult(ar, accs[i]) == B.Int32(0) { assert es[i] == Zeros(spec)[i]; }
    }
    if forall i :: 0 <= i < |accs| ==> PipeResult(ar, accs[i]) == B.Int32(0) { assert es == Zeros(spec); }
  }

  /** Below 2^33 documents no nonzero int32 constant wraps to zero. */
  lemma ZeroConstant(a: AccSpec, n: nat)
    requires ParsedAcc(a) && a.field == [] && 0 < n < 0x2_0000_0000
    ensures AddsNothing(a, n) <==> a.kind.Sum? && a.width == W32 && a.constant == 0
  {
    if a.kind.Sum? && a.width == W32 {
      var x := a.constant * n;
      if a.constant > 0 {
        assert 0 < x < TWO64;
      } else if a.constant < 0 {
        assert -TWO64 < x < 0;
      }
    }
  }

  // ---- at a snapshot ------------------------------------------------------------------------------

  /**
   At a snapshot the rows show, the executor's groups are the pipeline's groups over the rebuilt
   documents, each document the snapshot shows counted exactly once, exactly when there is a key,
   or a document is shown and a column is read or what is accumulated over the documents is nothing.
   */
  lemma GroupsOfSnapshot(pr: Projection, ar: Arith, sch: Schema, full: History, rows: seq<Row>, snap: nat,
                         spec: GroupSpec)
    requires Shows(sch, full, rows, snap) && Parsed(spec)
    requires forall d :: DocAt(full(sch.keyOf(d)), snap) == Some(d)
                         ==> CleanRow(spec, GroupNeed(spec), Projected(pr, GroupNeed(spec), d))
    ensures var docs, need := VisibleDocs(rows, snap), GroupNeed(spec);
            && (FastGroups(ar, spec, need, RowsFor(pr, rows, snap, need))
                == PipelineGroup(ar, spec, RebuiltAll(need, ProjectAll(pr, docs, need)))
                <==> spec.keyField != []
                     || (docs != [] && (!Columnless(spec)
                                        || forall j :: 0 <= j < |spec.accs| ==> AddsNothing(spec.accs[j], |docs|))))
            && (forall d :: d in docs <==> DocAt(full(sch.keyOf(d)), snap) == Some(d))
            && (forall i, j :: 0 <= i < j < |docs| ==> sch.keyOf(docs[i]) != sch.keyOf(docs[j]))
  {
    hide FastGroups, PipelineGroup, Scanned, GroupNeed, Parsed, CleanRow, RebuiltAll, Select, VisibleDocs, DocAt, Shows,
        Projected, AddsNothing;
    var docs, need := VisibleDocs(rows, snap), GroupNeed(spec);
    ScanAnswers(pr, sch, full, rows, snap, need, None);
    NeedsColumn(spec);
    var cells := ProjectAll(pr, docs, need);
    RebuiltSize(need, cells);
    if Columnless(spec) {
      ColumnlessIff(ar, spec, RebuiltAll(need, cells));
    } else {
      SelectAll(pr, docs, need);
      forall i | 0 <= i < |cells| ensures CleanRow(spec, need, cells[i]) { assert docs[i] in docs; }
      ExecutorMatchesPipeline(ar, spec, cells);
    }
  }

  lemma RebuiltSize(need: seq<VectorGroup.Field>, rows: seq<seq<C.Value>>)
    ensures |RebuiltAll(need, rows)| == |rows|
  {}

  /** `{$group: {_id: null, n: {$count: {}}}}` counts no document of however many there are. */
  lemma CountOfNothing(pr: Projection, ar: Arith, rows: seq<Row>, snap: nat, out: VectorGroup.Field)
    requires VisibleDocs(rows, snap) != []
    ensures var spec := GroupSpec([], [AccSpec(out, Count, [], 0, W32)]);
            var docs, need := VisibleDocs(rows, snap), GroupNeed(spec);
            && need == [] && FastGroups(ar, spec, need, RowsFor(pr, rows, snap, need))
                             == [B.Document([B.Elem(ID_KEY, B.Null), B.Elem(out, B.Int32(0))])]
            && PipelineGroup(ar, spec, RebuiltAll(need, ProjectAll(pr, docs, need)))
               == [B.Document([B.Elem(ID_KEY, B.Null), B.Elem(out, MakeNum(|docs|, ar.ofInt(|docs|), W32))])]
  {
    hide FastGroups, PipelineGroup, GroupNeed, RebuiltAll, Projected, VisibleDocs, Accumulated, ProjectAll;
    var acc := AccSpec(out, Count, [], 0, W32);
    var spec := GroupSpec([], [acc]);
    var cells := ProjectAll(pr, VisibleDocs(rows, snap), []);
    var docs, id := RebuiltAll([], cells), B.Elem(ID_KEY, B.Null);
    NeedsColumn(spec);
    NoRows(ar, spec);
    assert Zeros(spec) == [B.Elem(out, B.Int32(0))];
    assert [id] + [B.Elem(out, B.Int32(0))] == [id, B.Elem(out, B.Int32(0))];
    RebuiltSize([], cells);
    ProjectSize(pr, VisibleDocs(rows, snap), []);
    CountsAll(ar, spec, docs);
  }

  lemma ProjectSize(pr: Projection, docs: seq<Raw>, need: seq<VectorGroup.Field>)
    ensures |ProjectAll(pr, docs, need)| == |docs|
  {}

  lemma CountsAll(ar: Arith, spec: GroupSpec, docs: seq<seq<B.Elem>>)
    requires spec.keyField == [] && |spec.accs| == 1 && spec.accs[0] == AccSpec(spec.accs[0].out, Count, [], 0, W32)
    requires docs != []
    ensures PipelineGroup(ar, spec, docs) == [B.Document(
              [B.Elem(ID_KEY, B.Null), B.Elem(spec.accs[0].out, MakeNum(|docs|, ar.ofInt(|docs|), W32))])]
  {
    hide PipelineGroup, Accumulated;
    OneGroup(ar, spec, docs);
    ConstantsAccumulate(ar, spec, docs, 0);
    var accs := Accumulated(ar, spec, docs);
    PresentAll(ar, spec.accs, accs);
    var id, e := B.Elem(ID_KEY, B.Null), B.Elem(spec.accs[0].out, MakeNum(|docs|, ar.ofInt(|docs|), W32));
    assert Present(ar, spec.accs, accs) == [e];
    assert [id] + [e] == [id, e];
  }
}
