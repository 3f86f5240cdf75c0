/**
 `$group` computed twice: straight from the decoded columns, and by the aggregation pipeline
 over documents rebuilt from them. The two are proved to emit the same documents in the same
 order. Double arithmetic is a parameter, so sums agree bit for bit whatever it does.
 */
module VectorGroup {
  import opened Common
  import opened Bits
  import opened Float64
  import B = Bson
  import opened BsonCodec
  import opened GroupKey
  import C = ColumnCodec
  import opened ColumnValue

  type Field = seq<byte>

  /** Double arithmetic on bit patterns. */
  datatype Arith = Arith(add: (int, int) -> int, div: (int, int) -> int, ofInt: int -> int)

  /** int32 < int64 < double. */
  type Width = w: int | 0 <= w <= 2
  const W32: Width := 0
  const W64: Width := 1
  const WDOUBLE: Width := 2

  function Widen(a: Width, b: Width): Width { if a > b then a else b }

  function MakeNum(i: int, f: int, w: Width): B.Value {
    if w == W32 then (if -0x8000_0000 <= i < 0x8000_0000 then B.Int32(i) else B.Int64(i))
    else if w == W64 then B.Int64(i)
    else B.Double(f)
  }

  datatype AccKind = Sum | Avg | Min | Max | Count

  /** An accumulator over a column, or over an integer constant when `field` is empty. */
  datatype AccSpec = AccSpec(out: Field, kind: AccKind, field: Field, constant: int, width: Width)

  /** Group by a column, or the whole collection when `keyField` is empty. */
  datatype GroupSpec = GroupSpec(keyField: Field, accs: seq<AccSpec>)

  /** What the parser accepts: only `$sum` takes a constant, and that an integer. */
  predicate Parsed(spec: GroupSpec) {
    forall i :: 0 <= i < |spec.accs| ==> ParsedAcc(spec.accs[i])
  }

  predicate ParsedAcc(a: AccSpec) {
    && (a.kind.Avg? || a.kind.Min? || a.kind.Max? ==> a.field != [])
    && (a.kind.Sum? && a.field == [] ==> a.width != WDOUBLE
                                         && (a.width == W32 ==> -0x8000_0000 <= a.constant < 0x8000_0000))
  }

  // ---- columns straight into accumulators ------------------------------------------------

  datatype Acc = Acc(i: int, f: int, width: Width, fAvg: int, nAvg: nat, isSet: bool, best: C.Value, bestRaw: B.Value,
      count: nat)

  const NEW_ACC := Acc(0, 0, W32, 0, 0, false, C.Null, B.Missing, 0)

  /** A column value as a number: integers are int64, bools are not numbers here. */
  function NumParts(ar: Arith, v: C.Value): Option<(int, int, Width)> {
    match v
    case Int(i) => Some((i, ar.ofInt(i), W64))
    case Float(bits) => Some((0, bits, WDOUBLE))
    case _ => None
  }

  /** Comparison without rebuilding values, where it is known to agree with the full order. */
  function CheapCompare(a: C.Value, b: C.Value): Option<int> {
    if (a.Int? || a.Float?) && (b.Int? || b.Float?) then
      if a.Int? && (a.i > EXACT || a.i < -EXACT) then None
      else if b.Int? && (b.i > EXACT || b.i < -EXACT) then None
      else Some(Cmp(ColumnFloat(a), ColumnFloat(b)))
    else if a.Str? && b.Str? then Some(B.CmpBytes(a.s, b.s))
    else if a.Bool? && b.Bool? then Some(B.CmpInt(a.i, b.i))
    else if a.Null? && b.Null? then Some(0)
    else None
  }

  function ColumnFloat(v: C.Value): F64
    requires v.Int? || v.Float?
  {
    if v.Int? then Fin(FloatOfInt(v.i)) else ToF64(v.bits)
  }

  predicate Better(max: bool, c: int) { if max then c > 0 else c < 0 }

  function StepMinMax(a: Acc, max: bool, v: C.Value): Acc {
    if v.Null? then a
    else if !a.isSet then a.(best := v, bestRaw := ToRaw(v), isSet := true)
    else
      var c := match CheapCompare(v, a.best) case Some(c) => c case None => B.Compare(ToRaw(v), a.bestRaw);
      if Better(max, c) then a.(best := v, bestRaw := ToRaw(v)) else a
  }

  function StepSum(ar: Arith, spec: AccSpec, a: Acc, v: C.Value): Acc {
    if spec.field == [] then
      a.(i := I64(a.i + spec.constant), f := ar.add(a.f, ar.ofInt(spec.constant)), width := Widen(a.width, spec.width))
    else match NumParts(ar, v)
      case None => a
      case Some((i, f, w)) => a.(i := I64(a.i + i), f := ar.add(a.f, f), width := Widen(a.width, w))
  }

  function Step(ar: Arith, spec: AccSpec, a: Acc, v: C.Value): Acc {
    match spec.kind
    case Sum => StepSum(ar, spec, a, v)
    case Avg =>
      (match NumParts(ar, v)
       case None => a
       case Some((_, f, _)) => a.(fAvg := ar.add(a.fAvg, f), nAvg := a.nAvg + 1))
    case Min => StepMinMax(a, false, v)
    case Max => StepMinMax(a, true, v)
    case Count => a.(count := a.count + 1)
  }

  function Result(ar: Arith, spec: AccSpec, a: Acc): B.Value {
    match spec.kind
    case Sum => MakeNum(a.i, a.f, a.width)
    case Avg => if a.nAvg == 0 then B.Null else B.Double(ar.div(a.fAvg, ar.ofInt(a.nAvg)))
    case Min => if a.isSet then a.bestRaw else B.Null
    case Max => if a.isSet then a.bestRaw else B.Null
    case Count => MakeNum(a.count, ar.ofInt(a.count), W32)
  }

  function ColumnKey(v: C.Value): Bytes {
    match v
    case Null => [0x5A]
    case Int(i) => [0x49] + FormatInt(i)
    case Float(bits) => DoubleKey(bits)
    case Bool(i) => [0x42, if i != 0 then 0x31 else 0x30]
    case Str(s) => [0x53] + s
    case Other(t, s) => [0x52, t] + s
  }

  // ---- the pipeline's stage --------------------------------------------------------------

  datatype Expr = Path(field: Field) | Const(v: B.Value)

  datatype PipeAcc =
    | SumAcc(i: int, f: int, width: Width)
    | AvgAcc(sum: int, n: nat)
    | MinMaxAcc(max: bool, best: B.Value, isSet: bool)
    | CountAcc(count: nat)

  /** Widths 0 to 2 as above; anything else is not a number. */
  function NumOf(ar: Arith, v: B.Value): Option<(int, int, Width)> {
    match v
    case Int32(i) => Some((i, ar.ofInt(i), W32))
    case Int64(i) => Some((i, ar.ofInt(i), W64))
    case Double(bits) => Some((0, bits, WDOUBLE))
    case _ => None
  }

  function PipeStep(ar: Arith, a: PipeAcc, v: B.Value): PipeAcc {
    match a
    case SumAcc(i, f, w) =>
      (match NumOf(ar, v)
       case None => a
       case Some((x, y, k)) => SumAcc(I64(i + x), ar.add(f, y), Widen(w, k)))
    case AvgAcc(s, n) => (match NumOf(ar, v) case None => a case Some((_, y, _)) => AvgAcc(ar.add(s, y), n + 1))
    case MinMaxAcc(max, best, isSet) =>
      if v.Missing? then a
      else if !isSet || Better(max, B.Compare(v, best)) then MinMaxAcc(max, v, true) else a
    case CountAcc(n) => CountAcc(n + 1)
  }

  function PipeResult(ar: Arith, a: PipeAcc): B.Value {
    match a
    case SumAcc(i, f, w) => if w == WDOUBLE then B.Double(f) else MakeNum(i, f, w)
    case AvgAcc(s, n) => if n == 0 then B.Null else B.Double(ar.div(s, ar.ofInt(n)))
    case MinMaxAcc(_, best, isSet) => if isSet then best else B.Null
    case CountAcc(n) => MakeNum(n, ar.ofInt(n), W32)
  }

  function NewPipeAcc(kind: AccKind): PipeAcc {
    match kind
    case Sum => SumAcc(0, 0, W32)
    case Avg => AvgAcc(0, 0)
    case Min => MinMaxAcc(false, B.Missing, false)
    case Max => MinMaxAcc(true, B.Missing, false)
    case Count => CountAcc(0)
  }

  /** The expression an accumulator was parsed from. */
  function ArgOf(a: AccSpec): Expr {
    if a.field != [] then Path(a.field) else Const(if a.width == W32 then B.Int32(a.constant) else B.Int64(a.constant))
  }

  function KeyExpr(spec: GroupSpec): Expr {
    if spec.keyField != [] then Path(spec.keyField) else Const(B.Null)
  }

  /** A dot-free path reads the first field of that name. */
  function FieldOf(es: seq<B.Elem>, f: Field): B.Value {
    if es == [] then B.Missing else if es[0].key == f then es[0].value else FieldOf(es[1..], f)
  }

  function Eval(e: Expr, doc: seq<B.Elem>): B.Value {
    match e case Path(f) => FieldOf(doc, f) case Const(v) => v
  }

  // ---- hash grouping ---------------------------------------------------------------------

  /** Groups in first-seen order and the position of each key's group. */
  datatype Groups<G> = Groups(index: map<Bytes, nat>, list: seq<G>)

  ghost predicate Indexed<G>(gs: Groups<G>) {
    forall k :: k in gs.index ==> gs.index[k] < |gs.list|
  }

  /** The groups with one for `k`, new if need be. */
  function Enter<G>(gs: Groups<G>, k: Bytes, start: G): (r: Groups<G>)
    ensures k in r.index
    ensures Indexed(gs) ==> Indexed(r)
  {
    if k in gs.index then gs else Groups(gs.index[k := |gs.list|], gs.list + [start])
  }

  datatype FastGroup = FastGroup(id: C.Value, accs: seq<Acc>)
  datatype PipeGroup = PipeGroup(id: B.Value, accs: seq<PipeAcc>)

  function IndexOf(fs: seq<Field>, f: Field): (i: int)
    ensures -1 <= i < |fs| && (i >= 0 ==> fs[i] == f) && (i < 0 ==> f !in fs)
  {
    if fs == [] then -1 else if fs[0] == f then 0 else var i := IndexOf(fs[1..], f); if i < 0 then -1 else i + 1
  }

  /** Column `f` of a row; a spec with no column reads null. */
  function Cell(need: seq<Field>, row: seq<C.Value>, f: Field): C.Value {
    var i := if f == [] then -1 else IndexOf(need, f);
    if 0 <= i < |row| then row[i] else C.Null
  }

  function StepAll(ar: Arith, need: seq<Field>, row: seq<C.Value>, specs: seq<AccSpec>, accs: seq<Acc>): seq<Acc> {
    seq(|accs|, i requires 0 <= i < |accs| => if i < |specs|
        then Step(ar, specs[i], accs[i], Cell(need, row, specs[i].field)) else accs[i])
  }

  function PipeStepAll(ar: Arith, doc: seq<B.Elem>, specs: seq<AccSpec>, accs: seq<PipeAcc>): seq<PipeAcc> {
    seq(|accs|, i requires 0 <= i < |accs| => if i < |specs| then PipeStep(ar, accs[i], Eval(ArgOf(specs[i]), doc))
                                              else accs[i])
  }

  function NewAccs(spec: GroupSpec): seq<Acc> { seq(|spec.accs|, _ => NEW_ACC) }

  function NewPipeAccs(spec: GroupSpec): seq<PipeAcc> {
    seq(|spec.accs|, i requires 0 <= i < |spec.accs| => NewPipeAcc(spec.accs[i].kind))
  }

  function FastRow(ar: Arith, spec: GroupSpec, need: seq<Field>, gs: Groups<FastGroup>,
                   row: seq<C.Value>): Groups<FastGroup> {
    var id := Cell(need, row, spec.keyField);
    var k := ColumnKey(id);
    var e := Enter(gs, k, FastGroup(id, NewAccs(spec)));
    if e.index[k] >= |e.list| then e
    else e.(list := e.list[e.index[k] :=
        e.list[e.index[k]].(accs := StepAll(ar, need, row, spec.accs, e.list[e.index[k]].accs))])
  }

  function PipeRow(ar: Arith, spec: GroupSpec, gs: Groups<PipeGroup>, doc: seq<B.Elem>): Groups<PipeGroup> {
    var raw := Eval(KeyExpr(spec), doc);
    var id := if raw.Missing? then B.Null else raw;
    var k := WriteKey(id);
    var e := Enter(gs, k, PipeGroup(id, NewPipeAccs(spec)));
    if e.index[k] >= |e.list| then e
    else e.(list := e.list[e.index[k] :=
        e.list[e.index[k]].(accs := PipeStepAll(ar, doc, spec.accs, e.list[e.index[k]].accs))])
  }

  function FastFold(ar: Arith, spec: GroupSpec, need: seq<Field>, rows: seq<seq<C.Value>>): Groups<FastGroup> {
    if rows == [] then Groups(map[], [])
    else FastRow(ar, spec, need, FastFold(ar, spec, need, rows[..|rows| - 1]), rows[|rows| - 1])
  }

  function PipeFold(ar: Arith, spec: GroupSpec, docs: seq<seq<B.Elem>>): Groups<PipeGroup> {
    if docs == [] then Groups(map[], [])
    else PipeRow(ar, spec, PipeFold(ar, spec, docs[..|docs| - 1]), docs[|docs| - 1])
  }

  const ID_KEY: Bytes := [0x5F, 0x69, 0x64]

  function FastDoc(ar: Arith, spec: GroupSpec, g: FastGroup): B.Value {
    B.Document([B.Elem(ID_KEY, ToRaw(g.id))]
               + seq(|g.accs|, i requires 0 <= i < |g.accs| => if i < |spec.accs|
                   then B.Elem(spec.accs[i].out, Result(ar, spec.accs[i], g.accs[i])) else B.Elem([], B.Null)))
  }

  /** Accumulator results that are present, after the group's `_id`. */
  function PipeDoc(ar: Arith, spec: GroupSpec, g: PipeGroup): B.Value {
    B.Document([B.Elem(ID_KEY, g.id)] + Present(ar, spec.accs, g.accs))
  }

  function Present(ar: Arith, specs: seq<AccSpec>, accs: seq<PipeAcc>): seq<B.Elem> {
    if specs == [] || accs == [] then []
    else
      var v := PipeResult(ar, accs[0]);
      (if v.Missing? then [] else [B.Elem(specs[0].out, v)]) + Present(ar, specs[1..], accs[1..])
  }

  /** The pipeline's answer over the given documents. */
  function PipelineGroup(ar: Arith, spec: GroupSpec, docs: seq<seq<B.Elem>>): seq<B.Value> {
    var gs := PipeFold(ar, spec, docs).list;
    seq(|gs|, i requires 0 <= i < |gs| => PipeDoc(ar, spec, gs[i]))
  }

  /** The executor's answer: a spec without a key folds every row into one group made in advance. */
  function FastGroups(ar: Arith, spec: GroupSpec, need: seq<Field>, rows: seq<seq<C.Value>>): seq<B.Value> {
    var gs := if spec.keyField == [] && rows == [] then [FastGroup(C.Null, NewAccs(spec))]
              else FastFold(ar, spec, need, rows).list;
    seq(|gs|, i requires 0 <= i < |gs| => FastDoc(ar, spec, gs[i]))
  }

  /** A row as the document the slow path rebuilds: null columns are left out. */
  function Rebuilt(need: seq<Field>, row: seq<C.Value>): seq<B.Elem> {
    if need == [] || row == [] then []
    else (if row[0].Null? then [] else [B.Elem(need[0], ToRaw(row[0]))]) + Rebuilt(need[1..], row[1..])
  }

  // ---- the two agree ---------------------------------------------------------------------

  /** The columns a spec reads, each once. */
  function Dedup(fs: seq<Field>): (need: seq<Field>)
    ensures forall f :: f in need <==> f in fs && f != []
    ensures Distinct(need)
  {
    if fs == [] then []
    else
      var head, f := Dedup(fs[..|fs| - 1]), fs[|fs| - 1];
      assert fs == fs[..|fs| - 1] + [f];
      if f == [] || f in head then head else (DistinctSnoc(head, f); head + [f])
  }

  function GroupNeed(spec: GroupSpec): seq<Field> {
    Dedup([spec.keyField] + seq(|spec.accs|, i requires 0 <= i < |spec.accs| => spec.accs[i].field))
  }

  lemma GroupNeedCovers(spec: GroupSpec)
    ensures Distinct(GroupNeed(spec))
    ensures spec.keyField != [] ==> spec.keyField in GroupNeed(spec)
    ensures forall i :: 0 <= i < |spec.accs| && spec.accs[i].field != [] ==> spec.accs[i].field in GroupNeed(spec)
  {
    var fs := [spec.keyField] + seq(|spec.accs|, i requires 0 <= i < |spec.accs| => spec.accs[i].field);
    assert fs[0] == spec.keyField;
    forall i | 0 <= i < |spec.accs| ensures spec.accs[i].field in fs { assert fs[i + 1] == spec.accs[i].field; }
  }

  predicate ColumnNaN(c: C.Value) { c.Float? && ToF64(c.bits).NaN? }

  /** Rows as projections of stored values, with scalar group keys and no NaN under a minimum or maximum. */
  ghost predicate CleanRow(spec: GroupSpec, need: seq<Field>, row: seq<C.Value>) {
    && |row| == |need|
    && (forall j :: 0 <= j < |row| ==> Stored(row[j]))
    && !ToRaw(Cell(need, row, spec.keyField)).Document? && !ToRaw(Cell(need, row, spec.keyField)).Array?
    && (forall i :: 0 <= i < |spec.accs| && (spec.accs[i].kind.Min? || spec.accs[i].kind.Max?)
                    ==> !ColumnNaN(Cell(need, row, spec.accs[i].field)))
  }

  lemma NullStored()
    ensures Stored(C.Null)
  {
    assert FromRaw(B.Null) == C.Null;
  }

  lemma CellStored(spec: GroupSpec, need: seq<Field>, row: seq<C.Value>, f: Field)
    requires CleanRow(spec, need, row)
    ensures Stored(Cell(need, row, f))
  {
    hide Stored;
    NullStored();
  }

  /** Where the cheap comparison answers, it answers like the full order. */
  lemma CheapAgrees(a: C.Value, b: C.Value)
    requires C.WellFormed(a) && C.WellFormed(b) && !ColumnNaN(a) && !ColumnNaN(b) && CheapCompare(a, b).Some?
    ensures CheapCompare(a, b).value == B.Compare(ToRaw(a), ToRaw(b))
  {
    hide ToF64, B.CmpBytes;
    if (a.Int? || a.Float?) && (b.Int? || b.Float?) {
      B.NumbersExact(ToRaw(a), ToRaw(b));
    }
  }

  /** A cell reads as its value in the rebuilt document, or as missing when null. */
  lemma {:induction false} RebuiltField(need: seq<Field>, row: seq<C.Value>, f: Field)
    requires Distinct(need) && |row| == |need| && f in need && f != []
    ensures FieldOf(Rebuilt(need, row), f) == if Cell(need, row, f).Null? then B.Missing else ToRaw(Cell(need, row, f))
    decreases |need|
  {
    hide ToRaw;
    if need[0] == f {
      if row[0].Null? {
        AbsentField(need[1..], row[1..], f);
        assert [] + Rebuilt(need[1..], row[1..]) == Rebuilt(need[1..], row[1..]);
      }
    } else {
      assert f in need[1..];
      RebuiltField(need[1..], row[1..], f);
      var i := IndexOf(need[1..], f);
      assert row[1..][i] == row[i + 1];
      var tail := Rebuilt(need[1..], row[1..]);
      assert [] + tail == tail;
      if !row[0].Null? { assert ([B.Elem(need[0], ToRaw(row[0]))] + tail)[1..] == tail; }
    }
  }

  lemma {:induction false} AbsentField(need: seq<Field>, row: seq<C.Value>, f: Field)
    requires f !in need
    ensures FieldOf(Rebuilt(need, row), f) == B.Missing
    decreases |need|
  {
    hide ToRaw;
    if need != [] && row != [] {
      AbsentField(need[1..], row[1..], f);
      var tail := Rebuilt(need[1..], row[1..]);
      assert [] + tail == tail;
      if !row[0].Null? { assert ([B.Elem(need[0], ToRaw(row[0]))] + tail)[1..] == tail; }
    }
  }

  /** An executor accumulator and the pipeline's hold the same. */
  ghost predicate SameAcc(spec: AccSpec, a: Acc, p: PipeAcc) {
    match spec.kind
    case Sum => p == SumAcc(a.i, a.f, a.width)
    case Avg => p == AvgAcc(a.fAvg, a.nAvg)
    case Min => SameBest(false, a, p)
    case Max => SameBest(true, a, p)
    case Count => p == CountAcc(a.count)
  }

  ghost predicate SameBest(max: bool, a: Acc, p: PipeAcc) {
    && p.MinMaxAcc? && p.max == max && p.isSet == a.isSet
    && (a.isSet ==> p.best == a.bestRaw && a.bestRaw == ToRaw(a.best) && Stored(a.best) && !ColumnNaN(a.best)
                    && !a.bestRaw.Missing?)
  }

  lemma StoredWellFormed(c: C.Value)
    requires Stored(c)
    ensures c.Bool? || c.Int? || c.Float? ==> C.WellFormed(c)
  {
    hide Payload;
    var v: B.Value :| (v.Missing? || Encodable(v)) && FromRaw(v) == c;
  }

  lemma StepBest(max: bool, a: Acc, p: PipeAcc, v: C.Value, raw: B.Value)
    requires SameBest(max, a, p) && Stored(v) && !ColumnNaN(v)
    requires raw == if v.Null? then B.Missing else ToRaw(v)
    ensures SameBest(max, StepMinMax(a, max, v), if raw.Missing? then p
                                                 else if !p.isSet || Better(max, B.Compare(raw, p.best))
                                                 then MinMaxAcc(max, raw, true) else p)
  {
    hide ToRaw, B.Compare, ColumnNaN, Stored;
    if !v.Null? {
      ProjectionStable(v);
      if a.isSet && CheapCompare(v, a.best).Some? {
        CheapStored(v, a.best);
      }
    }
  }

  lemma CheapStored(a: C.Value, b: C.Value)
    requires Stored(a) && Stored(b) && !ColumnNaN(a) && !ColumnNaN(b) && CheapCompare(a, b).Some?
    ensures CheapCompare(a, b).value == B.Compare(ToRaw(a), ToRaw(b))
  {
    hide Stored, ColumnNaN, B.CompareNumbers, B.CmpBytes;
    StoredWellFormed(a);
    StoredWellFormed(b);
    if !(a.Str? && b.Str?) {
      CheapAgrees(a, b);
    }
  }

  /** Numbers read the same from a column and from the rebuilt value. */
  lemma NumAgrees(ar: Arith, v: C.Value, raw: B.Value)
    requires Stored(v) && raw == if v.Null? then B.Missing else ToRaw(v)
    ensures NumParts(ar, v) == NumOf(ar, raw)
  {
    hide Payload, ValueOf;
    if v.Other? {
      var x: B.Value :| (x.Missing? || Encodable(x)) && FromRaw(x) == v;
      ProjectionReturns(x);
    }
  }

  /** One accumulator step on both sides. */
  lemma StepAgrees(ar: Arith, spec: AccSpec, a: Acc, p: PipeAcc, v: C.Value, raw: B.Value)
    requires ParsedAcc(spec) && SameAcc(spec, a, p) && Stored(v)
    requires spec.kind.Min? || spec.kind.Max? ==> !ColumnNaN(v)
    requires spec.field != [] ==> raw == if v.Null? then B.Missing else ToRaw(v)
    requires spec.field == [] ==> raw == ArgOf(spec).v
    ensures SameAcc(spec, Step(ar, spec, a, v), PipeStep(ar, p, raw))
  {
    hide ToRaw, Stored, ColumnNaN, B.Compare, StepMinMax, SameBest;
    if spec.field != [] { NumAgrees(ar, v, raw); }
    match spec.kind
    case Min => StepBest(false, a, p, v, raw); BestIs(false, a, p);
    case Max => StepBest(true, a, p, v, raw); BestIs(true, a, p);
    case _ =>
  }

  lemma BestIs(max: bool, a: Acc, p: PipeAcc)
    requires SameBest(max, a, p)
    ensures p.MinMaxAcc? && p.max == max
  {}

  ghost predicate SameGroup(spec: GroupSpec, g: FastGroup, p: PipeGroup) {
    && p.id == ToRaw(g.id) && |g.accs| == |spec.accs| && |p.accs| == |spec.accs|
    && (forall i :: 0 <= i < |spec.accs| ==> SameAcc(spec.accs[i], g.accs[i], p.accs[i]))
  }

  ghost predicate SameGroups(spec: GroupSpec, gs: Groups<FastGroup>, ps: Groups<PipeGroup>) {
    && gs.index == ps.index && |gs.list| == |ps.list| && Indexed(gs)
    && (forall i :: 0 <= i < |gs.list| ==> SameGroup(spec, gs.list[i], ps.list[i]))
  }

  /** A scalar key has the same string on both sides. */
  lemma KeyAgrees(v: C.Value)
    requires Stored(v) && !ToRaw(v).Document? && !ToRaw(v).Array?
    ensures ColumnKey(v) == WriteKey(ToRaw(v))
  {
    hide Payload, ValueOf, FormatInt, DoubleKey, Encodable;
    if v.Other? {
      var x: B.Value :| (x.Missing? || Encodable(x)) && FromRaw(x) == v;
      ProjectionReturns(x);
    }
  }

  lemma GroupStep(ar: Arith, spec: GroupSpec, need: seq<Field>, row: seq<C.Value>, g: FastGroup, p: PipeGroup)
    requires Parsed(spec) && Distinct(need) && CleanRow(spec, need, row) && SameGroup(spec, g, p)
    requires forall i :: 0 <= i < |spec.accs| && spec.accs[i].field != [] ==> spec.accs[i].field in need
    ensures SameGroup(spec, g.(accs := StepAll(ar, need, row, spec.accs, g.accs)),
            p.(accs := PipeStepAll(ar, Rebuilt(need, row), spec.accs, p.accs)))
  {
    hide Step, PipeStep, ToRaw, Stored, SameAcc, Rebuilt, Cell, ParsedAcc, ColumnNaN;
    forall i | 0 <= i < |spec.accs|
      ensures SameAcc(spec.accs[i], StepAll(ar, need, row, spec.accs, g.accs)[i],
              PipeStepAll(ar, Rebuilt(need, row), spec.accs, p.accs)[i])
    {
      var sp := spec.accs[i];
      CellStored(spec, need, row, sp.field);
      if sp.field != [] { RebuiltField(need, row, sp.field); }
      StepAgrees(ar, sp, g.accs[i], p.accs[i], Cell(need, row, sp.field), Eval(ArgOf(sp), Rebuilt(need, row)));
    }
  }

  lemma NewGroups(spec: GroupSpec, id: C.Value)
    ensures SameGroup(spec, FastGroup(id, NewAccs(spec)),
                      PipeGroup(ToRaw(id), NewPipeAccs(spec)))
  {
    hide ToRaw;
  }

  lemma RowKey(spec: GroupSpec, need: seq<Field>, row: seq<C.Value>)
    requires Distinct(need) && CleanRow(spec, need, row) && (spec.keyField != [] ==> spec.keyField in need)
    ensures var raw := Eval(KeyExpr(spec), Rebuilt(need, row));
            var id := if raw.Missing? then B.Null else raw;
            id == ToRaw(Cell(need, row, spec.keyField)) && WriteKey(id) == ColumnKey(Cell(need, row, spec.keyField))
  {
    hide Stored, Rebuilt, WriteKey, ColumnKey;
    var c := Cell(need, row, spec.keyField);
    CellStored(spec, need, row, spec.keyField);
    if spec.keyField != [] { RebuiltField(need, row, spec.keyField); }
    ProjectionStable(c);
    KeyAgrees(c);
  }

  /** One row on both sides. */
  lemma RowAgrees(ar: Arith, spec: GroupSpec, need: seq<Field>, gs: Groups<FastGroup>, ps: Groups<PipeGroup>,
                  row: seq<C.Value>)
    requires Parsed(spec) && Distinct(need) && CleanRow(spec, need, row) && SameGroups(spec, gs, ps)
    requires spec.keyField != [] ==> spec.keyField in need
    requires forall i :: 0 <= i < |spec.accs| && spec.accs[i].field != [] ==> spec.accs[i].field in need
    ensures SameGroups(spec, FastRow(ar, spec, need, gs, row), PipeRow(ar, spec, ps, Rebuilt(need, row)))
  {
    hide ToRaw, SameGroup, CleanRow, Parsed, ColumnKey, WriteKey, Eval, Rebuilt, StepAll, PipeStepAll;
    RowKey(spec, need, row);
    var c := Cell(need, row, spec.keyField);
    NewGroups(spec, c);
    var k := ColumnKey(c);
    var ge := Enter(gs, k, FastGroup(c, NewAccs(spec)));
    var pe := Enter(ps, k, PipeGroup(ToRaw(c), NewPipeAccs(spec)));
    assert SameGroups(spec, ge, pe);
    GroupStep(ar, spec, need, row, ge.list[ge.index[k]], pe.list[ge.index[k]]);
  }

  function RebuiltAll(need: seq<Field>, rows: seq<seq<C.Value>>): seq<seq<B.Elem>> {
    seq(|rows|, i requires 0 <= i < |rows| => Rebuilt(need, rows[i]))
  }

  lemma {:induction false} FoldAgrees(ar: Arith, spec: GroupSpec, rows: seq<seq<C.Value>>)
    requires Parsed(spec) && forall i :: 0 <= i < |rows| ==> CleanRow(spec, GroupNeed(spec), rows[i])
    ensures SameGroups(spec, FastFold(ar, spec, GroupNeed(spec), rows),
            PipeFold(ar, spec, RebuiltAll(GroupNeed(spec), rows)))
    decreases |rows|
  {
    hide SameGroups, FastRow, PipeRow, CleanRow, Parsed, GroupNeed, Rebuilt;
    var need := GroupNeed(spec);
    if rows == [] {
      NoGroups(spec);
    } else {
      var head, row := rows[..|rows| - 1], rows[|rows| - 1];
      FoldAgrees(ar, spec, head);
      GroupNeedCovers(spec);
      var docs := RebuiltAll(need, rows);
      assert docs[..|docs| - 1] == RebuiltAll(need, head);
      RowAgrees(ar, spec, need, FastFold(ar, spec, need, head), PipeFold(ar, spec, RebuiltAll(need, head)), row);
    }
  }

  lemma NoGroups(spec: GroupSpec)
    ensures SameGroups(spec, Groups(map[], []), Groups(map[], []))
  {}

  lemma {:induction false} PresentAll(ar: Arith, specs: seq<AccSpec>, accs: seq<PipeAcc>)
    requires |accs| == |specs| && forall i :: 0 <= i < |accs| ==> !PipeResult(ar, accs[i]).Missing?
    ensures |Present(ar, specs, accs)| == |specs|
    ensures forall i :: 0 <= i < |specs|
                        ==> Present(ar, specs, accs)[i] == B.Elem(specs[i].out, PipeResult(ar, accs[i]))
    decreases |specs|
  {
    hide PipeResult;
    if specs != [] { PresentAll(ar, specs[1..], accs[1..]); }
  }

  lemma ResultAgrees(ar: Arith, spec: AccSpec, a: Acc, p: PipeAcc)
    requires SameAcc(spec, a, p)
    ensures PipeResult(ar, p) == Result(ar, spec, a) && !PipeResult(ar, p).Missing?
  {
    hide ToRaw, Stored, ColumnNaN;
  }

  lemma DocAgrees(ar: Arith, spec: GroupSpec, g: FastGroup, p: PipeGroup)
    requires SameGroup(spec, g, p)
    ensures FastDoc(ar, spec, g) == PipeDoc(ar, spec, p)
  {
    hide ToRaw, SameAcc, PipeResult, Result, Present;
    forall i | 0 <= i < |spec.accs| ensures PipeResult(ar, p.accs[i]) == Result(ar, spec.accs[i], g.accs[i])
        && !PipeResult(ar, p.accs[i]).Missing? {
      ResultAgrees(ar, spec.accs[i], g.accs[i], p.accs[i]);
    }
    PresentAll(ar, spec.accs, p.accs);
  }

  /**
   The executor and the pipeline over the rebuilt documents return the same documents in the
   same order, bit for bit, except that a whole-collection group over no rows is emitted by
   the executor and not by the pipeline.
   */
  lemma ExecutorMatchesPipeline(ar: Arith, spec: GroupSpec, rows: seq<seq<C.Value>>)
    requires Parsed(spec) && forall i :: 0 <= i < |rows| ==> CleanRow(spec, GroupNeed(spec), rows[i])
    ensures FastGroups(ar, spec, GroupNeed(spec), rows) == PipelineGroup(ar, spec, RebuiltAll(GroupNeed(spec), rows))
            <==> (spec.keyField != [] || rows != [])
  {
    hide CleanRow, Parsed, GroupNeed, FastRow, PipeRow, FastDoc, PipeDoc, SameGroup;
    var need := GroupNeed(spec);
    var docs := RebuiltAll(need, rows);
    if spec.keyField != [] || rows != [] {
      FoldAgrees(ar, spec, rows);
      var gs, ps := FastFold(ar, spec, need, rows), PipeFold(ar, spec, docs);
      forall i | 0 <= i < |gs.list| ensures FastDoc(ar, spec, gs.list[i]) == PipeDoc(ar, spec, ps.list[i]) {
        DocAgrees(ar, spec, gs.list[i], ps.list[i]);
      }
      assert FastGroups(ar, spec, need, rows) == PipelineGroup(ar, spec, docs);
    } else {
      assert docs == [];
      assert |FastGroups(ar, spec, need, rows)| == 1 && |PipelineGroup(ar, spec, docs)| == 0;
    }
  }

  // ---- as loops ----------------------------------------------------------------------------

  /** The pipeline's hash aggregation. */
  method Load(ar: Arith, spec: GroupSpec, docs: seq<seq<B.Elem>>) returns (out: seq<B.Value>)
    ensures out == PipelineGroup(ar, spec, docs)
  {
    hide PipeRow, PipeDoc;
    var gs: Groups<PipeGroup> := Groups(map[], []);
    for i := 0 to |docs|
      invariant gs == PipeFold(ar, spec, docs[..i])
    {
      assert docs[..i + 1][..i] == docs[..i];
      gs := PipeRow(ar, spec, gs, docs[i]);
    }
    assert docs[..|docs|] == docs;
    out := [];
    for i := 0 to |gs.list|
      invariant |out| == i && forall j :: 0 <= j < i ==> out[j] == PipeDoc(ar, spec, gs.list[j])
    {
      out := out + [PipeDoc(ar, spec, gs.list[i])];
    }
  }

  function StepRows(ar: Arith, spec: GroupSpec, need: seq<Field>, rows: seq<seq<C.Value>>): seq<Acc> {
    if rows == [] then NewAccs(spec)
    else StepAll(ar, need, rows[|rows| - 1], spec.accs, StepRows(ar, spec, need, rows[..|rows| - 1]))
  }

  /** Without a key, hashing would find the one group the executor keeps. */
  lemma {:induction false} OneGroup(ar: Arith, spec: GroupSpec, need: seq<Field>, rows: seq<seq<C.Value>>)
    requires spec.keyField == []
    ensures rows != [] ==> FastFold(ar, spec, need, rows)
                           == Groups(map[[0x5A] := 0], [FastGroup(C.Null, StepRows(ar, spec, need, rows))])
    decreases |rows|
  {
    hide StepAll;
    if rows != [] { OneGroup(ar, spec, need, rows[..|rows| - 1]); }
  }

  /** The executor's fold over scanned rows. */
  method FoldRows(ar: Arith, spec: GroupSpec, need: seq<Field>, rows: seq<seq<C.Value>>) returns (out: seq<B.Value>)
    ensures out == FastGroups(ar, spec, need, rows)
  {
    hide FastRow, FastDoc, StepAll;
    var list: seq<FastGroup>;
    if spec.keyField == [] {
      var accs := NewAccs(spec);
      for i := 0 to |rows|
        invariant accs == StepRows(ar, spec, need, rows[..i])
      {
        assert rows[..i + 1][..i] == rows[..i];
        accs := StepAll(ar, need, rows[i], spec.accs, accs);
      }
      assert rows[..|rows|] == rows;
      OneGroup(ar, spec, need, rows);
      list := [FastGroup(C.Null, accs)];
    } else {
      var gs: Groups<FastGroup> := Groups(map[], []);
      for i := 0 to |rows|
        invariant gs == FastFold(ar, spec, need, rows[..i])
      {
        assert rows[..i + 1][..i] == rows[..i];
        gs := FastRow(ar, spec, need, gs, rows[i]);
      }
      assert rows[..|rows|] == rows;
      list := gs.list;
    }
    out := [];
    for i := 0 to |list|
      invariant |out| == i && forall j :: 0 <= j < i ==> out[j] == FastDoc(ar, spec, list[j])
    {
      out := out + [FastDoc(ar, spec, list[i])];
    }
  }

  // ---- what a group is -----------------------------------------------------------------------

  function IdOf(spec: GroupSpec, doc: seq<B.Elem>): B.Value {
    var raw := Eval(KeyExpr(spec), doc);
    if raw.Missing? then B.Null else raw
  }

  /** The documents under key `k`, in input order. */
  function Bucket(spec: GroupSpec, docs: seq<seq<B.Elem>>, k: Bytes): seq<seq<B.Elem>> {
    if docs == [] then []
    else Bucket(spec, docs[..|docs| - 1], k) + if WriteKey(IdOf(spec, docs[|docs| - 1])) == k then [docs[|docs| - 1]]
        else []
  }

  /** Distinct keys in the order they first occur. */
  function FirstSeen(spec: GroupSpec, docs: seq<seq<B.Elem>>): seq<Bytes> {
    if docs == [] then []
    else
      var ks, k := FirstSeen(spec, docs[..|docs| - 1]), WriteKey(IdOf(spec, docs[|docs| - 1]));
      if k in ks then ks else ks + [k]
  }

  /** Accumulating a list of documents from scratch. */
  function Accumulated(ar: Arith, spec: GroupSpec, docs: seq<seq<B.Elem>>): seq<PipeAcc> {
    if docs == [] then NewPipeAccs(spec)
    else PipeStepAll(ar, docs[|docs| - 1], spec.accs, Accumulated(ar, spec, docs[..|docs| - 1]))
  }

  /** The group of a non-empty bucket. */
  function GroupOf(ar: Arith, spec: GroupSpec, bucket: seq<seq<B.Elem>>): PipeGroup
    requires bucket != []
  {
    PipeGroup(IdOf(spec, bucket[0]), Accumulated(ar, spec, bucket))
  }

  ghost predicate Means(ar: Arith, spec: GroupSpec, docs: seq<seq<B.Elem>>, gs: Groups<PipeGroup>) {
    var keys := FirstSeen(spec, docs);
    && |gs.list| == |keys| && Distinct(keys)
    && (forall k :: k in gs.index <==> k in keys)
    && (forall i :: 0 <= i < |keys| ==> keys[i] in gs.index && gs.index[keys[i]] == i)
    && (forall k :: k !in keys ==> Bucket(spec, docs, k) == [])
    && (forall i :: 0 <= i < |keys| ==> Bucket(spec, docs, keys[i]) != []
                                        && gs.list[i] == GroupOf(ar, spec, Bucket(spec, docs, keys[i])))
  }

  /** One group per distinct key in first-seen order, each accumulating exactly its own documents in input order. */
  lemma {:induction false} GroupsMean(ar: Arith, spec: GroupSpec, docs: seq<seq<B.Elem>>)
    ensures Means(ar, spec, docs, PipeFold(ar, spec, docs))
    decreases |docs|
  {
    hide IdOf, PipeStepAll, WriteKey;
    if docs != [] {
      var head, doc := docs[..|docs| - 1], docs[|docs| - 1];
      GroupsMean(ar, spec, head);
      MeansStep(ar, spec, docs, PipeFold(ar, spec, head));
    }
  }

  lemma MeansStep(ar: Arith, spec: GroupSpec, docs: seq<seq<B.Elem>>, gs: Groups<PipeGroup>)
    requires docs != [] && Means(ar, spec, docs[..|docs| - 1], gs)
    ensures Means(ar, spec, docs, PipeRow(ar, spec, gs, docs[|docs| - 1]))
  {
    hide WriteKey, IdOf, PipeRow, Means;
    if WriteKey(IdOf(spec, docs[|docs| - 1])) in FirstSeen(spec, docs[..|docs| - 1]) {
      OldKeyStep(ar, spec, docs, gs);
    } else {
      NewKeyStep(ar, spec, docs, gs);
    }
  }

  lemma OldKeyStep(ar: Arith, spec: GroupSpec, docs: seq<seq<B.Elem>>, gs: Groups<PipeGroup>)
    requires docs != [] && Means(ar, spec, docs[..|docs| - 1], gs)
    requires WriteKey(IdOf(spec, docs[|docs| - 1])) in FirstSeen(spec, docs[..|docs| - 1])
    ensures Means(ar, spec, docs, PipeRow(ar, spec, gs, docs[|docs| - 1]))
  {
    hide WriteKey, Eval, PipeStepAll, IdOf, GroupOf, NewPipeAccs, PipeRow, Bucket;
    var head, doc := docs[..|docs| - 1], docs[|docs| - 1];
    PipeRowIs(ar, spec, gs, doc);
    var k, keys := WriteKey(IdOf(spec, doc)), FirstSeen(spec, head);
    BucketStep(spec, docs, k);
    GrownGroup(ar, spec, Bucket(spec, head, k), doc);
    forall x | x != k ensures Bucket(spec, docs, x) == Bucket(spec, head, x) { BucketStep(spec, docs, x); }
    var j :| 0 <= j < |keys| && keys[j] == k;
    assert gs.index[k] == j;
  }

  /** A document with a new key starts a group at the end. */
  lemma NewKeyRow(ar: Arith, spec: GroupSpec, gs: Groups<PipeGroup>, doc: seq<B.Elem>)
    requires WriteKey(IdOf(spec, doc)) !in gs.index
    ensures PipeRow(ar, spec, gs, doc) ==
              Groups(gs.index[WriteKey(IdOf(spec, doc)) := |gs.list|], gs.list + [GroupOf(ar, spec, [doc])])
  {
    hide WriteKey, PipeStepAll, IdOf, NewPipeAccs, PipeRow;
    PipeRowIs(ar, spec, gs, doc);
    assert [doc][..0] == [];
    assert Accumulated(ar, spec, []) == NewPipeAccs(spec);
  }

  lemma NewKeyStep(ar: Arith, spec: GroupSpec, docs: seq<seq<B.Elem>>, gs: Groups<PipeGroup>)
    requires docs != [] && Means(ar, spec, docs[..|docs| - 1], gs)
    requires WriteKey(IdOf(spec, docs[|docs| - 1])) !in FirstSeen(spec, docs[..|docs| - 1])
    ensures Means(ar, spec, docs, PipeRow(ar, spec, gs, docs[|docs| - 1]))
  {
    hide WriteKey, IdOf, GroupOf, PipeRow, Bucket, Distinct;
    var head, doc := docs[..|docs| - 1], docs[|docs| - 1];
    var k, keys := WriteKey(IdOf(spec, doc)), FirstSeen(spec, head);
    var all := keys + [k];
    assert FirstSeen(spec, docs) == all;
    hide FirstSeen;
    NewKeyRow(ar, spec, gs, doc);
    var out := PipeRow(ar, spec, gs, doc);
    BucketStep(spec, docs, k);
    assert Bucket(spec, head, k) == [] && Bucket(spec, docs, k) == [doc];
    forall x | x != k ensures Bucket(spec, docs, x) == Bucket(spec, head, x) { BucketStep(spec, docs, x); }
    DistinctSnoc(keys, k);
    forall i | 0 <= i < |all|
      ensures all[i] in out.index && out.index[all[i]] == i && Bucket(spec, docs, all[i]) != []
      ensures out.list[i] == GroupOf(ar, spec, Bucket(spec, docs, all[i]))
    {
      if i < |keys| { assert all[i] == keys[i] && keys[i] != k && out.list[i] == gs.list[i]; }
    }
  }

  lemma BucketStep(spec: GroupSpec, docs: seq<seq<B.Elem>>, k: Bytes)
    requires docs != []
    ensures var head, doc := docs[..|docs| - 1], docs[|docs| - 1];
            Bucket(spec, docs, k) == if WriteKey(IdOf(spec, doc)) == k then Bucket(spec, head, k) + [doc]
                                     else Bucket(spec, head, k)
  {
    hide WriteKey, IdOf;
  }

  lemma PipeRowIs(ar: Arith, spec: GroupSpec, gs: Groups<PipeGroup>, doc: seq<B.Elem>)
    ensures var k := WriteKey(IdOf(spec, doc));
            var e := Enter(gs, k, PipeGroup(IdOf(spec, doc), NewPipeAccs(spec)));
            PipeRow(ar, spec, gs, doc) ==
              if e.index[k] >= |e.list| then e
              else e.(list := e.list[e.index[k] :=
                  PipeGroup(e.list[e.index[k]].id, PipeStepAll(ar, doc, spec.accs, e.list[e.index[k]].accs))])
  {
    hide WriteKey, Eval, PipeStepAll;
  }

  lemma GrownGroup(ar: Arith, spec: GroupSpec, b: seq<seq<B.Elem>>, doc: seq<B.Elem>)
    ensures GroupOf(ar, spec, b + [doc]).accs ==
              PipeStepAll(ar, doc, spec.accs, if b == [] then NewPipeAccs(spec) else GroupOf(ar, spec, b).accs)
    ensures GroupOf(ar, spec, b + [doc]).id == if b == [] then IdOf(spec, doc) else GroupOf(ar, spec, b).id
  {
    hide PipeStepAll, IdOf;
    var grown := b + [doc];
    assert grown[..|grown| - 1] == b && grown[|grown| - 1] == doc;
    assert Accumulated(ar, spec, grown) == PipeStepAll(ar, doc, spec.accs, Accumulated(ar, spec, b));
  }
}
