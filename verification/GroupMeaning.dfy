/**
 What a `$group` answers, in terms of the values its accumulators are given: sums, averages,
 counts and extremes, group by group.
 */
module GroupMeaning {
  import opened Common
  import opened Bits
  import B = Bson
  import opened BsonCodec
  import opened GroupKey
  import opened VectorGroup

  /** The values an accumulator is given, one per document. */
  function Given(a: AccSpec, docs: seq<seq<B.Elem>>): seq<B.Value> {
    seq(|docs|, i requires 0 <= i < |docs| => Eval(ArgOf(a), docs[i]))
  }

  function Fold(ar: Arith, start: PipeAcc, vals: seq<B.Value>): PipeAcc {
    if vals == [] then start else PipeStep(ar, Fold(ar, start, vals[..|vals| - 1]), vals[|vals| - 1])
  }

  /** A group's accumulator has seen exactly the values of its documents. */
  lemma {:induction false} AccumulatedIsFold(ar: Arith, spec: GroupSpec, docs: seq<seq<B.Elem>>, j: nat)
    requires j < |spec.accs|
    ensures |Accumulated(ar, spec, docs)| == |spec.accs|
    ensures Accumulated(ar, spec, docs)[j] == Fold(ar, NewPipeAcc(spec.accs[j].kind), Given(spec.accs[j], docs))
    decreases |docs|
  {
    hide PipeStep, Eval, NewPipeAcc;
    if docs != [] {
      var head := docs[..|docs| - 1];
      AccumulatedIsFold(ar, spec, head, j);
      var vals := Given(spec.accs[j], docs);
      assert vals[..|vals| - 1] == Given(spec.accs[j], head);
    }
  }

  /** A path gives the first field of that name, and is missing only when there is none. */
  lemma {:induction false} PathReads(es: seq<B.Elem>, f: Field)
    ensures (forall i :: 0 <= i < |es| ==> es[i].key != f) ==> FieldOf(es, f) == B.Missing
    ensures forall i :: 0 <= i < |es| && es[i].key == f && (forall j :: 0 <= j < i ==> es[j].key != f) ==>
              FieldOf(es, f) == es[i].value
    decreases |es|
  {
    if es != [] {
      PathReads(es[1..], f);
      forall i | 0 < i < |es| ensures es[i] == es[1..][i - 1] {}
    }
  }

  // ---- minimum and maximum ---------------------------------------------------------------------

  /** `c`, a comparison with the extreme, is on the allowed side. */
  predicate NoBetter(max: bool, c: int) { if max then c <= 0 else c >= 0 }

  /** The value at `i` is the first least, or for a maximum the first greatest, of those present. */
  ghost predicate ExtremeAt(max: bool, vals: seq<B.Value>, i: nat)
    requires i < |vals|
  {
    && !vals[i].Missing?
    && (forall j :: 0 <= j < |vals| && !vals[j].Missing? ==> NoBetter(max, B.Compare(vals[j], vals[i])))
    && (forall j :: 0 <= j < i && !vals[j].Missing? ==> B.Compare(vals[j], vals[i]) != 0)
  }

  ghost predicate IsExtreme(max: bool, vals: seq<B.Value>, v: B.Value) {
    exists i :: 0 <= i < |vals| && ExtremeAt(max, vals, i) && v == vals[i]
  }

  ghost predicate NonePresent(vals: seq<B.Value>) {
    forall j :: 0 <= j < |vals| ==> vals[j].Missing?
  }

  ghost predicate Extreme(max: bool, vals: seq<B.Value>, p: PipeAcc) {
    && p.MinMaxAcc? && p.max == max
    && (!p.isSet ==> NonePresent(vals))
    && (p.isSet ==> IsExtreme(max, vals, p.best) && !NonePresent(vals))
  }

  /** One more value: a better one takes over, and then nothing seen before ties with it. */
  lemma ExtremeGrows(max: bool, head: seq<B.Value>, v: B.Value, i: nat)
    requires i < |head| && ExtremeAt(max, head, i) && !v.Missing?
    ensures NoBetter(max, B.Compare(v, head[i])) ==> ExtremeAt(max, head + [v], i)
    ensures !NoBetter(max, B.Compare(v, head[i])) ==> ExtremeAt(max, head + [v], |head|)
  {
    hide B.Compare;
    var vals := head + [v];
    if !NoBetter(max, B.Compare(v, head[i])) {
      forall j | 0 <= j < |vals| && !vals[j].Missing?
        ensures NoBetter(max, B.Compare(vals[j], v)) && (j < |head| ==> B.Compare(vals[j], v) != 0)
      {
        if j < |head| { BeatsAll(max, head[j], head[i], v); } else { B.CompareIsTotalPreorder(v, v, v); }
      }
    }
  }

  lemma BeatsAll(max: bool, x: B.Value, best: B.Value, v: B.Value)
    requires NoBetter(max, B.Compare(x, best)) && !NoBetter(max, B.Compare(v, best))
    ensures NoBetter(max, B.Compare(x, v)) && B.Compare(x, v) != 0
  {
    hide B.Compare;
    B.CompareIsTotalPreorder(x, best, v);
    B.CompareIsTotalPreorder(v, best, x);
    B.CompareIsTotalPreorder(best, v, x);
    B.CompareIsTotalPreorder(v, x, best);
    B.CompareIsTotalPreorder(x, v, best);
  }

  lemma FirstExtreme(max: bool, head: seq<B.Value>, v: B.Value)
    requires NonePresent(head) && !v.Missing?
    ensures ExtremeAt(max, head + [v], |head|)
  {
    hide B.Compare;
    B.CompareIsTotalPreorder(v, v, v);
  }

  lemma MissingKeeps(max: bool, head: seq<B.Value>, v: B.Value, i: nat)
    requires i < |head| && ExtremeAt(max, head, i) && v.Missing?
    ensures ExtremeAt(max, head + [v], i)
  {
    hide B.Compare;
  }

  lemma ExtremeSet(max: bool, vals: seq<B.Value>, i: nat)
    requires i < |vals| && ExtremeAt(max, vals, i)
    ensures Extreme(max, vals, MinMaxAcc(max, vals[i], true))
  {
    hide B.Compare;
  }

  lemma ExtremeStep(ar: Arith, max: bool, head: seq<B.Value>, p: PipeAcc, v: B.Value)
    requires Extreme(max, head, p)
    ensures Extreme(max, head + [v], PipeStep(ar, p, v))
  {
    hide B.Compare, ExtremeAt;
    var vals := head + [v];
    if p.isSet {
      var i :| 0 <= i < |head| && ExtremeAt(max, head, i) && p.best == head[i];
      hide Extreme;
      if v.Missing? { MissingKeeps(max, head, v, i); } else { ExtremeGrows(max, head, v, i); }
      ExtremeSet(max, vals, if v.Missing? || NoBetter(max, B.Compare(v, head[i])) then i else |head|);
    } else if !v.Missing? {
      FirstExtreme(max, head, v);
      ExtremeSet(max, vals, |head|);
    }
  }

  lemma {:induction false} ExtremesFold(ar: Arith, max: bool, vals: seq<B.Value>)
    ensures Extreme(max, vals, Fold(ar, MinMaxAcc(max, B.Missing, false), vals))
    decreases |vals|
  {
    if vals != [] {
      hide Extreme, PipeStep;
      var head, v := vals[..|vals| - 1], vals[|vals| - 1];
      assert vals == head + [v];
      ExtremesFold(ar, max, head);
      ExtremeStep(ar, max, head, Fold(ar, MinMaxAcc(max, B.Missing, false), head), v);
    }
  }

  // ---- sums, averages and counts ------------------------------------------------------------------

  predicate Counted(v: B.Value) { v.Int32? || v.Int64? || v.Double? }

  /** The sum of the integers, before it wraps. */
  function IntSum(vals: seq<B.Value>): int {
    if vals == [] then 0
    else
      var v := vals[|vals| - 1];
      IntSum(vals[..|vals| - 1]) + if v.Int32? || v.Int64? then v.i else 0
  }

  /** The doubles' sum, each number added as a double from the left. */
  function FloatSum(ar: Arith, vals: seq<B.Value>): int {
    if vals == [] then 0
    else
      var sum, v := FloatSum(ar, vals[..|vals| - 1]), vals[|vals| - 1];
      if v.Double? then ar.add(sum, v.bits) else if Counted(v) then ar.add(sum, ar.ofInt(v.i)) else sum
  }

  function Numbers(vals: seq<B.Value>): nat {
    if vals == [] then 0 else Numbers(vals[..|vals| - 1]) + if Counted(vals[|vals| - 1]) then 1 else 0
  }

  ghost predicate HasDouble(vals: seq<B.Value>) {
    exists i :: 0 <= i < |vals| && vals[i].Double?
  }

  ghost predicate HasInt64(vals: seq<B.Value>) {
    exists i :: 0 <= i < |vals| && vals[i].Int64?
  }

  /** A double once there is a double, else an int64 once there is one or the sum needs it, else an int32. */
  ghost predicate IsSum(ar: Arith, vals: seq<B.Value>, r: B.Value) {
    if HasDouble(vals) then r == B.Double(FloatSum(ar, vals))
    else if HasInt64(vals) || !(-0x8000_0000 <= I64(IntSum(vals)) < 0x8000_0000) then r == B.Int64(I64(IntSum(vals)))
    else r == B.Int32(I64(IntSum(vals)))
  }

  ghost predicate Summed(ar: Arith, vals: seq<B.Value>, p: PipeAcc) {
    && p.SumAcc? && p.i == I64(IntSum(vals)) && p.f == FloatSum(ar, vals)
    && (p.width == WDOUBLE <==> HasDouble(vals)) && (p.width == W32 <==> !HasDouble(vals) && !HasInt64(vals))
  }

  lemma MoreKinds(head: seq<B.Value>, v: B.Value)
    ensures HasDouble(head + [v]) <==> HasDouble(head) || v.Double?
    ensures HasInt64(head + [v]) <==> HasInt64(head) || v.Int64?
  {
    var vals := head + [v];
    if HasDouble(head) { var i :| 0 <= i < |head| && head[i].Double?; assert vals[i].Double?; }
    if HasInt64(head) { var i :| 0 <= i < |head| && head[i].Int64?; assert vals[i].Int64?; }
    assert vals[|head|] == v;
  }

  lemma {:induction false} SumsFold(ar: Arith, vals: seq<B.Value>)
    ensures Summed(ar, vals, Fold(ar, SumAcc(0, 0, W32), vals))
    decreases |vals|
  {
    hide HasDouble, HasInt64;
    if vals == [] {
      NoKinds();
      assert I64(0) == 0;
    } else {
      var head, v := vals[..|vals| - 1], vals[|vals| - 1];
      assert vals == head + [v];
      SumsFold(ar, head);
      MoreKinds(head, v);
      I64Adds(IntSum(head), if v.Int32? || v.Int64? then v.i else 0);
      hide I64;
      WrapKeeps(IntSum(head));
    }
  }

  lemma WrapKeeps(x: int)
    ensures I64(I64(x) + 0) == I64(x)
  {}

  lemma NoKinds()
    ensures !HasDouble([]) && !HasInt64([])
  {}

  lemma {:induction false} AveragesFold(ar: Arith, vals: seq<B.Value>)
    ensures Fold(ar, AvgAcc(0, 0), vals) == AvgAcc(FloatSum(ar, vals), Numbers(vals))
    decreases |vals|
  {
    if vals != [] { AveragesFold(ar, vals[..|vals| - 1]); }
  }

  lemma {:induction false} CountsFold(ar: Arith, vals: seq<B.Value>)
    ensures Fold(ar, CountAcc(0), vals) == CountAcc(|vals|)
    decreases |vals|
  {
    if vals != [] { CountsFold(ar, vals[..|vals| - 1]); }
  }

  // ---- the answer ------------------------------------------------------------------------------------

  /** `r` is what the accumulator is to give for these values. */
  ghost predicate Answers(ar: Arith, kind: AccKind, vals: seq<B.Value>, r: B.Value) {
    match kind
    case Sum => IsSum(ar, vals, r)
    case Avg => r == if Numbers(vals) == 0 then B.Null
                     else B.Double(ar.div(FloatSum(ar, vals), ar.ofInt(Numbers(vals))))
    case Min => if NonePresent(vals) then r == B.Null else IsExtreme(false, vals, r)
    case Max => if NonePresent(vals) then r == B.Null else IsExtreme(true, vals, r)
    case Count => r == if |vals| < 0x8000_0000 then B.Int32(|vals|) else B.Int64(|vals|)
  }

  lemma ExtremeAnswers(ar: Arith, max: bool, vals: seq<B.Value>)
    ensures Answers(ar, if max then Max else Min, vals,
            PipeResult(ar, Fold(ar, MinMaxAcc(max, B.Missing, false), vals)))
  {
    hide IsExtreme, Fold;
    ExtremesFold(ar, max, vals);
  }

  lemma SumAnswers(ar: Arith, vals: seq<B.Value>)
    ensures Answers(ar, Sum, vals, PipeResult(ar, Fold(ar, SumAcc(0, 0, W32), vals)))
  {
    hide Fold, I64, HasDouble, HasInt64;
    SumsFold(ar, vals);
  }

  lemma AccumulatorAnswers(ar: Arith, kind: AccKind, vals: seq<B.Value>)
    ensures Answers(ar, kind, vals, PipeResult(ar, Fold(ar, NewPipeAcc(kind), vals)))
    ensures !PipeResult(ar, Fold(ar, NewPipeAcc(kind), vals)).Missing?
  {
    hide Fold;
    match kind
    case Sum => hide Answers; SumAnswers(ar, vals);
    case Avg => AveragesFold(ar, vals);
    case Min => ExtremesFold(ar, false, vals); hide Answers; ExtremeAnswers(ar, false, vals);
    case Max => ExtremesFold(ar, true, vals); hide Answers; ExtremeAnswers(ar, true, vals);
    case Count => CountsFold(ar, vals);
  }

  /** One answer per accumulator, under its name and in their order. */
  ghost predicate AnswersAll(ar: Arith, spec: GroupSpec, docs: seq<seq<B.Elem>>, es: seq<B.Elem>) {
    |es| == |spec.accs| && forall j :: 0 <= j < |es| ==>
      es[j].key == spec.accs[j].out && Answers(ar, spec.accs[j].kind, Given(spec.accs[j], docs), es[j].value)
  }

  lemma BucketAnswers(ar: Arith, spec: GroupSpec, docs: seq<seq<B.Elem>>)
    ensures AnswersAll(ar, spec, docs, Present(ar, spec.accs, Accumulated(ar, spec, docs)))
  {
    hide Answers, PipeResult, Given, Accumulated, Fold, NewPipeAcc;
    var accs := Accumulated(ar, spec, docs);
    AccumulatedSize(ar, spec, docs);
    forall j | 0 <= j < |accs|
      ensures !PipeResult(ar, accs[j]).Missing?
      ensures Answers(ar, spec.accs[j].kind, Given(spec.accs[j], docs), PipeResult(ar, accs[j]))
    {
      AccumulatedIsFold(ar, spec, docs, j);
      AccumulatorAnswers(ar, spec.accs[j].kind, Given(spec.accs[j], docs));
    }
    PresentAll(ar, spec.accs, accs);
  }

  lemma {:induction false} AccumulatedSize(ar: Arith, spec: GroupSpec, docs: seq<seq<B.Elem>>)
    ensures |Accumulated(ar, spec, docs)| == |spec.accs|
    decreases |docs|
  {
    hide PipeStep, Eval;
    if docs != [] { AccumulatedSize(ar, spec, docs[..|docs| - 1]); }
  }

  /**
   The output of `$group`: one document per distinct key, in the order the keys first occur, with the
   key of its documents as `_id` and, for each accumulator, the answer for their values in input order.
   */
  lemma GroupsAnswer(ar: Arith, spec: GroupSpec, docs: seq<seq<B.Elem>>, g: nat)
    requires g < |FirstSeen(spec, docs)|
    ensures |PipelineGroup(ar, spec, docs)| == |FirstSeen(spec, docs)|
    ensures var bucket := Bucket(spec, docs, FirstSeen(spec, docs)[g]);
            bucket != [] && exists es :: AnswersAll(ar, spec, bucket, es)
                                         && PipelineGroup(ar, spec, docs)[g]
                                            == B.Document([B.Elem(ID_KEY, IdOf(spec, bucket[0]))] + es)
  {
    hide WriteKey, IdOf, AnswersAll, Accumulated, Present, Bucket, FirstSeen, PipeFold;
    GroupsMean(ar, spec, docs);
    var bucket := Bucket(spec, docs, FirstSeen(spec, docs)[g]);
    BucketAnswers(ar, spec, bucket);
    assert PipeFold(ar, spec, docs).list[g] == GroupOf(ar, spec, bucket);
  }

  /** The positions of the documents with a key. */
  ghost function Places(spec: GroupSpec, docs: seq<seq<B.Elem>>, k: Bytes): seq<nat> {
    if docs == [] then []
    else Places(spec, docs[..|docs| - 1], k)
         + if WriteKey(IdOf(spec, docs[|docs| - 1])) == k then [|docs| - 1] else []
  }

  ghost predicate Rising(idx: seq<nat>, n: nat) {
    && (forall x :: 0 <= x < |idx| ==> idx[x] < n)
    && (forall x, y :: 0 <= x < y < |idx| ==> idx[x] < idx[y])
  }

  lemma {:induction false} PlacesRise(spec: GroupSpec, docs: seq<seq<B.Elem>>, k: Bytes)
    ensures Rising(Places(spec, docs, k), |docs|)
    decreases |docs|
  {
    hide WriteKey, IdOf;
    if docs != [] { PlacesRise(spec, docs[..|docs| - 1], k); }
  }

  lemma {:induction false} PlacesAre(spec: GroupSpec, docs: seq<seq<B.Elem>>, k: Bytes, i: nat)
    ensures i in Places(spec, docs, k) <==> i < |docs| && WriteKey(IdOf(spec, docs[i])) == k
    decreases |docs|
  {
    hide WriteKey, IdOf;
    if docs != [] { PlacesAre(spec, docs[..|docs| - 1], k, i); }
  }

  lemma {:induction false} PlacesGive(spec: GroupSpec, docs: seq<seq<B.Elem>>, k: Bytes)
    ensures |Bucket(spec, docs, k)| == |Places(spec, docs, k)| && Rising(Places(spec, docs, k), |docs|)
    ensures forall x :: 0 <= x < |Places(spec, docs, k)| ==> Bucket(spec, docs, k)[x] == docs[Places(spec, docs, k)[x]]
    decreases |docs|
  {
    hide WriteKey, IdOf;
    PlacesRise(spec, docs, k);
    if docs != [] { PlacesGive(spec, docs[..|docs| - 1], k); }
  }

  /** The documents of a bucket are exactly those with its key, in input order. */
  lemma BucketHolds(spec: GroupSpec, docs: seq<seq<B.Elem>>, k: Bytes) returns (idx: seq<nat>)
    ensures Rising(idx, |docs|) && |Bucket(spec, docs, k)| == |idx|
    ensures forall x :: 0 <= x < |idx| ==> Bucket(spec, docs, k)[x] == docs[idx[x]]
    ensures forall i: nat :: i in idx <==> i < |docs| && WriteKey(IdOf(spec, docs[i])) == k
  {
    hide WriteKey, IdOf, Bucket, Places;
    idx := Places(spec, docs, k);
    PlacesGive(spec, docs, k);
    forall i: nat ensures i in idx <==> i < |docs| && WriteKey(IdOf(spec, docs[i])) == k {
      PlacesAre(spec, docs, k, i);
    }
  }

  /** Document `i` is the first with key `k`. */
  ghost predicate FirstAt(spec: GroupSpec, docs: seq<seq<B.Elem>>, k: Bytes, i: nat) {
    i < |docs| && WriteKey(IdOf(spec, docs[i])) == k && forall j :: 0 <= j < i ==> WriteKey(IdOf(spec, docs[j])) != k
  }

  ghost predicate ByFirst(spec: GroupSpec, docs: seq<seq<B.Elem>>, ks: seq<Bytes>, at: seq<nat>) {
    && |at| == |ks| && Rising(at, |docs|)
    && (forall g :: 0 <= g < |ks| ==> FirstAt(spec, docs, ks[g], at[g]))
    && (forall i :: 0 <= i < |docs| ==> WriteKey(IdOf(spec, docs[i])) in ks)
  }

  lemma FirstStays(spec: GroupSpec, docs: seq<seq<B.Elem>>, ks: seq<Bytes>, at: seq<nat>)
    requires docs != [] && ByFirst(spec, docs[..|docs| - 1], ks, at)
    ensures Rising(at, |docs|) && forall g :: 0 <= g < |ks| ==> FirstAt(spec, docs, ks[g], at[g])
  {
    hide WriteKey, IdOf;
    var head := docs[..|docs| - 1];
    forall g | 0 <= g < |ks| ensures FirstAt(spec, docs, ks[g], at[g]) {
      assert FirstAt(spec, head, ks[g], at[g]);
      forall j | 0 <= j <= at[g] ensures docs[j] == head[j] {}
    }
  }

  lemma NewIsFirst(spec: GroupSpec, docs: seq<seq<B.Elem>>, ks: seq<Bytes>, at: seq<nat>)
    requires docs != [] && ByFirst(spec, docs[..|docs| - 1], ks, at)
    requires WriteKey(IdOf(spec, docs[|docs| - 1])) !in ks
    ensures FirstAt(spec, docs, WriteKey(IdOf(spec, docs[|docs| - 1])), |docs| - 1)
  {
    hide WriteKey, IdOf;
    forall j | 0 <= j < |docs| - 1 ensures docs[j] == docs[..|docs| - 1][j] {}
  }

  lemma KeysCovered(spec: GroupSpec, docs: seq<seq<B.Elem>>, ks: seq<Bytes>, at: seq<nat>, ks': seq<Bytes>)
    requires docs != [] && ByFirst(spec, docs[..|docs| - 1], ks, at) && ks <= ks'
    requires WriteKey(IdOf(spec, docs[|docs| - 1])) in ks'
    ensures forall i :: 0 <= i < |docs| ==> WriteKey(IdOf(spec, docs[i])) in ks'
  {
    hide WriteKey, IdOf;
    forall i | 0 <= i < |docs| - 1 ensures WriteKey(IdOf(spec, docs[i])) in ks' {
      assert docs[i] == docs[..|docs| - 1][i] && forall k :: k in ks ==> k in ks';
    }
  }

  /** The groups' keys are the keys of the documents, each once, in the order they first occur. */
  lemma {:induction false} KeysByFirst(spec: GroupSpec, docs: seq<seq<B.Elem>>) returns (at: seq<nat>)
    ensures ByFirst(spec, docs, FirstSeen(spec, docs), at)
    decreases |docs|
  {
    hide WriteKey, IdOf;
    if docs == [] {
      at := [];
    } else {
      var head, k := docs[..|docs| - 1], WriteKey(IdOf(spec, docs[|docs| - 1]));
      at := KeysByFirst(spec, head);
      hide FirstAt;
      var ks, ks' := FirstSeen(spec, head), FirstSeen(spec, docs);
      FirstStays(spec, docs, ks, at);
      KeysCovered(spec, docs, ks, at, ks');
      if k !in ks {
        NewIsFirst(spec, docs, ks, at);
        at := at + [|docs| - 1];
      }
    }
  }

  /** A group's `_id` is what its documents have first under the key field, null when they have nothing there. */
  lemma IdReads(spec: GroupSpec, doc: seq<B.Elem>)
    ensures spec.keyField == [] || (forall i :: 0 <= i < |doc| ==> doc[i].key != spec.keyField) ==>
              IdOf(spec, doc) == B.Null
    ensures forall i :: spec.keyField != [] && 0 <= i < |doc| && doc[i].key == spec.keyField
                        && (forall j :: 0 <= j < i ==> doc[j].key != spec.keyField) ==>
              IdOf(spec, doc) == if doc[i].value.Missing? then B.Null else doc[i].value
  {
    hide FieldOf;
    if spec.keyField != [] { PathReads(doc, spec.keyField); }
  }
}
