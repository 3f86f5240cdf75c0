/**
 BSON values as trees and the order the database sorts, ranges and indexes by. The order is
 proved a total preorder over every value, however nested, with numbers compared exactly
 across their types.
 */
module Bson {
  import opened Common
  import opened Bits
  import opened Float64

  /** A BSON value. `Missing` is the zero value with no type byte; a double is its bits. */
  datatype Value =
    | Missing
    | Double(bits: int)
    | String(s: seq<byte>)
    | Document(elems: seq<Elem>)
    | Array(items: seq<Value>)
    | Binary(subtype: byte, data: seq<byte>)
    | Undefined
    | ObjectId(oid: seq<byte>)
    | Boolean(b: bool)
    | DateTime(t: int)
    | Null
    | Regex(pattern: seq<byte>, options: seq<byte>)
    | DBPointer(raw: seq<byte>)
    | JavaScript(s: seq<byte>)
    | Symbol(s: seq<byte>)
    | CodeWithScope(raw: seq<byte>)
    | Int32(i: int)
    | Timestamp(u: int)
    | Int64(i: int)
    | Decimal128(raw: seq<byte>)
    | MinKey
    | MaxKey

  datatype Elem = Elem(key: seq<byte>, value: Value)

  /**
   Type ranks; the numeric types share one, the null-like types another, and whatever has no rank of
   its own sorts last.
   */
  function Rank(v: Value): nat {
    match v
    case MinKey => 0
    case Null => 1 case Undefined => 1
    case Double(_) => 2 case Int32(_) => 2 case Int64(_) => 2 case Decimal128(_) => 2
    case String(_) => 3 case Symbol(_) => 3 case JavaScript(_) => 3
    case Document(_) => 4
    case Array(_) => 5
    case Binary(_, _) => 6
    case ObjectId(_) => 7
    case Boolean(_) => 8
    case DateTime(_) => 9
    case Timestamp(_) => 10
    case Regex(_, _) => 11
    case MaxKey => 12
    case Missing => 12 case DBPointer(_) => 12 case CodeWithScope(_) => 12
  }

  function CmpInt(a: int, b: int): int { if a < b then -1 else if a > b then 1 else 0 }

  /** Byte-wise order of strings. */
  function CmpBytes(a: seq<byte>, b: seq<byte>): int {
    if a == [] then (if b == [] then 0 else -1)
    else if b == [] then 1
    else if a[0] != b[0] then CmpInt(a[0], b[0])
    else CmpBytes(a[1..], b[1..])
  }

  predicate IsInt(v: Value) { v.Int32? || v.Int64? }
  predicate Numeric(v: Value) { IsInt(v) || v.Double? || v.Decimal128? }
  predicate IsNaN(v: Value) { v.Double? && ToF64(v.bits).NaN? }

  /** A numeric value promoted to a double; Decimal128 is not promoted and reads as zero. */
  function AsFloat(v: Value): F64
    requires Numeric(v)
  {
    if v.Double? then ToF64(v.bits) else if IsInt(v) then Fin(FloatOfInt(v.i)) else Fin(0.0)
  }

  /** A non-NaN double against an int64: directly where every integer is a double, else in arbitrary precision. */
  function CmpFloatInt(f: F64, i: int): int
    requires !f.NaN?
  {
    match f
    case Inf(negative) => if negative then -1 else 1
    case Fin(r) =>
      if -EXACT < i < EXACT then Cmp(f, Fin(FloatOfInt(i)))
      else if r < i as real then -1 else if r > i as real then 1 else 0
  }

  function CompareNumbers(a: Value, b: Value): int
    requires Numeric(a) && Numeric(b)
  {
    if IsNaN(a) || IsNaN(b) then (if IsNaN(a) && IsNaN(b) then 0 else if IsNaN(a) then 1 else -1)
    else if IsInt(a) && IsInt(b) then CmpInt(a.i, b.i)
    else if IsInt(a) then -CmpFloatInt(AsFloat(b), a.i)
    else if IsInt(b) then CmpFloatInt(AsFloat(a), b.i)
    else Cmp(AsFloat(a), AsFloat(b))
  }

  function Lex(c: int, next: int): int { if c != 0 then c else next }

  /** Values of one rank that hold no other values. */
  function CompareFlat(a: Value, b: Value): int
    requires Rank(a) == Rank(b)
  {
    match a
    case Double(_) => CompareNumbers(a, b)
    case Int32(_) => CompareNumbers(a, b)
    case Int64(_) => CompareNumbers(a, b)
    case Decimal128(_) => CompareNumbers(a, b)
    case String(s) => CmpBytes(s, b.s)
    case Symbol(s) => CmpBytes(s, b.s)
    case JavaScript(s) => CmpBytes(s, b.s)
    case Binary(t, d) => Lex(CmpInt(|d|, |b.data|), Lex(CmpInt(t, b.subtype), CmpBytes(d, b.data)))
    case ObjectId(o) => CmpBytes(o, b.oid)
    case Boolean(x) => if x == b.b then 0 else if !x then -1 else 1
    case DateTime(t) => CmpInt(t, b.t)
    case Timestamp(u) => CmpInt(u, b.u)
    case Regex(p, o) => Lex(CmpBytes(p, b.pattern), CmpBytes(o, b.options))
    case _ => 0
  }

  /** The order over all values. */
  function Compare(a: Value, b: Value): int
    decreases a, 1
  {
    if Rank(a) != Rank(b) then CmpInt(Rank(a), Rank(b))
    else match a
      case Document(es) => CompareElems(es, b.elems)
      case Array(xs) => CompareItems(xs, b.items)
      case _ => CompareFlat(a, b)
  }

  /** Documents: field by field, names before values; a proper prefix sorts first. */
  function CompareElems(xs: seq<Elem>, ys: seq<Elem>): int
    decreases xs, 0
  {
    if xs == [] || ys == [] then CmpInt(|xs|, |ys|)
    else Lex(CmpBytes(xs[0].key, ys[0].key), Lex(Compare(xs[0].value, ys[0].value), CompareElems(xs[1..], ys[1..])))
  }

  function CompareItems(xs: seq<Value>, ys: seq<Value>): int
    decreases xs, 0
  {
    if xs == [] || ys == [] then CmpInt(|xs|, |ys|)
    else Lex(Compare(xs[0], ys[0]), CompareItems(xs[1..], ys[1..]))
  }

  predicate Equal(a: Value, b: Value) { Compare(a, b) == 0 }

  // ---- total preorder ------------------------------------------------------------------

  /** Three pairwise comparisons around a cycle: no strict step unless one goes the other way. */
  predicate Acyclic(ab: int, bc: int, ca: int) {
    && (ab <= 0 && bc <= 0 && ca <= 0 ==> ab == 0 && bc == 0 && ca == 0)
    && (ab >= 0 && bc >= 0 && ca >= 0 ==> ab == 0 && bc == 0 && ca == 0)
  }

  predicate Sign(c: int) { -1 <= c <= 1 }

  /** `f` and `f`-reversed agree, and the three comparisons fit together. */
  predicate Fitting(ab: int, ba: int, bc: int, cb: int, ca: int, ac: int) {
    && ab == -ba && bc == -cb && ca == -ac && Acyclic(ab, bc, ca)
    && Sign(ab) && Sign(bc) && Sign(ca)
  }

  lemma {:induction false} BytesFit(a: seq<byte>, b: seq<byte>, c: seq<byte>)
    ensures Fitting(CmpBytes(a, b), CmpBytes(b, a), CmpBytes(b, c), CmpBytes(c, b), CmpBytes(c, a), CmpBytes(a, c))
    ensures CmpBytes(a, b) == 0 <==> a == b
    decreases |a| + |b| + |c|
  {
    if a != [] && b != [] {
      BytesFit(a[1..], b[1..], if c == [] then [] else c[1..]);
      assert a == [a[0]] + a[1..] && b == [b[0]] + b[1..];
    }
    if b != [] && c != [] && a == [] { BytesFit(a, b[1..], c[1..]); }
    if a != [] && c != [] && b == [] { BytesFit(a[1..], b, c[1..]); }
  }

  /** The number a numeric value stands for; Decimal128 counts as zero. */
  function Exact(v: Value): F64
    requires Numeric(v)
  {
    if v.Double? then ToF64(v.bits) else if IsInt(v) then Fin(v.i as real) else Fin(0.0)
  }

  /** Numbers below NaN, NaN equal to itself. */
  function CmpExact(a: F64, b: F64): int {
    if a.NaN? || b.NaN? then (if a.NaN? && b.NaN? then 0 else if a.NaN? then 1 else -1) else Cmp(a, b)
  }

  /** Mixed integers and doubles are compared by their exact values, beyond 2^53 as below it. */
  lemma NumbersExact(a: Value, b: Value)
    requires Numeric(a) && Numeric(b)
    ensures CompareNumbers(a, b) == CmpExact(Exact(a), Exact(b))
  {
    hide ToF64;
  }

  lemma ExactsFit(a: F64, b: F64, c: F64)
    ensures Fitting(CmpExact(a, b), CmpExact(b, a), CmpExact(b, c), CmpExact(c, b), CmpExact(c, a), CmpExact(a, c))
  {}

  lemma NumbersFit(a: Value, b: Value, c: Value)
    requires Numeric(a) && Numeric(b) && Numeric(c)
    ensures Fitting(CompareNumbers(a, b), CompareNumbers(b, a), CompareNumbers(b, c), CompareNumbers(c, b),
            CompareNumbers(c, a), CompareNumbers(a, c))
  {
    hide CompareNumbers, CmpExact, Exact, Fitting;
    NumbersExact(a, b); NumbersExact(b, a);
    NumbersExact(b, c); NumbersExact(c, b);
    NumbersExact(c, a); NumbersExact(a, c);
    ExactsFit(Exact(a), Exact(b), Exact(c));
  }

  /** The six comparisons of three flat values fit together. */
  ghost predicate FlatAgree(a: Value, b: Value, c: Value)
    requires Rank(a) == Rank(b) == Rank(c)
  {
    Fitting(CompareFlat(a, b), CompareFlat(b, a), CompareFlat(b, c), CompareFlat(c, b), CompareFlat(c, a),
        CompareFlat(a, c))
  }

  lemma NumbersAgree(a: Value, b: Value, c: Value)
    requires Rank(a) == Rank(b) == Rank(c) == 2
    ensures FlatAgree(a, b, c)
  {
    hide CompareNumbers, Fitting;
    NumbersFit(a, b, c);
  }

  lemma StringsAgree(a: Value, b: Value, c: Value)
    requires Rank(a) == Rank(b) == Rank(c) == 3
    ensures FlatAgree(a, b, c)
  {
    hide CmpBytes, Fitting;
    BytesFit(a.s, b.s, c.s);
  }

  lemma BinariesAgree(a: Value, b: Value, c: Value)
    requires Rank(a) == Rank(b) == Rank(c) && Rank(a) in {6, 7, 11}
    ensures FlatAgree(a, b, c)
  {
    hide CmpBytes;
    match a
    case Binary(_, d) => BytesFit(d, b.data, c.data);
    case ObjectId(o) => BytesFit(o, b.oid, c.oid);
    case Regex(p, o) => BytesFit(p, b.pattern, c.pattern); BytesFit(o, b.options, c.options);
  }

  lemma ScalarsAgree(a: Value, b: Value, c: Value)
    requires Rank(a) == Rank(b) == Rank(c) && Rank(a) in {8, 9, 10}
    ensures FlatAgree(a, b, c)
  {}

  lemma TokensAgree(a: Value, b: Value, c: Value)
    requires Rank(a) == Rank(b) == Rank(c) && Rank(a) in {0, 1, 12}
    ensures FlatAgree(a, b, c)
  {
    TokensTie(a, b); TokensTie(b, a);
    TokensTie(b, c); TokensTie(c, b);
    TokensTie(c, a); TokensTie(a, c);
    hide CompareFlat, Rank;
  }

  lemma TokensTie(a: Value, b: Value)
    requires Rank(a) == Rank(b) && Rank(a) in {0, 1, 12}
    ensures CompareFlat(a, b) == 0
  {}

  /** Every type but documents and arrays. */
  lemma FlatFits(a: Value, b: Value, c: Value)
    requires Rank(a) == Rank(b) == Rank(c) && !a.Document? && !a.Array?
    ensures FlatAgree(a, b, c)
  {
    hide FlatAgree;
    if Rank(a) == 2 { NumbersAgree(a, b, c); }
    else if Rank(a) == 3 { StringsAgree(a, b, c); }
    else if Rank(a) in {6, 7, 11} { BinariesAgree(a, b, c); }
    else if Rank(a) in {8, 9, 10} { ScalarsAgree(a, b, c); }
    else { TokensAgree(a, b, c); }
  }

  /** Swapping the arguments flips the sign. */
  lemma {:induction false} Flips(a: Value, b: Value)
    ensures Compare(a, b) == -Compare(b, a) && Sign(Compare(a, b))
    decreases a, 1
  {
    OtherRanks(a, b);
    if Rank(a) == Rank(b) {
      SameRankIs(a, b);
      SameRankIs(b, a);
      hide Compare, CompareFlat, CompareElems, CompareItems, Rank;
      if a.Document? { ElemsFlip(a.elems, b.elems); }
      else if a.Array? { ItemsFlip(a.items, b.items); }
      else { FlatFits(a, b, a); }
    }
  }

  lemma OtherRanks(a: Value, b: Value)
    ensures Rank(a) != Rank(b) ==> Compare(a, b) == CmpInt(Rank(a), Rank(b))
                                   && Compare(b, a) == CmpInt(Rank(b), Rank(a))
  {
    hide CompareFlat, CompareElems, CompareItems, Rank;
  }

  /** How two values of one rank are compared. */
  lemma SameRankIs(a: Value, b: Value)
    requires Rank(a) == Rank(b)
    ensures a.Document? <==> b.Document?
    ensures a.Array? <==> b.Array?
    ensures Compare(a, b) == if a.Document? then CompareElems(a.elems, b.elems)
                             else if a.Array? then CompareItems(a.items, b.items) else CompareFlat(a, b)
  {
    hide CompareFlat, CompareElems, CompareItems;
  }

  lemma {:induction false} ElemsFlip(xs: seq<Elem>, ys: seq<Elem>)
    ensures CompareElems(xs, ys) == -CompareElems(ys, xs) && Sign(CompareElems(xs, ys))
    decreases xs, 0
  {
    hide CmpBytes, Compare;
    if xs != [] && ys != [] {
      BytesFit(xs[0].key, ys[0].key, []);
      Flips(xs[0].value, ys[0].value);
      ElemsFlip(xs[1..], ys[1..]);
    }
  }

  lemma {:induction false} ItemsFlip(xs: seq<Value>, ys: seq<Value>)
    ensures CompareItems(xs, ys) == -CompareItems(ys, xs) && Sign(CompareItems(xs, ys))
    decreases xs, 0
  {
    hide Compare;
    if xs != [] && ys != [] {
      Flips(xs[0], ys[0]);
      ItemsFlip(xs[1..], ys[1..]);
    }
  }

  /** No three values compare around a cycle. */
  lemma {:induction false} ValuesFit(a: Value, b: Value, c: Value)
    ensures Acyclic(Compare(a, b), Compare(b, c), Compare(c, a))
    decreases a, 1
  {
    OtherRanks(a, b);
    OtherRanks(b, c);
    OtherRanks(c, a);
    hide Compare, Rank;
    if Rank(a) == Rank(b) && Rank(b) == Rank(c) {
      SameRankFits(a, b, c);
    } else {
      Flips(a, b);
      Flips(b, c);
      Flips(c, a);
    }
  }

  lemma {:induction false} SameRankFits(a: Value, b: Value, c: Value)
    requires Rank(a) == Rank(b) == Rank(c)
    ensures Acyclic(Compare(a, b), Compare(b, c), Compare(c, a))
    decreases a, 0
  {
    SameRankIs(a, b);
    SameRankIs(b, c);
    SameRankIs(c, a);
    hide Compare, CompareFlat, CompareElems, CompareItems, Rank;
    if a.Document? { ElemsFit(a.elems, b.elems, c.elems); }
    else if a.Array? { ItemsFit(a.items, b.items, c.items); }
    else { FlatFits(a, b, c); }
  }

  lemma {:induction false} ElemsFit(xs: seq<Elem>, ys: seq<Elem>, zs: seq<Elem>)
    ensures Acyclic(CompareElems(xs, ys), CompareElems(ys, zs), CompareElems(zs, xs))
    decreases xs, 0
  {
    hide CmpBytes, Compare;
    if xs != [] && ys != [] && zs != [] {
      BytesFit(xs[0].key, ys[0].key, zs[0].key);
      ValuesFit(xs[0].value, ys[0].value, zs[0].value);
      Flips(xs[0].value, ys[0].value); Flips(ys[0].value, zs[0].value); Flips(zs[0].value, xs[0].value);
      ElemsFit(xs[1..], ys[1..], zs[1..]);
    } else {
      ElemsFlip(xs, ys); ElemsFlip(ys, zs); ElemsFlip(zs, xs);
    }
  }

  lemma {:induction false} ItemsFit(xs: seq<Value>, ys: seq<Value>, zs: seq<Value>)
    ensures Acyclic(CompareItems(xs, ys), CompareItems(ys, zs), CompareItems(zs, xs))
    decreases xs, 0
  {
    hide Compare;
    if xs != [] && ys != [] && zs != [] {
      ValuesFit(xs[0], ys[0], zs[0]);
      Flips(xs[0], ys[0]); Flips(ys[0], zs[0]); Flips(zs[0], xs[0]);
      ItemsFit(xs[1..], ys[1..], zs[1..]);
    } else {
      ItemsFlip(xs, ys); ItemsFlip(ys, zs); ItemsFlip(zs, xs);
    }
  }

  /** The order is a total preorder on all values, and values that compare equal are interchangeable in it. */
  lemma CompareIsTotalPreorder(a: Value, b: Value, c: Value)
    ensures Compare(a, a) == 0
    ensures Compare(a, b) == -Compare(b, a)
    ensures Compare(a, b) <= 0 && Compare(b, c) <= 0 ==> Compare(a, c) <= 0
    ensures Compare(a, b) == 0 ==> Compare(a, c) == Compare(b, c)
  {
    hide Compare;
    Flips(a, a);
    Flips(a, b); Flips(b, c); Flips(c, a);
    ValuesFit(a, b, c);
  }
}
