/**
 What the order of BSON values is, position by position: which type comes first, what decides
 between two values of one type, and where two documents or arrays first differ.
 */
module BsonOrder {
  import opened Common
  import opened Float64
  import opened Bson

  /** The first differing byte is less, or there is none and `a` ends first. */
  ghost predicate BytesBefore(a: seq<byte>, b: seq<byte>) {
    exists i :: 0 <= i <= |a| && i <= |b| && a[..i] == b[..i]
                && ((i == |a| && i < |b|) || (i < |a| && i < |b| && a[i] < b[i]))
  }

  lemma BytesBeforeAt(a: seq<byte>, b: seq<byte>, i: nat)
    requires i <= |a| && i <= |b| && a[..i] == b[..i]
    requires (i == |a| && i < |b|) || (i < |a| && i < |b| && a[i] < b[i])
    ensures BytesBefore(a, b)
  {}

  lemma BytesTail(a: seq<byte>, b: seq<byte>)
    requires a != [] && b != [] && a[0] == b[0] && BytesBefore(a[1..], b[1..])
    ensures BytesBefore(a, b)
  {
    var x, y := a[1..], b[1..];
    var i :| 0 <= i <= |x| && i <= |y| && x[..i] == y[..i]
             && ((i == |x| && i < |y|) || (i < |x| && i < |y| && x[i] < y[i]));
    assert a[..i + 1] == [a[0]] + x[..i] && b[..i + 1] == [b[0]] + y[..i];
    BytesBeforeAt(a, b, i + 1);
  }

  lemma NotBoth(a: seq<byte>, b: seq<byte>)
    requires BytesBefore(a, b)
    ensures !BytesBefore(b, a) && a != b
  {
    var i :| 0 <= i <= |a| && i <= |b| && a[..i] == b[..i]
             && ((i == |a| && i < |b|) || (i < |a| && i < |b| && a[i] < b[i]));
    SamePrefix(a, b, i);
    if BytesBefore(b, a) {
      var j :| 0 <= j <= |b| && j <= |a| && b[..j] == a[..j]
               && ((j == |b| && j < |a|) || (j < |b| && j < |a| && b[j] < a[j]));
      SamePrefix(b, a, j);
    }
  }

  lemma SamePrefix(a: seq<byte>, b: seq<byte>, i: nat)
    requires i <= |a| && i <= |b| && a[..i] == b[..i]
    ensures forall x :: 0 <= x < i ==> a[x] == b[x]
  {
    forall x | 0 <= x < i ensures a[x] == b[x] { assert a[..i][x] == b[..i][x]; }
  }

  lemma {:induction false} BytesOrdered(a: seq<byte>, b: seq<byte>)
    ensures CmpBytes(a, b) < 0 ==> BytesBefore(a, b)
    ensures CmpBytes(a, b) > 0 ==> BytesBefore(b, a)
    ensures CmpBytes(a, b) == 0 ==> a == b
    decreases |a|
  {
    hide BytesBefore;
    if a == [] && b != [] {
      BytesBeforeAt(a, b, 0);
    } else if b == [] && a != [] {
      BytesBeforeAt(b, a, 0);
    } else if a != [] && b != [] {
      assert a == [a[0]] + a[1..] && b == [b[0]] + b[1..];
      if a[0] < b[0] {
        BytesBeforeAt(a, b, 0);
      } else if b[0] < a[0] {
        BytesBeforeAt(b, a, 0);
      } else {
        BytesOrdered(a[1..], b[1..]);
        if CmpBytes(a, b) < 0 { BytesTail(a, b); }
        if CmpBytes(a, b) > 0 { BytesTail(b, a); }
      }
    }
  }

  /** Byte strings go by the first differing byte, a proper prefix first. */
  lemma BytesOrder(a: seq<byte>, b: seq<byte>)
    ensures CmpBytes(a, b) < 0 <==> BytesBefore(a, b)
    ensures CmpBytes(a, b) > 0 <==> BytesBefore(b, a)
    ensures CmpBytes(a, b) == 0 <==> a == b
  {
    hide BytesBefore;
    BytesOrdered(a, b);
    if BytesBefore(a, b) { NotBoth(a, b); }
    if BytesBefore(b, a) { NotBoth(b, a); }
    BytesFit(a, b, a);
  }

  // ---- types ------------------------------------------------------------------------------------

  /** The types from lowest to highest; the numeric, the textual and the null-like ones are one each. */
  const TYPES: seq<Value -> bool> := [
    (v: Value) => v.MinKey?,
    (v: Value) => v.Null? || v.Undefined?,
    (v: Value) => v.Double? || v.Int32? || v.Int64? || v.Decimal128?,
    (v: Value) => v.String? || v.Symbol? || v.JavaScript?,
    (v: Value) => v.Document?,
    (v: Value) => v.Array?,
    (v: Value) => v.Binary?,
    (v: Value) => v.ObjectId?,
    (v: Value) => v.Boolean?,
    (v: Value) => v.DateTime?,
    (v: Value) => v.Timestamp?,
    (v: Value) => v.Regex?,
    (v: Value) => v.MaxKey? || v.Missing? || v.DBPointer? || v.CodeWithScope?
  ]

  lemma TypeIsRank(v: Value, i: nat)
    requires i < |TYPES|
    ensures TYPES[i](v) <==> Rank(v) == i
  {}

  /** Every value has one place in the chain of types, and that alone decides between different places. */
  lemma TypeOrder(a: Value, b: Value, i: nat, j: nat)
    requires i < |TYPES| && j < |TYPES| && TYPES[i](a) && TYPES[j](b)
    ensures i < j ==> Compare(a, b) == -1
    ensures i > j ==> Compare(a, b) == 1
  {
    hide Compare;
    TypeIsRank(a, i);
    TypeIsRank(b, j);
    OtherRanks(a, b);
  }

  lemma HasType(v: Value) returns (i: nat)
    ensures i < |TYPES| && TYPES[i](v)
    ensures forall j :: 0 <= j < |TYPES| && TYPES[j](v) ==> j == i
  {
    i := Rank(v);
    forall j | 0 <= j < |TYPES| ensures TYPES[j](v) <==> j == i { TypeIsRank(v, j); }
  }

  // ---- values of one type ----------------------------------------------------------------------

  /** `c` is the sign of a comparison in which `before` says less, `after` greater and `tie` equal. */
  ghost predicate Decides(c: int, before: bool, after: bool, tie: bool) {
    (c < 0 <==> before) && (c > 0 <==> after) && (c == 0 <==> tie)
  }

  /** Below in the extended real line. */
  predicate NumberBelow(x: F64, y: F64)
    requires !x.NaN? && !y.NaN?
  {
    || (x.Fin? && y.Fin? && x.r < y.r)
    || (x == Inf(true) && y != Inf(true))
    || (y == Inf(false) && x != Inf(false))
  }

  /** Numbers go by what they stand for, whatever their types; NaN is above all others and ties with itself. */
  lemma NumberOrder(a: Value, b: Value)
    requires Numeric(a) && Numeric(b)
    ensures Exact(a).NaN? && Exact(b).NaN? ==> Compare(a, b) == 0
    ensures Exact(a).NaN? && !Exact(b).NaN? ==> Compare(a, b) == 1
    ensures !Exact(a).NaN? && Exact(b).NaN? ==> Compare(a, b) == -1
    ensures !Exact(a).NaN? && !Exact(b).NaN? ==>
              Decides(Compare(a, b), NumberBelow(Exact(a), Exact(b)), NumberBelow(Exact(b), Exact(a)),
                  Exact(a) == Exact(b))
  {
    NumbersExact(a, b);
    assert Compare(a, b) == CompareNumbers(a, b);
    hide Compare, CompareNumbers, Exact;
  }

  function TextOf(v: Value): seq<byte>
    requires v.String? || v.Symbol? || v.JavaScript?
  {
    v.s
  }

  predicate IsText(v: Value) { v.String? || v.Symbol? || v.JavaScript? }

  lemma TextOrder(a: Value, b: Value)
    requires IsText(a) && IsText(b)
    ensures Decides(Compare(a, b), BytesBefore(TextOf(a), TextOf(b)), BytesBefore(TextOf(b), TextOf(a)),
            TextOf(a) == TextOf(b))
  {
    hide BytesBefore;
    BytesOrder(a.s, b.s);
  }

  /** Object ids by their bytes, false before true, dates and timestamps by their number. */
  lemma ScalarOrder(o: seq<byte>, p: seq<byte>, x: bool, y: bool, m: int, n: int)
    ensures Decides(Compare(ObjectId(o), ObjectId(p)), BytesBefore(o, p), BytesBefore(p, o), o == p)
    ensures Decides(Compare(Boolean(x), Boolean(y)), !x && y, x && !y, x == y)
    ensures Decides(Compare(DateTime(m), DateTime(n)), m < n, m > n, m == n)
    ensures Decides(Compare(Timestamp(m), Timestamp(n)), m < n, m > n, m == n)
  {
    hide BytesBefore;
    BytesOrder(o, p);
  }

  /** Binaries by length, then subtype, then bytes. */
  lemma BinaryOrder(s: byte, x: seq<byte>, t: byte, y: seq<byte>)
    ensures Decides(Compare(Binary(s, x), Binary(t, y)),
                    |x| < |y| || (|x| == |y| && (s < t || (s == t && BytesBefore(x, y)))),
                    |x| > |y| || (|x| == |y| && (s > t || (s == t && BytesBefore(y, x)))), s == t && x == y)
  {
    hide BytesBefore;
    BytesOrder(x, y);
  }

  /** Regular expressions by pattern, then options. */
  lemma RegexOrder(p: seq<byte>, o: seq<byte>, q: seq<byte>, r: seq<byte>)
    ensures Decides(Compare(Regex(p, o), Regex(q, r)),
                    BytesBefore(p, q) || (p == q && BytesBefore(o, r)),
                    BytesBefore(q, p) || (p == q && BytesBefore(r, o)), p == q && o == r)
  {
    hide BytesBefore;
    BytesOrder(p, q);
    BytesOrder(o, r);
    if BytesBefore(p, q) { NotBoth(p, q); }
    if BytesBefore(q, p) { NotBoth(q, p); }
  }

  /** Values of the lowest type, of the null-like and of the highest types all tie. */
  lemma OneValue(a: Value, b: Value, i: nat)
    requires i in {0, 1, 12} && TYPES[i](a) && TYPES[i](b)
    ensures Compare(a, b) == 0
  {}

  // ---- documents and arrays ------------------------------------------------------------------------

  /** Fields that neither name nor value tells apart. */
  predicate FieldsTie(x: Elem, y: Elem) { x.key == y.key && Compare(x.value, y.value) == 0 }

  /** The name decides, and of one name the value. */
  ghost predicate FieldBefore(x: Elem, y: Elem) {
    BytesBefore(x.key, y.key) || (x.key == y.key && Compare(x.value, y.value) < 0)
  }

  /** At the first field where they differ `xs` is before, or there is none and it ends first. */
  ghost predicate DocBefore(xs: seq<Elem>, ys: seq<Elem>) {
    exists i :: 0 <= i <= |xs| && i <= |ys| && DocBeforeAt(xs, ys, i)
  }

  ghost predicate DocBeforeAt(xs: seq<Elem>, ys: seq<Elem>, i: nat)
    requires i <= |xs| && i <= |ys|
  {
    && (forall j :: 0 <= j < i ==> FieldsTie(xs[j], ys[j]))
    && ((i == |xs| && i < |ys|) || (i < |xs| && i < |ys| && FieldBefore(xs[i], ys[i])))
  }

  ghost predicate DocsTie(xs: seq<Elem>, ys: seq<Elem>) {
    |xs| == |ys| && forall j :: 0 <= j < |xs| ==> FieldsTie(xs[j], ys[j])
  }

  lemma ShiftDoc(xs: seq<Elem>, ys: seq<Elem>)
    requires xs != [] && ys != [] && FieldsTie(xs[0], ys[0])
    ensures DocBefore(xs[1..], ys[1..]) ==> DocBefore(xs, ys)
    ensures DocsTie(xs[1..], ys[1..]) ==> DocsTie(xs, ys)
  {
    hide FieldBefore, FieldsTie;
    var us, vs := xs[1..], ys[1..];
    if DocBefore(us, vs) {
      var i :| 0 <= i <= |us| && i <= |vs| && DocBeforeAt(us, vs, i);
      forall j | 0 <= j < i + 1 ensures FieldsTie(xs[j], ys[j]) { if j > 0 { assert FieldsTie(us[j - 1], vs[j - 1]); } }
      assert DocBeforeAt(xs, ys, i + 1);
    }
    if DocsTie(us, vs) {
      forall j | 0 <= j < |xs| ensures FieldsTie(xs[j], ys[j]) { if j > 0 { assert FieldsTie(us[j - 1], vs[j - 1]); } }
    }
  }

  lemma FieldDecides(x: Elem, y: Elem)
    ensures var c := Lex(CmpBytes(x.key, y.key), Compare(x.value, y.value));
            Decides(c, FieldBefore(x, y), FieldBefore(y, x), FieldsTie(x, y))
  {
    hide BytesBefore, Compare;
    BytesOrder(x.key, y.key);
    Flips(x.value, y.value);
    if BytesBefore(x.key, y.key) { NotBoth(x.key, y.key); }
    if BytesBefore(y.key, x.key) { NotBoth(y.key, x.key); }
  }

  lemma FieldsFlip(x: Elem, y: Elem)
    ensures FieldsTie(x, y) <==> FieldsTie(y, x)
  {
    hide Compare;
    Flips(x.value, y.value);
  }

  lemma {:induction false} DocsOrdered(xs: seq<Elem>, ys: seq<Elem>)
    ensures CompareElems(xs, ys) < 0 ==> DocBefore(xs, ys)
    ensures CompareElems(xs, ys) > 0 ==> DocBefore(ys, xs)
    ensures CompareElems(xs, ys) == 0 ==> DocsTie(xs, ys)
    decreases |xs|
  {
    hide FieldBefore, FieldsTie, Compare, CmpBytes;
    if xs == [] || ys == [] {
      if xs == [] && ys != [] { assert DocBeforeAt(xs, ys, 0); }
      if ys == [] && xs != [] { assert DocBeforeAt(ys, xs, 0); }
    } else {
      FieldDecides(xs[0], ys[0]);
      FieldsFlip(xs[0], ys[0]);
      if FieldsTie(xs[0], ys[0]) {
        DocsOrdered(xs[1..], ys[1..]);
        hide DocBefore, DocsTie;
        ShiftDoc(xs, ys);
        ShiftDoc(ys, xs);
      } else if FieldBefore(xs[0], ys[0]) {
        assert DocBeforeAt(xs, ys, 0);
      } else {
        assert DocBeforeAt(ys, xs, 0);
      }
    }
  }

  lemma DocsExclude(xs: seq<Elem>, ys: seq<Elem>)
    requires DocBefore(xs, ys)
    ensures !DocBefore(ys, xs) && !DocsTie(xs, ys)
  {
    hide FieldBefore, FieldsTie;
    var i :| 0 <= i <= |xs| && i <= |ys| && DocBeforeAt(xs, ys, i);
    if i < |xs| && i < |ys| { FieldDecides(xs[i], ys[i]); }
    if DocBefore(ys, xs) {
      var j :| 0 <= j <= |ys| && j <= |xs| && DocBeforeAt(ys, xs, j);
      if i < j { FieldsFlip(xs[i], ys[i]); }
      if j < i { FieldDecides(xs[j], ys[j]); }
    }
  }

  lemma DocsTieFlips(xs: seq<Elem>, ys: seq<Elem>)
    ensures DocsTie(xs, ys) <==> DocsTie(ys, xs)
  {
    hide FieldsTie;
    forall j | 0 <= j < |xs| && j < |ys| ensures FieldsTie(xs[j], ys[j]) <==> FieldsTie(ys[j], xs[j]) {
      FieldsFlip(xs[j], ys[j]);
    }
  }

  /** Documents go by the first field they differ in, the name before the value, a proper prefix first. */
  lemma DocumentOrder(xs: seq<Elem>, ys: seq<Elem>)
    ensures Decides(Compare(Document(xs), Document(ys)), DocBefore(xs, ys), DocBefore(ys, xs), DocsTie(xs, ys))
  {
    DocsOrdered(xs, ys);
    assert Compare(Document(xs), Document(ys)) == CompareElems(xs, ys);
    hide DocBefore, DocsTie, Compare, CompareElems;
    if DocBefore(xs, ys) { DocsExclude(xs, ys); }
    if DocBefore(ys, xs) { DocsExclude(ys, xs); DocsTieFlips(xs, ys); }
  }

  ghost predicate ArrayBeforeAt(xs: seq<Value>, ys: seq<Value>, i: nat)
    requires i <= |xs| && i <= |ys|
  {
    && (forall j :: 0 <= j < i ==> Compare(xs[j], ys[j]) == 0)
    && ((i == |xs| && i < |ys|) || (i < |xs| && i < |ys| && Compare(xs[i], ys[i]) < 0))
  }

  /** At the first item where they differ `xs` is before, or there is none and it ends first. */
  ghost predicate ArrayBefore(xs: seq<Value>, ys: seq<Value>) {
    exists i :: 0 <= i <= |xs| && i <= |ys| && ArrayBeforeAt(xs, ys, i)
  }

  ghost predicate ArraysTie(xs: seq<Value>, ys: seq<Value>) {
    |xs| == |ys| && forall j :: 0 <= j < |xs| ==> Compare(xs[j], ys[j]) == 0
  }

  lemma ShiftArray(xs: seq<Value>, ys: seq<Value>)
    requires xs != [] && ys != [] && Compare(xs[0], ys[0]) == 0
    ensures ArrayBefore(xs[1..], ys[1..]) ==> ArrayBefore(xs, ys)
    ensures ArraysTie(xs[1..], ys[1..]) ==> ArraysTie(xs, ys)
  {
    hide Compare;
    var us, vs := xs[1..], ys[1..];
    if ArrayBefore(us, vs) {
      var i :| 0 <= i <= |us| && i <= |vs| && ArrayBeforeAt(us, vs, i);
      forall j | 0 <= j < i + 1 ensures Compare(xs[j], ys[j]) == 0 {
        if j > 0 { assert Compare(us[j - 1], vs[j - 1]) == 0; }
      }
      assert ArrayBeforeAt(xs, ys, i + 1);
    }
    if ArraysTie(us, vs) {
      forall j | 0 <= j < |xs| ensures Compare(xs[j], ys[j]) == 0 {
        if j > 0 { assert Compare(us[j - 1], vs[j - 1]) == 0; }
      }
    }
  }

  lemma {:induction false} ArraysOrdered(xs: seq<Value>, ys: seq<Value>)
    ensures CompareItems(xs, ys) < 0 ==> ArrayBefore(xs, ys)
    ensures CompareItems(xs, ys) > 0 ==> ArrayBefore(ys, xs)
    ensures CompareItems(xs, ys) == 0 ==> ArraysTie(xs, ys)
    decreases |xs|
  {
    hide Compare;
    if xs == [] || ys == [] {
      if xs == [] && ys != [] { assert ArrayBeforeAt(xs, ys, 0); }
      if ys == [] && xs != [] { assert ArrayBeforeAt(ys, xs, 0); }
    } else {
      Flips(xs[0], ys[0]);
      if Compare(xs[0], ys[0]) == 0 {
        ArraysOrdered(xs[1..], ys[1..]);
        hide ArrayBefore, ArraysTie;
        ShiftArray(xs, ys);
        ShiftArray(ys, xs);
      } else if Compare(xs[0], ys[0]) < 0 {
        assert ArrayBeforeAt(xs, ys, 0);
      } else {
        assert ArrayBeforeAt(ys, xs, 0);
      }
    }
  }

  lemma ArraysExclude(xs: seq<Value>, ys: seq<Value>)
    requires ArrayBefore(xs, ys)
    ensures !ArrayBefore(ys, xs) && !ArraysTie(xs, ys) && !ArraysTie(ys, xs)
  {
    hide Compare;
    var i :| 0 <= i <= |xs| && i <= |ys| && ArrayBeforeAt(xs, ys, i);
    if i < |xs| && i < |ys| { Flips(xs[i], ys[i]); }
    if ArrayBefore(ys, xs) {
      var j :| 0 <= j <= |ys| && j <= |xs| && ArrayBeforeAt(ys, xs, j);
      if j < i { Flips(xs[j], ys[j]); }
    }
  }

  lemma ArraysTieFlips(xs: seq<Value>, ys: seq<Value>)
    ensures ArraysTie(xs, ys) <==> ArraysTie(ys, xs)
  {
    hide Compare;
    forall j | 0 <= j < |xs| && j < |ys| ensures Compare(xs[j], ys[j]) == 0 <==> Compare(ys[j], xs[j]) == 0 {
      Flips(xs[j], ys[j]);
    }
  }

  /** Arrays go by the first item they differ in, a proper prefix first. */
  lemma ArrayOrder(xs: seq<Value>, ys: seq<Value>)
    ensures Decides(Compare(Array(xs), Array(ys)), ArrayBefore(xs, ys), ArrayBefore(ys, xs), ArraysTie(xs, ys))
  {
    ArraysOrdered(xs, ys);
    assert Compare(Array(xs), Array(ys)) == CompareItems(xs, ys);
    hide ArrayBefore, ArraysTie, Compare, CompareItems;
    if ArrayBefore(xs, ys) { ArraysExclude(xs, ys); }
    if ArrayBefore(ys, xs) { ArraysExclude(ys, xs); }
    ArraysTieFlips(xs, ys);
  }
}
