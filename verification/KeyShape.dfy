/**
 The grouping keys of documents and arrays. They are written without escaping, so a comma in a string
 can make two documents share a key; where nothing in them looks like a delimiter, two of them share
 a key exactly when they are equal.
 */
module KeyShape {
  import opened Common
  import opened BsonCodec
  import opened Bson
  import opened GroupKey
  import opened HashJoin

  const COMMA: byte := 0x2C
  const EQUALS: byte := 0x3D
  const CLOSE_DOC: byte := 0x7D
  const CLOSE_ARRAY: byte := 0x5D

  predicate Leaf(v: Value) { !v.Document? && !v.Array? }

  /** A name that ends where its `=` is, and is not taken for the document's end. */
  predicate PlainName(s: Bytes) { EQUALS !in s && (s != [] ==> s[0] != CLOSE_DOC) }

  /** No leaf's key has a comma and every name is plain. */
  predicate Tidy(v: Value)
    decreases v, 1
  {
    match v
    case Document(es) => TidyElems(es)
    case Array(xs) => TidyItems(xs)
    case _ => COMMA !in WriteKey(v)
  }

  predicate TidyElems(es: seq<Elem>)
    decreases es, 0
  {
    es == [] || (PlainName(es[0].key) && Tidy(es[0].value) && TidyElems(es[1..]))
  }

  predicate TidyItems(xs: seq<Value>)
    decreases xs, 0
  {
    xs == [] || (Tidy(xs[0]) && TidyItems(xs[1..]))
  }

  /** The same names and nesting, with leaves of one key at the same places. */
  predicate Same(a: Value, b: Value)
    decreases a, 1
  {
    if a.Document? && b.Document? then SameElems(a.elems, b.elems)
    else if a.Array? && b.Array? then SameItems(a.items, b.items)
    else Leaf(a) && Leaf(b) && WriteKey(a) == WriteKey(b)
  }

  predicate SameElems(es: seq<Elem>, fs: seq<Elem>)
    decreases es, 0
  {
    if es == [] || fs == [] then es == [] && fs == []
    else es[0].key == fs[0].key && Same(es[0].value, fs[0].value) && SameElems(es[1..], fs[1..])
  }

  predicate SameItems(xs: seq<Value>, ys: seq<Value>)
    decreases xs, 0
  {
    if xs == [] || ys == [] then xs == [] && ys == []
    else Same(xs[0], ys[0]) && SameItems(xs[1..], ys[1..])
  }

  // ---- reading a key back ------------------------------------------------------------------------

  /** Two texts without the delimiter, followed by it, are told apart from what comes after. */
  lemma {:induction false} CutAt(d: byte, x: Bytes, y: Bytes, s: Bytes, t: Bytes)
    requires d !in x && d !in y && x + [d] + s == y + [d] + t
    ensures x == y && s == t
    decreases |x|
  {
    var l, r := x + [d] + s, y + [d] + t;
    assert l[0] == r[0] && (x != [] ==> x[0] in x) && (y != [] ==> y[0] in y);
    if x == [] || y == [] {
      assert l[1..] == s && r[1..] == t;
    } else {
      assert l[1..] == x[1..] + [d] + s && r[1..] == y[1..] + [d] + t;
      CutAt(d, x[1..], y[1..], s, t);
    }
  }

  /** The first byte of a key tells leaves, documents and arrays apart and is never a closing one. */
  lemma FirstByte(v: Value)
    ensures WriteKey(v) != []
    ensures v.Document? <==> WriteKey(v)[0] == 0x7B
    ensures v.Array? <==> WriteKey(v)[0] == 0x5B
    ensures WriteKey(v)[0] != CLOSE_ARRAY
  {}

  /** Fields that are still to come, the end of their document, and what follows. */
  function RestOfDoc(es: seq<Elem>, s: Bytes): Bytes { WriteElems(es) + [CLOSE_DOC] + s }

  function RestOfArray(xs: seq<Value>, s: Bytes): Bytes { WriteItems(xs) + [CLOSE_ARRAY] + s }

  lemma ElemWrites(es: seq<Elem>, s: Bytes)
    requires es != []
    ensures RestOfDoc(es, s) == es[0].key + [EQUALS] + (WriteKey(es[0].value) + [COMMA] + RestOfDoc(es[1..], s))
  {
    hide WriteKey;
    var k, rest := es[0].key + [EQUALS], WriteElems(es[1..]);
    var v := WriteKey(es[0].value) + [COMMA];
    assert WriteElems(es) == k + v + rest;
    Regroup(k, v, rest, [CLOSE_DOC], s);
  }

  lemma Regroup(k: Bytes, v: Bytes, rest: Bytes, d: Bytes, s: Bytes)
    ensures k + v + rest + d + s == k + (v + (rest + d + s))
  {}

  lemma NameFirst(key: Bytes, rest: Bytes)
    requires PlainName(key)
    ensures (key + [EQUALS] + rest)[0] != CLOSE_DOC
  {
    if key != [] { assert (key + [EQUALS] + rest)[0] == key[0]; }
  }

  lemma DocSplits(es: seq<Elem>, s: Bytes)
    requires TidyElems(es)
    ensures var r := RestOfDoc(es, s);
            if es == [] then r[0] == CLOSE_DOC && r[1..] == s
            else
              r[0] != CLOSE_DOC
              && r == es[0].key + [EQUALS] + (WriteKey(es[0].value) + [COMMA] + RestOfDoc(es[1..], s))
  {
    if es != [] {
      hide WriteKey, RestOfDoc, PlainName;
      ElemWrites(es, s);
      NameFirst(es[0].key, WriteKey(es[0].value) + [COMMA] + RestOfDoc(es[1..], s));
    }
  }

  lemma ArraySplits(xs: seq<Value>, s: Bytes)
    requires TidyItems(xs)
    ensures var r := RestOfArray(xs, s);
            if xs == [] then r[0] == CLOSE_ARRAY && r[1..] == s
            else r[0] != CLOSE_ARRAY && r == WriteKey(xs[0]) + [COMMA] + RestOfArray(xs[1..], s)
  {
    hide WriteKey;
    if xs != [] {
      FirstByte(xs[0]);
      var v, rest := WriteKey(xs[0]) + [COMMA], WriteItems(xs[1..]);
      assert WriteItems(xs) == v + rest;
      Regroup([], v, rest, [CLOSE_ARRAY], s);
    }
  }

  lemma NestedKey(v: Value, s: Bytes)
    requires !Leaf(v)
    ensures (WriteKey(v) + [COMMA] + s)[1..] == if v.Document? then RestOfDoc(v.elems, [COMMA] + s)
                                                else RestOfArray(v.items, [COMMA] + s)
  {
    hide WriteElems, WriteItems;
    if v.Document? {
      assert (WriteKey(v) + [COMMA] + s)[1..] == RestOfDoc(v.elems, [COMMA] + s);
    } else {
      assert (WriteKey(v) + [COMMA] + s)[1..] == RestOfArray(v.items, [COMMA] + s);
    }
  }

  lemma SameKind(a: Value, b: Value, s: Bytes, t: Bytes)
    requires WriteKey(a) + [COMMA] + s == WriteKey(b) + [COMMA] + t
    ensures (a.Document? <==> b.Document?) && (a.Array? <==> b.Array?)
  {
    hide WriteKey;
    FirstByte(a);
    FirstByte(b);
    assert (WriteKey(a) + [COMMA] + s)[0] == WriteKey(a)[0] && (WriteKey(b) + [COMMA] + t)[0] == WriteKey(b)[0];
  }

  lemma TailsEqual(s: Bytes, t: Bytes)
    requires [COMMA] + s == [COMMA] + t
    ensures s == t
  {
    assert s == ([COMMA] + s)[1..] && t == ([COMMA] + t)[1..];
  }

  lemma {:induction false} KeysUnique(a: Value, b: Value, s: Bytes, t: Bytes)
    requires Tidy(a) && Tidy(b) && WriteKey(a) + [COMMA] + s == WriteKey(b) + [COMMA] + t
    ensures Same(a, b) && s == t
    decreases a, 1
  {
    hide WriteKey, RestOfDoc, RestOfArray;
    SameKind(a, b, s, t);
    if Leaf(a) {
      CutAt(COMMA, WriteKey(a), WriteKey(b), s, t);
    } else {
      NestedKey(a, s);
      NestedKey(b, t);
      if a.Document? { ElemsUnique(a.elems, b.elems, [COMMA] + s, [COMMA] + t); }
      else { ItemsUnique(a.items, b.items, [COMMA] + s, [COMMA] + t); }
      TailsEqual(s, t);
    }
  }

  lemma {:induction false} ElemsUnique(es: seq<Elem>, fs: seq<Elem>, s: Bytes, t: Bytes)
    requires TidyElems(es) && TidyElems(fs) && RestOfDoc(es, s) == RestOfDoc(fs, t)
    ensures SameElems(es, fs) && s == t
    decreases es, 0
  {
    hide WriteKey, RestOfDoc;
    DocSplits(es, s);
    DocSplits(fs, t);
    if es != [] {
      var s', t' := RestOfDoc(es[1..], s), RestOfDoc(fs[1..], t);
      CutAt(EQUALS, es[0].key, fs[0].key, WriteKey(es[0].value) + [COMMA] + s', WriteKey(fs[0].value) + [COMMA] + t');
      KeysUnique(es[0].value, fs[0].value, s', t');
      ElemsUnique(es[1..], fs[1..], s, t);
    }
  }

  lemma {:induction false} ItemsUnique(xs: seq<Value>, ys: seq<Value>, s: Bytes, t: Bytes)
    requires TidyItems(xs) && TidyItems(ys) && RestOfArray(xs, s) == RestOfArray(ys, t)
    ensures SameItems(xs, ys) && s == t
    decreases xs, 0
  {
    hide WriteKey, RestOfArray;
    ArraySplits(xs, s);
    ArraySplits(ys, t);
    if xs != [] {
      KeysUnique(xs[0], ys[0], RestOfArray(xs[1..], s), RestOfArray(ys[1..], t));
      ItemsUnique(xs[1..], ys[1..], s, t);
    }
  }

  lemma {:induction false} SameWrites(a: Value, b: Value)
    requires Same(a, b)
    ensures WriteKey(a) == WriteKey(b)
    decreases a, 1
  {
    if a.Document? { SameElemsWrite(a.elems, b.elems); } else if a.Array? { SameItemsWrite(a.items, b.items); }
  }

  lemma {:induction false} SameElemsWrite(es: seq<Elem>, fs: seq<Elem>)
    requires SameElems(es, fs)
    ensures WriteElems(es) == WriteElems(fs)
    decreases es, 0
  {
    hide WriteKey;
    if es != [] {
      SameWrites(es[0].value, fs[0].value);
      SameElemsWrite(es[1..], fs[1..]);
    }
  }

  lemma {:induction false} SameItemsWrite(xs: seq<Value>, ys: seq<Value>)
    requires SameItems(xs, ys)
    ensures WriteItems(xs) == WriteItems(ys)
    decreases xs, 0
  {
    hide WriteKey;
    if xs != [] {
      SameWrites(xs[0], ys[0]);
      SameItemsWrite(xs[1..], ys[1..]);
    }
  }

  lemma TidyKeys(a: Value, b: Value)
    requires Tidy(a) && Tidy(b)
    ensures WriteKey(a) == WriteKey(b) <==> Same(a, b)
  {
    hide WriteKey, Same, Tidy;
    if Same(a, b) { SameWrites(a, b); }
    if WriteKey(a) == WriteKey(b) { KeysUnique(a, b, [], []); }
  }

  // ---- against equality --------------------------------------------------------------------------

  /** Every leaf is of a type whose key is exact. */
  predicate ScalarLeaves(v: Value)
    decreases v, 1
  {
    match v
    case Document(es) => ScalarElems(es)
    case Array(xs) => ScalarItems(xs)
    case _ => Scalar(v)
  }

  predicate ScalarElems(es: seq<Elem>)
    decreases es, 0
  {
    es == [] || (ScalarLeaves(es[0].value) && ScalarElems(es[1..]))
  }

  predicate ScalarItems(xs: seq<Value>)
    decreases xs, 0
  {
    xs == [] || (ScalarLeaves(xs[0]) && ScalarItems(xs[1..]))
  }

  /** At some place both have leaves, and these are equal with different keys. */
  predicate ExceptionalWithin(a: Value, b: Value)
    decreases a, 1
  {
    if a.Document? && b.Document? then ExceptionalElems(a.elems, b.elems)
    else if a.Array? && b.Array? then ExceptionalItems(a.items, b.items)
    else Leaf(a) && Leaf(b) && Exceptional(a, b)
  }

  predicate ExceptionalElems(es: seq<Elem>, fs: seq<Elem>)
    decreases es, 0
  {
    es != [] && fs != [] && (ExceptionalWithin(es[0].value, fs[0].value) || ExceptionalElems(es[1..], fs[1..]))
  }

  predicate ExceptionalItems(xs: seq<Value>, ys: seq<Value>)
    decreases xs, 0
  {
    xs != [] && ys != [] && (ExceptionalWithin(xs[0], ys[0]) || ExceptionalItems(xs[1..], ys[1..]))
  }

  lemma {:induction false} SameIsEqual(a: Value, b: Value)
    requires ScalarLeaves(a) && ScalarLeaves(b)
    ensures Same(a, b) <==> Equal(a, b) && !ExceptionalWithin(a, b)
    decreases a, 1
  {
    hide WriteKey, Exceptional, CompareFlat, CompareElems, CompareItems, ExceptionalElems, ExceptionalItems;
    hide SameElems, SameItems, ScalarElems, ScalarItems;
    if a.Document? && b.Document? {
      SameElemsEqual(a.elems, b.elems);
    } else if a.Array? && b.Array? {
      SameItemsEqual(a.items, b.items);
    } else if Leaf(a) && Leaf(b) {
      KeyIffEqual(a, b);
    } else {
      MixedDiffer(a, b);
    }
  }

  lemma MixedDiffer(a: Value, b: Value)
    requires ScalarLeaves(a) && ScalarLeaves(b) && (Leaf(a) || Leaf(b) || a.Document? != b.Document?)
    requires !(Leaf(a) && Leaf(b))
    ensures !Equal(a, b)
  {
    hide CompareElems, CompareItems;
  }

  lemma {:induction false} SameElemsEqual(es: seq<Elem>, fs: seq<Elem>)
    requires ScalarElems(es) && ScalarElems(fs)
    ensures SameElems(es, fs) <==> CompareElems(es, fs) == 0 && !ExceptionalElems(es, fs)
    decreases es, 0
  {
    hide Compare;
    if es != [] && fs != [] {
      SameIsEqual(es[0].value, fs[0].value);
      SameElemsEqual(es[1..], fs[1..]);
      BytesFit(es[0].key, fs[0].key, []);
    }
  }

  lemma {:induction false} SameItemsEqual(xs: seq<Value>, ys: seq<Value>)
    requires ScalarItems(xs) && ScalarItems(ys)
    ensures SameItems(xs, ys) <==> CompareItems(xs, ys) == 0 && !ExceptionalItems(xs, ys)
    decreases xs, 0
  {
    hide Compare;
    if xs != [] && ys != [] {
      SameIsEqual(xs[0], ys[0]);
      SameItemsEqual(xs[1..], ys[1..]);
    }
  }

  /**
   Two values of any nesting, with scalar leaves and no delimiters in them, share a grouping key
   exactly when they are equal and no pair of leaves is exceptional.
   */
  lemma NestedKeyIffEqual(a: Value, b: Value)
    requires Tidy(a) && Tidy(b) && ScalarLeaves(a) && ScalarLeaves(b)
    ensures WriteKey(a) == WriteKey(b) <==> Equal(a, b) && !ExceptionalWithin(a, b)
  {
    hide *;
    TidyKeys(a, b);
    SameIsEqual(a, b);
  }

  function Text(name: byte, s: Bytes): Elem { Elem([name], String(s)) }

  lemma TextWrites(name: byte, s: Bytes, rest: seq<Elem>)
    ensures WriteElems([Text(name, s)] + rest) == [name, EQUALS, 0x53] + s + [COMMA] + WriteElems(rest)
  {
    assert ([Text(name, s)] + rest)[1..] == rest;
    assert WriteKey(String(s)) == [0x53] + s;
  }

  /** Without that, different documents share a key: `{a: "x,b=Sy"}` and `{a: "x", b: "y"}`. */
  lemma UnescapedCollide()
    ensures var a := Document([Text(0x61, [0x78, COMMA, 0x62, EQUALS, 0x53, 0x79])]);
            var b := Document([Text(0x61, [0x78]), Text(0x62, [0x79])]);
            WriteKey(a) == WriteKey(b) && !Equal(a, b)
  {
    var long := [0x78, COMMA, 0x62, EQUALS, 0x53, 0x79];
    var es, fs := [Text(0x61, long)], [Text(0x61, [0x78]), Text(0x62, [0x79])];
    hide WriteElems;
    TextWrites(0x61, long, []);
    TextWrites(0x61, [0x78], [Text(0x62, [0x79])]);
    TextWrites(0x62, [0x79], []);
    assert es == [Text(0x61, long)] + [] && fs == [Text(0x61, [0x78])] + [Text(0x62, [0x79])];
    assert [Text(0x62, [0x79])] + [] == [Text(0x62, [0x79])];
    assert WriteElems(es) == [0x61, EQUALS, 0x53] + long + [COMMA] + WriteElems([]);
    assert WriteElems(fs) == WriteElems(es);
    DocumentsDiffer(es, fs);
  }

  lemma DocumentsDiffer(es: seq<Elem>, fs: seq<Elem>)
    requires |es| == 1 && |fs| == 2
    ensures !Equal(Document(es), Document(fs))
  {
    hide CmpBytes;
    assert CompareElems(es[1..], fs[1..]) == -1;
    assert CompareElems(es, fs) != 0;
    assert Rank(Document(es)) == Rank(Document(fs));
  }
}
