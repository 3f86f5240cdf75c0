/**
 The equality join by hash: foreign documents are bucketed by canonical key and probed, in
 place of comparing every pair. Exactly when two values' keys agree is worked out for all
 scalars, and with it exactly which documents the hash join returns.
 */
module HashJoin {
  import opened Common
  import opened Bits
  import opened Float64
  import opened Bson
  import opened BsonCodec
  import opened GroupKey
  import opened GraphLookup

  // ---- numerals -----------------------------------------------------------------------

  lemma {:induction false} ItoaInjective(a: nat, b: nat)
    requires Itoa(a) == Itoa(b)
    ensures a == b
  {
    ItoaLength(a);
    ItoaLength(b);
    if a >= 10 && b >= 10 {
      var s, t := Itoa(a), Itoa(b);
      assert s[..|s| - 1] == Itoa(a / 10) && t[..|t| - 1] == Itoa(b / 10);
      assert s[|s| - 1] == 0x30 + a % 10 && t[|t| - 1] == 0x30 + b % 10;
      ItoaInjective(a / 10, b / 10);
    }
  }

  lemma ItoaLength(n: nat)
    ensures |Itoa(n)| >= 1 && (n >= 10 <==> |Itoa(n)| > 1) && 0x30 <= Itoa(n)[0] <= 0x39
  {
    if n >= 10 { ItoaLength(n / 10); }
  }

  lemma FormatIntInjective(a: int, b: int)
    requires FormatInt(a) == FormatInt(b)
    ensures a == b
  {
    var s, t := FormatInt(a), FormatInt(b);
    if a >= 0 { ItoaLength(a); } else { ItoaLength(-a); }
    if b >= 0 { ItoaLength(b); } else { ItoaLength(-b); }
    assert s[0] == t[0];
    if a < 0 {
      assert s[1..] == Itoa(-a) && t[1..] == Itoa(-b);
      ItoaInjective(-a, -b);
    } else {
      ItoaInjective(a, b);
    }
  }

  lemma {:induction false} FormatHexInjective(a: nat, b: nat)
    requires FormatHex(a) == FormatHex(b)
    ensures a == b
  {
    HexLength(a);
    HexLength(b);
    if a >= 16 && b >= 16 {
      var s, t := FormatHex(a), FormatHex(b);
      assert s[..|s| - 1] == FormatHex(a / 16) && t[..|t| - 1] == FormatHex(b / 16);
      assert s[|s| - 1] == HexDigit(a % 16) && t[|t| - 1] == HexDigit(b % 16);
      FormatHexInjective(a / 16, b / 16);
    } else {
      assert FormatHex(a)[0] == FormatHex(b)[0];
    }
  }

  lemma HexLength(n: nat)
    ensures |FormatHex(n)| >= 1 && (n >= 16 <==> |FormatHex(n)| > 1)
  {
    if n >= 16 { HexLength(n / 16); }
  }

  // ---- keys against equality ------------------------------------------------------------

  /** The value types joins are promised for. */
  predicate Scalar(v: Value) {
    match v
    case Null => true case Undefined => true case Boolean(_) => true case String(_) => true
    case ObjectId(_) => true
    case DateTime(t) => IsI64(t)
    case Int32(_) => true case Int64(_) => true
    case Double(bits) => IsU64(bits)
    case _ => false
  }

  /** An integer and a double of the same value beyond the range written as an integer. */
  predicate FarInteger(a: Value, b: Value) {
    IsInt(a) && b.Double? && ToF64(b.bits) == Fin(a.i as real) && (a.i < -INTEGRAL_LIMIT || a.i > INTEGRAL_LIMIT)
  }

  /** Equal values whose keys differ: NaNs of different bits, and far integers. */
  predicate Exceptional(a: Value, b: Value) {
    || (IsNaN(a) && IsNaN(b) && a.bits != b.bits)
    || FarInteger(a, b) || FarInteger(b, a)
  }

  predicate IsNumber(v: Value) { IsInt(v) || v.Double? }

  /** A number's key: its integer value when near and integral, else a double's bits. */
  datatype NumKey = IntKey(i: int) | BitsKey(bits: int)

  function NumKeyOf(v: Value): NumKey
    requires IsNumber(v)
  {
    if IsInt(v) then IntKey(v.i)
    else match Integral(ToF64(v.bits)) case Some(i) => IntKey(i) case None => BitsKey(U64(v.bits))
  }

  lemma NumKeysAgree(a: Value, b: Value)
    requires IsNumber(a) && IsNumber(b)
    ensures WriteKey(a) == WriteKey(b) <==> NumKeyOf(a) == NumKeyOf(b)
  {
    hide ToF64, Integral;
    var s, t, x, y := WriteKey(a), WriteKey(b), NumKeyOf(a), NumKeyOf(b);
    assert s == match x case IntKey(i) => [0x49] + FormatInt(i) case BitsKey(u) => [0x46] + FormatHex(u);
    assert t == match y case IntKey(i) => [0x49] + FormatInt(i) case BitsKey(u) => [0x46] + FormatHex(u);
    if s == t {
      assert s[0] == t[0] && s[1..] == t[1..];
      if x.IntKey? { FormatIntInjective(x.i, y.i); } else { FormatHexInjective(x.bits, y.bits); }
    }
  }

  lemma NumbersEqualIff(a: Value, b: Value)
    requires IsNumber(a) && IsNumber(b) && Scalar(a) && Scalar(b)
    ensures NumKeyOf(a) == NumKeyOf(b) <==> CmpExact(Exact(a), Exact(b)) == 0 && !Exceptional(a, b)
  {
    hide ToF64;
    if a.Double? && b.Double? && ToF64(a.bits) == ToF64(b.bits) && !ToF64(a.bits).NaN? && ToF64(a.bits) != Fin(0.0) {
      BitsDetermined(a.bits, b.bits);
    }
    FloorOf(a);
    FloorOf(b);
  }

  lemma FloorOf(v: Value)
    ensures IsInt(v) ==> (v.i as real).Floor == v.i
  {}

  lemma StringKeysAgree(s: Bytes, t: Bytes)
    ensures WriteKey(String(s)) == WriteKey(String(t)) <==> CmpBytes(s, t) == 0
  {
    hide CmpBytes;
    BytesFit(s, t, s);
    assert WriteKey(String(s))[1..] == s && WriteKey(String(t))[1..] == t;
  }

  lemma IdKeysAgree(s: Bytes, t: Bytes)
    ensures WriteKey(ObjectId(s)) == WriteKey(ObjectId(t)) <==> CmpBytes(s, t) == 0
  {
    hide CmpBytes;
    BytesFit(s, t, s);
    assert WriteKey(ObjectId(s))[2..] == s && WriteKey(ObjectId(t))[2..] == t;
  }

  lemma DateKeysAgree(s: int, t: int)
    requires IsI64(s) && IsI64(t)
    ensures WriteKey(DateTime(s)) == WriteKey(DateTime(t)) <==> s == t
  {
    hide LittleEndian, ReadLittleEndian, U64, I64;
    assert WriteKey(DateTime(s))[2..] == LittleEndian(U64(s), 8)
        && WriteKey(DateTime(t))[2..] == LittleEndian(U64(t), 8);
    FixedReads(U64(s), 8);
    FixedReads(U64(t), 8);
    I64Undoes(s);
    I64Undoes(t);
  }

  lemma TokenKeysAgree(a: Value, b: Value)
    requires Rank(a) == Rank(b) && (a.Null? || a.Undefined? || a.Boolean?)
    ensures WriteKey(a) == WriteKey(b) <==> CompareFlat(a, b) == 0
  {}

  lemma TextKeysAgree(a: Value, b: Value)
    requires Scalar(a) && Scalar(b) && !IsNumber(a) && Rank(a) == Rank(b)
    ensures WriteKey(a) == WriteKey(b) <==> Compare(a, b) == 0
  {
    SameRankIs(a, b);
    SameShape(a, b);
    hide Compare, WriteKey, CmpBytes;
    if a.String? { StringKeysAgree(a.s, b.s); }
    else if a.ObjectId? { IdKeysAgree(a.oid, b.oid); }
    else if a.DateTime? { DateKeysAgree(a.t, b.t); }
    else { TokenKeysAgree(a, b); }
  }

  /** Scalars of one rank, numbers apart, are of one type, nulls apart. */
  lemma SameShape(a: Value, b: Value)
    requires Scalar(a) && Scalar(b) && !IsNumber(a) && Rank(a) == Rank(b)
    ensures (a.String? <==> b.String?) && (a.ObjectId? <==> b.ObjectId?) && (a.DateTime? <==> b.DateTime?)
    ensures a.String? || a.ObjectId? || a.DateTime? || a.Null? || a.Undefined? || a.Boolean?
    ensures a.String? ==> CompareFlat(a, b) == CmpBytes(a.s, b.s)
    ensures a.ObjectId? ==> CompareFlat(a, b) == CmpBytes(a.oid, b.oid)
    ensures a.DateTime? ==> IsI64(a.t) && IsI64(b.t) && (CompareFlat(a, b) == 0 <==> a.t == b.t)
  {
    hide CmpBytes;
  }

  /** Keys of different type ranks never coincide. */
  lemma RanksSeparate(a: Value, b: Value)
    requires Scalar(a) && Scalar(b) && Rank(a) != Rank(b)
    ensures WriteKey(a) != WriteKey(b)
  {
    hide ToF64, Integral, FormatInt, FormatHex, Payload;
    assert WriteKey(a)[0] == Tag(a) && WriteKey(b)[0] == Tag(b);
    if Tag(a) == 0x52 && Tag(b) == 0x52 { assert WriteKey(a)[1] == TypeByte(a) && WriteKey(b)[1] == TypeByte(b); }
  }

  function Tag(v: Value): byte {
    match v
    case Null => 0x5A case Undefined => 0x5A
    case Boolean(_) => 0x42 case String(_) => 0x53
    case Int32(_) => 0x49 case Int64(_) => 0x49
    case Double(bits) => if Integral(ToF64(bits)).Some? then 0x49 else 0x46
    case _ => 0x52
  }

  /** Two scalars share a key exactly when they are equal and not one of the exceptional pairs. */
  lemma KeyIffEqual(a: Value, b: Value)
    requires Scalar(a) && Scalar(b)
    ensures WriteKey(a) == WriteKey(b) <==> Equal(a, b) && !Exceptional(a, b)
  {
    hide WriteKey, CmpBytes, CompareNumbers, Exceptional;
    if Rank(a) != Rank(b) {
      RanksSeparate(a, b);
    } else if IsNumber(a) {
      NumKeysAgree(a, b);
      NumbersEqualIff(a, b);
      NumbersExact(a, b);
    } else {
      TextKeysAgree(a, b);
      NotExceptional(a, b);
    }
  }

  lemma NotExceptional(a: Value, b: Value)
    requires !IsNumber(a)
    ensures !Exceptional(a, b)
  {}

  // ---- the index and the probe --------------------------------------------------------------

  type Index = map<Bytes, seq<nat>>

  /** Some value of `v` has this key. */
  predicate Carries(v: Value, k: Bytes) {
    exists j :: 0 <= j < |JoinCandidates(v)| && WriteKey(JoinCandidates(v)[j]) == k
  }

  ghost predicate Ascending(s: seq<nat>) { forall i, j :: 0 <= i < j < |s| ==> s[i] < s[j] }

  function Postings(idx: Index, k: Bytes): seq<nat> { if k in idx then idx[k] else [] }

  /** Each key's postings are exactly the documents below `n` that carry it, in order. */
  ghost predicate IndexOk(idx: Index, fvs: seq<Value>, n: nat)
    requires n <= |fvs|
  {
    forall k :: PostingsOk(Postings(idx, k), fvs, n, k)
  }

  ghost predicate PostingsOk(ps: seq<nat>, fvs: seq<Value>, n: nat, k: Bytes)
    requires n <= |fvs|
  {
    && Ascending(ps)
    && (forall i: nat :: i in ps <==> i < n && Carries(fvs[i], k))
  }

  /** Document `n` is posted under the first `c` of its values. */
  ghost predicate PartlyOk(ps: seq<nat>, fvs: seq<Value>, n: nat, c: nat, k: Bytes)
    requires n < |fvs| && c <= |JoinCandidates(fvs[n])|
  {
    && Ascending(ps)
    && (forall i: nat :: i in ps <==> (i < n && Carries(fvs[i], k))
                                      || (i == n && exists j :: 0 <= j < c && WriteKey(JoinCandidates(fvs[n])[j]) == k))
  }

  ghost predicate IndexPartly(idx: Index, fvs: seq<Value>, n: nat, c: nat)
    requires n < |fvs| && c <= |JoinCandidates(fvs[n])|
  {
    forall k :: PartlyOk(Postings(idx, k), fvs, n, c, k)
  }

  lemma StartDoc(idx: Index, fvs: seq<Value>, n: nat)
    requires n < |fvs| && IndexOk(idx, fvs, n)
    ensures IndexPartly(idx, fvs, n, 0)
  {
    hide Carries, JoinCandidates, WriteKey;
    forall k ensures PartlyOk(Postings(idx, k), fvs, n, 0, k) { assert PostingsOk(Postings(idx, k), fvs, n, k); }
  }

  lemma EndDoc(idx: Index, fvs: seq<Value>, n: nat)
    requires n < |fvs| && IndexPartly(idx, fvs, n, |JoinCandidates(fvs[n])|)
    ensures IndexOk(idx, fvs, n + 1)
  {
    hide JoinCandidates, WriteKey;
    forall k ensures PostingsOk(Postings(idx, k), fvs, n + 1, k) {
      assert PartlyOk(Postings(idx, k), fvs, n, |JoinCandidates(fvs[n])|, k);
    }
  }

  /** Only the last posting can be the document in hand, which is what the repeat check looks at. */
  lemma LastPosting(ps: seq<nat>, fvs: seq<Value>, n: nat, c: nat, k: Bytes)
    requires n < |fvs| && c <= |JoinCandidates(fvs[n])| && PartlyOk(ps, fvs, n, c, k)
    ensures n in ps <==> ps != [] && ps[|ps| - 1] == n
    ensures forall i :: 0 <= i < |ps| ==> ps[i] <= n
  {
    hide Carries, JoinCandidates, WriteKey;
    forall i | 0 <= i < |ps| ensures ps[i] <= n { assert ps[i] in ps; }
  }

  lemma PostOne(ps: seq<nat>, fvs: seq<Value>, n: nat, c: nat, k: Bytes, ps': seq<nat>)
    requires n < |fvs| && c < |JoinCandidates(fvs[n])| && PartlyOk(ps, fvs, n, c, k)
    requires ps' == if WriteKey(JoinCandidates(fvs[n])[c]) == k && n !in ps then ps + [n] else ps
    ensures PartlyOk(ps', fvs, n, c + 1, k)
  {
    hide Carries, JoinCandidates, WriteKey;
    LastPosting(ps, fvs, n, c, k);
  }

  /** Hash every foreign document under each of its values, once per key. */
  method BuildForeignIndex(fvs: seq<Value>) returns (idx: Index)
    ensures IndexOk(idx, fvs, |fvs|)
  {
    hide PartlyOk, PostingsOk, JoinCandidates, WriteKey;
    idx := map[];
    EmptyIndex(fvs);
    for i := 0 to |fvs|
      invariant IndexOk(idx, fvs, i)
    {
      StartDoc(idx, fvs, i);
      var cs := JoinCandidates(fvs[i]);
      for c := 0 to |cs|
        invariant IndexPartly(idx, fvs, i, c)
      {
        var k := WriteKey(cs[c]);
        var ps := Postings(idx, k);
        ghost var idx0 := idx;
        assert PartlyOk(ps, fvs, i, c, k);
        LastPosting(ps, fvs, i, c, k);
        if !(|ps| > 0 && ps[|ps| - 1] == i) { idx := idx[k := ps + [i]]; }
        forall x ensures PartlyOk(Postings(idx, x), fvs, i, c + 1, x) {
          assert PartlyOk(Postings(idx0, x), fvs, i, c, x);
          PostOne(Postings(idx0, x), fvs, i, c, x, Postings(idx, x));
        }
      }
      EndDoc(idx, fvs, i);
    }
  }

  lemma EmptyIndex(fvs: seq<Value>)
    ensures IndexOk(map[], fvs, 0)
  {}

  /** The documents whose field shares a key with the local value, in foreign order. */
  function Meeting(local: Value, fvs: seq<Value>): seq<nat> {
    if fvs == [] then []
    else
      Meeting(local, fvs[..|fvs| - 1])
      + if Met(local, fvs[|fvs| - 1]) then [|fvs| - 1] else []
  }

  /** Probe with each local value, then list the matched documents in order without repeats. */
  method EqualityMatches(idx: Index, fvs: seq<Value>, local: Value) returns (out: seq<nat>)
    requires IndexOk(idx, fvs, |fvs|)
    ensures out == Meeting(local, fvs)
  {
    hide JoinCandidates, WriteKey, Carries;
    var matched: set<nat> := {};
    var want := JoinCandidates(local);
    for a := 0 to |want|
      invariant forall i: nat :: i in matched <==> i < |fvs|
                                                   && exists x :: 0 <= x < a && Carries(fvs[i], WriteKey(want[x]))
    {
      var ps := Postings(idx, WriteKey(want[a]));
      assert PostingsOk(ps, fvs, |fvs|, WriteKey(want[a]));
      matched := matched + set i | i in ps;
    }
    out := [];
    for i := 0 to |fvs|
      invariant out == Meeting(local, fvs[..i])
    {
      assert fvs[..i + 1][..i] == fvs[..i] && fvs[..i + 1][i] == fvs[i];
      if i in matched { out := out + [i]; }
    }
    assert fvs[..|fvs|] == fvs;
  }

  // ---- against the nested loop -----------------------------------------------------------------

  /** The scan the index replaces: every foreign document whose value overlaps the local one. */
  function NestedLoop(local: Value, fvs: seq<Value>): seq<nat> {
    if fvs == [] then []
    else NestedLoop(local, fvs[..|fvs| - 1]) + if JoinOverlaps(JoinCandidates(local), fvs[|fvs| - 1]) then [|fvs| - 1]
        else []
  }

  ghost predicate Scalars(v: Value) {
    forall i :: 0 <= i < |JoinCandidates(v)| ==> Scalar(JoinCandidates(v)[i])
  }

  /** The probe finds this document. */
  predicate Met(local: Value, fv: Value) {
    exists i :: 0 <= i < |JoinCandidates(local)| && Carries(fv, WriteKey(JoinCandidates(local)[i]))
  }

  /** Some values of the two fields are equal and share a key. */
  predicate PlainlyEqual(a: Value, b: Value) {
    exists i, j :: 0 <= i < |JoinCandidates(a)| && 0 <= j < |JoinCandidates(b)|
      && Equal(JoinCandidates(a)[i], JoinCandidates(b)[j]) && !Exceptional(JoinCandidates(a)[i], JoinCandidates(b)[j])
  }

  lemma MetIsEqual(local: Value, fv: Value)
    requires Scalars(local) && Scalars(fv) && Met(local, fv)
    ensures PlainlyEqual(local, fv)
  {
    hide JoinCandidates, WriteKey, Scalar, Exceptional, Equal;
    var xs, ys := JoinCandidates(local), JoinCandidates(fv);
    var i :| 0 <= i < |xs| && Carries(fv, WriteKey(xs[i]));
    var j :| 0 <= j < |ys| && WriteKey(ys[j]) == WriteKey(xs[i]);
    KeyIffEqual(xs[i], ys[j]);
  }

  lemma EqualIsMet(local: Value, fv: Value)
    requires Scalars(local) && Scalars(fv) && PlainlyEqual(local, fv)
    ensures Met(local, fv)
  {
    hide JoinCandidates, WriteKey, Scalar, Exceptional, Equal;
    var xs, ys := JoinCandidates(local), JoinCandidates(fv);
    var i, j :| 0 <= i < |xs| && 0 <= j < |ys| && Equal(xs[i], ys[j]) && !Exceptional(xs[i], ys[j]);
    KeyIffEqual(xs[i], ys[j]);
    assert Carries(fv, WriteKey(xs[i]));
  }

  lemma PlainlyOverlaps(a: Value, b: Value)
    requires PlainlyEqual(a, b)
    ensures JoinOverlaps(JoinCandidates(a), b)
  {
    hide JoinCandidates, Exceptional, Equal;
  }

  /**
   The hash join returns what the nested loop does, in the same order, exactly when every overlap has
   a pair that is not exceptional.
   */
  lemma {:induction false} JoinIsNestedLoop(local: Value, fvs: seq<Value>)
    requires Scalars(local) && forall i :: 0 <= i < |fvs| ==> Scalars(fvs[i])
    ensures Meeting(local, fvs) == NestedLoop(local, fvs)
            <==> forall i :: 0 <= i < |fvs| && JoinOverlaps(JoinCandidates(local), fvs[i])
                             ==> PlainlyEqual(local, fvs[i])
    ensures forall i :: i in Meeting(local, fvs) ==> i in NestedLoop(local, fvs)
    ensures Below(Meeting(local, fvs), |fvs|) && Below(NestedLoop(local, fvs), |fvs|)
    decreases |fvs|
  {
    hide Scalars, PlainlyEqual, JoinOverlaps, Carries, JoinCandidates, WriteKey;
    if fvs != [] {
      var head, fv := fvs[..|fvs| - 1], fvs[|fvs| - 1];
      JoinIsNestedLoop(local, head);
      if Met(local, fv) {
        MetIsEqual(local, fv);
        PlainlyOverlaps(local, fv);
      } else if JoinOverlaps(JoinCandidates(local), fv) {
        if PlainlyEqual(local, fv) { EqualIsMet(local, fv); }
        assert |fvs| - 1 in NestedLoop(local, fvs) && |fvs| - 1 !in Meeting(local, fvs);
      }
      LastTells(local, fvs);
      forall i | 0 <= i < |head| ensures head[i] == fvs[i] {}
    }
  }

  ghost predicate Below(s: seq<nat>, n: nat) { forall i :: 0 <= i < |s| ==> s[i] < n }

  /**
   The lists for a longer input agree exactly when those for the shorter one do and the last document
   is in both or neither.
   */
  lemma LastTells(local: Value, fvs: seq<Value>)
    requires fvs != []
    requires Below(Meeting(local, fvs[..|fvs| - 1]), |fvs| - 1) && Below(NestedLoop(local, fvs[..|fvs| - 1]), |fvs| - 1)
    ensures Meeting(local, fvs) == NestedLoop(local, fvs) <==>
              Meeting(local, fvs[..|fvs| - 1]) == NestedLoop(local, fvs[..|fvs| - 1])
                  && (Met(local, fvs[|fvs| - 1]) <==> JoinOverlaps(JoinCandidates(local), fvs[|fvs| - 1]))
  {
    hide Met, JoinOverlaps, Below;
    AppendTells(Meeting(local, fvs[..|fvs| - 1]), NestedLoop(local, fvs[..|fvs| - 1]), |fvs| - 1,
        Met(local, fvs[|fvs| - 1]),
                JoinOverlaps(JoinCandidates(local), fvs[|fvs| - 1]));
  }

  lemma AppendTells(m: seq<nat>, n: seq<nat>, x: nat, a: bool, b: bool)
    requires Below(m, x) && Below(n, x)
    ensures m + (if a then [x] else []) == n + (if b then [x] else []) <==> m == n && a == b
  {
    var s, t := m + (if a then [x] else []), n + (if b then [x] else []);
    if s == t && a == b {
      assert s[..|m|] == m && t[..|n|] == n;
    }
    assert a ==> s[|s| - 1] == x;
    assert b ==> t[|t| - 1] == x;
  }

  const FAR := 9223372036854774784             // 2^63 - 1024
  const FAR_BITS := 0x43DF_FFFF_FFFF_FFFF       // the same number as a double

  lemma FarBits()
    ensures ToF64(FAR_BITS) == Fin(FAR as real)
  {
    assert Exponent(FAR_BITS) == 1085 && Fraction(FAR_BITS) == MANTISSA - 1;
    assert RealPow2(4) == 16.0;
    assert RealPow2(7) == 128.0;
    assert RealPow2(10) == 1024.0;
  }

  /** 2^63 - 1024 as an int64 and as a double are equal, yet the hash join misses the pair. */
  lemma FarIntegerMissed()
    ensures NestedLoop(Int64(FAR), [Double(FAR_BITS)]) == [0] && Meeting(Int64(FAR), [Double(FAR_BITS)]) == []
  {
    hide ToF64, CmpBytes, WriteKey, Carries;
    var a, b := Int64(FAR), Double(FAR_BITS);
    FarBits();
    NumbersExact(a, b);
    var fvs := [b];
    assert fvs[..0] == [];
    assert NestedLoop(a, []) == [] && Meeting(a, []) == [];
    assert Equal(JoinCandidates(a)[0], JoinCandidates(b)[0]);
    if Met(a, b) { MetIsEqual(a, b); }
  }
}
