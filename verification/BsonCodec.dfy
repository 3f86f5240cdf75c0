/**
 The BSON wire form: how the builder frames elements, how the reader walks them back, and
 the proof that reading undoes building at every nesting level.
 */
module BsonCodec {
  import opened Common
  import opened Bits
  import opened Bson

  type Bytes = seq<byte>

  const MIN_DOC_LEN := 5
  const TWO32 := 0x1_0000_0000

  /** A value as stored: its type byte and payload. */
  datatype RawValue = RawValue(t: byte, data: Bytes)

  datatype Element = Element(key: Bytes, value: RawValue)

  datatype Error = TooShort | LengthMismatch | Malformed
  datatype Result<T> = Ok(value: T) | Err(error: Error)

  function Uint32(b: Bytes): nat
    requires |b| >= 4
  {
    ReadLittleEndian(b[..4])
  }

  /** Position of the first NUL at or after `off`, or -1. */
  function CstrEnd(b: Bytes, off: nat): (i: int)
    ensures i == -1 || (off <= i < |b| && b[i] == 0)
    decreases |b| - off
  {
    if off >= |b| then -1 else if b[off] == 0 then off else CstrEnd(b, off + 1)
  }

  function Need(b: Bytes, n: nat): Option<nat> { if |b| < n then None else Some(n) }

  /** Payload size of a value of type `t` at the start of `b`. */
  function ScanValue(b: Bytes, t: byte): (n: Option<nat>)
    ensures n.Some? ==> n.value <= |b|
  {
    if t in {0x01, 0x09, 0x11, 0x12} then Need(b, 8)
    else if t == 0x10 then Need(b, 4)
    else if t == 0x07 then Need(b, 12)
    else if t == 0x08 then Need(b, 1)
    else if t == 0x13 then Need(b, 16)
    else if t in {0x0A, 0x06, 0xFF, 0x7F} then Some(0)
    else if t in {0x02, 0x0D, 0x0E} then
      if |b| < 4 then None
      else var n := Uint32(b); if n < 1 || 4 + n > |b| || b[4 + n - 1] != 0 then None else Some(4 + n)
    else if t in {0x03, 0x04} then
      if |b| < 4 then None
      else var n := Uint32(b); if n < MIN_DOC_LEN || n > |b| || b[n - 1] != 0 then None else Some(n)
    else if t == 0x05 then
      if |b| < 5 then None
      else var n := Uint32(b); if 5 + n > |b| then None else Some(5 + n)
    else if t == 0x0B then
      var i := CstrEnd(b, 0);
      if i < 0 then None
      else var j := CstrEnd(b, i + 1); if j < 0 then None else Some(j + 1)
    else if t == 0x0C then
      if |b| < 4 then None
      else var n := Uint32(b); if n < 1 || 4 + n + 12 > |b| then None else Some(4 + n + 12)
    else if t == 0x0F then
      if |b| < 4 then None
      else var n := Uint32(b); if n < 4 || n > |b| then None else Some(n)
    else None
  }

  // ---- elements -------------------------------------------------------------------------

  /** The element at the start of `b` and the bytes it takes. */
  function ReadElem(b: Bytes): (r: Option<(Element, nat)>)
    requires b != []
    ensures r.Some? ==> 0 < r.value.1 <= |b| && |r.value.0.value.data| < |b|
  {
    var ke := CstrEnd(b, 1);
    if ke < 0 then None
    else match ScanValue(b[ke + 1..], b[0])
      case None => None
      case Some(n) => Some((Element(b[1..ke], RawValue(b[0], b[ke + 1..ke + 1 + n])), ke + 1 + n))
  }

  /** The elements up to the terminator, which must be the last byte. */
  function Walk(b: Bytes): Result<seq<Element>>
    decreases |b|
  {
    if b == [] then Err(Malformed)
    else if b[0] == 0 then (if |b| == 1 then Ok([]) else Err(Malformed))
    else match ReadElem(b)
      case None => Err(Malformed)
      case Some((e, n)) =>
        match Walk(b[n..])
        case Err(err) => Err(err)
        case Ok(rest) => Ok([e] + rest)
  }

  /** All elements of a document in stored order. */
  function Elements(r: Bytes): Result<seq<Element>> {
    if |r| < MIN_DOC_LEN then Err(TooShort)
    else if Uint32(r) != |r| then Err(LengthMismatch)
    else Walk(r[4..])
  }

  function LookupFrom(b: Bytes, key: Bytes): Option<RawValue>
    decreases |b|
  {
    if b == [] || b[0] == 0 then None
    else match ReadElem(b)
      case None => None
      case Some((e, n)) => if e.key == key then Some(e.value) else LookupFrom(b[n..], key)
  }

  /** The first value under `key`. */
  function Lookup(r: Bytes, key: Bytes): Option<RawValue> {
    if |r| < MIN_DOC_LEN || Uint32(r) != |r| then None else LookupFrom(r[4..], key)
  }

  /** The walk as the reader's loop performs it. */
  method ElementsLoop(r: Bytes) returns (res: Result<seq<Element>>)
    ensures res == Elements(r)
  {
    hide ReadElem;
    if |r| < MIN_DOC_LEN { return Err(TooShort); }
    if Uint32(r) != |r| { return Err(LengthMismatch); }
    var out: seq<Element>, off := [], 4;
    PrefixedNone(Walk(r[4..]));
    while true
      invariant off <= |r|
      invariant Elements(r) == Prefixed(out, Walk(r[off..]))
      decreases |r| - off
    {
      if off >= |r| { return Err(Malformed); }
      assert r[off..][0] == r[off];
      if r[off] == 0 {
        assert out + [] == out;
        return if off != |r| - 1 then Err(Malformed) else Ok(out);
      }
      var read := ReadElem(r[off..]);
      if read.None? { return Err(Malformed); }
      var (e, n) := read.value;
      assert r[off..][n..] == r[off + n..];
      PrefixedStep(out, e, Walk(r[off + n..]));
      out, off := out + [e], off + n;
    }
  }

  function Prefixed(out: seq<Element>, r: Result<seq<Element>>): Result<seq<Element>> {
    match r case Err(e) => Err(e) case Ok(rest) => Ok(out + rest)
  }

  lemma PrefixedNone(r: Result<seq<Element>>)
    ensures Prefixed([], r) == r
  {
    if r.Ok? { assert [] + r.value == r.value; }
  }

  lemma PrefixedStep(out: seq<Element>, e: Element, r: Result<seq<Element>>)
    ensures Prefixed(out + [e], r) == Prefixed(out, Prefixed([e], r))
  {
    if r.Ok? { assert out + ([e] + r.value) == (out + [e]) + r.value; }
  }

  method LookupLoop(r: Bytes, key: Bytes) returns (v: Option<RawValue>)
    ensures v == Lookup(r, key)
  {
    hide ReadElem;
    if |r| < MIN_DOC_LEN || Uint32(r) != |r| { return None; }
    var off := 4;
    while off < |r|
      invariant off <= |r| && Lookup(r, key) == LookupFrom(r[off..], key)
      decreases |r| - off
    {
      assert r[off..][0] == r[off];
      if r[off] == 0 { return None; }
      var read := ReadElem(r[off..]);
      if read.None? { return None; }
      var (e, n) := read.value;
      if e.key == key { return Some(e.value); }
      assert r[off..][n..] == r[off + n..];
      off := off + n;
    }
    return None;
  }

  // ---- building --------------------------------------------------------------------------

  function ElemBytes(e: Element): Bytes { [e.value.t] + e.key + [0] + e.value.data }

  function Body(es: seq<Element>): Bytes {
    if es == [] then [] else ElemBytes(es[0]) + Body(es[1..])
  }

  /** Length prefix, body, terminator. The prefix keeps only 32 bits of the length. */
  function Frame(body: Bytes): (r: Bytes)
    ensures |r| == |body| + 5
  {
    LittleEndian((|body| + 5) % TWO32, 4) + body + [0]
  }

  lemma {:induction false} BodySnoc(es: seq<Element>, e: Element)
    ensures Body(es + [e]) == Body(es) + ElemBytes(e)
  {
    if es == [] {
      assert es + [e] == [e];
      assert Body([e]) == ElemBytes(e) + Body([]);
    } else {
      assert (es + [e])[1..] == es[1..] + [e];
      BodySnoc(es[1..], e);
    }
  }

  /** The document builder. */
  class Builder {
    var body: Bytes
    ghost var elements: seq<Element>

    ghost predicate Valid()
      reads this
    {
      body == Body(elements)
    }

    constructor ()
      ensures Valid() && elements == []
    {
      body, elements := [], [];
    }

    method Reset()
      modifies this
      ensures Valid() && elements == []
    {
      body, elements := [], [];
    }

    method AppendValue(key: Bytes, v: RawValue)
      requires Valid()
      modifies this
      ensures Valid() && elements == old(elements) + [Element(key, v)]
    {
      BodySnoc(elements, Element(key, v));
      body := body + [v.t];
      body := body + key;
      body := body + [0];
      body := body + v.data;
      elements := elements + [Element(key, v)];
    }

    method Build() returns (r: Bytes)
      requires Valid()
      ensures r == Frame(Body(elements))
    {
      r := LittleEndian((4 + |body| + 1) % TWO32, 4) + body + [0];
    }
  }

  // ---- what can be read back -------------------------------------------------------------

  predicate NulFree(s: Bytes) { 0 !in s }

  /** The payload is exactly as long as its type says. */
  predicate Sized(v: RawValue) { ScanValue(v.data, v.t) == Some(|v.data|) }

  ghost predicate Readable(es: seq<Element>) {
    forall i :: 0 <= i < |es| ==> NulFree(es[i].key) && Sized(es[i].value)
  }

  lemma {:induction false} CstrEndIs(b: Bytes, off: nat, i: nat)
    requires off <= i < |b| && b[i] == 0 && forall j :: off <= j < i ==> b[j] != 0
    ensures CstrEnd(b, off) == i
    decreases i - off
  {
    if off < i { CstrEndIs(b, off + 1, i); }
  }

  lemma {:induction false} CstrEndFirst(b: Bytes, off: nat)
    requires CstrEnd(b, off) >= 0
    ensures forall j :: off <= j < CstrEnd(b, off) ==> b[j] != 0
    decreases |b| - off
  {
    if off < |b| && b[off] != 0 { CstrEndFirst(b, off + 1); }
  }

  lemma CstrEndStable(b: Bytes, rest: Bytes, off: nat)
    requires CstrEnd(b, off) >= 0
    ensures CstrEnd(b + rest, off) == CstrEnd(b, off)
  {
    CstrEndFirst(b, off);
    CstrEndIs(b + rest, off, CstrEnd(b, off));
  }

  /** What follows a payload never changes where it ends. */
  lemma ScanStable(v: RawValue, rest: Bytes)
    requires Sized(v)
    ensures ScanValue(v.data + rest, v.t) == Some(|v.data|)
  {
    if |v.data| >= 4 { assert (v.data + rest)[..4] == v.data[..4]; }
    if v.t == 0x0B {
      CstrEndStable(v.data, rest, 0);
      CstrEndStable(v.data, rest, CstrEnd(v.data, 0) + 1);
    }
  }

  /** One element is read back, whatever follows it. */
  lemma ReadElemBuilt(e: Element, tail: Bytes)
    requires NulFree(e.key) && Sized(e.value)
    ensures ReadElem(ElemBytes(e) + tail) == Some((e, |ElemBytes(e)|)) && (ElemBytes(e) + tail)[0] != 0
    ensures (ElemBytes(e) + tail)[|ElemBytes(e)|..] == tail
  {
    hide ScanValue;
    var b, k := ElemBytes(e) + tail, |e.key|;
    forall j | 1 <= j < 1 + k ensures b[j] != 0 { assert b[j] == e.key[j - 1]; }
    CstrEndIs(b, 1, 1 + k);
    assert b[1..1 + k] == e.key;
    assert b[k + 2..] == e.value.data + tail;
    ScanStable(e.value, tail);
    TypeNonZero(e.value);
  }

  lemma TypeNonZero(v: RawValue)
    requires Sized(v)
    ensures v.t != 0
  {}

  lemma {:induction false} WalkBuilt(es: seq<Element>)
    requires Readable(es)
    ensures Walk(Body(es) + [0]) == Ok(es)
    decreases |es|
  {
    hide ReadElem, Sized, ElemBytes;
    if es != [] {
      var tail := Body(es[1..]) + [0];
      assert Body(es) + [0] == ElemBytes(es[0]) + tail;
      ReadElemBuilt(es[0], tail);
      WalkBuilt(es[1..]);
      assert es == [es[0]] + es[1..];
    }
  }

  /** The first element keyed `key`. */
  function FirstKeyed(es: seq<Element>, key: Bytes): Option<RawValue> {
    if es == [] then None else if es[0].key == key then Some(es[0].value) else FirstKeyed(es[1..], key)
  }

  lemma {:induction false} LookupBuilt(es: seq<Element>, key: Bytes)
    requires Readable(es)
    ensures LookupFrom(Body(es) + [0], key) == FirstKeyed(es, key)
    decreases |es|
  {
    hide ReadElem, Sized, ElemBytes;
    if es != [] {
      var tail := Body(es[1..]) + [0];
      assert Body(es) + [0] == ElemBytes(es[0]) + tail;
      ReadElemBuilt(es[0], tail);
      LookupBuilt(es[1..], key);
    }
  }

  lemma FrameLength(body: Bytes)
    requires |body| + 5 < TWO32
    ensures Uint32(Frame(body)) == |Frame(body)| && Frame(body)[4..] == body + [0]
  {
    hide LittleEndian, ReadLittleEndian;
    Pow256Is();
    var n := |body| + 5;
    assert n % TWO32 == n;
    LittleEndianRoundTrip(n, 4);
    assert Frame(body)[..4] == LittleEndian(n, 4);
  }

  /** Reading a built document gives back its elements, and a lookup its first element with that key. */
  lemma BuildReadsBack(es: seq<Element>, key: Bytes)
    requires Readable(es) && |Body(es)| + 5 < TWO32
    ensures Elements(Frame(Body(es))) == Ok(es)
    ensures Lookup(Frame(Body(es)), key) == FirstKeyed(es, key)
  {
    hide Walk, LookupFrom, Body, Readable, Frame, Uint32;
    FrameLength(Body(es));
    WalkBuilt(es);
    LookupBuilt(es, key);
  }

  // ---- trees ---------------------------------------------------------------------------------

  function TypeByte(v: Value): byte {
    match v
    case Missing => 0x00 case Double(_) => 0x01 case String(_) => 0x02 case Document(_) => 0x03 case Array(_) => 0x04
    case Binary(_, _) => 0x05 case Undefined => 0x06 case ObjectId(_) => 0x07 case Boolean(_) => 0x08
    case DateTime(_) => 0x09
    case Null => 0x0A case Regex(_, _) => 0x0B case DBPointer(_) => 0x0C case JavaScript(_) => 0x0D
    case Symbol(_) => 0x0E
    case CodeWithScope(_) => 0x0F case Int32(_) => 0x10 case Timestamp(_) => 0x11 case Int64(_) => 0x12
    case Decimal128(_) => 0x13 case MinKey => 0xFF case MaxKey => 0x7F
  }

  function StringBytes(s: Bytes): Bytes { LittleEndian((|s| + 1) % TWO32, 4) + s + [0] }

  /** A decimal numeral, the key of an array item. */
  function Itoa(n: nat): (s: Bytes)
    ensures NulFree(s)
  {
    if n < 10 then [0x30 + n] else Itoa(n / 10) + [0x30 + n % 10]
  }

  /** A value's payload; integers keep their width's low bits. */
  function Payload(v: Value): Bytes
    decreases v, 1
  {
    match v
    case Double(bits) => LittleEndian(U64(bits), 8)
    case String(s) => StringBytes(s)
    case JavaScript(s) => StringBytes(s)
    case Symbol(s) => StringBytes(s)
    case Document(es) => Frame(Body(RawElems(es)))
    case Array(xs) => Frame(Body(RawItems(xs, 0)))
    case Binary(t, d) => LittleEndian(|d| % TWO32, 4) + [t] + d
    case ObjectId(o) => o
    case Boolean(b) => [if b then 1 else 0]
    case DateTime(t) => LittleEndian(U64(t), 8)
    case Regex(p, o) => p + [0] + o + [0]
    case DBPointer(raw) => raw
    case CodeWithScope(raw) => raw
    case Int32(i) => LittleEndian(i % TWO32, 4)
    case Timestamp(u) => LittleEndian(U64(u), 8)
    case Int64(i) => LittleEndian(U64(i), 8)
    case Decimal128(raw) => raw
    case _ => []
  }

  function RawOf(v: Value): RawValue
    decreases v, 2
  {
    RawValue(TypeByte(v), Payload(v))
  }

  function RawElems(es: seq<Elem>): (rs: seq<Element>)
    decreases es, 0
  {
    if es == [] then [] else [Element(es[0].key, RawOf(es[0].value))] + RawElems(es[1..])
  }

  /** Array items are elements keyed by their positions. */
  function RawItems(xs: seq<Value>, i: nat): (rs: seq<Element>)
    decreases xs, 0
  {
    if xs == [] then [] else [Element(Itoa(i), RawOf(xs[0]))] + RawItems(xs[1..], i + 1)
  }

  function I32(x: nat): int { if x < 0x8000_0000 then x else x - TWO32 }

  /** A stored value read back as a tree, every nested document included. */
  function ValueOf(r: RawValue): Option<Value>
    decreases |r.data|, 1
  {
    if !Sized(r) then None
    else
      var d := r.data;
      match r.t
      case 0x01 => Some(Double(ReadLittleEndian(d)))
      case 0x02 => Some(String(d[4..|d| - 1]))
      case 0x0D => Some(JavaScript(d[4..|d| - 1]))
      case 0x0E => Some(Symbol(d[4..|d| - 1]))
      case 0x03 =>
        (match Elements(d)
         case Err(_) => None
         case Ok(es) => match ElemsOf(es, |d|) case None => None case Some(vs) => Some(Document(vs)))
      case 0x04 =>
        (match Elements(d)
         case Err(_) => None
         case Ok(es) => match ElemsOf(es, |d|) case None => None case Some(vs) => Some(Array(Values(vs))))
      case 0x05 => Some(Binary(d[4], d[5..]))
      case 0x06 => Some(Undefined)
      case 0x07 => Some(ObjectId(d))
      case 0x08 => Some(Boolean(d[0] != 0))
      case 0x09 => Some(DateTime(I64(ReadLittleEndian(d))))
      case 0x0A => Some(Null)
      case 0x0B => var i := CstrEnd(d, 0); Some(Regex(d[..i], d[i + 1..|d| - 1]))
      case 0x0C => Some(DBPointer(d))
      case 0x0F => Some(CodeWithScope(d))
      case 0x10 => Some(Int32(I32(ReadLittleEndian(d))))
      case 0x11 => Some(Timestamp(ReadLittleEndian(d)))
      case 0x12 => Some(Int64(I64(ReadLittleEndian(d))))
      case 0x13 => Some(Decimal128(d))
      case 0xFF => Some(MinKey)
      case 0x7F => Some(MaxKey)
      case _ => None
  }

  /** Each element's value read back; all are shorter than the document that holds them. */
  function ElemsOf(es: seq<Element>, bound: nat): (vs: Option<seq<Elem>>)
    ensures vs.Some? ==> |vs.value| == |es|
    decreases bound, 0, |es|
  {
    if es == [] then Some([])
    else if |es[0].value.data| >= bound then None
    else
      match ValueOf(es[0].value)
      case None => None
      case Some(v) => match ElemsOf(es[1..], bound) case None => None case Some(vs) => Some([Elem(es[0].key, v)] + vs)
  }

  function Values(es: seq<Elem>): seq<Value> { seq(|es|, i requires 0 <= i < |es| => es[i].value) }

  /** Values the wire form can carry: sized numbers, NUL-free keys and cstrings, lengths within 32 bits. */
  predicate Encodable(v: Value)
    decreases v, 1
  {
    match v
    case Missing => false
    case Double(bits) => IsU64(bits)
    case String(s) => |s| + 5 < TWO32
    case JavaScript(s) => |s| + 5 < TWO32
    case Symbol(s) => |s| + 5 < TWO32
    case Document(es) => |Payload(v)| < TWO32 && EncodableElems(es)
    case Array(xs) => |Payload(v)| < TWO32 && EncodableItems(xs)
    case Binary(_, d) => |d| < TWO32
    case ObjectId(o) => |o| == 12
    case DateTime(t) => IsI64(t)
    case Regex(p, o) => NulFree(p) && NulFree(o)
    case DBPointer(raw) => Sized(RawValue(0x0C, raw))
    case CodeWithScope(raw) => Sized(RawValue(0x0F, raw))
    case Int32(i) => -0x8000_0000 <= i < 0x8000_0000
    case Timestamp(u) => IsU64(u)
    case Int64(i) => IsI64(i)
    case Decimal128(raw) => |raw| == 16
    case _ => true
  }

  predicate EncodableElems(es: seq<Elem>)
    decreases es, 0
  {
    es == [] || (NulFree(es[0].key) && Encodable(es[0].value) && EncodableElems(es[1..]))
  }

  predicate EncodableItems(xs: seq<Value>)
    decreases xs, 0
  {
    xs == [] || (Encodable(xs[0]) && EncodableItems(xs[1..]))
  }

  // ---- reading a tree back -----------------------------------------------------------------

  lemma PrefixReads(n: nat, rest: Bytes)
    requires n < TWO32
    ensures Uint32(LittleEndian(n % TWO32, 4) + rest) == n
  {
    hide LittleEndian, ReadLittleEndian;
    Pow256Is();
    assert n % TWO32 == n;
    LittleEndianRoundTrip(n, 4);
    assert (LittleEndian(n, 4) + rest)[..4] == LittleEndian(n, 4);
  }

  lemma StringReads(t: byte, s: Bytes)
    requires t in {0x02, 0x0D, 0x0E} && |s| + 5 < TWO32
    ensures Sized(RawValue(t, StringBytes(s))) && StringBytes(s)[4..|StringBytes(s)| - 1] == s
  {
    hide LittleEndian, ReadLittleEndian, Uint32;
    PrefixReads(|s| + 1, s + [0]);
    assert StringBytes(s) == LittleEndian((|s| + 1) % TWO32, 4) + (s + [0]);
  }

  lemma BinaryReads(t: byte, d: Bytes)
    requires |d| < TWO32
    ensures var b := Payload(Binary(t, d)); Sized(RawValue(0x05, b)) && b[4] == t && b[5..] == d
  {
    hide LittleEndian, ReadLittleEndian, Uint32;
    PrefixReads(|d|, [t] + d);
    assert Payload(Binary(t, d)) == LittleEndian(|d| % TWO32, 4) + ([t] + d);
  }

  lemma RegexReads(p: Bytes, o: Bytes)
    requires NulFree(p) && NulFree(o)
    ensures var b := Payload(Regex(p, o));
            Sized(RawValue(0x0B, b)) && CstrEnd(b, 0) == |p| && b[..|p|] == p && b[|p| + 1..|b| - 1] == o
  {
    var b := p + [0] + o + [0];
    forall j | 0 <= j < |p| ensures b[j] != 0 { assert b[j] in p; }
    forall j | |p| + 1 <= j < |p| + 1 + |o| ensures b[j] != 0 { assert b[j] in o; }
    CstrEndIs(b, 0, |p|);
    CstrEndIs(b, |p| + 1, |p| + 1 + |o|);
  }

  lemma FrameSized(t: byte, body: Bytes)
    requires t in {0x03, 0x04} && |body| + 5 < TWO32
    ensures Sized(RawValue(t, Frame(body)))
  {
    hide LittleEndian, ReadLittleEndian;
    FrameLength(body);
  }

  lemma FixedReads(x: nat, n: nat)
    requires (n == 4 && x < TWO32) || (n == 8 && IsU64(x))
    ensures ReadLittleEndian(LittleEndian(x, n)) == x
  {
    hide LittleEndian, ReadLittleEndian;
    Pow256Is();
    LittleEndianRoundTrip(x, n);
  }

  lemma I64Undoes(i: int)
    requires IsI64(i)
    ensures I64(U64(i)) == i
  {}

  lemma NumberReadsBack(v: Value)
    requires Encodable(v) && (v.Double? || v.Timestamp? || v.DateTime? || v.Int64? || v.Int32?)
    ensures Sized(RawOf(v)) && ValueOf(RawOf(v)) == Some(v)
  {
    hide LittleEndian, ReadLittleEndian, U64, I64;
    match v
    case Double(bits) => FixedReads(U64(bits), 8); U64Same(bits);
    case Timestamp(u) => FixedReads(U64(u), 8); U64Same(u);
    case DateTime(t) => FixedReads(U64(t), 8); I64Undoes(t);
    case Int64(i) => FixedReads(U64(i), 8); I64Undoes(i);
    case Int32(i) => FixedReads(i % TWO32, 4);
  }

  lemma TextReadsBack(v: Value)
    requires Encodable(v) && (v.String? || v.JavaScript? || v.Symbol? || v.Binary? || v.Regex?)
    ensures Sized(RawOf(v)) && ValueOf(RawOf(v)) == Some(v)
  {
    hide LittleEndian, ReadLittleEndian, StringBytes, Sized, ScanValue;
    match v
    case String(s) => StringReads(0x02, s);
    case JavaScript(s) => StringReads(0x0D, s);
    case Symbol(s) => StringReads(0x0E, s);
    case Binary(t, d) => BinaryReads(t, d);
    case Regex(p, o) => RegexReads(p, o);
  }

  /** The types whose payload is itself. */
  lemma FixedReadsBack(v: Value)
    requires Encodable(v) && (v.ObjectId? || v.Boolean? || v.DBPointer? || v.CodeWithScope? || v.Decimal128?)
    ensures Sized(RawOf(v)) && ValueOf(RawOf(v)) == Some(v)
  {
    hide LittleEndian, ReadLittleEndian, StringBytes, Frame, Body, RawElems, RawItems, Elements, ElemsOf, CstrEnd,
        Uint32;
  }

  /** The types without a payload. */
  lemma TokenReadsBack(v: Value)
    requires v.Undefined? || v.Null? || v.MinKey? || v.MaxKey?
    ensures Sized(RawOf(v)) && ValueOf(RawOf(v)) == Some(v)
  {
    NothingIsSized(TypeByte(v));
    hide ScanValue, Sized, Encodable, Elements, ElemsOf, CstrEnd, ReadLittleEndian;
    NoPayload(v);
    hide Payload;
    match v
    case Undefined => assert ValueOf(RawValue(0x06, [])) == Some(Undefined);
    case Null => assert ValueOf(RawValue(0x0A, [])) == Some(Null);
    case MinKey => assert ValueOf(RawValue(0xFF, [])) == Some(MinKey);
    case MaxKey => assert ValueOf(RawValue(0x7F, [])) == Some(MaxKey);
  }

  lemma NoPayload(v: Value)
    requires v.Undefined? || v.Null? || v.MinKey? || v.MaxKey?
    ensures Payload(v) == []
  {
    hide LittleEndian, StringBytes, Frame, Body, RawElems, RawItems;
  }

  lemma NothingIsSized(t: byte)
    requires t in {0x06, 0x0A, 0xFF, 0x7F}
    ensures Sized(RawValue(t, []))
  {
    hide Uint32, CstrEnd;
  }

  lemma ScalarReadsBack(v: Value)
    requires Encodable(v) && !v.Document? && !v.Array?
    ensures Sized(RawOf(v)) && ValueOf(RawOf(v)) == Some(v)
  {
    NotMissing(v);
    hide ValueOf, Sized, RawOf, Encodable;
    if v.Double? || v.Timestamp? || v.DateTime? || v.Int64? || v.Int32? {
      NumberReadsBack(v);
    } else if v.String? || v.JavaScript? || v.Symbol? || v.Binary? || v.Regex? {
      TextReadsBack(v);
    } else if v.ObjectId? || v.Boolean? || v.DBPointer? || v.CodeWithScope? || v.Decimal128? {
      FixedReadsBack(v);
    } else {
      TokenReadsBack(v);
    }
  }

  lemma NotMissing(v: Value)
    requires Encodable(v)
    ensures !v.Missing?
  {}

  lemma U64Same(x: int)
    requires IsU64(x)
    ensures U64(x) == x
  {}

  lemma {:induction false} TreeReadsBack(v: Value)
    requires Encodable(v)
    ensures Sized(RawOf(v)) && ValueOf(RawOf(v)) == Some(v)
    decreases v, 2
  {
    hide ValueOf, Sized, Encodable, RawOf;
    match v
    case Document(es) => DocumentReadsBack(es);
    case Array(xs) => ArrayReadsBack(xs);
    case _ => ScalarReadsBack(v);
  }

  lemma {:induction false} DocumentReadsBack(es: seq<Elem>)
    requires Encodable(Document(es))
    ensures Sized(RawOf(Document(es))) && ValueOf(RawOf(Document(es))) == Some(Document(es))
    decreases es, 1
  {
    hide ScanValue, Sized, Frame, Body, Elements, Readable, EncodableElems, ElemsOf;
    var rs := RawElems(es);
    FrameIs(Body(rs));
    ElemsReadBack(es, |Frame(Body(rs))|);
    FrameSized(0x03, Body(rs));
    BuildReadsBack(rs, []);
  }

  lemma {:induction false} ArrayReadsBack(xs: seq<Value>)
    requires Encodable(Array(xs))
    ensures Sized(RawOf(Array(xs))) && ValueOf(RawOf(Array(xs))) == Some(Array(xs))
    decreases xs, 1
  {
    hide ScanValue, Sized, Frame, Body, Elements, Readable, EncodableItems, ElemsOf, ValueOf, Values, RawItems;
    var rs := RawItems(xs, 0);
    var d := Frame(Body(rs));
    FrameIs(Body(rs));
    ItemsReadBack(xs, 0, |d|);
    FrameSized(0x04, Body(rs));
    BuildReadsBack(rs, []);
    ArrayValue(d, rs);
  }

  lemma ArrayValue(d: Bytes, es: seq<Element>)
    requires Sized(RawValue(0x04, d)) && Elements(d) == Ok(es) && ElemsOf(es, |d|).Some?
    ensures ValueOf(RawValue(0x04, d)) == Some(Array(Values(ElemsOf(es, |d|).value)))
  {
    hide Sized, Elements, ElemsOf, Values;
  }

  lemma FrameIs(body: Bytes)
    ensures |Frame(body)| == |body| + 5
  {}

  lemma {:induction false} ElemsReadBack(es: seq<Elem>, bound: nat)
    requires EncodableElems(es) && |Body(RawElems(es))| < bound
    ensures Readable(RawElems(es)) && ElemsOf(RawElems(es), bound) == Some(es)
    decreases es, 0
  {
    hide Sized, ValueOf, Encodable, Payload;
    if es != [] {
      TreeReadsBack(es[0].value);
      assert RawElems(es)[1..] == RawElems(es[1..]);
      ElemsReadBack(es[1..], bound);
      assert es == [Elem(es[0].key, es[0].value)] + es[1..];
    }
  }

  lemma {:induction false} ItemsReadBack(xs: seq<Value>, i: nat, bound: nat)
    requires EncodableItems(xs) && |Body(RawItems(xs, i))| < bound
    ensures Readable(RawItems(xs, i))
    ensures ElemsOf(RawItems(xs, i), bound).Some? && Values(ElemsOf(RawItems(xs, i), bound).value) == xs
    decreases xs, 0
  {
    hide Sized, ValueOf, Encodable, Payload, Itoa;
    if xs != [] {
      TreeReadsBack(xs[0]);
      assert RawItems(xs, i)[1..] == RawItems(xs[1..], i + 1);
      ItemsReadBack(xs[1..], i + 1, bound);
      var vs := ElemsOf(RawItems(xs, i), bound).value;
      assert vs[1..] == ElemsOf(RawItems(xs[1..], i + 1), bound).value;
      assert Values(vs) == [vs[0].value] + Values(vs[1..]);
      assert xs == [xs[0]] + xs[1..];
    }
  }

  /**
   The example of the BSON specification, {"hello": "world"}: length, type, name, string length,
   text, terminators.
   */
  lemma KnownDocument()
    ensures var hello: Bytes, world: Bytes := [0x68, 0x65, 0x6C, 0x6C, 0x6F], [0x77, 0x6F, 0x72, 0x6C, 0x64];
            Payload(Document([Elem(hello, String(world))]))
            == [0x16, 0, 0, 0] + ([0x02] + hello + [0] + ([0x06, 0, 0, 0] + world + [0])) + [0]
  {
    var hello: Bytes, world: Bytes := [0x68, 0x65, 0x6C, 0x6C, 0x6F], [0x77, 0x6F, 0x72, 0x6C, 0x64];
    KnownString();
    OneElement(hello, String(world));
    DocumentPayload([Elem(hello, String(world))]);
    StringPayload(world);
    hide Payload, Frame, Body, RawElems, StringBytes, TypeByte;
    KnownFrame([0x02] + hello + [0] + ([0x06, 0, 0, 0] + world + [0]));
  }

  lemma DocumentPayload(es: seq<Elem>)
    ensures Payload(Document(es)) == Frame(Body(RawElems(es)))
  {
    hide Frame, Body, RawElems;
  }

  lemma StringPayload(s: Bytes)
    ensures TypeByte(String(s)) == 0x02 && Payload(String(s)) == StringBytes(s)
  {
    hide StringBytes;
  }

  lemma KnownString()
    ensures StringBytes([0x77, 0x6F, 0x72, 0x6C, 0x64]) == [0x06, 0, 0, 0] + [0x77, 0x6F, 0x72, 0x6C, 0x64] + [0]
  {
    KnownLengths();
    hide LittleEndian;
  }

  /** The body of a document with one field: type, name, terminator and payload. */
  lemma OneElement(key: Bytes, v: Value)
    ensures Body(RawElems([Elem(key, v)])) == [TypeByte(v)] + key + [0] + Payload(v)
  {
    hide Payload, TypeByte;
    var e := Elem(key, v);
    assert [e][1..] == [] && RawElems([]) == [];
    var r := Element(key, RawOf(v));
    assert RawElems([e]) == [r];
    assert [r][1..] == [] && Body([]) == [];
  }

  lemma KnownFrame(body: Bytes)
    requires |body| == 17
    ensures Frame(body) == [0x16, 0, 0, 0] + body + [0]
  {
    KnownLengths();
    hide LittleEndian;
  }

  lemma KnownLengths()
    ensures LittleEndian(6, 4) == [6, 0, 0, 0] && LittleEndian(22, 4) == [22, 0, 0, 0]
  {
    assert LittleEndian(0, 0) == [] && LittleEndian(0, 1) == [0] && LittleEndian(0, 2) == [0, 0];
    assert LittleEndian(0, 3) == [0, 0, 0];
  }

  /** Distinct encodable values have distinct stored forms. */
  lemma RawOfInjective(a: Value, b: Value)
    requires Encodable(a) && Encodable(b) && RawOf(a) == RawOf(b)
    ensures a == b
  {
    hide RawOf, ValueOf, Encodable;
    TreeReadsBack(a);
    TreeReadsBack(b);
  }
}
