/**
 The documents the reader accepts: exactly those the grammar of the BSON specification produces,
 element by element, with the checks the reader makes of each payload.
 */
module BsonGrammar {
  import opened Common
  import opened Bits
  import opened BsonCodec

  lemma {:induction false} BytesOfNumber(b: Bytes)
    ensures LittleEndian(ReadLittleEndian(b), |b|) == b
  {
    if b != [] {
      BytesOfNumber(b[1..]);
      assert b == [b[0]] + b[1..];
    }
  }

  lemma NumberBelow(b: Bytes)
    requires |b| >= 4
    ensures Uint32(b) < TWO32 && LittleEndian(Uint32(b), 4) == b[..4]
  {
    BytesOfNumber(b[..4]);
    ReadBounded(b[..4]);
    Pow256Is();
  }

  lemma {:induction false} ReadBounded(b: Bytes)
    ensures ReadLittleEndian(b) < Pow256(|b|)
  {
    if b != [] { ReadBounded(b[1..]); }
  }

  // ---- payloads ----------------------------------------------------------------------------

  /** A length, then that many bytes of which the last is NUL. */
  function Text(s: Bytes): Bytes { LittleEndian(|s| + 1, 4) + (s + [0]) }

  /** The length of the whole, then a body and NUL. */
  function Framed(body: Bytes): Bytes { LittleEndian(|body| + 5, 4) + (body + [0]) }

  /** A length, a subtype and that many bytes. */
  function BinaryOf(t: byte, d: Bytes): Bytes { LittleEndian(|d|, 4) + ([t] + d) }

  /** Two texts ended by NUL. */
  function RegexOf(p: Bytes, o: Bytes): Bytes { p + [0] + o + [0] }

  /** A length, that many bytes and an object id. */
  function PointerOf(s: Bytes, id: Bytes): Bytes { LittleEndian(|s|, 4) + (s + id) }

  /** The length of the whole, then the rest. */
  function Scoped(rest: Bytes): Bytes { LittleEndian(|rest| + 4, 4) + rest }

  ghost predicate IsText(data: Bytes) { exists s: Bytes :: |s| + 1 < TWO32 && data == Text(s) }

  ghost predicate IsFramed(data: Bytes) { exists body: Bytes :: |body| + 5 < TWO32 && data == Framed(body) }

  ghost predicate IsBinary(data: Bytes) { exists t: byte, d: Bytes :: |d| < TWO32 && data == BinaryOf(t, d) }

  ghost predicate IsRegex(data: Bytes) {
    exists p: Bytes, o: Bytes :: NulFree(p) && NulFree(o) && data == RegexOf(p, o)
  }

  ghost predicate IsPointer(data: Bytes) {
    exists s: Bytes, id: Bytes :: 0 < |s| < TWO32 && |id| == 12 && data == PointerOf(s, id)
  }

  ghost predicate IsScoped(data: Bytes) { exists rest: Bytes :: |rest| + 4 < TWO32 && data == Scoped(rest) }

  /** The payloads of each type. */
  ghost predicate Produced(t: byte, data: Bytes) {
    if t in {0x01, 0x09, 0x11, 0x12} then |data| == 8
    else if t == 0x10 then |data| == 4
    else if t == 0x07 then |data| == 12
    else if t == 0x08 then |data| == 1
    else if t == 0x13 then |data| == 16
    else if t in {0x0A, 0x06, 0xFF, 0x7F} then data == []
    else if t in {0x02, 0x0D, 0x0E} then IsText(data)
    else if t in {0x03, 0x04} then IsFramed(data)
    else if t == 0x05 then IsBinary(data)
    else if t == 0x0B then IsRegex(data)
    else if t == 0x0C then IsPointer(data)
    else t == 0x0F && IsScoped(data)
  }

  lemma LengthReads(n: nat, rest: Bytes)
    requires n < TWO32
    ensures Uint32(LittleEndian(n, 4) + rest) == n
  {
    PrefixReads(n, rest);
    assert n % TWO32 == n;
  }

  lemma TextSized(s: Bytes, t: byte)
    requires t in {0x02, 0x0D, 0x0E} && |s| + 1 < TWO32
    ensures Sized(RawValue(t, Text(s)))
  {
    hide LittleEndian, Uint32;
    LengthReads(|s| + 1, s + [0]);
  }

  lemma EndsInNul(data: Bytes)
    requires |data| >= 5 && data[|data| - 1] == 0
    ensures data == data[..4] + (data[4..|data| - 1] + [0])
  {
  }

  lemma TextGiven(data: Bytes, s: Bytes)
    requires |s| + 1 < TWO32 && data == LittleEndian(|s| + 1, 4) + (s + [0])
    ensures IsText(data)
  {
    hide LittleEndian;
    assert data == Text(s);
  }

  lemma FramedGiven(data: Bytes, body: Bytes)
    requires |body| + 5 < TWO32 && data == LittleEndian(|body| + 5, 4) + (body + [0])
    ensures IsFramed(data)
  {
    hide LittleEndian;
    assert data == Framed(body);
  }

  lemma TextSplits(data: Bytes)
    requires |data| >= 5 && Uint32(data) == |data| - 4 && data[|data| - 1] == 0
    ensures IsText(data)
  {
    hide *;
    NumberBelow(data);
    EndsInNul(data);
    TextGiven(data, data[4..|data| - 1]);
  }

  lemma SizedText(data: Bytes, t: byte)
    requires t in {0x02, 0x0D, 0x0E} && Sized(RawValue(t, data))
    ensures IsText(data)
  {
    hide IsText, Uint32;
    TextSplits(data);
  }

  lemma FramedSized(body: Bytes, t: byte)
    requires t in {0x03, 0x04} && |body| + 5 < TWO32
    ensures Sized(RawValue(t, Framed(body)))
  {
    hide LittleEndian, Uint32;
    LengthReads(|body| + 5, body + [0]);
  }

  lemma FramedSplits(data: Bytes)
    requires |data| >= 5 && Uint32(data) == |data| && data[|data| - 1] == 0
    ensures IsFramed(data)
  {
    hide *;
    NumberBelow(data);
    EndsInNul(data);
    FramedGiven(data, data[4..|data| - 1]);
  }

  lemma SizedFramed(data: Bytes, t: byte)
    requires t in {0x03, 0x04} && Sized(RawValue(t, data))
    ensures IsFramed(data)
  {
    hide IsFramed, Uint32;
    FramedSplits(data);
  }

  lemma BinarySized(t: byte, d: Bytes)
    requires |d| < TWO32
    ensures Sized(RawValue(0x05, BinaryOf(t, d)))
  {
    hide LittleEndian, Uint32;
    LengthReads(|d|, [t] + d);
  }

  lemma SizedBinary(data: Bytes)
    requires Sized(RawValue(0x05, data))
    ensures IsBinary(data)
  {
    hide LittleEndian, Uint32;
    NumberBelow(data);
    assert data == data[..4] + ([data[4]] + data[5..]) == BinaryOf(data[4], data[5..]);
  }

  lemma RegexSized(p: Bytes, o: Bytes)
    requires NulFree(p) && NulFree(o)
    ensures Sized(RawValue(0x0B, RegexOf(p, o)))
  {
    var data := RegexOf(p, o);
    forall j | 0 <= j < |p| ensures data[j] != 0 { assert data[j] in p; }
    forall j | |p| + 1 <= j < |p| + 1 + |o| ensures data[j] != 0 { assert data[j] in o; }
    CstrEndIs(data, 0, |p|);
    CstrEndIs(data, |p| + 1, |p| + 1 + |o|);
  }

  lemma SizedRegex(data: Bytes)
    requires Sized(RawValue(0x0B, data))
    ensures IsRegex(data)
  {
    var i := CstrEnd(data, 0);
    CstrEndFirst(data, 0);
    CstrEndFirst(data, i + 1);
    var p, o := data[..i], data[i + 1..|data| - 1];
    assert NulFree(p) && NulFree(o);
    assert data == RegexOf(p, o);
  }

  lemma PointerSized(s: Bytes, id: Bytes)
    requires 0 < |s| < TWO32 && |id| == 12
    ensures Sized(RawValue(0x0C, PointerOf(s, id)))
  {
    hide LittleEndian, Uint32;
    LengthReads(|s|, s + id);
  }

  lemma SizedPointer(data: Bytes)
    requires Sized(RawValue(0x0C, data))
    ensures IsPointer(data)
  {
    hide LittleEndian, Uint32;
    NumberBelow(data);
    var s, id := data[4..|data| - 12], data[|data| - 12..];
    assert data == data[..4] + (s + id) == PointerOf(s, id);
  }

  lemma ScopedSized(rest: Bytes)
    requires |rest| + 4 < TWO32
    ensures Sized(RawValue(0x0F, Scoped(rest)))
  {
    hide LittleEndian, Uint32;
    LengthReads(|rest| + 4, rest);
  }

  lemma ScopedSplits(data: Bytes)
    requires |data| >= 4 && Uint32(data) == |data|
    ensures IsScoped(data)
  {
    hide LittleEndian, Uint32;
    NumberBelow(data);
    assert data == data[..4] + data[4..];
    assert data == Scoped(data[4..]);
  }

  lemma SizedScoped(data: Bytes)
    requires Sized(RawValue(0x0F, data))
    ensures IsScoped(data)
  {
    hide IsScoped, Uint32;
    ScopedSplits(data);
  }

  /** A payload is taken exactly when its type's production makes it. */
  lemma PayloadIff(t: byte, data: Bytes)
    ensures Sized(RawValue(t, data)) <==> Produced(t, data)
  {
    hide Text, Framed, BinaryOf, RegexOf, PointerOf, Scoped, ScanValue;
    if Produced(t, data) { ProducedSized(t, data); }
    if Sized(RawValue(t, data)) { SizedProduced(t, data); }
  }

  lemma ProducedSized(t: byte, data: Bytes)
    requires Produced(t, data)
    ensures Sized(RawValue(t, data))
  {
    hide Text, Framed, BinaryOf, RegexOf, PointerOf, Scoped;
    if t in {0x02, 0x0D, 0x0E} {
      hide ScanValue;
      var s: Bytes :| |s| + 1 < TWO32 && data == Text(s);
      TextSized(s, t);
    } else if t in {0x03, 0x04} {
      hide ScanValue;
      var body: Bytes :| |body| + 5 < TWO32 && data == Framed(body);
      FramedSized(body, t);
    } else if t == 0x05 {
      hide ScanValue;
      var u: byte, d: Bytes :| |d| < TWO32 && data == BinaryOf(u, d);
      BinarySized(u, d);
    } else if t == 0x0B {
      hide ScanValue;
      var p: Bytes, o: Bytes :| NulFree(p) && NulFree(o) && data == RegexOf(p, o);
      RegexSized(p, o);
    } else if t == 0x0C {
      hide ScanValue;
      var s: Bytes, id: Bytes :| 0 < |s| < TWO32 && |id| == 12 && data == PointerOf(s, id);
      PointerSized(s, id);
    } else if t == 0x0F {
      hide ScanValue;
      var rest: Bytes :| |rest| + 4 < TWO32 && data == Scoped(rest);
      ScopedSized(rest);
    }
  }

  lemma SizedProduced(t: byte, data: Bytes)
    requires Sized(RawValue(t, data))
    ensures Produced(t, data)
  {
    hide IsText, IsFramed, IsBinary, IsRegex, IsPointer, IsScoped;
    if t in {0x02, 0x0D, 0x0E} { SizedText(data, t); }
    else if t in {0x03, 0x04} { SizedFramed(data, t); }
    else if t == 0x05 { SizedBinary(data); }
    else if t == 0x0B { SizedRegex(data); }
    else if t == 0x0C { SizedPointer(data); }
    else if t == 0x0F { SizedScoped(data); }
  }

  // ---- documents --------------------------------------------------------------------------------

  /** What a payload takes it still takes when nothing follows. */
  lemma ScanPrefix(b: Bytes, t: byte)
    requires ScanValue(b, t).Some?
    ensures Sized(RawValue(t, b[..ScanValue(b, t).value]))
  {
    var n := ScanValue(b, t).value;
    var d := b[..n];
    if n >= 4 { assert d[..4] == b[..4]; }
    if t == 0x0B {
      var i := CstrEnd(b, 0);
      CstrEndFirst(b, 0);
      CstrEndFirst(b, i + 1);
      CstrEndIs(d, 0, i);
      CstrEndIs(d, i + 1, n - 1);
    }
  }

  lemma ReadElemPrints(b: Bytes)
    requires b != [] && ReadElem(b).Some?
    ensures var (e, n) := ReadElem(b).value;
            b == ElemBytes(e) + b[n..] && NulFree(e.key) && Sized(e.value)
  {
    hide ScanValue;
    var ke := CstrEnd(b, 1);
    CstrEndFirst(b, 1);
    ScanPrefix(b[ke + 1..], b[0]);
    var (e, n) := ReadElem(b).value;
    assert b[ke + 1..][..n - ke - 1] == b[ke + 1..n];
    assert b == [b[0]] + b[1..ke] + [0] + b[ke + 1..n] + b[n..];
  }

  lemma {:induction false} WalkPrints(b: Bytes)
    requires Walk(b).Ok?
    ensures b == Body(Walk(b).value) + [0] && Readable(Walk(b).value)
    decreases |b|
  {
    hide ReadElem, Sized, ElemBytes;
    if b[0] != 0 {
      ReadElemPrints(b);
      var (e, n) := ReadElem(b).value;
      WalkPrints(b[n..]);
      var rest := Walk(b[n..]).value;
      assert ([e] + rest)[1..] == rest;
    }
  }

  /**
   The reader takes a document and gives its elements exactly when it is those elements built: names
   without NUL, payloads the grammar produces, the length in front and NUL behind.
   */
  lemma AcceptsExactlyBuilt(r: Bytes, es: seq<Element>)
    ensures Elements(r) == Ok(es) <==>
            |r| < TWO32 && r == Frame(Body(es)) &&
            forall i :: 0 <= i < |es| ==> NulFree(es[i].key) && Produced(es[i].value.t, es[i].value.data)
  {
    hide Walk, Body, Produced, ScanValue, Uint32, LittleEndian;
    forall i | 0 <= i < |es| ensures Sized(es[i].value) <==> Produced(es[i].value.t, es[i].value.data) {
      PayloadIff(es[i].value.t, es[i].value.data);
    }
    if Elements(r) == Ok(es) {
      WalkPrints(r[4..]);
      NumberBelow(r);
      assert r == r[..4] + (Body(es) + [0]);
      assert (|Body(es)| + 5) % TWO32 == |r|;
      assert r == LittleEndian(|r|, 4) + Body(es) + [0];
    }
    if |r| < TWO32 && r == Frame(Body(es)) && Readable(es) {
      hide Elements, Frame;
      BuildReadsBack(es, []);
    }
  }
}
