/** Resume tokens: a stream position as a small document holding base64url text. */
module ResumeToken {
  import opened Common
  import opened Bits
  import B = Bson
  import opened BsonCodec

  /** The alphabet of section 5 of RFC 4648. */
  function Symbol64(v: nat): byte
    requires v < 64
  {
    if v < 26 then 0x41 + v else if v < 52 then 0x61 + v - 26 else if v < 62 then 0x30 + v - 52
    else if v == 62 then 0x2D else 0x5F
  }

  function Value64(c: byte): (v: Option<nat>)
    ensures v.Some? ==> v.value < 64
  {
    if 0x41 <= c <= 0x5A then Some(c - 0x41)
    else if 0x61 <= c <= 0x7A then Some(c - 0x61 + 26)
    else if 0x30 <= c <= 0x39 then Some(c - 0x30 + 52)
    else if c == 0x2D then Some(62)
    else if c == 0x5F then Some(63)
    else None
  }

  /** Three bytes to four symbols; a tail of one or two bytes to two or three, without padding. */
  function Encode64(b: Bytes): Bytes {
    if |b| == 0 then []
    else if |b| == 1 then [Symbol64(b[0] / 4), Symbol64(b[0] % 4 * 16)]
    else if |b| == 2 then [Symbol64(b[0] / 4), Symbol64(b[0] % 4 * 16 + b[1] / 16), Symbol64(b[1] % 16 * 4)]
    else
      [Symbol64(b[0] / 4), Symbol64(b[0] % 4 * 16 + b[1] / 16), Symbol64(b[1] % 16 * 4 + b[2] / 64),
          Symbol64(b[2] % 64)]
      + Encode64(b[3..])
  }

  function Decode64(s: Bytes): Option<Bytes> {
    if |s| == 0 then Some([])
    else if |s| == 1 then None
    else
      match (Value64(s[0]), Value64(s[1]))
      case (Some(x), Some(y)) =>
        if |s| == 2 then Some([x * 4 + y / 16])
        else
          (match Value64(s[2])
           case None => None
           case Some(z) =>
             if |s| == 3 then Some([x * 4 + y / 16, y % 16 * 16 + z / 4])
             else
               match (Value64(s[3]), Decode64(s[4..]))
               case (Some(w), Some(rest)) => Some([x * 4 + y / 16, y % 16 * 16 + z / 4, z % 4 * 64 + w] + rest)
               case _ => None)
      case _ => None
  }

  lemma SymbolReads(v: nat)
    requires v < 64
    ensures Value64(Symbol64(v)) == Some(v)
  {}

  /** Three bytes survive being cut into four groups of six bits. */
  lemma SextetsJoin(a: byte, b: byte, c: byte)
    ensures var x, y, z, w := a / 4, a % 4 * 16 + b / 16, b % 16 * 4 + c / 64, c % 64;
            && x < 64 && y < 64 && z < 64 && w < 64
            && x * 4 + y / 16 == a && y % 16 * 16 + z / 4 == b && z % 4 * 64 + w == c
  {
    assert (a % 4 * 16 + b / 16) / 16 == a % 4;
    assert (b % 16 * 4 + c / 64) / 4 == b % 16;
  }

  lemma ReadsGroup(a: byte, b: byte, c: byte, rest: Bytes, tail: Bytes)
    requires Decode64(tail) == Some(rest)
    ensures Decode64([Symbol64(a / 4), Symbol64(a % 4 * 16 + b / 16), Symbol64(b % 16 * 4 + c / 64), Symbol64(c % 64)]
            + tail) == Some([a, b, c] + rest)
  {
    hide Symbol64, Value64;
    SextetsJoin(a, b, c);
    SymbolReads(a / 4);
    SymbolReads(a % 4 * 16 + b / 16);
    SymbolReads(b % 16 * 4 + c / 64);
    SymbolReads(c % 64);
    var s := [Symbol64(a / 4), Symbol64(a % 4 * 16 + b / 16), Symbol64(b % 16 * 4 + c / 64), Symbol64(c % 64)] + tail;
    assert s[4..] == tail;
  }

  lemma ReadsTail(a: byte, b: byte)
    ensures Decode64([Symbol64(a / 4), Symbol64(a % 4 * 16)]) == Some([a])
    ensures Decode64([Symbol64(a / 4), Symbol64(a % 4 * 16 + b / 16), Symbol64(b % 16 * 4)]) == Some([a, b])
  {
    hide Symbol64, Value64;
    SextetsJoin(a, b, 0);
    SextetsJoin(a, 0, 0);
    SymbolReads(a / 4);
    SymbolReads(a % 4 * 16);
    SymbolReads(a % 4 * 16 + b / 16);
    SymbolReads(b % 16 * 4);
  }

  /** Decoding undoes encoding, for bytes of any length. */
  lemma {:induction false} Base64RoundTrip(b: Bytes)
    ensures Decode64(Encode64(b)) == Some(b)
    decreases |b|
  {
    hide Symbol64, Decode64;
    if |b| == 0 {
      NothingReads();
    } else if |b| <= 2 {
      ReadsTail(b[0], if |b| == 2 then b[1] else 0);
      assert b == if |b| == 1 then [b[0]] else [b[0], b[1]];
    } else {
      Base64RoundTrip(b[3..]);
      ReadsGroup(b[0], b[1], b[2], b[3..], Encode64(b[3..]));
      assert b == [b[0], b[1], b[2]] + b[3..];
    }
  }

  lemma NothingReads()
    ensures Decode64([]) == Some([])
  {}

  function Reverse(b: Bytes): Bytes { if b == [] then [] else Reverse(b[1..]) + [b[0]] }

  lemma {:induction false} ReverseTwice(b: Bytes)
    ensures Reverse(Reverse(b)) == b && |Reverse(b)| == |b|
  {
    if b != [] {
      ReverseTwice(b[1..]);
      ReverseSnoc(Reverse(b[1..]), b[0]);
    }
  }

  lemma {:induction false} ReverseSnoc(b: Bytes, x: byte)
    ensures Reverse(b + [x]) == [x] + Reverse(b)
  {
    if b == [] {
      assert b + [x] == [x];
      assert Reverse([x][1..]) == [];
    } else {
      assert (b + [x])[1..] == b[1..] + [x];
      ReverseSnoc(b[1..], x);
    }
  }

  function BigEndian(x: nat, n: nat): Bytes { Reverse(LittleEndian(x, n)) }
  function ReadBigEndian(b: Bytes): nat { ReadLittleEndian(Reverse(b)) }

  const DATA_KEY: Bytes := [0x5F, 0x64, 0x61, 0x74, 0x61]   // _data

  /** The token of a position, as a document. */
  function EncodeToken(pos: nat): Bytes {
    Frame(Body([Element(DATA_KEY, RawOf(B.String(Encode64(BigEndian(pos, 8)))))]))
  }

  /** The position a token names, or `None` for anything that is not one. */
  function DecodeToken(tok: Bytes): Option<nat> {
    match Lookup(tok, DATA_KEY)
    case Some(raw) =>
      (match ValueOf(raw)
       case Some(String(s)) =>
         (match Decode64(s)
          case Some(b) => if |b| == 8 then Some(ReadBigEndian(b)) else None
          case None => None)
       case _ => None)
    case None => None
  }

  lemma {:induction false} Encode64Length(b: Bytes)
    ensures |Encode64(b)| <= 2 * |b|
    decreases |b|
  {
    hide Symbol64;
    if |b| >= 3 { Encode64Length(b[3..]); }
  }

  /** Test vectors of section 10 of RFC 4648 that need no padding: foo and foobar. */
  lemma KnownTexts()
    ensures Encode64([0x66, 0x6F, 0x6F]) == [0x5A, 0x6D, 0x39, 0x76]
    ensures Encode64([0x66, 0x6F, 0x6F, 0x62, 0x61, 0x72]) == [0x5A, 0x6D, 0x39, 0x76] + [0x59, 0x6D, 0x46, 0x79]
  {
    KnownBar();
    var foo: Bytes, bar: Bytes := [0x66, 0x6F, 0x6F], [0x62, 0x61, 0x72];
    var both: Bytes := [0x66, 0x6F, 0x6F, 0x62, 0x61, 0x72];
    assert foo[3..] == [] && both[3..] == bar && Encode64([]) == [];
  }

  /** The second half of foobar; and bytes whose text uses the symbols 62 and 63. */
  lemma KnownBar()
    ensures Encode64([0x62, 0x61, 0x72]) == [0x59, 0x6D, 0x46, 0x79]
    ensures Encode64([0xFB, 0xFF]) == [0x2D, 0x5F, 0x38]
  {
    var bar: Bytes := [0x62, 0x61, 0x72];
    assert bar[3..] == [] && Encode64([]) == [];
  }

  /** The text of position 1: ten times A, then E. */
  lemma KnownToken()
    ensures Encode64(BigEndian(1, 8)) == [0x41, 0x41, 0x41, 0x41, 0x41, 0x41, 0x41, 0x41, 0x41, 0x41, 0x45]
  {
    BigEndianOne();
    hide BigEndian;
    var b: Bytes, c: Bytes, d: Bytes := [0, 0, 0, 0, 0, 0, 0, 1], [0, 0, 0, 0, 1], [0, 1];
    assert b[3..] == c && c[3..] == d;
    assert Encode64(d) == [0x41, 0x41, 0x45];
    assert Encode64(c) == [0x41, 0x41, 0x41, 0x41] + [0x41, 0x41, 0x45];
  }

  lemma BigEndianOne()
    ensures BigEndian(1, 8) == [0, 0, 0, 0, 0, 0, 0, 1]
  {
    ZeroBytes(7);
    var b := LittleEndian(1, 8);
    assert b == [1] + LittleEndian(0, 7) == [1, 0, 0, 0, 0, 0, 0, 0];
    ReversedAt(b);
  }

  lemma {:induction false} ZeroBytes(n: nat)
    ensures LittleEndian(0, n) == seq(n, _ => 0)
  {
    if n > 0 { ZeroBytes(n - 1); }
  }

  lemma {:induction false} ReversedAt(b: Bytes)
    ensures |Reverse(b)| == |b| && forall i :: 0 <= i < |b| ==> Reverse(b)[i] == b[|b| - 1 - i]
  {
    if b != [] { ReversedAt(b[1..]); }
  }

  /** A token names the position it was made from. */
  lemma TokenRoundTrip(pos: nat)
    requires IsU64(pos)
    ensures DecodeToken(EncodeToken(pos)) == Some(pos)
  {
    hide Encode64, Decode64, LittleEndian, ReadLittleEndian, ValueOf, Lookup, Frame, Sized, ScanValue;
    var b := BigEndian(pos, 8);
    ReverseTwice(LittleEndian(pos, 8));
    Base64RoundTrip(b);
    Encode64Length(b);
    var v := B.String(Encode64(b));
    TreeReadsBack(v);
    FixedReads(pos, 8);
    var es := [Element(DATA_KEY, RawOf(v))];
    TokenBody(v);
    BuildReadsBack(es, DATA_KEY);
  }

  lemma TokenBody(v: B.Value)
    requires v.String? && |v.s| <= 16 && Sized(RawOf(v))
    ensures var es := [Element(DATA_KEY, RawOf(v))];
            Readable(es) && |Body(es)| + 5 < TWO32 && FirstKeyed(es, DATA_KEY) == Some(RawOf(v))
  {
    hide ScanValue, LittleEndian;
    var es := [Element(DATA_KEY, RawOf(v))];
    assert es[1..] == [];
    assert Body(es[1..]) == [];
  }
}
