/** Bits of integers, bit packing, and the variable-length integers of the column format. */
module Bits {
  import opened Common

  const TWO64 := 0x1_0000_0000_0000_0000
  const TWO63 := 0x8000_0000_0000_0000

  predicate IsU64(x: int) { 0 <= x < TWO64 }
  predicate IsI64(x: int) { -TWO63 <= x < TWO63 }

  /** Conversion of any integer to uint64 and to int64, wrapping around. */
  function U64(x: int): (u: int)
    ensures IsU64(u)
  {
    x % TWO64
  }

  function I64(x: int): (i: int)
    ensures IsI64(i)
  {
    if x % TWO64 < TWO63 then x % TWO64 else x % TWO64 - TWO64
  }

  function Pow2(n: nat): (p: nat)
    ensures p > 0
  {
    if n == 0 then 1 else 2 * Pow2(n - 1)
  }

  /** Bit `b` of `v`, bit 0 lowest. */
  predicate Bit(v: nat, b: nat) {
    if b == 0 then v % 2 == 1 else Bit(v / 2, b - 1)
  }

  /** The number whose low `w` bits are f(off), f(off + 1), ... */
  function FromBits(f: nat -> bool, off: nat, w: nat): (v: nat)
    ensures v < Pow2(w)
    decreases w
  {
    if w == 0 then 0 else (if f(off) then 1 else 0) + 2 * FromBits(f, off + 1, w - 1)
  }

  lemma {:induction false} BitOfFromBits(f: nat -> bool, off: nat, w: nat, b: nat)
    requires b < w
    ensures Bit(FromBits(f, off, w), b) == f(off + b)
    decreases w
  {
    var rest := FromBits(f, off + 1, w - 1);
    assert FromBits(f, off, w) / 2 == rest;
    if b > 0 { BitOfFromBits(f, off + 1, w - 1, b - 1); }
  }

  /** A number of at most `w` bits is determined by them. */
  lemma {:induction false} FromBitsOf(f: nat -> bool, off: nat, w: nat, v: nat)
    requires v < Pow2(w)
    requires forall b :: 0 <= b < w ==> f(off + b) == Bit(v, b)
    ensures FromBits(f, off, w) == v
    decreases w
  {
    if w > 0 {
      forall b | 0 <= b < w - 1 ensures f(off + 1 + b) == Bit(v / 2, b) {
        assert f(off + (b + 1)) == Bit(v, b + 1);
      }
      assert f(off + 0) == Bit(v, 0);
      FromBitsOf(f, off + 1, w - 1, v / 2);
    }
  }

  // ---- packing -----------------------------------------------------------------

  /** Bit `p` of the concatenation of the values' low `width` bits. */
  predicate PackedBit(vals: seq<nat>, width: nat, p: nat)
    decreases |vals|
  {
    vals != [] && if p < width then Bit(vals[0], p) else PackedBit(vals[1..], width, p - width)
  }

  lemma {:induction false} PackedBitIs(vals: seq<nat>, width: nat, i: nat, b: nat)
    requires i < |vals| && b < width
    ensures PackedBit(vals, width, i * width + b) == Bit(vals[i], b)
    decreases i
  {
    if i > 0 {
      assert i * width + b == (i - 1) * width + b + width;
      PackedBitIs(vals[1..], width, i - 1, b);
    }
  }

  function BitAt(data: seq<byte>, p: nat): bool {
    p / 8 < |data| && Bit(data[p / 8], p % 8)
  }

  lemma BytePow2()
    ensures Pow2(8) == 256 && Pow2(64) == TWO64
  {
    assert Pow2(8) == 256;
    assert Pow2(16) == 0x1_0000;
    assert Pow2(24) == 0x100_0000;
    assert Pow2(32) == 0x1_0000_0000;
    assert Pow2(40) == 0x100_0000_0000;
    assert Pow2(48) == 0x1_0000_0000_0000;
    assert Pow2(56) == 0x100_0000_0000_0000;
  }

  function PackedByte(vals: seq<nat>, width: nat, i: nat): byte {
    BytePow2();
    FromBits((p: nat) => PackedBit(vals, width, p), 8 * i, 8)
  }

  /** Each value in `width` bits, low bit first, concatenated and cut into bytes. */
  function PackBits(vals: seq<nat>, width: nat): seq<byte> {
    if width == 0 then [] else seq((width * |vals| + 7) / 8, i requires 0 <= i => PackedByte(vals, width, i))
  }

  function UnpackBits(data: seq<byte>, width: nat, count: nat): Option<seq<nat>> {
    if width == 0 then Some(seq(count, i => 0))
    else if |data| < (width * count + 7) / 8 then None
    else Some(seq(count, i requires 0 <= i => FromBits((p: nat) => BitAt(data, p), i * width, width)))
  }

  lemma PackedByteBit(vals: seq<nat>, width: nat, i: nat, b: nat)
    requires b < 8
    ensures Bit(PackedByte(vals, width, i), b) == PackedBit(vals, width, 8 * i + b)
  {
    hide Bit, PackedBit, FromBits, Pow2;
    BitOfFromBits((q: nat) => PackedBit(vals, width, q), 8 * i, 8, b);
  }

  lemma PackedBitAt(vals: seq<nat>, width: nat, p: nat)
    requires width > 0 && p < 8 * |PackBits(vals, width)|
    ensures BitAt(PackBits(vals, width), p) == PackedBit(vals, width, p)
  {
    hide Bit, PackedBit, PackedByte;
    var i, b := p / 8, p % 8;
    assert p == 8 * i + b;
    PackedByteBit(vals, width, i, b);
  }

  lemma InRange(i: nat, b: nat, width: nat, n: nat)
    requires i < n && b < width
    ensures i * width + b < 8 * ((width * n + 7) / 8)
  {
    assert width * n == width * (n - i - 1) + width * (i + 1);
    assert width * (n - i - 1) >= 0;
    assert i * width + b < width * (i + 1);
  }

  /** Value `i` read back from the packed bytes. */
  lemma UnpackOne(vals: seq<nat>, width: nat, i: nat, f: nat -> bool, off: nat)
    requires width > 0 && i < |vals| && vals[i] < Pow2(width)
    requires off == i * width && forall p :: f(p) == BitAt(PackBits(vals, width), p)
    ensures FromBits(f, off, width) == vals[i]
  {
    hide Bit, PackedBit, PackedByte, BitAt, Pow2, FromBits;
    forall b | 0 <= b < width ensures f(off + b) == Bit(vals[i], b) {
      InRange(i, b, width, |vals|);
      PackedBitIs(vals, width, i, b);
      PackedBitAt(vals, width, off + b);
    }
    FromBitsOf(f, off, width, vals[i]);
  }

  /** Values that fit the width come back out of the packed bytes. */
  lemma PackRoundTrip(vals: seq<nat>, width: nat)
    requires forall i :: 0 <= i < |vals| ==> vals[i] < Pow2(width)
    ensures UnpackBits(PackBits(vals, width), width, |vals|) == Some(vals)
  {
    if width == 0 {
      assert forall i :: 0 <= i < |vals| ==> vals[i] == 0;
      assert UnpackBits(PackBits(vals, width), width, |vals|).value == vals;
    } else {
      forall i | 0 <= i < |vals|
        ensures FromBits((p: nat) => BitAt(PackBits(vals, width), p), i * width, width) == vals[i]
      {
        UnpackOne(vals, width, i, (p: nat) => BitAt(PackBits(vals, width), p), i * width);
      }
      assert UnpackBits(PackBits(vals, width), width, |vals|).value == vals;
    }
  }

  /** Bits needed for `max`; zero needs none. */
  function BitWidth(max: nat): (w: nat)
    ensures max < Pow2(w)
  {
    if max == 0 then 0 else 1 + BitWidth(max / 2)
  }

  // ---- variable-length integers -------------------------------------------------

  function Uvarint(x: nat): (b: seq<byte>)
    ensures |b| > 0
  {
    if x < 0x80 then [x] else [x % 0x80 + 0x80] + Uvarint(x / 0x80)
  }

  /** Byte `i` of a variable-length integer onwards; ten bytes hold 64 bits, the tenth only one. */
  function ReadUvarintAt(b: seq<byte>, i: nat): Option<(nat, nat)>
    decreases |b|
  {
    if b == [] || i >= 10 then None
    else if b[0] < 0x80 then (if i == 9 && b[0] > 1 then None else Some((b[0], 1)))
    else
      match ReadUvarintAt(b[1..], i + 1)
      case None => None
      case Some((x, n)) => Some((b[0] - 0x80 + 0x80 * x, n + 1))
  }

  /** Value and bytes consumed, or `None` on a truncated or overlong integer. */
  function ReadUvarint(b: seq<byte>): Option<(nat, nat)> {
    ReadUvarintAt(b, 0)
  }

  /** What is left of 64 bits after `i` groups of seven. */
  function Room(i: nat): nat
    requires i <= 9
    decreases 9 - i
  {
    if i == 9 then 2 else 0x80 * Room(i + 1)
  }

  lemma RoomIs64()
    ensures Room(0) == TWO64
  {
    assert Room(6) == 0x1000_0000 / 0x40 * 0x10 / 0x10;
    assert Room(3) == 0x200000 * Room(6);
  }

  lemma {:induction false} UvarintAtRoundTrip(x: nat, rest: seq<byte>, i: nat)
    requires i <= 9 && x < Room(i)
    ensures ReadUvarintAt(Uvarint(x) + rest, i) == Some((x, |Uvarint(x)|))
    decreases x
  {
    var b := Uvarint(x) + rest;
    if x >= 0x80 {
      UvarintAtRoundTrip(x / 0x80, rest, i + 1);
      assert b[1..] == Uvarint(x / 0x80) + rest;
    }
  }

  /** Seven bits a byte, least significant first, the top bit marking all but the last: 150 is 0x96 0x01. */
  lemma KnownVarint()
    ensures Uvarint(150) == [0x96, 0x01] && Uvarint(1) == [0x01]
  {
    assert Uvarint(150 / 0x80) == [0x01];
  }

  lemma UvarintRoundTrip(x: nat, rest: seq<byte>)
    requires IsU64(x)
    ensures ReadUvarint(Uvarint(x) + rest) == Some((x, |Uvarint(x)|))
  {
    RoomIs64();
    UvarintAtRoundTrip(x, rest, 0);
  }

  // ---- signed integers ----------------------------------------------------------

  /** `(v << 1) ^ (v >> 63)` as a uint64: the mask is all ones exactly for a negative `v`. */
  function Zigzag(v: int): (u: nat)
    requires IsI64(v)
    ensures IsU64(u)
  {
    var doubled := I64(2 * v);
    if v < 0 then U64(-doubled - 1) else U64(doubled)
  }

  /** `int64(u >> 1) ^ -int64(u & 1)`. */
  function Unzigzag(u: nat): (v: int)
    requires IsU64(u)
    ensures IsI64(v)
  {
    if u % 2 == 1 then -(u / 2) - 1 else u / 2
  }

  /** Conversion to uint64 forgets multiples of 2^64 only. */
  lemma U64Is(x: int, u: int, k: int)
    requires x == u + k * TWO64 && IsU64(u) && -1 <= k <= 1
    ensures U64(x) == u
  {}

  lemma I64Is(x: int, i: int, k: int)
    requires x == i + k * TWO64 && IsI64(i) && -1 <= k <= 1
    ensures I64(x) == i
  {
    if i >= 0 { U64Is(x, i, k); } else if k >= 0 { U64Is(x - TWO64 * k, i + TWO64, -1); assert x % TWO64 == i + TWO64; }
  }

  /** Wrapping a sum once is wrapping it at every step. */
  lemma I64Adds(x: int, c: int)
    ensures I64(I64(x) + c) == I64(x + c)
  {
    var k := (x - I64(x)) / TWO64;
    assert x == I64(x) + k * TWO64;
    ModShift(I64(x) + c, k);
  }

  lemma ModShift(y: int, k: int)
    ensures (y + k * TWO64) % TWO64 == y % TWO64
  {}

  /** Non-negative numbers become even ones, negative numbers odd ones, although doubling may wrap. */
  lemma ZigzagIs(v: int)
    requires IsI64(v)
    ensures Zigzag(v) == if v < 0 then -2 * v - 1 else 2 * v
  {
    hide U64, I64;
    if v < -TWO63 / 2 {
      I64Is(2 * v, 2 * v + TWO64, -1);
      U64Is(-2 * v - TWO64 - 1, -2 * v - 1, -1);
    } else if v < 0 {
      I64Is(2 * v, 2 * v, 0);
      U64Is(-2 * v - 1, -2 * v - 1, 0);
    } else if v < TWO63 / 2 {
      I64Is(2 * v, 2 * v, 0);
      U64Is(2 * v, 2 * v, 0);
    } else {
      I64Is(2 * v, 2 * v - TWO64, 1);
      U64Is(2 * v - TWO64, 2 * v, -1);
    }
  }

  lemma ZigzagRoundTrip(v: int)
    requires IsI64(v)
    ensures Unzigzag(Zigzag(v)) == v
  {
    hide Zigzag;
    ZigzagIs(v);
  }

  function Varint(v: int): seq<byte>
    requires IsI64(v)
  {
    Uvarint(Zigzag(v))
  }

  function ReadVarint(b: seq<byte>): (r: Option<(int, nat)>) {
    match ReadUvarint(b)
    case None => None
    case Some((u, n)) => if IsU64(u) then Some((Unzigzag(u), n)) else None
  }

  lemma VarintRoundTrip(v: int, rest: seq<byte>)
    requires IsI64(v)
    ensures ReadVarint(Varint(v) + rest) == Some((v, |Varint(v)|))
  {
    UvarintRoundTrip(Zigzag(v), rest);
    ZigzagRoundTrip(v);
  }

  // ---- fixed-width integers -----------------------------------------------------

  /** `n` bytes of `x`, least significant first. */
  function LittleEndian(x: nat, n: nat): (b: seq<byte>)
    ensures |b| == n
    decreases n
  {
    if n == 0 then [] else [x % 0x100] + LittleEndian(x / 0x100, n - 1)
  }

  function ReadLittleEndian(b: seq<byte>): nat {
    if b == [] then 0 else b[0] + 0x100 * ReadLittleEndian(b[1..])
  }

  function Pow256(n: nat): (p: nat)
    ensures p > 0
  {
    if n == 0 then 1 else 0x100 * Pow256(n - 1)
  }

  lemma {:induction false} LittleEndianRoundTrip(x: nat, n: nat)
    requires x < Pow256(n)
    ensures ReadLittleEndian(LittleEndian(x, n)) == x
    decreases n
  {
    if n > 0 {
      LittleEndianRoundTrip(x / 0x100, n - 1);
      assert LittleEndian(x, n)[1..] == LittleEndian(x / 0x100, n - 1);
    }
  }

  lemma Pow256Is()
    ensures Pow256(8) == TWO64 && Pow256(4) == 0x1_0000_0000
  {
    assert Pow256(4) == 0x1_0000_0000;
  }
}
