/** The canonical strings that grouping and hash joins bucket values by. */
module GroupKey {
  import opened Common
  import opened Bits
  import opened Float64
  import opened Bson
  import opened BsonCodec

  const INTEGRAL_LIMIT := 9_200_000_000_000_000_000

  function FormatInt(i: int): Bytes { if i < 0 then [0x2D] + Itoa(-i) else Itoa(i) }

  function HexDigit(d: nat): byte
    requires d < 16
  {
    if d < 10 then 0x30 + d else 0x61 + d - 10
  }

  function FormatHex(u: nat): Bytes {
    if u < 16 then [HexDigit(u)] else FormatHex(u / 16) + [HexDigit(u % 16)]
  }

  /** The integer a double equals, when it is integral and safely inside int64. */
  function Integral(f: F64): Option<int> {
    if f.Fin? && f.r == f.r.Floor as real
        && -INTEGRAL_LIMIT as real <= f.r <= INTEGRAL_LIMIT as real then Some(f.r.Floor) else None
  }

  function DoubleKey(bits: int): Bytes {
    match Integral(ToF64(bits))
    case Some(i) => [0x49] + FormatInt(i)
    case None => [0x46] + FormatHex(U64(bits))
  }

  /** Numbers of any type coincide when integral; documents and arrays recurse without escaping. */
  function WriteKey(v: Value): Bytes
    decreases v, 1
  {
    match v
    case Missing => [0x5A] case Null => [0x5A] case Undefined => [0x5A]
    case Int32(i) => [0x49] + FormatInt(i)
    case Int64(i) => [0x49] + FormatInt(i)
    case Double(bits) => DoubleKey(bits)
    case Boolean(b) => [0x42, if b then 0x31 else 0x30]
    case String(s) => [0x53] + s
    case Document(es) => [0x7B] + WriteElems(es) + [0x7D]
    case Array(xs) => [0x5B] + WriteItems(xs) + [0x5D]
    case _ => [0x52, TypeByte(v)] + Payload(v)
  }

  function WriteElems(es: seq<Elem>): Bytes
    decreases es, 0
  {
    if es == [] then [] else es[0].key + [0x3D] + WriteKey(es[0].value) + [0x2C] + WriteElems(es[1..])
  }

  function WriteItems(xs: seq<Value>): Bytes
    decreases xs, 0
  {
    if xs == [] then [] else WriteKey(xs[0]) + [0x2C] + WriteItems(xs[1..])
  }
}
