/** How BSON values collapse to column values and come back for output. */
module ColumnValue {
  import opened Common
  import opened Bits
  import opened Float64
  import B = Bson
  import opened BsonCodec
  import C = ColumnCodec

  /**
   Missing and null-like values are null; integers, dates and timestamps are one kind; the rest stays
   opaque bytes.
   */
  function FromRaw(v: B.Value): C.Value {
    match v
    case Missing => C.Null case Null => C.Null case Undefined => C.Null
    case Boolean(b) => C.Bool(if b then 1 else 0)
    case Int32(i) => C.Int(i)
    case Int64(i) => C.Int(i)
    case DateTime(t) => C.Int(t)
    case Timestamp(u) => C.Int(I64(u))
    case Double(bits) => C.Float(bits)
    case String(s) => C.Str(s)
    case _ => C.Other(TypeByte(v), Payload(v))
  }

  /** A column value as BSON again; integers come back as int64, opaque bytes as whatever they were. */
  function ToRaw(c: C.Value): B.Value {
    match c
    case Null => B.Null
    case Bool(i) => B.Boolean(i != 0)
    case Int(i) => B.Int64(i)
    case Float(bits) => B.Double(bits)
    case Str(s) => B.String(s)
    case Other(t, s) => match ValueOf(RawValue(t, s)) case Some(v) => v case None => B.Missing
  }

  /** Column values that some storable BSON value projects to. */
  ghost predicate Stored(c: C.Value) {
    exists v: B.Value :: (v.Missing? || Encodable(v)) && FromRaw(v) == c
  }

  predicate IntLike(v: B.Value) { v.Int32? || v.Int64? || v.DateTime? || v.Timestamp? }
  predicate NullLike(v: B.Value) { v.Missing? || v.Null? || v.Undefined? }

  function AsInt(v: B.Value): int
    requires IntLike(v)
  {
    match v case Int32(i) => i case Int64(i) => i case DateTime(t) => t case Timestamp(u) => I64(u)
  }

  /** Projection loses nothing but numeric width, and merges the integer-like types and the null-like ones. */
  lemma ProjectionReturns(v: B.Value)
    requires v.Missing? || Encodable(v)
    ensures ToRaw(FromRaw(v)) == if IntLike(v) then B.Int64(AsInt(v)) else if NullLike(v) then B.Null else v
  {
    hide ValueOf, Payload, Encodable, I64;
    if FromRaw(v).Other? {
      TreeReadsBack(v);
    }
  }

  /** Projecting again changes nothing, so a rebuilt document reads like the column it came from. */
  lemma ProjectionStable(c: C.Value)
    requires Stored(c)
    ensures FromRaw(ToRaw(c)) == c && !ToRaw(c).Missing?
  {
    hide ValueOf, Payload, Encodable, I64;
    var v: B.Value :| (v.Missing? || Encodable(v)) && FromRaw(v) == c;
    ProjectionReturns(v);
  }

  lemma ProjectionKinds(v: B.Value)
    ensures FromRaw(v).Int? <==> IntLike(v)
    ensures FromRaw(v).Null? <==> NullLike(v)
    ensures IntLike(v) ==> FromRaw(v).i == AsInt(v)
  {}

  /**
   Exactly which identities the store's identity key confuses: integers, dates and
   timestamps of one int64 value, and the null-like values.
   */
  lemma IdentityKeysCollide(a: B.Value, b: B.Value)
    requires (a.Missing? || Encodable(a)) && (b.Missing? || Encodable(b))
    requires C.WellFormed(FromRaw(a)) && C.WellFormed(FromRaw(b))
    ensures C.StrictKey(FromRaw(a)) == C.StrictKey(FromRaw(b)) <==>
              a == b || (IntLike(a) && IntLike(b) && AsInt(a) == AsInt(b)) || (NullLike(a) && NullLike(b))
  {
    hide FromRaw, ToRaw, Encodable, C.StrictKey, C.WellFormed, AsInt;
    ProjectionKinds(a);
    ProjectionKinds(b);
    if C.StrictKey(FromRaw(a)) == C.StrictKey(FromRaw(b)) {
      C.StrictKeyInjective(FromRaw(a), FromRaw(b));
      ProjectionReturns(a);
      ProjectionReturns(b);
    }
  }
}
