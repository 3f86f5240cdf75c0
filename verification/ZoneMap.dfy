/**
 Zone maps: the minimum and maximum a segment keeps, and when a range predicate may skip
 the whole segment without decoding it.
 */
module ZoneMap {
  import opened Common
  import opened Float64
  import opened ColumnCodec
  import Bson
  import BsonOrder

  datatype Op = Gt | Gte | Lt | Lte | Eq

  datatype Pred = Pred(op: Op, bound: Value)

  predicate Numeric(v: Value) { v.Int? || v.Bool? || v.Float? }

  /** The double a numeric value is compared as; bools count as 0 and 1. */
  function AsFloat(v: Value): F64
    requires Numeric(v)
  {
    if v.Float? then ToF64(v.bits) else Fin(FloatOfInt(v.i))
  }

  /** Order within a family, numbers or strings; `None` across families. */
  function Compare(a: Value, b: Value): Option<int> {
    if Numeric(a) then (if Numeric(b) then Some(Cmp(AsFloat(a), AsFloat(b))) else None)
    else if a.Str? && b.Str? then Some(Bson.CmpBytes(a.s, b.s))
    else None
  }

  predicate ZoneComparable(v: Value) { Numeric(v) || v.Str? }

  predicate Matches(p: Pred, v: Value) {
    var c := Compare(v, p.bound);
    c.Some? &&
    match p.op
    case Gt => c.value > 0
    case Gte => c.value >= 0
    case Lt => c.value < 0
    case Lte => c.value <= 0
    case Eq => c.value == 0
  }

  // ---- what each operator means ------------------------------------------------------------

  /** Between numbers the operators compare the doubles they stand for. */
  lemma NumbersMatch(b: Value, v: Value)
    requires Numeric(v) && Numeric(b) && !AsFloat(v).NaN? && !AsFloat(b).NaN?
    ensures Matches(Pred(Eq, b), v) <==> AsFloat(v) == AsFloat(b)
    ensures Matches(Pred(Lt, b), v) <==> BsonOrder.NumberBelow(AsFloat(v), AsFloat(b))
    ensures Matches(Pred(Gt, b), v) <==> BsonOrder.NumberBelow(AsFloat(b), AsFloat(v))
    ensures Matches(Pred(Lte, b), v) <==> Matches(Pred(Lt, b), v) || Matches(Pred(Eq, b), v)
    ensures Matches(Pred(Gte, b), v) <==> Matches(Pred(Gt, b), v) || Matches(Pred(Eq, b), v)
  {
    hide AsFloat;
  }

  /** A NaN on either side ties. */
  lemma NaNMatches(p: Pred, v: Value)
    requires Numeric(v) && Numeric(p.bound) && (AsFloat(v).NaN? || AsFloat(p.bound).NaN?)
    ensures Matches(p, v) <==> p.op.Eq? || p.op.Lte? || p.op.Gte?
  {
    hide AsFloat;
  }

  /** Between strings they compare the bytes. */
  lemma StringsMatch(b: Value, v: Value)
    requires v.Str? && b.Str?
    ensures Matches(Pred(Eq, b), v) <==> v.s == b.s
    ensures Matches(Pred(Lt, b), v) <==> BsonOrder.BytesBefore(v.s, b.s)
    ensures Matches(Pred(Gt, b), v) <==> BsonOrder.BytesBefore(b.s, v.s)
    ensures Matches(Pred(Lte, b), v) <==> Matches(Pred(Lt, b), v) || Matches(Pred(Eq, b), v)
    ensures Matches(Pred(Gte, b), v) <==> Matches(Pred(Gt, b), v) || Matches(Pred(Eq, b), v)
  {
    hide BsonOrder.BytesBefore;
    BsonOrder.BytesOrder(v.s, b.s);
  }

  /** A value matches only a bound of its own family. */
  lemma FamiliesMatch(p: Pred, v: Value)
    requires Matches(p, v)
    ensures (Numeric(v) && Numeric(p.bound)) || (v.Str? && p.bound.Str?)
  {}

  datatype Zone = Zone(min: Value, max: Value)

  /** The zone after one more value. */
  function Widen(z: Zone, v: Value): Zone {
    var lo, hi := Compare(v, z.min), Compare(v, z.max);
    Zone(if lo.Some? && lo.value < 0 then v else z.min, if hi.Some? && hi.value > 0 then v else z.max)
  }

  function WidenAll(z: Zone, vals: seq<Value>): Option<Zone>
    decreases |vals|
  {
    if vals == [] then Some(z)
    else if vals[0].Null? then WidenAll(z, vals[1..])
    else if !ZoneComparable(vals[0]) then None
    else WidenAll(Widen(z, vals[0]), vals[1..])
  }

  /** Minimum and maximum of the non-null values, absent when there are none or one is opaque. */
  function ZoneOf(vals: seq<Value>): Option<Zone> {
    if vals == [] then None
    else if vals[0].Null? then ZoneOf(vals[1..])
    else if !ZoneComparable(vals[0]) then None
    else WidenAll(Zone(vals[0], vals[0]), vals[1..])
  }

  predicate Skips(zone: Option<Zone>, p: Pred) {
    zone.Some? &&
    match p.op
    case Gt => var c := Compare(zone.value.max, p.bound); c.Some? && c.value <= 0
    case Gte => var c := Compare(zone.value.max, p.bound); c.Some? && c.value < 0
    case Lt => var c := Compare(zone.value.min, p.bound); c.Some? && c.value >= 0
    case Lte => var c := Compare(zone.value.min, p.bound); c.Some? && c.value > 0
    case Eq => false
  }

  /** The loop that computes a segment's zone. */
  method ComputeZone(vals: seq<Value>) returns (zone: Option<Zone>)
    ensures zone == ZoneOf(vals)
  {
    zone := None;
    for i := 0 to |vals|
      invariant ZoneOf(vals) == if zone.None? then ZoneOf(vals[i..]) else WidenAll(zone.value, vals[i..])
    {
      assert vals[i..][1..] == vals[i + 1..];
      if !vals[i].Null? {
        if !ZoneComparable(vals[i]) { return None; }
        zone := if zone.None? then Some(Zone(vals[i], vals[i])) else Some(Widen(zone.value, vals[i]));
      }
    }
  }

  // ---- pruning is a pure skip --------------------------------------------------------

  predicate IsNaN(v: Value) { v.Float? && ToF64(v.bits).NaN? }

  /** Within a family and away from NaN, `Compare` is a total preorder. */
  lemma CompareOrders(a: Value, b: Value, c: Value)
    requires !IsNaN(a) && !IsNaN(b) && !IsNaN(c)
    requires Compare(a, b).Some? && Compare(b, c).Some?
    ensures Compare(b, a) == Some(-Compare(a, b).value) && Compare(a, c).Some?
    ensures Compare(a, b).value <= 0 && Compare(b, c).value <= 0 ==> Compare(a, c).value <= 0
  {
    hide Bson.CmpBytes, ToF64;
    if Numeric(a) {
      CmpOrders(AsFloat(a), AsFloat(b), AsFloat(c));
    } else {
      Bson.BytesFit(a.s, b.s, c.s);
    }
  }

  /** The zone bounds every seen value of its own family, and never mixes families. */
  ghost predicate Bounds(z: Zone, v: Value) {
    && (Compare(v, z.min).Some? <==> Compare(v, z.max).Some?)
    && (Compare(v, z.min).Some? ==> Compare(v, z.min).value >= 0 && Compare(v, z.max).value <= 0)
  }

  ghost predicate ZoneOk(z: Zone) {
    && !IsNaN(z.min) && !IsNaN(z.max) && ZoneComparable(z.min) && ZoneComparable(z.max)
    && (Numeric(z.min) <==> Numeric(z.max))
  }

  /** Every reordering of three values of one family. */
  lemma CompareAll(a: Value, b: Value, c: Value)
    requires !IsNaN(a) && !IsNaN(b) && !IsNaN(c)
    requires Compare(a, b).Some? && Compare(b, c).Some?
    ensures Compare(a, c).Some? && Compare(c, b).Some? && Compare(c, a).Some? && Compare(b, a).Some?
    ensures Compare(b, a).value == -Compare(a, b).value && Compare(c, b).value == -Compare(b, c).value
    ensures Compare(c, a).value == -Compare(a, c).value
    ensures Compare(a, b).value <= 0 && Compare(b, c).value <= 0 ==> Compare(a, c).value <= 0
    ensures Compare(a, b).value >= 0 && Compare(b, c).value >= 0 ==> Compare(a, c).value >= 0
  {
    hide Bson.CmpBytes, ToF64;
    CompareOrders(a, b, c);
    CompareOrders(b, c, a);
    CompareOrders(c, b, a);
    CompareOrders(a, c, b);
  }

  /** A NaN ties with both ends, so it never moves them; anything else ends up inside. */
  lemma WidenBounds(z: Zone, v: Value, u: Value)
    requires ZoneOk(z) && ZoneComparable(v) && !IsNaN(u)
    ensures ZoneOk(Widen(z, v))
    ensures Numeric(Widen(z, v).min) == Numeric(z.min)
    ensures Bounds(z, u) || u == v ==> Bounds(Widen(z, v), u)
  {
    hide Bson.CmpBytes, ToF64;
    if IsNaN(v) {
      assert Widen(z, v) == z;
    } else {
      WidenNumber(z, v, u);
    }
  }

  lemma WidenNumber(z: Zone, v: Value, u: Value)
    requires ZoneOk(z) && ZoneComparable(v) && !IsNaN(v) && !IsNaN(u)
    ensures ZoneOk(Widen(z, v))
    ensures Numeric(Widen(z, v).min) == Numeric(z.min)
    ensures Bounds(Widen(z, v), v)
    ensures Bounds(z, u) ==> Bounds(Widen(z, v), u)
  {
    hide Bson.CmpBytes, Cmp, ToF64;
    CompareSelf(v);
    if Compare(v, z.min).Some? {
      CompareAll(v, z.min, z.max);
      if Compare(u, z.min).Some? {
        CompareAll(v, z.min, u);
        CompareAll(v, z.max, u);
      }
    }
  }

  lemma CompareSelf(v: Value)
    requires !IsNaN(v) && ZoneComparable(v)
    ensures Compare(v, v) == Some(0)
  {
    hide Bson.CmpBytes, ToF64;
    if Numeric(v) {
      CmpOrders(AsFloat(v), AsFloat(v), AsFloat(v));
    } else {
      Bson.BytesFit(v.s, v.s, v.s);
    }
  }

  /** The first non-null value, which decides the zone's family. */
  function Lead(vals: seq<Value>): Value {
    if vals == [] then Null else if vals[0].Null? then Lead(vals[1..]) else vals[0]
  }

  lemma {:induction false} WidenAllBounds(z: Zone, vals: seq<Value>, u: Value)
    requires ZoneOk(z) && !IsNaN(u) && WidenAll(z, vals).Some?
    ensures ZoneOk(WidenAll(z, vals).value) && Numeric(WidenAll(z, vals).value.min) == Numeric(z.min)
    ensures Bounds(z, u) || (u in vals && !u.Null?) ==> Bounds(WidenAll(z, vals).value, u)
    decreases |vals|
  {
    hide Bounds, ZoneOk, Widen;
    if vals != [] {
      if vals[0].Null? {
        WidenAllBounds(z, vals[1..], u);
      } else {
        WidenBounds(z, vals[0], u);
        WidenAllBounds(Widen(z, vals[0]), vals[1..], u);
      }
    }
  }

  lemma {:induction false} ZoneBounds(vals: seq<Value>, u: Value)
    requires !IsNaN(Lead(vals)) && !IsNaN(u) && ZoneOf(vals).Some?
    ensures ZoneOk(ZoneOf(vals).value) && Numeric(ZoneOf(vals).value.min) == Numeric(Lead(vals))
    ensures u in vals && !u.Null? ==> Bounds(ZoneOf(vals).value, u)
    decreases |vals|
  {
    hide Bson.CmpBytes, Cmp, ToF64;
    if vals[0].Null? {
      ZoneBounds(vals[1..], u);
    } else {
      CompareSelf(vals[0]);
      WidenAllBounds(Zone(vals[0], vals[0]), vals[1..], u);
    }
  }

  /** A zone that starts at NaN stays there: nothing compares below or above it. */
  lemma {:induction false} NaNSticks(z: Zone, vals: seq<Value>)
    requires IsNaN(z.min) && IsNaN(z.max) && WidenAll(z, vals).Some?
    ensures WidenAll(z, vals).value == z
    decreases |vals|
  {
    hide Bson.CmpBytes, ToF64;
    if vals != [] {
      if !vals[0].Null? {
        assert Widen(z, vals[0]) == z;
      }
      NaNSticks(z, vals[1..]);
    }
  }

  lemma {:induction false} NaNZone(vals: seq<Value>)
    requires IsNaN(Lead(vals)) && ZoneOf(vals).Some?
    ensures ZoneOf(vals).value == Zone(Lead(vals), Lead(vals))
    decreases |vals|
  {
    hide ToF64, Compare;
    if vals[0].Null? {
      NaNZone(vals[1..]);
    } else {
      NaNSticks(Zone(vals[0], vals[0]), vals[1..]);
    }
  }

  /** Skipping never loses a row: whatever the predicate, a skipped segment holds no match. */
  ghost predicate PruningSound(vals: seq<Value>) {
    forall p, u :: u in vals && Skips(ZoneOf(vals), p) ==> !Matches(p, u)
  }

  ghost predicate HasNaN(vals: seq<Value>) {
    exists u :: u in vals && IsNaN(u)
  }

  ghost predicate Has(vals: seq<Value>, f: F64) {
    exists u :: u in vals && Numeric(u) && AsFloat(u) == f
  }

  /** No zone is kept: there is no value, or one of a kind zones do not cover. */
  ghost predicate Zoneless(vals: seq<Value>) {
    (forall u :: u in vals ==> u.Null?) || (exists u :: u in vals && !u.Null? && !ZoneComparable(u))
  }

  /**
   When a segment's zone map may be trusted. A NaN spoils a numeric zone, because NaN ties
   with every bound while moving neither end: harmless only if both infinities are there to make
   the ends infinite, or if every number in the segment is a NaN.
   */
  ghost predicate Prunable(vals: seq<Value>) {
    || Zoneless(vals)
    || !Numeric(Lead(vals))
    || !HasNaN(vals)
    || (if IsNaN(Lead(vals)) then forall u :: u in vals && Numeric(u) ==> IsNaN(u)
        else Has(vals, Inf(true)) && Has(vals, Inf(false)))
  }

  /** The same in terms of the zone computed. */
  ghost predicate Trusted(vals: seq<Value>) {
    var zone := ZoneOf(vals);
    || zone.None?
    || !Numeric(Lead(vals))
    || (IsNaN(Lead(vals)) && forall u :: u in vals && Numeric(u) ==> IsNaN(u))
    || (!IsNaN(Lead(vals)) && !HasNaN(vals))
    || (!IsNaN(Lead(vals)) && Numeric(zone.value.min) && Numeric(zone.value.max)
        && AsFloat(zone.value.min) == Inf(true) && AsFloat(zone.value.max) == Inf(false))
  }

  lemma {:induction false} WidenAllOpaque(z: Zone, vals: seq<Value>)
    ensures WidenAll(z, vals).None? <==> exists u :: u in vals && !u.Null? && !ZoneComparable(u)
    decreases |vals|
  {
    hide Widen;
    if vals != [] {
      WidenAllOpaque(if vals[0].Null? then z else Widen(z, vals[0]), vals[1..]);
      assert vals == [vals[0]] + vals[1..];
    }
  }

  lemma {:induction false} ZonelessIff(vals: seq<Value>)
    ensures ZoneOf(vals).None? <==> Zoneless(vals)
    decreases |vals|
  {
    hide WidenAll;
    if vals != [] {
      assert vals == [vals[0]] + vals[1..];
      if vals[0].Null? {
        ZonelessIff(vals[1..]);
      } else if ZoneComparable(vals[0]) {
        WidenAllOpaque(Zone(vals[0], vals[0]), vals[1..]);
      }
    }
  }

  lemma {:induction false} WidenAllEnds(z: Zone, vals: seq<Value>)
    requires WidenAll(z, vals).Some?
    ensures var r := WidenAll(z, vals).value; (r.min == z.min || r.min in vals) && (r.max == z.max || r.max in vals)
    decreases |vals|
  {
    hide Compare;
    if vals != [] {
      WidenAllEnds(if vals[0].Null? then z else Widen(z, vals[0]), vals[1..]);
    }
  }

  /** The zone's ends are values of the segment. */
  lemma {:induction false} ZoneEnds(vals: seq<Value>)
    requires ZoneOf(vals).Some?
    ensures ZoneOf(vals).value.min in vals && ZoneOf(vals).value.max in vals
    decreases |vals|
  {
    hide Compare;
    if vals[0].Null? { ZoneEnds(vals[1..]); } else { WidenAllEnds(Zone(vals[0], vals[0]), vals[1..]); }
  }

  /** The ends are infinite exactly when the infinities are among the values. */
  lemma InfiniteEnds(vals: seq<Value>)
    requires ZoneOf(vals).Some? && Numeric(Lead(vals)) && !IsNaN(Lead(vals))
    ensures var z := ZoneOf(vals).value;
            && Numeric(z.min) && Numeric(z.max)
            && (AsFloat(z.min) == Inf(true) <==> Has(vals, Inf(true)))
            && (AsFloat(z.max) == Inf(false) <==> Has(vals, Inf(false)))
  {
    hide ZoneOf, ToF64, Bson.CmpBytes, FloatOfInt;
    var z := ZoneOf(vals).value;
    ZoneEnds(vals);
    ZoneBounds(vals, Null);
    if u :| u in vals && Numeric(u) && AsFloat(u) == Inf(true) { ZoneBounds(vals, u); }
    if u :| u in vals && Numeric(u) && AsFloat(u) == Inf(false) { ZoneBounds(vals, u); }
  }

  lemma PrunableIsTrusted(vals: seq<Value>)
    ensures Prunable(vals) <==> Trusted(vals)
  {
    hide ZoneOf, ToF64, Zoneless, Has, FloatOfInt;
    ZonelessIff(vals);
    LeadIn(vals);
    if !Zoneless(vals) && Numeric(Lead(vals)) && !IsNaN(Lead(vals)) { InfiniteEnds(vals); }
  }

  lemma SkipContradicts(z: Zone, p: Pred, u: Value)
    requires ZoneOk(z) && Bounds(z, u) && !IsNaN(u)
    requires Skips(Some(z), p)
    ensures !Matches(p, u)
  {
    hide Bson.CmpBytes, ToF64;
    if Compare(u, p.bound).Some? {
      if IsNaN(p.bound) {
      } else if p.op.Gt? || p.op.Gte? {
        CompareOrders(u, z.max, p.bound);
        CompareOrders(z.max, p.bound, z.max);
        CompareOrders(p.bound, u, z.max);
      } else if p.op.Lt? || p.op.Lte? {
        CompareOrders(p.bound, z.min, u);
        CompareOrders(z.min, u, p.bound);
        CompareOrders(u, p.bound, z.min);
      }
    }
  }

  /** A trusted segment the zone map skips holds no value the predicate accepts. */
  lemma SkipIsPure(vals: seq<Value>, p: Pred, u: Value)
    requires Prunable(vals) && u in vals && Skips(ZoneOf(vals), p)
    ensures !Matches(p, u)
  {
    PrunableIsTrusted(vals);
    hide Bson.CmpBytes, ToF64, ZoneOf, Prunable;
    if !u.Null? {
      var z := ZoneOf(vals).value;
      if IsNaN(Lead(vals)) {
        NaNZone(vals);
      } else {
        ZoneBounds(vals, if IsNaN(u) then Null else u);
        if !IsNaN(u) {
          SkipContradicts(z, p, u);
        }
      }
    }
  }

  const POS_INF := Float(0x7FF0_0000_0000_0000)
  const NEG_INF := Float(0xFFF0_0000_0000_0000)

  lemma Infinities()
    ensures ToF64(POS_INF.bits) == Inf(false) && ToF64(NEG_INF.bits) == Inf(true)
  {}

  /** The predicate and the lost row that show an untrusted segment unsound. */
  lemma LostRow(vals: seq<Value>) returns (p: Pred, u: Value)
    requires !Prunable(vals)
    ensures u in vals && Skips(ZoneOf(vals), p) && Matches(p, u)
  {
    PrunableIsTrusted(vals);
    hide Bson.CmpBytes, ToF64, ZoneOf, Prunable;
    Infinities();
    var z := ZoneOf(vals).value;
    if IsNaN(Lead(vals)) {
      NaNZone(vals);
      u :| u in vals && Numeric(u) && !IsNaN(u);
      p := if AsFloat(u) == Inf(true) then Pred(Lt, POS_INF) else Pred(Gt, NEG_INF);
    } else {
      ZoneBounds(vals, Null);
      u :| u in vals && IsNaN(u);
      p := if AsFloat(z.max) == Inf(false) then Pred(Lte, NEG_INF) else Pred(Gte, POS_INF);
    }
  }

  /** Zone-map pruning is sound for every predicate exactly on the segments `Prunable` describes. */
  lemma PruningSoundIff(vals: seq<Value>)
    ensures PruningSound(vals) <==> Prunable(vals)
  {
    hide Prunable, Skips, Matches, ZoneOf;
    if Prunable(vals) {
      forall p, u | u in vals && Skips(ZoneOf(vals), p) ensures !Matches(p, u) {
        SkipIsPure(vals, p, u);
      }
    } else {
      var p, u := LostRow(vals);
    }
  }

  /** Without NaN every segment, whatever kinds it mixes, may be skipped on its zone. */
  lemma NaNFreeSound(vals: seq<Value>)
    requires !HasNaN(vals)
    ensures PruningSound(vals)
  {
    hide PruningSound;
    PruningSoundIff(vals);
  }

  lemma {:induction false} LeadIn(vals: seq<Value>)
    ensures Lead(vals) in vals || Lead(vals).Null?
  {
    if vals != [] && vals[0].Null? { LeadIn(vals[1..]); }
  }
}
