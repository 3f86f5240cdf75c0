/**
 Column values and the six column encodings: what EncodeColumn writes and DecodeColumn
 reads, and the proof that reading undoes writing whichever encoding is the smallest.
 */
module ColumnCodec {
  import opened Common
  import opened Bits

  /** One projected field value; a double is its 64 IEEE bits. */
  datatype Value =
    | Null
    | Bool(i: int)
    | Int(i: int)
    | Float(bits: int)
    | Str(s: seq<byte>)
    | Other(tag: byte, s: seq<byte>)

  /** The values a projection produces. */
  predicate WellFormed(v: Value) {
    match v
    case Null => true
    case Bool(i) => i == 0 || i == 1
    case Int(i) => IsI64(i)
    case Float(b) => IsU64(b)
    case Str(s) => |s| < TWO63
    case Other(_, s) => |s| < TWO63
  }

  ghost predicate Column(vals: seq<Value>) {
    |vals| < TWO63 && forall i :: 0 <= i < |vals| ==> WellFormed(vals[i])
  }

  function Kind(v: Value): byte {
    match v case Null => 0 case Bool(_) => 1 case Int(_) => 2 case Float(_) => 3 case Str(_) => 4 case Other(_, _) => 5
  }

  /** UTF-8 of a code point below 256, which is what converting a byte to a string gives. */
  function Utf8(c: byte): seq<byte> {
    if c < 0x80 then [c] else [0xC0 + c / 0x40, 0x80 + c % 0x40]
  }

  /** The key dictionary and run-length encoding compare values by. */
  function StrictKey(v: Value): seq<byte> {
    match v
    case Null => [0x7A]
    case Bool(i) => if i != 0 then [0x62, 0x31] else [0x62, 0x30]
    case Int(i) => [0x69] + LittleEndian(U64(i), 8)
    case Float(b) => [0x66] + LittleEndian(U64(b), 8)
    case Str(s) => [0x73] + s
    case Other(t, s) => [0x6F] + Utf8(t) + s
  }

  lemma FixedInjective(x: nat, y: nat)
    requires IsU64(x) && IsU64(y) && LittleEndian(x, 8) == LittleEndian(y, 8)
    ensures x == y
  {
    Pow256Is();
    LittleEndianRoundTrip(x, 8);
    LittleEndianRoundTrip(y, 8);
  }

  lemma Utf8PrefixFree(a: byte, x: seq<byte>, b: byte, y: seq<byte>)
    requires Utf8(a) + x == Utf8(b) + y
    ensures a == b && x == y
  {
    var l, r := Utf8(a) + x, Utf8(b) + y;
    assert l[0] == r[0];
    assert |Utf8(a)| == |Utf8(b)|;
    if a >= 0x80 { assert l[1] == r[1]; }
    assert l[|Utf8(a)|..] == x && r[|Utf8(a)|..] == y;
  }

  /** Values with equal keys are the same value. */
  lemma StrictKeyInjective(a: Value, b: Value)
    requires WellFormed(a) && WellFormed(b) && StrictKey(a) == StrictKey(b)
    ensures a == b
  {
    hide LittleEndian, Utf8;
    var ka, kb := StrictKey(a), StrictKey(b);
    assert ka[0] == kb[0];
    match a
    case Int(i) =>
      assert ka[1..] == LittleEndian(U64(i), 8) && kb[1..] == LittleEndian(U64(b.i), 8);
      FixedInjective(U64(i), U64(b.i));
    case Float(f) =>
      assert ka[1..] == LittleEndian(U64(f), 8) && kb[1..] == LittleEndian(U64(b.bits), 8);
      FixedInjective(f, b.bits);
    case Str(s) =>
      assert ka[1..] == s && kb[1..] == b.s;
    case Other(t, s) =>
      assert ka[1..] == Utf8(t) + s && kb[1..] == Utf8(b.tag) + b.s;
      Utf8PrefixFree(t, s, b.tag, b.s);
    case Bool(i) => assert ka[1] == kb[1];
    case Null =>
  }

  // ---- single values -------------------------------------------------------------

  function PutValue(v: Value): (b: seq<byte>)
    requires WellFormed(v)
    ensures |b| > 0
  {
    [Kind(v)] +
    match v
    case Null => []
    case Bool(i) => Varint(i)
    case Int(i) => Varint(i)
    case Float(f) => LittleEndian(f, 8)
    case Str(s) => Uvarint(|s|) + s
    case Other(t, s) => [t] + Uvarint(|s|) + s
  }

  /** A length-prefixed string. */
  function GetString(b: seq<byte>): Option<(seq<byte>, nat)> {
    match ReadUvarint(b)
    case None => None
    case Some((ln, k)) => if k <= |b| && ln <= |b| - k then Some((b[k..k + ln], k + ln)) else None
  }

  /** One value and the bytes it took, or `None` on a short or malformed buffer. */
  function GetValue(b: seq<byte>): (r: Option<(Value, nat)>) {
    if b == [] then None
    else
      var body := b[1..];
      if b[0] == 0 then Some((Null, 1))
      else if b[0] == 1 || b[0] == 2 then
        match ReadVarint(body)
        case None => None
        case Some((i, n)) => Some((if b[0] == 1 then Bool(i) else Int(i), 1 + n))
      else if b[0] == 3 then
        if |body| < 8 then None else Some((Float(ReadLittleEndian(body[..8])), 9))
      else if b[0] == 4 then
        match GetString(body)
        case None => None
        case Some((s, n)) => Some((Str(s), 1 + n))
      else if b[0] == 5 && body != [] then
        match GetString(body[1..])
        case None => None
        case Some((s, n)) => Some((Other(body[0], s), 2 + n))
      else None
  }

  lemma StringRoundTrip(s: seq<byte>, rest: seq<byte>)
    requires |s| < TWO63
    ensures GetString(Uvarint(|s|) + s + rest) == Some((s, |Uvarint(|s|)| + |s|))
  {
    hide Uvarint, ReadUvarintAt;
    UvarintRoundTrip(|s|, s + rest);
    var u := Uvarint(|s|);
    assert u + s + rest == u + (s + rest);
    assert (u + s + rest)[|u|..|u| + |s|] == s;
  }

  lemma IntRoundTrip(kind: byte, i: int, rest: seq<byte>)
    requires IsI64(i) && (kind == 1 || kind == 2)
    ensures GetValue([kind] + Varint(i) + rest) == Some((if kind == 1 then Bool(i) else Int(i), 1 + |Varint(i)|))
  {
    hide Varint, ReadVarint;
    VarintRoundTrip(i, rest);
    assert ([kind] + Varint(i) + rest)[1..] == Varint(i) + rest;
  }

  lemma FloatRoundTrip(f: int, rest: seq<byte>)
    requires IsU64(f)
    ensures GetValue([3] + LittleEndian(f, 8) + rest) == Some((Float(f), 9))
  {
    hide LittleEndian, ReadLittleEndian;
    Pow256Is();
    LittleEndianRoundTrip(f, 8);
    assert ([3] + LittleEndian(f, 8) + rest)[1..][..8] == LittleEndian(f, 8);
  }

  lemma ValueRoundTrip(v: Value, rest: seq<byte>)
    requires WellFormed(v)
    ensures GetValue(PutValue(v) + rest) == Some((v, |PutValue(v)|))
  {
    hide Uvarint, Varint, ReadVarint, ReadUvarint, LittleEndian, ReadLittleEndian, GetString;
    var b := PutValue(v) + rest;
    match v
    case Null =>
    case Bool(i) => IntRoundTrip(1, i, rest);
    case Int(i) => IntRoundTrip(2, i, rest);
    case Float(f) => FloatRoundTrip(f, rest);
    case Str(s) =>
      StringRoundTrip(s, rest);
      assert b[1..] == Uvarint(|s|) + s + rest;
    case Other(t, s) =>
      StringRoundTrip(s, rest);
      assert b[1..] == [t] + (Uvarint(|s|) + s + rest);
      assert b[1..][1..] == Uvarint(|s|) + s + rest;
  }

  // ---- plain ---------------------------------------------------------------------

  function PlainBody(vals: seq<Value>): seq<byte>
    requires forall i :: 0 <= i < |vals| ==> WellFormed(vals[i])
  {
    if vals == [] then [] else PutValue(vals[0]) + PlainBody(vals[1..])
  }

  /** `m` values read one after another, with the bytes left over. */
  function ReadValues(b: seq<byte>, m: nat): Option<(seq<Value>, seq<byte>)>
    decreases m
  {
    if m == 0 then Some(([], b))
    else
      match GetValue(b)
      case None => None
      case Some((v, n)) =>
        if n > |b| then None
        else
          match ReadValues(b[n..], m - 1)
          case None => None
          case Some((vs, rest)) => Some(([v] + vs, rest))
  }

  lemma {:induction false} PlainRoundTrip(vals: seq<Value>, rest: seq<byte>)
    requires forall i :: 0 <= i < |vals| ==> WellFormed(vals[i])
    ensures ReadValues(PlainBody(vals) + rest, |vals|) == Some((vals, rest))
    decreases |vals|
  {
    hide PutValue, GetValue;
    if vals != [] {
      var b := PlainBody(vals) + rest;
      assert b == PutValue(vals[0]) + (PlainBody(vals[1..]) + rest);
      ValueRoundTrip(vals[0], PlainBody(vals[1..]) + rest);
      PlainRoundTrip(vals[1..], rest);
      assert b[|PutValue(vals[0])|..] == PlainBody(vals[1..]) + rest;
      assert vals == [vals[0]] + vals[1..];
    } else {
      assert PlainBody(vals) + rest == rest;
    }
  }

  function EncodePlain(vals: seq<Value>): seq<byte>
    requires forall i :: 0 <= i < |vals| ==> WellFormed(vals[i])
  {
    [1] + PlainBody(vals)
  }

  function DecodePlain(b: seq<byte>, m: nat): Option<seq<Value>> {
    match ReadValues(b, m)
    case None => None
    case Some((vs, _)) => Some(vs)
  }

  // ---- run-length ------------------------------------------------------------------

  /** How many leading values share the first one's key. */
  function RunLength(vals: seq<Value>): (n: nat)
    requires vals != []
    ensures 1 <= n <= |vals|
    ensures forall i :: 0 <= i < n ==> StrictKey(vals[i]) == StrictKey(vals[0])
    ensures n < |vals| ==> StrictKey(vals[n]) != StrictKey(vals[0])
    decreases |vals|
  {
    if |vals| > 1 && StrictKey(vals[1]) == StrictKey(vals[0]) then 1 + RunLength(vals[1..]) else 1
  }

  function RunCount(vals: seq<Value>): (n: nat)
    ensures n <= |vals|
    decreases |vals|
  {
    if vals == [] then 0 else 1 + RunCount(vals[RunLength(vals)..])
  }

  function RunBody(vals: seq<Value>): seq<byte>
    requires forall i :: 0 <= i < |vals| ==> WellFormed(vals[i])
    decreases |vals|
  {
    if vals == [] then []
    else PutValue(vals[0]) + Uvarint(RunLength(vals)) + RunBody(vals[RunLength(vals)..])
  }

  function Repeat(v: Value, n: nat): (s: seq<Value>)
    ensures |s| == n && forall i :: 0 <= i < n ==> s[i] == v
  {
    seq(n, i => v)
  }

  function ReadRuns(b: seq<byte>, runs: nat): Option<seq<Value>>
    decreases runs
  {
    if runs == 0 then Some([])
    else
      match GetValue(b)
      case None => None
      case Some((v, n)) =>
        if n > |b| then None
        else
          match ReadUvarint(b[n..])
          case None => None
          case Some((ln, k)) =>
            if k > |b| - n then None
            else
              match ReadRuns(b[n + k..], runs - 1)
              case None => None
              case Some(vs) => Some(Repeat(v, ln) + vs)
  }

  function EncodeRLE(vals: seq<Value>): seq<byte>
    requires forall i :: 0 <= i < |vals| ==> WellFormed(vals[i])
  {
    [3] + Uvarint(RunCount(vals)) + RunBody(vals)
  }

  function DecodeRLE(b: seq<byte>, m: nat): Option<seq<Value>> {
    match ReadUvarint(b)
    case None => None
    case Some((runs, k)) =>
      if k > |b| then None
      else
        match ReadRuns(b[k..], runs)
        case None => None
        case Some(vs) => if |vs| == m then Some(vs) else None
  }

  /** One run read in front of the others. */
  lemma RunRead(v: Value, n: nat, rest: seq<byte>, runs: nat, vs: seq<Value>)
    requires WellFormed(v) && IsU64(n) && ReadRuns(rest, runs) == Some(vs)
    ensures ReadRuns(PutValue(v) + Uvarint(n) + rest, runs + 1) == Some(Repeat(v, n) + vs)
  {
    hide PutValue, GetValue, Uvarint, ReadUvarint;
    var b, p, u := PutValue(v) + Uvarint(n) + rest, PutValue(v), Uvarint(n);
    assert b == p + (u + rest);
    ValueRoundTrip(v, u + rest);
    UvarintRoundTrip(n, rest);
    assert b[|p|..] == u + rest;
    assert b[|p| + |u|..] == rest;
  }

  lemma {:induction false} RunsRoundTrip(vals: seq<Value>)
    requires Column(vals)
    ensures ReadRuns(RunBody(vals), RunCount(vals)) == Some(vals)
    decreases |vals|
  {
    hide PutValue, Uvarint, StrictKey, RunLength, ReadRuns;
    if vals == [] {
      assert ReadRuns(RunBody(vals), 0) == Some([]) by { ReadNoRuns(RunBody(vals)); }
    } else {
      var n := RunLength(vals);
      var rest := vals[n..];
      forall i | 0 <= i < n ensures vals[i] == vals[0] { StrictKeyInjective(vals[i], vals[0]); }
      RunsRoundTrip(rest);
      RunRead(vals[0], n, RunBody(rest), RunCount(rest), rest);
      assert vals == Repeat(vals[0], n) + rest;
    }
  }

  lemma ReadNoRuns(b: seq<byte>)
    ensures ReadRuns(b, 0) == Some([])
  {}

  lemma RLERoundTrip(vals: seq<Value>)
    requires Column(vals)
    ensures DecodeRLE(EncodeRLE(vals)[1..], |vals|) == Some(vals)
  {
    hide Uvarint, ReadUvarint, RunBody, ReadRuns, RunCount;
    var u := Uvarint(RunCount(vals));
    var b := EncodeRLE(vals)[1..];
    assert b == u + RunBody(vals);
    UvarintRoundTrip(RunCount(vals), RunBody(vals));
    assert b[|u|..] == RunBody(vals);
    RunsRoundTrip(vals);
  }

  // ---- dictionary ------------------------------------------------------------------

  /** The position of the first dictionary entry with key `key`, or the dictionary's length. */
  function CodeOf(dict: seq<Value>, key: seq<byte>): (c: nat)
    ensures c <= |dict|
    ensures c < |dict| ==> StrictKey(dict[c]) == key
    ensures c == |dict| ==> forall i :: 0 <= i < |dict| ==> StrictKey(dict[i]) != key
  {
    if dict == [] || StrictKey(dict[0]) == key then 0 else 1 + CodeOf(dict[1..], key)
  }

  /** The dictionary after seeing `vals`: distinct keys in first-seen order. */
  function Grow(dict: seq<Value>, vals: seq<Value>): (d: seq<Value>)
    ensures dict <= d && |d| <= |dict| + |vals|
    ensures forall i :: 0 <= i < |d| ==> d[i] in dict || d[i] in vals
    decreases |vals|
  {
    if vals == [] then dict
    else Grow(if CodeOf(dict, StrictKey(vals[0])) < |dict| then dict else dict + [vals[0]], vals[1..])
  }

  function Codes(dict: seq<Value>, vals: seq<Value>): (cs: seq<nat>)
    ensures |cs| == |vals|
    ensures forall i :: 0 <= i < |vals| ==> cs[i] == CodeOf(dict, StrictKey(vals[i]))
  {
    seq(|vals|, i requires 0 <= i < |vals| => CodeOf(dict, StrictKey(vals[i])))
  }

  lemma {:induction false} GrowCovers(dict: seq<Value>, vals: seq<Value>, i: nat)
    requires i < |vals|
    ensures CodeOf(Grow(dict, vals), StrictKey(vals[i])) < |Grow(dict, vals)|
    decreases |vals|
  {
    hide StrictKey, CodeOf;
    var dict1 := if CodeOf(dict, StrictKey(vals[0])) < |dict| then dict else dict + [vals[0]];
    var d := Grow(dict1, vals[1..]);
    assert Grow(dict, vals) == d;
    if i == 0 {
      var j := if CodeOf(dict, StrictKey(vals[0])) < |dict| then CodeOf(dict, StrictKey(vals[0])) else |dict|;
      assert d[j] == dict1[j] && StrictKey(d[j]) == StrictKey(vals[0]);
    } else {
      GrowCovers(dict1, vals[1..], i - 1);
    }
  }

  function DictWidth(n: nat): nat {
    if n > 1 then BitWidth(n - 1) else 0
  }

  lemma {:induction false} BitWidthBound(max: nat, w: nat)
    requires max < Pow2(w)
    ensures BitWidth(max) <= w
    decreases w
  {
    if max > 0 { BitWidthBound(max / 2, w - 1); }
  }

  lemma WidthFitsByte(max: nat)
    requires IsU64(max)
    ensures BitWidth(max) <= 64
  {
    BytePow2();
    BitWidthBound(max, 64);
  }

  lemma DictWidthFits(vals: seq<Value>)
    requires |vals| < TWO63
    ensures DictWidth(|Grow([], vals)|) <= 64
  {
    hide Grow, BitWidth;
    var n := |Grow([], vals)|;
    if n > 1 { WidthFitsByte(n - 1); }
  }

  function EncodeDict(vals: seq<Value>): seq<byte>
    requires Column(vals)
  {
    var dict := Grow([], vals);
    DictWidthFits(vals);
    [2] + Uvarint(|dict|) + PlainBody(dict) + [DictWidth(|dict|)] + PackBits(Codes(dict, vals), DictWidth(|dict|))
  }

  /** Dictionary entries at the given codes, `None` when one is out of range. */
  function AtCodes(dict: seq<Value>, codes: seq<nat>): Option<seq<Value>> {
    if forall i :: 0 <= i < |codes| ==> codes[i] < |dict|
    then Some(seq(|codes|, i requires 0 <= i < |codes| && codes[i] < |dict| => dict[codes[i]]))
    else None
  }

  function DecodeDict(b: seq<byte>, m: nat): Option<seq<Value>> {
    match ReadUvarint(b)
    case None => None
    case Some((dn, k)) =>
      if k > |b| then None
      else
        match ReadValues(b[k..], dn)
        case None => None
        case Some((dict, rest)) =>
          if rest == [] then None
          else
            match UnpackBits(rest[1..], rest[0], m)
            case None => None
            case Some(codes) => AtCodes(dict, codes)
  }

  lemma DictRoundTrip(vals: seq<Value>)
    requires Column(vals)
    ensures DecodeDict(EncodeDict(vals)[1..], |vals|) == Some(vals)
  {
    hide Uvarint, ReadUvarint, PlainBody, ReadValues, StrictKey, PackBits, UnpackBits, Grow, BitWidth, Pow2;
    var dict := Grow([], vals);
    var codes, width := Codes(dict, vals), DictWidth(|dict|);
    DictWidthFits(vals);
    var tail := [width] + PackBits(codes, width);
    var u := Uvarint(|dict|);
    var b := EncodeDict(vals)[1..];
    assert b == u + (PlainBody(dict) + tail);
    UvarintRoundTrip(|dict|, PlainBody(dict) + tail);
    assert b[|u|..] == PlainBody(dict) + tail;
    PlainRoundTrip(dict, tail);
    forall i | 0 <= i < |vals| ensures codes[i] < |dict| && dict[codes[i]] == vals[i] && codes[i] < Pow2(width) {
      GrowCovers([], vals, i);
      StrictKeyInjective(dict[codes[i]], vals[i]);
    }
    PackRoundTrip(codes, width);
    assert tail[1..] == PackBits(codes, width);
    assert AtCodes(dict, codes).value == vals;
  }

  // ---- integer encodings -----------------------------------------------------------

  type I64Seq = s: seq<int> | forall i :: 0 <= i < |s| ==> IsI64(s[i])
  type U64Seq = s: seq<nat> | forall i :: 0 <= i < |s| ==> IsU64(s[i])

  /** Every value has the kind of the first, and that kind is Bool or Int. */
  predicate Homogeneous(vals: seq<Value>) {
    && vals != []
    && (vals[0].Bool? || vals[0].Int?)
    && (forall i :: 0 <= i < |vals| ==> (if vals[0].Bool? then vals[i].Bool? else vals[i].Int?))
  }

  ghost predicate Integers(vals: seq<Value>) {
    Column(vals) && Homogeneous(vals)
  }

  function IntOf(v: Value): int {
    if v.Bool? || v.Int? then v.i else 0
  }

  function IntsOf(vals: seq<Value>): (xs: I64Seq)
    requires forall i :: 0 <= i < |vals| ==> IsI64(IntOf(vals[i]))
    ensures |xs| == |vals| && forall i :: 0 <= i < |xs| ==> xs[i] == IntOf(vals[i])
  {
    seq(|vals|, i requires 0 <= i < |vals| => IntOf(vals[i]))
  }

  /** Values of the restore kind read from the stream; only Bool and Int are ever written. */
  function MkInts(kind: byte, xs: seq<int>): (vs: seq<Value>)
    ensures |vs| == |xs| && forall i :: 0 <= i < |xs| ==> vs[i] == if kind == 1 then Bool(xs[i]) else Int(xs[i])
  {
    seq(|xs|, i requires 0 <= i < |xs| => if kind == 1 then Bool(xs[i]) else Int(xs[i]))
  }

  lemma IntsRestore(vals: seq<Value>)
    requires Integers(vals)
    ensures forall i :: 0 <= i < |vals| ==> IsI64(IntOf(vals[i]))
    ensures MkInts(Kind(vals[0]), IntsOf(vals)) == vals
  {}

  function MaxOf(xs: seq<nat>): (m: nat)
    ensures forall i :: 0 <= i < |xs| ==> xs[i] <= m
    ensures m == 0 || m in xs
  {
    if xs == [] then 0 else var m := MaxOf(xs[1..]); if xs[0] > m then xs[0] else m
  }

  /** Values packed at the width of the largest, after a width byte. */
  function Packed(xs: U64Seq): (b: seq<byte>)
    ensures |b| > 0
  {
    WidthFitsByte(MaxOf(xs));
    [BitWidth(MaxOf(xs))] + PackBits(xs, BitWidth(MaxOf(xs)))
  }

  function ReadPacked(b: seq<byte>, m: nat): Option<seq<nat>> {
    if b == [] then None else UnpackBits(b[1..], b[0], m)
  }

  lemma PackedRoundTrip(xs: U64Seq)
    ensures ReadPacked(Packed(xs), |xs|) == Some(xs)
  {
    hide PackBits, UnpackBits, BitWidth, Pow2;
    var w := BitWidth(MaxOf(xs));
    assert Packed(xs)[1..] == PackBits(xs, w);
    PackRoundTrip(xs, w);
  }

  // bit-packing: zig-zag values

  function Zigzags(xs: I64Seq): (zs: U64Seq)
    ensures |zs| == |xs| && forall i :: 0 <= i < |zs| ==> zs[i] == Zigzag(xs[i])
  {
    seq(|xs|, i requires 0 <= i < |xs| => Zigzag(xs[i]))
  }

  function Unzigzags(us: seq<nat>): (xs: I64Seq)
    ensures |xs| == |us| && forall i :: 0 <= i < |xs| ==> xs[i] == Unzigzag(U64(us[i]))
  {
    seq(|us|, i requires 0 <= i < |us| => Unzigzag(U64(us[i])))
  }

  function EncodeBitpack(vals: seq<Value>): seq<byte>
    requires Integers(vals)
  {
    IntsRestore(vals);
    [4, Kind(vals[0])] + Packed(Zigzags(IntsOf(vals)))
  }

  function DecodeBitpack(b: seq<byte>, m: nat): Option<seq<Value>> {
    if |b| < 2 then None
    else
      match ReadPacked(b[1..], m)
      case None => None
      case Some(us) => Some(MkInts(b[0], Unzigzags(us)))
  }

  lemma ZigzagsUndo(xs: I64Seq)
    ensures Unzigzags(Zigzags(xs)) == xs
  {
    hide Zigzag, Unzigzag;
    forall i | 0 <= i < |xs| ensures Unzigzag(U64(Zigzags(xs)[i])) == xs[i] { ZigzagRoundTrip(xs[i]); }
  }

  lemma BitpackRoundTrip(vals: seq<Value>)
    requires Integers(vals)
    ensures DecodeBitpack(EncodeBitpack(vals)[1..], |vals|) == Some(vals)
  {
    hide Packed, ReadPacked, Zigzags, Unzigzags;
    IntsRestore(vals);
    var zs := Zigzags(IntsOf(vals));
    var b := EncodeBitpack(vals)[1..];
    assert b == [Kind(vals[0])] + Packed(zs);
    assert b[1..] == Packed(zs);
    PackedRoundTrip(zs);
    ZigzagsUndo(IntsOf(vals));
  }

  // frame of reference: offsets from the least value

  function MinOf(xs: I64Seq): (m: int)
    requires xs != []
    ensures IsI64(m) && m in xs && forall i :: 0 <= i < |xs| ==> m <= xs[i]
  {
    if |xs| == 1 then xs[0] else var m := MinOf(xs[1..]); if xs[0] < m then xs[0] else m
  }

  /** `uint64(v - base)` with the subtraction in int64. */
  function Offsets(xs: I64Seq, base: int): (os: U64Seq)
    ensures |os| == |xs| && forall i :: 0 <= i < |os| ==> os[i] == U64(I64(xs[i] - base))
  {
    seq(|xs|, i requires 0 <= i < |xs| => U64(I64(xs[i] - base)))
  }

  function FromOffsets(base: int, us: seq<nat>): (xs: I64Seq)
    ensures |xs| == |us| && forall i :: 0 <= i < |xs| ==> xs[i] == I64(base + I64(us[i]))
  {
    seq(|us|, i requires 0 <= i < |us| => I64(base + I64(us[i])))
  }

  function EncodeFOR(vals: seq<Value>): seq<byte>
    requires Integers(vals)
  {
    IntsRestore(vals);
    var xs := IntsOf(vals);
    [5, Kind(vals[0])] + Varint(MinOf(xs)) + Packed(Offsets(xs, MinOf(xs)))
  }

  function DecodeFOR(b: seq<byte>, m: nat): Option<seq<Value>> {
    if b == [] then None
    else
      match ReadVarint(b[1..])
      case None => None
      case Some((base, k)) =>
        if 1 + k > |b| then None
        else
          match ReadPacked(b[1 + k..], m)
          case None => None
          case Some(us) => Some(MkInts(b[0], FromOffsets(base, us)))
  }

  /** Subtracting and adding back wraps around to the same integer. */
  lemma SameI64(d: int)
    ensures I64(U64(I64(d))) == I64(d)
  {}

  lemma OffsetWraps(v: int, base: int)
    requires IsI64(v) && IsI64(base)
    ensures I64(base + I64(U64(I64(v - base)))) == v
  {
    var d := v - base;
    SameI64(d);
    assert I64(d) == d || I64(d) == d - TWO64 || I64(d) == d + TWO64;
  }

  lemma OffsetsUndo(xs: I64Seq, base: int)
    requires IsI64(base)
    ensures FromOffsets(base, Offsets(xs, base)) == xs
  {
    hide I64, U64;
    forall i | 0 <= i < |xs| ensures I64(base + I64(Offsets(xs, base)[i])) == xs[i] { OffsetWraps(xs[i], base); }
  }

  lemma FORRoundTrip(vals: seq<Value>)
    requires Integers(vals)
    ensures DecodeFOR(EncodeFOR(vals)[1..], |vals|) == Some(vals)
  {
    hide Packed, ReadPacked, Varint, ReadVarint, Offsets, FromOffsets, MinOf;
    IntsRestore(vals);
    var base := MinOf(IntsOf(vals));
    var os, u := Offsets(IntsOf(vals), base), Varint(base);
    var b := EncodeFOR(vals)[1..];
    assert b == [Kind(vals[0])] + u + Packed(os);
    assert b[1..] == u + Packed(os);
    VarintRoundTrip(base, Packed(os));
    assert b[1 + |u|..] == Packed(os);
    PackedRoundTrip(os);
    OffsetsUndo(IntsOf(vals), base);
  }

  // delta: zig-zag differences

  /** Successive differences in int64, zig-zagged. */
  function Deltas(xs: I64Seq): (ds: U64Seq)
    requires xs != []
    ensures |ds| == |xs| - 1
  {
    if |xs| == 1 then [] else [Zigzag(I64(xs[1] - xs[0]))] + Deltas(xs[1..])
  }

  /** Running sums from `cur`, wrapping in int64. */
  function Accumulate(cur: int, ds: seq<nat>): (xs: seq<int>)
    ensures |xs| == |ds|
    decreases |ds|
  {
    if ds == [] then []
    else
      var next := I64(cur + Unzigzag(U64(ds[0])));
      [next] + Accumulate(next, ds[1..])
  }

  function EncodeDelta(vals: seq<Value>): seq<byte>
    requires Integers(vals)
  {
    IntsRestore(vals);
    var xs := IntsOf(vals);
    [6, Kind(vals[0])] + Varint(xs[0]) + Packed(Deltas(xs))
  }

  function DecodeDelta(b: seq<byte>, m: nat): Option<seq<Value>> {
    if b == [] then None
    else
      match ReadVarint(b[1..])
      case None => None
      case Some((first, k)) =>
        if 1 + k >= |b| then None
        else if m == 0 then Some([])
        else
          match ReadPacked(b[1 + k..], m - 1)
          case None => None
          case Some(ds) => Some(MkInts(b[0], [first] + Accumulate(first, ds)))
  }

  lemma DeltaWraps(a: int, b: int)
    requires IsI64(a) && IsI64(b)
    ensures I64(a + I64(b - a)) == b
  {}

  lemma SameU64(u: nat)
    requires IsU64(u)
    ensures U64(u) == u
  {}

  lemma {:induction false} AccumulateUndoes(xs: I64Seq)
    requires xs != []
    ensures [xs[0]] + Accumulate(xs[0], Deltas(xs)) == xs
    decreases |xs|
  {
    hide Zigzag, Unzigzag, I64, U64;
    if |xs| > 1 {
      var z, rest := Zigzag(I64(xs[1] - xs[0])), Deltas(xs[1..]);
      ZigzagRoundTrip(I64(xs[1] - xs[0]));
      SameU64(z);
      DeltaWraps(xs[0], xs[1]);
      AccumulateUndoes(xs[1..]);
      assert Deltas(xs)[0] == z && Deltas(xs)[1..] == rest;
      assert Accumulate(xs[0], Deltas(xs)) == [xs[1]] + Accumulate(xs[1], rest);
      assert xs == [xs[0]] + xs[1..];
    }
  }

  lemma DeltaRoundTrip(vals: seq<Value>)
    requires Integers(vals)
    ensures DecodeDelta(EncodeDelta(vals)[1..], |vals|) == Some(vals)
  {
    hide Packed, ReadPacked, Varint, ReadVarint, Accumulate, Deltas;
    IntsRestore(vals);
    var xs := IntsOf(vals);
    var ds, u := Deltas(xs), Varint(xs[0]);
    var b := EncodeDelta(vals)[1..];
    assert b == [Kind(vals[0])] + u + Packed(ds);
    assert b[1..] == u + Packed(ds);
    VarintRoundTrip(xs[0], Packed(ds));
    assert b[1 + |u|..] == Packed(ds);
    PackedRoundTrip(ds);
    AccumulateUndoes(xs);
  }

  // ---- whole columns ---------------------------------------------------------------

  function Shorter(a: seq<byte>, b: seq<byte>): seq<byte> {
    if |b| < |a| then b else a
  }

  /** The smallest applicable encoding, earlier ones winning ties. */
  function ChooseEncoding(vals: seq<Value>): seq<byte>
    requires Column(vals)
  {
    var general := Shorter(Shorter(EncodePlain(vals), EncodeRLE(vals)), EncodeDict(vals));
    if Homogeneous(vals)
    then Shorter(Shorter(Shorter(general, EncodeBitpack(vals)), EncodeFOR(vals)), EncodeDelta(vals))
    else general
  }

  /** What is written is no longer than any encoding the values admit, and is one of them. */
  lemma ChoosesShortest(vals: seq<Value>)
    requires Column(vals)
    ensures var general := [EncodePlain(vals), EncodeRLE(vals), EncodeDict(vals)];
            var all := if Homogeneous(vals) then general + [EncodeBitpack(vals), EncodeFOR(vals), EncodeDelta(vals)]
                       else general;
            ChooseEncoding(vals) in all && forall i :: 0 <= i < |all| ==> |ChooseEncoding(vals)| <= |all[i]|
  {
    hide EncodePlain, EncodeRLE, EncodeDict, EncodeBitpack, EncodeFOR, EncodeDelta, Homogeneous;
    var general := [EncodePlain(vals), EncodeRLE(vals), EncodeDict(vals)];
    assert general[0] in general && general[1] in general && general[2] in general;
    if Homogeneous(vals) {
      var ints := [EncodeBitpack(vals), EncodeFOR(vals), EncodeDelta(vals)];
      assert ints[0] in ints && ints[1] in ints && ints[2] in ints;
    }
  }

  function DecodeStream(b: seq<byte>, m: nat): Option<seq<Value>> {
    if b == [] then (if m == 0 then Some([]) else None)
    else if b[0] == 1 then DecodePlain(b[1..], m)
    else if b[0] == 2 then DecodeDict(b[1..], m)
    else if b[0] == 3 then DecodeRLE(b[1..], m)
    else if b[0] == 4 then DecodeBitpack(b[1..], m)
    else if b[0] == 5 then DecodeFOR(b[1..], m)
    else if b[0] == 6 then DecodeDelta(b[1..], m)
    else None
  }

  lemma GeneralStreams(vals: seq<Value>)
    requires Column(vals)
    ensures DecodeStream(EncodePlain(vals), |vals|) == Some(vals)
    ensures DecodeStream(EncodeRLE(vals), |vals|) == Some(vals)
    ensures DecodeStream(EncodeDict(vals), |vals|) == Some(vals)
  {
    hide DecodePlain, DecodeDict, DecodeRLE, PlainBody, RunBody, PackBits, Uvarint, RunCount, Grow, Column;
    PlainDecodes(vals);
    RLERoundTrip(vals);
    DictRoundTrip(vals);
  }

  lemma IntegerStreams(vals: seq<Value>)
    requires Integers(vals)
    ensures DecodeStream(EncodeBitpack(vals), |vals|) == Some(vals)
    ensures DecodeStream(EncodeFOR(vals), |vals|) == Some(vals)
    ensures DecodeStream(EncodeDelta(vals), |vals|) == Some(vals)
  {
    hide DecodeBitpack, DecodeFOR, DecodeDelta, Packed, Varint, MinOf, Integers;
    BitpackRoundTrip(vals);
    FORRoundTrip(vals);
    DeltaRoundTrip(vals);
  }

  /** Whatever encoding is chosen, decoding gives the values back. */
  lemma StreamRoundTrip(vals: seq<Value>)
    requires Column(vals)
    ensures DecodeStream(ChooseEncoding(vals), |vals|) == Some(vals)
  {
    GeneralStreams(vals);
    if Homogeneous(vals) { IntegerStreams(vals); }
    hide DecodeStream, EncodePlain, EncodeRLE, EncodeDict, EncodeBitpack, EncodeFOR, EncodeDelta, Column, Homogeneous;
  }

  lemma PlainDecodes(vals: seq<Value>)
    requires Column(vals)
    ensures DecodePlain(EncodePlain(vals)[1..], |vals|) == Some(vals)
  {
    hide PlainBody, ReadValues;
    assert EncodePlain(vals)[1..] == PlainBody(vals) + [];
    PlainRoundTrip(vals, []);
  }

  function Dense(vals: seq<Value>): (d: seq<Value>)
    ensures |d| <= |vals| && forall v :: v in d <==> v in vals && !v.Null?
  {
    if vals == [] then []
    else if vals[0].Null? then Dense(vals[1..])
    else [vals[0]] + Dense(vals[1..])
  }

  function NullFlags(vals: seq<Value>): (fs: seq<nat>)
    ensures |fs| == |vals| && forall i :: 0 <= i < |fs| ==> fs[i] == if vals[i].Null? then 1 else 0
  {
    seq(|vals|, i requires 0 <= i < |vals| => if vals[i].Null? then 1 else 0)
  }

  /** A count, the null bitmap, and the stream of the non-null values. */
  function EncodeColumn(vals: seq<Value>): seq<byte>
    requires Column(vals)
  {
    DenseColumn(vals);
    Uvarint(|vals|) + PackBits(NullFlags(vals), 1) + ChooseEncoding(Dense(vals))
  }

  lemma DenseColumn(vals: seq<Value>)
    requires Column(vals)
    ensures Column(Dense(vals))
  {
    forall i | 0 <= i < |Dense(vals)| ensures WellFormed(Dense(vals)[i]) { assert Dense(vals)[i] in vals; }
  }

  function ReadNulls(b: seq<byte>, n: nat): (nulls: seq<bool>)
    ensures |nulls| == n && forall i :: 0 <= i < n ==> nulls[i] == BitAt(b, i)
  {
    seq(n, i requires 0 <= i => BitAt(b, i))
  }

  function CountFalse(nulls: seq<bool>): nat {
    if nulls == [] then 0 else (if nulls[0] then 0 else 1) + CountFalse(nulls[1..])
  }

  /** The stream scattered back to the positions that are not null. */
  function Scatter(nulls: seq<bool>, stream: seq<Value>): seq<Value>
    requires |stream| == CountFalse(nulls)
  {
    if nulls == [] then []
    else if nulls[0] then [Null] + Scatter(nulls[1..], stream)
    else [stream[0]] + Scatter(nulls[1..], stream[1..])
  }

  function DecodeColumn(b: seq<byte>): Option<seq<Value>> {
    match ReadUvarint(b)
    case None => None
    case Some((n, k)) =>
      var nb := (n + 7) / 8;
      if k > |b| || |b| - k < nb then None
      else
        var nulls := ReadNulls(b[k..k + nb], n);
        match DecodeStream(b[k + nb..], CountFalse(nulls))
        case None => None
        case Some(stream) => if |stream| == CountFalse(nulls) then Some(Scatter(nulls, stream)) else None
  }

  ghost predicate FlagsOf(nulls: seq<bool>, vals: seq<Value>) {
    |nulls| == |vals| && forall i :: 0 <= i < |vals| ==> nulls[i] == vals[i].Null?
  }

  lemma {:induction false} ScatterDense(nulls: seq<bool>, vals: seq<Value>)
    requires FlagsOf(nulls, vals)
    ensures |Dense(vals)| == CountFalse(nulls) && Scatter(nulls, Dense(vals)) == vals
    decreases |vals|
  {
    if vals != [] {
      ScatterDense(nulls[1..], vals[1..]);
      assert vals == [vals[0]] + vals[1..];
      if !nulls[0] { assert Dense(vals)[1..] == Dense(vals[1..]); }
    }
  }

  lemma NullsReadBack(vals: seq<Value>)
    ensures |PackBits(NullFlags(vals), 1)| == (|vals| + 7) / 8
    ensures FlagsOf(ReadNulls(PackBits(NullFlags(vals), 1), |vals|), vals)
  {
    hide PackedBit, BitAt, PackedByte;
    var flags := NullFlags(vals);
    var data := PackBits(flags, 1);
    forall i | 0 <= i < |vals| ensures BitAt(data, i) == vals[i].Null? {
      PackedBitIs(flags, 1, i, 0);
      PackedBitAt(flags, 1, i);
    }
  }

  /** Decoding a column undoes encoding it. */
  lemma ColumnRoundTrip(vals: seq<Value>)
    requires Column(vals)
    ensures DecodeColumn(EncodeColumn(vals)) == Some(vals)
  {
    hide Uvarint, ReadUvarint, PackBits, ChooseEncoding, DecodeStream, Dense, Scatter, CountFalse, FlagsOf, Column;
    DenseColumn(vals);
    var u, nb, tail := Uvarint(|vals|), PackBits(NullFlags(vals), 1), ChooseEncoding(Dense(vals));
    var b := EncodeColumn(vals);
    assert b == u + (nb + tail);
    ColumnLength(vals);
    UvarintRoundTrip(|vals|, nb + tail);
    NullsReadBack(vals);
    assert b[|u|..|u| + |nb|] == nb && b[|u| + |nb|..] == tail;
    ScatterDense(ReadNulls(nb, |vals|), vals);
    StreamRoundTrip(Dense(vals));
  }

  lemma ColumnLength(vals: seq<Value>)
    requires Column(vals)
    ensures |vals| < TWO63
  {}
}
