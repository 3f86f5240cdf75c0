/** The loops of the column encoder and decoder, each tied to the format function it computes. */
module ColumnLoops {
  import opened Common
  import opened Bits
  import opened ColumnCodec

  // ---- bit packing in place ----------------------------------------------------------

  /** `x | 1 << j`. */
  function SetBit(x: nat, j: nat): nat {
    if j == 0 then x / 2 * 2 + 1 else x % 2 + 2 * SetBit(x / 2, j - 1)
  }

  lemma {:induction false} SetBitBits(x: nat, j: nat, b: nat)
    ensures Bit(SetBit(x, j), b) == (b == j || Bit(x, b))
    decreases j
  {
    if j > 0 {
      HalfOf(x % 2, SetBit(x / 2, j - 1));
      if b > 0 { SetBitBits(x / 2, j - 1, b - 1); }
    } else {
      HalfOf(1, x / 2);
    }
  }

  lemma HalfOf(r: nat, y: nat)
    requires r < 2
    ensures (r + 2 * y) / 2 == y && (r + 2 * y) % 2 == r
  {}

  lemma {:induction false} SetBitSmall(x: nat, j: nat, w: nat)
    requires x < Pow2(w) && j < w
    ensures SetBit(x, j) < Pow2(w)
    decreases j
  {
    if j > 0 { SetBitSmall(x / 2, j - 1, w - 1); }
  }

  lemma SameBits(x: nat, y: nat, w: nat)
    requires x < Pow2(w) && y < Pow2(w) && forall b :: 0 <= b < w ==> Bit(x, b) == Bit(y, b)
    ensures x == y
  {
    hide Bit, FromBits, Pow2;
    var f := (b: nat) => Bit(x, b);
    FromBitsOf(f, 0, w, x);
    FromBitsOf(f, 0, w, y);
  }

  lemma ZeroBits(b: nat)
    ensures !Bit(0, b)
  {}

  method BitWidthLoop(max: nat) returns (w: nat)
    ensures w == BitWidth(max)
  {
    w := 0;
    var rest := max;
    while rest > 0
      invariant w + BitWidth(rest) == BitWidth(max)
    {
      w := w + 1;
      rest := rest / 2;
    }
  }

  /** Set one bit of a byte buffer. */
  method Raise(out: array<byte>, p: nat)
    requires p / 8 < out.Length
    modifies out
    ensures forall q: nat :: BitAt(out[..], q) == (q == p || BitAt(old(out[..]), q))
  {
    BytePow2();
    SetBitSmall(out[p / 8], p % 8, 8);
    ghost var before := out[..];
    out[p / 8] := SetBit(out[p / 8], p % 8);
    forall q: nat ensures BitAt(out[..], q) == (q == p || BitAt(before, q)) {
      if q / 8 == p / 8 { SetBitBits(before[p / 8], p % 8, q % 8); }
    }
  }

  lemma PackedEnds(vals: seq<nat>, width: nat, p: nat)
    requires p >= width * |vals|
    ensures !PackedBit(vals, width, p)
    decreases |vals|
  {
    if vals != [] {
      assert width * |vals| == width * (|vals| - 1) + width;
      if p >= width { PackedEnds(vals[1..], width, p - width); }
    }
  }

  /** A buffer with the bits of the packed stream is the packed stream. */
  lemma BufferIsPacked(data: seq<byte>, vals: seq<nat>, width: nat)
    requires width > 0 && |data| == |PackBits(vals, width)|
    requires forall p: nat :: BitAt(data, p) == PackedBit(vals, width, p)
    ensures data == PackBits(vals, width)
  {
    hide Bit, PackedBit, PackedByte;
    var packed := PackBits(vals, width);
    BytePow2();
    forall i | 0 <= i < |data| ensures data[i] == packed[i] {
      forall b | 0 <= b < 8 ensures Bit(data[i], b) == Bit(packed[i], b) {
        assert (8 * i + b) / 8 == i && (8 * i + b) % 8 == b;
        assert BitAt(data, 8 * i + b) == PackedBit(vals, width, 8 * i + b);
        PackedBitAt(vals, width, 8 * i + b);
      }
      SameBits(data[i], packed[i], 8);
    }
  }

  /** The first `bit` bits of the packed stream are in the buffer, the rest is still zero. */
  ghost predicate PackedUpTo(data: seq<byte>, vals: seq<nat>, width: nat, bit: nat) {
    forall p: nat :: BitAt(data, p) == (p < bit && PackedBit(vals, width, p))
  }

  /** The next bit is raised exactly when it is set in the stream. */
  lemma NextBit(data: seq<byte>, data': seq<byte>, vals: seq<nat>, width: nat, bit: nat)
    requires PackedUpTo(data, vals, width, bit)
    requires if PackedBit(vals, width, bit) then forall q: nat ::
             BitAt(data', q) == (q == bit || BitAt(data, q)) else data' == data
    ensures PackedUpTo(data', vals, width, bit + 1)
  {
    hide PackedBit, BitAt;
  }

  method PackValue(out: array<byte>, vals: seq<nat>, width: nat, i: nat)
    requires width > 0 && i < |vals| && out.Length == (width * |vals| + 7) / 8
    requires PackedUpTo(out[..], vals, width, i * width)
    modifies out
    ensures PackedUpTo(out[..], vals, width, (i + 1) * width)
  {
    hide Bit, PackedBit, BitAt, PackedUpTo;
    var bit := i * width;
    assert bit + width == (i + 1) * width;
    for b := 0 to width
      invariant bit == i * width + b
      invariant PackedUpTo(out[..], vals, width, bit)
    {
      PackedBitIs(vals, width, i, b);
      InRange(i, b, width, |vals|);
      ghost var before := out[..];
      if Bit(vals[i], b) { Raise(out, bit); }
      NextBit(before, out[..], vals, width, bit);
      bit := bit + 1;
    }
  }

  /** Pack each value into `width` bits, raising the set bits of a zeroed buffer one at a time. */
  method PackBitsLoop(vals: seq<nat>, width: nat) returns (data: seq<byte>)
    ensures data == PackBits(vals, width)
  {
    if width == 0 { return []; }
    var out := new byte[(width * |vals| + 7) / 8](i => 0);
    forall p: nat ensures !BitAt(out[..], p) { ZeroBits(p % 8); }
    for i := 0 to |vals|
      invariant PackedUpTo(out[..], vals, width, i * width)
    {
      PackValue(out, vals, width, i);
    }
    data := out[..];
    forall p: nat ensures BitAt(data, p) == PackedBit(vals, width, p) {
      if p >= |vals| * width { PackedEnds(vals, width, p); }
    }
    BufferIsPacked(data, vals, width);
  }

  /** Read one value bit by bit. */
  method ReadBits(data: seq<byte>, off: nat, width: nat) returns (v: nat)
    ensures v == FromBits((p: nat) => BitAt(data, p), off, width)
  {
    v := 0;
    ghost var f := (p: nat) => BitAt(data, p);
    forall x: nat ensures !Bit(0, x) { ZeroBits(x); }
    for b := 0 to width
      invariant v < Pow2(b)
      invariant forall x :: 0 <= x < width ==> Bit(v, x) == (x < b && f(off + x))
    {
      ghost var before := v;
      GrowPow2(v, b);
      if BitAt(data, off + b) {
        SetBitSmall(v, b, b + 1);
        v := SetBit(v, b);
        forall x | 0 <= x < width ensures Bit(v, x) == (x == b || Bit(before, x)) { SetBitBits(before, b, x); }
      }
    }
    FromBitsOf(f, off, width, v);
  }

  lemma GrowPow2(v: nat, b: nat)
    requires v < Pow2(b)
    ensures v < Pow2(b + 1)
  {}

  method UnpackBitsLoop(data: seq<byte>, width: nat, count: nat) returns (r: Option<seq<nat>>)
    ensures r == UnpackBits(data, width, count)
  {
    if width == 0 { return Some(seq(count, i => 0)); }
    if |data| < (width * count + 7) / 8 { return None; }
    var out: seq<nat> := [];
    var bit := 0;
    for i := 0 to count
      invariant |out| == i && bit == i * width
      invariant forall j :: 0 <= j < i ==> out[j] == FromBits((p: nat) => BitAt(data, p), j * width, width)
    {
      var v := ReadBits(data, bit, width);
      out := out + [v];
      bit := bit + width;
      assert i * width + width == (i + 1) * width;
    }
    r := Some(out);
    assert out == UnpackBits(data, width, count).value;
  }

  // ---- encoders ------------------------------------------------------------------------

  /** One bit per position, set where the value is null. */
  method NullBitmap(vals: seq<Value>) returns (nb: seq<byte>)
    ensures nb == PackBits(NullFlags(vals), 1)
  {
    var out := new byte[(|vals| + 7) / 8](i => 0);
    ghost var flags := NullFlags(vals);
    forall p: nat ensures !BitAt(out[..], p) { ZeroBits(p % 8); }
    for i := 0 to |vals|
      invariant forall p: nat :: BitAt(out[..], p) == (p < i && PackedBit(flags, 1, p))
    {
      PackedBitIs(flags, 1, i, 0);
      if vals[i].Null? { Raise(out, i); }
    }
    forall p: nat ensures BitAt(out[..], p) == PackedBit(flags, 1, p) {
      if p >= |vals| { PackedEnds(flags, 1, p); }
    }
    nb := out[..];
    BufferIsPacked(nb, flags, 1);
  }

  method EncodePlainLoop(vals: seq<Value>) returns (out: seq<byte>)
    requires Column(vals)
    ensures out == EncodePlain(vals)
  {
    hide PutValue;
    out := [1];
    for i := 0 to |vals|
      invariant out + PlainBody(vals[i..]) == EncodePlain(vals)
    {
      assert vals[i..][1..] == vals[i + 1..];
      out := out + PutValue(vals[i]);
    }
  }

  /** The length of the run starting at `i`. */
  method RunAt(vals: seq<Value>, i: nat) returns (j: nat)
    requires i < |vals|
    ensures j == i + RunLength(vals[i..])
  {
    hide StrictKey;
    j := i + 1;
    while j < |vals| && StrictKey(vals[j]) == StrictKey(vals[i])
      invariant i < j <= |vals|
      invariant j - 1 + RunLength(vals[j - 1..]) == i + RunLength(vals[i..])
      invariant StrictKey(vals[j - 1]) == StrictKey(vals[i])
    {
      assert vals[j - 1..][1..] == vals[j..];
      j := j + 1;
    }
  }

  method CountRuns(vals: seq<Value>) returns (count: nat)
    ensures count == RunCount(vals)
  {
    hide StrictKey, RunLength;
    var i := 0;
    count := 0;
    while i < |vals|
      invariant i <= |vals| && count + RunCount(vals[i..]) == RunCount(vals)
    {
      var j := RunAt(vals, i);
      assert vals[i..][RunLength(vals[i..])..] == vals[j..];
      count, i := count + 1, j;
    }
  }

  /** Two passes over the runs: count them, then write them. */
  method EncodeRLELoop(vals: seq<Value>) returns (out: seq<byte>)
    requires Column(vals)
    ensures out == EncodeRLE(vals)
  {
    hide PutValue, StrictKey, Uvarint, RunLength, RunCount;
    var count := CountRuns(vals);
    out := [3] + Uvarint(count);
    var i := 0;
    while i < |vals|
      invariant i <= |vals| && out + RunBody(vals[i..]) == EncodeRLE(vals)
    {
      var j := RunAt(vals, i);
      RunStep(vals, i, j, out);
      out := out + PutValue(vals[i]) + Uvarint(j - i);
      i := j;
    }
    assert vals[i..] == [];
    assert out + [] == out;
  }

  lemma RunStep(vals: seq<Value>, i: nat, j: nat, out: seq<byte>)
    requires Column(vals) && i < |vals| && j == i + RunLength(vals[i..]) && j <= |vals|
    ensures Column(vals[i..]) && Column(vals[j..])
    ensures out + RunBody(vals[i..]) == out + PutValue(vals[i]) + Uvarint(j - i) + RunBody(vals[j..])
  {
    hide PutValue, Uvarint, RunLength;
    assert vals[i..][RunLength(vals[i..])..] == vals[j..];
  }

  /** The map holds exactly the dictionary's keys at their positions. */
  ghost predicate Indexes(codeOf: map<seq<byte>, nat>, dict: seq<Value>) {
    && (forall k :: k in codeOf <==> CodeOf(dict, k) < |dict|)
    && (forall k :: k in codeOf ==> codeOf[k] == CodeOf(dict, k))
  }

  lemma IndexesSnoc(codeOf: map<seq<byte>, nat>, dict: seq<Value>, v: Value)
    requires Indexes(codeOf, dict) && StrictKey(v) !in codeOf
    ensures Indexes(codeOf[StrictKey(v) := |dict|], dict + [v])
    ensures forall k :: k in codeOf ==> CodeOf(dict + [v], k) == CodeOf(dict, k)
  {
    hide StrictKey, CodeOf;
    forall k ensures CodeOf(dict + [v], k) ==
      if CodeOf(dict, k) < |dict| then CodeOf(dict, k) else if k == StrictKey(v) then |dict| else |dict| + 1
    {
      CodeOfSnoc(dict, v, k);
    }
  }

  /** Codes already given out, and what is still to come. */
  ghost predicate Coded(dict: seq<Value>, codes: seq<nat>, codeOf: map<seq<byte>, nat>, vals: seq<Value>) {
    |codes| <= |vals| && forall j :: 0 <= j < |codes|
                                     ==> StrictKey(vals[j]) in codeOf && codes[j] == CodeOf(dict, StrictKey(vals[j]))
  }

  lemma CodedNew(dict: seq<Value>, codes: seq<nat>, codeOf: map<seq<byte>, nat>, vals: seq<Value>, v: Value)
    requires Coded(dict, codes, codeOf, vals) && Indexes(codeOf, dict) && StrictKey(v) !in codeOf
    ensures Coded(dict + [v], codes, codeOf[StrictKey(v) := |dict|], vals)
  {
    hide StrictKey, CodeOf;
    IndexesSnoc(codeOf, dict, v);
  }

  lemma CodedStep(dict: seq<Value>, codes: seq<nat>, codeOf: map<seq<byte>, nat>, vals: seq<Value>)
    requires Coded(dict, codes, codeOf, vals) && Indexes(codeOf, dict) && |codes| < |vals|
             && StrictKey(vals[|codes|]) in codeOf
    ensures Coded(dict, codes + [codeOf[StrictKey(vals[|codes|])]], codeOf, vals)
  {
    hide StrictKey, CodeOf;
  }

  lemma CodedAll(dict: seq<Value>, codes: seq<nat>, codeOf: map<seq<byte>, nat>, vals: seq<Value>)
    requires Coded(dict, codes, codeOf, vals) && |codes| == |vals|
    ensures codes == Codes(dict, vals)
  {
    hide StrictKey, CodeOf;
  }

  lemma GrowStep(dict: seq<Value>, vals: seq<Value>, i: nat)
    requires i < |vals|
    ensures Grow(dict, vals[i..]) ==
            Grow(if CodeOf(dict, StrictKey(vals[i])) < |dict| then dict else dict + [vals[i]], vals[i + 1..])
  {
    assert vals[i..][1..] == vals[i + 1..];
  }

  lemma HasCode(codeOf: map<seq<byte>, nat>, dict: seq<Value>, k: seq<byte>)
    requires Indexes(codeOf, dict)
    ensures k in codeOf <==> CodeOf(dict, k) < |dict|
  {}

  /** Assign codes in first-seen order through a map from key to code. */
  method BuildDict(vals: seq<Value>) returns (dict: seq<Value>, codes: seq<nat>)
    ensures dict == Grow([], vals) && codes == Codes(dict, vals)
  {
    hide StrictKey, CodeOf, Grow, Indexes, Coded, Codes;
    var codeOf: map<seq<byte>, nat> := map[];
    dict, codes := [], [];
    NothingCoded(vals);
    for i := 0 to |vals|
      invariant Grow(dict, vals[i..]) == Grow([], vals)
      invariant |codes| == i && Indexes(codeOf, dict) && Coded(dict, codes, codeOf, vals)
    {
      var key := StrictKey(vals[i]);
      GrowStep(dict, vals, i);
      HasCode(codeOf, dict, key);
      if key !in codeOf {
        IndexesSnoc(codeOf, dict, vals[i]);
        CodedNew(dict, codes, codeOf, vals, vals[i]);
        codeOf := codeOf[key := |dict|];
        dict := dict + [vals[i]];
      }
      CodedStep(dict, codes, codeOf, vals);
      codes := codes + [codeOf[key]];
    }
    GrowNothing(dict);
    CodedAll(dict, codes, codeOf, vals);
  }

  lemma NothingCoded(vals: seq<Value>)
    ensures Indexes(map[], []) && Coded([], [], map[], vals) && vals[0..] == vals
  {}

  lemma GrowNothing(dict: seq<Value>)
    ensures Grow(dict, []) == dict
  {}

  lemma {:induction false} CodeOfSnoc(dict: seq<Value>, v: Value, k: seq<byte>)
    ensures CodeOf(dict + [v], k) ==
            if CodeOf(dict, k) < |dict| then CodeOf(dict, k) else if k == StrictKey(v) then |dict| else |dict| + 1
    decreases |dict|
  {
    hide StrictKey;
    if dict == [] {
      assert (dict + [v])[1..] == [];
    } else if StrictKey(dict[0]) != k {
      assert (dict + [v])[1..] == dict[1..] + [v];
      CodeOfSnoc(dict[1..], v, k);
    }
  }

  lemma DeltasUnfold(xs: I64Seq, i: nat)
    requires 1 <= i < |xs|
    ensures Deltas(xs[i - 1..]) == [Zigzag(I64(xs[i] - xs[i - 1]))] + Deltas(xs[i..])
  {
    assert xs[i - 1..][1..] == xs[i..];
  }

  /** Successive zig-zag differences and the largest of them. */
  method DeltaLoop(xs: I64Seq) returns (ds: U64Seq, max: nat)
    requires xs != []
    ensures ds == Deltas(xs) && max == MaxOf(ds)
  {
    hide Zigzag, I64, Deltas, MaxOf;
    ds, max := [], 0;
    MaxEmpty();
    assert xs[0..] == xs;
    for i := 1 to |xs|
      invariant ds + Deltas(xs[i - 1..]) == Deltas(xs)
      invariant max == MaxOf(ds)
    {
      DeltasUnfold(xs, i);
      var z := Zigzag(I64(xs[i] - xs[i - 1]));
      MaxSnoc(ds, z);
      ds := ds + [z];
      if z > max { max := z; }
    }
    DeltasLast(xs[|xs| - 1..]);
  }

  lemma MaxEmpty()
    ensures MaxOf([]) == 0
  {}

  lemma DeltasLast(xs: I64Seq)
    requires |xs| == 1
    ensures Deltas(xs) == []
  {}

  lemma {:induction false} MaxSnoc(xs: seq<nat>, x: nat)
    ensures MaxOf(xs + [x]) == if x > MaxOf(xs) then x else MaxOf(xs)
  {
    if xs == [] {
      assert (xs + [x])[1..] == [];
    } else {
      assert (xs + [x])[1..] == xs[1..] + [x];
      MaxSnoc(xs[1..], x);
    }
  }

  method MinLoop(xs: I64Seq) returns (base: int)
    requires xs != []
    ensures base == MinOf(xs)
  {
    base := xs[0];
    for i := 0 to |xs|
      invariant base in xs && forall j :: 0 <= j < i ==> base <= xs[j]
    {
      if xs[i] < base { base := xs[i]; }
    }
    MinIs(xs, base);
  }

  /** The offsets from the least value, and the largest of them. */
  method OffsetLoop(xs: I64Seq) returns (base: int, os: U64Seq, max: nat)
    requires xs != []
    ensures base == MinOf(xs) && os == Offsets(xs, base) && max == MaxOf(os)
  {
    hide I64, U64, MaxOf, MinOf;
    base := MinLoop(xs);
    os, max := [], 0;
    MaxEmpty();
    for i := 0 to |xs|
      invariant |os| == i && forall j :: 0 <= j < i ==> os[j] == U64(I64(xs[j] - base))
      invariant max == MaxOf(os)
    {
      var o := U64(I64(xs[i] - base));
      MaxSnoc(os, o);
      os := os + [o];
      if o > max { max := o; }
    }
  }

  lemma MinIs(xs: I64Seq, m: int)
    requires xs != [] && m in xs && forall j :: 0 <= j < |xs| ==> m <= xs[j]
    ensures m == MinOf(xs)
  {
    var i :| 0 <= i < |xs| && xs[i] == m;
    var j :| 0 <= j < |xs| && xs[j] == MinOf(xs);
  }

  // ---- decoders ------------------------------------------------------------------------

  ghost function After(out: seq<Value>, r: Option<(seq<Value>, seq<byte>)>): Option<seq<Value>> {
    match r case None => None case Some((vs, _)) => Some(out + vs)
  }

  method DecodePlainLoop(data: seq<byte>, m: nat) returns (r: Option<seq<Value>>)
    ensures r == DecodePlain(data, m)
  {
    hide GetValue;
    var out: seq<Value> := [];
    var b := data;
    assert forall vs: seq<Value> :: [] + vs == vs;
    for i := 0 to m
      invariant After(out, ReadValues(b, m - i)) == DecodePlain(data, m)
    {
      var got := GetValue(b);
      if got.None? || got.value.1 > |b| { return None; }
      var v, n := got.value.0, got.value.1;
      ghost var rest := ReadValues(b[n..], m - i - 1);
      if rest.Some? { assert out + ([v] + rest.value.0) == out + [v] + rest.value.0; }
      out := out + [v];
      b := b[n..];
    }
    assert out + [] == out;
    return Some(out);
  }

  method DeltaSums(first: int, ds: seq<nat>) returns (xs: seq<int>)
    ensures xs == [first] + Accumulate(first, ds)
  {
    hide Unzigzag, I64, U64;
    xs := [first];
    var cur := first;
    for i := 0 to |ds|
      invariant xs + Accumulate(cur, ds[i..]) == [first] + Accumulate(first, ds)
    {
      assert ds[i..][1..] == ds[i + 1..];
      cur := I64(cur + Unzigzag(U64(ds[i])));
      xs := xs + [cur];
    }
  }

  /** Put the stream back at the positions the bitmap leaves non-null. */
  method ScatterLoop(nulls: seq<bool>, stream: seq<Value>) returns (out: seq<Value>)
    requires |stream| == CountFalse(nulls)
    ensures out == Scatter(nulls, stream)
  {
    hide Scatter, CountFalse;
    out := [];
    var j := 0;
    assert nulls[0..] == nulls && stream[0..] == stream;
    for i := 0 to |nulls|
      invariant j <= |stream| && |stream| - j == CountFalse(nulls[i..])
      invariant out + Scatter(nulls[i..], stream[j..]) == Scatter(nulls, stream)
    {
      ScatterStep(nulls, i, stream, j, out);
      if nulls[i] {
        out := out + [Null];
      } else {
        out := out + [stream[j]];
        j := j + 1;
      }
    }
    ScatterEnd(nulls[|nulls|..], stream[j..]);
  }

  lemma ScatterEnd(nulls: seq<bool>, stream: seq<Value>)
    requires nulls == [] && |stream| == CountFalse(nulls)
    ensures Scatter(nulls, stream) == []
  {}

  /** One position filled, the rest still to scatter. */
  lemma ScatterStep(nulls: seq<bool>, i: nat, stream: seq<Value>, j: nat, out: seq<Value>)
    requires i < |nulls| && j <= |stream| && |stream| - j == CountFalse(nulls[i..])
    ensures !nulls[i] ==> j < |stream|
    ensures var k := if nulls[i] then j else j + 1;
            && |stream| - k == CountFalse(nulls[i + 1..])
            && out + Scatter(nulls[i..], stream[j..])
               == out + [if nulls[i] then Null else stream[j]] + Scatter(nulls[i + 1..], stream[k..])
  {
    assert nulls[i..][1..] == nulls[i + 1..] && nulls[i..][0] == nulls[i];
    var k := if nulls[i] then j else j + 1;
    var v, rest := if nulls[i] then Null else stream[j], Scatter(nulls[i + 1..], stream[k..]);
    if !nulls[i] { assert stream[j..][1..] == stream[j + 1..]; }
    assert Scatter(nulls[i..], stream[j..]) == [v] + rest;
    assert out + ([v] + rest) == out + [v] + rest;
  }
}
