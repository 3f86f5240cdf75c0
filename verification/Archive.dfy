/**
 WAL archiving: commits captured in order, flushed to a sink in named segments by one flusher
 whose writes may fail and be retried. Sorting the segments by name gives back every flushed
 commit, once, in capture order.
 */
module Archive {
  import opened Common
  import B = Bson
  import opened Sorting

  type Bytes = seq<byte>

  /** A full page image. */
  datatype Frame = Frame(page: nat, payload: Bytes)

  /** A commit held until it is flushed; version 0 means not annotated, time 0 not known. */
  datatype Captured = Captured(lsn: nat, size: nat, frames: seq<Frame>, version: nat, time: int)

  /** A commit as archived. */
  datatype Commit = Commit(version: nat, time: int, size: nat, frames: seq<Frame>)

  /** The last version and time seen, carried forward to commits without them. */
  datatype Last = Last(version: nat, time: int)

  datatype Segment = Segment(base: Last, end: Last, commits: seq<Commit>)

  /** What a segment's name is made of. */
  datatype Label = Label(base: nat, end: nat, number: nat)

  // ---- names ------------------------------------------------------------------------------

  /** `n` in decimal, padded with zeros to `w` digits. */
  function Padded(n: nat, w: nat): (s: Bytes)
    ensures |s| == w
    decreases w
  {
    if w == 0 then [] else Padded(n / 10, w - 1) + [0x30 + n % 10]
  }

  /** The number a numeral stands for. */
  function Numeral(s: Bytes): int {
    if s == [] then 0 else 10 * Numeral(s[..|s| - 1]) - 0x30 + s[|s| - 1]
  }

  /** The digits are decimal digits and stand for the number, as far as they reach. */
  lemma {:induction false} PaddedReads(n: nat, w: nat)
    ensures forall i :: 0 <= i < w ==> 0x30 <= Padded(n, w)[i] <= 0x39
    ensures n < Pow10(w) ==> Numeral(Padded(n, w)) == n
    decreases w
  {
    if w > 0 {
      PaddedReads(n / 10, w - 1);
      assert Padded(n, w)[..w - 1] == Padded(n / 10, w - 1);
    }
  }

  function Pow10(w: nat): (p: nat)
    ensures p > 0
  {
    if w == 0 then 1 else 10 * Pow10(w - 1)
  }

  /** seg-<base>-<end>-<number>.seg */
  function NameOf(l: Label): Bytes {
    [0x73, 0x65, 0x67, 0x2D] + (Padded(l.base, 20)
        + ([0x2D] + (Padded(l.end, 20) + ([0x2D] + (Padded(l.number, 10) + [0x2E, 0x73, 0x65, 0x67])))))
  }

  /** Labels that fit the name's digits. */
  predicate Fits(l: Label) { l.base < Pow10(20) && l.end < Pow10(20) && l.number < Pow10(10) }

  lemma {:induction false} CmpSnoc(a: Bytes, b: Bytes, x: byte, y: byte)
    requires |a| == |b|
    ensures B.CmpBytes(a + [x], b + [y]) == B.Lex(B.CmpBytes(a, b), B.CmpInt(x, y))
    decreases |a|
  {
    if a == [] {
      assert a + [x] == [x] && b + [y] == [y];
      assert [x][1..] == [] && [y][1..] == [];
    } else {
      assert (a + [x])[1..] == a[1..] + [x] && (b + [y])[1..] == b[1..] + [y];
      CmpSnoc(a[1..], b[1..], x, y);
    }
  }

  /** Padded numerals of one width sort as their numbers do. */
  lemma {:induction false} PaddedOrders(a: nat, b: nat, w: nat)
    requires a < Pow10(w) && b < Pow10(w)
    ensures B.CmpBytes(Padded(a, w), Padded(b, w)) == B.CmpInt(a, b)
    decreases w
  {
    if w > 0 {
      PaddedOrders(a / 10, b / 10, w - 1);
      CmpSnoc(Padded(a / 10, w - 1), Padded(b / 10, w - 1), 0x30 + a % 10, 0x30 + b % 10);
    }
  }

  lemma {:induction false} CmpJoin(a: Bytes, b: Bytes, x: Bytes, y: Bytes)
    requires |a| == |b|
    ensures B.CmpBytes(a + x, b + y) == B.Lex(B.CmpBytes(a, b), B.CmpBytes(x, y))
    decreases |a|
  {
    if a == [] {
      assert a + x == x && b + y == y;
    } else {
      assert (a + x)[1..] == a[1..] + x && (b + y)[1..] == b[1..] + y;
      CmpJoin(a[1..], b[1..], x, y);
    }
  }

  function CmpLabel(l: Label, m: Label): int {
    B.Lex(B.CmpInt(l.base, m.base), B.Lex(B.CmpInt(l.end, m.end), B.CmpInt(l.number, m.number)))
  }

  lemma CmpSame(a: Bytes)
    ensures B.CmpBytes(a, a) == 0
  {
    B.BytesFit(a, a, a);
  }

  /** Segment names sort by base version, then end version, then number. */
  lemma NamesOrder(l: Label, m: Label)
    requires Fits(l) && Fits(m)
    ensures B.CmpBytes(NameOf(l), NameOf(m)) == CmpLabel(l, m)
  {
    hide B.CmpBytes, Padded, Pow10;
    var dot: Bytes := [0x2E, 0x73, 0x65, 0x67];
    var seg: Bytes, dash: Bytes := [0x73, 0x65, 0x67, 0x2D], [0x2D];
    CmpSame(dot);
    CmpSame(seg);
    CmpSame(dash);
    PaddedOrders(l.base, m.base, 20);
    PaddedOrders(l.end, m.end, 20);
    PaddedOrders(l.number, m.number, 10);
    var l3, m3 := Padded(l.number, 10) + dot, Padded(m.number, 10) + dot;
    CmpJoin(Padded(l.number, 10), Padded(m.number, 10), dot, dot);
    CmpJoin(dash, dash, l3, m3);
    var l2, m2 := Padded(l.end, 20) + (dash + l3), Padded(m.end, 20) + (dash + m3);
    CmpJoin(Padded(l.end, 20), Padded(m.end, 20), dash + l3, dash + m3);
    CmpJoin(dash, dash, l2, m2);
    CmpJoin(Padded(l.base, 20), Padded(m.base, 20), dash + l2, dash + m2);
    CmpJoin(seg, seg, Padded(l.base, 20) + (dash + l2), Padded(m.base, 20) + (dash + m2));
  }

  // ---- stamping a batch ---------------------------------------------------------------------

  function Later(last: Last, c: Captured): Last {
    Last(if c.version == 0 then last.version else c.version, if c.time == 0 then last.time else c.time)
  }

  /** What is known after a batch, starting from `last`. */
  function LastOf(last: Last, batch: seq<Captured>): Last {
    if batch == [] then last else Later(LastOf(last, batch[..|batch| - 1]), batch[|batch| - 1])
  }

  /** The version known after a batch, starting from `last`. */
  function EndOf(last: nat, batch: seq<Captured>): nat {
    if batch == [] then last
    else var c := batch[|batch| - 1]; if c.version == 0 then EndOf(last, batch[..|batch| - 1]) else c.version
  }

  lemma {:induction false} LastVersion(last: Last, batch: seq<Captured>)
    ensures LastOf(last, batch).version == EndOf(last.version, batch)
    decreases |batch|
  {
    if batch != [] { LastVersion(last, batch[..|batch| - 1]); }
  }

  /** Each commit under its own version and time, or the last known ones when it has none. */
  function Stamped(last: Last, batch: seq<Captured>): (cs: seq<Commit>)
    ensures |cs| == |batch|
  {
    if batch == [] then []
    else
      var c, k := batch[|batch| - 1], LastOf(last, batch);
      Stamped(last, batch[..|batch| - 1]) + [Commit(k.version, k.time, c.size, c.frames)]
  }

  method BuildSegment(last: Last, batch: seq<Captured>) returns (seg: Segment, last': Last)
    ensures seg == Segment(last, LastOf(last, batch), Stamped(last, batch)) && last' == LastOf(last, batch)
  {
    var commits: seq<Commit> := [];
    last' := last;
    for i := 0 to |batch|
      invariant last' == LastOf(last, batch[..i]) && commits == Stamped(last, batch[..i])
    {
      assert batch[..i + 1][..i] == batch[..i];
      var c := batch[i];
      var v := if c.version == 0 then last'.version else c.version;
      var ts := if c.time == 0 then last'.time else c.time;
      last' := Last(v, ts);
      commits := commits + [Commit(v, ts, c.size, c.frames)];
    }
    assert batch[..|batch|] == batch;
    seg := Segment(last, last', commits);
  }

  /** Entry `k` is the last at or before `o` that is not zero. */
  ghost predicate LastToKnow(vals: seq<int>, k: nat, o: nat) {
    k <= o < |vals| && vals[k] != 0 && forall m :: k < m <= o ==> vals[m] == 0
  }

  /** `r` is the last entry up to `o` that is not zero, or `start` when all are. */
  ghost predicate CarriedTo(start: int, vals: seq<int>, o: nat, r: int) {
    && o < |vals|
    && ((forall k :: 0 <= k <= o ==> vals[k] == 0) ==> r == start)
    && (forall k :: 0 <= k <= o && LastToKnow(vals, k, o) ==> r == vals[k])
  }

  lemma CarriedExtends(start: int, head: seq<int>, v: int, o: nat, r: int)
    requires CarriedTo(start, head, o, r)
    ensures CarriedTo(start, head + [v], o, r)
  {
    var vals := head + [v];
    forall k | 0 <= k <= o ensures vals[k] == head[k] {}
    forall k | 0 <= k <= o && LastToKnow(vals, k, o) ensures LastToKnow(head, k, o) {
      forall m | k < m <= o ensures head[m] == 0 { assert vals[m] == 0; }
    }
  }

  lemma CarriedNext(start: int, head: seq<int>, v: int, r: int)
    requires if head == [] then r == start else CarriedTo(start, head, |head| - 1, r)
    ensures CarriedTo(start, head + [v], |head|, if v == 0 then r else v)
  {
    var vals, o := head + [v], |head|;
    forall k | 0 <= k < o ensures vals[k] == head[k] {}
    assert vals[o] == v;
    forall k | 0 <= k < o && LastToKnow(vals, k, o) ensures LastToKnow(head, k, o - 1) {
      forall m | k < m <= o - 1 ensures head[m] == 0 { assert vals[m] == 0; }
    }
    if v == 0 && head != [] && forall k :: 0 <= k <= o ==> vals[k] == 0 {
      forall k | 0 <= k < o ensures head[k] == 0 { assert vals[k] == 0; }
    }
  }

  function Versions(batch: seq<Captured>): seq<int> {
    seq(|batch|, i requires 0 <= i < |batch| => batch[i].version)
  }

  function Times(batch: seq<Captured>): seq<int> {
    seq(|batch|, i requires 0 <= i < |batch| => batch[i].time)
  }

  lemma OneMore(head: seq<Captured>, c: Captured)
    ensures Versions(head + [c]) == Versions(head) + [c.version] && Times(head + [c]) == Times(head) + [c.time]
  {}

  /** What is known at commit `o`: from the last commit up to it that knows, else from before the batch. */
  ghost predicate KnownAt(last: Last, batch: seq<Captured>, o: nat, version: nat, time: int) {
    CarriedTo(last.version, Versions(batch), o, version) && CarriedTo(last.time, Times(batch), o, time)
  }

  lemma KnownExtends(last: Last, head: seq<Captured>, c: Captured, o: nat, version: nat, time: int)
    requires KnownAt(last, head, o, version, time)
    ensures KnownAt(last, head + [c], o, version, time)
  {
    hide CarriedTo, Versions, Times;
    OneMore(head, c);
    CarriedExtends(last.version, Versions(head), c.version, o, version);
    CarriedExtends(last.time, Times(head), c.time, o, time);
  }

  /** One more commit tells its own version and time, or leaves what was known. */
  lemma KnownNext(last: Last, head: seq<Captured>, c: Captured, known: Last)
    requires if head == [] then known == last else KnownAt(last, head, |head| - 1, known.version, known.time)
    ensures KnownAt(last, head + [c], |head|, Later(known, c).version, Later(known, c).time)
  {
    hide CarriedTo;
    OneMore(head, c);
    CarriedNext(last.version, Versions(head), c.version, known.version);
    CarriedNext(last.time, Times(head), c.time, known.time);
  }

  lemma {:induction false} LastKnown(last: Last, batch: seq<Captured>)
    ensures var r := LastOf(last, batch);
            if batch == [] then r == last else KnownAt(last, batch, |batch| - 1, r.version, r.time)
    decreases |batch|
  {
    hide KnownAt, Later;
    if batch != [] {
      var head := batch[..|batch| - 1];
      LastKnown(last, head);
      KnownNext(last, head, batch[|batch| - 1], LastOf(last, head));
      assert batch == head + [batch[|batch| - 1]];
    }
  }

  /**
   Each commit of a segment has the pages and size captured, and the version and time last known at
   it: from the batch, or from before it when no commit up to there knows one.
   */
  lemma {:induction false} StampsMean(last: Last, batch: seq<Captured>, o: nat)
    requires o < |batch|
    ensures var c := Stamped(last, batch)[o];
            c.size == batch[o].size && c.frames == batch[o].frames && KnownAt(last, batch, o, c.version, c.time)
    decreases |batch|
  {
    hide KnownAt, LastOf;
    if o == |batch| - 1 {
      LastKnown(last, batch);
    } else {
      var head := batch[..|batch| - 1];
      StampsMean(last, head, o);
      var c := Stamped(last, head)[o];
      KnownExtends(last, head, batch[|batch| - 1], o, c.version, c.time);
      assert batch == head + [batch[|batch| - 1]];
    }
  }

  /** What a restore needs of a commit: its pages and the database size after it. */
  datatype Redo = Redo(size: nat, frames: seq<Frame>)

  function RedoOf(cs: seq<Commit>): seq<Redo> { seq(|cs|, i requires 0 <= i < |cs| => Redo(cs[i].size, cs[i].frames)) }
  function RedoOfCaptured(cs: seq<Captured>): seq<Redo> {
    seq(|cs|, i requires 0 <= i < |cs| => Redo(cs[i].size, cs[i].frames))
  }

  /** Stamping keeps every commit's pages and the order. */
  lemma {:induction false} StampedRedo(last: Last, batch: seq<Captured>)
    ensures RedoOf(Stamped(last, batch)) == RedoOfCaptured(batch)
    decreases |batch|
  {
    if batch != [] {
      StampedRedo(last, batch[..|batch| - 1]);
      var r, q := RedoOf(Stamped(last, batch)), RedoOfCaptured(batch);
      assert r == RedoOf(Stamped(last, batch[..|batch| - 1])) + [r[|r| - 1]];
      assert q == RedoOfCaptured(batch[..|batch| - 1]) + [q[|q| - 1]];
    }
  }

  // ---- capturing and flushing, interleaved -------------------------------------------------------

  /** A segment in the sink. */
  datatype Stored = Stored(tag: Label, seg: Segment)

  /** A write in flight: the segment and how many pending commits it covers. */
  datatype Attempt = Attempt(stored: Stored, n: nat)

  datatype State = State(
    captured: seq<Captured>,      // every commit captured so far
    flushed: nat,                 // how many of them are in the sink; the rest are pending
    tried: nat,                   // how far the last build reached
    last: Last, number: nat, bufBytes: nat, maxBatch: nat,
    putting: Option<Attempt>,
    sink: seq<Stored>)            // in the order written

  function FrameBytes(frames: seq<Frame>): nat {
    if frames == [] then 0 else FrameBytes(frames[..|frames| - 1]) + |frames[|frames| - 1].payload|
  }

  function TotalBytes(cs: seq<Captured>): nat {
    if cs == [] then 0 else TotalBytes(cs[..|cs| - 1]) + FrameBytes(cs[|cs| - 1].frames)
  }

  function Payloads(frames: seq<Frame>): Bytes {
    if frames == [] then [] else frames[0].payload + Payloads(frames[1..])
  }

  lemma {:induction false} PayloadsJoin(a: seq<Frame>, b: seq<Frame>)
    ensures Payloads(a + b) == Payloads(a) + Payloads(b)
  {
    if a == [] { assert a + b == b; } else {
      assert (a + b)[1..] == a[1..] + b;
      PayloadsJoin(a[1..], b);
    }
  }

  /** What is counted for a commit is the size of all its pages together. */
  lemma {:induction false} BytesCounted(frames: seq<Frame>)
    ensures FrameBytes(frames) == |Payloads(frames)|
    decreases |frames|
  {
    if frames != [] {
      var head, last := frames[..|frames| - 1], frames[|frames| - 1];
      BytesCounted(head);
      assert frames == head + [last] && [last][1..] == [];
      PayloadsJoin(head, [last]);
    }
  }

  lemma {:induction false} TotalJoin(a: seq<Captured>, b: seq<Captured>)
    ensures TotalBytes(a + b) == TotalBytes(a) + TotalBytes(b)
    decreases |b|
  {
    if b == [] { assert a + b == a; } else {
      assert (a + b)[..|a + b| - 1] == a + b[..|b| - 1];
      TotalJoin(a, b[..|b| - 1]);
    }
  }

  datatype Step =
    | Capture(lsn: nat, size: nat, frames: seq<Frame>, time: int)
    | Annotate(lsn: nat, version: nat, time: int)
    | Build          // take a batch and name its segment, under the lock
    | PutOk          // the sink took it; drop the batch
    | PutFail        // the batch stays pending

  /** Annotated versions do not decrease in capture order. */
  ghost predicate Ordered(cs: seq<Captured>) {
    forall i, j :: 0 <= i < j < |cs| && cs[i].version != 0 && cs[j].version != 0 ==> cs[i].version <= cs[j].version
  }

  /** The commit with its version, and its time if it had none. */
  function WithVersion(c: Captured, version: nat, time: int): Captured {
    c.(version := version, time := if c.time == 0 then time else c.time)
  }

  /** `cs'` is `cs` with one pending commit annotated, or unchanged when none has this LSN. */
  ghost predicate Annotated(cs: seq<Captured>, from: nat, lsn: nat, version: nat, time: int, cs': seq<Captured>) {
    || (cs' == cs && forall i :: from <= i < |cs| ==> cs[i].lsn != lsn)
    || (exists i :: from <= i < |cs| && cs[i].lsn == lsn && cs' == cs[i := WithVersion(cs[i], version, time)])
  }

  /** No commit's version is taken back. */
  ghost predicate Kept(cs: seq<Captured>, cs': seq<Captured>) {
    forall i :: 0 <= i < |cs| && i < |cs'| && cs[i].version != 0 ==> cs'[i].version == cs[i].version
  }

  function BatchSize(s: State): nat
    requires s.flushed <= |s.captured|
  {
    if |s.captured| - s.flushed > s.maxBatch then s.maxBatch else |s.captured| - s.flushed
  }

  function Batch(s: State): seq<Captured>
    requires s.flushed <= |s.captured|
  {
    s.captured[s.flushed..s.flushed + BatchSize(s)]
  }

  /** The segment a build makes. */
  function Built(s: State): Stored
    requires s.flushed <= |s.captured|
  {
    var end := LastOf(s.last, Batch(s));
    Stored(Label(s.last.version, end.version, s.number), Segment(s.last, end, Stamped(s.last, Batch(s))))
  }

  ghost predicate Next(s: State, step: Step, s': State) {
    s.flushed <= |s.captured| &&
    match step
    case Capture(lsn, size, frames, time) =>
      s' == s.(captured := s.captured + [Captured(lsn, size, frames, 0, time)],
          bufBytes := s.bufBytes + FrameBytes(frames))
    case Annotate(lsn, version, time) =>
      Annotated(s.captured, s.flushed, lsn, version, time, s'.captured) && s' == s.(captured := s'.captured)
    case Build =>
      s.putting.None? && s.flushed < |s.captured|
      && var end := LastOf(s.last, Batch(s));
         s' == s.(last := end, number := s.number + 1, tried := s.flushed + BatchSize(s),
                  putting := Some(Attempt(Built(s), BatchSize(s))))
    case PutOk =>
      s.putting.Some? && s.flushed + s.putting.value.n <= |s.captured|
      && TotalBytes(s.captured[s.flushed..s.flushed + s.putting.value.n]) <= s.bufBytes
      && s' == s.(sink := s.sink + [s.putting.value.stored], flushed := s.flushed + s.putting.value.n, putting := None,
                  bufBytes := s.bufBytes - TotalBytes(s.captured[s.flushed..s.flushed + s.putting.value.n]))
    case PutFail =>
      s.putting.Some? && s' == s.(putting := None)
  }

  // ---- invariant -----------------------------------------------------------------------------------

  /** The last known version is some annotated commit's, among those a build has seen. */
  ghost predicate Known(cs: seq<Captured>, tried: nat, last: nat) {
    last == 0 || exists q :: 0 <= q < tried && q < |cs| && cs[q].version == last
  }

  function AllRedo(sink: seq<Stored>): seq<Redo> {
    if sink == [] then [] else AllRedo(sink[..|sink| - 1]) + RedoOf(sink[|sink| - 1].seg.commits)
  }

  /** Labels in write order sort strictly, below what a later segment will be called. */
  ghost predicate LabelsOk(sink: seq<Stored>, last: nat, number: nat) {
    && (forall i, j :: 0 <= i < j < |sink| ==> CmpLabel(sink[i].tag, sink[j].tag) < 0)
    && (forall i :: 0 <= i < |sink| ==> Below(sink[i].tag, last, number))
  }

  ghost predicate Below(l: Label, last: nat, number: nat) { l.base <= l.end <= last && l.number < number }

  /** How far capturing, building and flushing have come, and the pages in the sink and on the way to it. */
  ghost predicate Base(s: State) {
    && s.maxBatch > 0 && s.flushed <= s.tried <= |s.captured| && s.tried - s.flushed <= s.maxBatch
    && s.bufBytes == TotalBytes(s.captured[s.flushed..])
    && AllRedo(s.sink) == RedoOfCaptured(s.captured[..s.flushed])
    && (s.putting.Some? ==>
          && s.flushed + s.putting.value.n == s.tried
          && RedoOf(s.putting.value.stored.seg.commits) == RedoOfCaptured(s.captured[s.flushed..s.tried]))
  }

  /** With versions in order, so are the names. */
  ghost predicate NamesOk(s: State) {
    && Ordered(s.captured) && Known(s.captured, s.tried, s.last.version)
    && LabelsOk(s.sink, s.last.version, s.number)
    && (s.putting.Some? ==> LabelsOk(s.sink + [s.putting.value.stored], s.last.version, s.number))
  }

  ghost predicate Inv(s: State) { Base(s) && NamesOk(s) }

  /** Position of the last annotated commit, or -1. */
  function LastAnnotated(batch: seq<Captured>): (i: int)
    ensures -1 <= i < |batch| && (i >= 0 ==> batch[i].version != 0)
    ensures forall j :: i < j < |batch| ==> batch[j].version == 0
  {
    if batch == [] then -1 else if batch[|batch| - 1].version != 0 then |batch| - 1
    else LastAnnotated(batch[..|batch| - 1])
  }

  lemma {:induction false} EndIs(last: nat, batch: seq<Captured>)
    ensures EndOf(last, batch) == if LastAnnotated(batch) < 0 then last else batch[LastAnnotated(batch)].version
    decreases |batch|
  {
    if batch != [] { EndIs(last, batch[..|batch| - 1]); }
  }

  /** A build never lowers the last known version, even after a failed attempt on a shorter batch. */
  lemma EndMonotone(cs: seq<Captured>, from: nat, n: nat, tried: nat, last: nat)
    requires from + n <= |cs| && tried <= from + n && Ordered(cs) && Known(cs, tried, last)
    ensures EndOf(last, cs[from..from + n]) >= last && Known(cs, from + n, EndOf(last, cs[from..from + n]))
  {
    var batch := cs[from..from + n];
    EndIs(last, batch);
    var i := LastAnnotated(batch);
    if i >= 0 {
      assert cs[from + i] == batch[i];
      if last != 0 {
        var q :| 0 <= q < tried && q < |cs| && cs[q].version == last;
        if q >= from { assert batch[q - from] == cs[q]; }
      }
    }
  }

  lemma LabelNext(sink: seq<Stored>, last: nat, number: nat, st: Stored)
    requires LabelsOk(sink, last, number) && st.tag.base == last && st.tag.end >= last && st.tag.number == number
    ensures LabelsOk(sink + [st], st.tag.end, number + 1)
  {
    forall i | 0 <= i < |sink| ensures CmpLabel(sink[i].tag, st.tag) < 0 {
      assert Below(sink[i].tag, last, number);
    }
  }

  lemma LabelsLift(sink: seq<Stored>, last: nat, number: nat, last': nat, number': nat)
    requires LabelsOk(sink, last, number) && last <= last' && number <= number'
    ensures LabelsOk(sink, last', number')
  {}

  lemma BuildBase(s: State, s': State)
    requires Base(s) && Next(s, Build, s')
    ensures Base(s')
  {
    hide TotalBytes, AllRedo, LastOf, Stamped, RedoOf, RedoOfCaptured;
    StampedRedo(s.last, Batch(s));
  }

  lemma BuildNames(s: State, s': State)
    requires Inv(s) && Next(s, Build, s')
    ensures NamesOk(s')
  {
    hide TotalBytes, AllRedo, EndOf, LastOf, Stamped, LabelsOk, Ordered, Known, RedoOf, RedoOfCaptured;
    var n := BatchSize(s);
    LastVersion(s.last, Batch(s));
    EndMonotone(s.captured, s.flushed, n, s.tried, s.last.version);
    LabelNext(s.sink, s.last.version, s.number, s'.putting.value.stored);
    LabelsLift(s.sink, s.last.version, s.number, s'.last.version, s'.number);
  }

  lemma RedoJoin(a: seq<Captured>, b: seq<Captured>)
    ensures RedoOfCaptured(a + b) == RedoOfCaptured(a) + RedoOfCaptured(b)
  {}

  lemma PutOkBase(s: State, s': State)
    requires Base(s) && Next(s, PutOk, s')
    ensures Base(s')
  {
    hide TotalBytes, RedoOf, RedoOfCaptured;
    var cs, a, b := s.captured, s.flushed, s.tried;
    assert cs[a..] == cs[a..b] + cs[b..];
    TotalJoin(cs[a..b], cs[b..]);
    assert cs[..b] == cs[..a] + cs[a..b];
    RedoJoin(cs[..a], cs[a..b]);
    assert s'.sink[..|s'.sink| - 1] == s.sink;
  }

  lemma CaptureOrdered(cs: seq<Captured>, c: Captured, tried: nat, last: nat)
    requires Ordered(cs) && Known(cs, tried, last) && c.version == 0
    ensures Ordered(cs + [c]) && Known(cs + [c], tried, last)
  {
    if last != 0 {
      var q :| 0 <= q < tried && q < |cs| && cs[q].version == last;
      assert (cs + [c])[q] == cs[q];
    }
  }

  lemma CaptureBase(s: State, lsn: nat, size: nat, frames: seq<Frame>, time: int, s': State)
    requires Base(s) && Next(s, Capture(lsn, size, frames, time), s')
    ensures Base(s')
  {
    hide RedoOf, RedoOfCaptured, AllRedo, FrameBytes, TotalBytes;
    CaptureSlices(s.captured, Captured(lsn, size, frames, 0, time), s.flushed, s.tried);
  }

  lemma CaptureSlices(cs: seq<Captured>, c: Captured, a: nat, b: nat)
    requires a <= b <= |cs|
    ensures (cs + [c])[..a] == cs[..a] && (cs + [c])[a..b] == cs[a..b]
    ensures TotalBytes((cs + [c])[a..]) == TotalBytes(cs[a..]) + FrameBytes(c.frames)
  {
    hide FrameBytes;
    var t := (cs + [c])[a..];
    assert t[..|t| - 1] == cs[a..] && t[|t| - 1] == c;
  }

  /** Annotating changes no pages. */
  lemma {:induction false} AnnotateKeeps(a: seq<Captured>, b: seq<Captured>)
    requires |a| == |b| && forall i :: 0 <= i < |a| ==> a[i].size == b[i].size && a[i].frames == b[i].frames
    ensures RedoOfCaptured(a) == RedoOfCaptured(b) && TotalBytes(a) == TotalBytes(b)
    decreases |a|
  {
    hide FrameBytes;
    if a != [] { AnnotateKeeps(a[..|a| - 1], b[..|b| - 1]); }
  }

  lemma AnnotateBase(s: State, lsn: nat, version: nat, time: int, s': State)
    requires Base(s) && Next(s, Annotate(lsn, version, time), s')
    ensures Base(s') && |s'.captured| == |s.captured|
  {
    hide RedoOf, RedoOfCaptured, AllRedo, TotalBytes;
    var a, b := s.captured, s'.captured;
    assert |a| == |b|;
    forall i | 0 <= i < |a| ensures a[i].size == b[i].size && a[i].frames == b[i].frames {}
    AnnotateKeeps(a[s.flushed..], b[s.flushed..]);
    AnnotateKeeps(a[..s.flushed], b[..s.flushed]);
    AnnotateKeeps(a[s.flushed..s.tried], b[s.flushed..s.tried]);
  }

  lemma KnownKept(cs: seq<Captured>, cs': seq<Captured>, tried: nat, last: nat)
    requires Known(cs, tried, last) && Kept(cs, cs') && |cs| == |cs'|
    ensures Known(cs', tried, last)
  {
    if last != 0 {
      var q :| 0 <= q < tried && q < |cs| && cs[q].version == last;
      assert cs'[q].version == last;
    }
  }

  /** Annotations come in order and are not taken back. */
  ghost predicate Orderly(s: State, s': State) { Ordered(s'.captured) && Kept(s.captured, s'.captured) }

  lemma StepBase(s: State, step: Step, s': State)
    requires Base(s) && Next(s, step, s')
    ensures Base(s')
  {
    match step
    case Capture(lsn, size, frames, time) => hide Base, Next; CaptureBase(s, lsn, size, frames, time, s');
    case Annotate(lsn, version, time) => hide Base, Next; AnnotateBase(s, lsn, version, time, s');
    case Build => hide Base, Next; BuildBase(s, s');
    case PutOk => hide Base, Next; PutOkBase(s, s');
    case PutFail =>
  }

  lemma StepInv(s: State, step: Step, s': State)
    requires Inv(s) && Next(s, step, s') && Orderly(s, s')
    ensures Inv(s')
  {
    hide Base, LabelsOk, Ordered, Kept, Known, FrameBytes, TotalBytes, LastOf, Built, Annotated;
    StepBase(s, step, s');
    match step
    case Capture(lsn, size, frames, time) =>
      CaptureOrdered(s.captured, Captured(lsn, size, frames, 0, time), s.tried, s.last.version);
    case Annotate(lsn, version, time) =>
      AnnotateBase(s, lsn, version, time, s');
      KnownKept(s.captured, s'.captured, s.tried, s.last.version);
    case Build => hide Inv, Next; BuildNames(s, s');
    case PutOk =>
    case PutFail =>
  }

  function Start(maxBatch: nat): State { State([], 0, 0, Last(0, 0), 0, 0, maxBatch, None, []) }

  /** Any interleaving of captures, annotations, builds and writes that succeed or fail. */
  ghost predicate Trace(states: seq<State>, steps: seq<Step>) {
    && |states| == |steps| + 1
    && states[0].maxBatch > 0 && states[0] == Start(states[0].maxBatch)
    && (forall i :: 0 <= i < |steps| ==> Next(states[i], steps[i], states[i + 1]))
  }

  /** A run: the versions the archiver holds come in order and are not taken back. */
  ghost predicate Run(states: seq<State>, steps: seq<Step>) {
    Trace(states, steps) && forall i :: 0 <= i < |steps| ==> Orderly(states[i], states[i + 1])
  }

  lemma InitInv(maxBatch: nat)
    requires maxBatch > 0
    ensures Inv(Start(maxBatch))
  {}

  lemma {:induction false} RunInv(states: seq<State>, steps: seq<Step>, i: nat)
    requires Run(states, steps) && i < |states|
    ensures Inv(states[i])
  {
    hide Next, Inv, Orderly;
    if i == 0 { InitInv(states[0].maxBatch); } else {
      RunInv(states, steps, i - 1);
      StepInv(states[i - 1], steps[i - 1], states[i]);
    }
  }

  /** A captured commit keeps its place, LSN, size and pages, and a time it has. */
  ghost predicate KeptCommits(cs: seq<Captured>, cs': seq<Captured>) {
    && |cs| <= |cs'|
    && forall k :: 0 <= k < |cs| ==>
         && cs'[k].lsn == cs[k].lsn && cs'[k].size == cs[k].size && cs'[k].frames == cs[k].frames
         && (cs[k].time != 0 ==> cs'[k].time == cs[k].time)
  }

  lemma StepKeepsCommits(s: State, step: Step, s': State)
    requires Next(s, step, s')
    ensures KeptCommits(s.captured, s'.captured)
  {
    hide TotalBytes, FrameBytes, LastOf, Built;
  }

  lemma {:induction false} CommitsStay(states: seq<State>, steps: seq<Step>, m: nat, i: nat)
    requires Trace(states, steps) && m <= i < |states|
    ensures KeptCommits(states[m].captured, states[i].captured)
    decreases i
  {
    hide Next, Start;
    if m < i {
      CommitsStay(states, steps, m, i - 1);
      StepKeepsCommits(states[i - 1], steps[i - 1], states[i]);
    }
  }

  /** A capture adds one commit as it was handed in, and the commit stays so. */
  lemma CaptureStays(states: seq<State>, steps: seq<Step>, m: nat, i: nat)
    requires Trace(states, steps) && m < i < |states| && steps[m].Capture?
    ensures var k, st := |states[m].captured|, steps[m];
            k < |states[i].captured|
            && var c := states[i].captured[k];
               c.lsn == st.lsn && c.size == st.size && c.frames == st.frames && (st.time != 0 ==> c.time == st.time)
  {
    assert Next(states[m], steps[m], states[m + 1]);
    hide Next, Start;
    CommitsStay(states, steps, m + 1, i);
  }

  /**
   An annotation of a pending commit gives it the version, and the time when it had none; both stay.
   The version of another commit is not touched.
   */
  lemma AnnotationStays(states: seq<State>, steps: seq<Step>, m: nat, i: nat, p: nat) returns (k: nat)
    requires Trace(states, steps) && m < i < |states| && steps[m].Annotate?
    requires states[m].flushed <= p < |states[m].captured| && states[m].captured[p].lsn == steps[m].lsn
    ensures states[m].flushed <= k < |states[m].captured| <= |states[i].captured|
    ensures states[m].captured[k].lsn == steps[m].lsn
    ensures k < |states[m + 1].captured| && states[m + 1].captured[k].version == steps[m].version
    ensures var t := states[m].captured[k].time;
            && (t != 0 ==> states[i].captured[k].time == t)
            && (t == 0 && steps[m].time != 0 ==> states[i].captured[k].time == steps[m].time)
    ensures forall j :: 0 <= j < |states[m].captured| && j != k ==>
              j < |states[m + 1].captured| && states[m + 1].captured[j] == states[m].captured[j]
  {
    k := Annotates(states[m], steps[m], states[m + 1], p);
    hide Next, Start;
    CommitsStay(states, steps, m + 1, i);
  }

  lemma Annotates(s: State, step: Step, s': State, p: nat) returns (k: nat)
    requires Next(s, step, s') && step.Annotate?
    requires s.flushed <= p < |s.captured| && s.captured[p].lsn == step.lsn
    ensures s.flushed <= k < |s.captured| == |s'.captured| && s.captured[k].lsn == step.lsn
    ensures s'.captured[k].version == step.version
    ensures s'.captured[k].time == if s.captured[k].time == 0 then step.time else s.captured[k].time
    ensures forall j :: 0 <= j < |s.captured| && j != k ==> s'.captured[j] == s.captured[j]
  {
    k :| s.flushed <= k < |s.captured| && s.captured[k].lsn == step.lsn
         && s'.captured == s.captured[k := WithVersion(s.captured[k], step.version, step.time)];
  }

  // ---- reading the archive back ----------------------------------------------------------------------

  function ByName(): Cmp<Stored> { (a: Stored, b: Stored) => B.CmpBytes(NameOf(a.tag), NameOf(b.tag)) }

  lemma ByNameIsPreorder()
    ensures Preorder(ByName())
  {
    hide NameOf, B.CmpBytes;
    forall a, b: Stored ensures ByName()(a, b) == -ByName()(b, a) { B.BytesFit(NameOf(a.tag), NameOf(b.tag), []); }
    forall a, b, c: Stored | ByName()(a, b) <= 0 && ByName()(b, c) <= 0 ensures ByName()(a, c) <= 0 {
      B.BytesFit(NameOf(a.tag), NameOf(b.tag), NameOf(c.tag));
    }
  }

  ghost predicate NamesIncrease(sink: seq<Stored>) {
    forall i, j :: 0 <= i < j < |sink| ==> ByName()(sink[i], sink[j]) < 0
  }

  lemma SinkIncreases(sink: seq<Stored>, last: nat, number: nat)
    requires LabelsOk(sink, last, number) && forall i :: 0 <= i < |sink| ==> Fits(sink[i].tag)
    ensures NamesIncrease(sink)
  {
    hide NameOf, B.CmpBytes, Fits;
    forall i, j | 0 <= i < j < |sink| ensures ByName()(sink[i], sink[j]) < 0 { NamesOrder(sink[i].tag, sink[j].tag); }
  }

  /** Distinct names determine where each segment goes. */
  lemma PlacedByName(sink: seq<Stored>, out: seq<Stored>, i: nat)
    requires NamesIncrease(sink) && Sorted(ByName(), out) && multiset(out) == multiset(sink) && i < |sink|
    ensures |out| == |sink| && out[i] == sink[i]
  {
    hide ByName;
    ByNameIsPreorder();
    assert Sorted(ByName(), sink);
    assert |out| == |multiset(out)| && |sink| == |multiset(sink)|;
    SortedUnique(ByName(), out, sink, i);
    assert out[i] in multiset(out);
    assert out[i] in multiset(sink);
    var j :| 0 <= j < |sink| && sink[j] == out[i];
    Flip(ByName(), sink[i], sink[j]);
  }

  /** Sorting a listing by name gives the order the segments were written in. */
  lemma SortingRestoresOrder(sink: seq<Stored>, listed: seq<Stored>, last: nat, number: nat)
    requires LabelsOk(sink, last, number) && multiset(listed) == multiset(sink)
    requires forall i :: 0 <= i < |sink| ==> Fits(sink[i].tag)
    ensures StableSort(ByName(), listed) == sink
  {
    hide StableSort, ByName, NamesIncrease, LabelsOk, Fits, Sorted, Preorder;
    ByNameIsPreorder();
    StableSortSorts(ByName(), listed);
    SinkIncreases(sink, last, number);
    var out := StableSort(ByName(), listed);
    assert |out| == |multiset(out)| && |sink| == |multiset(sink)|;
    forall i | 0 <= i < |sink| ensures out[i] == sink[i] { PlacedByName(sink, out, i); }
  }

  /**
   Whatever was captured, annotated, flushed, failed and retried, sorting the sink's segments by
   name gives the pages of every flushed commit exactly once in capture order, and the byte count
   in memory is that of the commits still pending.
   */
  lemma ArchiveIsComplete(states: seq<State>, steps: seq<Step>, i: nat, listed: seq<Stored>)
    requires Run(states, steps) && i < |states| && multiset(listed) == multiset(states[i].sink)
    requires forall j :: 0 <= j < |states[i].sink| ==> Fits(states[i].sink[j].tag)
    ensures states[i].flushed <= |states[i].captured|
    ensures AllRedo(StableSort(ByName(), listed)) == RedoOfCaptured(states[i].captured[..states[i].flushed])
    ensures states[i].bufBytes == TotalBytes(states[i].captured[states[i].flushed..])
  {
    hide Next, AllRedo, RedoOf, RedoOfCaptured, TotalBytes, LabelsOk, StableSort, Fits;
    RunInv(states, steps, i);
    SortingRestoresOrder(states[i].sink, listed, states[i].last.version, states[i].number);
  }

  // ---- the archiver object -------------------------------------------------------------------------

  /** The archiver: observers run on the commit path, the flusher between them. */
  class Archiver {
    const maxBatch: nat
    var pending: seq<Captured>
    var last: Last
    var number: nat
    var bufBytes: nat
    ghost var history: State

    /** The fields are those of the recorded history. */
    ghost predicate Valid()
      reads this
    {
      && Base(history) && history.maxBatch == maxBatch
      && pending == history.captured[history.flushed..]
      && last == history.last && number == history.number && bufBytes == history.bufBytes
    }

    constructor (maxBatch: nat)
      requires maxBatch > 0
      ensures Valid() && history == Start(maxBatch)
    {
      InitInv(maxBatch);
      this.maxBatch := maxBatch;
      pending, last, number, bufBytes := [], Last(0, 0), 0, 0;
      history := Start(maxBatch);
    }

    method ObserveCommit(lsn: nat, size: nat, frames: seq<Frame>, time: int)
      requires Valid()
      modifies this
      ensures Valid() && Next(old(history), Capture(lsn, size, frames, time), history)
    {
      hide FrameBytes, TotalBytes, AllRedo, RedoOf, RedoOfCaptured;
      var bytes := SumBytes(frames);
      var c := Captured(lsn, size, frames, 0, time);
      ghost var h := history.(captured := history.captured + [c], bufBytes := history.bufBytes + bytes);
      assert h.captured[h.flushed..] == pending + [c];
      CaptureBase(history, lsn, size, frames, time, h);
      pending, bufBytes, history := pending + [c], bufBytes + bytes, h;
    }

    /** Annotate the pending commit with this LSN, if it is still pending. */
    method ObserveVersion(lsn: nat, version: nat, time: int)
      requires Valid()
      modifies this
      ensures Valid() && Next(old(history), Annotate(lsn, version, time), history)
    {
      hide FrameBytes, TotalBytes, AllRedo, RedoOf, RedoOfCaptured, Base;
      assert history.flushed <= |history.captured| by { BaseBounds(history); }
      var i := 0;
      while i < |pending| && pending[i].lsn != lsn
        invariant i <= |pending| && forall j :: 0 <= j < i ==> pending[j].lsn != lsn
        modifies {}
      {
        i := i + 1;
      }
      if i < |pending| {
        var c := WithVersion(pending[i], version, time);
        ghost var h := history.(captured := history.captured[history.flushed + i := c]);
        assert Annotated(history.captured, history.flushed, lsn, version, time, h.captured);
        AnnotateBase(history, lsn, version, time, h);
        assert h.captured[h.flushed..] == pending[i := c];
        pending, history := pending[i := c], h;
      } else {
        forall k | history.flushed <= k < |history.captured| ensures history.captured[k].lsn != lsn {
          assert pending[k - history.flushed] == history.captured[k];
        }
        assert Annotated(history.captured, history.flushed, lsn, version, time, history.captured);
      }
    }

    /** First half of a flush: take a batch, build and name its segment. */
    method BeginFlush() returns (st: Stored, n: nat)
      requires Valid() && history.putting.None? && pending != []
      modifies this
      ensures Valid() && Next(old(history), Build, history) && history.putting == Some(Attempt(st, n))
      ensures n == if |old(pending)| < maxBatch then |old(pending)| else maxBatch
    {
      hide FrameBytes, TotalBytes, AllRedo, RedoOf, RedoOfCaptured, LastOf, Stamped;
      n := |pending|;
      if n > maxBatch { n := maxBatch; }
      assert pending[..n] == Batch(history);
      var seg, last' := BuildSegment(last, pending[..n]);
      st := Stored(Label(seg.base.version, seg.end.version, number), seg);
      ghost var h := history.(last := last', number := number + 1, tried := history.flushed + n,
          putting := Some(Attempt(st, n)));
      BuildBase(history, h);
      last, number, history := last', number + 1, h;
    }

    /** Second half, once the sink has answered. */
    method EndFlush(n: nat, ok: bool)
      requires Valid() && history.putting.Some? && history.putting.value.n == n
      modifies this
      ensures Valid() && Next(old(history), if ok then PutOk else PutFail, history)
    {
      hide FrameBytes, TotalBytes, AllRedo, RedoOf, RedoOfCaptured;
      if ok {
        BatchFits(history);
        assert pending[..n] == history.captured[history.flushed..history.flushed + n];
        var bytes := BatchBytes(pending[..n]);
        ghost var h := history.(sink := history.sink + [history.putting.value.stored], flushed := history.flushed + n,
                                putting := None, bufBytes := history.bufBytes - bytes);
        assert h.captured[h.flushed..] == pending[n..];
        PutOkBase(history, h);
        pending, bufBytes, history := pending[n..], bufBytes - bytes, h;
      } else {
        history := history.(putting := None);
      }
    }
  }

  lemma BaseBounds(s: State)
    requires Base(s)
    ensures s.flushed <= |s.captured|
  {}

  method SumBytes(frames: seq<Frame>) returns (bytes: nat)
    ensures bytes == FrameBytes(frames)
  {
    bytes := 0;
    for i := 0 to |frames|
      invariant bytes == FrameBytes(frames[..i])
    {
      assert frames[..i + 1][..i] == frames[..i];
      bytes := bytes + |frames[i].payload|;
    }
    assert frames[..|frames|] == frames;
  }

  method BatchBytes(batch: seq<Captured>) returns (bytes: nat)
    ensures bytes == TotalBytes(batch)
  {
    bytes := 0;
    for i := 0 to |batch|
      invariant bytes == TotalBytes(batch[..i])
    {
      assert batch[..i + 1][..i] == batch[..i];
      bytes := bytes + FrameBytes(batch[i].frames);
    }
    assert batch[..|batch|] == batch;
  }

  lemma BatchFits(s: State)
    requires Base(s) && s.putting.Some?
    ensures s.flushed + s.putting.value.n <= |s.captured|
    ensures TotalBytes(s.captured[s.flushed..s.flushed + s.putting.value.n]) <= s.bufBytes
  {
    hide TotalBytes, AllRedo, RedoOf, RedoOfCaptured;
    var cs, a, b := s.captured, s.flushed, s.tried;
    assert cs[a..] == cs[a..b] + cs[b..];
    TotalJoin(cs[a..b], cs[b..]);
  }
}
