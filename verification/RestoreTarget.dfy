/**
 Where a restore stops. A commit belongs to the last version announced for it or a commit before
 it, whether or not the archiver still held that commit then; a restore to a version should
 replay the commits that belong at or below it and no others. It misses none exactly when no
 retried write stamped a batch's leading commits with a version seen beyond them, and replays no
 other exactly when no version was announced too late to be stamped.
 */
module RestoreTarget {
  import opened Common
  import opened Archive
  import opened Sorting
  import opened Restore

  /** The version commit `k` belongs to, 0 before any is known. */
  function Carried(cs: seq<Captured>, k: nat): nat
    requires k < |cs|
  {
    EndOf(0, cs[..k + 1])
  }

  function Stop(cs: seq<Commit>, v: nat): nat { Reach(cs, 0, Target(v, None)) }

  // ---- announced versions ----------------------------------------------------------------------

  /** The version announced for an LSN within the first `i` steps, 0 if none was. */
  function Announced(steps: seq<Step>, i: nat, lsn: nat): nat
    requires i <= |steps|
  {
    if i == 0 then 0
    else if steps[i - 1].Annotate? && steps[i - 1].lsn == lsn then steps[i - 1].version
    else Announced(steps, i - 1, lsn)
  }

  /** The captured commits under their announced versions, whatever the archiver made of those. */
  function Told(steps: seq<Step>, i: nat, caps: seq<Captured>): seq<Captured>
    requires i <= |steps|
  {
    seq(|caps|, k requires 0 <= k < |caps| => caps[k].(version := Announced(steps, i, caps[k].lsn)))
  }

  /** An announcement names a captured commit, and repeats what was announced of it if anything was. */
  ghost predicate Announces(s: State, step: Step, steps: seq<Step>, i: nat)
    requires i <= |steps|
  {
    step.Annotate? ==>
      && step.version > 0 && (exists k :: 0 <= k < |s.captured| && s.captured[k].lsn == step.lsn)
      && (Announced(steps, i, step.lsn) == 0 || Announced(steps, i, step.lsn) == step.version)
  }

  ghost predicate DistinctLSNs(caps: seq<Captured>) {
    forall j, k :: 0 <= j < k < |caps| ==> caps[j].lsn != caps[k].lsn
  }

  /** A trace of commits with their own LSNs, announced once captured, in order. */
  ghost predicate Reported(states: seq<State>, steps: seq<Step>) {
    && Trace(states, steps)
    && (forall i :: 0 <= i < |steps| ==> Announces(states[i], steps[i], steps, i))
    && (forall i :: 0 <= i < |states| ==> DistinctLSNs(states[i].captured)
                                          && Ordered(Told(steps, i, states[i].captured)))
  }

  lemma ReportedSize(states: seq<State>, steps: seq<Step>)
    requires Reported(states, steps)
    ensures |states| == |steps| + 1
  {}

  /** What the archiver holds of a commit was announced. */
  ghost predicate Heard(steps: seq<Step>, i: nat, caps: seq<Captured>)
    requires i <= |steps|
  {
    Kept(caps, Told(steps, i, caps))
  }

  lemma StepHears(steps: seq<Step>, i: nat, s: State, s': State)
    requires i < |steps| && Next(s, steps[i], s') && Announces(s, steps[i], steps, i) && Heard(steps, i, s.captured)
    ensures Heard(steps, i + 1, s'.captured) && Kept(s.captured, s'.captured)
  {
    hide Built, LastOf, TotalBytes, FrameBytes;
    var was, now := s.captured, s'.captured;
    forall k | 0 <= k < |now| && now[k].version != 0 ensures now[k].version == Announced(steps, i + 1, now[k].lsn) {
      if k < |was| && was[k].version != 0 { assert Told(steps, i, was)[k].version == was[k].version; }
    }
    forall k | 0 <= k < |was| && was[k].version != 0 ensures k < |now| ==> now[k].version == was[k].version {
      assert Told(steps, i, was)[k].version == was[k].version;
    }
  }

  lemma {:induction false} TraceHears(states: seq<State>, steps: seq<Step>, i: nat)
    requires Reported(states, steps) && i < |states|
    ensures Heard(steps, i, states[i].captured)
  {
    hide Next, Announces, Ordered, DistinctLSNs;
    if i > 0 {
      TraceHears(states, steps, i - 1);
      hide Heard;
      StepHears(steps, i - 1, states[i - 1], states[i]);
    }
  }

  /** Announcements in order keep what the archiver holds in order. */
  lemma ReportedRuns(states: seq<State>, steps: seq<Step>)
    requires Reported(states, steps)
    ensures Run(states, steps)
  {
    hide Next, Announces, DistinctLSNs;
    forall i | 0 <= i < |steps| ensures Orderly(states[i], states[i + 1]) {
      TraceHears(states, steps, i);
      TraceHears(states, steps, i + 1);
      StepHears(steps, i, states[i], states[i + 1]);
      HeardOrdered(steps, i + 1, states[i + 1].captured);
    }
  }

  lemma HeardOrdered(steps: seq<Step>, i: nat, caps: seq<Captured>)
    requires i <= |steps| && Heard(steps, i, caps) && Ordered(Told(steps, i, caps))
    ensures Ordered(caps)
  {
    var told := Told(steps, i, caps);
    forall j, k | 0 <= j < k < |caps| && caps[j].version != 0 && caps[k].version != 0
      ensures caps[j].version <= caps[k].version
    {
      assert told[j].version == caps[j].version && told[k].version == caps[k].version;
    }
  }

  lemma AnnouncesAt(states: seq<State>, steps: seq<Step>, m: nat)
    requires Reported(states, steps) && m < |steps| && steps[m].Annotate?
    ensures steps[m].version > 0
    ensures Announced(steps, m, steps[m].lsn) == 0 || Announced(steps, m, steps[m].lsn) == steps[m].version
  {
    hide Next, Ordered, DistinctLSNs, Told, Announced;
    assert Announces(states[m], steps[m], steps, m);
  }

  /** An announcement is what is known of its commit from then on. */
  lemma {:induction false} AnnouncedStays(states: seq<State>, steps: seq<Step>, m: nat, i: nat)
    requires Reported(states, steps) && m < i <= |steps| && steps[m].Annotate?
    ensures Announced(steps, i, steps[m].lsn) == steps[m].version > 0
    decreases i
  {
    hide Reported;
    AnnouncesAt(states, steps, m);
    if m < i - 1 {
      AnnouncedStays(states, steps, m, i - 1);
      if steps[i - 1].Annotate? { AnnouncesAt(states, steps, i - 1); }
    }
  }

  lemma {:induction false} AnnouncedBy(steps: seq<Step>, i: nat, lsn: nat) returns (m: nat)
    requires i <= |steps| && Announced(steps, i, lsn) != 0
    ensures m < i && steps[m].Annotate? && steps[m].lsn == lsn && steps[m].version == Announced(steps, i, lsn)
  {
    if steps[i - 1].Annotate? && steps[i - 1].lsn == lsn { m := i - 1; } else { m := AnnouncedBy(steps, i - 1, lsn); }
  }

  /** The captured commits of state `i` under the versions announced by then. */
  function Truth(states: seq<State>, steps: seq<Step>, i: nat): (t: seq<Captured>)
    requires |states| == |steps| + 1 && i < |states|
    ensures |t| == |states[i].captured|
  {
    Told(steps, i, states[i].captured)
  }

  lemma TruthAt(states: seq<State>, steps: seq<Step>, i: nat, k: nat)
    requires |states| == |steps| + 1 && i < |states| && k < |states[i].captured|
    ensures Truth(states, steps, i)[k].version == Announced(steps, i, states[i].captured[k].lsn)
  {
    hide Announced;
  }

  // ---- stamps -----------------------------------------------------------------------------

  /** A stamped commit carries the last version annotated in its batch up to it, or the one it started from. */
  lemma {:induction false} StampIs(last: Last, batch: seq<Captured>, o: nat)
    requires o < |batch|
    ensures Stamped(last, batch)[o].version == EndOf(last.version, batch[..o + 1])
    ensures Stamped(last, batch)[o].time == LastOf(last, batch[..o + 1]).time
    decreases |batch|
  {
    hide EndOf, LastOf;
    if o == |batch| - 1 {
      assert batch[..o + 1] == batch;
      LastVersion(last, batch);
    } else {
      var head := batch[..|batch| - 1];
      StampIs(last, head, o);
      assert head[..o + 1] == batch[..o + 1];
    }
  }

  /** The version belonged to is that of an annotated commit at or before, and none in between is annotated. */
  lemma CarriedFrom(cs: seq<Captured>, k: nat, a: nat)
    requires k < |cs| && a <= k && Ordered(cs) && cs[a].version != 0
    ensures cs[a].version <= Carried(cs, k)
  {
    EndIs(0, cs[..k + 1]);
    var i := LastAnnotated(cs[..k + 1]);
    assert cs[..k + 1][a] == cs[a];
    assert cs[..k + 1][i] == cs[i];
  }

  lemma CarriedGrows(cs: seq<Captured>, j: nat, k: nat)
    requires j <= k < |cs| && Ordered(cs)
    ensures Carried(cs, j) <= Carried(cs, k)
  {
    EndIs(0, cs[..j + 1]);
    var i := LastAnnotated(cs[..j + 1]);
    if i >= 0 {
      assert cs[..j + 1][i] == cs[i];
      CarriedFrom(cs, k, i);
    }
  }

  /** `now` is `then` with more captured and more annotated. */
  ghost predicate Grown(was: seq<Captured>, now: seq<Captured>) {
    |was| <= |now| && Kept(was, now)
  }

  /** A stamp is at most the version its commit belongs to, unless the batch gave it none: then it is the start's. */
  lemma StampBounded(was: seq<Captured>, now: seq<Captured>, from: nat, n: nat, last: Last, o: nat)
    requires Grown(was, now) && Ordered(now) && from + n <= |was| && o < n
    ensures var stamp := Stamped(last, was[from..from + n])[o].version;
            stamp <= Carried(now, from + o) || (stamp == last.version && was[from].version == 0)
  {
    hide Stamped, EndOf;
    var batch := was[from..from + n];
    StampIs(last, batch, o);
    EndIs(last.version, batch[..o + 1]);
    var i := LastAnnotated(batch[..o + 1]);
    if i >= 0 {
      assert batch[..o + 1][i] == was[from + i];
      CarriedFrom(now, from + o, from + i);
    } else {
      assert batch[..o + 1][0] == was[from];
    }
  }

  // ---- which build made a segment ---------------------------------------------------------------

  /** Commits in the first `q` segments. */
  function Before(sink: seq<Stored>, q: nat): nat
    requires q <= |sink|
  {
    if q == 0 then 0 else Before(sink, q - 1) + |sink[q - 1].seg.commits|
  }

  lemma {:induction false} BeforeSame(a: seq<Stored>, b: seq<Stored>, q: nat)
    requires q <= |a| && a <= b
    ensures Before(a, q) == Before(b, q)
  {
    if q > 0 { BeforeSame(a, b, q - 1); }
  }

  /** Step `b` built the segment `st`, which starts at captured commit `from`. */
  ghost predicate BuiltAt(states: seq<State>, steps: seq<Step>, b: nat, st: Stored, from: nat) {
    && b < |steps| && |states| == |steps| + 1 && steps[b] == Build
    && states[b].flushed == from < |states[b].captured| && st == Built(states[b])
  }

  /** Some step before `i` built it. */
  ghost predicate Made(states: seq<State>, steps: seq<Step>, i: nat, st: Stored, from: nat) {
    exists b: nat :: b < i && BuiltAt(states, steps, b, st, from)
  }

  /** Every segment written was built by some step. */
  ghost predicate SinkMade(states: seq<State>, steps: seq<Step>, i: nat, sink: seq<Stored>) {
    forall q :: 0 <= q < |sink| ==> Made(states, steps, i, sink[q], Before(sink, q))
  }

  /** So it is in state `i`, and for the one being written. */
  ghost predicate Origins(states: seq<State>, steps: seq<Step>, i: nat, s: State) {
    && s.flushed == Before(s.sink, |s.sink|) && SinkMade(states, steps, i, s.sink)
    && (s.putting.Some? ==>
          && |s.putting.value.stored.seg.commits| == s.putting.value.n
          && Made(states, steps, i, s.putting.value.stored, s.flushed))
  }

  lemma MadeLater(states: seq<State>, steps: seq<Step>, i: nat, st: Stored, from: nat)
    requires Made(states, steps, i, st, from)
    ensures Made(states, steps, i + 1, st, from)
  {
    hide BuiltAt;
    var b: nat :| b < i && BuiltAt(states, steps, b, st, from);
    assert b < i + 1;
  }

  lemma {:induction false} SinkMadeLater(states: seq<State>, steps: seq<Step>, i: nat, sink: seq<Stored>)
    requires SinkMade(states, steps, i, sink)
    ensures SinkMade(states, steps, i + 1, sink)
  {
    hide Made;
    forall q | 0 <= q < |sink| ensures Made(states, steps, i + 1, sink[q], Before(sink, q)) {
      MadeLater(states, steps, i, sink[q], Before(sink, q));
    }
  }

  lemma {:induction false} RunOrigins(states: seq<State>, steps: seq<Step>, i: nat)
    requires Run(states, steps) && i < |states|
    ensures Origins(states, steps, i, states[i])
  {
    hide Orderly, Next, Origins;
    if i == 0 {
      FirstOrigins(states, steps, states[0].maxBatch);
    } else {
      RunOrigins(states, steps, i - 1);
      StepOrigins(states, steps, i - 1);
    }
  }

  lemma FirstOrigins(states: seq<State>, steps: seq<Step>, maxBatch: nat)
    ensures Origins(states, steps, 0, Start(maxBatch))
  {}

  lemma StepOrigins(states: seq<State>, steps: seq<Step>, i: nat)
    requires |states| == |steps| + 1 && i < |steps|
    requires Origins(states, steps, i, states[i]) && Next(states[i], steps[i], states[i + 1])
    ensures Origins(states, steps, i + 1, states[i + 1])
  {
    hide Made, SinkMade, Before, Built, TotalBytes, FrameBytes, Annotated;
    var s, s' := states[i], states[i + 1];
    SinkMadeLater(states, steps, i, s.sink);
    if s.putting.Some? { MadeLater(states, steps, i, s.putting.value.stored, s.flushed); }
    if steps[i].Build? {
      BuiltSize(s);
      MadeNow(states, steps, i);
    } else if steps[i].PutOk? {
      SinkGrows(states, steps, i + 1, s.sink, s.putting.value.stored);
      BeforeSnoc(s.sink, s.putting.value.stored);
    }
  }

  lemma BuiltSize(s: State)
    requires s.flushed <= |s.captured|
    ensures |Built(s).seg.commits| == BatchSize(s)
  {}

  lemma MadeNow(states: seq<State>, steps: seq<Step>, i: nat)
    requires |states| == |steps| + 1 && i < |steps| && steps[i] == Build && states[i].flushed < |states[i].captured|
    ensures Made(states, steps, i + 1, Built(states[i]), states[i].flushed)
  {
    assert BuiltAt(states, steps, i, Built(states[i]), states[i].flushed);
  }

  lemma BeforeSnoc(sink: seq<Stored>, st: Stored)
    ensures Before(sink + [st], |sink| + 1) == Before(sink, |sink|) + |st.seg.commits|
    ensures forall q :: 0 <= q <= |sink| ==> Before(sink + [st], q) == Before(sink, q)
  {
    forall q | 0 <= q <= |sink| ensures Before(sink + [st], q) == Before(sink, q) { BeforeSame(sink, sink + [st], q); }
  }

  lemma MadeAt(states: seq<State>, steps: seq<Step>, i: nat, sink: seq<Stored>, q: nat)
    requires SinkMade(states, steps, i, sink) && q < |sink|
    ensures Made(states, steps, i, sink[q], Before(sink, q))
  {}

  lemma SinkGrows(states: seq<State>, steps: seq<Step>, i: nat, sink: seq<Stored>, st: Stored)
    requires SinkMade(states, steps, i, sink) && Made(states, steps, i, st, Before(sink, |sink|))
    ensures SinkMade(states, steps, i, sink + [st])
  {
    hide Made, Before;
    var more := sink + [st];
    BeforeSnoc(sink, st);
    assert SinkMade(states, steps, i, more) by {
      forall q | 0 <= q < |more| ensures Made(states, steps, i, more[q], Before(more, q)) {
        if q < |sink| {
          hide SinkMade;
          MadeAt(states, steps, i, sink, q);
        }
      }
    }
  }

  /** Along a run commits are added and annotated, nothing else. */
  lemma {:induction false} CapturedGrows(states: seq<State>, steps: seq<Step>, b: nat, i: nat)
    requires Run(states, steps) && b <= i < |states|
    ensures Grown(states[b].captured, states[i].captured)
    decreases i
  {
    hide Ordered;
    if b < i {
      CapturedGrows(states, steps, b, i - 1);
      var s, s' := states[i - 1], states[i];
      assert Next(s, steps[i - 1], s') && Orderly(s, s');
      assert |s.captured| <= |s'.captured|;
    }
  }

  /** So the versions known at a build are among those announced later. */
  lemma TruthGrows(states: seq<State>, steps: seq<Step>, b: nat, i: nat)
    requires Reported(states, steps) && b <= i < |states|
    ensures Grown(states[b].captured, Truth(states, steps, i)) && Ordered(Truth(states, steps, i))
  {
    hide Next, Announces, DistinctLSNs, Ordered;
    ReportedRuns(states, steps);
    CapturedGrows(states, steps, b, i);
    TraceHears(states, steps, i);
  }

  // ---- where each stamp comes from ---------------------------------------------------------------

  /** Position `k` of all commits is `o` within segment `q`. */
  lemma {:induction false} Located(segs: seq<Stored>, k: nat) returns (q: nat, o: nat)
    requires k < |AllCommits(segs)|
    ensures q < |segs| && o < |segs[q].seg.commits| && k == Before(segs, q) + o
    ensures AllCommits(segs)[k] == segs[q].seg.commits[o] && |AllCommits(segs)| == Before(segs, |segs|)
    decreases |segs|
  {
    var head := segs[..|segs| - 1];
    AllCount(head);
    BeforeSame(head, segs, |head|);
    if k < |AllCommits(head)| {
      q, o := Located(head, k);
      BeforeSame(head, segs, q);
    } else {
      q, o := |segs| - 1, k - |AllCommits(head)|;
    }
  }

  lemma {:induction false} AllCount(segs: seq<Stored>)
    ensures |AllCommits(segs)| == Before(segs, |segs|)
    decreases |segs|
  {
    if segs != [] {
      var head := segs[..|segs| - 1];
      AllCount(head);
      BeforeSame(head, segs, |head|);
    }
  }

  lemma {:induction false} AllAt(segs: seq<Stored>, q: nat, o: nat)
    requires q < |segs| && o < |segs[q].seg.commits|
    ensures Before(segs, q) + o < |AllCommits(segs)| && AllCommits(segs)[Before(segs, q) + o] == segs[q].seg.commits[o]
    decreases |segs|
  {
    var head := segs[..|segs| - 1];
    AllCount(head);
    BeforeSame(head, segs, |head|);
    if q < |head| {
      AllAt(head, q, o);
      BeforeSame(head, segs, q);
    }
  }

  /**
   A retried write that shows: the build at `b`, whose segment is in the sink at `i`, came after a
   failed write had moved the last known version beyond what its first commit, which has no
   version, belongs to. (Nothing is told apart below version 1.)
   */
  ghost predicate Restamps(states: seq<State>, steps: seq<Step>, b: nat, i: nat)
    requires |states| == |steps| + 1 && i < |states|
  {
    && b < i && steps[b] == Build && states[b].flushed < |states[b].captured| <= |states[i].captured|
    && (exists q :: 0 <= q < |states[i].sink| && states[i].sink[q].tag.number == states[b].number)
    && states[b].flushed < states[b].tried
    && states[b].captured[states[b].flushed].version == 0
    && states[b].last.version > 1
    && states[b].last.version > Carried(Truth(states, steps, i), states[b].flushed)
  }

  /** A first attempt starts from a version its first commit already belongs to. */
  lemma FirstAttemptFits(s: State, now: seq<Captured>)
    requires Inv(s) && s.flushed == s.tried < |s.captured| && Grown(s.captured, now) && Ordered(now)
    ensures s.last.version <= Carried(now, s.flushed)
  {
    hide Base, LabelsOk, EndOf;
    assert Known(s.captured, s.tried, s.last.version);
    if s.last.version != 0 {
      var q :| 0 <= q < s.tried && q < |s.captured| && s.captured[q].version == s.last.version;
      CarriedFrom(now, s.flushed, q);
    }
  }

  function Floor(v: nat): nat { if v == 0 then 1 else v }

  /** Without restamping, no stamp exceeds the version its commit belongs to. */
  lemma StampsFit(states: seq<State>, steps: seq<Step>, i: nat, k: nat)
    requires Reported(states, steps) && i < |states| && k < |AllCommits(states[i].sink)|
    requires forall b :: 0 <= b < i ==> !Restamps(states, steps, b, i)
    ensures k < |states[i].captured|
    ensures AllCommits(states[i].sink)[k].version <= Floor(Carried(Truth(states, steps, i), k))
  {
    hide Reported, Run, AllCommits, Carried, Inv, Grown, Restamps, Before, BuiltAt, Truth;
    ReportedSize(states, steps);
    ReportedRuns(states, steps);
    var s := states[i];
    var q, o := Located(s.sink, k);
    var b := BuildOf(states, steps, i, q);
    TruthGrows(states, steps, b, i);
    RunInv(states, steps, b);
    StampFits(states, steps, b, i, q, o);
  }

  lemma BuildOf(states: seq<State>, steps: seq<Step>, i: nat, q: nat) returns (b: nat)
    requires Run(states, steps) && i < |states| && q < |states[i].sink|
    ensures b < i && BuiltAt(states, steps, b, states[i].sink[q], Before(states[i].sink, q))
  {
    RunOrigins(states, steps, i);
    hide BuiltAt, Run, Before;
    assert Made(states, steps, i, states[i].sink[q], Before(states[i].sink, q));
    b :| b < i && BuiltAt(states, steps, b, states[i].sink[q], Before(states[i].sink, q));
  }

  lemma StampFits(states: seq<State>, steps: seq<Step>, b: nat, i: nat, q: nat, o: nat)
    requires |states| == |steps| + 1 && b < i < |states| && q < |states[i].sink| && !Restamps(states, steps, b, i)
    requires BuiltAt(states, steps, b, states[i].sink[q], Before(states[i].sink, q))
    requires Inv(states[b]) && Grown(states[b].captured, Truth(states, steps, i)) && Ordered(Truth(states, steps, i))
    requires o < |states[i].sink[q].seg.commits|
    ensures Before(states[i].sink, q) + o < |states[i].captured|
    ensures states[i].sink[q].seg.commits[o].version
            <= Floor(Carried(Truth(states, steps, i), Before(states[i].sink, q) + o))
  {
    hide Carried, Stamped, LastOf, EndOf, Base, LabelsOk, Before, Truth, Ordered;
    var was, now, from, n := states[b].captured, Truth(states, steps, i), states[b].flushed, BatchSize(states[b]);
    StampBounded(was, now, from, n, states[b].last, o);
    if states[b].tried == from {
      hide Inv;
      FirstAttemptFits(states[b], now);
    } else {
      assert states[b].flushed < states[b].tried by { TriedIsAhead(states[b]); }
      assert states[i].sink[q].tag.number == states[b].number;
    }
    CarriedGrows(now, from, from + o);
  }

  lemma TriedIsAhead(s: State)
    requires Base(s)
    ensures s.flushed <= s.tried
  {}

  // ---- where the restore stops -----------------------------------------------------------------------

  lemma {:induction false} VersionsFit(cs: seq<Commit>, caps: seq<Captured>, n: nat)
    requires n <= |cs| <= |caps| && Ordered(caps)
    requires forall k :: 0 <= k < n ==> cs[k].version <= Floor(Carried(caps, k))
    ensures n > 0 ==> VersionAt(cs, n) <= Floor(Carried(caps, n - 1))
    decreases n
  {
    hide Carried, Ordered;
    if n > 1 {
      VersionsFit(cs, caps, n - 1);
      CarriedGrows(caps, n - 2, n - 1);
    }
  }

  /** The commits that belong at or below `v` are all replayed. */
  ghost predicate Replays(caps: seq<Captured>, cs: seq<Commit>, v: nat)
    requires |cs| <= |caps|
  {
    forall k :: 0 <= k < |cs| && Carried(caps, k) <= v ==> k < Stop(cs, v)
  }

  lemma FittingStampsReplay(caps: seq<Captured>, cs: seq<Commit>, v: nat)
    requires |cs| <= |caps| && Ordered(caps) && v > 0
    requires forall k :: 0 <= k < |cs| ==> cs[k].version <= Floor(Carried(caps, k))
    ensures Replays(caps, cs, v)
  {
    hide Carried, Ordered, VersionAt;
    var n := Stop(cs, v);
    forall k | 0 <= k < |cs| && Carried(caps, k) <= v ensures k < n {
      if n <= k {
        assert Beyond(cs, n, Target(v, None));
        VersionsFit(cs, caps, n + 1);
        CarriedGrows(caps, n, k);
      }
    }
  }

  lemma RestampLoses(caps: seq<Captured>, cs: seq<Commit>, k: nat)
    requires k < |cs| <= |caps| && cs[k].version > Floor(Carried(caps, k))
    ensures !Replays(caps, cs, Floor(Carried(caps, k)))
  {
    hide Carried;
    var v := Floor(Carried(caps, k));
    assert VersionAt(cs, k + 1) == cs[k].version;
    assert Beyond(cs, k, Target(v, None));
  }

  /** The build at `b` is the only one with its number. */
  lemma {:induction false} NumbersGrow(states: seq<State>, steps: seq<Step>, b: nat, i: nat)
    requires Run(states, steps) && b < i < |states| && steps[b] == Build
    ensures states[b].number < states[i].number
    decreases i
  {
    hide Orderly;
    assert Next(states[i - 1], steps[i - 1], states[i]);
    if b < i - 1 { NumbersGrow(states, steps, b, i - 1); }
  }

  lemma RestampShows(states: seq<State>, steps: seq<Step>, b: nat, i: nat)
    requires Run(states, steps) && i < |states| && Restamps(states, steps, b, i)
    ensures var k, cs := states[b].flushed, AllCommits(states[i].sink);
            k < |cs| && cs[k].version > Floor(Carried(Truth(states, steps, i), k))
  {
    hide Run, AllCommits, Carried, Inv, Before, Built, Truth;
    var s := states[i];
    var q: nat :| q < |s.sink| && s.sink[q].tag.number == states[b].number;
    var b' := BuildOf(states, steps, i, q);
    BuiltNumber(states[b']);
    if b' < b { NumbersGrow(states, steps, b', b); }
    if b < b' { NumbersGrow(states, steps, b, b'); }
    HeadStamp(states[b]);
    RunInv(states, steps, b);
    Progress(states[b]);
    AllAt(s.sink, q, 0);
  }

  lemma BuiltNumber(s: State)
    requires s.flushed <= |s.captured|
    ensures Built(s).tag.number == s.number
  {}

  lemma Progress(s: State)
    requires Inv(s)
    ensures s.maxBatch > 0 && s.flushed <= s.tried
  {
    hide AllRedo, TotalBytes, RedoOf, RedoOfCaptured, NamesOk;
  }

  /** A batch that starts without a version starts with the last known one. */
  lemma HeadStamp(s: State)
    requires s.flushed < |s.captured| && s.captured[s.flushed].version == 0
    ensures s.maxBatch > 0 ==> |Built(s).seg.commits| > 0 && Built(s).seg.commits[0].version == s.last.version
  {
    hide Stamped;
    if s.maxBatch > 0 {
      var batch := Batch(s);
      StampIs(s.last, batch, 0);
      assert batch[..1] == [s.captured[s.flushed]];
      assert batch[..1][..0] == [];
    }
  }

  lemma FlushedInSink(states: seq<State>, steps: seq<Step>, i: nat)
    requires Run(states, steps) && i < |states|
    ensures |AllCommits(states[i].sink)| == states[i].flushed <= |states[i].captured| && Ordered(states[i].captured)
  {
    hide Run, AllCommits, Before, Ordered, LabelsOk, Known;
    RunOrigins(states, steps, i);
    AllCount(states[i].sink);
    hide SinkMade, Made;
    RunInv(states, steps, i);
  }

  /** No retried write restamped its batch. */
  ghost predicate NeverRestamps(states: seq<State>, steps: seq<Step>, i: nat)
    requires |states| == |steps| + 1 && i < |states|
  {
    forall b :: 0 <= b < i ==> !Restamps(states, steps, b, i)
  }

  lemma SinkReplaysIff(states: seq<State>, steps: seq<Step>, i: nat)
    requires Reported(states, steps) && i < |states|
    ensures var cs := AllCommits(states[i].sink);
            && |cs| == states[i].flushed <= |states[i].captured|
            && ((forall v :: v > 0 ==> Replays(Truth(states, steps, i), cs, v)) <==> NeverRestamps(states, steps, i))
  {
    hide Reported, Run, AllCommits, Restamps, Replays, Ordered, Truth;
    ReportedSize(states, steps);
    ReportedRuns(states, steps);
    FlushedInSink(states, steps, i);
    TruthGrows(states, steps, i, i);
    var caps, cs := Truth(states, steps, i), AllCommits(states[i].sink);
    if NeverRestamps(states, steps, i) {
      forall k | 0 <= k < |cs| ensures cs[k].version <= Floor(Carried(caps, k)) { StampsFit(states, steps, i, k); }
      forall v | v > 0 ensures Replays(caps, cs, v) { FittingStampsReplay(caps, cs, v); }
    } else {
      var b :| 0 <= b < i && Restamps(states, steps, b, i);
      RestampShows(states, steps, b, i);
      RestampLoses(caps, cs, states[b].flushed);
    }
  }

  /**
   Over every run: a restore of the archive to any version replays every flushed commit that
   belongs at or below it, announced or not, exactly when no retried write restamped its batch.
   */
  lemma RestoreReplaysIff(states: seq<State>, steps: seq<Step>, i: nat, listed: seq<Stored>)
    requires Reported(states, steps) && i < |states| && multiset(listed) == multiset(states[i].sink)
    requires forall j :: 0 <= j < |states[i].sink| ==> Fits(states[i].sink[j].tag)
    ensures var cs := AllCommits(StableSort(ByName(), listed));
            && |cs| == states[i].flushed <= |states[i].captured|
            && ((forall v :: v > 0 ==> Replays(Truth(states, steps, i), cs, v)) <==> NeverRestamps(states, steps, i))
  {
    hide Reported, Run, AllCommits, StableSort, Fits, NeverRestamps, Replays, Truth;
    ReportedSize(states, steps);
    ReportedRuns(states, steps);
    SinkListed(states, steps, i, listed);
    SinkReplaysIff(states, steps, i);
  }

  lemma SinkListed(states: seq<State>, steps: seq<Step>, i: nat, listed: seq<Stored>)
    requires Run(states, steps) && i < |states| && multiset(listed) == multiset(states[i].sink)
    requires forall j :: 0 <= j < |states[i].sink| ==> Fits(states[i].sink[j].tag)
    ensures StableSort(ByName(), listed) == states[i].sink
  {
    hide Run, StableSort, LabelsOk, Fits, Base;
    RunInv(states, steps, i);
    SortingRestoresOrder(states[i].sink, listed, states[i].last.version, states[i].number);
  }

  // ---- nothing beyond the target ---------------------------------------------------------------------

  /** The greatest stamp among the first `n` commits. */
  function Top(cs: seq<Commit>, n: nat): nat
    requires n <= |cs|
  {
    if n == 0 then 0 else if cs[n - 1].version > Top(cs, n - 1) then cs[n - 1].version else Top(cs, n - 1)
  }

  lemma {:induction false} TopGrows(cs: seq<Commit>, j: nat, n: nat)
    requires j <= n <= |cs|
    ensures Top(cs, j) <= Top(cs, n)
    decreases n
  {
    if j < n { TopGrows(cs, j, n - 1); }
  }

  lemma {:induction false} TopBounds(cs: seq<Commit>, n: nat, v: nat)
    requires n <= |cs|
    ensures Top(cs, n) <= v ==> forall j :: 0 < j <= n ==> VersionAt(cs, j) <= v
    ensures (forall j :: 0 < j <= n ==> VersionAt(cs, j) <= v) ==> Top(cs, n) <= v
    ensures VersionAt(cs, n) <= Top(cs, n)
  {
    if n > 0 {
      TopBounds(cs, n - 1, v);
      if forall j :: 0 < j <= n ==> VersionAt(cs, j) <= v { assert VersionAt(cs, n) <= v; }
    }
  }

  /** A restore to a version stops at the first stamp above it. */
  lemma StopIs(cs: seq<Commit>, v: nat, k: nat)
    requires v > 0 && k < |cs|
    ensures k < Stop(cs, v) <==> Top(cs, k + 1) <= v
  {
    hide Top, VersionAt;
    TopBounds(cs, k + 1, v);
    var n := Stop(cs, v);
    if n <= k {
      assert Beyond(cs, n, Target(v, None));
      assert VersionAt(cs, n + 1) > v;
    } else {
      forall j | 0 < j <= k + 1 ensures VersionAt(cs, j) <= v { assert !Beyond(cs, j - 1, Target(v, None)); }
    }
  }

  /** Only commits that belong at or below `v` are replayed. */
  ghost predicate ReplaysOnly(caps: seq<Captured>, cs: seq<Commit>, v: nat)
    requires |cs| <= |caps|
  {
    forall k :: 0 <= k < |cs| && k < Stop(cs, v) ==> Carried(caps, k) <= v
  }

  /** The stored segment that holds commit `k` was built before step `m`. */
  ghost predicate StampedBefore(states: seq<State>, steps: seq<Step>, sink: seq<Stored>, k: nat, m: nat) {
    exists q: nat, b: nat :: q < |sink| && b < m && Before(sink, q) <= k < Before(sink, q) + |sink[q].seg.commits|
                             && BuiltAt(states, steps, b, sink[q], Before(sink, q))
  }

  /**
   An announcement that slips: step `m` names commit `k` after the build of the stored segment that
   holds it, while the segment is being written or once it is, with a version above every stamp up to it.
   (Nothing is told apart below version 1.)
   */
  ghost predicate Slips(states: seq<State>, steps: seq<Step>, m: nat, k: nat, i: nat)
    requires |states| == |steps| + 1 && i < |states|
  {
    && m < i && steps[m].Annotate? && k < |AllCommits(states[i].sink)| && k < |states[i].captured|
    && states[i].captured[k].lsn == steps[m].lsn && StampedBefore(states, steps, states[i].sink, k, m)
    && steps[m].version > 1 && steps[m].version > Top(AllCommits(states[i].sink), k + 1)
  }

  lemma CarriedAt(caps: seq<Captured>, k: nat)
    requires k < |caps| && caps[k].version != 0
    ensures Carried(caps, k) == caps[k].version
  {
    assert caps[..k + 1][k] == caps[k];
  }

  lemma SlipShows(states: seq<State>, steps: seq<Step>, m: nat, k: nat, i: nat)
    requires Reported(states, steps) && i < |states| && Slips(states, steps, m, k, i)
    requires |AllCommits(states[i].sink)| <= |states[i].captured|
    ensures !ReplaysOnly(Truth(states, steps, i), AllCommits(states[i].sink),
            Floor(Top(AllCommits(states[i].sink), k + 1)))
  {
    hide Reported, AllCommits, StampedBefore, Top, Stop;
    ReportedSize(states, steps);
    AnnouncedStays(states, steps, m, i);
    var caps, cs := Truth(states, steps, i), AllCommits(states[i].sink);
    CarriedAt(caps, k);
    StopIs(cs, Floor(Top(cs, k + 1)), k);
  }

  /** LSNs stay with their commits, and the sink only grows. */
  lemma {:induction false} TraceGrows(states: seq<State>, steps: seq<Step>, m: nat, i: nat)
    requires Trace(states, steps) && m <= i < |states|
    ensures |states[m].captured| <= |states[i].captured| && states[m].flushed <= states[i].flushed
    ensures forall k :: 0 <= k < |states[m].captured| ==> states[m].captured[k].lsn == states[i].captured[k].lsn
    decreases i
  {
    if m < i {
      TraceGrows(states, steps, m, i - 1);
      assert Next(states[i - 1], steps[i - 1], states[i]);
      hide Built, LastOf, TotalBytes, FrameBytes, Trace;
    }
  }

  /** An announcement reaches a commit that is still pending. */
  lemma PendingHears(s: State, step: Step, s': State, k: nat)
    requires Next(s, step, s') && step.Annotate? && DistinctLSNs(s.captured)
    requires s.flushed <= k < |s.captured| && s.captured[k].lsn == step.lsn
    ensures k < |s'.captured| && s'.captured[k].version == step.version
  {}

  /** A commit announced before a build that takes it is stamped with its version. */
  lemma HeardByBuild(states: seq<State>, steps: seq<Step>, m: nat, b: nat, k: nat)
    requires Reported(states, steps) && m < b < |states| && steps[m].Annotate?
    requires states[b].flushed <= k < |states[b].captured| && states[b].captured[k].lsn == steps[m].lsn
    ensures states[b].captured[k].version == steps[m].version
  {
    assert Announces(states[m], steps[m], steps, m);
    assert DistinctLSNs(states[b].captured);
    TraceGrows(states, steps, m, b);
    var j :| 0 <= j < |states[m].captured| && states[m].captured[j].lsn == steps[m].lsn;
    assert j == k;
    PendingHears(states[m], steps[m], states[m + 1], k);
    ReportedRuns(states, steps);
    CapturedGrows(states, steps, m + 1, b);
  }

  lemma SlipFrom(states: seq<State>, steps: seq<Step>, i: nat, k: nat) returns (m: nat)
    requires Reported(states, steps) && i < |states|
    requires k < |AllCommits(states[i].sink)| && k < |states[i].captured|
    requires Truth(states, steps, i)[k].version > Floor(Top(AllCommits(states[i].sink), k + 1))
    ensures m < i && Slips(states, steps, m, k, i)
  {
    hide Reported, Run, AllCommits, Before, BuiltAt, Announced, Truth, Top, Told, Slips;
    ReportedSize(states, steps);
    var s := states[i];
    TruthAt(states, steps, i, k);
    ReportedRuns(states, steps);
    m := AnnouncedBy(steps, i, s.captured[k].lsn);
    var q, o := Located(s.sink, k);
    var b := BuildOf(states, steps, i, q);
    SlipsWhen(states, steps, i, m, b, q, o);
  }

  lemma SlipsWhen(states: seq<State>, steps: seq<Step>, i: nat, m: nat, b: nat, q: nat, o: nat)
    requires Reported(states, steps) && i < |states| && m < i && b < i && steps[m].Annotate? && q < |states[i].sink|
    requires BuiltAt(states, steps, b, states[i].sink[q], Before(states[i].sink, q))
    requires o < |states[i].sink[q].seg.commits| && Before(states[i].sink, q) + o < |states[i].captured|
    requires states[i].captured[Before(states[i].sink, q) + o].lsn == steps[m].lsn
    requires Before(states[i].sink, q) + o < |AllCommits(states[i].sink)|
    requires steps[m].version > Floor(Top(AllCommits(states[i].sink), Before(states[i].sink, q) + o + 1))
    ensures Slips(states, steps, m, Before(states[i].sink, q) + o, i)
  {
    hide Reported, AllCommits, Before, BuiltAt, StampedBefore;
    ReportedSize(states, steps);
    var sink, cs := states[i].sink, AllCommits(states[i].sink);
    var k := Before(sink, q) + o;
    AllAt(sink, q, o);
    assert cs[k].version <= Top(cs, k + 1);
    if m <= b { SeenIsStamped(states, steps, m, b, i, q, o); }
    StampedBy(states, steps, sink, k, m, q, b);
  }

  lemma StampedBy(states: seq<State>, steps: seq<Step>, sink: seq<Stored>, k: nat, m: nat, q: nat, b: nat)
    requires q < |sink| && b < m && Before(sink, q) <= k < Before(sink, q) + |sink[q].seg.commits|
    requires BuiltAt(states, steps, b, sink[q], Before(sink, q))
    ensures StampedBefore(states, steps, sink, k, m)
  {
    hide BuiltAt, Before;
  }

  lemma SeenIsStamped(states: seq<State>, steps: seq<Step>, m: nat, b: nat, i: nat, q: nat, o: nat)
    requires Reported(states, steps) && m <= b < i < |states| && steps[m].Annotate? && q < |states[i].sink|
    requires BuiltAt(states, steps, b, states[i].sink[q], Before(states[i].sink, q))
    requires o < |states[i].sink[q].seg.commits| && Before(states[i].sink, q) + o < |states[i].captured|
    requires states[i].captured[Before(states[i].sink, q) + o].lsn == steps[m].lsn
    ensures states[i].sink[q].seg.commits[o].version == steps[m].version
  {
    hide Next, Announces, Ordered, DistinctLSNs, Before, Stamped, LastOf;
    var s, from := states[b], states[b].flushed;
    TraceGrows(states, steps, b, i);
    assert s.captured[from + o].lsn == steps[m].lsn;
    assert Announces(states[m], steps[m], steps, m);
    AnnouncedPositive(states[m], steps[m], steps, m);
    HeardByBuild(states, steps, m, b, from + o);
    StampIs(s.last, Batch(s), o);
    assert Batch(s)[..o + 1][o] == s.captured[from + o];
  }

  lemma AnnouncedPositive(s: State, step: Step, steps: seq<Step>, i: nat)
    requires i <= |steps| && step.Annotate? && Announces(s, step, steps, i)
    ensures step.version > 0
  {}

  /** No announcement slipped. */
  ghost predicate NeverSlips(states: seq<State>, steps: seq<Step>, i: nat)
    requires |states| == |steps| + 1 && i < |states|
  {
    forall m, k :: 0 <= m < i && 0 <= k < states[i].flushed ==> !Slips(states, steps, m, k, i)
  }

  /** A commit replayed beyond the target follows one whose version is above every stamp up to it. */
  lemma BeyondTop(caps: seq<Captured>, cs: seq<Commit>, v: nat, k: nat) returns (a: nat)
    requires |cs| <= |caps| && v > 0 && k < |cs| && k < Stop(cs, v) && Carried(caps, k) > v
    ensures a < |cs| && caps[a].version > Floor(Top(cs, a + 1))
  {
    hide Stop, Top;
    StopIs(cs, v, k);
    EndIs(0, caps[..k + 1]);
    var j := LastAnnotated(caps[..k + 1]);
    assert caps[..k + 1][j] == caps[j];
    TopGrows(cs, j + 1, k + 1);
    a := j;
  }

  lemma WithoutSlips(states: seq<State>, steps: seq<Step>, i: nat, v: nat)
    requires Reported(states, steps) && i < |states| && NeverSlips(states, steps, i) && v > 0
    requires |AllCommits(states[i].sink)| == states[i].flushed <= |states[i].captured|
    ensures ReplaysOnly(Truth(states, steps, i), AllCommits(states[i].sink), v)
  {
    hide Reported, AllCommits, Slips, Top, Stop, Truth, Carried, Told;
    ReportedSize(states, steps);
    var caps, cs := Truth(states, steps, i), AllCommits(states[i].sink);
    forall k | 0 <= k < |cs| && k < Stop(cs, v) ensures Carried(caps, k) <= v {
      if Carried(caps, k) > v {
        var a := BeyondTop(caps, cs, v, k);
        var m := SlipFrom(states, steps, i, a);
      }
    }
  }

  lemma SinkOnlyIff(states: seq<State>, steps: seq<Step>, i: nat)
    requires Reported(states, steps) && i < |states|
    requires |AllCommits(states[i].sink)| == states[i].flushed <= |states[i].captured|
    ensures (forall v :: v > 0 ==> ReplaysOnly(Truth(states, steps, i), AllCommits(states[i].sink), v))
            <==> NeverSlips(states, steps, i)
  {
    assert |states| == |steps| + 1;
    if NeverSlips(states, steps, i) {
      hide Reported, AllCommits, NeverSlips, ReplaysOnly, Truth;
      forall v | v > 0 ensures ReplaysOnly(Truth(states, steps, i), AllCommits(states[i].sink), v) {
        WithoutSlips(states, steps, i, v);
      }
    } else {
      hide Reported, AllCommits, Slips, ReplaysOnly, Truth;
      var m: nat, k: nat :| m < i && k < states[i].flushed && Slips(states, steps, m, k, i);
      SlipShows(states, steps, m, k, i);
    }
  }

  /**
   Over every run: a restore of the archive to any version replays only commits that belong at or
   below it exactly when no version was announced too late to be stamped.
   */
  lemma RestoreOnlyIff(states: seq<State>, steps: seq<Step>, i: nat, listed: seq<Stored>)
    requires Reported(states, steps) && i < |states| && multiset(listed) == multiset(states[i].sink)
    requires forall j :: 0 <= j < |states[i].sink| ==> Fits(states[i].sink[j].tag)
    ensures var cs := AllCommits(StableSort(ByName(), listed));
            && |cs| == states[i].flushed <= |states[i].captured|
            && ((forall v :: v > 0 ==> ReplaysOnly(Truth(states, steps, i), cs, v)) <==> NeverSlips(states, steps, i))
  {
    hide Reported, Run, AllCommits, StableSort, Fits, NeverSlips, ReplaysOnly, Truth;
    ReportedSize(states, steps);
    ReportedRuns(states, steps);
    SinkListed(states, steps, i, listed);
    FlushedInSink(states, steps, i);
    SinkOnlyIff(states, steps, i);
  }

  lemma BothWays(caps: seq<Captured>, cs: seq<Commit>)
    requires |cs| <= |caps|
    ensures (forall v: nat, k :: v > 0 && 0 <= k < |cs| ==> (k < Stop(cs, v) <==> Carried(caps, k) <= v)) <==>
            (forall v :: v > 0 ==> Replays(caps, cs, v)) && (forall v :: v > 0 ==> ReplaysOnly(caps, cs, v))
  {
    hide Stop, Carried;
    if (forall v :: v > 0 ==> Replays(caps, cs, v)) && (forall v :: v > 0 ==> ReplaysOnly(caps, cs, v)) {
      forall v: nat, k | v > 0 && 0 <= k < |cs| ensures k < Stop(cs, v) <==> Carried(caps, k) <= v {
        assert Replays(caps, cs, v) && ReplaysOnly(caps, cs, v);
      }
    }
  }

  /**
   Together: every restore stops exactly behind the commits that belong at or below its target
   when and only when no write restamped and no announcement slipped.
   */
  lemma RestoreStopsIff(states: seq<State>, steps: seq<Step>, i: nat, listed: seq<Stored>)
    requires Reported(states, steps) && i < |states| && multiset(listed) == multiset(states[i].sink)
    requires forall j :: 0 <= j < |states[i].sink| ==> Fits(states[i].sink[j].tag)
    ensures var cs := AllCommits(StableSort(ByName(), listed));
            && |cs| == states[i].flushed <= |states[i].captured|
            && ((forall v: nat, k :: v > 0 && 0 <= k < |cs| ==>
                   (k < Stop(cs, v) <==> Carried(Truth(states, steps, i), k) <= v))
                <==> NeverRestamps(states, steps, i) && NeverSlips(states, steps, i))
  {
    hide Reported, AllCommits, StableSort, Fits, NeverRestamps, NeverSlips, Truth, Carried, Stop, Replays, ReplaysOnly;
    ReportedSize(states, steps);
    RestoreReplaysIff(states, steps, i, listed);
    RestoreOnlyIff(states, steps, i, listed);
    BothWays(Truth(states, steps, i), AllCommits(StableSort(ByName(), listed)));
  }

  lemma StopsRight(states: seq<State>, steps: seq<Step>, i: nat, listed: seq<Stored>, v: nat, k: nat)
    requires Reported(states, steps) && i < |states| && multiset(listed) == multiset(states[i].sink)
    requires forall j :: 0 <= j < |states[i].sink| ==> Fits(states[i].sink[j].tag)
    requires NeverRestamps(states, steps, i) && NeverSlips(states, steps, i) && v > 0 && k < states[i].flushed
    ensures k < |states[i].captured|
    ensures k < Stop(AllCommits(StableSort(ByName(), listed)), v) <==> Carried(Truth(states, steps, i), k) <= v
  {
    hide Reported, AllCommits, StableSort, Fits, NeverRestamps, NeverSlips, Truth, Carried, Stop;
    ReportedSize(states, steps);
    RestoreStopsIff(states, steps, i, listed);
  }

  /**
   And then a restore to a version over a base taken after `b` commits gives the image the database
   had after the last commit that belongs at or below that version.
   */
  lemma RestoreToVersion(states: seq<State>, steps: seq<Step>, i: nat, listed: seq<Stored>, start: Image, b: nat,
                         v: nat)
    requires Reported(states, steps) && i < |states| && multiset(listed) == multiset(states[i].sink)
    requires forall j :: 0 <= j < |states[i].sink| ==> Fits(states[i].sink[j].tag)
    requires NeverRestamps(states, steps, i) && NeverSlips(states, steps, i)
    requires v > 0 && states[i].flushed <= |states[i].captured|
    requires Grows(start, RedoOfCaptured(states[i].captured[..states[i].flushed]))
    ensures var cs, log := AllCommits(StableSort(ByName(), listed)),
            RedoOfCaptured(states[i].captured[..states[i].flushed]);
            var n := Stop(cs, v);
            && n <= |cs| == |log|
            && (forall k :: 0 <= k < states[i].flushed ==> (k < n <==> Carried(Truth(states, steps, i), k) <= v))
            && (0 < n && b <= n ==>
                  Truncate(Replayed(ImageAfter(start, log, b), RedoOf(cs), n), cs[n - 1].size)
                      == ImageAfter(start, log, n))
  {
    hide Reported, Run, StableSort, AllCommits, Fits, NeverRestamps, NeverSlips, Grows, Carried, Truncate, Replayed,
        ImageAfter, Truth, RedoOf, RedoOfCaptured, Next;
    ReportedSize(states, steps);
    ReportedRuns(states, steps);
    SinkListed(states, steps, i, listed);
    FlushedInSink(states, steps, i);
    LogSize(states[i].captured, states[i].flushed);
    var n := Stop(AllCommits(StableSort(ByName(), listed)), v);
    forall k | 0 <= k < states[i].flushed ensures k < n <==> Carried(Truth(states, steps, i), k) <= v {
      StopsRight(states, steps, i, listed, v, k);
    }
    if 0 < n && b <= n { ArchiveThenRestore(states, steps, i, listed, start, b, Target(v, None)); }
  }

  lemma LogSize(caps: seq<Captured>, n: nat)
    requires n <= |caps|
    ensures |RedoOfCaptured(caps[..n])| == n
  {}

  // ---- restoring to a time ------------------------------------------------------------------------------

  ghost predicate SameTimes(cs: seq<Commit>, caps: seq<Captured>, from: nat) {
    from + |cs| <= |caps| && forall o :: 0 <= o < |cs| ==> cs[o].time == caps[from + o].time
  }

  /** Every commit has a time, and is archived under it. */
  ghost predicate Timed(s: State) {
    && (forall k :: 0 <= k < |s.captured| ==> s.captured[k].time != 0)
    && |AllCommits(s.sink)| == s.flushed && SameTimes(AllCommits(s.sink), s.captured, 0)
    && (s.putting.Some? ==>
          |s.putting.value.stored.seg.commits| == s.putting.value.n
              && SameTimes(s.putting.value.stored.seg.commits, s.captured, s.flushed))
  }

  lemma BuildTimes(s: State)
    requires s.flushed <= |s.captured| && forall k :: 0 <= k < |s.captured| ==> s.captured[k].time != 0
    ensures |Built(s).seg.commits| == BatchSize(s) && SameTimes(Built(s).seg.commits, s.captured, s.flushed)
  {
    hide Stamped, EndOf;
    var batch := Batch(s);
    forall o | 0 <= o < |batch| ensures Stamped(s.last, batch)[o].time == s.captured[s.flushed + o].time {
      StampIs(s.last, batch, o);
      assert batch[..o + 1][o] == s.captured[s.flushed + o];
    }
  }

  lemma StepTimed(s: State, step: Step, s': State)
    requires Timed(s) && Next(s, step, s') && (step.Capture? ==> step.time != 0)
    ensures Timed(s')
  {
    hide AllCommits, TotalBytes, FrameBytes, LastOf, Built, Ordered;
    if step.Build? {
      BuildTimes(s);
    } else if step.PutOk? {
      AllCommitsSnoc(s.sink, s.putting.value.stored);
    }
  }

  lemma AllCommitsSnoc(sink: seq<Stored>, st: Stored)
    ensures AllCommits(sink + [st]) == AllCommits(sink) + st.seg.commits
  {
    assert (sink + [st])[..|sink|] == sink;
  }

  lemma {:induction false} RunTimed(states: seq<State>, steps: seq<Step>, i: nat)
    requires Run(states, steps) && i < |states|
             && forall m :: 0 <= m < |steps| && steps[m].Capture? ==> steps[m].time != 0
    ensures Timed(states[i])
  {
    hide Next, Orderly;
    if i > 0 {
      RunTimed(states, steps, i - 1);
      StepTimed(states[i - 1], steps[i - 1], states[i]);
    }
  }

  /** With a clock that is never at the epoch, a restore to a time replays the commits up to the first made after it. */
  lemma RestoreToTime(states: seq<State>, steps: seq<Step>, i: nat, listed: seq<Stored>, time: nat, k: nat)
    requires Run(states, steps) && i < |states| && multiset(listed) == multiset(states[i].sink)
    requires forall j :: 0 <= j < |states[i].sink| ==> Fits(states[i].sink[j].tag)
    requires (forall m :: 0 <= m < |steps| && steps[m].Capture? ==> steps[m].time != 0) && k < states[i].flushed
    ensures var cs := AllCommits(StableSort(ByName(), listed));
            && |cs| == states[i].flushed <= |states[i].captured|
            && (k < Reach(cs, 0, Target(0, Some(time)))
                <==> forall j :: 0 <= j <= k ==> states[i].captured[j].time <= time)
  {
    hide Run, StableSort, AllCommits, Fits, VersionAt;
    SinkListed(states, steps, i, listed);
    RunTimed(states, steps, i);
    var cs, caps := AllCommits(states[i].sink), states[i].captured;
    assert forall j :: 0 <= j < |cs| ==> cs[j].time == caps[j].time;
    var n := Reach(cs, 0, Target(0, Some(time)));
    if n <= k { assert Beyond(cs, n, Target(0, Some(time))); }
    if k < n { forall j | 0 <= j <= k ensures caps[j].time <= time { assert !Beyond(cs, j, Target(0, Some(time))); } }
  }
}
