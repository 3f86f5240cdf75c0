/**
 Runs of the archiver after which a restore stops in the wrong place: a retried write that stamps
 a commit with a version seen beyond it, and versions announced while a commit is being written or
 after it was.
 */
module RestoreRuns {
  import opened Common
  import opened Archive
  import opened Restore
  import opened RestoreTarget

  // ---- extending a run ---------------------------------------------------------------------

  lemma {:induction false} AnnouncedPrefix(sp: seq<Step>, step: Step, i: nat, lsn: nat)
    requires i <= |sp|
    ensures Announced(sp + [step], i, lsn) == Announced(sp, i, lsn)
  {
    if i > 0 { AnnouncedPrefix(sp, step, i - 1, lsn); }
  }

  lemma ToldPrefix(sp: seq<Step>, step: Step, i: nat, caps: seq<Captured>)
    requires i <= |sp|
    ensures Told(sp + [step], i, caps) == Told(sp, i, caps)
  {
    hide Announced;
    forall k | 0 <= k < |caps| ensures Told(sp + [step], i, caps)[k] == Told(sp, i, caps)[k] {
      AnnouncedPrefix(sp, step, i, caps[k].lsn);
    }
  }

  /** The last state of a run and what has been announced by then. */
  ghost predicate At(st: seq<State>, sp: seq<Step>, s: State, told: seq<Captured>) {
    Reported(st, sp) && st[|sp|] == s && Told(sp, |sp|, s.captured) == told
  }

  /** `st'` and `sp'` are one step longer. */
  ghost predicate Longer(st: seq<State>, sp: seq<Step>, step: Step, st': seq<State>, sp': seq<Step>) {
    && |st| == |sp| + 1 && |sp'| == |sp| + 1 && |st'| == |st| + 1
    && sp'[|sp|] == step && sp'[..|sp|] == sp && st'[..|st|] == st
  }

  lemma GoOn(st: seq<State>, sp: seq<Step>, s: State, step: Step, told: seq<Captured>)
    returns (st': seq<State>, sp': seq<Step>)
    requires Reported(st, sp) && Next(st[|sp|], step, s) && Announces(st[|sp|], step, sp, |sp|)
    requires DistinctLSNs(s.captured) && Told(sp + [step], |sp| + 1, s.captured) == told && Ordered(told)
    ensures At(st', sp', s, told) && Longer(st, sp, step, st', sp')
  {
    hide Next, Told, Ordered, DistinctLSNs, Start;
    st', sp' := st + [s], sp + [step];
    forall i | 0 <= i < |sp'| ensures Next(st'[i], sp'[i], st'[i + 1]) && Announces(st'[i], sp'[i], sp', i) {
      assert st'[i] == st[i];
      if sp'[i].Annotate? { AnnouncedPrefix(sp, step, i, sp'[i].lsn); }
      if i < |sp| { assert st'[i + 1] == st[i + 1] && sp'[i] == sp[i] && Announces(st[i], sp[i], sp, i); }
    }
    forall i | 0 <= i < |st'|
      ensures DistinctLSNs(st'[i].captured) && Ordered(Told(sp', i, st'[i].captured))
    {
      if i <= |sp| { ToldPrefix(sp, step, i, st[i].captured); }
    }
  }

  /** A step that neither captures nor announces. */
  lemma QuietOn(st: seq<State>, sp: seq<Step>, s: State, told: seq<Captured>, step: Step, s': State)
    returns (st': seq<State>, sp': seq<Step>)
    requires At(st, sp, s, told) && Next(s, step, s') && (step.Build? || step.PutOk? || step.PutFail?)
    ensures At(st', sp', s', told) && Longer(st, sp, step, st', sp')
  {
    hide Ordered, DistinctLSNs, Built, LastOf, TotalBytes;
    var caps := s.captured;
    assert DistinctLSNs(st[|sp|].captured) && Ordered(Told(sp, |sp|, st[|sp|].captured));
    ToldPrefix(sp, step, |sp|, caps);
    assert Told(sp + [step], |sp| + 1, caps) == told;
    st', sp' := GoOn(st, sp, s', step, told);
  }

  /** A commit without pages. */
  function Bare(lsn: nat, version: nat): Captured { Captured(lsn, 1, [], version, 1) }

  lemma {:induction false} BareBytes(cs: seq<Captured>)
    requires forall i :: 0 <= i < |cs| ==> cs[i].frames == []
    ensures TotalBytes(cs) == 0
    decreases |cs|
  {
    if cs != [] { BareBytes(cs[..|cs| - 1]); }
  }

  /** Nothing has been announced of a commit not captured. */
  lemma NotYetAnnounced(st: seq<State>, sp: seq<Step>, lsn: nat)
    requires Reported(st, sp) && forall k :: 0 <= k < |st[|sp|].captured| ==> st[|sp|].captured[k].lsn != lsn
    ensures Announced(sp, |sp|, lsn) == 0
  {
    hide Ordered, DistinctLSNs, Next;
    if Announced(sp, |sp|, lsn) != 0 {
      var m := AnnouncedBy(sp, |sp|, lsn);
      assert Announces(st[m], sp[m], sp, m);
      TraceGrows(st, sp, m, |sp|);
    }
  }

  lemma CaptureOn(st: seq<State>, sp: seq<Step>, s: State, told: seq<Captured>, lsn: nat)
    returns (s': State, st': seq<State>, sp': seq<Step>)
    requires At(st, sp, s, told) && s.flushed <= |s.captured|
    requires forall k :: 0 <= k < |s.captured| ==> s.captured[k].lsn != lsn
    ensures s' == s.(captured := s.captured + [Bare(lsn, 0)])
    ensures At(st', sp', s', told + [Bare(lsn, 0)]) && Longer(st, sp, Capture(lsn, 1, [], 1), st', sp')
  {
    var step := Capture(lsn, 1, [], 1);
    s' := s.(captured := s.captured + [Bare(lsn, 0)]);
    assert DistinctLSNs(st[|sp|].captured) && Ordered(Told(sp, |sp|, st[|sp|].captured));
    NotYetAnnounced(st, sp, lsn);
    ToldPrefix(sp, step, |sp|, s'.captured);
    assert Told(sp + [step], |sp| + 1, s'.captured) == Told(sp, |sp|, s'.captured) == told + [Bare(lsn, 0)];
    st', sp' := GoOn(st, sp, s', step, told + [Bare(lsn, 0)]);
  }

  /** Commit `k` is announced; the archiver takes the version if it still holds the commit. */
  lemma AnnounceOn(st: seq<State>, sp: seq<Step>, s: State, told: seq<Captured>, k: nat, version: nat)
    returns (s': State, st': seq<State>, sp': seq<Step>)
    requires At(st, sp, s, told) && s.flushed <= |s.captured| && k < |s.captured| && version > 0
    requires s.captured[k] == Bare(s.captured[k].lsn, 0) == told[k]
    requires Ordered(told[k := Bare(told[k].lsn, version)])
    ensures s' == if k < s.flushed then s else s.(captured := s.captured[k := Bare(told[k].lsn, version)])
    ensures At(st', sp', s', told[k := Bare(told[k].lsn, version)])
    ensures Longer(st, sp, Annotate(told[k].lsn, version, 0), st', sp')
  {
    var lsn := told[k].lsn;
    var step, now := Annotate(lsn, version, 0), told[k := Bare(lsn, version)];
    s' := if k < s.flushed then s else s.(captured := s.captured[k := Bare(lsn, version)]);
    assert DistinctLSNs(st[|sp|].captured);
    assert Announced(sp, |sp|, lsn) == Told(sp, |sp|, s.captured)[k].version == 0;
    AnnounceNext(s, k, version, s');
    ToldAfter(sp, s.captured, s'.captured, k, version);
    st', sp' := GoOn(st, sp, s', step, now);
  }

  lemma AnnounceNext(s: State, k: nat, version: nat, s': State)
    requires s.flushed <= |s.captured| && k < |s.captured| && DistinctLSNs(s.captured)
    requires s.captured[k] == Bare(s.captured[k].lsn, 0)
    requires s' == if k < s.flushed then s else s.(captured := s.captured[k := Bare(s.captured[k].lsn, version)])
    ensures Next(s, Annotate(s.captured[k].lsn, version, 0), s')
  {
    if k >= s.flushed { assert s'.captured == s.captured[k := WithVersion(s.captured[k], version, 0)]; }
  }

  lemma ToldAfter(sp: seq<Step>, caps: seq<Captured>, caps': seq<Captured>, k: nat, version: nat)
    requires k < |caps| && DistinctLSNs(caps) && caps[k] == Bare(caps[k].lsn, 0)
    requires caps' == caps || caps' == caps[k := Bare(caps[k].lsn, version)]
    ensures Told(sp + [Annotate(caps[k].lsn, version, 0)], |sp| + 1, caps')
            == Told(sp, |sp|, caps)[k := Bare(caps[k].lsn, version)]
  {
    var step := Annotate(caps[k].lsn, version, 0);
    var a, b := Told(sp + [step], |sp| + 1, caps'), Told(sp, |sp|, caps)[k := Bare(caps[k].lsn, version)];
    forall j | 0 <= j < |caps| ensures a[j] == b[j] { AnnouncedPrefix(sp, step, |sp|, caps[j].lsn); }
  }

  lemma StartAt(maxBatch: nat)
    requires maxBatch > 0
    ensures At([Start(maxBatch)], [], Start(maxBatch), [])
  {}

  // ---- a retry that loses a commit ------------------------------------------------------------

  /** Three commits, the last two announced. */
  function Three(): seq<Captured> { [Bare(1, 0), Bare(2, 5), Bare(3, 9)] }

  function Ready(flushed: nat, tried: nat, last: Last, number: nat, putting: Option<Attempt>,
                 sink: seq<Stored>): State {
    State(Three(), flushed, tried, last, number, 0, 3, putting, sink)
  }

  /** What is known after the three, and what they are stamped with. */
  lemma ThreeStamped(last: Last)
    ensures LastOf(last, Three()) == Last(9, 1)
    ensures Stamped(last, Three()) == [Commit(last.version, 1, 1, []), Commit(5, 1, 1, []), Commit(9, 1, 1, [])]
  {
    var one, two, three := [Bare(1, 0)], [Bare(1, 0), Bare(2, 5)], [Bare(1, 0), Bare(2, 5), Bare(3, 9)];
    assert one[..0] == [] && two[..1] == one && three[..2] == two;
    assert LastOf(last, one) == Last(last.version, 1) && LastOf(last, two) == Last(5, 1);
    assert Stamped(last, []) == [];
    assert Stamped(last, one) == [Commit(last.version, 1, 1, [])];
    assert Stamped(last, two) == [Commit(last.version, 1, 1, []), Commit(5, 1, 1, [])];
  }

  lemma AnnounceThree() returns (states: seq<State>, steps: seq<Step>)
    ensures |steps| == 5 && At(states, steps, Ready(0, 0, Last(0, 0), 0, None, []), Three())
  {
    hide At;
    StartAt(3);
    var s := Start(3);
    states, steps := [s], [];
    s, states, steps := CaptureOn(states, steps, s, [], 1);
    s, states, steps := CaptureOn(states, steps, s, [] + [Bare(1, 0)], 2);
    s, states, steps := CaptureOn(states, steps, s, [] + [Bare(1, 0)] + [Bare(2, 0)], 3);
    var caps := [Bare(1, 0), Bare(2, 0), Bare(3, 0)];
    assert s.captured == caps && [] + [Bare(1, 0)] + [Bare(2, 0)] + [Bare(3, 0)] == caps;
    s, states, steps := AnnounceOn(states, steps, s, caps, 1, 5);
    s, states, steps := AnnounceOn(states, steps, s, caps[1 := Bare(2, 5)], 2, 9);
    assert s.captured == Three() == caps[1 := Bare(2, 5)][2 := Bare(3, 9)];
  }

  /** The segment of the three commits, built from `last`. */
  function Segment3(last: Last, number: nat): Stored {
    Stored(Label(last.version, 9, number),
           Segment(last, Last(9, 1), [Commit(last.version, 1, 1, []), Commit(5, 1, 1, []), Commit(9, 1, 1, [])]))
  }

  lemma BuildThree(tried: nat, last: Last, number: nat)
    ensures Next(Ready(0, tried, last, number, None, []), Build,
                 Ready(0, 3, Last(9, 1), number + 1, Some(Attempt(Segment3(last, number), 3)), []))
  {
    hide Stamped, LastOf;
    ThreeStamped(last);
    assert Batch(Ready(0, tried, last, number, None, [])) == Three();
  }

  lemma PutThree(st: Stored)
    ensures Next(Ready(0, 3, Last(9, 1), 2, Some(Attempt(st, 3)), []), PutOk, Ready(3, 3, Last(9, 1), 2, None, [st]))
  {
    hide TotalBytes;
    BareBytes(Three()[0..3]);
    assert [] + [st] == [st];
  }

  lemma FailThree(number: nat, st: Stored)
    ensures Next(Ready(0, 3, Last(9, 1), number, Some(Attempt(st, 3)), []), PutFail,
                 Ready(0, 3, Last(9, 1), number, None, []))
  {}

  lemma StopsAtOnce(st: Stored)
    requires st.seg.commits != [] && st.seg.commits[0].version == 9
    ensures Stop(AllCommits([st]), 7) == 0 && Carried(Three(), 0) == 0
  {
    assert [st][..0] == [] && AllCommits([]) == [];
    assert AllCommits([st]) == st.seg.commits;
    assert VersionAt(st.seg.commits, 1) == 9;
    assert Three()[..1] == [Bare(1, 0)] && [Bare(1, 0)][..0] == [];
    assert EndOf(0, []) == 0;
  }

  lemma FlushTwice() returns (states: seq<State>, steps: seq<Step>)
    ensures |steps| == 9 && |states| == 10 && steps[7] == Build
    ensures states[7] == Ready(0, 3, Last(9, 1), 1, None, [])
    ensures At(states, steps, Ready(3, 3, Last(9, 1), 2, None, [Segment3(Last(9, 1), 1)]), Three())
  {
    var st5, sp5 := AnnounceThree();
    hide Reported, Next, Three, Segment3;
    var first, st := Segment3(Last(0, 0), 0), Segment3(Last(9, 1), 1);
    BuildThree(0, Last(0, 0), 0);
    FailThree(1, first);
    BuildThree(3, Last(9, 1), 1);
    PutThree(st);
    var s5, s6 := Ready(0, 0, Last(0, 0), 0, None, []), Ready(0, 3, Last(9, 1), 1, Some(Attempt(first, 3)), []);
    var s7, s8 := Ready(0, 3, Last(9, 1), 1, None, []), Ready(0, 3, Last(9, 1), 2, Some(Attempt(st, 3)), []);
    var st6, sp6 := QuietOn(st5, sp5, s5, Three(), Build, s6);
    var st7, sp7 := QuietOn(st6, sp6, s6, Three(), PutFail, s7);
    var st8, sp8 := QuietOn(st7, sp7, s7, Three(), Build, s8);
    states, steps := QuietOn(st8, sp8, s8, Three(), PutOk, Ready(3, 3, Last(9, 1), 2, None, [st]));
    assert states[7] == st8[7] == st7[7] && steps[7] == sp8[7];
  }

  /**
   The first write of a batch fails after the last known version has moved to 9. The retry stamps
   the leading commit, which has no version, with 9, and a restore to version 7 stops before it:
   the commit of version 5 behind it is lost.
   */
  lemma RetryLosesCommit() returns (states: seq<State>, steps: seq<Step>)
    ensures |steps| == 9 && Reported(states, steps) && Restamps(states, steps, 7, 9)
    ensures states[9].flushed == 3 && Truth(states, steps, 9) == Three() && Three()[1].version == 5
    ensures Stop(AllCommits(states[9].sink), 7) == 0
  {
    hide Reported, Restamps, Stop, AllCommits, Carried;
    states, steps := FlushTwice();
    StopsAtOnce(Segment3(Last(9, 1), 1));
    SecondBuildRestamps(states, steps, states[7], states[9]);
  }

  lemma SecondBuildRestamps(states: seq<State>, steps: seq<Step>, s: State, now: State)
    requires |states| == 10 && |steps| == 9 && steps[7] == Build && states[7] == s && states[9] == now
    requires |s.captured| == 3 == |now.captured| && s.captured[0].version == 0
    requires s.flushed == 0 && s.tried == 3 && s.last.version == 9 && Carried(Truth(states, steps, 9), 0) == 0
    requires |now.sink| == 1 && now.sink[0].tag.number == s.number
    ensures Restamps(states, steps, 7, 9)
  {
    hide Carried;
  }

  // ---- announcements that come late --------------------------------------------------------------

  /** One commit, its segment, and the states it goes through. */
  function One(version: nat, flushed: nat, tried: nat, last: Last, number: nat, putting: Option<Attempt>,
               sink: seq<Stored>): State {
    State([Bare(1, version)], flushed, tried, last, number, 0, 1, putting, sink)
  }

  function Segment1(): Stored { Stored(Label(0, 0, 0), Segment(Last(0, 0), Last(0, 1), [Commit(0, 1, 1, [])])) }

  lemma BuildOne()
    ensures Next(One(0, 0, 0, Last(0, 0), 0, None, []), Build,
                 One(0, 0, 1, Last(0, 1), 1, Some(Attempt(Segment1(), 1)), []))
    ensures Built(One(0, 0, 0, Last(0, 0), 0, None, [])) == Segment1()
  {
    var one := [Bare(1, 0)];
    assert one[..0] == [];
    assert LastOf(Last(0, 0), one) == Last(0, 1) && Stamped(Last(0, 0), []) == [];
    assert Stamped(Last(0, 0), one) == [Commit(0, 1, 1, [])];
    hide LastOf, Stamped;
    assert Batch(One(0, 0, 0, Last(0, 0), 0, None, [])) == one;
  }

  lemma PutOne(version: nat, st: Stored)
    ensures Next(One(version, 0, 1, Last(0, 1), 1, Some(Attempt(st, 1)), []), PutOk,
                 One(version, 1, 1, Last(0, 1), 1, None, [st]))
  {
    hide TotalBytes;
    BareBytes([Bare(1, version)][0..1]);
    assert [] + [st] == [st];
  }

  lemma BuildFirst() returns (states: seq<State>, steps: seq<Step>)
    ensures |steps| == 2 && |states| == 3 && steps[1] == Build && states[1] == One(0, 0, 0, Last(0, 0), 0, None, [])
    ensures At(states, steps, One(0, 0, 1, Last(0, 1), 1, Some(Attempt(Segment1(), 1)), []), [Bare(1, 0)])
  {
    hide At, Next;
    StartAt(1);
    var s, st, sp := CaptureOn([Start(1)], [], Start(1), [], 1);
    var a, b := One(0, 0, 0, Last(0, 0), 0, None, []), One(0, 0, 1, Last(0, 1), 1, Some(Attempt(Segment1(), 1)), []);
    assert [] + [Bare(1, 0)] == [Bare(1, 0)];
    assert s == a;
    BuildOne();
    states, steps := QuietOn(st, sp, a, [Bare(1, 0)], Build, b);
    assert st[1] == a by { AtLast(st, sp, a, [Bare(1, 0)]); }
    assert states[1] == st[1];
  }

  lemma AtLast(st: seq<State>, sp: seq<Step>, s: State, told: seq<Captured>)
    requires At(st, sp, s, told)
    ensures |st| == |sp| + 1 && st[|sp|] == s
  {}

  /**
   The one commit, stamped with nothing, was announced as version 5 by step `m`: a restore to version
   3 replays it.
   */
  lemma FiveSlips(states: seq<State>, steps: seq<Step>, m: nat)
    requires |steps| == 4 && |states| == 5 && At(states, steps, states[4], [Bare(1, 5)]) && 1 < m < 4
    requires steps[1] == Build && states[1] == One(0, 0, 0, Last(0, 0), 0, None, [])
    requires steps[m] == Annotate(1, 5, 0) && states[4].flushed == 1 && states[4].sink == [Segment1()]
    ensures Stop(AllCommits(states[4].sink), 3) == 1 && Slips(states, steps, m, 0, 4)
  {
    hide Ordered, Next, Announces, DistinctLSNs, Built, LastOf, Stamped;
    var st := Segment1();
    var sink := states[4].sink;
    assert Told(steps, 4, states[4].captured)[0].lsn == 1;
    assert [st][..0] == [] && AllCommits([]) == [] && [] + st.seg.commits == st.seg.commits;
    assert AllCommits([st]) == st.seg.commits;
    assert VersionAt(st.seg.commits, 1) == 0 && !Beyond(st.seg.commits, 0, Target(3, None));
    assert Top(st.seg.commits, 1) == 0;
    BuildOne();
    assert BuiltAt(states, steps, 1, sink[0], Before(sink, 0));
    assert Before(sink, 0) == 0;
    assert StampedBefore(states, steps, sink, 0, m);
  }

  /**
   A commit announced while it is being written, or once it is written and the archiver has let it
   go, keeps the earlier stamp: a restore to version 3 replays the commit of version 5.
   */
  lemma LateAnnotationSlips(written: bool) returns (states: seq<State>, steps: seq<Step>)
    ensures |steps| == 4 && Reported(states, steps)
    ensures steps[2..] == if written then [PutOk, Annotate(1, 5, 0)] else [Annotate(1, 5, 0), PutOk]
    ensures states[4].flushed == 1 && Truth(states, steps, 4) == [Bare(1, 5)]
    ensures Stop(AllCommits(states[4].sink), 3) == 1 && Slips(states, steps, if written then 3 else 2, 0, 4)
  {
    hide Reported, Next, Slips, Stop, AllCommits;
    var st := Segment1();
    var st2, sp2 := BuildFirst();
    var b := One(0, 0, 1, Last(0, 1), 1, Some(Attempt(st, 1)), []);
    assert [Bare(1, 0)][0 := Bare(1, 5)] == [Bare(1, 5)];
    if written {
      var c := One(0, 1, 1, Last(0, 1), 1, None, [st]);
      PutOne(0, st);
      var st3, sp3 := QuietOn(st2, sp2, b, [Bare(1, 0)], PutOk, c);
      var d, st4, sp4 := AnnounceOn(st3, sp3, c, [Bare(1, 0)], 0, 5);
      assert sp4[2] == sp3[2] && sp4[1] == sp3[1] == sp2[1] && st4[1] == st3[1] == st2[1];
      states, steps := st4, sp4;
      FiveSlips(states, steps, 3);
    } else {
      var c, st3, sp3 := AnnounceOn(st2, sp2, b, [Bare(1, 0)], 0, 5);
      var d := One(5, 1, 1, Last(0, 1), 1, None, [st]);
      PutOne(5, st);
      assert c == One(5, 0, 1, Last(0, 1), 1, Some(Attempt(st, 1)), []);
      var st4, sp4 := QuietOn(st3, sp3, c, [Bare(1, 5)], PutOk, d);
      assert sp4[2] == sp3[2] && sp4[1] == sp3[1] == sp2[1] && st4[1] == st3[1] == st2[1];
      states, steps := st4, sp4;
      FiveSlips(states, steps, 2);
    }
  }
}
