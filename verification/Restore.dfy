/**
 Restore by redo: the archived commits' page images written over a base copy, up to a target.
 Replaying the whole log prefix over a base taken anywhere earlier gives exactly the image the
 database had after the last replayed commit.
 */
module Restore {
  import opened Common
  import opened Archive
  import opened Sorting

  /** A database file: its pages by number. */
  type Image = map<nat, Bytes>

  function Write(img: Image, frames: seq<Frame>): Image {
    if frames == [] then img
    else
      var last := frames[|frames| - 1];
      Write(img, frames[..|frames| - 1])[last.page := last.payload]
  }

  function Truncate(img: Image, size: nat): Image { map p | p in img && p < size :: img[p] }

  /** Every page below the size is there. */
  ghost predicate Whole(img: Image, size: nat) {
    forall p :: p in img <==> p < size
  }

  // ---- the database's own history ---------------------------------------------------------------

  /** The image after the first `n` commits. */
  function ImageAfter(start: Image, log: seq<Redo>, n: nat): Image
    requires n <= |log|
  {
    if n == 0 then start else Truncate(Write(ImageAfter(start, log, n - 1), log[n - 1].frames), log[n - 1].size)
  }

  /** A commit that grows the database carries frames for its new pages, so no image has holes. */
  ghost predicate Grows(start: Image, log: seq<Redo>) {
    forall n :: 0 < n <= |log| ==> Whole(ImageAfter(start, log, n), log[n - 1].size)
  }

  /** The last image of page `p` among the first `n` commits. */
  function LastWrite(log: seq<Redo>, n: nat, p: nat): Option<Bytes>
    requires n <= |log|
  {
    if n == 0 then None
    else match LastIn(log[n - 1].frames, p) case Some(b) => Some(b) case None => LastWrite(log, n - 1, p)
  }

  function LastIn(frames: seq<Frame>, p: nat): Option<Bytes> {
    if frames == [] then None
    else if frames[|frames| - 1].page == p then Some(frames[|frames| - 1].payload)
    else LastIn(frames[..|frames| - 1], p)
  }

  lemma {:induction false} WriteIs(img: Image, frames: seq<Frame>, p: nat)
    ensures p in Write(img, frames) <==> p in img || LastIn(frames, p).Some?
    ensures p in Write(img, frames) ==> Write(img, frames)[p] == if LastIn(frames, p).Some? then LastIn(frames, p).value
                                                                 else img[p]
    decreases |frames|
  {
    if frames != [] { WriteIs(img, frames[..|frames| - 1], p); }
  }

  /**
   A page in the image holds its last write, or, never written, what it started with; and then it was
   always there.
   */
  lemma {:induction false} PageHistory(start: Image, log: seq<Redo>, n: nat, p: nat, b: nat)
    requires n <= |log| && b <= n && p in ImageAfter(start, log, n)
    ensures LastWrite(log, n, p).Some? ==> ImageAfter(start, log, n)[p] == LastWrite(log, n, p).value
    ensures LastWrite(log, n, p).None? ==> p in ImageAfter(start, log, b)
                                           && ImageAfter(start, log, b)[p] == ImageAfter(start, log, n)[p]
    decreases n
  {
    hide Write, LastIn;
    if n > 0 {
      WriteIs(ImageAfter(start, log, n - 1), log[n - 1].frames, p);
      if LastIn(log[n - 1].frames, p).None? {
        PageHistory(start, log, n - 1, p, if b < n then b else n - 1);
      }
    }
  }

  // ---- replay ---------------------------------------------------------------------------------------

  /** All frames of the first `n` commits over `base`, nothing cut in between. */
  function Replayed(base: Image, log: seq<Redo>, n: nat): Image
    requires n <= |log|
  {
    if n == 0 then base else Write(Replayed(base, log, n - 1), log[n - 1].frames)
  }

  lemma {:induction false} ReplayedIs(base: Image, log: seq<Redo>, n: nat, p: nat)
    requires n <= |log|
    ensures p in Replayed(base, log, n) <==> p in base || LastWrite(log, n, p).Some?
    ensures p in Replayed(base, log, n) ==> Replayed(base, log, n)[p] == if LastWrite(log, n, p).Some?
                                            then LastWrite(log, n, p).value else base[p]
    decreases n
  {
    hide Write, LastIn;
    if n > 0 {
      ReplayedIs(base, log, n - 1, p);
      WriteIs(Replayed(base, log, n - 1), log[n - 1].frames, p);
    }
  }

  /** Redo over any earlier base: the replayed prefix ends in the image the database had there. */
  lemma ReplayGivesImage(start: Image, log: seq<Redo>, b: nat, n: nat)
    requires Grows(start, log) && b <= n <= |log| && n > 0
    ensures Truncate(Replayed(ImageAfter(start, log, b), log, n), log[n - 1].size) == ImageAfter(start, log, n)
  {
    hide ImageAfter, Replayed, LastWrite;
    var base, want := ImageAfter(start, log, b), ImageAfter(start, log, n);
    var got := Truncate(Replayed(base, log, n), log[n - 1].size);
    assert Whole(want, log[n - 1].size);
    forall p: nat | p < log[n - 1].size ensures p in got && got[p] == want[p] {
      assert p in want;
      PageHistory(start, log, n, p, b);
      ReplayedIs(base, log, n, p);
    }
    assert got.Keys == want.Keys;
  }

  // ---- the restore loop ------------------------------------------------------------------------------

  datatype Result = Result(version: nat, size: nat, commits: nat, frames: nat)

  /** Target version and time; zero, and `None` or a time before the epoch, mean no limit. */
  datatype Target = Target(version: nat, time: Option<int>)

  /** The version a commit counts as: its own, or the running one when it has none. */
  function VersionAt(cs: seq<Commit>, n: nat): nat
    requires n <= |cs|
  {
    if n == 0 then 0 else if cs[n - 1].version == 0 then VersionAt(cs, n - 1) else cs[n - 1].version
  }

  /** Commit `i` lies past the target. */
  predicate Beyond(cs: seq<Commit>, i: nat, t: Target)
    requires i < |cs|
  {
    (t.version > 0 && VersionAt(cs, i + 1) > t.version) || (t.time.Some? && 0 <= t.time.value < cs[i].time)
  }

  /** How many commits are replayed: all before the first past the target. */
  function Reach(cs: seq<Commit>, i: nat, t: Target): (n: nat)
    requires i <= |cs|
    ensures i <= n <= |cs| && (n < |cs| ==> Beyond(cs, n, t)) && forall j :: i <= j < n ==> !Beyond(cs, j, t)
    decreases |cs| - i
  {
    if i == |cs| || Beyond(cs, i, t) then i else Reach(cs, i + 1, t)
  }

  /** Page images in the first `n` commits. */
  function FrameCount(cs: seq<Commit>, n: nat): nat
    requires n <= |cs|
  {
    if n == 0 then 0 else FrameCount(cs, n - 1) + |cs[n - 1].frames|
  }

  /** Write commits in order up to the target, then cut the file to the last one's size. */
  method ApplyCommits(file: Image, pageCount: nat, cs: seq<Commit>, t: Target) returns (img: Image, res: Result)
    ensures var n := Reach(cs, 0, t);
            && res.commits == n && res.version == VersionAt(cs, n)
            && res.size == (if n == 0 then pageCount else cs[n - 1].size)
            && res.frames == FrameCount(cs, n)
            && img == Truncate(Replayed(file, RedoOf(cs), n), res.size)
  {
    hide Write;
    img := file;
    var size, version, i, frames := pageCount, 0, 0, 0;
    while i < |cs|
      invariant i <= |cs| && Reach(cs, 0, t) == Reach(cs, i, t)
      invariant version == VersionAt(cs, i) && size == (if i == 0 then pageCount else cs[i - 1].size)
      invariant img == Replayed(file, RedoOf(cs), i) && frames == FrameCount(cs, i)
    {
      var v := if cs[i].version == 0 then version else cs[i].version;
      if t.version > 0 && v > t.version { break; }
      if t.time.Some? && t.time.value >= 0 && cs[i].time > t.time.value { break; }
      img, frames := WriteFrames(img, cs[i].frames, frames);
      version, size, i := v, cs[i].size, i + 1;
    }
    res := Result(version, size, i, frames);
    img := Truncate(img, size);
  }

  method WriteFrames(img: Image, frames: seq<Frame>, count: nat) returns (out: Image, total: nat)
    ensures out == Write(img, frames) && total == count + |frames|
  {
    out, total := img, count;
    for i := 0 to |frames|
      invariant out == Write(img, frames[..i]) && total == count + i
    {
      assert frames[..i + 1][..i] == frames[..i];
      out := out[frames[i].page := frames[i].payload];
      total := total + 1;
    }
    assert frames[..|frames|] == frames;
  }

  /** Restoring an archive of the database's own commits over an earlier base recovers the image at the target. */
  lemma RestoreRecovers(start: Image, cs: seq<Commit>, b: nat, t: Target)
    requires Grows(start, RedoOf(cs)) && b <= Reach(cs, 0, t) && Reach(cs, 0, t) > 0
    ensures var n := Reach(cs, 0, t);
            Truncate(Replayed(ImageAfter(start, RedoOf(cs), b), RedoOf(cs), n), cs[n - 1].size)
                == ImageAfter(start, RedoOf(cs), n)
  {
    ReplayGivesImage(start, RedoOf(cs), b, Reach(cs, 0, t));
  }

  // ---- archive, then restore ----------------------------------------------------------------------------

  /** All commits of the segments, in order. */
  function AllCommits(segs: seq<Stored>): seq<Commit> {
    if segs == [] then [] else AllCommits(segs[..|segs| - 1]) + segs[|segs| - 1].seg.commits
  }

  lemma {:induction false} AllCommitsRedo(segs: seq<Stored>)
    ensures RedoOf(AllCommits(segs)) == AllRedo(segs)
    decreases |segs|
  {
    if segs != [] {
      var head, last := AllCommits(segs[..|segs| - 1]), segs[|segs| - 1].seg.commits;
      AllCommitsRedo(segs[..|segs| - 1]);
      assert RedoOf(head + last) == RedoOf(head) + RedoOf(last);
    }
  }

  /**
   End to end: after any run of the archiver, the segments read back by name and replayed over
   a base taken after `b` commits give, for any target at or after it, the image the database
   had after the last commit replayed.
   */
  lemma ArchiveThenRestore(states: seq<State>, steps: seq<Step>, i: nat, listed: seq<Stored>, start: Image, b: nat,
                           t: Target)
    requires Run(states, steps) && i < |states| && multiset(listed) == multiset(states[i].sink)
    requires forall j :: 0 <= j < |states[i].sink| ==> Fits(states[i].sink[j].tag)
    requires states[i].flushed <= |states[i].captured|
             && Grows(start, RedoOfCaptured(states[i].captured[..states[i].flushed]))
    requires var cs := AllCommits(StableSort(ByName(), listed)); b <= Reach(cs, 0, t) && Reach(cs, 0, t) > 0
    ensures var cs, log := AllCommits(StableSort(ByName(), listed)),
            RedoOfCaptured(states[i].captured[..states[i].flushed]);
            var n := Reach(cs, 0, t);
            && |log| == |cs|
            && Truncate(Replayed(ImageAfter(start, log, b), RedoOf(cs), n), cs[n - 1].size) == ImageAfter(start, log, n)
  {
    hide StableSort, AllCommits, AllRedo, Run, Fits, Grows, Reach;
    var segs := StableSort(ByName(), listed);
    ArchiveIsComplete(states, steps, i, listed);
    AllCommitsRedo(segs);
    RestoreRecovers(start, AllCommits(segs), b, t);
  }
}
