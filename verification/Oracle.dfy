/**
 The version oracle: commit versions, live snapshots with their watermark, and the
 committed-since index behind first-committer-wins.
 */
module VersionOracle {
  import opened Common

  type WriteSet = seq<nat>   // sorted 64-bit conflict hashes

  datatype Committed = Committed(commitVer: nat, writeSet: WriteSet)

  /** Everything the oracle keeps for snapshot isolation. */
  datatype Oracle = Oracle(
    commitVer: nat,
    live: map<nat, nat>,       // start version -> number of live snapshots at it
    minLive: nat,              // cached watermark
    recent: seq<Committed>)    // committed-since index

  ghost predicate Sorted(ws: WriteSet) {
    forall i, j :: 0 <= i < j < |ws| ==> ws[i] <= ws[j]
  }

  ghost predicate Overlap(a: WriteSet, b: WriteSet) {
    exists x :: x in a && x in b
  }

  ghost predicate Ascending(recent: seq<Committed>) {
    && (forall i, j :: 0 <= i < j < |recent| ==> recent[i].commitVer < recent[j].commitVer)
    && (forall i :: 0 <= i < |recent| ==> Sorted(recent[i].writeSet))
  }

  /** The least live start version, or the commit version when nothing is live. */
  ghost predicate IsWatermark(o: Oracle, wm: nat) {
    if o.live == map[] then wm == o.commitVer
    else wm in o.live && forall s :: s in o.live ==> wm <= s
  }

  ghost predicate Valid(o: Oracle) {
    && Ascending(o.recent)
    && (forall i :: 0 <= i < |o.recent| ==> o.recent[i].commitVer <= o.commitVer)
    && (forall s :: s in o.live ==> s <= o.commitVer && o.live[s] > 0)
    && IsWatermark(o, o.minLive)
  }

  function Count(live: map<nat, nat>, s: nat): nat {
    if s in live then live[s] else 0
  }

  /** Live snapshots after one at `s` is taken away. */
  function Without(live: map<nat, nat>, s: nat): map<nat, nat> {
    if Count(live, s) <= 1 then live - {s} else live[s := live[s] - 1]
  }

  /** A snapshot was taken at the current commit version. */
  ghost predicate Acquired(o: Oracle, o': Oracle) {
    && Valid(o')
    && o'.commitVer == o.commitVer && o'.recent == o.recent
    && o'.live == o.live[o.commitVer := Count(o.live, o.commitVer) + 1]
  }

  /** A snapshot at `s` is gone and entries no live snapshot needs may be dropped. */
  ghost predicate Released(o: Oracle, s: nat, o': Oracle) {
    && Valid(o')
    && o'.commitVer == o.commitVer
    && o'.live == Without(o.live, s)
    && |o'.recent| <= |o.recent|
    && var cut := |o.recent| - |o'.recent|;
       && o'.recent == o.recent[cut..]
       && (forall i :: 0 <= i < cut ==> o.recent[i].commitVer <= o'.minLive)
  }

  /** `ws` was committed at `cv` by the holder of a snapshot at `s`. */
  ghost predicate CommittedAt(o: Oracle, s: nat, ws: WriteSet, cv: nat, o': Oracle) {
    && cv == o.commitVer + 1
    && Released(o.(commitVer := cv, recent := o.recent + [Committed(cv, ws)]), s, o')
  }

  /** Some entry committed after `s` meets `ws`. */
  ghost predicate Conflicts(o: Oracle, s: nat, ws: WriteSet) {
    exists i :: 0 <= i < |o.recent| && o.recent[i].commitVer > s && Overlap(o.recent[i].writeSet, ws)
  }

  /** Merge walk over two sorted sets. */
  method Intersects(a: WriteSet, b: WriteSet) returns (r: bool)
    requires Sorted(a) && Sorted(b)
    ensures r == Overlap(a, b)
  {
    var i, j := 0, 0;
    while i < |a| && j < |b|
      invariant 0 <= i <= |a| && 0 <= j <= |b|
      invariant forall x :: x in a && x in b ==> x in a[i..] && x in b[j..]
      decreases |a| - i + |b| - j
    {
      if a[i] == b[j] {
        assert a[i] in a && a[i] in b;
        return true;
      } else if a[i] < b[j] {
        assert a[i] !in b[j..];
        assert a[i..] == [a[i]] + a[i + 1..];
        i := i + 1;
      } else {
        assert b[j] !in a[i..];
        assert b[j..] == [b[j]] + b[j + 1..];
        j := j + 1;
      }
    }
    return false;
  }

  class OracleState {
    var commitVer: nat
    var live: map<nat, nat>
    var minLive: nat
    var recent: seq<Committed>

    ghost function State(): Oracle
      reads this
    {
      Oracle(commitVer, live, minLive, recent)
    }

    constructor (startCommitVer: nat)
      ensures State() == Oracle(startCommitVer, map[], startCommitVer, [])
      ensures Valid(State())
    {
      commitVer, live, minLive, recent := startCommitVer, map[], startCommitVer, [];
    }

    method Acquire() returns (startVer: nat)
      requires Valid(State())
      modifies this
      ensures startVer == old(commitVer)
      ensures Acquired(old(State()), State())
    {
      startVer := commitVer;
      if live == map[] { minLive := startVer; }
      live := live[startVer := Count(live, startVer) + 1];
    }

    /** Remove one snapshot, advancing the watermark when it held it. */
    method ReleaseLocked(s: nat)
      requires Valid(State()) && s in live
      modifies this`live, this`minLive
      ensures live == Without(old(live), s)
      ensures Valid(State())
    {
      live := Without(live, s);
      if s != minLive {
        assert minLive in live;
        return;
      }
      if live == map[] {
        minLive := commitVer;
        return;
      }
      var rest := live.Keys;
      var least :| least in rest;
      rest := rest - {least};
      while rest != {}
        invariant rest <= live.Keys && least in live
        invariant forall x :: x in live && x !in rest ==> least <= x
        decreases rest
      {
        var x :| x in rest;
        rest := rest - {x};
        if x < least { least := x; }
      }
      minLive := least;
    }

    /** Drop committed-since entries at or below the watermark. */
    method PruneLocked() returns (ghost cut: nat)
      requires Valid(State())
      modifies this`recent
      ensures Valid(State())
      ensures cut <= |old(recent)| && recent == old(recent)[cut..]
      ensures forall i :: 0 <= i < cut ==> old(recent)[i].commitVer <= minLive
      ensures forall i :: 0 <= i < |recent| ==> recent[i].commitVer > minLive
    {
      var n := 0;
      while n < |recent| && recent[n].commitVer <= minLive
        invariant n <= |recent|
        invariant forall i :: 0 <= i < n ==> recent[i].commitVer <= minLive
      {
        n := n + 1;
      }
      cut := n;
      recent := recent[n..];
    }

    method Release(s: nat)
      requires Valid(State()) && s in live
      modifies this
      ensures Released(old(State()), s, State())
    {
      ReleaseLocked(s);
      ghost var cut := PruneLocked();
    }

    /** First-committer-wins over the committed-since index; true means refused. */
    method HasConflict(s: nat, ws: WriteSet) returns (refused: bool)
      requires Valid(State()) && Sorted(ws)
      ensures refused == Conflicts(State(), s, ws)
    {
      var i := |recent| - 1;
      while i >= 0
        invariant -1 <= i < |recent|
        invariant forall j :: i < j < |recent| ==> !Overlap(recent[j].writeSet, ws)
      {
        if recent[i].commitVer <= s { break; }
        var hit := Intersects(recent[i].writeSet, ws);
        if hit { return true; }
        i := i - 1;
      }
      return false;
    }

    /** The visible half of a commit, after durable apply and publish at `cv`. */
    method FinishCommit(s: nat, ws: WriteSet) returns (cv: nat)
      requires Valid(State()) && s in live && Sorted(ws)
      modifies this
      ensures CommittedAt(old(State()), s, ws, cv, State())
    {
      cv := commitVer + 1;
      commitVer := cv;
      recent := recent + [Committed(cv, ws)];
      ghost var mid := State();
      assert mid == old(State()).(commitVer := cv, recent := old(recent) + [Committed(cv, ws)]);
      ReleaseLocked(s);
      ghost var cut := PruneLocked();
      assert Released(mid, s, State());
    }

    method Watermark() returns (wm: nat)
      requires Valid(State())
      ensures IsWatermark(State(), wm)
    {
      wm := minLive;
    }
  }
}
