/**
 The in-memory version overlay of a collection: newest-first chains of document
 versions, the snapshot lookup over a chain, and the cut garbage collection makes.
 */
module Overlay {
  import opened Common

  type Key = seq<byte>   // encoded _id
  type Raw = seq<byte>   // an encoded document

  datatype RID = RID(page: nat, slot: nat)

  const NULL_RID := RID(0xFFFF_FFFF, 0xFFFF)

  /** One version of a document; `doc == None` is a delete tombstone. */
  datatype DocVersion = DocVersion(commitVer: nat, rid: RID, doc: Option<Raw>)

  /** Newest-first versions of one _id. */
  type Chain = seq<DocVersion>

  /** Position of the newest version at or below `ver`, or the chain's length. */
  function FirstAt(vs: Chain, ver: nat): (i: nat)
    ensures i <= |vs|
    ensures i < |vs| ==> vs[i].commitVer <= ver
    ensures forall j :: 0 <= j < i ==> vs[j].commitVer > ver
  {
    if vs == [] || vs[0].commitVer <= ver then 0 else 1 + FirstAt(vs[1..], ver)
  }

  /** The version a snapshot at `ver` reads, tombstones included. */
  function VersionAt(vs: Chain, ver: nat): Option<DocVersion> {
    var i := FirstAt(vs, ver);
    if i < |vs| then Some(vs[i]) else None
  }

  /** The live version a snapshot at `ver` reads. */
  function LiveAt(vs: Chain, ver: nat): Option<DocVersion> {
    var v := VersionAt(vs, ver);
    if v.Some? && v.value.doc.Some? then v else None
  }

  function DocAt(vs: Chain, ver: nat): Option<Raw> {
    var v := VersionAt(vs, ver);
    if v.Some? then v.value.doc else None
  }

  method VisibleAt(vs: Chain, ver: nat) returns (doc: Option<Raw>)
    ensures doc == DocAt(vs, ver)
  {
    for i := 0 to |vs|
      invariant forall j :: 0 <= j < i ==> vs[j].commitVer > ver
    {
      if vs[i].commitVer <= ver {
        FirstAtIs(vs, ver, i);
        return vs[i].doc;
      }
    }
    FirstAtIs(vs, ver, |vs|);
    return None;
  }

  /** The scan position is determined by its two defining facts. */
  lemma FirstAtIs(vs: Chain, ver: nat, i: nat)
    requires i <= |vs|
    requires i < |vs| ==> vs[i].commitVer <= ver
    requires forall j :: 0 <= j < i ==> vs[j].commitVer > ver
    ensures FirstAt(vs, ver) == i
  {
    if i > 0 { FirstAtIs(vs[1..], ver, i - 1); }
  }

  /** What a cut at watermark `wm` retains. */
  function Pruned(vs: Chain, wm: nat): Chain {
    var i := FirstAt(vs, wm);
    if i < |vs| then vs[..i + 1] else vs
  }

  method PruneBelow(vs: Chain, wm: nat) returns (kept: Chain)
    ensures kept == Pruned(vs, wm)
  {
    var keep := |vs|;
    for i := 0 to |vs|
      invariant keep == |vs|
      invariant forall j :: 0 <= j < i ==> vs[j].commitVer > wm
    {
      if vs[i].commitVer <= wm {
        FirstAtIs(vs, wm, i);
        keep := i + 1;
        break;
      }
    }
    if keep == |vs| && (vs == [] || vs[|vs| - 1].commitVer > wm) {
      FirstAtIs(vs, wm, |vs|);
    }
    kept := if keep < |vs| then vs[..keep] else vs;
  }

  /** A cut at `wm` is invisible to every snapshot at or above `wm`. */
  lemma PruneKeepsReads(vs: Chain, wm: nat, ver: nat)
    requires wm <= ver
    ensures VersionAt(Pruned(vs, wm), ver) == VersionAt(vs, ver)
    ensures |vs| > 0 ==> |Pruned(vs, wm)| > 0 && Pruned(vs, wm)[0] == vs[0]
  {
    var i := FirstAt(vs, ver);
    if i < |vs| {
      FirstAtIs(Pruned(vs, wm), ver, i);
    } else {
      FirstAtIs(Pruned(vs, wm), ver, |Pruned(vs, wm)|);
    }
  }

  /** A newer version on top is invisible to every snapshot below it. */
  lemma PushKeepsReads(v: DocVersion, vs: Chain, ver: nat)
    requires v.commitVer > ver
    ensures VersionAt([v] + vs, ver) == VersionAt(vs, ver)
  {
    assert ([v] + vs)[1..] == vs;
  }
}
