/**
 What a transaction's writes come to, told from the steps of the run alone: it reads the outcome of
 its own last write of a document over the newest version at its snapshot, and a commit installs
 exactly those outcomes.
 */
module MvccWrites {
  import opened Common
  import opened Overlay
  import opened CollectionModel
  import opened VersionOracle
  import opened Mvcc
  import opened MvccInv
  import opened MvccRuns
  import CL = ColumnLog

  // ---- what the steps ask for -----------------------------------------------------------------

  /** The greatest version at or below `ver`, in whatever order they are listed. */
  function Newest(vs: Chain, ver: nat): (r: Option<DocVersion>)
    ensures r.None? ==> forall v :: v in vs ==> v.commitVer > ver
    ensures r.Some? ==> r.value in vs && r.value.commitVer <= ver
    ensures r.Some? ==> forall v :: v in vs && v.commitVer <= ver ==> v.commitVer <= r.value.commitVer
  {
    if vs == [] then None
    else
      var r := Newest(vs[1..], ver);
      if vs[0].commitVer <= ver && (r.None? || vs[0].commitVer > r.value.commitVer) then Some(vs[0]) else r
  }

  /** The document of that version, unless it is a delete. */
  function SnapshotDoc(vs: Chain, ver: nat): Option<Raw> {
    var v := Newest(vs, ver);
    if v.Some? then v.value.doc else None
  }

  lemma SnapshotDocIs(vs: Chain, ver: nat)
    requires NewestFirst(vs)
    ensures DocAt(vs, ver) == SnapshotDoc(vs, ver)
  {
    var i, r := FirstAt(vs, ver), Newest(vs, ver);
    if i < |vs| {
      assert vs[i] in vs;
      var j :| 0 <= j < |vs| && vs[j] == r.value;
    }
  }

  /** What a transaction's last write of a document asks for: a document, or none. */
  datatype Written = Untouched | Wrote(doc: Option<Raw>)

  function StartOf(s: Sys, tid: TxnId): nat { if tid in s.txns then s.txns[tid].startVer else 0 }

  /**
   The outcome of the last write of (c, k) since the transaction began, within the first `i` steps.
   An insert counts only when nothing was there to be seen.
   */
  ghost function LastWrite(w: World, states: seq<Sys>, steps: seq<Step>, i: nat, tid: TxnId, c: CollId, k: Key): Written
    requires |states| == |steps| + 1 && i <= |steps|
    decreases i, 0
  {
    if i == 0 then Untouched
    else match steps[i - 1]
      case Begin(t) => if t == tid then Untouched else LastWrite(w, states, steps, i - 1, tid, c, k)
      case DoWrite(t, x, wr) =>
        if t != tid || x != c then LastWrite(w, states, steps, i - 1, tid, c, k)
        else (match wr
              case Put(key, doc, _) =>
                if key == k then Wrote(Some(doc)) else LastWrite(w, states, steps, i - 1, tid, c, k)
              case Del(key) => if key == k then Wrote(None) else LastWrite(w, states, steps, i - 1, tid, c, k)
              case Ins(doc) =>
                if w.schemas(c).keyOf(doc) == k && ToBeSeen(w, states, steps, i - 1, tid, c, k).None?
                then Wrote(Some(doc)) else LastWrite(w, states, steps, i - 1, tid, c, k))
      case _ => LastWrite(w, states, steps, i - 1, tid, c, k)
  }

  /** What the transaction is to see under (c, k) after `i` steps: its last write, else its snapshot. */
  ghost function ToBeSeen(w: World, states: seq<Sys>, steps: seq<Step>, i: nat, tid: TxnId, c: CollId,
                          k: Key): Option<Raw>
    requires |states| == |steps| + 1 && i <= |steps|
    decreases i, 1
  {
    match LastWrite(w, states, steps, i, tid, c, k)
    case Wrote(doc) => doc
    case Untouched => SnapshotDoc(states[i].hist(c)(k), StartOf(states[i], tid))
  }

  // ---- the buffer records it -------------------------------------------------------------------

  /** The buffer holds exactly the outcome of the last write. */
  ghost predicate Records(b: Buffer, k: Key, last: Written) {
    match last
    case Untouched => k !in b.pending
    case Wrote(doc) => k in b.pending && b.pending[k].insertDoc == doc
  }

  lemma PutRecords(b: Buffer, k: Key, vs: Chain, startVer: nat, doc: Raw, replaced: bool)
    ensures Records(CollectionModel.Replace(b, k, vs, startVer, doc, replaced), k, Wrote(Some(doc)))
    ensures Records(CollectionModel.Delete(b, k, vs, startVer), k, Wrote(None))
    ensures Records(CollectionModel.Insert(b, k, doc), k, Wrote(Some(doc)))
  {
    hide LiveAt;
  }

  lemma {:induction false} RecordedAt(w: World, states: seq<Sys>, steps: seq<Step>, i: nat, tid: TxnId, c: CollId,
                                      k: Key)
    requires Run(w, states, steps) && i < |states| && tid in states[i].txns
    ensures Records(states[i].txns[tid].Buf(c), k, LastWrite(w, states, steps, i, tid, c, k))
  {
    if i > 0 {
      assert Next(w, states[i - 1], steps[i - 1], states[i]);
      hide Init, Next, Records, LastWrite, ToBeSeen;
      var s, step, s' := states[i - 1], steps[i - 1], states[i];
      if step == Begin(tid) {
        BeginRecords(w, s, s', tid, c, k);
        LastAtBegin(w, states, steps, i, tid, c, k);
      } else {
        TxnLives(w, s, step, s', tid);
        RecordedAt(w, states, steps, i - 1, tid, c, k);
        if step.DoWrite? && step.tid == tid && step.c == c {
          WriteRecorded(w, states, steps, i, tid, c, k);
        } else {
          OtherSteps(w, s, step, s', tid, c);
          LastElsewhere(w, states, steps, i, tid, c, k);
        }
      }
    }
  }

  lemma BeginRecords(w: World, s: Sys, s': Sys, tid: TxnId, c: CollId, k: Key)
    requires Next(w, s, Begin(tid), s')
    ensures tid in s'.txns && Records(s'.txns[tid].Buf(c), k, Untouched)
  {}

  lemma LastAtBegin(w: World, states: seq<Sys>, steps: seq<Step>, i: nat, tid: TxnId, c: CollId, k: Key)
    requires |states| == |steps| + 1 && 0 < i <= |steps| && steps[i - 1] == Begin(tid)
    ensures LastWrite(w, states, steps, i, tid, c, k) == Untouched
  {}

  lemma LastElsewhere(w: World, states: seq<Sys>, steps: seq<Step>, i: nat, tid: TxnId, c: CollId, k: Key)
    requires |states| == |steps| + 1 && 0 < i <= |steps| && steps[i - 1] != Begin(tid)
    requires !(steps[i - 1].DoWrite? && steps[i - 1].tid == tid && steps[i - 1].c == c)
    ensures LastWrite(w, states, steps, i, tid, c, k) == LastWrite(w, states, steps, i - 1, tid, c, k)
  {
    hide ToBeSeen;
  }

  /** Only its own begin brings a transaction in. */
  lemma TxnLives(w: World, s: Sys, step: Step, s': Sys, tid: TxnId)
    requires Next(w, s, step, s') && tid in s'.txns && step != Begin(tid)
    ensures tid in s.txns && s'.txns[tid].startVer == s.txns[tid].startVer
  {
    hide Acquired, Released, CommittedAt, Conflicts, Covers, Published, Collected, Applied, WriteTo, PushedHist,
        Rebuilt,
        Placed;
  }

  /** Only its own writes to a collection change what it holds for it. */
  lemma OtherSteps(w: World, s: Sys, step: Step, s': Sys, tid: TxnId, c: CollId)
    requires Next(w, s, step, s') && tid in s.txns && tid in s'.txns && step != Begin(tid)
    requires !(step.DoWrite? && step.tid == tid && step.c == c)
    ensures s'.txns[tid].Buf(c) == s.txns[tid].Buf(c)
  {
    hide Acquired, Released, CommittedAt, Conflicts, Covers, Published, Collected, Applied, WriteTo, PushedHist,
        Rebuilt,
        Placed;
  }

  /** The outcome after one more write, of a document seen as `seen` before it. */
  function After(last: Written, sch: Schema, wr: Write, k: Key, seen: Option<Raw>): Written {
    match wr
    case Put(key, doc, _) => if key == k then Wrote(Some(doc)) else last
    case Del(key) => if key == k then Wrote(None) else last
    case Ins(doc) => if sch.keyOf(doc) == k && seen.None? then Wrote(Some(doc)) else last
  }

  lemma LastAtWrite(w: World, states: seq<Sys>, steps: seq<Step>, i: nat, tid: TxnId, c: CollId, k: Key)
    requires |states| == |steps| + 1 && 0 < i <= |steps|
    requires steps[i - 1].DoWrite? && steps[i - 1].tid == tid && steps[i - 1].c == c
    ensures LastWrite(w, states, steps, i, tid, c, k)
            == After(LastWrite(w, states, steps, i - 1, tid, c, k), w.schemas(c), steps[i - 1].w, k,
                     ToBeSeen(w, states, steps, i - 1, tid, c, k))
  {
    hide ToBeSeen;
  }

  lemma WriteToRecords(sch: Schema, b: Buffer, wr: Write, vs: History, startVer: nat, k: Key, last: Written)
    requires Records(b, k, last)
    ensures Records(WriteTo(sch, b, wr, vs, startVer), k, After(last, sch, wr, k, View(b, vs(k), startVer, k)))
  {
    if KeyOf(sch, wr) != k {
      WriteIsLocal(sch, b, wr, vs, startVer, k);
      hide WriteTo;
      SameRecord(b, WriteTo(sch, b, wr, vs, startVer), k, last);
    } else {
      hide Records, View;
      match wr
      case Ins(doc) => PutRecords(b, k, vs(k), startVer, doc, false);
      case Put(_, doc, replaced) => PutRecords(b, k, vs(k), startVer, doc, replaced);
      case Del(_) => PutRecords(b, k, vs(k), startVer, [], false);
    }
  }

  lemma WrittenBuffer(w: World, s: Sys, tid: TxnId, c: CollId, wr: Write, s': Sys)
    requires Next(w, s, DoWrite(tid, c, wr), s')
    ensures c in s.colls && tid in s.txns && tid in s'.txns
    ensures s'.txns[tid].Buf(c) ==
              WriteTo(w.schemas(c), s.txns[tid].Buf(c), wr, x => ChainOf(s.colls[c], x), s.txns[tid].startVer)
  {
    hide WriteTo;
  }

  lemma WriteRecorded(w: World, states: seq<Sys>, steps: seq<Step>, i: nat, tid: TxnId, c: CollId, k: Key)
    requires Run(w, states, steps) && 0 < i < |states| && tid in states[i - 1].txns && tid in states[i].txns
    requires steps[i - 1].DoWrite? && steps[i - 1].tid == tid && steps[i - 1].c == c
    requires Records(states[i - 1].txns[tid].Buf(c), k, LastWrite(w, states, steps, i - 1, tid, c, k))
    ensures Records(states[i].txns[tid].Buf(c), k, LastWrite(w, states, steps, i, tid, c, k))
  {
    hide Next, Records, LastWrite, ToBeSeen, WriteTo, After;
    var s, wr := states[i - 1], steps[i - 1].w;
    var t := s.txns[tid];
    WrittenBuffer(w, s, tid, c, wr, states[i]);
    hide Run;
    var vs: History := x => ChainOf(s.colls[c], x);
    WriteToRecords(w.schemas(c), t.Buf(c), wr, vs, t.startVer, k, LastWrite(w, states, steps, i - 1, tid, c, k));
    ReadsAre(w, states, steps, i - 1, tid, c, k);
    LastAtWrite(w, states, steps, i, tid, c, k);
  }

  lemma SameRecord(b: Buffer, b': Buffer, k: Key, last: Written)
    requires SameWrite(b', b, k) && Records(b, k, last)
    ensures Records(b', k, last)
  {}

  /** Before the write: what the code reads is what is to be seen. */
  lemma ReadsAre(w: World, states: seq<Sys>, steps: seq<Step>, i: nat, tid: TxnId, c: CollId, k: Key)
    requires Run(w, states, steps) && i < |states| && tid in states[i].txns && c in states[i].colls
    requires Records(states[i].txns[tid].Buf(c), k, LastWrite(w, states, steps, i, tid, c, k))
    ensures CurrentDoc(states[i], states[i].txns[tid], c, k) == ToBeSeen(w, states, steps, i, tid, c, k)
  {
    hide Init, Next, LastWrite;
    SnapshotReads(w, states, steps, i, tid, c, k);
    HistoryIsOrdered(w, states, steps, i, c, k);
    SnapshotDocIs(states[i].hist(c)(k), states[i].txns[tid].startVer);
    hide Run, SnapshotDoc, DocAt;
  }

  lemma HistoryIsOrdered(w: World, states: seq<Sys>, steps: seq<Step>, i: nat, c: CollId, k: Key)
    requires Run(w, states, steps) && i < |states|
    ensures NewestFirst(states[i].hist(c)(k))
  {
    hide Init, Next, SnapshotsOk, AllChains, AllTxns, AllSettled, AllScans, LogOk, PhaseOk;
    RunInv(w, states, steps, i);
  }

  /**
   In every run a live transaction reads, under every key, the outcome of its own last write since
   it began, and where it wrote nothing the newest version at or below its snapshot.
   */
  lemma ReadsOwnWrites(w: World, states: seq<Sys>, steps: seq<Step>, i: nat, tid: TxnId, c: CollId, k: Key)
    requires Run(w, states, steps) && i < |states| && tid in states[i].txns && c in states[i].colls
    ensures CurrentDoc(states[i], states[i].txns[tid], c, k) == ToBeSeen(w, states, steps, i, tid, c, k)
  {
    hide Run, Records, LastWrite, ToBeSeen;
    RecordedAt(w, states, steps, i, tid, c, k);
    ReadsAre(w, states, steps, i, tid, c, k);
  }

  lemma ScannerLives(w: World, states: seq<Sys>, steps: seq<Step>, x: nat, tid: TxnId)
    requires Run(w, states, steps) && x < |states| && tid in states[x].scans
    ensures tid in states[x].txns && states[x].scans[tid].coll in states[x].colls
  {
    hide Init, Next, SnapshotsOk, AllChains, AllTxns, AllSettled, LogOk, HistOk, PhaseOk;
    RunInv(w, states, steps, x);
    ScanHasTxn(states[x].scans, states[x].txns, states[x].colls.Keys, states[x].hist, tid);
  }

  /**
   In every run a completed scan has returned exactly what its transaction was to see when the scan
   was opened, each document once.
   */
  lemma ScanReturns(w: World, states: seq<Sys>, steps: seq<Step>, i: nat, tid: TxnId) returns (j: nat)
    requires Run(w, states, steps) && i < |states| && tid in states[i].scans
    requires states[i].scans[tid].pos == |states[i].scans[tid].keys|
    ensures j < i && steps[j] == ScanOpen(tid, states[i].scans[tid].coll)
    ensures var sc := states[i].scans[tid];
            && (forall k, d :: (k, d) in sc.out <==> ToBeSeen(w, states, steps, j, tid, sc.coll, k) == Some(d))
            && (forall x, y :: 0 <= x < y < |sc.out| ==> sc.out[x].0 != sc.out[y].0)
  {
    assert |states| == |steps| + 1;
    hide Run, Init, Next, LastWrite, ToBeSeen, Listing;
    j := ScanOrigin(w, states, steps, i, tid);
    var sc, was := states[i].scans[tid], states[j];
    ScanExact(w, states, steps, i, tid);
    forall x | j <= x <= i ensures tid in states[x].txns { if j < x { ScannerLives(w, states, steps, x, tid); } }
    OpenedOver(w, states, steps, j, tid, sc.coll);
    forall k ensures ToBeSeen(w, states, steps, j, tid, sc.coll, k)
                     == Seen(sc.own, states[i].hist(sc.coll), states[i].txns[tid].startVer)(k)
    {
      SnapshotFixed(w, states, steps, j, i, tid, sc.coll, k);
      ReadsOwnWrites(w, states, steps, j, tid, sc.coll, k);
      SnapshotReads(w, states, steps, j, tid, sc.coll, k);
    }
  }

  lemma OpenedOver(w: World, states: seq<Sys>, steps: seq<Step>, j: nat, tid: TxnId, c: CollId)
    requires Run(w, states, steps) && j < |steps| && steps[j] == ScanOpen(tid, c)
    ensures c in states[j].colls
  {
    assert Next(w, states[j], steps[j], states[j + 1]);
  }

  // ---- collection, natural order and refusal ---------------------------------------------------------

  /** Garbage collection leaves no version that is superseded at or below its watermark. */
  lemma GcReclaims(w: World, states: seq<Sys>, steps: seq<Step>, i: nat, c: CollId, wm: nat, k: Key)
    requires Run(w, states, steps) && i < |steps| && steps[i] == Gc(c, wm)
    ensures c in states[i + 1].colls
    ensures var vs := ChainOf(states[i + 1].colls[c], k);
            forall x :: 0 <= x < |vs| - 1 ==> vs[x].commitVer > wm
  {
    assert Next(w, states[i], steps[i], states[i + 1]);
    hide Next, SnapshotsOk, AllTxns, AllSettled, AllScans, LogOk, HistOk, PhaseOk;
    RunInv(w, states, steps, i);
    GcCuts(w, states[i], c, wm, states[i + 1]);
    ChainIsOk(states[i].orc.commitVer, states[i].txns, states[i].colls, states[i].hist, c);
    hide AllChains;
    var before := states[i].colls[c];
    if k in before.byID && k in before.dirty { CutLeaves(before.byID[k], wm); }
  }

  lemma GcCuts(w: World, s: Sys, c: CollId, wm: nat, s': Sys)
    requires Next(w, s, Gc(c, wm), s')
    ensures c in s.colls && c in s'.colls && s'.colls[c] == Collected(s.colls[c], wm)
  {
    hide Collected;
  }

  lemma CutLeaves(vs: Chain, wm: nat)
    ensures forall x :: 0 <= x < |Pruned(vs, wm)| - 1 ==> Pruned(vs, wm)[x].commitVer > wm
  {}

  /** Keys keep the place in natural order they were first published at; new ones come after. */
  lemma {:induction false} OrderGrows(w: World, states: seq<Sys>, steps: seq<Step>, i: nat, j: nat, c: CollId)
    requires Run(w, states, steps) && i <= j < |states| && c in states[i].colls
    requires forall x :: i <= x < j ==> !steps[x].Reopen?
    ensures c in states[j].colls && states[i].colls[c].order <= states[j].colls[c].order
    decreases j
  {
    hide Next, Init;
    if i < j {
      OrderGrows(w, states, steps, i, j - 1, c);
      OrderStep(w, states[j - 1], steps[j - 1], states[j], c);
    }
  }

  lemma OrderStep(w: World, s: Sys, step: Step, s': Sys, c: CollId)
    requires Next(w, s, step, s') && !step.Reopen? && c in s.colls
    ensures c in s'.colls && s.colls[c].order <= s'.colls[c].order
  {
    hide Acquired, Released, CommittedAt, Conflicts, Covers, Applied, WriteTo, PushedHist, Rebuilt, Placed, PublishAll;
    if step.Publish? {
      var b := s.txns[s.phase.tid].Buf(s.phase.todo[0]);
      AppendsKeys(s.colls[s.phase.todo[0]], s.orc.commitVer + 1, b.pending, b.order, s.phase.rids(s.phase.todo[0]));
    }
  }

  lemma {:induction false} AppendsKeys(coll: Coll, cv: nat, pending: map<Key, PendingOp>, order: seq<Key>,
                                       rids: map<Key, RID>)
    requires forall k :: k in order ==> k in pending && k in rids
    ensures coll.order <= PublishAll(coll, cv, pending, order, rids).order
    decreases |order|
  {
    if order != [] {
      AppendsKeys(PublishOp(coll, cv, order[0], pending[order[0]], rids[order[0]]), cv, pending, order[1..], rids);
    }
  }

  /** An entry of the committed-since index is the write set of a commit of this run. */
  lemma {:induction false} RecentOrigin(w: World, states: seq<Sys>, steps: seq<Step>, i: nat,
                                        r: Committed) returns (f: nat)
    requires Run(w, states, steps) && i < |states| && r in states[i].orc.recent
    ensures f < i && steps[f] == Finish && states[f].phase.Publishing?
    ensures r == Committed(states[f].orc.commitVer + 1, states[f].phase.ws)
  {
    hide Next;
    assert i > 0;
    hide Init;
    RecentStep(w, states[i - 1], steps[i - 1], states[i], r);
    if r in states[i - 1].orc.recent {
      f := RecentOrigin(w, states, steps, i - 1, r);
    } else {
      f := i - 1;
    }
  }

  lemma RecentStep(w: World, s: Sys, step: Step, s': Sys, r: Committed)
    requires Next(w, s, step, s') && r in s'.orc.recent
    ensures r in s.orc.recent
            || (step == Finish && s.phase.Publishing? && r == Committed(s.orc.commitVer + 1, s.phase.ws))
  {
    hide BeginStep, DoWriteStep, EndStep, ApplyStep, PublishStep, FinishStep, ReopenStep;
    hide ReadWatermarkStep, GcStep, ScanOpenStep, ScanNextStep, ScanCloseStep;
    match step
    case End(tid) => RecentCut(w, s, tid, s', r);
    case Finish => RecentGrows(w, s, s', r);
    case Reopen => RecentLost(w, s, s');
    case _ => RecentKept(w, s, step, s');
  }

  lemma RecentKept(w: World, s: Sys, step: Step, s': Sys)
    requires Next(w, s, step, s') && !step.End? && !step.Finish? && !step.Reopen?
    ensures s'.orc.recent == s.orc.recent
  {
    hide Conflicts, Covers, Published, Collected, Applied, WriteTo, PushedHist, Placed, Unseen, CurrentDoc;
  }

  lemma RecentCut(w: World, s: Sys, tid: TxnId, s': Sys, r: Committed)
    requires EndStep(w, s, tid, s') && r in s'.orc.recent
    ensures r in s.orc.recent
  {
  }

  lemma RecentGrows(w: World, s: Sys, s': Sys, r: Committed)
    requires FinishStep(w, s, s') && r in s'.orc.recent
    ensures r in s.orc.recent || r == Committed(s.orc.commitVer + 1, s.phase.ws)
    ensures s.phase.Publishing?
  {
  }

  lemma RecentLost(w: World, s: Sys, s': Sys)
    requires ReopenStep(w, s, s')
    ensures s'.orc.recent == []
  {
    hide Rebuilt;
  }

  /** A commit is refused only when a commit after its snapshot shares a hash with it. */
  lemma RefusedOnlyOnConflict(w: World, states: seq<Sys>, steps: seq<Step>, i: nat, tid: TxnId, ws: WriteSet)
    returns (f: nat, h: nat)
    requires Run(w, states, steps) && i < |states| && tid in states[i].txns
    requires Conflicts(states[i].orc, states[i].txns[tid].startVer, ws)
    ensures f < i && steps[f] == Finish && states[f].phase.Publishing?
    ensures states[f].orc.commitVer + 1 > states[i].txns[tid].startVer
    ensures h in states[f].phase.ws && h in ws
  {
    hide Run;
    var recent := states[i].orc.recent;
    var x :| 0 <= x < |recent| && recent[x].commitVer > states[i].txns[tid].startVer && Overlap(recent[x].writeSet, ws);
    f := RecentOrigin(w, states, steps, i, recent[x]);
    h :| h in recent[x].writeSet && h in ws;
  }

  // ---- how a commit is reported --------------------------------------------------------------------

  /** Whether the transaction's last put of (c, k) replaced the whole document; false when there was none. */
  function WholePut(steps: seq<Step>, i: nat, tid: TxnId, c: CollId, k: Key): bool
    requires i <= |steps|
  {
    if i == 0 then false
    else match steps[i - 1]
      case Begin(t) => if t == tid then false else WholePut(steps, i - 1, tid, c, k)
      case DoWrite(t, x, Put(key, _, replaced)) =>
        if t == tid && x == c && key == k then replaced else WholePut(steps, i - 1, tid, c, k)
      case _ => WholePut(steps, i - 1, tid, c, k)
  }

  ghost predicate Flagged(b: Buffer, k: Key, whole: bool) {
    (k in b.pending && b.pending[k].replaced) <==> whole
  }

  lemma WriteToFlags(sch: Schema, b: Buffer, wr: Write, vs: History, startVer: nat, k: Key, whole: bool)
    requires Flagged(b, k, whole)
    ensures Flagged(WriteTo(sch, b, wr, vs, startVer), k, if wr.Put? && wr.key == k then wr.replaced else whole)
  {
    hide LiveAt, DocAt;
  }

  lemma {:induction false} FlagRecorded(w: World, states: seq<Sys>, steps: seq<Step>, i: nat, tid: TxnId, c: CollId,
                                        k: Key)
    requires Run(w, states, steps) && i < |states| && tid in states[i].txns
    ensures Flagged(states[i].txns[tid].Buf(c), k, WholePut(steps, i, tid, c, k))
  {
    if i > 0 {
      assert Next(w, states[i - 1], steps[i - 1], states[i]);
      hide Init, Next, Flagged;
      var s, step, s' := states[i - 1], steps[i - 1], states[i];
      if step == Begin(tid) {
        BeginFlags(w, s, s', tid, c, k);
      } else {
        TxnLives(w, s, step, s', tid);
        FlagRecorded(w, states, steps, i - 1, tid, c, k);
        if step.DoWrite? && step.tid == tid && step.c == c {
          WrittenBuffer(w, s, tid, c, step.w, s');
          hide WriteTo;
          WriteToFlags(w.schemas(c), s.txns[tid].Buf(c), step.w, x => ChainOf(s.colls[c], x), s.txns[tid].startVer, k,
            WholePut(steps, i - 1, tid, c, k));
        } else {
          OtherSteps(w, s, step, s', tid, c);
        }
      }
    }
  }

  lemma BeginFlags(w: World, s: Sys, s': Sys, tid: TxnId, c: CollId, k: Key)
    requires Next(w, s, Begin(tid), s')
    ensures tid in s'.txns && Flagged(s'.txns[tid].Buf(c), k, false)
  {}

  /**
   The change record of a written document, from the steps: its new document is the last write's, its
   old one the snapshot's, and it is an insert, a delete, a replacement or an update accordingly.
   */
  lemma RecordsTell(w: World, states: seq<Sys>, steps: seq<Step>, i: nat, tid: TxnId, c: CollId, k: Key)
    requires Run(w, states, steps) && i < |states| && tid in states[i].txns
    requires LastWrite(w, states, steps, i, tid, c, k).Wrote?
    ensures k in states[i].txns[tid].Buf(c).pending
    ensures var op, doc := states[i].txns[tid].Buf(c).pending[k], LastWrite(w, states, steps, i, tid, c, k).doc;
            var before := SnapshotDoc(states[i].hist(c)(k), states[i].txns[tid].startVer);
            && (op.Noop() <==> doc.None? && before.None?)
            && CL.RecordOf(op) == CL.Change(
                 if doc.None? then CL.Deleted else if before.None? then CL.Inserted
                 else if WholePut(steps, i, tid, c, k) then CL.Replaced else CL.Updated, doc, before)
  {
    hide Init, Next, LastWrite, WholePut, SnapshotDoc, Inv;
    RecordedAt(w, states, steps, i, tid, c, k);
    FlagRecorded(w, states, steps, i, tid, c, k);
    HistoryIsOrdered(w, states, steps, i, c, k);
    SnapshotDocIs(states[i].hist(c)(k), states[i].txns[tid].startVer);
    RunInv(w, states, steps, i);
    RemovesSnapshot(w, states[i], tid, c, k);
    hide Run;
  }

  lemma RemovesSnapshot(w: World, s: Sys, tid: TxnId, c: CollId, k: Key)
    requires Inv(w, s) && tid in s.txns && k in s.txns[tid].Buf(c).pending
    ensures var r := s.txns[tid].Buf(c).pending[k].remove;
            (if r.Some? then Some(r.value.doc) else None) == DocAt(s.hist(c)(k), s.txns[tid].startVer)
  {
    hide AllChains, AllSettled, AllScans, PhaseOk, SnapshotsOk, LogOk, HistOk;
    TxnIsOk(w, s.txns, s.colls.Keys, s.hist, tid, c);
    hide AllTxns;
  }

  // ---- what a commit installs ----------------------------------------------------------------------

  /** Every version at `cv` carries the document buffered for it. */
  ghost predicate Carries(t: Txn, cv: nat, hist: CollId -> History) {
    forall c, k, x :: 0 <= x < |hist(c)(k)| && hist(c)(k)[x].commitVer == cv ==>
      k in t.Buf(c).pending && hist(c)(k)[x].doc == t.Buf(c).pending[k].insertDoc
  }

  ghost predicate AllCarry(s: Sys) {
    && (forall q :: 0 <= q < |s.log| ==> Carries(s.log[q].txn, s.log[q].cv, s.hist))
    && (s.phase.Publishing? && s.phase.tid in s.txns ==> Carries(s.txns[s.phase.tid], s.orc.commitVer + 1, s.hist))
  }

  lemma CarriesPush(t: Txn, cv: nat, hist: CollId -> History, b: Buffer, c: CollId, at: nat, rids: map<Key, RID>,
                    hist': CollId -> History)
    requires Carries(t, cv, hist) && hist'(c) == PushedHist(hist(c), b, at, rids)
             && forall x :: x != c ==> hist'(x) == hist(x)
    requires at == cv ==> b == t.Buf(c)
    ensures Carries(t, cv, hist')
  {
    forall d, k, x | 0 <= x < |hist'(d)(k)| && hist'(d)(k)[x].commitVer == cv
      ensures k in t.Buf(d).pending && hist'(d)(k)[x].doc == t.Buf(d).pending[k].insertDoc
    {
      if d == c && hist'(c)(k) != hist(c)(k) {
        if x > 0 { assert hist'(c)(k)[x] == hist(c)(k)[x - 1]; }
      }
    }
  }

  lemma PublishCarries(w: World, s: Sys, s': Sys)
    requires Inv(w, s) && PublishStep(w, s, s') && AllCarry(s)
    ensures AllCarry(s')
  {
    hide AllChains, AllTxns, AllSettled, AllScans, HistOk, PhaseOk, SnapshotsOk, Published, Carries, PushedHist;
    var c, t, cv := s.phase.todo[0], s.txns[s.phase.tid], s.orc.commitVer + 1;
    CarriesPush(t, cv, s.hist, t.Buf(c), c, cv, s.phase.rids(c), s'.hist);
    forall q | 0 <= q < |s.log| ensures Carries(s'.log[q].txn, s'.log[q].cv, s'.hist) {
      CarriesPush(s.log[q].txn, s.log[q].cv, s.hist, t.Buf(c), c, cv, s.phase.rids(c), s'.hist);
    }
  }

  lemma ApplyCarries(w: World, s: Sys, tid: TxnId, ws: WriteSet, rids: CollId -> map<Key, RID>, s': Sys)
    requires Inv(w, s) && ApplyStep(w, s, tid, ws, rids, s') && AllCarry(s)
    ensures AllCarry(s')
  {
    ApplyFrame(w, s, tid, ws, rids, s');
    ApplyIdle(w, s, tid, ws, rids, s');
    hide ApplyStep;
    NothingAhead(w, s);
    hide Inv;
  }

  lemma ApplyIdle(w: World, s: Sys, tid: TxnId, ws: WriteSet, rids: CollId -> map<Key, RID>, s': Sys)
    requires ApplyStep(w, s, tid, ws, rids, s')
    ensures s.phase.Idle? && s'.log == s.log && s'.orc == s.orc
  {
    hide Covers, Conflicts, Placed, Applied;
  }

  /** With no commit in flight no version is above the commit version. */
  lemma NothingAhead(w: World, s: Sys)
    requires Inv(w, s) && s.phase.Idle?
    ensures forall c, k, x :: 0 <= x < |s.hist(c)(k)| ==> s.hist(c)(k)[x].commitVer <= s.orc.commitVer
  {
    hide AllChains, AllTxns, AllSettled, AllScans, PhaseOk;
    forall c, k, x | 0 <= x < |s.hist(c)(k)| ensures s.hist(c)(k)[x].commitVer <= s.orc.commitVer {
      assert HasVersion(s.hist(c)(k), s.hist(c)(k)[x].commitVer);
      assert Explained(s.log, s.base, None, c, k, s.hist(c)(k)[x].commitVer);
    }
  }

  /** A step that changes neither history nor log, and leaves the commit in flight alone. */
  lemma QuietCarries(s: Sys, s': Sys)
    requires AllCarry(s) && s'.hist == s.hist && s'.log == s.log && s'.phase == s.phase
             && s'.orc.commitVer == s.orc.commitVer
    requires s.phase.Publishing? && s.phase.tid in s'.txns
             ==> s.phase.tid in s.txns && s'.txns[s.phase.tid] == s.txns[s.phase.tid]
    ensures AllCarry(s')
  {
    hide Carries;
  }

  lemma FinishCarries(w: World, s: Sys, s': Sys)
    requires FinishStep(w, s, s') && AllCarry(s)
    ensures AllCarry(s')
  {
    hide Carries, CommittedAt;
  }

  lemma StepCarries(w: World, s: Sys, step: Step, s': Sys)
    requires Inv(w, s) && Next(w, s, step, s') && AllCarry(s)
    ensures AllCarry(s')
  {
    match step
    case Publish => hide Inv, AllCarry; PublishCarries(w, s, s');
    case Apply(tid, ws, rids) => hide Inv, AllCarry; ApplyCarries(w, s, tid, ws, rids, s');
    case Finish => hide Inv, AllCarry; FinishCarries(w, s, s');
    case Reopen =>
      hide Inv, Carries, Rebuilt;
    case _ =>
      hide Inv, AllCarry, Collected, WriteTo;
      QuietCarries(s, s');
  }

  lemma {:induction false} RunCarries(w: World, states: seq<Sys>, steps: seq<Step>, i: nat)
    requires Run(w, states, steps) && i < |states|
    ensures AllCarry(states[i])
  {
    hide Inv, Next, AllCarry;
    if i == 0 {
      InitCarries(states[0]);
    } else {
      RunCarries(w, states, steps, i - 1);
      RunInv(w, states, steps, i - 1);
      StepCarries(w, states[i - 1], steps[i - 1], states[i]);
    }
  }

  lemma InitCarries(s: Sys)
    requires Init(s)
    ensures AllCarry(s)
  {}

  /** The step that logged a commit. */
  ghost predicate LoggedAt(states: seq<Sys>, steps: seq<Step>, f: nat, r: CommitRec) {
    && f < |steps| && f < |states| && steps[f] == Finish
    && states[f].phase.Publishing? && states[f].phase.tid in states[f].txns
    && r == CommitRec(states[f].orc.commitVer + 1, states[f].txns[states[f].phase.tid])
  }

  lemma {:induction false} LogOrigin(w: World, states: seq<Sys>, steps: seq<Step>, i: nat, q: nat) returns (f: nat)
    requires Run(w, states, steps) && i < |states| && q < |states[i].log|
    ensures f < i && LoggedAt(states, steps, f, states[i].log[q])
  {
    hide Next;
    assert i > 0;
    hide Init;
    LogStep(w, states[i - 1], steps[i - 1], states[i], q);
    if q < |states[i - 1].log| && states[i].log[q] == states[i - 1].log[q] {
      f := LogOrigin(w, states, steps, i - 1, q);
    } else {
      f := i - 1;
    }
  }

  lemma LogStep(w: World, s: Sys, step: Step, s': Sys, q: nat)
    requires Next(w, s, step, s') && q < |s'.log|
    ensures (q < |s.log| && s'.log[q] == s.log[q])
            || (step == Finish && s.phase.Publishing? && s.phase.tid in s.txns
                && s'.log[q] == CommitRec(s.orc.commitVer + 1, s.txns[s.phase.tid]))
  {
    hide Acquired, Released, CommittedAt, Conflicts, Covers, Published, Collected, Applied, WriteTo, PushedHist,
        Rebuilt,
        Placed;
  }

  /** What a chain holds at version `cv` is the outcome of the last write: nothing for one that changed nothing. */
  ghost predicate Installs(vs: Chain, cv: nat, last: Written, before: Option<Raw>) {
    match last
    case Untouched => !HasVersion(vs, cv)
    case Wrote(doc) =>
      && (HasVersion(vs, cv) <==> doc.Some? || before.Some?)
      && (forall x :: 0 <= x < |vs| && vs[x].commitVer == cv ==> vs[x].doc == doc)
  }

  /** A logged commit has a version under every key it wrote, and no other. */
  lemma VersionIffWrote(w: World, s: Sys, q: nat, c: CollId, k: Key)
    requires Inv(w, s) && q < |s.log|
    ensures HasVersion(s.hist(c)(k), s.log[q].cv) <==> s.log[q].txn.Wrote(c, k)
  {
    hide AllChains, AllTxns, AllSettled, AllScans, PhaseOk, SnapshotsOk;
    var cv := s.log[q].cv;
    if HasVersion(s.hist(c)(k), cv) {
      assert Explained(s.log, s.base, InFlight(s.orc.commitVer, s.txns, s.phase), c, k, cv);
    }
  }

  /** The buffered operation changes something exactly when it stores a document or removes one the snapshot had. */
  lemma WroteIff(w: World, s: Sys, tid: TxnId, c: CollId, k: Key)
    requires Inv(w, s) && tid in s.txns
    ensures var t := s.txns[tid];
            t.Wrote(c, k) <==> k in t.Buf(c).pending
                               && (t.Buf(c).pending[k].insertDoc.Some? || DocAt(s.hist(c)(k), t.startVer).Some?)
  {
    hide AllChains, AllSettled, AllScans, PhaseOk, SnapshotsOk, LogOk, HistOk;
    TxnIsOk(w, s.txns, s.colls.Keys, s.hist, tid, c);
    hide AllTxns;
  }

  /**
   In every run each commit in the log has installed, under every key and at its one version, exactly
   the outcome of its transaction's last write: the document put or inserted, a delete, and nothing
   where it wrote nothing or deleted what was not there before.
   */
  lemma CommitInstalls(w: World, states: seq<Sys>, steps: seq<Step>, i: nat, q: nat) returns (f: nat)
    requires Run(w, states, steps) && i < |states| && q < |states[i].log|
    ensures f < i && LoggedAt(states, steps, f, states[i].log[q])
    ensures var tid := states[f].phase.tid;
            forall c, k :: Installs(states[i].hist(c)(k), states[i].log[q].cv,
                           LastWrite(w, states, steps, f, tid, c, k),
                                    SnapshotDoc(states[f].hist(c)(k), states[f].txns[tid].startVer))
  {
    hide Inv, Next, Init, LastWrite, SnapshotDoc, Installs;
    f := LogOrigin(w, states, steps, i, q);
    var tid := states[f].phase.tid;
    RunInv(w, states, steps, i);
    RunInv(w, states, steps, f);
    RunCarries(w, states, steps, i);
    forall c, k ensures Installs(states[i].hist(c)(k), states[i].log[q].cv, LastWrite(w, states, steps, f, tid, c, k),
                                 SnapshotDoc(states[f].hist(c)(k), states[f].txns[tid].startVer))
    {
      RecordedAt(w, states, steps, f, tid, c, k);
      HistoryIsOrdered(w, states, steps, f, c, k);
      InstalledOne(w, states[i], q, states[f], tid, c, k, LastWrite(w, states, steps, f, tid, c, k));
    }
  }

  lemma InstalledOne(w: World, s: Sys, q: nat, was: Sys, tid: TxnId, c: CollId, k: Key, last: Written)
    requires Inv(w, s) && AllCarry(s) && q < |s.log| && Inv(w, was) && tid in was.txns && s.log[q].txn == was.txns[tid]
    requires Records(was.txns[tid].Buf(c), k, last) && NewestFirst(was.hist(c)(k))
    ensures Installs(s.hist(c)(k), s.log[q].cv, last, SnapshotDoc(was.hist(c)(k), was.txns[tid].startVer))
  {
    VersionIffWrote(w, s, q, c, k);
    WroteIff(w, was, tid, c, k);
    SnapshotDocIs(was.hist(c)(k), was.txns[tid].startVer);
    hide Inv, SnapshotDoc, DocAt;
    assert Carries(s.log[q].txn, s.log[q].cv, s.hist);
  }
}
