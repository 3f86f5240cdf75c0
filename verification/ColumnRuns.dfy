/**
 The column store beside the transaction machine: attached at some quiet moment of any run
 and fed by every later commit, it answers every snapshot exactly.
 */
module ColumnRuns {
  import opened Common
  import opened Overlay
  import opened CollectionModel
  import opened VersionOracle
  import opened Mvcc
  import opened MvccInv
  import opened MvccRuns
  import CL = ColumnLog

  /** The last version that may have been stamped anywhere. */
  function Limit(s: Sys): nat {
    s.orc.commitVer + if s.phase.Publishing? then 1 else 0
  }

  /** Publishing the collection also applies the commit's change records to its column store. */
  ghost predicate ColumnStep(idKey: Raw -> CL.StoreKey, c: CollId, s: Sys, step: Step, col: CL.Log, col': CL.Log) {
    if step.Publish? && s.phase.Publishing? && s.phase.todo != [] && s.phase.todo[0] == c && s.phase.tid in s.txns then
      var b := s.txns[s.phase.tid].Buf(c);
      (forall k :: k in b.order ==> k in b.pending)
      && col' == CL.Maintain(idKey, col, CL.ChangeRecords(b.pending, b.order), s.orc.commitVer + 1)
    else col' == col
  }

  /** Every document a live transaction is about to store comes from `ds`. */
  ghost predicate WritesIn(s: Sys, c: CollId, ds: iset<Raw>) {
    forall t, k :: t in s.txns && k in s.txns[t].Buf(c).pending && s.txns[t].Buf(c).pending[k].insertDoc.Some? ==>
      s.txns[t].Buf(c).pending[k].insertDoc.value in ds
  }

  /** A run with a column store built at state `at` from the documents then committed, with no restart since. */
  ghost predicate ColumnRun(w: World, states: seq<Sys>, steps: seq<Step>, c: CollId, ds: iset<Raw>,
                            idKey: Raw -> CL.StoreKey,
                            at: nat, docs: seq<Raw>, cols: seq<CL.Log>) {
    && Run(w, states, steps) && |cols| == |states| && at < |states|
    && c in states[at].colls && states[at].phase.Idle?
    && (forall d :: d in docs <==> exists k :: DocAt(states[at].hist(c)(k), states[at].orc.commitVer) == Some(d))
    && Distinct(docs) && (forall i :: 0 <= i < |docs| ==> docs[i] in ds)
    && cols[at] == CL.InsertAll(idKey, CL.EMPTY_LOG, docs, states[at].orc.commitVer)
    && (forall i :: at <= i < |states| ==> WritesIn(states[i], c, ds))
    && (forall i :: at <= i < |steps| ==> !steps[i].Reopen?
                                          && ColumnStep(idKey, c, states[i], steps[i], cols[i], cols[i + 1]))
  }

  // ---- what a step does to history and limit -------------------------------------------

  lemma StepFrame(w: World, s: Sys, step: Step, s': Sys)
    requires Next(w, s, step, s') && !step.Reopen? && !step.Publish?
    ensures s'.hist == s.hist && Limit(s) <= Limit(s') && s'.colls.Keys == s.colls.Keys
  {
    hide Applied, Published, Collected, WriteTo, Conflicts, Placed;
    match step
    case Apply(a, ws, rids) => ApplyFrame(w, s, a, ws, rids, s');
    case ScanOpen(t, x) => ScanOpenFrame(w, s, t, x, s');
    case ScanNext(t) => ScanNextFrame(w, s, t, s');
    case _ =>
  }

  lemma PublishFrame(w: World, s: Sys, s': Sys, c: CollId)
    requires PublishStep(w, s, s')
    ensures Limit(s') == Limit(s) == s.orc.commitVer + 1 && s'.colls.Keys == s.colls.Keys
    ensures s.phase.todo[0] != c ==> s'.hist(c) == s.hist(c)
    ensures s.phase.todo[0] == c ==>
              var b := s.txns[s.phase.tid].Buf(c);
              forall k :: s'.hist(c)(k) == CL.PushedAll(s.hist(c), s.orc.commitVer + 1, b.pending, b.order,
                          s.phase.rids(c))(k)
  {
    hide Published;
  }

  /** What is published fits the head of every chain. */
  lemma PublishFits(w: World, s: Sys, s': Sys, c: CollId, ds: iset<Raw>)
    requires Inv(w, s) && PublishStep(w, s, s') && s.phase.todo[0] == c && WritesIn(s, c, ds)
    ensures var b := s.txns[s.phase.tid].Buf(c);
            CL.FitsAll(w.schemas(c), ds, s.hist(c), b.pending, b.order, s.phase.rids(c))
  {
    hide SnapshotsOk, AllTxns, AllSettled, AllScans, LogOk, HistOk, Published, PushedHist, Mirrors, Owns, UniqueKeys;
    var b := s.txns[s.phase.tid].Buf(c);
    ChainIsOk(s.orc.commitVer, s.txns, s.colls, s.hist, c);
    var coll, sch := s.colls[c], w.schemas(c);
    assert Ahead(sch, coll, b, s.orc.commitVer + 1, s.phase.rids(c));
    forall k | k in b.order ensures k in b.pending && k in s.phase.rids(c)
        && CL.FitsHead(sch, ds, k, b.pending[k], s.hist(c)(k)) {
      FitsHeadOf(sch, ds, s.orc.commitVer, s.txns, coll, s.hist(c), k, b.pending[k]);
    }
  }

  lemma FitsHeadOf(sch: Schema, ds: iset<Raw>, commitVer: nat, txns: map<TxnId, Txn>, coll: Coll, full: History, k: Key,
                   op: PendingOp)
    requires Fits(sch, k, op, Live(coll)) && Retains(commitVer, txns, ChainOf(coll, k), full(k))
    requires op.insertDoc.Some? ==> op.insertDoc.value in ds
    ensures CL.FitsHead(sch, ds, k, op, full(k))
  {}

  // ---- the whole run -----------------------------------------------------------------------

  lemma BuildRow(w: World, s: Sys, c: CollId, docs: seq<Raw>)
    requires Inv(w, s) && s.phase.Idle? && c in s.colls && Distinct(docs)
    requires forall d :: d in docs <==> exists k :: DocAt(s.hist(c)(k), s.orc.commitVer) == Some(d)
    ensures CL.Lists(w.schemas(c), s.hist(c), docs)
    ensures forall k, i :: 0 <= i < |s.hist(c)(k)| ==> s.hist(c)(k)[i].commitVer <= s.orc.commitVer
  {
    hide AllTxns, AllScans, LogOk, HistOk, PhaseOk, SnapshotsOk, AllSettled, AllChains;
    StartsBelow(s.orc, s.txns, s.wms, s.base);
    VersionsBelow(w, s.log, s.orc, s.base, None, s.hist, c);
    forall k, i | 0 <= i < |s.hist(c)(k)| ensures s.hist(c)(k)[i].commitVer <= s.orc.commitVer {
      assert HasVersion(s.hist(c)(k), s.hist(c)(k)[i].commitVer);
    }
    forall k ensures DocAt(s.hist(c)(k), s.orc.commitVer) == CL.HeadDoc(s.hist(c)(k)) {
      if s.hist(c)(k) != [] { FirstAtIs(s.hist(c)(k), s.orc.commitVer, 0); }
    }
    HeadKeys(w, s, c);
    forall i | 0 <= i < |docs| ensures CL.HeadDoc(s.hist(c)(w.schemas(c).keyOf(docs[i]))) == Some(docs[i]) {
      assert docs[i] in docs;
      var k :| DocAt(s.hist(c)(k), s.orc.commitVer) == Some(docs[i]);
    }
  }

  lemma HeadKeys(w: World, s: Sys, c: CollId)
    requires Inv(w, s) && s.phase.Idle? && c in s.colls
    ensures forall k :: CL.HeadDoc(s.hist(c)(k)).Some? ==> w.schemas(c).keyOf(CL.HeadDoc(s.hist(c)(k)).value) == k
  {
    hide AllTxns, AllScans, LogOk, HistOk, PhaseOk, SnapshotsOk, AllChains;
    ChainIsOk(s.orc.commitVer, s.txns, s.colls, s.hist, c);
    var live := Live(s.colls[c]);
    assert Settled(w.schemas(c), s.colls[c]);
    forall k | CL.HeadDoc(s.hist(c)(k)).Some? ensures w.schemas(c).keyOf(CL.HeadDoc(s.hist(c)(k)).value) == k {
      assert Retains(s.orc.commitVer, s.txns, ChainOf(s.colls[c], k), s.hist(c)(k));
      assert k in live;
    }
  }

  lemma StepTracks(w: World, s: Sys, step: Step, s': Sys, c: CollId, ds: iset<Raw>, idKey: Raw -> CL.StoreKey,
                   base: nat, col: CL.Log, col': CL.Log)
    requires Inv(w, s) && Next(w, s, step, s') && !step.Reopen? && ColumnStep(idKey, c, s, step, col, col')
    requires CL.Injective(w.schemas(c), idKey, ds) && WritesIn(s, c, ds)
    requires CL.Tracks(w.schemas(c), idKey, ds, s.hist(c), col, base, Limit(s))
    ensures CL.Tracks(w.schemas(c), idKey, ds, s'.hist(c), col', base, Limit(s'))
  {
    hide Inv, CL.Tracks, CL.Injective, CL.FitsAll, CL.Maintain, CL.ChangeRecords, CL.MaintainOps, WritesIn;
    hide BeginStep, DoWriteStep, EndStep, ApplyStep, FinishStep, ReadWatermarkStep, GcStep;
    hide ScanOpenStep, ScanNextStep, ScanCloseStep, ReopenStep;
    var sch := w.schemas(c);
    if step.Publish? {
      PublishFrame(w, s, s', c);
      if s.phase.todo[0] == c {
        var b := s.txns[s.phase.tid].Buf(c);
        var cv, rids := s.orc.commitVer + 1, s.phase.rids(c);
        PublishFits(w, s, s', c, ds);
        CL.CommitTracks(sch, idKey, ds, s.hist(c), col, base, cv, b.pending, b.order, rids);
        CL.RecordsApply(idKey, col, b.pending, b.order, cv);
        CL.SameHistory(sch, idKey, ds, CL.PushedAll(s.hist(c), cv, b.pending, b.order, rids), s'.hist(c), col', base,
            cv);
      }
    } else {
      StepFrame(w, s, step, s');
      CL.Advance(sch, idKey, ds, s.hist(c), col, base, Limit(s), Limit(s'));
    }
  }

  lemma {:induction false} RunTracks(w: World, states: seq<Sys>, steps: seq<Step>, c: CollId, ds: iset<Raw>,
                                     idKey: Raw -> CL.StoreKey,
                                     at: nat, docs: seq<Raw>, cols: seq<CL.Log>, i: nat)
    requires ColumnRun(w, states, steps, c, ds, idKey, at, docs, cols) && CL.Injective(w.schemas(c), idKey, ds)
    requires at <= i < |states|
    ensures CL.Tracks(w.schemas(c), idKey, ds, states[i].hist(c), cols[i], states[at].orc.commitVer, Limit(states[i]))
  {
    hide Inv, Init, Next, CL.Tracks, CL.Injective, CL.Lists, CL.InsertAll, ColumnStep, WritesIn;
    if i == at {
      RunInv(w, states, steps, at);
      BuildRow(w, states[at], c, docs);
      CL.BuildTracks(w.schemas(c), idKey, ds, states[at].hist(c), docs, states[at].orc.commitVer);
    } else {
      RunTracks(w, states, steps, c, ds, idKey, at, docs, cols, i - 1);
      RunInv(w, states, steps, i - 1);
      StepTracks(w, states[i - 1], steps[i - 1], states[i], c, ds, idKey, states[at].orc.commitVer, cols[i - 1],
          cols[i]);
    }
  }

  /**
   A column store attached anywhere in any run answers every snapshot from its build on:
   one visible row for each document a transaction at that snapshot reads, and no others.
   */
  lemma ColumnAnswers(w: World, states: seq<Sys>, steps: seq<Step>, c: CollId, ds: iset<Raw>, idKey: Raw -> CL.StoreKey,
                      at: nat, docs: seq<Raw>, cols: seq<CL.Log>, i: nat, snap: nat)
    requires ColumnRun(w, states, steps, c, ds, idKey, at, docs, cols) && CL.Injective(w.schemas(c), idKey, ds)
    requires at <= i < |states| && states[at].orc.commitVer <= snap
    ensures CL.Shows(w.schemas(c), states[i].hist(c), cols[i].rows, snap)
  {
    hide ColumnRun, CL.Tracks, CL.Injective, CL.Shows;
    ColumnRunBounds(w, states, steps, c, ds, idKey, at, docs, cols);
    RunTracks(w, states, steps, c, ds, idKey, at, docs, cols, i);
    CL.TracksShows(w.schemas(c), idKey, ds, states[i].hist(c), cols[i], states[at].orc.commitVer, Limit(states[i]),
        snap);
  }

  lemma ColumnRunBounds(w: World, states: seq<Sys>, steps: seq<Step>, c: CollId, ds: iset<Raw>,
                        idKey: Raw -> CL.StoreKey,
                        at: nat, docs: seq<Raw>, cols: seq<CL.Log>)
    requires ColumnRun(w, states, steps, c, ds, idKey, at, docs, cols)
    ensures |cols| == |states| && at < |states|
  {}
}
