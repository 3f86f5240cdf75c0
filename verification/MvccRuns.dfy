/**
 What every run of the transaction machine guarantees: stable snapshots, exact scans,
 durable state equal to the overlay, first committer wins, atomic visibility, exact
 indexes, and recovery at any moment.
 */
module MvccRuns {
  import opened Common
  import opened Overlay
  import opened CollectionModel
  import opened VersionOracle
  import opened Mvcc
  import opened MvccInv
  import opened UniqueApply

  // ---- restart --------------------------------------------------------------------

  /** Rebuilding from a heap that mirrors `heads` gives an overlay whose live heads are `heads`. */
  lemma RebuildRecovers(sch: Schema, d: Durable, heads: Heads, c: Coll)
    requires Mirrors(sch, d, heads) && Rebuilt(sch, d, c)
    ensures Live(c) == heads
    ensures Owns(c.ridOwner, heads) && OrderOk(c)
  {
    forall k | k in c.byID ensures k in heads && c.byID[k][0] == heads[k] {
      var v := c.byID[k][0];
      assert sch.keyOf(d.heap[v.rid].doc) == k;
    }
    forall k | k in heads ensures k in c.byID {
      assert heads[k].rid in d.heap;
    }
    assert Live(c).Keys == heads.Keys;
  }

  /** The heads a restart recovers: those of the overlay, with a commit in flight counted as done. */
  ghost function Recoverable(s: Sys, c: CollId): Heads
    requires c in s.colls
    requires s.phase.Publishing? && c in s.phase.todo ==>
               s.phase.tid in s.txns && forall k :: k in s.txns[s.phase.tid].Buf(c).order ==>
                 k in s.txns[s.phase.tid].Buf(c).pending && k in s.phase.rids(c)
  {
    if s.phase.Publishing? && c in s.phase.todo then
      var b := s.txns[s.phase.tid].Buf(c);
      HeadsAfter(Live(s.colls[c]), s.orc.commitVer + 1, b.pending, b.order, s.phase.rids(c))
    else Live(s.colls[c])
  }

  lemma DurableMirrors(w: World, s: Sys, c: CollId)
    requires Inv(w, s) && c in s.colls
    ensures s.phase.Publishing? && c in s.phase.todo ==>
              s.phase.tid in s.txns && forall k :: k in s.txns[s.phase.tid].Buf(c).order ==>
                k in s.txns[s.phase.tid].Buf(c).pending && k in s.phase.rids(c)
    ensures Mirrors(w.schemas(c), s.colls[c].durable, Recoverable(s, c))
    ensures UniqueKeys(w.schemas(c), s.colls[c].durable.sec)
  {
    hide SnapshotsOk, AllChains, AllTxns, AllScans, LogOk, HistOk, Mirrors, UniqueKeys, Owns, AllFit;
    if s.phase.Publishing? && c in s.phase.todo {
      assert Ahead(w.schemas(c), s.colls[c], s.txns[s.phase.tid].Buf(c), s.orc.commitVer + 1, s.phase.rids(c));
    } else {
      assert Settled(w.schemas(c), s.colls[c]);
    }
  }

  /** A restart at any moment, even between apply and publish, recovers exactly the committed documents. */
  lemma RestartRecovers(w: World, s: Sys, s': Sys, c: CollId)
    requires Inv(w, s) && ReopenStep(w, s, s') && c in s.colls
    ensures s.phase.Publishing? && c in s.phase.todo ==>
              s.phase.tid in s.txns && forall k :: k in s.txns[s.phase.tid].Buf(c).order ==>
                k in s.txns[s.phase.tid].Buf(c).pending && k in s.phase.rids(c)
    ensures Live(s'.colls[c]) == Recoverable(s, c)
    ensures Settled(w.schemas(c), s'.colls[c]) && OrderOk(s'.colls[c])
  {
    DurableMirrors(w, s, c);
    RebuildRecovers(w.schemas(c), s.colls[c].durable, Recoverable(s, c), s'.colls[c]);
  }

  lemma ReopenInv(w: World, s: Sys, s': Sys)
    requires Inv(w, s) && ReopenStep(w, s, s')
    ensures Inv(w, s')
  {
    hide SnapshotsOk, AllChains, AllTxns, AllSettled, AllScans, LogOk, HistOk, Flying, Settled, Rebuilt;
    forall c | c in s.colls ensures Settled(w.schemas(c), s'.colls[c]) && OrderOk(s'.colls[c]) {
      RestartRecovers(w, s, s', c);
    }
    FreshSnapshots(s'.base);
    FreshChains(w, s, s');
    FreshHistory(w, s, s');
    FreshRest(w, s');
  }

  lemma FreshSnapshots(base: nat)
    ensures SnapshotsOk(Oracle(base, map[], base, []), map[], {}, base)
  {
    forall v: nat ensures Count(map[], v) == |Holders(map[], v)| {
      assert Holders(map[], v) == {};
    }
  }

  lemma FreshChains(w: World, s: Sys, s': Sys)
    requires ReopenStep(w, s, s')
    requires forall c :: c in s'.colls ==> OrderOk(s'.colls[c])
    ensures AllChains(s'.orc.commitVer, s'.txns, s'.colls, s'.hist)
  {
    forall c | c in s'.colls ensures ChainsOk(s'.orc.commitVer, s'.txns, s'.colls[c], s'.hist(c)) {
      forall k ensures Retains(s'.orc.commitVer, s'.txns, ChainOf(s'.colls[c], k), s'.hist(c)(k)) {
        assert s'.hist(c)(k) == ChainOf(s'.colls[c], k);
      }
    }
  }

  lemma FreshChain(w: World, s: Sys, s': Sys, c: CollId, k: Key)
    requires ReopenStep(w, s, s')
    ensures |s'.hist(c)(k)| <= 1
    ensures s'.hist(c)(k) != [] ==> s'.hist(c)(k)[0].commitVer <= s'.base
  {
    assert s'.hist(c)(k) == if c in s'.colls then ChainOf(s'.colls[c], k) else [];
    if c in s'.colls { assert Rebuilt(w.schemas(c), s.colls[c].durable, s'.colls[c]); }
  }

  lemma FreshHistory(w: World, s: Sys, s': Sys)
    requires ReopenStep(w, s, s')
    ensures HistOk(s'.log, s'.base, None, s'.hist)
  {
    hide Rebuilt;
    forall c, k, v | HasVersion(s'.hist(c)(k), v) ensures Explained(s'.log, s'.base, None, c, k, v) {
      FreshChain(w, s, s', c, k);
    }
    forall c, k ensures NewestFirst(s'.hist(c)(k)) { FreshChain(w, s, s', c, k); }
  }

  lemma FreshRest(w: World, s': Sys)
    requires s'.txns == map[] && s'.scans == map[] && s'.phase == Idle && s'.log == []
    requires forall c :: c in s'.colls ==> Settled(w.schemas(c), s'.colls[c])
    ensures AllTxns(w, s'.txns, s'.colls.Keys, s'.hist) && AllSettled(w, s'.colls, []) && PhaseOk(w, s')
    ensures LogOk(w, s'.log, s'.orc, s'.base) && AllScans(s'.scans, s'.txns, s'.colls.Keys, s'.hist)
  {}

  // ---- runs -----------------------------------------------------------------------

  lemma InitInv(w: World, s: Sys)
    requires Init(s)
    ensures Inv(w, s)
  {
    hide SnapshotsOk, LogOk, AllScans, AllTxns, AllSettled, Settled;
    FreshSnapshots(0);
    forall c | c in s.colls ensures Settled(w.schemas(c), s.colls[c]) { EmptySettled(w.schemas(c), s.colls[c]); }
    FreshRest(w, s);
  }

  lemma EmptySettled(sch: Schema, c: Coll)
    requires c == Coll(map[], [], {}, map[], Durable(map[], {}, {}))
    ensures Settled(sch, c)
  {}

  lemma StepInv(w: World, s: Sys, step: Step, s': Sys)
    requires Inv(w, s) && Next(w, s, step, s')
    ensures Inv(w, s')
  {
    hide Inv, BeginStep, DoWriteStep, EndStep, ApplyStep, PublishStep, FinishStep, ReadWatermarkStep, GcStep;
    hide ScanOpenStep, ScanNextStep, ScanCloseStep, ReopenStep;
    match step
    case Begin(tid) => BeginInv(w, s, tid, s');
    case DoWrite(tid, c, wr) => WriteInv(w, s, tid, c, wr, s');
    case End(tid) => EndInv(w, s, tid, s');
    case Apply(tid, ws, rids) => ApplyInv(w, s, tid, ws, rids, s');
    case Publish => PublishInv(w, s, s');
    case Finish => FinishInv(w, s, s');
    case ReadWatermark => ReadWatermarkInv(w, s, s');
    case Gc(c, wm) => GcInv(w, s, c, wm, s');
    case ScanOpen(tid, c) => ScanOpenInv(w, s, tid, c, s');
    case ScanNext(tid) => ScanNextInv(w, s, tid, s');
    case ScanClose(tid) => ScanCloseInv(w, s, tid, s');
    case Reopen => ReopenInv(w, s, s');
  }

  /** A run: an empty database, then any steps in any order. */
  ghost predicate Run(w: World, states: seq<Sys>, steps: seq<Step>) {
    && |states| == |steps| + 1
    && Init(states[0])
    && (forall i :: 0 <= i < |steps| ==> Next(w, states[i], steps[i], states[i + 1]))
  }

  lemma {:induction false} RunInv(w: World, states: seq<Sys>, steps: seq<Step>, i: nat)
    requires Run(w, states, steps) && i < |states|
    ensures Inv(w, states[i])
  {
    hide Inv, Next, Init;
    if i == 0 {
      InitInv(w, states[0]);
    } else {
      RunInv(w, states, steps, i - 1);
      StepInv(w, states[i - 1], steps[i - 1], states[i]);
    }
  }

  // ---- snapshot reads ---------------------------------------------------------------

  /**
   Whatever ran in between, a live transaction reads its own writes over the complete
   history at its start version; pruning is never noticed.
   */
  lemma SnapshotReads(w: World, states: seq<Sys>, steps: seq<Step>, i: nat, tid: TxnId, c: CollId, k: Key)
    requires Run(w, states, steps) && i < |states|
    requires tid in states[i].txns && c in states[i].colls
    ensures var s, t := states[i], states[i].txns[tid];
            CurrentDoc(s, t, c, k) == Seen(t.Buf(c), s.hist(c), t.startVer)(k)
  {
    hide Init, Next, SnapshotsOk, AllTxns, AllSettled, AllScans, LogOk, HistOk, PhaseOk;
    RunInv(w, states, steps, i);
    var s, t := states[i], states[i].txns[tid];
    ChainIsOk(s.orc.commitVer, s.txns, s.colls, s.hist, c);
    ReadIsSeen(s.orc.commitVer, s.txns, tid, s.colls[c], s.hist(c), t.Buf(c), k);
  }

  /** One step never changes the history at or below a live transaction's snapshot. */
  lemma StepKeepsPast(w: World, s: Sys, step: Step, s': Sys, tid: TxnId, c: CollId, k: Key)
    requires Inv(w, s) && Next(w, s, step, s') && tid in s.txns && tid in s'.txns
    ensures s'.txns[tid].startVer == s.txns[tid].startVer
    ensures VersionAt(s'.hist(c)(k), s.txns[tid].startVer) == VersionAt(s.hist(c)(k), s.txns[tid].startVer)
  {
    hide AllChains, AllTxns, AllSettled, AllScans, LogOk, HistOk, PhaseOk, Published;
    hide ApplyStep, ScanOpenStep, ScanNextStep, Collected, WriteTo;
    match step
    case Publish =>
      StartsBelow(s.orc, s.txns, s.wms, s.base);
      PublishKeepsPast(w, s, s', tid, c, k);
    case Apply(a, ws, rids) => ApplyFrame(w, s, a, ws, rids, s');
    case ScanOpen(t, x) => ScanOpenFrame(w, s, t, x, s');
    case ScanNext(t) => ScanNextFrame(w, s, t, s');
    case _ =>
  }

  lemma PublishKeepsPast(w: World, s: Sys, s': Sys, tid: TxnId, c: CollId, k: Key)
    requires PublishStep(w, s, s') && tid in s.txns && s.txns[tid].startVer <= s.orc.commitVer
    ensures s'.txns == s.txns
    ensures VersionAt(s'.hist(c)(k), s.txns[tid].startVer) == VersionAt(s.hist(c)(k), s.txns[tid].startVer)
  {
    var c0 := s.phase.todo[0];
    PushKeepsSuperseded(s.hist(c0), s.txns[s.phase.tid].Buf(c0), s.orc.commitVer + 1, s.phase.rids(c0),
        s.txns[tid].startVer, k);
  }

  lemma ApplyFrame(w: World, s: Sys, tid: TxnId, ws: WriteSet, rids: CollId -> map<Key, RID>, s': Sys)
    requires ApplyStep(w, s, tid, ws, rids, s')
    ensures s'.txns == s.txns && s'.hist == s.hist
  {}

  lemma ScanOpenFrame(w: World, s: Sys, tid: TxnId, c: CollId, s': Sys)
    requires ScanOpenStep(w, s, tid, c, s')
    ensures s'.txns == s.txns && s'.hist == s.hist
  {}

  lemma ScanNextFrame(w: World, s: Sys, tid: TxnId, s': Sys)
    requires ScanNextStep(w, s, tid, s')
    ensures s'.txns == s.txns && s'.hist == s.hist
  {}

  /** Between two points of a run a transaction stays live, its snapshot never moves. */
  lemma {:induction false} SnapshotFixed(w: World, states: seq<Sys>, steps: seq<Step>, i: nat, j: nat, tid: TxnId,
                                         c: CollId, k: Key)
    requires Run(w, states, steps) && i <= j < |states|
    requires forall x :: i <= x <= j ==> tid in states[x].txns
    ensures states[j].txns[tid].startVer == states[i].txns[tid].startVer
    ensures VersionAt(states[j].hist(c)(k), states[i].txns[tid].startVer)
            == VersionAt(states[i].hist(c)(k), states[i].txns[tid].startVer)
    decreases j
  {
    hide Inv, Next, Init;
    if i < j {
      SnapshotFixed(w, states, steps, i, j - 1, tid, c, k);
      RunInv(w, states, steps, j - 1);
      StepKeepsPast(w, states[j - 1], steps[j - 1], states[j], tid, c, k);
    }
  }

  /**
   Repeatable reads: a key a transaction has not written reads the same at any two moments
   of its life, over any interleaving of commits and garbage collection.
   */
  lemma RepeatableRead(w: World, states: seq<Sys>, steps: seq<Step>, i: nat, j: nat, tid: TxnId, c: CollId, k: Key)
    requires Run(w, states, steps) && i <= j < |states|
    requires forall x :: i <= x <= j ==> tid in states[x].txns
    requires c in states[i].colls && c in states[j].colls
    requires k !in states[i].txns[tid].Buf(c).pending && k !in states[j].txns[tid].Buf(c).pending
    ensures CurrentDoc(states[i], states[i].txns[tid], c, k) == CurrentDoc(states[j], states[j].txns[tid], c, k)
  {
    hide Init, Next;
    SnapshotReads(w, states, steps, i, tid, c, k);
    SnapshotReads(w, states, steps, j, tid, c, k);
    SnapshotFixed(w, states, steps, i, j, tid, c, k);
  }

  // ---- scans ------------------------------------------------------------------------

  lemma {:induction false} ListingExact(keys: seq<Key>, view: Key -> Option<Raw>)
    requires Distinct(keys)
    ensures forall p :: p in Listing(keys, view) <==> p.0 in keys && view(p.0) == Some(p.1)
    ensures forall i, j :: 0 <= i < j < |Listing(keys, view)| ==> Listing(keys, view)[i].0 != Listing(keys, view)[j].0
  {
    if keys != [] {
      var rest, k := keys[..|keys| - 1], keys[|keys| - 1];
      ListingExact(rest, view);
      assert keys == rest + [k];
      assert k !in rest;
      if view(k).Some? {
        assert Listing(keys, view) == Listing(rest, view) + [(k, view(k).value)];
        forall i, j | 0 <= i < j < |Listing(keys, view)| ensures Listing(keys, view)[i].0 != Listing(keys, view)[j].0 {
          assert Listing(rest, view)[i] in Listing(rest, view);
        }
      }
    }
  }

  /** Step `j` opened the scan `sc` over what its transaction had written by then. */
  ghost predicate OpenedAt(states: seq<Sys>, steps: seq<Step>, j: nat, tid: TxnId, sc: Scan) {
    && j < |steps| && j < |states| && steps[j] == ScanOpen(tid, sc.coll)
    && tid in states[j].txns && sc.own == states[j].txns[tid].Buf(sc.coll)
  }

  lemma {:induction false} ScanOrigin(w: World, states: seq<Sys>, steps: seq<Step>, i: nat, tid: TxnId) returns (j: nat)
    requires Run(w, states, steps) && i < |states| && tid in states[i].scans
    ensures j < i && OpenedAt(states, steps, j, tid, states[i].scans[tid])
    ensures forall x :: j < x <= i ==> tid in states[x].scans
  {
    hide Next;
    assert i > 0;
    hide Init;
    ScanStep(w, states[i - 1], steps[i - 1], states[i], tid);
    if tid in states[i - 1].scans && states[i].scans[tid].own == states[i - 1].scans[tid].own
       && states[i].scans[tid].coll == states[i - 1].scans[tid].coll {
      j := ScanOrigin(w, states, steps, i - 1, tid);
    } else {
      j := i - 1;
    }
  }

  lemma ScanStep(w: World, s: Sys, step: Step, s': Sys, tid: TxnId)
    requires Next(w, s, step, s') && tid in s'.scans
    ensures var sc := s'.scans[tid];
            || (tid in s.scans && s.scans[tid].own == sc.own && s.scans[tid].coll == sc.coll)
            || (step == ScanOpen(tid, sc.coll) && tid in s.txns && sc.own == s.txns[tid].Buf(sc.coll))
  {
    hide Acquired, Released, CommittedAt, Conflicts, Covers, Published, Collected, Applied, WriteTo, PushedHist,
        Rebuilt, Placed;
  }

  /**
   A completed scan, however interleaved, returned each document its transaction saw when it opened
   the scan exactly once and nothing else, even when the transaction wrote documents already read.
   */
  lemma ScanExact(w: World, states: seq<Sys>, steps: seq<Step>, i: nat, tid: TxnId)
    requires Run(w, states, steps) && i < |states| && tid in states[i].scans
    requires states[i].scans[tid].pos == |states[i].scans[tid].keys|
    ensures tid in states[i].txns
    ensures exists j: nat :: j < i && OpenedAt(states, steps, j, tid, states[i].scans[tid])
    ensures var s, t, sc := states[i], states[i].txns[tid], states[i].scans[tid];
            && (forall k, d :: (k, d) in sc.out <==> Seen(sc.own, s.hist(sc.coll), t.startVer)(k) == Some(d))
            && (forall x, y :: 0 <= x < y < |sc.out| ==> sc.out[x].0 != sc.out[y].0)
  {
    hide Init, Next, Inv, OpenedAt;
    var j := ScanOrigin(w, states, steps, i, tid);
    RunInv(w, states, steps, i);
    CompleteScan(w, states[i], tid);
  }

  lemma CompleteScan(w: World, s: Sys, tid: TxnId)
    requires Inv(w, s) && tid in s.scans && s.scans[tid].pos == |s.scans[tid].keys|
    ensures tid in s.txns
    ensures var t, sc := s.txns[tid], s.scans[tid];
            && (forall k, d :: (k, d) in sc.out <==> Seen(sc.own, s.hist(sc.coll), t.startVer)(k) == Some(d))
            && (forall x, y :: 0 <= x < y < |sc.out| ==> sc.out[x].0 != sc.out[y].0)
  {
    hide SnapshotsOk, AllChains, AllTxns, AllSettled, LogOk, HistOk, PhaseOk;
    ScanHasTxn(s.scans, s.txns, s.colls.Keys, s.hist, tid);
    hide AllScans;
    var sc := s.scans[tid];
    var view := Seen(sc.own, s.hist(sc.coll), s.txns[tid].startVer);
    assert sc.keys[..sc.pos] == sc.keys;
    ListingExact(sc.keys, view);
    forall k, d ensures (k, d) in sc.out <==> view(k) == Some(d) {
      assert (k, d) in Listing(sc.keys, view) <==> k in sc.keys && view(k) == Some(d);
    }
  }

  // ---- commits ----------------------------------------------------------------------

  /**
   Two committed transactions whose snapshot-to-commit intervals overlap wrote disjoint documents,
   whatever the hash.
   */
  lemma FirstCommitterWins(w: World, states: seq<Sys>, steps: seq<Step>, i: nat, a: nat, b: nat)
    requires Run(w, states, steps) && i < |states| && a < |states[i].log| && b < |states[i].log| && a != b
    requires states[i].log[a].txn.startVer < states[i].log[b].cv && states[i].log[b].txn.startVer < states[i].log[a].cv
    ensures DisjointWrites(states[i].log[a].txn, states[i].log[b].txn)
  {
    hide Init, Next, SnapshotsOk, AllChains, AllTxns, AllSettled, AllScans, HistOk, PhaseOk;
    RunInv(w, states, steps, i);
  }

  /** What a snapshot at `v` reads of this chain is commit `r` or something newer. */
  ghost predicate Reflects(vs: Chain, v: nat, r: CommitRec) {
    VersionAt(vs, v).Some? && VersionAt(vs, v).value.commitVer >= r.cv
  }

  lemma ReflectsIff(vs: Chain, v: nat, r: CommitRec)
    requires NewestFirst(vs) && HasVersion(vs, r.cv)
    ensures Reflects(vs, v, r) <==> r.cv <= v
  {
    var i :| 0 <= i < |vs| && vs[i].commitVer == r.cv;
    if r.cv <= v { assert FirstAt(vs, v) <= i; }
  }

  /** A snapshot reflects all of a committed transaction's writes, in every collection, or none of them. */
  lemma AllOrNothing(w: World, states: seq<Sys>, steps: seq<Step>, i: nat, tid: TxnId, a: nat)
    requires Run(w, states, steps) && i < |states| && tid in states[i].txns && a < |states[i].log|
    ensures var s, r, v := states[i], states[i].log[a], states[i].txns[tid].startVer;
            || (forall c, k :: r.txn.Wrote(c, k) ==> Reflects(s.hist(c)(k), v, r))
            || (forall c, k :: r.txn.Wrote(c, k) ==> !Reflects(s.hist(c)(k), v, r))
  {
    hide Init, Next, SnapshotsOk, AllChains, AllTxns, AllSettled, AllScans, LogOk, PhaseOk;
    RunInv(w, states, steps, i);
    var s, r, v := states[i], states[i].log[a], states[i].txns[tid].startVer;
    forall c, k | r.txn.Wrote(c, k) ensures Reflects(s.hist(c)(k), v, r) <==> r.cv <= v {
      ReflectsIff(s.hist(c)(k), v, r);
    }
  }

  /** No snapshot ever reads a version of a commit still in flight. */
  lemma InFlightInvisible(w: World, states: seq<Sys>, steps: seq<Step>, i: nat, tid: TxnId, c: CollId, k: Key)
    requires Run(w, states, steps) && i < |states| && tid in states[i].txns
    ensures var v := VersionAt(states[i].hist(c)(k), states[i].txns[tid].startVer);
            v.Some? ==> v.value.commitVer <= states[i].orc.commitVer
  {
    hide Init, Next, AllChains, AllTxns, AllSettled, AllScans, LogOk, HistOk, PhaseOk;
    RunInv(w, states, steps, i);
    StartsBelow(states[i].orc, states[i].txns, states[i].wms, states[i].base);
  }

  // ---- durable state and indexes ----------------------------------------------------

  /**
   With no commit in flight, heap, `_id` index, RID ownership and every secondary index are exactly
   the live documents.
   */
  lemma DurableExact(w: World, states: seq<Sys>, steps: seq<Step>, i: nat, c: CollId)
    requires Run(w, states, steps) && i < |states| && states[i].phase.Idle? && c in states[i].colls
    ensures var sch, coll, live := w.schemas(c), states[i].colls[c], Live(states[i].colls[c]);
            && coll.durable.ids == (set k | k in live :: (k, live[k].rid))
            && coll.durable.heap.Keys == (set k | k in live :: live[k].rid)
            && (forall k :: k in live ==> coll.durable.heap[live[k].rid]
                                          == Record(live[k].doc.value, live[k].commitVer))
            && coll.ridOwner.Keys == coll.durable.heap.Keys
            && (forall k :: k in live ==> coll.ridOwner[live[k].rid] == k)
            && (forall e :: e in coll.durable.sec <==>
                  (e.index in sch.indexes && exists k :: k in live && live[k].rid == e.rid
                                                         && e.key in sch.indexKeys(e.index, live[k].doc.value)))
  {
    hide Init, Next, SnapshotsOk, AllChains, AllTxns, AllScans, LogOk, HistOk, PhaseOk, Live;
    RunInv(w, states, steps, i);
    var sch, coll, live := w.schemas(c), states[i].colls[c], Live(states[i].colls[c]);
    assert Settled(sch, coll);
    MirrorsAsSets(sch, coll.durable, live);
    forall e ensures e in coll.durable.sec <==>
      (e.index in sch.indexes && exists k :: k in live && live[k].rid == e.rid
                                             && e.key in sch.indexKeys(e.index, live[k].doc.value))
    {
      if e in coll.durable.sec {
        var k := sch.keyOf(coll.durable.heap[e.rid].doc);
        assert k in live && live[k].rid == e.rid;
      }
    }
  }

  lemma MirrorsAsSets(sch: Schema, d: Durable, live: Heads)
    requires Mirrors(sch, d, live)
    ensures d.ids == (set k | k in live :: (k, live[k].rid))
    ensures d.heap.Keys == (set k | k in live :: live[k].rid)
  {
    forall p | p in d.ids ensures p in (set k | k in live :: (k, live[k].rid)) {
      var (k, r) := p;
      assert (k, r) in d.ids;
    }
  }

  /** No two live documents share a key of a unique index. */
  lemma UniqueHolds(w: World, states: seq<Sys>, steps: seq<Step>, i: nat, c: CollId, n: IndexName, a: Key, b: Key,
                    x: IndexKey)
    requires Run(w, states, steps) && i < |states| && states[i].phase.Idle? && c in states[i].colls
    requires n in w.schemas(c).unique && n in w.schemas(c).indexes
    requires a in Live(states[i].colls[c]) && b in Live(states[i].colls[c])
    requires x in w.schemas(c).indexKeys(n, Live(states[i].colls[c])[a].doc.value)
    requires x in w.schemas(c).indexKeys(n, Live(states[i].colls[c])[b].doc.value)
    ensures a == b
  {
    hide Init, Next, SnapshotsOk, AllChains, AllTxns, AllScans, LogOk, HistOk, PhaseOk;
    RunInv(w, states, steps, i);
    var sch, coll, live := w.schemas(c), states[i].colls[c], Live(states[i].colls[c]);
    assert Settled(sch, coll);
    assert Entry(n, x, live[a].rid) in coll.durable.sec && Entry(n, x, live[b].rid) in coll.durable.sec;
  }

  /** The planner's guard: no effective buffered write, and the snapshot is the latest commit. */
  predicate AllowIndex(s: Sys, t: Txn, c: CollId) {
    !t.Buf(c).HasWrites() && t.startVer == s.orc.commitVer
  }

  /** An index entry resolved through RID ownership, as an index fetch does. */
  function LookupRID(s: Sys, t: Txn, c: CollId, rid: RID): Option<Raw>
    requires c in s.colls
  {
    if rid in s.colls[c].ridOwner then CurrentDoc(s, t, c, s.colls[c].ridOwner[rid]) else None
  }

  /** Under the planner's guard a transaction sees exactly the live heads. */
  lemma LatestView(w: World, s: Sys, tid: TxnId, c: CollId, k: Key)
    requires Inv(w, s) && s.phase.Idle? && tid in s.txns && c in s.colls && AllowIndex(s, s.txns[tid], c)
    ensures CurrentDoc(s, s.txns[tid], c, k) == if k in Live(s.colls[c]) then Live(s.colls[c])[k].doc else None
  {
    hide AllChains, AllTxns, AllSettled, AllScans, LogOk, HistOk, PhaseOk, SnapshotsOk;
    var t, vs := s.txns[tid], ChainOf(s.colls[c], k);
    StartsBelow(s.orc, s.txns, s.wms, s.base);
    TxnIsOk(w, s.txns, s.colls.Keys, s.hist, tid, c);
    ChainIsOk(s.orc.commitVer, s.txns, s.colls, s.hist, c);
    VersionsBelow(w, s.log, s.orc, s.base, None, s.hist, c);
    assert Retains(s.orc.commitVer, s.txns, vs, s.hist(c)(k));
    assert Needed(s.orc.commitVer, s.txns, s.orc.commitVer);
    if vs != [] { assert HasVersion(s.hist(c)(k), vs[0].commitVer); }
  }

  /** Resolving every entry of an index gives the documents a scan would, as far as they have index keys. */
  lemma IndexFetchExact(w: World, states: seq<Sys>, steps: seq<Step>, i: nat, tid: TxnId, c: CollId, n: IndexName)
    requires Run(w, states, steps) && i < |states| && states[i].phase.Idle?
    requires tid in states[i].txns && c in states[i].colls && AllowIndex(states[i], states[i].txns[tid], c)
    requires n in w.schemas(c).indexes
    ensures var s, t := states[i], states[i].txns[tid];
            forall d :: (exists e :: e in s.colls[c].durable.sec && e.index == n
                                     && LookupRID(s, t, c, e.rid) == Some(d))
                        <==> (exists k :: CurrentDoc(s, t, c, k) == Some(d) && w.schemas(c).indexKeys(n, d) != [])
  {
    hide Init, Next, SnapshotsOk, AllChains, AllTxns, AllScans, LogOk, HistOk, PhaseOk;
    RunInv(w, states, steps, i);
    var s, t, sch, coll := states[i], states[i].txns[tid], w.schemas(c), states[i].colls[c];
    assert Settled(sch, coll);
    forall k ensures CurrentDoc(s, t, c, k) == if k in Live(coll) then Live(coll)[k].doc else None {
      LatestView(w, s, tid, c, k);
    }
    FetchExact(sch, coll, n, k => CurrentDoc(s, t, c, k));
  }

  lemma FetchExact(sch: Schema, coll: Coll, n: IndexName, view: Key -> Option<Raw>)
    requires Settled(sch, coll) && n in sch.indexes
    requires forall k :: view(k) == if k in Live(coll) then Live(coll)[k].doc else None
    ensures forall d :: (exists e :: e in coll.durable.sec && e.index == n && e.rid in coll.ridOwner
                                     && view(coll.ridOwner[e.rid]) == Some(d))
                        <==> (exists k :: view(k) == Some(d) && sch.indexKeys(n, d) != [])
  {
    var live := Live(coll);
    forall d | exists k :: view(k) == Some(d) && sch.indexKeys(n, d) != []
      ensures exists e :: e in coll.durable.sec && e.index == n && e.rid in coll.ridOwner
                          && view(coll.ridOwner[e.rid]) == Some(d)
    {
      var k :| view(k) == Some(d) && sch.indexKeys(n, d) != [];
      var e := Entry(n, sch.indexKeys(n, d)[0], live[k].rid);
      assert e in coll.durable.sec;
      assert coll.ridOwner[e.rid] == k;
    }
    forall e, d | e in coll.durable.sec && e.index == n && e.rid in coll.ridOwner
        && view(coll.ridOwner[e.rid]) == Some(d)
      ensures sch.indexKeys(n, d) != []
    {
      assert coll.durable.heap[e.rid].doc == d;
    }
  }

  // ---- when a commit goes through -----------------------------------------------------

  /** A conflict-free transaction's operations fit the heads, and the durable state mirrors them. */
  lemma CommitFits(w: World, s: Sys, tid: TxnId, ws: WriteSet, c: CollId)
    requires Inv(w, s) && s.phase.Idle? && tid in s.txns && c in s.txns[tid].parts && c in s.colls
    requires Covers(w, s.txns[tid], ws) && !Conflicts(s.orc, s.txns[tid].startVer, ws)
    ensures AllFit(w.schemas(c), s.txns[tid].Buf(c).pending, s.txns[tid].Buf(c).order, Live(s.colls[c]))
    ensures Mirrors(w.schemas(c), s.colls[c].durable, Live(s.colls[c]))
            && UniqueKeys(w.schemas(c), s.colls[c].durable.sec)
  {
    hide SnapshotsOk, AllChains, AllTxns, AllSettled, AllScans, LogOk, HistOk, PhaseOk, ChainsOk, TxnOk, BufferOk,
        Covers, Conflicts, Wins;
    hide Mirrors, UniqueKeys, AllFit, Owns, Live;
    var t := s.txns[tid];
    StartsBelow(s.orc, s.txns, s.wms, s.base);
    SnapshotIsLive(s.orc, s.txns, s.wms, s.base, tid);
    NoConflictWins(w, s.log, s.orc, s.base, t, ws);
    TxnIsOk(w, s.txns, s.colls.Keys, s.hist, tid, c);
    ChainIsOk(s.orc.commitVer, s.txns, s.colls, s.hist, c);
    IsSettled(w, s.colls, [], c);
    WinnerFits(w, s, t, c);
  }

  /** Every insert has a free slot waiting, and the pre-check passed. */
  ghost predicate Prepared(w: World, s: Sys, t: Txn, c: CollId, rids: map<Key, RID>)
    requires c in s.colls
  {
    var b, d := t.Buf(c), s.colls[c].durable;
    && (forall k :: k in b.order ==> k in b.pending && k in rids)
    && FreshSlots(d.heap.Keys, b.pending, b.order, rids) && UniqueCheck(w.schemas(c), d.sec, b.pending, b.order)
  }

  /**
   In any reachable quiet state, a commit without a conflict whose pre-check passed applies to a
   collection exactly when it takes no unique key before the operation that gives it up.
   */
  lemma CommitApplies(w: World, states: seq<Sys>, steps: seq<Step>, i: nat, tid: TxnId, ws: WriteSet,
                      rids: CollId -> map<Key, RID>, c: CollId)
    requires Run(w, states, steps) && i < |states| && states[i].phase.Idle? && tid in states[i].txns
    requires c in states[i].txns[tid].parts && c in states[i].colls
    requires Covers(w, states[i].txns[tid], ws) && !Conflicts(states[i].orc, states[i].txns[tid].startVer, ws)
    requires Prepared(w, states[i], states[i].txns[tid], c, rids(c))
    ensures var s, t := states[i], states[i].txns[tid];
            Applied(w, c, s.colls[c], t, s.orc.commitVer + 1, rids).Some?
            <==> !TakenBeforeFreed(w.schemas(c), t.Buf(c).pending, t.Buf(c).order)
  {
    hide Run, Inv, Mirrors, UniqueKeys, AllFit, FreshSlots, UniqueCheck, TakenBeforeFreed, ApplyAll, Live, Covers,
        Conflicts;
    RunInv(w, states, steps, i);
    var s, t := states[i], states[i].txns[tid];
    CommitFits(w, s, tid, ws, c);
    AppliesIff(w.schemas(c), s.colls[c].durable, Live(s.colls[c]), s.orc.commitVer + 1, t.Buf(c).pending,
        t.Buf(c).order, rids(c));
  }
}
