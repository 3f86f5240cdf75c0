/** What the stages of a pipeline do to their input, document by document. */
module PipelineMeaning {
  import opened Common
  import B = Bson
  import opened Sorting
  import opened Pipeline
  import opened ReshapeMerging

  // ---- sort ------------------------------------------------------------------------------------

  /** The value a document sorts by under a key: null when it has none. */
  function SortsBy(k: SortKey, d: Doc): B.Value { if k.value(d).Missing? then B.Null else k.value(d) }

  /**
   The documents tie under the first `i` keys, and key `i` puts `a` first: its lesser value, or
   greater when descending.
   */
  ghost predicate FirstBy(keys: seq<SortKey>, a: Doc, b: Doc, i: nat)
    requires i < |keys|
  {
    && (forall j :: 0 <= j < i ==> B.Compare(SortsBy(keys[j], a), SortsBy(keys[j], b)) == 0)
    && (if keys[i].dir == 1 then B.Compare(SortsBy(keys[i], a), SortsBy(keys[i], b)) < 0
        else B.Compare(SortsBy(keys[i], a), SortsBy(keys[i], b)) > 0)
  }

  ghost predicate SortsFirst(keys: seq<SortKey>, a: Doc, b: Doc) {
    exists i :: 0 <= i < |keys| && FirstBy(keys, a, b, i)
  }

  lemma {:induction false} KeysDecide(keys: seq<SortKey>, a: Doc, b: Doc)
    ensures CompareDocs(keys, a, b) < 0 <==> SortsFirst(keys, a, b)
    decreases |keys|
  {
    hide B.Compare;
    if keys != [] {
      var rest := keys[1..];
      KeysDecide(rest, a, b);
      assert KeyValue(keys[0], a) == SortsBy(keys[0], a) && KeyValue(keys[0], b) == SortsBy(keys[0], b);
      if CompareDocs(keys, a, b) < 0 {
        if B.Compare(SortsBy(keys[0], a), SortsBy(keys[0], b)) != 0 {
          assert FirstBy(keys, a, b, 0);
        } else {
          var i :| 0 <= i < |rest| && FirstBy(rest, a, b, i);
          forall j | 0 <= j < i + 1 ensures B.Compare(SortsBy(keys[j], a), SortsBy(keys[j], b)) == 0 {
            if j > 0 { assert keys[j] == rest[j - 1]; }
          }
          assert FirstBy(keys, a, b, i + 1);
        }
      }
      if SortsFirst(keys, a, b) {
        var i :| 0 <= i < |keys| && FirstBy(keys, a, b, i);
        if i > 0 {
          forall j | 0 <= j < i - 1 ensures B.Compare(SortsBy(rest[j], a), SortsBy(rest[j], b)) == 0 {
            assert rest[j] == keys[j + 1];
          }
          assert rest[i - 1] == keys[i];
          assert FirstBy(rest, a, b, i - 1);
        }
      }
    }
  }

  /** Documents are ordered by the first key that tells them apart, reversed for a descending one. */
  lemma FirstKeyDecides(keys: seq<SortKey>, a: Doc, b: Doc)
    ensures CompareDocs(keys, a, b) < 0 <==> SortsFirst(keys, a, b)
    ensures CompareDocs(keys, a, b) > 0 <==> SortsFirst(keys, b, a)
    ensures CompareDocs(keys, a, b) == 0 <==>
            forall i :: 0 <= i < |keys| ==> B.Compare(SortsBy(keys[i], a), SortsBy(keys[i], b)) == 0
  {
    hide B.Compare, CompareDocs, SortsFirst;
    KeysDecide(keys, a, b);
    KeysDecide(keys, b, a);
    DocsFlip(keys, a, b);
    TiesOnEveryKey(keys, a, b);
    forall i | 0 <= i < |keys| ensures KeyValue(keys[i], a) == SortsBy(keys[i], a)
        && KeyValue(keys[i], b) == SortsBy(keys[i], b) {}
  }

  // ---- match -----------------------------------------------------------------------------------

  /** A match holds when every entry does. */
  lemma {:induction false} EveryClauseHolds(cs: seq<Clause>, d: Doc)
    ensures Holds(cs, d) <==> forall i :: 0 <= i < |cs| ==> ClauseHolds(cs[i], d)
    decreases |cs|
  {
    hide ClauseHolds;
    if cs != [] {
      EveryClauseHolds(cs[1..], d);
      forall i | 0 < i < |cs| ensures cs[i] == cs[1..][i - 1] {}
    }
  }

  /** All, some, or none of the alternatives hold in all their entries; a test looks at its field's root. */
  lemma CombinationsMean(key: Name, holds: B.Value -> bool, subs: seq<Filter>, d: Doc)
    ensures ClauseHolds(Test(key, holds), d) <==> holds(FieldOf(d, FieldRoot(key)))
    ensures ClauseHolds(And(subs), d) <==>
            forall i, j :: 0 <= i < |subs| && 0 <= j < |subs[i].clauses| ==> ClauseHolds(subs[i].clauses[j], d)
    ensures ClauseHolds(Or(subs), d) <==>
            exists i :: 0 <= i < |subs| && AllHold(subs[i].clauses, d)
    ensures ClauseHolds(Nor(subs), d) <==> !ClauseHolds(Or(subs), d)
  {
    forall i | 0 <= i < |subs| ensures Holds(subs[i].clauses, d) <==> AllHold(subs[i].clauses, d) {
      EveryClauseHolds(subs[i].clauses, d);
    }
  }

  predicate AllHold(cs: seq<Clause>, d: Doc) {
    forall j :: 0 <= j < |cs| ==> ClauseHolds(cs[j], d)
  }

  ghost predicate Increasing(idx: seq<nat>, n: nat) {
    && (forall x :: 0 <= x < |idx| ==> idx[x] < n)
    && (forall x, y :: 0 <= x < y < |idx| ==> idx[x] < idx[y])
  }

  function Shifted(idx: seq<nat>): seq<nat> { seq(|idx|, x requires 0 <= x < |idx| => idx[x] + 1) }

  /** Positions one further on. */
  lemma ShiftedHas(idx: seq<nat>, i: nat)
    ensures i in Shifted(idx) <==> i > 0 && i - 1 in idx
  {
    var later := Shifted(idx);
    if i in later { var x :| 0 <= x < |later| && later[x] == i; assert idx[x] in idx; }
    if i > 0 && i - 1 in idx { var x :| 0 <= x < |idx| && idx[x] == i - 1; assert later[x] in later; }
  }

  /** The positions of the documents that satisfy a match. */
  ghost function Kept(cs: seq<Clause>, ds: seq<Doc>): seq<nat> {
    if ds == [] then [] else (if AllHold(cs, ds[0]) then [0] else []) + Shifted(Kept(cs, ds[1..]))
  }

  lemma {:induction false} KeptAre(cs: seq<Clause>, ds: seq<Doc>, i: nat)
    ensures i in Kept(cs, ds) <==> i < |ds| && AllHold(cs, ds[i])
    decreases |ds|
  {
    hide AllHold, Shifted;
    if ds != [] {
      ShiftedHas(Kept(cs, ds[1..]), i);
      if i > 0 { KeptAre(cs, ds[1..], i - 1); }
    }
  }

  lemma {:induction false} KeptIncrease(cs: seq<Clause>, ds: seq<Doc>)
    ensures Increasing(Kept(cs, ds), |ds|)
    decreases |ds|
  {
    hide AllHold;
    if ds != [] { KeptIncrease(cs, ds[1..]); }
  }

  lemma {:induction false} KeptGive(cs: seq<Clause>, ds: seq<Doc>)
    ensures |Filtered(cs, ds)| == |Kept(cs, ds)| && Increasing(Kept(cs, ds), |ds|)
    ensures forall x :: 0 <= x < |Kept(cs, ds)| ==> Filtered(cs, ds)[x] == ds[Kept(cs, ds)[x]]
    decreases |ds|
  {
    hide AllHold, Holds;
    KeptIncrease(cs, ds);
    if ds != [] {
      KeptGive(cs, ds[1..]);
      HoldsIs(cs, ds[0]);
      var rest := Kept(cs, ds[1..]);
      forall x | 0 <= x < |rest| ensures Filtered(cs, ds[1..])[x] == ds[Shifted(rest)[x]] {
        assert ds[1..][rest[x]] == ds[rest[x] + 1];
      }
    }
  }

  /** `$match` keeps exactly the documents that satisfy it, in their order. */
  lemma MatchKeeps(cs: seq<Clause>, ds: seq<Doc>) returns (out: seq<Doc>, idx: seq<nat>)
    ensures RunStage(Match(cs), ds) == Some(out)
    ensures Increasing(idx, |ds|) && |out| == |idx|
    ensures forall x :: 0 <= x < |idx| ==> out[x] == ds[idx[x]]
    ensures forall i: nat :: i in idx <==> i < |ds| && AllHold(cs, ds[i])
  {
    hide AllHold, Filtered, Kept;
    out, idx := Filtered(cs, ds), Kept(cs, ds);
    KeptGive(cs, ds);
    forall i: nat ensures i in idx <==> i < |ds| && AllHold(cs, ds[i]) { KeptAre(cs, ds, i); }
  }

  lemma HoldsIs(cs: seq<Clause>, d: Doc)
    ensures Holds(cs, d) <==> AllHold(cs, d)
  {
    EveryClauseHolds(cs, d);
  }

  // ---- reshape and limit -----------------------------------------------------------------------------

  lemma {:induction false} ExtendedEach(fields: seq<FieldExpr>, ds: seq<Doc>)
    ensures |Extended(fields, ds)| == |ds|
    ensures forall i :: 0 <= i < |ds| ==> Extended(fields, ds)[i] == SetFields(fields, ds[i], ds[i])
    decreases |ds|
  {
    hide SetFields;
    if ds != [] {
      ExtendedEach(fields, ds[1..]);
      forall i | 0 < i < |ds| ensures ds[i] == ds[1..][i - 1] {}
    }
  }

  /** `$addFields` gives one document for each, all expressions reading the one that came in. */
  lemma ReshapeEach(fields: seq<FieldExpr>, ds: seq<Doc>) returns (out: seq<Doc>)
    ensures RunStage(AddFields(fields), ds) == Some(out) && |out| == |ds|
    ensures forall i :: 0 <= i < |ds| ==> out[i] == SetFields(fields, ds[i], ds[i])
  {
    hide SetFields, Extended;
    out := Extended(fields, ds);
    ExtendedEach(fields, ds);
  }

  /** Each field of a reshape ends up at its path, and what no path meets stays. */
  lemma ReshapeSets(fields: seq<FieldExpr>, d: Doc, i: nat, p: seq<Name>)
    requires Gives(fields, d) && Apart(fields) && i < |fields| && p != []
    ensures SplitPath(fields[i].key) != []
    ensures ValueAt(SetFields(fields, d, d), SplitPath(fields[i].key)) == fields[i].eval(d)
    ensures (forall j :: 0 <= j < |fields| ==> !Meet(p, SplitPath(fields[j].key))) ==>
              ValueAt(SetFields(fields, d, d), p) == ValueAt(d, p)
  {
    hide SetFields, ValueAt, Gives, Apart, SplitPath;
    Lands(fields, d, d, i);
    if forall j :: 0 <= j < |fields| ==> !Meet(p, SplitPath(fields[j].key)) { Untouched(fields, d, d, p); }
  }

  lemma {:induction false} RebuildRemoves(d: Doc, f: Name)
    ensures FieldOf(Rebuild(d, [f], B.Missing), f) == B.Missing
    decreases |d|
  {
    if d != [] {
      RebuildRemoves(d[1..], f);
      var tail := Rebuild(d[1..], [f], B.Missing);
      assert [] + tail == tail;
      if d[0].key != f { assert ([d[0]] + tail)[1..] == tail; }
    }
  }

  /** An expression that gives no value removes the field. */
  lemma MissingRemoves(d: Doc, f: Name)
    ensures FieldOf(DocWith(d, [f], B.Missing), f) == B.Missing
  {
    hide Rebuild, FieldOf;
    RebuildRemoves(d, f);
  }

  /** `$limit` gives the first documents, all of them when there are fewer; a negative limit is an error. */
  lemma LimitKeeps(ds: seq<Doc>, n: int)
    ensures RunStage(Limit(Some(n)), ds) == if n < 0 then None else Some(if n < |ds| then ds[..n] else ds)
  {}

  /** `$sort` arranges its input so that no document comes before one that sorts first. */
  lemma SortArranges(keys: seq<SortKey>, ds: seq<Doc>) returns (out: seq<Doc>)
    ensures RunStage(Sort(Some(keys)), ds) == Some(out) && multiset(out) == multiset(ds)
    ensures forall i, j :: 0 <= i < j < |out| ==> !SortsFirst(keys, out[j], out[i])
  {
    hide StableSort, CompareDocs, SortsFirst;
    out := StableSort(DocOrder(keys), ds);
    DocOrderIsPreorder(keys);
    StableSortSorts(DocOrder(keys), ds);
    forall i, j | 0 <= i < j < |out| ensures !SortsFirst(keys, out[j], out[i]) {
      FirstKeyDecides(keys, out[j], out[i]);
      DocsFlip(keys, out[j], out[i]);
    }
  }
}
