/**
 When two reshapes may be merged: for every choice of expressions exactly when the second stage
 reads no root the first writes.
 */
module ReshapeMerging {
  import opened Common
  import B = Bson
  import opened Pipeline

  // ---- the value at a path -----------------------------------------------------------------

  function ValueAt(d: Doc, path: seq<Name>): B.Value
    requires path != []
    decreases |path|
  {
    var v := FieldOf(d, path[0]);
    if |path| == 1 then v else if v.Document? then ValueAt(v.elems, path[1..]) else B.Missing
  }

  /** One path leads through the other, so setting one changes what is at the other. */
  predicate Meet(p: seq<Name>, q: seq<Name>) { p <= q || q <= p }

  function Below(v: B.Value): Doc { if v.Document? then v.elems else [] }

  lemma {:induction false} FieldOfLast(d: Doc, e: B.Elem)
    requires !HasKey(d, e.key)
    ensures FieldOf(d + [e], e.key) == e.value && FieldOf(d, e.key) == B.Missing
    decreases |d|
  {
    if d == [] {
      assert d + [e] == [e];
    } else {
      assert d[0].key != e.key;
      assert !HasKey(d[1..], e.key) by { assert forall i :: 0 <= i < |d[1..]| ==> d[1..][i] == d[i + 1]; }
      assert (d + [e])[1..] == d[1..] + [e];
      FieldOfLast(d[1..], e);
    }
  }

  lemma {:induction false} RebuildRoot(d: Doc, path: seq<Name>, val: B.Value)
    requires path != [] && !val.Missing? && HasKey(d, path[0])
    ensures FieldOf(Rebuild(d, path, val), path[0]) ==
            if |path| == 1 then val else B.Document(DocWith(Below(FieldOf(d, path[0])), path[1..], val))
    decreases |d|
  {
    hide DocWith;
    var i :| 0 <= i < |d| && d[i].key == path[0];
    if d[0].key != path[0] {
      assert d[1..][i - 1].key == path[0];
      RebuildRoot(d[1..], path, val);
      assert ([d[0]] + Rebuild(d[1..], path, val))[1..] == Rebuild(d[1..], path, val);
    }
  }

  /** What setting a path leaves under its root. */
  lemma DocWithRoot(d: Doc, path: seq<Name>, val: B.Value)
    requires path != [] && !val.Missing?
    ensures FieldOf(DocWith(d, path, val), path[0]) ==
            if |path| == 1 then val else B.Document(DocWith(Below(FieldOf(d, path[0])), path[1..], val))
  {
    hide FieldOf, Rebuild;
    if HasKey(d, path[0]) {
      RebuildRoot(d, path, val);
    } else {
      RebuildAbsent(d, path, val);
      FieldOfLast(d, B.Elem(path[0], if |path| == 1 then val else B.Document(DocWith([], path[1..], val))));
    }
  }

  lemma {:induction false} SetPath(d: Doc, path: seq<Name>, val: B.Value)
    requires path != [] && !val.Missing?
    ensures ValueAt(DocWith(d, path, val), path) == val
    decreases |path|
  {
    hide DocWith, FieldOf;
    DocWithRoot(d, path, val);
    if |path| > 1 { SetPath(Below(FieldOf(d, path[0])), path[1..], val); }
  }

  lemma {:induction false} NothingAt(path: seq<Name>)
    requires path != []
    ensures ValueAt([], path) == B.Missing
  {}

  /** Setting a path leaves the value at every path it does not meet. */
  lemma {:induction false} OtherPath(d: Doc, q: seq<Name>, val: B.Value, p: seq<Name>)
    requires p != [] && q != [] && !val.Missing? && !Meet(p, q)
    ensures ValueAt(DocWith(d, q, val), p) == ValueAt(d, p)
    decreases |q|
  {
    hide DocWith, FieldOf;
    if p[0] != q[0] {
      DocWithKeepsOthers(d, q, val, p[0]);
    } else {
      DocWithRoot(d, q, val);
      assert p == [p[0]] + p[1..] && q == [q[0]] + q[1..];
      assert |p| > 1 && |q| > 1;
      OtherPath(Below(FieldOf(d, q[0])), q[1..], val, p[1..]);
      NothingAt(p[1..]);
    }
  }

  // ---- what a list of fields leaves ----------------------------------------------------------

  /** Every field has a path, and gives a value. */
  ghost predicate Gives(fields: seq<FieldExpr>, ctx: Doc) {
    forall i :: 0 <= i < |fields| ==> fields[i].key != [] && !fields[i].eval(ctx).Missing?
  }

  lemma TailGives(fields: seq<FieldExpr>, ctx: Doc)
    requires Gives(fields, ctx) && fields != []
    ensures Gives(fields[1..], ctx) && SplitPath(fields[0].key) != []
    ensures SplitPath(fields[0].key)[0] == FieldRoot(fields[0].key)
  {}

  /** A written root is there afterwards. */
  lemma {:induction false} RootGiven(fields: seq<FieldExpr>, ctx: Doc, d: Doc, r: Name)
    requires Gives(fields, ctx) && (r in Writes(fields) || FieldOf(d, r) != B.Missing)
    ensures FieldOf(SetFields(fields, ctx, d), r) != B.Missing
    decreases |fields|
  {
    hide DocWith, FieldOf, SplitPath, Gives, Writes, FieldRoot;
    if fields == [] {
      assert Writes(fields) == {} by { NoWrites(); }
    } else {
      TailGives(fields, ctx);
      WritesTail(fields);
      var path, val := SplitPath(fields[0].key), fields[0].eval(ctx);
      assert !val.Missing? by { assert Gives(fields, ctx); GivesAt(fields, ctx, 0); }
      if path[0] == r { DocWithRoot(d, path, val); } else { DocWithKeepsOthers(d, path, val, r); }
      RootGiven(fields[1..], ctx, DocWith(d, path, val), r);
    }
  }

  lemma NoWrites()
    ensures Writes([]) == {}
  {}

  lemma GivesAt(fields: seq<FieldExpr>, ctx: Doc, i: nat)
    requires Gives(fields, ctx) && i < |fields|
    ensures fields[i].key != [] && !fields[i].eval(ctx).Missing?
  {}

  /** Every field has a path. */
  ghost predicate Placed(fields: seq<FieldExpr>) {
    forall i :: 0 <= i < |fields| ==> fields[i].key != []
  }

  /** No two paths set meet. */
  ghost predicate Apart(fields: seq<FieldExpr>) {
    forall i, j :: 0 <= i < j < |fields| ==> !Meet(SplitPath(fields[i].key), SplitPath(fields[j].key))
  }

  lemma {:induction false} Untouched(fields: seq<FieldExpr>, ctx: Doc, d: Doc, p: seq<Name>)
    requires Gives(fields, ctx) && p != [] && forall j :: 0 <= j < |fields| ==> !Meet(p, SplitPath(fields[j].key))
    ensures ValueAt(SetFields(fields, ctx, d), p) == ValueAt(d, p)
    decreases |fields|
  {
    hide DocWith, SplitPath, Gives, ValueAt, Meet;
    if fields != [] {
      TailGives(fields, ctx);
      GivesAt(fields, ctx, 0);
      var path, val := SplitPath(fields[0].key), fields[0].eval(ctx);
      OtherPath(d, path, val, p);
      forall j | 0 <= j < |fields[1..]| ensures !Meet(p, SplitPath(fields[1..][j].key)) {
        assert fields[1..][j] == fields[j + 1];
      }
      Untouched(fields[1..], ctx, DocWith(d, path, val), p);
    }
  }

  /** Each field's value ends up at its path. */
  lemma {:induction false} Lands(fields: seq<FieldExpr>, ctx: Doc, d: Doc, i: nat)
    requires Gives(fields, ctx) && Apart(fields) && i < |fields|
    ensures SplitPath(fields[i].key) != []
    ensures ValueAt(SetFields(fields, ctx, d), SplitPath(fields[i].key)) == fields[i].eval(ctx)
    decreases i
  {
    hide DocWith, SplitPath, Gives, ValueAt, Meet;
    TailGives(fields, ctx);
    GivesAt(fields, ctx, 0);
    var path, val, rest := SplitPath(fields[0].key), fields[0].eval(ctx), fields[1..];
    var d' := DocWith(d, path, val);
    if i == 0 {
      SetPath(d, path, val);
      forall j | 0 <= j < |rest| ensures !Meet(path, SplitPath(rest[j].key)) { assert rest[j] == fields[j + 1]; }
      Untouched(rest, ctx, d', path);
    } else {
      forall j, k | 0 <= j < k < |rest| ensures !Meet(SplitPath(rest[j].key), SplitPath(rest[k].key)) {
        assert rest[j] == fields[j + 1] && rest[k] == fields[k + 1];
      }
      Lands(rest, ctx, d', i - 1);
    }
  }

  // ---- the exact condition ---------------------------------------------------------------------

  /** The same fields reading the same roots, whatever they compute from them. */
  ghost predicate SameShape(f: seq<FieldExpr>, g: seq<FieldExpr>) {
    |f| == |g| && forall i :: 0 <= i < |f| ==> f[i].key == g[i].key && f[i].roots == g[i].roots
  }

  /** Expressions that give 1 whatever they see. */
  function Ones(fields: seq<FieldExpr>): seq<FieldExpr> {
    seq(|fields|, i requires 0 <= i < |fields| => FieldExpr(fields[i].key, fields[i].roots, (d: Doc) => B.Int32(1)))
  }

  /** Expressions that tell whether root `r` is there, if they may read it. */
  function Tellers(fields: seq<FieldExpr>, r: Name): seq<FieldExpr> {
    seq(|fields|, i requires 0 <= i < |fields| => FieldExpr(fields[i].key, fields[i].roots,
      if r in fields[i].roots then (d: Doc) => B.Boolean(FieldOf(d, r) != B.Missing) else (d: Doc) => B.Int32(1)))
  }

  lemma TellersHonest(fields: seq<FieldExpr>, r: Name)
    ensures AllHonest(Tellers(fields, r)) && AllHonest(Ones(fields))
  {
    hide FieldOf;
    var ts := Tellers(fields, r);
    forall i | 0 <= i < |ts| ensures Honest(ts[i]) {
      forall d, e | Agree(d, e, ts[i].roots) ensures ts[i].eval(d) == ts[i].eval(e) {}
    }
  }

  lemma SameReads(f: seq<FieldExpr>, g: seq<FieldExpr>)
    requires SameShape(f, g)
    ensures Reads(f) == Reads(g) && Writes(f) == Writes(g)
  {
    hide FieldRoot;
    forall x ensures x in Writes(f) <==> x in Writes(g) {
      if x in Writes(f) { var i :| 0 <= i < |f| && FieldRoot(f[i].key) == x; assert FieldRoot(g[i].key) == x; }
      if x in Writes(g) { var i :| 0 <= i < |g| && FieldRoot(g[i].key) == x; assert FieldRoot(f[i].key) == x; }
    }
    forall x ensures x in Reads(f) <==> x in Reads(g) {
      if x in Reads(f) { var i :| 0 <= i < |f| && x in f[i].roots; assert x in g[i].roots; }
      if x in Reads(g) { var i :| 0 <= i < |g| && x in g[i].roots; assert x in f[i].roots; }
    }
  }

  /** Merging keeps the meaning whatever the expressions compute. */
  ghost predicate AlwaysMerges(a: seq<FieldExpr>, b: seq<FieldExpr>) {
    forall f, g :: SameShape(f, a) && SameShape(g, b) && AllHonest(f) && AllHonest(g) ==>
      SameMeaning([AddFields(f), AddFields(g)], Replacement(MergeReshapes, AddFields(f), AddFields(g)))
  }

  /** On the empty document the tellers see the first stage's root only when run as a second stage. */
  lemma TellersDiffer(a: seq<FieldExpr>, b: seq<FieldExpr>, i: nat, r: Name)
    requires Placed(a) && Placed(b) && Apart(b) && i < |b| && r in b[i].roots && r in Writes(a)
    ensures var f, g := Ones(a), Tellers(b, r);
            Run([AddFields(f), AddFields(g)], [[]]) != Run([AddFields(f + g)], [[]])
  {
    hide SetFields, Extended, Run, Writes, SplitPath, FieldOf, ValueAt, Meet;
    var f, g := Ones(a), Tellers(b, r);
    var none: Doc := [];
    var mid := SetFields(f, none, none);
    RunPair(AddFields(f), AddFields(g), [none]);
    RunPair(AddFields(f + g), AddFields(f + g), [none]);
    ExtendOne(f, none);
    ExtendOne(g, mid);
    ExtendOne(f + g, none);
    SetFieldsJoin(f, g, none, none);
    SameReads(f, a);
    RootGiven(f, none, none, r);
    assert Apart(g);
    Lands(g, mid, mid, i);
    Lands(g, none, mid, i);
    assert FieldOf(none, r) == B.Missing by { Empty(r); }
    assert SetFields(g, mid, mid) != SetFields(g, none, mid);
  }

  lemma Empty(r: Name)
    ensures FieldOf([], r) == B.Missing
  {}

  lemma ClearMerges(a: seq<FieldExpr>, b: seq<FieldExpr>)
    requires Reads(b) !! Writes(a)
    ensures AlwaysMerges(a, b)
  {
    hide SameMeaning, Writes, Reads, AllHonest;
    forall f, g | SameShape(f, a) && SameShape(g, b) && AllHonest(f) && AllHonest(g)
      ensures SameMeaning([AddFields(f), AddFields(g)], Replacement(MergeReshapes, AddFields(f), AddFields(g)))
    {
      hide SameShape;
      SameReads(f, a);
      SameReads(g, b);
      ReshapesMerge(AddFields(f), AddFields(g));
    }
  }

  lemma UnclearFails(a: seq<FieldExpr>, b: seq<FieldExpr>, i: nat, r: Name)
    requires Placed(a) && Placed(b) && Apart(b) && i < |b| && r in b[i].roots && r in Writes(a)
    ensures !AlwaysMerges(a, b)
  {
    hide SameMeaning, Writes, Apart, AllHonest, Run, Placed;
    var f, g := Ones(a), Tellers(b, r);
    TellersHonest(a, r);
    TellersHonest(b, r);
    TellersDiffer(a, b, i, r);
    assert Replacement(MergeReshapes, AddFields(f), AddFields(g)) == [AddFields(f + g)];
    Differ([AddFields(f), AddFields(g)], [AddFields(f + g)], [[]]);
    assert SameShape(f, a) && SameShape(g, b);
  }

  /**
   Two reshapes can be merged whatever they compute exactly when the second reads no root the
   first writes. (Fields without a path are not set at all, and of fields whose paths meet the
   last wins: there the condition is sufficient.)
   */
  lemma ReshapesMergeIff(a: seq<FieldExpr>, b: seq<FieldExpr>)
    ensures Reads(b) !! Writes(a) ==> AlwaysMerges(a, b)
    ensures Placed(a) && Placed(b) && Apart(b) ==> (AlwaysMerges(a, b) <==> Reads(b) !! Writes(a))
  {
    hide AlwaysMerges, Writes, Apart, Placed;
    if Reads(b) !! Writes(a) {
      ClearMerges(a, b);
    } else if Placed(a) && Placed(b) && Apart(b) {
      var r :| r in Reads(b) && r in Writes(a);
      var i :| 0 <= i < |b| && r in b[i].roots;
      UnclearFails(a, b, i, r);
    }
  }

  lemma Differ(s: seq<Stage>, t: seq<Stage>, ds: seq<Doc>)
    requires Run(s, ds) != Run(t, ds)
    ensures !SameMeaning(s, t)
  {}
}
