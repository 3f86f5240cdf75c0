/**
 Aggregation pipelines and their optimiser: what each stage means, the four rewrite rules and
 the fusion of a sort with a limit, and what each of them preserves. The rewriting is shown to
 terminate and to keep a pipeline's meaning.
 */
module Pipeline {
  import opened Common
  import B = Bson
  import opened Sorting

  type Name = seq<byte>
  type Doc = seq<B.Elem>

  const DOT: byte := 0x2E

  // ---- field paths ------------------------------------------------------------------------

  /** The first dotted segment. */
  function FieldRoot(key: Name): Name {
    if key == [] || key[0] == DOT then [] else [key[0]] + FieldRoot(key[1..])
  }

  function SplitAt(key: Name): (r: (Name, seq<Name>))
    ensures r.0 == FieldRoot(key)
  {
    if key == [] then ([], [])
    else
      var (seg, rest) := SplitAt(key[1..]);
      if key[0] == DOT then ([], [seg] + rest) else ([key[0]] + seg, rest)
  }

  /** The dotted segments; the empty path has none. */
  function SplitPath(key: Name): (p: seq<Name>)
    ensures p != [] ==> p[0] == FieldRoot(key)
  {
    if key == [] then [] else var (seg, rest) := SplitAt(key); [seg] + rest
  }

  /** The first value under `f`. */
  function FieldOf(d: Doc, f: Name): B.Value {
    if d == [] then B.Missing else if d[0].key == f then d[0].value else FieldOf(d[1..], f)
  }

  /**
   A copy with the value at the path set; a missing value removes the leaf, and intermediate
   documents are created.
   */
  function DocWith(d: Doc, path: seq<Name>, val: B.Value): Doc
    decreases |path|, 1
  {
    if path == [] then d
    else
      var rebuilt := Rebuild(d, path, val);
      if HasKey(d, path[0]) || val.Missing? then rebuilt
      else rebuilt + [B.Elem(path[0], if |path| == 1 then val else B.Document(DocWith([], path[1..], val)))]
  }

  predicate HasKey(d: Doc, f: Name) { exists i :: 0 <= i < |d| && d[i].key == f }

  function Rebuild(d: Doc, path: seq<Name>, val: B.Value): Doc
    requires path != []
    decreases |path|, 0, |d|
  {
    if d == [] then []
    else
      var e := d[0];
      (if e.key != path[0] then [e]
       else if |path| == 1 then (if val.Missing? then [] else [B.Elem(path[0], val)])
       else [B.Elem(path[0], B.Document(DocWith(if e.value.Document? then e.value.elems else [], path[1..], val)))])
      + Rebuild(d[1..], path, val)
  }

  lemma {:induction false} RebuildKeepsOthers(d: Doc, path: seq<Name>, val: B.Value, f: Name)
    requires path != [] && f != path[0]
    ensures FieldOf(Rebuild(d, path, val), f) == FieldOf(d, f)
    decreases |d|
  {
    if d != [] {
      RebuildKeepsOthers(d[1..], path, val, f);
      var tail := Rebuild(d[1..], path, val);
      var head := if d[0].key != path[0] then [d[0]]
                  else if |path| == 1 then (if val.Missing? then [] else [B.Elem(path[0], val)])
                  else [B.Elem(path[0], B.Document(DocWith(if d[0].value.Document? then d[0].value.elems
                                                           else [], path[1..], val)))];
      assert Rebuild(d, path, val) == head + tail;
      assert [] + tail == tail;
      if head != [] { assert (head + tail)[1..] == tail; }
    }
  }

  lemma {:induction false} FieldOfSnoc(d: Doc, e: B.Elem, f: Name)
    requires e.key != f
    ensures FieldOf(d + [e], f) == FieldOf(d, f)
    decreases |d|
  {
    if d != [] {
      assert (d + [e])[1..] == d[1..] + [e];
      FieldOfSnoc(d[1..], e, f);
    } else {
      assert d + [e] == [e] && [e][1..] == [];
    }
  }

  /** Setting a path leaves every other root alone. */
  lemma DocWithKeepsOthers(d: Doc, path: seq<Name>, val: B.Value, f: Name)
    requires path == [] || f != path[0]
    ensures FieldOf(DocWith(d, path, val), f) == FieldOf(d, f)
  {
    hide FieldOf, Rebuild;
    if path != [] {
      RebuildKeepsOthers(d, path, val, f);
      if !HasKey(d, path[0]) && !val.Missing? {
        FieldOfSnoc(Rebuild(d, path, val), B.Elem(path[0], if |path| == 1 then val
                                                           else B.Document(DocWith([], path[1..], val))), f);
      }
    }
  }

  // ---- match predicates --------------------------------------------------------------------

  /** One entry of a match document: a test on the value under a field's root, a combination, or another operator. */
  datatype Clause =
    | Test(key: Name, holds: B.Value -> bool)
    | And(subs: seq<Filter>)
    | Or(subs: seq<Filter>)
    | Nor(subs: seq<Filter>)
    | Special(accepts: Doc -> bool)

  /** A match document: all of its entries must hold. */
  datatype Filter = Filter(clauses: seq<Clause>)

  predicate Holds(cs: seq<Clause>, d: Doc)
    decreases cs
  {
    cs == [] || (ClauseHolds(cs[0], d) && Holds(cs[1..], d))
  }

  predicate ClauseHolds(c: Clause, d: Doc)
    decreases c
  {
    match c
    case Test(key, holds) => holds(FieldOf(d, FieldRoot(key)))
    case And(subs) => forall i :: 0 <= i < |subs| ==> Holds(subs[i].clauses, d)
    case Or(subs) => exists i :: 0 <= i < |subs| && Holds(subs[i].clauses, d)
    case Nor(subs) => forall i :: 0 <= i < |subs| ==> !Holds(subs[i].clauses, d)
    case Special(accepts) => accepts(d)
  }

  /** The roots a match reads, or `None` when it uses an operator that may read anything. */
  function MatchRoots(cs: seq<Clause>): Option<set<Name>>
    decreases cs, 1
  {
    if cs == [] then Some({})
    else
      var here := match cs[0]
        case Test(key, _) => Some({FieldRoot(key)})
        case And(subs) => ListRoots(subs)
        case Or(subs) => ListRoots(subs)
        case Nor(subs) => ListRoots(subs)
        case Special(_) => None;
      var rest := MatchRoots(cs[1..]);
      if here.None? || rest.None? then None else Some(here.value + rest.value)
  }

  function ListRoots(subs: seq<Filter>): Option<set<Name>>
    decreases subs, 0
  {
    if subs == [] then Some({})
    else
      var here, rest := MatchRoots(subs[0].clauses), ListRoots(subs[1..]);
      if here.None? || rest.None? then None else Some(here.value + rest.value)
  }

  ghost predicate Agree(d: Doc, e: Doc, roots: set<Name>) {
    forall r :: r in roots ==> FieldOf(d, r) == FieldOf(e, r)
  }

  /** An analysable match depends on the roots found and on nothing else. */
  lemma {:induction false} MatchReadsRoots(cs: seq<Clause>, d: Doc, e: Doc)
    requires MatchRoots(cs).Some? && Agree(d, e, MatchRoots(cs).value)
    ensures Holds(cs, d) == Holds(cs, e)
    decreases cs, 1
  {
    hide FieldOf;
    if cs != [] {
      MatchReadsRoots(cs[1..], d, e);
      match cs[0]
      case Test(key, _) => assert FieldRoot(key) in MatchRoots(cs).value;
      case And(subs) => ListReadsRoots(subs, d, e);
      case Or(subs) => ListReadsRoots(subs, d, e);
      case Nor(subs) => ListReadsRoots(subs, d, e);
    }
  }

  lemma {:induction false} ListReadsRoots(subs: seq<Filter>, d: Doc, e: Doc)
    requires ListRoots(subs).Some? && Agree(d, e, ListRoots(subs).value)
    ensures forall i :: 0 <= i < |subs| ==> Holds(subs[i].clauses, d) == Holds(subs[i].clauses, e)
    decreases subs, 0
  {
    hide FieldOf, Holds;
    if subs != [] {
      MatchReadsRoots(subs[0].clauses, d, e);
      ListReadsRoots(subs[1..], d, e);
      forall i | 0 <= i < |subs| ensures Holds(subs[i].clauses, d) == Holds(subs[i].clauses, e) {
        if i > 0 { assert subs[i] == subs[1..][i - 1]; }
      }
    }
  }

  // ---- sort order ----------------------------------------------------------------------------

  /** Ascending or descending; no other direction compiles. */
  type Direction = d: int | d == 1 || d == -1 witness 1

  /** One sort key: the value a document sorts by, missing counting as null, and a direction. */
  datatype SortKey = SortKey(value: Doc -> B.Value, dir: Direction)

  function KeyValue(k: SortKey, d: Doc): B.Value {
    if k.value(d).Missing? then B.Null else k.value(d)
  }

  /** Compare by the first key that tells two documents apart. */
  function CompareDocs(keys: seq<SortKey>, a: Doc, b: Doc): int {
    if keys == [] then 0
    else
      var c := B.Compare(KeyValue(keys[0], a), KeyValue(keys[0], b));
      if c != 0 then c * keys[0].dir else CompareDocs(keys[1..], a, b)
  }

  function DocOrder(keys: seq<SortKey>): Cmp<Doc> { (a, b) => CompareDocs(keys, a, b) }

  lemma {:induction false} DocsFlip(keys: seq<SortKey>, a: Doc, b: Doc)
    ensures CompareDocs(keys, a, b) == -CompareDocs(keys, b, a)
  {
    hide B.Compare, KeyValue;
    if keys != [] {
      B.CompareIsTotalPreorder(KeyValue(keys[0], a), KeyValue(keys[0], b), KeyValue(keys[0], a));
      DocsFlip(keys[1..], a, b);
    }
  }

  lemma {:induction false} DocsTransit(keys: seq<SortKey>, a: Doc, b: Doc, c: Doc)
    requires CompareDocs(keys, a, b) <= 0 && CompareDocs(keys, b, c) <= 0
    ensures CompareDocs(keys, a, c) <= 0
  {
    hide B.Compare, KeyValue;
    if keys != [] {
      var x, y, z := KeyValue(keys[0], a), KeyValue(keys[0], b), KeyValue(keys[0], c);
      B.CompareIsTotalPreorder(x, y, z);
      B.CompareIsTotalPreorder(y, z, x);
      B.CompareIsTotalPreorder(z, y, x);
      B.CompareIsTotalPreorder(z, x, y);
      if B.Compare(x, y) == 0 && B.Compare(y, z) == 0 { DocsTransit(keys[1..], a, b, c); }
    }
  }

  /** Every sort specification orders documents by a total preorder. */
  lemma DocOrderIsPreorder(keys: seq<SortKey>)
    ensures Preorder(DocOrder(keys))
  {
    forall a, b ensures DocOrder(keys)(a, b) == -DocOrder(keys)(b, a) { DocsFlip(keys, a, b); }
    forall a, b, c | DocOrder(keys)(a, b) <= 0 && DocOrder(keys)(b, c) <= 0 ensures DocOrder(keys)(a, c) <= 0 {
      DocsTransit(keys, a, b, c);
    }
  }

  // ---- stages ----------------------------------------------------------------------------------

  /** An output field and its expression, which reads only the listed roots. */
  datatype FieldExpr = FieldExpr(key: Name, roots: set<Name>, eval: Doc -> B.Value)

  /** A stage; a sort or limit whose argument does not compile carries `None`. */
  datatype Stage =
    | Match(clauses: seq<Clause>)
    | AddFields(fields: seq<FieldExpr>)
    | Sort(spec: Option<seq<SortKey>>)
    | Limit(n: Option<int>)
    | Other(run: seq<Doc> -> Option<seq<Doc>>)

  function Filtered(cs: seq<Clause>, ds: seq<Doc>): seq<Doc> {
    if ds == [] then [] else (if Holds(cs, ds[0]) then [ds[0]] else []) + Filtered(cs, ds[1..])
  }

  /** All expressions see the incoming document; the fields are set one after another. */
  function SetFields(fields: seq<FieldExpr>, ctx: Doc, d: Doc): Doc {
    if fields == [] then d else SetFields(fields[1..], ctx, DocWith(d, SplitPath(fields[0].key), fields[0].eval(ctx)))
  }

  function Extended(fields: seq<FieldExpr>, ds: seq<Doc>): seq<Doc> {
    if ds == [] then [] else [SetFields(fields, ds[0], ds[0])] + Extended(fields, ds[1..])
  }

  function Take(ds: seq<Doc>, n: nat): seq<Doc> { if n < |ds| then ds[..n] else ds }

  /** A stage's output, or `None` for an error. */
  function RunStage(st: Stage, ds: seq<Doc>): Option<seq<Doc>> {
    match st
    case Match(cs) => Some(Filtered(cs, ds))
    case AddFields(fs) => Some(Extended(fs, ds))
    case Sort(None) => None
    case Sort(Some(keys)) => Some(StableSort(DocOrder(keys), ds))
    case Limit(None) => None
    case Limit(Some(n)) => if n < 0 then None else Some(Take(ds, n))
    case Other(run) => run(ds)
  }

  function Run(stages: seq<Stage>, ds: seq<Doc>): Option<seq<Doc>> {
    if stages == [] then Some(ds)
    else match RunStage(stages[0], ds) case None => None case Some(out) => Run(stages[1..], out)
  }

  lemma {:induction false} RunJoin(a: seq<Stage>, b: seq<Stage>, ds: seq<Doc>)
    ensures Run(a + b, ds) == match Run(a, ds) case None => None case Some(out) => Run(b, out)
  {
    hide RunStage;
    if a == [] {
      assert a + b == b;
    } else {
      assert (a + b)[0] == a[0] && (a + b)[1..] == a[1..] + b;
      match RunStage(a[0], ds)
      case None =>
      case Some(out) => RunJoin(a[1..], b, out);
    }
  }

  /** The two lists of stages do the same to every input. */
  ghost predicate SameMeaning(a: seq<Stage>, b: seq<Stage>) {
    forall ds :: Run(a, ds) == Run(b, ds)
  }

  /** Stages may be rewritten in place. */
  lemma Congruence(pre: seq<Stage>, a: seq<Stage>, b: seq<Stage>, post: seq<Stage>)
    requires SameMeaning(a, b)
    ensures SameMeaning(pre + a + post, pre + b + post)
  {
    hide Run;
    forall ds ensures Run(pre + a + post, ds) == Run(pre + b + post, ds) {
      RunJoin(pre + a, post, ds);
      RunJoin(pre + b, post, ds);
      RunJoin(pre, a, ds);
      RunJoin(pre, b, ds);
    }
  }

  // ---- the four rules ----------------------------------------------------------------------------

  predicate LimitPair(a: Stage, b: Stage) { a.Limit? && b.Limit? && a.n.Some? && b.n.Some? }
  predicate SortPair(a: Stage, b: Stage) { a.Sort? && b.Sort? }
  predicate ReshapePair(a: Stage, b: Stage) { a.AddFields? && b.AddFields? }

  function Writes(fields: seq<FieldExpr>): set<Name> { set i | 0 <= i < |fields| :: FieldRoot(fields[i].key) }

  predicate MovablePair(a: Stage, b: Stage) {
    a.AddFields? && b.Match? && MatchRoots(b.clauses).Some? && MatchRoots(b.clauses).value !! Writes(a.fields)
  }

  /** What a rule puts in place of an adjacent pair. */
  datatype Rule = MergeLimits | DropSort | MergeReshapes | PushMatch

  predicate Applies(r: Rule, a: Stage, b: Stage) {
    match r
    case MergeLimits => LimitPair(a, b)
    case DropSort => SortPair(a, b)
    case MergeReshapes => ReshapePair(a, b)
    case PushMatch => MovablePair(a, b)
  }

  function Replacement(r: Rule, a: Stage, b: Stage): seq<Stage>
    requires Applies(r, a, b)
  {
    match r
    case MergeLimits => [Limit(Some(if b.n.value < a.n.value then b.n.value else a.n.value))]
    case DropSort => [b]
    case MergeReshapes => [AddFields(a.fields + b.fields)]
    case PushMatch => [b, a]
  }

  /** The first position from `i` on where the rule applies, or the length. */
  function FirstFrom(r: Rule, stages: seq<Stage>, i: nat): (k: nat)
    ensures k + 1 < |stages| ==> Applies(r, stages[k], stages[k + 1])
    decreases |stages| - i
  {
    if i + 1 >= |stages| then |stages| else if Applies(r, stages[i], stages[i + 1]) then i
    else FirstFrom(r, stages, i + 1)
  }

  /** The rule applied once, at its first position. */
  function Rewrite(r: Rule, stages: seq<Stage>): Option<seq<Stage>> {
    var k := FirstFrom(r, stages, 0);
    if k + 1 < |stages| then Some(stages[..k] + Replacement(r, stages[k], stages[k + 1]) + stages[k + 2..]) else None
  }

  // ---- what each rule preserves -----------------------------------------------------------------

  lemma RunPair(a: Stage, b: Stage, ds: seq<Doc>)
    ensures Run([a, b], ds) == match RunStage(a, ds) case None => None case Some(out) => RunStage(b, out)
    ensures Run([a], ds) == RunStage(a, ds)
  {
    hide RunStage;
    assert [a, b][1..] == [b] && [b][1..] == [] && [a][1..] == [];
    match RunStage(a, ds)
    case None =>
    case Some(out) => assert Run([b], out) == RunStage(b, out);
  }

  lemma LimitsMerge(a: Stage, b: Stage)
    requires LimitPair(a, b)
    ensures SameMeaning([a, b], Replacement(MergeLimits, a, b))
  {
    var m := Replacement(MergeLimits, a, b)[0];
    forall ds ensures Run([a, b], ds) == Run([m], ds) {
      RunPair(a, b, ds);
      RunPair(m, m, ds);
      if a.n.value >= 0 && b.n.value >= 0 { TakeTake(ds, a.n.value, b.n.value); }
    }
  }

  lemma TakeTake(ds: seq<Doc>, a: nat, b: nat)
    ensures Take(Take(ds, a), b) == Take(ds, if b < a then b else a)
  {}

  lemma {:induction false} SetFieldsKeeps(fields: seq<FieldExpr>, ctx: Doc, d: Doc, f: Name)
    requires f !in Writes(fields)
    ensures FieldOf(SetFields(fields, ctx, d), f) == FieldOf(d, f)
    decreases |fields|
  {
    hide FieldOf, DocWith, SplitPath;
    if fields != [] {
      var path, val := SplitPath(fields[0].key), fields[0].eval(ctx);
      WritesTail(fields);
      PathRoot(fields[0].key);
      DocWithKeepsOthers(d, path, val, f);
      SetFieldsKeeps(fields[1..], ctx, DocWith(d, path, val), f);
    }
  }

  lemma PathRoot(key: Name)
    ensures SplitPath(key) != [] ==> SplitPath(key)[0] == FieldRoot(key)
  {}

  lemma WritesTail(fields: seq<FieldExpr>)
    requires fields != []
    ensures Writes(fields) == {FieldRoot(fields[0].key)} + Writes(fields[1..])
  {
    hide FieldRoot;
    forall x | x in Writes(fields) ensures x in {FieldRoot(fields[0].key)} + Writes(fields[1..]) {
      var i :| 0 <= i < |fields| && FieldRoot(fields[i].key) == x;
      if i > 0 { assert fields[1..][i - 1] == fields[i]; }
    }
    forall x | x in {FieldRoot(fields[0].key)} + Writes(fields[1..]) ensures x in Writes(fields) {
      if x in Writes(fields[1..]) {
        var i :| 0 <= i < |fields[1..]| && FieldRoot(fields[1..][i].key) == x;
        assert fields[i + 1] == fields[1..][i];
      }
    }
  }

  /** Setting fields a match does not read commutes with it. */
  lemma {:induction false} FilterExtend(cs: seq<Clause>, fields: seq<FieldExpr>, ds: seq<Doc>)
    requires MatchRoots(cs).Some? && MatchRoots(cs).value !! Writes(fields)
    ensures Filtered(cs, Extended(fields, ds)) == Extended(fields, Filtered(cs, ds))
    decreases |ds|
  {
    hide Holds, SetFields, MatchRoots, Writes, FieldOf;
    if ds != [] {
      var d, tail := ds[0], ds[1..];
      FilterExtend(cs, fields, tail);
      var d' := SetFields(fields, d, d);
      forall r | r in MatchRoots(cs).value ensures FieldOf(d, r) == FieldOf(d', r) { SetFieldsKeeps(fields, d, d, r); }
      MatchReadsRoots(cs, d, d');
      var ext := Extended(fields, ds);
      assert ext[0] == d' && ext[1..] == Extended(fields, tail);
      if Holds(cs, d) {
        var kept := Filtered(cs, ds);
        assert kept[0] == d && kept[1..] == Filtered(cs, tail);
      } else {
        assert Filtered(cs, ds) == Filtered(cs, tail);
      }
    }
  }

  lemma MatchMoves(a: Stage, b: Stage)
    requires MovablePair(a, b)
    ensures SameMeaning([a, b], Replacement(PushMatch, a, b))
  {
    hide Filtered, Extended, MatchRoots, Writes;
    forall ds ensures Run([a, b], ds) == Run([b, a], ds) {
      RunPair(a, b, ds);
      RunPair(b, a, ds);
      FilterExtend(b.clauses, a.fields, ds);
    }
  }

  /** An expression depends only on the roots it reads. */
  ghost predicate Honest(f: FieldExpr) {
    forall d, e :: Agree(d, e, f.roots) ==> f.eval(d) == f.eval(e)
  }

  ghost predicate AllHonest(fields: seq<FieldExpr>) {
    forall i :: 0 <= i < |fields| ==> Honest(fields[i])
  }

  function Reads(fields: seq<FieldExpr>): set<Name> { set i, r | 0 <= i < |fields| && r in fields[i].roots :: r }

  lemma {:induction false} SetFieldsJoin(a: seq<FieldExpr>, b: seq<FieldExpr>, ctx: Doc, d: Doc)
    ensures SetFields(a + b, ctx, d) == SetFields(b, ctx, SetFields(a, ctx, d))
    decreases |a|
  {
    hide DocWith, SplitPath;
    if a == [] {
      assert a + b == b;
    } else {
      assert (a + b)[0] == a[0] && (a + b)[1..] == a[1..] + b;
      SetFieldsJoin(a[1..], b, ctx, DocWith(d, SplitPath(a[0].key), a[0].eval(ctx)));
    }
  }

  /** Documents that agree on everything read give the same fields. */
  lemma {:induction false} SetFieldsSameContext(fields: seq<FieldExpr>, ctx: Doc, ctx': Doc, d: Doc)
    requires AllHonest(fields) && Agree(ctx, ctx', Reads(fields))
    ensures SetFields(fields, ctx, d) == SetFields(fields, ctx', d)
    decreases |fields|
  {
    hide DocWith, SplitPath, FieldOf;
    if fields != [] {
      assert Agree(ctx, ctx', fields[0].roots);
      assert Honest(fields[0]);
      forall r | r in Reads(fields[1..]) ensures r in Reads(fields) {
        var i :| 0 <= i < |fields[1..]| && r in fields[1..][i].roots;
        assert r in fields[i + 1].roots;
      }
      forall i | 0 <= i < |fields[1..]| ensures Honest(fields[1..][i]) { assert fields[1..][i] == fields[i + 1]; }
      SetFieldsSameContext(fields[1..], ctx, ctx', DocWith(d, SplitPath(fields[0].key), fields[0].eval(ctx)));
    }
  }

  ghost predicate Independent(a: Stage, b: Stage) {
    a.AddFields? && b.AddFields? && AllHonest(b.fields) && Reads(b.fields) !! Writes(a.fields)
  }

  lemma {:induction false} ExtendExtend(a: seq<FieldExpr>, b: seq<FieldExpr>, ds: seq<Doc>)
    requires AllHonest(b) && Reads(b) !! Writes(a)
    ensures Extended(b, Extended(a, ds)) == Extended(a + b, ds)
    decreases |ds|
  {
    hide SetFields, AllHonest, Reads, Writes, FieldOf;
    if ds != [] {
      var d := ds[0];
      var d' := SetFields(a, d, d);
      ExtendExtend(a, b, ds[1..]);
      SetFieldsJoin(a, b, d, d);
      forall r | r in Reads(b) ensures FieldOf(d, r) == FieldOf(d', r) { SetFieldsKeeps(a, d, d, r); }
      SetFieldsSameContext(b, d, d', d');
      var ext := Extended(a, ds);
      assert ext[0] == d' && ext[1..] == Extended(a, ds[1..]);
    }
  }

  /** Merging two reshapes is exact when the second reads nothing the first writes. */
  lemma ReshapesMerge(a: Stage, b: Stage)
    requires Independent(a, b)
    ensures SameMeaning([a, b], Replacement(MergeReshapes, a, b))
  {
    hide Extended, AllHonest, Reads, Writes;
    var m := AddFields(a.fields + b.fields);
    forall ds ensures Run([a, b], ds) == Run([m], ds) {
      RunPair(a, b, ds);
      RunPair(m, m, ds);
      ExtendExtend(a.fields, b.fields, ds);
    }
  }

  /** Without that, the merged stage loses what the second read from the first. */
  lemma DependentMergeDiffers(x: Name, y: Name, v: B.Value)
    requires x != y && x != [] && y != [] && DOT !in x && DOT !in y && !v.Missing?
    ensures var a, b := AddFields([FieldExpr(x, {}, d => v)]), AddFields([FieldExpr(y, {x}, d => FieldOf(d, x))]);
            !SameMeaning([a, b], Replacement(MergeReshapes, a, b))
  {
    hide SetFields, Extended, DocWith, SplitPath, Run;
    var fx, fy := FieldExpr(x, {}, d => v), FieldExpr(y, {x}, d => FieldOf(d, x));
    var a, b, m := AddFields([fx]), AddFields([fy]), AddFields([fx] + [fy]);
    var ex, ey := B.Elem(x, v), B.Elem(y, v);
    RunPair(a, b, [[]]);
    RunPair(m, m, [[]]);
    ExtendOne([fx], []);
    ExtendOne([fy], [ex]);
    ExtendOne([fx] + [fy], []);
    SetFieldsJoin([fx], [fy], [], []);
    SetOne(fx, [], []);
    SetOne(fy, [ex], [ex]);
    SetOne(fy, [], [ex]);
    NewField([], x, v);
    NewField([ex], y, v);
    NewField([ex], y, B.Missing);
    assert FieldOf([ex], x) == v && FieldOf([], x) == B.Missing;
    var none: Doc := [];
    assert none + [ex] == [ex] && [ex] + [ey] == [ex, ey];
    assert SetFields([fx], none, none) == [ex] && SetFields([fy], [ex], [ex]) == [ex, ey]
        && SetFields([fy], none, [ex]) == [ex];
    assert Run([a, b], [[]]) == Some([[ex, ey]]) && Run([m], [[]]) == Some([[ex]]);
  }

  lemma SetOne(f: FieldExpr, ctx: Doc, d: Doc)
    requires f.key != [] && DOT !in f.key
    ensures SetFields([f], ctx, d) == DocWith(d, [f.key], f.eval(ctx))
  {
    hide DocWith;
    PlainPath(f.key);
    assert [f][1..] == [];
  }

  lemma ExtendOne(fields: seq<FieldExpr>, d: Doc)
    ensures Extended(fields, [d]) == [SetFields(fields, d, d)]
  {
    hide SetFields;
    assert [d][1..] == [];
    assert Extended(fields, []) == [];
  }

  /** A plain field the document lacks is appended, or not, if the value is missing. */
  lemma NewField(d: Doc, y: Name, v: B.Value)
    requires !HasKey(d, y)
    ensures DocWith(d, [y], v) == if v.Missing? then d else d + [B.Elem(y, v)]
  {
    hide Rebuild;
    RebuildAbsent(d, [y], v);
  }

  lemma {:induction false} RebuildAbsent(d: Doc, path: seq<Name>, v: B.Value)
    requires path != [] && !HasKey(d, path[0])
    ensures Rebuild(d, path, v) == d
    decreases |d|
  {
    if d != [] {
      assert d[0].key != path[0];
      assert !HasKey(d[1..], path[0]) by { assert forall i :: 0 <= i < |d[1..]| ==> d[1..][i] == d[i + 1]; }
      RebuildAbsent(d[1..], path, v);
      assert d == [d[0]] + d[1..];
    }
  }

  lemma {:induction false} PlainPath(x: Name)
    requires x != [] && DOT !in x
    ensures SplitPath(x) == [x]
  {
    PlainSplit(x);
  }

  lemma {:induction false} PlainSplit(x: Name)
    requires DOT !in x
    ensures SplitAt(x) == (x, [])
  {
    if x != [] {
      assert x == [x[0]] + x[1..];
      PlainSplit(x[1..]);
    }
  }

  /** Dropping the earlier of two sorts changes at most the order among documents the later one ties. */
  lemma SortDrops(a: Stage, b: Stage, ds: seq<Doc>)
    requires SortPair(a, b) && a.spec.Some? && b.spec.Some?
    ensures var both, one := Run([a, b], ds), Run(Replacement(DropSort, a, b), ds);
            && both.Some? && one.Some? && multiset(both.value) == multiset(one.value) == multiset(ds)
            && |both.value| == |one.value|
            && forall i :: 0 <= i < |one.value| ==> CompareDocs(b.spec.value, both.value[i], one.value[i]) == 0
  {
    hide StableSort, CompareDocs;
    RunPair(a, b, ds);
    RunPair(b, b, ds);
    var ca, cb := DocOrder(a.spec.value), DocOrder(b.spec.value);
    DocOrderIsPreorder(a.spec.value);
    DocOrderIsPreorder(b.spec.value);
    StableSortSorts(ca, ds);
    StableSortSorts(cb, StableSort(ca, ds));
    StableSortSorts(cb, ds);
    var both, one := StableSort(cb, StableSort(ca, ds)), StableSort(cb, ds);
    forall i | 0 <= i < |one| ensures CompareDocs(b.spec.value, both[i], one[i]) == 0 {
      SortedUnique(cb, both, one, i);
    }
  }

  /** The earlier sort does not show: the later fails anyway, or ties nothing the earlier tells apart. */
  ghost predicate Absorbed(a: Stage, b: Stage)
    requires SortPair(a, b)
  {
    b.spec.None? || (a.spec.Some? && Coarser(DocOrder(a.spec.value), DocOrder(b.spec.value)))
  }

  /**
   Dropping the earlier of two sorts keeps the meaning exactly when it does not show. A sort that
   does not compile always shows: it is an error, forgotten once a later sort has replaced it.
   */
  lemma SortDropsIff(a: Stage, b: Stage)
    requires SortPair(a, b)
    ensures SameMeaning([a, b], Replacement(DropSort, a, b)) <==> Absorbed(a, b)
  {
    hide StableSort, CompareDocs, Run, Absorbed;
    if Absorbed(a, b) {
      forall ds ensures Run([a, b], ds) == Run([b], ds) { AbsorbedSame(a, b, ds); }
    } else {
      var ds := ShownBy(a, b);
      assert Run([a, b], ds) != Run([b], ds);
    }
  }

  lemma AbsorbedSame(a: Stage, b: Stage, ds: seq<Doc>)
    requires SortPair(a, b) && Absorbed(a, b)
    ensures Run([a, b], ds) == Run([b], ds)
  {
    hide StableSort, CompareDocs, Run, Coarser;
    RunPair(a, b, ds);
    RunPair(b, b, ds);
    if b.spec.Some? {
      DocOrderIsPreorder(a.spec.value);
      DocOrderIsPreorder(b.spec.value);
      CoarserSortIsLost(DocOrder(a.spec.value), DocOrder(b.spec.value), ds);
    }
  }

  /** An input on which an earlier sort shows. */
  lemma ShownBy(a: Stage, b: Stage) returns (ds: seq<Doc>)
    requires SortPair(a, b) && !Absorbed(a, b)
    ensures Run([a, b], ds) != Run([b], ds)
  {
    hide StableSort, CompareDocs, Run;
    if a.spec.None? {
      ds := [];
      RunPair(a, b, ds);
      RunPair(b, b, ds);
    } else {
      var ca, cb := DocOrder(a.spec.value), DocOrder(b.spec.value);
      var x, y :| cb(x, y) == 0 && ca(x, y) != 0;
      DocOrderIsPreorder(a.spec.value);
      DocOrderIsPreorder(b.spec.value);
      Flip(ca, x, y);
      Flip(cb, x, y);
      if ca(x, y) > 0 { x, y := y, x; }
      FinerSortShows(ca, cb, x, y);
      ds := [y, x];
      RunPair(a, b, ds);
      RunPair(b, b, ds);
    }
  }

  lemma {:induction false} TiesOnEveryKey(keys: seq<SortKey>, x: Doc, y: Doc)
    ensures CompareDocs(keys, x, y) == 0 <==>
            forall i :: 0 <= i < |keys| ==> B.Compare(KeyValue(keys[i], x), KeyValue(keys[i], y)) == 0
  {
    hide B.Compare, KeyValue;
    if keys != [] {
      TiesOnEveryKey(keys[1..], x, y);
      forall i | 0 < i < |keys| ensures keys[i] == keys[1..][i - 1] {}
    }
  }

  /** A check before the call: every value the earlier sort goes by, the later goes by too, in either direction. */
  lemma CoveredSortDrops(a: Stage, b: Stage)
    requires SortPair(a, b) && a.spec.Some? && b.spec.Some?
    requires forall i :: 0 <= i < |a.spec.value| ==>
               exists j :: 0 <= j < |b.spec.value| && b.spec.value[j].value == a.spec.value[i].value
    ensures SameMeaning([a, b], Replacement(DropSort, a, b))
  {
    hide B.Compare, CompareDocs, SameMeaning;
    forall x, y | DocOrder(b.spec.value)(x, y) == 0 ensures DocOrder(a.spec.value)(x, y) == 0 {
      TiesOnEveryKey(a.spec.value, x, y);
      TiesOnEveryKey(b.spec.value, x, y);
    }
    SortDropsIff(a, b);
  }

  /** Before a limit, dropping a sort that shows returns another document. */
  lemma DroppedSortLoses(a: seq<SortKey>, b: seq<SortKey>, x: Doc, y: Doc)
    requires CompareDocs(a, x, y) < 0 && CompareDocs(b, x, y) == 0
    ensures x != y
    ensures Run([Sort(Some(a)), Sort(Some(b)), Limit(Some(1))], [y, x]) == Some([x])
    ensures Run([Sort(Some(b)), Limit(Some(1))], [y, x]) == Some([y])
  {
    hide StableSort, CompareDocs, Run;
    var sa, sb, one := Sort(Some(a)), Sort(Some(b)), Limit(Some(1));
    DocOrderIsPreorder(a);
    DocOrderIsPreorder(b);
    FinerSortShows(DocOrder(a), DocOrder(b), x, y);
    assert [sa, sb, one] == [sa, sb] + [one];
    RunJoin([sa, sb], [one], [y, x]);
    RunPair(sa, sb, [y, x]);
    RunPair(one, one, [x, y]);
    RunPair(sb, one, [y, x]);
    assert Take([x, y], 1) == [x] && Take([y, x], 1) == [y];
  }

  /** So it is with a sort by one field dropped before a sort by another. */
  lemma DroppedSortExample(f: Name, g: Name, dir: Direction)
    requires f != g
    ensures var a, b := SortKey((d: Doc) => FieldOf(d, f), 1), SortKey((d: Doc) => FieldOf(d, g), dir);
            var x, y := [B.Elem(f, B.Int32(1))], [B.Elem(f, B.Int32(2))];
            && Run([Sort(Some([a])), Sort(Some([b])), Limit(Some(1))], [y, x]) == Some([x])
            && Run(Optimize([Sort(Some([a])), Sort(Some([b])), Limit(Some(1))]), [y, x]) == Some([y])
  {
    hide Run, StableSort, Optimize;
    var a, b := SortKey((d: Doc) => FieldOf(d, f), 1), SortKey((d: Doc) => FieldOf(d, g), dir);
    var x, y := [B.Elem(f, B.Int32(1))], [B.Elem(f, B.Int32(2))];
    assert FieldOf(x, f) == B.Int32(1) && FieldOf(y, f) == B.Int32(2);
    assert x[1..] == [] && y[1..] == [];
    assert FieldOf(x, g) == B.Missing && FieldOf(y, g) == B.Missing;
    assert B.Compare(B.Null, B.Null) == 0 && B.Compare(B.Int32(1), B.Int32(2)) < 0;
    TiesOnEveryKey([b], x, y);
    DroppedSortLoses([a], [b], x, y);
    DropThenStop(Sort(Some([a])), Sort(Some([b])), Limit(Some(1)));
  }

  // ---- termination --------------------------------------------------------------------------------

  function Matches(s: seq<Stage>): nat {
    if s == [] then 0 else Matches(s[1..]) + if s[0].Match? then 1 else 0
  }

  /** Pairs of a reshape somewhere before a match. */
  function Inversions(s: seq<Stage>): nat {
    if s == [] then 0 else Inversions(s[1..]) + if s[0].AddFields? then Matches(s[1..]) else 0
  }

  lemma {:induction false} MatchesJoin(a: seq<Stage>, b: seq<Stage>)
    ensures Matches(a + b) == Matches(a) + Matches(b)
  {
    if a == [] { assert a + b == b; } else {
      assert (a + b)[0] == a[0] && (a + b)[1..] == a[1..] + b;
      MatchesJoin(a[1..], b);
    }
  }

  /** Moving a match in front of a reshape removes one pair. */
  lemma {:induction false} SwapRemovesPair(pre: seq<Stage>, a: Stage, b: Stage, post: seq<Stage>)
    requires a.AddFields? && b.Match?
    ensures Inversions(pre + [b, a] + post) < Inversions(pre + [a, b] + post)
    ensures Matches(pre + [b, a] + post) == Matches(pre + [a, b] + post)
    decreases |pre|
  {
    var s, t := pre + [a, b] + post, pre + [b, a] + post;
    if pre == [] {
      assert s == [a] + ([b] + post) && t == [b] + ([a] + post);
      assert s[1..] == [b] + post && t[1..] == [a] + post;
      assert ([b] + post)[1..] == post && ([a] + post)[1..] == post;
    } else {
      assert s[0] == pre[0] && s[1..] == pre[1..] + [a, b] + post;
      assert t[0] == pre[0] && t[1..] == pre[1..] + [b, a] + post;
      SwapRemovesPair(pre[1..], a, b, post);
    }
  }

  ghost predicate Smaller(s: seq<Stage>, t: seq<Stage>) {
    |s| < |t| || (|s| == |t| && Inversions(s) < Inversions(t))
  }

  /** Every rewrite shortens the pipeline or, at the same length, brings a match forward. */
  lemma RewriteShrinks(r: Rule, s: seq<Stage>)
    requires Rewrite(r, s).Some?
    ensures Smaller(Rewrite(r, s).value, s)
  {
    hide Inversions, FirstFrom, Writes, MatchRoots;
    var k := FirstFrom(r, s, 0);
    if r.PushMatch? {
      assert s == s[..k] + [s[k], s[k + 1]] + s[k + 2..];
      SwapRemovesPair(s[..k], s[k], s[k + 1], s[k + 2..]);
    }
  }

  const RULES := [MergeLimits, DropSort, MergeReshapes, PushMatch]

  /** Each rule in turn, once. */
  function PassFrom(i: nat, s: seq<Stage>): (r: (seq<Stage>, bool))
    ensures !r.1 ==> r.0 == s
    decreases |RULES| - i
  {
    if i >= |RULES| then (s, false)
    else match Rewrite(RULES[i], s)
      case None => PassFrom(i + 1, s)
      case Some(s') => (PassFrom(i + 1, s').0, true)
  }

  lemma {:induction false} PassShrinks(i: nat, s: seq<Stage>)
    ensures PassFrom(i, s).1 ==> Smaller(PassFrom(i, s).0, s)
    decreases |RULES| - i
  {
    hide Rewrite, Inversions;
    if i < |RULES| {
      match Rewrite(RULES[i], s)
      case None => PassShrinks(i + 1, s);
      case Some(s') =>
        RewriteShrinks(RULES[i], s);
        PassShrinks(i + 1, s');
    }
  }

  /** The optimiser: passes until nothing changes. */
  function Optimize(s: seq<Stage>): seq<Stage>
    decreases |s|, Inversions(s)
  {
    PassShrinks(0, s);
    var (s', changed) := PassFrom(0, s);
    if changed then Optimize(s') else s
  }

  method OptimizeRaw(stages: seq<Stage>) returns (out: seq<Stage>)
    ensures out == Optimize(stages)
  {
    hide PassFrom;
    out := stages;
    while true
      invariant Optimize(stages) == Optimize(out)
      decreases |out|, Inversions(out)
    {
      PassShrinks(0, out);
      var (next, changed) := PassFrom(0, out);
      if !changed { return; }
      out := next;
    }
  }

  /** At the fixpoint no rule applies anywhere. */
  lemma {:induction false} OptimizeIsNormal(s: seq<Stage>, i: nat)
    requires i < |RULES|
    ensures Rewrite(RULES[i], Optimize(s)) == None
    decreases |s|, Inversions(s)
  {
    hide Rewrite;
    PassShrinks(0, s);
    var (s', changed) := PassFrom(0, s);
    if changed { OptimizeIsNormal(s', i); } else { PassIdle(0, s, i); }
  }

  lemma {:induction false} PassIdle(j: nat, s: seq<Stage>, i: nat)
    requires j <= i < |RULES| && !PassFrom(j, s).1
    ensures Rewrite(RULES[i], s) == None
    decreases i - j
  {
    hide Rewrite;
    if j < i { PassIdle(j + 1, s, i); }
  }

  /** A sort, a later sort and a limit are optimised to the later sort and the limit. */
  lemma DropThenStop(a: Stage, b: Stage, c: Stage)
    requires SortPair(a, b) && c.Limit?
    ensures Optimize([a, b, c]) == [b, c]
  {
    var s, t := [a, b, c], [b, c];
    assert !Applies(MergeLimits, s[0], s[1]) && !Applies(MergeLimits, s[1], s[2]);
    assert FirstFrom(MergeLimits, s, 2) == 3;
    assert FirstFrom(MergeLimits, s, 1) == 3;
    assert FirstFrom(DropSort, s, 0) == 0;
    assert s[..0] + Replacement(DropSort, a, b) + s[2..] == t;
    assert Rewrite(MergeLimits, s) == None && Rewrite(DropSort, s) == Some(t);
    NothingToDo(t);
    assert PassFrom(1, s).0 == t;
    assert PassFrom(0, s) == (t, true);
    assert PassFrom(0, t) == (t, false);
  }

  lemma NothingToDo(t: seq<Stage>)
    requires |t| == 2 && t[0].Sort? && t[1].Limit?
    ensures forall i :: PassFrom(i, t) == (t, false)
  {
    forall r: Rule ensures Rewrite(r, t) == None {
      assert !Applies(r, t[0], t[1]);
      assert FirstFrom(r, t, 0) == FirstFrom(r, t, 1) == 2;
    }
    forall i ensures PassFrom(i, t) == (t, false) { IdlePass(i, t); }
  }

  lemma {:induction false} IdlePass(i: nat, t: seq<Stage>)
    requires forall r :: Rewrite(r, t) == None
    ensures PassFrom(i, t) == (t, false)
    decreases |RULES| - i
  {
    hide Rewrite;
    if i < |RULES| { IdlePass(i + 1, t); }
  }

  // ---- whole pipelines ------------------------------------------------------------------------------

  /** No reshape in the run of reshapes and matches ahead reads any of these roots. */
  ghost predicate ClearAhead(written: set<Name>, s: seq<Stage>) {
    s == [] ||
    match s[0]
    case Match(_) => ClearAhead(written, s[1..])
    case AddFields(fields) => Reads(fields) !! written && ClearAhead(written, s[1..])
    case _ => true
  }

  /** Wherever two reshapes may come together, the later reads nothing the earlier writes. */
  ghost predicate Separable(s: seq<Stage>) {
    s == [] ||
    (Separable(s[1..]) && (s[0].AddFields? ==> AllHonest(s[0].fields) && ClearAhead(Writes(s[0].fields), s[1..])))
  }

  /** No sort that a later one will replace shows. */
  ghost predicate SortsAbsorbed(s: seq<Stage>) {
    forall i :: 0 <= i < |s| - 1 && SortPair(s[i], s[i + 1]) ==> Absorbed(s[i], s[i + 1])
  }

  lemma {:induction false} ClearUnion(v: set<Name>, w: set<Name>, s: seq<Stage>)
    requires ClearAhead(v, s) && ClearAhead(w, s)
    ensures ClearAhead(v + w, s)
  {
    hide Reads;
    if s != [] && (s[0].Match? || s[0].AddFields?) { ClearUnion(v, w, s[1..]); }
  }

  lemma ReadsJoin(a: seq<FieldExpr>, b: seq<FieldExpr>)
    ensures Reads(a + b) == Reads(a) + Reads(b)
  {
    forall r | r in Reads(a) + Reads(b) ensures r in Reads(a + b) {
      if r in Reads(a) {
        var i :| 0 <= i < |a| && r in a[i].roots;
        assert (a + b)[i] == a[i];
      } else {
        var i :| 0 <= i < |b| && r in b[i].roots;
        assert (a + b)[|a| + i] == b[i];
      }
    }
  }

  lemma WritesJoin(a: seq<FieldExpr>, b: seq<FieldExpr>)
    ensures Writes(a + b) == Writes(a) + Writes(b)
  {
    hide FieldRoot;
    forall x | x in Writes(a) + Writes(b) ensures x in Writes(a + b) {
      if x in Writes(a) {
        var i :| 0 <= i < |a| && FieldRoot(a[i].key) == x;
        assert (a + b)[i] == a[i];
      } else {
        var i :| 0 <= i < |b| && FieldRoot(b[i].key) == x;
        assert (a + b)[|a| + i] == b[i];
      }
    }
  }

  lemma HonestJoin(a: seq<FieldExpr>, b: seq<FieldExpr>)
    requires AllHonest(a) && AllHonest(b)
    ensures AllHonest(a + b)
  {
    hide Honest;
  }

  lemma Unfold(a: Stage, b: Stage, post: seq<Stage>)
    ensures ([a, b] + post)[0] == a && ([a, b] + post)[1..] == [b] + post && ([b] + post)[0] == b
            && ([b] + post)[1..] == post
  {}

  /** A rule leaves what lies ahead clear. */
  lemma {:induction false} RuleKeepsClear(r: Rule, w: set<Name>, pre: seq<Stage>, a: Stage, b: Stage, post: seq<Stage>)
    requires Applies(r, a, b) && ClearAhead(w, pre + [a, b] + post)
    ensures ClearAhead(w, pre + Replacement(r, a, b) + post)
    decreases |pre|
  {
    hide Reads, Writes, MatchRoots;
    var s, t := pre + [a, b] + post, pre + Replacement(r, a, b) + post;
    if pre == [] {
      assert s == [a, b] + post && t == Replacement(r, a, b) + post;
      Unfold(a, b, post);
      match r
      case MergeLimits =>
      case DropSort =>
      case MergeReshapes =>
        ReadsJoin(a.fields, b.fields);
        assert t[1..] == post;
      case PushMatch => Unfold(b, a, post);
    } else {
      assert s[0] == pre[0] && s[1..] == pre[1..] + [a, b] + post;
      assert t[0] == pre[0] && t[1..] == pre[1..] + Replacement(r, a, b) + post;
      if pre[0].Match? || pre[0].AddFields? { RuleKeepsClear(r, w, pre[1..], a, b, post); }
    }
  }

  lemma RuleSeparates(r: Rule, a: Stage, b: Stage, post: seq<Stage>)
    requires Applies(r, a, b) && Separable([a, b] + post)
    ensures Separable(Replacement(r, a, b) + post)
    ensures r.MergeReshapes? ==> Independent(a, b)
  {
    hide Reads, Writes, MatchRoots, AllHonest;
    Unfold(a, b, post);
    var t := Replacement(r, a, b) + post;
    match r
    case MergeLimits => assert t[1..] == post;
    case DropSort => assert t[1..] == post;
    case MergeReshapes =>
      assert t[1..] == post;
      WritesJoin(a.fields, b.fields);
      HonestJoin(a.fields, b.fields);
      ClearUnion(Writes(a.fields), Writes(b.fields), post);
    case PushMatch => Unfold(b, a, post);
  }

  lemma {:induction false} RuleKeepsSeparable(r: Rule, pre: seq<Stage>, a: Stage, b: Stage, post: seq<Stage>)
    requires Applies(r, a, b) && Separable(pre + [a, b] + post)
    ensures Separable(pre + Replacement(r, a, b) + post)
    ensures r.MergeReshapes? ==> Independent(a, b)
    decreases |pre|
  {
    hide Reads, Writes, MatchRoots, AllHonest, Applies, Replacement, ClearAhead, Independent;
    var s, t := pre + [a, b] + post, pre + Replacement(r, a, b) + post;
    if pre == [] {
      assert s == [a, b] + post && t == Replacement(r, a, b) + post;
      RuleSeparates(r, a, b, post);
    } else {
      assert s[0] == pre[0] && s[1..] == pre[1..] + [a, b] + post;
      assert t[0] == pre[0] && t[1..] == pre[1..] + Replacement(r, a, b) + post;
      RuleKeepsSeparable(r, pre[1..], a, b, post);
      if pre[0].AddFields? { RuleKeepsClear(r, Writes(pre[0].fields), pre[1..], a, b, post); }
    }
  }

  lemma NoSortsInRule(r: Rule, a: Stage, b: Stage)
    requires !r.DropSort? && Applies(r, a, b)
    ensures forall i :: 0 <= i < |Replacement(r, a, b)| ==> !Replacement(r, a, b)[i].Sort?
    ensures |Replacement(r, a, b)| > 0
  {
    hide Writes, MatchRoots;
  }

  lemma RuleKeepsSorts(r: Rule, pre: seq<Stage>, a: Stage, b: Stage, post: seq<Stage>)
    requires !r.DropSort? && Applies(r, a, b) && SortsAbsorbed(pre + [a, b] + post)
    ensures SortsAbsorbed(pre + Replacement(r, a, b) + post)
  {
    NoSortsInRule(r, a, b);
    hide Applies, Replacement, Absorbed;
    var repl := Replacement(r, a, b);
    var s, t := pre + [a, b] + post, pre + repl + post;
    forall i | 0 <= i < |t| - 1 ensures SortPair(t[i], t[i + 1]) ==> Absorbed(t[i], t[i + 1]) {
      if i + 1 < |pre| {
        assert s[i] == t[i] && s[i + 1] == t[i + 1];
      } else if i < |pre| {
        assert t[i + 1] == repl[0];
      } else if i < |pre| + |repl| {
        assert t[i] == repl[i - |pre|];
      } else {
        var j := i - |repl| + 2;
        assert t[i] == s[j] && t[i + 1] == s[j + 1];
      }
    }
  }

  lemma AbsorbedTrans(a: Stage, b: Stage, c: Stage)
    requires SortPair(a, b) && SortPair(b, c) && Absorbed(a, b) && Absorbed(b, c)
    ensures Absorbed(a, c)
  {
    hide CompareDocs;
  }

  /** What did not show beside the dropped sort does not show beside the one that replaces it. */
  lemma DropKeepsSorts(pre: seq<Stage>, a: Stage, b: Stage, post: seq<Stage>)
    requires SortPair(a, b) && SortsAbsorbed(pre + [a, b] + post)
    ensures SortsAbsorbed(pre + [b] + post) && Absorbed(a, b)
  {
    hide Absorbed;
    var s, t := pre + [a, b] + post, pre + [b] + post;
    assert s[|pre|] == a && s[|pre| + 1] == b;
    forall i | 0 <= i < |t| - 1 && SortPair(t[i], t[i + 1]) ensures Absorbed(t[i], t[i + 1]) {
      if i + 1 < |pre| {
        assert s[i] == t[i] && s[i + 1] == t[i + 1];
      } else if i < |pre| {
        assert t[i] == s[i] && t[i + 1] == b;
        AbsorbedTrans(s[i], a, b);
      } else {
        assert t[i] == s[i + 1] && t[i + 1] == s[i + 2];
      }
    }
  }

  /** Reshapes that may merge are independent, and sorts that will be dropped do not show. */
  ghost predicate Sound(s: seq<Stage>) { Separable(s) && SortsAbsorbed(s) }

  lemma RuleSame(r: Rule, a: Stage, b: Stage)
    requires Applies(r, a, b) && (r.MergeReshapes? ==> Independent(a, b)) && (r.DropSort? ==> Absorbed(a, b))
    ensures SameMeaning([a, b], Replacement(r, a, b))
  {
    hide SameMeaning, Independent, MovablePair, Absorbed;
    match r
    case MergeLimits => LimitsMerge(a, b);
    case DropSort => SortDropsIff(a, b);
    case MergeReshapes => ReshapesMerge(a, b);
    case PushMatch => MatchMoves(a, b);
  }

  lemma RewriteSame(r: Rule, s: seq<Stage>)
    requires Sound(s) && Rewrite(r, s).Some?
    ensures Sound(Rewrite(r, s).value) && SameMeaning(s, Rewrite(r, s).value)
  {
    hide Separable, SortsAbsorbed, SameMeaning, Applies, FirstFrom, Independent, Absorbed;
    var k := FirstFrom(r, s, 0);
    var pre, a, b, post := s[..k], s[k], s[k + 1], s[k + 2..];
    assert s == pre + [a, b] + post;
    RuleKeepsSeparable(r, pre, a, b, post);
    if r.DropSort? {
      AppliesSort(a, b);
      DropKeepsSorts(pre, a, b, post);
    } else {
      RuleKeepsSorts(r, pre, a, b, post);
    }
    RuleSame(r, a, b);
    Congruence(pre, [a, b], Replacement(r, a, b), post);
  }

  lemma AppliesSort(a: Stage, b: Stage)
    ensures Applies(DropSort, a, b) == SortPair(a, b)
  {}

  lemma SameTrans(a: seq<Stage>, b: seq<Stage>, c: seq<Stage>)
    requires SameMeaning(a, b) && SameMeaning(b, c)
    ensures SameMeaning(a, c)
  {}

  lemma SameSelf(a: seq<Stage>)
    ensures SameMeaning(a, a)
  {}

  lemma {:induction false} PassSame(i: nat, s: seq<Stage>)
    requires Sound(s)
    ensures Sound(PassFrom(i, s).0) && SameMeaning(s, PassFrom(i, s).0)
    decreases |RULES| - i
  {
    hide Rewrite, Sound, SameMeaning;
    SameSelf(s);
    if i < |RULES| {
      match Rewrite(RULES[i], s)
      case None => PassSame(i + 1, s);
      case Some(s') =>
        RewriteSame(RULES[i], s);
        PassSame(i + 1, s');
        SameTrans(s, s', PassFrom(i, s).0);
    }
  }

  /** The optimised pipeline gives every input the result the original does, errors included. */
  lemma {:induction false} OptimizeSame(s: seq<Stage>)
    requires Sound(s)
    ensures SameMeaning(s, Optimize(s))
    decreases |s|, Inversions(s)
  {
    hide PassFrom, Sound, SameMeaning, Inversions;
    SameSelf(s);
    PassShrinks(0, s);
    PassSame(0, s);
    var (s', changed) := PassFrom(0, s);
    if changed {
      OptimizeSame(s');
      SameTrans(s, s', Optimize(s));
    }
  }

  // ---- sort fused with limit -----------------------------------------------------------------------

  /** The sort stage with the limit a following `$limit` gave it; zero is taken for no limit. */
  method SortLoad(keys: seq<SortKey>, limit: nat, ds: seq<Doc>) returns (out: seq<Doc>, ghost dropped: multiset<Doc>)
    ensures Sorted(DocOrder(keys), out)
    ensures limit > 0 ==> TopK(DocOrder(keys), ds, limit, out, dropped)
    ensures limit == 0 ==> out == StableSort(DocOrder(keys), ds)
  {
    hide Sorted, TopK, StableSort;
    DocOrderIsPreorder(keys);
    if limit > 0 {
      out, dropped := LoadTopK(DocOrder(keys), ds, limit);
    } else {
      StableSortSorts(DocOrder(keys), ds);
      out := StableSort(DocOrder(keys), ds);
      dropped := multiset{};
    }
  }

  /** A fused sort agrees with sort-then-limit position by position, up to ties. */
  lemma FusionKeepsKeys(keys: seq<SortKey>, limit: nat, ds: seq<Doc>, out: seq<Doc>, dropped: multiset<Doc>)
    requires limit > 0 && Sorted(DocOrder(keys), out) && TopK(DocOrder(keys), ds, limit, out, dropped)
    ensures var ref := Take(StableSort(DocOrder(keys), ds), limit);
            && Run([Sort(Some(keys)), Limit(Some(limit))], ds) == Some(ref)
            && |out| == |ref| && forall i :: 0 <= i < |out| ==> CompareDocs(keys, out[i], ref[i]) == 0
    ensures multiset(out) <= multiset(ds)
  {
    hide Sorted, StableSort, CompareDocs;
    var cmp := DocOrder(keys);
    DocOrderIsPreorder(keys);
    StableSortSorts(cmp, ds);
    RunPair(Sort(Some(keys)), Limit(Some(limit)), ds);
    forall i | 0 <= i < |out| ensures CompareDocs(keys, out[i], StableSort(cmp, ds)[i]) == 0 {
      TopKIsSortPrefix(cmp, ds, limit, out, dropped, i);
    }
  }

  /** A limit of zero fused into a sort returns everything: right exactly when there is nothing to return. */
  lemma ZeroLimitFusion(keys: seq<SortKey>, ds: seq<Doc>)
    ensures Run([Sort(Some(keys)), Limit(Some(0))], ds) == Some([])
    ensures StableSort(DocOrder(keys), ds) == [] <==> ds == []
  {
    hide StableSort;
    DocOrderIsPreorder(keys);
    StableSortSorts(DocOrder(keys), ds);
    RunPair(Sort(Some(keys)), Limit(Some(0)), ds);
  }
}
