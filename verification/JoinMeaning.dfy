/** What joins and graph lookups match, in terms of the values their fields stand for. */
module JoinMeaning {
  import opened Common
  import opened Bson
  import opened GraphLookup
  import opened HashJoin

  /** A field stands for each item of an array, for null when missing, and else for its value. */
  predicate StandsFor(v: Value, x: Value) {
    if v.Array? then x in v.items else if v.Missing? then x == Null else x == v
  }

  /** Two fields meet when they stand for values the BSON order ties. */
  ghost predicate Meets(a: Value, b: Value) {
    exists x, y :: StandsFor(a, x) && StandsFor(b, y) && Compare(x, y) == 0
  }

  lemma CandidatesStand(v: Value, x: Value)
    ensures StandsFor(v, x) <==> x in JoinCandidates(v)
  {}

  lemma OverlapMeets(a: Value, b: Value)
    requires JoinOverlaps(JoinCandidates(a), b)
    ensures Meets(a, b)
  {
    hide StandsFor, JoinCandidates, Compare;
    var i, j :| 0 <= i < |JoinCandidates(a)| && 0 <= j < |JoinCandidates(b)|
                && Equal(JoinCandidates(a)[i], JoinCandidates(b)[j]);
    CandidatesStand(a, JoinCandidates(a)[i]);
    CandidatesStand(b, JoinCandidates(b)[j]);
  }

  lemma OverlapAt(want: seq<Value>, b: Value, i: nat, j: nat)
    requires i < |want| && j < |JoinCandidates(b)| && Compare(want[i], JoinCandidates(b)[j]) == 0
    ensures JoinOverlaps(want, b)
  {
    hide JoinCandidates, Compare;
    assert Equal(want[i], JoinCandidates(b)[j]);
  }

  lemma OverlapIsMeeting(a: Value, b: Value)
    ensures JoinOverlaps(JoinCandidates(a), b) <==> Meets(a, b)
  {
    hide StandsFor, JoinCandidates, Compare, JoinOverlaps;
    if JoinOverlaps(JoinCandidates(a), b) { hide Meets; OverlapMeets(a, b); }
    if Meets(a, b) {
      var x, y :| StandsFor(a, x) && StandsFor(b, y) && Compare(x, y) == 0;
      CandidatesStand(a, x);
      CandidatesStand(b, y);
      var i :| 0 <= i < |JoinCandidates(a)| && JoinCandidates(a)[i] == x;
      var j :| 0 <= j < |JoinCandidates(b)| && JoinCandidates(b)[j] == y;
      OverlapAt(JoinCandidates(a), b, i, j);
    }
  }

  /**
   The nested loop lists, in foreign order and without repeats, exactly the documents whose field
   meets the local one.
   */
  lemma {:induction false} NestedLoopLists(local: Value, fvs: seq<Value>)
    ensures forall i: nat :: i in NestedLoop(local, fvs) <==> i < |fvs| && Meets(local, fvs[i])
    ensures forall x, y :: 0 <= x < y < |NestedLoop(local, fvs)|
                           ==> NestedLoop(local, fvs)[x] < NestedLoop(local, fvs)[y]
    decreases |fvs|
  {
    hide JoinOverlaps, Meets, JoinCandidates;
    if fvs != [] {
      var head, last := fvs[..|fvs| - 1], |fvs| - 1;
      NestedLoopLists(local, head);
      OverlapIsMeeting(local, fvs[last]);
      var before := NestedLoop(local, head);
      forall x | 0 <= x < |before| ensures before[x] < last { assert before[x] in before; }
      forall i: nat ensures i in NestedLoop(local, fvs) <==> i < |fvs| && Meets(local, fvs[i]) {
        if i < last { assert head[i] == fvs[i]; }
      }
    }
  }

  // ---- graph lookup ------------------------------------------------------------------------------

  /** A value of the frontier as it is compared: missing counts as null. */
  function AsValue(x: Value): Value { if x.Missing? then Null else x }

  /** The document is admitted and its connecting field stands for one of these values. */
  ghost predicate Admits(vals: seq<Value>, n: Node) {
    n.allowed && exists x, y :: x in vals && StandsFor(n.to, y) && Compare(AsValue(x), y) == 0
  }

  lemma HitIsAdmitted(vals: seq<Value>, n: Node)
    ensures HitBy(vals, n) <==> Admits(vals, n)
  {
    hide StandsFor, JoinCandidates, Compare;
    if HitBy(vals, n) {
      var i :| 0 <= i < |vals| && Hits(vals[i], n);
      var want := [CmpVal(vals[i])];
      var a, j :| 0 <= a < |want| && 0 <= j < |JoinCandidates(n.to)| && Equal(want[a], JoinCandidates(n.to)[j]);
      CandidatesStand(n.to, JoinCandidates(n.to)[j]);
      assert vals[i] in vals && Compare(AsValue(vals[i]), JoinCandidates(n.to)[j]) == 0;
    }
    if Admits(vals, n) {
      var x, y :| x in vals && StandsFor(n.to, y) && Compare(AsValue(x), y) == 0;
      CandidatesStand(n.to, y);
      var i :| 0 <= i < |vals| && vals[i] == x;
      var j :| 0 <= j < |JoinCandidates(n.to)| && JoinCandidates(n.to)[j] == y;
      var want := [CmpVal(vals[i])];
      assert Equal(want[0], JoinCandidates(n.to)[j]);
      assert Hits(vals[i], n);
    }
  }

  /** The values a document passes on. */
  ghost predicate LinksTo(a: Node, b: Node) {
    b.allowed && exists x, y :: StandsFor(a.from, x) && StandsFor(b.to, y) && Compare(AsValue(x), y) == 0
  }

  lemma LinkIs(a: Node, b: Node)
    ensures HitBy(JoinCandidates(a.from), b) <==> LinksTo(a, b)
  {
    hide StandsFor, JoinCandidates, Compare, HitBy;
    HitIsAdmitted(JoinCandidates(a.from), b);
    forall x ensures StandsFor(a.from, x) <==> x in JoinCandidates(a.from) { CandidatesStand(a.from, x); }
  }

  /** A path: admitted documents only, the first reached from the seeds, each next from the one before. */
  lemma PathMeans(g: seq<Node>, seeds: seq<Value>, p: seq<nat>)
    ensures IsPath(g, seeds, p) <==>
            && p != [] && (forall i :: 0 <= i < |p| ==> p[i] < |g|)
            && Admits(seeds, g[p[0]]) && (forall i :: 0 < i < |p| ==> LinksTo(g[p[i - 1]], g[p[i]]))
  {
    hide HitBy, Admits, LinksTo, JoinCandidates;
    if p != [] && forall i :: 0 <= i < |p| ==> p[i] < |g| {
      HitIsAdmitted(seeds, g[p[0]]);
      forall i | 0 < i < |p| ensures HitBy(JoinCandidates(g[p[i - 1]].from), g[p[i]])
          <==> LinksTo(g[p[i - 1]], g[p[i]]) {
        LinkIs(g[p[i - 1]], g[p[i]]);
      }
    }
  }

  /** Whatever the search emits passed the restriction. */
  lemma EmittedAreAdmitted(g: seq<Node>, seeds: seq<Value>, j: nat, n: nat)
    requires HasPath(g, seeds, j, n)
    ensures j < |g| && g[j].allowed
  {
    hide JoinCandidates, HitBy, StandsFor, Compare;
    var p :| PathTo(g, seeds, p, j) && |p| == n;
    PathMeans(g, seeds, p);
    if |p| > 1 { assert LinksTo(g[p[|p| - 2]], g[p[|p| - 1]]); }
  }
}
