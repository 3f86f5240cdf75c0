/**
 Joins over BSON values: how two join values meet, and the breadth-first graph lookup, proved
 to emit exactly the documents within reach, each once, at the length of its shortest path.
 */
module GraphLookup {
  import opened Common
  import opened Bson

  /** A missing join value counts as null. */
  function CmpVal(v: Value): Value { if v.Missing? then Null else v }

  /** The values a join value stands for: an array's items, or itself. */
  function JoinCandidates(v: Value): seq<Value> {
    if v.Array? then v.items else [CmpVal(v)]
  }

  /** Some wanted value equals some value of the foreign field. */
  predicate JoinOverlaps(want: seq<Value>, fv: Value) {
    exists i, j :: 0 <= i < |want| && 0 <= j < |JoinCandidates(fv)| && Equal(want[i], JoinCandidates(fv)[j])
  }

  /**
   A foreign document as the search sees it: both connecting fields, whether the restriction admits
   it, and its identity.
   */
  datatype Node = Node(to: Value, from: Value, allowed: bool, id: seq<byte>)

  predicate Hits(v: Value, n: Node) {
    n.allowed && JoinOverlaps([CmpVal(v)], n.to)
  }

  predicate HitBy(vals: seq<Value>, n: Node) {
    exists i :: 0 <= i < |vals| && Hits(vals[i], n)
  }

  // ---- paths --------------------------------------------------------------------------

  /** A path of admitted documents from the seed values along the connecting fields. */
  predicate IsPath(g: seq<Node>, seeds: seq<Value>, p: seq<nat>) {
    && p != [] && (forall i :: 0 <= i < |p| ==> p[i] < |g|)
    && HitBy(seeds, g[p[0]])
    && (forall i :: 0 < i < |p| ==> HitBy(JoinCandidates(g[p[i - 1]].from), g[p[i]]))
  }

  predicate PathTo(g: seq<Node>, seeds: seq<Value>, p: seq<nat>, j: nat) {
    IsPath(g, seeds, p) && p[|p| - 1] == j
  }

  /** Node `j` is at distance `d`: some path to it has that many links and none has fewer. */
  ghost predicate AtDistance(g: seq<Node>, seeds: seq<Value>, j: nat, d: nat) {
    && (exists p :: PathTo(g, seeds, p, j) && |p| == d + 1)
    && (forall p :: PathTo(g, seeds, p, j) ==> |p| > d)
  }

  /** Nodes within `d` links of the seeds. */
  function Within(g: seq<Node>, seeds: seq<Value>, d: nat): (r: set<nat>)
    ensures forall j :: j in r ==> j < |g|
  {
    if d == 0 then set j | 0 <= j < |g| && HitBy(seeds, g[j])
    else
      var prev := Within(g, seeds, d - 1);
      prev + set j | 0 <= j < |g| && LinkedFrom(g, prev, j)
  }

  predicate LinkedFrom(g: seq<Node>, from: set<nat>, j: nat)
    requires j < |g|
  {
    exists i :: i in from && i < |g| && HitBy(JoinCandidates(g[i].from), g[j])
  }

  lemma ExtendPath(g: seq<Node>, seeds: seq<Value>, q: seq<nat>, i: nat, j: nat)
    requires PathTo(g, seeds, q, i) && j < |g| && i < |g| && HitBy(JoinCandidates(g[i].from), g[j])
    ensures PathTo(g, seeds, q + [j], j)
  {
    hide HitBy, JoinCandidates;
    var p := q + [j];
    forall x | 0 < x < |p| ensures HitBy(JoinCandidates(g[p[x - 1]].from), g[p[x]]) {
      if x < |q| { assert p[x - 1] == q[x - 1] && p[x] == q[x]; }
    }
  }

  lemma SeedPath(g: seq<Node>, seeds: seq<Value>, j: nat)
    requires j < |g| && HitBy(seeds, g[j])
    ensures PathTo(g, seeds, [j], j)
  {
    hide HitBy;
  }

  lemma WithinSeeds(g: seq<Node>, seeds: seq<Value>, j: nat)
    requires j in Within(g, seeds, 0)
    ensures j < |g| && HitBy(seeds, g[j])
  {
    hide HitBy;
  }

  lemma WithinLink(g: seq<Node>, seeds: seq<Value>, d: nat, j: nat) returns (i: nat)
    requires d > 0 && j in Within(g, seeds, d) && j !in Within(g, seeds, d - 1)
    ensures j < |g| && i < |g| && i in Within(g, seeds, d - 1) && HitBy(JoinCandidates(g[i].from), g[j])
  {
    hide HitBy, JoinCandidates;
    i :| i in Within(g, seeds, d - 1) && i < |g| && HitBy(JoinCandidates(g[i].from), g[j]);
  }

  lemma {:induction false} WithinHasPath(g: seq<Node>, seeds: seq<Value>, d: nat, j: nat) returns (p: seq<nat>)
    requires j in Within(g, seeds, d)
    ensures PathTo(g, seeds, p, j) && |p| <= d + 1
    decreases d
  {
    hide HitBy, PathTo, Within;
    if d == 0 {
      WithinSeeds(g, seeds, j);
      p := [j];
      SeedPath(g, seeds, j);
    } else if j in Within(g, seeds, d - 1) {
      p := WithinHasPath(g, seeds, d - 1, j);
    } else {
      var i := WithinLink(g, seeds, d, j);
      var q := WithinHasPath(g, seeds, d - 1, i);
      ExtendPath(g, seeds, q, i, j);
      p := q + [j];
    }
  }

  lemma OneNode(g: seq<Node>, seeds: seq<Value>, p: seq<nat>, j: nat)
    requires PathTo(g, seeds, p, j) && |p| == 1
    ensures j < |g| && HitBy(seeds, g[j])
  {
    hide HitBy;
  }

  lemma CutPath(g: seq<Node>, seeds: seq<Value>, p: seq<nat>, j: nat)
    requires PathTo(g, seeds, p, j) && |p| > 1
    ensures PathTo(g, seeds, p[..|p| - 1], p[|p| - 2])
    ensures j < |g| && p[|p| - 2] < |g| && HitBy(JoinCandidates(g[p[|p| - 2]].from), g[j])
  {
    hide HitBy, JoinCandidates;
  }

  lemma {:induction false} PathIsWithin(g: seq<Node>, seeds: seq<Value>, p: seq<nat>, j: nat, d: nat)
    requires PathTo(g, seeds, p, j) && |p| <= d + 1
    ensures j in Within(g, seeds, d)
    decreases d
  {
    hide HitBy, PathTo, Within, JoinCandidates;
    if |p| == 1 {
      OneNode(g, seeds, p, j);
      if d > 0 { PathIsWithin(g, seeds, p, j, d - 1); }
      WithinStep(g, seeds, j, d);
    } else {
      PathNonEmpty(g, seeds, p, j);
      CutPath(g, seeds, p, j);
      PathIsWithin(g, seeds, p[..|p| - 1], p[|p| - 2], d - 1);
      assert LinkedFrom(g, Within(g, seeds, d - 1), j);
      WithinStep(g, seeds, j, d);
    }
  }

  lemma WithinStep(g: seq<Node>, seeds: seq<Value>, j: nat, d: nat)
    requires j < |g|
    requires if d == 0 then HitBy(seeds, g[j])
             else j in Within(g, seeds, d - 1) || LinkedFrom(g, Within(g, seeds, d - 1), j)
    ensures j in Within(g, seeds, d)
  {
    hide HitBy, LinkedFrom;
  }

  lemma PathNonEmpty(g: seq<Node>, seeds: seq<Value>, p: seq<nat>, j: nat)
    requires PathTo(g, seeds, p, j)
    ensures |p| > 0
  {}

  /** Within `d` links and not within fewer. */
  predicate Level(g: seq<Node>, seeds: seq<Value>, j: nat, d: nat) {
    j in Within(g, seeds, d) && (d > 0 ==> j !in Within(g, seeds, d - 1))
  }

  /** A node is at distance `d` exactly when it is within `d` links and not within fewer. */
  lemma DistanceIs(g: seq<Node>, seeds: seq<Value>, j: nat, d: nat)
    ensures AtDistance(g, seeds, j, d) <==> Level(g, seeds, j, d)
  {
    hide PathTo, Within;
    if AtDistance(g, seeds, j, d) {
      var p :| PathTo(g, seeds, p, j) && |p| == d + 1;
      PathIsWithin(g, seeds, p, j, d);
      if d > 0 && j in Within(g, seeds, d - 1) {
        var q := WithinHasPath(g, seeds, d - 1, j);
      }
    }
    if j in Within(g, seeds, d) && (d > 0 ==> j !in Within(g, seeds, d - 1)) {
      var p := WithinHasPath(g, seeds, d, j);
      forall q | PathTo(g, seeds, q, j) ensures |q| > d {
        PathNonEmpty(g, seeds, q, j);
        if |q| <= d { PathIsWithin(g, seeds, q, j, d - 1); }
      }
    }
  }

  // ---- the search -----------------------------------------------------------------------

  /** All outgoing values of some nodes, in order. */
  function Links(g: seq<Node>, ns: seq<nat>): seq<Value>
    requires forall i :: 0 <= i < |ns| ==> ns[i] < |g|
  {
    if ns == [] then [] else Links(g, ns[..|ns| - 1]) + JoinCandidates(g[ns[|ns| - 1]].from)
  }

  lemma HitByJoin(a: seq<Value>, b: seq<Value>, n: Node)
    ensures HitBy(a + b, n) <==> HitBy(a, n) || HitBy(b, n)
  {
    hide Hits;
    if HitBy(a, n) {
      var i :| 0 <= i < |a| && Hits(a[i], n);
      assert (a + b)[i] == a[i];
    }
    if HitBy(b, n) {
      var i :| 0 <= i < |b| && Hits(b[i], n);
      assert (a + b)[|a| + i] == b[i];
    }
  }

  lemma {:induction false} HitByLinks(g: seq<Node>, ns: seq<nat>, n: Node)
    requires forall i :: 0 <= i < |ns| ==> ns[i] < |g|
    ensures HitBy(Links(g, ns), n) <==> exists i :: i in ns && i < |g| && HitBy(JoinCandidates(g[i].from), n)
    decreases |ns|
  {
    hide Hits, JoinCandidates;
    if ns != [] {
      var rest, last := ns[..|ns| - 1], ns[|ns| - 1];
      HitByLinks(g, rest, n);
      HitByJoin(Links(g, rest), JoinCandidates(g[last].from), n);
      assert ns == rest + [last];
    }
  }

  ghost predicate DistinctIds(g: seq<Node>) {
    forall i, j :: 0 <= i < j < |g| ==> g[i].id != g[j].id
  }

  /** Distinct documents, by identity, that were not visited before. */
  ghost predicate NewNodes(g: seq<Node>, ns: seq<nat>, before: set<seq<byte>>, visited: set<seq<byte>>) {
    && (forall i :: 0 <= i < |ns| ==> ns[i] < |g| && g[ns[i]].id !in before)
    && (forall i, j :: 0 <= i < j < |ns| ==> g[ns[i]].id != g[ns[j]].id)
    && (forall x :: x in visited <==> x in before || exists i :: 0 <= i < |ns| && ns[i] < |g| && g[ns[i]].id == x)
  }

  lemma NoNewNodes(g: seq<Node>, before: set<seq<byte>>)
    ensures NewNodes(g, [], before, before)
  {}

  lemma AddNode(g: seq<Node>, ns: seq<nat>, before: set<seq<byte>>, visited: set<seq<byte>>, j: nat)
    requires NewNodes(g, ns, before, visited) && j < |g| && g[j].id !in visited
    ensures NewNodes(g, ns + [j], before, visited + {g[j].id})
  {
    var ns' := ns + [j];
    forall x ensures x in visited + {g[j].id} <==> x in before
                                                   || exists i :: 0 <= i < |ns'| && ns'[i] < |g| && g[ns'[i]].id == x {
      if exists i :: 0 <= i < |ns| && ns[i] < |g| && g[ns[i]].id == x {
        var i :| 0 <= i < |ns| && ns[i] < |g| && g[ns[i]].id == x;
        assert ns'[i] == ns[i];
      }
      if x == g[j].id { assert ns'[|ns|] == j; }
    }
  }

  ghost predicate AllHit(g: seq<Node>, ns: seq<nat>, vals: seq<Value>) {
    forall i :: 0 <= i < |ns| ==> ns[i] < |g| && HitBy(vals, g[ns[i]])
  }

  /** Every document the values reach has been visited. */
  ghost predicate Swept(g: seq<Node>, vals: seq<Value>, visited: set<seq<byte>>) {
    forall j :: 0 <= j < |g| && HitBy(vals, g[j]) ==> g[j].id in visited
  }

  lemma SweptStep(g: seq<Node>, frontier: seq<Value>, a: nat, visited: set<seq<byte>>, visited': set<seq<byte>>)
    requires a < |frontier| && Swept(g, frontier[..a], visited) && visited <= visited'
             && Swept(g, [frontier[a]], visited')
    ensures Swept(g, frontier[..a + 1], visited')
  {
    hide HitBy;
    assert frontier[..a + 1] == frontier[..a] + [frontier[a]];
    forall j | 0 <= j < |g| && HitBy(frontier[..a + 1], g[j]) ensures g[j].id in visited' {
      HitByJoin(frontier[..a], [frontier[a]], g[j]);
    }
  }

  lemma OneHits(v: Value, n: Node)
    ensures HitBy([v], n) <==> Hits(v, n)
  {
    assert [v][0] == v;
  }

  lemma SweptBy(g: seq<Node>, v: Value, visited: set<seq<byte>>)
    requires forall j :: 0 <= j < |g| && Hits(v, g[j]) ==> g[j].id in visited
    ensures Swept(g, [v], visited)
  {
    hide Hits, HitBy;
    forall j | 0 <= j < |g| && HitBy([v], g[j]) ensures g[j].id in visited { OneHits(v, g[j]); }
  }

  lemma LinksSnoc(g: seq<Node>, ns: seq<nat>, b: nat)
    requires (forall i :: 0 <= i < |ns| ==> ns[i] < |g|) && b < |g|
    ensures Links(g, ns + [b]) == Links(g, ns) + JoinCandidates(g[b].from)
  {
    hide JoinCandidates;
    assert (ns + [b])[..|ns|] == ns;
  }

  /** The part of a round one frontier value contributes. */
  method ExpandOne(g: seq<Node>, v: Value, ghost before: set<seq<byte>>, ns0: seq<nat>, visited0: set<seq<byte>>,
                   next0: seq<Value>)
    returns (ns: seq<nat>, visited: set<seq<byte>>, next: seq<Value>)
    requires NewNodes(g, ns0, before, visited0) && (forall i :: 0 <= i < |ns0| ==> ns0[i] < |g|)
             && next0 == Links(g, ns0)
    ensures NewNodes(g, ns, before, visited) && (forall i :: 0 <= i < |ns| ==> ns[i] < |g|) && next == Links(g, ns)
    ensures ns0 <= ns && (forall i :: |ns0| <= i < |ns| ==> Hits(v, g[ns[i]]))
    ensures visited0 <= visited && Swept(g, [v], visited)
  {
    hide Hits, JoinCandidates, NewNodes, Links, Swept;
    ns, visited, next := ns0, visited0, next0;
    for b := 0 to |g|
      invariant NewNodes(g, ns, before, visited) && (forall i :: 0 <= i < |ns| ==> ns[i] < |g|) && next == Links(g, ns)
      invariant ns0 <= ns && (forall i :: |ns0| <= i < |ns| ==> Hits(v, g[ns[i]]))
      invariant visited0 <= visited && (forall j :: 0 <= j < b && Hits(v, g[j]) ==> g[j].id in visited)
    {
      if Hits(v, g[b]) && g[b].id !in visited {
        AddNode(g, ns, before, visited, b);
        LinksSnoc(g, ns, b);
        visited := visited + {g[b].id};
        next := next + JoinCandidates(g[b].from);
        ns := ns + [b];
      }
    }
    SweptBy(g, v, visited);
  }

  /** One round: every admitted, unvisited document some frontier value reaches. */
  method Expand(g: seq<Node>, frontier: seq<Value>, before: set<seq<byte>>)
    returns (ns: seq<nat>, visited: set<seq<byte>>, next: seq<Value>)
    ensures NewNodes(g, ns, before, visited) && AllHit(g, ns, frontier) && Swept(g, frontier, visited)
    ensures next == Links(g, ns)
  {
    hide Hits, JoinCandidates, NewNodes, Swept, Links;
    ns, visited, next := [], before, [];
    NoNewNodes(g, before);
    NothingSwept(g, before);
    for a := 0 to |frontier|
      invariant NewNodes(g, ns, before, visited) && AllHit(g, ns, frontier) && Swept(g, frontier[..a], visited)
      invariant next == Links(g, ns)
    {
      ghost var visited0 := visited;
      ns, visited, next := ExpandOne(g, frontier[a], before, ns, visited, next);
      SweptStep(g, frontier, a, visited0, visited);
    }
    assert frontier[..|frontier|] == frontier;
  }

  lemma NothingSwept(g: seq<Node>, visited: set<seq<byte>>)
    ensures Swept(g, [], visited) && Links(g, []) == []
  {}

  /** What the search emits: a document and the depth it was found at. */
  datatype Found = Found(node: nat, depth: nat)

  function At(ns: seq<nat>, depth: nat): seq<Found> { seq(|ns|, i requires 0 <= i < |ns| => Found(ns[i], depth)) }

  /** The frontier reaches exactly what lies one link further. */
  ghost predicate Frontier(g: seq<Node>, seeds: seq<Value>, frontier: seq<Value>, depth: nat) {
    forall j :: 0 <= j < |g| ==> (j in Within(g, seeds, depth)
                                 <==> (depth > 0 && j in Within(g, seeds, depth - 1)) || HitBy(frontier, g[j]))
  }

  /** Emitted so far: each node nearer than `depth`, at its distance. */
  ghost predicate Emitted(g: seq<Node>, seeds: seq<Value>, found: seq<Found>, depth: nat) {
    forall f: Found :: f in found <==> f.depth < depth && Level(g, seeds, f.node, f.depth)
  }

  ghost predicate VisitedWithin(g: seq<Node>, seeds: seq<Value>, visited: set<seq<byte>>, depth: nat) {
    forall j :: 0 <= j < |g| ==> (g[j].id in visited <==> depth > 0 && j in Within(g, seeds, depth - 1))
  }

  /** One round under distinct identities: the new nodes are exactly the next level. */
  lemma RoundIsLevel(g: seq<Node>, seeds: seq<Value>, frontier: seq<Value>, depth: nat, before: set<seq<byte>>,
                     visited: set<seq<byte>>, ns: seq<nat>, found: seq<Found>)
    requires DistinctIds(g) && Frontier(g, seeds, frontier, depth) && VisitedWithin(g, seeds, before, depth)
             && Emitted(g, seeds, found, depth)
    requires NewNodes(g, ns, before, visited) && AllHit(g, ns, frontier) && Swept(g, frontier, visited)
    ensures forall j: nat :: j in ns <==> Level(g, seeds, j, depth)
    ensures VisitedWithin(g, seeds, visited, depth + 1) && Emitted(g, seeds, found + At(ns, depth), depth + 1)
    ensures Frontier(g, seeds, Links(g, ns), depth + 1)
  {
    LevelIs(g, seeds, frontier, depth, before, visited, ns);
    LevelEmitted(g, seeds, depth, ns, found);
    NextFrontier(g, seeds, depth, ns);
  }

  lemma LevelIs(g: seq<Node>, seeds: seq<Value>, frontier: seq<Value>, depth: nat, before: set<seq<byte>>,
                visited: set<seq<byte>>, ns: seq<nat>)
    requires DistinctIds(g) && Frontier(g, seeds, frontier, depth) && VisitedWithin(g, seeds, before, depth)
    requires NewNodes(g, ns, before, visited) && AllHit(g, ns, frontier) && Swept(g, frontier, visited)
    ensures forall j: nat :: j in ns <==> Level(g, seeds, j, depth)
    ensures VisitedWithin(g, seeds, visited, depth + 1)
  {
    hide HitBy, Within;
    forall j: nat | j < |g| ensures j in ns <==> g[j].id in visited && g[j].id !in before {
      if g[j].id in visited && g[j].id !in before {
        var i :| 0 <= i < |ns| && ns[i] < |g| && g[ns[i]].id == g[j].id;
        assert ns[i] == j;
      }
    }
    forall j: nat | j in ns ensures j < |g| {}
    forall j: nat ensures j in Within(g, seeds, depth) ==> j < |g| { WithinBounds(g, seeds, depth, j); }
    forall j: nat | j < |g| ensures j in ns ==> HitBy(frontier, g[j]) {}
  }

  lemma WithinBounds(g: seq<Node>, seeds: seq<Value>, d: nat, j: nat)
    ensures j in Within(g, seeds, d) ==> j < |g|
  {}

  lemma LevelEmitted(g: seq<Node>, seeds: seq<Value>, depth: nat, ns: seq<nat>, found: seq<Found>)
    requires Emitted(g, seeds, found, depth)
    requires forall j: nat :: j in ns <==> Level(g, seeds, j, depth)
    ensures Emitted(g, seeds, found + At(ns, depth), depth + 1)
  {
    hide Level;
    var found' := found + At(ns, depth);
    forall f: Found ensures f in found' <==> f.depth < depth + 1 && Level(g, seeds, f.node, f.depth) {
      assert f in found' <==> f in found || f in At(ns, depth);
      if f.depth == depth && f.node in ns {
        var i :| 0 <= i < |ns| && ns[i] == f.node;
        assert At(ns, depth)[i] == f;
      }
    }
  }

  lemma NextFrontier(g: seq<Node>, seeds: seq<Value>, depth: nat, ns: seq<nat>)
    requires forall i :: 0 <= i < |ns| ==> ns[i] < |g|
    requires forall j: nat :: j in ns <==> Level(g, seeds, j, depth)
    ensures Frontier(g, seeds, Links(g, ns), depth + 1)
  {
    hide HitBy, JoinCandidates, Links;
    forall j | 0 <= j < |g| ensures j in Within(g, seeds, depth + 1)
        <==> j in Within(g, seeds, depth) || HitBy(Links(g, ns), g[j]) {
      HitByLinks(g, ns, g[j]);
      if LinkedFrom(g, Within(g, seeds, depth), j) {
        var i :| i in Within(g, seeds, depth) && i < |g| && HitBy(JoinCandidates(g[i].from), g[j]);
        if i !in ns { assert LinkedFrom(g, Within(g, seeds, depth - 1), j); }
      }
    }
  }

  /** Indices whose identity has not been visited: what bounds the search. */
  ghost function Unvisited(g: seq<Node>, visited: set<seq<byte>>): set<nat> {
    set i: nat | 0 <= i < |g| && g[i].id !in visited
  }

  lemma RoundShrinks(g: seq<Node>, before: set<seq<byte>>, visited: set<seq<byte>>, ns: seq<nat>)
    requires NewNodes(g, ns, before, visited) && ns != []
    ensures |Unvisited(g, visited)| < |Unvisited(g, before)|
  {
    var i := ns[0];
    assert g[i].id in visited;
    assert i in Unvisited(g, before) && i !in Unvisited(g, visited);
    SubsetSmaller(Unvisited(g, visited), Unvisited(g, before), i);
  }

  lemma SubsetSmaller(a: set<nat>, b: set<nat>, x: nat)
    requires a <= b && x in b && x !in a
    ensures |a| < |b|
  {
    var c := b - a;
    assert b == a + c && x in c;
  }

  /** No two emitted documents share an identity, and what is visited is what was emitted. */
  ghost predicate OnceEach(g: seq<Node>, found: seq<Found>, visited: set<seq<byte>>) {
    && (forall i :: 0 <= i < |found| ==> found[i].node < |g| && g[found[i].node].id in visited)
    && (forall i, j :: 0 <= i < j < |found|
                       ==> found[i].node < |g| && found[j].node < |g| && g[found[i].node].id != g[found[j].node].id)
  }

  lemma OnceMore(g: seq<Node>, found: seq<Found>, before: set<seq<byte>>, visited: set<seq<byte>>, ns: seq<nat>,
                 depth: nat)
    requires OnceEach(g, found, before) && NewNodes(g, ns, before, visited)
    ensures OnceEach(g, found + At(ns, depth), visited)
  {
    forall i | 0 <= i < |ns| ensures g[ns[i]].id in visited {}
  }

  ghost predicate ByDepth(found: seq<Found>, depth: nat) {
    && (forall i :: 0 <= i < |found| ==> found[i].depth < depth)
    && (forall i, j :: 0 <= i < j < |found| ==> found[i].depth <= found[j].depth)
  }

  /** Nodes nearer than `depth`. */
  function Before(g: seq<Node>, seeds: seq<Value>, depth: nat): set<nat> {
    if depth == 0 then {} else Within(g, seeds, depth - 1)
  }

  /** Once a round finds nothing further, nothing lies further. */
  lemma {:induction false} Saturated(g: seq<Node>, seeds: seq<Value>, depth: nat, d: nat)
    requires Frontier(g, seeds, [], depth) && d >= depth
    ensures Within(g, seeds, d) == Before(g, seeds, depth)
    decreases d
  {
    hide HitBy, Within, Before, Frontier;
    NothingNew(g, seeds, depth);
    if d > depth {
      Saturated(g, seeds, depth, d - 1);
      SameReach(g, seeds, depth, d);
    }
  }

  lemma NothingNew(g: seq<Node>, seeds: seq<Value>, depth: nat)
    requires Frontier(g, seeds, [], depth)
    ensures Within(g, seeds, depth) == Before(g, seeds, depth)
  {
    hide HitBy, Within;
    forall j: nat ensures j in Within(g, seeds, depth) <==> j in Before(g, seeds, depth) {
      WithinBounds(g, seeds, depth, j);
      if depth > 0 { WithinBounds(g, seeds, depth - 1, j); }
      if j < |g| { EmptyHits(g[j]); }
    }
  }

  lemma EmptyHits(n: Node)
    ensures !HitBy([], n)
  {}

  lemma SameReach(g: seq<Node>, seeds: seq<Value>, depth: nat, d: nat)
    requires d > depth
    requires Within(g, seeds, d - 1) == Before(g, seeds, depth)
    requires Within(g, seeds, depth) == Before(g, seeds, depth)
    ensures Within(g, seeds, d) == Before(g, seeds, depth)
  {
    hide HitBy;
    assert Within(g, seeds, d - 1) == Within(g, seeds, depth);
  }

  /** No two emitted documents share an identity. */
  ghost predicate Once(g: seq<Node>, found: seq<Found>) {
    forall i, j :: 0 <= i < j < |found| ==> found[i].node < |g| && found[j].node < |g|
                                            && g[found[i].node].id != g[found[j].node].id
  }

  /** Nearer documents come first. */
  ghost predicate Layered(found: seq<Found>) {
    forall i, j :: 0 <= i < j < |found| ==> found[i].depth <= found[j].depth
  }

  ghost predicate HasPath(g: seq<Node>, seeds: seq<Value>, j: nat, n: nat) {
    exists p :: PathTo(g, seeds, p, j) && |p| == n
  }

  /** The frontier is what the last round's documents link to. */
  ghost predicate Reached(g: seq<Node>, seeds: seq<Value>, frontier: seq<Value>, last: seq<nat>, depth: nat) {
    && (forall i :: 0 <= i < |last| ==> last[i] < |g| && HasPath(g, seeds, last[i], depth))
    && frontier == if depth == 0 then seeds else Links(g, last)
  }

  ghost predicate Sound(g: seq<Node>, seeds: seq<Value>, found: seq<Found>, depth: nat) {
    forall f :: f in found ==> f.depth < depth && HasPath(g, seeds, f.node, f.depth + 1)
  }

  lemma RoundReaches(g: seq<Node>, seeds: seq<Value>, frontier: seq<Value>, last: seq<nat>, ns: seq<nat>, depth: nat)
    requires Reached(g, seeds, frontier, last, depth) && AllHit(g, ns, frontier)
    ensures Reached(g, seeds, Links(g, ns), ns, depth + 1)
            && forall i :: 0 <= i < |ns| ==> HasPath(g, seeds, ns[i], depth + 1)
  {
    hide HitBy, JoinCandidates, Links;
    forall i | 0 <= i < |ns| ensures HasPath(g, seeds, ns[i], depth + 1) {
      if depth == 0 {
        assert PathTo(g, seeds, [ns[i]], ns[i]);
      } else {
        HitByLinks(g, last, g[ns[i]]);
        var x :| x in last && x < |g| && HitBy(JoinCandidates(g[x].from), g[ns[i]]);
        var p :| PathTo(g, seeds, p, x) && |p| == depth;
        ExtendPath(g, seeds, p, x, ns[i]);
      }
    }
  }

  lemma SoundStep(g: seq<Node>, seeds: seq<Value>, found: seq<Found>, ns: seq<nat>, depth: nat)
    requires Sound(g, seeds, found, depth) && forall i :: 0 <= i < |ns| ==> HasPath(g, seeds, ns[i], depth + 1)
    ensures Sound(g, seeds, found + At(ns, depth), depth + 1)
  {
    hide HasPath;
  }

  lemma Summary(g: seq<Node>, seeds: seq<Value>, found: seq<Found>, visited: set<seq<byte>>, depth: nat)
    requires OnceEach(g, found, visited) && ByDepth(found, depth) && Sound(g, seeds, found, depth)
    ensures Once(g, found) && Layered(found)
    ensures forall f :: f in found ==> f.depth < depth && HasPath(g, seeds, f.node, f.depth + 1)
  {
    hide HasPath;
  }

  /** Breadth-first search from the seed values; a negative `maxDepth` means no limit. */
  method Traverse(g: seq<Node>, seeds: seq<Value>, maxDepth: int) returns (found: seq<Found>)
    ensures Once(g, found) && Layered(found)
    ensures forall f :: f in found ==> HasPath(g, seeds, f.node, f.depth + 1) && (maxDepth < 0 || f.depth <= maxDepth)
    ensures DistinctIds(g) ==> forall f: Found :: f in found
                                                  <==> AtDistance(g, seeds, f.node, f.depth)
                                                       && (maxDepth < 0 || f.depth <= maxDepth)
  {
    hide AtDistance, Frontier, Emitted, VisitedWithin, NewNodes, OnceEach, AllHit, Swept, DistinctIds, ByDepth, Links,
        HasPath, Reached, Sound;
    var frontier, visited, depth := seeds, {}, 0;
    ghost var last: seq<nat> := [];
    found := [];
    Start(g, seeds);
    while frontier != []
      invariant Reached(g, seeds, frontier, last, depth) && Sound(g, seeds, found, depth)
      invariant OnceEach(g, found, visited) && ByDepth(found, depth)
      invariant maxDepth < 0 || depth <= maxDepth + 1
      invariant DistinctIds(g) ==> Frontier(g, seeds, frontier, depth) && VisitedWithin(g, seeds, visited, depth)
                                   && Emitted(g, seeds, found, depth)
      decreases |Unvisited(g, visited)|, |frontier|
    {
      if maxDepth >= 0 && depth > maxDepth {
        if DistinctIds(g) { Complete(g, seeds, frontier, depth, maxDepth, found); }
        Summary(g, seeds, found, visited, depth);
        return;
      }
      var ns, seen, next := Expand(g, frontier, visited);
      if DistinctIds(g) { RoundIsLevel(g, seeds, frontier, depth, visited, seen, ns, found); }
      RoundReaches(g, seeds, frontier, last, ns, depth);
      SoundStep(g, seeds, found, ns, depth);
      OnceMore(g, found, visited, seen, ns, depth);
      DeeperLast(found, ns, depth);
      if ns != [] { RoundShrinks(g, visited, seen, ns); } else { NoLinks(g, visited, seen); }
      found := found + At(ns, depth);
      frontier, visited, depth, last := next, seen, depth + 1, ns;
    }
    if DistinctIds(g) { Complete(g, seeds, frontier, depth, maxDepth, found); }
    Summary(g, seeds, found, visited, depth);
  }

  lemma Start(g: seq<Node>, seeds: seq<Value>)
    ensures OnceEach(g, [], {}) && ByDepth([], 0) && Reached(g, seeds, seeds, [], 0) && Sound(g, seeds, [], 0)
    ensures Frontier(g, seeds, seeds, 0) && VisitedWithin(g, seeds, {}, 0) && Emitted(g, seeds, [], 0)
  {
    hide HitBy;
  }

  lemma NoLinks(g: seq<Node>, before: set<seq<byte>>, visited: set<seq<byte>>)
    requires NewNodes(g, [], before, visited)
    ensures Links(g, []) == [] && visited == before
  {}

  lemma DeeperLast(found: seq<Found>, ns: seq<nat>, depth: nat)
    requires ByDepth(found, depth)
    ensures ByDepth(found + At(ns, depth), depth + 1)
  {}

  lemma Complete(g: seq<Node>, seeds: seq<Value>, frontier: seq<Value>, depth: nat, maxDepth: int, found: seq<Found>)
    requires Frontier(g, seeds, frontier, depth) && Emitted(g, seeds, found, depth)
    requires maxDepth < 0 || depth <= maxDepth + 1
    requires frontier == [] || (maxDepth >= 0 && depth > maxDepth)
    ensures forall f: Found :: f in found
                               <==> AtDistance(g, seeds, f.node, f.depth) && (maxDepth < 0 || f.depth <= maxDepth)
  {
    hide AtDistance, Frontier, Within;
    forall f: Found ensures f in found <==> AtDistance(g, seeds, f.node, f.depth)
                                            && (maxDepth < 0 || f.depth <= maxDepth) {
      var d := f.depth;
      DistanceIs(g, seeds, f.node, d);
      if frontier == [] && d >= depth {
        Saturated(g, seeds, depth, d);
        if d > depth { Saturated(g, seeds, depth, d - 1); }
      }
    }
  }
}
