/**
 Sorting by a total preorder, and the bounded max-heap that keeps the K smallest documents:
 what it keeps sorts like the first K of a full sort.
 */
module Sorting {
  import opened Common

  type Cmp<!D> = (D, D) -> int

  ghost predicate Preorder<D(!new)>(cmp: Cmp<D>) {
    && (forall a, b :: cmp(a, b) == -cmp(b, a))
    && (forall a, b, c :: cmp(a, b) <= 0 && cmp(b, c) <= 0 ==> cmp(a, c) <= 0)
  }

  ghost predicate Sorted<D>(cmp: Cmp<D>, s: seq<D>) {
    forall i, j :: 0 <= i < j < |s| ==> cmp(s[i], s[j]) <= 0
  }

  // ---- the full sort --------------------------------------------------------------------

  /** Insert after everything that does not sort later. */
  function InsertSorted<D>(cmp: Cmp<D>, s: seq<D>, d: D): seq<D> {
    if s == [] || cmp(d, s[|s| - 1]) >= 0 then s + [d] else InsertSorted(cmp, s[..|s| - 1], d) + [s[|s| - 1]]
  }

  /** A stable sort. */
  function StableSort<D>(cmp: Cmp<D>, ds: seq<D>): seq<D> {
    if ds == [] then [] else InsertSorted(cmp, StableSort(cmp, ds[..|ds| - 1]), ds[|ds| - 1])
  }

  lemma {:induction false} InsertPermutes<D>(cmp: Cmp<D>, s: seq<D>, d: D)
    ensures multiset(InsertSorted(cmp, s, d)) == multiset(s) + multiset{d}
    decreases |s|
  {
    if s != [] && cmp(d, s[|s| - 1]) < 0 {
      InsertPermutes(cmp, s[..|s| - 1], d);
      assert s == s[..|s| - 1] + [s[|s| - 1]];
    }
  }

  lemma Transitive<D(!new)>(cmp: Cmp<D>, a: D, b: D, c: D)
    requires Preorder(cmp) && cmp(a, b) <= 0 && cmp(b, c) <= 0
    ensures cmp(a, c) <= 0
  {}

  lemma Flip<D(!new)>(cmp: Cmp<D>, a: D, b: D)
    requires Preorder(cmp)
    ensures cmp(a, b) == -cmp(b, a)
  {}

  /** Everything at or before `d` and `bound` stays so after insertion. */
  lemma {:induction false} InsertBounded<D>(cmp: Cmp<D>, s: seq<D>, d: D, bound: D)
    requires cmp(d, bound) <= 0 && forall i :: 0 <= i < |s| ==> cmp(s[i], bound) <= 0
    ensures forall i :: 0 <= i < |InsertSorted(cmp, s, d)| ==> cmp(InsertSorted(cmp, s, d)[i], bound) <= 0
    decreases |s|
  {
    if s != [] && cmp(d, s[|s| - 1]) < 0 { InsertBounded(cmp, s[..|s| - 1], d, bound); }
  }

  lemma {:induction false} InsertSorts<D(!new)>(cmp: Cmp<D>, s: seq<D>, d: D)
    requires Preorder(cmp) && Sorted(cmp, s)
    ensures Sorted(cmp, InsertSorted(cmp, s, d))
    decreases |s|
  {
    hide Preorder;
    if s == [] {
    } else if cmp(d, s[|s| - 1]) >= 0 {
      Flip(cmp, d, s[|s| - 1]);
      forall i | 0 <= i < |s| ensures cmp(s[i], d) <= 0 {
        if i < |s| - 1 { Transitive(cmp, s[i], s[|s| - 1], d); }
      }
    } else {
      var head, last := s[..|s| - 1], s[|s| - 1];
      InsertSorts(cmp, head, d);
      InsertBounded(cmp, head, d, last);
    }
  }

  lemma {:induction false} StableSortSorts<D(!new)>(cmp: Cmp<D>, ds: seq<D>)
    requires Preorder(cmp)
    ensures Sorted(cmp, StableSort(cmp, ds)) && multiset(StableSort(cmp, ds)) == multiset(ds)
    ensures |StableSort(cmp, ds)| == |ds|
    decreases |ds|
  {
    if ds != [] {
      StableSortSorts(cmp, ds[..|ds| - 1]);
      InsertSorts(cmp, StableSort(cmp, ds[..|ds| - 1]), ds[|ds| - 1]);
      InsertPermutes(cmp, StableSort(cmp, ds[..|ds| - 1]), ds[|ds| - 1]);
      assert ds == ds[..|ds| - 1] + [ds[|ds| - 1]];
    }
    assert |StableSort(cmp, ds)| == |multiset(StableSort(cmp, ds))| && |ds| == |multiset(ds)|;
  }

  // ---- sorted permutations agree key by key ------------------------------------------------

  /** How many elements sort at or before `x`. */
  function CountUpTo<D>(cmp: Cmp<D>, s: seq<D>, x: D): nat {
    if s == [] then 0 else CountUpTo(cmp, s[..|s| - 1], x) + if cmp(s[|s| - 1], x) <= 0 then 1 else 0
  }

  lemma {:induction false} CountWithout<D>(cmp: Cmp<D>, s: seq<D>, i: nat, x: D)
    requires i < |s|
    ensures CountUpTo(cmp, s, x) == CountUpTo(cmp, s[..i] + s[i + 1..], x) + if cmp(s[i], x) <= 0 then 1 else 0
    decreases |s|
  {
    if i == |s| - 1 {
      assert s[..i] + s[i + 1..] == s[..|s| - 1];
    } else {
      var head := s[..|s| - 1];
      CountWithout(cmp, head, i, x);
      var t := s[..i] + s[i + 1..];
      assert t[..|t| - 1] == head[..i] + head[i + 1..];
    }
  }

  /** The last element of a sequence, found in and removed from a permutation of it. */
  lemma LastElsewhere<D>(s: seq<D>, t: seq<D>) returns (i: nat)
    requires s != [] && multiset(s) == multiset(t)
    ensures i < |t| && t[i] == s[|s| - 1] && multiset(t[..i] + t[i + 1..]) == multiset(s[..|s| - 1])
  {
    var last := s[|s| - 1];
    assert s == s[..|s| - 1] + [last];
    assert last in multiset(t);
    i :| 0 <= i < |t| && t[i] == last;
    assert t == t[..i] + [t[i]] + t[i + 1..];
    assert multiset(t[..i] + t[i + 1..]) == multiset(t) - multiset{last};
    assert multiset(s[..|s| - 1]) == multiset(s) - multiset{last};
  }

  lemma {:induction false} CountPermutes<D>(cmp: Cmp<D>, s: seq<D>, t: seq<D>, x: D)
    requires multiset(s) == multiset(t)
    ensures CountUpTo(cmp, s, x) == CountUpTo(cmp, t, x)
    decreases |s|
  {
    if s == [] {
      assert |multiset(t)| == |t|;
    } else {
      var last := s[|s| - 1];
      var i := LastElsewhere(s, t);
      CountPermutes(cmp, s[..|s| - 1], t[..i] + t[i + 1..], x);
      CountWithout(cmp, t, i, x);
    }
  }

  /**
   In a sorted sequence everything up to position `i` sorts at or before it, and everything before
   `x` is left of anything after it.
   */
  lemma {:induction false} CountAtLeast<D(!new)>(cmp: Cmp<D>, s: seq<D>, i: nat, x: D)
    requires i <= |s| && forall j :: 0 <= j < i ==> cmp(s[j], x) <= 0
    ensures CountUpTo(cmp, s, x) >= i
    decreases |s|
  {
    if s != [] {
      CountAtLeast(cmp, s[..|s| - 1], if i == |s| then i - 1 else i, x);
    }
  }

  lemma {:induction false} CountAtMost<D(!new)>(cmp: Cmp<D>, s: seq<D>, i: nat, x: D)
    requires i <= |s| && forall j :: i <= j < |s| ==> cmp(s[j], x) > 0
    ensures CountUpTo(cmp, s, x) <= i
    decreases |s|
  {
    if s != [] {
      if i == |s| { CountAtMost(cmp, s[..|s| - 1], i - 1, x); } else { CountAtMost(cmp, s[..|s| - 1], i, x); }
    }
  }

  lemma StrictlyAfter<D(!new)>(cmp: Cmp<D>, x: D, y: D, z: D)
    requires Preorder(cmp) && cmp(x, y) < 0 && (y == z || cmp(y, z) <= 0)
    ensures cmp(z, x) > 0
  {
    Flip(cmp, x, y);
    if cmp(z, x) <= 0 && cmp(y, z) <= 0 { Transitive(cmp, y, z, x); }
  }

  lemma NotBefore<D(!new)>(cmp: Cmp<D>, s: seq<D>, t: seq<D>, i: nat)
    requires Preorder(cmp) && Sorted(cmp, s) && Sorted(cmp, t) && multiset(s) == multiset(t) && i < |s| && i < |t|
    ensures cmp(s[i], t[i]) >= 0
  {
    if cmp(s[i], t[i]) < 0 {
      forall j | 0 <= j < i + 1 ensures cmp(s[j], s[i]) <= 0 { assert cmp(s[i], s[i]) == -cmp(s[i], s[i]); }
      CountAtLeast(cmp, s, i + 1, s[i]);
      forall j | i <= j < |t| ensures cmp(t[j], s[i]) > 0 {
        StrictlyAfter(cmp, s[i], t[i], t[j]);
      }
      CountAtMost(cmp, t, i, s[i]);
      CountPermutes(cmp, s, t, s[i]);
    }
  }

  /** Two sorted arrangements of the same elements have the same keys at every position. */
  lemma SortedUnique<D(!new)>(cmp: Cmp<D>, s: seq<D>, t: seq<D>, i: nat)
    requires Preorder(cmp) && Sorted(cmp, s) && Sorted(cmp, t) && multiset(s) == multiset(t) && i < |s|
    ensures |t| == |s| && cmp(s[i], t[i]) == 0
  {
    assert |s| == |multiset(s)| && |t| == |multiset(t)|;
    NotBefore(cmp, s, t, i);
    NotBefore(cmp, t, s, i);
    assert cmp(s[i], t[i]) == -cmp(t[i], s[i]);
  }

  // ---- stability ----------------------------------------------------------------------------

  /** The elements that tie with `x`, in order. */
  function Ties<D>(cmp: Cmp<D>, s: seq<D>, x: D): seq<D> {
    if s == [] then [] else Ties(cmp, s[..|s| - 1], x) + if cmp(s[|s| - 1], x) == 0 then [s[|s| - 1]] else []
  }

  lemma TiesSnoc<D>(cmp: Cmp<D>, s: seq<D>, d: D, x: D)
    ensures Ties(cmp, s + [d], x) == Ties(cmp, s, x) + if cmp(d, x) == 0 then [d] else []
  {
    assert (s + [d])[..|s + [d]| - 1] == s;
  }

  lemma {:induction false} InsertIsStable<D(!new)>(cmp: Cmp<D>, s: seq<D>, d: D, x: D)
    requires Preorder(cmp)
    ensures Ties(cmp, InsertSorted(cmp, s, d), x) == Ties(cmp, s + [d], x)
    decreases |s|
  {
    hide Ties;
    if s != [] && cmp(d, s[|s| - 1]) < 0 {
      var head, last := s[..|s| - 1], s[|s| - 1];
      InsertIsStable(cmp, head, d, x);
      assert s == head + [last];
      TiesSnoc(cmp, head, last, x);
      TiesSnoc(cmp, s, d, x);
      TiesSnoc(cmp, head, d, x);
      TiesSnoc(cmp, InsertSorted(cmp, head, d), last, x);
      if cmp(d, x) == 0 && cmp(last, x) == 0 {
        Flip(cmp, last, x); Flip(cmp, d, last);
        Transitive(cmp, last, x, d);
        assert false by { Flip(cmp, d, x); }
      }
    }
  }

  /** The sort keeps elements that tie in the order they came. */
  lemma {:induction false} StableSortIsStable<D(!new)>(cmp: Cmp<D>, ds: seq<D>, x: D)
    requires Preorder(cmp)
    ensures Ties(cmp, StableSort(cmp, ds), x) == Ties(cmp, ds, x)
    decreases |ds|
  {
    hide Preorder, Ties;
    if ds != [] {
      var head, last := ds[..|ds| - 1], ds[|ds| - 1];
      StableSortIsStable(cmp, head, x);
      InsertIsStable(cmp, StableSort(cmp, head), last, x);
      TiesSnoc(cmp, StableSort(cmp, head), last, x);
      TiesSnoc(cmp, head, last, x);
      assert ds == head + [last];
    }
  }

  /** Sequences that tie position by position and agree on every class of ties are equal. */
  lemma {:induction false} TiesDetermine<D(!new)>(cmp: Cmp<D>, s: seq<D>, t: seq<D>)
    requires Preorder(cmp) && |s| == |t| && forall i :: 0 <= i < |s| ==> cmp(s[i], t[i]) == 0
    requires forall x :: Ties(cmp, s, x) == Ties(cmp, t, x)
    ensures s == t
    decreases |s|
  {
    hide Preorder, Ties;
    if s != [] {
      var a, b, u, v := s[..|s| - 1], t[..|t| - 1], s[|s| - 1], t[|t| - 1];
      assert s == a + [u] && t == b + [v];
      assert cmp(u, v) == 0;
      Flip(cmp, v, v); Flip(cmp, u, v);
      TiesSnoc(cmp, a, u, v);
      TiesSnoc(cmp, b, v, v);
      var w := Ties(cmp, s, v);
      assert w[|w| - 1] == u == v;
      forall x ensures Ties(cmp, a, x) == Ties(cmp, b, x) {
        TiesSnoc(cmp, a, u, x);
        TiesSnoc(cmp, b, u, x);
        assert Ties(cmp, s, x) == Ties(cmp, t, x);
        var w := Ties(cmp, s, x);
        if cmp(u, x) == 0 {
          assert Ties(cmp, a, x) == w[..|w| - 1] == Ties(cmp, b, x);
        } else {
          assert Ties(cmp, a, x) + [] == Ties(cmp, a, x) && Ties(cmp, b, x) + [] == Ties(cmp, b, x);
        }
      }
      TiesDetermine(cmp, a, b);
    }
  }

  /** Elements that tie under a finer order also tie under a coarser one, so the coarser ties decide the finer. */
  lemma {:induction false} TiesWithin<D>(coarse: Cmp<D>, fine: Cmp<D>, s: seq<D>, x: D)
    requires forall y :: y in s && fine(y, x) == 0 ==> coarse(y, x) == 0
    ensures Ties(fine, s, x) == Ties(fine, Ties(coarse, s, x), x)
    decreases |s|
  {
    if s != [] {
      var head, last := s[..|s| - 1], s[|s| - 1];
      TiesWithin(coarse, fine, head, x);
      var met := Ties(coarse, head, x);
      TiesSnoc(fine, met, last, x);
      assert met + [] == met && Ties(fine, head, x) + [] == Ties(fine, head, x);
    }
  }

  /** The order `a` tells apart nothing that `b` ties. */
  ghost predicate Coarser<D(!new)>(a: Cmp<D>, b: Cmp<D>) {
    forall x, y :: b(x, y) == 0 ==> a(x, y) == 0
  }

  /** Sorting first by a coarser order does not show after the sort. */
  lemma CoarserSortIsLost<D(!new)>(a: Cmp<D>, b: Cmp<D>, ds: seq<D>)
    requires Preorder(a) && Preorder(b) && Coarser(a, b)
    ensures StableSort(b, StableSort(a, ds)) == StableSort(b, ds)
  {
    hide Preorder, Ties, StableSort;
    var first := StableSort(a, ds);
    StableSortSorts(a, ds);
    StableSortSorts(b, first);
    StableSortSorts(b, ds);
    var both, one := StableSort(b, first), StableSort(b, ds);
    forall i | 0 <= i < |both| ensures b(both[i], one[i]) == 0 { SortedUnique(b, both, one, i); }
    forall x ensures Ties(b, both, x) == Ties(b, one, x) {
      StableSortIsStable(b, first, x);
      StableSortIsStable(b, ds, x);
      StableSortIsStable(a, ds, x);
      TiesWithin(a, b, first, x);
      TiesWithin(a, b, ds, x);
    }
    TiesDetermine(b, both, one);
  }

  /** Sorting first by an order that tells `x` and `y` apart shows on these two when the second does not. */
  lemma FinerSortShows<D(!new)>(a: Cmp<D>, b: Cmp<D>, x: D, y: D)
    requires Preorder(a) && Preorder(b) && b(x, y) == 0 && a(x, y) < 0
    ensures StableSort(b, StableSort(a, [y, x])) == [x, y] && StableSort(b, [y, x]) == [y, x] && x != y
  {
    Flip(a, x, y); Flip(b, x, y); Flip(a, x, x);
    PairSorts(a, y, x);
    PairSorts(b, y, x);
    PairSorts(b, x, y);
  }

  lemma PairSorts<D>(cmp: Cmp<D>, x: D, y: D)
    ensures StableSort(cmp, [x, y]) == if cmp(y, x) >= 0 then [x, y] else [y, x]
  {
    assert [x, y][..1] == [x] && [x][..0] == [];
    assert StableSort(cmp, [x]) == [x];
    assert InsertSorted(cmp, [], y) == [y];
  }

  // ---- what a top-K selection is --------------------------------------------------------------

  /** `kept` holds the first `k` of the input in sort order, up to ties; `dropped` is the rest. */
  ghost predicate TopK<D>(cmp: Cmp<D>, input: seq<D>, k: nat, kept: seq<D>, dropped: multiset<D>) {
    && multiset(kept) + dropped == multiset(input)
    && |kept| == (if |input| < k then |input| else k)
    && (forall d, i :: d in dropped && 0 <= i < |kept| ==> cmp(kept[i], d) <= 0)
  }

  lemma {:induction false} SeqOf<D>(m: multiset<D>) returns (s: seq<D>)
    ensures multiset(s) == m
    decreases |m|
  {
    if |m| == 0 {
      s := [];
    } else {
      var x :| x in m;
      var r := SeqOf(m - multiset{x});
      s := r + [x];
      assert multiset(s) == multiset(r) + multiset{x};
    }
  }

  /** A sorted top-K selection has, position by position, the keys of the first K of the full sort. */
  lemma TopKIsSortPrefix<D(!new)>(cmp: Cmp<D>, input: seq<D>, k: nat, kept: seq<D>, dropped: multiset<D>, i: nat)
    requires Preorder(cmp) && TopK(cmp, input, k, kept, dropped) && Sorted(cmp, kept) && i < |kept|
    ensures |StableSort(cmp, input)| == |input| && i < |input| && cmp(kept[i], StableSort(cmp, input)[i]) == 0
  {
    var rest := SeqOf(dropped);
    StableSortSorts(cmp, rest);
    StableSortSorts(cmp, input);
    var tail := StableSort(cmp, rest);
    var all := kept + tail;
    assert multiset(all) == multiset(input);
    forall x, y | 0 <= x < y < |all| ensures cmp(all[x], all[y]) <= 0 {
      if x < |kept| <= y { assert tail[y - |kept|] in multiset(tail); }
    }
    SortedUnique(cmp, all, StableSort(cmp, input), i);
  }

  // ---- the heap ---------------------------------------------------------------------------------

  function Parent(k: nat): nat
    requires k > 0
  {
    (k - 1) / 2
  }

  /** The first `n` elements form a max-heap. */
  ghost predicate Heap<D>(cmp: Cmp<D>, s: seq<D>, n: nat)
    requires n <= |s|
  {
    forall k :: 0 < k < n ==> cmp(s[Parent(k)], s[k]) >= 0
  }

  /** A heap but for the link above `j`, whose children are still under its parent. */
  ghost predicate HeapUp<D>(cmp: Cmp<D>, s: seq<D>, n: nat, j: nat)
    requires n <= |s|
  {
    && (forall k :: 0 < k < n && k != j ==> cmp(s[Parent(k)], s[k]) >= 0)
    && (forall k :: 0 < k < n && Parent(k) == j && j > 0 ==> cmp(s[Parent(j)], s[k]) >= 0)
  }

  /** A heap but for the links below `i`, whose children are still under its parent. */
  ghost predicate HeapDown<D>(cmp: Cmp<D>, s: seq<D>, n: nat, i: nat)
    requires n <= |s|
  {
    && (forall k :: 0 < k < n && Parent(k) != i ==> cmp(s[Parent(k)], s[k]) >= 0)
    && (forall k :: 0 < k < n && Parent(k) == i && 0 < i < n ==> cmp(s[Parent(i)], s[k]) >= 0)
  }

  function Swapped<D>(s: seq<D>, i: nat, j: nat): seq<D>
    requires i < |s| && j < |s|
  {
    s[i := s[j]][j := s[i]]
  }

  lemma SwapPermutes<D>(s: seq<D>, i: nat, j: nat)
    requires i < |s| && j < |s|
    ensures multiset(Swapped(s, i, j)) == multiset(s) && |Swapped(s, i, j)| == |s|
  {}

  lemma SwapUp<D(!new)>(cmp: Cmp<D>, s: seq<D>, n: nat, j: nat)
    requires Preorder(cmp) && n <= |s| && 0 < j < n && HeapUp(cmp, s, n, j) && cmp(s[j], s[Parent(j)]) > 0
    ensures HeapUp(cmp, Swapped(s, Parent(j), j), n, Parent(j))
  {
    hide Preorder;
    var i, t := Parent(j), Swapped(s, Parent(j), j);
    Flip(cmp, s[j], s[i]);
    forall k | 0 < k < n && k != i ensures cmp(t[Parent(k)], t[k]) >= 0 {
      if k == j {
      } else if Parent(k) == i {
        Flip(cmp, s[i], s[k]);
        Flip(cmp, s[k], s[j]);
        Transitive(cmp, s[k], s[i], s[j]);
      } else if Parent(k) == j {
        assert t[Parent(k)] == s[i];
      }
    }
    forall k | 0 < k < n && Parent(k) == i && i > 0 ensures cmp(t[Parent(i)], t[k]) >= 0 {
      assert cmp(s[Parent(i)], s[i]) >= 0;
      if k != j {
        Flip(cmp, s[Parent(i)], s[i]); Flip(cmp, s[i], s[k]);
        Transitive(cmp, s[k], s[i], s[Parent(i)]);
        Flip(cmp, s[k], s[Parent(i)]);
      }
    }
  }

  lemma SwapDown<D(!new)>(cmp: Cmp<D>, s: seq<D>, n: nat, i: nat, j: nat)
    requires Preorder(cmp) && n <= |s| && i < n && 0 < j < n && Parent(j) == i && HeapDown(cmp, s, n, i)
             && cmp(s[j], s[i]) > 0
    requires forall k :: 0 < k < n && Parent(k) == i ==> cmp(s[j], s[k]) >= 0
    ensures HeapDown(cmp, Swapped(s, i, j), n, j)
  {
    hide Preorder;
    var t := Swapped(s, i, j);
    forall k | 0 < k < n && Parent(k) != j ensures cmp(t[Parent(k)], t[k]) >= 0 {
      if k == i { assert cmp(s[Parent(i)], s[j]) >= 0; }
    }
  }

  lemma {:induction false} RootIsMax<D(!new)>(cmp: Cmp<D>, s: seq<D>, n: nat, k: nat)
    requires Preorder(cmp) && n <= |s| && Heap(cmp, s, n) && k < n
    ensures cmp(s[k], s[0]) <= 0
  {
    hide Preorder;
    Flip(cmp, s[0], s[0]);
    if k > 0 {
      RootIsMax(cmp, s, n, Parent(k));
      Flip(cmp, s[Parent(k)], s[k]);
      Transitive(cmp, s[k], s[Parent(k)], s[0]);
    }
  }

  /** The max-heap of documents kept so far, with the sift operations of a binary heap. */
  class TopKHeap<D(!new)> {
    const cmp: Cmp<D>
    var docs: seq<D>

    constructor (cmp: Cmp<D>)
      ensures docs == [] && this.cmp == cmp
    {
      this.cmp := cmp;
      docs := [];
    }

    /** Sift the element at `j0` towards the root. */
    method Up(j0: nat)
      requires Preorder(cmp) && j0 < |docs| && HeapUp(cmp, docs, |docs|, j0)
      modifies this
      ensures Heap(cmp, docs, |docs|) && multiset(docs) == old(multiset(docs)) && |docs| == old(|docs|)
    {
      hide Preorder;
      var j: nat := j0;
      while true
        invariant j < |docs| == old(|docs|) && HeapUp(cmp, docs, |docs|, j) && multiset(docs) == old(multiset(docs))
        decreases j
      {
        var i := if j == 0 then 0 else Parent(j);
        if i == j || !(cmp(docs[j], docs[i]) > 0) {
          if j > 0 { Flip(cmp, docs[j], docs[i]); }
          break;
        }
        SwapUp(cmp, docs, |docs|, j);
        SwapPermutes(docs, i, j);
        docs := Swapped(docs, i, j);
        j := i;
      }
    }

    /** Sift the element at `i0` down among the first `n`; elements from `n` on stay put. */
    method Down(i0: nat, n: nat) returns (moved: bool)
      requires Preorder(cmp) && n <= |docs| && i0 < |docs| && HeapDown(cmp, docs, n, i0)
      modifies this
      ensures |docs| == old(|docs|) && Heap(cmp, docs, n) && multiset(docs) == old(multiset(docs))
              && docs[n..] == old(docs[n..])
      ensures !moved ==> docs == old(docs)
    {
      hide Preorder, HeapDown, Heap;
      var i: nat := i0;
      while true
        invariant i0 <= i < |docs| == old(|docs|) && HeapDown(cmp, docs, n, i) && multiset(docs) == old(multiset(docs))
                  && docs[n..] == old(docs[n..])
        invariant i == i0 ==> docs == old(docs)
        decreases |docs| - i
      {
        var j1 := 2 * i + 1;
        if j1 >= n {
          AtBottom(cmp, docs, n, i);
          break;
        }
        var j, j2 := j1, j1 + 1;
        if j2 < n && cmp(docs[j2], docs[j1]) > 0 { j := j2; }
        Larger(cmp, docs, n, i, j);
        if !(cmp(docs[j], docs[i]) > 0) {
          Settled(cmp, docs, n, i, j);
          break;
        }
        SwapDown(cmp, docs, n, i, j);
        SwapPermutes(docs, i, j);
        SwapFrame(docs, i, j, n);
        docs := Swapped(docs, i, j);
        i := j;
      }
      moved := i > i0;
    }

    method Push(d: D)
      requires Preorder(cmp) && Heap(cmp, docs, |docs|)
      modifies this
      ensures Heap(cmp, docs, |docs|) && multiset(docs) == old(multiset(docs)) + multiset{d}
              && |docs| == old(|docs|) + 1
    {
      docs := docs + [d];
      Up(|docs| - 1);
    }

    /** Put `d` in the root's place. */
    method ReplaceRoot(d: D)
      requires Preorder(cmp) && docs != [] && Heap(cmp, docs, |docs|)
      modifies this
      ensures Heap(cmp, docs, |docs|) && multiset(docs) == old(multiset(docs)) - multiset{old(docs[0])} + multiset{d}
              && |docs| == old(|docs|)
    {
      RootReplaced(docs, d);
      docs := docs[0 := d];
      var moved := Down(0, |docs|);
      if !moved { Up(0); }
    }

    method Pop() returns (d: D)
      requires Preorder(cmp) && docs != [] && Heap(cmp, docs, |docs|)
      modifies this
      ensures d == old(docs[0]) && Heap(cmp, docs, |docs|) && multiset(docs) + multiset{d} == old(multiset(docs))
              && |docs| == old(|docs|) - 1
    {
      var n := |docs| - 1;
      SwapPermutes(docs, 0, n);
      docs := Swapped(docs, 0, n);
      d := docs[n];
      var moved := Down(0, n);
      assert docs[n..] == [d];
      assert docs == docs[..n] + [d];
      docs := docs[..n];
    }
  }

  lemma SwapFrame<D>(s: seq<D>, i: nat, j: nat, n: nat)
    requires i < n <= |s| && j < n
    ensures Swapped(s, i, j)[n..] == s[n..]
  {}

  lemma AtBottom<D>(cmp: Cmp<D>, s: seq<D>, n: nat, i: nat)
    requires n <= |s| && HeapDown(cmp, s, n, i) && 2 * i + 1 >= n
    ensures Heap(cmp, s, n)
  {}

  lemma RootReplaced<D>(s: seq<D>, d: D)
    requires s != []
    ensures multiset(s[0 := d]) == multiset(s) - multiset{s[0]} + multiset{d}
  {}

  /** The chosen child is the larger. */
  lemma Larger<D(!new)>(cmp: Cmp<D>, s: seq<D>, n: nat, i: nat, j: nat)
    requires Preorder(cmp) && n <= |s| && i < |s| && 2 * i + 1 < n
    requires j == if 2 * i + 2 < n && cmp(s[2 * i + 2], s[2 * i + 1]) > 0 then 2 * i + 2 else 2 * i + 1
    ensures 0 < j < n && Parent(j) == i && forall k :: 0 < k < n && Parent(k) == i ==> cmp(s[j], s[k]) >= 0
  {
    hide Preorder;
    forall k | 0 < k < n && Parent(k) == i ensures cmp(s[j], s[k]) >= 0 {
      assert k == 2 * i + 1 || k == 2 * i + 2;
      Flip(cmp, s[j], s[j]);
      Flip(cmp, s[j], s[k]);
    }
  }

  lemma Settled<D(!new)>(cmp: Cmp<D>, s: seq<D>, n: nat, i: nat, j: nat)
    requires Preorder(cmp) && n <= |s| && i < |s| && 0 < j < n && Parent(j) == i && HeapDown(cmp, s, n, i)
             && cmp(s[j], s[i]) <= 0
    requires forall k :: 0 < k < n && Parent(k) == i ==> cmp(s[j], s[k]) >= 0
    ensures Heap(cmp, s, n)
  {
    hide Preorder;
    forall k | 0 < k < n && Parent(k) == i ensures cmp(s[i], s[k]) >= 0 {
      Flip(cmp, s[j], s[k]);
      Transitive(cmp, s[k], s[j], s[i]);
      Flip(cmp, s[k], s[i]);
    }
  }

  // ---- keeping the K smallest ---------------------------------------------------------------------

  ghost predicate AtOrBefore<D>(cmp: Cmp<D>, kept: seq<D>, dropped: multiset<D>) {
    forall d, i :: d in dropped && 0 <= i < |kept| ==> cmp(kept[i], d) <= 0
  }

  /** Same elements, same bound. */
  lemma AtOrBeforePermutes<D>(cmp: Cmp<D>, s: seq<D>, t: seq<D>, dropped: multiset<D>)
    requires multiset(t) <= multiset(s) && AtOrBefore(cmp, s, dropped)
    ensures AtOrBefore(cmp, t, dropped)
  {
    forall d, i | d in dropped && 0 <= i < |t| ensures cmp(t[i], d) <= 0 {
      assert t[i] in multiset(t);
      assert t[i] in multiset(s);
      var j :| 0 <= j < |s| && s[j] == t[i];
    }
  }

  /** A document not before the root is dropped. */
  lemma DropNew<D(!new)>(cmp: Cmp<D>, h: seq<D>, dropped: multiset<D>, doc: D)
    requires Preorder(cmp) && h != [] && Heap(cmp, h, |h|) && AtOrBefore(cmp, h, dropped) && cmp(doc, h[0]) >= 0
    ensures AtOrBefore(cmp, h, dropped + multiset{doc})
  {
    hide Preorder;
    forall d, i | d in dropped + multiset{doc} && 0 <= i < |h| ensures cmp(h[i], d) <= 0 {
      if d !in dropped {
        RootIsMax(cmp, h, |h|, i);
        Flip(cmp, doc, h[0]);
        Transitive(cmp, h[i], h[0], doc);
      }
    }
  }

  /** A document before the root takes its place, and the root is dropped. */
  lemma DropRoot<D(!new)>(cmp: Cmp<D>, h: seq<D>, dropped: multiset<D>, doc: D)
    requires Preorder(cmp) && h != [] && Heap(cmp, h, |h|) && AtOrBefore(cmp, h, dropped) && cmp(doc, h[0]) < 0
    ensures AtOrBefore(cmp, h[0 := doc], dropped + multiset{h[0]})
  {
    hide Preorder;
    var t := h[0 := doc];
    forall d, i | d in dropped + multiset{h[0]} && 0 <= i < |t| ensures cmp(t[i], d) <= 0 {
      if d !in dropped {
        if i > 0 { RootIsMax(cmp, h, |h|, i); }
      } else if i == 0 {
        Transitive(cmp, doc, h[0], d);
      }
    }
  }

  /** What phase one keeps true after the documents `seen`. */
  ghost predicate Keeping<D>(cmp: Cmp<D>, seen: seq<D>, limit: nat, kept: seq<D>, dropped: multiset<D>) {
    && multiset(kept) + dropped == multiset(seen) && AtOrBefore(cmp, kept, dropped)
    && |kept| == (if |seen| < limit then |seen| else limit)
    && (|kept| < limit ==> dropped == multiset{})
  }

  lemma KeepAll<D>(cmp: Cmp<D>, seen: seq<D>, limit: nat, kept: seq<D>, dropped: multiset<D>, doc: D, kept': seq<D>)
    requires Keeping(cmp, seen, limit, kept, dropped) && |kept| < limit
    requires multiset(kept') == multiset(kept) + multiset{doc} && |kept'| == |kept| + 1
    ensures Keeping(cmp, seen + [doc], limit, kept', dropped)
  {}

  lemma KeepInstead<D(!new)>(cmp: Cmp<D>, seen: seq<D>, limit: nat, kept: seq<D>, dropped: multiset<D>, doc: D,
                             kept': seq<D>)
    requires Preorder(cmp) && Keeping(cmp, seen, limit, kept, dropped) && |kept| >= limit > 0 && Heap(cmp, kept, |kept|)
             && cmp(doc, kept[0]) < 0
    requires multiset(kept') == multiset(kept) - multiset{kept[0]} + multiset{doc} && |kept'| == |kept|
    ensures Keeping(cmp, seen + [doc], limit, kept', dropped + multiset{kept[0]})
  {
    hide Preorder, Heap, AtOrBefore;
    DropRoot(cmp, kept, dropped, doc);
    RootReplaced(kept, doc);
    AtOrBeforePermutes(cmp, kept[0 := doc], kept', dropped + multiset{kept[0]});
    assert kept[0] in multiset(kept);
  }

  lemma KeepOthers<D(!new)>(cmp: Cmp<D>, seen: seq<D>, limit: nat, kept: seq<D>, dropped: multiset<D>, doc: D)
    requires Preorder(cmp) && Keeping(cmp, seen, limit, kept, dropped) && |kept| >= limit > 0 && Heap(cmp, kept, |kept|)
             && cmp(doc, kept[0]) >= 0
    ensures Keeping(cmp, seen + [doc], limit, kept, dropped + multiset{doc})
  {
    hide Preorder, Heap, AtOrBefore;
    DropNew(cmp, kept, dropped, doc);
  }

  /** Phase one: the heap of kept documents. */
  method KeepSmallest<D(!new)>(cmp: Cmp<D>, input: seq<D>, limit: nat)
    returns (h: TopKHeap<D>, ghost dropped: multiset<D>)
    requires Preorder(cmp) && limit > 0
    ensures fresh(h) && h.cmp == cmp && Heap(cmp, h.docs, |h.docs|) && TopK(cmp, input, limit, h.docs, dropped)
  {
    hide Preorder, Heap, Keeping, TopK;
    h := new TopKHeap(cmp);
    dropped := multiset{};
    NothingKept(cmp, limit);
    assert input[..0] == [];
    for i := 0 to |input|
      invariant fresh(h) && h.cmp == cmp && Heap(cmp, h.docs, |h.docs|)
      invariant Keeping(cmp, input[..i], limit, h.docs, dropped)
    {
      var doc := input[i];
      assert input[..i + 1] == input[..i] + [doc];
      ghost var before := h.docs;
      if |h.docs| < limit {
        h.Push(doc);
        KeepAll(cmp, input[..i], limit, before, dropped, doc, h.docs);
      } else if cmp(doc, h.docs[0]) < 0 {
        h.ReplaceRoot(doc);
        KeepInstead(cmp, input[..i], limit, before, dropped, doc, h.docs);
        dropped := dropped + multiset{before[0]};
      } else {
        KeepOthers(cmp, input[..i], limit, before, dropped, doc);
        dropped := dropped + multiset{doc};
      }
    }
    assert input[..|input|] == input;
    KeptIsTopK(cmp, input, limit, h.docs, dropped);
  }

  lemma NothingKept<D>(cmp: Cmp<D>, limit: nat)
    ensures Heap(cmp, [], 0) && (limit > 0 ==> Keeping(cmp, [], limit, [], multiset{}))
  {}

  lemma KeptIsTopK<D>(cmp: Cmp<D>, input: seq<D>, limit: nat, kept: seq<D>, dropped: multiset<D>)
    requires Keeping(cmp, input, limit, kept, dropped)
    ensures TopK(cmp, input, limit, kept, dropped)
  {}

  /** Phase two: emptying the heap from the back gives the kept documents in order. */
  method Drain<D(!new)>(h: TopKHeap<D>) returns (out: seq<D>)
    requires Preorder(h.cmp) && Heap(h.cmp, h.docs, |h.docs|)
    modifies h
    ensures Sorted(h.cmp, out) && multiset(out) == old(multiset(h.docs)) && |out| == old(|h.docs|)
  {
    hide Preorder, Heap;
    out := [];
    while |h.docs| > 0
      invariant Heap(h.cmp, h.docs, |h.docs|) && Sorted(h.cmp, out)
      invariant multiset(h.docs) + multiset(out) == old(multiset(h.docs)) && |h.docs| + |out| == old(|h.docs|)
      invariant forall i, j :: 0 <= i < |h.docs| && 0 <= j < |out| ==> h.cmp(h.docs[i], out[j]) <= 0
    {
      ghost var before := h.docs;
      var d := h.Pop();
      Popped(h.cmp, before, h.docs, d, out);
      assert multiset([d] + out) == multiset{d} + multiset(out);
      out := [d] + out;
    }
  }

  lemma Popped<D(!new)>(cmp: Cmp<D>, before: seq<D>, after: seq<D>, d: D, out: seq<D>)
    requires Preorder(cmp) && before != [] && Heap(cmp, before, |before|) && d == before[0]
             && multiset(after) + multiset{d} == multiset(before)
    requires forall i, j :: 0 <= i < |before| && 0 <= j < |out| ==> cmp(before[i], out[j]) <= 0
    requires Sorted(cmp, out)
    ensures Sorted(cmp, [d] + out)
    ensures forall i, j :: 0 <= i < |after| && 0 <= j < |[d] + out| ==> cmp(after[i], ([d] + out)[j]) <= 0
  {
    hide Preorder;
    var out' := [d] + out;
    forall i, j | 0 <= i < |after| && 0 <= j < |out'| ensures cmp(after[i], out'[j]) <= 0 {
      assert after[i] in multiset(after);
      assert after[i] in multiset(before);
      var x :| 0 <= x < |before| && before[x] == after[i];
      if j == 0 { RootIsMax(cmp, before, |before|, x); }
    }
  }

  /** The bounded sort: the `limit` smallest documents, in order. */
  method LoadTopK<D(!new)>(cmp: Cmp<D>, input: seq<D>, limit: nat) returns (out: seq<D>, ghost dropped: multiset<D>)
    requires Preorder(cmp) && limit > 0
    ensures Sorted(cmp, out) && TopK(cmp, input, limit, out, dropped)
  {
    hide Preorder, Heap, Sorted;
    var h, lost := KeepSmallest(cmp, input, limit);
    ghost var kept := h.docs;
    out := Drain(h);
    dropped := lost;
    KeptSorted(cmp, input, limit, kept, out, dropped);
  }

  lemma KeptSorted<D>(cmp: Cmp<D>, input: seq<D>, limit: nat, kept: seq<D>, out: seq<D>, dropped: multiset<D>)
    requires TopK(cmp, input, limit, kept, dropped) && multiset(out) == multiset(kept) && |out| == |kept|
    ensures TopK(cmp, input, limit, out, dropped)
  {
    AtOrBeforePermutes(cmp, kept, out, dropped);
  }
}
