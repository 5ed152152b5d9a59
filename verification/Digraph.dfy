/** Finite directed graphs given as sets of (parent, child) edges: walks, cycles, rotations,
    and the pigeonhole argument that turns "everybody has a predecessor" into a cycle. */
module Digraph {

  type Edges<!T(==)> = set<(T, T)>

  /** No element occurs twice. */
  ghost predicate Distinct<T>(s: seq<T>) {
    forall i, j :: 0 <= i < j < |s| ==> s[i] != s[j]
  }

  ghost function Elems<T>(s: seq<T>): set<T> {
    set x | x in s
  }

  function Last<T>(s: seq<T>): T
    requires s != []
  {
    s[|s| - 1]
  }

  /** A nonempty list of vertices, each a parent of the next one. */
  ghost predicate Walk<T>(edges: Edges<T>, w: seq<T>) {
    w != [] && forall i :: 0 <= i < |w| - 1 ==> (w[i], w[i + 1]) in edges
  }

  /** A walk whose last vertex is a parent of its first one. */
  ghost predicate ClosedWalk<T>(edges: Edges<T>, c: seq<T>) {
    Walk(edges, c) && (Last(c), c[0]) in edges
  }

  ghost predicate SimpleCycle<T>(edges: Edges<T>, c: seq<T>) {
    ClosedWalk(edges, c) && Distinct(c)
  }

  ghost predicate HasCycle<T(!new)>(edges: Edges<T>) {
    exists c: seq<T> :: ClosedWalk(edges, c)
  }

  /** `x` lies on a cycle or can be reached from one. */
  ghost predicate BelowCycle<T(!new)>(edges: Edges<T>, x: T) {
    exists c: seq<T>, w: seq<T> :: ClosedWalk(edges, c) && Walk(edges, w) && w[0] == c[0] && Last(w) == x
  }

  /** Some walk of exactly `n` vertices ends in `x`. */
  ghost predicate HasWalkTo<T(!new)>(edges: Edges<T>, x: T, n: nat) {
    exists w: seq<T> :: |w| == n && Walk(edges, w) && Last(w) == x
  }

  lemma {:induction false} DistinctBound<T>(s: seq<T>, universe: set<T>)
    requires Distinct(s) && Elems(s) <= universe
    ensures |s| <= |universe|
  {
    if s != [] {
      var rest := s[..|s| - 1];
      assert forall x :: x in rest ==> x in s;
      DistinctBound(rest, universe - {Last(s)});
    }
  }

  lemma DistinctAppend<T>(s: seq<T>, t: seq<T>)
    requires Distinct(s) && Distinct(t) && Elems(s) !! Elems(t)
    ensures Distinct(s + t)
    ensures Elems(s + t) == Elems(s) + Elems(t)
  {
    forall i, j | 0 <= i < j < |s + t|
      ensures (s + t)[i] != (s + t)[j]
    {
      if i < |s| <= j {
        assert s[i] in Elems(s) && t[j - |s|] in Elems(t);
      }
    }
  }

  ghost predicate HasParentIn<T>(edges: Edges<T>, region: set<T>, x: T) {
    exists p :: p in region && (p, x) in edges
  }

  /** Pigeonhole: walking backwards inside a finite set in which everybody has a predecessor
      must run into the walk itself, and so closes a simple cycle above `x`. */
  lemma BackwardWalkCloses<T(!new)>(edges: Edges<T>, region: set<T>, w: seq<T>) returns (c: seq<T>, w': seq<T>)
    requires forall x :: x in region ==> HasParentIn(edges, region, x)
    requires Walk(edges, w) && Distinct(w) && Elems(w) <= region
    ensures SimpleCycle(edges, c) && Walk(edges, w') && w'[0] == c[0] && Last(w') == Last(w)
    ensures BelowCycle(edges, Last(w)) && HasCycle(edges)
    decreases |region| - |w|
  {
    DistinctBound(w, region);
    assert HasParentIn(edges, region, w[0]) by { assert w[0] in Elems(w); }
    var p :| p in region && (p, w[0]) in edges;
    if p in w {
      var i :| 0 <= i < |w| && w[i] == p;
      c, w' := w[..i + 1], w;
    } else {
      var longer := [p] + w;
      assert Walk(edges, longer) by {
        forall i | 0 <= i < |longer| - 1 ensures (longer[i], longer[i + 1]) in edges {
          if i > 0 { assert (w[i - 1], w[i]) in edges; }
        }
      }
      assert Elems(longer) <= region;
      DistinctBound(longer, region);
      c, w' := BackwardWalkCloses(edges, region, longer);
    }
  }

  /** A relation has a cycle exactly when it has a simple one. */
  lemma CycleIffSimpleCycle<T(!new)>(edges: Edges<T>)
    ensures HasCycle(edges) <==> exists c: seq<T> :: SimpleCycle(edges, c)
  {
    if HasCycle(edges) {
      var c: seq<T> :| ClosedWalk(edges, c);
      forall x | x in Elems(c)
        ensures HasParentIn(edges, Elems(c), x)
      {
        var i :| 0 <= i < |c| && c[i] == x;
        var p := if i == 0 then Last(c) else c[i - 1];
        assert p in Elems(c) && (p, x) in edges;
      }
      var s, _ := BackwardWalkCloses(edges, Elems(c), [c[0]]);
    }
  }

  // ---------------------------------------------------------------- parents before children

  /** Every predecessor of an entry stands earlier in the list. */
  ghost predicate Ordered<T(!new)>(edges: Edges<T>, order: seq<T>) {
    forall j, p :: 0 <= j < |order| && (p, order[j]) in edges ==> p in order[..j]
  }

  /** Walking back along `w` moves strictly forward in an ordered list. */
  lemma {:induction false} WalkMovesUp<T(!new)>(edges: Edges<T>, order: seq<T>, w: seq<T>, j: nat) returns (k: nat)
    requires Ordered(edges, order) && Walk(edges, w)
    requires j < |order| && order[j] == Last(w)
    ensures k < |order| && order[k] == w[0] && k + |w| - 1 <= j
    decreases |w|
  {
    if |w| == 1 {
      k := j;
    } else {
      var v := w[..|w| - 1];
      assert (Last(v), order[j]) in edges by { assert (w[|w| - 2], w[|w| - 1]) in edges; }
      var m :| 0 <= m < j && order[..j][m] == Last(v);
      k := WalkMovesUp(edges, order, v, m);
    }
  }

  /** Nothing in an ordered, duplicate-free list is on or below a cycle. */
  lemma OrderedIsAcyclic<T(!new)>(edges: Edges<T>, order: seq<T>, x: T)
    requires Ordered(edges, order) && Distinct(order) && x in order
    ensures !BelowCycle(edges, x)
  {
    if BelowCycle(edges, x) {
      var c: seq<T>, w: seq<T> :| ClosedWalk(edges, c) && Walk(edges, w) && w[0] == c[0] && Last(w) == x;
      var j :| 0 <= j < |order| && order[j] == x;
      var k := WalkMovesUp(edges, order, w, j);
      var around := c + [c[0]];
      assert Walk(edges, around);
      var k' := WalkMovesUp(edges, order, around, k);
      assert false;
    }
  }

  /** Appending elements whose predecessors are all present keeps a list ordered. */
  lemma OrderedAppend<T(!new)>(edges: Edges<T>, order: seq<T>, more: seq<T>)
    requires Ordered(edges, order)
    requires forall x, p :: x in more && (p, x) in edges ==> p in order
    ensures Ordered(edges, order + more)
  {
    var all := order + more;
    forall j, p | 0 <= j < |all| && (p, all[j]) in edges
      ensures p in all[..j]
    {
      if j < |order| {
        assert all[..j] == order[..j];
      } else {
        assert all[j] in more;
        assert order <= all[..j];
      }
    }
  }

  /** The vertices that are neither on nor below a cycle. */
  ghost function AboveCycles<T(!new)>(edges: Edges<T>, nodes: set<T>): set<T> {
    set x | x in nodes && !BelowCycle(edges, x)
  }

  /** When sorting gets stuck, each vertex left over having a parent left over, exactly the vertices
      above every cycle have been sorted, and something is left over iff there is a cycle. */
  lemma StuckRegion<T(!new)>(edges: Edges<T>, nodes: set<T>, sorted: seq<T>, region: set<T>)
    requires Distinct(sorted) && Ordered(edges, sorted) && Elems(sorted) <= nodes
    requires region == nodes - Elems(sorted)
    requires forall e :: e in edges ==> e.1 in nodes
    requires forall x :: x in region ==> HasParentIn(edges, region, x)
    ensures Elems(sorted) == AboveCycles(edges, nodes)
    ensures region != {} <==> HasCycle(edges)
  {
    forall x | x in Elems(sorted) ensures !BelowCycle(edges, x) {
      OrderedIsAcyclic(edges, sorted, x);
    }
    LeftOverIsBelowCycle(edges, region);
    if HasCycle(edges) {
      var c := CycleVertexIsBelow(edges);
      assert c in region;
    }
  }

  lemma LeftOverIsBelowCycle<T(!new)>(edges: Edges<T>, region: set<T>)
    requires forall x :: x in region ==> HasParentIn(edges, region, x)
    ensures forall x :: x in region ==> BelowCycle(edges, x)
    ensures region != {} ==> HasCycle(edges)
  {
    forall x | x in region ensures BelowCycle(edges, x) && HasCycle(edges) {
      var _, _ := BackwardWalkCloses(edges, region, [x]);
    }
  }

  lemma CycleVertexIsBelow<T(!new)>(edges: Edges<T>) returns (x: T)
    requires HasCycle(edges)
    ensures BelowCycle(edges, x) && exists p :: (p, x) in edges
  {
    var c: seq<T> :| ClosedWalk(edges, c);
    x := c[0];
    assert Walk(edges, [x]) && Last([x]) == x;
  }
}
