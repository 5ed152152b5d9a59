/** `is_rotated` of rad_util and `find_cycles` of topsort. */
module FindCycles {
  import opened Digraph

  // ---------------------------------------------------------------- rotations

  /** `b` is `a` read from position `k` on, wrapping around. */
  ghost predicate RotatesTo<T>(a: seq<T>, b: seq<T>, k: nat) {
    k <= |a| && b == a[k..] + a[..k]
  }

  ghost predicate Rotation<T>(a: seq<T>, b: seq<T>) {
    exists k: nat :: RotatesTo(a, b, k)
  }

  lemma RotationSymmetric<T>(a: seq<T>, b: seq<T>)
    requires Rotation(a, b)
    ensures Rotation(b, a)
  {
    var k: nat :| RotatesTo(a, b, k);
    assert RotatesTo(b, a, |a| - k);
  }

  lemma RotationTransitive<T>(a: seq<T>, b: seq<T>, c: seq<T>)
    requires Rotation(a, b) && Rotation(b, c)
    ensures Rotation(a, c)
  {
    var j: nat :| RotatesTo(a, b, j);
    var k: nat :| RotatesTo(b, c, k);
    var n := if j + k <= |a| then j + k else j + k - |a|;
    forall i | 0 <= i < |a| ensures |c| == |a| && c[i] == (a[n..] + a[..n])[i] {
      TurnedTwice(a, j, b, k, c, i);
    }
    assert c == a[n..] + a[..n];
    assert RotatesTo(a, c, n);
  }

  lemma TurnedTwice<T>(a: seq<T>, j: nat, b: seq<T>, k: nat, c: seq<T>, i: nat)
    requires RotatesTo(a, b, j) && RotatesTo(b, c, k) && i < |a|
    ensures var n := if j + k <= |a| then j + k else j + k - |a|;
            |c| == |a| && c[i] == (a[n..] + a[..n])[i]
  {
    TurnedAt(a, j, b, if i < |b| - k then i + k else i + k - |b|);
    TurnedAt(b, k, c, i);
  }

  /** Where the entries of a rotated sequence come from. */
  lemma TurnedAt<T>(a: seq<T>, k: nat, b: seq<T>, i: nat)
    requires RotatesTo(a, b, k) && i < |b|
    ensures |b| == |a| && b[i] == a[if i < |a| - k then i + k else i + k - |a|]
  {
  }

  datatype Answer = IndexError | Answer(value: bool)

  /** Reading the head of the second sequence fails when both are empty. */
  method IsRotated<T(==)>(seq1: seq<T>, seq2: seq<T>) returns (r: Answer)
    ensures r.IndexError? <==> seq1 == seq2 == []
    ensures r.Answer? ==> (r.value <==> Rotation(seq1, seq2))
  {
    if |seq1| != |seq2| { return Answer(false); }
    if seq2 == [] { return IndexError; }
    var startIndexes: seq<nat> := [];
    var headItem := seq2[0];
    for index := 0 to |seq1|
      invariant forall i: nat :: i in startIndexes <==> i < index && seq1[i] == headItem
    {
      if seq1[index] == headItem {
        startIndexes := startIndexes + [index];
      }
    }
    forall k: nat | RotatesTo(seq1, seq2, k)
      ensures var i := if k == |seq1| then 0 else k; RotatesTo(seq1, seq2, i) && i in startIndexes
    {
      var i := if k == |seq1| then 0 else k;
      assert RotatesTo(seq1, seq2, i);
      assert seq2[0] == seq1[i];
    }
    var double := seq1 + seq1;
    for n := 0 to |startIndexes|
      invariant forall m :: 0 <= m < n ==> !RotatesTo(seq1, seq2, startIndexes[m])
    {
      var i := startIndexes[n];
      assert i in startIndexes;
      assert double[i..i + |seq1|] == seq1[i..] + seq1[..i];
      if double[i..i + |seq1|] == seq2 {
        assert RotatesTo(seq1, seq2, i);
        return Answer(true);
      }
    }
    r := Answer(false);
  }

  // ---------------------------------------------------------------- the search

  type Graph<!T(==)> = map<T, seq<T>>

  ghost function EdgesOf<T>(g: Graph<T>): Edges<T> {
    set p, c | p in g && c in g[p] :: (p, c)
  }

  ghost function NodesOf<T>(g: Graph<T>): set<T> {
    g.Keys + set p, c | p in g && c in g[p] :: c
  }

  /** A walk without repeated vertices: what the search keeps on its stack. */
  ghost predicate SimplePath<T>(g: Graph<T>, path: seq<T>) {
    Walk(EdgesOf(g), path) && Distinct(path) && Elems(path) <= NodesOf(g)
  }

  lemma EdgeMeaning<T>(g: Graph<T>, p: T, c: T)
    ensures (p, c) in EdgesOf(g) <==> p in g && c in g[p]
    ensures (p, c) in EdgesOf(g) ==> p in NodesOf(g) && c in NodesOf(g)
  {
  }

  lemma PathExtends<T>(g: Graph<T>, path: seq<T>, child: T)
    requires SimplePath(g, path) && child !in path
    requires Last(path) in g && child in g[Last(path)]
    ensures SimplePath(g, path + [child])
  {
    EdgeMeaning(g, Last(path), child);
  }

  lemma PathIsShort<T>(g: Graph<T>, path: seq<T>)
    requires SimplePath(g, path)
    ensures |path| <= |NodesOf(g)|
  {
    DistinctBound(path, NodesOf(g));
  }

  /** The number of stack entries a path will ever cause: itself and, per child, its extensions. */
  ghost function Weight<T>(g: Graph<T>, path: seq<T>): nat
    requires SimplePath(g, path)
    decreases |NodesOf(g)| - |path|, 1, 0
  {
    PathIsShort(g, path);
    1 + if Last(path) in g then KidsWeight(g, path, g[Last(path)]) else 0
  }

  ghost function KidsWeight<T>(g: Graph<T>, path: seq<T>, kids: seq<T>): nat
    requires SimplePath(g, path) && Last(path) in g
    requires forall c :: c in kids ==> c in g[Last(path)]
    decreases |NodesOf(g)| - |path|, 0, |kids| + 1
  {
    if kids == [] then 0 else KidWeight(g, path, kids[0]) + KidsWeight(g, path, kids[1..])
  }

  ghost function KidWeight<T>(g: Graph<T>, path: seq<T>, kid: T): nat
    requires SimplePath(g, path) && Last(path) in g && kid in g[Last(path)]
    decreases |NodesOf(g)| - |path|, 0, 0
  {
    if kid in path then 0
    else
      PathExtends(g, path, kid);
      PathIsShort(g, path + [kid]);
      Weight(g, path + [kid])
  }

  ghost function StackWeight<T>(g: Graph<T>, paths: seq<seq<T>>): nat
    requires forall p :: p in paths ==> SimplePath(g, p)
  {
    if paths == [] then 0 else StackWeight(g, paths[..|paths| - 1]) + Weight(g, Last(paths))
  }

  function IndexOf<T(==)>(s: seq<T>, x: T): (i: nat)
    requires x in s
    ensures i < |s| && s[i] == x
  {
    if s[0] == x then 0 else 1 + IndexOf(s[1..], x)
  }

  /** The cycle that `child` closes at the end of `path` has been yielded, up to rotation. */
  ghost predicate Found<T>(cycles: seq<seq<T>>, cycle: seq<T>) {
    exists k :: 0 <= k < |cycles| && Rotation(cycles[k], cycle)
  }

  /** Every cycle that closes at the end of `q` has been yielded. */
  ghost predicate Closed<T>(g: Graph<T>, cycles: seq<seq<T>>, q: seq<T>)
    requires q != []
  {
    forall c :: c in q && Last(q) in g && c in g[Last(q)] ==> Found(cycles, q[IndexOf(q, c)..])
  }

  /** Nothing found so far is wrong or repeated. */
  ghost predicate Sound<T>(g: Graph<T>, cycles: seq<seq<T>>) {
    && (forall k :: 0 <= k < |cycles| ==> SimpleCycle(EdgesOf(g), cycles[k]))
    && (forall j, k :: 0 <= j < k < |cycles| ==> !Rotation(cycles[j], cycles[k]))
  }

  /** All simple paths from `start` are closed, or still have a prefix on the stack. */
  ghost predicate Covered<T(!new)>(g: Graph<T>, start: T, paths: seq<seq<T>>, cycles: seq<seq<T>>) {
    forall q :: SimplePath(g, q) && q[0] == start ==>
                  Closed(g, cycles, q) || exists p :: p in paths && p <= q
  }

  /** `x` can be reached by a simple path from one of the `starts`. */
  ghost predicate ReachedFrom<T(!new)>(g: Graph<T>, starts: set<T>, x: T) {
    exists q: seq<T> :: SimplePath(g, q) && q[0] in starts && Last(q) == x
  }

  lemma StackWeightAppend<T>(g: Graph<T>, paths: seq<seq<T>>, path: seq<T>)
    requires SimplePath(g, path) && forall p :: p in paths ==> SimplePath(g, p)
    ensures forall p :: p in paths + [path] ==> SimplePath(g, p)
    ensures StackWeight(g, paths + [path]) == StackWeight(g, paths) + Weight(g, path)
  {
    assert (paths + [path])[..|paths|] == paths && Last(paths + [path]) == path;
  }

  lemma FoundStays<T>(cycles: seq<seq<T>>, more: seq<seq<T>>, cycle: seq<T>)
    requires Found(cycles, cycle) && cycles <= more
    ensures Found(more, cycle)
  {
    var k :| 0 <= k < |cycles| && Rotation(cycles[k], cycle);
    assert more[k] == cycles[k];
  }

  /** A child that is already on the path closes a simple cycle. */
  lemma BackEdgeClosesCycle<T>(g: Graph<T>, path: seq<T>, child: T)
    requires SimplePath(g, path) && child in path && Last(path) in g && child in g[Last(path)]
    ensures SimpleCycle(EdgesOf(g), path[IndexOf(path, child)..])
  {
    EdgeMeaning(g, Last(path), child);
  }

  method IsDuplicate<T(==)>(ghost g: Graph<T>, cycles: seq<seq<T>>, cycle: seq<T>) returns (dup: bool)
    requires Sound(g, cycles)
    ensures dup <==> Found(cycles, cycle)
  {
    for k := 0 to |cycles|
      invariant forall j :: 0 <= j < k ==> !Rotation(cycles[j], cycle)
    {
      assert SimpleCycle(EdgesOf(g), cycles[k]);
      var a := IsRotated(cycles[k], cycle);
      if a.value { return true; }
    }
    return false;
  }

  /** `child` closes a cycle that has been yielded, or extends a path that has been pushed. */
  ghost predicate Handled<T>(path: seq<T>, child: T, paths: seq<seq<T>>, cycles: seq<seq<T>>) {
    if child in path then Found(cycles, path[IndexOf(path, child)..]) else path + [child] in paths
  }

  lemma HandledStays<T>(path: seq<T>, child: T, paths: seq<seq<T>>, cycles: seq<seq<T>>,
                        paths': seq<seq<T>>, cycles': seq<seq<T>>)
    requires Handled(path, child, paths, cycles) && paths <= paths' && cycles <= cycles'
    ensures Handled(path, child, paths', cycles')
  {
    if child in path {
      FoundStays(cycles, cycles', path[IndexOf(path, child)..]);
    }
  }

  /** A stack of simple paths that all start where `path` starts. */
  ghost predicate StackFor<T>(g: Graph<T>, path: seq<T>, paths: seq<seq<T>>)
    requires path != []
  {
    forall p :: p in paths ==> SimplePath(g, p) && p[0] == path[0]
  }

  lemma NewCycle<T>(g: Graph<T>, cycles: seq<seq<T>>, cycle: seq<T>)
    requires Sound(g, cycles) && SimpleCycle(EdgesOf(g), cycle) && !Found(cycles, cycle)
    ensures Sound(g, cycles + [cycle]) && Found(cycles + [cycle], cycle)
  {
    assert RotatesTo(cycle, cycle, 0);
    assert (cycles + [cycle])[|cycles|] == cycle;
  }

  /** What the loop does with one child of the last vertex of `path`. */
  method Visit<T(==, !new)>(g: Graph<T>, path: seq<T>, child: T, paths0: seq<seq<T>>, cycles0: seq<seq<T>>, visited0: set<T>)
    returns (paths: seq<seq<T>>, cycles: seq<seq<T>>, visited: set<T>)
    requires SimplePath(g, path) && Last(path) in g && child in g[Last(path)]
    requires Sound(g, cycles0) && StackFor(g, path, paths0)
    ensures cycles0 <= cycles && Sound(g, cycles) && paths0 <= paths && StackFor(g, path, paths)
    ensures Handled(path, child, paths, cycles)
    ensures StackWeight(g, paths) == StackWeight(g, paths0) + KidWeight(g, path, child)
    ensures forall v :: v in visited - visited0 ==> ReachedFrom(g, {path[0]}, v)
  {
    paths, cycles, visited := paths0, cycles0, visited0;
    if child in path {
      var cycle := path[IndexOf(path, child)..];
      BackEdgeClosesCycle(g, path, child);
      var dup := IsDuplicate(g, cycles, cycle);
      if !dup {
        NewCycle(g, cycles, cycle);
        cycles := cycles + [cycle];
      }
    } else {
      PathExtends(g, path, child);
      StackWeightAppend(g, paths, path + [child]);
      paths := paths + [path + [child]];
      visited := visited + {child};
      assert Last(path + [child]) == child;
    }
  }

  /** The loop over the children of the last vertex of a popped path. */
  method Expand<T(==, !new)>(g: Graph<T>, path: seq<T>, paths0: seq<seq<T>>, cycles0: seq<seq<T>>, visited0: set<T>)
    returns (paths: seq<seq<T>>, cycles: seq<seq<T>>, visited: set<T>)
    requires SimplePath(g, path) && Last(path) in g && Sound(g, cycles0) && StackFor(g, path, paths0)
    ensures cycles0 <= cycles && Sound(g, cycles) && paths0 <= paths && StackFor(g, path, paths)
    ensures forall c :: c in g[Last(path)] ==> Handled(path, c, paths, cycles)
    ensures StackWeight(g, paths) < StackWeight(g, paths0) + Weight(g, path)
    ensures forall v :: v in visited - visited0 ==> ReachedFrom(g, {path[0]}, v)
  {
    paths, cycles, visited := paths0, cycles0, visited0;
    var children := g[Last(path)];
    for k := 0 to |children|
      invariant cycles0 <= cycles && Sound(g, cycles) && paths0 <= paths && StackFor(g, path, paths)
      invariant forall j :: 0 <= j < k ==> Handled(path, children[j], paths, cycles)
      invariant StackWeight(g, paths) + KidsWeight(g, path, children[k..])
             == StackWeight(g, paths0) + KidsWeight(g, path, children)
      invariant forall v :: v in visited - visited0 ==> ReachedFrom(g, {path[0]}, v)
    {
      assert children[k..][0] == children[k] && children[k..][1..] == children[k + 1..];
      ghost var paths1, cycles1 := paths, cycles;
      paths, cycles, visited := Visit(g, path, children[k], paths, cycles, visited);
      forall j | 0 <= j < k ensures Handled(path, children[j], paths, cycles) {
        HandledStays(path, children[j], paths1, cycles1, paths, cycles);
      }
    }
  }

  lemma ClosedStays<T>(g: Graph<T>, cycles: seq<seq<T>>, more: seq<seq<T>>, q: seq<T>)
    requires q != [] && Closed(g, cycles, q) && cycles <= more
    ensures Closed(g, more, q)
  {
    forall c | c in q && Last(q) in g && c in g[Last(q)] ensures Found(more, q[IndexOf(q, c)..]) {
      FoundStays(cycles, more, q[IndexOf(q, c)..]);
    }
  }

  /** A popped path is either complete itself, or each proper extension of it goes through a child
      that the expansion has pushed. */
  lemma PopKeepsCover<T(!new)>(g: Graph<T>, start: T, rest: seq<seq<T>>, path: seq<T>, cycles0: seq<seq<T>>,
                               paths: seq<seq<T>>, cycles: seq<seq<T>>)
    requires SimplePath(g, path) && Covered(g, start, rest + [path], cycles0)
    requires rest <= paths && cycles0 <= cycles
    requires Last(path) in g ==> forall c :: c in g[Last(path)] ==> Handled(path, c, paths, cycles)
    ensures Covered(g, start, paths, cycles)
  {
    assert Closed(g, cycles, path);
    forall q | SimplePath(g, q) && q[0] == start
      ensures Closed(g, cycles, q) || exists p :: p in paths && p <= q
    {
      if Closed(g, cycles0, q) {
        ClosedStays(g, cycles0, cycles, q);
      } else {
        var p :| p in rest + [path] && p <= q;
        if p in rest {
          assert p in paths;
        } else if p != q {
          var child := q[|path|];
          assert path == q[..|path|];
          EdgeMeaning(g, Last(path), child);
          assert (q[|path| - 1], q[|path| - 1 + 1]) in EdgesOf(g);
          assert child !in path && Handled(path, child, paths, cycles);
          assert path + [child] in paths && path + [child] <= q;
        }
      }
    }
  }

  /** The stack loop from one start vertex. */
  method Search<T(==, !new)>(g: Graph<T>, start: T, cycles0: seq<seq<T>>, visited0: set<T>)
    returns (cycles: seq<seq<T>>, visited: set<T>)
    requires start in g && Sound(g, cycles0)
    ensures cycles0 <= cycles && Sound(g, cycles)
    ensures Covered(g, start, [], cycles)
    ensures forall v :: v in visited - visited0 ==> ReachedFrom(g, {start}, v)
  {
    cycles, visited := cycles0, visited0;
    var paths := [[start]];
    while paths != []
      invariant forall p :: p in paths ==> SimplePath(g, p) && p[0] == start
      invariant cycles0 <= cycles && Sound(g, cycles)
      invariant Covered(g, start, paths, cycles)
      invariant forall v :: v in visited - visited0 ==> ReachedFrom(g, {start}, v)
      decreases StackWeight(g, paths)
    {
      var path, rest := Last(paths), paths[..|paths| - 1];
      assert paths == rest + [path];
      assert path in paths;
      ghost var before := cycles;
      if Last(path) in g {
        paths, cycles, visited := Expand(g, path, rest, cycles, visited);
      } else {
        paths := rest;
      }
      PopKeepsCover(g, start, rest, path, before, paths, cycles);
    }
  }

  lemma LassoCloses<T>(g: Graph<T>, cycles: seq<seq<T>>, stem: seq<T>, turned: seq<T>)
    requires SimplePath(g, stem + turned) && SimpleCycle(EdgesOf(g), turned)
    requires Closed(g, cycles, stem + turned)
    ensures Found(cycles, turned)
  {
    var path := stem + turned;
    EdgeMeaning(g, Last(turned), turned[0]);
    assert path[|stem|] == turned[0] && Last(path) == Last(turned);
    assert IndexOf(path, turned[0]) == |stem|;
    assert path[|stem|..] == turned;
  }

  /** A simple cycle below `q[0]` shows up as a path from `q[0]` that enters the cycle once. */
  lemma CycleIsCovered<T(!new)>(g: Graph<T>, cycles: seq<seq<T>>, q: seq<T>, d: seq<T>)
    requires SimplePath(g, q) && Covered(g, q[0], [], cycles)
    requires SimpleCycle(EdgesOf(g), d) && Last(q) == d[0]
    ensures Found(cycles, d)
  {
    var i, j := FirstMeeting(q, d);
    var stem, turned := q[..i], d[j..] + d[..j];
    LassoIsSimplePath(g, q, i, d, j);
    CoveredIsClosed(g, cycles, q[0], stem + turned);
    LassoCloses(g, cycles, stem, turned);
    FoundTurned(cycles, d, j);
  }

  lemma CoveredIsClosed<T(!new)>(g: Graph<T>, cycles: seq<seq<T>>, start: T, q: seq<T>)
    requires Covered(g, start, [], cycles) && SimplePath(g, q) && q[0] == start
    ensures Closed(g, cycles, q)
  {
  }

  lemma FoundTurned<T>(cycles: seq<seq<T>>, d: seq<T>, j: nat)
    requires j <= |d| && Found(cycles, d[j..] + d[..j])
    ensures Found(cycles, d)
  {
    var turned := d[j..] + d[..j];
    var k :| 0 <= k < |cycles| && Rotation(cycles[k], turned);
    assert RotatesTo(turned, d, |d| - j);
    RotationTransitive(cycles[k], turned, d);
  }

  /** The first vertex of `q` that lies on `d`. */
  lemma FirstMeeting<T>(q: seq<T>, d: seq<T>) returns (i: nat, j: nat)
    requires q != [] && d != [] && Last(q) == d[0]
    ensures i < |q| && j < |d| && q[i] == d[j]
    ensures forall m :: 0 <= m < i ==> q[m] !in d
  {
    i := 0;
    while q[i] !in d
      invariant i < |q| && forall m :: 0 <= m < i ==> q[m] !in d
      decreases |q| - i
    {
      assert i != |q| - 1;
      i := i + 1;
    }
    j :| 0 <= j < |d| && d[j] == q[i];
  }

  lemma CycleVertices<T>(g: Graph<T>, d: seq<T>)
    requires ClosedWalk(EdgesOf(g), d)
    ensures Elems(d) <= NodesOf(g)
  {
    forall x | x in d ensures x in NodesOf(g) {
      var m :| 0 <= m < |d| && d[m] == x;
      EdgeMeaning(g, if m == 0 then Last(d) else d[m - 1], x);
    }
  }

  lemma TurnedIsDistinct<T>(d: seq<T>, j: nat)
    requires Distinct(d) && j < |d|
    ensures Distinct(d[j..] + d[..j]) && Elems(d[j..] + d[..j]) == Elems(d)
  {
    assert d == d[..j] + d[j..];
    forall x | x in d[j..] ensures x !in d[..j] {
    }
    DistinctAppend(d[j..], d[..j]);
  }

  lemma SimpleCycleTurned<T>(g: Graph<T>, d: seq<T>, j: nat, turned: seq<T>)
    requires SimpleCycle(EdgesOf(g), d) && j < |d| && turned == d[j..] + d[..j]
    ensures SimpleCycle(EdgesOf(g), turned) && Elems(turned) == Elems(d)
  {
    TurnedIsDistinct(d, j);
    forall m | 0 <= m < |turned| - 1 ensures (turned[m], turned[m + 1]) in EdgesOf(g) {
      var at := if m < |d| - j then j + m else m - (|d| - j);
      assert turned[m] == d[at];
      assert turned[m + 1] == d[if at + 1 == |d| then 0 else at + 1];
    }
    assert Last(turned) == d[if j == 0 then |d| - 1 else j - 1] && turned[0] == d[j];
  }

  lemma LassoIsSimplePath<T(!new)>(g: Graph<T>, q: seq<T>, i: nat, d: seq<T>, j: nat)
    requires SimplePath(g, q) && SimpleCycle(EdgesOf(g), d)
    requires i < |q| && j < |d| && q[i] == d[j] && forall m :: 0 <= m < i ==> q[m] !in d
    ensures SimpleCycle(EdgesOf(g), d[j..] + d[..j])
    ensures SimplePath(g, q[..i] + (d[j..] + d[..j]))
  {
    var edges, turned := EdgesOf(g), d[j..] + d[..j];
    SimpleCycleTurned(g, d, j, turned);
    CycleVertices(g, d);
    var path := q[..i] + turned;
    forall m | 0 <= m < |path| - 1 ensures (path[m], path[m + 1]) in edges {
      if m < i {
        assert path[m] == q[m] && path[m + 1] == q[m + 1];
      } else {
        assert path[m] == turned[m - i] && path[m + 1] == turned[m + 1 - i];
      }
    }
    assert Elems(q[..i]) !! Elems(turned);
    DistinctAppend(q[..i], turned);
  }

  /** Each simple cycle of the graph comes out exactly once, up to rotation. */
  method FindCycles<T(==, !new)>(g: Graph<T>) returns (cycles: seq<seq<T>>)
    ensures forall k :: 0 <= k < |cycles| ==> SimpleCycle(EdgesOf(g), cycles[k])
    ensures forall j, k :: 0 <= j < k < |cycles| ==> !Rotation(cycles[j], cycles[k])
    ensures forall d :: SimpleCycle(EdgesOf(g), d) ==> exists k :: 0 <= k < |cycles| && Rotation(cycles[k], d)
    ensures cycles != [] <==> HasCycle(EdgesOf(g))
  {
    cycles := [];
    var visited: set<T> := {};
    ghost var starts: set<T> := {};
    var keys := g.Keys;
    while keys != {}
      invariant keys <= g.Keys && Sound(g, cycles)
      invariant forall s :: s in starts ==> Covered(g, s, [], cycles)
      invariant forall v :: v in visited || v in g.Keys - keys ==> ReachedFrom(g, starts, v)
    {
      var parent :| parent in keys;
      keys := keys - {parent};
      if parent !in visited {
        ghost var before, seen, from := cycles, visited, starts;
        cycles, visited := Search(g, parent, cycles, visited);
        starts := starts + {parent};
        forall s | s in starts ensures Covered(g, s, [], cycles) {
          if s != parent { CoveredStays(g, s, before, cycles); }
        }
        assert ReachedFrom(g, {parent}, parent) by {
          assert SimplePath(g, [parent]) && Last([parent]) == parent;
        }
        forall v | v in visited || v in g.Keys - keys ensures ReachedFrom(g, starts, v) {
          ReachedStays(g, if v in seen || v in g.Keys - keys - {parent} then from else {parent}, starts, v);
        }
      }
    }
    forall d | SimpleCycle(EdgesOf(g), d) ensures Found(cycles, d) {
      EdgeMeaning(g, d[0], if |d| == 1 then d[0] else d[1]);
      assert ReachedFrom(g, starts, d[0]);
      var q: seq<T> :| SimplePath(g, q) && q[0] in starts && Last(q) == d[0];
      CycleIsCovered(g, cycles, q, d);
    }
    SomeCycleFound(g, cycles);
  }

  lemma SomeCycleFound<T(!new)>(g: Graph<T>, cycles: seq<seq<T>>)
    requires Sound(g, cycles) && forall d :: SimpleCycle(EdgesOf(g), d) ==> Found(cycles, d)
    ensures cycles != [] <==> HasCycle(EdgesOf(g))
  {
    CycleIffSimpleCycle(EdgesOf(g));
    if HasCycle(EdgesOf(g)) {
      var d: seq<T> :| SimpleCycle(EdgesOf(g), d);
      assert Found(cycles, d);
    }
    assert cycles != [] ==> SimpleCycle(EdgesOf(g), cycles[0]);
  }

  lemma CoveredStays<T(!new)>(g: Graph<T>, s: T, cycles: seq<seq<T>>, more: seq<seq<T>>)
    requires Covered(g, s, [], cycles) && cycles <= more
    ensures Covered(g, s, [], more)
  {
    forall q | SimplePath(g, q) && q[0] == s ensures Closed(g, more, q) {
      ClosedStays(g, cycles, more, q);
    }
  }

  lemma ReachedStays<T(!new)>(g: Graph<T>, starts: set<T>, more: set<T>, x: T)
    requires ReachedFrom(g, starts, x) && starts <= more
    ensures ReachedFrom(g, more, x)
  {
  }
}
