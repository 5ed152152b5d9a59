/** `topsort_levels` and `topsort_levels_core`: the same elements, one list per dependency depth. */
module TopsortLevels {
  import opened Digraph
  import opened Topsort

  /** The longest chain of predecessors ending in `x` has `k` links. */
  ghost predicate LongestChain<T(!new)>(edges: Edges<T>, x: T, k: nat) {
    HasWalkTo(edges, x, k + 1) && !HasWalkTo(edges, x, k + 2)
  }

  ghost function Flatten<T>(levels: seq<seq<T>>): seq<T> {
    if levels == [] then [] else Flatten(levels[..|levels| - 1]) + Last(levels)
  }

  /** Level `k` lists exactly the vertices whose longest chain of predecessors has `k` links. */
  ghost predicate ByDepth<T(!new)>(edges: Edges<T>, nodes: set<T>, levels: seq<seq<T>>) {
    forall k, x :: 0 <= k < |levels| ==> (x in levels[k] <==> x in nodes && LongestChain(edges, x, k))
  }

  /** No depth is missing: `x` has a longest chain of `k` links exactly when level `k` lists it. */
  ghost predicate AllDepths<T(!new)>(edges: Edges<T>, nodes: set<T>, levels: seq<seq<T>>) {
    forall k: nat, x :: (k < |levels| && x in levels[k]) <==> x in nodes && LongestChain(edges, x, k)
  }

  lemma WalkToExtends<T(!new)>(edges: Edges<T>, x: T, n: nat)
    requires n >= 1
    ensures HasWalkTo(edges, x, n + 1) <==> exists p :: (p, x) in edges && HasWalkTo(edges, p, n)
  {
    if HasWalkTo(edges, x, n + 1) {
      var w: seq<T> :| |w| == n + 1 && Walk(edges, w) && Last(w) == x;
      assert Walk(edges, w[..n]) && |w[..n]| == n && (w[n - 1], w[n]) in edges;
      assert HasWalkTo(edges, Last(w[..n]), n);
    }
    if p :| (p, x) in edges && HasWalkTo(edges, p, n) {
      var w: seq<T> :| |w| == n && Walk(edges, w) && Last(w) == p;
      assert Walk(edges, w + [x]) && Last(w + [x]) == x;
    }
  }

  lemma WalkToShrinks<T(!new)>(edges: Edges<T>, x: T, n: nat)
    requires n >= 1 && HasWalkTo(edges, x, n + 1)
    ensures HasWalkTo(edges, x, n)
  {
    var w: seq<T> :| |w| == n + 1 && Walk(edges, w) && Last(w) == x;
    assert Walk(edges, w[1..]) && Last(w[1..]) == x;
  }

  /** If `done` are the vertices with no walk of `k + 1` vertices, the undone vertices with all parents
      done are those of depth `k`, and adding them gives the vertices with no walk of `k + 2`. */
  lemma NextDepth<T(!new)>(edges: Edges<T>, done: set<T>, x: T, k: nat)
    requires x in done <==> !HasWalkTo(edges, x, k + 1)
    requires forall p :: (p, x) in edges ==> (p in done <==> !HasWalkTo(edges, p, k + 1))
    ensures (x !in done && forall p :: (p, x) in edges ==> p in done) <==> LongestChain(edges, x, k)
    ensures x in done || LongestChain(edges, x, k) <==> !HasWalkTo(edges, x, k + 2)
  {
    WalkToExtends(edges, x, k + 1);
    if HasWalkTo(edges, x, k + 2) {
      WalkToShrinks(edges, x, k + 1);
    }
  }

  /** Take a whole level of parentless vertices out of the tables. */
  method ReleaseAll<T(==, !new)>(ghost nodes: set<T>, ghost pairs: seq<(T, T)>, ghost done: set<T>,
                                 numParents0: map<T, nat>, children0: map<T, seq<T>>, level: seq<T>)
    returns (numParents: map<T, nat>, children: map<T, seq<T>>)
    requires Tables(nodes, pairs, done, numParents0, children0)
    requires Distinct(level) && forall x :: x in level ==> x in numParents0 && numParents0[x] == 0
    ensures Tables(nodes, pairs, done + Elems(level), numParents, children)
  {
    numParents, children := numParents0, children0;
    ghost var gone := done;
    for m := 0 to |level|
      invariant Tables(nodes, pairs, gone, numParents, children)
      invariant gone == done + Elems(level[..m])
      invariant forall x :: x in level[m..] ==> x in numParents && numParents[x] == 0
    {
      HeadOfRest(level, m);
      var freed;
      numParents, children, freed := Release(nodes, pairs, gone, numParents, children, level[m]);
      gone := gone + {level[m]};
    }
    assert level[..|level|] == level;
  }

  lemma HeadOfRest<T>(level: seq<T>, m: nat)
    requires Distinct(level) && m < |level|
    ensures level[m] in level[m..] && level[m] !in level[m + 1..]
    ensures forall x :: x in level[m + 1..] ==> x in level[m..]
    ensures Elems(level[..m + 1]) == Elems(level[..m]) + {level[m]}
  {
    assert level[m..] == [level[m]] + level[m + 1..];
    assert level[..m + 1] == level[..m] + [level[m]];
  }

  /** What the generator has yielded so far, and what its tables hold. */
  ghost predicate Yielded<T(!new)>(nodes: set<T>, pairs: seq<(T, T)>, levels: seq<seq<T>>,
                                   numParents: map<T, nat>, children: map<T, seq<T>>) {
    var edges := EdgesOf(pairs);
    && Tables(nodes, pairs, Elems(Flatten(levels)), numParents, children)
    && Elems(Flatten(levels)) <= nodes && Distinct(Flatten(levels)) && Ordered(edges, Flatten(levels))
    && ByDepth(edges, nodes, levels)
    && (forall x :: x in nodes ==> (x in Flatten(levels) <==> !HasWalkTo(edges, x, |levels| + 1)))
    && (forall k :: 0 <= k < |levels| ==> levels[k] != [])
  }

  /** A level of parentless vertices is the next depth. */
  lemma LevelIsNextDepth<T(!new)>(nodes: set<T>, pairs: seq<(T, T)>, levels: seq<seq<T>>,
                                  numParents: map<T, nat>, children: map<T, seq<T>>, level: seq<T>)
    requires Yielded(nodes, pairs, levels, numParents, children)
    requires forall x :: x in level <==> x in numParents && numParents[x] == 0
    ensures forall x :: x in level <==> x in nodes && LongestChain(EdgesOf(pairs), x, |levels|)
    ensures forall x :: x in nodes ==>
              (x in Flatten(levels) || x in level <==> !HasWalkTo(EdgesOf(pairs), x, |levels| + 2))
    ensures forall x, p :: x in level && (p, x) in EdgesOf(pairs) ==> p in Flatten(levels)
  {
    var done := Elems(Flatten(levels));
    forall x | x in nodes
      ensures x in level <==> LongestChain(EdgesOf(pairs), x, |levels|)
      ensures x in Flatten(levels) || x in level <==> !HasWalkTo(EdgesOf(pairs), x, |levels| + 2)
      ensures x in level ==> forall p :: (p, x) in EdgesOf(pairs) ==> p in done
    {
      CountIsZeroIffParentsDone(pairs, done, x);
      forall p | (p, x) in EdgesOf(pairs) ensures p in nodes { EdgeEndsAreNodes(pairs, p, x); }
      NextDepth(EdgesOf(pairs), done, x, |levels|);
    }
  }

  lemma ByDepthExtends<T(!new)>(edges: Edges<T>, nodes: set<T>, levels: seq<seq<T>>, level: seq<T>)
    requires ByDepth(edges, nodes, levels)
    requires forall x :: x in level <==> x in nodes && LongestChain(edges, x, |levels|)
    ensures ByDepth(edges, nodes, levels + [level])
  {
    var more := levels + [level];
    forall k, x | 0 <= k < |more| ensures x in more[k] <==> x in nodes && LongestChain(edges, x, k) {
      assert more[k] == if k < |levels| then levels[k] else level;
    }
  }

  lemma FlattenExtends<T(!new)>(edges: Edges<T>, levels: seq<seq<T>>, level: seq<T>)
    requires Distinct(Flatten(levels)) && Ordered(edges, Flatten(levels))
    requires Distinct(level) && Elems(Flatten(levels)) !! Elems(level)
    requires forall x, p :: x in level && (p, x) in edges ==> p in Flatten(levels)
    ensures Distinct(Flatten(levels + [level])) && Ordered(edges, Flatten(levels + [level]))
    ensures Elems(Flatten(levels + [level])) == Elems(Flatten(levels)) + Elems(level)
  {
    assert (levels + [level])[..|levels|] == levels && Last(levels + [level]) == level;
    DistinctAppend(Flatten(levels), level);
    OrderedAppend(edges, Flatten(levels), level);
  }

  lemma YieldLevel<T(!new)>(nodes: set<T>, pairs: seq<(T, T)>, levels: seq<seq<T>>, level: seq<T>,
                            numParents0: map<T, nat>, children0: map<T, seq<T>>,
                            numParents: map<T, nat>, children: map<T, seq<T>>)
    requires Yielded(nodes, pairs, levels, numParents0, children0)
    requires level != [] && Distinct(level) && forall x :: x in level <==> x in numParents0 && numParents0[x] == 0
    requires Tables(nodes, pairs, Elems(Flatten(levels)) + Elems(level), numParents, children)
    ensures Yielded(nodes, pairs, levels + [level], numParents, children)
  {
    LevelIsNextDepth(nodes, pairs, levels, numParents0, children0, level);
    ByDepthExtends(EdgesOf(pairs), nodes, levels, level);
    FlattenExtends(EdgesOf(pairs), levels, level);
    var all := Flatten(levels + [level]);
    assert forall x :: x in all <==> x in Elems(all);
  }

  lemma NothingYielded<T(!new)>(nodes: set<T>, pairs: seq<(T, T)>, numParents: map<T, nat>, children: map<T, seq<T>>)
    requires Tables(nodes, pairs, {}, numParents, children)
    ensures Yielded(nodes, pairs, [], numParents, children)
  {
    assert Elems(Flatten<T>([])) == {};
    forall x | x in nodes ensures HasWalkTo(EdgesOf(pairs), x, 1) {
      assert Walk(EdgesOf(pairs), [x]) && Last([x]) == x;
    }
  }

  /** One turn of the generator's loop; an empty `level` is where it breaks. */
  method NextLevel<T(==, !new)>(ghost nodes: set<T>, ghost pairs: seq<(T, T)>, ghost levels: seq<seq<T>>,
                                numParents0: map<T, nat>, children0: map<T, seq<T>>)
    returns (level: seq<T>, numParents: map<T, nat>, children: map<T, seq<T>>)
    requires Yielded(nodes, pairs, levels, numParents0, children0)
    ensures level == [] ==> numParents == numParents0 && children == children0
    ensures level == [] ==> forall x :: x in numParents ==> numParents[x] > 0
    ensures level != [] ==> Yielded(nodes, pairs, levels + [level], numParents, children)
    ensures level != [] ==> numParents.Keys < numParents0.Keys
  {
    level := Parentless(numParents0);
    if level == [] { return [], numParents0, children0; }
    numParents, children := ReleaseAll(nodes, pairs, Elems(Flatten(levels)), numParents0, children0, level);
    assert level[0] in level && level[0] in numParents0.Keys;
    YieldLevel(nodes, pairs, levels, level, numParents0, children0, numParents, children);
  }

  lemma {:induction false} NoWalkStays<T(!new)>(edges: Edges<T>, x: T, m: nat, n: nat)
    requires 1 <= m <= n && HasWalkTo(edges, x, n)
    ensures HasWalkTo(edges, x, m)
    decreases n
  {
    if m < n {
      WalkToShrinks(edges, x, n - 1);
      NoWalkStays(edges, x, m, n - 1);
    }
  }

  /** Inside a region where everybody has a parent, walks of every length end in every vertex. */
  lemma {:induction false} EndlessWalks<T(!new)>(edges: Edges<T>, region: set<T>, x: T, n: nat)
    requires forall y :: y in region ==> HasParentIn(edges, region, y)
    requires x in region && n >= 1
    ensures HasWalkTo(edges, x, n)
    decreases n
  {
    if n == 1 {
      assert Walk(edges, [x]) && Last([x]) == x;
    } else {
      assert HasParentIn(edges, region, x);
      var p :| p in region && (p, x) in edges;
      EndlessWalks(edges, region, p, n - 1);
      WalkToExtends(edges, x, n - 1);
    }
  }

  /** When no level is left, no vertex has a longest chain of more links than there are levels. */
  lemma NoDeeperChain<T(!new)>(edges: Edges<T>, region: set<T>, depth: nat, x: T, k: nat)
    requires forall y :: y in region ==> HasParentIn(edges, region, y)
    requires x in region || !HasWalkTo(edges, x, depth + 1)
    requires k >= depth
    ensures !LongestChain(edges, x, k)
  {
    if x in region {
      EndlessWalks(edges, region, x, k + 2);
    } else if HasWalkTo(edges, x, k + 1) {
      NoWalkStays(edges, x, depth + 1, k + 1);
    }
  }

  lemma LevelsAreComplete<T(!new)>(edges: Edges<T>, nodes: set<T>, levels: seq<seq<T>>, region: set<T>)
    requires ByDepth(edges, nodes, levels)
    requires forall y :: y in region ==> HasParentIn(edges, region, y)
    requires forall x :: x in nodes ==> x in region || !HasWalkTo(edges, x, |levels| + 1)
    ensures AllDepths(edges, nodes, levels)
  {
    forall k: nat, x ensures (k < |levels| && x in levels[k]) <==> x in nodes && LongestChain(edges, x, k) {
      if k >= |levels| && x in nodes { NoDeeperChain(edges, region, |levels|, x, k); }
    }
  }

  lemma NoLevelLeft<T(!new)>(nodes: set<T>, pairs: seq<(T, T)>, levels: seq<seq<T>>,
                             numParents: map<T, nat>, children: map<T, seq<T>>)
    requires Yielded(nodes, pairs, levels, numParents, children)
    requires forall x :: x in numParents ==> numParents[x] > 0
    ensures AllDepths(EdgesOf(pairs), nodes, levels)
  {
    RemainingParents(nodes, pairs, Elems(Flatten(levels)), numParents, children);
    forall x | x in nodes ensures x in numParents.Keys || !HasWalkTo(EdgesOf(pairs), x, |levels| + 1) {
      assert x in numParents.Keys || x in Flatten(levels);
    }
    LevelsAreComplete(EdgesOf(pairs), nodes, levels, numParents.Keys);
  }

  /** `pairs` is what the caller's tables stand for: any consistent pair of dictionaries lists the
      edges of some graph on the keys of `numParents`, vertices without edges included. */
  method LevelsCore<T(==, !new)>(ghost nodes: set<T>, ghost pairs: seq<(T, T)>,
                                 numParents0: map<T, nat>, children0: map<T, seq<T>>)
    returns (levels: seq<seq<T>>, cycleError: bool, numParents: map<T, nat>, children: map<T, seq<T>>)
    requires Tables(nodes, pairs, {}, numParents0, children0)
    ensures AllDepths(EdgesOf(pairs), nodes, levels)
    ensures forall k :: 0 <= k < |levels| ==> levels[k] != []
    ensures TopologicalOrder(EdgesOf(pairs), AboveCycles(EdgesOf(pairs), nodes), Flatten(levels))
    ensures cycleError <==> HasCycle(EdgesOf(pairs))
    ensures Tables(nodes, pairs, AboveCycles(EdgesOf(pairs), nodes), numParents, children)
  {
    numParents, children, levels := numParents0, children0, [];
    NothingYielded(nodes, pairs, numParents, children);
    while true
      invariant Yielded(nodes, pairs, levels, numParents, children)
      decreases numParents.Keys
    {
      var level;
      level, numParents, children := NextLevel(nodes, pairs, levels, numParents, children);
      if level == [] { break; }
      levels := levels + [level];
    }
    NoLevelLeft(nodes, pairs, levels, numParents, children);
    RemainderIsBelowCycles(nodes, pairs, Flatten(levels), numParents, children);
    cycleError := numParents.Keys != {};
  }

  method Levels<T(==, !new)>(pairs: seq<(T, T)>)
    returns (levels: seq<seq<T>>, cycleError: bool, numParents: map<T, nat>, children: map<T, seq<T>>)
    ensures AllDepths(EdgesOf(pairs), ElementsOf(pairs), levels)
    ensures TopologicalOrder(EdgesOf(pairs), AboveCycles(EdgesOf(pairs), ElementsOf(pairs)), Flatten(levels))
    ensures cycleError <==> HasCycle(EdgesOf(pairs))
  {
    numParents, children := Tabulate(pairs);
    levels, cycleError, numParents, children := LevelsCore(ElementsOf(pairs), pairs, numParents, children);
  }
}
