/** `topsort`, `topsort_levels` and `topsort_levels_core`: Kahn's algorithm over a list of
    (parent, child) pairs that may hold duplicates and self pairs. */
module Topsort {
  import opened Digraph

  /** What a call gives back: the sorted elements, or CycleError with the working tables. */
  datatype Outcome<T> =
    | Sorted(order: seq<T>)
    | CycleError(sorted: seq<T>, numParents: map<T, nat>, children: map<T, seq<T>>)

  ghost function EdgesOf<T>(pairs: seq<(T, T)>): Edges<T> {
    set e | e in pairs
  }

  ghost function ElementsOf<T>(pairs: seq<(T, T)>): set<T> {
    (set e | e in pairs :: e.0) + (set e | e in pairs :: e.1)
  }

  /** How many pairs give `x` a parent outside `done`; duplicate pairs count twice. */
  ghost function ParentCount<T>(pairs: seq<(T, T)>, done: set<T>, x: T): nat {
    if pairs == [] then 0
    else
      ParentCount(pairs[..|pairs| - 1], done, x)
      + if Last(pairs).1 == x && Last(pairs).0 !in done then 1 else 0
  }

  ghost function ChildrenOf<T>(pairs: seq<(T, T)>, p: T): seq<T> {
    if pairs == [] then []
    else ChildrenOf(pairs[..|pairs| - 1], p) + if Last(pairs).0 == p then [Last(pairs).1] else []
  }

  /** The two dictionaries describe the graph on `nodes` with the vertices in `done` taken out. */
  ghost predicate Tables<T(!new)>(nodes: set<T>, pairs: seq<(T, T)>, done: set<T>,
                            numParents: map<T, nat>, children: map<T, seq<T>>) {
    && ElementsOf(pairs) <= nodes
    && (forall x, p :: x in done && (p, x) in EdgesOf(pairs) ==> p in done)
    && numParents.Keys == nodes - done
    && (forall x :: x in numParents ==> numParents[x] == ParentCount(pairs, done, x))
    && (forall p :: p in nodes - done ==> (if p in children then children[p] else []) == ChildrenOf(pairs, p))
  }

  // ---------------------------------------------------------------- facts about the counts

  lemma {:induction false} CountIsZeroIffParentsDone<T>(pairs: seq<(T, T)>, done: set<T>, x: T)
    ensures ParentCount(pairs, done, x) == 0 <==> forall p :: (p, x) in EdgesOf(pairs) ==> p in done
  {
    if pairs != [] {
      CountIsZeroIffParentsDone(pairs[..|pairs| - 1], done, x);
      assert pairs == pairs[..|pairs| - 1] + [Last(pairs)];
      assert Last(pairs) == (Last(pairs).0, Last(pairs).1);
      assert EdgesOf(pairs) == EdgesOf(pairs[..|pairs| - 1]) + {Last(pairs)};
    }
  }

  /** Finishing `p` lowers the count of `x` by the number of times `x` is listed as its child. */
  lemma {:induction false} CountAfterDone<T>(pairs: seq<(T, T)>, done: set<T>, p: T, x: T)
    requires p !in done
    ensures ParentCount(pairs, done, x)
         == ParentCount(pairs, done + {p}, x) + multiset(ChildrenOf(pairs, p))[x]
  {
    if pairs != [] {
      CountAfterDone(pairs[..|pairs| - 1], done, p, x);
    }
  }

  lemma {:induction false} ChildrenAreEdges<T>(pairs: seq<(T, T)>, p: T)
    ensures forall c :: c in ChildrenOf(pairs, p) ==> (p, c) in EdgesOf(pairs)
  {
    if pairs != [] {
      ChildrenAreEdges(pairs[..|pairs| - 1], p);
      assert Last(pairs) == (Last(pairs).0, Last(pairs).1);
    }
  }

  lemma EdgeEndsAreNodes<T>(pairs: seq<(T, T)>, p: T, c: T)
    requires (p, c) in EdgesOf(pairs)
    ensures p in ElementsOf(pairs) && c in ElementsOf(pairs)
  {
    assert (p, c).0 == p && (p, c).1 == c;
  }

  // ---------------------------------------------------------------- the shared loops

  /** Both dictionaries after the first pairs of the list. */
  ghost predicate Tabulated<T(!new)>(pairs: seq<(T, T)>, numParents: map<T, nat>, children: map<T, seq<T>>) {
    && numParents.Keys == ElementsOf(pairs)
    && (forall x :: ParentCount(pairs, {}, x) == if x in numParents then numParents[x] else 0)
    && (forall p :: ChildrenOf(pairs, p) == if p in children then children[p] else [])
  }

  lemma TabulatedStep<T(!new)>(pairs: seq<(T, T)>, e: (T, T), numParents: map<T, nat>, children: map<T, seq<T>>,
                               numParents': map<T, nat>, children': map<T, seq<T>>)
    requires Tabulated(pairs, numParents, children)
    requires numParents'.Keys == numParents.Keys + {e.0, e.1}
    requires forall x :: x in numParents' ==>
               numParents'[x] == (if x in numParents then numParents[x] else 0) + (if x == e.1 then 1 else 0)
    requires children' == children[e.0 := (if e.0 in children then children[e.0] else []) + [e.1]]
    ensures Tabulated(pairs + [e], numParents', children')
  {
  }

  /** The loop over the pair list that fills both dictionaries. */
  method Tabulate<T(==, !new)>(pairs: seq<(T, T)>) returns (numParents: map<T, nat>, children: map<T, seq<T>>)
    ensures Tables(ElementsOf(pairs), pairs, {}, numParents, children)
  {
    numParents, children := map[], map[];
    for i := 0 to |pairs|
      invariant Tabulated(pairs[..i], numParents, children)
    {
      var (parent, child) := pairs[i];
      ghost var before, table := numParents, children;
      if parent !in numParents { numParents := numParents[parent := 0]; }
      if child !in numParents { numParents := numParents[child := 0]; }
      numParents := numParents[child := numParents[child] + 1];
      var siblings := if parent in children then children[parent] else [];
      children := children[parent := siblings + [child]];
      TabulatedStep(pairs[..i], pairs[i], before, table, numParents, children);
      assert pairs[..i + 1] == pairs[..i] + [pairs[i]];
    }
    assert pairs[..|pairs|] == pairs;
  }

  lemma NextKid<T>(kids: seq<T>, k: nat)
    requires k < |kids|
    ensures kids[k] in kids && multiset(kids[k + 1..])[kids[k]] + 1 == multiset(kids[k..])[kids[k]]
    ensures forall x :: x != kids[k] ==> multiset(kids[k + 1..])[x] == multiset(kids[k..])[x]
    ensures multiset(kids[k..])[kids[k]] <= multiset(kids)[kids[k]]
  {
    assert kids[k..] == [kids[k]] + kids[k + 1..];
    assert kids == kids[..k] + kids[k..];
  }

  /** Knock down the parent count of every listed child; `freed` are those that reach zero. */
  method KnockDown<T(==)>(numParents0: map<T, nat>, kids: seq<T>) returns (numParents: map<T, nat>, freed: seq<T>)
    requires forall x :: x in kids ==> x in numParents0 && multiset(kids)[x] <= numParents0[x]
    ensures numParents.Keys == numParents0.Keys
    ensures forall x :: x in numParents ==> numParents[x] == numParents0[x] - multiset(kids)[x]
    ensures Distinct(freed)
    ensures forall x :: x in freed <==> x in numParents && numParents[x] == 0 && numParents0[x] > 0
  {
    numParents, freed := numParents0, [];
    for k := 0 to |kids|
      invariant numParents.Keys == numParents0.Keys
      invariant forall x :: x in numParents ==>
                              numParents[x] == numParents0[x] - multiset(kids)[x] + multiset(kids[k..])[x]
      invariant Distinct(freed)
      invariant forall x :: x in freed <==> x in numParents && numParents[x] == 0 && numParents0[x] > 0
    {
      var child := kids[k];
      NextKid(kids, k);
      numParents := numParents[child := numParents[child] - 1];
      if numParents[child] == 0 {
        freed := freed + [child];
      }
    }
  }

  /** Take one finished parent out of the tables. */
  method Release<T(==, !new)>(ghost nodes: set<T>, ghost pairs: seq<(T, T)>, ghost done: set<T>,
                              numParents0: map<T, nat>, children0: map<T, seq<T>>, parent: T)
    returns (numParents: map<T, nat>, children: map<T, seq<T>>, freed: seq<T>)
    requires Tables(nodes, pairs, done, numParents0, children0)
    requires parent in numParents0 && numParents0[parent] == 0
    ensures Tables(nodes, pairs, done + {parent}, numParents, children)
    ensures numParents.Keys == numParents0.Keys - {parent}
    ensures forall x :: x in numParents ==> numParents[x] <= numParents0[x]
    ensures Distinct(freed)
    ensures forall x :: x in freed <==> x in numParents && numParents[x] == 0 && numParents0[x] > 0
  {
    numParents, children, freed := numParents0 - {parent}, children0, [];
    forall x | x in numParents
      ensures numParents[x] == ParentCount(pairs, done + {parent}, x) + multiset(ChildrenOf(pairs, parent))[x]
    {
      CountAfterDone(pairs, done, parent, x);
    }
    CountIsZeroIffParentsDone(pairs, done, parent);
    if parent in children {
      ChildrenRemain(nodes, pairs, done, numParents0, children0, parent);
      numParents, freed := KnockDown(numParents, children[parent]);
      children := children - {parent};
    }
  }

  /** No child of an undone, parentless vertex has been finished, and none is the vertex itself. */
  lemma ChildrenRemain<T(!new)>(nodes: set<T>, pairs: seq<(T, T)>, done: set<T>,
                                numParents: map<T, nat>, children: map<T, seq<T>>, parent: T)
    requires Tables(nodes, pairs, done, numParents, children)
    requires parent in numParents && numParents[parent] == 0
    ensures forall x :: x in ChildrenOf(pairs, parent) ==> x in numParents && x != parent
  {
    CountIsZeroIffParentsDone(pairs, done, parent);
    ChildrenAreEdges(pairs, parent);
    forall x | x in ChildrenOf(pairs, parent) ensures x in numParents && x != parent {
      EdgeEndsAreNodes(pairs, parent, x);
    }
  }

  /** Everything without a parent, in whatever order the dictionary lists its keys. */
  method Parentless<T(==)>(numParents: map<T, nat>) returns (level: seq<T>)
    ensures Distinct(level)
    ensures forall x :: x in level <==> x in numParents && numParents[x] == 0
  {
    level := [];
    var keys := numParents.Keys;
    while keys != {}
      invariant keys <= numParents.Keys && Distinct(level)
      invariant forall x :: x in level <==> x in numParents && x !in keys && numParents[x] == 0
    {
      var x :| x in keys;
      keys := keys - {x};
      if numParents[x] == 0 {
        level := level + [x];
      }
    }
  }

  /** If no remaining vertex has count zero, each one has a remaining parent. */
  lemma RemainingParents<T(!new)>(nodes: set<T>, pairs: seq<(T, T)>, done: set<T>,
                                  numParents: map<T, nat>, children: map<T, seq<T>>)
    requires Tables(nodes, pairs, done, numParents, children)
    requires forall x :: x in numParents ==> numParents[x] > 0
    ensures forall x :: x in numParents.Keys ==> HasParentIn(EdgesOf(pairs), numParents.Keys, x)
  {
    forall x | x in numParents.Keys ensures HasParentIn(EdgesOf(pairs), numParents.Keys, x) {
      CountIsZeroIffParentsDone(pairs, done, x);
      var p :| (p, x) in EdgesOf(pairs) && p !in done;
      EdgeEndsAreNodes(pairs, p, x);
    }
  }

  /** Then the sorted vertices are exactly those not on or below a cycle. */
  lemma RemainderIsBelowCycles<T(!new)>(nodes: set<T>, pairs: seq<(T, T)>, sorted: seq<T>,
                                        numParents: map<T, nat>, children: map<T, seq<T>>)
    requires Tables(nodes, pairs, Elems(sorted), numParents, children)
    requires Elems(sorted) <= nodes && Distinct(sorted) && Ordered(EdgesOf(pairs), sorted)
    requires forall x :: x in numParents ==> numParents[x] > 0
    ensures Elems(sorted) == AboveCycles(EdgesOf(pairs), nodes)
    ensures numParents.Keys != {} <==> HasCycle(EdgesOf(pairs))
  {
    RemainingParents(nodes, pairs, Elems(sorted), numParents, children);
    forall e | e in EdgesOf(pairs) ensures e.1 in nodes {
      EdgeEndsAreNodes(pairs, e.0, e.1);
    }
    StuckRegion(EdgesOf(pairs), nodes, sorted, numParents.Keys);
  }

  // ---------------------------------------------------------------- topsort

  /** A duplicate-free list of all of `nodes` with every parent before its children. */
  ghost predicate TopologicalOrder<T(!new)>(edges: Edges<T>, nodes: set<T>, order: seq<T>) {
    Distinct(order) && Elems(order) == nodes && Ordered(edges, order)
  }

  /** The state of the growing-list loop after `i` parents: `answer[..i]` has been taken out of the
      tables, and the rest of `answer` is exactly what currently has no parent. */
  ghost predicate Progress<T(!new)>(nodes: set<T>, pairs: seq<(T, T)>, answer: seq<T>, i: nat,
                                    numParents: map<T, nat>, children: map<T, seq<T>>) {
    && i <= |answer| && Distinct(answer) && Elems(answer) <= nodes
    && Ordered(EdgesOf(pairs), answer)
    && Tables(nodes, pairs, Elems(answer[..i]), numParents, children)
    && (forall x :: x in answer[i..] <==> x in numParents && numParents[x] == 0)
  }

  lemma ProgressStarts<T(!new)>(pairs: seq<(T, T)>, answer: seq<T>, numParents: map<T, nat>, children: map<T, seq<T>>)
    requires Tables(ElementsOf(pairs), pairs, {}, numParents, children)
    requires Distinct(answer) && forall x :: x in answer <==> x in numParents && numParents[x] == 0
    ensures Progress(ElementsOf(pairs), pairs, answer, 0, numParents, children)
  {
    forall x, p | x in answer && (p, x) in EdgesOf(pairs) ensures false {
      CountIsZeroIffParentsDone(pairs, {}, x);
    }
    assert Elems(answer[..0]) == {} && answer[0..] == answer;
  }

  /** The freed children are new to `answer`, and all their parents are already in it. */
  lemma Extend<T(!new)>(nodes: set<T>, pairs: seq<(T, T)>, answer: seq<T>, i: nat, before: map<T, nat>,
                        numParents: map<T, nat>, children: map<T, seq<T>>, freed: seq<T>)
    requires i <= |answer| && Distinct(answer) && Ordered(EdgesOf(pairs), answer)
    requires Elems(answer) <= nodes && Distinct(freed) && numParents.Keys <= before.Keys
    requires Tables(nodes, pairs, Elems(answer[..i]), numParents, children)
    requires forall x :: x in answer[i..] ==> x in before && before[x] == 0
    requires forall x :: x in numParents && before[x] == 0 ==> x in answer[i..] && numParents[x] == 0
    requires forall x :: x in freed <==> x in numParents && numParents[x] == 0 && before[x] > 0
    ensures Progress(nodes, pairs, answer + freed, i, numParents, children)
  {
    assert answer == answer[..i] + answer[i..];
    assert (answer + freed)[i..] == answer[i..] + freed;
    assert (answer + freed)[..i] == answer[..i];
    forall x | x in freed ensures x !in answer && x in nodes {
      assert x in numParents;
    }
    DistinctAppend(answer, freed);
    forall x, p | x in freed && (p, x) in EdgesOf(pairs) ensures p in answer {
      CountIsZeroIffParentsDone(pairs, Elems(answer[..i]), x);
      assert p in answer[..i];
    }
    OrderedAppend(EdgesOf(pairs), answer, freed);
    forall x | x in answer[i..] ensures x in numParents {
      assert x !in answer[..i];
    }
  }

  /** One turn of the growing-list loop. */
  method Turn<T(==, !new)>(ghost nodes: set<T>, ghost pairs: seq<(T, T)>, answer0: seq<T>, i: nat,
                           numParents0: map<T, nat>, children0: map<T, seq<T>>)
    returns (answer: seq<T>, numParents: map<T, nat>, children: map<T, seq<T>>)
    requires Progress(nodes, pairs, answer0, i, numParents0, children0) && i < |answer0|
    ensures Progress(nodes, pairs, answer, i + 1, numParents, children)
  {
    var parent := answer0[i];
    assert answer0[i..] == [parent] + answer0[i + 1..];
    var freed;
    numParents, children, freed := Release(nodes, pairs, Elems(answer0[..i]), numParents0, children0, parent);
    assert Elems(answer0[..i + 1]) == Elems(answer0[..i]) + {parent};
    Extend(nodes, pairs, answer0, i + 1, numParents0, numParents, children, freed);
    answer := answer0 + freed;
  }

  method TopSort<T(==, !new)>(pairs: seq<(T, T)>) returns (r: Outcome<T>)
    ensures r.CycleError? <==> HasCycle(EdgesOf(pairs))
    ensures r.Sorted? ==> TopologicalOrder(EdgesOf(pairs), ElementsOf(pairs), r.order)
    ensures r.CycleError? ==>
              var above := AboveCycles(EdgesOf(pairs), ElementsOf(pairs));
              && TopologicalOrder(EdgesOf(pairs), above, r.sorted)
              && Tables(ElementsOf(pairs), pairs, above, r.numParents, r.children)
  {
    ghost var nodes := ElementsOf(pairs);
    var numParents, children := Tabulate(pairs);
    var answer := Parentless(numParents);
    ProgressStarts(pairs, answer, numParents, children);
    var i := 0;
    while i < |answer|
      invariant Progress(nodes, pairs, answer, i, numParents, children)
      decreases |nodes| - i
    {
      DistinctBound(answer, nodes);
      answer, numParents, children := Turn(nodes, pairs, answer, i, numParents, children);
      i := i + 1;
    }
    assert answer[..i] == answer && answer[i..] == [];
    RemainderIsBelowCycles(nodes, pairs, answer, numParents, children);
    if numParents.Keys != {} {
      r := CycleError(answer, numParents, children);
    } else {
      r := Sorted(answer);
    }
  }
}
