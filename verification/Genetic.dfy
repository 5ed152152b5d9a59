/** The genetic optimiser of scratch/uavs_ag.py: a list of mutable movement vectors that is sorted,
    mutated, crossed and pruned in place, with the best vector kept at the front. The fitness of a
    vector is an arbitrary function of its contents; random choices are arbitrary. */
module Genetic {

  /** One UAV's displacement. */
  type Gene = (real, real)

  type Vector = array<Gene>

  const SPEED: real := 50.0
  const TIMESTEP: real := 5.0

  /** Nobody moves more than 250 in either direction. */
  ghost predicate Bounded(v: seq<Gene>) {
    forall g :: 0 <= g < |v| ==>
                  && -250.0 <= v[g].0 <= 250.0
                  && -250.0 <= v[g].1 <= 250.0
  }

  /** No two entries of the list are the same array. */
  ghost predicate Apart(solutions: seq<Vector>) {
    forall i, j :: 0 <= i < j < |solutions| ==> solutions[i] != solutions[j]
  }

  ghost predicate AllBounded(uavs: nat, solutions: seq<Vector>)
    reads solutions
  {
    forall i :: 0 <= i < |solutions| ==> solutions[i].Length == uavs && Bounded(solutions[i][..])
  }

  ghost function Contents(solutions: seq<Vector>): seq<seq<Gene>>
    reads solutions
  {
    seq(|solutions|, i requires 0 <= i < |solutions| reads solutions => solutions[i][..])
  }

  /** `gen_new_position`: each component is a fraction of speed times time, with a random sign. */
  method NewPosition() returns (g: Gene)
    ensures Bounded([g])
  {
    var x: real :| -(SPEED * TIMESTEP) <= x <= SPEED * TIMESTEP;
    var y: real :| -(SPEED * TIMESTEP) <= y <= SPEED * TIMESTEP;
    g := (x, y);
    assert [g][0] == g;
  }

  method GenMovementVector(uavs: nat) returns (v: Vector)
    ensures fresh(v) && v.Length == uavs && Bounded(v[..])
  {
    v := new Gene[uavs](_ => (0.0, 0.0));
    for i := 0 to uavs
      invariant Bounded(v[..])
    {
      var g := NewPosition();
      assert Bounded([g]) && [g][0] == g;
      v[i] := g;
    }
  }

  // ---------------------------------------------------------------- sorting

  ghost predicate Descending(score: seq<Gene> -> real, solutions: seq<Vector>)
    reads solutions
  {
    forall i, j :: 0 <= i < j < |solutions| ==> score(solutions[i][..]) >= score(solutions[j][..])
  }

  lemma InsertedInOrder(score: seq<Gene> -> real, sorted: seq<Vector>, i: nat, v: Vector)
    requires Descending(score, sorted) && i <= |sorted|
    requires i > 0 ==> score(sorted[i - 1][..]) >= score(v[..])
    requires i < |sorted| ==> score(sorted[i][..]) < score(v[..])
    ensures Descending(score, sorted[..i] + [v] + sorted[i..])
  {
    var r := sorted[..i] + [v] + sorted[i..];
    forall j, k | 0 <= j < k < |r| ensures score(r[j][..]) >= score(r[k][..]) {
      var a := if j < i then sorted[j] else if j == i then v else sorted[j - 1];
      var b := if k < i then sorted[k] else if k == i then v else sorted[k - 1];
      assert r[j] == a && r[k] == b;
    }
  }

  /** The solutions of score `x`, in order. */
  ghost function WithScore(score: seq<Gene> -> real, solutions: seq<Vector>, x: real): seq<Vector>
    reads solutions
  {
    if solutions == [] then []
    else (if score(solutions[0][..]) == x then [solutions[0]] else []) + WithScore(score, solutions[1..], x)
  }

  lemma {:induction false} WithScoreConcat(score: seq<Gene> -> real, a: seq<Vector>, b: seq<Vector>, x: real)
    ensures WithScore(score, a + b, x) == WithScore(score, a, x) + WithScore(score, b, x)
  {
    if a == [] {
      assert a + b == b;
    } else {
      assert (a + b)[1..] == a[1..] + b;
      WithScoreConcat(score, a[1..], b, x);
    }
  }

  lemma {:induction false} NoneWithScore(score: seq<Gene> -> real, solutions: seq<Vector>, x: real)
    requires forall k :: 0 <= k < |solutions| ==> score(solutions[k][..]) != x
    ensures WithScore(score, solutions, x) == []
  {
    if solutions != [] { NoneWithScore(score, solutions[1..], x); }
  }

  /** Equal scores stand in the same order in both lists. */
  ghost predicate SameOrder(score: seq<Gene> -> real, a: seq<Vector>, b: seq<Vector>)
    reads a, b
  {
    forall x :: WithScore(score, a, x) == WithScore(score, b, x)
  }

  /** A vector inserted after the vectors of its own score comes last among them. */
  lemma InsertedLast(score: seq<Gene> -> real, sorted: seq<Vector>, i: nat, v: Vector)
    requires Descending(score, sorted) && i <= |sorted|
    requires i < |sorted| ==> score(sorted[i][..]) < score(v[..])
    ensures SameOrder(score, sorted[..i] + [v] + sorted[i..], sorted + [v])
  {
    assert sorted == sorted[..i] + sorted[i..];
    forall x ensures WithScore(score, sorted[..i] + [v] + sorted[i..], x) == WithScore(score, sorted + [v], x) {
      WithScoreConcat(score, sorted[..i] + [v], sorted[i..], x);
      WithScoreConcat(score, sorted[..i], [v], x);
      WithScoreConcat(score, sorted[..i], sorted[i..], x);
      WithScoreConcat(score, sorted, [v], x);
      if score(v[..]) == x { NoneWithScore(score, sorted[i..], x); }
    }
  }

  /** `r` is a stable sorting of `s`, best first. */
  ghost predicate SortedAs(score: seq<Gene> -> real, r: seq<Vector>, s: seq<Vector>)
    reads r, s
  {
    Descending(score, r) && multiset(r) == multiset(s) && SameOrder(score, r, s)
  }

  lemma OneMoreSorted(score: seq<Gene> -> real, before: seq<Vector>, after: seq<Vector>, solutions: seq<Vector>, i: nat)
    requires i < |solutions|
    requires SortedAs(score, before, solutions[..i]) && SortedAs(score, after, before + [solutions[i]])
    ensures SortedAs(score, after, solutions[..i + 1])
  {
    var done, v := solutions[..i], solutions[i];
    assert solutions[..i + 1] == done + [v];
    forall x ensures WithScore(score, after, x) == WithScore(score, done + [v], x) {
      WithScoreConcat(score, before, [v], x);
      WithScoreConcat(score, done, [v], x);
    }
  }

  method Insert(score: seq<Gene> -> real, sorted: seq<Vector>, v: Vector) returns (r: seq<Vector>)
    requires Descending(score, sorted)
    ensures SortedAs(score, r, sorted + [v])
  {
    var i := |sorted|;
    while i > 0 && score(sorted[i - 1][..]) < score(v[..])
      invariant 0 <= i <= |sorted|
      invariant i < |sorted| ==> score(sorted[i][..]) < score(v[..])
    {
      i := i - 1;
    }
    r := sorted[..i] + [v] + sorted[i..];
    assert Descending(score, r) by { InsertedInOrder(score, sorted, i, v); }
    assert SameOrder(score, r, sorted + [v]) by { InsertedLast(score, sorted, i, v); }
    assert multiset(r) == multiset(sorted + [v]) by { assert sorted == sorted[..i] + sorted[i..]; }
  }

  /** The list of references is permuted, best first, equal scores in their old order; the vectors themselves
      are not touched. */
  method SortSolutions(score: seq<Gene> -> real, solutions: seq<Vector>) returns (r: seq<Vector>)
    ensures SortedAs(score, r, solutions)
  {
    r := [];
    for i := 0 to |solutions|
      invariant SortedAs(score, r, solutions[..i])
    {
      ghost var before := r;
      r := Insert(score, r, solutions[i]);
      OneMoreSorted(score, before, r, solutions, i);
    }
    assert solutions[..|solutions|] == solutions;
  }

  lemma PermutationKeepsElements(a: seq<Vector>, b: seq<Vector>)
    requires multiset(a) == multiset(b)
    ensures |a| == |b| && (forall x :: x in a <==> x in b) && (Apart(a) ==> Apart(b))
  {
    assert |multiset(a)| == |a| && |multiset(b)| == |b|;
    forall x ensures x in a <==> x in b { assert x in multiset(a) <==> x in multiset(b); }
    if Apart(a) && !Apart(b) {
      var i, j :| 0 <= i < j < |b| && b[i] == b[j];
      assert b == b[..i] + [b[i]] + b[i + 1..j] + [b[j]] + b[j + 1..];
      assert multiset(b)[b[i]] >= 2;
      OnceInApart(a, b[i]);
      assert false;
    }
  }

  lemma {:induction false} OnceInApart(s: seq<Vector>, x: Vector)
    requires Apart(s)
    ensures multiset(s)[x] <= 1
  {
    if s != [] {
      var rest := s[1..];
      assert s == [s[0]] + rest;
      assert Apart(rest) by {
        forall i, j | 0 <= i < j < |rest| ensures rest[i] != rest[j] { assert s[i + 1] != s[j + 1]; }
      }
      OnceInApart(rest, x);
      forall k | 0 <= k < |rest| ensures rest[k] != s[0] { assert s[0] != s[k + 1]; }
    }
  }

  // ---------------------------------------------------------------- the operators

  /** The list after an operator: same length, still unaliased and bounded, every entry the old one or a new
      array, and the best one in place. */
  twostate predicate Evolved(uavs: nat, before: seq<Vector>, new after: seq<Vector>)
    reads before, after
  {
    && |after| == |before| && Apart(after) && AllBounded(uavs, after)
    && (before != [] ==> after[0] == before[0] && after[0][..] == old(before[0][..]))
    && (forall i :: 0 <= i < |after| ==> after[i] == before[i] || fresh(after[i]))
  }

  /** Put a new vector at position `i`. */
  method Replace(uavs: nat, solutions: seq<Vector>, i: nat) returns (r: seq<Vector>)
    requires Apart(solutions) && AllBounded(uavs, solutions) && 0 < i < |solutions|
    ensures Evolved(uavs, solutions, r) && fresh(r[i]) && r == solutions[i := r[i]]
  {
    var v := GenMovementVector(uavs);
    r := solutions[i := v];
  }

  method Mutate(uavs: nat, solutions0: seq<Vector>) returns (solutions: seq<Vector>)
    requires Apart(solutions0) && AllBounded(uavs, solutions0)
    ensures Evolved(uavs, solutions0, solutions)
  {
    solutions := solutions0;
    for i := 0 to |solutions0|
      invariant Evolved(uavs, solutions0, solutions)
    {
      if * {
        if i != 0 {
          solutions := Replace(uavs, solutions, i);
        }
      }
    }
  }

  method Prune(uavs: nat, solutions0: seq<Vector>) returns (solutions: seq<Vector>)
    requires Apart(solutions0) && AllBounded(uavs, solutions0)
    ensures Evolved(uavs, solutions0, solutions)
    ensures forall k :: 0 <= k < |solutions| ==> if 2 * k > |solutions| then fresh(solutions[k]) else solutions[k] == solutions0[k]
  {
    solutions := solutions0;
    for i := 0 to |solutions0|
      invariant Evolved(uavs, solutions0, solutions)
      invariant forall k :: 0 <= k < |solutions| ==>
                              if k < i && 2 * k > |solutions| then fresh(solutions[k]) else solutions[k] == solutions0[k]
    {
      if i as real > 0.5 * |solutions0| as real {
        solutions := Replace(uavs, solutions, i);
      }
    }
  }

  /** Rows are numpy views, so the tuple assignment copies the second row into the first and then
      back, rather than swapping them. */
  method CrossRows(uavs: nat, a: Vector, b: Vector)
    requires a != b && a.Length == b.Length == uavs && Bounded(a[..]) && Bounded(b[..])
    modifies a, b
    ensures Bounded(a[..]) && Bounded(b[..])
    ensures a[..] == b[..] == old(b[..])
  {
    for g := 0 to uavs
      invariant Bounded(a[..]) && b[..] == old(b[..])
      invariant a[..g] == b[..g]
    {
      a[g] := b[g];
      b[g] := a[g];
    }
  }

  /** Position `k` takes part in a crossing with its right neighbour. */
  predicate Crosses(solutions: seq<Vector>, k: nat) {
    k % 2 == 0 && 0 < k < |solutions| - 1
  }

  /** The first vector stays; each other one stays, or becomes a copy of its crossing partner. */
  method Crossover(uavs: nat, solutions: seq<Vector>)
    requires Apart(solutions) && AllBounded(uavs, solutions) && solutions != []
    modifies solutions[1..]
    ensures AllBounded(uavs, solutions) && solutions[0][..] == old(solutions[0][..])
    ensures forall k :: 0 <= k < |solutions| ==>
              || solutions[k][..] == old(solutions[k][..])
              || (Crosses(solutions, k) && solutions[k][..] == old(solutions[k + 1][..]))
  {
    for i := 0 to |solutions|
      invariant AllBounded(uavs, solutions) && solutions[0][..] == old(solutions[0][..])
      invariant forall k :: i <= k < |solutions| ==> solutions[k][..] == old(solutions[k][..])
      invariant forall k :: 0 <= k < i ==>
                  || solutions[k][..] == old(solutions[k][..])
                  || (Crosses(solutions, k) && solutions[k][..] == old(solutions[k + 1][..]))
    {
      if i % 2 == 0 && i > 0 {
        if * {
          // the missing partner of a last even position raises IndexError, which is caught
          if i + 1 < |solutions| {
            assert solutions[i] in solutions[1..] && solutions[i + 1] in solutions[1..];
            CrossRows(uavs, solutions[i], solutions[i + 1]);
          }
        }
      }
    }
  }

  // ---------------------------------------------------------------- the rounds

  /** `best` is at least as good as every vector of every population that was sorted. */
  ghost predicate BestOfAll(score: seq<Gene> -> real, sorts: seq<seq<seq<Gene>>>, best: real) {
    forall q, k :: 0 <= q < |sorts| && 0 <= k < |sorts[q]| ==> best >= score(sorts[q][k])
  }

  ghost predicate Attained(score: seq<Gene> -> real, population: seq<seq<Gene>>, f: real) {
    exists k :: 0 <= k < |population| && f == score(population[k])
  }

  /** One round: sort, mutate, cross, prune. The vector left in front is the best of the sorted population. */
  method Round(score: seq<Gene> -> real, uavs: nat, solutions0: seq<Vector>) returns (solutions: seq<Vector>)
    requires solutions0 != [] && Apart(solutions0) && AllBounded(uavs, solutions0)
    modifies solutions0
    ensures |solutions| == |solutions0| && Apart(solutions) && AllBounded(uavs, solutions)
    ensures forall i :: 0 <= i < |solutions| ==> solutions[i] in solutions0 || fresh(solutions[i])
    ensures solutions[0][..] in old(Contents(solutions0))
    ensures forall k :: 0 <= k < |solutions0| ==> score(solutions[0][..]) >= score(old(solutions0[k][..]))
    ensures forall k :: 0 <= k < |solutions| && 2 * k > |solutions| ==> fresh(solutions[k])
  {
    solutions := SortSolutions(score, solutions0);
    PermutationKeepsElements(solutions0, solutions);
    ghost var best := solutions[0][..];
    forall k | 0 <= k < |solutions0| ensures score(best) >= score(solutions0[k][..]) {
      assert solutions0[k] in solutions;
      var j :| 0 <= j < |solutions| && solutions[j] == solutions0[k];
    }
    assert solutions[0] in solutions0;
    ghost var at :| 0 <= at < |solutions0| && solutions0[at] == solutions[0];
    assert Contents(solutions0)[at] == best;
    forall i | 0 <= i < |solutions| ensures solutions[i].Length == uavs && Bounded(solutions[i][..]) {
      assert solutions[i] in solutions0;
      var j :| 0 <= j < |solutions0| && solutions0[j] == solutions[i];
    }
    ghost var sorted := solutions;
    solutions := Mutate(uavs, solutions);
    forall i | 0 <= i < |solutions| ensures solutions[i] in solutions0 || fresh(solutions[i]) {
      assert sorted[i] in solutions0;
    }
    Crossover(uavs, solutions);
    solutions := Prune(uavs, solutions);
    assert solutions[0][..] == best;
  }

  method FirstSolutions(uavs: nat, n: nat) returns (solutions: seq<Vector>)
    ensures |solutions| == n && Apart(solutions) && AllBounded(uavs, solutions)
    ensures forall i :: 0 <= i < n ==> fresh(solutions[i])
  {
    solutions := [];
    for s := 0 to n
      invariant |solutions| == s && Apart(solutions) && AllBounded(uavs, solutions)
      invariant forall i :: 0 <= i < s ==> fresh(solutions[i])
    {
      var v := GenMovementVector(uavs);
      solutions := solutions + [v];
    }
  }

  /** `sorts[q]` are the contents of the population that round `q` sorted, `fitness[q]` the recorded fitness,
      and `best` the fitness of the vector now in front: each record is attained in its population, records never
      decrease, the last one is `best`, and `best` is the best of everything ever sorted. */
  ghost predicate History(score: seq<Gene> -> real, n: nat, sorts: seq<seq<seq<Gene>>>, fitness: seq<real>, best: real) {
    && |fitness| == |sorts|
    && (forall q :: 0 <= q < |sorts| ==> |sorts[q]| == n && Attained(score, sorts[q], fitness[q]))
    && (forall q, r :: 0 <= q <= r < |fitness| ==> fitness[q] <= fitness[r])
    && (fitness != [] ==> fitness[|fitness| - 1] == best)
    && BestOfAll(score, sorts, best)
  }

  lemma HistoryGrows(score: seq<Gene> -> real, n: nat, sorts: seq<seq<seq<Gene>>>, fitness: seq<real>, best: real,
                     now: seq<seq<Gene>>, f: real)
    requires History(score, n, sorts, fitness, best) && f >= best
    requires |now| == n && Attained(score, now, f) && forall k :: 0 <= k < n ==> f >= score(now[k])
    ensures History(score, n, sorts + [now], fitness + [f], f)
  {
    var sorts', fitness' := sorts + [now], fitness + [f];
    forall q, k | 0 <= q < |sorts'| && 0 <= k < |sorts'[q]| ensures f >= score(sorts'[q][k]) {
      if q < |sorts| { assert best >= score(sorts[q][k]); }
    }
  }

  method GenSolutions(score: seq<Gene> -> real, uavs: nat, n: nat, rounds: nat)
    returns (solutions: seq<Vector>, fitness: seq<real>, ghost sorts: seq<seq<seq<Gene>>>)
    requires n >= 1
    ensures |solutions| == n && Apart(solutions) && AllBounded(uavs, solutions)
    ensures |fitness| == rounds && History(score, n, sorts, fitness, score(solutions[0][..]))
  {
    solutions := FirstSolutions(uavs, n);
    fitness, sorts := [], [];
    for r := 0 to rounds
      invariant |solutions| == n && Apart(solutions) && AllBounded(uavs, solutions)
      invariant forall i :: 0 <= i < n ==> fresh(solutions[i])
      invariant |fitness| == r && History(score, n, sorts, fitness, score(solutions[0][..]))
    {
      ghost var now, best := Contents(solutions), score(solutions[0][..]);
      assert now[0] == solutions[0][..];
      solutions := Round(score, uavs, solutions);
      var f := score(solutions[0][..]);
      assert forall k :: 0 <= k < n ==> f >= score(now[k]);
      HistoryGrows(score, n, sorts, fitness, best, now, f);
      sorts := sorts + [now];
      fitness := fitness + [f];
    }
  }
}
