/** `StaticInformation::DoGather` of utils/print-introspected-doxygen.cc: all configuration paths below
    a type, found by a recursive search that never revisits a type on its current path. */
module Gather {
  import opened Digraph

  /** What the introspection asks of an attribute's checker. */
  datatype Attribute =
    | Pointer(name: string, pointee: nat)
    | Container(name: string, item: nat)
    | Plain(name: string)

  /** The finite universe of type ids: attributes, registration order, the IsChildOf relation as
      (child, ancestor) pairs, names, the id of Object, and the recorded aggregations. */
  datatype Registry = Registry(types: set<nat>, attributes: map<nat, seq<Attribute>>, registered: seq<nat>,
                               descent: set<(nat, nat)>, names: map<nat, string>, objectType: nat,
                               aggregates: seq<(nat, nat)>)

  datatype Edge = Edge(name: string, target: nat)

  function NameOf(reg: Registry, t: nat): string {
    if t in reg.names then reg.names[t] else ""
  }

  function AttributesOf(reg: Registry, t: nat): seq<Attribute> {
    if t in reg.attributes then reg.attributes[t] else []
  }

  function AttributeEdge(reg: Registry, a: Attribute): seq<Edge> {
    match a
    case Pointer(name, pointee) => if pointee == reg.objectType then [] else [Edge(name, pointee)]
    case Container(name, item) => [Edge(name + "/[i]", item)]
    case Plain(_) => []
  }

  /** The edges that the first `n` attributes, registered types or aggregations of `t` give rise to. */
  function AttributeEdges(reg: Registry, t: nat, n: nat): seq<Edge>
    requires n <= |AttributesOf(reg, t)|
  {
    if n == 0 then [] else AttributeEdges(reg, t, n - 1) + AttributeEdge(reg, AttributesOf(reg, t)[n - 1])
  }

  function ChildEdges(reg: Registry, t: nat, n: nat): seq<Edge>
    requires n <= |reg.registered|
  {
    if n == 0 then []
    else
      var child := reg.registered[n - 1];
      ChildEdges(reg, t, n - 1) + if (child, t) in reg.descent then [Edge("$" + NameOf(reg, child), child)] else []
  }

  /** The other end of an aggregation; of a self aggregation, the first end. */
  function Other(pair: (nat, nat), t: nat): nat {
    if pair.1 == t then pair.0 else pair.1
  }

  function AggregateEdges(reg: Registry, t: nat, n: nat): seq<Edge>
    requires n <= |reg.aggregates|
  {
    if n == 0 then []
    else
      var pair := reg.aggregates[n - 1];
      AggregateEdges(reg, t, n - 1)
      + if pair.0 == t || pair.1 == t then [Edge("$" + NameOf(reg, Other(pair, t)), Other(pair, t))] else []
  }

  /** Everything the three loops of `DoGather` descend into from `t`, in their order. */
  function EdgesOfType(reg: Registry, t: nat): seq<Edge> {
    AttributeEdges(reg, t, |AttributesOf(reg, t)|) + ChildEdges(reg, t, |reg.registered|)
    + AggregateEdges(reg, t, |reg.aggregates|)
  }

  /** The labelled graph of types. */
  type Graph = map<nat, seq<Edge>>

  function GraphOf(reg: Registry): Graph {
    map t | t in reg.types :: EdgesOfType(reg, t)
  }

  function EdgesFrom(g: Graph, t: nat): seq<Edge> {
    if t in g then g[t] else []
  }

  /** Every edge leads to a type of the universe. */
  ghost predicate Closed(g: Graph) {
    forall t, k :: t in g && 0 <= k < |EdgesFrom(g, t)| ==> Inside(g, t, k)
  }

  ghost predicate Inside(g: Graph, t: nat, k: nat)
    requires k < |EdgesFrom(g, t)|
  {
    EdgesFrom(g, t)[k].target in g.Keys
  }

  /** The type an attribute's checker names, other than Object, is a known one. */
  ghost predicate KnownAttribute(reg: Registry, a: Attribute) {
    match a
    case Pointer(_, pointee) => pointee == reg.objectType || pointee in reg.types
    case Container(_, item) => item in reg.types
    case Plain(_) => true
  }

  /** Every type id that the introspection of a known type mentions is a known one. */
  ghost predicate SelfContained(reg: Registry) {
    && (forall t, i :: t in reg.types && 0 <= i < |AttributesOf(reg, t)| ==> KnownAttribute(reg, AttributesOf(reg, t)[i]))
    && (forall i :: 0 <= i < |reg.registered| ==> reg.registered[i] in reg.types)
    && (forall i :: 0 <= i < |reg.aggregates| ==> reg.aggregates[i].0 in reg.types && reg.aggregates[i].1 in reg.types)
  }

  ghost predicate Targets(edges: seq<Edge>, types: set<nat>) {
    forall k :: 0 <= k < |edges| ==> edges[k].target in types
  }

  lemma {:induction false} AttributeTargets(reg: Registry, t: nat, n: nat)
    requires SelfContained(reg) && t in reg.types && n <= |AttributesOf(reg, t)|
    ensures Targets(AttributeEdges(reg, t, n), reg.types)
  {
    if n > 0 {
      AttributeTargets(reg, t, n - 1);
      assert KnownAttribute(reg, AttributesOf(reg, t)[n - 1]);
    }
  }

  lemma {:induction false} ChildTargets(reg: Registry, t: nat, n: nat)
    requires SelfContained(reg) && n <= |reg.registered|
    ensures Targets(ChildEdges(reg, t, n), reg.types)
  {
    if n > 0 { ChildTargets(reg, t, n - 1); }
  }

  lemma {:induction false} AggregateTargets(reg: Registry, t: nat, n: nat)
    requires SelfContained(reg) && n <= |reg.aggregates|
    ensures Targets(AggregateEdges(reg, t, n), reg.types)
  {
    if n > 0 { AggregateTargets(reg, t, n - 1); }
  }

  /** Then the search never leaves the universe. */
  lemma SelfContainedIsClosed(reg: Registry)
    requires SelfContained(reg)
    ensures Closed(GraphOf(reg))
  {
    var g := GraphOf(reg);
    forall t, k | t in g && 0 <= k < |EdgesFrom(g, t)| ensures Inside(g, t, k) {
      AttributeTargets(reg, t, |AttributesOf(reg, t)|);
      ChildTargets(reg, t, |reg.registered|);
      AggregateTargets(reg, t, |reg.aggregates|);
    }
  }

  // ---------------------------------------------------------------- what the edges of a type are

  /** Where an edge comes from: attribute, registered type or aggregation number `i`. */
  datatype Origin = FromAttribute(i: nat) | FromRegistered(i: nat) | FromAggregate(i: nat)

  /** Attributes come first and aggregations last, each kind in its listed order. */
  ghost predicate Earlier(a: Origin, b: Origin) {
    match a
    case FromAttribute(i) => b.FromAttribute? ==> i < b.i
    case FromRegistered(i) => b.FromAggregate? || (b.FromRegistered? && i < b.i)
    case FromAggregate(i) => b.FromAggregate? && i < b.i
  }

  /** `o` leads the search from `t` down edge `e`. */
  ghost predicate Leads(reg: Registry, t: nat, o: Origin, e: Edge) {
    match o
    case FromAttribute(i) =>
      && i < |AttributesOf(reg, t)|
      && var a := AttributesOf(reg, t)[i];
         || (a.Pointer? && a.pointee != reg.objectType && e == Edge(a.name, a.pointee))
         || (a.Container? && e == Edge(a.name + "/[i]", a.item))
    case FromRegistered(i) =>
      i < |reg.registered| && (reg.registered[i], t) in reg.descent && e == Edge("$" + NameOf(reg, reg.registered[i]), reg.registered[i])
    case FromAggregate(i) =>
      && i < |reg.aggregates| && e.name == "$" + NameOf(reg, e.target)
      && (reg.aggregates[i] == (t, e.target) || reg.aggregates[i] == (e.target, t))
  }

  ghost predicate InOrder(origins: seq<Origin>) {
    forall j, k :: 0 <= j < k < |origins| ==> Earlier(origins[j], origins[k])
  }

  /** The edges come from these origins, one each, in order. */
  ghost predicate ComeFrom(reg: Registry, t: nat, edges: seq<Edge>, origins: seq<Origin>) {
    && |origins| == |edges| && InOrder(origins)
    && forall k :: 0 <= k < |edges| ==> Leads(reg, t, origins[k], edges[k])
  }

  lemma ComeFromJoin(reg: Registry, t: nat, edges: seq<Edge>, origins: seq<Origin>, more: seq<Edge>, others: seq<Origin>)
    requires ComeFrom(reg, t, edges, origins) && ComeFrom(reg, t, more, others)
    requires forall a, b :: a in origins && b in others ==> Earlier(a, b)
    ensures ComeFrom(reg, t, edges + more, origins + others)
  {
  }

  lemma {:induction false} AttributeOrigins(reg: Registry, t: nat, n: nat) returns (origins: seq<Origin>)
    requires n <= |AttributesOf(reg, t)|
    ensures ComeFrom(reg, t, AttributeEdges(reg, t, n), origins)
    ensures forall o :: o in origins ==> o.FromAttribute? && o.i < n
    ensures forall i, e :: 0 <= i < n && Leads(reg, t, FromAttribute(i), e) ==> FromAttribute(i) in origins
  {
    origins := [];
    if n > 0 {
      origins := AttributeOrigins(reg, t, n - 1);
      var last := AttributeEdge(reg, AttributesOf(reg, t)[n - 1]);
      if last != [] {
        ComeFromJoin(reg, t, AttributeEdges(reg, t, n - 1), origins, last, [FromAttribute(n - 1)]);
        origins := origins + [FromAttribute(n - 1)];
      }
    }
  }

  lemma {:induction false} ChildOrigins(reg: Registry, t: nat, n: nat) returns (origins: seq<Origin>)
    requires n <= |reg.registered|
    ensures ComeFrom(reg, t, ChildEdges(reg, t, n), origins)
    ensures forall o :: o in origins ==> o.FromRegistered? && o.i < n
    ensures forall i, e :: 0 <= i < n && Leads(reg, t, FromRegistered(i), e) ==> FromRegistered(i) in origins
  {
    origins := [];
    if n > 0 {
      origins := ChildOrigins(reg, t, n - 1);
      var child := reg.registered[n - 1];
      if (child, t) in reg.descent {
        ComeFromJoin(reg, t, ChildEdges(reg, t, n - 1), origins, [Edge("$" + NameOf(reg, child), child)], [FromRegistered(n - 1)]);
        origins := origins + [FromRegistered(n - 1)];
      }
    }
  }

  lemma {:induction false} AggregateOrigins(reg: Registry, t: nat, n: nat) returns (origins: seq<Origin>)
    requires n <= |reg.aggregates|
    ensures ComeFrom(reg, t, AggregateEdges(reg, t, n), origins)
    ensures forall o :: o in origins ==> o.FromAggregate? && o.i < n
    ensures forall i, e :: 0 <= i < n && Leads(reg, t, FromAggregate(i), e) ==> FromAggregate(i) in origins
  {
    origins := [];
    if n > 0 {
      origins := AggregateOrigins(reg, t, n - 1);
      var pair := reg.aggregates[n - 1];
      if pair.0 == t || pair.1 == t {
        var other := Other(pair, t);
        ComeFromJoin(reg, t, AggregateEdges(reg, t, n - 1), origins, [Edge("$" + NameOf(reg, other), other)], [FromAggregate(n - 1)]);
        origins := origins + [FromAggregate(n - 1)];
      }
    }
  }

  /** The edges of a type are exactly those its attributes, its registered children and its aggregations lead to, one
      for each, in that order. */
  lemma EdgesComeFrom(reg: Registry, t: nat) returns (origins: seq<Origin>)
    requires t in reg.types
    ensures ComeFrom(reg, t, EdgesFrom(GraphOf(reg), t), origins)
    ensures forall o, e :: Leads(reg, t, o, e) ==> o in origins
  {
    var a := AttributeOrigins(reg, t, |AttributesOf(reg, t)|);
    var c := ChildOrigins(reg, t, |reg.registered|);
    var g := AggregateOrigins(reg, t, |reg.aggregates|);
    var children, others := ChildEdges(reg, t, |reg.registered|), AggregateEdges(reg, t, |reg.aggregates|);
    ComeFromJoin(reg, t, AttributeEdges(reg, t, |AttributesOf(reg, t)|), a, children, c);
    ComeFromJoin(reg, t, AttributeEdges(reg, t, |AttributesOf(reg, t)|) + children, a + c, others, g);
    origins := a + c + g;
  }

  /** An edge is among those of a known type iff something leads there. */
  lemma EdgeIff(reg: Registry, t: nat, e: Edge)
    requires t in reg.types
    ensures e in EdgesFrom(GraphOf(reg), t) <==> exists o :: Leads(reg, t, o, e)
  {
    var origins := EdgesComeFrom(reg, t);
    var edges := EdgesFrom(GraphOf(reg), t);
    if e in edges {
      var k :| 0 <= k < |edges| && edges[k] == e;
      assert Leads(reg, t, origins[k], e);
    }
    if o :| Leads(reg, t, o, e) {
      var k :| 0 <= k < |origins| && origins[k] == o;
      OneEdgeEach(reg, t, o, e, edges[k]);
    }
  }

  lemma OneEdgeEach(reg: Registry, t: nat, o: Origin, e: Edge, f: Edge)
    requires Leads(reg, t, o, e) && Leads(reg, t, o, f)
    ensures e == f
  {
  }

  // ---------------------------------------------------------------- paths as edge numbers

  /** The edges numbered in `p` exist, one after the other, from `t` on. */
  ghost predicate Walkable(g: Graph, t: nat, p: seq<nat>)
    decreases |p|
  {
    p == [] || (p[0] < |EdgesFrom(g, t)| && Walkable(g, EdgesFrom(g, t)[p[0]].target, p[1..]))
  }

  ghost function Visited(g: Graph, t: nat, p: seq<nat>): (v: seq<nat>)
    ensures v != [] && v[0] == t
    decreases |p|
  {
    if p == [] || p[0] >= |EdgesFrom(g, t)| then [t]
    else [t] + Visited(g, EdgesFrom(g, t)[p[0]].target, p[1..])
  }

  ghost function Labels(g: Graph, t: nat, p: seq<nat>): seq<string>
    decreases |p|
  {
    if p == [] || p[0] >= |EdgesFrom(g, t)| then []
    else [EdgesFrom(g, t)[p[0]].name] + Labels(g, EdgesFrom(g, t)[p[0]].target, p[1..])
  }

  ghost predicate Avoids(s: seq<nat>, others: seq<nat>) {
    forall i :: 0 <= i < |s| ==> s[i] !in others
  }

  /** A path from `t` that visits no type twice and none of `processed`. */
  ghost predicate SimplePath(g: Graph, t: nat, processed: seq<nat>, p: seq<nat>) {
    Walkable(g, t, p) && Distinct(Visited(g, t, p)) && Avoids(Visited(g, t, p), processed)
  }

  // ---------------------------------------------------------------- the order of the search

  ghost function Unprocessed(g: Graph, processed: seq<nat>): nat {
    |g.Keys - (set t | t in processed)|
  }

  lemma OneMoreProcessed(g: Graph, processed: seq<nat>, t: nat)
    requires t in g.Keys && t !in processed
    ensures Unprocessed(g, processed + [t]) < Unprocessed(g, processed)
  {
    var before := g.Keys - (set x | x in processed);
    assert g.Keys - (set x | x in processed + [t]) == before - {t};
  }

  ghost function Prefixed(i: nat, ps: seq<seq<nat>>): seq<seq<nat>> {
    seq(|ps|, k requires 0 <= k < |ps| => [i] + ps[k])
  }

  /** All paths in the order in which the search records them. */
  ghost function Paths(g: Graph, t: nat, processed: seq<nat>): seq<seq<nat>>
    requires Closed(g) && t in g.Keys
    decreases Unprocessed(g, processed), 1, 0
  {
    if t in processed then [] else [[]] + PathsVia(g, t, processed, |EdgesFrom(g, t)|)
  }

  /** Those that start with one of the first `n` edges. */
  ghost function PathsVia(g: Graph, t: nat, processed: seq<nat>, n: nat): seq<seq<nat>>
    requires Closed(g) && t in g.Keys && t !in processed && n <= |EdgesFrom(g, t)|
    decreases Unprocessed(g, processed), 0, n
  {
    if n == 0 then []
    else
      OneMoreProcessed(g, processed, t);
      assert Inside(g, t, n - 1);
      PathsVia(g, t, processed, n - 1)
      + Prefixed(n - 1, Paths(g, EdgesFrom(g, t)[n - 1].target, processed + [t]))
  }

  /** The search records exactly the simple paths. */
  lemma {:induction false} PathsAreSimplePaths(g: Graph, t: nat, processed: seq<nat>, p: seq<nat>)
    requires Closed(g) && t in g.Keys
    ensures p in Paths(g, t, processed) <==> SimplePath(g, t, processed, p)
    decreases Unprocessed(g, processed), 1, 0
  {
    if t !in processed {
      var n := |EdgesFrom(g, t)|;
      ViaAreSimplePaths(g, t, processed, p, n);
      if p == [] {
        assert Paths(g, t, processed)[0] == [];
      }
    } else {
      assert Visited(g, t, p)[0] in processed;
    }
  }

  lemma {:induction false} ViaAreSimplePaths(g: Graph, t: nat, processed: seq<nat>, p: seq<nat>, n: nat)
    requires Closed(g) && t in g.Keys && t !in processed && n <= |EdgesFrom(g, t)|
    ensures p in PathsVia(g, t, processed, n) <==> p != [] && p[0] < n && SimplePath(g, t, processed, p)
    decreases Unprocessed(g, processed), 0, n
  {
    if n > 0 {
      var m := n - 1;
      ViaAreSimplePaths(g, t, processed, p, m);
      OneMoreProcessed(g, processed, t);
      assert Inside(g, t, m);
      var below := Paths(g, EdgesFrom(g, t)[m].target, processed + [t]);
      ViaOneMore(PathsVia(g, t, processed, m), below, m, p);
      if p != [] && p[0] == m {
        PathsAreSimplePaths(g, EdgesFrom(g, t)[m].target, processed + [t], p[1..]);
        StepIsSimple(g, t, processed, p);
      }
    }
  }

  lemma ViaOneMore(earlier: seq<seq<nat>>, below: seq<seq<nat>>, m: nat, p: seq<nat>)
    ensures p in earlier + Prefixed(m, below) <==> p in earlier || (p != [] && p[0] == m && p[1..] in below)
  {
    PrefixedMember(m, below, p);
  }

  lemma PrefixedMember(i: nat, ps: seq<seq<nat>>, p: seq<nat>)
    ensures p in Prefixed(i, ps) <==> p != [] && p[0] == i && p[1..] in ps
  {
    if p != [] && p[0] == i && p[1..] in ps {
      var k :| 0 <= k < |ps| && ps[k] == p[1..];
      assert Prefixed(i, ps)[k] == p;
    }
  }

  lemma PrefixedDistinct(i: nat, ps: seq<seq<nat>>)
    requires Distinct(ps)
    ensures Distinct(Prefixed(i, ps))
  {
    var r := Prefixed(i, ps);
    forall j, k | 0 <= j < k < |r| ensures r[j] != r[k] {
      assert r[j][1..] == ps[j] && r[k][1..] == ps[k];
    }
  }

  lemma StepIsSimple(g: Graph, t: nat, processed: seq<nat>, p: seq<nat>)
    requires t !in processed && p != [] && p[0] < |EdgesFrom(g, t)|
    ensures SimplePath(g, t, processed, p)
       <==> SimplePath(g, EdgesFrom(g, t)[p[0]].target, processed + [t], p[1..])
  {
    var rest := Visited(g, EdgesFrom(g, t)[p[0]].target, p[1..]);
    assert Visited(g, t, p) == [t] + rest;
    if SimplePath(g, t, processed, p) {
      forall i, j | 0 <= i < j < |rest| ensures rest[i] != rest[j] {
        assert ([t] + rest)[i + 1] != ([t] + rest)[j + 1];
      }
      forall i | 0 <= i < |rest| ensures rest[i] !in processed + [t] {
        assert ([t] + rest)[0] != ([t] + rest)[i + 1] && ([t] + rest)[i + 1] !in processed;
      }
    }
  }

  /** No path is recorded twice. */
  lemma {:induction false} PathsAreDistinct(g: Graph, t: nat, processed: seq<nat>)
    requires Closed(g) && t in g.Keys
    ensures Distinct(Paths(g, t, processed))
    decreases Unprocessed(g, processed), 1, 0
  {
    if t !in processed {
      var n := |EdgesFrom(g, t)|;
      ViaAreDistinct(g, t, processed, n);
      var via := PathsVia(g, t, processed, n);
      forall k | 0 <= k < |via| ensures via[k] != [] {
        assert via[k] in via;
        ViaAreSimplePaths(g, t, processed, via[k], n);
      }
    }
  }

  lemma {:induction false} ViaAreDistinct(g: Graph, t: nat, processed: seq<nat>, n: nat)
    requires Closed(g) && t in g.Keys && t !in processed && n <= |EdgesFrom(g, t)|
    ensures Distinct(PathsVia(g, t, processed, n))
    decreases Unprocessed(g, processed), 0, n
  {
    if n > 0 {
      ViaAreDistinct(g, t, processed, n - 1);
      OneMoreProcessed(g, processed, t);
      assert Inside(g, t, n - 1);
      var target := EdgesFrom(g, t)[n - 1].target;
      var below := Paths(g, target, processed + [t]);
      PathsAreDistinct(g, target, processed + [t]);
      var earlier, last := PathsVia(g, t, processed, n - 1), Prefixed(n - 1, below);
      PrefixedDistinct(n - 1, below);
      forall p | p in earlier ensures p !in last {
        ViaAreSimplePaths(g, t, processed, p, n - 1);
        PrefixedMember(n - 1, below, p);
      }
      DistinctAppend(earlier, last);
    }
  }

  // ---------------------------------------------------------------- what is recorded

  /** "/" before every item. */
  function Render(items: seq<string>): string {
    if items == [] then "" else Render(items[..|items| - 1]) + "/" + items[|items| - 1]
  }

  /** The record for one path below `t`, reached along `prefix`. */
  ghost function Entry(g: Graph, t: nat, prefix: seq<string>, p: seq<nat>): (nat, string) {
    (Last(Visited(g, t, p)), Render(prefix + Labels(g, t, p)))
  }

  ghost function Entries(g: Graph, t: nat, prefix: seq<string>, ps: seq<seq<nat>>): seq<(nat, string)> {
    if ps == [] then [] else [Entry(g, t, prefix, ps[0])] + Entries(g, t, prefix, ps[1..])
  }

  lemma {:induction false} EntriesAt(g: Graph, t: nat, prefix: seq<string>, ps: seq<seq<nat>>)
    ensures |Entries(g, t, prefix, ps)| == |ps|
    ensures forall k :: 0 <= k < |ps| ==> Entries(g, t, prefix, ps)[k] == Entry(g, t, prefix, ps[k])
  {
    if ps != [] { EntriesAt(g, t, prefix, ps[1..]); }
  }

  lemma EntryDown(g: Graph, t: nat, prefix: seq<string>, i: nat, p: seq<nat>)
    requires i < |EdgesFrom(g, t)|
    ensures var edge := EdgesFrom(g, t)[i]; Entry(g, edge.target, prefix + [edge.name], p) == Entry(g, t, prefix, [i] + p)
  {
    var edge := EdgesFrom(g, t)[i];
    assert ([i] + p)[1..] == p;
    assert prefix + [edge.name] + Labels(g, edge.target, p) == prefix + Labels(g, t, [i] + p);
  }

  /** Going down an edge and recording there is recording the prefixed paths here. */
  lemma {:induction false} EntriesDown(g: Graph, t: nat, prefix: seq<string>, i: nat, ps: seq<seq<nat>>)
    requires i < |EdgesFrom(g, t)|
    ensures var edge := EdgesFrom(g, t)[i];
            Entries(g, edge.target, prefix + [edge.name], ps) == Entries(g, t, prefix, Prefixed(i, ps))
  {
    if ps != [] {
      EntryDown(g, t, prefix, i, ps[0]);
      EntriesDown(g, t, prefix, i, ps[1..]);
      assert Prefixed(i, ps)[1..] == Prefixed(i, ps[1..]);
    }
  }

  /** What the search appends to the output, step by step. */
  ghost function Gathered(g: Graph, t: nat, prefix: seq<string>, processed: seq<nat>): seq<(nat, string)>
    requires Closed(g) && t in g.Keys
    decreases Unprocessed(g, processed), 1, 0
  {
    if t in processed then []
    else [(t, Render(prefix))] + GatheredVia(g, t, prefix, processed, |EdgesFrom(g, t)|)
  }

  ghost function GatheredVia(g: Graph, t: nat, prefix: seq<string>, processed: seq<nat>, n: nat): seq<(nat, string)>
    requires Closed(g) && t in g.Keys && t !in processed && n <= |EdgesFrom(g, t)|
    decreases Unprocessed(g, processed), 0, n
  {
    if n == 0 then []
    else
      OneMoreProcessed(g, processed, t);
      assert Inside(g, t, n - 1);
      var edge := EdgesFrom(g, t)[n - 1];
      GatheredVia(g, t, prefix, processed, n - 1) + Gathered(g, edge.target, prefix + [edge.name], processed + [t])
  }

  /** The output is the list of entries of the recorded paths. */
  lemma {:induction false} GatheredIsEntries(g: Graph, t: nat, prefix: seq<string>, processed: seq<nat>)
    requires Closed(g) && t in g.Keys
    ensures Gathered(g, t, prefix, processed) == Entries(g, t, prefix, Paths(g, t, processed))
    decreases Unprocessed(g, processed), 1, 0
  {
    if t !in processed {
      var via := PathsVia(g, t, processed, |EdgesFrom(g, t)|);
      GatheredViaIsEntries(g, t, prefix, processed, |EdgesFrom(g, t)|);
      EntriesFirst(g, t, prefix, via);
    }
  }

  lemma EntriesFirst(g: Graph, t: nat, prefix: seq<string>, via: seq<seq<nat>>)
    ensures Entries(g, t, prefix, [[]] + via) == [(t, Render(prefix))] + Entries(g, t, prefix, via)
  {
    assert prefix + Labels(g, t, []) == prefix;
    assert ([[]] + via)[1..] == via;
  }

  lemma {:induction false} GatheredViaIsEntries(g: Graph, t: nat, prefix: seq<string>, processed: seq<nat>, n: nat)
    requires Closed(g) && t in g.Keys && t !in processed && n <= |EdgesFrom(g, t)|
    ensures GatheredVia(g, t, prefix, processed, n) == Entries(g, t, prefix, PathsVia(g, t, processed, n))
    decreases Unprocessed(g, processed), 0, n
  {
    if n > 0 {
      var m := n - 1;
      GatheredViaIsEntries(g, t, prefix, processed, m);
      OneMoreProcessed(g, processed, t);
      assert Inside(g, t, m);
      var edge := EdgesFrom(g, t)[m];
      GatheredIsEntries(g, edge.target, prefix + [edge.name], processed + [t]);
      var below := Paths(g, edge.target, processed + [t]);
      EntriesDown(g, t, prefix, m, below);
      EntriesJoin(g, t, prefix, PathsVia(g, t, processed, m), Prefixed(m, below));
    }
  }

  lemma {:induction false} EntriesJoin(g: Graph, t: nat, prefix: seq<string>, ps: seq<seq<nat>>, qs: seq<seq<nat>>)
    ensures Entries(g, t, prefix, ps + qs) == Entries(g, t, prefix, ps) + Entries(g, t, prefix, qs)
  {
    if ps == [] {
      assert ps + qs == qs;
    } else {
      assert (ps + qs)[1..] == ps[1..] + qs;
      EntriesJoin(g, t, prefix, ps[1..], qs);
    }
  }

  /** What one more edge of the loops appends. */
  lemma OneMoreEdge(g: Graph, t: nat, prefix: seq<string>, processed: seq<nat>, n: nat, output: seq<(nat, string)>)
    requires Closed(g) && t in g.Keys && t !in processed && n < |EdgesFrom(g, t)|
    ensures EdgesFrom(g, t)[n].target in g.Keys
    ensures output + GatheredVia(g, t, prefix, processed, n)
            + Gathered(g, EdgesFrom(g, t)[n].target, prefix + [EdgesFrom(g, t)[n].name], processed + [t])
         == output + GatheredVia(g, t, prefix, processed, n + 1)
  {
    assert Inside(g, t, n);
    OneMoreProcessed(g, processed, t);
  }

  // ---------------------------------------------------------------- the records of a registry

  /** Every step leads on from the type the step before reached. */
  ghost predicate Chain(reg: Registry, t: nat, steps: seq<Edge>)
    decreases |steps|
  {
    steps == [] || ((exists o :: Leads(reg, t, o, steps[0])) && Chain(reg, steps[0].target, steps[1..]))
  }

  ghost function TypesOn(t: nat, steps: seq<Edge>): (types: seq<nat>)
    ensures types != []
    decreases |steps|
  {
    if steps == [] then [t] else [t] + TypesOn(steps[0].target, steps[1..])
  }

  ghost function NamesOf(steps: seq<Edge>): seq<string> {
    if steps == [] then [] else [steps[0].name] + NamesOf(steps[1..])
  }

  /** The steps lead from `root` to `t` and visit no type twice, and `text` is how they read. */
  ghost predicate Reaches(reg: Registry, root: nat, steps: seq<Edge>, t: nat, text: string) {
    && Chain(reg, root, steps) && Distinct(TypesOn(root, steps))
    && Last(TypesOn(root, steps)) == t && text == Render(NamesOf(steps))
  }

  /** Item `i` stands behind a slash between its two cuts. */
  ghost predicate Spelled(text: string, items: seq<string>, cuts: seq<nat>, i: nat)
    requires i < |items| && |cuts| == |items| + 1
  {
    cuts[i] <= cuts[i + 1] <= |text| && text[cuts[i]..cuts[i + 1]] == "/" + items[i]
  }

  /** The cuts divide the text into the items. */
  ghost predicate Spells(text: string, items: seq<string>, cuts: seq<nat>) {
    && |cuts| == |items| + 1 && cuts[0] == 0 && cuts[|items|] == |text|
    && forall i :: 0 <= i < |items| ==> Spelled(text, items, cuts, i)
  }

  lemma {:induction false} RenderSpells(items: seq<string>) returns (cuts: seq<nat>)
    ensures Spells(Render(items), items, cuts)
  {
    cuts := [0];
    if items != [] {
      var n := |items| - 1;
      var before := RenderSpells(items[..n]);
      var text, start := Render(items), Render(items[..n]);
      assert text == start + ("/" + items[n]);
      cuts := before + [|text|];
      forall i | 0 <= i < |items| ensures Spelled(text, items, cuts, i) {
        if i < n {
          assert Spelled(start, items[..n], before, i);
          assert text[cuts[i]..cuts[i + 1]] == start[before[i]..before[i + 1]];
        }
      }
    }
  }

  lemma {:induction false} PathToSteps(reg: Registry, t: nat, p: seq<nat>) returns (steps: seq<Edge>)
    requires Closed(GraphOf(reg)) && t in reg.types && Walkable(GraphOf(reg), t, p)
    ensures Chain(reg, t, steps) && TypesOn(t, steps) == Visited(GraphOf(reg), t, p) && NamesOf(steps) == Labels(GraphOf(reg), t, p)
    decreases |p|
  {
    steps := [];
    if p != [] {
      var g := GraphOf(reg);
      var e := EdgesFrom(g, t)[p[0]];
      assert Inside(g, t, p[0]);
      EdgeIff(reg, t, e);
      var rest := PathToSteps(reg, e.target, p[1..]);
      steps := [e] + rest;
      assert steps[1..] == rest;
    }
  }

  lemma {:induction false} StepsToPath(reg: Registry, t: nat, steps: seq<Edge>) returns (p: seq<nat>)
    requires Closed(GraphOf(reg)) && t in reg.types && Chain(reg, t, steps)
    ensures Walkable(GraphOf(reg), t, p)
    ensures TypesOn(t, steps) == Visited(GraphOf(reg), t, p) && NamesOf(steps) == Labels(GraphOf(reg), t, p)
    decreases |steps|
  {
    p := [];
    if steps != [] {
      var g := GraphOf(reg);
      assert steps[0] in EdgesFrom(g, t) by { EdgeIff(reg, t, steps[0]); }
      var k :| 0 <= k < |EdgesFrom(g, t)| && EdgesFrom(g, t)[k] == steps[0];
      assert Inside(g, t, k);
      var rest := StepsToPath(reg, steps[0].target, steps[1..]);
      p := [k] + rest;
      assert p[1..] == rest;
    }
  }

  /** What is recorded for the simple paths is what can be reached in the registry. */
  lemma RecordsOfRegistry(reg: Registry, root: nat, paths: seq<seq<nat>>, output: seq<(nat, string)>, t: nat, text: string)
    requires Closed(GraphOf(reg)) && root in reg.types
    requires forall p :: p in paths <==> SimplePath(GraphOf(reg), root, [], p)
    requires |output| == |paths| && forall k :: 0 <= k < |paths| ==> output[k] == Entry(GraphOf(reg), root, [], paths[k])
    ensures (t, text) in output <==> exists steps :: Reaches(reg, root, steps, t, text)
  {
    if (t, text) in output {
      var k :| 0 <= k < |output| && output[k] == (t, text);
      assert paths[k] in paths;
      var steps := PathToSteps(reg, root, paths[k]);
      assert [] + NamesOf(steps) == NamesOf(steps);
      assert Reaches(reg, root, steps, t, text);
    }
    if steps :| Reaches(reg, root, steps, t, text) {
      var p := StepsToPath(reg, root, steps);
      assert [] + NamesOf(steps) == NamesOf(steps);
      assert SimplePath(GraphOf(reg), root, [], p);
      var k :| 0 <= k < |paths| && paths[k] == p;
      assert output[k] == (t, text);
    }
  }

  class StaticInformation {
    const reg: Registry
    const g: Graph
    var output: seq<(nat, string)>
    var currentPath: seq<string>
    var alreadyProcessed: seq<nat>

    constructor (reg: Registry)
      ensures this.reg == reg && g == GraphOf(reg) && output == [] && currentPath == [] && alreadyProcessed == []
    {
      this.reg, g := reg, GraphOf(reg);
      output, currentPath, alreadyProcessed := [], [], [];
    }

    method GetCurrentPath() returns (path: string)
      ensures path == Render(currentPath) && exists cuts :: Spells(path, currentPath, cuts)
    {
      path := "";
      for i := 0 to |currentPath|
        invariant path == Render(currentPath[..i])
      {
        path := path + "/" + currentPath[i];
        assert currentPath[..i + 1][..i] == currentPath[..i];
      }
      assert currentPath[..|currentPath|] == currentPath;
      ghost var cuts := RenderSpells(currentPath);
    }

    method HasAlreadyBeenProcessed(t: nat) returns (found: bool)
      ensures found <==> t in alreadyProcessed
    {
      for i := 0 to |alreadyProcessed|
        invariant t !in alreadyProcessed[..i]
      {
        if alreadyProcessed[i] == t { return true; }
      }
      return false;
    }

    /** Push the label and the type, search below the edge, pop both. */
    method Descend(t: nat, edge: Edge)
      requires Closed(g) && t in g.Keys && t !in alreadyProcessed && edge.target in g.Keys
      modifies this
      ensures currentPath == old(currentPath) && alreadyProcessed == old(alreadyProcessed)
      ensures output == old(output) + Gathered(g, edge.target, currentPath + [edge.name], alreadyProcessed + [t])
      decreases Unprocessed(g, alreadyProcessed), 0
    {
      OneMoreProcessed(g, alreadyProcessed, t);
      currentPath := currentPath + [edge.name];
      alreadyProcessed := alreadyProcessed + [t];
      DoGather(edge.target);
      alreadyProcessed := alreadyProcessed[..|alreadyProcessed| - 1];
      currentPath := currentPath[..|currentPath| - 1];
    }

    method RecordOutput(t: nat)
      modifies this`output
      ensures output == old(output) + [(t, Render(currentPath))]
    {
      var path := GetCurrentPath();
      output := output + [(t, path)];
    }

    /** The attribute, child and aggregation loops, one after the other. */
    method Follow(t: nat)
      requires Closed(g) && t in g.Keys && t !in alreadyProcessed
      modifies this
      ensures currentPath == old(currentPath) && alreadyProcessed == old(alreadyProcessed)
      ensures output == old(output) + GatheredVia(g, t, currentPath, alreadyProcessed, |EdgesFrom(g, t)|)
      decreases Unprocessed(g, alreadyProcessed), 1
    {
      ghost var path, processed := currentPath, alreadyProcessed;
      var edges := EdgesFrom(g, t);
      for n := 0 to |edges|
        invariant currentPath == path && alreadyProcessed == processed
        invariant output == old(output) + GatheredVia(g, t, path, processed, n)
      {
        OneMoreEdge(g, t, path, processed, n, old(output));
        Descend(t, edges[n]);
      }
    }

    /** Appends what the search gathers, and leaves both stacks as they were. */
    method DoGather(t: nat)
      requires Closed(g) && t in g.Keys
      modifies this
      ensures currentPath == old(currentPath) && alreadyProcessed == old(alreadyProcessed)
      ensures output == old(output) + Gathered(g, t, currentPath, alreadyProcessed)
      decreases Unprocessed(g, alreadyProcessed), 2
    {
      var found := HasAlreadyBeenProcessed(t);
      if found { return; }
      RecordOutput(t);
      Follow(t);
    }

    /** From a fresh object: one record per simple path from the root, no path missing and none twice; that is, a record
        for everything that can be reached in the registry without visiting a type twice, and no other record. */
    method Gather(root: nat) returns (ghost paths: seq<seq<nat>>)
      requires g == GraphOf(reg) && Closed(g) && root in g.Keys && output == [] && currentPath == [] && alreadyProcessed == []
      modifies this
      ensures currentPath == [] && alreadyProcessed == []
      ensures Distinct(paths) && forall p :: p in paths <==> SimplePath(g, root, [], p)
      ensures |output| == |paths| && forall k :: 0 <= k < |paths| ==> output[k] == Entry(g, root, [], paths[k])
      ensures forall t: nat, text :: (t, text) in output <==> exists steps :: Reaches(reg, root, steps, t, text)
    {
      DoGather(root);
      paths := Paths(g, root, []);
      PathsAreDistinct(g, root, []);
      GatheredIsEntries(g, root, [], []);
      EntriesAt(g, root, [], paths);
      forall p ensures p in paths <==> SimplePath(g, root, [], p) { PathsAreSimplePaths(g, root, [], p); }
      forall t: nat, text ensures (t, text) in output <==> exists steps :: Reaches(reg, root, steps, t, text) {
        RecordsOfRegistry(reg, root, paths, output, t, text);
      }
    }
  }
}
