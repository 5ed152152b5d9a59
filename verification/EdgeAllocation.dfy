/** Which edge server holds which user, and how many resource units each server has left:
    the part of scratch/simulation.cc that `initialize_vectors`, the connection and handover callbacks,
    `migrate` and the periodic `manager` share. Users and cells are numbered from zero. */
module EdgeAllocation {

  /** "greedy", "qos" and "nomigration" have branches of their own; every other name takes the rest. */
  datatype Algorithm = Greedy | Qos | NoMigration | Scored

  /** `latency` is what the running application requires. */
  datatype Config = Config(numStaticCells: nat, numUAVs: nat, numUEs: nat, algorithm: Algorithm, latency: int)

  const EDGE_RESOURCES: nat := 10

  function Servers(cfg: Config): nat {
    cfg.numStaticCells + cfg.numUAVs
  }

  function Capacity(cfg: Config): nat {
    Servers(cfg) * EDGE_RESOURCES
  }

  /** `resources` are 16-bit unsigned counters; `due` are the migrations scheduled but not yet run; `cellOf` is the
      cell each user is attached to, -1 for none, as CellAttachment has it. */
  datatype State = State(resources: seq<nat>, edgeUe: seq<seq<bool>>, active: seq<bool>,
                         chart: seq<seq<int>>, due: seq<(nat, nat)>, cellOf: seq<int>)

  function Increment(x: nat): nat { (x + 1) % 0x1_0000 }

  function Decrement(x: nat): nat { (x + 0xFFFF) % 0x1_0000 }

  ghost predicate Shaped(cfg: Config, s: State) {
    && |s.resources| == |s.edgeUe| == Servers(cfg)
    && (forall e :: 0 <= e < Servers(cfg) ==> |s.edgeUe[e]| == cfg.numUEs && s.resources[e] < 0x1_0000)
    && |s.active| == |s.chart| == |s.cellOf| == cfg.numUEs
    && (forall u :: 0 <= u < cfg.numUEs ==> |s.chart[u]| == Servers(cfg))
    && (forall k :: 0 <= k < |s.due| ==> s.due[k].0 < Servers(cfg) && s.due[k].1 < Servers(cfg))
  }

  function Init(cfg: Config): State {
    State(seq(Servers(cfg), _ => EDGE_RESOURCES), seq(Servers(cfg), _ => seq(cfg.numUEs, _ => false)),
          seq(cfg.numUEs, _ => false), seq(cfg.numUEs, _ => seq(Servers(cfg), _ => 0)), [],
          seq(cfg.numUEs, _ => -1))
  }

  function Place(edgeUe: seq<seq<bool>>, e: nat, u: nat, on: bool): seq<seq<bool>>
    requires e < |edgeUe| && u < |edgeUe[e]|
  {
    edgeUe[e := edgeUe[e][u := on]]
  }

  // ---------------------------------------------------------------- connection and handover

  /** The draws at which the random fallback loop may stop. */
  ghost predicate GoodFallback(s: State, cell: nat, server: nat) {
    server < |s.resources| && server != cell && s.resources[server] != 0
  }

  function Allocate(s: State, server: nat, u: nat): State
    requires server < |s.resources| && server < |s.edgeUe| && u < |s.edgeUe[server]|
  {
    s.(resources := s.resources[server := Decrement(s.resources[server])], edgeUe := Place(s.edgeUe, server, u, true))
  }

  function Connect(s: State, u: nat, cell: nat, fallback: nat): State
    requires u < |s.active| == |s.cellOf| && cell < |s.resources| && fallback < |s.resources|
    requires |s.edgeUe| == |s.resources| && u < |s.edgeUe[cell]| && u < |s.edgeUe[fallback]|
  {
    if s.active[u] then s.(cellOf := s.cellOf[u := cell])
    else
      var s1 := s.(cellOf := s.cellOf[u := cell], active := s.active[u := true]);
      Allocate(s1, if s.resources[cell] == 0 then fallback else cell, u)
  }

  function HandoverStart(cfg: Config, s: State, u: nat, source: nat, target: nat): State
    requires source < |s.edgeUe| && target < |s.edgeUe| && u < |s.edgeUe[source]| && u < |s.edgeUe[target]|
    requires u < |s.cellOf|
  {
    if cfg.algorithm != Greedy then s.(cellOf := s.cellOf[u := -1])
    else s.(cellOf := s.cellOf[u := -1], due := s.due + [(source, target)],
         edgeUe := Place(Place(s.edgeUe, source, u, false), target, u, true))
  }

  function Migrate(resources: seq<nat>, source: nat, target: nat): seq<nat>
    requires source < |resources| && target < |resources|
  {
    if resources[target] <= 0 then resources
    else
      var r := resources[source := Increment(resources[source])];
      r[target := Decrement(r[target])]
  }

  // ---------------------------------------------------------------- the manager

  /** `getEdge` scans all servers and keeps the last one that holds the user; -1 if none does. */
  function GetEdge(edgeUe: seq<seq<bool>>, u: nat): (e: int)
    requires forall k :: 0 <= k < |edgeUe| ==> u < |edgeUe[k]|
    ensures -1 <= e < |edgeUe|
    ensures e >= 0 ==> edgeUe[e][u]
    ensures forall k :: e < k < |edgeUe| ==> !edgeUe[k][u]
  {
    GetEdgeAmong(edgeUe, u, |edgeUe|)
  }

  function GetEdgeAmong(edgeUe: seq<seq<bool>>, u: nat, n: nat): (e: int)
    requires n <= |edgeUe| && forall k :: 0 <= k < |edgeUe| ==> u < |edgeUe[k]|
    ensures -1 <= e < n
    ensures e >= 0 ==> edgeUe[e][u]
    ensures forall k :: e < k < n ==> !edgeUe[k][u]
  {
    if n == 0 then -1 else if edgeUe[n - 1][u] then n - 1 else GetEdgeAmong(edgeUe, u, n - 1)
  }

  /** Weights 57, 14 and 28 over latency, resources and cost; the divisions are integer divisions,
      and a UAV server adds where a static one multiplies. Both kinds offer a latency of 1. */
  function Score(cfg: Config, resources: seq<nat>, e: nat): nat
    requires e < |resources|
  {
    if cfg.algorithm == Qos then 1 / 1
    else if 1 > cfg.latency || resources[e] == 0 then 0
    else if e < cfg.numStaticCells then (1 / 1) * 57 + (1 / 4) * 28 + 1 * 14
    else ((1 / 1) + 57) + ((1 / 3) + 28) + (2 + 14)
  }

  /** The winner among the first `n` servers, with its score; -1 stands for "none yet" in both. */
  function BestOf(cfg: Config, resources: seq<nat>, n: nat): (best: (int, int))
    requires n <= |resources|
  {
    if n == 0 then (-1, -1)
    else
      var (winner, greatest) := BestOf(cfg, resources, n - 1);
      var score := Score(cfg, resources, n - 1);
      if score > greatest then (n - 1, score) else (winner, greatest)
  }

  /** The first server of greatest score wins. */
  lemma {:induction false} BestIsGreatest(cfg: Config, resources: seq<nat>, n: nat)
    requires 0 < n <= |resources|
    ensures var (winner, greatest) := BestOf(cfg, resources, n);
            && 0 <= winner < n && greatest == Score(cfg, resources, winner)
            && (forall e :: 0 <= e < n ==> Score(cfg, resources, e) <= greatest)
            && (forall e :: 0 <= e < winner ==> Score(cfg, resources, e) < greatest)
  {
    if n > 1 { BestIsGreatest(cfg, resources, n - 1); }
  }

  /** Where user `u` is to be moved, or -1: `predicted` says that a handover is expected after `now`. */
  function Choose(cfg: Config, s: State, now: real, u: nat, predicted: bool): (best: int)
    requires Shaped(cfg, s) && u < cfg.numUEs
    ensures -1 <= best < Servers(cfg)
    ensures best >= 0 ==> GetEdge(s.edgeUe, u) >= 0 && best != GetEdge(s.edgeUe, u)
  {
    var serving := GetEdge(s.edgeUe, u);
    if serving < 0 || cfg.algorithm == NoMigration || cfg.algorithm == Greedy || !predicted then -1
    else
      BestIsGreatest(cfg, s.resources, |s.resources|);
      var best := BestOf(cfg, s.resources, |s.resources|).0;
      if best == serving || (s.chart[u][best] + 5) as real > now then -1 else best
  }

  /** The move itself: `edgeUe` is rewritten whether or not `migrate` found a free unit. */
  function Relocate(s: State, now: real, u: nat, serving: nat, best: nat): State
    requires serving < |s.resources| == |s.edgeUe| && best < |s.resources| && u < |s.chart| && best < |s.chart[u]|
    requires u < |s.edgeUe[serving]| && u < |s.edgeUe[best]| && serving != best
  {
    s.(resources := Migrate(s.resources, serving, best),
    chart := s.chart[u := s.chart[u][best := now.Floor]],
    edgeUe := Place(Place(s.edgeUe, serving, u, false), best, u, true))
  }

  /** One user's turn of the manager. */
  function Decide(cfg: Config, s: State, now: real, u: nat, predicted: bool): State
    requires Shaped(cfg, s) && u < cfg.numUEs
  {
    var best := Choose(cfg, s, now, u, predicted);
    if best < 0 then s else Relocate(s, now, u, GetEdge(s.edgeUe, u), best)
  }

  lemma DecideShaped(cfg: Config, s: State, now: real, u: nat, predicted: bool)
    requires Shaped(cfg, s) && u < cfg.numUEs
    ensures Shaped(cfg, Decide(cfg, s, now, u, predicted))
  {
  }

  function Tick(cfg: Config, s: State, now: real, predicted: seq<bool>, users: nat): (s': State)
    requires Shaped(cfg, s) && users <= cfg.numUEs == |predicted|
    ensures Shaped(cfg, s')
  {
    if users == 0 then s
    else
      var before := Tick(cfg, s, now, predicted, users - 1);
      DecideShaped(cfg, before, now, users - 1, predicted[users - 1]);
      Decide(cfg, before, now, users - 1, predicted[users - 1])
  }

  lemma LastUser(cfg: Config, s: State, now: real, predicted: seq<bool>, users: nat)
    requires Shaped(cfg, s) && users < cfg.numUEs == |predicted|
    ensures Tick(cfg, s, now, predicted, users + 1)
         == Decide(cfg, Tick(cfg, s, now, predicted, users), now, users, predicted[users])
  {
  }

  // ---------------------------------------------------------------- runs

  datatype Event =
    | Connected(user: nat, cell: nat, fallback: nat)
    | HandoverStarted(user: nat, source: nat, target: nat)
    | HandoverEnded(user: nat, cell: nat)
    | MigrationDue(k: nat)
    | ManagerTick(now: real, predicted: seq<bool>)

  ghost predicate Possible(cfg: Config, s: State, e: Event) {
    match e
    case Connected(u, cell, fallback) =>
      && u < cfg.numUEs && cell < Servers(cfg) && fallback < Servers(cfg)
      && (u < |s.active| && !s.active[u] && cell < |s.resources| && s.resources[cell] == 0 ==> GoodFallback(s, cell, fallback))
    case HandoverStarted(u, source, target) =>
      source < Servers(cfg) && target < Servers(cfg) && u < cfg.numUEs && u < |s.cellOf| && s.cellOf[u] == source
    case HandoverEnded(u, cell) =>
      && u < cfg.numUEs && cell < Servers(cfg)
      && u < |s.active| && s.active[u] && u < |s.cellOf| && s.cellOf[u] == -1
    case MigrationDue(k) => k < |s.due|
    case ManagerTick(_, predicted) => |predicted| == cfg.numUEs
  }

  ghost function Apply(cfg: Config, s: State, e: Event): State
    requires Shaped(cfg, s) && Possible(cfg, s, e)
  {
    match e
    case Connected(u, cell, fallback) => Connect(s, u, cell, fallback)
    case HandoverStarted(u, source, target) => HandoverStart(cfg, s, u, source, target)
    case HandoverEnded(u, cell) => s.(cellOf := s.cellOf[u := cell])
    case MigrationDue(k) =>
      s.(resources := Migrate(s.resources, s.due[k].0, s.due[k].1), due := s.due[..k] + s.due[k + 1..])
    case ManagerTick(now, predicted) => Tick(cfg, s, now, predicted, cfg.numUEs)
  }

  ghost predicate Run(cfg: Config, events: seq<Event>, s: State)
    decreases |events|
  {
    if events == [] then s == Init(cfg)
    else
      var n := |events| - 1;
      exists before :: Run(cfg, events[..n], before) && Shaped(cfg, before)
                       && Possible(cfg, before, events[n]) && s == Apply(cfg, before, events[n])
  }

  lemma RunExtends(cfg: Config, events: seq<Event>, s: State, e: Event)
    requires Run(cfg, events, s) && Shaped(cfg, s) && Possible(cfg, s, e)
    ensures Run(cfg, events + [e], Apply(cfg, s, e)) && Shaped(cfg, Apply(cfg, s, e))
  {
    assert (events + [e])[..|events|] == events;
    ApplyShaped(cfg, s, e);
  }

  ghost predicate Reachable(cfg: Config, s: State) {
    exists events :: Run(cfg, events, s)
  }

  lemma ApplyShaped(cfg: Config, s: State, e: Event)
    requires Shaped(cfg, s) && Possible(cfg, s, e)
    ensures Shaped(cfg, Apply(cfg, s, e))
  {
  }

  // ---------------------------------------------------------------- sums

  ghost function Sum(r: seq<nat>): nat {
    if r == [] then 0 else r[0] + Sum(r[1..])
  }

  ghost function CountTrue(b: seq<bool>): nat {
    if b == [] then 0 else (if b[0] then 1 else 0) + CountTrue(b[1..])
  }

  lemma {:induction false} SumUpdate(r: seq<nat>, i: nat, x: nat)
    requires i < |r|
    ensures Sum(r[i := x]) + r[i] == Sum(r) + x
  {
    if i == 0 {
      assert r[0 := x][1..] == r[1..];
    } else {
      assert r[i := x][1..] == r[1..][i - 1 := x];
      SumUpdate(r[1..], i - 1, x);
    }
  }

  lemma {:induction false} SumBounds(r: seq<nat>, i: nat)
    requires i < |r|
    ensures r[i] <= Sum(r)
  {
    if i > 0 { SumBounds(r[1..], i - 1); }
  }

  lemma {:induction false} SumPositive(r: seq<nat>)
    ensures Sum(r) > 0 <==> exists i :: 0 <= i < |r| && r[i] > 0
  {
    if r != [] {
      SumPositive(r[1..]);
      assert forall i :: 0 <= i < |r[1..]| ==> r[1..][i] == r[i + 1];
      if i :| 0 <= i < |r| && r[i] > 0 && i > 0 { assert r[1..][i - 1] > 0; }
    }
  }

  lemma {:induction false} SumOfEqual(n: nat, x: nat)
    ensures Sum(seq(n, _ => x)) == n * x
  {
    if n > 0 {
      assert seq(n, _ => x)[1..] == seq(n - 1, _ => x);
      SumOfEqual(n - 1, x);
    }
  }

  lemma {:induction false} CountUpdate(b: seq<bool>, i: nat, x: bool)
    requires i < |b|
    ensures CountTrue(b[i := x]) + (if b[i] then 1 else 0) == CountTrue(b) + if x then 1 else 0
  {
    if i == 0 {
      assert b[0 := x][1..] == b[1..];
    } else {
      assert b[i := x][1..] == b[1..][i - 1 := x];
      CountUpdate(b[1..], i - 1, x);
    }
  }

  lemma {:induction false} CountBound(b: seq<bool>, i: nat)
    requires i < |b|
    ensures CountTrue(b) <= |b| && (!b[i] ==> CountTrue(b) < |b|)
  {
    if i > 0 {
      CountBound(b[1..], i - 1);
    } else if |b| > 1 {
      CountBound(b[1..], 0);
    }
  }

  lemma {:induction false} CountNone(n: nat)
    ensures CountTrue(seq(n, _ => false)) == 0
  {
    if n > 0 {
      assert seq(n, _ => false)[1..] == seq(n - 1, _ => false);
      CountNone(n - 1);
    }
  }

  // ---------------------------------------------------------------- the global law

  /** Free units plus active users always make up the installed capacity. */
  ghost predicate Conserved(cfg: Config, s: State) {
    Shaped(cfg, s) && Sum(s.resources) + CountTrue(s.active) == Capacity(cfg)
  }

  /** The check of `initialize_vectors`, and a capacity that fits the 16-bit counters. */
  ghost predicate Sized(cfg: Config) {
    cfg.numUEs <= Capacity(cfg) < 0x1_0000
  }

  lemma InitConserved(cfg: Config)
    ensures Conserved(cfg, Init(cfg))
  {
    SumOfEqual(Servers(cfg), EDGE_RESOURCES);
    CountNone(cfg.numUEs);
  }

  lemma Counting(x: nat)
    requires x < 0x1_0000
    ensures x < 0xFFFF ==> Increment(x) == x + 1
    ensures x > 0 ==> Decrement(x) == x - 1
    ensures Decrement(Increment(x)) == x
  {
  }

  /** What a migration leaves on server `e`: one unit has moved from `target` to `source`, if there was one. */
  ghost function Moved(r: seq<nat>, source: nat, target: nat, e: nat): int
    requires target < |r| && e < |r|
  {
    r[e] + (if r[target] == 0 || source == target then 0 else if e == source then 1 else if e == target then -1 else 0)
  }

  lemma MigrateMoves(r: seq<nat>, source: nat, target: nat)
    requires source < |r| && target < |r|
    requires forall e :: 0 <= e < |r| ==> r[e] < 0x1_0000
    requires r[source] < 0xFFFF || source == target
    ensures forall e :: 0 <= e < |r| ==> Migrate(r, source, target)[e] == Moved(r, source, target, e)
  {
    Counting(r[source]);
    Counting(r[target]);
  }

  lemma MigrateKeepsSum(r: seq<nat>, source: nat, target: nat)
    requires source < |r| && target < |r|
    requires forall e :: 0 <= e < |r| ==> r[e] < 0x1_0000
    requires r[source] < 0xFFFF || Sum(r) < 0x1_0000
    ensures Sum(Migrate(r, source, target)) == Sum(r)
  {
    if r[target] > 0 {
      if source != target {
        SumUpdate(r, source, 0);
        SumBounds(r[source := 0], target);
      }
      Counting(r[source]);
      Counting(r[target]);
      var r1 := r[source := Increment(r[source])];
      SumUpdate(r, source, Increment(r[source]));
      SumUpdate(r1, target, Decrement(r1[target]));
    }
  }

  /** Whenever a user is still to be activated some server has a free unit, and if it is not the
      user's own, another one: the fallback loop can always stop. */
  lemma FallbackExists(cfg: Config, s: State, u: nat, cell: nat) returns (server: nat)
    requires Conserved(cfg, s) && cfg.numUEs <= Capacity(cfg)
    requires u < cfg.numUEs && !s.active[u] && cell < Servers(cfg) && s.resources[cell] == 0
    ensures GoodFallback(s, cell, server)
  {
    CountBound(s.active, u);
    SumPositive(s.resources);
    server :| 0 <= server < |s.resources| && s.resources[server] > 0;
  }

  lemma ConnectConserves(cfg: Config, s: State, u: nat, cell: nat, fallback: nat)
    requires Conserved(cfg, s) && Possible(cfg, s, Connected(u, cell, fallback))
    ensures Conserved(cfg, Connect(s, u, cell, fallback))
  {
    if !s.active[u] {
      var server := if s.resources[cell] == 0 then fallback else cell;
      SumUpdate(s.resources, server, s.resources[server] - 1);
      assert Decrement(s.resources[server]) == s.resources[server] - 1;
      CountUpdate(s.active, u, true);
    }
  }

  ghost predicate SameTotals(s: State, s': State) {
    Sum(s'.resources) == Sum(s.resources) && s'.active == s.active
  }

  /** One user's turn moves at most one unit between servers, and activates nobody. */
  lemma DecideKeepsSum(cfg: Config, start: State, s: State, now: real, u: nat, predicted: bool)
    requires Shaped(cfg, s) && SameTotals(start, s) && Sum(start.resources) < 0x1_0000 && u < cfg.numUEs
    ensures SameTotals(start, Decide(cfg, s, now, u, predicted))
  {
    var best := Choose(cfg, s, now, u, predicted);
    if best >= 0 { MigrateKeepsSum(s.resources, GetEdge(s.edgeUe, u), best); }
  }

  lemma {:induction false} TickKeepsSum(cfg: Config, s: State, now: real, predicted: seq<bool>, users: nat)
    requires Shaped(cfg, s) && Sum(s.resources) < 0x1_0000 && users <= cfg.numUEs == |predicted|
    ensures SameTotals(s, Tick(cfg, s, now, predicted, users))
  {
    if users > 0 {
      var n := users - 1;
      TickKeepsSum(cfg, s, now, predicted, n);
      DecideKeepsSum(cfg, s, Tick(cfg, s, now, predicted, n), now, n, predicted[n]);
      LastUser(cfg, s, now, predicted, n);
    }
  }

  lemma TickConserves(cfg: Config, s: State, now: real, predicted: seq<bool>)
    requires Conserved(cfg, s) && Capacity(cfg) < 0x1_0000 && cfg.numUEs == |predicted|
    ensures Conserved(cfg, Tick(cfg, s, now, predicted, cfg.numUEs))
  {
    TickKeepsSum(cfg, s, now, predicted, cfg.numUEs);
  }

  lemma ApplyConserves(cfg: Config, s: State, e: Event)
    requires Conserved(cfg, s) && Capacity(cfg) < 0x1_0000 && Possible(cfg, s, e)
    ensures Conserved(cfg, Apply(cfg, s, e))
  {
    ApplyShaped(cfg, s, e);
    match e {
      case Connected(u, cell, fallback) => ConnectConserves(cfg, s, u, cell, fallback);
      case HandoverStarted(_, _, _) =>
      case HandoverEnded(_, _) =>
      case MigrationDue(k) => MigrateKeepsSum(s.resources, s.due[k].0, s.due[k].1);
      case ManagerTick(now, predicted) => TickConserves(cfg, s, now, predicted);
    }
  }

  lemma {:induction false} EveryRunConserves(cfg: Config, events: seq<Event>, s: State)
    requires Sized(cfg) && Run(cfg, events, s)
    ensures Conserved(cfg, s)
    ensures forall e :: 0 <= e < Servers(cfg) ==> s.resources[e] <= Capacity(cfg)
    decreases |events|
  {
    if events == [] {
      InitConserved(cfg);
    } else {
      var n := |events| - 1;
      var before :| Run(cfg, events[..n], before) && Shaped(cfg, before)
                    && Possible(cfg, before, events[n]) && s == Apply(cfg, before, events[n]);
      EveryRunConserves(cfg, events[..n], before);
      ApplyConserves(cfg, before, events[n]);
    }
    forall e | 0 <= e < Servers(cfg) ensures s.resources[e] <= Capacity(cfg) { SumBounds(s.resources, e); }
  }

  /** Units left on server `e` after `k` units were taken in order, ten per server. */
  ghost function PackedFree(k: int, e: int): nat {
    if k >= EDGE_RESOURCES * (e + 1) then 0
    else if k <= EDGE_RESOURCES * e then EDGE_RESOURCES
    else EDGE_RESOURCES * (e + 1) - k
  }
}
