/** The callbacks and loops of scratch/simulation.cc that update the allocation tables in place,
    each proved to make the step that EdgeAllocation's laws are about, and said entry by entry. */
module EdgeManager {
  import opened EdgeAllocation
  import opened EdgeSteps

  /** `rand()` returns, sooner or later, a value that selects server `e`. */
  ghost predicate Drawn(draws: nat -> nat, servers: nat, e: nat)
  {
    servers > 0 && exists n: nat :: draws(n) % servers == e
  }

  /** `server` comes from the first draw that the loop may stop at. */
  ghost predicate FirstGood(s: State, cell: nat, draws: nat -> nat, server: nat)
    requires |s.resources| > 0
  {
    exists n: nat :: draws(n) % |s.resources| == server
                     && forall m: nat :: m < n ==> !GoodFallback(s, cell, draws(m) % |s.resources|)
  }

  class Tables {
    const cfg: Config
    var resources: seq<nat>
    var edgeUe: seq<seq<bool>>
    var active: seq<bool>
    var chart: seq<seq<int>>
    var due: seq<(nat, nat)>
    /** The attachment that AttachmentTables keeps; ghost here, because no allocation decision reads it. */
    ghost var cellOf: seq<int>

    ghost function View(): State
      reads this
    {
      State(resources, edgeUe, active, chart, due, cellOf)
    }

    /** `initialize_vectors`. */
    constructor (cfg: Config)
      ensures this.cfg == cfg && View() == Init(cfg) && Conserved(cfg, View())
      ensures forall e :: 0 <= e < Servers(cfg) ==> resources[e] == 10 && forall u :: 0 <= u < cfg.numUEs ==> !edgeUe[e][u]
      ensures forall u :: 0 <= u < cfg.numUEs ==> !active[u] && forall e :: 0 <= e < Servers(cfg) ==> chart[u][e] == 0
      ensures due == []
    {
      this.cfg := cfg;
      resources := seq(Servers(cfg), _ => EDGE_RESOURCES);
      edgeUe := seq(Servers(cfg), _ => seq(cfg.numUEs, _ => false));
      active := seq(cfg.numUEs, _ => false);
      chart := seq(cfg.numUEs, _ => seq(Servers(cfg), _ => 0));
      due := [];
      cellOf := seq(cfg.numUEs, _ => -1);
      new;
      InitConserved(cfg);
    }

    /** The random fallback loop, over the values that `rand()` will return. It stops because the
        conservation law leaves another server with a free unit and `rand()` reaches every server. */
    method Fallback(u: nat, cell: nat, draws: nat -> nat) returns (server: nat)
      requires Conserved(cfg, View()) && cfg.numUEs <= Capacity(cfg)
      requires u < cfg.numUEs && !active[u] && cell < Servers(cfg) && resources[cell] == 0
      requires forall e :: 0 <= e < Servers(cfg) ==> Drawn(draws, Servers(cfg), e)
      ensures GoodFallback(View(), cell, server) && FirstGood(View(), cell, draws, server)
    {
      ghost var free := FallbackExists(cfg, View(), u, cell);
      assert Drawn(draws, Servers(cfg), free);
      ghost var stop: nat :| draws(stop) % Servers(cfg) == free;
      var n: nat := 0;
      server := cell;
      while server == cell
        invariant server < Servers(cfg) && (server == cell ==> n <= stop)
        invariant server != cell ==> resources[server] != 0
        invariant forall m :: 0 <= m < n - (if server == cell then 0 else 1) ==> !GoodFallback(View(), cell, draws(m) % Servers(cfg))
        invariant server != cell ==> n > 0 && draws(n - 1) % Servers(cfg) == server
        decreases if server == cell then stop + 1 - n else 0
      {
        server := draws(n) % Servers(cfg);
        if resources[server] == 0 {
          server := cell;
        }
        n := n + 1;
      }
      assert draws(n - 1) % |resources| == server;
    }

    /** The allocation part of `NotifyConnectionEstablishedUe`. */
    method ConnectionEstablished(u: nat, cell: nat, draws: nat -> nat) returns (fallback: nat)
      requires Conserved(cfg, View()) && cfg.numUEs <= Capacity(cfg)
      requires u < cfg.numUEs && cell < Servers(cfg)
      requires forall e :: 0 <= e < Servers(cfg) ==> Drawn(draws, Servers(cfg), e)
      modifies this
      ensures Possible(cfg, old(View()), Connected(u, cell, fallback))
      ensures !old(active[u]) && old(resources)[cell] == 0 ==> FirstGood(old(View()), cell, draws, fallback)
      ensures View() == Apply(cfg, old(View()), Connected(u, cell, fallback))
      ensures Conserved(cfg, View())
      ensures active == old(active)[u := true]
      ensures old(active[u]) ==> resources == old(resources) && edgeUe == old(edgeUe)
      ensures !old(active[u]) ==>
                UnitGiven(cfg, old(resources), old(edgeUe), resources, edgeUe, if old(resources)[cell] > 0 then cell else fallback, u)
    {
      ghost var start := View();
      fallback := cell;
      if !active[u] {
        if resources[cell] == 0 {
          fallback := Fallback(u, cell, draws);
          active := active[u := true];
          resources := resources[fallback := Decrement(resources[fallback])];
          edgeUe := Place(edgeUe, fallback, u, true);
        } else {
          active := active[u := true];
          edgeUe := Place(edgeUe, cell, u, true);
          resources := resources[cell := Decrement(resources[cell])];
        }
      }
      cellOf := cellOf[u := cell];
      ConnectConserves(cfg, start, u, cell, fallback);
      if !start.active[u] { ConnectGivesUnit(cfg, start, u, cell, fallback); }
    }

    /** The "greedy" branch of `NotifyHandoverStartUe`. */
    method HandoverStarted(u: nat, source: nat, target: nat)
      requires Shaped(cfg, View()) && u < cfg.numUEs && source < Servers(cfg) && target < Servers(cfg) && cellOf[u] == source
      modifies this
      ensures View() == Apply(cfg, old(View()), EdgeAllocation.HandoverStarted(u, source, target))
      ensures Shaped(cfg, View()) && resources == old(resources)
      ensures cfg.algorithm == Greedy ==> UserMoved(cfg, old(edgeUe), edgeUe, u, source, target) && due == old(due) + [(source, target)]
      ensures cfg.algorithm != Greedy ==> edgeUe == old(edgeUe) && due == old(due)
    {
      HandoverMovesUser(cfg, View(), u, source, target);
      cellOf := cellOf[u := -1];
      if cfg.algorithm == Greedy {
        due := due + [(source, target)];
        edgeUe := Place(edgeUe, source, u, false);
        edgeUe := Place(edgeUe, target, u, true);
      }
    }

    /** `NotifyHandoverEndOkUe` leaves the allocation alone. */
    ghost method HandoverEnded(u: nat, cell: nat)
      requires Shaped(cfg, View()) && Possible(cfg, View(), EdgeAllocation.HandoverEnded(u, cell))
      modifies this`cellOf
      ensures View() == Apply(cfg, old(View()), EdgeAllocation.HandoverEnded(u, cell))
    {
      cellOf := cellOf[u := cell];
    }

    /** The scheduler calls `migrate` with the arguments of the `k`-th waiting migration. */
    method MigrationDue(k: nat)
      requires Shaped(cfg, View()) && k < |due|
      modifies this
      ensures View() == Apply(cfg, old(View()), EdgeAllocation.MigrationDue(k))
      ensures due == old(due)[..k] + old(due)[k + 1..] && edgeUe == old(edgeUe) && active == old(active)
      ensures var (source, target) := old(due)[k];
              && (old(resources)[target] == 0 ==> resources == old(resources))
              && (old(resources)[target] > 0 && source != target ==>
                    resources == old(resources)[source := (old(resources)[source] + 1) % 0x1_0000][target := old(resources)[target] - 1])
      ensures old(Conserved(cfg, View())) && Capacity(cfg) < 0x1_0000 ==> Conserved(cfg, View())
    {
      ghost var start := View();
      var (source, target) := due[k];
      due := due[..k] + due[k + 1..];
      Migrate(source, target);
      if Conserved(cfg, start) && Capacity(cfg) < 0x1_0000 {
        ApplyConserves(cfg, start, EdgeAllocation.MigrationDue(k));
      }
    }

    /** One unit goes back from `target` to `source`, if there is one. */
    method Migrate(source: nat, target: nat)
      requires source < |resources| && target < |resources|
      modifies this`resources
      ensures resources == EdgeAllocation.Migrate(old(resources), source, target)
      ensures old(resources)[target] == 0 ==> resources == old(resources)
      ensures 0 < old(resources)[target] < 0x1_0000 && source != target ==>
                resources == old(resources)[source := (old(resources)[source] + 1) % 0x1_0000][target := old(resources)[target] - 1]
    {
      if resources[target] <= 0 {
        return;
      }
      resources := resources[source := Increment(resources[source])];
      resources := resources[target := Decrement(resources[target])];
    }

    method GetEdge(u: nat) returns (e: int)
      requires Shaped(cfg, View()) && u < cfg.numUEs
      ensures e == EdgeAllocation.GetEdge(edgeUe, u)
    {
      e := -1;
      for i := 0 to |edgeUe|
        invariant e == GetEdgeAmong(edgeUe, u, i)
      {
        if edgeUe[i][u] { e := i; }
      }
    }

    /** The scoring loop of the manager. */
    method BestServer() returns (best: int)
      requires Shaped(cfg, View())
      ensures best == BestOf(cfg, resources, |resources|).0
      ensures |resources| > 0 ==> best >= 0 && Favoured(cfg, resources, best)
    {
      best := -1;
      var greatestScore: int := -1;
      for edgeId := 0 to |resources|
        invariant (best, greatestScore) == BestOf(cfg, resources, edgeId)
      {
        var score := Score(cfg, resources, edgeId);
        if score > greatestScore {
          greatestScore := score;
          best := edgeId;
        }
      }
      if |resources| > 0 {
        BestIsGreatest(cfg, resources, |resources|);
        WinnerIsFavoured(cfg, resources, best);
      }
    }

    /** One user's turn, as DecideIsTurn describes it. */
    method ManageUser(now: real, u: nat, predicted: bool)
      requires Shaped(cfg, View()) && u < cfg.numUEs
      modifies this
      ensures View() == Decide(cfg, old(View()), now, u, predicted) && Shaped(cfg, View())
    {
      DecideShaped(cfg, View(), now, u, predicted);
      var serving := GetEdge(u);
      if serving < 0 || cfg.algorithm == NoMigration || cfg.algorithm == Greedy || !predicted { return; }
      var best := BestServer();
      BestIsGreatest(cfg, resources, |resources|);
      if best != serving && (chart[u][best] + 5) as real <= now {
        Migrate(serving, best);
        chart := chart[u := chart[u][best := now.Floor]];
        edgeUe := Place(edgeUe, serving, u, false);
        edgeUe := Place(edgeUe, best, u, true);
      }
    }

    /** The periodic `manager`, one user after the other on the tables the previous user left. */
    method Manage(now: real, predicted: seq<bool>) returns (ghost trace: seq<State>)
      requires Shaped(cfg, View()) && |predicted| == cfg.numUEs
      modifies this
      ensures View() == Tick(cfg, old(View()), now, predicted, cfg.numUEs)
      ensures Turns(cfg, trace, now, predicted) && trace[0] == old(View()) && trace[cfg.numUEs] == View()
      ensures old(Conserved(cfg, View())) && Capacity(cfg) < 0x1_0000 ==> Conserved(cfg, View())
    {
      ghost var start := View();
      for i := 0 to cfg.numUEs
        invariant View() == Tick(cfg, start, now, predicted, i)
      {
        ManageUser(now, i, predicted[i]);
      }
      trace := TickIsTurns(cfg, start, now, predicted, cfg.numUEs);
      assert predicted[..cfg.numUEs] == predicted;
      if Conserved(cfg, start) && Capacity(cfg) < 0x1_0000 { TickConserves(cfg, start, now, predicted); }
    }
  }
}
