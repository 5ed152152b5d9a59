/** Exactly when free units plus active users make up the capacity in every reachable state. */
module EdgeGlobalLaw {
  import opened EdgeAllocation

  /** After user 0 connected at cell 0, `m` units drained into server 0 by greedy migrations, server after server. */
  ghost function Drained(cfg: Config, m: nat): seq<nat> {
    seq(Servers(cfg), e => if e == 0 then EDGE_RESOURCES - 1 + m else PackedFree(m, e - 1))
  }

  lemma DrainOneMore(cfg: Config, m: nat)
    requires EDGE_RESOURCES + m + 1 <= Capacity(cfg) && EDGE_RESOURCES + m < 0x1_0000
    ensures 1 + m / EDGE_RESOURCES < Servers(cfg)
    ensures Migrate(Drained(cfg, m), 0, 1 + m / EDGE_RESOURCES) == Drained(cfg, m + 1)
  {
    var t := 1 + m / EDGE_RESOURCES;
    assert EDGE_RESOURCES * (t - 1) <= m < EDGE_RESOURCES * t;
    Counting(Drained(cfg, m)[t]);
    Counting(EDGE_RESOURCES - 1 + m);
    var r := Drained(cfg, m)[0 := EDGE_RESOURCES + m];
    assert Drained(cfg, m + 1) == r[t := r[t] - 1];
  }

  /** User 0 is connected at cell 0 and no migration is waiting. */
  ghost predicate AtHome(cfg: Config, events: seq<Event>, s: State) {
    Run(cfg, events, s) && Shaped(cfg, s) && cfg.numUEs >= 1 && s.active[0] && s.cellOf[0] == 0 && s.due == []
  }

  /** A greedy handover start from cell 0 to cell `t` followed by the migration it schedules. */
  lemma GreedyPair(cfg: Config, events: seq<Event>, s: State, t: nat) returns (events': seq<Event>, s': State)
    requires cfg.algorithm == Greedy && AtHome(cfg, events, s) && 0 < t < Servers(cfg)
    ensures Run(cfg, events', s') && Shaped(cfg, s') && s'.due == [] && s'.active == s.active
    ensures s'.resources == Migrate(s.resources, 0, t)
  {
    var start, due := HandoverStarted(0, 0, t), MigrationDue(0);
    RunExtends(cfg, events, s, start);
    var s1 := Apply(cfg, s, start);
    RunExtends(cfg, events + [start], s1, due);
    events', s' := events + [start] + [due], Apply(cfg, s1, due);
  }

  /** After the migration the handover fails, and user 0 comes back to cell 0. */
  lemma FailedHandover(cfg: Config, events: seq<Event>, s: State, t: nat) returns (events': seq<Event>, s': State)
    requires cfg.algorithm == Greedy && AtHome(cfg, events, s) && 0 < t < Servers(cfg)
    ensures AtHome(cfg, events', s') && s'.active == s.active
    ensures s'.resources == Migrate(s.resources, 0, t)
  {
    var pair, away := GreedyPair(cfg, events, s, t);
    var back := Connected(0, 0, 0);
    RunExtends(cfg, pair, away, back);
    events', s' := pair + [back], Apply(cfg, away, back);
  }

  lemma {:induction false} DrainedIsReachable(cfg: Config, m: nat) returns (events: seq<Event>, s: State)
    requires cfg.algorithm == Greedy && 1 <= cfg.numUEs <= Capacity(cfg)
    requires EDGE_RESOURCES + m <= Capacity(cfg) && EDGE_RESOURCES - 1 + m < 0x1_0000
    ensures AtHome(cfg, events, s) && s.resources == Drained(cfg, m)
  {
    if m == 0 {
      var e := Connected(0, 0, 0);
      RunExtends(cfg, [], Init(cfg), e);
      events, s := [] + [e], Apply(cfg, Init(cfg), e);
    } else {
      events, s := DrainedIsReachable(cfg, m - 1);
      DrainOneMore(cfg, m - 1);
      events, s := FailedHandover(cfg, events, s, 1 + (m - 1) / EDGE_RESOURCES);
    }
  }

  /** Beyond the 16-bit range, one user whose greedy handovers fail drains the other servers into server 0 until
      its counter wraps to zero. */
  lemma WrapIsReachable(cfg: Config) returns (s: State)
    requires cfg.algorithm == Greedy && 1 <= cfg.numUEs <= Capacity(cfg) && Capacity(cfg) >= 0x1_0000
    ensures Reachable(cfg, s) && !Conserved(cfg, s)
  {
    var events, full := DrainedIsReachable(cfg, 65526);
    WrapLosesUnits(full.resources, 6553);
    if Conserved(cfg, full) {
      events, s := FailedHandover(cfg, events, full, 6553);
    } else {
      s := full;
    }
  }

  lemma WrapLosesUnits(r: seq<nat>, t: nat)
    requires 0 < t < |r| && r[0] == 0xFFFF && 0 < r[t] < 0x1_0000
    ensures Sum(Migrate(r, 0, t)) < Sum(r)
  {
    Counting(r[t]);
    var r1 := r[0 := 0];
    SumUpdate(r, 0, 0);
    SumUpdate(r1, t, r1[t] - 1);
  }

  /** Whatever the algorithm, free units and active users make up the capacity in every reachable state,
      exactly when the capacity fits the 16-bit counters. */
  lemma GlobalLawIff(cfg: Config)
    requires 1 <= cfg.numUEs <= Capacity(cfg)
    ensures Capacity(cfg) < 0x1_0000 <==>
            forall algorithm, s {:trigger Reachable(cfg.(algorithm := algorithm), s)} ::
              Reachable(cfg.(algorithm := algorithm), s) ==> Conserved(cfg.(algorithm := algorithm), s)
  {
    if Capacity(cfg) < 0x1_0000 {
      forall algorithm, s | Reachable(cfg.(algorithm := algorithm), s)
        ensures Conserved(cfg.(algorithm := algorithm), s)
      {
        var c := cfg.(algorithm := algorithm);
        var events :| Run(c, events, s);
        EveryRunConserves(c, events, s);
      }
    } else {
      var s := WrapIsReachable(cfg.(algorithm := Greedy));
      assert Reachable(cfg.(algorithm := Greedy), s);
    }
  }
}
