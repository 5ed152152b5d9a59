/** The law for every single server: each active user sits on exactly one, and free units plus users fill it. */
module EdgeServerLaw {
  import opened EdgeAllocation

  /** `seat[u]` is the one server of user `u`, or -1; free units and seated users fill each server exactly. */
  ghost predicate Seated(cfg: Config, s: State, seat: seq<int>) {
    && Conserved(cfg, s) && |seat| == cfg.numUEs && s.due == []
    && (forall u :: 0 <= u < cfg.numUEs ==> -1 <= seat[u] < Servers(cfg) && (s.active[u] <==> seat[u] >= 0))
    && (forall e, u :: 0 <= e < Servers(cfg) && 0 <= u < cfg.numUEs ==> (s.edgeUe[e][u] <==> seat[u] == e))
    && (forall e :: 0 <= e < Servers(cfg) ==> s.resources[e] + CountTrue(s.edgeUe[e]) == EDGE_RESOURCES)
  }

  /** Each active user sits on exactly one server, each inactive one on none, and each server's free
      units and users add up to EDGE_RESOURCES. */
  ghost predicate PerServer(cfg: Config, s: State) {
    && Shaped(cfg, s)
    && (forall u :: 0 <= u < cfg.numUEs ==>
                      (s.active[u] <==> exists e :: 0 <= e < Servers(cfg) && s.edgeUe[e][u]))
    && (forall u, d, e :: 0 <= u < cfg.numUEs && 0 <= d < e < Servers(cfg) ==> !(s.edgeUe[d][u] && s.edgeUe[e][u]))
    && (forall e :: 0 <= e < Servers(cfg) ==> s.resources[e] + CountTrue(s.edgeUe[e]) == EDGE_RESOURCES)
  }

  lemma SeatedIsPerServer(cfg: Config, s: State, seat: seq<int>)
    requires Seated(cfg, s, seat)
    ensures PerServer(cfg, s)
  {
    forall u | 0 <= u < cfg.numUEs
      ensures s.active[u] <==> exists e :: 0 <= e < Servers(cfg) && s.edgeUe[e][u]
    {
      if s.active[u] { assert s.edgeUe[seat[u]][u]; }
    }
    forall u, d, e | 0 <= u < cfg.numUEs && 0 <= d < e < Servers(cfg) ensures !(s.edgeUe[d][u] && s.edgeUe[e][u]) {
      assert s.edgeUe[d][u] <==> seat[u] == d;
    }
  }

  /** What a caller can check before a run: nobody ever migrates, or no winner can ever be full. */
  predicate RoomToMigrate(cfg: Config) {
    || cfg.algorithm == NoMigration
    || Servers(cfg) == 1
    || cfg.numUEs <= EDGE_RESOURCES
    || (cfg.latency >= 1 && cfg.numUEs < Capacity(cfg))
  }

  /** The scored winner, if it is not the serving node, always has a free unit. */
  lemma WinnerHasRoom(cfg: Config, s: State, seat: seq<int>, u: nat)
    requires Seated(cfg, s, seat) && RoomToMigrate(cfg) && cfg.algorithm == Scored
    requires u < cfg.numUEs && seat[u] >= 0
    ensures var best := BestOf(cfg, s.resources, |s.resources|).0;
            0 <= best < Servers(cfg) && (best != seat[u] ==> s.resources[best] > 0)
  {
    BestIsGreatest(cfg, s.resources, |s.resources|);
    var (best, greatest) := BestOf(cfg, s.resources, |s.resources|);
    if cfg.numUEs <= EDGE_RESOURCES {
      CountBound(s.edgeUe[best], u);
    } else if Servers(cfg) != 1 {
      CountBound(s.active, u);
      SumPositive(s.resources);
      var free :| 0 <= free < |s.resources| && s.resources[free] > 0;
      assert Score(cfg, s.resources, free) > 0;
    }
  }

  /** Who sits where after user `u` moved from its seat to `best`. */
  lemma MovedRows(cfg: Config, s: State, seat: seq<int>, u: nat, best: nat, rows: seq<seq<bool>>)
    requires Seated(cfg, s, seat) && u < cfg.numUEs && seat[u] >= 0 && best < Servers(cfg) && best != seat[u]
    requires rows == Place(Place(s.edgeUe, seat[u], u, false), best, u, true)
    ensures forall e, v :: 0 <= e < Servers(cfg) && 0 <= v < cfg.numUEs ==> (rows[e][v] <==> seat[u := best][v] == e)
    ensures forall e :: 0 <= e < Servers(cfg) ==> |rows[e]| == cfg.numUEs
    ensures forall e :: 0 <= e < Servers(cfg) ==>
              CountTrue(rows[e]) - CountTrue(s.edgeUe[e]) == (if e == best then 1 else if e == seat[u] then -1 else 0)
  {
    CountUpdate(s.edgeUe[seat[u]], u, false);
    CountUpdate(s.edgeUe[best], u, true);
  }

  /** Turning one user from `serving` to `best` in both tables keeps every server exactly filled. */
  lemma MigrationKeepsSeats(cfg: Config, s: State, seat: seq<int>, u: nat, best: nat, chart: seq<seq<int>>)
    requires Seated(cfg, s, seat) && u < cfg.numUEs && seat[u] >= 0
    requires best < Servers(cfg) && best != seat[u] && s.resources[best] > 0
    requires |chart| == cfg.numUEs && forall v :: 0 <= v < cfg.numUEs ==> |chart[v]| == Servers(cfg)
    ensures Seated(cfg, s.(resources := Migrate(s.resources, seat[u], best), chart := chart,
            edgeUe := Place(Place(s.edgeUe, seat[u], u, false), best, u, true)), seat[u := best])
  {
    MigrateMoves(s.resources, seat[u], best);
    MigrateKeepsSum(s.resources, seat[u], best);
    MovedRows(cfg, s, seat, u, best, Place(Place(s.edgeUe, seat[u], u, false), best, u, true));
  }

  lemma DecideKeepsSeats(cfg: Config, s: State, seat: seq<int>, now: real, u: nat, predicted: bool)
    returns (seat': seq<int>)
    requires Seated(cfg, s, seat) && RoomToMigrate(cfg) && u < cfg.numUEs
    requires cfg.algorithm == Scored || cfg.algorithm == NoMigration
    ensures Seated(cfg, Decide(cfg, s, now, u, predicted), seat')
  {
    seat' := seat;
    var serving := GetEdge(s.edgeUe, u);
    assert serving == seat[u] by {
      assert serving >= 0 ==> s.edgeUe[serving][u];
      assert seat[u] >= 0 ==> s.edgeUe[seat[u]][u];
    }
    if serving >= 0 && cfg.algorithm == Scored && predicted {
      WinnerHasRoom(cfg, s, seat, u);
      var best := BestOf(cfg, s.resources, |s.resources|).0;
      if best != serving && (s.chart[u][best] + 5) as real <= now {
        MigrationKeepsSeats(cfg, s, seat, u, best, s.chart[u := s.chart[u][best := now.Floor]]);
        seat' := seat[u := best];
      }
    }
  }

  lemma {:induction false} TickKeepsSeats(cfg: Config, s: State, seat: seq<int>, now: real, predicted: seq<bool>, users: nat)
    returns (seat': seq<int>)
    requires Seated(cfg, s, seat) && RoomToMigrate(cfg) && users <= cfg.numUEs == |predicted|
    requires cfg.algorithm == Scored || cfg.algorithm == NoMigration
    ensures Seated(cfg, Tick(cfg, s, now, predicted, users), seat')
  {
    seat' := seat;
    if users > 0 {
      var seat1 := TickKeepsSeats(cfg, s, seat, now, predicted, users - 1);
      var n := users - 1;
      seat' := DecideKeepsSeats(cfg, Tick(cfg, s, now, predicted, n), seat1, now, n, predicted[n]);
      LastUser(cfg, s, now, predicted, n);
    }
  }

  lemma ConnectKeepsSeats(cfg: Config, s: State, seat: seq<int>, u: nat, cell: nat, fallback: nat)
    returns (seat': seq<int>)
    requires Seated(cfg, s, seat) && Possible(cfg, s, Connected(u, cell, fallback))
    ensures Seated(cfg, Connect(s, u, cell, fallback), seat')
  {
    seat' := seat;
    ConnectConserves(cfg, s, u, cell, fallback);
    if !s.active[u] {
      var server := if s.resources[cell] == 0 then fallback else cell;
      Counting(s.resources[server]);
      CountUpdate(s.edgeUe[server], u, true);
      seat' := seat[u := server];
    }
  }

  lemma StepKeepsSeats(cfg: Config, s: State, seat: seq<int>, e: Event) returns (seat': seq<int>)
    requires Seated(cfg, s, seat) && RoomToMigrate(cfg) && Possible(cfg, s, e)
    requires cfg.algorithm == Scored || cfg.algorithm == NoMigration
    ensures Seated(cfg, Apply(cfg, s, e), seat')
  {
    seat' := seat;
    match e {
      case Connected(u, cell, fallback) => seat' := ConnectKeepsSeats(cfg, s, seat, u, cell, fallback);
      case HandoverStarted(_, _, _) =>
      case HandoverEnded(_, _) =>
      case ManagerTick(now, predicted) => seat' := TickKeepsSeats(cfg, s, seat, now, predicted, cfg.numUEs);
    }
  }

  lemma {:induction false} EveryRunKeepsSeats(cfg: Config, events: seq<Event>, s: State) returns (seat: seq<int>)
    requires cfg.numUEs <= Capacity(cfg) && RoomToMigrate(cfg) && Run(cfg, events, s)
    requires cfg.algorithm == Scored || cfg.algorithm == NoMigration
    ensures Seated(cfg, s, seat)
    decreases |events|
  {
    if events == [] {
      InitConserved(cfg);
      CountNone(cfg.numUEs);
      seat := seq(cfg.numUEs, _ => -1);
    } else {
      var n := |events| - 1;
      var before :| Run(cfg, events[..n], before) && Shaped(cfg, before)
                    && Possible(cfg, before, events[n]) && s == Apply(cfg, before, events[n]);
      seat := EveryRunKeepsSeats(cfg, events[..n], before);
      seat := StepKeepsSeats(cfg, before, seat, events[n]);
    }
  }

  // ---------------------------------------------------------------- exactly when the per-server law holds

  /** The state after users `0..k` connected, ten to a cell in order. */
  ghost function Packed(cfg: Config, k: nat): State
    requires k <= cfg.numUEs <= Capacity(cfg)
  {
    Init(cfg).(
    resources := seq(Servers(cfg), e => PackedFree(k, e)),
    edgeUe := seq(Servers(cfg), e => seq(cfg.numUEs, u => u < k && u / EDGE_RESOURCES == e)),
    active := seq(cfg.numUEs, u => u < k),
    cellOf := seq(cfg.numUEs, u => if u < k then u / EDGE_RESOURCES else -1))
  }

  lemma PackOneMore(cfg: Config, k: nat)
    requires k < cfg.numUEs <= Capacity(cfg)
    ensures k / EDGE_RESOURCES < Servers(cfg)
    ensures Connect(Packed(cfg, k), k, k / EDGE_RESOURCES, k / EDGE_RESOURCES) == Packed(cfg, k + 1)
    ensures Possible(cfg, Packed(cfg, k), Connected(k, k / EDGE_RESOURCES, k / EDGE_RESOURCES))
  {
    var cell := k / EDGE_RESOURCES;
    var s, s' := Packed(cfg, k), Packed(cfg, k + 1);
    assert EDGE_RESOURCES * cell <= k < EDGE_RESOURCES * (cell + 1);
    Counting(s.resources[cell]);
    assert s'.resources == s.resources[cell := s.resources[cell] - 1];
    assert s'.active == s.active[k := true];
    assert s'.cellOf == s.cellOf[k := cell];
    assert s'.edgeUe[cell] == s.edgeUe[cell][k := true];
    forall e | 0 <= e < Servers(cfg) && e != cell ensures s'.edgeUe[e] == s.edgeUe[e] {
    }
    assert s'.edgeUe == Place(s.edgeUe, cell, k, true);
  }

  lemma NobodyPacked(cfg: Config)
    requires cfg.numUEs <= Capacity(cfg)
    ensures Packed(cfg, 0) == Init(cfg)
  {
    var s := Packed(cfg, 0);
    assert s.resources == Init(cfg).resources && s.active == Init(cfg).active && s.cellOf == Init(cfg).cellOf;
    forall e | 0 <= e < Servers(cfg) ensures s.edgeUe[e] == Init(cfg).edgeUe[e] {
    }
    assert s.edgeUe == Init(cfg).edgeUe;
  }

  lemma {:induction false} PackedIsReachable(cfg: Config, k: nat) returns (events: seq<Event>)
    requires k <= cfg.numUEs <= Capacity(cfg)
    ensures Run(cfg, events, Packed(cfg, k)) && Shaped(cfg, Packed(cfg, k))
  {
    if k == 0 {
      events := [];
      NobodyPacked(cfg);
    } else {
      var first := PackedIsReachable(cfg, k - 1);
      var before, cell := Packed(cfg, k - 1), (k - 1) / EDGE_RESOURCES;
      var e := Connected(k - 1, cell, cell);
      assert Possible(cfg, before, e) && Apply(cfg, before, e) == Packed(cfg, k) by { PackOneMore(cfg, k - 1); }
      RunExtends(cfg, first, before, e);
      events := first + [e];
    }
  }

  /** Server 0 of the packed state is full, user 10 sits on server 1, and server 0 wins. */
  lemma FullWinner(cfg: Config)
    requires cfg.numUEs <= Capacity(cfg) && cfg.algorithm == Scored && !RoomToMigrate(cfg)
    ensures var s := Packed(cfg, cfg.numUEs);
            && Servers(cfg) >= 2 && s.resources[0] == 0
            && s.edgeUe[1][10] && (forall e :: 0 <= e < Servers(cfg) && s.edgeUe[e][10] ==> e == 1)
            && BestOf(cfg, s.resources, |s.resources|).0 == 0
  {
    var s := Packed(cfg, cfg.numUEs);
    forall e | 0 <= e < Servers(cfg) ensures Score(cfg, s.resources, e) == 0 {
    }
    BestIsGreatest(cfg, s.resources, |s.resources|);
    var (winner, greatest) := BestOf(cfg, s.resources, |s.resources|);
    assert Score(cfg, s.resources, 0) == greatest == 0;
  }

  /** With everybody connected, a predicted handover of user 10 makes the manager pick the full
      server 0: `migrate` fails and `edgeUe` is rewritten all the same. */
  lemma FullWinnerBreaksLaw(cfg: Config)
    requires cfg.numUEs <= Capacity(cfg) && cfg.algorithm == Scored && !RoomToMigrate(cfg)
    requires Shaped(cfg, Packed(cfg, cfg.numUEs))
    ensures !PerServer(cfg, Decide(cfg, Packed(cfg, cfg.numUEs), 5.0, 10, true))
  {
    var packed := Packed(cfg, cfg.numUEs);
    FullWinner(cfg);
    assert GetEdge(packed.edgeUe, 10) == 1;
    var moved := Decide(cfg, packed, 5.0, 10, true);
    assert moved.resources == packed.resources;
    assert moved.edgeUe[0] == packed.edgeUe[0][10 := true];
    CountUpdate(packed.edgeUe[0], 10, true);
    PackedCount(cfg);
  }

  /** A tick at second 5 in which only user 10 expects a handover. */
  lemma OnlyUserTen(cfg: Config, s: State) returns (e: Event)
    requires Shaped(cfg, s) && cfg.numUEs >= 11
    ensures Possible(cfg, s, e) && Apply(cfg, s, e) == Decide(cfg, s, 5.0, 10, true)
  {
    var predicted := seq(cfg.numUEs, u => u == 10);
    e := ManagerTick(5.0, predicted);
    QuietRest(cfg, s, Decide(cfg, s, 5.0, 10, true), predicted, cfg.numUEs);
  }

  lemma BrokenLawIsReachable(cfg: Config) returns (s: State)
    requires cfg.numUEs <= Capacity(cfg) && cfg.algorithm == Scored && !RoomToMigrate(cfg)
    ensures Reachable(cfg, s) && !PerServer(cfg, s)
  {
    var packed := Packed(cfg, cfg.numUEs);
    var first := PackedIsReachable(cfg, cfg.numUEs);
    var e := OnlyUserTen(cfg, packed);
    RunExtends(cfg, first, packed, e);
    FullWinnerBreaksLaw(cfg);
    s := Apply(cfg, packed, e);
  }

  /** Users without a predicted handover change nothing. */
  lemma {:induction false} QuietTick(cfg: Config, s: State, predicted: seq<bool>, users: nat)
    requires Shaped(cfg, s) && users <= cfg.numUEs == |predicted|
    requires forall u :: 0 <= u < users ==> !predicted[u]
    ensures Tick(cfg, s, 5.0, predicted, users) == s
  {
    if users > 0 { QuietTick(cfg, s, predicted, users - 1); }
  }

  lemma {:induction false} QuietRest(cfg: Config, s: State, moved: State, predicted: seq<bool>, users: nat)
    requires Shaped(cfg, s) && 11 <= users <= cfg.numUEs == |predicted|
    requires forall u :: 0 <= u < cfg.numUEs ==> (predicted[u] <==> u == 10)
    requires moved == Decide(cfg, s, 5.0, 10, true)
    ensures Tick(cfg, s, 5.0, predicted, users) == moved
  {
    if users == 11 {
      QuietTick(cfg, s, predicted, 10);
    } else {
      QuietRest(cfg, s, moved, predicted, users - 1);
    }
  }

  /** Server 0 of the packed state holds users 0 to 9. */
  lemma PackedCount(cfg: Config)
    requires EDGE_RESOURCES < cfg.numUEs <= Capacity(cfg)
    ensures CountTrue(Packed(cfg, cfg.numUEs).edgeUe[0]) == EDGE_RESOURCES
  {
    var row := Packed(cfg, cfg.numUEs).edgeUe[0];
    assert row == seq(10, _ => true) + seq(cfg.numUEs - 10, _ => false);
    CountNone(cfg.numUEs - 10);
    CountPrefix(10, seq(cfg.numUEs - 10, _ => false));
  }

  lemma {:induction false} CountPrefix(n: nat, rest: seq<bool>)
    ensures CountTrue(seq(n, _ => true) + rest) == n + CountTrue(rest)
  {
    if n == 0 {
      assert seq(0, _ => true) + rest == rest;
    } else {
      assert (seq(n, _ => true) + rest)[1..] == seq(n - 1, _ => true) + rest;
      CountPrefix(n - 1, rest);
    }
  }

  /** Outside "greedy" and "qos", the per-server law holds in every reachable state exactly when no
      winner can ever be full. */
  lemma PerServerLawIff(cfg: Config)
    requires cfg.numUEs <= Capacity(cfg)
    requires cfg.algorithm == Scored || cfg.algorithm == NoMigration
    ensures RoomToMigrate(cfg) <==> forall s :: Reachable(cfg, s) ==> PerServer(cfg, s)
  {
    if RoomToMigrate(cfg) {
      forall s | Reachable(cfg, s) ensures PerServer(cfg, s) {
        var events :| Run(cfg, events, s);
        var seat := EveryRunKeepsSeats(cfg, events, s);
        SeatedIsPerServer(cfg, s, seat);
      }
    } else {
      var s := BrokenLawIsReachable(cfg);
    }
  }
}
