/** What each step on the allocation tables does to every single entry, said without the functions that compute it. */
module EdgeSteps {
  import opened EdgeAllocation

  // ---------------------------------------------------------------- connection and handover

  /** The only server row that changes is `server`'s: it loses a unit and gains the user. */
  ghost predicate UnitGiven(cfg: Config, r: seq<nat>, rows: seq<seq<bool>>, r': seq<nat>, rows': seq<seq<bool>>, server: nat, u: nat)
    requires |r| == |rows| == |r'| == |rows'| == Servers(cfg) && server < Servers(cfg) && u < cfg.numUEs
    requires forall e :: 0 <= e < Servers(cfg) ==> |rows[e]| == |rows'[e]| == cfg.numUEs
  {
    && rows'[server][u] && r'[server] + 1 == r[server]
    && (forall e, v :: 0 <= e < Servers(cfg) && 0 <= v < cfg.numUEs && (e != server || v != u) ==> rows'[e][v] == rows[e][v])
    && (forall e :: 0 <= e < Servers(cfg) && e != server ==> r'[e] == r[e])
  }

  /** A user that connects for the first time gets the server of its cell if that has a unit left, else the fallback. */
  lemma ConnectGivesUnit(cfg: Config, s: State, u: nat, cell: nat, fallback: nat)
    requires Shaped(cfg, s) && Possible(cfg, s, Connected(u, cell, fallback)) && !s.active[u]
    ensures var s' := Connect(s, u, cell, fallback);
            && Shaped(cfg, s') && s'.active == s.active[u := true]
            && UnitGiven(cfg, s.resources, s.edgeUe, s'.resources, s'.edgeUe, if s.resources[cell] > 0 then cell else fallback, u)
  {
    ApplyShaped(cfg, s, Connected(u, cell, fallback));
  }

  /** User `u` is taken off server `from` and put on server `to`; all other entries stay. */
  ghost predicate UserMoved(cfg: Config, rows: seq<seq<bool>>, rows': seq<seq<bool>>, u: nat, from: nat, to: nat) {
    && |rows| == |rows'| == Servers(cfg)
    && (forall e :: 0 <= e < Servers(cfg) ==> |rows[e]| == |rows'[e]| == cfg.numUEs)
    && forall e, v :: 0 <= e < Servers(cfg) && 0 <= v < cfg.numUEs ==>
                        rows'[e][v] == if v != u then rows[e][v] else if e == to then true else if e == from then false else rows[e][v]
  }

  lemma HandoverMovesUser(cfg: Config, s: State, u: nat, source: nat, target: nat)
    requires Shaped(cfg, s) && Possible(cfg, s, HandoverStarted(u, source, target))
    ensures var s' := HandoverStart(cfg, s, u, source, target);
            && s'.resources == s.resources && s'.active == s.active && s'.cellOf == s.cellOf[u := -1]
            && (cfg.algorithm == Greedy ==> UserMoved(cfg, s.edgeUe, s'.edgeUe, u, source, target) && s'.due == s.due + [(source, target)])
            && (cfg.algorithm != Greedy ==> s'.edgeUe == s.edgeUe && s'.due == s.due)
  {
  }

  // ---------------------------------------------------------------- the manager

  ghost predicate FirstFree(r: seq<nat>, first: nat, w: nat) {
    first <= w < |r| && r[w] > 0 && forall e :: first <= e < w ==> r[e] == 0
  }

  ghost predicate SomeFree(r: seq<nat>, first: nat) {
    exists e :: first <= e < |r| && r[e] > 0
  }

  /** Whom the scores favour: the first UAV server with a free unit, else the first static one with a free unit, else
      server 0; and server 0 under "qos" or when the application asks for more than any server can do. */
  ghost predicate Favoured(cfg: Config, r: seq<nat>, w: nat) {
    if cfg.algorithm == Qos || cfg.latency < 1 || !SomeFree(r, 0) then w == 0
    else if SomeFree(r, cfg.numStaticCells) then FirstFree(r, cfg.numStaticCells, w)
    else FirstFree(r, 0, w)
  }

  /** What the weights come to: a UAV server beats every static one, and a full server loses to both. */
  lemma ScoreValues(cfg: Config, r: seq<nat>, e: nat)
    requires e < |r|
    ensures Score(cfg, r, e) == if cfg.algorithm == Qos then 1
                                else if cfg.latency < 1 || r[e] == 0 then 0
                                else if e < cfg.numStaticCells then 71 else 102
  {
  }

  lemma WinnerIsFavoured(cfg: Config, r: seq<nat>, w: nat)
    requires |r| > 0
    ensures BestOf(cfg, r, |r|).0 == w <==> Favoured(cfg, r, w)
  {
    BestIsGreatest(cfg, r, |r|);
    var best := BestOf(cfg, r, |r|).0;
    forall e | 0 <= e < |r| ensures Score(cfg, r, e) <= Score(cfg, r, best) && (e < best ==> Score(cfg, r, e) < Score(cfg, r, best)) {
      ScoreValues(cfg, r, e);
    }
    WinnerIsBest(cfg, r, best);
    if Favoured(cfg, r, w) { OneFavoured(cfg, r, best, w); }
  }

  lemma OneFavoured(cfg: Config, r: seq<nat>, v: nat, w: nat)
    requires Favoured(cfg, r, v) && Favoured(cfg, r, w)
    ensures v == w
  {
  }

  lemma WinnerIsBest(cfg: Config, r: seq<nat>, best: nat)
    requires best < |r|
    requires forall e :: 0 <= e < |r| ==> Score(cfg, r, e) <= Score(cfg, r, best) && (e < best ==> Score(cfg, r, e) < Score(cfg, r, best))
    ensures Favoured(cfg, r, best)
  {
    ScoreValues(cfg, r, 0);
    ScoreValues(cfg, r, best);
    if cfg.algorithm != Qos && cfg.latency >= 1 {
      if e :| cfg.numStaticCells <= e < |r| && r[e] > 0 {
        ScoreValues(cfg, r, e);
      } else if e :| 0 <= e < |r| && r[e] > 0 {
        ScoreValues(cfg, r, e);
      }
      forall e | 0 <= e < best ensures r[e] > 0 ==> e < cfg.numStaticCells <= best { ScoreValues(cfg, r, e); }
    }
  }

  /** The manager is to move user `u` from server `from` to server `to`. */
  ghost predicate ToMove(cfg: Config, s: State, now: real, u: nat, predicted: bool, from: nat, to: nat)
    requires Shaped(cfg, s) && u < cfg.numUEs
  {
    && (cfg.algorithm == Qos || cfg.algorithm == Scored) && predicted
    && from < Servers(cfg) && to < Servers(cfg) && from != to
    && s.edgeUe[from][u] && (forall e :: from < e < Servers(cfg) ==> !s.edgeUe[e][u])
    && Favoured(cfg, s.resources, to)
    && now >= s.chart[u][to] as real + 5.0
  }

  /** The user sits on the new server whatever came of the unit; a unit goes back to the old server only if the new one
      had one to give. */
  ghost predicate Moved(cfg: Config, s: State, s': State, now: real, u: nat, from: nat, to: nat)
    requires Shaped(cfg, s) && u < cfg.numUEs && from < Servers(cfg) && to < Servers(cfg)
  {
    && Shaped(cfg, s') && s'.active == s.active && s'.due == s.due && s'.cellOf == s.cellOf
    && UserMoved(cfg, s.edgeUe, s'.edgeUe, u, from, to)
    && (forall v, e :: 0 <= v < cfg.numUEs && 0 <= e < Servers(cfg) ==>
                         s'.chart[v][e] == if v == u && e == to then now.Floor else s.chart[v][e])
    && (s.resources[to] == 0 ==> s'.resources == s.resources)
    && (s.resources[to] > 0 ==>
          && s'.resources[to] + 1 == s.resources[to] && s'.resources[from] == (s.resources[from] + 1) % 0x1_0000
          && forall e :: 0 <= e < Servers(cfg) && e != from && e != to ==> s'.resources[e] == s.resources[e])
  }

  /** One user's turn: the move that is due, or nothing. */
  ghost predicate Turn(cfg: Config, s: State, s': State, now: real, u: nat, predicted: bool) {
    && Shaped(cfg, s) && u < cfg.numUEs
    && (forall from, to :: ToMove(cfg, s, now, u, predicted, from, to) ==> Moved(cfg, s, s', now, u, from, to))
    && ((forall from, to :: !ToMove(cfg, s, now, u, predicted, from, to)) ==> s' == s)
  }

  lemma RelocateMoves(cfg: Config, s: State, now: real, u: nat, from: nat, to: nat)
    requires Shaped(cfg, s) && u < cfg.numUEs && from < Servers(cfg) && to < Servers(cfg) && from != to
    ensures Moved(cfg, s, Relocate(s, now, u, from, to), now, u, from, to)
  {
    if s.resources[to] > 0 { Counting(s.resources[to]); }
  }

  lemma ChooseIff(cfg: Config, s: State, now: real, u: nat, predicted: bool, from: nat, to: nat)
    requires Shaped(cfg, s) && u < cfg.numUEs
    ensures ToMove(cfg, s, now, u, predicted, from, to)
       <==> Choose(cfg, s, now, u, predicted) == to && GetEdge(s.edgeUe, u) == from
  {
    var serving := GetEdge(s.edgeUe, u);
    if serving >= 0 {
      WinnerIsFavoured(cfg, s.resources, to);
    }
  }

  lemma DecideIsTurn(cfg: Config, s: State, now: real, u: nat, predicted: bool)
    requires Shaped(cfg, s) && u < cfg.numUEs
    ensures Turn(cfg, s, Decide(cfg, s, now, u, predicted), now, u, predicted)
  {
    var best, serving := Choose(cfg, s, now, u, predicted), GetEdge(s.edgeUe, u);
    forall from: nat, to: nat ensures ToMove(cfg, s, now, u, predicted, from, to) <==> best == to && serving == from {
      ChooseIff(cfg, s, now, u, predicted, from, to);
    }
    if best >= 0 {
      assert ToMove(cfg, s, now, u, predicted, serving, best);
      RelocateMoves(cfg, s, now, u, serving, best);
    }
  }

  /** `trace` are the tables between the turns of one tick: every user has one turn, in order, on the tables that the
      user before left. */
  ghost predicate Turns(cfg: Config, trace: seq<State>, now: real, predicted: seq<bool>) {
    && |trace| == |predicted| + 1
    && forall u :: 0 <= u < |predicted| ==> Turn(cfg, trace[u], trace[u + 1], now, u, predicted[u])
  }

  lemma {:induction false} TickIsTurns(cfg: Config, s: State, now: real, predicted: seq<bool>, users: nat) returns (trace: seq<State>)
    requires Shaped(cfg, s) && users <= cfg.numUEs == |predicted|
    ensures Turns(cfg, trace, now, predicted[..users]) && trace[0] == s && trace[users] == Tick(cfg, s, now, predicted, users)
  {
    trace := [s];
    if users > 0 {
      var n := users - 1;
      trace := TickIsTurns(cfg, s, now, predicted, n);
      var last := Tick(cfg, s, now, predicted, n);
      var next := Decide(cfg, last, now, n, predicted[n]);
      assert Turn(cfg, last, next, now, n, predicted[n]) by { DecideIsTurn(cfg, last, now, n, predicted[n]); }
      OneMoreTurn(cfg, trace, now, predicted[..n], next, predicted[n]);
      trace := trace + [next];
      assert predicted[..n] + [predicted[n]] == predicted[..users];
      assert next == Tick(cfg, s, now, predicted, users) by { LastUser(cfg, s, now, predicted, n); }
    }
  }

  lemma OneMoreTurn(cfg: Config, trace: seq<State>, now: real, predicted: seq<bool>, next: State, p: bool)
    requires Turns(cfg, trace, now, predicted) && Turn(cfg, trace[|predicted|], next, now, |predicted|, p)
    ensures Turns(cfg, trace + [next], now, predicted + [p])
  {
  }
}
