/** When scratch/simulation.cc asks for a handover and when the request is let through:
    `find_handover`, `schedule_handover` and the policies of `handoverManager`. */
module Handover {

  datatype Record = Record(time: real, user: nat, rnti: int, source: nat, target: nat)

  datatype Policy = Classic | Competing | Iuavbs | NoPolicy

  datatype Config = Config(policy: Policy, enableHandover: bool, numStaticCells: nat, numUAVs: nat)

  /** `log` is `handover_vector`, `perSecond` is `handovers_per_second`, `pending` is `handover_pending`. */
  datatype State = State(log: seq<Record>, perSecond: map<int, nat>, pending: seq<bool>)

  /** Everything `handoverManager` reads for one measurement report: the time, the user, the user's cell
      (-1 for none) and RNTI, the signal of every cell, and the flags the policies test. */
  datatype Report = Report(now: real, user: nat, serving: int, rnti: int, signals: seq<real>,
                           unserved: bool, demanding: bool, spare: seq<bool>, connectedNormally: bool)

  const MAX_HANDOVERS_PER_SECOND: nat := 3
  const ZERO_SIGNAL_LEVEL: real := -999.0
  const CONNECTED_SIGNAL_LEVEL: real := -90.0
  const SIGNAL_THRESHOLD: real := 3.0

  /** `numBSs`. */
  function Cells(cfg: Config): nat {
    cfg.numStaticCells + cfg.numUAVs
  }

  ghost predicate WellFormed(cfg: Config, s: State, r: Report) {
    r.now >= 0.0 && r.user < |s.pending| && -1 <= r.serving < |r.signals| == |r.spare| == Cells(cfg)
  }

  // ---------------------------------------------------------------- the scheduler

  /** Handovers of one user less than two seconds apart count as the same one. */
  predicate Same(a: Record, b: Record) {
    var gap := b.time - a.time;
    -2.0 < gap < 2.0 && a.user == b.user
  }

  predicate Repeats(log: seq<Record>, h: Record) {
    exists k :: 0 <= k < |log| && Same(h, log[k])
  }

  predicate Crowded(s: State, now: real) {
    now.Floor in s.perSecond && s.perSecond[now.Floor] > MAX_HANDOVERS_PER_SECOND
  }

  function RecordOf(r: Report, target: nat): Record
    requires r.serving >= 0
  {
    Record(r.now, r.user, r.rnti, r.serving, target)
  }

  predicate Accepts(s: State, r: Report, target: nat)
    requires r.serving >= 0
  {
    !Crowded(s, r.now) && !Repeats(s.log, RecordOf(r, target)) && r.connectedNormally
  }

  function Schedule(s: State, r: Report, target: nat): State
    requires r.serving >= 0 && r.user < |s.pending|
  {
    if !Accepts(s, r, target) then s
    else
      var second := r.now.Floor;
      State(s.log + [RecordOf(r, target)],
            s.perSecond[second := if second in s.perSecond then s.perSecond[second] + 1 else 1],
            s.pending[r.user := true])
  }

  /** Asking again in the same report changes nothing, whatever came of the first request. */
  lemma SecondRequestIsIdle(s: State, r: Report, target: nat, target': nat)
    requires r.serving >= 0 && r.user < |s.pending|
    ensures Schedule(Schedule(s, r, target), r, target') == Schedule(s, r, target)
  {
    var s1 := Schedule(s, r, target);
    if Accepts(s, r, target) {
      assert Same(RecordOf(r, target'), s1.log[|s.log|]);
    }
  }

  // ---------------------------------------------------------------- the policies

  predicate IsDrone(cfg: Config, cell: nat) {
    cell >= cfg.numStaticCells
  }

  /** The cells a policy considers. */
  predicate Candidate(cfg: Config, r: Report, cell: nat)
    requires cell < |r.spare|
  {
    && cell != r.serving
    && (match cfg.policy
        case Classic => true
        case Competing => r.demanding && r.spare[cell]
        case Iuavbs => IsDrone(cfg, cell)
        case NoPolicy => false)
  }

  /** The first candidate of strongest signal among the first `n` cells, if any beats the zero level. */
  function Strongest(cfg: Config, r: Report, n: nat): (b: (int, real))
    requires n <= |r.signals| == |r.spare|
    ensures -1 <= b.0 < n && b.1 >= ZERO_SIGNAL_LEVEL
    ensures b.0 == -1 ==> b.1 == ZERO_SIGNAL_LEVEL
    ensures b.0 >= 0 ==> Candidate(cfg, r, b.0) && r.signals[b.0] == b.1
    ensures forall c :: 0 <= c < n && Candidate(cfg, r, c) ==> r.signals[c] <= b.1
    ensures forall c :: 0 <= c < b.0 && Candidate(cfg, r, c) ==> r.signals[c] < b.1
  {
    if n == 0 then (-1, ZERO_SIGNAL_LEVEL)
    else
      var b := Strongest(cfg, r, n - 1);
      if r.signals[n - 1] > b.1 && Candidate(cfg, r, n - 1) then (n - 1, r.signals[n - 1]) else b
  }

  /** "iuavbs" asks inside its loop, once per remaining cell, for the best drone seen so far. */
  function AskInLoop(cfg: Config, s: State, r: Report, n: nat): (s': State)
    requires WellFormed(cfg, s, r) && r.serving >= 0 && n <= |r.signals|
    ensures |s'.pending| == |s.pending|
  {
    if n == 0 then s
    else
      var s1 := AskInLoop(cfg, s, r, n - 1);
      var best := Strongest(cfg, r, n).0;
      if best != -1 && best != r.serving && r.now > 1.0 && cfg.enableHandover then Schedule(s1, r, best) else s1
  }

  /** "classic" and "competing" ask once, for a cell clearly stronger than the serving one. */
  function AskOnce(cfg: Config, r: Report): int
    requires 0 <= r.serving < |r.signals| == |r.spare|
  {
    var (best, rsrp) := Strongest(cfg, r, |r.signals|);
    if rsrp > SIGNAL_THRESHOLD + r.signals[r.serving] && best != r.serving && cfg.enableHandover then best else -1
  }

  lemma AskedCellIsValid(cfg: Config, r: Report)
    requires 0 <= r.serving < |r.signals| == |r.spare|
    requires r.signals[r.serving] >= CONNECTED_SIGNAL_LEVEL
    ensures var (best, rsrp) := Strongest(cfg, r, |r.signals|);
            rsrp > SIGNAL_THRESHOLD + r.signals[r.serving] ==> best >= 0
  {
  }

  predicate Eligible(s: State, r: Report)
    requires r.user < |s.pending| && -1 <= r.serving < |r.signals|
  {
    !s.pending[r.user] && r.serving != -1 && r.signals[r.serving] >= CONNECTED_SIGNAL_LEVEL
  }

  function Manage(cfg: Config, s: State, r: Report): State
    requires WellFormed(cfg, s, r)
  {
    if !Eligible(s, r) then s
    else match cfg.policy
      case NoPolicy => s
      case Iuavbs => if r.unserved then AskInLoop(cfg, s, r, |r.signals|) else s
      case _ =>
        AskedCellIsValid(cfg, r);
        var target := AskOnce(cfg, r);
        if target >= 0 then Schedule(s, r, target) else s
  }

  // ---------------------------------------------------------------- one report, at most one request

  /** The first drone whose signal is above the zero level. */
  ghost predicate FirstDrone(cfg: Config, r: Report, n: nat, cell: nat)
    requires n <= |r.signals| == |r.spare|
  {
    && cell < n && Candidate(cfg, r, cell) && r.signals[cell] > ZERO_SIGNAL_LEVEL
    && forall c :: 0 <= c < cell && Candidate(cfg, r, c) ==> r.signals[c] <= ZERO_SIGNAL_LEVEL
  }

  /** Until the first drone above the zero level is reached there is no best drone. */
  lemma {:induction false} NoDroneBefore(cfg: Config, r: Report, n: nat)
    requires n <= |r.signals| == |r.spare|
    requires forall c :: 0 <= c < n && Candidate(cfg, r, c) ==> r.signals[c] <= ZERO_SIGNAL_LEVEL
    ensures Strongest(cfg, r, n).0 == -1
  {
    if n > 0 { NoDroneBefore(cfg, r, n - 1); }
  }

  lemma {:induction false} LoopWithoutDrone(cfg: Config, s: State, r: Report, n: nat)
    requires WellFormed(cfg, s, r) && r.serving >= 0 && n <= |r.signals|
    requires forall c :: 0 <= c < n && Candidate(cfg, r, c) ==> r.signals[c] <= ZERO_SIGNAL_LEVEL
    ensures AskInLoop(cfg, s, r, n) == s
  {
    if n > 0 {
      LoopWithoutDrone(cfg, s, r, n - 1);
      NoDroneBefore(cfg, r, n);
    }
  }

  /** The loop amounts to a single request, for the first drone above the zero level. */
  lemma {:induction false} LoopAsksForFirstDrone(cfg: Config, s: State, r: Report, n: nat, t: nat)
    requires WellFormed(cfg, s, r) && r.serving >= 0 && n <= |r.signals| && FirstDrone(cfg, r, n, t)
    ensures AskInLoop(cfg, s, r, n) == if r.now > 1.0 && cfg.enableHandover then Schedule(s, r, t) else s
  {
    var best := Strongest(cfg, r, n).0;
    if t == n - 1 {
      LoopWithoutDrone(cfg, s, r, t);
      NoDroneBefore(cfg, r, t);
      assert best == t;
    } else {
      var m := n - 1;
      assert FirstDrone(cfg, r, m, t);
      LoopAsksForFirstDrone(cfg, s, r, m, t);
      if best != -1 { SecondRequestIsIdle(s, r, t, best); }
    }
  }

  lemma FindFirstDrone(cfg: Config, r: Report) returns (t: int)
    requires |r.signals| == |r.spare|
    ensures t >= 0 ==> FirstDrone(cfg, r, |r.signals|, t)
    ensures t < 0 ==> forall c :: 0 <= c < |r.signals| && Candidate(cfg, r, c) ==> r.signals[c] <= ZERO_SIGNAL_LEVEL
  {
    for c := 0 to |r.signals|
      invariant forall d :: 0 <= d < c && Candidate(cfg, r, d) ==> r.signals[d] <= ZERO_SIGNAL_LEVEL
    {
      if Candidate(cfg, r, c) && r.signals[c] > ZERO_SIGNAL_LEVEL { return c; }
    }
    return -1;
  }

  lemma OneRequestPerReport(cfg: Config, s: State, r: Report)
    requires WellFormed(cfg, s, r)
    ensures Manage(cfg, s, r) == s
         || exists t :: 0 <= r.serving && 0 <= t < |r.signals| && t != r.serving && Accepts(s, r, t) && Manage(cfg, s, r) == Schedule(s, r, t)
  {
    if Eligible(s, r) && cfg.policy == Iuavbs {
      var t := FindFirstDrone(cfg, r);
      if t >= 0 {
        LoopAsksForFirstDrone(cfg, s, r, |r.signals|, t);
      } else {
        LoopWithoutDrone(cfg, s, r, |r.signals|);
      }
    } else if Eligible(s, r) && cfg.policy != NoPolicy {
      AskedCellIsValid(cfg, r);
    }
  }

  /** Although its loop looks for the strongest drone, "iuavbs" hands over to the first one above the zero
      level; that is a strongest one exactly when no later drone is stronger. */
  lemma IuavbsTakesFirstDrone(cfg: Config, s: State, r: Report, t: nat)
    requires WellFormed(cfg, s, r) && Eligible(s, r) && cfg.policy == Iuavbs && cfg.enableHandover
    requires r.unserved && r.now > 1.0 && FirstDrone(cfg, r, |r.signals|, t) && Accepts(s, r, t)
    ensures Manage(cfg, s, r).log == s.log + [RecordOf(r, t)]
    ensures t == Strongest(cfg, r, |r.signals|).0
       <==> forall c :: t < c < |r.signals| && Candidate(cfg, r, c) ==> r.signals[c] <= r.signals[t]
  {
    LoopAsksForFirstDrone(cfg, s, r, |r.signals|, t);
    var b := Strongest(cfg, r, |r.signals|);
    assert Candidate(cfg, r, t);
    if b.0 != t {
      assert b.0 > t && r.signals[b.0] > r.signals[t];
    }
  }

  lemma IuavbsMissesStrongest() returns (cfg: Config, s: State, r: Report)
    ensures WellFormed(cfg, s, r) && cfg.policy == Iuavbs && r.serving == 0 && |r.spare| == 3
    ensures Manage(cfg, s, r).log == [RecordOf(r, 1)] && Candidate(cfg, r, 2) && r.signals[2] > r.signals[1]
  {
    cfg, s := Config(Iuavbs, true, 1, 2), State([], map[], [false]);
    r := Report(2.0, 0, 0, 7, [-80.0, -85.0, -70.0], true, false, [false, false, false], true);
    assert FirstDrone(cfg, r, 3, 1);
    IuavbsTakesFirstDrone(cfg, s, r, 1);
  }

  // ---------------------------------------------------------------- the classic policy

  /** A requested target is a valid cell other than the serving one, and no cell has a stronger signal. */
  lemma ClassicTargetIsStrongest(cfg: Config, r: Report)
    requires cfg.policy == Classic && 0 <= r.serving < |r.signals| == |r.spare|
    requires r.signals[r.serving] >= CONNECTED_SIGNAL_LEVEL && AskOnce(cfg, r) != -1
    ensures var t := AskOnce(cfg, r);
            && 0 <= t < |r.signals| && t != r.serving
            && r.signals[t] > SIGNAL_THRESHOLD + r.signals[r.serving]
            && forall c :: 0 <= c < |r.signals| ==> r.signals[c] <= r.signals[t]
  {
    AskedCellIsValid(cfg, r);
    var (t, rsrp) := Strongest(cfg, r, |r.signals|);
    forall c | 0 <= c < |r.signals| ensures r.signals[c] <= r.signals[t] {
      if c != r.serving { assert Candidate(cfg, r, c); }
    }
  }

  /** Cells a user passes through when every report carries the same signals. */
  ghost predicate HandoverChain(cfg: Config, r: Report, cells: seq<nat>) {
    && |r.signals| == |r.spare| && cells != []
    && (forall k :: 0 <= k < |cells| ==> cells[k] < |r.signals| && r.signals[cells[k]] >= CONNECTED_SIGNAL_LEVEL)
    && (forall k :: 0 < k < |cells| ==> AskOnce(cfg, r.(serving := cells[k - 1])) == cells[k])
  }

  /** With the measurements held fixed, a classic handover is never followed by another. */
  lemma ClassicChainsAreShort(cfg: Config, r: Report, cells: seq<nat>)
    requires cfg.policy == Classic && HandoverChain(cfg, r, cells)
    ensures |cells| <= 2
  {
    if |cells| > 2 {
      assert AskOnce(cfg, r.(serving := cells[1 - 1])) == cells[1];
      assert AskOnce(cfg, r.(serving := cells[2 - 1])) == cells[2];
      ClassicTargetIsStrongest(cfg, r.(serving := cells[0]));
      ClassicTargetIsStrongest(cfg, r.(serving := cells[1]));
      assert false;
    }
  }

  // ---------------------------------------------------------------- whole runs

  /** A measurement report, or a callback that clears a user's pending flag. */
  datatype Event = Reported(report: Report) | Cleared(user: nat)

  function Apply(cfg: Config, s: State, e: Event): State
    requires e.Reported? ==> WellFormed(cfg, s, e.report)
    requires e.Cleared? ==> e.user < |s.pending|
  {
    match e
    case Reported(r) => Manage(cfg, s, r)
    case Cleared(user) => s.(pending := s.pending[user := false])
  }

  ghost predicate Run(cfg: Config, users: nat, events: seq<Event>, s: State)
    decreases |events|
  {
    if events == [] then s == State([], map[], seq(users, _ => false))
    else
      var n := |events| - 1;
      exists before ::
        && Run(cfg, users, events[..n], before)
        && (events[n].Reported? ==> WellFormed(cfg, before, events[n].report))
        && (events[n].Cleared? ==> events[n].user < |before.pending|)
        && s == Apply(cfg, before, events[n])
  }

  /** How many logged handovers fall into second `t`. */
  ghost function InSecond(log: seq<Record>, t: int): nat {
    if log == [] then 0
    else InSecond(log[..|log| - 1], t) + if log[|log| - 1].time.Floor == t then 1 else 0
  }

  ghost predicate Apart(a: Record, b: Record) {
    b.time - a.time >= 2.0 || a.time - b.time >= 2.0
  }

  /** No user has two handovers less than two seconds apart. */
  ghost predicate Spaced(log: seq<Record>) {
    forall i, j :: 0 <= i < j < |log| && log[i].user == log[j].user ==> Apart(log[i], log[j])
  }

  ghost predicate Counted(s: State) {
    forall t: int :: InSecond(s.log, t) == if t in s.perSecond then s.perSecond[t] else 0
  }

  ghost predicate Limited(s: State) {
    forall t :: t in s.perSecond ==> s.perSecond[t] <= MAX_HANDOVERS_PER_SECOND + 1
  }

  lemma ScheduleKeepsLimits(s: State, r: Report, target: nat)
    requires r.serving >= 0 && r.user < |s.pending| && Spaced(s.log) && Counted(s) && Limited(s)
    ensures var s' := Schedule(s, r, target); Spaced(s'.log) && Counted(s') && Limited(s')
  {
    var h := RecordOf(r, target);
    assert (s.log + [h])[..|s.log|] == s.log;
    if Accepts(s, r, target) {
      forall i | 0 <= i < |s.log| && s.log[i].user == h.user ensures Apart(s.log[i], h) { assert !Same(h, s.log[i]); }
    }
  }

  /** In every run, accepted handovers of one user are at least two seconds apart, the per-second counter equals the
      number of handovers logged in that second, and never exceeds the limit by more than one. */
  lemma {:induction false} LimitsInEveryRun(cfg: Config, users: nat, events: seq<Event>, s: State)
    requires Run(cfg, users, events, s)
    ensures Spaced(s.log) && Counted(s) && Limited(s)
    decreases |events|
  {
    if events != [] {
      var n := |events| - 1;
      var before :|
        && Run(cfg, users, events[..n], before)
        && (events[n].Reported? ==> WellFormed(cfg, before, events[n].report))
        && (events[n].Cleared? ==> events[n].user < |before.pending|)
        && s == Apply(cfg, before, events[n]);
      LimitsInEveryRun(cfg, users, events[..n], before);
      if events[n].Reported? {
        var r := events[n].report;
        OneRequestPerReport(cfg, before, r);
        if s != before {
          var t :| 0 <= r.serving && 0 <= t < |r.signals| && t != r.serving && Accepts(before, r, t) && s == Schedule(before, r, t);
          ScheduleKeepsLimits(before, r, t);
        }
      }
    }
  }

  // ---------------------------------------------------------------- exactly when a report leads to a handover

  /** The cell that the policy wants for this report, told from the measurements alone. */
  ghost predicate Wanted(cfg: Config, r: Report, t: nat) {
    && cfg.enableHandover && 0 <= r.serving < |r.signals| == |r.spare|
    && t < |r.signals| && t != r.serving && r.signals[t] > -999.0
    && (match cfg.policy
        case Classic =>
          && r.signals[t] > r.signals[r.serving] + 3.0
          && (forall c :: 0 <= c < |r.signals| && c != r.serving ==> r.signals[c] <= r.signals[t])
          && (forall c :: 0 <= c < t && c != r.serving ==> r.signals[c] < r.signals[t])
        case Competing =>
          && r.demanding && r.spare[t] && r.signals[t] > r.signals[r.serving] + 3.0
          && (forall c :: 0 <= c < |r.signals| && c != r.serving && r.spare[c] ==> r.signals[c] <= r.signals[t])
          && (forall c :: 0 <= c < t && c != r.serving && r.spare[c] ==> r.signals[c] < r.signals[t])
        case Iuavbs =>
          && r.unserved && r.now > 1.0 && cfg.numStaticCells <= t
          && (forall c :: cfg.numStaticCells <= c < t && c != r.serving ==> r.signals[c] <= -999.0)
        case NoPolicy => false)
  }

  /** The user may be handed over now: it is attached well enough and has nothing pending, its last handovers are two
      seconds away, and at most three were accepted in this second. */
  ghost predicate Admitted(s: State, r: Report) {
    && r.user < |s.pending| && !s.pending[r.user]
    && 0 <= r.serving < |r.signals| && r.signals[r.serving] >= -90.0 && r.connectedNormally
    && (forall k :: 0 <= k < |s.log| && s.log[k].user == r.user ==>
                      s.log[k].time - r.now >= 2.0 || r.now - s.log[k].time >= 2.0)
    && InSecond(s.log, r.now.Floor) <= 3
  }

  /** One handover from the serving cell to `t` was logged, counted and marked as pending; nothing else changed. */
  ghost predicate HandedOver(s: State, s': State, r: Report, t: nat) {
    && r.serving >= 0 && s'.log == s.log + [Record(r.now, r.user, r.rnti, r.serving, t)]
    && |s'.pending| == |s.pending|
    && (forall u :: 0 <= u < |s.pending| ==> s'.pending[u] == (u == r.user || s.pending[u]))
  }

  lemma WantedByClassic(cfg: Config, r: Report, t: nat)
    requires 0 <= r.serving < |r.signals| == |r.spare| && r.signals[r.serving] >= CONNECTED_SIGNAL_LEVEL
    requires cfg.policy == Classic || cfg.policy == Competing
    ensures Wanted(cfg, r, t) <==> AskOnce(cfg, r) == t
  {
    var (best, rsrp) := Strongest(cfg, r, |r.signals|);
    if t < |r.signals| && Candidate(cfg, r, t) && best >= 0 && best != t {
      assert r.signals[best] >= r.signals[t];
      assert best > t ==> r.signals[t] < r.signals[best];
    }
    if AskOnce(cfg, r) == t {
      assert t == best && Candidate(cfg, r, t);
      forall c | 0 <= c < |r.signals| && c != r.serving && (cfg.policy == Competing ==> r.spare[c])
        ensures r.signals[c] <= r.signals[t] && (c < t ==> r.signals[c] < r.signals[t])
      {
        assert Candidate(cfg, r, c);
      }
    }
  }

  lemma WantedByIuavbs(cfg: Config, r: Report, t: nat)
    requires 0 <= r.serving < |r.signals| == |r.spare| && cfg.policy == Iuavbs
    ensures Wanted(cfg, r, t) <==> cfg.enableHandover && r.unserved && r.now > 1.0 && FirstDrone(cfg, r, |r.signals|, t)
  {
    if t < |r.signals| {
      assert forall c: nat :: c < t ==> (Candidate(cfg, r, c) <==> cfg.numStaticCells <= c && c != r.serving);
    }
  }

  lemma AdmittedIffAccepted(s: State, r: Report, t: nat)
    requires Counted(s) && r.user < |s.pending| && -1 <= r.serving < |r.signals|
    ensures Admitted(s, r) <==> Eligible(s, r) && Accepts(s, r, t)
  {
    if r.serving >= 0 {
      var h := RecordOf(r, t);
      forall k | 0 <= k < |s.log| && s.log[k].user == r.user
        ensures Same(h, s.log[k]) <==> !(s.log[k].time - r.now >= 2.0 || r.now - s.log[k].time >= 2.0)
      {
      }
      if Repeats(s.log, h) {
        var k :| 0 <= k < |s.log| && Same(h, s.log[k]);
        assert s.log[k].user == r.user;
      }
      assert Crowded(s, r.now) <==> InSecond(s.log, r.now.Floor) > 3;
    }
  }

  /** A report leads to the handover its policy wants exactly when the user is admitted; every other report changes
      nothing. In particular a request is turned down as a repeat only for a record of the same user less than two
      seconds away. */
  lemma ReportIff(cfg: Config, s: State, r: Report)
    requires WellFormed(cfg, s, r) && Counted(s)
    ensures forall t :: Admitted(s, r) && Wanted(cfg, r, t) ==> HandedOver(s, Manage(cfg, s, r), r, t)
    ensures !Admitted(s, r) || (forall t :: !Wanted(cfg, r, t)) ==> Manage(cfg, s, r) == s
  {
    AdmittedIffAccepted(s, r, 0);
    if Eligible(s, r) {
      if cfg.policy == Iuavbs {
        IuavbsReport(cfg, s, r);
      } else if cfg.policy != NoPolicy {
        AskedCellIsValid(cfg, r);
        forall t: nat ensures Wanted(cfg, r, t) <==> AskOnce(cfg, r) == t { WantedByClassic(cfg, r, t); }
        var target := AskOnce(cfg, r);
        if target >= 0 {
          assert Wanted(cfg, r, target);
          AdmittedIffAccepted(s, r, target);
        }
      }
    }
  }

  lemma IuavbsReport(cfg: Config, s: State, r: Report)
    requires WellFormed(cfg, s, r) && Counted(s) && Eligible(s, r) && cfg.policy == Iuavbs
    ensures forall t :: Admitted(s, r) && Wanted(cfg, r, t) ==> HandedOver(s, Manage(cfg, s, r), r, t)
    ensures !Admitted(s, r) || (forall t :: !Wanted(cfg, r, t)) ==> Manage(cfg, s, r) == s
  {
    forall t: nat
      ensures Wanted(cfg, r, t) <==> cfg.enableHandover && r.unserved && r.now > 1.0 && FirstDrone(cfg, r, |r.signals|, t)
    {
      WantedByIuavbs(cfg, r, t);
    }
    var first := FindFirstDrone(cfg, r);
    if first >= 0 {
      AdmittedIffAccepted(s, r, first);
      assert FirstDrone(cfg, r, |r.signals|, first);
      LoopAsksForFirstDrone(cfg, s, r, |r.signals|, first);
    } else {
      LoopWithoutDrone(cfg, s, r, |r.signals|);
    }
  }

  // ---------------------------------------------------------------- pending handovers

  lemma {:induction false} RunsAgree(cfg: Config, users: nat, events: seq<Event>, s: State, t: State)
    requires Run(cfg, users, events, s) && Run(cfg, users, events, t)
    ensures s == t
    decreases |events|
  {
    if events != [] {
      var n := |events| - 1;
      var before, valid := LastStep(cfg, users, events, s);
      var other, alsoValid := LastStep(cfg, users, events, t);
      RunsAgree(cfg, users, events[..n], before, other);
    }
  }

  lemma LastStep(cfg: Config, users: nat, events: seq<Event>, s: State) returns (before: State, e: Event)
    requires events != [] && Run(cfg, users, events, s)
    ensures e == events[|events| - 1] && Run(cfg, users, events[..|events| - 1], before)
    ensures (e.Reported? ==> WellFormed(cfg, before, e.report)) && (e.Cleared? ==> e.user < |before.pending|)
    ensures s == Apply(cfg, before, e)
  {
    var n := |events| - 1;
    e := events[n];
    before :|
      && Run(cfg, users, events[..n], before)
      && (events[n].Reported? ==> WellFormed(cfg, before, events[n].report))
      && (events[n].Cleared? ==> events[n].user < |before.pending|)
      && s == Apply(cfg, before, events[n]);
  }

  ghost function HandoversOf(log: seq<Record>, u: nat): nat {
    if log == [] then 0
    else HandoversOf(log[..|log| - 1], u) + if log[|log| - 1].user == u then 1 else 0
  }

  /** How many events there are up to the last one that clears the flag of user `u`. */
  ghost function UntilClear(events: seq<Event>, u: nat): (n: nat)
    ensures n <= |events|
  {
    if events == [] || events[|events| - 1] == Cleared(u) then |events| else UntilClear(events[..|events| - 1], u)
  }

  /** Since its flag was last cleared, a user was handed over at most once, and the flag says whether it was. */
  lemma {:induction false} PendingSinceClear(cfg: Config, users: nat, events: seq<Event>, s: State, cleared: State, u: nat)
    requires u < users && Run(cfg, users, events, s) && Run(cfg, users, events[..UntilClear(events, u)], cleared)
    ensures |s.pending| == users && HandoversOf(s.log, u) == HandoversOf(cleared.log, u) + if s.pending[u] then 1 else 0
    decreases |events|
  {
    LogInEveryRun(cfg, users, events, s);
    if UntilClear(events, u) == |events| {
      assert events[..|events|] == events;
      RunsAgree(cfg, users, events, s, cleared);
      NotPendingAfterClear(cfg, users, events, s, u);
    } else {
      var n := |events| - 1;
      var before, e := LastStep(cfg, users, events, s);
      assert events[..n][..UntilClear(events[..n], u)] == events[..UntilClear(events, u)];
      PendingSinceClear(cfg, users, events[..n], before, cleared, u);
      if e.Reported? {
        LimitsInEveryRun(cfg, users, events[..n], before);
        PendingStep(cfg, before, e.report, u);
      }
    }
  }

  lemma NotPendingAfterClear(cfg: Config, users: nat, events: seq<Event>, s: State, u: nat)
    requires u < users && Run(cfg, users, events, s) && UntilClear(events, u) == |events| && |s.pending| == users
    ensures !s.pending[u]
  {
    if events != [] { var before, e := LastStep(cfg, users, events, s); }
  }

  lemma PendingStep(cfg: Config, s: State, r: Report, u: nat)
    requires WellFormed(cfg, s, r) && Counted(s) && u < |s.pending|
    ensures var s' := Manage(cfg, s, r);
            |s'.pending| == |s.pending| &&
            HandoversOf(s'.log, u) - (if s'.pending[u] then 1 else 0) == HandoversOf(s.log, u) - if s.pending[u] then 1 else 0
  {
    ReportIff(cfg, s, r);
    if Admitted(s, r) && exists t :: Wanted(cfg, r, t) {
      var t :| Wanted(cfg, r, t);
      var h := Record(r.now, r.user, r.rnti, r.serving, t);
      assert HandedOver(s, Manage(cfg, s, r), r, t);
      assert (s.log + [h])[..|s.log|] == s.log;
    }
  }

  // ---------------------------------------------------------------- the limit per second

  ghost predicate Reachable(cfg: Config, users: nat, s: State) {
    exists events :: Run(cfg, users, events, s)
  }

  /** A policy that asks, switched on, with another cell to go to, which for "iuavbs" has to be a drone. */
  predicate AsksForHandovers(cfg: Config) {
    && cfg.enableHandover && cfg.policy != NoPolicy
    && Cells(cfg) >= 2 && (cfg.policy == Iuavbs ==> cfg.numUAVs >= 1)
  }

  lemma NothingIsAsked(cfg: Config, s: State, r: Report)
    requires WellFormed(cfg, s, r) && !AsksForHandovers(cfg)
    ensures Manage(cfg, s, r) == s
  {
    if Eligible(s, r) && cfg.policy == Iuavbs {
      var t := FindFirstDrone(cfg, r);
      if t >= 0 {
        LoopAsksForFirstDrone(cfg, s, r, |r.signals|, t);
      } else {
        LoopWithoutDrone(cfg, s, r, |r.signals|);
      }
    }
  }

  ghost predicate OfUsers(log: seq<Record>, users: nat) {
    forall k :: 0 <= k < |log| ==> log[k].user < users
  }

  /** What every run keeps about the log: only the users of the run are in it, and nobody if nothing asks. */
  lemma {:induction false} LogInEveryRun(cfg: Config, users: nat, events: seq<Event>, s: State)
    requires Run(cfg, users, events, s)
    ensures |s.pending| == users && OfUsers(s.log, users)
    ensures !AsksForHandovers(cfg) ==> s.log == []
    decreases |events|
  {
    if events != [] {
      var n := |events| - 1;
      var before :|
        && Run(cfg, users, events[..n], before)
        && (events[n].Reported? ==> WellFormed(cfg, before, events[n].report))
        && (events[n].Cleared? ==> events[n].user < |before.pending|)
        && s == Apply(cfg, before, events[n]);
      LogInEveryRun(cfg, users, events[..n], before);
      if events[n].Reported? {
        OneRequestPerReport(cfg, before, events[n].report);
        if !AsksForHandovers(cfg) { NothingIsAsked(cfg, before, events[n].report); }
      }
    }
  }

  ghost function UsersInSecond(log: seq<Record>, t: int): (users: set<nat>)
    ensures forall u :: u in users ==> exists k :: 0 <= k < |log| && log[k].user == u && log[k].time.Floor == t
  {
    if log == [] then {}
    else
      var h := log[|log| - 1];
      UsersInSecond(log[..|log| - 1], t) + if h.time.Floor == t then {h.user} else {}
  }

  lemma LastUserIsNew(log: seq<Record>, t: int)
    requires log != [] && Spaced(log) && log[|log| - 1].time.Floor == t
    ensures log[|log| - 1].user !in UsersInSecond(log[..|log| - 1], t)
  {
    var n := |log| - 1;
    forall k | 0 <= k < n && log[k].user == log[n].user ensures log[k].time.Floor != t {
      assert Apart(log[k], log[n]);
    }
  }

  lemma SpacedPrefix(log: seq<Record>, n: nat)
    requires Spaced(log) && n <= |log|
    ensures Spaced(log[..n])
  {
    forall i, j | 0 <= i < j < n && log[i].user == log[j].user ensures Apart(log[..n][i], log[..n][j]) {
      assert Apart(log[i], log[j]);
    }
  }

  /** Within one second the log has no user twice. */
  lemma {:induction false} OneEachPerSecond(log: seq<Record>, t: int)
    requires Spaced(log)
    ensures |UsersInSecond(log, t)| == InSecond(log, t)
  {
    if log != [] {
      var n := |log| - 1;
      SpacedPrefix(log, n);
      OneEachPerSecond(log[..n], t);
      if log[n].time.Floor == t { LastUserIsNew(log, t); }
    }
  }

  lemma {:induction false} SmallSet(a: set<nat>, n: nat)
    requires forall u :: u in a ==> u < n
    ensures |a| <= n
  {
    if n > 0 {
      SmallSet(a - {n - 1}, n - 1);
    } else {
      assert a == {};
    }
  }

  lemma AtMostOnePerUser(cfg: Config, users: nat, s: State, t: int)
    requires Reachable(cfg, users, s)
    ensures InSecond(s.log, t) <= users
  {
    var events :| Run(cfg, users, events, s);
    LimitsInEveryRun(cfg, users, events, s);
    LogInEveryRun(cfg, users, events, s);
    OneEachPerSecond(s.log, t);
    SmallSet(UsersInSecond(s.log, t), users);
  }

  /** A report of a user whose last cell is much stronger than the serving first one and every other cell is silent. */
  function Pulled(cfg: Config, user: nat): (r: Report)
    requires Cells(cfg) >= 2
  {
    var n := Cells(cfg);
    Report(2.0, user, 0, 1, seq(n, c => if c == 0 then -80.0 else if c == n - 1 then -60.0 else ZERO_SIGNAL_LEVEL),
           true, true, seq(n, _ => true), true)
  }

  lemma PulledAsksForLast(cfg: Config, s: State, user: nat)
    requires AsksForHandovers(cfg) && user < |s.pending| && !s.pending[user]
    ensures Manage(cfg, s, Pulled(cfg, user)) == Schedule(s, Pulled(cfg, user), Cells(cfg) - 1)
  {
    var r, n := Pulled(cfg, user), Cells(cfg);
    NoDroneBefore(cfg, r, n - 1);
    assert Candidate(cfg, r, n - 1);
    if cfg.policy == Iuavbs {
      assert FirstDrone(cfg, r, n, n - 1);
      LoopAsksForFirstDrone(cfg, s, r, n, n - 1);
    }
  }

  /** After the reports of `k` users. */
  ghost predicate Logged(s: State, users: nat, k: nat) {
    && |s.pending| == users && InSecond(s.log, 2) == k && OfUsers(s.log, k)
    && forall u :: k <= u < users ==> !s.pending[u]
  }

  /** One more user asks in the same second and is let through. */
  lemma OneMoreAccepted(cfg: Config, s: State, users: nat, k: nat)
    requires AsksForHandovers(cfg) && Logged(s, users, k) && Counted(s) && k < users && k <= MAX_HANDOVERS_PER_SECOND
    ensures Logged(Manage(cfg, s, Pulled(cfg, k)), users, k + 1)
  {
    var r, last := Pulled(cfg, k), Cells(cfg) - 1;
    var h := RecordOf(r, last);
    PulledAsksForLast(cfg, s, k);
    assert !Crowded(s, 2.0) by { assert (2.0 as real).Floor == 2; }
    assert Accepts(s, r, last);
    assert (s.log + [h])[..|s.log|] == s.log;
  }

  /** `s` is the state after the reports of `k` users. */
  ghost predicate Pulls(cfg: Config, users: nat, k: nat, events: seq<Event>, s: State) {
    Run(cfg, users, events, s) && Logged(s, users, k)
  }

  lemma OneMorePull(cfg: Config, users: nat, k: nat, events: seq<Event>, s: State) returns (events': seq<Event>, s': State)
    requires AsksForHandovers(cfg) && Pulls(cfg, users, k, events, s) && k < users && k <= MAX_HANDOVERS_PER_SECOND
    ensures Pulls(cfg, users, k + 1, events', s')
  {
    var r := Pulled(cfg, k);
    assert Counted(s) by { LimitsInEveryRun(cfg, users, events, s); }
    OneMoreAccepted(cfg, s, users, k);
    events', s' := events + [Reported(r)], Manage(cfg, s, r);
    assert events'[..|events|] == events;
  }

  /** The first `k` users ask in the same second, and all are let through. */
  lemma {:induction false} AllAccepted(cfg: Config, users: nat, k: nat) returns (events: seq<Event>, s: State)
    requires AsksForHandovers(cfg) && k <= users && k <= MAX_HANDOVERS_PER_SECOND + 1
    ensures Pulls(cfg, users, k, events, s)
  {
    if k == 0 {
      events, s := [], State([], map[], seq(users, _ => false));
    } else {
      events, s := AllAccepted(cfg, users, k - 1);
      events, s := OneMorePull(cfg, users, k - 1, events, s);
    }
  }

  ghost predicate WithinLimit(s: State) {
    forall t :: InSecond(s.log, t) <= MAX_HANDOVERS_PER_SECOND
  }

  /** The limit per second is kept by every run exactly when there are at most three users or nothing asks for
      handovers: a fourth user is let through while the counter is three. */
  lemma WithinLimitIff(cfg: Config, users: nat)
    ensures (forall s :: Reachable(cfg, users, s) ==> WithinLimit(s))
       <==> users <= MAX_HANDOVERS_PER_SECOND || !AsksForHandovers(cfg)
  {
    if users <= MAX_HANDOVERS_PER_SECOND || !AsksForHandovers(cfg) {
      forall s | Reachable(cfg, users, s) ensures WithinLimit(s) {
        forall t ensures InSecond(s.log, t) <= MAX_HANDOVERS_PER_SECOND {
          AtMostOnePerUser(cfg, users, s, t);
          var events :| Run(cfg, users, events, s);
          LogInEveryRun(cfg, users, events, s);
        }
      }
    } else {
      var events, s := AllAccepted(cfg, users, MAX_HANDOVERS_PER_SECOND + 1);
      assert Reachable(cfg, users, s) && InSecond(s.log, 2) == 4;
    }
  }
}
