/** The mutable tables behind Handover: the log, the per-second counters and the pending flags, with the
    loops of `find_handover` and `handoverManager`. */
module HandoverScheduler {
  import opened Handover

  class Scheduler {
    const cfg: Config
    var log: seq<Record>
    var perSecond: map<int, nat>
    var pending: seq<bool>

    ghost function View(): State
      reads this
    {
      State(log, perSecond, pending)
    }

    constructor (cfg: Config, users: nat)
      ensures this.cfg == cfg && View() == State([], map[], seq(users, _ => false))
    {
      this.cfg := cfg;
      log, perSecond, pending := [], map[], seq(users, _ => false);
    }

    method FindHandover(h: Record) returns (found: bool)
      ensures found <==> Repeats(log, h)
      ensures found <==> exists k :: 0 <= k < |log| && log[k].user == h.user && -2.0 < log[k].time - h.time < 2.0
    {
      for k := 0 to |log|
        invariant forall j :: 0 <= j < k ==> !Same(h, log[j])
      {
        if Same(h, log[k]) { return true; }
      }
      return false;
    }

    method ScheduleHandover(r: Report, target: nat)
      requires r.serving >= 0 && r.user < |pending|
      modifies this
      ensures View() == Schedule(old(View()), r, target)
    {
      var second := r.now.Floor;
      if second in perSecond {
        if perSecond[second] > MAX_HANDOVERS_PER_SECOND { return; }
      }
      var found := FindHandover(RecordOf(r, target));
      if found { return; }
      if !r.connectedNormally { return; }
      log := log + [RecordOf(r, target)];
      if second !in perSecond {
        perSecond := perSecond[second := 1];
      } else {
        perSecond := perSecond[second := perSecond[second] + 1];
      }
      pending := pending[r.user := true];
    }

    /** The "iuavbs" loop, which asks once per cell. */
    method AskForDrone(r: Report)
      requires WellFormed(cfg, View(), r) && r.serving >= 0 && cfg.policy == Iuavbs
      modifies this
      ensures View() == AskInLoop(cfg, old(View()), r, |r.signals|)
    {
      ghost var start := View();
      var rsrp, best: int := ZERO_SIGNAL_LEVEL, -1;
      for cell := 0 to |r.signals|
        invariant (best, rsrp) == Strongest(cfg, r, cell)
        invariant View() == AskInLoop(cfg, start, r, cell)
      {
        if r.signals[cell] > rsrp && cell != r.serving && IsDrone(cfg, cell) {
          rsrp, best := r.signals[cell], cell;
        }
        assert (best, rsrp) == Strongest(cfg, r, cell + 1);
        if best != -1 && best != r.serving && r.now > 1.0 && cfg.enableHandover {
          ScheduleHandover(r, best);
        }
      }
    }

    /** The loop of "classic" and "competing". */
    method FindStrongest(r: Report) returns (best: int, rsrp: real)
      requires |r.signals| == |r.spare|
      ensures (best, rsrp) == Strongest(cfg, r, |r.signals|)
    {
      rsrp, best := ZERO_SIGNAL_LEVEL, -1;
      for cell := 0 to |r.signals|
        invariant (best, rsrp) == Strongest(cfg, r, cell)
      {
        if r.signals[cell] > rsrp && Candidate(cfg, r, cell) {
          rsrp, best := r.signals[cell], cell;
        }
      }
    }

    method HandoverManager(r: Report)
      requires WellFormed(cfg, View(), r)
      modifies this
      ensures View() == Manage(cfg, old(View()), r)
    {
      if pending[r.user] || r.serving == -1 { return; }
      if r.signals[r.serving] < CONNECTED_SIGNAL_LEVEL { return; }
      if cfg.policy == NoPolicy { return; }
      if cfg.policy == Iuavbs {
        if r.unserved { AskForDrone(r); }
      } else {
        var best, rsrp := FindStrongest(r);
        AskedCellIsValid(cfg, r);
        if rsrp > SIGNAL_THRESHOLD + r.signals[r.serving] && best != r.serving && cfg.enableHandover {
          ScheduleHandover(r, best);
        }
      }
    }
  }
}
