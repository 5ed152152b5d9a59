/** What every run of the worker pool comes to: no deadlock, an end, and the outcome. */
module WorkerRuns {
  import opened WorkerPool

  // ---------------------------------------------------------------- no deadlock, no endless run

  lemma {:induction false} SomeoneBusy(ws: seq<Worker>)
    ensures BusyCount(ws) > 0 ==> exists w :: 0 <= w < |ws| && Busy(ws[w])
  {
    if ws != [] {
      SomeoneBusy(ws[1..]);
      assert forall w :: 0 <= w < |ws[1..]| ==> ws[1..][w] == ws[w + 1];
    }
  }

  lemma {:induction false} AllExited(ws: seq<Worker>)
    ensures ExitedCount(ws) <= |ws|
    ensures ExitedCount(ws) == |ws| <==> forall w :: 0 <= w < |ws| ==> ws[w].Exited?
  {
    if ws != [] {
      AllExited(ws[1..]);
      assert ws == [ws[0]] + ws[1..];
    }
  }

  /** A worker with a job in hand can always move. */
  function WorkerMove(cfg: Config, s: State, w: nat): (a: Action)
    requires w < |s.workers| && Busy(s.workers[w])
    ensures Enabled(cfg, s, a) && a != Interrupt
  {
    if s.workers[w].Running? then Finish(w, 0)
    else if s.interrupted then HandBack(w)
    else if s.workers[w].job.isSkip then Skip(w)
    else Launch(w)
  }

  /** An interrupt may come at any time, a waiting worker takes whatever is queued, and a running job may end with any code. */
  lemma NothingIsRuledOut(cfg: Config, s: State, w: nat)
    requires w < |s.workers|
    ensures s.interrupted || Enabled(cfg, s, Interrupt)
    ensures s.workers[w].Waiting? && s.input != [] ==> Enabled(cfg, s, Get(w))
    ensures s.workers[w].Holding? ==>
              Enabled(cfg, s, if s.interrupted then HandBack(w) else if s.workers[w].job.isSkip then Skip(w) else Launch(w))
    ensures s.workers[w].Running? ==> forall code :: Enabled(cfg, s, Finish(w, code))
  {
  }

  /** Until the main thread is done, some thread can move without waiting for an interrupt. */
  lemma NoDeadlock(cfg: Config, s: State) returns (a: Action)
    requires cfg.workers >= 1 && Inv(cfg, s) && s.main != Done
    ensures Enabled(cfg, s, a) && a != Interrupt
  {
    SomeoneBusy(s.workers);
    AllExited(s.workers);
    if w :| 0 <= w < |s.workers| && Busy(s.workers[w]) {
      a := WorkerMove(cfg, s, w);
    } else if Enabled(cfg, s, Advance) {
      a := Advance;
    } else {
      match s.main {
        case Dispatching(_) => a := Dispatch;
        case Dismissing(_) => a := Dismiss;
        case Collecting(k) =>
          if s.output != [] {
            a := Collect;
          } else {
            // every job still to be collected is in the input queue, so nobody has exited
            assert Sentinels(s.input) < |s.input|;
            if ExitedCount(s.workers) > 0 { OnlySentinels(s.input); }
            assert s.workers[0].Waiting? by { AllIdle(s.workers, 0); }
            a := Get(0);
          }
        case Joining(k) =>
          if s.workers[k].Exited? {
            a := Join;
          } else {
            assert s.workers[k].Waiting?;
            assert Sentinels(s.input) > 0;
            a := Get(k);
          }
      }
    }
  }

  /** A run in which no thread can move any more has reached its end. */
  lemma StuckMeansDone(cfg: Config, acts: seq<Action>, s: State)
    requires cfg.workers >= 1 && Run(cfg, acts, s)
    requires forall a :: Enabled(cfg, s, a) ==> a == Interrupt
    ensures s.main == Done
  {
    EveryRunKeepsInv(cfg, acts, s);
    if s.main != Done {
      var a := NoDeadlock(cfg, s);
    }
  }

  lemma {:induction false} AllIdle(ws: seq<Worker>, w: nat)
    requires ExitedCount(ws) == 0 && w < |ws|
    ensures !ws[w].Exited?
  {
    if w > 0 { AllIdle(ws[1..], w - 1); }
  }

  /** Steps left: five per undispatched job down to one per job waiting to be collected, two per
      unsent sentinel, one per join and per phase change, one for the interrupt. */
  ghost function StepsLeft(cfg: Config, s: State): int {
    5 * (|cfg.skips| - Dispatched(cfg, s.main)) + 4 * (|s.input| - Sentinels(s.input)) + 2 * BusyCount(s.workers) + HoldingCount(s.workers) + |s.output|
    + 2 * (cfg.workers - Dismissed(cfg, s.main)) + Sentinels(s.input)
    + (match s.main
       case Dispatching(_) => 4 + cfg.workers
       case Dismissing(_) => 3 + cfg.workers
       case Collecting(_) => 2 + cfg.workers
       case Joining(k) => 1 + cfg.workers - k
       case Done => 0)
    + (if s.interrupted then 0 else 1)
  }

  lemma {:induction false} OnlySentinels(q: seq<Job>)
    ensures Sentinels(q) <= |q|
    ensures (forall i :: 0 <= i < |q| ==> q[i].isBreak) ==> Sentinels(q) == |q|
  {
    if q != [] { OnlySentinels(q[1..]); }
  }

  lemma StepsAreNatural(cfg: Config, s: State)
    requires Bookkeeping(cfg, s) && |s.workers| == cfg.workers
    ensures StepsLeft(cfg, s) >= 0
  {
    OnlySentinels(s.input);
  }

  lemma WorkerStepCounts(cfg: Config, s: State, a: Action)
    requires ByWorker(a) && Enabled(cfg, s, a)
    ensures StepsLeft(cfg, Apply(cfg, s, a)) < StepsLeft(cfg, s)
  {
    WorkerUpdate(s.workers, a.w, Apply(cfg, s, a).workers[a.w]);
  }

  lemma EveryStepCounts(cfg: Config, s: State, a: Action)
    requires Bookkeeping(cfg, s) && |s.workers| == cfg.workers && Enabled(cfg, s, a)
    ensures StepsLeft(cfg, Apply(cfg, s, a)) < StepsLeft(cfg, s)
  {
    if ByWorker(a) {
      WorkerStepCounts(cfg, s, a);
    } else if a.Dispatch? || a.Dismiss? {
      QueueAppend(s.input, Apply(cfg, s, a).input[|s.input|], 0, true);
    }
  }

  /** No interleaving goes on for ever: a run of J jobs on N workers has at most 5J + 3N + 5 steps. */
  lemma {:induction false} EveryRunEnds(cfg: Config, acts: seq<Action>, s: State)
    requires Run(cfg, acts, s)
    ensures 0 <= StepsLeft(cfg, s) <= 5 * |cfg.skips| + 3 * cfg.workers + 5 - |acts|
    decreases |acts|
  {
    if acts == [] {
      IdleWorkers(cfg.workers, 0);
    } else {
      var n := |acts| - 1;
      var before :| Run(cfg, acts[..n], before) && Enabled(cfg, before, acts[n]) && s == Apply(cfg, before, acts[n]);
      EveryRunEnds(cfg, acts[..n], before);
      EveryRunKeepsInv(cfg, acts[..n], before);
      EveryStepCounts(cfg, before, acts[n]);
    }
    EveryRunKeepsInv(cfg, acts, s);
    StepsAreNatural(cfg, s);
  }

  // ---------------------------------------------------------------- the outcome of a whole run

  ghost predicate PassedOrSkipped(j: Job) {
    !j.isBreak && (j.isSkip || j.returncode == 0)
  }

  ghost function InterruptedCount(jobs: seq<Job>): nat {
    if jobs == [] then 0
    else InterruptedCount(jobs[..|jobs| - 1]) + if jobs[|jobs| - 1].isBreak then 1 else 0
  }

  /** The returned status: zero when passed and skipped tests add up to all tests. */
  function Status(cfg: Config, t: Tally): int {
    if t.passed + t.skipped == |cfg.skips| then 0 else 1
  }

  /** The counters and the interrupted jobs partition what was collected. */
  lemma {:induction false} TallyPartitions(jobs: seq<Job>)
    ensures var t := TallyOf(jobs);
            t.passed + t.failed + t.skipped + t.crashed + t.valgrind + InterruptedCount(jobs) == |jobs|
    ensures var t := TallyOf(jobs);
            t.passed + t.skipped == |jobs| <==> forall i :: 0 <= i < |jobs| ==> PassedOrSkipped(jobs[i])
  {
    if jobs != [] {
      var n := |jobs| - 1;
      TallyPartitions(jobs[..n]);
      assert forall i :: 0 <= i < n ==> jobs[..n][i] == jobs[i];
    }
  }

  /** When `run_tests` returns: all workers are gone, both queues are empty, every dispatched job has been
      collected exactly once, the counters add up, and the status is 0 iff every job passed or was skipped. */
  lemma OutcomeOfEveryRun(cfg: Config, acts: seq<Action>, s: State)
    requires Run(cfg, acts, s) && s.main == Done
    ensures forall w :: 0 <= w < |s.workers| ==> s.workers[w].Exited?
    ensures s.input == [] && s.output == []
    ensures forall n: nat :: Occurs(s.collected, n, true) == if n < |cfg.skips| then 1 else 0
    ensures s.tally.passed + s.tally.failed + s.tally.skipped + s.tally.crashed + s.tally.valgrind
            + InterruptedCount(s.collected) == |cfg.skips|
    ensures Status(cfg, s.tally) == 0 <==> forall i :: 0 <= i < |s.collected| ==> PassedOrSkipped(s.collected[i])
    ensures InterruptedCount(s.collected) > 0 ==> s.interrupted && Status(cfg, s.tally) != 0
  {
    EveryRunKeepsInv(cfg, acts, s);
    TallyPartitions(s.collected);
    AllExited(s.workers);
    OnlySentinels(s.input);
    forall n: nat ensures Places(s, n) == Occurs(s.collected, n, true) {
      NobodyBusy(s.workers, n);
    }
    if InterruptedCount(s.collected) > 0 {
      var i := SomeInterrupted(s.collected);
    }
  }

  lemma {:induction false} NobodyBusy(ws: seq<Worker>, n: nat)
    requires forall w :: 0 <= w < |ws| ==> ws[w].Exited?
    ensures HeldBy(ws, n) == 0 && BusyCount(ws) == 0
  {
    if ws != [] { NobodyBusy(ws[1..], n); }
  }

  lemma {:induction false} SomeInterrupted(jobs: seq<Job>) returns (i: nat)
    requires InterruptedCount(jobs) > 0
    ensures i < |jobs| && jobs[i].isBreak
  {
    var n := |jobs| - 1;
    if jobs[n].isBreak { i := n; } else { i := SomeInterrupted(jobs[..n]); }
  }

  /** The collect loop over what came out of the output queue. */
  method CollectAll(results: seq<Job>) returns (passed: nat, failed: nat, skipped: nat, crashed: nat, valgrind: nat)
    ensures Tally(passed, failed, skipped, crashed, valgrind) == TallyOf(results)
  {
    passed, failed, skipped, crashed, valgrind := 0, 0, 0, 0, 0;
    for i := 0 to |results|
      invariant Tally(passed, failed, skipped, crashed, valgrind) == TallyOf(results[..i])
    {
      assert results[..i + 1][..i] == results[..i];
      var job := results[i];
      if job.isBreak { continue; }
      if job.isSkip {
        skipped := skipped + 1;
      } else if job.returncode == 0 {
        passed := passed + 1;
      } else if job.returncode == 1 {
        failed := failed + 1;
      } else if job.returncode == 2 {
        valgrind := valgrind + 1;
      } else {
        crashed := crashed + 1;
      }
    }
    assert results[..|results|] == results;
  }
}
