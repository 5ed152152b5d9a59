/** The outcome of the worker pool's runs told from the actions alone: what each worker took, what it did with it and what
    the main thread collects and counts. */
module WorkerActions {
  import opened WorkerPool
  import opened WorkerRuns

  ghost function Times(acts: seq<Action>, p: Action -> bool): nat {
    if acts == [] then 0
    else Times(acts[..|acts| - 1], p) + if p(acts[|acts| - 1]) then 1 else 0
  }

  predicate IsGet(a: Action) { a.Get? }

  /** The number of the job that worker `w` took last: the input queue hands out the jobs in their order, so it is
      the number of jobs that any worker had taken before. */
  ghost function Taken(acts: seq<Action>, w: nat): int {
    if acts == [] then -1
    else
      var n := |acts| - 1;
      if acts[n] == Get(w) then Times(acts[..n], IsGet) else Taken(acts[..n], w)
  }

  ghost predicate Ends(a: Action) {
    a.HandBack? || a.Skip? || a.Finish?
  }

  /** What the main thread is to collect for the job that the worker of `a` took last. */
  ghost predicate Reports(cfg: Config, acts: seq<Action>, a: Action, j: Job)
    requires Ends(a)
  {
    && j.name == Taken(acts, a.w) && j.name < |cfg.skips| && j.isSkip == cfg.skips[j.name]
    && (j.isBreak <==> a.HandBack?)
    && (a.Skip? ==> j.isSkip)
    && (a.Finish? ==> !j.isSkip && j.returncode == a.code)
  }

  /** `results` are the reports of the actions that end a job, in the order of those actions. */
  ghost predicate Reported(cfg: Config, acts: seq<Action>, results: seq<Job>)
    decreases |acts|
  {
    if acts == [] then results == []
    else
      var n, m := |acts| - 1, |results| - 1;
      if Ends(acts[n]) then m >= 0 && Reported(cfg, acts[..n], results[..m]) && Reports(cfg, acts[..n], acts[n], results[m])
      else Reported(cfg, acts[..n], results)
  }

  /** Item `i` that the main thread puts into the input queue. */
  ghost function Item(cfg: Config, i: nat): Job {
    if i < |cfg.skips| then NewJob(cfg, i) else SENTINEL
  }

  /** The input queue holds what was put and not yet taken. */
  ghost predicate InputFollows(cfg: Config, acts: seq<Action>, s: State) {
    var taken := Times(acts, IsGet);
    && taken + |s.input| == Dispatched(cfg, s.main) + Dismissed(cfg, s.main)
    && forall i :: 0 <= i < |s.input| ==> s.input[i] == Item(cfg, taken + i)
  }

  /** A busy worker has the job it took last, unchanged, and runs it only if it is not to be skipped. */
  ghost predicate WorkerFollows(cfg: Config, acts: seq<Action>, s: State, w: nat)
    requires w < |s.workers|
  {
    Busy(s.workers[w]) ==>
      && 0 <= Taken(acts, w) < |cfg.skips| && s.workers[w].job == NewJob(cfg, Taken(acts, w))
      && (s.workers[w].Running? ==> !cfg.skips[Taken(acts, w)])
  }

  ghost predicate Follows(cfg: Config, acts: seq<Action>, s: State) {
    && InputFollows(cfg, acts, s)
    && (forall w :: 0 <= w < |s.workers| ==> WorkerFollows(cfg, acts, s, w))
    && Reported(cfg, acts, s.collected + s.output)
    && (s.interrupted <==> Interrupt in acts)
  }

  lemma TimesMore(acts: seq<Action>, a: Action, p: Action -> bool)
    ensures Times(acts + [a], p) == Times(acts, p) + if p(a) then 1 else 0
  {
    assert (acts + [a])[..|acts|] == acts;
  }

  /** One more item goes to the end of the queue. */
  lemma InputGrows(cfg: Config, acts: seq<Action>, s: State, a: Action)
    requires InputFollows(cfg, acts, s) && Bookkeeping(cfg, s) && Enabled(cfg, s, a) && (a.Dispatch? || a.Dismiss?)
    ensures var s' := Apply(cfg, s, a);
            && s'.input == s.input + [Item(cfg, Times(acts, IsGet) + |s.input|)]
            && Dispatched(cfg, s'.main) + Dismissed(cfg, s'.main) == Dispatched(cfg, s.main) + Dismissed(cfg, s.main) + 1
  {
  }

  lemma InputStays(cfg: Config, s: State, a: Action)
    requires Bookkeeping(cfg, s) && Enabled(cfg, s, a) && !ByWorker(a) && !a.Dispatch? && !a.Dismiss?
    ensures var s' := Apply(cfg, s, a);
            s'.input == s.input && Dispatched(cfg, s'.main) + Dismissed(cfg, s'.main) == Dispatched(cfg, s.main) + Dismissed(cfg, s.main)
  {
  }

  lemma SameInput(cfg: Config, acts: seq<Action>, s: State, s': State, a: Action)
    requires InputFollows(cfg, acts, s) && !a.Get? && s'.input == s.input
    requires Dispatched(cfg, s'.main) + Dismissed(cfg, s'.main) == Dispatched(cfg, s.main) + Dismissed(cfg, s.main)
    ensures InputFollows(cfg, acts + [a], s')
  {
    TimesMore(acts, a, IsGet);
  }

  lemma LongerInput(cfg: Config, acts: seq<Action>, s: State, s': State, a: Action)
    requires InputFollows(cfg, acts, s) && !a.Get? && s'.input == s.input + [Item(cfg, Times(acts, IsGet) + |s.input|)]
    requires Dispatched(cfg, s'.main) + Dismissed(cfg, s'.main) == Dispatched(cfg, s.main) + Dismissed(cfg, s.main) + 1
    ensures InputFollows(cfg, acts + [a], s')
  {
    TimesMore(acts, a, IsGet);
  }

  lemma ShorterInput(cfg: Config, acts: seq<Action>, s: State, s': State, w: nat)
    requires InputFollows(cfg, acts, s) && s.input != [] && s'.input == s.input[1..] && s'.main == s.main
    ensures InputFollows(cfg, acts + [Get(w)], s')
  {
    TimesMore(acts, Get(w), IsGet);
    forall i | 0 <= i < |s'.input| ensures s'.input[i] == Item(cfg, Times(acts, IsGet) + 1 + i) {
      assert s'.input[i] == s.input[i + 1];
    }
  }

  lemma InputByWorker(cfg: Config, acts: seq<Action>, s: State, a: Action)
    requires InputFollows(cfg, acts, s) && Enabled(cfg, s, a) && ByWorker(a)
    ensures InputFollows(cfg, acts + [a], Apply(cfg, s, a))
  {
    if a.Get? { ShorterInput(cfg, acts, s, Apply(cfg, s, a), a.w); } else { SameInput(cfg, acts, s, Apply(cfg, s, a), a); }
  }

  lemma InputByMain(cfg: Config, acts: seq<Action>, s: State, a: Action)
    requires InputFollows(cfg, acts, s) && Bookkeeping(cfg, s) && Enabled(cfg, s, a) && !ByWorker(a)
    ensures InputFollows(cfg, acts + [a], Apply(cfg, s, a))
  {
    if a.Dispatch? || a.Dismiss? {
      InputGrows(cfg, acts, s, a);
      LongerInput(cfg, acts, s, Apply(cfg, s, a), a);
    } else {
      InputStays(cfg, s, a);
      SameInput(cfg, acts, s, Apply(cfg, s, a), a);
    }
  }

  lemma WorkersStep(cfg: Config, acts: seq<Action>, s: State, a: Action)
    requires InputFollows(cfg, acts, s) && Enabled(cfg, s, a)
    requires forall w :: 0 <= w < |s.workers| ==> WorkerFollows(cfg, acts, s, w)
    ensures var s' := Apply(cfg, s, a); forall w :: 0 <= w < |s'.workers| ==> WorkerFollows(cfg, acts + [a], s', w)
  {
    var s' := Apply(cfg, s, a);
    assert (acts + [a])[..|acts|] == acts;
    forall w | 0 <= w < |s'.workers| ensures WorkerFollows(cfg, acts + [a], s', w) {
      assert WorkerFollows(cfg, acts, s, w);
    }
  }

  lemma ReportedMore(cfg: Config, acts: seq<Action>, results: seq<Job>, a: Action, j: Job)
    requires Reported(cfg, acts, results)
    ensures Ends(a) && Reports(cfg, acts, a, j) ==> Reported(cfg, acts + [a], results + [j])
    ensures !Ends(a) ==> Reported(cfg, acts + [a], results)
  {
    assert (acts + [a])[..|acts|] == acts && (results + [j])[..|results|] == results;
  }

  lemma EndStep(cfg: Config, acts: seq<Action>, s: State, a: Action) returns (j: Job)
    requires Enabled(cfg, s, a) && Ends(a) && WorkerFollows(cfg, acts, s, a.w)
    ensures Reports(cfg, acts, a, j)
    ensures Apply(cfg, s, a).output == s.output + [j] && Apply(cfg, s, a).collected == s.collected
  {
    j := Apply(cfg, s, a).output[|s.output|];
  }

  lemma OtherStep(cfg: Config, s: State, a: Action)
    requires Enabled(cfg, s, a) && !Ends(a)
    ensures Apply(cfg, s, a).collected + Apply(cfg, s, a).output == s.collected + s.output
  {
  }

  lemma ReportStep(cfg: Config, acts: seq<Action>, s: State, a: Action)
    requires Enabled(cfg, s, a) && Reported(cfg, acts, s.collected + s.output)
    requires Ends(a) ==> WorkerFollows(cfg, acts, s, a.w)
    ensures Reported(cfg, acts + [a], Apply(cfg, s, a).collected + Apply(cfg, s, a).output)
  {
    var results := s.collected + s.output;
    if Ends(a) {
      var j := EndStep(cfg, acts, s, a);
      ReportedMore(cfg, acts, results, a, j);
      assert s.collected + (s.output + [j]) == results + [j];
    } else {
      OtherStep(cfg, s, a);
      ReportedMore(cfg, acts, results, a, SENTINEL);
    }
  }

  lemma FollowsStep(cfg: Config, acts: seq<Action>, s: State, a: Action)
    requires Follows(cfg, acts, s) && Bookkeeping(cfg, s) && Enabled(cfg, s, a)
    ensures Follows(cfg, acts + [a], Apply(cfg, s, a))
  {
    if ByWorker(a) { InputByWorker(cfg, acts, s, a); } else { InputByMain(cfg, acts, s, a); }
    WorkersStep(cfg, acts, s, a);
    ReportStep(cfg, acts, s, a);
  }

  lemma LastStep(cfg: Config, acts: seq<Action>, s: State) returns (before: State)
    requires acts != [] && Run(cfg, acts, s)
    ensures var n := |acts| - 1; Run(cfg, acts[..n], before) && Enabled(cfg, before, acts[n]) && s == Apply(cfg, before, acts[n])
    ensures Bookkeeping(cfg, before)
  {
    var n := |acts| - 1;
    before :| Run(cfg, acts[..n], before) && Enabled(cfg, before, acts[n]) && s == Apply(cfg, before, acts[n]);
    EveryRunKeepsInv(cfg, acts[..n], before);
  }

  lemma NothingFollows(cfg: Config)
    ensures Follows(cfg, [], Init(cfg))
  {
  }

  lemma {:induction false} EveryRunFollows(cfg: Config, acts: seq<Action>, s: State)
    requires Run(cfg, acts, s)
    ensures Follows(cfg, acts, s)
    decreases |acts|
  {
    if acts == [] {
      NothingFollows(cfg);
    } else {
      var n := |acts| - 1;
      var before := LastStep(cfg, acts, s);
      EveryRunFollows(cfg, acts[..n], before);
      FollowsStep(cfg, acts[..n], before, acts[n]);
      assert acts == acts[..n] + [acts[n]];
    }
  }

  /** What a worker may do with the job it took, after the actions `acts`. */
  ghost predicate Choice(cfg: Config, acts: seq<Action>, a: Action) {
    && (a.HandBack? ==> Interrupt in acts)
    && (a.Skip? || a.Launch? ==> Interrupt !in acts)
    && (a.Skip? || a.Launch? || a.Finish? ==> 0 <= Taken(acts, a.w) < |cfg.skips| && (cfg.skips[Taken(acts, a.w)] <==> a.Skip?))
  }

  lemma FollowingChoice(cfg: Config, acts: seq<Action>, s: State, a: Action)
    requires Follows(cfg, acts, s) && Enabled(cfg, s, a)
    ensures Choice(cfg, acts, a)
  {
    if ByWorker(a) { assert WorkerFollows(cfg, acts, s, a.w); }
  }

  ghost predicate Choices(cfg: Config, acts: seq<Action>) {
    forall i :: 0 <= i < |acts| ==> Choice(cfg, acts[..i], acts[i])
  }

  lemma OneMoreChoice(cfg: Config, acts: seq<Action>, a: Action)
    requires Choices(cfg, acts) && Choice(cfg, acts, a)
    ensures Choices(cfg, acts + [a])
  {
    forall i | 0 <= i <= |acts| ensures Choice(cfg, (acts + [a])[..i], (acts + [a])[i]) {
      assert (acts + [a])[..i] == acts[..i];
      assert acts[..|acts|] == acts;
    }
  }

  /** In every run jobs are handed back only after an interrupt, and otherwise skipped or launched as they are marked. */
  lemma {:induction false} EveryRunChooses(cfg: Config, acts: seq<Action>, s: State)
    requires Run(cfg, acts, s)
    ensures Choices(cfg, acts)
    decreases |acts|
  {
    if acts != [] {
      var n := |acts| - 1;
      var before := LastStep(cfg, acts, s);
      EveryRunChooses(cfg, acts[..n], before);
      assert Choice(cfg, acts[..n], acts[n]) by {
        EveryRunFollows(cfg, acts[..n], before);
        FollowingChoice(cfg, acts[..n], before, acts[n]);
      }
      OneMoreChoice(cfg, acts[..n], acts[n]);
      assert acts == acts[..n] + [acts[n]];
    }
  }

  /** The report of the ending action `acts[i]` stands where the ending actions before it leave it. */
  lemma {:induction false} ReportAt(cfg: Config, acts: seq<Action>, results: seq<Job>, i: nat) returns (k: nat)
    requires Reported(cfg, acts, results) && i < |acts| && Ends(acts[i])
    ensures k == Times(acts[..i], Ends) < |results| == Times(acts, Ends) && Reports(cfg, acts[..i], acts[i], results[k])
    decreases |acts|
  {
    var n, m := |acts| - 1, |results| - 1;
    if Ends(acts[n]) {
      ReportedLength(cfg, acts[..n], results[..m]);
    }
    if i == n {
      k := m;
    } else {
      assert acts[..n][..i] == acts[..i];
      k := ReportAt(cfg, acts[..n], if Ends(acts[n]) then results[..m] else results, i);
    }
  }

  lemma {:induction false} ReportedLength(cfg: Config, acts: seq<Action>, results: seq<Job>)
    requires Reported(cfg, acts, results)
    ensures |results| == Times(acts, Ends)
    decreases |acts|
  {
    if acts != [] {
      var n, m := |acts| - 1, |results| - 1;
      ReportedLength(cfg, acts[..n], if Ends(acts[n]) then results[..m] else results);
    }
  }

  predicate Gives(a: Action) { a.HandBack? }
  predicate Skips(a: Action) { a.Skip? }
  predicate Passes(a: Action) { a.Finish? && a.code == 0 }
  predicate Fails(a: Action) { a.Finish? && a.code == 1 }
  predicate Leaks(a: Action) { a.Finish? && a.code == 2 }
  predicate Crashes(a: Action) { a.Finish? && a.code != 0 && a.code != 1 && a.code != 2 }

  /** Each counter is the number of actions of its kind. */
  lemma {:induction false} ReportsTally(cfg: Config, acts: seq<Action>, results: seq<Job>)
    requires Reported(cfg, acts, results)
    ensures TallyOf(results) == Tally(Times(acts, Passes), Times(acts, Fails), Times(acts, Skips), Times(acts, Crashes), Times(acts, Leaks))
    ensures InterruptedCount(results) == Times(acts, Gives)
    decreases |acts|
  {
    if acts != [] {
      var n, m := |acts| - 1, |results| - 1;
      ReportsTally(cfg, acts[..n], if Ends(acts[n]) then results[..m] else results);
    }
  }

  lemma {:induction false} NoTimes(acts: seq<Action>, p: Action -> bool)
    ensures Times(acts, p) == 0 <==> forall i :: 0 <= i < |acts| ==> !p(acts[i])
  {
    if acts != [] {
      var n := |acts| - 1;
      NoTimes(acts[..n], p);
      assert forall i :: 0 <= i < n ==> acts[..n][i] == acts[i];
    }
  }

  /** When `run_tests` returns, the main thread has collected one report for each action that ended a job, in order; the
      counters count these actions, and the status is 0 iff no job was handed back and every finished one returned 0. */
  lemma OutcomeOverActions(cfg: Config, acts: seq<Action>, s: State)
    requires Run(cfg, acts, s) && s.main == Done
    ensures Reported(cfg, acts, s.collected)
    ensures s.tally.passed == Times(acts, Passes) && s.tally.failed == Times(acts, Fails) && s.tally.skipped == Times(acts, Skips)
    ensures s.tally.crashed == Times(acts, Crashes) && s.tally.valgrind == Times(acts, Leaks)
    ensures Status(cfg, s.tally) == 0
       <==> forall i :: 0 <= i < |acts| ==> !acts[i].HandBack? && (acts[i].Finish? ==> acts[i].code == 0)
  {
    OutcomeOfEveryRun(cfg, acts, s);
    EveryRunFollows(cfg, acts, s);
    EveryRunKeepsInv(cfg, acts, s);
    assert s.collected + s.output == s.collected;
    ReportsTally(cfg, acts, s.collected);
    NoTimes(acts, Gives);
    NoTimes(acts, Fails);
    NoTimes(acts, Leaks);
    NoTimes(acts, Crashes);
    assert Status(cfg, s.tally) == 0 <==> Times(acts, Gives) + Times(acts, Fails) + Times(acts, Leaks) + Times(acts, Crashes) == 0;
  }

  /** A finished job is collected with the code it ended with and without a mark, a job handed back with the mark. */
  lemma ReportOfEveryJob(cfg: Config, acts: seq<Action>, s: State, i: nat) returns (j: Job)
    requires Run(cfg, acts, s) && s.main == Done && i < |acts|
    ensures acts[i].Finish? ==> j in s.collected && j == Job(j.name, false, false, acts[i].code) && j.name == Taken(acts[..i], acts[i].w)
    ensures acts[i].HandBack? ==> j in s.collected && j.isBreak && j.name == Taken(acts[..i], acts[i].w)
    ensures acts[i].Skip? ==> j in s.collected && j.isSkip && !j.isBreak && j.name == Taken(acts[..i], acts[i].w)
  {
    OutcomeOverActions(cfg, acts, s);
    j := SENTINEL;
    if Ends(acts[i]) {
      var k := ReportAt(cfg, acts, s.collected, i);
      j := s.collected[k];
    }
  }
}
