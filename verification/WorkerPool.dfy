/** The worker pool of test.py: one dispatching and collecting main thread, N workers over two
    FIFO queues, one sentinel job per worker, and an interrupt flag that may rise at any moment.
    Every interleaving is a list of actions; `run_job_synchronously` returns an arbitrary code. */
module WorkerPool {

  /** The flags of a Job; `name` tells the jobs apart. */
  datatype Job = Job(name: nat, isSkip: bool, isBreak: bool, returncode: int)

  datatype Worker = Waiting | Holding(job: Job) | Running(job: Job) | Exited

  /** Where the main thread is; `k` counts the turns of the loop it is in. */
  datatype Main = Dispatching(k: nat) | Dismissing(k: nat) | Collecting(k: nat) | Joining(k: nat) | Done

  datatype Tally = Tally(passed: nat, failed: nat, skipped: nat, crashed: nat, valgrind: nat)

  /** `skips[i]` says that job `i` is to be skipped. */
  datatype Config = Config(workers: nat, skips: seq<bool>)

  datatype State = State(input: seq<Job>, output: seq<Job>, workers: seq<Worker>, interrupted: bool,
                         main: Main, collected: seq<Job>, tally: Tally)

  datatype Action =
    | Interrupt
    | Dispatch | Dismiss | Collect | Join | Advance
    | Get(w: nat) | HandBack(w: nat) | Skip(w: nat) | Launch(w: nat) | Finish(w: nat, code: int)

  const SENTINEL := Job(0, false, true, 0)

  function NewJob(cfg: Config, i: nat): Job
    requires i < |cfg.skips|
  {
    Job(i, cfg.skips[i], false, 0)
  }

  function Init(cfg: Config): State {
    State([], [], seq(cfg.workers, _ => Waiting), false, Dispatching(0), [], Tally(0, 0, 0, 0, 0))
  }

  /** What the collect loop adds to the counters for one job taken from the output queue. */
  function Count(t: Tally, j: Job): Tally {
    if j.isBreak then t
    else if j.isSkip then t.(skipped := t.skipped + 1)
    else if j.returncode == 0 then t.(passed := t.passed + 1)
    else if j.returncode == 1 then t.(failed := t.failed + 1)
    else if j.returncode == 2 then t.(valgrind := t.valgrind + 1)
    else t.(crashed := t.crashed + 1)
  }

  predicate Enabled(cfg: Config, s: State, a: Action) {
    match a
    case Interrupt => !s.interrupted
    case Dispatch => s.main.Dispatching? && s.main.k < |cfg.skips|
    case Dismiss => s.main.Dismissing? && s.main.k < cfg.workers
    case Collect => s.main.Collecting? && s.main.k < |cfg.skips| && s.output != []
    case Join => s.main.Joining? && s.main.k < |s.workers| && s.workers[s.main.k].Exited?
    case Advance =>
      (match s.main
       case Dispatching(k) => k >= |cfg.skips|
       case Dismissing(k) => k >= cfg.workers
       case Collecting(k) => k >= |cfg.skips|
       case Joining(k) => k >= |s.workers|
       case Done => false)
    case Get(w) => w < |s.workers| && s.workers[w].Waiting? && s.input != []
    case HandBack(w) => w < |s.workers| && s.workers[w].Holding? && s.interrupted
    case Skip(w) => w < |s.workers| && s.workers[w].Holding? && !s.interrupted && s.workers[w].job.isSkip
    case Launch(w) => w < |s.workers| && s.workers[w].Holding? && !s.interrupted && !s.workers[w].job.isSkip
    case Finish(w, _) => w < |s.workers| && s.workers[w].Running?
  }

  function Apply(cfg: Config, s: State, a: Action): State
    requires Enabled(cfg, s, a)
  {
    match a
    case Interrupt => s.(interrupted := true)
    case Dispatch => s.(input := s.input + [NewJob(cfg, s.main.k)], main := Dispatching(s.main.k + 1))
    case Dismiss => s.(input := s.input + [SENTINEL], main := Dismissing(s.main.k + 1))
    case Collect =>
      s.(output := s.output[1..], main := Collecting(s.main.k + 1),
      collected := s.collected + [s.output[0]], tally := Count(s.tally, s.output[0]))
    case Join => s.(main := Joining(s.main.k + 1))
    case Advance =>
      (match s.main
       case Dispatching(_) => s.(main := Dismissing(0))
       case Dismissing(_) => s.(main := Collecting(0))
       case Collecting(_) => s.(main := Joining(0))
       case Joining(_) => s.(main := Done))
    case Get(w) =>
      var job := s.input[0];
      s.(input := s.input[1..], workers := s.workers[w := if job.isBreak then Exited else Holding(job)])
    case HandBack(w) =>
      s.(output := s.output + [s.workers[w].job.(isBreak := true)], workers := s.workers[w := Waiting])
    case Skip(w) => s.(output := s.output + [s.workers[w].job], workers := s.workers[w := Waiting])
    case Launch(w) => s.(workers := s.workers[w := Running(s.workers[w].job)])
    case Finish(w, code) =>
      s.(output := s.output + [s.workers[w].job.(returncode := code)], workers := s.workers[w := Waiting])
  }

  /** `acts` is an interleaving that the program can go through, ending in state `s`. */
  ghost predicate Run(cfg: Config, acts: seq<Action>, s: State)
    decreases |acts|
  {
    if acts == [] then s == Init(cfg)
    else
      var n := |acts| - 1;
      exists before :: Run(cfg, acts[..n], before) && Enabled(cfg, before, acts[n]) && s == Apply(cfg, before, acts[n])
  }

  predicate ByWorker(a: Action) {
    a.Get? || a.HandBack? || a.Skip? || a.Launch? || a.Finish?
  }

  // ---------------------------------------------------------------- where the jobs are

  /** How often job `n` stands in a queue; sentinels are told apart by their break flag. */
  ghost function Occurs(q: seq<Job>, n: nat, breaks: bool): nat {
    if q == [] then 0
    else (if q[0].name == n && (breaks || !q[0].isBreak) then 1 else 0) + Occurs(q[1..], n, breaks)
  }

  ghost function Sentinels(q: seq<Job>): nat {
    if q == [] then 0 else (if q[0].isBreak then 1 else 0) + Sentinels(q[1..])
  }

  predicate Busy(w: Worker) {
    w.Holding? || w.Running?
  }

  ghost function HeldBy(ws: seq<Worker>, n: nat): nat {
    if ws == [] then 0 else (if Busy(ws[0]) && ws[0].job.name == n then 1 else 0) + HeldBy(ws[1..], n)
  }

  ghost function BusyCount(ws: seq<Worker>): nat {
    if ws == [] then 0 else (if Busy(ws[0]) then 1 else 0) + BusyCount(ws[1..])
  }

  ghost function ExitedCount(ws: seq<Worker>): nat {
    if ws == [] then 0 else (if ws[0].Exited? then 1 else 0) + ExitedCount(ws[1..])
  }

  ghost function HoldingCount(ws: seq<Worker>): nat {
    if ws == [] then 0 else (if ws[0].Holding? then 1 else 0) + HoldingCount(ws[1..])
  }

  ghost function Dispatched(cfg: Config, m: Main): nat {
    if m.Dispatching? then m.k else |cfg.skips|
  }

  ghost function Dismissed(cfg: Config, m: Main): nat {
    if m.Dispatching? then 0 else if m.Dismissing? then m.k else cfg.workers
  }

  /** How many places hold job `n`. */
  ghost function Places(s: State, n: nat): nat {
    Occurs(s.input, n, false) + HeldBy(s.workers, n) + Occurs(s.output, n, true) + Occurs(s.collected, n, true)
  }

  /** How many jobs are somewhere. */
  ghost function Present(s: State): int {
    (|s.input| - Sentinels(s.input)) + BusyCount(s.workers) + |s.output| + |s.collected|
  }

  lemma {:induction false} QueueAppend(q: seq<Job>, j: Job, n: nat, breaks: bool)
    ensures Occurs(q + [j], n, breaks) == Occurs(q, n, breaks) + Occurs([j], n, breaks)
    ensures Sentinels(q + [j]) == Sentinels(q) + if j.isBreak then 1 else 0
  {
    if q == [] {
      assert [] + [j] == [j];
    } else {
      assert (q + [j])[1..] == q[1..] + [j];
      QueueAppend(q[1..], j, n, breaks);
    }
  }

  lemma {:induction false} HeldUpdate(ws: seq<Worker>, i: nat, w: Worker, n: nat)
    requires i < |ws|
    ensures HeldBy(ws[i := w], n) + HeldBy([ws[i]], n) == HeldBy(ws, n) + HeldBy([w], n)
  {
    if i == 0 {
      assert ws[0 := w][1..] == ws[1..];
    } else {
      assert ws[i := w][1..] == ws[1..][i - 1 := w];
      HeldUpdate(ws[1..], i - 1, w, n);
    }
  }

  lemma {:induction false} WorkerUpdate(ws: seq<Worker>, i: nat, w: Worker)
    requires i < |ws|
    ensures BusyCount(ws[i := w]) + (if Busy(ws[i]) then 1 else 0) == BusyCount(ws) + if Busy(w) then 1 else 0
    ensures ExitedCount(ws[i := w]) + (if ws[i].Exited? then 1 else 0) == ExitedCount(ws) + if w.Exited? then 1 else 0
    ensures HoldingCount(ws[i := w]) + (if ws[i].Holding? then 1 else 0) == HoldingCount(ws) + if w.Holding? then 1 else 0
  {
    if i == 0 {
      assert ws[0 := w][1..] == ws[1..];
    } else {
      assert ws[i := w][1..] == ws[1..][i - 1 := w];
      WorkerUpdate(ws[1..], i - 1, w);
    }
  }

  // ---------------------------------------------------------------- the invariant

  /** Every job dispatched so far is in exactly one place, and no other job is anywhere. */
  ghost predicate Conserved(cfg: Config, s: State) {
    && (forall n: nat :: Places(s, n) == if n < Dispatched(cfg, s.main) then 1 else 0)
    && Present(s) == Dispatched(cfg, s.main)
  }

  /** Real jobs stand before sentinels, each exited worker has taken one sentinel,
      and once a worker has exited no real job is left in the queue. */
  ghost predicate Dismissal(cfg: Config, s: State) {
    && |s.workers| == cfg.workers
    && ExitedCount(s.workers) + Sentinels(s.input) == Dismissed(cfg, s.main)
    && (forall i, j :: 0 <= i < j < |s.input| && s.input[i].isBreak ==> s.input[j].isBreak)
    && (ExitedCount(s.workers) > 0 ==> forall i :: 0 <= i < |s.input| ==> s.input[i].isBreak)
  }

  ghost function TallyOf(jobs: seq<Job>): Tally {
    if jobs == [] then Tally(0, 0, 0, 0, 0) else Count(TallyOf(jobs[..|jobs| - 1]), jobs[|jobs| - 1])
  }

  /** The main thread is inside its loops, its counters describe what it has collected, and
      it has only joined workers that exited. */
  ghost predicate Bookkeeping(cfg: Config, s: State) {
    && s.tally == TallyOf(s.collected)
    && (match s.main
        case Dispatching(k) => k <= |cfg.skips| && s.collected == []
        case Dismissing(k) => k <= cfg.workers && s.collected == []
        case Collecting(k) => k <= |cfg.skips| && |s.collected| == k
        case Joining(k) =>
          k <= |s.workers| && |s.collected| == |cfg.skips|
          && forall i :: 0 <= i < k ==> s.workers[i].Exited?
        case Done => |s.collected| == |cfg.skips| && forall i :: 0 <= i < |s.workers| ==> s.workers[i].Exited?)
  }

  ghost predicate Fresh(cfg: Config, j: Job) {
    j.name < |cfg.skips| && j == NewJob(cfg, j.name)
  }

  /** A job that came back kept its skip flag, and carries the break flag only after an interrupt. */
  ghost predicate Returned(cfg: Config, s: State, j: Job) {
    j.name < |cfg.skips| && j.isSkip == cfg.skips[j.name] && (j.isBreak ==> s.interrupted)
  }

  ghost predicate Flags(cfg: Config, s: State) {
    && (forall i :: 0 <= i < |s.input| ==> s.input[i].isBreak || Fresh(cfg, s.input[i]))
    && (forall w :: 0 <= w < |s.workers| && Busy(s.workers[w]) ==> Fresh(cfg, s.workers[w].job))
    && (forall i :: 0 <= i < |s.output| ==> Returned(cfg, s, s.output[i]))
    && (forall i :: 0 <= i < |s.collected| ==> Returned(cfg, s, s.collected[i]))
  }

  ghost predicate Inv(cfg: Config, s: State) {
    Conserved(cfg, s) && Dismissal(cfg, s) && Bookkeeping(cfg, s) && Flags(cfg, s)
  }

  lemma {:induction false} IdleWorkers(k: nat, n: nat)
    ensures var ws := seq(k, _ => Waiting);
            HeldBy(ws, n) == 0 && BusyCount(ws) == 0 && ExitedCount(ws) == 0 && HoldingCount(ws) == 0
  {
    if k > 0 {
      IdleWorkers(k - 1, n);
      assert seq(k, _ => Waiting)[1..] == seq(k - 1, _ => Waiting);
    }
  }

  lemma InitInv(cfg: Config)
    ensures Inv(cfg, Init(cfg))
  {
    forall n: nat ensures Places(Init(cfg), n) == 0 {
      IdleWorkers(cfg.workers, n);
    }
    IdleWorkers(cfg.workers, 0);
  }

  lemma PlacesByWorker(cfg: Config, s: State, a: Action, n: nat)
    requires Enabled(cfg, s, a) && ByWorker(a)
    ensures Places(Apply(cfg, s, a), n) == Places(s, n)
  {
    var s' := Apply(cfg, s, a);
    HeldUpdate(s.workers, a.w, s'.workers[a.w], n);
    if !a.Get? && !a.Launch? { QueueAppend(s.output, s'.output[|s.output|], n, true); }
  }

  lemma PlacesByMain(cfg: Config, s: State, a: Action, n: nat)
    requires Enabled(cfg, s, a) && !ByWorker(a)
    ensures Places(Apply(cfg, s, a), n) == Places(s, n) + if a.Dispatch? && s.main.k == n then 1 else 0
  {
    if a.Dispatch? || a.Dismiss? {
      QueueAppend(s.input, Apply(cfg, s, a).input[|s.input|], n, false);
    } else if a.Collect? {
      QueueAppend(s.collected, s.output[0], n, true);
    }
  }

  /** One action moves a job from one place to another, or dispatches the next one. */
  lemma PlacesStep(cfg: Config, s: State, a: Action, n: nat)
    requires Enabled(cfg, s, a)
    ensures Places(Apply(cfg, s, a), n) == Places(s, n) + if a.Dispatch? && s.main.k == n then 1 else 0
  {
    if ByWorker(a) { PlacesByWorker(cfg, s, a, n); } else { PlacesByMain(cfg, s, a, n); }
  }

  lemma PresentStep(cfg: Config, s: State, a: Action)
    requires Enabled(cfg, s, a)
    ensures Present(Apply(cfg, s, a)) == Present(s) + if a.Dispatch? then 1 else 0
  {
    if ByWorker(a) {
      WorkerUpdate(s.workers, a.w, Apply(cfg, s, a).workers[a.w]);
    } else if a.Dispatch? || a.Dismiss? {
      QueueAppend(s.input, Apply(cfg, s, a).input[|s.input|], 0, true);
    }
  }

  lemma ConservedStep(cfg: Config, s: State, a: Action)
    requires Conserved(cfg, s) && Bookkeeping(cfg, s) && Enabled(cfg, s, a)
    ensures Conserved(cfg, Apply(cfg, s, a))
  {
    var s' := Apply(cfg, s, a);
    assert Dispatched(cfg, s'.main) == Dispatched(cfg, s.main) + if a.Dispatch? then 1 else 0;
    forall n: nat ensures Places(s', n) == if n < Dispatched(cfg, s'.main) then 1 else 0 {
      PlacesStep(cfg, s, a, n);
    }
    PresentStep(cfg, s, a);
  }

  lemma DismissalByMain(cfg: Config, s: State, a: Action)
    requires Dismissal(cfg, s) && Bookkeeping(cfg, s) && Enabled(cfg, s, a) && (a.Dispatch? || a.Dismiss?)
    ensures Dismissal(cfg, Apply(cfg, s, a))
  {
    var j := if a.Dispatch? then NewJob(cfg, s.main.k) else SENTINEL;
    QueueAppend(s.input, j, 0, true);
    if a.Dispatch? { NoSentinels(s.input); }
  }

  lemma DismissalByGet(cfg: Config, s: State, w: nat)
    requires Dismissal(cfg, s) && Enabled(cfg, s, Get(w))
    ensures Dismissal(cfg, Apply(cfg, s, Get(w)))
  {
    var s' := Apply(cfg, s, Get(w));
    WorkerUpdate(s.workers, w, s'.workers[w]);
    assert forall i :: 0 <= i < |s'.input| ==> s'.input[i] == s.input[i + 1];
  }

  lemma DismissalByOthers(cfg: Config, s: State, a: Action)
    requires Dismissal(cfg, s) && Bookkeeping(cfg, s) && Enabled(cfg, s, a) && !a.Dispatch? && !a.Dismiss? && !a.Get?
    ensures Dismissal(cfg, Apply(cfg, s, a))
  {
    if ByWorker(a) { WorkerUpdate(s.workers, a.w, Apply(cfg, s, a).workers[a.w]); }
  }

  lemma DismissalStep(cfg: Config, s: State, a: Action)
    requires Dismissal(cfg, s) && Bookkeeping(cfg, s) && Enabled(cfg, s, a)
    ensures Dismissal(cfg, Apply(cfg, s, a))
  {
    if a.Dispatch? || a.Dismiss? {
      DismissalByMain(cfg, s, a);
    } else if a.Get? {
      DismissalByGet(cfg, s, a.w);
    } else {
      DismissalByOthers(cfg, s, a);
    }
  }

  lemma {:induction false} NoSentinels(q: seq<Job>)
    ensures Sentinels(q) == 0 <==> forall i :: 0 <= i < |q| ==> !q[i].isBreak
  {
    if q != [] {
      NoSentinels(q[1..]);
      assert q == [q[0]] + q[1..];
    }
  }

  lemma TallyOfOneMore(jobs: seq<Job>, j: Job)
    ensures TallyOf(jobs + [j]) == Count(TallyOf(jobs), j)
  {
    assert (jobs + [j])[..|jobs|] == jobs;
  }

  /** A worker that acts has not exited, so no joined worker comes back. */
  lemma BookkeepingByWorker(cfg: Config, s: State, a: Action)
    requires Bookkeeping(cfg, s) && Enabled(cfg, s, a) && ByWorker(a)
    ensures Bookkeeping(cfg, Apply(cfg, s, a))
  {
    var s' := Apply(cfg, s, a);
    assert !s.workers[a.w].Exited? && s'.main == s.main && s'.collected == s.collected && s'.tally == s.tally;
    assert forall i :: 0 <= i < |s.workers| && s.workers[i].Exited? ==> s'.workers[i] == s.workers[i];
  }

  lemma BookkeepingByMain(cfg: Config, s: State, a: Action)
    requires Bookkeeping(cfg, s) && Enabled(cfg, s, a) && !ByWorker(a)
    ensures Bookkeeping(cfg, Apply(cfg, s, a))
  {
    if a.Collect? { TallyOfOneMore(s.collected, s.output[0]); }
  }

  lemma FlagsByWorker(cfg: Config, s: State, a: Action)
    requires Flags(cfg, s) && Enabled(cfg, s, a) && ByWorker(a)
    ensures Flags(cfg, Apply(cfg, s, a))
  {
  }

  lemma FlagsByMain(cfg: Config, s: State, a: Action)
    requires Flags(cfg, s) && Enabled(cfg, s, a) && !ByWorker(a)
    ensures Flags(cfg, Apply(cfg, s, a))
  {
  }

  lemma {:induction false} EveryRunKeepsInv(cfg: Config, acts: seq<Action>, s: State)
    requires Run(cfg, acts, s)
    ensures Inv(cfg, s)
    decreases |acts|
  {
    if acts == [] {
      InitInv(cfg);
    } else {
      var n := |acts| - 1;
      var before :| Run(cfg, acts[..n], before) && Enabled(cfg, before, acts[n]) && s == Apply(cfg, before, acts[n]);
      EveryRunKeepsInv(cfg, acts[..n], before);
      ConservedStep(cfg, before, acts[n]);
      DismissalStep(cfg, before, acts[n]);
      if ByWorker(acts[n]) {
        BookkeepingByWorker(cfg, before, acts[n]);
        FlagsByWorker(cfg, before, acts[n]);
      } else {
        BookkeepingByMain(cfg, before, acts[n]);
        FlagsByMain(cfg, before, acts[n]);
      }
    }
  }
}
