/**
 The parallel test runner of test.py as a protocol: the main thread of `run_tests` and the
 `worker_thread` objects share an unbounded input queue and an output queue. Every `get`, `put`, read
 of the interrupt flag and end of a child process is one atomic step, and steps of different threads
 interleave freely. An interrupt may arrive between any two steps.
 */
module WorkerPool {
  import opened Sequences

  type JobId = nat

  /** The main thread queues the jobs 0, 1, ... in order and then one break job for each worker. */
  datatype Item = Work(job: JobId) | Break

  datatype Status = Interrupted | Skipped | Returned(code: int)

  datatype Report = Report(job: JobId, status: Status)

  /** Where a worker stands in its loop. */
  datatype Worker =
    | Idle                      // about to get from the input queue
    | Holding(job: JobId)       // has a job that is not a break job, about to read the interrupt flag
    | Running(job: JobId)       // waits for the child process
    | Reporting(report: Report) // about to put on the output queue
    | Exited

  /** For each job whether it is marked to be skipped, and the number of workers. */
  datatype Config = Config(skip: seq<bool>, workers: nat) {
    function Jobs(): nat {
      |skip|
    }
  }

  datatype State = State(
    input: seq<Item>,
    output: seq<Report>,
    workers: seq<Worker>,
    interrupted: bool,
    dispatched: nat,         // jobs the main thread has queued
    breaks: nat,             // break jobs it has queued
    collected: seq<Report>,  // results it has taken from the output queue
    joined: nat)             // workers it has joined

  datatype Action =
    | PutJob
    | PutBreak
    | Collect
    | Join
    | Get(w: nat)
    | ReadFlag(w: nat)
    | Finish(w: nat, code: int)
    | Put(w: nat)
    | Interrupt

  function Init(c: Config): State {
    State([], [], seq(c.workers, _ => Idle), false, 0, 0, [], 0)
  }

  predicate Enabled(c: Config, s: State, a: Action) {
    match a
    case PutJob => s.dispatched < c.Jobs()
    case PutBreak => s.dispatched >= c.Jobs() && s.breaks < c.workers
    case Collect =>
      s.dispatched >= c.Jobs() && s.breaks >= c.workers && |s.collected| < c.Jobs() && s.output != []
    case Join =>
      && s.dispatched >= c.Jobs() && s.breaks >= c.workers && |s.collected| >= c.Jobs()
      && s.joined < c.workers && s.joined < |s.workers| && s.workers[s.joined] == Exited
    case Get(w) => w < |s.workers| && s.workers[w] == Idle && s.input != []
    case ReadFlag(w) => w < |s.workers| && s.workers[w].Holding? && s.workers[w].job < c.Jobs()
    case Finish(w, _) => w < |s.workers| && s.workers[w].Running?
    case Put(w) => w < |s.workers| && s.workers[w].Reporting?
    case Interrupt => true
  }

  function Apply(c: Config, s: State, a: Action): State
    requires Enabled(c, s, a)
  {
    match a
    case PutJob => s.(input := s.input + [Work(s.dispatched)], dispatched := s.dispatched + 1)
    case PutBreak => s.(input := s.input + [Break], breaks := s.breaks + 1)
    case Collect => s.(output := s.output[1..], collected := s.collected + [s.output[0]])
    case Join => s.(joined := s.joined + 1)
    case Get(w) =>
      s.(input := s.input[1..],
         workers := s.workers[w := match s.input[0] case Work(j) => Holding(j) case Break => Exited])
    case ReadFlag(w) =>
      var j := s.workers[w].job;
      s.(workers := s.workers[w :=
        if s.interrupted then Reporting(Report(j, Interrupted))
        else if c.skip[j] then Reporting(Report(j, Skipped))
        else Running(j)])
    case Finish(w, code) => s.(workers := s.workers[w := Reporting(Report(s.workers[w].job, Returned(code)))])
    case Put(w) => s.(output := s.output + [s.workers[w].report], workers := s.workers[w := Idle])
    case Interrupt => s.(interrupted := true)
  }

  predicate Done(c: Config, s: State) {
    && s.dispatched == c.Jobs() && s.breaks == c.workers
    && |s.collected| == c.Jobs() && s.joined == c.workers
  }

  ghost predicate IsRun(c: Config, states: seq<State>, actions: seq<Action>) {
    && |states| == |actions| + 1
    && states[0] == Init(c)
    && forall i :: 0 <= i < |actions| ==>
         Enabled(c, states[i], actions[i]) && states[i + 1] == Apply(c, states[i], actions[i])
  }

  // ----- Where the jobs are -----

  ghost function OneIf(b: bool): nat {
    if b then 1 else 0
  }

  /** How often job `j` is in the input queue. */
  ghost function QueuedOf(input: seq<Item>, j: JobId): nat {
    if input == [] then 0 else QueuedOf(input[..|input| - 1], j) + OneIf(input[|input| - 1] == Work(j))
  }

  ghost function Works(input: seq<Item>): nat {
    if input == [] then 0 else Works(input[..|input| - 1]) + OneIf(input[|input| - 1].Work?)
  }

  ghost function Breaks(input: seq<Item>): nat {
    if input == [] then 0 else Breaks(input[..|input| - 1]) + OneIf(input[|input| - 1].Break?)
  }

  /** How many of the reports are about job `j`. */
  ghost function ReportsOf(reports: seq<Report>, j: JobId): nat {
    if reports == [] then 0 else ReportsOf(reports[..|reports| - 1], j) + OneIf(reports[|reports| - 1].job == j)
  }

  predicate Holds(w: Worker, j: JobId) {
    match w
    case Holding(k) => k == j
    case Running(k) => k == j
    case Reporting(r) => r.job == j
    case _ => false
  }

  ghost function HeldOf(workers: seq<Worker>, j: JobId): nat {
    if workers == [] then 0 else HeldOf(workers[..|workers| - 1], j) + OneIf(Holds(workers[|workers| - 1], j))
  }

  ghost function Busy(workers: seq<Worker>): nat {
    if workers == [] then 0
    else Busy(workers[..|workers| - 1]) + OneIf(!workers[|workers| - 1].Idle? && !workers[|workers| - 1].Exited?)
  }

  ghost function Gone(workers: seq<Worker>): (n: nat)
    ensures n <= |workers|
    ensures n == |workers| ==> forall i :: 0 <= i < |workers| ==> workers[i] == Exited
  {
    if workers == [] then 0 else Gone(workers[..|workers| - 1]) + OneIf(workers[|workers| - 1].Exited?)
  }

  lemma {:induction false} QueueTail(input: seq<Item>, j: JobId)
    requires input != []
    ensures QueuedOf(input, j) == OneIf(input[0] == Work(j)) + QueuedOf(input[1..], j)
    ensures Works(input) == OneIf(input[0].Work?) + Works(input[1..])
    ensures Breaks(input) == OneIf(input[0].Break?) + Breaks(input[1..])
  {
    var n := |input| - 1;
    if n > 0 {
      QueueTail(input[..n], j);
      assert input[..n][1..] == input[1..][..n - 1];
    }
  }

  lemma QueueAppend(input: seq<Item>, x: Item, j: JobId)
    ensures QueuedOf(input + [x], j) == QueuedOf(input, j) + OneIf(x == Work(j))
    ensures Works(input + [x]) == Works(input) + OneIf(x.Work?)
    ensures Breaks(input + [x]) == Breaks(input) + OneIf(x.Break?)
  {
    assert (input + [x])[..|input|] == input;
  }

  lemma {:induction false} ReportTail(reports: seq<Report>, j: JobId)
    requires reports != []
    ensures ReportsOf(reports, j) == OneIf(reports[0].job == j) + ReportsOf(reports[1..], j)
  {
    var n := |reports| - 1;
    if n > 0 {
      ReportTail(reports[..n], j);
      assert reports[..n][1..] == reports[1..][..n - 1];
    }
  }

  lemma ReportAppend(reports: seq<Report>, r: Report, j: JobId)
    ensures ReportsOf(reports + [r], j) == ReportsOf(reports, j) + OneIf(r.job == j)
  {
    assert (reports + [r])[..|reports|] == reports;
  }

  /** What changing one worker does to the counts over all workers. */
  lemma {:induction false} UpdateWorker(workers: seq<Worker>, w: nat, x: Worker, j: JobId)
    requires w < |workers|
    ensures HeldOf(workers[w := x], j) + OneIf(Holds(workers[w], j)) == HeldOf(workers, j) + OneIf(Holds(x, j))
    ensures Busy(workers[w := x]) + OneIf(!workers[w].Idle? && !workers[w].Exited?)
         == Busy(workers) + OneIf(!x.Idle? && !x.Exited?)
    ensures Gone(workers[w := x]) + OneIf(workers[w].Exited?) == Gone(workers) + OneIf(x.Exited?)
    ensures Load(workers[w := x]) + Weight(workers[w]) == Load(workers) + Weight(x)
  {
    hide Weight, Holds, OneIf;
    var n := |workers| - 1;
    var updated := workers[w := x];
    if w == n {
      assert updated[..n] == workers[..n];
    } else {
      UpdateWorker(workers[..n], w, x, j);
      assert updated[..n] == workers[..n][w := x];
    }
  }

  lemma {:induction false} FreshWorkers(n: nat)
    ensures var ws := seq(n, _ => Idle);
      Busy(ws) == 0 && Gone(ws) == 0 && Load(ws) == 0 && forall j: JobId :: HeldOf(ws, j) == 0
  {
    if n > 0 {
      assert seq(n, _ => Idle)[..n - 1] == seq(n - 1, _ => Idle);
      FreshWorkers(n - 1);
    }
  }

  lemma {:induction false} NothingHeld(workers: seq<Worker>)
    requires forall i :: 0 <= i < |workers| ==> workers[i].Idle? || workers[i].Exited?
    ensures Busy(workers) == 0
  {
    if workers != [] {
      NothingHeld(workers[..|workers| - 1]);
    }
  }

  lemma {:induction false} AllGone(workers: seq<Worker>)
    requires forall i :: 0 <= i < |workers| ==> workers[i].Exited?
    ensures Gone(workers) == |workers|
  {
    if workers != [] {
      AllGone(workers[..|workers| - 1]);
    }
  }

  lemma {:induction false} QueueCounts(input: seq<Item>)
    ensures Breaks(input) + Works(input) == |input|
    ensures Works(input) == 0 <==> forall i :: 0 <= i < |input| ==> input[i].Break?
    ensures Breaks(input) == 0 <==> forall i :: 0 <= i < |input| ==> input[i].Work?
    ensures BreaksLast(input) && input != [] && input[0].Break? ==> Works(input) == 0
  {
    if input != [] {
      QueueCounts(input[..|input| - 1]);
    }
  }

  // ----- The invariant -----

  ghost predicate Truthful(c: Config, interrupted: bool, r: Report) {
    && r.job < c.Jobs()
    && match r.status
       case Interrupted => interrupted
       case Skipped => c.skip[r.job]
       case Returned(_) => !c.skip[r.job]
  }

  ghost predicate WorkerOk(c: Config, interrupted: bool, w: Worker) {
    match w
    case Holding(j) => j < c.Jobs()
    case Running(j) => j < c.Jobs() && !c.skip[j]
    case Reporting(r) => Truthful(c, interrupted, r)
    case _ => true
  }

  /** The main thread has done its phases in order. */
  ghost predicate PhasesOk(c: Config, s: State) {
    && |s.workers| == c.workers
    && s.dispatched <= c.Jobs() && s.breaks <= c.workers && |s.collected| <= c.Jobs() && s.joined <= c.workers
    && (s.breaks > 0 ==> s.dispatched == c.Jobs())
    && (s.collected != [] ==> s.dispatched == c.Jobs() && s.breaks == c.workers)
    && (s.joined > 0 ==> s.dispatched == c.Jobs() && s.breaks == c.workers && |s.collected| == c.Jobs())
    && (forall w :: 0 <= w < s.joined ==> s.workers[w] == Exited)
  }

  ghost predicate BreaksLast(input: seq<Item>) {
    forall i, j :: 0 <= i < j < |input| && input[i].Break? ==> input[j].Break?
  }

  ghost predicate JobsKnown(c: Config, input: seq<Item>) {
    forall i :: 0 <= i < |input| && input[i].Work? ==> input[i].job < c.Jobs()
  }

  /** Break jobs are behind the real jobs, and once a worker has exited only break jobs are left. */
  ghost predicate QueueOk(c: Config, s: State) {
    && BreaksLast(s.input)
    && JobsKnown(c, s.input)
    && (Gone(s.workers) > 0 ==> Works(s.input) == 0)
    && Breaks(s.input) + Gone(s.workers) == s.breaks
  }

  /** The number of places where job `j` is. */
  ghost function Places(s: State, j: JobId): nat {
    QueuedOf(s.input, j) + HeldOf(s.workers, j) + ReportsOf(s.output, j) + ReportsOf(s.collected, j)
  }

  /** Every dispatched job is in exactly one place, and nothing else is anywhere. */
  ghost predicate Conserved(s: State) {
    && (forall j: JobId :: Places(s, j) == OneIf(j < s.dispatched))
    && Works(s.input) + Busy(s.workers) + |s.output| + |s.collected| == s.dispatched
  }

  ghost predicate ReportsOk(c: Config, s: State) {
    && (forall w :: 0 <= w < |s.workers| ==> WorkerOk(c, s.interrupted, s.workers[w]))
    && (forall i :: 0 <= i < |s.output| ==> Truthful(c, s.interrupted, s.output[i]))
    && (forall i :: 0 <= i < |s.collected| ==> Truthful(c, s.interrupted, s.collected[i]))
  }

  ghost predicate Inv(c: Config, s: State) {
    PhasesOk(c, s) && QueueOk(c, s) && Conserved(s) && ReportsOk(c, s)
  }

  lemma InitConserved(c: Config)
    ensures Conserved(Init(c)) && QueueOk(c, Init(c))
  {
    FreshWorkers(c.workers);
    var s := Init(c);
    assert s.input == [] && s.output == [] && s.collected == [] && s.dispatched == 0;
    hide HeldOf, Busy, Gone;
    forall j: JobId ensures Places(s, j) == 0 {
    }
  }

  lemma InitInv(c: Config)
    ensures Inv(c, Init(c))
  {
    InitConserved(c);
    hide Conserved, QueueOk;
  }

  // ----- The measure -----

  ghost function Weight(w: Worker): nat {
    match w
    case Holding(_) => 4
    case Running(_) => 3
    case Reporting(_) => 2
    case _ => 0
  }

  ghost function Load(workers: seq<Worker>): nat {
    if workers == [] then 0 else Load(workers[..|workers| - 1]) + Weight(workers[|workers| - 1])
  }

  /** A bound on the steps that are still to come, counted for each job, break job and worker. */
  ghost function Remaining(c: Config, s: State): int {
    6 * (c.Jobs() - s.dispatched) + 2 * (c.workers - s.breaks) + 5 * Works(s.input) + Breaks(s.input)
    + Load(s.workers) + |s.output| + (c.workers - s.joined)
  }

  // ----- One step -----

  /** The counts after a step, from those before it. */
  lemma StepCounts(c: Config, s: State, a: Action, j: JobId)
    requires Enabled(c, s, a)
    ensures var t := Apply(c, s, a);
      match a
      case PutJob => QueuedOf(t.input, j) == QueuedOf(s.input, j) + OneIf(s.dispatched == j)
        && Works(t.input) == Works(s.input) + 1 && Breaks(t.input) == Breaks(s.input)
      case PutBreak => QueuedOf(t.input, j) == QueuedOf(s.input, j)
        && Works(t.input) == Works(s.input) && Breaks(t.input) == Breaks(s.input) + 1
      case Collect =>
        ReportsOf(t.output, j) + ReportsOf(t.collected, j) == ReportsOf(s.output, j) + ReportsOf(s.collected, j)
      case Get(w) => QueuedOf(t.input, j) + HeldOf(t.workers, j) == QueuedOf(s.input, j) + HeldOf(s.workers, j)
        && Works(t.input) + Busy(t.workers) == Works(s.input) + Busy(s.workers)
        && Works(t.input) == Works(s.input) - OneIf(s.input[0].Work?)
        && Breaks(t.input) + Gone(t.workers) == Breaks(s.input) + Gone(s.workers)
        && Breaks(t.input) == Breaks(s.input) - OneIf(s.input[0].Break?)
        && Load(t.workers) == Load(s.workers) + 4 * OneIf(s.input[0].Work?)
      case ReadFlag(w) => HeldOf(t.workers, j) == HeldOf(s.workers, j) && Busy(t.workers) == Busy(s.workers)
        && Gone(t.workers) == Gone(s.workers) && Load(t.workers) < Load(s.workers)
      case Finish(w, _) => HeldOf(t.workers, j) == HeldOf(s.workers, j) && Busy(t.workers) == Busy(s.workers)
        && Gone(t.workers) == Gone(s.workers) && Load(t.workers) < Load(s.workers)
      case Put(w) => HeldOf(t.workers, j) + ReportsOf(t.output, j) == HeldOf(s.workers, j) + ReportsOf(s.output, j)
        && Busy(t.workers) == Busy(s.workers) - 1 && Gone(t.workers) == Gone(s.workers)
        && Load(t.workers) == Load(s.workers) - 2
      case _ => true
  {
    hide QueuedOf, HeldOf, ReportsOf, Works, Breaks, Busy, Gone, Load;
    var t := Apply(c, s, a);
    match a
    case PutJob => QueueAppend(s.input, Work(s.dispatched), j);
    case PutBreak => QueueAppend(s.input, Break, j);
    case Collect =>
      ReportTail(s.output, j);
      ReportAppend(s.collected, s.output[0], j);
    case Get(w) =>
      QueueTail(s.input, j);
      UpdateWorker(s.workers, w, t.workers[w], j);
    case ReadFlag(w) => UpdateWorker(s.workers, w, t.workers[w], j);
    case Finish(w, _) => UpdateWorker(s.workers, w, t.workers[w], j);
    case Put(w) =>
      ReportAppend(s.output, s.workers[w].report, j);
      UpdateWorker(s.workers, w, Idle, j);
    case _ =>
  }

  lemma StepPhases(c: Config, s: State, a: Action)
    requires PhasesOk(c, s) && Enabled(c, s, a)
    ensures PhasesOk(c, Apply(c, s, a))
  {
  }

  lemma StepQueue(c: Config, s: State, a: Action)
    requires PhasesOk(c, s) && QueueOk(c, s) && Enabled(c, s, a)
    ensures QueueOk(c, Apply(c, s, a))
  {
    hide Breaks, Gone, Works, QueuedOf, HeldOf, ReportsOf, Busy, Load;
    StepCounts(c, s, a, 0);
    match a
    case PutJob => QueueCounts(s.input);
    case PutBreak =>
    case Get(w) => QueueCounts(s.input);
    case _ =>
  }

  lemma StepConserved(c: Config, s: State, a: Action)
    requires PhasesOk(c, s) && QueueOk(c, s) && Conserved(s) && Enabled(c, s, a)
    ensures Conserved(Apply(c, s, a))
  {
    hide QueuedOf, HeldOf, ReportsOf, Works, Busy;
    var t := Apply(c, s, a);
    StepCounts(c, s, a, 0);
    forall j: JobId ensures Places(t, j) == OneIf(j < t.dispatched) {
      StepCounts(c, s, a, j);
      assert Places(s, j) == OneIf(j < s.dispatched);
    }
  }

  lemma StepReports(c: Config, s: State, a: Action)
    requires PhasesOk(c, s) && QueueOk(c, s) && ReportsOk(c, s) && Enabled(c, s, a)
    ensures ReportsOk(c, Apply(c, s, a))
  {
    hide Breaks, Gone;
  }

  lemma StepInv(c: Config, s: State, a: Action)
    requires Inv(c, s) && Enabled(c, s, a)
    ensures Inv(c, Apply(c, s, a))
  {
    hide PhasesOk, QueueOk, Conserved, ReportsOk, Enabled, Apply;
    StepPhases(c, s, a);
    StepQueue(c, s, a);
    StepConserved(c, s, a);
    StepReports(c, s, a);
  }

  /** Every step except an interrupt brings the end nearer; an interrupt does not move it away. */
  lemma StepDecreases(c: Config, s: State, a: Action)
    requires PhasesOk(c, s) && Enabled(c, s, a)
    ensures Remaining(c, s) >= 0
    ensures if a.Interrupt? then Remaining(c, Apply(c, s, a)) == Remaining(c, s)
            else Remaining(c, Apply(c, s, a)) < Remaining(c, s)
  {
    hide Works, Breaks, Load;
    StepCounts(c, s, a, 0);
  }

  /** With at least one worker, whatever has happened, some step other than an interrupt can be taken next. */
  lemma NoDeadlock(c: Config, s: State) returns (a: Action)
    requires c.workers >= 1 && Inv(c, s) && !Done(c, s)
    ensures Enabled(c, s, a) && !a.Interrupt?
  {
    if s.dispatched < c.Jobs() {
      return PutJob;
    }
    if s.breaks < c.workers {
      return PutBreak;
    }
    if w :| 0 <= w < |s.workers| && s.workers[w].Holding? {
      assert WorkerOk(c, s.interrupted, s.workers[w]);
      return ReadFlag(w);
    }
    if w :| 0 <= w < |s.workers| && s.workers[w].Running? {
      return Finish(w, 0);
    }
    if w :| 0 <= w < |s.workers| && s.workers[w].Reporting? {
      return Put(w);
    }
    NothingHeld(s.workers);
    QueueCounts(s.input);
    if s.input != [] {
      if w :| 0 <= w < |s.workers| && s.workers[w].Idle? {
        return Get(w);
      }
      AllGone(s.workers);
      assert false;
    }
    if |s.collected| < c.Jobs() {
      return Collect;
    }
    return Join;
  }

  /** A worker leaves its loop only when no real job is left in the input queue. */
  lemma ExitsOnlyWhenDrained(c: Config, s: State, w: nat)
    requires Inv(c, s) && Enabled(c, s, Get(w)) && Apply(c, s, Get(w)).workers[w] == Exited
    ensures s.dispatched == c.Jobs()
    ensures forall i :: 0 <= i < |s.input| ==> s.input[i].Break?
  {
    QueueCounts(s.input);
    hide Breaks, Works;
  }

  // ----- Whole runs -----

  lemma {:induction false} RunInv(c: Config, states: seq<State>, actions: seq<Action>, i: nat)
    requires IsRun(c, states, actions) && i <= |actions|
    ensures Inv(c, states[i])
  {
    hide Inv, Enabled, Apply, Init;
    if i == 0 {
      InitInv(c);
    } else {
      RunInv(c, states, actions, i - 1);
      StepInv(c, states[i - 1], actions[i - 1]);
    }
  }

  /** The steps of a run that are not interrupts. */
  ghost function Progress(actions: seq<Action>): nat {
    if actions == [] then 0 else Progress(actions[..|actions| - 1]) + OneIf(!actions[|actions| - 1].Interrupt?)
  }

  lemma {:induction false} RunDecreases(c: Config, states: seq<State>, actions: seq<Action>, i: nat)
    requires IsRun(c, states, actions) && i <= |actions|
    ensures Progress(actions[..i]) + Remaining(c, states[i]) <= 6 * c.Jobs() + 3 * c.workers
    ensures Remaining(c, states[i]) >= 0
  {
    hide Remaining, Inv, Enabled, Apply, Init;
    if i == 0 {
      StartsWithBound(c);
    } else {
      RunDecreases(c, states, actions, i - 1);
      RunInv(c, states, actions, i - 1);
      RunInv(c, states, actions, i);
      RemainingStep(c, states[i - 1], actions[i - 1]);
      assert actions[..i][..i - 1] == actions[..i - 1];
    }
  }

  lemma StartsWithBound(c: Config)
    ensures Remaining(c, Init(c)) == 6 * c.Jobs() + 3 * c.workers
  {
    FreshWorkers(c.workers);
  }

  lemma RemainingStep(c: Config, s: State, a: Action)
    requires Inv(c, s) && Enabled(c, s, a)
    ensures Remaining(c, Apply(c, s, a)) >= 0
    ensures Remaining(c, Apply(c, s, a)) <= Remaining(c, s) - OneIf(!a.Interrupt?)
  {
    StepInv(c, s, a);
    StepDecreases(c, s, a);
  }

  /** However the steps interleave, a run takes no more than six steps a job and three a worker. */
  lemma RunsAreBounded(c: Config, states: seq<State>, actions: seq<Action>)
    requires IsRun(c, states, actions)
    ensures Progress(actions) <= 6 * c.Jobs() + 3 * c.workers
  {
    RunDecreases(c, states, actions, |actions|);
    assert actions[..|actions|] == actions;
  }

  /** A run that can only be interrupted any more has ended: all results collected, all workers joined. */
  lemma StuckRunsAreDone(c: Config, states: seq<State>, actions: seq<Action>)
    requires c.workers >= 1 && IsRun(c, states, actions)
    requires forall a :: Enabled(c, states[|actions|], a) ==> a.Interrupt?
    ensures Done(c, states[|actions|])
  {
    RunInv(c, states, actions, |actions|);
    if !Done(c, states[|actions|]) {
      var a := NoDeadlock(c, states[|actions|]);
    }
  }

  /** At the end every job has been reported exactly once, and truthfully, and nothing is left over. */
  lemma EachJobReportedOnce(c: Config, states: seq<State>, actions: seq<Action>)
    requires IsRun(c, states, actions) && Done(c, states[|actions|])
    ensures var s := states[|actions|];
      && |s.collected| == c.Jobs()
      && (forall j: JobId :: ReportsOf(s.collected, j) == OneIf(j < c.Jobs()))
      && (forall i :: 0 <= i < |s.collected| ==> Truthful(c, s.interrupted, s.collected[i]))
      && s.input == [] && s.output == []
      && forall w :: 0 <= w < |s.workers| ==> s.workers[w] == Exited
  {
    RunInv(c, states, actions, |actions|);
    var s := states[|actions|];
    AllGone(s.workers);
    QueueCounts(s.input);
    NothingHeld(s.workers);
    forall j: JobId ensures ReportsOf(s.collected, j) == OneIf(j < c.Jobs()) {
      assert Places(s, j) == OneIf(j < s.dispatched);
      NoneHeldOf(s.workers, j);
    }
  }

  lemma {:induction false} NoneHeldOf(workers: seq<Worker>, j: JobId)
    requires forall i :: 0 <= i < |workers| ==> workers[i].Exited?
    ensures HeldOf(workers, j) == 0
  {
    if workers != [] {
      NoneHeldOf(workers[..|workers| - 1], j);
    }
  }

  // ----- Where the reports come from -----

  /** The report is with a worker, in the output queue, or collected. */
  ghost predicate Present(s: State, r: Report) {
    r in s.output || r in s.collected || Reporting(r) in s.workers
  }

  /** The child process of the job ends with the code. */
  ghost predicate ChildEnds(s: State, a: Action, j: JobId, code: int) {
    exists w: nat :: a == Finish(w, code) && w < |s.workers| && s.workers[w] == Running(j)
  }

  /** A worker that has the job reads the interrupt flag. */
  ghost predicate FlagIsRead(s: State, a: Action, j: JobId) {
    exists w: nat :: a == ReadFlag(w) && w < |s.workers| && s.workers[w] == Holding(j)
  }

  /** The step makes the report: by the end of a child process, by a set flag, or by a mark to skip the job. */
  ghost predicate Makes(c: Config, s: State, a: Action, r: Report) {
    match r.status
    case Returned(code) => ChildEnds(s, a, r.job, code)
    case Interrupted => FlagIsRead(s, a, r.job) && s.interrupted
    case Skipped => FlagIsRead(s, a, r.job) && !s.interrupted && r.job < c.Jobs() && c.skip[r.job]
  }

  lemma InUpdated(workers: seq<Worker>, w: nat, x: Worker, y: Worker)
    requires w < |workers|
    ensures y in workers[w := x] ==> y == x || y in workers
    ensures y in workers ==> y == workers[w] || y in workers[w := x]
    ensures x in workers[w := x]
  {
    var after := workers[w := x];
    assert after[w] == x;
    if y in workers {
      var i :| 0 <= i < |workers| && workers[i] == y;
      assert i != w ==> after[i] == y;
    }
    if y in after {
      var i :| 0 <= i < |after| && after[i] == y;
      assert i != w ==> workers[i] == y;
    }
  }

  lemma PresentStep(c: Config, s: State, a: Action, r: Report)
    requires Enabled(c, s, a)
    ensures Present(Apply(c, s, a), r) <==> Present(s, r) || Makes(c, s, a, r)
  {
    var t := Apply(c, s, a);
    match a {
      case Get(w) => InUpdated(s.workers, w, t.workers[w], Reporting(r));
      case ReadFlag(w) => InUpdated(s.workers, w, t.workers[w], Reporting(r));
      case Finish(w, code) => InUpdated(s.workers, w, t.workers[w], Reporting(r));
      case Put(w) =>
        InUpdated(s.workers, w, t.workers[w], Reporting(r));
        assert r in t.output <==> r in s.output || r == s.workers[w].report;
      case Collect =>
        assert s.output == [s.output[0]] + s.output[1..];
      case _ =>
    }
  }

  lemma {:induction false} PresentInRun(c: Config, states: seq<State>, actions: seq<Action>, i: nat, r: Report)
    requires IsRun(c, states, actions) && i <= |actions|
    ensures Present(states[i], r) <==> exists k :: 0 <= k < i && Makes(c, states[k], actions[k], r)
  {
    hide Enabled, Apply, Makes;
    if i == 0 {
      NothingPresent(c, r);
    } else {
      hide Init, Present;
      PresentInRun(c, states, actions, i - 1, r);
      PresentStep(c, states[i - 1], actions[i - 1], r);
    }
  }

  lemma NothingPresent(c: Config, r: Report)
    ensures !Present(Init(c), r)
  {
  }

  /** What a finished run has collected is exactly what the steps of its workers have made. */
  lemma CollectedIsMade(c: Config, states: seq<State>, actions: seq<Action>, r: Report)
    requires IsRun(c, states, actions) && Done(c, states[|actions|])
    ensures r in states[|actions|].collected <==> exists k :: 0 <= k < |actions| && Makes(c, states[k], actions[k], r)
  {
    EachJobReportedOnce(c, states, actions);
    hide Makes, Enabled, Apply, Init, Done, Truthful, ReportsOf;
    PresentInRun(c, states, actions, |actions|, r);
  }

  /** A code is reported for a job if and only if the child process of the job ended with it. */
  lemma CodesAreThoseOfTheChildren(c: Config, states: seq<State>, actions: seq<Action>, j: JobId, code: int)
    requires IsRun(c, states, actions) && Done(c, states[|actions|])
    ensures Report(j, Returned(code)) in states[|actions|].collected
      <==> exists i :: 0 <= i < |actions| && ChildEnds(states[i], actions[i], j, code)
  {
    hide Done, Enabled, Apply, Init, ChildEnds;
    CollectedIsMade(c, states, actions, Report(j, Returned(code)));
  }

  /** A job is reported as interrupted if and only if a worker that had it read the flag after an interrupt. */
  lemma InterruptedReports(c: Config, states: seq<State>, actions: seq<Action>, j: JobId)
    requires IsRun(c, states, actions) && Done(c, states[|actions|])
    ensures Report(j, Interrupted) in states[|actions|].collected
      <==> exists i :: 0 <= i < |actions| && FlagIsRead(states[i], actions[i], j) && Interrupt in actions[..i]
  {
    hide Done, Enabled, Apply, Init, FlagIsRead;
    CollectedIsMade(c, states, actions, Report(j, Interrupted));
    forall i | 0 <= i < |actions| ensures states[i].interrupted <==> Interrupt in actions[..i] {
      FlagIsInterrupt(c, states, actions, i);
    }
  }

  /**
   A job is reported as skipped if and only if it is marked and a worker that had it read the flag before any
   interrupt.
   */
  lemma SkippedReports(c: Config, states: seq<State>, actions: seq<Action>, j: JobId)
    requires IsRun(c, states, actions) && Done(c, states[|actions|]) && j < c.Jobs()
    ensures Report(j, Skipped) in states[|actions|].collected
      <==>
      c.skip[j] &&
      exists i :: 0 <= i < |actions| && FlagIsRead(states[i], actions[i], j) && Interrupt !in actions[..i]
  {
    hide Done, Enabled, Apply, Init, FlagIsRead;
    CollectedIsMade(c, states, actions, Report(j, Skipped));
    forall i | 0 <= i < |actions| ensures states[i].interrupted <==> Interrupt in actions[..i] {
      FlagIsInterrupt(c, states, actions, i);
    }
  }

  lemma {:induction false} FlagIsInterrupt(c: Config, states: seq<State>, actions: seq<Action>, i: nat)
    requires IsRun(c, states, actions) && i <= |actions|
    ensures states[i].interrupted <==> Interrupt in actions[..i]
  {
    if i > 0 {
      FlagIsInterrupt(c, states, actions, i - 1);
      assert actions[..i] == actions[..i - 1] + [actions[i - 1]];
      FlagStep(c, states[i - 1], actions[i - 1]);
    }
  }

  lemma FlagStep(c: Config, s: State, a: Action)
    requires Enabled(c, s, a)
    ensures Apply(c, s, a).interrupted <==> s.interrupted || a == Interrupt
  {
  }

  // ----- The order of the queues -----

  /** The reports in the order in which the workers put them on the output queue. */
  ghost function Outcomes(states: seq<State>, actions: seq<Action>, n: nat): seq<Report>
    requires n <= |actions| < |states|
  {
    if n == 0 then []
    else
      var s, a := states[n - 1], actions[n - 1];
      Outcomes(states, actions, n - 1) +
      if a.Put? && a.w < |s.workers| && s.workers[a.w].Reporting? then [s.workers[a.w].report] else []
  }

  /** The main thread collects the reports in the order in which they were put. */
  lemma {:induction false} CollectedInOrder(c: Config, states: seq<State>, actions: seq<Action>, i: nat)
    requires IsRun(c, states, actions) && i <= |actions|
    ensures states[i].collected + states[i].output == Outcomes(states, actions, i)
  {
    if i > 0 {
      CollectedInOrder(c, states, actions, i - 1);
      OrderStep(c, states[i - 1], actions[i - 1]);
    }
  }

  lemma OrderStep(c: Config, s: State, a: Action)
    requires Enabled(c, s, a)
    ensures var t := Apply(c, s, a);
      t.collected + t.output == s.collected + s.output + if a.Put? then [s.workers[a.w].report] else []
  {
    if a.Collect? {
      assert s.output == [s.output[0]] + s.output[1..];
    }
  }

  /** The first n entries are the last n real jobs that were dispatched, in the order of their numbers. */
  ghost predicate Waits(input: seq<Item>, n: nat, dispatched: nat) {
    && n <= |input| && n <= dispatched
    && forall i :: 0 <= i < n ==> input[i] == Work(dispatched - n + i)
  }

  ghost predicate AllWait(input: seq<Item>, dispatched: nat) {
    Waits(input, Works(input), dispatched)
  }

  ghost predicate WaitsInOrder(s: State) {
    AllWait(s.input, s.dispatched)
  }

  lemma WaitsPut(input: seq<Item>, dispatched: nat)
    requires AllWait(input, dispatched) && Works(input) == |input|
    ensures AllWait(input + [Work(dispatched)], dispatched + 1)
  {
    QueueAppend(input, Work(dispatched), 0);
    hide Works, Breaks, QueuedOf;
  }

  lemma WaitsBreak(input: seq<Item>, dispatched: nat)
    requires AllWait(input, dispatched)
    ensures AllWait(input + [Break], dispatched)
  {
    QueueAppend(input, Break, 0);
    hide Works, Breaks, QueuedOf;
  }

  lemma WaitsGet(input: seq<Item>, dispatched: nat)
    requires AllWait(input, dispatched) && input != []
    ensures AllWait(input[1..], dispatched)
  {
    QueueTail(input, 0);
    hide Works, Breaks, QueuedOf;
    assert Works(input) > 0 ==> input[0] == Work(dispatched - Works(input));
  }

  lemma NoBreaksYet(c: Config, s: State)
    requires PhasesOk(c, s) && QueueOk(c, s) && s.dispatched < c.Jobs()
    ensures Works(s.input) == |s.input|
  {
    QueueCounts(s.input);
    hide Works, Breaks, Gone;
  }

  lemma QueueStep(c: Config, s: State, a: Action)
    requires Enabled(c, s, a)
    ensures var t := Apply(c, s, a);
      match a
      case PutJob => t.input == s.input + [Work(s.dispatched)] && t.dispatched == s.dispatched + 1
      case PutBreak => t.input == s.input + [Break] && t.dispatched == s.dispatched
      case Get(_) => s.input != [] && t.input == s.input[1..] && t.dispatched == s.dispatched
      case _ => t.input == s.input && t.dispatched == s.dispatched
  {
  }

  lemma WaitsStep(c: Config, s: State, a: Action)
    requires PhasesOk(c, s) && QueueOk(c, s) && WaitsInOrder(s) && Enabled(c, s, a)
    ensures WaitsInOrder(Apply(c, s, a))
  {
    QueueStep(c, s, a);
    hide PhasesOk, QueueOk, AllWait, Apply;
    match a {
      case PutJob =>
        NoBreaksYet(c, s);
        WaitsPut(s.input, s.dispatched);
      case PutBreak => WaitsBreak(s.input, s.dispatched);
      case Get(w) => WaitsGet(s.input, s.dispatched);
      case _ =>
    }
  }

  /** The jobs are taken from the input queue in the order of their numbers. */
  lemma {:induction false} TakenInOrder(c: Config, states: seq<State>, actions: seq<Action>, i: nat)
    requires IsRun(c, states, actions) && i <= |actions|
    ensures WaitsInOrder(states[i])
  {
    hide PhasesOk, QueueOk, Conserved, ReportsOk, Enabled, Apply, WaitsInOrder;
    if i == 0 {
      NothingWaits(c);
    } else {
      hide Init;
      TakenInOrder(c, states, actions, i - 1);
      RunInv(c, states, actions, i - 1);
      WaitsStep(c, states[i - 1], actions[i - 1]);
    }
  }

  lemma NothingWaits(c: Config)
    ensures WaitsInOrder(Init(c))
  {
  }

  // ----- What can happen -----

  /** However the threads interleave, a worker waits for nothing but an entry of the input queue. */
  lemma WorkersWaitForInput(c: Config, states: seq<State>, actions: seq<Action>, w: nat)
    requires IsRun(c, states, actions) && w < |states[|actions|].workers|
    ensures var s := states[|actions|];
      match s.workers[w]
      case Idle => Enabled(c, s, Get(w)) <==> s.input != []
      case Holding(_) => Enabled(c, s, ReadFlag(w))
      case Running(_) => forall code :: Enabled(c, s, Finish(w, code))
      case Reporting(_) => Enabled(c, s, Put(w))
      case Exited => !Enabled(c, s, Get(w)) && !Enabled(c, s, Put(w))
  {
    RunInv(c, states, actions, |actions|);
    hide PhasesOk, QueueOk, Conserved, Init;
    assert WorkerOk(c, states[|actions|].interrupted, states[|actions|].workers[w]);
  }

  /** The main thread waits for nothing but a result that is missing, and then for the next worker to leave. */
  lemma MainThreadWaits(c: Config, states: seq<State>, actions: seq<Action>)
    requires IsRun(c, states, actions) && !Done(c, states[|actions|])
    ensures var s := states[|actions|];
      if s.dispatched < c.Jobs() then Enabled(c, s, PutJob)
      else if s.breaks < c.workers then Enabled(c, s, PutBreak)
      else if |s.collected| < c.Jobs() then Enabled(c, s, Collect) <==> s.output != []
      else s.joined < |s.workers| && (Enabled(c, s, Join) <==> s.workers[s.joined] == Exited)
  {
    RunInv(c, states, actions, |actions|);
    hide QueueOk, Conserved, ReportsOk, Init;
  }


  /** The step is no interrupt, and a child process that ends in it ends with its job's code. */
  ghost predicate Follows(s: State, a: Action, codes: seq<int>) {
    && !a.Interrupt?
    && (a.Finish? ==>
          && a.w < |s.workers| && s.workers[a.w].Running? && s.workers[a.w].job < |codes|
          && a.code == codes[s.workers[a.w].job])
  }

  lemma NextStep(c: Config, s: State, codes: seq<int>) returns (a: Action)
    requires c.workers >= 1 && Inv(c, s) && !Done(c, s) && |codes| == c.Jobs()
    ensures Enabled(c, s, a) && !a.Interrupt? && Follows(s, a, codes)
  {
    hide PhasesOk, QueueOk, Conserved;
    a := NoDeadlock(c, s);
    if a.Finish? {
      assert WorkerOk(c, s.interrupted, s.workers[a.w]);
      a := Finish(a.w, codes[s.workers[a.w].job]);
    }
  }

  lemma OneMoreStep(c: Config, states: seq<State>, actions: seq<Action>, a: Action)
    requires IsRun(c, states, actions) && Enabled(c, states[|actions|], a)
    ensures IsRun(c, states + [Apply(c, states[|actions|], a)], actions + [a])
  {
    hide Enabled, Apply, Init;
  }

  /** A run can be interrupted at any time. */
  lemma CanBeInterrupted(c: Config, states: seq<State>, actions: seq<Action>)
    requires IsRun(c, states, actions)
    ensures Enabled(c, states[|actions|], Interrupt)
    ensures IsRun(c, states + [Apply(c, states[|actions|], Interrupt)], actions + [Interrupt])
  {
    OneMoreStep(c, states, actions, Interrupt);
  }

  /** Whatever has happened, the run can go on to its end without an interrupt and with any codes of the children. */
  lemma {:induction false} RunCanFinish(c: Config, states: seq<State>, actions: seq<Action>, codes: seq<int>)
    returns (states': seq<State>, actions': seq<Action>)
    requires c.workers >= 1 && IsRun(c, states, actions) && |codes| == c.Jobs()
    ensures IsRun(c, states', actions') && Done(c, states'[|actions'|])
    ensures states <= states' && actions <= actions'
    ensures forall i :: |actions| <= i < |actions'| ==> Follows(states'[i], actions'[i], codes)
    decreases Remaining(c, states[|actions|])
  {
    hide Inv, Enabled, Apply, Init, Done, Remaining, Follows;
    var s := states[|actions|];
    if Done(c, s) {
      return states, actions;
    }
    RunInv(c, states, actions, |actions|);
    var a := NextStep(c, s, codes);
    OneMoreStep(c, states, actions, a);
    RemainingStep(c, s, a);
    RunDecreases(c, states, actions, |actions|);
    states', actions' := RunCanFinish(c, states + [Apply(c, s, a)], actions + [a], codes);
    assert states'[|actions|] == s && actions'[|actions|] == a;
  }

  lemma {:induction false} SomeReportOf(reports: seq<Report>, j: JobId) returns (r: Report)
    requires ReportsOf(reports, j) > 0
    ensures r in reports && r.job == j
  {
    var last := reports[|reports| - 1];
    if last.job == j {
      r := last;
    } else {
      r := SomeReportOf(reports[..|reports| - 1], j);
    }
  }

  lemma EndsWithCode(s: State, a: Action, j: JobId, code: int, codes: seq<int>)
    requires ChildEnds(s, a, j, code) && Follows(s, a, codes)
    ensures j < |codes| && code == codes[j]
  {
  }

  lemma NeverInterrupted(c: Config, states: seq<State>, actions: seq<Action>, codes: seq<int>)
    requires IsRun(c, states, actions) && forall i :: 0 <= i < |actions| ==> Follows(states[i], actions[i], codes)
    ensures !states[|actions|].interrupted
  {
    FlagIsInterrupt(c, states, actions, |actions|);
    hide Enabled, Apply, Init;
    assert actions[..|actions|] == actions;
    assert forall i :: 0 <= i < |actions| ==> actions[i] != Interrupt;
  }

  lemma OutcomeOf(c: Config, states: seq<State>, actions: seq<Action>, codes: seq<int>, j: JobId)
    requires IsRun(c, states, actions) && Done(c, states[|actions|]) && j < c.Jobs() == |codes|
    requires forall i :: 0 <= i < |actions| ==> Follows(states[i], actions[i], codes)
    ensures Report(j, if c.skip[j] then Skipped else Returned(codes[j])) in states[|actions|].collected
  {
    EachJobReportedOnce(c, states, actions);
    var reports := states[|actions|].collected;
    var r := SomeReportOf(reports, j);
    assert Truthful(c, states[|actions|].interrupted, r);
    NeverInterrupted(c, states, actions, codes);
    hide Enabled, Apply, Init, Done, ChildEnds, ReportsOf, Follows;
    if r.status.Returned? {
      CodesAreThoseOfTheChildren(c, states, actions, j, r.status.code);
      var i :| 0 <= i < |actions| && ChildEnds(states[i], actions[i], j, r.status.code);
      EndsWithCode(states[i], actions[i], j, r.status.code, codes);
    }
  }

  /** Any codes can come about: some run ends with the skipped jobs skipped and every other job with its code. */
  lemma AnyCodes(c: Config, codes: seq<int>) returns (states: seq<State>, actions: seq<Action>)
    requires c.workers >= 1 && |codes| == c.Jobs()
    ensures IsRun(c, states, actions) && Done(c, states[|actions|])
    ensures forall j: nat :: j < c.Jobs() ==>
      Report(j, if c.skip[j] then Skipped else Returned(codes[j])) in states[|actions|].collected
  {
    states, actions := RunCanFinish(c, [Init(c)], [], codes);
    forall j: nat | j < c.Jobs()
      ensures Report(j, if c.skip[j] then Skipped else Returned(codes[j])) in states[|actions|].collected
    {
      OutcomeOf(c, states, actions, codes, j);
    }
  }
}
