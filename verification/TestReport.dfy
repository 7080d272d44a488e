/**
 What `run_tests` of test.py makes of the results: the counters, the list of failed jobs and the exit
 status, for the results in the order in which the main thread takes them from the output queue.
 */
module TestReport {
  import opened Sequences
  import opened WorkerPool

  /**
   What is known of each job beside its result: whether it is an example, and, for a test suite that
   returned 0, 1 or 2, whether its own result file says PASS or SKIP.
   */
  datatype Suite = Suite(example: seq<bool>, filePasses: seq<bool>) {
    predicate Covers(c: Config) {
      |example| == |filePasses| == c.Jobs()
    }
  }

  datatype Verdict = Pass | Fail | Valgrind | Crash | Skip | NotRun

  function VerdictOf(status: Status): Verdict {
    match status
    case Interrupted => NotRun
    case Skipped => Skip
    case Returned(code) => if code == 0 then Pass else if code == 1 then Fail else if code == 2 then Valgrind else Crash
  }

  datatype Tally = Tally(
    passed: nat, skipped: nat, failed: nat, valgrind: nat, crashed: nat, failedJobs: seq<JobId>)

  // ----- Counting -----

  ghost function Count(reports: seq<Report>, v: Verdict): (n: nat)
    ensures n <= |reports|
  {
    if reports == [] then 0
    else Count(reports[..|reports| - 1], v) + OneIf(VerdictOf(reports[|reports| - 1].status) == v)
  }

  lemma CountStep(reports: seq<Report>, i: nat, v: Verdict)
    requires i < |reports|
    ensures Count(reports[..i + 1], v) == Count(reports[..i], v) + OneIf(VerdictOf(reports[i].status) == v)
  {
    assert reports[..i + 1][..i] == reports[..i];
  }

  /** The entries that one result leaves in the list of failed jobs. */
  ghost function Entries(suite: Suite, r: Report): seq<JobId>
    requires r.job < |suite.example| == |suite.filePasses|
  {
    match r.status
    case Interrupted => []
    case Skipped => []
    case Returned(code) =>
      (if code == 0 then [] else [r.job]) +
      if suite.example[r.job] || (0 <= code <= 2 && suite.filePasses[r.job]) then [] else [r.job]
  }

  ghost predicate Known(suite: Suite, reports: seq<Report>) {
    && |suite.example| == |suite.filePasses|
    && forall i :: 0 <= i < |reports| ==> reports[i].job < |suite.example|
  }

  ghost function AllEntries(suite: Suite, reports: seq<Report>): seq<JobId>
    requires Known(suite, reports)
  {
    if reports == [] then []
    else AllEntries(suite, reports[..|reports| - 1]) + Entries(suite, reports[|reports| - 1])
  }

  lemma EntriesStep(suite: Suite, reports: seq<Report>, i: nat)
    requires Known(suite, reports) && i < |reports|
    ensures AllEntries(suite, reports[..i + 1]) == AllEntries(suite, reports[..i]) + Entries(suite, reports[i])
  {
    assert reports[..i + 1][..i] == reports[..i];
  }

  // ----- The collection loop -----

  /** The first half of an iteration: the verdict on a result and the first entry of its job. */
  method CountResult(before: Tally, r: Report) returns (t: Tally)
    requires !r.status.Interrupted?
    ensures var v := VerdictOf(r.status);
      && t.passed == before.passed + OneIf(v == Pass)
      && t.skipped == before.skipped + OneIf(v == Skip)
      && t.failed == before.failed + OneIf(v == Fail)
      && t.valgrind == before.valgrind + OneIf(v == Valgrind)
      && t.crashed == before.crashed + OneIf(v == Crash)
    ensures t.failedJobs == before.failedJobs + if VerdictOf(r.status) in {Pass, Skip} then [] else [r.job]
  {
    t := before;
    if r.status.Skipped? {
      t := t.(skipped := t.skipped + 1);
    } else {
      t := t.(failedJobs := t.failedJobs + [r.job]);
      PopUndoesPush(before.failedJobs, r.job);
      if r.status.code == 0 {
        t := t.(passed := t.passed + 1, failedJobs := t.failedJobs[..|t.failedJobs| - 1]);
      } else if r.status.code == 1 {
        t := t.(failed := t.failed + 1);
      } else if r.status.code == 2 {
        t := t.(valgrind := t.valgrind + 1);
      } else {
        t := t.(crashed := t.crashed + 1);
      }
    }
  }

  /** The second half: a suite gets another entry unless its file says that it passed. */
  method JudgeFile(suite: Suite, before: seq<JobId>, r: Report) returns (failedJobs: seq<JobId>)
    requires r.job < |suite.example| == |suite.filePasses| && !r.status.Interrupted?
    ensures var passes := r.status.Skipped? || suite.example[r.job]
        || (0 <= r.status.code <= 2 && suite.filePasses[r.job]);
      failedJobs == before + if passes then [] else [r.job]
  {
    failedJobs := before;
    if !suite.example[r.job] && !r.status.Skipped? {
      var code := r.status.code;
      failedJobs := failedJobs + [r.job];
      PopUndoesPush(before, r.job);
      if code == 0 || code == 1 || code == 2 {
        if suite.filePasses[r.job] {
          failedJobs := failedJobs[..|failedJobs| - 1];
        }
      }
    }
  }

  lemma CountsStep(reports: seq<Report>, i: nat)
    requires i < |reports|
    ensures forall v :: Count(reports[..i + 1], v) == Count(reports[..i], v) + OneIf(VerdictOf(reports[i].status) == v)
  {
    forall v ensures Count(reports[..i + 1], v) == Count(reports[..i], v) + OneIf(VerdictOf(reports[i].status) == v) {
      CountStep(reports, i, v);
    }
  }

  lemma TwoEntries(before: seq<JobId>, suite: Suite, r: Report)
    requires r.job < |suite.example| == |suite.filePasses| && !r.status.Interrupted?
    ensures var passes := r.status.Skipped? || suite.example[r.job]
        || (0 <= r.status.code <= 2 && suite.filePasses[r.job]);
      before + (if VerdictOf(r.status) in {Pass, Skip} then [] else [r.job]) + (if passes then [] else [r.job])
        == before + Entries(suite, r)
  {
  }

  ghost function Having(reports: seq<Report>, v: Verdict): set<int> {
    set i | 0 <= i < |reports| && VerdictOf(reports[i].status) == v
  }

  lemma HavingStep(reports: seq<Report>, v: Verdict)
    requires reports != []
    ensures var n := |reports| - 1;
      && n !in Having(reports[..n], v)
      && Having(reports, v) == Having(reports[..n], v) + if VerdictOf(reports[n].status) == v then {n} else {}
  {
    hide VerdictOf;
  }

  lemma {:induction false} CountIsNumber(reports: seq<Report>, v: Verdict)
    ensures Count(reports, v) == |Having(reports, v)|
  {
    if reports != [] {
      CountIsNumber(reports[..|reports| - 1], v);
      HavingStep(reports, v);
      hide Having, VerdictOf;
    }
  }

  /** Which results have which verdict. */
  lemma VerdictsByCode(reports: seq<Report>)
    ensures Count(reports, Pass) == |set i | 0 <= i < |reports| && reports[i].status == Returned(0)|
    ensures Count(reports, Fail) == |set i | 0 <= i < |reports| && reports[i].status == Returned(1)|
    ensures Count(reports, Valgrind) == |set i | 0 <= i < |reports| && reports[i].status == Returned(2)|
    ensures Count(reports, Crash)
         == |set i | 0 <= i < |reports| && reports[i].status.Returned? && !(0 <= reports[i].status.code <= 2)|
    ensures Count(reports, Skip) == |set i | 0 <= i < |reports| && reports[i].status.Skipped?|
  {
    hide Count;
    CountIsNumber(reports, Pass);
    CountIsNumber(reports, Fail);
    CountIsNumber(reports, Valgrind);
    CountIsNumber(reports, Crash);
    CountIsNumber(reports, Skip);
    assert Having(reports, Pass) == set i | 0 <= i < |reports| && reports[i].status == Returned(0);
    assert Having(reports, Fail) == set i | 0 <= i < |reports| && reports[i].status == Returned(1);
    assert Having(reports, Valgrind) == set i | 0 <= i < |reports| && reports[i].status == Returned(2);
    assert Having(reports, Crash)
        == set i | 0 <= i < |reports| && reports[i].status.Returned? && !(0 <= reports[i].status.code <= 2);
    assert Having(reports, Skip) == set i | 0 <= i < |reports| && reports[i].status.Skipped?;
  }

  method CollectResults(suite: Suite, reports: seq<Report>) returns (t: Tally)
    requires Known(suite, reports)
    ensures t.passed == Count(reports, Pass)
    ensures t.skipped == Count(reports, Skip)
    ensures t.failed == Count(reports, Fail)
    ensures t.valgrind == Count(reports, Valgrind)
    ensures t.crashed == Count(reports, Crash)
    ensures t.failedJobs == AllEntries(suite, reports)
  {
    hide Count, Entries;
    t := Tally(0, 0, 0, 0, 0, []);
    NoReportsYet(suite, reports);
    hide AllEntries;
    for i := 0 to |reports|
      invariant t.passed == Count(reports[..i], Pass)
      invariant t.skipped == Count(reports[..i], Skip)
      invariant t.failed == Count(reports[..i], Fail)
      invariant t.valgrind == Count(reports[..i], Valgrind)
      invariant t.crashed == Count(reports[..i], Crash)
      invariant t.failedJobs == AllEntries(suite, reports[..i])
    {
      CountsStep(reports, i);
      EntriesStep(suite, reports, i);
      var job := reports[i];
      if job.status.Interrupted? {
        NothingFromInterrupted(suite, job);
        continue;
      }
      TwoEntries(t.failedJobs, suite, job);
      t := CountResult(t, job);
      var failedJobs := JudgeFile(suite, t.failedJobs, job);
      t := t.(failedJobs := failedJobs);
    }
    assert reports[..|reports|] == reports;
  }

  lemma NoReportsYet(suite: Suite, reports: seq<Report>)
    requires Known(suite, reports)
    ensures AllEntries(suite, reports[..0]) == [] && forall v :: Count(reports[..0], v) == 0
  {
  }

  lemma NothingFromInterrupted(suite: Suite, r: Report)
    requires r.job < |suite.example| == |suite.filePasses| && r.status.Interrupted?
    ensures Entries(suite, r) == []
    ensures VerdictOf(r.status) !in {Pass, Skip, Fail, Valgrind, Crash}
  {
  }

  function ExitStatus(t: Tally, totalTests: nat): nat {
    if t.passed + t.skipped == totalTests then 0 else 1
  }

  // ----- What the counters mean -----

  /** Every result is counted once, except the results of interrupted jobs, which are not counted. */
  lemma {:induction false} CountersAddUp(reports: seq<Report>)
    ensures Count(reports, Pass) + Count(reports, Fail) + Count(reports, Valgrind)
      + Count(reports, Crash) + Count(reports, Skip) + Count(reports, NotRun) == |reports|
  {
    if reports != [] {
      CountersAddUp(reports[..|reports| - 1]);
    }
  }

  predicate Good(s: Status) {
    s.Skipped? || s == Returned(0)
  }

  lemma {:induction false} AllGoodWhenCountersFull(reports: seq<Report>)
    ensures Count(reports, Pass) + Count(reports, Skip) <= |reports|
    ensures Count(reports, Pass) + Count(reports, Skip) == |reports|
      <==> forall i :: 0 <= i < |reports| ==> Good(reports[i].status)
  {
    if reports != [] {
      var front, last := reports[..|reports| - 1], reports[|reports| - 1];
      AllGoodWhenCountersFull(front);
      assert reports == front + [last];
    }
  }

  /** How often a job is in a list of jobs. */
  ghost function Occurrences(jobs: seq<JobId>, j: JobId): nat {
    multiset(jobs)[j]
  }

  lemma OccurrencesConcat(a: seq<JobId>, b: seq<JobId>, j: JobId)
    ensures Occurrences(a + b, j) == Occurrences(a, j) + Occurrences(b, j)
  {
  }

  lemma OwnEntries(suite: Suite, r: Report, j: JobId)
    requires r.job < |suite.example| == |suite.filePasses|
    ensures Occurrences(Entries(suite, r), j) == if j == r.job then |Entries(suite, r)| else 0
  {
    var e := Entries(suite, r);
    assert e == [] || e == [r.job] || e == [r.job] + [r.job];
  }

  /** Each `pop` takes back the entry its own job has just made, so a job's entries depend on its result alone. */
  lemma {:induction false} EntriesOfOneJob(suite: Suite, reports: seq<Report>, k: nat)
    requires Known(suite, reports) && k < |reports|
    requires forall i :: 0 <= i < |reports| && i != k ==> reports[i].job != reports[k].job
    ensures Occurrences(AllEntries(suite, reports), reports[k].job) == |Entries(suite, reports[k])|
  {
    hide Entries, Occurrences;
    var n := |reports| - 1;
    var j := reports[k].job;
    assert AllEntries(suite, reports) == AllEntries(suite, reports[..n]) + Entries(suite, reports[n]);
    OccurrencesConcat(AllEntries(suite, reports[..n]), Entries(suite, reports[n]), j);
    OwnEntries(suite, reports[n], j);
    if k == n {
      NoEntries(suite, reports[..n], j);
    } else {
      EntriesOfOneJob(suite, reports[..n], k);
    }
  }

  lemma {:induction false} NoEntries(suite: Suite, reports: seq<Report>, j: JobId)
    requires Known(suite, reports)
    requires forall i :: 0 <= i < |reports| ==> reports[i].job != j
    ensures Occurrences(AllEntries(suite, reports), j) == 0
  {
    if reports != [] {
      NoEntries(suite, reports[..|reports| - 1], j);
    }
  }

  // ----- Together with the worker pool -----

  lemma {:induction false} ReportIndex(reports: seq<Report>, j: JobId) returns (k: nat)
    requires ReportsOf(reports, j) == 1
    ensures k < |reports| && reports[k].job == j
    ensures forall i :: 0 <= i < |reports| && i != k ==> reports[i].job != j
  {
    var n := |reports| - 1;
    if reports[n].job == j {
      k := n;
      NoReports(reports[..n], j);
    } else {
      k := ReportIndex(reports[..n], j);
    }
  }

  lemma {:induction false} NoReports(reports: seq<Report>, j: JobId)
    requires ReportsOf(reports, j) == 0
    ensures forall i :: 0 <= i < |reports| ==> reports[i].job != j
  {
    if reports != [] {
      NoReports(reports[..|reports| - 1], j);
    }
  }

  /**
   For every interleaving: the exit status of a finished run is 0 exactly when no job was interrupted
   and every job that is not marked to be skipped returned 0.
   */
  lemma ExitStatusIsTheConjunction(c: Config, suite: Suite, states: seq<State>, actions: seq<Action>, t: Tally)
    requires IsRun(c, states, actions) && Done(c, states[|actions|]) && suite.Covers(c)
    requires t.passed == Count(states[|actions|].collected, Pass)
    requires t.skipped == Count(states[|actions|].collected, Skip)
    ensures ExitStatus(t, c.Jobs()) == 0 <==>
      forall j: JobId :: j < c.Jobs() ==>
        if c.skip[j] then Report(j, Skipped) in states[|actions|].collected
        else Report(j, Returned(0)) in states[|actions|].collected
  {
    EachJobReportedOnce(c, states, actions);
    var reports := states[|actions|].collected;
    AllGoodWhenCountersFull(reports);
    if forall i :: 0 <= i < |reports| ==> Good(reports[i].status) {
      forall j: JobId | j < c.Jobs()
        ensures if c.skip[j] then Report(j, Skipped) in reports else Report(j, Returned(0)) in reports
      {
        var k := ReportIndex(reports, j);
        assert Truthful(c, states[|actions|].interrupted, reports[k]);
        assert Good(reports[k].status);
        assert reports[k] == Report(j, reports[k].status);
      }
    }
    if forall j: JobId :: j < c.Jobs() ==>
        if c.skip[j] then Report(j, Skipped) in reports else Report(j, Returned(0)) in reports {
      forall i | 0 <= i < |reports| ensures Good(reports[i].status) {
        var j := reports[i].job;
        assert Truthful(c, states[|actions|].interrupted, reports[i]);
        var k := ReportIndex(reports, j);
        assert i == k;
        var m :| 0 <= m < |reports| && reports[m] == Report(j, if c.skip[j] then Skipped else Returned(0));
        assert m == k;
      }
    }
  }

  /** Every child process ended with 0, and no worker read the interrupt flag after an interrupt. */
  ghost predicate AllWell(actions: seq<Action>) {
    forall i :: 0 <= i < |actions| ==>
      && (actions[i].Finish? ==> actions[i].code == 0)
      && (actions[i].ReadFlag? ==> Interrupt !in actions[..i])
  }

  lemma ReportOfStep(c: Config, states: seq<State>, actions: seq<Action>, i: nat) returns (r: Report)
    requires IsRun(c, states, actions) && Done(c, states[|actions|]) && i < |actions|
    requires actions[i].Finish? || (actions[i].ReadFlag? && Interrupt in actions[..i])
    ensures r in states[|actions|].collected
    ensures r.status == if actions[i].Finish? then Returned(actions[i].code) else Interrupted
  {
    assert Enabled(c, states[i], actions[i]);
    var w := actions[i].w;
    if actions[i].Finish? {
      var j := states[i].workers[w].job;
      r := Report(j, Returned(actions[i].code));
      assert states[i].workers[w] == Running(j);
      assert ChildEnds(states[i], actions[i], j, actions[i].code);
      hide IsRun, Done, ChildEnds;
      CodesAreThoseOfTheChildren(c, states, actions, j, actions[i].code);
    } else {
      var j := states[i].workers[w].job;
      r := Report(j, Interrupted);
      assert states[i].workers[w] == Holding(j);
      assert FlagIsRead(states[i], actions[i], j);
      hide IsRun, Done, FlagIsRead;
      InterruptedReports(c, states, actions, j);
    }
  }

  lemma ReportWhenAllIsWell(c: Config, states: seq<State>, actions: seq<Action>, r: Report)
    requires IsRun(c, states, actions) && Done(c, states[|actions|]) && AllWell(actions)
    requires r in states[|actions|].collected
    ensures Good(r.status)
  {
    hide IsRun, Done;
    match r.status {
      case Returned(code) => CodesAreThoseOfTheChildren(c, states, actions, r.job, code);
      case Interrupted => InterruptedReports(c, states, actions, r.job);
      case Skipped =>
    }
    assert r == Report(r.job, r.status);
  }

  /** The exit status of a finished run is 0 when all went well in its steps, and 1 otherwise. */
  lemma ExitStatusOfActions(c: Config, states: seq<State>, actions: seq<Action>, t: Tally)
    requires IsRun(c, states, actions) && Done(c, states[|actions|])
    requires t.passed == Count(states[|actions|].collected, Pass)
    requires t.skipped == Count(states[|actions|].collected, Skip)
    ensures ExitStatus(t, c.Jobs()) == if AllWell(actions) then 0 else 1
  {
    EachJobReportedOnce(c, states, actions);
    hide IsRun, Done, Truthful, ReportsOf;
    var reports := states[|actions|].collected;
    AllGoodWhenCountersFull(reports);
    if forall i :: 0 <= i < |reports| ==> Good(reports[i].status) {
      forall i | 0 <= i < |actions|
        ensures actions[i].Finish? ==> actions[i].code == 0
        ensures actions[i].ReadFlag? ==> Interrupt !in actions[..i]
      {
        if actions[i].Finish? || (actions[i].ReadFlag? && Interrupt in actions[..i]) {
          var r := ReportOfStep(c, states, actions, i);
        }
      }
    }
    if AllWell(actions) {
      forall i | 0 <= i < |reports| ensures Good(reports[i].status) {
        ReportWhenAllIsWell(c, states, actions, reports[i]);
      }
    }
  }

  /** How often a job with the given result should be in the list of failed jobs. */
  ghost function Copies(suite: Suite, j: JobId, status: Status): nat
    requires j < |suite.example| == |suite.filePasses|
  {
    match status
    case Interrupted => 0
    case Skipped => 0
    case Returned(code) =>
      OneIf(code != 0) + OneIf(!suite.example[j] && !(0 <= code <= 2 && suite.filePasses[j]))
  }

  /**
   The list of failed jobs after a finished run, for every job: it is there once for a code other than 0, and a
   suite is there once more unless its file can be read and says that it passed. So a crashed suite is in the
   list twice, a passing example and a job that was skipped or interrupted are not.
   */
  lemma FailedJobsOfRun(c: Config, suite: Suite, states: seq<State>, actions: seq<Action>, j: JobId)
    returns (status: Status)
    requires IsRun(c, states, actions) && Done(c, states[|actions|]) && suite.Covers(c) && j < c.Jobs()
    ensures Known(suite, states[|actions|].collected)
    ensures Report(j, status) in states[|actions|].collected
    ensures Occurrences(AllEntries(suite, states[|actions|].collected), j) == Copies(suite, j, status)
  {
    EachJobReportedOnce(c, states, actions);
    var s := states[|actions|];
    forall i | 0 <= i < |s.collected| ensures s.collected[i].job < c.Jobs() {
      assert Truthful(c, s.interrupted, s.collected[i]);
    }
    var k := ReportIndex(s.collected, j);
    status := s.collected[k].status;
    assert s.collected[k] == Report(j, status);
    EntriesOfOneJob(suite, s.collected, k);
  }
}
