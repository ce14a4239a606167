/**
The collecting loop of `test.py`: how the delivered jobs are tallied, which jobs
are listed as failed, and what the exit code says about the tests.
*/
module TestTally {
  import opened Counting
  import opened TestRunner
  import opened TestRunnerRuns

  datatype Status = Interrupted | Skip | Pass | Fail | Valgrind | Crash

  function StatusOf(job: Job): Status {
    if job.isBreak then Interrupted
    else if job.isSkip then Skip
    else if job.returncode == 0 then Pass
    else if job.returncode == 1 then Fail
    else if job.returncode == 2 then Valgrind
    else Crash
  }

  function CountOf(jobs: seq<Job>, status: Status): nat {
    if jobs == [] then 0 else (if StatusOf(jobs[0]) == status then 1 else 0) + CountOf(jobs[1..], status)
  }

  // How often the loop lists a job as failed: once for a bad return code, and once more for
  // a test suite whose result file is missing its pass, or that crashed.
  function Listed(job: Job, filePasses: nat -> bool): seq<Job> {
    if job.isBreak || job.isSkip then []
    else
      (if job.returncode == 0 then [] else [job])
      + (if job.isExample || (0 <= job.returncode <= 2 && filePasses(job.id)) then [] else [job])
  }

  function FailedListing(jobs: seq<Job>, filePasses: nat -> bool): seq<Job> {
    if jobs == [] then []
    else FailedListing(jobs[..|jobs| - 1], filePasses) + Listed(jobs[|jobs| - 1], filePasses)
  }

  lemma {:induction false} CountOfAppend(jobs: seq<Job>, job: Job, status: Status)
    ensures CountOf(jobs + [job], status) == CountOf(jobs, status) + if StatusOf(job) == status then 1 else 0
  {
    if jobs == [] {
    } else {
      assert (jobs + [job])[1..] == jobs[1..] + [job];
      CountOfAppend(jobs[1..], job, status);
    }
  }

  lemma {:induction false} TallyNext(delivered: seq<Job>, filePasses: nat -> bool, i: nat)
    requires i < |delivered|
    ensures forall status :: CountOf(delivered[..i + 1], status)
                          == CountOf(delivered[..i], status) + if StatusOf(delivered[i]) == status then 1 else 0
    ensures FailedListing(delivered[..i + 1], filePasses)
         == FailedListing(delivered[..i], filePasses) + Listed(delivered[i], filePasses)
  {
    assert delivered[..i + 1] == delivered[..i] + [delivered[i]];
    assert delivered[..i + 1][..i] == delivered[..i];
    forall status ensures CountOf(delivered[..i + 1], status)
                       == CountOf(delivered[..i], status) + if StatusOf(delivered[i]) == status then 1 else 0
    {
      CountOfAppend(delivered[..i], delivered[i], status);
    }
  }

  // What a delivered job that ran adds to the list of failed jobs, or takes off again.
  method UpdateFailed(job: Job, filePasses: nat -> bool, failedJobs: seq<Job>) returns (updated: seq<Job>)
    requires !job.isBreak
    ensures updated == failedJobs + Listed(job, filePasses)
  {
    updated := failedJobs;
    if !job.isSkip {
      updated := updated + [job];
      if job.returncode == 0 {
        updated := updated[..|updated| - 1];
      }
    }
    if !job.isExample && !job.isSkip {
      updated := updated + [job];
      if job.returncode == 0 || job.returncode == 1 || job.returncode == 2 {
        if filePasses(job.id) {
          updated := updated[..|updated| - 1];
        }
      }
    }
  }

  // The loop over the delivered jobs; `filePasses` says of a test suite whether the result
  // file it wrote reads PASS or SKIP.
  method CollectResults(delivered: seq<Job>, filePasses: nat -> bool)
    returns (passed: nat, skipped: nat, failed: nat, crashed: nat, valgrindErrors: nat, failedJobs: seq<Job>)
    ensures passed == CountOf(delivered, Pass) && skipped == CountOf(delivered, Skip)
    ensures failed == CountOf(delivered, Fail) && crashed == CountOf(delivered, Crash)
    ensures valgrindErrors == CountOf(delivered, Valgrind)
    ensures failedJobs == FailedListing(delivered, filePasses)
  {
    passed, skipped, failed, crashed, valgrindErrors, failedJobs := 0, 0, 0, 0, 0, [];
    for i := 0 to |delivered|
      invariant passed == CountOf(delivered[..i], Pass) && skipped == CountOf(delivered[..i], Skip)
      invariant failed == CountOf(delivered[..i], Fail) && crashed == CountOf(delivered[..i], Crash)
      invariant valgrindErrors == CountOf(delivered[..i], Valgrind)
      invariant failedJobs == FailedListing(delivered[..i], filePasses)
    {
      var job := delivered[i];
      TallyNext(delivered, filePasses, i);
      if job.isBreak {
        continue;
      }
      if job.isSkip {
        skipped := skipped + 1;
      } else if job.returncode == 0 {
        passed := passed + 1;
      } else if job.returncode == 1 {
        failed := failed + 1;
      } else if job.returncode == 2 {
        valgrindErrors := valgrindErrors + 1;
      } else {
        crashed := crashed + 1;
      }
      failedJobs := UpdateFailed(job, filePasses, failedJobs);
    }
    assert delivered[..|delivered|] == delivered;
  }

  function ExitCode(passed: nat, skipped: nat, total: nat): int {
    if passed + skipped == total then 0 else 1
  }

  // Each delivered job counts once: the printed counts and the interrupted jobs make the total.
  lemma {:induction false} CountsAddUp(jobs: seq<Job>)
    ensures CountOf(jobs, Pass) + CountOf(jobs, Skip) + CountOf(jobs, Fail) + CountOf(jobs, Crash)
            + CountOf(jobs, Valgrind) + CountOf(jobs, Interrupted) == |jobs|
  {
    if jobs != [] {
      CountsAddUp(jobs[1..]);
    }
  }

  predicate Good(job: Job) {
    !job.isBreak && (job.isSkip || job.returncode == 0)
  }

  lemma {:induction false} ZeroIffAllGood(jobs: seq<Job>)
    ensures CountOf(jobs, Pass) + CountOf(jobs, Skip) <= |jobs|
    ensures ExitCode(CountOf(jobs, Pass), CountOf(jobs, Skip), |jobs|) in {0, 1}
    ensures ExitCode(CountOf(jobs, Pass), CountOf(jobs, Skip), |jobs|) == 0
       <==> forall k :: 0 <= k < |jobs| ==> Good(jobs[k])
  {
    if jobs != [] {
      ZeroIffAllGood(jobs[1..]);
      assert forall k :: 0 < k < |jobs| ==> jobs[k] == jobs[1..][k - 1];
      assert forall k :: 0 <= k < |jobs[1..]| ==> jobs[1..][k] == jobs[k + 1];
    }
  }

  // A job is listed as failed exactly if it ran and its return code or its result file says so.
  lemma {:induction false} FailedListingMeaning(jobs: seq<Job>, filePasses: nat -> bool, job: Job)
    ensures job in FailedListing(jobs, filePasses) <==>
            && job in jobs && !job.isBreak && !job.isSkip
            && (job.returncode != 0 || (!job.isExample && !filePasses(job.id)))
  {
    if jobs != [] {
      var k := |jobs| - 1;
      FailedListingMeaning(jobs[..k], filePasses, job);
      assert jobs == jobs[..k] + [jobs[k]];
    }
  }

  // ----- what the counts and the list are -----

  // The delivered jobs that were not broken, have the skip mark or not, and a return code.
  function Ran(jobs: seq<Job>, code: int -> bool): set<nat> {
    set k: nat | k < |jobs| && !jobs[k].isBreak && !jobs[k].isSkip && code(jobs[k].returncode)
  }

  function Where(jobs: seq<Job>, status: Status): set<nat> {
    set k: nat | k < |jobs| && StatusOf(jobs[k]) == status
  }

  lemma {:induction false} CountIsSize(jobs: seq<Job>, status: Status)
    ensures CountOf(jobs, status) == |Where(jobs, status)|
    decreases |jobs|
  {
    if jobs == [] {
      assert Where(jobs, status) == {};
    } else {
      var before, job := jobs[..|jobs| - 1], jobs[|jobs| - 1];
      CountIsSize(before, status);
      CountOfAppend(before, job, status);
      WhereNext(before, job, status);
      assert jobs == before + [job];
    }
  }

  lemma {:induction false} WhereNext(jobs: seq<Job>, job: Job, status: Status)
    ensures |Where(jobs + [job], status)| == |Where(jobs, status)| + if StatusOf(job) == status then 1 else 0
  {
    var n := |jobs|;
    assert n !in Where(jobs, status);
    if StatusOf(job) == status {
      assert Where(jobs + [job], status) == Where(jobs, status) + {n};
    } else {
      assert Where(jobs + [job], status) == Where(jobs, status);
    }
  }

  // The counts: a job that was neither broken nor skipped passed, failed or had valgrind
  // errors if its return code is 0, 1 or 2, and crashed otherwise.
  lemma {:induction false} CountsAre(jobs: seq<Job>)
    ensures CountOf(jobs, Pass) == |Ran(jobs, code => code == 0)| && CountOf(jobs, Fail) == |Ran(jobs, code => code == 1)|
    ensures CountOf(jobs, Valgrind) == |Ran(jobs, code => code == 2)|
    ensures CountOf(jobs, Crash) == |Ran(jobs, code => code < 0 || code > 2)|
    ensures CountOf(jobs, Skip) == |set k: nat | k < |jobs| && !jobs[k].isBreak && jobs[k].isSkip|
    ensures CountOf(jobs, Interrupted) == |set k: nat | k < |jobs| && jobs[k].isBreak|
  {
    CountIsSize(jobs, Pass);
    CountIsSize(jobs, Fail);
    CountIsSize(jobs, Valgrind);
    CountIsSize(jobs, Crash);
    CountIsSize(jobs, Skip);
    CountIsSize(jobs, Interrupted);
    assert Where(jobs, Pass) == Ran(jobs, code => code == 0) && Where(jobs, Fail) == Ran(jobs, code => code == 1);
    assert Where(jobs, Valgrind) == Ran(jobs, code => code == 2);
    assert Where(jobs, Crash) == Ran(jobs, code => code < 0 || code > 2);
    assert Where(jobs, Skip) == set k: nat | k < |jobs| && !jobs[k].isBreak && jobs[k].isSkip;
    assert Where(jobs, Interrupted) == set k: nat | k < |jobs| && jobs[k].isBreak;
  }

  // A job is listed once for a bad return code and once more for a suite that crashed or whose
  // result file does not pass.
  lemma {:induction false} ListedTimes(job: Job, filePasses: nat -> bool)
    ensures !job.isBreak && !job.isSkip ==>
      |FailedListing([job], filePasses)| == (if job.returncode != 0 then 1 else 0)
        + if !job.isExample && (job.returncode < 0 || job.returncode > 2 || !filePasses(job.id)) then 1 else 0
  {
    assert [job][..0] == [];
  }

  // The list of failed jobs keeps the order of delivery.
  lemma {:induction false} FailedListingInOrder(jobs: seq<Job>, job: Job, filePasses: nat -> bool)
    ensures FailedListing([], filePasses) == []
    ensures FailedListing(jobs + [job], filePasses) == FailedListing(jobs, filePasses) + FailedListing([job], filePasses)
  {
    assert [job][..0] == [];
    assert (jobs + [job])[..|jobs|] == jobs;
  }

  // ----- what the exit code says about the tests -----

  predicate TestGood(t: Test) {
    t.isSkip || t.outcome == 0
  }

  lemma {:induction false} CollectedHasEveryTest(cfg: Config, s: State, id: nat)
    requires Delivered(cfg, s) && id < |cfg.tests|
    ensures exists k :: 0 <= k < |s.collected| && s.collected[k].id == id
  {
    if forall k :: 0 <= k < |s.collected| ==> s.collected[k].id != id {
      Absent(JobIds(s.collected), id);
    }
  }

  // The code the runner returns after its last join.
  function ReturnedCode(s: State, total: nat): int {
    ExitCode(CountOf(s.collected, Pass), CountOf(s.collected, Skip), total)
  }

  // Whatever the interleaving: a zero exit code means that no job was interrupted and that
  // every test was skipped or succeeded, and without an interrupt the converse holds too.
  lemma {:induction false} ExitCodeIsSound(cfg: Config, acts: seq<Action>)
    requires IsRun(cfg, Init(cfg), acts) && Finished(cfg, After(cfg, Init(cfg), acts))
    ensures var s := After(cfg, Init(cfg), acts);
            && (ReturnedCode(s, |cfg.tests|) == 0 <==> forall k :: 0 <= k < |s.collected| ==> Good(s.collected[k]))
            && (ReturnedCode(s, |cfg.tests|) == 0 ==> forall i :: 0 <= i < |cfg.tests| ==> TestGood(cfg.tests[i]))
            && (Interrupt !in acts ==>
                  (ReturnedCode(s, |cfg.tests|) == 0 <==> forall i :: 0 <= i < |cfg.tests| ==> TestGood(cfg.tests[i])))
  {
    var s := After(cfg, Init(cfg), acts);
    InitEstablishesInv(cfg);
    RunPreservesInv(cfg, Init(cfg), acts);
    FinishedIsDelivered(cfg, s);
    ZeroIffAllGood(s.collected);
    if ReturnedCode(s, |cfg.tests|) == 0 {
      forall i | 0 <= i < |cfg.tests| ensures TestGood(cfg.tests[i]) {
        CollectedHasEveryTest(cfg, s, i);
        var k :| 0 <= k < |s.collected| && s.collected[k].id == i;
        assert Good(s.collected[k]) && ResultOf(cfg, s.collected[k], s.threadExit);
      }
    }
    if Interrupt !in acts {
      NoInterruptNoExit(cfg, Init(cfg), acts);
      assert forall k :: 0 <= k < |s.collected| ==> ResultOf(cfg, s.collected[k], false);
    }
  }

  // ----- the summary does not depend on the interleaving -----

  function TestStatus(t: Test): Status {
    if t.isSkip then Skip
    else if t.outcome == 0 then Pass
    else if t.outcome == 1 then Fail
    else if t.outcome == 2 then Valgrind
    else Crash
  }

  // How many of the first `hi` tests have a status.
  function TestCount(tests: seq<Test>, status: Status, hi: nat): nat
    requires hi <= |tests|
  {
    if hi == 0 then 0
    else TestCount(tests, status, hi - 1) + if TestStatus(tests[hi - 1]) == status then 1 else 0
  }

  // How many jobs for the first `hi` tests have a status.
  function CountBelow(jobs: seq<Job>, status: Status, hi: nat): nat {
    if jobs == [] then 0
    else (if jobs[0].id < hi && StatusOf(jobs[0]) == status then 1 else 0) + CountBelow(jobs[1..], status, hi)
  }

  predicate HasStatuses(cfg: Config, jobs: seq<Job>) {
    forall k :: 0 <= k < |jobs| ==>
      jobs[k].id < |cfg.tests| && StatusOf(jobs[k]) == TestStatus(cfg.tests[jobs[k].id])
  }

  lemma {:induction false} CountBelowGrow(cfg: Config, jobs: seq<Job>, status: Status, hi: nat)
    requires HasStatuses(cfg, jobs) && hi < |cfg.tests|
    ensures CountBelow(jobs, status, hi + 1) == CountBelow(jobs, status, hi)
            + if TestStatus(cfg.tests[hi]) == status then Occurrences(JobIds(jobs), hi) else 0
  {
    if jobs == [] {
    } else {
      assert jobs[0].id == hi ==> StatusOf(jobs[0]) == TestStatus(cfg.tests[hi]);
      JobRemove(jobs, hi);
      CountBelowGrow(cfg, jobs[1..], status, hi);
    }
  }

  lemma {:induction false} CountBelowIsTestCount(cfg: Config, jobs: seq<Job>, status: Status, hi: nat)
    requires HasStatuses(cfg, jobs) && hi <= |cfg.tests|
    requires forall id: nat :: id < |cfg.tests| ==> Occurrences(JobIds(jobs), id) == 1
    ensures CountBelow(jobs, status, hi) == TestCount(cfg.tests, status, hi)
  {
    if hi == 0 {
      CountBelowZero(jobs, status);
    } else {
      CountBelowIsTestCount(cfg, jobs, status, hi - 1);
      CountBelowGrow(cfg, jobs, status, hi - 1);
    }
  }

  lemma {:induction false} CountBelowZero(jobs: seq<Job>, status: Status)
    ensures CountBelow(jobs, status, 0) == 0
  {
    if jobs != [] {
      CountBelowZero(jobs[1..], status);
    }
  }

  lemma {:induction false} CountBelowAll(jobs: seq<Job>, status: Status, hi: nat)
    requires forall k :: 0 <= k < |jobs| ==> jobs[k].id < hi
    ensures CountBelow(jobs, status, hi) == CountOf(jobs, status)
  {
    if jobs != [] {
      CountBelowAll(jobs[1..], status, hi);
    }
  }

  // The tests with a status among the first `hi`.
  function TestsWith(tests: seq<Test>, status: Status, hi: nat): set<nat>
    requires hi <= |tests|
  {
    set i: nat | i < hi && TestStatus(tests[i]) == status
  }

  lemma {:induction false} TestCountsAre(tests: seq<Test>, status: Status, hi: nat)
    requires hi <= |tests|
    ensures TestCount(tests, status, hi) == |TestsWith(tests, status, hi)|
    decreases hi
  {
    if hi == 0 {
      assert TestsWith(tests, status, 0) == {};
    } else {
      TestCountsAre(tests, status, hi - 1);
      TestsNext(tests, status, hi - 1);
    }
  }

  lemma {:induction false} TestsNext(tests: seq<Test>, status: Status, i: nat)
    requires i < |tests|
    ensures |TestsWith(tests, status, i + 1)| == |TestsWith(tests, status, i)| + if TestStatus(tests[i]) == status then 1 else 0
  {
    var before := TestsWith(tests, status, i);
    assert i !in before;
    if TestStatus(tests[i]) == status {
      assert TestsWith(tests, status, i + 1) == before + {i};
    } else {
      assert TestsWith(tests, status, i + 1) == before;
    }
  }

  // Without an interrupt every interleaving prints the same summary: each count is the
  // number of tests with that status.
  lemma {:induction false} SummaryIsDeterministic(cfg: Config, acts: seq<Action>, status: Status)
    requires IsRun(cfg, Init(cfg), acts) && Finished(cfg, After(cfg, Init(cfg), acts))
    requires Interrupt !in acts
    ensures CountOf(After(cfg, Init(cfg), acts).collected, status) == TestCount(cfg.tests, status, |cfg.tests|)
  {
    var s := After(cfg, Init(cfg), acts);
    InitEstablishesInv(cfg);
    RunPreservesInv(cfg, Init(cfg), acts);
    FinishedIsDelivered(cfg, s);
    NoInterruptNoExit(cfg, Init(cfg), acts);
    assert forall k :: 0 <= k < |s.collected| ==> ResultOf(cfg, s.collected[k], false);
    CountBelowIsTestCount(cfg, s.collected, status, |cfg.tests|);
    CountBelowAll(s.collected, status, |cfg.tests|);
  }
}
