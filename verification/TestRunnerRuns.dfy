/**
What the worker protocol guarantees over whole runs: no worker stops early, a
state that is not finished is never stuck, every run is short, and a run that
cannot go on has delivered each test exactly once and stopped every worker.
*/
module TestRunnerRuns {
  import opened Counting
  import opened TestRunner

  // ----- safety -----

  // A worker is in its stop state only when no test is left on the input queue.
  lemma {:induction false} NoWorkerStopsEarly(cfg: Config, acts: seq<Action>, w: nat, k: nat)
    requires IsRun(cfg, Init(cfg), acts)
    requires w < |After(cfg, Init(cfg), acts).workers| && After(cfg, Init(cfg), acts).workers[w].Stopped?
    requires k < |After(cfg, Init(cfg), acts).inputQueue|
    ensures After(cfg, Init(cfg), acts).inputQueue[k].isBreak
    ensures After(cfg, Init(cfg), acts).inputQueue[k].id >= |cfg.tests|
  {
    var s := After(cfg, Init(cfg), acts);
    InitEstablishesInv(cfg);
    RunPreservesInv(cfg, Init(cfg), acts);
    assert WorkerOk(cfg, s.workers[w], s.threadExit);
    HeldIsPlaced(s, w);
  }

  lemma {:induction false} HeldIsPlaced(s: State, w: nat)
    requires OncePlaced(s) && w < |s.workers| && !s.workers[w].Idle?
    ensures s.workers[w].job.id < Taken(s)
  {
    OccursAt(HeldIds(s.workers), w);
    assert Places(s, s.workers[w].job.id) >= 1;
  }

  // The input queue holds the tests not yet taken, untouched and in order, and behind them
  // the break jobs: a job that an interrupt broke never comes back to it.
  lemma {:induction false} InputQueueIsAWindow(cfg: Config, acts: seq<Action>)
    requires IsRun(cfg, Init(cfg), acts)
    ensures var s := After(cfg, Init(cfg), acts);
            && (forall i, j :: 0 <= i < j < |s.inputQueue| && s.inputQueue[i].isBreak ==> s.inputQueue[j].isBreak)
            && (forall i :: 0 <= i < |s.inputQueue| ==>
                  (s.inputQueue[i].isBreak <==> s.inputQueue[i].id >= |cfg.tests|))
            && (forall i, j :: 0 <= i < j < |s.inputQueue| ==> s.inputQueue[i].id < s.inputQueue[j].id)
  {
    InitEstablishesInv(cfg);
    RunPreservesInv(cfg, Init(cfg), acts);
  }

  // ----- an unfinished state is never stuck -----

  predicate Busy(w: Worker) {
    w.Fetched? || w.Executing? || w.Reporting?
  }

  function BusyAction(ws: seq<Worker>, w: nat): Action
    requires w < |ws| && Busy(ws[w])
  {
    if ws[w].Fetched? then Inspect(w) else if ws[w].Executing? then Execute(w) else Report(w)
  }

  // Stopped workers hold different break jobs, so they are no more than the break jobs taken.
  lemma {:induction false} StoppedAreFew(cfg: Config, s: State)
    requires Inv(cfg, s) && |s.workers| > 0
    requires forall w :: 0 <= w < |s.workers| ==> s.workers[w].Stopped?
    ensures |s.workers| <= Taken(s) - |cfg.tests|
  {
    var held := HeldIds(s.workers);
    forall w | 0 <= w < |s.workers| ensures |cfg.tests| <= held[w] < Taken(s) {
      HeldIsPlaced(s, w);
      assert WorkerOk(cfg, s.workers[w], s.threadExit);
    }
    assert |cfg.tests| <= held[0] < Taken(s);
    forall x: nat ensures Occurrences(held, x) <= 1 {
      assert Places(s, x) <= 1;
    }
    WithinSize(held, |cfg.tests|, Taken(s));
    DistinctRange(held, |cfg.tests|, Taken(s));
  }

  // If no test is queued, held by a busy worker or reported, they have all been collected.
  lemma {:induction false} AllCollected(cfg: Config, s: State)
    requires Inv(cfg, s) && s.puts == Messages(cfg) && s.inputQueue == [] && s.outputQueue == []
    requires forall w :: 0 <= w < |s.workers| ==> !Busy(s.workers[w])
    ensures |s.collected| >= |cfg.tests|
  {
    forall x | 0 <= x < |cfg.tests| ensures Occurrences(JobIds(s.collected), x) >= 1 {
      assert Places(s, x) == 1;
      forall w | 0 <= w < |s.workers| ensures HeldIds(s.workers)[w] != x {
        assert WorkerOk(cfg, s.workers[w], s.threadExit);
      }
      Absent(HeldIds(s.workers), x);
    }
    CoveredRange(JobIds(s.collected), 0, |cfg.tests|);
    WithinSize(JobIds(s.collected), 0, |cfg.tests|);
  }

  // Once every break job is taken and no worker is busy, every worker has stopped.
  lemma {:induction false} AllStopped(cfg: Config, s: State, t: nat)
    requires Inv(cfg, s) && s.puts == Messages(cfg) && s.inputQueue == []
    requires forall w :: 0 <= w < |s.workers| ==> !Busy(s.workers[w])
    requires t < |s.workers|
    ensures s.workers[t].Stopped?
  {
    var n, held := |cfg.tests|, HeldIds(s.workers);
    forall x | n <= x < Messages(cfg) ensures Occurrences(held, x) >= 1 {
      assert Places(s, x) == 1;
      NoResultAbove(cfg, s.outputQueue, s.threadExit, x);
      NoResultAbove(cfg, s.collected, s.threadExit, x);
    }
    CoveredRange(held, n, Messages(cfg));
    WithinSize(held, n, Messages(cfg));
    assert held[t] >= n;
  }

  lemma {:induction false} NoResultAbove(cfg: Config, jobs: seq<Job>, threadExit: bool, x: nat)
    requires forall k :: 0 <= k < |jobs| ==> ResultOf(cfg, jobs[k], threadExit)
    requires x >= |cfg.tests|
    ensures Occurrences(JobIds(jobs), x) == 0
  {
    Absent(JobIds(jobs), x);
  }

  // With a worker, or with nothing to run, a state that is not finished has a step other
  // than an interrupt.
  lemma {:induction false} NeverStuck(cfg: Config, s: State)
    requires Inv(cfg, s) && !Finished(cfg, s)
    requires cfg.processors >= 1 || cfg.tests == []
    ensures exists a :: Enabled(cfg, s, a) && !a.Interrupt?
  {
    if s.puts < Messages(cfg) {
      assert Enabled(cfg, s, Put);
    } else if w :| 0 <= w < |s.workers| && Busy(s.workers[w]) {
      assert Enabled(cfg, s, BusyAction(s.workers, w));
    } else if s.inputQueue != [] {
      if w :| 0 <= w < |s.workers| && s.workers[w].Idle? {
        assert Enabled(cfg, s, Get(w));
      } else {
        StoppedAreFew(cfg, s);
        assert false;
      }
    } else if |s.collected| < |cfg.tests| {
      if s.outputQueue == [] {
        AllCollected(cfg, s);
        assert false;
      }
      assert Enabled(cfg, s, Collect);
    } else {
      AllStopped(cfg, s, s.joined);
      assert Enabled(cfg, s, Join);
    }
  }

  // ----- every run is short -----

  // The actions a worker still has to make for the job it holds, and the get of the result.
  function Pending(w: Worker): nat {
    match w
    case Idle => 0
    case Fetched(_) => 4
    case Executing(_) => 3
    case Reporting(_) => 2
    case Stopped(_) => 0
  }

  function AllPending(ws: seq<Worker>): nat {
    if ws == [] then 0 else Pending(ws[0]) + AllPending(ws[1..])
  }

  function Measure(cfg: Config, s: State): int {
    6 * (Messages(cfg) - s.puts) + 5 * |s.inputQueue| + AllPending(s.workers) + |s.outputQueue|
    + (|s.workers| - s.joined) + (if s.threadExit then 0 else 1)
  }

  lemma {:induction false} PendingUpdate(ws: seq<Worker>, i: nat, w: Worker)
    requires i < |ws|
    ensures AllPending(ws[i := w]) + Pending(ws[i]) == AllPending(ws) + Pending(w)
  {
    if i == 0 {
      assert ws[i := w][1..] == ws[1..];
    } else {
      assert ws[i := w][1..] == ws[1..][i - 1 := w];
      PendingUpdate(ws[1..], i - 1, w);
    }
  }

  lemma {:induction false} StepDecreasesMeasure(cfg: Config, s: State, a: Action)
    requires Inv(cfg, s) && Enabled(cfg, s, a)
    ensures 0 <= Measure(cfg, Apply(cfg, s, a)) < Measure(cfg, s)
  {
    StepPreservesInv(cfg, s, a);
    if Mover(a) >= 0 {
      PendingUpdate(s.workers, Mover(a), Apply(cfg, s, a).workers[Mover(a)]);
    }
  }

  lemma {:induction false} RunIsShort(cfg: Config, s: State, acts: seq<Action>)
    requires Inv(cfg, s) && IsRun(cfg, s, acts)
    ensures |acts| <= Measure(cfg, s)
    decreases acts
  {
    if acts != [] {
      StepPreservesInv(cfg, s, acts[0]);
      StepDecreasesMeasure(cfg, s, acts[0]);
      RunIsShort(cfg, Apply(cfg, s, acts[0]), acts[1..]);
    }
  }

  lemma {:induction false} IdleHaveNothingPending(ws: seq<Worker>)
    requires forall w :: 0 <= w < |ws| ==> ws[w].Idle?
    ensures AllPending(ws) == 0
  {
    if ws != [] {
      IdleHaveNothingPending(ws[1..]);
    }
  }

  // ----- what a run that cannot go on has done -----

  // Every test was collected exactly once, nothing is left anywhere, every worker stopped.
  ghost predicate Delivered(cfg: Config, s: State) {
    && s.inputQueue == [] && s.outputQueue == []
    && (forall w :: 0 <= w < |s.workers| ==> s.workers[w].Stopped?)
    && |s.collected| == |cfg.tests|
    && (forall id: nat :: id < |cfg.tests| ==> Occurrences(JobIds(s.collected), id) == 1)
    && (forall k :: 0 <= k < |s.collected| ==> ResultOf(cfg, s.collected[k], s.threadExit))
  }

  lemma {:induction false} FinishedIsDelivered(cfg: Config, s: State)
    requires Inv(cfg, s) && Finished(cfg, s)
    ensures Delivered(cfg, s)
  {
    var n, ids := |cfg.tests|, JobIds(s.collected);
    forall k | 0 <= k < |ids| ensures 0 <= ids[k] < n {
      assert ResultOf(cfg, s.collected[k], s.threadExit);
    }
    forall x: nat ensures Occurrences(ids, x) <= 1 {
      assert Places(s, x) <= 1;
    }
    WithinSize(ids, 0, n);
    DistinctRange(ids, 0, n);
    forall x: nat | x < n ensures Occurrences(JobIds(s.outputQueue), x) == 0 {
      assert Places(s, x) <= 1;
    }
    NoneWithin(JobIds(s.outputQueue), 0, n);
    WithinSize(JobIds(s.outputQueue), 0, n);
    if |s.workers| > 0 {
      StoppedAreFew(cfg, s);
    } else if n > 0 {
      assert Occurrences(ids, n - 1) == 1;
      assert Places(s, n - 1) >= 1;
    }
  }

  // With at least one worker, however the threads interleave and whenever an interrupt comes:
  // the run has at most the stated number of actions, and once it has none left but an
  // interrupt, every get and join has returned and every test was delivered exactly once.
  lemma {:induction false} EveryRunDelivers(cfg: Config, acts: seq<Action>)
    requires IsRun(cfg, Init(cfg), acts)
    requires cfg.processors >= 1 || cfg.tests == []
    ensures |acts| <= 6 * |cfg.tests| + 7 * cfg.processors + 1
    ensures var s := After(cfg, Init(cfg), acts);
            (forall a :: Enabled(cfg, s, a) ==> a.Interrupt?) ==> Finished(cfg, s) && Delivered(cfg, s)
  {
    var s := After(cfg, Init(cfg), acts);
    InitEstablishesInv(cfg);
    IdleHaveNothingPending(Init(cfg).workers);
    RunIsShort(cfg, Init(cfg), acts);
    RunPreservesInv(cfg, Init(cfg), acts);
    if Finished(cfg, s) {
      FinishedIsDelivered(cfg, s);
    } else {
      NeverStuck(cfg, s);
    }
  }

  // ----- the queues are first in, first out -----

  // The jobs that the workers put on the output queue in a run, in the order of the puts.
  function HandedOver(cfg: Config, s: State, acts: seq<Action>): seq<Job>
    requires IsRun(cfg, s, acts)
    decreases acts
  {
    if acts == [] then []
    else
      (if acts[0].Report? then [s.workers[acts[0].w].job] else []) + HandedOver(cfg, Apply(cfg, s, acts[0]), acts[1..])
  }

  // The jobs that the workers got from the input queue, in the order of the gets.
  function Fetches(cfg: Config, s: State, acts: seq<Action>): seq<Job>
    requires IsRun(cfg, s, acts)
    decreases acts
  {
    if acts == [] then []
    else
      var s' := Apply(cfg, s, acts[0]);
      (if acts[0].Get? then [HeldJob(s'.workers, acts[0].w)] else []) + Fetches(cfg, s', acts[1..])
  }

  function HeldJob(ws: seq<Worker>, w: nat): Job {
    if w < |ws| && !ws[w].Idle? then ws[w].job else Job(0, true, false, false, 0)
  }

  lemma {:induction false} OutputIsFifo(cfg: Config, s: State, acts: seq<Action>)
    requires IsRun(cfg, s, acts)
    ensures After(cfg, s, acts).collected + After(cfg, s, acts).outputQueue
         == s.collected + s.outputQueue + HandedOver(cfg, s, acts)
    decreases acts
  {
    if acts != [] {
      var s' := Apply(cfg, s, acts[0]);
      OutputIsFifo(cfg, s', acts[1..]);
      assert s'.collected + s'.outputQueue
          == s.collected + s.outputQueue + if acts[0].Report? then [s.workers[acts[0].w].job] else [];
    }
  }

  // In every run the main thread gets the results in the order in which the workers handed
  // them over, and those it has not got yet are queued in that order.
  lemma {:induction false} ResultsInOrder(cfg: Config, acts: seq<Action>)
    requires IsRun(cfg, Init(cfg), acts)
    ensures After(cfg, Init(cfg), acts).collected + After(cfg, Init(cfg), acts).outputQueue == HandedOver(cfg, Init(cfg), acts)
  {
    OutputIsFifo(cfg, Init(cfg), acts);
  }

  lemma {:induction false} FetchesFollowPuts(cfg: Config, s: State, acts: seq<Action>, i: nat)
    requires QueueInv(cfg, s) && IsRun(cfg, s, acts) && i < |Fetches(cfg, s, acts)|
    ensures Fetches(cfg, s, acts)[i] == Message(cfg, Taken(s) + i)
    decreases acts
  {
    var s' := Apply(cfg, s, acts[0]);
    QueueStep(cfg, s, acts[0]);
    if !acts[0].Get? {
      FetchesFollowPuts(cfg, s', acts[1..], i);
    } else if i > 0 {
      FetchesFollowPuts(cfg, s', acts[1..], i - 1);
    } else {
      assert s.inputQueue[0] == Message(cfg, Taken(s) + 0);
    }
  }

  // In every run the workers get the tests in their order, and the break jobs after them.
  lemma {:induction false} TestsInOrder(cfg: Config, acts: seq<Action>, i: nat)
    requires IsRun(cfg, Init(cfg), acts) && i < |Fetches(cfg, Init(cfg), acts)|
    ensures var job := Fetches(cfg, Init(cfg), acts)[i];
            if i < |cfg.tests| then job == Job(i, false, cfg.tests[i].isSkip, cfg.tests[i].isExample, 0) else job.isBreak
  {
    FetchesFollowPuts(cfg, Init(cfg), acts, i);
  }

  // Every job that the main thread gets describes its test: it was broken by an interrupt,
  // or skipped as the test says, or has the return code of the test's command.
  lemma {:induction false} DeliveredDescribesTest(cfg: Config, acts: seq<Action>, k: nat)
    requires IsRun(cfg, Init(cfg), acts) && k < |After(cfg, Init(cfg), acts).collected|
    ensures var s := After(cfg, Init(cfg), acts);
            var job := s.collected[k];
            && job.id < |cfg.tests|
            && job.isSkip == cfg.tests[job.id].isSkip && job.isExample == cfg.tests[job.id].isExample
            && (job.isBreak ==> s.threadExit)
            && job.returncode == if job.isBreak || job.isSkip then 0 else cfg.tests[job.id].outcome
  {
    var s := After(cfg, Init(cfg), acts);
    InitEstablishesInv(cfg);
    RunPreservesInv(cfg, Init(cfg), acts);
    assert ResultOf(cfg, s.collected[k], s.threadExit);
  }

  // What a thread waits for: the puts never block, a get waits only while its queue is empty,
  // a join only for its worker, and a worker that holds a job waits for nothing.
  lemma {:induction false} ThreadsWaitFor(cfg: Config, s: State, w: nat)
    requires w < |s.workers|
    ensures Enabled(cfg, s, Put) <==> s.puts < |cfg.tests| + cfg.processors
    ensures s.puts == |cfg.tests| + cfg.processors ==>
      && (|s.collected| < |cfg.tests| ==> (Enabled(cfg, s, Collect) <==> s.outputQueue != []))
      && (|s.collected| == |cfg.tests| && s.joined < |s.workers| ==>
            (Enabled(cfg, s, Join) <==> s.workers[s.joined].Stopped?))
    ensures s.workers[w].Idle? ==> (Enabled(cfg, s, Get(w)) <==> s.inputQueue != [])
    ensures Enabled(cfg, s, Inspect(w)) <==> s.workers[w].Fetched?
    ensures Enabled(cfg, s, Execute(w)) <==> s.workers[w].Executing?
    ensures Enabled(cfg, s, Report(w)) <==> s.workers[w].Reporting?
  {
  }

  // The main thread does its puts, gets and joins in this order.
  lemma {:induction false} MainThreadInOrder(cfg: Config, acts: seq<Action>)
    requires IsRun(cfg, Init(cfg), acts)
    ensures var s := After(cfg, Init(cfg), acts);
            && (s.collected != [] ==> s.puts == |cfg.tests| + cfg.processors)
            && (s.joined > 0 ==> s.puts == |cfg.tests| + cfg.processors && |s.collected| == |cfg.tests|)
            && s.joined <= |s.workers| && (forall w :: 0 <= w < s.joined ==> s.workers[w].Stopped?)
  {
    InitEstablishesInv(cfg);
    RunPreservesInv(cfg, Init(cfg), acts);
  }

  // ----- the number of workers is what decides -----

  lemma {:induction false} RunsCompose(cfg: Config, s: State, acts: seq<Action>, a: Action)
    requires Enabled(cfg, s, a) && IsRun(cfg, Apply(cfg, s, a), acts)
    ensures IsRun(cfg, s, [a] + acts)
    ensures After(cfg, s, [a] + acts) == After(cfg, Apply(cfg, s, a), acts)
  {
    assert ([a] + acts)[1..] == acts;
  }

  lemma {:induction false} CanFinish(cfg: Config, s: State)
    requires Inv(cfg, s) && (cfg.processors >= 1 || cfg.tests == [])
    ensures exists acts :: IsRun(cfg, s, acts) && Finished(cfg, After(cfg, s, acts))
    decreases Measure(cfg, s)
  {
    if Finished(cfg, s) {
      assert IsRun(cfg, s, []) && Finished(cfg, After(cfg, s, []));
    } else {
      NeverStuck(cfg, s);
      var a :| Enabled(cfg, s, a) && !a.Interrupt?;
      StepPreservesInv(cfg, s, a);
      StepDecreasesMeasure(cfg, s, a);
      CanFinish(cfg, Apply(cfg, s, a));
      var acts :| IsRun(cfg, Apply(cfg, s, a), acts) && Finished(cfg, After(cfg, Apply(cfg, s, a), acts));
      RunsCompose(cfg, s, acts, a);
      assert IsRun(cfg, s, [a] + acts);
    }
  }

  lemma {:induction false} WithoutWorkersNothingMoves(cfg: Config, s: State, acts: seq<Action>)
    requires IsRun(cfg, s, acts) && s.workers == [] && s.outputQueue == [] && s.collected == []
    ensures After(cfg, s, acts).collected == []
    decreases acts
  {
    if acts != [] {
      WithoutWorkersNothingMoves(cfg, Apply(cfg, s, acts[0]), acts[1..]);
    }
  }

  // How many workers are started: one for each processor found, or as many as the process
  // limit says if that is not more. No limit is given as zero.
  function Workers(processors: int, limit: int): nat {
    var n := if limit != 0 && limit <= processors then limit else processors;
    if n > 0 then n else 0
  }

  // As many workers as processors, but no more than the limit, if there is one.
  lemma {:induction false} WorkersAre(processors: int, limit: int)
    ensures limit < 0 || processors <= 0 ==> Workers(processors, limit) == 0
    ensures limit == 0 && processors >= 0 ==> Workers(processors, limit) == processors
    ensures limit > 0 && processors >= 0 ==>
      && Workers(processors, limit) <= processors && Workers(processors, limit) <= limit
      && (Workers(processors, limit) == processors || Workers(processors, limit) == limit)
  {
  }

  // A run that finishes exists if and only if there is no test, or a processor was found and
  // the process limit is not negative.
  lemma {:induction false} FinishesIffWorkers(tests: seq<Test>, processors: int, limit: int)
    ensures var cfg := Config(tests, Workers(processors, limit));
            ((exists acts :: IsRun(cfg, Init(cfg), acts) && Finished(cfg, After(cfg, Init(cfg), acts)))
             <==> tests == [] || (processors >= 1 && limit >= 0))
  {
    var cfg := Config(tests, Workers(processors, limit));
    InitEstablishesInv(cfg);
    if cfg.processors >= 1 || cfg.tests == [] {
      CanFinish(cfg, Init(cfg));
    } else {
      forall acts | IsRun(cfg, Init(cfg), acts) ensures !Finished(cfg, After(cfg, Init(cfg), acts)) {
        WithoutWorkersNothingMoves(cfg, Init(cfg), acts);
      }
    }
  }

  // ----- interrupts -----

  function ExecutingCount(ws: seq<Worker>): nat {
    if ws == [] then 0 else (if ws[0].Executing? then 1 else 0) + ExecutingCount(ws[1..])
  }

  function Executions(acts: seq<Action>): nat {
    if acts == [] then 0 else (if acts[0].Execute? then 1 else 0) + Executions(acts[1..])
  }

  lemma {:induction false} ExecutingUpdate(ws: seq<Worker>, i: nat, w: Worker)
    requires i < |ws|
    ensures ExecutingCount(ws[i := w]) + (if ws[i].Executing? then 1 else 0)
         == ExecutingCount(ws) + (if w.Executing? then 1 else 0)
  {
    if i == 0 {
      assert ws[i := w][1..] == ws[1..];
    } else {
      assert ws[i := w][1..] == ws[1..][i - 1 := w];
      ExecutingUpdate(ws[1..], i - 1, w);
    }
  }

  // Once the exit flag is up no execution starts: those that end are those in flight.
  lemma {:induction false} InterruptStartsNothing(cfg: Config, s: State, acts: seq<Action>)
    requires IsRun(cfg, s, acts) && s.threadExit
    ensures Executions(acts) + ExecutingCount(After(cfg, s, acts).workers) == ExecutingCount(s.workers)
    decreases acts
  {
    if acts != [] {
      var s' := Apply(cfg, s, acts[0]);
      if Mover(acts[0]) >= 0 {
        ExecutingUpdate(s.workers, Mover(acts[0]), s'.workers[Mover(acts[0])]);
      }
      InterruptStartsNothing(cfg, s', acts[1..]);
    }
  }

  // Wherever test `id` is after it was fetched, it is marked as broken.
  ghost predicate BrokenIfFetched(s: State, id: nat) {
    && (forall w :: 0 <= w < |s.workers| ==>
          match s.workers[w]
          case Executing(job) => job.id != id
          case Reporting(job) => job.id == id ==> job.isBreak
          case _ => true)
    && (forall k :: 0 <= k < |s.outputQueue| ==> s.outputQueue[k].id == id ==> s.outputQueue[k].isBreak)
    && (forall k :: 0 <= k < |s.collected| ==> s.collected[k].id == id ==> s.collected[k].isBreak)
  }

  lemma {:induction false} UntakenIsNowhere(s: State, id: nat)
    requires OncePlaced(s) && id >= Taken(s)
    ensures BrokenIfFetched(s, id)
  {
    assert Places(s, id) == 0;
    forall w | 0 <= w < |s.workers| && !s.workers[w].Idle? ensures s.workers[w].job.id != id {
      OccursAt(HeldIds(s.workers), w);
    }
    forall k | 0 <= k < |s.outputQueue| ensures s.outputQueue[k].id != id {
      OccursAt(JobIds(s.outputQueue), k);
    }
    forall k | 0 <= k < |s.collected| ensures s.collected[k].id != id {
      OccursAt(JobIds(s.collected), k);
    }
  }

  lemma {:induction false} StayBroken(cfg: Config, s: State, acts: seq<Action>, id: nat)
    requires IsRun(cfg, s, acts) && s.threadExit && BrokenIfFetched(s, id)
    ensures BrokenIfFetched(After(cfg, s, acts), id)
    decreases acts
  {
    if acts != [] {
      var s' := Apply(cfg, s, acts[0]);
      assert forall w :: 0 <= w < |s.workers| && w != Mover(acts[0]) ==> s'.workers[w] == s.workers[w];
      StayBroken(cfg, s', acts[1..], id);
    }
  }

  ghost predicate DeliveredBroken(cfg: Config, s: State, id: nat) {
    exists k :: 0 <= k < |s.collected| && s.collected[k] == Message(cfg, id).(isBreak := true)
  }

  // Every test that no worker had fetched when the exit flag went up is delivered as broken.
  lemma {:induction false} InterruptBreaksTheRest(cfg: Config, before: seq<Action>, after: seq<Action>, id: nat)
    requires IsRun(cfg, Init(cfg), before) && After(cfg, Init(cfg), before).threadExit
    requires Taken(After(cfg, Init(cfg), before)) <= id < |cfg.tests|
    requires IsRun(cfg, After(cfg, Init(cfg), before), after)
    requires Finished(cfg, After(cfg, After(cfg, Init(cfg), before), after))
    ensures DeliveredBroken(cfg, After(cfg, After(cfg, Init(cfg), before), after), id)
  {
    var s := After(cfg, Init(cfg), before);
    InitEstablishesInv(cfg);
    RunPreservesInv(cfg, Init(cfg), before);
    UntakenIsNowhere(s, id);
    StayBroken(cfg, s, after, id);
    RunPreservesInv(cfg, s, after);
    var end := After(cfg, s, after);
    FinishedIsDelivered(cfg, end);
    Occurs(JobIds(end.collected), id);
    var k :| 0 <= k < |end.collected| && JobIds(end.collected)[k] == id;
    assert ResultOf(cfg, end.collected[k], end.threadExit);
    assert end.collected[k].id == id && end.collected[k].isBreak;
    assert end.collected[k] == Message(cfg, id).(isBreak := true);
  }

  lemma {:induction false} NoInterruptNoExit(cfg: Config, s: State, acts: seq<Action>)
    requires IsRun(cfg, s, acts) && !s.threadExit && Interrupt !in acts
    ensures !After(cfg, s, acts).threadExit
    decreases acts
  {
    if acts != [] {
      NoInterruptNoExit(cfg, Apply(cfg, s, acts[0]), acts[1..]);
    }
  }
}
