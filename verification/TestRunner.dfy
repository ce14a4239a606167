/**
The worker protocol of `test.py`: the main thread puts the jobs and then one
break job per worker on the input queue, the workers move jobs from the input
queue to the output queue, the main thread makes exactly one blocking get per
job and then joins every worker, and an interrupt may raise the global exit
flag at any point.  Every interleaving is a sequence of atomic actions.
*/
module TestRunner {
  import opened Counting

  // The fields of a job that the protocol and the tally look at. `id` stands for
  // the identity of the Python object: its position in the order of the puts.
  datatype Job = Job(id: nat, isBreak: bool, isSkip: bool, isExample: bool, returncode: int)

  // A test to dispatch; `outcome` is the return code its command gives if it is executed.
  datatype Test = Test(isSkip: bool, isExample: bool, outcome: int)

  datatype Config = Config(tests: seq<Test>, processors: nat)

  // Where a worker stands in its loop. A stopped worker remembers the job that stopped it.
  datatype Worker =
    | Idle
    | Fetched(job: Job)
    | Executing(job: Job)
    | Reporting(job: Job)
    | Stopped(job: Job)

  datatype State = State(
    puts: nat,              // puts done by the main thread
    inputQueue: seq<Job>,
    workers: seq<Worker>,
    outputQueue: seq<Job>,
    collected: seq<Job>,    // results of the main thread's gets, in order
    joined: nat,            // workers joined by the main thread
    threadExit: bool)       // the flag the signal handler sets

  datatype Action =
    | Put
    | Get(w: nat)
    | Inspect(w: nat)
    | Execute(w: nat)
    | Report(w: nat)
    | Collect
    | Join
    | Interrupt

  // The i-th message put on the input queue: the tests in order, then the break jobs.
  function Message(cfg: Config, i: nat): Job {
    if i < |cfg.tests| then
      Job(i, false, cfg.tests[i].isSkip, cfg.tests[i].isExample, 0)
    else
      Job(i, true, false, false, 0)
  }

  function Messages(cfg: Config): nat {
    |cfg.tests| + cfg.processors
  }

  function Init(cfg: Config): State {
    State(0, [], seq(cfg.processors, _ => Idle), [], [], 0, false)
  }

  predicate Enabled(cfg: Config, s: State, a: Action) {
    match a
    case Put => s.puts < Messages(cfg)
    case Get(w) => w < |s.workers| && s.workers[w].Idle? && s.inputQueue != []
    case Inspect(w) => w < |s.workers| && s.workers[w].Fetched?
    case Execute(w) => w < |s.workers| && s.workers[w].Executing?
    case Report(w) => w < |s.workers| && s.workers[w].Reporting?
    case Collect => s.puts == Messages(cfg) && |s.collected| < |cfg.tests| && s.outputQueue != []
    case Join =>
      && s.puts == Messages(cfg) && |s.collected| == |cfg.tests|
      && s.joined < |s.workers| && s.workers[s.joined].Stopped?
    case Interrupt => !s.threadExit  // raising a raised flag changes nothing
  }

  // What a worker does with the job it fetched: stop on a break job, hand back a
  // broken job once the exit flag is up, hand back a skipped job, or execute it.
  function Inspected(job: Job, threadExit: bool): Worker {
    if job.isBreak then Stopped(job)
    else if threadExit then Reporting(job.(isBreak := true))
    else if job.isSkip then Reporting(job)
    else Executing(job)
  }

  function Apply(cfg: Config, s: State, a: Action): State
    requires Enabled(cfg, s, a)
  {
    match a
    case Put => s.(puts := s.puts + 1, inputQueue := s.inputQueue + [Message(cfg, s.puts)])
    case Get(w) => s.(inputQueue := s.inputQueue[1..], workers := s.workers[w := Fetched(s.inputQueue[0])])
    case Inspect(w) => s.(workers := s.workers[w := Inspected(s.workers[w].job, s.threadExit)])
    case Execute(w) =>
      var job := s.workers[w].job;
      var code := if job.id < |cfg.tests| then cfg.tests[job.id].outcome else 0;
      s.(workers := s.workers[w := Reporting(job.(returncode := code))])
    case Report(w) =>
      s.(workers := s.workers[w := Idle], outputQueue := s.outputQueue + [s.workers[w].job])
    case Collect => s.(outputQueue := s.outputQueue[1..], collected := s.collected + [s.outputQueue[0]])
    case Join => s.(joined := s.joined + 1)
    case Interrupt => s.(threadExit := true)
  }

  predicate IsRun(cfg: Config, s: State, acts: seq<Action>)
    decreases acts
  {
    acts == [] || (Enabled(cfg, s, acts[0]) && IsRun(cfg, Apply(cfg, s, acts[0]), acts[1..]))
  }

  function After(cfg: Config, s: State, acts: seq<Action>): State
    requires IsRun(cfg, s, acts)
    decreases acts
  {
    if acts == [] then s else After(cfg, Apply(cfg, s, acts[0]), acts[1..])
  }

  // The main thread has joined every worker and is about to compute the exit code.
  predicate Finished(cfg: Config, s: State) {
    s.puts == Messages(cfg) && |s.collected| == |cfg.tests| && s.joined == |s.workers|
  }

  // ----- where the messages are -----

  // The id of the job a worker holds.
  function HeldId(w: Worker): int {
    if w.Idle? then -1 else w.job.id
  }

  function HeldIds(ws: seq<Worker>): seq<int> {
    seq(|ws|, i requires 0 <= i < |ws| => HeldId(ws[i]))
  }

  function JobIds(jobs: seq<Job>): seq<int> {
    seq(|jobs|, i requires 0 <= i < |jobs| => jobs[i].id)
  }

  // The messages taken off the input queue so far.
  function Taken(s: State): int {
    s.puts - |s.inputQueue|
  }

  // In how many places message `id` is, once it has left the input queue.
  function Places(s: State, id: nat): nat {
    Occurrences(HeldIds(s.workers), id) + Occurrences(JobIds(s.outputQueue), id) + Occurrences(JobIds(s.collected), id)
  }

  // What a worker may hand back for test `job.id`: the job itself if it is skipped, the
  // job with its own outcome, or, only after an interrupt, the job marked as broken.
  predicate ResultOf(cfg: Config, job: Job, threadExit: bool) {
    && job.id < |cfg.tests|
    && var m := Message(cfg, job.id);
       || (threadExit && job == m.(isBreak := true))
       || (m.isSkip && job == m)
       || (!m.isSkip && job == m.(returncode := cfg.tests[job.id].outcome))
  }

  predicate WorkerOk(cfg: Config, w: Worker, threadExit: bool) {
    match w
    case Idle => true
    case Fetched(job) => job == Message(cfg, job.id)
    case Executing(job) => job.id < |cfg.tests| && job == Message(cfg, job.id) && !job.isSkip
    case Reporting(job) => ResultOf(cfg, job, threadExit)
    case Stopped(job) => job.id >= |cfg.tests|
  }

  // The input queue is a window of the message order: tests first, break jobs last, and no
  // job that an interrupt marked as broken.
  ghost predicate QueueInv(cfg: Config, s: State) {
    && |s.inputQueue| <= s.puts <= Messages(cfg)
    && forall k :: 0 <= k < |s.inputQueue| ==> s.inputQueue[k] == Message(cfg, Taken(s) + k)
  }

  // Every message taken is in exactly one place, every other one in none.
  ghost predicate OncePlaced(s: State) {
    forall id: nat :: Places(s, id) == if id < Taken(s) then 1 else 0
  }

  ghost predicate WorkersInv(cfg: Config, s: State) {
    && |s.workers| == cfg.processors
    && forall w :: 0 <= w < |s.workers| ==> WorkerOk(cfg, s.workers[w], s.threadExit)
  }

  ghost predicate ResultsInv(cfg: Config, s: State) {
    && (forall k :: 0 <= k < |s.outputQueue| ==> ResultOf(cfg, s.outputQueue[k], s.threadExit))
    && (forall k :: 0 <= k < |s.collected| ==> ResultOf(cfg, s.collected[k], s.threadExit))
  }

  ghost predicate MainInv(cfg: Config, s: State) {
    && |s.collected| <= |cfg.tests|
    && s.joined <= |s.workers|
    && (s.collected != [] ==> s.puts == Messages(cfg))
    && (s.joined > 0 ==> s.puts == Messages(cfg) && |s.collected| == |cfg.tests|)
    && (forall w :: 0 <= w < s.joined ==> s.workers[w].Stopped?)
  }

  ghost predicate Inv(cfg: Config, s: State) {
    QueueInv(cfg, s) && OncePlaced(s) && WorkersInv(cfg, s) && ResultsInv(cfg, s) && MainInv(cfg, s)
  }

  lemma {:induction false} HeldUpdate(ws: seq<Worker>, i: nat, w: Worker, id: nat)
    requires i < |ws|
    ensures Occurrences(HeldIds(ws[i := w]), id) + (if HeldId(ws[i]) == id then 1 else 0)
         == Occurrences(HeldIds(ws), id) + (if HeldId(w) == id then 1 else 0)
  {
    assert HeldIds(ws[i := w]) == HeldIds(ws)[i := HeldId(w)];
    OccurrencesUpdate(HeldIds(ws), i, HeldId(w), id);
  }

  lemma {:induction false} JobAppend(jobs: seq<Job>, job: Job, id: nat)
    ensures Occurrences(JobIds(jobs + [job]), id) == Occurrences(JobIds(jobs), id) + if job.id == id then 1 else 0
  {
    assert JobIds(jobs + [job]) == JobIds(jobs) + [job.id];
    OccurrencesAppend(JobIds(jobs), job.id, id);
  }

  lemma {:induction false} JobRemove(jobs: seq<Job>, id: nat)
    requires jobs != []
    ensures Occurrences(JobIds(jobs), id) == Occurrences(JobIds(jobs[1..]), id) + if jobs[0].id == id then 1 else 0
  {
    assert JobIds(jobs)[1..] == JobIds(jobs[1..]);
  }

  lemma {:induction false} IdleHoldNothing(ws: seq<Worker>, id: nat)
    requires forall i :: 0 <= i < |ws| ==> ws[i].Idle?
    ensures Occurrences(HeldIds(ws), id) == 0
  {
    Absent(HeldIds(ws), id);
  }

  // ----- the invariant holds in every reachable state -----

  lemma {:induction false} InitEstablishesInv(cfg: Config)
    ensures Inv(cfg, Init(cfg))
  {
    forall id: nat ensures Places(Init(cfg), id) == 0 {
      IdleHoldNothing(Init(cfg).workers, id);
    }
  }

  // Which worker an action is about, if any.
  function Mover(a: Action): int {
    match a
    case Get(w) => w
    case Inspect(w) => w
    case Execute(w) => w
    case Report(w) => w
    case _ => -1
  }

  lemma {:induction false} PlacesStep(cfg: Config, s: State, a: Action, id: nat)
    requires Inv(cfg, s) && Enabled(cfg, s, a)
    ensures Places(Apply(cfg, s, a), id) == if id < Taken(Apply(cfg, s, a)) then 1 else 0
  {
    var s' := Apply(cfg, s, a);
    assert Places(s, id) == if id < Taken(s) then 1 else 0;
    var w := Mover(a);
    if w >= 0 {
      HeldUpdate(s.workers, w, s'.workers[w], id);
    }
    if a.Get? {
      assert s.inputQueue[0] == Message(cfg, Taken(s) + 0);
    } else if a.Report? {
      JobAppend(s.outputQueue, s.workers[w].job, id);
    } else if a.Collect? {
      JobRemove(s.outputQueue, id);
      JobAppend(s.collected, s.outputQueue[0], id);
    }
  }

  lemma {:induction false} QueueStep(cfg: Config, s: State, a: Action)
    requires QueueInv(cfg, s) && Enabled(cfg, s, a)
    ensures QueueInv(cfg, Apply(cfg, s, a))
  {
    var s' := Apply(cfg, s, a);
    if a.Get? {
      assert forall k :: 0 <= k < |s'.inputQueue| ==> s'.inputQueue[k] == s.inputQueue[k + 1];
    }
  }

  lemma {:induction false} WorkersStep(cfg: Config, s: State, a: Action)
    requires QueueInv(cfg, s) && WorkersInv(cfg, s) && Enabled(cfg, s, a)
    ensures WorkersInv(cfg, Apply(cfg, s, a))
  {
    var s' := Apply(cfg, s, a);
    if a.Get? {
      assert s.inputQueue[0] == Message(cfg, Taken(s) + 0);
    }
    assert forall w :: 0 <= w < |s.workers| && w != Mover(a) ==> s'.workers[w] == s.workers[w];
  }

  lemma {:induction false} ResultsStep(cfg: Config, s: State, a: Action)
    requires WorkersInv(cfg, s) && ResultsInv(cfg, s) && Enabled(cfg, s, a)
    ensures ResultsInv(cfg, Apply(cfg, s, a))
  {
    if a.Report? {
      assert WorkerOk(cfg, s.workers[a.w], s.threadExit);
    }
  }

  lemma {:induction false} StepPreservesInv(cfg: Config, s: State, a: Action)
    requires Inv(cfg, s) && Enabled(cfg, s, a)
    ensures Inv(cfg, Apply(cfg, s, a))
  {
    forall id: nat
      ensures Places(Apply(cfg, s, a), id) == if id < Taken(Apply(cfg, s, a)) then 1 else 0
    {
      PlacesStep(cfg, s, a, id);
    }
    QueueStep(cfg, s, a);
    WorkersStep(cfg, s, a);
    ResultsStep(cfg, s, a);
    assert MainInv(cfg, Apply(cfg, s, a));
  }

  lemma {:induction false} RunPreservesInv(cfg: Config, s: State, acts: seq<Action>)
    requires Inv(cfg, s) && IsRun(cfg, s, acts)
    ensures Inv(cfg, After(cfg, s, acts))
    decreases acts
  {
    if acts != [] {
      StepPreservesInv(cfg, s, acts[0]);
      RunPreservesInv(cfg, Apply(cfg, s, acts[0]), acts[1..]);
    }
  }
}
