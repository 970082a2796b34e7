/** The worker pool of the test driver: one main thread, `processors` workers, two FIFO queues and an interrupt flag. */
module WorkerPool {
  import opened Basics

  /** A queued job; `id` is its position in the order of dispatch. The sentinels are jobs with `isBreak` set. */
  datatype Job = Job(id: nat, isBreak: bool, isSkip: bool, returncode: int)

  const SENTINEL := Job(0, true, false, 0)

  datatype Worker =
    | NotStarted
    | Waiting             // in input_queue.get()
    | Holding(job: Job)   // took a real job, has not yet looked at thread_exit
    | Running(job: Job)   // launched it
    | Stopped

  /**
   * The main thread spawns all workers, puts all jobs, puts the sentinels, collects the results and joins the workers,
   * in this order, so its position is given by how far each of the five loops has got.
   */
  datatype State = State(
    spawned: nat, dispatched: nat, sent: nat, collected: seq<Job>, joined: nat,
    inputQueue: seq<Job>, outputQueue: seq<Job>, workers: seq<Worker>, threadExit: bool)

  /** The fixed part of a run: the number of workers, and for each job to dispatch whether it is to be skipped. */
  datatype Setup = Setup(processors: nat, skips: seq<bool>)

  datatype Step =
    | Spawn
    | Dispatch
    | Sentinel
    | Collect
    | Join
    | Get(w: nat)
    | Inspect(w: nat)
    | Finish(w: nat, rc: int)
    | Interrupt

  function NewJob(c: Setup, i: nat): Job
    requires i < |c.skips|
  {
    Job(i, false, c.skips[i], 0)
  }

  predicate Enabled(c: Setup, s: State, step: Step) {
    match step
    case Spawn => s.spawned < c.processors && s.spawned < |s.workers|
    case Dispatch => s.spawned == c.processors && s.dispatched < |c.skips|
    case Sentinel => s.spawned == c.processors && s.dispatched == |c.skips| && s.sent < c.processors
    case Collect =>
      && s.spawned == c.processors && s.dispatched == |c.skips| && s.sent == c.processors
      && |s.collected| < |c.skips| && s.outputQueue != []
    case Join =>
      && s.spawned == c.processors && s.dispatched == |c.skips| && s.sent == c.processors
      && |s.collected| == |c.skips|
      && s.joined < c.processors && s.joined < |s.workers| && s.workers[s.joined].Stopped?
    case Get(w) => w < |s.workers| && s.workers[w].Waiting? && s.inputQueue != []
    case Inspect(w) => w < |s.workers| && s.workers[w].Holding?
    case Finish(w, rc) => w < |s.workers| && s.workers[w].Running?
    case Interrupt => !s.threadExit
  }

  /** The effect of one step; a second interrupt changes nothing and is not a step. */
  function Apply(c: Setup, s: State, step: Step): State
    requires Enabled(c, s, step)
  {
    match step
    case Spawn => s.(spawned := s.spawned + 1, workers := s.workers[s.spawned := Waiting])
    case Dispatch => s.(dispatched := s.dispatched + 1, inputQueue := s.inputQueue + [NewJob(c, s.dispatched)])
    case Sentinel => s.(sent := s.sent + 1, inputQueue := s.inputQueue + [SENTINEL])
    case Collect => s.(collected := s.collected + [s.outputQueue[0]], outputQueue := s.outputQueue[1..])
    case Join => s.(joined := s.joined + 1)
    case Get(w) =>
      var job := s.inputQueue[0];
      s.(inputQueue := s.inputQueue[1..], workers := s.workers[w := if job.isBreak then Stopped else Holding(job)])
    case Inspect(w) =>
      var job := s.workers[w].job;
      if s.threadExit then
        s.(outputQueue := s.outputQueue + [job.(isBreak := true)], workers := s.workers[w := Waiting])
      else if job.isSkip then
        s.(outputQueue := s.outputQueue + [job], workers := s.workers[w := Waiting])
      else
        s.(workers := s.workers[w := Running(job)])
    case Finish(w, rc) =>
      s.(outputQueue := s.outputQueue + [s.workers[w].job.(returncode := rc)], workers := s.workers[w := Waiting])
    case Interrupt => s.(threadExit := true)
  }

  function Initial(c: Setup): State {
    State(0, 0, 0, [], 0, [], [], seq(c.processors, i => NotStarted), false)
  }

  /** A run: any interleaving of enabled steps from the initial state. */
  ghost predicate IsRun(c: Setup, states: seq<State>, steps: seq<Step>) {
    && |states| == |steps| + 1
    && states[0] == Initial(c)
    && forall i :: 0 <= i < |steps| ==>
         Enabled(c, states[i], steps[i]) && states[i + 1] == Apply(c, states[i], steps[i])
  }

  ghost predicate Final(c: Setup, s: State) {
    && s.spawned == c.processors && s.dispatched == |c.skips| && s.sent == c.processors
    && |s.collected| == |c.skips| && s.joined == c.processors
  }

  // ---------- the invariant ----------

  /** How many of the jobs have this id. */
  function IdCount(jobs: seq<Job>, id: nat): nat {
    if jobs == [] then 0 else IdCount(jobs[..|jobs| - 1], id) + One(jobs[|jobs| - 1].id == id)
  }

  predicate InHand(w: Worker) {
    w.Holding? || w.Running?
  }

  /** How many workers have a job with this id in hand. */
  function HeldCount(workers: seq<Worker>, id: nat): nat {
    if workers == [] then 0 else
      var last := workers[|workers| - 1];
      HeldCount(workers[..|workers| - 1], id) + One(InHand(last) && last.job.id == id)
  }

  function HandsFull(workers: seq<Worker>): nat {
    if workers == [] then 0 else HandsFull(workers[..|workers| - 1]) + One(InHand(workers[|workers| - 1]))
  }

  function CountStopped(workers: seq<Worker>): nat {
    if workers == [] then 0 else CountStopped(workers[..|workers| - 1]) + One(workers[|workers| - 1].Stopped?)
  }

  function QueuedSentinels(s: State): int {
    s.sent - CountStopped(s.workers)
  }

  function QueuedJobs(s: State): int {
    |s.inputQueue| - QueuedSentinels(s)
  }

  /** How many real jobs have left the input queue. */
  function Taken(s: State): int {
    s.dispatched - QueuedJobs(s)
  }

  /** The main thread's five loops run one after the other. */
  ghost predicate Phases(c: Setup, s: State) {
    && |s.workers| == c.processors
    && s.spawned <= c.processors && s.dispatched <= |c.skips| && s.sent <= c.processors && s.joined <= c.processors
    && |s.collected| <= |c.skips|
    && (s.dispatched > 0 || s.sent > 0 ==> s.spawned == c.processors)
    && (s.sent > 0 ==> s.dispatched == |c.skips|)
    && (|s.collected| > 0 || s.joined > 0 ==> s.sent == c.processors && s.dispatched == |c.skips|)
    && (s.joined > 0 ==> |s.collected| == |c.skips|)
  }

  /** The queue is `jobs` real jobs, consecutive up to the last one dispatched, and then `sentinels` sentinels. */
  ghost predicate QueueShape(c: Setup, queue: seq<Job>, dispatched: nat, jobs: int, sentinels: int) {
    && 0 <= sentinels && |queue| == jobs + sentinels
    && 0 <= jobs <= dispatched <= |c.skips|
    && (forall i :: 0 <= i < jobs ==> queue[i] == NewJob(c, dispatched - jobs + i))
    && (forall i :: jobs <= i < |queue| ==> queue[i] == SENTINEL)
  }

  /** Every job taken from the queue is in exactly one place: with a worker, in the output queue, or collected. */
  ghost predicate Conserved(workers: seq<Worker>, output: seq<Job>, collected: seq<Job>, taken: int) {
    && HandsFull(workers) + |output| + |collected| == taken
    && forall id: nat :: HeldCount(workers, id) + IdCount(output, id) + IdCount(collected, id) == One(id < taken)
  }

  ghost predicate FromDispatch(c: Setup, job: Job) {
    job.id < |c.skips| && job == NewJob(c, job.id)
  }

  ghost predicate WorkerOk(c: Setup, x: Worker, w: nat, spawned: nat, joined: nat) {
    && (x.NotStarted? <==> spawned <= w)
    && (InHand(x) ==> FromDispatch(c, x.job))
    && (x.Running? ==> !x.job.isSkip)
    && (w < joined ==> x.Stopped?)
  }

  ghost predicate WorkersOk(c: Setup, workers: seq<Worker>, spawned: nat, joined: nat) {
    forall w: nat :: w < |workers| ==> WorkerOk(c, workers[w], w, spawned, joined)
  }

  /** A result keeps the skip flag of its job, is a break only after an interrupt, and has a return code of its own
      only if the job was launched. */
  ghost predicate Genuine(c: Setup, threadExit: bool, job: Job) {
    && job.id < |c.skips| && job.isSkip == c.skips[job.id]
    && (job.isBreak ==> threadExit)
    && (job.isSkip || job.isBreak ==> job.returncode == 0)
  }

  ghost predicate ResultsOk(c: Setup, results: seq<Job>, threadExit: bool) {
    forall j :: j in results ==> Genuine(c, threadExit, j)
  }

  ghost predicate Inv(c: Setup, s: State) {
    && Phases(c, s)
    && QueueShape(c, s.inputQueue, s.dispatched, QueuedJobs(s), QueuedSentinels(s))
    && (CountStopped(s.workers) > 0 ==> QueuedJobs(s) == 0)
    && (c.processors == 0 ==> Taken(s) == 0)
    && Conserved(s.workers, s.outputQueue, s.collected, Taken(s))
    && WorkersOk(c, s.workers, s.spawned, s.joined)
    && ResultsOk(c, s.outputQueue, s.threadExit) && ResultsOk(c, s.collected, s.threadExit)
  }

  // ---------- updating one worker, moving one job ----------

  function HandsId(x: Worker, id: nat): nat {
    One(InHand(x) && x.job.id == id)
  }

  lemma {:induction false} WorkerUpdate(workers: seq<Worker>, w: nat, x: Worker)
    requires w < |workers|
    ensures CountStopped(workers[w := x]) == CountStopped(workers) - One(workers[w].Stopped?) + One(x.Stopped?)
    ensures HandsFull(workers[w := x]) == HandsFull(workers) - One(InHand(workers[w])) + One(InHand(x))
  {
    var n := |workers| - 1;
    if w < n {
      WorkerUpdate(workers[..n], w, x);
      assert workers[w := x][..n] == workers[..n][w := x];
    } else {
      assert workers[w := x][..n] == workers[..n];
    }
  }

  lemma {:induction false} HeldUpdate(workers: seq<Worker>, w: nat, x: Worker, id: nat)
    requires w < |workers|
    ensures HeldCount(workers[w := x], id) == HeldCount(workers, id) - HandsId(workers[w], id) + HandsId(x, id)
  {
    var n := |workers| - 1;
    if w < n {
      HeldUpdate(workers[..n], w, x, id);
      assert workers[w := x][..n] == workers[..n][w := x];
    } else {
      assert workers[w := x][..n] == workers[..n];
    }
  }

  lemma WorkersUpdate(c: Setup, workers: seq<Worker>, w: nat, x: Worker, spawned: nat, joined: nat)
    requires w < |workers| && WorkersOk(c, workers, spawned, joined) && WorkerOk(c, x, w, spawned, joined)
    ensures WorkersOk(c, workers[w := x], spawned, joined)
  {
  }

  lemma {:induction false} StoppedBound(workers: seq<Worker>)
    ensures CountStopped(workers) <= |workers|
    ensures CountStopped(workers) == |workers| <==> forall w :: 0 <= w < |workers| ==> workers[w].Stopped?
  {
    if workers != [] {
      var n := |workers| - 1;
      StoppedBound(workers[..n]);
      assert workers == workers[..n] + [workers[n]];
    }
  }

  lemma {:induction false} NobodyAtWork(workers: seq<Worker>)
    requires forall i :: 0 <= i < |workers| ==> !InHand(workers[i])
    ensures HandsFull(workers) == 0
    ensures forall id: nat :: HeldCount(workers, id) == 0
  {
    if workers != [] {
      NobodyAtWork(workers[..|workers| - 1]);
    }
  }

  lemma {:induction false} IdPop(jobs: seq<Job>, id: nat)
    requires jobs != []
    ensures IdCount(jobs, id) == One(jobs[0].id == id) + IdCount(jobs[1..], id)
  {
    var n := |jobs| - 1;
    if n > 0 {
      IdPop(jobs[..n], id);
      assert jobs[..n][1..] == jobs[1..][..n - 1];
    }
  }

  /** A worker passes its job on to the output queue. */
  lemma HandOver(workers: seq<Worker>, w: nat, x: Worker, output: seq<Job>, job: Job, collected: seq<Job>, taken: int)
    requires Conserved(workers, output, collected, taken)
    requires w < |workers| && InHand(workers[w]) && workers[w].job.id == job.id && !InHand(x)
    ensures Conserved(workers[w := x], output + [job], collected, taken)
  {
    WorkerUpdate(workers, w, x);
    forall id: nat
      ensures HeldCount(workers[w := x], id) + IdCount(output + [job], id)
              == HeldCount(workers, id) + IdCount(output, id)
    {
      HeldUpdate(workers, w, x, id);
    }
  }

  /** A worker's hands stay as they are. */
  lemma HandsKept(workers: seq<Worker>, w: nat, x: Worker, output: seq<Job>, collected: seq<Job>, taken: int)
    requires Conserved(workers, output, collected, taken)
    requires w < |workers| && InHand(workers[w]) == InHand(x)
    requires InHand(x) ==> workers[w].job.id == x.job.id
    ensures Conserved(workers[w := x], output, collected, taken)
  {
    WorkerUpdate(workers, w, x);
    forall id: nat
      ensures HeldCount(workers[w := x], id) == HeldCount(workers, id)
    {
      HeldUpdate(workers, w, x, id);
    }
  }

  /** An idle worker takes the next job. */
  lemma TakeUp(workers: seq<Worker>, w: nat, job: Job, output: seq<Job>, collected: seq<Job>, taken: nat)
    requires Conserved(workers, output, collected, taken)
    requires w < |workers| && !InHand(workers[w]) && job.id == taken
    ensures Conserved(workers[w := Holding(job)], output, collected, taken + 1)
  {
    WorkerUpdate(workers, w, Holding(job));
    forall id: nat
      ensures HeldCount(workers[w := Holding(job)], id) == HeldCount(workers, id) + One(id == taken)
    {
      HeldUpdate(workers, w, Holding(job), id);
    }
  }

  lemma CollectOne(workers: seq<Worker>, output: seq<Job>, collected: seq<Job>, taken: int)
    requires Conserved(workers, output, collected, taken) && output != []
    ensures Conserved(workers, output[1..], collected + [output[0]], taken)
  {
    forall id: nat
      ensures IdCount(output[1..], id) + IdCount(collected + [output[0]], id)
              == IdCount(output, id) + IdCount(collected, id)
    {
      IdPop(output, id);
    }
  }

  lemma ResultsPush(c: Setup, results: seq<Job>, threadExit: bool, job: Job)
    requires ResultsOk(c, results, threadExit) && Genuine(c, threadExit, job)
    ensures ResultsOk(c, results + [job], threadExit)
  {
  }

  lemma PopJob(c: Setup, queue: seq<Job>, dispatched: nat, jobs: int, sentinels: int)
    requires QueueShape(c, queue, dispatched, jobs, sentinels) && jobs > 0
    ensures queue[0] == NewJob(c, dispatched - jobs)
    ensures QueueShape(c, queue[1..], dispatched, jobs - 1, sentinels)
  {
  }

  // ---------- the invariant holds in every run ----------

  lemma {:induction false} NoneStopped(workers: seq<Worker>)
    requires forall i :: 0 <= i < |workers| ==> !workers[i].Stopped?
    ensures CountStopped(workers) == 0
  {
    if workers != [] {
      NoneStopped(workers[..|workers| - 1]);
    }
  }

  lemma NothingTaken(workers: seq<Worker>)
    requires forall i :: 0 <= i < |workers| ==> !InHand(workers[i])
    ensures Conserved(workers, [], [], 0)
  {
    NobodyAtWork(workers);
    hide HandsFull, HeldCount;
  }

  lemma InitialInv(c: Setup)
    ensures Inv(c, Initial(c))
  {
    var s := Initial(c);
    NoneStopped(s.workers);
    NothingTaken(s.workers);
    hide CountStopped, Conserved;
    assert Phases(c, s);
    assert WorkersOk(c, s.workers, s.spawned, s.joined);
    assert ResultsOk(c, s.collected, s.threadExit) && ResultsOk(c, s.outputQueue, s.threadExit);
    assert QueueShape(c, s.inputQueue, s.dispatched, 0, 0);
    assert QueuedSentinels(s) == QueuedJobs(s) == Taken(s) == 0;
    assert Conserved(s.workers, s.outputQueue, s.collected, 0);
    hide Phases, WorkersOk, ResultsOk, QueueShape, Initial, QueuedSentinels, QueuedJobs, Taken;
  }

  lemma JoinInv(c: Setup, s: State)
    requires Inv(c, s) && Enabled(c, s, Join)
    ensures Inv(c, Apply(c, s, Join))
  {
    forall w: nat | w < |s.workers|
      ensures WorkerOk(c, s.workers[w], w, s.spawned, s.joined + 1)
    {
      assert WorkerOk(c, s.workers[w], w, s.spawned, s.joined);
    }
  }

  lemma InterruptInv(c: Setup, s: State)
    requires Inv(c, s) && Enabled(c, s, Interrupt)
    ensures Inv(c, Apply(c, s, Interrupt))
  {
    hide CountStopped, Conserved, QueueShape, WorkersOk;
  }

  lemma PutInv(c: Setup, s: State, step: Step)
    requires Inv(c, s) && Enabled(c, s, step) && (step.Dispatch? || step.Sentinel?)
    ensures Inv(c, Apply(c, s, step))
  {
    hide Conserved, ResultsOk, WorkersOk, CountStopped;
    assert step.Dispatch? ==> QueuedSentinels(s) == 0;
  }

  lemma SpawnInv(c: Setup, s: State)
    requires Inv(c, s) && Enabled(c, s, Spawn)
    ensures Inv(c, Apply(c, s, Spawn))
  {
    assert WorkerOk(c, s.workers[s.spawned], s.spawned, s.spawned, s.joined);
    WorkerUpdate(s.workers, s.spawned, Waiting);
    HandsKept(s.workers, s.spawned, Waiting, s.outputQueue, s.collected, Taken(s));
  }

  lemma CollectInv(c: Setup, s: State)
    requires Inv(c, s) && Enabled(c, s, Collect)
    ensures Inv(c, Apply(c, s, Collect))
  {
    hide CountStopped, Conserved, QueueShape, WorkersOk;
    ResultsPop(c, s.outputQueue, s.threadExit);
    ResultsPush(c, s.collected, s.threadExit, s.outputQueue[0]);
    hide ResultsOk;
    CollectOne(s.workers, s.outputQueue, s.collected, Taken(s));
  }

  lemma ResultsPop(c: Setup, results: seq<Job>, threadExit: bool)
    requires ResultsOk(c, results, threadExit) && results != []
    ensures ResultsOk(c, results[1..], threadExit) && Genuine(c, threadExit, results[0])
  {
  }

  lemma GetJobInv(c: Setup, s: State, w: nat)
    requires Inv(c, s) && Enabled(c, s, Get(w)) && QueuedJobs(s) > 0
    ensures Inv(c, Apply(c, s, Get(w)))
  {
    hide CountStopped, HandsFull, HeldCount;
    var job, t := s.inputQueue[0], Apply(c, s, Get(w));
    PopJob(c, s.inputQueue, s.dispatched, QueuedJobs(s), QueuedSentinels(s));
    assert t.inputQueue == s.inputQueue[1..] && t.workers == s.workers[w := Holding(job)];
    assert QueuedSentinels(t) == QueuedSentinels(s) && QueuedJobs(t) == QueuedJobs(s) - 1 by {
      WorkerUpdate(s.workers, w, Holding(job));
    }
    assert WorkersOk(c, t.workers, t.spawned, t.joined) by {
      assert WorkerOk(c, s.workers[w], w, s.spawned, s.joined);
      WorkersUpdate(c, s.workers, w, Holding(job), s.spawned, s.joined);
    }
    assert Conserved(t.workers, t.outputQueue, t.collected, Taken(t)) by {
      TakeUp(s.workers, w, job, s.outputQueue, s.collected, Taken(s));
    }
  }

  lemma GetSentinelInv(c: Setup, s: State, w: nat)
    requires Inv(c, s) && Enabled(c, s, Get(w)) && QueuedJobs(s) == 0
    ensures Inv(c, Apply(c, s, Get(w)))
  {
    assert s.inputQueue[0] == SENTINEL;
    WorkerUpdate(s.workers, w, Stopped);
    HandsKept(s.workers, w, Stopped, s.outputQueue, s.collected, Taken(s));
    assert WorkerOk(c, s.workers[w], w, s.spawned, s.joined);
    WorkersUpdate(c, s.workers, w, Stopped, s.spawned, s.joined);
  }

  /** A worker puts its job, as a result, and goes back to waiting. */
  lemma ReturnInv(c: Setup, s: State, w: nat, job: Job, t: State)
    requires Inv(c, s) && w < |s.workers| && InHand(s.workers[w]) && s.workers[w].job.id == job.id
    requires Genuine(c, s.threadExit, job)
    requires t == s.(outputQueue := s.outputQueue + [job], workers := s.workers[w := Waiting])
    ensures Inv(c, t)
  {
    hide CountStopped, HandsFull, HeldCount;
    WorkerUpdate(s.workers, w, Waiting);
    assert CountStopped(t.workers) == CountStopped(s.workers);
    assert WorkersOk(c, t.workers, t.spawned, t.joined) by {
      assert WorkerOk(c, s.workers[w], w, s.spawned, s.joined);
      WorkersUpdate(c, s.workers, w, Waiting, s.spawned, s.joined);
    }
    assert ResultsOk(c, t.outputQueue, t.threadExit) by {
      ResultsPush(c, s.outputQueue, s.threadExit, job);
    }
    HandOver(s.workers, w, Waiting, s.outputQueue, job, s.collected, Taken(s));
  }

  lemma InspectInv(c: Setup, s: State, w: nat)
    requires Inv(c, s) && Enabled(c, s, Inspect(w))
    ensures Inv(c, Apply(c, s, Inspect(w)))
  {
    var job, t := s.workers[w].job, Apply(c, s, Inspect(w));
    assert WorkerOk(c, s.workers[w], w, s.spawned, s.joined);
    if s.threadExit {
      ReturnInv(c, s, w, job.(isBreak := true), t);
    } else if job.isSkip {
      ReturnInv(c, s, w, job, t);
    } else {
      LaunchInv(c, s, w);
    }
  }

  /** A worker goes on from holding a job to running it. */
  lemma StartInv(c: Setup, s: State, w: nat, job: Job, t: State)
    requires Inv(c, s) && w < |s.workers| && s.workers[w] == Holding(job)
    requires WorkerOk(c, Running(job), w, s.spawned, s.joined)
    requires t == s.(workers := s.workers[w := Running(job)])
    ensures Inv(c, t)
  {
    hide CountStopped, HandsFull, HeldCount, IdCount, Conserved, QueueShape, ResultsOk, WorkersOk;
    WorkerUpdate(s.workers, w, Running(job));
    WorkersUpdate(c, s.workers, w, Running(job), s.spawned, s.joined);
    HandsKept(s.workers, w, Running(job), s.outputQueue, s.collected, Taken(s));
  }

  lemma LaunchInv(c: Setup, s: State, w: nat)
    requires Inv(c, s) && Enabled(c, s, Inspect(w)) && !s.threadExit && !s.workers[w].job.isSkip
    ensures Inv(c, Apply(c, s, Inspect(w)))
  {
    assert WorkerOk(c, s.workers[w], w, s.spawned, s.joined);
    StartInv(c, s, w, s.workers[w].job, Apply(c, s, Inspect(w)));
  }

  lemma FinishInv(c: Setup, s: State, w: nat, rc: int)
    requires Inv(c, s) && Enabled(c, s, Finish(w, rc))
    ensures Inv(c, Apply(c, s, Finish(w, rc)))
  {
    assert WorkerOk(c, s.workers[w], w, s.spawned, s.joined);
    ReturnInv(c, s, w, s.workers[w].job.(returncode := rc), Apply(c, s, Finish(w, rc)));
  }

  lemma StepInv(c: Setup, s: State, step: Step)
    requires Inv(c, s) && Enabled(c, s, step)
    ensures Inv(c, Apply(c, s, step))
  {
    match step
    case Spawn => SpawnInv(c, s);
    case Collect => CollectInv(c, s);
    case Get(w) => if QueuedJobs(s) > 0 { GetJobInv(c, s, w); } else { GetSentinelInv(c, s, w); }
    case Inspect(w) => InspectInv(c, s, w);
    case Finish(w, rc) => FinishInv(c, s, w, rc);
    case Dispatch => PutInv(c, s, step);
    case Sentinel => PutInv(c, s, step);
    case Join => JoinInv(c, s);
    case Interrupt => InterruptInv(c, s);
  }

  lemma {:induction false} RunInv(c: Setup, states: seq<State>, steps: seq<Step>, k: nat)
    requires IsRun(c, states, steps) && k < |states|
    ensures Inv(c, states[k])
  {
    if k == 0 {
      InitialInv(c);
    } else {
      RunInv(c, states, steps, k - 1);
      StepInv(c, states[k - 1], steps[k - 1]);
    }
  }

  // ---------- no deadlock ----------

  /** While a real job is queued, no worker has been stopped, and the next one to ask gets a job. */
  lemma SentinelsComeLast(c: Setup, s: State, w: nat)
    requires Inv(c, s) && Enabled(c, s, Get(w))
    ensures s.inputQueue[0].isBreak ==>
              && s.dispatched == |c.skips| && Taken(s) == |c.skips|
              && (forall j :: j in s.inputQueue ==> j == SENTINEL)
  {
    assert s.inputQueue[0] == if QueuedJobs(s) > 0 then NewJob(c, Taken(s)) else SENTINEL;
  }

  /** A step of a worker that is possible now, if any worker is not blocked. */
  lemma WorkerMoves(c: Setup, s: State, w: nat) returns (step: Step)
    requires w < |s.workers| && (InHand(s.workers[w]) || (s.workers[w].Waiting? && s.inputQueue != []))
    ensures Enabled(c, s, step) && !step.Interrupt?
  {
    step := if s.workers[w].Holding? then Inspect(w) else if s.workers[w].Running? then Finish(w, 0) else Get(w);
  }

  /** All is dispatched and every worker is blocked or stopped: then the queues have been emptied. */
  lemma AllBlocked(c: Setup, s: State)
    requires Inv(c, s) && s.sent == c.processors && s.dispatched == |c.skips| && s.spawned == c.processors
    requires c.processors >= 1 || c.skips == []
    requires forall w :: 0 <= w < |s.workers| ==>
               s.workers[w].NotStarted? || s.workers[w].Stopped? || (s.workers[w].Waiting? && s.inputQueue == [])
    ensures forall w :: 0 <= w < |s.workers| ==> s.workers[w].Stopped?
    ensures s.inputQueue == [] && |s.outputQueue| + |s.collected| == |c.skips|
  {
    assert forall w: nat :: w < |s.workers| ==> WorkerOk(c, s.workers[w], w, s.spawned, s.joined);
    NobodyAtWork(s.workers);
    StoppedBound(s.workers);
    assert s.inputQueue == [] ==> QueuedSentinels(s) == 0;
  }

  /** In every reachable state that is not final, some step other than an interrupt is possible. */
  lemma Progress(c: Setup, s: State) returns (step: Step)
    requires Inv(c, s) && !Final(c, s)
    requires c.processors >= 1 || c.skips == []
    ensures Enabled(c, s, step) && !step.Interrupt?
  {
    if s.spawned < c.processors {
      step := Spawn;
    } else if s.dispatched < |c.skips| {
      step := Dispatch;
    } else if s.sent < c.processors {
      step := Sentinel;
    } else if w: nat :| w < |s.workers| && (InHand(s.workers[w]) || (s.workers[w].Waiting? && s.inputQueue != [])) {
      step := WorkerMoves(c, s, w);
    } else {
      AllBlocked(c, s);
      step := if |s.collected| < |c.skips| then Collect else Join;
    }
  }

  // ---------- termination ----------

  function WorkerWeight(x: Worker): nat {
    match x
    case Holding(_) => 3
    case Running(_) => 2
    case _ => 0
  }

  function WorkersWeight(workers: seq<Worker>): nat {
    if workers == [] then 0 else WorkersWeight(workers[..|workers| - 1]) + WorkerWeight(workers[|workers| - 1])
  }

  /** A bound on the number of steps still to come. */
  function Measure(c: Setup, s: State): int {
    (c.processors - s.spawned) + 5 * (|c.skips| - s.dispatched) + 2 * (c.processors - s.sent)
    + 4 * QueuedJobs(s) + QueuedSentinels(s) + WorkersWeight(s.workers) + |s.outputQueue|
    + (c.processors - s.joined) + One(!s.threadExit)
  }

  lemma {:induction false} WeightUpdate(workers: seq<Worker>, w: nat, x: Worker)
    requires w < |workers|
    ensures WorkersWeight(workers[w := x]) == WorkersWeight(workers) - WorkerWeight(workers[w]) + WorkerWeight(x)
  {
    var n := |workers| - 1;
    if w < n {
      WeightUpdate(workers[..n], w, x);
      assert workers[w := x][..n] == workers[..n][w := x];
    } else {
      assert workers[w := x][..n] == workers[..n];
    }
  }

  lemma GetDecreases(c: Setup, s: State, w: nat)
    requires Inv(c, s) && Enabled(c, s, Get(w))
    ensures Measure(c, Apply(c, s, Get(w))) < Measure(c, s)
  {
    var x := Apply(c, s, Get(w)).workers[w];
    assert s.inputQueue[0].isBreak <==> QueuedJobs(s) == 0;
    WorkerUpdate(s.workers, w, x);
    WeightUpdate(s.workers, w, x);
  }

  lemma WorkerStepDecreases(c: Setup, s: State, step: Step)
    requires Inv(c, s) && Enabled(c, s, step) && (step.Inspect? || step.Finish?)
    ensures Measure(c, Apply(c, s, step)) < Measure(c, s)
  {
    var x := Apply(c, s, step).workers[step.w];
    hide Inv, CountStopped, WorkersWeight;
    WorkerUpdate(s.workers, step.w, x);
    WeightUpdate(s.workers, step.w, x);
  }

  lemma MainStepDecreases(c: Setup, s: State, step: Step)
    requires Inv(c, s) && Enabled(c, s, step) && !(step.Get? || step.Inspect? || step.Finish?)
    ensures Measure(c, Apply(c, s, step)) < Measure(c, s)
  {
    if step.Spawn? {
      assert WorkerOk(c, s.workers[s.spawned], s.spawned, s.spawned, s.joined);
      WorkerUpdate(s.workers, s.spawned, Waiting);
      WeightUpdate(s.workers, s.spawned, Waiting);
    }
  }

  lemma StepDecreases(c: Setup, s: State, step: Step)
    requires Inv(c, s) && Enabled(c, s, step)
    ensures 0 <= Measure(c, Apply(c, s, step)) < Measure(c, s)
  {
    StepInv(c, s, step);
    hide CountStopped, WorkersWeight, WorkersOk, Conserved, ResultsOk, Apply;
    if step.Get? {
      GetDecreases(c, s, step.w);
    } else if step.Inspect? || step.Finish? {
      WorkerStepDecreases(c, s, step);
    } else {
      MainStepDecreases(c, s, step);
    }
  }

  lemma {:induction false} IdleWeight(workers: seq<Worker>)
    requires forall i :: 0 <= i < |workers| ==> !InHand(workers[i])
    ensures WorkersWeight(workers) == 0
  {
    if workers != [] {
      IdleWeight(workers[..|workers| - 1]);
    }
  }

  lemma {:induction false} RunMeasure(c: Setup, states: seq<State>, steps: seq<Step>, k: nat)
    requires IsRun(c, states, steps) && k < |states|
    ensures 0 <= Measure(c, states[k]) <= 4 * c.processors + 5 * |c.skips| + 1 - k
  {
    if k == 0 {
      NoneStopped(states[0].workers);
      IdleWeight(states[0].workers);
    } else {
      RunMeasure(c, states, steps, k - 1);
      RunInv(c, states, steps, k - 1);
      StepDecreases(c, states[k - 1], steps[k - 1]);
    }
  }

  /** No run is longer than four steps a worker, five a job, and one interrupt. */
  lemma RunsAreBounded(c: Setup, states: seq<State>, steps: seq<Step>)
    requires IsRun(c, states, steps)
    ensures |steps| <= 4 * c.processors + 5 * |c.skips| + 1
  {
    RunMeasure(c, states, steps, |steps|);
  }

  // ---------- the end of a run ----------

  /** What a completed run leaves behind: stopped workers, empty queues, and every dispatched job exactly once. */
  ghost predicate CleanEnd(c: Setup, s: State) {
    && (forall w :: 0 <= w < |s.workers| ==> s.workers[w].Stopped?)
    && s.inputQueue == [] && s.outputQueue == []
    && |s.collected| == |c.skips|
    && (forall id: nat :: IdCount(s.collected, id) == One(id < |c.skips|))
    && ResultsOk(c, s.collected, s.threadExit)
  }

  lemma FinalIsClean(c: Setup, s: State)
    requires Inv(c, s) && Final(c, s)
    ensures CleanEnd(c, s)
  {
    forall w: nat | w < |s.workers|
      ensures s.workers[w].Stopped?
    {
      assert WorkerOk(c, s.workers[w], w, s.spawned, s.joined);
    }
    StoppedBound(s.workers);
    NobodyAtWork(s.workers);
    if c.processors == 0 {
      assert QueuedJobs(s) >= 0;
    }
  }

  ghost predicate OnlyInterrupts(c: Setup, s: State) {
    forall step :: Enabled(c, s, step) ==> step.Interrupt?
  }

  lemma NobodyCollects(c: Setup, s: State)
    requires Inv(c, s) && c.processors == 0
    ensures s.collected == []
  {
    NobodyAtWork(s.workers);
  }

  /** A state in which nothing is left to do, reached by any run. */
  lemma StoppedCleanly(c: Setup, s: State)
    requires Inv(c, s) && OnlyInterrupts(c, s)
    ensures CleanEnd(c, s) <==> c.processors >= 1 || c.skips == []
  {
    if c.processors >= 1 || c.skips == [] {
      hide Inv, Enabled, CleanEnd;
      if !Final(c, s) {
        var step := Progress(c, s);
        assert false;
      }
      FinalIsClean(c, s);
    } else {
      hide Inv, Enabled, OnlyInterrupts;
      NobodyCollects(c, s);
    }
  }

  /** A run that can only be interrupted any more has ended cleanly, unless there never was a worker for the jobs. */
  lemma MaximalRunsEndCleanly(c: Setup, states: seq<State>, steps: seq<Step>)
    requires IsRun(c, states, steps) && OnlyInterrupts(c, states[|steps|])
    ensures CleanEnd(c, states[|steps|]) <==> c.processors >= 1 || c.skips == []
  {
    hide Inv, CleanEnd, OnlyInterrupts, Enabled, Apply;
    RunInv(c, states, steps, |steps|);
    StoppedCleanly(c, states[|steps|]);
  }

  // ---------- the summary ----------

  datatype Verdict = INTERRUPTED | SKIP | PASS | FAIL | VALGR | CRASH

  function VerdictOf(job: Job): Verdict {
    if job.isBreak then INTERRUPTED
    else if job.isSkip then SKIP
    else if job.returncode == 0 then PASS
    else if job.returncode == 1 then FAIL
    else if job.returncode == 2 then VALGR
    else CRASH
  }

  function VerdictCount(jobs: seq<Job>, v: Verdict): nat {
    if jobs == [] then 0 else VerdictCount(jobs[..|jobs| - 1], v) + One(VerdictOf(jobs[|jobs| - 1]) == v)
  }

  lemma {:induction false} VerdictsAddUp(jobs: seq<Job>)
    ensures VerdictCount(jobs, PASS) + VerdictCount(jobs, FAIL) + VerdictCount(jobs, VALGR) + VerdictCount(jobs, CRASH)
            + VerdictCount(jobs, SKIP) + VerdictCount(jobs, INTERRUPTED) == |jobs|
    ensures VerdictCount(jobs, PASS) + VerdictCount(jobs, SKIP) == |jobs| <==>
            forall j :: j in jobs ==> VerdictOf(j).PASS? || VerdictOf(j).SKIP?
  {
    if jobs != [] {
      VerdictsAddUp(jobs[..|jobs| - 1]);
      assert jobs == jobs[..|jobs| - 1] + [jobs[|jobs| - 1]];
    }
  }

  datatype Counters = Counters(passed: nat, failed: nat, valgrind: nat, crashed: nat, skipped: nat)

  function CountersOf(results: seq<Job>): Counters {
    Counters(VerdictCount(results, PASS), VerdictCount(results, FAIL), VerdictCount(results, VALGR),
             VerdictCount(results, CRASH), VerdictCount(results, SKIP))
  }

  /** What the driver returns: 0 for success. */
  function StatusOf(n: Counters, totalTests: nat): int {
    if n.passed + n.skipped == totalTests then 0 else 1
  }

  /** The collecting loop over the results in the order they arrive, and the value the driver returns. */
  method Summarize(results: seq<Job>, totalTests: nat) returns (n: Counters, status: int)
    ensures n == CountersOf(results) && status == StatusOf(n, totalTests)
    ensures n.passed + n.failed + n.valgrind + n.crashed + n.skipped + VerdictCount(results, INTERRUPTED) == |results|
    ensures totalTests == |results| ==>
              (status == 0 <==> forall j :: j in results ==> VerdictOf(j).PASS? || VerdictOf(j).SKIP?)
  {
    var passed, failed, valgrind, crashed, skipped := 0, 0, 0, 0, 0;
    for i := 0 to |results|
      invariant passed == VerdictCount(results[..i], PASS) && failed == VerdictCount(results[..i], FAIL)
      invariant valgrind == VerdictCount(results[..i], VALGR) && crashed == VerdictCount(results[..i], CRASH)
      invariant skipped == VerdictCount(results[..i], SKIP)
    {
      var job := results[i];
      assert results[..i + 1][..i] == results[..i];
      if job.isBreak {
        continue;
      }
      if job.isSkip {
        skipped := skipped + 1;
      } else if job.returncode == 0 {
        passed := passed + 1;
      } else if job.returncode == 1 {
        failed := failed + 1;
      } else if job.returncode == 2 {
        valgrind := valgrind + 1;
      } else {
        crashed := crashed + 1;
      }
    }
    assert results[..|results|] == results;
    VerdictsAddUp(results);
    n := Counters(passed, failed, valgrind, crashed, skipped);
    status := if passed + skipped == totalTests then 0 else 1;
  }

  lemma {:induction false} IdCountMember(jobs: seq<Job>, id: nat)
    ensures IdCount(jobs, id) > 0 <==> exists j :: j in jobs && j.id == id
  {
    if jobs != [] {
      IdCountMember(jobs[..|jobs| - 1], id);
      assert jobs == jobs[..|jobs| - 1] + [jobs[|jobs| - 1]];
    }
  }

  /** The dispatched job came back as what it should: SKIP if it was to be skipped, else PASS. */
  ghost predicate Succeeded(c: Setup, results: seq<Job>, id: nat)
    requires id < |c.skips|
  {
    exists j :: j in results && j.id == id && VerdictOf(j) == if c.skips[id] then SKIP else PASS
  }

  /** Success means success of every dispatched job, whatever the interleaving. */
  lemma SuccessCoversEveryJob(c: Setup, s: State)
    requires CleanEnd(c, s)
    ensures (forall j :: j in s.collected ==> VerdictOf(j).PASS? || VerdictOf(j).SKIP?) <==>
            (forall id: nat :: id < |c.skips| ==> Succeeded(c, s.collected, id))
  {
    if forall j :: j in s.collected ==> VerdictOf(j).PASS? || VerdictOf(j).SKIP? {
      forall id: nat | id < |c.skips|
        ensures Succeeded(c, s.collected, id)
      {
        IdCountMember(s.collected, id);
        var j :| j in s.collected && j.id == id;
      }
    }
    if forall id: nat :: id < |c.skips| ==> Succeeded(c, s.collected, id) {
      forall a: nat | a < |s.collected|
        ensures VerdictOf(s.collected[a]).PASS? || VerdictOf(s.collected[a]).SKIP?
      {
        var id := s.collected[a].id;
        assert Genuine(c, s.threadExit, s.collected[a]);
        assert Succeeded(c, s.collected, id);
        var j :| j in s.collected && j.id == id && VerdictOf(j) == if c.skips[id] then SKIP else PASS;
        var b: nat :| b < |s.collected| && s.collected[b] == j;
        SameIdSamePlace(s.collected, a, b);
      }
    }
  }

  /**
   * The outcome of the driver over every run that has gone as far as it can: the counters and the interrupted jobs sum
   * to the number of dispatched jobs, and the value returned is 0 exactly if every one of them succeeded.
   */
  lemma EveryRunIsJudged(c: Setup, states: seq<State>, steps: seq<Step>)
    requires IsRun(c, states, steps) && OnlyInterrupts(c, states[|steps|])
    requires c.processors >= 1 || c.skips == []
    ensures var results := states[|steps|].collected;
            var n := CountersOf(results);
            && n.passed + n.failed + n.valgrind + n.crashed + n.skipped + VerdictCount(results, INTERRUPTED)
               == |c.skips|
            && (StatusOf(n, |c.skips|) == 0 <==> forall id: nat :: id < |c.skips| ==> Succeeded(c, results, id))
  {
    var s := states[|steps|];
    MaximalRunsEndCleanly(c, states, steps);
    assert |s.collected| == |c.skips|;
    hide CleanEnd, IsRun, OnlyInterrupts, VerdictCount, VerdictOf, Succeeded;
    VerdictsAddUp(s.collected);
    SuccessCoversEveryJob(c, s);
  }

  lemma {:induction false} SameIdSamePlace(jobs: seq<Job>, a: nat, b: nat)
    requires a < |jobs| && b < |jobs| && jobs[a].id == jobs[b].id && IdCount(jobs, jobs[a].id) == 1
    ensures a == b
  {
    var n := |jobs| - 1;
    if a < n && b < n {
      assert jobs[..n][a] in jobs[..n];
      IdCountMember(jobs[..n], jobs[a].id);
      SameIdSamePlace(jobs[..n], a, b);
    } else if a != b {
      var low := if a < n then a else b;
      assert jobs[..n][low] in jobs[..n];
      IdCountMember(jobs[..n], jobs[a].id);
    }
  }
}
