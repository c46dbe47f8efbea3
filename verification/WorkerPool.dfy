/**
 The bounded job queue and its workers, as a state machine: any number of workers, any schedule.
 A send on a full channel waits, so it is not a step; a send after `Stop` would panic, so neither is that.
 */
module WorkerPool {
  import opened Chunks
  import opened Lists

  const QUEUE_CAPACITY: nat := 1024

  datatype Job = Job(chunkID: ChunkId, data: Bytes)

  datatype Worker = Idle | Busy(job: Job) | Exited

  /** `accepted`, `taken` and `finished` record the history of the queue and of the workers. */
  datatype Pool = Pool(
    queue: seq<Job>,
    workers: seq<Worker>,
    closed: bool,
    accepted: seq<Job>,
    taken: seq<Job>,
    finished: seq<Job>)

  datatype Step =
    | Send(job: Job)
    | Close
    | Take(worker: nat)
    | Finish(worker: nat)
    | Exit(worker: nat)

  predicate Enabled(p: Pool, s: Step) {
    match s
    case Send(_) => !p.closed && |p.queue| < QUEUE_CAPACITY
    case Close => !p.closed
    case Take(w) => w < |p.workers| && p.workers[w].Idle? && p.queue != []
    case Finish(w) => w < |p.workers| && p.workers[w].Busy?
    case Exit(w) => w < |p.workers| && p.workers[w].Idle? && p.queue == [] && p.closed
  }

  function Next(p: Pool, s: Step): Pool
    requires Enabled(p, s)
  {
    match s
    case Send(job) => p.(queue := p.queue + [job], accepted := p.accepted + [job])
    case Close => p.(closed := true)
    case Take(w) =>
      p.(queue := p.queue[1..], workers := p.workers[w := Busy(p.queue[0])], taken := p.taken + [p.queue[0]])
    case Finish(w) => p.(workers := p.workers[w := Idle], finished := p.finished + [p.workers[w].job])
    case Exit(w) => p.(workers := p.workers[w := Exited])
  }

  /** As `NewEngine` and `Start` leave it. */
  ghost predicate Fresh(p: Pool) {
    && p.queue == p.accepted == p.taken == p.finished == [] && !p.closed
    && (forall w | w in p.workers :: w == Idle)
  }

  ghost predicate Reaches(p: Pool, steps: seq<Step>, q: Pool)
    decreases |steps|
  {
    if steps == [] then q == p else Enabled(p, steps[0]) && Reaches(Next(p, steps[0]), steps[1..], q)
  }

  /** How many of the workers are on the job. */
  function InFlight(workers: seq<Worker>, job: Job): nat {
    if workers == [] then 0 else (if workers[0] == Busy(job) then 1 else 0) + InFlight(workers[1..], job)
  }

  lemma {:induction false} InFlightUpdate(workers: seq<Worker>, w: nat, new_: Worker, job: Job)
    requires w < |workers|
    ensures InFlight(workers[w := new_], job) + (if workers[w] == Busy(job) then 1 else 0)
         == InFlight(workers, job) + if new_ == Busy(job) then 1 else 0
  {
    if w == 0 {
      assert workers[0 := new_][1..] == workers[1..];
    } else {
      InFlightUpdate(workers[1..], w - 1, new_, job);
      assert workers[w := new_][1..] == workers[1..][w - 1 := new_];
    }
  }

  lemma {:induction false} NothingInFlight(workers: seq<Worker>, job: Job)
    requires forall w | w in workers :: !w.Busy?
    ensures InFlight(workers, job) == 0
  {
    if workers != [] {
      assert workers[0] in workers;
      NothingInFlight(workers[1..], job);
    }
  }

  /** The history of the queue: what was accepted has been taken, in order, or is still queued. */
  ghost predicate QueueHistory(p: Pool) {
    && p.accepted == p.taken + p.queue
    && |p.queue| <= QUEUE_CAPACITY
    && (Exited in p.workers ==> p.closed && p.queue == [])
  }

  /** The history of the workers: what was taken is finished or in flight. */
  ghost predicate WorkHistory(p: Pool) {
    forall job :: Count(p.taken, job) == Count(p.finished, job) + InFlight(p.workers, job)
  }

  lemma NextQueueHistory(p: Pool, s: Step)
    requires QueueHistory(p) && Enabled(p, s)
    ensures QueueHistory(Next(p, s))
  {
    match s
    case Send(job) =>
      assert p.accepted + [job] == p.taken + (p.queue + [job]);
    case Close =>
    case Take(w) =>
      AppendCons(p.taken, p.queue[0], p.queue[1..]);
      assert p.queue == [p.queue[0]] + p.queue[1..];
    case Finish(w) =>
    case Exit(w) =>
  }

  lemma NextWorkHistory(p: Pool, s: Step)
    requires WorkHistory(p) && Enabled(p, s)
    ensures WorkHistory(Next(p, s))
  {
    var q := Next(p, s);
    forall job ensures Count(q.taken, job) == Count(q.finished, job) + InFlight(q.workers, job) {
      match s
      case Send(_) =>
      case Close =>
      case Take(w) =>
        InFlightUpdate(p.workers, w, Busy(p.queue[0]), job);
        CountAppend(p.taken, [p.queue[0]], job);
      case Finish(w) =>
        InFlightUpdate(p.workers, w, Idle, job);
        CountAppend(p.finished, [p.workers[w].job], job);
      case Exit(w) =>
        InFlightUpdate(p.workers, w, Exited, job);
    }
  }

  lemma FreshHistories(p: Pool)
    requires Fresh(p)
    ensures QueueHistory(p) && WorkHistory(p)
  {
    forall job {
      NothingInFlight(p.workers, job);
    }
  }

  lemma {:induction false} ReachesHistories(p: Pool, steps: seq<Step>, q: Pool)
    requires QueueHistory(p) && WorkHistory(p) && Reaches(p, steps, q)
    ensures QueueHistory(q) && WorkHistory(q) && |q.workers| == |p.workers|
    decreases |steps|
  {
    if steps != [] {
      NextQueueHistory(p, steps[0]);
      NextWorkHistory(p, steps[0]);
      ReachesHistories(Next(p, steps[0]), steps[1..], q);
    }
  }

  /**
   Conservation over every schedule: accepted jobs are queued, in flight or finished, each as often as
   it was accepted; they are taken in the order accepted, and the queue never exceeds its capacity.
   */
  lemma JobsConserved(p: Pool, steps: seq<Step>, q: Pool)
    requires Fresh(p) && Reaches(p, steps, q)
    ensures forall job :: Count(q.accepted, job)
                       == Count(q.queue, job) + InFlight(q.workers, job) + Count(q.finished, job)
    ensures q.taken <= q.accepted && |q.queue| <= 1024
  {
    FreshHistories(p);
    ReachesHistories(p, steps, q);
    forall job ensures Count(q.accepted, job)
                    == Count(q.queue, job) + InFlight(q.workers, job) + Count(q.finished, job)
    {
      CountAppend(q.taken, q.queue, job);
    }
  }

  /** `Stop` has returned: the queue is closed and every worker has left. */
  ghost predicate Stopped(p: Pool) {
    p.closed && forall w | w in p.workers :: w == Exited
  }

  /**
   Once `Stop` has returned, every accepted job has been processed exactly once, if and only if there
   was a worker to do it or nothing was accepted.
   */
  lemma StopIsComplete(p: Pool, steps: seq<Step>, q: Pool)
    requires Fresh(p) && Reaches(p, steps, q) && Stopped(q)
    ensures (forall job :: Count(q.finished, job) == Count(q.accepted, job)) <==> |p.workers| > 0 || q.accepted == []
  {
    FreshHistories(p);
    ReachesHistories(p, steps, q);
    JobsConserved(p, steps, q);
    forall job {
      NothingInFlight(q.workers, job);
    }
    if |q.workers| > 0 {
      assert q.workers[0] in q.workers;
    } else {
      NoWorkersNothingDone(p, steps, q);
      EmptyCounts(q.accepted);
    }
  }

  /** Without workers, `Stop` returns at once and leaves the queue as it is. */
  lemma NoWorkersLeaveJobs(job: Job)
    ensures var p := Pool([], [], false, [], [], []);
            var q := Pool([job], [], true, [job], [], []);
            Fresh(p) && Reaches(p, [Send(job), Close], q) && Stopped(q)
  {
    var p := Pool([], [], false, [], [], []);
    var sent := Next(p, Send(job));
    var q := Next(sent, Close);
    assert [] + [job] == [job];
    assert Reaches(q, [], q);
    assert [Close][1..] == [] && [Send(job), Close][1..] == [Close];
    assert Reaches(sent, [Close], q);
  }

  /** An engine that was started always has workers, whatever number was asked for. */
  lemma StartedPoolDrains(requested: int, p: Pool, steps: seq<Step>, q: Pool, job: Job)
    requires Fresh(p) && |p.workers| == (if requested > 0 then requested else 4) && Reaches(p, steps, q) && Stopped(q)
    ensures Count(q.finished, job) == Count(q.accepted, job)
  {
    StopIsComplete(p, steps, q);
  }

  lemma {:induction false} NoWorkersNothingDone(p: Pool, steps: seq<Step>, q: Pool)
    requires |p.workers| == 0 && p.finished == [] && Reaches(p, steps, q)
    ensures q.finished == []
    decreases |steps|
  {
    if steps != [] {
      NoWorkersNothingDone(Next(p, steps[0]), steps[1..], q);
    }
  }

  /** After `Stop` has closed the queue, the workers always have a step to take until all have left. */
  lemma StopNeverStuck(p: Pool)
    requires p.closed && !Stopped(p)
    ensures exists w: nat :: Enabled(p, Take(w)) || Enabled(p, Finish(w)) || Enabled(p, Exit(w))
  {
    var x :| x in p.workers && x != Exited;
    var w :| 0 <= w < |p.workers| && p.workers[w] == x;
    assert Enabled(p, Take(w)) || Enabled(p, Finish(w)) || Enabled(p, Exit(w));
  }

  function Load(w: Worker): nat {
    match w case Idle => 1 case Busy(_) => 2 case Exited => 0
  }

  function TotalLoad(workers: seq<Worker>): nat {
    if workers == [] then 0 else Load(workers[0]) + TotalLoad(workers[1..])
  }

  /** An upper bound on the steps left once the queue is closed. */
  function StepsLeft(p: Pool): nat {
    2 * |p.queue| + TotalLoad(p.workers)
  }

  lemma {:induction false} LoadUpdate(workers: seq<Worker>, w: nat, new_: Worker)
    requires w < |workers|
    ensures TotalLoad(workers[w := new_]) + Load(workers[w]) == TotalLoad(workers) + Load(new_)
  {
    if w == 0 {
      assert workers[0 := new_][1..] == workers[1..];
    } else {
      LoadUpdate(workers[1..], w - 1, new_);
      assert workers[w := new_][1..] == workers[1..][w - 1 := new_];
    }
  }

  /** ... and every one of them brings the end nearer, so `Stop` returns under every schedule. */
  lemma StopTerminates(p: Pool, s: Step)
    requires p.closed && Enabled(p, s)
    ensures Next(p, s).closed && StepsLeft(Next(p, s)) < StepsLeft(p)
  {
    match s
    case Take(w) => LoadUpdate(p.workers, w, Busy(p.queue[0]));
    case Finish(w) => LoadUpdate(p.workers, w, Idle);
    case Exit(w) => LoadUpdate(p.workers, w, Exited);
  }
}
