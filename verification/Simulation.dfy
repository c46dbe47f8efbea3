/**
 The classes and the cluster say the same thing: what the engine, the repair pass and the upload handler do
 in sequential form is one of the behaviours of the transition system, including the waiting on a full queue.
 */
module Simulation {
  import opened Api
  import opened Chunks
  import opened Cluster
  import opened Lists
  import opened Placement
  import opened Preference
  import opened Progress
  import opened Recovery
  import opened Replication
  import opened RingStates
  import W = WorkerPool

  /** What the sequential code sees of the ring is what the node's steps see. */
  ghost predicate SameView(cfg: Config, s: NodeId, nd: Node, v: View) {
    v.hk == cfg.hk && v.self == s && v.nodes == nd.ring
  }

  /** A push can only reach a node that exists. */
  ghost predicate ReachesNodes(v: View, faults: Faults, sys: System) {
    forall t, job :: Reached(v, faults, t, job) ==> t in sys
  }

  /** The jobs carry the bytes they are named after. */
  ghost predicate HonestJobs(cfg: Config, jobs: seq<W.Job>) {
    forall job | job in jobs :: HonestJob(cfg, job)
  }

  // ---------------------------------------------------------------------------------------------
  // Deliveries
  // ---------------------------------------------------------------------------------------------

  /** The cluster after a job has been pushed to the targets that can be reached. */
  function DeliveredTo(cfg: Config, v: View, faults: Faults, sys: System, targets: seq<NodeId>, job: W.Job): System
    decreases |targets|
  {
    if targets == [] then sys else
      var t := targets[0];
      var next := if Reached(v, faults, t, job) && t in sys then sys[t := Received(cfg, sys[t], job.chunkID, job.data)] else sys;
      DeliveredTo(cfg, v, faults, next, targets[1..], job)
  }

  ghost function DeliveredJob(cfg: Config, v: View, faults: Faults, sys: System, job: W.Job): System {
    DeliveredTo(cfg, v, faults, sys, Targets(v.hk, v.nodes, job.chunkID, FACTOR), job)
  }

  ghost function DeliveredJobs(cfg: Config, v: View, faults: Faults, sys: System, jobs: seq<W.Job>): System {
    if jobs == [] then sys else
      DeliveredJob(cfg, v, faults, DeliveredJobs(cfg, v, faults, sys, jobs[..|jobs| - 1]), jobs[|jobs| - 1])
  }

  /** Deliveries leave the node that makes them as it is, and do not depend on it. */
  lemma {:induction false} DeliveredToOthers(cfg: Config, v: View, faults: Faults, sys: System, targets: seq<NodeId>,
                                             job: W.Job, nd: Node)
    requires v.self in sys
    ensures DeliveredTo(cfg, v, faults, sys, targets, job).Keys == sys.Keys
    ensures DeliveredTo(cfg, v, faults, sys, targets, job)[v.self] == sys[v.self]
    ensures DeliveredTo(cfg, v, faults, sys[v.self := nd], targets, job)
         == DeliveredTo(cfg, v, faults, sys, targets, job)[v.self := nd]
    decreases |targets|
  {
    if targets != [] {
      var t := targets[0];
      if Reached(v, faults, t, job) && t in sys {
        var got := Received(cfg, sys[t], job.chunkID, job.data);
        assert sys[v.self := nd][t := got] == sys[t := got][v.self := nd];
        DeliveredToOthers(cfg, v, faults, sys[t := got], targets[1..], job, nd);
      } else {
        DeliveredToOthers(cfg, v, faults, sys, targets[1..], job, nd);
      }
    }
  }

  lemma {:induction false} DeliveredJobsOthers(cfg: Config, v: View, faults: Faults, sys: System, jobs: seq<W.Job>)
    requires v.self in sys
    ensures DeliveredJobs(cfg, v, faults, sys, jobs).Keys == sys.Keys
    ensures DeliveredJobs(cfg, v, faults, sys, jobs)[v.self] == sys[v.self]
  {
    hide Targets;
    if jobs != [] {
      var init, last := jobs[..|jobs| - 1], jobs[|jobs| - 1];
      DeliveredJobsOthers(cfg, v, faults, sys, init);
      DeliveredToOthers(cfg, v, faults, DeliveredJobs(cfg, v, faults, sys, init),
                        Targets(v.hk, v.nodes, last.chunkID, FACTOR), last, sys[v.self]);
    }
  }

  lemma DeliveredJobsNext(cfg: Config, v: View, faults: Faults, sys: System, jobs: seq<W.Job>, job: W.Job)
    ensures DeliveredJobs(cfg, v, faults, sys, jobs + [job])
         == DeliveredJob(cfg, v, faults, DeliveredJobs(cfg, v, faults, sys, jobs), job)
  {
    hide DeliveredJob;
    assert (jobs + [job])[..|jobs|] == jobs;
  }

  /** The node itself is passed over. */
  lemma {:induction false} DeliveredToOthersOnly(cfg: Config, v: View, faults: Faults, sys: System, targets: seq<NodeId>, job: W.Job)
    ensures DeliveredTo(cfg, v, faults, sys, Delete(targets, v.self), job) == DeliveredTo(cfg, v, faults, sys, targets, job)
    decreases |targets|
  {
    if targets != [] {
      var t, rest := targets[0], targets[1..];
      if t == v.self {
        DeliveredToOthersOnly(cfg, v, faults, sys, rest, job);
      } else {
        var next := if Reached(v, faults, t, job) && t in sys then sys[t := Received(cfg, sys[t], job.chunkID, job.data)] else sys;
        DeliveredToOthersOnly(cfg, v, faults, next, rest, job);
        assert ([t] + Delete(rest, v.self))[1..] == Delete(rest, v.self);
      }
    }
  }

  lemma ReceivedTwice(cfg: Config, nd: Node, id: ChunkId, data: Bytes)
    ensures Received(cfg, Received(cfg, nd, id, data), id, data) == Received(cfg, nd, id, data)
  {}

  /** Node by node: the targets that can be reached have received the job, all others are as they were. */
  lemma {:induction false} DeliveredToEach(cfg: Config, v: View, faults: Faults, sys: System, targets: seq<NodeId>, job: W.Job,
                                           t: NodeId)
    requires t in sys
    ensures var sys' := DeliveredTo(cfg, v, faults, sys, targets, job);
            t in sys' && sys'[t] == if t in targets && Reached(v, faults, t, job) then Received(cfg, sys[t], job.chunkID, job.data)
                                    else sys[t]
    decreases |targets|
  {
    if targets != [] {
      var u := targets[0];
      var next := if Reached(v, faults, u, job) && u in sys then sys[u := Received(cfg, sys[u], job.chunkID, job.data)] else sys;
      DeliveredToEach(cfg, v, faults, next, targets[1..], job, t);
      HeadTail(targets);
      ReceivedTwice(cfg, sys[t], job.chunkID, job.data);
    }
  }

  /** What the engine lists as delivered went to a target that can be reached. */
  lemma {:induction false} ListedWasReached(v: View, faults: Faults, targets: seq<NodeId>, job: W.Job, addr: string)
    requires Delivery(addr, job) in Deliveries(v, faults, targets, job)
    ensures exists u :: u in targets && Reached(v, faults, u, job) && v.peers[u].addr == addr
    decreases |targets|
  {
    var init, last := targets[..|targets| - 1], targets[|targets| - 1];
    if Delivery(addr, job) in Deliveries(v, faults, init, job) {
      ListedWasReached(v, faults, init, job, addr);
      var u :| u in init && Reached(v, faults, u, job) && v.peers[u].addr == addr;
      assert u in targets;
    } else {
      assert last in targets && Reached(v, faults, last, job);
    }
  }

  /**
   The stores change exactly by what the engine lists as delivered: a peer with an address of its own has
   received the job if that delivery is listed, and is as it was otherwise.
   */
  lemma StoresFollowDeliveries(cfg: Config, v: View, faults: Faults, sys: System, job: W.Job, t: NodeId)
    requires t in sys && t in v.peers
    requires forall u | u in v.peers && v.peers[u].addr == v.peers[t].addr :: u == t
    ensures DeliveredJob(cfg, v, faults, sys, job).Keys == sys.Keys
    ensures DeliveredJob(cfg, v, faults, sys, job)[t]
         == if Delivery(v.peers[t].addr, job) in DeliveriesOf(v, job, faults) then Received(cfg, sys[t], job.chunkID, job.data)
            else sys[t]
  {
    hide Targets, Received;
    var targets := Targets(v.hk, v.nodes, job.chunkID, FACTOR);
    DeliveredKeys(cfg, v, faults, sys, targets, job);
    DeliveredToEach(cfg, v, faults, sys, targets, job, t);
    if t in targets && Reached(v, faults, t, job) {
      DeliveriesHave(v, faults, targets, job, t);
    } else if Delivery(v.peers[t].addr, job) in Deliveries(v, faults, targets, job) {
      ListedWasReached(v, faults, targets, job, v.peers[t].addr);
    }
  }

  lemma {:induction false} DeliveredKeys(cfg: Config, v: View, faults: Faults, sys: System, targets: seq<NodeId>, job: W.Job)
    ensures DeliveredTo(cfg, v, faults, sys, targets, job).Keys == sys.Keys
    decreases |targets|
  {
    if targets != [] {
      var t := targets[0];
      var next := if Reached(v, faults, t, job) && t in sys then sys[t := Received(cfg, sys[t], job.chunkID, job.data)] else sys;
      DeliveredKeys(cfg, v, faults, next, targets[1..], job);
    }
  }

  // ---------------------------------------------------------------------------------------------
  // A worker
  // ---------------------------------------------------------------------------------------------

  /** The node while worker `k` still has these targets to serve. */
  function Working(nd: Node, k: nat, job: W.Job, todo: seq<NodeId>): Node {
    nd.(inFlight := nd.inFlight[k := Push(job, todo)])
  }

  lemma StepThen(cfg: Config, sys: System, step: Step, rest: seq<Step>, end: System) returns (steps: seq<Step>)
    requires Enabled(cfg, sys, step) && Run(cfg, Next(cfg, sys, step), rest, end)
    ensures Run(cfg, sys, steps, end)
  {
    steps := [step] + rest;
    assert steps[1..] == rest;
  }

  /** The pushes of one job, one target after the other. */
  lemma {:induction false} PushesAreARun(cfg: Config, v: View, faults: Faults, sys: System, nd: Node, k: nat, job: W.Job,
                                         todo: seq<NodeId>) returns (steps: seq<Step>)
    requires v.self in sys && HonestJob(cfg, job) && ReachesNodes(v, faults, sys)
    ensures Run(cfg, sys[v.self := Working(nd, k, job, todo)], steps,
                DeliveredTo(cfg, v, faults, sys, todo, job)[v.self := Working(nd, k, job, [])])
    decreases |todo|
  {
    if todo == [] {
      steps := [];
    } else {
      var t, next := todo[0], sys;
      if Reached(v, faults, t, job) {
        next := sys[t := Received(cfg, sys[t], job.chunkID, job.data)];
      }
      var rest := PushesAreARun(cfg, v, faults, next, nd, k, job, todo[1..]);
      steps := PushIsAStep(cfg, v, faults, sys, next, nd, k, job, todo, rest,
                           DeliveredTo(cfg, v, faults, sys, todo, job)[v.self := Working(nd, k, job, [])]);
    }
  }

  lemma PushIsAStep(cfg: Config, v: View, faults: Faults, sys: System, next: System, nd: Node, k: nat, job: W.Job,
                    todo: seq<NodeId>, rest: seq<Step>, end: System) returns (steps: seq<Step>)
    requires v.self in sys && HonestJob(cfg, job) && ReachesNodes(v, faults, sys) && todo != []
    requires next == if Reached(v, faults, todo[0], job) && todo[0] in sys then
                       sys[todo[0] := Received(cfg, sys[todo[0]], job.chunkID, job.data)] else sys
    requires Run(cfg, next[v.self := Working(nd, k, job, todo[1..])], rest, end)
    ensures Run(cfg, sys[v.self := Working(nd, k, job, todo)], steps, end)
  {
    hide Run, DeliveredTo;
    var here, t := sys[v.self := Working(nd, k, job, todo)], todo[0];
    if Reached(v, faults, t, job) {
      ArrivingPush(cfg, sys, v.self, nd, k, job, todo);
      steps := StepThen(cfg, here, PushArrives(v.self, k), rest, end);
    } else {
      FailingPush(cfg, sys, v.self, nd, k, job, todo);
      steps := StepThen(cfg, here, Acts(v.self, GiveUpPush(k)), rest, end);
    }
  }

  lemma WorkingSent(nd: Node, k: nat, job: W.Job, todo: seq<NodeId>)
    requires todo != []
    ensures Sent(Working(nd, k, job, todo), k) == Working(nd, k, job, todo[1..])
  {
    UpdateTwice(nd.inFlight, k, Push(job, todo), Push(job, todo[1..]));
  }

  lemma ArrivingPush(cfg: Config, sys: System, s: NodeId, nd: Node, k: nat, job: W.Job, todo: seq<NodeId>)
    requires s in sys && todo != [] && todo[0] in sys && todo[0] != s && HonestJob(cfg, job)
    ensures var here := sys[s := Working(nd, k, job, todo)];
            && Enabled(cfg, here, PushArrives(s, k))
            && Next(cfg, here, PushArrives(s, k))
               == sys[todo[0] := Received(cfg, sys[todo[0]], job.chunkID, job.data)][s := Working(nd, k, job, todo[1..])]
  {
    WorkingSent(nd, k, job, todo);
  }

  lemma FailingPush(cfg: Config, sys: System, s: NodeId, nd: Node, k: nat, job: W.Job, todo: seq<NodeId>)
    requires s in sys && todo != []
    ensures var here := sys[s := Working(nd, k, job, todo)];
            && Enabled(cfg, here, Acts(s, GiveUpPush(k)))
            && Next(cfg, here, Acts(s, GiveUpPush(k))) == sys[s := Working(nd, k, job, todo[1..])]
  {
    WorkingSent(nd, k, job, todo);
  }

  lemma UpdateTwice<A>(m: map<nat, A>, k: nat, x: A, y: A)
    ensures m[k := x][k := y] == m[k := y]
  {}

  lemma UpdateAndRemove<A>(m: map<nat, A>, k: nat, x: A)
    requires k !in m
    ensures m[k := x] - {k} == m
  {}

  lemma FreeNumber(used: set<nat>) returns (k: nat)
    ensures k !in used && forall j | j in used :: j < k
    decreases |used|
  {
    if used == {} {
      k := 0;
    } else {
      var j :| j in used;
      var other := FreeNumber(used - {j});
      k := if other <= j then j + 1 else other;
      assert forall x | x in used :: x == j || x in used - {j};
    }
  }

  /** The state after a worker has processed the oldest job. */
  ghost function Processed(cfg: Config, v: View, faults: Faults, sys: System): System
    requires v.self in sys && sys[v.self].queue != []
  {
    var nd := sys[v.self];
    DeliveredJob(cfg, v, faults, sys, nd.queue[0])[v.self := nd.(queue := nd.queue[1..])]
  }

  /** `Replication.Engine.ProcessNext` as a run: the job is taken, pushed to each target, and done. */
  lemma ProcessNextIsARun(cfg: Config, v: View, faults: Faults, sys: System) returns (steps: seq<Step>)
    requires v.self in sys && SameView(cfg, v.self, sys[v.self], v) && sys[v.self].queue != []
    requires HonestJob(cfg, sys[v.self].queue[0]) && ReachesNodes(v, faults, sys)
    ensures Run(cfg, sys, steps, Processed(cfg, v, faults, sys))
  {
    hide Targets;
    var s, nd, job := v.self, sys[v.self], sys[v.self].queue[0];
    var owners, rest := Targets(v.hk, v.nodes, job.chunkID, FACTOR), nd.(queue := nd.queue[1..]);
    var k := FreeNumber(nd.inFlight.Keys);
    var todo := Delete(owners, s);
    DeliveredToOthersOnly(cfg, v, faults, sys, owners, job);
    var after := DeliveredTo(cfg, v, faults, sys, todo, job);
    var pushes := PushesAreARun(cfg, v, faults, sys, rest, k, job, todo);
    var last := EndsJob(cfg, after, s, rest, k, job);
    RunAppend(cfg, sys[s := Working(rest, k, job, todo)], pushes, after[s := Working(rest, k, job, [])], last, after[s := rest]);
    assert Next(cfg, sys, Acts(s, TakeJob(k, owners))) == sys[s := Working(rest, k, job, todo)];
    steps := StepThen(cfg, sys, Acts(s, TakeJob(k, owners)), pushes + last, after[s := rest]);
  }

  lemma EndsJob(cfg: Config, sys: System, s: NodeId, nd: Node, k: nat, job: W.Job) returns (steps: seq<Step>)
    requires k !in nd.inFlight
    ensures Run(cfg, sys[s := Working(nd, k, job, [])], steps, sys[s := nd])
  {
    UpdateAndRemove(nd.inFlight, k, Push(job, []));
    assert Next(cfg, sys[s := Working(nd, k, job, [])], Acts(s, EndJob(k))) == sys[s := nd];
    assert Run(cfg, sys[s := nd], [], sys[s := nd]);
    steps := StepThen(cfg, sys[s := Working(nd, k, job, [])], Acts(s, EndJob(k)), [], sys[s := nd]);
  }

  // ---------------------------------------------------------------------------------------------
  // Room in the queue
  // ---------------------------------------------------------------------------------------------

  /**
   The cluster some way into an operation of the node: `done` of the jobs queued before or since have been
   processed, and the node is now as given.
   */
  ghost function Midway(cfg: Config, v: View, faults: Faults, sys: System, done: seq<W.Job>, nd: Node): System {
    DeliveredJobs(cfg, v, faults, sys, done)[v.self := nd]
  }

  lemma MidwayProcessed(cfg: Config, v: View, faults: Faults, sys: System, done: seq<W.Job>, nd: Node)
    requires v.self in sys && nd.queue != []
    ensures Processed(cfg, v, faults, Midway(cfg, v, faults, sys, done, nd))
         == Midway(cfg, v, faults, sys, done + [nd.queue[0]], nd.(queue := nd.queue[1..]))
  {
    hide Targets, DeliveredTo;
    var job, delivered := nd.queue[0], DeliveredJobs(cfg, v, faults, sys, done);
    DeliveredJobsOthers(cfg, v, faults, sys, done);
    DeliveredToOthers(cfg, v, faults, delivered, Targets(v.hk, v.nodes, job.chunkID, FACTOR), job, nd);
    DeliveredJobsNext(cfg, v, faults, sys, done, job);
  }

  lemma MidwayKeys(cfg: Config, v: View, faults: Faults, sys: System, done: seq<W.Job>, nd: Node)
    requires v.self in sys
    ensures Midway(cfg, v, faults, sys, done, nd).Keys == sys.Keys && Midway(cfg, v, faults, sys, done, nd)[v.self] == nd
  {
    DeliveredJobsOthers(cfg, v, faults, sys, done);
  }

  /** A send on a full channel waits until a worker has processed a job. */
  lemma RoomIsMade(cfg: Config, v: View, faults: Faults, sys: System, done: seq<W.Job>, nd: Node)
    returns (steps: seq<Step>, more: seq<W.Job>, queue: seq<W.Job>)
    requires v.self in sys && SameView(cfg, v.self, nd, v) && |nd.queue| <= W.QUEUE_CAPACITY
    requires HonestJobs(cfg, nd.queue) && ReachesNodes(v, faults, sys)
    ensures Run(cfg, Midway(cfg, v, faults, sys, done, nd), steps,
                Midway(cfg, v, faults, sys, done + more, nd.(queue := queue)))
    ensures more + queue == nd.queue && |queue| < W.QUEUE_CAPACITY && HonestJobs(cfg, queue)
    ensures |nd.queue| < W.QUEUE_CAPACITY ==> more == []
  {
    hide Midway, Run, Reached;
    if |nd.queue| < W.QUEUE_CAPACITY {
      more, queue := [], nd.queue;
      AppendNothing(done);
      steps := NoSteps(cfg, Midway(cfg, v, faults, sys, done, nd));
    } else {
      more, queue := [nd.queue[0]], nd.queue[1..];
      HeadTail(nd.queue);
      MidwayKeys(cfg, v, faults, sys, done, nd);
      MidwayProcessed(cfg, v, faults, sys, done, nd);
      steps := ProcessNextIsARun(cfg, v, faults, Midway(cfg, v, faults, sys, done, nd));
    }
  }

  lemma NoSteps(cfg: Config, sys: System) returns (steps: seq<Step>)
    ensures steps == [] && Run(cfg, sys, steps, sys)
  {
    steps := [];
  }

  /** One act of the node itself. */
  lemma ActsMidway(cfg: Config, v: View, faults: Faults, sys: System, done: seq<W.Job>, nd: Node, a: Act, nd': Node)
    returns (steps: seq<Step>)
    requires v.self in sys && CanAct(v.self, nd, a) && RingAnswers(cfg, v.self, nd, a) && nd' == Acted(cfg, v.self, nd, a)
    ensures Run(cfg, Midway(cfg, v, faults, sys, done, nd), steps, Midway(cfg, v, faults, sys, done, nd'))
  {
    hide DeliveredJobs, CanAct, RingAnswers, Acted;
    var here, there := Midway(cfg, v, faults, sys, done, nd), Midway(cfg, v, faults, sys, done, nd');
    assert Next(cfg, here, Acts(v.self, a)) == there;
    assert Run(cfg, there, [], there);
    steps := StepThen(cfg, here, Acts(v.self, a), [], there);
  }

  lemma StartsMidway(cfg: Config, v: View, faults: Faults, sys: System)
    requires v.self in sys
    ensures Midway(cfg, v, faults, sys, [], sys[v.self]) == sys
  {}

  // ---------------------------------------------------------------------------------------------
  // The upload handler
  // ---------------------------------------------------------------------------------------------

  /** The node while upload `k` has `i` of its chunks behind it. */
  ghost function Uploading(v: View, nd: Node, k: nat, blobID: string, data: Bytes, chunks: seq<Chunk>, i: nat,
                           queue: seq<W.Job>): Node
    requires i <= |chunks|
  {
    nd.(uploads := nd.uploads[k := Upload(blobID, data, chunks[i..], false)],
        store := Kept(v, nd.store, chunks[..i]), queue := queue)
  }

  /** The node after the upload. */
  ghost function Uploaded(cfg: Config, v: View, nd: Node, blobID: string, data: Bytes, queue: seq<W.Job>): Node {
    nd.(store := Kept(v, nd.store, Numbered(cfg.address, Pieces(data, DEFAULT_SIZE))), queue := queue,
        manifests := nd.manifests[blobID := ManifestOf(cfg.address, blobID, data, DEFAULT_SIZE)],
        completed := nd.completed[blobID := data])
  }

  /** Looking whether the next chunk is to be stored here. */
  ghost function Placing(v: View, nd: Node, k: nat, blobID: string, data: Bytes, chunks: seq<Chunk>, i: nat,
                         queue: seq<W.Job>): Node
    requires i < |chunks|
  {
    nd.(uploads := nd.uploads[k := Upload(blobID, data, chunks[i..], true)],
        store := Kept(v, nd.store, chunks[..i + 1]), queue := queue)
  }

  lemma PlaceAct(cfg: Config, v: View, nd: Node, k: nat, blobID: string, data: Bytes, chunks: seq<Chunk>, i: nat,
                 queue: seq<W.Job>)
    requires SameView(cfg, v.self, nd, v) && i < |chunks|
    ensures var now := Uploading(v, nd, k, blobID, data, chunks, i, queue);
            var place := PlaceChunk(k, Targets(cfg.hk, nd.ring, chunks[i].id, FACTOR));
            && CanAct(v.self, now, place) && RingAnswers(cfg, v.self, now, place)
            && Acted(cfg, v.self, now, place) == Placing(v, nd, k, blobID, data, chunks, i, queue)
  {
    hide Targets;
    SuffixNext(chunks, i);
    KeptNext(v, nd.store, chunks, i);
    UpdateTwice(nd.uploads, k, Upload(blobID, data, chunks[i..], false), Upload(blobID, data, chunks[i..], true));
  }

  lemma QueueAct(cfg: Config, v: View, nd: Node, k: nat, blobID: string, data: Bytes, chunks: seq<Chunk>, i: nat,
                 queue: seq<W.Job>)
    requires i < |chunks| && |queue| < W.QUEUE_CAPACITY
    ensures var now := Placing(v, nd, k, blobID, data, chunks, i, queue);
            && CanAct(v.self, now, QueueChunk(k))
            && Acted(cfg, v.self, now, QueueChunk(k))
               == Uploading(v, nd, k, blobID, data, chunks, i + 1, queue + [W.Job(chunks[i].id, chunks[i].data)])
  {
    hide Kept;
    SuffixNext(chunks, i);
    UpdateTwice(nd.uploads, k, Upload(blobID, data, chunks[i..], true), Upload(blobID, data, chunks[i + 1..], false));
  }

  /** One more chunk: it is placed, room is made for its job, and the job is queued. */
  lemma OneChunkIsARun(cfg: Config, v: View, faults: Faults, sys: System, nd: Node, k: nat, blobID: string, data: Bytes,
                       chunks: seq<Chunk>, i: nat, done: seq<W.Job>, queue: seq<W.Job>)
    returns (steps: seq<Step>, more: seq<W.Job>, left: seq<W.Job>)
    requires v.self in sys && SameView(cfg, v.self, nd, v) && ReachesNodes(v, faults, sys)
    requires i < |chunks| && |queue| <= W.QUEUE_CAPACITY && HonestJobs(cfg, queue)
    ensures Run(cfg, Midway(cfg, v, faults, sys, done, Uploading(v, nd, k, blobID, data, chunks, i, queue)), steps,
                Midway(cfg, v, faults, sys, done + more,
                       Uploading(v, nd, k, blobID, data, chunks, i + 1, left + [W.Job(chunks[i].id, chunks[i].data)])))
    ensures more + left == queue && |left| < W.QUEUE_CAPACITY && HonestJobs(cfg, left)
    ensures |queue| < W.QUEUE_CAPACITY ==> more == []
  {
    hide Targets, Midway, Run, CanAct, Acted, Reached, Kept;
    var now := Uploading(v, nd, k, blobID, data, chunks, i, queue);
    var placing := Placing(v, nd, k, blobID, data, chunks, i, queue);
    PlaceAct(cfg, v, nd, k, blobID, data, chunks, i, queue);
    var place := ActsMidway(cfg, v, faults, sys, done, now, PlaceChunk(k, Targets(cfg.hk, nd.ring, chunks[i].id, FACTOR)), placing);
    var wait;
    wait, more, left := RoomIsMade(cfg, v, faults, sys, done, placing);
    var ready := Placing(v, nd, k, blobID, data, chunks, i, left);
    QueueAct(cfg, v, nd, k, blobID, data, chunks, i, left);
    var next := Uploading(v, nd, k, blobID, data, chunks, i + 1, left + [W.Job(chunks[i].id, chunks[i].data)]);
    var send := ActsMidway(cfg, v, faults, sys, done + more, ready, QueueChunk(k), next);
    steps := ThreeRuns(cfg, Midway(cfg, v, faults, sys, done, now), place, Midway(cfg, v, faults, sys, done, placing), wait,
                       Midway(cfg, v, faults, sys, done + more, ready), send, Midway(cfg, v, faults, sys, done + more, next));
  }

  lemma ThreeRuns(cfg: Config, a: System, one: seq<Step>, b: System, two: seq<Step>, c: System, three: seq<Step>, d: System)
    returns (steps: seq<Step>)
    requires Run(cfg, a, one, b) && Run(cfg, b, two, c) && Run(cfg, c, three, d)
    ensures Run(cfg, a, steps, d)
  {
    hide Run;
    RunAppend(cfg, a, one, b, two, c);
    RunAppend(cfg, a, one + two, c, three, d);
    steps := one + two + three;
  }

  /** What stands in the queue and what has been processed, some way into an operation that queues `jobs`. */
  ghost predicate Balanced(cfg: Config, before: seq<W.Job>, jobs: seq<W.Job>, done: seq<W.Job>, queue: seq<W.Job>) {
    && done + queue == before + jobs && |queue| <= W.QUEUE_CAPACITY && HonestJobs(cfg, queue)
    && (|before| + |jobs| <= W.QUEUE_CAPACITY ==> done == [])
  }

  lemma BalancedNext(cfg: Config, before: seq<W.Job>, jobs: seq<W.Job>, done: seq<W.Job>, queue: seq<W.Job>, more: seq<W.Job>,
                     left: seq<W.Job>, job: W.Job)
    requires Balanced(cfg, before, jobs, done, queue) && more + left == queue && |left| < W.QUEUE_CAPACITY
    requires HonestJobs(cfg, left) && HonestJob(cfg, job) && (|queue| < W.QUEUE_CAPACITY ==> more == [])
    ensures Balanced(cfg, before, jobs + [job], done + more, left + [job])
  {
    AppendAssoc(done, more, left);
    AppendAssoc(done + more, left, [job]);
    AppendAssoc(before, jobs, [job]);
    assert |done| + |queue| == |before| + |jobs|;
  }

  lemma {:induction false} UploadUpTo(cfg: Config, v: View, faults: Faults, sys: System, k: nat, blobID: string, data: Bytes,
                                      chunks: seq<Chunk>, i: nat)
    returns (steps: seq<Step>, done: seq<W.Job>, queue: seq<W.Job>)
    requires v.self in sys && SameView(cfg, v.self, sys[v.self], v) && ReachesNodes(v, faults, sys)
    requires k !in sys[v.self].uploads && |sys[v.self].queue| <= W.QUEUE_CAPACITY && HonestJobs(cfg, sys[v.self].queue)
    requires chunks == Numbered(cfg.address, Pieces(data, DEFAULT_SIZE)) && i <= |chunks|
    ensures Run(cfg, sys, steps, Midway(cfg, v, faults, sys, done, Uploading(v, sys[v.self], k, blobID, data, chunks, i, queue)))
    ensures Balanced(cfg, sys[v.self].queue, JobsOf(chunks[..i]), done, queue)
    decreases i
  {
    hide Targets, Midway, Run, CanAct, RingAnswers, Acted, Reached, Kept, Balanced;
    var nd := sys[v.self];
    if i == 0 {
      steps, done, queue := UploadStarts(cfg, v, faults, sys, k, blobID, data, chunks);
    } else {
      var before, done0, queue0 := UploadUpTo(cfg, v, faults, sys, k, blobID, data, chunks, i - 1);
      BalancedParts(cfg, nd.queue, JobsOf(chunks[..i - 1]), done0, queue0);
      var one, more, left := OneChunkIsARun(cfg, v, faults, sys, nd, k, blobID, data, chunks, i - 1, done0, queue0);
      var job := W.Job(chunks[i - 1].id, chunks[i - 1].data);
      RunAppend(cfg, sys, before, Midway(cfg, v, faults, sys, done0, Uploading(v, nd, k, blobID, data, chunks, i - 1, queue0)),
                one, Midway(cfg, v, faults, sys, done0 + more, Uploading(v, nd, k, blobID, data, chunks, i, left + [job])));
      BalancedNext(cfg, nd.queue, JobsOf(chunks[..i - 1]), done0, queue0, more, left, job);
      KeptNext(v, nd.store, chunks, i - 1);
      steps, done, queue := before + one, done0 + more, left + [job];
    }
  }

  lemma BalancedParts(cfg: Config, before: seq<W.Job>, jobs: seq<W.Job>, done: seq<W.Job>, queue: seq<W.Job>)
    requires Balanced(cfg, before, jobs, done, queue)
    ensures |queue| <= W.QUEUE_CAPACITY && HonestJobs(cfg, queue)
  {}

  lemma UploadStarts(cfg: Config, v: View, faults: Faults, sys: System, k: nat, blobID: string, data: Bytes,
                     chunks: seq<Chunk>) returns (steps: seq<Step>, done: seq<W.Job>, queue: seq<W.Job>)
    requires v.self in sys && k !in sys[v.self].uploads
    requires |sys[v.self].queue| <= W.QUEUE_CAPACITY && HonestJobs(cfg, sys[v.self].queue)
    requires chunks == Numbered(cfg.address, Pieces(data, DEFAULT_SIZE))
    ensures Run(cfg, sys, steps, Midway(cfg, v, faults, sys, done, Uploading(v, sys[v.self], k, blobID, data, chunks, 0, queue)))
    ensures Balanced(cfg, sys[v.self].queue, JobsOf(chunks[..0]), done, queue)
  {
    var nd := sys[v.self];
    assert chunks[0..] == chunks && chunks[..0] == [];
    StartsMidway(cfg, v, faults, sys);
    AppendNothing(nd.queue);
    assert [] + nd.queue == nd.queue;
    done, queue := [], nd.queue;
    steps := ActsMidway(cfg, v, faults, sys, [], nd, BeginUpload(k, blobID, data),
                        Uploading(v, nd, k, blobID, data, chunks, 0, nd.queue));
  }

  lemma UploadEnds(cfg: Config, v: View, nd: Node, k: nat, blobID: string, data: Bytes, chunks: seq<Chunk>, queue: seq<W.Job>)
    requires k !in nd.uploads && chunks == Numbered(cfg.address, Pieces(data, DEFAULT_SIZE))
    ensures var here := Uploading(v, nd, k, blobID, data, chunks, |chunks|, queue);
            && CanAct(v.self, here, EndUpload(k))
            && Acted(cfg, v.self, here, EndUpload(k)) == Uploaded(cfg, v, nd, blobID, data, queue)
  {
    PrefixAll(chunks);
    UpdateAndRemove(nd.uploads, k, Upload(blobID, data, [], false));
  }

  /**
   `Api.Server.HandleUploadBlob` as a run, for any blob and any state of the queue: store and manifests are
   as the handler leaves them, and of the jobs queued before or by it, those in `done` have been processed to
   make room; none, if there was room for all.
   */
  lemma HandlerIsARun(cfg: Config, v: View, faults: Faults, sys: System, blobID: string, data: Bytes)
    returns (steps: seq<Step>, done: seq<W.Job>, queue: seq<W.Job>)
    requires v.self in sys && SameView(cfg, v.self, sys[v.self], v) && ReachesNodes(v, faults, sys)
    requires |sys[v.self].queue| <= W.QUEUE_CAPACITY && HonestJobs(cfg, sys[v.self].queue)
    ensures Run(cfg, sys, steps, Midway(cfg, v, faults, sys, done, Uploaded(cfg, v, sys[v.self], blobID, data, queue)))
    ensures Balanced(cfg, sys[v.self].queue, JobsOf(Numbered(cfg.address, Pieces(data, DEFAULT_SIZE))), done, queue)
  {
    hide Targets, Midway, Run, Reached, Kept, Balanced;
    var nd, chunks := sys[v.self], Numbered(cfg.address, Pieces(data, DEFAULT_SIZE));
    var k := FreeNumber(nd.uploads.Keys);
    var upload;
    upload, done, queue := UploadUpTo(cfg, v, faults, sys, k, blobID, data, chunks, |chunks|);
    UploadEnds(cfg, v, nd, k, blobID, data, chunks, queue);
    var here, end := Uploading(v, nd, k, blobID, data, chunks, |chunks|, queue), Uploaded(cfg, v, nd, blobID, data, queue);
    var last := ActsMidway(cfg, v, faults, sys, done, here, EndUpload(k), end);
    RunAppend(cfg, sys, upload, Midway(cfg, v, faults, sys, done, here), last, Midway(cfg, v, faults, sys, done, end));
    PrefixAll(chunks);
    steps := upload + last;
  }

  // ---------------------------------------------------------------------------------------------
  // The repair pass
  // ---------------------------------------------------------------------------------------------

  /** The node while pass `k` still has these chunks to look at. */
  function Passing(nd: Node, k: nat, rest: seq<ChunkId>, queue: seq<W.Job>): Node {
    nd.(passes := nd.passes[k := Scanning(rest)], queue := queue)
  }

  lemma RepairAct(cfg: Config, v: View, nd: Node, k: nat, ids: seq<ChunkId>, i: nat, queue: seq<W.Job>)
    requires SameView(cfg, v.self, nd, v) && i < |ids| && ids[i] in nd.store
    requires RepairJobs(v, nd.store, ids[i]) != [] ==> |queue| < W.QUEUE_CAPACITY
    ensures var now := Passing(nd, k, ids[i..], queue);
            var repair := RepairChunk(k, Targets(cfg.hk, nd.ring, ids[i], FACTOR), true);
            && CanAct(v.self, now, repair) && RingAnswers(cfg, v.self, now, repair)
            && Acted(cfg, v.self, now, repair) == Passing(nd, k, ids[i + 1..], queue + RepairJobs(v, nd.store, ids[i]))
  {
    hide Targets;
    SuffixNext(ids, i);
    AppendNothing(queue);
    UpdateTwice(nd.passes, k, Scanning(ids[i..]), Scanning(ids[i + 1..]));
  }

  /** One more chunk: room is made if it is to be queued. */
  lemma OneRepairIsARun(cfg: Config, v: View, faults: Faults, sys: System, nd: Node, k: nat, ids: seq<ChunkId>, i: nat,
                        before: seq<W.Job>, jobs: seq<W.Job>, done: seq<W.Job>, queue: seq<W.Job>)
    returns (steps: seq<Step>, done': seq<W.Job>, queue': seq<W.Job>)
    requires v.self in sys && SameView(cfg, v.self, nd, v) && ReachesNodes(v, faults, sys)
    requires i < |ids| && ids[i] in nd.store && cfg.address(nd.store[ids[i]]) == ids[i]
    requires Balanced(cfg, before, jobs, done, queue)
    ensures Run(cfg, Midway(cfg, v, faults, sys, done, Passing(nd, k, ids[i..], queue)), steps,
                Midway(cfg, v, faults, sys, done', Passing(nd, k, ids[i + 1..], queue')))
    ensures Balanced(cfg, before, jobs + RepairJobs(v, nd.store, ids[i]), done', queue')
  {
    hide Targets, Midway, Run, CanAct, RingAnswers, Acted, Reached, Balanced;
    var now, id := Passing(nd, k, ids[i..], queue), ids[i];
    var repair := RepairChunk(k, Targets(cfg.hk, nd.ring, id, FACTOR), true);
    BalancedParts(cfg, before, jobs, done, queue);
    if RepairJobs(v, nd.store, id) == [] {
      RepairAct(cfg, v, nd, k, ids, i, queue);
      AppendNothing(queue);
      AppendNothing(jobs);
      done', queue' := done, queue;
      steps := ActsMidway(cfg, v, faults, sys, done, now, repair, Passing(nd, k, ids[i + 1..], queue));
    } else {
      var job := W.Job(id, nd.store[id]);
      var wait, more, left := RoomIsMade(cfg, v, faults, sys, done, now);
      RepairAct(cfg, v, nd, k, ids, i, left);
      var ready, next := Passing(nd, k, ids[i..], left), Passing(nd, k, ids[i + 1..], left + [job]);
      var act := ActsMidway(cfg, v, faults, sys, done + more, ready, repair, next);
      RunAppend(cfg, Midway(cfg, v, faults, sys, done, now), wait, Midway(cfg, v, faults, sys, done + more, ready), act,
                Midway(cfg, v, faults, sys, done + more, next));
      BalancedNext(cfg, before, jobs, done, queue, more, left, job);
      steps, done', queue' := wait + act, done + more, left + [job];
    }
  }

  lemma {:induction false} PassUpTo(cfg: Config, v: View, faults: Faults, sys: System, k: nat, ids: seq<ChunkId>, i: nat)
    returns (steps: seq<Step>, jobs: seq<W.Job>, done: seq<W.Job>, queue: seq<W.Job>)
    requires v.self in sys && SameView(cfg, v.self, sys[v.self], v) && ReachesNodes(v, faults, sys)
    requires k in sys[v.self].passes && sys[v.self].passes[k].Waiting?
    requires |sys[v.self].queue| <= W.QUEUE_CAPACITY && HonestJobs(cfg, sys[v.self].queue)
    requires NoDuplicates(ids) && Elements(ids) == sys[v.self].store.Keys && i <= |ids|
    requires forall id | id in sys[v.self].store :: cfg.address(sys[v.self].store[id]) == id
    ensures Run(cfg, sys, steps, Midway(cfg, v, faults, sys, done, Passing(sys[v.self], k, ids[i..], queue)))
    ensures Balanced(cfg, sys[v.self].queue, jobs, done, queue) && Scanned(v, sys[v.self].store, ids[..i], jobs)
    decreases i
  {
    hide Targets, Midway, Run, Reached, Balanced, Scanned;
    var nd := sys[v.self];
    if i == 0 {
      jobs := [];
      steps, done, queue := PassStarts(cfg, v, faults, sys, k, ids);
    } else {
      var before, jobs0, done0, queue0 := PassUpTo(cfg, v, faults, sys, k, ids, i - 1);
      assert ids[i - 1] in Elements(ids);
      var one;
      one, done, queue := OneRepairIsARun(cfg, v, faults, sys, nd, k, ids, i - 1, nd.queue, jobs0, done0, queue0);
      RunAppend(cfg, sys, before, Midway(cfg, v, faults, sys, done0, Passing(nd, k, ids[i - 1..], queue0)), one,
                Midway(cfg, v, faults, sys, done, Passing(nd, k, ids[i..], queue)));
      PrefixNext(ids, i - 1);
      NotYet(ids, i - 1);
      ScannedNext(v, nd.store, ids[..i - 1], jobs0, ids[i - 1]);
      steps, jobs := before + one, jobs0 + RepairJobs(v, nd.store, ids[i - 1]);
    }
  }

  lemma PassStarts(cfg: Config, v: View, faults: Faults, sys: System, k: nat, ids: seq<ChunkId>)
    returns (steps: seq<Step>, done: seq<W.Job>, queue: seq<W.Job>)
    requires v.self in sys && k in sys[v.self].passes && sys[v.self].passes[k].Waiting?
    requires |sys[v.self].queue| <= W.QUEUE_CAPACITY && HonestJobs(cfg, sys[v.self].queue)
    requires Elements(ids) == sys[v.self].store.Keys
    ensures Run(cfg, sys, steps, Midway(cfg, v, faults, sys, done, Passing(sys[v.self], k, ids[0..], queue)))
    ensures Balanced(cfg, sys[v.self].queue, [], done, queue) && Scanned(v, sys[v.self].store, ids[..0], [])
  {
    hide Targets;
    var nd := sys[v.self];
    assert ids[0..] == ids;
    StartsMidway(cfg, v, faults, sys);
    AppendNothing(nd.queue);
    assert [] + nd.queue == nd.queue;
    done, queue := [], nd.queue;
    steps := ActsMidway(cfg, v, faults, sys, [], nd, ListChunks(k, ids), Passing(nd, k, ids, nd.queue));
  }

  lemma PassEnds(cfg: Config, self: NodeId, nd: Node, k: nat, queue: seq<W.Job>)
    requires k in nd.passes
    ensures var here := Passing(nd, k, [], queue);
            && CanAct(self, here, EndPass(k))
            && Acted(cfg, self, here, EndPass(k)) == nd.(passes := nd.passes - {k}, queue := queue)
  {
    assert nd.passes[k := Scanning([])] - {k} == nd.passes - {k};
  }

  /**
   `Recovery.Manager.RepairLocalChunks` as a run: exactly the chunks held and owned here are queued, each
   once, and those in `done` have been processed to make room.
   */
  lemma RepairPassIsARun(cfg: Config, v: View, faults: Faults, sys: System, k: nat)
    returns (steps: seq<Step>, jobs: seq<W.Job>, done: seq<W.Job>, queue: seq<W.Job>)
    requires v.self in sys && SameView(cfg, v.self, sys[v.self], v) && ReachesNodes(v, faults, sys)
    requires k in sys[v.self].passes && sys[v.self].passes[k].Waiting?
    requires |sys[v.self].queue| <= W.QUEUE_CAPACITY && HonestJobs(cfg, sys[v.self].queue)
    requires forall id | id in sys[v.self].store :: cfg.address(sys[v.self].store[id]) == id
    ensures var nd := sys[v.self];
            Run(cfg, sys, steps, Midway(cfg, v, faults, sys, done, nd.(passes := nd.passes - {k}, queue := queue)))
    ensures Balanced(cfg, sys[v.self].queue, jobs, done, queue)
    ensures NoDuplicates(jobs)
    ensures forall job :: job in jobs <==> job.chunkID in sys[v.self].store && sys[v.self].store[job.chunkID] == job.data
                                           && v.self in Targets(v.hk, v.nodes, job.chunkID, 3)
  {
    hide Targets, Midway, Run, Reached, Balanced;
    var nd := sys[v.self];
    var ids := Listed(nd.store.Keys);
    var pass;
    pass, jobs, done, queue := PassUpTo(cfg, v, faults, sys, k, ids, |ids|);
    assert ids[|ids|..] == [];
    PassEnds(cfg, v.self, nd, k, queue);
    var here, end := Passing(nd, k, [], queue), nd.(passes := nd.passes - {k}, queue := queue);
    var last := ActsMidway(cfg, v, faults, sys, done, here, EndPass(k), end);
    RunAppend(cfg, sys, pass, Midway(cfg, v, faults, sys, done, here), last, Midway(cfg, v, faults, sys, done, end));
    PrefixAll(ids);
    ScannedAll(v, nd.store, ids, jobs);
    steps := pass + last;
  }
}
