/** Self-healing on one node, in sequential form: take the dead node off the ring, then push what is held here. */
module Recovery {
  import opened Chunks
  import opened HashRing
  import opened Lists
  import opened Placement
  import opened Preference
  import opened Replication
  import opened RingStates
  import opened Storage
  import opened WorkerPool

  class Manager {
    const ring: Ring
    const local: Memory
    const engine: Engine
    const selfID: NodeId
    var repairsRunning: int
    var repairsComplete: int

    constructor (ring: Ring, local: Memory, engine: Engine, selfID: NodeId)
      ensures this.ring == ring && this.local == local && this.engine == engine && this.selfID == selfID
      ensures repairsRunning == 0 && repairsComplete == 0
    {
      this.ring, this.local, this.engine, this.selfID := ring, local, engine, selfID;
      repairsRunning, repairsComplete := 0, 0;
    }

    ghost predicate Ready()
      reads this, ring, engine
    {
      engine.ring == ring && engine.selfID == selfID && engine.Ready() && |engine.queue| <= QUEUE_CAPACITY
    }

    /**
     One repair pass. Exactly the chunks held here and owned here on the present ring are queued, each
     once, whatever the queue did meanwhile (`done` are the jobs a worker took while the pass waited).
     */
    method RepairLocalChunks(faults: Faults) returns (ghost jobs: seq<Job>, ghost done: seq<Job>)
      requires Ready()
      modifies this, engine
      ensures Ready() && repairsRunning == old(repairsRunning) && repairsComplete == old(repairsComplete) + 1
      ensures NoDuplicates(jobs)
      ensures forall job :: job in jobs <==> job.chunkID in local.data && local.data[job.chunkID] == job.data
                                             && selfID in Targets(ring.hashKey, ring.nodes, job.chunkID, 3)
      ensures Queued(engine.Now(), faults, old(engine.Trace()), jobs, done, engine.Trace())
    {
      repairsRunning := repairsRunning + 1;
      var ids := local.List();
      jobs, done := RepairAll(ids, faults);
      repairsRunning := repairsRunning - 1;
      repairsComplete := repairsComplete + 1;
      ScannedAll(engine.Now(), local.data, ids, jobs);
    }

    /** The loop over the local chunks. */
    method RepairAll(ids: seq<ChunkId>, faults: Faults) returns (ghost jobs: seq<Job>, ghost done: seq<Job>)
      requires Ready() && NoDuplicates(ids)
      modifies engine
      ensures Ready() && Scanned(engine.Now(), local.data, ids, jobs)
      ensures Queued(engine.Now(), faults, old(engine.Trace()), jobs, done, engine.Trace())
    {
      ghost var view, start := engine.Now(), engine.Trace();
      jobs, done := [], [];
      NothingQueued(view, faults, start);
      var i := 0;
      while i < |ids|
        invariant 0 <= i <= |ids| && Ready() && engine.Now() == view
        invariant Scanned(view, local.data, ids[..i], jobs)
        invariant Queued(view, faults, start, jobs, done, engine.Trace())
      {
        PrefixNext(ids, i);
        NotYet(ids, i);
        ScannedNext(view, local.data, ids[..i], jobs, ids[i]);
        ghost var before := engine.Trace();
        ghost var more := RepairOne(ids[i], faults);
        ghost var queued := RepairJobs(view, local.data, ids[i]);
        QueuedTwice(view, faults, start, jobs, done, before, queued, more, engine.Trace());
        done, jobs := done + more, jobs + queued;
        i := i + 1;
      }
      PrefixAll(ids);
    }

    /** Its body. */
    method RepairOne(chunkID: ChunkId, faults: Faults) returns (ghost more: seq<Job>)
      requires Ready()
      modifies engine
      ensures |engine.queue| <= QUEUE_CAPACITY
      ensures Queued(engine.Now(), faults, old(engine.Trace()), RepairJobs(engine.Now(), local.data, chunkID), more,
                     engine.Trace())
    {
      hide WellFormed, Queued, Targets;
      more := [];
      NothingQueued(engine.Now(), faults, engine.Trace());
      var mine := IsMine(chunkID);
      if !mine {
        return;
      }
      var data := local.Get(chunkID);
      if data.None? {
        return;
      }
      more := engine.Enqueue(Job(chunkID, data.value), faults);
    }

    /** Is this node responsible for the chunk now? */
    method IsMine(chunkID: ChunkId) returns (mine: bool)
      requires Ready()
      ensures mine == (selfID in Targets(ring.hashKey, ring.nodes, chunkID, FACTOR))
    {
      hide WellFormed, Targets, Walked;
      var newTargets := ring.GetN(chunkID, FACTOR);
      mine := Contains(newTargets, selfID);
    }

    /** The node is off the ring before the scan starts. */
    method HandleNodeDead(deadNodeID: NodeId, faults: Faults) returns (ghost jobs: seq<Job>, ghost done: seq<Job>)
      requires Ready()
      modifies this, ring, engine
      ensures Ready() && ring.State() == Removed(old(ring.State()), deadNodeID) && ring.nodes == old(ring.nodes) - {deadNodeID}
      ensures forall job :: job in jobs <==> job.chunkID in local.data && local.data[job.chunkID] == job.data
                                             && selfID in Targets(ring.hashKey, ring.nodes, job.chunkID, 3)
      ensures Queued(engine.Now(), faults, old(engine.Trace()), jobs, done, engine.Trace())
    {
      RemovedWellFormed(ring.hashKey, ring.State(), deadNodeID);
      ring.RemoveNode(deadNodeID);
      jobs, done := RepairLocalChunks(faults);
    }

    /** A node that is back becomes eligible for new chunks; nothing is moved to it. */
    method HandleNodeAlive(nodeID: NodeId)
      requires Ready()
      modifies ring
      ensures ring.Valid() && ring.State() == Added(ring.hashKey, old(ring.State()), nodeID)
      ensures ring.nodes == old(ring.nodes) + {nodeID}
    {
      var _ := ring.AddNode(nodeID);
    }

    /**
     A death handled to the end: once the workers have emptied the queue, every chunk held here for
     which this node was responsible before the death has been delivered to every other node that is
     responsible for it now and can be reached.
     */
    method Heal(deadNodeID: NodeId, faults: Faults)
      requires Ready() && deadNodeID != selfID
      modifies this, ring, engine
      ensures Ready() && engine.queue == []
      ensures ring.nodes == old(ring.nodes) - {deadNodeID}
      ensures forall id, t |
                && id in local.data && selfID in Targets(ring.hashKey, old(ring.nodes), id, FACTOR)
                && t in Targets(ring.hashKey, ring.nodes, id, FACTOR)
                && t != selfID && t in engine.membership.peers
                && faults(Job(id, local.data[id]), engine.membership.peers[t].addr) <= engine.maxRetries ::
                  Delivery(engine.membership.peers[t].addr, Job(id, local.data[id])) in engine.received
    {
      ghost var before := ring.State();
      ghost var jobs, done := HandleNodeDead(deadNodeID, faults);
      ghost var view, mid := engine.Now(), engine.Trace();
      engine.Drain(faults);
      forall id, t |
        && id in local.data && selfID in Targets(ring.hashKey, before.nodes, id, FACTOR)
        && t in Targets(ring.hashKey, ring.nodes, id, FACTOR)
        && t != selfID && t in view.peers && faults(Job(id, local.data[id]), view.peers[t].addr) <= view.maxRetries
        ensures Delivery(view.peers[t].addr, Job(id, local.data[id])) in engine.received
      {
        var job := Job(id, local.data[id]);
        HolderStaysTarget(ring.hashKey, before, deadNodeID, id, selfID);
        assert ToRepair(view, local.data, job);
        DeliveriesHave(view, faults, Targets(view.hk, view.nodes, id, FACTOR), job, t);
        QueuedIsDelivered(view, faults, old(engine.Trace()), jobs, done, mid, job, Delivery(view.peers[t].addr, job));
      }
    }
  }

  method Contains(ss: seq<NodeId>, s: NodeId) returns (found: bool)
    ensures found == (s in ss)
  {
    var i := 0;
    while i < |ss|
      invariant 0 <= i <= |ss| && s !in ss[..i]
    {
      PrefixNext(ss, i);
      if ss[i] == s {
        return true;
      }
      i := i + 1;
    }
    PrefixAll(ss);
    found := false;
  }

  lemma NotYet(ids: seq<ChunkId>, i: nat)
    requires NoDuplicates(ids) && i < |ids|
    ensures ids[i] !in ids[..i]
  {}

  /** A chunk to be pushed again: held here with these bytes, and owned here. */
  ghost predicate ToRepair(v: View, store: map<ChunkId, Bytes>, job: Job) {
    job.chunkID in store && store[job.chunkID] == job.data && v.self in Targets(v.hk, v.nodes, job.chunkID, FACTOR)
  }

  ghost function RepairJobs(v: View, store: map<ChunkId, Bytes>, id: ChunkId): seq<Job> {
    if id in store && v.self in Targets(v.hk, v.nodes, id, FACTOR) then [Job(id, store[id])] else []
  }

  /** The jobs found in the part of the scan done so far. */
  ghost predicate Scanned(v: View, store: map<ChunkId, Bytes>, ids: seq<ChunkId>, jobs: seq<Job>) {
    NoDuplicates(jobs) && forall job :: job in jobs <==> job.chunkID in ids && ToRepair(v, store, job)
  }

  lemma ScannedAll(v: View, store: map<ChunkId, Bytes>, ids: seq<ChunkId>, jobs: seq<Job>)
    requires Scanned(v, store, ids, jobs) && Elements(ids) == store.Keys
    ensures forall job :: job in jobs <==> ToRepair(v, store, job)
  {
    assert forall id :: id in ids <==> id in Elements(ids);
  }

  lemma ScannedNext(v: View, store: map<ChunkId, Bytes>, ids: seq<ChunkId>, jobs: seq<Job>, id: ChunkId)
    requires Scanned(v, store, ids, jobs) && id !in ids
    ensures Scanned(v, store, ids + [id], jobs + RepairJobs(v, store, id))
  {
    var more, all := RepairJobs(v, store, id), ids + [id];
    assert forall x :: x in all <==> x in ids || x == id;
    assert forall job :: job in jobs + more <==> job in jobs || job in more;
  }

  lemma QueuedTwice(v: View, faults: Faults, a: Trace, jobs: seq<Job>, done: seq<Job>, b: Trace,
                    jobs': seq<Job>, done': seq<Job>, c: Trace)
    requires Queued(v, faults, a, jobs, done, b) && Queued(v, faults, b, jobs', done', c)
    ensures Queued(v, faults, a, jobs + jobs', done + done', c)
  {
    DeliveriesOfAllAppend(v, done, done', faults);
    AppendAssoc(a.received, DeliveriesOfAll(v, done, faults), DeliveriesOfAll(v, done', faults));
    AppendAssoc(a.processed, done, done');
    AppendAssoc(done, done', c.queue);
    AppendAssoc(done, b.queue, jobs');
    AppendAssoc(a.queue, jobs, jobs');
  }

  /** Once the queue has been worked off as well, what was sent has been delivered. */
  lemma QueuedIsDelivered(v: View, faults: Faults, from: Trace, jobs: seq<Job>, done: seq<Job>, to: Trace, job: Job,
                          d: Delivery)
    requires Queued(v, faults, from, jobs, done, to) && job in jobs && d in DeliveriesOf(v, job, faults)
    ensures d in to.received + DeliveriesOfAll(v, to.queue, faults)
  {
    assert job in from.queue + jobs;
    if job in done {
      DeliveriesOfAllHas(v, done, job, faults, d);
    } else {
      DeliveriesOfAllHas(v, to.queue, job, faults, d);
    }
  }

  lemma {:induction false} DeliveriesOfAllAppend(v: View, one: seq<Job>, two: seq<Job>, faults: Faults)
    ensures DeliveriesOfAll(v, one + two, faults) == DeliveriesOfAll(v, one, faults) + DeliveriesOfAll(v, two, faults)
    decreases |two|
  {
    if two == [] {
      assert one + two == one;
    } else {
      var init, last := two[..|two| - 1], two[|two| - 1];
      PrefixNext(two, |two| - 1);
      PrefixAll(two);
      AppendAssoc(one, init, [last]);
      DeliveriesOfAllAppend(v, one, init, faults);
      DeliveriesOfAllNext(v, one + init, last, faults);
      DeliveriesOfAllNext(v, init, last, faults);
      AppendAssoc(DeliveriesOfAll(v, one, faults), DeliveriesOfAll(v, init, faults), DeliveriesOf(v, last, faults));
    }
  }

  lemma {:induction false} DeliveriesHave(v: View, faults: Faults, targets: seq<NodeId>, job: Job, t: NodeId)
    requires t in targets && Reached(v, faults, t, job)
    ensures Delivery(v.peers[t].addr, job) in Deliveries(v, faults, targets, job)
    decreases |targets|
  {
    var init := targets[..|targets| - 1];
    PrefixNext(targets, |targets| - 1);
    PrefixAll(targets);
    if t in init {
      DeliveriesHave(v, faults, init, job, t);
    }
  }

  /** Losing another node never makes a holder take the "no longer an owner" branch of the scan. */
  lemma HolderStaysTarget(hk: KeyHash, st: RingState, dead: NodeId, key: string, self: NodeId)
    requires WellFormed(hk, st) && dead != self && self in Targets(hk, st.nodes, key, FACTOR)
    ensures self in Targets(hk, Removed(st, dead).nodes, key, FACTOR)
  {
    WellFormedDistances(hk, st, key);
    TargetsOnRing(hk, st.nodes, key, FACTOR);
    SurvivorStays(ByDistance(hk, key), st.nodes, Removed(st, dead).nodes, FACTOR, self);
  }
}
