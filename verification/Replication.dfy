/**
 The replication engine in sequential form: the queue, the retry loop and the delivery of a job to the
 targets found when the job is processed. The network is described by how many attempts to reach an
 address fail before one succeeds; the interleavings of workers are treated in `WorkerPool` and `Cluster`.
 */
module Replication {
  import opened HashRing
  import opened Lists
  import M = Membership
  import opened Placement
  import opened Preference
  import opened RingStates
  import opened WorkerPool

  const MAX_RETRIES: nat := 5
  const RETRY_BASE: nat := 200_000_000

  /** A successful call of the transport. */
  datatype Delivery = Delivery(addr: string, job: Job)

  /** How many attempts to push this job to this address fail before the first success. */
  type Faults = (Job, string) -> nat

  function Pow2(n: nat): (p: nat)
    ensures p >= 1
  {
    if n == 0 then 1 else 2 * Pow2(n - 1)
  }

  /** The time slept after one to six attempts. */
  lemma FirstWaits(base: nat)
    ensures base * (Pow2(1 - 1) - 1) == 0 && base * (Pow2(2 - 1) - 1) == base
    ensures base * (Pow2(3 - 1) - 1) == 3 * base && base * (Pow2(4 - 1) - 1) == 7 * base
    ensures base * (Pow2(5 - 1) - 1) == 15 * base && base * (Pow2(6 - 1) - 1) == 31 * base
  {
    assert Pow2(0) == 1 && Pow2(1) == 2 && Pow2(2) == 4 && Pow2(3) == 8 && Pow2(4) == 16 && Pow2(5) == 32;
  }

  function Times(n: nat, k: nat): nat {
    if n == 0 then 0 else Times(n - 1, k) + k
  }

  lemma AtMostFactor(n: nat, k: nat)
    ensures n <= FACTOR ==> Times(n, k) <= FACTOR * k
  {
    assert Times(3, k) == Times(2, k) + k && Times(2, k) == Times(1, k) + k;
  }

  class Engine {
    const ring: Ring
    const membership: M.Membership
    const selfID: NodeId
    const maxRetries: nat
    const retryBase: nat
    var queue: seq<Job>
    // What the engine has done so far: jobs processed, calls that succeeded, all calls, time slept.
    var processed: seq<Job>
    var received: seq<Delivery>
    var calls: nat
    var waited: nat

    constructor (ring: Ring, membership: M.Membership, selfID: NodeId)
      ensures this.ring == ring && this.membership == membership && this.selfID == selfID
      ensures maxRetries == 5 && retryBase == 200_000_000
      ensures queue == [] && processed == [] && received == [] && calls == 0 && waited == 0
    {
      this.ring, this.membership, this.selfID := ring, membership, selfID;
      maxRetries, retryBase := MAX_RETRIES, RETRY_BASE;
      queue, processed, received, calls, waited := [], [], [], 0, 0;
    }

    /** The engine may run on this ring: its array is sorted and nothing has collided. */
    ghost predicate Ready()
      reads this, ring
    {
      ring.Valid() && WellFormed(ring.hashKey, ring.State())
    }

    function Now(): View
      reads this, ring, membership
    {
      View(ring.hashKey, ring.nodes, membership.peers, selfID, maxRetries)
    }

    function Trace(): Trace
      reads this
    {
      EngineTrace(queue, processed, received)
    }

    /**
     Attempt number a reaches the peer iff `succeeds(a)`; the context is cancelled during the wait
     before attempt a iff `cancelled(a)`.
     */
    method PushWithRetry(addr: string, job: Job, succeeds: nat -> bool, cancelled: nat -> bool)
      returns (delivered: bool, attempts: nat)
      modifies this`received, this`calls, this`waited
      ensures Outcome(maxRetries, succeeds, cancelled, delivered, attempts)
      ensures calls == old(calls) + attempts
      ensures waited == old(waited) + retryBase * (Pow2(attempts - 1) - 1)
      ensures received == old(received) + if delivered then [Delivery(addr, job)] else []
    {
      delivered, attempts := false, 0;
      while attempts <= maxRetries
        invariant attempts <= maxRetries + 1 && received == old(received) && calls == old(calls) + attempts
        invariant forall a | 0 <= a < attempts :: !succeeds(a)
        invariant forall a | 1 <= a < attempts :: !cancelled(a)
        invariant waited == old(waited) + retryBase * (Pow2(if attempts == 0 then 0 else attempts - 1) - 1)
      {
        if attempts > 0 {
          var backoff := retryBase * Pow2(attempts - 1);
          if cancelled(attempts) {
            return;
          }
          assert retryBase * (Pow2(attempts) - 1) == retryBase * (Pow2(attempts - 1) - 1) + backoff;
          waited := waited + backoff;
        }
        calls := calls + 1;
        attempts := attempts + 1;
        if succeeds(attempts - 1) {
          received := received + [Delivery(addr, job)];
          delivered := true;
          return;
        }
      }
    }

    /** Without cancellation. The ring is read now, not when the job was queued. */
    method Replicate(job: Job, faults: Faults)
      requires Ready()
      modifies this`received, this`calls, this`waited
      ensures received == old(received) + DeliveriesOf(Now(), job, faults)
      ensures calls <= old(calls) + 3 * (maxRetries + 1)
      ensures old(received) <= received
      ensures forall d | d in received[|old(received)|..] ::
                exists t :: t in Targets(ring.hashKey, ring.nodes, job.chunkID, 3) && t != selfID && t in membership.peers
                            && faults(job, membership.peers[t].addr) <= maxRetries
                            && d.addr == membership.peers[t].addr && d.job == job
      ensures forall t |
                && t in Targets(ring.hashKey, ring.nodes, job.chunkID, 3) && t != selfID && t in membership.peers
                && faults(job, membership.peers[t].addr) <= maxRetries
                && (forall u | u in Targets(ring.hashKey, ring.nodes, job.chunkID, 3) && u in membership.peers
                               && membership.peers[u].addr == membership.peers[t].addr :: u == t) ::
                  Count(received[|old(received)|..], Delivery(membership.peers[t].addr, job)) == 1
    {
      hide Walked, WellFormed, Targets;
      var targets := ring.GetN(job.chunkID, FACTOR);
      PushToAll(targets, job, faults);
      ghost var view := Now();
      AppendedPart(old(received), DeliveriesOf(view, job, faults));
      DeliveriesMean(view, faults, targets, job);
    }

    /** The loop over the targets. */
    method PushToAll(targets: seq<NodeId>, job: Job, faults: Faults)
      modifies this`received, this`calls, this`waited
      ensures received == old(received) + Deliveries(Now(), faults, targets, job)
      ensures |targets| <= FACTOR ==> calls <= old(calls) + FACTOR * (maxRetries + 1)
    {
      ghost var view := Now();
      var i := 0;
      while i < |targets|
        invariant 0 <= i <= |targets|
        invariant received == old(received) + Deliveries(view, faults, targets[..i], job)
        invariant calls <= old(calls) + Times(i, maxRetries + 1)
      {
        DeliveriesNext(view, faults, targets, i, job);
        AppendAssoc(old(received), Deliveries(view, faults, targets[..i], job), DeliveriesTo(view, faults, targets[i], job));
        PushTo(targets[i], job, faults);
        i := i + 1;
      }
      PrefixAll(targets);
      AtMostFactor(i, maxRetries + 1);
    }

    /** Its body. */
    method PushTo(node: NodeId, job: Job, faults: Faults)
      modifies this`received, this`calls, this`waited
      ensures received == old(received) + DeliveriesTo(Now(), faults, node, job)
      ensures received == old(received)
                          + if node != selfID && node in membership.peers
                               && faults(job, membership.peers[node].addr) <= maxRetries
                            then [Delivery(membership.peers[node].addr, job)] else []
      ensures calls <= old(calls) + maxRetries + 1
    {
      if node == selfID {
        return;
      }
      var addr, ok := membership.AddrFor(node);
      if !ok {
        return;
      }
      var f := faults(job, addr);
      var delivered, attempts := PushWithRetry(addr, job, a => a >= f, _ => false);
      RetryArithmetic(maxRetries, f, delivered, attempts);
    }

    /** The body of a worker's loop: the oldest job is taken and processed. */
    method ProcessNext(faults: Faults)
      requires Ready() && queue != []
      modifies this
      ensures queue == old(queue)[1..] && processed == old(processed) + [old(queue)[0]]
      ensures received == old(received) + DeliveriesOf(Now(), old(queue)[0], faults)
    {
      var job := queue[0];
      queue := queue[1..];
      Replicate(job, faults);
      processed := processed + [job];
    }

    /** Sending on a full channel waits for a worker to take a job first. Nothing is ever dropped. */
    method Enqueue(job: Job, faults: Faults) returns (ghost done: seq<Job>)
      requires Ready() && |queue| <= QUEUE_CAPACITY
      modifies this
      ensures |queue| <= QUEUE_CAPACITY
      ensures done + queue == old(queue) + [job] && |done| == if |old(queue)| == 1024 then 1 else 0
      ensures processed == old(processed) + done
      ensures Queued(Now(), faults, old(Trace()), [job], done, Trace())
    {
      hide Queued, WellFormed, DeliveriesOf;
      ghost var view, from := Now(), Trace();
      done := [];
      NothingQueued(view, faults, from);
      if |queue| == QUEUE_CAPACITY {
        done := [queue[0]];
        ProcessNext(faults);
        OneProcessed(view, faults, from, Trace());
      }
      OneSent(view, faults, from, done, Trace(), job);
      queue := queue + [job];
    }

    /** A worker runs until the queue is empty. */
    method Drain(faults: Faults)
      requires Ready()
      modifies this
      ensures queue == [] && processed == old(processed) + old(queue)
      ensures received == old(received) + DeliveriesOfAll(Now(), old(queue), faults)
    {
      ghost var jobs, view := queue, Now();
      ghost var i := 0;
      while queue != []
        invariant 0 <= i <= |jobs| && queue == jobs[i..]
        invariant processed == old(processed) + jobs[..i]
        invariant received == old(received) + DeliveriesOfAll(view, jobs[..i], faults)
        decreases |queue|
      {
        PrefixNext(jobs, i);
        SuffixNext(jobs, i);
        DeliveriesOfAllNext(view, jobs[..i], jobs[i], faults);
        AppendAssoc(old(processed), jobs[..i], [jobs[i]]);
        AppendAssoc(old(received), DeliveriesOfAll(view, jobs[..i], faults), DeliveriesOf(view, jobs[i], faults));
        ProcessNext(faults);
        i := i + 1;
      }
      PrefixAll(jobs);
    }
  }

  /** What the engine has to do and has done at one moment. */
  datatype Trace = EngineTrace(queue: seq<Job>, processed: seq<Job>, received: seq<Delivery>)

  /** What the engine sees at one moment: the ring, the known addresses, and its own settings. */
  datatype View = View(hk: KeyHash, nodes: set<NodeId>, peers: map<NodeId, M.Peer>, self: NodeId, maxRetries: nat)

  /** What processing a job delivers. */
  ghost function DeliveriesOf(v: View, job: Job, faults: Faults): seq<Delivery> {
    Deliveries(v, faults, Targets(v.hk, v.nodes, job.chunkID, FACTOR), job)
  }

  ghost function DeliveriesOfAll(v: View, jobs: seq<Job>, faults: Faults): seq<Delivery> {
    if jobs == [] then [] else
      DeliveriesOfAll(v, jobs[..|jobs| - 1], faults) + DeliveriesOf(v, jobs[|jobs| - 1], faults)
  }

  /**
   From one moment to a later one: `jobs` have been sent, in this order, and of what was queued then or
   sent since, `done` have been processed and delivered.
   */
  ghost predicate Queued(v: View, faults: Faults, from: Trace, jobs: seq<Job>, done: seq<Job>, to: Trace) {
    && done + to.queue == from.queue + jobs
    && to.processed == from.processed + done
    && to.received == from.received + DeliveriesOfAll(v, done, faults)
  }

  lemma QueuedCounts(v: View, faults: Faults, from: Trace, jobs: seq<Job>, done: seq<Job>, to: Trace)
    requires Queued(v, faults, from, jobs, done, to)
    ensures done + to.queue == from.queue + jobs && to.processed == from.processed + done
  {}

  lemma NothingQueued(v: View, faults: Faults, t: Trace)
    ensures Queued(v, faults, t, [], [], t)
  {
    assert [] + t.queue == t.queue + [];
    assert t.processed == t.processed + [] && t.received == t.received + [];
  }

  lemma OneProcessed(v: View, faults: Faults, from: Trace, to: Trace)
    requires from.queue != [] && to.queue == from.queue[1..] && to.processed == from.processed + [from.queue[0]]
    requires to.received == from.received + DeliveriesOf(v, from.queue[0], faults)
    ensures Queued(v, faults, from, [], [from.queue[0]], to)
  {
    hide DeliveriesOf;
    HeadTail(from.queue);
    AppendNothing(from.queue);
    DeliveriesOfOne(v, from.queue[0], faults);
  }

  lemma OneSent(v: View, faults: Faults, from: Trace, done: seq<Job>, to: Trace, job: Job)
    requires Queued(v, faults, from, [], done, to)
    ensures Queued(v, faults, from, [job], done, to.(queue := to.queue + [job]))
  {
    AppendAssoc(done, to.queue, [job]);
    AppendNothing(from.queue);
  }

  lemma DeliveriesOfAllNext(v: View, jobs: seq<Job>, job: Job, faults: Faults)
    ensures DeliveriesOfAll(v, jobs + [job], faults) == DeliveriesOfAll(v, jobs, faults) + DeliveriesOf(v, job, faults)
  {
    assert (jobs + [job])[..|jobs|] == jobs;
  }

  lemma DeliveriesOfOne(v: View, job: Job, faults: Faults)
    ensures DeliveriesOfAll(v, [job], faults) == DeliveriesOf(v, job, faults)
  {
    DeliveriesOfAllNext(v, [], job, faults);
    assert [] + [job] == [job];
  }

  lemma {:induction false} DeliveriesOfAllHas(v: View, jobs: seq<Job>, job: Job, faults: Faults, d: Delivery)
    requires job in jobs && d in DeliveriesOf(v, job, faults)
    ensures d in DeliveriesOfAll(v, jobs, faults)
  {
    var init, last := jobs[..|jobs| - 1], jobs[|jobs| - 1];
    PrefixNext(jobs, |jobs| - 1);
    PrefixAll(jobs);
    if job in init {
      DeliveriesOfAllHas(v, init, job, faults, d);
    }
  }

  /** What the retry loop may answer, given which attempts would succeed and which waits are cut short. */
  ghost predicate Outcome(maxRetries: nat, succeeds: nat -> bool, cancelled: nat -> bool, delivered: bool, attempts: nat) {
    && 1 <= attempts <= maxRetries + 1
    && (forall a | 0 <= a < attempts - 1 :: !succeeds(a))
    && (forall a | 1 <= a < attempts :: !cancelled(a))
    && (delivered <==> succeeds(attempts - 1))
    && (!delivered ==> attempts == maxRetries + 1 || cancelled(attempts))
  }

  /** With the first f attempts failing and no cancellation: delivered iff f <= maxRetries, after min(f, maxRetries) + 1 attempts. */
  lemma RetryArithmetic(maxRetries: nat, f: nat, delivered: bool, attempts: nat)
    requires Outcome(maxRetries, a => a >= f, _ => false, delivered, attempts)
    ensures delivered <==> f <= maxRetries
    ensures attempts == Min(f, maxRetries) + 1
  {
    var succeeds: nat -> bool := a => a >= f;
    assert succeeds(f);
    assert succeeds(attempts - 1) <==> attempts - 1 >= f;
  }

  /** Under a context that is already cancelled there is one attempt, and it decides: the first wait is the end. */
  lemma CancelledGivesUp(maxRetries: nat, succeeds: nat -> bool, cancelled: nat -> bool, delivered: bool, attempts: nat)
    requires Outcome(maxRetries, succeeds, cancelled, delivered, attempts) && forall a :: cancelled(a)
    ensures attempts == 1 && (delivered <==> succeeds(0))
  {
    assert cancelled(1);
  }

  /** The deliveries of one job to a list of targets: the reachable ones other than the node itself, in order. */
  function Deliveries(v: View, faults: Faults, targets: seq<NodeId>, job: Job): seq<Delivery> {
    if targets == [] then [] else
      var init, t := targets[..|targets| - 1], targets[|targets| - 1];
      Deliveries(v, faults, init, job) + DeliveriesTo(v, faults, t, job)
  }

  function DeliveriesTo(v: View, faults: Faults, t: NodeId, job: Job): seq<Delivery> {
    if Reached(v, faults, t, job) then [Delivery(v.peers[t].addr, job)] else []
  }

  predicate Reached(v: View, faults: Faults, t: NodeId, job: Job) {
    t != v.self && t in v.peers && faults(job, v.peers[t].addr) <= v.maxRetries
  }

  lemma DeliveriesNext(v: View, faults: Faults, targets: seq<NodeId>, i: nat, job: Job)
    requires i < |targets|
    ensures Deliveries(v, faults, targets[..i + 1], job)
         == Deliveries(v, faults, targets[..i], job) + DeliveriesTo(v, faults, targets[i], job)
  {
    assert targets[..i + 1][..i] == targets[..i];
  }

  /**
   Each target other than the node itself that is known and answers one of the attempts is delivered to
   exactly once, whatever the detector thinks of it, and nobody else is, provided different targets have
   different addresses.
   */
  lemma {:induction false} DeliveredExactlyOnce(v: View, faults: Faults, targets: seq<NodeId>, job: Job, t: NodeId)
    requires NoDuplicates(targets) && t in v.peers
    requires forall u | u in targets && u in v.peers && v.peers[u].addr == v.peers[t].addr :: u == t
    ensures Count(Deliveries(v, faults, targets, job), Delivery(v.peers[t].addr, job))
         == if t in targets && t != v.self && faults(job, v.peers[t].addr) <= v.maxRetries then 1 else 0
  {
    if targets != [] {
      var init, last := targets[..|targets| - 1], targets[|targets| - 1];
      assert targets == init + [last];
      DeliveredExactlyOnce(v, faults, init, job, t);
      CountAppend(Deliveries(v, faults, init, job), DeliveriesTo(v, faults, last, job), Delivery(v.peers[t].addr, job));
      assert last !in init;
    }
  }

  lemma {:induction false} DeliveredOnlyTo(v: View, faults: Faults, targets: seq<NodeId>, job: Job, d: Delivery)
    requires d in Deliveries(v, faults, targets, job)
    ensures d.job == job
    ensures exists t :: t in targets && t != v.self && t in v.peers && faults(job, v.peers[t].addr) <= v.maxRetries
                        && d.addr == v.peers[t].addr
  {
    var init, last := targets[..|targets| - 1], targets[|targets| - 1];
    if d in Deliveries(v, faults, init, job) {
      DeliveredOnlyTo(v, faults, init, job, d);
      var t :| t in init && t != v.self && t in v.peers && faults(job, v.peers[t].addr) <= v.maxRetries
               && d.addr == v.peers[t].addr;
      assert t in targets;
    } else {
      assert last in targets && d in DeliveriesTo(v, faults, last, job);
    }
  }

  /** What a list of deliveries contains, written out. */
  lemma DeliveriesMean(v: View, faults: Faults, targets: seq<NodeId>, job: Job)
    requires NoDuplicates(targets)
    ensures forall d | d in Deliveries(v, faults, targets, job) ::
              exists t :: t in targets && t != v.self && t in v.peers && faults(job, v.peers[t].addr) <= v.maxRetries
                          && d.addr == v.peers[t].addr && d.job == job
    ensures forall t |
              && t in targets && t != v.self && t in v.peers && faults(job, v.peers[t].addr) <= v.maxRetries
              && (forall u | u in targets && u in v.peers && v.peers[u].addr == v.peers[t].addr :: u == t) ::
                Count(Deliveries(v, faults, targets, job), Delivery(v.peers[t].addr, job)) == 1
  {
    hide Deliveries, NoDuplicates;
    forall d | d in Deliveries(v, faults, targets, job)
      ensures exists t :: t in targets && t != v.self && t in v.peers && faults(job, v.peers[t].addr) <= v.maxRetries
                          && d.addr == v.peers[t].addr && d.job == job
    {
      DeliveredOnlyTo(v, faults, targets, job, d);
    }
    forall t | t in targets && t != v.self && t in v.peers && faults(job, v.peers[t].addr) <= v.maxRetries
               && (forall u | u in targets && u in v.peers && v.peers[u].addr == v.peers[t].addr :: u == t)
      ensures Count(Deliveries(v, faults, targets, job), Delivery(v.peers[t].addr, job)) == 1
    {
      DeliveredExactlyOnce(v, faults, targets, job, t);
    }
  }

  lemma AppendedPart(before: seq<Delivery>, more: seq<Delivery>)
    ensures before <= before + more && (before + more)[|before|..] == more
  {}
}
