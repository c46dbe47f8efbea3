/**
 Uploads accepted by a node that need not be responsible for what it accepts: when the copies arrive, and
 exactly when a death in the middle of it leaves one of them missing.
 */
module Uploads {
  import opened Chunks
  import opened Cluster
  import opened Lists
  import opened Placement
  import opened Preference
  import opened Progress
  import opened RingStates
  import W = WorkerPool

  // ---------------------------------------------------------------------------------------------
  // A job reaches the nodes that were responsible when it was taken
  // ---------------------------------------------------------------------------------------------

  ghost predicate AllHold(sys: System, id: ChunkId, ts: set<NodeId>) {
    forall t | t in ts :: Holds(sys, t, id)
  }

  /** When the job is through, these nodes will all have the chunk. */
  ghost predicate Reaches(sys: System, id: ChunkId, ts: set<NodeId>, push: Push) {
    push.job.chunkID == id && forall t | t in ts :: Holds(sys, t, id) || t in push.todo
  }

  /** These nodes have the chunk, or are about to get it from `s`. */
  ghost predicate Underway(sys: System, s: NodeId, id: ChunkId, ts: set<NodeId>) {
    && s in sys
    && (AllHold(sys, id, ts) || exists k :: k in sys[s].inFlight && Reaches(sys, id, ts, sys[s].inFlight[k]))
  }

  /** The step does not make node `s` forget or give up pushing the chunk to one of these nodes. */
  ghost predicate Persistent(sys: System, s: NodeId, id: ChunkId, ts: set<NodeId>, step: Step) {
    step.node == s && step.Acts? && s in sys ==>
      && !step.act.Restart?
      && (step.act.GiveUpPush? ==>
            var k := step.act.k;
            k in sys[s].inFlight && sys[s].inFlight[k].todo != [] && sys[s].inFlight[k].job.chunkID == id ==>
              sys[s].inFlight[k].todo[0] !in ts)
  }

  ghost predicate PersistentRun(cfg: Config, sys: System, steps: seq<Step>, s: NodeId, id: ChunkId, ts: set<NodeId>)
    decreases |steps|
  {
    steps != [] ==>
      && Enabled(cfg, sys, steps[0]) && Persistent(sys, s, id, ts, steps[0])
      && PersistentRun(cfg, Next(cfg, sys, steps[0]), steps[1..], s, id, ts)
  }

  /** A push that is not touched, while the stores grow. */
  lemma UnderwayCarriesOver(sys: System, sys': System, s: NodeId, id: ChunkId, ts: set<NodeId>, except: set<nat>)
    requires Underway(sys, s, id, ts) && s in sys'
    requires forall t | Holds(sys, t, id) :: Holds(sys', t, id)
    requires forall k | k in sys[s].inFlight && k !in except ::
               k in sys'[s].inFlight && sys'[s].inFlight[k] == sys[s].inFlight[k]
    requires forall k | k in except && k in sys[s].inFlight :: !Reaches(sys, id, ts, sys[s].inFlight[k])
    ensures Underway(sys', s, id, ts)
  {
    if !AllHold(sys, id, ts) {
      var k :| k in sys[s].inFlight && Reaches(sys, id, ts, sys[s].inFlight[k]);
      assert Reaches(sys', id, ts, sys'[s].inFlight[k]);
    }
  }

  lemma ReachesOn(sys: System, sys': System, id: ChunkId, ts: set<NodeId>, push: Push)
    requires Reaches(sys, id, ts, push) && push.todo != []
    requires forall t | Holds(sys, t, id) :: Holds(sys', t, id)
    requires Holds(sys', push.todo[0], id) || push.todo[0] !in ts
    ensures Reaches(sys', id, ts, push.(todo := push.todo[1..]))
  {
    HeadTail(push.todo);
  }

  lemma TargetDoneUnderway(sys: System, sys': System, s: NodeId, id: ChunkId, ts: set<NodeId>, k: nat)
    requires Underway(sys, s, id, ts) && s in sys'
    requires k in sys[s].inFlight && sys[s].inFlight[k].todo != [] && sys'[s].inFlight == Sent(sys[s], k).inFlight
    requires forall t | Holds(sys, t, id) :: Holds(sys', t, id)
    requires var push := sys[s].inFlight[k];
             push.job.chunkID == id ==> Holds(sys', push.todo[0], id) || push.todo[0] !in ts
    ensures Underway(sys', s, id, ts)
  {
    if Reaches(sys, id, ts, sys[s].inFlight[k]) {
      ReachesOn(sys, sys', id, ts, sys[s].inFlight[k]);
      assert k in sys'[s].inFlight;
    } else {
      UnderwayCarriesOver(sys, sys', s, id, ts, {k});
    }
  }

  lemma EndJobUnderway(sys: System, sys': System, s: NodeId, id: ChunkId, ts: set<NodeId>, k: nat)
    requires Underway(sys, s, id, ts) && s in sys'
    requires k in sys[s].inFlight && sys[s].inFlight[k].todo == [] && sys'[s].inFlight == sys[s].inFlight - {k}
    requires forall t | Holds(sys, t, id) :: Holds(sys', t, id)
    ensures Underway(sys', s, id, ts)
  {
    if !Reaches(sys, id, ts, sys[s].inFlight[k]) {
      UnderwayCarriesOver(sys, sys', s, id, ts, {k});
    }
  }

  lemma StepKeepsUnderway(cfg: Config, sys: System, step: Step, s: NodeId, id: ChunkId, ts: set<NodeId>)
    requires Underway(sys, s, id, ts) && Enabled(cfg, sys, step) && Persistent(sys, s, id, ts, step)
    ensures Underway(Next(cfg, sys, step), s, id, ts)
  {
    var sys' := Next(cfg, sys, step);
    AllStoresGrow(cfg, sys, step, id);
    if step.node != s {
      UnderwayCarriesOver(sys, sys', s, id, ts, {});
    } else if step.PushArrives? {
      PushArrivesSends(cfg, sys, s, step.k);
      TargetDoneUnderway(sys, sys', s, id, ts, step.k);
    } else if step.act.GiveUpPush? {
      TargetDoneUnderway(sys, sys', s, id, ts, step.act.k);
    } else if step.act.EndJob? {
      EndJobUnderway(sys, sys', s, id, ts, step.act.k);
    } else {
      OtherActsKeepPushes(cfg, s, sys[s], step.act);
      UnderwayCarriesOver(sys, sys', s, id, ts, {});
    }
  }

  lemma PushArrivesSends(cfg: Config, sys: System, s: NodeId, k: nat)
    requires Enabled(cfg, sys, PushArrives(s, k))
    ensures var sys' := Next(cfg, sys, PushArrives(s, k));
            && sys'[s].inFlight == Sent(sys[s], k).inFlight
            && Holds(sys', sys[s].inFlight[k].todo[0], sys[s].inFlight[k].job.chunkID)
  {}

  lemma OtherActsKeepPushes(cfg: Config, self: NodeId, nd: Node, a: Act)
    requires CanAct(self, nd, a) && !a.GiveUpPush? && !a.EndJob? && !a.Restart?
    ensures forall k | k in nd.inFlight ::
              k in Acted(cfg, self, nd, a).inFlight && Acted(cfg, self, nd, a).inFlight[k] == nd.inFlight[k]
  {}

  lemma {:induction false} RunKeepsUnderway(cfg: Config, sys: System, steps: seq<Step>, end: System, s: NodeId, id: ChunkId,
                                            ts: set<NodeId>)
    requires Underway(sys, s, id, ts) && Run(cfg, sys, steps, end) && PersistentRun(cfg, sys, steps, s, id, ts)
    ensures Underway(end, s, id, ts)
    decreases |steps|
  {
    if steps != [] {
      StepKeepsUnderway(cfg, sys, steps[0], s, id, ts);
      RunKeepsUnderway(cfg, Next(cfg, sys, steps[0]), steps[1..], end, s, id, ts);
    }
  }

  /** Those the job has to reach: the owners that are not gone, other than the node itself. */
  function Receivers(owners: seq<NodeId>, s: NodeId, gone: set<NodeId>): set<NodeId> {
    Elements(owners) - {s} - gone
  }

  lemma TakenIsUnderway(cfg: Config, sys: System, s: NodeId, k: nat, owners: seq<NodeId>, gone: set<NodeId>)
    requires Enabled(cfg, sys, Acts(s, TakeJob(k, owners)))
    ensures Underway(Next(cfg, sys, Acts(s, TakeJob(k, owners))), s, sys[s].queue[0].chunkID, Receivers(owners, s, gone))
  {
    var sys' := Next(cfg, sys, Acts(s, TakeJob(k, owners)));
    forall t | t in Receivers(owners, s, gone) ensures t in Delete(owners, s) {
      DeleteOthers(owners, s, t);
    }
    assert Reaches(sys', sys[s].queue[0].chunkID, Receivers(owners, s, gone), sys'[s].inFlight[k]);
  }

  /**
   A job taken by any node, responsible or not, has reached every other node responsible at that moment
   when it is through, whatever happens to the ring meanwhile. If the ring is the same at the end, the
   chunk is then fully replicated exactly when the node itself is not responsible for it or has it.
   */
  lemma TakenJobConverges(cfg: Config, sys: System, s: NodeId, k: nat, owners: seq<NodeId>, steps: seq<Step>, end: System,
                          gone: set<NodeId>)
    requires Enabled(cfg, sys, Acts(s, TakeJob(k, owners)))
    requires Run(cfg, Next(cfg, sys, Acts(s, TakeJob(k, owners))), steps, end)
    requires PersistentRun(cfg, Next(cfg, sys, Acts(s, TakeJob(k, owners))), steps, s, sys[s].queue[0].chunkID,
                           Receivers(owners, s, gone))
    requires s in end && forall j | j in end[s].inFlight :: end[s].inFlight[j].job.chunkID != sys[s].queue[0].chunkID
    ensures var id := sys[s].queue[0].chunkID;
            forall t | t in Targets(cfg.hk, sys[s].ring, id, 3) && t != s && t !in gone :: t in end && id in end[t].store
    ensures var id := sys[s].queue[0].chunkID;
            end[s].ring == sys[s].ring ==>
              ((forall t | t in Targets(cfg.hk, end[s].ring, id, 3) && t !in gone :: t in end && id in end[t].store)
               <==> s !in Targets(cfg.hk, end[s].ring, id, 3) || s in gone || id in end[s].store)
  {
    hide Targets;
    var id := sys[s].queue[0].chunkID;
    TakenIsUnderway(cfg, sys, s, k, owners, gone);
    RunKeepsUnderway(cfg, Next(cfg, sys, Acts(s, TakeJob(k, owners))), steps, end, s, id, Receivers(owners, s, gone));
    ReceiversReplicate(cfg, end, s, id, owners, gone);
  }

  lemma ReceiversReplicate(cfg: Config, end: System, s: NodeId, id: ChunkId, owners: seq<NodeId>, gone: set<NodeId>)
    requires s in end && AllHold(end, id, Receivers(owners, s, gone))
    ensures forall t | t in owners && t != s && t !in gone :: Holds(end, t, id)
    ensures Owners(cfg, end[s], id) == owners ==>
              (Replicated(cfg, end, s, id, gone) <==> s !in owners || s in gone || Holds(end, s, id))
  {
    hide Targets;
    forall t | t in owners && t != s && t !in gone ensures Holds(end, t, id) {
      assert t in Receivers(owners, s, gone);
    }
  }

  // ---------------------------------------------------------------------------------------------
  // From the queue on, while the ring stays
  // ---------------------------------------------------------------------------------------------

  /** A persistent run in which the node's ring does not change. */
  ghost predicate SteadyRun(cfg: Config, sys: System, steps: seq<Step>, s: NodeId, id: ChunkId, ts: set<NodeId>)
    decreases |steps|
  {
    steps != [] ==>
      && Enabled(cfg, sys, steps[0]) && Persistent(sys, s, id, ts, steps[0])
      && s in sys && Next(cfg, sys, steps[0])[s].ring == sys[s].ring
      && SteadyRun(cfg, Next(cfg, sys, steps[0]), steps[1..], s, id, ts)
  }

  /** The job for the chunk is queued, or on its way to these nodes. */
  ghost predicate Assigned(sys: System, s: NodeId, id: ChunkId, ts: set<NodeId>) {
    s in sys && (QueueCovers(sys[s], id) || Underway(sys, s, id, ts))
  }

  lemma ActKeepsQueued(cfg: Config, self: NodeId, nd: Node, a: Act, job: W.Job)
    requires CanAct(self, nd, a) && job in nd.queue && !a.Restart? && (a.TakeJob? ==> nd.queue[0] != job)
    ensures job in Acted(cfg, self, nd, a).queue
  {
    hide Pieces, Numbered, ManifestOf, Delete;
    HeadTail(nd.queue);
  }

  lemma StaysQueued(cfg: Config, sys: System, step: Step, s: NodeId, id: ChunkId)
    requires Enabled(cfg, sys, step) && s in sys && QueueCovers(sys[s], id)
    requires step.node == s && step.Acts? ==>
               !step.act.Restart? && (step.act.TakeJob? ==> sys[s].queue[0].chunkID != id)
    ensures QueueCovers(Next(cfg, sys, step)[s], id)
  {
    hide Targets, Acted;
    var job :| job in sys[s].queue && job.chunkID == id;
    if step.node == s && step.Acts? {
      ActKeepsQueued(cfg, s, sys[s], step.act, job);
    }
    assert job in Next(cfg, sys, step)[s].queue;
  }

  lemma StepKeepsAssigned(cfg: Config, sys: System, step: Step, s: NodeId, id: ChunkId, gone: set<NodeId>)
    requires s in sys && Enabled(cfg, sys, step)
    requires var ts := Receivers(Owners(cfg, sys[s], id), s, gone);
             Assigned(sys, s, id, ts) && Persistent(sys, s, id, ts, step)
    ensures Assigned(Next(cfg, sys, step), s, id, Receivers(Owners(cfg, sys[s], id), s, gone))
  {
    hide Targets;
    if Underway(sys, s, id, Receivers(Owners(cfg, sys[s], id), s, gone)) {
      StepKeepsUnderway(cfg, sys, step, s, id, Receivers(Owners(cfg, sys[s], id), s, gone));
    } else if step.node == s && step.Acts? && step.act.TakeJob? && sys[s].queue[0].chunkID == id {
      TakenIsUnderway(cfg, sys, s, step.act.k, step.act.owners, gone);
    } else {
      StaysQueued(cfg, sys, step, s, id);
    }
  }

  lemma {:induction false} RunKeepsAssigned(cfg: Config, sys: System, steps: seq<Step>, end: System, s: NodeId, id: ChunkId,
                                            gone: set<NodeId>)
    requires s in sys && Run(cfg, sys, steps, end)
    requires var ts := Receivers(Owners(cfg, sys[s], id), s, gone);
             Assigned(sys, s, id, ts) && SteadyRun(cfg, sys, steps, s, id, ts)
    ensures s in end && end[s].ring == sys[s].ring
    ensures Assigned(end, s, id, Receivers(Owners(cfg, sys[s], id), s, gone))
    decreases |steps|
  {
    if steps != [] {
      StepKeepsAssigned(cfg, sys, steps[0], s, id, gone);
      RunKeepsAssigned(cfg, Next(cfg, sys, steps[0]), steps[1..], end, s, id, gone);
    }
  }

  /**
   An upload converges wherever it was accepted: once the queued job is through and the ring has not
   changed meanwhile, every other responsible node has the chunk, and the copies are complete exactly when
   the accepting node is not responsible or has the chunk itself.
   */
  lemma QueuedJobConverges(cfg: Config, sys: System, steps: seq<Step>, end: System, s: NodeId, id: ChunkId, gone: set<NodeId>)
    requires s in sys && QueueCovers(sys[s], id) && Run(cfg, sys, steps, end)
    requires SteadyRun(cfg, sys, steps, s, id, Receivers(Owners(cfg, sys[s], id), s, gone))
    requires s in end && (forall k | k in end[s].inFlight :: end[s].inFlight[k].job.chunkID != id)
    requires forall job | job in end[s].queue :: job.chunkID != id
    ensures end[s].ring == sys[s].ring
    ensures forall t | t in Targets(cfg.hk, end[s].ring, id, 3) && t != s && t !in gone :: t in end && id in end[t].store
    ensures (forall t | t in Targets(cfg.hk, end[s].ring, id, 3) && t !in gone :: t in end && id in end[t].store)
            <==> s !in Targets(cfg.hk, end[s].ring, id, 3) || s in gone || id in end[s].store
  {
    hide Targets;
    RunKeepsAssigned(cfg, sys, steps, end, s, id, gone);
    ReceiversReplicate(cfg, end, s, id, Owners(cfg, end[s], id), gone);
  }

  lemma {:induction false} OwnRunIsSteady(cfg: Config, sys: System, steps: seq<Step>, end: System, s: NodeId, id: ChunkId,
                                          gone: set<NodeId>, ts: set<NodeId>)
    requires s in sys && Run(cfg, sys, steps, end) && OwnRun(s, steps) && ts !! gone
    requires SmoothRun(cfg, sys, steps, s, id, gone)
    ensures SteadyRun(cfg, sys, steps, s, id, ts)
    decreases |steps|
  {
    if steps != [] {
      assert OwnWork(s, steps[0]);
      OwnWorkKeepsRing(cfg, sys, steps[0], s);
      assert forall i | 0 <= i < |steps[1..]| :: steps[1..][i] == steps[i + 1];
      OwnRunIsSteady(cfg, Next(cfg, sys, steps[0]), steps[1..], end, s, id, gone, ts);
    }
  }

  /** The accepting node can always bring this about by steps of its own. */
  lemma UploadCompletes(cfg: Config, sys: System, s: NodeId, id: ChunkId, gone: set<NodeId>)
    returns (steps: seq<Step>, end: System)
    requires Sound(sys, s, gone) && AllHonest(cfg, sys) && QueueCovers(sys[s], id)
    ensures Run(cfg, sys, steps, end) && s in end && Finished(end[s]) && end[s].ring == sys[s].ring
    ensures forall t | t in Targets(cfg.hk, end[s].ring, id, 3) && t != s && t !in gone :: t in end && id in end[t].store
    ensures (forall t | t in Targets(cfg.hk, end[s].ring, id, 3) && t !in gone :: t in end && id in end[t].store)
            <==> s !in Targets(cfg.hk, end[s].ring, id, 3) || s in gone || id in end[s].store
  {
    hide Targets;
    steps, end := WorkCompletes(cfg, sys, s, id, gone);
    OwnRunIsSteady(cfg, sys, steps, end, s, id, gone, Receivers(Owners(cfg, sys[s], id), s, gone));
    QueuedJobConverges(cfg, sys, steps, end, s, id, gone);
  }

  // ---------------------------------------------------------------------------------------------
  // A death while the push is on its way
  // ---------------------------------------------------------------------------------------------

  /** The node that moves up when one of the nodes responsible is lost. */
  ghost function Riser(hk: KeyHash, ring: set<NodeId>, id: ChunkId): NodeId
    requires |ring| > FACTOR
  {
    Targets(hk, ring, id, FACTOR + 1)[FACTOR]
  }

  /** After the loss of a target, the targets are the others and the riser. */
  lemma RiserMovesUp(hk: KeyHash, ring: set<NodeId>, id: ChunkId, a: NodeId)
    requires CollisionFree(hk, ring) && |ring| > FACTOR && a in Targets(hk, ring, id, FACTOR)
    ensures var d := Riser(hk, ring, id);
            && d in ring && d !in Targets(hk, ring, id, FACTOR)
            && Elements(Targets(hk, ring - {a}, id, FACTOR)) == Elements(Targets(hk, ring, id, FACTOR)) - {a} + {d}
  {
    hide Targets;
    var more, owners := Targets(hk, ring, id, FACTOR + 1), Targets(hk, ring, id, FACTOR);
    TargetsExact(hk, ring, id, FACTOR + 1);
    TargetsExact(hk, ring, id, FACTOR);
    TargetsNested(hk, ring, id, FACTOR, FACTOR + 1);
    PrefixNext(more, FACTOR);
    PrefixAll(more);
    LastIsNew(owners, more[FACTOR]);
    LeaveExact(hk, ring, a, id, FACTOR);
    DeletedMembers(more, a);
    DeleteLength(more, a);
    PrefixShort(Delete(more, a), FACTOR);
  }

  lemma LastIsNew(s: seq<NodeId>, x: NodeId)
    requires NoDuplicates(s + [x])
    ensures x !in s && Elements(s + [x]) == Elements(s) + {x} && x in s + [x]
  {
    assert (s + [x])[|s|] == x;
    forall i | 0 <= i < |s| ensures s[i] != x {
      assert (s + [x])[i] == s[i];
    }
  }

  lemma {:induction false} DeletedMembers(s: seq<NodeId>, x: NodeId)
    ensures Elements(Delete(s, x)) == Elements(s) - {x}
  {
    if s != [] {
      DeletedMembers(s[1..], x);
      HeadTail(s);
      assert Elements(s) == {s[0]} + Elements(s[1..]);
      assert Elements([s[0]] + Delete(s[1..], x)) == {s[0]} + Elements(Delete(s[1..], x));
    }
  }

  /** Nothing a node has in hand concerns the chunk. */
  ghost predicate Uninvolved(nd: Node, id: ChunkId) {
    && NothingToPush(nd, id)
    && (forall k | k in nd.inFlight :: nd.inFlight[k].job.chunkID != id)
    && Unscanned(nd, id)
  }

  ghost predicate NothingToPush(nd: Node, id: ChunkId) {
    && (forall k, c | k in nd.uploads && c in nd.uploads[k].todo :: c.id != id)
    && (forall job | job in nd.queue :: job.chunkID != id)
  }

  ghost predicate Unscanned(nd: Node, id: ChunkId) {
    forall k | k in nd.passes && nd.passes[k].Scanning? :: id !in nd.passes[k].todo
  }

  /** Node `a` is dead; every other node either has taken it off this ring or has yet to do so. */
  ghost predicate Views(sys: System, ring: set<NodeId>, a: NodeId) {
    forall m | m in sys && m != a :: sys[m].ring == ring || sys[m].ring == ring - {a}
  }

  /**
   A death in the middle of an upload. Node `s`, responsible for the chunk or not, is pushing it to the
   nodes that are, and one of them, `a`, is dead. Nobody else is concerned with the chunk.
   */
  ghost predicate DeathInFlight(cfg: Config, sys: System, s: NodeId, k: nat, ring: set<NodeId>, a: NodeId, id: ChunkId) {
    var owners := Targets(cfg.hk, ring, id, FACTOR);
    && CollisionFree(cfg.hk, ring) && |ring| > FACTOR && Views(sys, ring, a) && a in owners
    && s in sys && s != a && k in sys[s].inFlight
    && (forall t | t in sys[s].inFlight[k].todo :: t in owners)
    && Reaches(sys, id, Elements(owners) - {a}, sys[s].inFlight[k])
    && Uninvolved(sys[s].(inFlight := sys[s].inFlight - {k}), id)
    && (forall m | m in sys && m != s && m != a :: Uninvolved(sys[m], id))
  }

  /** The dead node does nothing, it alone is lost, and nothing else happens that concerns the chunk. */
  ghost predicate Quiet(cfg: Config, sys: System, a: NodeId, id: ChunkId, step: Step) {
    && step.node != a
    && (step.Acts? ==>
          match step.act
          case BeginUpload(_, _, data) => id !in Addresses(cfg.address, Pieces(data, DEFAULT_SIZE))
          case ReceivePut(x, _) => x != id
          case NodeDies(d, _) => d == a
          case NodeReturns(_) => false
          case Restart(_) => false
          case ListFails(_) => false
          case RepairChunk(_, _, readable) => readable
          case GiveUpPush(k) =>
            (step.node in sys && k in sys[step.node].inFlight && sys[step.node].inFlight[k].todo != []
             && sys[step.node].inFlight[k].job.chunkID == id) ==> sys[step.node].inFlight[k].todo[0] == a
          case _ => true)
  }

  ghost predicate QuietRun(cfg: Config, sys: System, steps: seq<Step>, a: NodeId, id: ChunkId)
    decreases |steps|
  {
    steps != [] ==>
      && Enabled(cfg, sys, steps[0]) && Quiet(cfg, sys, a, id, steps[0])
      && QuietRun(cfg, Next(cfg, sys, steps[0]), steps[1..], a, id)
  }

  /** One of these nodes looks through its store for repair, and the chunk is there. */
  ghost predicate Notices(sys: System, id: ChunkId, ts: set<NodeId>, step: Step) {
    step.Acts? && step.act.ListChunks? && step.node in ts && Holds(sys, step.node, id)
  }

  /** ... in the course of these steps. */
  ghost predicate Noticed(cfg: Config, sys: System, steps: seq<Step>, id: ChunkId, ts: set<NodeId>)
    decreases |steps|
  {
    steps != [] && Enabled(cfg, sys, steps[0])
    && (Notices(sys, id, ts, steps[0]) || Noticed(cfg, Next(cfg, sys, steps[0]), steps[1..], id, ts))
  }

  /** Everybody has taken the dead node off the ring and is done with the chunk. */
  ghost predicate AllSettled(sys: System, ring: set<NodeId>, a: NodeId, id: ChunkId) {
    forall m | m in sys && m != a :: sys[m].ring == ring - {a} && Settled(sys[m], id)
  }

  // What makes the copies complete

  lemma QuietIsSmooth(cfg: Config, sys: System, a: NodeId, id: ChunkId, step: Step, s: NodeId)
    requires Quiet(cfg, sys, a, id, step) && s != a
    ensures Smooth(sys, s, id, {a}, step)
    ensures forall ts: set<NodeId> | a !in ts :: Persistent(sys, s, id, ts, step)
  {}

  lemma {:induction false} QuietRunIsSmooth(cfg: Config, sys: System, steps: seq<Step>, a: NodeId, id: ChunkId, s: NodeId,
                                            ts: set<NodeId>)
    requires QuietRun(cfg, sys, steps, a, id) && s != a && a !in ts
    ensures SmoothRun(cfg, sys, steps, s, id, {a}) && PersistentRun(cfg, sys, steps, s, id, ts)
    decreases |steps|
  {
    if steps != [] {
      QuietIsSmooth(cfg, sys, a, id, steps[0], s);
      QuietRunIsSmooth(cfg, Next(cfg, sys, steps[0]), steps[1..], a, id, s, ts);
    }
  }

  lemma ViewsStay(cfg: Config, sys: System, step: Step, ring: set<NodeId>, a: NodeId, id: ChunkId)
    requires Views(sys, ring, a) && Enabled(cfg, sys, step) && Quiet(cfg, sys, a, id, step)
    ensures Views(Next(cfg, sys, step), ring, a) && Next(cfg, sys, step).Keys == sys.Keys
  {
    if step.Acts? {
      RingChangesByDeath(cfg, step.node, sys[step.node], step.act);
    }
  }

  lemma RingChangesByDeath(cfg: Config, self: NodeId, nd: Node, a: Act)
    requires CanAct(self, nd, a) && !a.NodeReturns? && !a.Restart?
    ensures Acted(cfg, self, nd, a).ring == if a.NodeDies? then nd.ring - {a.node} else nd.ring
  {}

  /** A holder that notices the chunk takes it into its care. */
  lemma NoticingBringsCare(cfg: Config, sys: System, step: Step, ring: set<NodeId>, a: NodeId, id: ChunkId)
    requires Enabled(cfg, sys, step) && Views(sys, ring, a) && CollisionFree(cfg.hk, ring)
    requires Notices(sys, id, Elements(Targets(cfg.hk, ring, id, FACTOR)) - {a}, step)
    ensures Cared(cfg, Next(cfg, sys, step), step.node, id, {a})
  {
    hide Targets;
    var t := step.node;
    CollisionFreeSubset(cfg.hk, ring, sys[t].ring);
    TargetsOnRing(cfg.hk, ring, id, FACTOR);
    TargetStays(cfg.hk, ring, sys[t].ring, id, FACTOR, t);
    ListingCovers(cfg, t, sys[t], step.act, id);
  }

  lemma ListingCovers(cfg: Config, self: NodeId, nd: Node, a: Act, id: ChunkId)
    requires CanAct(self, nd, a) && a.ListChunks? && id in nd.store
    ensures var nd' := Acted(cfg, self, nd, a); PassCovers(nd', id) && nd'.ring == nd.ring && nd'.store == nd.store
  {
    var nd' := Acted(cfg, self, nd, a);
    assert id in Elements(a.ids);
    assert a.k in nd'.passes && id in nd'.passes[a.k].todo;
  }

  lemma {:induction false} NoticedIsHealed(cfg: Config, sys: System, steps: seq<Step>, end: System, ring: set<NodeId>,
                                           a: NodeId, id: ChunkId)
    requires Views(sys, ring, a) && CollisionFree(cfg.hk, ring)
    requires Run(cfg, sys, steps, end) && QuietRun(cfg, sys, steps, a, id) && AllSettled(end, ring, a, id)
    requires Noticed(cfg, sys, steps, id, Elements(Targets(cfg.hk, ring, id, FACTOR)) - {a})
    ensures AllHold(end, id, Elements(Targets(cfg.hk, ring - {a}, id, FACTOR)))
    decreases |steps|
  {
    var ts := Elements(Targets(cfg.hk, ring, id, FACTOR)) - {a};
    ViewsStay(cfg, sys, steps[0], ring, a, id);
    if Notices(sys, id, ts, steps[0]) {
      NoticingBringsCare(cfg, sys, steps[0], ring, a, id);
      CareOverQuietRun(cfg, Next(cfg, sys, steps[0]), steps[1..], end, steps[0].node, ring, a, id);
    } else {
      NoticedIsHealed(cfg, Next(cfg, sys, steps[0]), steps[1..], end, ring, a, id);
    }
  }

  lemma CareOverQuietRun(cfg: Config, sys: System, steps: seq<Step>, end: System, t: NodeId, ring: set<NodeId>, a: NodeId,
                         id: ChunkId)
    requires Cared(cfg, sys, t, id, {a}) && t != a
    requires Run(cfg, sys, steps, end) && QuietRun(cfg, sys, steps, a, id) && AllSettled(end, ring, a, id)
    ensures AllHold(end, id, Elements(Targets(cfg.hk, ring - {a}, id, FACTOR)))
  {
    hide Targets;
    QuietRunIsSmooth(cfg, sys, steps, a, id, t, {});
    RunKeepsCare(cfg, sys, steps, end, t, id, {a});
    SettledIsReplicated(cfg, end, t, id, {a});
  }

  lemma {:induction false} RunStoresGrow(cfg: Config, sys: System, steps: seq<Step>, end: System, n: NodeId, id: ChunkId)
    requires Run(cfg, sys, steps, end) && Holds(sys, n, id)
    ensures Holds(end, n, id)
    decreases |steps|
  {
    if steps != [] {
      StoresGrow(cfg, sys, steps[0], n, id);
      RunStoresGrow(cfg, Next(cfg, sys, steps[0]), steps[1..], end, n, id);
    }
  }

  /** The push itself reaches the surviving owners. */
  lemma PushReachesOthers(cfg: Config, sys: System, steps: seq<Step>, end: System, s: NodeId, k: nat, ring: set<NodeId>,
                          a: NodeId, id: ChunkId)
    requires DeathInFlight(cfg, sys, s, k, ring, a, id)
    requires Run(cfg, sys, steps, end) && QuietRun(cfg, sys, steps, a, id) && AllSettled(end, ring, a, id)
    ensures AllHold(end, id, Elements(Targets(cfg.hk, ring, id, FACTOR)) - {a})
  {
    hide Targets;
    var ts := Elements(Targets(cfg.hk, ring, id, FACTOR)) - {a};
    QuietRunIsSmooth(cfg, sys, steps, a, id, s, ts);
    RunKeepsUnderway(cfg, sys, steps, end, s, id, ts);
  }

  // What leaves one missing

  /** Nothing a node has in hand can bring the chunk to `d`. */
  ghost predicate Harmless(nd: Node, id: ChunkId, owner: bool, d: NodeId) {
    && NothingToPush(nd, id)
    && (forall k | k in nd.inFlight && nd.inFlight[k].job.chunkID == id :: d !in nd.inFlight[k].todo)
    && (owner ==> Unscanned(nd, id))
  }

  ghost predicate Missed(sys: System, ring: set<NodeId>, a: NodeId, id: ChunkId, ts: set<NodeId>, d: NodeId) {
    && Views(sys, ring, a) && !Holds(sys, d, id)
    && (forall m | m in sys && m != a :: Harmless(sys[m], id, m in ts, d))
  }

  lemma UploadActsHarmless(cfg: Config, sys: System, n: NodeId, act: Act, a: NodeId, id: ChunkId, owner: bool, d: NodeId)
    requires Enabled(cfg, sys, Acts(n, act)) && Quiet(cfg, sys, a, id, Acts(n, act)) && Harmless(sys[n], id, owner, d)
    requires act.BeginUpload? || act.PlaceChunk? || act.QueueChunk? || act.EndUpload? || act.AbortUpload? || act.ReceivePut?
    ensures Harmless(Acted(cfg, n, sys[n], act), id, owner, d)
    ensures id in Acted(cfg, n, sys[n], act).store ==> id in sys[n].store
  {
    var nd := sys[n];
    if act.PlaceChunk? || act.QueueChunk? {
      assert nd.uploads[act.k].todo[0] in nd.uploads[act.k].todo;
      TailMembers(nd.uploads[act.k].todo);
    } else if act.BeginUpload? {
      NewChunksOther(cfg, act.data, id);
    }
  }

  lemma NewChunksOther(cfg: Config, data: Bytes, id: ChunkId)
    requires id !in Addresses(cfg.address, Pieces(data, DEFAULT_SIZE))
    ensures forall c | c in Numbered(cfg.address, Pieces(data, DEFAULT_SIZE)) :: c.id != id
  {
    var chunks, ids := Numbered(cfg.address, Pieces(data, DEFAULT_SIZE)), Addresses(cfg.address, Pieces(data, DEFAULT_SIZE));
    forall i | 0 <= i < |chunks| ensures chunks[i].id != id {
      assert ids[i] in ids;
    }
  }

  lemma PushActsHarmless(cfg: Config, self: NodeId, nd: Node, act: Act, id: ChunkId, owner: bool, d: NodeId)
    requires CanAct(self, nd, act) && Harmless(nd, id, owner, d)
    requires act.TakeJob? || act.GiveUpPush? || act.EndJob?
    ensures Harmless(Acted(cfg, self, nd, act), id, owner, d)
    ensures Acted(cfg, self, nd, act).store == nd.store
  {
    if act.TakeJob? {
      assert nd.queue[0] in nd.queue;
      TailMembers(nd.queue);
    } else if act.GiveUpPush? {
      TailMembers(nd.inFlight[act.k].todo);
    }
  }

  /** A node that scans its store queues the chunk only if it is responsible for it and listed it. */
  lemma PassActsHarmless(cfg: Config, self: NodeId, nd: Node, act: Act, id: ChunkId, owner: bool, d: NodeId)
    requires CanAct(self, nd, act) && Harmless(nd, id, owner, d)
    requires act.NodeDies? || act.ListChunks? || act.RepairChunk? || act.EndPass?
    requires owner && act.ListChunks? ==> id !in nd.store
    requires !owner && act.RepairChunk? && nd.passes[act.k].todo[0] == id ==> self !in act.owners
    ensures Harmless(Acted(cfg, self, nd, act), id, owner, d)
    ensures Acted(cfg, self, nd, act).store == nd.store
  {
    if act.ListChunks? {
      assert forall x :: x in act.ids <==> x in Elements(act.ids);
    } else if act.RepairChunk? {
      assert nd.passes[act.k].todo[0] in nd.passes[act.k].todo;
      TailMembers(nd.passes[act.k].todo);
    }
  }

  /** Only these nodes, `d` and the dead node are responsible for the chunk, before and after the death. */
  ghost predicate Confined(cfg: Config, ring: set<NodeId>, a: NodeId, id: ChunkId, ts: set<NodeId>, d: NodeId) {
    && (forall t | t in Targets(cfg.hk, ring, id, FACTOR) :: t == a || t in ts)
    && (forall t | t in Targets(cfg.hk, ring - {a}, id, FACTOR) :: t == d || t in ts)
  }

  lemma OthersNotResponsible(cfg: Config, nd: Node, ring: set<NodeId>, a: NodeId, id: ChunkId, ts: set<NodeId>, d: NodeId,
                             m: NodeId)
    requires Confined(cfg, ring, a, id, ts, d) && (nd.ring == ring || nd.ring == ring - {a})
    requires m !in ts && m != d && m != a
    ensures m !in Owners(cfg, nd, id)
  {}

  lemma ActHarmless(cfg: Config, sys: System, n: NodeId, act: Act, ring: set<NodeId>, a: NodeId, id: ChunkId, ts: set<NodeId>,
                    d: NodeId)
    requires Confined(cfg, ring, a, id, ts, d)
    requires Enabled(cfg, sys, Acts(n, act)) && Quiet(cfg, sys, a, id, Acts(n, act)) && !Notices(sys, id, ts, Acts(n, act))
    requires Missed(sys, ring, a, id, ts, d)
    ensures Harmless(Acted(cfg, n, sys[n], act), id, n in ts, d)
    ensures n == d ==> id !in Acted(cfg, n, sys[n], act).store
  {
    hide Targets;
    if act.TakeJob? || act.GiveUpPush? || act.EndJob? {
      PushActsHarmless(cfg, n, sys[n], act, id, n in ts, d);
    } else if act.NodeDies? || act.ListChunks? || act.RepairChunk? || act.EndPass? {
      if n !in ts && n != d {
        OthersNotResponsible(cfg, sys[n], ring, a, id, ts, d, n);
      }
      PassActsHarmless(cfg, n, sys[n], act, id, n in ts, d);
    } else {
      UploadActsHarmless(cfg, sys, n, act, a, id, n in ts, d);
    }
  }

  lemma SentHarmless(nd: Node, k: nat, id: ChunkId, owner: bool, d: NodeId)
    requires Harmless(nd, id, owner, d) && k in nd.inFlight && nd.inFlight[k].todo != []
    ensures Harmless(Sent(nd, k), id, owner, d)
    ensures nd.inFlight[k].job.chunkID == id ==> nd.inFlight[k].todo[0] != d
  {
    TailMembers(nd.inFlight[k].todo);
    assert nd.inFlight[k].todo[0] in nd.inFlight[k].todo;
  }

  lemma ReceivedHarmless(cfg: Config, nd: Node, job: W.Job, id: ChunkId, owner: bool, d: NodeId)
    ensures var nd' := Received(cfg, nd, job.chunkID, job.data);
            && (Harmless(nd, id, owner, d) ==> Harmless(nd', id, owner, d)) && nd'.ring == nd.ring
            && (job.chunkID != id && id !in nd.store ==> id !in nd'.store)
  {}

  /** Replacing one node's state by another that can do no harm either. */
  lemma ActStaysMissed(sys: System, n: NodeId, nd: Node, ring: set<NodeId>, a: NodeId, id: ChunkId, ts: set<NodeId>, d: NodeId)
    requires Missed(sys, ring, a, id, ts, d) && n in sys
    requires n != a ==> (nd.ring == ring || nd.ring == ring - {a}) && Harmless(nd, id, n in ts, d)
    requires n == d ==> id !in nd.store
    ensures Missed(sys[n := nd], ring, a, id, ts, d)
  {
    hide Harmless;
  }

  lemma PushHarmless(cfg: Config, sys: System, n: NodeId, k: nat, ring: set<NodeId>, a: NodeId, id: ChunkId, ts: set<NodeId>,
                     d: NodeId)
    requires Enabled(cfg, sys, PushArrives(n, k)) && n != a && Missed(sys, ring, a, id, ts, d)
    ensures Missed(Next(cfg, sys, PushArrives(n, k)), ring, a, id, ts, d)
  {
    hide Harmless;
    var push := sys[n].inFlight[k];
    var t := push.todo[0];
    SentHarmless(sys[n], k, id, n in ts, d);
    var sent := sys[n := Sent(sys[n], k)];
    ActStaysMissed(sys, n, Sent(sys[n], k), ring, a, id, ts, d);
    var got := Received(cfg, sent[t], push.job.chunkID, push.job.data);
    ReceivedHarmless(cfg, sent[t], push.job, id, t in ts, d);
    ActStaysMissed(sent, t, got, ring, a, id, ts, d);
  }

  lemma StepStaysMissed(cfg: Config, sys: System, step: Step, ring: set<NodeId>, a: NodeId, id: ChunkId, ts: set<NodeId>,
                        d: NodeId)
    requires Confined(cfg, ring, a, id, ts, d) && Missed(sys, ring, a, id, ts, d)
    requires Enabled(cfg, sys, step) && Quiet(cfg, sys, a, id, step) && !Notices(sys, id, ts, step)
    ensures Missed(Next(cfg, sys, step), ring, a, id, ts, d)
  {
    hide Targets;
    if step.PushArrives? {
      PushHarmless(cfg, sys, step.node, step.k, ring, a, id, ts, d);
    } else {
      ActHarmless(cfg, sys, step.node, step.act, ring, a, id, ts, d);
      RingChangesByDeath(cfg, step.node, sys[step.node], step.act);
      ActStaysMissed(sys, step.node, Acted(cfg, step.node, sys[step.node], step.act), ring, a, id, ts, d);
    }
  }

  lemma {:induction false} UnnoticedIsMissed(cfg: Config, sys: System, steps: seq<Step>, end: System, ring: set<NodeId>,
                                             a: NodeId, id: ChunkId, ts: set<NodeId>, d: NodeId)
    requires Confined(cfg, ring, a, id, ts, d) && Missed(sys, ring, a, id, ts, d)
    requires Run(cfg, sys, steps, end) && QuietRun(cfg, sys, steps, a, id) && !Noticed(cfg, sys, steps, id, ts)
    ensures !Holds(end, d, id)
    decreases |steps|
  {
    if steps != [] {
      StepStaysMissed(cfg, sys, steps[0], ring, a, id, ts, d);
      UnnoticedIsMissed(cfg, Next(cfg, sys, steps[0]), steps[1..], end, ring, a, id, ts, d);
    }
  }

  lemma UninvolvedIsHarmless(nd: Node, id: ChunkId, owner: bool, d: NodeId)
    requires Uninvolved(nd, id)
    ensures Harmless(nd, id, owner, d)
  {}

  lemma PusherIsHarmless(nd: Node, k: nat, id: ChunkId, owner: bool, d: NodeId)
    requires k in nd.inFlight && Uninvolved(nd.(inFlight := nd.inFlight - {k}), id) && d !in nd.inFlight[k].todo
    ensures Harmless(nd, id, owner, d)
  {
    forall j | j in nd.inFlight && nd.inFlight[j].job.chunkID == id ensures d !in nd.inFlight[j].todo {
      assert j != k ==> j in nd.inFlight - {k};
    }
  }

  lemma StartsMissed(cfg: Config, sys: System, s: NodeId, k: nat, ring: set<NodeId>, a: NodeId, id: ChunkId, ts: set<NodeId>,
                     d: NodeId)
    requires DeathInFlight(cfg, sys, s, k, ring, a, id) && !Holds(sys, d, id) && d !in Targets(cfg.hk, ring, id, FACTOR)
    ensures Missed(sys, ring, a, id, ts, d)
  {
    hide Targets;
    PusherIsHarmless(sys[s], k, id, s in ts, d);
    forall m | m in sys && m != s && m != a ensures Harmless(sys[m], id, m in ts, d) {
      UninvolvedIsHarmless(sys[m], id, m in ts, d);
    }
  }

  /** The surviving owners, and the node that moves up. */
  lemma ConfinedByRiser(cfg: Config, ring: set<NodeId>, a: NodeId, id: ChunkId) returns (ts: set<NodeId>, d: NodeId)
    requires CollisionFree(cfg.hk, ring) && |ring| > FACTOR && a in Targets(cfg.hk, ring, id, FACTOR)
    ensures ts == Elements(Targets(cfg.hk, ring, id, FACTOR)) - {a} && d == Riser(cfg.hk, ring, id)
    ensures d !in Targets(cfg.hk, ring, id, FACTOR) && Confined(cfg, ring, a, id, ts, d)
    ensures Elements(Targets(cfg.hk, ring - {a}, id, FACTOR)) == ts + {d}
  {
    hide Targets;
    var owners, after := Targets(cfg.hk, ring, id, FACTOR), Targets(cfg.hk, ring - {a}, id, FACTOR);
    RiserMovesUp(cfg.hk, ring, id, a);
    ts, d := Elements(owners) - {a}, Riser(cfg.hk, ring, id);
    MembersConfined(owners, after, a, ts, d);
  }

  lemma MembersConfined(owners: seq<NodeId>, after: seq<NodeId>, a: NodeId, ts: set<NodeId>, d: NodeId)
    requires ts == Elements(owners) - {a} && Elements(after) == ts + {d}
    ensures forall t | t in owners :: t == a || t in ts
    ensures forall t | t in after :: t == d || t in ts
  {
    assert forall t | t in after :: t in Elements(after);
  }

  /**
   A death in the middle of an upload, exactly: when all have settled, the chunk is on every node then
   responsible if and only if the node that moved up had it from the start, or one of the other owners
   looked through its store for repair after the chunk had arrived there.
   */
  lemma DeathInFlightIff(cfg: Config, sys: System, steps: seq<Step>, end: System, s: NodeId, k: nat, ring: set<NodeId>,
                         a: NodeId, id: ChunkId)
    requires DeathInFlight(cfg, sys, s, k, ring, a, id)
    requires Run(cfg, sys, steps, end) && QuietRun(cfg, sys, steps, a, id)
    requires forall m | m in end && m != a ::
               && end[m].ring == ring - {a} && end[m].passes == map[] && end[m].queue == []
               && forall j | j in end[m].inFlight :: end[m].inFlight[j].job.chunkID != id
    ensures (forall t | t in Targets(cfg.hk, ring - {a}, id, 3) :: t in end && id in end[t].store)
            <==> || (var d := Riser(cfg.hk, ring, id); d in sys && id in sys[d].store)
                 || Noticed(cfg, sys, steps, id, Elements(Targets(cfg.hk, ring, id, FACTOR)) - {a})
  {
    hide Targets;
    assert AllSettled(end, ring, a, id);
    var owners := Targets(cfg.hk, ring - {a}, id, FACTOR);
    assert forall t :: t in owners <==> t in Elements(owners);
    InFlightDecides(cfg, sys, steps, end, s, k, ring, a, id);
  }

  lemma InFlightDecides(cfg: Config, sys: System, steps: seq<Step>, end: System, s: NodeId, k: nat, ring: set<NodeId>,
                        a: NodeId, id: ChunkId)
    requires DeathInFlight(cfg, sys, s, k, ring, a, id)
    requires Run(cfg, sys, steps, end) && QuietRun(cfg, sys, steps, a, id) && AllSettled(end, ring, a, id)
    ensures AllHold(end, id, Elements(Targets(cfg.hk, ring - {a}, id, FACTOR)))
            <==> Holds(sys, Riser(cfg.hk, ring, id), id)
                 || Noticed(cfg, sys, steps, id, Elements(Targets(cfg.hk, ring, id, FACTOR)) - {a})
  {
    hide Targets;
    var ts, d := ConfinedByRiser(cfg, ring, a, id);
    if Noticed(cfg, sys, steps, id, ts) {
      NoticedIsHealed(cfg, sys, steps, end, ring, a, id);
    } else if Holds(sys, d, id) {
      RunStoresGrow(cfg, sys, steps, end, d, id);
      PushReachesOthers(cfg, sys, steps, end, s, k, ring, a, id);
    } else {
      StartsMissed(cfg, sys, s, k, ring, a, id, ts, d);
      UnnoticedIsMissed(cfg, sys, steps, end, ring, a, id, ts, d);
    }
  }
}
