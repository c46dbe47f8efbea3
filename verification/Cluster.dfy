/**
 The whole cluster as a transition system: uploads, repair passes, workers and deaths on many nodes,
 interleaved in any way. Every node has its own view of the ring. A node's ring is represented by its
 set of nodes, which determines it (`RingStates.HistoryIndependent`); what a lookup answers is
 `Targets`, as `HashRing.Ring.GetN` does. Targets are computed when a job is taken from the queue.
 */
module Cluster {
  import opened Chunks
  import opened Lists
  import opened Placement
  import opened Preference
  import opened RingStates
  import opened WorkerPool

  /** The two hash functions. */
  datatype Config = Config(hk: KeyHash, address: Addressing)

  /** A running upload handler: what is left to do, and whether the next chunk was already looked at. */
  datatype Upload = Upload(blobID: string, data: Bytes, todo: seq<Chunk>, placed: bool)

  /** A repair pass: about to list the store, or scanning a list. */
  datatype Pass = Waiting | Scanning(todo: seq<ChunkId>)

  /** A job in the hands of a worker, with the targets still to be served. */
  datatype Push = Push(job: Job, todo: seq<NodeId>)

  /** `completed` remembers, for each manifest, the bytes that were uploaded. */
  datatype Node = Node(
    ring: set<NodeId>,
    store: map<ChunkId, Bytes>,
    uploads: map<nat, Upload>,
    passes: map<nat, Pass>,
    queue: seq<Job>,
    inFlight: map<nat, Push>,
    manifests: map<string, Manifest>,
    completed: map<string, Bytes>)

  type System = map<NodeId, Node>

  /**
   What one node does by itself; `k` names the handler, pass or worker concerned, `owners` is what the
   ring answers when it is asked in the course of the step.
   */
  datatype Act =
    | BeginUpload(k: nat, blobID: string, data: Bytes)
    | PlaceChunk(k: nat, owners: seq<NodeId>)
    | QueueChunk(k: nat)
    | EndUpload(k: nat)
    | AbortUpload(k: nat)
    | TakeJob(k: nat, owners: seq<NodeId>)
    | GiveUpPush(k: nat)
    | EndJob(k: nat)
    | ReceivePut(id: ChunkId, data: Bytes)
    | NodeDies(node: NodeId, k: nat)
    | ListChunks(k: nat, ids: seq<ChunkId>)
    | ListFails(k: nat)
    | RepairChunk(k: nat, owners: seq<NodeId>, readable: bool)
    | EndPass(k: nat)
    | NodeReturns(node: NodeId)
    | Restart(ring: set<NodeId>)

  /** ... or a push that succeeds, which also changes the node pushed to. */
  datatype Step = Acts(node: NodeId, act: Act) | PushArrives(node: NodeId, k: nat)

  ghost function Owners(cfg: Config, nd: Node, id: ChunkId): seq<NodeId> {
    Targets(cfg.hk, nd.ring, id, FACTOR)
  }

  /** Is the node in a position to do this? */
  ghost predicate CanAct(self: NodeId, nd: Node, a: Act) {
    match a
    case BeginUpload(k, _, _) => k !in nd.uploads
    case PlaceChunk(k, _) => k in nd.uploads && nd.uploads[k].todo != [] && !nd.uploads[k].placed
    case QueueChunk(k) =>
      k in nd.uploads && nd.uploads[k].todo != [] && nd.uploads[k].placed && |nd.queue| < QUEUE_CAPACITY
    case EndUpload(k) => k in nd.uploads && nd.uploads[k].todo == []
    case AbortUpload(k) => k in nd.uploads
    case TakeJob(k, _) => nd.queue != [] && k !in nd.inFlight
    case GiveUpPush(k) => k in nd.inFlight && nd.inFlight[k].todo != []
    case EndJob(k) => k in nd.inFlight && nd.inFlight[k].todo == []
    case ReceivePut(_, _) => true
    case NodeDies(_, k) => k !in nd.passes
    case ListChunks(k, ids) => k in nd.passes && nd.passes[k].Waiting? && Elements(ids) == nd.store.Keys
    case ListFails(k) => k in nd.passes && nd.passes[k].Waiting?
    case RepairChunk(k, owners, readable) =>
      && k in nd.passes && nd.passes[k].Scanning? && nd.passes[k].todo != []
      && nd.passes[k].todo[0] in nd.store && (self in owners && readable ==> |nd.queue| < QUEUE_CAPACITY)
    case EndPass(k) => k in nd.passes && nd.passes[k].Scanning? && nd.passes[k].todo == []
    case NodeReturns(_) => true
    case Restart(_) => true
  }

  /** Is this what the ring answers now? */
  ghost predicate RingAnswers(cfg: Config, self: NodeId, nd: Node, a: Act)
    requires CanAct(self, nd, a)
  {
    match a
    case PlaceChunk(k, owners) => owners == Owners(cfg, nd, nd.uploads[k].todo[0].id)
    case TakeJob(_, owners) => owners == Owners(cfg, nd, nd.queue[0].chunkID)
    case RepairChunk(k, owners, _) => owners == Owners(cfg, nd, nd.passes[k].todo[0])
    case _ => true
  }

  function Acted(cfg: Config, self: NodeId, nd: Node, a: Act): Node
    requires CanAct(self, nd, a)
  {
    match a
    case BeginUpload(k, blobID, data) =>
      nd.(uploads := nd.uploads[k := Upload(blobID, data, Numbered(cfg.address, Pieces(data, DEFAULT_SIZE)), false)])
    case PlaceChunk(k, owners) =>
      var u := nd.uploads[k];
      nd.(uploads := nd.uploads[k := u.(placed := true)],
          store := if self in owners || owners == [] then nd.store[u.todo[0].id := u.todo[0].data] else nd.store)
    case QueueChunk(k) =>
      var u := nd.uploads[k];
      nd.(uploads := nd.uploads[k := u.(todo := u.todo[1..], placed := false)],
          queue := nd.queue + [Job(u.todo[0].id, u.todo[0].data)])
    case EndUpload(k) =>
      var u := nd.uploads[k];
      nd.(uploads := nd.uploads - {k},
          manifests := nd.manifests[u.blobID := ManifestOf(cfg.address, u.blobID, u.data, DEFAULT_SIZE)],
          completed := nd.completed[u.blobID := u.data])
    case AbortUpload(k) => nd.(uploads := nd.uploads - {k})
    case TakeJob(k, owners) =>
      nd.(queue := nd.queue[1..], inFlight := nd.inFlight[k := Push(nd.queue[0], Delete(owners, self))])
    case GiveUpPush(k) => Sent(nd, k)
    case EndJob(k) => nd.(inFlight := nd.inFlight - {k})
    case ReceivePut(id, data) => Received(cfg, nd, id, data)
    case NodeDies(d, k) => nd.(ring := nd.ring - {d}, passes := nd.passes[k := Waiting])
    case ListChunks(k, ids) => nd.(passes := nd.passes[k := Scanning(ids)])
    case ListFails(k) => nd.(passes := nd.passes - {k})
    case RepairChunk(k, owners, readable) =>
      var id := nd.passes[k].todo[0];
      nd.(passes := nd.passes[k := Scanning(nd.passes[k].todo[1..])],
          queue := if self in owners && readable then nd.queue + [Job(id, nd.store[id])] else nd.queue)
    case EndPass(k) => nd.(passes := nd.passes - {k})
    case NodeReturns(x) => nd.(ring := nd.ring + {x})
    case Restart(ring) => Node(ring, nd.store, map[], map[], [], map[], map[], map[])
  }

  /** A pushed chunk is kept only if its bytes have the address it was pushed under. */
  function Received(cfg: Config, nd: Node, id: ChunkId, data: Bytes): Node {
    if cfg.address(data) == id then nd.(store := nd.store[id := data]) else nd
  }

  /** The target at the head of the list is done with. */
  function Sent(nd: Node, k: nat): Node
    requires k in nd.inFlight && nd.inFlight[k].todo != []
  {
    nd.(inFlight := nd.inFlight[k := nd.inFlight[k].(todo := nd.inFlight[k].todo[1..])])
  }

  ghost predicate Enabled(cfg: Config, sys: System, s: Step) {
    && s.node in sys
    && match s
       case Acts(n, a) => CanAct(n, sys[n], a) && RingAnswers(cfg, n, sys[n], a)
       case PushArrives(n, k) =>
         && k in sys[n].inFlight && sys[n].inFlight[k].todo != []
         && sys[n].inFlight[k].todo[0] in sys
         && cfg.address(sys[n].inFlight[k].job.data) == sys[n].inFlight[k].job.chunkID
  }

  function Next(cfg: Config, sys: System, s: Step): System
    requires Enabled(cfg, sys, s)
  {
    match s
    case Acts(n, a) => sys[n := Acted(cfg, n, sys[n], a)]
    case PushArrives(n, k) =>
      var push := sys[n].inFlight[k];
      var sent := sys[n := Sent(sys[n], k)];
      var t := push.todo[0];
      sent[t := Received(cfg, sent[t], push.job.chunkID, push.job.data)]
  }

  ghost predicate Run(cfg: Config, sys: System, steps: seq<Step>, end: System)
    decreases |steps|
  {
    if steps == [] then end == sys else
      Enabled(cfg, sys, steps[0]) && Run(cfg, Next(cfg, sys, steps[0]), steps[1..], end)
  }

  lemma {:induction false} RunAppend(cfg: Config, sys: System, one: seq<Step>, mid: System, two: seq<Step>, end: System)
    requires Run(cfg, sys, one, mid) && Run(cfg, mid, two, end)
    ensures Run(cfg, sys, one + two, end)
    decreases |one|
  {
    hide Enabled, Next;
    if one == [] {
      assert one + two == two;
    } else {
      RunAppend(cfg, Next(cfg, sys, one[0]), one[1..], mid, two, end);
      assert (one + two)[1..] == one[1..] + two;
    }
  }

  // ---------------------------------------------------------------------------------------------
  // Integrity
  // ---------------------------------------------------------------------------------------------

  ghost predicate HonestJob(cfg: Config, job: Job) {
    cfg.address(job.data) == job.chunkID
  }

  ghost predicate HonestUpload(cfg: Config, u: Upload) {
    forall c | c in u.todo :: cfg.address(c.data) == c.id
  }

  /** Whatever is stored, queued or on its way has the address it goes by ... */
  ghost predicate HonestData(cfg: Config, nd: Node) {
    && (forall id | id in nd.store :: cfg.address(nd.store[id]) == id)
    && (forall job | job in nd.queue :: HonestJob(cfg, job))
    && (forall k | k in nd.inFlight :: HonestJob(cfg, nd.inFlight[k].job))
    && (forall k | k in nd.uploads :: HonestUpload(cfg, nd.uploads[k]))
  }

  /** ... and manifests describe what was uploaded. */
  ghost predicate HonestManifests(cfg: Config, nd: Node) {
    && (forall b :: b in nd.manifests <==> b in nd.completed)
    && (forall b | b in nd.manifests ::
          nd.manifests[b] == ManifestOf(cfg.address, b, nd.completed[b], DEFAULT_SIZE))
  }

  ghost predicate Honest(cfg: Config, nd: Node) {
    HonestData(cfg, nd) && HonestManifests(cfg, nd)
  }

  ghost predicate AllHonest(cfg: Config, sys: System) {
    forall n | n in sys :: Honest(cfg, sys[n])
  }

  lemma UploadActsHonest(cfg: Config, self: NodeId, nd: Node, a: Act)
    requires HonestData(cfg, nd) && CanAct(self, nd, a) && (a.PlaceChunk? || a.QueueChunk?)
    ensures HonestData(cfg, Acted(cfg, self, nd, a))
  {
    var u := nd.uploads[a.k];
    assert HonestUpload(cfg, u) && u.todo[0] in u.todo;
    if a.QueueChunk? {
      assert HonestUpload(cfg, u.(todo := u.todo[1..], placed := false));
      assert HonestJob(cfg, Job(u.todo[0].id, u.todo[0].data));
    } else {
      assert HonestUpload(cfg, u.(placed := true));
    }
  }

  lemma QueueActsHonest(cfg: Config, self: NodeId, nd: Node, a: Act)
    requires HonestData(cfg, nd) && CanAct(self, nd, a) && (a.RepairChunk? || a.TakeJob?)
    ensures HonestData(cfg, Acted(cfg, self, nd, a))
  {
    if a.RepairChunk? {
      var id := nd.passes[a.k].todo[0];
      assert HonestJob(cfg, Job(id, nd.store[id]));
    } else {
      assert HonestJob(cfg, nd.queue[0]);
    }
  }

  lemma OtherActsHonest(cfg: Config, self: NodeId, nd: Node, a: Act)
    requires HonestData(cfg, nd) && CanAct(self, nd, a)
    requires !a.PlaceChunk? && !a.QueueChunk? && !a.RepairChunk? && !a.TakeJob?
    ensures HonestData(cfg, Acted(cfg, self, nd, a))
  {}

  lemma OnlyEndUploadRecords(cfg: Config, self: NodeId, nd: Node, a: Act)
    requires CanAct(self, nd, a) && !a.EndUpload? && !a.Restart?
    ensures Acted(cfg, self, nd, a).manifests == nd.manifests && Acted(cfg, self, nd, a).completed == nd.completed
  {}

  lemma ManifestsStayHonest(cfg: Config, self: NodeId, nd: Node, a: Act)
    requires HonestManifests(cfg, nd) && CanAct(self, nd, a)
    ensures HonestManifests(cfg, Acted(cfg, self, nd, a))
  {
    if !a.EndUpload? && !a.Restart? {
      OnlyEndUploadRecords(cfg, self, nd, a);
    }
  }

  lemma ActedHonest(cfg: Config, self: NodeId, nd: Node, a: Act)
    requires Honest(cfg, nd) && CanAct(self, nd, a)
    ensures Honest(cfg, Acted(cfg, self, nd, a))
  {
    ManifestsStayHonest(cfg, self, nd, a);
    if a.PlaceChunk? || a.QueueChunk? {
      UploadActsHonest(cfg, self, nd, a);
    } else if a.RepairChunk? || a.TakeJob? {
      QueueActsHonest(cfg, self, nd, a);
    } else {
      OtherActsHonest(cfg, self, nd, a);
    }
  }

  lemma NextHonest(cfg: Config, sys: System, s: Step)
    requires AllHonest(cfg, sys) && Enabled(cfg, sys, s)
    ensures AllHonest(cfg, Next(cfg, sys, s))
  {
    assert Honest(cfg, sys[s.node]);
    match s
    case Acts(n, a) => ActedHonest(cfg, n, sys[n], a);
    case PushArrives(n, k) =>
      SentHonest(cfg, sys[n], k);
      var sent := sys[n := Sent(sys[n], k)];
      ReceivedHonest(cfg, sent[sys[n].inFlight[k].todo[0]], sys[n].inFlight[k].job);
  }

  lemma SentHonest(cfg: Config, nd: Node, k: nat)
    requires Honest(cfg, nd) && k in nd.inFlight && nd.inFlight[k].todo != []
    ensures Honest(cfg, Sent(nd, k))
  {}

  lemma ReceivedHonest(cfg: Config, nd: Node, job: Job)
    requires Honest(cfg, nd)
    ensures Honest(cfg, Received(cfg, nd, job.chunkID, job.data))
  {}

  /** Integrity over every run: no schedule, death or repair ever puts wrong bytes under an address. */
  lemma {:induction false} RunHonest(cfg: Config, sys: System, steps: seq<Step>, end: System)
    requires AllHonest(cfg, sys) && Run(cfg, sys, steps, end)
    ensures AllHonest(cfg, end)
    decreases |steps|
  {
    if steps != [] {
      NextHonest(cfg, sys, steps[0]);
      RunHonest(cfg, Next(cfg, sys, steps[0]), steps[1..], end);
    }
  }

  // ---------------------------------------------------------------------------------------------
  // Self-healing
  // ---------------------------------------------------------------------------------------------

  ghost predicate Holds(sys: System, n: NodeId, id: ChunkId) {
    n in sys && id in sys[n].store
  }

  /** All nodes responsible for the chunk, as node `s` sees the ring, hold it; nodes in `gone` are passed over. */
  ghost predicate Replicated(cfg: Config, sys: System, s: NodeId, id: ChunkId, gone: set<NodeId>) {
    s in sys && forall t | t in Owners(cfg, sys[s], id) && t !in gone :: Holds(sys, t, id)
  }

  ghost predicate PassCovers(nd: Node, id: ChunkId) {
    exists k :: k in nd.passes && (nd.passes[k].Waiting? || id in nd.passes[k].todo)
  }

  ghost predicate QueueCovers(nd: Node, id: ChunkId) {
    exists job :: job in nd.queue && job.chunkID == id
  }

  ghost predicate PushCovers(cfg: Config, sys: System, s: NodeId, id: ChunkId, gone: set<NodeId>)
    requires s in sys
  {
    exists k :: k in sys[s].inFlight && Serves(cfg, sys, s, id, gone, sys[s].inFlight[k])
  }

  /** The job will have reached every owner when it is through. */
  ghost predicate Serves(cfg: Config, sys: System, s: NodeId, id: ChunkId, gone: set<NodeId>, push: Push)
    requires s in sys
  {
    && push.job.chunkID == id
    && forall t | t in Owners(cfg, sys[s], id) && t !in gone :: Holds(sys, t, id) || t in push.todo
  }

  /**
   Node `s` is responsible for the chunk, holds it, and every owner has it or is about to get it from
   `s`. Nothing is asked for the nodes in `gone`: they are dead, whether or not `s` knows it yet.
   */
  ghost predicate Cared(cfg: Config, sys: System, s: NodeId, id: ChunkId, gone: set<NodeId>) {
    && s in sys && CollisionFree(cfg.hk, sys[s].ring)
    && s in Owners(cfg, sys[s], id) && id in sys[s].store
    && (Replicated(cfg, sys, s, id, gone) || PassCovers(sys[s], id) || QueueCovers(sys[s], id)
        || PushCovers(cfg, sys, s, id, gone))
  }

  /**
   What must not happen at the healing node: it stops, it admits a node, it gives up pushing this
   chunk to a node that is not gone, or its disk fails. Everything else may, and other nodes may do
   anything.
   */
  ghost predicate Smooth(sys: System, s: NodeId, id: ChunkId, gone: set<NodeId>, step: Step) {
    step.node == s && step.Acts? && s in sys ==>
      match step.act
      case NodeReturns(_) => false
      case Restart(_) => false
      case NodeDies(d, _) => d != s
      case GiveUpPush(k) =>
        k in sys[s].inFlight && sys[s].inFlight[k].todo != [] && sys[s].inFlight[k].job.chunkID == id ==>
          sys[s].inFlight[k].todo[0] in gone
      case ListFails(_) => false
      case RepairChunk(_, _, readable) => readable
      case _ => true
  }

  ghost predicate SmoothRun(cfg: Config, sys: System, steps: seq<Step>, s: NodeId, id: ChunkId, gone: set<NodeId>)
    decreases |steps|
  {
    steps != [] ==>
      && Enabled(cfg, sys, steps[0]) && Smooth(sys, s, id, gone, steps[0])
      && SmoothRun(cfg, Next(cfg, sys, steps[0]), steps[1..], s, id, gone)
  }

  /** Stores only grow, at every node. */
  lemma StoresGrow(cfg: Config, sys: System, step: Step, n: NodeId, id: ChunkId)
    requires Enabled(cfg, sys, step) && Holds(sys, n, id)
    ensures Holds(Next(cfg, sys, step), n, id)
  {
    if step.Acts? && n == step.node {
      OwnStoreGrows(cfg, n, sys[n], step.act);
    }
  }

  lemma OwnStoreGrows(cfg: Config, self: NodeId, nd: Node, a: Act)
    requires CanAct(self, nd, a)
    ensures forall id | id in nd.store :: id in Acted(cfg, self, nd, a).store
  {}

  /** Care survives any change that keeps the ring of `s` and keeps or replaces its work on the chunk. */
  lemma CareCarriesOver(cfg: Config, sys: System, sys': System, s: NodeId, id: ChunkId, gone: set<NodeId>)
    requires Cared(cfg, sys, s, id, gone) && s in sys' && sys'[s].ring == sys[s].ring
    requires forall t | Holds(sys, t, id) :: Holds(sys', t, id)
    requires PassCovers(sys[s], id) ==> PassCovers(sys'[s], id) || QueueCovers(sys'[s], id)
    requires QueueCovers(sys[s], id) ==> QueueCovers(sys'[s], id) || PushCovers(cfg, sys', s, id, gone)
    requires PushCovers(cfg, sys, s, id, gone) ==>
               PushCovers(cfg, sys', s, id, gone) || Replicated(cfg, sys', s, id, gone)
    ensures Cared(cfg, sys', s, id, gone)
  {
    assert Holds(sys, s, id);
    assert Replicated(cfg, sys, s, id, gone) ==> Replicated(cfg, sys', s, id, gone);
  }

  /** The pushes of `s` go on covering the chunk unless one of those in `except` did. */
  lemma PushesCarryOver(cfg: Config, sys: System, sys': System, s: NodeId, id: ChunkId, gone: set<NodeId>, except: set<nat>)
    requires s in sys && s in sys' && sys'[s].ring == sys[s].ring
    requires forall t | Holds(sys, t, id) :: Holds(sys', t, id)
    requires forall k | k in sys[s].inFlight && k !in except ::
               k in sys'[s].inFlight && sys'[s].inFlight[k] == sys[s].inFlight[k]
    requires forall k | k in except && k in sys[s].inFlight :: !Serves(cfg, sys, s, id, gone, sys[s].inFlight[k])
    ensures PushCovers(cfg, sys, s, id, gone) ==> PushCovers(cfg, sys', s, id, gone)
  {
    if PushCovers(cfg, sys, s, id, gone) {
      var k :| k in sys[s].inFlight && Serves(cfg, sys, s, id, gone, sys[s].inFlight[k]);
      assert Serves(cfg, sys', s, id, gone, sys'[s].inFlight[k]);
    }
  }

  lemma AllStoresGrow(cfg: Config, sys: System, step: Step, id: ChunkId)
    requires Enabled(cfg, sys, step)
    ensures forall t | Holds(sys, t, id) :: Holds(Next(cfg, sys, step), t, id)
  {
    forall t | Holds(sys, t, id) ensures Holds(Next(cfg, sys, step), t, id) {
      StoresGrow(cfg, sys, step, t, id);
    }
  }

  lemma UndisturbedKeepsCare(cfg: Config, sys: System, sys': System, s: NodeId, id: ChunkId, gone: set<NodeId>)
    requires Cared(cfg, sys, s, id, gone) && s in sys' && sys'[s].ring == sys[s].ring
    requires sys'[s].passes == sys[s].passes && sys'[s].inFlight == sys[s].inFlight
    requires forall job | job in sys[s].queue :: job in sys'[s].queue
    requires forall t | Holds(sys, t, id) :: Holds(sys', t, id)
    ensures Cared(cfg, sys', s, id, gone)
  {
    PushesCarryOver(cfg, sys, sys', s, id, gone, {});
    CareCarriesOver(cfg, sys, sys', s, id, gone);
  }

  lemma OtherNodesKeepCare(cfg: Config, sys: System, step: Step, s: NodeId, id: ChunkId, gone: set<NodeId>)
    requires Cared(cfg, sys, s, id, gone) && Enabled(cfg, sys, step) && step.node != s
    ensures Cared(cfg, Next(cfg, sys, step), s, id, gone)
  {
    hide Targets, CollisionFree;
    var sys' := Next(cfg, sys, step);
    AllStoresGrow(cfg, sys, step, id);
    assert sys'[s] == sys[s].(store := sys'[s].store);
    UndisturbedKeepsCare(cfg, sys, sys', s, id, gone);
  }

  /** Uploads and received chunks do not disturb the work in hand. */
  lemma OrdinaryActsKeepCare(cfg: Config, sys: System, s: NodeId, id: ChunkId, gone: set<NodeId>, a: Act)
    requires Cared(cfg, sys, s, id, gone) && Enabled(cfg, sys, Acts(s, a))
    requires a.BeginUpload? || a.PlaceChunk? || a.QueueChunk? || a.EndUpload? || a.AbortUpload? || a.ReceivePut?
    ensures Cared(cfg, Next(cfg, sys, Acts(s, a)), s, id, gone)
  {
    hide Targets, CollisionFree;
    var sys' := Next(cfg, sys, Acts(s, a));
    AllStoresGrow(cfg, sys, Acts(s, a), id);
    OrdinaryActs(cfg, s, sys[s], a);
    UndisturbedKeepsCare(cfg, sys, sys', s, id, gone);
  }

  lemma OrdinaryActs(cfg: Config, self: NodeId, nd: Node, a: Act)
    requires CanAct(self, nd, a)
    requires a.BeginUpload? || a.PlaceChunk? || a.QueueChunk? || a.EndUpload? || a.AbortUpload? || a.ReceivePut?
    ensures var nd' := Acted(cfg, self, nd, a);
            && nd'.ring == nd.ring && nd'.passes == nd.passes && nd'.inFlight == nd.inFlight
            && forall job | job in nd.queue :: job in nd'.queue
  {}

  lemma {:induction false} DeleteOthers(s: seq<NodeId>, x: NodeId, y: NodeId)
    requires y in s && y != x
    ensures y in Delete(s, x)
  {
    if s[0] != y {
      DeleteOthers(s[1..], x, y);
    }
  }

  /** A job just taken is to be pushed to every owner as of now. */
  lemma TakenJobServes(cfg: Config, sys: System, sys': System, s: NodeId, id: ChunkId, gone: set<NodeId>, job: Job)
    requires s in sys && s in sys' && sys'[s].ring == sys[s].ring && Holds(sys', s, id) && job.chunkID == id
    ensures Serves(cfg, sys', s, id, gone, Push(job, Delete(Owners(cfg, sys[s], id), s)))
  {
    forall t | t in Owners(cfg, sys[s], id) && t != s ensures t in Delete(Owners(cfg, sys[s], id), s) {
      DeleteOthers(Owners(cfg, sys[s], id), s, t);
    }
  }

  lemma TakeJobKeepsCare(cfg: Config, sys: System, s: NodeId, id: ChunkId, gone: set<NodeId>, a: Act)
    requires Cared(cfg, sys, s, id, gone) && Enabled(cfg, sys, Acts(s, a)) && a.TakeJob?
    ensures Cared(cfg, Next(cfg, sys, Acts(s, a)), s, id, gone)
  {
    hide Targets, CollisionFree;
    var sys' := Next(cfg, sys, Acts(s, a));
    AllStoresGrow(cfg, sys, Acts(s, a), id);
    var head := sys[s].queue[0];
    if head.chunkID == id {
      assert Holds(sys, s, id);
      TakenJobServes(cfg, sys, sys', s, id, gone, head);
      assert sys'[s].inFlight[a.k] == Push(head, Delete(Owners(cfg, sys[s], id), s));
    } else if QueueCovers(sys[s], id) {
      var job :| job in sys[s].queue && job.chunkID == id;
      assert job in sys'[s].queue;
    }
    PushesCarryOver(cfg, sys, sys', s, id, gone, {});
    CareCarriesOver(cfg, sys, sys', s, id, gone);
  }

  lemma EndJobKeepsCare(cfg: Config, sys: System, s: NodeId, id: ChunkId, gone: set<NodeId>, a: Act)
    requires Cared(cfg, sys, s, id, gone) && Enabled(cfg, sys, Acts(s, a)) && a.EndJob?
    ensures Cared(cfg, Next(cfg, sys, Acts(s, a)), s, id, gone)
  {
    hide Targets, CollisionFree;
    var sys' := Next(cfg, sys, Acts(s, a));
    AllStoresGrow(cfg, sys, Acts(s, a), id);
    if Serves(cfg, sys, s, id, gone, sys[s].inFlight[a.k]) {
      assert Replicated(cfg, sys', s, id, gone);
    } else {
      PushesCarryOver(cfg, sys, sys', s, id, gone, {a.k});
    }
    CareCarriesOver(cfg, sys, sys', s, id, gone);
  }

  /** The push at hand is through with a target that now has the chunk, or will not be missed. */
  ghost predicate TargetDone(sys: System, sys': System, s: NodeId, id: ChunkId, gone: set<NodeId>, k: nat) {
    && s in sys && s in sys' && k in sys[s].inFlight && sys[s].inFlight[k].todo != []
    && sys'[s] == Sent(sys[s], k).(store := sys'[s].store)
    && (forall t | Holds(sys, t, id) :: Holds(sys', t, id))
    && (sys[s].inFlight[k].job.chunkID == id ==>
          Holds(sys', sys[s].inFlight[k].todo[0], id) || sys[s].inFlight[k].todo[0] in gone)
  }

  lemma ServesOn(cfg: Config, sys: System, sys': System, s: NodeId, id: ChunkId, gone: set<NodeId>, k: nat)
    requires TargetDone(sys, sys', s, id, gone, k) && Serves(cfg, sys, s, id, gone, sys[s].inFlight[k])
    ensures Serves(cfg, sys', s, id, gone, sys'[s].inFlight[k])
  {
    var todo := sys[s].inFlight[k].todo;
    assert todo == [todo[0]] + todo[1..];
  }

  lemma PushGoesOn(cfg: Config, sys: System, sys': System, s: NodeId, id: ChunkId, gone: set<NodeId>, k: nat)
    requires TargetDone(sys, sys', s, id, gone, k)
    ensures PushCovers(cfg, sys, s, id, gone) ==> PushCovers(cfg, sys', s, id, gone)
  {
    if Serves(cfg, sys, s, id, gone, sys[s].inFlight[k]) {
      ServesOn(cfg, sys, sys', s, id, gone, k);
      assert k in sys'[s].inFlight;
    } else {
      PushesCarryOver(cfg, sys, sys', s, id, gone, {k});
    }
  }

  lemma TargetDoneKeepsCare(cfg: Config, sys: System, sys': System, s: NodeId, id: ChunkId, gone: set<NodeId>, k: nat)
    requires Cared(cfg, sys, s, id, gone) && TargetDone(sys, sys', s, id, gone, k)
    ensures Cared(cfg, sys', s, id, gone)
  {
    PushGoesOn(cfg, sys, sys', s, id, gone, k);
    CareCarriesOver(cfg, sys, sys', s, id, gone);
  }

  lemma PushArrivesKeepsCare(cfg: Config, sys: System, s: NodeId, id: ChunkId, gone: set<NodeId>, k: nat)
    requires Cared(cfg, sys, s, id, gone) && Enabled(cfg, sys, PushArrives(s, k))
    ensures Cared(cfg, Next(cfg, sys, PushArrives(s, k)), s, id, gone)
  {
    hide Targets, CollisionFree;
    AllStoresGrow(cfg, sys, PushArrives(s, k), id);
    TargetDoneKeepsCare(cfg, sys, Next(cfg, sys, PushArrives(s, k)), s, id, gone, k);
  }

  lemma GiveUpKeepsCare(cfg: Config, sys: System, s: NodeId, id: ChunkId, gone: set<NodeId>, k: nat)
    requires Cared(cfg, sys, s, id, gone) && Enabled(cfg, sys, Acts(s, GiveUpPush(k)))
    requires Smooth(sys, s, id, gone, Acts(s, GiveUpPush(k)))
    ensures Cared(cfg, Next(cfg, sys, Acts(s, GiveUpPush(k))), s, id, gone)
  {
    AllStoresGrow(cfg, sys, Acts(s, GiveUpPush(k)), id);
    TargetDoneKeepsCare(cfg, sys, Next(cfg, sys, Acts(s, GiveUpPush(k))), s, id, gone, k);
  }

  lemma PassesKeepCare(cfg: Config, sys: System, s: NodeId, id: ChunkId, gone: set<NodeId>, a: Act)
    requires Cared(cfg, sys, s, id, gone) && Enabled(cfg, sys, Acts(s, a))
    requires a.ListChunks? || (a.RepairChunk? && a.readable) || a.EndPass?
    ensures Cared(cfg, Next(cfg, sys, Acts(s, a)), s, id, gone)
  {
    hide Targets, CollisionFree;
    var sys' := Next(cfg, sys, Acts(s, a));
    AllStoresGrow(cfg, sys, Acts(s, a), id);
    PassWork(cfg, s, sys[s], a, id);
    PushesCarryOver(cfg, sys, sys', s, id, gone, {});
    CareCarriesOver(cfg, sys, sys', s, id, gone);
  }

  /** A scan reaches every chunk listed, and queues those owned here. */
  lemma PassWork(cfg: Config, self: NodeId, nd: Node, a: Act, id: ChunkId)
    requires CanAct(self, nd, a) && id in nd.store
    requires a.ListChunks? || (a.RepairChunk? && a.readable && (nd.passes[a.k].todo[0] == id ==> self in a.owners)) || a.EndPass?
    ensures var nd' := Acted(cfg, self, nd, a);
            && nd'.ring == nd.ring && nd'.inFlight == nd.inFlight && nd'.store == nd.store
            && (QueueCovers(nd, id) ==> QueueCovers(nd', id))
            && (PassCovers(nd, id) ==> PassCovers(nd', id) || QueueCovers(nd', id))
  {
    var nd' := Acted(cfg, self, nd, a);
    if QueueCovers(nd, id) {
      var job :| job in nd.queue && job.chunkID == id;
      assert job in nd'.queue;
    }
    if PassCovers(nd, id) {
      var k :| k in nd.passes && (nd.passes[k].Waiting? || id in nd.passes[k].todo);
      if k == a.k {
        if a.ListChunks? {
          assert id in Elements(a.ids);
          assert id in nd'.passes[k].todo;
        } else if nd.passes[k].todo[0] == id {
          assert Job(id, nd.store[id]) in nd'.queue;
        } else {
          assert id in nd'.passes[k].todo;
        }
      } else {
        assert k in nd'.passes && nd'.passes[k] == nd.passes[k];
      }
    }
  }

  /** A holder that handles a death takes every chunk it is responsible for into its care, whatever was missing before. */
  lemma DeathBringsCare(cfg: Config, sys: System, s: NodeId, id: ChunkId, gone: set<NodeId>, d: NodeId, k: nat)
    requires Enabled(cfg, sys, Acts(s, NodeDies(d, k))) && d != s && CollisionFree(cfg.hk, sys[s].ring)
    requires s in Owners(cfg, sys[s], id) && id in sys[s].store
    ensures Cared(cfg, Next(cfg, sys, Acts(s, NodeDies(d, k))), s, id, gone)
  {
    hide Targets, CollisionFree;
    CollisionFreeSubset(cfg.hk, sys[s].ring, sys[s].ring - {d});
    OwnersAfterDeath(cfg, sys[s], id, s, d);
    PassBegun(cfg, s, sys[s], d, k, id);
  }

  lemma OwnersAfterDeath(cfg: Config, nd: Node, id: ChunkId, s: NodeId, d: NodeId)
    requires CollisionFree(cfg.hk, nd.ring) && s in Owners(cfg, nd, id) && d != s
    ensures s in Targets(cfg.hk, nd.ring - {d}, id, FACTOR)
  {
    TargetsOnRing(cfg.hk, nd.ring, id, FACTOR);
    TargetStays(cfg.hk, nd.ring, nd.ring - {d}, id, FACTOR, s);
  }

  lemma PassBegun(cfg: Config, self: NodeId, nd: Node, d: NodeId, k: nat, id: ChunkId)
    requires CanAct(self, nd, NodeDies(d, k))
    ensures PassCovers(Acted(cfg, self, nd, NodeDies(d, k)), id)
  {
    var nd' := Acted(cfg, self, nd, NodeDies(d, k));
    assert k in nd'.passes && nd'.passes[k].Waiting?;
  }

  lemma StepKeepsCare(cfg: Config, sys: System, step: Step, s: NodeId, id: ChunkId, gone: set<NodeId>)
    requires Cared(cfg, sys, s, id, gone) && Enabled(cfg, sys, step) && Smooth(sys, s, id, gone, step)
    ensures Cared(cfg, Next(cfg, sys, step), s, id, gone)
  {
    hide Targets, CollisionFree;
    if step.node != s {
      OtherNodesKeepCare(cfg, sys, step, s, id, gone);
    } else if step.PushArrives? {
      PushArrivesKeepsCare(cfg, sys, s, id, gone, step.k);
    } else {
      var a := step.act;
      if a.NodeDies? {
        DeathBringsCare(cfg, sys, s, id, gone, a.node, a.k);
      } else if a.ListChunks? || a.RepairChunk? || a.EndPass? {
        PassesKeepCare(cfg, sys, s, id, gone, a);
      } else if a.TakeJob? {
        TakeJobKeepsCare(cfg, sys, s, id, gone, a);
      } else if a.EndJob? {
        EndJobKeepsCare(cfg, sys, s, id, gone, a);
      } else if a.GiveUpPush? {
        GiveUpKeepsCare(cfg, sys, s, id, gone, a.k);
      } else {
        OrdinaryActsKeepCare(cfg, sys, s, id, gone, a);
      }
    }
  }

  lemma {:induction false} RunKeepsCare(cfg: Config, sys: System, steps: seq<Step>, end: System, s: NodeId, id: ChunkId,
                                        gone: set<NodeId>)
    requires Cared(cfg, sys, s, id, gone) && Run(cfg, sys, steps, end) && SmoothRun(cfg, sys, steps, s, id, gone)
    ensures Cared(cfg, end, s, id, gone)
    decreases |steps|
  {
    if steps != [] {
      StepKeepsCare(cfg, sys, steps[0], s, id, gone);
      RunKeepsCare(cfg, Next(cfg, sys, steps[0]), steps[1..], end, s, id, gone);
    }
  }

  /** The node has finished its repair passes, emptied its queue and is pushing this chunk nowhere. */
  ghost predicate Settled(nd: Node, id: ChunkId) {
    && nd.passes == map[] && nd.queue == []
    && forall k | k in nd.inFlight :: nd.inFlight[k].job.chunkID != id
  }

  lemma SettledIsReplicated(cfg: Config, end: System, s: NodeId, id: ChunkId, gone: set<NodeId>)
    requires Cared(cfg, end, s, id, gone) && end[s].ring !! gone && Settled(end[s], id)
    ensures Replicated(cfg, end, s, id, {})
  {
    TargetsOnRing(cfg.hk, end[s].ring, id, FACTOR);
    assert !PassCovers(end[s], id) && !QueueCovers(end[s], id) && !PushCovers(cfg, end, s, id, gone);
  }

  /** Care leads to full replication, however it came about. */
  lemma CareIsFulfilled(cfg: Config, sys: System, steps: seq<Step>, end: System, s: NodeId, id: ChunkId, gone: set<NodeId>)
    requires Cared(cfg, sys, s, id, gone) && Run(cfg, sys, steps, end) && SmoothRun(cfg, sys, steps, s, id, gone)
    requires s in end && end[s].ring !! gone && end[s].passes == map[] && end[s].queue == []
    requires forall k | k in end[s].inFlight :: end[s].inFlight[k].job.chunkID != id
    ensures (forall t | t in Targets(cfg.hk, end[s].ring, id, 3) :: t in end && id in end[t].store)
    ensures s in Targets(cfg.hk, end[s].ring, id, 3)
    ensures |Targets(cfg.hk, end[s].ring, id, 3)| == if |end[s].ring| < 3 then |end[s].ring| else 3
  {
    hide Targets, CollisionFree;
    RunKeepsCare(cfg, sys, steps, end, s, id, gone);
    SettledIsReplicated(cfg, end, s, id, gone);
    TargetsExact(cfg.hk, end[s].ring, id, FACTOR);
  }

  /**
   One death handled by one holder is enough: however few copies there were before, once that node has
   settled the chunk is on all the nodes then responsible.
   */
  lemma OneDeathHeals(cfg: Config, sys: System, d: NodeId, k: nat, steps: seq<Step>, end: System, s: NodeId, id: ChunkId,
                      gone: set<NodeId>)
    requires Enabled(cfg, sys, Acts(s, NodeDies(d, k))) && d != s && CollisionFree(cfg.hk, sys[s].ring)
    requires s in Targets(cfg.hk, sys[s].ring, id, 3) && id in sys[s].store
    requires Run(cfg, Next(cfg, sys, Acts(s, NodeDies(d, k))), steps, end)
    requires SmoothRun(cfg, Next(cfg, sys, Acts(s, NodeDies(d, k))), steps, s, id, gone)
    requires s in end && end[s].ring !! gone && end[s].passes == map[] && end[s].queue == []
    requires forall k | k in end[s].inFlight :: end[s].inFlight[k].job.chunkID != id
    ensures (forall t | t in Targets(cfg.hk, end[s].ring, id, 3) :: t in end && id in end[t].store)
    ensures s in Targets(cfg.hk, end[s].ring, id, 3)
    ensures |Targets(cfg.hk, end[s].ring, id, 3)| == if |end[s].ring| < 3 then |end[s].ring| else 3
  {
    hide Targets, CollisionFree;
    DeathBringsCare(cfg, sys, s, id, gone, d, k);
    CareIsFulfilled(cfg, Next(cfg, sys, Acts(s, NodeDies(d, k))), steps, end, s, id, gone);
  }

  /** An upload hands its chunks into the care of the node, if it is responsible for them. */
  lemma UploadedIsCared(cfg: Config, sys: System, s: NodeId, k: nat)
    requires Enabled(cfg, sys, Acts(s, QueueChunk(k))) && CollisionFree(cfg.hk, sys[s].ring)
    requires var id := sys[s].uploads[k].todo[0].id; s in Owners(cfg, sys[s], id) && id in sys[s].store
    ensures Cared(cfg, Next(cfg, sys, Acts(s, QueueChunk(k))), s, sys[s].uploads[k].todo[0].id, {})
  {
    var c := sys[s].uploads[k].todo[0];
    assert Job(c.id, c.data) in Next(cfg, sys, Acts(s, QueueChunk(k)))[s].queue;
  }

  /**
   Self-healing: let a chunk be on all the nodes responsible for it, as one of them sees the ring, except
   perhaps those about to be lost (`gone`). Whatever happens meanwhile, as soon as that one node has
   taken all of `gone` off its ring and has settled, the chunk is on all the nodes then responsible,
   and the node is still one of them.
   */
  lemma SelfHealing(cfg: Config, sys: System, steps: seq<Step>, end: System, s: NodeId, id: ChunkId, gone: set<NodeId>)
    requires s in sys && CollisionFree(cfg.hk, sys[s].ring)
    requires s in Targets(cfg.hk, sys[s].ring, id, 3) && s !in gone
    requires forall t | t in Targets(cfg.hk, sys[s].ring, id, 3) && t !in gone :: t in sys && id in sys[t].store
    requires Run(cfg, sys, steps, end) && SmoothRun(cfg, sys, steps, s, id, gone)
    requires s in end && end[s].ring !! gone && end[s].passes == map[] && end[s].queue == []
    requires forall k | k in end[s].inFlight :: end[s].inFlight[k].job.chunkID != id
    ensures (forall t | t in Targets(cfg.hk, end[s].ring, id, 3) :: t in end && id in end[t].store)
    ensures s in Targets(cfg.hk, end[s].ring, id, 3)
    ensures |Targets(cfg.hk, end[s].ring, id, 3)| == if |end[s].ring| < 3 then |end[s].ring| else 3
  {
    hide Targets, CollisionFree;
    assert Holds(sys, s, id);
    assert Replicated(cfg, sys, s, id, gone);
    CareIsFulfilled(cfg, sys, steps, end, s, id, gone);
  }

  /** With fewer than FACTOR deaths, one of the nodes responsible is alive to do it. */
  lemma SomeHolderSurvives(hk: KeyHash, ring: set<NodeId>, dead: set<NodeId>, id: ChunkId) returns (s: NodeId)
    requires CollisionFree(hk, ring) && |ring| >= FACTOR && |dead| < FACTOR
    ensures s in Targets(hk, ring, id, FACTOR) && s !in dead
    ensures s in Targets(hk, ring - dead, id, FACTOR)
  {
    var owners := Targets(hk, ring, id, FACTOR);
    TargetsExact(hk, ring, id, FACTOR);
    ElementsSize(owners);
    s := SomeOutside(Elements(owners), dead);
    TargetStays(hk, ring, ring - dead, id, FACTOR, s);
  }

  /**
   Why re-admission is excluded: nothing is moved to a node that returns. The chunk is still on all its
   nodes exactly when the returning node is not responsible for it or has it.
   */
  lemma ReturnKeepsReplicationIff(cfg: Config, sys: System, s: NodeId, id: ChunkId, x: NodeId)
    requires Replicated(cfg, sys, s, id, {}) && x !in sys[s].ring && CollisionFree(cfg.hk, sys[s].ring + {x})
    ensures var sys' := Next(cfg, sys, Acts(s, NodeReturns(x)));
            Replicated(cfg, sys', s, id, {}) <==> x !in Owners(cfg, sys'[s], id) || Holds(sys, x, id)
  {
    var sys' := Next(cfg, sys, Acts(s, NodeReturns(x)));
    JoinAddsOnly(cfg.hk, sys[s].ring, x, id, FACTOR);
    assert sys'[s].ring == sys[s].ring + {x} && sys'[s].store == sys[s].store;
    forall t ensures Holds(sys', t, id) <==> Holds(sys, t, id) {}
  }

  /** One node has the chunk and is alone on its ring; another returns and becomes responsible without it. */
  lemma ReturnFallsShort(cfg: Config, s: NodeId, x: NodeId, data: Bytes)
    requires s != x && CollisionFree(cfg.hk, {s} + {x})
    ensures var id := cfg.address(data);
            var sys := map[s := Node({s}, map[id := data], map[], map[], [], map[], map[], map[]),
                           x := Node({x}, map[], map[], map[], [], map[], map[], map[])];
            && Enabled(cfg, sys, Acts(s, NodeReturns(x))) && Replicated(cfg, sys, s, id, {})
            && !Replicated(cfg, Next(cfg, sys, Acts(s, NodeReturns(x))), s, id, {})
  {
    hide Targets;
    var id := cfg.address(data);
    var sys := map[s := Node({s}, map[id := data], map[], map[], [], map[], map[], map[]),
                   x := Node({x}, map[], map[], map[], [], map[], map[], map[])];
    SmallRingAllTargets(cfg.hk, {s}, id, FACTOR);
    SmallRingAllTargets(cfg.hk, {s} + {x}, id, FACTOR);
    ReturnKeepsReplicationIff(cfg, sys, s, id, x);
  }
}
