/**
 Uploads that do not reach all their copies although everybody has settled: complete runs from freshly set
 up nodes, on any ring of more than FACTOR nodes. `Uploads` says exactly when this happens.
 */
module Shortfalls {
  import opened Api
  import opened Chunks
  import opened Cluster
  import opened EndToEnd
  import opened Lists
  import opened Placement
  import opened Preference
  import opened Progress
  import R = Replication
  import opened RingStates
  import opened Simulation
  import opened Uploads
  import W = WorkerPool

  /** A node with an empty store. */
  function Bare(ring: set<NodeId>, passes: map<nat, Pass>, queue: seq<W.Job>, inFlight: map<nat, Push>,
                manifests: map<string, Manifest>, completed: map<string, Bytes>): Node {
    Node(ring, map[], map[], passes, queue, inFlight, manifests, completed)
  }

  /** All nodes but the dead one are up. Only `s` has not yet taken it off its ring. */
  function Behind(ring: set<NodeId>, a: NodeId, s: NodeId): System {
    map m | m in ring - {a} :: Bare(if m == s then ring else ring - {a}, map[], [], map[], map[], map[])
  }

  /** The same with another state of `s`, and the chunk at the nodes in `hit`. */
  function Stage(base: System, s: NodeId, nd: Node, hit: set<NodeId>, id: ChunkId, data: Bytes): System {
    map m | m in base ::
      if m == s then nd else if m in hit then base[m].(store := base[m].store[id := data]) else base[m]
  }

  lemma StageActs(cfg: Config, base: System, s: NodeId, nd: Node, act: Act, nd': Node, hit: set<NodeId>, id: ChunkId,
                  data: Bytes, rest: seq<Step>, end: System) returns (steps: seq<Step>)
    requires s in base && CanAct(s, nd, act) && RingAnswers(cfg, s, nd, act) && nd' == Acted(cfg, s, nd, act)
    requires Run(cfg, Stage(base, s, nd', hit, id, data), rest, end)
    ensures Run(cfg, Stage(base, s, nd, hit, id, data), steps, end)
  {
    steps := [Acts(s, act)] + rest;
    assert steps[1..] == rest;
    assert Next(cfg, Stage(base, s, nd, hit, id, data), Acts(s, act)) == Stage(base, s, nd', hit, id, data);
  }

  lemma StageSends(base: System, s: NodeId, nd: Node, k: nat, t: NodeId, hit: set<NodeId>, id: ChunkId, data: Bytes, cfg: Config)
    requires s in base && t in base && t != s && t !in hit && cfg.address(data) == id
    requires k in nd.inFlight && nd.inFlight[k].todo != []
    ensures var here := Stage(base, s, nd, hit, id, data);
            here[s := Sent(nd, k)][t := Received(cfg, here[t], id, data)] == Stage(base, s, Sent(nd, k), hit + {t}, id, data)
  {}

  lemma StagePush(cfg: Config, base: System, s: NodeId, nd: Node, k: nat, t: NodeId, hit: set<NodeId>, id: ChunkId, data: Bytes,
                  rest: seq<Step>, end: System) returns (steps: seq<Step>)
    requires s in base && t in base && t != s && t !in hit && cfg.address(data) == id
    requires k in nd.inFlight && nd.inFlight[k].todo != [] && nd.inFlight[k].todo[0] == t
    requires nd.inFlight[k].job == W.Job(id, data)
    requires Run(cfg, Stage(base, s, Sent(nd, k), hit + {t}, id, data), rest, end)
    ensures Run(cfg, Stage(base, s, nd, hit, id, data), steps, end)
  {
    var here := Stage(base, s, nd, hit, id, data);
    steps := [PushArrives(s, k)] + rest;
    assert steps[1..] == rest;
    StageSends(base, s, nd, k, t, hit, id, data, cfg);
  }

  /** A node with one push under way. */
  function Pushing(ring: set<NodeId>, job: W.Job, todo: seq<NodeId>, m: map<string, Manifest>, c: map<string, Bytes>): Node {
    Bare(ring, map[], [], map[0 := Push(job, todo)], m, c)
  }

  /** Taking a job off the queue, and finishing it. */
  lemma JobActs(cfg: Config, s: NodeId, ring: set<NodeId>, job: W.Job, owners: seq<NodeId>, m: map<string, Manifest>,
                c: map<string, Bytes>)
    ensures var nd := Bare(ring, map[], [job], map[], m, c);
            CanAct(s, nd, TakeJob(0, owners)) && Acted(cfg, s, nd, TakeJob(0, owners)) == Pushing(ring, job, Delete(owners, s), m, c)
    ensures CanAct(s, Pushing(ring, job, [], m, c), EndJob(0))
    ensures Acted(cfg, s, Pushing(ring, job, [], m, c), EndJob(0)) == Bare(ring, map[], [], map[], m, c)
  {
    assert map[0 := Push(job, [])] - {0} == map[];
  }

  lemma SentHead(ring: set<NodeId>, job: W.Job, t: NodeId, todo: seq<NodeId>, m: map<string, Manifest>, c: map<string, Bytes>)
    ensures Sent(Pushing(ring, job, [t] + todo, m, c), 0) == Pushing(ring, job, todo, m, c)
  {
    assert ([t] + todo)[1..] == todo;
  }

  /** The whole handling of a death by a node whose store is empty. */
  lemma DeathHandled(cfg: Config, base: System, s: NodeId, ring: set<NodeId>, a: NodeId, queue: seq<W.Job>,
                     m: map<string, Manifest>, c: map<string, Bytes>, hit: set<NodeId>, id: ChunkId, data: Bytes,
                     rest: seq<Step>, end: System) returns (steps: seq<Step>)
    requires s in base
    requires Run(cfg, Stage(base, s, Bare(ring - {a}, map[], queue, map[], m, c), hit, id, data), rest, end)
    ensures Run(cfg, Stage(base, s, Bare(ring, map[], queue, map[], m, c), hit, id, data), steps, end)
  {
    hide Run, Stage;
    var nd0 := Bare(ring, map[], queue, map[], m, c);
    var nd1 := Bare(ring - {a}, map[0 := Waiting], queue, map[], m, c);
    var nd2 := Bare(ring - {a}, map[0 := Scanning([])], queue, map[], m, c);
    var nd3 := Bare(ring - {a}, map[], queue, map[], m, c);
    assert map[0 := Scanning([])] - {0} == map[];
    assert Elements<ChunkId>([]) == nd1.store.Keys;
    steps := StageActs(cfg, base, s, nd2, EndPass(0), nd3, hit, id, data, rest, end);
    steps := StageActs(cfg, base, s, nd1, ListChunks(0, []), nd2, hit, id, data, steps, end);
    steps := StageActs(cfg, base, s, nd0, NodeDies(a, 0), nd1, hit, id, data, steps, end);
  }

  /** Two pushes that arrive, and the end of the job. */
  lemma TwoArrive(cfg: Config, base: System, s: NodeId, ring: set<NodeId>, b: NodeId, c: NodeId, m: map<string, Manifest>,
                  cs: map<string, Bytes>, id: ChunkId, data: Bytes, rest: seq<Step>, end: System) returns (steps: seq<Step>)
    requires s in base && b in base && c in base && b != s && c != s && b != c && cfg.address(data) == id
    requires Run(cfg, Stage(base, s, Bare(ring, map[], [], map[], m, cs), {b, c}, id, data), rest, end)
    ensures Run(cfg, Stage(base, s, Pushing(ring, W.Job(id, data), [b, c], m, cs), {}, id, data), steps, end)
  {
    hide Run, Stage;
    var job := W.Job(id, data);
    JobActs(cfg, s, ring, job, [], m, cs);
    steps := StageActs(cfg, base, s, Pushing(ring, job, [], m, cs), EndJob(0), Bare(ring, map[], [], map[], m, cs), {b, c}, id,
                       data, rest, end);
    SentHead(ring, job, c, [], m, cs);
    assert {b} + {c} == {b, c} && {} + {b} == {b} && [c] + [] == [c] && [b] + [c] == [b, c];
    steps := StagePush(cfg, base, s, Pushing(ring, job, [c], m, cs), 0, c, {b}, id, data, steps, end);
    SentHead(ring, job, b, [c], m, cs);
    steps := StagePush(cfg, base, s, Pushing(ring, job, [b, c], m, cs), 0, b, {}, id, data, steps, end);
  }

  /** The cluster with the job queued at `s`, and with everything done except that nobody else has the chunk. */
  function Queued(base: System, s: NodeId, ring: set<NodeId>, m: map<string, Manifest>, c: map<string, Bytes>, id: ChunkId,
                  data: Bytes): System {
    Stage(base, s, Bare(ring, map[], [W.Job(id, data)], map[], m, c), {}, id, data)
  }

  function Done(base: System, s: NodeId, ring: set<NodeId>, hit: set<NodeId>, m: map<string, Manifest>, c: map<string, Bytes>,
                id: ChunkId, data: Bytes): System {
    Stage(base, s, Bare(ring, map[], [], map[], m, c), hit, id, data)
  }

  /** From the queued job to the end: the dead target comes first, and its death is handled last. */
  lemma PushThenDeath(cfg: Config, base: System, s: NodeId, ring: set<NodeId>, a: NodeId, b: NodeId, c: NodeId,
                      m: map<string, Manifest>, cs: map<string, Bytes>, id: ChunkId, data: Bytes) returns (steps: seq<Step>)
    requires Targets(cfg.hk, ring, id, FACTOR) == [a, b, c] && a != s && b != s && c != s && b != c
    requires s in base && b in base && c in base && cfg.address(data) == id
    ensures Run(cfg, Queued(base, s, ring, m, cs, id, data), steps, Done(base, s, ring - {a}, {b, c}, m, cs, id, data))
  {
    hide Targets;
    var job, end := W.Job(id, data), Done(base, s, ring - {a}, {b, c}, m, cs, id, data);
    steps := DeathHandled(cfg, base, s, ring, a, [], m, cs, {b, c}, id, data, [], end);
    steps := GiveUpThenTwo(cfg, base, s, ring, a, b, c, m, cs, id, data, steps, end);
    JobActs(cfg, s, ring, job, [a, b, c], m, cs);
    DeleteNone(a, b, c, s);
    steps := StageActs(cfg, base, s, Bare(ring, map[], [job], map[], m, cs), TakeJob(0, [a, b, c]),
                       Pushing(ring, job, [a, b, c], m, cs), {}, id, data, steps, end);
  }

  lemma GiveUpThenTwo(cfg: Config, base: System, s: NodeId, ring: set<NodeId>, a: NodeId, b: NodeId, c: NodeId,
                      m: map<string, Manifest>, cs: map<string, Bytes>, id: ChunkId, data: Bytes, rest: seq<Step>, end: System)
    returns (steps: seq<Step>)
    requires s in base && b in base && c in base && b != s && c != s && b != c && cfg.address(data) == id
    requires Run(cfg, Done(base, s, ring, {b, c}, m, cs, id, data), rest, end)
    ensures Run(cfg, Stage(base, s, Pushing(ring, W.Job(id, data), [a, b, c], m, cs), {}, id, data), steps, end)
  {
    var job := W.Job(id, data);
    steps := TwoArrive(cfg, base, s, ring, b, c, m, cs, id, data, rest, end);
    SentHead(ring, job, a, [b, c], m, cs);
    assert [a] + [b, c] == [a, b, c];
    steps := StageActs(cfg, base, s, Pushing(ring, job, [a, b, c], m, cs), GiveUpPush(0), Pushing(ring, job, [b, c], m, cs), {},
                       id, data, steps, end);
  }

  lemma DeleteNone(a: NodeId, b: NodeId, c: NodeId, s: NodeId)
    requires a != s && b != s && c != s
    ensures Delete([a, b, c], s) == [a, b, c]
  {
    DeleteAbsent([a, b, c], s);
  }

  /** From the queued job to the end: the death is handled first, and moves the node itself up. */
  lemma DeathThenPush(cfg: Config, base: System, s: NodeId, ring: set<NodeId>, a: NodeId, b: NodeId, c: NodeId,
                      m: map<string, Manifest>, cs: map<string, Bytes>, id: ChunkId, data: Bytes) returns (steps: seq<Step>)
    requires Targets(cfg.hk, ring - {a}, id, FACTOR) == [b, c, s] && b != s && c != s && b != c
    requires s in base && b in base && c in base && cfg.address(data) == id
    ensures Run(cfg, Queued(base, s, ring, m, cs, id, data), steps, Done(base, s, ring - {a}, {b, c}, m, cs, id, data))
  {
    hide Targets;
    var job, after := W.Job(id, data), ring - {a};
    var end := Done(base, s, after, {b, c}, m, cs, id, data);
    steps := TwoArrive(cfg, base, s, after, b, c, m, cs, id, data, [], end);
    JobActs(cfg, s, after, job, [b, c, s], m, cs);
    DeleteLast(b, c, s);
    steps := StageActs(cfg, base, s, Bare(after, map[], [job], map[], m, cs), TakeJob(0, [b, c, s]),
                       Pushing(after, job, [b, c], m, cs), {}, id, data, steps, end);
    steps := DeathHandled(cfg, base, s, ring, a, [job], m, cs, {}, id, data, steps, end);
  }

  lemma DeleteLast(b: NodeId, c: NodeId, s: NodeId)
    requires b != s && c != s
    ensures Delete([b, c, s], s) == [b, c]
  {
    DeleteCons(s, [], s);
    DeleteCons(c, [s], s);
    DeleteCons(b, [c, s], s);
    assert [s] + [] == [s] && [c] + [s] == [c, s] && [b] + [c, s] == [b, c, s];
    assert Delete([c, s], s) == [c] + [] == [c];
  }

  // ---------------------------------------------------------------------------------------------
  // The two ways to lose a copy
  // ---------------------------------------------------------------------------------------------

  /** Every node has settled on this ring, and one of those responsible for the chunk does not have it. */
  ghost predicate FallsShort(cfg: Config, end: System, ring: set<NodeId>, id: ChunkId) {
    && (forall m | m in end :: end[m].ring == ring && Finished(end[m]))
    && (exists t :: t in Targets(cfg.hk, ring, id, FACTOR) && !Holds(end, t, id))
  }

  /** Freshly set up nodes, of which only `s` does not know that `a` is dead, come to this by these steps. */
  ghost predicate ShortRun(cfg: Config, ring: set<NodeId>, a: NodeId, s: NodeId, id: ChunkId, steps: seq<Step>, end: System) {
    && Blank(Behind(ring, a, s)) && Run(cfg, Behind(ring, a, s), steps, end)
    && FallsShort(cfg, end, ring - {a}, id)
  }

  /** ... and the blob was uploaded in the course of it, and has reached those responsible before who are alive. */
  ghost predicate UploadedTo(cfg: Config, ring: set<NodeId>, a: NodeId, s: NodeId, blobID: string, data: Bytes, end: System) {
    && s in end && blobID in end[s].completed && end[s].completed[blobID] == data
    && forall t | t in Targets(cfg.hk, ring, cfg.address(data), FACTOR) && t != a :: Holds(end, t, cfg.address(data))
  }

  /** What an upload of a single chunk leaves at a node that is not responsible for it. */
  lemma SmallUpload(cfg: Config, ring: set<NodeId>, base: System, s: NodeId, blobID: string, data: Bytes)
    returns (steps: seq<Step>, m: map<string, Manifest>, c: map<string, Bytes>)
    requires s in base && base[s] == Bare(ring, map[], [], map[], map[], map[]) && s in ring && 0 < |data| <= DEFAULT_SIZE
    requires s !in Targets(cfg.hk, ring, cfg.address(data), FACTOR)
    ensures Run(cfg, base, steps, Queued(base, s, ring, m, c, cfg.address(data), data))
    ensures c == map[blobID := data]
  {
    hide Targets;
    var id, v, faults: R.Faults := cfg.address(data), R.View(cfg.hk, ring, map[], s, 0), (_, _) => 1;
    var done, queue;
    steps, done, queue := HandlerIsARun(cfg, v, faults, base, blobID, data);
    var nd := Uploaded(cfg, v, base[s], blobID, data, queue);
    m, c := nd.manifests, nd.completed;
    OneChunk(cfg, v, base[s], blobID, data, done, queue);
    StageStart(base, s, nd, id, data);
  }

  lemma StageStart(base: System, s: NodeId, nd: Node, id: ChunkId, data: Bytes)
    requires s in base
    ensures base[s := nd] == Stage(base, s, nd, {}, id, data)
  {}

  lemma OneChunk(cfg: Config, v: R.View, nd: Node, blobID: string, data: Bytes, done: seq<W.Job>, queue: seq<W.Job>)
    requires 0 < |data| <= DEFAULT_SIZE && nd.queue == [] && v.hk == cfg.hk
    requires v.self !in Targets(v.hk, v.nodes, cfg.address(data), FACTOR) && v.self in v.nodes
    requires Balanced(cfg, nd.queue, JobsOf(Numbered(cfg.address, Pieces(data, DEFAULT_SIZE))), done, queue)
    ensures done == [] && queue == [W.Job(cfg.address(data), data)]
    ensures var nd' := Uploaded(cfg, v, nd, blobID, data, queue);
            nd' == nd.(queue := queue, manifests := nd'.manifests, completed := nd'.completed)
  {
    hide Targets;
    var c := Chunk(cfg.address(data), 0, data);
    OneNumbered(cfg.address, data);
    OneNotKept(v, nd.store, c);
    assert [] + queue == queue && [] + [W.Job(c.id, c.data)] == [W.Job(c.id, c.data)];
  }

  lemma OneNumbered(address: Addressing, data: Bytes)
    requires 0 < |data| <= DEFAULT_SIZE
    ensures Numbered(address, Pieces(data, DEFAULT_SIZE)) == [Chunk(address(data), 0, data)]
  {
    NumberedNext(address, [], data);
    assert [] + [data] == [data];
  }

  lemma OneNotKept(v: R.View, store: map<ChunkId, Bytes>, c: Chunk)
    requires v.self !in Targets(v.hk, v.nodes, c.id, FACTOR) && v.self in v.nodes
    ensures Kept(v, store, [c]) == store && JobsOf([c]) == [W.Job(c.id, c.data)]
  {
    hide Targets;
    KeptNext(v, store, [c], 0);
    assert [c][..1] == [c] && [c][..0] == [];
    TargetsExist(v.hk, v.nodes, c.id, FACTOR);
  }

  lemma TargetsExist(hk: KeyHash, nodes: set<NodeId>, key: string, n: nat)
    requires nodes != {} && n > 0
    ensures Targets(hk, nodes, key, n) != []
  {}

  lemma EndFallsShort(cfg: Config, ring: set<NodeId>, a: NodeId, s: NodeId, hit: set<NodeId>, id: ChunkId, data: Bytes,
                      m: map<string, Manifest>, c: map<string, Bytes>, d: NodeId)
    requires d in Targets(cfg.hk, ring - {a}, id, FACTOR) && d !in hit
    ensures FallsShort(cfg, Done(Behind(ring, a, s), s, ring - {a}, hit, m, c, id, data), ring - {a}, id)
  {
    hide Targets;
    var end := Done(Behind(ring, a, s), s, ring - {a}, hit, m, c, id, data);
    assert !Holds(end, d, id);
  }

  /** The nodes responsible, before and after the loss of the first. */
  ghost predicate Succession(hk: KeyHash, ring: set<NodeId>, id: ChunkId, a: NodeId, b: NodeId, c: NodeId, d: NodeId) {
    && Targets(hk, ring, id, FACTOR) == [a, b, c] && Targets(hk, ring - {a}, id, FACTOR) == [b, c, d]
    && NoDuplicates([a, b, c, d]) && {a, b, c, d} <= ring
  }

  lemma SuccessionExists(hk: KeyHash, ring: set<NodeId>, id: ChunkId) returns (a: NodeId, b: NodeId, c: NodeId, d: NodeId)
    requires CollisionFree(hk, ring) && |ring| > FACTOR
    ensures Succession(hk, ring, id, a, b, c, d) && a == Targets(hk, ring, id, FACTOR)[0] && d == Riser(hk, ring, id)
  {
    hide Targets;
    var more := Targets(hk, ring, id, FACTOR + 1);
    TargetsExact(hk, ring, id, FACTOR + 1);
    a, b, c, d := more[0], more[1], more[2], more[3];
    TargetsNested(hk, ring, id, FACTOR, FACTOR + 1);
    LeaveExact(hk, ring, a, id, FACTOR);
    FourEntries(more, ring, Targets(hk, ring, id, FACTOR), Targets(hk, ring - {a}, id, FACTOR));
  }

  lemma FourEntries(s: seq<NodeId>, ring: set<NodeId>, before: seq<NodeId>, after: seq<NodeId>)
    requires |s| == 4 && NoDuplicates(s) && (forall x | x in s :: x in ring)
    requires before == Prefix(s, FACTOR) && after == Prefix(Delete(s, s[0]), FACTOR)
    ensures before == [s[0], s[1], s[2]] && after == [s[1], s[2], s[3]]
    ensures NoDuplicates([s[0], s[1], s[2], s[3]]) && {s[0], s[1], s[2], s[3]} <= ring
  {
    DeleteAt(s, 0);
    assert s[..0] + s[1..] == [s[1], s[2], s[3]];
    assert s == [s[0], s[1], s[2], s[3]];
  }

  lemma BehindIsBlank(ring: set<NodeId>, a: NodeId, s: NodeId)
    ensures Blank(Behind(ring, a, s))
  {}

  /** What is left of the proofs: the upload first, then what was found about the rest. */
  lemma WholeRun(cfg: Config, ring: set<NodeId>, a: NodeId, s: NodeId, hit: set<NodeId>, m: map<string, Manifest>,
                 c: map<string, Bytes>, id: ChunkId, data: Bytes, d: NodeId, upload: seq<Step>, push: seq<Step>)
    returns (steps: seq<Step>, end: System)
    requires var base := Behind(ring, a, s);
             && Run(cfg, base, upload, Queued(base, s, ring, m, c, id, data))
             && Run(cfg, Queued(base, s, ring, m, c, id, data), push, Done(base, s, ring - {a}, hit, m, c, id, data))
    requires d in Targets(cfg.hk, ring - {a}, id, FACTOR) && d !in hit
    ensures ShortRun(cfg, ring, a, s, id, steps, end) && end == Done(Behind(ring, a, s), s, ring - {a}, hit, m, c, id, data)
  {
    hide Targets;
    var base := Behind(ring, a, s);
    end := Done(base, s, ring - {a}, hit, m, c, id, data);
    steps := upload + push;
    RunAppend(cfg, base, upload, Queued(base, s, ring, m, c, id, data), push, end);
    EndFallsShort(cfg, ring, a, s, hit, id, data, m, c, d);
    BehindIsBlank(ring, a, s);
  }

  /** While the job is being pushed, this is the situation that `DeathInFlightIff` decides. */
  lemma PushIsDeathInFlight(cfg: Config, ring: set<NodeId>, s: NodeId, data: Bytes, a: NodeId, b: NodeId, c: NodeId, d: NodeId,
                            m: map<string, Manifest>, cs: map<string, Bytes>)
    requires CollisionFree(cfg.hk, ring) && |ring| > FACTOR && Succession(cfg.hk, ring, cfg.address(data), a, b, c, d)
    requires s in ring && s != a && b != s && c != s
    ensures var id, base := cfg.address(data), Behind(ring, a, s);
            DeathInFlight(cfg, Stage(base, s, Pushing(ring, W.Job(id, data), [a, b, c], m, cs), {}, id, data), s, 0, ring, a, id)
  {
    hide Targets, CollisionFree, Uninvolved, Stage, Views;
    Different(a, b, c, d);
    assert a in [a, b, c] && Elements([a, b, c]) - {a} == {b, c};
    OthersUninvolved(ring, a, s, Pushing(ring, W.Job(cfg.address(data), data), [a, b, c], m, cs), cfg.address(data), data);
    PusherUninvolved(ring, W.Job(cfg.address(data), data), [a, b, c], m, cs);
  }

  lemma OthersUninvolved(ring: set<NodeId>, a: NodeId, s: NodeId, nd: Node, id: ChunkId, data: Bytes)
    requires s in ring && s != a && nd.ring == ring
    ensures var sys := Stage(Behind(ring, a, s), s, nd, {}, id, data);
            && s in sys && sys[s] == nd && Views(sys, ring, a)
            && forall n | n in sys && n != s && n != a :: Uninvolved(sys[n], id)
  {}

  lemma PusherUninvolved(ring: set<NodeId>, job: W.Job, todo: seq<NodeId>, m: map<string, Manifest>, cs: map<string, Bytes>)
    ensures var nd := Pushing(ring, job, todo, m, cs); Uninvolved(nd.(inFlight := nd.inFlight - {0}), job.chunkID)
  {
    assert map[0 := Push(job, todo)] - {0} == map[];
  }

  lemma PushedThenHandled(cfg: Config, ring: set<NodeId>, s: NodeId, blobID: string, data: Bytes, a: NodeId, b: NodeId,
                          c: NodeId, d: NodeId) returns (steps: seq<Step>, end: System)
    requires Succession(cfg.hk, ring, cfg.address(data), a, b, c, d) && s in ring && 0 < |data| <= DEFAULT_SIZE
    requires a != s && b != s && c != s
    ensures ShortRun(cfg, ring, a, s, cfg.address(data), steps, end) && UploadedTo(cfg, ring, a, s, blobID, data, end)
  {
    hide Targets;
    var id := cfg.address(data);
    Different(a, b, c, d);
    var upload, m, cs := SmallUpload(cfg, ring, Behind(ring, a, s), s, blobID, data);
    var push := PushThenDeath(cfg, Behind(ring, a, s), s, ring, a, b, c, m, cs, id, data);
    steps, end := WholeRun(cfg, ring, a, s, {b, c}, m, cs, id, data, d, upload, push);
    DoneIsUploaded(cfg, ring, a, b, c, s, m, cs, blobID, data);
  }

  lemma HandledThenPushed(cfg: Config, ring: set<NodeId>, s: NodeId, blobID: string, data: Bytes, a: NodeId, b: NodeId,
                          c: NodeId) returns (steps: seq<Step>, end: System)
    requires Succession(cfg.hk, ring, cfg.address(data), a, b, c, s) && 0 < |data| <= DEFAULT_SIZE
    ensures ShortRun(cfg, ring, a, s, cfg.address(data), steps, end) && UploadedTo(cfg, ring, a, s, blobID, data, end)
  {
    hide Targets;
    var id := cfg.address(data);
    Different(a, b, c, s);
    var upload, m, cs := SmallUpload(cfg, ring, Behind(ring, a, s), s, blobID, data);
    var push := DeathThenPush(cfg, Behind(ring, a, s), s, ring, a, b, c, m, cs, id, data);
    steps, end := WholeRun(cfg, ring, a, s, {b, c}, m, cs, id, data, s, upload, push);
    DoneIsUploaded(cfg, ring, a, b, c, s, m, cs, blobID, data);
  }

  lemma DoneIsUploaded(cfg: Config, ring: set<NodeId>, a: NodeId, b: NodeId, c: NodeId, s: NodeId, m: map<string, Manifest>,
                       cs: map<string, Bytes>, blobID: string, data: Bytes)
    requires Targets(cfg.hk, ring, cfg.address(data), FACTOR) == [a, b, c] && cs == map[blobID := data]
    requires {a, b, c, s} <= ring && a != s && b != s && c != s && a != b && a != c
    ensures UploadedTo(cfg, ring, a, s, blobID, data,
                       Done(Behind(ring, a, s), s, ring - {a}, {b, c}, m, cs, cfg.address(data), data))
  {
    hide Targets;
  }

  lemma Different(a: NodeId, b: NodeId, c: NodeId, d: NodeId)
    requires NoDuplicates([a, b, c, d])
    ensures a != b && a != c && a != d && b != c && b != d && c != d
    ensures d in [b, c, d] && (forall s :: s in [a, b, c] <==> s == a || s == b || s == c)
  {
    var l := [a, b, c, d];
    assert l[0] != l[1] && l[0] != l[2] && l[0] != l[3] && l[1] != l[2] && l[1] != l[3] && l[2] != l[3];
  }

  /**
   The uploader learns of a death last. The first of the nodes responsible has died, and everybody else
   has already dealt with that when the push arrives; the uploader handles the death when its job is
   through. In the end nobody owes anything, and the node that moved up has no copy.
   */
  lemma PushedBeforeDeath(cfg: Config, ring: set<NodeId>, s: NodeId, blobID: string, data: Bytes)
    returns (a: NodeId, start: System, steps: seq<Step>, end: System)
    requires CollisionFree(cfg.hk, ring) && |ring| > FACTOR && s in ring && 0 < |data| <= DEFAULT_SIZE
    requires s !in Targets(cfg.hk, ring, cfg.address(data), FACTOR)
    ensures a in Targets(cfg.hk, ring, cfg.address(data), 3) && a != s
    ensures start.Keys == ring - {a}
    ensures forall m | m in start ::
              start[m] == Node(if m == s then ring else ring - {a}, map[], map[], map[], [], map[], map[], map[])
    ensures Run(cfg, start, steps, end) && s in end && blobID in end[s].completed && end[s].completed[blobID] == data
    ensures forall m | m in end ::
              end[m].ring == ring - {a} && end[m].passes == map[] && end[m].queue == [] && end[m].inFlight == map[]
    ensures var id := cfg.address(data);
            && (forall t | t in Targets(cfg.hk, ring, id, 3) && t != a :: t in end && id in end[t].store)
            && (exists t :: t in Targets(cfg.hk, ring - {a}, id, 3) && !(t in end && id in end[t].store))
  {
    hide Targets, CollisionFree, Run;
    var b, c, d;
    a, b, c, d := SuccessionExists(cfg.hk, ring, cfg.address(data));
    assert a in [a, b, c] && b in [a, b, c] && c in [a, b, c];
    start := Behind(ring, a, s);
    steps, end := PushedThenHandled(cfg, ring, s, blobID, data, a, b, c, d);
  }

  /**
   The uploader moves up. It is not responsible when it looks whether to store the chunk, but it is when
   its job is taken; the job passes it over as if it had stored it.
   */
  lemma MovedUpUnstored(cfg: Config, ring: set<NodeId>, blobID: string, data: Bytes)
    returns (a: NodeId, s: NodeId, start: System, steps: seq<Step>, end: System)
    requires CollisionFree(cfg.hk, ring) && |ring| > FACTOR && 0 < |data| <= DEFAULT_SIZE
    ensures a in Targets(cfg.hk, ring, cfg.address(data), 3) && s !in Targets(cfg.hk, ring, cfg.address(data), 3)
    ensures s in Targets(cfg.hk, ring - {a}, cfg.address(data), 3) && start.Keys == ring - {a}
    ensures forall m | m in start ::
              start[m] == Node(if m == s then ring else ring - {a}, map[], map[], map[], [], map[], map[], map[])
    ensures Run(cfg, start, steps, end) && s in end && blobID in end[s].completed && end[s].completed[blobID] == data
    ensures forall m | m in end ::
              end[m].ring == ring - {a} && end[m].passes == map[] && end[m].queue == [] && end[m].inFlight == map[]
    ensures var id := cfg.address(data);
            && (forall t | t in Targets(cfg.hk, ring, id, 3) && t != a :: t in end && id in end[t].store)
            && (exists t :: t in Targets(cfg.hk, ring - {a}, id, 3) && !(t in end && id in end[t].store))
  {
    hide Targets, CollisionFree, Run;
    var b, c;
    a, b, c, s := SuccessionExists(cfg.hk, ring, cfg.address(data));
    Different(a, b, c, s);
    assert a in [a, b, c] && s in [b, c, s];
    start := Behind(ring, a, s);
    steps, end := HandledThenPushed(cfg, ring, s, blobID, data, a, b, c);
  }

  /**
   A restart at the wrong moment. A node that is not responsible for what it accepts has the chunk in its
   queue only; if it is started anew after it has answered the client and before a worker has taken the job,
   the cluster is as if nothing had been uploaded.
   */
  lemma RestartForgetsUpload(cfg: Config, ring: set<NodeId>, s: NodeId, blobID: string, data: Bytes)
    returns (start: System, steps: seq<Step>, mid: System)
    requires s in ring && 0 < |data| <= DEFAULT_SIZE && s !in Targets(cfg.hk, ring, cfg.address(data), 3)
    ensures start.Keys == ring
    ensures forall m | m in start :: start[m] == Node(ring, map[], map[], map[], [], map[], map[], map[])
    ensures Run(cfg, start, steps, mid) && s in mid && blobID in mid[s].completed && mid[s].completed[blobID] == data
    ensures Enabled(cfg, mid, Acts(s, Restart(ring))) && Next(cfg, mid, Acts(s, Restart(ring))) == start
  {
    hide Targets;
    start := map m | m in ring :: Bare(ring, map[], [], map[], map[], map[]);
    var m, c;
    steps, m, c := SmallUpload(cfg, ring, start, s, blobID, data);
    mid := Queued(start, s, ring, m, c, cfg.address(data), data);
  }
}
