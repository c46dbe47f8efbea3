/** The HTTP handlers of a node, without HTTP: upload, download with its fallbacks, and chunk transfer. */
module Api {
  import opened Chunks
  import opened HashRing
  import opened Lists
  import M = Membership
  import opened Placement
  import opened Preference
  import opened Recovery
  import opened Replication
  import opened RingStates
  import opened Storage
  import opened WorkerPool

  datatype Status = OK | BadRequest | NotFound | StorageFailure

  /** What a peer at an address answers when asked for a chunk; `None` stands for any failure. */
  type Network = (string, ChunkId) -> Option<Bytes>

  datatype Request = Request(addr: string, id: ChunkId)

  /** The peers, as a download meets them: what they answer, and a log of what they have been asked. */
  class Net {
    const answers: Network
    var asked: seq<Request>

    constructor (answers: Network)
      ensures this.answers == answers && asked == []
    {
      this.answers, asked := answers, [];
    }

    method Ask(addr: string, id: ChunkId) returns (found: Option<Bytes>)
      modifies this
      ensures found == answers(addr, id) && asked == old(asked) + [Request(addr, id)]
    {
      asked := asked + [Request(addr, id)];
      found := answers(addr, id);
    }
  }

  class Server {
    const selfID: NodeId
    const address: Addressing
    const ring: Ring
    const local: Memory
    const cold: Memory?
    const membership: M.Membership
    const engine: Engine
    var manifests: map<string, Manifest>

    constructor (address: Addressing, ring: Ring, local: Memory, cold: Memory?, engine: Engine)
      ensures this.address == address && this.ring == ring && this.local == local && this.cold == cold
      ensures this.engine == engine && selfID == engine.selfID && membership == engine.membership
      ensures manifests == map[]
    {
      this.address, this.ring, this.local, this.cold := address, ring, local, cold;
      this.engine, selfID, membership := engine, engine.selfID, engine.membership;
      manifests := map[];
    }

    ghost predicate Ready()
      reads this, ring, engine
    {
      && engine.ring == ring && engine.selfID == selfID && engine.membership == membership
      && engine.Ready() && |engine.queue| <= QUEUE_CAPACITY && cold != local
    }

    /** Where a chunk would be looked for now. */
    function Sources(network: Network): Lookup
      reads this, ring, local, cold, membership
    {
      Lookup(ring.hashKey, ring.nodes, selfID, membership.peers, local.data, if cold == null then map[] else cold.data,
             network)
    }

    /**
     A blob is split; the chunks owned here (or by nobody) are stored, all of them are queued for
     replication in order, and then the manifest is recorded. A rejected upload changes nothing. When a
     chunk cannot be written (`breaks` says which write of the upload fails), the chunks before it stay
     stored and queued, and no manifest is recorded.
     */
    method HandleUploadBlob(blobID: string, body: Reader, faults: Faults, breaks: nat -> bool)
      returns (status: Status, ghost n: nat, ghost jobs: seq<Job>, ghost done: seq<Job>)
      requires Ready()
      modifies this, body, local, engine
      ensures Ready() && (status == BadRequest <==> blobID == "" || body.broken)
      ensures status == BadRequest ==>
                manifests == old(manifests) && local.data == old(local.data) && engine.Trace() == old(engine.Trace())
      ensures status != BadRequest ==>
                var chunks := Numbered(address, Pieces(old(body.rest), DEFAULT_SIZE));
                && StopsAt(engine.Now(), chunks, breaks, n) && status == (if n == |chunks| then OK else StorageFailure)
                && manifests == (if status == OK then
                                   old(manifests)[blobID := ManifestOf(address, blobID, old(body.rest), DEFAULT_SIZE)]
                                 else old(manifests))
                && local.data == Kept(engine.Now(), old(local.data), chunks[..n])
                && jobs == JobsOf(chunks[..n])
                && Queued(engine.Now(), faults, old(engine.Trace()), jobs, done, engine.Trace())
      ensures status == OK ==>
                && manifests.Keys == old(manifests.Keys) + {blobID} && manifests[blobID].blobID == blobID
                && manifests[blobID].size == |old(body.rest)| && manifests[blobID].chunkSize == 4 * 1024 * 1024
      ensures done + engine.queue == old(engine.queue) + jobs && engine.processed == old(engine.processed) + done
    {
      hide Kept, Queued, StopsAt, JobsOf, WellFormed, Pieces, Numbered, ManifestOf;
      n, jobs, done := 0, [], [];
      ghost var view, start := engine.Now(), engine.Trace();
      NothingQueued(view, faults, start);
      QueuedCounts(view, faults, start, jobs, done, start);
      if blobID == "" {
        return BadRequest, n, jobs, done;
      }
      var result := Split(address, blobID, body, DEFAULT_SIZE);
      if result.Failed? {
        return BadRequest, n, jobs, done;
      }
      var ok;
      ok, n, jobs, done := StoreAndQueue(result.chunks, faults, breaks);
      QueuedCounts(view, faults, start, jobs, done, engine.Trace());
      if !ok {
        return StorageFailure, n, jobs, done;
      }
      manifests := manifests[blobID := result.manifest];
      status := OK;
    }

    /** The loop over the chunks of an upload. */
    method StoreAndQueue(chunks: seq<Chunk>, faults: Faults, breaks: nat -> bool)
      returns (ok: bool, ghost n: nat, ghost jobs: seq<Job>, ghost done: seq<Job>)
      requires Ready()
      modifies local, engine
      ensures |engine.queue| <= QUEUE_CAPACITY
      ensures StopsAt(engine.Now(), chunks, breaks, n) && ok == (n == |chunks|)
      ensures jobs == JobsOf(chunks[..n]) && local.data == Kept(engine.Now(), old(local.data), chunks[..n])
      ensures Queued(engine.Now(), faults, old(engine.Trace()), jobs, done, engine.Trace())
    {
      hide Queued, KeptOne, KeptHere;
      ghost var view, start := engine.Now(), engine.Trace();
      jobs, done := [], [];
      NothingQueued(view, faults, start);
      var i := 0;
      while i < |chunks|
        invariant 0 <= i <= |chunks| && Ready() && engine.Now() == view
        invariant NoBreakBefore(view, chunks, breaks, i)
        invariant jobs == JobsOf(chunks[..i]) && local.data == Kept(view, old(local.data), chunks[..i])
        invariant Queued(view, faults, start, jobs, done, engine.Trace())
      {
        KeptNext(view, old(local.data), chunks, i);
        ghost var before := engine.Trace();
        ghost var more;
        ok, more := StoreAndQueueOne(chunks[i], faults, breaks(i));
        if !ok {
          n := i;
          return;
        }
        QueuedTwice(view, faults, start, jobs, done, before, [Job(chunks[i].id, chunks[i].data)], more, engine.Trace());
        jobs, done := jobs + [Job(chunks[i].id, chunks[i].data)], done + more;
        i := i + 1;
      }
      PrefixAll(chunks);
      ok, n := true, i;
    }

    method StoreAndQueueOne(c: Chunk, faults: Faults, breaks: bool) returns (ok: bool, ghost more: seq<Job>)
      requires Ready()
      modifies local, engine
      ensures |engine.queue| <= QUEUE_CAPACITY && ok == !(breaks && KeptHere(engine.Now(), c.id))
      ensures !ok ==> local.data == old(local.data) && engine.Trace() == old(engine.Trace())
      ensures ok ==> local.data == KeptOne(engine.Now(), old(local.data), c)
      ensures ok ==> Queued(engine.Now(), faults, old(engine.Trace()), [Job(c.id, c.data)], more, engine.Trace())
    {
      more := [];
      ok := StoreIfOwner(c, breaks, engine.Now());
      if ok {
        more := engine.Enqueue(Job(c.id, c.data), faults);
      }
    }

    method StoreIfOwner(c: Chunk, breaks: bool, ghost v: View) returns (ok: bool)
      requires ring.Valid() && WellFormed(ring.hashKey, ring.State())
      requires v.hk == ring.hashKey && v.nodes == ring.nodes && v.self == selfID
      modifies local
      ensures ok == !(breaks && KeptHere(v, c.id))
      ensures local.data == if ok then KeptOne(v, old(local.data), c) else old(local.data)
    {
      hide WellFormed, CollisionFree, Walked;
      var targets := ring.GetN(c.id, FACTOR);
      var isLocalTarget := Contains(targets, selfID);
      if isLocalTarget || |targets| == 0 {
        if breaks {
          return false;
        }
        local.Put(c.id, c.data);
      }
      ok := true;
    }

    /** The address of a node that is known and currently held alive. */
    method AddrForNode(nodeID: NodeId) returns (addr: string, ok: bool)
      ensures ok == (nodeID in membership.peers && membership.peers[nodeID].state == M.Alive)
      ensures addr == if ok then membership.peers[nodeID].addr else ""
    {
      var rest := membership.peers.Keys;
      while rest != {}
        invariant rest <= membership.peers.Keys && (nodeID in membership.peers ==> nodeID in rest)
        decreases rest
      {
        var id :| id in rest;
        if id == nodeID && membership.peers[id].state == M.Alive {
          return membership.peers[id].addr, true;
        }
        if id == nodeID {
          return "", false;
        }
        rest := rest - {id};
      }
      return "", false;
    }

    /** Local storage first, then the owners over the network, then the cold tier. */
    method FetchChunk(chunkID: ChunkId, net: Net) returns (found: Option<Bytes>)
      requires Ready()
      modifies net
      ensures found == Fetch(Sources(net.answers), chunkID)
      ensures chunkID in local.data ==> found == Some(local.data[chunkID]) && net.asked == old(net.asked)
      // An owner is asked exactly when it is another node, known and held alive, and no such owner before it has answered.
      ensures old(net.asked) <= net.asked
      ensures var owners := Targets(ring.hashKey, ring.nodes, chunkID, 3);
              chunkID !in local.data ==>
                && (forall i |
                      && 0 <= i < |owners| && owners[i] != selfID && owners[i] in membership.peers
                      && membership.peers[owners[i]].state == M.Alive
                      && (forall j | 0 <= j < i && owners[j] != selfID && owners[j] in membership.peers
                                     && membership.peers[owners[j]].state == M.Alive ::
                            net.answers(membership.peers[owners[j]].addr, chunkID).None?) ::
                        Request(membership.peers[owners[i]].addr, chunkID) in net.asked[|old(net.asked)|..])
                && (forall r | r in net.asked[|old(net.asked)|..] ::
                      exists i ::
                        && 0 <= i < |owners| && owners[i] != selfID && owners[i] in membership.peers
                        && membership.peers[owners[i]].state == M.Alive
                        && r == Request(membership.peers[owners[i]].addr, chunkID)
                        && (forall j | 0 <= j < i && owners[j] != selfID && owners[j] in membership.peers
                                       && membership.peers[owners[j]].state == M.Alive ::
                              net.answers(membership.peers[owners[j]].addr, chunkID).None?))
      // The first of them that answers decides; if none does, the cold tier.
      ensures var owners := Targets(ring.hashKey, ring.nodes, chunkID, 3);
              chunkID !in local.data ==>
                && (forall i |
                      && 0 <= i < |owners| && owners[i] != selfID && owners[i] in membership.peers
                      && membership.peers[owners[i]].state == M.Alive
                      && net.answers(membership.peers[owners[i]].addr, chunkID).Some?
                      && (forall j | 0 <= j < i && owners[j] != selfID && owners[j] in membership.peers
                                     && membership.peers[owners[j]].state == M.Alive ::
                            net.answers(membership.peers[owners[j]].addr, chunkID).None?) ::
                        found == net.answers(membership.peers[owners[i]].addr, chunkID))
                && ((forall i | 0 <= i < |owners| && owners[i] != selfID && owners[i] in membership.peers
                                && membership.peers[owners[i]].state == M.Alive ::
                       net.answers(membership.peers[owners[i]].addr, chunkID).None?) ==>
                      found == if cold != null && chunkID in cold.data then Some(cold.data[chunkID]) else None)
    {
      hide Walked, WellFormed, Targets, FirstAnswer, Questions, Askable;
      found := local.Get(chunkID);
      if found.Some? {
        return;
      }
      var targets := ring.GetN(chunkID, FACTOR);
      ghost var before := net.asked;
      found := AskAll(targets, chunkID, net);
      AppendedRequests(before, Questions(selfID, membership.peers, targets, chunkID, net.answers));
      AskedMeans(selfID, membership.peers, targets, chunkID, net.answers);
      AnswerMeans(selfID, membership.peers, targets, chunkID, net.answers);
      if found.Some? || cold == null {
        return;
      }
      found := cold.Get(chunkID);
    }

    method AskAll(targets: seq<NodeId>, chunkID: ChunkId, net: Net) returns (found: Option<Bytes>)
      modifies net
      ensures found == FirstAnswer(selfID, membership.peers, targets, chunkID, net.answers)
      ensures net.asked == old(net.asked) + Questions(selfID, membership.peers, targets, chunkID, net.answers)
    {
      var i := 0;
      ghost var all := Questions(selfID, membership.peers, targets, chunkID, net.answers);
      ghost var put: seq<Request> := [];
      assert targets[0..] == targets;
      AppendNothing(old(net.asked));
      while i < |targets|
        invariant 0 <= i <= |targets|
        invariant net.asked == old(net.asked) + put
        invariant all == put + Questions(selfID, membership.peers, targets[i..], chunkID, net.answers)
        invariant FirstAnswer(selfID, membership.peers, targets, chunkID, net.answers)
               == FirstAnswer(selfID, membership.peers, targets[i..], chunkID, net.answers)
      {
        SuffixNext(targets, i);
        if targets[i] != selfID {
          var addr, ok := AddrForNode(targets[i]);
          if ok {
            AppendCons(put, Request(addr, chunkID), Questions(selfID, membership.peers, targets[i + 1..], chunkID, net.answers));
            AppendAssoc(old(net.asked), put, [Request(addr, chunkID)]);
            AppendNothing([Request(addr, chunkID)]);
            put := put + [Request(addr, chunkID)];
            found := net.Ask(addr, chunkID);
            if found.Some? {
              return;
            }
          }
        }
        i := i + 1;
      }
      AppendNothing(put);
      found := None;
    }

    /** Every chunk is fetched, verified and written, in the order of the manifest, until one step fails. */
    method HandleDownloadBlob(blobID: string, w: Writer, net: Net) returns (status: Status, complete: bool)
      requires Ready() && |w.out| <= w.room
      modifies w, net
      ensures status == if blobID in manifests then OK else NotFound
      ensures status == NotFound ==> w.out == old(w.out) && !complete
      ensures status == OK ==>
                var ids, source := manifests[blobID].chunkIDs, SourceOf(Sources(net.answers));
                && w.out == Prefix(old(w.out) + Fetched(address, ids, source), w.room)
                && (complete <==> (forall id | id in ids :: source(id).Some? && address(source(id).value) == id)
                                  && |old(w.out)| + |Fetched(address, ids, source)| <= w.room)
    {
      if blobID !in manifests {
        return NotFound, false;
      }
      status := OK;
      complete := CopyOut(manifests[blobID].chunkIDs, w, net, Sources(net.answers));
    }

    /** The loop over the chunks of a download. */
    method CopyOut(ids: seq<ChunkId>, w: Writer, net: Net, ghost src: Lookup) returns (ok: bool)
      requires Ready() && |w.out| <= w.room && src == Sources(net.answers)
      modifies w, net
      ensures Copied(address, src, ids, old(w.out), w.room, w.out, ok)
    {
      ghost var start := w.out;
      var i := 0;
      Copying(address, src, ids, start, w.room);
      while i < |ids|
        invariant 0 <= i <= |ids| && |w.out| <= w.room
        invariant CopiedFrom(address, src, ids, start, w.room, w.out, ids[i..])
      {
        SuffixNext(ids, i);
        ghost var before := w.out;
        ok := CopyOne(ids[i], w, net, src);
        CopyStep(address, src, ids, start, w.room, before, ids[i..], w.out, ok);
        if !ok {
          return;
        }
        i := i + 1;
      }
      ok := true;
      CopyEnds(address, src, ids, start, w.room, w.out);
    }

    method CopyOne(id: ChunkId, w: Writer, net: Net, ghost src: Lookup) returns (ok: bool)
      requires Ready() && |w.out| <= w.room && src == Sources(net.answers)
      modifies w, net
      ensures |w.out| <= w.room && Copied(address, src, [id], old(w.out), w.room, w.out, ok)
    {
      var data := FetchChunk(id, net);
      CopySingle(address, src, id, w.out, w.room);
      if data.None? || address(data.value) != id {
        return false;
      }
      ok := w.Write(data.value);
    }

    /** A pushed chunk is stored only when its bytes have the address it was pushed under. */
    method HandlePutChunk(id: ChunkId, data: Bytes) returns (status: Status)
      modifies local
      ensures status == if address(data) == id then OK else BadRequest
      ensures local.data == if address(data) == id then old(local.data)[id := data] else old(local.data)
    {
      if address(data) != id {
        return BadRequest;
      }
      local.Put(id, data);
      status := OK;
    }

    method HandleGetChunk(id: ChunkId) returns (found: Option<Bytes>)
      ensures found == if id in local.data then Some(local.data[id]) else None
    {
      found := local.Get(id);
    }
  }

  // ---------------------------------------------------------------------------------------------
  // Upload
  // ---------------------------------------------------------------------------------------------

  function JobsOf(chunks: seq<Chunk>): seq<Job> {
    if chunks == [] then [] else
      var last := chunks[|chunks| - 1];
      JobsOf(chunks[..|chunks| - 1]) + [Job(last.id, last.data)]
  }

  ghost function KeptOne(v: View, store: map<ChunkId, Bytes>, c: Chunk): map<ChunkId, Bytes> {
    var targets := Targets(v.hk, v.nodes, c.id, FACTOR);
    if v.self in targets || targets == [] then store[c.id := c.data] else store
  }

  /** The local store after an upload. */
  ghost function Kept(v: View, store: map<ChunkId, Bytes>, chunks: seq<Chunk>): map<ChunkId, Bytes> {
    if chunks == [] then store else KeptOne(v, Kept(v, store, chunks[..|chunks| - 1]), chunks[|chunks| - 1])
  }

  lemma KeptNext(v: View, store: map<ChunkId, Bytes>, chunks: seq<Chunk>, i: nat)
    requires i < |chunks|
    ensures Kept(v, store, chunks[..i + 1]) == KeptOne(v, Kept(v, store, chunks[..i]), chunks[i])
    ensures JobsOf(chunks[..i + 1]) == JobsOf(chunks[..i]) + [Job(chunks[i].id, chunks[i].data)]
  {
    assert chunks[..i + 1][..i] == chunks[..i];
  }

  /** No write of a chunk before the i-th fails. */
  ghost predicate NoBreakBefore(v: View, chunks: seq<Chunk>, breaks: nat -> bool, i: nat)
    requires i <= |chunks|
  {
    forall j: nat | j < i :: !(breaks(j) && KeptHere(v, chunks[j].id))
  }

  /** The upload gets as far as the first chunk that is to be kept here and cannot be written. */
  ghost predicate StopsAt(v: View, chunks: seq<Chunk>, breaks: nat -> bool, n: nat) {
    && n <= |chunks| && NoBreakBefore(v, chunks, breaks, n)
    && (n < |chunks| ==> breaks(n) && KeptHere(v, chunks[n].id))
  }

  lemma KeptOneIff(v: View, store: map<ChunkId, Bytes>, c: Chunk, id: ChunkId)
    ensures id in KeptOne(v, store, c) <==> id in store || (c.id == id && KeptHere(v, id))
  {}

  ghost predicate KeptHere(v: View, id: ChunkId) {
    v.self in Targets(v.hk, v.nodes, id, FACTOR) || Targets(v.hk, v.nodes, id, FACTOR) == []
  }

  predicate Among(chunks: seq<Chunk>, id: ChunkId) {
    exists c :: c in chunks && c.id == id
  }

  /**
   What an upload leaves on the node that accepted it: the chunks it is responsible for, or all of them
   when nobody is. The others exist here only as jobs in the queue.
   */
  lemma KeptIff(v: View, store: map<ChunkId, Bytes>, chunks: seq<Chunk>, id: ChunkId)
    ensures id in Kept(v, store, chunks)
            <==> id in store
                 || ((exists c :: c in chunks && c.id == id)
                     && (v.self in Targets(v.hk, v.nodes, id, 3) || Targets(v.hk, v.nodes, id, 3) == []))
  {
    hide Targets, Kept;
    KeptIds(v, store, chunks, id);
  }

  lemma {:induction false} KeptIds(v: View, store: map<ChunkId, Bytes>, chunks: seq<Chunk>, id: ChunkId)
    ensures id in Kept(v, store, chunks) <==> id in store || (Among(chunks, id) && KeptHere(v, id))
  {
    if chunks != [] {
      var init, last := chunks[..|chunks| - 1], chunks[|chunks| - 1];
      KeptIds(v, store, init, id);
      KeptOneIff(v, Kept(v, store, init), last, id);
      AmongNext(chunks, id);
    }
  }

  /** What is kept under an ID afterwards is the data of a chunk of the upload, if one is kept, and else what was there. */
  lemma {:induction false} KeptData(v: View, store: map<ChunkId, Bytes>, chunks: seq<Chunk>, id: ChunkId)
    requires id in Kept(v, store, chunks)
    ensures if && (exists c :: c in chunks && c.id == id)
               && (v.self in Targets(v.hk, v.nodes, id, 3) || Targets(v.hk, v.nodes, id, 3) == [])
            then exists c :: c in chunks && c.id == id && Kept(v, store, chunks)[id] == c.data
            else id in store && Kept(v, store, chunks)[id] == store[id]
  {
    hide Targets;
    if chunks != [] {
      var init, last := chunks[..|chunks| - 1], chunks[|chunks| - 1];
      assert chunks == init + [last] && forall c :: c in chunks <==> c in init || c == last;
      assert Kept(v, store, chunks) == KeptOne(v, Kept(v, store, init), last);
      if id in Kept(v, store, init) {
        KeptData(v, store, init, id);
      }
    }
  }

  /** The jobs of an upload: one for each chunk, in order. */
  lemma {:induction false} JobsAre(chunks: seq<Chunk>)
    ensures |JobsOf(chunks)| == |chunks|
    ensures forall i | 0 <= i < |chunks| :: JobsOf(chunks)[i].chunkID == chunks[i].id && JobsOf(chunks)[i].data == chunks[i].data
  {
    if chunks != [] {
      JobsAre(chunks[..|chunks| - 1]);
    }
  }

  /** Where an upload stops: at the first chunk that is to be kept here and cannot be written, or behind the last. */
  lemma StopsAtMeans(v: View, chunks: seq<Chunk>, breaks: nat -> bool, n: nat)
    ensures StopsAt(v, chunks, breaks, n)
            <==> && n <= |chunks|
                 && (n < |chunks| ==>
                       breaks(n) && (v.self in Targets(v.hk, v.nodes, chunks[n].id, 3) || Targets(v.hk, v.nodes, chunks[n].id, 3) == []))
                 && (forall j: nat | j < n :: breaks(j) ==>
                       v.self !in Targets(v.hk, v.nodes, chunks[j].id, 3) && Targets(v.hk, v.nodes, chunks[j].id, 3) != [])
  {
    hide Targets;
  }

  /** On more than FACTOR nodes no chunk stays with everybody who may accept it. */
  lemma AcceptedNotKept(hk: KeyHash, nodes: set<NodeId>, store: map<ChunkId, Bytes>, c: Chunk) returns (v: View)
    requires CollisionFree(hk, nodes) && |nodes| > FACTOR && c.id !in store
    ensures v.hk == hk && v.nodes == nodes && v.self in nodes
    ensures c.id !in Kept(v, store, [c])
  {
    hide Targets;
    var owners := Targets(hk, nodes, c.id, FACTOR);
    TargetsExact(hk, nodes, c.id, FACTOR);
    ElementsSize(owners);
    var self := SomeOutside(nodes, Elements(owners));
    v := View(hk, nodes, map[], self, 0);
    KeptIff(v, store, [c], c.id);
  }

  lemma AmongNext(chunks: seq<Chunk>, id: ChunkId)
    requires chunks != []
    ensures Among(chunks, id) <==> Among(chunks[..|chunks| - 1], id) || chunks[|chunks| - 1].id == id
  {
    var init, last := chunks[..|chunks| - 1], chunks[|chunks| - 1];
    assert chunks == init + [last];
    assert forall c :: c in chunks <==> c in init || c == last;
    assert last in chunks;
  }

  // ---------------------------------------------------------------------------------------------
  // Download
  // ---------------------------------------------------------------------------------------------

  datatype Lookup = Lookup(
    hk: KeyHash,
    nodes: set<NodeId>,
    self: NodeId,
    peers: map<NodeId, M.Peer>,
    local: map<ChunkId, Bytes>,
    cold: map<ChunkId, Bytes>,
    network: Network)

  /** May this peer be asked? */
  predicate Askable(self: NodeId, peers: map<NodeId, M.Peer>, t: NodeId) {
    t != self && t in peers && peers[t].state == M.Alive
  }

  function FirstAnswer(self: NodeId, peers: map<NodeId, M.Peer>, targets: seq<NodeId>, id: ChunkId, network: Network): Option<Bytes> {
    if targets == [] then None
    else if Askable(self, peers, targets[0]) && network(peers[targets[0]].addr, id).Some? then
      network(peers[targets[0]].addr, id)
    else FirstAnswer(self, peers, targets[1..], id, network)
  }

  ghost function Fetch(l: Lookup, id: ChunkId): Option<Bytes> {
    if id in l.local then Some(l.local[id]) else
      var answer := FirstAnswer(l.self, l.peers, Targets(l.hk, l.nodes, id, FACTOR), id, l.network);
      if answer.Some? then answer else FromStore(l.cold)(id)
  }

  ghost function SourceOf(l: Lookup): Source {
    id => Fetch(l, id)
  }

  /** A download into a writer with limited room: what it has written, and whether it was complete. */
  ghost predicate Copied(address: Addressing, l: Lookup, ids: seq<ChunkId>, start: Bytes, room: nat, out: Bytes, ok: bool) {
    var all := start + Fetched(address, ids, SourceOf(l));
    && out == Prefix(all, room)
    && (ok <==> AllVerified(address, ids, SourceOf(l)) && |all| <= room)
  }

  /** The download has got as far as the chunks in `rest`. */
  ghost predicate CopiedFrom(address: Addressing, l: Lookup, ids: seq<ChunkId>, start: Bytes, room: nat, out: Bytes,
                             rest: seq<ChunkId>)
  {
    && |out| <= room
    && out + Fetched(address, rest, SourceOf(l)) == start + Fetched(address, ids, SourceOf(l))
    && (AllVerified(address, ids, SourceOf(l)) <==> AllVerified(address, rest, SourceOf(l)))
  }

  lemma Copying(address: Addressing, l: Lookup, ids: seq<ChunkId>, start: Bytes, room: nat)
    requires |start| <= room
    ensures CopiedFrom(address, l, ids, start, room, start, ids[0..])
  {
    assert ids[0..] == ids;
  }

  lemma CopySingle(address: Addressing, l: Lookup, id: ChunkId, start: Bytes, room: nat)
    requires |start| <= room
    ensures AllVerified(address, [id], SourceOf(l)) <==> Verified(address, id, SourceOf(l))
    ensures start + Fetched(address, [id], SourceOf(l))
         == if Verified(address, id, SourceOf(l)) then start + Fetch(l, id).value else start
    ensures Prefix(start, room) == start
  {
    FetchedSingle(address, id, SourceOf(l));
    AppendNothing(start);
    PrefixShort(start, room);
  }

  lemma CopyStep(address: Addressing, l: Lookup, ids: seq<ChunkId>, start: Bytes, room: nat, before: Bytes,
                 rest: seq<ChunkId>, out: Bytes, ok: bool)
    requires rest != [] && CopiedFrom(address, l, ids, start, room, before, rest)
    requires Copied(address, l, [rest[0]], before, room, out, ok)
    ensures ok ==> CopiedFrom(address, l, ids, start, room, out, rest[1..])
    ensures !ok ==> Copied(address, l, ids, start, room, out, false)
  {
    CopySingle(address, l, rest[0], before, room);
    HeadTail(rest);
    if Verified(address, rest[0], SourceOf(l)) {
      CopyGoesOn(before, Fetch(l, rest[0]).value, Fetched(address, rest[1..], SourceOf(l)), room);
    } else {
      AppendNothing(before);
    }
  }

  /** A write that fits adds to what is there; one that does not fills the room, as all that follows would. */
  lemma CopyGoesOn(before: Bytes, bytes: Bytes, more: Bytes, room: nat)
    ensures before + (bytes + more) == (before + bytes) + more
    ensures |before + bytes| <= room ==> Prefix(before + bytes, room) == before + bytes
    ensures |before + bytes| > room ==> Prefix(before + bytes, room) == Prefix((before + bytes) + more, room)
  {
    AppendAssoc(before, bytes, more);
    if |before + bytes| <= room {
      PrefixShort(before + bytes, room);
    } else {
      PrefixOfAppend(before + bytes, more, room);
    }
  }

  lemma CopyEnds(address: Addressing, l: Lookup, ids: seq<ChunkId>, start: Bytes, room: nat, out: Bytes)
    requires CopiedFrom(address, l, ids, start, room, out, [])
    ensures Copied(address, l, ids, start, room, out, true)
  {
    AppendNothing(out);
    PrefixShort(out, room);
  }

  /**
   Some owner answers exactly when one that is another node, known and held alive has an answer; then the
   answer is that of one of them.
   */
  lemma {:induction false} AnswerIff(self: NodeId, peers: map<NodeId, M.Peer>, targets: seq<NodeId>, id: ChunkId, network: Network)
    ensures FirstAnswer(self, peers, targets, id, network).Some?
            <==> exists t :: t in targets && t != self && t in peers && peers[t].state == M.Alive
                             && network(peers[t].addr, id).Some?
    ensures FirstAnswer(self, peers, targets, id, network).Some? ==>
              exists t :: t in targets && t != self && t in peers && peers[t].state == M.Alive
                          && network(peers[t].addr, id) == FirstAnswer(self, peers, targets, id, network)
  {
    if targets != [] {
      AnswerIff(self, peers, targets[1..], id, network);
      assert targets[0] in targets;
      assert forall t :: t in targets <==> t == targets[0] || t in targets[1..];
    }
  }

  /** What is asked, in order: the owners that may be asked, up to the first that answers. */
  function Questions(self: NodeId, peers: map<NodeId, M.Peer>, targets: seq<NodeId>, id: ChunkId, network: Network): seq<Request> {
    if targets == [] then []
    else if !Askable(self, peers, targets[0]) then Questions(self, peers, targets[1..], id, network)
    else
      var addr := peers[targets[0]].addr;
      [Request(addr, id)] + if network(addr, id).Some? then [] else Questions(self, peers, targets[1..], id, network)
  }

  lemma AppendedRequests(before: seq<Request>, more: seq<Request>)
    ensures before <= before + more && (before + more)[|before|..] == more
  {}

  /** The first owner that may be asked and answers decides. */
  lemma {:induction false} FirstAnswerAt(self: NodeId, peers: map<NodeId, M.Peer>, targets: seq<NodeId>, id: ChunkId,
                                         network: Network, i: nat)
    requires i < |targets| && targets[i] != self && targets[i] in peers && peers[targets[i]].state == M.Alive
    requires network(peers[targets[i]].addr, id).Some?
    requires forall j | 0 <= j < i && targets[j] != self && targets[j] in peers && peers[targets[j]].state == M.Alive ::
               network(peers[targets[j]].addr, id).None?
    ensures FirstAnswer(self, peers, targets, id, network) == network(peers[targets[i]].addr, id)
  {
    if i > 0 {
      assert forall j | 0 <= j < |targets[1..]| :: targets[1..][j] == targets[j + 1];
      FirstAnswerAt(self, peers, targets[1..], id, network, i - 1);
    }
  }

  lemma {:induction false} QuestionAt(self: NodeId, peers: map<NodeId, M.Peer>, targets: seq<NodeId>, id: ChunkId,
                                      network: Network, i: nat)
    requires i < |targets| && targets[i] != self && targets[i] in peers && peers[targets[i]].state == M.Alive
    requires forall j | 0 <= j < i && targets[j] != self && targets[j] in peers && peers[targets[j]].state == M.Alive ::
               network(peers[targets[j]].addr, id).None?
    ensures Request(peers[targets[i]].addr, id) in Questions(self, peers, targets, id, network)
  {
    if i > 0 {
      assert forall j | 0 <= j < |targets[1..]| :: targets[1..][j] == targets[j + 1];
      QuestionAt(self, peers, targets[1..], id, network, i - 1);
    }
  }

  lemma {:induction false} QuestionFrom(self: NodeId, peers: map<NodeId, M.Peer>, targets: seq<NodeId>, id: ChunkId,
                                        network: Network, r: Request) returns (i: nat)
    requires r in Questions(self, peers, targets, id, network)
    ensures i < |targets| && targets[i] != self && targets[i] in peers && peers[targets[i]].state == M.Alive
    ensures r == Request(peers[targets[i]].addr, id)
    ensures forall j | 0 <= j < i && targets[j] != self && targets[j] in peers && peers[targets[j]].state == M.Alive ::
              network(peers[targets[j]].addr, id).None?
  {
    if Askable(self, peers, targets[0]) && r == Request(peers[targets[0]].addr, id) {
      i := 0;
    } else {
      var k := QuestionFrom(self, peers, targets[1..], id, network, r);
      i := k + 1;
      assert forall j | 0 < j < |targets| :: targets[j] == targets[1..][j - 1];
    }
  }

  /** Who is asked, written out. */
  lemma {:induction false} AskedMeans(self: NodeId, peers: map<NodeId, M.Peer>, targets: seq<NodeId>, id: ChunkId,
                                      network: Network)
    ensures forall i |
              && 0 <= i < |targets| && targets[i] != self && targets[i] in peers && peers[targets[i]].state == M.Alive
              && (forall j | 0 <= j < i && targets[j] != self && targets[j] in peers && peers[targets[j]].state == M.Alive ::
                    network(peers[targets[j]].addr, id).None?) ::
                Request(peers[targets[i]].addr, id) in Questions(self, peers, targets, id, network)
    ensures forall r | r in Questions(self, peers, targets, id, network) ::
              exists i ::
                && 0 <= i < |targets| && targets[i] != self && targets[i] in peers && peers[targets[i]].state == M.Alive
                && r == Request(peers[targets[i]].addr, id)
                && (forall j | 0 <= j < i && targets[j] != self && targets[j] in peers && peers[targets[j]].state == M.Alive ::
                      network(peers[targets[j]].addr, id).None?)
  {
    hide Questions;
    forall i | && 0 <= i < |targets| && targets[i] != self && targets[i] in peers && peers[targets[i]].state == M.Alive
               && (forall j | 0 <= j < i && targets[j] != self && targets[j] in peers && peers[targets[j]].state == M.Alive ::
                     network(peers[targets[j]].addr, id).None?)
      ensures Request(peers[targets[i]].addr, id) in Questions(self, peers, targets, id, network)
    {
      QuestionAt(self, peers, targets, id, network, i);
    }
    forall r | r in Questions(self, peers, targets, id, network)
      ensures exists i ::
                && 0 <= i < |targets| && targets[i] != self && targets[i] in peers && peers[targets[i]].state == M.Alive
                && r == Request(peers[targets[i]].addr, id)
                && (forall j | 0 <= j < i && targets[j] != self && targets[j] in peers && peers[targets[j]].state == M.Alive ::
                      network(peers[targets[j]].addr, id).None?)
    {
      var i := QuestionFrom(self, peers, targets, id, network, r);
    }
  }

  /** Whose answer it is, written out. */
  lemma {:induction false} AnswerMeans(self: NodeId, peers: map<NodeId, M.Peer>, targets: seq<NodeId>, id: ChunkId,
                                       network: Network)
    ensures forall i |
              && 0 <= i < |targets| && targets[i] != self && targets[i] in peers && peers[targets[i]].state == M.Alive
              && network(peers[targets[i]].addr, id).Some?
              && (forall j | 0 <= j < i && targets[j] != self && targets[j] in peers && peers[targets[j]].state == M.Alive ::
                    network(peers[targets[j]].addr, id).None?) ::
                FirstAnswer(self, peers, targets, id, network) == network(peers[targets[i]].addr, id)
    ensures (forall i | 0 <= i < |targets| && targets[i] != self && targets[i] in peers && peers[targets[i]].state == M.Alive ::
               network(peers[targets[i]].addr, id).None?) ==>
              FirstAnswer(self, peers, targets, id, network).None?
  {
    hide FirstAnswer;
    forall i | && 0 <= i < |targets| && targets[i] != self && targets[i] in peers && peers[targets[i]].state == M.Alive
               && network(peers[targets[i]].addr, id).Some?
               && (forall j | 0 <= j < i && targets[j] != self && targets[j] in peers && peers[targets[j]].state == M.Alive ::
                     network(peers[targets[j]].addr, id).None?)
      ensures FirstAnswer(self, peers, targets, id, network) == network(peers[targets[i]].addr, id)
    {
      FirstAnswerAt(self, peers, targets, id, network, i);
    }
    AnswerIff(self, peers, targets, id, network);
  }

  /**
   A download of a recorded blob gives its bytes up to some point whatever the peers answer, and all of
   them when every chunk is found intact. The one thing no answer may be is other bytes with the
   address of a chunk of this blob.
   */
  lemma DownloadIsPrefix(address: Addressing, l: Lookup, blobID: string, data: Bytes)
    requires forall p | p in Pieces(data, DEFAULT_SIZE) :: Genuine(address, p, SourceOf(l))
    ensures var ids := ManifestOf(address, blobID, data, DEFAULT_SIZE).chunkIDs;
            && Fetched(address, ids, SourceOf(l)) <= data
            && (AllVerified(address, ids, SourceOf(l)) ==> Fetched(address, ids, SourceOf(l)) == data)
  {
    PiecesMakeUp(data, DEFAULT_SIZE);
    FetchedIsPrefix(address, Pieces(data, DEFAULT_SIZE), SourceOf(l));
  }
}
