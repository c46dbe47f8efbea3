/**
 The layers put together: what a client gets back from a cluster in which nodes fail, and how the
 upload handler of `Api` appears as steps of `Cluster`.
 */
module EndToEnd {
  import opened Api
  import opened Chunks
  import opened Cluster
  import opened Lists
  import M = Membership
  import opened Placement
  import opened Preference
  import opened RingStates

  /** Nodes that have just been set up, whatever rings they were given. */
  ghost predicate Blank(sys: System) {
    forall n | n in sys :: sys[n] == Node(sys[n].ring, map[], map[], map[], [], map[], map[], map[])
  }

  // ---------------------------------------------------------------------------------------------
  // Integrity: what is downloaded was uploaded
  // ---------------------------------------------------------------------------------------------

  /** At this node an upload of these bytes under this blob ID was begun in the course of the steps. */
  ghost predicate Begun(steps: seq<Step>, n: NodeId, blobID: string, data: Bytes) {
    exists i, k :: 0 <= i < |steps| && steps[i] == Acts(n, BeginUpload(k, blobID, data))
  }

  lemma BegunEarlier(steps: seq<Step>, n: NodeId, blobID: string, data: Bytes)
    requires steps != [] && Begun(steps[1..], n, blobID, data)
    ensures Begun(steps, n, blobID, data)
  {
    var i, k :| 0 <= i < |steps[1..]| && steps[1..][i] == Acts(n, BeginUpload(k, blobID, data));
    assert steps[i + 1] == steps[1..][i];
  }

  /** The node is working on these bytes, or has recorded them as uploaded. */
  ghost predicate Knows(nd: Node, blobID: string, data: Bytes) {
    || (blobID in nd.completed && nd.completed[blobID] == data)
    || (exists k :: k in nd.uploads && nd.uploads[k].blobID == blobID && nd.uploads[k].data == data)
  }

  lemma KnowledgeIsOld(cfg: Config, sys: System, step: Step, n: NodeId, blobID: string, data: Bytes)
    requires Enabled(cfg, sys, step) && n in sys && Knows(Next(cfg, sys, step)[n], blobID, data)
    ensures Knows(sys[n], blobID, data) || Begun([step], n, blobID, data)
  {
    if step.Acts? && step.node == n {
      KnowledgeIsOwn(cfg, n, sys[n], step.act, blobID, data);
      if !Knows(sys[n], blobID, data) {
        assert [step][0] == Acts(n, BeginUpload(step.act.k, blobID, data));
      }
    }
  }

  lemma KnowledgeIsOwn(cfg: Config, self: NodeId, nd: Node, a: Act, blobID: string, data: Bytes)
    requires CanAct(self, nd, a) && Knows(Acted(cfg, self, nd, a), blobID, data)
    ensures Knows(nd, blobID, data) || (a.BeginUpload? && a.blobID == blobID && a.data == data)
  {
    hide Pieces, Numbered, ManifestOf, Targets;
    var nd' := Acted(cfg, self, nd, a);
    if blobID in nd'.completed && nd'.completed[blobID] == data {
      assert a.EndUpload? ==> a.k in nd.uploads;
    } else {
      var k :| k in nd'.uploads && nd'.uploads[k].blobID == blobID && nd'.uploads[k].data == data;
      assert k in nd.uploads || a.BeginUpload?;
    }
  }

  /** The bytes recorded as uploaded under this name. */
  function Recorded(nd: Node, blobID: string): Bytes {
    if blobID in nd.completed then nd.completed[blobID] else []
  }

  /** Nothing is recorded as uploaded that was not sent by a client. */
  lemma {:induction false} CompletedWasUploaded(cfg: Config, sys: System, steps: seq<Step>, end: System, n: NodeId,
                                                blobID: string, data: Bytes)
    requires Run(cfg, sys, steps, end) && n in sys && n in end && Knows(end[n], blobID, data)
    ensures Knows(sys[n], blobID, data) || Begun(steps, n, blobID, data)
    decreases |steps|
  {
    if steps != [] {
      var next := Next(cfg, sys, steps[0]);
      CompletedWasUploaded(cfg, next, steps[1..], end, n, blobID, data);
      if Begun(steps[1..], n, blobID, data) {
        BegunEarlier(steps, n, blobID, data);
      } else {
        KnowledgeIsOld(cfg, sys, steps[0], n, blobID, data);
        if Begun([steps[0]], n, blobID, data) {
          assert Begun(steps, n, blobID, data);
        }
      }
    }
  }

  /**
   Integrity, written out: on nodes that started empty, whatever was uploaded, pushed, repaired or lost since,
   what is stored, queued or being pushed has its address, and a manifest describes the bytes recorded with it.
   */
  lemma IntegrityOverRuns(cfg: Config, sys: System, steps: seq<Step>, end: System, n: NodeId)
    requires forall m | m in sys :: sys[m] == Node(sys[m].ring, map[], map[], map[], [], map[], map[], map[])
    requires Run(cfg, sys, steps, end) && n in end
    ensures forall id | id in end[n].store :: cfg.address(end[n].store[id]) == id
    ensures forall job | job in end[n].queue :: cfg.address(job.data) == job.chunkID
    ensures forall k | k in end[n].inFlight :: cfg.address(end[n].inFlight[k].job.data) == end[n].inFlight[k].job.chunkID
    ensures forall b | b in end[n].manifests ::
              && b in end[n].completed && end[n].manifests[b].size == |end[n].completed[b]|
              && end[n].manifests[b].chunkIDs == Addresses(cfg.address, Pieces(end[n].completed[b], 4 * 1024 * 1024))
  {
    hide Run, Pieces, Addresses;
    forall m | m in sys ensures Honest(cfg, sys[m]) {}
    RunHonest(cfg, sys, steps, end);
    assert Honest(cfg, end[n]);
    assert forall job | job in end[n].queue :: HonestJob(cfg, job);
    assert forall k | k in end[n].inFlight :: HonestJob(cfg, end[n].inFlight[k].job);
  }

  /**
   End-to-end integrity: after any run, with any deaths and repairs in it, a download of a blob known at
   a node gives bytes that a client uploaded there under this name, or a part of them from the
   beginning; all of them if every chunk is found. The peers may answer anything.
   */
  lemma DownloadAfterRun(cfg: Config, sys: System, steps: seq<Step>, end: System, n: NodeId, blobID: string, l: Lookup)
    returns (data: Bytes)
    requires Blank(sys) && Run(cfg, sys, steps, end)
    requires n in sys && n in end && blobID in end[n].manifests
    requires forall p | p in Pieces(Recorded(end[n], blobID), DEFAULT_SIZE) :: Genuine(cfg.address, p, SourceOf(l))
    ensures Begun(steps, n, blobID, data) && data == Recorded(end[n], blobID)
    ensures Fetched(cfg.address, end[n].manifests[blobID].chunkIDs, SourceOf(l)) <= data
    ensures AllVerified(cfg.address, end[n].manifests[blobID].chunkIDs, SourceOf(l)) ==>
              Fetched(cfg.address, end[n].manifests[blobID].chunkIDs, SourceOf(l)) == data
  {
    forall m | m in sys ensures Honest(cfg, sys[m]) {}
    RunHonest(cfg, sys, steps, end);
    assert Honest(cfg, end[n]);
    data := Recorded(end[n], blobID);
    CompletedWasUploaded(cfg, sys, steps, end, n, blobID, data);
    DownloadIsPrefix(cfg.address, l, blobID, data);
  }

  // ---------------------------------------------------------------------------------------------
  // Availability: what must still work for a download to be complete
  // ---------------------------------------------------------------------------------------------

  /** Every answer has the address it was asked for. */
  ghost predicate HonestSources(address: Addressing, l: Lookup) {
    && (forall id | id in l.local :: address(l.local[id]) == id)
    && (forall id | id in l.cold :: address(l.cold[id]) == id)
    && (forall addr, id :: l.network(addr, id).Some? ==> address(l.network(addr, id).value) == id)
  }

  /** The chunk is here, at an owner that may be asked and answers, or in the cold tier. */
  ghost predicate Findable(l: Lookup, id: ChunkId) {
    || id in l.local || id in l.cold
    || exists t :: t in Targets(l.hk, l.nodes, id, FACTOR) && Askable(l.self, l.peers, t)
                   && l.network(l.peers[t].addr, id).Some?
  }

  lemma FoundIff(address: Addressing, l: Lookup, id: ChunkId)
    requires HonestSources(address, l)
    ensures Verified(address, id, SourceOf(l)) <==> Findable(l, id)
  {
    AnswerIff(l.self, l.peers, Targets(l.hk, l.nodes, id, FACTOR), id, l.network);
  }

  /**
   A download is complete exactly when each of its chunks is here, in the cold tier, or at an owner that is
   another node, known and held alive, and answers.
   */
  lemma CompleteIff(address: Addressing, l: Lookup, ids: seq<ChunkId>)
    requires HonestSources(address, l)
    ensures AllVerified(address, ids, SourceOf(l))
            <==> forall id | id in ids ::
                   || id in l.local || id in l.cold
                   || exists t :: t in Targets(l.hk, l.nodes, id, 3) && t != l.self && t in l.peers
                                  && l.peers[t].state == M.Alive && l.network(l.peers[t].addr, id).Some?
  {
    hide Targets, Verified, HonestSources;
    forall id | id in ids ensures Verified(address, id, SourceOf(l)) <==> Findable(l, id) {
      FoundIff(address, l, id);
    }
    forall id ensures Findable(l, id) <==>
                || id in l.local || id in l.cold
                || exists t :: t in Targets(l.hk, l.nodes, id, 3) && t != l.self && t in l.peers
                               && l.peers[t].state == M.Alive && l.network(l.peers[t].addr, id).Some?
    {}
  }

  lemma FindableIsVerified(address: Addressing, l: Lookup, ids: seq<ChunkId>)
    requires HonestSources(address, l) && forall id | id in ids :: Findable(l, id)
    ensures AllVerified(address, ids, SourceOf(l))
  {
    hide Targets, Verified, HonestSources, Findable;
    forall id | id in ids ensures Verified(address, id, SourceOf(l)) {
      FoundIff(address, l, id);
    }
  }

  /** What node `n` can look at: its own ring and store, and what the other nodes answer from theirs. */
  ghost predicate Sees(cfg: Config, sys: System, n: NodeId, l: Lookup) {
    && n in sys && l.hk == cfg.hk && l.self == n && l.nodes == sys[n].ring && l.local == sys[n].store
    && (forall id | id in l.cold :: cfg.address(l.cold[id]) == id)
    && (forall addr, id :: l.network(addr, id).Some? ==> AnswerFrom(sys, id, l.network(addr, id).value))
  }

  ghost predicate AnswerFrom(sys: System, id: ChunkId, data: Bytes) {
    exists t :: t in sys && id in sys[t].store && sys[t].store[id] == data
  }

  lemma SeesHonestly(cfg: Config, sys: System, n: NodeId, l: Lookup)
    requires AllHonest(cfg, sys) && Sees(cfg, sys, n, l)
    ensures HonestSources(cfg.address, l)
  {
    assert Honest(cfg, sys[n]);
    forall addr, id | l.network(addr, id).Some? ensures cfg.address(l.network(addr, id).value) == id {
      assert AnswerFrom(sys, id, l.network(addr, id).value);
      var t :| t in sys && id in sys[t].store && sys[t].store[id] == l.network(addr, id).value;
      assert Honest(cfg, sys[t]);
    }
  }

  /** A former target outside `down` is a target still, if the changes of the ring and `down` are few. */
  lemma SomeCopyInReach(hk: KeyHash, st: RingState, events: seq<Event>, key: string, down: set<NodeId>) returns (t: NodeId)
    requires WellFormed(hk, st) && CollisionFree(hk, st.nodes + Named(events))
    requires |st.nodes| >= FACTOR && |down| + Changes(hk, st, events) < FACTOR
    ensures t in Targets(hk, st.nodes, key, FACTOR) && t !in down
    ensures t in Targets(hk, Replayed(hk, st, events).nodes, key, FACTOR)
  {
    var before := Elements(Targets(hk, st.nodes, key, FACTOR));
    var lost := Lost(hk, st.nodes, Replayed(hk, st, events).nodes, key, FACTOR);
    ChurnLoss(hk, st, events, key, FACTOR);
    CollisionFreeSubset(hk, st.nodes + Named(events), st.nodes);
    TargetsExact(hk, st.nodes, key, FACTOR);
    ElementsSize(Targets(hk, st.nodes, key, FACTOR));
    t := SomeOutside(before, lost + down);
  }

  /** The owners on ring `st` outside `down` have the chunk and answer, or are the node itself. */
  ghost predicate CopiesInReach(cfg: Config, sys: System, n: NodeId, l: Lookup, st: RingState, id: ChunkId, down: set<NodeId>) {
    forall t | t in Targets(cfg.hk, st.nodes, id, FACTOR) && t !in down ::
      && t in sys && id in sys[t].store
      && (t != n ==> t in l.peers && l.peers[t].state == M.Alive && l.network(l.peers[t].addr, id).Some?)
  }

  lemma CopyInReachIsFound(cfg: Config, sys: System, n: NodeId, l: Lookup, st: RingState, events: seq<Event>,
                           id: ChunkId, down: set<NodeId>)
    requires Sees(cfg, sys, n, l) && CopiesInReach(cfg, sys, n, l, st, id, down)
    requires WellFormed(cfg.hk, st) && CollisionFree(cfg.hk, st.nodes + Named(events))
    requires |st.nodes| >= FACTOR && sys[n].ring == Replayed(cfg.hk, st, events).nodes
    requires |down| + Changes(cfg.hk, st, events) < FACTOR
    ensures Findable(l, id)
  {
    var t := SomeCopyInReach(cfg.hk, st, events, id, down);
    assert t in sys && id in sys[t].store;
  }

  /** The changes of the ring and `down` are few, and the owners of these chunks on ring `st` outside `down` answer. */
  ghost predicate InReach(cfg: Config, sys: System, n: NodeId, l: Lookup, st: RingState, events: seq<Event>,
                          ids: seq<ChunkId>, down: set<NodeId>)
  {
    && n in sys && WellFormed(cfg.hk, st) && CollisionFree(cfg.hk, st.nodes + Named(events))
    && |st.nodes| >= FACTOR && sys[n].ring == Replayed(cfg.hk, st, events).nodes
    && |down| + Changes(cfg.hk, st, events) < FACTOR
    && forall id | id in ids :: CopiesInReach(cfg, sys, n, l, st, id, down)
  }

  lemma CopiesAreFound(cfg: Config, sys: System, n: NodeId, l: Lookup, st: RingState, events: seq<Event>,
                       ids: seq<ChunkId>, down: set<NodeId>)
    requires Sees(cfg, sys, n, l) && InReach(cfg, sys, n, l, st, events, ids, down)
    ensures forall id | id in ids :: Findable(l, id)
  {
    hide Targets, Findable, WellFormed, CollisionFree, Changes, Sees, CopiesInReach;
    forall id | id in ids ensures Findable(l, id) {
      CopyInReachIsFound(cfg, sys, n, l, st, events, id, down);
    }
  }

  lemma ReachSuffices(cfg: Config, sys: System, n: NodeId, blobID: string, l: Lookup, st: RingState, events: seq<Event>,
                      down: set<NodeId>)
    requires AllHonest(cfg, sys) && Sees(cfg, sys, n, l) && blobID in sys[n].manifests
    requires InReach(cfg, sys, n, l, st, events, sys[n].manifests[blobID].chunkIDs, down)
    requires forall p | p in Pieces(Recorded(sys[n], blobID), DEFAULT_SIZE) :: Genuine(cfg.address, p, SourceOf(l))
    ensures AllVerified(cfg.address, sys[n].manifests[blobID].chunkIDs, SourceOf(l))
    ensures Fetched(cfg.address, sys[n].manifests[blobID].chunkIDs, SourceOf(l)) == Recorded(sys[n], blobID)
  {
    var ids := sys[n].manifests[blobID].chunkIDs;
    hide *;
    SeesHonestly(cfg, sys, n, l);
    CopiesAreFound(cfg, sys, n, l, st, events, ids, down);
    FindableIsVerified(cfg.address, l, ids);
    HonestNode(cfg, sys, n);
    CompleteIsRecorded(cfg, sys[n], blobID, l);
  }

  lemma HonestNode(cfg: Config, sys: System, n: NodeId)
    requires AllHonest(cfg, sys) && n in sys
    ensures Honest(cfg, sys[n])
  {}

  /**
   Availability under failure: take a blob whose chunks were once on all their owners. As long as the
   changes of the ring since then and the owners that are down, held suspect or without the chunk (`down`)
   number fewer than FACTOR together, every chunk is found and the download is complete, with no
   repair having run in between.
   */
  lemma DownloadSurvivesFailures(cfg: Config, sys: System, n: NodeId, blobID: string, l: Lookup,
                                 st: RingState, events: seq<Event>, down: set<NodeId>)
    requires AllHonest(cfg, sys) && Sees(cfg, sys, n, l) && blobID in sys[n].manifests
    requires WellFormed(cfg.hk, st) && CollisionFree(cfg.hk, st.nodes + Named(events))
    requires |st.nodes| >= 3 && sys[n].ring == Replayed(cfg.hk, st, events).nodes
    requires |down| + Changes(cfg.hk, st, events) < 3
    requires forall id, t | id in sys[n].manifests[blobID].chunkIDs && t in Targets(cfg.hk, st.nodes, id, 3) && t !in down ::
               && t in sys && id in sys[t].store
               && (t != n ==> t in l.peers && l.peers[t].state == M.Alive && l.network(l.peers[t].addr, id).Some?)
    requires forall p | p in Pieces(Recorded(sys[n], blobID), DEFAULT_SIZE) :: Genuine(cfg.address, p, SourceOf(l))
    ensures AllVerified(cfg.address, sys[n].manifests[blobID].chunkIDs, SourceOf(l))
    ensures Fetched(cfg.address, sys[n].manifests[blobID].chunkIDs, SourceOf(l)) == Recorded(sys[n], blobID)
  {
    hide Targets, Verified, AllVerified, Fetched, HonestSources, AllHonest, WellFormed, CollisionFree, Changes, Replayed, Genuine,
      Pieces, SourceOf;
    assert InReach(cfg, sys, n, l, st, events, sys[n].manifests[blobID].chunkIDs, down);
    ReachSuffices(cfg, sys, n, blobID, l, st, events, down);
  }

  lemma CompleteIsRecorded(cfg: Config, nd: Node, blobID: string, l: Lookup)
    requires Honest(cfg, nd) && blobID in nd.manifests && AllVerified(cfg.address, nd.manifests[blobID].chunkIDs, SourceOf(l))
    requires forall p | p in Pieces(Recorded(nd, blobID), DEFAULT_SIZE) :: Genuine(cfg.address, p, SourceOf(l))
    ensures Fetched(cfg.address, nd.manifests[blobID].chunkIDs, SourceOf(l)) == Recorded(nd, blobID)
  {
    DownloadIsPrefix(cfg.address, l, blobID, Recorded(nd, blobID));
  }
}
