/**
 All the nodes with their processes: each node's detector fires callbacks, and handling a callback is the
 one way in which the node's ring changes in the cluster. From a silent peer to full replication.
 */
module WholeSystem {
  import opened Chunks
  import opened Cluster
  import opened Lists
  import M = Membership
  import P = NodeProcess
  import opened Preference
  import opened RingStates
  import opened Uploads

  /** The cluster, and the processes that run on some of its nodes. */
  datatype Whole = Whole(sys: System, procs: map<NodeId, P.Process>)

  datatype Move =
    | Steps(step: Step)
    | Pings(node: NodeId, peer: NodeId, ping: M.Ping)
    | Handles(node: NodeId, peer: NodeId, k: nat)

  /** Steps that neither change a ring nor start a node anew. */
  predicate RingNeutral(step: Step) {
    step.Acts? ==> !step.act.NodeDies? && !step.act.NodeReturns? && !step.act.Restart?
  }

  /** Handling a callback, as a step of the cluster. */
  function Handling(n: NodeId, c: M.Callback, k: nat): Step {
    match c
    case NodeDead(id) => Acts(n, NodeDies(id, k))
    case NodeAlive(id) => Acts(n, NodeReturns(id))
  }

  ghost predicate CanMove(cfg: Config, w: Whole, m: Move) {
    match m
    case Steps(step) => RingNeutral(step) && Enabled(cfg, w.sys, step)
    case Pings(n, _, _) => n in w.procs
    case Handles(n, id, k) =>
      && n in w.procs && P.Pending(w.procs[n], id) != []
      && Enabled(cfg, w.sys, Handling(n, P.Pending(w.procs[n], id)[0], k))
  }

  /** What a move does to the cluster ... */
  function StepsOfMove(w: Whole, m: Move): seq<Step> {
    match m
    case Steps(step) => [step]
    case Pings(_, _, _) => []
    case Handles(n, id, k) =>
      if n in w.procs && P.Pending(w.procs[n], id) != [] then [Handling(n, P.Pending(w.procs[n], id)[0], k)] else []
  }

  /** ... and to the process on a node. */
  function ActionsOfMove(m: Move, n: NodeId): seq<P.Action> {
    if m.Pings? && m.node == n then [P.PingDone(m.peer, m.ping)]
    else if m.Handles? && m.node == n then [P.Deliver(m.peer)]
    else []
  }

  /** The state after a move; one that cannot be made changes nothing. */
  ghost function Moved(cfg: Config, t: M.Timeouts, w: Whole, m: Move): Whole {
    if !CanMove(cfg, w, m) then w else
      match m
      case Steps(step) => w.(sys := Next(cfg, w.sys, step))
      case Pings(n, id, ping) => w.(procs := w.procs[n := P.Acted(cfg.hk, t, w.procs[n], P.PingDone(id, ping))])
      case Handles(n, id, k) =>
        Whole(Next(cfg, w.sys, Handling(n, P.Pending(w.procs[n], id)[0], k)),
              w.procs[n := P.Acted(cfg.hk, t, w.procs[n], P.Deliver(id))])
  }

  ghost function After(cfg: Config, t: M.Timeouts, w: Whole, moves: seq<Move>): Whole {
    if moves == [] then w else Moved(cfg, t, After(cfg, t, w, moves[..|moves| - 1]), moves[|moves| - 1])
  }

  ghost predicate Legal(cfg: Config, t: M.Timeouts, w: Whole, moves: seq<Move>) {
    moves != [] ==>
      var init := moves[..|moves| - 1];
      Legal(cfg, t, w, init) && CanMove(cfg, After(cfg, t, w, init), moves[|moves| - 1])
  }

  ghost function StepsOf(cfg: Config, t: M.Timeouts, w: Whole, moves: seq<Move>): seq<Step> {
    if moves == [] then [] else
      var init := moves[..|moves| - 1];
      StepsOf(cfg, t, w, init) + StepsOfMove(After(cfg, t, w, init), moves[|moves| - 1])
  }

  function ActionsOf(moves: seq<Move>, n: NodeId): seq<P.Action> {
    if moves == [] then [] else ActionsOf(moves[..|moves| - 1], n) + ActionsOfMove(moves[|moves| - 1], n)
  }

  // ---------------------------------------------------------------------------------------------
  // One system, seen from two sides
  // ---------------------------------------------------------------------------------------------

  /** Every process runs on a node of its own name and has the ring of that node. */
  ghost predicate Agree(w: Whole) {
    forall n | n in w.procs :: n in w.sys && w.procs[n].self == n && w.procs[n].ring.nodes == w.sys[n].ring
  }

  lemma NeutralKeepsRings(cfg: Config, sys: System, step: Step, n: NodeId)
    requires Enabled(cfg, sys, step) && RingNeutral(step) && n in sys
    ensures n in Next(cfg, sys, step) && Next(cfg, sys, step)[n].ring == sys[n].ring
  {
    hide Acted;
    if step.Acts? {
      RingChangesByDeath(cfg, step.node, sys[step.node], step.act);
    }
  }

  lemma HandlingChangesRing(cfg: Config, t: M.Timeouts, sys: System, n: NodeId, p: P.Process, id: NodeId, k: nat)
    requires P.Pending(p, id) != [] && n in sys && p.ring.nodes == sys[n].ring
    requires Enabled(cfg, sys, Handling(n, P.Pending(p, id)[0], k))
    ensures var next := Next(cfg, sys, Handling(n, P.Pending(p, id)[0], k));
            && P.Acted(cfg.hk, t, p, P.Deliver(id)).ring.nodes == next[n].ring
            && forall m | m in sys && m != n :: m in next && next[m] == sys[m]
  {
    hide Strip, Positions;
  }

  lemma ActedSelf(cfg: Config, t: M.Timeouts, p: P.Process, a: P.Action)
    ensures P.Acted(cfg.hk, t, p, a).self == p.self
    ensures a.PingDone? ==> P.Acted(cfg.hk, t, p, a).ring == p.ring
  {
    hide Added, Removed;
  }

  lemma MoveAgrees(cfg: Config, t: M.Timeouts, w: Whole, m: Move)
    requires Agree(w)
    ensures Agree(Moved(cfg, t, w, m)) && Moved(cfg, t, w, m).procs.Keys == w.procs.Keys
  {
    hide P.Acted, Next, Enabled;
    if CanMove(cfg, w, m) {
      match m
      case Steps(step) =>
        forall n | n in w.procs {
          NeutralKeepsRings(cfg, w.sys, step, n);
        }
      case Pings(n, id, ping) =>
        ActedSelf(cfg, t, w.procs[n], P.PingDone(id, ping));
      case Handles(n, id, k) =>
        ActedSelf(cfg, t, w.procs[n], P.Deliver(id));
        HandlingChangesRing(cfg, t, w.sys, n, w.procs[n], id, k);
        EnabledNode(cfg, w.sys, Handling(n, P.Pending(w.procs[n], id)[0], k));
    }
  }

  lemma EnabledNode(cfg: Config, sys: System, step: Step)
    requires Enabled(cfg, sys, step)
    ensures step.node in sys && Next(cfg, sys, step).Keys == sys.Keys
  {
    hide Acted, CanAct, RingAnswers;
  }

  /** In every run the ring of a node in the cluster is the ring of its process. */
  lemma {:induction false} RingsAgree(cfg: Config, t: M.Timeouts, w: Whole, moves: seq<Move>)
    requires Agree(w)
    ensures Agree(After(cfg, t, w, moves)) && After(cfg, t, w, moves).procs.Keys == w.procs.Keys
  {
    hide Moved, Agree;
    if moves != [] {
      RingsAgree(cfg, t, w, moves[..|moves| - 1]);
      MoveAgrees(cfg, t, After(cfg, t, w, moves[..|moves| - 1]), moves[|moves| - 1]);
    }
  }

  lemma MovedProcess(cfg: Config, t: M.Timeouts, w: Whole, m: Move, n: NodeId)
    requires CanMove(cfg, w, m) && n in w.procs
    ensures n in Moved(cfg, t, w, m).procs
    ensures Moved(cfg, t, w, m).procs[n]
         == if ActionsOfMove(m, n) == [] then w.procs[n] else P.Acted(cfg.hk, t, w.procs[n], ActionsOfMove(m, n)[0])
    ensures |ActionsOfMove(m, n)| <= 1
  {
    hide P.Acted, Next, Enabled;
  }

  /** From the side of one node, a run is a run of its process. */
  lemma {:induction false} ProcessSide(cfg: Config, t: M.Timeouts, w: Whole, moves: seq<Move>, n: NodeId)
    requires Legal(cfg, t, w, moves) && n in w.procs
    ensures n in After(cfg, t, w, moves).procs
    ensures After(cfg, t, w, moves).procs[n] == P.Ran(cfg.hk, t, w.procs[n], ActionsOf(moves, n))
  {
    hide Moved, CanMove, P.Acted;
    if moves != [] {
      var init, last := moves[..|moves| - 1], moves[|moves| - 1];
      ProcessSide(cfg, t, w, init, n);
      MovedProcess(cfg, t, After(cfg, t, w, init), last, n);
      RanNext(cfg, t, w.procs[n], ActionsOf(init, n), ActionsOfMove(last, n));
    }
  }

  lemma RanNext(cfg: Config, t: M.Timeouts, p: P.Process, actions: seq<P.Action>, more: seq<P.Action>)
    requires |more| <= 1
    ensures P.Ran(cfg.hk, t, p, actions + more)
         == if more == [] then P.Ran(cfg.hk, t, p, actions) else P.Acted(cfg.hk, t, P.Ran(cfg.hk, t, p, actions), more[0])
  {
    hide P.Acted;
    if more == [] {
      AppendNothing(actions);
    } else {
      assert (actions + more)[..|actions|] == actions;
    }
  }

  lemma MovedCluster(cfg: Config, t: M.Timeouts, w: Whole, m: Move)
    requires CanMove(cfg, w, m)
    ensures Run(cfg, w.sys, StepsOfMove(w, m), Moved(cfg, t, w, m).sys)
  {
    hide P.Acted, Next, Enabled;
    var steps, next := StepsOfMove(w, m), Moved(cfg, t, w, m).sys;
    if steps != [] {
      assert steps[1..] == [];
      assert Run(cfg, next, [], next);
    }
  }

  /** From the side of the cluster, it is a run of the cluster. */
  lemma {:induction false} ClusterSide(cfg: Config, t: M.Timeouts, w: Whole, moves: seq<Move>)
    requires Legal(cfg, t, w, moves)
    ensures Run(cfg, w.sys, StepsOf(cfg, t, w, moves), After(cfg, t, w, moves).sys)
  {
    hide Moved, CanMove, Run, StepsOfMove;
    if moves == [] {
      NoRun(cfg, w.sys);
    } else {
      var init := moves[..|moves| - 1];
      var mid := After(cfg, t, w, init);
      ClusterSide(cfg, t, w, init);
      MovedCluster(cfg, t, mid, moves[|moves| - 1]);
      RunAppend(cfg, w.sys, StepsOf(cfg, t, w, init), mid.sys, StepsOfMove(mid, moves[|moves| - 1]),
                After(cfg, t, w, moves).sys);
    }
  }

  lemma NoRun(cfg: Config, sys: System)
    ensures Run(cfg, sys, [], sys)
  {}

  // ---------------------------------------------------------------------------------------------
  // From silence to full replication
  // ---------------------------------------------------------------------------------------------

  /** What the node does in these moves is nothing that healing forbids. */
  ghost predicate SmoothMoves(cfg: Config, t: M.Timeouts, w: Whole, moves: seq<Move>, s: NodeId, id: ChunkId, gone: set<NodeId>) {
    moves != [] ==>
      var init := moves[..|moves| - 1];
      var mid := After(cfg, t, w, init);
      && SmoothMoves(cfg, t, w, init, s, id, gone)
      && forall step | step in StepsOfMove(mid, moves[|moves| - 1]) :: Smooth(mid.sys, s, id, gone, step)
  }

  /** The node is responsible for the chunk and has it. */
  ghost predicate Responsible(cfg: Config, sys: System, s: NodeId, id: ChunkId) {
    s in sys && CollisionFree(cfg.hk, sys[s].ring) && s in Owners(cfg, sys[s], id) && id in sys[s].store
  }

  lemma SmoothKeepsResponsible(cfg: Config, sys: System, step: Step, s: NodeId, id: ChunkId, gone: set<NodeId>)
    requires Responsible(cfg, sys, s, id) && Enabled(cfg, sys, step) && Smooth(sys, s, id, gone, step)
    ensures Responsible(cfg, Next(cfg, sys, step), s, id)
  {
    hide Targets, CollisionFree, Acted;
    assert Holds(sys, s, id);
    StoresGrow(cfg, sys, step, s, id);
    if step.node == s && step.Acts? && step.act.NodeDies? {
      DeathBringsCare(cfg, sys, s, id, gone, step.act.node, step.act.k);
    } else {
      SmoothKeepsRing(cfg, sys, step, s, id, gone);
    }
  }

  lemma SmoothKeepsRing(cfg: Config, sys: System, step: Step, s: NodeId, id: ChunkId, gone: set<NodeId>)
    requires Enabled(cfg, sys, step) && Smooth(sys, s, id, gone, step) && s in sys
    ensures s in Next(cfg, sys, step)
    ensures Next(cfg, sys, step)[s].ring
         == if step.node == s && step.Acts? && step.act.NodeDies? then sys[s].ring - {step.act.node} else sys[s].ring
  {
    hide Acted;
    if step.node == s && step.Acts? {
      RingChangesByDeath(cfg, s, sys[s], step.act);
    }
  }

  /** The death of `d` is the next thing about it that `s` will learn of. */
  ghost predicate Due(w: Whole, s: NodeId, d: NodeId) {
    s in w.procs && P.Pending(w.procs[s], d) != [] && P.Pending(w.procs[s], d)[0] == M.NodeDead(d)
  }

  /** ... or `s` has learned of it, and cares for the chunk. */
  ghost predicate Healing(cfg: Config, w: Whole, s: NodeId, d: NodeId, id: ChunkId, gone: set<NodeId>) {
    || (Due(w, s, d) && Responsible(cfg, w.sys, s, id))
    || (Cared(cfg, w.sys, s, id, gone) && d !in w.sys[s].ring)
  }

  lemma DueStays(cfg: Config, t: M.Timeouts, w: Whole, m: Move, s: NodeId, d: NodeId)
    requires CanMove(cfg, w, m) && Due(w, s, d) && !(m.Handles? && m.node == s && m.peer == d)
    ensures Due(Moved(cfg, t, w, m), s, d)
  {
    hide Next, Enabled, Added, Removed, M.Pinged;
  }

  lemma StepKeepsHealing(cfg: Config, t: M.Timeouts, w: Whole, m: Move, s: NodeId, d: NodeId, id: ChunkId, gone: set<NodeId>)
    requires CanMove(cfg, w, m) && Healing(cfg, w, s, d, id, gone) && d != s
    requires forall step | step in StepsOfMove(w, m) :: Smooth(w.sys, s, id, gone, step)
    ensures Healing(cfg, Moved(cfg, t, w, m), s, d, id, gone)
  {
    hide Targets, CollisionFree, P.Acted, Next, Enabled, Smooth, Responsible, Cared, Due;
    if m.Pings? {
      if Due(w, s, d) {
        DueStays(cfg, t, w, m, s, d);
      }
    } else {
      var step := StepsOfMove(w, m)[0];
      assert step in StepsOfMove(w, m);
      if Cared(cfg, w.sys, s, id, gone) {
        CaredNode(cfg, w.sys, s, id, gone);
      }
      if Cared(cfg, w.sys, s, id, gone) && d !in w.sys[s].ring {
        StepKeepsCare(cfg, w.sys, step, s, id, gone);
        SmoothKeepsRing(cfg, w.sys, step, s, id, gone);
      } else if m.Handles? && m.node == s && m.peer == d {
        DueHandling(w, s, d, m.k);
        HandledDeath(cfg, w, s, d, m.k, id, gone);
      } else {
        DueStays(cfg, t, w, m, s, d);
        SmoothKeepsResponsible(cfg, w.sys, step, s, id, gone);
      }
    }
  }

  lemma CaredNode(cfg: Config, sys: System, s: NodeId, id: ChunkId, gone: set<NodeId>)
    requires Cared(cfg, sys, s, id, gone)
    ensures s in sys
  {
    hide Targets;
  }

  lemma DueHandling(w: Whole, s: NodeId, d: NodeId, k: nat)
    requires Due(w, s, d)
    ensures Handling(s, P.Pending(w.procs[s], d)[0], k) == Acts(s, NodeDies(d, k))
  {}

  lemma HandledDeath(cfg: Config, w: Whole, s: NodeId, d: NodeId, k: nat, id: ChunkId, gone: set<NodeId>)
    requires Due(w, s, d) && Responsible(cfg, w.sys, s, id) && d != s && Enabled(cfg, w.sys, Acts(s, NodeDies(d, k)))
    ensures var next := Next(cfg, w.sys, Acts(s, NodeDies(d, k))); Cared(cfg, next, s, id, gone) && d !in next[s].ring
  {
    hide Targets, CollisionFree;
    DeathBringsCare(cfg, w.sys, s, id, gone, d, k);
  }

  lemma {:induction false} RunKeepsHealing(cfg: Config, t: M.Timeouts, w: Whole, moves: seq<Move>, s: NodeId, d: NodeId,
                                           id: ChunkId, gone: set<NodeId>)
    requires Legal(cfg, t, w, moves) && SmoothMoves(cfg, t, w, moves, s, id, gone) && Healing(cfg, w, s, d, id, gone) && d != s
    ensures Healing(cfg, After(cfg, t, w, moves), s, d, id, gone)
  {
    hide Moved, CanMove, Healing, Smooth, StepsOfMove;
    if moves != [] {
      var init := moves[..|moves| - 1];
      RunKeepsHealing(cfg, t, w, init, s, d, id, gone);
      StepKeepsHealing(cfg, t, After(cfg, t, w, init), moves[|moves| - 1], s, d, id, gone);
    }
  }

  lemma SilenceIsDue(cfg: Config, t: M.Timeouts, w: Whole, before: seq<Move>, now: int, s: NodeId, d: NodeId, gap: int)
    requires Agree(w) && s in w.procs && P.Started(w.procs[s]) && Legal(cfg, t, w, before)
    requires P.InClockOrder(now, ActionsOf(before, s)) && d in w.procs[s].peers && w.procs[s].peers[d].lastHeartbeat <= now
    requires var acts, pings := ActionsOf(before, s), P.PingsOf(ActionsOf(before, s), d);
             && pings != [] && !pings[|pings| - 1].healthy
             && P.TimeAfter(now, acts) - pings[|pings| - 1].at <= gap
             && P.TimeAfter(now, acts) - M.LastContact(w.procs[s].peers[d].lastHeartbeat, pings) >= t.deadAfter + gap
    requires var mid := After(cfg, t, w, before).sys; s in mid && d in mid[s].ring
    ensures Due(After(cfg, t, w, before), s, d)
  {
    hide After, Legal, P.InClockOrder, P.PingsOf, P.TimeAfter, M.LastContact;
    RingsAgree(cfg, t, w, before);
    ProcessSide(cfg, t, w, before, s);
    P.SilentPeerLeavesRing(cfg.hk, t, w.procs[s], now, ActionsOf(before, s), d, gap);
    P.RanCoupled(cfg.hk, t, w.procs[s], now, ActionsOf(before, s));
  }

  /**
   Silence heals. A peer has been silent for the dead timeout and a gap when node `s`, which has a chunk and
   is responsible for it, still has the peer on its ring. Then, whatever else happens, as soon as `s` has
   handled its callbacks about the peer and has settled, the peer is off its ring and the chunk is on all the
   nodes responsible. That the death is handled at all follows from the detector and the coupling.
   */
  lemma SilenceHeals(cfg: Config, t: M.Timeouts, w: Whole, before: seq<Move>, now: int, s: NodeId, d: NodeId, gap: int,
                     mid: Whole, moves: seq<Move>, end: Whole, id: ChunkId, gone: set<NodeId>)
    requires Agree(w) && s in w.procs && P.Started(w.procs[s])
    requires Legal(cfg, t, w, before) && mid == After(cfg, t, w, before)
    requires P.InClockOrder(now, ActionsOf(before, s)) && d in w.procs[s].peers && w.procs[s].peers[d].lastHeartbeat <= now
    requires var acts, pings := ActionsOf(before, s), P.PingsOf(ActionsOf(before, s), d);
             && pings != [] && !pings[|pings| - 1].healthy
             && P.TimeAfter(now, acts) - pings[|pings| - 1].at <= gap
             && P.TimeAfter(now, acts) - M.LastContact(w.procs[s].peers[d].lastHeartbeat, pings) >= t.deadAfter + gap
    requires s in mid.sys && CollisionFree(cfg.hk, mid.sys[s].ring) && id in mid.sys[s].store
    requires s in Targets(cfg.hk, mid.sys[s].ring, id, 3) && d in mid.sys[s].ring
    requires Legal(cfg, t, mid, moves) && SmoothMoves(cfg, t, mid, moves, s, id, gone) && end == After(cfg, t, mid, moves)
    requires s in end.procs && P.Pending(end.procs[s], d) == []
    requires s in end.sys && end.sys[s].ring !! gone && end.sys[s].passes == map[] && end.sys[s].queue == []
    requires forall k | k in end.sys[s].inFlight :: end.sys[s].inFlight[k].job.chunkID != id
    ensures d !in end.sys[s].ring
    ensures forall t | t in Targets(cfg.hk, end.sys[s].ring, id, 3) :: t in end.sys && id in end.sys[t].store
  {
    hide Targets, CollisionFree, After, Legal, SmoothMoves, P.InClockOrder, P.PingsOf, P.TimeAfter, M.LastContact, Cared;
    SilenceIsDue(cfg, t, w, before, now, s, d, gap);
    assert Responsible(cfg, mid.sys, s, id);
    RunKeepsHealing(cfg, t, mid, moves, s, d, id, gone);
    assert Settled(end.sys[s], id);
    SettledIsReplicated(cfg, end.sys, s, id, gone);
  }
}
