/**
 One node as a process: the start-up loop, and afterwards the detector and the ring, coupled through
 callbacks that run later than they are fired. Callbacks about one peer are taken to arrive in the
 order they were fired; what happens otherwise is stated in `DeliveryOrderIff`.
 */
module NodeProcess {
  import opened HashRing
  import M = Membership
  import opened Placement
  import opened Preference
  import opened RingStates

  /** Where the first '=' of a peer entry is, if it has one. */
  function Separator(entry: string): (k: nat)
    ensures k <= |entry|
    ensures k < |entry| ==> entry[k] == '='
    ensures '=' !in entry[..k]
  {
    if entry == "" then 0
    else if entry[0] == '=' then 0
    else
      var k := 1 + Separator(entry[1..]);
      assert entry[..k] == [entry[0]] + entry[1..][..k - 1];
      k
  }

  /** The ID in a well-formed entry (`id=addr`); an empty or malformed entry has none. */
  function EntryIds(entry: string): set<NodeId> {
    if Separator(entry) < |entry| then {entry[..Separator(entry)]} else {}
  }

  function PeerIds(entries: seq<string>): set<NodeId> {
    if entries == [] then {} else PeerIds(entries[..|entries| - 1]) + EntryIds(entries[|entries| - 1])
  }

  /** What one entry adds to the peers: what stands after the first '=' is the address. */
  function Entered(peers: map<NodeId, M.Peer>, self: NodeId, entry: string, now: int): map<NodeId, M.Peer> {
    var k := Separator(entry);
    if k == |entry| || entry[..k] == self || entry[..k] in peers then peers
    else peers[entry[..k] := M.Peer(entry[k + 1..], M.Alive, now)]
  }

  function AllEntered(self: NodeId, entries: seq<string>, now: int): map<NodeId, M.Peer> {
    if entries == [] then map[] else
      Entered(AllEntered(self, entries[..|entries| - 1], now), self, entries[|entries| - 1], now)
  }

  /** All the IDs are registered, except the node's own, and every peer is assumed alive. */
  lemma {:induction false} EnteredIds(self: NodeId, entries: seq<string>, now: int)
    ensures AllEntered(self, entries, now).Keys == PeerIds(entries) - {self}
    ensures forall id | id in AllEntered(self, entries, now) :: AllEntered(self, entries, now)[id].state == M.Alive
  {
    if entries != [] {
      EnteredIds(self, entries[..|entries| - 1], now);
    }
  }

  /** When an ID is configured more than once, the first entry gives the address. */
  lemma {:induction false} FirstEntryWins(self: NodeId, entries: seq<string>, now: int, i: nat, id: NodeId, addr: string)
    requires i < |entries| && id != self && '=' !in id && entries[i] == id + "=" + addr
    requires forall j | 0 <= j < i :: id !in EntryIds(entries[j])
    ensures id in AllEntered(self, entries, now) && AllEntered(self, entries, now)[id] == M.Peer(addr, M.Alive, now)
    decreases |entries|
  {
    var init := entries[..|entries| - 1];
    if i < |entries| - 1 {
      FirstEntryWins(self, init, now, i, id, addr);
    } else {
      EnteredIds(self, init, now);
      NotConfigured(init, id);
      SeparatorAt(id, addr);
    }
  }

  lemma {:induction false} NotConfigured(entries: seq<string>, id: NodeId)
    requires forall j | 0 <= j < |entries| :: id !in EntryIds(entries[j])
    ensures id !in PeerIds(entries)
  {
    if entries != [] {
      NotConfigured(entries[..|entries| - 1], id);
    }
  }

  lemma {:induction false} SeparatorIs(entry: string, k: nat)
    requires k < |entry| && entry[k] == '=' && forall j | 0 <= j < k :: entry[j] != '='
    ensures Separator(entry) == k
  {
    if k > 0 {
      SeparatorIs(entry[1..], k - 1);
    }
  }

  lemma SeparatorAt(id: NodeId, addr: string)
    requires '=' !in id
    ensures var entry := id + "=" + addr;
            && Separator(entry) == |id| && entry[..|id|] == id && entry[|id| + 1..] == addr
  {
    var entry := id + "=" + addr;
    assert forall j | 0 <= j < |id| :: entry[j] == id[j] && id[j] in id;
    SeparatorIs(entry, |id|);
  }

  /** Start-up: the node itself goes on the ring, then every configured peer, which is assumed alive. */
  method StartUp(self: NodeId, entries: seq<string>, hk: KeyHash, now: int)
    returns (membership: M.Membership, ring: Ring)
    ensures fresh(membership) && fresh(ring) && membership.Valid() && ring.Valid()
    ensures membership.selfID == self && membership.timeouts == M.Timeouts(3_000_000_000, 9_000_000_000) && ring.hashKey == hk
    ensures membership.peers == AllEntered(self, entries, now) && membership.fired == []
    ensures ring.nodes == {self} + PeerIds(entries) && Faithful(hk, ring.State())
    ensures Started(Process(self, membership.peers, ring.State(), map[]))
  {
    ring := new Ring(hk);
    AddedFaithful(hk, EMPTY_RING, self);
    var _ := ring.AddNode(self);
    membership := new M.Membership(self, M.DEFAULT_TIMEOUTS);
    var i := 0;
    while i < |entries|
      invariant 0 <= i <= |entries|
      invariant fresh(membership) && fresh(ring) && membership.Valid() && ring.Valid()
      invariant membership.peers == AllEntered(self, entries[..i], now) && membership.fired == []
      invariant ring.nodes == {self} + PeerIds(entries[..i]) && Faithful(hk, ring.State())
    {
      EnteredNext(self, entries, now, i);
      Register(membership, ring, entries[i], now);
      i := i + 1;
    }
    assert entries[..i] == entries;
    EnteredIds(self, entries, now);
  }

  lemma EnteredNext(self: NodeId, entries: seq<string>, now: int, i: nat)
    requires i < |entries|
    ensures AllEntered(self, entries[..i + 1], now) == Entered(AllEntered(self, entries[..i], now), self, entries[i], now)
    ensures PeerIds(entries[..i + 1]) == PeerIds(entries[..i]) + EntryIds(entries[i])
  {
    assert entries[..i + 1][..i] == entries[..i];
  }

  /** The body of the start-up loop. */
  method Register(membership: M.Membership, ring: Ring, entry: string, now: int)
    requires membership.Valid() && ring.Valid()
    modifies membership, ring
    ensures membership.Valid() && ring.Valid() && membership.fired == old(membership.fired)
    ensures membership.peers == Entered(old(membership.peers), membership.selfID, entry, now)
    ensures ring.nodes == old(ring.nodes) + EntryIds(entry)
    ensures old(Faithful(ring.hashKey, ring.State())) ==> Faithful(ring.hashKey, ring.State())
  {
    var k := Separator(entry);
    if entry != "" && k < |entry| {
      var id, addr := entry[..k], entry[k + 1..];
      membership.AddPeer(id, addr, now);
      if Faithful(ring.hashKey, ring.State()) {
        AddedFaithful(ring.hashKey, ring.State(), id);
      }
      var _ := ring.AddNode(id);
    }
  }

  // ---------------------------------------------------------------------------------------------
  // The running process
  // ---------------------------------------------------------------------------------------------

  datatype Process = Process(
    self: NodeId,
    peers: map<NodeId, M.Peer>,
    ring: RingState,
    pending: map<NodeId, seq<M.Callback>>)

  datatype Action =
    | PingDone(node: NodeId, ping: M.Ping)
    | Deliver(node: NodeId)

  function Pending(p: Process, id: NodeId): seq<M.Callback> {
    if id in p.pending then p.pending[id] else []
  }

  /** What the two callbacks do to the ring. */
  function Handled(hk: KeyHash, ring: RingState, c: M.Callback): RingState {
    match c
    case NodeDead(id) => Removed(ring, id)
    case NodeAlive(id) => Added(hk, ring, id)
  }

  function Acted(hk: KeyHash, t: M.Timeouts, p: Process, a: Action): Process {
    match a
    case PingDone(id, ping) =>
      if id !in p.peers then p else
        var before := p.peers[id];
        var after := M.Pinged(t, before, ping);
        p.(peers := p.peers[id := after],
           pending := p.pending[id := Pending(p, id) + M.Fired(id, before.state, after.state)])
    case Deliver(id) =>
      if Pending(p, id) == [] then p else
        p.(ring := Handled(hk, p.ring, p.pending[id][0]), pending := p.pending[id := p.pending[id][1..]])
  }

  function Ran(hk: KeyHash, t: M.Timeouts, p: Process, actions: seq<Action>): Process {
    if actions == [] then p else Acted(hk, t, Ran(hk, t, p, actions[..|actions| - 1]), actions[|actions| - 1])
  }

  /** As left by `StartUp`. */
  ghost predicate Started(p: Process) {
    && p.self !in p.peers && p.pending == map[]
    && p.ring.nodes == {p.self} + p.peers.Keys
    && (forall id | id in p.peers :: p.peers[id].state == M.Alive)
  }

  /**
   The coupling. For each peer the pending callbacks alternate, the first one is about to change the
   ring, and once they are all handled the peer is on the ring exactly when it is not dead.
   */
  ghost predicate Coupled(p: Process) {
    && p.self !in p.peers && p.self in p.ring.nodes && p.ring.nodes <= {p.self} + p.peers.Keys
    && (forall id :: Pending(p, id) != [] ==> id in p.peers)
    && (forall id | id in p.peers :: PeerCoupled(id, p.peers[id].state, id in p.ring.nodes, Pending(p, id)))
  }

  ghost predicate PeerCoupled(id: NodeId, state: M.State, onRing: bool, pending: seq<M.Callback>)
    decreases |pending|
  {
    if pending == [] then onRing <==> state != M.Dead else
      && pending[0] == (if onRing then M.NodeDead(id) else M.NodeAlive(id))
      && PeerCoupled(id, state, !onRing, pending[1..])
  }

  lemma {:induction false} FiringKeepsCoupling(id: NodeId, state: M.State, onRing: bool, pending: seq<M.Callback>, state': M.State)
    requires PeerCoupled(id, state, onRing, pending) && !(state == M.Dead && state' == M.Suspect)
    ensures PeerCoupled(id, state', onRing, pending + M.Fired(id, state, state'))
    decreases |pending|
  {
    var all := pending + M.Fired(id, state, state');
    if pending != [] {
      FiringKeepsCoupling(id, state, !onRing, pending[1..], state');
      assert all[1..] == pending[1..] + M.Fired(id, state, state');
    } else if all != [] {
      assert all == M.Fired(id, state, state') && all[1..] == [];
    }
  }

  /** Whoever is held dead at time `now` has been silent for the dead timeout. */
  ghost predicate DeadAreSilent(t: M.Timeouts, p: Process, now: int) {
    forall id | id in p.peers && p.peers[id].state == M.Dead :: now - p.peers[id].lastHeartbeat >= t.deadAfter
  }

  /** The time of the last ping, `now` being the time before the first. */
  function TimeAfter(now: int, actions: seq<Action>): int {
    if actions == [] then now else
      match actions[|actions| - 1]
      case PingDone(_, ping) => ping.at
      case Deliver(_) => TimeAfter(now, actions[..|actions| - 1])
  }

  /** The clock is read under the lock and does not run backwards. */
  ghost predicate InClockOrder(now: int, actions: seq<Action>) {
    actions != [] ==>
      var init, last := actions[..|actions| - 1], actions[|actions| - 1];
      && InClockOrder(now, init)
      && (last.PingDone? ==> TimeAfter(now, init) <= last.ping.at)
  }

  lemma ActedCoupled(hk: KeyHash, t: M.Timeouts, p: Process, a: Action, now: int)
    requires Coupled(p) && DeadAreSilent(t, p, now) && (a.PingDone? ==> now <= a.ping.at)
    ensures Coupled(Acted(hk, t, p, a)) && DeadAreSilent(t, Acted(hk, t, p, a), if a.PingDone? then a.ping.at else now)
  {
    var p' := Acted(hk, t, p, a);
    var id := a.node;
    forall other | other != id ensures Pending(p', other) == Pending(p, other) {}
    if id in p.peers {
      assert PeerCoupled(id, p.peers[id].state, id in p.ring.nodes, Pending(p, id));
      match a
      case PingDone(_, ping) =>
        FiringKeepsCoupling(id, p.peers[id].state, id in p.ring.nodes, Pending(p, id), p'.peers[id].state);
      case Deliver(_) =>
    }
  }

  lemma ActedWellFormed(hk: KeyHash, t: M.Timeouts, p: Process, a: Action)
    requires Coupled(p) && WellFormed(hk, p.ring) && CollisionFree(hk, {p.self} + p.peers.Keys)
    ensures WellFormed(hk, Acted(hk, t, p, a).ring)
  {
    var id := a.node;
    if a.Deliver? && Pending(p, id) != [] {
      RemovedWellFormed(hk, p.ring, id);
      CollisionFreeSubset(hk, {p.self} + p.peers.Keys, p.ring.nodes + {id});
      assert PeerCoupled(id, p.peers[id].state, id in p.ring.nodes, Pending(p, id));
      AddedWellFormed(hk, p.ring, id);
    }
  }

  lemma {:induction false} RanCoupled(hk: KeyHash, t: M.Timeouts, p: Process, now: int, actions: seq<Action>)
    requires Started(p) && InClockOrder(now, actions)
    ensures Coupled(Ran(hk, t, p, actions)) && DeadAreSilent(t, Ran(hk, t, p, actions), TimeAfter(now, actions))
    ensures Ran(hk, t, p, actions).self == p.self && Ran(hk, t, p, actions).peers.Keys == p.peers.Keys
    decreases |actions|
  {
    if actions != [] {
      var init := actions[..|actions| - 1];
      RanCoupled(hk, t, p, now, init);
      ActedCoupled(hk, t, Ran(hk, t, p, init), actions[|actions| - 1], TimeAfter(now, init));
    }
  }

  lemma {:induction false} RanWellFormed(hk: KeyHash, t: M.Timeouts, p: Process, now: int, actions: seq<Action>)
    requires Started(p) && WellFormed(hk, p.ring) && InClockOrder(now, actions)
    requires CollisionFree(hk, {p.self} + p.peers.Keys)
    ensures WellFormed(hk, Ran(hk, t, p, actions).ring)
    decreases |actions|
  {
    if actions != [] {
      var init := actions[..|actions| - 1];
      RanWellFormed(hk, t, p, now, init);
      RanCoupled(hk, t, p, now, init);
      ActedWellFormed(hk, t, Ran(hk, t, p, init), actions[|actions| - 1]);
    }
  }

  /** The node set after handling callbacks in the given order. */
  function HandledNodes(nodes: set<NodeId>, callbacks: seq<M.Callback>): set<NodeId>
    decreases |callbacks|
  {
    if callbacks == [] then nodes else
      match callbacks[0]
      case NodeDead(id) => HandledNodes(nodes - {id}, callbacks[1..])
      case NodeAlive(id) => HandledNodes(nodes + {id}, callbacks[1..])
  }

  ghost predicate About(id: NodeId, callbacks: seq<M.Callback>) {
    forall c | c in callbacks :: c.node == id
  }

  /** Only the last of the callbacks about a peer matters in the end. */
  lemma {:induction false} LastCallbackDecides(nodes: set<NodeId>, id: NodeId, callbacks: seq<M.Callback>)
    requires About(id, callbacks)
    ensures id in HandledNodes(nodes, callbacks)
            <==> if callbacks == [] then id in nodes else callbacks[|callbacks| - 1] == M.NodeAlive(id)
    decreases |callbacks|
  {
    if callbacks != [] {
      assert callbacks[0].node == id;
      match callbacks[0]
      case NodeDead(_) => LastCallbackDecides(nodes - {id}, id, callbacks[1..]);
      case NodeAlive(_) => LastCallbackDecides(nodes + {id}, id, callbacks[1..]);
    }
  }

  /** Where the coupled callbacks lead, whatever the current ring is. */
  lemma {:induction false} CouplingLeads(id: NodeId, state: M.State, onRing: bool, pending: seq<M.Callback>)
    requires PeerCoupled(id, state, onRing, pending)
    ensures About(id, pending)
    ensures pending == [] ==> (onRing <==> state != M.Dead)
    ensures pending != [] ==>
              pending[|pending| - 1] == if state != M.Dead then M.NodeAlive(id) else M.NodeDead(id)
    decreases |pending|
  {
    if pending != [] {
      CouplingLeads(id, state, !onRing, pending[1..]);
      assert pending == [pending[0]] + pending[1..];
    }
  }

  /**
   Membership and ring agree over every run: handling what is still pending for a peer, in order,
   leaves it on the ring exactly when the detector does not hold it dead. The node itself is never
   taken off, and nothing else is on the ring.
   */
  lemma RingFollowsDetector(hk: KeyHash, t: M.Timeouts, start: Process, now: int, actions: seq<Action>, id: NodeId)
    requires Started(start) && InClockOrder(now, actions)
    ensures var p := Ran(hk, t, start, actions);
            && p.self in p.ring.nodes && p.ring.nodes - {p.self} <= p.peers.Keys
            && (id in p.peers ==> (id in HandledNodes(p.ring.nodes, Pending(p, id)) <==> p.peers[id].state != M.Dead))
  {
    RanCoupled(hk, t, start, now, actions);
    var p := Ran(hk, t, start, actions);
    if id in p.peers {
      CouplingLeads(id, p.peers[id].state, id in p.ring.nodes, Pending(p, id));
      LastCallbackDecides(p.ring.nodes, id, Pending(p, id));
    }
  }

  /** With nothing pending, the ring is exactly the node itself and the peers not held dead. */
  lemma SettledRing(hk: KeyHash, t: M.Timeouts, start: Process, now: int, actions: seq<Action>)
    requires Started(start) && InClockOrder(now, actions)
    requires forall id :: Pending(Ran(hk, t, start, actions), id) == []
    ensures var p := Ran(hk, t, start, actions);
            p.ring.nodes == {p.self} + set id | id in p.peers && p.peers[id].state != M.Dead
  {
    RanCoupled(hk, t, start, now, actions);
    var p := Ran(hk, t, start, actions);
    forall id | id in p.peers ensures id in p.ring.nodes <==> p.peers[id].state != M.Dead {
      assert PeerCoupled(id, p.peers[id].state, id in p.ring.nodes, Pending(p, id));
    }
  }

  // ---------------------------------------------------------------------------------------------
  // From silence to the ring
  // ---------------------------------------------------------------------------------------------

  /** The pings of one peer, in order. */
  function PingsOf(actions: seq<Action>, id: NodeId): seq<M.Ping> {
    if actions == [] then [] else
      var init, last := actions[..|actions| - 1], actions[|actions| - 1];
      PingsOf(init, id) + if last.PingDone? && last.node == id then [last.ping] else []
  }

  lemma ActedPeer(hk: KeyHash, t: M.Timeouts, p: Process, a: Action, id: NodeId)
    requires id in p.peers
    ensures var q := Acted(hk, t, p, a);
            id in q.peers && q.peers[id] == if a.PingDone? && a.node == id then M.Pinged(t, p.peers[id], a.ping) else p.peers[id]
  {
    hide Added, Removed, M.Fired;
  }

  lemma AfterNext(t: M.Timeouts, peer: M.Peer, pings: seq<M.Ping>, ping: M.Ping)
    ensures M.After(t, peer, pings + [ping]) == M.Pinged(t, M.After(t, peer, pings), ping)
  {
    assert (pings + [ping])[..|pings|] == pings;
  }

  /** What a run makes of a peer is what the detector makes of its pings. */
  lemma {:induction false} RanPeer(hk: KeyHash, t: M.Timeouts, p: Process, actions: seq<Action>, id: NodeId)
    requires id in p.peers
    ensures var q := Ran(hk, t, p, actions); id in q.peers && q.peers[id] == M.After(t, p.peers[id], PingsOf(actions, id))
    decreases |actions|
  {
    hide Acted, M.Pinged;
    if actions != [] {
      var init, last := actions[..|actions| - 1], actions[|actions| - 1];
      RanPeer(hk, t, p, init, id);
      ActedPeer(hk, t, Ran(hk, t, p, init), last, id);
      if last.PingDone? && last.node == id {
        AfterNext(t, p.peers[id], PingsOf(init, id), last.ping);
      } else {
        assert PingsOf(actions, id) == PingsOf(init, id);
      }
    }
  }

  /** In every run, every peer keeps the address it was started with. */
  lemma AddressesKept(hk: KeyHash, t: M.Timeouts, p: Process, actions: seq<Action>, id: NodeId)
    requires id in p.peers
    ensures id in Ran(hk, t, p, actions).peers && Ran(hk, t, p, actions).peers[id].addr == p.peers[id].addr
  {
    RanPeer(hk, t, p, actions, id);
    M.AddressKept(t, p.peers[id], PingsOf(actions, id));
  }

  /** So what the resolver answers after any run is the address configured in the first entry for the peer. */
  lemma ConfiguredAddress(hk: KeyHash, t: M.Timeouts, start: Process, entries: seq<string>, began: int, actions: seq<Action>,
                          i: nat, id: NodeId, addr: string)
    requires start.peers == AllEntered(start.self, entries, began)
    requires i < |entries| && id != start.self && '=' !in id && entries[i] == id + "=" + addr
    requires forall j | 0 <= j < i :: !(id + "=" <= entries[j])
    ensures id in Ran(hk, t, start, actions).peers && Ran(hk, t, start, actions).peers[id].addr == addr
  {
    forall j | 0 <= j < i ensures id !in EntryIds(entries[j]) {
      EntryIff(entries[j], id);
    }
    FirstEntryWins(start.self, entries, began, i, id, addr);
    AddressesKept(hk, t, start, actions, id);
  }

  /** The peers configured, read off the entries: those before the first '=' of an entry. */
  lemma {:induction false} ConfiguredIff(entries: seq<string>, id: NodeId)
    ensures id in PeerIds(entries) <==> exists i :: 0 <= i < |entries| && '=' !in id && id + "=" <= entries[i]
  {
    if entries != [] {
      var init, last := entries[..|entries| - 1], entries[|entries| - 1];
      ConfiguredIff(init, id);
      EntryIff(last, id);
      assert forall i | 0 <= i < |init| :: init[i] == entries[i];
    }
  }

  lemma EntryIff(entry: string, id: NodeId)
    ensures id in EntryIds(entry) <==> '=' !in id && id + "=" <= entry
  {
    var k := Separator(entry);
    if id in EntryIds(entry) {
      assert entry[..k + 1] == id + "=";
    }
    if '=' !in id && id + "=" <= entry {
      SeparatorAt(id, entry[|id| + 1..]);
      assert entry == id + "=" + entry[|id| + 1..];
    }
  }

  lemma {:induction false} PingsInOrder(now: int, actions: seq<Action>, id: NodeId, registered: int)
    requires InClockOrder(now, actions) && registered <= now
    ensures M.Monotone(registered, PingsOf(actions, id)) && now <= TimeAfter(now, actions)
    ensures forall ping | ping in PingsOf(actions, id) :: ping.at <= TimeAfter(now, actions)
    decreases |actions|
  {
    if actions != [] {
      PingsInOrder(now, actions[..|actions| - 1], id, registered);
      var pings := PingsOf(actions[..|actions| - 1], id);
      assert forall i | 0 <= i < |pings| :: pings[i] in pings;
    }
  }

  /**
   Silence takes a peer off the ring: it is held dead, and if it is still on the ring, its "dead" callback is
   the next to be handled.
   */
  lemma SilentPeerLeavesRing(hk: KeyHash, t: M.Timeouts, start: Process, now: int, actions: seq<Action>, id: NodeId, gap: int)
    requires Started(start) && InClockOrder(now, actions)
    requires id in start.peers && start.peers[id].lastHeartbeat <= now
    requires var pings := PingsOf(actions, id);
             && pings != [] && !pings[|pings| - 1].healthy
             && TimeAfter(now, actions) - pings[|pings| - 1].at <= gap
             && TimeAfter(now, actions) - M.LastContact(start.peers[id].lastHeartbeat, pings) >= t.deadAfter + gap
    ensures var p := Ran(hk, t, start, actions);
            && id in p.peers && p.peers[id].state == M.Dead && id !in HandledNodes(p.ring.nodes, Pending(p, id))
            && (id in p.ring.nodes ==> Pending(p, id) != [] && Pending(p, id)[0] == M.NodeDead(id))
  {
    var peer, pings := start.peers[id], PingsOf(actions, id);
    PingsInOrder(now, actions, id, peer.lastHeartbeat);
    RanPeer(hk, t, start, actions, id);
    assert peer == M.Registered(peer.addr, peer.lastHeartbeat);
    M.DetectorIsVerdict(t, peer.addr, peer.lastHeartbeat, pings);
    RingFollowsDetector(hk, t, start, now, actions, id);
    RanCoupled(hk, t, start, now, actions);
    var p := Ran(hk, t, start, actions);
    assert PeerCoupled(id, p.peers[id].state, id in p.ring.nodes, Pending(p, id));
  }

  /** No callback is wasted: each one handled really takes its peer off the ring or puts it back. */
  lemma DeliveryChangesRing(hk: KeyHash, t: M.Timeouts, start: Process, now: int, actions: seq<Action>, id: NodeId)
    requires Started(start) && InClockOrder(now, actions)
    requires Pending(Ran(hk, t, start, actions), id) != []
    ensures var p := Ran(hk, t, start, actions);
            var p' := Acted(hk, t, p, Deliver(id));
            id != p.self && (id in p'.ring.nodes <==> id !in p.ring.nodes)
  {
    RanCoupled(hk, t, start, now, actions);
    var p := Ran(hk, t, start, actions);
    assert PeerCoupled(id, p.peers[id].state, id in p.ring.nodes, Pending(p, id));
  }

  /**
   If the goroutines handle the fired callbacks in some other order, the peer ends up where the
   detector has it exactly when the callback handled last is of the kind fired last.
   */
  lemma DeliveryOrderIff(p: Process, id: NodeId, handled: seq<M.Callback>)
    requires Coupled(p) && id in p.peers && Pending(p, id) != []
    requires |handled| == |Pending(p, id)| && forall c | c in handled :: c in Pending(p, id)
    ensures (id in HandledNodes(p.ring.nodes, handled) <==> p.peers[id].state != M.Dead)
            <==> handled[|handled| - 1] == Pending(p, id)[|Pending(p, id)| - 1]
  {
    var q := Pending(p, id);
    assert PeerCoupled(id, p.peers[id].state, id in p.ring.nodes, q);
    CouplingLeads(id, p.peers[id].state, id in p.ring.nodes, q);
    assert handled[|handled| - 1] in handled;
    LastCallbackDecides(p.ring.nodes, id, handled);
  }

  /** An instance: a peer died and came back, and the second callback overtook the first. */
  lemma OvertakenCallbackLosesPeer(ring: RingState, peer: M.Peer)
    requires ring.nodes == {"a", "b"} && peer.state == M.Alive
    ensures var p := Process("a", map["b" := peer], ring, map["b" := [M.NodeDead("b"), M.NodeAlive("b")]]);
            Coupled(p) && "b" !in HandledNodes(ring.nodes, [M.NodeAlive("b"), M.NodeDead("b")])
  {
    var p := Process("a", map["b" := peer], ring, map["b" := [M.NodeDead("b"), M.NodeAlive("b")]]);
    var both := [M.NodeDead("b"), M.NodeAlive("b")];
    assert both[1..] == [M.NodeAlive("b")] && both[1..][1..] == [];
    assert PeerCoupled("b", M.Alive, true, both);
    DeliveryOrderIff(p, "b", [M.NodeAlive("b"), M.NodeDead("b")]);
  }

  /** Without collisions the ring stays well-formed, and there `HashRing.Ring.GetN` answers `Targets`. */
  ghost predicate TargetsAnswered(hk: KeyHash, t: M.Timeouts, start: Process, actions: seq<Action>) {
    WellFormed(hk, start.ring) && CollisionFree(hk, {start.self} + start.peers.Keys) ==>
      WellFormed(hk, Ran(hk, t, start, actions).ring)
  }

  lemma AnsweredInRun(hk: KeyHash, t: M.Timeouts, start: Process, now: int, actions: seq<Action>)
    requires Started(start) && InClockOrder(now, actions)
    ensures TargetsAnswered(hk, t, start, actions)
  {
    if WellFormed(hk, start.ring) && CollisionFree(hk, {start.self} + start.peers.Keys) {
      RanWellFormed(hk, t, start, now, actions);
    }
  }

  /** On a ring with at most FACTOR nodes, every chunk uploaded here belongs here too. */
  lemma SmallRingStoresLocally(hk: KeyHash, t: M.Timeouts, start: Process, now: int, actions: seq<Action>, chunkID: string)
    requires Started(start) && InClockOrder(now, actions)
    requires |Ran(hk, t, start, actions).ring.nodes| <= FACTOR
    ensures var p := Ran(hk, t, start, actions); p.self in Targets(hk, p.ring.nodes, chunkID, FACTOR)
    ensures TargetsAnswered(hk, t, start, actions)
  {
    AnsweredInRun(hk, t, start, now, actions);
    RanCoupled(hk, t, start, now, actions);
    SmallRingAllTargets(hk, Ran(hk, t, start, actions).ring.nodes, chunkID, FACTOR);
  }

  /** Every target other than the node itself has an address: `AddrFor` never misses. */
  lemma TargetsHaveAddresses(hk: KeyHash, t: M.Timeouts, start: Process, now: int, actions: seq<Action>, chunkID: string)
    requires Started(start) && InClockOrder(now, actions)
    ensures var p := Ran(hk, t, start, actions);
            forall x | x in Targets(hk, p.ring.nodes, chunkID, FACTOR) && x != p.self :: x in p.peers
    ensures TargetsAnswered(hk, t, start, actions)
  {
    AnsweredInRun(hk, t, start, now, actions);
    RanCoupled(hk, t, start, now, actions);
    TargetsOnRing(hk, Ran(hk, t, start, actions).ring.nodes, chunkID, FACTOR);
  }
}
