/**
 The failure detector. A clock reading is an integer number of nanoseconds; the clock of the program
 is monotone, and each property that needs this says so.
 */
module Membership {
  import opened Lists
  import opened Preference

  datatype State = Alive | Suspect | Dead

  datatype Peer = Peer(addr: string, state: State, lastHeartbeat: int)

  /** A callback that has been launched. */
  datatype Callback = NodeDead(node: NodeId) | NodeAlive(node: NodeId)

  datatype Timeouts = Timeouts(suspectAfter: int, deadAfter: int)

  const SECOND: int := 1_000_000_000
  const DEFAULT_TIMEOUTS := Timeouts(3 * SECOND, 9 * SECOND)

  datatype Ping = Ping(healthy: bool, at: int)

  /** What one ping does to the record of the peer. */
  function Pinged(t: Timeouts, p: Peer, ping: Ping): Peer {
    if ping.healthy then p.(lastHeartbeat := ping.at, state := Alive)
    else if ping.at - p.lastHeartbeat >= t.deadAfter then p.(state := Dead)
    else if ping.at - p.lastHeartbeat >= t.suspectAfter then p.(state := Suspect)
    else p
  }

  /** The callback fired by a change of state, if any. */
  function Fired(node: NodeId, before: State, after: State): seq<Callback> {
    if before != Dead && after == Dead then [NodeDead(node)]
    else if before == Dead && after == Alive then [NodeAlive(node)]
    else []
  }

  /** The callbacks about one peer. */
  function CallbacksAbout(cs: seq<Callback>, id: NodeId): seq<Callback> {
    if cs == [] then [] else
      CallbacksAbout(cs[..|cs| - 1], id) + if cs[|cs| - 1].node == id then [cs[|cs| - 1]] else []
  }

  lemma AboutNext(cs: seq<Callback>, c: Callback, id: NodeId)
    ensures CallbacksAbout(cs + [c], id) == CallbacksAbout(cs, id) + if c.node == id then [c] else []
  {
    assert (cs + [c])[..|cs|] == cs;
  }

  lemma AboutEach(cs: seq<Callback>, node: NodeId, more: seq<Callback>)
    requires |more| <= 1 && forall c | c in more :: c.node == node
    ensures forall id :: CallbacksAbout(cs + more, id) == CallbacksAbout(cs, id) + if id == node then more else []
  {
    forall id ensures CallbacksAbout(cs + more, id) == CallbacksAbout(cs, id) + if id == node then more else [] {
      if more == [] {
        assert cs + more == cs;
      } else {
        assert more == [more[0]] && more[0] in more;
        AboutNext(cs, more[0], id);
      }
    }
  }

  /** A round of pings in which the peers in `left` are still to be heard of. */
  ghost predicate RoundSoFar(t: Timeouts, outcome: NodeId -> Ping, before: map<NodeId, Peer>, now: map<NodeId, Peer>,
                             left: set<NodeId>, launched: seq<Callback>)
  {
    && now.Keys == before.Keys
    && (forall id | id in before :: now[id] == if id in left then before[id] else Pinged(t, before[id], outcome(id)))
    && (forall id :: CallbacksAbout(launched, id)
                  == if id in before && id !in left then Fired(id, before[id].state, now[id].state) else [])
  }

  lemma RoundNext(t: Timeouts, outcome: NodeId -> Ping, before: map<NodeId, Peer>, now: map<NodeId, Peer>,
                  left: set<NodeId>, launched: seq<Callback>, id: NodeId)
    requires RoundSoFar(t, outcome, before, now, left, launched) && id in left && id in now
    ensures var after := Pinged(t, now[id], outcome(id));
            RoundSoFar(t, outcome, before, now[id := after], left - {id}, launched + Fired(id, now[id].state, after.state))
  {
    hide Pinged, CallbacksAbout;
    AboutEach(launched, id, Fired(id, now[id].state, Pinged(t, now[id], outcome(id)).state));
  }

  class Membership {
    const selfID: NodeId
    const timeouts: Timeouts
    var peers: map<NodeId, Peer>
    // The callbacks launched so far. Each runs in a goroutine of its own.
    var fired: seq<Callback>

    ghost predicate Valid()
      reads this
    {
      selfID !in peers
    }

    constructor (selfID: NodeId, timeouts: Timeouts)
      ensures Valid() && this.selfID == selfID && this.timeouts == timeouts
      ensures peers == map[] && fired == []
    {
      this.selfID, this.timeouts := selfID, timeouts;
      peers, fired := map[], [];
    }

    method AddPeer(id: NodeId, addr: string, now: int)
      requires Valid()
      modifies this
      ensures Valid() && fired == old(fired)
      ensures peers == if id == selfID || id in old(peers) then old(peers)
                       else old(peers)[id := Peer(addr, Alive, now)]
    {
      if id == selfID {
        return;
      }
      if id in peers {
        return;
      }
      peers := peers[id := Peer(addr, Alive, now)];
    }

    /** The network answers `healthy` at time `now`; a peer removed meanwhile is not updated. */
    method PingPeer(id: NodeId, healthy: bool, now: int)
      requires Valid()
      modifies this
      ensures Valid()
      ensures id !in old(peers) ==> peers == old(peers) && fired == old(fired)
      ensures id in old(peers) ==>
                && peers.Keys == old(peers.Keys) && (forall other | other in peers && other != id :: peers[other] == old(peers)[other])
                && peers[id].addr == old(peers)[id].addr
                && peers[id].lastHeartbeat == (if healthy then now else old(peers)[id].lastHeartbeat)
                && peers[id].state == (if healthy then Alive
                                       else if now - old(peers)[id].lastHeartbeat >= timeouts.deadAfter then Dead
                                       else if now - old(peers)[id].lastHeartbeat >= timeouts.suspectAfter then Suspect
                                       else old(peers)[id].state)
      ensures id in old(peers) ==>
                fired == old(fired) + (if old(peers)[id].state != Dead && peers[id].state == Dead then [NodeDead(id)]
                                       else if old(peers)[id].state == Dead && peers[id].state == Alive then [NodeAlive(id)]
                                       else [])
      ensures id in old(peers) ==>
                var before := old(peers)[id];
                var after := Pinged(timeouts, before, Ping(healthy, now));
                peers == old(peers)[id := after] && fired == old(fired) + Fired(id, before.state, after.state)
    {
      if id !in peers {
        return;
      }
      var p := peers[id];
      var prevState := p.state;
      if healthy {
        p := p.(lastHeartbeat := now);
        p := p.(state := Alive);
      } else {
        var since := now - p.lastHeartbeat;
        if since >= timeouts.deadAfter {
          p := p.(state := Dead);
        } else if since >= timeouts.suspectAfter {
          p := p.(state := Suspect);
        }
      }
      peers := peers[id := p];
      if prevState != Dead && p.state == Dead {
        fired := fired + [NodeDead(id)];
      }
      if prevState == Dead && p.state == Alive {
        fired := fired + [NodeAlive(id)];
      }
    }

    /**
     One round: every peer known at its start is pinged once, in whatever order the goroutines finish.
     The outcome for a peer and the callbacks about it depend on its own ping alone.
     */
    method HeartbeatRound(outcome: NodeId -> Ping) returns (ghost launched: seq<Callback>)
      requires Valid()
      modifies this
      ensures Valid() && peers.Keys == old(peers.Keys) && fired == old(fired) + launched
      ensures forall id | id in old(peers) :: peers[id] == Pinged(timeouts, old(peers)[id], outcome(id))
      ensures forall id | id in old(peers) :: peers[id].addr == old(peers)[id].addr
      ensures forall id :: CallbacksAbout(launched, id)
                        == if id in old(peers) then Fired(id, old(peers)[id].state, peers[id].state) else []
    {
      var ids := peers.Keys;
      launched := [];
      while ids != {}
        invariant Valid() && ids <= peers.Keys && fired == old(fired) + launched
        invariant RoundSoFar(timeouts, outcome, old(peers), peers, ids, launched)
        decreases ids
      {
        var id :| id in ids;
        var o := outcome(id);
        ghost var more := Fired(id, peers[id].state, Pinged(timeouts, peers[id], o).state);
        RoundNext(timeouts, outcome, old(peers), peers, ids, launched, id);
        AppendAssoc(old(fired), launched, more);
        PingPeer(id, o.healthy, o.at);
        launched := launched + more;
        ids := ids - {id};
      }
    }

    /** The address of a peer, as the replication engine asks for it. */
    method AddrFor(nodeID: NodeId) returns (addr: string, ok: bool)
      ensures ok == (nodeID in peers)
      ensures ok ==> addr == peers[nodeID].addr
      ensures !ok ==> addr == ""
    {
      var rest := peers.Keys;
      while rest != {}
        invariant rest <= peers.Keys && (nodeID in peers ==> nodeID in rest)
        decreases rest
      {
        var id :| id in rest;
        if id == nodeID {
          return peers[id].addr, true;
        }
        rest := rest - {id};
      }
      return "", false;
    }
  }

  // ---------------------------------------------------------------------------------------------
  // The detector as a function of the history of pings
  // ---------------------------------------------------------------------------------------------

  /** A newly registered peer. */
  function Registered(addr: string, at: int): Peer {
    Peer(addr, Alive, at)
  }

  function After(t: Timeouts, p: Peer, pings: seq<Ping>): Peer {
    if pings == [] then p else Pinged(t, After(t, p, pings[..|pings| - 1]), pings[|pings| - 1])
  }

  /** The callbacks fired on the way, in order. */
  function Log(t: Timeouts, node: NodeId, p: Peer, pings: seq<Ping>): seq<Callback> {
    if pings == [] then [] else
      var init := pings[..|pings| - 1];
      Log(t, node, p, init) + Fired(node, After(t, p, init).state, After(t, p, pings).state)
  }

  /** Pings happen in the order of the clock, none before the registration. */
  ghost predicate Monotone(registered: int, pings: seq<Ping>) {
    && (forall i | 0 <= i < |pings| :: registered <= pings[i].at)
    && (forall i, j | 0 <= i < j < |pings| :: pings[i].at <= pings[j].at)
  }

  /** The time of the last ping that succeeded, or of the registration when none has. */
  function LastContact(registered: int, pings: seq<Ping>): int {
    if pings == [] then registered
    else if pings[|pings| - 1].healthy then pings[|pings| - 1].at
    else LastContact(registered, pings[..|pings| - 1])
  }

  function Classify(t: Timeouts, silence: int): State {
    if silence >= t.deadAfter then Dead else if silence >= t.suspectAfter then Suspect else Alive
  }

  /** The state a peer should be in, read off the whole history at once. */
  function Verdict(t: Timeouts, registered: int, pings: seq<Ping>): State {
    if pings == [] || pings[|pings| - 1].healthy then Alive
    else Classify(t, pings[|pings| - 1].at - LastContact(registered, pings))
  }

  /** No history of pings touches the address. */
  lemma {:induction false} AddressKept(t: Timeouts, p: Peer, pings: seq<Ping>)
    ensures After(t, p, pings).addr == p.addr
  {
    if pings != [] {
      AddressKept(t, p, pings[..|pings| - 1]);
    }
  }

  lemma {:induction false} HeartbeatIsLastContact(t: Timeouts, addr: string, registered: int, pings: seq<Ping>)
    ensures After(t, Registered(addr, registered), pings).lastHeartbeat == LastContact(registered, pings)
  {
    if pings != [] {
      HeartbeatIsLastContact(t, addr, registered, pings[..|pings| - 1]);
    }
  }

  /**
   The incremental detector computes the verdict on the history, as long as the clock is monotone: alive
   after a success or without any ping, otherwise dead, suspect or alive by the silence at the last ping.
   */
  lemma {:induction false} DetectorIsVerdict(t: Timeouts, addr: string, registered: int, pings: seq<Ping>)
    requires Monotone(registered, pings)
    ensures After(t, Registered(addr, registered), pings).state == Verdict(t, registered, pings)
    ensures var last := |pings| - 1;
            After(t, Registered(addr, registered), pings).state
            == if last < 0 || pings[last].healthy then Alive
               else if pings[last].at - LastContact(registered, pings) >= t.deadAfter then Dead
               else if pings[last].at - LastContact(registered, pings) >= t.suspectAfter then Suspect
               else Alive
  {
    if pings != [] {
      var init, last := pings[..|pings| - 1], pings[|pings| - 1];
      DetectorIsVerdict(t, addr, registered, init);
      HeartbeatIsLastContact(t, addr, registered, init);
      if !last.healthy && init != [] {
        assert init[|init| - 1].at <= last.at;
      }
    }
  }

  function Severity(s: State): nat {
    match s case Alive => 0 case Suspect => 1 case Dead => 2
  }

  /** Between successes a peer only gets worse: alive, then suspect, then dead. */
  lemma OnlyWorse(t: Timeouts, addr: string, registered: int, pings: seq<Ping>, next: Ping)
    requires Monotone(registered, pings + [next]) && !next.healthy
    ensures Severity(After(t, Registered(addr, registered), pings).state)
         <= Severity(After(t, Registered(addr, registered), pings + [next]).state)
  {
    var all := pings + [next];
    assert all[..|all| - 1] == pings;
    assert forall i | 0 <= i < |pings| :: pings[i] == all[i];
    DetectorIsVerdict(t, addr, registered, pings);
    DetectorIsVerdict(t, addr, registered, all);
    if pings != [] {
      assert pings[|pings| - 1].at <= next.at;
    }
  }

  /** Callbacks alternate, "dead" first: entry number i is "dead" exactly when i is even. */
  lemma {:induction false} CallbacksAlternate(t: Timeouts, node: NodeId, addr: string, registered: int, pings: seq<Ping>)
    requires Monotone(registered, pings)
    ensures var log := Log(t, node, Registered(addr, registered), pings);
            && (forall i | 0 <= i < |log| :: log[i] == if i % 2 == 0 then NodeDead(node) else NodeAlive(node))
            && (After(t, Registered(addr, registered), pings).state == Dead <==> |log| % 2 == 1)
  {
    if pings != [] {
      var init := pings[..|pings| - 1];
      CallbacksAlternate(t, node, addr, registered, init);
      DetectorIsVerdict(t, addr, registered, init);
      DetectorIsVerdict(t, addr, registered, pings);
      if init != [] && !pings[|pings| - 1].healthy {
        assert init[|init| - 1].at <= pings[|pings| - 1].at;
      }
    }
  }

  /** After a success a callback is fired exactly when the peer was held dead, and then it is "alive". */
  lemma AliveFiredIff(t: Timeouts, node: NodeId, addr: string, registered: int, pings: seq<Ping>, at: int)
    requires Monotone(registered, pings)
    ensures Log(t, node, Registered(addr, registered), pings + [Ping(true, at)])
         == Log(t, node, Registered(addr, registered), pings)
            + if Verdict(t, registered, pings) == Dead then [NodeAlive(node)] else []
  {
    var all := pings + [Ping(true, at)];
    assert all[..|all| - 1] == pings;
    DetectorIsVerdict(t, addr, registered, pings);
  }

  /** A peer that was only suspect comes back without any callback. */
  lemma SuspectReturnsSilently(t: Timeouts, node: NodeId, addr: string, registered: int)
    requires 0 <= t.suspectAfter < t.deadAfter
    ensures var at := registered + t.suspectAfter;
            && After(t, Registered(addr, registered), [Ping(false, at)]).state == Suspect
            && After(t, Registered(addr, registered), [Ping(false, at), Ping(true, at)]).state == Alive
            && Log(t, node, Registered(addr, registered), [Ping(false, at), Ping(true, at)]) == []
  {
    var at := registered + t.suspectAfter;
    assert [Ping(false, at)][..0] == [];
    assert [Ping(false, at), Ping(true, at)] == [Ping(false, at)] + [Ping(true, at)];
    assert After(t, Registered(addr, registered), [Ping(false, at)]).state == Suspect;
    AliveFiredIff(t, node, addr, registered, [Ping(false, at)], at);
    DetectorIsVerdict(t, addr, registered, [Ping(false, at)]);
  }

  /** No false alarm: a peer that is dead has been silent for at least the dead timeout. */
  lemma DeadOnlyAfterTimeout(t: Timeouts, addr: string, registered: int, pings: seq<Ping>)
    requires Monotone(registered, pings)
    requires After(t, Registered(addr, registered), pings).state == Dead
    ensures pings != [] && pings[|pings| - 1].at - LastContact(registered, pings) >= t.deadAfter
  {
    DetectorIsVerdict(t, addr, registered, pings);
  }

  /** From `contact` on, consecutive events are at most `gap` apart. */
  ghost predicate GapsAtMost(contact: int, pings: seq<Ping>, gap: int) {
    && (pings != [] ==> pings[0].at - contact <= gap)
    && (forall i | 0 < i < |pings| :: pings[i].at - pings[i - 1].at <= gap)
  }

  /**
   Detection in bounded time: when every ping since the last contact fails and the pings go on past
   the dead timeout at most `gap` apart, the first ping past the timeout finds the peer dead, and it
   comes before timeout + gap (or at it, when it is the very first ping).
   */
  lemma {:induction false} DeadWithinBound(t: Timeouts, addr: string, contact: int, pings: seq<Ping>, gap: int)
    returns (k: nat)
    requires Monotone(contact, pings) && GapsAtMost(contact, pings, gap) && t.deadAfter >= 0
    requires forall i | 0 <= i < |pings| :: !pings[i].healthy
    requires pings != [] && pings[|pings| - 1].at - contact >= t.deadAfter
    ensures k < |pings|
    ensures After(t, Registered(addr, contact), pings[..k + 1]).state == Dead
    ensures forall i | 0 <= i <= k :: After(t, Registered(addr, contact), pings[..i]).state != Dead
    ensures if k == 0 then pings[k].at - contact <= t.deadAfter + gap
            else pings[k].at - contact < t.deadAfter + gap
  {
    k := FirstPast(contact, pings, t.deadAfter);
    AllFailed(contact, pings, k + 1);
    DetectorIsVerdict(t, addr, contact, pings[..k + 1]);
    forall i | 0 <= i <= k ensures After(t, Registered(addr, contact), pings[..i]).state != Dead {
      AllFailed(contact, pings, i);
      DetectorIsVerdict(t, addr, contact, pings[..i]);
    }
  }

  lemma FirstPast(contact: int, pings: seq<Ping>, timeout: int) returns (k: nat)
    requires pings != [] && pings[|pings| - 1].at - contact >= timeout
    ensures k < |pings| && pings[k].at - contact >= timeout
    ensures forall i | 0 <= i < k :: pings[i].at - contact < timeout
  {
    k := 0;
    while pings[k].at - contact < timeout
      invariant k < |pings| && forall i | 0 <= i < k :: pings[i].at - contact < timeout
      decreases |pings| - k
    {
      k := k + 1;
    }
  }

  lemma {:induction false} AllFailed(contact: int, pings: seq<Ping>, i: nat)
    requires i <= |pings| && Monotone(contact, pings) && forall j | 0 <= j < |pings| :: !pings[j].healthy
    ensures Monotone(contact, pings[..i]) && LastContact(contact, pings[..i]) == contact
  {
    if i > 0 {
      AllFailed(contact, pings, i - 1);
      assert pings[..i][..i - 1] == pings[..i - 1];
    }
  }
}
