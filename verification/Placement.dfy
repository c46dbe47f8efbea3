/** What callers of the ring rely on: which nodes are responsible, and how little that changes under churn. */
module Placement {
  import opened Lists
  import opened Preference
  import opened RingStates
  import opened VirtualKeys

  /** Copies kept of each chunk. */
  const FACTOR: nat := 3

  function Min(a: int, b: int): int {
    if a < b then a else b
  }

  /** Exactly min(n, number of nodes) distinct nodes of the ring; with enough room, all of them. */
  lemma TargetsExact(hk: KeyHash, nodes: set<NodeId>, key: string, n: nat)
    requires CollisionFree(hk, nodes)
    ensures var t := Targets(hk, nodes, key, n);
            && |t| == Min(n, |nodes|) && NoDuplicates(t)
            && (forall x | x in t :: x in nodes)
            && (|nodes| <= n ==> forall x | x in nodes :: x in t)
  {
    hide CollisionFree, Injective, Order, NoDuplicates;
    CollisionFreeDistances(hk, nodes, key);
    OrderNoDuplicates(ByDistance(hk, key), nodes);
    OrderMembers(ByDistance(hk, key), nodes);
    PrefixOfListing(Order(ByDistance(hk, key), nodes), nodes, n);
  }

  lemma PrefixOfListing(o: seq<NodeId>, nodes: set<NodeId>, n: nat)
    requires NoDuplicates(o) && |o| == |nodes| && forall x :: x in o <==> x in nodes
    ensures var t := Prefix(o, n);
            && |t| == Min(n, |nodes|) && NoDuplicates(t)
            && (forall x | x in t :: x in nodes)
            && (|nodes| <= n ==> forall x | x in nodes :: x in t)
  {}

  /** Asking for fewer nodes gives the beginning of the same list. */
  lemma TargetsNested(hk: KeyHash, nodes: set<NodeId>, key: string, m: nat, n: nat)
    requires m <= n
    ensures Targets(hk, nodes, key, m) == Prefix(Targets(hk, nodes, key, n), m)
  {
    PrefixOfPrefix(Order(ByDistance(hk, key), nodes), m, n);
  }

  /** A node is a target exactly when it is on the ring and fewer than n nodes are closer to the key. */
  lemma TargetIff(hk: KeyHash, nodes: set<NodeId>, key: string, n: nat, x: NodeId)
    requires CollisionFree(hk, nodes)
    ensures x in Targets(hk, nodes, key, n)
            <==> x in nodes && |set y | y in nodes && Distance(hk, key, y) < Distance(hk, key, x)| < n
  {
    hide CollisionFree, Injective, Order, Distance;
    CollisionFreeDistances(hk, nodes, key);
    AmongFirst(ByDistance(hk, key), nodes, n, x);
    assert Closer(ByDistance(hk, key), nodes, x)
        == set y | y in nodes && Distance(hk, key, y) < Distance(hk, key, x);
  }

  /** The targets stand in the order of their distances, none of which is met twice. */
  lemma TargetsInOrder(hk: KeyHash, nodes: set<NodeId>, key: string, n: nat, i: nat, j: nat)
    requires CollisionFree(hk, nodes) && i < j < |Targets(hk, nodes, key, n)|
    ensures Distance(hk, key, Targets(hk, nodes, key, n)[i]) < Distance(hk, key, Targets(hk, nodes, key, n)[j])
  {
    hide CollisionFree, Injective, Order, Distance;
    CollisionFreeDistances(hk, nodes, key);
    OrderIncreases(ByDistance(hk, key), nodes);
  }

  lemma CollisionFreeSubset(hk: KeyHash, nodes: set<NodeId>, fewer: set<NodeId>)
    requires CollisionFree(hk, nodes) && fewer <= nodes
    ensures CollisionFree(hk, fewer)
  {
    forall a, b, i, j | a in fewer && b in fewer && 0 <= i < VIRTUAL_NODES_PER_NODE && 0 <= j < VIRTUAL_NODES_PER_NODE
      ensures hk(VirtualKey(a, i)) == hk(VirtualKey(b, j)) ==> VirtualKey(a, i) == VirtualKey(b, j)
    {
      assert a in nodes && b in nodes;
    }
  }

  /** The ring is an exact image of its nodes, unless their virtual keys collide. */
  ghost predicate Faithful(hk: KeyHash, st: RingState) {
    CollisionFree(hk, st.nodes) ==> WellFormed(hk, st)
  }

  lemma AddedFaithful(hk: KeyHash, st: RingState, id: NodeId)
    requires Faithful(hk, st)
    ensures Faithful(hk, Added(hk, st, id))
  {
    if CollisionFree(hk, st.nodes + {id}) {
      CollisionFreeSubset(hk, st.nodes + {id}, st.nodes);
      AddedWellFormed(hk, st, id);
    }
  }

  lemma TargetsOnRing(hk: KeyHash, nodes: set<NodeId>, key: string, n: int)
    ensures forall x | x in Targets(hk, nodes, key, n) :: x in nodes
  {
    OrderMembers(ByDistance(hk, key), nodes);
    PrefixSubset(Order(ByDistance(hk, key), nodes), n);
  }

  /** With no more nodes than copies, every node is responsible for everything. */
  lemma SmallRingAllTargets(hk: KeyHash, nodes: set<NodeId>, key: string, n: nat)
    requires |nodes| <= n
    ensures forall x :: x in Targets(hk, nodes, key, n) <==> x in nodes
  {
    OrderMembers(ByDistance(hk, key), nodes);
  }

  /**
   Leave, exactly: the targets afterwards are the first n of the old n + 1 with the leaver deleted.
   The old targets that survive keep their relative order, and at most one new target follows them.
   */
  lemma LeaveExact(hk: KeyHash, nodes: set<NodeId>, d: NodeId, key: string, n: nat)
    requires CollisionFree(hk, nodes)
    ensures Targets(hk, nodes - {d}, key, n) == Prefix(Delete(Targets(hk, nodes, key, n + 1), d), n)
    ensures Delete(Targets(hk, nodes, key, n), d) <= Targets(hk, nodes - {d}, key, n)
    ensures |Targets(hk, nodes - {d}, key, n)| <= |Delete(Targets(hk, nodes, key, n), d)| + 1
  {
    var rank := ByDistance(hk, key);
    CollisionFreeDistances(hk, nodes, key);
    Leave(rank, nodes, d, n);
    OrderNoDuplicates(rank, nodes);
    OrderWithout(rank, nodes, d);
    DeleteKeepsFront(Order(rank, nodes), d, n);
  }

  /**
   Join, exactly: with p nodes closer to the key than the newcomer, the newcomer is put in at position
   p and the list cut back to n; the targets do not change when p is n or more.
   */
  lemma JoinExact(hk: KeyHash, nodes: set<NodeId>, x: NodeId, key: string, n: nat)
    requires CollisionFree(hk, nodes + {x}) && x !in nodes
    ensures var p, before := Place(ByDistance(hk, key), nodes, x), Targets(hk, nodes, key, n);
            && p == |set y | y in nodes && Distance(hk, key, y) < Distance(hk, key, x)|
            && (p < n ==> p <= |before|)
            && Targets(hk, nodes + {x}, key, n) == if p < n then Prefix(InsertAt(before, p, x), n) else before
  {
    assert Closer(ByDistance(hk, key), nodes, x) == set y | y in nodes && Distance(hk, key, y) < Distance(hk, key, x);
    CollisionFreeDistances(hk, nodes + {x}, key);
    JoinPrefix(ByDistance(hk, key), nodes, x, n);
    InsertInPrefix(Order(ByDistance(hk, key), nodes), Place(ByDistance(hk, key), nodes, x), x, n);
  }

  lemma JoinAddsOnly(hk: KeyHash, nodes: set<NodeId>, x: NodeId, key: string, n: nat)
    requires CollisionFree(hk, nodes + {x})
    ensures forall t | t in Targets(hk, nodes + {x}, key, n) && t != x :: t in Targets(hk, nodes, key, n)
  {
    TargetsOnRing(hk, nodes + {x}, key, n);
    forall t | t in Targets(hk, nodes + {x}, key, n) && t != x ensures t in Targets(hk, nodes, key, n) {
      TargetStays(hk, nodes + {x}, nodes, key, n, t);
    }
  }

  /** The primary owner changes on a join only to become the newcomer. */
  lemma JoinPrimary(hk: KeyHash, nodes: set<NodeId>, x: NodeId, key: string)
    requires CollisionFree(hk, nodes + {x}) && x !in nodes
    ensures Targets(hk, nodes + {x}, key, 1) == Targets(hk, nodes, key, 1) || Targets(hk, nodes + {x}, key, 1) == [x]
  {
    JoinExact(hk, nodes, x, key, 1);
  }

  /** A target that stays on the ring stays a target whatever other nodes are removed. */
  lemma TargetStays(hk: KeyHash, nodes: set<NodeId>, fewer: set<NodeId>, key: string, n: nat, s: NodeId)
    requires CollisionFree(hk, nodes) && fewer <= nodes
    requires s in Targets(hk, nodes, key, n) && s in fewer
    ensures s in Targets(hk, fewer, key, n)
  {
    CollisionFreeDistances(hk, nodes, key);
    SurvivorStays(ByDistance(hk, key), nodes, fewer, n, s);
  }

  // ---------------------------------------------------------------------------------------------
  // Churn
  // ---------------------------------------------------------------------------------------------

  ghost function Lost(hk: KeyHash, before: set<NodeId>, after: set<NodeId>, key: string, n: nat): set<NodeId> {
    Elements(Targets(hk, before, key, n)) - Elements(Targets(hk, after, key, n))
  }

  /** Targets lost by one change of the ring: none or one. */
  lemma OneChangeLosesOne(hk: KeyHash, st: RingState, event: Event, key: string, n: nat)
    requires CollisionFree(hk, st.nodes + {event.node})
    ensures var after := Replayed(hk, st, [event]).nodes;
            |Lost(hk, st.nodes, after, key, n)| <= if after == st.nodes then 0 else 1
  {
    assert [event][..0] == [];
    match event
    case Add(x) =>
      if x !in st.nodes {
        JoinLosesLast(hk, st.nodes, x, key, n);
      }
    case Remove(d) =>
      if d in st.nodes {
        assert st.nodes + {d} == st.nodes;
        LeaveLosesLeaver(hk, st.nodes, d, key, n);
      }
  }

  lemma LeaveLosesLeaver(hk: KeyHash, nodes: set<NodeId>, d: NodeId, key: string, n: nat)
    requires CollisionFree(hk, nodes)
    ensures |Lost(hk, nodes, nodes - {d}, key, n)| <= 1
  {
    TargetsExact(hk, nodes, key, n);
    forall y | y in Targets(hk, nodes, key, n) && y != d ensures y in Targets(hk, nodes - {d}, key, n) {
      TargetStays(hk, nodes, nodes - {d}, key, n, y);
    }
    SubsetSize(Lost(hk, nodes, nodes - {d}, key, n), {d});
  }

  lemma JoinLosesLast(hk: KeyHash, nodes: set<NodeId>, x: NodeId, key: string, n: nat)
    requires CollisionFree(hk, nodes + {x}) && x !in nodes
    ensures |Lost(hk, nodes, nodes + {x}, key, n)| <= 1
  {
    hide Targets, CollisionFree, Place;
    var p := Place(ByDistance(hk, key), nodes, x);
    JoinExact(hk, nodes, x, key, n);
    CollisionFreeSubset(hk, nodes + {x}, nodes);
    TargetsExact(hk, nodes, key, n);
    if p < n {
      InsertLosesLast(Targets(hk, nodes, key, n), p, x, n);
    }
  }

  /** How many of the events really changed the set of nodes. */
  function Changes(hk: KeyHash, st: RingState, events: seq<Event>): (k: nat)
    ensures k <= |events|
  {
    if events == [] then 0 else
      var init := events[..|events| - 1];
      Changes(hk, st, init) + if Replayed(hk, st, events).nodes == Replayed(hk, st, init).nodes then 0 else 1
  }

  /** They are the additions of a node that is absent and the removals of one that is present. */
  lemma {:induction false} ChangesAre(hk: KeyHash, st: RingState, events: seq<Event>)
    ensures Changes(hk, st, events)
         == |set i | 0 <= i < |events| && (events[i].Add? <==> events[i].node !in Present(hk, st, events[..i]))|
    decreases |events|
  {
    if events != [] {
      ChangesAre(hk, st, events[..|events| - 1]);
      LastChange(hk, st, events);
      OneMoreChange(hk, st, events);
    }
  }

  lemma LastChange(hk: KeyHash, st: RingState, events: seq<Event>)
    requires events != []
    ensures var init, last := events[..|events| - 1], events[|events| - 1];
            Replayed(hk, st, events).nodes == Replayed(hk, st, init).nodes
            <==> !(last.Add? <==> last.node !in Replayed(hk, st, init).nodes)
  {}

  lemma OneMoreChange(hk: KeyHash, st: RingState, events: seq<Event>)
    requires events != []
    ensures var init, last := events[..|events| - 1], events[|events| - 1];
            |(set i | 0 <= i < |events| && (events[i].Add? <==> events[i].node !in Present(hk, st, events[..i])))|
            == |(set i | 0 <= i < |init| && (init[i].Add? <==> init[i].node !in Present(hk, st, init[..i])))|
               + if last.Add? <==> last.node !in Present(hk, st, init) then 1 else 0
  {
    hide Present;
    var init, last := events[..|events| - 1], events[|events| - 1];
    var before := set i | 0 <= i < |init| && (init[i].Add? <==> init[i].node !in Present(hk, st, init[..i]));
    var now := set i | 0 <= i < |events| && (events[i].Add? <==> events[i].node !in Present(hk, st, events[..i]));
    forall i | 0 <= i < |init| ensures i in now <==> i in before {
      assert init[..i] == events[..i] && init[i] == events[i];
    }
    var more := if last.Add? <==> last.node !in Present(hk, st, init) then {|init|} else {};
    assert now == before + more;
    assert |before + more| == |before| + |more|;
    assert |now| == |before| + if last.Add? <==> last.node !in Present(hk, st, init) then 1 else 0;
  }

  /** Over any history of the ring a key loses at most as many of its targets as there were real changes. */
  lemma ChurnBound(hk: KeyHash, st: RingState, events: seq<Event>, key: string, n: nat)
    requires WellFormed(hk, st) && CollisionFree(hk, st.nodes + Named(events))
    ensures var before, after := Targets(hk, st.nodes, key, n), Targets(hk, Replayed(hk, st, events).nodes, key, n);
            |set t | t in before && t !in after|
            <= |set i | 0 <= i < |events| && (events[i].Add? <==> events[i].node !in Present(hk, st, events[..i]))|
  {
    hide Targets, Replayed, WellFormed, CollisionFree;
    var before, after := Targets(hk, st.nodes, key, n), Targets(hk, Replayed(hk, st, events).nodes, key, n);
    ChurnLoss(hk, st, events, key, n);
    ChangesAre(hk, st, events);
    assert Lost(hk, st.nodes, Replayed(hk, st, events).nodes, key, n) == set t | t in before && t !in after;
  }

  /** Each change of the ring costs a key at most one of its targets. */
  lemma {:induction false} ChurnLoss(hk: KeyHash, st: RingState, events: seq<Event>, key: string, n: nat)
    requires WellFormed(hk, st) && CollisionFree(hk, st.nodes + Named(events))
    ensures |Lost(hk, st.nodes, Replayed(hk, st, events).nodes, key, n)| <= Changes(hk, st, events)
    decreases |events|
  {
    if events != [] {
      var init, last := events[..|events| - 1], events[|events| - 1];
      NamedLast(events);
      CollisionFreeSubset(hk, st.nodes + Named(events), st.nodes + Named(init));
      ReplayedWellFormed(hk, st, init);
      ChurnLoss(hk, st, init, key, n);
      var mid := Replayed(hk, st, init);
      CollisionFreeSubset(hk, st.nodes + Named(events), mid.nodes + {last.node});
      OneChangeLosesOne(hk, mid, last, key, n);
      assert Replayed(hk, mid, [last]) == Replayed(hk, st, events) by {
        assert [last][..0] == [];
      }
      LostInTwoSteps(Elements(Targets(hk, st.nodes, key, n)), Elements(Targets(hk, mid.nodes, key, n)),
                     Elements(Targets(hk, Replayed(hk, st, events).nodes, key, n)));
    }
  }

  lemma NamedLast(events: seq<Event>)
    requires events != []
    ensures Named(events) == Named(events[..|events| - 1]) + {events[|events| - 1].node}
  {
    var init, last := events[..|events| - 1], events[|events| - 1];
    assert events == init + [last];
    assert forall e :: e in events <==> e in init || e == last;
  }

  lemma LostInTwoSteps(a: set<NodeId>, b: set<NodeId>, c: set<NodeId>)
    ensures |a - c| <= |a - b| + |b - c|
  {
    SubsetSize(a - c, (a - b) + (b - c));
  }

  /**
   Fewer than FACTOR changes cannot cost a chunk all its copies: starting from FACTOR or more nodes,
   some node is a target before and after.
   */
  lemma FewChangesKeepACopy(hk: KeyHash, st: RingState, events: seq<Event>, key: string) returns (holder: NodeId)
    requires WellFormed(hk, st) && CollisionFree(hk, st.nodes + Named(events))
    requires |st.nodes| >= 3 && Changes(hk, st, events) < 3
    ensures holder in Targets(hk, st.nodes, key, 3)
    ensures holder in Targets(hk, Replayed(hk, st, events).nodes, key, 3)
  {
    var before := Targets(hk, st.nodes, key, FACTOR);
    var after := Targets(hk, Replayed(hk, st, events).nodes, key, FACTOR);
    ChurnLoss(hk, st, events, key, FACTOR);
    CollisionFreeSubset(hk, st.nodes + Named(events), st.nodes);
    TargetsExact(hk, st.nodes, key, FACTOR);
    ElementsSize(before);
    assert Elements(before) - (Elements(before) - Elements(after)) != {};
    holder :| holder in Elements(before) - (Elements(before) - Elements(after));
  }
}
