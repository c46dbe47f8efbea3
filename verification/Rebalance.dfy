/** How many keys change hands when a node joins or leaves: hash modulo N against the ring. */
module Rebalance {
  import opened HashRing
  import opened Lists
  import opened Placement
  import opened Preference
  import opened RingStates
  import opened VirtualKeys

  /** The owner under naive placement. The code panics when there are no nodes. */
  function NaiveOwner(hk: KeyHash, key: string, n: nat): nat
    requires n > 0
  {
    hk(key) % n
  }

  function KeyName(total: nat, i: nat): string {
    "chunk-" + Decimal(total) + "-" + Decimal(i)
  }

  function KeyNames(total: nat, count: nat): (keys: seq<string>)
    ensures |keys| == count
  {
    if count == 0 then [] else KeyNames(total, count - 1) + [KeyName(total, count - 1)]
  }

  function NodeName(i: nat): NodeId {
    "node-" + Decimal(i)
  }

  function NodesUpTo(n: nat): set<NodeId> {
    if n == 0 then {} else NodesUpTo(n - 1) + {NodeName(n - 1)}
  }

  /** The nodes of the benchmark are named "node-" and a number below n. */
  lemma {:induction false} NodesUpToAre(n: nat, node: NodeId)
    ensures node in NodesUpTo(n) <==> exists i: nat :: i < n && node == "node-" + Decimal(i)
  {
    if n > 0 {
      NodesUpToAre(n - 1, node);
      assert NodeName(n - 1) == "node-" + Decimal(n - 1);
    }
  }

  lemma {:induction false} KeyNameAt(total: nat, count: nat, i: nat)
    requires i < count
    ensures KeyNames(total, count)[i] == "chunk-" + Decimal(total) + "-" + Decimal(i)
  {
    if i < count - 1 {
      KeyNameAt(total, count - 1, i);
    }
  }

  lemma NodeNameInjective(i: nat, j: nat)
    requires NodeName(i) == NodeName(j)
    ensures i == j
  {
    assert Decimal(i) == NodeName(i)[5..] == NodeName(j)[5..] == Decimal(j);
    DecimalRoundTrip(i);
    DecimalRoundTrip(j);
  }

  lemma {:induction false} NodesUpToHas(n: nat, i: nat)
    ensures NodeName(i) in NodesUpTo(n) <==> i < n
  {
    if n > 0 {
      NodesUpToHas(n - 1, i);
      if NodeName(i) == NodeName(n - 1) {
        NodeNameInjective(i, n - 1);
      }
    }
  }

  /** The names are new each time, so there are as many nodes as asked for. */
  lemma {:induction false} NodesUpToSize(n: nat)
    ensures |NodesUpTo(n)| == n
  {
    if n > 0 {
      NodesUpToSize(n - 1);
      NodesUpToHas(n - 1, n - 1);
    }
  }

  // ---------------------------------------------------------------------------------------------
  // The benchmark
  // ---------------------------------------------------------------------------------------------

  /** How many keys have a different owner among m nodes than among n. */
  function MovedNaive(hk: KeyHash, keys: seq<string>, n: nat, m: nat): nat
    requires n > 0 && m > 0
  {
    |set i | 0 <= i < |keys| && hk(keys[i]) % m != hk(keys[i]) % n|
  }

  lemma MovedNaiveNext(hk: KeyHash, keys: seq<string>, n: nat, m: nat, i: nat)
    requires n > 0 && m > 0 && i < |keys|
    ensures MovedNaive(hk, keys[..i + 1], n, m)
         == MovedNaive(hk, keys[..i], n, m) + if NaiveOwner(hk, keys[i], m) != NaiveOwner(hk, keys[i], n) then 1 else 0
  {
    var init, now := keys[..i], keys[..i + 1];
    var before := set j | 0 <= j < |init| && hk(init[j]) % m != hk(init[j]) % n;
    var more := if hk(keys[i]) % m != hk(keys[i]) % n then {i} else {};
    assert (set j | 0 <= j < |now| && hk(now[j]) % m != hk(now[j]) % n) == before + more;
  }

  /** How many keys have a different owner on the one ring than on the other. */
  ghost function Moved(hk: KeyHash, keys: seq<string>, before: set<NodeId>, after: set<NodeId>): nat {
    |set i | 0 <= i < |keys| && PrimaryOf(hk, after, keys[i]) != PrimaryOf(hk, before, keys[i])|
  }

  /** One node joins or one leaves, however far apart the two sizes are. */
  function NodesAfter(nodesBefore: nat, nodesAfter: nat, removed: NodeId): set<NodeId> {
    if nodesAfter > nodesBefore then NodesUpTo(nodesBefore + 1)
    else if nodesAfter < nodesBefore then NodesUpTo(nodesBefore) - {removed}
    else NodesUpTo(nodesBefore)
  }

  method RunScenario(hk: KeyHash, totalKeys: nat, nodesBefore: nat, nodesAfter: nat, removed: NodeId)
    returns (movedNaive: nat, movedConsistent: nat, ghost names: seq<string>)
    requires nodesBefore > 0 && nodesAfter > 0
    ensures |names| == totalKeys
    ensures forall i | 0 <= i < totalKeys :: names[i] == "chunk-" + Decimal(totalKeys) + "-" + Decimal(i)
    ensures movedNaive == |set i | 0 <= i < |names| && hk(names[i]) % nodesAfter != hk(names[i]) % nodesBefore|
    ensures CollisionFree(hk, NodesUpTo(nodesBefore + 1)) ==>
              var before := NodesUpTo(nodesBefore);
              var after := if nodesAfter > nodesBefore then NodesUpTo(nodesBefore + 1)
                           else if nodesAfter < nodesBefore then before - {removed} else before;
              movedConsistent == |set i | 0 <= i < |names| && PrimaryOf(hk, after, names[i]) != PrimaryOf(hk, before, names[i])|
  {
    hide CollisionFree, PrimaryOf;
    names := KeyNames(totalKeys, totalKeys);
    forall i | 0 <= i < totalKeys ensures names[i] == "chunk-" + Decimal(totalKeys) + "-" + Decimal(i) {
      KeyNameAt(totalKeys, totalKeys, i);
    }
    var keys := MakeKeys(totalKeys);
    var beforeNaive := NaiveOwners(hk, keys, nodesBefore);
    movedNaive := CountNaive(hk, keys, beforeNaive, nodesBefore, nodesAfter);
    movedConsistent := RunRing(hk, keys, nodesBefore, nodesAfter, removed);
  }

  /** The second half of the scenario, on the ring. */
  method RunRing(hk: KeyHash, keys: array<string>, nodesBefore: nat, nodesAfter: nat, removed: NodeId)
    returns (moved: nat)
    ensures CollisionFree(hk, NodesUpTo(nodesBefore + 1)) ==>
              moved == Moved(hk, keys[..], NodesUpTo(nodesBefore), NodesAfter(nodesBefore, nodesAfter, removed))
  {
    var ring := MakeRing(hk, nodesBefore);
    FaithfulEnough(hk, ring.State(), nodesBefore);
    var beforeConsistent := OwnersNow(ring, keys);
    ChangeRing(ring, nodesBefore, nodesAfter, removed);
    moved := CountConsistent(ring, keys, beforeConsistent, NodesUpTo(nodesBefore));
  }

  method ChangeRing(ring: Ring, nodesBefore: nat, nodesAfter: nat, removed: NodeId)
    requires ring.Valid() && ring.nodes == NodesUpTo(nodesBefore) && Faithful(ring.hashKey, ring.State())
    modifies ring
    ensures ring.Valid() && ring.nodes == NodesAfter(nodesBefore, nodesAfter, removed)
    ensures CollisionFree(ring.hashKey, NodesUpTo(nodesBefore + 1)) ==> WellFormed(ring.hashKey, ring.State())
  {
    FaithfulEnough(ring.hashKey, ring.State(), nodesBefore);
    if nodesAfter > nodesBefore {
      AddedFaithful(ring.hashKey, ring.State(), NodeName(nodesBefore));
      var _ := ring.AddNode(NodeName(nodesBefore));
    } else if nodesAfter < nodesBefore {
      if WellFormed(ring.hashKey, ring.State()) {
        RemovedWellFormed(ring.hashKey, ring.State(), removed);
      }
      ring.RemoveNode(removed);
    }
  }

  lemma FaithfulEnough(hk: KeyHash, st: RingState, n: nat)
    requires Faithful(hk, st) && st.nodes == NodesUpTo(n)
    ensures CollisionFree(hk, NodesUpTo(n + 1)) ==> WellFormed(hk, st)
  {
    if CollisionFree(hk, NodesUpTo(n + 1)) {
      CollisionFreeSubset(hk, NodesUpTo(n + 1), NodesUpTo(n));
    }
  }

  method MakeKeys(totalKeys: nat) returns (keys: array<string>)
    ensures fresh(keys) && keys[..] == KeyNames(totalKeys, totalKeys)
  {
    keys := new string[totalKeys];
    var i := 0;
    while i < totalKeys
      invariant 0 <= i <= totalKeys && keys[..i] == KeyNames(totalKeys, i)
    {
      keys[i] := KeyName(totalKeys, i);
      PrefixNext(keys[..], i);
      i := i + 1;
    }
  }

  method NaiveOwners(hk: KeyHash, keys: array<string>, n: nat) returns (owners: array<nat>)
    requires n > 0
    ensures fresh(owners) && owners.Length == keys.Length
    ensures forall i | 0 <= i < keys.Length :: owners[i] == NaiveOwner(hk, keys[i], n)
  {
    owners := new nat[keys.Length];
    var i := 0;
    while i < keys.Length
      invariant 0 <= i <= keys.Length && forall j | 0 <= j < i :: owners[j] == NaiveOwner(hk, keys[j], n)
    {
      owners[i] := NaiveOwner(hk, keys[i], n);
      i := i + 1;
    }
  }

  method CountNaive(hk: KeyHash, keys: array<string>, owners: array<nat>, n: nat, m: nat) returns (moved: nat)
    requires n > 0 && m > 0 && owners.Length == keys.Length
    requires forall i | 0 <= i < keys.Length :: owners[i] == NaiveOwner(hk, keys[i], n)
    ensures moved == MovedNaive(hk, keys[..], n, m)
  {
    moved := 0;
    var i := 0;
    while i < keys.Length
      invariant 0 <= i <= keys.Length && moved == MovedNaive(hk, keys[..i], n, m)
    {
      MovedNaiveNext(hk, keys[..], n, m, i);
      assert keys[..][..i] == keys[..i] && keys[..][..i + 1] == keys[..i + 1];
      if NaiveOwner(hk, keys[i], m) != owners[i] {
        moved := moved + 1;
      }
      i := i + 1;
    }
    assert keys[..i] == keys[..];
  }

  method MakeRing(hk: KeyHash, n: nat) returns (ring: Ring)
    ensures fresh(ring) && ring.Valid() && ring.hashKey == hk
    ensures ring.nodes == NodesUpTo(n) && Faithful(hk, ring.State())
  {
    ring := new Ring(hk);
    var i := 0;
    while i < n
      invariant 0 <= i <= n && fresh(ring) && ring.Valid()
      invariant ring.nodes == NodesUpTo(i) && Faithful(hk, ring.State())
    {
      AddedFaithful(hk, ring.State(), NodeName(i));
      var _ := ring.AddNode(NodeName(i));
      i := i + 1;
    }
  }

  /** These are the owners of the keys on a ring of these nodes. */
  ghost predicate OwnersAre(hk: KeyHash, nodes: set<NodeId>, keys: seq<string>, owners: seq<NodeId>) {
    |owners| == |keys| && forall i | 0 <= i < |keys| :: IsPrimary(hk, nodes, keys[i], owners[i])
  }

  ghost predicate IsPrimary(hk: KeyHash, nodes: set<NodeId>, key: string, owner: NodeId) {
    owner == PrimaryOf(hk, nodes, key)
  }

  method OwnersNow(ring: Ring, keys: array<string>) returns (owners: array<NodeId>)
    requires ring.Valid()
    ensures fresh(owners) && owners.Length == keys.Length
    ensures WellFormed(ring.hashKey, ring.State()) ==> OwnersAre(ring.hashKey, ring.nodes, keys[..], owners[..])
  {
    owners := new NodeId[keys.Length];
    ghost var known := WellFormed(ring.hashKey, ring.State());
    var i := 0;
    while i < keys.Length
      invariant 0 <= i <= keys.Length
      invariant known ==> OwnersAre(ring.hashKey, ring.nodes, keys[..i], owners[..i])
    {
      ghost var done := owners[..i];
      var owner := OwnerNow(ring, keys[i]);
      owners[i] := owner;
      assert keys[..i + 1] == keys[..i] + [keys[i]] && owners[..i + 1] == done + [owner];
      if known {
        OwnersNext(ring.hashKey, ring.nodes, keys[..i], done, keys[i], owner);
      }
      i := i + 1;
    }
    assert keys[..i] == keys[..] && owners[..i] == owners[..];
  }

  lemma OwnersNext(hk: KeyHash, nodes: set<NodeId>, keys: seq<string>, owners: seq<NodeId>, key: string, owner: NodeId)
    requires OwnersAre(hk, nodes, keys, owners) && IsPrimary(hk, nodes, key, owner)
    ensures OwnersAre(hk, nodes, keys + [key], owners + [owner])
  {}

  method OwnerNow(ring: Ring, key: string) returns (owner: NodeId)
    requires ring.Valid()
    ensures WellFormed(ring.hashKey, ring.State()) ==> IsPrimary(ring.hashKey, ring.nodes, key, owner)
  {
    hide Walked;
    var ok;
    owner, ok := ring.Get(key);
  }

  lemma MovedNext(hk: KeyHash, keys: seq<string>, before: set<NodeId>, after: set<NodeId>, i: nat, was: NodeId, owner: NodeId)
    requires i < |keys| && IsPrimary(hk, before, keys[i], was) && IsPrimary(hk, after, keys[i], owner)
    ensures Moved(hk, keys[..i + 1], before, after)
         == Moved(hk, keys[..i], before, after) + if owner != was then 1 else 0
  {
    hide PrimaryOf;
    var init, now := keys[..i], keys[..i + 1];
    var others := set j | 0 <= j < |init| && PrimaryOf(hk, after, init[j]) != PrimaryOf(hk, before, init[j]);
    var more := if owner != was then {i} else {};
    assert (set j | 0 <= j < |now| && PrimaryOf(hk, after, now[j]) != PrimaryOf(hk, before, now[j])) == others + more;
  }

  method CountConsistent(ring: Ring, keys: array<string>, owners: array<NodeId>, ghost before: set<NodeId>)
    returns (moved: nat)
    requires ring.Valid() && owners.Length == keys.Length
    ensures WellFormed(ring.hashKey, ring.State()) && OwnersAre(ring.hashKey, before, keys[..], owners[..]) ==>
              moved == Moved(ring.hashKey, keys[..], before, ring.nodes)
  {
    hide OwnersAre, IsPrimary, Moved, WellFormed;
    moved := 0;
    ghost var ks, was := keys[..], owners[..];
    ghost var known := WellFormed(ring.hashKey, ring.State()) && OwnersAre(ring.hashKey, before, ks, was);
    NothingMoved(ring.hashKey, ks, before, ring.nodes);
    var i := 0;
    while i < keys.Length
      invariant 0 <= i <= keys.Length
      invariant known ==> moved == Moved(ring.hashKey, ks[..i], before, ring.nodes)
    {
      var owner := OwnerNow(ring, keys[i]);
      if known {
        OwnerAt(ring.hashKey, before, ks, was, i);
        MovedNext(ring.hashKey, ks, before, ring.nodes, i, was[i], owner);
      }
      if owner != owners[i] {
        moved := moved + 1;
      }
      i := i + 1;
    }
    PrefixAll(ks);
  }

  lemma NothingMoved(hk: KeyHash, keys: seq<string>, before: set<NodeId>, after: set<NodeId>)
    ensures Moved(hk, keys[..0], before, after) == 0
  {}

  lemma OwnerAt(hk: KeyHash, nodes: set<NodeId>, keys: seq<string>, owners: seq<NodeId>, i: nat)
    requires OwnersAre(hk, nodes, keys, owners) && i < |keys|
    ensures |owners| == |keys| && IsPrimary(hk, nodes, keys[i], owners[i])
  {}

  // ---------------------------------------------------------------------------------------------
  // The ring: exactly the keys of the node concerned move
  // ---------------------------------------------------------------------------------------------

  ghost function OwnedBy(hk: KeyHash, keys: seq<string>, nodes: set<NodeId>, d: NodeId): nat {
    |set i | 0 <= i < |keys| && PrimaryOf(hk, nodes, keys[i]) == d|
  }

  lemma OwnedByNext(hk: KeyHash, keys: seq<string>, nodes: set<NodeId>, d: NodeId)
    requires keys != []
    ensures OwnedBy(hk, keys, nodes, d)
         == OwnedBy(hk, keys[..|keys| - 1], nodes, d) + if PrimaryOf(hk, nodes, keys[|keys| - 1]) == d then 1 else 0
  {
    hide PrimaryOf;
    var init, last := keys[..|keys| - 1], |keys| - 1;
    var before := set i | 0 <= i < |init| && PrimaryOf(hk, nodes, init[i]) == d;
    var more := if PrimaryOf(hk, nodes, keys[last]) == d then {last} else {};
    assert (set i | 0 <= i < |keys| && PrimaryOf(hk, nodes, keys[i]) == d) == before + more;
  }

  lemma PrimaryOnRing(hk: KeyHash, nodes: set<NodeId>, key: string)
    requires nodes != {}
    ensures PrimaryOf(hk, nodes, key) in nodes
    ensures Targets(hk, nodes, key, 1) == [PrimaryOf(hk, nodes, key)]
  {
    OrderMembers(ByDistance(hk, key), nodes);
    assert Order(ByDistance(hk, key), nodes)[0] in Order(ByDistance(hk, key), nodes);
  }

  /** On a leave, the owner of a key changes exactly when it was the leaver. */
  lemma LeaveMovesOwn(hk: KeyHash, nodes: set<NodeId>, d: NodeId, key: string)
    requires CollisionFree(hk, nodes) && d in nodes && (d != "" || nodes != {d})
    ensures PrimaryOf(hk, nodes - {d}, key) != PrimaryOf(hk, nodes, key) <==> PrimaryOf(hk, nodes, key) == d
  {
    PrimaryOnRing(hk, nodes, key);
    var p := PrimaryOf(hk, nodes, key);
    if p != d {
      TargetStays(hk, nodes, nodes - {d}, key, 1, p);
      PrimaryOnRing(hk, nodes - {d}, key);
    } else if nodes - {d} != {} {
      PrimaryOnRing(hk, nodes - {d}, key);
    } else {
      assert nodes == {d};
    }
  }

  /** On a join, the owner of a key changes exactly when it becomes the newcomer. */
  lemma JoinMovesOwn(hk: KeyHash, nodes: set<NodeId>, x: NodeId, key: string)
    requires CollisionFree(hk, nodes + {x}) && x !in nodes && (x != "" || nodes != {})
    ensures PrimaryOf(hk, nodes + {x}, key) != PrimaryOf(hk, nodes, key) <==> PrimaryOf(hk, nodes + {x}, key) == x
  {
    assert nodes + {x} - {x} == nodes && (x == "" ==> nodes + {x} != {x});
    JoinPrimary(hk, nodes, x, key);
    PrimaryOnRing(hk, nodes + {x}, key);
    if nodes != {} {
      PrimaryOnRing(hk, nodes, key);
    }
  }

  /** On a leave exactly the keys of the leaver move. */
  lemma LeaveMovesExactly(hk: KeyHash, keys: seq<string>, nodes: set<NodeId>, d: NodeId)
    requires CollisionFree(hk, nodes) && d in nodes && (d != "" || nodes != {d})
    ensures (set i | 0 <= i < |keys| && PrimaryOf(hk, nodes - {d}, keys[i]) != PrimaryOf(hk, nodes, keys[i]))
         == (set i | 0 <= i < |keys| && PrimaryOf(hk, nodes, keys[i]) == d)
    ensures Moved(hk, keys, nodes, nodes - {d}) == OwnedBy(hk, keys, nodes, d)
  {
    hide PrimaryOf, CollisionFree;
    forall i | 0 <= i < |keys| {
      LeaveMovesOwn(hk, nodes, d, keys[i]);
    }
    assert (set i | 0 <= i < |keys| && PrimaryOf(hk, nodes - {d}, keys[i]) != PrimaryOf(hk, nodes, keys[i]))
        == (set i | 0 <= i < |keys| && PrimaryOf(hk, nodes, keys[i]) == d);
  }

  /** On a join exactly the keys that the newcomer owns move. */
  lemma JoinMovesExactly(hk: KeyHash, keys: seq<string>, nodes: set<NodeId>, x: NodeId)
    requires CollisionFree(hk, nodes + {x}) && x !in nodes && (x != "" || nodes != {})
    ensures (set i | 0 <= i < |keys| && PrimaryOf(hk, nodes + {x}, keys[i]) != PrimaryOf(hk, nodes, keys[i]))
         == (set i | 0 <= i < |keys| && PrimaryOf(hk, nodes + {x}, keys[i]) == x)
    ensures Moved(hk, keys, nodes, nodes + {x}) == OwnedBy(hk, keys, nodes + {x}, x)
  {
    hide PrimaryOf, CollisionFree;
    forall i | 0 <= i < |keys| {
      JoinMovesOwn(hk, nodes, x, keys[i]);
    }
    assert (set i | 0 <= i < |keys| && PrimaryOf(hk, nodes + {x}, keys[i]) != PrimaryOf(hk, nodes, keys[i]))
        == (set i | 0 <= i < |keys| && PrimaryOf(hk, nodes + {x}, keys[i]) == x);
  }

  ghost function TotalOwned(hk: KeyHash, keys: seq<string>, nodes: set<NodeId>, owners: seq<NodeId>): nat {
    if owners == [] then 0 else OwnedBy(hk, keys, nodes, owners[0]) + TotalOwned(hk, keys, nodes, owners[1..])
  }

  ghost function TotalMoved(hk: KeyHash, keys: seq<string>, nodes: set<NodeId>, leavers: seq<NodeId>): nat {
    if leavers == [] then 0 else
      Moved(hk, keys, nodes, nodes - {leavers[0]}) + TotalMoved(hk, keys, nodes, leavers[1..])
  }

  lemma {:induction false} OneMoreKey(hk: KeyHash, keys: seq<string>, nodes: set<NodeId>, owners: seq<NodeId>)
    requires keys != []
    ensures TotalOwned(hk, keys, nodes, owners)
         == TotalOwned(hk, keys[..|keys| - 1], nodes, owners) + Count(owners, PrimaryOf(hk, nodes, keys[|keys| - 1]))
  {
    if owners != [] {
      OwnedByNext(hk, keys, nodes, owners[0]);
      OneMoreKey(hk, keys, nodes, owners[1..]);
    }
  }

  /** Every key has exactly one owner. */
  lemma {:induction false} EveryKeyOwnedOnce(hk: KeyHash, keys: seq<string>, nodes: set<NodeId>, owners: seq<NodeId>)
    requires nodes != {} && NoDuplicates(owners) && Elements(owners) == nodes
    ensures TotalOwned(hk, keys, nodes, owners) == |keys|
  {
    if keys == [] {
      NothingOwned(hk, nodes, owners);
    } else {
      EveryKeyOwnedOnce(hk, keys[..|keys| - 1], nodes, owners);
      OneMoreKey(hk, keys, nodes, owners);
      var p := PrimaryOf(hk, nodes, keys[|keys| - 1]);
      PrimaryOnRing(hk, nodes, keys[|keys| - 1]);
      assert p in Elements(owners);
      CountsSingle(owners);
      assert Count(owners, p) == 1;
    }
  }

  lemma {:induction false} NothingOwned(hk: KeyHash, nodes: set<NodeId>, owners: seq<NodeId>)
    ensures TotalOwned(hk, [], nodes, owners) == 0
  {
    if owners != [] {
      NothingOwned(hk, nodes, owners[1..]);
    }
  }

  lemma {:induction false} MovedIsOwned(hk: KeyHash, keys: seq<string>, nodes: set<NodeId>, leavers: seq<NodeId>)
    requires CollisionFree(hk, nodes) && "" !in nodes && forall d | d in leavers :: d in nodes
    ensures TotalMoved(hk, keys, nodes, leavers) == TotalOwned(hk, keys, nodes, leavers)
  {
    if leavers != [] {
      MovedIsOwned(hk, keys, nodes, leavers[1..]);
      assert leavers[0] in leavers;
      LeaveMovesExactly(hk, keys, nodes, leavers[0]);
    }
  }

  /** Over all choices of the leaver, the moves add up to the number of keys: 1/N of the keys per leave on average. */
  lemma LeavesMoveEveryKeyOnce(hk: KeyHash, keys: seq<string>, nodes: set<NodeId>, leavers: seq<NodeId>)
    requires CollisionFree(hk, nodes) && "" !in nodes && nodes != {}
    requires NoDuplicates(leavers) && Elements(leavers) == nodes
    ensures TotalMoved(hk, keys, nodes, leavers) == |keys|
    ensures |leavers| == |nodes|
    ensures TotalMoved(hk, keys, nodes, leavers) as real / |leavers| as real == |keys| as real / |nodes| as real
  {
    forall d | d in leavers ensures d in nodes {
      assert d in Elements(leavers);
    }
    MovedIsOwned(hk, keys, nodes, leavers);
    EveryKeyOwnedOnce(hk, keys, nodes, leavers);
    ElementsSize(leavers);
  }

  function NodeNames(n: nat): (names: seq<NodeId>)
    ensures |names| == n
  {
    if n == 0 then [] else NodeNames(n - 1) + [NodeName(n - 1)]
  }

  lemma {:induction false} NodeNamesListed(n: nat)
    ensures NoDuplicates(NodeNames(n)) && Elements(NodeNames(n)) == NodesUpTo(n) && "" !in NodesUpTo(n)
  {
    if n > 0 {
      NodeNamesListed(n - 1);
      NodesUpToHas(n - 1, n - 1);
      assert NodeName(n - 1) !in Elements(NodeNames(n - 1));
      assert Elements(NodeNames(n)) == Elements(NodeNames(n - 1)) + {NodeName(n - 1)};
    }
  }

  /** On the benchmark's own ring of n nodes, a leave moves on average exactly the n-th part of the keys. */
  lemma BenchmarkAverage(hk: KeyHash, keys: seq<string>, n: nat)
    requires CollisionFree(hk, NodesUpTo(n)) && n > 0
    ensures TotalMoved(hk, keys, NodesUpTo(n), NodeNames(n)) == |keys|
    ensures TotalMoved(hk, keys, NodesUpTo(n), NodeNames(n)) as real / n as real == |keys| as real / n as real
    ensures |NodesUpTo(n)| == n
  {
    hide CollisionFree, TotalMoved;
    NodeNamesListed(n);
    NodesUpToSize(n);
    LeavesMoveEveryKeyOnce(hk, keys, NodesUpTo(n), NodeNames(n));
  }

  /** The two scenarios of the benchmark, in terms of ownership. */
  lemma ScenarioMoves(hk: KeyHash, keys: seq<string>, n: nat, removed: nat)
    requires CollisionFree(hk, NodesUpTo(n + 1)) && removed < n
    ensures Moved(hk, keys, NodesUpTo(n), NodesAfter(n, n + 1, "")) == OwnedBy(hk, keys, NodesUpTo(n + 1), NodeName(n))
    ensures Moved(hk, keys, NodesUpTo(n), NodesAfter(n, n - 1, NodeName(removed)))
         == OwnedBy(hk, keys, NodesUpTo(n), NodeName(removed))
  {
    NodesUpToHas(n, n);
    NodesUpToHas(n, removed);
    CollisionFreeSubset(hk, NodesUpTo(n + 1), NodesUpTo(n));
    JoinMovesExactly(hk, keys, NodesUpTo(n), NodeName(n));
    LeaveMovesExactly(hk, keys, NodesUpTo(n), NodeName(removed));
  }

  // ---------------------------------------------------------------------------------------------
  // Naive placement: nearly all keys move
  // ---------------------------------------------------------------------------------------------

  predicate Stays(n: nat, h: nat)
    requires n > 0
  {
    h % (n + 1) == h % n
  }

  lemma SameRemainder(h: nat, k: nat, d: nat)
    requires d > 0
    ensures (h + k * d) % d == h % d
  {
    var q := h / d;
    assert h + k * d == (q + k) * d + h % d;
    RemainderUnique(h + k * d, d, q + k, h % d);
  }

  lemma RemainderUnique(m: int, d: nat, q: int, r: int)
    requires 0 <= r < d && m == q * d + r
    ensures m % d == r && m / d == q
  {
    var e := m / d - q;
    assert e * d == r - m % d by {
      assert m == (m / d) * d + m % d;
      assert (m / d) * d == e * d + q * d;
    }
    assert e >= 1 ==> e * d >= d;
    assert e <= -1 ==> e * d + d <= 0;
  }

  /** N and N + 1 have no common factor: below N * (N + 1) their only common multiple is 0. */
  lemma NoCommonMultiple(n: nat, a: int, b: nat)
    requires b < n && a * n == b * (n + 1)
    ensures b == 0
  {
    var c := a - b;
    assert c * n == b;
    assert c >= 1 ==> c * n >= n;
    assert c <= 0 ==> c * n <= 0;
  }

  lemma QuotientBelow(r: nat, n: nat, d: nat)
    requires d > 0 && r < n * d
    ensures r / d < n
  {
    var b := r / d;
    assert b * d <= r;
    assert b >= n ==> b * d >= n * d;
  }

  lemma QuotientAndRemainder(h: nat, m: nat)
    requires m > 0
    ensures h == h % m + (h / m) * m && h % m < m && h / m >= 0
  {}

  /** Within one period the two remainders agree only below N. */
  lemma StaysWithinPeriod(n: nat, r: nat)
    requires n > 0 && r < n * (n + 1)
    ensures Stays(n, r) <==> r < n
  {
    if r < n {
      RemainderUnique(r, n, 0, r);
      RemainderUnique(r, n + 1, 0, r);
    } else if Stays(n, r) {
      var a, b := r / n, r / (n + 1);
      QuotientAndRemainder(r, n);
      QuotientAndRemainder(r, n + 1);
      QuotientBelow(r, n, n + 1);
      NoCommonMultiple(n, a, b);
    }
  }

  lemma MulAssoc(a: int, b: int, c: int)
    ensures a * (b * c) == (a * b) * c == (a * c) * b
  {}

  lemma PeriodPositive(n: nat)
    requires n > 0
    ensures n * (n + 1) > 0
  {}

  /** A key stays where it is, going from N to N + 1 nodes, exactly when its hash is below N modulo N(N + 1). */
  lemma StaysIff(n: nat, h: nat)
    requires n > 0
    ensures n * (n + 1) > 0
    ensures h % (n + 1) == h % n <==> h % (n * (n + 1)) < n
    ensures Stays(n, h) <==> h % (n + 1) == h % n
  {
    StaysExactly(n, h);
  }

  lemma StaysExactly(n: nat, h: nat)
    requires n > 0
    ensures n * (n + 1) > 0
    ensures Stays(n, h) <==> h % (n * (n + 1)) < n
  {
    hide Stays;
    PeriodPositive(n);
    QuotientAndRemainder(h, n * (n + 1));
    StaysPeriodic(n, h % (n * (n + 1)), h / (n * (n + 1)));
    StaysWithinPeriod(n, h % (n * (n + 1)));
  }

  lemma StaysPeriodic(n: nat, r: nat, q: nat)
    requires n > 0
    ensures Stays(n, r + q * (n * (n + 1))) <==> Stays(n, r)
  {
    MulAssoc(q, n, n + 1);
    SameRemainder(r, q * (n + 1), n);
    SameRemainder(r, q * n, n + 1);
  }

  /** How many of the keys have a hash of N or more modulo N(N + 1). */
  function HighKeys(hk: KeyHash, keys: seq<string>, n: nat): nat
    requires n > 0
  {
    |set i | 0 <= i < |keys| && Remainder(hk(keys[i]), n) >= n|
  }

  function Remainder(h: nat, n: nat): nat
    requires n > 0
  {
    var m := n * (n + 1);
    assert m > 0;
    h % m
  }

  /** The benchmark's naive counter, for a join, counts exactly these keys. */
  lemma JoinMovesHighKeys(hk: KeyHash, keys: seq<string>, n: nat)
    requires n > 0
    ensures n * (n + 1) > 0
    ensures (set i | 0 <= i < |keys| && hk(keys[i]) % (n + 1) != hk(keys[i]) % n)
         == (set i | 0 <= i < |keys| && hk(keys[i]) % (n * (n + 1)) >= n)
    ensures MovedNaive(hk, keys, n, n + 1) == HighKeys(hk, keys, n)
  {
    hide Stays;
    PeriodPositive(n);
    forall i | 0 <= i < |keys| {
      StaysIff(n, hk(keys[i]));
    }
    assert (set i | 0 <= i < |keys| && hk(keys[i]) % (n + 1) != hk(keys[i]) % n)
        == (set i | 0 <= i < |keys| && Remainder(hk(keys[i]), n) >= n);
    assert (set i | 0 <= i < |keys| && hk(keys[i]) % (n * (n + 1)) >= n)
        == (set i | 0 <= i < |keys| && Remainder(hk(keys[i]), n) >= n);
  }

  /** How many of the `count` hashes from `from` on stay. */
  function Staying(n: nat, from: nat, count: nat): nat
    requires n > 0
  {
    |set h | from <= h < from + count && Stays(n, h)|
  }

  lemma StayingNext(n: nat, from: nat, count: nat)
    requires n > 0 && count > 0
    ensures Staying(n, from, count) == Staying(n, from, count - 1) + if Stays(n, from + count - 1) then 1 else 0
  {
    hide Stays;
    var last := from + count - 1;
    var before := set h | from <= h < last && Stays(n, h);
    var more := if Stays(n, last) then {last} else {};
    assert (set h | from <= h < from + count && Stays(n, h)) == before + more;
  }

  lemma {:induction false} StayingFromZero(n: nat, count: nat)
    requires n > 0 && count <= n * (n + 1)
    ensures Staying(n, 0, count) == Min(count, n)
  {
    hide Staying, Stays;
    if count > 0 {
      StayingFromZero(n, count - 1);
      StayingNext(n, 0, count);
      StaysWithinPeriod(n, count - 1);
    } else {
      NoneStaying(n);
    }
  }

  lemma NoneStaying(n: nat)
    requires n > 0
    ensures Staying(n, 0, 0) == 0
  {}

  lemma StayingShift(n: nat, from: nat, count: nat)
    requires n > 0 && count > 0
    ensures Staying(n, from, count) == (if Stays(n, from) then 1 else 0) + Staying(n, from + 1, count - 1)
  {
    hide Stays;
    var after := set h | from + 1 <= h < from + count && Stays(n, h);
    var first := if Stays(n, from) then {from} else {};
    assert (set h | from <= h < from + count && Stays(n, h)) == first + after;
  }

  /** Of any N(N + 1) consecutive hashes exactly N stay. */
  lemma WindowExact(n: nat, from: nat)
    requires n > 0
    ensures |set h | from <= h < from + n * (n + 1) && h % (n + 1) == h % n| == n
    ensures Staying(n, from, n * (n + 1)) == n
  {
    WindowStays(n, from);
    assert (set h | from <= h < from + n * (n + 1) && h % (n + 1) == h % n)
        == (set h | from <= h < from + n * (n + 1) && Stays(n, h));
  }

  lemma {:induction false} WindowStays(n: nat, from: nat)
    requires n > 0
    ensures Staying(n, from, n * (n + 1)) == n
  {
    hide Staying, Stays;
    var m := n * (n + 1);
    PeriodPositive(n);
    if from == 0 {
      StayingFromZero(n, m);
    } else {
      WindowStays(n, from - 1);
      StayingShift(n, from - 1, m);
      StayingNext(n, from, m);
      StaysPeriodic(n, from - 1, 1);
    }
  }

  /** So the moved share of such a window is 1 - 1/(N + 1), the figure the benchmark prints as expected. */
  lemma MovedShare(n: nat, from: nat)
    requires n > 0
    ensures var m := n * (n + 1);
            && Staying(n, from, m) <= m
            && 100.0 * ((m - Staying(n, from, m)) as real / m as real) == 100.0 * (1.0 - 1.0 / (n + 1) as real)
  {
    var m := n * (n + 1);
    WindowExact(n, from);
    ShareOfPeriod(n as real, m as real);
  }

  lemma ShareOfPeriod(n: real, m: real)
    requires n > 0.0 && m == n * (n + 1.0)
    ensures m > 0.0 && (m - n) / m == 1.0 - 1.0 / (n + 1.0)
  {
    var x := 1.0 / (n + 1.0);
    assert x * (n + 1.0) == 1.0;
    ScaleUp(x, n, n + 1.0);
    QuotientIs(m - n, m, 1.0 - x);
  }

  lemma ScaleUp(x: real, n: real, d: real)
    requires x * d == 1.0
    ensures x * (n * d) == n
  {
    assert x * (n * d) == (x * d) * n;
  }

  lemma QuotientIs(a: real, m: real, y: real)
    requires m > 0.0 && y * m == a
    ensures a / m == y
  {}
}
