/** The ring as the program keeps it: a sorted slice of positions, a map to nodes, and a set of nodes. */
module HashRing {
  import opened Lists
  import opened Preference
  import opened RingStates
  import opened Sorting
  import opened VirtualKeys

  class Ring {
    const hashKey: KeyHash
    var sortedHashes: seq<nat>
    var hashToNode: map<nat, NodeId>
    var nodes: set<NodeId>

    function State(): RingState
      reads this
    {
      RingState(sortedHashes, hashToNode, nodes)
    }

    ghost predicate Valid()
      reads this
    {
      Sorted(sortedHashes)
    }

    constructor (hk: KeyHash)
      ensures Valid() && hashKey == hk && State() == EMPTY_RING
      ensures WellFormed(hk, State())
    {
      hashKey := hk;
      sortedHashes, hashToNode, nodes := [], map[], {};
    }

    method AddNode(nodeID: NodeId) returns (ghost texts: seq<string>)
      requires Valid()
      modifies this
      ensures Valid() && State() == Added(hashKey, old(State()), nodeID)
      ensures nodeID in old(nodes) ==> State() == old(State())
      ensures nodeID !in old(nodes) ==>
                && |texts| == 150 && nodes == old(nodes) + {nodeID}
                && (forall i | 0 <= i < 150 ::
                      && |texts[i]| > |nodeID| + 1 && texts[i][..|nodeID| + 1] == nodeID + "#"
                      && (forall k | |nodeID| + 1 <= k < |texts[i]| :: '0' <= texts[i][k] <= '9')
                      && (texts[i][|nodeID| + 1] == '0' ==> |texts[i]| == |nodeID| + 2)
                      && Value(texts[i][|nodeID| + 1..]) == i)
      ensures nodeID !in old(nodes) ==>
                forall h :: Count(sortedHashes, h)
                         == Count(old(sortedHashes), h) + |(set i | 0 <= i < |texts| && hashKey(texts[i]) == h)|
      ensures nodeID !in old(nodes) ==>
                forall h :: OwnerOf(hashToNode, h)
                         == if exists i :: 0 <= i < |texts| && hashKey(texts[i]) == h then nodeID
                            else OwnerOf(old(hashToNode), h)
    {
      texts := [];
      if nodeID in nodes {
        return;
      }
      nodes := nodes + {nodeID};
      ghost var ps := Positions(hashKey, nodeID);
      var i := 0;
      while i < VIRTUAL_NODES_PER_NODE
        invariant 0 <= i <= VIRTUAL_NODES_PER_NODE
        invariant nodes == old(nodes) + {nodeID}
        invariant sortedHashes == old(sortedHashes) + ps[..i]
        invariant hashToNode == old(hashToNode) + Claim(ps[..i], nodeID)
      {
        var h := hashKey(VirtualKey(nodeID, i));
        PositionAt(hashKey, nodeID, VIRTUAL_NODES_PER_NODE, i);
        PrefixNext(ps, i);
        AppendAssoc(old(sortedHashes), ps[..i], [h]);
        ClaimNext(old(hashToNode), ps[..i], h, nodeID);
        hashToNode := hashToNode[h := nodeID];
        sortedHashes := sortedHashes + [h];
        i := i + 1;
      }
      PrefixAll(ps);
      texts := PlacedTexts(hashKey, nodeID);
      AddedCounts(hashKey, old(sortedHashes), old(hashToNode), nodeID, texts);
      sortedHashes := Sort(sortedHashes);
    }

    method RemoveNode(nodeID: NodeId)
      requires Valid()
      modifies this
      ensures Valid() && State() == Removed(old(State()), nodeID)
      ensures nodeID !in old(nodes) ==> State() == old(State())
      ensures nodeID in old(nodes) ==>
                && nodes == old(nodes) - {nodeID}
                && (forall h :: Count(sortedHashes, h)
                             == if OwnerOf(old(hashToNode), h) != nodeID then Count(old(sortedHashes), h)
                                else if nodeID == "" || h !in old(sortedHashes) then 0
                                else Count(old(sortedHashes), h) - 1)
                && (forall h :: h in hashToNode
                             <==> h in old(hashToNode) && !(h in old(sortedHashes) && old(hashToNode)[h] == nodeID))
                && (forall h | h in hashToNode :: hashToNode[h] == old(hashToNode)[h])
    {
      if nodeID !in nodes {
        return;
      }
      nodes := nodes - {nodeID};
      StripMeans(sortedHashes, hashToNode, nodeID);
      StripSorted(sortedHashes, hashToNode, nodeID);
      var newHashes: seq<nat> := [];
      var i := 0;
      while i < |sortedHashes|
        invariant 0 <= i <= |sortedHashes|
        invariant nodes == old(nodes) - {nodeID} && sortedHashes == old(sortedHashes)
        invariant var (kept, rest) := Strip(sortedHashes[i..], hashToNode, nodeID);
                  var (allKept, allRest) := Strip(old(sortedHashes), old(hashToNode), nodeID);
                  allKept == newHashes + kept && allRest == rest
      {
        var h := sortedHashes[i];
        assert sortedHashes[i..][1..] == sortedHashes[i + 1..];
        if OwnerOf(hashToNode, h) == nodeID {
          hashToNode := hashToNode - {h};
        } else {
          newHashes := newHashes + [h];
        }
        i := i + 1;
      }
      assert newHashes + [] == newHashes;
      sortedHashes := newHashes;
    }

    /** The owner of a key, and whether there is one; on any ring, what the first step of the walk finds. */
    method Get(key: string) returns (node: NodeId, ok: bool)
      requires Valid()
      ensures ok == (sortedHashes != [] && nodes != {})
      ensures if ok then Walked(State(), hashKey(key), 1, [node]) else node == ""
      ensures WellFormed(hashKey, State()) ==>
                && ok == (nodes != {})
                && node == if nodes == {} then "" else Targets(hashKey, nodes, key, 1)[0]
    {
      hide Walked, WellFormed, Targets;
      var found := GetN(key, 1);
      WalkedOne(State(), hashKey(key), found);
      if WellFormed(hashKey, State()) {
        EmptyRing(hashKey, State());
      }
      if |found| == 0 {
        return "", false;
      }
      assert found == [found[0]];
      return found[0], true;
    }

    /**
     The clockwise walk from the key's hash, with wrap-around and early exit. On a ring without
     collisions it returns the nearest distinct nodes, whatever the array and the search index are; on any
     ring, it returns the distinct owners it meets until it has n, or as many as there are nodes, or is round.
     */
    method GetN(key: string, n: int) returns (result: seq<NodeId>)
      requires Valid()
      ensures if sortedHashes == [] || n <= 0 then result == [] else Walked(State(), hashKey(key), n, result)
      ensures NoDuplicates(result) && |result| <= |nodes| && (|result| == 0 || |result| <= n)
      ensures WellFormed(hashKey, State()) ==> result == Targets(hashKey, nodes, key, n)
    {
      if |sortedHashes| == 0 || n <= 0 {
        NothingFound(hashKey, State(), key, n);
        return [];
      }
      var idx := Search(sortedHashes, hashKey(key));
      ghost var i;
      result, i := WalkFrom(idx, n);
      assert WalkedFrom(State(), hashKey(key), n, result, idx, i);
      DistinctMembers(OwnersOf(hashToNode, Turned(sortedHashes, idx))[..i]);
      WalkFindsTargets(hashKey, State(), key, idx, i, n);
    }

    /** The loop of `GetN`: `i` is the number of positions it looks at before it stops. */
    method WalkFrom(idx: nat, n: nat) returns (result: seq<NodeId>, ghost i: nat)
      requires idx <= |sortedHashes|
      ensures i <= |sortedHashes| && |result| <= n && |result| <= |nodes|
      ensures result == Distinct(OwnersOf(hashToNode, Turned(sortedHashes, idx))[..i])
      ensures i == |sortedHashes| || |result| == n || |result| == |nodes|
    {
      hide Distinct, Elements;
      ghost var walk := OwnersOf(hashToNode, Turned(sortedHashes, idx));
      NothingSeen(walk);
      var seen: set<NodeId> := {};
      result := [];
      var step := 0;
      while step < |sortedHashes| && |result| < n && |seen| < |nodes|
        invariant 0 <= step <= |sortedHashes| && |result| <= n && |seen| <= |nodes|
        invariant result == Distinct(walk[..step])
        invariant seen == Elements(walk[..step]) && |seen| == |result|
      {
        var pos := (idx + step) % |sortedHashes|;
        var node := OwnerOf(hashToNode, sortedHashes[pos]);
        MetNext(sortedHashes, hashToNode, idx, step);
        if node !in seen {
          seen := seen + {node};
          result := result + [node];
        }
        step := step + 1;
      }
      i := step;
    }
  }

  // ---------------------------------------------------------------------------------------------
  // Lookups on any ring, with or without collisions
  // ---------------------------------------------------------------------------------------------

  /** These are the distinct owners met in `i` steps from position `idx`, and there was a reason to stop. */
  ghost predicate WalkedFrom(st: RingState, h: Hash, n: int, result: seq<NodeId>, idx: nat, i: nat) {
    && StartsAt(st.sorted, h, idx) && i <= |st.sorted|
    && result == Distinct(OwnersOf(st.owner, Turned(st.sorted, idx))[..i])
    && |result| <= n && |result| <= |st.nodes|
    && (i == |st.sorted| || |result| == n || |result| == |st.nodes|)
  }

  ghost predicate Walked(st: RingState, h: Hash, n: int, result: seq<NodeId>) {
    exists idx, i :: WalkedFrom(st, h, n, result, idx, i)
  }

  /** Every position belongs to a node of the ring. */
  ghost predicate AllOwned(st: RingState) {
    forall h | h in st.sorted :: OwnerOf(st.owner, h) in st.nodes
  }

  lemma WalkedMembers(st: RingState, h: Hash, n: int, result: seq<NodeId>, idx: nat, i: nat)
    requires WalkedFrom(st, h, n, result, idx, i)
    ensures NoDuplicates(result)
    ensures forall x | x in result :: exists p :: p in st.sorted && OwnerOf(st.owner, p) == x
    ensures i > 0 ==> result != []
  {
    var walk := OwnersOf(st.owner, Turned(st.sorted, idx));
    DistinctMembers(walk[..i]);
    forall x | x in result ensures exists p :: p in st.sorted && OwnerOf(st.owner, p) == x {
      assert x in Elements(result);
      var j :| 0 <= j < i && walk[j] == x;
      assert Turned(st.sorted, idx)[j] in st.sorted;
    }
    if i > 0 {
      assert walk[..i][0] in Elements(walk[..i]);
    }
  }

  lemma FirstAtLeast(sorted: seq<nat>, h: nat) returns (idx: nat)
    requires Sorted(sorted)
    ensures StartsAt(sorted, h, idx) && (h in sorted ==> idx < |sorted| && sorted[idx] == h)
  {
    idx := 0;
    while idx < |sorted| && sorted[idx] < h
      invariant idx <= |sorted| && forall i | 0 <= i < idx :: sorted[i] < h
    {
      idx := idx + 1;
    }
  }

  lemma FirstStep(st: RingState, h: Hash, idx: nat)
    requires StartsAt(st.sorted, h, idx) && idx < |st.sorted| && st.nodes != {}
    ensures WalkedFrom(st, h, 1, [OwnerOf(st.owner, st.sorted[idx])], idx, 1)
  {
    var walk := OwnersOf(st.owner, Turned(st.sorted, idx));
    assert Turned(st.sorted, idx)[0] == st.sorted[idx];
    assert walk[..0] == [];
    DistinctNext(walk, 0);
    assert [] + [walk[0]] == [walk[0]];
  }

  /** Every answer consists of nodes of the ring exactly when every position belongs to one. */
  lemma AnswersAreNodesIff(st: RingState)
    requires Sorted(st.sorted) && (forall p | p in st.sorted :: p < SPACE) && st.nodes != {}
    ensures AllOwned(st) <==> forall h: Hash, n, r :: Walked(st, h, n, r) ==> Elements(r) <= st.nodes
  {
    if AllOwned(st) {
      forall h: Hash, n, r | Walked(st, h, n, r) ensures Elements(r) <= st.nodes {
        var idx, i :| WalkedFrom(st, h, n, r, idx, i);
        WalkedMembers(st, h, n, r, idx, i);
      }
    } else {
      var p :| p in st.sorted && OwnerOf(st.owner, p) !in st.nodes;
      var idx := FirstAtLeast(st.sorted, p);
      FirstStep(st, p, idx);
      assert Walked(st, p, 1, [OwnerOf(st.owner, p)]);
      assert OwnerOf(st.owner, p) in Elements([OwnerOf(st.owner, p)]);
    }
  }

  lemma WalkedOne(st: RingState, h: Hash, result: seq<NodeId>)
    requires st.sorted == [] ==> result == []
    requires st.sorted != [] ==> Walked(st, h, 1, result)
    ensures |result| <= 1 && (result == [] <==> st.sorted == [] || st.nodes == {})
  {
    if st.sorted != [] {
      var idx, i :| WalkedFrom(st, h, 1, result, idx, i);
      WalkedMembers(st, h, 1, result, idx, i);
    }
  }

  /** On a ring that has lost all its owners, every lookup answers the empty ID, which may be no node at all. */
  lemma LostOwnersAnswer(st: RingState, h: Hash, n: int, result: seq<NodeId>)
    requires st.owner == map[] && |st.nodes| == 1 && st.sorted != [] && n > 0 && Walked(st, h, n, result)
    ensures result == [""]
  {
    var idx, i :| WalkedFrom(st, h, n, result, idx, i);
    WalkedMembers(st, h, n, result, idx, i);
    assert forall x | x in result :: x == "";
    assert |result| == 1 && result[0] in result;
  }

  /** What `AddNode` does to array and map, position by position. */
  lemma AddedCounts(hk: KeyHash, sorted: seq<nat>, owner: map<nat, NodeId>, node: NodeId, texts: seq<string>)
    requires forall h :: Count(Positions(hk, node), h) == |(set i | 0 <= i < |texts| && hk(texts[i]) == h)|
    ensures forall h :: Count(sorted + Positions(hk, node), h)
                     == Count(sorted, h) + |(set i | 0 <= i < |texts| && hk(texts[i]) == h)|
    ensures forall h :: OwnerOf(owner + Claim(Positions(hk, node), node), h)
                     == if exists i :: 0 <= i < |texts| && hk(texts[i]) == h then node else OwnerOf(owner, h)
  {
    hide Positions;
    forall h ensures Count(sorted + Positions(hk, node), h)
                  == Count(sorted, h) + |(set i | 0 <= i < |texts| && hk(texts[i]) == h)|
    {
      CountAppend(sorted, Positions(hk, node), h);
    }
    forall h ensures OwnerOf(owner + Claim(Positions(hk, node), node), h)
                  == if exists i :: 0 <= i < |texts| && hk(texts[i]) == h then node else OwnerOf(owner, h)
    {
      var hits := set i | 0 <= i < |texts| && hk(texts[i]) == h;
      assert Count(Positions(hk, node), h) == |hits|;
      assert h in Positions(hk, node) <==> |hits| > 0;
      assert |hits| > 0 <==> hits != {};
      assert forall i :: i in hits <==> 0 <= i < |texts| && hk(texts[i]) == h;
      assert hits != {} <==> exists i :: i in hits;
    }
  }

  lemma ClaimNext(owner: map<nat, NodeId>, ps: seq<nat>, h: nat, node: NodeId)
    ensures owner + Claim(ps + [h], node) == (owner + Claim(ps, node))[h := node]
  {
    assert forall x :: x in ps + [h] <==> x in ps || x == h;
  }

  /** The first target, or the empty string on a ring without nodes. */
  ghost function PrimaryOf(hk: KeyHash, nodes: set<NodeId>, key: string): NodeId {
    if nodes == {} then "" else Targets(hk, nodes, key, 1)[0]
  }

  lemma EmptyRing(hk: KeyHash, st: RingState)
    requires WellFormed(hk, st)
    ensures st.sorted == [] <==> st.nodes == {}
  {
    forall n | n in st.nodes ensures st.sorted != [] {
      assert Positions(hk, n)[0] in Positions(hk, n);
      assert Positions(hk, n)[0] in st.sorted;
    }
    if st.sorted != [] {
      assert st.sorted[0] in st.sorted;
    }
  }

  /** The array read from the search index on, wrapping around. */
  function Turned(sorted: seq<nat>, idx: nat): seq<nat>
    requires idx <= |sorted|
  {
    sorted[idx..] + sorted[..idx]
  }

  lemma NothingSeen(walk: seq<NodeId>)
    ensures Distinct(walk[..0]) == [] && Elements(walk[..0]) == {}
  {}

  /** One step of the walk. */
  lemma MetNext(sorted: seq<nat>, owner: map<nat, NodeId>, idx: nat, i: nat)
    requires idx <= |sorted| && i < |sorted|
    ensures (idx + i) % |sorted| < |sorted|
    ensures var walk, node := OwnersOf(owner, Turned(sorted, idx)), OwnerOf(owner, sorted[(idx + i) % |sorted|]);
            var met, seen := Distinct(walk[..i]), Elements(walk[..i]);
            && Distinct(walk[..i + 1]) == (if node in seen then met else met + [node])
            && Elements(walk[..i + 1]) == (if node in seen then seen else seen + {node})
  {
    TurnedAt(sorted, idx, i);
    DistinctNext(OwnersOf(owner, Turned(sorted, idx)), i);
  }

  lemma TurnedAt(sorted: seq<nat>, idx: nat, i: nat)
    requires idx <= |sorted| && i < |sorted|
    ensures Turned(sorted, idx)[i] == sorted[(idx + i) % |sorted|]
  {
    Wraps(idx + i, |sorted|);
  }

  lemma Wraps(a: nat, len: nat)
    requires a < 2 * len
    ensures a % len == if a < len then a else a - len
  {
    if len <= a {
      var q := a / len;
      assert a == q * len + a % len;
      assert q >= 2 ==> q * len >= 2 * len;
    }
  }

  function OwnersOf(owner: map<nat, NodeId>, ps: seq<nat>): (walk: seq<NodeId>)
    ensures |walk| == |ps|
    ensures forall i | 0 <= i < |ps| :: walk[i] == OwnerOf(owner, ps[i])
  {
    if ps == [] then [] else [OwnerOf(owner, ps[0])] + OwnersOf(owner, ps[1..])
  }

  ghost predicate StartsAt(sorted: seq<nat>, h: nat, idx: nat) {
    && idx <= |sorted|
    && (forall i | 0 <= i < idx :: sorted[i] < h)
    && (forall i | idx <= i < |sorted| :: h <= sorted[i])
  }

  /** Walking on never comes nearer: the turned array is in clockwise order from the key. */
  lemma TurnMovesAway(sorted: seq<nat>, h: Hash, idx: nat, i: nat, j: nat)
    requires Sorted(sorted) && StartsAt(sorted, h, idx) && i <= j < |sorted|
    requires forall p | p in sorted :: p < SPACE
    ensures Clockwise(h, Turned(sorted, idx)[i]) <= Clockwise(h, Turned(sorted, idx)[j])
  {
    var t := Turned(sorted, idx);
    assert t[i] == if idx + i < |sorted| then sorted[idx + i] else sorted[idx + i - |sorted|];
    assert t[j] == if idx + j < |sorted| then sorted[idx + j] else sorted[idx + j - |sorted|];
    assert t[i] in sorted && t[j] in sorted;
  }

  lemma PositionsBounded(hk: KeyHash, st: RingState)
    requires WellFormed(hk, st)
    ensures forall p | p in st.sorted :: p < SPACE
  {
    forall p | p in st.sorted ensures p < SPACE {
      assert p in Positions(hk, st.owner[p]);
    }
  }

  /** The owners met on the turned array come in the order of their distance. */
  lemma TurnVisits(hk: KeyHash, st: RingState, key: string, idx: nat)
    requires WellFormed(hk, st) && StartsAt(st.sorted, hk(key), idx)
    ensures Visits(ByDistance(hk, key), st.nodes, OwnersOf(st.owner, Turned(st.sorted, idx)))
  {
    var walk := OwnersOf(st.owner, Turned(st.sorted, idx));
    forall x ensures x in walk <==> x in st.nodes {
      if x in walk {
        var i :| 0 <= i < |walk| && walk[i] == x;
        OwnerMet(hk, st, idx, i);
      }
      if x in st.nodes {
        var i := Met(hk, st, idx, x, Positions(hk, x)[0]);
      }
    }
    forall i | 0 <= i < |walk| ensures NearestLeft(ByDistance(hk, key), st.nodes, walk, i) {
      forall y | y in st.nodes && y !in walk[..i] ensures ByDistance(hk, key)(walk[i]) <= ByDistance(hk, key)(y) {
        UnmetIsFurther(hk, st, key, idx, i, y);
      }
    }
  }

  lemma OwnerMet(hk: KeyHash, st: RingState, idx: nat, i: nat)
    requires WellFormed(hk, st) && idx <= |st.sorted| && i < |st.sorted|
    ensures var p := Turned(st.sorted, idx)[i];
            p in st.sorted && OwnerOf(st.owner, p) in st.nodes && p in Positions(hk, OwnerOf(st.owner, p))
  {
    var p := Turned(st.sorted, idx)[i];
    assert p in st.sorted;
    assert p in st.owner;
  }

  lemma UnmetIsFurther(hk: KeyHash, st: RingState, key: string, idx: nat, i: nat, y: NodeId)
    requires WellFormed(hk, st) && StartsAt(st.sorted, hk(key), idx) && i < |st.sorted| && y in st.nodes
    requires var walk := OwnersOf(st.owner, Turned(st.sorted, idx)); y !in walk[..i]
    ensures var walk := OwnersOf(st.owner, Turned(st.sorted, idx)); Distance(hk, key, walk[i]) <= Distance(hk, key, y)
  {
    var walk := OwnersOf(st.owner, Turned(st.sorted, idx));
    var p := NearestPosition(hk, key, y);
    var j := Met(hk, st, idx, y, p);
    PrefixMembers(walk, i);
    PositionsBounded(hk, st);
    TurnMovesAway(st.sorted, hk(key), idx, i, j);
    OwnerMet(hk, st, idx, i);
  }

  lemma WalkFindsTargets(hk: KeyHash, st: RingState, key: string, idx: nat, i: nat, n: nat)
    requires StartsAt(st.sorted, hk(key), idx) && i <= |st.sorted| && 0 < n
    requires var met := Distinct(OwnersOf(st.owner, Turned(st.sorted, idx))[..i]);
             |met| <= n && (i == |st.sorted| || |met| == n || |met| >= |st.nodes|)
    ensures WellFormed(hk, st) ==>
              Distinct(OwnersOf(st.owner, Turned(st.sorted, idx))[..i]) == Targets(hk, st.nodes, key, n)
  {
    if WellFormed(hk, st) {
      WellFormedDistances(hk, st, key);
      TurnVisits(hk, st, key, idx);
      StoppedWalk(ByDistance(hk, key), st.nodes, OwnersOf(st.owner, Turned(st.sorted, idx)), i, n);
    }
  }

  lemma NothingFound(hk: KeyHash, st: RingState, key: string, n: int)
    requires st.sorted == [] || n <= 0
    ensures WellFormed(hk, st) ==> Targets(hk, st.nodes, key, n) == []
  {
    if WellFormed(hk, st) {
      EmptyRing(hk, st);
    }
  }

  lemma Met(hk: KeyHash, st: RingState, idx: nat, x: NodeId, p: nat) returns (i: nat)
    requires WellFormed(hk, st) && idx <= |st.sorted| && x in st.nodes && p in Positions(hk, x)
    ensures i < |st.sorted| && Turned(st.sorted, idx)[i] == p && OwnersOf(st.owner, Turned(st.sorted, idx))[i] == x
  {
    assert p in st.owner && st.owner[p] == x;
    var k :| 0 <= k < |st.sorted| && st.sorted[k] == p;
    i := if idx <= k then k - idx else k + |st.sorted| - idx;
  }
}
