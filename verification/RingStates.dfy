/**
 The consistent hash ring. SHA-1 truncated to 64 bits is an arbitrary function from keys to
 positions; where a property needs positions not to collide, that is a premise of the lemma.
 */
module RingStates {
  import opened Lists
  import opened Preference
  import opened Sorting
  import opened VirtualKeys

  const SPACE: nat := 0x1_0000_0000_0000_0000
  type Hash = h: nat | h < SPACE
  type KeyHash = string -> Hash

  function PositionsUpTo(hk: KeyHash, node: NodeId, count: nat): (ps: seq<nat>)
    ensures |ps| == count
    ensures forall p | p in ps :: p < SPACE
  {
    if count == 0 then [] else PositionsUpTo(hk, node, count - 1) + [hk(VirtualKey(node, count - 1))]
  }

  /** The positions of a node's virtual nodes, by index. */
  function Positions(hk: KeyHash, node: NodeId): (ps: seq<nat>)
    ensures |ps| == VIRTUAL_NODES_PER_NODE
    ensures forall p | p in ps :: p < SPACE
  {
    PositionsUpTo(hk, node, VIRTUAL_NODES_PER_NODE)
  }

  lemma {:induction false} PositionAt(hk: KeyHash, node: NodeId, count: nat, i: nat)
    requires i < count
    ensures PositionsUpTo(hk, node, count)[i] == hk(VirtualKey(node, i))
  {
    if i < count - 1 {
      PositionAt(hk, node, count - 1, i);
    }
  }

  /** The texts of a node, and how often their hashes fall on each position. */
  lemma PlacedTexts(hk: KeyHash, node: NodeId) returns (texts: seq<string>)
    ensures |texts| == 150
    ensures forall i | 0 <= i < 150 ::
              && |texts[i]| > |node| + 1 && texts[i][..|node| + 1] == node + "#"
              && (forall k | |node| + 1 <= k < |texts[i]| :: '0' <= texts[i][k] <= '9')
              && (texts[i][|node| + 1] == '0' ==> |texts[i]| == |node| + 2)
              && Value(texts[i][|node| + 1..]) == i
    ensures forall h :: Count(Positions(hk, node), h) == |(set i | 0 <= i < |texts| && hk(texts[i]) == h)|
  {
    hide Count, Value, VirtualKey, PositionsUpTo;
    texts := seq(VIRTUAL_NODES_PER_NODE, i requires 0 <= i => VirtualKey(node, i));
    forall i | 0 <= i < 150
      ensures && |texts[i]| > |node| + 1 && texts[i][..|node| + 1] == node + "#"
              && (forall k | |node| + 1 <= k < |texts[i]| :: '0' <= texts[i][k] <= '9')
              && (texts[i][|node| + 1] == '0' ==> |texts[i]| == |node| + 2)
              && Value(texts[i][|node| + 1..]) == i
    {
      assert texts[i] == VirtualKey(node, i);
      KeyReadBack(node, i);
    }
    forall i | 0 <= i < 150 ensures Positions(hk, node)[i] == hk(texts[i]) {
      PositionAt(hk, node, VIRTUAL_NODES_PER_NODE, i);
      assert texts[i] == VirtualKey(node, i);
    }
    forall h ensures Count(Positions(hk, node), h) == |(set i | 0 <= i < |texts| && hk(texts[i]) == h)| {
      CountHashes(hk, Positions(hk, node), texts, h);
    }
  }

  lemma {:induction false} CountHashes(hk: KeyHash, ps: seq<nat>, texts: seq<string>, h: nat)
    requires |ps| == |texts| && forall i | 0 <= i < |ps| :: ps[i] == hk(texts[i])
    ensures Count(ps, h) == |(set i | 0 <= i < |texts| && hk(texts[i]) == h)|
  {
    var now := set i | 0 <= i < |texts| && hk(texts[i]) == h;
    if ps == [] {
      assert now == {};
    } else {
      var last := |ps| - 1;
      var init := texts[..last];
      CountHashes(hk, ps[..last], init, h);
      PrefixNext(ps, last);
      PrefixAll(ps);
      CountAppend(ps[..last], [ps[last]], h);
      HitsNext(hk, texts, last, h);
    }
  }

  lemma HitsNext(hk: KeyHash, texts: seq<string>, last: nat, h: nat)
    requires |texts| == last + 1
    ensures var init := texts[..last];
            |(set i | 0 <= i < |texts| && hk(texts[i]) == h)|
            == |(set i | 0 <= i < |init| && hk(init[i]) == h)| + if hk(texts[last]) == h then 1 else 0
  {
    var init := texts[..last];
    var before, now := set i | 0 <= i < |init| && hk(init[i]) == h, set i | 0 <= i < |texts| && hk(texts[i]) == h;
    assert forall i | 0 <= i < last :: init[i] == texts[i];
    assert now == if hk(texts[last]) == h then before + {last} else before;
  }

  /** A position belongs to a node exactly when it is the hash of one of the node's 150 texts. */
  lemma PlacedIff(hk: KeyHash, node: NodeId, h: nat)
    ensures h in Positions(hk, node)
       <==> exists text :: |text| > |node| + 1 && text[..|node| + 1] == node + "#"
                           && (forall k | |node| + 1 <= k < |text| :: '0' <= text[k] <= '9')
                           && (text[|node| + 1] == '0' ==> |text| == |node| + 2)
                           && Value(text[|node| + 1..]) < 150 && hk(text) == h
  {
    if h in Positions(hk, node) {
      var i :| 0 <= i < |Positions(hk, node)| && Positions(hk, node)[i] == h;
      PositionAt(hk, node, VIRTUAL_NODES_PER_NODE, i);
      KeyReadBack(node, i);
    }
    if text :| |text| > |node| + 1 && text[..|node| + 1] == node + "#"
               && (forall k | |node| + 1 <= k < |text| :: '0' <= text[k] <= '9')
               && (text[|node| + 1] == '0' ==> |text| == |node| + 2)
               && Value(text[|node| + 1..]) < 150 && hk(text) == h
    {
      KeyTextUnique(node, text);
      PositionAt(hk, node, VIRTUAL_NODES_PER_NODE, Value(text[|node| + 1..]));
    }
  }

  /** The hash tells apart all the virtual keys of the given nodes. */
  ghost predicate CollisionFree(hk: KeyHash, nodes: set<NodeId>) {
    forall a, b, i, j | a in nodes && b in nodes && 0 <= i < VIRTUAL_NODES_PER_NODE && 0 <= j < VIRTUAL_NODES_PER_NODE ::
      hk(VirtualKey(a, i)) == hk(VirtualKey(b, j)) ==> VirtualKey(a, i) == VirtualKey(b, j)
  }

  /** That is: all the positions of these nodes are different. */
  lemma CollisionFreeMeans(hk: KeyHash, nodes: set<NodeId>)
    ensures CollisionFree(hk, nodes)
            <==> forall a, b, i, j | && a in nodes && b in nodes && 0 <= i < 150 && 0 <= j < 150
                                     && Positions(hk, a)[i] == Positions(hk, b)[j] :: a == b && i == j
  {
    hide Positions;
    forall a, i: nat | i < 150 ensures Positions(hk, a)[i] == hk(VirtualKey(a, i)) {
      PositionIs(hk, a, i);
    }
    forall a, b, i: nat, j: nat {:trigger VirtualKey(a, i), VirtualKey(b, j)} | VirtualKey(a, i) == VirtualKey(b, j)
      ensures a == b && i == j
    {
      VirtualKeyInjective(a, i, b, j);
    }
  }

  lemma PositionIs(hk: KeyHash, node: NodeId, i: nat)
    requires i < VIRTUAL_NODES_PER_NODE
    ensures Positions(hk, node)[i] == hk(VirtualKey(node, i))
  {
    PositionAt(hk, node, VIRTUAL_NODES_PER_NODE, i);
  }

  lemma DistinctPositions(hk: KeyHash, nodes: set<NodeId>, a: NodeId, i: nat, b: NodeId, j: nat)
    requires CollisionFree(hk, nodes) && a in nodes && b in nodes
    requires i < VIRTUAL_NODES_PER_NODE && j < VIRTUAL_NODES_PER_NODE && Positions(hk, a)[i] == Positions(hk, b)[j]
    ensures a == b && i == j
  {
    PositionAt(hk, a, VIRTUAL_NODES_PER_NODE, i);
    PositionAt(hk, b, VIRTUAL_NODES_PER_NODE, j);
    VirtualKeyInjective(a, i, b, j);
  }

  lemma CollisionFreePositions(hk: KeyHash, nodes: set<NodeId>, a: NodeId)
    requires CollisionFree(hk, nodes) && a in nodes
    ensures NoDuplicates(Positions(hk, a))
    ensures forall b, h | b in nodes && h in Positions(hk, a) && h in Positions(hk, b) :: a == b
  {
    forall i, j | 0 <= i < j < |Positions(hk, a)| ensures Positions(hk, a)[i] != Positions(hk, a)[j] {
      if Positions(hk, a)[i] == Positions(hk, a)[j] {
        DistinctPositions(hk, nodes, a, i, a, j);
      }
    }
    forall b, h | b in nodes && h in Positions(hk, a) && h in Positions(hk, b) ensures a == b {
      var i :| 0 <= i < |Positions(hk, a)| && Positions(hk, a)[i] == h;
      var j :| 0 <= j < |Positions(hk, b)| && Positions(hk, b)[j] == h;
      DistinctPositions(hk, nodes, a, i, b, j);
    }
  }

  // ---------------------------------------------------------------------------------------------
  // Which nodes own a key: the specification
  // ---------------------------------------------------------------------------------------------

  /** How far clockwise `to` lies from `from`. */
  function Clockwise(from: Hash, to: nat): nat
  {
    if from <= to then to - from else to + SPACE - from
  }

  lemma ClockwiseInjective(from: Hash, p: nat, q: nat)
    requires p < SPACE && q < SPACE && Clockwise(from, p) == Clockwise(from, q)
    ensures p == q
  {}

  function Least(from: Hash, ps: seq<nat>): (d: nat)
    requires ps != []
    ensures exists p :: p in ps && d == Clockwise(from, p)
    ensures forall p | p in ps :: d <= Clockwise(from, p)
  {
    if |ps| == 1 then Clockwise(from, ps[0]) else
      var d := Least(from, ps[1..]);
      var e := Clockwise(from, ps[0]);
      assert forall p | p in ps :: p == ps[0] || p in ps[1..];
      if e <= d then e else d
  }

  /** A node is as far from a key as its nearest virtual node, going clockwise. */
  function Distance(hk: KeyHash, key: string, node: NodeId): (d: nat)
    ensures exists p :: p in Positions(hk, node) && d == Clockwise(hk(key), p)
    ensures forall p | p in Positions(hk, node) :: d <= Clockwise(hk(key), p)
  {
    Least(hk(key), Positions(hk, node))
  }

  lemma {:induction false} LeastAt(from: Hash, ps: seq<nat>) returns (p: nat)
    requires ps != []
    ensures p in ps && Least(from, ps) == Clockwise(from, p)
  {
    p := ps[0];
    if |ps| > 1 {
      var q := LeastAt(from, ps[1..]);
      if Clockwise(from, q) < Clockwise(from, p) {
        p := q;
      }
    }
  }

  /** The virtual node that is as near as the node. */
  lemma NearestPosition(hk: KeyHash, key: string, node: NodeId) returns (p: nat)
    ensures p in Positions(hk, node) && p < SPACE && Distance(hk, key, node) == Clockwise(hk(key), p)
  {
    p := LeastAt(hk(key), Positions(hk, node));
  }

  /** The distance, written out: the least way clockwise, modulo 2^64, from the key's hash to the hash of one of the texts. */
  lemma DistanceMeans(hk: KeyHash, key: string, node: NodeId)
    ensures exists text :: |text| > |node| + 1 && text[..|node| + 1] == node + "#"
                           && (forall k | |node| + 1 <= k < |text| :: '0' <= text[k] <= '9')
                           && (text[|node| + 1] == '0' ==> |text| == |node| + 2)
                           && Value(text[|node| + 1..]) < 150
                           && Distance(hk, key, node) == (hk(text) - hk(key)) % 0x1_0000_0000_0000_0000
    ensures forall text ::
              |text| > |node| + 1 && text[..|node| + 1] == node + "#"
              && (forall k | |node| + 1 <= k < |text| :: '0' <= text[k] <= '9')
              && (text[|node| + 1] == '0' ==> |text| == |node| + 2)
              && Value(text[|node| + 1..]) < 150 ==>
                Distance(hk, key, node) <= (hk(text) - hk(key)) % 0x1_0000_0000_0000_0000
  {
    hide Distance, Positions;
    var p := NearestPosition(hk, key, node);
    PlacedIff(hk, node, p);
    ClockwiseMeans(hk(key), p);
    forall text | |text| > |node| + 1 && text[..|node| + 1] == node + "#"
                  && (forall k | |node| + 1 <= k < |text| :: '0' <= text[k] <= '9')
                  && (text[|node| + 1] == '0' ==> |text| == |node| + 2)
                  && Value(text[|node| + 1..]) < 150
      ensures Distance(hk, key, node) <= (hk(text) - hk(key)) % 0x1_0000_0000_0000_0000
    {
      PlacedIff(hk, node, hk(text));
      ClockwiseMeans(hk(key), hk(text));
    }
  }

  lemma ClockwiseMeans(from: Hash, to: nat)
    requires to < SPACE
    ensures Clockwise(from, to) == (to - from) % 0x1_0000_0000_0000_0000
  {}

  function ByDistance(hk: KeyHash, key: string): Rank {
    node => Distance(hk, key, node)
  }

  /** The nodes responsible for a key: the `n` nearest, nearest first. */
  ghost function Targets(hk: KeyHash, nodes: set<NodeId>, key: string, n: int): seq<NodeId> {
    Prefix(Order(ByDistance(hk, key), nodes), n)
  }

  lemma DistancesDiffer(hk: KeyHash, nodes: set<NodeId>, key: string)
    requires forall a, b, h | a in nodes && b in nodes && h in Positions(hk, a) && h in Positions(hk, b) :: a == b
    ensures Injective(ByDistance(hk, key), nodes)
  {
    forall a, b | a in nodes && b in nodes && Distance(hk, key, a) == Distance(hk, key, b) ensures a == b {
      var p := NearestPosition(hk, key, a);
      var q := NearestPosition(hk, key, b);
      ClockwiseInjective(hk(key), p, q);
    }
  }

  lemma CollisionFreeDistances(hk: KeyHash, nodes: set<NodeId>, key: string)
    requires CollisionFree(hk, nodes)
    ensures Injective(ByDistance(hk, key), nodes)
  {
    forall a, b, h | a in nodes && b in nodes && h in Positions(hk, a) && h in Positions(hk, b) ensures a == b {
      CollisionFreePositions(hk, nodes, a);
    }
    DistancesDiffer(hk, nodes, key);
  }

  // ---------------------------------------------------------------------------------------------
  // The state of a ring and how it changes
  // ---------------------------------------------------------------------------------------------

  datatype RingState = RingState(sorted: seq<nat>, owner: map<nat, NodeId>, nodes: set<NodeId>)

  const EMPTY_RING := RingState([], map[], {})

  /** A Go map of strings answers a missing key with the empty string. */
  function OwnerOf(owner: map<nat, NodeId>, h: nat): NodeId {
    if h in owner then owner[h] else ""
  }

  function Claim(ps: seq<nat>, node: NodeId): map<nat, NodeId> {
    map h | h in ps :: node
  }

  function Added(hk: KeyHash, st: RingState, node: NodeId): RingState {
    if node in st.nodes then st else
      RingState(Sort(st.sorted + Positions(hk, node)), st.owner + Claim(Positions(hk, node), node), st.nodes + {node})
  }

  /** One pass over the positions, dropping those whose owner, as the pass finds it, is the node. */
  function Strip(sorted: seq<nat>, owner: map<nat, NodeId>, node: NodeId): (seq<nat>, map<nat, NodeId>) {
    if sorted == [] then ([], owner)
    else if OwnerOf(owner, sorted[0]) == node then Strip(sorted[1..], owner - {sorted[0]}, node)
    else var (kept, rest) := Strip(sorted[1..], owner, node); ([sorted[0]] + kept, rest)
  }

  function Removed(st: RingState, node: NodeId): RingState {
    if node !in st.nodes then st else
      var (kept, rest) := Strip(st.sorted, st.owner, node);
      RingState(kept, rest, st.nodes - {node})
  }

  /** The ring holds exactly the virtual nodes of its nodes, each once and mapped back to its node. */
  ghost predicate WellFormed(hk: KeyHash, st: RingState) {
    Placed(st) && Owned(hk, st)
  }

  ghost predicate Placed(st: RingState) {
    && Sorted(st.sorted) && NoDuplicates(st.sorted)
    && (forall h :: h in st.owner <==> h in st.sorted)
  }

  ghost predicate Owned(hk: KeyHash, st: RingState) {
    && (forall h | h in st.owner :: st.owner[h] in st.nodes && h in Positions(hk, st.owner[h]))
    && (forall n, h | n in st.nodes && h in Positions(hk, n) :: h in st.owner && st.owner[h] == n)
  }

  lemma WellFormedDistances(hk: KeyHash, st: RingState, key: string)
    requires WellFormed(hk, st)
    ensures Injective(ByDistance(hk, key), st.nodes)
  {
    forall a, b, h | a in st.nodes && b in st.nodes && h in Positions(hk, a) && h in Positions(hk, b) ensures a == b {
      assert st.owner[h] == a;
    }
    DistancesDiffer(hk, st.nodes, key);
  }

  /** A ring without collisions is determined by its set of nodes: how it came about does not matter. */
  lemma HistoryIndependent(hk: KeyHash, s: RingState, t: RingState)
    requires WellFormed(hk, s) && WellFormed(hk, t) && s.nodes == t.nodes
    ensures s == t
  {
    forall h ensures h in s.owner <==> h in t.owner {
    }
    SortedSetUnique(s.sorted, t.sorted);
    assert s.owner == t.owner;
  }

  // ---------------------------------------------------------------------------------------------
  // What adding and removing do to the state
  // ---------------------------------------------------------------------------------------------

  /** How often a position survives `Strip`, even when positions repeat. */
  function Survivals(sorted: seq<nat>, owner: map<nat, NodeId>, node: NodeId, h: nat): nat {
    if OwnerOf(owner, h) != node then Count(sorted, h)
    else if node == "" || Count(sorted, h) == 0 then 0
    else Count(sorted, h) - 1
  }

  /**
   Only the first of several equal positions is dropped: by the next one the owner is forgotten.
   The empty node ID is the exception, since it is also what a forgotten owner reads as.
   */
  lemma {:induction false} StripCounts(sorted: seq<nat>, owner: map<nat, NodeId>, node: NodeId, h: nat)
    ensures Count(Strip(sorted, owner, node).0, h) == Survivals(sorted, owner, node, h)
    decreases |sorted|
  {
    if sorted != [] {
      var first := sorted[0];
      if OwnerOf(owner, first) == node {
        StripCounts(sorted[1..], owner - {first}, node, h);
      } else {
        StripCounts(sorted[1..], owner, node, h);
        var kept := Strip(sorted[1..], owner, node).0;
        assert ([first] + kept)[1..] == kept;
      }
    }
  }

  lemma {:induction false} StripOwner(sorted: seq<nat>, owner: map<nat, NodeId>, node: NodeId)
    ensures var rest := Strip(sorted, owner, node).1;
            && (forall h :: h in rest <==> h in owner && !(h in sorted && owner[h] == node))
            && (forall h | h in rest :: rest[h] == owner[h])
    decreases |sorted|
  {
    if sorted != [] {
      var first := sorted[0];
      assert forall h :: h in sorted <==> h == first || h in sorted[1..];
      StripOwner(sorted[1..], if OwnerOf(owner, first) == node then owner - {first} else owner, node);
    }
  }

  /** What is left, position by position. */
  lemma StripMeans(sorted: seq<nat>, owner: map<nat, NodeId>, node: NodeId)
    ensures var (kept, rest) := Strip(sorted, owner, node);
            && (forall h :: Count(kept, h)
                         == if OwnerOf(owner, h) != node then Count(sorted, h)
                            else if node == "" || h !in sorted then 0
                            else Count(sorted, h) - 1)
            && (forall h :: h in rest <==> h in owner && !(h in sorted && owner[h] == node))
            && (forall h | h in rest :: rest[h] == owner[h])
  {
    hide Strip;
    var (kept, rest) := Strip(sorted, owner, node);
    forall h ensures Count(kept, h) == Survivals(sorted, owner, node, h) {
      StripCounts(sorted, owner, node, h);
    }
    StripOwner(sorted, owner, node);
    assert forall h :: h in sorted <==> Count(sorted, h) > 0;
  }

  lemma {:induction false} StripSorted(sorted: seq<nat>, owner: map<nat, NodeId>, node: NodeId)
    requires Sorted(sorted)
    ensures Sorted(Strip(sorted, owner, node).0)
    ensures forall h | h in Strip(sorted, owner, node).0 :: h in sorted
    decreases |sorted|
  {
    if sorted != [] {
      var first := sorted[0];
      if OwnerOf(owner, first) == node {
        StripSorted(sorted[1..], owner - {first}, node);
      } else {
        StripSorted(sorted[1..], owner, node);
        SortedCons(first, Strip(sorted[1..], owner, node).0);
      }
    }
  }

  /** Adding keeps the ring well-formed as long as no two virtual keys collide. */
  lemma AddedWellFormed(hk: KeyHash, st: RingState, node: NodeId)
    requires WellFormed(hk, st) && CollisionFree(hk, st.nodes + {node})
    ensures WellFormed(hk, Added(hk, st, node))
  {
    if node !in st.nodes {
      NewPositionsFree(hk, st, node);
      AddedPlaced(hk, st, node);
      AddedOwners(hk, st, node);
    }
  }

  lemma AddedOwners(hk: KeyHash, st: RingState, node: NodeId)
    requires WellFormed(hk, st) && node !in st.nodes && forall h | h in Positions(hk, node) :: h !in st.owner
    ensures Owned(hk, Added(hk, st, node))
  {
    var st' := Added(hk, st, node);
    forall n, h | n in st'.nodes && h in Positions(hk, n) ensures h in st'.owner && st'.owner[h] == n {
      assert n == node || n in st.nodes;
    }
  }

  lemma NewPositionsFree(hk: KeyHash, st: RingState, node: NodeId)
    requires WellFormed(hk, st) && CollisionFree(hk, st.nodes + {node}) && node !in st.nodes
    ensures NoDuplicates(Positions(hk, node))
    ensures forall h | h in Positions(hk, node) :: h !in st.owner
  {
    CollisionFreePositions(hk, st.nodes + {node}, node);
    forall h, n | h in Positions(hk, node) && n in st.nodes ensures h !in Positions(hk, n) {
      assert n in st.nodes + {node};
    }
  }

  lemma AddedMembers(hk: KeyHash, st: RingState, node: NodeId)
    requires node !in st.nodes
    ensures forall h :: h in Added(hk, st, node).sorted <==> h in st.sorted || h in Positions(hk, node)
  {
    forall h ensures h in Added(hk, st, node).sorted <==> h in st.sorted || h in Positions(hk, node) {
      CountAppend(st.sorted, Positions(hk, node), h);
      assert Count(Added(hk, st, node).sorted, h) == Count(st.sorted + Positions(hk, node), h);
    }
  }

  /** When the new positions are distinct and all free, adding just puts them in their place. */
  lemma AddedPlaced(hk: KeyHash, st: RingState, node: NodeId)
    requires node !in st.nodes && Placed(st)
    requires NoDuplicates(Positions(hk, node)) && forall h | h in Positions(hk, node) :: h !in st.owner
    ensures Placed(Added(hk, st, node))
  {
    var ps, sorted' := Positions(hk, node), Added(hk, st, node).sorted;
    CountsSingle(st.sorted);
    CountsSingle(ps);
    forall h ensures Count(sorted', h) == Count(st.sorted, h) + Count(ps, h) <= 1 {
      CountAppend(st.sorted, ps, h);
    }
    CountsSingle(sorted');
    AddedMembers(hk, st, node);
  }

  lemma RemovedWellFormed(hk: KeyHash, st: RingState, node: NodeId)
    requires WellFormed(hk, st)
    ensures WellFormed(hk, Removed(st, node))
  {
    if node in st.nodes {
      StripSorted(st.sorted, st.owner, node);
      StripOwner(st.sorted, st.owner, node);
      StripKeepsOthers(st, node);
      assert Placed(Removed(st, node));
      assert Owned(hk, Removed(st, node));
    }
  }

  lemma StripKeepsOthers(st: RingState, node: NodeId)
    requires NoDuplicates(st.sorted) && forall h :: h in st.owner <==> h in st.sorted
    ensures var kept := Strip(st.sorted, st.owner, node).0;
            && NoDuplicates(kept)
            && forall h :: h in kept <==> h in st.sorted && st.owner[h] != node
  {
    var kept := Strip(st.sorted, st.owner, node).0;
    CountsSingle(st.sorted);
    forall h ensures Count(kept, h) == if h in st.sorted && st.owner[h] != node then 1 else 0 {
      StripCounts(st.sorted, st.owner, node, h);
      assert Count(st.sorted, h) == if h in st.sorted then 1 else 0;
    }
    CountsSingle(kept);
    forall h ensures h in kept <==> h in st.sorted && st.owner[h] != node {
      assert Count(kept, h) > 0 <==> h in kept;
    }
  }

  datatype Event = Add(node: NodeId) | Remove(node: NodeId)

  function Replayed(hk: KeyHash, st: RingState, events: seq<Event>): RingState {
    if events == [] then st else
      var before := Replayed(hk, st, events[..|events| - 1]);
      match events[|events| - 1]
      case Add(n) => Added(hk, before, n)
      case Remove(n) => Removed(before, n)
  }

  function Named(events: seq<Event>): set<NodeId> {
    set e | e in events :: e.node
  }

  /** The nodes on the ring after a history. */
  function Present(hk: KeyHash, st: RingState, events: seq<Event>): set<NodeId> {
    Replayed(hk, st, events).nodes
  }

  /** Who is on the ring after a history: whoever was named last by an addition, or was there and never removed. */
  lemma {:induction false} ReplayedNodes(hk: KeyHash, st: RingState, events: seq<Event>, node: NodeId)
    ensures Present(hk, st, events) == Replayed(hk, st, events).nodes
    ensures node in Replayed(hk, st, events).nodes
            <==> || (node in st.nodes && Remove(node) !in events)
                 || exists i :: 0 <= i < |events| && events[i] == Add(node) && Remove(node) !in events[i + 1..]
    decreases |events|
  {
    hide Added, Removed;
    if events != [] {
      var init, last := events[..|events| - 1], events[|events| - 1];
      ReplayedNodes(hk, st, init, node);
      ReplayedOnce(hk, Replayed(hk, st, init), last, node);
      LaterRemoved(events, node);
    }
  }

  lemma ReplayedOnce(hk: KeyHash, st: RingState, event: Event, node: NodeId)
    ensures node in (match event case Add(n) => Added(hk, st, n) case Remove(n) => Removed(st, n)).nodes
            <==> event == Add(node) || (node in st.nodes && event != Remove(node))
  {}

  lemma LaterRemoved(events: seq<Event>, node: NodeId)
    requires events != []
    ensures var init, last := events[..|events| - 1], events[|events| - 1];
            (exists i :: 0 <= i < |events| && events[i] == Add(node) && Remove(node) !in events[i + 1..])
            <==> || last == Add(node)
                 || (last != Remove(node)
                     && exists i :: 0 <= i < |init| && init[i] == Add(node) && Remove(node) !in init[i + 1..])
  {
    var init, last := events[..|events| - 1], events[|events| - 1];
    if i :| 0 <= i < |init| && init[i] == Add(node) && Remove(node) !in init[i + 1..] && last != Remove(node) {
      assert events[i + 1..] == init[i + 1..] + [last] && events[i] == Add(node);
    }
    if i :| 0 <= i < |init| && events[i] == Add(node) && Remove(node) !in events[i + 1..] {
      assert events[i + 1..] == init[i + 1..] + [last] && init[i] == Add(node);
      assert last in events[i + 1..];
    }
    if last == Add(node) {
      assert events[|init| + 1..] == [];
    }
  }

  /** Whatever the interleaving of calls, the ring stays an exact image of its set of nodes. */
  lemma {:induction false} ReplayedWellFormed(hk: KeyHash, st: RingState, events: seq<Event>)
    requires WellFormed(hk, st) && CollisionFree(hk, st.nodes + Named(events))
    ensures WellFormed(hk, Replayed(hk, st, events))
    ensures Replayed(hk, st, events).nodes <= st.nodes + Named(events)
    decreases |events|
  {
    if events != [] {
      var init, last := events[..|events| - 1], events[|events| - 1];
      assert forall e :: e in events <==> e in init || e == last;
      assert Named(events) == Named(init) + {last.node};
      ReplayedWellFormed(hk, st, init);
      var before := Replayed(hk, st, init);
      match last
      case Add(n) => AddedWellFormed(hk, before, n);
      case Remove(n) => RemovedWellFormed(hk, before, n);
    }
  }

  /** Two histories that end with the same nodes end with the same ring, so every lookup agrees. */
  lemma SameNodesSameRing(hk: KeyHash, one: seq<Event>, two: seq<Event>)
    requires CollisionFree(hk, Named(one) + Named(two))
    requires Replayed(hk, EMPTY_RING, one).nodes == Replayed(hk, EMPTY_RING, two).nodes
    ensures Replayed(hk, EMPTY_RING, one) == Replayed(hk, EMPTY_RING, two)
  {
    assert EMPTY_RING.nodes + Named(one) == Named(one) && EMPTY_RING.nodes + Named(two) == Named(two);
    ReplayedWellFormed(hk, EMPTY_RING, one);
    ReplayedWellFormed(hk, EMPTY_RING, two);
    HistoryIndependent(hk, Replayed(hk, EMPTY_RING, one), Replayed(hk, EMPTY_RING, two));
  }

  /**
   Adding a new node and removing it again restores the ring exactly when none of its positions was
   taken and no two of them coincide (the latter does not matter for the empty node ID).
   */
  lemma AddRemoveRestoresIff(hk: KeyHash, st: RingState, node: NodeId)
    requires WellFormed(hk, st) && node !in st.nodes
    ensures Removed(Added(hk, st, node), node) == st
            <==> (forall h | h in Positions(hk, node) :: h !in st.owner)
                 && (node == "" || NoDuplicates(Positions(hk, node)))
  {
    var ps, mid := Positions(hk, node), Added(hk, st, node);
    AddThenStripOwner(hk, st, node);
    if forall h | h in ps :: h !in st.owner {
      assert Removed(mid, node).owner == st.owner;
      AddThenStripSorted(hk, st, node);
    } else {
      var h :| h in ps && h in st.owner;
      assert h !in Removed(mid, node).owner;
    }
  }

  lemma {:induction false} ConstantPositions(hk: KeyHash, node: NodeId, count: nat)
    requires forall key :: hk(key) == 0
    ensures forall h :: h in PositionsUpTo(hk, node, count) <==> h == 0 && count > 0
  {
    if count > 0 {
      ConstantPositions(hk, node, count - 1);
    }
  }

  /** The extreme case: if all keys collide, a node that joins and leaves takes every owner with it. */
  lemma CollisionLosesOwners(hk: KeyHash, a: NodeId, b: NodeId)
    requires (forall key :: hk(key) == 0) && a != b && b != ""
    ensures var st := Removed(Added(hk, Added(hk, EMPTY_RING, a), b), b);
            st.nodes == {a} && st.owner == map[] && 0 in st.sorted
  {
    var one := Added(hk, EMPTY_RING, a);
    ConstantPositions(hk, a, VIRTUAL_NODES_PER_NODE);
    ConstantPositions(hk, b, VIRTUAL_NODES_PER_NODE);
    AddedMembers(hk, EMPTY_RING, a);
    CollisionLeavesPositions(hk, one, b);
    CollisionTakesOwners(hk, one, b);
  }

  lemma CollisionTakesOwners(hk: KeyHash, st: RingState, b: NodeId)
    requires b !in st.nodes && (forall h | h in st.owner :: h in Positions(hk, b))
    ensures Removed(Added(hk, st, b), b).owner == map[]
  {
    var two := Added(hk, st, b);
    AddedMembers(hk, st, b);
    StripOwner(two.sorted, two.owner, b);
    var rest := Removed(two, b).owner;
    forall h ensures h !in rest {
      assert h in two.owner ==> h in Positions(hk, b) && two.owner[h] == b;
    }
  }

  lemma CollisionLeavesPositions(hk: KeyHash, st: RingState, b: NodeId)
    requires b !in st.nodes && 0 in st.sorted && 0 in Positions(hk, b) && b != ""
    ensures 0 in Removed(Added(hk, st, b), b).sorted
  {
    var two := Added(hk, st, b);
    CountAppend(st.sorted, Positions(hk, b), 0);
    StripCounts(two.sorted, two.owner, b, 0);
  }

  /** Every position has an owner, and it is not the node. */
  ghost predicate Foreign(st: RingState, node: NodeId) {
    && node !in st.nodes && Sorted(st.sorted)
    && forall h :: (h in st.owner <==> h in st.sorted) && (h in st.owner ==> st.owner[h] != node)
  }

  lemma AddThenStripOwner(hk: KeyHash, st: RingState, node: NodeId)
    requires Foreign(st, node)
    ensures var rest := Removed(Added(hk, st, node), node).owner;
            && (forall h :: h in rest <==> h in st.owner && h !in Positions(hk, node))
            && (forall h | h in rest :: rest[h] == st.owner[h])
  {
    var mid := Added(hk, st, node);
    StripOwner(mid.sorted, mid.owner, node);
    AddedMembers(hk, st, node);
    ClaimThenStrip(st.owner, Positions(hk, node), node, mid.sorted, Strip(mid.sorted, mid.owner, node).1);
  }

  lemma ClaimThenStrip(owner: map<nat, NodeId>, ps: seq<nat>, node: NodeId, sorted: seq<nat>, rest: map<nat, NodeId>)
    requires forall h | h in owner :: owner[h] != node
    requires forall h :: h in sorted <==> h in owner || h in ps
    requires var claimed := owner + Claim(ps, node);
             && (forall h :: h in rest <==> h in claimed && !(h in sorted && claimed[h] == node))
             && (forall h | h in rest :: rest[h] == claimed[h])
    ensures forall h :: h in rest <==> h in owner && h !in ps
    ensures forall h | h in rest :: rest[h] == owner[h]
  {}

  lemma AddThenStripCount(hk: KeyHash, st: RingState, node: NodeId, h: nat)
    requires Foreign(st, node) && forall p | p in Positions(hk, node) :: p !in st.owner
    ensures Count(Removed(Added(hk, st, node), node).sorted, h)
            == if h !in Positions(hk, node) then Count(st.sorted, h)
               else if node == "" then 0 else Count(Positions(hk, node), h) - 1
  {
    var mid := Added(hk, st, node);
    StripCounts(mid.sorted, mid.owner, node, h);
    CountAppend(st.sorted, Positions(hk, node), h);
  }

  lemma AddThenStripSorted(hk: KeyHash, st: RingState, node: NodeId)
    requires Foreign(st, node) && forall h | h in Positions(hk, node) :: h !in st.owner
    ensures Removed(Added(hk, st, node), node).sorted == st.sorted
            <==> node == "" || NoDuplicates(Positions(hk, node))
  {
    var ps, kept := Positions(hk, node), Removed(Added(hk, st, node), node).sorted;
    CountsSingle(ps);
    if node == "" || NoDuplicates(ps) {
      forall h ensures Count(kept, h) == Count(st.sorted, h) {
        AddThenStripCount(hk, st, node, h);
      }
      StripSorted(Added(hk, st, node).sorted, Added(hk, st, node).owner, node);
      SortedUnique(kept, st.sorted);
    } else {
      var h :| Count(ps, h) > 1;
      AddThenStripCount(hk, st, node, h);
    }
  }
}
