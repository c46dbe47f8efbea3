/**
 The theory of "the n nearest nodes": given a rank that tells every node of a set apart, the nodes
 listed by increasing rank, and what that list does when a node joins or leaves.
 The hash ring is shown to compute a prefix of this list, with the clockwise distance as the rank.
 */
module Preference {
  import opened Lists

  type NodeId = string
  type Rank = NodeId -> nat

  ghost predicate Injective(rank: Rank, nodes: set<NodeId>) {
    forall x, y | x in nodes && y in nodes :: rank(x) == rank(y) ==> x == y
  }

  lemma NearestExists(rank: Rank, nodes: set<NodeId>)
    requires nodes != {}
    ensures exists x :: x in nodes && forall y | y in nodes :: rank(x) <= rank(y)
    decreases |nodes|
  {
    var x :| x in nodes;
    if nodes - {x} != {} {
      NearestExists(rank, nodes - {x});
      var z :| z in nodes - {x} && forall y | y in nodes - {x} :: rank(z) <= rank(y);
      var m := if rank(x) <= rank(z) then x else z;
      assert m in nodes && forall y | y in nodes :: rank(m) <= rank(y);
    } else {
      assert nodes == {x};
    }
  }

  ghost function Nearest(rank: Rank, nodes: set<NodeId>): (x: NodeId)
    requires nodes != {}
    ensures x in nodes && forall y | y in nodes :: rank(x) <= rank(y)
  {
    NearestExists(rank, nodes);
    var x :| x in nodes && forall y | y in nodes :: rank(x) <= rank(y);
    x
  }

  /** All the nodes, nearest first. */
  ghost function Order(rank: Rank, nodes: set<NodeId>): (o: seq<NodeId>)
    ensures |o| == |nodes|
    decreases |nodes|
  {
    if nodes == {} then [] else
      var x := Nearest(rank, nodes);
      [x] + Order(rank, nodes - {x})
  }

  /** `Order` lists exactly the nodes of the set. */
  lemma {:induction false} OrderMembers(rank: Rank, nodes: set<NodeId>)
    ensures forall x :: x in Order(rank, nodes) <==> x in nodes
    decreases |nodes|
  {
    if nodes != {} {
      OrderMembers(rank, nodes - {Nearest(rank, nodes)});
    }
  }

  /** The nodes that stand strictly before `x`. */
  ghost function Closer(rank: Rank, nodes: set<NodeId>, x: NodeId): set<NodeId> {
    set y | y in nodes && rank(y) < rank(x)
  }

  /** `Order` lists the nodes by strictly increasing rank, hence each of them once. */
  lemma {:induction false} OrderIncreases(rank: Rank, nodes: set<NodeId>)
    requires Injective(rank, nodes)
    ensures Increasing(rank, Order(rank, nodes))
    decreases |nodes|
  {
    if nodes != {} {
      var x := Nearest(rank, nodes);
      OrderIncreases(rank, nodes - {x});
      OrderMembers(rank, nodes - {x});
      IncreasingCons(rank, x, Order(rank, nodes - {x}));
    }
  }

  ghost predicate Increasing(rank: Rank, o: seq<NodeId>) {
    forall i, j | 0 <= i < j < |o| :: rank(o[i]) < rank(o[j])
  }

  lemma IncreasingCons(rank: Rank, x: NodeId, rest: seq<NodeId>)
    requires Increasing(rank, rest) && forall y | y in rest :: rank(x) < rank(y)
    ensures Increasing(rank, [x] + rest)
  {}

  lemma IncreasingBefore(rank: Rank, o: seq<NodeId>, i: nat, y: NodeId)
    requires Increasing(rank, o) && i < |o| && y in o
    ensures rank(y) < rank(o[i]) <==> y in o[..i]
  {
    var j :| 0 <= j < |o| && o[j] == y;
    if j < i {
      assert o[..i][j] == y;
    }
  }

  lemma OrderNoDuplicates(rank: Rank, nodes: set<NodeId>)
    requires Injective(rank, nodes)
    ensures NoDuplicates(Order(rank, nodes))
  {
    OrderIncreases(rank, nodes);
  }

  /** The position of a node in the list is the number of nodes closer than it. */
  lemma PositionCountsCloser(rank: Rank, nodes: set<NodeId>, i: nat)
    requires Injective(rank, nodes) && i < |Order(rank, nodes)|
    ensures Order(rank, nodes)[i] in nodes
    ensures |Closer(rank, nodes, Order(rank, nodes)[i])| == i
  {
    var o := Order(rank, nodes);
    OrderIncreases(rank, nodes);
    OrderMembers(rank, nodes);
    forall y | y in nodes ensures rank(y) < rank(o[i]) <==> y in o[..i] {
      IncreasingBefore(rank, o, i, y);
    }
    assert Closer(rank, nodes, o[i]) == Elements(o[..i]);
    OrderNoDuplicates(rank, nodes);
    ElementsSize(o[..i]);
  }

  /** A node is among the first `n` exactly when it is present and fewer than `n` nodes are closer. */
  lemma AmongFirst(rank: Rank, nodes: set<NodeId>, n: nat, x: NodeId)
    requires Injective(rank, nodes)
    ensures x in Prefix(Order(rank, nodes), n) <==> x in nodes && |Closer(rank, nodes, x)| < n
  {
    OrderNoDuplicates(rank, nodes);
    OrderMembers(rank, nodes);
    var o := Order(rank, nodes);
    if x in nodes {
      var i :| 0 <= i < |o| && o[i] == x;
      PositionCountsCloser(rank, nodes, i);
      if i < n {
        assert Prefix(o, n)[i] == x;
      } else {
        assert x !in o[..n];
      }
    }
  }

  lemma NearestOfFewer(rank: Rank, nodes: set<NodeId>, d: NodeId)
    requires Injective(rank, nodes) && nodes != {} && Nearest(rank, nodes) != d
    ensures nodes - {d} != {} && Nearest(rank, nodes - {d}) == Nearest(rank, nodes)
  {
    assert Nearest(rank, nodes) in nodes - {d};
    assert Nearest(rank, nodes - {d}) in nodes;
  }

  lemma OrderUnfolds(rank: Rank, nodes: set<NodeId>)
    requires nodes != {}
    ensures var x := Nearest(rank, nodes); Order(rank, nodes) == [x] + Order(rank, nodes - {x})
  {}

  /** Taking a node out of the set takes it out of the list and changes nothing else. */
  lemma {:induction false} OrderWithout(rank: Rank, nodes: set<NodeId>, d: NodeId)
    requires Injective(rank, nodes)
    ensures Order(rank, nodes - {d}) == Delete(Order(rank, nodes), d)
    decreases |nodes|
  {
    OrderMembers(rank, nodes - {d});
    OrderMembers(rank, nodes);
    if d !in nodes {
      DeleteAbsent(Order(rank, nodes), d);
      assert nodes - {d} == nodes;
    } else {
      var x := Nearest(rank, nodes);
      var rest := nodes - {x};
      if x == d {
        DeleteAbsent(Order(rank, rest), d);
      } else {
        OrderWithout(rank, rest, d);
        OrderWithoutFurther(rank, nodes, d);
      }
      DeleteCons(x, Order(rank, rest), d);
      OrderUnfolds(rank, nodes);
    }
  }

  lemma OrderWithoutFurther(rank: Rank, nodes: set<NodeId>, d: NodeId)
    requires Injective(rank, nodes) && nodes != {} && Nearest(rank, nodes) != d
    ensures var x := Nearest(rank, nodes); Order(rank, nodes - {d}) == [x] + Order(rank, nodes - {x} - {d})
  {
    NearestOfFewer(rank, nodes, d);
    OrderUnfolds(rank, nodes - {d});
    assert nodes - {d} - {Nearest(rank, nodes)} == nodes - {Nearest(rank, nodes)} - {d};
  }

  /** Leave: the first n afterwards are the first n + 1 before, with the leaver deleted, cut to n. */
  lemma Leave(rank: Rank, nodes: set<NodeId>, d: NodeId, n: nat)
    requires Injective(rank, nodes)
    ensures Prefix(Order(rank, nodes - {d}), n) == Prefix(Delete(Prefix(Order(rank, nodes), n + 1), d), n)
  {
    OrderNoDuplicates(rank, nodes);
    OrderWithout(rank, nodes, d);
    DeleteInPrefix(Order(rank, nodes), d, n);
  }

  lemma CloserThanItself(rank: Rank, nodes: set<NodeId>, x: NodeId)
    ensures Closer(rank, nodes + {x}, x) == Closer(rank, nodes, x)
  {}

  /** Join: the newcomer is inserted at the one place its rank gives it. */
  lemma Join(rank: Rank, nodes: set<NodeId>, x: NodeId)
    requires Injective(rank, nodes + {x}) && x !in nodes
    ensures Order(rank, nodes + {x}) == InsertAt(Order(rank, nodes), Place(rank, nodes, x), x)
  {
    var o, o' := Order(rank, nodes), Order(rank, nodes + {x});
    OrderNoDuplicates(rank, nodes + {x});
    OrderMembers(rank, nodes + {x});
    assert x in o';
    var p :| 0 <= p < |o'| && o'[p] == x;
    OrderWithout(rank, nodes + {x}, x);
    assert nodes + {x} - {x} == nodes;
    InsertDeleted(o', p);
    PositionCountsCloser(rank, nodes + {x}, p);
    CloserThanItself(rank, nodes, x);
  }

  /** The position a node takes when it joins: behind every closer node. */
  ghost function Place(rank: Rank, nodes: set<NodeId>, x: NodeId): (p: nat)
    ensures p <= |nodes|
  {
    SubsetSize(Closer(rank, nodes, x), nodes);
    |Closer(rank, nodes, x)|
  }

  /** Join, cut to n: nothing changes, or the newcomer is inserted and the last entry falls out. */
  lemma JoinPrefix(rank: Rank, nodes: set<NodeId>, x: NodeId, n: nat)
    requires Injective(rank, nodes + {x}) && x !in nodes
    ensures var before, p := Prefix(Order(rank, nodes), n), Place(rank, nodes, x);
            Prefix(Order(rank, nodes + {x}), n) == if p < n then Prefix(InsertAt(before, p, x), n) else before
  {
    Join(rank, nodes, x);
    InsertInPrefix(Order(rank, nodes), Place(rank, nodes, x), x, n);
  }

  /** Shrinking the set never pushes a survivor out of the first n. */
  lemma SurvivorStays(rank: Rank, nodes: set<NodeId>, fewer: set<NodeId>, n: nat, s: NodeId)
    requires Injective(rank, nodes) && fewer <= nodes
    requires s in Prefix(Order(rank, nodes), n) && s in fewer
    ensures s in Prefix(Order(rank, fewer), n)
  {
    AmongFirst(rank, nodes, n, s);
    AmongFirst(rank, fewer, n, s);
    SubsetSize(Closer(rank, fewer, s), Closer(rank, nodes, s));
  }

  // ---------------------------------------------------------------------------------------------
  // Recovering the order from a walk
  // ---------------------------------------------------------------------------------------------

  /** The entries of a walk at their first occurrence. */
  function Distinct(walk: seq<NodeId>): seq<NodeId> {
    if walk == [] then [] else
      var init, last := walk[..|walk| - 1], walk[|walk| - 1];
      if last in init then Distinct(init) else Distinct(init) + [last]
  }

  lemma {:induction false} DistinctMembers(walk: seq<NodeId>)
    ensures Elements(Distinct(walk)) == Elements(walk)
    ensures NoDuplicates(Distinct(walk))
  {
    if walk != [] {
      var init, last := walk[..|walk| - 1], walk[|walk| - 1];
      DistinctMembers(init);
      assert walk == init + [last];
      assert last in Distinct(init) ==> last in Elements(Distinct(init));
      assert last in Elements(init) <==> last in init;
      assert Elements(walk) == Elements(init) + {last};
      assert Elements(Distinct(init) + [last]) == Elements(Distinct(init)) + {last};
    }
  }

  /** A walk that meets every node, and none before all nearer ones have been met. */
  ghost predicate Visits(rank: Rank, nodes: set<NodeId>, walk: seq<NodeId>) {
    && (forall x :: x in walk <==> x in nodes)
    && (forall i | 0 <= i < |walk| :: NearestLeft(rank, nodes, walk, i))
  }

  /** No node not met before step i is nearer than the one met there. */
  ghost predicate NearestLeft(rank: Rank, nodes: set<NodeId>, walk: seq<NodeId>, i: nat)
    requires i < |walk|
  {
    forall y | y in nodes && y !in walk[..i] :: rank(walk[i]) <= rank(y)
  }

  lemma DistinctNext(walk: seq<NodeId>, i: nat)
    requires i < |walk|
    ensures walk[i] in walk[..i] <==> walk[i] in Elements(walk[..i])
    ensures var known := walk[i] in Elements(walk[..i]);
            && Distinct(walk[..i + 1]) == (if known then Distinct(walk[..i]) else Distinct(walk[..i]) + [walk[i]])
            && Elements(walk[..i + 1]) == (if known then Elements(walk[..i]) else Elements(walk[..i]) + {walk[i]})
  {
    var more := walk[..i + 1];
    assert more == walk[..i] + [walk[i]];
    assert more[..|more| - 1] == walk[..i];
  }

  /** What a walk has met so far is the beginning of the order. */
  lemma WalkFollowsOrder(rank: Rank, nodes: set<NodeId>, walk: seq<NodeId>, i: nat)
    requires Injective(rank, nodes) && Visits(rank, nodes, walk) && i <= |walk|
    ensures Leads(rank, nodes, Distinct(walk[..i]), Elements(walk[..i]))
  {
    NothingLeads(rank, nodes, walk);
    var k := 0;
    while k < i
      invariant 0 <= k <= i && Leads(rank, nodes, Distinct(walk[..k]), Elements(walk[..k]))
    {
      WalkStep(rank, nodes, walk, k);
      k := k + 1;
    }
  }

  /** The list `met` is the beginning of the order, and `seen` are its members. */
  ghost predicate Leads(rank: Rank, nodes: set<NodeId>, met: seq<NodeId>, seen: set<NodeId>) {
    Order(rank, nodes) == met + Order(rank, nodes - seen)
  }

  lemma NothingLeads(rank: Rank, nodes: set<NodeId>, walk: seq<NodeId>)
    ensures Leads(rank, nodes, Distinct(walk[..0]), Elements(walk[..0]))
  {
    assert nodes - {} == nodes;
  }

  lemma WalkStep(rank: Rank, nodes: set<NodeId>, walk: seq<NodeId>, i: nat)
    requires Injective(rank, nodes) && Visits(rank, nodes, walk) && i < |walk|
    requires Leads(rank, nodes, Distinct(walk[..i]), Elements(walk[..i]))
    ensures Leads(rank, nodes, Distinct(walk[..i + 1]), Elements(walk[..i + 1]))
  {
    DistinctNext(walk, i);
    if walk[i] !in walk[..i] {
      NextIsNearest(rank, nodes, walk, i);
      OrderAfter(rank, nodes, Distinct(walk[..i]), Elements(walk[..i]), walk[i]);
    }
  }

  lemma OrderAfter(rank: Rank, nodes: set<NodeId>, met: seq<NodeId>, seen: set<NodeId>, x: NodeId)
    requires Leads(rank, nodes, met, seen) && x in nodes - seen && x == Nearest(rank, nodes - seen)
    ensures Leads(rank, nodes, met + [x], seen + {x})
  {
    assert nodes - (seen + {x}) == nodes - seen - {x};
    OrderUnfolds(rank, nodes - seen);
    AppendCons(met, x, Order(rank, nodes - seen - {x}));
  }

  lemma NextIsNearest(rank: Rank, nodes: set<NodeId>, walk: seq<NodeId>, i: nat)
    requires Injective(rank, nodes) && Visits(rank, nodes, walk) && i < |walk| && walk[i] !in walk[..i]
    ensures walk[i] in nodes - Elements(walk[..i])
    ensures Nearest(rank, nodes - Elements(walk[..i])) == walk[i]
  {
    var rest := nodes - Elements(walk[..i]);
    assert walk[i] in walk && NearestLeft(rank, nodes, walk, i);
    assert walk[i] in rest;
    var z := Nearest(rank, rest);
    assert z in nodes && z !in walk[..i] && rank(walk[i]) <= rank(z);
  }

  /** Stopping a walk after `n` distinct nodes, or when it has met all of them, gives the first `n` of the order. */
  lemma StoppedWalk(rank: Rank, nodes: set<NodeId>, walk: seq<NodeId>, i: nat, n: nat)
    requires Injective(rank, nodes) && Visits(rank, nodes, walk) && i <= |walk|
    requires var met := Distinct(walk[..i]);
             0 < n && |met| <= n && (i == |walk| || |met| == n || |met| >= |nodes|)
    ensures Distinct(walk[..i]) == Prefix(Order(rank, nodes), n)
  {
    var met := Distinct(walk[..i]);
    WalkFollowsOrder(rank, nodes, walk, i);
    if |met| == n {
      PrefixOfAppend(met, Order(rank, nodes - Elements(walk[..i])), n);
    } else {
      AllMet(nodes, walk, i);
      AppendNothing(met);
      PrefixShort(met, n);
    }
  }

  lemma AllMet(nodes: set<NodeId>, walk: seq<NodeId>, i: nat)
    requires (forall x :: x in walk <==> x in nodes) && i <= |walk|
    requires i == |walk| || |Distinct(walk[..i])| >= |nodes|
    ensures nodes - Elements(walk[..i]) == {}
  {
    if i == |walk| {
      assert walk[..i] == walk;
    } else {
      var met := Distinct(walk[..i]);
      DistinctMembers(walk[..i]);
      ElementsSize(met);
      SubsetSize(Elements(met), nodes);
    }
  }
}
