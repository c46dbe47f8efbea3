/** What `sort.Slice` and `sort.Search` give on a slice of numbers. */
module Sorting {
  import opened Lists

  ghost predicate Sorted(s: seq<nat>) {
    forall i, j | 0 <= i < j < |s| :: s[i] <= s[j]
  }

  function Insert(s: seq<nat>, x: nat): (r: seq<nat>)
    ensures forall y :: Count(r, y) == Count(s, y) + if x == y then 1 else 0
  {
    if s == [] || x <= s[0] then
      assert ([x] + s)[1..] == s;
      [x] + s
    else
      var r := Insert(s[1..], x);
      assert ([s[0]] + r)[1..] == r;
      [s[0]] + r
  }

  lemma SortedFirst(s: seq<nat>)
    requires Sorted(s) && s != []
    ensures Sorted(s[1..]) && forall y | y in s :: s[0] <= y
  {}

  lemma SortedCons(x: nat, s: seq<nat>)
    requires Sorted(s) && forall y | y in s :: x <= y
    ensures Sorted([x] + s)
  {
    assert forall j | 0 <= j < |s| :: s[j] in s;
  }

  lemma InsertMembers(s: seq<nat>, x: nat)
    ensures forall y | y in Insert(s, x) :: y == x || y in s
  {
    forall y | y in Insert(s, x) ensures y == x || y in s {
      assert Count(Insert(s, x), y) > 0;
    }
  }

  lemma {:induction false} InsertSorted(s: seq<nat>, x: nat)
    requires Sorted(s)
    ensures Sorted(Insert(s, x))
  {
    hide Sorted;
    if s == [] {
      OneSorted(x);
    } else if x <= s[0] {
      SortedFirst(s);
      SortedCons(x, s);
    } else {
      SortedFirst(s);
      InsertSorted(s[1..], x);
      InsertMembers(s[1..], x);
      assert forall y | y in s[1..] :: y in s;
      SortedCons(s[0], Insert(s[1..], x));
    }
  }

  lemma OneSorted(x: nat)
    ensures Sorted([x]) && [x] + [] == [x]
  {}

  function Sort(s: seq<nat>): (r: seq<nat>)
    ensures forall y :: Count(r, y) == Count(s, y)
    ensures Sorted(r)
  {
    if s == [] then [] else
      InsertSorted(Sort(s[1..]), s[0]);
      Insert(Sort(s[1..]), s[0])
  }

  lemma SameLeast(s: seq<nat>, t: seq<nat>)
    requires Sorted(s) && Sorted(t) && s != [] && forall y :: Count(s, y) == Count(t, y)
    ensures t != [] && s[0] == t[0]
  {
    assert Count(t, s[0]) > 0;
    assert Count(s, t[0]) > 0;
    assert s[0] in t && t[0] in s;
  }

  /** Only one sorted list has given contents, so it does not matter which sorting algorithm runs. */
  lemma {:induction false} SortedUnique(s: seq<nat>, t: seq<nat>)
    requires Sorted(s) && Sorted(t) && forall y :: Count(s, y) == Count(t, y)
    ensures s == t
  {
    if s == [] {
      EmptyCounts(t);
    } else {
      SameLeast(s, t);
      forall y ensures Count(s[1..], y) == Count(t[1..], y) {
        assert Count(s, y) == Count(t, y);
      }
      SortedUnique(s[1..], t[1..]);
    }
  }

  /** Two sorted lists without repetition and with the same members are the same list. */
  lemma SortedSetUnique(s: seq<nat>, t: seq<nat>)
    requires Sorted(s) && Sorted(t) && NoDuplicates(s) && NoDuplicates(t)
    requires forall x :: x in s <==> x in t
    ensures s == t
  {
    CountsSingle(s);
    CountsSingle(t);
    forall x ensures Count(s, x) == Count(t, x) {
      assert x in s <==> x in t;
    }
    SortedUnique(s, t);
  }

  /** Binary search for the first entry that is at least `x`. */
  method Search(s: seq<nat>, x: nat) returns (idx: nat)
    requires Sorted(s)
    ensures idx <= |s|
    ensures forall i | 0 <= i < idx :: s[i] < x
    ensures forall i | idx <= i < |s| :: x <= s[i]
  {
    var lo, hi := 0, |s|;
    while lo < hi
      invariant 0 <= lo <= hi <= |s|
      invariant forall i | 0 <= i < lo :: s[i] < x
      invariant forall i | hi <= i < |s| :: x <= s[i]
    {
      var mid := (lo + hi) / 2;
      if s[mid] < x {
        lo := mid + 1;
      } else {
        hi := mid;
      }
    }
    idx := lo;
  }
}
