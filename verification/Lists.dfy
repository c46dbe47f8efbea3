/** Finite sequences read as ordered lists without repetition. */
module Lists {

  ghost predicate NoDuplicates<T>(s: seq<T>) {
    forall i, j | 0 <= i < j < |s| :: s[i] != s[j]
  }

  function Elements<T>(s: seq<T>): set<T> {
    set x | x in s
  }

  /** The first `n` entries, or all of them when there are fewer; none when `n` is negative. */
  function Prefix<T>(s: seq<T>, n: int): seq<T> {
    if n <= 0 then [] else if n <= |s| then s[..n] else s
  }

  lemma PrefixOfPrefix<T>(s: seq<T>, m: int, n: int)
    requires m <= n
    ensures Prefix(Prefix(s, n), m) == Prefix(s, m)
  {}

  lemma PrefixShort<T>(s: seq<T>, n: int)
    requires |s| <= n
    ensures Prefix(s, n) == s
  {}

  lemma PrefixOfAppend<T>(s: seq<T>, t: seq<T>, n: nat)
    requires n <= |s|
    ensures Prefix(s + t, n) == Prefix(s, n)
    ensures n == |s| ==> Prefix(s, n) == s
  {}

  lemma PrefixSubset<T>(s: seq<T>, n: int)
    ensures forall x | x in Prefix(s, n) :: x in s
  {}

  lemma HeadTail<T>(s: seq<T>)
    requires s != []
    ensures s == [s[0]] + s[1..]
    ensures forall x :: x in s <==> x == s[0] || x in s[1..]
  {
    assert s == [s[0]] + s[1..];
  }

  lemma SplitAt<T>(s: seq<T>, p: nat)
    requires p < |s|
    ensures s == s[..p] + ([s[p]] + s[p + 1..])
  {}

  lemma AppendAssoc<T>(s: seq<T>, t: seq<T>, u: seq<T>)
    ensures (s + t) + u == s + (t + u)
  {}

  lemma AppendNothing<T>(s: seq<T>)
    ensures s + [] == s
  {}

  lemma AppendCons<T>(s: seq<T>, x: T, t: seq<T>)
    ensures s + ([x] + t) == (s + [x]) + t
  {}

  lemma PrefixNext<T>(s: seq<T>, i: nat)
    requires i < |s|
    ensures s[..i + 1] == s[..i] + [s[i]]
  {}

  /** Reading a list from position i on. */
  lemma SuffixNext<T>(s: seq<T>, i: nat)
    requires i < |s|
    ensures s[i..] != [] && s[i..][0] == s[i] && s[i..][1..] == s[i + 1..]
  {}

  lemma TakeDrop<T>(s: seq<T>, i: nat)
    requires i <= |s|
    ensures s == s[..i] + s[i..]
  {}

  lemma PrefixAll<T>(s: seq<T>)
    ensures s[..|s|] == s
  {}

  lemma PrefixMembers<T>(s: seq<T>, i: nat)
    requires i <= |s|
    ensures forall k | 0 <= k < i :: s[k] in s[..i]
  {
    forall k | 0 <= k < i ensures s[k] in s[..i] {
      assert s[..i][k] == s[k];
    }
  }

  /** The list with every occurrence of `x` taken out. */
  function Delete<T(==)>(s: seq<T>, x: T): seq<T> {
    if s == [] then [] else if s[0] == x then Delete(s[1..], x) else [s[0]] + Delete(s[1..], x)
  }

  lemma DeleteCons<T>(x: T, s: seq<T>, y: T)
    ensures Delete([x] + s, y) == if x == y then Delete(s, y) else [x] + Delete(s, y)
  {
    assert ([x] + s)[1..] == s;
  }

  lemma {:induction false} DeleteAbsent<T>(s: seq<T>, x: T)
    requires x !in s
    ensures Delete(s, x) == s
  {
    if s != [] {
      DeleteAbsent(s[1..], x);
    }
  }

  lemma {:induction false} DeleteAppend<T>(s: seq<T>, t: seq<T>, x: T)
    ensures Delete(s + t, x) == Delete(s, x) + Delete(t, x)
  {
    if s == [] {
      assert s + t == t;
    } else {
      assert (s + t)[1..] == s[1..] + t;
      DeleteAppend(s[1..], t, x);
    }
  }

  /** In a list without repetition, deleting a member closes up exactly one gap. */
  lemma DeleteAt<T>(s: seq<T>, p: nat)
    requires NoDuplicates(s) && p < |s|
    ensures Delete(s, s[p]) == s[..p] + s[p + 1..]
  {
    SplitAt(s, p);
    DeleteAppend(s[..p], [s[p]] + s[p + 1..], s[p]);
    DeleteCons(s[p], s[p + 1..], s[p]);
    DeleteAbsent(s[..p], s[p]);
    DeleteAbsent(s[p + 1..], s[p]);
  }

  /** The list with `x` put in at position `p`. */
  function InsertAt<T>(s: seq<T>, p: nat, x: T): seq<T>
    requires p <= |s|
  {
    s[..p] + [x] + s[p..]
  }

  lemma CutAround<T>(s: seq<T>, p: nat, n: nat)
    requires p <= n < |s|
    ensures s[..n + 1][..p] + s[..n + 1][p + 1..] == (s[..p] + s[p + 1..])[..n]
  {}

  lemma DeleteLength<T>(s: seq<T>, x: T)
    requires NoDuplicates(s)
    ensures |Delete(s, x)| == |s| - if x in s then 1 else 0
  {
    if x in s {
      var p :| 0 <= p < |s| && s[p] == x;
      DeleteAt(s, p);
    } else {
      DeleteAbsent(s, x);
    }
  }

  /** What deletion leaves of the first n stays in front, and at most one entry moves up behind it. */
  lemma DeleteKeepsFront<T>(s: seq<T>, x: T, n: nat)
    requires NoDuplicates(s)
    ensures Delete(Prefix(s, n), x) <= Prefix(Delete(s, x), n)
    ensures |Prefix(Delete(s, x), n)| <= |Delete(Prefix(s, n), x)| + 1
  {
    DeleteLength(Prefix(s, n), x);
    DeleteLength(s, x);
    if n < |s| {
      assert s == s[..n] + s[n..];
      DeleteAppend(s[..n], s[n..], x);
      var front := Delete(s[..n], x);
      assert Prefix(s, n) == s[..n];
      assert front <= Prefix(Delete(s, x), n);
    } else {
      assert Prefix(s, n) == s && Prefix(Delete(s, x), n) == Delete(s, x);
    }
  }

  /** Putting a deleted entry back where it was. */
  lemma InsertDeleted<T>(s: seq<T>, p: nat)
    requires NoDuplicates(s) && p < |s|
    ensures |Delete(s, s[p])| == |s| - 1
    ensures s == InsertAt(Delete(s, s[p]), p, s[p])
  {
    DeleteAt(s, p);
  }

  lemma CutDeleted<T>(s: seq<T>, p: nat, n: nat, all: seq<T>, front: seq<T>)
    requires p <= n < |s|
    requires all == s[..p] + s[p + 1..] && front == s[..n + 1][..p] + s[..n + 1][p + 1..]
    ensures Prefix(all, n) == Prefix(front, n)
  {
    CutAround(s, p, n);
    PrefixShort(front, n);
  }

  lemma CutKept<T>(s: seq<T>, n: nat, front: seq<T>, back: seq<T>)
    requires n < |s| && front == s[..n + 1]
    ensures Prefix(front + back, n) == Prefix(front, n)
  {
    PrefixOfAppend(front, back, n);
  }

  lemma PrefixPositions<T>(s: seq<T>, n: nat)
    requires n <= |s|
    ensures NoDuplicates(s) ==> NoDuplicates(s[..n])
    ensures s == s[..n] + s[n..]
    ensures Prefix(s, n) == s[..n]
  {}

  /** Deleting one entry and cutting to n looks only at the first n + 1 entries. */
  lemma DeleteInPrefix<T>(s: seq<T>, x: T, n: nat)
    requires NoDuplicates(s)
    ensures Prefix(Delete(s, x), n) == Prefix(Delete(Prefix(s, n + 1), x), n)
  {
    if n < |s| {
      PrefixPositions(s, n + 1);
      if x in s[..n + 1] {
        var p :| 0 <= p < n + 1 && s[..n + 1][p] == x;
        DeleteAt(s, p);
        DeleteAt(s[..n + 1], p);
        CutDeleted(s, p, n, Delete(s, x), Delete(s[..n + 1], x));
      } else {
        DeleteAppend(s[..n + 1], s[n + 1..], x);
        DeleteAbsent(s[..n + 1], x);
        CutKept(s, n, s[..n + 1], Delete(s[n + 1..], x));
      }
    }
  }

  /** Inserting one entry and cutting to n looks only at the first n entries. */
  lemma InsertInPrefix<T>(s: seq<T>, p: nat, x: T, n: nat)
    requires p <= |s|
    ensures p < n ==> p <= |Prefix(s, n)|
    ensures Prefix(InsertAt(s, p, x), n) == if p < n then Prefix(InsertAt(Prefix(s, n), p, x), n) else Prefix(s, n)
  {
  }

  /** Inserting into a list of at most n entries and cutting back to n costs only the last entry. */
  lemma InsertLosesLast<T>(s: seq<T>, p: nat, x: T, n: nat)
    requires p <= |s| <= n && p < n
    ensures |Elements(s) - Elements(Prefix(InsertAt(s, p, x), n))| <= 1
  {
    var t := Prefix(InsertAt(s, p, x), n);
    forall k | 0 <= k < |s| - 1 ensures s[k] in t {
      assert t[if k < p then k else k + 1] == s[k];
    }
    if s != [] {
      SubsetSize(Elements(s) - Elements(t), {s[|s| - 1]});
    } else {
      assert Elements(s) - Elements(t) == {};
    }
  }

  lemma ElementsCons<T>(x: T, s: seq<T>)
    ensures Elements([x] + s) == {x} + Elements(s)
    ensures x !in Elements(s) && NoDuplicates(s) ==> NoDuplicates([x] + s)
  {}

  /** A larger set has a member outside a smaller one. */
  lemma SomeOutside<T>(a: set<T>, b: set<T>) returns (x: T)
    requires |b| < |a|
    ensures x in a && x !in b
  {
    if a <= b {
      SubsetSize(a, b);
    }
    x :| x in a && x !in b;
  }

  lemma {:induction false} ElementsSize<T>(s: seq<T>)
    requires NoDuplicates(s)
    ensures |Elements(s)| == |s|
  {
    if s != [] {
      ElementsSize(s[1..]);
      assert Elements(s) == {s[0]} + Elements(s[1..]);
      assert s[0] !in Elements(s[1..]);
    }
  }

  lemma SubsetSize<T>(a: set<T>, b: set<T>)
    requires a <= b
    ensures |a| <= |b|
    ensures |a| == |b| ==> a == b
  {
    assert b == a + (b - a);
    if |a| == |b| {
      assert b - a == {};
    }
  }

  // ---------------------------------------------------------------------------------------------
  // Counting occurrences
  // ---------------------------------------------------------------------------------------------

  function Count<T(==)>(s: seq<T>, x: T): (k: nat)
    ensures k > 0 <==> x in s
  {
    if s == [] then 0 else (if s[0] == x then 1 else 0) + Count(s[1..], x)
  }

  lemma EmptyCounts<T>(s: seq<T>)
    ensures s == [] <==> forall x :: Count(s, x) == 0
  {
    if s != [] {
      assert Count(s, s[0]) > 0;
    }
  }

  lemma {:induction false} CountAppend<T>(s: seq<T>, t: seq<T>, x: T)
    ensures Count(s + t, x) == Count(s, x) + Count(t, x)
  {
    if s == [] {
      assert s + t == t;
    } else {
      assert (s + t)[1..] == s[1..] + t;
      CountAppend(s[1..], t, x);
    }
  }

  lemma {:induction false} CountsSingle<T>(s: seq<T>)
    ensures NoDuplicates(s) <==> forall x :: Count(s, x) <= 1
  {
    if s != [] {
      CountsSingle(s[1..]);
      if NoDuplicates(s) {
        forall x ensures Count(s, x) <= 1 {
          assert Count(s[1..], x) <= 1 && Count(s[1..], s[0]) == 0;
        }
      } else if NoDuplicates(s[1..]) {
        assert s[0] in s[1..];
        assert Count(s, s[0]) > 1;
      } else {
        var x :| Count(s[1..], x) > 1;
        assert Count(s, x) > 1;
      }
    }
  }
}
