/**
 Sorting and deduplication: the identifier lists of a snapshot, the keys of a Go map and the
 sampled instants are all brought into one strictly increasing order.
 */
module Ordering {

  ghost predicate SortedBy<T>(s: seq<T>, key: T -> int) {
    forall i, j :: 0 <= i < j < |s| ==> key(s[i]) <= key(s[j])
  }

  ghost predicate StrictlySortedBy<T>(s: seq<T>, key: T -> int) {
    forall i, j :: 0 <= i < j < |s| ==> key(s[i]) < key(s[j])
  }

  ghost predicate DistinctBy<T>(s: seq<T>, key: T -> int) {
    forall i, j :: 0 <= i < j < |s| ==> key(s[i]) != key(s[j])
  }

  ghost predicate Increasing(s: seq<int>) {
    forall i, j :: 0 <= i < j < |s| ==> s[i] < s[j]
  }

  ghost predicate SameMembers<T(!new)>(a: seq<T>, b: seq<T>) {
    forall x :: x in a <==> x in b
  }

  lemma FirstIsMember<T>(s: seq<T>)
    requires s != []
    ensures s[0] in s
  {
  }

  /** A strictly sorted sequence is determined by its members. */
  lemma {:induction false} StrictOrderIsUnique<T(!new)>(a: seq<T>, b: seq<T>, key: T -> int)
    requires StrictlySortedBy(a, key) && StrictlySortedBy(b, key)
    requires SameMembers(a, b)
    ensures a == b
  {
    if a == [] {
      if b != [] {
        FirstIsMember(b);
      }
    } else {
      FirstIsMember(a);
      assert b != [];
      FirstIsMember(b);
      assert a[0] == b[0];
      forall x ensures x in a[1..] <==> x in b[1..] {
        assert x in a <==> x == a[0] || x in a[1..];
        assert x in b <==> x == b[0] || x in b[1..];
      }
      StrictOrderIsUnique(a[1..], b[1..], key);
      assert a == [a[0]] + a[1..];
      assert b == [b[0]] + b[1..];
    }
  }

  lemma IncreasingIsUnique(a: seq<int>, b: seq<int>)
    requires Increasing(a) && Increasing(b)
    requires SameMembers(a, b)
    ensures a == b
  {
    StrictOrderIsUnique(a, b, x => x);
  }

  /** A sorted sequence whose keys are distinct is strictly sorted. */
  lemma DistinctSortedIsStrict<T(!new)>(s: seq<T>, original: seq<T>, key: T -> int)
    requires SortedBy(s, key) && DistinctBy(original, key)
    requires multiset(s) == multiset(original)
    ensures StrictlySortedBy(s, key)
    ensures SameMembers(s, original)
  {
    forall x ensures x in s <==> x in original {
      assert x in s <==> x in multiset(s);
      assert x in original <==> x in multiset(original);
    }
    forall i, j | 0 <= i < j < |s| ensures key(s[i]) < key(s[j]) {
      if s[i] == s[j] {
        RepeatedMember(s, i, j);
        DistinctMultiplicity(original, key, s[i]);
        assert false;
      }
      assert s[i] in original && s[j] in original;
    }
  }

  lemma DistinctMultiplicity<T>(s: seq<T>, key: T -> int, x: T)
    requires DistinctBy(s, key)
    ensures multiset(s)[x] <= 1
  {
    if s != [] {
      var n := |s| - 1;
      DistinctMultiplicity(s[..n], key, x);
      assert s == s[..n] + [s[n]];
      assert x == s[n] ==> x !in s[..n];
    }
  }

  lemma RepeatedMember<T>(s: seq<T>, i: nat, j: nat)
    requires i < j < |s| && s[i] == s[j]
    ensures multiset(s)[s[i]] >= 2
  {
    assert s == s[..i] + [s[i]] + s[i + 1..j] + [s[j]] + s[j + 1..];
  }

  lemma RemoveFromMultiset<T>(s: seq<T>, k: nat)
    requires k < |s|
    ensures multiset(s) == multiset(s[..k] + s[k + 1..]) + multiset{s[k]}
    ensures multiset(s[..k] + s[k + 1..]) == multiset(s) - multiset{s[k]}
  {
    assert s == s[..k] + [s[k]] + s[k + 1..];
  }

  // --- The contract of Go's sort.Slice: a sorted permutation, no promise of stability ---

  method SwapDown<T>(a: array<T>, i: nat)
    requires 0 < i < a.Length
    modifies a
    ensures a[..] == old(a[..])[i := old(a[i - 1])][i - 1 := old(a[i])]
    ensures multiset(a[..]) == multiset(old(a[..]))
  {
    a[i], a[i - 1] := a[i - 1], a[i];
  }

  method Sink<T>(a: array<T>, n: nat, key: T -> int)
    requires n < a.Length && SortedBy(a[..n], key)
    modifies a
    ensures SortedBy(a[..n + 1], key)
    ensures multiset(a[..]) == multiset(old(a[..]))
  {
    var i := n;
    while i > 0 && key(a[i]) < key(a[i - 1])
      invariant 0 <= i <= n
      invariant forall j, k :: 0 <= j < k <= n && k != i ==> key(a[j]) <= key(a[k])
      invariant multiset(a[..]) == multiset(old(a[..]))
    {
      ghost var was := a[..];
      SwapDown(a, i);
      assert forall j :: 0 <= j < a.Length ==> a[j] == a[..][j];
      i := i - 1;
    }
  }

  method SortSlice<T>(a: array<T>, key: T -> int)
    modifies a
    ensures SortedBy(a[..], key)
    ensures multiset(a[..]) == multiset(old(a[..]))
  {
    for n := 0 to a.Length
      invariant SortedBy(a[..n], key)
      invariant multiset(a[..]) == multiset(old(a[..]))
    {
      Sink(a, n, key);
    }
    assert a[..a.Length] == a[..];
  }

  // --- Deduplicating sort as a function ---

  lemma TailIsAbove(s: seq<int>)
    requires s != [] && Increasing(s)
    ensures forall y :: y in s[1..] ==> s[0] < y
  {
  }

  lemma PrependKeepsOrder(x: int, s: seq<int>)
    requires Increasing(s) && forall y :: y in s ==> x < y
    ensures Increasing([x] + s)
  {
    assert forall i :: 0 <= i < |s| ==> s[i] in s;
  }

  function Insert(x: int, s: seq<int>): (r: seq<int>)
    requires Increasing(s)
    ensures Increasing(r)
    ensures forall y :: y in r <==> y == x || y in s
    ensures |r| <= |s| + 1
  {
    if s == [] then [x]
    else if x < s[0] then [x] + s
    else if x == s[0] then s
    else
      var rest := Insert(x, s[1..]);
      assert forall y :: y in s <==> y == s[0] || y in s[1..];
      TailIsAbove(s);
      PrependKeepsOrder(s[0], rest);
      [s[0]] + rest
  }

  function SortedSet(s: seq<int>): (r: seq<int>)
    ensures Increasing(r)
    ensures SameMembers(r, s)
    ensures |r| <= |s|
  {
    if s == [] then []
    else
      assert forall y :: y in s <==> y == s[0] || y in s[1..];
      Insert(s[0], SortedSet(s[1..]))
  }
}
