// std::sort with a comparison. Callers rely only on its contract: the result
// is sorted and a permutation of the input.
module Sorting {
  import opened Common

  ghost predicate TotalPreorder<T(!new)>(below: (T, T) -> bool) {
    && (forall x, y :: below(x, y) || below(y, x))
    && (forall x, y, z :: below(x, y) && below(y, z) ==> below(x, z))
  }

  ghost predicate SortedBy<T(!new)>(below: (T, T) -> bool, s: seq<T>) {
    forall i, j :: 0 <= i < j < |s| ==> below(s[i], s[j])
  }

  method Sort<T(!new)>(a: array<T>, below: (T, T) -> bool)
    requires TotalPreorder(below)
    modifies a
    ensures SortedBy(below, a[..]) && Permutation(old(a[..]), a[..])
  {
    for n := 0 to a.Length
      invariant SortedBy(below, a[..n]) && Permutation(old(a[..]), a[..])
    {
      SinkLast(a, n, below);
    }
    assert a[..a.Length] == a[..];
  }

  // A vector sorted in place and handed on.
  method Sorted<T(!new)>(s: seq<T>, below: (T, T) -> bool) returns (r: seq<T>)
    requires TotalPreorder(below)
    ensures SortedBy(below, r) && Permutation(s, r)
  {
    var a := new T[|s|](i requires 0 <= i < |s| => s[i]);
    assert a[..] == s;
    Sort(a, below);
    r := a[..];
  }

  // Moves a[n] down to its place among the sorted elements before it.
  method SinkLast<T(!new)>(a: array<T>, n: nat, below: (T, T) -> bool)
    requires TotalPreorder(below)
    requires n < a.Length && SortedBy(below, a[..n])
    modifies a
    ensures SortedBy(below, a[..n + 1]) && Permutation(old(a[..]), a[..])
  {
    var k := n;
    while k > 0 && !below(a[k - 1], a[k])
      invariant 0 <= k <= n && Permutation(old(a[..]), a[..])
      invariant forall i, j :: 0 <= i < j <= n && j != k ==> below(a[i], a[j])
    {
      SwapAdjacent(a, k);
      k := k - 1;
    }
    assert forall i, j :: 0 <= i < j <= n ==> below(a[i], a[j]) by {
      if k > 0 {
        forall i | 0 <= i < k ensures below(a[i], a[k]) {
          assert i == k - 1 || below(a[i], a[k - 1]);
        }
      }
    }
  }

  method SwapAdjacent<T>(a: array<T>, k: nat)
    requires 0 < k < a.Length
    modifies a
    ensures a[k] == old(a[k - 1]) && a[k - 1] == old(a[k])
    ensures forall i :: 0 <= i < a.Length && i != k && i != k - 1 ==> a[i] == old(a[i])
    ensures Permutation(old(a[..]), a[..])
  {
    a[k], a[k - 1] := a[k - 1], a[k];
  }

  // Sorted by an order under which no two different elements are level, a
  // sequence has one arrangement.
  lemma {:induction false} SortedUnique<T(!new)>(below: (T, T) -> bool, a: seq<T>, b: seq<T>)
    requires SortedBy(below, a) && SortedBy(below, b) && Permutation(a, b)
    requires forall x, y :: x in a && y in a && below(x, y) && below(y, x) ==> x == y
    requires forall x :: below(x, x)
    ensures a == b
    decreases |a|
  {
    PermutationLength(a, b);
    if a != [] {
      PermutationMembers(a, b);
      var k := PermutationHead(a, b);
      assert b[0] in a && a[0] in b;
      var l :| 0 <= l < |a| && a[l] == b[0];
      assert below(a[0], a[l]) && below(b[0], b[k]);
      assert a[0] == b[0];
      SortedTail(below, a);
      SortedTail(below, b);
      TailPermutation(a, b);
      SortedUnique(below, a[1..], b[1..]);
      assert a == [a[0]] + a[1..] && b == [b[0]] + b[1..];
    }
  }

  lemma SortedTail<T(!new)>(below: (T, T) -> bool, s: seq<T>)
    requires SortedBy(below, s) && s != []
    ensures SortedBy(below, s[1..])
  {
  }

  lemma TailPermutation<T>(a: seq<T>, b: seq<T>)
    requires Permutation(a, b) && a != [] && b != [] && a[0] == b[0]
    ensures Permutation(a[1..], b[1..])
  {
    assert a == [a[0]] + a[1..] && b == [b[0]] + b[1..];
    assert multiset(a[1..]) == multiset(a) - multiset{a[0]};
    assert multiset(b[1..]) == multiset(b) - multiset{b[0]};
  }
}
