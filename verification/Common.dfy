// Shared value types and the facts about sequences and ordered sets that
// several components need.
module Common {

  datatype Option<+T> = None | Some(value: T)

  datatype Result<+T, +E> = Success(value: T) | Failure(error: E)

  // A list of which the front is known already, if the rest can be had.
  function Then<T>(front: seq<T>, rest: Option<seq<T>>): Option<seq<T>> {
    if rest.None? then None else Some(front + rest.value)
  }

  lemma ThenInOrder<T>(front: seq<T>, middle: seq<T>, rest: Option<seq<T>>)
    ensures Then(front, Then(middle, rest)) == Then(front + middle, rest)
  {
    if rest.Some? {
      assert front + (middle + rest.value) == front + middle + rest.value;
    }
  }

  predicate NoRepeats<T(==)>(s: seq<T>) {
    forall i, j :: 0 <= i < j < |s| ==> s[i] != s[j]
  }

  // The elements that satisfy the condition, in their order.
  function Filter<T>(p: T -> bool, s: seq<T>): (r: seq<T>)
    ensures |r| <= |s|
  {
    if s == [] then []
    else Filter(p, s[..|s| - 1]) + if p(s[|s| - 1]) then [s[|s| - 1]] else []
  }

  lemma FilterNext<T>(p: T -> bool, s: seq<T>, x: T)
    ensures Filter(p, s + [x]) == Filter(p, s) + if p(x) then [x] else []
  {
    assert (s + [x])[..|s|] == s;
  }

  lemma {:induction false} FilterConcat<T>(p: T -> bool, left: seq<T>, right: seq<T>)
    ensures Filter(p, left + right) == Filter(p, left) + Filter(p, right)
    decreases |right|
  {
    if right == [] {
      assert left + right == left;
    } else {
      var front, last := right[..|right| - 1], right[|right| - 1];
      FilterConcat(p, left, front);
      FilterNext(p, left + front, last);
      FilterNext(p, front, last);
      assert right == front + [last] && left + right == left + front + [last];
    }
  }

  // ----- Permutations -----

  ghost predicate Permutation<T>(left: seq<T>, right: seq<T>) {
    multiset(left) == multiset(right)
  }

  lemma PermutationLength<T>(left: seq<T>, right: seq<T>)
    requires Permutation(left, right)
    ensures |left| == |right|
  {
    assert |multiset(left)| == |left| && |multiset(right)| == |right|;
  }

  // An element of a permutation can be located, and removing it from both
  // sides leaves a permutation.
  lemma PermutationHead<T>(left: seq<T>, right: seq<T>) returns (k: nat)
    requires Permutation(left, right) && left != []
    ensures k < |right| && right[k] == left[0]
    ensures Permutation(left[1..], right[..k] + right[k + 1..])
    ensures right == right[..k] + [left[0]] + right[k + 1..]
  {
    assert left[0] in multiset(right) by { assert left[0] in multiset(left); }
    k :| 0 <= k < |right| && right[k] == left[0];
    var rest := right[..k] + right[k + 1..];
    assert right == right[..k] + [left[0]] + right[k + 1..];
    assert left == [left[0]] + left[1..];
    assert multiset(right) == multiset(rest) + multiset{left[0]};
    assert multiset(left) == multiset(left[1..]) + multiset{left[0]};
    assert multiset(left[1..]) == multiset(left) - multiset{left[0]};
    assert multiset(rest) == multiset(right) - multiset{left[0]};
  }

  lemma PermutationMembers<T>(left: seq<T>, right: seq<T>)
    requires Permutation(left, right)
    ensures forall x :: x in left <==> x in right
  {
    forall x ensures x in left <==> x in right {
      assert x in left <==> x in multiset(left);
      assert x in right <==> x in multiset(right);
    }
  }

  ghost predicate DistinctBy<T, U>(key: T -> U, s: seq<T>) {
    forall i, j :: 0 <= i < j < |s| ==> key(s[i]) != key(s[j])
  }

  lemma {:induction false} PermutationKeepsDistinct<T, U>(key: T -> U, left: seq<T>, right: seq<T>)
    requires Permutation(left, right) && DistinctBy(key, left)
    ensures DistinctBy(key, right)
    decreases |left|
  {
    PermutationLength(left, right);
    if left != [] {
      var k := PermutationHead(left, right);
      var rest := right[..k] + right[k + 1..];
      PermutationKeepsDistinct(key, left[1..], rest);
      PermutationMembers(left[1..], rest);
      assert forall i :: 0 <= i < |rest| ==> rest[i] == right[if i < k then i else i + 1];
      forall i | 0 <= i < |right| && i != k ensures key(right[i]) != key(left[0]) {
        assert right[i] == rest[if i < k then i else i - 1];
        assert right[i] in left[1..];
      }
      forall i, j | 0 <= i < j < |right| && i != k && j != k ensures key(right[i]) != key(right[j]) {
        assert right[i] == rest[if i < k then i else i - 1] && right[j] == rest[if j < k then j else j - 1];
      }
    }
  }

  lemma PermutationInsert<T>(x: T, left: seq<T>, front: seq<T>, back: seq<T>)
    requires Permutation(left, front + back)
    ensures Permutation([x] + left, front + [x] + back)
  {
    assert multiset(front + [x] + back) == multiset(front + back) + multiset{x};
  }

  function Map<T, U>(f: T -> U, s: seq<T>): (r: seq<U>)
    ensures |r| == |s|
    ensures forall i :: 0 <= i < |s| ==> r[i] == f(s[i])
  {
    seq(|s|, i requires 0 <= i < |s| => f(s[i]))
  }

  lemma {:induction false} PermutationMap<T, U>(f: T -> U, left: seq<T>, right: seq<T>)
    requires Permutation(left, right)
    ensures Permutation(Map(f, left), Map(f, right))
    decreases |left|
  {
    if left == [] {
      assert |right| == |multiset(right)| == 0;
    } else {
      var k := PermutationHead(left, right);
      var rest := right[..k] + right[k + 1..];
      PermutationMap(f, left[1..], rest);
      var front, back := Map(f, right[..k]), Map(f, right[k + 1..]);
      assert Map(f, rest) == front + back;
      PermutationInsert(f(left[0]), Map(f, left[1..]), front, back);
      assert Map(f, left) == [f(left[0])] + Map(f, left[1..]);
      assert Map(f, right) == front + [f(left[0])] + back;
    }
  }

  // ----- Sets of integers in ascending order (std::set and std::map order) -----

  ghost predicate Ascending(s: seq<int>) {
    forall i, j :: 0 <= i < j < |s| ==> s[i] < s[j]
  }

  ghost function Pick<T>(s: set<T>): (x: T)
    requires s != {}
    ensures x in s
  {
    var x :| x in s;
    x
  }

  lemma {:induction false} LeastExists(s: set<int>) returns (least: int)
    requires s != {}
    ensures least in s && forall x :: x in s ==> least <= x
    decreases |s|
  {
    var y := Pick(s);
    if s == {y} {
      least := y;
    } else {
      var rest := LeastExists(s - {y});
      least := if y < rest then y else rest;
      assert forall z :: z in s ==> z == y || z in s - {y};
    }
  }

  function Least(s: set<int>): (least: int)
    requires s != {}
    ensures least in s && forall x :: x in s ==> least <= x
  {
    assert exists m :: m in s && forall x :: x in s ==> m <= x by {
      var m := LeastExists(s);
    }
    var m :| m in s && forall x :: x in s ==> m <= x;
    m
  }

  // The elements of a finite set in ascending order: the order in which
  // std::set and std::map are traversed.
  function InOrder(s: set<int>): (r: seq<int>)
    ensures Ascending(r)
    ensures forall x :: x in r <==> x in s
    ensures |r| == |s|
    decreases |s|
  {
    if s == {} then []
    else
      var least := Least(s);
      [least] + InOrder(s - {least})
  }

  // Such an order, without the recipe that produces it.
  ghost predicate IsOrderOf(order: seq<int>, s: set<int>) {
    Ascending(order) && forall x :: x in order <==> x in s
  }

  method Traverse(s: set<int>) returns (order: seq<int>)
    ensures IsOrderOf(order, s) && order == InOrder(s)
  {
    order := InOrder(s);
  }

  // Two ascending sequences with the same elements are equal.
  lemma {:induction false} AscendingUnique(a: seq<int>, b: seq<int>)
    requires Ascending(a) && Ascending(b)
    requires |a| == |b| && forall x :: x in a <==> x in b
    ensures a == b
  {
    if |a| > 0 {
      assert a[0] in b && b[0] in a;
      forall x ensures x in a[1..] <==> x in b[1..] {
        assert x in a[1..] <==> x in a && x != a[0];
        assert x in b[1..] <==> x in b && x != b[0];
      }
      AscendingUnique(a[1..], b[1..]);
      assert a == [a[0]] + a[1..] && b == [b[0]] + b[1..];
    }
  }
}
