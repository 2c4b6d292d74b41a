// Combining a list of partial results whose keys must never collide: the rows
// of one mapping file, and the mapping files of one run, are both combined
// this way.
module DisjointMaps {
  import opened Common

  // Adds each part to base in turn; fails at the first part that is itself
  // missing or that repeats a key already present.
  function UnionAll<K, V>(parts: seq<Option<map<K, V>>>, base: map<K, V>): Option<map<K, V>> {
    if parts == [] then Some(base)
    else if parts[0].None? || !(parts[0].value.Keys !! base.Keys) then None
    else UnionAll(parts[1..], base + parts[0].value)
  }

  // The union exists exactly when no part is missing and no key is claimed
  // twice, and then it maps precisely what base or one of the parts maps.
  ghost predicate Collisionless<K, V>(parts: seq<Option<map<K, V>>>, base: map<K, V>) {
    && (forall i :: 0 <= i < |parts| ==> parts[i].Some? && parts[i].value.Keys !! base.Keys)
    && (forall i, j :: 0 <= i < j < |parts| ==>
      parts[i].Some? && parts[j].Some? && parts[i].value.Keys !! parts[j].value.Keys)
  }

  lemma {:induction false} UnionAllExists<K, V>(parts: seq<Option<map<K, V>>>, base: map<K, V>)
    ensures UnionAll(parts, base).Some? <==> Collisionless(parts, base)
  {
    if parts != [] && parts[0].Some? && parts[0].value.Keys !! base.Keys {
      var rest, merged := parts[1..], base + parts[0].value;
      UnionAllExists(rest, merged);
      assert merged.Keys == base.Keys + parts[0].value.Keys;
      assert parts == [parts[0]] + rest;
      if Collisionless(parts, base) {
        assert forall i :: 0 <= i < |rest| ==> rest[i] == parts[i + 1];
        assert Collisionless(rest, merged);
      }
      if Collisionless(rest, merged) {
        assert forall i :: 0 < i < |parts| ==> parts[i] == rest[i - 1];
        assert Collisionless(parts, base);
      }
    }
  }

  lemma {:induction false} UnionAllMaps<K, V>(parts: seq<Option<map<K, V>>>, base: map<K, V>, k: K)
    requires UnionAll(parts, base).Some?
    ensures k in UnionAll(parts, base).value <==>
      k in base || exists i :: 0 <= i < |parts| && parts[i].Some? && k in parts[i].value
    ensures k in base ==> UnionAll(parts, base).value[k] == base[k]
    ensures forall i :: 0 <= i < |parts| && parts[i].Some? && k in parts[i].value ==>
      k in UnionAll(parts, base).value && UnionAll(parts, base).value[k] == parts[i].value[k]
  {
    if parts != [] {
      var rest, merged := parts[1..], base + parts[0].value;
      UnionAllMaps(rest, merged, k);
      assert forall i :: 0 < i < |parts| ==> parts[i] == rest[i - 1];
    }
  }

  lemma SwapFirstTwo<K, V>(a: Option<map<K, V>>, b: Option<map<K, V>>, rest: seq<Option<map<K, V>>>,
                           base: map<K, V>)
    ensures UnionAll([a, b] + rest, base) == UnionAll([b, a] + rest, base)
  {
    assert ([a, b] + rest)[1..] == [b] + rest && ([b, a] + rest)[1..] == [a] + rest;
    assert ([b] + rest)[1..] == rest && ([a] + rest)[1..] == rest;
    if a.Some? && b.Some? {
      var am, bm := a.value, b.value;
      assert (base + am).Keys == base.Keys + am.Keys && (base + bm).Keys == base.Keys + bm.Keys;
      if am.Keys !! base.Keys && bm.Keys !! base.Keys && am.Keys !! bm.Keys {
        assert base + am + bm == base + bm + am;
      }
    }
  }

  lemma {:induction false} MoveToFront<K, V>(before: seq<Option<map<K, V>>>, part: Option<map<K, V>>,
                                             after: seq<Option<map<K, V>>>, base: map<K, V>)
    ensures UnionAll(before + [part] + after, base) == UnionAll([part] + (before + after), base)
  {
    if before == [] {
      assert before + [part] + after == [part] + (before + after);
    } else {
      var first, rest := before[0], before[1..];
      var left := before + [part] + after;
      assert left[0] == first && left[1..] == rest + [part] + after;
      assert [first, part] + (rest + after) == [first] + ([part] + (rest + after));
      var swapped := [first, part] + (rest + after);
      assert swapped[0] == first && swapped[1..] == [part] + (rest + after);
      if first.Some? && first.value.Keys !! base.Keys {
        MoveToFront(rest, part, after, base + first.value);
      }
      SwapFirstTwo(first, part, rest + after, base);
      assert [part, first] + (rest + after) == [part] + (before + after);
    }
  }

  // The order in which the parts arrive decides neither whether they can be
  // combined nor what they combine to.
  lemma {:induction false} UnionAllOrderInvisible<K, V>(
      left: seq<Option<map<K, V>>>, right: seq<Option<map<K, V>>>, base: map<K, V>)
    requires Permutation(left, right)
    ensures UnionAll(left, base) == UnionAll(right, base)
    decreases |left|
  {
    if left == [] {
      assert multiset(right) == multiset{};
      assert |right| == |multiset(right)| == 0;
    } else {
      var k := PermutationHead(left, right);
      MoveToFront(right[..k], left[0], right[k + 1..], base);
      var rest := right[..k] + right[k + 1..];
      assert ([left[0]] + rest)[1..] == rest;
      if left[0].Some? && left[0].value.Keys !! base.Keys {
        UnionAllOrderInvisible(left[1..], rest, base + left[0].value);
      }
    }
  }

  // Combining a prefix first and the remainder onto it changes nothing.
  lemma {:induction false} UnionAllSplit<K, V>(
      front: seq<Option<map<K, V>>>, back: seq<Option<map<K, V>>>, base: map<K, V>)
    ensures UnionAll(front + back, base) ==
      (match UnionAll(front, base) case None => None case Some(m) => UnionAll(back, m))
  {
    if front == [] {
      assert front + back == back;
    } else {
      assert (front + back)[0] == front[0] && (front + back)[1..] == front[1..] + back;
      if front[0].Some? && front[0].value.Keys !! base.Keys {
        UnionAllSplit(front[1..], back, base + front[0].value);
      }
    }
  }
}
