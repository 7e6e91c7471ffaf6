/** The two enumeration helpers of the duplicate checker in
    web/src/filterspec.ts: `combinations`, every sub-sequence of an array,
    and `product`, every pair drawn from two arrays. */
module Combinatorics {

  function Pow2(n: nat): (r: nat)
    ensures r >= 1
  {
    if n == 0 then 1 else 2 * Pow2(n - 1)
  }

  /** `combs.flatMap((comb) => [[head, ...comb], comb])`: each combination
      once with `head` in front and once without. */
  function WithAndWithout<T>(head: T, combs: seq<seq<T>>): (r: seq<seq<T>>)
    ensures |r| == 2 * |combs|
    decreases |combs|
  {
    if combs == [] then [] else [[head] + combs[0], combs[0]] + WithAndWithout(head, combs[1..])
  }

  /** `combinations`: the empty array has the one empty combination; a
      longer one the combinations of its tail, each with and without its
      head. */
  function Combinations<T>(arr: seq<T>): (r: seq<seq<T>>)
    decreases |arr|
  {
    if arr == [] then [[]] else WithAndWithout(arr[0], Combinations(arr[1..]))
  }

  /** The sub-sequence of `arr` that `mask` picks. */
  function Select<T>(arr: seq<T>, mask: seq<bool>): seq<T>
    requires |mask| == |arr|
    decreases |arr|
  {
    if arr == [] then [] else (if mask[0] then [arr[0]] else []) + Select(arr[1..], mask[1..])
  }

  lemma {:induction false} WithAndWithoutMembers<T>(head: T, combs: seq<seq<T>>, c: seq<T>)
    ensures c in WithAndWithout(head, combs) <==>
      c in combs || (c != [] && c[0] == head && c[1..] in combs)
    decreases |combs|
  {
    if combs != [] {
      WithAndWithoutMembers(head, combs[1..], c);
      var w := WithAndWithout(head, combs[1..]);
      assert WithAndWithout(head, combs) == [[head] + combs[0], combs[0]] + w;
      assert ([head] + combs[0])[1..] == combs[0];
      if c != [] && c[0] == head && c[1..] == combs[0] {
        assert c == [head] + combs[0];
      }
      assert forall x :: x in combs <==> x == combs[0] || x in combs[1..];
    }
  }

  /** There are 2^n combinations of n elements. */
  lemma {:induction false} CombinationsCount<T>(arr: seq<T>)
    ensures |Combinations(arr)| == Pow2(|arr|)
    decreases |arr|
  {
    if arr != [] {
      CombinationsCount(arr[1..]);
    }
  }

  /** The first combination is the whole array. */
  lemma {:induction false} CombinationsFirst<T>(arr: seq<T>)
    ensures |Combinations(arr)| > 0 && Combinations(arr)[0] == arr
    decreases |arr|
  {
    if arr != [] {
      CombinationsFirst(arr[1..]);
      assert arr == [arr[0]] + arr[1..];
    }
  }

  /** Every mask picks one of the combinations. */
  lemma {:induction false} CombinationsComplete<T>(arr: seq<T>, mask: seq<bool>)
    requires |mask| == |arr|
    ensures Select(arr, mask) in Combinations(arr)
    decreases |arr|
  {
    if arr != [] {
      var rest := Select(arr[1..], mask[1..]);
      var c := Select(arr, mask);
      CombinationsComplete(arr[1..], mask[1..]);
      WithAndWithoutMembers(arr[0], Combinations(arr[1..]), c);
      if mask[0] {
        assert c == [arr[0]] + rest;
        assert c[1..] == rest;
      } else {
        assert c == rest;
      }
    }
  }

  /** Every combination is picked by some mask. */
  lemma {:induction false} CombinationsSound<T>(arr: seq<T>, c: seq<T>) returns (mask: seq<bool>)
    requires c in Combinations(arr)
    ensures |mask| == |arr| && c == Select(arr, mask)
    decreases |arr|
  {
    if arr == [] {
      mask := [];
    } else {
      var tail := Combinations(arr[1..]);
      WithAndWithoutMembers(arr[0], tail, c);
      if c in tail {
        var m := CombinationsSound(arr[1..], c);
        mask := [false] + m;
        assert mask[1..] == m;
      } else {
        var m := CombinationsSound(arr[1..], c[1..]);
        mask := [true] + m;
        assert mask[1..] == m;
        assert c == [c[0]] + c[1..];
      }
    }
  }

  /** The combinations are exactly the sub-sequences of the array. */
  lemma CombinationsAreSubsequences<T>(arr: seq<T>, c: seq<T>)
    ensures c in Combinations(arr) <==> exists mask :: |mask| == |arr| && c == Select(arr, mask)
  {
    if c in Combinations(arr) {
      var mask := CombinationsSound(arr, c);
    }
    if exists mask :: |mask| == |arr| && c == Select(arr, mask) {
      var mask :| |mask| == |arr| && c == Select(arr, mask);
      CombinationsComplete(arr, mask);
    }
  }

  /** Whatever a mask picks comes from the array. */
  lemma {:induction false} SelectFromArray<T>(arr: seq<T>, mask: seq<bool>, x: T)
    requires |mask| == |arr|
    ensures x in Select(arr, mask) ==> x in arr
    decreases |arr|
  {
    if arr != [] {
      SelectFromArray(arr[1..], mask[1..], x);
    }
  }

  /** The pairs of `a` with each of `ys`, in order (the inner loop of
      `product`). */
  function Pairs<T, U>(a: T, ys: seq<U>): (r: seq<(T, U)>)
    ensures |r| == |ys|
    decreases |ys|
  {
    if ys == [] then [] else Pairs(a, ys[..|ys| - 1]) + [(a, ys[|ys| - 1])]
  }

  /** `product`: the pairs of every element of `xs`, in turn, with every
      element of `ys`. */
  function Product<T, U>(xs: seq<T>, ys: seq<U>): seq<(T, U)>
    decreases |xs|
  {
    if xs == [] then [] else Product(xs[..|xs| - 1], ys) + Pairs(xs[|xs| - 1], ys)
  }

  lemma {:induction false} PairsMembers<T, U>(a: T, ys: seq<U>, p: (T, U))
    ensures p in Pairs(a, ys) <==> p.0 == a && p.1 in ys
    decreases |ys|
  {
    if ys != [] {
      PairsMembers(a, ys[..|ys| - 1], p);
      assert forall y :: y in ys <==> y in ys[..|ys| - 1] || y == ys[|ys| - 1];
    }
  }

  /** The product holds exactly the pairs of an element of `xs` and an
      element of `ys`. */
  lemma {:induction false} ProductMembers<T, U>(xs: seq<T>, ys: seq<U>, p: (T, U))
    ensures p in Product(xs, ys) <==> p.0 in xs && p.1 in ys
    decreases |xs|
  {
    if xs != [] {
      ProductMembers(xs[..|xs| - 1], ys, p);
      PairsMembers(xs[|xs| - 1], ys, p);
      assert forall x :: x in xs <==> x in xs[..|xs| - 1] || x == xs[|xs| - 1];
    }
  }

  /** The nested loops of `product`, pushing one pair at a time. */
  method ProductLoop<T, U>(arr1: seq<T>, arr2: seq<U>) returns (result: seq<(T, U)>)
    ensures result == Product(arr1, arr2)
  {
    result := [];
    for i := 0 to |arr1|
      invariant result == Product(arr1[..i], arr2)
    {
      assert arr1[..i + 1][..i] == arr1[..i];
      for j := 0 to |arr2|
        invariant result == Product(arr1[..i], arr2) + Pairs(arr1[i], arr2[..j])
      {
        assert arr2[..j + 1][..j] == arr2[..j];
        result := result + [(arr1[i], arr2[j])];
      }
      assert arr2[..|arr2|] == arr2;
    }
    assert arr1[..|arr1|] == arr1;
  }
}
