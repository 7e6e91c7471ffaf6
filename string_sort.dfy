/** The default `Array.prototype.sort()` on a list of strings, and
    `filter(t => t !== x)`: the two list operations of the tag and checked
    lists in client/store.ts. The default sort compares strings character
    by character, a proper prefix first. */
module StringSort {

  /** `a` sorts before `b`, or is equal to it. */
  predicate StrLe(a: string, b: string)
    decreases |a|
  {
    a == [] || (b != [] && (a[0] < b[0] || (a[0] == b[0] && StrLe(a[1..], b[1..]))))
  }

  lemma {:induction false} StrLeTotal(a: string, b: string)
    ensures StrLe(a, b) || StrLe(b, a)
    decreases |a|
  {
    if a != [] && b != [] && a[0] == b[0] {
      StrLeTotal(a[1..], b[1..]);
    }
  }

  lemma {:induction false} StrLeAntisymmetric(a: string, b: string)
    requires StrLe(a, b) && StrLe(b, a)
    ensures a == b
    decreases |a|
  {
    if a != [] {
      StrLeAntisymmetric(a[1..], b[1..]);
      assert a == [a[0]] + a[1..] && b == [b[0]] + b[1..];
    }
  }

  lemma {:induction false} StrLeReflexive(a: string)
    ensures StrLe(a, a)
    decreases |a|
  {
    if a != [] {
      StrLeReflexive(a[1..]);
    }
  }

  lemma {:induction false} StrLeTransitive(a: string, b: string, c: string)
    requires StrLe(a, b) && StrLe(b, c)
    ensures StrLe(a, c)
    decreases |a|
  {
    if a != [] && a[0] == b[0] && b[0] == c[0] {
      StrLeTransitive(a[1..], b[1..], c[1..]);
    }
  }

  predicate Sorted(s: seq<string>) {
    forall i, j :: 0 <= i < j < |s| ==> StrLe(s[i], s[j])
  }

  /** `x` placed in front of the first element it sorts before. */
  function Insert(s: seq<string>, x: string): (r: seq<string>)
    ensures multiset(r) == multiset(s) + multiset{x}
    ensures Sorted(s) ==> Sorted(r)
    decreases |s|
  {
    if s == [] then [x]
    else if StrLe(x, s[0]) then
      var r := [x] + s;
      assert Sorted(s) ==> Sorted(r) by {
        if Sorted(s) {
          forall j | 1 <= j < |r| ensures StrLe(x, r[j]) {
            if j > 1 { StrLeTransitive(x, s[0], s[j - 1]); }
          }
        }
      }
      r
    else
      var tail := Insert(s[1..], x);
      var r := [s[0]] + tail;
      assert s == [s[0]] + s[1..];
      assert Sorted(s) ==> Sorted(r) by {
        if Sorted(s) {
          StrLeTotal(x, s[0]);
          forall j | 0 < j < |r| ensures StrLe(s[0], r[j]) {
            assert r[j] in multiset(tail);
            assert r[j] in multiset(s[1..]) || r[j] == x;
            if r[j] != x {
              var k :| 0 <= k < |s[1..]| && s[1..][k] == r[j];
              assert s[k + 1] == r[j];
            }
          }
        }
      }
      r
  }

  /** The list in sorted order. */
  function Sort(s: seq<string>): (r: seq<string>)
    ensures Sorted(r)
    ensures multiset(r) == multiset(s)
    decreases |s|
  {
    if s == [] then []
    else
      assert s == s[..|s| - 1] + [s[|s| - 1]];
      Insert(Sort(s[..|s| - 1]), s[|s| - 1])
  }

  /** Two sorted lists with the same elements start with the same one. */
  lemma SameFirst(a: seq<string>, b: seq<string>)
    requires Sorted(a) && Sorted(b) && a != []
    requires multiset(a) == multiset(b)
    ensures b != [] && a[0] == b[0]
  {
    assert a[0] in multiset(b);
    var k :| 0 <= k < |b| && b[k] == a[0];
    if k == 0 { StrLeReflexive(a[0]); }
    assert StrLe(b[0], a[0]);
    assert b[0] in multiset(a);
    var m :| 0 <= m < |a| && a[m] == b[0];
    if m == 0 { StrLeReflexive(b[0]); }
    StrLeAntisymmetric(a[0], b[0]);
  }

  lemma SameRest(a: seq<string>, b: seq<string>)
    requires a != [] && b != [] && a[0] == b[0]
    requires multiset(a) == multiset(b)
    ensures multiset(a[1..]) == multiset(b[1..])
  {
    assert a == [a[0]] + a[1..] && b == [b[0]] + b[1..];
    assert multiset(a[1..]) == multiset(a) - multiset{a[0]};
    assert multiset(b[1..]) == multiset(b) - multiset{b[0]};
  }

  /** Two sorted lists with the same elements are the same list, so the
      sorted order of a list does not depend on how it is reached. */
  lemma {:induction false} SortedUnique(a: seq<string>, b: seq<string>)
    requires Sorted(a) && Sorted(b)
    requires multiset(a) == multiset(b)
    ensures a == b
    decreases |a|
  {
    assert |a| == |multiset(a)| == |b|;
    if a != [] {
      SameFirst(a, b);
      SameRest(a, b);
      SortedUnique(a[1..], b[1..]);
      assert a == [a[0]] + a[1..] && b == [b[0]] + b[1..];
    }
  }

  /** Sorting a sorted list changes nothing. */
  lemma SortOfSorted(s: seq<string>)
    requires Sorted(s)
    ensures Sort(s) == s
  {
    SortedUnique(Sort(s), s);
  }

  /** `s.filter(t => t !== x)`. */
  function Without(s: seq<string>, x: string): (r: seq<string>)
    ensures x !in r
    ensures |r| <= |s|
    decreases |s|
  {
    if s == [] then []
    else if s[0] == x then Without(s[1..], x)
    else [s[0]] + Without(s[1..], x)
  }

  /** Every copy of `x` goes and every other element keeps its count. */
  lemma {:induction false} WithoutCounts(s: seq<string>, x: string)
    ensures multiset(Without(s, x)) == multiset(s)[x := 0]
    decreases |s|
  {
    if s != [] {
      WithoutCounts(s[1..], x);
      assert s == [s[0]] + s[1..];
      assert multiset(s) == multiset{s[0]} + multiset(s[1..]);
    }
  }

  /** What is left of a sorted list is sorted. */
  lemma {:induction false} WithoutSorted(s: seq<string>, x: string)
    requires Sorted(s)
    ensures Sorted(Without(s, x))
    decreases |s|
  {
    if s != [] {
      var tail := Without(s[1..], x);
      WithoutSorted(s[1..], x);
      if s[0] != x {
        var r := [s[0]] + tail;
        WithoutCounts(s[1..], x);
        forall j | 0 < j < |r| ensures StrLe(s[0], r[j]) {
          assert r[j] in multiset(tail);
          assert r[j] in multiset(s[1..]);
          var k :| 0 <= k < |s[1..]| && s[1..][k] == r[j];
          assert s[k + 1] == r[j];
        }
      }
    }
  }

  /** The filter keeps the other elements in their order: it distributes
      over concatenation, and leaves a list without `x` as it is. */
  lemma {:induction false} WithoutAppend(a: seq<string>, b: seq<string>, x: string)
    ensures Without(a + b, x) == Without(a, x) + Without(b, x)
    decreases |a|
  {
    if a != [] {
      assert (a + b)[1..] == a[1..] + b;
      WithoutAppend(a[1..], b, x);
    } else {
      assert a + b == b;
    }
  }

  lemma {:induction false} WithoutAbsent(s: seq<string>, x: string)
    requires x !in s
    ensures Without(s, x) == s
    decreases |s|
  {
    if s != [] {
      WithoutAbsent(s[1..], x);
      assert s == [s[0]] + s[1..];
    }
  }

  lemma DropAfterAdd(m: multiset<string>, x: string)
    ensures (m + multiset{x})[x := 0] == m[x := 0]
  {
  }

  /** Adding `x` and sorting, then filtering `x` out, leaves the sorted
      list without `x`: every copy goes, duplicates included. */
  lemma AddThenRemove(s: seq<string>, x: string)
    ensures Without(Sort(s + [x]), x) == Sort(Without(s, x))
  {
    var on := Sort(s + [x]);
    WithoutSorted(on, x);
    WithoutCounts(on, x);
    WithoutCounts(s, x);
    assert multiset(s + [x]) == multiset(s) + multiset{x};
    DropAfterAdd(multiset(s), x);
    SortedUnique(Without(on, x), Sort(Without(s, x)));
  }

  /** On a sorted list without `x`, adding `x` and filtering it out again
      restores the list. */
  lemma AddThenRemoveRestores(s: seq<string>, x: string)
    requires Sorted(s) && x !in s
    ensures Without(Sort(s + [x]), x) == s
  {
    AddThenRemove(s, x);
    WithoutAbsent(s, x);
    SortOfSorted(s);
  }
}
