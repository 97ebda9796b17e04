/**
 * Operations on ordered lists as the .NET collection classes perform them:
 * `IList<T>.Remove(x)` deletes the FIRST element equal to `x` and ignores an
 * absent `x`. `RemoveEach` is a `foreach` over several such removals, and
 * `Without` is the order-preserving filter it amounts to on duplicate-free lists.
 */
module ListOps {

  function Last<T>(s: seq<T>): T
    requires s != []
  {
    s[|s| - 1]
  }

  predicate Distinct<T(==)>(s: seq<T>) {
    forall i, j :: 0 <= i < j < |s| ==> s[i] != s[j]
  }

  /** `IList<T>.Remove(x)`: drops the first element equal to `x`, if any. */
  function RemoveFirst<T(==)>(s: seq<T>, x: T): (r: seq<T>)
    ensures x !in s ==> r == s
    ensures x in s ==> |r| == |s| - 1
    ensures multiset(r) == multiset(s) - multiset{x}
  {
    if s == [] then []
    else
      assert s == [s[0]] + s[1..];
      if s[0] == x then s[1..] else [s[0]] + RemoveFirst(s[1..], x)
  }

  /** Removal at the first occurrence: everything before and after it is kept, in order. */
  lemma {:induction false} RemoveFirstAt<T>(s: seq<T>, x: T, i: nat)
    requires i < |s| && s[i] == x && x !in s[..i]
    ensures RemoveFirst(s, x) == s[..i] + s[i + 1..]
  {
    if i > 0 {
      var t := s[1..];
      assert s[0] != x by { assert s[0] == s[..i][0]; }
      assert x !in t[..i - 1] by { assert t[..i - 1] == s[..i][1..]; }
      RemoveFirstAt(t, x, i - 1);
      SplitAround(s, i);
    }
  }

  lemma SplitAround<T>(s: seq<T>, i: nat)
    requires 0 < i < |s|
    ensures s[..i] + s[i + 1..] == [s[0]] + (s[1..][..i - 1] + s[1..][i..])
  {
    assert s[1..][..i - 1] == s[1..i] && s[1..][i..] == s[i + 1..];
  }

  /** When `x` occurs only at the end, removing its first occurrence drops the last element. */
  lemma RemoveFirstOfUniqueLast<T>(s: seq<T>)
    requires s != [] && Last(s) !in s[..|s| - 1]
    ensures RemoveFirst(s, Last(s)) == s[..|s| - 1]
  {
    RemoveFirstAt(s, Last(s), |s| - 1);
  }

  /** A `foreach` over `items` calling `Remove` on the list for each one, in order. */
  function RemoveEach<T(==)>(s: seq<T>, items: seq<T>): (r: seq<T>)
    ensures |r| <= |s|
  {
    if items == [] then s
    else RemoveFirst(RemoveEach(s, items[..|items| - 1]), Last(items))
  }

  /** One more pass of the removal loop: the next item is removed from what the earlier passes left. */
  lemma RemoveEachStep<T>(s: seq<T>, items: seq<T>, i: nat)
    requires i < |items|
    ensures RemoveEach(s, items[..i + 1]) == RemoveFirst(RemoveEach(s, items[..i]), items[i])
  {
    assert items[..i + 1][..i] == items[..i];
  }

  /** The elements of `s` that are not in `items`, in their original order. */
  function Without<T(==)>(s: seq<T>, items: seq<T>): (r: seq<T>)
    ensures |r| <= |s|
  {
    if s == [] then []
    else if s[0] in items then Without(s[1..], items)
    else [s[0]] + Without(s[1..], items)
  }

  /** An element is kept by the filter exactly when it is in the list and not among the items. */
  lemma {:induction false} WithoutMembers<T>(s: seq<T>, items: seq<T>)
    ensures forall x :: x in Without(s, items) <==> x in s && x !in items
  {
    if s != [] {
      WithoutMembers(s[1..], items);
      assert forall x :: x in s <==> x == s[0] || x in s[1..] by {
        assert s == [s[0]] + s[1..];
      }
    }
  }

  /** Removing the listed items removes exactly one copy of each from the list's multiset. */
  lemma {:induction false} RemoveEachMultiset<T>(s: seq<T>, items: seq<T>)
    ensures multiset(RemoveEach(s, items)) == multiset(s) - multiset(items)
  {
    if items != [] {
      var init, x := items[..|items| - 1], Last(items);
      RemoveEachMultiset(s, init);
      SnocMultiset(items);
      MultisetDifferenceTwice(multiset(s), multiset(init), multiset{x});
    }
  }

  lemma SnocMultiset<T>(s: seq<T>)
    requires s != []
    ensures multiset(s) == multiset(s[..|s| - 1]) + multiset{Last(s)}
  {
    assert s == s[..|s| - 1] + [Last(s)];
  }

  lemma MultisetDifferenceTwice<T>(a: multiset<T>, b: multiset<T>, c: multiset<T>)
    ensures (a - b) - c == a - (b + c)
  {
    forall y ensures ((a - b) - c)[y] == (a - (b + c))[y] { }
  }

  /** The tail of a duplicate-free list is duplicate-free and does not hold its head. */
  lemma DistinctTail<T>(s: seq<T>)
    requires s != [] && Distinct(s)
    ensures Distinct(s[1..]) && s[0] !in s[1..]
  {
    forall i, j | 0 <= i < j < |s[1..]| ensures s[1..][i] != s[1..][j] {
      assert s[1..][i] == s[i + 1] && s[1..][j] == s[j + 1];
    }
    forall k | 0 <= k < |s[1..]| ensures s[1..][k] != s[0] {
      assert s[1..][k] == s[k + 1];
    }
  }

  lemma {:induction false} WithoutDistinct<T>(s: seq<T>, items: seq<T>)
    requires Distinct(s)
    ensures Distinct(Without(s, items))
  {
    if s != [] {
      DistinctTail(s);
      WithoutDistinct(s[1..], items);
      if s[0] !in items {
        var w := Without(s[1..], items);
        WithoutMembers(s[1..], items);
        assert s[0] !in w;
        forall i, j | 0 <= i < j < |[s[0]] + w| ensures ([s[0]] + w)[i] != ([s[0]] + w)[j] {
          if i == 0 {
            assert ([s[0]] + w)[j] == w[j - 1];
          } else {
            assert ([s[0]] + w)[i] == w[i - 1] && ([s[0]] + w)[j] == w[j - 1];
          }
        }
      }
    }
  }

  lemma {:induction false} WithoutSnoc<T>(s: seq<T>, items: seq<T>, x: T)
    ensures Without(Without(s, items), [x]) == Without(s, items + [x])
  {
    if s != [] {
      WithoutSnoc(s[1..], items, x);
      if s[0] !in items {
        var w := Without(s[1..], items);
        assert ([s[0]] + w)[0] == s[0] && ([s[0]] + w)[1..] == w;
      }
    }
  }

  lemma {:induction false} RemoveFirstDistinct<T>(s: seq<T>, x: T)
    requires Distinct(s)
    ensures RemoveFirst(s, x) == Without(s, [x])
  {
    if s != [] {
      DistinctTail(s);
      RemoveFirstDistinct(s[1..], x);
      if s[0] == x {
        WithoutAbsent(s[1..], x);
      }
    }
  }

  lemma {:induction false} WithoutAbsent<T>(s: seq<T>, x: T)
    requires x !in s
    ensures Without(s, [x]) == s
  {
    if s != [] {
      assert x !in s[1..];
      WithoutAbsent(s[1..], x);
      assert [s[0]] + s[1..] == s;
    }
  }

  /**
   * On a list without duplicates, the removal loop keeps exactly the elements
   * that are not listed, in their original order, whatever the order of `items`.
   */
  lemma {:induction false} RemoveEachIsWithout<T>(s: seq<T>, items: seq<T>)
    requires Distinct(s)
    ensures RemoveEach(s, items) == Without(s, items)
  {
    if items == [] {
      WithoutNothing(s);
    } else {
      var init, x := items[..|items| - 1], Last(items);
      var w := Without(s, init);
      assert init + [x] == items;
      calc {
        RemoveEach(s, items);
        RemoveFirst(RemoveEach(s, init), x);
        { RemoveEachIsWithout(s, init); }
        RemoveFirst(w, x);
        { WithoutDistinct(s, init); RemoveFirstDistinct(w, x); }
        Without(w, [x]);
        { WithoutSnoc(s, init, x); }
        Without(s, items);
      }
    }
  }

  lemma {:induction false} WithoutNothing<T>(s: seq<T>)
    ensures Without(s, []) == s
  {
    if s != [] {
      WithoutNothing(s[1..]);
      assert [s[0]] + s[1..] == s;
    }
  }

  /** Filtering twice by the same items is filtering once. */
  lemma {:induction false} WithoutIdempotent<T>(s: seq<T>, items: seq<T>)
    ensures Without(Without(s, items), items) == Without(s, items)
  {
    if s != [] {
      WithoutIdempotent(s[1..], items);
      if s[0] !in items {
        var w := Without(s[1..], items);
        assert ([s[0]] + w)[0] == s[0] && ([s[0]] + w)[1..] == w;
      }
    }
  }

  /** Dropping the last element of a duplicate-free list keeps it duplicate-free and leaves the last element out. */
  lemma DistinctInit<T>(s: seq<T>)
    requires s != [] && Distinct(s)
    ensures Distinct(s[..|s| - 1]) && Last(s) !in s[..|s| - 1]
  {
    var n := |s| - 1;
    forall k | 0 <= k < n ensures s[..n][k] != Last(s) {
      assert s[k] != s[n];
    }
  }

  /** Proof helper: appending one element to a pair gives the triple. */
  lemma SnocPair<T>(a: T, b: T, c: T)
    ensures [a, b] + [c] == [a, b, c]
  {
  }

  /** Proof helper: appending two elements one at a time appends them as a pair. */
  lemma AppendTwo<T>(s: seq<T>, a: T, b: T)
    ensures s + [a] + [b] == s + [a, b]
  {
  }
}
