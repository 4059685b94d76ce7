/** Stable comparison sort, as `Array.prototype.sort(compare)` is required to be.
    A comparator returns a negative number when its first argument goes first,
    a positive number when its second argument goes first and 0 for a tie.

    The ordering is an insertion sort: each element, taken in input order, is
    placed after the last already-placed element that does not have to follow
    it. `SortBy` is the specification and `SortInPlace` the in-place algorithm
    proved equal to it. */
module Sorting {
  import Lists

  /** Places `x` into `t` from the right: after the last element that compares
      less than or equal to `x`. */
  function InsertSorted<T>(t: seq<T>, x: T, cmp: (T, T) -> int): (r: seq<T>)
    ensures |r| == |t| + 1
  {
    if t == [] then [x]
    else if cmp(t[|t| - 1], x) > 0 then InsertSorted(t[..|t| - 1], x, cmp) + [t[|t| - 1]]
    else t + [x]
  }

  function SortBy<T>(s: seq<T>, cmp: (T, T) -> int): (r: seq<T>)
    ensures |r| == |s|
  {
    if s == [] then [] else InsertSorted(SortBy(s[..|s| - 1], cmp), s[|s| - 1], cmp)
  }

  /** Neighbours are in comparator order. */
  ghost predicate AdjacentOrdered<T>(s: seq<T>, cmp: (T, T) -> int)
  {
    forall i :: 0 <= i < |s| - 1 ==> cmp(s[i], s[i + 1]) <= 0
  }

  /** Every pair is in comparator order. */
  ghost predicate Ordered<T>(s: seq<T>, cmp: (T, T) -> int)
  {
    forall i, j :: 0 <= i < j < |s| ==> cmp(s[i], s[j]) <= 0
  }

  /** On the elements of `s`, the comparator is sign-antisymmetric: if `a` must
      follow `b`, then `b` must precede `a`. */
  ghost predicate AntisymmetricOn<T>(s: seq<T>, cmp: (T, T) -> int)
  {
    forall a, b :: a in s && b in s && cmp(a, b) > 0 ==> cmp(b, a) < 0
  }

  /** On the elements of `s`, "may precede" is transitive. */
  ghost predicate TransitiveOn<T>(s: seq<T>, cmp: (T, T) -> int)
  {
    forall a, b, c :: a in s && b in s && c in s && cmp(a, b) <= 0 && cmp(b, c) <= 0 ==> cmp(a, c) <= 0
  }

  function SumOf<T>(s: seq<T>, w: T -> int): int
  {
    if s == [] then 0 else SumOf(s[..|s| - 1], w) + w(s[|s| - 1])
  }

  lemma {:induction false} InsertSortedPermutation<T>(t: seq<T>, x: T, cmp: (T, T) -> int)
    ensures multiset(InsertSorted(t, x, cmp)) == multiset(t) + multiset{x}
  {
    if t != [] && cmp(t[|t| - 1], x) > 0 {
      InsertSortedPermutation(t[..|t| - 1], x, cmp);
      assert t == t[..|t| - 1] + [t[|t| - 1]];
    }
  }

  /** Sorting neither loses nor invents elements. */
  lemma {:induction false} SortByPermutation<T>(s: seq<T>, cmp: (T, T) -> int)
    ensures multiset(SortBy(s, cmp)) == multiset(s)
  {
    if s != [] {
      SortByPermutation(s[..|s| - 1], cmp);
      InsertSortedPermutation(SortBy(s[..|s| - 1], cmp), s[|s| - 1], cmp);
      assert s == s[..|s| - 1] + [s[|s| - 1]];
    }
  }

  lemma SortByMembership<T>(s: seq<T>, cmp: (T, T) -> int, x: T)
    ensures x in SortBy(s, cmp) <==> x in s
  {
    SortByPermutation(s, cmp);
    assert x in multiset(SortBy(s, cmp)) <==> x in multiset(s);
  }

  lemma {:induction false} InsertSortedAdjacent<T>(t: seq<T>, x: T, cmp: (T, T) -> int, s: seq<T>)
    requires AdjacentOrdered(t, cmp)
    requires AntisymmetricOn(s, cmp) && x in s && forall y :: y in t ==> y in s
    ensures AdjacentOrdered(InsertSorted(t, x, cmp), cmp)
    ensures var r := InsertSorted(t, x, cmp); r[0] == x || (t != [] && r[0] == t[0])
  {
    if t != [] && cmp(t[|t| - 1], x) > 0 {
      var u := t[..|t| - 1];
      var last := t[|t| - 1];
      assert AdjacentOrdered(u, cmp);
      InsertSortedAdjacent(u, x, cmp, s);
      var v := InsertSorted(u, x, cmp);
      assert last in s;
      assert cmp(x, last) < 0;
      assert cmp(v[|v| - 1], last) <= 0 by {
        if u == [] {
        } else if cmp(u[|u| - 1], x) > 0 {
          assert v[|v| - 1] == u[|u| - 1];
          assert u[|u| - 1] == t[|t| - 2];
        } else {
          assert v[|v| - 1] == x;
        }
      }
    }
  }

  /** Every neighbouring pair of the output is in comparator order, whatever the comparator
      does on other arguments, provided it is sign-antisymmetric on the input. */
  lemma {:induction false} SortByAdjacent<T>(s: seq<T>, cmp: (T, T) -> int)
    requires AntisymmetricOn(s, cmp)
    ensures AdjacentOrdered(SortBy(s, cmp), cmp)
  {
    if s != [] {
      var init := s[..|s| - 1];
      assert AntisymmetricOn(init, cmp) by {
        forall y | y in init ensures y in s {
        }
      }
      SortByAdjacent(init, cmp);
      forall y | y in SortBy(init, cmp) ensures y in s {
        SortByMembership(init, cmp, y);
      }
      InsertSortedAdjacent(SortBy(init, cmp), s[|s| - 1], cmp, s);
    }
  }

  lemma {:induction false} AdjacentToOrdered<T>(t: seq<T>, cmp: (T, T) -> int)
    requires AdjacentOrdered(t, cmp) && TransitiveOn(t, cmp)
    ensures Ordered(t, cmp)
  {
    forall i, j | 0 <= i < j < |t| ensures cmp(t[i], t[j]) <= 0 {
      var k := i + 1;
      while k < j
        invariant i < k <= j
        invariant cmp(t[i], t[k]) <= 0
      {
        assert cmp(t[k], t[k + 1]) <= 0;
        k := k + 1;
      }
    }
  }

  /** When the comparator is a consistent ordering of the input's elements, the
      output is ordered pairwise. */
  lemma SortByOrdered<T>(s: seq<T>, cmp: (T, T) -> int)
    requires AntisymmetricOn(s, cmp) && TransitiveOn(s, cmp)
    ensures Ordered(SortBy(s, cmp), cmp)
  {
    SortByAdjacent(s, cmp);
    var r := SortBy(s, cmp);
    forall y | y in r ensures y in s {
      SortByMembership(s, cmp, y);
    }
    AdjacentToOrdered(r, cmp);
  }

  /** An input that is already in order is left exactly as it is: sorting is stable
      and therefore idempotent. */
  lemma {:induction false} SortBySortedIsIdentity<T>(s: seq<T>, cmp: (T, T) -> int)
    requires AdjacentOrdered(s, cmp)
    ensures SortBy(s, cmp) == s
  {
    if s != [] {
      var init := s[..|s| - 1];
      assert AdjacentOrdered(init, cmp);
      SortBySortedIsIdentity(init, cmp);
      if |s| > 1 {
        assert cmp(init[|init| - 1], s[|s| - 1]) <= 0;
      }
      assert init + [s[|s| - 1]] == s;
    }
  }

  lemma {:induction false} InsertSortedSum<T>(t: seq<T>, x: T, cmp: (T, T) -> int, w: T -> int)
    ensures SumOf(InsertSorted(t, x, cmp), w) == SumOf(t, w) + w(x)
  {
    if t != [] && cmp(t[|t| - 1], x) > 0 {
      var u := t[..|t| - 1];
      InsertSortedSum(u, x, cmp, w);
      var r := InsertSorted(u, x, cmp) + [t[|t| - 1]];
      assert r[..|r| - 1] == InsertSorted(u, x, cmp);
    } else if t != [] {
      assert (t + [x])[..|t|] == t;
    }
  }

  /** Any additive weight (a count, an amount) is unchanged by sorting. */
  lemma {:induction false} SortBySum<T>(s: seq<T>, cmp: (T, T) -> int, w: T -> int)
    ensures SumOf(SortBy(s, cmp), w) == SumOf(s, w)
  {
    if s != [] {
      SortBySum(s[..|s| - 1], cmp, w);
      InsertSortedSum(SortBy(s[..|s| - 1], cmp), s[|s| - 1], cmp, w);
    }
  }

  /** Inserting `x` keeps, among the elements satisfying `p`, the order they had,
      with `x` last when it satisfies `p` and ties with all of them. */
  lemma {:induction false} InsertSortedKeep<T>(t: seq<T>, x: T, cmp: (T, T) -> int, p: T -> bool)
    requires p(x) ==> forall e :: e in t && p(e) ==> cmp(e, x) <= 0
    ensures Lists.Keep(InsertSorted(t, x, cmp), p) == Lists.Keep(t, p) + (if p(x) then [x] else [])
  {
    if t == [] {
      Lists.KeepSnoc([], x, p);
    } else {
      var u := t[..|t| - 1];
      var last := t[|t| - 1];
      assert t == u + [last];
      if cmp(last, x) > 0 {
        if p(x) {
          forall e | e in u && p(e) ensures cmp(e, x) <= 0 {
            assert e in t;
          }
        }
        InsertSortedKeep(u, x, cmp, p);
        Lists.KeepSnoc(InsertSorted(u, x, cmp), last, p);
        Lists.KeepSnoc(u, last, p);
        if p(x) {
          assert last in t;
        }
      } else {
        Lists.KeepSnoc(t, x, p);
      }
    }
  }

  /** Sorting is stable: the elements of any class that the comparator ties keep
      their input order. */
  lemma {:induction false} SortByStable<T>(s: seq<T>, cmp: (T, T) -> int, p: T -> bool)
    requires forall a, b :: a in s && b in s && p(a) && p(b) ==> cmp(a, b) <= 0
    ensures Lists.Keep(SortBy(s, cmp), p) == Lists.Keep(s, p)
  {
    if s != [] {
      var init := s[..|s| - 1];
      var x := s[|s| - 1];
      assert forall e :: e in init ==> e in s;
      SortByStable(init, cmp, p);
      forall e | e in SortBy(init, cmp) ensures e in s {
        SortByMembership(init, cmp, e);
      }
      InsertSortedKeep(SortBy(init, cmp), x, cmp, p);
      assert s == init + [x];
    }
  }

  /** Moving the insertion point one place left keeps the value of
      "insert into the prefix, then append the rest". */
  lemma InsertSortedShift<T>(t: seq<T>, j: nat, x: T, cmp: (T, T) -> int)
    requires 0 < j <= |t| && cmp(t[j - 1], x) > 0
    ensures InsertSorted(t[..j], x, cmp) + t[j..] == InsertSorted(t[..j - 1], x, cmp) + t[j - 1..]
  {
    var u := t[..j];
    assert u[..|u| - 1] == t[..j - 1];
    assert [t[j - 1]] + t[j..] == t[j - 1..];
  }

  /** One step of the in-place sort: moves `a[i]` into the ordered prefix `a[..i]`,
      shifting the elements that must follow it one place to the right. */
  method InsertInPlace<T>(a: array<T>, i: nat, cmp: (T, T) -> int)
    requires i < a.Length
    modifies a
    ensures a[..i + 1] == InsertSorted(old(a[..i]), old(a[i]), cmp)
    ensures a[i + 1..] == old(a[i + 1..])
  {
    var x := a[i];
    ghost var t := a[..i];
    ghost var rest := a[i + 1..];
    var j := i;
    assert t[..j] == t && t[j..] == [];
    ghost var goal := InsertSorted(t[..j], x, cmp) + t[j..];
    while j > 0 && cmp(a[j - 1], x) > 0
      invariant 0 <= j <= i
      invariant a[..j] == t[..j]
      invariant a[j + 1..i + 1] == t[j..]
      invariant a[i + 1..] == rest
      invariant InsertSorted(t[..j], x, cmp) + t[j..] == goal
    {
      ShiftStep(a[..], t, i, j);
      InsertSortedShift(t, j, x, cmp);
      ghost var before := a[..];
      a[j] := a[j - 1];
      ShiftWrite(before, a[..], i, j);
      j := j - 1;
    }
    InsertStops(t, j, x, cmp);
    a[j] := x;
    assert a[..i + 1] == a[..j] + [x] + a[j + 1..i + 1];
  }

  /** The slice facts of one shift of the insertion loop, before the write. */
  lemma ShiftStep<T>(s: seq<T>, t: seq<T>, i: nat, j: nat)
    requires 0 < j <= i < |s| && |t| == i
    requires s[..j] == t[..j] && s[j + 1..i + 1] == t[j..]
    ensures s[j - 1] == t[j - 1]
    ensures s[..j - 1] == t[..j - 1]
    ensures [s[j - 1]] + s[j + 1..i + 1] == t[j - 1..]
  {
    assert s[j - 1] == s[..j][j - 1];
    assert s[..j - 1] == s[..j][..j - 1];
  }

  /** The slices of the array after the write `a[j] := a[j - 1]`. */
  lemma ShiftWrite<T>(s: seq<T>, s': seq<T>, i: nat, j: nat)
    requires 0 < j <= i < |s| && s' == s[j := s[j - 1]]
    ensures s'[..j - 1] == s[..j - 1]
    ensures s'[j..i + 1] == [s[j - 1]] + s[j + 1..i + 1]
    ensures s'[i + 1..] == s[i + 1..]
  {
  }

  /** Insertion stops at the first element from the right that may precede `x`. */
  lemma InsertStops<T>(t: seq<T>, j: nat, x: T, cmp: (T, T) -> int)
    requires j <= |t| && (j == 0 || cmp(t[j - 1], x) <= 0)
    ensures InsertSorted(t[..j], x, cmp) == t[..j] + [x]
  {
  }


  /** The in-place insertion sort run by `Array.prototype.sort`; it leaves in `a`
      exactly the specification's ordering of the old contents. */
  method SortInPlace<T>(a: array<T>, cmp: (T, T) -> int)
    modifies a
    ensures a[..] == SortBy(old(a[..]), cmp)
  {
    ghost var orig := a[..];
    var i := 0;
    while i < a.Length
      invariant 0 <= i <= a.Length
      invariant a[..i] == SortBy(orig[..i], cmp)
      invariant a[i..] == orig[i..]
    {
      InsertInPlace(a, i, cmp);
      assert orig[..i + 1][..i] == orig[..i];
      i := i + 1;
    }
    assert orig[..a.Length] == orig;
  }
}
