/** `Array.prototype.filter`, `slice(0, n)` and counting, as functions on sequences. */
module Lists {

  /** `s.filter(p)`: the elements satisfying `p`, in their original order. */
  function Keep<T>(s: seq<T>, p: T -> bool): (r: seq<T>)
    ensures |r| <= |s|
  {
    if s == [] then [] else Keep(s[..|s| - 1], p) + (if p(s[|s| - 1]) then [s[|s| - 1]] else [])
  }

  /** Filtering a sequence extended by one element. */
  lemma KeepSnoc<T>(s: seq<T>, x: T, p: T -> bool)
    ensures Keep(s + [x], p) == Keep(s, p) + (if p(x) then [x] else [])
  {
    assert (s + [x])[..|s|] == s;
  }

  /** A filter that every element passes returns its input. */
  lemma {:induction false} KeepTrue<T>(s: seq<T>, p: T -> bool)
    requires forall x :: x in s ==> p(x)
    ensures Keep(s, p) == s
  {
    if s != [] {
      KeepTrue(s[..|s| - 1], p);
      assert s == s[..|s| - 1] + [s[|s| - 1]];
    }
  }

  /** No element occurs twice. */
  predicate Distinct<T(==)>(s: seq<T>)
  {
    forall k, l :: 0 <= k < l < |s| ==> s[k] != s[l]
  }

  lemma DistinctAppend<T>(s: seq<T>, x: T)
    requires Distinct(s) && x !in s
    ensures Distinct(s + [x])
  {
  }

  /** A sequence has no repeated element exactly when its multiset counts every element at most once. */
  lemma {:induction false} DistinctIffSingleCounts<T>(s: seq<T>)
    ensures Distinct(s) <==> forall x :: multiset(s)[x] <= 1
  {
    if s != [] {
      var init := s[..|s| - 1];
      var last := s[|s| - 1];
      DistinctIffSingleCounts(init);
      assert s == init + [last];
      if Distinct(s) {
        assert Distinct(init);
        assert last !in init;
      }
      if forall x :: multiset(s)[x] <= 1 {
        assert forall x :: multiset(init)[x] <= 1 by {
          forall x ensures multiset(init)[x] <= 1 {
            assert multiset(s)[x] == multiset(init)[x] + multiset([last])[x];
          }
        }
        assert multiset(s)[last] == multiset(init)[last] + 1;
        assert last !in multiset(init);
        forall k, l | 0 <= k < l < |s| ensures s[k] != s[l] {
          if l < |s| - 1 {
            assert s[k] == init[k] && s[l] == init[l];
          } else {
            assert s[k] == init[k];
            assert s[k] in multiset(init);
          }
        }
      }
    }
  }

  /** Number of elements satisfying `p`: `s.filter(p).length`. */
  function Count<T>(s: seq<T>, p: T -> bool): nat
  {
    |Keep(s, p)|
  }

  /** `s.slice(0, n)`. */
  function Take<T>(s: seq<T>, n: nat): (r: seq<T>)
    ensures |r| == if n < |s| then n else |s|
    ensures r <= s
  {
    if n < |s| then s[..n] else s
  }

  /** An element survives the filter exactly when it was there and satisfies `p`. */
  lemma {:induction false} KeepMembership<T>(s: seq<T>, p: T -> bool, x: T)
    ensures x in Keep(s, p) <==> x in s && p(x)
  {
    if s != [] {
      KeepMembership(s[..|s| - 1], p, x);
      assert s == s[..|s| - 1] + [s[|s| - 1]];
    }
  }

  /** Everything kept satisfies `p`. */
  lemma KeepAll<T>(s: seq<T>, p: T -> bool)
    ensures forall x :: x in Keep(s, p) ==> p(x)
  {
    forall x | x in Keep(s, p) ensures p(x) {
      KeepMembership(s, p, x);
    }
  }

  /** Filtering twice is filtering once by the conjunction. */
  lemma {:induction false} KeepKeep<T>(s: seq<T>, p: T -> bool, q: T -> bool, both: T -> bool)
    requires forall x :: both(x) == (p(x) && q(x))
    ensures Keep(Keep(s, p), q) == Keep(s, both)
  {
    if s != [] {
      var init := s[..|s| - 1];
      var last := s[|s| - 1];
      KeepKeep(init, p, q, both);
      var k := Keep(s, p);
      if p(last) {
        assert k[..|k| - 1] == Keep(init, p);
      } else {
        assert k == Keep(init, p);
      }
    }
  }

  /** Filters preserve relative order: the result is a subsequence, given by the
      increasing positions of the kept elements. */
  lemma {:induction false} KeepIsSubsequence<T>(s: seq<T>, p: T -> bool)
    ensures exists pos: seq<nat> :: IsSelection(s, Keep(s, p), pos)
  {
    if s == [] {
      var none: seq<nat> := [];
      assert IsSelection(s, Keep(s, p), none);
    } else {
      var init := s[..|s| - 1];
      KeepIsSubsequence(init, p);
      var pos: seq<nat> :| IsSelection(init, Keep(init, p), pos);
      if p(s[|s| - 1]) {
        var pos': seq<nat> := pos + [|s| - 1];
        assert Keep(s, p) == Keep(init, p) + [s[|s| - 1]];
        assert IsSelection(s, Keep(s, p), pos');
      } else {
        assert IsSelection(s, Keep(s, p), pos);
      }
    }
  }

  /** `r` consists of the elements of `s` at the strictly increasing positions `pos`. */
  ghost predicate IsSelection<T>(s: seq<T>, r: seq<T>, pos: seq<nat>)
  {
    && |pos| == |r|
    && (forall k :: 0 <= k < |pos| ==> pos[k] < |s| && s[pos[k]] == r[k])
    && (forall k, l :: 0 <= k < l < |pos| ==> pos[k] < pos[l])
  }

  lemma {:induction false} CountSplit<T>(s: seq<T>, p: T -> bool)
    requires s != []
    ensures Count(s, p) == Count(s[..|s| - 1], p) + (if p(s[|s| - 1]) then 1 else 0)
  {
  }

  /** Counting by a weaker predicate gives at least as many. */
  lemma {:induction false} CountMonotone<T>(s: seq<T>, p: T -> bool, q: T -> bool)
    requires forall x :: x in s && p(x) ==> q(x)
    ensures Count(s, p) <= Count(s, q)
  {
    if s != [] {
      CountMonotone(s[..|s| - 1], p, q);
      CountSplit(s, p);
      CountSplit(s, q);
    }
  }

  /** `[...new Set(s)]`: each value once, at the place of its first occurrence. */
  function Dedup<T(==, !new)>(s: seq<T>): (r: seq<T>)
    ensures forall x :: x in r <==> x in s
  {
    if s == [] then []
    else
      var init := Dedup(s[..|s| - 1]);
      assert forall x :: x in s <==> x in s[..|s| - 1] || x == s[|s| - 1];
      if s[|s| - 1] in init then init else init + [s[|s| - 1]]
  }

  /** One more element is appended exactly when it is new. */
  lemma DedupSnoc<T(!new)>(s: seq<T>, x: T)
    ensures Dedup(s + [x]) == if x in s then Dedup(s) else Dedup(s) + [x]
  {
    assert (s + [x])[..|s|] == s;
  }

  lemma {:induction false} DedupDistinct<T(!new)>(s: seq<T>)
    ensures Distinct(Dedup(s))
  {
    if s != [] {
      DedupDistinct(s[..|s| - 1]);
      if s[|s| - 1] !in Dedup(s[..|s| - 1]) {
        DistinctAppend(Dedup(s[..|s| - 1]), s[|s| - 1]);
      }
    }
  }

  /** The values are listed in order of first occurrence: every occurrence of a
      later value is preceded by an occurrence of each earlier one. */
  lemma {:induction false} DedupFirstOccurrence<T(!new)>(s: seq<T>)
    ensures forall k, l, j :: 0 <= k < l < |Dedup(s)| && 0 <= j < |s| && s[j] == Dedup(s)[l] ==> Dedup(s)[k] in s[..j]
  {
    if s != [] {
      var init := s[..|s| - 1];
      var last := s[|s| - 1];
      DedupFirstOccurrence(init);
      var d := Dedup(init);
      var r := Dedup(s);
      assert r == d || (last !in init && r == d + [last]);
      forall k, l, j | 0 <= k < l < |r| && 0 <= j < |s| && s[j] == r[l] ensures r[k] in s[..j] {
        assert r[k] == d[k] && r[k] in init;
        if j < |s| - 1 {
          assert s[j] == init[j] && init[..j] == s[..j];
          assert init[j] in init;
          assert l < |d| && r[l] == d[l] && init[j] == d[l];
          assert d[k] in init[..j];
        } else {
          assert s[..j] == init;
        }
      }
    }
  }
}
