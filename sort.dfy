/** The stable descending sort that `Array.prototype.sort` performs with a comparator
    `(a, b) => key(b) - key(a)`: largest key first, ties kept in their original order.
    It is specified by insertion, one element at a time from the left. */
module StableSort {
  import opened Seqs

  /** Puts `x` after every element of `s` whose key is at least `x`'s. */
  function Insert<T>(x: T, s: seq<T>, key: T -> int): (r: seq<T>)
    ensures |r| == |s| + 1
  {
    if s == [] then [x]
    else if key(s[0]) >= key(x) then [s[0]] + Insert(x, s[1..], key)
    else [x] + s
  }

  function SortDesc<T>(s: seq<T>, key: T -> int): (r: seq<T>)
    ensures |r| == |s|
  {
    if s == [] then [] else Insert(s[|s| - 1], SortDesc(s[..|s| - 1], key), key)
  }

  ghost predicate Descending<T>(s: seq<T>, key: T -> int)
  {
    forall i, j :: 0 <= i < j < |s| ==> key(s[i]) >= key(s[j])
  }

  /** The elements of `s` whose key is `k`, in order. */
  function WithKey<T>(s: seq<T>, key: T -> int, k: int): seq<T>
  {
    if s == [] then [] else (if key(s[0]) == k then [s[0]] else []) + WithKey(s[1..], key, k)
  }

  /** Sum of `f` over `s`, as a left-to-right `reduce` from 0. */
  function SumBy<T>(s: seq<T>, f: T -> int): int
  {
    if s == [] then 0 else SumBy(s[..|s| - 1], f) + f(s[|s| - 1])
  }

  lemma InsertFacts<T>(x: T, s: seq<T>, key: T -> int)
    requires Descending(s, key)
    ensures Descending(Insert(x, s, key), key)
    ensures multiset(Insert(x, s, key)) == multiset(s) + multiset{x}
  {
    InsertDescending(x, s, key);
    InsertPermutation(x, s, key);
  }

  /** Inserting adds `x` and nothing else. */
  lemma {:induction false} InsertPermutation<T>(x: T, s: seq<T>, key: T -> int)
    ensures multiset(Insert(x, s, key)) == multiset(s) + multiset{x}
  {
    if s != [] && key(s[0]) >= key(x) {
      InsertPermutation(x, s[1..], key);
      assert [s[0]] + s[1..] == s;
    }
  }

  /** Every element of an insertion is `x` or an element of `s`. */
  lemma {:induction false} InsertMembers<T>(x: T, s: seq<T>, key: T -> int)
    ensures forall m :: 0 <= m < |Insert(x, s, key)| ==> Insert(x, s, key)[m] == x || Insert(x, s, key)[m] in s
  {
    if s != [] && key(s[0]) >= key(x) {
      InsertMembers(x, s[1..], key);
      var r := Insert(x, s[1..], key);
      forall m | 0 <= m < |r| ensures r[m] == x || r[m] in s {
        if r[m] != x {
          var p :| 0 <= p < |s[1..]| && s[1..][p] == r[m];
          assert s[p + 1] == r[m];
        }
      }
    }
  }

  /** Everything an insertion into `s[1..]` holds has a key at most `s[0]`'s. */
  lemma InsertBelowHead<T>(x: T, s: seq<T>, key: T -> int)
    requires s != [] && Descending(s, key) && key(s[0]) >= key(x)
    ensures forall m :: 0 <= m < |Insert(x, s[1..], key)| ==> key(Insert(x, s[1..], key)[m]) <= key(s[0])
  {
    InsertMembers(x, s[1..], key);
    var r := Insert(x, s[1..], key);
    forall m | 0 <= m < |r| ensures key(r[m]) <= key(s[0]) {
      if r[m] != x {
        var p :| 0 <= p < |s[1..]| && s[1..][p] == r[m];
        assert s[p + 1] == r[m];
      }
    }
  }

  /** Inserting into a descending sequence keeps it descending. */
  lemma {:induction false} InsertDescending<T>(x: T, s: seq<T>, key: T -> int)
    requires Descending(s, key)
    ensures Descending(Insert(x, s, key), key)
  {
    if s != [] && key(s[0]) >= key(x) {
      InsertDescending(x, s[1..], key);
      InsertBelowHead(x, s, key);
      var r := Insert(x, s[1..], key);
      var t := [s[0]] + r;
      forall i, j | 0 <= i < j < |t| ensures key(t[i]) >= key(t[j]) {
        if i > 0 {
          assert t[i] == r[i - 1] && t[j] == r[j - 1];
        } else {
          assert t[j] == r[j - 1];
        }
      }
    }
  }

  /** The sort yields the largest keys first. */
  lemma {:induction false} SortIsDescending<T>(s: seq<T>, key: T -> int)
    ensures Descending(SortDesc(s, key), key)
  {
    if s != [] {
      SortIsDescending(s[..|s| - 1], key);
      InsertFacts(s[|s| - 1], SortDesc(s[..|s| - 1], key), key);
    }
  }

  /** The sort is a permutation of its input. */
  lemma {:induction false} SortIsPermutation<T>(s: seq<T>, key: T -> int)
    ensures multiset(SortDesc(s, key)) == multiset(s)
  {
    if s != [] {
      SortIsPermutation(s[..|s| - 1], key);
      SortIsDescending(s[..|s| - 1], key);
      InsertFacts(s[|s| - 1], SortDesc(s[..|s| - 1], key), key);
      assert s[..|s| - 1] + [s[|s| - 1]] == s;
    }
  }

  lemma {:induction false} WithKeyAppend<T>(a: seq<T>, b: seq<T>, key: T -> int, k: int)
    ensures WithKey(a + b, key, k) == WithKey(a, key, k) + WithKey(b, key, k)
  {
    if a != [] {
      assert (a + b)[1..] == a[1..] + b;
      WithKeyAppend(a[1..], b, key, k);
    } else {
      assert a + b == b;
    }
  }

  lemma {:induction false} WithKeyBelow<T>(s: seq<T>, key: T -> int, k: int)
    requires Descending(s, key)
    requires s != [] ==> key(s[0]) < k
    ensures WithKey(s, key, k) == []
  {
    if s != [] {
      WithKeyBelow(s[1..], key, k);
    }
  }

  lemma {:induction false} WithKeyInsert<T>(x: T, s: seq<T>, key: T -> int, k: int)
    requires Descending(s, key)
    ensures WithKey(Insert(x, s, key), key, k) == WithKey(s, key, k) + WithKey([x], key, k)
  {
    var h := if key(x) == k then [x] else [];
    assert WithKey([x], key, k) == h by {
      assert [x][1..] == [];
    }
    if s == [] {
    } else if key(s[0]) >= key(x) {
      WithKeyInsert(x, s[1..], key, k);
      var r := Insert(x, s[1..], key);
      assert ([s[0]] + r)[1..] == r;
      var h0 := if key(s[0]) == k then [s[0]] else [];
      assert WithKey(s, key, k) == h0 + WithKey(s[1..], key, k);
      AppendAssociates(h0, WithKey(s[1..], key, k), h);
    } else {
      var r := [x] + s;
      assert r[1..] == s;
      if key(x) == k {
        WithKeyBelow(s, key, k);
      }
      assert WithKey(r, key, k) == h + WithKey(s, key, k);
    }
  }

  /** Stability: among elements with equal keys the sort keeps the input order. */
  lemma {:induction false} SortIsStable<T>(s: seq<T>, key: T -> int, k: int)
    ensures WithKey(SortDesc(s, key), key, k) == WithKey(s, key, k)
  {
    if s != [] {
      var init, last := s[..|s| - 1], s[|s| - 1];
      SortIsStable(init, key, k);
      SortIsDescending(init, key);
      WithKeyInsert(last, SortDesc(init, key), key, k);
      assert init + [last] == s;
      WithKeyAppend(init, [last], key, k);
    }
  }

  lemma {:induction false} SumByAppend<T>(a: seq<T>, b: seq<T>, f: T -> int)
    ensures SumBy(a + b, f) == SumBy(a, f) + SumBy(b, f)
  {
    if b != [] {
      assert (a + b)[..|a + b| - 1] == a + b[..|b| - 1];
      SumByAppend(a, b[..|b| - 1], f);
    } else {
      assert a + b == a;
    }
  }

  lemma {:induction false} SumByInsert<T>(x: T, s: seq<T>, key: T -> int, f: T -> int)
    ensures SumBy(Insert(x, s, key), f) == SumBy(s, f) + f(x)
  {
    if s != [] {
      if key(s[0]) >= key(x) {
        SumByInsert(x, s[1..], key, f);
        SumByAppend([s[0]], Insert(x, s[1..], key), f);
        SumByAppend([s[0]], s[1..], f);
        assert [s[0]] + s[1..] == s;
      } else {
        SumByAppend([x], s, f);
      }
    }
  }

  /** Sorting does not change a sum over the elements. */
  lemma {:induction false} SortKeepsSum<T>(s: seq<T>, key: T -> int, f: T -> int)
    ensures SumBy(SortDesc(s, key), f) == SumBy(s, f)
  {
    if s != [] {
      SortKeepsSum(s[..|s| - 1], key, f);
      SumByInsert(s[|s| - 1], SortDesc(s[..|s| - 1], key), key, f);
    }
  }

  /** Every pair, in sequence order, satisfies `fits`. */
  ghost predicate Chained<T>(s: seq<T>, fits: (T, T) -> bool)
  {
    forall i, j :: 0 <= i < j < |s| ==> fits(s[i], s[j])
  }

  /** `a` and `b` satisfy `fits` in whichever order the sort puts them, `a` having
      arrived first. */
  ghost predicate FitsEitherWay<T>(a: T, b: T, key: T -> int, fits: (T, T) -> bool)
  {
    (key(a) >= key(b) ==> fits(a, b)) && (key(a) < key(b) ==> fits(b, a))
  }

  lemma {:induction false} InsertKeepsChain<T>(x: T, s: seq<T>, key: T -> int, fits: (T, T) -> bool)
    requires Descending(s, key) && Chained(s, fits)
    requires forall k :: 0 <= k < |s| ==> FitsEitherWay(s[k], x, key, fits)
    ensures Chained(Insert(x, s, key), fits)
  {
    if s != [] && key(s[0]) >= key(x) {
      InsertKeepsChain(x, s[1..], key, fits);
      var r := Insert(x, s[1..], key);
      InsertMembers(x, s[1..], key);
      forall m | 0 <= m < |r| ensures fits(s[0], r[m]) {
        if r[m] != x {
          var p :| 0 <= p < |s[1..]| && s[1..][p] == r[m];
          assert s[p + 1] == r[m];
        }
      }
      var t := Insert(x, s, key);
      assert t == [s[0]] + r;
      forall i, j | 0 <= i < j < |t| ensures fits(t[i], t[j]) {
        if i > 0 {
          assert t[i] == r[i - 1] && t[j] == r[j - 1];
        } else {
          assert t[j] == r[j - 1];
        }
      }
    } else if s != [] {
      var t := [x] + s;
      forall i, j | 0 <= i < j < |t| ensures fits(t[i], t[j]) {
        if i > 0 {
          assert t[i] == s[i - 1] && t[j] == s[j - 1];
        } else {
          assert t[j] == s[j - 1];
          assert key(s[0]) >= key(s[j - 1]);
        }
      }
    }
  }

  /** If every pair of elements fits in whichever order the stable sort will put it, the
      whole sorted sequence is chained. */
  lemma {:induction false} SortChains<T>(s: seq<T>, key: T -> int, fits: (T, T) -> bool)
    requires forall i, j :: 0 <= i < j < |s| ==> FitsEitherWay(s[i], s[j], key, fits)
    ensures Chained(SortDesc(s, key), fits)
  {
    if s != [] {
      var init, last := s[..|s| - 1], s[|s| - 1];
      SortChains(init, key, fits);
      SortIsDescending(init, key);
      SortIsPermutation(init, key);
      var r := SortDesc(init, key);
      forall k | 0 <= k < |r| ensures FitsEitherWay(r[k], last, key, fits) {
        assert r[k] in multiset(init);
        var p :| 0 <= p < |init| && init[p] == r[k];
      }
      InsertKeepsChain(last, r, key, fits);
    }
  }
}
