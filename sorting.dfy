/**
 * Stable sorting as done by `Array.prototype.sort` with a numeric comparator
 * `(l, r) => key(l) - key(r)`: elements with equal keys keep their relative order.
 * The sort is an insertion sort, each new element going after every element whose
 * key is not greater than its own.
 */
module Sorting {
  predicate Distinct<T(==)>(s: seq<T>)
  {
    forall i, j :: 0 <= i < j < |s| ==> s[i] != s[j]
  }

  predicate SortedByKey<T>(s: seq<T>, key: T -> int)
  {
    forall i, j :: 0 <= i < j < |s| ==> key(s[i]) <= key(s[j])
  }

  /** Inserts `x` before the first element whose key is strictly greater. */
  function InsertByKey<T>(x: T, s: seq<T>, key: T -> int): (r: seq<T>)
    requires SortedByKey(s, key)
    ensures multiset(r) == multiset(s) + multiset{x}
    ensures |r| == |s| + 1
    ensures SortedByKey(r, key)
    ensures r[0] == x || (s != [] && r[0] == s[0])
  {
    if s == [] then [x]
    else if key(x) < key(s[0]) then
      ConsSorted(x, s, key);
      [x] + s
    else
      SortedSlice(s, 1, |s|, key);
      var rest := InsertByKey(x, s[1..], key);
      InsertBehindHead(x, s, rest, key);
      [s[0]] + rest
  }

  /** The recursive case of `InsertByKey`: `x` goes behind the head of `s`. */
  lemma {:induction false} InsertBehindHead<T>(x: T, s: seq<T>, rest: seq<T>, key: T -> int)
    requires s != [] && SortedByKey(s, key) && key(s[0]) <= key(x)
    requires multiset(rest) == multiset(s[1..]) + multiset{x} && |rest| == |s|
    requires SortedByKey(rest, key)
    requires rest[0] == x || (s[1..] != [] && rest[0] == s[1..][0])
    ensures multiset([s[0]] + rest) == multiset(s) + multiset{x}
    ensures SortedByKey([s[0]] + rest, key)
  {
    assert s == [s[0]] + s[1..];
    assert key(s[0]) <= key(rest[0]);
    ConsSorted(s[0], rest, key);
  }

  lemma {:induction false} ConsSorted<T>(a: T, t: seq<T>, key: T -> int)
    requires SortedByKey(t, key)
    requires t == [] || key(a) <= key(t[0])
    ensures SortedByKey([a] + t, key)
  {
    var r := [a] + t;
    forall i, j | 0 <= i < j < |r|
      ensures key(r[i]) <= key(r[j])
    {
      if i == 0 {
        assert r[j] == t[j - 1];
        assert key(t[0]) <= key(t[j - 1]);
      } else {
        assert r[i] == t[i - 1] && r[j] == t[j - 1];
      }
    }
  }

  lemma {:induction false} SortedSlice<T>(s: seq<T>, lo: nat, hi: nat, key: T -> int)
    requires lo <= hi <= |s|
    requires SortedByKey(s, key)
    ensures SortedByKey(s[lo..hi], key)
  {
    var t := s[lo..hi];
    forall i, j | 0 <= i < j < |t|
      ensures key(t[i]) <= key(t[j])
    {
      assert t[i] == s[lo + i] && t[j] == s[lo + j];
    }
  }

  /** Stable sort by `key`. */
  function SortByKey<T>(s: seq<T>, key: T -> int): (r: seq<T>)
    ensures multiset(r) == multiset(s)
    ensures |r| == |s|
    ensures SortedByKey(r, key)
  {
    if s == [] then []
    else
      var init := s[..|s| - 1];
      assert s == init + [s[|s| - 1]];
      InsertByKey(s[|s| - 1], SortByKey(init, key), key)
  }

  /** An element inserted with a key no smaller than every key goes last. */
  lemma {:induction false} InsertLargestAppends<T>(x: T, s: seq<T>, key: T -> int)
    requires SortedByKey(s, key)
    requires forall i :: 0 <= i < |s| ==> key(s[i]) <= key(x)
    ensures InsertByKey(x, s, key) == s + [x]
  {
    if s != [] {
      SortedSlice(s, 1, |s|, key);
      var t := s[1..];
      assert forall i :: 0 <= i < |t| ==> key(t[i]) <= key(x) by {
        forall i | 0 <= i < |t|
          ensures key(t[i]) <= key(x)
        {
          assert t[i] == s[i + 1];
        }
      }
      InsertLargestAppends(x, t, key);
      assert s == [s[0]] + t;
    }
  }

  /** Sorting a sequence that is already sorted leaves it as it is. */
  lemma {:induction false} SortSortedIsIdentity<T>(s: seq<T>, key: T -> int)
    requires SortedByKey(s, key)
    ensures SortByKey(s, key) == s
  {
    if s != [] {
      var n := |s|;
      var init, last := s[..n - 1], s[n - 1];
      SortedSlice(s, 0, n - 1, key);
      assert SortByKey(init, key) == init by {
        SortSortedIsIdentity(init, key);
      }
      assert InsertByKey(last, init, key) == init + [last] by {
        forall i | 0 <= i < |init|
          ensures key(init[i]) <= key(last)
        {
          assert init[i] == s[i];
        }
        InsertLargestAppends(last, init, key);
      }
      assert s == init + [last];
    }
  }

  /** In a sequence without repetitions every element occurs once. */
  lemma {:induction false} DistinctOccursOnce<T>(s: seq<T>)
    requires Distinct(s)
    ensures forall x :: multiset(s)[x] == if x in s then 1 else 0
  {
    if s != [] {
      var t := s[1..];
      assert s == [s[0]] + t;
      DistinctOccursOnce(t);
      assert s[0] !in t by {
        forall k | 0 <= k < |t|
          ensures t[k] != s[0]
        {
          assert t[k] == s[k + 1];
        }
      }
      forall x
        ensures multiset(s)[x] == if x in s then 1 else 0
      {
        assert multiset(s) == multiset{s[0]} + multiset(t);
      }
    }
  }

  /** Two sequences without repetitions holding the same elements are permutations of each other. */
  lemma {:induction false} SameElementsSameMultiset<T>(a: seq<T>, b: seq<T>)
    requires Distinct(a) && Distinct(b)
    requires forall x :: x in a <==> x in b
    ensures multiset(a) == multiset(b)
  {
    DistinctOccursOnce(a);
    DistinctOccursOnce(b);
    assert forall x :: multiset(a)[x] == multiset(b)[x];
  }

  /** A permutation of a sequence without repetitions has none either. */
  lemma {:induction false} PermutationKeepsDistinct<T>(s: seq<T>, r: seq<T>)
    requires Distinct(s)
    requires multiset(r) == multiset(s)
    ensures Distinct(r)
  {
    DistinctOccursOnce(s);
    forall i, j | 0 <= i < j < |r|
      ensures r[i] != r[j]
    {
      RepeatCountsTwice(r, i, j);
      assert r[i] in multiset(s);
    }
  }

  /** An element found at two positions occurs at least twice. */
  lemma {:induction false} RepeatCountsTwice<T>(r: seq<T>, i: nat, j: nat)
    requires i < j < |r|
    ensures r[i] == r[j] ==> multiset(r)[r[i]] >= 2
  {
    assert r == r[..j] + r[j..];
    assert r[i] in r[..j] && r[j] in r[j..];
    assert multiset(r)[r[i]] == multiset(r[..j])[r[i]] + multiset(r[j..])[r[i]];
  }

  /** A strictly increasing sequence of `n` integers drawn from `[0, n)` is `0, 1, …, n - 1`. */
  lemma {:induction false} StrictRanksAreIndices(ks: seq<int>)
    requires forall i, j :: 0 <= i < j < |ks| ==> ks[i] < ks[j]
    requires forall i :: 0 <= i < |ks| ==> 0 <= ks[i] < |ks|
    ensures forall i :: 0 <= i < |ks| ==> ks[i] == i
  {
    if ks != [] {
      var n := |ks|;
      var init := ks[..n - 1];
      assert forall i :: 0 <= i < n - 1 ==> init[i] < ks[n - 1];
      StrictRanksAreIndices(init);
      assert n >= 2 ==> ks[n - 2] == n - 2;
    }
  }

  /** A permutation of a sequence whose elements have pairwise different keys has pairwise different keys too. */
  lemma {:induction false} PermutationKeepsDistinctKeys<T, K>(s: seq<T>, r: seq<T>, key: T -> K)
    requires multiset(r) == multiset(s)
    requires forall i, j :: 0 <= i < j < |s| ==> key(s[i]) != key(s[j])
    ensures forall i, j :: 0 <= i < j < |r| ==> key(r[i]) != key(r[j])
  {
    assert Distinct(s) by {
      forall i, j | 0 <= i < j < |s|
        ensures s[i] != s[j]
      {
        assert key(s[i]) != key(s[j]);
      }
    }
    PermutationKeepsDistinct(s, r);
    forall i, j | 0 <= i < j < |r|
      ensures key(r[i]) != key(r[j])
    {
      assert r[i] in multiset(s) && r[j] in multiset(s);
      var a :| 0 <= a < |s| && s[a] == r[i];
      var b :| 0 <= b < |s| && s[b] == r[j];
      assert a != b;
      if a < b {
        assert key(s[a]) != key(s[b]);
      } else {
        assert key(s[b]) != key(s[a]);
      }
    }
  }

  // ---------------------------------------------------------------------------
  // Sorting with a comparator, `Array.prototype.sort((l, r) => …)`
  // ---------------------------------------------------------------------------

  /**
   * A comparator `less(l, r)` (the comparator's result is negative) that JavaScript's
   * sort can use consistently: never both ways, and "not after" is transitive.
   */
  ghost predicate Preorder<T(!new)>(less: (T, T) -> bool)
  {
    && (forall a, b :: less(a, b) ==> !less(b, a))
    && (forall a, b, c :: !less(b, a) && !less(c, b) ==> !less(c, a))
  }

  /** No element is strictly before one that precedes it. */
  predicate SortedBy<T>(s: seq<T>, less: (T, T) -> bool)
  {
    forall i, j :: 0 <= i < j < |s| ==> !less(s[j], s[i])
  }

  /** Inserts `x` before the first element it is strictly before. */
  function InsertBy<T(!new)>(x: T, s: seq<T>, less: (T, T) -> bool): (r: seq<T>)
    requires Preorder(less) && SortedBy(s, less)
    ensures multiset(r) == multiset(s) + multiset{x}
    ensures |r| == |s| + 1
    ensures SortedBy(r, less)
    ensures r[0] == x || (s != [] && r[0] == s[0])
  {
    if s == [] then [x]
    else if less(x, s[0]) then
      ConsSortedBy(x, s, less);
      [x] + s
    else
      SortedBySlice(s, 1, |s|, less);
      var rest := InsertBy(x, s[1..], less);
      assert s == [s[0]] + s[1..];
      ConsSortedBy(s[0], rest, less);
      [s[0]] + rest
  }

  lemma {:induction false} ConsSortedBy<T(!new)>(a: T, t: seq<T>, less: (T, T) -> bool)
    requires Preorder(less) && SortedBy(t, less)
    requires t == [] || !less(t[0], a)
    ensures SortedBy([a] + t, less)
  {
    var r := [a] + t;
    forall i, j | 0 <= i < j < |r|
      ensures !less(r[j], r[i])
    {
      if i == 0 {
        assert r[j] == t[j - 1];
        assert !less(t[j - 1], t[0]);
      } else {
        assert r[i] == t[i - 1] && r[j] == t[j - 1];
      }
    }
  }

  lemma {:induction false} SortedBySlice<T>(s: seq<T>, lo: nat, hi: nat, less: (T, T) -> bool)
    requires lo <= hi <= |s|
    requires SortedBy(s, less)
    ensures SortedBy(s[lo..hi], less)
  {
    var t := s[lo..hi];
    forall i, j | 0 <= i < j < |t|
      ensures !less(t[j], t[i])
    {
      assert t[i] == s[lo + i] && t[j] == s[lo + j];
    }
  }

  /** Stable sort with a comparator. */
  function SortBy<T(!new)>(s: seq<T>, less: (T, T) -> bool): (r: seq<T>)
    requires Preorder(less)
    ensures multiset(r) == multiset(s)
    ensures |r| == |s|
    ensures SortedBy(r, less)
  {
    if s == [] then []
    else
      var init := s[..|s| - 1];
      assert s == init + [s[|s| - 1]];
      InsertBy(s[|s| - 1], SortBy(init, less), less)
  }

  // ---------------------------------------------------------------------------
  // Stability: elements that compare equal keep their input order
  // ---------------------------------------------------------------------------

  /** The elements of `s` whose key is `k`, in order. */
  function WithKey<T>(s: seq<T>, key: T -> int, k: int): (r: seq<T>)
    ensures |r| <= |s|
  {
    if s == [] then []
    else (if key(s[0]) == k then [s[0]] else []) + WithKey(s[1..], key, k)
  }

  lemma {:induction false} WithKeyConcat<T>(a: seq<T>, b: seq<T>, key: T -> int, k: int)
    ensures WithKey(a + b, key, k) == WithKey(a, key, k) + WithKey(b, key, k)
  {
    if a != [] {
      var h := WithKey([a[0]], key, k);
      assert WithKey(a, key, k) == h + WithKey(a[1..], key, k);
      assert (a + b)[0] == a[0] && (a + b)[1..] == a[1..] + b;
      assert WithKey(a + b, key, k) == h + WithKey(a[1..] + b, key, k);
      WithKeyConcat(a[1..], b, key, k);
    } else {
      assert a + b == b;
    }
  }

  lemma {:induction false} WithKeyAbove<T>(s: seq<T>, key: T -> int, k: int)
    requires forall i :: 0 <= i < |s| ==> k < key(s[i])
    ensures WithKey(s, key, k) == []
  {
    if s != [] {
      assert forall i :: 0 <= i < |s[1..]| ==> s[1..][i] == s[i + 1];
      WithKeyAbove(s[1..], key, k);
    }
  }

  lemma {:induction false} WithKeySingleton<T>(x: T, key: T -> int, k: int)
    ensures WithKey([x], key, k) == if key(x) == k then [x] else []
  {
    assert [x][1..] == [];
  }

  /** Inserting `x` puts it behind every element that already has its key. */
  lemma {:induction false} InsertByKeyWithKey<T>(x: T, s: seq<T>, key: T -> int, k: int)
    requires SortedByKey(s, key)
    ensures WithKey(InsertByKey(x, s, key), key, k) == WithKey(s, key, k) + (if key(x) == k then [x] else [])
  {
    WithKeySingleton(x, key, k);
    if s == [] {
    } else if key(x) < key(s[0]) {
      assert InsertByKey(x, s, key) == [x] + s;
      WithKeyConcat([x], s, key, k);
      if key(x) == k {
        WithKeyAbove(s, key, k);
      }
    } else {
      SortedSlice(s, 1, |s|, key);
      var rest := InsertByKey(x, s[1..], key);
      assert InsertByKey(x, s, key) == [s[0]] + rest;
      InsertByKeyWithKey(x, s[1..], key, k);
      WithKeyConcat([s[0]], rest, key, k);
      assert s == [s[0]] + s[1..];
      WithKeyConcat([s[0]], s[1..], key, k);
    }
  }

  /** `SortByKey` is stable: the elements with any one key come out in their input order. */
  lemma {:induction false} SortByKeyStable<T>(s: seq<T>, key: T -> int, k: int)
    ensures WithKey(SortByKey(s, key), key, k) == WithKey(s, key, k)
  {
    if s != [] {
      var init, last := s[..|s| - 1], s[|s| - 1];
      assert s == init + [last];
      SortByKeyStable(init, key, k);
      InsertByKeyWithKey(last, SortByKey(init, key), key, k);
      WithKeyConcat(init, [last], key, k);
      WithKeySingleton(last, key, k);
    }
  }

  /** Neither is strictly before the other: the comparator returns 0 for them. */
  predicate Tied<T>(a: T, b: T, less: (T, T) -> bool)
  {
    !less(a, b) && !less(b, a)
  }

  /** The elements of `s` tied with `z`, in order. */
  function TiedWith<T>(s: seq<T>, z: T, less: (T, T) -> bool): (r: seq<T>)
    ensures |r| <= |s|
  {
    if s == [] then []
    else (if Tied(s[0], z, less) then [s[0]] else []) + TiedWith(s[1..], z, less)
  }

  lemma {:induction false} TiedWithConcat<T>(a: seq<T>, b: seq<T>, z: T, less: (T, T) -> bool)
    ensures TiedWith(a + b, z, less) == TiedWith(a, z, less) + TiedWith(b, z, less)
  {
    if a != [] {
      var h := TiedWith([a[0]], z, less);
      assert TiedWith(a, z, less) == h + TiedWith(a[1..], z, less);
      assert (a + b)[0] == a[0] && (a + b)[1..] == a[1..] + b;
      assert TiedWith(a + b, z, less) == h + TiedWith(a[1..] + b, z, less);
      TiedWithConcat(a[1..], b, z, less);
    } else {
      assert a + b == b;
    }
  }

  lemma {:induction false} TiedWithAbove<T>(s: seq<T>, z: T, less: (T, T) -> bool)
    requires forall i :: 0 <= i < |s| ==> less(z, s[i])
    ensures TiedWith(s, z, less) == []
  {
    if s != [] {
      assert forall i :: 0 <= i < |s[1..]| ==> s[1..][i] == s[i + 1];
      TiedWithAbove(s[1..], z, less);
    }
  }

  /** An element strictly before the head of a sorted sequence is strictly before each of its elements. */
  lemma {:induction false} BeforeHeadBeforeAll<T(!new)>(x: T, s: seq<T>, z: T, less: (T, T) -> bool)
    requires Preorder(less) && SortedBy(s, less)
    requires s != [] && less(x, s[0]) && Tied(x, z, less)
    ensures forall i :: 0 <= i < |s| ==> less(z, s[i])
  {
    forall i | 0 <= i < |s|
      ensures less(z, s[i])
    {
      var y := s[i];
      assert !less(y, s[0]);
      assert !less(z, y) ==> !less(x, y);
    }
  }

  lemma {:induction false} TiedWithSingleton<T>(x: T, z: T, less: (T, T) -> bool)
    ensures TiedWith([x], z, less) == if Tied(x, z, less) then [x] else []
  {
    assert [x][1..] == [];
  }

  /** Inserting `x` puts it behind every element already tied with it. */
  lemma {:induction false} InsertByTiedWith<T(!new)>(x: T, s: seq<T>, z: T, less: (T, T) -> bool)
    requires Preorder(less) && SortedBy(s, less)
    ensures TiedWith(InsertBy(x, s, less), z, less) == TiedWith(s, z, less) + (if Tied(x, z, less) then [x] else [])
  {
    if s == [] {
      TiedWithSingleton(x, z, less);
    } else if less(x, s[0]) {
      InsertInFrontTiedWith(x, s, z, less);
    } else {
      SortedBySlice(s, 1, |s|, less);
      var rest := InsertBy(x, s[1..], less);
      assert InsertBy(x, s, less) == [s[0]] + rest;
      InsertByTiedWith(x, s[1..], z, less);
      ConsTiedWith(s[0], s[1..], rest, if Tied(x, z, less) then [x] else [], z, less);
      assert [s[0]] + s[1..] == s;
    }
  }

  lemma {:induction false} InsertInFrontTiedWith<T(!new)>(x: T, s: seq<T>, z: T, less: (T, T) -> bool)
    requires Preorder(less) && SortedBy(s, less) && s != [] && less(x, s[0])
    ensures TiedWith(InsertBy(x, s, less), z, less) == TiedWith(s, z, less) + (if Tied(x, z, less) then [x] else [])
  {
    TiedWithSingleton(x, z, less);
    assert InsertBy(x, s, less) == [x] + s;
    TiedWithConcat([x], s, z, less);
    if Tied(x, z, less) {
      BeforeHeadBeforeAll(x, s, z, less);
      TiedWithAbove(s, z, less);
    }
  }

  lemma {:induction false} ConsTiedWith<T>(h: T, t: seq<T>, r: seq<T>, extra: seq<T>, z: T, less: (T, T) -> bool)
    requires TiedWith(r, z, less) == TiedWith(t, z, less) + extra
    ensures TiedWith([h] + r, z, less) == TiedWith([h] + t, z, less) + extra
  {
    TiedWithConcat([h], r, z, less);
    TiedWithConcat([h], t, z, less);
  }

  /** `SortBy` is stable: the elements the comparator ties with any `z` come out in their input order. */
  lemma {:induction false} SortByStable<T(!new)>(s: seq<T>, z: T, less: (T, T) -> bool)
    requires Preorder(less)
    ensures TiedWith(SortBy(s, less), z, less) == TiedWith(s, z, less)
  {
    if s != [] {
      var init, last := s[..|s| - 1], s[|s| - 1];
      assert s == init + [last];
      SortByStable(init, z, less);
      InsertByTiedWith(last, SortBy(init, less), z, less);
      TiedWithConcat(init, [last], z, less);
      TiedWithSingleton(last, z, less);
    }
  }

  // ---------------------------------------------------------------------------
  // Searching and filtering
  // ---------------------------------------------------------------------------

  /** `s.indexOf(x)`: the first position of `x`, or -1. */
  function IndexOf<T(==)>(s: seq<T>, x: T): (r: int)
    ensures -1 <= r < |s|
    ensures r == -1 <==> x !in s
    ensures 0 <= r ==> s[r] == x && forall i :: 0 <= i < r ==> s[i] != x
  {
    if s == [] then -1
    else if s[0] == x then 0
    else
      var k := IndexOf(s[1..], x);
      if k < 0 then -1 else k + 1
  }

  /** `s.filter((y) => y !== x)`. */
  function Remove<T(==,!new)>(s: seq<T>, x: T): (r: seq<T>)
    ensures forall y :: y in r <==> y in s && y != x
    ensures |r| <= |s|
  {
    if s == [] then []
    else if s[0] == x then Remove(s[1..], x)
    else [s[0]] + Remove(s[1..], x)
  }

  /** Removing what is absent changes nothing. */
  lemma {:induction false} RemoveAbsent<T(!new)>(s: seq<T>, x: T)
    requires x !in s
    ensures Remove(s, x) == s
  {
    if s != [] {
      assert s[1..] == s[1..] && x !in s[1..];
      RemoveAbsent(s[1..], x);
      assert s == [s[0]] + s[1..];
    }
  }

  /** Removing keeps a sequence free of repetitions. */
  lemma {:induction false} RemoveKeepsDistinct<T(!new)>(s: seq<T>, x: T)
    requires Distinct(s)
    ensures Distinct(Remove(s, x))
  {
    if s != [] {
      var t := s[1..];
      DistinctTail(s);
      RemoveKeepsDistinct(t, x);
      if s[0] != x {
        assert s[0] !in t by {
          assert s == [s[0]] + t;
        }
        DistinctCons(s[0], Remove(t, x));
      }
    }
  }

  /** In a sequence without repetitions, removing an element cuts out its one occurrence. */
  lemma {:induction false} RemoveFromDistinct<T(!new)>(s: seq<T>, x: T)
    requires Distinct(s) && x in s
    ensures Remove(s, x) == s[..IndexOf(s, x)] + s[IndexOf(s, x) + 1..]
  {
    var t := s[1..];
    if s[0] == x {
      assert x !in t by {
        assert s == [s[0]] + t;
      }
      RemoveAbsent(t, x);
    } else {
      DistinctTail(s);
      assert x in t;
      RemoveFromDistinct(t, x);
      assert s == [s[0]] + t;
    }
  }

  lemma {:induction false} DistinctTail<T>(s: seq<T>)
    requires Distinct(s) && s != []
    ensures Distinct(s[1..]) && s[0] !in s[1..]
  {
    var t := s[1..];
    forall i, j | 0 <= i < j < |t|
      ensures t[i] != t[j]
    {
      assert t[i] == s[i + 1] && t[j] == s[j + 1];
    }
    forall i | 0 <= i < |t|
      ensures t[i] != s[0]
    {
      assert t[i] == s[i + 1];
    }
  }

  lemma {:induction false} DistinctCons<T>(x: T, t: seq<T>)
    requires Distinct(t) && x !in t
    ensures Distinct([x] + t)
  {
    var r := [x] + t;
    forall i, j | 0 <= i < j < |r|
      ensures r[i] != r[j]
    {
      assert r[j] == t[j - 1];
      if i > 0 {
        assert r[i] == t[i - 1];
      }
    }
  }

  /** Two sequences without repetitions and without common elements concatenate to one. */
  lemma {:induction false} DistinctConcat<T>(a: seq<T>, b: seq<T>)
    requires Distinct(a) && Distinct(b)
    requires forall x :: x in a ==> x !in b
    ensures Distinct(a + b)
  {
    var r := a + b;
    forall i, j | 0 <= i < j < |r|
      ensures r[i] != r[j]
    {
      if j >= |a| {
        assert r[j] == b[j - |a|];
        if i >= |a| {
          assert r[i] == b[i - |a|];
        } else {
          assert r[i] == a[i] && a[i] in a;
        }
      } else {
        assert r[i] == a[i] && r[j] == a[j];
      }
    }
  }

  /**
   * `s.filter((x, index, array) => array.indexOf(x) === index)`, or the keys of a
   * `Map` filled in this order: every value once, where it first appears.
   */
  function FirstAppearances<T(==,!new)>(s: seq<T>): (r: seq<T>)
    ensures Distinct(r)
    ensures forall x :: x in r <==> x in s
  {
    if s == [] then []
    else
      var prev := FirstAppearances(s[..|s| - 1]);
      assert forall x :: x in s <==> x in s[..|s| - 1] || x == s[|s| - 1] by {
        assert s == s[..|s| - 1] + [s[|s| - 1]];
      }
      if s[|s| - 1] in prev then prev else prev + [s[|s| - 1]]
  }

  /** Appending an element adds it to the first appearances unless it is already there. */
  lemma {:induction false} FirstAppearancesSnoc<T(!new)>(s: seq<T>, x: T)
    ensures FirstAppearances(s + [x]) == if x in FirstAppearances(s) then FirstAppearances(s) else FirstAppearances(s) + [x]
  {
    assert (s + [x])[..|s|] == s;
  }

  /** A sequence without repetitions keeps every element. */
  lemma {:induction false} FirstAppearancesOfDistinct<T(!new)>(s: seq<T>)
    requires Distinct(s)
    ensures FirstAppearances(s) == s
  {
    if s != [] {
      var init := s[..|s| - 1];
      assert Distinct(init);
      FirstAppearancesOfDistinct(init);
      assert s[|s| - 1] !in init;
      assert s == init + [s[|s| - 1]];
    }
  }

  /** Putting a new element anywhere into a sequence without repetitions gives one again. */
  lemma {:induction false} DistinctInsertAt<T>(s: seq<T>, x: T, at: nat)
    requires Distinct(s) && x !in s && at <= |s|
    ensures Distinct(s[..at] + [x] + s[at..])
  {
    var r := s[..at] + [x] + s[at..];
    assert forall i :: 0 <= i < |r| ==> r[i] == if i < at then s[i] else if i == at then x else s[i - 1];
    forall i, j | 0 <= i < j < |r|
      ensures r[i] != r[j]
    {
      if i != at && j != at {
        assert r[i] == s[if i < at then i else i - 1];
        assert r[j] == s[if j < at then j else j - 1];
      }
    }
  }
}
