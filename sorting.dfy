/** `Array.prototype.sort` with a comparator that orders by a numeric key.
    ECMAScript requires that sort to be stable, so its result is the unique
    ordering that is sorted by key and keeps elements of equal key in their
    input order; it is modelled here by insertion sort, and the lemmas show it
    is sorted, a permutation, stable, and determined by the per-key orders. */
module Sorting {

  /** Keys never decrease along `s`. */
  predicate SortedBy<T>(s: seq<T>, key: T -> real) {
    forall i, j | 0 <= i < j < |s| :: key(s[i]) <= key(s[j])
  }

  /** `x` put in front of the first element whose key is at least `key(x)`. */
  function Insert<T>(x: T, s: seq<T>, key: T -> real): (r: seq<T>)
    ensures |r| == |s| + 1
    ensures multiset(r) == multiset(s) + multiset{x}
  {
    if s == [] || key(x) <= key(s[0]) then [x] + s
    else
      assert s == [s[0]] + s[1..];
      [s[0]] + Insert(x, s[1..], key)
  }

  /** A sorted sequence stays sorted under a first element whose key is at
      most that of its head. */
  lemma SortedCons<T>(a: T, s: seq<T>, key: T -> real)
    requires SortedBy(s, key) && (s != [] ==> key(a) <= key(s[0]))
    ensures SortedBy([a] + s, key)
  {
    var r := [a] + s;
    forall i, j | 0 <= i < j < |r| ensures key(r[i]) <= key(r[j]) {
      assert r[j] == s[j - 1];
      if i > 0 {
        assert r[i] == s[i - 1];
      }
    }
  }

  /** Inserting into a sorted sequence keeps it sorted. */
  lemma {:induction false} InsertSorted<T>(x: T, s: seq<T>, key: T -> real)
    requires SortedBy(s, key)
    ensures SortedBy(Insert(x, s, key), key)
    decreases |s|
  {
    if s == [] || key(x) <= key(s[0]) {
      SortedCons(x, s, key);
    } else {
      var t := s[1..];
      assert SortedBy(t, key) by {
        forall i, j | 0 <= i < j < |t| ensures key(t[i]) <= key(t[j]) {
          assert t[i] == s[i + 1] && t[j] == s[j + 1];
        }
      }
      InsertSorted(x, t, key);
      var rest := Insert(x, t, key);
      assert key(s[0]) <= key(rest[0]) by {
        if t != [] {
          assert t[0] == s[1];
        }
      }
      SortedCons(s[0], rest, key);
    }
  }

  /** The stable sort of `s` by `key`. */
  function SortBy<T>(s: seq<T>, key: T -> real): (r: seq<T>)
    ensures |r| == |s|
    ensures multiset(r) == multiset(s)
    ensures SortedBy(r, key)
  {
    if s == [] then []
    else
      assert s == [s[0]] + s[1..];
      InsertSorted(s[0], SortBy(s[1..], key), key);
      Insert(s[0], SortBy(s[1..], key), key)
  }

  /** The elements of `s` whose key is `k`, in order. */
  function WithKey<T>(s: seq<T>, key: T -> real, k: real): seq<T> {
    if s == [] then []
    else (if key(s[0]) == k then [s[0]] else []) + WithKey(s[1..], key, k)
  }

  lemma {:induction false} InsertWithKey<T>(x: T, s: seq<T>, key: T -> real, k: real)
    ensures WithKey(Insert(x, s, key), key, k)
         == (if key(x) == k then [x] else []) + WithKey(s, key, k)
    decreases |s|
  {
    if s == [] || key(x) <= key(s[0]) {
      assert ([x] + s)[1..] == s;
    } else {
      var rest := Insert(x, s[1..], key);
      assert Insert(x, s, key) == [s[0]] + rest;
      assert ([s[0]] + rest)[1..] == rest;
      InsertWithKey(x, s[1..], key, k);
      // x and s[0] have different keys, so at most one of them is kept
      if key(x) == k {
        assert key(s[0]) != k;
        assert WithKey(s, key, k) == WithKey(s[1..], key, k);
      } else {
        assert WithKey(Insert(x, s, key), key, k)
            == (if key(s[0]) == k then [s[0]] else []) + WithKey(s[1..], key, k);
      }
    }
  }

  /** Stability: for every key, the elements carrying it keep their input order. */
  lemma {:induction false} SortByIsStable<T>(s: seq<T>, key: T -> real, k: real)
    ensures WithKey(SortBy(s, key), key, k) == WithKey(s, key, k)
    decreases |s|
  {
    if s != [] {
      SortByIsStable(s[1..], key, k);
      InsertWithKey(s[0], SortBy(s[1..], key), key, k);
    }
  }

  /** An element of `WithKey(s, key, k)` is an element of `s` with key `k`. */
  lemma {:induction false} WithKeyMember<T>(s: seq<T>, key: T -> real, k: real, y: T)
    requires y in WithKey(s, key, k)
    ensures y in s && key(y) == k
    decreases |s|
  {
    if s != [] && !(key(s[0]) == k && y == s[0]) {
      WithKeyMember(s[1..], key, k, y);
    }
  }

  /** Two sorted sequences that agree on the order of each key are equal:
      a sequence sorted by key is determined by its per-key subsequences. */
  lemma {:induction false} SortedDeterminedByKeys<T>(s: seq<T>, t: seq<T>, key: T -> real)
    requires SortedBy(s, key) && SortedBy(t, key)
    requires forall k :: WithKey(s, key, k) == WithKey(t, key, k)
    ensures s == t
    decreases |s|
  {
    // Each side's first key also occurs on the other side.
    assert s != [] ==> WithKey(t, key, key(s[0])) == WithKey(s, key, key(s[0])) != [];
    assert t != [] ==> WithKey(s, key, key(t[0])) == WithKey(t, key, key(t[0])) != [];
    if s != [] && t != [] {
      var k0 := key(s[0]);
      var k1 := key(t[0]);
      // t holds an element keyed k0, so its first key is at most k0; and vice versa.
      assert s[0] in WithKey(t, key, k0);
      WithKeyMember(t, key, k0, s[0]);
      assert t[0] in WithKey(s, key, k1);
      WithKeyMember(s, key, k1, t[0]);
      assert k1 <= k0 && k0 <= k1;
      assert WithKey(s, key, k0)[0] == s[0] && WithKey(t, key, k0)[0] == t[0];
      forall k ensures WithKey(s[1..], key, k) == WithKey(t[1..], key, k) {
        var a, b := WithKey(s[1..], key, k), WithKey(t[1..], key, k);
        assert WithKey(s, key, k) == WithKey(t, key, k);
        if k == k0 {
          assert WithKey(s, key, k) == [s[0]] + a;
          assert WithKey(t, key, k) == [t[0]] + b;
          assert ([s[0]] + a)[1..] == a;
          assert ([t[0]] + b)[1..] == b;
        } else {
          assert WithKey(s, key, k) == [] + a == a;
          assert WithKey(t, key, k) == [] + b == b;
        }
      }
      SortedDeterminedByKeys(s[1..], t[1..], key);
      assert s == [s[0]] + s[1..] && t == [t[0]] + t[1..];
    }
  }

  /** Sorting two inputs that agree on the order of each key gives the same result. */
  lemma SortByDependsOnlyOnKeyOrder<T>(s: seq<T>, t: seq<T>, key: T -> real)
    requires forall k :: WithKey(s, key, k) == WithKey(t, key, k)
    ensures SortBy(s, key) == SortBy(t, key)
  {
    forall k ensures WithKey(SortBy(s, key), key, k) == WithKey(SortBy(t, key), key, k) {
      SortByIsStable(s, key, k);
      SortByIsStable(t, key, k);
    }
    SortedDeterminedByKeys(SortBy(s, key), SortBy(t, key), key);
  }

  /** No two positions of `s` carry the same key. */
  predicate DistinctKeys<T>(s: seq<T>, key: T -> real) {
    forall i, j | 0 <= i < j < |s| :: key(s[i]) != key(s[j])
  }

  /** How often `y` occurs in `WithKey(s, key, k)`. */
  lemma {:induction false} WithKeyMultiset<T>(s: seq<T>, key: T -> real, k: real, y: T)
    ensures multiset(WithKey(s, key, k))[y] == if key(y) == k then multiset(s)[y] else 0
    decreases |s|
  {
    if s != [] {
      WithKeyMultiset(s[1..], key, k, y);
      assert s == [s[0]] + s[1..];
    }
  }

  /** With distinct keys, at most one element carries a given key. */
  lemma {:induction false} WithKeyAtMostOne<T>(s: seq<T>, key: T -> real, k: real)
    requires DistinctKeys(s, key)
    ensures |WithKey(s, key, k)| <= 1
    decreases |s|
  {
    if s != [] {
      var rest := s[1..];
      assert DistinctKeys(rest, key) by {
        forall i, j | 0 <= i < j < |rest| ensures key(rest[i]) != key(rest[j]) {
          assert rest[i] == s[i + 1] && rest[j] == s[j + 1];
        }
      }
      WithKeyAtMostOne(rest, key, k);
      if key(s[0]) == k {
        forall j | 0 <= j < |rest| ensures key(rest[j]) != k {
          assert rest[j] == s[j + 1];
        }
        WithKeyEmpty(rest, key, k);
      }
    }
  }

  /** No element keyed `k`, no element in `WithKey(s, key, k)`. */
  lemma {:induction false} WithKeyEmpty<T>(s: seq<T>, key: T -> real, k: real)
    requires forall j | 0 <= j < |s| :: key(s[j]) != k
    ensures WithKey(s, key, k) == []
    decreases |s|
  {
    if s != [] {
      WithKeyEmpty(s[1..], key, k);
    }
  }

  /** An element keyed `k` in `s` is one in any permutation of `s`. */
  lemma WithKeyOfPermutation<T>(s: seq<T>, t: seq<T>, key: T -> real, k: real, y: T)
    requires multiset(s) == multiset(t) && y in WithKey(s, key, k)
    ensures y in WithKey(t, key, k)
  {
    WithKeyMultiset(s, key, k, y);
    WithKeyMultiset(t, key, k, y);
    assert y in multiset(WithKey(s, key, k));
  }

  /** Permutations with distinct keys hold the same element under each key. */
  lemma SameWithKey<T>(s: seq<T>, t: seq<T>, key: T -> real, k: real)
    requires DistinctKeys(s, key) && DistinctKeys(t, key)
    requires multiset(s) == multiset(t)
    ensures WithKey(s, key, k) == WithKey(t, key, k)
  {
    var a, b := WithKey(s, key, k), WithKey(t, key, k);
    WithKeyAtMostOne(s, key, k);
    WithKeyAtMostOne(t, key, k);
    if a != [] {
      WithKeyOfPermutation(s, t, key, k, a[0]);
    }
    if b != [] {
      WithKeyOfPermutation(t, s, key, k, b[0]);
    }
  }

  /** Two permutations of each other whose keys are pairwise distinct sort to
      the same sequence, whatever their input order. */
  lemma PermutationSortsAlike<T>(s: seq<T>, t: seq<T>, key: T -> real)
    requires DistinctKeys(s, key) && DistinctKeys(t, key)
    requires multiset(s) == multiset(t)
    ensures SortBy(s, key) == SortBy(t, key)
  {
    forall k ensures WithKey(s, key, k) == WithKey(t, key, k) {
      SameWithKey(s, t, key, k);
    }
    SortByDependsOnlyOnKeyOrder(s, t, key);
  }

  /** Sorting an already sorted sequence returns it unchanged. */
  lemma SortBySorted<T>(s: seq<T>, key: T -> real)
    requires SortedBy(s, key)
    ensures SortBy(s, key) == s
  {
    forall k ensures WithKey(SortBy(s, key), key, k) == WithKey(s, key, k) {
      SortByIsStable(s, key, k);
    }
    SortedDeterminedByKeys(SortBy(s, key), s, key);
  }
}
