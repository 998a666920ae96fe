/** Counting by key, in the order keys are first met. A plain JavaScript
    object used as a counter, each key's entry started at 1 or bumped, lists its
    string keys in insertion order, which is the order in which each key is
    first seen; this module gives that order and the per-key counts, and
    proves that the counts add up to the number of keyed elements. */
module Tally {
  import opened Collections

  /** The keys of the elements that have one, in order. Elements whose key is
      `None` are skipped, as the counting loops skip unlabelled actions. */
  function KeysOf<T, K>(xs: seq<T>, key: T -> Option<K>): (r: seq<K>)
    ensures |r| <= |xs|
    decreases |xs|
  {
    if xs == [] then []
    else
      var init, last := xs[..|xs| - 1], xs[|xs| - 1];
      KeysOf(init, key) + (if key(last).Some? then [key(last).value] else [])
  }

  /** How often `k` occurs in `keys`. */
  function Count<K(==)>(keys: seq<K>, k: K): nat {
    multiset(keys)[k]
  }

  /** No key occurs twice. */
  predicate Distinct<K(==)>(ks: seq<K>) {
    forall i, j | 0 <= i < j < |ks| :: ks[i] != ks[j]
  }

  /** The distinct keys of `keys`, each where it first occurs. */
  function FirstSeen<K(==)>(keys: seq<K>): (r: seq<K>)
    ensures Distinct(r)
    ensures forall i | 0 <= i < |r| :: r[i] in keys
    ensures forall i | 0 <= i < |keys| :: keys[i] in r
    decreases |keys|
  {
    if keys == [] then []
    else
      var init, last := keys[..|keys| - 1], keys[|keys| - 1];
      assert keys == init + [last];
      var f := FirstSeen(init);
      if last in init then f else f + [last]
  }

  /** Extending the keys by one key extends the first-seen order by at most that key. */
  lemma FirstSeenSnoc<K>(keys: seq<K>, x: K)
    ensures FirstSeen(keys + [x]) == if x in keys then FirstSeen(keys) else FirstSeen(keys) + [x]
  {
    assert (keys + [x])[..|keys + [x]| - 1] == keys;
  }

  /** The total of the counts of `ks` within `keys`. */
  function SumCounts<K(==)>(keys: seq<K>, ks: seq<K>): nat
    decreases |ks|
  {
    if ks == [] then 0 else SumCounts(keys, ks[..|ks| - 1]) + Count(keys, ks[|ks| - 1])
  }

  /** How often `x` occurs among `ks`, as a 0/1 sum over the list. */
  function Occurrences<K(==)>(ks: seq<K>, x: K): nat
    decreases |ks|
  {
    if ks == [] then 0 else Occurrences(ks[..|ks| - 1], x) + (if ks[|ks| - 1] == x then 1 else 0)
  }

  /** Counting within `keys + [x]` adds, for the listed keys, one per listing of `x`. */
  lemma {:induction false} SumCountsSnoc<K>(keys: seq<K>, x: K, ks: seq<K>)
    ensures SumCounts(keys + [x], ks) == SumCounts(keys, ks) + Occurrences(ks, x)
    decreases |ks|
  {
    if ks != [] {
      SumCountsSnoc(keys, x, ks[..|ks| - 1]);
      assert multiset(keys + [x]) == multiset(keys) + multiset{x};
    }
  }

  /** In a list without repeats, a key occurs once if listed and never otherwise. */
  lemma {:induction false} OccurrencesDistinct<K>(ks: seq<K>, x: K)
    requires Distinct(ks)
    ensures Occurrences(ks, x) == if x in ks then 1 else 0
    decreases |ks|
  {
    if ks != [] {
      var init := ks[..|ks| - 1];
      assert ks == init + [ks[|ks| - 1]];
      assert Distinct(init);
      OccurrencesDistinct(init, x);
      if ks[|ks| - 1] == x {
        assert x !in init;
      }
    }
  }

  /** The first-seen counts add up to the number of keys: no key is lost or
      counted twice. */
  lemma {:induction false} SumOverFirstSeen<K>(keys: seq<K>)
    ensures SumCounts(keys, FirstSeen(keys)) == |keys|
    decreases |keys|
  {
    if keys != [] {
      var init, x := keys[..|keys| - 1], keys[|keys| - 1];
      assert keys == init + [x];
      var f := FirstSeen(init);
      SumOverFirstSeen(init);
      SumCountsSnoc(init, x, f);
      OccurrencesDistinct(f, x);
      assert x in f <==> x in init;
      if x in init {
        assert FirstSeen(keys) == f by {
          FirstSeenSnoc(init, x);
        }
      } else {
        assert FirstSeen(keys) == f + [x] by {
          FirstSeenSnoc(init, x);
        }
        assert SumCounts(keys, f + [x]) == SumCounts(keys, f) + Count(keys, x) by {
          assert (f + [x])[..|f + [x]| - 1] == f;
        }
        assert Count(keys, x) == 1 by {
          assert multiset(keys) == multiset(init) + multiset{x};
        }
      }
    }
  }

  /** Adding one element to the input appends its key, if it has one. */
  lemma KeysOfSnoc<T, K>(xs: seq<T>, x: T, key: T -> Option<K>)
    ensures KeysOf(xs + [x], key) == KeysOf(xs, key) + (if key(x).Some? then [key(x).value] else [])
  {
    assert (xs + [x])[..|xs + [x]| - 1] == xs;
  }

  /** The elements whose key is `Some(k)`, in order: the group a counting
      loop collects under `k`. */
  function GroupOf<T, K(==)>(xs: seq<T>, key: T -> Option<K>, k: K): (r: seq<T>)
    ensures |r| <= |xs|
    ensures forall i | 0 <= i < |r| :: r[i] in xs && key(r[i]) == Some(k)
    decreases |xs|
  {
    if xs == [] then []
    else
      var init, last := xs[..|xs| - 1], xs[|xs| - 1];
      assert xs == init + [last];
      GroupOf(init, key, k) + (if key(last) == Some(k) then [last] else [])
  }

  /** A group holds as many elements as its key occurs among the keys. */
  lemma {:induction false} GroupSize<T, K>(xs: seq<T>, key: T -> Option<K>, k: K)
    ensures |GroupOf(xs, key, k)| == Count(KeysOf(xs, key), k)
    decreases |xs|
  {
    if xs != [] {
      GroupSize(xs[..|xs| - 1], key, k);
    }
  }

  /** Adding one element to the input adds it to its own group and to no other. */
  lemma GroupOfSnoc<T, K>(xs: seq<T>, x: T, key: T -> Option<K>, k: K)
    ensures GroupOf(xs + [x], key, k) == GroupOf(xs, key, k) + (if key(x) == Some(k) then [x] else [])
  {
    assert (xs + [x])[..|xs + [x]| - 1] == xs;
  }

  /** A key that never occurs has an empty group. */
  lemma GroupOfAbsent<T, K>(xs: seq<T>, key: T -> Option<K>, k: K)
    requires k !in KeysOf(xs, key)
    ensures GroupOf(xs, key, k) == []
  {
    GroupSize(xs, key, k);
  }

  /** One more key adds one to its own count and nothing to any other. */
  lemma CountSnoc<K>(keys: seq<K>, x: K, k: K)
    ensures Count(keys + [x], k) == Count(keys, k) + (if x == k then 1 else 0)
  {
    assert multiset(keys + [x]) == multiset(keys) + multiset{x};
  }

  /** The group of `k` within the elements satisfying `p` is the filter by
      `p` and by the key together. */
  lemma {:induction false} GroupOfFilter<T, K>(xs: seq<T>, p: T -> bool, q: T -> bool, key: T -> Option<K>, k: K)
    requires forall x :: q(x) == (p(x) && key(x) == Some(k))
    ensures GroupOf(Filter(xs, p), key, k) == Filter(xs, q)
    decreases |xs|
  {
    if xs != [] {
      var init, last := xs[..|xs| - 1], xs[|xs| - 1];
      assert xs == init + [last];
      GroupOfFilter(init, p, q, key, k);
      assert Filter(xs, p) == Filter(init, p) + (if p(last) then [last] else []);
      assert Filter(xs, q) == Filter(init, q) + (if q(last) then [last] else []);
      if p(last) {
        GroupOfSnoc(Filter(init, p), last, key, k);
      } else {
        assert Filter(init, p) + [] == Filter(init, p);
        assert Filter(init, q) + [] == Filter(init, q);
      }
    }
  }
}
