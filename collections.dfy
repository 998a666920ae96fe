/** Generic helpers shared by every module of the model: an optional value
    (JavaScript's `undefined`) and `Array.prototype.filter`. */
module Collections {

  /** `None` stands for a JavaScript value that is `undefined`, `null` or absent. */
  datatype Option<+T> = None | Some(value: T)

  /** `Array.prototype.filter`: the elements of `s` that satisfy `p`, in their
      original order. Defined by peeling the last element, so that a loop
      over a growing prefix can keep `Filter(s[..i], p)` as its invariant. */
  function Filter<T>(s: seq<T>, p: T -> bool): (r: seq<T>)
    ensures |r| <= |s|
    ensures forall k | 0 <= k < |r| :: r[k] in s && p(r[k])
    ensures forall k | 0 <= k < |s| :: p(s[k]) ==> s[k] in r
    decreases |s|
  {
    if s == [] then []
    else
      var init, last := s[..|s| - 1], s[|s| - 1];
      assert s == init + [last];
      Filter(init, p) + (if p(last) then [last] else [])
  }

  /** `r` is `s` with some elements left out: its elements occur in `s` in
      the same order. */
  predicate Subsequence<T(==)>(r: seq<T>, s: seq<T>)
    decreases |s|
  {
    r == [] ||
    (s != [] &&
      ((r[|r| - 1] == s[|s| - 1] && Subsequence(r[..|r| - 1], s[..|s| - 1]))
       || Subsequence(r, s[..|s| - 1])))
  }

  /** Every sequence is a subsequence of itself. */
  lemma {:induction false} SubsequenceOfItself<T>(s: seq<T>)
    ensures Subsequence(s, s)
    decreases |s|
  {
    if s != [] {
      SubsequenceOfItself(s[..|s| - 1]);
    }
  }

  /** Filtering keeps the order of the elements it keeps. */
  lemma {:induction false} FilterIsSubsequence<T>(s: seq<T>, p: T -> bool)
    ensures Subsequence(Filter(s, p), s)
    decreases |s|
  {
    if s != [] {
      var init, last := s[..|s| - 1], s[|s| - 1];
      FilterIsSubsequence(init, p);
      var r := Filter(s, p);
      if p(last) {
        assert r[..|r| - 1] == Filter(init, p);
      } else {
        assert r == Filter(init, p);
      }
    }
  }

  /** Filtering keeps every copy of an element that passes and no copy of one
      that fails. */
  lemma {:induction false} FilterCounts<T>(s: seq<T>, p: T -> bool)
    ensures forall x :: multiset(Filter(s, p))[x] == if p(x) then multiset(s)[x] else 0
    decreases |s|
  {
    if s != [] {
      var init, last := s[..|s| - 1], s[|s| - 1];
      assert s == init + [last];
      FilterCounts(init, p);
      assert multiset(s) == multiset(init) + multiset{last};
      if p(last) {
        assert multiset(Filter(s, p)) == multiset(Filter(init, p)) + multiset{last};
      } else {
        assert Filter(s, p) == Filter(init, p);
      }
    }
  }

  /** Two predicates that agree on every element of `s` filter it alike. */
  lemma {:induction false} FilterExt<T>(s: seq<T>, p: T -> bool, q: T -> bool)
    requires forall x :: x in s ==> p(x) == q(x)
    ensures Filter(s, p) == Filter(s, q)
    decreases |s|
  {
    if s != [] {
      assert s == s[..|s| - 1] + [s[|s| - 1]];
      FilterExt(s[..|s| - 1], p, q);
    }
  }

  /** Filtering distributes over concatenation. */
  lemma {:induction false} FilterAppend<T>(s: seq<T>, t: seq<T>, p: T -> bool)
    ensures Filter(s + t, p) == Filter(s, p) + Filter(t, p)
    decreases |t|
  {
    if t == [] {
      assert s + t == s;
    } else {
      var init, last := t[..|t| - 1], t[|t| - 1];
      assert s + t == (s + init) + [last];
      assert (s + t)[..|s + t| - 1] == s + init;
      FilterAppend(s, init, p);
    }
  }

  /** Two sequences of the same length whose elements pass `p` and `q` at the
      same positions keep as many elements under filtering. */
  lemma {:induction false} FilterAlignedCount<T, U>(s: seq<T>, t: seq<U>, p: T -> bool, q: U -> bool)
    requires |s| == |t|
    requires forall i | 0 <= i < |s| :: p(s[i]) == q(t[i])
    ensures |Filter(s, p)| == |Filter(t, q)|
    decreases |s|
  {
    if s != [] {
      var n := |s| - 1;
      assert forall i | 0 <= i < n :: s[..n][i] == s[i] && t[..n][i] == t[i];
      FilterAlignedCount(s[..n], t[..n], p, q);
    }
  }

  /** An element found at two positions occurs at least twice. */
  lemma TwoPositions<T>(s: seq<T>, i: int, j: int)
    ensures 0 <= i < j < |s| && s[i] == s[j] ==> multiset(s)[s[i]] >= 2
  {
    if 0 <= i < j < |s| && s[i] == s[j] {
      assert s == s[..j] + s[j..];
      assert s[i] in multiset(s[..j]) by { assert s[..j][i] == s[i]; }
      assert s[j..][0] == s[j];
    }
  }

  /** Taking out the element at `j` takes one copy of it out of the multiset. */
  lemma RemoveAt<T>(t: seq<T>, j: nat)
    requires j < |t|
    ensures multiset(t[..j] + t[j + 1..]) + multiset{t[j]} == multiset(t)
  {
    assert t == t[..j] + [t[j]] + t[j + 1..];
  }

  /** Equal multisets stay equal once the same element is taken from both. */
  lemma CancelOne<T>(a: multiset<T>, b: multiset<T>, x: T)
    requires a + multiset{x} == b + multiset{x}
    ensures a == b
  {
    forall y ensures a[y] == b[y] {
      assert (a + multiset{x})[y] == (b + multiset{x})[y];
    }
  }

  /** Splitting the elements that satisfy `p` by a second test `q` splits
      their number: those that pass `q` plus those that fail it. */
  lemma {:induction false} FilterSplit<T>(s: seq<T>, p: T -> bool, pq: T -> bool, pnq: T -> bool, q: T -> bool)
    requires forall x :: pq(x) == (p(x) && q(x)) && pnq(x) == (p(x) && !q(x))
    ensures |Filter(s, p)| == |Filter(s, pq)| + |Filter(s, pnq)|
    decreases |s|
  {
    if s != [] {
      FilterSplit(s[..|s| - 1], p, pq, pnq, q);
    }
  }
}
