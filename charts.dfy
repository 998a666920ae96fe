/** What the chart components share: rounding to a whole percentage, the
    `{ total, success, rate }` statistics, detail rows for the pop-up panels,
    the action-type name shown in the pie charts, and the pie-chart
    distribution (count per action type, sorted by count). */
module Charts {
  import opened Collections
  import opened Text
  import Sorting
  import Tally
  import opened ActionAnalyzer

  /** A positive multiple of a positive number is at least that number. */
  lemma MulAtLeast(k: int, d: int)
    ensures k >= 1 && d > 0 ==> k * d >= d
  {
    if k >= 1 && d > 0 {
      assert k * d == (k - 1) * d + d;
    }
  }

  /** The percentage of `x` in `total`, rounded to a whole number in exact
      arithmetic: the whole number nearest to `100 * x / total`, with halves
      rounded up (`RoundPercentIsNearest`). */
  function RoundPercent(x: nat, total: nat): (r: int)
    requires total > 0
    ensures x <= total ==> 0 <= r <= 100
    ensures x == 0 ==> r == 0
    ensures x == total ==> r == 100
  {
    var r := (200 * x + total) / (2 * total);
    RoundPercentIsNearest(x, total);
    RoundBounds(x, total, r);
    r
  }

  /** The rounded percentage is the nearest whole number: twice the share,
      plus one half, lies in `[r, r + 1)` when counted in halves of `total`. */
  lemma RoundPercentIsNearest(x: nat, total: nat)
    requires total > 0
    ensures var r := (200 * x + total) / (2 * total);
            r * (2 * total) <= 200 * x + total < r * (2 * total) + 2 * total
  {
    var n, d := 200 * x + total, 2 * total;
    assert (n / d) * d + n % d == n;
  }

  /** What the rounding bounds say about a share of at most the whole. */
  lemma RoundBounds(x: nat, total: nat, r: int)
    requires total > 0
    requires r * (2 * total) <= 200 * x + total < r * (2 * total) + 2 * total
    ensures x <= total ==> 0 <= r <= 100
    ensures x == 0 ==> r == 0
    ensures x == total ==> r == 100
  {
    var d := 2 * total;
    assert r >= 0 by {
      MulAtLeast(-r, d);
      assert (-r) * d == - (r * d);
    }
    if x <= total {
      assert r <= 100 by {
        MulAtLeast(r - 100, d);
        assert (r - 100) * d == r * d - 100 * d;
      }
    }
    if x == 0 {
      MulAtLeast(r, d);
    }
    if x == total {
      assert r >= 100 by {
        MulAtLeast(100 - r, d);
        assert (100 - r) * d == 100 * d - r * d;
      }
    }
  }

  /** `x` rounded to one decimal, halves up: JavaScript's rounding of a
      number is the floor of that number plus one half. */
  function RoundTenth(x: real): (r: real)
    ensures x - 0.05 < r <= x + 0.05
    ensures (r * 10.0).Floor as real == r * 10.0
  {
    (x * 10.0 + 0.5).Floor as real / 10.0
  }

  /** The time shown for a start frame: 0 for a zero start, which JavaScript
      reads as false; otherwise the start rounded to one decimal. */
  function TimeInSeconds(start: real): (r: real)
    ensures start == 0.0 ==> r == 0.0
    ensures start - 0.05 < r <= start + 0.05
    ensures (r * 10.0).Floor as real == r * 10.0
  {
    if start == 0.0 then 0.0 else RoundTenth(start)
  }

  /** A statistics record: the number of actions, of successes, and the
      rounded success rate. */
  datatype Stats = Stats(total: nat, success: nat, rate: int)

  const NoStats := Stats(0, 0, 0)

  /** One row of a pie chart's panel: the action, its rounded time and its
      full label. */
  datatype PieDetail = PieDetail(action: Action, timeInSeconds: real, fullName: string)

  /** The panel rows of `xs`, in order. `fullName` is `label_names[0]`, which
      the callers only reach for labelled actions. */
  function PieDetails(xs: seq<Action>): (r: seq<PieDetail>)
    ensures |r| == |xs|
    ensures forall i | 0 <= i < |xs| :: r[i].action == xs[i]
              && r[i].timeInSeconds == TimeInSeconds(xs[i].start)
              && r[i].fullName == (if xs[i].name.Some? then xs[i].name.value else "")
  {
    if xs == [] then []
    else
      [PieDetail(xs[0], TimeInSeconds(xs[0].start), if xs[0].name.Some? then xs[0].name.value else "")]
      + PieDetails(xs[1..])
  }

  /** The actions behind a panel's rows, in row order. */
  function DetailActions(r: seq<PieDetail>): seq<Action> {
    seq(|r|, i requires 0 <= i < |r| => r[i].action)
  }

  /** The rows for the elements of `xs` that pass `p` come from exactly
      those actions, in input order and with every copy. */
  lemma DetailsOfFilter(xs: seq<Action>, p: Action -> bool)
    ensures var rows := DetailActions(PieDetails(Filter(xs, p)));
            && Subsequence(rows, xs)
            && forall a :: multiset(rows)[a] == if p(a) then multiset(xs)[a] else 0
  {
    assert DetailActions(PieDetails(Filter(xs, p))) == Filter(xs, p);
    FilterIsSubsequence(xs, p);
    FilterCounts(xs, p);
  }

  const Other: string := "その他"

  /** `extractActionType`: the label's text before the first `(`, trimmed;
      `その他` for a missing or empty label or when nothing is left. The
      result is never empty and never holds a `(`. */
  function ExtractActionType(name: Option<string>): (r: string)
    ensures r != [] && '(' !in r
    ensures name.None? || name.value == "" ==> r == Other
    ensures name.Some? && AllWhiteSpace(BeforeFirst(name.value, '(')) ==> r == Other
  {
    if name.None? || name.value == "" then Other
    else
      var before := BeforeFirst(name.value, '(');
      var clean := Trim(before);
      TrimBlank(before);
      if clean == "" then
        Other
      else
        var i := TextStart(before, 0);
        assert forall k | 0 <= k < |clean| :: clean[k] == before[i + k];
        clean
  }

  /** Otherwise (the text before the first `(` holds something besides white
      space) the type is that text with the white space around it removed:
      it stands in the label at the end of the leading white space, only white
      space follows it before the `(`, and it neither starts nor ends with
      white space. */
  lemma ExtractActionTypeIsTrimmedPrefix(name: string)
    requires !AllWhiteSpace(BeforeFirst(name, '('))
    ensures var r, before := ExtractActionType(Some(name)), BeforeFirst(name, '(');
            var i := TextStart(before, 0);
            && OccursAt(name, r, i) && i + |r| <= |before|
            && (forall k | 0 <= k < i :: IsWhiteSpace(name[k]))
            && (forall k | i + |r| <= k < |before| :: IsWhiteSpace(name[k]))
            && !IsWhiteSpace(r[0]) && !IsWhiteSpace(r[|r| - 1])
  {
    var before := BeforeFirst(name, '(');
    TrimBlank(before);
    assert ExtractActionType(Some(name)) == Trim(before);
    TrimOfPrefix(name, before);
  }

  /** The key an action is counted under in a pie chart: its action type when
      the action has a truthy label, none otherwise. */
  function TypeKey(a: Action): Option<string> {
    if a.name.Some? && a.name.value != "" then Some(ExtractActionType(a.name)) else None
  }

  /** One slice: `{ label, value, percentage }`. */
  datatype PieEntry = PieEntry(actionType: string, value: nat, percentage: int)

  /** One slice for each counted key, in the order of `order`. */
  function PieEntries(order: seq<string>, counts: map<string, nat>, total: nat): (r: seq<PieEntry>)
    requires total > 0
    requires forall i | 0 <= i < |order| :: order[i] in counts
    ensures |r| == |order|
    ensures forall i | 0 <= i < |r| ::
              r[i] == PieEntry(order[i], counts[order[i]], RoundPercent(counts[order[i]], total))
  {
    if order == [] then []
    else
      PieEntries(order[..|order| - 1], counts, total)
      + [PieEntry(order[|order| - 1], counts[order[|order| - 1]], RoundPercent(counts[order[|order| - 1]], total))]
  }

  /** The sort key of the slice order: larger values first. */
  function ByValueDesc(e: PieEntry): real { -(e.value as real) }

  /** The count of every key, as the counting loop leaves its object. */
  function CountMap(keys: seq<string>): map<string, nat> {
    map k | k in keys :: Tally.Count(keys, k)
  }

  /** One more key bumps its own counter, starting it at 1 when new. */
  lemma CountMapSnoc(keys: seq<string>, k: string)
    ensures CountMap(keys + [k]) == CountMap(keys)[k := Tally.Count(keys, k) + 1]
  {
    var a, b := CountMap(keys + [k]), CountMap(keys)[k := Tally.Count(keys, k) + 1];
    forall j | j in a ensures j in b && a[j] == b[j] {
      Tally.CountSnoc(keys, k, j);
    }
    forall j | j in b ensures j in a {
      assert j == k || j in keys;
    }
  }

  /** The slices for the given keys (one per counted action), in first-seen
      order, then stably sorted by decreasing count. */
  function Distribution(keys: seq<string>, total: nat): seq<PieEntry>
    requires total > 0
  {
    var order := Tally.FirstSeen(keys);
    Sorting.SortBy(PieEntries(order, CountMap(keys), total), ByValueDesc)
  }

  /** One more keyed element: the first-seen order and the counters as the
      counting loop updates them. */
  lemma CountStep(before: seq<string>, k: string, counts: map<string, nat>, order: seq<string>)
    requires order == Tally.FirstSeen(before) && counts == CountMap(before)
    ensures k !in counts ==>
              Tally.FirstSeen(before + [k]) == order + [k] && CountMap(before + [k]) == counts[k := 1]
    ensures k in counts ==>
              Tally.FirstSeen(before + [k]) == order && CountMap(before + [k]) == counts[k := counts[k] + 1]
  {
    Tally.FirstSeenSnoc(before, k);
    CountMapSnoc(before, k);
  }

  /** The keys of a prefix one element longer. */
  lemma KeysOfPrefix<T>(xs: seq<T>, i: nat, key: T -> Option<string>)
    requires i < |xs|
    ensures Tally.KeysOf(xs[..i + 1], key)
         == Tally.KeysOf(xs[..i], key) + (if key(xs[i]).Some? then [key(xs[i]).value] else [])
  {
    assert xs[..i + 1] == xs[..i] + [xs[i]];
    Tally.KeysOfSnoc(xs[..i], xs[i], key);
  }

  /** The counting `forEach` of both pie charts: key by key, bump the counter
      of the element's key, and note each new key in insertion order. */
  method CountByKey<T>(xs: seq<T>, key: T -> Option<string>)
    returns (counts: map<string, nat>, order: seq<string>)
    ensures order == Tally.FirstSeen(Tally.KeysOf(xs, key))
    ensures counts == CountMap(Tally.KeysOf(xs, key))
  {
    counts, order := map[], [];
    ghost var seen: seq<string> := [];
    var i := 0;
    assert CountMap([]) == map[];
    while i < |xs|
      invariant 0 <= i <= |xs|
      invariant seen == Tally.KeysOf(xs[..i], key)
      invariant order == Tally.FirstSeen(seen) && counts == CountMap(seen)
    {
      var x := xs[i];
      KeysOfPrefix(xs, i, key);
      if key(x).Some? {
        var k := key(x).value;
        CountStep(seen, k, counts, order);
        if k !in counts {
          order := order + [k];
          counts := counts[k := 1];
        } else {
          counts := counts[k := counts[k] + 1];
        }
        seen := seen + [k];
        assert seen == Tally.KeysOf(xs[..i + 1], key);
      } else {
        assert seen == Tally.KeysOf(xs[..i + 1], key);
      }
      i := i + 1;
    }
    assert xs[..i] == xs;
  }

  /** The total of the slice values. */
  function SumValues(es: seq<PieEntry>): nat {
    if es == [] then 0 else SumValues(es[..|es| - 1]) + es[|es| - 1].value
  }

  lemma {:induction false} SumValuesAppend(s: seq<PieEntry>, t: seq<PieEntry>)
    ensures SumValues(s + t) == SumValues(s) + SumValues(t)
    decreases |t|
  {
    if t == [] {
      assert s + t == s;
    } else {
      var init := t[..|t| - 1];
      assert (s + t)[..|s + t| - 1] == s + init;
      SumValuesAppend(s, init);
    }
  }

  /** Reordering the slices does not change their total. */
  lemma {:induction false} SumValuesPermutation(s: seq<PieEntry>, t: seq<PieEntry>)
    requires multiset(s) == multiset(t)
    ensures SumValues(s) == SumValues(t)
    decreases |s|
  {
    if s != [] {
      var x := s[|s| - 1];
      var init := s[..|s| - 1];
      assert s == init + [x];
      assert x in multiset(t);
      var j :| 0 <= j < |t| && t[j] == x;
      var rest := t[..j] + t[j + 1..];
      RemoveAt(t, j);
      assert multiset(s) == multiset(init) + multiset{x};
      CancelOne(multiset(init), multiset(rest), x);
      SumValuesPermutation(init, rest);
      assert t == t[..j] + [x] + t[j + 1..];
      SumValuesAppend(t[..j] + [x], t[j + 1..]);
      SumValuesAppend(t[..j], [x]);
      SumValuesAppend(t[..j], t[j + 1..]);
      assert SumValues([x]) == x.value by { assert [x][..0] == []; }
    }
  }

  lemma {:induction false} PieEntriesSum(order: seq<string>, keys: seq<string>, total: nat)
    requires total > 0
    requires forall i | 0 <= i < |order| :: order[i] in keys
    ensures SumValues(PieEntries(order, CountMap(keys), total)) == Tally.SumCounts(keys, order)
    decreases |order|
  {
    if order != [] {
      PieEntriesSum(order[..|order| - 1], keys, total);
    }
  }

  /** The slice values add up to the number of counted actions. */
  lemma DistributionSum(keys: seq<string>, total: nat)
    requires total > 0
    ensures SumValues(Distribution(keys, total)) == |keys|
  {
    var order := Tally.FirstSeen(keys);
    var es := PieEntries(order, CountMap(keys), total);
    SumValuesPermutation(Distribution(keys, total), es);
    PieEntriesSum(order, keys, total);
    Tally.SumOverFirstSeen(keys);
  }

  /** Every slice is a counted key with its count, at least 1, and its rounded
      share of `total`, a percentage when all counted actions are among the
      `total`. */
  lemma DistributionEntries(keys: seq<string>, total: nat)
    requires total > 0
    ensures var d := Distribution(keys, total);
            && |d| == |Tally.FirstSeen(keys)|
            && forall i | 0 <= i < |d| ::
                 && d[i].actionType in keys
                 && d[i].value == Tally.Count(keys, d[i].actionType) >= 1
                 && d[i].percentage == RoundPercent(d[i].value, total)
                 && (|keys| <= total ==> 0 <= d[i].percentage <= 100)
  {
    var order := Tally.FirstSeen(keys);
    var es := PieEntries(order, CountMap(keys), total);
    var d := Distribution(keys, total);
    forall i | 0 <= i < |d|
      ensures && d[i].actionType in keys
              && d[i].value == Tally.Count(keys, d[i].actionType) >= 1
              && d[i].percentage == RoundPercent(d[i].value, total)
              && (|keys| <= total ==> 0 <= d[i].percentage <= 100)
    {
      assert d[i] in multiset(es);
      var m :| 0 <= m < |es| && es[m] == d[i];
      var k := order[m];
      assert d[i] == PieEntry(k, Tally.Count(keys, k), RoundPercent(Tally.Count(keys, k), total));
      assert k in multiset(keys);
      assert multiset(keys)[k] <= |multiset(keys)|;
    }
  }

  /** Every counted key has a slice. */
  lemma DistributionCovers(keys: seq<string>, total: nat)
    requires total > 0
    ensures var d := Distribution(keys, total);
            forall j | 0 <= j < |keys| :: exists i | 0 <= i < |d| :: d[i].actionType == keys[j]
  {
    var d := Distribution(keys, total);
    forall j | 0 <= j < |keys| ensures exists i | 0 <= i < |d| :: d[i].actionType == keys[j] {
      KeyHasSlice(keys, total, keys[j]);
    }
  }

  /** A counted key has a slice: its first-seen entry, moved by the sort. */
  lemma KeyHasSlice(keys: seq<string>, total: nat, k: string)
    requires total > 0 && k in keys
    ensures exists i | 0 <= i < |Distribution(keys, total)| :: Distribution(keys, total)[i].actionType == k
  {
    var order := Tally.FirstSeen(keys);
    var es := PieEntries(order, CountMap(keys), total);
    var d := Distribution(keys, total);
    var m :| 0 <= m < |order| && order[m] == k;
    assert es[m] in multiset(d) by {
      assert multiset(d) == multiset(es);
      assert es[m] in multiset(es);
    }
    var i :| 0 <= i < |d| && d[i] == es[m];
  }

  /** The slices come in order of non-increasing count. */
  lemma DistributionSorted(keys: seq<string>, total: nat)
    requires total > 0
    ensures var d := Distribution(keys, total);
            forall i, j | 0 <= i < j < |d| :: d[i].value >= d[j].value
  {
    var d := Distribution(keys, total);
    forall i, j | 0 <= i < j < |d| ensures d[i].value >= d[j].value {
      assert ByValueDesc(d[i]) <= ByValueDesc(d[j]);
    }
  }

  /** The slices of a list of actions counted by type (none for no
      actions): their values add up to the labelled actions, at most all of
      them; each is at least 1 with a percentage in 0..100; and they come in
      non-increasing order. */
  lemma CountedSlices(d: seq<PieEntry>, xs: seq<Action>)
    requires d == if xs == [] then [] else Distribution(Tally.KeysOf(xs, TypeKey), |xs|)
    ensures SumValues(d) == |Tally.KeysOf(xs, TypeKey)| <= |xs|
    ensures forall i | 0 <= i < |d| :: 1 <= d[i].value && 0 <= d[i].percentage <= 100
    ensures forall i, j | 0 <= i < j < |d| :: d[i].value >= d[j].value
  {
    var keys := Tally.KeysOf(xs, TypeKey);
    if xs == [] {
      assert keys == [];
    } else {
      DistributionSum(keys, |xs|);
      DistributionEntries(keys, |xs|);
      DistributionSorted(keys, |xs|);
    }
  }
}
