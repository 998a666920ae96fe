/** The rally-outcome classifier and the per-player statistics built on it.

    An action is one annotated stretch of a player's video: where it starts,
    where it ends, and the first of its label names. The classifier looks at
    what the same player does next, in start order: a next action within two
    time units means the rally went on (success); a later next action that is
    a serve means the point was won (success), any other means it was lost
    (failure); with no next action, a label carrying the error mark is a
    failure and anything else is left unjudged. */
module ActionAnalyzer {
  import opened Collections
  import opened Text
  import Sorting
  import Tally

  /** `start_id`, `end_id` and `label_names[0]`; the label is `None` when the
      label array is empty. */
  datatype Action = Action(start: real, end: real, name: Option<string>)

  /** The serve mark and the error mark the labels are searched for. */
  const ServeMark: string := "サーブ"
  const ErrorMark: string := "誤"

  /** The label test used throughout: the label is present, not the empty
      string (which JavaScript reads as false), and contains `mark`. */
  predicate LabelContains(name: Option<string>, mark: string) {
    name.Some? && name.value != "" && Contains(name.value, mark)
  }

  /** The three results, and the tags the source stores for them. */
  datatype Outcome = Success | Failure | NoJudgment

  function Tag(o: Outcome): string {
    match o
    case Success => "success"
    case Failure => "failure"
    case NoJudgment => "no_judgment"
  }

  /** The three tags are distinct strings. */
  lemma TagsDiffer()
    ensures Tag(Success) != Tag(Failure) && Tag(Success) != Tag(NoJudgment)
    ensures Tag(Failure) != Tag(NoJudgment)
  {
    assert Tag(Success)[0] != Tag(Failure)[0];
    assert |Tag(Success)| != |Tag(NoJudgment)| && |Tag(Failure)| != |Tag(NoJudgment)|;
  }

  function StartKey(a: Action): real { a.start }

  /** A copy of the list sorted by start frame, ascending; the caller's list
      is a value and stays as it was. */
  function SortByStart(actions: seq<Action>): (r: seq<Action>)
    ensures |r| == |actions| && multiset(r) == multiset(actions)
    ensures Sorting.SortedBy(r, StartKey)
  {
    Sorting.SortBy(actions, StartKey)
  }

  /** `findIndex` of the first action equal to `a` in start, end and label;
      -1 when there is none. */
  function IndexOf(s: seq<Action>, a: Action): (r: int)
    ensures -1 <= r < |s|
    ensures r == -1 <==> a !in s
    ensures 0 <= r ==> s[r] == a && forall k | 0 <= k < r :: s[k] != a
  {
    if s == [] then -1
    else if s[0] == a then 0
    else
      assert s == [s[0]] + s[1..];
      var i := IndexOf(s[1..], a);
      if i == -1 then -1 else i + 1
  }

  /** The first element at index `lo` or later that passes `p`, given as its
      index. */
  function FindFrom(s: seq<Action>, lo: nat, p: Action -> bool): (r: Option<nat>)
    ensures r.Some? ==> lo <= r.value < |s| && p(s[r.value])
                        && forall k | lo <= k < r.value :: !p(s[k])
    ensures r.None? ==> forall k | lo <= k < |s| :: !p(s[k])
    decreases |s| - lo
  {
    if lo >= |s| then None
    else if p(s[lo]) then Some(lo)
    else FindFrom(s, lo + 1, p)
  }

  /** The position just after `current` in the sorted copy: where the "later"
      actions begin. An action that is not found gives 0, so that then every
      action counts as later. */
  function LaterFrom(sorted: seq<Action>, current: Action): nat {
    IndexOf(sorted, current) + 1
  }

  /** `analyzeActionSuccess(currentAction, playerActions)`. */
  function AnalyzeActionSuccess(current: Action, actions: seq<Action>): (r: Outcome)
    ensures var s := SortByStart(actions);
            var lo, deadline := LaterFrom(s, current), current.end + 2.0;
            // a later action starting within the window, the bound included
            && ((exists k | lo <= k < |s| :: s[k].start <= deadline) ==> r == Success)
            // later actions, all outside the window: the first of them decides
            && (lo < |s| && (forall k | lo <= k < |s| :: s[k].start > deadline) ==>
                  r != NoJudgment && (r == Success <==> LabelContains(s[lo].name, ServeMark)))
            // no later action: the action's own label decides
            && (lo >= |s| ==>
                  r != Success && (r == Failure <==> LabelContains(current.name, ErrorMark)))
  {
    var s := SortByStart(actions);
    var lo, deadline := LaterFrom(s, current), current.end + 2.0;
    match FindFrom(s, lo, (x: Action) => x.start <= deadline)
    case Some(_) => Success
    case None =>
      match FindFrom(s, lo, (x: Action) => x.start > deadline)
      case Some(k) => if LabelContains(s[k].name, ServeMark) then Success else Failure
      case None => if LabelContains(current.name, ErrorMark) then Failure else NoJudgment
  }

  /** The rule as a function of the action and the action that follows it. */
  function Judge(current: Action, next: Option<Action>): Outcome {
    match next
    case None => if LabelContains(current.name, ErrorMark) then Failure else NoJudgment
    case Some(n) =>
      if n.start <= current.end + 2.0 || LabelContains(n.name, ServeMark) then Success else Failure
  }

  /** The action right after `current` in the sorted copy, if there is one. */
  function Successor(current: Action, actions: seq<Action>): Option<Action> {
    var s := SortByStart(actions);
    var lo := LaterFrom(s, current);
    if lo < |s| then Some(s[lo]) else None
  }

  /** Because the copy is sorted by start, the outcome depends on the
      immediate successor alone: if it starts outside the window, so does
      every later action. */
  lemma OutcomeBySuccessor(current: Action, actions: seq<Action>)
    ensures AnalyzeActionSuccess(current, actions) == Judge(current, Successor(current, actions))
  {
    var s := SortByStart(actions);
    var lo, deadline := LaterFrom(s, current), current.end + 2.0;
    if lo < |s| && s[lo].start > deadline {
      forall k | lo <= k < |s| ensures s[k].start > deadline {
        if k > lo {
          assert StartKey(s[lo]) <= StartKey(s[k]);
        }
      }
    }
  }

  /** An action that occurs once and starts after every other action is judged
      by its own label alone. */
  lemma LastActionByOwnLabel(current: Action, actions: seq<Action>)
    requires multiset(actions)[current] == 1
    requires forall b | b in actions && b != current :: b.start < current.start
    ensures AnalyzeActionSuccess(current, actions)
         == if LabelContains(current.name, ErrorMark) then Failure else NoJudgment
  {
    var s := SortByStart(actions);
    assert current in multiset(s);
    var i, last := IndexOf(s, current), |s| - 1;
    // Whatever sits last in the sorted copy starts no earlier than `current`,
    // so it is `current`; and `current` occurs once, so that is where it is.
    assert i < last ==> StartKey(s[i]) <= StartKey(s[last]);
    assert s[last] in multiset(actions);
    TwoPositions(s, i, last);
    assert i == last;
  }

  /** Any two inputs that list the actions of each start time in the same
      order give every action the same outcome, whatever else they reorder. */
  lemma SameOutcomeForSamePerStartOrder(current: Action, s: seq<Action>, t: seq<Action>)
    requires forall k :: Sorting.WithKey(s, StartKey, k) == Sorting.WithKey(t, StartKey, k)
    ensures AnalyzeActionSuccess(current, s) == AnalyzeActionSuccess(current, t)
  {
    Sorting.SortByDependsOnlyOnKeyOrder(s, t, StartKey);
  }

  /** With pairwise distinct start times, shuffling the input does not change
      any outcome. */
  lemma ShuffleInvariantForDistinctStarts(current: Action, s: seq<Action>, t: seq<Action>)
    requires Sorting.DistinctKeys(s, StartKey) && Sorting.DistinctKeys(t, StartKey)
    requires multiset(s) == multiset(t)
    ensures AnalyzeActionSuccess(current, s) == AnalyzeActionSuccess(current, t)
  {
    Sorting.PermutationSortsAlike(s, t, StartKey);
  }

  /** Two actions with the same start: listed first, `a` is followed by the
      other and succeeds ... */
  lemma TiedStartListedFirst()
    ensures var a, b := Action(1.0, 2.0, Some("ロブ")), Action(1.0, 9.0, Some("ロブ"));
            AnalyzeActionSuccess(a, [a, b]) == Success
  {
    var a, b := Action(1.0, 2.0, Some("ロブ")), Action(1.0, 9.0, Some("ロブ"));
    PairJudgedBySecond(a, b);
  }

  /** ... but listed second, `a` is the last action of the sorted copy and goes
      unjudged: with tied starts the outcome depends on the input order. */
  lemma TiedStartListedSecond()
    ensures var a, b := Action(1.0, 2.0, Some("ロブ")), Action(1.0, 9.0, Some("ロブ"));
            AnalyzeActionSuccess(a, [b, a]) == NoJudgment
  {
    var a, b := Action(1.0, 2.0, Some("ロブ")), Action(1.0, 9.0, Some("ロブ"));
    PairSecondByOwnLabel(b, a);
    FirstCharAbsent("ロブ", ErrorMark);
  }

  /** In a two-action list in start order whose actions differ, the second
      action is the last of the sorted copy and is judged by its own label. */
  lemma PairSecondByOwnLabel(a: Action, b: Action)
    requires a.start <= b.start && a != b
    ensures AnalyzeActionSuccess(b, [a, b])
         == if LabelContains(b.name, ErrorMark) then Failure else NoJudgment
  {
    assert Successor(b, [a, b]) == None by {
      assert Sorting.SortedBy([a, b], StartKey);
      Sorting.SortBySorted([a, b], StartKey);
      assert IndexOf([a, b], b) == 1 by {
        assert [a, b][1..] == [b];
      }
    }
    OutcomeBySuccessor(b, [a, b]);
  }

  /** In a two-action list in start order, the first action is judged by the
      second alone. */
  lemma PairJudgedBySecond(a: Action, b: Action)
    requires a.start <= b.start
    ensures AnalyzeActionSuccess(a, [a, b]) == Judge(a, Some(b))
  {
    assert Successor(a, [a, b]) == Some(b) by {
      assert Sorting.SortedBy([a, b], StartKey);
      Sorting.SortBySorted([a, b], StartKey);
    }
    OutcomeBySuccessor(a, [a, b]);
  }

  /** The window bound is inclusive: when the next action is no serve, it
      makes a success by starting exactly at `end + 2`, and a failure by
      starting any later. */
  lemma WindowBoundIsInclusive(a: Action, b: Action)
    requires a.start <= b.start && !LabelContains(b.name, ServeMark)
    ensures b.start == a.end + 2.0 ==> AnalyzeActionSuccess(a, [a, b]) == Success
    ensures b.start > a.end + 2.0 ==> AnalyzeActionSuccess(a, [a, b]) == Failure
  {
    PairJudgedBySecond(a, b);
  }

  /** A smash answered by a serve one unit later: the smash succeeds and the
      serve, the last action and free of the error mark, is unjudged. */
  lemma SmashThenServe()
    ensures var smash, serve := Action(0.0, 2.0, Some("スマッシュ")), Action(3.0, 4.0, Some("サーブ"));
            && AnalyzeActionSuccess(smash, [smash, serve]) == Success
            && AnalyzeActionSuccess(serve, [smash, serve]) == NoJudgment
  {
    var smash, serve := Action(0.0, 2.0, Some("スマッシュ")), Action(3.0, 4.0, Some("サーブ"));
    assert SortByStart([smash, serve]) == [smash, serve] by { assert [smash, serve][1..] == [serve]; }
    assert IndexOf([smash, serve], serve) == 1 by { assert [smash, serve][1..] == [serve]; }
    FirstCharAbsent("サーブ", ErrorMark);
  }

  /** A single action carrying the error mark is a failure. */
  lemma LoneErrorIsFailure()
    ensures var a := Action(0.0, 2.0, Some("スマッシュ(誤)"));
            AnalyzeActionSuccess(a, [a]) == Failure
  {
    var a := Action(0.0, 2.0, Some("スマッシュ(誤)"));
    assert OccursAt("スマッシュ(誤)", ErrorMark, 6);
  }

  /** A drive whose next action comes late and is not a serve is a failure. */
  lemma DriveThenLateDrop()
    ensures var drive, drop := Action(0.0, 2.0, Some("ドライブ")), Action(10.0, 11.0, Some("ドロップ"));
            AnalyzeActionSuccess(drive, [drive, drop]) == Failure
  {
    var drive, drop := Action(0.0, 2.0, Some("ドライブ")), Action(10.0, 11.0, Some("ドロップ"));
    assert SortByStart([drive, drop]) == [drive, drop] by { assert [drive, drop][1..] == [drop]; }
    FirstCharAbsent("ドロップ", ServeMark);
  }

  // ---------------------------------------------------------------------
  // Analysed lists

  /** An action copied with a `result` tag added. The
      tag is a string, since the statistics below also read lists whose tags
      come from elsewhere. */
  datatype AnalyzedAction = AnalyzedAction(action: Action, result: string)

  /** Each of `xs`, tagged with its outcome within the whole list `all`. */
  function AnalyzeEach(xs: seq<Action>, all: seq<Action>): (r: seq<AnalyzedAction>)
    ensures |r| == |xs|
    ensures forall i | 0 <= i < |xs| ::
              r[i].action == xs[i] && r[i].result == Tag(AnalyzeActionSuccess(xs[i], all))
  {
    if xs == [] then [] else [AnalyzedAction(xs[0], Tag(AnalyzeActionSuccess(xs[0], all)))] + AnalyzeEach(xs[1..], all)
  }

  /** `analyzePlayerActions`: a missing or non-array list gives `[]`; otherwise
      the same actions in the same order, each tagged with its outcome. */
  function AnalyzePlayerActions(actions: Option<seq<Action>>): (r: seq<AnalyzedAction>)
    ensures actions.None? ==> r == []
    ensures actions.Some? ==> |r| == |actions.value|
    ensures actions.Some? ==> forall i | 0 <= i < |r| ::
              r[i].action == actions.value[i]
              && r[i].result == Tag(AnalyzeActionSuccess(actions.value[i], actions.value))
  {
    match actions
    case None => []
    case Some(xs) => AnalyzeEach(xs, xs)
  }

  /** One entry of `gts`: the player's other fields, carried through
      unchanged, and the player's actions, possibly missing. */
  datatype Player = Player(others: map<string, string>, actions: Option<seq<Action>>)

  datatype AnalyzedPlayer = AnalyzedPlayer(others: map<string, string>, actions: seq<AnalyzedAction>)

  /** `playerData.actions || []`. */
  function ActionsOrEmpty(p: Player): seq<Action> {
    match p.actions
    case None => []
    case Some(xs) => xs
  }

  /** `analyzeAllPlayersActions`: a missing list gives `[]`; otherwise each
      player in order, other fields kept, actions analysed within that
      player's own list. */
  function AnalyzeAllPlayersActions(players: Option<seq<Player>>): (r: seq<AnalyzedPlayer>)
    ensures players.None? ==> r == []
    ensures players.Some? ==> |r| == |players.value|
    ensures players.Some? ==> forall i | 0 <= i < |r| ::
              r[i].others == players.value[i].others
              && r[i].actions == AnalyzePlayerActions(Some(ActionsOrEmpty(players.value[i])))
  {
    match players
    case None => []
    case Some(ps) =>
      seq(|ps|, i requires 0 <= i < |ps| =>
        AnalyzedPlayer(ps[i].others, AnalyzePlayerActions(Some(ActionsOrEmpty(ps[i])))))
  }

  // ---------------------------------------------------------------------
  // Success-rate statistics

  /** The statistics object; `successRate` is the exact percentage. */
  datatype RateStats = RateStats(total: nat, success: nat, failure: nat, noJudgment: nat, successRate: real)

  const EmptyRateStats := RateStats(0, 0, 0, 0, 0.0)

  /** The `result` tags of a list, in order. */
  function Results(xs: seq<AnalyzedAction>): (r: seq<string>)
    ensures |r| == |xs| && forall i | 0 <= i < |xs| :: r[i] == xs[i].result
  {
    if xs == [] then [] else Results(xs[..|xs| - 1]) + [xs[|xs| - 1].result]
  }

  /** The success rate over judged actions only: unjudged ones are left out of
      the denominator, and a list with nothing judged has rate 0. */
  function JudgedRate(success: nat, failure: nat): real {
    if success + failure > 0 then 100.0 * (success as real) / ((success + failure) as real) else 0.0
  }

  /** The statistics of a list, defined by counting each tag. */
  function RateStatsOf(xs: seq<AnalyzedAction>): RateStats {
    var rs := Results(xs);
    var s, f := Tally.Count(rs, Tag(Success)), Tally.Count(rs, Tag(Failure));
    RateStats(|xs|, s, f, Tally.Count(rs, Tag(NoJudgment)), JudgedRate(s, f))
  }

  /** `calculateSuccessRate`: one pass that counts every action and each of the
      three tags; unknown tags are counted in `total` only. */
  method CalculateSuccessRate(actions: Option<seq<AnalyzedAction>>) returns (stats: RateStats)
    ensures actions.None? ==> stats == EmptyRateStats
    ensures actions.Some? ==> stats == RateStatsOf(actions.value)
  {
    if actions.None? {
      return EmptyRateStats;
    }
    var xs := actions.value;
    TagsDiffer();
    var total, success, failure, noJudgment := 0, 0, 0, 0;
    var i := 0;
    while i < |xs|
      invariant 0 <= i <= |xs|
      invariant total == i
      invariant success == Tally.Count(Results(xs[..i]), Tag(Success))
      invariant failure == Tally.Count(Results(xs[..i]), Tag(Failure))
      invariant noJudgment == Tally.Count(Results(xs[..i]), Tag(NoJudgment))
    {
      assert xs[..i + 1][..i] == xs[..i];
      var result := xs[i].result;
      assert Results(xs[..i + 1]) == Results(xs[..i]) + [result];
      Tally.CountSnoc(Results(xs[..i]), result, Tag(Success));
      Tally.CountSnoc(Results(xs[..i]), result, Tag(Failure));
      Tally.CountSnoc(Results(xs[..i]), result, Tag(NoJudgment));
      total := total + 1;
      if result == Tag(Success) {
        success := success + 1;
      } else if result == Tag(Failure) {
        failure := failure + 1;
      } else if result == Tag(NoJudgment) {
        noJudgment := noJudgment + 1;
      }
      i := i + 1;
    }
    assert xs[..i] == xs;
    stats := RateStats(total, success, failure, noJudgment, JudgedRate(success, failure));
  }

  /** The counts of three distinct tags add up to at most the number of
      tags, and to exactly that number when every tag is one of the three. */
  lemma {:induction false} ThreeCounts(rs: seq<string>, a: string, b: string, c: string)
    requires a != b && a != c && b != c
    ensures Tally.Count(rs, a) + Tally.Count(rs, b) + Tally.Count(rs, c) <= |rs|
    ensures (forall i | 0 <= i < |rs| :: rs[i] == a || rs[i] == b || rs[i] == c) ==>
              Tally.Count(rs, a) + Tally.Count(rs, b) + Tally.Count(rs, c) == |rs|
    decreases |rs|
  {
    if rs != [] {
      var init, x := rs[..|rs| - 1], rs[|rs| - 1];
      assert rs == init + [x];
      ThreeCounts(init, a, b, c);
      Tally.CountSnoc(init, x, a);
      Tally.CountSnoc(init, x, b);
      Tally.CountSnoc(init, x, c);
      if forall i | 0 <= i < |rs| :: rs[i] == a || rs[i] == b || rs[i] == c {
        assert forall i | 0 <= i < |init| :: init[i] == rs[i];
      }
    }
  }

  /** Every action is counted once in `total`, and at most once among the three
      tags; when every tag is one of the three, the tags add up to `total`. */
  lemma RateStatsAddUp(xs: seq<AnalyzedAction>)
    ensures var st := RateStatsOf(xs);
            && st.total == |xs|
            && st.success + st.failure + st.noJudgment <= st.total
            && ((forall i | 0 <= i < |xs| :: xs[i].result in {Tag(Success), Tag(Failure), Tag(NoJudgment)})
                ==> st.success + st.failure + st.noJudgment == st.total)
  {
    TagsDiffer();
    ThreeCounts(Results(xs), Tag(Success), Tag(Failure), Tag(NoJudgment));
  }

  /** The success rate is a percentage, 0 when nothing succeeded, and 100 when
      every judged action succeeded. */
  lemma JudgedRateBounds(success: nat, failure: nat)
    ensures 0.0 <= JudgedRate(success, failure) <= 100.0
    ensures success == 0 ==> JudgedRate(success, failure) == 0.0
    ensures success > 0 && failure == 0 ==> JudgedRate(success, failure) == 100.0
  {
    if success + failure > 0 {
      var t := (success + failure) as real;
      assert (success as real) <= t;
      assert 100.0 * (success as real) <= 100.0 * t;
    }
  }

  /** `label_names && label_names[0]`: the label when it is truthy. */
  function LabelKey(a: AnalyzedAction): Option<string> {
    if a.action.name.Some? && a.action.name.value != "" then a.action.name else None
  }

  /** The per-label statistics, by definition: one entry per truthy label,
      holding the statistics of the actions with exactly that label. */
  function SuccessRateByAction(xs: seq<AnalyzedAction>): map<string, RateStats> {
    map k | k in Tally.KeysOf(xs, LabelKey) :: RateStatsOf(Tally.GroupOf(xs, LabelKey, k))
  }

  /** The grouping `reduce` of `calculateSuccessRateByAction`: each truthy
      label mapped to its actions, in input order; unlabelled actions skipped. */
  method GroupByLabel(xs: seq<AnalyzedAction>) returns (groups: map<string, seq<AnalyzedAction>>)
    ensures forall k :: k in groups <==> k in Tally.KeysOf(xs, LabelKey)
    ensures forall k | k in groups :: groups[k] == Tally.GroupOf(xs, LabelKey, k)
  {
    groups := map[];
    var i := 0;
    while i < |xs|
      invariant 0 <= i <= |xs|
      invariant forall k :: k in groups <==> k in Tally.KeysOf(xs[..i], LabelKey)
      invariant forall k | k in groups :: groups[k] == Tally.GroupOf(xs[..i], LabelKey, k)
    {
      var x := xs[i];
      assert xs[..i + 1] == xs[..i] + [x];
      Tally.KeysOfSnoc(xs[..i], x, LabelKey);
      forall k ensures Tally.GroupOf(xs[..i + 1], LabelKey, k)
                    == Tally.GroupOf(xs[..i], LabelKey, k) + (if LabelKey(x) == Some(k) then [x] else []) {
        Tally.GroupOfSnoc(xs[..i], x, LabelKey, k);
      }
      if LabelKey(x).Some? {
        var k := LabelKey(x).value;
        if k !in groups {
          Tally.GroupOfAbsent(xs[..i], LabelKey, k);
          groups := groups[k := []];
        }
        groups := groups[k := groups[k] + [x]];
      }
      i := i + 1;
    }
    assert xs[..i] == xs;
  }

  /** `calculateSuccessRateByAction`: the statistics of each label's group. */
  method CalculateSuccessRateByAction(actions: Option<seq<AnalyzedAction>>)
    returns (result: map<string, RateStats>)
    ensures actions.None? ==> result == map[]
    ensures actions.Some? ==> result == SuccessRateByAction(actions.value)
  {
    if actions.None? {
      return map[];
    }
    var groups := GroupByLabel(actions.value);
    result := map[];
    var pending := groups.Keys;
    while pending != {}
      invariant pending <= groups.Keys
      invariant forall k :: k in result <==> k in groups && k !in pending
      invariant forall k | k in result :: result[k] == RateStatsOf(groups[k])
      decreases pending
    {
      var k :| k in pending;
      var stats := CalculateSuccessRate(Some(groups[k]));
      result := result[k := stats];
      pending := pending - {k};
    }
    assert result.Keys == SuccessRateByAction(actions.value).Keys;
  }

  /** The group totals add up to the number of labelled actions: each labelled
      action is in exactly one group. */
  lemma ByActionTotalsAddUp(xs: seq<AnalyzedAction>)
    ensures var m, keys := SuccessRateByAction(xs), Tally.KeysOf(xs, LabelKey);
            SumTotals(m, Tally.FirstSeen(keys)) == |keys|
  {
    var m, keys := SuccessRateByAction(xs), Tally.KeysOf(xs, LabelKey);
    TotalsAreCounts(xs, Tally.FirstSeen(keys));
    Tally.SumOverFirstSeen(keys);
  }

  /** The totals of the entries `ks` of `m`, 0 for a key `m` lacks. */
  function SumTotals(m: map<string, RateStats>, ks: seq<string>): nat {
    if ks == [] then 0
    else SumTotals(m, ks[..|ks| - 1]) + (if ks[|ks| - 1] in m then m[ks[|ks| - 1]].total else 0)
  }

  lemma {:induction false} TotalsAreCounts(xs: seq<AnalyzedAction>, ks: seq<string>)
    requires forall i | 0 <= i < |ks| :: ks[i] in Tally.KeysOf(xs, LabelKey)
    ensures SumTotals(SuccessRateByAction(xs), ks) == Tally.SumCounts(Tally.KeysOf(xs, LabelKey), ks)
    decreases |ks|
  {
    if ks != [] {
      TotalsAreCounts(xs, ks[..|ks| - 1]);
      Tally.GroupSize(xs, LabelKey, ks[|ks| - 1]);
    }
  }

  // ---------------------------------------------------------------------
  // Display helpers

  /** `getResultIcon`: green for success, a cross for failure, and a ring for
      no judgment and for every other value. */
  function GetResultIcon(result: string): (r: string)
    ensures r == "\U{1F7E2}" <==> result == Tag(Success)
    ensures r == "\U{274C}" <==> result == Tag(Failure)
    ensures r == "\U{2B55}" <==> result != Tag(Success) && result != Tag(Failure)
  {
    if result == Tag(Success) then "\U{1F7E2}"
    else if result == Tag(Failure) then "\U{274C}"
    else if result == Tag(NoJudgment) then "\U{2B55}"
    else "\U{2B55}"
  }

  /** `formatFrameToTime(frame, fps)`: whole seconds, then minutes and the
      remainder as `m:ss`. */
  function FormatFrameToTime(frame: real, fps: real): string
    requires fps != 0.0
  {
    var totalSeconds := (frame / fps).Floor;
    ClockText(totalSeconds / 60, JsRemainder(totalSeconds, 60))
  }

  /** For a non-negative time the text reads back as the whole minutes, a
      colon, and two digits holding the leftover seconds, 0 to 59. */
  lemma FormatFrameToTimeReadsBack(frame: real, fps: real)
    requires fps != 0.0 && frame / fps >= 0.0
    ensures var t := (frame / fps).Floor;
            && 0 <= t && t % 60 < 60
            && ReadsAsClock(FormatFrameToTime(frame, fps), t / 60, t % 60)
  {
    var t := (frame / fps).Floor;
    assert FormatFrameToTime(frame, fps) == ClockText(t / 60, t % 60);
    ClockTextReadsBack(t / 60, t % 60);
  }
}
