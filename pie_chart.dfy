/** The winning-action pie chart (`PieChart`): for each player, the actions
    whose next action in the list is a serve, counted by action type, and
    the panel listing the winning actions of one type. Unlike the analyzer,
    this chart looks at the list in its given order and at the next entry
    only, whatever its timing. */
module PieChart {
  import opened Collections
  import opened Text
  import Sorting
  import Tally
  import opened ActionAnalyzer
  import opened Charts

  /** Two actions cover the same frames: equal start and equal end. */
  predicate SameSpan(a: Action, b: Action) {
    a.start == b.start && a.end == b.end
  }

  /** The position of the first action with the same start and end, -1 when
      there is none. */
  function IndexOfSpan(s: seq<Action>, a: Action): (r: int)
    ensures -1 <= r < |s|
    ensures r == -1 <==> forall k | 0 <= k < |s| :: !SameSpan(s[k], a)
    ensures 0 <= r ==> SameSpan(s[r], a) && forall k | 0 <= k < r :: !SameSpan(s[k], a)
  {
    if s == [] then -1
    else if SameSpan(s[0], a) then 0
    else
      var i := IndexOfSpan(s[1..], a);
      assert forall k | 1 <= k < |s| :: s[k] == s[1..][k - 1];
      if i == -1 then -1 else i + 1
  }

  /** `isWinningAction(action, allActions)`: false without an action or a
      list; otherwise true exactly when the first action with the same span
      has a next entry in the list and that entry's label names a serve. */
  function IsWinningAction(action: Option<Action>, allActions: Option<seq<Action>>): (r: bool)
    ensures action.None? || allActions.None? ==> !r
    ensures action.Some? && allActions.Some? ==>
              var s, a := allActions.value, action.value;
              (r <==> exists i | 0 <= i < |s| - 1 ::
                         && SameSpan(s[i], a) && (forall k | 0 <= k < i :: !SameSpan(s[k], a))
                         && LabelContains(s[i + 1].name, ServeMark))
  {
    if action.None? || allActions.None? then false
    else
      var s := allActions.value;
      var i := IndexOfSpan(s, action.value);
      if i == -1 || i >= |s| - 1 then false
      else LabelContains(s[i + 1].name, ServeMark)
  }

  /** The actions of the list that won the rally, in input order. */
  function Winning(xs: seq<Action>): seq<Action> {
    Filter(xs, (a: Action) => IsWinningAction(Some(a), Some(xs)))
  }

  /** Whether the action won and its type is `actionType`: the filter of
      `getWinningActionDetails`. */
  predicate WinningOfType(a: Action, xs: seq<Action>, actionType: string) {
    IsWinningAction(Some(a), Some(xs)) && TypeKey(a) == Some(actionType)
  }

  /** `getWinningActionDetails(actionType, actions)`: the panel rows for the
      winning, labelled actions of the given type, in input order. */
  function GetWinningActionDetails(actionType: string, actions: Option<seq<Action>>): (r: seq<PieDetail>)
    ensures actions.None? || actions.value == [] ==> r == []
    ensures actions.Some? ==>
              forall i | 0 <= i < |r| ::
                && r[i].action in actions.value
                && IsWinningAction(Some(r[i].action), actions)
                && r[i].action.name.Some? && r[i].fullName == r[i].action.name.value != ""
                && ExtractActionType(r[i].action.name) == actionType
    ensures actions.Some? ==> Subsequence(DetailActions(r), actions.value)
    ensures actions.Some? ==>
              forall a :: multiset(DetailActions(r))[a] ==
                if WinningOfType(a, actions.value, actionType) then multiset(actions.value)[a] else 0
  {
    if actions.None? || actions.value == [] then []
    else
      var xs := actions.value;
      var p := (a: Action) => WinningOfType(a, xs, actionType);
      DetailsOfFilter(xs, p);
      PieDetails(Filter(xs, p))
  }

  /** The slices of `calculateWinningActionDistribution`: nothing for a
      missing or empty list or when no action won; otherwise the labelled
      winning actions counted by type, each count's share of all winning
      actions. */
  function WinningActionDistribution(actions: Option<seq<Action>>): seq<PieEntry> {
    if actions.None? || actions.value == [] then []
    else
      var winning := Winning(actions.value);
      if winning == [] then [] else Distribution(Tally.KeysOf(winning, TypeKey), |winning|)
  }

  /** `calculateWinningActionDistribution(actions)`. */
  method CalculateWinningActionDistribution(actions: Option<seq<Action>>) returns (pieData: seq<PieEntry>)
    ensures pieData == WinningActionDistribution(actions)
  {
    if actions.None? || |actions.value| == 0 {
      return [];
    }
    var xs := actions.value;
    var winning := Winning(xs);
    if |winning| == 0 {
      return [];
    }
    var counts, order := CountByKey(winning, TypeKey);
    var total := |winning|;
    pieData := Sorting.SortBy(PieEntries(order, counts, total), ByValueDesc);
  }

  /** No winning action, no slice. */
  lemma NoWinNoSlices(xs: seq<Action>)
    requires forall a | a in xs :: !IsWinningAction(Some(a), Some(xs))
    ensures WinningActionDistribution(Some(xs)) == []
  {
  }

  /** The slice counts add up to the labelled winning actions, at most all
      winning actions; each percentage lies between 0 and 100; and the
      slices come in order of non-increasing count. */
  lemma WinningSlices(xs: seq<Action>)
    ensures var d, winning := WinningActionDistribution(Some(xs)), Winning(xs);
            && SumValues(d) == |Tally.KeysOf(winning, TypeKey)| <= |winning|
            && (forall i | 0 <= i < |d| :: 1 <= d[i].value && 0 <= d[i].percentage <= 100)
            && (forall i, j | 0 <= i < j < |d| :: d[i].value >= d[j].value)
  {
    var winning := Winning(xs);
    if xs == [] {
      assert winning == [];
    }
    CountedSlices(WinningActionDistribution(Some(xs)), winning);
  }

  /** Clicking a slice lists exactly as many actions as the slice counts. */
  lemma SliceMatchesPanel(xs: seq<Action>, i: nat)
    requires i < |WinningActionDistribution(Some(xs))|
    ensures var e := WinningActionDistribution(Some(xs))[i];
            |GetWinningActionDetails(e.actionType, Some(xs))| == e.value
  {
    var winning := Winning(xs);
    var keys := Tally.KeysOf(winning, TypeKey);
    var e := WinningActionDistribution(Some(xs))[i];
    DistributionEntries(keys, |winning|);
    Tally.GroupSize(winning, TypeKey, e.actionType);
    Tally.GroupOfFilter(xs, (a: Action) => IsWinningAction(Some(a), Some(xs)),
                        (a: Action) => WinningOfType(a, xs, e.actionType), TypeKey, e.actionType);
    assert |PieDetails(Tally.GroupOf(winning, TypeKey, e.actionType))| == e.value;
  }

  /** On a list in start order in which no other action shares the span of
      `a`, a winning action is one the analyzer judges a success: its next
      entry is its successor, and a serve there means the rally was won. */
  lemma WinningIsSuccessWhenSorted(a: Action, xs: seq<Action>)
    requires Sorting.SortedBy(xs, StartKey)
    requires a in xs && forall b | b in xs && SameSpan(b, a) :: b == a
    requires IsWinningAction(Some(a), Some(xs))
    ensures AnalyzeActionSuccess(a, xs) == Success
  {
    var i := IndexOfSpan(xs, a);
    assert 0 <= i < |xs| - 1 && LabelContains(xs[i + 1].name, ServeMark);
    assert xs[i] == a;
    assert IndexOf(xs, a) == i;
    assert Successor(a, xs) == Some(xs[i + 1]) by {
      Sorting.SortBySorted(xs, StartKey);
    }
    OutcomeBySuccessor(a, xs);
  }

  /** Out of start order the two disagree: a smash listed before an earlier
      serve counts as winning, while the analyzer, which sorts first, finds
      nothing after the smash and gives no judgment. */
  lemma WinningIgnoresStartOrder()
    ensures var smash, serve := Action(5.0, 6.0, Some("スマッシュ")), Action(1.0, 2.0, Some("サーブ"));
            && IsWinningAction(Some(smash), Some([smash, serve]))
            && AnalyzeActionSuccess(smash, [smash, serve]) == NoJudgment
  {
    var smash, serve := Action(5.0, 6.0, Some("スマッシュ")), Action(1.0, 2.0, Some("サーブ"));
    assert OccursAt(serve.name.value, ServeMark, 0);
    var s := SortByStart([smash, serve]);
    assert s == [serve, smash] by {
      assert Sorting.SortBy([serve], StartKey) == [serve];
    }
    assert IndexOf(s, smash) == 1;
    FirstCharAbsent(smash.name.value, ErrorMark);
  }
}
