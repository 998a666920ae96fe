/** The losing-action pie chart (`PieChart2`): for each player, the actions
    that lost the rally, counted by action type, and the panel listing the
    losing actions of one type. Its `isLosingAction` repeats the rally rule of
    the analyzer with the result turned into "did this action lose". */
module PieChart2 {
  import opened Collections
  import opened Text
  import Sorting
  import Tally
  import opened ActionAnalyzer
  import opened Charts

  /** `isLosingAction(currentAction, playerActions)`: no later action within
      two seconds of the end, and either the first later action is not a
      serve or there is none and the action's own label carries the error
      mark. It is exactly the analyzer's `Failure`. */
  function IsLosingAction(current: Action, actions: seq<Action>): (r: bool)
    ensures r <==> AnalyzeActionSuccess(current, actions) == Failure
  {
    var s := SortByStart(actions);
    var lo, deadline := LaterFrom(s, current), current.end + 2.0;
    if FindFrom(s, lo, (x: Action) => x.start <= deadline).Some? then false
    else
      match FindFrom(s, lo, (x: Action) => x.start > deadline)
      case Some(k) => !LabelContains(s[k].name, ServeMark)
      case None => LabelContains(current.name, ErrorMark)
  }

  /** The actions of the list that lost the rally, in input order. */
  function Losing(xs: seq<Action>): seq<Action> {
    Filter(xs, (a: Action) => IsLosingAction(a, xs))
  }

  /** Whether the action lost and its type is `actionType`: the filter of
      `getLosingActionDetails`. */
  predicate LosingOfType(a: Action, xs: seq<Action>, actionType: string) {
    IsLosingAction(a, xs) && TypeKey(a) == Some(actionType)
  }

  /** `getLosingActionDetails(actionType, actions)`: the panel rows for the
      losing, labelled actions of the given type, in input order. */
  function GetLosingActionDetails(actionType: string, actions: Option<seq<Action>>): (r: seq<PieDetail>)
    ensures actions.None? || actions.value == [] ==> r == []
    ensures actions.Some? ==>
              forall i | 0 <= i < |r| ::
                && r[i].action in actions.value
                && AnalyzeActionSuccess(r[i].action, actions.value) == Failure
                && r[i].action.name.Some? && r[i].fullName == r[i].action.name.value != ""
                && ExtractActionType(r[i].action.name) == actionType
    ensures actions.Some? ==> Subsequence(DetailActions(r), actions.value)
    ensures actions.Some? ==>
              forall a :: multiset(DetailActions(r))[a] ==
                if LosingOfType(a, actions.value, actionType) then multiset(actions.value)[a] else 0
  {
    if actions.None? || actions.value == [] then []
    else
      var xs := actions.value;
      var p := (a: Action) => LosingOfType(a, xs, actionType);
      DetailsOfFilter(xs, p);
      PieDetails(Filter(xs, p))
  }

  /** The slices of `calculateLosingActionDistribution`: nothing for a missing
      or empty list or when no action lost; otherwise the labelled losing
      actions counted by type, each count's share of all losing actions. */
  function LosingActionDistribution(actions: Option<seq<Action>>): seq<PieEntry> {
    if actions.None? || actions.value == [] then []
    else
      var losing := Losing(actions.value);
      if losing == [] then [] else Distribution(Tally.KeysOf(losing, TypeKey), |losing|)
  }

  /** `calculateLosingActionDistribution(actions)`. */
  method CalculateLosingActionDistribution(actions: Option<seq<Action>>) returns (pieData: seq<PieEntry>)
    ensures pieData == LosingActionDistribution(actions)
  {
    if actions.None? || |actions.value| == 0 {
      return [];
    }
    var xs := actions.value;
    var losing := Losing(xs);
    if |losing| == 0 {
      return [];
    }
    var counts, order := CountByKey(losing, TypeKey);
    var total := |losing|;
    pieData := Sorting.SortBy(PieEntries(order, counts, total), ByValueDesc);
  }

  /** No losing action, no slice. */
  lemma NoLossNoSlices(xs: seq<Action>)
    requires forall a | a in xs :: AnalyzeActionSuccess(a, xs) != Failure
    ensures LosingActionDistribution(Some(xs)) == []
  {
    var losing := Losing(xs);
    assert losing != [] ==> losing[0] in xs && IsLosingAction(losing[0], xs);
  }

  /** The slice counts add up to the labelled losing actions, at most all
      losing actions; each percentage lies between 0 and 100; and the slices
      come in order of non-increasing count. */
  lemma LosingSlices(xs: seq<Action>)
    ensures var d, losing := LosingActionDistribution(Some(xs)), Losing(xs);
            && SumValues(d) == |Tally.KeysOf(losing, TypeKey)| <= |losing|
            && (forall i | 0 <= i < |d| :: 1 <= d[i].value && 0 <= d[i].percentage <= 100)
            && (forall i, j | 0 <= i < j < |d| :: d[i].value >= d[j].value)
  {
    var losing := Losing(xs);
    if xs == [] {
      assert losing == [];
    }
    CountedSlices(LosingActionDistribution(Some(xs)), losing);
  }

  /** Clicking a slice lists exactly as many actions as the slice counts:
      the panel rows for a slice's type are the losing actions of that type. */
  lemma SliceMatchesPanel(xs: seq<Action>, i: nat)
    requires i < |LosingActionDistribution(Some(xs))|
    ensures var e := LosingActionDistribution(Some(xs))[i];
            |GetLosingActionDetails(e.actionType, Some(xs))| == e.value
  {
    var losing := Losing(xs);
    var keys := Tally.KeysOf(losing, TypeKey);
    var e := LosingActionDistribution(Some(xs))[i];
    DistributionEntries(keys, |losing|);
    Tally.GroupSize(losing, TypeKey, e.actionType);
    Tally.GroupOfFilter(xs, (a: Action) => IsLosingAction(a, xs),
                        (a: Action) => LosingOfType(a, xs, e.actionType), TypeKey, e.actionType);
    assert |PieDetails(Tally.GroupOf(losing, TypeKey, e.actionType))| == e.value;
  }
}
