/** The bar chart (`BarChart`): eleven per-category statistics functions,
    each a filter by label followed by a count of the successes, the overall
    success rate, and the twelve-row table comparing the two players. Each
    function has its own copy of the label test; the lemmas here show that
    every copy selects what the radar chart's category selects. */
module BarChart {
  import opened Collections
  import opened Text
  import opened ActionAnalyzer
  import opened Charts
  import RadarChart

  /** The shape shared by the eleven functions: `{0, 0, 0}` for a missing or
      empty list or an empty selection; otherwise the selection's size, its
      successes judged against the whole list, and their rounded percentage. */
  function StatsFor(actions: Option<seq<Action>>, p: Action -> bool): (r: Stats)
    ensures r.success <= r.total && 0 <= r.rate <= 100
    ensures actions.None? || actions.value == [] ==> r == NoStats
    ensures actions.Some? ==> r.total == |Filter(actions.value, p)|
  {
    if actions.None? || |actions.value| == 0 then NoStats
    else
      var xs := actions.value;
      var selected := Filter(xs, p);
      if |selected| == 0 then NoStats
      else
        var successful := Filter(selected, (a: Action) => AnalyzeActionSuccess(a, xs) == Success);
        Stats(|selected|, |successful|, RoundPercent(|successful|, |selected|))
  }

  /** A label test that agrees with a radar category other than `overall`
      gives that category's statistics. */
  lemma SameAsRadar(actions: Option<seq<Action>>, c: RadarChart.Category, p: Action -> bool)
    requires c != RadarChart.Overall
    requires forall a :: p(a) == RadarChart.Selects(c, a.name)
    ensures StatsFor(actions, p) == RadarChart.CalculateActionStats(actions, RadarChart.KeyOf(c))
  {
    RadarChart.CategoryNamesRoundTrip(c);
    if actions.Some? {
      FilterExt(actions.value, p, (a: Action) => RadarChart.Selects(c, a.name));
    }
  }

  /** `calculateServeStats`. */
  function CalculateServeStats(actions: Option<seq<Action>>): (r: Stats)
    ensures r == RadarChart.CalculateActionStats(actions, "serve")
  {
    var p := (a: Action) => LabelContains(a.name, "サーブ");
    SameAsRadar(actions, RadarChart.Serve, p);
    StatsFor(actions, p)
  }

  /** `calculateLobStats`. */
  function CalculateLobStats(actions: Option<seq<Action>>): (r: Stats)
    ensures r == RadarChart.CalculateActionStats(actions, "lob")
  {
    var p := (a: Action) => LabelContains(a.name, "ロブ");
    SameAsRadar(actions, RadarChart.Lob, p);
    StatsFor(actions, p)
  }

  /** `calculateNetHairpinStats`. */
  function CalculateNetHairpinStats(actions: Option<seq<Action>>): (r: Stats)
    ensures r == RadarChart.CalculateActionStats(actions, "netHairpin")
  {
    var p := (a: Action) => LabelContains(a.name, "ネット") || LabelContains(a.name, "ヘアピン");
    SameAsRadar(actions, RadarChart.NetHairpin, p);
    StatsFor(actions, p)
  }

  /** `calculatePushStats`. */
  function CalculatePushStats(actions: Option<seq<Action>>): (r: Stats)
    ensures r == RadarChart.CalculateActionStats(actions, "push")
  {
    var p := (a: Action) => LabelContains(a.name, "プッシュ");
    SameAsRadar(actions, RadarChart.Push, p);
    StatsFor(actions, p)
  }

  /** `calculateDriveStats`. */
  function CalculateDriveStats(actions: Option<seq<Action>>): (r: Stats)
    ensures r == RadarChart.CalculateActionStats(actions, "drive")
  {
    var p := (a: Action) => LabelContains(a.name, "ドライブ");
    SameAsRadar(actions, RadarChart.Drive, p);
    StatsFor(actions, p)
  }

  /** `calculateSmashReceiveStats`. */
  function CalculateSmashReceiveStats(actions: Option<seq<Action>>): (r: Stats)
    ensures r == RadarChart.CalculateActionStats(actions, "smashReceive")
  {
    var p := (a: Action) => LabelContains(a.name, "スマッシュレシーブ");
    SameAsRadar(actions, RadarChart.SmashReceive, p);
    StatsFor(actions, p)
  }

  /** `calculateClearStats`. */
  function CalculateClearStats(actions: Option<seq<Action>>): (r: Stats)
    ensures r == RadarChart.CalculateActionStats(actions, "clear")
  {
    var p := (a: Action) => LabelContains(a.name, "クリアー");
    SameAsRadar(actions, RadarChart.Clear, p);
    StatsFor(actions, p)
  }

  /** `calculateSmashStats`: smashes, smash receives excluded. */
  function CalculateSmashStats(actions: Option<seq<Action>>): (r: Stats)
    ensures r == RadarChart.CalculateActionStats(actions, "smash")
  {
    var p := (a: Action) => LabelContains(a.name, "スマッシュ") && !LabelContains(a.name, "スマッシュレシーブ");
    SameAsRadar(actions, RadarChart.Smash, p);
    StatsFor(actions, p)
  }

  /** `calculateDropCutStats`. */
  function CalculateDropCutStats(actions: Option<seq<Action>>): (r: Stats)
    ensures r == RadarChart.CalculateActionStats(actions, "dropCut")
  {
    var p := (a: Action) => LabelContains(a.name, "ドロップ") || LabelContains(a.name, "カット");
    SameAsRadar(actions, RadarChart.DropCut, p);
    StatsFor(actions, p)
  }

  /** `calculateDefenseStats`. */
  function CalculateDefenseStats(actions: Option<seq<Action>>): (r: Stats)
    ensures r == RadarChart.CalculateActionStats(actions, "defense")
  {
    var p := (a: Action) => LabelContains(a.name, "ディフェンス");
    SameAsRadar(actions, RadarChart.Defense, p);
    StatsFor(actions, p)
  }

  /** `calculateJudgeStats`. */
  function CalculateJudgeStats(actions: Option<seq<Action>>): (r: Stats)
    ensures r == RadarChart.CalculateActionStats(actions, "judge")
  {
    var p := (a: Action) => LabelContains(a.name, "ジャッジ");
    SameAsRadar(actions, RadarChart.Judge, p);
    StatsFor(actions, p)
  }

  /** `calculateSuccessRate`: the rounded percentage of successes over all
      actions, 0 for a missing or empty list; the radar chart's `overall`
      rate. */
  function CalculateSuccessRate(actions: Option<seq<Action>>): (r: int)
    ensures 0 <= r <= 100
    ensures r == RadarChart.CalculateActionStats(actions, "overall").rate
  {
    if actions.None? || |actions.value| == 0 then 0
    else
      var xs := actions.value;
      var successCount := |Filter(xs, (a: Action) => AnalyzeActionSuccess(a, xs) == Success)|;
      RadarChart.CategoryNamesRoundTrip(RadarChart.Overall);
      assert RadarChart.SelectedActions(xs, RadarChart.Overall) == xs;
      assert successCount == |RadarChart.Successes(xs, xs)|;
      RoundPercent(successCount, |xs|)
  }

  /** The smash and smash-receive bars split the actions whose label contains
      `スマッシュ` between them. */
  lemma SmashBarsSplit(xs: seq<Action>)
    ensures CalculateSmashStats(Some(xs)).total + CalculateSmashReceiveStats(Some(xs)).total
         == |Filter(xs, (a: Action) => LabelContains(a.name, "スマッシュ"))|
  {
    forall a: Action ensures
      (RadarChart.Selects(RadarChart.SmashReceive, a.name) <==>
        LabelContains(a.name, "スマッシュ") && LabelContains(a.name, "スマッシュレシーブ"))
    {
      RadarChart.SmashCategoriesSplit(a.name);
    }
    FilterSplit(xs, (a: Action) => LabelContains(a.name, "スマッシュ"),
                (a: Action) => RadarChart.Selects(RadarChart.SmashReceive, a.name),
                (a: Action) => RadarChart.Selects(RadarChart.Smash, a.name),
                (a: Action) => LabelContains(a.name, "スマッシュレシーブ"));
    RadarChart.CategoryNamesRoundTrip(RadarChart.Smash);
    RadarChart.CategoryNamesRoundTrip(RadarChart.SmashReceive);
    assert CalculateSmashStats(Some(xs)).total == |RadarChart.SelectedActions(xs, RadarChart.Smash)|;
    assert CalculateSmashReceiveStats(Some(xs)).total == |RadarChart.SelectedActions(xs, RadarChart.SmashReceive)|;
  }

  /** One row of the table: its title, the two players' values, the scale's
      maximum, and whether the value is a percentage. */
  datatype BarRow = BarRow(title: string, player1Value: int, player2Value: int, maxValue: int, showPercentage: bool)

  /** The categories of the table's rows, top to bottom. */
  const BarOrder: seq<RadarChart.Category> := [
    RadarChart.Overall, RadarChart.Serve, RadarChart.Lob, RadarChart.NetHairpin,
    RadarChart.Push, RadarChart.Drive, RadarChart.SmashReceive, RadarChart.Clear,
    RadarChart.Smash, RadarChart.DropCut, RadarChart.Defense, RadarChart.Judge]

  function Row(title: string, v1: int, v2: int): BarRow {
    BarRow(title, v1, v2, 100, true)
  }

  /** A row's title: the category's label followed by `成功率`. */
  function Title(c: RadarChart.Category): string {
    RadarChart.JpLabelOf(c) + "成功率"
  }

  /** The value a row shows for one player: `calculateSuccessRate` for the
      overall row, the `rate` of the category's own function for the others;
      in every case the radar chart's rate for that category. */
  function RateOf(actions: Option<seq<Action>>, c: RadarChart.Category): (r: int)
    ensures 0 <= r <= 100
    ensures r == RadarChart.CalculateActionStats(actions, RadarChart.KeyOf(c)).rate
  {
    match c
    case Overall => CalculateSuccessRate(actions)
    case Serve => CalculateServeStats(actions).rate
    case Lob => CalculateLobStats(actions).rate
    case NetHairpin => CalculateNetHairpinStats(actions).rate
    case Push => CalculatePushStats(actions).rate
    case Drive => CalculateDriveStats(actions).rate
    case SmashReceive => CalculateSmashReceiveStats(actions).rate
    case Clear => CalculateClearStats(actions).rate
    case Smash => CalculateSmashStats(actions).rate
    case DropCut => CalculateDropCutStats(actions).rate
    case Defense => CalculateDefenseStats(actions).rate
    case Judge => CalculateJudgeStats(actions).rate
  }

  /** `chartData`: twelve rows, one per category of `BarOrder`, each scaled
      to 100 and showing each player's rate for its category. */
  function ChartData(p1: Option<seq<Action>>, p2: Option<seq<Action>>): (r: seq<BarRow>)
    ensures |r| == |BarOrder| == 12
    ensures forall i | 0 <= i < 12 :: r[i].title == RadarChart.JpLabelOf(BarOrder[i]) + "成功率"
    ensures forall i | 0 <= i < 12 :: r[i].maxValue == 100 && r[i].showPercentage
    ensures forall i | 0 <= i < 12 ::
              && r[i].player1Value == RadarChart.CalculateActionStats(p1, RadarChart.KeyOf(BarOrder[i])).rate
              && r[i].player2Value == RadarChart.CalculateActionStats(p2, RadarChart.KeyOf(BarOrder[i])).rate
    ensures forall i | 0 <= i < 12 :: 0 <= r[i].player1Value <= 100 && 0 <= r[i].player2Value <= 100
  {
    seq(12, i requires 0 <= i < 12 => Row(Title(BarOrder[i]), RateOf(p1, BarOrder[i]), RateOf(p2, BarOrder[i])))
  }

  /** The chart: nothing without at least two players; otherwise the table
      for the first two players' actions, a missing list read as empty. */
  function BarChartRows(gts: Option<seq<Player>>): (r: Option<seq<BarRow>>)
    ensures gts.None? || |gts.value| < 2 <==> r.None?
    ensures r.Some? ==> r.value == ChartData(Some(ActionsOrEmpty(gts.value[0])), Some(ActionsOrEmpty(gts.value[1])))
  {
    if gts.None? || |gts.value| < 2 then None
    else Some(ChartData(Some(ActionsOrEmpty(gts.value[0])), Some(ActionsOrEmpty(gts.value[1]))))
  }
}
