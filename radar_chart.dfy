/** The radar chart (`RadarChart`): twelve action categories, each selected
    by substring tests on the action's label, with the success statistics
    shown on hover and the list of actions shown on click. */
module RadarChart {
  import opened Collections
  import opened Text
  import opened ActionAnalyzer
  import opened Charts

  /** The twelve dimensions of the chart. */
  datatype Category =
    | Overall | Serve | Lob | NetHairpin | Push | Drive
    | SmashReceive | Clear | Smash | DropCut | Defense | Judge

  /** The key `calculateActionStats` is called with for a category. */
  function KeyOf(c: Category): string {
    match c
    case Overall => "overall"
    case Serve => "serve"
    case Lob => "lob"
    case NetHairpin => "netHairpin"
    case Push => "push"
    case Drive => "drive"
    case SmashReceive => "smashReceive"
    case Clear => "clear"
    case Smash => "smash"
    case DropCut => "dropCut"
    case Defense => "defense"
    case Judge => "judge"
  }

  /** The Japanese label of a category, which the click handler passes to
      `getActionDetails`. */
  function JpLabelOf(c: Category): string {
    match c
    case Overall => "全体"
    case Serve => "サーブ"
    case Lob => "ロブ"
    case NetHairpin => "ネット/ヘアピン"
    case Push => "プッシュ"
    case Drive => "ドライブ"
    case SmashReceive => "スマッシュレシーブ"
    case Clear => "クリアー"
    case Smash => "スマッシュ"
    case DropCut => "ドロップ/カット"
    case Defense => "ディフェンス"
    case Judge => "ジャッジ"
  }

  /** The `if`/`else if` chain of `calculateActionStats` on its key; a key it
      does not list selects nothing. */
  function KeyCategory(key: string): (r: Option<Category>)
    ensures r.Some? ==> KeyOf(r.value) == key
  {
    if key == "serve" then Some(Serve)
    else if key == "lob" then Some(Lob)
    else if key == "netHairpin" then Some(NetHairpin)
    else if key == "push" then Some(Push)
    else if key == "drive" then Some(Drive)
    else if key == "smashReceive" then Some(SmashReceive)
    else if key == "clear" then Some(Clear)
    else if key == "smash" then Some(Smash)
    else if key == "dropCut" then Some(DropCut)
    else if key == "defense" then Some(Defense)
    else if key == "judge" then Some(Judge)
    else if key == "overall" then Some(Overall)
    else None
  }

  /** The `if`/`else if` chain of `getActionDetails` on the Japanese label;
      a label it does not list selects nothing. */
  function JpCategory(jp: string): (r: Option<Category>)
    ensures r.Some? ==> JpLabelOf(r.value) == jp
  {
    if jp == "全体" then Some(Overall)
    else if jp == "サーブ" then Some(Serve)
    else if jp == "ロブ" then Some(Lob)
    else if jp == "ネット/ヘアピン" then Some(NetHairpin)
    else if jp == "プッシュ" then Some(Push)
    else if jp == "ドライブ" then Some(Drive)
    else if jp == "スマッシュレシーブ" then Some(SmashReceive)
    else if jp == "クリアー" then Some(Clear)
    else if jp == "スマッシュ" then Some(Smash)
    else if jp == "ドロップ/カット" then Some(DropCut)
    else if jp == "ディフェンス" then Some(Defense)
    else if jp == "ジャッジ" then Some(Judge)
    else None
  }

  /** The key the hover handler computes from the Japanese label: the nested
      conditional falls back to `overall` for a label it does not list. */
  function HoverKey(jp: string): (r: string)
    ensures JpCategory(jp).Some? ==> r == KeyOf(JpCategory(jp).value)
    ensures JpCategory(jp).None? ==> r == "overall"
  {
    if jp == "全体" then "overall"
    else if jp == "サーブ" then "serve"
    else if jp == "ロブ" then "lob"
    else if jp == "ネット/ヘアピン" then "netHairpin"
    else if jp == "プッシュ" then "push"
    else if jp == "ドライブ" then "drive"
    else if jp == "スマッシュレシーブ" then "smashReceive"
    else if jp == "クリアー" then "clear"
    else if jp == "スマッシュ" then "smash"
    else if jp == "ドロップ/カット" then "dropCut"
    else if jp == "ディフェンス" then "defense"
    else if jp == "ジャッジ" then "judge"
    else "overall"
  }

  /** Each category's key and label lead back to it, and the hover mapping
      takes its label to its key. */
  lemma CategoryNamesRoundTrip(c: Category)
    ensures KeyCategory(KeyOf(c)) == Some(c)
    ensures JpCategory(JpLabelOf(c)) == Some(c)
    ensures HoverKey(JpLabelOf(c)) == KeyOf(c)
  {
    match c
    case Overall =>
    case Serve =>
    case Lob =>
    case NetHairpin =>
    case Push =>
    case Drive =>
    case SmashReceive =>
    case Clear =>
    case Smash =>
    case DropCut =>
    case Defense =>
    case Judge =>
  }

  /** The label test of a category: a present, non-empty label holding one of
      the named words; `smash` excludes smash receives; `overall` takes all. */
  predicate Selects(c: Category, name: Option<string>) {
    match c
    case Overall => true
    case Serve => LabelContains(name, "サーブ")
    case Lob => LabelContains(name, "ロブ")
    case NetHairpin => LabelContains(name, "ネット") || LabelContains(name, "ヘアピン")
    case Push => LabelContains(name, "プッシュ")
    case Drive => LabelContains(name, "ドライブ")
    case SmashReceive => LabelContains(name, "スマッシュレシーブ")
    case Clear => LabelContains(name, "クリアー")
    case Smash => LabelContains(name, "スマッシュ") && !LabelContains(name, "スマッシュレシーブ")
    case DropCut => LabelContains(name, "ドロップ") || LabelContains(name, "カット")
    case Defense => LabelContains(name, "ディフェンス")
    case Judge => LabelContains(name, "ジャッジ")
  }

  /** The actions of a category: the whole list for `overall`, the filter by
      the label test otherwise. */
  function SelectedActions(xs: seq<Action>, c: Category): (r: seq<Action>)
    ensures forall i | 0 <= i < |r| :: r[i] in xs && Selects(c, r[i].name)
    ensures forall i | 0 <= i < |xs| :: Selects(c, xs[i].name) ==> xs[i] in r
    ensures Subsequence(r, xs)
    ensures forall a :: multiset(r)[a] == if Selects(c, a.name) then multiset(xs)[a] else 0
  {
    if c == Overall then
      SubsequenceOfItself(xs);
      xs
    else
      var p := (a: Action) => Selects(c, a.name);
      FilterIsSubsequence(xs, p);
      FilterCounts(xs, p);
      Filter(xs, p)
  }

  /** The selected actions that the analyzer, judging against the whole list
      `all`, calls a success. */
  function Successes(selected: seq<Action>, all: seq<Action>): seq<Action> {
    Filter(selected, (a: Action) => AnalyzeActionSuccess(a, all) == Success)
  }

  /** `calculateActionStats(actions, actionType)`. */
  function CalculateActionStats(actions: Option<seq<Action>>, actionType: string): (r: Stats)
    ensures r.success <= r.total && 0 <= r.rate <= 100
    ensures actions.None? || actions.value == [] || KeyCategory(actionType).None? ==> r == NoStats
    ensures actions.Some? && KeyCategory(actionType).Some? ==>
              var xs, c := actions.value, KeyCategory(actionType).value;
              && r.total == |SelectedActions(xs, c)|
              && r.success == |Successes(SelectedActions(xs, c), xs)|
              && r.rate == (if r.total == 0 then 0 else RoundPercent(r.success, r.total))
  {
    if actions.None? || actions.value == [] then NoStats
    else
      var xs := actions.value;
      var filtered := match KeyCategory(actionType)
        case None => []
        case Some(c) => SelectedActions(xs, c);
      if filtered == [] then NoStats
      else
        var successful := Successes(filtered, xs);
        Stats(|filtered|, |successful|, RoundPercent(|successful|, |filtered|))
  }

  /** One row of the click panel: the action with its time, its label or
      `Unknown`, and the analyzer's tag. */
  datatype RadarDetail = RadarDetail(action: Action, timeInSeconds: real, fullName: string, success: string)

  /** The panel rows for `selected`, each judged against the whole list `all`. */
  function RadarDetails(selected: seq<Action>, all: seq<Action>): (r: seq<RadarDetail>)
    ensures |r| == |selected|
    ensures forall i | 0 <= i < |r| ::
              && r[i].action == selected[i]
              && r[i].timeInSeconds == TimeInSeconds(selected[i].start)
              && r[i].fullName == (if selected[i].name.Some? && selected[i].name.value != ""
                                   then selected[i].name.value else "Unknown")
              && r[i].success == Tag(AnalyzeActionSuccess(selected[i], all))
  {
    seq(|selected|, i requires 0 <= i < |selected| =>
      var a := selected[i];
      var name := if a.name.Some? && a.name.value != "" then a.name.value else "Unknown";
      RadarDetail(a, TimeInSeconds(a.start), name, Tag(AnalyzeActionSuccess(a, all))))
  }

  /** `getActionDetails(actionType, actions, playerSide)`. */
  function GetActionDetails(jp: string, actions: Option<seq<Action>>): (r: seq<RadarDetail>)
    ensures actions.None? || actions.value == [] || JpCategory(jp).None? ==> r == []
    ensures actions.Some? && JpCategory(jp).Some? ==>
              r == RadarDetails(SelectedActions(actions.value, JpCategory(jp).value), actions.value)
  {
    if actions.None? || actions.value == [] then []
    else
      var xs := actions.value;
      var filtered := match JpCategory(jp)
        case None => []
        case Some(c) => SelectedActions(xs, c);
      RadarDetails(filtered, xs)
  }

  /** A row whose tag is the success tag. */
  predicate IsSuccessRow(d: RadarDetail) { d.success == Tag(Success) }

  /** The click panel's summary: the row count, the successful rows, and
      their rounded percentage, 0 for an empty panel. */
  datatype Summary = Summary(total: nat, successful: nat, successRate: int)

  function PanelSummary(details: seq<RadarDetail>): (r: Summary)
    ensures r.successful <= r.total == |details| && 0 <= r.successRate <= 100
    ensures r.successful == |Filter(details, IsSuccessRow)|
    ensures r.successRate == if r.total == 0 then 0 else RoundPercent(r.successful, r.total)
  {
    var total := |details|;
    var successful := |Filter(details, IsSuccessRow)|;
    Summary(total, successful, if total > 0 then RoundPercent(successful, total) else 0)
  }

  /** The successful rows are as many as the successes among the rows' actions. */
  lemma SuccessRowsCount(selected: seq<Action>, all: seq<Action>)
    ensures |Filter(RadarDetails(selected, all), IsSuccessRow)| == |Successes(selected, all)|
  {
    var ds := RadarDetails(selected, all);
    TagsDiffer();
    FilterAlignedCount(ds, selected, IsSuccessRow, (a: Action) => AnalyzeActionSuccess(a, all) == Success);
  }

  /** For each of the twelve labels, the click panel's counts and rate equal
      the hover statistics of the key the hover handler maps the label to. */
  lemma ClickMatchesHover(c: Category, actions: Option<seq<Action>>)
    ensures var s, h := PanelSummary(GetActionDetails(JpLabelOf(c), actions)),
                        CalculateActionStats(actions, HoverKey(JpLabelOf(c)));
            s.total == h.total && s.successful == h.success && s.successRate == h.rate
  {
    CategoryNamesRoundTrip(c);
    if actions.Some? && actions.value != [] {
      SuccessRowsCount(SelectedActions(actions.value, c), actions.value);
    }
  }

  /** For a label outside the twelve, the click panel is empty while the hover
      shows the overall statistics. */
  lemma UnknownLabelFallsBack(jp: string, actions: Option<seq<Action>>)
    requires JpCategory(jp).None?
    ensures GetActionDetails(jp, actions) == []
    ensures CalculateActionStats(actions, HoverKey(jp)) == CalculateActionStats(actions, "overall")
  {
  }

  /** `smash` and `smashReceive` never select the same action, and together
      they select exactly the labels that contain `スマッシュ`. */
  lemma SmashCategoriesSplit(name: Option<string>)
    ensures !(Selects(Smash, name) && Selects(SmashReceive, name))
    ensures Selects(Smash, name) || Selects(SmashReceive, name) <==> LabelContains(name, "スマッシュ")
  {
    if name.Some? && Contains(name.value, "スマッシュレシーブ") {
      assert "スマッシュレシーブ" == "スマッシュ" + "レシーブ";
      ContainsPrefix(name.value, "スマッシュ", "レシーブ");
    }
  }

  /** `overall` takes every action, the two-word categories take either word. */
  lemma WideCategories(xs: seq<Action>, name: Option<string>)
    ensures SelectedActions(xs, Overall) == xs
    ensures Selects(NetHairpin, name) <==> LabelContains(name, "ネット") || LabelContains(name, "ヘアピン")
    ensures Selects(DropCut, name) <==> LabelContains(name, "ドロップ") || LabelContains(name, "カット")
  {
  }

  /** A serve answered 0.5 seconds after its end is a success within the
      pair, and a lone serve without the error mark has no judgment. */
  lemma ServeAnswered()
    ensures var serve, smash := Action(0.0, 1.0, Some("サーブ")), Action(1.5, 2.0, Some("スマッシュ"));
            && AnalyzeActionSuccess(serve, [serve, smash]) == Success
            && AnalyzeActionSuccess(serve, [serve]) == NoJudgment
  {
    var serve, smash := Action(0.0, 1.0, Some("サーブ")), Action(1.5, 2.0, Some("スマッシュ"));
    var xs := [serve, smash];
    FirstCharAbsent(serve.name.value, ErrorMark);
    assert SortByStart(xs) == xs by {
      assert Sorting.SortBy([smash], StartKey) == [smash];
    }
    assert IndexOf(xs, serve) == 0;
    assert SortByStart([serve]) == [serve];
  }

  /** Of a serve and a smash, the serve category takes the serve alone. */
  lemma ServeSelected()
    ensures var serve, smash := Action(0.0, 1.0, Some("サーブ")), Action(1.5, 2.0, Some("スマッシュ"));
            SelectedActions([serve, smash], Serve) == [serve]
  {
    var serve, smash := Action(0.0, 1.0, Some("サーブ")), Action(1.5, 2.0, Some("スマッシュ"));
    var xs := [serve, smash];
    assert OccursAt(serve.name.value, "サーブ", 0);
    FirstCharAbsent(smash.name.value, "サーブ");
    assert Filter(xs[..1], (a: Action) => Selects(Serve, a.name)) == [serve] by {
      assert xs[..1][..0] == [];
    }
  }

  /** In the pair, the serve category has one action, one success and a rate
      of 100. */
  lemma ServeCategoryStats()
    ensures var serve, smash := Action(0.0, 1.0, Some("サーブ")), Action(1.5, 2.0, Some("スマッシュ"));
            CalculateActionStats(Some([serve, smash]), "serve") == Stats(1, 1, 100)
  {
    var serve, smash := Action(0.0, 1.0, Some("サーブ")), Action(1.5, 2.0, Some("スマッシュ"));
    var xs := [serve, smash];
    ServeSelected();
    ServeAnswered();
    assert KeyCategory("serve") == Some(Serve);
    var sel := [serve];
    assert Successes(sel, xs) == [serve] by {
      assert sel[..0] == [];
    }
  }

  /** Success is judged against the whole list, not against the category:
      a serve answered within two seconds by a smash counts as a success of
      the serve category, though the serves alone contain no answer. */
  lemma JudgedAgainstWholeList()
    ensures var serve, smash := Action(0.0, 1.0, Some("サーブ")), Action(1.5, 2.0, Some("スマッシュ"));
            && CalculateActionStats(Some([serve, smash]), "serve") == Stats(1, 1, 100)
            && AnalyzeActionSuccess(serve, SelectedActions([serve, smash], Serve)) == NoJudgment
  {
    ServeCategoryStats();
    ServeSelected();
    ServeAnswered();
  }

  /** The two players' rows of the chart: one statistics record per
      dimension, in the chart's fixed order. */
  const Dimensions: seq<Category> :=
    [Overall, Serve, Smash, Clear, DropCut, Drive, NetHairpin, Push, SmashReceive, Defense, Lob, Judge]

  function PlayerData(actions: Option<seq<Action>>): (r: seq<Stats>)
    ensures |r| == |Dimensions| == 12
    ensures forall i | 0 <= i < 12 :: r[i] == CalculateActionStats(actions, KeyOf(Dimensions[i]))
  {
    seq(12, i requires 0 <= i < 12 => CalculateActionStats(actions, KeyOf(Dimensions[i])))
  }
}
