# Badminton action analysis, modelled in Dafny

The application shows a badminton match video next to the annotated
actions of its two players. Each action is a stretch of frames
(`start_id`, `end_id`) with a list of label names, such as `サーブ` (serve),
`スマッシュ` (smash) or `ロブ(誤)` (a lob marked as an error). Its core is a
rally-outcome classifier. An action succeeds when the same player acts again
within two time units of its end. If the player's next action comes later,
the action succeeds when that next action is a serve, since a serve means
the point was won, and fails otherwise. An action with nothing after it fails
when its label carries the error mark `誤`. Otherwise it gets no judgment.

Everything the views show is built on that classifier:

- per-player success statistics, overall and per label;
- two pie charts, one of winning and one of losing action types;
- a radar chart and a bar chart of twelve category rates;
- an action list with a two-valued status icon;
- a check of the uploaded JSON document.

The project models each of these and proves what each promises. The modules are:

- `Collections`: an `Option` type, an order-keeping `Filter`, and facts about them.
- `Text`: the JavaScript string operations used, which are `includes`, `trim`, `split(c)[0]`, `padStart`, integer `toString` and `%`. It also has a decimal reader for stating what formatted text says.
- `Sorting`: the stable `Array.prototype.sort` with a key comparator, as an insertion sort. It is proved sorted, a permutation and stable. It is also proved to be determined by the order of each key's elements.
- `Tally`: counting by key in first-seen order, which is the order of a JavaScript object used as a counter.
- `ActionAnalyzer`: `utils/ActionAnalyzer.js`.
- `Charts`: what the chart components share. That is percentage rounding, `extractActionType`, the counting loop of the pie charts and the slice table.
- `PieChart2` and `PieChart`: the losing-action and winning-action pie charts.
- `RadarChart` and `BarChart`: the category charts.
- `ActionList`: the list view.
- `App`: `validateJsonData`.

Modelling choices:

- Timestamps are exact `real`s. An action is `Action(start, end, name)`, where `name` is `label_names[0]` and is `None` for an empty label list.
- A missing or non-array input, which the source tests with `!x || !Array.isArray(x)`, is `None` of an `Option`.
- The counting and grouping loops of the source are methods. Each is proved equal to a function over the input, and the properties are proved about that function.
- The rest is functions. Their contracts are tied to the classifier, to the other views or to lemmas.

## Model

| member | source | states |
|---|---|---|
| Sorting.SortBy | src/utils/ActionAnalyzer.js:39 | the sorted copy has the input's length and elements and is sorted by start |
| Sorting.SortByIsStable | src/utils/ActionAnalyzer.js:39 | elements with equal start keep their input order (stable sort) |
| Sorting.SortByDependsOnlyOnKeyOrder | src/utils/ActionAnalyzer.js:39 | two inputs with the same per-start order sort to the same copy |
| Sorting.PermutationSortsAlike | src/utils/ActionAnalyzer.js:39 | with pairwise distinct starts, any reordering of the input sorts to the same copy |
| Sorting.SortBySorted | src/utils/ActionAnalyzer.js:39 | an input already in start order is its own sorted copy |
| ActionAnalyzer.SortByStart | src/utils/ActionAnalyzer.js:39 | the sorted copy is a permutation of the input, in start order |
| ActionAnalyzer.IndexOf | src/utils/ActionAnalyzer.js:42-46 | the first position with equal start, end and label; -1 exactly when there is none |
| ActionAnalyzer.FindFrom | src/utils/ActionAnalyzer.js:49-51 | the first index at or after the bound whose action satisfies the test, or none when no such action exists |
| ActionAnalyzer.AnalyzeActionSuccess | src/utils/ActionAnalyzer.js:34-78 | success when a later sorted action starts at or before end + 2. When later actions exist but all start after that, the outcome is never no-judgment, and it is success iff the first later label contains `サーブ`. With nothing later it is never success, and it is failure iff the action's own label contains `誤` |
| ActionAnalyzer.OutcomeBySuccessor | src/utils/ActionAnalyzer.js:49-67 | the outcome is decided by the immediate successor in the sorted copy alone |
| ActionAnalyzer.LastActionByOwnLabel | src/utils/ActionAnalyzer.js:70-77 | an action that occurs once and starts after all others is judged by its own label only |
| ActionAnalyzer.SameOutcomeForSamePerStartOrder | src/utils/ActionAnalyzer.js:39 | inputs that agree on the order within each start time give every action the same outcome |
| ActionAnalyzer.ShuffleInvariantForDistinctStarts | src/utils/ActionAnalyzer.js:39-46 | with pairwise distinct starts, reordering the input changes no outcome |
| ActionAnalyzer.TiedStartListedFirst | src/utils/ActionAnalyzer.js:39-56 | of two actions with equal starts, the one listed first is followed by the other and succeeds |
| ActionAnalyzer.TiedStartListedSecond | src/utils/ActionAnalyzer.js:39-77 | listed second, the same action has no later action and is unjudged, so with ties the input order matters |
| ActionAnalyzer.PairJudgedBySecond | src/utils/ActionAnalyzer.js:39-67 | in a two-action list in start order the first action is judged by the second alone |
| ActionAnalyzer.PairSecondByOwnLabel | src/utils/ActionAnalyzer.js:39-77 | in a two-action list in start order the second, distinct action has nothing after it and is judged by its own label |
| ActionAnalyzer.WindowBoundIsInclusive | src/utils/ActionAnalyzer.js:49-51 | when the next action is no serve, starting exactly at end + 2 makes a success and starting any later a failure: the bound is inclusive |
| ActionAnalyzer.SmashThenServe | src/utils/ActionAnalyzer.js:49-77 | a smash answered within the window succeeds; the serve after it, last and without `誤`, is unjudged |
| ActionAnalyzer.LoneErrorIsFailure | src/utils/ActionAnalyzer.js:70-74 | a single action whose label contains `誤` is a failure |
| ActionAnalyzer.DriveThenLateDrop | src/utils/ActionAnalyzer.js:59-67 | a next action outside the window that is not a serve makes a failure |
| ActionAnalyzer.TagsDiffer | src/utils/ActionAnalyzer.js:22-26 | the three result tags are distinct strings |
| ActionAnalyzer.AnalyzePlayerActions | src/utils/ActionAnalyzer.js:85-94 | `[]` for a missing list; otherwise the same actions in the same order, each tagged with its outcome within the whole list |
| ActionAnalyzer.AnalyzeEach | src/utils/ActionAnalyzer.js:90-93 | one tagged element per action, in order, judged against the given list |
| ActionAnalyzer.AnalyzeAllPlayersActions | src/utils/ActionAnalyzer.js:101-110 | `[]` for a missing list; otherwise each player in order, other fields kept, actions (missing read as empty) analysed within that player's own list |
| ActionAnalyzer.Results | src/utils/ActionAnalyzer.js:130 | the `result` tags of the list, position by position |
| ActionAnalyzer.CalculateSuccessRate | src/utils/ActionAnalyzer.js:117-154 | all zero for a missing list; otherwise the count of actions, the count of each of the three tags, and the success percentage over success + failure |
| ActionAnalyzer.RateStatsAddUp | src/utils/ActionAnalyzer.js:128-148 | `total` is the list length; the three tag counts never exceed it and add up to it when every tag is one of the three |
| ActionAnalyzer.ThreeCounts | src/utils/ActionAnalyzer.js:128-147 | the counts of three distinct tags add up to at most the number of tags, and to exactly that when every tag is one of them |
| ActionAnalyzer.JudgedRateBounds | src/utils/ActionAnalyzer.js:150-151 | the rate lies in 0..100; it is 0 without successes and 100 when every judged action succeeded |
| ActionAnalyzer.GroupByLabel | src/utils/ActionAnalyzer.js:166-175 | the groups are keyed by exactly the truthy labels present, each holding that label's actions in input order |
| ActionAnalyzer.CalculateSuccessRateByAction | src/utils/ActionAnalyzer.js:161-183 | `{}` for a missing list; otherwise each present label mapped to the statistics of its own group |
| ActionAnalyzer.ByActionTotalsAddUp | src/utils/ActionAnalyzer.js:177-180 | over the labels in first-seen order, the group totals sum to the number of labelled actions |
| ActionAnalyzer.TotalsAreCounts | src/utils/ActionAnalyzer.js:177-180 | each group's total is the number of occurrences of its label |
| ActionAnalyzer.GetResultIcon | src/utils/ActionAnalyzer.js:209-220 | green exactly for the success tag, a cross exactly for the failure tag, a ring for every other value |
| ActionAnalyzer.FormatFrameToTimeReadsBack | src/utils/ActionAnalyzer.js:228-233 | for non-negative time the text is the whole minutes, a colon, and two digits holding the leftover seconds below 60 |
| ActionAnalyzer.FormatFrameToTime | src/utils/ActionAnalyzer.js:228-233 | the `m:ss` text of the whole seconds; carries no contract of its own, its reading is `FormatFrameToTimeReadsBack` |
| Charts.RoundPercent | src/components/BarChart.jsx:24 | `Math.round(x / total * 100)` in exact arithmetic: 0..100 when x ≤ total, 0 for x = 0, 100 for x = total |
| Charts.RoundPercentIsNearest | src/components/BarChart.jsx:24 | the rounded value is the whole number nearest to 100 · x / total, halves rounded up |
| Charts.RoundBounds | src/components/BarChart.jsx:24 | any whole number within those rounding bounds of a share of at most the whole lies in 0..100, and is 0 for no share and 100 for the whole |
| Charts.MulAtLeast | src/components/BarChart.jsx:24 | a positive multiple of a positive number is at least that number (rounding bound) |
| Charts.RoundTenth | src/components/RadarChart.jsx:94 | rounding to one decimal moves the value by at most 0.05 and leaves a whole number of tenths |
| Charts.TimeInSeconds | src/components/RadarChart.jsx:94 | 0 for a start of 0; otherwise a whole number of tenths within 0.05 of the start, which fixes it as the start rounded to one decimal, halves up |
| Charts.PieDetails | src/components/PieChart2.jsx:85-89 | one panel row per action, in order, carrying that action |
| Charts.ExtractActionType | src/components/PieChart2.jsx:15-21 | never empty and never holding `(`; `その他` for a missing or empty label or a blank text before the first `(` |
| Charts.ExtractActionTypeIsTrimmedPrefix | src/components/PieChart2.jsx:19 | otherwise the type is a stretch of the label before its first `(`, with only white space around it there, starting and ending with non-blank characters |
| Charts.PieEntries | src/components/PieChart2.jsx:146-150 | one slice per key in order, with its count and rounded percentage of the total |
| Charts.CountMapSnoc | src/components/PieChart2.jsx:140-141 | one more key bumps its own counter by one, starting it at 1 when new |
| Charts.CountStep | src/components/PieChart2.jsx:138-143 | one loop step keeps the key order as first-seen order and the counters as the counts |
| Charts.CountByKey | src/components/PieChart2.jsx:136-143 | the counting loop leaves the keys in first-seen order and each key's count |
| Charts.SumValuesPermutation | src/components/PieChart2.jsx:153 | reordering the slices does not change the sum of their values |
| Charts.PieEntriesSum | src/components/PieChart2.jsx:146-152 | the slice values add up to the counts of the listed keys |
| Charts.DistributionSum | src/components/PieChart2.jsx:136-153 | the slice values add up to the number of counted actions |
| Charts.DistributionEntries | src/components/PieChart2.jsx:146-153 | each slice is a counted key with its count, at least 1, and its rounded percentage, which is in 0..100 when the keys are at most the total |
| Charts.DistributionCovers | src/components/PieChart2.jsx:136-153 | every counted key has a slice |
| Charts.KeyHasSlice | src/components/PieChart2.jsx:136-153 | a counted key has a slice after the sort |
| Charts.DistributionSorted | src/components/PieChart2.jsx:153 | the slices come in order of non-increasing value |
| Charts.CountedSlices | src/components/PieChart2.jsx:133-153 | the slices of a list counted by type (none for no actions) sum to its labelled actions, at most all of them, each at least 1 with a percentage in 0..100, in non-increasing order |
| PieChart2.IsLosingAction | src/components/PieChart2.jsx:24-70 | true exactly when the classifier gives failure |
| PieChart2.GetLosingActionDetails | src/components/PieChart2.jsx:73-90 | empty for a missing or empty list; otherwise every row is a failure with a truthy label and the requested type, and the rows' actions are exactly the list's matching actions, every copy, in input order |
| PieChart2.CalculateLosingActionDistribution | src/components/PieChart2.jsx:127-154 | the counting-and-sorting method computes the losing-type slices |
| PieChart2.LosingActionDistribution | src/components/PieChart2.jsx:127-154 | the losing-type slices; carries no contract of its own, its properties are `LosingSlices`, `NoLossNoSlices` and `SliceMatchesPanel` |
| PieChart2.NoLossNoSlices | src/components/PieChart2.jsx:131-134 | no losing action, no slice |
| PieChart2.LosingSlices | src/components/PieChart2.jsx:136-153 | slice values sum to the labelled losing actions (at most all losing actions), each at least 1 with a percentage in 0..100, in non-increasing order |
| PieChart2.SliceMatchesPanel | src/components/PieChart2.jsx:73-90 | clicking a slice lists exactly as many actions as the slice's value |
| PieChart.IndexOfSpan | src/components/PieChart.jsx:28-33 | the first position with equal start and end, -1 exactly when there is none |
| PieChart.IsWinningAction | src/components/PieChart.jsx:24-40 | false without an action or list; otherwise true iff the element after the first span match in input order exists and its label contains `サーブ` |
| PieChart.GetWinningActionDetails | src/components/PieChart.jsx:43-60 | empty for a missing or empty list; otherwise every row is a winning action with a truthy label and the requested type, and the rows' actions are exactly the list's matching actions, every copy, in input order |
| PieChart.CalculateWinningActionDistribution | src/components/PieChart.jsx:98-125 | the counting-and-sorting method computes the winning-type slices |
| PieChart.WinningActionDistribution | src/components/PieChart.jsx:98-125 | the winning-type slices; carries no contract of its own, its properties are `WinningSlices`, `NoWinNoSlices` and `SliceMatchesPanel` |
| PieChart.NoWinNoSlices | src/components/PieChart.jsx:102-105 | no winning action, no slice |
| PieChart.WinningSlices | src/components/PieChart.jsx:107-124 | slice values sum to the labelled winning actions, each at least 1 with a percentage in 0..100, in non-increasing order |
| PieChart.SliceMatchesPanel | src/components/PieChart.jsx:43-60 | clicking a slice lists exactly as many actions as the slice's value |
| PieChart.WinningIsSuccessWhenSorted | src/components/PieChart.jsx:24-40 | on a list already in start order with unique spans, a winning action is a classifier success |
| PieChart.WinningIgnoresStartOrder | src/components/PieChart.jsx:28-39 | out of start order the two disagree: a smash listed before an earlier serve wins here but is unjudged by the classifier |
| RadarChart.KeyCategory | src/components/RadarChart.jsx:106-163 | a key the chain recognises names the category it selects |
| RadarChart.JpCategory | src/components/RadarChart.jsx:32-85 | a Japanese label the chain recognises names its category |
| RadarChart.HoverKey | src/components/RadarChart.jsx:219-232 | a known label gives its category's key, any other label gives `overall` |
| RadarChart.Selects | src/components/RadarChart.jsx:104-164 | the label test of each category; carries no contract of its own, its properties are `SmashCategoriesSplit` and `WideCategories` |
| RadarChart.CategoryNamesRoundTrip | src/components/RadarChart.jsx:338-351 | each category's key and label lead back to it, and hovering its label asks for its key |
| RadarChart.SelectedActions | src/components/RadarChart.jsx:104-164 | exactly the list's actions that the category's label test accepts, every copy of each, in input order |
| RadarChart.CalculateActionStats | src/components/RadarChart.jsx:101-177 | zeros for a missing or empty list, an unknown key or an empty selection; otherwise the selection's size, its successes judged against the whole list, and their rounded percentage |
| RadarChart.RadarDetails | src/components/RadarChart.jsx:92-97 | one row per selected action, in order, with its rounded time, its label or `Unknown`, and its tag within the whole list |
| RadarChart.GetActionDetails | src/components/RadarChart.jsx:27-98 | empty for a missing or empty list or an unknown label; otherwise the rows of the category's selection |
| RadarChart.PanelSummary | src/components/RadarChart.jsx:294-296 | the row count; the number of rows tagged success, at most that; and their rounded percentage, 0 for an empty panel, in 0..100 |
| RadarChart.SuccessRowsCount | src/components/RadarChart.jsx:295 | the successful rows are as many as the classifier successes among the rows' actions |
| RadarChart.ClickMatchesHover | src/components/RadarChart.jsx:294-296 | for each of the twelve labels the click panel's counts and rate equal the hover statistics |
| RadarChart.UnknownLabelFallsBack | src/components/RadarChart.jsx:232 | for an unknown label the click panel is empty while the hover shows the overall statistics |
| RadarChart.SmashCategoriesSplit | src/components/RadarChart.jsx:141-151 | smash and smash-receive never share an action and together take exactly the labels containing `スマッシュ` |
| RadarChart.WideCategories | src/components/RadarChart.jsx:116-120 | overall takes every action; the two-word categories take labels with either word |
| RadarChart.ServeAnswered | src/components/RadarChart.jsx:168-170 | a serve answered half a unit after its end is a success |
| RadarChart.ServeSelected | src/components/RadarChart.jsx:106-110 | of a serve and a smash, the serve category takes the serve alone |
| RadarChart.ServeCategoryStats | src/components/RadarChart.jsx:106-176 | for that pair the serve statistics are one action, one success, rate 100 |
| RadarChart.JudgedAgainstWholeList | src/components/RadarChart.jsx:168-170 | success is judged against the whole list: the serve counts as a success although within its own category it would be unjudged |
| RadarChart.PlayerData | src/components/RadarChart.jsx:354-355 | twelve statistics records, one per dimension in order |
| BarChart.SameAsRadar | src/components/BarChart.jsx:7-26 | a label test that agrees with a radar category gives that category's statistics |
| BarChart.StatsFor | src/components/BarChart.jsx:7-26 | zeros for a missing or empty list; otherwise the total is the number of actions passing the label test, the successes at most that, and the rate in 0..100 |
| BarChart.CalculateServeStats | src/components/BarChart.jsx:7-26 | equal to the radar chart's `serve` statistics |
| BarChart.CalculateLobStats | src/components/BarChart.jsx:29-48 | equal to the radar chart's `lob` statistics |
| BarChart.CalculateNetHairpinStats | src/components/BarChart.jsx:51-70 | equal to the radar chart's `netHairpin` statistics |
| BarChart.CalculatePushStats | src/components/BarChart.jsx:73-92 | equal to the radar chart's `push` statistics |
| BarChart.CalculateDriveStats | src/components/BarChart.jsx:95-114 | equal to the radar chart's `drive` statistics |
| BarChart.CalculateSmashReceiveStats | src/components/BarChart.jsx:117-136 | equal to the radar chart's `smashReceive` statistics |
| BarChart.CalculateClearStats | src/components/BarChart.jsx:139-158 | equal to the radar chart's `clear` statistics |
| BarChart.CalculateSmashStats | src/components/BarChart.jsx:161-181 | equal to the radar chart's `smash` statistics (smash receives excluded) |
| BarChart.CalculateDropCutStats | src/components/BarChart.jsx:184-203 | equal to the radar chart's `dropCut` statistics |
| BarChart.CalculateDefenseStats | src/components/BarChart.jsx:206-225 | equal to the radar chart's `defense` statistics |
| BarChart.CalculateJudgeStats | src/components/BarChart.jsx:228-247 | equal to the radar chart's `judge` statistics |
| BarChart.CalculateSuccessRate | src/components/BarChart.jsx:250-256 | in 0..100 and equal to the radar chart's `overall` rate, 0 for a missing or empty list |
| BarChart.SmashBarsSplit | src/components/BarChart.jsx:117-181 | the smash and smash-receive totals add up to the actions whose label contains `スマッシュ` |
| BarChart.RateOf | src/components/BarChart.jsx:273-308 | the value a row shows for a player is in 0..100 and is the radar chart's rate of the row's category |
| BarChart.ChartData | src/components/BarChart.jsx:311-396 | twelve rows in the fixed order, titled by category label and `成功率`, scaled to 100 as percentages, each value the radar rate of its category for that player |
| BarChart.BarChartRows | src/components/BarChart.jsx:259-271 | nothing with fewer than two players; otherwise the table for the first two players, a missing action list read as empty |
| ActionList.FindKey | src/components/ActionList.jsx:53-55 | a key is found iff some entry's label equals the name, and it is the key of the first such entry |
| ActionList.LabelKeysDistinct | src/components/ActionList.jsx:5-17 | the eleven keys of the label table are distinct |
| ActionList.ReverseLookupServe | src/components/ActionList.jsx:53-56 | the lookup gives `"0"` exactly for a label equal to `サーブ` |
| ActionList.ReverseLookup | src/components/ActionList.jsx:53-55 | a key is found exactly for a present label that some entry of the label table holds |
| ActionList.CheckActionSuccess | src/components/ActionList.jsx:32-61 | true when a later action starts at or before end + 2; with later actions all outside the window, true iff the first of them is labelled exactly `サーブ`; false with nothing later |
| ActionList.SortedIndex | src/components/ActionList.jsx:72-76 | the first position of the action in the sorted copy, -1 exactly when absent |
| ActionList.IsListSuccess | src/components/ActionList.jsx:78 | the list's test on the sorted copy at the action's own position; carries no contract of its own, its properties are `ListSuccessIsSuccess`, `ServeVariantOnlyForClassifier` and `LastActionLostInList` |
| ActionList.ListSuccessIsSuccess | src/components/ActionList.jsx:37-60 | a success in the list is a success for the classifier |
| ActionList.ServeVariantOnlyForClassifier | src/components/ActionList.jsx:53-56 | the converse fails: a late next action labelled `サーブ(ショート)` is a serve for the classifier only |
| ActionList.LastActionLostInList | src/components/ActionList.jsx:59-60 | an action with nothing after it is lost in the list, while the classifier fails it only with `誤` and leaves it unjudged otherwise |
| ActionList.FrameToTimeIsFormatAtOneFps | src/components/ActionList.jsx:24-29 | the list's formatter is the analyzer's formatter at one frame per second |
| ActionList.FrameToTimeReadsBack | src/components/ActionList.jsx:24-29 | for a non-negative whole time the text reads back as t / 60, a colon and two digits of t % 60 |
| ActionList.FrameToTime | src/components/ActionList.jsx:24-29 | the `m:ss` text of a whole number of seconds; carries no contract of its own, its properties are `FrameToTimeReadsBack` and `FrameToTimeIsFormatAtOneFps` |
| ActionList.ActionListRows | src/components/ActionList.jsx:70-96 | one row per action in input order, with its label and times; the icon is a ring or a cross, a ring exactly when the list's test succeeds |
| ActionList.RingsAreSuccesses | src/components/ActionList.jsx:79-80 | every ring marks an action the classifier judges a success |
| App.Prop | src/App.jsx:25 | a property is present exactly for an object holding the key |
| App.ValidateJsonData | src/App.jsx:24-34 | accepted exactly for a truthy `fps`, a non-empty `gts` array and a first player with an `actions` array. It throws for a `null` document or a `null` first player. A falsy `fps` or a missing or non-array `gts` is refused |
| App.OnlyFirstPlayerChecked | src/App.jsx:29-33 | players after the first do not affect the verdict |
| App.ZeroFpsRefused | src/App.jsx:25 | an `fps` of 0 is refused |
| App.LaterPlayersUnchecked | src/App.jsx:29-33 | a document whose second player is `null` is still accepted |

## Left out

- The React views, their state and events, SVG geometry, colours, and the video player are presentation. File upload, `FileReader`, `JSON.parse` and `alert` are I/O. `extractPlayersFromJson` is not used by the views modelled here.
- Floating point is not modelled. Time stamps and `end + 2` are exact reals, and `Math.round` of a ratio is exact rounding, halves up.
- ActionAnalyzer.CalculateSuccessRate: its `successRate` is the exact percentage. The source turns it into a string with `toFixed(1)`, and that float-to-string rounding is not modelled. The zero case is the number 0 in the source and `0.0` here.
- ActionAnalyzer.FormatFrameToTime: it requires a non-zero `fps`. A frame rate of 0 divides by zero in JavaScript and gives `Infinity` or `NaN`, which are not modelled.
- ActionAnalyzer.FormatFrameToTime: the default of one frame per second for a missing `fps` is not modelled: callers pass the rate. `FrameToTimeIsFormatAtOneFps` covers the one-frame-per-second case.
- An action record without a `label_names` array makes the source throw. Such records are not representable here: an empty array is `None`.
- `calculateSuccessRateByAction` keeps its result in a plain object. A label such as `__proto__` or `constructor` would hit prototype properties. Besides, `Object.entries` lists integer-like keys first. Both are out of scope. Keys are modelled in first-seen order, and ties in the descending slice sort stay in that order.
- `getActionDetails` takes a `playerSide` argument, which it never uses. It is dropped.
- ActionList.ActionListRows: the time text is modelled only for whole-number frames, via `TimeText`. JavaScript's text for a fractional number is not modelled.
- `ActionList` receives the actions array from its parent, and a missing array would make the spread throw. The model takes a sequence.
- Outcomes of actions with equal starts depend on their input order (`TiedStartListedFirst`, `TiedStartListedSecond`). `ShuffleInvariantForDistinctStarts` proves order independence for distinct starts.
