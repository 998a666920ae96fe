/** The action list (`ActionList`): every action of a player in input order,
    with a two-valued status icon, its label and its start and end times. Its
    own success test looks at the start-sorted copy like the classifier does,
    but recognises a serve only by a label equal to `サーブ`, found through a
    reverse lookup in a table of eleven labels, and has no "no judgment"
    result: any action with nothing after it is marked as lost. */
module ActionList {
  import opened Collections
  import opened Text
  import opened ActionAnalyzer

  /** `actionLabels`: the keys `"0"` to `"10"` with their labels, in the order
      `Object.keys` lists integer-like keys (ascending). */
  const ActionLabels: seq<(string, string)> := [
    ("0", "サーブ"), ("1", "ロブ"), ("2", "ネット"), ("3", "ヘアピン"),
    ("4", "プッシュ"), ("5", "ドライブ"), ("6", "スマッシュレシーブ"),
    ("7", "ドロップ"), ("8", "スマッシュ"), ("9", "クリアー"), ("10", "ディフェンス")]

  /** The reverse lookup in a key-to-label table, read as a list of entries:
      the key of the first entry whose label is exactly `name`; nothing for a
      missing label, which equals no label. */
  function FindKey(entries: seq<(string, string)>, name: Option<string>): (r: Option<string>)
    ensures r.Some? <==> name.Some? && exists i | 0 <= i < |entries| :: entries[i].1 == name.value
    ensures r.Some? ==> exists i | 0 <= i < |entries| ::
                          && entries[i] == (r.value, name.value)
                          && forall j | 0 <= j < i :: entries[j].1 != name.value
  {
    if entries == [] || name.None? then None
    else if entries[0].1 == name.value then Some(entries[0].0)
    else
      var r := FindKey(entries[1..], name);
      assert forall i | 1 <= i < |entries| :: entries[i] == entries[1..][i - 1];
      assert r.Some? ==> exists i | 0 <= i < |entries| - 1 :: entries[1..][i] == (r.value, name.value)
                           && forall j | 0 <= j < i :: entries[1..][j].1 != name.value;
      r
  }

  /** The reverse lookup of a label in `actionLabels`. */
  function ReverseLookup(name: Option<string>): (r: Option<string>)
    ensures r.Some? <==> name.Some? && exists i | 0 <= i < |ActionLabels| :: ActionLabels[i].1 == name.value
  {
    FindKey(ActionLabels, name)
  }

  /** No two keys of the table are equal. */
  lemma LabelKeysDistinct()
    ensures forall i, j | 0 <= i < j < |ActionLabels| :: ActionLabels[i].0 != ActionLabels[j].0
  {
  }

  /** The lookup gives key `"0"` exactly for a label equal to `サーブ`: `"0"`
      is the first key, and no other key is `"0"`. */
  lemma ReverseLookupServe(name: Option<string>)
    ensures ReverseLookup(name) == Some("0") <==> name == Some(ServeMark)
  {
    LabelKeysDistinct();
    if ReverseLookup(name) == Some("0") {
      var i :| 0 <= i < |ActionLabels| && ActionLabels[i] == ("0", name.value);
      assert ActionLabels[0].0 == "0";
      assert i == 0;
    }
  }

  /** Where the later actions of `currentIndex` begin: `index > currentIndex`. */
  function After(currentIndex: int): nat {
    if currentIndex < 0 then 0 else currentIndex + 1
  }

  /** `checkActionSuccess(currentAction, allActions, currentIndex)`. */
  function CheckActionSuccess(current: Action, all: seq<Action>, currentIndex: int): (r: bool)
    ensures var lo, deadline := After(currentIndex), current.end + 2.0;
            // a later action starting within the window, the bound included
            && ((exists k | lo <= k < |all| :: all[k].start <= deadline) ==> r)
            // later actions, all outside the window: the first must be a serve
            && (lo < |all| && (forall k | lo <= k < |all| :: all[k].start > deadline) ==>
                  (r <==> all[lo].name == Some(ServeMark)))
            // nothing later: marked as lost
            && (lo >= |all| ==> !r)
  {
    var lo, deadline := After(currentIndex), current.end + 2.0;
    match FindFrom(all, lo, (x: Action) => x.start <= deadline)
    case Some(_) => true
    case None =>
      match FindFrom(all, lo, (x: Action) => x.start > deadline)
      case Some(k) =>
        ReverseLookupServe(all[k].name);
        ReverseLookup(all[k].name) == Some("0")
      case None => false
  }

  /** A label that is exactly `サーブ` contains `サーブ`. */
  lemma ServeLabelContainsServe(name: Option<string>)
    requires name == Some(ServeMark)
    ensures LabelContains(name, ServeMark)
  {
    assert OccursAt(ServeMark, ServeMark, 0);
  }

  /** The position of `action` in the sorted copy, as the list finds it
      (lines 72-76): `findIndex` on start, end and label, -1 when absent. */
  function SortedIndex(sorted: seq<Action>, action: Action): (r: int)
    ensures -1 <= r < |sorted|
    ensures r == -1 <==> action !in sorted
    ensures 0 <= r ==> sorted[r] == action
    ensures 0 <= r ==> forall k | 0 <= k < r :: sorted[k] != action
  {
    IndexOf(sorted, action)
  }

  /** The list's test, applied as the list applies it: to the start-sorted
      copy and the action's own position in it. */
  function IsListSuccess(action: Action, actions: seq<Action>): bool {
    var sorted := SortByStart(actions);
    CheckActionSuccess(action, sorted, SortedIndex(sorted, action))
  }

  /** A success in the list is a success for the classifier. */
  lemma ListSuccessIsSuccess(action: Action, actions: seq<Action>)
    requires IsListSuccess(action, actions)
    ensures AnalyzeActionSuccess(action, actions) == Success
  {
    var s := SortByStart(actions);
    var lo, deadline := LaterFrom(s, action), action.end + 2.0;
    assert After(SortedIndex(s, action)) == lo;
    if lo < |s| && (forall k | lo <= k < |s| :: s[k].start > deadline) {
      ServeLabelContainsServe(s[lo].name);
    }
  }

  /** The converse fails: after a long pause, the next action labelled
      `サーブ(ショート)` is a serve for the classifier but not for the list. */
  lemma ServeVariantOnlyForClassifier()
    ensures var a, b := Action(0.0, 1.0, Some("ロブ")), Action(10.0, 11.0, Some("サーブ(ショート)"));
            && AnalyzeActionSuccess(a, [a, b]) == Success
            && !IsListSuccess(a, [a, b])
  {
    var a, b := Action(0.0, 1.0, Some("ロブ")), Action(10.0, 11.0, Some("サーブ(ショート)"));
    var s := SortByStart([a, b]);
    assert Sorting.SortBy([b], StartKey) == [b];
    assert s == [a, b];
    assert OccursAt(b.name.value, ServeMark, 0);
    assert b.name != Some(ServeMark) by {
      assert |b.name.value| != |ServeMark|;
    }
  }

  /** An action with nothing after it is lost in the list, while the
      classifier leaves it unjudged unless its label has the error mark. */
  lemma LastActionLostInList(action: Action)
    ensures !IsListSuccess(action, [action])
    ensures AnalyzeActionSuccess(action, [action])
         == if LabelContains(action.name, ErrorMark) then Failure else NoJudgment
  {
    assert SortByStart([action]) == [action];
  }

  /** `"⭕️"` (a ring and the emoji selector) and `"❌"`. */
  const Ring: string := "\U{2B55}\U{FE0F}"
  const Cross: string := "\U{274C}"

  /** `frameToTime(frame)` for a whole number of frames: the frame count is
      taken as seconds, split into whole minutes (rounded down) and the
      remainder with the sign of `t`, shown as `m:ss`. */
  function FrameToTime(t: int): string {
    ClockText(t / 60, JsRemainder(t, 60))
  }

  /** It is the classifier module's formatter at one frame per second. */
  lemma FrameToTimeIsFormatAtOneFps(t: int)
    ensures FrameToTime(t) == FormatFrameToTime(t as real, 1.0)
  {
    var u := (t as real / 1.0).Floor;
    assert u == t by {
      assert t as real / 1.0 == t as real;
    }
    assert FormatFrameToTime(t as real, 1.0) == ClockText(u / 60, JsRemainder(u, 60));
  }

  /** For a non-negative time the text reads back as `t / 60`, a colon, and
      two digits holding `t % 60`. */
  lemma FrameToTimeReadsBack(t: int)
    requires t >= 0
    ensures ReadsAsClock(FrameToTime(t), t / 60, t % 60)
  {
    assert FrameToTime(t) == ClockText(t / 60, t % 60);
    ClockTextReadsBack(t / 60, t % 60);
  }

  /** The shown time of a frame number: `frameToTime` of it when it is a
      whole number, nothing otherwise. */
  function TimeText(frame: real): Option<string> {
    if frame == frame.Floor as real then Some(FrameToTime(frame.Floor)) else None
  }

  /** One line of the list: the action, its icon, its label (none for an
      empty label list) and its start and end times. */
  datatype ListRow = ListRow(action: Action, icon: string, name: Option<string>,
                             startTime: Option<string>, endTime: Option<string>)

  /** The rows, one per action in input order. */
  function ActionListRows(actions: seq<Action>): (r: seq<ListRow>)
    ensures |r| == |actions|
    ensures forall i | 0 <= i < |r| ::
              && r[i].action == actions[i] && r[i].name == actions[i].name
              && (r[i].icon == Ring || r[i].icon == Cross)
              && (r[i].icon == Ring <==> IsListSuccess(actions[i], actions))
              && r[i].startTime == TimeText(actions[i].start)
              && r[i].endTime == TimeText(actions[i].end)
  {
    var sorted := SortByStart(actions);
    seq(|actions|, i requires 0 <= i < |actions| =>
      var a := actions[i];
      var icon := if CheckActionSuccess(a, sorted, SortedIndex(sorted, a)) then Ring else Cross;
      ListRow(a, icon, a.name, TimeText(a.start), TimeText(a.end)))
  }

  /** Every ring in the list marks an action the classifier judges a success. */
  lemma RingsAreSuccesses(actions: seq<Action>, i: int)
    requires 0 <= i < |actions| && ActionListRows(actions)[i].icon == Ring
    ensures AnalyzeActionSuccess(actions[i], actions) == Success
  {
    ListSuccessIsSuccess(actions[i], actions);
  }
}
