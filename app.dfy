/** The upload check of the application (`validateJsonData`): a parsed JSON
    document is accepted when it has a truthy `fps` and a non-empty `gts`
    array whose first player has an `actions` array. */
module App {
  import opened Collections

  /** A parsed JSON value. */
  datatype Json =
    | JNull
    | JBool(b: bool)
    | JNumber(n: real)
    | JString(s: string)
    | JArray(items: seq<Json>)
    | JObject(fields: map<string, Json>)

  /** `obj.key` on a value that is not `null`: the property of an object, and
      `undefined` (`None`) for a missing key or for any other kind of value. */
  function Prop(j: Json, key: string): (r: Option<Json>)
    ensures r.Some? <==> j.JObject? && key in j.fields
  {
    if j.JObject? && key in j.fields then Some(j.fields[key]) else None
  }

  /** JavaScript truthiness; `undefined` is falsy, and so are `null`, `false`,
      `0` and `""`, while every array and object is truthy. */
  predicate Truthy(v: Option<Json>) {
    match v
    case None => false
    case Some(JNull) => false
    case Some(JBool(b)) => b
    case Some(JNumber(n)) => n != 0.0
    case Some(JString(s)) => s != ""
    case Some(JArray(_)) => true
    case Some(JObject(_)) => true
  }

  /** `Array.isArray`. */
  predicate IsArray(v: Option<Json>) {
    v.Some? && v.value.JArray?
  }

  /** What the check gives back: a verdict, or the `TypeError` thrown by
      reading a property of `null`. */
  datatype Verdict = Returns(valid: bool) | TypeError

  /** The shape the check accepts. */
  predicate WellFormed(data: Json) {
    && Truthy(Prop(data, "fps"))
    && IsArray(Prop(data, "gts"))
    && |Prop(data, "gts").value.items| > 0
    && IsArray(Prop(Prop(data, "gts").value.items[0], "actions"))
  }

  /** `validateJsonData(data)`. */
  function ValidateJsonData(data: Json): (r: Verdict)
    // accepted exactly in the expected shape
    ensures r == Returns(true) <==> WellFormed(data)
    // a `null` document, or a `null` first player, throws
    ensures r == TypeError <==>
              || data == JNull
              || (&& Truthy(Prop(data, "fps")) && IsArray(Prop(data, "gts"))
                  && |Prop(data, "gts").value.items| > 0
                  && Prop(data, "gts").value.items[0] == JNull)
    // a falsy `fps`, such as 0, or a missing or non-array `gts` is refused
    ensures data != JNull && (!Truthy(Prop(data, "fps")) || !IsArray(Prop(data, "gts"))) ==>
              r == Returns(false)
  {
    if data == JNull then TypeError
    else if !Truthy(Prop(data, "fps")) || !Truthy(Prop(data, "gts")) || !IsArray(Prop(data, "gts")) then
      Returns(false)
    else
      var gts := Prop(data, "gts").value.items;
      if |gts| == 0 then Returns(false)
      else if gts[0] == JNull then TypeError
      else
        var actions := Prop(gts[0], "actions");
        if !Truthy(actions) || !IsArray(actions) then Returns(false)
        else Returns(true)
  }

  /** `data` with its `gts` replaced by `players`. */
  function WithPlayers(data: Json, players: seq<Json>): Json
    requires data.JObject?
  {
    JObject(data.fields["gts" := JArray(players)])
  }

  /** Only the first player is inspected: whatever follows it, the verdict is
      the same. */
  lemma OnlyFirstPlayerChecked(data: Json, first: Json, rest: seq<Json>, other: seq<Json>)
    requires data.JObject?
    ensures ValidateJsonData(WithPlayers(data, [first] + rest))
         == ValidateJsonData(WithPlayers(data, [first] + other))
  {
    var a, b := WithPlayers(data, [first] + rest), WithPlayers(data, [first] + other);
    assert Prop(a, "fps") == Prop(b, "fps");
    assert Prop(a, "gts").value.items[0] == first == Prop(b, "gts").value.items[0];
  }

  /** A frame rate of 0 is refused however the rest looks. */
  lemma ZeroFpsRefused(fields: map<string, Json>)
    requires "fps" in fields && fields["fps"] == JNumber(0.0)
    ensures ValidateJsonData(JObject(fields)) == Returns(false)
  {
  }

  /** A second player without actions does not stop the document being
      accepted. */
  lemma LaterPlayersUnchecked()
    ensures var first := JObject(map["actions" := JArray([])]);
            var data := JObject(map["fps" := JNumber(30.0), "gts" := JArray([first, JNull])]);
            ValidateJsonData(data) == Returns(true)
  {
  }
}
