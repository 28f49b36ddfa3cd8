/** A parsed JSON document as Newtonsoft's `JToken` tree, and the accessors
    the GamePass revision uses on it: the indexer `token[key]` and the
    conversions `Value<string>()`, `Value<bool>()` and `Values<string>()`.
    Where Newtonsoft throws, the accessor gives `Failure`. */
module Json {
  import opened Wrappers
  import opened DotNet

  /** A `JToken`; numbers are the integers the Steam API sends. */
  datatype Json =
    | JNull
    | JBool(b: bool)
    | JInt(n: int)
    | JString(s: string)
    | JArray(items: seq<Json>)
    | JObject(properties: map<string, Json>)

  /** `token[key]`: on an object, the property's value or null when there is
      none; on an array or a primitive value the indexer throws. */
  function Get(token: Json, key: string): (r: Result<Option<Json>>)
    ensures r.Success? <==> token.JObject?
    ensures r.Success? ==> (r.value.Some? <==> key in token.properties)
    ensures r.Success? && r.value.Some? ==> r.value.value == token.properties[key]
  {
    if token.JObject? then Success(Property(token, key)) else Failure
  }

  /** The indexer on a token known to be an object, which cannot throw. */
  function Property(obj: Json, key: string): (r: Option<Json>)
    requires obj.JObject?
    ensures r.Some? <==> key in obj.properties
    ensures r.Some? ==> r.value == obj.properties[key]
  {
    if key in obj.properties then Some(obj.properties[key]) else None
  }

  /** `token?.Value<string>()`: null stays null, a JSON null becomes null,
      other primitives are formatted, and an array or object throws. */
  function AsString(token: Option<Json>): (r: Result<NString>)
    ensures token.None? || token.value.JNull? ==> r == Success(None)
    ensures token.Some? && token.value.JString? ==> r == Success(Some(token.value.s))
    ensures r.Failure? <==> token.Some? && (token.value.JArray? || token.value.JObject?)
  {
    match token
    case None => Success(None)
    case Some(JNull) => Success(None)
    case Some(JString(s)) => Success(Some(s))
    case Some(JBool(b)) => Success(Some(if b then "True" else "False"))
    case Some(JInt(n)) => Success(Some(IntToString(n)))
    case Some(_) => Failure
  }

  /** `token?.Value<bool>()`: null stays null; a JSON null, an array, an object
      or a string other than "true"/"false" (any case, white space around)
      cannot be converted to `bool` and throws; a number is true unless 0. */
  function AsBool(token: Option<Json>): (r: Result<Option<bool>>)
    ensures token.None? ==> r == Success(None)
    ensures token.Some? && token.value.JBool? ==> r == Success(Some(token.value.b))
    ensures token.Some? && token.value.JNull? ==> r.Failure?
  {
    match token
    case None => Success(None)
    case Some(JBool(b)) => Success(Some(b))
    case Some(JInt(n)) => Success(Some(n != 0))
    case Some(JString(s)) =>
      if EqualsIgnoreCase(Trim(s), "true") then Success(Some(true))
      else if EqualsIgnoreCase(Trim(s), "false") then Success(Some(false))
      else Failure
    case Some(_) => Failure
  }

  /** `token[key]?.Value<string>()`. */
  function StringField(token: Json, key: string): (r: Result<NString>)
    ensures r.Success? ==> token.JObject?
    ensures token.JObject? ==> r == AsString(Property(token, key))
  {
    var t :- Get(token, key);
    AsString(t)
  }

  /** `token[key]?.Value<bool>()`. */
  function BoolField(token: Json, key: string): (r: Result<Option<bool>>)
    ensures r.Success? ==> token.JObject?
    ensures token.JObject? ==> r == AsBool(Property(token, key))
  {
    var t :- Get(token, key);
    AsBool(t)
  }

  /** `array.Values<string>()` materialised: every element converted in order. */
  function StringValues(items: seq<Json>): (r: Result<seq<NString>>)
    ensures r.Success? ==> |r.value| == |items|
    ensures r.Success? <==> forall i | 0 <= i < |items| :: AsString(Some(items[i])).Success?
    ensures r.Success? ==> forall i | 0 <= i < |items| :: r.value[i] == AsString(Some(items[i])).value
  {
    if items == [] then Success([])
    else
      var v :- AsString(Some(items[0]));
      var rest :- StringValues(items[1..]);
      Success([v] + rest)
  }
}
