/** Values produced by `JSON.parse`, and the JavaScript operations the
    services apply to them: property access, truthiness, `typeof`-style tests,
    `String(...)` and `Number(...)`. `JSON.parse` itself is not modelled: callers pass it in
    as a function from text to a value or a `SyntaxError` message. */
module Json {
  import opened Wrappers
  import opened NumberText
  import Text

  datatype Json =
    | JNull
    | JBool(b: bool)
    | JNum(n: real)
    | JStr(s: string)
    | JArr(items: seq<Json>)
    | JObj(fields: map<string, Json>)

  /** `JSON.parse`, supplied by the caller: a value, or the message of the
      `SyntaxError` it throws. */
  type Parser = string -> Result<Json>

  /** `v[key]` on a parsed value; `None` is `undefined`. Only objects have the
      keys the services read. */
  function Get(v: Json, key: string): (r: Option<Json>)
    ensures r.Some? <==> v.JObj? && key in v.fields
  {
    if v.JObj? && key in v.fields then Some(v.fields[key]) else None
  }

  /** JavaScript truthiness; `None` is `undefined`, which is falsy. */
  predicate Truthy(v: Option<Json>) {
    match v
    case None => false
    case Some(JNull) => false
    case Some(JBool(b)) => b
    case Some(JNum(x)) => x != 0.0
    case Some(JStr(s)) => s != []
    case Some(JArr(_)) => true
    case Some(JObj(_)) => true
  }

  /** `String(v)`. `None` only when `v` holds a real with no decimal
      expansion ending within `MaxPlaces` places, which no JavaScript number
      is. */
  function JsString(v: Json): Option<string>
    decreases v, 1
  {
    match v
    case JNull => Some("null")
    case JBool(b) => Some(if b then "true" else "false")
    case JNum(x) => NumberString(x)
    case JStr(s) => Some(s)
    case JArr(items) => ArrayString(v, items)
    case JObj(_) => Some("[object Object]")
  }

  /** `String(array)`: the elements rendered and joined with ",", with `null`
      elements rendered as the empty string. */
  function ArrayString(whole: Json, items: seq<Json>): Option<string>
    requires forall i :: 0 <= i < |items| ==> items[i] < whole
    decreases whole, 0, |items|
  {
    if items == [] then Some("")
    else
      var head := if items[0].JNull? then Some("") else JsString(items[0]);
      if |items| == 1 then head
      else match (head, ArrayString(whole, items[1..]))
        case (Some(h), Some(t)) => Some(h + "," + t)
        case _ => None
  }

  /** Every number in `v` has a decimal expansion ending within `MaxPlaces`
      places, as every number `JSON.parse` produces does. */
  predicate Renderable(v: Json)
    decreases v
  {
    match v
    case JNum(x) => NumberString(x).Some?
    case JArr(items) => forall i :: 0 <= i < |items| ==> Renderable(items[i])
    case _ => true
  }

  /** `String(v)` never fails on a renderable value. */
  lemma {:induction false} JsStringRenders(v: Json)
    requires Renderable(v)
    ensures JsString(v).Some?
    decreases v, 1
  {
    if v.JArr? {
      ArrayStringRenders(v, v.items);
    }
  }

  lemma {:induction false} ArrayStringRenders(whole: Json, items: seq<Json>)
    requires forall i :: 0 <= i < |items| ==> items[i] < whole && Renderable(items[i])
    ensures ArrayString(whole, items).Some?
    decreases whole, 0, |items|
  {
    if items != [] {
      if !items[0].JNull? {
        JsStringRenders(items[0]);
      }
      if |items| > 1 {
        ArrayStringRenders(whole, items[1..]);
      }
    }
  }

  /** `Number(v)`: `null` is 0, booleans are 1 and 0, texts are read as
      numeric literals, an array is read through its `String`, an object is
      NaN. */
  function ToNumber(v: Json): (r: Number)
  {
    match v
    case JNull => Finite(0.0)
    case JBool(b) => Finite(if b then 1.0 else 0.0)
    case JNum(x) => Finite(x)
    case JStr(s) => ReadNumber(s)
    case JArr(_) => (if JsString(v).Some? then ReadNumber(JsString(v).value) else NaN)
    case JObj(_) => NaN
  }

  /** An array of one number is that number. */
  lemma ToNumberOfSingleton(x: real)
    requires NumberString(x).Some?
    ensures ToNumber(JArr([JNum(x)])) == Finite(x)
  {
    var v := JArr([JNum(x)]);
    assert ArrayString(v, v.items) == JsString(JNum(x));
    ReadNumberString(x);
  }

  /** An array of one text is that text read as a number. */
  lemma ToNumberOfTextSingleton(s: string)
    ensures ToNumber(JArr([JStr(s)])) == ReadNumber(s)
  {
    var v := JArr([JStr(s)]);
    assert ArrayString(v, v.items) == JsString(JStr(s));
  }

  /** The empty array and an array of `null` are the empty text, which is 0. */
  lemma ToNumberOfEmpty()
    ensures ToNumber(JArr([])) == Finite(0.0)
    ensures ToNumber(JArr([JNull])) == Finite(0.0)
  {
    assert Text.Trim("") == "";
  }

  /** An array of two or more elements renders with a comma, so it is NaN. */
  lemma ToNumberOfLonger(items: seq<Json>)
    requires |items| >= 2
    ensures ToNumber(JArr(items)) == NaN
  {
    var v := JArr(items);
    match JsString(v)
    case Some(s) =>
      ArrayStringComma(v, items);
      ReadNumberForeign(s, ',');
    case None =>
  }

  /** When it is defined, the `String` of two or more elements holds a comma. */
  lemma ArrayStringComma(whole: Json, items: seq<Json>)
    requires forall i :: 0 <= i < |items| ==> items[i] < whole
    requires |items| >= 2 && ArrayString(whole, items).Some?
    ensures ',' in ArrayString(whole, items).value
  {
    var head := if items[0].JNull? then Some("") else JsString(items[0]);
    var t := ArrayString(whole, items[1..]);
    assert ArrayString(whole, items).value == head.value + "," + t.value;
    assert (head.value + "," + t.value)[|head.value|] == ',';
  }

  /** A text holding a foreign character is NaN, also inside an array. */
  lemma ToNumberForeign(s: string, c: char)
    requires c in s && Foreign(c)
    ensures ToNumber(JStr(s)) == NaN
    ensures ToNumber(JArr([JStr(s)])) == NaN
  {
    ReadNumberForeign(s, c);
    ToNumberOfTextSingleton(s);
  }

  /** A truthy value is never `null` and never `undefined`. */
  lemma TruthyIsPresent(v: Option<Json>)
    requires Truthy(v)
    ensures v.Some? && !v.value.JNull?
  {
  }
}
