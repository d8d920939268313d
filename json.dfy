/**
 * The JSON values that a parsed request body can hold, and the two JavaScript
 * tests the handlers apply to them: truthiness (`if (x)`, `!x`) and
 * `typeof x === 'number'`.
 */
module Json {
  import opened Wrappers

  /** A parsed JSON value. JSON has no NaN or infinities, so a number is a real. */
  datatype Json =
    | JNull
    | JBool(b: bool)
    | JNum(x: real)
    | JStr(s: string)
    | JArr(elems: seq<Json>)
    | JObj(fields: map<string, Json>)

  /**
   * JavaScript property access `v.key` on a value that is not null: an object
   * yields its own field, if any; a missing field and every other kind of
   * value yield `undefined`, written `None`. (Access on null throws; callers
   * exclude that case.)
   */
  function Prop(v: Json, key: string): (r: Option<Json>)
    requires v != JNull
  {
    if v.JObj? && key in v.fields then Some(v.fields[key]) else None
  }

  /**
   * JavaScript truthiness of a possibly-undefined value: `undefined`, `null`,
   * `false`, `0` and `""` are falsy, everything else (including `[]` and `{}`)
   * is truthy.
   */
  predicate Truthy(v: Option<Json>)
  {
    match v
    case None => false
    case Some(JNull) => false
    case Some(JBool(b)) => b
    case Some(JNum(x)) => x != 0.0
    case Some(JStr(s)) => s != ""
    case Some(JArr(_)) => true
    case Some(JObj(_)) => true
  }

  /** `typeof v === 'number'`: only a number passes; a numeric string does not. */
  predicate IsNumber(v: Option<Json>)
  {
    v.Some? && v.value.JNum?
  }

  /** The only falsy values are undefined, null, false, zero and the empty string. */
  lemma FalsyValues(v: Option<Json>)
    ensures !Truthy(v) <==>
      v == None || v == Some(JNull) || v == Some(JBool(false)) ||
      v == Some(JNum(0.0)) || v == Some(JStr(""))
  {
  }

  /**
   * `typeof q === 'number'` is not truthiness: a zero quantity passes though
   * it is falsy, and a numeric string such as `'5'` fails though it is truthy.
   */
  lemma NumberTestIsNotTruthiness(x: real, t: string)
    ensures IsNumber(Some(JNum(x))) && (x == 0.0 ==> !Truthy(Some(JNum(x))))
    ensures !IsNumber(Some(JStr(t))) && (t != "" ==> Truthy(Some(JStr(t))))
    ensures !IsNumber(None) && !IsNumber(Some(JNull))
  {
  }
}
