/** Untyped JSON values as they arrive in request bodies and sync payloads, and the
    JavaScript coercions the controllers and reconcilers apply to them
    (`typeof`, `??`, truthiness, `String(v)`, `BigInt(v)`). Numbers are integers here. */
module JsValues {
  import opened Prelude
  import opened Errors

  datatype Json =
    | JNull
    | JBool(b: bool)
    | JNum(n: int)
    | JStr(s: string)
    | JArr(items: seq<Json>)
    | JObj(fields: map<string, Json>)

  /** `v[key]` for a value that is not `null`: only plain objects have the keys read here;
      `None` stands for `undefined`. */
  function Prop(v: Json, key: string): (r: Option<Json>)
    ensures r.Some? <==> v.JObj? && key in v.fields
    ensures r.Some? ==> r.value == v.fields[key]
  {
    if v.JObj? && key in v.fields then Some(v.fields[key]) else None
  }

  /** `v === null || v === undefined`. */
  predicate IsNullish(v: Option<Json>) {
    v.None? || v.value == JNull
  }

  /** `v ?? fallback`. */
  function Coalesce(v: Option<Json>, fallback: Json): (r: Json)
    ensures IsNullish(v) ==> r == fallback
    ensures !IsNullish(v) ==> r == v.value
  {
    if IsNullish(v) then fallback else v.value
  }

  /** JavaScript truthiness: `undefined`, `null`, `false`, `0` and `""` are falsy. */
  function Truthy(v: Option<Json>): (r: bool)
    ensures r <==> v.Some? && v.value !in {JNull, JBool(false), JNum(0), JStr("")}
  {
    match v
    case None => false
    case Some(JNull) => false
    case Some(JBool(b)) => b
    case Some(JNum(n)) => n != 0
    case Some(JStr(s)) => s != ""
    case Some(_) => true
  }

  /** `typeof v === "string" ? v : undefined`. */
  function AsString(v: Option<Json>): (r: Option<string>)
    ensures r.Some? <==> v.Some? && v.value.JStr?
    ensures r.Some? ==> v.value == JStr(r.value)
  {
    if v.Some? && v.value.JStr? then Some(v.value.s) else None
  }

  /** `typeof v === "number" ? v : undefined`. */
  function AsNumber(v: Option<Json>): (r: Option<int>)
    ensures r.Some? <==> v.Some? && v.value.JNum?
    ensures r.Some? ==> v.value == JNum(r.value)
  {
    if v.Some? && v.value.JNum? then Some(v.value.n) else None
  }

  function JoinWithComma(parts: seq<string>): string {
    if |parts| == 0 then ""
    else if |parts| == 1 then parts[0]
    else parts[0] + "," + JoinWithComma(parts[1..])
  }

  /** `String(v)`; an array joins its elements with commas, `null` elements rendering empty. */
  function ToJsString(v: Json): (r: string)
    ensures v.JStr? ==> r == v.s
    ensures v.JNum? ==> ParseDecimal(r) == Some(v.n)
    ensures v.JNull? ==> r == "null"
    decreases v
  {
    match v
    case JNull => "null"
    case JBool(b) => if b then "true" else "false"
    case JNum(n) => DecimalRoundTrip(n); IntToDecimal(n)
    case JStr(s) => s
    case JArr(items) =>
      JoinWithComma(seq(|items|, i requires 0 <= i < |items| =>
        if items[i] == JNull then "" else ToJsString(items[i])))
    case JObj(_) => "[object Object]"
  }

  /** The string-to-bigint conversion of `BigInt(s)`: surrounding white space is ignored,
      an empty string is zero, otherwise an optionally signed decimal integer
      (hexadecimal, octal and binary literals are not modelled). */
  function StringToBigInt(s: string): (r: Option<int>)
    ensures IsBlank(s) ==> r == Some(0)
    ensures !IsBlank(s) ==> r == ParseDecimal(Trim(s))
  {
    if IsBlank(s) then Some(0) else ParseDecimal(Trim(s))
  }

  /** `BigInt(v)`: throws a `SyntaxError` for a string that is not an integer and a
      `TypeError` for `null`; arrays and objects are first converted with `String(v)`. */
  function ToBigInt(v: Json): (r: Result<int>)
    ensures v.JNum? ==> r == Ok(v.n)
    ensures v.JStr? && !IsBlank(v.s) && ParseDecimal(Trim(v.s)).Some? ==> r == Ok(ParseDecimal(Trim(v.s)).value)
    ensures v.JStr? && !IsBlank(v.s) && ParseDecimal(Trim(v.s)).None? ==> r == Err(RuntimeError(BigIntSyntax))
    ensures v == JNull ==> r == Err(RuntimeError(BigIntType))
  {
    match v
    case JNull => Err(RuntimeError(BigIntType))
    case JBool(b) => Ok(if b then 1 else 0)
    case JNum(n) => Ok(n)
    case _ =>
      var parsed := StringToBigInt(ToJsString(v));
      if parsed.Some? then Ok(parsed.value) else Err(RuntimeError(BigIntSyntax))
  }

  /** Rendering a number and converting it back with `BigInt` gives the number. */
  lemma BigIntOfRenderedInt(n: int)
    ensures ToBigInt(JStr(IntToDecimal(n))) == Ok(n)
  {
    var s := IntToDecimal(n);
    DecimalRoundTrip(n);
    assert s[0] == '-' || IsDigit(s[0]);
    assert forall k :: 1 <= k < |s| ==> IsDigit(s[k]);
    assert LeadingSpace(s) == 0;
    assert TrailingSpace(s) == 0 by {
      assert IsDigit(s[|s| - 1]);
    }
    assert Trim(s) == s;
  }
}
