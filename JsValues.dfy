/** JavaScript values as the two components receive them, and the parts of
    the JavaScript runtime they use to inspect and convert them. */
module JsValues {
  import opened JsText

  datatype Option<+T> = None | Some(value: T)

  /** A JavaScript value. Numbers are finite and exact; the NaN and infinite
      results of a conversion are represented by `None` where they occur. */
  datatype Value =
    | Undefined
    | Null
    | Bool(b: bool)
    | Num(n: real)
    | Str(s: string)
    | Arr(items: seq<Value>)
    | Obj(fields: map<string, Value>)

  /** The runtime services the components call but whose workings are not
      modelled:
      - `parse`: `JSON.parse`, None when it throws;
      - `numericLiteral`: the value of a trimmed, non-empty string read as a
        number (`Number(s)`), None when it is NaN or not finite;
      - `numberToString`: `Number::toString` for the numbers that are not
        integers below 10^21 in magnitude;
      - `currency`: the `en-US` / `USD` / zero-fraction-digit
        `Intl.NumberFormat`, usable only when `hasIntl` holds; when it does
        not, constructing or calling the formatter throws. */
  datatype Host = Host(
    parse: string -> Option<Value>,
    numericLiteral: string -> Option<real>,
    numberToString: real -> string,
    hasIntl: bool,
    currency: real -> string)

  /** The placeholder both components show for a missing value (an em dash). */
  const Dash: string := "\U{2014}"

  /** The runtime's number renderers never print the placeholder itself. */
  ghost predicate NeverPrintsDash(host: Host) {
    && (forall x :: host.numberToString(x) != Dash)
    && (host.hasIntl ==> forall x :: host.currency(x) != Dash)
  }

  /** The falsy values other than NaN, which is not a `Value` here. */
  const Falsy: set<Value> := {Undefined, Null, Bool(false), Num(0.0), Str("")}

  /** JavaScript truthiness. */
  predicate Truthy(v: Value) {
    match v
    case Undefined => false
    case Null => false
    case Bool(b) => b
    case Num(n) => n != 0.0
    case Str(s) => s != ""
    case Arr(_) => true
    case Obj(_) => true
  }

  /** Everything but the falsy values is truthy, empty arrays and objects
      included. */
  lemma TruthyIffNotFalsy(v: Value)
    ensures Truthy(v) <==> v !in Falsy
  {
  }

  /** `v && typeof v === "object"`: an array or an object. */
  predicate IsObjectLike(v: Value) {
    v.Arr? || v.Obj?
  }

  /** `k in v` for an object-like v. Only own keys of plain objects are
      modelled: the components probe no array index, no `length` and no key
      inherited from `Object.prototype`. */
  predicate Has(v: Value, k: string) {
    v.Obj? && k in v.fields
  }

  /** `v?.k`: the property, or undefined when it is absent or v is not an object. */
  function Get(v: Value, k: string): Value {
    if Has(v, k) then v.fields[k] else Undefined
  }

  /** `a || d` */
  function OrElse(a: Value, d: Value): (r: Value)
    ensures Truthy(a) ==> r == a
    ensures !Truthy(a) ==> r == d
    ensures Truthy(d) ==> Truthy(r)
  {
    if Truthy(a) then a else d
  }

  function Abs(x: real): real {
    if x < 0.0 then -x else x
  }

  function Min(x: real, y: real): real {
    if x <= y then x else y
  }

  function Max(x: real, y: real): real {
    if x >= y then x else y
  }

  /** `Math.round`: the nearest integer, halves going up. */
  function Round(x: real): (k: int)
    ensures (k as real) - 0.5 <= x < (k as real) + 0.5
  {
    (x + 0.5).Floor
  }

  /** Below this magnitude `String(n)` of an integer is its plain digits. */
  const ExponentThreshold: real := 1000000000000000000000.0

  /** `String(n)` for a number: an integer below 10^21 in magnitude prints as
      its decimal digits, after a minus sign when negative. */
  function NumberText(n: real, host: Host): (r: string)
    ensures n == (n.Floor as real) && 0.0 <= n < ExponentThreshold
      ==> (forall i :: 0 <= i < |r| ==> IsDigit(r[i])) && DigitsValue(r) == n.Floor
    ensures n == (n.Floor as real) && -ExponentThreshold < n < 0.0
      ==> |r| > 0 && r[0] == '-' && (forall i :: 1 <= i < |r| ==> IsDigit(r[i])) && DigitsValue(r[1..]) == -n.Floor
  {
    NatToStringRoundTrip(if n.Floor < 0 then -n.Floor else n.Floor);
    if n == (n.Floor as real) && -ExponentThreshold < n < ExponentThreshold then IntToString(n.Floor)
    else host.numberToString(n)
  }

  /** `StringToNumber`: a blank string is 0, anything else is read as a
      numeric literal after trimming. */
  function StringToNumber(s: string, host: Host): (r: Option<real>)
    ensures (forall i :: 0 <= i < |s| ==> IsJsSpace(s[i])) ==> r == Some(0.0)
    ensures !(forall i :: 0 <= i < |s| ==> IsJsSpace(s[i])) ==> Trim(s) != "" && r == host.numericLiteral(Trim(s))
  {
    TrimEmptyIffBlank(s);
    var t := Trim(s);
    if t == "" then Some(0.0) else host.numericLiteral(t)
  }

  /** `Number(v)`, with None for NaN. An array converts through its text:
      empty is 0, two or more elements contain a comma and are NaN, and a
      single element converts as its own text does. */
  function NumberOf(v: Value, host: Host): (r: Option<real>)
    ensures v.Num? ==> r == Some(v.n)
    ensures v.Undefined? || v.Obj? ==> r == None
    ensures v.Null? ==> r == Some(0.0)
  {
    match v
    case Undefined => None
    case Null => Some(0.0)
    case Bool(b) => Some(if b then 1.0 else 0.0)
    case Num(n) => Some(n)
    case Str(s) => StringToNumber(s, host)
    case Obj(_) => None
    case Arr(items) =>
      if |items| == 0 then Some(0.0)
      else if |items| > 1 then None
      else if items[0].Null? || items[0].Undefined? then Some(0.0)
      else if items[0].Bool? then None
      else NumberOf(items[0], host)
  }

  /** `String(v)`. An array joins its elements' texts with commas, with
      null and undefined elements as empty text. */
  function JsString(v: Value, host: Host): (r: string)
    ensures v.Str? ==> r == v.s
    ensures v.Num? ==> r == NumberText(v.n, host)
    ensures v.Arr? && v.items == [] ==> r == ""
    ensures v.Arr? && |v.items| == 1 && !v.items[0].Null? && !v.items[0].Undefined? ==> r == JsString(v.items[0], host)
    ensures v.Arr? && |v.items| == 1 && (v.items[0].Null? || v.items[0].Undefined?) ==> r == ""
  {
    match v
    case Undefined => "undefined"
    case Null => "null"
    case Bool(b) => if b then "true" else "false"
    case Num(n) => NumberText(n, host)
    case Str(s) => s
    case Obj(_) => "[object Object]"
    case Arr(items) =>
      JoinComma(seq(|items|, i requires 0 <= i < |items| =>
        if items[i].Null? || items[i].Undefined? then "" else JsString(items[i], host)))
  }

  /** `x.toFixed(1)`: a sign for negatives, then the magnitude rounded to
      tenths (halves up) with exactly one digit after the point; from 10^21
      on, `String` of the magnitude. */
  function ToFixed1(x: real, host: Host): (r: string)
    ensures x < 0.0 ==> |r| > 0 && r[0] == '-'
    ensures Abs(x) < ExponentThreshold ==> |r| >= 3 && r[|r| - 2] == '.' && IsDigit(r[|r| - 1])
    ensures 0.0 <= x < ExponentThreshold ==> IsDigit(r[0])
  {
    var sign := if x < 0.0 then "-" else "";
    var m := Abs(x);
    if m >= ExponentThreshold then
      sign + host.numberToString(m)
    else
      var tenths := (m * 10.0 + 0.5).Floor;
      sign + NatToString(tenths / 10) + "." + [DigitChar(tenths % 10)]
  }
}
