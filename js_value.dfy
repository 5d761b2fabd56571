/** The dynamic JavaScript values that the client code and the request
    handlers inspect with `===`, `||` and truthiness tests.  Numbers are
    integers here; `NaN` has its own case. */
module Js {
  import opened Wrappers
  import opened Text

  datatype JsValue =
    | JUndefined
    | JNull
    | JBool(b: bool)
    | JNum(n: int)
    | JNaN
    | JStr(s: string)

  /** Truthiness as used by `if (v)`, `!v` and `v || default`. */
  predicate Truthy(v: JsValue) {
    match v
    case JUndefined => false
    case JNull => false
    case JBool(b) => b
    case JNum(n) => n != 0
    case JNaN => false
    case JStr(s) => s != ""
  }

  /** `v || fallback`. */
  function OrElse(v: JsValue, fallback: JsValue): (r: JsValue)
    ensures Truthy(v) ==> r == v
    ensures !Truthy(v) ==> r == fallback
  {
    if Truthy(v) then v else fallback
  }

  /** `v === 1 || v === true`, the test the terminal formatters apply. */
  predicate IsOneOrTrue(v: JsValue) {
    v == JNum(1) || v == JBool(true)
  }

  /** An optional numeric field (`number | undefined`) is truthy when it is a
      present, non-zero number. */
  predicate TruthyId(id: Option<int>) {
    id.Some? && id.value != 0
  }

  predicate IsDecimalInteger(t: string) {
    t != [] &&
    (if t[0] == '-' || t[0] == '+' then |t| > 1 && AllDigits(t[1..]) else AllDigits(t))
  }

  /** `Number(s)` for a string: surrounding whitespace is ignored, the empty
      string is 0, an optionally signed run of decimal digits is its value,
      anything else is NaN (fractions, exponents and hexadecimal are not
      modelled). */
  function ToNumber(s: string): (r: JsValue)
    ensures r.JNum? || r == JNaN
    ensures AllDigits(s) && s != [] ==> r == JNum(DigitsValue(s))
  {
    var t := Trim(s);
    if AllDigits(s) && s != [] then
      AllDigitsTrim(s);
      JNum(DigitsValue(s))
    else if t == [] then JNum(0)
    else if IsDecimalInteger(t) then
      var v: int := if t[0] == '-' || t[0] == '+' then DigitsValue(t[1..]) else DigitsValue(t);
      JNum(if t[0] == '-' then -v else v)
    else JNaN
  }

  lemma AllDigitsTrim(s: string)
    requires AllDigits(s)
    ensures Trim(s) == s
  {
    AllDigitsTrimStart(s);
    if s != [] {
      assert !IsWhitespace(s[|s| - 1]);
    }
  }
}
