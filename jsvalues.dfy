/** The JavaScript value semantics the comment controller relies on:
    optional request fields, truthiness (`!!x`) and `Number(...)`. */
module JsValues {

  datatype Option<T> = None | Some(value: T) {
    /** The value, or `default` when absent (a destructuring default). */
    function GetOr(default: T): T {
      match this
      case Some(v) => v
      case None => default
    }
  }

  /** A JavaScript number as the controller sees it: an integer or NaN. */
  datatype JsNumber = NaN | Finite(n: int)

  /** `!!x` for a number: false exactly for 0 and NaN. */
  predicate IsTruthyNumber(x: JsNumber) {
    x.Finite? && x.n != 0
  }

  /** A present request field: a JSON number or a string. */
  datatype Value = Num(n: int) | Text(s: string)

  /** `!!field` for an optional field: false when it is missing, 0 or "". */
  predicate IsTruthy(v: Option<Value>) {
    match v
    case None => false
    case Some(Num(n)) => n != 0
    case Some(Text(s)) => s != ""
  }

  predicate IsDigit(c: char) {
    '0' <= c <= '9'
  }

  predicate AllDigits(s: string) {
    forall i :: 0 <= i < |s| ==> IsDigit(s[i])
  }

  /** The value of a string of decimal digits, most significant first. */
  function DecimalValue(s: string): nat
    requires AllDigits(s)
  {
    if |s| == 0 then 0
    else DecimalValue(s[..|s| - 1]) * 10 + (s[|s| - 1] as int - '0' as int)
  }

  /** The decimal text of `n` without leading zeros, as `String(n)` gives it. */
  function DecimalText(n: nat): (s: string)
    ensures |s| > 0 && AllDigits(s)
    ensures |s| > 1 ==> s[0] != '0'
  {
    if n < 10 then [('0' as int + n) as char]
    else DecimalText(n / 10) + [('0' as int + n % 10) as char]
  }

  /** `Number(v)`: undefined is NaN, a number is itself, "" is 0, a string of
      decimal digits is its value and every other string is NaN. */
  function ToNumber(v: Option<Value>): JsNumber {
    match v
    case None => NaN
    case Some(Num(n)) => Finite(n)
    case Some(Text(s)) => if AllDigits(s) then Finite(DecimalValue(s)) else NaN
  }

  /** `Number(String(n)) == n`: the decimal text of an id coerces back to it. */
  lemma {:induction false} DecimalRoundTrip(n: nat)
    ensures DecimalValue(DecimalText(n)) == n
  {
    if n >= 10 {
      var s := DecimalText(n);
      assert s[..|s| - 1] == DecimalText(n / 10);
      DecimalRoundTrip(n / 10);
    }
  }

  lemma NumberOfDecimalText(n: nat)
    ensures ToNumber(Some(Text(DecimalText(n)))) == Finite(n)
    ensures IsTruthy(Some(Text(DecimalText(n))))
  {
    DecimalRoundTrip(n);
  }
}
