/** Dynamic values as they travel between the PHP endpoints, the browser's
    local storage and the controller, with the conversions the two languages
    apply to them: truthiness, string conversion, PHP `empty` and `(int)`. */
module Values {
  import opened Text

  /** `Composite` stands for any non-empty array or object: every such value
      is truthy in JavaScript and non-empty for PHP, and neither endpoint
      looks inside one where this model uses it. Numbers are integers. */
  datatype Val = Undefined | Null | Bool(b: bool) | Num(n: int) | Str(s: string) | Composite

  /** JavaScript truthiness (`if (v)`, `!v`, `v || d`). */
  predicate JsTruthy(v: Val) {
    match v
    case Undefined => false
    case Null => false
    case Bool(b) => b
    case Num(n) => n != 0
    case Str(s) => s != ""
    case Composite => true
  }

  /** JavaScript `String(v)`, which is also what `localStorage.setItem` stores. */
  function JsToString(v: Val): string {
    match v
    case Undefined => "undefined"
    case Null => "null"
    case Bool(b) => if b then "true" else "false"
    case Num(n) => IntToDecimal(n)
    case Str(s) => s
    case Composite => "[object Object]"
  }

  /** JavaScript `v || d`: truthy exactly when either operand is, and
      always one of its two operands. */
  function JsOr(v: Val, d: Val): (r: Val)
    ensures JsTruthy(r) <==> JsTruthy(v) || JsTruthy(d)
    ensures r == v || r == d
    ensures JsTruthy(v) ==> r == v
    ensures !JsTruthy(v) ==> r == d
  {
    if JsTruthy(v) then v else d
  }

  /** PHP `(string)$v`. A composite value is an array here, which PHP spells "Array". */
  function PhpToString(v: Val): string {
    match v
    case Undefined => ""
    case Null => ""
    case Bool(b) => if b then "1" else ""
    case Num(n) => IntToDecimal(n)
    case Str(s) => s
    case Composite => "Array"
  }

  /** PHP `empty()` of a string: the empty string and "0". */
  predicate PhpEmptyString(s: string) {
    s == "" || s == "0"
  }

  /** PHP `empty($v)` (a missing array entry is `Undefined`). */
  predicate PhpEmpty(v: Val) {
    match v
    case Undefined => true
    case Null => true
    case Bool(b) => !b
    case Num(n) => n == 0
    case Str(s) => PhpEmptyString(s)
    case Composite => false
  }

  /** PHP `isset($v)`: present and not null. */
  predicate PhpIsset(v: Val) {
    !v.Undefined? && !v.Null?
  }

  /** The integer that PHP's `(int)` reads from the start of a string:
      leading blanks, an optional sign, then as many digits as there are. */
  function PhpLeadingInt(s: string): int {
    var t := TrimStart(s, IsPhpLeadSpace);
    if |t| > 0 && t[0] == '-' then -(DigitsValue(DigitPrefix(t[1..])) as int)
    else if |t| > 0 && t[0] == '+' then DigitsValue(DigitPrefix(t[1..]))
    else DigitsValue(DigitPrefix(t))
  }

  /** PHP `(int)$v`. */
  function PhpToInt(v: Val): int {
    match v
    case Undefined => 0
    case Null => 0
    case Bool(b) => if b then 1 else 0
    case Num(n) => n
    case Str(s) => PhpLeadingInt(s)
    case Composite => 1
  }

  /** Casting an integer to string and back gives the integer. */
  lemma PhpIntStringRoundTrip(n: int)
    ensures PhpToInt(Str(PhpToString(Num(n)))) == n
  {
    var m: nat := if n < 0 then -n else n;
    var d := NatToDecimal(m);
    DecimalRoundTrip(m);
    if n < 0 {
      assert PhpToString(Num(n)) == "-" + d;
      LeadingIntOfNegative(d);
    } else {
      assert PhpToString(Num(n)) == d;
      LeadingIntOfDigits(d);
    }
  }

  lemma LeadingIntOfDigits(d: string)
    requires |d| > 0 && AllDigits(d)
    ensures PhpLeadingInt(d) == DigitsValue(d)
  {
    assert !IsPhpLeadSpace(d[0]);
    assert TrimStart(d, IsPhpLeadSpace) == d;
    DigitPrefixOfDigits(d);
  }

  lemma LeadingIntOfNegative(d: string)
    requires |d| > 0 && AllDigits(d)
    ensures PhpLeadingInt("-" + d) == -(DigitsValue(d) as int)
  {
    var t := "-" + d;
    assert !IsPhpLeadSpace(t[0]);
    assert TrimStart(t, IsPhpLeadSpace) == t;
    assert t[1..] == d;
    DigitPrefixOfDigits(d);
  }

  lemma {:induction false} DigitPrefixOfDigits(s: string)
    requires AllDigits(s)
    ensures DigitPrefix(s) == s
  {
    if |s| > 0 {
      DigitPrefixOfDigits(s[1..]);
    }
  }
}
