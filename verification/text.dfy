/** Character and string helpers shared by the PHP endpoints and the browser
    controller: trimming with a caller-chosen whitespace class, ASCII case
    mapping, affix tests, decimal digits and lexicographic order. */
module Text {

  datatype Option<T> = None | Some(value: T) {
    function GetOr(default: T): T {
      match this
      case Some(v) => v
      case None => default
    }
  }

  // ---------------------------------------------------------------------
  // Whitespace classes

  /** Characters removed by PHP's `trim` with its default character list. */
  predicate IsPhpTrimSpace(c: char) {
    c == ' ' || c == '\t' || c == '\n' || c == '\r' || c == '\0' || c as int == 0x0B
  }

  /** Characters that PHP's integer conversion skips before the digits. */
  predicate IsPhpLeadSpace(c: char) {
    c == ' ' || c == '\t' || c == '\n' || c == '\r' || c as int == 0x0B || c as int == 0x0C
  }

  /** WhiteSpace and LineTerminator of ECMAScript, removed by String.prototype.trim. */
  predicate IsJsSpace(c: char) {
    var x := c as int;
    x == 0x09 || x == 0x0A || x == 0x0B || x == 0x0C || x == 0x0D || x == 0x20
    || x == 0xA0 || x == 0x1680 || (0x2000 <= x <= 0x200A)
    || x == 0x2028 || x == 0x2029 || x == 0x202F || x == 0x205F
    || x == 0x3000 || x == 0xFEFF
  }

  // ---------------------------------------------------------------------
  // Trimming

  /** Drops leading characters of class `ws`. */
  function TrimStart(s: string, ws: char -> bool): (r: string)
    ensures |r| <= |s| && r == s[|s| - |r|..]
    ensures forall i :: 0 <= i < |s| - |r| ==> ws(s[i])
    ensures r == [] || !ws(r[0])
    decreases |s|
  {
    if |s| > 0 && ws(s[0]) then TrimStart(s[1..], ws) else s
  }

  /** Drops trailing characters of class `ws`. */
  function TrimEnd(s: string, ws: char -> bool): (r: string)
    ensures |r| <= |s| && r == s[..|r|]
    ensures forall i :: |r| <= i < |s| ==> ws(s[i])
    ensures r == [] || !ws(r[|r| - 1])
    decreases |s|
  {
    if |s| > 0 && ws(s[|s| - 1]) then TrimEnd(s[..|s| - 1], ws) else s
  }

  /** Drops leading and trailing characters of class `ws`. */
  function Trim(s: string, ws: char -> bool): (r: string)
    ensures |r| <= |s|
    ensures r == [] || (!ws(r[0]) && !ws(r[|r| - 1]))
  {
    TrimEnd(TrimStart(s, ws), ws)
  }

  /** What trimming keeps is a middle stretch of `s`: every character cut
      off on either side is of the class, and the stretch neither starts nor
      ends with one. Together these fix the result: it runs from the first
      character outside the class to the last one. */
  lemma TrimKeepsMiddle(s: string, ws: char -> bool)
    ensures var r := Trim(s, ws); var a := |s| - |TrimStart(s, ws)|;
      && a + |r| <= |s| && r == s[a..a + |r|]
      && (forall i :: 0 <= i < a ==> ws(s[i]))
      && (forall i :: a + |r| <= i < |s| ==> ws(s[i]))
      && (r == [] || (!ws(r[0]) && !ws(r[|r| - 1])))
  {
  }

  /** PHP `trim($s)`. */
  function PhpTrim(s: string): string {
    Trim(s, IsPhpTrimSpace)
  }

  /** JavaScript `s.trim()`. */
  function JsTrim(s: string): string {
    Trim(s, IsJsSpace)
  }

  predicate Trimmed(s: string, ws: char -> bool) {
    s == [] || (!ws(s[0]) && !ws(s[|s| - 1]))
  }

  /** A string with no surrounding whitespace is left as it is, so trimming
      twice is trimming once. */
  lemma TrimOfTrimmed(s: string, ws: char -> bool)
    requires Trimmed(s, ws)
    ensures Trim(s, ws) == s
  {
    assert TrimStart(s, ws) == s;
  }

  /** One class character on each side of a trimmed, non-empty string is
      exactly what trimming removes. */
  lemma TrimPadded(m: string, c: char, ws: char -> bool)
    requires m != [] && Trimmed(m, ws) && ws(c)
    ensures Trim([c] + m + [c], ws) == m
  {
    var x := [c] + m + [c];
    assert x[1..] == m + [c];
    assert TrimStart(m + [c], ws) == m + [c];
    assert (m + [c])[..|m|] == m;
    assert TrimEnd(m, ws) == m;
  }

  /** One class character after a trimmed, non-empty string is exactly
      what trimming removes. */
  lemma TrimTrailing(m: string, c: char, ws: char -> bool)
    requires m != [] && Trimmed(m, ws) && ws(c)
    ensures Trim(m + [c], ws) == m
  {
    assert TrimStart(m + [c], ws) == m + [c];
    assert (m + [c])[..|m|] == m;
    assert TrimEnd(m, ws) == m;
  }

  /** One class character before a trimmed, non-empty string is exactly
      what trimming removes. */
  lemma TrimLeading(m: string, c: char, ws: char -> bool)
    requires m != [] && Trimmed(m, ws) && ws(c)
    ensures Trim([c] + m, ws) == m
  {
    assert ([c] + m)[1..] == m;
    assert TrimStart(m, ws) == m;
    assert TrimEnd(m, ws) == m;
  }

  lemma TrimIdempotent(s: string, ws: char -> bool)
    ensures Trim(Trim(s, ws), ws) == Trim(s, ws)
  {
    TrimOfTrimmed(Trim(s, ws), ws);
  }

  // ---------------------------------------------------------------------
  // ASCII case mapping

  function AsciiLowerChar(c: char): char {
    if 'A' <= c <= 'Z' then (c as int + 32) as char else c
  }

  function AsciiUpperChar(c: char): char {
    if 'a' <= c <= 'z' then (c as int - 32) as char else c
  }

  function AsciiLower(s: string): (r: string)
    ensures |r| == |s|
    ensures forall i :: 0 <= i < |s| ==> r[i] == AsciiLowerChar(s[i])
  {
    seq(|s|, i requires 0 <= i < |s| => AsciiLowerChar(s[i]))
  }

  function AsciiUpper(s: string): (r: string)
    ensures |r| == |s|
    ensures forall i :: 0 <= i < |s| ==> r[i] == AsciiUpperChar(s[i])
  {
    seq(|s|, i requires 0 <= i < |s| => AsciiUpperChar(s[i]))
  }

  predicate IsAsciiLetter(c: char) {
    ('A' <= c <= 'Z') || ('a' <= c <= 'z')
  }

  predicate IsAsciiDigit(c: char) {
    '0' <= c <= '9'
  }

  // ---------------------------------------------------------------------
  // Affixes and searching

  predicate IsPrefix(p: string, s: string) {
    |p| <= |s| && s[..|p|] == p
  }

  predicate IsSuffix(p: string, s: string) {
    |p| <= |s| && s[|s| - |p|..] == p
  }

  /** `sub` occurs somewhere in `s` (PHP `strpos($s, $sub) !== false`). */
  predicate Contains(s: string, sub: string)
    decreases |s|
  {
    IsPrefix(sub, s) || (|s| > 0 && Contains(s[1..], sub))
  }

  /** Position of the first `c` in `s`. */
  function IndexOf(s: string, c: char): (r: Option<nat>)
    ensures r.None? <==> c !in s
    ensures r.Some? ==> r.value < |s| && s[r.value] == c && c !in s[..r.value]
  {
    if |s| == 0 then None
    else if s[0] == c then Some(0)
    else match IndexOf(s[1..], c)
      case None => None
      case Some(k) =>
        assert s[..k + 1] == [s[0]] + s[1..][..k];
        Some(k + 1)
  }

  /** Position of the last `c` in `s`. */
  /** An occurrence with none before it is the one `IndexOf` finds. */
  lemma FirstIndex(s: string, c: char, i: nat)
    requires i < |s| && s[i] == c && c !in s[..i]
    ensures IndexOf(s, c) == Some(i)
  {
  }

  function LastIndexOf(s: string, c: char): (r: Option<nat>)
    ensures r.None? <==> c !in s
    ensures r.Some? ==> r.value < |s| && s[r.value] == c && c !in s[r.value + 1..]
  {
    if |s| == 0 then None
    else if s[|s| - 1] == c then Some(|s| - 1)
    else
      var r := LastIndexOf(s[..|s| - 1], c);
      if r.Some? then
        assert s[r.value + 1..] == s[..|s| - 1][r.value + 1..] + [s[|s| - 1]];
        r
      else
        assert s == s[..|s| - 1] + [s[|s| - 1]];
        r
  }

  // ---------------------------------------------------------------------
  // Decimal digits

  predicate AllDigits(s: string) {
    forall i :: 0 <= i < |s| ==> IsAsciiDigit(s[i])
  }

  function DigitChar(d: nat): (c: char)
    requires d < 10
    ensures IsAsciiDigit(c)
  {
    ('0' as int + d) as char
  }

  function DigitValue(c: char): nat
    requires IsAsciiDigit(c)
  {
    c as int - '0' as int
  }

  /** Shortest decimal spelling of a natural number. */
  function NatToDecimal(n: nat): (s: string)
    ensures |s| > 0 && AllDigits(s)
    ensures n > 0 ==> s[0] != '0'
    decreases n
  {
    if n < 10 then [DigitChar(n)] else NatToDecimal(n / 10) + [DigitChar(n % 10)]
  }

  /** Value of a string of decimal digits (the empty string is worth 0). */
  function DigitsValue(s: string): nat
    requires AllDigits(s)
  {
    if s == [] then 0 else DigitsValue(s[..|s| - 1]) * 10 + DigitValue(s[|s| - 1])
  }

  /** Reading back the digits of a number gives the number. */
  lemma {:induction false} DecimalRoundTrip(n: nat)
    ensures DigitsValue(NatToDecimal(n)) == n
  {
    if n >= 10 {
      var s := NatToDecimal(n);
      assert s[..|s| - 1] == NatToDecimal(n / 10);
      DecimalRoundTrip(n / 10);
    }
  }

  /** Decimal spelling of an integer, as JavaScript's `String(n)` and PHP's
      `(string)$n` give it for integers. */
  function IntToDecimal(n: int): string {
    if n < 0 then "-" + NatToDecimal(-n) else NatToDecimal(n)
  }

  /** Longest prefix of digits. */
  function DigitPrefix(s: string): (r: string)
    ensures AllDigits(r) && IsPrefix(r, s)
    ensures |r| == |s| || !IsAsciiDigit(s[|r|])
  {
    if |s| > 0 && IsAsciiDigit(s[0]) then [s[0]] + DigitPrefix(s[1..]) else []
  }

  // ---------------------------------------------------------------------
  // Ordering

  /** Byte-wise lexicographic order (PHP `strcmp(a, b) < 0`). */
  predicate LexLess(a: string, b: string)
    decreases |a|
  {
    if |a| == 0 then |b| > 0
    else if |b| == 0 then false
    else if a[0] != b[0] then a[0] < b[0]
    else LexLess(a[1..], b[1..])
  }

  // ---------------------------------------------------------------------
  // Sequences

  /** The concatenation of `c(x)` over `xs`, in order. */
  function FlatMap<A, B>(c: A -> seq<B>, xs: seq<A>): seq<B> {
    if xs == [] then [] else c(xs[0]) + FlatMap(c, xs[1..])
  }

  /** Mapping distributes over concatenation, so order is kept. */
  lemma {:induction false} FlatMapConcat<A, B>(c: A -> seq<B>, a: seq<A>, b: seq<A>)
    ensures FlatMap(c, a + b) == FlatMap(c, a) + FlatMap(c, b)
    decreases |a|
  {
    if a != [] {
      assert (a + b)[0] == a[0];
      assert (a + b)[1..] == a[1..] + b;
      FlatMapConcat(c, a[1..], b);
      assert FlatMap(c, a + b) == c(a[0]) + FlatMap(c, a[1..] + b);
    } else {
      assert a + b == b;
    }
  }

  /** Nothing comes out exactly when every element maps to nothing. */
  lemma {:induction false} FlatMapEmpty<A, B>(c: A -> seq<B>, xs: seq<A>)
    ensures FlatMap(c, xs) == [] <==> forall i :: 0 <= i < |xs| ==> c(xs[i]) == []
    decreases |xs|
  {
    if xs != [] {
      FlatMapEmpty(c, xs[1..]);
      assert forall i :: 1 <= i < |xs| ==> xs[i] == xs[1..][i - 1];
    }
  }

  /** Membership in a flat map: `b` comes out of some element's image. */
  lemma {:induction false} FlatMapMember<A, B>(c: A -> seq<B>, xs: seq<A>, b: B)
    ensures b in FlatMap(c, xs) <==> exists i :: 0 <= i < |xs| && b in c(xs[i])
    decreases |xs|
  {
    if xs != [] {
      FlatMapMember(c, xs[1..], b);
      if b in FlatMap(c, xs[1..]) {
        var i :| 0 <= i < |xs[1..]| && b in c(xs[1..][i]);
        assert xs[i + 1] == xs[1..][i];
      }
      if exists i :: 0 <= i < |xs| && b in c(xs[i]) {
        var i :| 0 <= i < |xs| && b in c(xs[i]);
        if i > 0 {
          assert xs[1..][i - 1] == xs[i];
        }
      }
    }
  }

  // ---------------------------------------------------------------------
  // Decimal order

  function Pow10(n: nat): (r: nat)
    ensures r >= 1
  {
    if n == 0 then 1 else 10 * Pow10(n - 1)
  }

  /** Reading digits from the front: the first digit weighs 10^(n-1). */
  lemma {:induction false} DigitsValueFront(a: string)
    requires AllDigits(a) && |a| > 0
    ensures DigitsValue(a) == DigitValue(a[0]) * Pow10(|a| - 1) + DigitsValue(a[1..])
    decreases |a|
  {
    if |a| > 1 {
      var init := a[..|a| - 1];
      var tail := a[1..];
      DigitsValueFront(init);
      assert init[0] == a[0];
      assert init[1..] == tail[..|tail| - 1];
      assert tail[|tail| - 1] == a[|a| - 1];
      var d0, last, p := DigitValue(a[0]), DigitValue(a[|a| - 1]), Pow10(|a| - 2);
      var m := DigitsValue(init[1..]);
      assert DigitsValue(init) == d0 * p + m;
      assert DigitsValue(tail) == m * 10 + last;
      assert DigitsValue(a) == DigitsValue(init) * 10 + last;
      ShiftDigit(d0, p, m, last);
    } else {
      assert a[1..] == [];
    }
  }

  lemma ShiftDigit(d: int, p: int, m: int, last: int)
    ensures (d * p + m) * 10 + last == d * (10 * p) + (m * 10 + last)
  {
  }

  lemma {:induction false} DigitsValueBound(a: string)
    requires AllDigits(a)
    ensures DigitsValue(a) < Pow10(|a|)
    decreases |a|
  {
    if a != [] {
      DigitsValueBound(a[..|a| - 1]);
    }
  }

  /** A leading digit decides the order of two values below its weight. */
  lemma LeadingDigitDecides(x: nat, y: nat, p: nat, u: nat, v: nat)
    requires x < y && u < p && v < p
    ensures x * p + u < y * p + v
  {
    assert (x + 1) * p <= y * p;
  }

  /** For digit strings of one length, numeric order is lexicographic order:
      this is why "YYYYMMDD" and "HHMMSS" strings compare chronologically. */
  lemma {:induction false} DigitsOrder(a: string, b: string)
    requires AllDigits(a) && AllDigits(b) && |a| == |b|
    ensures DigitsValue(a) < DigitsValue(b) <==> LexLess(a, b)
    decreases |a|
  {
    if |a| > 0 {
      DigitsValueFront(a);
      DigitsValueFront(b);
      DigitsValueBound(a[1..]);
      DigitsValueBound(b[1..]);
      var p := Pow10(|a| - 1);
      var x, y := DigitValue(a[0]), DigitValue(b[0]);
      if a[0] == b[0] {
        DigitsOrder(a[1..], b[1..]);
      } else if a[0] < b[0] {
        LeadingDigitDecides(x, y, p, DigitsValue(a[1..]), DigitsValue(b[1..]));
      } else {
        LeadingDigitDecides(y, x, p, DigitsValue(b[1..]), DigitsValue(a[1..]));
      }
    }
  }

  // ---------------------------------------------------------------------
  // PHP string and path functions

  /** `str_pad($s, $n, $c, STR_PAD_LEFT)`. */
  function PadLeft(s: string, n: nat, c: char): (r: string)
    ensures |s| >= n ==> r == s
    ensures |s| < n ==> |r| == n && IsSuffix(s, r) && forall i :: 0 <= i < n - |s| ==> r[i] == c
  {
    if |s| >= n then s else seq(n - |s|, _ => c) + s
  }

  predicate IsSlash(c: char) {
    c == '/'
  }

  /** `basename($path)` on a POSIX system: trailing slashes are dropped,
      then everything up to the last remaining slash. */
  function PhpBasename(path: string): (r: string)
    ensures '/' !in r
    ensures IsSuffix(r, TrimEnd(path, IsSlash))
    ensures var p := TrimEnd(path, IsSlash);
      r == p || (|r| < |p| && p[|p| - |r| - 1] == '/')
  {
    var p := TrimEnd(path, IsSlash);
    match LastIndexOf(p, '/')
    case None => p
    case Some(i) => p[i + 1..]
  }

  lemma BasenameOfPlain(s: string)
    requires '/' !in s
    ensures PhpBasename(s) == s
  {
    assert TrimEnd(s, IsSlash) == s;
  }

  /** `pathinfo($path, PATHINFO_EXTENSION)`: what follows the last '.' of
      the base name, or "" when it has none. */
  function PathExtension(path: string): (r: string)
    ensures '.' !in r && '/' !in r
    ensures '.' !in PhpBasename(path) ==> r == ""
  {
    AfterLast(PhpBasename(path), '.')
  }

  /** With a '.' in the base name, the extension is what follows the last
      one: a suffix of the base name right after a '.', holding none. */
  lemma ExtensionAfterLastDot(path: string, b: string)
    requires b == PhpBasename(path) && '.' in b
    ensures var r := PathExtension(path);
      IsSuffix(r, b) && |r| < |b| && b[|b| - |r| - 1] == '.'
  {
    ExtensionIsAfterLast(path, b);
    AfterLastDot(b, AfterLast(b, '.'));
  }

  lemma ExtensionIsAfterLast(path: string, b: string)
    requires b == PhpBasename(path)
    ensures PathExtension(path) == AfterLast(b, '.')
  {
  }

  lemma AfterLastDot(b: string, r: string)
    requires r == AfterLast(b, '.') && '.' in b
    ensures IsSuffix(r, b) && |r| < |b| && b[|b| - |r| - 1] == '.'
  {
  }

  /** What follows the last `c` in `s`, or "" when there is none. */
  function AfterLast(s: string, c: char): (r: string)
    ensures c !in s ==> r == ""
    ensures c in s ==> IsSuffix(r, s) && |r| < |s| && s[|s| - |r| - 1] == c && c !in r
  {
    match LastIndexOf(s, c)
    case None => ""
    case Some(i) =>
      TailIsSuffix(s, i);
      s[i + 1..]
  }

  /** What follows position `i` is a suffix, with `s[i]` just before it. */
  lemma TailIsSuffix(s: string, i: nat)
    requires i < |s|
    ensures var e := s[i + 1..];
      IsSuffix(e, s) && |e| < |s| && s[|s| - |e| - 1] == s[i]
  {
  }
}
