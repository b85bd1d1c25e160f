/** The parts of JavaScript's value semantics the configuration code leans
    on: whitespace, `parseInt`, the numeric test behind `isNaN`, truthiness
    of configuration scalars, and the decimal rendering of an integer. */
module JsValues {

  /** A scalar configuration value as it arrives from parsed JSON: an
      integer number or a string. */
  datatype Scalar = Num(n: int) | Text(s: string)

  /** What `parseInt` returns: an integer or `NaN`. */
  datatype ParsedInt = Int(i: int) | NaN

  /** The characters `String.prototype.trim` and `Number(...)` strip: the
      ECMAScript WhiteSpace and LineTerminator characters. */
  predicate IsWhite(c: char) {
    c == '\t' || c == '\n' || c == '\U{000B}' || c == '\U{000C}' || c == '\r' || c == ' '
    || c == '\U{00A0}' || c == '\U{1680}' || ('\U{2000}' <= c <= '\U{200A}')
    || c == '\U{2028}' || c == '\U{2029}' || c == '\U{202F}' || c == '\U{205F}'
    || c == '\U{3000}' || c == '\U{FEFF}'
  }

  predicate IsDigit(c: char) {
    '0' <= c <= '9'
  }

  predicate AllDigits(s: string) {
    forall i :: 0 <= i < |s| ==> IsDigit(s[i])
  }

  /** Leading whitespace removed. */
  function TrimStart(s: string): (r: string)
    ensures |r| <= |s| && r == s[|s| - |r|..]
    ensures r == [] || !IsWhite(r[0])
  {
    if s != [] && IsWhite(s[0]) then TrimStart(s[1..]) else s
  }

  /** Trailing whitespace removed. */
  function TrimEnd(s: string): (r: string)
    ensures |r| <= |s| && r == s[..|r|]
    ensures r == [] || !IsWhite(r[|r| - 1])
  {
    if s != [] && IsWhite(s[|s| - 1]) then TrimEnd(s[..|s| - 1]) else s
  }

  /** `s.trim()`. */
  function Trim(s: string): string {
    TrimEnd(TrimStart(s))
  }

  /** The value of a string of decimal digits. */
  function DigitsValue(s: string): (v: nat)
    requires AllDigits(s)
  {
    if s == [] then 0 else 10 * DigitsValue(s[..|s| - 1]) + (s[|s| - 1] - '0') as int
  }

  /** The length of the longest prefix of `s` made of decimal digits. */
  function DigitRun(s: string): (n: nat)
    ensures n <= |s| && AllDigits(s[..n])
    ensures n < |s| ==> !IsDigit(s[n])
  {
    if s != [] && IsDigit(s[0]) then
      var k := DigitRun(s[1..]);
      assert s[..k + 1] == [s[0]] + s[1..][..k];
      k + 1
    else 0
  }

  /** `parseInt(s)` without a radix: leading whitespace skipped, an optional
      sign, then as many decimal digits as follow; no digit at all gives NaN. */
  function ParseIntText(s: string): ParsedInt {
    ParseSigned(TrimStart(s))
  }

  /** `parseInt` after the leading whitespace. */
  function ParseSigned(t: string): ParsedInt {
    if t != [] && t[0] == '-' then Negate(ParseDigits(t[1..]))
    else if t != [] && t[0] == '+' then ParseDigits(t[1..])
    else ParseDigits(t)
  }

  function Negate(p: ParsedInt): ParsedInt {
    if p.Int? then Int(-p.i) else NaN
  }

  /** The value of the digits at the front of `body`, or NaN if there are
      none. */
  function ParseDigits(body: string): ParsedInt {
    var n := DigitRun(body);
    if n == 0 then NaN else Int(DigitsValue(body[..n]))
  }

  /** `parseInt(v)`: a number is already integral; a string is parsed. */
  function ParseInt(v: Scalar): ParsedInt {
    match v
    case Num(n) => Int(n)
    case Text(s) => ParseIntText(s)
  }

  /** A trimmed string that `Number(...)` reads as an integer: an optional
      sign followed by at least one digit. */
  predicate IsSignedDigits(t: string) {
    || (t != [] && AllDigits(t))
    || (|t| > 1 && (t[0] == '-' || t[0] == '+') && AllDigits(t[1..]))
  }

  /** `!isNaN(s)` for a string: `Number(s)` is a number, which is the case
      for a blank string (it reads as 0) and for a signed integer literal
      surrounded by whitespace. */
  predicate IsNumericText(s: string) {
    var t := Trim(s);
    t == [] || IsSignedDigits(t)
  }

  /** `Number(s)` for a string that `IsNumericText` accepts. */
  function NumberOfText(s: string): int
    requires IsNumericText(s)
  {
    var t := Trim(s);
    if t == [] then 0
    else if t[0] == '-' then 0 - DigitsValue(t[1..])
    else if t[0] == '+' then DigitsValue(t[1..])
    else DigitsValue(t)
  }

  /** JavaScript truthiness of a configuration scalar: 0 and "" are false. */
  predicate ScalarTruthy(v: Scalar) {
    match v
    case Num(n) => n != 0
    case Text(s) => s != []
  }

  /** JavaScript truthiness of a `parseInt` result: 0 and NaN are false. */
  predicate ParsedTruthy(p: ParsedInt) {
    p.Int? && p.i != 0
  }

  /** Truthiness of an optional string field: missing and "" are false. */
  predicate StrTruthy(o: Option<string>) {
    o.Some? && o.value != []
  }

  import opened Wrappers

  function DigitChar(d: nat): (c: char)
    requires d < 10
    ensures IsDigit(c) && (c - '0') as int == d
  {
    ('0' as int + d) as char
  }

  /** The decimal digits of a natural number, without leading zeros. */
  function NatToString(n: nat): (s: string)
    ensures s != [] && AllDigits(s)
    decreases n
  {
    if n < 10 then [DigitChar(n)] else NatToString(n / 10) + [DigitChar(n % 10)]
  }

  /** `String(n)` for an integer: its decimal rendering. */
  function IntToString(n: int): string {
    if n < 0 then "-" + NatToString(-n) else NatToString(n)
  }

  lemma {:induction false} NatToStringValue(n: nat)
    ensures DigitsValue(NatToString(n)) == n
    decreases n
  {
    if n >= 10 {
      NatToStringValue(n / 10);
      var s := NatToString(n);
      assert s[..|s| - 1] == NatToString(n / 10);
    }
  }

  lemma DigitRunAll(s: string)
    requires AllDigits(s)
    ensures DigitRun(s) == |s|
  {
  }

  /** `parseInt(String(n)) == n`: rendering an integer and parsing it back
      gives the integer. */
  lemma ParseIntOfIntToString(n: int)
    ensures ParseIntText(IntToString(n)) == Int(n)
  {
    if n < 0 {
      NegativeRoundTrip(n);
    } else {
      NatToStringValue(n);
      DigitsParse(NatToString(n));
    }
  }

  lemma NegativeRoundTrip(n: int)
    requires n < 0
    ensures ParseIntText(IntToString(n)) == Int(n)
  {
    var s := IntToString(n);
    assert s[1..] == NatToString(-n);
    NatToStringValue(-n);
    NegativeText(s, n);
  }

  lemma NegativeText(s: string, n: int)
    requires |s| > 1 && s[0] == '-' && AllDigits(s[1..]) && DigitsValue(s[1..]) == -n
    ensures ParseIntText(s) == Int(n)
  {
    assert !IsWhite('-');
    NoWhiteTrimStart(s);
    AllDigitsParse(s[1..]);
    assert ParseSigned(s) == Negate(ParseDigits(s[1..]));
  }

  /** Digits alone parse as their value. */
  lemma DigitsParse(s: string)
    requires s != [] && AllDigits(s)
    ensures ParseIntText(s) == Int(DigitsValue(s))
  {
    assert IsDigit(s[0]);
    DigitIsPlain(s[0]);
    NoWhiteTrimStart(s);
    assert ParseIntText(s) == ParseDigits(s);
    AllDigitsParse(s);
  }

  lemma DigitIsPlain(c: char)
    requires IsDigit(c)
    ensures !IsWhite(c) && c != '-' && c != '+'
  {
  }

  lemma AllDigitsParse(s: string)
    requires s != [] && AllDigits(s)
    ensures ParseDigits(s) == Int(DigitsValue(s))
  {
    DigitRunAll(s);
    assert s[..|s|] == s;
  }

  lemma NoWhiteTrimStart(s: string)
    requires s != [] && !IsWhite(s[0])
    ensures TrimStart(s) == s
  {
  }

  lemma TrimUnchanged(s: string)
    requires s != [] && !IsWhite(s[0]) && !IsWhite(s[|s| - 1])
    ensures Trim(s) == s
  {
    assert TrimStart(s) == s;
  }

  /** `Number(String(n)) == n` as well, so an integer's rendering passes the
      `isNaN` test with its own value. */
  lemma NumberOfIntToString(n: int)
    ensures IsNumericText(IntToString(n)) && NumberOfText(IntToString(n)) == n
  {
    var s := IntToString(n);
    var m: nat := if n < 0 then -n else n;
    var d := NatToString(m);
    NatToStringValue(m);
    if n < 0 {
      assert s == "-" + d && s[1..] == d;
      assert IsDigit(s[|s| - 1]);
      TrimUnchanged(s);
      assert IsSignedDigits(s);
    } else {
      assert s == d;
      assert IsDigit(s[0]) && IsDigit(s[|s| - 1]);
      TrimUnchanged(s);
    }
  }
}
