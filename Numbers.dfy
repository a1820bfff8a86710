/** The two number conversions of the host that the visualiser relies on:
    `parseFloat` (longest decimal-literal prefix after leading white space)
    and `Number::toString` (the text `String(n)` and `JSON.stringify(n)`
    produce), both over exact decimals. */
module Numbers {
  import opened Values

  predicate IsDigit(c: char) {
    '0' <= c <= '9'
  }

  /** StrWhiteSpaceChar of ECMAScript: white space and line terminators */
  predicate IsStrWhiteSpace(c: char) {
    c == '\t' || c == '\n' || c == '\U{000B}' || c == '\U{000C}' || c == '\r' ||
    c == ' ' || c == '\U{00A0}' || c == '\U{1680}' || ('\U{2000}' <= c <= '\U{200A}') ||
    c == '\U{2028}' || c == '\U{2029}' || c == '\U{202F}' || c == '\U{205F}' ||
    c == '\U{3000}' || c == '\U{FEFF}'
  }

  function TrimStart(s: string): (r: string)
    ensures |r| <= |s| && r == s[|s| - |r|..]
    ensures r == [] || !IsStrWhiteSpace(r[0])
  {
    if s != [] && IsStrWhiteSpace(s[0]) then TrimStart(s[1..]) else s
  }

  /** Length of the run of decimal digits at the start of `s`. */
  function DigitRun(s: string): (n: nat)
    ensures n <= |s|
    ensures forall i :: 0 <= i < n ==> IsDigit(s[i])
    ensures n < |s| ==> !IsDigit(s[n])
  {
    if s != [] && IsDigit(s[0]) then 1 + DigitRun(s[1..]) else 0
  }

  function DigitValue(c: char): (v: nat)
    requires IsDigit(c)
    ensures v < 10
  {
    c as int - '0' as int
  }

  function DigitsValue(ds: string): nat
    requires forall i :: 0 <= i < |ds| ==> IsDigit(ds[i])
  {
    if ds == [] then 0
    else 10 * DigitsValue(ds[..|ds| - 1]) + DigitValue(ds[|ds| - 1])
  }

  /** Strips trailing decimal zeros so that every value has one representation. */
  function Normalize(m: int, e: int): (d: Decimal)
    ensures d.mantissa == 0 ==> d.exponent == 0
    ensures d.mantissa != 0 ==> d.mantissa % 10 != 0
    decreases if m < 0 then -m else m
  {
    if m == 0 then Decimal(0, 0)
    else if m % 10 == 0 then Normalize(m / 10, e + 1)
    else Decimal(m, e)
  }

  /** The exponent part `e`/`E`, optional sign, at least one digit; None when
      `s` does not start with a complete one (it is then not part of the literal). */
  function ExponentPart(s: string): Option<int> {
    if |s| < 2 || (s[0] != 'e' && s[0] != 'E') then None
    else
      var start := if s[1] == '+' || s[1] == '-' then 2 else 1;
      var n := DigitRun(s[start..]);
      if n == 0 then None
      else
        var v: int := DigitsValue(s[start..][..n]);
        Some(if s[1] == '-' then -v else v)
  }

  /** The value of the longest StrUnsignedDecimalLiteral other than
      `Infinity` at the start of `u`: digits, an optional `.` with digits
      (at least one digit in all), then an optional exponent part. */
  function UnsignedDecimal(u: string): Option<(nat, int)>
  {
    var a := DigitRun(u);
    var rest := u[a..];
    var dot := |rest| > 0 && rest[0] == '.';
    var b := if dot then DigitRun(rest[1..]) else 0;
    if a + b == 0 then None
    else
      var fraction := if dot then rest[1..][..b] else "";
      var after := if dot then rest[1..][b..] else rest;
      var exponent := match ExponentPart(after) case Some(x) => x case None => 0;
      Some((DigitsValue(u[..a] + fraction), exponent - |fraction|))
  }

  /** The number an unsigned literal at the start of `u` denotes, negated
      when `negative`; None when `u` does not start with one. */
  function SignedValue(negative: bool, u: string): Option<Num> {
    if |u| >= 8 && u[..8] == "Infinity" then Some(Infinity(negative))
    else
      match UnsignedDecimal(u)
      case None => None
      case Some((mantissa, exponent)) =>
        var m: int := mantissa;
        Some(Finite(Normalize(if negative then -m else m, exponent)))
  }

  /** `parseFloat(s)`: None stands for NaN. */
  function ParseFloat(s: string): (r: Option<Num>)
  {
    var t := TrimStart(s);
    if |t| > 0 && (t[0] == '-' || t[0] == '+') then SignedValue(t[0] == '-', t[1..])
    else SignedValue(false, t)
  }

  /** Decimal text of a natural number, most significant digit first. */
  function NatText(n: nat): (r: string)
    ensures |r| >= 1
    ensures forall i :: 0 <= i < |r| ==> IsDigit(r[i])
  {
    var last := ['0' + (n % 10) as char];
    if n < 10 then last else NatText(n / 10) + last
  }

  function Zeros(n: nat): (r: string)
    ensures |r| == n && forall i :: 0 <= i < n ==> r[i] == '0'
  {
    if n == 0 then "" else "0" + Zeros(n - 1)
  }

  /** Number::toString for a positive value `s * 10^e` whose digit string
      `s` has no trailing zero: positional form while the decimal point
      lies within 21 digits to the left and 6 zeros to the right, otherwise
      the exponential form `d.ddde+x`. */
  function MagnitudeText(s: nat, e: int): string
    requires s > 0
  {
    var ds := NatText(s);
    var k := |ds|;
    var n := k + e;
    if k <= n <= 21 then ds + Zeros(n - k)
    else if 0 < n <= 21 then ds[..n] + "." + ds[n..]
    else if -6 < n <= 0 then "0." + Zeros(-n) + ds
    else
      var e1 := n - 1;
      var expText := (if e1 >= 0 then "+" else "-") + NatText(if e1 >= 0 then e1 else -e1);
      if k == 1 then ds + "e" + expText
      else ds[..1] + "." + ds[1..] + "e" + expText
  }

  /** `String(n)` */
  function NumberText(n: Num): (r: string)
    ensures |r| >= 1
  {
    match n
    case Infinity(negative) => if negative then "-Infinity" else "Infinity"
    case Finite(d) =>
      var nd := Normalize(d.mantissa, d.exponent);
      if nd.mantissa == 0 then "0"
      else if nd.mantissa < 0 then "-" + MagnitudeText(-nd.mantissa, nd.exponent)
      else MagnitudeText(nd.mantissa, nd.exponent)
  }

  /** `JSON.stringify(n)`: non-finite numbers print as `null`. */
  function JsonNumber(n: Num): (r: string)
    ensures |r| >= 1
  {
    if n.Infinity? then "null" else NumberText(n)
  }
}
