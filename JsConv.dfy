/** The host conversions the visualiser applies to its values without
    saying so: `String(x)` (used by `parseFloat(x)`, by `x == '#t'` and by
    `Array.prototype.join`) and `JSON.stringify(x)` (the printer's last
    resort). */
module JsConv {
  import opened Values
  import opened Numbers

  /** `String(x)`. Plain objects (symbols, natives, closures, quotes) all
      convert to "[object Object]"; an array joins its elements with ",",
      an `undefined` element contributing nothing. */
  function ToString(e: Expr): string
    decreases e, 0
  {
    match e
    case Bool(b) => if b then "true" else "false"
    case Number(n) => NumberText(n)
    case Str(s) => s
    case Seq(xs) => JoinedToString(xs)
    case Undef => "undefined"
    case _ => "[object Object]"
  }

  function ElementToString(e: Expr): string
    decreases e, 1
  {
    if e == Undef then "" else ToString(e)
  }

  function JoinedToString(xs: seq<Expr>): string
    decreases xs
  {
    if xs == [] then ""
    else if |xs| == 1 then ElementToString(xs[0])
    else JoinedToString(xs[..|xs| - 1]) + "," + ElementToString(xs[|xs| - 1])
  }

  /** `parseFloat(x)` for any value: `parseFloat(String(x))`. */
  function ToNumber(e: Expr): Option<Num> {
    ParseFloat(ToString(e))
  }

  /** `x == lit` for a string literal `lit` starting with `#` (so that its
      numeric value is NaN): strings compare by contents, booleans, numbers
      and `undefined` are never equal to it, objects compare through
      `String(x)`. */
  function LooseEquals(e: Expr, lit: string): bool
    requires |lit| > 0 && lit[0] == '#'
  {
    match e
    case Str(s) => s == lit
    case Bool(_) => false
    case Number(_) => false
    case Undef => false
    case _ => ToString(e) == lit
  }

  function HexDigit(n: nat): char
    requires n < 16
  {
    if n < 10 then '0' + n as char else 'a' + (n - 10) as char
  }

  /** One character of a JSON string literal (QuoteJSONString). */
  function JsonChar(c: char): string {
    if c == '"' then "\\\""
    else if c == '\\' then "\\\\"
    else if c == '\U{0008}' then "\\b"
    else if c == '\t' then "\\t"
    else if c == '\n' then "\\n"
    else if c == '\U{000C}' then "\\f"
    else if c == '\r' then "\\r"
    else if c < ' ' then "\\u00" + [HexDigit(c as int / 16), HexDigit(c as int % 16)]
    else [c]
  }

  function JsonQuoteBody(s: string): string {
    if s == [] then "" else JsonQuoteBody(s[..|s| - 1]) + JsonChar(s[|s| - 1])
  }

  /** `JSON.stringify(s)` for a string */
  function JsonString(s: string): string {
    "\"" + JsonQuoteBody(s) + "\""
  }

  /** A character JSON writes as itself: not a quote, a backslash or a
      control character. */
  predicate PlainChar(c: char) {
    c != '"' && c != '\\' && c >= ' '
  }

  /** A string of plain characters needs no escapes. */
  lemma {:induction false} JsonPlain(s: string)
    requires forall i :: 0 <= i < |s| ==> PlainChar(s[i])
    ensures JsonQuoteBody(s) == s
    decreases |s|
  {
    if s != [] {
      var init, last := s[..|s| - 1], s[|s| - 1];
      JsonPlain(init);
      JsonCharPlain(last);
      assert s == init + [last];
    }
  }

  /** A plain character is written as itself. */
  lemma JsonCharPlain(c: char)
    requires PlainChar(c)
    ensures JsonChar(c) == [c]
  {
  }

  /** So `JSON.stringify` writes such a string between double quotes. */
  lemma JsonPlainString(s: string)
    requires forall i :: 0 <= i < |s| ==> PlainChar(s[i])
    ensures Json(Str(s)) == "\"" + s + "\""
  {
    JsonPlain(s);
  }

  /** `JSON.stringify(x)`. An object property whose value is `undefined`
      is omitted, an `undefined` array element prints as `null`, a native's
      `proc` (a host function) is omitted; `undefined` itself yields no
      text (the source then joins it as the empty string). */
  function Json(e: Expr): string
    decreases e, 0
  {
    match e
    case Bool(b) => if b then "true" else "false"
    case Number(n) => JsonNumber(n)
    case Str(s) => JsonString(s)
    case Sym(name) => "{\"symbol\":" + JsonString(name) + "}"
    case Seq(xs) => "[" + JsonElements(xs) + "]"
    case Native(name, _) => "{\"funcName\":" + JsonString(name) + "}"
    case Closure(funcName, args, body) =>
      "{" +
      (if funcName.Some? then "\"funcName\":" + JsonString(funcName.value) + "," else "") +
      "\"args\":[" + JsonElements(args) + "]" +
      (if body == Undef then "" else ",\"body\":" + Json(body)) +
      "}"
    case Quote(q) => if q == Undef then "{}" else "{\"quote\":" + Json(q) + "}"
    case Undef => ""
  }

  function JsonElement(e: Expr): string
    decreases e, 1
  {
    if e == Undef then "null" else Json(e)
  }

  function JsonElements(xs: seq<Expr>): string
    decreases xs
  {
    if xs == [] then ""
    else if |xs| == 1 then JsonElement(xs[0])
    else JsonElements(xs[..|xs| - 1]) + "," + JsonElement(xs[|xs| - 1])
  }
}
