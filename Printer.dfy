/** `scmStringify`: the text shown for each value at every step. */
module Printer {
  import opened Values
  import opened JsConv

  /** The `funcName` of a callable value. */
  function FunctionName(e: Expr): (r: string)
    requires IsFunction(e)
    ensures r != ""
  {
    if e.Native? then e.nativeName else e.funcName.value
  }

  /** `scmStringify`: `#t`/`#f`, a function's name, a symbol's name, a
      sequence as its elements joined by single blanks inside parentheses,
      and `JSON.stringify` for everything else (numbers, strings, closures
      without a usable name, quotes; `undefined` gives no text). */
  function Stringify(e: Expr): string
    decreases e, 0
  {
    if e == Bool(true) then "#t"
    else if e == Bool(false) then "#f"
    else if IsFunction(e) then FunctionName(e)
    else if e.Sym? then e.name
    else if e.Seq? then "(" + StringifyAll(e.items) + ")"
    else Json(e)
  }

  /** `expr.map(scmStringify).join(' ')` */
  function StringifyAll(xs: seq<Expr>): string
    decreases xs
  {
    if xs == [] then ""
    else if |xs| == 1 then Stringify(xs[0])
    else Stringify(xs[0]) + " " + StringifyAll(xs[1..])
  }

  /** A string of plain characters prints as itself between double
      quotes. */
  lemma PrintPlainString(s: string)
    requires forall i :: 0 <= i < |s| ==> PlainChar(s[i])
    ensures Stringify(Str(s)) == "\"" + s + "\""
  {
    StringifyStr(s);
    JsonPlainString(s);
  }

  /** The printer hands a string to `JSON.stringify`. */
  lemma StringifyStr(s: string)
    ensures Stringify(Str(s)) == Json(Str(s))
  {
  }
}
