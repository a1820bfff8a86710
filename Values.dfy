/** The loosely-tagged values of the visualiser, as a closed datatype.
    In the source a value is a JS boolean, number, string, array, `{symbol}`
    object, `{funcName, proc}` native, `{funcName, args, body}` closure,
    `{quote}` wrapper or `undefined`. */
module Values {

  datatype Option<+T> = None | Some(value: T)

  /** An exact decimal `mantissa * 10^exponent`. */
  datatype Decimal = Decimal(mantissa: int, exponent: int)

  /** A JS number as produced by `parseFloat`: finite, or an infinity
      (NaN never survives `parseFloat` in the reader). */
  datatype Num = Finite(d: Decimal) | Infinity(negative: bool)

  /** Which host callback a native function runs: the one of `not`, or
      the one built with `eval` for a binary operator. */
  datatype Proc = Negate | Binary(op: string)

  datatype Expr =
    | Bool(b: bool)
    | Number(n: Num)
    | Str(s: string)
    | Sym(name: string)
    | Seq(items: seq<Expr>)
    | Native(nativeName: string, proc: Proc)
      /** `funcName` is `undefined` (None) when the defined head was not a symbol */
    | Closure(funcName: Option<string>, args: seq<Expr>, body: Expr)
    | Quote(quoted: Expr)
    | Undef

  /** `isFalse`: the empty sequence and `#f` are false; everything else,
      `undefined` included, is not. */
  predicate IsFalse(e: Expr) {
    (e.Seq? && |e.items| == 0) || e == Bool(false)
  }

  /** `isFunction`: an object whose `funcName` is truthy, that is a
      non-empty string. */
  predicate IsFunction(e: Expr) {
    (e.Native? && e.nativeName != "") ||
    (e.Closure? && e.funcName.Some? && e.funcName.value != "")
  }

  /** `isSymbol`: a non-array object carrying a `symbol` key. */
  predicate IsSymbol(e: Expr) {
    e.Sym?
  }

  /** `symbol(name)` builds `{ symbol: name }`. */
  function Symbol(name: string): (r: Expr)
    ensures IsSymbol(r) && r.name == name
  {
    Sym(name)
  }

  /** The name under which a JS object stores `x[key.symbol]`: the symbol's
      name, or the string "undefined" for any other (non-undefined) value. */
  function KeyOf(e: Expr): string
    requires e != Undef
  {
    if e.Sym? then e.name else "undefined"
  }

  /** `expr[i]`, which is `undefined` past the end of the array. */
  function Arg(items: seq<Expr>, i: nat): (r: Expr)
    ensures i < |items| ==> r == items[i]
    ensures i >= |items| ==> r == Undef
  {
    if i < |items| then items[i] else Undef
  }

  /** `filter(x => x !== undefined)` */
  function DropUndef(xs: seq<Expr>): (r: seq<Expr>)
    ensures |r| <= |xs|
    ensures Undef !in r
    ensures forall x :: x in r <==> x in xs && x != Undef
    ensures Undef !in xs ==> r == xs
    ensures multiset(r) == multiset(xs)[Undef := 0]
  {
    if xs == [] then []
    else
      assert xs == [xs[0]] + xs[1..];
      if xs[0] == Undef then DropUndef(xs[1..])
      else [xs[0]] + DropUndef(xs[1..])
  }

  /** The filter keeps order: filtering a concatenation concatenates the
      filtered parts. */
  lemma {:induction false} DropUndefAppend(a: seq<Expr>, b: seq<Expr>)
    ensures DropUndef(a + b) == DropUndef(a) + DropUndef(b)
    decreases |a|
  {
    if a == [] {
      assert a + b == b;
    } else {
      assert (a + b)[0] == a[0] && (a + b)[1..] == a[1..] + b;
      DropUndefAppend(a[1..], b);
      if a[0] != Undef {
        assert [a[0]] + DropUndef(a[1..]) + DropUndef(b) == [a[0]] + (DropUndef(a[1..]) + DropUndef(b));
      }
    }
  }
}
