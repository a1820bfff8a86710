/** The two lookup tables of the visualiser: `defs` (names to values,
    seeded with the natives and grown by `define`) and the fixed `macros`
    table, and `resolveSymbolIn`, which looks a symbol up in a list of
    such tables. */
module Environment {
  import opened Values

  /** The global `defs` object. A key may be bound to `undefined`
      (`(define x)`), which `in` still reports as present. */
  type Defs = map<string, Expr>

  datatype Macro = DefineMacro | IfMacro

  /** `macros`: `define` and `if`. */
  function Macros(): map<string, Macro> {
    map["define" := DefineMacro, "if" := IfMacro]
  }

  /** The natives `defun` installs: `not`, the nine operators, and `=`,
      which is the very object bound to `==` (so its name is "=="). */
  function Builtins(): (d: Defs)
    ensures forall n :: n in d ==> d[n].Native? && d[n].nativeName != ""
    ensures forall n :: n in d && n != "=" ==> d[n].nativeName == n
    ensures "=" in d && "==" in d && d["="] == d["=="]
  {
    map[
      "not" := Native("not", Negate),
      ">" := Native(">", Binary(">")),
      "<" := Native("<", Binary("<")),
      ">=" := Native(">=", Binary(">=")),
      "<=" := Native("<=", Binary("<=")),
      "==" := Native("==", Binary("==")),
      "+" := Native("+", Binary("+")),
      "-" := Native("-", Binary("-")),
      "*" := Native("*", Binary("*")),
      "/" := Native("/", Binary("/")),
      "=" := Native("==", Binary("=="))
    ]
  }

  /** The binding of `name` in the first table, in order, that has the
      key; None when no table has it. */
  function FirstBinding<V>(name: string, dicts: seq<map<string, V>>): (r: Option<V>)
    ensures r.None? <==> forall i :: 0 <= i < |dicts| ==> name !in dicts[i]
  {
    if dicts == [] then None
    else if name in dicts[0] then Some(dicts[0][name])
    else FirstBinding(name, dicts[1..])
  }

  /** What `resolveSymbolIn(expr, dicts)` returns: None (`undefined`) for
      anything but a symbol, otherwise the first binding of its name. */
  function Resolved<V>(e: Expr, dicts: seq<map<string, V>>): Option<V> {
    if IsSymbol(e) then FirstBinding(e.name, dicts) else None
  }

  /** The table that answers is the first one holding the name; later
      tables are never consulted. */
  lemma {:induction false} FirstBindingAt<V>(name: string, dicts: seq<map<string, V>>, i: nat)
    requires i < |dicts| && name in dicts[i]
    requires forall j :: 0 <= j < i ==> name !in dicts[j]
    ensures FirstBinding(name, dicts) == Some(dicts[i][name])
    decreases i
  {
    if i > 0 {
      FirstBindingAt(name, dicts[1..], i - 1);
    }
  }

  /** `resolveSymbolIn`, as the source writes it: a loop over the tables
      that returns from the first one holding the name. */
  method ResolveSymbolIn<V>(e: Expr, dicts: seq<map<string, V>>) returns (r: Option<V>)
    ensures r == Resolved(e, dicts)
  {
    if !IsSymbol(e) {
      return None;
    }
    var i := 0;
    while i < |dicts|
      invariant i <= |dicts|
      invariant forall j :: 0 <= j < i ==> e.name !in dicts[j]
    {
      if e.name in dicts[i] {
        FirstBindingAt(e.name, dicts, i);
        return Some(dicts[i][e.name]);
      }
      i := i + 1;
    }
    return None;
  }

  /** `resolveSymbolIn` answers from the first table, in the given order,
      that holds the symbol's name, and gives `undefined` for anything but
      a symbol. */
  lemma ResolvedFirst<V>(e: Expr, dicts: seq<map<string, V>>, i: nat)
    requires i < |dicts|
    ensures !IsSymbol(e) ==> Resolved(e, dicts) == None
    ensures IsSymbol(e) && e.name in dicts[i] && (forall j :: 0 <= j < i ==> e.name !in dicts[j]) ==>
      Resolved(e, dicts) == Some(dicts[i][e.name])
  {
    if IsSymbol(e) && e.name in dicts[i] && (forall j :: 0 <= j < i ==> e.name !in dicts[j]) {
      FirstBindingAt(e.name, dicts, i);
    }
  }
}
