/** The reducer: the `define` and `if` macros, `scmApply`, the one-step
    rewrite `scmStep` and the driver `scmEval`, as functions of the `defs`
    table they read and write. A JS TypeError (reading `.symbol` of
    `undefined`) aborts the whole evaluation; writes to `defs` made before
    it stay. */
module Reducer {
  import opened Values
  import opened JsConv
  import opened Substitution
  import opened Environment

  /** The operators built with `eval` compute on the two operands'
      `parseFloat` values (None is NaN); their floating-point result is
      supplied by the host. */
  type Arith = (string, Option<Num>, Option<Num>) -> Expr

  datatype Outcome<T> = Done(value: T) | TypeError

  /** An outcome together with the `defs` table as it is afterwards. */
  datatype Run<T> = Run(out: Outcome<T>, defs: Defs)

  /** The `{ step, expr }` record `scmStep` returns. */
  datatype Reduction = Reduction(step: bool, expr: Expr)

  // ---------------------------------------------------------------------
  // The macros

  /** The `define` macro. A list head `(name params...)` binds the head's
      key to a closure over `params` with body `expr[2]` (its `funcName` is
      `undefined` unless the head is a symbol); any other target binds its
      key to `expr[2]`. Reading `.symbol` of a missing target or head
      throws. The macro's own value is `undefined`. */
  function Define(defs: Defs, items: seq<Expr>): Run<Expr> {
    var target := Arg(items, 1);
    if target.Seq? then
      var head := Arg(target.items, 0);
      if head == Undef then Run(TypeError, defs)
      else
        var name := if head.Sym? then Some(head.name) else None;
        Run(Done(Undef), defs[KeyOf(head) := Closure(name, target.items[1..], Arg(items, 2))])
    else if target == Undef then Run(TypeError, defs)
    else Run(Done(Undef), defs[KeyOf(target) := Arg(items, 2)])
  }

  /** The `if` macro: a false test (`#f` or the empty sequence) gives
      `expr[3]`, a test that is `#t` gives `expr[2]`, and any other test is
      stepped once in place, at position 1 of a copy of the form. */
  function IfStep(host: Arith, defs: Defs, e: Expr): Run<Expr>
    requires e.Seq? && |e.items| >= 1
    decreases e, 0, 0
  {
    var items := e.items;
    var test := Arg(items, 1);
    if IsFalse(test) then Run(Done(Arg(items, 3)), defs)
    else if test == Bool(true) then Run(Done(Arg(items, 2)), defs)
    else
      // a missing test is `undefined`, which steps to itself
      var r := if |items| >= 2 then StepOf(host, defs, items[1]) else Run(Done(Reduction(false, Undef)), defs);
      match r.out
      case TypeError => Run(TypeError, r.defs)
      case Done(red) => Run(Done(Seq(SetSecond(items, red.expr))), r.defs)
  }

  /** `result[1] = x` on a copy of a non-empty array. */
  function SetSecond(items: seq<Expr>, x: Expr): (r: seq<Expr>)
    requires |items| >= 1
  {
    if |items| >= 2 then items[1 := x] else items + [x]
  }

  // ---------------------------------------------------------------------
  // Application

  /** The `argSub` object after the first `n` rounds of the loop in
      `scmApply`: parameter `i` (by its key) bound to `expr[i + 1]`, a later
      parameter with the same key overriding an earlier one. */
  function ArgSubs(params: seq<Expr>, items: seq<Expr>, n: nat): Subs
    requires n <= |params| && forall i :: 0 <= i < n ==> params[i] != Undef
  {
    if n == 0 then map[]
    else ArgSubs(params, items, n - 1)[KeyOf(params[n - 1]) := Arg(items, n)]
  }

  /** `scmApply`: a native runs its host callback on the whole form; a
      closure substitutes its arguments into its body (throwing when one of
      its parameters is `undefined`). */
  function Apply(host: Arith, items: seq<Expr>): Outcome<Expr>
    requires |items| >= 1 && IsFunction(items[0])
  {
    match items[0]
    case Native(_, Negate) => Done(Bool(IsFalse(Arg(items, 1))))
    case Native(_, Binary(op)) => Done(host(op, ToNumber(Arg(items, 1)), ToNumber(Arg(items, 2))))
    case Closure(_, params, body) =>
      if Undef in params then TypeError
      else Done(Substituted(ArgSubs(params, items, |params|), body))
  }

  // ---------------------------------------------------------------------
  // One step

  function Exprs(children: seq<Reduction>): (r: seq<Expr>)
    ensures |r| == |children| && forall k :: 0 <= k < |children| ==> r[k] == children[k].expr
  {
    seq(|children|, k requires 0 <= k < |children| => children[k].expr)
  }

  predicate AnyStep(children: seq<Reduction>) {
    exists k :: 0 <= k < |children| && children[k].step
  }

  /** A macro's value reported as a step. */
  function Stepped(r: Run<Expr>): Run<Reduction> {
    match r.out
    case TypeError => Run(TypeError, r.defs)
    case Done(x) => Run(Done(Reduction(true, x)), r.defs)
  }

  /** The macro a form's head names, if any. */
  function MacroOf(e: Expr): Option<Macro>
    requires e.Seq?
  {
    Resolved(Arg(e.items, 0), [Macros()])
  }

  /** `scmStep`. A non-sequence steps to its binding in `defs` (reporting
      no step when that binding is a function), a quote and anything
      unbound stay put; a macro form runs its macro; otherwise every child
      is stepped, in order, and then the form is rebuilt from the children
      that are not `undefined` if one of them stepped, applied if its head
      is a function, and left alone if not. */
  function StepOf(host: Arith, defs: Defs, e: Expr): Run<Reduction>
    decreases e, 1
  {
    if !e.Seq? then
      if e.Quote? then Run(Done(Reduction(false, e)), defs)
      else
        var resolved := match Resolved(e, [defs]) case Some(v) => v case None => Undef;
        if resolved != Undef then Run(Done(Reduction(!IsFunction(resolved), resolved)), defs)
        else Run(Done(Reduction(false, e)), defs)
    else
      match MacroOf(e)
      case Some(DefineMacro) => Stepped(Define(defs, e.items))
      case Some(IfMacro) => Stepped(IfStep(host, defs, e))
      case None =>
        var r := StepChildren(host, defs, e, 0);
        match r.out
        case TypeError => Run(TypeError, r.defs)
        case Done(children) => Combine(host, e, children, r.defs)
  }

  /** `expr.map(scmStep)` from child `i` on, each child seeing the `defs`
      the previous ones left. */
  function StepChildren(host: Arith, defs: Defs, e: Expr, i: nat): (r: Run<seq<Reduction>>)
    requires e.Seq? && i <= |e.items|
    ensures r.out.Done? ==> |r.out.value| == |e.items| - i
    decreases e, 0, |e.items| - i
  {
    if i == |e.items| then Run(Done([]), defs)
    else
      var r := StepOf(host, defs, e.items[i]);
      match r.out
      case TypeError => Run(TypeError, r.defs)
      case Done(c) =>
        var rest := StepChildren(host, r.defs, e, i + 1);
        match rest.out
        case TypeError => Run(TypeError, rest.defs)
        case Done(cs) => Run(Done([c] + cs), rest.defs)
  }

  /** The last part of `scmStep` on a form without a macro head. */
  function Combine(host: Arith, e: Expr, children: seq<Reduction>, defs: Defs): Run<Reduction> {
    var exprs := DropUndef(Exprs(children));
    if AnyStep(children) then Run(Done(Reduction(true, Seq(exprs))), defs)
    else if |children| > 0 && IsFunction(children[0].expr) then
      assert exprs[0] == children[0].expr;
      match Apply(host, exprs)
      case TypeError => Run(TypeError, defs)
      case Done(x) => Run(Done(Reduction(true, x)), defs)
    else Run(Done(Reduction(false, e)), defs)
  }

  // ---------------------------------------------------------------------
  // The driver

  /** `scmEval` given at most `fuel` rounds of its do-while loop: the
      expression of the first step that reports no step, None when the
      fuel runs out first. */
  function Evaluated(host: Arith, defs: Defs, e: Expr, fuel: nat): Run<Option<Expr>>
    decreases fuel
  {
    if fuel == 0 then Run(Done(None), defs)
    else
      var r := StepOf(host, defs, e);
      match r.out
      case TypeError => Run(TypeError, r.defs)
      case Done(red) =>
        if red.step then Evaluated(host, r.defs, red.expr, fuel - 1)
        else Run(Done(Some(red.expr)), r.defs)
  }

  // ---------------------------------------------------------------------
  // Properties

  /** An atom never throws and never writes `defs`; it steps exactly when
      it is a symbol bound to a value other than `undefined` and other than
      a function, and a symbol bound to a function is replaced by it
      without a reported step. A quote never steps. */
  lemma StepAtom(host: Arith, defs: Defs, e: Expr)
    requires !e.Seq?
    ensures StepOf(host, defs, e).defs == defs && StepOf(host, defs, e).out.Done?
    ensures e.Quote? ==> StepOf(host, defs, e).out.value == Reduction(false, e)
    ensures e.Sym? && e.name in defs && defs[e.name] != Undef ==>
      StepOf(host, defs, e).out.value == Reduction(!IsFunction(defs[e.name]), defs[e.name])
    ensures !(e.Sym? && e.name in defs && defs[e.name] != Undef) ==>
      StepOf(host, defs, e).out.value == Reduction(false, e)
  {
  }

  /** A form headed by `define` or `if` always reports a step (or throws),
      whatever `defs` binds those names to. */
  lemma MacroAlwaysSteps(host: Arith, defs: Defs, e: Expr)
    requires e.Seq? && |e.items| >= 1 && (e.items[0] == Sym("define") || e.items[0] == Sym("if"))
    ensures StepOf(host, defs, e).out.Done? ==> StepOf(host, defs, e).out.value.step
  {
    assert Arg(e.items, 0) == e.items[0];
    assert MacroOf(e).Some?;
  }

  /** The three cases of `if`. */
  lemma IfCases(host: Arith, defs: Defs, e: Expr)
    requires e.Seq? && |e.items| >= 1 && e.items[0] == Sym("if")
    ensures IsFalse(Arg(e.items, 1)) ==>
      StepOf(host, defs, e) == Run(Done(Reduction(true, Arg(e.items, 3))), defs)
    ensures Arg(e.items, 1) == Bool(true) ==>
      StepOf(host, defs, e) == Run(Done(Reduction(true, Arg(e.items, 2))), defs)
    ensures !IsFalse(Arg(e.items, 1)) && Arg(e.items, 1) != Bool(true) ==>
      var r := StepOf(host, defs, Arg(e.items, 1));
      StepOf(host, defs, e) ==
        match r.out
        case TypeError => Run(TypeError, r.defs)
        case Done(red) => Run(Done(Reduction(true, Seq(SetSecond(e.items, red.expr)))), r.defs)
  {
    assert Arg(e.items, 0) == e.items[0];
    assert MacroOf(e) == Some(IfMacro);
  }

  /** An `if` without an else branch whose test is false yields
      `undefined`, not `#f`. */
  lemma IfWithoutElse(host: Arith, defs: Defs, test: Expr, consequent: Expr)
    requires IsFalse(test)
    ensures StepOf(host, defs, Seq([Sym("if"), test, consequent])) == Run(Done(Reduction(true, Undef)), defs)
  {
    IfCases(host, defs, Seq([Sym("if"), test, consequent]));
  }

  /** An `if` whose test is an unbound symbol reports a step that changes
      nothing: the test steps to itself and the copy equals the form. */
  lemma IfUnboundTest(host: Arith, defs: Defs, name: string, rest: seq<Expr>)
    requires name !in defs
    ensures var e := Seq([Sym("if"), Sym(name)] + rest);
      StepOf(host, defs, e) == Run(Done(Reduction(true, e)), defs)
  {
    var e := Seq([Sym("if"), Sym(name)] + rest);
    assert e.items[0] == Sym("if") && e.items[1] == Sym(name);
    IfCases(host, defs, e);
    StepAtom(host, defs, Sym(name));
    assert SetSecond(e.items, Sym(name)) == e.items;
  }

  /** Hence `scmEval` never returns on such a form: every fuel bound runs
      out, and `defs` is left as it was. */
  lemma {:induction false} IfUnboundDiverges(host: Arith, defs: Defs, name: string, rest: seq<Expr>, fuel: nat)
    requires name !in defs
    ensures Evaluated(host, defs, Seq([Sym("if"), Sym(name)] + rest), fuel) == Run(Done(None), defs)
    decreases fuel
  {
    if fuel > 0 {
      IfUnboundTest(host, defs, name, rest);
      IfUnboundDiverges(host, defs, name, rest, fuel - 1);
    }
  }

  /** Stepping the test in place changes position 1 only, and supplies it
      when the form had no test. */
  lemma SetSecondOnly(items: seq<Expr>, x: Expr)
    requires |items| >= 1
    ensures |SetSecond(items, x)| == if |items| >= 2 then |items| else 2
    ensures SetSecond(items, x)[1] == x
    ensures forall k :: 0 <= k < |items| && k != 1 ==> SetSecond(items, x)[k] == items[k]
  {
  }

  /** After `(define name value)` the name resolves to the value. */
  lemma DefineThenLookup(host: Arith, defs: Defs, name: string, value: Expr, rest: seq<Expr>)
    ensures var form := Seq([Sym("define"), Sym(name), value] + rest);
      var r := StepOf(host, defs, form);
      r == Run(Done(Reduction(true, Undef)), defs[name := value]) &&
      (value != Undef ==>
        StepOf(host, r.defs, Sym(name)) == Run(Done(Reduction(!IsFunction(value), value)), r.defs))
  {
    var form := Seq([Sym("define"), Sym(name), value] + rest);
    assert Arg(form.items, 0) == Sym("define");
    assert MacroOf(form) == Some(DefineMacro);
    assert Arg(form.items, 1) == Sym(name) && Arg(form.items, 2) == value;
  }

  /** `(define (name params...) body)` registers a closure named `name`
      over exactly those parameters and that body. */
  lemma DefineFunction(host: Arith, defs: Defs, name: string, params: seq<Expr>, body: Expr, rest: seq<Expr>)
    ensures var form := Seq([Sym("define"), Seq([Sym(name)] + params), body] + rest);
      StepOf(host, defs, form) ==
        Run(Done(Reduction(true, Undef)), defs[name := Closure(Some(name), params, body)])
  {
    var form := Seq([Sym("define"), Seq([Sym(name)] + params), body] + rest);
    assert form.items[1] == Seq([Sym(name)] + params) && form.items[2] == body;
    assert Arg(form.items, 0) == Sym("define");
    assert MacroOf(form) == Some(DefineMacro);
    assert ([Sym(name)] + params)[1..] == params;
  }

  /** The keys of `argSub` are exactly the keys of the parameters. */
  lemma {:induction false} ArgSubsKeys(params: seq<Expr>, items: seq<Expr>, n: nat, key: string)
    requires n <= |params| && forall i :: 0 <= i < n ==> params[i] != Undef
    ensures key in ArgSubs(params, items, n) <==> exists i :: 0 <= i < n && KeyOf(params[i]) == key
  {
    if n > 0 {
      ArgSubsKeys(params, items, n - 1, key);
    }
  }

  /** Parameter `i` is bound to `expr[i + 1]` (`undefined` when the
      argument is missing) unless a later parameter has the same key. */
  lemma {:induction false} ArgSubsBinding(params: seq<Expr>, items: seq<Expr>, n: nat, i: nat)
    requires n <= |params| && forall j :: 0 <= j < n ==> params[j] != Undef
    requires i < n && forall j :: i < j < n ==> KeyOf(params[j]) != KeyOf(params[i])
    ensures KeyOf(params[i]) in ArgSubs(params, items, n)
    ensures ArgSubs(params, items, n)[KeyOf(params[i])] == Arg(items, i + 1)
  {
    if i < n - 1 {
      ArgSubsBinding(params, items, n - 1, i);
    }
  }

  /** Parameters that are symbols with distinct names. */
  predicate DistinctNames(params: seq<Expr>) {
    (forall i :: 0 <= i < |params| ==> params[i].Sym?) &&
    forall i, j :: 0 <= i < j < |params| ==> params[i] != params[j]
  }

  /** Applying a closure with distinct parameter names substitutes, into
      its body, argument `i + 1` for parameter `i`: missing arguments are
      `undefined`, extra arguments are ignored, and no other name is
      touched. */
  lemma ApplyClosure(host: Arith, items: seq<Expr>)
    requires |items| >= 1 && IsFunction(items[0]) && items[0].Closure?
    requires DistinctNames(items[0].args)
    ensures Apply(host, items).Done?
    ensures var params := items[0].args;
      var subs := ArgSubs(params, items, |params|);
      Apply(host, items).value == Substituted(subs, items[0].body) &&
      (forall i :: 0 <= i < |params| ==> params[i].name in subs && subs[params[i].name] == Arg(items, i + 1)) &&
      (forall key :: key in subs ==> exists i :: 0 <= i < |params| && params[i].name == key)
  {
    var params := items[0].args;
    assert Undef !in params;
    var subs := ArgSubs(params, items, |params|);
    forall i | 0 <= i < |params|
      ensures params[i].name in subs && subs[params[i].name] == Arg(items, i + 1)
    {
      ArgSubsBinding(params, items, |params|, i);
    }
    forall key | key in subs
      ensures exists i :: 0 <= i < |params| && params[i].name == key
    {
      ArgSubsKeys(params, items, |params|, key);
    }
  }

  /** `not` of a boolean, from the builtins: two steps, one to apply and
      one that finds nothing left to do. */
  lemma EvalNot(host: Arith, b: bool)
    ensures Evaluated(host, Builtins(), Seq([Sym("not"), Bool(b)]), 2) ==
      Run(Done(Some(Bool(!b))), Builtins())
  {
    var defs := Builtins();
    var e := Seq([Sym("not"), Bool(b)]);
    assert MacroOf(e) == None;
    var c0 := StepOf(host, defs, Sym("not"));
    assert c0 == Run(Done(Reduction(false, Native("not", Negate))), defs);
    var c1 := StepOf(host, defs, Bool(b));
    assert c1 == Run(Done(Reduction(false, Bool(b))), defs);
    var children := [Reduction(false, Native("not", Negate)), Reduction(false, Bool(b))];
    assert e.items[0] == Sym("not") && e.items[1] == Bool(b);
    assert StepChildren(host, defs, e, 2) == Run(Done([]), defs);
    assert StepOf(host, defs, e.items[1]) == c1;
    assert [children[1]] + [] == [children[1]];
    assert StepChildren(host, defs, e, 1) == Run(Done([children[1]]), defs);
    assert StepOf(host, defs, e.items[0]) == c0;
    assert [children[0]] + [children[1]] == children;
    assert StepChildren(host, defs, e, 0) == Run(Done(children), defs);
    assert !AnyStep(children);
    assert Exprs(children) == [Native("not", Negate), Bool(b)];
    assert StepOf(host, defs, e) == Run(Done(Reduction(true, Bool(!b))), defs);
    StepAtom(host, defs, Bool(!b));
  }

  /** Every child of a form steps in the same round, not only the first
      one that can: `(x y)`, with both names bound to values that are not
      functions, becomes the pair of their values in one step. */
  lemma StepsEveryChild(host: Arith, defs: Defs, x: string, y: string)
    requires x !in Macros()
    requires x in defs && defs[x] != Undef && !IsFunction(defs[x])
    requires y in defs && defs[y] != Undef && !IsFunction(defs[y])
    ensures StepOf(host, defs, Seq([Sym(x), Sym(y)])) ==
      Run(Done(Reduction(true, Seq([defs[x], defs[y]]))), defs)
  {
    var e := Seq([Sym(x), Sym(y)]);
    assert MacroOf(e) == None;
    var cx, cy := Reduction(true, defs[x]), Reduction(true, defs[y]);
    assert StepOf(host, defs, e.items[1]) == Run(Done(cy), defs);
    assert StepChildren(host, defs, e, 2) == Run(Done([]), defs);
    assert [cy] + [] == [cy];
    assert StepChildren(host, defs, e, 1) == Run(Done([cy]), defs);
    assert StepOf(host, defs, e.items[0]) == Run(Done(cx), defs);
    assert [cx] + [cy] == [cx, cy];
    assert StepChildren(host, defs, e, 0) == Run(Done([cx, cy]), defs);
    assert AnyStep([cx, cy]) by {
      assert [cx, cy][0].step;
    }
    assert Exprs([cx, cy]) == [defs[x], defs[y]];
    assert DropUndef([defs[x], defs[y]]) == [defs[x], defs[y]];
  }

  /** A step that reports no step wrote nothing to `defs`: only macros
      write, and a macro form always reports a step. */
  lemma {:induction false} IdleKeepsDefs(host: Arith, defs: Defs, e: Expr)
    ensures var r := StepOf(host, defs, e);
      r.out.Done? && !r.out.value.step ==> r.defs == defs
    decreases e, 1
  {
    if e.Seq? && MacroOf(e).None? {
      IdleChildrenKeepDefs(host, defs, e, 0);
    }
  }

  lemma {:induction false} IdleChildrenKeepDefs(host: Arith, defs: Defs, e: Expr, i: nat)
    requires e.Seq? && i <= |e.items|
    ensures var r := StepChildren(host, defs, e, i);
      r.out.Done? && !AnyStep(r.out.value) ==> r.defs == defs
    decreases e, 0, |e.items| - i
  {
    if i < |e.items| {
      var r := StepOf(host, defs, e.items[i]);
      IdleKeepsDefs(host, defs, e.items[i]);
      if r.out.Done? {
        var rest := StepChildren(host, r.defs, e, i + 1);
        IdleChildrenKeepDefs(host, r.defs, e, i + 1);
        if rest.out.Done? && !AnyStep([r.out.value] + rest.out.value) {
          assert !AnyStep(rest.out.value) by {
            forall k | 0 <= k < |rest.out.value|
              ensures !rest.out.value[k].step
            {
              assert ([r.out.value] + rest.out.value)[k + 1] == rest.out.value[k];
            }
          }
          assert !r.out.value.step by {
            assert ([r.out.value] + rest.out.value)[0] == r.out.value;
          }
        }
      }
    }
  }

  /** A form with no macro head, none of whose children steps and whose
      head does not become a function, is returned as it is, with `defs`
      untouched. */
  lemma IdleForm(host: Arith, defs: Defs, e: Expr)
    requires e.Seq? && MacroOf(e).None?
    requires StepChildren(host, defs, e, 0).out.Done?
    requires var cs := StepChildren(host, defs, e, 0).out.value;
      !AnyStep(cs) && (|cs| == 0 || !IsFunction(cs[0].expr))
    ensures StepOf(host, defs, e) == Run(Done(Reduction(false, e)), defs)
  {
    IdleChildrenKeepDefs(host, defs, e, 0);
  }

  /** When a child steps, the form becomes its children's results with the
      `undefined` ones dropped. */
  lemma SteppedForm(host: Arith, defs: Defs, e: Expr)
    requires e.Seq? && MacroOf(e).None?
    requires StepChildren(host, defs, e, 0).out.Done?
    requires AnyStep(StepChildren(host, defs, e, 0).out.value)
    ensures var r := StepChildren(host, defs, e, 0);
      StepOf(host, defs, e) == Run(Done(Reduction(true, Seq(DropUndef(Exprs(r.out.value))))), r.defs)
    ensures StepOf(host, defs, e).out.value.expr.Seq?
    ensures |StepOf(host, defs, e).out.value.expr.items| <= |e.items|
    ensures Undef !in StepOf(host, defs, e).out.value.expr.items
  {
  }

  /** A result that reports no step is a fixpoint: stepping it again, in
      the `defs` it left, reports no step, returns it, and writes nothing. */
  lemma IdleIsFixpoint(host: Arith, defs: Defs, e: Expr)
    requires StepOf(host, defs, e).out.Done? && !StepOf(host, defs, e).out.value.step
    ensures var x := StepOf(host, defs, e).out.value.expr;
      StepOf(host, defs, e).defs == defs &&
      StepOf(host, defs, x) == Run(Done(Reduction(false, x)), defs)
  {
    IdleKeepsDefs(host, defs, e);
    var x := StepOf(host, defs, e).out.value.expr;
    if !e.Seq? {
      StepAtom(host, defs, e);
      if x != e {
        StepAtom(host, defs, x);
      }
    }
  }

  /** What `scmEval` returns is an expression on which `scmStep` reports
      no step, in the `defs` the evaluation left. */
  lemma {:induction false} EvalFixpoint(host: Arith, defs: Defs, e: Expr, fuel: nat)
    requires Evaluated(host, defs, e, fuel).out.Done?
    requires Evaluated(host, defs, e, fuel).out.value.Some?
    ensures var r := Evaluated(host, defs, e, fuel);
      StepOf(host, r.defs, r.out.value.value) == Run(Done(Reduction(false, r.out.value.value)), r.defs)
    decreases fuel
  {
    var r := StepOf(host, defs, e);
    if r.out.value.step {
      EvalFixpoint(host, r.defs, r.out.value.expr, fuel - 1);
    } else {
      IdleIsFixpoint(host, defs, e);
    }
  }

  /** More fuel does not change a finished evaluation (a value or a
      TypeError): the fuel only bounds a loop that has already stopped. */
  lemma {:induction false} EvalFuelMonotone(host: Arith, defs: Defs, e: Expr, fuel: nat, more: nat)
    requires fuel <= more
    requires Evaluated(host, defs, e, fuel).out != Done(None)
    ensures Evaluated(host, defs, e, more) == Evaluated(host, defs, e, fuel)
    decreases fuel
  {
    var r := StepOf(host, defs, e);
    if r.out.Done? && r.out.value.step {
      EvalFuelMonotone(host, r.defs, r.out.value.expr, fuel - 1, more - 1);
    }
  }
}
