/** The evaluator as the source runs it: one object holding the global
    `defs` table, which the `define` macro writes in place, with the
    reducer's loops written out. Each method is proved to compute the
    function of the reducer that specifies it, from the table it starts
    with to the table it leaves. */
module Stepper {
  import opened Values
  import opened Substitution
  import opened Environment
  import opened Reducer

  /** Children stepped so far, in front of the outcome of the rest. */
  function Prepend(done: seq<Reduction>, r: Run<seq<Reduction>>): Run<seq<Reduction>> {
    match r.out
    case TypeError => r
    case Done(cs) => Run(Done(done + cs), r.defs)
  }

  lemma PrependNothing(r: Run<seq<Reduction>>)
    ensures Prepend([], r) == r
  {
    if r.out.Done? {
      assert [] + r.out.value == r.out.value;
    }
  }

  lemma PrependOne(done: seq<Reduction>, c: Reduction, r: Run<seq<Reduction>>)
    ensures Prepend(done, Prepend([c], r)) == Prepend(done + [c], r)
  {
    if r.out.Done? {
      assert done + ([c] + r.out.value) == done + [c] + r.out.value;
    }
  }

  class Interpreter {
    /** The floating-point operators' results. */
    const host: Arith
    /** The global `defs` object. */
    var defs: Defs

    /** The table as the script leaves it after its `defun` calls. */
    constructor(host: Arith)
      ensures this.host == host && defs == Builtins()
    {
      this.host := host;
      defs := Builtins();
    }

    /** `macros['define']` */
    method Define(items: seq<Expr>) returns (out: Outcome<Expr>)
      modifies this
      ensures Run(out, defs) == Reducer.Define(old(defs), items)
    {
      var target := Arg(items, 1);
      if target.Seq? {
        var head := Arg(target.items, 0);
        if head == Undef {
          return TypeError;
        }
        var name := if head.Sym? then Some(head.name) else None;
        defs := defs[KeyOf(head) := Closure(name, target.items[1..], Arg(items, 2))];
      } else {
        if target == Undef {
          return TypeError;
        }
        defs := defs[KeyOf(target) := Arg(items, 2)];
      }
      return Done(Undef);
    }

    /** `macros['if']` */
    method If(e: Expr) returns (out: Outcome<Expr>)
      requires e.Seq? && |e.items| >= 1
      modifies this
      ensures Run(out, defs) == IfStep(host, old(defs), e)
      decreases e, 0
    {
      var items := e.items;
      var test := Arg(items, 1);
      if IsFalse(test) {
        return Done(Arg(items, 3));
      } else if test == Bool(true) {
        return Done(Arg(items, 2));
      }
      var red := Reduction(false, Undef);
      if |items| >= 2 {
        var r := Step(items[1]);
        if r.TypeError? {
          return TypeError;
        }
        red := r.value;
      }
      return Done(Seq(SetSecond(items, red.expr)));
    }

    /** `scmApply`: builds `argSub` parameter by parameter, then substitutes. */
    method Apply(items: seq<Expr>) returns (out: Outcome<Expr>)
      requires |items| >= 1 && IsFunction(items[0])
      ensures out == Reducer.Apply(host, items)
    {
      var f := items[0];
      if f.Native? {
        if f.proc.Negate? {
          return Done(Bool(IsFalse(Arg(items, 1))));
        }
        return Done(host(f.proc.op, JsConv.ToNumber(Arg(items, 1)), JsConv.ToNumber(Arg(items, 2))));
      }
      var params := f.args;
      var argSub: Subs := map[];
      for i := 0 to |params|
        invariant forall j :: 0 <= j < i ==> params[j] != Undef
        invariant argSub == ArgSubs(params, items, i)
      {
        if params[i] == Undef {
          return TypeError;
        }
        argSub := argSub[KeyOf(params[i]) := Arg(items, i + 1)];
      }
      var body := Substitute(argSub, f.body);
      return Done(body);
    }

    /** `scmStep` */
    method Step(e: Expr) returns (out: Outcome<Reduction>)
      modifies this
      ensures Run(out, defs) == StepOf(host, old(defs), e)
      decreases e, 1
    {
      if !e.Seq? {
        if e.Quote? {
          return Done(Reduction(false, e));
        }
        var found := ResolveSymbolIn(e, [defs]);
        var resolved := if found.Some? then found.value else Undef;
        if resolved != Undef {
          return Done(Reduction(!IsFunction(resolved), resolved));
        }
        return Done(Reduction(false, e));
      }
      var macro := ResolveSymbolIn(Arg(e.items, 0), [Macros()]);
      if macro == Some(DefineMacro) {
        var x := Define(e.items);
        return if x.TypeError? then TypeError else Done(Reduction(true, x.value));
      } else if macro == Some(IfMacro) {
        var x := If(e);
        return if x.TypeError? then TypeError else Done(Reduction(true, x.value));
      }
      var children: seq<Reduction> := [];
      PrependNothing(StepChildren(host, defs, e, 0));
      for i := 0 to |e.items|
        invariant Prepend(children, StepChildren(host, defs, e, i)) == StepChildren(host, old(defs), e, 0)
      {
        var c := Step(e.items[i]);
        if c.TypeError? {
          return TypeError;
        }
        PrependOne(children, c.value, StepChildren(host, defs, e, i + 1));
        children := children + [c.value];
      }
      assert children + [] == children;
      assert StepChildren(host, old(defs), e, 0) == Run(Done(children), defs);
      var exprs := DropUndef(Exprs(children));
      if AnyStep(children) {
        return Done(Reduction(true, Seq(exprs)));
      } else if |children| > 0 && IsFunction(children[0].expr) {
        assert exprs[0] == children[0].expr;
        var x := Apply(exprs);
        return if x.TypeError? then TypeError else Done(Reduction(true, x.value));
      }
      return Done(Reduction(false, e));
    }

    /** `scmEval`: steps until a step reports no step, for at most `fuel`
        rounds (None when they run out). */
    method Eval(e: Expr, fuel: nat) returns (out: Outcome<Option<Expr>>)
      modifies this
      ensures Run(out, defs) == Evaluated(host, old(defs), e, fuel)
    {
      var expr := e;
      var left := fuel;
      while left > 0
        invariant Evaluated(host, defs, expr, left) == Evaluated(host, old(defs), e, fuel)
        decreases left
      {
        var r := Step(expr);
        if r.TypeError? {
          return TypeError;
        }
        if !r.value.step {
          return Done(Some(r.value.expr));
        }
        expr := r.value.expr;
        left := left - 1;
      }
      return Done(None);
    }
  }
}
