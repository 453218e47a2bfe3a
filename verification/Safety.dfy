/** Evaluation of a well-scoped program never gets stuck. */
module Safety {
  import opened Prelude
  import opened Ast
  import opened Machine
  import opened Codegen
  import opened Semantics
  import opened Scoping

  /** What was known when an expression was checked is right about the program's functions. */
  ghost predicate Agrees(fns: Arities, p: Program) {
    forall f :: f in fns && f in p ==> fns[f] == |p[f].params|
  }

  ghost predicate Operators(p: Program) {
    && (forall op: char :: Symbol(op) && UnaryName(op) in p ==> |p[UnaryName(op)].params| == 1)
    && (forall op: char :: Symbol(op) && BinaryName(op) in p ==> |p[BinaryName(op)].params| == 2)
  }

  ghost predicate BodyOk(p: Program, src: Source, fns: Arities) {
    Agrees(fns, p) && SymbolOps(src.body) && WellScoped(src.body, (set x | x in src.params), fns)
  }

  ghost predicate Sound(p: Program) {
    Operators(p) && forall f :: f in p ==> exists fns: Arities :: BodyOk(p, p[f], fns)
  }

  /** Not stuck, and the same variables exist afterwards. */
  ghost predicate Safe<T>(r: Outcome<T>, vars: Vars) {
    !r.Stuck? && (r.Done? ==> r.vars.Keys == vars.Keys)
  }

  lemma {:induction false} BindParamsKeys(params: seq<string>, args: seq<Double>)
    requires |params| == |args|
    ensures BindParams(params, args).Keys == set x | x in params
    decreases |params|
  {
    if params == [] {
      assert BindParams(params, args).Keys == {};
    } else {
      var n := |params| - 1;
      BindParamsKeys(params[..n], args[..n]);
      assert params == params[..n] + [params[n]];
    }
  }

  lemma {:induction false} ApplySafe(k: nat, m: Arith, p: Program, f: string, args: seq<Double>, vars: Vars, t: Trace)
    requires Sound(p) && (f in p ==> |args| == |p[f].params|)
    ensures Safe(Apply(k, m, p, f, args, vars, t), vars)
    decreases k, 0
  {
    if f in p && k > 0 {
      var fns: Arities :| BodyOk(p, p[f], fns);
      BindParamsKeys(p[f].params, args);
      EvalSafe(k - 1, m, p, p[f].body, BindParams(p[f].params, args), t, fns);
    }
  }

  lemma {:induction false} ArgsSafe(k: nat, m: Arith, p: Program, args: seq<Expr>, vars: Vars, t: Trace, fns: Arities)
    requires Sound(p) && Agrees(fns, p) && WellScopedAll(args, vars.Keys, fns)
    requires forall i :: 0 <= i < |args| ==> SymbolOps(args[i])
    ensures Safe(EvalArgs(k, m, p, args, vars, t), vars)
    ensures var r := EvalArgs(k, m, p, args, vars, t); r.Done? ==> |r.value| == |args|
    decreases k, 1, args, 0
  {
    hide Sound, Agrees, Eval, WellScoped, SymbolOps;
    if args != [] {
      EvalSafe(k, m, p, args[0], vars, t, fns);
      var r := Eval(k, m, p, args[0], vars, t);
      if r.Done? {
        ArgsSafe(k, m, p, args[1..], r.vars, r.trace, fns);
      }
    }
  }

  lemma {:induction false} OptionSafe(k: nat, m: Arith, p: Program, e: Option<Expr>, d: Double, vars: Vars, t: Trace,
                                      fns: Arities)
    requires Sound(p) && Agrees(fns, p) && WellScopedOption(e, vars.Keys, fns) && (e.Some? ==> SymbolOps(e.value))
    ensures Safe(EvalOption(k, m, p, e, d, vars, t), vars)
    decreases k, 1, e, 5
  {
    if e.Some? {
      EvalSafe(k, m, p, e.value, vars, t, fns);
    }
  }

  lemma VarSymbols(e: Expr)
    requires e.VarIn? && SymbolOps(e)
    ensures SymbolOps(e.body)
    ensures forall i :: 0 <= i < |e.bindings| && e.bindings[i].init.Some? ==> SymbolOps(e.bindings[i].init.value)
  {
  }

  lemma OneMoreName(bs: seq<Binding>, scope: set<string>)
    requires bs != []
    ensures (scope + {bs[0].name}) + (set x | x in Names(bs[1..])) == scope + (set x | x in Names(bs))
  {
    NameSet(bs);
  }

  lemma {:induction false} VarInSafe(k: nat, m: Arith, p: Program, e: Expr, i: nat, vars: Vars, t: Trace, fns: Arities)
    requires Sound(p) && Agrees(fns, p) && e.VarIn? && i <= |e.bindings| && SymbolOps(e)
    requires WellScopedBindings(e.bindings[i..], vars.Keys, fns)
    requires WellScoped(e.body, vars.Keys + (set x | x in Names(e.bindings[i..])), fns)
    ensures Safe(EvalVarIn(k, m, p, e, i, vars, t), vars)
    decreases k, 1, e, 1, |e.bindings| - i
  {
    VarSymbols(e);
    hide Sound, Agrees, Eval, EvalOption, WellScoped, WellScopedOption, Names, SymbolOps;
    var bs := e.bindings[i..];
    if i == |e.bindings| {
      assert Names(bs) == [];
      assert vars.Keys + (set x | x in Names(bs)) == vars.Keys;
      EvalSafe(k, m, p, e.body, vars, t, fns);
    } else {
      var b := e.bindings[i];
      assert bs[0] == b && bs[1..] == e.bindings[i + 1..];
      OptionSafe(k, m, p, b.init, m.zero, vars, t, fns);
      var r := EvalOption(k, m, p, b.init, m.zero, vars, t);
      if r.Done? {
        var vars1 := r.vars[b.name := r.value];
        assert vars1.Keys == vars.Keys + {b.name};
        OneMoreName(bs, vars.Keys);
        VarInSafe(k, m, p, e, i + 1, vars1, r.trace, fns);
      }
    }
  }

  lemma {:induction false} LoopSafe(k: nat, m: Arith, p: Program, e: Expr, vars: Vars, t: Trace, fns: Arities)
    requires Sound(p) && Agrees(fns, p) && e.For? && e.name in vars && SymbolOps(e)
    requires WellScoped(e.body, vars.Keys, fns) && WellScopedOption(e.step, vars.Keys, fns)
             && WellScoped(e.end, vars.Keys, fns)
    ensures Safe(EvalLoop(k, m, p, e, vars, t), vars)
    decreases k, 1, e, 0
  {
    hide Sound, Agrees, Eval, EvalOption, WellScoped, WellScopedOption;
    EvalSafe(k, m, p, e.body, vars, t, fns);
    var r1 := Eval(k, m, p, e.body, vars, t);
    if r1.Done? {
      OptionSafe(k, m, p, e.step, m.unit, r1.vars, r1.trace, fns);
      var r2 := EvalOption(k, m, p, e.step, m.unit, r1.vars, r1.trace);
      if r2.Done? {
        EvalSafe(k, m, p, e.end, r2.vars, r2.trace, fns);
        var r3 := Eval(k, m, p, e.end, r2.vars, r2.trace);
        if r3.Done? {
          var vars4 := r3.vars[e.name := m.add(r3.vars[e.name], r2.value)];
          assert vars4.Keys == vars.Keys;
          if m.one(r3.value, m.zero) && k > 0 {
            LoopSafe(k - 1, m, p, e, vars4, r3.trace, fns);
          }
        }
      }
    }
  }

  lemma {:induction false} BinarySafe(k: nat, m: Arith, p: Program, e: Expr, vars: Vars, t: Trace, fns: Arities)
    requires Sound(p) && Agrees(fns, p) && e.Binary? && WellScoped(e, vars.Keys, fns) && SymbolOps(e)
    ensures Safe(EvalBinary(k, m, p, e, vars, t), vars)
    decreases k, 1, e, 0
  {
    hide Agrees, Eval, Apply;
    if e.op == '=' {
      EvalSafe(k, m, p, e.rhs, vars, t, fns);
    } else {
      EvalSafe(k, m, p, e.lhs, vars, t, fns);
      var r1 := Eval(k, m, p, e.lhs, vars, t);
      if r1.Done? {
        EvalSafe(k, m, p, e.rhs, r1.vars, r1.trace, fns);
        var r2 := Eval(k, m, p, e.rhs, r1.vars, r1.trace);
        if r2.Done? && UserOperator(e.op) {
          ApplySafe(k, m, p, BinaryName(e.op), [r1.value, r2.value], r2.vars, r2.trace);
        }
      }
    }
  }

  /** A well-scoped expression is never stuck and leaves the set of variables as it was. */
  lemma {:induction false} EvalSafe(k: nat, m: Arith, p: Program, e: Expr, vars: Vars, t: Trace, fns: Arities)
    requires Sound(p) && Agrees(fns, p) && WellScoped(e, vars.Keys, fns) && SymbolOps(e)
    ensures Safe(Eval(k, m, p, e, vars, t), vars)
    decreases k, 1, e, 4
  {
    hide EvalBinary, EvalVarIn, EvalLoop, EvalArgs, Apply;
    match e
    case Number(_) =>
    case Variable(_) =>
    case VarIn(bs, _) =>
      assert bs[0..] == bs;
      VarInSafe(k, m, p, e, 0, vars, t, fns);
    case Unary(op, a) =>
      EvalSafe(k, m, p, a, vars, t, fns);
      var r := Eval(k, m, p, a, vars, t);
      if r.Done? {
        ApplySafe(k, m, p, UnaryName(op), [r.value], r.vars, r.trace);
      }
    case Binary(_, _, _) => BinarySafe(k, m, p, e, vars, t, fns);
    case If(c, a, b) =>
      EvalSafe(k, m, p, c, vars, t, fns);
      var r := Eval(k, m, p, c, vars, t);
      if r.Done? {
        EvalSafe(k, m, p, if m.one(r.value, m.zero) then a else b, r.vars, r.trace, fns);
      }
    case For(x, start, _, _, _) =>
      EvalSafe(k, m, p, start, vars, t, fns);
      var r := Eval(k, m, p, start, vars, t);
      if r.Done? {
        var vars1 := r.vars[x := r.value];
        assert vars1.Keys == vars.Keys + {x};
        LoopSafe(k, m, p, e, vars1, r.trace, fns);
      }
    case Call(f, args) =>
      ArgsSafe(k, m, p, args, vars, t, fns);
      var r := EvalArgs(k, m, p, args, vars, t);
      if r.Done? {
        ApplySafe(k, m, p, f, r.value, r.vars, r.trace);
      }
  }
}
