/**
 What Kaleidoscope programs mean, without blocks, registers or slots.  Variables are a map from the
 names in scope to their values.  Evaluation is bounded by `k`, which calls and loop iterations
 consume; a program that never ends times out for every `k`.
 */
module Semantics {
  import opened Prelude
  import opened Ast
  import opened Machine

  type Vars = map<string, Double>

  datatype Source = Source(params: seq<string>, body: Expr)

  type Program = map<string, Source>

  /** A timeout says what external functions had been asked to do when the bound was reached. */
  datatype Outcome<+T> = Done(value: T, vars: Vars, trace: Trace) | Timeout(trace: Trace) | Stuck {
    predicate IsFailure() { !Done? }

    function PropagateFailure<U>(): Outcome<U>
      requires !Done?
    {
      if Timeout? then Timeout(trace) else Stuck
    }

    function Extract(): (T, Vars, Trace)
      requires Done?
    {
      (value, vars, trace)
    }
  }

  /** Leave the scope of `x`: the binding it shadowed comes back with the value it had. */
  function Unshadow(vars: Vars, x: string, outer: Vars): Vars {
    if x in outer then vars[x := outer[x]] else vars - {x}
  }

  function Operator(m: Arith, op: char, a: Double, b: Double): Double
    requires op in {'+', '-', '*', '<'}
  {
    if op == '+' then m.add(a, b)
    else if op == '-' then m.sub(a, b)
    else if op == '*' then m.mul(a, b)
    else m.ofBit(m.ult(a, b))
  }

  function BindParams(params: seq<string>, args: seq<Double>): Vars
    requires |params| == |args|
    decreases |params|
  {
    if params == [] then map[]
    else
      var n := |params| - 1;
      BindParams(params[..n], args[..n])[params[n] := args[n]]
  }

  /** A call; a function without a definition is external and its call is an event. */
  function Apply(k: nat, m: Arith, p: Program, f: string, args: seq<Double>, vars: Vars, t: Trace): Outcome<Double>
    decreases k, 0
  {
    if f !in p then Done(m.ext(f, args, t), vars, t + [Event(f, args)])
    else if k == 0 then Timeout(t)
    else if |args| != |p[f].params| then Stuck
    else
      var (v, _, t') :- Eval(k - 1, m, p, p[f].body, BindParams(p[f].params, args), t);
      Done(v, vars, t')
  }

  function EvalArgs(k: nat, m: Arith, p: Program, args: seq<Expr>, vars: Vars, t: Trace): Outcome<seq<Double>>
    decreases k, 1, args, 0
  {
    if args == [] then Done([], vars, t)
    else
      var (v, vars1, t1) :- Eval(k, m, p, args[0], vars, t);
      var (vs, vars2, t2) :- EvalArgs(k, m, p, args[1..], vars1, t1);
      Done([v] + vs, vars2, t2)
  }

  function EvalOption(k: nat, m: Arith, p: Program, e: Option<Expr>, default: Double, vars: Vars,
                      t: Trace): Outcome<Double>
    decreases k, 1, e, 5
  {
    if e.Some? then Eval(k, m, p, e.value, vars, t) else Done(default, vars, t)
  }

  /** A `var` expression from binding number `i` on: each binding's scope is everything after it. */
  function EvalVarIn(k: nat, m: Arith, p: Program, e: Expr, i: nat, vars: Vars, t: Trace): Outcome<Double>
    requires e.VarIn? && i <= |e.bindings|
    decreases k, 1, e, 1, |e.bindings| - i
  {
    if i == |e.bindings| then Eval(k, m, p, e.body, vars, t)
    else
      var x := e.bindings[i].name;
      var (v, vars1, t1) :- EvalOption(k, m, p, e.bindings[i].init, m.zero, vars, t);
      var (r, vars2, t2) :- EvalVarIn(k, m, p, e, i + 1, vars1[x := v], t1);
      Done(r, Unshadow(vars2, x, vars1), t2)
  }

  /** One pass through a loop and, if `end` was not zero before the increment, the rest of them. */
  function EvalLoop(k: nat, m: Arith, p: Program, e: Expr, vars: Vars, t: Trace): Outcome<()>
    requires e.For?
    decreases k, 1, e, 0
  {
    var (_, vars1, t1) :- Eval(k, m, p, e.body, vars, t);
    var (inc, vars2, t2) :- EvalOption(k, m, p, e.step, m.unit, vars1, t1);
    var (stop, vars3, t3) :- Eval(k, m, p, e.end, vars2, t2);
    if e.name !in vars3 then Stuck
    else
      var vars4 := vars3[e.name := m.add(vars3[e.name], inc)];
      if !m.one(stop, m.zero) then Done((), vars4, t3)
      else if k == 0 then Timeout(t3)
      else EvalLoop(k - 1, m, p, e, vars4, t3)
  }

  function EvalFor(k: nat, m: Arith, p: Program, e: Expr, vars: Vars, t: Trace): Outcome<Double>
    requires e.For?
    decreases k, 1, e, 1
  {
    var (v, vars1, t1) :- Eval(k, m, p, e.start, vars, t);
    var (_, vars2, t2) :- EvalLoop(k, m, p, e, vars1[e.name := v], t1);
    Done(m.zero, Unshadow(vars2, e.name, vars1), t2)
  }

  function EvalBinary(k: nat, m: Arith, p: Program, e: Expr, vars: Vars, t: Trace): Outcome<Double>
    requires e.Binary?
    decreases k, 1, e, 0
  {
    if e.op == '=' then
      if !e.lhs.Variable? then Stuck
      else
        var (v, vars1, t1) :- Eval(k, m, p, e.rhs, vars, t);
        if e.lhs.name in vars1 then Done(v, vars1[e.lhs.name := v], t1) else Stuck
    else
      var (a, vars1, t1) :- Eval(k, m, p, e.lhs, vars, t);
      var (b, vars2, t2) :- Eval(k, m, p, e.rhs, vars1, t1);
      if e.op in {'+', '-', '*', '<'} then Done(Operator(m, e.op, a, b), vars2, t2)
      else Apply(k, m, p, BinaryName(e.op), [a, b], vars2, t2)
  }

  function EvalIf(k: nat, m: Arith, p: Program, e: Expr, vars: Vars, t: Trace): Outcome<Double>
    requires e.If?
    decreases k, 1, e, 0
  {
    var (c, vars1, t1) :- Eval(k, m, p, e.cond, vars, t);
    if m.one(c, m.zero) then Eval(k, m, p, e.thn, vars1, t1) else Eval(k, m, p, e.els, vars1, t1)
  }

  function Eval(k: nat, m: Arith, p: Program, e: Expr, vars: Vars, t: Trace): Outcome<Double>
    decreases k, 1, e, 4
  {
    match e
    case Number(text) => Done(m.parse(text), vars, t)
    case Variable(x) => if x in vars then Done(vars[x], vars, t) else Stuck
    case VarIn(_, _) => EvalVarIn(k, m, p, e, 0, vars, t)
    case Unary(op, a) =>
      var (v, vars1, t1) :- Eval(k, m, p, a, vars, t);
      Apply(k, m, p, UnaryName(op), [v], vars1, t1)
    case Binary(_, _, _) => EvalBinary(k, m, p, e, vars, t)
    case If(_, _, _) => EvalIf(k, m, p, e, vars, t)
    case For(_, _, _, _, _) => EvalFor(k, m, p, e, vars, t)
    case Call(f, args) =>
      var (vs, vars1, t1) :- EvalArgs(k, m, p, args, vars, t);
      Apply(k, m, p, f, vs, vars1, t1)
  }
}
