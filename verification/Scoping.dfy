/**
 Which expressions `codegen` accepts: a judgement on names and arities that mentions no state, and
 that also keeps evaluation from getting stuck.
 */
module Scoping {
  import opened Prelude
  import opened Ast
  import opened Machine
  import opened Codegen
  import opened CodegenFacts
  import opened Scope

  type Arities = map<string, nat>

  /** What `getFunction` knows: the module first, then the prototypes. */
  function Known(mod: Module, protos: map<string, Prototype>): Arities {
    map f | f in mod.Keys + protos.Keys :: if f in mod then |mod[f].params| else |protos[f].params|
  }

  function KnownIn(g: Gen): Arities { Known(g.mod, g.protos) }

  predicate WellScopedOption(e: Option<Expr>, scope: set<string>, fns: Arities)
    decreases e, 1
  {
    e.Some? ==> WellScoped(e.value, scope, fns)
  }

  predicate WellScopedAll(es: seq<Expr>, scope: set<string>, fns: Arities)
    decreases es, 0
  {
    es == [] || (WellScoped(es[0], scope, fns) && WellScopedAll(es[1..], scope, fns))
  }

  /** Each initial value sees the names bound before it. */
  predicate WellScopedBindings(bs: seq<Binding>, scope: set<string>, fns: Arities)
    decreases bs, 0
  {
    bs == [] || (WellScopedOption(bs[0].init, scope, fns) && WellScopedBindings(bs[1..], scope + {bs[0].name}, fns))
  }

  /**
   Variables are in scope, functions and user-defined operators are known and calls have the right number of
   arguments.
   */
  predicate WellScoped(e: Expr, scope: set<string>, fns: Arities)
    decreases e, 0
  {
    match e
    case Number(_) => true
    case Variable(x) => x in scope
    case VarIn(bs, body) => WellScopedBindings(bs, scope, fns)
        && WellScoped(body, scope + (set x | x in Names(bs)), fns)
    case Unary(op, a) => WellScoped(a, scope, fns) && UnaryName(op) in fns
    case Binary(op, a, b) =>
      if op == '=' then a.Variable? && a.name in scope && WellScoped(b, scope, fns)
      else WellScoped(a, scope, fns) && WellScoped(b, scope, fns) && (UserOperator(op) ==> BinaryName(op) in fns)
    case If(c, a, b) => WellScoped(c, scope, fns) && WellScoped(a, scope, fns) && WellScoped(b, scope, fns)
    case For(x, start, end, step, body) =>
      && WellScoped(start, scope, fns)
      && WellScoped(body, scope + {x}, fns) && WellScopedOption(step, scope + {x}, fns)
         && WellScoped(end, scope + {x}, fns)
    case Call(f, args) => f in fns && fns[f] == |args| && WellScopedAll(args, scope, fns)
  }

  // ----- The module only gains declarations -----

  /** Between `g` and `h` only functions with a remembered prototype were declared. */
  ghost predicate Grows(g: Gen, h: Gen) {
    && h.protos == g.protos
    && (forall f :: f in g.mod ==> f in h.mod && h.mod[f] == g.mod[f])
    && (forall f :: f in h.mod && f !in g.mod ==> f in g.protos && h.mod[f] == Fn(g.protos[f].params, None))
  }

  lemma GrowsTrans(g: Gen, h: Gen, i: Gen)
    requires Grows(g, h) && Grows(h, i)
    ensures Grows(g, i)
  {
  }

  lemma GrowsKnown(g: Gen, h: Gen)
    requires Grows(g, h)
    ensures KnownIn(h) == KnownIn(g)
  {
    forall f
      ensures f in KnownIn(h) <==> f in KnownIn(g)
      ensures f in KnownIn(g) ==> KnownIn(h)[f] == KnownIn(g)[f]
    {
    }
  }

  lemma {:induction false} OptionGrows(m: Arith, g: Gen, e: Option<Expr>, d: Double)
    ensures Grows(g, GenOption(m, g, e, d).g)
    decreases e, 3
  {
    if e.Some? {
      ExprGrows(m, g, e.value);
    }
  }

  lemma {:induction false} ArgsGrows(m: Arith, g: Gen, args: seq<Expr>)
    ensures Grows(g, GenArgs(m, g, args).g)
    decreases args, 0
  {
    if args != [] {
      ExprGrows(m, g, args[0]);
      var a := GenExpr(m, g, args[0]);
      if a.Good? {
        ArgsGrows(m, a.g, args[1..]);
        GrowsTrans(g, a.g, GenArgs(m, a.g, args[1..]).g);
      }
    }
  }

  lemma {:induction false} BindingsGrow(m: Arith, g: Gen, bs: seq<Binding>, saved: map<string, Option<nat>>)
    ensures Grows(g, GenBindings(m, g, bs, saved).g)
    decreases bs, 0
  {
    if bs != [] {
      OptionGrows(m, g, bs[0].init, m.zero);
      var a := GenOption(m, g, bs[0].init, m.zero);
      if a.Good? {
        var b := Bind(a.g, bs[0].name, a.value);
        var saved1 := saved[bs[0].name := Lookup(a.g.named, bs[0].name)];
        BindingsGrow(m, b, bs[1..], saved1);
        GrowsTrans(g, b, GenBindings(m, b, bs[1..], saved1).g);
      }
    }
  }

  lemma {:induction false} VarInGrows(m: Arith, g: Gen, e: Expr)
    requires e.VarIn?
    ensures Grows(g, GenVarIn(m, g, e).g)
    decreases e, 0
  {
    BindingsGrow(m, g, e.bindings, map[]);
    var a := GenBindings(m, g, e.bindings, map[]);
    if a.Good? {
      ExprGrows(m, a.g, e.body);
      GrowsTrans(g, a.g, GenExpr(m, a.g, e.body).g);
    }
  }

  lemma {:induction false} BinaryGrows(m: Arith, g: Gen, e: Expr)
    requires e.Binary? && e.op != '='
    ensures Grows(g, GenBinary(m, g, e).g) == true
    decreases e, 0
  {
    hide GenExpr, Grows, CallOperator, BuiltIn;
    ExprGrows(m, g, e.lhs);
    var a := GenExpr(m, g, e.lhs);
    if a.Good? {
      PartGrows(m, g, a.g, e.rhs);
      var b := GenExpr(m, a.g, e.rhs);
      if b.Good? {
        OperatorGrows(m, b.g, e.op, a.value, b.value);
        GrowsTrans(g, b.g, GenBinary(m, g, e).g);
      }
    }
  }

  lemma OperatorGrows(m: Arith, g: Gen, op: char, x: Operand, y: Operand)
    ensures if UserOperator(op) then Grows(g, CallOperator(g, BinaryName(op), [x, y]).g)
            else op in {'+', '-', '*', '<'} ==> Grows(g, BuiltIn(m, g, op, x, y).0)
  {
    hide EmitBin;
    if UserOperator(op) {
      assert Grows(g, GetFunction(g, BinaryName(op)).0);
    } else if op in {'+', '-', '*', '<'} {
      BinSame(m, g, FCmpULT, x, y);
      BinSame(m, g, FAdd, x, y);
      BinSame(m, g, FSub, x, y);
      BinSame(m, g, FMul, x, y);
    }
  }

  lemma {:induction false} IfGrows(m: Arith, g: Gen, e: Expr)
    requires e.If?
    ensures Grows(g, GenIf(m, g, e).g) == true
    decreases e, 0
  {
    hide GenExpr, EmitBin, Grows;
    ExprGrows(m, g, e.cond);
    var o := GenExpr(m, g, e.cond);
    if o.Good? {
      var (g2, bit) := EmitBin(m, o.g, FCmpONE, o.value, Lit(Dbl(m.zero)));
      BinSame(m, o.g, FCmpONE, o.value, Lit(Dbl(m.zero)));
      var s1 := BeginIf(g2, bit);
      SameGrows(g, o.g, s1);
      PartGrows(m, g, s1, e.thn);
      var a := GenExpr(m, s1, e.thn);
      if a.Good? {
        var s2 := NextArm(a.g, |g2.blocks| + 2, |g2.blocks| + 1);
        SameGrows(g, a.g, s2);
        PartGrows(m, g, s2, e.els);
        SameGrows(g, GenExpr(m, s2, e.els).g, GenIf(m, g, e).g);
      }
    }
  }

  lemma SameGrows(g: Gen, h: Gen, i: Gen)
    requires Grows(g, h) && i.mod == h.mod && i.protos == h.protos
    ensures Grows(g, i)
  {
  }

  lemma BinSame(m: Arith, g: Gen, op: Opcode, a: Operand, b: Operand)
    ensures EmitBin(m, g, op, a, b).0.mod == g.mod && EmitBin(m, g, op, a, b).0.protos == g.protos
  {
  }

  /** A further part of an expression. */
  lemma {:induction false} PartGrows(m: Arith, g: Gen, h: Gen, e: Expr)
    requires Grows(g, h)
    ensures Grows(g, GenExpr(m, h, e).g)
    decreases e, 3
  {
    hide GenExpr;
    ExprGrows(m, h, e);
    GrowsTrans(g, h, GenExpr(m, h, e).g);
  }

  lemma {:induction false} LoopGrows(m: Arith, g: Gen, e: Expr, slot: nat)
    requires e.For?
    ensures Grows(g, GenLoop(m, g, e, slot).g)
    decreases e, 0
  {
    hide GenExpr, GenOption;
    ExprGrows(m, g, e.body);
    var a := GenExpr(m, g, e.body);
    if a.Good? {
      OptionGrows(m, a.g, e.step, m.unit);
      var b := GenOption(m, a.g, e.step, m.unit);
      GrowsTrans(g, a.g, b.g);
      if b.Good? {
        PartGrows(m, g, b.g, e.end);
      }
    }
  }

  lemma {:induction false} ForGrows(m: Arith, g: Gen, e: Expr)
    requires e.For?
    ensures Grows(g, GenFor(m, g, e).g)
    decreases e, 1
  {
    hide GenExpr, GenLoop;
    ExprGrows(m, Alloca(g, e.name), e.start);
    var a := GenExpr(m, Alloca(g, e.name), e.start);
    if a.Good? {
      var s := BeginLoop(Emit(a.g, Store(a.value, |g.allocas|)));
      var s1 := s.(named := s.named[e.name := |g.allocas|]);
      LoopGrows(m, s1, e, |g.allocas|);
      GrowsTrans(g, s1, GenLoop(m, s1, e, |g.allocas|).g);
    }
  }

  lemma {:induction false} CallGrows(m: Arith, g: Gen, e: Expr)
    requires e.Call?
    ensures Grows(g, GenCall(m, g, e).g)
    decreases e, 0
  {
    hide GenArgs;
    var g1 := GetFunction(g, e.callee).0;
    ArgsGrows(m, g1, e.args);
    GrowsTrans(g, g1, GenArgs(m, g1, e.args).g);
  }

  /** Whether it succeeds or throws, generating code for an expression only declares known functions. */
  lemma {:induction false} ExprGrows(m: Arith, g: Gen, e: Expr)
    ensures Grows(g, GenExpr(m, g, e).g)
    decreases e, 2
  {
    hide GenIf, GenFor, GenVarIn, GenBinary, GenCall;
    match e
    case Number(_) =>
    case Variable(_) =>
    case VarIn(_, _) => VarInGrows(m, g, e);
    case Unary(_, a) => ExprGrows(m, g, a);
    case Binary(op, _, b) => if op == '=' { ExprGrows(m, g, b); } else { BinaryGrows(m, g, e); }
    case If(_, _, _) => IfGrows(m, g, e);
    case For(_, _, _, _, _) => ForGrows(m, g, e);
    case Call(_, _) => CallGrows(m, g, e);
  }

  // ----- `codegen` accepts exactly the well-scoped expressions -----

  ghost predicate Fit(g: Gen) {
    Open(g) && InScope(g)
  }

  /** What generating code for a part guarantees about names. */
  ghost predicate Settled(g: Gen, h: Gen) {
    Fit(h) && h.named == g.named && KnownIn(h) == KnownIn(g)
  }

  /** Accepted exactly when well-scoped, and then the names are as before. */
  ghost predicate Exact<T>(g: Gen, o: Out<T>, ok: bool) {
    (o.Good? <==> ok) && (o.Good? ==> Settled(g, o.g))
  }

  lemma SettledAfter(m: Arith, g: Gen, e: Expr)
    requires Fit(g) && NoRepeats(e) && GenExpr(m, g, e).Good?
    ensures Settled(g, GenExpr(m, g, e).g)
  {
    hide KnownIn, GenExpr;
    GenExprExtends(m, g, e);
    ScopeAfter(m, g, e);
    ScopeRestored(m, g, e);
    ExprGrows(m, g, e);
    GrowsKnown(g, GenExpr(m, g, e).g);
  }

  lemma GetFunctionKnown(g: Gen, f: string)
    ensures var (h, a) := GetFunction(g, f);
            KnownIn(h) == KnownIn(g) && a == (if f in KnownIn(g) then Some(KnownIn(g)[f]) else None)
  {
    assert Grows(g, GetFunction(g, f).0);
    GrowsKnown(g, GetFunction(g, f).0);
  }

  lemma OperatorExact(g: Gen, f: string, ops: seq<Operand>)
    requires Fit(g)
    ensures Exact(g, CallOperator(g, f, ops), f in KnownIn(g))
  {
    GetFunctionKnown(g, f);
    CallOperatorExtends(g, f, ops);
  }

  lemma {:induction false} OptionExact(m: Arith, g: Gen, e: Option<Expr>, d: Double)
    requires Fit(g) && (e.Some? ==> NoRepeats(e.value))
    ensures Exact(g, GenOption(m, g, e, d), WellScopedOption(e, g.named.Keys, KnownIn(g)))
    decreases e, 3
  {
    if e.Some? {
      ScopingExact(m, g, e.value);
    }
  }

  lemma {:induction false} ArgsExact(m: Arith, g: Gen, args: seq<Expr>)
    requires Fit(g) && forall i :: 0 <= i < |args| ==> NoRepeats(args[i])
    ensures Exact(g, GenArgs(m, g, args), WellScopedAll(args, g.named.Keys, KnownIn(g)))
    decreases args, 0
  {
    hide KnownIn, GenExpr, WellScoped;
    if args != [] {
      ScopingExact(m, g, args[0]);
      var a := GenExpr(m, g, args[0]);
      if a.Good? {
        ArgsExact(m, a.g, args[1..]);
      }
    }
  }

  lemma NameSet(bs: seq<Binding>)
    requires bs != []
    ensures (set x | x in Names(bs)) == {bs[0].name} + (set x | x in Names(bs[1..]))
  {
    assert Names(bs) == [bs[0].name] + Names(bs[1..]);
  }

  lemma {:induction false} BindingsExact(m: Arith, g: Gen, bs: seq<Binding>, saved: map<string, Option<nat>>)
    requires Fit(g) && forall i :: 0 <= i < |bs| && bs[i].init.Some? ==> NoRepeats(bs[i].init.value)
    ensures var o := GenBindings(m, g, bs, saved);
            && (o.Good? <==> WellScopedBindings(bs, g.named.Keys, KnownIn(g)))
            && (o.Good? ==> Fit(o.g) && KnownIn(o.g) == KnownIn(g)
                            && o.g.named.Keys == g.named.Keys + (set x | x in Names(bs)))
    decreases bs, 0
  {
    hide KnownIn, GenOption, WellScopedOption, InScope, Open, Bind, Names;
    if bs == [] {
      assert Names(bs) == [];
    } else {
      NameSet(bs);
      OptionExact(m, g, bs[0].init, m.zero);
      var a := GenOption(m, g, bs[0].init, m.zero);
      if a.Good? {
        var b := Bind(a.g, bs[0].name, a.value);
        BindFit(a.g, bs[0].name, a.value);
        BindingsExact(m, b, bs[1..], saved[bs[0].name := Lookup(a.g.named, bs[0].name)]);
      }
    }
  }

  lemma BindFit(g: Gen, x: string, v: Operand)
    requires Fit(g)
    ensures var h := Bind(g, x, v); Fit(h) && KnownIn(h) == KnownIn(g) && h.named.Keys == g.named.Keys + {x}
  {
  }

  lemma {:induction false} VarInExact(m: Arith, g: Gen, e: Expr)
    requires Fit(g) && e.VarIn? && NoRepeats(e)
    ensures GenVarIn(m, g, e).Good? <==> WellScoped(e, g.named.Keys, KnownIn(g))
    decreases e, 0
  {
    hide KnownIn, GenExpr, GenBindings, WellScopedBindings, InScope, RestoreAll;
    BindingsExact(m, g, e.bindings, map[]);
    var a := GenBindings(m, g, e.bindings, map[]);
    if a.Good? {
      ScopingExact(m, a.g, e.body);
    }
  }

  lemma {:induction false} BinaryExact(m: Arith, g: Gen, e: Expr)
    requires Fit(g) && e.Binary? && e.op != '=' && NoRepeats(e)
    ensures GenBinary(m, g, e).Good? <==> WellScoped(e, g.named.Keys, KnownIn(g))
    decreases e, 0
  {
    hide KnownIn, GenExpr, CallOperator, InScope;
    ScopingExact(m, g, e.lhs);
    var a := GenExpr(m, g, e.lhs);
    if a.Good? {
      ScopingExact(m, a.g, e.rhs);
      var b := GenExpr(m, a.g, e.rhs);
      if b.Good? {
        OperatorExact(b.g, BinaryName(e.op), [a.value, b.value]);
      }
    }
  }

  lemma {:induction false} IfExact(m: Arith, g: Gen, e: Expr)
    requires Fit(g) && e.If? && NoRepeats(e)
    ensures GenIf(m, g, e).Good? <==> WellScoped(e, g.named.Keys, KnownIn(g))
    decreases e, 0
  {
    hide KnownIn, GenExpr, EmitBin, InScope;
    ScopingExact(m, g, e.cond);
    var o := GenExpr(m, g, e.cond);
    if o.Good? {
      var (g2, bit) := EmitBin(m, o.g, FCmpONE, o.value, Lit(Dbl(m.zero)));
      EmitBinFit(m, o.g, FCmpONE, o.value, Lit(Dbl(m.zero)));
      BeginIfOpen(g2, bit);
      var s1 := BeginIf(g2, bit);
      ArmFit(g2, s1);
      ScopingExact(m, s1, e.thn);
      var a := GenExpr(m, s1, e.thn);
      if a.Good? {
        GenExprExtends(m, s1, e.thn);
        ElseOpen(g2, bit, a.g);
        var s2 := NextArm(a.g, |g2.blocks| + 2, |g2.blocks| + 1);
        ArmFit(a.g, s2);
        ScopingExact(m, s2, e.els);
      }
    }
  }

  lemma ArmFit(g: Gen, h: Gen)
    requires InScope(g) && Open(h) && h.named == g.named && h.allocas == g.allocas && h.mod == g.mod
             && h.protos == g.protos
    ensures Fit(h) && KnownIn(h) == KnownIn(g)
  {
  }

  lemma EmitBinFit(m: Arith, g: Gen, op: Opcode, a: Operand, b: Operand)
    requires Fit(g)
    ensures var h := EmitBin(m, g, op, a, b).0; Fit(h) && h.named == g.named && KnownIn(h) == KnownIn(g)
  {
  }

  lemma {:induction false} LoopExact(m: Arith, g: Gen, e: Expr, slot: nat)
    requires Fit(g) && e.For? && NoRepeats(e)
    ensures GenLoop(m, g, e, slot).Good?
            <==> && WellScoped(e.body, g.named.Keys, KnownIn(g)) && WellScopedOption(e.step, g.named.Keys, KnownIn(g))
                 && WellScoped(e.end, g.named.Keys, KnownIn(g))
    decreases e, 0
  {
    hide KnownIn, GenExpr, GenOption, WellScoped, WellScopedOption, EndLoop, InScope;
    ScopingExact(m, g, e.body);
    var a := GenExpr(m, g, e.body);
    if a.Good? {
      OptionExact(m, a.g, e.step, m.unit);
      var b := GenOption(m, a.g, e.step, m.unit);
      if b.Good? {
        ScopingExact(m, b.g, e.end);
      }
    }
  }

  lemma {:induction false} ForExact(m: Arith, g: Gen, e: Expr)
    requires Fit(g) && e.For? && NoRepeats(e)
    ensures GenFor(m, g, e).Good? <==> WellScoped(e, g.named.Keys, KnownIn(g))
    decreases e, 1
  {
    hide KnownIn, GenExpr, GenLoop;
    var g0 := Alloca(g, e.name);
    ArmFit(g0, g0);
    ArmKnown(g, g0);
    ScopingExact(m, g0, e.start);
    var a := GenExpr(m, g0, e.start);
    if a.Good? {
      GenExprExtends(m, g0, e.start);
      var g1 := Emit(a.g, Store(a.value, |g.allocas|));
      var s := BeginLoop(g1);
      BeginLoopExtends(g1);
      var s1 := s.(named := s.named[e.name := |g.allocas|]);
      ArmKnown(a.g, s1);
      assert s1.named.Keys == g.named.Keys + {e.name};
      LoopExact(m, s1, e, |g.allocas|);
    }
  }

  lemma ArmKnown(g: Gen, h: Gen)
    requires h.mod == g.mod && h.protos == g.protos
    ensures KnownIn(h) == KnownIn(g)
  {
  }

  lemma {:induction false} CallExact(m: Arith, g: Gen, e: Expr)
    requires Fit(g) && e.Call? && NoRepeats(e)
    ensures GenCall(m, g, e).Good? <==> WellScoped(e, g.named.Keys, KnownIn(g))
    decreases e, 0
  {
    hide KnownIn, GenArgs;
    GetFunctionKnown(g, e.callee);
    ArgsExact(m, GetFunction(g, e.callee).0, e.args);
  }

  /** `codegen` completes without an exception exactly when the expression is well-scoped. */
  lemma {:induction false} ScopingExact(m: Arith, g: Gen, e: Expr)
    requires Fit(g) && NoRepeats(e)
    ensures Exact(g, GenExpr(m, g, e), WellScoped(e, g.named.Keys, KnownIn(g)))
    decreases e, 2
  {
    hide KnownIn, Settled, GenIf, GenFor, GenVarIn, GenBinary, GenCall, CallOperator;
    if GenExpr(m, g, e).Good? {
      SettledAfter(m, g, e);
    }
    match e
    case Number(_) =>
    case Variable(_) =>
    case VarIn(_, _) => VarInExact(m, g, e);
    case Unary(_, _) => UnaryExact(m, g, e);
    case Binary(op, _, b) => if op == '=' { AssignExact(m, g, e); } else { BinaryExact(m, g, e); }
    case If(_, _, _) => IfExact(m, g, e);
    case For(_, _, _, _, _) => ForExact(m, g, e);
    case Call(_, _) => CallExact(m, g, e);
  }

  lemma {:induction false} UnaryExact(m: Arith, g: Gen, e: Expr)
    requires Fit(g) && e.Unary? && NoRepeats(e)
    ensures GenUnary(m, g, e).Good? <==> WellScoped(e, g.named.Keys, KnownIn(g))
    decreases e, 0
  {
    hide KnownIn, GenExpr, CallOperator;
    ScopingExact(m, g, e.operand);
    var a := GenExpr(m, g, e.operand);
    if a.Good? {
      OperatorExact(a.g, UnaryName(e.op), [a.value]);
    }
  }

  lemma {:induction false} AssignExact(m: Arith, g: Gen, e: Expr)
    requires Fit(g) && e.Binary? && e.op == '=' && NoRepeats(e)
    ensures GenAssign(m, g, e).Good? <==> WellScoped(e, g.named.Keys, KnownIn(g))
    decreases e, 0
  {
    hide KnownIn, GenExpr;
    ScopingExact(m, g, e.rhs);
  }
}
