/**
 What every `codegen` method does to the builder, the insert point, `NamedValues` and the module,
 written as functions on the generator's state.  `Generator.dfy` holds the methods that update
 the state in place and are proved to compute these functions.
 */
module Codegen {
  import opened Prelude
  import opened Ast
  import opened Machine

  /** `BadDestination` stands for the unchecked cast of a left-hand side that is not a variable. */
  datatype CodegenError =
    | UnknownVariable(name: string)
    | UnknownFunction(name: string)
    | WrongArity(name: string)
    | BadDestination
    | Redefined(name: string)

  const EMPTY_BLOCK := Block([], [], None)

  /** The function under construction, the scope, and the module's declarations. */
  datatype GenState = GenState(
    blocks: seq<Block>, layout: seq<nat>, cur: nat, nregs: nat, allocas: seq<string>,
    named: map<string, nat>, mod: Module, protos: map<string, Prototype>)

  type Gen = g: GenState | g.cur < |g.blocks|
    witness GenState([EMPTY_BLOCK], [0], 0, 0, [], map[], map[], map[])

  /** A result, or the exception thrown; either way the state left behind. */
  datatype Out<+T> = Good(g: Gen, value: T) | Bad(g: Gen, error: CodegenError) {
    predicate IsFailure() { Bad? }

    function PropagateFailure<U>(): Out<U>
      requires Bad?
    {
      Bad(g, error)
    }

    function Extract(): (Gen, T)
      requires Good?
    {
      (g, value)
    }
  }

  function Emit(g: Gen, i: Instr): Gen {
    var b := g.blocks[g.cur];
    g.(blocks := g.blocks[g.cur := b.(body := b.body + [i])])
  }

  function Seal(g: Gen, t: Term): Gen {
    g.(blocks := g.blocks[g.cur := g.blocks[g.cur].(term := Some(t))])
  }

  /** Create a block and insert it at the end of the function. */
  function Insert(g: Gen): Gen {
    g.(blocks := g.blocks + [EMPTY_BLOCK], layout := g.layout + [|g.blocks|])
  }

  /** `createEntryBlockAlloca`: the new slot's number is how many there were. */
  function Alloca(g: Gen, name: string): Gen {
    g.(allocas := [name] + g.allocas)
  }

  /** An arithmetic or comparison instruction; the builder folds constants instead of emitting it. */
  function EmitBin(m: Arith, g: Gen, op: Opcode, a: Operand, b: Operand): (Gen, Operand) {
    if a.Lit? && b.Lit? && a.v.Dbl? && b.v.Dbl? then (g, Lit(Compute(m, op, a.v.d, b.v.d)))
    else (Emit(g, Bin(g.nregs, op, a, b)).(nregs := g.nregs + 1), Reg(g.nregs))
  }

  function EmitToFP(m: Arith, g: Gen, a: Operand): (Gen, Operand) {
    if a.Lit? && a.v.Bit? then (g, Lit(Dbl(m.ofBit(a.v.b))))
    else (Emit(g, UIToFP(g.nregs, a)).(nregs := g.nregs + 1), Reg(g.nregs))
  }

  function EmitLoad(g: Gen, slot: nat): (Gen, Operand) {
    (Emit(g, Load(g.nregs, slot)).(nregs := g.nregs + 1), Reg(g.nregs))
  }

  function EmitCall(g: Gen, callee: string, args: seq<Operand>): (Gen, Operand) {
    (Emit(g, Instr.Call(g.nregs, callee, args)).(nregs := g.nregs + 1), Reg(g.nregs))
  }

  /** `getFunction`: the module first, then the remembered prototypes, which it declares. */
  function GetFunction(g: Gen, name: string): (r: (Gen, Option<nat>)) {
    if name in g.mod then (g, Some(|g.mod[name].params|))
    else if name in g.protos then
      (g.(mod := g.mod[name := Fn(g.protos[name].params, None)]), Some(|g.protos[name].params|))
    else (g, None)
  }

  /** Bind a name to a fresh slot that holds `v`. */
  function Bind(g: Gen, name: string, v: Operand): Gen {
    var slot := |g.allocas|;
    var g1 := Emit(Alloca(g, name), Store(v, slot));
    g1.(named := g1.named[name := slot])
  }

  function Lookup(named: map<string, nat>, name: string): Option<nat> {
    if name in named then Some(named[name]) else None
  }

  function RestoreName(named: map<string, nat>, name: string, saved: Option<nat>): map<string, nat> {
    if saved.Some? then named[name := saved.value] else named - {name}
  }

  /** The loop that puts back what a `var` list shadowed, with one saved entry for each name. */
  function RestoreAll(named: map<string, nat>, names: seq<string>, saved: map<string, Option<nat>>): map<string, nat>
    requires forall i :: 0 <= i < |names| ==> names[i] in saved
    decreases |names|
  {
    if names == [] then named
    else RestoreAll(RestoreName(named, names[0], saved[names[0]]), names[1..], saved)
  }

  function UserOperator(op: char): bool { op !in {'=', '+', '-', '*', '<'} }

  function BuiltIn(m: Arith, g: Gen, op: char, a: Operand, b: Operand): (Gen, Operand)
    requires op in {'+', '-', '*', '<'}
  {
    if op == '+' then EmitBin(m, g, FAdd, a, b)
    else if op == '-' then EmitBin(m, g, FSub, a, b)
    else if op == '*' then EmitBin(m, g, FMul, a, b)
    else
      var (g1, c) := EmitBin(m, g, FCmpULT, a, b);
      EmitToFP(m, g1, c)
  }

  /** Branch on `c` to a new `then` block; `else` and `merge` exist but are not inserted yet. */
  function BeginIf(g: Gen, c: Operand): Gen {
    var n := |g.blocks|;
    var g1 := Seal(g, CondBr(c, n, n + 1));
    g1.(blocks := g1.blocks + [EMPTY_BLOCK, EMPTY_BLOCK, EMPTY_BLOCK], layout := g1.layout + [n], cur := n)
  }

  /** End an arm with a branch to `merge`, insert block `next` and continue there. */
  function NextArm(g: Gen, merge: nat, next: nat): Gen
    requires next < |g.blocks|
  {
    Seal(g, Br(merge)).(layout := g.layout + [next], cur := next)
  }

  function AddPhi(g: Gen, incoming: seq<(Operand, nat)>): (Gen, Operand) {
    var b := g.blocks[g.cur];
    (g.(blocks := g.blocks[g.cur := b.(phis := b.phis + [Phi(g.nregs, incoming)])], nregs := g.nregs + 1), Reg(g.nregs))
  }

  /** Branch to a new block and continue there. */
  function BeginLoop(g: Gen): Gen {
    var n := |g.blocks|;
    Seal(Insert(g), Br(n)).(cur := n)
  }

  /** Load the loop variable, add the step and store it back. */
  function Increment(m: Arith, g: Gen, slot: nat, step: Operand): Gen {
    var (g1, x) := EmitLoad(g, slot);
    var (g2, next) := EmitBin(m, g1, FAdd, x, step);
    Emit(g2, Store(next, slot))
  }

  /** Test `end` and go back to `head` or on to a new block. */
  function TestLoop(m: Arith, g: Gen, head: nat, end: Operand): Gen {
    var (g1, c) := EmitBin(m, g, FCmpONE, end, Lit(Dbl(m.zero)));
    var n := |g1.blocks|;
    Seal(Insert(g1), CondBr(c, head, n)).(cur := n)
  }

  function EndLoop(m: Arith, g: Gen, head: nat, slot: nat, step: Operand, end: Operand): Gen {
    TestLoop(m, Increment(m, g, slot, step), head, end)
  }

  /** An optional expression with the constant used in its absence. */
  function GenOption(m: Arith, g: Gen, e: Option<Expr>, default: Double): (o: Out<Operand>)
    ensures |o.g.blocks| >= |g.blocks|
    decreases e, 3
  {
    if e.Some? then GenExpr(m, g, e.value) else Good(g, Lit(Dbl(default)))
  }

  function GenArgs(m: Arith, g: Gen, args: seq<Expr>): (o: Out<seq<Operand>>)
    ensures |o.g.blocks| >= |g.blocks|
    decreases args, 0
  {
    if args == [] then Good(g, [])
    else
      var (g1, a) :- GenExpr(m, g, args[0]);
      var (g2, rest) :- GenArgs(m, g1, args[1..]);
      Good(g2, [a] + rest)
  }

  /** The first loop of a `var` list.  The value is what each name was bound to when it was shadowed. */
  function GenBindings(m: Arith, g: Gen, bs: seq<Binding>, saved: map<string, Option<nat>>): (o: Out<map<string,
                       Option<nat>>>)
    ensures |o.g.blocks| >= |g.blocks|
    ensures o.Good? ==> forall x :: x in o.value <==> x in saved || x in Names(bs)
    decreases bs, 0
  {
    if bs == [] then Good(g, saved)
    else
      var (g1, v) :- GenOption(m, g, bs[0].init, m.zero);
      var saved1 := saved[bs[0].name := Lookup(g1.named, bs[0].name)];
      assert Names(bs) == [bs[0].name] + Names(bs[1..]);
      GenBindings(m, Bind(g1, bs[0].name, v), bs[1..], saved1)
  }

  function GenVariable(g: Gen, x: string): (o: Out<Operand>)
    ensures |o.g.blocks| == |g.blocks|
  {
    if x !in g.named then Bad(g, UnknownVariable(x))
    else
      var (g1, v) := EmitLoad(g, g.named[x]);
      Good(g1, v)
  }

  function GenVarIn(m: Arith, g: Gen, e: Expr): (o: Out<Operand>)
    requires e.VarIn?
    ensures |o.g.blocks| >= |g.blocks|
    decreases e, 0
  {
    var (g1, saved) :- GenBindings(m, g, e.bindings, map[]);
    var (g2, v) :- GenExpr(m, g1, e.body);
    Good(g2.(named := RestoreAll(g2.named, Names(e.bindings), saved)), v)
  }

  /** Call a user-defined operator on operands already computed. */
  function CallOperator(g: Gen, name: string, args: seq<Operand>): (o: Out<Operand>)
    ensures |o.g.blocks| == |g.blocks|
  {
    var (g1, arity) := GetFunction(g, name);
    if arity.None? then Bad(g1, UnknownFunction(name))
    else
      var (g2, r) := EmitCall(g1, name, args);
      Good(g2, r)
  }

  function GenUnary(m: Arith, g: Gen, e: Expr): (o: Out<Operand>)
    requires e.Unary?
    ensures |o.g.blocks| >= |g.blocks|
    decreases e, 0
  {
    var (g1, v) :- GenExpr(m, g, e.operand);
    CallOperator(g1, UnaryName(e.op), [v])
  }

  function GenAssign(m: Arith, g: Gen, e: Expr): (o: Out<Operand>)
    requires e.Binary? && e.op == '='
    ensures |o.g.blocks| >= |g.blocks|
    decreases e, 0
  {
    if !e.lhs.Variable? then Bad(g, BadDestination)
    else
      var (g1, v) :- GenExpr(m, g, e.rhs);
      if e.lhs.name !in g1.named then Bad(g1, UnknownVariable(e.lhs.name))
      else Good(Emit(g1, Store(v, g1.named[e.lhs.name])), v)
  }

  function GenBinary(m: Arith, g: Gen, e: Expr): (o: Out<Operand>)
    requires e.Binary? && e.op != '='
    ensures |o.g.blocks| >= |g.blocks|
    decreases e, 0
  {
    var (g1, x) :- GenExpr(m, g, e.lhs);
    var (g2, y) :- GenExpr(m, g1, e.rhs);
    if UserOperator(e.op) then CallOperator(g2, BinaryName(e.op), [x, y])
    else
      var (g3, r) := BuiltIn(m, g2, e.op, x, y);
      Good(g3, r)
  }

  function GenIf(m: Arith, g: Gen, e: Expr): (o: Out<Operand>)
    requires e.If?
    ensures |o.g.blocks| >= |g.blocks|
    decreases e, 0
  {
    var (g1, c) :- GenExpr(m, g, e.cond);
    var (g2, bit) := EmitBin(m, g1, FCmpONE, c, Lit(Dbl(m.zero)));
    var n := |g2.blocks|;
    var (g3, x) :- GenExpr(m, BeginIf(g2, bit), e.thn);
    var (g4, y) :- GenExpr(m, NextArm(g3, n + 2, n + 1), e.els);
    var (g5, r) := AddPhi(NextArm(g4, n + 2, n + 2), [(x, g3.cur), (y, g4.cur)]);
    Good(g5, r)
  }

  /** From the loop's first block to the block after it, the variable being bound to `slot`. */
  function GenLoop(m: Arith, g: Gen, e: Expr, slot: nat): (o: Out<()>)
    requires e.For?
    ensures |o.g.blocks| >= |g.blocks|
    decreases e, 0
  {
    var (g1, _) :- GenExpr(m, g, e.body);
    var (g2, inc) :- GenOption(m, g1, e.step, m.unit);
    var (g3, stop) :- GenExpr(m, g2, e.end);
    Good(EndLoop(m, g3, g.cur, slot, inc, stop), ())
  }

  function GenFor(m: Arith, g: Gen, e: Expr): (o: Out<Operand>)
    requires e.For?
    ensures |o.g.blocks| >= |g.blocks|
    decreases e, 1
  {
    var slot := |g.allocas|;
    var (g1, v) :- GenExpr(m, Alloca(g, e.name), e.start);
    var g2 := BeginLoop(Emit(g1, Store(v, slot)));
    var saved := Lookup(g2.named, e.name);
    var (g3, _) :- GenLoop(m, g2.(named := g2.named[e.name := slot]), e, slot);
    Good(g3.(named := RestoreName(g3.named, e.name, saved)), Lit(Dbl(m.zero)))
  }

  function GenCall(m: Arith, g: Gen, e: Expr): (o: Out<Operand>)
    requires e.Call?
    ensures |o.g.blocks| >= |g.blocks|
    decreases e, 0
  {
    var (g1, arity) := GetFunction(g, e.callee);
    if arity.None? then Bad(g1, UnknownFunction(e.callee))
    else if arity.value != |e.args| then Bad(g1, WrongArity(e.callee))
    else
      var (g2, ops) :- GenArgs(m, g1, e.args);
      var (g3, r) := EmitCall(g2, e.callee, ops);
      Good(g3, r)
  }

  function GenExpr(m: Arith, g: Gen, e: Expr): (o: Out<Operand>)
    ensures |o.g.blocks| >= |g.blocks|
    decreases e, 2
  {
    match e
    case Number(text) => Good(g, Lit(Dbl(m.parse(text))))
    case Variable(x) => GenVariable(g, x)
    case VarIn(_, _) => GenVarIn(m, g, e)
    case Unary(_, _) => GenUnary(m, g, e)
    case Binary(op, _, _) => if op == '=' then GenAssign(m, g, e) else GenBinary(m, g, e)
    case If(_, _, _) => GenIf(m, g, e)
    case For(_, _, _, _, _) => GenFor(m, g, e)
    case Call(_, _) => GenCall(m, g, e)
  }

  /** Copy the arguments from number `i` on into fresh slots. */
  function GenParams(g: Gen, params: seq<string>, i: nat): Gen
    requires i <= |params|
    decreases |params| - i
  {
    if i == |params| then g else GenParams(Bind(g, params[i], Arg(i)), params, i + 1)
  }

  /** The state in which a definition's parameters are about to be stored. */
  function Start(mod: Module, protos: map<string, Prototype>): Gen {
    GenState([EMPTY_BLOCK], [0], 0, 0, [], map[], mod, protos)
  }

  function GenBody(m: Arith, mod: Module, protos: map<string, Prototype>, params: seq<string>,
                   body: Expr): (o: Out<Operand>) {
    var (g, v) :- GenExpr(m, GenParams(Start(mod, protos), params, 0), body);
    Good(Seal(g, Ret(v)), v)
  }

  function CodeOf(g: Gen): Code { Code(g.blocks, g.layout, g.allocas) }

  /** What outlives one definition. */
  datatype Globals = Globals(mod: Module, protos: map<string, Prototype>)

  /** `PrototypeAST::codegen`; declaring a name again only adds a function under a name nobody can write. */
  function Declare(mod: Module, p: Prototype): Module {
    if p.name in mod then mod else mod[p.name := Fn(p.params, None)]
  }

  /**
   `FunctionAST::codegen`.  The prototype is remembered whatever happens; an existing declaration
   keeps its own parameter names; a body that fails erases the function.
   */
  function GenDefinition(m: Arith, gl: Globals, d: Definition): (Globals, Result<Fn, CodegenError>) {
    var name := d.proto.name;
    var protos := gl.protos[name := d.proto];
    var mod := Declare(gl.mod, d.proto);
    if mod[name].code.Some? then (Globals(mod, protos), Err(Redefined(name)))
    else
      var o := GenBody(m, mod, protos, mod[name].params, d.body);
      if o.Bad? then (Globals(o.g.mod - {name}, o.g.protos), Err(o.error))
      else
        var fn := Fn(mod[name].params, Some(CodeOf(o.g)));
        (Globals(o.g.mod[name := fn], o.g.protos), Ok(fn))
  }
}
