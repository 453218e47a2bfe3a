/** No register is defined twice in an emitted function, by an instruction or by a phi. */
module SingleAssignment {
  import opened Prelude
  import opened Ast
  import opened Machine
  import opened Codegen

  function ResultOf(i: Instr): Option<nat> {
    match i
    case Store(_, _) => None
    case Load(dst, _) => Some(dst)
    case Bin(dst, _, _, _) => Some(dst)
    case UIToFP(dst, _) => Some(dst)
    case Call(dst, _, _) => Some(dst)
  }

  /** Instruction `i` of block `b` defines `r`, or phi `-1 - i` does if `i` is negative. */
  predicate DefinesAt(b: Block, i: int, r: nat) {
    if i >= 0 then i < |b.body| && ResultOf(b.body[i]) == Some(r)
    else -1 - i < |b.phis| && b.phis[-1 - i].dst == r
  }

  ghost predicate DefinedOnce(blocks: seq<Block>) {
    forall l, i, l', i', r: nat ::
      && 0 <= l < |blocks| && 0 <= l' < |blocks| && DefinesAt(blocks[l], i, r) && DefinesAt(blocks[l'], i', r)
      ==> l == l' && i == i'
  }

  /** The registers in use are below `nregs`. */
  ghost predicate Numbered(g: Gen) {
    DefinedOnce(g.blocks) && forall l, i, r: nat :: 0 <= l < |g.blocks| && DefinesAt(g.blocks[l], i, r) ==> r < g.nregs
  }

  // ----- Single changes -----

  /** Nothing is defined that was not defined before. */
  ghost predicate NoNewDefs(g: Gen, h: Gen) {
    && g.nregs <= h.nregs && |g.blocks| <= |h.blocks|
    && (forall l :: 0 <= l < |g.blocks|
          ==> h.blocks[l].phis == g.blocks[l].phis && h.blocks[l].body == g.blocks[l].body)
    && (forall l :: |g.blocks| <= l < |h.blocks| ==> h.blocks[l].phis == [] && h.blocks[l].body == [])
  }

  lemma NumberedStill(g: Gen, h: Gen)
    requires Numbered(g) && NoNewDefs(g, h)
    ensures Numbered(h)
  {
    forall l, i, r: nat | 0 <= l < |h.blocks| && DefinesAt(h.blocks[l], i, r)
      ensures l < |g.blocks| && DefinesAt(g.blocks[l], i, r)
    {
    }
  }

  lemma NumberedEmit(g: Gen, i: Instr, n: nat)
    requires Numbered(g) && n >= g.nregs && (ResultOf(i).Some? ==> ResultOf(i).value == g.nregs && n > g.nregs)
    ensures Numbered(Emit(g, i).(nregs := n))
  {
    var h := Emit(g, i).(nregs := n);
    var end := |g.blocks[g.cur].body|;
    forall l, j, r: nat | 0 <= l < |h.blocks| && DefinesAt(h.blocks[l], j, r)
      ensures if l == g.cur && j == end then r == g.nregs && r < n else DefinesAt(g.blocks[l], j, r)
    {
    }
  }

  lemma NumberedPhi(g: Gen, incoming: seq<(Operand, nat)>)
    requires Numbered(g)
    ensures Numbered(AddPhi(g, incoming).0)
  {
    var h := AddPhi(g, incoming).0;
    var end := -1 - |g.blocks[g.cur].phis|;
    forall l, j, r: nat | 0 <= l < |h.blocks| && DefinesAt(h.blocks[l], j, r)
      ensures if l == g.cur && j == end then r == g.nregs else DefinesAt(g.blocks[l], j, r)
    {
    }
  }

  lemma NumberedBin(m: Arith, g: Gen, op: Opcode, a: Operand, b: Operand)
    requires Numbered(g)
    ensures Numbered(EmitBin(m, g, op, a, b).0)
  {
    NumberedEmit(g, Bin(g.nregs, op, a, b), g.nregs + 1);
  }

  lemma NumberedToFP(m: Arith, g: Gen, a: Operand)
    requires Numbered(g)
    ensures Numbered(EmitToFP(m, g, a).0)
  {
    NumberedEmit(g, UIToFP(g.nregs, a), g.nregs + 1);
  }

  lemma NumberedLoad(g: Gen, slot: nat)
    requires Numbered(g)
    ensures Numbered(EmitLoad(g, slot).0)
  {
    NumberedEmit(g, Load(g.nregs, slot), g.nregs + 1);
  }

  lemma NumberedStore(g: Gen, v: Operand, slot: nat)
    requires Numbered(g)
    ensures Numbered(Emit(g, Store(v, slot)))
  {
    NumberedEmit(g, Store(v, slot), g.nregs);
  }

  lemma NumberedBind(g: Gen, x: string, v: Operand)
    requires Numbered(g)
    ensures Numbered(Bind(g, x, v))
  {
    hide Numbered;
    assert Numbered(Alloca(g, x)) by { NumberedSame(g, Alloca(g, x)); }
    NumberedStore(Alloca(g, x), v, |g.allocas|);
    NumberedSame(Emit(Alloca(g, x), Store(v, |g.allocas|)), Bind(g, x, v));
  }

  /** Scopes, slots and declarations do not matter. */
  lemma NumberedSame(g: Gen, h: Gen)
    requires Numbered(g) && h.blocks == g.blocks && h.nregs == g.nregs
    ensures Numbered(h)
  {
  }

  lemma NumberedCallOperator(g: Gen, f: string, args: seq<Operand>)
    requires Numbered(g)
    ensures Numbered(CallOperator(g, f, args).g)
  {
    var h := GetFunction(g, f).0;
    NumberedSame(g, h);
    NumberedEmit(h, Instr.Call(h.nregs, f, args), h.nregs + 1);
  }

  lemma NumberedBuiltIn(m: Arith, g: Gen, op: char, a: Operand, b: Operand)
    requires Numbered(g) && op in {'+', '-', '*', '<'}
    ensures Numbered(BuiltIn(m, g, op, a, b).0)
  {
    hide EmitBin, EmitToFP, Numbered;
    NumberedBin(m, g, FAdd, a, b);
    NumberedBin(m, g, FSub, a, b);
    NumberedBin(m, g, FMul, a, b);
    NumberedBin(m, g, FCmpULT, a, b);
    var (h, c) := EmitBin(m, g, FCmpULT, a, b);
    NumberedToFP(m, h, c);
  }

  lemma NumberedBranch(g: Gen, c: Operand, merge: nat, next: nat)
    requires Numbered(g)
    ensures Numbered(BeginIf(g, c)) && Numbered(BeginLoop(g))
    ensures next < |g.blocks| ==> Numbered(NextArm(g, merge, next))
  {
    NumberedStill(g, BeginIf(g, c));
    NumberedStill(g, BeginLoop(g));
    if next < |g.blocks| {
      NumberedStill(g, NextArm(g, merge, next));
    }
  }

  lemma NumberedEndLoop(m: Arith, g: Gen, head: nat, slot: nat, step: Operand, end: Operand)
    requires Numbered(g)
    ensures Numbered(EndLoop(m, g, head, slot, step, end))
  {
    hide EmitBin, Numbered;
    var (g1, x) := EmitLoad(g, slot);
    NumberedLoad(g, slot);
    var (g2, next) := EmitBin(m, g1, FAdd, x, step);
    NumberedBin(m, g1, FAdd, x, step);
    var g3 := Emit(g2, Store(next, slot));
    NumberedStore(g2, next, slot);
    var (g4, c) := EmitBin(m, g3, FCmpONE, end, Lit(Dbl(m.zero)));
    NumberedBin(m, g3, FCmpONE, end, Lit(Dbl(m.zero)));
    NumberedStill(g4, EndLoop(m, g, head, slot, step, end));
  }

  // ----- Every expression -----

  lemma {:induction false} NumberedOption(m: Arith, g: Gen, e: Option<Expr>, d: Double)
    requires Numbered(g)
    ensures Numbered(GenOption(m, g, e, d).g) == true
    decreases e, 3
  {
    hide Numbered, GenExpr;
    if e.Some? {
      NumberedExpr(m, g, e.value);
    }
  }

  lemma {:induction false} NumberedArgs(m: Arith, g: Gen, args: seq<Expr>)
    requires Numbered(g)
    ensures Numbered(GenArgs(m, g, args).g) == true
    decreases args, 0
  {
    hide Numbered, GenExpr;
    if args != [] {
      NumberedExpr(m, g, args[0]);
      NumberedArgs(m, GenExpr(m, g, args[0]).g, args[1..]);
    }
  }

  lemma {:induction false} NumberedBindings(m: Arith, g: Gen, bs: seq<Binding>, saved: map<string, Option<nat>>)
    requires Numbered(g)
    ensures Numbered(GenBindings(m, g, bs, saved).g) == true
    decreases bs, 0
  {
    hide Numbered, GenOption, Bind;
    if bs != [] {
      NumberedOption(m, g, bs[0].init, m.zero);
      var a := GenOption(m, g, bs[0].init, m.zero);
      if a.Good? {
        NumberedBind(a.g, bs[0].name, a.value);
        NumberedBindings(m, Bind(a.g, bs[0].name, a.value), bs[1..],
            saved[bs[0].name := Lookup(a.g.named, bs[0].name)]);
      }
    }
  }

  lemma {:induction false} NumberedVarIn(m: Arith, g: Gen, e: Expr)
    requires e.VarIn? && Numbered(g)
    ensures Numbered(GenVarIn(m, g, e).g) == true
    decreases e, 0
  {
    hide Numbered, GenExpr, GenBindings, RestoreAll;
    NumberedBindings(m, g, e.bindings, map[]);
    var a := GenBindings(m, g, e.bindings, map[]);
    if a.Good? {
      NumberedExpr(m, a.g, e.body);
      NumberedSame(GenExpr(m, a.g, e.body).g, GenVarIn(m, g, e).g);
    }
  }

  lemma {:induction false} NumberedBinary(m: Arith, g: Gen, e: Expr)
    requires e.Binary? && e.op != '=' && Numbered(g)
    ensures Numbered(GenBinary(m, g, e).g) == true
    decreases e, 0
  {
    hide Numbered, GenExpr, CallOperator, BuiltIn;
    NumberedExpr(m, g, e.lhs);
    var a := GenExpr(m, g, e.lhs);
    if a.Good? {
      NumberedExpr(m, a.g, e.rhs);
      var b := GenExpr(m, a.g, e.rhs);
      if b.Good? {
        NumberedCallOperator(b.g, BinaryName(e.op), [a.value, b.value]);
        if !UserOperator(e.op) {
          NumberedBuiltIn(m, b.g, e.op, a.value, b.value);
        }
      }
    }
  }

  lemma {:induction false} NumberedIf(m: Arith, g: Gen, e: Expr)
    requires e.If? && Numbered(g)
    ensures Numbered(GenIf(m, g, e).g) == true
    decreases e, 0
  {
    hide Numbered, GenExpr, EmitBin, BeginIf, NextArm, AddPhi;
    NumberedExpr(m, g, e.cond);
    var o := GenExpr(m, g, e.cond);
    if o.Good? {
      var (g2, bit) := EmitBin(m, o.g, FCmpONE, o.value, Lit(Dbl(m.zero)));
      NumberedBin(m, o.g, FCmpONE, o.value, Lit(Dbl(m.zero)));
      var n := |g2.blocks|;
      NumberedBranch(g2, bit, 0, 0);
      ThreeMore(g2, bit);
      NumberedExpr(m, BeginIf(g2, bit), e.thn);
      var a := GenExpr(m, BeginIf(g2, bit), e.thn);
      if a.Good? {
        NumberedBranch(a.g, bit, n + 2, n + 1);
        NumberedExpr(m, NextArm(a.g, n + 2, n + 1), e.els);
        var b := GenExpr(m, NextArm(a.g, n + 2, n + 1), e.els);
        if b.Good? {
          SameMany(a.g, n + 2, n + 1);
          NumberedBranch(b.g, bit, n + 2, n + 2);
          NumberedPhi(NextArm(b.g, n + 2, n + 2), [(a.value, a.g.cur), (b.value, b.g.cur)]);
        }
      }
    }
  }

  lemma ThreeMore(g: Gen, c: Operand)
    ensures |BeginIf(g, c).blocks| == |g.blocks| + 3
  {
  }

  lemma SameMany(g: Gen, merge: nat, next: nat)
    requires next < |g.blocks|
    ensures |NextArm(g, merge, next).blocks| == |g.blocks|
  {
  }

  lemma {:induction false} NumberedLoop(m: Arith, g: Gen, e: Expr, slot: nat)
    requires e.For? && Numbered(g)
    ensures Numbered(GenLoop(m, g, e, slot).g) == true
    decreases e, 0
  {
    hide Numbered, GenExpr, GenOption, EndLoop;
    NumberedExpr(m, g, e.body);
    var a := GenExpr(m, g, e.body);
    if a.Good? {
      NumberedOption(m, a.g, e.step, m.unit);
      var b := GenOption(m, a.g, e.step, m.unit);
      if b.Good? {
        NumberedExpr(m, b.g, e.end);
        var d := GenExpr(m, b.g, e.end);
        if d.Good? {
          NumberedEndLoop(m, d.g, g.cur, slot, b.value, d.value);
        }
      }
    }
  }

  lemma {:induction false} NumberedFor(m: Arith, g: Gen, e: Expr)
    requires e.For? && Numbered(g)
    ensures Numbered(GenFor(m, g, e).g) == true
    decreases e, 1
  {
    hide Numbered, GenExpr, GenLoop, BeginLoop, Emit;
    var slot := |g.allocas|;
    NumberedSame(g, Alloca(g, e.name));
    NumberedExpr(m, Alloca(g, e.name), e.start);
    var a := GenExpr(m, Alloca(g, e.name), e.start);
    if a.Good? {
      NumberedStore(a.g, a.value, slot);
      var g1 := Emit(a.g, Store(a.value, slot));
      NumberedBranch(g1, a.value, 0, 0);
      var s := BeginLoop(g1).(named := BeginLoop(g1).named[e.name := slot]);
      NumberedSame(BeginLoop(g1), s);
      NumberedLoop(m, s, e, slot);
      NumberedSame(GenLoop(m, s, e, slot).g, GenFor(m, g, e).g);
    }
  }

  lemma {:induction false} NumberedCall(m: Arith, g: Gen, e: Expr)
    requires e.Call? && Numbered(g)
    ensures Numbered(GenCall(m, g, e).g) == true
    decreases e, 0
  {
    hide Numbered, GenArgs, Emit;
    var g1 := GetFunction(g, e.callee).0;
    NumberedSame(g, g1);
    NumberedArgs(m, g1, e.args);
    var a := GenArgs(m, g1, e.args);
    if a.Good? {
      NumberedEmit(a.g, Instr.Call(a.g.nregs, e.callee, a.value), a.g.nregs + 1);
    }
  }

  lemma {:induction false} NumberedExpr(m: Arith, g: Gen, e: Expr)
    requires Numbered(g)
    ensures Numbered(GenExpr(m, g, e).g) == true
    decreases e, 2
  {
    hide Numbered, GenIf, GenFor, GenVarIn, GenBinary, GenCall, CallOperator, EmitLoad, Emit;
    match e
    case Number(_) =>
    case Variable(x) =>
      if x in g.named {
        NumberedLoad(g, g.named[x]);
      }
    case VarIn(_, _) => NumberedVarIn(m, g, e);
    case Unary(op, a) =>
      NumberedExpr(m, g, a);
      var o := GenExpr(m, g, a);
      if o.Good? {
        NumberedCallOperator(o.g, UnaryName(op), [o.value]);
      }
    case Binary(op, _, b) =>
      if op == '=' {
        NumberedExpr(m, g, b);
        var o := GenExpr(m, g, b);
        if o.Good? && e.lhs.Variable? && e.lhs.name in o.g.named {
          NumberedStore(o.g, o.value, o.g.named[e.lhs.name]);
        }
      } else {
        NumberedBinary(m, g, e);
      }
    case If(_, _, _) => NumberedIf(m, g, e);
    case For(_, _, _, _, _) => NumberedFor(m, g, e);
    case Call(_, _) => NumberedCall(m, g, e);
  }

  lemma {:induction false} NumberedParams(g: Gen, params: seq<string>, i: nat)
    requires i <= |params| && Numbered(g)
    ensures Numbered(GenParams(g, params, i)) == true
    decreases |params| - i
  {
    hide Numbered, Bind;
    if i < |params| {
      NumberedBind(g, params[i], Arg(i));
      NumberedParams(Bind(g, params[i], Arg(i)), params, i + 1);
    }
  }

  /** Every accepted definition is in single-assignment form. */
  lemma DefinitionDefinesOnce(m: Arith, gl: Globals, d: Definition)
    ensures var (_, r) := GenDefinition(m, gl, d);
            r.Ok? ==> r.value.code.Some? && DefinedOnce(r.value.code.value.blocks)
  {
    hide GenExpr, GenParams;
    var mod := Declare(gl.mod, d.proto);
    var protos := gl.protos[d.proto.name := d.proto];
    var params := mod[d.proto.name].params;
    var g0 := Start(mod, protos);
    NumberedParams(g0, params, 0);
    var g := GenParams(g0, params, 0);
    NumberedExpr(m, g, d.body);
    var o := GenExpr(m, g, d.body);
    if o.Good? {
      NumberedStill(o.g, Seal(o.g, Ret(o.value)));
    }
  }
}
