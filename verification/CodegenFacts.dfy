/**
 What code generation leaves alone: blocks other than the current one and new ones, registers and
 slots handed out earlier, and the scope.
 */
module CodegenFacts {
  import opened Prelude
  import opened Ast
  import opened Machine
  import opened Codegen

  predicate Open(g: Gen) {
    g.blocks[g.cur].term.None?
  }

  /** `h` continues `g`: only the current block was added to, and it was left only with a terminator. */
  ghost predicate Extends(g: Gen, h: Gen) {
    && |g.blocks| <= |h.blocks|
    && (h.cur == g.cur || |g.blocks| <= h.cur)
    && g.nregs <= h.nregs
    && |g.allocas| <= |h.allocas|
    && (forall l :: 0 <= l < |g.blocks| && l != g.cur ==> h.blocks[l] == g.blocks[l])
    && h.blocks[g.cur].phis == g.blocks[g.cur].phis
    && g.blocks[g.cur].body <= h.blocks[g.cur].body
    && (h.cur != g.cur ==> h.blocks[g.cur].term.Some?)
  }

  predicate Below(op: Operand, n: nat) {
    match op
    case Reg(r) => r < n
    case Lit(_) => true
    case Arg(_) => false
  }

  lemma ExtendsTrans(g: Gen, h: Gen, k: Gen)
    requires Extends(g, h) && Extends(h, k)
    ensures Extends(g, k)
  {
  }

  lemma EmitExtends(g: Gen, i: Instr)
    requires Open(g)
    ensures Extends(g, Emit(g, i)) && Open(Emit(g, i))
  {
  }

  lemma EmitBinExtends(m: Arith, g: Gen, op: Opcode, a: Operand, b: Operand)
    requires Open(g)
    ensures var (h, r) := EmitBin(m, g, op, a, b);
            Extends(g, h) && Open(h) && Below(r, h.nregs) && h.named == g.named
  {
  }

  lemma BuiltInExtends(m: Arith, g: Gen, op: char, a: Operand, b: Operand)
    requires Open(g) && op in {'+', '-', '*', '<'}
    ensures var (h, r) := BuiltIn(m, g, op, a, b);
            Extends(g, h) && Open(h) && Below(r, h.nregs) && h.named == g.named
  {
    if op == '<' {
      EmitBinExtends(m, g, FCmpULT, a, b);
      var (h, c) := EmitBin(m, g, FCmpULT, a, b);
      var (k, r) := EmitToFP(m, h, c);
      assert Extends(h, k);
      ExtendsTrans(g, h, k);
    }
  }

  lemma IncrementExtends(m: Arith, g: Gen, slot: nat, step: Operand)
    requires Open(g)
    ensures var h := Increment(m, g, slot, step); Extends(g, h) && Open(h) && h.named == g.named
  {
    var (g1, x) := EmitLoad(g, slot);
    var (g2, next) := EmitBin(m, g1, FAdd, x, step);
    EmitBinExtends(m, g1, FAdd, x, step);
    ExtendsTrans(g, g1, g2);
    EmitExtends(g2, Store(next, slot));
    ExtendsTrans(g, g2, Increment(m, g, slot, step));
  }

  lemma TestLoopExtends(m: Arith, g: Gen, head: nat, end: Operand)
    requires Open(g)
    ensures var h := TestLoop(m, g, head, end); Extends(g, h) && Open(h) && h.named == g.named
  {
    var (g1, c) := EmitBin(m, g, FCmpONE, end, Lit(Dbl(m.zero)));
    EmitBinExtends(m, g, FCmpONE, end, Lit(Dbl(m.zero)));
    assert Extends(g1, TestLoop(m, g, head, end));
    ExtendsTrans(g, g1, TestLoop(m, g, head, end));
  }

  lemma EndLoopExtends(m: Arith, g: Gen, head: nat, slot: nat, step: Operand, end: Operand)
    requires Open(g)
    ensures var h := EndLoop(m, g, head, slot, step, end); Extends(g, h) && Open(h) && h.named == g.named
  {
    IncrementExtends(m, g, slot, step);
    TestLoopExtends(m, Increment(m, g, slot, step), head, end);
    ExtendsTrans(g, Increment(m, g, slot, step), EndLoop(m, g, head, slot, step, end));
  }

  lemma BeginLoopExtends(g: Gen)
    requires Open(g)
    ensures Extends(g, BeginLoop(g)) && Open(BeginLoop(g))
  {
  }

  lemma BeginIfOpen(g: Gen, c: Operand)
    ensures Open(BeginIf(g, c)) && |BeginIf(g, c).blocks| == |g.blocks| + 3
  {
  }

  lemma ElseOpen(g: Gen, c: Operand, a: Gen)
    requires Extends(BeginIf(g, c), a)
    ensures |g.blocks| + 3 <= |a.blocks| && Open(NextArm(a, |g.blocks| + 2, |g.blocks| + 1))
  {
    assert BeginIf(g, c).blocks[|g.blocks| + 1] == EMPTY_BLOCK;
  }

  /** Two arms and a phi between `g`, where the condition is known, and the merge block. */
  lemma IfExtends(g: Gen, c: Operand, a: Gen, b: Gen, incoming: seq<(Operand, nat)>)
    requires Open(g) && Extends(BeginIf(g, c), a) && Open(a)
    requires Extends(NextArm(a, |g.blocks| + 2, |g.blocks| + 1), b) && Open(b)
    ensures var n := |g.blocks|;
            var (h, r) := AddPhi(NextArm(b, n + 2, n + 2), incoming);
            && Open(NextArm(a, n + 2, n + 1))
            && Extends(g, h) && Open(h) && Below(r, h.nregs)
            && h.blocks[n + 2] == Block([Phi(b.nregs, incoming)], [], None)
  {
    var n := |g.blocks|;
    var g1 := BeginIf(g, c);
    assert g1.blocks[n + 1] == EMPTY_BLOCK && g1.blocks[n + 2] == EMPTY_BLOCK;
    var a1 := NextArm(a, n + 2, n + 1);
    assert a1.blocks[n + 2] == EMPTY_BLOCK && a1.blocks[n + 1] == EMPTY_BLOCK;
    assert b.blocks[n + 2] == EMPTY_BLOCK;
    forall l | 0 <= l < n && l != g.cur
      ensures b.blocks[l] == g.blocks[l]
    {
      assert a1.blocks[l] == a.blocks[l] == g1.blocks[l] == g.blocks[l];
    }
  }

  lemma {:induction false} GenArgsExtends(m: Arith, g: Gen, args: seq<Expr>)
    requires Open(g)
    ensures var o := GenArgs(m, g, args);
            o.Good? ==> Extends(g, o.g) && Open(o.g) && |o.value| == |args|
                        && forall i :: 0 <= i < |args| ==> Below(o.value[i], o.g.nregs)
    decreases args, 0
  {
    if args != [] {
      GenExprExtends(m, g, args[0]);
      var a := GenExpr(m, g, args[0]);
      if a.Good? {
        GenArgsExtends(m, a.g, args[1..]);
      }
    }
  }

  lemma {:induction false} GenOptionExtends(m: Arith, g: Gen, e: Option<Expr>, d: Double)
    requires Open(g)
    ensures var o := GenOption(m, g, e, d); o.Good? ==> Extends(g, o.g) && Open(o.g) && Below(o.value, o.g.nregs)
    decreases e, 3
  {
    if e.Some? {
      GenExprExtends(m, g, e.value);
    }
  }

  lemma BindExtends(g: Gen, x: string, v: Operand)
    requires Open(g)
    ensures Extends(g, Bind(g, x, v)) && Open(Bind(g, x, v))
  {
  }

  lemma {:induction false} GenBindingsExtends(m: Arith, g: Gen, bs: seq<Binding>, saved: map<string, Option<nat>>)
    requires Open(g)
    ensures var o := GenBindings(m, g, bs, saved); o.Good? ==> Extends(g, o.g) && Open(o.g)
    decreases bs, 0
  {
    if bs != [] {
      GenOptionExtends(m, g, bs[0].init, m.zero);
      var a := GenOption(m, g, bs[0].init, m.zero);
      if a.Good? {
        var b := Bind(a.g, bs[0].name, a.value);
        BindExtends(a.g, bs[0].name, a.value);
        GenBindingsExtends(m, b, bs[1..], saved[bs[0].name := Lookup(a.g.named, bs[0].name)]);
      }
    }
  }

  lemma {:induction false} GenIfExtends(m: Arith, g: Gen, e: Expr)
    requires Open(g) && e.If?
    ensures var o := GenIf(m, g, e); o.Good? ==> Extends(g, o.g) && Open(o.g) && Below(o.value, o.g.nregs)
    decreases e, 0
  {
    hide GenExpr, EmitBin, BeginIf, NextArm, AddPhi;
    GenExprExtends(m, g, e.cond);
    var o1 := GenExpr(m, g, e.cond);
    if GenIf(m, g, e).Good? {
      var (g2, bit) := EmitBin(m, o1.g, FCmpONE, o1.value, Lit(Dbl(m.zero)));
      EmitBinExtends(m, o1.g, FCmpONE, o1.value, Lit(Dbl(m.zero)));
      ExtendsTrans(g, o1.g, g2);
      var n := |g2.blocks|;
      BeginIfOpen(g2, bit);
      GenExprExtends(m, BeginIf(g2, bit), e.thn);
      var a := GenExpr(m, BeginIf(g2, bit), e.thn);
      ElseOpen(g2, bit, a.g);
      GenExprExtends(m, NextArm(a.g, n + 2, n + 1), e.els);
      var b := GenExpr(m, NextArm(a.g, n + 2, n + 1), e.els);
      IfExtends(g2, bit, a.g, b.g, [(a.value, a.g.cur), (b.value, b.g.cur)]);
    }
  }

  lemma {:induction false} GenLoopExtends(m: Arith, g: Gen, e: Expr, slot: nat)
    requires Open(g) && e.For?
    ensures var o := GenLoop(m, g, e, slot); o.Good? ==> Extends(g, o.g) && Open(o.g)
    decreases e, 0
  {
    hide GenExpr, GenOption, EndLoop, Extends;
    GenExprExtends(m, g, e.body);
    var a := GenExpr(m, g, e.body);
    if GenLoop(m, g, e, slot).Good? {
      GenOptionExtends(m, a.g, e.step, m.unit);
      var b := GenOption(m, a.g, e.step, m.unit);
      GenExprExtends(m, b.g, e.end);
      var c := GenExpr(m, b.g, e.end);
      EndLoopExtends(m, c.g, g.cur, slot, b.value, c.value);
      var h := EndLoop(m, c.g, g.cur, slot, b.value, c.value);
      ExtendsTrans(g, a.g, b.g);
      ExtendsTrans(g, b.g, c.g);
      ExtendsTrans(g, c.g, h);
    }
  }

  lemma {:induction false} GenForExtends(m: Arith, g: Gen, e: Expr)
    requires Open(g) && e.For?
    ensures var o := GenFor(m, g, e); o.Good? ==> Extends(g, o.g) && Open(o.g) && Below(o.value, o.g.nregs)
    decreases e, 1
  {
    hide GenExpr, GenLoop, BeginLoop;
    GenExprExtends(m, Alloca(g, e.name), e.start);
    var a := GenExpr(m, Alloca(g, e.name), e.start);
    if a.Good? {
      assert Extends(g, a.g);
      var g1 := Emit(a.g, Store(a.value, |g.allocas|));
      BeginLoopExtends(g1);
      var g2 := BeginLoop(g1);
      GenLoopExtends(m, g2.(named := g2.named[e.name := |g.allocas|]), e, |g.allocas|);
    }
  }

  lemma {:induction false} GenVarInExtends(m: Arith, g: Gen, e: Expr)
    requires Open(g) && e.VarIn?
    ensures var o := GenVarIn(m, g, e); o.Good? ==> Extends(g, o.g) && Open(o.g) && Below(o.value, o.g.nregs)
    decreases e, 0
  {
    GenBindingsExtends(m, g, e.bindings, map[]);
    var a := GenBindings(m, g, e.bindings, map[]);
    if a.Good? {
      GenExprExtends(m, a.g, e.body);
    }
  }

  lemma CallOperatorExtends(g: Gen, name: string, args: seq<Operand>)
    requires Open(g)
    ensures var o := CallOperator(g, name, args); o.Good? ==> Extends(g, o.g) && Open(o.g) && Below(o.value, o.g.nregs)
  {
  }

  lemma {:induction false} GenAssignExtends(m: Arith, g: Gen, e: Expr)
    requires Open(g) && e.Binary? && e.op == '='
    ensures var o := GenAssign(m, g, e); o.Good? ==> Extends(g, o.g) && Open(o.g) && Below(o.value, o.g.nregs)
    decreases e, 0
  {
    if e.lhs.Variable? {
      GenExprExtends(m, g, e.rhs);
      var a := GenExpr(m, g, e.rhs);
      if a.Good? && e.lhs.name in a.g.named {
        EmitExtends(a.g, Store(a.value, a.g.named[e.lhs.name]));
      }
    }
  }

  lemma {:induction false} GenBinaryExtends(m: Arith, g: Gen, e: Expr)
    requires Open(g) && e.Binary? && e.op != '='
    ensures var o := GenBinary(m, g, e); o.Good? ==> Extends(g, o.g) && Open(o.g) && Below(o.value, o.g.nregs)
    decreases e, 0
  {
    hide GenExpr, BuiltIn, CallOperator;
    GenExprExtends(m, g, e.lhs);
    var a := GenExpr(m, g, e.lhs);
    if GenBinary(m, g, e).Good? {
      GenExprExtends(m, a.g, e.rhs);
      var b := GenExpr(m, a.g, e.rhs);
      if UserOperator(e.op) {
        CallOperatorExtends(b.g, BinaryName(e.op), [a.value, b.value]);
      } else {
        BuiltInExtends(m, b.g, e.op, a.value, b.value);
      }
    }
  }

  lemma {:induction false} GenCallExtends(m: Arith, g: Gen, e: Expr)
    requires Open(g) && e.Call?
    ensures var o := GenCall(m, g, e); o.Good? ==> Extends(g, o.g) && Open(o.g) && Below(o.value, o.g.nregs)
    decreases e, 0
  {
    var g1 := GetFunction(g, e.callee).0;
    GenArgsExtends(m, g1, e.args);
  }

  /** Code generation only ever adds to the current block and to blocks of its own. */
  lemma {:induction false} GenExprExtends(m: Arith, g: Gen, e: Expr)
    requires Open(g)
    ensures var o := GenExpr(m, g, e); o.Good? ==> Extends(g, o.g) && Open(o.g) && Below(o.value, o.g.nregs)
    decreases e, 2
  {
    match e
    case Number(_) =>
    case Variable(_) =>
    case VarIn(_, _) => GenVarInExtends(m, g, e);
    case Unary(op, a) =>
      GenExprExtends(m, g, a);
      var o := GenExpr(m, g, a);
      if o.Good? {
        CallOperatorExtends(o.g, UnaryName(op), [o.value]);
      }
    case Binary(op, _, _) => if op == '=' { GenAssignExtends(m, g, e); } else { GenBinaryExtends(m, g, e); }
    case If(_, _, _) => GenIfExtends(m, g, e);
    case For(_, _, _, _, _) => GenForExtends(m, g, e);
    case Call(_, _) => GenCallExtends(m, g, e);
  }
}
