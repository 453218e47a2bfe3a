/**
 The code generator as it runs: a builder whose fields every `codegen` method updates in place.  Each
 method leaves exactly the state, and returns or throws exactly what, the functions of `Codegen` say.
 */
module Generator {
  import opened Prelude
  import opened Ast
  import opened Machine
  import opened Codegen

  class Builder {
    const m: Arith
    var blocks: seq<Block>
    var layout: seq<nat>
    var cur: nat
    var nregs: nat
    var allocas: seq<string>
    var named: map<string, nat>
    var mod: Module
    var protos: map<string, Prototype>

    constructor (m: Arith)
      ensures this.m == m && Valid() && mod == map[] && protos == map[]
    {
      this.m := m;
      blocks, layout, cur, nregs := [EMPTY_BLOCK], [0], 0, 0;
      allocas, named, mod, protos := [], map[], map[], map[];
    }

    predicate Valid()
      reads this
    {
      cur < |blocks|
    }

    function State(): Gen
      reads this
      requires Valid()
    {
      GenState(blocks, layout, cur, nregs, allocas, named, mod, protos)
    }

    /** The fields and the outcome are those of `o`. */
    ghost predicate Yields<T>(o: Out<T>, r: Result<T, CodegenError>)
      reads this
    {
      Valid() && State() == o.g && r == if o.Good? then Ok(o.value) else Err(o.error)
    }

    method EmitInstr(i: Instr)
      requires Valid()
      modifies this
      ensures Valid() && State() == Emit(old(State()), i)
    {
      blocks := blocks[cur := blocks[cur].(body := blocks[cur].body + [i])];
    }

    method SealWith(t: Term)
      requires Valid()
      modifies this
      ensures Valid() && State() == Seal(old(State()), t)
    {
      blocks := blocks[cur := blocks[cur].(term := Some(t))];
    }

    method NewReg() returns (r: nat)
      modifies this`nregs
      ensures r == old(nregs) && nregs == old(nregs) + 1
    {
      r := nregs;
      nregs := nregs + 1;
    }

    method CreateBin(op: Opcode, a: Operand, b: Operand) returns (r: Operand)
      requires Valid()
      modifies this
      ensures Valid() && (State(), r) == EmitBin(m, old(State()), op, a, b)
    {
      if a.Lit? && b.Lit? && a.v.Dbl? && b.v.Dbl? {
        r := Lit(Compute(m, op, a.v.d, b.v.d));
      } else {
        EmitInstr(Bin(nregs, op, a, b));
        var n := NewReg();
        r := Reg(n);
      }
    }

    method CreateUIToFP(a: Operand) returns (r: Operand)
      requires Valid()
      modifies this
      ensures Valid() && (State(), r) == EmitToFP(m, old(State()), a)
    {
      if a.Lit? && a.v.Bit? {
        r := Lit(Dbl(m.ofBit(a.v.b)));
      } else {
        EmitInstr(UIToFP(nregs, a));
        var n := NewReg();
        r := Reg(n);
      }
    }

    method CreateLoad(slot: nat) returns (r: Operand)
      requires Valid()
      modifies this
      ensures Valid() && (State(), r) == EmitLoad(old(State()), slot)
    {
      EmitInstr(Load(nregs, slot));
      var n := NewReg();
      r := Reg(n);
    }

    method CreateCall(f: string, args: seq<Operand>) returns (r: Operand)
      requires Valid()
      modifies this
      ensures Valid() && (State(), r) == EmitCall(old(State()), f, args)
    {
      EmitInstr(Instr.Call(nregs, f, args));
      var n := NewReg();
      r := Reg(n);
    }

    method FindFunction(name: string) returns (arity: Option<nat>)
      requires Valid()
      modifies this`mod
      ensures Valid() && (State(), arity) == GetFunction(old(State()), name)
    {
      if name in mod {
        return Some(|mod[name].params|);
      }
      if name in protos {
        mod := mod[name := Fn(protos[name].params, None)];
        return Some(|protos[name].params|);
      }
      return None;
    }

    method CreateEntryBlockAlloca(name: string) returns (slot: nat)
      requires Valid()
      modifies this`allocas
      ensures Valid() && State() == Alloca(old(State()), name) && slot == |old(allocas)|
    {
      slot := |allocas|;
      allocas := [name] + allocas;
    }

    // ----- One method for each kind of expression -----

    method CodegenVariable(x: string) returns (r: Result<Operand, CodegenError>)
      requires Valid()
      modifies this
      ensures Yields(GenVariable(old(State()), x), r)
    {
      if x !in named {
        return Err(UnknownVariable(x));
      }
      var v := CreateLoad(named[x]);
      return Ok(v);
    }

    method CodegenOption(e: Option<Expr>, default: Double) returns (r: Result<Operand, CodegenError>)
      requires Valid()
      modifies this
      ensures Yields(GenOption(m, old(State()), e, default), r)
      decreases e, 3
    {
      if e.Some? {
        r := CodegenExpr(e.value);
      } else {
        r := Ok(Lit(Dbl(default)));
      }
    }

    method CodegenVarIn(e: Expr) returns (r: Result<Operand, CodegenError>)
      requires Valid() && e.VarIn?
      modifies this
      ensures Yields(GenVarIn(m, old(State()), e), r)
      decreases e, 0
    {
      var oldValues: map<string, Option<nat>> := map[];
      var i := 0;
      while i < |e.bindings|
        invariant Valid() && i <= |e.bindings|
        invariant GenBindings(m, State(), e.bindings[i..], oldValues) == GenBindings(m, old(State()), e.bindings, map[])
      {
        var b := e.bindings[i];
        assert e.bindings[i..][0] == b && e.bindings[i..][1..] == e.bindings[i + 1..];
        var init := CodegenOption(b.init, m.zero);
        if init.Err? {
          return Err(init.error);
        }
        oldValues := oldValues[b.name := Lookup(named, b.name)];
        var slot := CreateEntryBlockAlloca(b.name);
        EmitInstr(Store(init.value, slot));
        named := named[b.name := slot];
        i := i + 1;
      }
      assert e.bindings[i..] == [];
      var result := CodegenExpr(e.body);
      if result.Err? {
        return Err(result.error);
      }
      RestoreNames(Names(e.bindings), oldValues);
      return result;
    }

    method RestoreNames(names: seq<string>, oldValues: map<string, Option<nat>>)
      requires Valid() && forall i :: 0 <= i < |names| ==> names[i] in oldValues
      modifies this`named
      ensures named == RestoreAll(old(named), names, oldValues)
    {
      var i := 0;
      while i < |names|
        invariant i <= |names|
        invariant RestoreAll(named, names[i..], oldValues) == RestoreAll(old(named), names, oldValues)
      {
        assert names[i..][0] == names[i] && names[i..][1..] == names[i + 1..];
        if oldValues[names[i]].Some? {
          named := named[names[i] := oldValues[names[i]].value];
        } else {
          named := named - {names[i]};
        }
        i := i + 1;
      }
      assert names[i..] == [];
    }

    method CodegenOperator(name: string, args: seq<Operand>) returns (r: Result<Operand, CodegenError>)
      requires Valid()
      modifies this
      ensures Yields(CallOperator(old(State()), name, args), r)
    {
      var arity := FindFunction(name);
      if arity.None? {
        return Err(UnknownFunction(name));
      }
      var v := CreateCall(name, args);
      return Ok(v);
    }

    method CodegenUnary(e: Expr) returns (r: Result<Operand, CodegenError>)
      requires Valid() && e.Unary?
      modifies this
      ensures Yields(GenUnary(m, old(State()), e), r)
      decreases e, 0
    {
      var operand := CodegenExpr(e.operand);
      if operand.Err? {
        return Err(operand.error);
      }
      r := CodegenOperator(UnaryName(e.op), [operand.value]);
    }

    method CodegenBinary(e: Expr) returns (r: Result<Operand, CodegenError>)
      requires Valid() && e.Binary?
      modifies this
      ensures Yields(if e.op == '=' then GenAssign(m, old(State()), e) else GenBinary(m, old(State()), e), r)
      decreases e, 0
    {
      if e.op == '=' {
        if !e.lhs.Variable? {
          return Err(BadDestination);
        }
        var v := CodegenExpr(e.rhs);
        if v.Err? {
          return Err(v.error);
        }
        if e.lhs.name !in named {
          return Err(UnknownVariable(e.lhs.name));
        }
        EmitInstr(Store(v.value, named[e.lhs.name]));
        return v;
      }
      var lhs := CodegenExpr(e.lhs);
      if lhs.Err? {
        return Err(lhs.error);
      }
      var rhs := CodegenExpr(e.rhs);
      if rhs.Err? {
        return Err(rhs.error);
      }
      r := CodegenBuiltInOrCall(e.op, lhs.value, rhs.value);
    }

    method CodegenBuiltInOrCall(op: char, lhs: Operand, rhs: Operand) returns (r: Result<Operand, CodegenError>)
      requires Valid() && op != '='
      modifies this
      ensures var g := old(State());
              if UserOperator(op) then Yields(CallOperator(g, BinaryName(op), [lhs, rhs]), r)
              else Valid() && r.Ok? && (State(), r.value) == BuiltIn(m, g, op, lhs, rhs)
    {
      var v: Operand;
      if op == '+' {
        v := CreateBin(FAdd, lhs, rhs);
      } else if op == '-' {
        v := CreateBin(FSub, lhs, rhs);
      } else if op == '*' {
        v := CreateBin(FMul, lhs, rhs);
      } else if op == '<' {
        v := CreateBin(FCmpULT, lhs, rhs);
        v := CreateUIToFP(v);
      } else {
        r := CodegenOperator(BinaryName(op), [lhs, rhs]);
        return;
      }
      return Ok(v);
    }

    method StartIf(c: Operand) returns (thenBB: nat, elseBB: nat, mergeBB: nat)
      requires Valid()
      modifies this
      ensures Valid() && State() == BeginIf(old(State()), c)
      ensures thenBB == |old(blocks)| && elseBB == thenBB + 1 && mergeBB == thenBB + 2
    {
      thenBB, elseBB, mergeBB := |blocks|, |blocks| + 1, |blocks| + 2;
      SealWith(CondBr(c, thenBB, elseBB));
      blocks := blocks + [EMPTY_BLOCK, EMPTY_BLOCK, EMPTY_BLOCK];
      layout := layout + [thenBB];
      cur := thenBB;
    }

    method FinishArm(mergeBB: nat, next: nat)
      requires Valid() && next < |blocks|
      modifies this
      ensures Valid() && State() == NextArm(old(State()), mergeBB, next)
    {
      SealWith(Br(mergeBB));
      layout := layout + [next];
      cur := next;
    }

    method CreatePhi(incoming: seq<(Operand, nat)>) returns (r: Operand)
      requires Valid()
      modifies this
      ensures Valid() && (State(), r) == AddPhi(old(State()), incoming)
    {
      blocks := blocks[cur := blocks[cur].(phis := blocks[cur].phis + [Phi(nregs, incoming)])];
      var n := NewReg();
      r := Reg(n);
    }

    method CodegenIf(e: Expr) returns (r: Result<Operand, CodegenError>)
      requires Valid() && e.If?
      modifies this
      ensures Yields(GenIf(m, old(State()), e), r)
      decreases e, 0
    {
      hide GenExpr, EmitBin;
      var cond := CodegenExpr(e.cond);
      if cond.Err? {
        return Err(cond.error);
      }
      var bit := CreateBin(FCmpONE, cond.value, Lit(Dbl(m.zero)));
      var thenBB, elseBB, mergeBB := StartIf(bit);
      var thenValue := CodegenExpr(e.thn);
      if thenValue.Err? {
        return Err(thenValue.error);
      }
      var thenEnd := cur;
      FinishArm(mergeBB, elseBB);
      var elseValue := CodegenExpr(e.els);
      if elseValue.Err? {
        return Err(elseValue.error);
      }
      var elseEnd := cur;
      FinishArm(mergeBB, mergeBB);
      var phi := CreatePhi([(thenValue.value, thenEnd), (elseValue.value, elseEnd)]);
      return Ok(phi);
    }

    method CodegenLoop(e: Expr, slot: nat) returns (r: Result<(), CodegenError>)
      requires Valid() && e.For?
      modifies this
      ensures Yields(GenLoop(m, old(State()), e, slot), r)
      decreases e, 0
    {
      var loopBB := cur;
      var body := CodegenExpr(e.body);
      if body.Err? {
        return Err(body.error);
      }
      var step := CodegenOption(e.step, m.unit);
      if step.Err? {
        return Err(step.error);
      }
      var end := CodegenExpr(e.end);
      if end.Err? {
        return Err(end.error);
      }
      FinishLoop(loopBB, slot, step.value, end.value);
      return Ok(());
    }

    method FinishLoop(loopBB: nat, slot: nat, step: Operand, end: Operand)
      requires Valid()
      modifies this
      ensures Valid() && State() == EndLoop(m, old(State()), loopBB, slot, step, end)
    {
      var x := CreateLoad(slot);
      var next := CreateBin(FAdd, x, step);
      EmitInstr(Store(next, slot));
      var bit := CreateBin(FCmpONE, end, Lit(Dbl(m.zero)));
      var afterBB := |blocks|;
      blocks := blocks + [EMPTY_BLOCK];
      layout := layout + [afterBB];
      SealWith(CondBr(bit, loopBB, afterBB));
      cur := afterBB;
    }

    method CodegenFor(e: Expr) returns (r: Result<Operand, CodegenError>)
      requires Valid() && e.For?
      modifies this
      ensures Yields(GenFor(m, old(State()), e), r)
      decreases e, 1
    {
      hide GenExpr, GenLoop;
      var slot := CreateEntryBlockAlloca(e.name);
      var start := CodegenExpr(e.start);
      if start.Err? {
        return Err(start.error);
      }
      EmitInstr(Store(start.value, slot));
      var loopBB := |blocks|;
      blocks := blocks + [EMPTY_BLOCK];
      layout := layout + [loopBB];
      SealWith(Br(loopBB));
      cur := loopBB;
      var oldVal := Lookup(named, e.name);
      named := named[e.name := slot];
      var loop := CodegenLoop(e, slot);
      if loop.Err? {
        return Err(loop.error);
      }
      if oldVal.Some? {
        named := named[e.name := oldVal.value];
      } else {
        named := named - {e.name};
      }
      return Ok(Lit(Dbl(m.zero)));
    }

    method CodegenCall(e: Expr) returns (r: Result<Operand, CodegenError>)
      requires Valid() && e.Call?
      modifies this
      ensures Yields(GenCall(m, old(State()), e), r)
      decreases e, 1
    {
      var arity := FindFunction(e.callee);
      if arity.None? {
        return Err(UnknownFunction(e.callee));
      }
      if arity.value != |e.args| {
        return Err(WrongArity(e.callee));
      }
      var args := CodegenArgs(e.args);
      if args.Err? {
        return Err(args.error);
      }
      var v := CreateCall(e.callee, args.value);
      return Ok(v);
    }

    method CodegenArgs(es: seq<Expr>) returns (r: Result<seq<Operand>, CodegenError>)
      requires Valid()
      modifies this
      ensures Yields(GenArgs(m, old(State()), es), r)
      decreases es, 1
    {
      var args: seq<Operand> := [];
      var i := 0;
      assert es[0..] == es;
      PrefixedNone(GenArgs(m, State(), es));
      while i < |es|
        invariant Valid() && i <= |es|
        invariant GenArgs(m, old(State()), es) == Prefixed(args, GenArgs(m, State(), es[i..]))
      {
        assert es[i..][0] == es[i] && es[i..][1..] == es[i + 1..];
        ghost var rest := GenArgs(m, State(), es[i..]);
        var a := CodegenExpr(es[i]);
        if a.Err? {
          return Err(a.error);
        }
        assert rest == Prefixed([a.value], GenArgs(m, State(), es[i + 1..]));
        PrefixedTwice(args, [a.value], GenArgs(m, State(), es[i + 1..]));
        args := args + [a.value];
        i := i + 1;
      }
      assert es[i..] == [];
      assert args + [] == args;
      return Ok(args);
    }

    method CodegenExpr(e: Expr) returns (r: Result<Operand, CodegenError>)
      requires Valid()
      modifies this
      ensures Yields(GenExpr(m, old(State()), e), r)
      decreases e, 2
    {
      match e
      case Number(text) => r := Ok(Lit(Dbl(m.parse(text))));
      case Variable(x) => r := CodegenVariable(x);
      case VarIn(_, _) => r := CodegenVarIn(e);
      case Unary(_, _) => r := CodegenUnary(e);
      case Binary(_, _, _) => r := CodegenBinary(e);
      case If(_, _, _) => r := CodegenIf(e);
      case For(_, _, _, _, _) => r := CodegenFor(e);
      case Call(_, _) => r := CodegenCall(e);
    }

    /** `PrototypeAST::codegen`. */
    method CodegenPrototype(p: Prototype)
      modifies this`mod
      ensures mod == Declare(old(mod), p)
    {
      if p.name !in mod {
        mod := mod[p.name := Fn(p.params, None)];
      }
    }

    /**
     `FunctionAST::codegen`: whatever the builder was doing before, the module and the prototypes end up as
     `GenDefinition` says.
     */
    method CodegenDefinition(d: Definition) returns (r: Result<Fn, CodegenError>)
      modifies this
      ensures (Globals(mod, protos), r) == GenDefinition(m, Globals(old(mod), old(protos)), d)
    {
      hide GenExpr, GenParams;
      var name := d.proto.name;
      protos := protos[name := d.proto];
      CodegenPrototype(d.proto);
      if mod[name].code.Some? {
        return Err(Redefined(name));
      }
      var params := mod[name].params;
      blocks, layout, cur, nregs, allocas, named := [EMPTY_BLOCK], [0], 0, 0, [], map[];
      StoreParams(params);
      var result := CodegenExpr(d.body);
      if result.Err? {
        mod := mod - {name};
        return Err(result.error);
      }
      SealWith(Ret(result.value));
      var fn := Fn(params, Some(Code(blocks, layout, allocas)));
      mod := mod[name := fn];
      return Ok(fn);
    }

    method StoreParams(params: seq<string>)
      requires Valid()
      modifies this
      ensures Valid() && State() == GenParams(old(State()), params, 0)
    {
      var i := 0;
      while i < |params|
        invariant Valid() && i <= |params|
        invariant GenParams(State(), params, i) == GenParams(old(State()), params, 0)
      {
        var slot := CreateEntryBlockAlloca(params[i]);
        EmitInstr(Store(Arg(i), slot));
        named := named[params[i] := slot];
        i := i + 1;
      }
    }
  }

  /** The outcome of the remaining arguments after `done` have been generated. */
  ghost function Prefixed(done: seq<Operand>, o: Out<seq<Operand>>): Out<seq<Operand>> {
    if o.Good? then Good(o.g, done + o.value) else o
  }

  lemma PrefixedNone(o: Out<seq<Operand>>)
    ensures Prefixed([], o) == o
  {
    if o.Good? {
      assert [] + o.value == o.value;
    }
  }

  lemma PrefixedTwice(a: seq<Operand>, b: seq<Operand>, o: Out<seq<Operand>>)
    ensures Prefixed(a, Prefixed(b, o)) == Prefixed(a + b, o)
  {
    if o.Good? {
      assert a + (b + o.value) == (a + b) + o.value;
    }
  }
}
