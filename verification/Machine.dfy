/**
 The instructions the Kaleidoscope front end emits and a small-step machine that runs them.

 A function's code is a list of blocks addressed by label.  Stack slots are allocated by a prologue
 at the head of the entry block, which is kept apart from the block's body.
 */
module Machine {
  import opened Prelude

  /** A double is only a bit pattern here: what operations do to it is a parameter. */
  datatype Double = Double(pattern: nat)

  /** What an external function was asked to do. */
  datatype Event = Event(callee: string, args: seq<Double>)

  type Trace = seq<Event>

  /**
   The operations on doubles.  `ult` is "unordered or less than", `one` is "ordered and not equal",
   `parse` is `strtod`, and `ext` is what an external function returns given everything external
   functions have been asked to do so far.
   */
  datatype Arith = Arith(
    add: (Double, Double) -> Double,
    sub: (Double, Double) -> Double,
    mul: (Double, Double) -> Double,
    ult: (Double, Double) -> bool,
    one: (Double, Double) -> bool,
    ofBit: bool -> Double,
    parse: string -> Double,
    zero: Double,
    unit: Double,
    ext: (string, seq<Double>, Trace) -> Double)

  datatype Val = Dbl(d: Double) | Bit(b: bool)

  datatype Operand = Reg(r: nat) | Lit(v: Val) | Arg(i: nat)

  datatype Opcode = FAdd | FSub | FMul | FCmpULT | FCmpONE

  datatype Instr =
    | Store(src: Operand, slot: nat)
    | Load(dst: nat, slot: nat)
    | Bin(dst: nat, op: Opcode, a: Operand, b: Operand)
    | UIToFP(dst: nat, a: Operand)
    | Call(dst: nat, callee: string, args: seq<Operand>)

  datatype Term = Br(target: nat) | CondBr(cond: Operand, thn: nat, els: nat) | Ret(v: Operand)

  datatype Phi = Phi(dst: nat, incoming: seq<(Operand, nat)>)

  datatype Block = Block(phis: seq<Phi>, body: seq<Instr>, term: Option<Term>)

  /** `allocas` names the slots, newest first; `layout` is the order in which blocks were inserted. */
  datatype Code = Code(blocks: seq<Block>, layout: seq<nat>, allocas: seq<string>)

  datatype Fn = Fn(params: seq<string>, code: Option<Code>)

  type Module = map<string, Fn>

  /** One activation: where it is, its registers, its own slots and its arguments. */
  datatype Frame = Frame(fn: string, block: nat, pc: nat, regs: map<nat, Val>, slots: map<nat, Double>,
      args: seq<Double>)

  datatype State =
    | Run(stack: seq<Frame>, trace: Trace)
    | Halted(result: Double, trace: Trace)
    | Wrong

  function Value(fr: Frame, op: Operand): Option<Val> {
    match op
    case Reg(r) => if r in fr.regs then Some(fr.regs[r]) else None
    case Lit(v) => Some(v)
    case Arg(i) => if i < |fr.args| then Some(Dbl(fr.args[i])) else None
  }

  /** The operands' values, provided that all of them are defined doubles. */
  function Values(fr: Frame, ops: seq<Operand>): Option<seq<Double>> {
    if ops == [] then Some([])
    else
      var v, vs := Value(fr, ops[0]), Values(fr, ops[1..]);
      if v.Some? && v.value.Dbl? && vs.Some? then Some([v.value.d] + vs.value) else None
  }

  function Compute(m: Arith, op: Opcode, a: Double, b: Double): Val {
    match op
    case FAdd => Dbl(m.add(a, b))
    case FSub => Dbl(m.sub(a, b))
    case FMul => Dbl(m.mul(a, b))
    case FCmpULT => Bit(m.ult(a, b))
    case FCmpONE => Bit(m.one(a, b))
  }

  function SetReg(fr: Frame, dst: nat, v: Val): Frame {
    fr.(regs := fr.regs[dst := v], pc := fr.pc + 1)
  }

  /** An instruction other than a call; `None` when it reads something undefined or a slot not allocated. */
  function Exec(m: Arith, slots: nat, fr: Frame, i: Instr): Option<Frame> {
    match i
    case Store(src, s) =>
      var v := Value(fr, src);
      if v.Some? && v.value.Dbl? && s < slots
      then Some(fr.(slots := fr.slots[s := v.value.d], pc := fr.pc + 1)) else None
    case Load(dst, s) =>
      if s < slots && s in fr.slots then Some(SetReg(fr, dst, Dbl(fr.slots[s]))) else None
    case Bin(dst, op, a, b) =>
      var x, y := Value(fr, a), Value(fr, b);
      if x.Some? && y.Some? && x.value.Dbl? && y.value.Dbl?
      then Some(SetReg(fr, dst, Compute(m, op, x.value.d, y.value.d))) else None
    case UIToFP(dst, a) =>
      var x := Value(fr, a);
      if x.Some? && x.value.Bit? then Some(SetReg(fr, dst, Dbl(m.ofBit(x.value.b)))) else None
    case Call(_, _, _) => None
  }

  function IncomingFor(incoming: seq<(Operand, nat)>, pred: nat): Option<Operand> {
    if incoming == [] then None
    else if incoming[0].1 == pred then Some(incoming[0].0)
    else IncomingFor(incoming[1..], pred)
  }

  /** All phis of a block read their operands before any of them is written. */
  function PhiRegs(fr: Frame, phis: seq<Phi>, regs: map<nat, Val>): Option<map<nat, Val>> {
    if phis == [] then Some(regs)
    else
      var op := IncomingFor(phis[0].incoming, fr.block);
      if op.None? then None
      else
        var v := Value(fr, op.value);
        if v.None? then None else PhiRegs(fr, phis[1..], regs[phis[0].dst := v.value])
  }

  function Jump(code: Code, fr: Frame, target: nat): Option<Frame> {
    if target < |code.blocks| then
      var regs := PhiRegs(fr, code.blocks[target].phis, fr.regs);
      if regs.Some? then Some(fr.(regs := regs.value, block := target, pc := 0)) else None
    else None
  }

  function Enter(callee: string, args: seq<Double>): Frame {
    Frame(callee, 0, 0, map[], map[], args)
  }

  function CallStep(m: Arith, mod: Module, fr: Frame, rest: seq<Frame>, t: Trace, i: Instr): State
    requires i.Call?
  {
    var vs := Values(fr, i.args);
    if vs.None? then Wrong
    else if i.callee in mod && mod[i.callee].code.Some? then
      if |vs.value| == |mod[i.callee].params| then Run([Enter(i.callee, vs.value), fr] + rest, t) else Wrong
    else
      Run([SetReg(fr, i.dst, Dbl(m.ext(i.callee, vs.value, t)))] + rest, t + [Event(i.callee, vs.value)])
  }

  /** Hand `v` to the caller, which is waiting at its call instruction. */
  function Return(mod: Module, stack: seq<Frame>, v: Double, t: Trace): State {
    if stack == [] then Halted(v, t)
    else
      var fr := stack[0];
      var i := Fetch(mod, fr);
      if i.Some? && i.value.Call? then Run([SetReg(fr, i.value.dst, Dbl(v))] + stack[1..], t) else Wrong
  }

  function TermStep(mod: Module, code: Code, fr: Frame, rest: seq<Frame>, t: Trace, term: Term): State {
    match term
    case Br(l) =>
      var j := Jump(code, fr, l);
      if j.Some? then Run([j.value] + rest, t) else Wrong
    case CondBr(c, l1, l2) =>
      var v := Value(fr, c);
      if v.Some? && v.value.Bit? then
        var j := Jump(code, fr, if v.value.b then l1 else l2);
        if j.Some? then Run([j.value] + rest, t) else Wrong
      else Wrong
    case Ret(op) =>
      var v := Value(fr, op);
      if v.Some? && v.value.Dbl? then Return(mod, rest, v.value.d, t) else Wrong
  }

  /** The block an activation is in. */
  function BlockOf(mod: Module, fr: Frame): Option<Block> {
    if fr.fn in mod && mod[fr.fn].code.Some? && fr.block < |mod[fr.fn].code.value.blocks|
    then Some(mod[fr.fn].code.value.blocks[fr.block]) else None
  }

  function Fetch(mod: Module, fr: Frame): Option<Instr> {
    var b := BlockOf(mod, fr);
    if b.Some? && fr.pc < |b.value.body| then Some(b.value.body[fr.pc]) else None
  }

  /** One step.  A halted machine stays where it is. */
  function Step(m: Arith, mod: Module, s: State): State {
    if !s.Run? then s
    else if s.stack == [] then Wrong
    else
      var fr, rest := s.stack[0], s.stack[1..];
      var b := BlockOf(mod, fr);
      if b.None? then Wrong
      else if fr.pc < |b.value.body| then
        var i := b.value.body[fr.pc];
        if i.Call? then CallStep(m, mod, fr, rest, s.trace, i)
        else
          var fr' := Exec(m, |mod[fr.fn].code.value.allocas|, fr, i);
          if fr'.Some? then Run([fr'.value] + rest, s.trace) else Wrong
      else if b.value.term.Some? then
        TermStep(mod, mod[fr.fn].code.value, fr, rest, s.trace, b.value.term.value)
      else Wrong
  }

  function Steps(m: Arith, mod: Module, n: nat, s: State): State {
    if n == 0 then s else Steps(m, mod, n - 1, Step(m, mod, s))
  }

  /** Running `a` steps and then `b` more is running `a + b` steps. */
  lemma {:induction false} StepsAdd(m: Arith, mod: Module, a: nat, b: nat, s: State)
    ensures Steps(m, mod, a + b, s) == Steps(m, mod, b, Steps(m, mod, a, s))
  {
    if a != 0 {
      StepsAdd(m, mod, a - 1, b, Step(m, mod, s));
    }
  }

  /** A machine that has stopped never starts again. */
  lemma {:induction false} StoppedStays(m: Arith, mod: Module, a: nat, b: nat, s: State)
    requires a <= b && !Steps(m, mod, a, s).Run?
    ensures Steps(m, mod, b, s) == Steps(m, mod, a, s)
  {
    StepsAdd(m, mod, a, b - a, s);
    Idle(m, mod, b - a, Steps(m, mod, a, s));
  }

  lemma {:induction false} Idle(m: Arith, mod: Module, n: nat, s: State)
    requires !s.Run?
    ensures Steps(m, mod, n, s) == s
  {
    if n != 0 {
      Idle(m, mod, n - 1, s);
    }
  }

  // ----- Events are never taken back -----

  lemma StepGrows(m: Arith, mod: Module, s: State)
    requires !Step(m, mod, s).Wrong?
    ensures !s.Wrong? && s.trace <= Step(m, mod, s).trace
  {
  }

  lemma {:induction false} TraceGrows(m: Arith, mod: Module, a: nat, b: nat, s: State)
    requires a <= b && !Steps(m, mod, b, s).Wrong?
    ensures var u, v := Steps(m, mod, a, s), Steps(m, mod, b, s); !u.Wrong? && u.trace <= v.trace
    decreases b
  {
    hide Step;
    if a == 0 && b != 0 {
      TraceGrows(m, mod, 0, b - 1, Step(m, mod, s));
      StepGrows(m, mod, s);
    } else if a != 0 {
      TraceGrows(m, mod, a - 1, b - 1, Step(m, mod, s));
    }
  }
}
