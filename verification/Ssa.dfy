/**
 The functions that the LLVM passes rewrite: blocks of phis, instructions and a terminator over
 virtual registers, and a machine that runs one block at a time.

 What an instruction computes and which effect it has are parameters, apart from the few operations
 the passes create themselves.  Reading a register that was never written is an error of the run.
 */
module Ssa {
  import opened Prelude

  datatype Operand = Reg(r: nat) | Const(v: int)

  datatype Kind = Add | Sub | Mul | Xor | And

  /** `Dbg` instructions are debug intrinsics; an `Opaque` operation is known by its number only. */
  datatype Op = IsNull | Bin(kind: Kind, width: nat) | Dbg | Opaque(id: nat)

  datatype Ty = Void | Int | Other

  /** An instruction; `dst` is meaningful unless the type is `Void`. */
  datatype Instr = Instr(ty: Ty, dst: nat, op: Op, args: seq<Operand>)

  datatype Phi = Phi(ty: Ty, dst: nat, incoming: seq<(nat, Operand)>)

  datatype TermKind = Br | CondBr | Switch | Ret | OtherTerm

  datatype Term = Term(kind: TermKind, args: seq<Operand>, succs: seq<nat>)

  datatype Block = Block(phis: seq<Phi>, body: seq<Instr>, term: Term)

  /** `inputs` are the registers that hold the arguments and integer globals when the function starts. */
  datatype Fn = Fn(entry: nat, inputs: set<nat>, blocks: map<nat, Block>)

  datatype Event = Event(id: nat, args: seq<int>)

  type Trace = seq<Event>

  type Regs = map<nat, int>

  /**
   The meaning of what the passes do not look into: the value an opaque operation computes, which may
   depend on everything that happened before, whether it has an effect, integer arithmetic at each
   width, and the successor a switch or another multi-way terminator takes.
   */
  datatype Sem = Sem(
    value: (nat, seq<int>, Trace) -> int,
    effect: nat -> bool,
    arith: (Kind, nat, int, int) -> int,
    pick: seq<int> -> nat)

  datatype Local = Local(regs: Regs, trace: Trace)

  datatype State =
    | Run(at: nat, regs: Regs, trace: Trace)
    | Finished(result: seq<int>, trace: Trace)
    | Stuck

  function ValueOf(regs: Regs, op: Operand): Option<int> {
    match op
    case Reg(r) => if r in regs then Some(regs[r]) else None
    case Const(v) => Some(v)
  }

  function ValuesOf(regs: Regs, ops: seq<Operand>): Option<seq<int>> {
    if ops == [] then Some([])
    else
      var v, vs := ValueOf(regs, ops[0]), ValuesOf(regs, ops[1..]);
      if v.Some? && vs.Some? then Some([v.value] + vs.value) else None
  }

  function Compute(sem: Sem, op: Op, vs: seq<int>, t: Trace): int {
    match op
    case IsNull => if |vs| > 0 && vs[0] == 0 then 1 else 0
    case Bin(k, w) => if |vs| == 2 then sem.arith(k, w, vs[0], vs[1]) else 0
    case Dbg => 0
    case Opaque(id) => sem.value(id, vs, t)
  }

  function Emits(sem: Sem, op: Op, vs: seq<int>): Trace {
    if op.Opaque? && sem.effect(op.id) then [Event(op.id, vs)] else []
  }

  function Exec(sem: Sem, i: Instr, l: Local): Option<Local> {
    var vs := ValuesOf(l.regs, i.args);
    if vs.None? then None
    else
      var v := Compute(sem, i.op, vs.value, l.trace);
      Some(Local(if i.ty.Void? then l.regs else l.regs[i.dst := v], l.trace + Emits(sem, i.op, vs.value)))
  }

  function ExecAll(sem: Sem, body: seq<Instr>, l: Local): Option<Local>
    decreases |body|
  {
    if body == [] then Some(l)
    else
      var n := Exec(sem, body[0], l);
      if n.None? then None else ExecAll(sem, body[1..], n.value)
  }

  function Incoming(incoming: seq<(nat, Operand)>, pred: nat): Option<Operand> {
    if incoming == [] then None
    else if incoming[0].0 == pred then Some(incoming[0].1)
    else Incoming(incoming[1..], pred)
  }

  /** The registers after the phis, all of which read `regs`. */
  function ExecPhis(phis: seq<Phi>, pred: nat, regs: Regs, acc: Regs): Option<Regs>
    decreases |phis|
  {
    if phis == [] then Some(acc)
    else
      var op := Incoming(phis[0].incoming, pred);
      if op.None? then None
      else
        var v := ValueOf(regs, op.value);
        if v.None? then None else ExecPhis(phis[1..], pred, regs, acc[phis[0].dst := v.value])
  }

  function Choose(sem: Sem, kind: TermKind, vs: seq<int>): nat {
    match kind
    case Br => 0
    case CondBr => if |vs| > 0 && vs[0] != 0 then 0 else 1
    case _ => sem.pick(vs)
  }

  /** Control goes from the end of `pred` to block `l`. */
  function Enter(f: Fn, l: nat, pred: nat, regs: Regs, t: Trace): State {
    if l !in f.blocks then Stuck
    else
      var r := ExecPhis(f.blocks[l].phis, pred, regs, regs);
      if r.None? then Stuck else Run(l, r.value, t)
  }

  function Leave(sem: Sem, f: Fn, pred: nat, term: Term, l: Local): State {
    var vs := ValuesOf(l.regs, term.args);
    if vs.None? then Stuck
    else if term.succs == [] then Finished(vs.value, l.trace)
    else
      var i := Choose(sem, term.kind, vs.value);
      if i < |term.succs| then Enter(f, term.succs[i], pred, l.regs, l.trace) else Stuck
  }

  /** A whole block: its body, its terminator and the phis of the block it goes to. */
  function Step(sem: Sem, f: Fn, s: State): State {
    if !s.Run? then s
    else if s.at !in f.blocks then Stuck
    else
      var b := f.blocks[s.at];
      var l := ExecAll(sem, b.body, Local(s.regs, s.trace));
      if l.None? then Stuck else Leave(sem, f, s.at, b.term, l.value)
  }

  function Steps(sem: Sem, f: Fn, n: nat, s: State): State {
    if n == 0 then s else Step(sem, f, Steps(sem, f, n - 1, s))
  }

  /** The function is called: the entry block has no phis and the inputs are set. */
  function Start(f: Fn, regs: Regs): State { Run(f.entry, regs, []) }

  lemma {:induction false} StepsAdd(sem: Sem, f: Fn, a: nat, b: nat, s: State)
    ensures Steps(sem, f, a + b, s) == Steps(sem, f, b, Steps(sem, f, a, s))
  {
    if b != 0 {
      StepsAdd(sem, f, a, b - 1, s);
      assert a + b - 1 == a + (b - 1);
    }
  }

  lemma {:induction false} StoppedStays(sem: Sem, f: Fn, a: nat, b: nat, s: State)
    requires a <= b && !Steps(sem, f, a, s).Run?
    ensures Steps(sem, f, b, s) == Steps(sem, f, a, s)
  {
    if a < b {
      StoppedStays(sem, f, a, b - 1, s);
    }
  }

  // ----- What a caller observes -----

  ghost predicate Ends(sem: Sem, f: Fn, regs: Regs, result: seq<int>, t: Trace) {
    exists n: nat :: Steps(sem, f, n, Start(f, regs)) == Finished(result, t)
  }

  ghost predicate Safe(sem: Sem, f: Fn, regs: Regs) {
    forall n: nat :: !Steps(sem, f, n, Start(f, regs)).Stuck?
  }

  /** At some point of the run the effects so far begin with `t`. */
  ghost predicate Makes(sem: Sem, f: Fn, regs: Regs, t: Trace) {
    exists n: nat :: Shows(Steps(sem, f, n, Start(f, regs)), t)
  }

  ghost predicate Shows(s: State, t: Trace) { !s.Stuck? && t <= s.trace }

  /**
   Called with the same inputs, both functions end with the same result and effects or both run forever,
   and whether or not they end they have the same effects in the same order.
   */
  ghost predicate SameBehaviour(sem: Sem, f: Fn, g: Fn, regs: Regs) {
    && (forall result: seq<int>, t: Trace :: Ends(sem, f, regs, result, t) <==> Ends(sem, g, regs, result, t))
    && (forall t: Trace :: Makes(sem, f, regs, t) <==> Makes(sem, g, regs, t))
  }

  lemma SameBehaviourTrans(sem: Sem, f: Fn, g: Fn, h: Fn, regs: Regs)
    requires SameBehaviour(sem, f, g, regs) && SameBehaviour(sem, g, h, regs)
    ensures SameBehaviour(sem, f, h, regs)
  {
    hide Ends, Makes;
    forall result: seq<int>, t: Trace
      ensures Ends(sem, f, regs, result, t) <==> Ends(sem, h, regs, result, t)
    {
      assert Ends(sem, f, regs, result, t) <==> Ends(sem, g, regs, result, t);
    }
    forall t: Trace
      ensures Makes(sem, f, regs, t) <==> Makes(sem, h, regs, t)
    {
      assert Makes(sem, f, regs, t) <==> Makes(sem, g, regs, t);
    }
  }

  // ----- Runs in step with each other -----

  /** What a caller can tell about two states. */
  ghost predicate SameView(s: State, s': State) {
    match s
    case Run(_, _, t) => s'.Run? && s'.trace == t
    case Finished(_, _) => s' == s
    case Stuck => false
  }

  lemma InStep(sem: Sem, f: Fn, g: Fn, regs: Regs)
    requires forall n: nat :: SameView(Steps(sem, f, n, Start(f, regs)), Steps(sem, g, n, Start(g, regs)))
    ensures SameBehaviour(sem, f, g, regs) && Safe(sem, g, regs)
  {
    hide Steps;
    forall n: nat
      ensures !Steps(sem, g, n, Start(g, regs)).Stuck?
    {
      assert SameView(Steps(sem, f, n, Start(f, regs)), Steps(sem, g, n, Start(g, regs)));
    }
    forall result: seq<int>, t: Trace
      ensures Ends(sem, f, regs, result, t) <==> Ends(sem, g, regs, result, t)
    {
      InStepEnds(sem, f, g, regs, result, t);
    }
    forall t: Trace
      ensures Makes(sem, f, regs, t) <==> Makes(sem, g, regs, t)
    {
      InStepMakes(sem, f, g, regs, t);
    }
  }

  lemma InStepEnds(sem: Sem, f: Fn, g: Fn, regs: Regs, result: seq<int>, t: Trace)
    requires forall n: nat :: SameView(Steps(sem, f, n, Start(f, regs)), Steps(sem, g, n, Start(g, regs)))
    ensures Ends(sem, f, regs, result, t) <==> Ends(sem, g, regs, result, t)
  {
    hide Steps;
    if Ends(sem, f, regs, result, t) {
      var n: nat :| Steps(sem, f, n, Start(f, regs)) == Finished(result, t);
      assert Steps(sem, g, n, Start(g, regs)) == Finished(result, t);
    }
    if Ends(sem, g, regs, result, t) {
      var n: nat :| Steps(sem, g, n, Start(g, regs)) == Finished(result, t);
      assert Steps(sem, f, n, Start(f, regs)) == Finished(result, t);
    }
  }

  lemma InStepMakes(sem: Sem, f: Fn, g: Fn, regs: Regs, t: Trace)
    requires forall n: nat :: SameView(Steps(sem, f, n, Start(f, regs)), Steps(sem, g, n, Start(g, regs)))
    ensures Makes(sem, f, regs, t) <==> Makes(sem, g, regs, t)
  {
    hide Steps;
    if Makes(sem, f, regs, t) {
      var n: nat :| Shows(Steps(sem, f, n, Start(f, regs)), t);
      assert Shows(Steps(sem, g, n, Start(g, regs)), t);
    }
    if Makes(sem, g, regs, t) {
      var n: nat :| Shows(Steps(sem, g, n, Start(g, regs)), t);
      assert Shows(Steps(sem, f, n, Start(f, regs)), t);
    }
  }

  // ----- Effects are never taken back -----

  lemma {:induction false} ExecGrows(sem: Sem, body: seq<Instr>, l: Local)
    ensures ExecAll(sem, body, l).Some? ==> l.trace <= ExecAll(sem, body, l).value.trace
    decreases |body|
  {
    hide Compute, Emits;
    if body != [] && Exec(sem, body[0], l).Some? {
      ExecGrows(sem, body[1..], Exec(sem, body[0], l).value);
    }
  }

  /** The effects of a step are those of the block's body. */
  lemma StepMakes(sem: Sem, f: Fn, s: State)
    requires s.Run? && !Step(sem, f, s).Stuck?
    ensures s.at in f.blocks
    ensures var l := ExecAll(sem, f.blocks[s.at].body, Local(s.regs, s.trace));
            l.Some? && Step(sem, f, s).trace == l.value.trace && s.trace <= l.value.trace
  {
    ExecGrows(sem, f.blocks[s.at].body, Local(s.regs, s.trace));
  }

  lemma {:induction false} TraceGrows(sem: Sem, f: Fn, a: nat, b: nat, regs: Regs)
    requires a <= b && Safe(sem, f, regs)
    ensures var s, s' := Steps(sem, f, a, Start(f, regs)), Steps(sem, f, b, Start(f, regs));
            !s.Stuck? && !s'.Stuck? && s.trace <= s'.trace
  {
    assert !Steps(sem, f, a, Start(f, regs)).Stuck? && !Steps(sem, f, b, Start(f, regs)).Stuck?;
    if a < b {
      TraceGrows(sem, f, a, b - 1, regs);
      var s := Steps(sem, f, b - 1, Start(f, regs));
      if s.Run? {
        StepMakes(sem, f, s);
      }
    }
  }
}
