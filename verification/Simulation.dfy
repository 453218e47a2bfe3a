/**
 The emitted code computes what the source means.  From the insert point before `codegen` the machine
 reaches the insert point after it with the result in the operand returned, the slots of the names in
 scope holding the variables' values, and everything else untouched.  If the source runs on for more
 than `k` calls and iterations, so does the machine for at least `k` steps.
 */
module Simulation {
  import opened Prelude
  import opened Ast
  import opened Machine
  import opened Codegen
  import opened CodegenFacts
  import opened Scope
  import opened Semantics

  /**
   The arithmetic, the program and its module, and the activation being looked at: its function, that
   function's code and its callers.
   */
  datatype Ctx = Ctx(m: Arith, p: Program, mod: Module, fn: string, code: Code, rest: seq<Frame>)

  ghost predicate Compiled(m: Arith, src: Source, fn: Fn) {
    exists mod: Module, protos: map<string, Prototype> :: CompiledUnder(m, mod, protos, src, fn)
  }

  ghost predicate CompiledUnder(m: Arith, mod: Module, protos: map<string, Prototype>, src: Source, fn: Fn) {
    var o := GenBody(m, mod, protos, src.params, src.body);
    o.Good? && fn == Fn(src.params, Some(CodeOf(o.g)))
  }

  /** The module's defined functions are the program's, compiled, each perhaps when other functions were known. */
  ghost predicate Linked(m: Arith, p: Program, mod: Module) {
    && (forall f :: f in p <==> f in mod && mod[f].code.Some?)
    && (forall f :: f in p ==> Compiled(m, p[f], mod[f]))
  }

  ghost predicate Plain(p: Program) {
    forall f :: f in p ==> NoRepeats(p[f].body)
  }

  ghost predicate Injective(named: map<string, nat>) {
    forall x, y :: x in named && y in named && named[x] == named[y] ==> x == y
  }

  ghost predicate Agree(named: map<string, nat>, slots: map<nat, Double>, vars: Vars) {
    && named.Keys == vars.Keys
    && forall x :: x in named ==> named[x] in slots && slots[named[x]] == vars[x]
  }

  predicate At(fr: Frame, g: Gen) {
    fr.block == g.cur && fr.pc == |g.blocks[g.cur].body|
  }

  /** `code` is the finished form of the function under construction in `g`. */
  ghost predicate Within(g: Gen, code: Code) {
    && |g.blocks| <= |code.blocks|
    && |g.allocas| <= |code.allocas|
    && (forall l :: 0 <= l < |g.blocks| && g.blocks[l].term.Some? ==> code.blocks[l] == g.blocks[l])
    && code.blocks[g.cur].phis == g.blocks[g.cur].phis
    && g.blocks[g.cur].body <= code.blocks[g.cur].body
  }

  /** Registers and slots that existed in `g`, other than the slots of names in scope, are as before. */
  ghost predicate Kept(g: Gen, fr: Frame, fr': Frame) {
    && fr'.fn == fr.fn && fr'.args == fr.args
    && (forall r :: r in fr.regs && r < g.nregs ==> r in fr'.regs && fr'.regs[r] == fr.regs[r])
    && (forall s :: s in fr.slots && s < |g.allocas| && s !in g.named.Values
          ==> s in fr'.slots && fr'.slots[s] == fr.slots[s])
  }

  ghost predicate Loaded(c: Ctx, fr: Frame) {
    fr.fn == c.fn && c.fn in c.mod && c.mod[c.fn].code == Some(c.code)
  }

  ghost predicate Ready(c: Ctx, g: Gen, fr: Frame, vars: Vars) {
    Loaded(c, fr) && Open(g) && InScope(g) && Injective(g.named) && At(fr, g) && Agree(g.named, fr.slots, vars)
  }

  function St(c: Ctx, fr: Frame, t: Trace): State { Run([fr] + c.rest, t) }

  /** Control is in the code between the insert points `g` and `h`, and not at `h` yet. */
  predicate Inside(g: Gen, h: Gen, fr: Frame) {
    && ((fr.block == g.cur && fr.pc >= |g.blocks[g.cur].body|) || |g.blocks| <= fr.block < |h.blocks|)
    && (fr.block == h.cur ==> fr.pc < |h.blocks[h.cur].body|)
  }

  /** The activation is between `g` and `h`, or waits there for a call to return. */
  ghost predicate Underway(c: Ctx, g: Gen, h: Gen, s: State) {
    s.Run? && |s.stack| > |c.rest| && (|s.stack| == |c.rest| + 1 ==> Inside(g, h, s.stack[0]))
  }

  /** For the first `n` steps the activation does not get to `h`. */
  ghost predicate Stays(c: Ctx, g: Gen, h: Gen, fr: Frame, t: Trace, n: nat) {
    forall i: nat :: i < n ==> Underway(c, g, h, Steps(c.m, c.mod, i, St(c, fr, t)))
  }

  /**
   The machine, started in `fr` with insert point `g`, does what the source does; `h` is the insert point
   after.  When the source is done the machine gets to `h` for the first time; when the source times out
   the machine has made the same calls of external functions and has not got to `h`.
   */
  ghost predicate Runs<T>(c: Ctx, k: nat, g: Gen, fr: Frame, t: Trace, h: Gen, r: Outcome<T>, n: nat, fr': Frame) {
    match r
    case Done(_, vars', t') =>
      Steps(c.m, c.mod, n, St(c, fr, t)) == St(c, fr', t') && At(fr', h) && Kept(g, fr, fr')
          && Agree(g.named, fr'.slots, vars') && Stays(c, g, h, fr, t, n) == true
    case Timeout(t') =>
      var s := Steps(c.m, c.mod, n, St(c, fr, t));
      k <= n && s.Run? && s.trace == t' && Stays(c, g, h, fr, t, n + 1) == true
    case Stuck => true
  }

  // ----- Staying between two insert points -----

  /** The code between `g` and `h` is part of that between `g'` and `h'`. */
  predicate Covers(g': Gen, h': Gen, g: Gen, h: Gen) {
    && |g'.blocks| <= |g.blocks| <= |h.blocks| <= |h'.blocks|
    && (if g.cur == g'.cur then |g'.blocks[g.cur].body| <= |g.blocks[g.cur].body| else |g'.blocks| <= g.cur)
    && (if h'.cur == h.cur then |h.blocks[h.cur].body| <= |h'.blocks[h.cur].body|
        else h'.cur != g.cur && !(|g.blocks| <= h'.cur < |h.blocks|))
  }

  lemma ExtendsCovers(g': Gen, g: Gen, h: Gen, h': Gen)
    requires Extends(g', g) && Extends(g, h) && Extends(h, h')
    ensures Covers(g', h', g, h)
  {
  }

  lemma ExtendsSelf(g: Gen)
    ensures Extends(g, g)
  {
  }

  lemma StaysWiden(c: Ctx, g: Gen, h: Gen, g': Gen, h': Gen, fr: Frame, t: Trace, n: nat)
    requires Stays(c, g, h, fr, t, n) && Covers(g', h', g, h)
    ensures Stays(c, g', h', fr, t, n)
  {
    hide Steps, Covers;
    forall i: nat | i < n
      ensures Underway(c, g', h', Steps(c.m, c.mod, i, St(c, fr, t)))
    {
      assert Underway(c, g, h, Steps(c.m, c.mod, i, St(c, fr, t)));
      UnderwayWiden(c, g, h, g', h', Steps(c.m, c.mod, i, St(c, fr, t)));
    }
  }

  lemma UnderwayWiden(c: Ctx, g: Gen, h: Gen, g': Gen, h': Gen, s: State)
    requires Underway(c, g, h, s) && Covers(g', h', g, h)
    ensures Underway(c, g', h', s)
  {
  }

  lemma StaysAdd(c: Ctx, g: Gen, h: Gen, fr: Frame, t: Trace, n1: nat, fr1: Frame, t1: Trace, n2: nat)
    requires Stays(c, g, h, fr, t, n1) && Steps(c.m, c.mod, n1, St(c, fr, t)) == St(c, fr1, t1)
    requires Stays(c, g, h, fr1, t1, n2)
    ensures Stays(c, g, h, fr, t, n1 + n2)
  {
    hide Steps, Underway;
    forall i: nat | i < n1 + n2
      ensures Underway(c, g, h, Steps(c.m, c.mod, i, St(c, fr, t))) == true
    {
      if i >= n1 {
        StepsAdd(c.m, c.mod, n1, i - n1, St(c, fr, t));
        assert Underway(c, g, h, Steps(c.m, c.mod, i - n1, St(c, fr1, t1)));
      }
    }
  }

  lemma StaysOnce(c: Ctx, g: Gen, h: Gen, fr: Frame, t: Trace)
    requires Inside(g, h, fr)
    ensures Stays(c, g, h, fr, t, 1)
  {
    assert Steps(c.m, c.mod, 0, St(c, fr, t)) == St(c, fr, t);
  }

  /** A timed-out part of a larger piece of code. */
  lemma TimeoutWiden<S, T>(c: Ctx, k: nat, g: Gen, fr: Frame, t: Trace, h: Gen, r: Outcome<S>, n: nat, fr': Frame,
                           g': Gen, h': Gen, r': Outcome<T>)
    requires !r.Done? && Runs(c, k, g, fr, t, h, r, n, fr') && Covers(g', h', g, h)
    requires r' == if r.Timeout? then Timeout(r.trace) else Outcome<T>.Stuck
    ensures Runs(c, k, g', fr, t, h', r', n, fr')
  {
    hide Steps, Stays, Covers;
    if r.Timeout? {
      StaysWiden(c, g, h, g', h', fr, t, n + 1);
    }
  }

  /** `n` instructions of one block, none of them a call. */
  ghost predicate Straight(c: Ctx, fr: Frame, t: Trace, n: nat, fr': Frame) {
    && Steps(c.m, c.mod, n, St(c, fr, t)) == St(c, fr', t) && fr'.block == fr.block && fr'.pc == fr.pc + n
    && (forall i: nat :: i < n ==> InStraight(c, fr, i, Steps(c.m, c.mod, i, St(c, fr, t))))
  }

  ghost predicate InStraight(c: Ctx, fr: Frame, i: nat, s: State) {
    s.Run? && |s.stack| == |c.rest| + 1 && s.stack[0].block == fr.block && s.stack[0].pc == fr.pc + i
  }

  lemma StraightOne(c: Ctx, fr: Frame, t: Trace, fr': Frame)
    requires Steps(c.m, c.mod, 1, St(c, fr, t)) == St(c, fr', t) && fr'.block == fr.block && fr'.pc == fr.pc + 1
    ensures Straight(c, fr, t, 1, fr')
  {
    assert Steps(c.m, c.mod, 0, St(c, fr, t)) == St(c, fr, t);
  }

  lemma StraightAdd(c: Ctx, fr: Frame, t: Trace, n1: nat, fr1: Frame, n2: nat, fr2: Frame)
    requires Straight(c, fr, t, n1, fr1) && Straight(c, fr1, t, n2, fr2)
    ensures Straight(c, fr, t, n1 + n2, fr2)
  {
    hide Steps;
    StepsAdd(c.m, c.mod, n1, n2, St(c, fr, t));
    forall i: nat | i < n1 + n2
      ensures InStraight(c, fr, i, Steps(c.m, c.mod, i, St(c, fr, t)))
    {
      if i >= n1 {
        StepsAdd(c.m, c.mod, n1, i - n1, St(c, fr, t));
        assert InStraight(c, fr1, i - n1, Steps(c.m, c.mod, i - n1, St(c, fr1, t)));
      }
    }
  }

  lemma StraightStays(c: Ctx, g: Gen, h: Gen, fr: Frame, t: Trace, n: nat, fr': Frame)
    requires Straight(c, fr, t, n, fr') && At(fr, g)
    requires h.cur == g.cur ==> |g.blocks[g.cur].body| + n <= |h.blocks[g.cur].body|
    ensures Stays(c, g, h, fr, t, n)
  {
    hide Steps;
    forall i: nat | i < n
      ensures Underway(c, g, h, Steps(c.m, c.mod, i, St(c, fr, t)))
    {
      assert InStraight(c, fr, i, Steps(c.m, c.mod, i, St(c, fr, t)));
    }
  }

  /** Only blocks and insert point count. */
  lemma StaysSame(c: Ctx, g: Gen, h: Gen, g': Gen, h': Gen, fr: Frame, t: Trace, n: nat)
    requires Stays(c, g, h, fr, t, n) && g'.blocks == g.blocks && g'.cur == g.cur && h'.blocks == h.blocks
             && h'.cur == h.cur
    ensures Stays(c, g', h', fr, t, n)
  {
    hide Steps;
    forall i: nat | i < n
      ensures Underway(c, g', h', Steps(c.m, c.mod, i, St(c, fr, t)))
    {
      assert Underway(c, g, h, Steps(c.m, c.mod, i, St(c, fr, t)));
    }
  }

  lemma RunsEnd<T>(c: Ctx, k: nat, g: Gen, fr: Frame, t: Trace, h: Gen, r: Outcome<T>, n: nat, fr': Frame, h': Gen)
    requires Runs(c, k, g, fr, t, h, r, n, fr') && h'.blocks == h.blocks && h'.cur == h.cur
    ensures Runs(c, k, g, fr, t, h', r, n, fr')
  {
    hide Steps, Stays;
    if r.Done? {
      StaysSame(c, g, h, g, h', fr, t, n);
    } else if r.Timeout? {
      StaysSame(c, g, h, g, h', fr, t, n + 1);
    }
  }

  /** The activation has not returned in the first `n` steps. */
  ghost predicate Alive(c: Ctx, fr: Frame, t: Trace, n: nat) {
    forall i: nat :: i < n ==> Above(c, Steps(c.m, c.mod, i, St(c, fr, t)))
  }

  ghost predicate Above(c: Ctx, s: State) { s.Run? && |s.stack| > |c.rest| }

  lemma StaysAlive(c: Ctx, g: Gen, h: Gen, fr: Frame, t: Trace, n: nat)
    requires Stays(c, g, h, fr, t, n)
    ensures Alive(c, fr, t, n)
  {
    hide Steps;
    forall i: nat | i < n
      ensures Above(c, Steps(c.m, c.mod, i, St(c, fr, t)))
    {
      assert Underway(c, g, h, Steps(c.m, c.mod, i, St(c, fr, t)));
    }
  }

  lemma AliveAdd(c: Ctx, fr: Frame, t: Trace, n1: nat, fr1: Frame, t1: Trace, n2: nat)
    requires Alive(c, fr, t, n1) && Steps(c.m, c.mod, n1, St(c, fr, t)) == St(c, fr1, t1) && Alive(c, fr1, t1, n2)
    ensures Alive(c, fr, t, n1 + n2)
  {
    hide Steps, Above;
    forall i: nat | i < n1 + n2
      ensures Above(c, Steps(c.m, c.mod, i, St(c, fr, t))) == true
    {
      if i >= n1 {
        StepsAdd(c.m, c.mod, n1, i - n1, St(c, fr, t));
        assert Above(c, Steps(c.m, c.mod, i - n1, St(c, fr1, t1)));
      }
    }
  }

  lemma AliveOnce(c: Ctx, fr: Frame, t: Trace)
    ensures Alive(c, fr, t, 1)
  {
    assert Steps(c.m, c.mod, 0, St(c, fr, t)) == St(c, fr, t);
  }

  /** While a callee runs, its caller waits between `g` and `h`. */
  lemma CallStays(c: Ctx, c': Ctx, g: Gen, h: Gen, fr: Frame, t: Trace, fr0: Frame, n: nat)
    requires Inside(g, h, fr) && Steps(c.m, c.mod, 1, St(c, fr, t)) == St(c', fr0, t)
    requires c'.m == c.m && c'.mod == c.mod && c'.rest == [fr] + c.rest && Alive(c', fr0, t, n)
    ensures Stays(c, g, h, fr, t, 1 + n)
  {
    hide Steps;
    StaysOnce(c, g, h, fr, t);
    forall i: nat | i < 1 + n
      ensures Underway(c, g, h, Steps(c.m, c.mod, i, St(c, fr, t)))
    {
      if i > 0 {
        StepsAdd(c.m, c.mod, 1, i - 1, St(c, fr, t));
        assert Above(c', Steps(c.m, c.mod, i - 1, St(c', fr0, t)));
      }
    }
  }

  // ----- Code and frames -----

  lemma WithinBack(g: Gen, h: Gen, code: Code)
    requires Open(g) && Extends(g, h) && Within(h, code)
    ensures Within(g, code)
  {
  }

  /** `h` closed the current block of `g` with `t` and went elsewhere. */
  ghost predicate Closes(g: Gen, t: Term, h: Gen) {
    && |g.blocks| <= |h.blocks| && |g.allocas| <= |h.allocas|
    && h.blocks[g.cur] == g.blocks[g.cur].(term := Some(t))
    && forall l :: 0 <= l < |g.blocks| && g.blocks[l].term.Some? ==> h.blocks[l] == g.blocks[l]
  }

  lemma WithinCloses(g: Gen, t: Term, h: Gen, code: Code)
    requires Open(g) && Closes(g, t, h) && Within(h, code)
    ensures Within(g, code) && code.blocks[g.cur] == g.blocks[g.cur].(term := Some(t))
  {
  }

  lemma KeepsValue(g: Gen, fr: Frame, fr': Frame, op: Operand)
    requires Kept(g, fr, fr') && Below(op, g.nregs) && Value(fr, op).Some?
    ensures Value(fr', op) == Value(fr, op)
  {
  }

  lemma KeptTrans(g: Gen, h: Gen, a: Frame, b: Frame, c: Frame)
    requires Kept(g, a, b) && Kept(h, b, c) && g.nregs <= h.nregs && |g.allocas| <= |h.allocas|
    requires forall s :: s < |g.allocas| && s !in g.named.Values ==> s !in h.named.Values
    ensures Kept(g, a, c)
  {
  }

  /** What follows a part that is done may start at any state with the same scope and no fewer registers and slots. */
  lemma Compose<S, T>(c: Ctx, k: nat, g: Gen, fr: Frame, t: Trace, h1: Gen, r1: Outcome<S>, n1: nat, fr1: Frame,
                      g2: Gen, h: Gen, r: Outcome<T>, n2: nat, fr2: Frame)
    requires r1.Done? && Runs(c, k, g, fr, t, h1, r1, n1, fr1)
    requires Runs(c, k, g2, fr1, r1.trace, h, r, n2, fr2)
    requires g2.named == g.named && g.nregs <= g2.nregs && |g.allocas| <= |g2.allocas|
    requires Covers(g, h, g, h1) && Covers(g, h, g2, h)
    ensures Runs(c, k, g, fr, t, h, r, n1 + n2, fr2)
  {
    hide Steps, Stays, Covers, Agree;
    StepsAdd(c.m, c.mod, n1, n2, St(c, fr, t));
    StaysWiden(c, g, h1, g, h, fr, t, n1);
    if r.Done? {
      KeptTrans(g, g2, fr, fr1, fr2);
      StaysWiden(c, g2, h, g, h, fr1, r1.trace, n2);
      StaysAdd(c, g, h, fr, t, n1, fr1, r1.trace, n2);
    } else if r.Timeout? {
      StaysWiden(c, g2, h, g, h, fr1, r1.trace, n2 + 1);
      StaysAdd(c, g, h, fr, t, n1, fr1, r1.trace, n2 + 1);
    }
  }

  /** What follows steps that stay between the same insert points. */
  lemma ComposeFrom<T>(c: Ctx, k: nat, k': nat, g: Gen, fr: Frame, t: Trace, n1: nat, fr1: Frame, t1: Trace,
                       h: Gen, r: Outcome<T>, n2: nat, fr2: Frame)
    requires k <= n1 + k' && Steps(c.m, c.mod, n1, St(c, fr, t)) == St(c, fr1, t1) && Kept(g, fr, fr1)
    requires Stays(c, g, h, fr, t, n1) && Runs(c, k', g, fr1, t1, h, r, n2, fr2)
    ensures Runs(c, k, g, fr, t, h, r, n1 + n2, fr2)
  {
    hide Steps, Stays, Agree;
    StepsAdd(c.m, c.mod, n1, n2, St(c, fr, t));
    if r.Done? {
      KeptTrans(g, g, fr, fr1, fr2);
      StaysAdd(c, g, h, fr, t, n1, fr1, t1, n2);
    } else if r.Timeout? {
      StaysAdd(c, g, h, fr, t, n1, fr1, t1, n2 + 1);
    }
  }

  // ----- Single instructions -----

  lemma StepOnce(m: Arith, mod: Module, s: State)
    ensures Steps(m, mod, 1, s) == Step(m, mod, s)
  {
    assert Steps(m, mod, 0, Step(m, mod, s)) == Step(m, mod, s);
  }

  lemma SimEmit(c: Ctx, g: Gen, i: Instr, fr: Frame, t: Trace)
    requires Loaded(c, fr) && At(fr, g) && Within(Emit(g, i), c.code) && !i.Call?
    requires Exec(c.m, |c.code.allocas|, fr, i).Some?
    ensures var fr' := Exec(c.m, |c.code.allocas|, fr, i).value;
            Steps(c.m, c.mod, 1, St(c, fr, t)) == St(c, fr', t) && At(fr', Emit(g, i))
  {
    StepOnce(c.m, c.mod, St(c, fr, t));
    var body := c.code.blocks[g.cur].body;
    assert body[fr.pc] == Emit(g, i).blocks[g.cur].body[fr.pc] == i;
    assert ([fr] + c.rest)[1..] == c.rest;
  }

  lemma SimBin(c: Ctx, g: Gen, op: Opcode, a: Operand, b: Operand, fr: Frame, t: Trace, x: Double, y: Double)
    returns (n: nat, fr': Frame)
    requires Loaded(c, fr) && At(fr, g) && Within(EmitBin(c.m, g, op, a, b).0, c.code)
    requires Value(fr, a) == Some(Dbl(x)) && Value(fr, b) == Some(Dbl(y))
    ensures var (h, r) := EmitBin(c.m, g, op, a, b);
            && Straight(c, fr, t, n, fr') && At(fr', h) && Kept(g, fr, fr')
            && fr'.slots == fr.slots && Value(fr', r) == Some(Compute(c.m, op, x, y))
  {
    var (h, r) := EmitBin(c.m, g, op, a, b);
    if r.Lit? {
      n, fr' := 0, fr;
    } else {
      var i := Bin(g.nregs, op, a, b);
      assert Within(Emit(g, i), c.code);
      SimEmit(c, g, i, fr, t);
      n, fr' := 1, Exec(c.m, |c.code.allocas|, fr, i).value;
      StraightOne(c, fr, t, fr');
    }
  }

  lemma SimToFP(c: Ctx, g: Gen, a: Operand, fr: Frame, t: Trace, x: bool)
    returns (n: nat, fr': Frame)
    requires Loaded(c, fr) && At(fr, g) && Within(EmitToFP(c.m, g, a).0, c.code)
    requires Value(fr, a) == Some(Bit(x))
    ensures var (h, r) := EmitToFP(c.m, g, a);
            && Straight(c, fr, t, n, fr') && At(fr', h) && Kept(g, fr, fr')
            && fr'.slots == fr.slots && Value(fr', r) == Some(Dbl(c.m.ofBit(x)))
  {
    var (h, r) := EmitToFP(c.m, g, a);
    if r.Lit? {
      n, fr' := 0, fr;
    } else {
      var i := UIToFP(g.nregs, a);
      assert Within(Emit(g, i), c.code);
      SimEmit(c, g, i, fr, t);
      n, fr' := 1, Exec(c.m, |c.code.allocas|, fr, i).value;
      StraightOne(c, fr, t, fr');
    }
  }

  lemma SimBuiltIn(c: Ctx, g: Gen, op: char, a: Operand, b: Operand, fr: Frame, t: Trace, x: Double, y: Double)
    returns (n: nat, fr': Frame)
    requires op in {'+', '-', '*', '<'}
    requires Loaded(c, fr) && Open(g) && At(fr, g) && Within(BuiltIn(c.m, g, op, a, b).0, c.code)
    requires Value(fr, a) == Some(Dbl(x)) && Value(fr, b) == Some(Dbl(y))
    ensures var (h, r) := BuiltIn(c.m, g, op, a, b);
            && Straight(c, fr, t, n, fr') && At(fr', h) && Kept(g, fr, fr')
            && fr'.slots == fr.slots && Value(fr', r) == Some(Dbl(Operator(c.m, op, x, y)))
  {
    if op == '<' {
      n, fr' := SimLess(c, g, a, b, fr, t, x, y);
    } else {
      hide EmitBin;
      n, fr' := SimBin(c, g, if op == '+' then FAdd else if op == '-' then FSub else FMul, a, b, fr, t, x, y);
    }
  }

  /** Comparing takes two instructions, unless constants are folded. */
  lemma SimLess(c: Ctx, g: Gen, a: Operand, b: Operand, fr: Frame, t: Trace, x: Double, y: Double)
    returns (n: nat, fr': Frame)
    requires Loaded(c, fr) && Open(g) && At(fr, g) && Within(BuiltIn(c.m, g, '<', a, b).0, c.code)
    requires Value(fr, a) == Some(Dbl(x)) && Value(fr, b) == Some(Dbl(y))
    ensures var (h, r) := BuiltIn(c.m, g, '<', a, b);
            && Straight(c, fr, t, n, fr') && At(fr', h) && Kept(g, fr, fr')
            && fr'.slots == fr.slots && Value(fr', r) == Some(Dbl(c.m.ofBit(c.m.ult(x, y))))
  {
    hide EmitBin, EmitToFP, Within, Extends;
    var (h1, r1) := EmitBin(c.m, g, FCmpULT, a, b);
    EmitBinExtends(c.m, g, FCmpULT, a, b);
    SameNames(c.m, g, FCmpULT, a, b);
    var (h, r) := EmitToFP(c.m, h1, r1);
    ToFPExtends(c.m, h1, r1);
    WithinBack(h1, h, c.code);
    var n1, fr1 := SimBin(c, g, FCmpULT, a, b, fr, t, x, y);
    var n2, fr2 := SimToFP(c, h1, r1, fr1, t, c.m.ult(x, y));
    n, fr' := n1 + n2, fr2;
    StraightAdd(c, fr, t, n1, fr1, n2, fr2);
    KeptTrans(g, h1, fr, fr1, fr2);
  }

  lemma SameNames(m: Arith, g: Gen, op: Opcode, a: Operand, b: Operand)
    ensures var h := EmitBin(m, g, op, a, b).0; h.named == g.named && h.allocas == g.allocas && g.nregs <= h.nregs
  {
  }

  lemma ToFPExtends(m: Arith, g: Gen, a: Operand)
    ensures Extends(g, EmitToFP(m, g, a).0)
  {
  }

  /** Storing to the slot of a name in scope. */
  lemma SimAssign(c: Ctx, g: Gen, x: string, v: Operand, fr: Frame, vars: Vars, t: Trace, d: Double)
    returns (fr': Frame)
    requires Ready(c, g, fr, vars) && x in g.named && Within(Emit(g, Store(v, g.named[x])), c.code)
    requires Value(fr, v) == Some(Dbl(d))
    ensures var h := Emit(g, Store(v, g.named[x]));
            && Steps(c.m, c.mod, 1, St(c, fr, t)) == St(c, fr', t) && At(fr', h) && Kept(g, fr, fr')
            && Agree(g.named, fr'.slots, vars[x := d]) && fr'.regs == fr.regs && fr'.args == fr.args
  {
    SimEmit(c, g, Store(v, g.named[x]), fr, t);
    fr' := Exec(c.m, |c.code.allocas|, fr, Store(v, g.named[x])).value;
    assert fr'.slots == fr.slots[g.named[x] := d];
  }

  /** A jump to a block without phis. */
  lemma SimBr(c: Ctx, fr: Frame, t: Trace, target: nat)
    requires Loaded(c, fr) && fr.block < |c.code.blocks| && fr.pc == |c.code.blocks[fr.block].body|
    requires c.code.blocks[fr.block].term == Some(Br(target))
    requires target < |c.code.blocks| && c.code.blocks[target].phis == []
    ensures Steps(c.m, c.mod, 1, St(c, fr, t)) == St(c, fr.(block := target, pc := 0), t)
  {
    StepOnce(c.m, c.mod, St(c, fr, t));
    assert ([fr] + c.rest)[1..] == c.rest;
  }

  lemma SimCondBr(c: Ctx, fr: Frame, t: Trace, cond: Operand, thn: nat, els: nat, b: bool)
    requires Loaded(c, fr) && fr.block < |c.code.blocks| && fr.pc == |c.code.blocks[fr.block].body|
    requires c.code.blocks[fr.block].term == Some(CondBr(cond, thn, els)) && Value(fr, cond) == Some(Bit(b))
    requires var l := if b then thn else els; l < |c.code.blocks| && c.code.blocks[l].phis == []
    ensures Steps(c.m, c.mod, 1, St(c, fr, t)) == St(c, fr.(block := if b then thn else els, pc := 0), t)
  {
    StepOnce(c.m, c.mod, St(c, fr, t));
    assert ([fr] + c.rest)[1..] == c.rest;
  }

  /** A jump to a block whose only phi has an entry for where the jump comes from. */
  lemma SimBrPhi(c: Ctx, fr: Frame, t: Trace, target: nat, phi: Phi, op: Operand)
    requires Loaded(c, fr) && fr.block < |c.code.blocks| && fr.pc == |c.code.blocks[fr.block].body|
    requires c.code.blocks[fr.block].term == Some(Br(target))
    requires target < |c.code.blocks| && c.code.blocks[target].phis == [phi]
    requires IncomingFor(phi.incoming, fr.block) == Some(op) && Value(fr, op).Some?
    ensures Steps(c.m, c.mod, 1, St(c, fr, t))
            == St(c, fr.(regs := fr.regs[phi.dst := Value(fr, op).value], block := target, pc := 0), t)
  {
    StepOnce(c.m, c.mod, St(c, fr, t));
    assert ([fr] + c.rest)[1..] == c.rest;
    assert [phi][1..] == [];
    assert PhiRegs(fr, [phi], fr.regs) == Some(fr.regs[phi.dst := Value(fr, op).value]);
  }
}
