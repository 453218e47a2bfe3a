/**
 In an emitted function the definition of a register dominates its uses: on every path from the entry to a
 use the register has been defined, and a phi's operand has been at the end of the block it comes from.
 */
module Availability {
  import opened Prelude
  import opened Ast
  import opened Machine
  import opened Codegen
  import opened WellFormed
  import opened SingleAssignment

  predicate Reads(i: Instr, r: nat) {
    match i
    case Store(src, _) => src == Reg(r)
    case Load(_, _) => false
    case Bin(_, _, a, b) => a == Reg(r) || b == Reg(r)
    case UIToFP(_, a) => a == Reg(r)
    case Call(_, _, args) => Reg(r) in args
  }

  predicate TermReads(t: Option<Term>, r: nat) {
    match t
    case None => false
    case Some(Br(_)) => false
    case Some(CondBr(c, _, _)) => c == Reg(r)
    case Some(Ret(v)) => v == Reg(r)
  }

  /** A phi of `b` or one of its first `n` instructions defines `r`. */
  ghost predicate Before(b: Block, n: int, r: nat) { exists i :: i < n && DefinesAt(b, i, r) }

  ghost predicate Made(b: Block, r: nat) { Before(b, |b.body|, r) }

  /** The labels of a path from the entry. */
  ghost predicate Walk(blocks: seq<Block>, p: seq<nat>) {
    && p != [] && p[0] == 0 && (forall i :: 0 <= i < |p| ==> p[i] < |blocks|)
    && (forall i :: 0 < i < |p| ==> Branches(blocks, p[i - 1], p[i]))
  }

  ghost predicate MadeOn(blocks: seq<Block>, p: seq<nat>, r: nat) {
    exists i :: 0 <= i < |p| && p[i] < |blocks| && Made(blocks[p[i]], r)
  }

  ghost predicate UsesBefore(blocks: seq<Block>, p: seq<nat>)
    requires Walk(blocks, p)
  {
    var l, earlier := p[|p| - 1], p[..|p| - 1];
    var b := blocks[l];
    && (forall n, r: nat :: 0 <= n < |b.body| && Reads(b.body[n], r) ==> Before(b, n, r) || MadeOn(blocks, earlier, r))
    && (forall r: nat :: TermReads(b.term, r) ==> Made(b, r) || MadeOn(blocks, earlier, r))
    && (forall k: nat, r: nat :: k < |blocks| && Brings(blocks[k], l, r) ==> MadeOn(blocks, p, r))
  }

  /** Some phi of `b` takes `r` when control comes from `l`. */
  ghost predicate Brings(b: Block, l: nat, r: nat) {
    exists i :: 0 <= i < |b.phis| && (Reg(r), l) in b.phis[i].incoming
  }

  ghost predicate UsesDominated(blocks: seq<Block>) { forall p :: Walk(blocks, p) ==> UsesBefore(blocks, p) }

  // ----- Registers available at the start of each block -----

  type Avail = seq<iset<nat>>

  /** The registers available at the end of block `l`. */
  ghost function Ends(blocks: seq<Block>, av: Avail, l: nat): iset<nat>
    requires l < |blocks| && |av| == |blocks|
  {
    iset r: nat | r in av[l] || Made(blocks[l], r)
  }

  ghost predicate BodyOk(b: Block, start: iset<nat>) {
    forall n, r: nat :: 0 <= n < |b.body| && Reads(b.body[n], r) ==> r in start || Before(b, n, r)
  }

  ghost predicate BlockOk(blocks: seq<Block>, av: Avail, l: nat)
    requires l < |blocks| && |av| == |blocks|
  {
    && BodyOk(blocks[l], av[l])
    && (forall r: nat :: TermReads(blocks[l].term, r) ==> r in Ends(blocks, av, l))
    && (forall k: nat :: Branches(blocks, l, k) ==> k < |blocks| && av[k] <= Ends(blocks, av, l))
    && (forall p: nat, r: nat :: Brings(blocks[l], p, r) ==> p < |blocks| && r in Ends(blocks, av, p))
  }

  /** `av` is a solution of the data-flow conditions. */
  ghost predicate Certified(blocks: seq<Block>, av: Avail) {
    |av| == |blocks| && forall l: nat :: l < |blocks| ==> BlockOk(blocks, av, l)
  }

  /** With a solution, what is available at the start of a block was defined on the way. */
  lemma {:induction false} WalkMade(blocks: seq<Block>, av: Avail, p: seq<nat>, r: nat)
    requires Certified(blocks, av) && Walk(blocks, p) && av[0] == iset{} && r in av[p[|p| - 1]]
    ensures MadeOn(blocks, p[..|p| - 1], r)
  {
    hide Made, Branches, Brings, BodyOk;
    var q := p[..|p| - 1];
    if q != [] {
      var k := p[|p| - 2];
      assert BlockOk(blocks, av, k) && Branches(blocks, k, p[|p| - 1]);
      if Made(blocks[k], r) {
        assert q[|q| - 1] == k;
      } else {
        WalkMade(blocks, av, q, r);
        var i :| 0 <= i < |q| - 1 && q[i] < |blocks| && Made(blocks[q[i]], r);
        assert q[i] == p[i];
      }
    }
  }

  lemma CertifiedDominated(blocks: seq<Block>, av: Avail)
    requires Certified(blocks, av) && blocks != [] && av[0] == iset{}
    ensures UsesDominated(blocks)
  {
    hide Branches, Brings, Before, Reads, TermReads;
    forall p | Walk(blocks, p)
      ensures UsesBefore(blocks, p)
    {
      var l, earlier := p[|p| - 1], p[..|p| - 1];
      assert BlockOk(blocks, av, l);
      forall r: nat | r in av[l]
        ensures MadeOn(blocks, earlier, r)
      {
        WalkMade(blocks, av, p, r);
      }
      forall k: nat, r: nat | k < |blocks| && Brings(blocks[k], l, r)
        ensures MadeOn(blocks, p, r)
      {
        assert BlockOk(blocks, av, k) && r in Ends(blocks, av, l);
        if r in av[l] {
          var i :| 0 <= i < |earlier| && earlier[i] < |blocks| && Made(blocks[earlier[i]], r);
          assert p[i] == earlier[i];
        }
      }
    }
  }

  // ----- Single changes -----

  ghost predicate Wider(blocks: seq<Block>, av: Avail, blocks': seq<Block>, av': Avail)
    requires |av| == |blocks| && |av'| == |blocks'|
  {
    && |blocks| <= |blocks'|
    && (forall l: nat :: l < |blocks| ==> av'[l] == av[l] && Ends(blocks, av, l) <= Ends(blocks', av', l))
  }

  /** From `g` to `h` the solution was extended, and whatever was available still is. */
  ghost predicate More(g: Gen, av: Avail, h: Gen, av': Avail) {
    && |av| == |g.blocks| && |av'| == |h.blocks| && Certified(h.blocks, av') && Wider(g.blocks, av, h.blocks, av')
    && Ends(g.blocks, av, g.cur) <= Ends(h.blocks, av', h.cur)
  }

  ghost predicate Held(g: Gen, av: Avail, op: Operand) {
    |av| == |g.blocks| && (op.Reg? ==> op.r in Ends(g.blocks, av, g.cur))
  }

  ghost predicate AllHeld(g: Gen, av: Avail, ops: seq<Operand>) { forall i :: 0 <= i < |ops| ==> Held(g, av, ops[i]) }

  lemma MoreSame(g: Gen, av: Avail, h: Gen)
    requires Certified(g.blocks, av) && h.blocks == g.blocks && h.cur == g.cur
    ensures More(g, av, h, av)
  {
  }

  lemma MoreTrans(g: Gen, av: Avail, h: Gen, av': Avail, k: Gen, av'': Avail)
    requires More(g, av, h, av') && More(h, av', k, av'')
    ensures More(g, av, k, av'')
  {
    hide Ends, Certified;
  }

  lemma HeldStill(g: Gen, av: Avail, h: Gen, av': Avail, op: Operand)
    requires More(g, av, h, av') && Held(g, av, op)
    ensures Held(h, av', op)
  {
    hide Ends, Certified;
  }

  /** A block that did not change stays as it should be when more becomes available elsewhere. */
  lemma BlockStays(blocks: seq<Block>, av: Avail, blocks': seq<Block>, av': Avail, l: nat)
    requires |av| == |blocks| && |av'| == |blocks'| && Wider(blocks, av, blocks', av')
    requires l < |blocks| && BlockOk(blocks, av, l) && blocks'[l] == blocks[l]
    ensures BlockOk(blocks', av', l)
  {
    hide Ends, BodyOk, Brings, TermReads;
    assert forall k: nat :: Branches(blocks', l, k) <==> Branches(blocks, l, k);
  }

  lemma BeforeMore(b: Block, i: Instr, n: int, r: nat)
    requires n <= |b.body|
    ensures Before(b.(body := b.body + [i]), n, r) <==> Before(b, n, r)
    ensures ResultOf(i) == Some(r) ==> Made(b.(body := b.body + [i]), r)
    ensures Made(b, r) ==> Made(b.(body := b.body + [i]), r)
  {
    var b' := b.(body := b.body + [i]);
    forall j | j < |b.body|
      ensures DefinesAt(b', j, r) <==> DefinesAt(b, j, r)
    {
    }
    if ResultOf(i) == Some(r) {
      assert DefinesAt(b', |b.body|, r);
    }
  }

  lemma EmitMore(g: Gen, av: Avail, i: Instr)
    requires Certified(g.blocks, av) && forall r: nat :: Reads(i, r) ==> r in Ends(g.blocks, av, g.cur)
    ensures More(g, av, Emit(g, i), av)
    ensures ResultOf(i).Some? ==> Held(Emit(g, i), av, Reg(ResultOf(i).value))
  {
    hide Brings, TermReads, Before, Reads;
    var h := Emit(g, i);
    var b := g.blocks[g.cur];
    forall n: int, r: nat | n <= |b.body|
      ensures Before(h.blocks[g.cur], n, r) <==> Before(b, n, r)
      ensures ResultOf(i) == Some(r) ==> Made(h.blocks[g.cur], r)
      ensures Made(b, r) ==> Made(h.blocks[g.cur], r)
    {
      BeforeMore(b, i, n, r);
    }
    assert Wider(g.blocks, av, h.blocks, av);
    forall l: nat | l < |h.blocks|
      ensures BlockOk(h.blocks, av, l)
    {
      assert BlockOk(g.blocks, av, l);
      if l != g.cur {
        BlockStays(g.blocks, av, h.blocks, av, l);
      } else {
        GrownBlock(g, av, i);
      }
    }
  }

  lemma GrownBlock(g: Gen, av: Avail, i: Instr)
    requires Certified(g.blocks, av) && forall r: nat :: Reads(i, r) ==> r in Ends(g.blocks, av, g.cur)
    requires Wider(g.blocks, av, Emit(g, i).blocks, av)
    ensures BlockOk(Emit(g, i).blocks, av, g.cur)
  {
    hide Before, Reads;
    var h := Emit(g, i);
    var b, b' := g.blocks[g.cur], h.blocks[g.cur];
    assert BlockOk(g.blocks, av, g.cur);
    forall n, r: nat | 0 <= n < |b'.body| && Reads(b'.body[n], r)
      ensures r in av[g.cur] || Before(b', n, r)
    {
      BeforeMore(b, i, n, r);
    }
    assert forall k: nat :: Branches(h.blocks, g.cur, k) <==> Branches(g.blocks, g.cur, k);
    assert forall p: nat, r: nat :: Brings(b', p, r) <==> Brings(b, p, r);
  }

  lemma BinMore(m: Arith, g: Gen, av: Avail, op: Opcode, a: Operand, b: Operand)
    requires Certified(g.blocks, av) && Held(g, av, a) && Held(g, av, b)
    ensures var (h, r) := EmitBin(m, g, op, a, b); More(g, av, h, av) && Held(h, av, r)
  {
    MoreSame(g, av, g);
    EmitMore(g, av, Bin(g.nregs, op, a, b));
  }

  lemma ToFPMore(m: Arith, g: Gen, av: Avail, a: Operand)
    requires Certified(g.blocks, av) && Held(g, av, a)
    ensures var (h, r) := EmitToFP(m, g, a); More(g, av, h, av) && Held(h, av, r)
  {
    MoreSame(g, av, g);
    EmitMore(g, av, UIToFP(g.nregs, a));
  }

  lemma LoadMore(g: Gen, av: Avail, slot: nat)
    requires Certified(g.blocks, av)
    ensures var (h, r) := EmitLoad(g, slot); More(g, av, h, av) && Held(h, av, r)
  {
    EmitMore(g, av, Load(g.nregs, slot));
  }

  lemma StoreMore(g: Gen, av: Avail, v: Operand, slot: nat)
    requires Certified(g.blocks, av) && Held(g, av, v)
    ensures More(g, av, Emit(g, Store(v, slot)), av)
  {
    EmitMore(g, av, Store(v, slot));
  }

  lemma BindMore(g: Gen, av: Avail, x: string, v: Operand)
    requires Certified(g.blocks, av) && Held(g, av, v)
    ensures More(g, av, Bind(g, x, v), av)
  {
    StoreMore(Alloca(g, x), av, v, |g.allocas|);
  }

  lemma CallMore(g: Gen, av: Avail, f: string, args: seq<Operand>)
    requires Certified(g.blocks, av) && AllHeld(g, av, args)
    ensures var (h, r) := EmitCall(g, f, args); More(g, av, h, av) && Held(h, av, r)
  {
    EmitMore(g, av, Instr.Call(g.nregs, f, args));
  }

  lemma CallOperatorMore(g: Gen, av: Avail, f: string, args: seq<Operand>)
    requires Certified(g.blocks, av) && AllHeld(g, av, args)
    ensures var o := CallOperator(g, f, args); o.Good? ==> More(g, av, o.g, av) && Held(o.g, av, o.value)
  {
    CallMore(GetFunction(g, f).0, av, f, args);
  }

  lemma BuiltInMore(m: Arith, g: Gen, av: Avail, op: char, a: Operand, b: Operand)
    requires Certified(g.blocks, av) && Held(g, av, a) && Held(g, av, b) && op in {'+', '-', '*', '<'}
    ensures var (h, r) := BuiltIn(m, g, op, a, b); More(g, av, h, av) && Held(h, av, r)
  {
    hide EmitBin, EmitToFP, Certified, Ends;
    BinMore(m, g, av, FAdd, a, b);
    BinMore(m, g, av, FSub, a, b);
    BinMore(m, g, av, FMul, a, b);
    BinMore(m, g, av, FCmpULT, a, b);
    var (h, c) := EmitBin(m, g, FCmpULT, a, b);
    ToFPMore(m, h, av, c);
    MoreTrans(g, av, h, av, EmitToFP(m, h, c).0, av);
  }

  // ----- Terminators, new blocks, phis -----

  /** End the current block with `t` and add `n` blocks that start with what is available here. */
  function Fork(g: Gen, t: Term, n: nat): seq<Block> {
    Seal(g, t).blocks + seq(n, _ => EMPTY_BLOCK)
  }

  ghost function Forked(g: Gen, av: Avail, n: nat): Avail
    requires |av| == |g.blocks|
  {
    av + seq(n, _ => Ends(g.blocks, av, g.cur))
  }

  lemma TermOnly(b: Block, t: Option<Term>, n: int, r: nat)
    ensures Before(b.(term := t), n, r) <==> Before(b, n, r)
  {
    assert forall j :: DefinesAt(b.(term := t), j, r) <==> DefinesAt(b, j, r);
  }

  /** `t` goes to the new blocks or to blocks that need no more than is available here. */
  lemma ForkCertified(g: Gen, av: Avail, t: Term, n: nat)
    requires Certified(g.blocks, av) && forall r: nat :: TermReads(Some(t), r) ==> r in Ends(g.blocks, av, g.cur)
    requires (forall l: nat :: l in Succs(Some(t)) ==> l < |g.blocks| + n)
    requires (forall l: nat :: l in Succs(Some(t)) && l < |g.blocks| ==> av[l] <= Ends(g.blocks, av, g.cur))
    ensures Certified(Fork(g, t, n), Forked(g, av, n)) && Wider(g.blocks, av, Fork(g, t, n), Forked(g, av, n))
    ensures forall l: nat :: |g.blocks| <= l < |g.blocks| + n ==> Forked(g, av, n)[l] == Ends(g.blocks, av, g.cur)
  {
    hide Before, Reads, TermReads;
    var blocks, av' := Fork(g, t, n), Forked(g, av, n);
    forall l: nat, k: int, r: nat | l < |g.blocks|
      ensures Before(blocks[l], k, r) <==> Before(g.blocks[l], k, r)
    {
      TermOnly(g.blocks[l], Some(t), k, r);
    }
    assert forall l: nat :: l < |g.blocks| ==> av'[l] == av[l] && Ends(g.blocks, av, l) == Ends(blocks, av', l);
    assert Wider(g.blocks, av, blocks, av');
    forall l: nat | l < |blocks|
      ensures BlockOk(blocks, av', l)
    {
      if l == g.cur {
        assert BlockOk(g.blocks, av, l);
        assert forall p: nat, r: nat :: Brings(blocks[l], p, r) <==> Brings(g.blocks[l], p, r);
      } else if l < |g.blocks| {
        BlockStays(g.blocks, av, blocks, av', l);
      } else {
        NewBlock(blocks, av', l);
      }
    }
  }

  lemma NewBlock(blocks: seq<Block>, av: Avail, l: nat)
    requires |av| == |blocks| && l < |blocks| && blocks[l] == EMPTY_BLOCK
    ensures BlockOk(blocks, av, l)
  {
  }

  lemma NextArmCertified(g: Gen, av: Avail, merge: nat, next: nat)
    requires Certified(g.blocks, av) && merge < |g.blocks| && next < |g.blocks|
             && av[merge] <= Ends(g.blocks, av, g.cur)
    ensures var h := NextArm(g, merge, next);
            && h.cur == next && h.nregs == g.nregs && |h.blocks| == |av| == |g.blocks|
            && Certified(h.blocks, av) && Wider(g.blocks, av, h.blocks, av) && av[next] <= Ends(h.blocks, av, h.cur)
  {
    assert |av| == |g.blocks|;
    hide Certified;
    ForkCertified(g, av, Br(merge), 0);
    assert Fork(g, Br(merge), 0) == Seal(g, Br(merge)).blocks && Forked(g, av, 0) == av;
  }

  lemma BeginIfMore(g: Gen, av: Avail, c: Operand)
    requires Certified(g.blocks, av) && Held(g, av, c)
    ensures var h, av', n := BeginIf(g, c), Forked(g, av, 3), |g.blocks|;
            && More(g, av, h, av') && |h.blocks| == n + 3
            && (forall l: nat :: n <= l < n + 3 ==> av'[l] == Ends(g.blocks, av, g.cur))
  {
    hide Certified;
    var n := |g.blocks|;
    ForkCertified(g, av, CondBr(c, n, n + 1), 3);
    assert Fork(g, CondBr(c, n, n + 1), 3) == BeginIf(g, c).blocks;
  }

  lemma BeginLoopMore(g: Gen, av: Avail)
    requires Certified(g.blocks, av)
    ensures More(g, av, BeginLoop(g), Forked(g, av, 1))
  {
    assert |av| == |g.blocks|;
    hide Certified;
    ForkCertified(g, av, Br(|g.blocks|), 1);
    assert Fork(g, Br(|g.blocks|), 1) == BeginLoop(g).blocks;
  }

  /** Closing a loop: what its first block needs is available at the test. */
  lemma CloseLoopMore(g: Gen, av: Avail, c: Operand, head: nat)
    requires Certified(g.blocks, av) && Held(g, av, c) && head < |g.blocks| && av[head] <= Ends(g.blocks, av, g.cur)
    ensures More(g, av, CloseLoop(g, c, head), Forked(g, av, 1))
  {
    hide Certified;
    ForkCertified(g, av, CondBr(c, head, |g.blocks|), 1);
    assert Fork(g, CondBr(c, head, |g.blocks|), 1) == CloseLoop(g, c, head).blocks;
  }

  lemma RetCertified(g: Gen, av: Avail, v: Operand)
    requires Certified(g.blocks, av) && Held(g, av, v)
    ensures Certified(Seal(g, Ret(v)).blocks, av)
  {
    hide Certified;
    ForkCertified(g, av, Ret(v), 0);
    assert Fork(g, Ret(v), 0) == Seal(g, Ret(v)).blocks && Forked(g, av, 0) == av;
  }

  lemma PhiBefore(b: Block, phi: Phi, n: int, r: nat)
    ensures Before(b, n, r) ==> Before(b.(phis := b.phis + [phi]), n, r)
    ensures n >= 0 ==> Before(b.(phis := b.phis + [phi]), n, phi.dst)
  {
    var b' := b.(phis := b.phis + [phi]);
    assert forall j :: DefinesAt(b, j, r) ==> DefinesAt(b', j, r);
    assert DefinesAt(b', -1 - |b.phis|, phi.dst);
  }

  lemma PhiBrings(b: Block, phi: Phi, p: nat, r: nat)
    requires Brings(b.(phis := b.phis + [phi]), p, r)
    ensures Brings(b, p, r) || (Reg(r), p) in phi.incoming
  {
  }

  ghost predicate FromEnd(blocks: seq<Block>, av: Avail, op: Operand, p: nat)
    requires |av| == |blocks|
  {
    p < |blocks| && (op.Reg? ==> op.r in Ends(blocks, av, p))
  }

  /** A phi whose operands are available at the ends of the blocks they come from. */
  lemma PhiMore(g: Gen, av: Avail, incoming: seq<(Operand, nat)>)
    requires Certified(g.blocks, av)
    requires forall i :: 0 <= i < |incoming| ==> FromEnd(g.blocks, av, incoming[i].0, incoming[i].1)
    ensures var (h, r) := AddPhi(g, incoming);
            More(g, av, h, av) && Held(h, av, r) && h.cur == g.cur && r == Reg(g.nregs)
  {
    hide Before, Reads, TermReads;
    var h := AddPhi(g, incoming).0;
    var b, b' := g.blocks[g.cur], h.blocks[g.cur];
    forall n: int, r: nat
      ensures Before(b, n, r) ==> Before(b', n, r)
      ensures n >= 0 ==> Before(b', n, g.nregs)
    {
      PhiBefore(b, Phi(g.nregs, incoming), n, r);
    }
    assert Wider(g.blocks, av, h.blocks, av);
    forall l: nat | l < |h.blocks|
      ensures BlockOk(h.blocks, av, l)
    {
      assert BlockOk(g.blocks, av, l);
      if l != g.cur {
        BlockStays(g.blocks, av, h.blocks, av, l);
      } else {
        assert forall k: nat :: Branches(h.blocks, l, k) <==> Branches(g.blocks, l, k);
        assert BodyOk(b', av[l]);
        forall p: nat, r: nat | Brings(b', p, r)
          ensures p < |h.blocks| && r in Ends(h.blocks, av, p)
        {
          PhiBrings(b, Phi(g.nregs, incoming), p, r);
          if !Brings(b, p, r) {
            var i :| 0 <= i < |incoming| && incoming[i] == (Reg(r), p);
            assert FromEnd(g.blocks, av, incoming[i].0, incoming[i].1);
          }
        }
      }
    }
  }

  lemma WiderTrans(a: seq<Block>, av: Avail, b: seq<Block>, av': Avail, c: seq<Block>, av'': Avail)
    requires |av| == |a| && |av'| == |b| && |av''| == |c| && Wider(a, av, b, av') && Wider(b, av', c, av'')
    ensures Wider(a, av, c, av'')
  {
    hide Ends;
  }

  /** The first arm of an `if` is done and the second begins. */
  lemma ArmMore(g: Gen, av: Avail, c: Operand, a: Gen, av': Avail)
    requires Certified(g.blocks, av) && Held(g, av, c) && More(BeginIf(g, c), Forked(g, av, 3), a, av')
    ensures var n := |g.blocks|;
            && |a.blocks| >= n + 3 && |av'| == |a.blocks|
            && var h := NextArm(a, n + 2, n + 1);
               && Certified(h.blocks, av') && Wider(a.blocks, av', h.blocks, av') && Wider(g.blocks, av, a.blocks, av')
               && (forall l: nat :: n <= l < n + 3 ==> av'[l] == Ends(g.blocks, av, g.cur))
               && Ends(g.blocks, av, g.cur) <= Ends(h.blocks, av', h.cur)
  {
    hide Certified, NextArm;
    var n := |g.blocks|;
    var g1, av1 := BeginIf(g, c), Forked(g, av, 3);
    BeginIfMore(g, av, c);
    assert av1[n] <= Ends(g1.blocks, av1, n);
    NextArmCertified(a, av', n + 2, n + 1);
  }

  /** An `if`, from the block with the condition to the merge block. */
  lemma IfMore(g: Gen, av: Avail, c: Operand, a: Gen, av1: Avail, b: Gen, av2: Avail, x: Operand, y: Operand)
    requires Certified(g.blocks, av) && Held(g, av, c) && More(BeginIf(g, c), Forked(g, av, 3), a, av1)
             && Held(a, av1, x)
    requires |a.blocks| >= |g.blocks| + 3
    requires More(NextArm(a, |g.blocks| + 2, |g.blocks| + 1), av1, b, av2) && Held(b, av2, y)
    ensures |b.blocks| > |g.blocks| + 2
    ensures var (h, r) := AddPhi(NextArm(b, |g.blocks| + 2, |g.blocks| + 2), [(x, a.cur), (y, b.cur)]);
            More(g, av, h, av2) && Held(h, av2, r)
  {
    hide Certified, NextArm, AddPhi, Ends;
    var n := |g.blocks|;
    ArmMore(g, av, c, a, av1);
    NextArmCertified(b, av2, n + 2, n + 2);
    var k := NextArm(b, n + 2, n + 2);
    WiderTrans(a.blocks, av1, NextArm(a, n + 2, n + 1).blocks, av1, b.blocks, av2);
    WiderTrans(a.blocks, av1, b.blocks, av2, k.blocks, av2);
    WiderTrans(g.blocks, av, a.blocks, av1, k.blocks, av2);
    var incoming := [(x, a.cur), (y, b.cur)];
    assert FromEnd(k.blocks, av2, x, a.cur) && FromEnd(k.blocks, av2, y, b.cur);
    PhiMore(k, av2, incoming);
    var h := AddPhi(k, incoming).0;
    WiderTrans(g.blocks, av, k.blocks, av2, h.blocks, av2);
    assert Ends(g.blocks, av, g.cur) == av2[n + 2];
  }

  // ----- Every expression -----

  lemma MoreCertified(g: Gen, av: Avail, h: Gen, av': Avail)
    requires More(g, av, h, av')
    ensures Certified(h.blocks, av')
  {
  }

  /** A further part of an expression. */
  lemma {:induction false} PartMore(m: Arith, g: Gen, av: Avail, h: Gen, av': Avail, e: Expr) returns (av'': Avail)
    requires Certified(g.blocks, av) && More(g, av, h, av')
    ensures var o := GenExpr(m, h, e);
            o.Good? ==>
              && More(g, av, o.g, av'') == true && More(h, av', o.g, av'') == true
              && Held(o.g, av'', o.value) == true
    decreases e, 3
  {
    hide GenExpr, More, Held, Certified;
    MoreCertified(g, av, h, av');
    av'' := ExprMore(m, h, av', e);
    if GenExpr(m, h, e).Good? {
      MoreTrans(g, av, h, av', GenExpr(m, h, e).g, av'');
    }
  }

  lemma {:induction false} OptionMore(m: Arith, g: Gen, av: Avail, h: Gen, av': Avail, e: Option<Expr>, d: Double)
      returns (av'': Avail)
    requires Certified(g.blocks, av) && More(g, av, h, av')
    ensures var o := GenOption(m, h, e, d);
            o.Good? ==>
              && More(g, av, o.g, av'') == true && More(h, av', o.g, av'') == true
              && Held(o.g, av'', o.value) == true
    decreases e, 4
  {
    hide GenExpr, Certified, Wider, Ends;
    if e.Some? {
      av'' := PartMore(m, g, av, h, av', e.value);
    } else {
      av'' := av';
      MoreSame(h, av', h);
    }
  }

  lemma {:induction false} ArgsMore(m: Arith, g: Gen, av: Avail, h: Gen, av': Avail, args: seq<Expr>)
      returns (av'': Avail)
    requires Certified(g.blocks, av) && More(g, av, h, av')
    ensures var o := GenArgs(m, h, args);
            o.Good? ==>
              && More(g, av, o.g, av'') == true && More(h, av', o.g, av'') == true
              && AllHeld(o.g, av'', o.value) == true
    decreases args, 0
  {
    hide GenExpr, Certified, Wider, Ends, More, Held;
    av'' := av';
    if args == [] {
      MoreCertified(g, av, h, av');
      MoreSame(h, av', h);
    } else {
      var av1 := PartMore(m, g, av, h, av', args[0]);
      var a := GenExpr(m, h, args[0]);
      if a.Good? {
        av'' := ArgsMore(m, g, av, a.g, av1, args[1..]);
        var b := GenArgs(m, a.g, args[1..]);
        if b.Good? {
          MoreTrans(h, av', a.g, av1, b.g, av'');
          HeldStill(a.g, av1, b.g, av'', a.value);
        }
      }
    }
  }

  lemma {:induction false} BindingsMore(m: Arith, g: Gen, av: Avail, h: Gen, av': Avail, bs: seq<Binding>,
                                        saved: map<string, Option<nat>>)
      returns (av'': Avail)
    requires Certified(g.blocks, av) && More(g, av, h, av')
    ensures var o := GenBindings(m, h, bs, saved); o.Good? ==> More(g, av, o.g, av'') == true
    decreases bs, 0
  {
    hide GenOption, Bind, Certified, More, Held;
    av'' := av';
    if bs != [] {
      var av1 := OptionMore(m, g, av, h, av', bs[0].init, m.zero);
      var a := GenOption(m, h, bs[0].init, m.zero);
      if a.Good? {
        MoreCertified(g, av, a.g, av1);
        BindMore(a.g, av1, bs[0].name, a.value);
        var b := Bind(a.g, bs[0].name, a.value);
        MoreTrans(g, av, a.g, av1, b, av1);
        av'' := BindingsMore(m, g, av, b, av1, bs[1..], saved[bs[0].name := Lookup(a.g.named, bs[0].name)]);
      }
    }
  }

  /** Scopes, slots and declarations do not matter. */
  lemma MoreElsewhere(g: Gen, av: Avail, h: Gen, av': Avail, h': Gen)
    requires More(g, av, h, av') && h'.blocks == h.blocks && h'.cur == h.cur
    ensures More(g, av, h', av')
  {
    hide Certified, Wider;
  }

  lemma HeldElsewhere(g: Gen, av: Avail, h: Gen, v: Operand)
    requires Held(g, av, v) && h.blocks == g.blocks && h.cur == g.cur
    ensures Held(h, av, v)
  {
  }

  lemma {:induction false} VarInMore(m: Arith, g: Gen, av: Avail, e: Expr) returns (av': Avail)
    requires e.VarIn? && Certified(g.blocks, av)
    ensures var o := GenVarIn(m, g, e); o.Good? ==> More(g, av, o.g, av') == true && Held(o.g, av', o.value) == true
    decreases e, 1
  {
    hide GenExpr, GenBindings, RestoreAll, Certified, More, Held;
    av' := av;
    MoreSame(g, av, g);
    var av1 := BindingsMore(m, g, av, g, av, e.bindings, map[]);
    var a := GenBindings(m, g, e.bindings, map[]);
    if a.Good? {
      av' := PartMore(m, g, av, a.g, av1, e.body);
      var o := GenVarIn(m, g, e);
      if o.Good? {
        var b := GenExpr(m, a.g, e.body);
        MoreElsewhere(g, av, b.g, av', o.g);
        HeldElsewhere(b.g, av', o.g, o.value);
      }
    }
  }

  lemma {:induction false} UnaryMore(m: Arith, g: Gen, av: Avail, e: Expr) returns (av': Avail)
    requires e.Unary? && Certified(g.blocks, av)
    ensures var o := GenUnary(m, g, e); o.Good? ==> More(g, av, o.g, av') == true && Held(o.g, av', o.value) == true
    decreases e, 1
  {
    hide GenExpr, CallOperator, Certified, More, Held;
    av' := ExprMore(m, g, av, e.operand);
    var a := GenExpr(m, g, e.operand);
    if GenUnary(m, g, e).Good? {
      MoreCertified(g, av, a.g, av');
      CallOperatorMore(a.g, av', UnaryName(e.op), [a.value]);
      MoreTrans(g, av, a.g, av', GenUnary(m, g, e).g, av');
    }
  }

  lemma {:induction false} AssignMore(m: Arith, g: Gen, av: Avail, e: Expr) returns (av': Avail)
    requires e.Binary? && e.op == '=' && Certified(g.blocks, av)
    ensures var o := GenAssign(m, g, e); o.Good? ==> More(g, av, o.g, av') == true && Held(o.g, av', o.value) == true
    decreases e, 1
  {
    hide GenExpr, Emit, Certified, More, Held;
    av' := ExprMore(m, g, av, e.rhs);
    var a := GenExpr(m, g, e.rhs);
    var o := GenAssign(m, g, e);
    if o.Good? {
      MoreCertified(g, av, a.g, av');
      StoreMore(a.g, av', a.value, a.g.named[e.lhs.name]);
      MoreTrans(g, av, a.g, av', o.g, av');
      HeldStill(a.g, av', o.g, av', a.value);
    }
  }

  lemma {:induction false} BinaryMore(m: Arith, g: Gen, av: Avail, e: Expr) returns (av': Avail)
    requires e.Binary? && e.op != '=' && Certified(g.blocks, av)
    ensures var o := GenBinary(m, g, e); o.Good? ==> More(g, av, o.g, av') == true && Held(o.g, av', o.value) == true
    decreases e, 1
  {
    hide GenExpr, CallOperator, BuiltIn, Certified, More, Held;
    var av1 := ExprMore(m, g, av, e.lhs);
    var a := GenExpr(m, g, e.lhs);
    av' := av1;
    if a.Good? {
      av' := PartMore(m, g, av, a.g, av1, e.rhs);
      var b := GenExpr(m, a.g, e.rhs);
      var o := GenBinary(m, g, e);
      if o.Good? {
        MoreCertified(g, av, b.g, av');
        HeldStill(a.g, av1, b.g, av', a.value);
        if UserOperator(e.op) {
          CallOperatorMore(b.g, av', BinaryName(e.op), [a.value, b.value]);
        } else {
          BuiltInMore(m, b.g, av', e.op, a.value, b.value);
        }
        MoreTrans(g, av, b.g, av', o.g, av');
      }
    }
  }

  lemma {:induction false} CallExprMore(m: Arith, g: Gen, av: Avail, e: Expr) returns (av': Avail)
    requires e.Call? && Certified(g.blocks, av)
    ensures var o := GenCall(m, g, e); o.Good? ==> More(g, av, o.g, av') == true && Held(o.g, av', o.value) == true
    decreases e, 1
  {
    hide GenArgs, EmitCall, Certified, More, Held, AllHeld;
    var g1 := GetFunction(g, e.callee).0;
    MoreSame(g, av, g1);
    av' := ArgsMore(m, g, av, g1, av, e.args);
    var a := GenArgs(m, g1, e.args);
    var o := GenCall(m, g, e);
    if o.Good? {
      MoreCertified(g, av, a.g, av');
      CallMore(a.g, av', e.callee, a.value);
      MoreTrans(g, av, a.g, av', o.g, av');
    }
  }

  lemma {:induction false} GenIfMore(m: Arith, g: Gen, av: Avail, e: Expr) returns (av': Avail)
    requires e.If? && Certified(g.blocks, av)
    ensures var o := GenIf(m, g, e); o.Good? ==> More(g, av, o.g, av') == true && Held(o.g, av', o.value) == true
    decreases e, 1
  {
    hide GenExpr, EmitBin, BeginIf, NextArm, AddPhi, Certified, More, Held, Wider, Ends;
    av' := ExprMore(m, g, av, e.cond);
    var o := GenExpr(m, g, e.cond);
    if GenIf(m, g, e).Good? {
      var av1 := av';
      MoreCertified(g, av, o.g, av1);
      assert Held(o.g, av1, Lit(Dbl(m.zero))) by { LitHeld(g, av, o.g, av1, Dbl(m.zero)); }
      var (g2, bit) := EmitBin(m, o.g, FCmpONE, o.value, Lit(Dbl(m.zero)));
      BinMore(m, o.g, av1, FCmpONE, o.value, Lit(Dbl(m.zero)));
      MoreCertified(o.g, av1, g2, av1);
      MoreTrans(g, av, o.g, av1, g2, av1);
      var n := |g2.blocks|;
      BeginIfMore(g2, av1, bit);
      MoreCertified(g2, av1, BeginIf(g2, bit), Forked(g2, av1, 3));
      var av3 := ExprMore(m, BeginIf(g2, bit), Forked(g2, av1, 3), e.thn);
      var a := GenExpr(m, BeginIf(g2, bit), e.thn);
      ArmMore(g2, av1, bit, a.g, av3);
      var s := NextArm(a.g, n + 2, n + 1);
      av' := ExprMore(m, s, av3, e.els);
      var b := GenExpr(m, s, e.els);
      IfMore(g2, av1, bit, a.g, av3, b.g, av', a.value, b.value);
      MoreTrans(g, av, g2, av1, GenIf(m, g, e).g, av');
    }
  }

  lemma LitHeld(g: Gen, av: Avail, h: Gen, av': Avail, v: Val)
    requires More(g, av, h, av')
    ensures Held(h, av', Lit(v))
  {
  }

  lemma IncrementMore(m: Arith, g: Gen, av: Avail, slot: nat, step: Operand)
    requires Certified(g.blocks, av) && Held(g, av, step)
    ensures More(g, av, Increment(m, g, slot, step), av)
  {
    hide EmitLoad, EmitBin, Emit, Certified, More, Held;
    var (g1, x) := EmitLoad(g, slot);
    LoadMore(g, av, slot);
    MoreCertified(g, av, g1, av);
    HeldStill(g, av, g1, av, step);
    var (g2, next) := EmitBin(m, g1, FAdd, x, step);
    BinMore(m, g1, av, FAdd, x, step);
    MoreCertified(g1, av, g2, av);
    MoreTrans(g, av, g1, av, g2, av);
    StoreMore(g2, av, next, slot);
    MoreTrans(g, av, g2, av, Emit(g2, Store(next, slot)), av);
  }

  /** From the first block of a loop to its test. */
  lemma LoopStart(g: Gen, av: Avail, h: Gen, av': Avail)
    requires |av| == |g.blocks| && More(g, av, h, av')
    ensures g.cur < |h.blocks| && |av'| == |h.blocks| && av'[g.cur] <= Ends(h.blocks, av', h.cur)
  {
    assert av[g.cur] <= Ends(g.blocks, av, g.cur);
  }

  lemma {:induction false} LoopMore(m: Arith, g: Gen, av: Avail, e: Expr, slot: nat) returns (av': Avail)
    requires e.For? && Certified(g.blocks, av)
    ensures var o := GenLoop(m, g, e, slot); o.Good? ==> More(g, av, o.g, av') == true
    decreases e, 0
  {
    CertifiedLength(g.blocks, av);
    hide GenExpr, GenOption, Increment, EmitBin, Certified, More, Held, Ends;
    av' := ExprMore(m, g, av, e.body);
    if GenLoop(m, g, e, slot).Good? {
      var a := GenExpr(m, g, e.body);
      var av2 := OptionMore(m, g, av, a.g, av', e.step, m.unit);
      var b := GenOption(m, a.g, e.step, m.unit);
      var av3 := PartMore(m, g, av, b.g, av2, e.end);
      var c := GenExpr(m, b.g, e.end);
      MoreCertified(g, av, c.g, av3);
      HeldStill(b.g, av2, c.g, av3, b.value);
      IncrementMore(m, c.g, av3, slot, b.value);
      var g1 := Increment(m, c.g, slot, b.value);
      MoreTrans(g, av, c.g, av3, g1, av3);
      HeldStill(c.g, av3, g1, av3, c.value);
      av' := TestMore(m, g, av, g1, av3, c.value);
    }
  }

  lemma TestMore(m: Arith, g: Gen, av: Avail, h: Gen, av': Avail, end: Operand) returns (av'': Avail)
    requires |av| == |g.blocks| && More(g, av, h, av') && Held(h, av', end)
    ensures More(g, av, TestLoop(m, h, g.cur, end), av'')
  {
    hide EmitBin, Certified, More, Held, Ends, Wider;
    MoreCertified(g, av, h, av');
    LitHeld(g, av, h, av', Dbl(m.zero));
    BinMore(m, h, av', FCmpONE, end, Lit(Dbl(m.zero)));
    var (k, c) := EmitBin(m, h, FCmpONE, end, Lit(Dbl(m.zero)));
    MoreCertified(h, av', k, av');
    MoreTrans(g, av, h, av', k, av');
    LoopStart(g, av, k, av');
    CloseLoopMore(k, av', c, g.cur);
    av'' := Forked(k, av', 1);
    MoreTrans(g, av, k, av', CloseLoop(k, c, g.cur), av'');
  }

  lemma {:induction false} ForMore(m: Arith, g: Gen, av: Avail, e: Expr) returns (av': Avail)
    requires e.For? && Certified(g.blocks, av)
    ensures var o := GenFor(m, g, e); o.Good? ==> More(g, av, o.g, av') == true && Held(o.g, av', o.value) == true
    decreases e, 1
  {
    hide GenExpr, GenLoop, BeginLoop, Emit, Certified, More, Held;
    var slot := |g.allocas|;
    var g0 := Alloca(g, e.name);
    MoreSame(g, av, g0);
    av' := PartMore(m, g, av, g0, av, e.start);
    var a := GenExpr(m, g0, e.start);
    var o := GenFor(m, g, e);
    if o.Good? {
      var av1 := av';
      MoreCertified(g, av, a.g, av1);
      var g1 := Emit(a.g, Store(a.value, slot));
      StoreMore(a.g, av1, a.value, slot);
      MoreCertified(a.g, av1, g1, av1);
      MoreTrans(g, av, a.g, av1, g1, av1);
      var av2 := NewLoop(g, av, g1, av1);
      var s := BeginLoop(g1).(named := BeginLoop(g1).named[e.name := slot]);
      MoreElsewhere(g, av, BeginLoop(g1), av2, s);
      MoreCertified(g, av, s, av2);
      av' := LoopMore(m, s, av2, e, slot);
      var k := GenLoop(m, s, e, slot).g;
      MoreTrans(g, av, s, av2, k, av');
      MoreElsewhere(g, av, k, av', o.g);
      LitHeld(g, av, o.g, av', Dbl(m.zero));
    }
  }

  lemma NewLoop(g: Gen, av: Avail, h: Gen, av': Avail) returns (av'': Avail)
    requires More(g, av, h, av')
    ensures More(g, av, BeginLoop(h), av'')
  {
    hide Certified, Wider;
    BeginLoopMore(h, av');
    av'' := Forked(h, av', 1);
    MoreTrans(g, av, h, av', BeginLoop(h), av'');
  }

  /** Whatever the expression, a solution for the blocks so far extends to the blocks it adds. */
  lemma {:induction false} ExprMore(m: Arith, g: Gen, av: Avail, e: Expr) returns (av': Avail)
    requires Certified(g.blocks, av)
    ensures var o := GenExpr(m, g, e); o.Good? ==> More(g, av, o.g, av') == true && Held(o.g, av', o.value) == true
    decreases e, 2
  {
    hide Certified, More, Held, EmitLoad, GenIf, GenFor, GenVarIn, GenUnary, GenBinary, GenAssign, GenCall;
    av' := av;
    match e
    case Number(text) =>
      MoreSame(g, av, g);
      LitHeld(g, av, g, av, Dbl(m.parse(text)));
    case Variable(x) =>
      if x in g.named {
        LoadMore(g, av, g.named[x]);
      }
    case VarIn(_, _) => av' := VarInMore(m, g, av, e);
    case Unary(_, _) => av' := UnaryMore(m, g, av, e);
    case Binary(op, _, _) =>
      if op == '=' {
        av' := AssignMore(m, g, av, e);
      } else {
        av' := BinaryMore(m, g, av, e);
      }
    case If(_, _, _) => av' := GenIfMore(m, g, av, e);
    case For(_, _, _, _, _) => av' := ForMore(m, g, av, e);
    case Call(_, _) => av' := CallExprMore(m, g, av, e);
  }

  // ----- Whole functions -----

  lemma {:induction false} ParamsCertified(g: Gen, av: Avail, params: seq<string>, i: nat)
    requires i <= |params| && Certified(g.blocks, av)
    ensures Certified(GenParams(g, params, i).blocks, av) == true
    decreases |params| - i
  {
    hide Certified, Bind;
    if i < |params| {
      assert |av| == |g.blocks| by { CertifiedLength(g.blocks, av); }
      BindMore(g, av, params[i], Arg(i));
      MoreCertified(g, av, Bind(g, params[i], Arg(i)), av);
      ParamsCertified(Bind(g, params[i], Arg(i)), av, params, i + 1);
    }
  }

  lemma CertifiedLength(blocks: seq<Block>, av: Avail)
    requires Certified(blocks, av)
    ensures |av| == |blocks|
  {
  }

  lemma BodyDominated(m: Arith, mod: Module, protos: map<string, Prototype>, params: seq<string>, body: Expr)
    requires GenBody(m, mod, protos, params, body).Good?
    ensures UsesDominated(GenBody(m, mod, protos, params, body).g.blocks)
  {
    hide GenExpr, GenParams, UsesDominated, BlockOk;
    var g0 := Start(mod, protos);
    var av0 := [iset{}];
    NewBlock(g0.blocks, av0, 0);
    ParamsCertified(g0, av0, params, 0);
    var g := GenParams(g0, params, 0);
    var av := ExprMore(m, g, av0, body);
    var o := GenExpr(m, g, body);
    MoreCertified(g, av0, o.g, av);
    RetCertified(o.g, av, o.value);
    CertifiedDominated(Seal(o.g, Ret(o.value)).blocks, av);
  }

  /** In every accepted definition, definitions of registers dominate their uses. */
  lemma DefinitionDominated(m: Arith, gl: Globals, d: Definition)
    ensures var (_, r) := GenDefinition(m, gl, d);
            r.Ok? ==> r.value.code.Some? && UsesDominated(r.value.code.value.blocks) == true
  {
    hide GenBody, UsesDominated;
    var mod := Declare(gl.mod, d.proto);
    var protos := gl.protos[d.proto.name := d.proto];
    var params := mod[d.proto.name].params;
    if GenBody(m, mod, protos, params, d.body).Good? {
      BodyDominated(m, mod, protos, params, d.body);
    }
  }
}
