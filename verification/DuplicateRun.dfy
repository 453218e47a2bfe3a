/**
 The whole pass: blocks are duplicated one after another in any order.  The value to test was chosen
 before anything was rewritten; `valueToPhi` finds what stands for it now.
 */
module DuplicateRun {
  import opened Ssa
  import opened Renaming
  import opened Duplicate
  import opened DuplicateProof

  // ----- One block, seen from outside -----

  /**
   Duplicating a block behind a test that can be evaluated whenever control gets there changes nothing a
   caller sees.
   */
  lemma DuplicatePreserves(sem: Sem, f: Fn, s: Split, check: Operand, regs: Regs)
    requires Splits(f, s) && Safe(sem, f, regs) && Available(sem, f, regs, s.at, check)
    requires forall r :: r in regs ==> r in f.inputs
    ensures var g := Duplicated(f, s.at, check, s.reg, s.lab);
            SameBehaviour(sem, f, g, regs) && Safe(sem, g, regs)
  {
    hide Splits, Duplicated, Available, Steps, Safe;
    assert s.at in f.blocks by { assert Splits(f, s); SplitAt(f, s); }
    var g := Duplicated(f, s.at, check, s.reg, s.lab);
    SameStart(f, s, check, regs);
    forall m: nat
      ensures !Steps(sem, g, m, Start(g, regs)).Stuck?
    {
      var n, phase := TracksAll(sem, f, s, check, regs, m);
    }
    SafeIntro(sem, g, regs);
    forall result: seq<int>, t: Trace
      ensures Ends(sem, f, regs, result, t) <==> Ends(sem, g, regs, result, t)
    {
      if Ends(sem, f, regs, result, t) {
        EndsForward(sem, f, s, check, regs, result, t);
      }
      if Ends(sem, g, regs, result, t) {
        var m: nat :| Steps(sem, g, m, Start(g, regs)) == Finished(result, t);
        var n, phase := TracksAll(sem, f, s, check, regs, m);
      }
    }
    forall t: Trace
      ensures Makes(sem, f, regs, t) <==> Makes(sem, g, regs, t)
    {
      if Makes(sem, f, regs, t) {
        MakesForward(sem, f, s, check, regs, t);
      }
      if Makes(sem, g, regs, t) {
        MakesBackward(sem, f, s, check, regs, t);
      }
    }
  }

  lemma SafeIntro(sem: Sem, g: Fn, regs: Regs)
    requires forall m: nat :: !Steps(sem, g, m, Start(g, regs)).Stuck?
    ensures Safe(sem, g, regs)
  {
  }

  lemma SplitAt(f: Fn, s: Split)
    requires Splits(f, s)
    ensures s.at in f.blocks
  {
  }

  lemma SameStart(f: Fn, s: Split, check: Operand, regs: Regs)
    requires s.at in f.blocks
    ensures var g := Duplicated(f, s.at, check, s.reg, s.lab);
            Start(g, regs) == Start(f, regs) && g.inputs == f.inputs && g.entry == f.entry
  {
  }

  lemma EndsForward(sem: Sem, f: Fn, s: Split, check: Operand, regs: Regs, result: seq<int>, t: Trace)
    requires Splits(f, s) && Safe(sem, f, regs) && Available(sem, f, regs, s.at, check)
    requires (forall r :: r in regs ==> r in f.inputs) && Ends(sem, f, regs, result, t)
    ensures Ends(sem, Duplicated(f, s.at, check, s.reg, s.lab), regs, result, t)
  {
    hide Splits, Duplicated, Available, Safe;
    assert s.at in f.blocks by { SplitAt(f, s); }
    var g := Duplicated(f, s.at, check, s.reg, s.lab);
    SameStart(f, s, check, regs);
    var n0: nat :| Steps(sem, f, n0, Start(f, regs)) == Finished(result, t);
    var m := 3 * n0 + 3;
    var n, phase := TracksAll(sem, f, s, check, regs, m);
    StoppedStays(sem, f, n0, n, Start(f, regs));
    assert Steps(sem, g, m, Start(g, regs)) == Finished(result, t);
  }

  /** Effects of the original are effects of the result, no later than after three times as many steps. */
  lemma MakesForward(sem: Sem, f: Fn, s: Split, check: Operand, regs: Regs, t: Trace)
    requires Splits(f, s) && Safe(sem, f, regs) && Available(sem, f, regs, s.at, check)
    requires (forall r :: r in regs ==> r in f.inputs) && Makes(sem, f, regs, t)
    ensures Makes(sem, Duplicated(f, s.at, check, s.reg, s.lab), regs, t)
  {
    hide Splits, Duplicated, Available, Safe, Steps, Rel;
    assert s.at in f.blocks by { SplitAt(f, s); }
    var g := Duplicated(f, s.at, check, s.reg, s.lab);
    SameStart(f, s, check, regs);
    var n0: nat :| Shows(Steps(sem, f, n0, Start(f, regs)), t);
    var m := 3 * n0 + 2;
    var n, phase := TracksAll(sem, f, s, check, regs, m);
    TraceGrows(sem, f, n0, n, regs);
    var sf := Steps(sem, f, n, Start(f, regs));
    if sf.Run? {
      ExecGrows(sem, s.body, Local(sf.regs, sf.trace));
    }
    assert Shows(Steps(sem, g, m, Start(g, regs)), t);
  }

  /** An effect of a copy is an effect of the block it copies, which the original is about to run. */
  lemma MakesBackward(sem: Sem, f: Fn, s: Split, check: Operand, regs: Regs, t: Trace)
    requires Splits(f, s) && Safe(sem, f, regs) && Available(sem, f, regs, s.at, check) && s.at in f.blocks
    requires forall r :: r in regs ==> r in f.inputs
    requires Makes(sem, Duplicated(f, s.at, check, s.reg, s.lab), regs, t)
    ensures Makes(sem, f, regs, t)
  {
    hide Splits, Duplicated, Available, Step, Rel, ExecAll;
    var g := Duplicated(f, s.at, check, s.reg, s.lab);
    SameStart(f, s, check, regs);
    var m: nat :| Shows(Steps(sem, g, m, Start(g, regs)), t);
    var n, phase := TracksAll(sem, f, s, check, regs, m);
    var sf := Steps(sem, f, n, Start(f, regs));
    assert !Steps(sem, f, n + 1, Start(f, regs)).Stuck?;
    if phase == 2 {
      StepMakes(sem, f, sf);
      assert f.blocks[s.at].body == s.body by { SplitBody(f, s); }
      assert Shows(Steps(sem, f, n + 1, Start(f, regs)), t);
    } else {
      assert Shows(sf, t);
    }
  }

  lemma SplitBody(f: Fn, s: Split)
    requires Splits(f, s)
    ensures s.at in f.blocks && f.blocks[s.at].body == s.body
  {
  }

  /** What could be read on entry to a block of the original can be read there under its final name. */
  lemma AvailableAfter(sem: Sem, f: Fn, s: Split, check: Operand, regs: Regs, l: nat, r: nat)
    requires Splits(f, s) && Safe(sem, f, regs) && Available(sem, f, regs, s.at, check)
    requires forall x :: x in regs ==> x in f.inputs
    requires l < s.lab && Available(sem, f, regs, l, Reg(r))
    ensures Available(sem, Duplicated(f, s.at, check, s.reg, s.lab), regs, l, Reg(Final(s, r)))
  {
    hide Splits, Duplicated, Safe, Steps;
    assert s.at in f.blocks by { SplitAt(f, s); }
    var g := Duplicated(f, s.at, check, s.reg, s.lab);
    SameStart(f, s, check, regs);
    forall m: nat | Steps(sem, g, m, Start(g, regs)).Run? && Steps(sem, g, m, Start(g, regs)).at == l
      ensures ValueOf(Steps(sem, g, m, Start(g, regs)).regs, Reg(Final(s, r))).Some?
    {
      var n, phase := TracksAll(sem, f, s, check, regs, m);
      var sf := Steps(sem, f, n, Start(f, regs));
      assert phase == 0 && sf.Run? && sf.at == l;
      assert ValueOf(sf.regs, Reg(r)).Some?;
    }
  }

  // ----- Validity is kept -----

  lemma OpsRenamed(ops: seq<Operand>, s: Split)
    requires OpsBelow(ops, s.reg)
    ensures OpsBelow(RenameOps(ops, FinalFn(s)), s.NextReg())
  {
    forall k | 0 <= k < |ops|
      ensures OpBelow(RenameOps(ops, FinalFn(s))[k], s.NextReg())
    {
      assert OpBelow(ops[k], s.reg);
    }
  }

  lemma PhisBelow(phis: seq<Phi>, s: Split)
    requires s.at < s.lab && AllPhisBelow(phis, s.reg, s.lab)
    ensures AllPhisBelow(RenamePhis(phis, FinalFn(s), s.at, s.TailLabel()), s.NextReg(), s.lab + 3)
  {
    var r := RenamePhis(phis, FinalFn(s), s.at, s.TailLabel());
    forall k | 0 <= k < |r|
      ensures PhiBelow(r[k], s.NextReg(), s.lab + 3)
    {
      assert PhiBelow(phis[k], s.reg, s.lab);
      forall j | 0 <= j < |r[k].incoming|
        ensures r[k].incoming[j].0 < s.lab + 3 && OpBelow(r[k].incoming[j].1, s.NextReg())
      {
        assert OpBelow(phis[k].incoming[j].1, s.reg);
      }
    }
  }

  lemma BodyRenamedBelow(body: seq<Instr>, s: Split)
    requires BodyBelow(body, s.reg)
    ensures BodyBelow(RenameBody(body, FinalFn(s)), s.NextReg())
  {
    hide FinalFn;
    forall k | 0 <= k < |body|
      ensures InstrBelow(RenameBody(body, FinalFn(s))[k], s.NextReg())
    {
      assert InstrBelow(body[k], s.reg);
      OpsRenamed(body[k].args, s);
    }
  }

  lemma KeptBelow(x: Block, s: Split)
    requires s.at < s.lab && BlockBelow(x, s.reg, s.lab)
    ensures BlockBelow(RenameBlock(x, FinalFn(s), s.at, s.TailLabel()), s.NextReg(), s.lab + 3)
  {
    hide FinalFn, OpBelow, PhiBelow, InstrBelow;
    PhisBelow(x.phis, s);
    BodyRenamedBelow(x.body, s);
    OpsRenamed(x.term.args, s);
  }

  lemma {:induction false} CopyBelow(s: Split, n: nat, arm: nat)
    requires n <= |s.body| && arm < 2 && BodyBelow(s.body, s.reg)
    ensures |Copy(s, n, arm)| == |s.body| - n
    ensures forall k :: 0 <= k < |Copy(s, n, arm)| ==> Copy(s, n, arm)[k] == CopyOne(s, n + k, arm)
    ensures BodyBelow(Copy(s, n, arm), s.NextReg())
    decreases |s.body| - n
  {
    if n < |s.body| {
      CopyBelow(s, n + 1, arm);
      var i := CopyOne(s, n, arm);
      assert InstrBelow(s.body[n], s.reg);
      forall k | 0 <= k < |i.args|
        ensures OpBelow(i.args[k], s.NextReg())
      {
        assert OpBelow(s.body[n].args[k], s.reg);
      }
    }
  }

  ghost predicate IsPhiReg(s: Split, n: nat, r: nat) {
    exists j: nat :: n <= j < |s.body| && r == s.PhiReg(j)
  }

  lemma {:induction false} TailPhisBelow(s: Split, n: nat)
    requires n <= |s.body|
    ensures AllPhisBelow(TailPhis(s, n), s.NextReg(), s.lab + 3)
    ensures forall k :: 0 <= k < |TailPhis(s, n)| ==> IsPhiReg(s, n, TailPhis(s, n)[k].dst)
    decreases |s.body| - n
  {
    if n < |s.body| {
      TailPhisBelow(s, n + 1);
      forall k | 0 <= k < |TailPhis(s, n)|
        ensures PhiBelow(TailPhis(s, n)[k], s.NextReg(), s.lab + 3) && IsPhiReg(s, n, TailPhis(s, n)[k].dst)
      {
        if s.body[n].ty.Void? {
          assert IsPhiReg(s, n + 1, TailPhis(s, n + 1)[k].dst);
        } else if k > 0 {
          assert TailPhis(s, n)[k] == TailPhis(s, n + 1)[k - 1];
          assert IsPhiReg(s, n + 1, TailPhis(s, n + 1)[k - 1].dst);
        } else {
          assert TailPhis(s, n)[0] == TailPhi(s, n);
          assert TailPhi(s, n).dst == s.PhiReg(n);
        }
      }
    }
  }

  /** The result is bounded by the registers and labels used up. */
  lemma BoundedAfter(f: Fn, s: Split, check: nat)
    requires Splits(f, s) && check < s.reg
    ensures Bounded(Duplicated(f, s.at, Reg(check), s.reg, s.lab), s.NextReg(), s.lab + 3)
  {
    hide SingleDef, BlockBelow, FinalFn, RenameBlock, Copy, TailPhis, HeadOf, ArmOf, TailOf;
    var g := Duplicated(f, s.at, Reg(check), s.reg, s.lab);
    var x := f.blocks[s.at];
    NewBlocksBelow(f, s, check);
    forall l | l in g.blocks
      ensures l < s.lab + 3 && BlockBelow(g.blocks[l], s.NextReg(), s.lab + 3)
    {
      if l in f.blocks && l != s.at {
        KeptBelow(f.blocks[l], s);
      }
    }
  }

  lemma NewBlocksBelow(f: Fn, s: Split, check: nat)
    requires Splits(f, s) && check < s.reg
    ensures BlockBelow(HeadOf(s, f.blocks[s.at], Reg(check)), s.NextReg(), s.lab + 3)
    ensures BlockBelow(ArmOf(s, 0), s.NextReg(), s.lab + 3) && BlockBelow(ArmOf(s, 1), s.NextReg(), s.lab + 3)
    ensures BlockBelow(TailOf(s, f.blocks[s.at]), s.NextReg(), s.lab + 3)
  {
    hide SingleDef, Copy, TailPhis, RenamePhis, PhiBelow;
    var x := f.blocks[s.at];
    assert BlockBelow(x, s.reg, s.lab);
    PhisBelow(x.phis, s);
    assert Final(s, check) < s.NextReg();
    assert InstrBelow(Instr(Int, s.CondReg(), IsNull, [RenameOp(Reg(check), FinalFn(s))]), s.NextReg());
    CopyBelow(s, 0, 0);
    CopyBelow(s, 0, 1);
    TailPhisBelow(s, 0);
    OpsRenamed(x.term.args, s);
  }

  /** The only block that may define a new register. */
  function Home(s: Split, r: nat): nat
    requires r >= s.reg
  {
    if r == s.reg then s.at
    else if (r - s.reg) % 3 == 1 then s.ThenLabel()
    else if (r - s.reg) % 3 == 2 then s.ElseLabel()
    else s.TailLabel()
  }

  ghost predicate OldDefs(f: Fn, g: Fn, s: Split, l: nat, r: nat)
    requires l in g.blocks
  {
    && (BodyDefines(g.blocks[l], r) ==> l in f.blocks && l != s.at && BodyDefines(f.blocks[l], r))
    && (PhiDefines(g.blocks[l], r) ==> l in f.blocks && PhiDefines(f.blocks[l], r))
  }

  ghost predicate NewDefs(g: Fn, s: Split, l: nat, r: nat)
    requires l in g.blocks && r >= s.reg
  {
    && (BodyDefines(g.blocks[l], r) ==> l == Home(s, r) && l != s.TailLabel())
    && (PhiDefines(g.blocks[l], r) ==> l == Home(s, r) && l == s.TailLabel())
  }

  lemma KeptDefs(x: Block, s: Split, b: nat, k: nat, r: nat)
    ensures var y := RenameBlock(x, FinalFn(s), b, k);
            (BodyDefines(y, r) <==> BodyDefines(x, r)) && (PhiDefines(y, r) <==> PhiDefines(x, r))
  {
    var y := RenameBlock(x, FinalFn(s), b, k);
    if BodyDefines(x, r) {
      var i :| 0 <= i < |x.body| && Defines(x.body[i], r);
      assert Defines(y.body[i], r);
    }
    if PhiDefines(x, r) {
      var i :| 0 <= i < |x.phis| && x.phis[i].dst == r;
      assert y.phis[i].dst == r;
    }
  }

  lemma DefsBelow(f: Fn, s: Split, l: nat, r: nat)
    requires Splits(f, s) && l in f.blocks && (BodyDefines(f.blocks[l], r) || PhiDefines(f.blocks[l], r))
    ensures r < s.reg
  {
    var x := f.blocks[l];
    assert BlockBelow(x, s.reg, s.lab);
    if BodyDefines(x, r) {
      var i :| 0 <= i < |x.body| && Defines(x.body[i], r);
      assert InstrBelow(x.body[i], s.reg);
    } else {
      var i :| 0 <= i < |x.phis| && x.phis[i].dst == r;
      assert PhiBelow(x.phis[i], s.reg, s.lab);
    }
  }

  lemma HeadDefs(f: Fn, s: Split, check: Operand, r: nat)
    requires Splits(f, s)
    ensures var y := HeadOf(s, f.blocks[s.at], check);
            (BodyDefines(y, r) <==> r == s.reg) && (PhiDefines(y, r) <==> PhiDefines(f.blocks[s.at], r))
  {
    var x, y := f.blocks[s.at], HeadOf(s, f.blocks[s.at], check);
    KeptDefs(x, s, s.at, s.TailLabel(), r);
    var z := RenameBlock(x, FinalFn(s), s.at, s.TailLabel());
    assert PhiDefines(y, r) <==> PhiDefines(z, r);
    assert Defines(y.body[0], s.reg);
    if BodyDefines(y, r) {
      var i :| 0 <= i < |y.body| && Defines(y.body[i], r);
      assert i == 0;
    }
  }

  lemma Residue(x: int, i: int, c: int)
    requires x == 3 * i + c && 0 <= c < 3
    ensures x % 3 == c
  {
  }

  lemma ArmDefs(f: Fn, s: Split, arm: nat, r: nat)
    requires Splits(f, s) && arm < 2
    ensures var y := ArmOf(s, arm);
            (BodyDefines(y, r) ==> r > s.reg && (r - s.reg) % 3 == 1 + arm) && !PhiDefines(y, r)
  {
    hide Copy, InArmFn, InstrBelow, SingleDef;
    var y := ArmOf(s, arm);
    assert BlockBelow(f.blocks[s.at], s.reg, s.lab);
    CopyBelow(s, 0, arm);
    if BodyDefines(y, r) {
      var i :| 0 <= i < |y.body| && Defines(y.body[i], r);
      assert Copy(s, 0, arm)[i] == CopyOne(s, 0 + i, arm);
      Residue(r - s.reg, i, 1 + arm);
    }
  }

  lemma TailDefs(f: Fn, s: Split, r: nat)
    requires Splits(f, s)
    ensures var y := TailOf(s, f.blocks[s.at]);
            (PhiDefines(y, r) ==> r > s.reg && (r - s.reg) % 3 == 0) && !BodyDefines(y, r)
  {
    var y := TailOf(s, f.blocks[s.at]);
    TailPhisBelow(s, 0);
    if PhiDefines(y, r) {
      var i :| 0 <= i < |y.phis| && y.phis[i].dst == r;
      assert IsPhiReg(s, 0, TailPhis(s, 0)[i].dst);
      var j: nat :| j < |s.body| && r == s.PhiReg(j);
      Residue(r - s.reg, j + 1, 0);
    }
  }

  /** Old registers are defined where they were, unless they were copied; each new one has a single home. */
  lemma WhereDefined(f: Fn, s: Split, check: Operand, l: nat, r: nat)
    requires Splits(f, s) && l in Duplicated(f, s.at, check, s.reg, s.lab).blocks
    ensures var g := Duplicated(f, s.at, check, s.reg, s.lab);
            if r < s.reg then OldDefs(f, g, s, l, r) else NewDefs(g, s, l, r)
  {
    hide BodyDefines, PhiDefines, SingleDef, Bounded, RenameBlock, HeadOf, ArmOf, TailOf;
    HeadDefs(f, s, check, r);
    ArmDefs(f, s, 0, r);
    ArmDefs(f, s, 1, r);
    TailDefs(f, s, r);
    LabelsBelow(f, s);
    if l in f.blocks {
      if l != s.at {
        KeptDefs(f.blocks[l], s, s.at, s.TailLabel(), r);
      }
      if r >= s.reg && (BodyDefines(f.blocks[l], r) || PhiDefines(f.blocks[l], r)) {
        DefsBelow(f, s, l, r);
        assert false;
      }
    }
  }

  lemma LabelsBelow(f: Fn, s: Split)
    requires Splits(f, s)
    ensures forall l :: l in f.blocks ==> l < s.lab
  {
  }

  lemma SingleDefAfter(f: Fn, s: Split, check: Operand)
    requires Splits(f, s)
    ensures SingleDef(Duplicated(f, s.at, check, s.reg, s.lab))
  {
    hide BodyDefines, PhiDefines, Duplicated, Home, BlockBelow;
    var g := Duplicated(f, s.at, check, s.reg, s.lab);
    SameStart(f, s, check, map[]);
    forall l | l in g.blocks
      ensures OwnDefs(g, g.blocks[l])
    {
      forall r: nat
        ensures PhiDefines(g.blocks[l], r) ==> !BodyDefines(g.blocks[l], r)
        ensures r in g.inputs ==> !BodyDefines(g.blocks[l], r) && !PhiDefines(g.blocks[l], r)
      {
        WhereDefined(f, s, check, l, r);
        if l in f.blocks {
          assert OwnDefs(f, f.blocks[l]);
        }
      }
    }
    forall l, x, r | l in g.blocks && x in g.blocks && l != x && BodyDefines(g.blocks[l], r)
      ensures !BodyDefines(g.blocks[x], r) && !PhiDefines(g.blocks[x], r)
    {
      WhereDefined(f, s, check, l, r);
      WhereDefined(f, s, check, x, r);
    }
  }

  // ----- What is made -----

  /** The same operations in the same order, perhaps on other registers. */
  predicate SameOperations(p: seq<Instr>, q: seq<Instr>) {
    |p| == |q| && forall k :: 0 <= k < |p| ==> p[k].op == q[k].op && p[k].ty == q[k].ty && |p[k].args| == |q[k].args|
  }

  lemma {:induction false} CopySame(s: Split, n: nat, arm: nat)
    requires n <= |s.body|
    ensures SameOperations(s.body[n..], Copy(s, n, arm))
    decreases |s.body| - n
  {
    if n < |s.body| {
      CopySame(s, n + 1, arm);
      assert s.body[n..] == [s.body[n]] + s.body[n + 1..];
    }
  }

  /** The results of the instructions from number `n` on are each merged from their two copies by one phi. */
  lemma {:induction false} TailMerges(s: Split, n: nat, i: nat)
    requires n <= i < |s.body| && !s.body[i].ty.Void?
    ensures TailPhi(s, i) in TailPhis(s, n)
    decreases |s.body| - n
  {
    if n < i {
      TailMerges(s, n + 1, i);
    }
  }

  /** Block `x` after it has been split: a head, two arms and a tail. */
  ghost predicate SplitShape(s: Split, x: Block, check: nat, head: Block, thn: Block, els: Block, tail: Block) {
    && head.term == Term(CondBr, [Reg(s.CondReg())], [s.ThenLabel(), s.ElseLabel()])
    && |head.body| == 1 && head.body[0].op.IsNull? && head.body[0].dst == s.CondReg()
    && (!BodyDefines(x, check) ==> head.body[0].args == [Reg(check)])
    && ArmShape(s, x, thn) && ArmShape(s, x, els)
    && tail.body == [] && tail.term.kind == x.term.kind && tail.term.succs == x.term.succs
    && (forall i :: 0 <= i < |s.body| && !s.body[i].ty.Void? ==> TailPhi(s, i) in tail.phis)
  }

  /** An arm repeats the block's instructions and goes to the tail. */
  ghost predicate ArmShape(s: Split, x: Block, arm: Block) {
    arm.phis == [] && SameOperations(x.body, arm.body) && arm.term == Term(Br, [], [s.TailLabel()])
  }

  /**
   The block becomes a null test of the check value, two arms that repeat its instructions and a tail with
   the original terminator, where each result is the phi of its two copies; other blocks keep their shape.
   */
  lemma DuplicatedShape(f: Fn, s: Split, check: nat)
    requires Splits(f, s) && check < s.reg
    ensures var g := Duplicated(f, s.at, Reg(check), s.reg, s.lab);
            && g.blocks.Keys == f.blocks.Keys + {s.ThenLabel(), s.ElseLabel(), s.TailLabel()}
            && SplitShape(s, f.blocks[s.at], check, g.blocks[s.at], g.blocks[s.ThenLabel()], g.blocks[s.ElseLabel()],
               g.blocks[s.TailLabel()])
            && (forall l :: l in f.blocks && l != s.at ==> KeptShape(f.blocks[l], g.blocks[l]))
  {
    hide SingleDef, BlockBelow, Copy, TailPhis, TailPhi, HeadOf, ArmOf, TailOf, SplitShape, KeptShape, RenameBlock;
    LabelsBelow(f, s);
    PiecesShape(f, s, check);
    forall l | l in f.blocks && l != s.at
      ensures KeptShape(f.blocks[l], RenameBlock(f.blocks[l], FinalFn(s), s.at, s.TailLabel()))
    {
      RenamedKeeps(f.blocks[l], FinalFn(s), s.at, s.TailLabel());
    }
  }

  /** The same operations and the same successors. */
  ghost predicate KeptShape(x: Block, y: Block) { SameOperations(x.body, y.body) && y.term.succs == x.term.succs }

  lemma RenamedKeeps(x: Block, f: Rename, b: nat, k: nat)
    ensures KeptShape(x, RenameBlock(x, f, b, k))
  {
  }

  lemma PiecesShape(f: Fn, s: Split, check: nat)
    requires s.at in f.blocks && s.body == f.blocks[s.at].body && check < s.reg
    ensures SplitShape(s, f.blocks[s.at], check, HeadOf(s, f.blocks[s.at], Reg(check)), ArmOf(s, 0), ArmOf(s, 1),
            TailOf(s, f.blocks[s.at]))
  {
    hide Copy, TailPhis, TailPhi;
    assert s.body[0..] == s.body;
    CopySame(s, 0, 0);
    CopySame(s, 0, 1);
    forall i | 0 <= i < |s.body| && !s.body[i].ty.Void?
      ensures TailPhi(s, i) in TailPhis(s, 0)
    {
      TailMerges(s, 0, i);
    }
    if !BodyDefines(f.blocks[s.at], check) {
      FinalFixes(f, s, check);
    }
  }

  // ----- `valueToPhi` -----

  ghost predicate NoInstr(f: Fn, r: nat) {
    forall l :: l in f.blocks ==> !BodyDefines(f.blocks[l], r)
  }

  /** Neither a value that was copied nor its phi is the result of an instruction any more. */
  ghost predicate PhisRecorded(w: Work) {
    forall v :: v in w.valueToPhi
      ==> v < w.reg && w.valueToPhi[v] < w.reg && NoInstr(w.f, v) && NoInstr(w.f, w.valueToPhi[v])
  }

  ghost predicate Valid(w: Work) {
    Bounded(w.f, w.reg, w.lab) && SingleDef(w.f) && PhisRecorded(w)
  }

  lemma {:induction false} RecordedAt(vtp: map<nat, nat>, s: Split, n: nat, v: nat)
    requires n <= |s.body|
    ensures var i := LastDef(s.body, |s.body|, v);
            Current(RecordPhis(vtp, s, n), v)
            == (if i.Some? && n <= i.value then s.PhiReg(i.value) else Current(vtp, v))
            && (v in RecordPhis(vtp, s, n) <==> v in vtp || (i.Some? && n <= i.value))
    decreases |s.body| - n
  {
    if n < |s.body| {
      RecordedAt(if s.body[n].ty.Void? then vtp else vtp[s.body[n].dst := s.PhiReg(n)], s, n + 1, v);
    }
  }

  /** What stands for a value after the split is the final name of what stood for it before. */
  lemma CurrentAfter(w: Work, at: nat, value: nat, v: nat)
    requires Valid(w) && at in w.f.blocks
    ensures var s := SplitOf(w.f, at, w.reg, w.lab);
            Current(RecordPhis(w.valueToPhi, s, 0), v) == Final(s, Current(w.valueToPhi, v))
  {
    hide Bounded, SingleDef;
    var s := SplitOf(w.f, at, w.reg, w.lab);
    RecordedAt(w.valueToPhi, s, 0, v);
    if v in w.valueToPhi {
      NotLast(w, at, v);
      NotLast(w, at, w.valueToPhi[v]);
    }
  }

  lemma NotLast(w: Work, at: nat, v: nat)
    requires at in w.f.blocks && NoInstr(w.f, v)
    ensures LastDef(w.f.blocks[at].body, |w.f.blocks[at].body|, v).None?
  {
    var i := LastDef(w.f.blocks[at].body, |w.f.blocks[at].body|, v);
    assert i.Some? ==> BodyDefines(w.f.blocks[at], v);
  }

  lemma NoInstrAfter(f: Fn, s: Split, check: Operand, v: nat)
    requires Splits(f, s)
    requires || (v < s.reg && NoInstr(f, v)) || (v < s.reg && BodyDefines(f.blocks[s.at], v))
             || exists j: nat :: j < |s.body| && v == s.PhiReg(j)
    ensures NoInstr(Duplicated(f, s.at, check, s.reg, s.lab), v)
  {
    hide BodyDefines, PhiDefines, Duplicated, Bounded;
    var g := Duplicated(f, s.at, check, s.reg, s.lab);
    if v >= s.reg {
      var j: nat :| j < |s.body| && v == s.PhiReg(j);
      Residue(v - s.reg, j + 1, 0);
    }
    forall l | l in g.blocks
      ensures !BodyDefines(g.blocks[l], v)
    {
      WhereDefined(f, s, check, l, v);
    }
  }

  lemma ValidAfter(w: Work, at: nat, value: nat)
    requires Valid(w) && at in w.f.blocks && Current(w.valueToPhi, value) < w.reg
    ensures Valid(DuplicateOne(w, at, value))
  {
    hide Bounded, SingleDef, Duplicated, NoInstr, BodyDefines;
    var s := SplitOf(w.f, at, w.reg, w.lab);
    var c := Current(w.valueToPhi, value);
    assert Splits(w.f, s);
    BoundedAfter(w.f, s, c);
    SingleDefAfter(w.f, s, Reg(c));
    var w' := DuplicateOne(w, at, value);
    forall v | v in w'.valueToPhi
      ensures v < w'.reg && w'.valueToPhi[v] < w'.reg && NoInstr(w'.f, v) && NoInstr(w'.f, w'.valueToPhi[v])
    {
      RecordedAt(w.valueToPhi, s, 0, v);
      var i := LastDef(s.body, |s.body|, v);
      if i.Some? {
        DefinedBelow(w.f, s, i.value, v);
      }
      NoInstrAfter(w.f, s, Reg(c), v);
      NoInstrAfter(w.f, s, Reg(c), w'.valueToPhi[v]);
    }
  }

  lemma DefinedBelow(f: Fn, s: Split, i: nat, v: nat)
    requires Splits(f, s) && i < |s.body| && Defines(s.body[i], v)
    ensures v < s.reg && BodyDefines(f.blocks[s.at], v)
  {
    assert BodyDefines(f.blocks[s.at], v);
    DefsBelow(f, s, s.at, v);
  }

  // ----- All targets -----

  ghost predicate TargetOk(sem: Sem, w: Work, regs: Regs, target: (nat, nat)) {
    && target.0 in w.f.blocks && Current(w.valueToPhi, target.1) < w.reg
    && Available(sem, w.f, regs, target.0, Reg(Current(w.valueToPhi, target.1)))
  }

  /** The check values of the other targets can still be read where they will be tested. */
  lemma TargetAfter(sem: Sem, w: Work, regs: Regs, first: (nat, nat), other: (nat, nat))
    requires Valid(w) && Safe(sem, w.f, regs) && forall r :: r in regs ==> r in w.f.inputs
    requires TargetOk(sem, w, regs, first) && TargetOk(sem, w, regs, other)
    ensures TargetOk(sem, DuplicateOne(w, first.0, first.1), regs, other)
  {
    hide Bounded, SingleDef, PhisRecorded, Available, Safe, Duplicated, RecordPhis;
    var s := SplitOf(w.f, first.0, w.reg, w.lab);
    var c := Current(w.valueToPhi, first.1);
    assert Splits(w.f, s);
    assert Valid(w);
    CurrentAfter(w, first.0, first.1, other.1);
    OtherBelow(w.f, s, Reg(c), other.0, Current(w.valueToPhi, other.1));
    AvailableAfter(sem, w.f, s, Reg(c), regs, other.0, Current(w.valueToPhi, other.1));
  }

  lemma OtherBelow(f: Fn, s: Split, check: Operand, l: nat, v: nat)
    requires Splits(f, s) && l in f.blocks && v < s.reg
    ensures l < s.lab && l in Duplicated(f, s.at, check, s.reg, s.lab).blocks && Final(s, v) < s.NextReg()
  {
  }

  /**
   In whatever order the targets are taken, the function obtained behaves like the original: every test
   reads a value that has been computed, and results and effects are the same.
   */
  lemma {:induction false} RunPreserves(sem: Sem, w: Work, targets: seq<(nat, nat)>, regs: Regs)
    requires Valid(w) && Safe(sem, w.f, regs) && forall r :: r in regs ==> r in w.f.inputs
    requires forall k :: 0 <= k < |targets| ==> TargetOk(sem, w, regs, targets[k])
    ensures var w' := DuplicateAll(w, targets);
            SameBehaviour(sem, w.f, w'.f, regs) && Safe(sem, w'.f, regs) && Valid(w')
    decreases |targets|
  {
    hide Bounded, SingleDef, PhisRecorded, Available, Safe, Duplicated, RecordPhis, SameBehaviour;
    if targets == [] {
      assert SameBehaviour(sem, w.f, w.f, regs) by { SameAsItself(sem, w.f, regs); }
    } else {
      var first := targets[0];
      assert TargetOk(sem, w, regs, first);
      var w1 := DuplicateOne(w, first.0, first.1);
      var s := SplitOf(w.f, first.0, w.reg, w.lab);
      assert Splits(w.f, s);
      var c := Reg(Current(w.valueToPhi, first.1));
      DuplicatePreserves(sem, w.f, s, c, regs);
      SameStart(w.f, s, c, regs);
      ValidAfter(w, first.0, first.1);
      forall k | 0 <= k < |targets[1..]|
        ensures TargetOk(sem, w1, regs, targets[1..][k])
      {
        assert TargetOk(sem, w, regs, targets[k + 1]);
        TargetAfter(sem, w, regs, first, targets[k + 1]);
      }
      RunPreserves(sem, w1, targets[1..], regs);
      SameBehaviourTrans(sem, w.f, w1.f, DuplicateAll(w1, targets[1..]).f, regs);
    }
  }

  lemma SameAsItself(sem: Sem, f: Fn, regs: Regs)
    ensures SameBehaviour(sem, f, f, regs)
  {
  }
}
