/**
 Duplicating a block preserves behaviour.  Each visit to the block in the original function is three
 steps of the new one, through exactly one of the copies, so every effect of the block happens once.
 */
module DuplicateProof {
  import opened Prelude
  import opened Ssa
  import opened Renaming
  import opened Duplicate

  // ----- Static validity -----

  ghost predicate OpBelow(op: Operand, reg: nat) { op.Reg? ==> op.r < reg }

  ghost predicate OpsBelow(ops: seq<Operand>, reg: nat) { forall k :: 0 <= k < |ops| ==> OpBelow(ops[k], reg) }

  ghost predicate PhiBelow(p: Phi, reg: nat, lab: nat) {
    p.dst < reg && forall k :: 0 <= k < |p.incoming| ==> p.incoming[k].0 < lab && OpBelow(p.incoming[k].1, reg)
  }

  ghost predicate InstrBelow(i: Instr, reg: nat) {
    (!i.ty.Void? ==> i.dst < reg) && OpsBelow(i.args, reg)
  }

  ghost predicate TermBelow(t: Term, reg: nat, lab: nat) {
    OpsBelow(t.args, reg) && forall k :: 0 <= k < |t.succs| ==> t.succs[k] < lab
  }

  ghost predicate AllPhisBelow(phis: seq<Phi>, reg: nat, lab: nat) {
    forall k :: 0 <= k < |phis| ==> PhiBelow(phis[k], reg, lab)
  }

  ghost predicate BodyBelow(body: seq<Instr>, reg: nat) {
    forall k :: 0 <= k < |body| ==> InstrBelow(body[k], reg)
  }

  ghost predicate BlockBelow(x: Block, reg: nat, lab: nat) {
    && AllPhisBelow(x.phis, reg, lab)
    && BodyBelow(x.body, reg)
    && TermBelow(x.term, reg, lab)
  }

  /** All registers are below `reg` and all labels below `lab`. */
  ghost predicate Bounded(f: Fn, reg: nat, lab: nat) {
    && f.entry < lab
    && (forall r :: r in f.inputs ==> r < reg)
    && forall l :: l in f.blocks ==> l < lab && BlockBelow(f.blocks[l], reg, lab)
  }

  ghost predicate PhiDefines(x: Block, r: nat) { exists k :: 0 <= k < |x.phis| && x.phis[k].dst == r }

  ghost predicate BodyDefines(x: Block, r: nat) { exists k :: 0 <= k < |x.body| && Defines(x.body[k], r) }

  ghost predicate OwnDefs(f: Fn, x: Block) {
    && (forall r: nat :: PhiDefines(x, r) ==> !BodyDefines(x, r))
    && (forall r: nat :: r in f.inputs ==> !BodyDefines(x, r) && !PhiDefines(x, r))
  }

  /** No register is defined in two blocks, both by a phi and by an instruction, or when the function starts. */
  ghost predicate SingleDef(f: Fn) {
    && (forall l :: l in f.blocks ==> OwnDefs(f, f.blocks[l]))
    && (forall l, x, r :: l in f.blocks && x in f.blocks && l != x && BodyDefines(f.blocks[l], r)
                          ==> !BodyDefines(f.blocks[x], r) && !PhiDefines(f.blocks[x], r))
  }

  // ----- Names -----

  lemma FinalFixes(f: Fn, s: Split, d: nat)
    requires s.at in f.blocks && s.body == f.blocks[s.at].body && d < s.reg && !BodyDefines(f.blocks[s.at], d)
    ensures Fixes(FinalFn(s), s.reg, d)
  {
  }

  lemma LastDefStep(body: seq<Instr>, n: nat, r: nat)
    requires n < |body|
    ensures LastDef(body, n + 1, r) == if Defines(body[n], r) then Some(n) else LastDef(body, n, r)
  {
  }

  // ----- An arm -----

  ghost predicate CopiesSet(s: Split, n: nat, arm: nat, regs: Regs)
    requires n <= |s.body|
  {
    forall j :: 0 <= j < n && !s.body[j].ty.Void? ==> s.CopyReg(j, arm) in regs
  }

  lemma CopyStep(sem: Sem, s: Split, n: nat, arm: nat, l: Local, l': Local)
    requires n < |s.body| && arm < 2 && InstrBelow(s.body[n], s.reg)
    requires Rel(InArmFn(s, n, arm), s.reg, l.regs, l'.regs) && l'.trace == l.trace && CopiesSet(s, n, arm, l'.regs)
    requires Exec(sem, s.body[n], l).Some?
    ensures var r := Exec(sem, CopyOne(s, n, arm), l');
            && r.Some? && Rel(InArmFn(s, n + 1, arm), s.reg, Exec(sem, s.body[n], l).value.regs, r.value.regs)
            && r.value.trace == Exec(sem, s.body[n], l).value.trace && CopiesSet(s, n + 1, arm, r.value.regs)
  {
    hide Compute, Emits;
    var i := s.body[n];
    ValuesRenamed(InArmFn(s, n, arm), s.reg, l.regs, l'.regs, i.args);
    var r, r' := Exec(sem, i, l).value, Exec(sem, CopyOne(s, n, arm), l').value;
    forall x | x in r.regs
      ensures x < s.reg && InArm(s, n + 1, arm, x) in r'.regs && r'.regs[InArm(s, n + 1, arm, x)] == r.regs[x]
    {
      LastDefStep(s.body, n, x);
      assert Defines(i, x) || (x in l.regs && r.regs[x] == l.regs[x]);
    }
  }

  lemma {:induction false} ArmRuns(sem: Sem, s: Split, n: nat, arm: nat, l: Local, l': Local)
    requires n <= |s.body| && arm < 2 && BodyBelow(s.body, s.reg)
    requires Rel(InArmFn(s, n, arm), s.reg, l.regs, l'.regs) && l'.trace == l.trace && CopiesSet(s, n, arm, l'.regs)
    requires ExecAll(sem, s.body[n..], l).Some?
    ensures var r, r' := ExecAll(sem, s.body[n..], l), ExecAll(sem, Copy(s, n, arm), l');
            && r'.Some? && Rel(InArmFn(s, |s.body|, arm), s.reg, r.value.regs, r'.value.regs)
            && r'.value.trace == r.value.trace && CopiesSet(s, |s.body|, arm, r'.value.regs)
    decreases |s.body| - n
  {
    hide Rel, CopiesSet, CopyOne, Exec, InstrBelow;
    if n < |s.body| {
      assert s.body[n..][0] == s.body[n] && s.body[n..][1..] == s.body[n + 1..];
      CopyStep(sem, s, n, arm, l, l');
      var c := Copy(s, n, arm);
      assert c[0] == CopyOne(s, n, arm) && c[1..] == Copy(s, n + 1, arm);
      ArmRuns(sem, s, n + 1, arm, Exec(sem, s.body[n], l).value, Exec(sem, CopyOne(s, n, arm), l').value);
    }
  }

  // ----- The tail's phis -----

  ghost predicate PhisSet(s: Split, n: nat, arm: nat, regs: Regs, acc: Regs, r: Regs)
    requires n <= |s.body| && CopiesSet(s, |s.body|, arm, regs)
  {
    && (forall x :: x in acc && x < s.reg ==> x in r && r[x] == acc[x])
    && (forall j :: n <= j < |s.body| && !s.body[j].ty.Void?
          ==> s.PhiReg(j) in r && r[s.PhiReg(j)] == regs[s.CopyReg(j, arm)])
    && (forall j :: 0 <= j < n && s.PhiReg(j) in acc ==> s.PhiReg(j) in r && r[s.PhiReg(j)] == acc[s.PhiReg(j)])
  }

  lemma {:induction false} TailPhisRun(s: Split, n: nat, arm: nat, regs: Regs, acc: Regs)
    requires n <= |s.body| && arm < 2 && CopiesSet(s, |s.body|, arm, regs)
    ensures var r := ExecPhis(TailPhis(s, n), s.lab + arm, regs, acc);
            r.Some? && PhisSet(s, n, arm, regs, acc, r.value)
    decreases |s.body| - n
  {
    if n < |s.body| {
      if s.body[n].ty.Void? {
        TailPhisRun(s, n + 1, arm, regs, acc);
      } else {
        var phi := TailPhi(s, n);
        assert phi.incoming[1..] == [(s.ElseLabel(), Reg(s.CopyReg(n, 1)))];
        assert Incoming(phi.incoming, s.lab + arm) == Some(Reg(s.CopyReg(n, arm)));
        var acc1 := acc[s.PhiReg(n) := regs[s.CopyReg(n, arm)]];
        TailPhisRun(s, n + 1, arm, regs, acc1);
        assert TailPhis(s, n)[1..] == TailPhis(s, n + 1);
      }
    }
  }

  /** After the phis every register is found under its final name. */
  lemma TailRel(s: Split, arm: nat, regs: Regs, regs': Regs, r: Regs)
    requires arm < 2 && CopiesSet(s, |s.body|, arm, regs') && Rel(InArmFn(s, |s.body|, arm), s.reg, regs, regs')
    requires PhisSet(s, 0, arm, regs', regs', r)
    ensures Rel(FinalFn(s), s.reg, regs, r)
  {
    forall x | x in regs
      ensures x < s.reg && Final(s, x) in r && r[Final(s, x)] == regs[x]
    {
      assert InArm(s, |s.body|, arm, x) in regs';
    }
  }

  // ----- Steps -----

  ghost predicate Available(sem: Sem, f: Fn, regs: Regs, at: nat, check: Operand) {
    forall n: nat :: var s := Steps(sem, f, n, Start(f, regs)); s.Run? && s.at == at ==> ValueOf(s.regs, check).Some?
  }

  /**
   Where the new function is while the original is in `sf`: together at a block boundary, about to run
   an arm, or about to leave the tail.
   */
  ghost predicate Tracks(sem: Sem, s: Split, sf: State, sg: State, phase: nat) {
    if phase == 0 then !sf.Stuck? && RelState(FinalFn(s), s.reg, sf, sg) && (sf.Run? ==> sf.at < s.lab)
    else
      && sf.Run? && sf.at == s.at && sg.Run?
      && if phase == 1 then
           (sg.at == s.ThenLabel() || sg.at == s.ElseLabel()) && sg.trace == sf.trace
               && Rel(FinalFn(s), s.reg, sf.regs, sg.regs)
         else
           var l := ExecAll(sem, s.body, Local(sf.regs, sf.trace));
           phase == 2 && sg.at == s.TailLabel() && l.Some? && sg.trace == l.value.trace
               && Rel(FinalFn(s), s.reg, l.value.regs, sg.regs)
  }

  ghost predicate Splits(f: Fn, s: Split) {
    s.at in f.blocks && s.body == f.blocks[s.at].body && Bounded(f, s.reg, s.lab) && SingleDef(f)
  }

  lemma PhiNotInBody(f: Fn, s: Split, l: nat, d: nat)
    requires Splits(f, s) && l in f.blocks && PhiDefines(f.blocks[l], d)
    ensures !BodyDefines(f.blocks[s.at], d)
  {
  }

  lemma CopiesHold(f: Fn, s: Split, check: Operand, l: nat)
    requires Splits(f, s)
    ensures Copies(f, Duplicated(f, s.at, check, s.reg, s.lab), l, FinalFn(s), s.reg, s.at, s.TailLabel())
  {
    hide FinalFn, SingleDef, Copy, TailPhis, RenamePhis, RenameBody, OpsBelow, BodyBelow, TermBelow, BodyDefines, ArmOf;
    if l in f.blocks {
      var x := f.blocks[l];
      assert BlockBelow(x, s.reg, s.lab);
      forall k | 0 <= k < |x.phis|
        ensures Fixes(FinalFn(s), s.reg, x.phis[k].dst)
      {
        assert PhiBelow(x.phis[k], s.reg, s.lab);
        assert PhiDefines(x, x.phis[k].dst);
        PhiNotInBody(f, s, l, x.phis[k].dst);
        FinalFixes(f, s, x.phis[k].dst);
      }
      assert forall k :: 0 <= k < |x.phis| ==> PhiBelow(x.phis[k], s.reg, s.lab);
    }
  }

  lemma BodyFixedElsewhere(f: Fn, s: Split, l: nat)
    requires Splits(f, s) && l in f.blocks && l != s.at
    ensures BodyFixed(FinalFn(s), s.reg, f.blocks[l].body)
  {
    hide FinalFn;
    var x := f.blocks[l];
    assert BlockBelow(x, s.reg, s.lab);
    forall k | 0 <= k < |x.body| && !x.body[k].ty.Void?
      ensures Fixes(FinalFn(s), s.reg, x.body[k].dst)
    {
      assert InstrBelow(x.body[k], s.reg) && Defines(x.body[k], x.body[k].dst);
      assert BodyDefines(x, x.body[k].dst);
      NotElsewhere(f, s, l, x.body[k].dst);
      FinalFixes(f, s, x.body[k].dst);
    }
  }

  /** The terminator of block `l` of the original and its renamed copy, which is in `l` or in the tail. */
  lemma LeaveTracks(sem: Sem, f: Fn, s: Split, check: Operand, l: nat, r: Local, r': Local)
    requires Splits(f, s) && l in f.blocks && Rel(FinalFn(s), s.reg, r.regs, r'.regs) && r'.trace == r.trace
    requires !Leave(sem, f, l, f.blocks[l].term, r).Stuck?
    ensures var g := Duplicated(f, s.at, check, s.reg, s.lab);
            Tracks(sem, s, Leave(sem, f, l, f.blocks[l].term, r),
                Leave(sem, g, Moved(l, s.at, s.TailLabel()), RenameTerm(f.blocks[l].term, FinalFn(s)), r'), 0)
  {
    hide SingleDef, Rel, FinalFn, BlockBelow, Duplicated;
    var g := Duplicated(f, s.at, check, s.reg, s.lab);
    forall y | y in f.blocks
      ensures Copies(f, g, y, FinalFn(s), s.reg, s.at, s.TailLabel())
    {
      CopiesHold(f, s, check, y);
    }
    LeaveRenamed(sem, f, g, FinalFn(s), s.reg, s.at, s.TailLabel(), l, f.blocks[l].term, r, r');
  }

  lemma KeptBlock(f: Fn, s: Split, check: Operand, l: nat)
    requires Splits(f, s) && l in f.blocks && l != s.at
    ensures var g := Duplicated(f, s.at, check, s.reg, s.lab);
            l in g.blocks && g.blocks[l] == RenameBlock(f.blocks[l], FinalFn(s), s.at, s.TailLabel())
  {
  }

  /** A block that is not split. */
  lemma StepElsewhere(sem: Sem, f: Fn, s: Split, check: Operand, sf: State, sg: State)
    requires Splits(f, s) && Tracks(sem, s, sf, sg, 0) && sf.Run? && sf.at != s.at && !Step(sem, f, sf).Stuck?
    ensures Tracks(sem, s, Step(sem, f, sf), Step(sem, Duplicated(f, s.at, check, s.reg, s.lab), sg), 0)
  {
    hide Rel, Splits, Leave, FinalFn, Duplicated, BodyFixed;
    KeptBlock(f, s, check, sf.at);
    BodyFixedElsewhere(f, s, sf.at);
    var x := f.blocks[sf.at];
    var l, l' := Local(sf.regs, sf.trace), Local(sg.regs, sg.trace);
    BodyRenamed(sem, FinalFn(s), s.reg, x.body, l, l');
    LeaveTracks(sem, f, s, check, sf.at, ExecAll(sem, x.body, l).value,
        ExecAll(sem, RenameBody(x.body, FinalFn(s)), l').value);
  }

  lemma NotElsewhere(f: Fn, s: Split, l: nat, d: nat)
    requires Splits(f, s) && l in f.blocks && l != s.at && BodyDefines(f.blocks[l], d)
    ensures !BodyDefines(f.blocks[s.at], d)
  {
  }

  lemma OneValue(regs: Regs, op: Operand, v: int)
    requires ValueOf(regs, op) == Some(v)
    ensures ValuesOf(regs, [op]) == Some([v])
  {
    assert [op][1..] == [];
    assert ValuesOf(regs, []) == Some([]);
    assert [v] + [] == [v];
  }

  lemma OneInstr(sem: Sem, i: Instr, l: Local)
    ensures ExecAll(sem, [i], l) == Exec(sem, i, l)
  {
    assert [i][1..] == [];
    var n := Exec(sem, i, l);
    if n.Some? {
      assert ExecAll(sem, [], n.value) == n;
    }
  }

  /** The head: the test can be evaluated and control goes to one of the arms. */
  lemma StepHead(sem: Sem, f: Fn, s: Split, check: Operand, sf: State, sg: State)
    requires Splits(f, s) && Tracks(sem, s, sf, sg, 0) && sf.Run? && sf.at == s.at && ValueOf(sf.regs, check).Some?
    ensures Tracks(sem, s, sf, Step(sem, Duplicated(f, s.at, check, s.reg, s.lab), sg), 1)
  {
    hide SingleDef, ExecAll, ValuesOf, RenamePhis, RenameBody, TailPhis, Copy, RenameTerm, Bounded;
    var g := Duplicated(f, s.at, check, s.reg, s.lab);
    var op := RenameOp(check, FinalFn(s));
    var i := Instr(Int, s.CondReg(), IsNull, [op]);
    assert g.blocks[s.at].body == [i] && g.blocks[s.at].term
        == Term(CondBr, [Reg(s.CondReg())], [s.ThenLabel(), s.ElseLabel()]);
    var l := Local(sg.regs, sg.trace);
    var v := ValueOf(sg.regs, op).value;
    OneValue(sg.regs, op, v);
    OneInstr(sem, i, l);
    var bit := Compute(sem, IsNull, [v], sg.trace);
    var regs1 := sg.regs[s.CondReg() := bit];
    assert Exec(sem, i, l) == Some(Local(regs1, sg.trace)) by { assert sg.trace + [] == sg.trace; }
    OneValue(regs1, Reg(s.CondReg()), bit);
    HeadLeaves(sem, g, s, bit, regs1, sg.trace);
  }

  lemma HeadLeaves(sem: Sem, g: Fn, s: Split, bit: int, regs: Regs, t: Trace)
    requires s.ThenLabel() in g.blocks && s.ElseLabel() in g.blocks && g.blocks[s.ThenLabel()].phis == []
             && g.blocks[s.ElseLabel()].phis == []
    requires ValuesOf(regs, [Reg(s.CondReg())]) == Some([bit])
    ensures Leave(sem, g, s.at, Term(CondBr, [Reg(s.CondReg())], [s.ThenLabel(), s.ElseLabel()]), Local(regs, t))
            == Run(if bit != 0 then s.ThenLabel() else s.ElseLabel(), regs, t)
  {
  }

  lemma StepArm(sem: Sem, f: Fn, s: Split, check: Operand, sf: State, sg: State)
    requires Splits(f, s) && Tracks(sem, s, sf, sg, 1) && !Step(sem, f, sf).Stuck?
    ensures Tracks(sem, s, sf, Step(sem, Duplicated(f, s.at, check, s.reg, s.lab), sg), 2)
  {
    hide SingleDef, Rel, RenamePhis, RenameBody, CopiesSet, PhisSet;
    var g := Duplicated(f, s.at, check, s.reg, s.lab);
    var arm := sg.at - s.lab;
    assert g.blocks[sg.at] == ArmOf(s, arm);
    assert g.blocks[s.TailLabel()] == TailOf(s, f.blocks[s.at]);
    var l, l' := Local(sf.regs, sf.trace), Local(sg.regs, sg.trace);
    assert BlockBelow(f.blocks[s.at], s.reg, s.lab);
    assert s.body[0..] == s.body;
    ArmStart(s, arm, sf.regs, sg.regs);
    ArmRuns(sem, s, 0, arm, l, l');
    var r, r' := ExecAll(sem, s.body, l).value, ExecAll(sem, Copy(s, 0, arm), l').value;
    TailPhisRun(s, 0, arm, r'.regs, r'.regs);
    TailRel(s, arm, r.regs, r'.regs, ExecPhis(TailPhis(s, 0), s.lab + arm, r'.regs, r'.regs).value);
  }

  lemma ArmStart(s: Split, arm: nat, regs: Regs, regs': Regs)
    requires Rel(FinalFn(s), s.reg, regs, regs')
    ensures Rel(InArmFn(s, 0, arm), s.reg, regs, regs') && CopiesSet(s, 0, arm, regs')
  {
  }

  lemma StepTail(sem: Sem, f: Fn, s: Split, check: Operand, sf: State, sg: State)
    requires Splits(f, s) && Tracks(sem, s, sf, sg, 2) && !Step(sem, f, sf).Stuck?
    ensures Tracks(sem, s, Step(sem, f, sf), Step(sem, Duplicated(f, s.at, check, s.reg, s.lab), sg), 0)
  {
    hide SingleDef, Rel, Leave, FinalFn, RenameTerm, TailPhis;
    var g := Duplicated(f, s.at, check, s.reg, s.lab);
    assert g.blocks[s.TailLabel()] == TailOf(s, f.blocks[s.at]);
    LeaveTracks(sem, f, s, check, s.at, ExecAll(sem, s.body, Local(sf.regs, sf.trace)).value, Local(sg.regs, sg.trace));
  }

  /** After any number of steps the new function tracks the original, at most three steps for each of its own. */
  lemma {:induction false} TracksAll(sem: Sem, f: Fn, s: Split, check: Operand, regs: Regs, m: nat)
      returns (n: nat, phase: nat)
    requires Splits(f, s) && Safe(sem, f, regs) && Available(sem, f, regs, s.at, check)
    requires forall r :: r in regs ==> r in f.inputs
    ensures phase <= 2 && m <= 3 * n + phase
    ensures Tracks(sem, s, Steps(sem, f, n, Start(f, regs)),
            Steps(sem, Duplicated(f, s.at, check, s.reg, s.lab), m, Start(f, regs)), phase)
  {
    hide Step, SingleDef, Bounded, Rel, Duplicated;
    var g := Duplicated(f, s.at, check, s.reg, s.lab);
    if m == 0 {
      n, phase := 0, 0;
      InputsKept(f, s, regs);
    } else {
      n, phase := TracksAll(sem, f, s, check, regs, m - 1);
      var sf, sg := Steps(sem, f, n, Start(f, regs)), Steps(sem, g, m - 1, Start(f, regs));
      assert !Steps(sem, f, n + 1, Start(f, regs)).Stuck?;
      if phase == 0 {
        if !sf.Run? {
          Resting(sem, f, sf);
          Resting(sem, g, sg);
          n := n + 1;
        } else if sf.at == s.at {
          StepHead(sem, f, s, check, sf, sg);
          phase := 1;
        } else {
          StepElsewhere(sem, f, s, check, sf, sg);
          n := n + 1;
        }
      } else if phase == 1 {
        StepArm(sem, f, s, check, sf, sg);
        phase := 2;
      } else {
        StepTail(sem, f, s, check, sf, sg);
        n, phase := n + 1, 0;
      }
    }
  }

  lemma Resting(sem: Sem, f: Fn, s: State)
    requires !s.Run?
    ensures Step(sem, f, s) == s
  {
  }

  lemma InputsKept(f: Fn, s: Split, regs: Regs)
    requires Splits(f, s) && forall r :: r in regs ==> r in f.inputs
    ensures Rel(FinalFn(s), s.reg, regs, regs) && f.entry < s.lab
  {
    forall r | r in regs
      ensures Final(s, r) == r && r < s.reg
    {
      assert !BodyDefines(f.blocks[s.at], r);
      FinalFixes(f, s, r);
    }
  }
}
