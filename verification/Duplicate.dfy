/**
 Duplicating one block behind a test: the block becomes a head that tests a value, two copies of its
 body and a tail whose phis merge each pair of copies.  All uses of an instruction that was copied
 become uses of its phi.
 */
module Duplicate {
  import opened Prelude
  import opened Ssa
  import opened Renaming

  /** What is split: the block, and the first unused register and label. */
  datatype Split = Split(at: nat, body: seq<Instr>, reg: nat, lab: nat) {
    function ThenLabel(): nat { lab }
    function ElseLabel(): nat { lab + 1 }
    function TailLabel(): nat { lab + 2 }
    function CondReg(): nat { reg }
    /** The copy of instruction `i` in arm 0 or 1. */
    function CopyReg(i: nat, arm: nat): nat { reg + 1 + 3 * i + arm }
    function PhiReg(i: nat): nat { reg + 3 + 3 * i }
    function NextReg(): nat { reg + 1 + 3 * |body| }
  }

  /** The last of the first `n` instructions that defines `r`. */
  function LastDef(body: seq<Instr>, n: nat, r: nat): (i: Option<nat>)
    requires n <= |body|
    ensures i.Some? ==> i.value < n && Defines(body[i.value], r) && forall j :: i.value < j < n ==> !Defines(body[j], r)
    ensures i.None? ==> forall j :: 0 <= j < n ==> !Defines(body[j], r)
  {
    if n == 0 then None
    else if Defines(body[n - 1], r) then Some(n - 1)
    else LastDef(body, n - 1, r)
  }

  /** What replaces `r` everywhere after the split: the tail's phi for an instruction of the block. */
  function Final(s: Split, r: nat): nat {
    var i := LastDef(s.body, |s.body|, r);
    if i.Some? then s.PhiReg(i.value) else r
  }

  /** What replaces `r` in an arm when the first `n` instructions have been copied. */
  function InArm(s: Split, n: nat, arm: nat, r: nat): nat
    requires n <= |s.body|
  {
    var i := LastDef(s.body, n, r);
    if i.Some? then s.CopyReg(i.value, arm) else Final(s, r)
  }

  function FinalFn(s: Split): Rename { r => Final(s, r) }

  function InArmFn(s: Split, n: nat, arm: nat): Rename
    requires n <= |s.body|
  {
    r => InArm(s, n, arm, r)
  }

  /** The copies of the instructions from number `n` on. */
  function Copy(s: Split, n: nat, arm: nat): seq<Instr>
    requires n <= |s.body|
    decreases |s.body| - n
  {
    if n == |s.body| then []
    else [CopyOne(s, n, arm)] + Copy(s, n + 1, arm)
  }

  function CopyOne(s: Split, n: nat, arm: nat): Instr
    requires n < |s.body|
  {
    s.body[n].(dst := s.CopyReg(n, arm), args := RenameOps(s.body[n].args, InArmFn(s, n, arm)))
  }

  /** The tail's phis for the instructions from number `n` on. */
  function TailPhis(s: Split, n: nat): seq<Phi>
    requires n <= |s.body|
    decreases |s.body| - n
  {
    if n == |s.body| then []
    else if s.body[n].ty.Void? then TailPhis(s, n + 1)
    else [TailPhi(s, n)] + TailPhis(s, n + 1)
  }

  function TailPhi(s: Split, n: nat): Phi
    requires n < |s.body|
  {
    Phi(s.body[n].ty, s.PhiReg(n), [(s.ThenLabel(), Reg(s.CopyReg(n, 0))), (s.ElseLabel(), Reg(s.CopyReg(n, 1)))])
  }

  function HeadOf(s: Split, x: Block, check: Operand): Block {
    Block(RenamePhis(x.phis, FinalFn(s), s.at, s.TailLabel()),
          [Instr(Int, s.CondReg(), IsNull, [RenameOp(check, FinalFn(s))])],
          Term(CondBr, [Reg(s.CondReg())], [s.ThenLabel(), s.ElseLabel()]))
  }

  function ArmOf(s: Split, arm: nat): Block {
    Block([], Copy(s, 0, arm), Term(Br, [], [s.TailLabel()]))
  }

  function TailOf(s: Split, x: Block): Block {
    Block(TailPhis(s, 0), [], RenameTerm(x.term, FinalFn(s)))
  }

  function SplitOf(f: Fn, at: nat, reg: nat, lab: nat): Split
    requires at in f.blocks
  {
    Split(at, f.blocks[at].body, reg, lab)
  }

  /** The function after block `at` has been duplicated behind a test of `check`. */
  function Duplicated(f: Fn, at: nat, check: Operand, reg: nat, lab: nat): Fn
    requires at in f.blocks
  {
    var s, x := SplitOf(f, at, reg, lab), f.blocks[at];
    var kept := map l | l in f.blocks :: if l == at then HeadOf(s, x, check) else RenameBlock(f.blocks[l],
        FinalFn(s), at, s.TailLabel());
    f.(blocks := kept[s.ThenLabel() := ArmOf(s, 0)][s.ElseLabel() := ArmOf(s, 1)][s.TailLabel() := TailOf(s, x)])
  }

  /**
   A function being rewritten, the first unused register and label, and the phi that stands for each value
   copied so far.
   */
  datatype Work = Work(f: Fn, reg: nat, lab: nat, valueToPhi: map<nat, nat>)

  function Current(valueToPhi: map<nat, nat>, r: nat): nat {
    if r in valueToPhi then valueToPhi[r] else r
  }

  /** Record the phis of the instructions from number `n` on. */
  function RecordPhis(valueToPhi: map<nat, nat>, s: Split, n: nat): map<nat, nat>
    requires n <= |s.body|
    decreases |s.body| - n
  {
    if n == |s.body| then valueToPhi
    else RecordPhis(if s.body[n].ty.Void? then valueToPhi else valueToPhi[s.body[n].dst := s.PhiReg(n)], s, n + 1)
  }

  /** One turn of the loop over the targets: block `at` is duplicated behind a test of what `value` has become. */
  function DuplicateOne(w: Work, at: nat, value: nat): Work
    requires at in w.f.blocks
  {
    var s := SplitOf(w.f, at, w.reg, w.lab);
    Work(Duplicated(w.f, at, Reg(Current(w.valueToPhi, value)), w.reg, w.lab), s.NextReg(), w.lab + 3,
        RecordPhis(w.valueToPhi, s, 0))
  }

  /** All targets in the order given; a label that is no block is skipped. */
  function DuplicateAll(w: Work, targets: seq<(nat, nat)>): Work
    decreases |targets|
  {
    if targets == [] then w
    else if targets[0].0 !in w.f.blocks then DuplicateAll(w, targets[1..])
    else DuplicateAll(DuplicateOne(w, targets[0].0, targets[0].1), targets[1..])
  }
}
