/**
 Rewriting every matching instruction of a block, and of a whole function, preserves behaviour.
 */
module MbaProof {
  import opened Prelude
  import opened Ssa
  import opened Mba
  import opened Renaming
  import opened Duplicate
  import opened DuplicateProof

  /** A block being rewritten: its original body and the first unused register. */
  datatype Site = Site(pass: Pass, body: seq<Instr>, reg: nat) {
    /** The first register for what replaces instruction `i`. */
    function Base(i: nat): nat { reg + 8 * i }
    function NextReg(): nat { reg + 8 * |body| }
  }

  function Replacement(s: Site, i: nat): nat { s.Base(i) + Length(s.pass) - 1 }

  /** Once the first `n` instructions are done, all uses of a matching one are uses of the last one inserted for it. */
  function NameUpTo(s: Site, n: nat, r: nat): nat
    requires n <= |s.body|
  {
    var i := LastDef(s.body, n, r);
    if i.Some? && Matches(s.pass, s.body[i.value]) then Replacement(s, i.value) else r
  }

  function NewName(s: Site, r: nat): nat { NameUpTo(s, |s.body|, r) }

  function NewNames(s: Site): Rename { r => NewName(s, r) }

  /** What stands where instruction `n` stood. */
  function Expand(s: Site, n: nat): seq<Instr>
    requires n < |s.body|
  {
    if Matches(s.pass, s.body[n]) then Recipe(s.pass, s.body[n], s.Base(n)) else [s.body[n]]
  }

  /** The rewritten body from instruction `n` on, before uses are replaced. */
  function Rewrite(s: Site, n: nat): seq<Instr>
    requires n <= |s.body|
    decreases |s.body| - n
  {
    if n == |s.body| then [] else Expand(s, n) + Rewrite(s, n + 1)
  }

  function SiteOf(f: Fn, pass: Pass, at: nat, reg: nat): Site
    requires at in f.blocks
  {
    Site(pass, f.blocks[at].body, reg)
  }

  /** The function after block `at` has been rewritten: labels and phi entries stay. */
  function Rewritten(f: Fn, pass: Pass, at: nat, reg: nat): Fn
    requires at in f.blocks
  {
    var s := SiteOf(f, pass, at, reg);
    f.(blocks := map l | l in f.blocks ::
      RenameBlock(if l == at then f.blocks[l].(body := Rewrite(s, 0)) else f.blocks[l], NewNames(s), 0, 0))
  }

  // ----- One instruction -----

  ghost predicate DistinctBody(body: seq<Instr>) {
    forall i, j ::
      && 0 <= i < |body| && 0 <= j < |body| && !body[i].ty.Void? && !body[j].ty.Void? && body[i].dst == body[j].dst
      ==> i == j
  }

  ghost predicate SiteOk(s: Site) { BodyBelow(s.body, s.reg) && DistinctBody(s.body) }

  lemma NameOf(s: Site, i: nat)
    requires SiteOk(s) && i < |s.body| && !s.body[i].ty.Void?
    ensures LastDef(s.body, |s.body|, s.body[i].dst) == Some(i)
    ensures NewName(s, s.body[i].dst) == if Matches(s.pass, s.body[i]) then Replacement(s, i) else s.body[i].dst
  {
    var j := LastDef(s.body, |s.body|, s.body[i].dst);
    assert j.Some? ==> Defines(s.body[j.value], s.body[i].dst);
    assert Defines(s.body[i], s.body[i].dst);
  }

  lemma FreshName(s: Site, r: nat)
    requires SiteOk(s) && r >= s.reg
    ensures NewName(s, r) == r
  {
    var j := LastDef(s.body, |s.body|, r);
    assert j.Some? ==> InstrBelow(s.body[j.value], s.reg);
  }

  ghost predicate Untouched(s: Site, n: nat, regs: Regs, regs': Regs)
    requires n < |s.body|
  {
    && (forall r :: r in regs ==> r in regs')
    && (forall r :: r in regs && !(s.Base(n) <= r < s.Base(n + 1)) ==> regs'[r] == regs[r])
  }

  lemma StepBin(sem: Sem, i: Instr, rest: seq<Instr>, l: Local, a: int, b: int)
    requires i.ty.Int? && i.op.Bin? && |i.args| == 2 && ValueOf(l.regs, i.args[0]) == Some(a)
             && ValueOf(l.regs, i.args[1]) == Some(b)
    ensures ExecAll(sem, [i] + rest, l) == ExecAll(sem, rest,
            Local(l.regs[i.dst := sem.arith(i.op.kind, i.op.width, a, b)], l.trace))
  {
    BinRuns(sem, i, l, a, b);
    assert ([i] + rest)[1..] == rest;
  }

  /** `MBASub`'s three instructions, with the operands under their new names. */
  lemma SubRuns(sem: Sem, w: nat, x: Operand, y: Operand, base: nat, l: Local, a: int, b: int)
    requires MachineArith(sem) && ValueOf(l.regs, x) == Some(a) && ValueOf(l.regs, y) == Some(b) && x != Reg(base)
             && y != Reg(base)
    ensures var code := SubInstrs(w, x, y, base);
            var n := IntArith(Xor, w, b, -1);
            var m := IntArith(Add, w, a, n);
            ExecAll(sem, code, l)
                == Some(Local(l.regs[base := n][base + 1 := m][base + 2 := IntArith(Sub, w, a, b)], l.trace))
  {
    hide ExecAll, Exec, IntArith;
    var i0 := BinInstr(base, Xor, w, y, Const(-1));
    var i1 := BinInstr(base + 1, Add, w, x, Reg(base));
    var i2 := BinInstr(base + 2, Add, w, Reg(base + 1), Const(1));
    var n := IntArith(Xor, w, b, -1);
    var m := IntArith(Add, w, a, n);
    var l1 := Local(l.regs[base := n], l.trace);
    var l2 := Local(l1.regs[base + 1 := m], l.trace);
    assert [i0, i1, i2] == [i0] + ([i1] + ([i2] + []));
    StepBin(sem, i0, [i1] + ([i2] + []), l, b, -1);
    StepBin(sem, i1, [i2] + [], l1, a, n);
    StepBin(sem, i2, [], l2, m, 1);
    SubIdentity(w, a, b);
    EmptyRuns(sem, Local(l2.regs[base + 2 := IntArith(Sub, w, a, b)], l.trace));
  }

  lemma EmptyRuns(sem: Sem, l: Local)
    ensures ExecAll(sem, [], l) == Some(l)
  {
  }

  /** `MBAAdd`'s eight instructions. */
  lemma AddRuns(sem: Sem, x: Operand, y: Operand, base: nat, l: Local, a: int, b: int) returns (r: Local)
    requires MachineArith(sem) && ValueOf(l.regs, x) == Some(a) && ValueOf(l.regs, y) == Some(b) && x != Reg(base)
             && y != Reg(base)
    ensures ExecAll(sem, AddInstrs(x, y, base), l) == Some(r) && r.trace == l.trace
    ensures forall q :: q in r.regs <==> q in l.regs || base <= q < base + 8
    ensures forall q :: q in l.regs && !(base <= q < base + 8) ==> r.regs[q] == l.regs[q]
    ensures r.regs[base + 7] == IntArith(Add, 8, a, b)
  {
    hide ExecAll, Exec, IntArith;
    var i0, i1 := BinInstr(base, Xor, 8, x, y), BinInstr(base + 1, And, 8, x, y);
    var c, d := IntArith(Xor, 8, a, b), IntArith(And, 8, a, b);
    var rest := AddRest(base);
    assert AddInstrs(x, y, base) == [i0] + ([i1] + rest);
    var l1 := Local(l.regs[base := c], l.trace);
    var l2 := Local(l1.regs[base + 1 := d], l.trace);
    StepBin(sem, i0, [i1] + rest, l, a, b);
    StepBin(sem, i1, rest, l1, a, b);
    r := AddRestRuns(sem, base, l2, c, d);
    AddIdentity(a, b);
  }

  function AddRest(base: nat): seq<Instr> {
    [BinInstr(base + 2, Mul, 8, Const(2), Reg(base + 1)), BinInstr(base + 3, Add, 8, Reg(base), Reg(base + 2)),
     BinInstr(base + 4, Mul, 8, Reg(base + 3), Const(39)), BinInstr(base + 5, Add, 8, Reg(base + 4), Const(23)),
     BinInstr(base + 6, Mul, 8, Reg(base + 5), Const(151)), BinInstr(base + 7, Add, 8, Reg(base + 6), Const(111))]
  }

  function AddInstrs(x: Operand, y: Operand, base: nat): seq<Instr> {
    [BinInstr(base, Xor, 8, x, y), BinInstr(base + 1, And, 8, x, y)] + AddRest(base)
  }

  lemma AddRestRuns(sem: Sem, base: nat, l: Local, c: int, d: int) returns (r: Local)
    requires MachineArith(sem) && base in l.regs && base + 1 in l.regs && l.regs[base] == c && l.regs[base + 1] == d
    ensures ExecAll(sem, AddRest(base), l) == Some(r) && r.trace == l.trace
    ensures forall q :: q in r.regs <==> q in l.regs || base + 2 <= q < base + 8
    ensures forall q :: q in l.regs && !(base + 2 <= q < base + 8) ==> r.regs[q] == l.regs[q]
    ensures var x := IntArith(Add, 8, c, IntArith(Mul, 8, 2, d));
            var y := IntArith(Add, 8, IntArith(Mul, 8, x, 39), 23);
            r.regs[base + 7] == IntArith(Add, 8, IntArith(Mul, 8, y, 151), 111)
  {
    hide ExecAll, Exec, IntArith;
    var i2 := BinInstr(base + 2, Mul, 8, Const(2), Reg(base + 1));
    var i3 := BinInstr(base + 3, Add, 8, Reg(base), Reg(base + 2));
    var i4 := BinInstr(base + 4, Mul, 8, Reg(base + 3), Const(39));
    var i5 := BinInstr(base + 5, Add, 8, Reg(base + 4), Const(23));
    var i6 := BinInstr(base + 6, Mul, 8, Reg(base + 5), Const(151));
    var i7 := BinInstr(base + 7, Add, 8, Reg(base + 6), Const(111));
    assert AddRest(base) == [i2] + ([i3] + ([i4] + ([i5] + ([i6] + ([i7] + [])))));
    var v2 := IntArith(Mul, 8, 2, d);
    var v3 := IntArith(Add, 8, c, v2);
    var v4 := IntArith(Mul, 8, v3, 39);
    var v5 := IntArith(Add, 8, v4, 23);
    var v6 := IntArith(Mul, 8, v5, 151);
    var v7 := IntArith(Add, 8, v6, 111);
    var l3 := Local(l.regs[base + 2 := v2], l.trace);
    var l4 := Local(l3.regs[base + 3 := v3], l.trace);
    var l5 := Local(l4.regs[base + 4 := v4], l.trace);
    var l6 := Local(l5.regs[base + 5 := v5], l.trace);
    var l7 := Local(l6.regs[base + 6 := v6], l.trace);
    StepBin(sem, i2, [i3] + ([i4] + ([i5] + ([i6] + ([i7] + [])))), l, 2, d);
    StepBin(sem, i3, [i4] + ([i5] + ([i6] + ([i7] + []))), l3, c, v2);
    StepBin(sem, i4, [i5] + ([i6] + ([i7] + [])), l4, v3, 39);
    StepBin(sem, i5, [i6] + ([i7] + []), l5, v4, 23);
    StepBin(sem, i6, [i7] + [], l6, v5, 151);
    StepBin(sem, i7, [], l7, v6, 111);
    r := Local(l7.regs[base + 7 := v7], l.trace);
    EmptyRuns(sem, r);
  }

  lemma {:induction false} ExecAppend(sem: Sem, p: seq<Instr>, q: seq<Instr>, l: Local)
    ensures ExecAll(sem, p + q, l) == var r := ExecAll(sem, p, l); if r.Some? then ExecAll(sem, q, r.value) else None
    decreases |p|
  {
    hide Exec;
    if p == [] {
      assert p + q == q;
    } else {
      assert (p + q)[1..] == p[1..] + q;
      var n := Exec(sem, p[0], l);
      if n.Some? {
        ExecAppend(sem, p[1..], q, n.value);
      }
    }
  }

  /** Renaming the inserted instructions only changes the two operands of the original. */
  lemma RecipeRenamed(s: Site, n: nat)
    requires SiteOk(s) && n < |s.body| && Matches(s.pass, s.body[n])
    ensures var i, base := s.body[n], s.Base(n);
            var x, y := RenameOp(i.args[0], NewNames(s)), RenameOp(i.args[1], NewNames(s));
            && x != Reg(base) && y != Reg(base)
            && RenameBody(Recipe(s.pass, i, base), NewNames(s))
               == if s.pass.AddPass? then AddInstrs(x, y, base) else SubInstrs(i.op.width, x, y, base)
  {
    hide LastDef, NewName, Matches, Recipe, AddInstrs, SubInstrs, RenameBody, DistinctBody;
    var i, base := s.body[n], s.Base(n);
    assert Recipe(s.pass, i, base) == Recipe(s.pass, i, base);
    OperandsOld(s, n);
    forall r: nat | base <= r
      ensures NewNames(s)(r) == r
    {
      FreshName(s, r);
    }
    if s.pass.AddPass? {
      AddRenamed(i, base, NewNames(s));
    } else {
      SubRenamed(i, base, NewNames(s));
    }
  }

  lemma OperandsOld(s: Site, n: nat)
    requires SiteOk(s) && n < |s.body| && Matches(s.pass, s.body[n])
    ensures |s.body[n].args| == 2
    ensures RenameOp(s.body[n].args[0], NewNames(s)) != Reg(s.Base(n))
            && RenameOp(s.body[n].args[1], NewNames(s)) != Reg(s.Base(n))
  {
    hide LastDef, NewName, DistinctBody;
    var i := s.body[n];
    assert InstrBelow(i, s.reg);
    assert OpBelow(i.args[0], s.reg) && OpBelow(i.args[1], s.reg);
    forall r: nat | r < s.reg
      ensures NewNames(s)(r) != s.Base(n)
    {
      NotBase(s, n, r);
    }
  }

  lemma PairRenamed(a: Operand, b: Operand, f: Rename)
    ensures RenameOps([a, b], f) == [RenameOp(a, f), RenameOp(b, f)]
  {
  }

  lemma BinRenamed(d: nat, k: Kind, w: nat, a: Operand, b: Operand, f: Rename)
    ensures var i := BinInstr(d, k, w, a, b);
            i.(args := RenameOps(i.args, f)) == BinInstr(d, k, w, RenameOp(a, f), RenameOp(b, f))
  {
    PairRenamed(a, b, f);
  }

  lemma BodyOne(i: Instr, rest: seq<Instr>, f: Rename)
    ensures RenameBody([i] + rest, f) == [i.(args := RenameOps(i.args, f))] + RenameBody(rest, f)
  {
  }

  function SubInstrs(w: nat, x: Operand, y: Operand, base: nat): seq<Instr> {
    [BinInstr(base, Xor, w, y, Const(-1)), BinInstr(base + 1, Add, w, x, Reg(base)),
        BinInstr(base + 2, Add, w, Reg(base + 1), Const(1))]
  }

  lemma SubRenamed(i: Instr, base: nat, f: Rename)
    requires Matches(SubPass, i) && forall r: nat :: base <= r ==> f(r) == r
    ensures RenameBody(Recipe(SubPass, i, base), f)
            == SubInstrs(i.op.width, RenameOp(i.args[0], f), RenameOp(i.args[1], f), base)
  {
    var w, a, b := i.op.width, i.args[0], i.args[1];
    hide RenameOps, BinInstr, RenameBody;
    var i0 := BinInstr(base, Xor, w, b, Const(-1));
    var i1 := BinInstr(base + 1, Add, w, a, Reg(base));
    var i2 := BinInstr(base + 2, Add, w, Reg(base + 1), Const(1));
    assert Recipe(SubPass, i, base) == [i0] + ([i1] + ([i2] + []));
    BinRenamed(base, Xor, w, b, Const(-1), f);
    BinRenamed(base + 1, Add, w, a, Reg(base), f);
    BinRenamed(base + 2, Add, w, Reg(base + 1), Const(1), f);
    BodyOne(i0, [i1] + ([i2] + []), f);
    BodyOne(i1, [i2] + [], f);
    BodyOne(i2, [], f);
    EmptyRenamed(f);
  }

  lemma AddRenamed(i: Instr, base: nat, f: Rename)
    requires Matches(AddPass, i) && forall r: nat :: base <= r ==> f(r) == r
    ensures RenameBody(Recipe(AddPass, i, base), f) == AddInstrs(RenameOp(i.args[0], f), RenameOp(i.args[1], f), base)
  {
    hide RenameOps, BinInstr, RenameBody;
    var a, b := i.args[0], i.args[1];
    var rest := AddRest(base);
    var i0, i1 := BinInstr(base, Xor, 8, a, b), BinInstr(base + 1, And, 8, a, b);
    assert Recipe(AddPass, i, base) == [i0] + ([i1] + rest);
    BinRenamed(base, Xor, 8, a, b, f);
    BinRenamed(base + 1, And, 8, a, b, f);
    BodyOne(i0, [i1] + rest, f);
    BodyOne(i1, rest, f);
    AddRestRenamed(base, f);
  }

  lemma AddRestRenamed(base: nat, f: Rename)
    requires forall r: nat :: base <= r ==> f(r) == r
    ensures RenameBody(AddRest(base), f) == AddRest(base)
  {
    hide RenameOps, BinInstr, RenameBody;
    var i2 := BinInstr(base + 2, Mul, 8, Const(2), Reg(base + 1));
    var i3 := BinInstr(base + 3, Add, 8, Reg(base), Reg(base + 2));
    var i4 := BinInstr(base + 4, Mul, 8, Reg(base + 3), Const(39));
    var i5 := BinInstr(base + 5, Add, 8, Reg(base + 4), Const(23));
    var i6 := BinInstr(base + 6, Mul, 8, Reg(base + 5), Const(151));
    var i7 := BinInstr(base + 7, Add, 8, Reg(base + 6), Const(111));
    assert AddRest(base) == [i2] + ([i3] + ([i4] + ([i5] + ([i6] + ([i7] + [])))));
    BinRenamed(base + 2, Mul, 8, Const(2), Reg(base + 1), f);
    BinRenamed(base + 3, Add, 8, Reg(base), Reg(base + 2), f);
    BinRenamed(base + 4, Mul, 8, Reg(base + 3), Const(39), f);
    BinRenamed(base + 5, Add, 8, Reg(base + 4), Const(23), f);
    BinRenamed(base + 6, Mul, 8, Reg(base + 5), Const(151), f);
    BinRenamed(base + 7, Add, 8, Reg(base + 6), Const(111), f);
    BodyOne(i2, [i3] + ([i4] + ([i5] + ([i6] + ([i7] + [])))), f);
    BodyOne(i3, [i4] + ([i5] + ([i6] + ([i7] + []))), f);
    BodyOne(i4, [i5] + ([i6] + ([i7] + [])), f);
    BodyOne(i5, [i6] + ([i7] + []), f);
    BodyOne(i6, [i7] + [], f);
    BodyOne(i7, [], f);
    assert RenameBody([], f) == [] by { EmptyRenamed(f); }
  }

  lemma EmptyRenamed(f: Rename)
    ensures RenameBody([], f) == []
  {
  }

  lemma NotBase(s: Site, n: nat, r: nat)
    requires n < |s.body| && r < s.reg
    ensures NewName(s, r) != s.Base(n)
  {
    var j := LastDef(s.body, |s.body|, r);
    if j.Some? && Matches(s.pass, s.body[j.value]) {
      Apart(j.value, n, Length(s.pass) - 1);
    }
  }

  lemma Apart(j: int, n: int, k: int)
    requires 0 < k < 8
    ensures 8 * j + k != 8 * n
  {
  }

  /** What replaces a matching instruction computes the same value into its new name. */
  lemma MatchRuns(sem: Sem, s: Site, n: nat, l: Local, l': Local) returns (r: Local)
    requires MachineArith(sem) && SiteOk(s) && n < |s.body| && Matches(s.pass, s.body[n])
    requires Rel(NewNames(s), s.reg, l.regs, l'.regs) && l'.trace == l.trace && Exec(sem, s.body[n], l).Some?
    ensures ExecAll(sem, RenameBody(Recipe(s.pass, s.body[n], s.Base(n)), NewNames(s)), l') == Some(r)
            && r.trace == l'.trace
    ensures Untouched(s, n, l'.regs, r.regs)
    ensures Replacement(s, n) in r.regs && r.regs[Replacement(s, n)]
            == Exec(sem, s.body[n], l).value.regs[s.body[n].dst]
    ensures Exec(sem, s.body[n], l).value.trace == l.trace
  {
    hide ExecAll, Recipe, IntArith, RenameOps, Rel, AddInstrs, SubInstrs, RenameBody, LastDef, Compute;
    var i := s.body[n];
    RecipeRenamed(s, n);
    ValuesRenamed(NewNames(s), s.reg, l.regs, l'.regs, i.args);
    var vs := ValuesOf(l.regs, i.args).value;
    TwoValues(l.regs, i.args);
    TwoValues(l'.regs, RenameOps(i.args, NewNames(s)));
    assert RenameOps(i.args, NewNames(s))[0] == RenameOp(i.args[0], NewNames(s))
        && RenameOps(i.args, NewNames(s))[1] == RenameOp(i.args[1], NewNames(s));
    var x, y := RenameOp(i.args[0], NewNames(s)), RenameOp(i.args[1], NewNames(s));
    BinRuns(sem, i, l, vs[0], vs[1]);
    if s.pass.AddPass? {
      r := AddRuns(sem, x, y, s.Base(n), l', vs[0], vs[1]);
    } else {
      SubRuns(sem, i.op.width, x, y, s.Base(n), l', vs[0], vs[1]);
      var b := IntArith(Xor, i.op.width, vs[1], -1);
      var m := IntArith(Add, i.op.width, vs[0], b);
      r := Local(l'.regs[s.Base(n) := b][s.Base(n) + 1 := m][s.Base(n)
          + 2 := IntArith(Sub, i.op.width, vs[0], vs[1])], l'.trace);
    }
  }

  lemma TwoValues(regs: Regs, ops: seq<Operand>)
    requires |ops| == 2 && ValuesOf(regs, ops).Some?
    ensures var vs := ValuesOf(regs, ops).value;
            |vs| == 2 && ValueOf(regs, ops[0]) == Some(vs[0]) && ValueOf(regs, ops[1]) == Some(vs[1])
  {
    assert ops[1..][1..] == [] && ops[1..][0] == ops[1];
    assert ValuesOf(regs, ops[1..][1..]) == Some([]);
    assert ValuesOf(regs, ops[1..]).Some?;
  }

  /** One original instruction and what stands in its place. */
  lemma ExpandRuns(sem: Sem, s: Site, n: nat, l: Local, l': Local) returns (r: Local)
    requires MachineArith(sem) && SiteOk(s) && n < |s.body|
    requires Rel(NewNames(s), s.reg, l.regs, l'.regs) && l'.trace == l.trace && Exec(sem, s.body[n], l).Some?
    ensures ExecAll(sem, RenameBody(Expand(s, n), NewNames(s)), l') == Some(r)
    ensures Rel(NewNames(s), s.reg, Exec(sem, s.body[n], l).value.regs, r.regs)
            && r.trace == Exec(sem, s.body[n], l).value.trace
  {
    hide ExecAll, Recipe, Compute, Emits, LastDef;
    var i := s.body[n];
    assert InstrBelow(i, s.reg);
    var next := Exec(sem, i, l).value;
    if Matches(s.pass, i) {
      r := MatchRuns(sem, s, n, l, l');
      NameOf(s, n);
      forall q | q in next.regs
        ensures q < s.reg && NewName(s, q) in r.regs && r.regs[NewName(s, q)] == next.regs[q]
      {
        if q != i.dst {
          OtherName(s, n, q);
        }
      }
    } else {
      ValuesRenamed(NewNames(s), s.reg, l.regs, l'.regs, i.args);
      var j := i.(args := RenameOps(i.args, NewNames(s)));
      OneRenamed(sem, i, NewNames(s), l');
      r := Exec(sem, j, l').value;
      if !i.ty.Void? {
        NameOf(s, n);
        SiteFixes(s, i.dst);
        RelSet(NewNames(s), s.reg, l.regs, l'.regs, i.dst, Compute(sem, i.op, ValuesOf(l.regs, i.args).value, l.trace));
      }
    }
  }

  lemma OneRenamed(sem: Sem, i: Instr, f: Rename, l: Local)
    ensures RenameBody([i], f) == [i.(args := RenameOps(i.args, f))]
    ensures ExecAll(sem, RenameBody([i], f), l) == Exec(sem, i.(args := RenameOps(i.args, f)), l)
  {
    DuplicateProof.OneInstr(sem, i.(args := RenameOps(i.args, f)), l);
  }

  /** The new names of other registers are not among the registers used for instruction `n`. */
  lemma OtherName(s: Site, n: nat, q: nat)
    requires SiteOk(s) && n < |s.body| && !s.body[n].ty.Void? && q < s.reg && q != s.body[n].dst
    ensures !(s.Base(n) <= NewName(s, q) < s.Base(n + 1))
  {
    var j := LastDef(s.body, |s.body|, q);
    assert j.Some? ==> Defines(s.body[j.value], q);
  }

  lemma SiteFixes(s: Site, d: nat)
    requires SiteOk(s) && d < s.reg && NewName(s, d) == d
    ensures Fixes(NewNames(s), s.reg, d)
  {
  }

  /** The whole body. */
  lemma {:induction false} BodyRuns(sem: Sem, s: Site, n: nat, l: Local, l': Local)
    requires MachineArith(sem) && SiteOk(s) && n <= |s.body|
    requires Rel(NewNames(s), s.reg, l.regs, l'.regs) && l'.trace == l.trace && ExecAll(sem, s.body[n..], l).Some?
    ensures var r, r' := ExecAll(sem, s.body[n..], l), ExecAll(sem, RenameBody(Rewrite(s, n), NewNames(s)), l');
            r'.Some? && Rel(NewNames(s), s.reg, r.value.regs, r'.value.regs) && r'.value.trace == r.value.trace
    decreases |s.body| - n
  {
    hide Rel, Expand, NewNames, Exec;
    if n < |s.body| {
      assert s.body[n..][0] == s.body[n] && s.body[n..][1..] == s.body[n + 1..];
      var r := ExpandRuns(sem, s, n, l, l');
      RenameAppend(Expand(s, n), Rewrite(s, n + 1), NewNames(s));
      ExecAppend(sem, RenameBody(Expand(s, n), NewNames(s)), RenameBody(Rewrite(s, n + 1), NewNames(s)), l');
      BodyRuns(sem, s, n + 1, Exec(sem, s.body[n], l).value, r);
    }
  }

  lemma RenameAppend(p: seq<Instr>, q: seq<Instr>, f: Rename)
    ensures RenameBody(p + q, f) == RenameBody(p, f) + RenameBody(q, f)
  {
  }

  // ----- Steps -----

  ghost predicate Applies(f: Fn, pass: Pass, at: nat, reg: nat, lab: nat) {
    at in f.blocks && Bounded(f, reg, lab) && SingleDef(f) && DistinctBody(f.blocks[at].body)
  }

  lemma SamePlace(phis: seq<Phi>, f: Rename, lab: nat)
    ensures RenamePhis(phis, f, lab, lab) == RenamePhis(phis, f, 0, 0)
  {
    forall i | 0 <= i < |phis|
      ensures RenameIncoming(phis[i].incoming, f, lab, lab) == RenameIncoming(phis[i].incoming, f, 0, 0)
    {
    }
  }

  lemma Undefined(x: Block, d: nat)
    ensures LastDef(x.body, |x.body|, d).Some? ==> BodyDefines(x, d)
  {
    var j := LastDef(x.body, |x.body|, d);
    if j.Some? {
      assert Defines(x.body[j.value], d);
    }
  }

  lemma NotInBody(f: Fn, pass: Pass, at: nat, reg: nat, lab: nat, d: nat)
    requires Applies(f, pass, at, reg, lab) && d < reg && !BodyDefines(f.blocks[at], d)
    ensures var s := SiteOf(f, pass, at, reg); SiteOk(s) && Fixes(NewNames(s), reg, d)
  {
    var s := SiteOf(f, pass, at, reg);
    assert BlockBelow(f.blocks[at], reg, lab);
    Undefined(f.blocks[at], d);
    SiteFixes(s, d);
  }

  lemma CopiesHold(f: Fn, pass: Pass, at: nat, reg: nat, lab: nat, l: nat)
    requires Applies(f, pass, at, reg, lab)
    ensures Copies(f, Rewritten(f, pass, at, reg), l, NewNames(SiteOf(f, pass, at, reg)), reg, lab, lab)
  {
    hide NewNames, Rewrite, SingleDef;
    if l in f.blocks {
      var s := SiteOf(f, pass, at, reg);
      var x := f.blocks[l];
      assert BlockBelow(x, reg, lab);
      SamePlace(x.phis, NewNames(s), lab);
      forall k | 0 <= k < |x.phis|
        ensures Fixes(NewNames(s), reg, x.phis[k].dst)
      {
        assert PhiBelow(x.phis[k], reg, lab);
        assert PhiDefines(x, x.phis[k].dst);
        PhiNotInBody(f, Split(at, f.blocks[at].body, reg, lab), l, x.phis[k].dst);
        NotInBody(f, pass, at, reg, lab, x.phis[k].dst);
      }
      assert forall k :: 0 <= k < |x.phis| ==> PhiBelow(x.phis[k], reg, lab);
    }
  }

  lemma OtherBody(f: Fn, pass: Pass, at: nat, reg: nat, lab: nat, l: nat)
    requires Applies(f, pass, at, reg, lab) && l in f.blocks && l != at
    ensures BodyFixed(NewNames(SiteOf(f, pass, at, reg)), reg, f.blocks[l].body)
  {
    hide NewNames;
    var x := f.blocks[l];
    assert BlockBelow(x, reg, lab);
    forall k | 0 <= k < |x.body| && !x.body[k].ty.Void?
      ensures Fixes(NewNames(SiteOf(f, pass, at, reg)), reg, x.body[k].dst)
    {
      assert InstrBelow(x.body[k], reg) && Defines(x.body[k], x.body[k].dst);
      assert BodyDefines(x, x.body[k].dst);
      NotElsewhere(f, Split(at, f.blocks[at].body, reg, lab), l, x.body[k].dst);
      NotInBody(f, pass, at, reg, lab, x.body[k].dst);
    }
  }

  lemma StepTracks(sem: Sem, f: Fn, pass: Pass, at: nat, reg: nat, lab: nat, sf: State, sg: State)
    requires MachineArith(sem) && Applies(f, pass, at, reg, lab) && !Step(sem, f, sf).Stuck?
    requires RelState(NewNames(SiteOf(f, pass, at, reg)), reg, sf, sg) && !sf.Stuck? && (sf.Run? ==> sf.at < lab)
    ensures var nf, ng := Step(sem, f, sf), Step(sem, Rewritten(f, pass, at, reg), sg);
            RelState(NewNames(SiteOf(f, pass, at, reg)), reg, nf, ng) && (nf.Run? ==> nf.at < lab)
  {
    hide Rel, SingleDef, NewNames, Rewrite, Leave, BlockBelow;
    var g := Rewritten(f, pass, at, reg);
    var s := SiteOf(f, pass, at, reg);
    if sf.Run? {
      var x := f.blocks[sf.at];
      var l, l' := Local(sf.regs, sf.trace), Local(sg.regs, sg.trace);
      if sf.at == at {
        assert SiteOk(s) by { assert BlockBelow(x, reg, lab); BelowBody(x, reg, lab); }
        assert s.body[0..] == x.body;
        BodyRuns(sem, s, 0, l, l');
      } else {
        OtherBody(f, pass, at, reg, lab, sf.at);
        BodyRenamed(sem, NewNames(s), reg, x.body, l, l');
      }
      forall y | y in f.blocks
        ensures Copies(f, g, y, NewNames(s), reg, lab, lab)
      {
        CopiesHold(f, pass, at, reg, lab, y);
      }
      var r, r' := ExecAll(sem, x.body, l).value, ExecAll(sem, g.blocks[sf.at].body, l').value;
      LeaveRenamed(sem, f, g, NewNames(s), reg, lab, lab, sf.at, x.term, r, r');
      LeaveBelow(sem, f, sf.at, x.term, r, lab);
    }
  }

  lemma BelowBody(x: Block, reg: nat, lab: nat)
    requires BlockBelow(x, reg, lab)
    ensures BodyBelow(x.body, reg)
  {
  }

  lemma LeaveBelow(sem: Sem, f: Fn, pred: nat, term: Term, l: Local, lab: nat)
    requires forall y :: y in f.blocks ==> y < lab
    ensures var n := Leave(sem, f, pred, term, l); n.Run? ==> n.at < lab
  {
  }

  lemma {:induction false} TracksAll(sem: Sem, f: Fn, pass: Pass, at: nat, reg: nat, lab: nat, regs: Regs, n: nat)
    requires MachineArith(sem) && Applies(f, pass, at, reg, lab) && Safe(sem, f, regs)
    requires forall r :: r in regs ==> r in f.inputs
    ensures var s, t := Steps(sem, f, n, Start(f, regs)), Steps(sem, Rewritten(f, pass, at, reg), n, Start(f, regs));
            RelState(NewNames(SiteOf(f, pass, at, reg)), reg, s, t) && !s.Stuck? && (s.Run? ==> s.at < lab)
  {
    hide Step, Rewritten, NewNames, MachineArith, Rel;
    assert !Steps(sem, f, n, Start(f, regs)).Stuck?;
    if n == 0 {
      InputsSame(f, pass, at, reg, lab, regs);
    } else {
      TracksAll(sem, f, pass, at, reg, lab, regs, n - 1);
      StepTracks(sem, f, pass, at, reg, lab, Steps(sem, f, n - 1, Start(f, regs)),
          Steps(sem, Rewritten(f, pass, at, reg), n - 1, Start(f, regs)));
    }
  }

  lemma InputsSame(f: Fn, pass: Pass, at: nat, reg: nat, lab: nat, regs: Regs)
    requires Applies(f, pass, at, reg, lab) && forall r :: r in regs ==> r in f.inputs
    ensures Rel(NewNames(SiteOf(f, pass, at, reg)), reg, regs, regs) && f.entry < lab
  {
    forall r | r in regs
      ensures r < reg && NewName(SiteOf(f, pass, at, reg), r) == r
    {
      assert !BodyDefines(f.blocks[at], r);
      NotInBody(f, pass, at, reg, lab, r);
    }
  }

  /** Rewriting one block leaves behaviour as it is. */
  lemma RewritePreserves(sem: Sem, f: Fn, pass: Pass, at: nat, reg: nat, lab: nat, regs: Regs)
    requires MachineArith(sem) && Applies(f, pass, at, reg, lab) && Safe(sem, f, regs)
    requires forall r :: r in regs ==> r in f.inputs
    ensures var g := Rewritten(f, pass, at, reg); SameBehaviour(sem, f, g, regs) && Safe(sem, g, regs)
  {
    hide Steps, Rewritten, Applies, MachineArith, NewNames, Rel;
    assert at in f.blocks by { assert Applies(f, pass, at, reg, lab); AppliesAt(f, pass, at, reg, lab); }
    var g := Rewritten(f, pass, at, reg);
    assert Start(g, regs) == Start(f, regs) by { RewrittenEntry(f, pass, at, reg); }
    forall n: nat
      ensures SameView(Steps(sem, f, n, Start(f, regs)), Steps(sem, g, n, Start(g, regs)))
    {
      TracksAll(sem, f, pass, at, reg, lab, regs, n);
    }
    InStep(sem, f, g, regs);
  }

  lemma AppliesAt(f: Fn, pass: Pass, at: nat, reg: nat, lab: nat)
    requires Applies(f, pass, at, reg, lab)
    ensures at in f.blocks
  {
  }

  lemma RewrittenEntry(f: Fn, pass: Pass, at: nat, reg: nat)
    requires at in f.blocks
    ensures Rewritten(f, pass, at, reg).entry == f.entry && Rewritten(f, pass, at, reg).inputs == f.inputs
  {
  }
}
