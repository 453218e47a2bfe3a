/**
 A whole run of `MBAAdd` or `MBASub`: block after block, every matching instruction is replaced once.
 */
module MbaRun {
  import opened Prelude
  import opened Ssa
  import opened Mba
  import opened Renaming
  import opened Duplicate
  import opened DuplicateProof
  import opened DuplicateRun
  import opened MbaProof

  /** A function and its first unused register. */
  datatype Progress = Progress(f: Fn, reg: nat)

  function RewriteOne(w: Progress, pass: Pass, at: nat): Progress
    requires at in w.f.blocks
  {
    Progress(Rewritten(w.f, pass, at, w.reg), SiteOf(w.f, pass, at, w.reg).NextReg())
  }

  function RewriteAll(w: Progress, pass: Pass, order: seq<nat>): Progress
    requires forall k :: 0 <= k < |order| ==> order[k] in w.f.blocks
    decreases |order|
  {
    if order == [] then w else RewriteAll(RewriteOne(w, pass, order[0]), pass, order[1..])
  }

  // ----- Validity is kept -----

  ghost predicate Valid(w: Progress, lab: nat, rest: seq<nat>) {
    && Bounded(w.f, w.reg, lab) && SingleDef(w.f)
    && (forall k :: 0 <= k < |rest| ==> rest[k] in w.f.blocks && DistinctBody(w.f.blocks[rest[k]].body))
    && (forall i, j :: 0 <= i < j < |rest| ==> rest[i] != rest[j])
  }

  ghost predicate Keeps(f: Rename, reg: nat, reg': nat) { reg <= reg' && forall r: nat :: r < reg ==> f(r) < reg' }

  lemma OpsKept(ops: seq<Operand>, f: Rename, reg: nat, reg': nat)
    requires Keeps(f, reg, reg') && OpsBelow(ops, reg)
    ensures OpsBelow(RenameOps(ops, f), reg')
  {
    forall k | 0 <= k < |ops|
      ensures OpBelow(RenameOps(ops, f)[k], reg')
    {
      assert OpBelow(ops[k], reg);
    }
  }

  lemma BodyKept(body: seq<Instr>, f: Rename, reg: nat, reg': nat)
    requires Keeps(f, reg, reg') && BodyBelow(body, reg)
    ensures BodyBelow(RenameBody(body, f), reg')
  {
    forall k | 0 <= k < |body|
      ensures InstrBelow(RenameBody(body, f)[k], reg')
    {
      assert InstrBelow(body[k], reg);
      OpsKept(body[k].args, f, reg, reg');
    }
  }

  lemma PhisKept(phis: seq<Phi>, f: Rename, reg: nat, reg': nat, lab: nat)
    requires Keeps(f, reg, reg') && AllPhisBelow(phis, reg, lab)
    ensures AllPhisBelow(RenamePhis(phis, f, 0, 0), reg', lab)
  {
    var r := RenamePhis(phis, f, 0, 0);
    forall k | 0 <= k < |r|
      ensures PhiBelow(r[k], reg', lab)
    {
      assert PhiBelow(phis[k], reg, lab);
      forall j | 0 <= j < |r[k].incoming|
        ensures r[k].incoming[j].0 < lab && OpBelow(r[k].incoming[j].1, reg')
      {
        assert OpBelow(phis[k].incoming[j].1, reg);
      }
    }
  }

  lemma NewNamesKeep(s: Site)
    requires SiteOk(s)
    ensures Keeps(NewNames(s), s.reg, s.NextReg())
  {
    forall r: nat | r < s.reg
      ensures NewNames(s)(r) < s.NextReg()
    {
      var i := LastDef(s.body, |s.body|, r);
      assert i.Some? ==> s.reg + 8 * i.value + 7 < s.reg + 8 * |s.body|;
    }
  }

  /** Instructions that define registers in the range given to site `s` or old ones. */
  ghost predicate DefsFrom(s: Site, n: nat, i: Instr) {
    !i.ty.Void? ==>
      i.dst < s.NextReg() && (i.dst >= s.reg || (exists k :: n <= k < |s.body| && Defines(s.body[k], i.dst)))
  }

  lemma RecipeBelow(s: Site, n: nat)
    requires SiteOk(s) && n < |s.body| && Matches(s.pass, s.body[n])
    ensures BodyBelow(RenameBody(Recipe(s.pass, s.body[n], s.Base(n)), NewNames(s)), s.NextReg())
    ensures forall k :: 0 <= k < Length(s.pass) ==> s.reg <= Recipe(s.pass, s.body[n], s.Base(n))[k].dst < s.NextReg()
  {
    hide NewNames, RenameOps, LastDef, DistinctBody;
    NewNamesKeep(s);
    assert InstrBelow(s.body[n], s.reg);
    var i := s.body[n];
    assert OpBelow(i.args[0], s.reg) && OpBelow(i.args[1], s.reg);
    assert 8 * n + 8 <= 8 * |s.body|;
    RecipeRenamed(s, n);
    hide Recipe;
    assert OpBelow(RenameOp(i.args[0], NewNames(s)), s.NextReg())
        && OpBelow(RenameOp(i.args[1], NewNames(s)), s.NextReg());
    if s.pass.AddPass? {
      AddBelow(RenameOp(i.args[0], NewNames(s)), RenameOp(i.args[1], NewNames(s)), s.Base(n), s.NextReg());
    } else {
      SubBelow(i.op.width, RenameOp(i.args[0], NewNames(s)), RenameOp(i.args[1], NewNames(s)), s.Base(n), s.NextReg());
    }
    RecipeResults(s.pass, i, s.Base(n));
  }

  lemma RecipeResults(pass: Pass, i: Instr, base: nat)
    requires Matches(pass, i)
    ensures forall k :: 0 <= k < Length(pass)
              ==> Recipe(pass, i, base)[k].dst == base + k && !Recipe(pass, i, base)[k].ty.Void?
  {
  }

  lemma SubBelow(w: nat, x: Operand, y: Operand, base: nat, reg: nat)
    requires base + 8 <= reg && OpBelow(x, reg) && OpBelow(y, reg)
    ensures BodyBelow(SubInstrs(w, x, y, base), reg)
  {
  }

  lemma AddBelow(x: Operand, y: Operand, base: nat, reg: nat)
    requires base + 8 <= reg && OpBelow(x, reg) && OpBelow(y, reg)
    ensures BodyBelow(AddInstrs(x, y, base), reg)
  {
    assert BodyBelow(AddRest(base), reg);
    assert BodyBelow([BinInstr(base, Xor, 8, x, y), BinInstr(base + 1, And, 8, x, y)], reg);
  }

  lemma {:induction false} RewriteBelow(s: Site, n: nat)
    requires SiteOk(s) && n <= |s.body|
    ensures BodyBelow(RenameBody(Rewrite(s, n), NewNames(s)), s.NextReg())
    ensures forall k :: 0 <= k < |Rewrite(s, n)| ==> DefsFrom(s, n, Rewrite(s, n)[k])
    decreases |s.body| - n
  {
    hide NewNames, InstrBelow, Recipe, DefsFrom;
    if n < |s.body| {
      RewriteBelow(s, n + 1);
      RenameAppend(Expand(s, n), Rewrite(s, n + 1), NewNames(s));
      forall k | 0 <= k < |Rewrite(s, n)|
        ensures DefsFrom(s, n, Rewrite(s, n)[k])
      {
        if k >= |Expand(s, n)| {
          assert DefsFrom(s, n + 1, Rewrite(s, n + 1)[k - |Expand(s, n)|]);
          DefsWiden(s, n, Rewrite(s, n + 1)[k - |Expand(s, n)|]);
        } else {
          ExpandDefs(s, n, k);
        }
      }
      ExpandBelow(s, n);
    }
  }

  lemma DefsWiden(s: Site, n: nat, i: Instr)
    requires DefsFrom(s, n + 1, i)
    ensures DefsFrom(s, n, i)
  {
  }

  lemma ExpandDefs(s: Site, n: nat, k: nat)
    requires SiteOk(s) && n < |s.body| && k < |Expand(s, n)|
    ensures DefsFrom(s, n, Expand(s, n)[k])
  {
    hide Recipe, LastDef;
    assert 8 * n + 8 <= 8 * |s.body|;
    if Matches(s.pass, s.body[n]) {
      RecipeResults(s.pass, s.body[n], s.Base(n));
    } else if !s.body[n].ty.Void? {
      assert InstrBelow(s.body[n], s.reg);
      assert Defines(s.body[n], s.body[n].dst);
    }
  }

  lemma ExpandBelow(s: Site, n: nat)
    requires SiteOk(s) && n < |s.body|
    ensures BodyBelow(RenameBody(Expand(s, n), NewNames(s)), s.NextReg())
  {
    hide Recipe, NewNames;
    if Matches(s.pass, s.body[n]) {
      RecipeBelow(s, n);
    } else {
      NewNamesKeep(s);
      assert InstrBelow(s.body[n], s.reg);
      assert BodyBelow([s.body[n]], s.reg);
      BodyKept([s.body[n]], NewNames(s), s.reg, s.NextReg());
    }
  }

  /** Renaming keeps what a block defines. */
  lemma SameDefs(x: Block, f: Rename, r: nat)
    ensures var y := RenameBlock(x, f, 0, 0);
            (BodyDefines(y, r) <==> BodyDefines(x, r)) && (PhiDefines(y, r) <==> PhiDefines(x, r))
  {
    var y := RenameBlock(x, f, 0, 0);
    if BodyDefines(x, r) {
      var i :| 0 <= i < |x.body| && Defines(x.body[i], r);
      assert Defines(y.body[i], r);
    }
    if PhiDefines(x, r) {
      var i :| 0 <= i < |x.phis| && x.phis[i].dst == r;
      assert y.phis[i].dst == r;
    }
  }

  /** What the new function defines: old registers where they were, new ones in block `at` only. */
  lemma DefsAfter(f: Fn, pass: Pass, at: nat, reg: nat, lab: nat, l: nat, r: nat)
    requires Applies(f, pass, at, reg, lab) && l in f.blocks
    ensures var y := Rewritten(f, pass, at, reg).blocks[l];
            && (PhiDefines(y, r) ==> PhiDefines(f.blocks[l], r))
            && (BodyDefines(y, r) ==> BodyDefines(f.blocks[l], r) || (l == at && r >= reg))
  {
    hide NewNames, Rewrite, SingleDef;
    var s := SiteOf(f, pass, at, reg);
    var x := if l == at then f.blocks[l].(body := Rewrite(s, 0)) else f.blocks[l];
    SameDefs(x, NewNames(s), r);
    if l == at && BodyDefines(x, r) && r < reg {
      assert BlockBelow(f.blocks[at], reg, lab);
      RewriteBelow(s, 0);
      var i :| 0 <= i < |x.body| && Defines(x.body[i], r);
      assert DefsFrom(s, 0, x.body[i]);
    }
    if PhiDefines(x, r) {
      var i :| 0 <= i < |x.phis| && x.phis[i].dst == r;
      assert f.blocks[l].phis[i].dst == r;
    }
  }

  lemma DefsOld(f: Fn, reg: nat, lab: nat, l: nat, r: nat)
    requires Bounded(f, reg, lab) && l in f.blocks && (BodyDefines(f.blocks[l], r) || PhiDefines(f.blocks[l], r))
    ensures r < reg
  {
    var x := f.blocks[l];
    assert BlockBelow(x, reg, lab);
    if BodyDefines(x, r) {
      var i :| 0 <= i < |x.body| && Defines(x.body[i], r);
      assert InstrBelow(x.body[i], reg);
    } else {
      var i :| 0 <= i < |x.phis| && x.phis[i].dst == r;
      assert PhiBelow(x.phis[i], reg, lab);
    }
  }

  lemma SingleDefKept(f: Fn, pass: Pass, at: nat, reg: nat, lab: nat)
    requires Applies(f, pass, at, reg, lab)
    ensures SingleDef(Rewritten(f, pass, at, reg))
  {
    hide BodyDefines, PhiDefines, Rewrite, NewNames, RenameBlock, DistinctBody;
    var g := Rewritten(f, pass, at, reg);
    forall l | l in g.blocks
      ensures OwnDefs(g, g.blocks[l])
    {
      assert OwnDefs(f, f.blocks[l]);
      forall r: nat
        ensures PhiDefines(g.blocks[l], r) ==> !BodyDefines(g.blocks[l], r)
        ensures r in g.inputs ==> !BodyDefines(g.blocks[l], r) && !PhiDefines(g.blocks[l], r)
      {
        DefsAfter(f, pass, at, reg, lab, l, r);
        if PhiDefines(f.blocks[l], r) {
          DefsOld(f, reg, lab, l, r);
        }
      }
    }
    forall l, x, r | l in g.blocks && x in g.blocks && l != x && BodyDefines(g.blocks[l], r)
      ensures !BodyDefines(g.blocks[x], r) && !PhiDefines(g.blocks[x], r)
    {
      DefsAfter(f, pass, at, reg, lab, l, r);
      DefsAfter(f, pass, at, reg, lab, x, r);
      if BodyDefines(f.blocks[l], r) {
        DefsOld(f, reg, lab, l, r);
      }
      if BodyDefines(f.blocks[x], r) || PhiDefines(f.blocks[x], r) {
        DefsOld(f, reg, lab, x, r);
      }
    }
  }

  lemma BoundedKept(f: Fn, pass: Pass, at: nat, reg: nat, lab: nat)
    requires Applies(f, pass, at, reg, lab)
    ensures Bounded(Rewritten(f, pass, at, reg), SiteOf(f, pass, at, reg).NextReg(), lab)
  {
    hide NewNames, Rewrite, SingleDef, InstrBelow, PhiBelow, OpBelow, DistinctBody;
    var s := SiteOf(f, pass, at, reg);
    assert SiteOk(s) by { assert BlockBelow(f.blocks[at], reg, lab); }
    NewNamesKeep(s);
    var g := Rewritten(f, pass, at, reg);
    forall l | l in g.blocks
      ensures l < lab && BlockBelow(g.blocks[l], s.NextReg(), lab)
    {
      var x := f.blocks[l];
      assert BlockBelow(x, reg, lab);
      PhisKept(x.phis, NewNames(s), reg, s.NextReg(), lab);
      OpsKept(x.term.args, NewNames(s), reg, s.NextReg());
      if l == at {
        RewriteBelow(s, 0);
      } else {
        BodyKept(x.body, NewNames(s), reg, s.NextReg());
      }
    }
  }

  lemma DistinctRenamed(body: seq<Instr>, f: Rename)
    requires DistinctBody(body)
    ensures DistinctBody(RenameBody(body, f))
  {
  }

  lemma ValidAfter(w: Progress, pass: Pass, lab: nat, rest: seq<nat>)
    requires rest != [] && Valid(w, lab, rest)
    ensures Applies(w.f, pass, rest[0], w.reg, lab) && Valid(RewriteOne(w, pass, rest[0]), lab, rest[1..])
  {
    hide Bounded, SingleDef, DistinctBody, Rewrite, NewNames;
    assert DistinctBody(w.f.blocks[rest[0]].body);
    BoundedKept(w.f, pass, rest[0], w.reg, lab);
    SingleDefKept(w.f, pass, rest[0], w.reg, lab);
    var g := RewriteOne(w, pass, rest[0]).f;
    forall k | 0 <= k < |rest[1..]|
      ensures rest[1..][k] in g.blocks && DistinctBody(g.blocks[rest[1..][k]].body)
    {
      assert rest[1..][k] == rest[k + 1] && DistinctBody(w.f.blocks[rest[k + 1]].body);
      DistinctRenamed(w.f.blocks[rest[k + 1]].body, NewNames(SiteOf(w.f, pass, rest[0], w.reg)));
    }
  }

  // ----- Main results -----

  /** The whole pass leaves behaviour as it is. */
  lemma {:induction false} PassPreserves(sem: Sem, w: Progress, pass: Pass, lab: nat, order: seq<nat>, regs: Regs)
    requires MachineArith(sem) && Valid(w, lab, order) && Safe(sem, w.f, regs)
    requires forall r :: r in regs ==> r in w.f.inputs
    ensures var g := RewriteAll(w, pass, order).f; SameBehaviour(sem, w.f, g, regs) && Safe(sem, g, regs)
    decreases |order|
  {
    hide Valid, Safe, SameBehaviour, Rewritten, MachineArith, Applies;
    assert forall k :: 0 <= k < |order|
             ==> order[k] in w.f.blocks by { assert Valid(w, lab, order); InFunction(w, lab, order); }
    if order == [] {
      assert SameBehaviour(sem, w.f, w.f, regs) by { SameAsItself(sem, w.f, regs); }
    } else {
      ValidAfter(w, pass, lab, order);
      RewritePreserves(sem, w.f, pass, order[0], w.reg, lab, regs);
      var next := RewriteOne(w, pass, order[0]);
      RewrittenEntry(w.f, pass, order[0], w.reg);
      InFunction(next, lab, order[1..]);
      PassPreserves(sem, next, pass, lab, order[1..], regs);
      SameBehaviourTrans(sem, w.f, next.f, RewriteAll(next, pass, order[1..]).f, regs);
    }
  }

  lemma InFunction(w: Progress, lab: nat, order: seq<nat>)
    requires Valid(w, lab, order)
    ensures forall k :: 0 <= k < |order| ==> order[k] in w.f.blocks
  {
  }

  /** Two instructions that differ at most in which registers they read. */
  /** The same but for the registers read. */
  predicate SameBut(i: Instr, j: Instr) {
    && i == j.(args := i.args) && |i.args| == |j.args|
    && forall k :: 0 <= k < |i.args| ==> ConstOf(i.args[k]) == ConstOf(j.args[k])
  }

  function ConstOf(a: Operand): Option<int> { if a.Const? then Some(a.v) else None }

  predicate SameCode(p: seq<Instr>, q: seq<Instr>) { |p| == |q| && forall k :: 0 <= k < |p| ==> SameBut(p[k], q[k]) }

  predicate SamePhiShape(p: Phi, q: Phi) { p.dst == q.dst && p.ty == q.ty && |p.incoming| == |q.incoming| }

  predicate SameShape(x: Block, y: Block) {
    && SameCode(x.body, y.body) && x.term.(args := y.term.args) == y.term && |x.phis| == |y.phis|
    && forall k :: 0 <= k < |x.phis| ==> SamePhiShape(x.phis[k], y.phis[k])
  }

  lemma RenamedShape(x: Block, y: Block, f: Rename)
    requires SameShape(x, y)
    ensures SameShape(x, RenameBlock(y, f, 0, 0))
  {
    var z := RenameBlock(y, f, 0, 0);
    forall k | 0 <= k < |x.body|
      ensures SameBut(x.body[k], z.body[k])
    {
      assert SameBut(x.body[k], y.body[k]);
    }
  }

  /** What is inserted does not depend on which registers are read, up to those registers. */
  lemma {:induction false} RewriteShape(p: Site, q: Site, n: nat)
    requires p.pass == q.pass && p.reg == q.reg && SameCode(p.body, q.body) && n <= |p.body|
    ensures SameCode(Rewrite(p, n), Rewrite(q, n))
    decreases |p.body| - n
  {
    hide Recipe;
    if n < |p.body| {
      RewriteShape(p, q, n + 1);
      assert SameBut(p.body[n], q.body[n]);
      if Matches(p.pass, p.body[n]) {
        RecipeShape(p.pass, p.body[n], q.body[n], p.Base(n));
      }
    }
  }

  lemma RecipeShape(pass: Pass, i: Instr, j: Instr, base: nat)
    requires SameBut(i, j) && Matches(pass, i)
    ensures Matches(pass, j) && SameCode(Recipe(pass, i, base), Recipe(pass, j, base))
  {
  }

  /** The block `l` of the result, given the first register that the pass used for it. */
  ghost predicate RewrittenOnce(x: Block, y: Block, pass: Pass, reg: nat) {
    SameShape(x.(body := Rewrite(Site(pass, x.body, reg), 0)), y)
  }

  /**
   Each block of the result is the original block with every matching instruction replaced exactly once;
   what was inserted is not rewritten again and everything else stays, apart from the registers read.
   */
  lemma {:induction false} EachOnce(w: Progress, pass: Pass, lab: nat, order: seq<nat>, l: nat)
    requires Valid(w, lab, order) && l in w.f.blocks
    ensures var g := RewriteAll(w, pass, order).f;
            && l in g.blocks
            && if l in order
               then exists reg: nat :: reg >= w.reg && RewrittenOnce(w.f.blocks[l], g.blocks[l], pass, reg)
               else SameShape(w.f.blocks[l], g.blocks[l])
    decreases |order|
  {
    hide Bounded, SingleDef, DistinctBody, Rewrite, NewNames, SameShape, RenameBlock;
    var x := w.f.blocks[l];
    if order == [] {
      assert SameShape(x, x) by { ShapeSelf(x); }
    } else {
      ValidAfter(w, pass, lab, order);
      var next := RewriteOne(w, pass, order[0]);
      EachOnce(next, pass, lab, order[1..], l);
      var y, z := next.f.blocks[l], RewriteAll(next, pass, order[1..]).f.blocks[l];
      var s := SiteOf(w.f, pass, order[0], w.reg);
      assert order[0] !in order[1..];
      if l == order[0] {
        var x1 := x.(body := Rewrite(s, 0));
        ShapeSelf(x1);
        RenamedShape(x1, x1, NewNames(s));
        ShapeTrans(x1, y, z);
        assert RewrittenOnce(x, z, pass, w.reg);
      } else {
        ShapeSelf(x);
        RenamedShape(x, x, NewNames(s));
        if l in order {
          assert l in order[1..];
          var reg: nat :| reg >= next.reg && RewrittenOnce(y, z, pass, reg);
          OnceTrans(x, y, z, pass, reg);
        } else {
          ShapeTrans(x, y, z);
        }
      }
    }
  }

  lemma ShapeSelf(x: Block)
    ensures SameShape(x, x)
  {
  }

  lemma ShapeTrans(x: Block, y: Block, z: Block)
    requires SameShape(x, y) && SameShape(y, z)
    ensures SameShape(x, z)
  {
    forall k | 0 <= k < |x.body|
      ensures SameBut(x.body[k], z.body[k])
    {
      assert SameBut(x.body[k], y.body[k]) && SameBut(y.body[k], z.body[k]);
    }
  }

  lemma OnceTrans(x: Block, y: Block, z: Block, pass: Pass, reg: nat)
    requires SameShape(x, y) && RewrittenOnce(y, z, pass, reg)
    ensures RewrittenOnce(x, z, pass, reg)
  {
    hide Rewrite, SameCode;
    RewriteShape(Site(pass, x.body, reg), Site(pass, y.body, reg), 0);
    ShapeTrans(x.(body := Rewrite(Site(pass, x.body, reg), 0)), y.(body := Rewrite(Site(pass, y.body, reg), 0)), z);
  }
}
