/**
 `DuplicateBB` as it runs: the analysis, the choice of targets, and the loop that splits one block after
 another, cloning its instructions into both arms and replacing each by a phi.
 */
module Duplicator {
  import opened Prelude
  import opened Ssa
  import opened Renaming
  import opened Duplicate
  import opened DuplicateProof
  import opened DuplicateRun
  import opened Shapes
  import Riv
  import Dom = Dominance

  /** A value map as a renaming: unmapped registers stand for themselves. */
  function Through(m: map<nat, nat>): Rename {
    (r: nat) => if r in m then m[r] else r
  }

  /** The value map of an arm once the first `n` instructions have been cloned. */
  ghost predicate MapsTo(m: map<nat, nat>, s: Split, n: nat, arm: nat)
    requires n <= |s.body|
  {
    forall r: nat :: var i := LastDef(s.body, n, r);
      (r in m <==> i.Some?) && (i.Some? ==> m[r] == s.CopyReg(i.value, arm))
  }

  lemma MapsNext(m: map<nat, nat>, s: Split, n: nat, arm: nat)
    requires n < |s.body| && MapsTo(m, s, n, arm)
    ensures MapsTo(if s.body[n].ty.Void? then m else m[s.body[n].dst := s.CopyReg(n, arm)], s, n + 1, arm)
  {
  }

  /** Remapping a clone's operands and later replacing all uses amounts to the renaming of the arm. */
  lemma RemapThenReplace(m: map<nat, nat>, s: Split, n: nat, arm: nat, ops: seq<Operand>)
    requires n <= |s.body| && arm < 2 && MapsTo(m, s, n, arm) && BodyBelow(s.body, s.reg)
    ensures RenameOps(RenameOps(ops, Through(m)), FinalFn(s)) == RenameOps(ops, InArmFn(s, n, arm))
  {
    forall k | 0 <= k < |ops| && ops[k].Reg?
      ensures Final(s, Through(m)(ops[k].r)) == InArm(s, n, arm, ops[k].r)
    {
      var i := LastDef(s.body, n, ops[k].r);
      if i.Some? {
        CopyNotCopied(s, i.value, arm);
      }
    }
  }

  /** A clone is, once all uses have been replaced, the copy in the arm. */
  lemma CloneRenamed(m: map<nat, nat>, s: Split, n: nat, arm: nat)
    requires n < |s.body| && arm < 2 && MapsTo(m, s, n, arm) && BodyBelow(s.body, s.reg)
    ensures var i := s.body[n];
            i.(dst := s.CopyReg(n, arm), args := RenameOps(RenameOps(i.args, Through(m)), FinalFn(s)))
            == CopyOne(s, n, arm)
  {
    RemapThenReplace(m, s, n, arm, s.body[n].args);
    hide RenameOps, MapsTo, FinalFn, InArmFn, Through;
  }

  lemma StartBodies(s: Split)
    ensures RenameBody([], FinalFn(s)) + Copy(s, 0, 0) == Copy(s, 0, 0)
    ensures RenameBody([], FinalFn(s)) + Copy(s, 0, 1) == Copy(s, 0, 1)
  {
    hide Copy;
  }

  lemma NothingLeft(s: Split, body: seq<Instr>, arm: nat)
    ensures RenameBody(body, FinalFn(s)) + Copy(s, |s.body|, arm) == RenameBody(body, FinalFn(s))
  {
    hide RenameBody;
  }

  lemma CopyNotCopied(s: Split, i: nat, arm: nat)
    requires i < |s.body| && BodyBelow(s.body, s.reg)
    ensures Final(s, s.CopyReg(i, arm)) == s.CopyReg(i, arm)
  {
    var j := LastDef(s.body, |s.body|, s.CopyReg(i, arm));
    assert j.Some? ==> InstrBelow(s.body[j.value], s.reg);
  }

  class Pass {
    var f: Fn
    var nextReg: nat
    var nextLabel: nat
    var valueToPhi: map<nat, nat>

    constructor (f: Fn, nextReg: nat, nextLabel: nat)
      ensures State() == Work(f, nextReg, nextLabel, map[])
    {
      this.f, this.nextReg, this.nextLabel := f, nextReg, nextLabel;
      valueToPhi := map[];
    }

    function State(): Work
      reads this
    {
      Work(f, nextReg, nextLabel, valueToPhi)
    }

    /** Clone the instructions of the tail into both arms; each one with a result is replaced by a phi. */
    method CloneTail(s: Split) returns (thenBody: seq<Instr>, elseBody: seq<Instr>, phis: seq<Phi>)
      requires BodyBelow(s.body, s.reg)
      modifies this`valueToPhi
      ensures RenameBody(thenBody, FinalFn(s)) == Copy(s, 0, 0) && RenameBody(elseBody, FinalFn(s)) == Copy(s, 0, 1)
      ensures phis == TailPhis(s, 0) && valueToPhi == RecordPhis(old(valueToPhi), s, 0)
    {
      hide LastDef, FinalFn, InArmFn, Through, MapsTo, RenameBody, RenameOps, Copy, CopyOne;
      thenBody, elseBody, phis := [], [], [];
      var thenVMap: map<nat, nat>, elseVMap: map<nat, nat> := map[], map[];
      StartMaps(s);
      StartBodies(s);
      var n := 0;
      while n < |s.body|
        invariant n <= |s.body| && MapsTo(thenVMap, s, n, 0) && MapsTo(elseVMap, s, n, 1)
        invariant RenameBody(thenBody, FinalFn(s)) + Copy(s, n, 0) == Copy(s, 0, 0)
        invariant RenameBody(elseBody, FinalFn(s)) + Copy(s, n, 1) == Copy(s, 0, 1)
        invariant phis + TailPhis(s, n) == TailPhis(s, 0)
        invariant RecordPhis(valueToPhi, s, n) == RecordPhis(old(valueToPhi), s, 0)
      {
        var instr := s.body[n];
        var thenClone := instr.(dst := s.CopyReg(n, 0), args := RenameOps(instr.args, Through(thenVMap)));
        var elseClone := instr.(dst := s.CopyReg(n, 1), args := RenameOps(instr.args, Through(elseVMap)));
        CloneRenamed(thenVMap, s, n, 0);
        CloneRenamed(elseVMap, s, n, 1);
        Appended(s, n, 0, thenBody, thenClone);
        Appended(s, n, 1, elseBody, elseClone);
        MapsNext(thenVMap, s, n, 0);
        MapsNext(elseVMap, s, n, 1);
        thenBody, elseBody := thenBody + [thenClone], elseBody + [elseClone];
        if !instr.ty.Void? {
          thenVMap, elseVMap := thenVMap[instr.dst := thenClone.dst], elseVMap[instr.dst := elseClone.dst];
          var phi := Phi(instr.ty, s.PhiReg(n),
              [(s.ThenLabel(), Reg(thenClone.dst)), (s.ElseLabel(), Reg(elseClone.dst))]);
          phis := phis + [phi];
          valueToPhi := valueToPhi[instr.dst := phi.dst];
        }
        n := n + 1;
      }
      NothingLeft(s, thenBody, 0);
      NothingLeft(s, elseBody, 1);
    }

    /** One turn of the loop over the targets. */
    method DuplicateBlock(at: nat, checkValue: nat)
      requires at in f.blocks && BodyBelow(f.blocks[at].body, nextReg)
      modifies this
      ensures State() == DuplicateOne(old(State()), at, checkValue)
    {
      var s := SplitOf(f, at, nextReg, nextLabel);
      var x := f.blocks[at];
      var check := Reg(Current(valueToPhi, checkValue));
      var thenBody, elseBody, phis := CloneTail(s);
      var head := Block(x.phis, [Instr(Int, s.CondReg(), IsNull, [check])],
          Term(CondBr, [Reg(s.CondReg())], [s.ThenLabel(), s.ElseLabel()]));
      var replace := FinalFn(s);
      var blocks := map l | l in f.blocks ::
        if l == at then
          Block(RenamePhis(head.phis, replace, at, s.TailLabel()), RenameBody(head.body, replace), head.term)
        else RenameBlock(f.blocks[l], replace, at, s.TailLabel());
      assert RenameBody(head.body, replace) == HeadOf(s, x, check).body by { TestOnly(check, s); }
      blocks := blocks[s.ThenLabel() := Block([], RenameBody(thenBody, replace), Term(Br, [], [s.TailLabel()]))];
      blocks := blocks[s.ElseLabel() := Block([], RenameBody(elseBody, replace), Term(Br, [], [s.TailLabel()]))];
      blocks := blocks[s.TailLabel() := Block(phis, [], RenameTerm(x.term, replace))];
      assert blocks == Duplicated(f, at, check, nextReg, nextLabel).blocks;
      f := f.(blocks := blocks);
      nextReg, nextLabel := s.NextReg(), s.lab + 3;
    }

    /** The loop over the targets, in the order given. */
    method DuplicateTargets(targets: seq<(nat, nat)>)
      requires Valid(State()) && forall k :: 0 <= k < |targets| ==> InRange(State(), targets[k])
      modifies this
      ensures State() == DuplicateAll(old(State()), targets)
    {
      hide Bounded, SingleDef, PhisRecorded, DuplicateOne;
      var i := 0;
      assert targets[0..] == targets;
      while i < |targets|
        invariant i <= |targets| && Valid(State())
        invariant forall k :: i <= k < |targets| ==> InRange(State(), targets[k])
        invariant DuplicateAll(State(), targets[i..]) == DuplicateAll(old(State()), targets)
      {
        var (at, value) := targets[i];
        ghost var w := State();
        assert targets[i..][0] == targets[i] && targets[i..][1..] == targets[i + 1..];
        BodyIsBelow(w, at);
        ValidAfter(w, at, value);
        forall k | i + 1 <= k < |targets|
          ensures InRange(DuplicateOne(w, at, value), targets[k])
        {
          InRangeAfter(w, at, value, targets[k]);
        }
        DuplicateBlock(at, value);
        i := i + 1;
      }
      assert targets[i..] == [];
    }

    /** The first loop: each block for which something is listed is paired, once, with one of its values. */
    method ChooseTargets(riv: Riv.Result, order: seq<nat>, draw: (nat, set<nat>) -> nat)
      returns (targets: seq<(nat, nat)>)
      requires forall l, vs :: vs != {} ==> draw(l, vs) in vs
      ensures Dom.Chosen(f, riv, targets) && NoBlockTwice(targets)
      ensures forall l :: Targeted(targets, l) <==> l in order && Offers(f, riv, l)
    {
      hide NoBlockTwice, Targeted;
      targets := [];
      NothingTargeted();
      var i := 0;
      while i < |order|
        invariant i <= |order| && Dom.Chosen(f, riv, targets) && NoBlockTwice(targets)
        invariant forall l :: Targeted(targets, l) <==> l in order[..i] && Offers(f, riv, l)
      {
        var bb := order[i];
        assert order[..i + 1] == order[..i] + [bb];
        if Offers(f, riv, bb) && bb !in order[..i] {
          var checkValue := draw(bb, riv[bb]);
          OneTarget(targets, bb, checkValue);
          targets := targets + [(bb, checkValue)];
        }
        i := i + 1;
      }
      assert order[..i] == order;
    }

    /**
     The pass on a valid function with its dominator tree.  `draw` picks one of a block's listed values.  A
     block of `order` is split on a value that reaches it exactly when there is one; the others keep their
     shape, and the function behaves as it did.
     */
    method Run(ints: set<nat>, tree: Riv.Tree, order: seq<nat>, draw: (nat, set<nat>) -> nat)
      requires Valid(State()) && valueToPhi == map[] && Dom.EntryPlain(f) && Dom.IsDomTree(f, tree) && ints <= f.inputs
      requires forall l, vs :: vs != {} ==> draw(l, vs) in vs
      modifies this
      ensures Preserved(old(f), f)
      ensures forall l :: l in old(f).blocks ==> Reshaped(old(f), ints, order, State(), l)
    {
      hide Bounded, SingleDef, PhisRecorded, DuplicateAll, Dom.IsDomTree, Dom.EntryPlain, Reshaped, Targeted, Offers,
          NoBlockTwice, Dom.Reaches;
      assert Riv.Distinct(tree) by { DistinctTree(f, tree); }
      var riv := Riv.Run(f, ints, tree);
      var targets := ChooseTargets(riv, order, draw);
      ghost var w := State();
      forall k | 0 <= k < |targets|
        ensures InRange(w, targets[k])
      {
        Dom.InTree(f, ints, tree, targets[k].0);
        Dom.ListedBelow(f, nextReg, nextLabel, ints, tree, targets[k].0, targets[k].1);
      }
      PassPreserves(f, nextReg, nextLabel, ints, tree, targets);
      PassShapes(f, nextReg, nextLabel, ints, tree, order, targets);
      DuplicateTargets(targets);
    }
  }

  predicate Targeted(targets: seq<(nat, nat)>, l: nat) { exists k :: 0 <= k < |targets| && targets[k].0 == l }

  /** Something is listed for block `l`. */
  predicate Offers(f: Fn, riv: Riv.Result, l: nat) { l in f.blocks && l in riv && riv[l] != {} }

  lemma NothingTargeted()
    ensures NoBlockTwice([]) && forall l :: !Targeted([], l)
  {
  }

  /** What the pass makes of block `l`: a split on a value that reaches it, if it is visited and one does. */
  ghost predicate Reshaped(f: Fn, ints: set<nat>, order: seq<nat>, w: Work, l: nat)
    requires l in f.blocks
  {
    if l in order && exists v :: Dom.Reaches(f, ints, v, l)
    then exists v :: Dom.Reaches(f, ints, v, l) && SplitOn(f, w, l, v)
    else l in w.f.blocks && Untouched(f.blocks[l], w.f.blocks[l])
  }

  lemma OneTarget(targets: seq<(nat, nat)>, bb: nat, v: nat)
    requires NoBlockTwice(targets) && !Targeted(targets, bb)
    ensures NoBlockTwice(targets + [(bb, v)])
    ensures forall l :: Targeted(targets + [(bb, v)], l) <==> Targeted(targets, l) || l == bb
  {
    var more := targets + [(bb, v)];
    assert more[|targets|].0 == bb;
    forall l | Targeted(targets, l)
      ensures Targeted(more, l)
    {
      var k :| 0 <= k < |targets| && targets[k].0 == l;
      assert more[k].0 == l;
    }
  }

  lemma PassShapes(f: Fn, reg: nat, lab: nat, ints: set<nat>, tree: Riv.Tree, order: seq<nat>, targets: seq<(nat, nat)>)
    requires Valid(Work(f, reg, lab, map[])) && Dom.IsDomTree(f, tree) && NoBlockTwice(targets)
    requires Dom.Chosen(f, Riv.Spread(f, tree, ints), targets)
    requires forall l :: Targeted(targets, l) <==> l in order && Offers(f, Riv.Spread(f, tree, ints), l)
    requires forall k :: 0 <= k < |targets| ==> InRange(Work(f, reg, lab, map[]), targets[k])
    ensures forall l :: l in f.blocks
              ==> Reshaped(f, ints, order, DuplicateAll(Work(f, reg, lab, map[]), targets), l)
  {
    hide Valid, Dom.IsDomTree, DuplicateAll, InRange, Stage, Dom.Reaches, Riv.Spread, NoBlockTwice, ValueFor, Reshaped,
        Targeted, Offers;
    var w := Work(f, reg, lab, map[]);
    forall l | l in f.blocks
      ensures Reshaped(f, ints, order, DuplicateAll(w, targets), l)
    {
      StartsUntouched(f, w, l);
      Below(w);
      AllShapes(f, w, targets, l, None);
      TargetReaches(f, ints, tree, targets, l);
      StageReshaped(f, ints, order, DuplicateAll(w, targets), l, ValueFor(targets, l));
    }
  }

  lemma StartsUntouched(f: Fn, w: Work, l: nat)
    requires w.f == f && l in f.blocks
    ensures Stage(f, w, l, None)
  {
  }

  lemma Below(w: Work)
    requires Valid(w)
    ensures forall b :: b in w.f.blocks ==> b < w.lab
  {
  }

  /** The value a block is paired with reaches it, and a block that a value reaches has something listed. */
  lemma TargetReaches(f: Fn, ints: set<nat>, tree: Riv.Tree, targets: seq<(nat, nat)>, l: nat)
    requires Dom.IsDomTree(f, tree) && Dom.Chosen(f, Riv.Spread(f, tree, ints), targets) && l in f.blocks
    ensures var o := ValueFor(targets, l);
            && (o.Some? <==> Targeted(targets, l)) && (o.Some? ==> Dom.Reaches(f, ints, o.value, l))
            && (Offers(f, Riv.Spread(f, tree, ints), l) <==> exists v :: Dom.Reaches(f, ints, v, l))
  {
    hide Dom.IsDomTree, Dom.Reaches, Riv.Spread, ValueFor;
    var riv := Riv.Spread(f, tree, ints);
    ValueForIff(targets, l);
    forall v
      ensures l in riv && v in riv[l] <==> Dom.Reaches(f, ints, v, l)
    {
      Dom.ListedIff(f, ints, tree, l, v);
    }
    if l in riv && riv[l] != {} {
      var v :| v in riv[l];
      assert Dom.Reaches(f, ints, v, l);
    }
  }

  lemma StageReshaped(f: Fn, ints: set<nat>, order: seq<nat>, w: Work, l: nat, o: Option<nat>)
    requires l in f.blocks && Stage(f, w, l, o)
    requires o.Some? <==> l in order && exists v :: Dom.Reaches(f, ints, v, l)
    requires o.Some? ==> Dom.Reaches(f, ints, o.value, l)
    ensures Reshaped(f, ints, order, w, l)
  {
    hide Dom.Reaches, SplitOn, Untouched;
  }

  /** Called with all its inputs, the result behaves like the original whenever the original is safe. */
  ghost predicate Preserved(f: Fn, g: Fn) {
    forall sem: Sem, regs: Regs :: regs.Keys == f.inputs && Safe(sem, f, regs)
      ==> SameBehaviour(sem, f, g, regs) && Safe(sem, g, regs)
  }

  lemma PassPreserves(f: Fn, reg: nat, lab: nat, ints: set<nat>, tree: Riv.Tree, targets: seq<(nat, nat)>)
    requires Bounded(f, reg, lab) && SingleDef(f) && Dom.EntryPlain(f) && Dom.IsDomTree(f, tree) && ints <= f.inputs
    requires Dom.Chosen(f, Riv.Spread(f, tree, ints), targets)
    ensures Preserved(f, DuplicateAll(Work(f, reg, lab, map[]), targets).f)
  {
    hide Bounded, SingleDef, Dom.EntryPlain, Dom.IsDomTree, Dom.Chosen, DuplicateAll, Safe, SameBehaviour;
    forall sem: Sem, regs: Regs | regs.Keys == f.inputs && Safe(sem, f, regs)
      ensures SameBehaviour(sem, f, DuplicateAll(Work(f, reg, lab, map[]), targets).f, regs)
              && Safe(sem, DuplicateAll(Work(f, reg, lab, map[]), targets).f, regs)
    {
      Dom.DuplicatePassCorrect(sem, f, reg, lab, ints, tree, targets, regs);
    }
  }

  lemma DistinctTree(f: Fn, tree: Riv.Tree)
    requires Dom.IsDomTree(f, tree)
    ensures Riv.Distinct(tree)
  {
  }

  lemma StartMaps(s: Split)
    ensures MapsTo(map[], s, 0, 0) && MapsTo(map[], s, 0, 1)
    ensures RenameBody([], FinalFn(s)) + Copy(s, 0, 0) == Copy(s, 0, 0)
            && RenameBody([], FinalFn(s)) + Copy(s, 0, 1) == Copy(s, 0, 1)
  {
  }

  lemma Appended(s: Split, n: nat, arm: nat, done: seq<Instr>, clone: Instr)
    requires n < |s.body| && RenameBody(done, FinalFn(s)) + Copy(s, n, arm) == Copy(s, 0, arm)
    requires clone.(args := RenameOps(clone.args, FinalFn(s))) == CopyOne(s, n, arm)
    ensures RenameBody(done + [clone], FinalFn(s)) + Copy(s, n + 1, arm) == Copy(s, 0, arm)
  {
    hide FinalFn, CopyOne;
    OneMoreRenamed(done, clone, FinalFn(s));
    hide RenameBody;
    assert Copy(s, n, arm) == [CopyOne(s, n, arm)] + Copy(s, n + 1, arm);
    hide Copy;
    assert RenameBody(done, FinalFn(s)) + [CopyOne(s, n, arm)] + Copy(s, n + 1, arm)
        == RenameBody(done, FinalFn(s)) + Copy(s, n, arm);
  }

  lemma OneMoreRenamed(done: seq<Instr>, i: Instr, f: Rename)
    ensures RenameBody(done + [i], f) == RenameBody(done, f) + [i.(args := RenameOps(i.args, f))]
  {
  }

  lemma TestOnly(check: Operand, s: Split)
    ensures RenameBody([Instr(Int, s.CondReg(), IsNull, [check])], FinalFn(s))
            == [Instr(Int, s.CondReg(), IsNull, [RenameOp(check, FinalFn(s))])]
  {
    assert RenameOps([check], FinalFn(s)) == [RenameOp(check, FinalFn(s))];
  }
}
