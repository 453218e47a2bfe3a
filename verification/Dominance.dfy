/**
 What the analysis computes, in terms of the control-flow graph and of runs: a block gets exactly the
 integer inputs and the integer values defined in its strict dominators, and all of them have been
 computed whenever a run gets there.
 */
module Dominance {
  import opened Ssa
  import opened Riv
  import opened DuplicateProof
  import opened Duplicate
  import opened DuplicateRun

  /** A way from the entry block along successors. */
  ghost predicate IsPath(f: Fn, p: seq<nat>) {
    && |p| > 0 && p[0] == f.entry
    && forall i :: 0 <= i < |p| - 1 ==> p[i] in f.blocks && p[i + 1] in f.blocks[p[i]].term.succs
  }

  ghost predicate PathTo(f: Fn, p: seq<nat>, l: nat) { IsPath(f, p) && p[|p| - 1] == l }

  ghost predicate Reachable(f: Fn, l: nat) { exists p: seq<nat> :: PathTo(f, p, l) }

  ghost predicate StrictlyDominates(f: Fn, d: nat, l: nat) {
    d != l && forall p: seq<nat> :: PathTo(f, p, l) ==> d in p
  }

  /** `d` is strictly above `l` in the tree. */
  predicate Above(t: Tree, d: nat, l: nat)
    decreases t, 0
  {
    (t.at == d && l in LabelsAll(t.children)) || AboveAll(t.children, d, l)
  }

  predicate AboveAll(ts: seq<Tree>, d: nat, l: nat)
    decreases ts, 1
  {
    ts != [] && (Above(ts[0], d, l) || AboveAll(ts[1..], d, l))
  }

  /** The tree holds the reachable blocks, each below its strict dominators. */
  ghost predicate IsDomTree(f: Fn, t: Tree) {
    && Distinct(t) && t.at == f.entry
    && (forall l :: l in Labels(t) <==> Reachable(f, l))
    && forall d, l :: d in Labels(t) && l in Labels(t) ==> (Above(t, d, l) <==> StrictlyDominates(f, d, l))
  }

  lemma {:induction false} AboveIn(t: Tree, d: nat, l: nat)
    requires Above(t, d, l)
    ensures d in Labels(t) && l in LabelsAll(t.children)
    decreases t, 0
  {
    if !(t.at == d && l in LabelsAll(t.children)) {
      AboveAllIn(t.children, d, l);
    }
  }

  lemma {:induction false} AboveAllIn(ts: seq<Tree>, d: nat, l: nat)
    requires AboveAll(ts, d, l)
    ensures d in LabelsAll(ts) && l in LabelsAll(ts)
    decreases ts, 1
  {
    if Above(ts[0], d, l) {
      AboveIn(ts[0], d, l);
    } else {
      AboveAllIn(ts[1..], d, l);
    }
  }

  /** What a block of the tree gets: the root's set and the definitions of the blocks above it. */
  lemma {:induction false} SpreadExact(f: Fn, t: Tree, acc: set<nat>, l: nat, v: nat)
    requires Distinct(t) && l in Labels(t)
    ensures l in Spread(f, t, acc)
    ensures v in Spread(f, t, acc)[l] <==> v in acc || exists d :: Above(t, d, l) && v in DefsAt(f, d)
    decreases t, 0
  {
    hide DefsAt;
    SpreadKeys(f, t, acc);
    var acc1 := acc + DefsAt(f, t.at);
    SpreadAllKeys(f, t.children, acc1);
    if l in LabelsAll(t.children) {
      SpreadAllExact(f, t.children, acc1, l, v);
      assert Above(t, t.at, l);
    } else {
      forall d
        ensures !Above(t, d, l)
      {
        if Above(t, d, l) {
          AboveIn(t, d, l);
        }
      }
    }
  }

  lemma {:induction false} SpreadAllExact(f: Fn, ts: seq<Tree>, acc: set<nat>, l: nat, v: nat)
    requires DistinctAll(ts) && l in LabelsAll(ts)
    ensures l in SpreadAll(f, ts, acc)
    ensures v in SpreadAll(f, ts, acc)[l] <==> v in acc || exists d :: AboveAll(ts, d, l) && v in DefsAt(f, d)
    decreases ts, 1
  {
    hide DefsAt, Spread, Above, Labels;
    SpreadAllKeys(f, ts, acc);
    SpreadKeys(f, ts[0], acc);
    SpreadAllKeys(f, ts[1..], acc);
    NotBoth(ts, l);
    if l in Labels(ts[0]) {
      SpreadExact(f, ts[0], acc, l, v);
    } else {
      SpreadAllExact(f, ts[1..], acc, l, v);
    }
  }

  /** A label of one tree is not below anything in the others. */
  lemma NotBoth(ts: seq<Tree>, l: nat)
    requires ts != [] && DistinctAll(ts)
    ensures l in Labels(ts[0]) ==> forall d :: !AboveAll(ts[1..], d, l)
    ensures l !in Labels(ts[0]) ==> forall d :: !Above(ts[0], d, l)
  {
    forall d
      ensures l in Labels(ts[0]) ==> !AboveAll(ts[1..], d, l)
      ensures l !in Labels(ts[0]) ==> !Above(ts[0], d, l)
    {
      if AboveAll(ts[1..], d, l) {
        AboveAllIn(ts[1..], d, l);
      }
      if Above(ts[0], d, l) {
        AboveIn(ts[0], d, l);
      }
    }
  }

  /**
   The result for each reachable block: the inputs and the definitions of its strict dominators, no more and
   no less.
   */
  lemma RivExact(f: Fn, ints: set<nat>, t: Tree, l: nat, v: nat)
    requires IsDomTree(f, t) && Reachable(f, l)
    ensures l in Spread(f, t, ints)
    ensures v in Spread(f, t, ints)[l]
            <==> v in ints || exists d :: Reachable(f, d) && StrictlyDominates(f, d, l) && v in DefsAt(f, d)
  {
    hide Spread, Labels, Distinct, StrictlyDominates, Reachable, DefsAt, Above;
    assert l in Labels(t);
    SpreadExact(f, t, ints, l, v);
    forall d
      ensures Above(t, d, l) <==> Reachable(f, d) && StrictlyDominates(f, d, l)
    {
      if Above(t, d, l) {
        AboveIn(t, d, l);
      }
    }
  }

  /** A phi or an instruction of the block has an integer result in `v`. */
  ghost predicate DefinesInt(x: Block, v: nat) {
    || (exists k :: 0 <= k < |x.phis| && x.phis[k].ty == Int && x.phis[k].dst == v)
    || (exists k :: 0 <= k < |x.body| && x.body[k].ty == Int && x.body[k].dst == v)
  }

  /** An integer input, or defined in a reachable block that strictly dominates the reachable block `l`. */
  ghost predicate Reaches(f: Fn, ints: set<nat>, v: nat, l: nat) {
    && Reachable(f, l)
    && (v in ints || exists d :: d in f.blocks && Reachable(f, d) && StrictlyDominates(f, d, l)
                                 && DefinesInt(f.blocks[d], v))
  }

  lemma DefsExact(x: Block, v: nat)
    ensures v in IntDefs(x) <==> DefinesInt(x, v)
  {
  }

  /** The analysis lists for a block the values that reach it, and nothing for a block that is unreachable. */
  lemma ListedIff(f: Fn, ints: set<nat>, t: Tree, l: nat, v: nat)
    requires IsDomTree(f, t)
    ensures l in Spread(f, t, ints) && v in Spread(f, t, ints)[l] <==> Reaches(f, ints, v, l)
  {
    hide Spread, IsDomTree, StrictlyDominates, Reachable, IntDefs, DefinesInt;
    if l in Spread(f, t, ints) {
      InTree(f, ints, t, l);
    }
    if Reachable(f, l) {
      RivExact(f, ints, t, l, v);
      forall d | d in f.blocks
        ensures v in DefsAt(f, d) <==> DefinesInt(f.blocks[d], v)
      {
        DefsExact(f.blocks[d], v);
      }
    }
  }

  // ----- Runs -----

  /** The blocks a run has been in after `n` steps. */
  ghost function Visited(sem: Sem, f: Fn, n: nat, s: State): seq<nat>
    requires forall i: nat :: i <= n ==> Steps(sem, f, i, s).Run?
    decreases n
  {
    if n == 0 then [Steps(sem, f, 0, s).at] else Visited(sem, f, n - 1, s) + [Steps(sem, f, n, s).at]
  }

  lemma {:induction false} RunningBefore(sem: Sem, f: Fn, i: nat, n: nat, s: State)
    requires i <= n && Steps(sem, f, n, s).Run?
    ensures Steps(sem, f, i, s).Run?
  {
    if !Steps(sem, f, i, s).Run? {
      StoppedStays(sem, f, i, n, s);
    }
  }

  lemma StepGoesToSuccessor(sem: Sem, f: Fn, s: State)
    requires s.Run? && Step(sem, f, s).Run?
    ensures s.at in f.blocks && Step(sem, f, s).at in f.blocks[s.at].term.succs
  {
  }

  lemma {:induction false} VisitedIsPath(sem: Sem, f: Fn, n: nat, regs: Regs)
    requires forall i: nat :: i <= n ==> Steps(sem, f, i, Start(f, regs)).Run?
    ensures var p := Visited(sem, f, n, Start(f, regs));
            && |p| == n + 1 && PathTo(f, p, Steps(sem, f, n, Start(f, regs)).at)
            && forall i: nat :: i <= n ==> p[i] == Steps(sem, f, i, Start(f, regs)).at
    decreases n
  {
    hide Step;
    if n > 0 {
      VisitedIsPath(sem, f, n - 1, regs);
      assert Step(sem, f, Steps(sem, f, n - 1, Start(f, regs))) == Steps(sem, f, n, Start(f, regs));
      StepGoesToSuccessor(sem, f, Steps(sem, f, n - 1, Start(f, regs)));
    }
  }

  lemma {:induction false} ExecAllGrows(sem: Sem, body: seq<Instr>, l: Local)
    requires ExecAll(sem, body, l).Some?
    ensures forall r :: r in l.regs ==> r in ExecAll(sem, body, l).value.regs
    ensures forall k :: 0 <= k < |body| && !body[k].ty.Void? ==> body[k].dst in ExecAll(sem, body, l).value.regs
    decreases |body|
  {
    if body != [] {
      ExecAllGrows(sem, body[1..], Exec(sem, body[0], l).value);
      assert forall k :: 1 <= k < |body| ==> body[k] == body[1..][k - 1];
    }
  }

  lemma {:induction false} ExecPhisGrows(phis: seq<Phi>, pred: nat, regs: Regs, acc: Regs)
    requires ExecPhis(phis, pred, regs, acc).Some?
    ensures forall r :: r in acc ==> r in ExecPhis(phis, pred, regs, acc).value
    ensures forall k :: 0 <= k < |phis| ==> phis[k].dst in ExecPhis(phis, pred, regs, acc).value
    decreases |phis|
  {
    if phis != [] {
      var v := ValueOf(regs, Incoming(phis[0].incoming, pred).value).value;
      ExecPhisGrows(phis[1..], pred, regs, acc[phis[0].dst := v]);
      assert forall k :: 1 <= k < |phis| ==> phis[k] == phis[1..][k - 1];
    }
  }

  /**
   One step keeps what is known and adds what the block's instructions define; the next block's phis are
   known on arrival.
   */
  lemma StepGrows(sem: Sem, f: Fn, s: State)
    requires s.Run? && Step(sem, f, s).Run?
    ensures var n := Step(sem, f, s);
            && s.at in f.blocks && n.at in f.blocks
            && (forall r :: r in s.regs ==> r in n.regs)
            && (forall k :: 0 <= k < |f.blocks[s.at].body| && !f.blocks[s.at].body[k].ty.Void?
                  ==> f.blocks[s.at].body[k].dst in n.regs)
            && (forall k :: 0 <= k < |f.blocks[n.at].phis| ==> f.blocks[n.at].phis[k].dst in n.regs)
  {
    var b := f.blocks[s.at];
    ExecAllGrows(sem, b.body, Local(s.regs, s.trace));
    var l := ExecAll(sem, b.body, Local(s.regs, s.trace)).value;
    var n := Step(sem, f, s);
    ExecPhisGrows(f.blocks[n.at].phis, s.at, l.regs, l.regs);
  }

  lemma {:induction false} RegsGrow(sem: Sem, f: Fn, i: nat, n: nat, s: State)
    requires i <= n && forall j: nat :: j <= n ==> Steps(sem, f, j, s).Run?
    ensures forall r :: r in Steps(sem, f, i, s).regs ==> r in Steps(sem, f, n, s).regs
    decreases n
  {
    hide Step;
    if i < n {
      RegsGrow(sem, f, i, n - 1, s);
      assert Step(sem, f, Steps(sem, f, n - 1, s)) == Steps(sem, f, n, s);
      StepGrows(sem, f, Steps(sem, f, n - 1, s));
    }
  }

  ghost predicate EntryPlain(f: Fn) {
    f.entry in f.blocks && f.blocks[f.entry].phis == []
  }

  /** A value defined in a strict dominator has been computed when control arrives. */
  lemma DefinedAbove(sem: Sem, f: Fn, regs: Regs, d: nat, l: nat, v: nat)
    requires StrictlyDominates(f, d, l) && v in DefsAt(f, d) && EntryPlain(f)
    ensures Available(sem, f, regs, l, Reg(v))
  {
    hide StrictlyDominates, Step, IsPath, IntDefs;
    var s := Start(f, regs);
    forall n: nat | Steps(sem, f, n, s).Run? && Steps(sem, f, n, s).at == l
      ensures v in Steps(sem, f, n, s).regs
    {
      forall i: nat | i <= n
        ensures Steps(sem, f, i, s).Run?
      {
        RunningBefore(sem, f, i, n, s);
      }
      VisitedIsPath(sem, f, n, regs);
      var p := Visited(sem, f, n, s);
      assert d in p by { OnPath(f, d, l, p); }
      var j :| 0 <= j < |p| && p[j] == d;
      assert d != l by { assert StrictlyDominates(f, d, l); NotSelf(f, d, l); }
      assert j < n;
      DefinedAt(sem, f, s, j, v);
      RegsGrow(sem, f, j + 1, n, s);
    }
  }

  lemma OnPath(f: Fn, d: nat, l: nat, p: seq<nat>)
    requires StrictlyDominates(f, d, l) && PathTo(f, p, l)
    ensures d in p
  {
  }

  lemma NotSelf(f: Fn, d: nat, l: nat)
    requires StrictlyDominates(f, d, l)
    ensures d != l
  {
  }

  lemma DefinedAt(sem: Sem, f: Fn, s: State, j: nat, v: nat)
    requires s.Run? && s.at == f.entry && EntryPlain(f)
    requires Steps(sem, f, j, s).Run? && Steps(sem, f, j + 1, s).Run? && v in DefsAt(f, Steps(sem, f, j, s).at)
    ensures v in Steps(sem, f, j + 1, s).regs
  {
    hide Step;
    var here := Steps(sem, f, j, s);
    assert Step(sem, f, here) == Steps(sem, f, j + 1, s);
    StepGrows(sem, f, here);
    if j > 0 {
      RunningBefore(sem, f, j - 1, j, s);
      assert Step(sem, f, Steps(sem, f, j - 1, s)) == here;
      StepGrows(sem, f, Steps(sem, f, j - 1, s));
    }
  }

  lemma {:induction false} InputsStay(sem: Sem, f: Fn, n: nat, regs: Regs, v: nat)
    requires v in regs && Steps(sem, f, n, Start(f, regs)).Run?
    ensures v in Steps(sem, f, n, Start(f, regs)).regs
  {
    if n > 0 {
      RunningBefore(sem, f, n - 1, n, Start(f, regs));
      InputsStay(sem, f, n - 1, regs, v);
      StepGrows(sem, f, Steps(sem, f, n - 1, Start(f, regs)));
    }
  }

  /** Every value listed for a block has been computed on every run that gets to the block. */
  lemma RivAvailable(sem: Sem, f: Fn, ints: set<nat>, t: Tree, regs: Regs, l: nat, v: nat)
    requires IsDomTree(f, t) && EntryPlain(f) && Reachable(f, l) && ints <= regs.Keys
    requires l in Spread(f, t, ints) && v in Spread(f, t, ints)[l]
    ensures Available(sem, f, regs, l, Reg(v))
  {
    hide Spread, IsDomTree, StrictlyDominates, Reachable, DefsAt, Steps;
    RivExact(f, ints, t, l, v);
    if v in ints {
      forall n: nat | Steps(sem, f, n, Start(f, regs)).Run? && Steps(sem, f, n, Start(f, regs)).at == l
        ensures v in Steps(sem, f, n, Start(f, regs)).regs
      {
        InputsStay(sem, f, n, regs, v);
      }
    } else {
      var d :| Reachable(f, d) && StrictlyDominates(f, d, l) && v in DefsAt(f, d);
      DefinedAbove(sem, f, regs, d, l, v);
    }
  }

  // ----- The pass with its analysis -----

  /** The targets are blocks paired with one of the values the analysis lists for them. */
  ghost predicate Chosen(f: Fn, riv: Riv.Result, targets: seq<(nat, nat)>) {
    forall k :: 0 <= k < |targets|
      ==> targets[k].0 in f.blocks && targets[k].0 in riv && targets[k].1 in riv[targets[k].0]
  }

  /**
   The whole pass on a valid function: whichever values are drawn and in whichever order the blocks are
   taken, the result behaves like the original and is valid again.
   */
  lemma DuplicatePassCorrect(sem: Sem, f: Fn, reg: nat, lab: nat, ints: set<nat>, t: Tree, targets: seq<(nat, nat)>,
                             regs: Regs)
    requires Bounded(f, reg, lab) && SingleDef(f) && EntryPlain(f) && IsDomTree(f, t) && ints <= f.inputs
    requires Chosen(f, Spread(f, t, ints), targets) && regs.Keys == f.inputs && Safe(sem, f, regs)
    ensures var w := DuplicateAll(Work(f, reg, lab, map[]), targets);
            SameBehaviour(sem, f, w.f, regs) && Safe(sem, w.f, regs) && Valid(w)
  {
    hide SingleDef, EntryPlain, IsDomTree, Spread, Safe, DuplicateAll, SameBehaviour, Available, BlockBelow;
    var w := Work(f, reg, lab, map[]);
    forall k | 0 <= k < |targets|
      ensures TargetOk(sem, w, regs, targets[k])
    {
      var (l, v) := targets[k];
      InTree(f, ints, t, l);
      RivAvailable(sem, f, ints, t, regs, l, v);
      ListedBelow(f, reg, lab, ints, t, l, v);
    }
    assert Valid(w) by { Fresh(f, reg, lab); }
    RunPreserves(sem, w, targets, regs);
  }

  lemma Fresh(f: Fn, reg: nat, lab: nat)
    requires Bounded(f, reg, lab) && SingleDef(f)
    ensures Valid(Work(f, reg, lab, map[]))
  {
  }

  lemma InTree(f: Fn, ints: set<nat>, t: Tree, l: nat)
    requires IsDomTree(f, t) && l in Spread(f, t, ints)
    ensures Reachable(f, l)
  {
    SpreadKeys(f, t, ints);
  }

  lemma ListedBelow(f: Fn, reg: nat, lab: nat, ints: set<nat>, t: Tree, l: nat, v: nat)
    requires Bounded(f, reg, lab) && IsDomTree(f, t) && Reachable(f, l) && ints <= f.inputs
    requires l in Spread(f, t, ints) && v in Spread(f, t, ints)[l]
    ensures v < reg
  {
    hide Spread, IsDomTree, StrictlyDominates, Reachable, BlockBelow, DefsAt;
    RivExact(f, ints, t, l, v);
    if v !in ints {
      var d :| Reachable(f, d) && StrictlyDominates(f, d, l) && v in DefsAt(f, d);
      DefBelow(f, reg, lab, d, v);
    }
  }

  lemma DefBelow(f: Fn, reg: nat, lab: nat, d: nat, v: nat)
    requires Bounded(f, reg, lab) && v in DefsAt(f, d)
    ensures v < reg
  {
    var x := f.blocks[d];
    assert BlockBelow(x, reg, lab);
    if k :| 0 <= k < |x.phis| && x.phis[k].dst == v {
      assert PhiBelow(x.phis[k], reg, lab);
    } else {
      var k :| 0 <= k < |x.body| && x.body[k].ty.Int? && x.body[k].dst == v;
      assert InstrBelow(x.body[k], reg);
    }
  }
}
