/**
 The whole `MergeBB` pass as it runs: blocks are compared by walking both backwards, branches are
 redirected in place, and the blocks collected on the way are deleted at the end.
 */
module MergePass {
  import opened Prelude
  import opened Ssa
  import opened Merge
  import opened MergeProof

  // ----- When a merge is right for blocks with phis -----

  function EntriesFor(incoming: seq<(nat, Operand)>, p: nat): nat {
    if incoming == [] then 0 else (if incoming[0].0 == p then 1 else 0) + EntriesFor(incoming[1..], p)
  }

  function Edges(succs: seq<nat>, l: nat): nat {
    if succs == [] then 0 else (if succs[0] == l then 1 else 0) + Edges(succs[1..], l)
  }

  /** The phis of block `l` have as many entries for each block as it has branches to `l`. */
  ghost predicate EntryPerEdge(f: Fn, l: nat)
    requires l in f.blocks
  {
    forall i, p: nat :: 0 <= i < |f.blocks[l].phis|
      ==> EntriesFor(f.blocks[l].phis[i].incoming, p) == if p in f.blocks then Edges(f.blocks[p].term.succs, l) else 0
  }

  lemma {:induction false} EdgesAfter(succs: seq<nat>, a: nat, b: nat, l: nat)
    requires a != b && l != a
    ensures Edges(RedirectSuccs(succs, a, b), l) == Edges(succs, l) + if l == b then Edges(succs, a) else 0
  {
    if succs != [] {
      EdgesAfter(succs[1..], a, b, l);
      assert RedirectSuccs(succs, a, b)[1..] == RedirectSuccs(succs[1..], a, b);
    }
  }

  lemma {:induction false} NoEdges(succs: seq<nat>, l: nat)
    ensures Edges(succs, l) == 0 <==> l !in succs
  {
    if succs != [] {
      NoEdges(succs[1..], l);
      assert l in succs <==> l == succs[0] || l in succs[1..];
    }
  }

  /**
   The merge moves branches but adds no phi entries.  Every remaining block has one entry for each branch
   to it exactly when the erased block had no phis, or nothing branched to it.
   */
  lemma MergeEntriesIff(f: Fn, a: nat, b: nat, deleted: set<nat>)
    requires Mergeable(f, a, b, deleted) && forall l :: l in f.blocks ==> EntryPerEdge(f, l)
    ensures (forall l :: l in f.blocks && l != a ==> EntryPerEdge(Redirect(f, a, b), l))
      <==> f.blocks[a].phis == [] || Preds(f, a) == {}
  {
    hide Mergeable, Redirect, EntriesFor, Edges;
    MergedPhis(f, a, b, deleted);
    var g := Redirect(f, a, b);
    RedirectedKeys(f, a, b);
    if f.blocks[a].phis != [] && Preds(f, a) != {} {
      var p :| p in Preds(f, a);
      NoEdges(f.blocks[p].term.succs, a);
      RedirectedEdges(f, a, b, p, b);
      RedirectedEdges(f, a, b, b, b);
      assert EntryPerEdge(f, b);
      assert EntriesFor(f.blocks[b].phis[0].incoming, p) == Edges(f.blocks[p].term.succs, b);
      assert !EntryPerEdge(g, b);
    } else {
      forall l | l in f.blocks && l != a
        ensures EntryPerEdge(g, l)
      {
        EntriesKept(f, a, b, l);
      }
    }
  }

  lemma EntriesKept(f: Fn, a: nat, b: nat, l: nat)
    requires a != b && l in f.blocks && l != a && EntryPerEdge(f, l) && l in Redirect(f, a, b).blocks
    requires l == b ==> f.blocks[b].phis == [] || Preds(f, a) == {}
    ensures EntryPerEdge(Redirect(f, a, b), l)
  {
    hide Redirect, EntriesFor, Edges;
    var g := Redirect(f, a, b);
    RedirectedKeys(f, a, b);
    RedirectedEdges(f, a, b, l, l);
    forall i, p: nat | 0 <= i < |g.blocks[l].phis|
      ensures EntriesFor(g.blocks[l].phis[i].incoming, p)
              == if p in g.blocks then Edges(g.blocks[p].term.succs, l) else 0
    {
      if p in f.blocks {
        RedirectedEdges(f, a, b, p, l);
        NoEdges(f.blocks[p].term.succs, a);
        assert p in Preds(f, a) <==> a in f.blocks[p].term.succs;
      }
    }
  }

  lemma RedirectedKeys(f: Fn, a: nat, b: nat)
    ensures Redirect(f, a, b).blocks.Keys == f.blocks.Keys
  {
  }

  lemma RedirectedEdges(f: Fn, a: nat, b: nat, p: nat, l: nat)
    requires a != b && p in f.blocks && l != a
    ensures var g := Redirect(f, a, b);
            && p in g.blocks && g.blocks[p].phis == f.blocks[p].phis
            && Edges(g.blocks[p].term.succs, l)
               == Edges(f.blocks[p].term.succs, l) + if l == b then Edges(f.blocks[p].term.succs, a) else 0
  {
    EdgesAfter(f.blocks[p].term.succs, a, b, l);
  }

  lemma MergedPhis(f: Fn, a: nat, b: nat, deleted: set<nat>)
    requires Mergeable(f, a, b, deleted)
    ensures a in f.blocks && b in f.blocks && a != b && |f.blocks[a].phis| == |f.blocks[b].phis|
  {
    assert SameItems(f.blocks[a], f.blocks[b]) by { hide Items, SameOperation; }
    SamePhis(f.blocks[a], f.blocks[b]);
  }

  /** What a phi takes when control comes from `p`. */
  function PhiValue(phi: Phi, p: nat, regs: Regs): Option<int> {
    match Incoming(phi.incoming, p)
    case None => None
    case Some(op) => ValueOf(regs, op)
  }

  /** Entered from a block that branches to `a`, the phis of `b` take the values that those of `a` take. */
  ghost predicate EntersAlike(f: Fn, a: nat, b: nat)
    requires a in f.blocks && b in f.blocks && |f.blocks[a].phis| == |f.blocks[b].phis|
  {
    forall p, i, regs: Regs :: p in Preds(f, a) && 0 <= i < |f.blocks[a].phis|
      ==> PhiValue(f.blocks[a].phis[i], p, regs) == PhiValue(f.blocks[b].phis[i], p, regs)
  }

  /** Some registers tell different operands apart. */
  lemma Distinguished(u: Option<Operand>, v: Option<Operand>) returns (regs: Regs)
    ensures u != v ==>
      (if u.Some? then ValueOf(regs, u.value) else None) != (if v.Some? then ValueOf(regs, v.value) else None)
  {
    regs := map[];
    if u.Some? && u.value.Reg? {
      regs := map[u.value.r := 0];
      if v.Some? && v.value.Const? {
        regs := map[u.value.r := v.value.v + 1];
      }
    } else if v.Some? && v.value.Reg? {
      regs := map[v.value.r := if u.Some? then u.value.v + 1 else 0];
    }
  }

  /**
   The merge compares phi operands but not the blocks they come from.  Entering the kept block does what
   entering the erased one did exactly when the phis have the same entries for the blocks that branch there.
   */
  lemma EntersAlikeIff(f: Fn, a: nat, b: nat, deleted: set<nat>)
    requires Mergeable(f, a, b, deleted)
    ensures a in f.blocks && b in f.blocks && |f.blocks[a].phis| == |f.blocks[b].phis|
    ensures EntersAlike(f, a, b) <==> SameEntries(f, a, b)
  {
    hide Mergeable, Preds;
    MergedPhis(f, a, b, deleted);
    if EntersAlike(f, a, b) {
      forall p, i | p in Preds(f, a) && 0 <= i < |f.blocks[a].phis|
        ensures Incoming(f.blocks[a].phis[i].incoming, p) == Incoming(f.blocks[b].phis[i].incoming, p)
      {
        var regs := Distinguished(Incoming(f.blocks[a].phis[i].incoming, p), Incoming(f.blocks[b].phis[i].incoming, p));
        assert PhiValue(f.blocks[a].phis[i], p, regs) == PhiValue(f.blocks[b].phis[i], p, regs);
      }
    }
  }

  function Jump(phis: seq<Phi>, to: nat): Block { Block(phis, [], Term(Br, [], [to])) }

  /** Blocks 3 and 4 have a phi each, with the same operand from different predecessors. */
  const LOSSY := Fn(0, {0}, map[
    0 := Block([], [], Term(CondBr, [Reg(0)], [1, 2])),
    1 := Jump([], 3),
    2 := Jump([], 4),
    3 := Jump([Phi(Int, 1, [(1, Const(7))])], 5),
    4 := Jump([Phi(Int, 2, [(2, Const(7))])], 5),
    5 := Block([], [], Term(Ret, [], []))])

  /** Block 3 is redirected to 4, whose phi has no entry for block 1. */
  lemma MergeCanLoseEntries(sem: Sem)
    ensures Mergeable(LOSSY, 3, 4, {})
    ensures Steps(sem, LOSSY, 4, Start(LOSSY, map[0 := 1])) == Finished([], [])
    ensures Steps(sem, Redirect(LOSSY, 3, 4), 2, Start(LOSSY, map[0 := 1])) == Stuck
  {
    LossyMerges();
    LossyRuns(sem);
    LossyStuck(sem);
  }

  lemma LossyMerges()
    ensures Mergeable(LOSSY, 3, 4, {})
  {
    var x, y := LOSSY.blocks[3], LOSSY.blocks[4];
    assert Items(x) == [P(x.phis[0])] && Items(y) == [P(y.phis[0])];
    assert PhiOperands(x.phis[0]) == [Const(7)] == PhiOperands(y.phis[0]);
    assert Uses(LOSSY, 1) == {} && Uses(LOSSY, 2) == {};
  }

  lemma LossyRuns(sem: Sem)
    ensures Steps(sem, LOSSY, 4, Start(LOSSY, map[0 := 1])) == Finished([], [])
  {
    var s0 := Start(LOSSY, map[0 := 1]);
    assert ValuesOf(map[0 := 1], [Reg(0)]) == Some([1]) by { OneValueOf(map[0 := 1], Reg(0)); }
    assert Step(sem, LOSSY, s0) == Run(1, map[0 := 1], []);
    assert Step(sem, LOSSY, Run(1, map[0 := 1], [])) == Run(3, map[0 := 1, 1 := 7], []);
    var regs := map[0 := 1, 1 := 7];
    assert Step(sem, LOSSY, Run(3, regs, [])) == Run(5, regs, []);
    assert Step(sem, LOSSY, Run(5, regs, [])) == Finished([], []);
    assert Steps(sem, LOSSY, 1, s0) == Run(1, map[0 := 1], []);
    assert Steps(sem, LOSSY, 2, s0) == Run(3, regs, []);
    assert Steps(sem, LOSSY, 3, s0) == Run(5, regs, []);
  }

  lemma OneValueOf(regs: Regs, op: Operand)
    requires ValueOf(regs, op).Some?
    ensures ValuesOf(regs, [op]) == Some([ValueOf(regs, op).value])
  {
    assert [op][1..] == [];
    assert ValuesOf(regs, [op][1..]) == Some([]);
    assert [ValueOf(regs, op).value] + [] == [ValueOf(regs, op).value];
  }

  lemma LossyStuck(sem: Sem)
    ensures Steps(sem, Redirect(LOSSY, 3, 4), 2, Start(LOSSY, map[0 := 1])) == Stuck
  {
    var g := Redirect(LOSSY, 3, 4);
    var s0 := Start(LOSSY, map[0 := 1]);
    assert g.blocks[1].term.succs == [4];
    assert ValuesOf(map[0 := 1], [Reg(0)]) == Some([1]) by { OneValueOf(map[0 := 1], Reg(0)); }
    assert Step(sem, g, s0) == Run(1, map[0 := 1], []);
    assert Steps(sem, g, 1, s0) == Run(1, map[0 := 1], []);
    assert Incoming(g.blocks[4].phis[0].incoming, 1) == None;
    assert Step(sem, g, Run(1, map[0 := 1], [])) == Stuck;
  }

  /** Blocks 3 and 4 have a phi each, over 7 and 8 from blocks 1 and 2, the other way round. */
  const SWAP := Fn(0, {0, 1}, map[
    0 := Block([], [], Term(CondBr, [Reg(0)], [1, 2])),
    1 := Block([], [], Term(CondBr, [Reg(1)], [3, 4])),
    2 := Block([], [], Term(CondBr, [Reg(1)], [3, 4])),
    3 := Jump([Phi(Int, 2, [(1, Const(7)), (2, Const(8))])], 5),
    4 := Jump([Phi(Int, 3, [(2, Const(7)), (1, Const(8))])], 5),
    5 := Block([Phi(Int, 4, [(3, Reg(2)), (4, Reg(3))])], [], Term(Ret, [Reg(4)], []))])

  /** Even when every phi has an entry for every predecessor, the result can change: here from 7 to 8. */
  lemma MergeCanSwapEntries(sem: Sem)
    ensures Mergeable(SWAP, 3, 4, {})
    ensures Steps(sem, SWAP, 4, Start(SWAP, map[0 := 1, 1 := 1])) == Finished([7], [])
    ensures Steps(sem, Redirect(SWAP, 3, 4), 4, Start(SWAP, map[0 := 1, 1 := 1])) == Finished([8], [])
  {
    SwapMerges();
    SwapRuns(sem);
    SwappedRuns(sem);
  }

  lemma SwapMerges()
    ensures Mergeable(SWAP, 3, 4, {})
  {
    SwapPhis();
    SwapIdentical();
    hide PhiAgrees, AllIdentical, Items, Uses;
  }

  lemma SwapPhis()
    ensures PhiAgrees(SWAP, 3, 4, 5)
  {
    var x, y := SWAP.blocks[3], SWAP.blocks[4];
    assert Items(x)[0].Dst() == 2 && Items(y)[0].Dst() == 3;
    assert SWAP.blocks[5].phis[0].incoming[1..] == [(4, Reg(3))];
  }

  lemma SwapIdentical()
    ensures AllIdentical(SWAP, 3, 4, 5)
  {
    var x, y := SWAP.blocks[3], SWAP.blocks[4];
    assert Items(x) == [P(x.phis[0])] && Items(y) == [P(y.phis[0])];
    assert PhiOperands(x.phis[0]) == [Const(7), Const(8)] == PhiOperands(y.phis[0]);
    SwapUses(2, 0);
    SwapUses(3, 1);
    assert Incoming(SWAP.blocks[5].phis[0].incoming, 3) == Some(Reg(2));
    assert Incoming(SWAP.blocks[5].phis[0].incoming, 4) == Some(Reg(3)) by {
      assert SWAP.blocks[5].phis[0].incoming[1..] == [(4, Reg(3))];
    }
    hide Uses, Incoming;
    assert Identical(SWAP, 3, 4, 5, Items(x)[0], Items(y)[0]);
  }

  lemma SwapUses(r: nat, k: nat)
    requires (r, k) in {(2, 0), (3, 1)}
    ensures Uses(SWAP, r) == {AtPhi(5, 0, k)}
  {
    assert PhiUses(5, SWAP.blocks[5], r) == {AtPhi(5, 0, k)};
    assert BlockUses(5, SWAP.blocks[5], r) == {AtPhi(5, 0, k)};
    assert forall l :: l in {0, 1, 2, 3, 4} ==> BlockUses(l, SWAP.blocks[l], r) == {};
  }

  lemma SwapStart(sem: Sem, f: Fn)
    requires f.entry == 0 && 0 in f.blocks && 1 in f.blocks && f.blocks[0] == SWAP.blocks[0] && f.blocks[1].phis == []
    ensures Steps(sem, f, 1, Start(f, map[0 := 1, 1 := 1])) == Run(1, map[0 := 1, 1 := 1], [])
  {
    var regs := map[0 := 1, 1 := 1];
    OneValueOf(regs, Reg(0));
    assert Step(sem, f, Start(f, regs)) == Run(1, regs, []);
    assert Steps(sem, f, 0, Start(f, regs)) == Start(f, regs);
  }

  lemma SwapRuns(sem: Sem)
    ensures Steps(sem, SWAP, 4, Start(SWAP, map[0 := 1, 1 := 1])) == Finished([7], [])
  {
    var regs := map[0 := 1, 1 := 1];
    var s0 := Start(SWAP, regs);
    SwapStart(sem, SWAP);
    OneValueOf(regs, Reg(1));
    assert Step(sem, SWAP, Run(1, regs, [])) == Run(3, regs[2 := 7], []);
    SwapLeave(sem, SWAP, regs[2 := 7], 3, 7, s0);
  }

  /** The last two blocks, once the phi of block `l` has been given `v`. */
  lemma SwapLeave(sem: Sem, f: Fn, regs: Regs, l: nat, v: int, s0: State)
    requires l in {3, 4} && l in f.blocks && 5 in f.blocks && f.blocks[l] == SWAP.blocks[l]
             && f.blocks[5] == SWAP.blocks[5]
    requires Steps(sem, f, 2, s0) == Run(l, regs, []) && l - 1 in regs && regs[l - 1] == v
    ensures Steps(sem, f, 4, s0) == Finished([v], [])
  {
    var incoming := f.blocks[5].phis[0].incoming;
    assert incoming[1..] == [(4, Reg(3))];
    assert Incoming(incoming, l) == Some(Reg(l - 1));
    var after := regs[4 := v];
    assert f.blocks[5].phis[1..] == [];
    assert Step(sem, f, Run(l, regs, [])) == Run(5, after, []);
    OneValueOf(after, Reg(4));
    assert Step(sem, f, Run(5, after, [])) == Finished([v], []);
    assert Steps(sem, f, 3, s0) == Run(5, after, []);
  }

  lemma SwappedRuns(sem: Sem)
    ensures Steps(sem, Redirect(SWAP, 3, 4), 4, Start(SWAP, map[0 := 1, 1 := 1])) == Finished([8], [])
  {
    var g := Redirect(SWAP, 3, 4);
    var regs := map[0 := 1, 1 := 1];
    var s0 := Start(g, regs);
    assert g.blocks[0].term.succs == [1, 2] && g.blocks[1].term.succs == [4, 4];
    assert g.blocks[4].term.succs == [5] && g.blocks[5].term.succs == [];
    SwapStart(sem, g);
    OneValueOf(regs, Reg(1));
    assert g.blocks[4].phis[0].incoming[1..] == [(1, Const(8))];
    assert Step(sem, g, Run(1, regs, [])) == Run(4, regs[3 := 8], []);
    SwapLeave(sem, g, regs[3 := 8], 4, 8, s0);
  }

  // ----- Deleting -----

  ghost predicate NoEdgeInto(f: Fn, dead: set<nat>) {
    && f.entry !in dead
    && forall l, k :: l in f.blocks && 0 <= k < |f.blocks[l].term.succs| ==> f.blocks[l].term.succs[k] !in dead
  }

  lemma {:induction false} DropKeeps(incoming: seq<(nat, Operand)>, dead: set<nat>, p: nat)
    requires p !in dead
    ensures Incoming(DropIncoming(incoming, dead), p) == Incoming(incoming, p)
  {
    if incoming != [] {
      DropKeeps(incoming[1..], dead, p);
    }
  }

  lemma {:induction false} DropPhis(phis: seq<Phi>, phis': seq<Phi>, dead: set<nat>, p: nat, regs: Regs, acc: Regs)
    requires p !in dead && |phis'| == |phis|
    requires forall k :: 0 <= k < |phis| ==> phis'[k] == phis[k].(incoming := DropIncoming(phis[k].incoming, dead))
    ensures ExecPhis(phis', p, regs, acc) == ExecPhis(phis, p, regs, acc)
    decreases |phis|
  {
    if phis != [] {
      DropKeeps(phis[0].incoming, dead, p);
      var op := Incoming(phis[0].incoming, p);
      if op.Some? && ValueOf(regs, op.value).Some? {
        DropPhis(phis[1..], phis'[1..], dead, p, regs, acc[phis[0].dst := ValueOf(regs, op.value).value]);
      }
    }
  }

  lemma {:induction false} DeleteTracks(sem: Sem, f: Fn, dead: set<nat>, regs: Regs, n: nat)
    requires NoEdgeInto(f, dead)
    ensures var s := Steps(sem, f, n, Start(f, regs));
            Steps(sem, Delete(f, dead), n, Start(f, regs)) == s && (s.Run? ==> s.at !in dead)
  {
    if n > 0 {
      DeleteTracks(sem, f, dead, regs, n - 1);
      DeleteStep(sem, f, dead, Steps(sem, f, n - 1, Start(f, regs)));
    }
  }

  lemma DeleteStep(sem: Sem, f: Fn, dead: set<nat>, s: State)
    requires NoEdgeInto(f, dead) && (s.Run? ==> s.at !in dead)
    ensures var n := Step(sem, f, s); Step(sem, Delete(f, dead), s) == n && (n.Run? ==> n.at !in dead)
  {
    var g := Delete(f, dead);
    if s.Run? && s.at in f.blocks {
      var x := f.blocks[s.at];
      assert g.blocks[s.at] == DropBlock(x, dead);
      var l := ExecAll(sem, x.body, Local(s.regs, s.trace));
      if l.Some? && ValuesOf(l.value.regs, x.term.args).Some? {
        var i := Choose(sem, x.term.kind, ValuesOf(l.value.regs, x.term.args).value);
        if i < |x.term.succs| && x.term.succs[i] in f.blocks {
          var y := x.term.succs[i];
          assert g.blocks[y] == DropBlock(f.blocks[y], dead);
          DropPhis(f.blocks[y].phis, g.blocks[y].phis, dead, s.at, l.value.regs, l.value.regs);
        }
      }
    }
  }

  /** Blocks that nothing branches to can go. */
  lemma DeletePreserves(sem: Sem, f: Fn, dead: set<nat>, regs: Regs)
    requires NoEdgeInto(f, dead)
    ensures var g := Delete(f, dead); SameBehaviour(sem, f, g, regs) && (Safe(sem, f, regs) ==> Safe(sem, g, regs))
  {
    hide Delete, NoEdgeInto, Steps;
    var g := Delete(f, dead);
    assert Start(g, regs) == Start(f, regs) by { DeleteEntry(f, dead); }
    forall n: nat
      ensures Steps(sem, g, n, Start(g, regs)) == Steps(sem, f, n, Start(f, regs))
    {
      DeleteTracks(sem, f, dead, regs, n);
    }
    EqualRuns(sem, f, g, regs);
  }

  lemma DeleteEntry(f: Fn, dead: set<nat>)
    ensures Delete(f, dead).entry == f.entry
  {
  }

  lemma EqualRuns(sem: Sem, f: Fn, g: Fn, regs: Regs)
    requires forall n: nat :: Steps(sem, g, n, Start(g, regs)) == Steps(sem, f, n, Start(f, regs))
    ensures SameBehaviour(sem, f, g, regs) && (Safe(sem, f, regs) ==> Safe(sem, g, regs))
  {
    hide Steps;
    forall result: seq<int>, t: Trace
      ensures Ends(sem, f, regs, result, t) <==> Ends(sem, g, regs, result, t)
    {
      if Ends(sem, f, regs, result, t) {
        var n: nat :| Steps(sem, f, n, Start(f, regs)) == Finished(result, t);
        assert Steps(sem, g, n, Start(g, regs)) == Finished(result, t);
      }
      if Ends(sem, g, regs, result, t) {
        var n: nat :| Steps(sem, g, n, Start(g, regs)) == Finished(result, t);
        assert Steps(sem, f, n, Start(f, regs)) == Finished(result, t);
      }
    }
    forall t: Trace
      ensures Makes(sem, f, regs, t) <==> Makes(sem, g, regs, t)
    {
      if Makes(sem, f, regs, t) {
        var n: nat :| Shows(Steps(sem, f, n, Start(f, regs)), t);
        assert Shows(Steps(sem, g, n, Start(g, regs)), t);
      }
      if Makes(sem, g, regs, t) {
        var n: nat :| Shows(Steps(sem, g, n, Start(g, regs)), t);
        assert Shows(Steps(sem, f, n, Start(f, regs)), t);
      }
    }
    if Safe(sem, f, regs) {
      forall n: nat
        ensures !Steps(sem, g, n, Start(g, regs)).Stuck?
      {
        assert !Steps(sem, f, n, Start(f, regs)).Stuck?;
      }
    }
  }

  // ----- What the loop keeps -----

  /** Called in the same way, `g` is as good as `f`. */
  ghost predicate Preserves(f: Fn, g: Fn) {
    forall sem: Sem, regs: Regs :: Safe(sem, f, regs) ==> SameBehaviour(sem, f, g, regs) && Safe(sem, g, regs)
  }

  lemma PreservesTrans(f: Fn, g: Fn, h: Fn)
    requires Preserves(f, g) && Preserves(g, h)
    ensures Preserves(f, h)
  {
    hide Safe, SameBehaviour;
    forall sem: Sem, regs: Regs | Safe(sem, f, regs)
      ensures SameBehaviour(sem, f, h, regs) && Safe(sem, h, regs)
    {
      assert SameBehaviour(sem, f, g, regs) && Safe(sem, g, regs);
      assert SameBehaviour(sem, g, h, regs);
      SameBehaviourTrans(sem, f, g, h, regs);
    }
  }

  lemma PreservesSelf(f: Fn)
    ensures Preserves(f, f)
  {
  }

  /** The results of a deleted block are used by nothing but the phi entries for that block. */
  ghost predicate Unused(f: Fn, dead: set<nat>) {
    forall l, k, r, s :: l in dead && HasResult(f, l, k, r) && s in Uses(f, r)
      ==> && s.AtPhi? && s.l in f.blocks && s.i < |f.blocks[s.l].phis|
          && s.k < |f.blocks[s.l].phis[s.i].incoming| && f.blocks[s.l].phis[s.i].incoming[s.k].0 == l
  }

  lemma {:induction false} DropElement(incoming: seq<(nat, Operand)>, dead: set<nat>, k: nat) returns (j: nat)
    requires k < |DropIncoming(incoming, dead)|
    ensures j < |incoming| && incoming[j] == DropIncoming(incoming, dead)[k] && incoming[j].0 !in dead
  {
    if incoming[0].0 in dead {
      j := DropElement(incoming[1..], dead, k);
      j := j + 1;
    } else if k == 0 {
      j := 0;
    } else {
      j := DropElement(incoming[1..], dead, k - 1);
      j := j + 1;
    }
  }

  lemma StillUsed(f: Fn, dead: set<nat>, r: nat, s: Site)
    requires s.l in f.blocks && !s.AtPhi? && s in BlockUses(s.l, DropBlock(f.blocks[s.l], dead), r)
    ensures s in Uses(f, r)
  {
    assert s in BlockUses(s.l, f.blocks[s.l], r);
  }

  /** When the dead blocks are gone, so are all uses of what they computed. */
  lemma NoUseLeft(f: Fn, dead: set<nat>, l: nat, k: nat, r: nat)
    requires Unused(f, dead) && l in dead && HasResult(f, l, k, r)
    ensures Uses(Delete(f, dead), r) == {}
  {
    hide Uses, Items;
    var g := Delete(f, dead);
    if Uses(g, r) != {} {
      var s :| s in Uses(g, r);
      UseShape(g, r, s);
      assert g.blocks[s.l] == DropBlock(f.blocks[s.l], dead);
      if s.AtPhi? {
        var j := DropElement(f.blocks[s.l].phis[s.i].incoming, dead, s.k);
        UsedInPhi(f, s.l, s.i, j, r);
      } else {
        StillUsed(f, dead, r, s);
      }
      assert false;
    }
  }

  lemma UsesSame(f: Fn, a: nat, b: nat, r: nat)
    ensures Uses(Redirect(f, a, b), r) == Uses(f, r)
  {
    var g := Redirect(f, a, b);
    assert g.blocks.Keys == f.blocks.Keys;
    forall l | l in f.blocks
      ensures BlockUses(l, g.blocks[l], r) == BlockUses(l, f.blocks[l], r)
    {
      RedirectKeeps(f, a, b, l);
      SameUses(l, f.blocks[l], g.blocks[l], r);
    }
  }

  lemma SameUses(l: nat, x: Block, y: Block, r: nat)
    requires x.phis == y.phis && x.body == y.body && x.term.args == y.term.args
    ensures BlockUses(l, x, r) == BlockUses(l, y, r)
  {
  }

  lemma UnusedAfter(f: Fn, a: nat, b: nat, dead: set<nat>)
    requires Valid(f) && Mergeable(f, a, b, dead) && Unused(f, dead)
    ensures Unused(Redirect(f, a, b), dead + {a})
  {
    hide Uses, Valid, Mergeable, Redirect;
    var g := Redirect(f, a, b);
    forall l, k, r, s | l in dead + {a} && HasResult(g, l, k, r) && s in Uses(g, r)
      ensures s.AtPhi? && s.l in g.blocks && s.i < |g.blocks[s.l].phis| && s.k < |g.blocks[s.l].phis[s.i].incoming|
              && g.blocks[s.l].phis[s.i].incoming[s.k].0 == l
    {
      UsesSame(f, a, b, r);
      ResultSame(f, a, b, l, k, r);
      if l == a {
        MergedUses(f, a, b, dead, k, r);
      }
      assert s.AtPhi? && s.l in f.blocks;
      RedirectKeeps(f, a, b, s.l);
    }
  }

  lemma ResultSame(f: Fn, a: nat, b: nat, l: nat, k: nat, r: nat)
    ensures HasResult(Redirect(f, a, b), l, k, r) <==> HasResult(f, l, k, r)
  {
  }

  lemma MergedUses(f: Fn, a: nat, b: nat, dead: set<nat>, k: nat, r: nat)
    requires Valid(f) && Mergeable(f, a, b, dead) && HasResult(f, a, k, r)
    ensures OnlyInPhi(f, a, Succ(f, a), r)
  {
    assert Pair(f, a, b, Succ(f, a));
    ResultOnlyInPhi(f, a, b, Succ(f, a), a, k, r);
  }

  lemma NoEdgeAfter(f: Fn, a: nat, b: nat, dead: set<nat>)
    requires NoEdgeInto(f, dead) && Mergeable(f, a, b, dead)
    ensures NoEdgeInto(Redirect(f, a, b), dead + {a})
  {
    var g := Redirect(f, a, b);
    forall l, k | l in g.blocks && 0 <= k < |g.blocks[l].term.succs|
      ensures g.blocks[l].term.succs[k] !in dead + {a}
    {
      RedirectKeeps(f, a, b, l);
    }
  }

  lemma MergedPreserves(f: Fn, a: nat, b: nat, dead: set<nat>)
    requires Valid(f) && AlikeFromSame(f) && Mergeable(f, a, b, dead)
    ensures Preserves(f, Redirect(f, a, b)) && Valid(Redirect(f, a, b)) && AlikeFromSame(Redirect(f, a, b))
  {
    hide Valid, Mergeable, Redirect, Safe, SameBehaviour, AlikeFromSame, SameEntries;
    MergedAlike(f, a, b, dead);
    forall sem: Sem, regs: Regs | Safe(sem, f, regs)
      ensures SameBehaviour(sem, f, Redirect(f, a, b), regs) && Safe(sem, Redirect(f, a, b), regs)
    {
      MergePreserves(sem, f, a, b, dead, regs);
    }
    ValidRedirect(f, a, b);
    AlikeRedirect(f, a, b);
  }

  lemma MergedAlike(f: Fn, a: nat, b: nat, dead: set<nat>)
    requires AlikeFromSame(f) && Mergeable(f, a, b, dead)
    ensures SameEntries(f, a, b)
  {
    hide PlainPreds, PhiAgrees, Items;
    assert SameItems(f.blocks[a], f.blocks[b]) by { hide SameOperation; }
    SamePhis(f.blocks[a], f.blocks[b]);
  }

  lemma AlikeRedirect(f: Fn, a: nat, b: nat)
    requires AlikeFromSame(f)
    ensures AlikeFromSame(Redirect(f, a, b))
  {
    hide SameOperation, NonDbg, PhiItems, InstrItems;
    var g := Redirect(f, a, b);
    forall l, m | Jumps(g, l) && Jumps(g, m) && l != m && SameItems(g.blocks[l], g.blocks[m])
      ensures SameLists(g.blocks[l].phis, g.blocks[m].phis)
    {
      assert Items(g.blocks[l]) == Items(f.blocks[l]) && Items(g.blocks[m]) == Items(f.blocks[m]);
      assert Jumps(f, l) && Jumps(f, m) && SameItems(f.blocks[l], f.blocks[m]);
    }
  }

  lemma DeletedPreserves(f: Fn, dead: set<nat>)
    requires NoEdgeInto(f, dead)
    ensures Preserves(f, Delete(f, dead))
  {
    hide NoEdgeInto, Delete, Safe, SameBehaviour;
    forall sem: Sem, regs: Regs | Safe(sem, f, regs)
      ensures SameBehaviour(sem, f, Delete(f, dead), regs) && Safe(sem, Delete(f, dead), regs)
    {
      DeletePreserves(sem, f, dead, regs);
    }
  }

  ghost predicate Jumps(f: Fn, l: nat) { l in f.blocks && f.blocks[l].term.kind.Br? }

  /** Two lists of phis have the same entries. */
  ghost predicate SameLists(phis: seq<Phi>, phis': seq<Phi>) {
    forall i, p: nat :: 0 <= i < |phis| && i < |phis'|
      ==> Incoming(phis[i].incoming, p) == Incoming(phis'[i].incoming, p)
  }

  /**
   Of two blocks that end in an unconditional branch and consist of the same operations on the same
   operands, the phis take these operands from the same blocks.  It holds when there are no phis.
   */
  ghost predicate AlikeFromSame(f: Fn) {
    forall l, m :: Jumps(f, l) && Jumps(f, m) && l != m && SameItems(f.blocks[l], f.blocks[m])
      ==> SameLists(f.blocks[l].phis, f.blocks[m].phis)
  }

  /** What holds throughout the loop over the blocks of `f0`. */
  ghost predicate LoopInvariant(f0: Fn, f: Fn, deleted: set<nat>) {
    && Valid(f) && AlikeFromSame(f) && Preserves(f0, f) && NoEdgeInto(f, deleted) && Unused(f, deleted)
    && f.entry == f0.entry && SameContents(f0, f)
  }

  /** Only branch targets differ. */
  ghost predicate SameContents(f: Fn, g: Fn) {
    && g.blocks.Keys == f.blocks.Keys
    && (forall l :: l in f.blocks ==> g.blocks[l].phis == f.blocks[l].phis && g.blocks[l].body == f.blocks[l].body)
  }

  lemma ContentsAfter(f: Fn, a: nat, b: nat)
    ensures SameContents(f, Redirect(f, a, b))
  {
  }

  lemma InvariantAfter(f0: Fn, f: Fn, deleted: set<nat>, a: nat, b: nat)
    requires LoopInvariant(f0, f, deleted) && Mergeable(f, a, b, deleted)
    ensures LoopInvariant(f0, Redirect(f, a, b), deleted + {a})
  {
    hide Valid, AlikeFromSame, Preserves, NoEdgeInto, Unused, Mergeable;
    MergedPreserves(f, a, b, deleted);
    PreservesTrans(f0, f, Redirect(f, a, b));
    NoEdgeAfter(f, a, b, deleted);
    UnusedAfter(f, a, b, deleted);
    ContentsAfter(f, a, b);
  }
}
