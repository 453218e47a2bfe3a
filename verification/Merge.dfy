/**
 When `MergeBB` takes two blocks for duplicates of each other, and what it does then: all branches to
 one of them are redirected to the other.
 */
module Merge {
  import opened Prelude
  import opened Ssa

  // ----- Uses -----

  /** A use of a register: operand `k` of phi or instruction `i` of block `l`, or of its terminator. */
  datatype Site = AtPhi(l: nat, i: nat, k: nat) | AtInstr(l: nat, i: nat, k: nat) | AtTerm(l: nat, k: nat)

  function PhiUses(l: nat, x: Block, r: nat): set<Site> {
    set i, k | 0 <= i < |x.phis| && 0 <= k < |x.phis[i].incoming| && x.phis[i].incoming[k].1 == Reg(r) :: AtPhi(l, i, k)
  }

  function InstrUses(l: nat, x: Block, r: nat): set<Site> {
    set i, k | 0 <= i < |x.body| && 0 <= k < |x.body[i].args| && x.body[i].args[k] == Reg(r) :: AtInstr(l, i, k)
  }

  function TermUses(l: nat, x: Block, r: nat): set<Site> {
    set k | 0 <= k < |x.term.args| && x.term.args[k] == Reg(r) :: AtTerm(l, k)
  }

  function BlockUses(l: nat, x: Block, r: nat): set<Site> {
    PhiUses(l, x, r) + InstrUses(l, x, r) + TermUses(l, x, r)
  }

  function Uses(f: Fn, r: nat): set<Site> {
    set l, s | l in f.blocks && s in BlockUses(l, f.blocks[l], r) :: s
  }

  // ----- Comparing instructions -----

  /** What the reverse walk meets: phis and instructions that are not debug intrinsics. */
  datatype Item = P(phi: Phi) | I(instr: Instr) {
    function Ty(): Ty { if P? then phi.ty else instr.ty }
    function Dst(): nat { if P? then phi.dst else instr.dst }
  }

  function NonDbg(body: seq<Instr>): seq<Instr> {
    if body == [] then []
    else if body[0].op.Dbg? then NonDbg(body[1..])
    else [body[0]] + NonDbg(body[1..])
  }

  function PhiItems(phis: seq<Phi>): (r: seq<Item>)
    ensures |r| == |phis| && forall k :: 0 <= k < |phis| ==> r[k] == P(phis[k])
  {
    seq(|phis|, k requires 0 <= k < |phis| => P(phis[k]))
  }

  function InstrItems(body: seq<Instr>): (r: seq<Item>)
    ensures |r| == |body| && forall k :: 0 <= k < |body| ==> r[k] == I(body[k])
  {
    seq(|body|, k requires 0 <= k < |body| => I(body[k]))
  }

  function Items(x: Block): seq<Item> {
    PhiItems(x.phis) + InstrItems(NonDbg(x.body))
  }

  function UsesOf(f: Fn, i: Item): set<Site> {
    if i.Ty().Void? then {} else Uses(f, i.Dst())
  }

  /** The only user is in the same block or is a phi of the successor that takes the value from this block. */
  predicate CanRemove(f: Fn, l: nat, succ: nat, i: Item, site: Site) {
    || site.l == l
    || (site.AtPhi? && site.l == succ && succ in f.blocks && site.i < |f.blocks[succ].phis|
        && Incoming(f.blocks[succ].phis[site.i].incoming, l) == Some(Reg(i.Dst())))
  }

  predicate Removable(f: Fn, l: nat, succ: nat, i: Item) {
    forall s :: s in UsesOf(f, i) ==> CanRemove(f, l, succ, i, s)
  }

  function PhiOperands(p: Phi): seq<Operand> {
    seq(|p.incoming|, k requires 0 <= k < |p.incoming| => p.incoming[k].1)
  }

  /** The same operation on the same operands.  The blocks that a phi's operands come from are not looked at. */
  predicate SameOperation(i: Item, j: Item) {
    match (i, j)
    case (P(p), P(q)) => p.ty == q.ty && PhiOperands(p) == PhiOperands(q)
    case (I(a), I(b)) => a.ty == b.ty && a.op == b.op && a.args == b.args
    case _ => false
  }

  /** `identicalInstructions`. */
  predicate Identical(f: Fn, a: nat, b: nat, succ: nat, i: Item, j: Item) {
    && SameOperation(i, j)
    && |UsesOf(f, i)| <= 1 && |UsesOf(f, j)| == |UsesOf(f, i)|
    && (|UsesOf(f, i)| == 1 ==> Removable(f, a, succ, i) && Removable(f, b, succ, j))
  }

  predicate AllIdentical(f: Fn, a: nat, b: nat, succ: nat)
    requires a in f.blocks && b in f.blocks
  {
    var xs, ys := Items(f.blocks[a]), Items(f.blocks[b]);
    |xs| == |ys| && forall k :: 0 <= k < |xs| ==> Identical(f, a, b, succ, xs[k], ys[k])
  }

  // ----- Candidates -----

  function Preds(f: Fn, l: nat): set<nat> {
    set p | p in f.blocks && l in f.blocks[p].term.succs
  }

  predicate PlainPreds(f: Fn, l: nat) {
    forall p :: p in Preds(f, l) ==> f.blocks[p].term.kind in {Br, CondBr, Switch}
  }

  /** Not the entry block, ends in an unconditional branch, reached by branches and switches only. */
  predicate Candidate(f: Fn, l: nat) {
    && l in f.blocks && l != f.entry
    && f.blocks[l].term.kind.Br? && |f.blocks[l].term.succs| == 1
    && PlainPreds(f, l)
  }

  function Succ(f: Fn, l: nat): nat
    requires Candidate(f, l)
  {
    f.blocks[l].term.succs[0]
  }

  predicate DefinedIn(x: Block, op: Operand) {
    op.Reg? && exists k :: 0 <= k < |Items(x)| && !Items(x)[k].Ty().Void? && Items(x)[k].Dst() == op.r
  }

  /** The successor's phi takes the same value from both blocks, or from each a value of its own. */
  predicate PhiAgrees(f: Fn, a: nat, b: nat, succ: nat)
    requires a in f.blocks && b in f.blocks && succ in f.blocks
  {
    var phis := f.blocks[succ].phis;
    || phis == []
    || (|phis| == 1
        && var u, v := Incoming(phis[0].incoming, a), Incoming(phis[0].incoming, b);
        u.Some? && v.Some? && (u == v || (DefinedIn(f.blocks[a], u.value) && DefinedIn(f.blocks[b], v.value))))
  }

  /** `mergeDuplicatedBlock` would redirect `a` to `b`. */
  predicate Mergeable(f: Fn, a: nat, b: nat, deleted: set<nat>) {
    && Candidate(f, a) && Candidate(f, b) && Succ(f, a) in f.blocks && Succ(f, b) == Succ(f, a)
    && b !in deleted && a != b
    && PhiAgrees(f, a, b, Succ(f, a))
    && AllIdentical(f, a, b, Succ(f, a))
  }

  /** Not the entry block, ends in a jump to `s`, and every edge into it is a branch's or a switch's. */
  ghost predicate JumpsTo(f: Fn, l: nat, s: nat) {
    && l in f.blocks && l != f.entry && f.blocks[l].term.kind.Br? && f.blocks[l].term.succs == [s]
    && forall p :: p in f.blocks && l in f.blocks[p].term.succs
         ==> f.blocks[p].term.kind.Br? || f.blocks[p].term.kind.CondBr? || f.blocks[p].term.kind.Switch?
  }

  /** A result has at most one use, in its own block or as the value that a phi of `s` takes from there. */
  ghost predicate UsedLocally(f: Fn, l: nat, s: nat, ty: Ty, r: nat) {
    !ty.Void? && Uses(f, r) != {} ==>
      exists u :: Uses(f, r) == {u}
        && (u.l == l || (u.AtPhi? && u.l == s && s in f.blocks && u.i < |f.blocks[s].phis|
                         && Incoming(f.blocks[s].phis[u.i].incoming, l) == Some(Reg(r))))
  }

  ghost predicate UsedAlike(f: Fn, a: nat, b: nat, s: nat, ty: Ty, r: nat, r': nat) {
    && UsedLocally(f, a, s, ty, r) && UsedLocally(f, b, s, ty, r')
    && (ty.Void? || (Uses(f, r) == {} <==> Uses(f, r') == {}))
  }

  /** The same phis up to where their operands come from, and the same instructions but for debug intrinsics. */
  ghost predicate SameCode(f: Fn, a: nat, b: nat, s: nat)
    requires a in f.blocks && b in f.blocks
  {
    var (x, y) := (f.blocks[a], f.blocks[b]);
    var (p, q) := (NonDbg(x.body), NonDbg(y.body));
    && |x.phis| == |y.phis| && |p| == |q|
    && (forall k :: 0 <= k < |x.phis| ==>
          SamePhi(x.phis[k], y.phis[k]) && UsedAlike(f, a, b, s, x.phis[k].ty, x.phis[k].dst, y.phis[k].dst))
    && (forall k :: 0 <= k < |p| ==> SameInstr(p[k], q[k]) && UsedAlike(f, a, b, s, p[k].ty, p[k].dst, q[k].dst))
  }

  ghost predicate SamePhi(p: Phi, q: Phi) {
    && p.ty == q.ty && |p.incoming| == |q.incoming|
    && forall k :: 0 <= k < |p.incoming| ==> p.incoming[k].1 == q.incoming[k].1
  }

  predicate SameInstr(i: Instr, j: Instr) { i.ty == j.ty && i.op == j.op && i.args == j.args }

  ghost predicate ResultOf(x: Block, op: Operand) {
    && op.Reg?
    && ((exists k :: 0 <= k < |x.phis| && !x.phis[k].ty.Void? && x.phis[k].dst == op.r)
        || (exists k :: 0 <= k < |NonDbg(x.body)| && !NonDbg(x.body)[k].ty.Void? && NonDbg(x.body)[k].dst == op.r))
  }

  /** The only phi of `s`, if it has one, takes equal operands from both blocks or a result of each. */
  ghost predicate OnePhi(f: Fn, a: nat, b: nat, s: nat)
    requires a in f.blocks && b in f.blocks && s in f.blocks
  {
    |f.blocks[s].phis| == 0
    || (|f.blocks[s].phis| == 1
        && var (u, v) := (Incoming(f.blocks[s].phis[0].incoming, a), Incoming(f.blocks[s].phis[0].incoming, b));
        && u != None && v != None
        && (u == v || (ResultOf(f.blocks[a], u.value) && ResultOf(f.blocks[b], v.value))))
  }

  ghost predicate Duplicates(f: Fn, a: nat, b: nat, s: nat) {
    s in f.blocks && JumpsTo(f, a, s) && JumpsTo(f, b, s) && SameCode(f, a, b, s) && OnePhi(f, a, b, s)
  }

  lemma AtMostOne<T>(s: set<T>)
    ensures |s| <= 1 <==> s == {} || exists x :: s == {x}
  {
    if |s| == 1 {
      var x :| x in s;
      assert |s - {x}| == 0;
      assert s == {x};
    }
  }

  lemma IdenticalUses(f: Fn, a: nat, b: nat, s: nat, i: Item, j: Item)
    requires SameOperation(i, j)
    ensures Identical(f, a, b, s, i, j) <==> UsedAlike(f, a, b, s, i.Ty(), i.Dst(), j.Dst())
  {
    hide Uses, SameOperation, PhiOperands;
    assert i.Ty() == j.Ty() by { SameTy(i, j); }
    AtMostOne(UsesOf(f, i));
    AtMostOne(UsesOf(f, j));
  }

  lemma SameTy(i: Item, j: Item)
    requires SameOperation(i, j)
    ensures i.Ty() == j.Ty()
  {
  }

  lemma SamePhiIff(p: Phi, q: Phi)
    ensures SameOperation(P(p), P(q)) <==> SamePhi(p, q)
  {
    if SamePhi(p, q) {
      assert PhiOperands(p) == PhiOperands(q);
    }
    if PhiOperands(p) == PhiOperands(q) {
      assert |PhiOperands(p)| == |p.incoming| && |PhiOperands(q)| == |q.incoming|;
      forall k | 0 <= k < |p.incoming|
        ensures p.incoming[k].1 == q.incoming[k].1
      {
        assert PhiOperands(p)[k] == PhiOperands(q)[k];
      }
    }
  }

  /** Comparing phis and instructions in one walk pairs phis with phis. */
  lemma IdenticalIff(f: Fn, a: nat, b: nat, s: nat)
    requires a in f.blocks && b in f.blocks
    ensures AllIdentical(f, a, b, s) <==> SameCode(f, a, b, s)
  {
    hide Identical, UsedAlike, SamePhi, NonDbg, SameOperation;
    var (x, y) := (f.blocks[a], f.blocks[b]);
    var (p, q) := (NonDbg(x.body), NonDbg(y.body));
    var (xs, ys) := (Items(x), Items(y));
    if AllIdentical(f, a, b, s) {
      SamePhiCount(f, a, b, s);
      forall k | 0 <= k < |x.phis|
        ensures SamePhi(x.phis[k], y.phis[k]) && UsedAlike(f, a, b, s, x.phis[k].ty, x.phis[k].dst, y.phis[k].dst)
      {
        assert Identical(f, a, b, s, xs[k], ys[k]);
        PairIff(f, a, b, s, xs[k], ys[k]);
      }
      forall k | 0 <= k < |p|
        ensures SameInstr(p[k], q[k]) && UsedAlike(f, a, b, s, p[k].ty, p[k].dst, q[k].dst)
      {
        assert Identical(f, a, b, s, xs[|x.phis| + k], ys[|x.phis| + k]);
        PairIff(f, a, b, s, xs[|x.phis| + k], ys[|x.phis| + k]);
      }
    }
    if SameCode(f, a, b, s) {
      forall k | 0 <= k < |xs|
        ensures Identical(f, a, b, s, xs[k], ys[k])
      {
        PairIff(f, a, b, s, xs[k], ys[k]);
        assert k >= |x.phis| ==> SameInstr(p[k - |x.phis|], q[k - |x.phis|]);
      }
    }
  }

  lemma PairIff(f: Fn, a: nat, b: nat, s: nat, i: Item, j: Item)
    ensures Identical(f, a, b, s, i, j)
            <==> i.P? == j.P? && (if i.P? then SamePhi(i.phi, j.phi) else SameInstr(i.instr, j.instr))
                 && UsedAlike(f, a, b, s, i.Ty(), i.Dst(), j.Dst())
  {
    hide UsedAlike, SamePhi, UsesOf, Removable, PhiOperands;
    if i.P? && j.P? {
      SamePhiIff(i.phi, j.phi);
    }
    if SameOperation(i, j) {
      IdenticalUses(f, a, b, s, i, j);
    }
  }

  lemma SamePhiCount(f: Fn, a: nat, b: nat, s: nat)
    requires a in f.blocks && b in f.blocks && AllIdentical(f, a, b, s)
    ensures |f.blocks[a].phis| == |f.blocks[b].phis|
  {
    hide UsesOf, Removable, PhiOperands, NonDbg;
    var (n, k) := (|f.blocks[a].phis|, |f.blocks[b].phis|);
    var (xs, ys) := (Items(f.blocks[a]), Items(f.blocks[b]));
    forall j | 0 <= j < |xs|
      ensures xs[j].P? == ys[j].P?
    {
      assert Identical(f, a, b, s, xs[j], ys[j]);
    }
    assert n < |xs| ==> !xs[n].P?;
    assert k < |ys| ==> !ys[k].P?;
  }

  lemma ResultIff(x: Block, op: Operand)
    ensures DefinedIn(x, op) <==> ResultOf(x, op)
  {
    hide NonDbg;
    if DefinedIn(x, op) {
      var k :| 0 <= k < |Items(x)| && !Items(x)[k].Ty().Void? && Items(x)[k].Dst() == op.r;
      assert k >= |x.phis| ==> NonDbg(x.body)[k - |x.phis|] == Items(x)[k].instr;
    }
    if ResultOf(x, op) {
      if k :| 0 <= k < |x.phis| && !x.phis[k].ty.Void? && x.phis[k].dst == op.r {
        assert Items(x)[k] == P(x.phis[k]);
      } else {
        var k :| 0 <= k < |NonDbg(x.body)| && !NonDbg(x.body)[k].ty.Void? && NonDbg(x.body)[k].dst == op.r;
        assert Items(x)[|x.phis| + k] == I(NonDbg(x.body)[k]);
      }
    }
  }

  /** Which blocks are merged: those that hold the same code and jump to the same place. */
  lemma MergeableIff(f: Fn, a: nat, b: nat, deleted: set<nat>)
    ensures Mergeable(f, a, b, deleted) <==> a != b && b !in deleted && exists s :: Duplicates(f, a, b, s)
  {
    hide AllIdentical, SameCode, PhiAgrees, OnePhi, JumpsTo, PlainPreds;
    if Candidate(f, a) && Candidate(f, b) && Succ(f, a) in f.blocks {
      PairOfIff(f, a, b, Succ(f, a));
      JumpsIff(f, a, Succ(f, a));
      JumpsIff(f, b, Succ(f, a));
    }
    if s :| Duplicates(f, a, b, s) {
      JumpsIff(f, a, s);
      JumpsIff(f, b, s);
    }
    if Mergeable(f, a, b, deleted) {
      assert Duplicates(f, a, b, Succ(f, a));
    }
  }

  lemma JumpsIff(f: Fn, l: nat, s: nat)
    ensures JumpsTo(f, l, s) <==> Candidate(f, l) && Succ(f, l) == s
  {
  }

  lemma PairOfIff(f: Fn, a: nat, b: nat, s: nat)
    requires a in f.blocks && b in f.blocks && s in f.blocks
    ensures AllIdentical(f, a, b, s) <==> SameCode(f, a, b, s)
    ensures PhiAgrees(f, a, b, s) <==> OnePhi(f, a, b, s)
  {
    hide AllIdentical, SameCode, DefinedIn, ResultOf;
    IdenticalIff(f, a, b, s);
    if |f.blocks[s].phis| == 1 {
      var (u, v) := (Incoming(f.blocks[s].phis[0].incoming, a), Incoming(f.blocks[s].phis[0].incoming, b));
      if u.Some? && v.Some? {
        ResultIff(f.blocks[a], u.value);
        ResultIff(f.blocks[b], v.value);
      }
    }
  }

  // ----- Redirecting -----

  function RedirectSuccs(succs: seq<nat>, a: nat, b: nat): (r: seq<nat>)
    ensures |r| == |succs| && forall k :: 0 <= k < |succs| ==> r[k] == if succs[k] == a then b else succs[k]
  {
    seq(|succs|, k requires 0 <= k < |succs| => if succs[k] == a then b else succs[k])
  }

  function RedirectBlock(x: Block, a: nat, b: nat): Block {
    x.(term := x.term.(succs := RedirectSuccs(x.term.succs, a, b)))
  }

  function Redirect(f: Fn, a: nat, b: nat): Fn {
    f.(blocks := map l | l in f.blocks :: RedirectBlock(f.blocks[l], a, b))
  }

  // ----- Deleting -----

  function DropIncoming(incoming: seq<(nat, Operand)>, dead: set<nat>): seq<(nat, Operand)> {
    if incoming == [] then []
    else if incoming[0].0 in dead then DropIncoming(incoming[1..], dead)
    else [incoming[0]] + DropIncoming(incoming[1..], dead)
  }

  function DropBlock(x: Block, dead: set<nat>): Block {
    x.(phis := seq(|x.phis|,
        k requires 0 <= k < |x.phis| => x.phis[k].(incoming := DropIncoming(x.phis[k].incoming, dead))))
  }

  /** The dead blocks and the phi entries for them are gone. */
  function Delete(f: Fn, dead: set<nat>): Fn {
    f.(blocks := map l | l in f.blocks && l !in dead :: DropBlock(f.blocks[l], dead))
  }
}
