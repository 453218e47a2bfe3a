/**
 Replacing all uses of registers by others.  A renaming gives every register's replacement; running
 the renamed code where the replacements hold the old values gives the same values and effects.
 */
module Renaming {
  import opened Prelude
  import opened Ssa

  type Rename = nat -> nat

  function RenameOp(op: Operand, f: Rename): Operand {
    if op.Reg? then Reg(f(op.r)) else op
  }

  function RenameOps(ops: seq<Operand>, f: Rename): (r: seq<Operand>)
    ensures |r| == |ops|
    ensures forall k :: 0 <= k < |ops| ==> r[k] == RenameOp(ops[k], f)
  {
    if ops == [] then [] else [RenameOp(ops[0], f)] + RenameOps(ops[1..], f)
  }

  function RenameBody(body: seq<Instr>, f: Rename): (r: seq<Instr>)
    ensures |r| == |body|
    ensures forall k :: 0 <= k < |body| ==> r[k] == body[k].(args := RenameOps(body[k].args, f))
  {
    if body == [] then [] else [body[0].(args := RenameOps(body[0].args, f))] + RenameBody(body[1..], f)
  }

  /** Phi entries for block `b` become entries for `k`. */
  function RenameIncoming(incoming: seq<(nat, Operand)>, f: Rename, b: nat, k: nat): (r: seq<(nat, Operand)>)
    ensures |r| == |incoming|
    ensures forall i :: 0 <= i < |incoming| ==> r[i] == (Moved(incoming[i].0, b, k), RenameOp(incoming[i].1, f))
  {
    if incoming == [] then []
    else [(Moved(incoming[0].0, b, k), RenameOp(incoming[0].1, f))] + RenameIncoming(incoming[1..], f, b, k)
  }

  function Moved(l: nat, b: nat, k: nat): nat { if l == b then k else l }

  function RenamePhis(phis: seq<Phi>, f: Rename, b: nat, k: nat): (r: seq<Phi>)
    ensures |r| == |phis|
    ensures forall i :: 0 <= i < |phis| ==> r[i] == phis[i].(incoming := RenameIncoming(phis[i].incoming, f, b, k))
  {
    if phis == [] then []
    else [phis[0].(incoming := RenameIncoming(phis[0].incoming, f, b, k))] + RenamePhis(phis[1..], f, b, k)
  }

  function RenameTerm(t: Term, f: Rename): Term { t.(args := RenameOps(t.args, f)) }

  function RenameBlock(x: Block, f: Rename, b: nat, k: nat): Block {
    Block(RenamePhis(x.phis, f, b, k), RenameBody(x.body, f), RenameTerm(x.term, f))
  }

  /** Registers below `bound` keep their values under the new names. */
  ghost predicate Rel(f: Rename, bound: nat, regs: Regs, regs': Regs) {
    forall r :: r in regs ==> r < bound && f(r) in regs' && regs'[f(r)] == regs[r]
  }

  /** `d` keeps its name and no other register takes it. */
  ghost predicate Fixes(f: Rename, bound: nat, d: nat) {
    d < bound && f(d) == d && forall r: nat :: r < bound && f(r) == d ==> r == d
  }

  lemma RelSet(f: Rename, bound: nat, regs: Regs, regs': Regs, d: nat, v: int)
    requires Rel(f, bound, regs, regs') && Fixes(f, bound, d)
    ensures Rel(f, bound, regs[d := v], regs'[d := v])
  {
  }

  lemma {:induction false} ValuesRenamed(f: Rename, bound: nat, regs: Regs, regs': Regs, ops: seq<Operand>)
    requires Rel(f, bound, regs, regs') && ValuesOf(regs, ops).Some?
    ensures ValuesOf(regs', RenameOps(ops, f)) == ValuesOf(regs, ops)
  {
    if ops != [] {
      ValuesRenamed(f, bound, regs, regs', ops[1..]);
      assert RenameOps(ops, f)[1..] == RenameOps(ops[1..], f);
    }
  }

  predicate Defines(i: Instr, r: nat) { !i.ty.Void? && i.dst == r }

  ghost predicate BodyFixed(f: Rename, bound: nat, body: seq<Instr>) {
    forall k :: 0 <= k < |body| && !body[k].ty.Void? ==> Fixes(f, bound, body[k].dst)
  }

  /** A body whose results keep their names. */
  lemma {:induction false} BodyRenamed(sem: Sem, f: Rename, bound: nat, body: seq<Instr>, l: Local, l': Local)
    requires Rel(f, bound, l.regs, l'.regs) && l'.trace == l.trace && BodyFixed(f, bound, body)
    requires ExecAll(sem, body, l).Some?
    ensures var r := ExecAll(sem, RenameBody(body, f), l');
            r.Some? && Rel(f, bound, ExecAll(sem, body, l).value.regs, r.value.regs)
                && r.value.trace == ExecAll(sem, body, l).value.trace
    decreases |body|
  {
    hide Rel, Fixes, Compute, Emits;
    if body != [] {
      var i := body[0];
      var j := i.(args := RenameOps(i.args, f));
      ValuesRenamed(f, bound, l.regs, l'.regs, i.args);
      var n, n' := Exec(sem, i, l).value, Exec(sem, j, l').value;
      if !i.ty.Void? {
        RelSet(f, bound, l.regs, l'.regs, i.dst, Compute(sem, i.op, ValuesOf(l.regs, i.args).value, l.trace));
      }
      assert RenameBody(body, f)[1..] == RenameBody(body[1..], f);
      BodyRenamed(sem, f, bound, body[1..], n, n');
    }
  }

  lemma {:induction false} IncomingRenamed(incoming: seq<(nat, Operand)>, f: Rename, b: nat, k: nat, pred: nat)
    requires forall i :: 0 <= i < |incoming| ==> incoming[i].0 != k
    requires pred != k
    ensures Incoming(RenameIncoming(incoming, f, b, k), Moved(pred, b, k))
            == match Incoming(incoming, pred) { case None => None case Some(op) => Some(RenameOp(op, f)) }
  {
    if incoming != [] {
      IncomingRenamed(incoming[1..], f, b, k, pred);
      assert RenameIncoming(incoming, f, b, k)[1..] == RenameIncoming(incoming[1..], f, b, k);
    }
  }

  ghost predicate PhisFixed(f: Rename, bound: nat, phis: seq<Phi>, k: nat) {
    && (forall i :: 0 <= i < |phis| ==> Fixes(f, bound, phis[i].dst))
    && (forall i, j :: 0 <= i < |phis| && 0 <= j < |phis[i].incoming| ==> phis[i].incoming[j].0 != k)
  }

  lemma {:induction false} PhisRenamed(phis: seq<Phi>, f: Rename, bound: nat, b: nat, k: nat, pred: nat, regs: Regs,
                                       acc: Regs, regs': Regs, acc': Regs)
    requires Rel(f, bound, regs, regs') && Rel(f, bound, acc, acc') && PhisFixed(f, bound, phis, k) && pred != k
    requires ExecPhis(phis, pred, regs, acc).Some?
    ensures var r := ExecPhis(RenamePhis(phis, f, b, k), Moved(pred, b, k), regs', acc');
            r.Some? && Rel(f, bound, ExecPhis(phis, pred, regs, acc).value, r.value)
    decreases |phis|
  {
    hide Fixes;
    if phis != [] {
      IncomingRenamed(phis[0].incoming, f, b, k, pred);
      var v := ValueOf(regs, Incoming(phis[0].incoming, pred).value).value;
      var acc1, acc1' := acc[phis[0].dst := v], acc'[phis[0].dst := v];
      RelSet(f, bound, acc, acc', phis[0].dst, v);
      assert RenamePhis(phis, f, b, k)[1..] == RenamePhis(phis[1..], f, b, k);
      assert PhisFixed(f, bound, phis[1..], k);
      PhisRenamed(phis[1..], f, bound, b, k, pred, regs, acc1, regs', acc1');
    }
  }

  /** Running states related by a renaming; ends are equal. */
  ghost predicate RelState(f: Rename, bound: nat, s: State, s': State) {
    match s
    case Run(at, regs, t) => s'.Run? && s'.at == at && s'.trace == t && Rel(f, bound, regs, s'.regs)
    case Finished(_, _) => s' == s
    case Stuck => true
  }

  /** `g` has a renamed copy of every block of `f`, with phi entries for `b` moved to `k`. */
  ghost predicate Copies(f: Fn, g: Fn, l: nat, ren: Rename, bound: nat, b: nat, k: nat) {
    l in f.blocks ==>
      && l in g.blocks && g.blocks[l].phis == RenamePhis(f.blocks[l].phis, ren, b, k)
      && PhisFixed(ren, bound, f.blocks[l].phis, k)
  }

  /** The terminator and the phis of the block it goes to, when `pred` is known as `Moved(pred, b, k)` in `g`. */
  lemma LeaveRenamed(sem: Sem, f: Fn, g: Fn, ren: Rename, bound: nat, b: nat, k: nat, pred: nat, term: Term, l: Local,
                     l': Local)
    requires Rel(ren, bound, l.regs, l'.regs) && l'.trace == l.trace && pred != k
    requires forall x :: x in f.blocks ==> Copies(f, g, x, ren, bound, b, k)
    ensures RelState(ren, bound, Leave(sem, f, pred, term, l),
            Leave(sem, g, Moved(pred, b, k), RenameTerm(term, ren), l'))
  {
    hide Rel, PhisFixed;
    var s := Leave(sem, f, pred, term, l);
    if !s.Stuck? {
      ValuesRenamed(ren, bound, l.regs, l'.regs, term.args);
      if term.succs != [] {
        var x := term.succs[Choose(sem, term.kind, ValuesOf(l.regs, term.args).value)];
        assert Copies(f, g, x, ren, bound, b, k);
        PhisRenamed(f.blocks[x].phis, ren, bound, b, k, pred, l.regs, l.regs, l'.regs, l'.regs);
      }
    }
  }
}
