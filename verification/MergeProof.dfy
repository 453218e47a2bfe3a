/** Merging duplicate blocks preserves behaviour. */
module MergeProof {
  import opened Prelude
  import opened Ssa
  import opened Merge

  // ----- Static validity -----

  ghost predicate ItemDefines(x: Block, k: nat, r: nat) {
    k < |Items(x)| && !Items(x)[k].Ty().Void? && Items(x)[k].Dst() == r
  }

  /** Within a block no register is defined twice, and no two blocks define the same register. */
  ghost predicate UniqueDefs(f: Fn) {
    && (forall l, i, j, r :: l in f.blocks && ItemDefines(f.blocks[l], i, r) && ItemDefines(f.blocks[l], j, r)
          ==> i == j)
    && (forall l, m, i, j, r ::
          l in f.blocks && m in f.blocks && ItemDefines(f.blocks[l], i, r) && ItemDefines(f.blocks[m], j, r) ==> l == m)
  }

  /** Debug intrinsics have no result and no operands that count. */
  ghost predicate DbgPlain(f: Fn) {
    forall l, k :: l in f.blocks && 0 <= k < |f.blocks[l].body| && f.blocks[l].body[k].op.Dbg?
      ==> f.blocks[l].body[k].ty.Void? && f.blocks[l].body[k].args == []
  }

  ghost predicate BranchPlain(f: Fn) {
    forall l :: l in f.blocks && f.blocks[l].term.kind.Br? ==> f.blocks[l].term.args == []
  }

  ghost predicate PhisTyped(f: Fn) {
    forall l, i :: l in f.blocks && 0 <= i < |f.blocks[l].phis| ==> !f.blocks[l].phis[i].ty.Void?
  }

  ghost predicate Valid(f: Fn) { UniqueDefs(f) && DbgPlain(f) && BranchPlain(f) && PhisTyped(f) }

  // ----- Debug intrinsics -----

  lemma {:induction false} NonDbgRuns(sem: Sem, body: seq<Instr>, l: Local)
    requires forall k :: 0 <= k < |body| && body[k].op.Dbg? ==> body[k].ty.Void? && body[k].args == []
    ensures ExecAll(sem, body, l) == ExecAll(sem, NonDbg(body), l)
    decreases |body|
  {
    if body != [] {
      if body[0].op.Dbg? {
        assert ValuesOf(l.regs, body[0].args) == Some([]);
        assert Exec(sem, body[0], l) == Some(l) by { assert l.trace + [] == l.trace; }
        NonDbgRuns(sem, body[1..], l);
      } else {
        var n := Exec(sem, body[0], l);
        assert NonDbg(body)[1..] == NonDbg(body[1..]);
        if n.Some? {
          NonDbgRuns(sem, body[1..], n.value);
        }
      }
    }
  }

  /** Where the `k`-th instruction that is not a debug intrinsic is. */
  lemma {:induction false} Position(body: seq<Instr>, k: nat) returns (i: nat)
    requires k < |NonDbg(body)|
    ensures i < |body| && body[i] == NonDbg(body)[k]
    decreases |body|
  {
    if body[0].op.Dbg? {
      i := Position(body[1..], k);
      i := i + 1;
    } else if k == 0 {
      i := 0;
    } else {
      i := Position(body[1..], k - 1);
      i := i + 1;
    }
  }

  lemma {:induction false} Listed(body: seq<Instr>, i: nat) returns (k: nat)
    requires i < |body| && !body[i].op.Dbg?
    ensures k < |NonDbg(body)| && NonDbg(body)[k] == body[i]
    decreases |body|
  {
    if i == 0 {
      k := 0;
    } else if body[0].op.Dbg? {
      k := Listed(body[1..], i - 1);
    } else {
      k := Listed(body[1..], i - 1);
      k := k + 1;
    }
  }

  // ----- The blocks to merge -----

  /** `a` is to be erased and `b` kept; both go to `succ`. */
  ghost predicate Pair(f: Fn, a: nat, b: nat, succ: nat) {
    Valid(f) && Mergeable(f, a, b, {}) && succ == Succ(f, a)
  }

  /** The phis come first, then the instructions that are not debug intrinsics. */
  lemma ItemAt(x: Block, k: nat)
    ensures |Items(x)| == |x.phis| + |NonDbg(x.body)|
    ensures k < |x.phis| ==> Items(x)[k] == P(x.phis[k])
    ensures k < |NonDbg(x.body)| ==> Items(x)[|x.phis| + k] == I(NonDbg(x.body)[k])
  {
  }

  lemma Matched(f: Fn, a: nat, b: nat, succ: nat, k: nat)
    requires Pair(f, a, b, succ) && k < |Items(f.blocks[a])|
    ensures k < |Items(f.blocks[b])| && Identical(f, a, b, succ, Items(f.blocks[a])[k], Items(f.blocks[b])[k])
  {
  }

  /** Two lists of the same operations begin with equally many phis. */
  lemma SamePhis(x: Block, y: Block)
    requires SameItems(x, y)
    ensures |x.phis| == |y.phis| && |NonDbg(x.body)| == |NonDbg(y.body)|
    ensures forall i :: 0 <= i < |x.phis| ==> SameOperation(P(x.phis[i]), P(y.phis[i]))
    ensures SameOps(NonDbg(x.body), NonDbg(y.body))
  {
    hide NonDbg, Items;
    ItemAt(x, |y.phis|);
    ItemAt(y, |x.phis|);
    ItemAt(x, 0);
    ItemAt(y, 0);
    forall i | 0 <= i < |x.phis|
      ensures SameOperation(P(x.phis[i]), P(y.phis[i]))
    {
      ItemAt(x, i);
      ItemAt(y, i);
    }
    forall i | 0 <= i < |NonDbg(x.body)|
      ensures SameOperation(I(NonDbg(x.body)[i]), I(NonDbg(y.body)[i]))
    {
      ItemAt(x, i);
      ItemAt(y, i);
    }
  }

  /** The same operations on the same operands, position by position. */
  ghost predicate SameItems(x: Block, y: Block) {
    |Items(x)| == |Items(y)| && forall k :: 0 <= k < |Items(x)| ==> SameOperation(Items(x)[k], Items(y)[k])
  }

  lemma PairItems(f: Fn, a: nat, b: nat, succ: nat)
    requires Pair(f, a, b, succ)
    ensures SameItems(f.blocks[a], f.blocks[b])
  {
    hide Items, SameOperation;
  }

  // ----- What the matched instructions' results are used for -----

  ghost predicate HasResult(f: Fn, l: nat, k: nat, r: nat) { l in f.blocks && ItemDefines(f.blocks[l], k, r) }

  lemma UsedAt(f: Fn, l: nat, i: nat, k: nat, r: nat)
    requires l in f.blocks && i < |f.blocks[l].body| && k < |f.blocks[l].body[i].args|
             && f.blocks[l].body[i].args[k] == Reg(r)
    ensures AtInstr(l, i, k) in Uses(f, r)
  {
    assert AtInstr(l, i, k) in InstrUses(l, f.blocks[l], r);
    assert AtInstr(l, i, k) in BlockUses(l, f.blocks[l], r);
  }

  lemma UsedInPhi(f: Fn, l: nat, i: nat, k: nat, r: nat)
    requires l in f.blocks && i < |f.blocks[l].phis| && k < |f.blocks[l].phis[i].incoming|
             && f.blocks[l].phis[i].incoming[k].1 == Reg(r)
    ensures AtPhi(l, i, k) in Uses(f, r)
  {
    assert AtPhi(l, i, k) in PhiUses(l, f.blocks[l], r);
    assert AtPhi(l, i, k) in BlockUses(l, f.blocks[l], r);
  }

  lemma UseShape(f: Fn, r: nat, s: Site)
    requires s in Uses(f, r)
    ensures s.l in f.blocks && s in BlockUses(s.l, f.blocks[s.l], r)
  {
    var l :| l in f.blocks && s in BlockUses(l, f.blocks[l], r);
    assert s.l == l;
  }

  lemma AtMostOne(s: set<Site>, x: Site, y: Site)
    requires |s| <= 1 && x in s && y in s
    ensures x == y
  {
    if x != y {
      assert {x, y} <= s;
      Cardinality({x, y}, s);
    }
  }

  lemma Cardinality(a: set<Site>, b: set<Site>)
    requires a <= b
    ensures |a| <= |b|
  {
    if a != {} {
      var x :| x in a;
      Cardinality(a - {x}, b - {x});
    }
  }

  lemma FirstIncoming(incoming: seq<(nat, Operand)>, pred: nat) returns (k: nat)
    requires Incoming(incoming, pred).Some?
    ensures k < |incoming| && incoming[k] == (pred, Incoming(incoming, pred).value)
  {
    if incoming[0].0 == pred {
      k := 0;
    } else {
      k := FirstIncoming(incoming[1..], pred);
      k := k + 1;
    }
  }

  /** The only use of a matched result is the entry for its own block in the successor's phi. */
  ghost predicate OnlyInPhi(f: Fn, l: nat, succ: nat, r: nat) {
    forall s :: s in Uses(f, r) ==>
      && s.AtPhi? && s.l == succ && succ in f.blocks && s.i < |f.blocks[succ].phis|
         && s.k < |f.blocks[succ].phis[s.i].incoming|
      && f.blocks[succ].phis[s.i].incoming[s.k] == (l, Reg(r))
      && Incoming(f.blocks[succ].phis[s.i].incoming, l) == Some(Reg(r))
  }

  /** A use inside the block would be a second use, by the matching instruction of the other block. */
  lemma NotInside(f: Fn, a: nat, b: nat, succ: nat, r: nat, s: Site)
    requires Pair(f, a, b, succ) && s in Uses(f, r) && |Uses(f, r)| <= 1
    ensures s.l != a && s.l != b
  {
    hide Items, NonDbg, Uses;
    UseShape(f, r, s);
    if s.l in {a, b} {
      var other := if s.l == a then b else a;
      var s' := Elsewhere(f, a, b, succ, s.l, other, r, s);
      AtMostOne(Uses(f, r), s, s');
    }
  }

  /** The same operand of the matching instruction or phi. */
  lemma Elsewhere(f: Fn, a: nat, b: nat, succ: nat, l: nat, m: nat, r: nat, s: Site) returns (s': Site)
    requires Pair(f, a, b, succ) && (l, m) in {(a, b), (b, a)} && s in Uses(f, r) && s.l == l
    ensures s' in Uses(f, r) && s'.l == m
  {
    hide Items, NonDbg, Identical, UniqueDefs, PhisTyped, PhiAgrees, PlainPreds;
    PairItems(f, a, b, succ);
    SamePhis(f.blocks[a], f.blocks[b]);
    UseShape(f, r, s);
    if s.AtPhi? {
      assert PhiOperands(f.blocks[l].phis[s.i])[s.k] == Reg(r);
      UsedInPhi(f, m, s.i, s.k, r);
      s' := AtPhi(m, s.i, s.k);
    } else {
      assert s.AtInstr? && f.blocks[l].body[s.i].args[s.k] == Reg(r);
      var k := Listed(f.blocks[l].body, s.i);
      var i := Position(f.blocks[m].body, k);
      UsedAt(f, m, i, s.k, r);
      s' := AtInstr(m, i, s.k);
    }
  }

  lemma ResultOnlyInPhi(f: Fn, a: nat, b: nat, succ: nat, l: nat, k: nat, r: nat)
    requires Pair(f, a, b, succ) && l in {a, b} && HasResult(f, l, k, r)
    ensures OnlyInPhi(f, l, succ, r) && |Uses(f, r)| <= 1
  {
    hide Items, NonDbg;
    Matched(f, a, b, succ, k);
    var i := Items(f.blocks[l])[k];
    assert UsesOf(f, i) == Uses(f, r) && |Uses(f, r)| <= 1;
    forall s | s in Uses(f, r)
      ensures s.AtPhi? && s.l == succ && succ in f.blocks && s.i < |f.blocks[succ].phis|
              && s.k < |f.blocks[succ].phis[s.i].incoming|
      ensures f.blocks[succ].phis[s.i].incoming[s.k] == (l, Reg(r))
      ensures Incoming(f.blocks[succ].phis[s.i].incoming, l) == Some(Reg(r))
    {
      NotInside(f, a, b, succ, r, s);
      OneElement(Uses(f, r), s);
      assert CanRemove(f, l, succ, i, s);
      UseShape(f, r, s);
      var j := FirstIncoming(f.blocks[succ].phis[s.i].incoming, l);
      UsedInPhi(f, succ, s.i, j, r);
      AtMostOne(Uses(f, r), s, AtPhi(succ, s.i, j));
    }
  }

  lemma OneElement(s: set<Site>, x: Site)
    requires x in s && |s| <= 1
    ensures |s| == 1
  {
    Cardinality({x}, s);
  }

  // ----- Running the two blocks -----

  /** The registers that differ after a merge: the results of the two blocks. */
  ghost predicate Dead(f: Fn, a: nat, b: nat, r: nat) {
    exists k: nat :: HasResult(f, a, k, r) || HasResult(f, b, k, r)
  }

  ghost predicate Agree(f: Fn, a: nat, b: nat, regs: Regs, regs': Regs) {
    forall r :: r in regs && !Dead(f, a, b, r) ==> r in regs' && regs'[r] == regs[r]
  }

  ghost predicate Live(f: Fn, a: nat, b: nat, ops: seq<Operand>) {
    forall k :: 0 <= k < |ops| && ops[k].Reg? ==> !Dead(f, a, b, ops[k].r)
  }

  lemma {:induction false} ValuesAgree(f: Fn, a: nat, b: nat, regs: Regs, regs': Regs, ops: seq<Operand>)
    requires Agree(f, a, b, regs, regs') && Live(f, a, b, ops) && ValuesOf(regs, ops).Some?
    ensures ValuesOf(regs', ops) == ValuesOf(regs, ops)
  {
    if ops != [] {
      assert ops[0].Reg? ==> !Dead(f, a, b, ops[0].r);
      ValuesAgree(f, a, b, regs, regs', ops[1..]);
    }
  }

  /** Neither block's results are operands of an instruction or a terminator anywhere. */
  lemma ArgsLive(f: Fn, a: nat, b: nat, succ: nat, l: nat, i: nat)
    requires Pair(f, a, b, succ) && l in f.blocks && i < |f.blocks[l].body|
    ensures Live(f, a, b, f.blocks[l].body[i].args)
  {
    var args := f.blocks[l].body[i].args;
    forall k | 0 <= k < |args| && args[k].Reg?
      ensures !Dead(f, a, b, args[k].r)
    {
      UsedAt(f, l, i, k, args[k].r);
      NotUsedBy(f, a, b, succ, args[k].r, AtInstr(l, i, k));
    }
  }

  lemma TermLive(f: Fn, a: nat, b: nat, succ: nat, l: nat)
    requires Pair(f, a, b, succ) && l in f.blocks
    ensures Live(f, a, b, f.blocks[l].term.args)
  {
    var args := f.blocks[l].term.args;
    forall k | 0 <= k < |args| && args[k].Reg?
      ensures !Dead(f, a, b, args[k].r)
    {
      assert AtTerm(l, k) in TermUses(l, f.blocks[l], args[k].r);
      assert AtTerm(l, k) in BlockUses(l, f.blocks[l], args[k].r);
      NotUsedBy(f, a, b, succ, args[k].r, AtTerm(l, k));
    }
  }

  lemma NotUsedBy(f: Fn, a: nat, b: nat, succ: nat, r: nat, s: Site)
    requires Pair(f, a, b, succ) && s in Uses(f, r) && !s.AtPhi?
    ensures !Dead(f, a, b, r)
  {
    if Dead(f, a, b, r) {
      var k: nat :| HasResult(f, a, k, r) || HasResult(f, b, k, r);
      ResultOnlyInPhi(f, a, b, succ, if HasResult(f, a, k, r) then a else b, k, r);
    }
  }

  ghost predicate SameOps(p: seq<Instr>, q: seq<Instr>) {
    |p| == |q| && forall k :: 0 <= k < |p| ==> p[k].ty == q[k].ty && p[k].op == q[k].op && p[k].args == q[k].args
  }

  /** The first `n` results of one block in one run are those of the other block in the other run. */
  ghost predicate ResultsSet(xs: seq<Item>, ys: seq<Item>, n: nat, regs: Regs, regs': Regs)
    requires n <= |xs| == |ys|
  {
    forall k :: 0 <= k < n && !xs[k].Ty().Void?
      ==> xs[k].Dst() in regs && ys[k].Dst() in regs' && regs[xs[k].Dst()] == regs'[ys[k].Dst()]
  }

  ghost predicate DistinctDsts(xs: seq<Item>) {
    forall i, j ::
      && 0 <= i < |xs| && 0 <= j < |xs| && !xs[i].Ty().Void? && !xs[j].Ty().Void? && xs[i].Dst() == xs[j].Dst()
      ==> i == j
  }

  ghost predicate DeadDsts(f: Fn, a: nat, b: nat, xs: seq<Item>) {
    forall k :: 0 <= k < |xs| && !xs[k].Ty().Void? ==> Dead(f, a, b, xs[k].Dst())
  }

  /** Two lists with results of their own that nobody else reads, of the same types. */
  ghost predicate Twins(f: Fn, a: nat, b: nat, xs: seq<Item>, ys: seq<Item>) {
    && |xs| == |ys| && DistinctDsts(xs) && DistinctDsts(ys) && DeadDsts(f, a, b, xs) && DeadDsts(f, a, b, ys)
    && forall k :: 0 <= k < |xs| ==> xs[k].Ty() == ys[k].Ty()
  }

  ghost predicate AllLive(f: Fn, a: nat, b: nat, p: seq<Instr>) {
    forall k :: 0 <= k < |p| ==> Live(f, a, b, p[k].args)
  }

  /** One more result. */
  lemma OneMoreResult(f: Fn, a: nat, b: nat, xs: seq<Item>, ys: seq<Item>, n: nat, regs: Regs, regs': Regs, v: int)
    requires Twins(f, a, b, xs, ys) && n < |xs| && Agree(f, a, b, regs, regs') && ResultsSet(xs, ys, n, regs, regs')
    ensures !xs[n].Ty().Void? ==>
      var next, next' := regs[xs[n].Dst() := v], regs'[ys[n].Dst() := v];
      Agree(f, a, b, next, next') && ResultsSet(xs, ys, n + 1, next, next')
    ensures xs[n].Ty().Void? ==> ResultsSet(xs, ys, n + 1, regs, regs')
  {
    hide Dead;
  }

  /**
   The instructions `p` and `q` that follow the first `off` items of two twin blocks: they compute equal
   results one by one and have the same effects.
   */
  lemma {:induction false} RunPair(sem: Sem, f: Fn, a: nat, b: nat, xs: seq<Item>, ys: seq<Item>, off: nat,
                                   p: seq<Instr>, q: seq<Instr>, l: Local, l': Local)
    requires Twins(f, a, b, xs, ys) && off <= |xs| && xs[off..] == InstrItems(p) && ys[off..] == InstrItems(q)
    requires SameOps(p, q) && AllLive(f, a, b, p)
    requires Agree(f, a, b, l.regs, l'.regs) && l'.trace == l.trace && ResultsSet(xs, ys, off, l.regs, l'.regs)
    requires ExecAll(sem, p, l).Some?
    ensures var r, r' := ExecAll(sem, p, l), ExecAll(sem, q, l');
            && r'.Some? && Agree(f, a, b, r.value.regs, r'.value.regs) && r'.value.trace == r.value.trace
            && ResultsSet(xs, ys, |xs|, r.value.regs, r'.value.regs)
    decreases |p|
  {
    hide Dead, Compute, Emits, Twins, Agree, ResultsSet, Live;
    if p != [] {
      assert |xs[off..]| == |p| && xs[off] == xs[off..][0] == I(p[0]);
      TwinLength(f, a, b, xs, ys);
      assert ys[off] == ys[off..][0] == I(q[0]);
      assert xs[off + 1..] == xs[off..][1..] == InstrItems(p[1..]);
      assert ys[off + 1..] == ys[off..][1..] == InstrItems(q[1..]);
      assert Live(f, a, b, p[0].args);
      ValuesAgree(f, a, b, l.regs, l'.regs, p[0].args);
      var v := Compute(sem, p[0].op, ValuesOf(l.regs, p[0].args).value, l.trace);
      OneMoreResult(f, a, b, xs, ys, off, l.regs, l'.regs, v);
      assert AllLive(f, a, b, p[1..]) by {
        assert forall k :: 0 <= k < |p| - 1 ==> p[1..][k] == p[k + 1];
      }
      RunPair(sem, f, a, b, xs, ys, off + 1, p[1..], q[1..], Exec(sem, p[0], l).value, Exec(sem, q[0], l').value);
    } else {
      assert |xs[off..]| == 0;
    }
  }

  lemma TwinLength(f: Fn, a: nat, b: nat, xs: seq<Item>, ys: seq<Item>)
    requires Twins(f, a, b, xs, ys)
    ensures |xs| == |ys|
  {
  }

  /** A block other than these two. */
  lemma {:induction false} RunSame(sem: Sem, f: Fn, a: nat, b: nat, p: seq<Instr>, l: Local, l': Local)
    requires AllLive(f, a, b, p) && Agree(f, a, b, l.regs, l'.regs) && l'.trace == l.trace && ExecAll(sem, p, l).Some?
    ensures var r, r' := ExecAll(sem, p, l), ExecAll(sem, p, l');
            r'.Some? && Agree(f, a, b, r.value.regs, r'.value.regs) && r'.value.trace == r.value.trace
    decreases |p|
  {
    hide Dead, Compute, Emits;
    if p != [] {
      ValuesAgree(f, a, b, l.regs, l'.regs, p[0].args);
      assert AllLive(f, a, b, p[1..]) by { assert forall k :: 0 <= k < |p| - 1 ==> p[1..][k] == p[k + 1]; }
      RunSame(sem, f, a, b, p[1..], Exec(sem, p[0], l).value, Exec(sem, p[0], l').value);
    }
  }

  /** The erased block, or the kept one, beside the kept one. */
  lemma PairLists(f: Fn, a: nat, b: nat, succ: nat, l: nat)
    requires Pair(f, a, b, succ) && l in {a, b}
    ensures Twins(f, a, b, Items(f.blocks[l]), Items(f.blocks[b])) && SameItems(f.blocks[l], f.blocks[b])
    ensures SameOps(NonDbg(f.blocks[l].body), NonDbg(f.blocks[b].body)) && AllLive(f, a, b, NonDbg(f.blocks[l].body))
    ensures |f.blocks[l].phis| == |f.blocks[b].phis|
  {
    PairItems(f, a, b, succ);
    assert SameItems(f.blocks[l], f.blocks[b]) by { hide Items; }
    SamePhis(f.blocks[l], f.blocks[b]);
    ListFacts(f, a, b, succ, l);
    ListFacts(f, a, b, succ, b);
    hide Items, NonDbg, UniqueDefs, PhisTyped, AllIdentical, PhiAgrees, PlainPreds, SameOps, DistinctDsts, DeadDsts;
    var p := NonDbg(f.blocks[l].body);
    forall k | 0 <= k < |p|
      ensures Live(f, a, b, p[k].args)
    {
      var i := Position(f.blocks[l].body, k);
      ArgsLive(f, a, b, succ, l, i);
    }
  }

  lemma ListFacts(f: Fn, a: nat, b: nat, succ: nat, l: nat)
    requires Pair(f, a, b, succ) && l in {a, b}
    ensures DistinctDsts(Items(f.blocks[l])) && DeadDsts(f, a, b, Items(f.blocks[l]))
  {
    hide AllIdentical, PhiAgrees, PlainPreds, Items;
    var xs := Items(f.blocks[l]);
    forall i, j | 0 <= i < |xs| && 0 <= j < |xs| && !xs[i].Ty().Void? && !xs[j].Ty().Void? && xs[i].Dst() == xs[j].Dst()
      ensures i == j
    {
      assert ItemDefines(f.blocks[l], i, xs[i].Dst()) && ItemDefines(f.blocks[l], j, xs[i].Dst());
    }
    forall k | 0 <= k < |xs| && !xs[k].Ty().Void?
      ensures Dead(f, a, b, xs[k].Dst())
    {
      assert HasResult(f, l, k, xs[k].Dst());
    }
  }

  // ----- Steps -----

  /** The phis of both blocks list the same operand for each block that branches to the erased one. */
  ghost predicate SameEntries(f: Fn, a: nat, b: nat) {
    && a in f.blocks && b in f.blocks
    && (forall p, i :: p in Preds(f, a) && 0 <= i < |f.blocks[a].phis| && i < |f.blocks[b].phis|
          ==> Incoming(f.blocks[a].phis[i].incoming, p) == Incoming(f.blocks[b].phis[i].incoming, p))
  }

  /**
   The merged function is in the same block, or in the kept block when the original is in the erased one;
   in these two the phis have been given equal values.
   */
  ghost predicate Tracks(f: Fn, a: nat, b: nat, sf: State, sg: State) {
    match sf
    case Run(at, regs, t) =>
      && sg.Run? && sg.at == Kept(at, a, b) && sg.trace == t && Agree(f, a, b, regs, sg.regs)
      && (at in {a, b} ==> PhisSet(f, at, b, regs, sg.regs))
    case Finished(_, _) => sg == sf
    case Stuck => false
  }

  ghost predicate PhisSet(f: Fn, l: nat, b: nat, regs: Regs, regs': Regs) {
    && l in f.blocks && b in f.blocks && |Items(f.blocks[l])| == |Items(f.blocks[b])|
    && |f.blocks[l].phis| <= |Items(f.blocks[l])|
    && ResultsSet(Items(f.blocks[l]), Items(f.blocks[b]), |f.blocks[l].phis|, regs, regs')
  }

  function Kept(l: nat, a: nat, b: nat): nat { if l == a then b else l }

  /** From blocks `p` and `p'` the two lists of phis read equal values. */
  ghost predicate PhisReadSame(phis: seq<Phi>, phis': seq<Phi>, p: nat, p': nat, regs: Regs, regs': Regs) {
    |phis| == |phis'| && forall i :: 0 <= i < |phis| ==> PhiReadsSame(phis[i], phis'[i], p, p', regs, regs')
  }

  ghost predicate PhiReadsSame(phi: Phi, phi': Phi, p: nat, p': nat, regs: Regs, regs': Regs) {
    var u, v := Incoming(phi.incoming, p), Incoming(phi'.incoming, p');
    u.Some? && ValueOf(regs, u.value).Some? ==> v.Some? && ValueOf(regs', v.value) == ValueOf(regs, u.value)
  }

  lemma {:induction false} PhisAgree(f: Fn, a: nat, b: nat, phis: seq<Phi>, p: nat, p': nat, regs: Regs, regs': Regs,
                                     acc: Regs, acc': Regs)
    requires PhisReadSame(phis, phis, p, p', regs, regs') && Agree(f, a, b, acc, acc')
    requires ExecPhis(phis, p, regs, acc).Some?
    ensures ExecPhis(phis, p', regs', acc').Some?
    ensures Agree(f, a, b, ExecPhis(phis, p, regs, acc).value, ExecPhis(phis, p', regs', acc').value)
    decreases |phis|
  {
    hide Dead;
    if phis != [] {
      assert PhiReadsSame(phis[0], phis[0], p, p', regs, regs');
      var v := ValueOf(regs, Incoming(phis[0].incoming, p).value).value;
      assert PhisReadSame(phis[1..], phis[1..], p, p', regs, regs') by {
        assert forall i :: 0 <= i < |phis| - 1 ==> phis[1..][i] == phis[i + 1];
      }
      PhisAgree(f, a, b, phis[1..], p, p', regs, regs', acc[phis[0].dst := v], acc'[phis[0].dst := v]);
    }
  }

  /** The phis of two twin blocks, from number `n` on. */
  lemma {:induction false} PhisPair(f: Fn, a: nat, b: nat, xs: seq<Item>, ys: seq<Item>, n: nat, phis: seq<Phi>,
                                    phis': seq<Phi>, p: nat, p': nat, regs: Regs, regs': Regs, acc: Regs, acc': Regs)
    requires Twins(f, a, b, xs, ys) && n + |phis| <= |xs| && |phis'| == |phis|
    requires forall i :: 0 <= i < |phis| ==> xs[n + i] == P(phis[i]) && ys[n + i] == P(phis'[i]) && !phis[i].ty.Void?
    requires PhisReadSame(phis, phis', p, p', regs, regs')
    requires Agree(f, a, b, acc, acc') && ResultsSet(xs, ys, n, acc, acc') && ExecPhis(phis, p, regs, acc).Some?
    ensures ExecPhis(phis', p', regs', acc').Some?
    ensures var r, r' := ExecPhis(phis, p, regs, acc).value, ExecPhis(phis', p', regs', acc').value;
            Agree(f, a, b, r, r') && ResultsSet(xs, ys, n + |phis|, r, r')
    decreases |phis|
  {
    hide Twins, Agree, ResultsSet;
    TwinLength(f, a, b, xs, ys);
    if phis != [] {
      assert PhiReadsSame(phis[0], phis'[0], p, p', regs, regs');
      var v := ValueOf(regs, Incoming(phis[0].incoming, p).value).value;
      OneMoreResult(f, a, b, xs, ys, n, acc, acc', v);
      assert xs[n + 0] == P(phis[0]) && ys[n + 0] == P(phis'[0]);
      assert PhisReadSame(phis[1..], phis'[1..], p, p', regs, regs') by {
        assert forall i :: 0 <= i < |phis| - 1 ==> phis[1..][i] == phis[i + 1] && phis'[1..][i] == phis'[i + 1];
      }
      forall i | 0 <= i < |phis| - 1
        ensures xs[n + 1 + i] == P(phis[1..][i]) && ys[n + 1 + i] == P(phis'[1..][i]) && !phis[1..][i].ty.Void?
      {
        assert xs[n + (i + 1)] == P(phis[i + 1]) && ys[n + (i + 1)] == P(phis'[i + 1]);
      }
      PhisPair(f, a, b, xs, ys, n + 1, phis[1..], phis'[1..], p, p', regs, regs', acc[phis[0].dst := v],
          acc'[phis'[0].dst := v]);
    }
  }

  lemma EnterElsewhere(f: Fn, a: nat, b: nat, succ: nat, y: nat, p: nat, p': nat, l: Local, l': Local)
    requires Pair(f, a, b, succ) && Agree(f, a, b, l.regs, l'.regs) && l'.trace == l.trace && y !in {a, b}
    requires !Enter(f, y, p, l.regs, l.trace).Stuck?
    requires PhisReadSame(f.blocks[y].phis, f.blocks[y].phis, p, p', l.regs, l'.regs)
    ensures Tracks(f, a, b, Enter(f, y, p, l.regs, l.trace), Enter(Redirect(f, a, b), y, p', l'.regs, l'.trace))
  {
    hide Agree, PhisReadSame;
    assert Redirect(f, a, b).blocks[y].phis == f.blocks[y].phis;
    PhisAgree(f, a, b, f.blocks[y].phis, p, p', l.regs, l'.regs, l.regs, l'.regs);
  }

  /** One of the two blocks is entered in the original, the kept one in the merged function. */
  lemma EnterPair(f: Fn, a: nat, b: nat, succ: nat, y: nat, p: nat, p': nat, l: Local, l': Local)
    requires Pair(f, a, b, succ) && Agree(f, a, b, l.regs, l'.regs) && l'.trace == l.trace && y in {a, b}
    requires !Enter(f, y, p, l.regs, l.trace).Stuck?
    requires PhisReadSame(f.blocks[y].phis, f.blocks[b].phis, p, p', l.regs, l'.regs)
    ensures Tracks(f, a, b, Enter(f, y, p, l.regs, l.trace), Enter(Redirect(f, a, b), b, p', l'.regs, l'.trace))
  {
    hide Items, Agree, PhisReadSame, Twins, Pair, SameItems, SameOps, AllLive, ResultsSet, PhisSet;
    PairLists(f, a, b, succ, y);
    SuccIn(f, a, b, succ);
    PhisHaveTypes(f, a, b, succ, y);
    assert Redirect(f, a, b).blocks[b].phis == f.blocks[b].phis;
    var xs, ys := Items(f.blocks[y]), Items(f.blocks[b]);
    var phis, phis' := f.blocks[y].phis, f.blocks[b].phis;
    ItemAt(f.blocks[y], 0);
    ItemAt(f.blocks[b], 0);
    forall i | 0 <= i < |phis|
      ensures xs[0 + i] == P(phis[i]) && ys[0 + i] == P(phis'[i])
    {
      ItemAt(f.blocks[y], i);
      ItemAt(f.blocks[b], i);
    }
    TwinLength(f, a, b, xs, ys);
    NoResultsYet(xs, ys, l.regs, l'.regs);
    PhisPair(f, a, b, xs, ys, 0, phis, phis', p, p', l.regs, l'.regs, l.regs, l'.regs);
    PhisAreSet(f, y, b, ExecPhis(phis, p, l.regs, l.regs).value, ExecPhis(phis', p', l'.regs, l'.regs).value);
  }

  lemma PhisAreSet(f: Fn, l: nat, b: nat, regs: Regs, regs': Regs)
    requires l in f.blocks && b in f.blocks && |Items(f.blocks[l])| == |Items(f.blocks[b])|
    requires |f.blocks[l].phis| <= |Items(f.blocks[l])|
    requires ResultsSet(Items(f.blocks[l]), Items(f.blocks[b]), |f.blocks[l].phis|, regs, regs')
    ensures PhisSet(f, l, b, regs, regs')
  {
  }

  lemma NoResultsYet(xs: seq<Item>, ys: seq<Item>, regs: Regs, regs': Regs)
    requires |xs| == |ys|
    ensures ResultsSet(xs, ys, 0, regs, regs')
  {
  }

  lemma PhisHaveTypes(f: Fn, a: nat, b: nat, succ: nat, y: nat)
    requires Pair(f, a, b, succ) && y in f.blocks
    ensures forall i :: 0 <= i < |f.blocks[y].phis| ==> !f.blocks[y].phis[i].ty.Void?
  {
  }

  lemma EnterAgrees(f: Fn, a: nat, b: nat, succ: nat, y: nat, p: nat, p': nat, l: Local, l': Local)
    requires Pair(f, a, b, succ) && SameEntries(f, a, b) && (y == a ==> p' in Preds(f, a))
    requires Agree(f, a, b, l.regs, l'.regs) && l'.trace == l.trace && !Enter(f, y, p, l.regs, l.trace).Stuck?
    requires PhisReadSame(f.blocks[y].phis, f.blocks[y].phis, p, p', l.regs, l'.regs)
    ensures Tracks(f, a, b, Enter(f, y, p, l.regs, l.trace),
            Enter(Redirect(f, a, b), Kept(y, a, b), p', l'.regs, l'.trace))
  {
    hide Agree, Tracks, Enter, Redirect, Preds;
    if y in {a, b} {
      PairLists(f, a, b, succ, y);
      hide Pair, Twins, SameItems, SameOps, AllLive;
      forall i | 0 <= i < |f.blocks[y].phis|
        ensures PhiReadsSame(f.blocks[y].phis[i], f.blocks[b].phis[i], p, p', l.regs, l'.regs)
      {
        assert PhiReadsSame(f.blocks[y].phis[i], f.blocks[y].phis[i], p, p', l.regs, l'.regs);
      }
      EnterPair(f, a, b, succ, y, p, p', l, l');
    } else {
      EnterElsewhere(f, a, b, succ, y, p, p', l, l');
    }
  }

  /** A phi entry for a block other than these two is not a result of theirs. */
  lemma EntryLive(f: Fn, a: nat, b: nat, succ: nat, y: nat, i: nat, p: nat, r: nat)
    requires Pair(f, a, b, succ) && y in f.blocks && i < |f.blocks[y].phis|
             && Incoming(f.blocks[y].phis[i].incoming, p) == Some(Reg(r))
    ensures Dead(f, a, b, r) ==>
      p in {a, b} && y == succ && forall l, k :: l in {a, b} && HasResult(f, l, k, r) ==> l == p
  {
    var j := FirstIncoming(f.blocks[y].phis[i].incoming, p);
    UsedInPhi(f, y, i, j, r);
    forall l, k | l in {a, b} && HasResult(f, l, k, r)
      ensures l == p && y == succ
    {
      ResultOnlyInPhi(f, a, b, succ, l, k, r);
    }
    if Dead(f, a, b, r) {
      var k: nat :| HasResult(f, a, k, r) || HasResult(f, b, k, r);
      assert HasResult(f, if HasResult(f, a, k, r) then a else b, k, r);
    }
  }

  lemma EntriesSame(f: Fn, a: nat, b: nat, succ: nat, y: nat, p: nat, regs: Regs, regs': Regs)
    requires Pair(f, a, b, succ) && y in f.blocks && p !in {a, b} && Agree(f, a, b, regs, regs')
    ensures PhisReadSame(f.blocks[y].phis, f.blocks[y].phis, p, p, regs, regs')
  {
    forall i | 0 <= i < |f.blocks[y].phis|
      ensures PhiReadsSame(f.blocks[y].phis[i], f.blocks[y].phis[i], p, p, regs, regs')
    {
      var op := Incoming(f.blocks[y].phis[i].incoming, p);
      if op.Some? && op.value.Reg? {
        EntryLive(f, a, b, succ, y, i, p, op.value.r);
      }
    }
  }

  lemma RedirectKeeps(f: Fn, a: nat, b: nat, l: nat)
    requires l in f.blocks
    ensures var g := Redirect(f, a, b);
            l in g.blocks && g.blocks[l].body == f.blocks[l].body && g.blocks[l].phis == f.blocks[l].phis
            && g.blocks[l].term.args == f.blocks[l].term.args && g.blocks[l].term.kind == f.blocks[l].term.kind
            && |g.blocks[l].term.succs| == |f.blocks[l].term.succs|
            && (forall k :: 0 <= k < |f.blocks[l].term.succs|
                  ==> g.blocks[l].term.succs[k] == Kept(f.blocks[l].term.succs[k], a, b))
  {
  }

  lemma StepElsewhere(sem: Sem, f: Fn, a: nat, b: nat, succ: nat, sf: State, sg: State)
    requires Pair(f, a, b, succ) && SameEntries(f, a, b) && Tracks(f, a, b, sf, sg) && sf.Run? && sf.at !in {a, b}
             && !Step(sem, f, sf).Stuck?
    ensures Tracks(f, a, b, Step(sem, f, sf), Step(sem, Redirect(f, a, b), sg))
  {
    hide Agree, Dead, Enter, Live, Pair, Redirect, SameEntries;
    var x := f.blocks[sf.at];
    var l, l' := Local(sf.regs, sf.trace), Local(sg.regs, sg.trace);
    forall i | 0 <= i < |x.body|
      ensures Live(f, a, b, x.body[i].args)
    {
      ArgsLive(f, a, b, succ, sf.at, i);
    }
    RunSame(sem, f, a, b, x.body, l, l');
    RedirectKeeps(f, a, b, sf.at);
    var r, r' := ExecAll(sem, x.body, l).value, ExecAll(sem, x.body, l').value;
    TermLive(f, a, b, succ, sf.at);
    ValuesAgree(f, a, b, r.regs, r'.regs, x.term.args);
    if x.term.succs != [] {
      var y := x.term.succs[Choose(sem, x.term.kind, ValuesOf(r.regs, x.term.args).value)];
      assert y in f.blocks by { EnterIn(f, y, sf.at, r); }
      EntriesSame(f, a, b, succ, y, sf.at, r.regs, r'.regs);
      assert y == a ==> sf.at in Preds(f, a);
      EnterAgrees(f, a, b, succ, y, sf.at, sf.at, r, r');
    }
  }

  lemma EnterIn(f: Fn, y: nat, p: nat, l: Local)
    requires !Enter(f, y, p, l.regs, l.trace).Stuck?
    ensures y in f.blocks
  {
  }

  /** The successor's phi reads the same value from the erased block in one run and the kept block in the other. */
  lemma PairEntries(f: Fn, a: nat, b: nat, succ: nat, l: nat, regs: Regs, regs': Regs)
    requires Pair(f, a, b, succ) && l in {a, b} && Agree(f, a, b, regs, regs')
    requires |Items(f.blocks[l])| == |Items(f.blocks[b])|
    requires ResultsSet(Items(f.blocks[l]), Items(f.blocks[b]), |Items(f.blocks[l])|, regs, regs')
    ensures succ in f.blocks && PhisReadSame(f.blocks[succ].phis, f.blocks[succ].phis, l, b, regs, regs')
  {
    hide AllIdentical, PlainPreds, Uses, Items, Agree, ResultsSet, UniqueDefs, PhisTyped, DbgPlain, BranchPlain;
    var phis := f.blocks[succ].phis;
    if phis != [] {
      var u, v := Incoming(phis[0].incoming, l).value, Incoming(phis[0].incoming, b).value;
      if u == v {
        EqualEntry(f, a, b, succ, l, u, regs, regs');
      } else {
        OwnEntry(f, a, b, succ, u, v, regs, regs');
      }
    }
  }

  lemma EqualEntry(f: Fn, a: nat, b: nat, succ: nat, l: nat, u: Operand, regs: Regs, regs': Regs)
    requires Pair(f, a, b, succ) && l in {a, b} && Agree(f, a, b, regs, regs') && |f.blocks[succ].phis| == 1
    requires |Items(f.blocks[l])| == |Items(f.blocks[b])|
    requires ResultsSet(Items(f.blocks[l]), Items(f.blocks[b]), |Items(f.blocks[l])|, regs, regs')
    requires Incoming(f.blocks[succ].phis[0].incoming, l) == Some(u) == Incoming(f.blocks[succ].phis[0].incoming, b)
    ensures ValueOf(regs, u).Some? ==> ValueOf(regs', u) == ValueOf(regs, u)
  {
    SuccIn(f, a, b, succ);
    hide Pair, Items, Uses;
    if u.Reg? {
      EntryLive(f, a, b, succ, succ, 0, l, u.r);
      EntryLive(f, a, b, succ, succ, 0, b, u.r);
      if Dead(f, a, b, u.r) {
        SameEntry(f, a, b, l, u.r, regs, regs');
      }
    }
  }

  /** Different values of their own are results at the same position. */
  lemma OwnEntry(f: Fn, a: nat, b: nat, succ: nat, u: Operand, v: Operand, regs: Regs, regs': Regs)
    requires Pair(f, a, b, succ) && |f.blocks[succ].phis| == 1 && DefinedIn(f.blocks[a], u) && DefinedIn(f.blocks[b], v)
    requires |Items(f.blocks[a])| == |Items(f.blocks[b])|
    requires ResultsSet(Items(f.blocks[a]), Items(f.blocks[b]), |Items(f.blocks[a])|, regs, regs')
    requires Incoming(f.blocks[succ].phis[0].incoming, a) == Some(u)
             && Incoming(f.blocks[succ].phis[0].incoming, b) == Some(v)
    ensures ValueOf(regs, u).Some? && ValueOf(regs', v) == ValueOf(regs, u)
  {
    hide Items, Uses, AllIdentical, PlainPreds, UniqueDefs, PhisTyped, DbgPlain, BranchPlain, PhiAgrees;
    OwnEntries(f, a, b, succ, u.r, v.r);
    var k := OwnPosition(f, a, b, succ, u.r, v.r);
  }

  lemma SameEntry(f: Fn, a: nat, b: nat, l: nat, r: nat, regs: Regs, regs': Regs)
    requires a in f.blocks && b in f.blocks && a != b && l in {a, b} && Dead(f, a, b, r)
    requires |Items(f.blocks[l])| == |Items(f.blocks[b])|
    requires ResultsSet(Items(f.blocks[l]), Items(f.blocks[b]), |Items(f.blocks[l])|, regs, regs')
    requires forall m, k :: m in {a, b} && HasResult(f, m, k, r) ==> m == l
    requires forall m, k :: m in {a, b} && HasResult(f, m, k, r) ==> m == b
    ensures r in regs && r in regs' && regs[r] == regs'[r]
  {
    hide Items;
    var k: nat :| HasResult(f, a, k, r) || HasResult(f, b, k, r);
    assert !HasResult(f, a, k, r);
    assert l == b;
  }

  ghost predicate OwnResults(f: Fn, a: nat, b: nat, r: nat, s: nat) {
    (exists k: nat :: HasResult(f, a, k, r)) && (exists k: nat :: HasResult(f, b, k, s))
  }

  lemma OwnEntries(f: Fn, a: nat, b: nat, succ: nat, r: nat, s: nat)
    requires Pair(f, a, b, succ) && DefinedIn(f.blocks[a], Reg(r)) && DefinedIn(f.blocks[b], Reg(s))
    ensures OwnResults(f, a, b, r, s)
  {
    hide Items, AllIdentical, PlainPreds, PhiAgrees;
    var i :| 0 <= i < |Items(f.blocks[a])| && !Items(f.blocks[a])[i].Ty().Void? && Items(f.blocks[a])[i].Dst() == r;
    var j :| 0 <= j < |Items(f.blocks[b])| && !Items(f.blocks[b])[j].Ty().Void? && Items(f.blocks[b])[j].Dst() == s;
    assert HasResult(f, a, i, r);
    assert HasResult(f, b, j, s);
  }

  /** The matching instruction of the kept block has a result too, used as often. */
  lemma Partner(f: Fn, a: nat, b: nat, succ: nat, k: nat, r: nat)
    requires Pair(f, a, b, succ) && HasResult(f, a, k, r)
    ensures b in f.blocks && k < |Items(f.blocks[b])|
    ensures var d := Items(f.blocks[b])[k].Dst(); HasResult(f, b, k, d) && |Uses(f, d)| == |Uses(f, r)|
  {
    hide Items;
    Matched(f, a, b, succ, k);
  }

  /** Values of their own that the phi takes from the two blocks are results of matching instructions. */
  lemma OwnPosition(f: Fn, a: nat, b: nat, succ: nat, r: nat, s: nat) returns (k: nat)
    requires Pair(f, a, b, succ) && OwnResults(f, a, b, r, s) && |f.blocks[succ].phis| == 1
    requires Incoming(f.blocks[succ].phis[0].incoming, a) == Some(Reg(r))
             && Incoming(f.blocks[succ].phis[0].incoming, b) == Some(Reg(s))
    ensures HasResult(f, a, k, r) && HasResult(f, b, k, s)
  {
    hide Pair, Uses;
    assert succ in f.blocks by { assert Pair(f, a, b, succ); SuccIn(f, a, b, succ); }
    k :| HasResult(f, a, k, r);
    Partner(f, a, b, succ, k, r);
    var d := Items(f.blocks[b])[k].Dst();
    var e := FirstIncoming(f.blocks[succ].phis[0].incoming, a);
    UsedInPhi(f, succ, 0, e, r);
    ResultOnlyInPhi(f, a, b, succ, a, k, r);
    OneElement(Uses(f, r), AtPhi(succ, 0, e));
    ResultOnlyInPhi(f, a, b, succ, b, k, d);
    var site: Site :| site in Uses(f, d);
    assert d == s;
  }

  lemma SuccIn(f: Fn, a: nat, b: nat, succ: nat)
    requires Pair(f, a, b, succ)
    ensures succ in f.blocks && a in f.blocks && b in f.blocks && a != b
  {
  }

  lemma StepPair(sem: Sem, f: Fn, a: nat, b: nat, succ: nat, sf: State, sg: State)
    requires Pair(f, a, b, succ) && SameEntries(f, a, b) && Tracks(f, a, b, sf, sg) && sf.Run? && sf.at in {a, b}
             && !Step(sem, f, sf).Stuck?
    ensures Tracks(f, a, b, Step(sem, f, sf), Step(sem, Redirect(f, a, b), sg))
  {
    hide Agree, Dead, Enter, Live, Redirect, UniqueDefs, PhisTyped, AllIdentical, PhiAgrees, PlainPreds,
        SameEntries, Items,
        Twins, SameItems, ResultsSet, AllLive, SameOps;
    var x, y := f.blocks[sf.at], f.blocks[b];
    var p, q := NonDbg(x.body), NonDbg(y.body);
    var l, l' := Local(sf.regs, sf.trace), Local(sg.regs, sg.trace);
    NonDbgRuns(sem, x.body, l);
    NonDbgRuns(sem, y.body, l');
    PairLists(f, a, b, succ, sf.at);
    AfterPhis(x);
    AfterPhis(y);
    RunPair(sem, f, a, b, Items(x), Items(y), |x.phis|, p, q, l, l');
    RedirectKeeps(f, a, b, b);
    var r, r' := ExecAll(sem, p, l).value, ExecAll(sem, q, l').value;
    PairEntries(f, a, b, succ, sf.at, r.regs, r'.regs);
    assert succ == a ==> b in Preds(f, a);
    EnterAgrees(f, a, b, succ, succ, sf.at, b, r, r');
    assert ValuesOf(r.regs, []) == Some([]) && ValuesOf(r'.regs, []) == Some([]);
  }

  lemma AfterPhis(x: Block)
    ensures |x.phis| <= |Items(x)| && Items(x)[|x.phis|..] == InstrItems(NonDbg(x.body))
  {
  }

  /** Step by step the merged function does what the original does. */
  lemma {:induction false} TracksAll(sem: Sem, f: Fn, a: nat, b: nat, succ: nat, regs: Regs, n: nat)
    requires Pair(f, a, b, succ) && SameEntries(f, a, b) && Safe(sem, f, regs)
    ensures Tracks(f, a, b, Steps(sem, f, n, Start(f, regs)), Steps(sem, Redirect(f, a, b), n, Start(f, regs)))
  {
    hide Pair, SameEntries, Redirect, Step, PhisSet;
    if n == 0 {
      NotEntry(f, a, b, succ);
    } else {
      TracksAll(sem, f, a, b, succ, regs, n - 1);
      var sf, sg := Steps(sem, f, n - 1, Start(f, regs)), Steps(sem, Redirect(f, a, b), n - 1, Start(f, regs));
      assert !Steps(sem, f, n, Start(f, regs)).Stuck?;
      if !sf.Run? {
        Rests(sem, f, sf);
        Rests(sem, Redirect(f, a, b), sf);
      } else if sf.at in {a, b} {
        StepPair(sem, f, a, b, succ, sf, sg);
      } else {
        StepElsewhere(sem, f, a, b, succ, sf, sg);
      }
    }
  }

  lemma NotEntry(f: Fn, a: nat, b: nat, succ: nat)
    requires Pair(f, a, b, succ)
    ensures f.entry !in {a, b} && Redirect(f, a, b).entry == f.entry && Redirect(f, a, b).inputs == f.inputs
  {
  }

  lemma Rests(sem: Sem, f: Fn, s: State)
    requires !s.Run?
    ensures Step(sem, f, s) == s
  {
  }

  /**
   Whenever `mergeDuplicatedBlock` redirects a block without phis, or one whose phis have the same entries
   as those of the other, the function behaves as before, and stays valid.
   */
  lemma MergePreserves(sem: Sem, f: Fn, a: nat, b: nat, deleted: set<nat>, regs: Regs)
    requires Valid(f) && Mergeable(f, a, b, deleted) && Safe(sem, f, regs)
    requires f.blocks[a].phis == [] || SameEntries(f, a, b)
    ensures var g := Redirect(f, a, b); SameBehaviour(sem, f, g, regs) && Safe(sem, g, regs) && Valid(g)
  {
    hide Valid, Redirect, Agree, Steps, PhisSet;
    assert SameEntries(f, a, b);
    var g, succ := Redirect(f, a, b), Succ(f, a);
    assert Pair(f, a, b, succ);
    ValidRedirect(f, a, b);
    forall n: nat
      ensures SameView(Steps(sem, f, n, Start(f, regs)), Steps(sem, g, n, Start(g, regs)))
    {
      NotEntry(f, a, b, succ);
      TracksAll(sem, f, a, b, succ, regs, n);
      assert Tracks(f, a, b, Steps(sem, f, n, Start(f, regs)), Steps(sem, g, n, Start(g, regs)));
    }
    InStep(sem, f, g, regs);
  }

  lemma ValidRedirect(f: Fn, a: nat, b: nat)
    requires Valid(f)
    ensures Valid(Redirect(f, a, b))
  {
    hide NonDbg, PhiItems, InstrItems;
    var g := Redirect(f, a, b);
    assert forall l :: l in f.blocks ==> Items(g.blocks[l]) == Items(f.blocks[l]);
    assert forall l, k, r :: l in f.blocks ==> (ItemDefines(g.blocks[l], k, r) <==> ItemDefines(f.blocks[l], k, r));
  }
}
