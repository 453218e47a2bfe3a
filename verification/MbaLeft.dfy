/** Which instructions the arithmetic rewrites replace, said without the test that the passes make. */
module MbaLeft {
  import opened Prelude
  import opened Ssa
  import opened Mba
  import opened Renaming
  import opened DuplicateProof
  import opened MbaProof
  import opened MbaRun

  /** An integer subtraction of any width. */
  predicate Subtraction(i: Instr) { i.ty.Int? && |i.args| == 2 && i.op.Bin? && i.op.kind == Sub }

  /** An addition of 8-bit integers. */
  predicate ByteAddition(i: Instr) { i.ty.Int? && |i.args| == 2 && i.op == Bin(Add, 8) }

  predicate Target(pass: Pass, i: Instr) { if pass.SubPass? then Subtraction(i) else ByteAddition(i) }

  lemma MatchesTarget(pass: Pass, i: Instr)
    ensures Matches(pass, i) <==> Target(pass, i)
  {
  }

  // ----- What stays -----

  /** The instructions that are not to be replaced, in order. */
  function Others(pass: Pass, body: seq<Instr>): seq<Instr> {
    if body == [] then [] else (if Target(pass, body[0]) then [] else [body[0]]) + Others(pass, body[1..])
  }

  /** The instructions that do not define a register from `reg` on. */
  function Older(body: seq<Instr>, reg: nat): seq<Instr> {
    if body == [] then []
    else (if !body[0].ty.Void? && body[0].dst >= reg then [] else [body[0]]) + Older(body[1..], reg)
  }

  lemma {:induction false} OlderAppend(p: seq<Instr>, q: seq<Instr>, reg: nat)
    ensures Older(p + q, reg) == Older(p, reg) + Older(q, reg)
  {
    if p == [] {
      assert p + q == q;
    } else {
      assert (p + q)[1..] == p[1..] + q;
      OlderAppend(p[1..], q, reg);
    }
  }

  lemma {:induction false} OlderNone(p: seq<Instr>, reg: nat)
    requires forall k :: 0 <= k < |p| ==> !p[k].ty.Void? && p[k].dst >= reg
    ensures Older(p, reg) == []
  {
    if p != [] {
      OlderNone(p[1..], reg);
    }
  }

  lemma {:induction false} OlderSame(p: seq<Instr>, q: seq<Instr>, reg: nat)
    requires SameCode(p, q)
    ensures SameCode(Older(p, reg), Older(q, reg))
  {
    if p != [] {
      assert SameBut(p[0], q[0]);
      assert SameCode(p[1..], q[1..]) by { Rest(p, q); }
      OlderSame(p[1..], q[1..], reg);
    }
  }

  lemma Rest(p: seq<Instr>, q: seq<Instr>)
    requires SameCode(p, q) && p != []
    ensures SameCode(p[1..], q[1..])
  {
    forall k | 0 <= k < |p| - 1
      ensures SameBut(p[1..][k], q[1..][k])
    {
      assert SameBut(p[k + 1], q[k + 1]);
    }
  }

  /** What was inserted has new registers; the rest are the original instructions that were not to be replaced. */
  lemma {:induction false} RewriteOlder(s: Site, n: nat, reg: nat)
    requires n <= |s.body| && reg <= s.reg && BodyBelow(s.body, reg)
    ensures Older(Rewrite(s, n), reg) == Others(s.pass, s.body[n..])
    decreases |s.body| - n
  {
    hide Recipe, Matches, Target;
    if n < |s.body| {
      var i := s.body[n];
      RewriteOlder(s, n + 1, reg);
      OlderAppend(Expand(s, n), Rewrite(s, n + 1), reg);
      MatchesTarget(s.pass, i);
      assert s.body[n..][0] == i && s.body[n..][1..] == s.body[n + 1..];
      assert InstrBelow(i, reg);
      if Matches(s.pass, i) {
        RecipeResults(s.pass, i, s.Base(n));
        OlderNone(Expand(s, n), reg);
      } else {
        assert Older([i], reg) == [i] by { OneOlder(i, reg); }
      }
    }
  }

  lemma OneOlder(i: Instr, reg: nat)
    requires !i.ty.Void? ==> i.dst < reg
    ensures Older([i], reg) == [i]
  {
    assert [i][1..] == [];
  }

  // ----- What is inserted -----

  /** An operation and which of its operands are constants. */
  datatype Shape = Shape(op: Op, consts: seq<Option<int>>)

  function ConstsOf(args: seq<Operand>): (r: seq<Option<int>>)
    ensures |r| == |args| && forall k :: 0 <= k < |args| ==> r[k] == ConstOf(args[k])
  {
    seq(|args|, k requires 0 <= k < |args| => ConstOf(args[k]))
  }

  function ShapeOf(i: Instr): Shape { Shape(i.op, ConstsOf(i.args)) }

  /** The instructions that define a register from `reg` on, as shapes. */
  function Newer(body: seq<Instr>, reg: nat): seq<Shape> {
    if body == [] then []
    else (if !body[0].ty.Void? && body[0].dst >= reg then [ShapeOf(body[0])] else []) + Newer(body[1..], reg)
  }

  /**
   What stands in for an instruction: `a + ~b + 1` for a subtraction, and `(39 x + 23) 151 + 111` for an
   addition of bytes, where `x` is `(a xor b) + 2 (a and b)`.
   */
  function StandIn(pass: Pass, i: Instr): seq<Shape>
    requires Target(pass, i)
  {
    var (a, b, w) := (ConstOf(i.args[0]), ConstOf(i.args[1]), i.op.width);
    match pass
    case SubPass => [
      Shape(Bin(Xor, w), [b, Some(-1)]), Shape(Bin(Add, w), [a, None]), Shape(Bin(Add, w), [None, Some(1)])]
    case AddPass => [
      Shape(Bin(Xor, 8), [a, b]), Shape(Bin(And, 8), [a, b]),
      Shape(Bin(Mul, 8), [Some(2), None]), Shape(Bin(Add, 8), [None, None]),
      Shape(Bin(Mul, 8), [None, Some(39)]), Shape(Bin(Add, 8), [None, Some(23)]),
      Shape(Bin(Mul, 8), [None, Some(151)]), Shape(Bin(Add, 8), [None, Some(111)])]
  }

  function StandIns(pass: Pass, body: seq<Instr>): seq<Shape> {
    if body == [] then []
    else (if Target(pass, body[0]) then StandIn(pass, body[0]) else []) + StandIns(pass, body[1..])
  }

  lemma {:induction false} NewerAppend(p: seq<Instr>, q: seq<Instr>, reg: nat)
    ensures Newer(p + q, reg) == Newer(p, reg) + Newer(q, reg)
  {
    hide ShapeOf;
    if p == [] {
      assert p + q == q;
    } else {
      assert (p + q)[1..] == p[1..] + q;
      NewerAppend(p[1..], q, reg);
    }
  }

  lemma {:induction false} NewerAll(p: seq<Instr>, reg: nat)
    requires forall k :: 0 <= k < |p| ==> !p[k].ty.Void? && p[k].dst >= reg
    ensures |Newer(p, reg)| == |p| && forall k :: 0 <= k < |p| ==> Newer(p, reg)[k] == ShapeOf(p[k])
  {
    hide ShapeOf;
    if p != [] {
      NewerAll(p[1..], reg);
    }
  }

  lemma {:induction false} NewerSame(p: seq<Instr>, q: seq<Instr>, reg: nat)
    requires SameCode(p, q)
    ensures Newer(p, reg) == Newer(q, reg)
  {
    hide ShapeOf;
    if p != [] {
      assert SameBut(p[0], q[0]);
      assert SameCode(p[1..], q[1..]) by { Rest(p, q); }
      NewerSame(p[1..], q[1..], reg);
      assert ShapeOf(p[0]) == ShapeOf(q[0]) by { ShapeSame(p[0], q[0]); }
    }
  }

  lemma ShapeSame(i: Instr, j: Instr)
    requires SameBut(i, j)
    ensures ShapeOf(i) == ShapeOf(j)
  {
    assert ConstsOf(i.args) == ConstsOf(j.args);
  }

  lemma RecipeShapes(pass: Pass, i: Instr, base: nat)
    requires Matches(pass, i) && Target(pass, i)
    ensures |Recipe(pass, i, base)| == |StandIn(pass, i)|
    ensures forall k :: 0 <= k < |Recipe(pass, i, base)| ==> ShapeOf(Recipe(pass, i, base)[k]) == StandIn(pass, i)[k]
  {
    forall k | 0 <= k < |Recipe(pass, i, base)|
      ensures ShapeOf(Recipe(pass, i, base)[k]) == StandIn(pass, i)[k]
    {
      assert ConstsOf(Recipe(pass, i, base)[k].args) == StandIn(pass, i)[k].consts;
    }
  }

  lemma RecipeNewer(pass: Pass, i: Instr, base: nat, reg: nat)
    requires Matches(pass, i) && Target(pass, i) && base >= reg
    ensures Newer(Recipe(pass, i, base), reg) == StandIn(pass, i)
  {
    RecipeResults(pass, i, base);
    RecipeShapes(pass, i, base);
    hide Recipe, StandIn, Newer, ShapeOf;
    NewerAll(Recipe(pass, i, base), reg);
  }

  /** Each instruction to be replaced has been, by its stand-in, in the same order, and nothing else is new. */
  lemma {:induction false} RewriteNewer(s: Site, n: nat, reg: nat)
    requires n <= |s.body| && reg <= s.reg && BodyBelow(s.body, reg)
    ensures Newer(Rewrite(s, n), reg) == StandIns(s.pass, s.body[n..])
    decreases |s.body| - n
  {
    hide Recipe, Matches, Target, StandIn, ShapeOf;
    if n < |s.body| {
      var i := s.body[n];
      RewriteNewer(s, n + 1, reg);
      NewerAppend(Expand(s, n), Rewrite(s, n + 1), reg);
      MatchesTarget(s.pass, i);
      assert s.body[n..][0] == i && s.body[n..][1..] == s.body[n + 1..];
      assert InstrBelow(i, reg);
      if Matches(s.pass, i) {
        RecipeNewer(s.pass, i, s.Base(n), reg);
      } else {
        assert Newer([i], reg) == [] by { NotNewer(i, reg); }
      }
    }
  }

  lemma NotNewer(i: Instr, reg: nat)
    requires !i.ty.Void? ==> i.dst < reg
    ensures Newer([i], reg) == []
  {
    assert [i][1..] == [];
  }

  // ----- What is gone -----

  /** No instruction to be replaced is left but additions that were inserted. */
  ghost predicate NoneLeft(pass: Pass, body: seq<Instr>, reg: nat) {
    forall k :: 0 <= k < |body| && Target(pass, body[k]) ==> pass.AddPass? && body[k].dst >= reg
  }

  lemma {:induction false} RewriteNoneLeft(s: Site, n: nat, reg: nat)
    requires n <= |s.body| && reg <= s.reg
    ensures NoneLeft(s.pass, Rewrite(s, n), reg)
    decreases |s.body| - n
  {
    hide Matches, Target, Recipe;
    if n < |s.body| {
      RewriteNoneLeft(s, n + 1, reg);
      MatchesTarget(s.pass, s.body[n]);
      if Matches(s.pass, s.body[n]) {
        RecipeResults(s.pass, s.body[n], s.Base(n));
        NoneInserted(s.pass, s.body[n], s.Base(n));
      }
      var p, q := Expand(s, n), Rewrite(s, n + 1);
      forall k | 0 <= k < |p + q| && Target(s.pass, (p + q)[k])
        ensures s.pass.AddPass? && (p + q)[k].dst >= reg
      {
        assert (p + q)[k] == if k < |p| then p[k] else q[k - |p|];
      }
    }
  }

  lemma NoneInserted(pass: Pass, i: Instr, base: nat)
    requires Matches(pass, i)
    ensures pass.SubPass? ==> forall k :: 0 <= k < |Recipe(pass, i, base)| ==> !Target(pass, Recipe(pass, i, base)[k])
  {
  }

  lemma NoneLeftSame(pass: Pass, p: seq<Instr>, q: seq<Instr>, reg: nat)
    requires SameCode(p, q) && NoneLeft(pass, p, reg)
    ensures NoneLeft(pass, q, reg)
  {
    forall k | 0 <= k < |q| && Target(pass, q[k])
      ensures pass.AddPass? && q[k].dst >= reg
    {
      assert SameBut(p[k], q[k]);
    }
  }

  // ----- Whole runs -----

  /**
   Block `y` is block `x` after the pass: what was not to be replaced is there in the same order, possibly
   reading other registers; of the rest only inserted additions are left; and what is new are the stand-ins.
   */
  ghost predicate Cleared(pass: Pass, x: Block, y: Block, reg: nat) {
    && SameCode(Others(pass, x.body), Older(y.body, reg)) && NoneLeft(pass, y.body, reg)
    && Newer(y.body, reg) == StandIns(pass, x.body)
  }

  lemma TargetsGone(w: Progress, pass: Pass, lab: nat, order: seq<nat>, l: nat)
    requires Valid(w, lab, order) && l in w.f.blocks && l in order
    ensures var g := RewriteAll(w, pass, order).f; l in g.blocks && Cleared(pass, w.f.blocks[l], g.blocks[l], w.reg)
  {
    hide Rewrite, SameCode, SingleDef, DistinctBody, RewriteAll, Older, Others, NoneLeft, Newer, StandIns;
    EachOnce(w, pass, lab, order, l);
    var x, y := w.f.blocks[l], RewriteAll(w, pass, order).f.blocks[l];
    var reg: nat :| reg >= w.reg && RewrittenOnce(x, y, pass, reg);
    var s := Site(pass, x.body, reg);
    assert BodyBelow(x.body, w.reg) by { assert BlockBelow(x, w.reg, lab); }
    RewriteOlder(s, 0, w.reg);
    assert s.body[0..] == x.body;
    OlderSame(Rewrite(s, 0), y.body, w.reg);
    RewriteNewer(s, 0, w.reg);
    NewerSame(Rewrite(s, 0), y.body, w.reg);
    RewriteNoneLeft(s, 0, w.reg);
    NoneLeftSame(pass, Rewrite(s, 0), y.body, w.reg);
  }

  /** How many instructions of a body are to be replaced. */
  function Targets(pass: Pass, body: seq<Instr>): nat {
    if body == [] then 0 else (if Target(pass, body[0]) then 1 else 0) + Targets(pass, body[1..])
  }

  predicate HasTarget(pass: Pass, body: seq<Instr>) { exists k :: 0 <= k < |body| && Target(pass, body[k]) }

  function TargetsIn(f: Fn, pass: Pass, order: seq<nat>): nat
    requires forall k :: 0 <= k < |order| ==> order[k] in f.blocks
  {
    if order == [] then 0 else Targets(pass, f.blocks[order[0]].body) + TargetsIn(f, pass, order[1..])
  }

  ghost predicate SomeBlockHas(f: Fn, pass: Pass, order: seq<nat>) {
    exists l :: l in order && l in f.blocks && HasTarget(pass, f.blocks[l].body)
  }

  lemma {:induction false} SomeBlockHasTarget(f: Fn, pass: Pass, order: seq<nat>)
    requires forall k :: 0 <= k < |order| ==> order[k] in f.blocks
    ensures TargetsIn(f, pass, order) > 0 <==> SomeBlockHas(f, pass, order)
  {
    hide HasTarget;
    if order != [] {
      SomeBlockHasTarget(f, pass, order[1..]);
      SomeTarget(pass, f.blocks[order[0]].body);
      assert forall l :: l in order <==> l == order[0] || l in order[1..];
    }
  }

  lemma {:induction false} SomeTarget(pass: Pass, body: seq<Instr>)
    ensures Targets(pass, body) > 0 <==> HasTarget(pass, body)
  {
    if body != [] {
      SomeTarget(pass, body[1..]);
      if k :| 0 <= k < |body| - 1 && Target(pass, body[1..][k]) {
        assert Target(pass, body[k + 1]);
      }
      if k :| 0 <= k < |body| && Target(pass, body[k]) {
        assert k > 0 ==> body[1..][k - 1] == body[k];
      }
    }
  }
}
