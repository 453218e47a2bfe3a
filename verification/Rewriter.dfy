/**
 `MBAAdd` and `MBASub` as they run: new instructions go in front of a matching one, its uses are
 replaced at once, and it stays in the block until everything on the free list is erased at the end.
 */
module Rewriter {
  import opened Ssa
  import opened Mba
  import opened Renaming
  import opened Duplicate
  import opened DuplicateProof
  import opened MbaProof
  import opened MbaRun
  import opened MbaLeft

  function UpTo(s: Site, n: nat): Rename
    requires n <= |s.body|
  {
    r => NameUpTo(s, n, r)
  }

  /** Replacing all uses of `d` by uses of `k`. */
  function One(d: nat, k: nat): Rename { r => if r == d then k else r }

  /** The first `n` instructions, each matching one behind what was inserted for it. */
  function Mixed(s: Site, n: nat): seq<Instr>
    requires n <= |s.body|
  {
    if n == 0 then []
    else
      Mixed(s, n - 1) + (if Matches(s.pass, s.body[n - 1]) then Recipe(s.pass, s.body[n - 1], s.Base(n - 1)) else [])
      + [s.body[n - 1]]
  }

  /** The function during the visit of block `at`, after `n` of its instructions. */
  function Midway(f: Fn, s: Site, at: nat, n: nat): Fn
    requires at in f.blocks && n <= |s.body|
  {
    f.(blocks := map l | l in f.blocks ::
      RenameBlock(if l == at then f.blocks[l].(body := Mixed(s, n) + s.body[n..]) else f.blocks[l], UpTo(s, n), 0, 0))
  }

  function RenameAll(f: Fn, g: Rename): Fn {
    f.(blocks := map l | l in f.blocks :: RenameBlock(f.blocks[l], g, 0, 0))
  }

  /** The results of the instructions to be erased. */
  function Dead(pass: Pass, body: seq<Instr>): seq<nat> {
    if body == [] then []
    else (if Matches(pass, body[0]) then [body[0].dst] else []) + Dead(pass, body[1..])
  }

  function Erased(body: seq<Instr>, dead: seq<nat>): seq<Instr> {
    if body == [] then []
    else (if !body[0].ty.Void? && body[0].dst in dead then [] else [body[0]]) + Erased(body[1..], dead)
  }

  function Erase(f: Fn, dead: seq<nat>): Fn {
    f.(blocks := map l | l in f.blocks :: f.blocks[l].(body := Erased(f.blocks[l].body, dead)))
  }

  /** The number of matching instructions in the blocks listed. */
  function CountAll(f: Fn, pass: Pass, order: seq<nat>): nat
    requires forall k :: 0 <= k < |order| ==> order[k] in f.blocks
  {
    if order == [] then 0 else |Dead(pass, f.blocks[order[0]].body)| + CountAll(f, pass, order[1..])
  }

  // ----- Replacing all uses -----

  predicate OpReplaced(op: Operand, op': Operand, d: nat, k: nat) { op' == if op == Reg(d) then Reg(k) else op }

  ghost predicate OpsReplaced(ops: seq<Operand>, ops': seq<Operand>, d: nat, k: nat) {
    |ops'| == |ops| && forall i :: 0 <= i < |ops| ==> OpReplaced(ops[i], ops'[i], d, k)
  }

  ghost predicate PhiReplaced(p: Phi, p': Phi, d: nat, k: nat) {
    && p'.ty == p.ty && p'.dst == p.dst && |p'.incoming| == |p.incoming|
    && (forall i :: 0 <= i < |p.incoming|
          ==> p'.incoming[i].0 == p.incoming[i].0 && OpReplaced(p.incoming[i].1, p'.incoming[i].1, d, k))
  }

  /** Every operand that was `d` is `k` now, and nothing else is different. */
  ghost predicate BlockReplaced(x: Block, y: Block, d: nat, k: nat) {
    && |y.phis| == |x.phis| && (forall i :: 0 <= i < |x.phis| ==> PhiReplaced(x.phis[i], y.phis[i], d, k))
    && |y.body| == |x.body|
    && (forall i :: 0 <= i < |x.body|
          ==> y.body[i].(args := x.body[i].args) == x.body[i] && OpsReplaced(x.body[i].args, y.body[i].args, d, k))
    && y.term.(args := x.term.args) == x.term && OpsReplaced(x.term.args, y.term.args, d, k)
  }

  ghost predicate NotRead(x: Block, d: nat) {
    && (forall i, j :: 0 <= i < |x.phis| && 0 <= j < |x.phis[i].incoming| ==> x.phis[i].incoming[j].1 != Reg(d))
    && (forall i :: 0 <= i < |x.body| ==> Reg(d) !in x.body[i].args)
    && Reg(d) !in x.term.args
  }

  ghost predicate AllReplaced(f: Fn, g: Fn, d: nat, k: nat) {
    && g.entry == f.entry && g.inputs == f.inputs && g.blocks.Keys == f.blocks.Keys
    && (forall l :: l in f.blocks
          ==> BlockReplaced(f.blocks[l], g.blocks[l], d, k) && (d != k ==> NotRead(g.blocks[l], d)))
  }

  /** The renaming replaces `d` by `k` wherever it is read; unless they are the same nothing reads `d` afterwards. */
  lemma RenamedReplaces(f: Fn, d: nat, k: nat)
    ensures AllReplaced(f, RenameAll(f, One(d, k)), d, k)
  {
    hide RenameBlock, BlockReplaced, NotRead, One;
    var g := RenameAll(f, One(d, k));
    forall l | l in f.blocks
      ensures BlockReplaced(f.blocks[l], g.blocks[l], d, k) == true
      ensures d != k ==> NotRead(g.blocks[l], d) == true
    {
      OneReplaces(f.blocks[l], d, k);
      if d != k {
        ReadNoMore(f.blocks[l], g.blocks[l], d, k);
      }
    }
  }

  lemma OneReplaces(x: Block, d: nat, k: nat)
    ensures BlockReplaced(x, RenameBlock(x, One(d, k), 0, 0), d, k)
  {
  }

  lemma ReadNoMore(x: Block, y: Block, d: nat, k: nat)
    requires BlockReplaced(x, y, d, k) && d != k
    ensures NotRead(y, d)
  {
    forall i, j | 0 <= i < |y.phis| && 0 <= j < |y.phis[i].incoming|
      ensures y.phis[i].incoming[j].1 != Reg(d)
    {
      assert PhiReplaced(x.phis[i], y.phis[i], d, k);
    }
    forall i | 0 <= i < |y.body|
      ensures Reg(d) !in y.body[i].args
    {
      assert OpsReplaced(x.body[i].args, y.body[i].args, d, k);
    }
  }

  // ----- Renaming twice -----

  ghost predicate Composes(f: Rename, g: Rename, h: Rename) { forall r: nat :: g(f(r)) == h(r) }

  lemma OpsTwice(ops: seq<Operand>, f: Rename, g: Rename, h: Rename)
    requires Composes(f, g, h)
    ensures RenameOps(RenameOps(ops, f), g) == RenameOps(ops, h)
  {
  }

  lemma BodyTwice(body: seq<Instr>, f: Rename, g: Rename, h: Rename)
    requires Composes(f, g, h)
    ensures RenameBody(RenameBody(body, f), g) == RenameBody(body, h)
  {
    hide Composes;
    forall k | 0 <= k < |body|
      ensures RenameOps(RenameOps(body[k].args, f), g) == RenameOps(body[k].args, h)
    {
      OpsTwice(body[k].args, f, g, h);
    }
  }

  lemma PhisTwice(phis: seq<Phi>, f: Rename, g: Rename, h: Rename)
    requires Composes(f, g, h)
    ensures RenamePhis(RenamePhis(phis, f, 0, 0), g, 0, 0) == RenamePhis(phis, h, 0, 0)
  {
    hide Composes, RenameIncoming;
    forall k | 0 <= k < |phis|
      ensures RenameIncoming(RenameIncoming(phis[k].incoming, f, 0, 0), g, 0, 0)
              == RenameIncoming(phis[k].incoming, h, 0, 0)
    {
      IncomingTwice(phis[k].incoming, f, g, h);
    }
  }

  lemma IncomingTwice(incoming: seq<(nat, Operand)>, f: Rename, g: Rename, h: Rename)
    requires Composes(f, g, h)
    ensures RenameIncoming(RenameIncoming(incoming, f, 0, 0), g, 0, 0) == RenameIncoming(incoming, h, 0, 0)
  {
  }

  lemma BlockTwice(x: Block, f: Rename, g: Rename, h: Rename)
    requires Composes(f, g, h)
    ensures RenameBlock(RenameBlock(x, f, 0, 0), g, 0, 0) == RenameBlock(x, h, 0, 0)
  {
    hide Composes;
    PhisTwice(x.phis, f, g, h);
    BodyTwice(x.body, f, g, h);
    OpsTwice(x.term.args, f, g, h);
  }

  function Same(): Rename { r => r }

  lemma Unchanged(x: Block)
    ensures RenameBlock(x, Same(), 0, 0) == x
  {
    assert forall k :: 0 <= k < |x.body| ==> RenameOps(x.body[k].args, Same()) == x.body[k].args;
    assert RenameBody(x.body, Same()) == x.body;
    forall k | 0 <= k < |x.phis|
      ensures RenameIncoming(x.phis[k].incoming, Same(), 0, 0) == x.phis[k].incoming
    {
    }
    assert RenamePhis(x.phis, Same(), 0, 0) == x.phis;
    assert RenameOps(x.term.args, Same()) == x.term.args;
  }

  /** Renamings that agree everywhere give the same block. */
  lemma BlockAgrees(x: Block, f: Rename, h: Rename)
    requires Composes(f, Same(), h)
    ensures RenameBlock(x, f, 0, 0) == RenameBlock(x, h, 0, 0)
  {
    hide RenameBlock, Composes;
    BlockTwice(x, f, Same(), h);
    Unchanged(RenameBlock(x, f, 0, 0));
  }

  // ----- One instruction -----

  lemma NextName(s: Site, n: nat)
    requires SiteOk(s) && n < |s.body|
    ensures Matches(s.pass, s.body[n]) ==> Composes(UpTo(s, n), One(s.body[n].dst, Replacement(s, n)), UpTo(s, n + 1))
    ensures !Matches(s.pass, s.body[n]) ==> Composes(UpTo(s, n), Same(), UpTo(s, n + 1))
  {
    var d := s.body[n].dst;
    assert InstrBelow(s.body[n], s.reg);
    forall r: nat
      ensures NameUpTo(s, n + 1, r)
              == if Defines(s.body[n], r) && Matches(s.pass, s.body[n]) then Replacement(s, n) else NameUpTo(s, n, r)
      ensures Defines(s.body[n], r) ==> NameUpTo(s, n, r) == r
      ensures NameUpTo(s, n, r) == r || NameUpTo(s, n, r) >= s.reg
    {
      LastDefStep(s.body, n, r);
      var i := LastDef(s.body, n, r);
      assert i.Some? ==> Defines(s.body[i.value], r);
    }
  }

  lemma NamesFix(s: Site, n: nat, r: nat)
    requires SiteOk(s) && n <= |s.body| && r >= s.reg
    ensures NameUpTo(s, n, r) == r
  {
    var i := LastDef(s.body, n, r);
    assert i.Some? ==> InstrBelow(s.body[i.value], s.reg);
  }

  /** Renaming what is inserted for `i`, when the renamings leave new registers alone. */
  lemma RecipeTwice(pass: Pass, i: Instr, base: nat, f: Rename, g: Rename, h: Rename)
    requires Matches(pass, i) && Composes(f, g, h) && forall r: nat :: r >= base ==> g(r) == r && h(r) == r
    ensures Matches(pass, i.(args := RenameOps(i.args, f)))
    ensures RenameBody(Recipe(pass, i.(args := RenameOps(i.args, f)), base), g) == RenameBody(Recipe(pass, i, base), h)
  {
    hide Recipe, RenameBody;
    var j := i.(args := RenameOps(i.args, f));
    assert RenameOp(j.args[0], g) == RenameOp(i.args[0], h) && RenameOp(j.args[1], g) == RenameOp(i.args[1], h);
    if pass.AddPass? {
      AddRenamed(i, base, h);
      AddRenamed(j, base, g);
    } else {
      SubRenamed(i, base, h);
      SubRenamed(j, base, g);
    }
  }

  /** Inserting before a matching instruction and replacing its uses, in its own block. */
  lemma MatchingDone(s: Site, n: nat)
    requires SiteOk(s) && n < |s.body| && Matches(s.pass, s.body[n])
    ensures var body := RenameBody(Mixed(s, n) + s.body[n..], UpTo(s, n));
            var i := s.body[n].(args := RenameOps(s.body[n].args, UpTo(s, n)));
            var pos := |Mixed(s, n)|;
            && pos < |body| && body[pos] == i && Matches(s.pass, i)
            && RenameBody(body[..pos] + Recipe(s.pass, i, s.Base(n)) + body[pos..], One(i.dst, Replacement(s, n)))
               == RenameBody(Mixed(s, n + 1) + s.body[n + 1..], UpTo(s, n + 1))
  {
    hide Recipe, UpTo, One, Replacement, RenameBody, DistinctBody, Matches;
    var f, h := UpTo(s, n), UpTo(s, n + 1);
    var i := s.body[n];
    var g := One(i.dst, Replacement(s, n));
    NextName(s, n);
    NewFixed(s, n);
    assert forall r: nat :: r >= s.Base(n) ==> g(r) == r && h(r) == r;
    RecipeTwice(s.pass, i, s.Base(n), f, g, h);
    var j := i.(args := RenameOps(i.args, f));
    var m, rest := Mixed(s, n), s.body[n..];
    Halves(m, rest, f);
    RenameThree(RenameBody(m, f), Recipe(s.pass, j, s.Base(n)), RenameBody(rest, f), g);
    BodyTwice(m, f, g, h);
    BodyTwice(rest, f, g, h);
    RenameThree(m, Recipe(s.pass, i, s.Base(n)), rest, h);
    assert Mixed(s, n + 1) + s.body[n + 1..] == m + Recipe(s.pass, i, s.Base(n)) + rest;
  }

  lemma NewFixed(s: Site, n: nat)
    requires SiteOk(s) && n < |s.body| && Matches(s.pass, s.body[n])
    ensures forall r: nat :: r >= s.Base(n) ==> One(s.body[n].dst, Replacement(s, n))(r) == r && UpTo(s, n + 1)(r) == r
  {
    assert InstrBelow(s.body[n], s.reg);
    forall r: nat | r >= s.Base(n)
      ensures One(s.body[n].dst, Replacement(s, n))(r) == r && UpTo(s, n + 1)(r) == r
    {
      NamesFix(s, n + 1, r);
    }
  }

  lemma Halves(m: seq<Instr>, rest: seq<Instr>, f: Rename)
    ensures RenameBody(m + rest, f)[..|m|] == RenameBody(m, f) && RenameBody(m + rest, f)[|m|..] == RenameBody(rest, f)
  {
    hide RenameBody;
    RenameAppend(m, rest, f);
  }

  lemma RenameThree(p: seq<Instr>, c: seq<Instr>, q: seq<Instr>, f: Rename)
    ensures RenameBody(p + c + q, f) == RenameBody(p, f) + RenameBody(c, f) + RenameBody(q, f)
  {
    hide RenameBody;
    RenameAppend(p + c, q, f);
    RenameAppend(p, c, f);
  }

  lemma SkippedDone(s: Site, n: nat)
    requires n < |s.body| && !Matches(s.pass, s.body[n])
    ensures Mixed(s, n + 1) + s.body[n + 1..] == Mixed(s, n) + s.body[n..]
    ensures |Mixed(s, n + 1)| == |Mixed(s, n)| + 1
  {
  }

  lemma AtStart(f: Fn, s: Site, at: nat)
    requires at in f.blocks && s.body == f.blocks[at].body
    ensures f == Midway(f, s, at, 0)
  {
    hide RenameBlock;
    assert Mixed(s, 0) + s.body[0..] == s.body;
    forall l | l in f.blocks
      ensures RenameBlock(f.blocks[l], UpTo(s, 0), 0, 0) == f.blocks[l]
    {
      assert Composes(UpTo(s, 0), Same(), Same());
      BlockAgrees(f.blocks[l], UpTo(s, 0), Same());
      Unchanged(f.blocks[l]);
    }
    assert forall l :: l in f.blocks ==> Midway(f, s, at, 0).blocks[l] == f.blocks[l];
    assert Midway(f, s, at, 0).blocks == f.blocks;
  }

  lemma BodyMidway(f: Fn, s: Site, at: nat, n: nat)
    requires at in f.blocks && n < |s.body|
    ensures at in Midway(f, s, at, n).blocks
    ensures var body := Midway(f, s, at, n).blocks[at].body;
            body == RenameBody(Mixed(s, n) + s.body[n..], UpTo(s, n)) && |Mixed(s, n)| < |body|
            && body[|Mixed(s, n)|] == s.body[n].(args := RenameOps(s.body[n].args, UpTo(s, n)))
  {
  }

  lemma MidwaySkips(f: Fn, s: Site, at: nat, n: nat)
    requires at in f.blocks && n < |s.body| && SiteOk(s) && !Matches(s.pass, s.body[n])
    ensures Midway(f, s, at, n + 1) == Midway(f, s, at, n)
  {
    hide RenameBlock, Mixed, UpTo;
    NextName(s, n);
    SkippedDone(s, n);
    var g, h := Midway(f, s, at, n), Midway(f, s, at, n + 1);
    forall l | l in f.blocks
      ensures g.blocks[l] == h.blocks[l]
    {
      BlockAgrees(if l == at then f.blocks[l].(body := Mixed(s, n) + s.body[n..]) else f.blocks[l], UpTo(s, n),
          UpTo(s, n + 1));
    }
    assert g.blocks == h.blocks;
  }

  /** One turn of the inner loop at a matching instruction. */
  lemma MidwayNext(f: Fn, s: Site, at: nat, n: nat)
    requires at in f.blocks && n < |s.body| && SiteOk(s) && Matches(s.pass, s.body[n])
    ensures var g := Midway(f, s, at, n);
            var body, pos := g.blocks[at].body, |Mixed(s, n)|;
            && pos < |body| && Matches(s.pass, body[pos]) && body[pos].dst == s.body[n].dst
            && RenameAll(g.(blocks := g.blocks[at := g.blocks[at].(body := body[..pos]
               + Recipe(s.pass, body[pos], s.Base(n)) + body[pos..])]), One(s.body[n].dst, Replacement(s, n)))
               == Midway(f, s, at, n + 1)
    ensures |Mixed(s, n + 1)| == |Mixed(s, n)| + Length(s.pass) + 1
  {
    hide RenameBody, RenamePhis, RenameTerm, RenameOps, Recipe, UpTo, One, Replacement;
    MatchingDone(s, n);
    NextName(s, n);
    var g, h := Midway(f, s, at, n), Midway(f, s, at, n + 1);
    BodyMidway(f, s, at, n);
    var body, pos := g.blocks[at].body, |Mixed(s, n)|;
    var body' := body[..pos] + Recipe(s.pass, body[pos], s.Base(n)) + body[pos..];
    var k := g.(blocks := g.blocks[at := g.blocks[at].(body := body')]);
    var g1 := RenameAll(k, One(s.body[n].dst, Replacement(s, n)));
    forall l | l in f.blocks
      ensures g1.blocks[l] == h.blocks[l]
    {
      BlockTwice(f.blocks[l], UpTo(s, n), One(s.body[n].dst, Replacement(s, n)), UpTo(s, n + 1));
    }
    assert g1.blocks == h.blocks;
  }

  // ----- Erasing -----

  lemma ErasedCons(h: Instr, body: seq<Instr>, dead: seq<nat>)
    ensures Erased([h] + body, dead) == (if !h.ty.Void? && h.dst in dead then [] else [h]) + Erased(body, dead)
  {
    assert ([h] + body)[1..] == body;
  }

  lemma ErasedFew(i: Instr, dead: seq<nat>)
    ensures Erased([i], dead) == if !i.ty.Void? && i.dst in dead then [] else [i]
  {
  }

  lemma {:induction false} ErasedAppend(p: seq<Instr>, q: seq<Instr>, dead: seq<nat>)
    ensures Erased(p + q, dead) == Erased(p, dead) + Erased(q, dead)
  {
    hide Erased;
    if p == [] {
      assert p + q == q;
      assert Erased(p, dead) == [] by { EmptyErased(dead); }
    } else {
      ErasedAppend(p[1..], q, dead);
      assert p + q == [p[0]] + (p[1..] + q) && p == [p[0]] + p[1..];
      ErasedCons(p[0], p[1..] + q, dead);
      ErasedCons(p[0], p[1..], dead);
    }
  }

  lemma EmptyErased(dead: seq<nat>)
    ensures Erased([], dead) == []
  {
  }

  /** Nothing is erased from a body that defines none of the registers. */
  lemma {:induction false} ErasedNone(body: seq<Instr>, dead: seq<nat>)
    requires forall k, r :: 0 <= k < |body| && r in dead ==> !Defines(body[k], r)
    ensures Erased(body, dead) == body
  {
    if body != [] {
      ErasedNone(body[1..], dead);
      assert !body[0].ty.Void? && body[0].dst in dead ==> Defines(body[0], body[0].dst);
    }
  }

  lemma {:induction false} ErasedRenamed(body: seq<Instr>, dead: seq<nat>, f: Rename)
    ensures Erased(RenameBody(body, f), dead) == RenameBody(Erased(body, dead), f)
  {
    if body != [] {
      ErasedRenamed(body[1..], dead, f);
      assert RenameBody(body, f)[1..] == RenameBody(body[1..], f);
      assert RenameBody(body, f)[0] == body[0].(args := RenameOps(body[0].args, f));
      RenameAppend(Erased(body[..1], dead), Erased(body[1..], dead), f);
      assert Erased(body, dead) == Erased(body[..1], dead) + Erased(body[1..], dead) by {
        assert body[..1] + body[1..] == body;
        ErasedAppend(body[..1], body[1..], dead);
      }
      assert Erased(body[..1], dead) == if !body[0].ty.Void? && body[0].dst in dead then [] else [body[0]];
    }
  }

  lemma {:induction false} ErasedTwice(body: seq<Instr>, d: nat, dead: seq<nat>)
    ensures Erased(Erased(body, [d]), dead) == Erased(body, [d] + dead)
  {
    if body != [] {
      var h, e := body[0], Erased(body[1..], [d]);
      ErasedTwice(body[1..], d, dead);
      assert h.dst in [d] + dead <==> h.dst == d || h.dst in dead;
      if !h.ty.Void? && h.dst == d {
        assert Erased(body, [d]) == e;
      } else {
        assert Erased(body, [d]) == [h] + e;
        ErasedCons(h, e, dead);
      }
    }
  }

  lemma EraseTwice(f: Fn, d: nat, dead: seq<nat>)
    ensures Erase(Erase(f, [d]), dead) == Erase(f, [d] + dead)
  {
    hide Erased;
    forall l | l in f.blocks
      ensures Erase(Erase(f, [d]), dead).blocks[l] == Erase(f, [d] + dead).blocks[l]
    {
      ErasedTwice(f.blocks[l].body, d, dead);
    }
    assert Erase(Erase(f, [d]), dead).blocks == Erase(f, [d] + dead).blocks;
  }

  lemma NothingErased(f: Fn)
    ensures Erase(f, []) == f
  {
    forall l | l in f.blocks
      ensures Erase(f, []).blocks[l] == f.blocks[l]
    {
      ErasedNone(f.blocks[l].body, []);
    }
    assert Erase(f, []).blocks == f.blocks;
  }

  /** The matching instructions of a site are dead, nothing else of its code is. */
  ghost predicate DeadHere(s: Site, dead: seq<nat>) {
    && (forall k :: 0 <= k < |s.body| && !s.body[k].ty.Void?
          ==> (s.body[k].dst in dead <==> Matches(s.pass, s.body[k])))
    && (forall r :: r in dead ==> r < s.reg)
  }

  /** Once the dead instructions are gone only the replacements are left. */
  lemma {:induction false} MixedErased(s: Site, n: nat, dead: seq<nat>)
    requires n <= |s.body| && DeadHere(s, dead)
    ensures Erased(Mixed(s, n), dead) + Rewrite(s, n) == Rewrite(s, 0)
  {
    hide Recipe, Erased, Matches, Rewrite;
    if n == 0 {
      EmptyErased(dead);
    } else {
      MixedErased(s, n - 1, dead);
      var i := s.body[n - 1];
      var code := if Matches(s.pass, i) then Recipe(s.pass, i, s.Base(n - 1)) else [];
      ErasedAppend(Mixed(s, n - 1) + code, [i], dead);
      ErasedAppend(Mixed(s, n - 1), code, dead);
      if Matches(s.pass, i) {
        RecipeResults(s.pass, i, s.Base(n - 1));
        ErasedNone(code, dead);
      }
      ErasedFew(i, dead);
      EmptyErased(dead);
      assert !i.ty.Void? ==> (i.dst in dead <==> Matches(s.pass, i));
      MatchesNotVoid(s.pass, i);
      RewriteStep(s, n - 1);
      assert Erased(Mixed(s, n), dead) + Rewrite(s, n)
          == Erased(Mixed(s, n - 1), dead) + (Expand(s, n - 1) + Rewrite(s, n));
    }
  }

  lemma MatchesNotVoid(pass: Pass, i: Instr)
    ensures Matches(pass, i) ==> !i.ty.Void?
  {
  }

  lemma RewriteStep(s: Site, n: nat)
    requires n < |s.body|
    ensures Rewrite(s, n) == Expand(s, n) + Rewrite(s, n + 1)
  {
  }

  lemma DeadStep(pass: Pass, body: seq<Instr>, n: nat)
    requires n < |body|
    ensures Dead(pass, body[n..]) == (if Matches(pass, body[n]) then [body[n].dst] else []) + Dead(pass, body[n + 1..])
  {
    assert body[n..][0] == body[n] && body[n..][1..] == body[n + 1..];
  }

  lemma DeadEmpty(pass: Pass)
    ensures Dead(pass, []) == []
  {
  }

  lemma {:induction false} DeadAre(pass: Pass, body: seq<Instr>, r: nat)
    ensures r in Dead(pass, body) <==> exists k :: 0 <= k < |body| && Matches(pass, body[k]) && Defines(body[k], r)
  {
    if body != [] {
      DeadAre(pass, body[1..], r);
      if r in Dead(pass, body[1..]) {
        var k :| 0 <= k < |body[1..]| && Matches(pass, body[1..][k]) && Defines(body[1..][k], r);
        assert Matches(pass, body[k + 1]) && Defines(body[k + 1], r);
      }
      if k :| 0 <= k < |body| && Matches(pass, body[k]) && Defines(body[k], r) {
        if k > 0 {
          assert Matches(pass, body[1..][k - 1]) && Defines(body[1..][k - 1], r);
        }
      }
      if Matches(pass, body[0]) {
        assert Defines(body[0], body[0].dst);
      }
    }
  }

  /** Between two blocks: nothing listed for erasure is in a block that is still to be visited. */
  ghost predicate Clear(f: Fn, reg: nat, dead: seq<nat>, lab: nat, rest: seq<nat>) {
    && Valid(Progress(Erase(f, dead), reg), lab, rest)
    && (forall r :: r in dead ==> r < reg)
    && (forall k, r :: 0 <= k < |rest| && r in dead ==> !BodyDefines(f.blocks[rest[k]], r))
  }

  lemma ClearBlock(f: Fn, reg: nat, dead: seq<nat>, lab: nat, rest: seq<nat>, k: nat)
    requires Clear(f, reg, dead, lab, rest) && k < |rest|
    ensures rest[k] in f.blocks && Erase(f, dead).blocks[rest[k]] == f.blocks[rest[k]]
  {
    var x := f.blocks[rest[k]];
    forall i, r | 0 <= i < |x.body| && r in dead
      ensures !Defines(x.body[i], r)
    {
      assert !BodyDefines(x, r);
    }
    ErasedNone(x.body, dead);
  }

  lemma ClearSite(f: Fn, pass: Pass, reg: nat, dead: seq<nat>, lab: nat, rest: seq<nat>)
    requires Clear(f, reg, dead, lab, rest) && rest != []
    ensures rest[0] in f.blocks && SiteOk(SiteOf(f, pass, rest[0], reg))
  {
    ClearBlock(f, reg, dead, lab, rest, 0);
    assert BlockBelow(Erase(f, dead).blocks[rest[0]], reg, lab);
  }

  /** An instruction found dead in one block is in no other. */
  lemma DeadElsewhere(f: Fn, pass: Pass, reg: nat, dead: seq<nat>, lab: nat, rest: seq<nat>, l: nat, r: nat)
    requires Clear(f, reg, dead, lab, rest) && rest != [] && rest[0] in f.blocks && l in f.blocks && l != rest[0]
    requires r in Dead(pass, f.blocks[rest[0]].body)
    ensures !BodyDefines(Erase(f, dead).blocks[l], r)
  {
    ClearBlock(f, reg, dead, lab, rest, 0);
    DeadAre(pass, f.blocks[rest[0]].body, r);
    assert BodyDefines(Erase(f, dead).blocks[rest[0]], r);
  }

  lemma {:induction false} ErasedMore(body: seq<Instr>, dead: seq<nat>, more: seq<nat>)
    requires forall k, r :: 0 <= k < |body| && r in more && r !in dead ==> !Defines(body[k], r)
    ensures Erased(body, dead + more) == Erased(body, dead)
  {
    if body != [] {
      ErasedMore(body[1..], dead, more);
      assert !body[0].ty.Void? ==> Defines(body[0], body[0].dst);
    }
  }

  lemma {:induction false} ErasedIn(body: seq<Instr>, dead: seq<nat>, k: nat)
    requires k < |body| && (body[k].ty.Void? || body[k].dst !in dead)
    ensures exists j :: 0 <= j < |Erased(body, dead)| && Erased(body, dead)[j] == body[k]
  {
    if k == 0 {
      assert Erased(body, dead)[0] == body[0];
    } else {
      ErasedIn(body[1..], dead, k - 1);
      var j :| 0 <= j < |Erased(body[1..], dead)| && Erased(body[1..], dead)[j] == body[1..][k - 1];
      var skip := |Erased(body, dead)| - |Erased(body[1..], dead)|;
      assert Erased(body, dead)[j + skip] == body[k];
    }
  }

  lemma StillDefined(f: Fn, dead: seq<nat>, l: nat, k: nat, r: nat)
    requires l in f.blocks && k < |f.blocks[l].body| && Defines(f.blocks[l].body[k], r) && r !in dead
    ensures BodyDefines(Erase(f, dead).blocks[l], r)
  {
    var x := f.blocks[l];
    ErasedIn(x.body, dead, k);
    var j :| 0 <= j < |Erased(x.body, dead)| && Erased(x.body, dead)[j] == x.body[k];
    assert Defines(Erase(f, dead).blocks[l].body[j], r);
  }

  /** A visit of block `rest[0]`, with everything listed so far erased, is the rewriting of that block. */
  lemma VisitedBlock(f: Fn, pass: Pass, reg: nat, dead: seq<nat>, lab: nat, rest: seq<nat>, l: nat)
    requires Clear(f, reg, dead, lab, rest) && rest != [] && rest[0] in f.blocks && l in f.blocks
    ensures var s := SiteOf(f, pass, rest[0], reg);
            Erase(Midway(f, s, rest[0], |s.body|), dead + Dead(pass, s.body)).blocks[l]
                == Rewritten(Erase(f, dead), pass, rest[0], reg).blocks[l]
  {
    hide RenamePhis, RenameTerm, RenameBody, Erased, Valid, Dead, Mixed, Rewrite;
    var s := SiteOf(f, pass, rest[0], reg);
    var more := Dead(pass, s.body);
    ClearBlock(f, reg, dead, lab, rest, 0);
    ClearSite(f, pass, reg, dead, lab, rest);
    SameNames(s);
    if l == rest[0] {
      HereDead(f, pass, reg, dead, lab, rest);
      MixedErased(s, |s.body|, dead + more);
      assert Rewrite(s, |s.body|) == [] by { LastRewrite(s); }
      assert Erased(Mixed(s, |s.body|), dead + more) + [] == Erased(Mixed(s, |s.body|), dead + more);
      assert Mixed(s, |s.body|) + s.body[|s.body|..] == Mixed(s, |s.body|);
      ErasedRenamed(Mixed(s, |s.body|), dead + more, NewNames(s));
    } else {
      var x := f.blocks[l];
      forall k, r | 0 <= k < |x.body| && r in more && r !in dead
        ensures !Defines(x.body[k], r)
      {
        DeadElsewhere(f, pass, reg, dead, lab, rest, l, r);
        if Defines(x.body[k], r) {
          StillDefined(f, dead, l, k, r);
        }
      }
      ErasedMore(x.body, dead, more);
      ErasedRenamed(x.body, dead + more, NewNames(s));
    }
  }

  lemma LastRewrite(s: Site)
    ensures Rewrite(s, |s.body|) == []
  {
  }

  lemma SameNames(s: Site)
    ensures forall x: Block :: RenameBlock(x, UpTo(s, |s.body|), 0, 0) == RenameBlock(x, NewNames(s), 0, 0)
  {
    hide RenameBlock;
    forall x: Block
      ensures RenameBlock(x, UpTo(s, |s.body|), 0, 0) == RenameBlock(x, NewNames(s), 0, 0)
    {
      BlockAgrees(x, UpTo(s, |s.body|), NewNames(s));
    }
  }

  lemma HereDead(f: Fn, pass: Pass, reg: nat, dead: seq<nat>, lab: nat, rest: seq<nat>)
    requires Clear(f, reg, dead, lab, rest) && rest != [] && rest[0] in f.blocks
    ensures DeadHere(SiteOf(f, pass, rest[0], reg), dead + Dead(pass, f.blocks[rest[0]].body))
  {
    hide Valid, Matches;
    var s := SiteOf(f, pass, rest[0], reg);
    ClearSite(f, pass, reg, dead, lab, rest);
    forall k | 0 <= k < |s.body| && !s.body[k].ty.Void?
      ensures s.body[k].dst in dead + Dead(pass, s.body) <==> Matches(pass, s.body[k])
    {
      assert Defines(s.body[k], s.body[k].dst);
      assert BodyDefines(f.blocks[rest[0]], s.body[k].dst);
      DeadAre(pass, s.body, s.body[k].dst);
    }
    forall r | r in Dead(pass, s.body)
      ensures r < reg
    {
      DeadAre(pass, s.body, r);
      var k :| 0 <= k < |s.body| && Matches(pass, s.body[k]) && Defines(s.body[k], r);
      assert InstrBelow(s.body[k], reg);
    }
  }

  lemma VisitedErased(f: Fn, pass: Pass, reg: nat, dead: seq<nat>, lab: nat, rest: seq<nat>)
    requires Clear(f, reg, dead, lab, rest) && rest != [] && rest[0] in f.blocks
    ensures var s := SiteOf(f, pass, rest[0], reg);
            var g := Midway(f, s, rest[0], |s.body|);
            && Erase(g, dead + Dead(pass, s.body)) == Rewritten(Erase(f, dead), pass, rest[0], reg)
            && Clear(g, s.NextReg(), dead + Dead(pass, s.body), lab, rest[1..])
  {
    hide RenameBlock, Erased, Valid, Dead, Mixed, Rewrite, RewriteOne, BodyDefines, NewNames;
    var s := SiteOf(f, pass, rest[0], reg);
    var g := Midway(f, s, rest[0], |s.body|);
    var all := dead + Dead(pass, s.body);
    var e := Rewritten(Erase(f, dead), pass, rest[0], reg);
    forall l | l in f.blocks
      ensures Erase(g, all).blocks[l] == e.blocks[l]
    {
      VisitedBlock(f, pass, reg, dead, lab, rest, l);
    }
    assert Erase(g, all).blocks == e.blocks;
    ClearBlock(f, reg, dead, lab, rest, 0);
    ValidNext(Progress(Erase(f, dead), reg), pass, lab, rest);
    HereDead(f, pass, reg, dead, lab, rest);
    assert s.NextReg() >= reg;
    OthersIn(f, reg, dead, lab, rest);
    forall k, r | 0 <= k < |rest[1..]| && r in all
      ensures !BodyDefines(g.blocks[rest[1..][k]], r)
    {
      StillClear(f, pass, reg, dead, lab, rest, k + 1, r);
    }
  }

  lemma ValidNext(w: Progress, pass: Pass, lab: nat, rest: seq<nat>)
    requires rest != [] && Valid(w, lab, rest) && rest[0] in w.f.blocks
    ensures Valid(Progress(Rewritten(w.f, pass, rest[0], w.reg), SiteOf(w.f, pass, rest[0], w.reg).NextReg()), lab,
            rest[1..])
  {
    hide Valid;
    ValidAfter(w, pass, lab, rest);
  }

  lemma StillClear(f: Fn, pass: Pass, reg: nat, dead: seq<nat>, lab: nat, rest: seq<nat>, k: nat, r: nat)
    requires Clear(f, reg, dead, lab, rest) && 0 < k < |rest| && rest[0] in f.blocks
    requires r in dead + Dead(pass, f.blocks[rest[0]].body)
    ensures var s := SiteOf(f, pass, rest[0], reg);
            rest[k] in f.blocks && !BodyDefines(Midway(f, s, rest[0], |s.body|).blocks[rest[k]], r)
  {
    hide Bounded, SingleDef, DistinctBody;
    var s := SiteOf(f, pass, rest[0], reg);
    ClearBlock(f, reg, dead, lab, rest, k);
    assert rest[k] != rest[0];
    SameDefs(f.blocks[rest[k]], UpTo(s, |s.body|), r);
    if r !in dead {
      DeadElsewhere(f, pass, reg, dead, lab, rest, rest[k], r);
    }
  }

  lemma {:induction false} DeadRenamed(pass: Pass, body: seq<Instr>, f: Rename)
    ensures |Dead(pass, RenameBody(body, f))| == |Dead(pass, body)|
  {
    if body != [] {
      DeadRenamed(pass, body[1..], f);
      assert RenameBody(body, f)[1..] == RenameBody(body[1..], f);
      assert RenameBody(body, f)[0] == body[0].(args := RenameOps(body[0].args, f));
    }
  }

  lemma {:induction false} CountKept(f: Fn, pass: Pass, reg: nat, at: nat, rest: seq<nat>)
    requires at in f.blocks && forall k :: 0 <= k < |rest| ==> rest[k] in f.blocks && rest[k] != at
    ensures var s := SiteOf(f, pass, at, reg);
            CountAll(Midway(f, s, at, |s.body|), pass, rest) == CountAll(f, pass, rest)
  {
    if rest != [] {
      var s := SiteOf(f, pass, at, reg);
      CountKept(f, pass, reg, at, rest[1..]);
      DeadRenamed(pass, f.blocks[rest[0]].body, UpTo(s, |s.body|));
    }
  }

  lemma {:induction false} DeadTargets(pass: Pass, body: seq<Instr>)
    ensures |Dead(pass, body)| == Targets(pass, body)
  {
    hide Matches, Target;
    if body != [] {
      DeadTargets(pass, body[1..]);
      MatchesTarget(pass, body[0]);
    }
  }

  lemma {:induction false} CountIsTargets(f: Fn, pass: Pass, order: seq<nat>)
    requires forall k :: 0 <= k < |order| ==> order[k] in f.blocks
    ensures CountAll(f, pass, order) == TargetsIn(f, pass, order)
  {
    if order != [] {
      DeadTargets(pass, f.blocks[order[0]].body);
      CountIsTargets(f, pass, order[1..]);
    }
  }

  /** Every block visited has had its instructions replaced. */
  ghost predicate AllCleared(pass: Pass, f: Fn, g: Fn, order: seq<nat>, reg: nat) {
    forall l :: l in order ==> l in f.blocks && l in g.blocks && Cleared(pass, f.blocks[l], g.blocks[l], reg)
  }

  lemma BlocksCleared(w: Progress, pass: Pass, lab: nat, order: seq<nat>)
    requires Valid(w, lab, order) && forall k :: 0 <= k < |order| ==> order[k] in w.f.blocks
    ensures AllCleared(pass, w.f, RewriteAll(w, pass, order).f, order, w.reg)
  {
    hide Valid, RewriteAll, Cleared;
    forall l | l in order
      ensures l in RewriteAll(w, pass, order).f.blocks
      ensures Cleared(pass, w.f.blocks[l], RewriteAll(w, pass, order).f.blocks[l], w.reg) == true
    {
      TargetsGone(w, pass, lab, order, l);
    }
  }

  /** Whatever the meaning of other operations, a safe run of the original is matched by the result. */
  ghost predicate Preserved(f: Fn, g: Fn) {
    forall sem: Sem, regs: Regs :: MachineArith(sem) && Safe(sem, f, regs) && regs.Keys <= f.inputs
      ==> SameBehaviour(sem, f, g, regs) && Safe(sem, g, regs)
  }

  lemma PassIsCorrect(w: Progress, pass: Pass, lab: nat, order: seq<nat>)
    requires Valid(w, lab, order) && forall k :: 0 <= k < |order| ==> order[k] in w.f.blocks
    ensures Preserved(w.f, RewriteAll(w, pass, order).f)
  {
    hide Valid, RewriteAll, MachineArith, Safe, SameBehaviour;
    forall sem: Sem, regs: Regs | MachineArith(sem) && Safe(sem, w.f, regs) && regs.Keys <= w.f.inputs
      ensures SameBehaviour(sem, w.f, RewriteAll(w, pass, order).f, regs)
              && Safe(sem, RewriteAll(w, pass, order).f, regs)
    {
      PassPreserves(sem, w, pass, lab, order, regs);
    }
  }

  lemma OthersIn(f: Fn, reg: nat, dead: seq<nat>, lab: nat, rest: seq<nat>)
    requires Clear(f, reg, dead, lab, rest)
    ensures forall k :: 0 <= k < |rest| ==> rest[k] in f.blocks
    ensures forall k :: 0 < k < |rest| ==> rest[k] != rest[0]
  {
  }

  /** Between two turns of the outer loop. */
  ghost predicate Visiting(pass: Pass, f: Fn, reg: nat, dead: seq<nat>, lab: nat, rest: seq<nat>, start: Progress,
                           order: seq<nat>) {
    && Clear(f, reg, dead, lab, rest)
    && (forall k :: 0 <= k < |rest| ==> rest[k] in f.blocks && rest[k] in Erase(f, dead).blocks)
    && (forall k :: 0 <= k < |order| ==> order[k] in start.f.blocks)
    && RewriteAll(Progress(Erase(f, dead), reg), pass, rest) == RewriteAll(start, pass, order)
    && CountAll(f, pass, rest) + |dead| == CountAll(start.f, pass, order)
  }

  lemma VisitingStarts(pass: Pass, w: Progress, lab: nat, order: seq<nat>)
    requires Valid(w, lab, order)
    ensures Visiting(pass, w.f, w.reg, [], lab, order, w, order)
  {
    hide Erase, Bounded, SingleDef, DistinctBody, RewriteAll, CountAll;
    NothingErased(w.f);
  }

  lemma VisitingGoesOn(pass: Pass, f: Fn, reg: nat, dead: seq<nat>, lab: nat, rest: seq<nat>, start: Progress,
                       order: seq<nat>)
    requires Visiting(pass, f, reg, dead, lab, rest, start, order) && rest != []
    ensures rest[0] in f.blocks && SiteOk(SiteOf(f, pass, rest[0], reg))
    ensures var s := SiteOf(f, pass, rest[0], reg);
            Visiting(pass, Midway(f, s, rest[0], |s.body|), s.NextReg(), dead + Dead(pass, s.body), lab, rest[1..],
                start, order)
  {
    hide Clear, Rewritten, Midway, Erase, Dead;
    var s := SiteOf(f, pass, rest[0], reg);
    OthersIn(f, reg, dead, lab, rest);
    ClearSite(f, pass, reg, dead, lab, rest);
    ClearBlock(f, reg, dead, lab, rest, 0);
    VisitedErased(f, pass, reg, dead, lab, rest);
    CountKept(f, pass, reg, rest[0], rest[1..]);
    var g := Midway(f, s, rest[0], |s.body|);
    assert SiteOf(Erase(f, dead), pass, rest[0], reg) == s;
    OthersIn(g, s.NextReg(), dead + Dead(pass, s.body), lab, rest[1..]);
    KeptIn(f, pass, reg, dead, rest[0]);
  }

  lemma KeptIn(f: Fn, pass: Pass, reg: nat, dead: seq<nat>, at: nat)
    requires at in f.blocks
    ensures Rewritten(Erase(f, dead), pass, at, reg).blocks.Keys == f.blocks.Keys
  {
  }

  lemma VisitingEnds(pass: Pass, f: Fn, reg: nat, dead: seq<nat>, lab: nat, start: Progress, order: seq<nat>)
    requires Visiting(pass, f, reg, dead, lab, [], start, order) && Valid(start, lab, order)
    ensures forall k :: 0 <= k < |order| ==> order[k] in start.f.blocks
    ensures Progress(Erase(f, dead), reg) == RewriteAll(start, pass, order) && |dead| == CountAll(start.f, pass, order)
    ensures Preserved(start.f, Erase(f, dead)) && AllCleared(pass, start.f, Erase(f, dead), order, start.reg)
    ensures |dead| == TargetsIn(start.f, pass, order) && (dead != [] <==> SomeBlockHas(start.f, pass, order))
  {
    hide Clear, Valid, Erase, Preserved, AllCleared, TargetsIn, SomeBlockHas;
    PassIsCorrect(start, pass, lab, order);
    BlocksCleared(start, pass, lab, order);
    CountIsTargets(start.f, pass, order);
    SomeBlockHasTarget(start.f, pass, order);
  }

  lemma MixedStart(s: Site)
    ensures Mixed(s, 0) == []
  {
  }

  lemma MatchSame(pass: Pass, i: Instr, f: Rename)
    ensures Matches(pass, i.(args := RenameOps(i.args, f))) <==> Matches(pass, i)
  {
  }

  // ----- The two passes -----

  class Substitution {
    const pass: Pass
    var f: Fn
    var nextReg: nat
    var freeList: seq<nat>
    var changed: bool
    var substCount: nat

    constructor (pass: Pass, f: Fn, nextReg: nat, substCount: nat)
      ensures this.pass == pass && this.f == f && this.nextReg == nextReg && this.substCount == substCount
              && freeList == [] && !changed
    {
      this.pass, this.f, this.nextReg, this.substCount := pass, f, nextReg, substCount;
      freeList, changed := [], false;
    }

    /** `replaceAllUsesWith`. */
    method ReplaceAllUses(d: nat, k: nat)
      modifies this`f
      ensures AllReplaced(old(f), f, d, k)
      ensures f == RenameAll(old(f), One(d, k))
    {
      RenamedReplaces(f, d, k);
      var blocks := map l | l in f.blocks :: RenameBlock(f.blocks[l], One(d, k), 0, 0);
      f := f.(blocks := blocks);
    }

    /** The inner loop, over the instructions of block `at`. */
    method VisitBlock(at: nat)
      requires at in f.blocks && SiteOk(SiteOf(f, pass, at, nextReg))
      modifies this
      ensures f == Midway(old(f), SiteOf(old(f), pass, at, old(nextReg)), at, |old(f).blocks[at].body|)
      ensures nextReg == SiteOf(old(f), pass, at, old(nextReg)).NextReg()
      ensures freeList == old(freeList) + Dead(pass, old(f).blocks[at].body)
      ensures substCount == old(substCount) + |Dead(pass, old(f).blocks[at].body)|
      ensures changed <==> old(changed) || Dead(pass, old(f).blocks[at].body) != []
    {
      hide RenameBlock, AllReplaced, Recipe, SiteOk, NameUpTo, Midway, RenameAll, Matches, Mixed, RenameBody,
          RenameOps, Dead, One,
          UpTo;
      ghost var f0 := f;
      ghost var s := SiteOf(f, pass, at, nextReg);
      var n, pos, count := 0, 0, |f.blocks[at].body|;
      AtStart(f, s, at);
      assert s.body[0..] == s.body;
      assert |Mixed(s, 0)| == 0 by { MixedStart(s); }
      while n < count
        invariant n <= count == |s.body| && pos == |Mixed(s, n)| && f == Midway(f0, s, at, n) && nextReg == s.Base(n)
        invariant freeList + Dead(pass, s.body[n..]) == old(freeList) + Dead(pass, s.body)
        invariant substCount - |freeList| == old(substCount - |freeList|)
        invariant |freeList| >= |old(freeList)| && (changed <==> old(changed) || |freeList| > |old(freeList)|)
      {
        BodyMidway(f0, s, at, n);
        var body := f.blocks[at].body;
        DeadStep(pass, s.body, n);
        var i := body[pos];
        MatchSame(pass, s.body[n], UpTo(s, n));
        if Matches(pass, i) {
          MidwayNext(f0, s, at, n);
          f := f.(blocks := f.blocks[at := f.blocks[at].(body := body[..pos] + Recipe(pass, i, nextReg)
              + body[pos..])]);
          ReplaceAllUses(i.dst, nextReg + Length(pass) - 1);
          freeList := freeList + [i.dst];
          changed := true;
          substCount := substCount + 1;
          pos := pos + Length(pass) + 1;
        } else {
          SkippedDone(s, n);
          MidwaySkips(f0, s, at, n);
          pos := pos + 1;
        }
        nextReg := nextReg + 8;
        n := n + 1;
      }
      assert s.body[n..] == [];
      DeadEmpty(pass);
    }

    /** The loop over the blocks, then everything on the free list is erased. */
    method Run(order: seq<nat>, ghost lab: nat)
      requires Valid(Progress(f, nextReg), lab, order) && freeList == [] && !changed
      requires forall k :: 0 <= k < |order| ==> order[k] in f.blocks
      modifies this
      ensures Progress(f, nextReg) == RewriteAll(Progress(old(f), old(nextReg)), pass, order)
      ensures Preserved(old(f), f)
      ensures AllCleared(pass, old(f), f, order, old(nextReg))
      ensures substCount == old(substCount) + TargetsIn(old(f), pass, order)
      ensures changed <==> SomeBlockHas(old(f), pass, order)
    {
      hide AllCleared, TargetsIn, SomeBlockHas, Valid, Erase, SiteOk, Midway, Visiting, RewriteAll, CountAll, Preserved,
          Dead;
      ghost var w0 := Progress(f, nextReg);
      VisitingStarts(pass, w0, lab, order);
      var k := 0;
      assert order[0..] == order;
      while k < |order|
        invariant k <= |order| && Visiting(pass, f, nextReg, freeList, lab, order[k..], w0, order)
        invariant substCount - |freeList| == old(substCount) && (changed <==> freeList != [])
      {
        assert order[k..][0] == order[k] && order[k..][1..] == order[k + 1..];
        VisitingGoesOn(pass, f, nextReg, freeList, lab, order[k..], w0, order);
        VisitBlock(order[k]);
        k := k + 1;
      }
      assert order[k..] == [];
      VisitingEnds(pass, f, nextReg, freeList, lab, w0, order);
      k := 0;
      ghost var g := f;
      assert freeList[0..] == freeList;
      while k < |freeList|
        modifies this`f
        invariant k <= |freeList| && Erase(f, freeList[k..]) == Erase(g, freeList)
      {
        assert freeList[k..] == [freeList[k]] + freeList[k + 1..];
        EraseTwice(f, freeList[k], freeList[k + 1..]);
        f := Erase(f, [freeList[k]]);
        k := k + 1;
      }
      assert freeList[k..] == [];
      NothingErased(f);
    }
  }
}
