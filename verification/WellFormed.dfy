/**
 The shape of emitted functions: every block is inserted once and ends in one terminator, branches stay
 inside and never go back to the entry, and each phi lists exactly the blocks that branch to it.
 */
module WellFormed {
  import opened Prelude
  import opened Ast
  import opened Machine
  import opened Codegen
  import opened CodegenFacts

  function Succs(t: Option<Term>): set<nat> {
    match t
    case None => {}
    case Some(Br(l)) => {l}
    case Some(CondBr(_, a, b)) => {a, b}
    case Some(Ret(_)) => {}
  }

  predicate Branches(blocks: seq<Block>, p: nat, l: nat) { p < |blocks| && l in Succs(blocks[p].term) }

  predicate Lists(incoming: seq<(Operand, nat)>, p: nat) { exists i :: 0 <= i < |incoming| && incoming[i].1 == p }

  /** One entry for each block that branches here, and no others. */
  ghost predicate IncomingExact(blocks: seq<Block>, l: nat, incoming: seq<(Operand, nat)>) {
    && (forall i, j :: 0 <= i < |incoming| && 0 <= j < |incoming| && incoming[i].1 == incoming[j].1 ==> i == j)
    && (forall p: nat :: Lists(incoming, p) <==> Branches(blocks, p, l))
  }

  ghost predicate PhisExact(blocks: seq<Block>, l: nat)
    requires l < |blocks|
  {
    forall i :: 0 <= i < |blocks[l].phis| ==> IncomingExact(blocks, l, blocks[l].phis[i].incoming)
  }

  /** `s` lists the numbers from `lo` below `hi`, each once. */
  ghost predicate Enumerates(s: seq<nat>, lo: nat, hi: nat) {
    && (forall i, j :: 0 <= i < |s| && 0 <= j < |s| && s[i] == s[j] ==> i == j)
    && (forall x: nat :: x in s <==> lo <= x < hi)
  }

  ghost predicate CodeWellFormed(code: Code) {
    && |code.blocks| > 0 && Enumerates(code.layout, 0, |code.blocks|) && code.layout != [] && code.layout[0] == 0
    && (forall l :: 0 <= l < |code.blocks| ==> code.blocks[l].term.Some? && PhisExact(code.blocks, l))
    && (forall p: nat, l: nat :: Branches(code.blocks, p, l) ==> 0 < l < |code.blocks|)
    && code.blocks[0].phis == []
  }

  // ----- While code is being generated -----

  ghost predicate InRange(g: Gen) { forall p: nat, l: nat :: Branches(g.blocks, p, l) ==> l < |g.blocks| }

  /** The current block or a block that was not there in `g`. */
  predicate Touched(g: Gen, h: Gen, l: nat) { l == g.cur || |g.blocks| <= l < |h.blocks| }

  /**
   From `g` to `h` blocks were added behind the current one: all are finished but the new current block,
   they branch to each other only, their phis are exact and they were inserted once each.
   */
  ghost predicate Grown(g: Gen, h: Gen) {
    && |g.blocks| <= |h.blocks| && Touched(g, h, h.cur) && Open(h)
    && h.blocks[g.cur].phis == g.blocks[g.cur].phis
    && (forall l :: 0 <= l < |g.blocks| && l != g.cur ==> h.blocks[l] == g.blocks[l])
    && (forall l: nat :: Touched(g, h, l) && l != h.cur ==> h.blocks[l].term.Some?)
    && (forall p: nat, l: nat :: Touched(g, h, p) && Branches(h.blocks, p, l) ==> |g.blocks| <= l < |h.blocks|)
    && (forall l :: |g.blocks| <= l < |h.blocks| ==> PhisExact(h.blocks, l))
    && g.layout <= h.layout && Enumerates(h.layout[|g.layout|..], |g.blocks|, |h.blocks|)
  }

  /** Only the current block's body changed. */
  ghost predicate SameShape(g: Gen, h: Gen) {
    && h.cur == g.cur && h.layout == g.layout && |h.blocks| == |g.blocks|
    && (forall l :: 0 <= l < |g.blocks| && l != g.cur ==> h.blocks[l] == g.blocks[l])
    && h.blocks[g.cur].phis == g.blocks[g.cur].phis && h.blocks[g.cur].term == g.blocks[g.cur].term
  }

  lemma SameGrown(g: Gen, h: Gen)
    requires Open(g) && SameShape(g, h)
    ensures Grown(g, h)
  {
    assert h.layout[|g.layout|..] == [];
  }

  lemma RangeKept(g: Gen, h: Gen)
    requires InRange(g) && Grown(g, h)
    ensures InRange(h)
  {
    forall p: nat, l: nat | Branches(h.blocks, p, l)
      ensures l < |h.blocks|
    {
      if !Touched(g, h, p) {
        assert Branches(g.blocks, p, l);
      }
    }
  }

  /** Branches to a block do not depend on what was done to blocks that do not branch there. */
  lemma PhisStay(blocks: seq<Block>, blocks': seq<Block>, l: nat)
    requires l < |blocks| && l < |blocks'| && blocks'[l].phis == blocks[l].phis && PhisExact(blocks, l)
    requires forall p: nat :: Branches(blocks', p, l) <==> Branches(blocks, p, l)
    ensures PhisExact(blocks', l)
  {
    forall i | 0 <= i < |blocks[l].phis|
      ensures IncomingExact(blocks', l, blocks'[l].phis[i].incoming)
    {
      assert IncomingExact(blocks, l, blocks[l].phis[i].incoming);
    }
  }

  lemma EnumeratesJoin(s: seq<nat>, t: seq<nat>, lo: nat, mid: nat, hi: nat)
    requires lo <= mid <= hi && Enumerates(s, lo, mid) && Enumerates(t, mid, hi)
    ensures Enumerates(s + t, lo, hi)
  {
    var u := s + t;
    forall i, j | 0 <= i < |u| && 0 <= j < |u| && u[i] == u[j]
      ensures i == j
    {
      assert i < |s| ==> s[i] in s;
      assert j < |s| ==> s[j] in s;
      assert i >= |s| ==> t[i - |s|] in t;
      assert j >= |s| ==> t[j - |s|] in t;
    }
  }

  /** What touched blocks are after two stages. */
  lemma TransBlocks(g: Gen, h: Gen, k: Gen)
    requires Grown(g, h) && Grown(h, k)
    ensures forall l: nat :: Touched(g, k, l) && l != k.cur ==> k.blocks[l].term.Some?
    ensures forall p: nat, l: nat :: Touched(g, k, p) && Branches(k.blocks, p, l) ==> |g.blocks| <= l < |k.blocks|
    ensures forall p: nat, l: nat :: l < |h.blocks| ==> (Branches(k.blocks, p, l) <==> Branches(h.blocks, p, l))
  {
    hide PhisExact, Enumerates;
    forall p: nat, l: nat | l < |h.blocks|
      ensures Branches(k.blocks, p, l) <==> Branches(h.blocks, p, l)
    {
      assert Touched(h, k, p) || (p < |h.blocks| ==> k.blocks[p] == h.blocks[p]);
    }
    forall p: nat, l: nat | Touched(g, k, p) && Branches(k.blocks, p, l)
      ensures |g.blocks| <= l < |k.blocks|
    {
      if !Touched(h, k, p) {
        assert Touched(g, h, p) && Branches(h.blocks, p, l);
      }
    }
    forall l: nat | Touched(g, k, l) && l != k.cur
      ensures k.blocks[l].term.Some?
    {
      assert Touched(h, k, l) || Touched(g, h, l);
    }
  }

  lemma GrownTrans(g: Gen, h: Gen, k: Gen)
    requires Grown(g, h) && Grown(h, k)
    ensures Grown(g, k)
  {
    TransBlocks(g, h, k);
    TransPhis(g, h, k);
    TransLayout(g, h, k);
    hide PhisExact, Enumerates, Branches;
  }

  lemma TransPhis(g: Gen, h: Gen, k: Gen)
    requires Grown(g, h) && Grown(h, k)
    ensures forall l :: |g.blocks| <= l < |k.blocks| ==> PhisExact(k.blocks, l)
  {
    TransBlocks(g, h, k);
    hide Enumerates, Branches, PhisExact;
    forall l | |g.blocks| <= l < |k.blocks|
      ensures PhisExact(k.blocks, l)
    {
      if l < |h.blocks| {
        PhisStay(h.blocks, k.blocks, l);
      }
    }
  }

  lemma TransLayout(g: Gen, h: Gen, k: Gen)
    requires Grown(g, h) && Grown(h, k)
    ensures g.layout <= k.layout && Enumerates(k.layout[|g.layout|..], |g.blocks|, |k.blocks|)
  {
    var s, t := h.layout[|g.layout|..], k.layout[|h.layout|..];
    EnumeratesJoin(s, t, |g.blocks|, |h.blocks|, |k.blocks|);
    assert k.layout[|g.layout|..] == s + t;
  }

  // ----- Branches -----

  /** The blocks of an `if` once both arms are done. */
  ghost predicate ArmsGrown(g: Gen, c: Operand, a: Gen, b: Gen) {
    var n := |g.blocks|;
    && Open(g) && InRange(g) && Grown(BeginIf(g, c), a) && Grown(NextArm(a, n + 2, n + 1), b)
  }

  function Joined(g: Gen, a: Gen, b: Gen, x: Operand, y: Operand): Gen
    requires |b.blocks| > |g.blocks| + 2
  {
    AddPhi(NextArm(b, |g.blocks| + 2, |g.blocks| + 2), [(x, a.cur), (y, b.cur)]).0
  }

  /** The blocks of the arms, told apart by who made them. */
  lemma ArmBlocks(g: Gen, c: Operand, a: Gen, b: Gen)
    requires ArmsGrown(g, c, a, b)
    ensures var n := |g.blocks|;
            && n + 3 <= |a.blocks| <= |b.blocks|
            && (a.cur == n || n + 3 <= a.cur < |a.blocks|) && (b.cur == n + 1 || |a.blocks| <= b.cur < |b.blocks|)
            && b.blocks[n + 2] == EMPTY_BLOCK && b.blocks[n].phis == [] && b.blocks[n + 1].phis == []
            && b.blocks[g.cur] == g.blocks[g.cur].(term := Some(CondBr(c, n, n + 1)))
            && b.blocks[a.cur] == a.blocks[a.cur].(term := Some(Br(n + 2)))
            && (forall l :: 0 <= l < n && l != g.cur ==> b.blocks[l] == g.blocks[l])
            && (forall l :: (l == n || n + 3 <= l < |a.blocks|) && l != a.cur ==> b.blocks[l] == a.blocks[l])
  {
    hide PhisExact, Enumerates, Branches;
    var n := |g.blocks|;
    var g1 := BeginIf(g, c);
    assert g1.blocks[n] == EMPTY_BLOCK && g1.blocks[n + 1] == EMPTY_BLOCK && g1.blocks[n + 2] == EMPTY_BLOCK;
    assert a.blocks[n + 1] == EMPTY_BLOCK && a.blocks[n + 2] == EMPTY_BLOCK;
    var a1 := NextArm(a, n + 2, n + 1);
    assert a1.blocks[n + 1] == EMPTY_BLOCK && a1.blocks[n + 2] == EMPTY_BLOCK;
  }

  /** Where each block of the `if` branches to. */
  lemma ArmBranches(g: Gen, c: Operand, a: Gen, b: Gen, p: nat, l: nat)
    requires ArmsGrown(g, c, a, b)
    ensures var n := |g.blocks|;
            Branches(b.blocks, p, l) ==>
              && (p < n && p != g.cur ==> l < n && Branches(g.blocks, p, l))
              && (p == g.cur ==> l == n || l == n + 1)
              && (p == a.cur ==> l == n + 2)
              && ((p == n || n + 3 <= p < |a.blocks|) && p != a.cur ==>
                    n + 3 <= l < |a.blocks| && Branches(a.blocks, p, l))
              && (p == n + 1 || |a.blocks| <= p ==> |a.blocks| <= l < |b.blocks|)
              && p != n + 2 && p != b.cur
  {
    hide PhisExact, Enumerates;
    ArmBlocks(g, c, a, b);
    var n := |g.blocks|;
    if Branches(b.blocks, p, l) {
      if p < n && p != g.cur {
        assert Branches(g.blocks, p, l);
      } else if (p == n || n + 3 <= p < |a.blocks|) && p != a.cur {
        assert Touched(BeginIf(g, c), a, p) && Branches(a.blocks, p, l);
      } else if p == n + 1 || |a.blocks| <= p {
        assert Touched(NextArm(a, n + 2, n + 1), b, p);
      }
    }
  }

  /** The joined function: `b` with its last block closed and the phi added. */
  lemma JoinedBlocks(g: Gen, c: Operand, a: Gen, b: Gen, x: Operand, y: Operand)
    requires ArmsGrown(g, c, a, b)
    ensures var n := |g.blocks|;
            && |b.blocks| > n + 2
            && var h := Joined(g, a, b, x, y);
               && h.cur == n + 2 && |h.blocks| == |b.blocks| && b.cur != n + 2
               && h.blocks[b.cur] == b.blocks[b.cur].(term := Some(Br(n + 2)))
               && h.blocks[n + 2] == Block([Phi(b.nregs, [(x, a.cur), (y, b.cur)])], [], None)
               && (forall l :: 0 <= l < |b.blocks| && l != b.cur && l != n + 2 ==> h.blocks[l] == b.blocks[l])
  {
    hide Grown, InRange;
    assert |b.blocks| > |g.blocks| + 2 && b.cur != |g.blocks| + 2
        && b.blocks[|g.blocks| + 2] == EMPTY_BLOCK by { ArmBlocks(g, c, a, b); }
    assert [] + [Phi(b.nregs, [(x, a.cur), (y, b.cur)])] == [Phi(b.nregs, [(x, a.cur), (y, b.cur)])];
  }

  lemma JoinedBranches(g: Gen, c: Operand, a: Gen, b: Gen, x: Operand, y: Operand, p: nat, l: nat)
    requires ArmsGrown(g, c, a, b) && |b.blocks| > |g.blocks| + 2
    ensures Branches(Joined(g, a, b, x, y).blocks, p, l)
            <==> Branches(b.blocks, p, l) || (p == b.cur && l == |g.blocks| + 2)
  {
    hide Grown, InRange, Joined;
    JoinedBlocks(g, c, a, b, x, y);
    ArmBranches(g, c, a, b, p, l);
    ArmBlocks(g, c, a, b);
  }

  lemma IfPhis(g: Gen, c: Operand, a: Gen, b: Gen, x: Operand, y: Operand, l: nat)
    requires ArmsGrown(g, c, a, b) && |b.blocks| > |g.blocks| + 2 && |g.blocks| <= l < |b.blocks|
    ensures PhisExact(Joined(g, a, b, x, y).blocks, l)
  {
    hide Grown, InRange, Joined, Branches, PhisExact, IncomingExact;
    var n := |g.blocks|;
    var h := Joined(g, a, b, x, y);
    JoinedBlocks(g, c, a, b, x, y);
    ArmBlocks(g, c, a, b);
    if l == n || l == n + 1 {
      NoPhis(h.blocks, l);
    } else if l == n + 2 {
      MergeExact(g, c, a, b, x, y);
    } else {
      var from := if l < |a.blocks| then a.blocks else b.blocks;
      forall p: nat
        ensures Branches(h.blocks, p, l) <==> Branches(from, p, l)
      {
        JoinedBranches(g, c, a, b, x, y, p, l);
        if l < |a.blocks| {
          ArmFrom(g, c, a, b, p, l);
        }
      }
      ArmPhis(g, c, a, b, l);
      PhisStay(from, h.blocks, l);
    }
  }

  lemma NoPhis(blocks: seq<Block>, l: nat)
    requires l < |blocks| && blocks[l].phis == []
    ensures PhisExact(blocks, l)
  {
  }

  /** Who branches to a block of the first arm. */
  lemma ArmFrom(g: Gen, c: Operand, a: Gen, b: Gen, p: nat, l: nat)
    requires ArmsGrown(g, c, a, b) && |g.blocks| + 3 <= l < |a.blocks|
    ensures Branches(b.blocks, p, l) <==> Branches(a.blocks, p, l)
  {
    hide PhisExact, Enumerates;
    ArmBlocks(g, c, a, b);
    ArmBranches(g, c, a, b, p, l);
  }

  lemma ArmPhis(g: Gen, c: Operand, a: Gen, b: Gen, l: nat)
    requires ArmsGrown(g, c, a, b) && |g.blocks| + 3 <= l < |b.blocks|
    ensures if l < |a.blocks| then PhisExact(a.blocks, l) && b.blocks[l].phis == a.blocks[l].phis
            else PhisExact(b.blocks, l)
  {
    hide PhisExact, Branches, Enumerates;
    ArmBlocks(g, c, a, b);
  }

  /** The merge block's predecessors are the ends of the two arms. */
  lemma MergeExact(g: Gen, c: Operand, a: Gen, b: Gen, x: Operand, y: Operand)
    requires ArmsGrown(g, c, a, b) && |b.blocks| > |g.blocks| + 2
    ensures PhisExact(Joined(g, a, b, x, y).blocks, |g.blocks| + 2)
  {
    hide Grown, InRange, Joined;
    var n := |g.blocks|;
    var h := Joined(g, a, b, x, y);
    JoinedBlocks(g, c, a, b, x, y);
    ArmBlocks(g, c, a, b);
    var incoming := [(x, a.cur), (y, b.cur)];
    forall p: nat
      ensures Lists(incoming, p) <==> Branches(h.blocks, p, n + 2)
    {
      assert Lists(incoming, p) <==> p == a.cur || p == b.cur by {
        assert incoming[0].1 == a.cur && incoming[1].1 == b.cur;
      }
      JoinedBranches(g, c, a, b, x, y, p, n + 2);
      ArmBranches(g, c, a, b, p, n + 2);
    }
    assert IncomingExact(h.blocks, n + 2, incoming);
  }

  lemma IfLayout(g: Gen, c: Operand, a: Gen, b: Gen, x: Operand, y: Operand)
    requires ArmsGrown(g, c, a, b) && |b.blocks| > |g.blocks| + 2
    ensures var h := Joined(g, a, b, x, y);
            g.layout <= h.layout && Enumerates(h.layout[|g.layout|..], |g.blocks|, |h.blocks|)
  {
    hide PhisExact, Branches, InRange;
    var n := |g.blocks|;
    var h := Joined(g, a, b, x, y);
    var s := a.layout[|g.layout| + 1..];
    var t := b.layout[|a.layout| + 1..];
    assert BeginIf(g, c).layout == g.layout + [n];
    assert a.layout == g.layout + [n] + s;
    assert b.layout == a.layout + [n + 1] + t;
    assert h.layout == b.layout + [n + 2];
    assert h.layout[|g.layout|..] == [n] + s + [n + 1] + t + [n + 2];
    assert Enumerates(s, n + 3, |a.blocks|);
    assert Enumerates(t, |a.blocks|, |b.blocks|);
    Interleaved(s, t, n, |a.blocks|, |b.blocks|);
  }

  lemma Interleaved(s: seq<nat>, t: seq<nat>, n: nat, mid: nat, hi: nat)
    requires n + 3 <= mid <= hi && Enumerates(s, n + 3, mid) && Enumerates(t, mid, hi)
    ensures Enumerates([n] + s + [n + 1] + t + [n + 2], n, hi)
  {
    var u := [n] + s + [n + 1] + t + [n + 2];
    forall x: nat
      ensures x in u <==> n <= x < hi
    {
      assert x in u <==> x == n || x in s || x == n + 1 || x in t || x == n + 2;
    }
    forall i, j | 0 <= i < |u| && 0 <= j < |u| && u[i] == u[j]
      ensures i == j
    {
      At(s, t, n, i);
      At(s, t, n, j);
    }
  }

  lemma At(s: seq<nat>, t: seq<nat>, n: nat, i: nat)
    requires i < |s| + |t| + 3
    ensures var u := [n] + s + [n + 1] + t + [n + 2];
            && (i == 0 ==> u[i] == n) && (i == |s| + 1 ==> u[i] == n + 1) && (i == |s| + |t| + 2 ==> u[i] == n + 2)
            && (0 < i <= |s| ==> u[i] == s[i - 1] && u[i] in s)
            && (|s| + 1 < i < |s| + |t| + 2 ==> u[i] == t[i - |s| - 2] && u[i] in t)
  {
  }

  lemma IfGrown(g: Gen, c: Operand, a: Gen, b: Gen, x: Operand, y: Operand)
    requires ArmsGrown(g, c, a, b)
    ensures |b.blocks| > |g.blocks| + 2 && Grown(g, Joined(g, a, b, x, y))
  {
    JoinedBlocks(g, c, a, b, x, y);
    ArmBlocks(g, c, a, b);
    IfLayout(g, c, a, b, x, y);
    forall l | |g.blocks| <= l < |b.blocks|
      ensures PhisExact(Joined(g, a, b, x, y).blocks, l)
    {
      IfPhis(g, c, a, b, x, y, l);
    }
    IfTerms(g, c, a, b, x, y);
    hide PhisExact, Enumerates, Branches, InRange, Joined;
  }

  lemma IfTerms(g: Gen, c: Operand, a: Gen, b: Gen, x: Operand, y: Operand)
    requires ArmsGrown(g, c, a, b) && |b.blocks| > |g.blocks| + 2
    ensures var h := Joined(g, a, b, x, y);
            && (forall l: nat :: Touched(g, h, l) && l != h.cur ==> h.blocks[l].term.Some?)
            && (forall p: nat, l: nat :: Touched(g, h, p) && Branches(h.blocks, p, l) ==> |g.blocks| <= l < |h.blocks|)
  {
    var n := |g.blocks|;
    var h := Joined(g, a, b, x, y);
    JoinedBlocks(g, c, a, b, x, y);
    ArmBlocks(g, c, a, b);
    hide PhisExact, Enumerates, InRange, Joined;
    forall l: nat | Touched(g, h, l) && l != h.cur
      ensures h.blocks[l].term.Some?
    {
      assert l == g.cur || l == b.cur || l == a.cur || Touched(BeginIf(g, c), a,
          l) || Touched(NextArm(a, n + 2, n + 1), b, l);
    }
    forall p: nat, l: nat | Touched(g, h, p) && Branches(h.blocks, p, l)
      ensures n <= l < |h.blocks|
    {
      JoinedBranches(g, c, a, b, x, y, p, l);
      ArmBranches(g, c, a, b, p, l);
    }
  }

  // ----- Loops -----

  /** From the block before a loop to the block after it: `d` is the state after the end condition. */
  lemma LoopGrown(g: Gen, d: Gen, c: Operand)
    requires Open(g) && InRange(g) && Grown(BeginLoop(g), d)
    ensures Grown(g, CloseLoop(d, c, |g.blocks|))
  {
    var h := CloseLoop(d, c, |g.blocks|);
    LoopBranches(g, d, c);
    forall l | |g.blocks| <= l < |h.blocks|
      ensures PhisExact(h.blocks, l)
    {
      LoopPhis(g, d, c, l);
    }
    LoopLayout(g, d, c);
    hide PhisExact, Enumerates, Branches, InRange;
    assert BeginLoop(g).blocks[|g.blocks|] == EMPTY_BLOCK;
  }

  function CloseLoop(g: Gen, c: Operand, head: nat): Gen {
    Seal(Insert(g), CondBr(c, head, |g.blocks|)).(cur := |g.blocks|)
  }

  lemma LoopBranches(g: Gen, d: Gen, c: Operand)
    requires Open(g) && InRange(g) && Grown(BeginLoop(g), d)
    ensures var h := CloseLoop(d, c, |g.blocks|);
            && (forall l: nat :: Touched(g, h, l) && l != h.cur ==> h.blocks[l].term.Some?)
            && (forall p: nat, l: nat :: Touched(g, h, p) && Branches(h.blocks, p, l) ==> |g.blocks| <= l < |h.blocks|)
            && (forall p: nat, l: nat :: |g.blocks| < l < |d.blocks|
                  ==> (Branches(h.blocks, p, l) <==> Branches(d.blocks, p, l)))
  {
    hide PhisExact, Enumerates;
    var s := BeginLoop(g);
    var h := CloseLoop(d, c, |g.blocks|);
    assert s.blocks[|g.blocks|] == EMPTY_BLOCK;
    forall l: nat | Touched(g, h, l) && l != h.cur
      ensures h.blocks[l].term.Some?
    {
      assert l == g.cur || l == d.cur || Touched(s, d, l);
    }
    forall p: nat, l: nat | Touched(g, h, p) && Branches(h.blocks, p, l)
      ensures |g.blocks| <= l < |h.blocks|
    {
      assert p == g.cur || p == d.cur || p == h.cur || (Touched(s, d, p) && Branches(d.blocks, p, l));
    }
  }

  lemma LoopPhis(g: Gen, d: Gen, c: Operand, l: nat)
    requires Open(g) && InRange(g) && Grown(BeginLoop(g), d) && |g.blocks| <= l <= |d.blocks|
    ensures PhisExact(CloseLoop(d, c, |g.blocks|).blocks, l)
  {
    hide PhisExact, Enumerates, Branches;
    var h := CloseLoop(d, c, |g.blocks|);
    assert BeginLoop(g).blocks[|g.blocks|] == EMPTY_BLOCK;
    if l == |g.blocks| || l == |d.blocks| {
      NoPhis(h.blocks, l);
    } else {
      LoopBranches(g, d, c);
      PhisStay(d.blocks, h.blocks, l);
    }
  }

  lemma LoopLayout(g: Gen, d: Gen, c: Operand)
    requires Open(g) && Grown(BeginLoop(g), d)
    ensures var h := CloseLoop(d, c, |g.blocks|);
            g.layout <= h.layout && Enumerates(h.layout[|g.layout|..], |g.blocks|, |h.blocks|)
  {
    hide PhisExact, Branches;
    var n := |g.blocks|;
    var h := CloseLoop(d, c, n);
    var s := d.layout[|g.layout| + 1..];
    assert BeginLoop(g).layout == g.layout + [n];
    assert d.layout == g.layout + [n] + s;
    assert h.layout[|g.layout|..] == [n] + (s + [|d.blocks|]);
    OneEnumerated(|d.blocks|);
    EnumeratesJoin(s, [|d.blocks|], n + 1, |d.blocks|, |h.blocks|);
    OneEnumerated(n);
    EnumeratesJoin([n], s + [|d.blocks|], n, n + 1, |h.blocks|);
  }

  lemma OneEnumerated(n: nat)
    ensures Enumerates([n], n, n + 1)
  {
  }

  // ----- Every expression -----

  lemma EmitGrown(g: Gen, i: Instr)
    requires Open(g)
    ensures Grown(g, Emit(g, i))
  {
    SameGrown(g, Emit(g, i));
  }

  /** Changes that do not concern blocks. */
  lemma Elsewhere(g: Gen, h: Gen, h': Gen)
    requires Grown(g, h) && h'.blocks == h.blocks && h'.layout == h.layout && h'.cur == h.cur
    ensures Grown(g, h')
  {
  }

  lemma OperatorShape(m: Arith, g: Gen, op: char, x: Operand, y: Operand)
    requires Open(g)
    ensures SameShape(g, EmitCall(g, BinaryName(op), [x, y]).0)
    ensures op in {'+', '-', '*', '<'} ==> SameShape(g, BuiltIn(m, g, op, x, y).0)
    ensures SameShape(g, CallOperator(g, BinaryName(op), [x, y]).g)
  {
  }

  lemma IncrementShape(m: Arith, g: Gen, slot: nat, step: Operand)
    ensures SameShape(g, Increment(m, g, slot, step))
  {
  }

  lemma BinShape(m: Arith, g: Gen, op: Opcode, a: Operand, b: Operand)
    ensures SameShape(g, EmitBin(m, g, op, a, b).0)
  {
  }

  /** A further part of an expression. */
  lemma {:induction false} PartGrown(m: Arith, g: Gen, h: Gen, e: Expr)
    requires InRange(g) && Grown(g, h)
    ensures GenExpr(m, h, e).Good? ==> Grown(g, GenExpr(m, h, e).g)
    decreases e, 3
  {
    hide GenExpr, InRange;
    RangeKept(g, h);
    assert Open(h);
    ExprGrown(m, h, e);
    if GenExpr(m, h, e).Good? {
      GrownTrans(g, h, GenExpr(m, h, e).g);
    }
  }

  lemma {:induction false} OptionGrown(m: Arith, g: Gen, h: Gen, e: Option<Expr>, d: Double)
    requires InRange(g) && Grown(g, h)
    ensures GenOption(m, h, e, d).Good? ==> Grown(g, GenOption(m, h, e, d).g)
    decreases e, 4
  {
    hide GenExpr, Grown, InRange;
    if e.Some? {
      PartGrown(m, g, h, e.value);
    }
  }

  lemma {:induction false} ArgsGrown(m: Arith, g: Gen, h: Gen, args: seq<Expr>)
    requires InRange(g) && Grown(g, h)
    ensures GenArgs(m, h, args).Good? ==> Grown(g, GenArgs(m, h, args).g) == true
    decreases args, 0
  {
    hide GenExpr, Grown, InRange;
    if args != [] {
      PartGrown(m, g, h, args[0]);
      if GenExpr(m, h, args[0]).Good? {
        ArgsGrown(m, g, GenExpr(m, h, args[0]).g, args[1..]);
      }
    }
  }

  lemma {:induction false} BindingsGrown(m: Arith, g: Gen, h: Gen, bs: seq<Binding>, saved: map<string, Option<nat>>)
    requires InRange(g) && Grown(g, h)
    ensures GenBindings(m, h, bs, saved).Good? ==> Grown(g, GenBindings(m, h, bs, saved).g) == true
    decreases bs, 0
  {
    hide GenOption, Grown, InRange, Bind;
    if bs != [] {
      OptionGrown(m, g, h, bs[0].init, m.zero);
      var a := GenOption(m, h, bs[0].init, m.zero);
      if a.Good? {
        BindGrown(g, a.g, bs[0].name, a.value);
        BindingsGrown(m, g, Bind(a.g, bs[0].name, a.value), bs[1..],
            saved[bs[0].name := Lookup(a.g.named, bs[0].name)]);
      }
    }
  }

  lemma BindGrown(g: Gen, h: Gen, x: string, v: Operand)
    requires Grown(g, h)
    ensures Grown(g, Bind(h, x, v))
  {
    SameGrown(h, Bind(h, x, v));
    GrownTrans(g, h, Bind(h, x, v));
  }

  lemma ShapeGrown(g: Gen, h: Gen, k: Gen)
    requires Grown(g, h) && SameShape(h, k)
    ensures Grown(g, k)
  {
    SameGrown(h, k);
    GrownTrans(g, h, k);
  }

  lemma {:induction false} VarInGrown(m: Arith, g: Gen, e: Expr)
    requires e.VarIn? && Open(g) && InRange(g)
    ensures GenVarIn(m, g, e).Good? ==> Grown(g, GenVarIn(m, g, e).g) == true
    decreases e, 1
  {
    hide GenExpr, GenBindings, Grown, InRange, RestoreAll;
    SameGrown(g, g);
    BindingsGrown(m, g, g, e.bindings, map[]);
    var a := GenBindings(m, g, e.bindings, map[]);
    if a.Good? {
      PartGrown(m, g, a.g, e.body);
      if GenVarIn(m, g, e).Good? {
        Elsewhere(g, GenExpr(m, a.g, e.body).g, GenVarIn(m, g, e).g);
      }
    }
  }

  lemma {:induction false} BinaryGrown(m: Arith, g: Gen, e: Expr)
    requires e.Binary? && e.op != '=' && Open(g) && InRange(g)
    ensures GenBinary(m, g, e).Good? ==> Grown(g, GenBinary(m, g, e).g) == true
    decreases e, 1
  {
    hide GenExpr, Grown, InRange, CallOperator, BuiltIn, SameShape, Open;
    ExprGrown(m, g, e.lhs);
    var a := GenExpr(m, g, e.lhs);
    if a.Good? {
      PartGrown(m, g, a.g, e.rhs);
      var b := GenExpr(m, a.g, e.rhs);
      if b.Good? {
        StillOpen(g, b.g);
        OperatorShape(m, b.g, e.op, a.value, b.value);
        ShapeGrown(g, b.g, GenBinary(m, g, e).g);
      }
    }
  }

  lemma StillOpen(g: Gen, h: Gen)
    requires Grown(g, h)
    ensures Open(h)
  {
  }

  lemma {:induction false} UnaryGrown(m: Arith, g: Gen, e: Expr)
    requires e.Unary? && Open(g) && InRange(g)
    ensures GenUnary(m, g, e).Good? ==> Grown(g, GenUnary(m, g, e).g) == true
    decreases e, 1
  {
    hide GenExpr, Grown, InRange;
    ExprGrown(m, g, e.operand);
    var a := GenExpr(m, g, e.operand);
    if a.Good? {
      assert SameShape(a.g, GenUnary(m, g, e).g);
      ShapeGrown(g, a.g, GenUnary(m, g, e).g);
    }
  }

  lemma {:induction false} AssignGrown(m: Arith, g: Gen, e: Expr)
    requires e.Binary? && e.op == '=' && Open(g) && InRange(g)
    ensures GenAssign(m, g, e).Good? ==> Grown(g, GenAssign(m, g, e).g) == true
    decreases e, 1
  {
    hide GenExpr, Grown, InRange;
    ExprGrown(m, g, e.rhs);
    var a := GenExpr(m, g, e.rhs);
    if GenAssign(m, g, e).Good? {
      assert SameShape(a.g, GenAssign(m, g, e).g);
      ShapeGrown(g, a.g, GenAssign(m, g, e).g);
    }
  }

  lemma {:induction false} CallGrown(m: Arith, g: Gen, e: Expr)
    requires e.Call? && Open(g) && InRange(g)
    ensures GenCall(m, g, e).Good? ==> Grown(g, GenCall(m, g, e).g) == true
    decreases e, 1
  {
    hide GenArgs, Grown, InRange;
    var g1 := GetFunction(g, e.callee).0;
    SameGrown(g, g1);
    ArgsGrown(m, g, g1, e.args);
    var a := GenArgs(m, g1, e.args);
    if GenCall(m, g, e).Good? {
      assert SameShape(a.g, GenCall(m, g, e).g);
      ShapeGrown(g, a.g, GenCall(m, g, e).g);
    }
  }

  lemma BeginIfRange(g: Gen, c: Operand)
    requires InRange(g)
    ensures InRange(BeginIf(g, c)) && Open(BeginIf(g, c))
  {
    forall p: nat, l: nat | Branches(BeginIf(g, c).blocks, p, l)
      ensures l < |g.blocks| + 3
    {
      if p < |g.blocks| && p != g.cur {
        assert Branches(g.blocks, p, l);
      }
    }
  }

  lemma NextArmRange(g: Gen, c: Operand, a: Gen)
    requires InRange(g) && Grown(BeginIf(g, c), a)
    ensures |a.blocks| > |g.blocks| + 2
    ensures var h := NextArm(a, |g.blocks| + 2, |g.blocks| + 1); InRange(h) && Open(h)
  {
    BeginIfRange(g, c);
    RangeKept(BeginIf(g, c), a);
    var h := NextArm(a, |g.blocks| + 2, |g.blocks| + 1);
    assert BeginIf(g, c).blocks[|g.blocks| + 1] == EMPTY_BLOCK;
    forall p: nat, l: nat | Branches(h.blocks, p, l)
      ensures l < |h.blocks|
    {
      if p != a.cur {
        assert Branches(a.blocks, p, l);
      }
    }
  }

  lemma {:induction false} GenIfGrown(m: Arith, g: Gen, e: Expr)
    requires e.If? && Open(g) && InRange(g)
    ensures GenIf(m, g, e).Good? ==> Grown(g, GenIf(m, g, e).g) == true
    decreases e, 1
  {
    hide GenExpr, Grown, InRange, BeginIf, NextArm, AddPhi, EmitBin, Open;
    ExprGrown(m, g, e.cond);
    var o := GenExpr(m, g, e.cond);
    if GenIf(m, g, e).Good? {
      var (g2, bit) := EmitBin(m, o.g, FCmpONE, o.value, Lit(Dbl(m.zero)));
      BinShape(m, o.g, FCmpONE, o.value, Lit(Dbl(m.zero)));
      ShapeGrown(g, o.g, g2);
      RangeKept(g, g2);
      StillOpen(g, g2);
      BeginIfRange(g2, bit);
      ExprGrown(m, BeginIf(g2, bit), e.thn);
      var a := GenExpr(m, BeginIf(g2, bit), e.thn);
      NextArmRange(g2, bit, a.g);
      var s := NextArm(a.g, |g2.blocks| + 2, |g2.blocks| + 1);
      ExprGrown(m, s, e.els);
      var b := GenExpr(m, s, e.els);
      IfGrown(g2, bit, a.g, b.g, a.value, b.value);
      GrownTrans(g, g2, Joined(g2, a.g, b.g, a.value, b.value));
    }
  }

  lemma BeginLoopGrown(g: Gen)
    requires Open(g) && InRange(g)
    ensures InRange(BeginLoop(g)) && Open(BeginLoop(g))
  {
    forall p: nat, l: nat | Branches(BeginLoop(g).blocks, p, l)
      ensures l < |g.blocks| + 1
    {
      if p < |g.blocks| && p != g.cur {
        assert Branches(g.blocks, p, l);
      }
    }
  }

  /** The parts of a loop, before it is closed. */
  lemma {:induction false} LoopParts(m: Arith, s: Gen, e: Expr, slot: nat) returns (d: Gen, c: Operand)
    requires e.For? && Open(s) && InRange(s) && GenLoop(m, s, e, slot).Good?
    ensures Grown(s, d) == true && GenLoop(m, s, e, slot).g == CloseLoop(d, c, s.cur)
    decreases e, 0
  {
    hide GenExpr, GenOption, Grown, InRange, Increment, EmitBin, SameShape;
    ExprGrown(m, s, e.body);
    var a := GenExpr(m, s, e.body);
    OptionGrown(m, s, a.g, e.step, m.unit);
    var b := GenOption(m, a.g, e.step, m.unit);
    PartGrown(m, s, b.g, e.end);
    var x := GenExpr(m, b.g, e.end);
    var g1 := Increment(m, x.g, slot, b.value);
    IncrementShape(m, x.g, slot, b.value);
    ShapeGrown(s, x.g, g1);
    var p := EmitBin(m, g1, FCmpONE, x.value, Lit(Dbl(m.zero)));
    BinShape(m, g1, FCmpONE, x.value, Lit(Dbl(m.zero)));
    d, c := p.0, p.1;
    ShapeGrown(s, g1, d);
  }

  lemma {:induction false} GenForGrown(m: Arith, g: Gen, e: Expr)
    requires e.For? && Open(g) && InRange(g)
    ensures GenFor(m, g, e).Good? ==> Grown(g, GenFor(m, g, e).g) == true
    decreases e, 1
  {
    hide GenExpr, GenLoop, Grown, InRange, BeginLoop, Emit, Open;
    var slot := |g.allocas|;
    var g0 := Alloca(g, e.name);
    SameAs(g, g0);
    ExprGrown(m, g0, e.start);
    var a := GenExpr(m, g0, e.start);
    if GenFor(m, g, e).Good? {
      Earlier(g, g0, a.g);
      StillOpen(g, a.g);
      var g1 := Emit(a.g, Store(a.value, slot));
      EmitGrown(a.g, Store(a.value, slot));
      GrownTrans(g, a.g, g1);
      RangeKept(g, g1);
      StillOpen(g, g1);
      BeginLoopGrown(g1);
      var s := BeginLoop(g1).(named := BeginLoop(g1).named[e.name := slot]);
      SameAs(BeginLoop(g1), s);
      var d, c := LoopParts(m, s, e, slot);
      Earlier(BeginLoop(g1), s, d);
      LoopHead(g1);
      LoopGrown(g1, d, c);
      GrownTrans(g, g1, CloseLoop(d, c, s.cur));
      Elsewhere(g, CloseLoop(d, c, s.cur), GenFor(m, g, e).g);
    }
  }

  lemma LoopHead(g: Gen)
    ensures BeginLoop(g).cur == |g.blocks|
  {
  }

  lemma SameAs(g: Gen, h: Gen)
    requires h.blocks == g.blocks && h.cur == g.cur
    ensures Open(g) ==> Open(h)
    ensures InRange(g) ==> InRange(h)
  {
  }

  lemma Earlier(g: Gen, g': Gen, h: Gen)
    requires Grown(g', h) && g'.blocks == g.blocks && g'.layout == g.layout && g'.cur == g.cur
    ensures Grown(g, h)
  {
  }

  /** Whatever the expression, its blocks are closed off from the rest and well-formed among themselves. */
  lemma {:induction false} ExprGrown(m: Arith, g: Gen, e: Expr)
    requires Open(g) && InRange(g)
    ensures GenExpr(m, g, e).Good? ==> Grown(g, GenExpr(m, g, e).g) == true
    decreases e, 2
  {
    hide Grown, InRange, GenIf, GenFor, GenVarIn, GenUnary, GenBinary, GenAssign, GenCall;
    match e
    case Number(_) => SameGrown(g, g);
    case Variable(x) =>
      if x in g.named {
        SameGrown(g, EmitLoad(g, g.named[x]).0);
      }
    case VarIn(_, _) => VarInGrown(m, g, e);
    case Unary(_, _) => UnaryGrown(m, g, e);
    case Binary(op, _, _) =>
      if op == '=' {
        AssignGrown(m, g, e);
      } else {
        BinaryGrown(m, g, e);
      }
    case If(_, _, _) => GenIfGrown(m, g, e);
    case For(_, _, _, _, _) => GenForGrown(m, g, e);
    case Call(_, _) => CallGrown(m, g, e);
  }

  // ----- Whole functions -----

  lemma {:induction false} ParamsShape(g: Gen, params: seq<string>, i: nat)
    requires i <= |params| && Open(g)
    ensures SameShape(g, GenParams(g, params, i))
    decreases |params| - i
  {
    if i < |params| {
      ParamsShape(Bind(g, params[i], Arg(i)), params, i + 1);
    }
  }

  lemma SealedWellFormed(g: Gen, h: Gen, v: Operand)
    requires g.blocks == [g.blocks[0]] && g.cur == 0 && g.layout == [0] && Open(g) && g.blocks[0].phis == []
             && Grown(g, h)
    ensures CodeWellFormed(CodeOf(Seal(h, Ret(v))))
  {
    hide IncomingExact;
    var k := Seal(h, Ret(v));
    OneEnumerated(0);
    EnumeratesJoin([0], h.layout[1..], 0, 1, |h.blocks|);
    assert h.layout == [0] + h.layout[1..];
    forall p: nat, l: nat
      ensures Branches(k.blocks, p, l) <==> Branches(h.blocks, p, l)
      ensures Branches(k.blocks, p, l) ==> 0 < l < |k.blocks|
    {
      assert p < |h.blocks| ==> Touched(g, h, p);
    }
    forall l | 0 <= l < |k.blocks|
      ensures k.blocks[l].term.Some? && PhisExact(k.blocks, l)
    {
      assert Touched(g, h, l);
      if l == 0 {
        NoPhis(k.blocks, 0);
      } else {
        PhisStay(h.blocks, k.blocks, l);
      }
    }
  }

  /** The code of every accepted definition is well-formed. */
  lemma BodyWellFormed(m: Arith, mod: Module, protos: map<string, Prototype>, params: seq<string>, body: Expr)
    requires GenBody(m, mod, protos, params, body).Good?
    ensures CodeWellFormed(CodeOf(GenBody(m, mod, protos, params, body).g))
  {
    hide GenExpr, GenParams, CodeWellFormed, Grown;
    var g0 := Start(mod, protos);
    ParamsShape(g0, params, 0);
    var g := GenParams(g0, params, 0);
    ExprGrown(m, g, body);
    SealedWellFormed(g, GenExpr(m, g, body).g, GenExpr(m, g, body).value);
  }

  lemma DefinitionWellFormed(m: Arith, gl: Globals, d: Definition)
    ensures var (_, r) := GenDefinition(m, gl, d); r.Ok? ==> r.value.code.Some? && CodeWellFormed(r.value.code.value)
  {
    hide GenBody, CodeWellFormed;
    var mod := Declare(gl.mod, d.proto);
    var protos := gl.protos[d.proto.name := d.proto];
    var params := mod[d.proto.name].params;
    if GenBody(m, mod, protos, params, d.body).Good? {
      BodyWellFormed(m, mod, protos, params, d.body);
    }
  }
}
