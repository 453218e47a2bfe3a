/**
 `MergeBB` as it runs: the reverse walk over two blocks in lockstep, the redirection of branches, and
 the loop over the function's blocks with its list of blocks to delete.
 */
module Merger {
  import opened Prelude
  import opened Ssa
  import opened Merge
  import opened MergeProof
  import opened MergePass

  /** All of a block's instructions in order, debug intrinsics included. */
  function Listing(x: Block): seq<Item> {
    PhiItems(x.phis) + InstrItems(x.body)
  }

  predicate IsDbg(i: Item) { i.I? && i.instr.op.Dbg? }

  function Real(xs: seq<Item>): seq<Item> {
    if xs == [] then [] else if IsDbg(xs[0]) then Real(xs[1..]) else [xs[0]] + Real(xs[1..])
  }

  lemma {:induction false} RealAppend(xs: seq<Item>, ys: seq<Item>)
    ensures Real(xs + ys) == Real(xs) + Real(ys)
  {
    if xs == [] {
      assert xs + ys == ys;
    } else {
      assert (xs + ys)[1..] == xs[1..] + ys;
      RealAppend(xs[1..], ys);
    }
  }

  lemma {:induction false} RealBody(body: seq<Instr>)
    ensures Real(InstrItems(body)) == InstrItems(NonDbg(body))
  {
    if body != [] {
      RealBody(body[1..]);
      assert InstrItems(body)[1..] == InstrItems(body[1..]);
    }
  }

  lemma {:induction false} RealPhis(phis: seq<Phi>)
    ensures Real(PhiItems(phis)) == PhiItems(phis)
  {
    if phis != [] {
      RealPhis(phis[1..]);
      assert PhiItems(phis)[1..] == PhiItems(phis[1..]);
    }
  }

  /** What the walk compares is what the block holds without its debug intrinsics. */
  lemma RealListing(x: Block)
    ensures Real(Listing(x)) == Items(x)
  {
    RealAppend(PhiItems(x.phis), InstrItems(x.body));
    RealPhis(x.phis);
    RealBody(x.body);
  }

  /** `getNumNonDbgInstrs`, leaving out the terminator, which every block has. */
  method CountNonDbg(x: Block) returns (n: nat)
    ensures n == |Items(x)|
  {
    var xs := Listing(x);
    n := 0;
    var i := 0;
    while i < |xs|
      invariant i <= |xs| && n == |Real(xs[..i])|
    {
      assert xs[..i + 1] == xs[..i] + [xs[i]];
      RealAppend(xs[..i], [xs[i]]);
      assert Real([xs[i]]) == if IsDbg(xs[i]) then [] else [xs[i]] by { assert [xs[i]][1..] == []; }
      if !IsDbg(xs[i]) {
        n := n + 1;
      }
      i := i + 1;
    }
    assert xs[..i] == xs;
    RealListing(x);
  }

  /** The reverse iterator: positions in both listings, or `fail` once either has run out. */
  class LockstepReverseIterator {
    const xs: seq<Item>
    const ys: seq<Item>
    var i: nat
    var j: nat
    var fail: bool

    /** Both positions are at real instructions with the same number of real instructions after them. */
    ghost predicate Valid()
      reads this
    {
      !fail ==> i < |xs| && j < |ys| && !IsDbg(xs[i]) && !IsDbg(ys[j]) && |Real(xs[i + 1..])| == |Real(ys[j + 1..])|
    }

    /** How many real instructions have been passed. */
    ghost function Passed(): nat
      reads this
      requires Valid() && !fail
    {
      |Real(xs[i + 1..])|
    }

    constructor (xs: seq<Item>, ys: seq<Item>)
      requires |Real(xs)| == |Real(ys)|
      ensures this.xs == xs && this.ys == ys && Valid()
      ensures fail <==> Real(xs) == []
      ensures !fail ==> Passed() == 0
    {
      this.xs, this.ys := xs, ys;
      new;
      var p := Prev(xs, |xs|);
      var q := Prev(ys, |ys|);
      assert xs[..|xs|] == xs && ys[..|ys|] == ys;
      fail := p.None? || q.None?;
      i, j := if p.Some? then p.value else 0, if q.Some? then q.value else 0;
    }

    /** The last real instruction before position `n`. */
    static method Prev(xs: seq<Item>, n: nat) returns (p: Option<nat>)
      requires n <= |xs|
      ensures p.Some? ==>
        && p.value < n && !IsDbg(xs[p.value])
        && Real(xs[p.value..n]) == [xs[p.value]] && Real(xs[p.value + 1..n]) == []
      ensures p.Some? ==> Real(xs[..n]) == Real(xs[..p.value]) + [xs[p.value]]
      ensures p.None? ==> Real(xs[..n]) == []
    {
      var k := n;
      while k > 0 && IsDbg(xs[k - 1])
        invariant 0 <= k <= n && Real(xs[k..n]) == []
      {
        assert xs[k - 1..n][1..] == xs[k..n];
        k := k - 1;
      }
      assert xs[..n] == xs[..k] + xs[k..n];
      RealAppend(xs[..k], xs[k..n]);
      if k == 0 {
        return None;
      }
      assert xs[k - 1..n][1..] == xs[k..n] && xs[k - 1..n][0] == xs[k - 1];
      assert xs[..k] == xs[..k - 1] + [xs[k - 1]];
      RealAppend(xs[..k - 1], [xs[k - 1]]);
      assert Real([xs[k - 1]]) == [xs[k - 1]] by { assert [xs[k - 1]][1..] == []; }
      assert xs[k - 1 + 1..n] == xs[k..n];
      return Some(k - 1);
    }

    /** Both positions move to the previous real instruction. */
    method Back()
      requires Valid() && !fail && |Real(xs)| == |Real(ys)|
      modifies this
      ensures Valid()
      ensures fail <==> old(Passed()) + 1 == |Real(xs)|
      ensures !fail ==> Passed() == old(Passed()) + 1
    {
      hide Real;
      var p := Prev(xs, i);
      var q := Prev(ys, j);
      SplitReal(xs, i);
      SplitReal(ys, j);
      if p.None? || q.None? {
        fail := true;
        return;
      }
      MovedBack(xs, p.value, i);
      MovedBack(ys, q.value, j);
      i, j := p.value, q.value;
    }
  }

  lemma SplitReal(xs: seq<Item>, i: nat)
    requires i < |xs| && !IsDbg(xs[i])
    ensures Real(xs) == Real(xs[..i]) + [xs[i]] + Real(xs[i + 1..])
  {
    assert xs == xs[..i] + xs[i..];
    RealAppend(xs[..i], xs[i..]);
    assert xs[i..][0] == xs[i] && xs[i..][1..] == xs[i + 1..];
  }

  lemma MovedBack(xs: seq<Item>, p: nat, i: nat)
    requires p < i < |xs| && !IsDbg(xs[i]) && Real(xs[p + 1..i]) == []
    ensures |Real(xs[p + 1..])| == |Real(xs[i + 1..])| + 1
  {
    assert xs[p + 1..] == xs[p + 1..i] + xs[i..];
    RealAppend(xs[p + 1..i], xs[i..]);
    assert xs[i..][0] == xs[i] && xs[i..][1..] == xs[i + 1..];
  }

  /** The iterator's current instruction is the one that has the passed ones after it. */
  lemma CurrentReal(xs: seq<Item>, i: nat)
    requires i < |xs| && !IsDbg(xs[i])
    ensures |Real(xs)| > |Real(xs[i + 1..])| && Real(xs)[|Real(xs)| - 1 - |Real(xs[i + 1..])|] == xs[i]
  {
    SplitReal(xs, i);
  }

  ghost predicate TailIdentical(f: Fn, a: nat, b: nat, succ: nat, xs: seq<Item>, ys: seq<Item>, n: nat)
    requires |xs| == |ys|
  {
    forall k :: 0 <= k < |xs| && |xs| - n <= k ==> Identical(f, a, b, succ, xs[k], ys[k])
  }

  class MergeBB {
    var f: Fn
    var deleteList: set<nat>

    constructor (f: Fn)
      ensures this.f == f && deleteList == {}
    {
      this.f := f;
      deleteList := {};
    }

    /** Walk both blocks backwards while their instructions are identical; success is running out of both. */
    method WalkExhausts(a: nat, b: nat, succ: nat) returns (same: bool)
      requires a in f.blocks && b in f.blocks && |Items(f.blocks[a])| == |Items(f.blocks[b])|
      ensures same <==> AllIdentical(f, a, b, succ)
    {
      hide Identical, Items, Listing, Real;
      ghost var xs, ys := Items(f.blocks[a]), Items(f.blocks[b]);
      RealListing(f.blocks[a]);
      RealListing(f.blocks[b]);
      var it := new LockstepReverseIterator(Listing(f.blocks[a]), Listing(f.blocks[b]));
      ghost var n := 0;
      while !it.fail
        invariant it.xs == Listing(f.blocks[a]) && it.ys == Listing(f.blocks[b])
        invariant it.Valid() && n <= |xs| && TailIdentical(f, a, b, succ, xs, ys, n)
        invariant if it.fail then n == |xs| else n == it.Passed() && n < |xs|
        decreases |xs| - n
      {
        CurrentReal(it.xs, it.i);
        CurrentReal(it.ys, it.j);
        if !Identical(f, a, b, succ, it.xs[it.i], it.ys[it.j]) {
          assert xs[|xs| - 1 - n] == it.xs[it.i] && ys[|xs| - 1 - n] == it.ys[it.j];
          return false;
        }
        it.Back();
        n := n + 1;
      }
      return true;
    }

    /** Every terminator that names the erased block names the kept block instead. */
    method UpdateBranchTargets(bbToErase: nat, bbToRetain: nat)
      modifies this`f
      ensures f == Redirect(old(f), bbToErase, bbToRetain)
    {
      var todo := Preds(f, bbToErase);
      while todo != {}
        invariant f.entry == old(f).entry && f.inputs == old(f).inputs && f.blocks.Keys == old(f).blocks.Keys
        invariant todo <= Preds(old(f), bbToErase)
        invariant forall l :: l in f.blocks
                    ==> f.blocks[l] == if l in todo || l !in Preds(old(f), bbToErase) then old(f).blocks[l]
                                                               else RedirectBlock(old(f).blocks[l], bbToErase,
                                                                   bbToRetain)
        decreases |todo|
      {
        var p :| p in todo;
        f := f.(blocks := f.blocks[p := RedirectBlock(f.blocks[p], bbToErase, bbToRetain)]);
        todo := todo - {p};
      }
      forall l | l in f.blocks
        ensures f.blocks[l] == RedirectBlock(old(f).blocks[l], bbToErase, bbToRetain)
      {
        if l !in Preds(old(f), bbToErase) {
          assert RedirectSuccs(f.blocks[l].term.succs, bbToErase, bbToRetain) == f.blocks[l].term.succs;
        }
      }
      assert f.blocks == Redirect(old(f), bbToErase, bbToRetain).blocks;
    }

    /** The checks on a block to keep, in the order in which the source makes them. */
    method IsDuplicate(bb: nat, bb2: nat, succ: nat, numInst: nat) returns (r: bool)
      requires Candidate(f, bb) && succ == Succ(f, bb) && bb2 in Preds(f, succ) && numInst == |Items(f.blocks[bb])|
               && succ in f.blocks
      requires |f.blocks[succ].phis| <= 1
      ensures r <==> Mergeable(f, bb, bb2, deleteList)
    {
      if bb2 == f.entry {
        return false;
      }
      if !(f.blocks[bb2].term.kind.Br? && |f.blocks[bb2].term.succs| == 1) {
        return false;
      }
      if !PlainPreds(f, bb2) {
        return false;
      }
      var n := CountNonDbg(f.blocks[bb2]);
      if bb2 in deleteList || bb == bb2 || numInst != n {
        return false;
      }
      if !PhiAgrees(f, bb, bb2, succ) {
        return false;
      }
      r := WalkExhausts(bb, bb2, succ);
    }

    /** Redirect `bb` to the first duplicate met, if there is one. */
    method MergeDuplicatedBlock(bb: nat) returns (changed: bool)
      modifies this
      ensures changed ==> exists b :: Mergeable(old(f), bb, b, old(deleteList)) && f == Redirect(old(f), bb, b)
      ensures changed ==> deleteList == old(deleteList) + {bb}
      ensures !changed ==> f == old(f) && deleteList == old(deleteList) && forall b :: !Mergeable(f, bb, b, deleteList)
    {
      if !Candidate(f, bb) {
        return false;
      }
      var succ := Succ(f, bb);
      if succ !in f.blocks || |f.blocks[succ].phis| > 1 {
        return false;
      }
      var numInst := CountNonDbg(f.blocks[bb]);
      var todo := Preds(f, succ);
      while todo != {}
        invariant f == old(f) && deleteList == old(deleteList) && todo <= Preds(f, succ)
        invariant forall b :: b in Preds(f, succ) && b !in todo ==> !Mergeable(f, bb, b, deleteList)
        decreases |todo|
      {
        var bb2 :| bb2 in todo;
        var r := IsDuplicate(bb, bb2, succ, numInst);
        if r {
          UpdateBranchTargets(bb, bb2);
          deleteList := deleteList + {bb};
          return true;
        }
        todo := todo - {bb2};
      }
      forall b
        ensures !Mergeable(f, bb, b, deleteList)
      {
        assert Mergeable(f, bb, b, deleteList) ==> b in Preds(f, succ);
      }
      return false;
    }

    /**
     The pass.  Each block of `order` is redirected, and listed for deletion, exactly when the function that
     the blocks before it have left has a duplicate of it (`fs` and `lists` are what the turns see).
     Throughout the loop nothing branches to a block to be deleted; at the end those blocks are gone,
     nothing uses what they computed, and the function behaves as it did.
     */
    method Run(order: seq<nat>) returns (changed: bool, ghost fs: seq<Fn>, ghost lists: seq<set<nat>>)
      requires Valid(f) && AlikeFromSame(f) && f.entry in f.blocks && deleteList == {}
      modifies this
      ensures |fs| == |lists| == |order| + 1 && fs[0] == old(f) && lists[0] == {}
      ensures forall k :: 0 <= k < |order| ==> Visited(fs[k], lists[k], order[k], fs[k + 1], lists[k + 1])
      ensures deleteList == lists[|order|] && f == Delete(fs[|order|], deleteList)
      ensures Preserves(old(f), f)
      ensures changed <==> deleteList != {}
      ensures f.entry == old(f).entry && f.blocks.Keys == old(f).blocks.Keys - deleteList
      ensures forall l, k :: l in f.blocks && 0 <= k < |f.blocks[l].term.succs|
                ==> f.blocks[l].term.succs[k] !in deleteList
      ensures forall l, k, r :: l in deleteList && HasResult(old(f), l, k, r) ==> Uses(f, r) == {}
    {
      hide Uses, Items, Valid, AlikeFromSame, Preserves, NoEdgeInto, Unused, Mergeable, Redirect, Visited;
      changed, fs, lists := false, [f], [deleteList];
      StartInvariant(f);
      var i := 0;
      while i < |order|
        invariant i <= |order| && LoopInvariant(old(f), f, deleteList)
        invariant changed <==> deleteList != {}
        invariant |fs| == |lists| == i + 1 && fs[0] == old(f) && lists[0] == {}
        invariant fs[i] == f && lists[i] == deleteList
        invariant forall k :: 0 <= k < i ==> Visited(fs[k], lists[k], order[k], fs[k + 1], lists[k + 1])
      {
        ghost var before, dead := f, deleteList;
        var merged := MergeDuplicatedBlock(order[i]);
        if merged {
          ghost var b :| Mergeable(before, order[i], b, dead) && f == Redirect(before, order[i], b);
          InvariantAfter(old(f), before, dead, order[i], b);
          VisitMerged(before, dead, order[i], b);
        } else {
          VisitKept(before, dead, order[i]);
        }
        fs, lists := fs + [f], lists + [deleteList];
        changed := changed || merged;
        i := i + 1;
      }
      DeletedPreserves(f, deleteList);
      PreservesTrans(old(f), f, Delete(f, deleteList));
      DeletedEdges(f, deleteList);
      forall l, k, r | l in deleteList && HasResult(old(f), l, k, r)
        ensures Uses(Delete(f, deleteList), r) == {}
      {
        SameResults(old(f), f, l, k, r);
        NoUseLeft(f, deleteList, l, k, r);
      }
      f := Delete(f, deleteList);
    }
  }

  /** A turn of the loop: from `f` and the blocks listed to `f'` and `dead'`. */
  ghost predicate Visited(f: Fn, dead: set<nat>, bb: nat, f': Fn, dead': set<nat>) {
    if exists b :: Mergeable(f, bb, b, dead)
    then dead' == dead + {bb} && exists b :: Mergeable(f, bb, b, dead) && f' == Redirect(f, bb, b)
    else f' == f && dead' == dead
  }

  lemma VisitMerged(f: Fn, dead: set<nat>, bb: nat, b: nat)
    requires Mergeable(f, bb, b, dead)
    ensures Visited(f, dead, bb, Redirect(f, bb, b), dead + {bb})
  {
  }

  lemma VisitKept(f: Fn, dead: set<nat>, bb: nat)
    requires forall b :: !Mergeable(f, bb, b, dead)
    ensures Visited(f, dead, bb, f, dead)
  {
  }

  lemma StartInvariant(f: Fn)
    requires Valid(f) && AlikeFromSame(f)
    ensures LoopInvariant(f, f, {})
  {
    PreservesSelf(f);
  }

  lemma SameResults(f: Fn, g: Fn, l: nat, k: nat, r: nat)
    requires SameContents(f, g)
    ensures HasResult(g, l, k, r) <==> HasResult(f, l, k, r)
  {
  }

  lemma DeletedEdges(f: Fn, dead: set<nat>)
    requires NoEdgeInto(f, dead)
    ensures var g := Delete(f, dead);
            && g.entry == f.entry && g.blocks.Keys == f.blocks.Keys - dead
            && forall l, k :: l in g.blocks && 0 <= k < |g.blocks[l].term.succs| ==> g.blocks[l].term.succs[k] !in dead
  {
  }
}
