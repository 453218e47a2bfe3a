/**
 What the blocks of a function look like after the whole pass: a target has become a test, two arms and a
 tail, whatever was done to other blocks before and afterwards, and every other block has kept its shape.
 */
module Shapes {
  import opened Prelude
  import opened Ssa
  import opened Renaming
  import opened Duplicate
  import opened DuplicateProof
  import opened DuplicateRun

  // ----- Shapes -----

  /** The same operations with the same results. */
  predicate SameInstrs(p: seq<Instr>, q: seq<Instr>) {
    |p| == |q| && forall k :: 0 <= k < |p| ==>
      p[k].op == q[k].op && p[k].ty == q[k].ty && p[k].dst == q[k].dst && |p[k].args| == |q[k].args|
  }

  predicate SamePhis(p: seq<Phi>, q: seq<Phi>) {
    |p| == |q| && forall k :: 0 <= k < |p| ==>
      p[k].ty == q[k].ty && p[k].dst == q[k].dst && |p[k].incoming| == |q[k].incoming|
  }

  /** The same phis and instructions, perhaps on other registers, and the same successors. */
  predicate Untouched(x: Block, y: Block) {
    && SamePhis(x.phis, y.phis) && SameInstrs(x.body, y.body)
    && y.term.kind == x.term.kind && y.term.succs == x.term.succs
  }

  /** Block `l` repeats the instructions of `x` and goes to `k`. */
  predicate Arm(x: Block, g: Fn, l: nat, k: nat) {
    && l in g.blocks && g.blocks[l].phis == [] && SameOperations(x.body, g.blocks[l].body)
    && g.blocks[l].term == Term(Br, [], [k])
  }

  /** Block `l` tests in `c` whether what stands for `v` is null and goes to `t` or to `e`. */
  predicate Test(x: Block, w: Work, l: nat, v: nat, c: nat, t: nat, e: nat) {
    && l in w.f.blocks && SamePhis(x.phis, w.f.blocks[l].phis)
    && w.f.blocks[l].body == [Instr(Int, c, IsNull, [Reg(Current(w.valueToPhi, v))])]
    && w.f.blocks[l].term == Term(CondBr, [Reg(c)], [t, e])
  }

  /** No later instruction of the block has the same result. */
  predicate Stays(body: seq<Instr>, i: nat)
    requires i < |body|
  {
    forall j :: i < j < |body| ==> !Defines(body[j], body[i].dst)
  }

  /** A phi that takes result `i` of either arm; it stands for the value if the block has no later one. */
  predicate Merging(x: Block, valueToPhi: map<nat, nat>, t: nat, e: nat, thn: Block, els: Block, i: nat, p: Phi)
    requires i < |x.body| == |thn.body| == |els.body|
  {
    && p.ty == x.body[i].ty && p.incoming == [(t, Reg(thn.body[i].dst)), (e, Reg(els.body[i].dst))]
    && (Stays(x.body, i) ==> x.body[i].dst in valueToPhi && valueToPhi[x.body[i].dst] == p.dst)
  }

  ghost predicate Merged(x: Block, w: Work, t: nat, e: nat, k: nat, i: nat)
    requires Arm(x, w.f, t, k) && Arm(x, w.f, e, k) && k in w.f.blocks && i < |x.body|
  {
    exists j :: 0 <= j < |w.f.blocks[k].phis|
      && Merging(x, w.valueToPhi, t, e, w.f.blocks[t], w.f.blocks[e], i, w.f.blocks[k].phis[j])
  }

  /** Block `k` ends as `x` does, and merges each result of its instructions from the arms. */
  ghost predicate Tail(x: Block, w: Work, t: nat, e: nat, k: nat)
    requires Arm(x, w.f, t, k) && Arm(x, w.f, e, k)
  {
    && k in w.f.blocks && w.f.blocks[k].body == []
    && w.f.blocks[k].term.kind == x.term.kind && w.f.blocks[k].term.succs == x.term.succs
    && forall i :: 0 <= i < |x.body| && !x.body[i].ty.Void? ==> Merged(x, w, t, e, k, i)
  }

  ghost predicate SplitInto(x: Block, w: Work, l: nat, v: nat, c: nat, t: nat, e: nat, k: nat) {
    Test(x, w, l, v, c, t, e) && Arm(x, w.f, t, k) && Arm(x, w.f, e, k) && Tail(x, w, t, e, k)
  }

  /** Block `l` of `f`, with new blocks, is now a test of `v`, two arms and a tail. */
  ghost predicate SplitOn(f: Fn, w: Work, l: nat, v: nat)
    requires l in f.blocks
  {
    exists c, t, e, k :: t !in f.blocks && e !in f.blocks && k !in f.blocks && t != e
      && SplitInto(f.blocks[l], w, l, v, c, t, e, k)
  }

  // ----- Splitting another block -----

  lemma FinalSame(f: Fn, s: Split, r: nat)
    requires s.at in f.blocks && s.body == f.blocks[s.at].body && !BodyDefines(f.blocks[s.at], r)
    ensures Final(s, r) == r
  {
    LastDefines(f.blocks[s.at], r);
  }

  lemma LastDefines(x: Block, r: nat)
    ensures LastDef(x.body, |x.body|, r).Some? ==> BodyDefines(x, r)
  {
  }

  /** The result of an instruction of another block keeps its name. */
  lemma ElsewhereSame(f: Fn, s: Split, l: nat, i: nat)
    requires Splits(f, s) && l in f.blocks && l != s.at && i < |f.blocks[l].body| && !f.blocks[l].body[i].ty.Void?
    ensures Final(s, f.blocks[l].body[i].dst) == f.blocks[l].body[i].dst
  {
    hide BlockBelow, OwnDefs;
    assert Defines(f.blocks[l].body[i], f.blocks[l].body[i].dst);
    assert BodyDefines(f.blocks[l], f.blocks[l].body[i].dst);
    FinalSame(f, s, f.blocks[l].body[i].dst);
  }

  lemma ValidSplits(w: Work, at: nat)
    requires Valid(w) && at in w.f.blocks
    ensures Splits(w.f, SplitOf(w.f, at, w.reg, w.lab))
  {
    hide Bounded, SingleDef, PhisRecorded;
  }

  /** Blocks that are not split are renamed. */
  lemma OtherRenamed(w: Work, at: nat, value: nat, l: nat)
    requires Valid(w) && at in w.f.blocks && l in w.f.blocks && l != at
    ensures var s := SplitOf(w.f, at, w.reg, w.lab);
            var g := DuplicateOne(w, at, value).f;
            l in g.blocks && g.blocks[l] == RenameBlock(w.f.blocks[l], FinalFn(s), at, s.TailLabel())
  {
    hide BlockBelow, SingleDef, PhisRecorded, RenameBlock, HeadOf, ArmOf, TailOf;
    assert l < w.lab;
  }

  lemma TestKept(x: Block, w: Work, at: nat, value: nat, l: nat, v: nat, c: nat, t: nat, e: nat)
    requires Valid(w) && at in w.f.blocks && l != at && Test(x, w, l, v, c, t, e)
    ensures Test(x, DuplicateOne(w, at, value), l, v, c, t, e)
  {
    hide Valid, Splits, Duplicated, RecordPhis, Current, Final, SamePhis, RenamePhis, RenameOps;
    var s := SplitOf(w.f, at, w.reg, w.lab);
    ValidSplits(w, at);
    ElsewhereSame(w.f, s, l, 0);
    OtherRenamed(w, at, value, l);
    CurrentAfter(w, at, value, v);
    OneRenamed(c, s);
    OneRenamed(Current(w.valueToPhi, v), s);
    PhisRenamedSame(w.f.blocks[l].phis, FinalFn(s), at, s.TailLabel());
    SamePhisTrans(x.phis, w.f.blocks[l].phis, DuplicateOne(w, at, value).f.blocks[l].phis);
  }

  lemma OneRenamed(r: nat, s: Split)
    ensures RenameOps([Reg(r)], FinalFn(s)) == [Reg(Final(s, r))]
  {
  }

  lemma PhisRenamedSame(phis: seq<Phi>, f: Rename, b: nat, k: nat)
    ensures SamePhis(phis, RenamePhis(phis, f, b, k))
  {
  }

  lemma SamePhisTrans(p: seq<Phi>, q: seq<Phi>, r: seq<Phi>)
    requires SamePhis(p, q) && SamePhis(q, r)
    ensures SamePhis(p, r)
  {
  }

  lemma ArmKept(x: Block, w: Work, at: nat, value: nat, l: nat, k: nat)
    requires Valid(w) && at in w.f.blocks && l != at && Arm(x, w.f, l, k)
    ensures Arm(x, DuplicateOne(w, at, value).f, l, k)
    ensures SameInstrs(w.f.blocks[l].body, DuplicateOne(w, at, value).f.blocks[l].body)
  {
    hide Valid, DuplicateOne, FinalFn, RenamePhis, RenameOps;
    OtherRenamed(w, at, value, l);
  }

  /** A value that has been merged is not split off again. */
  lemma RecordedKept(w: Work, at: nat, value: nat, r: nat)
    requires Valid(w) && at in w.f.blocks && r in w.valueToPhi
    ensures var m := DuplicateOne(w, at, value).valueToPhi; r in m && m[r] == w.valueToPhi[r]
  {
    hide Bounded, SingleDef, Duplicated;
    var s := SplitOf(w.f, at, w.reg, w.lab);
    RecordedAt(w.valueToPhi, s, 0, r);
    NotLast(w, at, r);
  }

  lemma TailKept(x: Block, w: Work, at: nat, value: nat, t: nat, e: nat, k: nat)
    requires Valid(w) && at in w.f.blocks && at != t && at != e && at != k
    requires Arm(x, w.f, t, k) && Arm(x, w.f, e, k) && Tail(x, w, t, e, k)
    ensures var w' := DuplicateOne(w, at, value);
            Arm(x, w'.f, t, k) && Arm(x, w'.f, e, k) && Tail(x, w', t, e, k)
  {
    var w' := DuplicateOne(w, at, value);
    ArmKept(x, w, at, value, t, k);
    ArmKept(x, w, at, value, e, k);
    OtherRenamed(w, at, value, k);
    hide Valid, DuplicateOne, Merged, Arm, FinalFn;
    forall i | 0 <= i < |x.body| && !x.body[i].ty.Void?
      ensures Merged(x, w', t, e, k, i)
    {
      MergedKept(x, w, at, value, t, e, k, i);
    }
  }

  lemma MergedKept(x: Block, w: Work, at: nat, value: nat, t: nat, e: nat, k: nat, i: nat)
    requires Valid(w) && at in w.f.blocks && at != t && at != e && at != k
    requires Arm(x, w.f, t, k) && Arm(x, w.f, e, k) && k in w.f.blocks
    requires i < |x.body| && !x.body[i].ty.Void? && Merged(x, w, t, e, k, i)
    ensures var w' := DuplicateOne(w, at, value);
            Arm(x, w'.f, t, k) && Arm(x, w'.f, e, k) && k in w'.f.blocks && Merged(x, w', t, e, k, i)
  {
    var w' := DuplicateOne(w, at, value);
    hide Valid, Splits, DuplicateOne, Arm, FinalFn, RenameBody, RenameTerm, Merging, SameInstrs;
    var s := SplitOf(w.f, at, w.reg, w.lab);
    ValidSplits(w, at);
    ArmKept(x, w, at, value, t, k);
    ArmKept(x, w, at, value, e, k);
    OtherRenamed(w, at, value, k);
    ArmLength(x, w.f, t, k);
    ArmLength(x, w.f, e, k);
    ArmLength(x, w'.f, t, k);
    ArmLength(x, w'.f, e, k);
    ElsewhereSame(w.f, s, t, i);
    ElsewhereSame(w.f, s, e, i);
    if x.body[i].dst in w.valueToPhi {
      RecordedKept(w, at, value, x.body[i].dst);
    }
    var j :| 0 <= j < |w.f.blocks[k].phis|
      && Merging(x, w.valueToPhi, t, e, w.f.blocks[t], w.f.blocks[e], i, w.f.blocks[k].phis[j]);
    var p := w.f.blocks[k].phis[j];
    PhiKept(x, w.valueToPhi, s, t, e, w.f.blocks[t], w.f.blocks[e], i, p);
    assert w'.f.blocks[k].phis[j] == p;
    MergingKept(x, w.valueToPhi, w'.valueToPhi, t, e, w.f.blocks[t], w.f.blocks[e], w'.f.blocks[t], w'.f.blocks[e],
                i, p);
  }

  lemma PhiKept(x: Block, m: map<nat, nat>, s: Split, t: nat, e: nat, thn: Block, els: Block, i: nat, p: Phi)
    requires i < |x.body| == |thn.body| == |els.body| && Merging(x, m, t, e, thn, els, i, p) && t != s.at && e != s.at
    requires Final(s, thn.body[i].dst) == thn.body[i].dst && Final(s, els.body[i].dst) == els.body[i].dst
    ensures p.(incoming := RenameIncoming(p.incoming, FinalFn(s), s.at, s.TailLabel())) == p
  {
    hide Stays;
    IncomingKept(p.incoming, s, s.at, s.TailLabel());
  }

  lemma MergingKept(x: Block, m: map<nat, nat>, m': map<nat, nat>, t: nat, e: nat, thn: Block, els: Block, thn': Block,
                    els': Block, i: nat, p: Phi)
    requires i < |x.body| == |thn.body| == |els.body| && Merging(x, m, t, e, thn, els, i, p)
    requires SameInstrs(thn.body, thn'.body) && SameInstrs(els.body, els'.body)
    requires x.body[i].dst in m ==> x.body[i].dst in m' && m'[x.body[i].dst] == m[x.body[i].dst]
    ensures |x.body| == |thn'.body| == |els'.body| && Merging(x, m', t, e, thn', els', i, p)
  {
    hide Stays;
  }

  lemma ArmLength(x: Block, g: Fn, l: nat, k: nat)
    requires Arm(x, g, l, k)
    ensures |g.blocks[l].body| == |x.body|
    ensures forall i :: 0 <= i < |x.body| ==> g.blocks[l].body[i].ty == x.body[i].ty
  {
  }

  lemma IncomingKept(incoming: seq<(nat, Operand)>, s: Split, b: nat, k: nat)
    requires forall i :: 0 <= i < |incoming| ==>
               incoming[i].0 != b && (incoming[i].1.Reg? ==> Final(s, incoming[i].1.r) == incoming[i].1.r)
    ensures RenameIncoming(incoming, FinalFn(s), b, k) == incoming
  {
  }

  // ----- Splitting the block itself -----

  lemma NewBlocks(w: Work, at: nat, value: nat)
    requires Valid(w) && at in w.f.blocks
    ensures var s := SplitOf(w.f, at, w.reg, w.lab);
            var g := DuplicateOne(w, at, value).f;
            && at in g.blocks && g.blocks[at] == HeadOf(s, w.f.blocks[at], Reg(Current(w.valueToPhi, value)))
            && w.lab in g.blocks && g.blocks[w.lab] == ArmOf(s, 0)
            && w.lab + 1 in g.blocks && g.blocks[w.lab + 1] == ArmOf(s, 1)
            && w.lab + 2 in g.blocks && g.blocks[w.lab + 2] == TailOf(s, w.f.blocks[at])
  {
    hide BlockBelow, SingleDef, PhisRecorded, RenameBlock, HeadOf, ArmOf, TailOf;
    assert at < w.lab;
  }

  lemma TestMade(w: Work, at: nat, value: nat)
    requires Valid(w) && at in w.f.blocks
    ensures Test(w.f.blocks[at], DuplicateOne(w, at, value), at, value, w.reg, w.lab, w.lab + 1)
  {
    hide Valid, Duplicated, RecordPhis, Current, Final, SamePhis, RenamePhis, ArmOf, TailOf;
    var s := SplitOf(w.f, at, w.reg, w.lab);
    NewBlocks(w, at, value);
    CurrentAfter(w, at, value, value);
    PhisRenamedSame(w.f.blocks[at].phis, FinalFn(s), at, s.TailLabel());
  }

  lemma ArmMade(s: Split, x: Block, arm: nat)
    requires s.body == x.body && arm < 2 && BodyBelow(s.body, s.reg)
    ensures SameOperations(x.body, ArmOf(s, arm).body)
    ensures |ArmOf(s, arm).body| == |x.body|
    ensures forall i :: 0 <= i < |x.body| ==> ArmOf(s, arm).body[i].dst == s.CopyReg(i, arm)
  {
    hide Copy, InArmFn, SameOperations, BodyBelow, RenameOps;
    CopySame(s, 0, arm);
    CopyBelow(s, 0, arm);
    assert s.body[0..] == x.body;
    forall i | 0 <= i < |x.body|
      ensures ArmOf(s, arm).body[i].dst == s.CopyReg(i, arm)
    {
      assert Copy(s, 0, arm)[i] == CopyOne(s, 0 + i, arm);
    }
  }

  lemma BodyIsBelow(w: Work, at: nat)
    requires Valid(w) && at in w.f.blocks
    ensures BodyBelow(w.f.blocks[at].body, w.reg)
  {
    assert BlockBelow(w.f.blocks[at], w.reg, w.lab);
  }

  lemma ArmsMade(w: Work, at: nat, value: nat)
    requires Valid(w) && at in w.f.blocks
    ensures var (x, g) := (w.f.blocks[at], DuplicateOne(w, at, value).f);
            Arm(x, g, w.lab, w.lab + 2) && Arm(x, g, w.lab + 1, w.lab + 2)
  {
    hide Valid, DuplicateOne, SameOperations, Copy, HeadOf, TailOf, BodyBelow;
    var s := SplitOf(w.f, at, w.reg, w.lab);
    NewBlocks(w, at, value);
    BodyIsBelow(w, at);
    ArmMade(s, w.f.blocks[at], 0);
    ArmMade(s, w.f.blocks[at], 1);
  }

  lemma MergedMade(w: Work, w': Work, at: nat, value: nat, i: nat)
    requires Valid(w) && at in w.f.blocks && i < |w.f.blocks[at].body| && !w.f.blocks[at].body[i].ty.Void?
    requires w' == DuplicateOne(w, at, value)
    requires Arm(w.f.blocks[at], w'.f, w.lab, w.lab + 2) && Arm(w.f.blocks[at], w'.f, w.lab + 1, w.lab + 2)
    ensures w.lab + 2 in w'.f.blocks && Merged(w.f.blocks[at], w', w.lab, w.lab + 1, w.lab + 2, i)
  {
    hide Valid, DuplicateOne, RecordPhis, ArmOf, HeadOf, TailPhis, TailPhi, Merging, Arm, BodyBelow;
    var x := w.f.blocks[at];
    var s := SplitOf(w.f, at, w.reg, w.lab);
    NewBlocks(w, at, value);
    RecordsMade(w, at, value);
    BodyIsBelow(w, at);
    PhiMerges(s, x, w.valueToPhi, i);
    var j :| 0 <= j < |TailPhis(s, 0)| && TailPhis(s, 0)[j] == TailPhi(s, i);
    assert w'.f.blocks[w.lab + 2].phis[j] == TailPhi(s, i);
  }

  lemma RecordsMade(w: Work, at: nat, value: nat)
    requires at in w.f.blocks
    ensures DuplicateOne(w, at, value).valueToPhi
            == RecordPhis(w.valueToPhi, SplitOf(w.f, at, w.reg, w.lab), 0)
  {
  }

  lemma PhiMerges(s: Split, x: Block, valueToPhi: map<nat, nat>, i: nat)
    requires s.body == x.body && BodyBelow(s.body, s.reg) && i < |x.body| && !x.body[i].ty.Void?
    ensures |ArmOf(s, 0).body| == |ArmOf(s, 1).body| == |x.body| && TailPhi(s, i) in TailPhis(s, 0)
    ensures Merging(x, RecordPhis(valueToPhi, s, 0), s.lab, s.lab + 1, ArmOf(s, 0), ArmOf(s, 1), i, TailPhi(s, i))
  {
    hide ArmOf, BodyBelow;
    ArmMade(s, x, 0);
    ArmMade(s, x, 1);
    TailMerges(s, 0, i);
    if Stays(x.body, i) {
      assert Defines(x.body[i], x.body[i].dst);
      RecordedAt(valueToPhi, s, 0, x.body[i].dst);
    }
    hide RecordPhis, TailPhis;
  }

  lemma SplitMade(w: Work, at: nat, value: nat)
    requires Valid(w) && at in w.f.blocks
    ensures SplitInto(w.f.blocks[at], DuplicateOne(w, at, value), at, value, w.reg, w.lab, w.lab + 1, w.lab + 2)
  {
    hide Valid, DuplicateOne, Merged, Test, Arm, TailPhis, HeadOf, ArmOf;
    var x := w.f.blocks[at];
    TestMade(w, at, value);
    NewBlocks(w, at, value);
    ArmsMade(w, at, value);
    forall i | 0 <= i < |x.body| && !x.body[i].ty.Void?
      ensures Merged(x, DuplicateOne(w, at, value), w.lab, w.lab + 1, w.lab + 2, i)
    {
      MergedMade(w, DuplicateOne(w, at, value), at, value, i);
    }
  }

  // ----- The whole pass -----

  ghost predicate InRange(w: Work, target: (nat, nat)) {
    target.0 in w.f.blocks && Current(w.valueToPhi, target.1) < w.reg
  }

  lemma InRangeAfter(w: Work, at: nat, value: nat, other: (nat, nat))
    requires Valid(w) && InRange(w, (at, value)) && InRange(w, other)
    ensures InRange(DuplicateOne(w, at, value), other)
  {
    hide Bounded, SingleDef, PhisRecorded, Duplicated, RecordPhis;
    var s := SplitOf(w.f, at, w.reg, w.lab);
    assert Splits(w.f, s);
    assert Valid(w);
    CurrentAfter(w, at, value, other.1);
    OtherBelow(w.f, s, Reg(Current(w.valueToPhi, value)), other.0, Current(w.valueToPhi, other.1));
  }

  /** What has become of block `l` of `f`: split on a value, or untouched so far. */
  ghost predicate Stage(f: Fn, w: Work, l: nat, o: Option<nat>)
    requires l in f.blocks
  {
    match o
    case Some(v) => SplitOn(f, w, l, v)
    case None => l in w.f.blocks && Untouched(f.blocks[l], w.f.blocks[l])
  }

  lemma UntouchedTrans(x: Block, y: Block, z: Block)
    requires Untouched(x, y) && Untouched(y, z)
    ensures Untouched(x, z)
  {
  }

  lemma RenamedUntouched(x: Block, f: Rename, b: nat, k: nat)
    ensures Untouched(x, RenameBlock(x, f, b, k))
  {
  }

  /** A split of a block counts as one of any block of the same shape. */
  lemma SplitAlike(x: Block, y: Block, w: Work, l: nat, v: nat, c: nat, t: nat, e: nat, k: nat)
    requires Untouched(x, y) && SplitInto(y, w, l, v, c, t, e, k)
    ensures SplitInto(x, w, l, v, c, t, e, k)
  {
    assert Test(x, w, l, v, c, t, e) by { SamePhisTrans(x.phis, y.phis, w.f.blocks[l].phis); }
    assert Arm(x, w.f, t, k) && Arm(x, w.f, e, k);
    forall i | 0 <= i < |x.body| && !x.body[i].ty.Void?
      ensures Merged(x, w, t, e, k, i)
    {
      assert Merged(y, w, t, e, k, i);
      StaysAlike(x.body, y.body, i);
      var j :| 0 <= j < |w.f.blocks[k].phis|
        && Merging(y, w.valueToPhi, t, e, w.f.blocks[t], w.f.blocks[e], i, w.f.blocks[k].phis[j]);
      assert Merging(x, w.valueToPhi, t, e, w.f.blocks[t], w.f.blocks[e], i, w.f.blocks[k].phis[j]);
    }
  }

  lemma StaysAlike(p: seq<Instr>, q: seq<Instr>, i: nat)
    requires SameInstrs(p, q) && i < |p|
    ensures Stays(p, i) <==> Stays(q, i)
  {
    if !Stays(p, i) {
      var j :| i < j < |p| && Defines(p[j], p[i].dst);
      assert Defines(q[j], q[i].dst);
    }
    if !Stays(q, i) {
      var j :| i < j < |q| && Defines(q[j], q[i].dst);
      assert Defines(p[j], p[i].dst);
    }
  }

  /** One turn of the loop splits its target and leaves every other block of the original as it is. */
  lemma StageAfter(f: Fn, w: Work, at: nat, value: nat, l: nat, o: Option<nat>)
    requires Valid(w) && at in w.f.blocks && at in f.blocks && l in f.blocks && Stage(f, w, l, o)
    requires (at == l ==> o.None?) && forall b :: b in f.blocks ==> b < w.lab
    ensures Stage(f, DuplicateOne(w, at, value), l, if at == l then Some(value) else o)
  {
    hide Valid, DuplicateOne, SplitInto, Untouched;
    if at == l {
      SplitMade(w, at, value);
      SplitAlike(f.blocks[l], w.f.blocks[l], DuplicateOne(w, at, value), l, value, w.reg, w.lab, w.lab + 1, w.lab + 2);
    } else if o.None? {
      OtherRenamed(w, at, value, l);
      var s := SplitOf(w.f, at, w.reg, w.lab);
      RenamedUntouched(w.f.blocks[l], FinalFn(s), at, s.TailLabel());
      UntouchedTrans(f.blocks[l], w.f.blocks[l], DuplicateOne(w, at, value).f.blocks[l]);
    } else {
      var c, t, e, k :| t !in f.blocks && e !in f.blocks && k !in f.blocks && t != e
        && SplitInto(f.blocks[l], w, l, o.value, c, t, e, k);
      SplitKept(f.blocks[l], w, at, value, l, o.value, c, t, e, k);
    }
  }

  lemma SplitKept(x: Block, w: Work, at: nat, value: nat, l: nat, v: nat, c: nat, t: nat, e: nat, k: nat)
    requires Valid(w) && at in w.f.blocks && at !in {l, t, e, k} && SplitInto(x, w, l, v, c, t, e, k)
    ensures SplitInto(x, DuplicateOne(w, at, value), l, v, c, t, e, k)
  {
    hide Valid, DuplicateOne, Test, Arm, Tail;
    TestKept(x, w, at, value, l, v, c, t, e);
    TailKept(x, w, at, value, t, e, k);
  }

  predicate NoBlockTwice(targets: seq<(nat, nat)>) {
    forall i, j :: 0 <= i < j < |targets| ==> targets[i].0 != targets[j].0
  }

  /** The value that the targets name for block `l`. */
  function ValueFor(targets: seq<(nat, nat)>, l: nat): Option<nat> {
    if targets == [] then None
    else if targets[0].0 == l then Some(targets[0].1)
    else ValueFor(targets[1..], l)
  }

  /** After the whole run the targets are split, each on its value, and the other blocks are untouched. */
  lemma {:induction false} AllShapes(f: Fn, w: Work, targets: seq<(nat, nat)>, l: nat, o: Option<nat>)
    requires Valid(w) && l in f.blocks && Stage(f, w, l, o) && NoBlockTwice(targets)
    requires forall b :: b in f.blocks ==> b < w.lab
    requires forall i :: 0 <= i < |targets| ==> targets[i].0 in f.blocks && InRange(w, targets[i])
    requires o.Some? ==> ValueFor(targets, l).None?
    ensures Stage(f, DuplicateAll(w, targets), l, if o.Some? then o else ValueFor(targets, l))
    decreases |targets|
  {
    hide Valid, DuplicateOne, Stage, InRange;
    if targets != [] {
      var (at, value) := targets[0];
      assert InRange(w, targets[0]);
      InRangeMeans(w, targets[0]);
      ValidAfter(w, at, value);
      StageAfter(f, w, at, value, l, o);
      var w' := DuplicateOne(w, at, value);
      assert w'.lab == w.lab + 3 by { LabelsUp(w, at, value); }
      forall i | 0 <= i < |targets[1..]|
        ensures targets[1..][i].0 in f.blocks && InRange(w', targets[1..][i])
      {
        assert InRange(w, targets[i + 1]);
        InRangeAfter(w, at, value, targets[i + 1]);
      }
      if at == l {
        OnlyOnce(targets, l);
      }
      AllShapes(f, w', targets[1..], l, if at == l then Some(value) else o);
    }
  }

  lemma InRangeMeans(w: Work, target: (nat, nat))
    requires InRange(w, target)
    ensures target.0 in w.f.blocks && Current(w.valueToPhi, target.1) < w.reg
  {
  }

  lemma LabelsUp(w: Work, at: nat, value: nat)
    requires at in w.f.blocks
    ensures DuplicateOne(w, at, value).lab == w.lab + 3
  {
  }

  lemma OnlyOnce(targets: seq<(nat, nat)>, l: nat)
    requires targets != [] && targets[0].0 == l && NoBlockTwice(targets)
    ensures ValueFor(targets[1..], l).None?
  {
    ValueForIff(targets[1..], l);
    forall i | 0 <= i < |targets[1..]|
      ensures targets[1..][i].0 != l
    {
      assert targets[1..][i] == targets[i + 1];
    }
  }

  lemma {:induction false} ValueForIff(targets: seq<(nat, nat)>, l: nat)
    ensures ValueFor(targets, l).Some? <==> exists i :: 0 <= i < |targets| && targets[i].0 == l
    ensures ValueFor(targets, l).Some? ==> (l, ValueFor(targets, l).value) in targets
    decreases |targets|
  {
    if targets != [] {
      ValueForIff(targets[1..], l);
      if i :| 1 <= i < |targets| && targets[i].0 == l {
        assert targets[1..][i - 1].0 == l;
      }
    }
  }
}
