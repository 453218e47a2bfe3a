/**
 Reachable integer values: a worklist walk over the dominator tree.  Each block gets the integer
 inputs and every integer value defined in a block above it in the tree.
 */
module Riv {
  import opened Ssa

  datatype Tree = Node(at: nat, children: seq<Tree>)

  function Labels(t: Tree): set<nat>
    decreases t, 0
  {
    {t.at} + LabelsAll(t.children)
  }

  function LabelsAll(ts: seq<Tree>): set<nat>
    decreases ts, 1
  {
    if ts == [] then {} else Labels(ts[0]) + LabelsAll(ts[1..])
  }

  /** No label occurs twice. */
  predicate Distinct(t: Tree)
    decreases t, 0
  {
    t.at !in LabelsAll(t.children) && DistinctAll(t.children)
  }

  predicate DistinctAll(ts: seq<Tree>)
    decreases ts, 1
  {
    ts == [] || (Distinct(ts[0]) && Labels(ts[0]) !! LabelsAll(ts[1..]) && DistinctAll(ts[1..]))
  }

  function Size(t: Tree): nat
    decreases t, 0
  {
    1 + SizeAll(t.children)
  }

  function SizeAll(ts: seq<Tree>): nat
    decreases ts, 1
  {
    if ts == [] then 0 else Size(ts[0]) + SizeAll(ts[1..])
  }

  /** The integer values a block defines. */
  function IntDefs(x: Block): set<nat> {
    (set k | 0 <= k < |x.phis| && x.phis[k].ty.Int? :: x.phis[k].dst)
        + (set k | 0 <= k < |x.body| && x.body[k].ty.Int? :: x.body[k].dst)
  }

  function DefsAt(f: Fn, l: nat): set<nat> {
    if l in f.blocks then IntDefs(f.blocks[l]) else {}
  }

  type Result = map<nat, set<nat>>

  /** What the blocks of a tree get when its root gets `acc`. */
  function Spread(f: Fn, t: Tree, acc: set<nat>): Result
    decreases t, 0
  {
    map[t.at := acc] + SpreadAll(f, t.children, acc + DefsAt(f, t.at))
  }

  function SpreadAll(f: Fn, ts: seq<Tree>, acc: set<nat>): Result
    decreases ts, 1
  {
    if ts == [] then map[] else Spread(f, ts[0], acc) + SpreadAll(f, ts[1..], acc)
  }

  // ----- The worklist -----

  /** What the trees of a worklist still contribute, each root having its set already. */
  ghost function Rest(f: Fn, ts: seq<Tree>, result: Result): Result
    requires forall k :: 0 <= k < |ts| ==> ts[k].at in result
    decreases |ts|
  {
    if ts == [] then map[] else Spread(f, ts[0], result[ts[0].at]) + Rest(f, ts[1..], result)
  }

  lemma {:induction false} SpreadKeys(f: Fn, t: Tree, acc: set<nat>)
    ensures Spread(f, t, acc).Keys == Labels(t)
    decreases t, 0
  {
    SpreadAllKeys(f, t.children, acc + DefsAt(f, t.at));
  }

  lemma {:induction false} SpreadAllKeys(f: Fn, ts: seq<Tree>, acc: set<nat>)
    ensures SpreadAll(f, ts, acc).Keys == LabelsAll(ts)
    decreases ts, 1
  {
    if ts != [] {
      SpreadKeys(f, ts[0], acc);
      SpreadAllKeys(f, ts[1..], acc);
    }
  }

  lemma {:induction false} LabelsAllAppend(a: seq<Tree>, b: seq<Tree>)
    ensures LabelsAll(a + b) == LabelsAll(a) + LabelsAll(b)
    ensures SizeAll(a + b) == SizeAll(a) + SizeAll(b)
    decreases |a|
  {
    if a == [] {
      assert a + b == b;
    } else {
      assert (a + b)[1..] == a[1..] + b;
      LabelsAllAppend(a[1..], b);
    }
  }

  lemma {:induction false} DistinctAppend(a: seq<Tree>, b: seq<Tree>)
    ensures DistinctAll(a + b) <==> DistinctAll(a) && DistinctAll(b) && LabelsAll(a) !! LabelsAll(b)
    decreases |a|
  {
    if a == [] {
      assert a + b == b;
    } else {
      assert (a + b)[1..] == a[1..] + b;
      DistinctAppend(a[1..], b);
      LabelsAllAppend(a[1..], b);
    }
  }

  lemma {:induction false} RootIn(ts: seq<Tree>, k: nat)
    requires k < |ts|
    ensures ts[k].at in LabelsAll(ts)
    decreases |ts|
  {
    if k > 0 {
      RootIn(ts[1..], k - 1);
    }
  }

  lemma UnionAssoc(a: Result, b: Result, c: Result)
    ensures (a + b) + c == a + (b + c)
  {
  }

  lemma {:induction false} RestAppend(f: Fn, a: seq<Tree>, b: seq<Tree>, result: Result)
    requires forall k :: 0 <= k < |a| ==> a[k].at in result
    requires forall k :: 0 <= k < |b| ==> b[k].at in result
    ensures Rest(f, a + b, result) == Rest(f, a, result) + Rest(f, b, result)
    decreases |a|
  {
    if a == [] {
      assert a + b == b;
    } else {
      hide Spread;
      assert (a + b)[1..] == a[1..] + b;
      RestAppend(f, a[1..], b, result);
      UnionAssoc(Spread(f, a[0], result[a[0].at]), Rest(f, a[1..], result), Rest(f, b, result));
    }
  }

  /** Sets of other blocks do not matter to what a worklist contributes. */
  lemma {:induction false} RestSame(f: Fn, ts: seq<Tree>, r1: Result, r2: Result)
    requires forall k :: 0 <= k < |ts| ==> ts[k].at in r1 && ts[k].at in r2 && r1[ts[k].at] == r2[ts[k].at]
    ensures Rest(f, ts, r1) == Rest(f, ts, r2)
    decreases |ts|
  {
    if ts != [] {
      RestSame(f, ts[1..], r1, r2);
    }
  }

  lemma {:induction false} RestUniform(f: Fn, ts: seq<Tree>, result: Result, acc: set<nat>)
    requires forall k :: 0 <= k < |ts| ==> ts[k].at in result && result[ts[k].at] == acc
    ensures Rest(f, ts, result) == SpreadAll(f, ts, acc)
    decreases |ts|
  {
    if ts != [] {
      RestUniform(f, ts[1..], result, acc);
    }
  }

  lemma {:induction false} RestKeys(f: Fn, ts: seq<Tree>, result: Result)
    requires forall k :: 0 <= k < |ts| ==> ts[k].at in result
    ensures Rest(f, ts, result).Keys == LabelsAll(ts)
    decreases |ts|
  {
    if ts != [] {
      SpreadKeys(f, ts[0], result[ts[0].at]);
      RestKeys(f, ts[1..], result);
    }
  }

  /** The labels strictly inside the trees. */
  function BelowAll(ts: seq<Tree>): set<nat>
    decreases |ts|
  {
    if ts == [] then {} else LabelsAll(ts[0].children) + BelowAll(ts[1..])
  }

  lemma {:induction false} BelowAllAppend(a: seq<Tree>, b: seq<Tree>)
    ensures BelowAll(a + b) == BelowAll(a) + BelowAll(b)
    decreases |a|
  {
    if a == [] {
      assert a + b == b;
    } else {
      assert (a + b)[1..] == a[1..] + b;
      BelowAllAppend(a[1..], b);
    }
  }

  lemma {:induction false} BelowInside(ts: seq<Tree>)
    ensures BelowAll(ts) <= LabelsAll(ts)
    decreases |ts|
  {
    if ts != [] {
      BelowInside(ts[1..]);
    }
  }

  lemma {:induction false} RootsApart(ts: seq<Tree>, k: nat)
    requires DistinctAll(ts) && k < |ts|
    ensures ts[k].at !in BelowAll(ts)
    decreases |ts|
  {
    BelowInside(ts[1..]);
    if k > 0 {
      RootsApart(ts[1..], k - 1);
      RootIn(ts[1..], k - 1);
    }
  }

  /** After a node's children joined, no block strictly inside the worklist has a set yet. */
  lemma BelowTurn(rest: seq<Tree>, w: Tree, result: Result, after: Result)
    requires DistinctAll(rest + [w]) && result.Keys !! BelowAll(rest + [w])
    requires forall l :: l in after ==> l in result || exists k :: 0 <= k < |w.children| && w.children[k].at == l
    ensures after.Keys !! BelowAll(rest + w.children)
  {
    TurnStart(rest, w);
    BelowAllAppend(rest, [w]);
    BelowAllAppend(rest, w.children);
    BelowInside(rest);
    BelowInside(w.children);
    assert BelowAll([w]) == LabelsAll(w.children) by { assert [w][1..] == []; }
    forall l | l in after
      ensures l !in BelowAll(rest + w.children)
    {
      if l !in result {
        var k :| 0 <= k < |w.children| && w.children[k].at == l;
        RootsApart(w.children, k);
        RootIn(w.children, k);
      }
    }
  }

  ghost predicate Rooted(ts: seq<Tree>, result: Result) {
    forall k :: 0 <= k < |ts| ==> ts[k].at in result
  }

  /** One turn: node `w` was taken from `rest + [w]`, and `after` gives each of its children its own set. */
  lemma Turn(f: Fn, rest: seq<Tree>, w: Tree, result: Result, after: Result)
    requires DistinctAll(rest + [w]) && Rooted(rest + [w], result) && Rooted(rest, result) && w.at in result
    requires forall l :: l in after <==> l in result || exists k :: 0 <= k < |w.children| && w.children[k].at == l
    requires forall k :: 0 <= k < |w.children| ==> after[w.children[k].at] == result[w.at] + DefsAt(f, w.at)
    requires forall l :: l in result && l !in LabelsAll(w.children) ==> after[l] == result[l]
    ensures DistinctAll(rest + w.children) && Rooted(rest + w.children, after)
    ensures after + Rest(f, rest + w.children, after) == result + Rest(f, rest + [w], result)
  {
    hide Spread, SpreadAll, DefsAt;
    var acc := result[w.at] + DefsAt(f, w.at);
    TurnStart(rest, w);
    DistinctAppend(rest, [w]);
    DistinctAppend(rest, w.children);
    forall k | 0 <= k < |rest|
      ensures rest[k].at in after && after[rest[k].at] == result[rest[k].at]
    {
      RootIn(rest, k);
    }
    RestAppend(f, rest, [w], result);
    RestAppend(f, rest, w.children, after);
    RestSame(f, rest, result, after);
    RestUniform(f, w.children, after, acc);
    RestOne(f, w, result);
    TurnMaps(f, rest, w, result, after);
  }

  lemma RestOne(f: Fn, w: Tree, result: Result)
    requires w.at in result
    ensures Rest(f, [w], result) == Spread(f, w, result[w.at])
  {
    assert [w][1..] == [];
    assert Rest(f, [], result) == map[];
  }

  lemma TurnMaps(f: Fn, rest: seq<Tree>, w: Tree, result: Result, after: Result)
    requires Distinct(w) && LabelsAll(rest) !! Labels(w) && Rooted(rest, result) && w.at in result
    requires forall l :: l in after <==> l in result || exists k :: 0 <= k < |w.children| && w.children[k].at == l
    requires forall l :: l in result && l !in LabelsAll(w.children) ==> after[l] == result[l]
    ensures var acc := result[w.at] + DefsAt(f, w.at);
            after + (Rest(f, rest, result) + SpreadAll(f, w.children, acc))
                == result + (Rest(f, rest, result) + Spread(f, w, result[w.at]))
  {
    hide Rest, SpreadAll, DistinctAll, DefsAt;
    var acc := result[w.at] + DefsAt(f, w.at);
    SpreadAllKeys(f, w.children, acc);
    RestKeys(f, rest, result);
    forall k | 0 <= k < |w.children|
      ensures w.children[k].at in LabelsAll(w.children)
    {
      RootIn(w.children, k);
    }
    Merge(result, after, Rest(f, rest, result), SpreadAll(f, w.children, acc), w.at);
  }

  lemma Merge(result: Result, after: Result, rest: Result, below: Result, x: nat)
    requires x in result && x !in below && x !in rest && rest.Keys !! below.Keys
    requires forall l :: l in result ==> l in after
    requires forall l :: l in after ==> l in result || l in below
    requires forall l :: l in result && l !in below ==> after[l] == result[l]
    ensures after + (rest + below) == result + (rest + (map[x := result[x]] + below))
  {
  }

  /** The analysis, with the dominator tree as LLVM hands it over. */
  method Run(f: Fn, ints: set<nat>, root: Tree) returns (result: Result)
    requires Distinct(root)
    ensures result == Spread(f, root, ints)
  {
    hide Spread, SpreadAll, DefsAt, Rest;
    result := map[root.at := ints];
    var worklist := [root];
    Single(f, root, ints);
    while worklist != []
      invariant DistinctAll(worklist) && Rooted(worklist, result)
      invariant result.Keys !! BelowAll(worklist)
      invariant result + Rest(f, worklist, result) == Spread(f, root, ints)
      decreases SizeAll(worklist)
    {
      var node := worklist[|worklist| - 1];
      ghost var all := worklist;
      worklist := worklist[..|worklist| - 1];
      assert all == worklist + [node];
      TurnStart(worklist, node);
      worklist, result := Visit(f, node, worklist, result);
    }
    RestNone(f, result);
  }

  lemma RestNone(f: Fn, result: Result)
    ensures result + Rest(f, [], result) == result
  {
  }

  lemma Single(f: Fn, t: Tree, acc: set<nat>)
    requires Distinct(t)
    ensures DistinctAll([t]) && BelowAll([t]) == LabelsAll(t.children) && t.at !in LabelsAll(t.children)
    ensures map[t.at := acc] + Rest(f, [t], map[t.at := acc]) == Spread(f, t, acc)
  {
    assert [t][1..] == [];
    RestOne(f, t, map[t.at := acc]);
  }

  /** A node's children join the worklist and inherit its set and its definitions. */
  method Visit(f: Fn, node: Tree, rest: seq<Tree>, before: Result) returns (worklist: seq<Tree>, result: Result)
    requires DistinctAll(rest + [node]) && Rooted(rest + [node], before) && before.Keys !! BelowAll(rest + [node])
    ensures worklist == rest + node.children && DistinctAll(worklist) && Rooted(worklist, result)
            && result.Keys !! BelowAll(worklist)
    ensures result + Rest(f, worklist, result) == before + Rest(f, rest + [node], before)
  {
    hide Spread, SpreadAll, DefsAt, Rest, Labels;
    VisitStart(rest, node, before);
    var defs := DefsAt(f, node.at);
    var rivs := before[node.at];
    worklist, result := rest, before;
    var i := 0;
    while i < |node.children|
      invariant i <= |node.children| && worklist == rest + node.children[..i]
      invariant forall l :: l in result <==> l in before || exists k :: 0 <= k < i && node.children[k].at == l
      invariant forall k :: 0 <= k < i ==> result[node.children[k].at] == rivs + defs
      invariant forall l :: l in before ==> result[l] == before[l]
    {
      var child := node.children[i];
      ChildApart(node.children, i);
      worklist := worklist + [child];
      result := result[child.at := GetOr(result, child.at) + defs + rivs];
      i := i + 1;
    }
    assert node.children[..i] == node.children;
    BelowTurn(rest, node, before, result);
    Turn(f, rest, node, before, result);
  }

  lemma VisitStart(rest: seq<Tree>, node: Tree, before: Result)
    requires DistinctAll(rest + [node]) && Rooted(rest + [node], before) && before.Keys !! BelowAll(rest + [node])
    ensures node.at in before && Rooted(rest, before) && DistinctAll(node.children)
    ensures forall k :: 0 <= k < |node.children| ==> node.children[k].at !in before
  {
    TurnStart(rest, node);
    assert (rest + [node])[|rest|] == node;
    forall k | 0 <= k < |rest|
      ensures rest[k].at in before
    {
      assert (rest + [node])[k] == rest[k];
    }
    BelowAllAppend(rest, [node]);
    assert BelowAll([node]) == LabelsAll(node.children) by { assert [node][1..] == []; }
    forall k | 0 <= k < |node.children|
      ensures node.children[k].at !in before
    {
      RootIn(node.children, k);
    }
  }

  function GetOr(r: Result, l: nat): set<nat> { if l in r then r[l] else {} }

  lemma TurnStart(rest: seq<Tree>, w: Tree)
    requires DistinctAll(rest + [w])
    ensures Distinct(w) && LabelsAll(rest) !! Labels(w) && DistinctAll(w.children)
    ensures SizeAll(rest + w.children) < SizeAll(rest + [w])
  {
    DistinctAppend(rest, [w]);
    LabelsAllAppend(rest, [w]);
    LabelsAllAppend(rest, w.children);
    assert [w][1..] == [];
  }

  lemma {:induction false} ChildApart(ts: seq<Tree>, i: nat)
    requires DistinctAll(ts) && i < |ts|
    ensures forall k :: 0 <= k < |ts| && k != i ==> ts[k].at != ts[i].at
    decreases |ts|
  {
    forall k | 0 < k < |ts|
      ensures ts[k].at != ts[0].at
    {
      RootIn(ts[1..], k - 1);
    }
    if i > 0 {
      ChildApart(ts[1..], i - 1);
    }
  }
}
