/**
 `NamedValues` is overwritten and put back while code is generated.  It comes back unchanged exactly
 when no name leaks out of a `var` list that binds it twice: the second save of such a name
 overwrites the first, so the name stays bound to a slot of the list.
 */
module Scope {
  import opened Prelude
  import opened Ast
  import opened Machine
  import opened Codegen
  import opened CodegenFacts

  function LeaksOption(e: Option<Expr>): set<string>
    decreases e, 1
  {
    if e.Some? then Leaks(e.value) else {}
  }

  function LeaksAll(es: seq<Expr>): set<string>
    decreases es, 0
  {
    if es == [] then {} else Leaks(es[0]) + LeaksAll(es[1..])
  }

  /** What the bindings of a list leave bound differently, `seen` being the names already saved. */
  function LeaksBindings(bs: seq<Binding>, seen: set<string>): set<string>
    decreases bs, 0
  {
    if bs == [] then {}
    else
      (LeaksOption(bs[0].init) - seen)
      + (if bs[0].name in seen then {bs[0].name} else {})
      + LeaksBindings(bs[1..], seen + {bs[0].name})
  }

  /** The names that stay bound to a slot of `e` after the code for `e` has been generated. */
  function Leaks(e: Expr): set<string>
    decreases e, 0
  {
    match e
    case Number(_) => {}
    case Variable(_) => {}
    case VarIn(bs, body) => LeaksBindings(bs, {}) + (Leaks(body) - set x | x in Names(bs))
    case Unary(_, a) => Leaks(a)
    case Binary(op, a, b) => (if op == '=' then {} else Leaks(a)) + Leaks(b)
    case If(c, a, b) => Leaks(c) + Leaks(a) + Leaks(b)
    case For(x, start, end, step, body) => Leaks(start) + (Leaks(body) + LeaksOption(step) + Leaks(end) - {x})
    case Call(_, args) => LeaksAll(args)
  }

  /** Every name in scope is bound to a slot that exists. */
  ghost predicate InScope(g: Gen) {
    forall x :: x in g.named ==> g.named[x] < |g.allocas|
  }

  /**
   Between the scopes `before` and `after`, `names` came to be bound to slots from `base` on and no other
   name changed.
   */
  ghost predicate Rebinds(before: map<string, nat>, after: map<string, nat>, names: set<string>, base: nat) {
    && (forall x :: x in names ==> x in after && base <= after[x])
    && (forall x :: x !in names ==> Lookup(after, x) == Lookup(before, x))
  }

  lemma RebindsTrans(a: map<string, nat>, b: map<string, nat>, c: map<string, nat>, ab: set<string>, bc: set<string>,
                     base: nat, base': nat)
    requires Rebinds(a, b, ab, base) && Rebinds(b, c, bc, base') && base <= base'
    ensures Rebinds(a, c, ab + bc, base)
  {
    forall x | x in ab + bc
      ensures x in c && base <= c[x]
    {
      if x !in bc {
        assert Lookup(c, x) == Lookup(b, x);
      }
    }
  }

  lemma {:induction false} RestoreAllLookup(named: map<string, nat>, names: seq<string>, saved: map<string,
                                            Option<nat>>)
    requires forall i :: 0 <= i < |names| ==> names[i] in saved
    ensures forall x :: Lookup(RestoreAll(named, names, saved), x) == if x in names then saved[x] else Lookup(named, x)
    decreases |names|
  {
    if names != [] {
      RestoreAllLookup(RestoreName(named, names[0], saved[names[0]]), names[1..], saved);
      assert names == [names[0]] + names[1..];
    }
  }

  ghost function Pending(named: map<string, nat>, saved: map<string, Option<nat>>, x: string): Option<nat> {
    if x in saved then saved[x] else Lookup(named, x)
  }

  ghost predicate Seen(named: map<string, nat>, saved: map<string, Option<nat>>, base: nat) {
    forall x :: x in saved ==> x in named && base <= named[x]
  }

  ghost predicate PendingRebinds(n: map<string, nat>, s: map<string, Option<nat>>, n': map<string, nat>,
                                 s': map<string, Option<nat>>, leaks: set<string>, base: nat) {
    forall x :: if x in leaks then Pending(n', s', x).Some? && base <= Pending(n', s', x).value
                else Pending(n', s', x) == Pending(n, s, x)
  }

  ghost predicate SavedInScope(saved: map<string, Option<nat>>, n: nat) {
    forall x :: x in saved && saved[x].Some? ==> saved[x].value < n
  }

  /** One binding: its initial value's leaks, the save, and the new slot. */
  lemma BindingStep(g: Gen, g1: Gen, x: string, v: Operand, saved: map<string, Option<nat>>, leaks: set<string>,
                    base: nat)
    requires Open(g1) && InScope(g1) && base <= |g.allocas| <= |g1.allocas|
    requires Seen(g.named, saved, base) && Rebinds(g.named, g1.named, leaks, |g.allocas|)
    requires SavedInScope(saved, |g.allocas|)
    ensures var h := Bind(g1, x, v);
            var saved1 := saved[x := Lookup(g1.named, x)];
            && InScope(h) && SavedInScope(saved1, |h.allocas|) && Seen(h.named, saved1, base)
            && PendingRebinds(g.named, saved, h.named, saved1, (leaks - saved.Keys) + (if x in saved then {x} else {}),
                 base)
  {
    var h := Bind(g1, x, v);
    var saved1 := saved[x := Lookup(g1.named, x)];
    forall y
      ensures y in saved1 ==> y in h.named && base <= h.named[y]
    {
      assert y !in leaks ==> Lookup(g1.named, y) == Lookup(g.named, y);
    }
    forall y
      ensures if y in (leaks - saved.Keys) + (if x in saved then {x} else {})
              then Pending(h.named, saved1, y).Some? && base <= Pending(h.named, saved1, y).value
              else Pending(h.named, saved1, y) == Pending(g.named, saved, y)
    {
      assert y !in leaks ==> Lookup(g1.named, y) == Lookup(g.named, y);
    }
  }

  lemma {:induction false} BindingsScope(m: Arith, g: Gen, bs: seq<Binding>, saved: map<string, Option<nat>>, base: nat)
    requires Open(g) && InScope(g) && base <= |g.allocas| && Seen(g.named, saved, base)
             && SavedInScope(saved, |g.allocas|)
    ensures var o := GenBindings(m, g, bs, saved);
            o.Good? ==> && InScope(o.g) && SavedInScope(o.value, |o.g.allocas|)
                        && PendingRebinds(g.named, saved, o.g.named, o.value, LeaksBindings(bs, saved.Keys), base)
    decreases bs, 0
  {
    GenBindingsExtends(m, g, bs, saved);
    if bs != [] {
      var a := GenOption(m, g, bs[0].init, m.zero);
      OptionScope(m, g, bs[0].init, m.zero);
      if a.Good? {
        GenOptionExtends(m, g, bs[0].init, m.zero);
        var x := bs[0].name;
        BindingStep(g, a.g, x, a.value, saved, LeaksOption(bs[0].init), base);
        var saved1 := saved[x := Lookup(a.g.named, x)];
        assert saved1.Keys == saved.Keys + {x};
        BindExtends(a.g, x, a.value);
        BindingsScope(m, Bind(a.g, x, a.value), bs[1..], saved1, base);
      }
    }
  }

  lemma {:induction false} OptionScope(m: Arith, g: Gen, e: Option<Expr>, d: Double)
    requires Open(g) && InScope(g)
    ensures var o := GenOption(m, g, e, d);
            o.Good? ==> InScope(o.g) && Rebinds(g.named, o.g.named, LeaksOption(e), |g.allocas|)
    decreases e, 3
  {
    if e.Some? {
      ScopeAfter(m, g, e.value);
    }
  }

  lemma {:induction false} ArgsScope(m: Arith, g: Gen, args: seq<Expr>)
    requires Open(g) && InScope(g)
    ensures var o := GenArgs(m, g, args);
            o.Good? ==> InScope(o.g) && Rebinds(g.named, o.g.named, LeaksAll(args), |g.allocas|)
    decreases args, 0
  {
    if args != [] {
      ScopeAfter(m, g, args[0]);
      GenExprExtends(m, g, args[0]);
      var a := GenExpr(m, g, args[0]);
      if a.Good? {
        ArgsScope(m, a.g, args[1..]);
        var b := GenArgs(m, a.g, args[1..]);
        if b.Good? {
          RebindsTrans(g.named, a.g.named, b.g.named, Leaks(args[0]), LeaksAll(args[1..]), |g.allocas|, |a.g.allocas|);
        }
      }
    }
  }

  lemma {:induction false} VarInScope(m: Arith, g: Gen, e: Expr)
    requires Open(g) && InScope(g) && e.VarIn?
    ensures var o := GenVarIn(m, g, e);
            o.Good? ==> InScope(o.g) && Rebinds(g.named, o.g.named, Leaks(e), |g.allocas|)
    decreases e, 0
  {
    hide GenExpr, GenBindings;
    var bs := e.bindings;
    var none: map<string, Option<nat>> := map[];
    assert none.Keys == {};
    BindingsScope(m, g, bs, none, |g.allocas|);
    GenBindingsExtends(m, g, bs, none);
    var a := GenBindings(m, g, bs, none);
    if a.Good? {
      ScopeAfter(m, a.g, e.body);
      GenExprExtends(m, a.g, e.body);
      var b := GenExpr(m, a.g, e.body);
      if b.Good? {
        VarInScopeEnd(g, a.g, b.g, bs, a.value, Leaks(e.body));
      }
    }
  }

  lemma VarInScopeEnd(g: Gen, a: Gen, b: Gen, bs: seq<Binding>, saved: map<string, Option<nat>>, leaks: set<string>)
    requires InScope(a) && InScope(b) && |g.allocas| <= |a.allocas| <= |b.allocas|
    requires forall x :: x in saved <==> x in Names(bs)
    requires PendingRebinds(g.named, map[], a.named, saved, LeaksBindings(bs, {}), |g.allocas|)
    requires Rebinds(a.named, b.named, leaks, |a.allocas|)
    requires InScope(g)
    requires SavedInScope(saved, |a.allocas|)
    ensures var n := RestoreAll(b.named, Names(bs), saved);
            && InScope(b.(named := n))
            && Rebinds(g.named, n, LeaksBindings(bs, {}) + (leaks - set x | x in Names(bs)), |g.allocas|)
  {
    RestoreAllLookup(b.named, Names(bs), saved);
    var n := RestoreAll(b.named, Names(bs), saved);
    forall x
      ensures x in n ==> n[x] < |b.allocas|
      ensures if x in LeaksBindings(bs, {}) + (leaks - set x | x in Names(bs)) then x in n && |g.allocas| <= n[x]
              else Lookup(n, x) == Lookup(g.named, x)
    {
      assert Lookup(n, x) == if x in Names(bs) then saved[x] else Lookup(b.named, x);
      assert Pending(g.named, map[], x) == Lookup(g.named, x);
      assert x !in Names(bs) ==> Pending(a.named, saved, x) == Lookup(a.named, x);
    }
  }

  lemma {:induction false} ForScope(m: Arith, g: Gen, e: Expr)
    requires Open(g) && InScope(g) && e.For?
    ensures var o := GenFor(m, g, e);
            o.Good? ==> InScope(o.g) && Rebinds(g.named, o.g.named, Leaks(e), |g.allocas|)
    decreases e, 1
  {
    hide GenExpr, GenLoop, Rebinds, Leaks;
    LeaksFor(e);
    var slot := |g.allocas|;
    ScopeAfter(m, Alloca(g, e.name), e.start);
    GenExprExtends(m, Alloca(g, e.name), e.start);
    var a := GenExpr(m, Alloca(g, e.name), e.start);
    if a.Good? {
      var g1 := Emit(a.g, Store(a.value, slot));
      BeginLoopExtends(g1);
      var g2 := BeginLoop(g1);
      var g3 := g2.(named := g2.named[e.name := slot]);
      LoopScope(m, g3, e, slot);
      GenLoopExtends(m, g3, e, slot);
      var b := GenLoop(m, g3, e, slot);
      if b.Good? {
        ForScopeEnd(g.named, a.g.named, b.g.named, e.name, Leaks(e.start), Leaks(e.body) + LeaksOption(e.step)
            + Leaks(e.end), slot, |a.g.allocas|);
      }
    }
  }

  lemma LeaksIf(e: Expr)
    requires e.If?
    ensures Leaks(e) == Leaks(e.cond) + Leaks(e.thn) + Leaks(e.els)
  {
  }

  lemma LeaksFor(e: Expr)
    requires e.For?
    ensures Leaks(e) == Leaks(e.start) + (Leaks(e.body) + LeaksOption(e.step) + Leaks(e.end) - {e.name})
  {
  }

  lemma ForScopeEnd(n: map<string, nat>, a: map<string, nat>, b: map<string, nat>, x: string, start: set<string>,
                    loop: set<string>, slot: nat, base: nat)
    requires slot < base && Rebinds(n, a, start, slot + 1) && Rebinds(a[x := slot], b, loop, base)
    ensures Rebinds(n, RestoreName(b, x, Lookup(a, x)), start + (loop - {x}), slot)
  {
    var after := RestoreName(b, x, Lookup(a, x));
    forall y
      ensures if y in start + (loop - {x}) then y in after && slot <= after[y] else Lookup(after, y) == Lookup(n, y)
    {
      assert y !in start ==> Lookup(a, y) == Lookup(n, y);
      assert y !in loop ==> Lookup(b, y) == Lookup(a[x := slot], y);
    }
  }

  lemma {:induction false} LoopScope(m: Arith, g: Gen, e: Expr, slot: nat)
    requires Open(g) && InScope(g) && e.For?
    ensures var o := GenLoop(m, g, e, slot);
            var leaks := Leaks(e.body) + LeaksOption(e.step) + Leaks(e.end);
            o.Good? ==> InScope(o.g) && Rebinds(g.named, o.g.named, leaks, |g.allocas|)
    decreases e, 0
  {
    ScopeAfter(m, g, e.body);
    GenExprExtends(m, g, e.body);
    var a := GenExpr(m, g, e.body);
    if GenLoop(m, g, e, slot).Good? {
      OptionScope(m, a.g, e.step, m.unit);
      GenOptionExtends(m, a.g, e.step, m.unit);
      var b := GenOption(m, a.g, e.step, m.unit);
      ScopeAfter(m, b.g, e.end);
      GenExprExtends(m, b.g, e.end);
      var c := GenExpr(m, b.g, e.end);
      RebindsTrans(g.named, a.g.named, b.g.named, Leaks(e.body), LeaksOption(e.step), |g.allocas|, |a.g.allocas|);
      RebindsTrans(g.named, b.g.named, c.g.named, Leaks(e.body) + LeaksOption(e.step), Leaks(e.end), |g.allocas|,
          |b.g.allocas|);
      EndLoopExtends(m, c.g, g.cur, slot, b.value, c.value);
    }
  }

  lemma {:induction false} BinaryScope(m: Arith, g: Gen, e: Expr)
    requires Open(g) && InScope(g) && e.Binary? && e.op != '='
    ensures var o := GenBinary(m, g, e);
            o.Good? ==> InScope(o.g) && Rebinds(g.named, o.g.named, Leaks(e), |g.allocas|)
    decreases e, 0
  {
    hide GenExpr;
    ScopeAfter(m, g, e.lhs);
    GenExprExtends(m, g, e.lhs);
    var a := GenExpr(m, g, e.lhs);
    if GenBinary(m, g, e).Good? {
      ScopeAfter(m, a.g, e.rhs);
      GenExprExtends(m, a.g, e.rhs);
      var b := GenExpr(m, a.g, e.rhs);
      RebindsTrans(g.named, a.g.named, b.g.named, Leaks(e.lhs), Leaks(e.rhs), |g.allocas|, |a.g.allocas|);
      if !UserOperator(e.op) {
        BuiltInExtends(m, b.g, e.op, a.value, b.value);
      }
    }
  }

  lemma {:induction false} IfScope(m: Arith, g: Gen, e: Expr)
    requires Open(g) && InScope(g) && e.If?
    ensures var o := GenIf(m, g, e);
            o.Good? ==> InScope(o.g) && Rebinds(g.named, o.g.named, Leaks(e), |g.allocas|)
    decreases e, 0
  {
    hide GenExpr, Leaks, Rebinds;
    LeaksIf(e);
    ScopeAfter(m, g, e.cond);
    GenExprExtends(m, g, e.cond);
    var o1 := GenExpr(m, g, e.cond);
    if GenIf(m, g, e).Good? {
      var (g2, bit) := EmitBin(m, o1.g, FCmpONE, o1.value, Lit(Dbl(m.zero)));
      EmitBinExtends(m, o1.g, FCmpONE, o1.value, Lit(Dbl(m.zero)));
      var n := |g2.blocks|;
      var g3 := BeginIf(g2, bit);
      ScopeAfter(m, g3, e.thn);
      GenExprExtends(m, g3, e.thn);
      var a := GenExpr(m, g3, e.thn);
      assert a.g.blocks[n + 1] == g3.blocks[n + 1];
      var a1 := NextArm(a.g, n + 2, n + 1);
      ScopeAfter(m, a1, e.els);
      GenExprExtends(m, a1, e.els);
      var b := GenExpr(m, a1, e.els);
      RebindsTrans(g.named, g2.named, a.g.named, Leaks(e.cond), Leaks(e.thn), |g.allocas|, |g2.allocas|);
      RebindsTrans(g.named, a.g.named, b.g.named, Leaks(e.cond) + Leaks(e.thn), Leaks(e.els), |g.allocas|,
          |a.g.allocas|);
    }
  }

  /** Generating code for `e` rebinds exactly the names that leak, each to one of its own slots. */
  lemma {:induction false} ScopeAfter(m: Arith, g: Gen, e: Expr)
    requires Open(g) && InScope(g)
    ensures var o := GenExpr(m, g, e);
            o.Good? ==> InScope(o.g) && Rebinds(g.named, o.g.named, Leaks(e), |g.allocas|)
    decreases e, 2
  {
    match e
    case Number(_) =>
    case Variable(_) =>
    case VarIn(_, _) => VarInScope(m, g, e);
    case Unary(_, a) => ScopeAfter(m, g, a);
    case Binary(op, _, b) =>
      if op == '=' {
        ScopeAfter(m, g, b);
      } else {
        BinaryScope(m, g, e);
      }
    case If(_, _, _) => IfScope(m, g, e);
    case For(_, _, _, _, _) => ForScope(m, g, e);
    case Call(_, args) => ArgsScope(m, GetFunction(g, e.callee).0, args);
  }

  /** The scope is put back exactly when nothing leaks. */
  lemma ScopeRestoredIff(m: Arith, g: Gen, e: Expr)
    requires Open(g) && InScope(g) && GenExpr(m, g, e).Good?
    ensures GenExpr(m, g, e).g.named == g.named <==> Leaks(e) == {}
  {
    hide GenExpr, Leaks;
    ScopeAfter(m, g, e);
    var n := GenExpr(m, g, e).g.named;
    if Leaks(e) == {} {
      forall x
        ensures (x in n <==> x in g.named) && (x in n ==> n[x] == g.named[x])
      {
        assert x !in Leaks(e) && Lookup(n, x) == Lookup(g.named, x);
      }
    } else {
      var x :| x in Leaks(e);
      assert x in n && n[x] >= |g.allocas|;
      assert n != g.named;
    }
  }

  lemma {:induction false} NoRepeatsNoLeaks(e: Expr)
    requires NoRepeats(e)
    ensures Leaks(e) == {}
    decreases e, 2
  {
    match e
    case Number(_) =>
    case Variable(_) =>
    case VarIn(bs, body) =>
      NoRepeatsNoLeaks(body);
      NoLeaksBindings(bs, {}, e);
    case Unary(_, a) => NoRepeatsNoLeaks(a);
    case Binary(_, a, b) =>
      NoRepeatsNoLeaks(a);
      NoRepeatsNoLeaks(b);
    case If(c, a, b) =>
      NoRepeatsNoLeaks(c);
      NoRepeatsNoLeaks(a);
      NoRepeatsNoLeaks(b);
    case For(_, start, end, step, body) =>
      NoRepeatsNoLeaks(start);
      NoRepeatsNoLeaks(end);
      NoRepeatsNoLeaks(body);
      if step.Some? {
        NoRepeatsNoLeaks(step.value);
      }
    case Call(_, args) => NoLeaksAll(args);
  }

  lemma {:induction false} NoLeaksAll(es: seq<Expr>)
    requires forall i :: 0 <= i < |es| ==> NoRepeats(es[i])
    ensures LeaksAll(es) == {}
    decreases es, 1
  {
    if es != [] {
      NoRepeatsNoLeaks(es[0]);
      NoLeaksAll(es[1..]);
    }
  }

  lemma {:induction false} NoLeaksBindings(bs: seq<Binding>, seen: set<string>, parent: Expr)
    requires Distinct(Names(bs)) && forall i :: 0 <= i < |bs| ==> bs[i].name !in seen
    requires forall i :: 0 <= i < |bs| && bs[i].init.Some? ==> NoRepeats(bs[i].init.value)
    ensures LeaksBindings(bs, seen) == {}
    decreases bs, 1
  {
    if bs != [] {
      if bs[0].init.Some? {
        NoRepeatsNoLeaks(bs[0].init.value);
      }
      assert forall i :: 0 < i < |bs| ==> Names(bs)[i] != Names(bs)[0];
      NoLeaksBindings(bs[1..], seen + {bs[0].name}, parent);
    }
  }

  /** With no repeated names in any `var` list, the scope afterwards is the scope before. */
  lemma ScopeRestored(m: Arith, g: Gen, e: Expr)
    requires Open(g) && InScope(g) && NoRepeats(e) && GenExpr(m, g, e).Good?
    ensures GenExpr(m, g, e).g.named == g.named
  {
    NoRepeatsNoLeaks(e);
    ScopeRestoredIff(m, g, e);
  }
}
