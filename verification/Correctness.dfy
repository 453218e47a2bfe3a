/**
 The simulation for every kind of expression, for calls and for whole programs.
 */
module Correctness {
  import opened Prelude
  import opened Ast
  import opened Machine
  import opened Codegen
  import opened CodegenFacts
  import opened Scope
  import opened Semantics
  import opened Simulation

  ghost predicate RunsTo(c: Ctx, k: nat, g: Gen, fr: Frame, t: Trace, o: Out<Operand>, r: Outcome<Double>, n: nat,
                         fr': Frame) {
    o.Good? && Runs(c, k, g, fr, t, o.g, r, n, fr') && (r.Done? ==> Value(fr', o.value) == Some(Dbl(r.value)))
  }

  ghost predicate Begins(c: Ctx, g: Gen, fr: Frame, vars: Vars) {
    Ready(c, g, fr, vars) && Linked(c.m, c.p, c.mod) && Plain(c.p)
  }

  /** After a part is done the next one may begin where it ended. */
  lemma BeginsAfter(c: Ctx, k: nat, g: Gen, fr: Frame, vars: Vars, t: Trace, e: Expr, r: Outcome<Double>, n: nat,
                    fr': Frame)
    requires Begins(c, g, fr, vars) && NoRepeats(e) && r.Done?
    requires RunsTo(c, k, g, fr, t, GenExpr(c.m, g, e), r, n, fr')
    ensures var g' := GenExpr(c.m, g, e).g;
            && g'.named == g.named && Begins(c, g', fr', r.vars)
            && Extends(g, g') && Below(GenExpr(c.m, g, e).value, g'.nregs)
  {
    hide Linked, Plain, GenExpr;
    GenExprExtends(c.m, g, e);
    ScopeAfter(c.m, g, e);
    ScopeRestored(c.m, g, e);
  }

  lemma StandsStill<T>(c: Ctx, k: nat, g: Gen, fr: Frame, vars: Vars, t: Trace, v: T)
    requires Ready(c, g, fr, vars)
    ensures Runs(c, k, g, fr, t, g, Done(v, vars, t), 0, fr)
  {
  }

  /** A part that timed out, seen as the beginning of what extends it. */
  lemma TimeoutExtends<S, T>(c: Ctx, k: nat, g: Gen, fr: Frame, t: Trace, h1: Gen, r1: Outcome<S>, n: nat, fr': Frame,
                             h: Gen, r: Outcome<T>)
    requires !r1.Done? && Runs(c, k, g, fr, t, h1, r1, n, fr') && Extends(g, h1) && Extends(h1, h)
    requires r == if r1.Timeout? then Timeout(r1.trace) else Outcome<T>.Stuck
    ensures Runs(c, k, g, fr, t, h, r, n, fr')
  {
    hide Runs, Extends, Covers;
    ExtendsSelf(g);
    ExtendsCovers(g, g, h1, h);
    TimeoutWiden(c, k, g, fr, t, h1, r1, n, fr', g, h, r);
  }

  lemma {:induction false} SimArgs(c: Ctx, k: nat, g: Gen, args: seq<Expr>, fr: Frame, vars: Vars, t: Trace)
      returns (n: nat, fr': Frame)
    requires Begins(c, g, fr, vars) && forall i :: 0 <= i < |args| ==> NoRepeats(args[i])
    requires GenArgs(c.m, g, args).Good? && Within(GenArgs(c.m, g, args).g, c.code)
    ensures var o, r := GenArgs(c.m, g, args), EvalArgs(k, c.m, c.p, args, vars, t);
            && Runs(c, k, g, fr, t, o.g, r, n, fr')
            && (r.Done? ==> o.g.named == g.named && Open(o.g) && Values(fr', o.value) == Some(r.value))
    decreases k, 1, args, 0
  {
    hide Linked, Plain, GenExpr, Eval, Within, Injective, Agree, InScope, Steps, NoRepeats, Extends, At, Open;
    if args == [] {
      n, fr' := 0, fr;
      StandsStill<seq<Double>>(c, k, g, fr, vars, t, []);
    } else {
      var a, b := GenExpr(c.m, g, args[0]), GenArgs(c.m, GenExpr(c.m, g, args[0]).g, args[1..]);
      GenExprExtends(c.m, g, args[0]);
      GenArgsExtends(c.m, a.g, args[1..]);
      WithinBack(a.g, b.g, c.code);
      n, fr' := SimExpr(c, k, g, args[0], fr, vars, t);
      var r1 := Eval(k, c.m, c.p, args[0], vars, t);
      if r1.Done? {
        BeginsAfter(c, k, g, fr, vars, t, args[0], r1, n, fr');
        var n2, fr2 := SimArgs(c, k, a.g, args[1..], fr', r1.vars, r1.trace);
        var r2 := EvalArgs(k, c.m, c.p, args[1..], r1.vars, r1.trace);
        ComposeExtends(c, k, g, fr, t, a.g, r1, n, fr', b.g, r2, n2, fr2);
        if r2.Done? {
          KeepsValue(a.g, fr', fr2, a.value);
          assert ([a.value] + b.value)[1..] == b.value;
        }
        n, fr' := n + n2, fr2;
      } else {
        TimeoutExtends(c, k, g, fr, t, a.g, r1, n, fr', b.g, EvalArgs(k, c.m, c.p, args, vars, t));
      }
    }
  }

  lemma {:induction false} SimOption(c: Ctx, k: nat, g: Gen, e: Option<Expr>, d: Double, fr: Frame, vars: Vars,
                                     t: Trace) returns (n: nat, fr': Frame)
    requires Begins(c, g, fr, vars) && (e.Some? ==> NoRepeats(e.value))
    requires GenOption(c.m, g, e, d).Good? && Within(GenOption(c.m, g, e, d).g, c.code)
    ensures var o, r := GenOption(c.m, g, e, d), EvalOption(k, c.m, c.p, e, d, vars, t);
            && RunsTo(c, k, g, fr, t, o, r, n, fr')
            && (r.Done? ==> o.g.named == g.named && Begins(c, o.g, fr', r.vars) && Extends(g, o.g)
                            && Below(o.value, o.g.nregs))
    decreases k, 1, e, 5
  {
    hide Linked, Plain, GenExpr, Eval, Within;
    if e.Some? {
      n, fr' := SimExpr(c, k, g, e.value, fr, vars, t);
      var r := Eval(k, c.m, c.p, e.value, vars, t);
      if r.Done? {
        BeginsAfter(c, k, g, fr, vars, t, e.value, r, n, fr');
      }
    } else {
      n, fr' := 0, fr;
    }
  }

  // ----- `var` -----

  /** Storing a binding's value in its fresh slot. */
  lemma SimBind(c: Ctx, g: Gen, x: string, v: Operand, fr: Frame, vars: Vars, t: Trace, d: Double) returns (fr': Frame)
    requires Begins(c, g, fr, vars) && Within(Bind(g, x, v), c.code) && Value(fr, v) == Some(Dbl(d))
    ensures var h := Bind(g, x, v);
            && Steps(c.m, c.mod, 1, St(c, fr, t)) == St(c, fr', t) && Begins(c, h, fr', vars[x := d])
            && fr'.slots == fr.slots[|g.allocas| := d] && fr'.regs == fr.regs && fr'.args == fr.args && fr'.fn == fr.fn
            && Stays(c, g, h, fr, t, 1)
  {
    hide Linked, Plain;
    StaysOnce(c, g, Bind(g, x, v), fr, t);
    hide Stays;
    var slot := |g.allocas|;
    var g1 := Alloca(g, x);
    var h := Bind(g, x, v);
    SimEmit(c, g1, Store(v, slot), fr, t);
    fr' := Exec(c.m, |c.code.allocas|, fr, Store(v, slot)).value;
    assert h.named.Keys == vars[x := d].Keys;
    assert Injective(h.named) by {
      forall y, z | y in h.named && z in h.named && h.named[y] == h.named[z]
        ensures y == z
      {
        assert y != x ==> g.named[y] < slot;
        assert z != x ==> g.named[z] < slot;
      }
    }
  }

  lemma Shadowed(named: map<string, nat>, x: string, slot: nat)
    requires Injective(named) && x in named && slot !in named.Values
    ensures named[x] !in named[x := slot].Values
  {
    var after := named[x := slot];
    assert named[x] in named.Values;
    forall z | z in after
      ensures after[z] != named[x]
    {
    }
  }

  /** `s` is `a` with `x` bound to a slot that `g` did not have, `fr2` is `fr1` with that slot written. */
  ghost predicate Shadows(a: Gen, s: Gen, g: Gen, x: string, slot: nat, fr1: Frame, fr2: Frame) {
    && a.named == g.named && InScope(a) && Injective(a.named) && |g.allocas| <= |a.allocas| && g.nregs <= a.nregs
    && a.nregs <= s.nregs && |a.allocas| <= |s.allocas| && |g.allocas| <= slot && slot !in a.named.Values
    && s.named == a.named[x := slot]
    && fr2.slots.Keys >= fr1.slots.Keys && (forall l :: l in fr1.slots && l != slot ==> fr2.slots[l] == fr1.slots[l])
    && fr2.regs == fr1.regs && fr2.args == fr1.args && fr2.fn == fr1.fn
  }

  /** Leaving the scope of `x`, bound to `slot`: the slot it shadowed was not touched meanwhile. */
  lemma LeaveScope(a: Gen, s: Gen, g: Gen, x: string, slot: nat, fr1: Frame, fr2: Frame, fr3: Frame, vars1: Vars,
                   vars2: Vars)
    requires Shadows(a, s, g, x, slot, fr1, fr2) && Agree(a.named, fr1.slots, vars1)
    requires Kept(s, fr2, fr3) && Agree(s.named, fr3.slots, vars2)
    ensures Agree(g.named, fr3.slots, Unshadow(vars2, x, vars1)) && Kept(g, fr1, fr3)
  {
    KeptOutside(a, s, g, x, slot, fr1, fr2, fr3);
    hide Kept, InScope;
    var vars := Unshadow(vars2, x, vars1);
    assert g.named.Keys == vars.Keys;
    forall y | y in g.named
      ensures g.named[y] in fr3.slots && fr3.slots[g.named[y]] == vars[y]
    {
      if y == x {
        ShadowedKept(a, s, g, x, slot, fr1, fr2, fr3);
      } else {
        assert s.named[y] == g.named[y];
      }
    }
  }

  lemma ShadowedKept(a: Gen, s: Gen, g: Gen, x: string, slot: nat, fr1: Frame, fr2: Frame, fr3: Frame)
    requires Shadows(a, s, g, x, slot, fr1, fr2) && Kept(s, fr2, fr3) && x in g.named && g.named[x] in fr1.slots
    ensures g.named[x] in fr3.slots && fr3.slots[g.named[x]] == fr1.slots[g.named[x]]
  {
    Shadowed(a.named, x, slot);
    assert a.named[x] in a.named.Values;
  }

  lemma KeptOutside(a: Gen, s: Gen, g: Gen, x: string, slot: nat, fr1: Frame, fr2: Frame, fr3: Frame)
    requires Shadows(a, s, g, x, slot, fr1, fr2) && Kept(s, fr2, fr3)
    ensures Kept(g, fr1, fr3)
  {
    hide InScope, Injective;
    assert forall l :: l in s.named.Values ==> l == slot || l in g.named.Values;
  }

  function Unshadowed<T>(r: Outcome<T>, x: string, outer: Vars): Outcome<T> {
    match r
    case Done(v, vars, t) => Done(v, Unshadow(vars, x, outer), t)
    case Timeout(t) => Timeout(t)
    case Stuck => Stuck
  }

  /** A binding's initial value, the store to its slot, and what the binding scopes over. */
  lemma ComposeBinding<T>(c: Ctx, k: nat, g: Gen, fr: Frame, t: Trace, a: Gen, r1: Outcome<Double>, n1: nat, fr1: Frame,
                          x: string, slot: nat, s: Gen, n2: nat, fr2: Frame, h: Gen, r: Outcome<T>, n3: nat, fr3: Frame)
    requires r1.Done? && Runs(c, k, g, fr, t, a, r1, n1, fr1)
    requires Steps(c.m, c.mod, n2, St(c, fr1, r1.trace)) == St(c, fr2, r1.trace) && Shadows(a, s, g, x, slot, fr1, fr2)
    requires Runs(c, k, s, fr2, r1.trace, h, r, n3, fr3)
    requires Extends(g, a) && Extends(a, s) && Extends(s, h) && Stays(c, a, s, fr1, r1.trace, n2)
    ensures Runs(c, k, g, fr, t, h, Unshadowed(r, x, r1.vars), n1 + (n2 + n3), fr3)
  {
    assert a.named == g.named && g.nregs <= a.nregs <= s.nregs && |g.allocas| <= |a.allocas| <= |s.allocas|;
    hide Stays, Steps, Covers, Shadows, Agree;
    StepsAdd(c.m, c.mod, n2, n3, St(c, fr1, r1.trace));
    StepsAdd(c.m, c.mod, n1, n2 + n3, St(c, fr, t));
    BindingStays(c, g, a, s, h, fr, t, n1, fr1, r1.trace, n2, fr2,
        if r.Done? then n3 else if r.Timeout? then n3 + 1 else 0);
    if r.Done? {
      LeaveScope(a, s, g, x, slot, fr1, fr2, fr3, r1.vars, r.vars);
      KeptTrans(g, g, fr, fr1, fr3);
    }
  }

  lemma BindingStays(c: Ctx, g: Gen, a: Gen, s: Gen, h: Gen, fr: Frame, t: Trace, n1: nat, fr1: Frame, t1: Trace,
                     n2: nat, fr2: Frame, n3: nat)
    requires Extends(g, a) && Extends(a, s) && Extends(s, h)
    requires Stays(c, g, a, fr, t, n1) && Steps(c.m, c.mod, n1, St(c, fr, t)) == St(c, fr1, t1)
    requires Stays(c, a, s, fr1, t1, n2) && Steps(c.m, c.mod, n2, St(c, fr1, t1)) == St(c, fr2, t1)
    requires n3 > 0 ==> Stays(c, s, h, fr2, t1, n3)
    ensures n3 > 0 ==> Stays(c, g, h, fr, t, n1 + (n2 + n3))
    ensures Stays(c, g, h, fr, t, n1 + n2)
  {
    hide Stays, Steps, Covers;
    ExtendsTrans(a, s, h);
    ExtendsTrans(g, a, s);
    ExtendsSelf(g);
    ExtendsSelf(h);
    ExtendsCovers(g, g, a, h);
    ExtendsCovers(g, a, s, h);
    ExtendsCovers(g, s, h, h);
    StaysWiden(c, g, a, g, h, fr, t, n1);
    StaysWiden(c, a, s, g, h, fr1, t1, n2);
    StaysAdd(c, g, h, fr, t, n1, fr1, t1, n2);
    if n3 > 0 {
      StaysWiden(c, s, h, g, h, fr2, t1, n3);
      StaysAdd(c, g, h, fr1, t1, n2, fr2, t1, n3);
      StaysAdd(c, g, h, fr, t, n1, fr1, t1, n2 + n3);
    }
  }

  lemma BindShadows(a: Gen, g: Gen, x: string, v: Operand, fr1: Frame, fr2: Frame, d: Double)
    requires a.named == g.named && InScope(a) && Injective(a.named) && Extends(g, a)
    requires fr2.slots == fr1.slots[|a.allocas| := d] && fr2.regs == fr1.regs && fr2.args == fr1.args
             && fr2.fn == fr1.fn
    ensures Shadows(a, Bind(a, x, v), g, x, |a.allocas|, fr1, fr2)
  {
    hide Injective;
  }

  predicate NoRepeatsAt(e: Expr, i: nat)
    requires e.VarIn?
  {
    i < |e.bindings| && (e.bindings[i].init.Some? ==> NoRepeats(e.bindings[i].init.value))
  }

  lemma BindingNoRepeats(e: Expr, i: nat)
    requires e.VarIn? && NoRepeats(e) && i < |e.bindings|
    ensures NoRepeatsAt(e, i)
  {
  }

  lemma GenBindingsStep(m: Arith, g: Gen, e: Expr, i: nat, saved: map<string, Option<nat>>)
    requires e.VarIn? && i < |e.bindings| && GenBindings(m, g, e.bindings[i..], saved).Good?
    ensures var b := e.bindings[i];
            var a := GenOption(m, g, b.init, m.zero);
            && a.Good?
            && GenBindings(m, g, e.bindings[i..], saved)
               == GenBindings(m, Bind(a.g, b.name, a.value), e.bindings[i + 1..],
                   saved[b.name := Lookup(a.g.named, b.name)])
  {
    assert e.bindings[i..][0] == e.bindings[i] && e.bindings[i..][1..] == e.bindings[i + 1..];
  }

  lemma EvalVarInStep(k: nat, m: Arith, p: Program, e: Expr, i: nat, vars: Vars, t: Trace)
    requires e.VarIn? && i < |e.bindings|
    ensures var b := e.bindings[i];
            var r1 := EvalOption(k, m, p, b.init, m.zero, vars, t);
            EvalVarIn(k, m, p, e, i, vars, t)
            == if r1.Done? then
                 Unshadowed(EvalVarIn(k, m, p, e, i + 1, r1.vars[b.name := r1.value], r1.trace), b.name, r1.vars)
               else r1
  {
  }

  /** The bindings from number `i` on and the body, with the scope as it was before binding `i`. */
  lemma {:induction false} SimVarIn(c: Ctx, k: nat, g: Gen, e: Expr, i: nat, saved: map<string, Option<nat>>,
                                    fr: Frame, vars: Vars, t: Trace)
    returns (n: nat, fr': Frame)
    requires e.VarIn? && i <= |e.bindings| && NoRepeats(e) && Begins(c, g, fr, vars)
    requires var a := GenBindings(c.m, g, e.bindings[i..], saved);
             a.Good? && GenExpr(c.m, a.g, e.body).Good? && Within(GenExpr(c.m, a.g, e.body).g, c.code)
    ensures var o := GenExpr(c.m, GenBindings(c.m, g, e.bindings[i..], saved).g, e.body);
            RunsTo(c, k, g, fr, t, o, EvalVarIn(k, c.m, c.p, e, i, vars, t), n, fr') == true
    decreases k, 1, e, 1, |e.bindings| - i, 1
  {
    hide Linked, Plain, GenExpr, Eval, Within, GenOption, EvalOption, Injective, Agree, Extends, Bind, Kept, At,
        InScope;
    if i == |e.bindings| {
      assert e.bindings[i..] == [];
      n, fr' := SimExpr(c, k, g, e.body, fr, vars, t);
    } else {
      n, fr' := SimBinding(c, k, g, e, i, saved, fr, vars, t);
    }
  }

  lemma {:induction false} SimBinding(c: Ctx, k: nat, g: Gen, e: Expr, i: nat, saved: map<string, Option<nat>>,
                                      fr: Frame, vars: Vars, t: Trace)
    returns (n: nat, fr': Frame)
    requires e.VarIn? && i < |e.bindings| && NoRepeats(e) && Begins(c, g, fr, vars)
    requires var a := GenBindings(c.m, g, e.bindings[i..], saved);
             a.Good? && GenExpr(c.m, a.g, e.body).Good? && Within(GenExpr(c.m, a.g, e.body).g, c.code)
    ensures var o := GenExpr(c.m, GenBindings(c.m, g, e.bindings[i..], saved).g, e.body);
            RunsTo(c, k, g, fr, t, o, EvalVarIn(k, c.m, c.p, e, i, vars, t), n, fr') == true
    decreases k, 1, e, 1, |e.bindings| - i, 0
  {
    hide Linked, Plain, GenExpr, Eval, Within, GenOption, EvalOption, Injective, Agree, Bind, Kept, At, InScope,
        GenBindings, EvalVarIn, Runs, Stays, Steps, Shadows, Extends, NoRepeats;
    assert NoRepeatsAt(e, i) by { BindingNoRepeats(e, i); }
    GenBindingsStep(c.m, g, e, i, saved);
    EvalVarInStep(k, c.m, c.p, e, i, vars, t);
    var b := e.bindings[i];
    var a := GenOption(c.m, g, b.init, c.m.zero);
    GenOptionExtends(c.m, g, b.init, c.m.zero);
    var g1 := Bind(a.g, b.name, a.value);
    BindExtends(a.g, b.name, a.value);
    var saved1 := saved[b.name := Lookup(a.g.named, b.name)];
    WithinBindings(c, g1, e, i + 1, saved1);
    WithinBack(a.g, g1, c.code);
    n, fr' := SimOption(c, k, g, b.init, c.m.zero, fr, vars, t);
    var r1 := EvalOption(k, c.m, c.p, b.init, c.m.zero, vars, t);
    if r1.Done? {
      var fr2 := SimBind(c, a.g, b.name, a.value, fr', r1.vars, r1.trace, r1.value);
      var n3, fr3 := SimVarIn(c, k, g1, e, i + 1, saved1, fr2, r1.vars[b.name := r1.value], r1.trace);
      var r := EvalVarIn(k, c.m, c.p, e, i + 1, r1.vars[b.name := r1.value], r1.trace);
      var h := GenExpr(c.m, GenBindings(c.m, g1, e.bindings[i + 1..], saved1).g, e.body).g;
      BindShadows(a.g, g, b.name, a.value, fr', fr2, r1.value);
      ComposeBinding(c, k, g, fr, t, a.g, r1, n, fr', b.name, |a.g.allocas|, g1, 1, fr2, h, r, n3, fr3);
      n, fr' := n + (1 + n3), fr3;
    } else {
      var h := GenExpr(c.m, GenBindings(c.m, g1, e.bindings[i + 1..], saved1).g, e.body).g;
      ExtendsTrans(a.g, g1, h);
      TimeoutExtends(c, k, g, fr, t, a.g, r1, n, fr', h, EvalVarIn(k, c.m, c.p, e, i, vars, t));
    }
  }

  /** The state after a prefix of the bindings is within the finished code too. */
  lemma WithinBindings(c: Ctx, g: Gen, e: Expr, i: nat, saved: map<string, Option<nat>>)
    requires e.VarIn? && i <= |e.bindings| && Open(g)
    requires var a := GenBindings(c.m, g, e.bindings[i..], saved);
             a.Good? && GenExpr(c.m, a.g, e.body).Good? && Within(GenExpr(c.m, a.g, e.body).g, c.code)
    ensures Within(g, c.code) && Extends(g, GenExpr(c.m, GenBindings(c.m, g, e.bindings[i..], saved).g, e.body).g)
  {
    GenBindingsExtends(c.m, g, e.bindings[i..], saved);
    var a := GenBindings(c.m, g, e.bindings[i..], saved);
    GenExprExtends(c.m, a.g, e.body);
    var b := GenExpr(c.m, a.g, e.body);
    WithinBack(a.g, b.g, c.code);
    WithinBack(g, a.g, c.code);
    ExtendsTrans(g, a.g, b.g);
  }

  // ----- Calls -----

  lemma GenParamsExtends(g: Gen, params: seq<string>, i: nat)
    requires i <= |params| && Open(g)
    ensures Extends(g, GenParams(g, params, i)) && Open(GenParams(g, params, i))
    decreases |params| - i
  {
    if i < |params| {
      BindExtends(g, params[i], Arg(i));
      GenParamsExtends(Bind(g, params[i], Arg(i)), params, i + 1);
      ExtendsTrans(g, Bind(g, params[i], Arg(i)), GenParams(g, params, i));
    }
  }

  lemma NoSteps(m: Arith, mod: Module, s: State)
    ensures Steps(m, mod, 0, s) == s
  {
  }

  /** Storing the arguments from number `i` on. */
  lemma {:induction false} SimParams(c: Ctx, g: Gen, params: seq<string>, i: nat, fr: Frame, t: Trace)
      returns (n: nat, fr': Frame)
    requires i <= |params| == |fr.args| && Begins(c, g, fr, BindParams(params[..i], fr.args[..i]))
    requires Within(GenParams(g, params, i), c.code)
    ensures Steps(c.m, c.mod, n, St(c, fr, t)) == St(c, fr', t)
    ensures Begins(c, GenParams(g, params, i), fr', BindParams(params, fr.args)) && Alive(c, fr, t, n)
    decreases |params| - i
  {
    hide Linked, Plain, Injective, InScope, Agree, Within, Extends, Bind, Stays, Steps;
    if i == |params| {
      n, fr' := 0, fr;
      assert Steps(c.m, c.mod, 0, St(c, fr, t)) == St(c, fr, t) by { NoSteps(c.m, c.mod, St(c, fr, t)); }
      assert params[..i] == params && fr.args[..i] == fr.args;
    } else {
      var g1 := Bind(g, params[i], Arg(i));
      BindExtends(g, params[i], Arg(i));
      GenParamsExtends(g1, params, i + 1);
      WithinBack(g1, GenParams(g1, params, i + 1), c.code);
      var fr1 := SimBind(c, g, params[i], Arg(i), fr, BindParams(params[..i], fr.args[..i]), t, fr.args[i]);
      assert params[..i + 1][..i] == params[..i] && fr.args[..i + 1][..i] == fr.args[..i];
      n, fr' := SimParams(c, g1, params, i + 1, fr1, t);
      StepsAdd(c.m, c.mod, 1, n, St(c, fr, t));
      AliveOnce(c, fr, t);
      AliveAdd(c, fr, t, 1, fr1, t, n);
      n := 1 + n;
    }
  }

  /** The return at the end of a body. */
  lemma SimRet(c: Ctx, g: Gen, v: Operand, fr: Frame, t: Trace, d: Double)
    requires Loaded(c, fr) && At(fr, g) && c.code == CodeOf(Seal(g, Ret(v))) && Value(fr, v) == Some(Dbl(d))
    ensures Steps(c.m, c.mod, 1, St(c, fr, t)) == Return(c.mod, c.rest, d, t)
  {
    StepOnce(c.m, c.mod, St(c, fr, t));
    assert ([fr] + c.rest)[1..] == c.rest;
  }

  /** A function's first block, empty scope and no slots written. */
  lemma StartBegins(c: Ctx, mod: Module, protos: map<string, Prototype>, args: seq<Double>)
    requires Linked(c.m, c.p, c.mod) && Plain(c.p) && c.fn in c.mod && c.mod[c.fn].code == Some(c.code)
    ensures Begins(c, Start(mod, protos), Enter(c.fn, args), BindParams([], []))
  {
    hide Linked, Plain;
  }

  /** After `n >= k` steps the activation that began with `fr` has not returned, and the events so far are `t'`. */
  ghost predicate TimesOut(c: Ctx, k: nat, fr: Frame, t: Trace, n: nat, t': Trace) {
    var s := Steps(c.m, c.mod, n, St(c, fr, t));
    k <= n && s.Run? && s.trace == t' && Alive(c, fr, t, n + 1)
  }

  /** An activation of `f` on top of `rest` hands its result to `rest`. */
  lemma {:induction false} SimFunction(c: Ctx, k: nat, mod: Module, protos: map<string, Prototype>, args: seq<Double>,
                                       t: Trace) returns (n: nat)
    requires Linked(c.m, c.p, c.mod) && Plain(c.p) && c.fn in c.p && c.fn in c.mod
    requires CompiledUnder(c.m, mod, protos, c.p[c.fn], c.mod[c.fn]) && c.mod[c.fn].code == Some(c.code)
    requires NoRepeats(c.p[c.fn].body) && |args| == |c.p[c.fn].params|
    ensures var r := Eval(k, c.m, c.p, c.p[c.fn].body, BindParams(c.p[c.fn].params, args), t);
            && (r.Done? ==>
                  Steps(c.m, c.mod, n, St(c, Enter(c.fn, args), t)) == Return(c.mod, c.rest, r.value, r.trace))
            && (r.Done? ==> Alive(c, Enter(c.fn, args), t, n) == true)
            && (r.Timeout? ==> TimesOut(c, k, Enter(c.fn, args), t, n, r.trace) == true)
    decreases k, 2
  {
    hide Linked, Plain, GenExpr, Eval, Extends, Injective, InScope, Agree, Alive, Stays, Steps, Return;
    var src := c.p[c.fn];
    var g0 := Start(mod, protos);
    var g1 := GenParams(g0, src.params, 0);
    var o := GenExpr(c.m, g1, src.body);
    StartBegins(c, mod, protos, args);
    GenParamsExtends(g0, src.params, 0);
    GenExprExtends(c.m, g1, src.body);
    assert Closes(o.g, Ret(o.value), Seal(o.g, Ret(o.value)));
    FinishedWithin(o.g, o.value, c.code);
    WithinBack(g1, o.g, c.code);
    assert src.params[..0] == [] && args[..0] == [];
    var n1, fr1 := SimParams(c, g0, src.params, 0, Enter(c.fn, args), t);
    var n2, fr2 := SimExpr(c, k, g1, src.body, fr1, BindParams(src.params, args), t);
    var r := Eval(k, c.m, c.p, src.body, BindParams(src.params, args), t);
    StepsAdd(c.m, c.mod, n1, n2, St(c, Enter(c.fn, args), t));
    n := n1 + n2;
    if r.Done? {
      SimRet(c, o.g, o.value, fr2, r.trace, r.value);
      StepsAdd(c.m, c.mod, n, 1, St(c, Enter(c.fn, args), t));
      StaysAlive(c, g1, o.g, fr1, t, n2);
      AliveAdd(c, Enter(c.fn, args), t, n1, fr1, t, n2);
      AliveOnce(c, fr2, r.trace);
      AliveAdd(c, Enter(c.fn, args), t, n, fr2, r.trace, 1);
      n := n + 1;
    } else if r.Timeout? {
      StaysAlive(c, g1, o.g, fr1, t, n2 + 1);
      AliveAdd(c, Enter(c.fn, args), t, n1, fr1, t, n2 + 1);
    }
  }

  lemma FinishedWithin(g: Gen, v: Operand, code: Code)
    requires Open(g) && code == CodeOf(Seal(g, Ret(v)))
    ensures Within(g, code)
  {
  }

  lemma CallIsNext(c: Ctx, g: Gen, f: string, ops: seq<Operand>, fr: Frame, t: Trace)
    requires Loaded(c, fr) && At(fr, g) && Within(EmitCall(g, f, ops).0, c.code)
    ensures var i := Instr.Call(g.nregs, f, ops);
            && Fetch(c.mod, fr) == Some(i)
            && Steps(c.m, c.mod, 1, St(c, fr, t)) == CallStep(c.m, c.mod, fr, c.rest, t, i)
  {
    StepOnce(c.m, c.mod, St(c, fr, t));
    var h := EmitCall(g, f, ops).0;
    assert c.code.blocks[g.cur].body[fr.pc] == h.blocks[g.cur].body[fr.pc] == Instr.Call(g.nregs, f, ops);
    assert ([fr] + c.rest)[1..] == c.rest;
  }

  /** The caller after its call has returned. */
  lemma Resumed(c: Ctx, g: Gen, f: string, ops: seq<Operand>, fr: Frame, vars: Vars, v: Double)
    requires Ready(c, g, fr, vars)
    ensures var (h, r) := EmitCall(g, f, ops);
            var fr' := SetReg(fr, g.nregs, Dbl(v));
            At(fr', h) && Kept(g, fr, fr') && Agree(g.named, fr'.slots, vars) && Value(fr', r) == Some(Dbl(v))
  {
  }

  lemma {:induction false} SimApply(c: Ctx, k: nat, g: Gen, f: string, ops: seq<Operand>, fr: Frame, vars: Vars,
                                    t: Trace, vs: seq<Double>) returns (n: nat, fr': Frame)
    requires Begins(c, g, fr, vars) && Within(EmitCall(g, f, ops).0, c.code) && Values(fr, ops) == Some(vs)
    ensures var (h, r) := EmitCall(g, f, ops);
            RunsTo(c, k, g, fr, t, Good(h, r), Apply(k, c.m, c.p, f, vs, vars, t), n, fr')
    decreases k, 0, 0
  {
    hide Injective, InScope, Within, Eval, Kept, Agree, Plain, Compiled, Stays;
    CallIsNext(c, g, f, ops, fr, t);
    StaysOnce(c, g, EmitCall(g, f, ops).0, fr, t);
    n, fr' := 1, fr;
    if f !in c.p {
      fr' := SetReg(fr, g.nregs, Dbl(c.m.ext(f, vs, t)));
      Resumed(c, g, f, ops, fr, vars, c.m.ext(f, vs, t));
    } else if k == 0 {
      n := 0;
      NoSteps(c.m, c.mod, St(c, fr, t));
    } else if |vs| == |c.p[f].params| {
      n, fr' := SimApplyDefined(c, k, g, f, ops, fr, vars, t, vs);
    }
  }

  lemma {:induction false} SimApplyDefined(c: Ctx, k: nat, g: Gen, f: string, ops: seq<Operand>, fr: Frame,
                                           vars: Vars, t: Trace, vs: seq<Double>) returns (n: nat, fr': Frame)
    requires Begins(c, g, fr, vars) && Values(fr, ops) == Some(vs)
    requires f in c.p && |vs| == |c.p[f].params| && k > 0
    requires var i := Instr.Call(g.nregs, f, ops);
             Fetch(c.mod, fr) == Some(i) && Steps(c.m, c.mod, 1, St(c, fr, t)) == CallStep(c.m, c.mod, fr, c.rest, t, i)
    requires Inside(g, EmitCall(g, f, ops).0, fr)
    ensures var (h, r) := EmitCall(g, f, ops);
            RunsTo(c, k, g, fr, t, Good(h, r), Apply(k, c.m, c.p, f, vs, vars, t), n, fr')
    decreases k - 1, 3
  {
    hide Injective, InScope, Eval, Kept, Agree, At, GenBody, EmitCall, Stays, Alive, Inside;
    assert Compiled(c.m, c.p[f], c.mod[f]);
    var mod: Module, protos: map<string, Prototype> :| CompiledUnder(c.m, mod, protos, c.p[f], c.mod[f]);
    var c' := Ctx(c.m, c.p, c.mod, f, c.mod[f].code.value, [fr] + c.rest);
    assert Steps(c.m, c.mod, 1, St(c, fr, t)) == St(c', Enter(f, vs), t) by {
      assert [Enter(f, vs)] + ([fr] + c.rest) == [Enter(f, vs), fr] + c.rest;
    }
    n := SimFunction(c', k - 1, mod, protos, vs, t);
    StepsAdd(c.m, c.mod, 1, n, St(c, fr, t));
    n := 1 + n;
    var r := Eval(k - 1, c.m, c.p, c.p[f].body, BindParams(c.p[f].params, vs), t);
    fr' := fr;
    if !r.Stuck? {
      CallStays(c, c', g, EmitCall(g, f, ops).0, fr, t, Enter(f, vs), if r.Done? then n - 1 else n);
    }
    if r.Done? {
      fr' := SetReg(fr, g.nregs, Dbl(r.value));
      assert c'.rest[0] == fr && c'.rest[1..] == c.rest;
      hide Eval, Linked, Plain, CompiledUnder, Steps;
      assert Steps(c.m, c.mod, n, St(c, fr, t)) == St(c, fr', r.trace);
      ReturnRuns(c, k, g, f, ops, fr, vars, t, n, r.value, r.trace);
    }
  }

  lemma ReturnRuns(c: Ctx, k: nat, g: Gen, f: string, ops: seq<Operand>, fr: Frame, vars: Vars, t: Trace, n: nat,
                   v: Double, t': Trace)
    requires Ready(c, g, fr, vars) && Stays(c, g, EmitCall(g, f, ops).0, fr, t, n)
    requires Steps(c.m, c.mod, n, St(c, fr, t)) == St(c, SetReg(fr, g.nregs, Dbl(v)), t')
    ensures var (h, r) := EmitCall(g, f, ops);
            RunsTo(c, k, g, fr, t, Good(h, r), Done(v, vars, t'), n, SetReg(fr, g.nregs, Dbl(v))) == true
  {
    hide Injective, InScope, Stays, Steps, Kept, Agree, At;
    Resumed(c, g, f, ops, fr, vars, v);
  }

  // ----- Each kind of expression -----

  lemma {:induction false} ValuesOne(fr: Frame, a: Operand, x: Double)
    requires Value(fr, a) == Some(Dbl(x))
    ensures Values(fr, [a]) == Some([x])
  {
    assert [a][0] == a && [a][1..] == [];
    assert Values(fr, [a][1..]) == Some([]);
    assert [x] + [] == [x];
  }

  lemma ValuesTwo(fr: Frame, a: Operand, b: Operand, x: Double, y: Double)
    requires Value(fr, a) == Some(Dbl(x)) && Value(fr, b) == Some(Dbl(y))
    ensures Values(fr, [a, b]) == Some([x, y])
  {
    ValuesOne(fr, b, y);
    assert [a, b][0] == a && [a, b][1..] == [b];
    assert [x] + [y] == [x, y];
  }

  lemma SimVariable(c: Ctx, k: nat, g: Gen, x: string, fr: Frame, vars: Vars, t: Trace) returns (n: nat, fr': Frame)
    requires Ready(c, g, fr, vars) && x in g.named && Within(GenVariable(g, x).g, c.code)
    ensures RunsTo(c, k, g, fr, t, GenVariable(g, x), if x in vars then Done(vars[x], vars, t) else Stuck, n, fr')
  {
    var i := Load(g.nregs, g.named[x]);
    assert Within(Emit(g, i), c.code);
    SimEmit(c, g, i, fr, t);
    StaysOnce(c, g, EmitLoad(g, g.named[x]).0, fr, t);
    n, fr' := 1, Exec(c.m, |c.code.allocas|, fr, i).value;
  }

  /** Declaring a function does not move the insert point. */
  lemma Redeclared(c: Ctx, k: nat, g: Gen, fr: Frame, vars: Vars, name: string)
    requires Begins(c, g, fr, vars)
    ensures var g1 := GetFunction(g, name).0;
            && Begins(c, g1, fr, vars) && g1.named == g.named && g1.nregs == g.nregs && g1.allocas == g.allocas
            && Open(g1)
            && g1.blocks == g.blocks && g1.cur == g.cur
  {
    hide Linked, Plain, Agree, Injective;
  }

  lemma {:induction false} SimOperator(c: Ctx, k: nat, g: Gen, name: string, ops: seq<Operand>, fr: Frame, vars: Vars,
                                       t: Trace, vs: seq<Double>) returns (n: nat, fr': Frame)
    requires Begins(c, g, fr, vars) && Values(fr, ops) == Some(vs)
    requires CallOperator(g, name, ops).Good? && Within(CallOperator(g, name, ops).g, c.code)
    ensures RunsTo(c, k, g, fr, t, CallOperator(g, name, ops), Apply(k, c.m, c.p, name, vs, vars, t), n, fr')
    decreases k, 0, 1
  {
    hide Linked, Plain, Apply, EmitCall, Within;
    Redeclared(c, k, g, fr, vars, name);
    var g1 := GetFunction(g, name).0;
    n, fr' := SimApply(c, k, g1, name, ops, fr, vars, t, vs);
    SameStart(c, k, g, g1, fr, t, EmitCall(g1, name, ops).0, Apply(k, c.m, c.p, name, vs, vars, t), n, fr');
  }

  lemma {:induction false} SimUnary(c: Ctx, k: nat, g: Gen, e: Expr, fr: Frame, vars: Vars, t: Trace)
      returns (n: nat, fr': Frame)
    requires e.Unary? && Begins(c, g, fr, vars) && NoRepeats(e)
    requires GenUnary(c.m, g, e).Good? && Within(GenUnary(c.m, g, e).g, c.code)
    ensures RunsTo(c, k, g, fr, t, GenUnary(c.m, g, e), Eval(k, c.m, c.p, e, vars, t), n, fr')
    decreases k, 1, e, 1
  {
    hide Linked, Plain, Injective, InScope, Agree, Within, GenExpr, Apply, CallOperator, At, Kept;
    var a := GenExpr(c.m, g, e.operand);
    GenExprExtends(c.m, g, e.operand);
    var o := CallOperator(a.g, UnaryName(e.op), [a.value]);
    CallOperatorExtends(a.g, UnaryName(e.op), [a.value]);
    WithinBack(a.g, o.g, c.code);
    n, fr' := SimExpr(c, k, g, e.operand, fr, vars, t);
    var r1 := Eval(k, c.m, c.p, e.operand, vars, t);
    if r1.Done? {
      BeginsAfter(c, k, g, fr, vars, t, e.operand, r1, n, fr');
      ValuesOne(fr', a.value, r1.value);
      var n2, fr2 := SimOperator(c, k, a.g, UnaryName(e.op), [a.value], fr', r1.vars, r1.trace, [r1.value]);
      var r := Apply(k, c.m, c.p, UnaryName(e.op), [r1.value], r1.vars, r1.trace);
      ComposeExtends(c, k, g, fr, t, a.g, r1, n, fr', o.g, r, n2, fr2);
      n, fr' := n + n2, fr2;
    } else {
      TimeoutExtends(c, k, g, fr, t, a.g, r1, n, fr', o.g, Eval(k, c.m, c.p, e, vars, t));
    }
  }

  lemma {:induction false} SimAssignment(c: Ctx, k: nat, g: Gen, e: Expr, fr: Frame, vars: Vars, t: Trace)
      returns (n: nat, fr': Frame)
    requires e.Binary? && e.op == '=' && Begins(c, g, fr, vars) && NoRepeats(e)
    requires GenAssign(c.m, g, e).Good? && Within(GenAssign(c.m, g, e).g, c.code)
    ensures RunsTo(c, k, g, fr, t, GenAssign(c.m, g, e), EvalBinary(k, c.m, c.p, e, vars, t), n, fr')
    decreases k, 1, e, 1
  {
    hide Linked, Plain, Injective, InScope, Within, GenExpr, Eval, Emit, Agree, Kept, At, Open, Steps, Value, Extends;
    var a := GenExpr(c.m, g, e.rhs);
    GenExprExtends(c.m, g, e.rhs);
    var h := Emit(a.g, Store(a.value, a.g.named[e.lhs.name]));
    EmitExtends(a.g, Store(a.value, a.g.named[e.lhs.name]));
    WithinBack(a.g, h, c.code);
    n, fr' := SimExpr(c, k, g, e.rhs, fr, vars, t);
    var r1 := Eval(k, c.m, c.p, e.rhs, vars, t);
    if r1.Done? && e.lhs.name in r1.vars {
      BeginsAfter(c, k, g, fr, vars, t, e.rhs, r1, n, fr');
      var fr2 := AssignRuns(c, k, a.g, e.lhs.name, a.value, fr', r1.vars, r1.trace, r1.value);
      ComposeExtends(c, k, g, fr, t, a.g, r1, n, fr', h, Done(r1.value, r1.vars[e.lhs.name := r1.value], r1.trace), 1,
          fr2);
      n, fr' := n + 1, fr2;
    } else if !r1.Done? {
      TimeoutExtends(c, k, g, fr, t, a.g, r1, n, fr', h, EvalBinary(k, c.m, c.p, e, vars, t));
    }
  }

  lemma AssignRuns(c: Ctx, k: nat, g: Gen, x: string, v: Operand, fr: Frame, vars: Vars, t: Trace, d: Double)
      returns (fr': Frame)
    requires Ready(c, g, fr, vars) && x in g.named && Within(Emit(g, Store(v, g.named[x])), c.code)
             && Value(fr, v) == Some(Dbl(d))
    ensures Runs(c, k, g, fr, t, Emit(g, Store(v, g.named[x])), Done(d, vars[x := d], t), 1, fr')
            && Value(fr', v) == Some(Dbl(d))
  {
    StaysOnce(c, g, Emit(g, Store(v, g.named[x])), fr, t);
    hide Within, Emit, Agree, Kept, At, Open, InScope, Injective, Steps, Stays;
    fr' := SimAssign(c, g, x, v, fr, vars, t, d);
  }

  /** Both operands of a binary operator; the first keeps its value while the second is computed. */
  lemma {:induction false} SimOperands(c: Ctx, k: nat, g: Gen, e: Expr, fr: Frame, vars: Vars, t: Trace)
      returns (n: nat, fr': Frame)
    requires e.Binary? && Begins(c, g, fr, vars) && NoRepeats(e)
    requires var x := GenExpr(c.m, g, e.lhs);
            x.Good? && GenExpr(c.m, x.g, e.rhs).Good? && Within(GenExpr(c.m, x.g, e.rhs).g, c.code)
    ensures var x := GenExpr(c.m, g, e.lhs);
            var y := GenExpr(c.m, x.g, e.rhs);
            var r1 := Eval(k, c.m, c.p, e.lhs, vars, t);
            if r1.Done? then
              var r2 := Eval(k, c.m, c.p, e.rhs, r1.vars, r1.trace);
              && Runs(c, k, g, fr, t, y.g, r2, n, fr')
              && (r2.Done? ==> Begins(c, y.g, fr', r2.vars) && y.g.named == g.named && Extends(g, y.g)
                               && Value(fr', x.value) == Some(Dbl(r1.value))
                                  && Value(fr', y.value) == Some(Dbl(r2.value)))
            else Runs(c, k, g, fr, t, y.g, r1, n, fr')
    decreases k, 1, e, 0
  {
    hide Linked, Plain, Injective, InScope, Agree, Within, GenExpr, Eval, At;
    var x := GenExpr(c.m, g, e.lhs);
    var y := GenExpr(c.m, x.g, e.rhs);
    GenExprExtends(c.m, g, e.lhs);
    GenExprExtends(c.m, x.g, e.rhs);
    WithinBack(x.g, y.g, c.code);
    n, fr' := SimExpr(c, k, g, e.lhs, fr, vars, t);
    var r1 := Eval(k, c.m, c.p, e.lhs, vars, t);
    if r1.Done? {
      BeginsAfter(c, k, g, fr, vars, t, e.lhs, r1, n, fr');
      var n2, fr2 := SimExpr(c, k, x.g, e.rhs, fr', r1.vars, r1.trace);
      var r2 := Eval(k, c.m, c.p, e.rhs, r1.vars, r1.trace);
      ComposeExtends(c, k, g, fr, t, x.g, r1, n, fr', y.g, r2, n2, fr2);
      if r2.Done? {
        BeginsAfter(c, k, x.g, fr', r1.vars, r1.trace, e.rhs, r2, n2, fr2);
        KeepsValue(x.g, fr', fr2, x.value);
        ExtendsTrans(g, x.g, y.g);
      }
      n, fr' := n + n2, fr2;
    } else {
      TimeoutExtends(c, k, g, fr, t, x.g, r1, n, fr', y.g, r1);
    }
  }

  lemma {:induction false} SimBinary(c: Ctx, k: nat, g: Gen, e: Expr, fr: Frame, vars: Vars, t: Trace)
      returns (n: nat, fr': Frame)
    requires e.Binary? && e.op != '=' && Begins(c, g, fr, vars) && NoRepeats(e)
    requires GenBinary(c.m, g, e).Good? && Within(GenBinary(c.m, g, e).g, c.code)
    ensures RunsTo(c, k, g, fr, t, GenBinary(c.m, g, e), EvalBinary(k, c.m, c.p, e, vars, t), n, fr')
    decreases k, 1, e, 1
  {
    hide Linked, Plain, Injective, InScope, Within, GenExpr, Eval, Apply, CallOperator, BuiltIn, Operator, Kept, At,
        Agree, Extends, Open, Steps, Value, Values, Below;
    var x := GenExpr(c.m, g, e.lhs);
    var y := GenExpr(c.m, x.g, e.rhs);
    var o := GenBinary(c.m, g, e);
    GenExprExtends(c.m, g, e.lhs);
    GenExprExtends(c.m, x.g, e.rhs);
    if UserOperator(e.op) {
      CallOperatorExtends(y.g, BinaryName(e.op), [x.value, y.value]);
    } else {
      BuiltInExtends(c.m, y.g, e.op, x.value, y.value);
    }
    WithinBack(y.g, o.g, c.code);
    ExtendsTrans(g, x.g, y.g);
    n, fr' := SimOperands(c, k, g, e, fr, vars, t);
    var r1 := Eval(k, c.m, c.p, e.lhs, vars, t);
    if r1.Done? {
      var r2 := Eval(k, c.m, c.p, e.rhs, r1.vars, r1.trace);
      if r2.Done? {
        var n2, fr2;
        if UserOperator(e.op) {
          ValuesTwo(fr', x.value, y.value, r1.value, r2.value);
          n2, fr2 := SimOperator(c, k, y.g, BinaryName(e.op), [x.value, y.value], fr', r2.vars, r2.trace,
              [r1.value, r2.value]);
        } else {
          n2, fr2 := SimBuiltInRuns(c, k, y.g, e.op, x.value, y.value, fr', r2.vars, r2.trace, r1.value, r2.value);
        }
        ComposeExtends(c, k, g, fr, t, y.g, r2, n, fr', o.g, EvalBinary(k, c.m, c.p, e, vars, t), n2, fr2);
        n, fr' := n + n2, fr2;
      } else {
        TimeoutExtends(c, k, g, fr, t, y.g, r2, n, fr', o.g, EvalBinary(k, c.m, c.p, e, vars, t));
      }
    } else {
      TimeoutExtends(c, k, g, fr, t, y.g, r1, n, fr', o.g, EvalBinary(k, c.m, c.p, e, vars, t));
    }
  }

  lemma ComposeExtends<S, T>(c: Ctx, k: nat, g: Gen, fr: Frame, t: Trace, h1: Gen, r1: Outcome<S>, n1: nat, fr1: Frame,
                             h: Gen, r: Outcome<T>, n2: nat, fr2: Frame)
    requires r1.Done? && Runs(c, k, g, fr, t, h1, r1, n1, fr1) && Runs(c, k, h1, fr1, r1.trace, h, r, n2, fr2)
    requires h1.named == g.named && Extends(g, h1) && Extends(h1, h)
    ensures Runs(c, k, g, fr, t, h, r, n1 + n2, fr2)
  {
    assert g.nregs <= h1.nregs && |g.allocas| <= |h1.allocas|;
    hide Runs, Extends, Covers;
    ExtendsSelf(g);
    ExtendsSelf(h);
    ExtendsCovers(g, g, h1, h);
    ExtendsCovers(g, h1, h, h);
    Compose(c, k, g, fr, t, h1, r1, n1, fr1, h1, h, r, n2, fr2);
  }

  lemma SimBuiltInRuns(c: Ctx, k: nat, g: Gen, op: char, a: Operand, b: Operand, fr: Frame, vars: Vars, t: Trace,
                       x: Double, y: Double)
    returns (n: nat, fr': Frame)
    requires op in {'+', '-', '*', '<'}
    requires Ready(c, g, fr, vars) && Within(BuiltIn(c.m, g, op, a, b).0, c.code)
    requires Value(fr, a) == Some(Dbl(x)) && Value(fr, b) == Some(Dbl(y))
    ensures var (h, r) := BuiltIn(c.m, g, op, a, b);
            RunsTo(c, k, g, fr, t, Good(h, r), Done(Operator(c.m, op, x, y), vars, t), n, fr')
  {
    hide BuiltIn, Operator, Within, Kept, Steps, Stays;
    n, fr' := SimBuiltIn(c, g, op, a, b, fr, t, x, y);
    StraightStays(c, g, BuiltIn(c.m, g, op, a, b).0, fr, t, n, fr');
  }

  lemma {:induction false} SimCall(c: Ctx, k: nat, g: Gen, e: Expr, fr: Frame, vars: Vars, t: Trace)
      returns (n: nat, fr': Frame)
    requires e.Call? && Begins(c, g, fr, vars) && NoRepeats(e)
    requires GenCall(c.m, g, e).Good? && Within(GenCall(c.m, g, e).g, c.code)
    ensures RunsTo(c, k, g, fr, t, GenCall(c.m, g, e), Eval(k, c.m, c.p, e, vars, t), n, fr')
    decreases k, 1, e, 1
  {
    hide Linked, Plain, Injective, Within, GenExpr, GenArgs, EvalArgs, Apply, At, Agree, EmitCall;
    var g1 := GetFunction(g, e.callee).0;
    Redeclared(c, k, g, fr, vars, e.callee);
    var a := GenArgs(c.m, g1, e.args);
    GenArgsExtends(c.m, g1, e.args);
    ArgsScope(c.m, g1, e.args);
    var h := EmitCall(a.g, e.callee, a.value).0;
    assert Extends(a.g, h) by { EmitCallExtends(a.g, e.callee, a.value); }
    assert Extends(g, a.g);
    WithinBack(a.g, h, c.code);
    n, fr' := SimArgs(c, k, g1, e.args, fr, vars, t);
    var r1 := EvalArgs(k, c.m, c.p, e.args, vars, t);
    SameStart(c, k, g, g1, fr, t, a.g, r1, n, fr');
    if r1.Done? {
      var n2, fr2 := SimApply(c, k, a.g, e.callee, a.value, fr', r1.vars, r1.trace, r1.value);
      var r := Apply(k, c.m, c.p, e.callee, r1.value, r1.vars, r1.trace);
      ComposeExtends(c, k, g, fr, t, a.g, r1, n, fr', h, r, n2, fr2);
      n, fr' := n + n2, fr2;
    } else {
      TimeoutExtends(c, k, g, fr, t, a.g, r1, n, fr', h, Eval(k, c.m, c.p, e, vars, t));
    }
  }

  lemma EmitCallExtends(g: Gen, f: string, ops: seq<Operand>)
    requires Open(g)
    ensures Extends(g, EmitCall(g, f, ops).0)
  {
  }

  lemma SameStart<T>(c: Ctx, k: nat, g: Gen, g1: Gen, fr: Frame, t: Trace, h: Gen, r: Outcome<T>, n: nat, fr': Frame)
    requires Runs(c, k, g1, fr, t, h, r, n, fr')
    requires g1.named == g.named && g1.nregs == g.nregs && g1.allocas == g.allocas && g1.blocks == g.blocks
             && g1.cur == g.cur
    ensures Runs(c, k, g, fr, t, h, r, n, fr')
  {
    hide Steps, Stays;
    if r.Done? {
      StaysSame(c, g1, h, g, h, fr, t, n);
    } else if r.Timeout? {
      StaysSame(c, g1, h, g, h, fr, t, n + 1);
    }
  }

  // ----- `if` -----

  /** Instructions of the current block and the branch that ends it. */
  lemma StraightThenJump(c: Ctx, g: Gen, h: Gen, fr: Frame, t: Trace, n: nat, fr': Frame)
    requires Straight(c, fr, t, n, fr') && At(fr, g) && h.cur != g.cur
    ensures Stays(c, g, h, fr, t, n + 1)
  {
    StraightStays(c, g, h, fr, t, n, fr');
    StaysOnce(c, g, h, fr', t);
    hide Steps, Stays;
    StaysAdd(c, g, h, fr, t, n, fr', t, 1);
  }

  /** From a known condition to the start of the arm it selects; `z` is the insert point after the whole `if`. */
  lemma SimBranch(c: Ctx, g: Gen, x: Operand, fr: Frame, vars: Vars, t: Trace, d: Double, a: Gen, z: Gen)
      returns (n: nat, fr': Frame)
    requires Begins(c, g, fr, vars) && Value(fr, x) == Some(Dbl(d)) && z.cur != g.cur
    requires var (g2, bit) := EmitBin(c.m, g, FCmpONE, x, Lit(Dbl(c.m.zero)));
             && Within(BeginIf(g2, bit), c.code)
             && |a.blocks| > |g2.blocks| + 1 && Within(NextArm(a, |g2.blocks| + 2, |g2.blocks| + 1), c.code)
             && a.blocks[|g2.blocks| + 1] == EMPTY_BLOCK && |g2.blocks| + 1 != a.cur && a.named == g.named
    ensures var (g2, bit) := EmitBin(c.m, g, FCmpONE, x, Lit(Dbl(c.m.zero)));
            var h := if c.m.one(d, c.m.zero) then BeginIf(g2, bit) else NextArm(a, |g2.blocks| + 2, |g2.blocks| + 1);
            && n >= 1 && Steps(c.m, c.mod, n, St(c, fr, t)) == St(c, fr', t) && At(fr', h) && Kept(g, fr, fr')
            && fr'.slots == fr.slots && Loaded(c, fr') && Stays(c, g, z, fr, t, n)
  {
    hide Linked, Plain, Injective, InScope, Agree, EmitBin, Extends;
    var (g2, bit) := EmitBin(c.m, g, FCmpONE, x, Lit(Dbl(c.m.zero)));
    EmitBinExtends(c.m, g, FCmpONE, x, Lit(Dbl(c.m.zero)));
    var m := |g2.blocks|;
    WithinCloses(g2, CondBr(bit, m, m + 1), BeginIf(g2, bit), c.code);
    var n1, fr1 := SimBin(c, g, FCmpONE, x, Lit(Dbl(c.m.zero)), fr, t, d, c.m.zero);
    SimCondBr(c, fr1, t, bit, m, m + 1, c.m.one(d, c.m.zero));
    StepsAdd(c.m, c.mod, n1, 1, St(c, fr, t));
    StraightThenJump(c, g, z, fr, t, n1, fr1);
    n := n1 + 1;
    fr' := fr1.(block := if c.m.one(d, c.m.zero) then m else m + 1, pc := 0);
  }

  /** The end of an arm: its value goes into the phi of the merge block. */
  lemma SimMerge(c: Ctx, k: nat, g: Gen, x: Operand, fr: Frame, vars: Vars, t: Trace, h: Gen, phi: Phi, d: Double)
      returns (fr': Frame)
    requires Loaded(c, fr) && At(fr, g) && Agree(g.named, fr.slots, vars) && Value(fr, x) == Some(Dbl(d))
    requires g.cur < |c.code.blocks| && c.code.blocks[g.cur] == g.blocks[g.cur].(term := Some(Br(h.cur)))
    requires Within(h, c.code) && h.blocks[h.cur] == Block([phi], [], None)
             && IncomingFor(phi.incoming, g.cur) == Some(x)
    requires phi.dst >= g.nregs
    ensures Steps(c.m, c.mod, 1, St(c, fr, t)) == St(c, fr', t) && At(fr', h) && Kept(g, fr, fr')
    ensures Value(fr', Reg(phi.dst)) == Some(Dbl(d)) && Agree(g.named, fr'.slots, vars)
  {
    SimBrPhi(c, fr, t, h.cur, phi, x);
    fr' := fr.(regs := fr.regs[phi.dst := Dbl(d)], block := h.cur, pc := 0);
  }

  /** The pieces of an `if`: `g2` branches on `bit`, the arms end in `a` and `b`. */
  ghost predicate IsIf(m: Arith, g: Gen, e: Expr, o1: Out<Operand>, g2: Gen, bit: Operand, a: Out<Operand>,
                       b: Out<Operand>)
    requires e.If?
  {
    var n := |g2.blocks|;
    && o1 == GenExpr(m, g, e.cond) && o1.Good?
    && (g2, bit) == EmitBin(m, o1.g, FCmpONE, o1.value, Lit(Dbl(m.zero)))
    && a == GenExpr(m, BeginIf(g2, bit), e.thn) && a.Good? && |a.g.blocks| > n + 2
    && b == GenExpr(m, NextArm(a.g, n + 2, n + 1), e.els) && b.Good? && |b.g.blocks| > n + 2
    && GenIf(m, g, e) == Good(Merged(n, a, b), Reg(b.g.nregs))
  }

  function Merged(n: nat, a: Out<Operand>, b: Out<Operand>): Gen
    requires a.Good? && b.Good? && |b.g.blocks| > n + 2
  {
    AddPhi(NextArm(b.g, n + 2, n + 2), [(a.value, a.g.cur), (b.value, b.g.cur)]).0
  }

  lemma IfOpens(m: Arith, g: Gen, e: Expr)
      returns (o1: Out<Operand>, g2: Gen, bit: Operand, a: Out<Operand>, b: Out<Operand>)
    requires e.If? && GenIf(m, g, e).Good?
    ensures IsIf(m, g, e, o1, g2, bit, a, b)
  {
    hide GenExpr, EmitBin;
    o1 := GenExpr(m, g, e.cond);
    var p := EmitBin(m, o1.g, FCmpONE, o1.value, Lit(Dbl(m.zero)));
    g2, bit := p.0, p.1;
    a := GenExpr(m, BeginIf(g2, bit), e.thn);
    b := GenExpr(m, NextArm(a.g, |g2.blocks| + 2, |g2.blocks| + 1), e.els);
  }

  ghost predicate ArmEnds(code: Code, g: Gen, merge: nat) {
    g.cur < |code.blocks| && code.blocks[g.cur] == g.blocks[g.cur].(term := Some(Br(merge))) && Within(g, code)
  }

  /** Both arms are in the finished code, each ending with a branch to the merge block. */
  lemma ArmsWithin(g: Gen, c: Operand, a: Out<Operand>, b: Out<Operand>, code: Code)
    requires Open(g) && a.Good? && Extends(BeginIf(g, c), a.g) && Open(a.g)
    requires b.Good? && |a.g.blocks| > |g.blocks| + 2
    requires Extends(NextArm(a.g, |g.blocks| + 2, |g.blocks| + 1), b.g) && Open(b.g)
    requires Within(Merged(|g.blocks|, a, b), code)
    ensures var n := |g.blocks|;
            && ArmEnds(code, a.g, n + 2) && ArmEnds(code, b.g, n + 2)
            && Within(BeginIf(g, c), code) && Within(NextArm(a.g, n + 2, n + 1), code)
            && a.g.blocks[n + 1] == EMPTY_BLOCK && a.g.cur != n + 1 && a.g.cur != b.g.cur
            && Merged(n, a, b).blocks[n + 2]
               == Block([Phi(b.g.nregs, [(a.value, a.g.cur), (b.value, b.g.cur)])], [], None)
            && Merged(n, a, b).cur == n + 2 && a.g.nregs <= b.g.nregs
  {
    ArmsPlaced(g, c, a, b);
    ArmsInCode(g, c, a, b, code);
    hide Within, Extends, Merged, BeginIf, NextArm, Open;
  }

  /** Which blocks the arms end in, and the merge block. */
  lemma ArmsPlaced(g: Gen, c: Operand, a: Out<Operand>, b: Out<Operand>)
    requires Open(g) && a.Good? && Extends(BeginIf(g, c), a.g) && Open(a.g)
    requires b.Good? && |a.g.blocks| > |g.blocks| + 2
    requires Extends(NextArm(a.g, |g.blocks| + 2, |g.blocks| + 1), b.g) && Open(b.g)
    ensures var n := |g.blocks|;
            && |b.g.blocks| > n + 2 && a.g.blocks[n + 1] == EMPTY_BLOCK && a.g.cur != n + 1 && a.g.cur != b.g.cur
            && Merged(n, a, b).blocks[n + 2]
               == Block([Phi(b.g.nregs, [(a.value, a.g.cur), (b.value, b.g.cur)])], [], None)
            && Merged(n, a, b).cur == n + 2 && a.g.nregs <= b.g.nregs
            && Closes(b.g, Br(n + 2), Merged(n, a, b)) && Closes(a.g, Br(n + 2), NextArm(a.g, n + 2, n + 1))
            && Open(BeginIf(g, c)) && Open(NextArm(a.g, n + 2, n + 1))
  {
    var n := |g.blocks|;
    assert BeginIf(g, c).blocks[n + 1] == EMPTY_BLOCK;
    IfExtends(g, c, a.g, b.g, [(a.value, a.g.cur), (b.value, b.g.cur)]);
  }

  lemma ArmsInCode(g: Gen, c: Operand, a: Out<Operand>, b: Out<Operand>, code: Code)
    requires Open(g) && a.Good? && Extends(BeginIf(g, c), a.g) && Open(a.g)
    requires b.Good? && |a.g.blocks| > |g.blocks| + 2
    requires Extends(NextArm(a.g, |g.blocks| + 2, |g.blocks| + 1), b.g) && Open(b.g)
    requires Within(Merged(|g.blocks|, a, b), code)
    ensures var n := |g.blocks|;
            (ArmEnds(code, a.g, n + 2) && ArmEnds(code, b.g, n + 2) && Within(BeginIf(g, c), code)
                && Within(NextArm(a.g, n + 2, n + 1), code)) == true
  {
    hide Within, Extends, Merged, BeginIf, NextArm, Closes, Open;
    var n := |g.blocks|;
    ArmsPlaced(g, c, a, b);
    WithinCloses(b.g, Br(n + 2), Merged(n, a, b), code);
    WithinBack(NextArm(a.g, n + 2, n + 1), b.g, code);
    WithinCloses(a.g, Br(n + 2), NextArm(a.g, n + 2, n + 1), code);
    WithinBack(BeginIf(g, c), a.g, code);
    InsideCode(a.g, code);
    InsideCode(b.g, code);
  }

  lemma InsideCode(g: Gen, code: Code)
    requires Within(g, code)
    ensures g.cur < |code.blocks|
  {
  }

  /** An arm from its first block to the merge block, `g` being the insert point before the branch. */
  lemma {:induction false} SimArm(c: Ctx, k: nat, parent: Expr, g: Gen, s: Gen, e: Expr, fr: Frame, vars: Vars,
                                  t: Trace, h: Gen, phi: Phi)
    returns (n: nat, fr': Frame)
    requires e < parent && NoRepeats(e) && Begins(c, s, fr, vars)
    requires s.named == g.named && g.nregs <= s.nregs && |g.allocas| <= |s.allocas|
    requires var o := GenExpr(c.m, s, e);
             && o.Good? && Within(o.g, c.code) && o.g.nregs <= phi.dst && o.g.cur < |c.code.blocks|
             && c.code.blocks[o.g.cur] == o.g.blocks[o.g.cur].(term := Some(Br(h.cur)))
             && IncomingFor(phi.incoming, o.g.cur) == Some(o.value)
    requires Within(h, c.code) && h.blocks[h.cur] == Block([phi], [], None)
    requires |g.blocks| <= s.cur && |g.blocks| <= h.cur < |s.blocks| && s.cur != h.cur
             && |GenExpr(c.m, s, e).g.blocks| <= |h.blocks|
    ensures RunsTo(c, k, g, fr, t, Good(h, Reg(phi.dst)), Eval(k, c.m, c.p, e, vars, t), n, fr')
    decreases k, 1, parent, 0
  {
    hide Linked, Plain, Injective, InScope, Within, GenExpr, Eval, Agree, Stays, Steps, NoRepeats;
    n, fr' := SimExpr(c, k, s, e, fr, vars, t);
    var o := GenExpr(c.m, s, e);
    var r := Eval(k, c.m, c.p, e, vars, t);
    GenExprExtends(c.m, s, e);
    assert Covers(g, h, s, o.g);
    hide Covers;
    if !r.Done? {
      TimeoutWiden(c, k, s, fr, t, o.g, r, n, fr', g, h, r);
    } else {
      BeginsAfter(c, k, s, fr, vars, t, e, r, n, fr');
      var fr2 := SimMerge(c, k, o.g, o.value, fr', r.vars, r.trace, h, phi, r.value);
      StepsAdd(c.m, c.mod, n, 1, St(c, fr, t));
      StaysWiden(c, s, o.g, g, h, fr, t, n);
      StaysOnce(c, g, h, fr', r.trace);
      StaysAdd(c, g, h, fr, t, n, fr', r.trace, 1);
      KeptTrans(s, o.g, fr, fr', fr2);
      KeptWeaken(g, s, fr, fr2);
      n, fr' := n + 1, fr2;
    }
  }

  lemma KeptWeaken(g: Gen, h: Gen, fr: Frame, fr': Frame)
    requires Kept(h, fr, fr') && h.named == g.named && g.nregs <= h.nregs && |g.allocas| <= |h.allocas|
    ensures Kept(g, fr, fr')
  {
  }

  lemma IfScopes(m: Arith, g: Gen, e: Expr, o1: Out<Operand>, g2: Gen, bit: Operand, a: Out<Operand>, b: Out<Operand>)
    requires e.If? && NoRepeats(e) && Open(g) && InScope(g) && IsIf(m, g, e, o1, g2, bit, a, b)
    ensures Extends(g, o1.g) && Open(o1.g) && InScope(o1.g) && o1.g.named == g.named
    ensures Extends(o1.g, g2) && Open(g2) && InScope(g2) && g2.named == g.named
    ensures Extends(BeginIf(g2, bit), a.g) && Open(a.g) && InScope(a.g) && a.g.named == g.named
    ensures Extends(NextArm(a.g, |g2.blocks| + 2, |g2.blocks| + 1), b.g) && Open(b.g)
    ensures Open(BeginIf(g2, bit)) && InScope(BeginIf(g2, bit))
    ensures Open(NextArm(a.g, |g2.blocks| + 2, |g2.blocks| + 1))
            && InScope(NextArm(a.g, |g2.blocks| + 2, |g2.blocks| + 1))
  {
    hide GenExpr, EmitBin, GenIf, Leaks;
    GenExprExtends(m, g, e.cond);
    ScopeAfter(m, g, e.cond);
    ScopeRestored(m, g, e.cond);
    EmitBinExtends(m, o1.g, FCmpONE, o1.value, Lit(Dbl(m.zero)));
    var s1 := BeginIf(g2, bit);
    BeginIfOpen(g2, bit);
    assert InScope(s1);
    GenExprExtends(m, s1, e.thn);
    ScopeAfter(m, s1, e.thn);
    ScopeRestored(m, s1, e.thn);
    ElseOpen(g2, bit, a.g);
    GenExprExtends(m, NextArm(a.g, |g2.blocks| + 2, |g2.blocks| + 1), e.els);
  }

  /** The selected arm, entered from the condition. */
  lemma {:induction false} SimIfArms(c: Ctx, k: nat, g: Gen, e: Expr, o1: Out<Operand>, g2: Gen, bit: Operand,
                                     a: Out<Operand>, b: Out<Operand>,
                                     fr: Frame, vars: Vars, t: Trace, d: Double) returns (n: nat, fr': Frame)
    requires e.If? && NoRepeats(e) && Open(g) && InScope(g) && IsIf(c.m, g, e, o1, g2, bit, a, b)
    requires Begins(c, o1.g, fr, vars) && Value(fr, o1.value) == Some(Dbl(d))
             && Within(Merged(|g2.blocks|, a, b), c.code)
    ensures var o := Good(Merged(|g2.blocks|, a, b), Reg(b.g.nregs));
            var arm := if c.m.one(d, c.m.zero) then e.thn else e.els;
            RunsTo(c, k, o1.g, fr, t, o, Eval(k, c.m, c.p, arm, vars, t), n, fr')
    decreases k, 1, e, 1
  {
    hide Linked, Plain, Injective, GenExpr, GenIf, EmitBin, Eval, Agree, Within, At, Merged, Extends, Kept, InScope,
        Steps, Open;
    IfScopes(c.m, g, e, o1, g2, bit, a, b);
    ArmsWithin(g2, bit, a, b, c.code);
    var m := |g2.blocks|;
    var h := Merged(m, a, b);
    var phi := Phi(b.g.nregs, [(a.value, a.g.cur), (b.value, b.g.cur)]);
    IncomingArms(a.value, a.g.cur, b.value, b.g.cur);
    ArmBounds(o1.g, g2, bit, a, b);
    var n1, fr1 := SimBranch(c, o1.g, o1.value, fr, vars, t, d, a.g, h);
    var s, x, arm := BeginIf(g2, bit), e.thn, a;
    if !c.m.one(d, c.m.zero) {
      s, x, arm := NextArm(a.g, m + 2, m + 1), e.els, b;
    }
    ArmMonotone(o1.g, g2, bit, a.g);
    var n2, fr2 := SimArm(c, k, e, o1.g, s, x, fr1, vars, t, h, phi);
    ComposeFrom(c, k, k, o1.g, fr, t, n1, fr1, t, h, Eval(k, c.m, c.p, x, vars, t), n2, fr2);
    n, fr' := n1 + n2, fr2;
  }

  /** The arms' blocks come after those before the `if`, and the merge block is not one of them. */
  lemma ArmBounds(g: Gen, g2: Gen, c: Operand, a: Out<Operand>, b: Out<Operand>)
    requires Open(g2) && Extends(g, g2) && a.Good? && b.Good? && |a.g.blocks| > |g2.blocks| + 2
    requires Extends(BeginIf(g2, c), a.g) && Extends(NextArm(a.g, |g2.blocks| + 2, |g2.blocks| + 1), b.g)
    ensures var n := |g2.blocks|;
            var s1, s2 := BeginIf(g2, c), NextArm(a.g, n + 2, n + 1);
            && |g.blocks| <= n && s1.cur == n && |s1.blocks| == n + 3 && s2.cur == n + 1 && |s2.blocks| == |a.g.blocks|
            && |a.g.blocks| <= |b.g.blocks| && |b.g.blocks| > n + 2 && |Merged(n, a, b).blocks| == |b.g.blocks|
            && Merged(n, a, b).cur == n + 2
  {
  }

  lemma IncomingArms(x: Operand, a: nat, y: Operand, b: nat)
    requires a != b
    ensures IncomingFor([(x, a), (y, b)], a) == Some(x) && IncomingFor([(x, a), (y, b)], b) == Some(y)
  {
    assert [(x, a), (y, b)][1..] == [(y, b)];
  }

  lemma ArmMonotone(g: Gen, g2: Gen, c: Operand, a: Gen)
    requires Extends(g, g2) && Extends(BeginIf(g2, c), a)
    ensures g.nregs <= g2.nregs <= a.nregs && |g.allocas| <= |g2.allocas| <= |a.allocas|
    ensures BeginIf(g2, c).named == g2.named && BeginIf(g2, c).nregs == g2.nregs && BeginIf(g2, c).allocas == g2.allocas
  {
  }

  lemma {:induction false} SimIf(c: Ctx, k: nat, g: Gen, e: Expr, fr: Frame, vars: Vars, t: Trace)
      returns (n: nat, fr': Frame)
    requires e.If? && Begins(c, g, fr, vars) && NoRepeats(e)
    requires GenIf(c.m, g, e).Good? && Within(GenIf(c.m, g, e).g, c.code)
    ensures RunsTo(c, k, g, fr, t, GenIf(c.m, g, e), EvalIf(k, c.m, c.p, e, vars, t), n, fr')
    decreases k, 1, e, 2
  {
    hide Linked, Plain, Injective, GenExpr, GenIf, EmitBin, Eval, Agree, Within, At, Merged, Kept, Extends;
    var o1, g2, bit, a, b := IfOpens(c.m, g, e);
    IfScopes(c.m, g, e, o1, g2, bit, a, b);
    ArmsWithin(g2, bit, a, b, c.code);
    BeginIfCloses(g2, bit, c.code);
    WithinBack(o1.g, g2, c.code);
    MergedExtends(o1.g, g2, bit, a, b);
    n, fr' := SimExpr(c, k, g, e.cond, fr, vars, t);
    var r1 := Eval(k, c.m, c.p, e.cond, vars, t);
    if r1.Done? {
      BeginsAfter(c, k, g, fr, vars, t, e.cond, r1, n, fr');
      var n2, fr2 := SimIfArms(c, k, g, e, o1, g2, bit, a, b, fr', r1.vars, r1.trace, r1.value);
      ComposeExtends(c, k, g, fr, t, o1.g, r1, n, fr', Merged(|g2.blocks|, a, b), EvalIf(k, c.m, c.p, e, vars, t), n2,
          fr2);
      n, fr' := n + n2, fr2;
    } else {
      TimeoutExtends(c, k, g, fr, t, o1.g, r1, n, fr', Merged(|g2.blocks|, a, b), EvalIf(k, c.m, c.p, e, vars, t));
    }
  }

  lemma MergedExtends(g: Gen, g2: Gen, c: Operand, a: Out<Operand>, b: Out<Operand>)
    requires Extends(g, g2) && Open(g2) && a.Good? && b.Good? && Extends(BeginIf(g2, c), a.g) && Open(a.g)
    requires |a.g.blocks| > |g2.blocks| + 2 && Extends(NextArm(a.g, |g2.blocks| + 2, |g2.blocks| + 1), b.g) && Open(b.g)
    ensures |b.g.blocks| > |g2.blocks| + 2 && Extends(g, Merged(|g2.blocks|, a, b))
  {
    hide BeginIf, NextArm, Open;
    IfExtends(g2, c, a.g, b.g, [(a.value, a.g.cur), (b.value, b.g.cur)]);
    ArmBounds(g, g2, c, a, b);
    ExtendsTrans(g, g2, Merged(|g2.blocks|, a, b));
  }

  lemma BeginIfCloses(g: Gen, c: Operand, code: Code)
    requires Open(g) && Within(BeginIf(g, c), code)
    ensures Within(g, code)
  {
    WithinCloses(g, CondBr(c, |g.blocks|, |g.blocks| + 1), BeginIf(g, c), code);
  }

  // ----- `for` -----

  lemma SimIncrement(c: Ctx, g: Gen, slot: nat, step: Operand, fr: Frame, t: Trace, inc: Double)
      returns (n: nat, fr': Frame)
    requires Loaded(c, fr) && Open(g) && At(fr, g) && Within(Increment(c.m, g, slot, step), c.code)
    requires Value(fr, step) == Some(Dbl(inc)) && Below(step, g.nregs) && slot < |g.allocas| && slot in fr.slots
    ensures Straight(c, fr, t, n, fr') && At(fr', Increment(c.m, g, slot, step))
    ensures fr'.slots == fr.slots[slot := c.m.add(fr.slots[slot], inc)] && fr'.fn == fr.fn && fr'.args == fr.args
    ensures forall r :: r in fr.regs && r < g.nregs ==> r in fr'.regs && fr'.regs[r] == fr.regs[r]
  {
    hide EmitBin, Within, Straight, Steps;
    var (g1, x) := EmitLoad(g, slot);
    var (g2, next) := EmitBin(c.m, g1, FAdd, x, step);
    var g3 := Emit(g2, Store(next, slot));
    EmitBinExtends(c.m, g1, FAdd, x, step);
    EmitExtends(g2, Store(next, slot));
    WithinBack(g2, g3, c.code);
    WithinBack(g1, g2, c.code);
    var n1, fr1 := SimLoad(c, g, slot, fr, t);
    KeepsValue(g, fr, fr1, step);
    var n2, fr2 := SimBin(c, g1, FAdd, x, step, fr1, t, fr.slots[slot], inc);
    var fr3 := SimStore(c, g2, slot, next, fr2, t, c.m.add(fr.slots[slot], inc));
    n, fr' := n1 + (n2 + 1), fr3;
    StraightAdd(c, fr1, t, n2, fr2, 1, fr3);
    StraightAdd(c, fr, t, n1, fr1, n2 + 1, fr3);
  }

  lemma SimLoad(c: Ctx, g: Gen, slot: nat, fr: Frame, t: Trace) returns (n: nat, fr': Frame)
    requires Loaded(c, fr) && At(fr, g) && Within(EmitLoad(g, slot).0, c.code) && slot < |g.allocas| && slot in fr.slots
    ensures var (h, r) := EmitLoad(g, slot);
            && n == 1 && Straight(c, fr, t, n, fr') && At(fr', h) && Kept(g, fr, fr')
            && fr'.slots == fr.slots && Value(fr', r) == Some(Dbl(fr.slots[slot]))
  {
    assert Within(Emit(g, Load(g.nregs, slot)), c.code);
    SimEmit(c, g, Load(g.nregs, slot), fr, t);
    n, fr' := 1, Exec(c.m, |c.code.allocas|, fr, Load(g.nregs, slot)).value;
    StraightOne(c, fr, t, fr');
  }

  lemma SimStore(c: Ctx, g: Gen, slot: nat, v: Operand, fr: Frame, t: Trace, d: Double) returns (fr': Frame)
    requires Loaded(c, fr) && At(fr, g) && Within(Emit(g, Store(v, slot)), c.code) && slot < |g.allocas|
             && Value(fr, v) == Some(Dbl(d))
    ensures Straight(c, fr, t, 1, fr') && At(fr', Emit(g, Store(v, slot)))
    ensures fr'.slots == fr.slots[slot := d] && fr'.regs == fr.regs && fr'.fn == fr.fn && fr'.args == fr.args
  {
    SimEmit(c, g, Store(v, slot), fr, t);
    fr' := Exec(c.m, |c.code.allocas|, fr, Store(v, slot)).value;
    StraightOne(c, fr, t, fr');
  }

  lemma SimTest(c: Ctx, g: Gen, head: nat, end: Operand, fr: Frame, t: Trace, stop: Double) returns (n: nat, fr': Frame)
    requires Loaded(c, fr) && Open(g) && At(fr, g) && Within(TestLoop(c.m, g, head, end), c.code)
    requires Value(fr, end) == Some(Dbl(stop)) && head < |c.code.blocks| && c.code.blocks[head].phis == []
    ensures n >= 1 && Steps(c.m, c.mod, n, St(c, fr, t)) == St(c, fr', t) && Kept(g, fr, fr') && fr'.slots == fr.slots
            && fr'.pc == 0 && Stays(c, g, TestLoop(c.m, g, head, end), fr, t, n)
    ensures if c.m.one(stop, c.m.zero) then fr'.block == head else At(fr', TestLoop(c.m, g, head, end))
  {
    hide EmitBin;
    var (g1, x) := EmitBin(c.m, g, FCmpONE, end, Lit(Dbl(c.m.zero)));
    EmitBinExtends(c.m, g, FCmpONE, end, Lit(Dbl(c.m.zero)));
    var h := TestLoop(c.m, g, head, end);
    WithinCloses(g1, CondBr(x, head, |g1.blocks|), h, c.code);
    var n1, fr1 := SimBin(c, g, FCmpONE, end, Lit(Dbl(c.m.zero)), fr, t, stop, c.m.zero);
    SimCondBr(c, fr1, t, x, head, |g1.blocks|, c.m.one(stop, c.m.zero));
    StepsAdd(c.m, c.mod, n1, 1, St(c, fr, t));
    assert h.cur != g.cur;
    StraightThenJump(c, g, h, fr, t, n1, fr1);
    n := n1 + 1;
    fr' := fr1.(block := if c.m.one(stop, c.m.zero) then head else |g1.blocks|, pc := 0);
  }

  lemma SimEndLoop(c: Ctx, g: Gen, head: nat, slot: nat, step: Operand, end: Operand, fr: Frame, t: Trace,
                   inc: Double, stop: Double)
    returns (n: nat, fr': Frame)
    requires Loaded(c, fr) && Open(g) && At(fr, g) && Within(EndLoop(c.m, g, head, slot, step, end), c.code)
    requires Value(fr, step) == Some(Dbl(inc)) && Below(step, g.nregs) && slot < |g.allocas| && slot in fr.slots
    requires Value(fr, end) == Some(Dbl(stop)) && Below(end, g.nregs) && head < |c.code.blocks|
             && c.code.blocks[head].phis == []
    ensures n >= 1 && Steps(c.m, c.mod, n, St(c, fr, t)) == St(c, fr', t) && fr'.pc == 0 && fr'.fn == fr.fn
            && fr'.args == fr.args && Stays(c, g, EndLoop(c.m, g, head, slot, step, end), fr, t, n)
    ensures fr'.slots == fr.slots[slot := c.m.add(fr.slots[slot], inc)]
    ensures forall r :: r in fr.regs && r < g.nregs ==> r in fr'.regs && fr'.regs[r] == fr.regs[r]
    ensures if c.m.one(stop, c.m.zero) then fr'.block == head else At(fr', EndLoop(c.m, g, head, slot, step, end))
  {
    hide Increment, TestLoop, Stays, Straight, Steps;
    assert forall n, fr' :: Straight(c, fr, t, n, fr') ==> Steps(c.m, c.mod, n, St(c, fr, t)) == St(c, fr', t) by {
      StraightSteps(c, fr, t);
    }
    var g1 := Increment(c.m, g, slot, step);
    IncrementExtends(c.m, g, slot, step);
    TestLoopExtends(c.m, g1, head, end);
    WithinBack(g1, TestLoop(c.m, g1, head, end), c.code);
    var n1, fr1 := SimIncrement(c, g, slot, step, fr, t, inc);
    assert Value(fr1, end) == Value(fr, end);
    var n2, fr2 := SimTest(c, g1, head, end, fr1, t, stop);
    StepsAdd(c.m, c.mod, n1, n2, St(c, fr, t));
    EndLoopStays(c, g, g1, TestLoop(c.m, g1, head, end), fr, t, n1, fr1, n2);
    n, fr' := n1 + n2, fr2;
  }

  lemma StraightSteps(c: Ctx, fr: Frame, t: Trace)
    ensures forall n, fr' :: Straight(c, fr, t, n, fr') ==> Steps(c.m, c.mod, n, St(c, fr, t)) == St(c, fr', t)
  {
  }

  lemma EndLoopStays(c: Ctx, g: Gen, g1: Gen, h: Gen, fr: Frame, t: Trace, n1: nat, fr1: Frame, n2: nat)
    requires Straight(c, fr, t, n1, fr1) && At(fr, g) && At(fr1, g1) && Extends(g, g1) && Extends(g1, h)
    requires Stays(c, g1, h, fr1, t, n2)
    ensures Stays(c, g, h, fr, t, n1 + n2)
  {
    ExtendsSelf(h);
    ExtendsCovers(g, g1, h, h);
    StraightStays(c, g, h, fr, t, n1, fr1);
    hide Steps, Stays, Covers, Extends;
    StaysWiden(c, g1, h, g, h, fr1, t, n2);
    StaysAdd(c, g, h, fr, t, n1, fr1, t, n2);
  }

  /** The pieces of a loop: `a`, `b` and `d` are the outcomes for the body, the step and the end. */
  ghost predicate IsLoop(m: Arith, g: Gen, e: Expr, a: Out<Operand>, b: Out<Operand>, d: Out<Operand>)
    requires e.For?
  {
    && a == GenExpr(m, g, e.body) && a.Good?
    && b == GenOption(m, a.g, e.step, m.unit) && b.Good?
    && d == GenExpr(m, b.g, e.end) && d.Good?
  }

  /** The body and the step of one pass. */
  lemma {:induction false} SimBodyAndStep(c: Ctx, k: nat, g: Gen, e: Expr, a: Out<Operand>, b: Out<Operand>,
                                          d: Out<Operand>, fr: Frame, vars: Vars, t: Trace)
    returns (n: nat, fr': Frame)
    requires e.For? && NoRepeats(e) && Begins(c, g, fr, vars) && IsLoop(c.m, g, e, a, b, d) && Within(b.g, c.code)
    ensures var r1 := Eval(k, c.m, c.p, e.body, vars, t);
            if r1.Done? then
              var r2 := EvalOption(k, c.m, c.p, e.step, c.m.unit, r1.vars, r1.trace);
              && Runs(c, k, g, fr, t, b.g, r2, n, fr')
              && (r2.Done? ==> Begins(c, b.g, fr', r2.vars) && b.g.named == g.named && Extends(g, b.g)
                               && Value(fr', b.value) == Some(Dbl(r2.value)) && Below(b.value, b.g.nregs))
            else Runs(c, k, g, fr, t, b.g, r1, n, fr')
    decreases k, 1, e, 0
  {
    hide Linked, Plain, Injective, InScope, Agree, Within, GenExpr, GenOption, Eval, EvalOption, At, Kept;
    GenExprExtends(c.m, g, e.body);
    GenOptionExtends(c.m, a.g, e.step, c.m.unit);
    WithinBack(a.g, b.g, c.code);
    n, fr' := SimExpr(c, k, g, e.body, fr, vars, t);
    var r1 := Eval(k, c.m, c.p, e.body, vars, t);
    if r1.Done? {
      BeginsAfter(c, k, g, fr, vars, t, e.body, r1, n, fr');
      var n2, fr2 := SimOption(c, k, a.g, e.step, c.m.unit, fr', r1.vars, r1.trace);
      ComposeExtends(c, k, g, fr, t, a.g, r1, n, fr', b.g,
          EvalOption(k, c.m, c.p, e.step, c.m.unit, r1.vars, r1.trace), n2, fr2);
      ExtendsTrans(g, a.g, b.g);
      n, fr' := n + n2, fr2;
    } else {
      TimeoutExtends(c, k, g, fr, t, a.g, r1, n, fr', b.g, r1);
    }
  }

  /** What one pass through the loop's body, step and end evaluates to. */
  function Pass(k: nat, m: Arith, p: Program, e: Expr, vars: Vars, t: Trace): Outcome<(Double, Double)>
    requires e.For?
  {
    var (_, vars1, t1) :- Eval(k, m, p, e.body, vars, t);
    var (inc, vars2, t2) :- EvalOption(k, m, p, e.step, m.unit, vars1, t1);
    var (stop, vars3, t3) :- Eval(k, m, p, e.end, vars2, t2);
    Done((inc, stop), vars3, t3)
  }

  lemma {:induction false} SimPass(c: Ctx, k: nat, g: Gen, e: Expr, a: Out<Operand>, b: Out<Operand>, d: Out<Operand>,
                                   fr: Frame, vars: Vars, t: Trace)
    returns (n: nat, fr': Frame)
    requires e.For? && NoRepeats(e) && Begins(c, g, fr, vars) && IsLoop(c.m, g, e, a, b, d) && Within(d.g, c.code)
    ensures var r := Pass(k, c.m, c.p, e, vars, t);
            && Runs(c, k, g, fr, t, d.g, r, n, fr')
            && (r.Done? ==> Begins(c, d.g, fr', r.vars) && d.g.named == g.named && Extends(g, d.g)
                            && Value(fr', b.value) == Some(Dbl(r.value.0)) && Below(b.value, d.g.nregs)
                            && Value(fr', d.value) == Some(Dbl(r.value.1)) && Below(d.value, d.g.nregs))
    decreases k, 1, e, 1
  {
    hide Linked, Plain, Injective, InScope, Agree, Within, GenExpr, GenOption, Eval, EvalOption, At, Kept, Steps, Open,
        Stays, Extends, NoRepeats;
    GenExprExtends(c.m, g, e.body);
    GenOptionExtends(c.m, a.g, e.step, c.m.unit);
    GenExprExtends(c.m, b.g, e.end);
    WithinBack(b.g, d.g, c.code);
    ExtendsTrans(g, a.g, b.g);
    assert NoRepeats(e.end) by { ForNoRepeats(e); }
    n, fr' := SimBodyAndStep(c, k, g, e, a, b, d, fr, vars, t);
    var r1 := Eval(k, c.m, c.p, e.body, vars, t);
    if r1.Done? {
      var r2 := EvalOption(k, c.m, c.p, e.step, c.m.unit, r1.vars, r1.trace);
      if r2.Done? {
        var n2, fr2 := SimExpr(c, k, b.g, e.end, fr', r2.vars, r2.trace);
        var r3 := Eval(k, c.m, c.p, e.end, r2.vars, r2.trace);
        ComposeExtends(c, k, g, fr, t, b.g, r2, n, fr', d.g, r3, n2, fr2);
        if r3.Done? {
          BeginsAfter(c, k, b.g, fr', r2.vars, r2.trace, e.end, r3, n2, fr2);
          KeepsValue(b.g, fr', fr2, b.value);
          ExtendsTrans(g, b.g, d.g);
        }
        n, fr' := n + n2, fr2;
      } else {
        TimeoutExtends(c, k, g, fr, t, b.g, r2, n, fr', d.g, Pass(k, c.m, c.p, e, vars, t));
      }
    } else {
      TimeoutExtends(c, k, g, fr, t, b.g, r1, n, fr', d.g, Pass(k, c.m, c.p, e, vars, t));
    }
  }

  lemma LoopWithin(c: Ctx, g: Gen, e: Expr, slot: nat, a: Out<Operand>, b: Out<Operand>, d: Out<Operand>)
    requires e.For? && Open(g) && IsLoop(c.m, g, e, a, b, d)
             && Within(EndLoop(c.m, d.g, g.cur, slot, b.value, d.value), c.code)
    ensures Within(d.g, c.code) && Within(g, c.code) && Open(d.g) && Extends(g, d.g)
            && Extends(d.g, EndLoop(c.m, d.g, g.cur, slot, b.value, d.value))
  {
    hide GenExpr, GenOption, EndLoop, Within;
    GenExprExtends(c.m, g, e.body);
    GenOptionExtends(c.m, a.g, e.step, c.m.unit);
    GenExprExtends(c.m, b.g, e.end);
    EndLoopExtends(c.m, d.g, g.cur, slot, b.value, d.value);
    ExtendsTrans(g, a.g, b.g);
    ExtendsTrans(g, b.g, d.g);
    WithinBack(d.g, EndLoop(c.m, d.g, g.cur, slot, b.value, d.value), c.code);
    WithinBack(g, d.g, c.code);
  }

  lemma AgreeAt(g: Gen, slots: map<nat, Double>, vars: Vars, x: string)
    requires Agree(g.named, slots, vars) && InScope(g) && x in g.named
    ensures g.named[x] in slots && g.named[x] < |g.allocas| && x in vars && slots[g.named[x]] == vars[x]
  {
  }

  lemma AgreeSet(g: Gen, slots: map<nat, Double>, vars: Vars, x: string, d: Double)
    requires Agree(g.named, slots, vars) && Injective(g.named) && x in g.named
    ensures Agree(g.named, slots[g.named[x] := d], vars[x := d])
  {
    assert vars[x := d].Keys == vars.Keys;
  }

  lemma WithinCur(g: Gen, code: Code)
    requires Within(g, code)
    ensures g.cur < |code.blocks| && code.blocks[g.cur].phis == g.blocks[g.cur].phis
  {
  }

  /** The end of one pass: the variable is incremented and control is at the loop's first block again or after it. */
  lemma SimNext(c: Ctx, k: nat, g: Gen, e: Expr, slot: nat, a: Out<Operand>, b: Out<Operand>, d: Out<Operand>,
                fr: Frame, vars: Vars, t: Trace, r: Outcome<(Double, Double)>, n: nat, fr1: Frame)
                    returns (n': nat, fr': Frame)
    requires e.For? && r.Done? && Begins(c, g, fr, vars) && e.name in g.named && g.named[e.name] == slot
             && g.blocks[g.cur] == EMPTY_BLOCK
    requires a.Good? && b.Good? && d.Good? && Within(EndLoop(c.m, d.g, g.cur, slot, b.value, d.value), c.code)
             && Within(g, c.code)
    requires Runs(c, k, g, fr, t, d.g, r, n, fr1) && Begins(c, d.g, fr1, r.vars) && d.g.named == g.named
             && Extends(g, d.g)
    requires Value(fr1, b.value) == Some(Dbl(r.value.0)) && Below(b.value, d.g.nregs)
    requires Value(fr1, d.value) == Some(Dbl(r.value.1)) && Below(d.value, d.g.nregs)
    ensures e.name in r.vars && n' >= 1 && n' >= n && Steps(c.m, c.mod, n', St(c, fr, t)) == St(c, fr', r.trace)
            && Kept(g, fr, fr') && Stays(c, g, EndLoop(c.m, d.g, g.cur, slot, b.value, d.value), fr, t, n')
    ensures Agree(g.named, fr'.slots, r.vars[e.name := c.m.add(r.vars[e.name], r.value.0)])
    ensures if c.m.one(r.value.1, c.m.zero) then At(fr', g)
            else At(fr', EndLoop(c.m, d.g, g.cur, slot, b.value, d.value))
  {
    hide Linked, Plain, EndLoop, Injective, InScope, Within, Agree, Stays, Steps;
    assert slot in fr1.slots && slot < |d.g.allocas| && e.name in r.vars && fr1.slots[slot] == r.vars[e.name] by {
      AgreeAt(d.g, fr1.slots, r.vars, e.name);
    }
    assert g.cur < |c.code.blocks| && c.code.blocks[g.cur].phis == [] by { WithinCur(g, c.code); }
    var n2, fr2 := SimEndLoop(c, d.g, g.cur, slot, b.value, d.value, fr1, r.trace, r.value.0, r.value.1);
    StepsAdd(c.m, c.mod, n, n2, St(c, fr, t));
    NextStays(c, g, d.g, EndLoop(c.m, d.g, g.cur, slot, b.value, d.value), fr, t, n, fr1, r.trace, n2) by {
      EndLoopExtends(c.m, d.g, g.cur, slot, b.value, d.value);
    }
    n', fr' := n + n2, fr2;
    AgreeSet(d.g, fr1.slots, r.vars, e.name, c.m.add(r.vars[e.name], r.value.0));
    assert slot in d.g.named.Values;
    assert Kept(d.g, fr1, fr2);
    KeptTrans(g, d.g, fr, fr1, fr2);
  }

  lemma NextStays(c: Ctx, g: Gen, d: Gen, h: Gen, fr: Frame, t: Trace, n1: nat, fr1: Frame, t1: Trace, n2: nat)
    requires Extends(g, d) && Extends(d, h) && Stays(c, g, d, fr, t, n1) && Stays(c, d, h, fr1, t1, n2)
    requires Steps(c.m, c.mod, n1, St(c, fr, t)) == St(c, fr1, t1)
    ensures Stays(c, g, h, fr, t, n1 + n2)
  {
    hide Stays, Steps, Covers, Extends;
    ExtendsSelf(g);
    ExtendsSelf(h);
    ExtendsCovers(g, g, d, h);
    ExtendsCovers(g, d, h, h);
    StaysWiden(c, g, d, g, h, fr, t, n1);
    StaysWiden(c, d, h, g, h, fr1, t1, n2);
    StaysAdd(c, g, h, fr, t, n1, fr1, t1, n2);
  }

  /** Back at the loop's first block when no more iterations are allowed. */
  lemma LoopTimesOut(c: Ctx, g: Gen, h: Gen, fr: Frame, t: Trace, n: nat, fr1: Frame, t1: Trace)
    requires Stays(c, g, h, fr, t, n) && Steps(c.m, c.mod, n, St(c, fr, t)) == St(c, fr1, t1)
    requires At(fr1, g) && h.cur != g.cur
    ensures Runs<()>(c, 0, g, fr, t, h, Timeout(t1), n, fr1)
  {
    StaysOnce(c, g, h, fr1, t1);
    hide Stays, Steps;
    StaysAdd(c, g, h, fr, t, n, fr1, t1, 1);
  }

  lemma NextBegins(c: Ctx, g: Gen, fr: Frame, fr': Frame, vars: Vars, vars': Vars)
    requires Begins(c, g, fr, vars) && At(fr', g) && Kept(g, fr, fr') && Agree(g.named, fr'.slots, vars')
    ensures Begins(c, g, fr', vars')
  {
    hide Linked, Plain, Agree, Injective, InScope, Open;
  }

  lemma LoopEndsElsewhere(m: Arith, g: Gen, d: Gen, slot: nat, step: Operand, end: Operand)
    requires Extends(g, d) && Open(d)
    ensures EndLoop(m, d, g.cur, slot, step, end).cur != g.cur
  {
    IncrementExtends(m, d, slot, step);
    EmitBinExtends(m, Increment(m, d, slot, step), FCmpONE, end, Lit(Dbl(m.zero)));
    hide Increment, EmitBin;
  }

  /** The loop: from its first block, however often it is repeated, to the block after it. */
  lemma {:induction false} SimLoop(c: Ctx, k: nat, g: Gen, e: Expr, slot: nat, fr: Frame, vars: Vars, t: Trace)
      returns (n: nat, fr': Frame)
    requires e.For? && NoRepeats(e) && Begins(c, g, fr, vars) && e.name in g.named && g.named[e.name] == slot
    requires g.blocks[g.cur] == EMPTY_BLOCK && GenLoop(c.m, g, e, slot).Good?
             && Within(GenLoop(c.m, g, e, slot).g, c.code)
    ensures Runs(c, k, g, fr, t, GenLoop(c.m, g, e, slot).g, EvalLoop(k, c.m, c.p, e, vars, t), n, fr')
    decreases k, 1, e, 2
  {
    hide Linked, Plain, GenExpr, GenOption, Eval, EvalOption, EndLoop, Within, Injective, Agree, InScope, Open,
        NoRepeats, Extends, Kept, At, Steps, Below, Value, Stays;
    var a := GenExpr(c.m, g, e.body);
    var b := GenOption(c.m, a.g, e.step, c.m.unit);
    var d := GenExpr(c.m, b.g, e.end);
    var h := EndLoop(c.m, d.g, g.cur, slot, b.value, d.value);
    LoopWithin(c, g, e, slot, a, b, d);
    n, fr' := SimPass(c, k, g, e, a, b, d, fr, vars, t);
    var r := Pass(k, c.m, c.p, e, vars, t);
    if r.Done? {
      var n2, fr2 := SimNext(c, k, g, e, slot, a, b, d, fr, vars, t, r, n, fr');
      if c.m.one(r.value.1, c.m.zero) && k > 0 {
        var vars4 := r.vars[e.name := c.m.add(r.vars[e.name], r.value.0)];
        NextBegins(c, g, fr, fr2, vars, vars4);
        var n3, fr3 := SimLoop(c, k - 1, g, e, slot, fr2, vars4, r.trace);
        ComposeFrom(c, k, k - 1, g, fr, t, n2, fr2, r.trace, h, EvalLoop(k - 1, c.m, c.p, e, vars4, r.trace), n3, fr3);
        n2, fr2 := n2 + n3, fr3;
      } else if c.m.one(r.value.1, c.m.zero) {
        LoopEndsElsewhere(c.m, g, d.g, slot, b.value, d.value);
        LoopTimesOut(c, g, h, fr, t, n2, fr2, r.trace);
      }
      n, fr' := n2, fr2;
    } else {
      TimeoutExtends(c, k, g, fr, t, d.g, r, n, fr', h, EvalLoop(k, c.m, c.p, e, vars, t));
    }
  }

  /** The state at the loop's first block. */
  lemma ForBegins(c: Ctx, g: Gen, a: Gen, e: Expr, v: Operand, fr: Frame, vars: Vars, t: Trace, d: Double)
      returns (n: nat, fr': Frame)
    requires e.For? && Begins(c, a, fr, vars) && a.named == g.named && |g.allocas| < |a.allocas|
             && |g.allocas| !in a.named.Values
    requires Value(fr, v) == Some(Dbl(d))
    requires var g1 := Emit(a, Store(v, |g.allocas|));
             var s := BeginLoop(g1); Within(s, c.code)
    ensures var s0 := BeginLoop(Emit(a, Store(v, |g.allocas|)));
            var s := s0.(named := s0.named[e.name := |g.allocas|]);
            && Steps(c.m, c.mod, n, St(c, fr, t)) == St(c, fr', t) && Begins(c, s, fr', vars[e.name := d])
            && fr'.slots == fr.slots[|g.allocas| := d] && fr'.regs == fr.regs && fr'.args == fr.args && fr'.fn == fr.fn
            && Stays(c, a, s, fr, t, n)
  {
    hide Linked, Plain, Steps;
    var slot := |g.allocas|;
    var g1 := Emit(a, Store(v, slot));
    var s0 := BeginLoop(g1);
    var s := s0.(named := s0.named[e.name := slot]);
    WithinCloses(g1, Br(|g1.blocks|), s0, c.code);
    var fr1 := SimStore(c, a, slot, v, fr, t, d);
    SimBr(c, fr1, t, |g1.blocks|);
    StepsAdd(c.m, c.mod, 1, 1, St(c, fr, t));
    StraightThenJump(c, a, s, fr, t, 1, fr1);
    n, fr' := 2, fr1.(block := |g1.blocks|, pc := 0);
    assert s.named.Keys == vars[e.name := d].Keys;
  }

  lemma AllocaBegins(c: Ctx, g: Gen, x: string, fr: Frame, vars: Vars)
    requires Begins(c, g, fr, vars)
    ensures Begins(c, Alloca(g, x), fr, vars)
  {
    hide Linked, Plain, Agree, Injective;
  }

  /** The main simulation for `for`. */
  lemma {:induction false} SimFor(c: Ctx, k: nat, g: Gen, e: Expr, fr: Frame, vars: Vars, t: Trace)
      returns (n: nat, fr': Frame)
    requires e.For? && Begins(c, g, fr, vars) && NoRepeats(e)
    requires GenFor(c.m, g, e).Good? && Within(GenFor(c.m, g, e).g, c.code)
    ensures RunsTo(c, k, g, fr, t, GenFor(c.m, g, e), EvalFor(k, c.m, c.p, e, vars, t), n, fr')
    decreases k, 1, e, 3
  {
    hide Linked, Plain, GenExpr, GenLoop, Eval, EvalLoop, BeginLoop, Within, Injective, Agree, Extends, Kept, InScope,
        Open, Steps, NoRepeats, Stays, Covers;
    ForNoRepeats(e);
    var slot := |g.allocas|;
    var g0 := Alloca(g, e.name);
    var a := GenExpr(c.m, g0, e.start);
    var s0 := BeginLoop(Emit(a.g, Store(a.value, slot)));
    var s := s0.(named := s0.named[e.name := slot]);
    var h := GenLoop(c.m, s, e, slot);
    ForStatic(c, g, e);
    AllocaBegins(c, g, e.name, fr, vars);
    n, fr' := SimExpr(c, k, g0, e.start, fr, vars, t);
    var r1 := Eval(k, c.m, c.p, e.start, vars, t);
    if r1.Done? {
      BeginsAfter(c, k, g0, fr, vars, t, e.start, r1, n, fr');
      KeptWeaken(g, g0, fr, fr');
      StaysSame(c, g0, a.g, g, a.g, fr, t, n);
      assert Runs(c, k, g, fr, t, a.g, r1, n, fr');
      var n2, fr2 := ForBegins(c, g, a.g, e, a.value, fr', r1.vars, r1.trace, r1.value);
      var n3, fr3 := SimLoop(c, k, s, e, slot, fr2, r1.vars[e.name := r1.value], r1.trace);
      var r := EvalLoop(k, c.m, c.p, e, r1.vars[e.name := r1.value], r1.trace);
      ComposeBinding(c, k, g, fr, t, a.g, r1, n, fr', e.name, slot, s, n2, fr2, h.g, r, n3, fr3);
      n, fr' := n + (n2 + n3), fr3;
    } else {
      ForCovers(g, e.name, a.g, s, h.g);
      TimeoutWiden(c, k, g0, fr, t, a.g, r1, n, fr', g, h.g, EvalFor(k, c.m, c.p, e, vars, t));
    }
    RunsEnd(c, k, g, fr, t, h.g, EvalFor(k, c.m, c.p, e, vars, t), n, fr', GenFor(c.m, g, e).g);
  }

  lemma ForCovers(g: Gen, x: string, a: Gen, s: Gen, h: Gen)
    requires Extends(Alloca(g, x), a) && Extends(a, s) && Extends(s, h)
    ensures Covers(g, h, Alloca(g, x), a)
  {
    ExtendsTrans(a, s, h);
    ExtendsCovers(g, Alloca(g, x), a, h);
  }

  lemma ForStatic(c: Ctx, g: Gen, e: Expr)
    requires e.For? && Open(g) && InScope(g) && NoRepeats(e) && GenFor(c.m, g, e).Good?
             && Within(GenFor(c.m, g, e).g, c.code)
    ensures var slot := |g.allocas|;
            var a := GenExpr(c.m, Alloca(g, e.name), e.start);
            var s0 := BeginLoop(Emit(a.g, Store(a.value, slot)));
            var s := s0.(named := s0.named[e.name := slot]);
            && a.Good? && Within(a.g, c.code) && Within(s0, c.code) && s.blocks[s.cur] == EMPTY_BLOCK
            && GenLoop(c.m, s, e, slot).Good? && Within(GenLoop(c.m, s, e, slot).g, c.code)
            && a.g.named == g.named && slot !in a.g.named.Values && slot < |a.g.allocas| && g.nregs <= a.g.nregs
            && s.named == a.g.named[e.name := slot] && a.g.nregs <= s.nregs && |a.g.allocas| <= |s.allocas|
            && (Extends(Alloca(g, e.name), a.g) && Extends(g, a.g) && Extends(a.g, s)
                && Extends(s, GenLoop(c.m, s, e, slot).g)) == true
  {
    ForNoRepeats(e);
    ForNames(c.m, g, e);
    ForCode(c, g, e);
    hide GenExpr, GenLoop, NoRepeats, Within, BeginLoop, Emit;
  }

  lemma ForNames(m: Arith, g: Gen, e: Expr)
    requires e.For? && Open(g) && InScope(g) && NoRepeats(e.start) && GenFor(m, g, e).Good?
    ensures var slot := |g.allocas|;
            var a := GenExpr(m, Alloca(g, e.name), e.start);
            var s0 := BeginLoop(Emit(a.g, Store(a.value, slot)));
            && a.Good? && a.g.named == g.named && slot !in a.g.named.Values && slot < |a.g.allocas|
               && g.nregs <= a.g.nregs && Open(a.g)
            && s0.named == a.g.named && a.g.nregs <= s0.nregs && |a.g.allocas| <= |s0.allocas|
               && s0.blocks[s0.cur] == EMPTY_BLOCK
  {
    hide GenExpr, GenLoop, Leaks, NoRepeats;
    var g0 := Alloca(g, e.name);
    GenExprExtends(m, g0, e.start);
    ScopeAfter(m, g0, e.start);
    ScopeRestored(m, g0, e.start);
  }

  lemma ForCode(c: Ctx, g: Gen, e: Expr)
    requires e.For? && Open(Alloca(g, e.name)) && GenFor(c.m, g, e).Good? && Within(GenFor(c.m, g, e).g, c.code)
    ensures var slot := |g.allocas|;
            var a := GenExpr(c.m, Alloca(g, e.name), e.start);
            var s0 := BeginLoop(Emit(a.g, Store(a.value, slot)));
            var s := s0.(named := s0.named[e.name := slot]);
            && a.Good? && GenLoop(c.m, s, e, slot).Good?
            && (Within(a.g, c.code) && Within(s0, c.code) && Within(GenLoop(c.m, s, e, slot).g, c.code)) == true
            && (Extends(Alloca(g, e.name), a.g) && Extends(g, a.g) && Extends(a.g, s)
                && Extends(s, GenLoop(c.m, s, e, slot).g)) == true
  {
    hide GenExpr, GenLoop, Within, Extends, BeginLoop, Emit;
    var slot := |g.allocas|;
    var g0 := Alloca(g, e.name);
    GenExprExtends(c.m, g0, e.start);
    var a := GenExpr(c.m, g0, e.start);
    var g1 := Emit(a.g, Store(a.value, slot));
    EmitExtends(a.g, Store(a.value, slot));
    BeginLoopExtends(g1);
    var s0 := BeginLoop(g1);
    var s := s0.(named := s0.named[e.name := slot]);
    GenLoopExtends(c.m, s, e, slot);
    var h := GenLoop(c.m, s, e, slot).g;
    RenamedWithin(h, RestoreName(h.named, e.name, Lookup(s0.named, e.name)), c.code);
    WithinBack(s, h, c.code);
    RenamedWithin(s0, s.named, c.code);
    WithinBack(g1, s0, c.code);
    WithinBack(a.g, g1, c.code);
    ExtendsTrans(a.g, g1, s0);
    ExtendsFrame(a.g, s0, a.g, s);
    ExtendsFrame(g0, a.g, g, a.g);
  }

  /** Scopes do not matter, nor that slots were allocated before. */
  lemma ExtendsFrame(g: Gen, h: Gen, g': Gen, h': Gen)
    requires Extends(g, h) && g'.blocks == g.blocks && g'.cur == g.cur && g'.nregs == g.nregs
             && |g'.allocas| <= |g.allocas|
    requires h'.blocks == h.blocks && h'.cur == h.cur && h'.nregs == h.nregs && h'.allocas == h.allocas
    ensures Extends(g', h')
  {
  }

  lemma RenamedWithin(g: Gen, named: map<string, nat>, code: Code)
    requires Within(g.(named := named), code)
    ensures Within(g, code)
  {
  }

  lemma ForNoRepeats(e: Expr)
    requires e.For? && NoRepeats(e)
    ensures NoRepeats(e.start) && NoRepeats(e.end) && NoRepeats(e.body)
  {
  }

  /** The main simulation: every expression, under every bound, from every insert point. */
  lemma {:induction false} SimExpr(c: Ctx, k: nat, g: Gen, e: Expr, fr: Frame, vars: Vars, t: Trace)
      returns (n: nat, fr': Frame)
    requires Begins(c, g, fr, vars) && NoRepeats(e)
    requires GenExpr(c.m, g, e).Good? && Within(GenExpr(c.m, g, e).g, c.code)
    ensures RunsTo(c, k, g, fr, t, GenExpr(c.m, g, e), Eval(k, c.m, c.p, e, vars, t), n, fr')
    decreases k, 1, e, 4
  {
    hide Linked, Plain, Within, NoRepeats, Injective, InScope;
    hide GenIf, GenFor, GenVarIn, GenUnary, GenBinary, GenAssign, GenCall, EvalIf, EvalFor, EvalBinary, EvalVarIn,
        EvalArgs, Apply;
    match e
    case Number(_) => n, fr' := 0, fr;
    case Variable(x) => n, fr' := SimVariable(c, k, g, x, fr, vars, t);
    case VarIn(_, _) => n, fr' := SimVar(c, k, g, e, fr, vars, t);
    case Unary(_, _) => n, fr' := SimUnary(c, k, g, e, fr, vars, t);
    case Binary(op, _, _) =>
      if op == '=' {
        n, fr' := SimAssignment(c, k, g, e, fr, vars, t);
      } else {
        n, fr' := SimBinary(c, k, g, e, fr, vars, t);
      }
    case If(_, _, _) => n, fr' := SimIf(c, k, g, e, fr, vars, t);
    case For(_, _, _, _, _) => n, fr' := SimFor(c, k, g, e, fr, vars, t);
    case Call(_, _) => n, fr' := SimCall(c, k, g, e, fr, vars, t);
  }

  lemma {:induction false} SimVar(c: Ctx, k: nat, g: Gen, e: Expr, fr: Frame, vars: Vars, t: Trace)
      returns (n: nat, fr': Frame)
    requires e.VarIn? && Begins(c, g, fr, vars) && NoRepeats(e)
    requires GenVarIn(c.m, g, e).Good? && Within(GenVarIn(c.m, g, e).g, c.code)
    ensures RunsTo(c, k, g, fr, t, GenVarIn(c.m, g, e), EvalVarIn(k, c.m, c.p, e, 0, vars, t), n, fr')
    decreases k, 1, e, 3
  {
    hide Linked, Plain, GenExpr, GenBindings, EvalVarIn, RestoreAll;
    assert e.bindings[0..] == e.bindings;
    n, fr' := SimVarIn(c, k, g, e, 0, map[], fr, vars, t);
  }
}
